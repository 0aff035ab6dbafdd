/** From what a child process leaves behind to the status of its pipeline, on the parallel path
    (`_process_completed_job`) and on the sequential one (`run_pipeline`). */
module Classification {
  import opened Common
  import Scheduler

  /** The child's JSON line; absent keys are `None`. */
  datatype Report = Report(
    status: Option<string>, error: Option<string>, category: Option<string>,
    peakMemory: real, outputPath: Option<string>)

  datatype Comparison = Comparison(passed: bool, baselineExists: bool, metrics: map<string, real>, message: string)

  datatype Limits = Limits(maxElapsed: Option<real>, maxMemory: Option<real>)

  /** Everything but the exit code.  `report` is `None` when no parsable, non-empty line was printed;
      `comparison` is what the baseline comparison answers for the reported output; `elapsed` and the
      report's memory are rounded; `perfNote` and `memNote` are the formatted threshold notes. */
  datatype Evidence = Evidence(
    report: Option<Report>, stderrOom: bool, elapsed: real, comparison: Comparison,
    updateBaseline: bool, outputExists: bool, perfNote: string, memNote: string, timeoutNote: string)

  datatype Result = Result(
    status: string, elapsed: real, peakMemory: real, category: string, error: string,
    metrics: map<string, real>, note: string)

  function CodeText(code: int): string {
    if code < 0 then "-" + Decimal(-code) else Decimal(code)
  }

  /** The first 60 characters. */
  function First60(s: string): (r: string)
    ensures r <= s && |r| <= 60 && (|r| < 60 ==> r == s)
  {
    if |s| <= 60 then s else s[..60]
  }

  function Or(value: Option<string>, default: string): string {
    if value.None? then default else value.value
  }

  predicate Exceeds(value: real, limit: Option<real>) {
    limit.Some? && limit.value != 0.0 && value > limit.value
  }

  /** The result object as first built, before any comparison. */
  function Collected(e: Evidence, code: int): Result {
    var status := if e.report.None? then "ERROR" else Or(e.report.value.status, "ERROR");
    var message := if e.report.None? then "" else Or(e.report.value.error, "");
    var category := if e.report.None? then "" else Or(e.report.value.category, "");
    var peak := if e.report.None? then 0.0 else e.report.value.peakMemory;
    var fallback := if category == "" && e.stderrOom then "OOM_ERROR" else category;
    var text := if e.report.None? && code != 0 then "Process exited with code " + CodeText(code) else message;
    Result(status, e.elapsed, peak, fallback, text, map[], "")
  }

  function Compared(r: Result, e: Evidence): Result {
    if r.status != "PASS" then r
    else
      var updated := e.updateBaseline && e.comparison.baselineExists && e.outputExists;
      r.(metrics := e.comparison.metrics,
         note := e.comparison.message + if updated then " [baseline updated]" else "",
         status := if e.comparison.passed then r.status else "FAIL")
  }

  function WithinTime(r: Result, e: Evidence, limits: Limits): Result {
    if r.status == "PASS" && Exceeds(r.elapsed, limits.maxElapsed)
    then r.(status := "FAIL", note := r.note + e.perfNote)
    else r
  }

  function WithinMemory(r: Result, e: Evidence, limits: Limits): Result {
    if r.status == "PASS" && Exceeds(r.peakMemory, limits.maxMemory)
    then r.(status := "FAIL", note := r.note + e.memNote)
    else r
  }

  function Explained(r: Result): Result {
    if r.status == "PASS" || r.note != "" then r
    else
      var note := First60(r.error);
      r.(note := if r.category != "" then "[" + r.category + "] " + note else note)
  }

  /** What becomes of a child that has exited. */
  function Classified(e: Evidence, code: int, limits: Limits): Result {
    Explained(WithinMemory(WithinTime(Compared(Collected(e, code), e), e, limits), e, limits))
  }

  function TimedOutResult(e: Evidence): Result {
    Result("TIMEOUT", e.elapsed, 0.0, "", "", map[], e.timeoutNote)
  }

  /** The parallel path, for a child that has exited. */
  method ProcessCompletedJob(e: Evidence, code: int, limits: Limits) returns (r: Result)
    ensures r == Classified(e, code, limits)
  {
    var status, message, category, peak := "ERROR", "", "", 0.0;
    if e.report.Some? {
      status, message := Or(e.report.value.status, "ERROR"), Or(e.report.value.error, "");
      category, peak := Or(e.report.value.category, ""), e.report.value.peakMemory;
    }
    if category == "" && e.stderrOom {
      category := "OOM_ERROR";
    }
    if e.report.None? && code != 0 {
      message := "Process exited with code " + CodeText(code);
    }
    r := Result(status, e.elapsed, peak, category, message, map[], "");
    assert r == Collected(e, code);
    if status == "PASS" {
      r := r.(metrics := e.comparison.metrics, note := e.comparison.message);
      if !e.comparison.passed {
        r := r.(status := "FAIL");
      }
      if e.updateBaseline && e.comparison.baselineExists && e.outputExists {
        r := r.(note := r.note + " [baseline updated]");
      }
    }
    assert r == Compared(Collected(e, code), e);
    if r.status == "PASS" && Exceeds(r.elapsed, limits.maxElapsed) {
      r := r.(status := "FAIL", note := r.note + e.perfNote);
    }
    if r.status == "PASS" && Exceeds(r.peakMemory, limits.maxMemory) {
      r := r.(status := "FAIL", note := r.note + e.memNote);
    }
    if r.status != "PASS" && r.note == "" {
      r := r.(note := First60(message));
      if category != "" {
        r := r.(note := "[" + category + "] " + r.note);
      }
    }
  }

  /** The parallel path, for a child killed after its grace period. */
  method ProcessTimeoutJob(e: Evidence) returns (r: Result)
    ensures r.status == "TIMEOUT" && r.note == e.timeoutNote && r.elapsed == e.elapsed
    ensures r.category == r.error == "" && r.peakMemory == 0.0 && r.metrics == map[]
  {
    return Result("TIMEOUT", e.elapsed, 0.0, "", "", map[], e.timeoutNote);
  }

  // ----- one child on both paths

  /** When the child exits by itself while someone reads its output, counted from its start, if it
      ever does; with which code; and how much it prints by then on the larger of its two streams. */
  datatype Child = Child(exit: Option<int>, code: int, printed: nat)

  predicate ExitsBy(child: Child, elapsed: int) {
    child.exit.Some? && child.exit.value <= elapsed
  }

  /** Nobody reads while the parallel path polls: a child that prints more than a pipe holds blocks. */
  predicate ExitsUnread(child: Child, elapsed: int, pipe: nat) {
    ExitsBy(child, elapsed) && child.printed <= pipe
  }

  const KILLED := -9

  /** The code the sequential path gets, which reads the output all along in both modes: its own one
      from a child that exits in time; otherwise -1 in capture mode and, in verbose mode, that of the
      killed process. */
  function RunSubprocess(child: Child, timeout: nat, verbose: bool): int {
    if ExitsBy(child, timeout) then child.code else if verbose then KILLED else -1
  }

  /** What the sequential path makes of a child. */
  function SequentialResult(e: Evidence, child: Child, timeout: nat, verbose: bool, limits: Limits): Result {
    var code := RunSubprocess(child, timeout, verbose);
    if code == -1 then TimedOutResult(e) else Classified(e, code, limits)
  }

  /** One poll of the parallel path: a result if the job ends at this poll. */
  function PollResult(e: Evidence, child: Child, job: Scheduler.Job, now: int, watch: Watch): Option<Result> {
    var exited := ExitsUnread(child, now - job.start, watch.pipe);
    var result := Classified(e, child.code, watch.limits);
    var seen := Scheduler.Observation(if exited then Some(result.status) else None, now);
    if Scheduler.Verdict(job, seen, watch.grace).None? then None
    else Some(if exited then result else TimedOutResult(e))
  }

  /** How the parallel path watches a job: the clock at each poll, the grace period, what a pipe holds,
      and the limits of the pipeline. */
  datatype Watch = Watch(polls: nat -> int, grace: nat, pipe: nat, limits: Limits)

  /** The parallel path after `n` polls. */
  function ParallelResult(e: Evidence, child: Child, job: Scheduler.Job, watch: Watch, n: nat): Option<Result> {
    if n == 0 then None
    else
      var before := ParallelResult(e, child, job, watch, n - 1);
      if before.Some? then before else PollResult(e, child, job, watch.polls(n - 1), watch)
  }

  /** Poll `k` is the first after the timeout and the grace period. */
  ghost predicate KillPoll(job: Scheduler.Job, watch: Watch, k: nat) {
    && watch.polls(k) - job.start > job.pipeline.timeout + watch.grace
    && forall j: nat :: j < k ==> watch.polls(j) - job.start <= job.pipeline.timeout + watch.grace
  }

  /** With a clock that advances by at least one unit from poll to poll there is such a poll. */
  lemma KillPollExists(job: Scheduler.Job, watch: Watch) returns (k: nat)
    requires watch.polls(0) >= job.start && forall j: nat :: watch.polls(j) < watch.polls(j + 1)
    ensures KillPoll(job, watch, k)
  {
    k := 0;
    var deadline := job.start + job.pipeline.timeout + watch.grace;
    while watch.polls(k) <= deadline
      invariant watch.polls(k) >= job.start
      invariant forall j: nat :: j < k ==> watch.polls(j) <= deadline
      decreases deadline - watch.polls(k)
    {
      assert watch.polls(k) < watch.polls(k + 1);
      k := k + 1;
    }
  }

  predicate SeenExited(child: Child, job: Scheduler.Job, watch: Watch, k: nat) {
    ExitsUnread(child, watch.polls(k) - job.start, watch.pipe)
  }

  lemma {:induction false} BeforeKill(e: Evidence, child: Child, job: Scheduler.Job, watch: Watch, kill: nat, n: nat)
    requires KillPoll(job, watch, kill) && n <= kill
    ensures
      ParallelResult(e, child, job, watch, n)
      == if exists j: nat :: j < n && SeenExited(child, job, watch, j)
         then Some(Classified(e, child.code, watch.limits)) else None
  {
    if n > 0 {
      BeforeKill(e, child, job, watch, kill, n - 1);
      assert SeenExited(child, job, watch, n - 1) ==> exists j: nat :: j < n && SeenExited(child, job, watch, j);
    }
  }

  /** How the parallel path ends a job: a child that is seen to have exited by the kill poll is
      classified, even one that outlived its timeout; any other is killed and reported as TIMEOUT. */
  lemma {:induction false} ParallelEnding(e: Evidence, child: Child, job: Scheduler.Job, watch: Watch,
                                          kill: nat, n: nat)
    requires KillPoll(job, watch, kill) && n > kill
    ensures ParallelResult(e, child, job, watch, n)
            == Some(if SeenExited(child, job, watch, kill) then Classified(e, child.code, watch.limits)
                    else TimedOutResult(e))
  {
    if n > kill + 1 {
      ParallelEnding(e, child, job, watch, kill, n - 1);
    } else {
      BeforeKill(e, child, job, watch, kill, kill);
    }
  }

  /** The sequential path, written out on its own as in the source. */
  method RunPipeline(e: Evidence, child: Child, timeout: nat, verbose: bool, limits: Limits) returns (r: Result)
    ensures r == SequentialResult(e, child, timeout, verbose, limits)
  {
    var code := RunSubprocess(child, timeout, verbose);
    if code == -1 {
      return Result("TIMEOUT", e.elapsed, 0.0, "", "", map[], e.timeoutNote);
    }
    var status, message, category, peak := "ERROR", "", "", 0.0;
    if e.report.Some? {
      status, message := Or(e.report.value.status, "ERROR"), Or(e.report.value.error, "");
      category, peak := Or(e.report.value.category, ""), e.report.value.peakMemory;
    }
    if category == "" && e.stderrOom {
      category := "OOM_ERROR";
    }
    if e.report.None? && code != 0 {
      message := "Process exited with code " + CodeText(code);
    }
    r := Result(status, e.elapsed, peak, category, message, map[], "");
    assert r == Collected(e, code);
    if status == "PASS" {
      r := r.(metrics := e.comparison.metrics, note := e.comparison.message);
      if !e.comparison.passed {
        r := r.(status := "FAIL");
      }
      if e.updateBaseline && e.comparison.baselineExists && e.outputExists {
        r := r.(note := r.note + " [baseline updated]");
      }
    }
    assert r == Compared(Collected(e, code), e);
    if r.status == "PASS" && Exceeds(r.elapsed, limits.maxElapsed) {
      r := r.(status := "FAIL", note := r.note + e.perfNote);
    }
    if r.status == "PASS" && Exceeds(r.peakMemory, limits.maxMemory) {
      r := r.(status := "FAIL", note := r.note + e.memNote);
    }
    if r.status != "PASS" && r.note == "" {
      r := r.(note := First60(message));
      if category != "" {
        r := r.(note := "[" + category + "] " + r.note);
      }
    }
  }

  lemma KilledText(code: int)
    requires code != KILLED
    ensures CodeText(code) != CodeText(KILLED)
  {
    assert CodeText(KILLED) == "-" + Decimal(9);
    DecimalReads(9);
    if code >= 0 {
      assert CodeText(code)[0] != '-';
    } else {
      DecimalReads(-code);
      assert CodeText(code)[1..] == Decimal(-code) && CodeText(KILLED)[1..] == Decimal(9);
    }
  }

  /** What a child leaves behind that prints nothing. */
  function Silence(): Evidence {
    Evidence(None, false, 0.0, Comparison(true, true, map[], ""), false, false, "", "", "")
  }

  lemma SilentFields(code: int, limits: Limits)
    ensures Classified(Silence(), code, limits).status == "ERROR"
    ensures Classified(Silence(), code, limits).error
            == if code == 0 then "" else "Process exited with code " + CodeText(code)
    ensures TimedOutResult(Silence()).status == "TIMEOUT"
  {
    NotPassing(Collected(Silence(), code), Silence(), limits);
  }

  lemma ClassifiedApart(code: int, limits: Limits)
    requires code != KILLED
    ensures Classified(Silence(), code, limits) != Classified(Silence(), KILLED, limits)
  {
    SilentFields(code, limits);
    SilentFields(KILLED, limits);
    KilledText(code);
    if code != 0 {
      var front := "Process exited with code ";
      assert (front + CodeText(code))[|front|..] == CodeText(code);
      assert (front + CodeText(KILLED))[|front|..] == CodeText(KILLED);
    }
  }

  /** The children on which both paths agree.  If the output fits the pipes: those that exit in time,
      unless with -1, the code that stands for a timeout; those that the kill poll still finds
      running, in capture mode; and those that exit in between, only in verbose mode and with the
      code of a killed process.  If it does not, the parallel path reports TIMEOUT, and the
      sequential path does so for those that exit in time with -1 and, in capture mode, for those
      that do not exit in time. */
  ghost predicate Agreeing(child: Child, timeout: nat, cutoff: int, pipe: nat, verbose: bool) {
    if ExitsBy(child, timeout) then child.printed <= pipe <==> child.code != -1
    else if ExitsUnread(child, cutoff, pipe) then verbose && child.code == KILLED
    else !verbose
  }

  /** Whatever the child prints, both paths report the same result in every field. */
  ghost predicate SameResult(child: Child, job: Scheduler.Job, watch: Watch, n: nat, verbose: bool) {
    forall e :: ParallelResult(e, child, job, watch, n)
                == Some(SequentialResult(e, child, job.pipeline.timeout, verbose, watch.limits))
  }

  /** After the kill poll the two paths agree if and only if the child is one of these. */
  lemma PathsAgreeExactly(child: Child, job: Scheduler.Job, watch: Watch, kill: nat, n: nat, verbose: bool)
    requires KillPoll(job, watch, kill) && n > kill
    ensures SameResult(child, job, watch, n, verbose)
            <==> Agreeing(child, job.pipeline.timeout, watch.polls(kill) - job.start, watch.pipe, verbose)
  {
    var timeout, cutoff := job.pipeline.timeout, watch.polls(kill) - job.start;
    forall e {
      ParallelEnding(e, child, job, watch, kill, n);
    }
    if !Agreeing(child, timeout, cutoff, watch.pipe, verbose) {
      Disagreement(child, timeout, cutoff, watch.pipe, verbose, watch.limits);
      assert ParallelResult(Silence(), child, job, watch, n)
             != Some(SequentialResult(Silence(), child, timeout, verbose, watch.limits));
    }
  }

  lemma Disagreement(child: Child, timeout: nat, cutoff: int, pipe: nat, verbose: bool, limits: Limits)
    requires cutoff >= timeout && !Agreeing(child, timeout, cutoff, pipe, verbose)
    ensures SequentialResult(Silence(), child, timeout, verbose, limits)
            != if ExitsUnread(child, cutoff, pipe) then Classified(Silence(), child.code, limits)
               else TimedOutResult(Silence())
  {
    SilentFields(child.code, limits);
    SilentFields(KILLED, limits);
    if child.code != KILLED {
      ClassifiedApart(child.code, limits);
    }
  }

  /** On every clock that advances from poll to poll: the first poll after the grace period decides,
      and from then on the paths agree exactly on the children described. */
  lemma PathsAgreeInTheEnd(child: Child, job: Scheduler.Job, watch: Watch, verbose: bool) returns (kill: nat)
    requires watch.polls(0) >= job.start && forall j: nat :: watch.polls(j) < watch.polls(j + 1)
    ensures KillPoll(job, watch, kill)
    ensures forall n: nat :: n > kill ==>
              (SameResult(child, job, watch, n, verbose)
               <==> Agreeing(child, job.pipeline.timeout, watch.polls(kill) - job.start, watch.pipe, verbose))
  {
    kill := KillPollExists(job, watch);
    forall n: nat | n > kill
      ensures SameResult(child, job, watch, n, verbose)
              <==> Agreeing(child, job.pipeline.timeout, watch.polls(kill) - job.start, watch.pipe, verbose)
    {
      PathsAgreeExactly(child, job, watch, kill, n, verbose);
    }
  }

  /** A child that exits at once, successfully, after printing one character more than a pipe holds: a
      PASS on the sequential path in both modes, a TIMEOUT on the parallel one. */
  lemma ChattyChildTimesOut(e: Evidence, job: Scheduler.Job, watch: Watch, kill: nat, verbose: bool)
    requires KillPoll(job, watch, kill) && e.report.Some? && e.report.value.status == Some("PASS")
    requires e.comparison.passed && watch.limits == Limits(None, None)
    ensures
      var child := Child(Some(0), 0, watch.pipe + 1);
      && SequentialResult(e, child, job.pipeline.timeout, verbose, watch.limits).status == "PASS"
      && ParallelResult(e, child, job, watch, kill + 1) == Some(TimedOutResult(e))
  {
    ParallelEnding(e, Child(Some(0), 0, watch.pipe + 1), job, watch, kill, kill + 1);
  }

  /** A child that outlives its timeout is reported as TIMEOUT by the sequential path, whatever it had
      printed, exactly in capture mode. */
  lemma TimeoutReportedExactly(child: Child, timeout: nat, verbose: bool, limits: Limits)
    requires !ExitsBy(child, timeout)
    ensures (forall e :: SequentialResult(e, child, timeout, verbose, limits) == TimedOutResult(e)) <==> !verbose
  {
    if verbose {
      SilentFields(KILLED, limits);
      assert SequentialResult(Silence(), child, timeout, verbose, limits).status == "ERROR";
    }
  }

  /** PASS means: the child said PASS, the comparison passed, and no enabled limit is exceeded.  A
      child that said PASS is otherwise FAIL; one that did not keeps its own status. */
  lemma PassExactly(e: Evidence, code: int, limits: Limits)
    ensures Classified(e, code, limits).status == "PASS" <==>
            && e.report.Some? && e.report.value.status == Some("PASS")
            && e.comparison.passed
            && (limits.maxElapsed.None? || limits.maxElapsed.value == 0.0 || e.elapsed <= limits.maxElapsed.value)
            && (limits.maxMemory.None? || limits.maxMemory.value == 0.0
                || e.report.value.peakMemory <= limits.maxMemory.value)
    ensures e.report.Some? && e.report.value.status == Some("PASS") ==>
              Classified(e, code, limits).status in {"PASS", "FAIL"}
    ensures e.report.Some? && e.report.value.status.Some? && e.report.value.status.value != "PASS" ==>
              Classified(e, code, limits).status == e.report.value.status.value
  {
  }

  /** Comparison and limits concern only a child that said PASS. */
  lemma NotPassing(r: Result, e: Evidence, limits: Limits)
    requires r.status != "PASS"
    ensures WithinMemory(WithinTime(Compared(r, e), e, limits), e, limits) == r
  {
  }

  /** The child said PASS. */
  predicate SaidPass(e: Evidence) {
    e.report.Some? && e.report.value.status == Some("PASS")
  }

  /** Error, memory and time are what was measured and reported; the category is the reported one, or
      found in the error output when none is; metrics come from the comparison, for a child that said
      PASS only. */
  lemma FieldsReported(e: Evidence, code: int, limits: Limits)
    ensures
      var r := Classified(e, code, limits);
      && r.elapsed == e.elapsed
      && r.metrics == (if SaidPass(e) then e.comparison.metrics else map[])
      && (e.report.Some? ==>
            && r.peakMemory == e.report.value.peakMemory
            && (e.report.value.error.Some? ==> r.error == e.report.value.error.value)
            && (e.report.value.error.None? ==> r.error == "")
            && (e.report.value.category.Some? && e.report.value.category.value != "" ==>
                  r.category == e.report.value.category.value))
      && (e.report.None? || e.report.value.category.None? || e.report.value.category.value == "" ==>
            r.category == if e.stderrOom then "OOM_ERROR" else "")
      && (e.report.None? ==> r.peakMemory == 0.0 && (code == 0 ==> r.error == ""))
  {
  }

  /** The comparison's message, marked when the baseline was replaced: only for a child that said PASS,
      with updating asked for, an old baseline and an output to replace it. */
  function ComparisonNote(e: Evidence): string {
    if e.updateBaseline && e.comparison.baselineExists && e.outputExists
    then e.comparison.message + " [baseline updated]" else e.comparison.message
  }

  /** The note of a child that said PASS is the comparison's, followed by the one limit that made it
      FAIL, if any; every other note that would be empty explains the failure by category and error. */
  lemma NoteExactly(e: Evidence, code: int, limits: Limits)
    ensures
      var r := Classified(e, code, limits);
      var slow, big := Exceeds(e.elapsed, limits.maxElapsed), Exceeds(r.peakMemory, limits.maxMemory);
      var note := if !SaidPass(e) then "" else if !e.comparison.passed then ComparisonNote(e)
                  else if slow then ComparisonNote(e) + e.perfNote
                  else if big then ComparisonNote(e) + e.memNote else ComparisonNote(e);
      r.note == if note != "" || r.status == "PASS" then note
                else if r.category != "" then "[" + r.category + "] " + First60(r.error) else First60(r.error)
  {
  }

  /** A child that dies of memory exhaustion without a report is told apart from other crashes, and
      the note names its category and exit code. */
  lemma SilentCrashExplained(e: Evidence, code: int, limits: Limits)
    requires e.report.None? && code != 0
    ensures
      var r := Classified(e, code, limits);
      && r.status == "ERROR"
      && r.error == "Process exited with code " + CodeText(code)
      && r.category == (if e.stderrOom then "OOM_ERROR" else "")
      && r.note == if e.stderrOom then "[OOM_ERROR] " + First60(r.error) else First60(r.error)
  {
    var r := Collected(e, code);
    NotPassing(r, e, limits);
    assert "[" + "OOM_ERROR" + "] " == "[OOM_ERROR] ";
  }
}
