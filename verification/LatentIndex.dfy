/** The resumable latent dataset: per-record files, an append-only index, an in-memory done set,
    and a process that may crash between any two operations. */
module LatentIndex {
  import opened Common

  type Req = string
  type Step = nat

  /** A file remembers which attempt wrote it; `Torn` is a file cut short. */
  datatype File = Whole(attempt: nat) | Torn

  datatype Row = Row(req: Req, step: Step)

  /** What survives a crash. */
  datatype Disk = Disk(dirs: map<Req, map<Step, File>>, index: seq<Row>)

  /** Where the process stands.  `Off` is before the next run; in `Saving` and `Saved` the first
      `k` steps are on disk and indexed, and in `Saved` the file of step `k` is written too. */
  datatype Pc =
    | Off
    | Between
    | Deleting(req: Req)
    | Creating(req: Req)
    | Computing(req: Req)
    | Saving(req: Req, k: nat, attempt: nat)
    | Saved(req: Req, k: nat, attempt: nat)
    | Indexed(req: Req, k: nat, attempt: nat)
    | Cleaning

  /** `steps` are the saved steps of the current run, `done` its in-memory set; `attempts` numbers
      the attempts, over all runs. */
  datatype State = State(disk: Disk, steps: seq<Step>, done: set<Row>, pc: Pc, attempts: nat)

  datatype Event =
    | Launch(steps: seq<Step>, clean: bool)
    | Take(req: Req)
    | DeleteFile(step: Step)
    | DirDeleted
    | DirCreated
    | Computed(available: set<Step>)
    | Save
    | AppendRow
    | AddDone
    | RecordFinished
    | Fail(torn: bool)
    | CleanFile(req: Req, step: Step)
    | CleanIndex
    | Cleaned
    | Crash(torn: bool)

  function Expected(req: Req, steps: seq<Step>): set<Row> {
    set s | s in steps :: Row(req, s)
  }

  function LoadDone(index: seq<Row>): set<Row> {
    set row | row in index
  }

  function DirOf(d: Disk, req: Req): map<Step, File> {
    if req in d.dirs then d.dirs[req] else map[]
  }

  function WriteFile(d: Disk, req: Req, step: Step, file: File): Disk {
    d.(dirs := d.dirs[req := DirOf(d, req)[step := file]])
  }

  function DeleteFileOf(d: Disk, req: Req, step: Step): Disk {
    if req in d.dirs then d.(dirs := d.dirs[req := d.dirs[req] - {step}]) else d
  }

  /** The disk when saving the next file stops halfway. */
  function Interrupted(s: State): Disk {
    if s.pc.Saving? && s.pc.k < |s.steps| then WriteFile(s.disk, s.pc.req, s.steps[s.pc.k], Torn) else s.disk
  }

  function Init(): State {
    State(Disk(map[], []), [], {}, Off, 0)
  }

  /** `None` when the event is not possible in `s`. */
  function Apply(s: State, e: Event): Option<State> {
    match e
    case Launch(steps, clean) =>
      if s.pc != Off then None
      else if clean then Some(s.(steps := steps, pc := Cleaning))
      else Some(s.(steps := steps, pc := Between, done := LoadDone(s.disk.index)))
    case Take(req) =>
      if s.pc != Between then None
      else if Expected(req, s.steps) <= s.done then Some(s)  // skip
      else Some(s.(pc := if req in s.disk.dirs then Deleting(req) else Creating(req)))
    case DeleteFile(step) =>
      if !s.pc.Deleting? then None else Some(s.(disk := DeleteFileOf(s.disk, s.pc.req, step)))
    case DirDeleted =>
      if !s.pc.Deleting? || DirOf(s.disk, s.pc.req) != map[] then None
      else Some(s.(disk := s.disk.(dirs := s.disk.dirs - {s.pc.req}), pc := Creating(s.pc.req)))
    case DirCreated =>
      if !s.pc.Creating? then None
      else Some(s.(disk := s.disk.(dirs := s.disk.dirs[s.pc.req := DirOf(s.disk, s.pc.req)]),
                   pc := Computing(s.pc.req)))
    case Computed(available) =>
      if !s.pc.Computing? then None
      else if exists step :: step in s.steps && step !in available then Some(s.(pc := Between))
      else Some(s.(pc := Saving(s.pc.req, 0, s.attempts), attempts := s.attempts + 1))
    case Save =>
      if !s.pc.Saving? || s.pc.k >= |s.steps| then None
      else Some(s.(disk := WriteFile(s.disk, s.pc.req, s.steps[s.pc.k], Whole(s.pc.attempt)),
                   pc := Saved(s.pc.req, s.pc.k, s.pc.attempt)))
    case AppendRow =>
      if !s.pc.Saved? || s.pc.k >= |s.steps| then None
      else Some(s.(disk := s.disk.(index := s.disk.index + [Row(s.pc.req, s.steps[s.pc.k])]),
                   pc := Indexed(s.pc.req, s.pc.k, s.pc.attempt)))
    case AddDone =>
      if !s.pc.Indexed? || s.pc.k >= |s.steps| then None
      else Some(s.(done := s.done + {Row(s.pc.req, s.steps[s.pc.k])}, pc := Saving(s.pc.req, s.pc.k + 1, s.pc.attempt)))
    case RecordFinished =>
      if !s.pc.Saving? || s.pc.k < |s.steps| then None else Some(s.(pc := Between))
    case Fail(torn) =>
      // a raised exception: the record loop catches it and goes on
      if s.pc.Off? || s.pc.Between? || s.pc.Indexed? || s.pc.Cleaning? then None
      else Some(s.(disk := if torn then Interrupted(s) else s.disk, pc := Between))
    case CleanFile(req, step) =>
      if !s.pc.Cleaning? then None else Some(s.(disk := DeleteFileOf(s.disk, req, step)))
    case CleanIndex =>
      if !s.pc.Cleaning? then None else Some(s.(disk := s.disk.(index := [])))
    case Cleaned =>
      if !s.pc.Cleaning? then None
      else Some(s.(disk := Disk(map[], []), pc := Between, done := {}))
    case Crash(torn) =>
      if s.pc.Off? then None
      else Some(s.(disk := if torn then Interrupted(s) else s.disk, pc := Off, done := {}))
  }

  /** What the runs on one directory may do: the lists of saved steps they are started with, and
      whether one may crash while --clean deletes. */
  datatype Rules = Rules(lists: iset<seq<Step>>, crashInClean: bool)

  ghost predicate Allowed(rules: Rules, s: State, e: Event) {
    && (e.Launch? ==> e.steps in rules.lists)
    && (e.Crash? && s.pc.Cleaning? ==> rules.crashInClean)
  }

  ghost function Run(rules: Rules, s: State, events: seq<Event>): Option<State>
    decreases |events|
  {
    if events == [] then Some(s)
    else
      var e := events[|events| - 1];
      var before := Run(rules, s, events[..|events| - 1]);
      if before.None? || !Allowed(rules, before.value, e) then None else Apply(before.value, e)
  }

  /** All steps of the record are on disk, whole, and written by one and the same attempt. */
  ghost predicate OneAttempt(d: Disk, req: Req, steps: seq<Step>) {
    exists a :: WrittenBy(DirOf(d, req), steps, a)
  }

  ghost predicate WrittenBy(dir: map<Step, File>, steps: seq<Step>, attempt: nat) {
    forall step :: step in steps ==> step in dir && dir[step] == Whole(attempt)
  }

  /** The process is about to skip the record. */
  predicate Skips(s: State, req: Req) {
    s.pc == Between && Expected(req, s.steps) <= s.done
  }

  // ----- the invariant

  /** The last step does not also occur earlier. */
  predicate LastIsNew(steps: seq<Step>) {
    steps == [] || steps[|steps| - 1] !in steps[..|steps| - 1]
  }

  predicate HasLast(index: seq<Row>, req: Req, steps: seq<Step>)
    requires steps != []
  {
    Row(req, steps[|steps| - 1]) in index
  }

  /** A record whose last row is in the index is complete, in rows and in files. */
  ghost predicate LastMeansComplete(d: Disk, steps: seq<Step>)
    requires steps != []
  {
    forall req :: HasLast(d.index, req, steps) ==>
                    Expected(req, steps) <= LoadDone(d.index) && OneAttempt(d, req, steps)
  }

  /** A record being retried or written has no last row until that row is appended. */
  ghost predicate Progress(d: Disk, pc: Pc, steps: seq<Step>)
    requires steps != []
  {
    match pc
    case Deleting(req) => !HasLast(d.index, req, steps)
    case Creating(req) => !HasLast(d.index, req, steps)
    case Computing(req) => !HasLast(d.index, req, steps)
    case Saving(req, k, a) => k <= |steps| && Written(d, req, steps, k, k, a)
                              && (k < |steps| ==> !HasLast(d.index, req, steps))
    case Saved(req, k, a) => k < |steps| && Written(d, req, steps, k + 1, k, a) && !HasLast(d.index, req, steps)
    case Indexed(req, k, a) => k < |steps| && Written(d, req, steps, k + 1, k + 1, a)
                               && (k < |steps| - 1 ==> !HasLast(d.index, req, steps))
    case _ => true
  }

  /** Files of the first `f` steps by attempt `a`, rows of the first `r` steps. */
  ghost predicate Written(d: Disk, req: Req, steps: seq<Step>, f: nat, r: nat, a: nat)
    requires f <= |steps| && r <= |steps|
  {
    WrittenBy(DirOf(d, req), steps[..f], a) && Expected(req, steps[..r]) <= LoadDone(d.index)
  }

  ghost predicate DoneMatches(s: State) {
    match s.pc
    case Off => true
    case Cleaning => true
    case Indexed(req, k, _) => k < |s.steps| && s.done + {Row(req, s.steps[k])} == LoadDone(s.disk.index)
    case _ => s.done == LoadDone(s.disk.index)
  }

  /** Lists that save the same steps and end in the same one. */
  ghost predicate Alike(a: seq<Step>, b: seq<Step>)
    requires a != [] && b != []
  {
    (forall step :: step in a <==> step in b) && a[|a| - 1] == b[|b| - 1]
  }

  /** Lists that can take turns on one directory. */
  ghost predicate Compatible(lists: iset<seq<Step>>) {
    && (forall a :: a in lists ==> LastIsNew(a))
    && (forall a, b :: a in lists && b in lists && a != [] && b != [] ==> Alike(a, b))
  }

  ghost predicate Inv(any: seq<Step>, s: State)
    requires any != []
  {
    && DoneMatches(s)
    && (s.pc != Cleaning ==> LastMeansComplete(s.disk, any))
    && (s.pc != Off && s.pc != Cleaning && s.steps != [] ==> Progress(s.disk, s.pc, s.steps))
    && (s.pc != Off && s.pc != Cleaning && s.steps == [] ==> s.pc == Between)
  }

  lemma AlikeComplete(d: Disk, a: seq<Step>, b: seq<Step>)
    requires a != [] && b != [] && Alike(a, b) && LastMeansComplete(d, a)
    ensures LastMeansComplete(d, b)
  {
    forall req | HasLast(d.index, req, b)
      ensures Expected(req, b) <= LoadDone(d.index) && OneAttempt(d, req, b)
    {
      assert HasLast(d.index, req, a);
      var attempt :| WrittenBy(DirOf(d, req), a, attempt);
      assert WrittenBy(DirOf(d, req), b, attempt);
    }
  }

  /** Changing one record's directory leaves the others' files alone. */
  lemma OtherRecords(d: Disk, d2: Disk, steps: seq<Step>, changed: Req)
    requires steps != [] && LastMeansComplete(d, steps)
    requires d2.index == d.index && !HasLast(d.index, changed, steps)
    requires forall req :: req != changed ==> DirOf(d2, req) == DirOf(d, req)
    ensures LastMeansComplete(d2, steps)
  {
    forall req | HasLast(d2.index, req, steps) ensures OneAttempt(d2, req, steps) {
      assert OneAttempt(d, req, steps);
    }
  }

  lemma SaveKeeps(d: Disk, steps: seq<Step>, req: Req, k: nat, a: nat)
    requires k < |steps| && Written(d, req, steps, k, k, a)
    ensures Written(WriteFile(d, req, steps[k], Whole(a)), req, steps, k + 1, k, a)
  {
    assert steps[..k + 1] == steps[..k] + [steps[k]];
  }

  lemma ExpectedGrows(req: Req, steps: seq<Step>, k: nat)
    requires k < |steps|
    ensures Expected(req, steps[..k + 1]) == Expected(req, steps[..k]) + {Row(req, steps[k])}
  {
    assert steps[..k + 1] == steps[..k] + [steps[k]];
  }

  lemma AppendKeeps(d: Disk, steps: seq<Step>, req: Req, k: nat, a: nat)
    requires k < |steps| && LastIsNew(steps)
    requires LastMeansComplete(d, steps) && Written(d, req, steps, k + 1, k, a) && !HasLast(d.index, req, steps)
    ensures
      var d2 := d.(index := d.index + [Row(req, steps[k])]);
      && LastMeansComplete(d2, steps)
      && Written(d2, req, steps, k + 1, k + 1, a)
      && (k < |steps| - 1 ==> !HasLast(d2.index, req, steps))
  {
    var d2 := d.(index := d.index + [Row(req, steps[k])]);
    ExpectedGrows(req, steps, k);
    assert steps[..|steps|] == steps;
    if k < |steps| - 1 {
      assert steps[k] in steps[..|steps| - 1];
    }
    forall other | HasLast(d2.index, other, steps)
      ensures Expected(other, steps) <= LoadDone(d2.index) && OneAttempt(d2, other, steps)
    {
      if HasLast(d.index, other, steps) {
        var b :| WrittenBy(DirOf(d, other), steps, b);
        assert WrittenBy(DirOf(d2, other), steps, b);
      } else {
        assert other == req && k == |steps| - 1;
        assert WrittenBy(DirOf(d2, req), steps, a);
      }
    }
  }

  /** What a step of a run with the list `steps` keeps. */
  lemma StepKeeps(steps: seq<Step>, s: State, e: Event, t: State)
    requires steps != [] && LastIsNew(steps) && LastMeansComplete(s.disk, steps) && Progress(s.disk, s.pc, steps)
    requires s.steps == steps && s.pc != Off && s.pc != Cleaning && DoneMatches(s) && Apply(s, e) == Some(t)
    ensures LastMeansComplete(t.disk, steps) && (t.pc != Off ==> Progress(t.disk, t.pc, steps))
  {
    match e
    case DeleteFile(step) => OtherRecords(s.disk, t.disk, steps, s.pc.req);
    case DirDeleted => OtherRecords(s.disk, t.disk, steps, s.pc.req);
    case DirCreated => OtherRecords(s.disk, t.disk, steps, s.pc.req);
    case Save =>
      OtherRecords(s.disk, t.disk, steps, s.pc.req);
      SaveKeeps(s.disk, steps, s.pc.req, s.pc.k, s.pc.attempt);
    case AppendRow => AppendKeeps(s.disk, steps, s.pc.req, s.pc.k, s.pc.attempt);
    case Fail(torn) =>
      if t.disk != s.disk {
        OtherRecords(s.disk, t.disk, steps, s.pc.req);
      }
    case Crash(torn) =>
      if t.disk != s.disk {
        OtherRecords(s.disk, t.disk, steps, s.pc.req);
      }
    case _ =>
  }

  lemma DoneKept(s: State, e: Event, t: State)
    requires DoneMatches(s) && Apply(s, e) == Some(t)
    ensures DoneMatches(t)
  {
  }

  lemma InvKept(any: seq<Step>, s: State, e: Event, t: State)
    requires any != [] && Inv(any, s) && Apply(s, e) == Some(t) && !(e.Crash? && s.pc.Cleaning?)
    requires s.pc != Off && s.steps != [] ==> Alike(any, s.steps) && Alike(s.steps, any) && LastIsNew(s.steps)
    ensures Inv(any, t)
  {
    DoneKept(s, e, t);
    if s.pc != Off && s.pc != Cleaning && s.steps != [] {
      AlikeComplete(s.disk, any, s.steps);
      StepKeeps(s.steps, s, e, t);
      AlikeComplete(t.disk, s.steps, any);
    }
  }

  lemma {:induction false} StepsListed(rules: Rules, events: seq<Event>, s: State)
    requires Run(rules, Init(), events) == Some(s) && s.pc != Off
    ensures s.steps in rules.lists
    decreases |events|
  {
    var n := |events| - 1;
    var before := Run(rules, Init(), events[..n]).value;
    if before.pc != Off {
      StepsListed(rules, events[..n], before);
    }
  }

  lemma {:induction false} RunKeepsInv(rules: Rules, any: seq<Step>, events: seq<Event>, s: State)
    requires Compatible(rules.lists) && !rules.crashInClean && any in rules.lists && any != []
    requires Run(rules, Init(), events) == Some(s)
    ensures Inv(any, s)
    decreases |events|
  {
    if events != [] {
      var n := |events| - 1;
      var before := Run(rules, Init(), events[..n]).value;
      RunKeepsInv(rules, any, events[..n], before);
      if before.pc != Off {
        StepsListed(rules, events[..n], before);
      }
      InvKept(any, before, events[n], s);
    }
  }

  /** Crash-safe skip: over any sequence of runs with compatible lists, failures and crashes outside
      --clean, a record is skipped only if all its files are on disk, whole, and from one attempt. */
  lemma SkipIsSafe(rules: Rules, events: seq<Event>, s: State, req: Req)
    requires Compatible(rules.lists) && !rules.crashInClean
    requires Run(rules, Init(), events) == Some(s) && Skips(s, req)
    ensures OneAttempt(s.disk, req, s.steps)
  {
    if s.steps == [] {
      assert WrittenBy(DirOf(s.disk, req), s.steps, 0);
    } else {
      StepsListed(rules, events, s);
      RunKeepsInv(rules, s.steps, events, s);
      assert Row(req, s.steps[|s.steps| - 1]) in Expected(req, s.steps);
    }
  }

  /** No later run is started with --clean. */
  predicate NoClean(events: seq<Event>) {
    forall k :: 0 <= k < |events| ==> !(events[k].Launch? && events[k].clean)
  }

  lemma RowStays(s: State, e: Event, t: State, row: Row)
    requires Apply(s, e) == Some(t) && !(e.Launch? && e.clean) && s.pc != Cleaning && row in s.disk.index
    ensures t.pc != Cleaning && row in t.disk.index
  {
  }

  lemma {:induction false} RowsStay(rules: Rules, s: State, events: seq<Event>, t: State, row: Row)
    requires Run(rules, s, events) == Some(t) && NoClean(events) && s.pc != Cleaning && row in s.disk.index
    ensures t.pc != Cleaning && row in t.disk.index
    decreases |events|
  {
    if events != [] {
      var n := |events| - 1;
      var before := Run(rules, s, events[..n]).value;
      assert NoClean(events[..n]);
      RowsStay(rules, s, events[..n], before, row);
      RowStays(before, events[n], t, row);
    }
  }

  lemma {:induction false} RunOn(rules: Rules, first: seq<Event>, s: State, later: seq<Event>)
    requires Run(rules, Init(), first) == Some(s)
    ensures Run(rules, Init(), first + later) == Run(rules, s, later)
    decreases |later|
  {
    if later == [] {
      assert first + later == first;
    } else {
      RunOn(rules, first, s, later[..|later| - 1]);
      assert (first + later)[..|first + later| - 1] == first + later[..|later| - 1];
    }
  }

  /** A record that a run finished is skipped by that run and, until a --clean, by every later one. */
  lemma FinishedIsSkipped(rules: Rules, events: seq<Event>, s: State, t: State, later: seq<Event>, u: State)
    requires Compatible(rules.lists) && !rules.crashInClean
    requires Run(rules, Init(), events) == Some(s) && Apply(s, RecordFinished) == Some(t)
    requires Run(rules, t, later) == Some(u) && NoClean(later) && u.pc == Between
    ensures Skips(u, s.pc.req) && OneAttempt(u.disk, s.pc.req, u.steps)
  {
    var finished := events + [RecordFinished];
    ExtendFrom(rules, Init(), events, s, RecordFinished);
    RunOn(rules, finished, t, later);
    StepsListed(rules, finished + later, u);
    if u.steps != [] {
      RowOfFinished(rules, u.steps, events, s);
      RowsStay(rules, t, later, u, Row(s.pc.req, u.steps[|u.steps| - 1]));
      RunKeepsInv(rules, u.steps, finished + later, u);
    }
    SkipIsSafe(rules, finished + later, u, s.pc.req);
  }

  lemma RowOfFinished(rules: Rules, any: seq<Step>, events: seq<Event>, s: State)
    requires Compatible(rules.lists) && !rules.crashInClean && any in rules.lists && any != []
    requires Run(rules, Init(), events) == Some(s) && Apply(s, RecordFinished).Some?
    ensures HasLast(s.disk.index, s.pc.req, any)
  {
    StepsListed(rules, events, s);
    RunKeepsInv(rules, any, events, s);
    LastWritten(any, s);
  }

  lemma LastWritten(any: seq<Step>, s: State)
    requires any != [] && Inv(any, s) && Apply(s, RecordFinished).Some? && (s.steps != [] ==> Alike(any, s.steps))
    ensures HasLast(s.disk.index, s.pc.req, any)
  {
    assert s.steps != [] && s.steps[..|s.steps|] == s.steps;
    assert Row(s.pc.req, any[|any| - 1]) in Expected(s.pc.req, s.steps);
  }

  // ----- the conditions are needed

  lemma ExtendFrom(rules: Rules, from: State, events: seq<Event>, s: State, e: Event)
    requires Run(rules, from, events) == Some(s) && Allowed(rules, s, e) && Apply(s, e).Some?
    ensures Run(rules, from, events + [e]) == Apply(s, e)
  {
    assert (events + [e])[..|events|] == events;
  }

  ghost function Reachable(rules: Rules, from: State): iset<State> {
    iset s | exists events :: Run(rules, from, events) == Some(s)
  }

  /** A set of states that no allowed event leaves. */
  ghost predicate Closed(rules: Rules, r: iset<State>) {
    forall s, e :: s in r && Allowed(rules, s, e) && Apply(s, e).Some? ==> Apply(s, e).value in r
  }

  lemma ReachableClosed(rules: Rules, from: State)
    ensures from in Reachable(rules, from) && Closed(rules, Reachable(rules, from))
  {
    assert Run(rules, from, []) == Some(from);
    forall s, e | s in Reachable(rules, from) && Allowed(rules, s, e) && Apply(s, e).Some?
      ensures Apply(s, e).value in Reachable(rules, from)
    {
      var events :| Run(rules, from, events) == Some(s);
      ExtendFrom(rules, from, events, s, e);
    }
  }

  lemma StepIn(rules: Rules, r: iset<State>, s: State, e: Event, t: State)
    requires Closed(rules, r) && s in r && Allowed(rules, s, e) && Apply(s, e) == Some(t)
    ensures t in r
  {
  }

  /** Deleting a directory file by file and then removing it. */
  lemma {:induction false} DeleteAll(rules: Rules, r: iset<State>, s: State)
    requires Closed(rules, r) && s in r && s.pc.Deleting? && s.pc.req in s.disk.dirs
    ensures s.(disk := s.disk.(dirs := s.disk.dirs - {s.pc.req}), pc := Creating(s.pc.req)) in r
    decreases |DirOf(s.disk, s.pc.req)|
  {
    var req := s.pc.req;
    if s.disk.dirs[req] == map[] {
      StepIn(rules, r, s, DirDeleted, s.(disk := s.disk.(dirs := s.disk.dirs - {req}), pc := Creating(req)));
    } else {
      var step :| step in s.disk.dirs[req];
      var t := s.(disk := DeleteFileOf(s.disk, req, step));
      StepIn(rules, r, s, DeleteFile(step), t);
      assert |t.disk.dirs[req].Keys| < |s.disk.dirs[req].Keys| by {
        assert t.disk.dirs[req].Keys == s.disk.dirs[req].Keys - {step};
      }
      DeleteAll(rules, r, t);
      assert t.disk.dirs - {req} == s.disk.dirs - {req};
    }
  }

  /** Start a run of the list from a directory no process works on. */
  lemma Begin(rules: Rules, r: iset<State>, s: State, steps: seq<Step>) returns (t: State)
    requires Closed(rules, r) && s in r && s.pc == Off && steps in rules.lists
    ensures t in r && t == s.(steps := steps, done := LoadDone(s.disk.index), pc := Between)
  {
    t := s.(steps := steps, done := LoadDone(s.disk.index), pc := Between);
    StepIn(rules, r, s, Launch(steps, false), t);
  }

  /** Crash, then start a run of the list. */
  lemma Restart(rules: Rules, r: iset<State>, s: State, steps: seq<Step>) returns (t: State)
    requires Closed(rules, r) && s in r && s.pc != Off && steps in rules.lists
    requires s.pc.Cleaning? ==> rules.crashInClean
    ensures t in r && t == s.(steps := steps, done := LoadDone(s.disk.index), pc := Between)
  {
    var off := s.(pc := Off, done := {});
    StepIn(rules, r, s, Crash(false), off);
    t := Begin(rules, r, off, steps);
  }

  /** A fresh attempt for a record that is not complete, up to the first save. */
  lemma Retry(rules: Rules, r: iset<State>, s: State, req: Req, missing: Step) returns (t: State)
    requires Closed(rules, r) && s in r && s.pc == Between
    requires missing in s.steps && Row(req, missing) !in s.done
    ensures t in r && t.pc == Saving(req, 0, s.attempts) && t.steps == s.steps
    ensures t.disk.index == s.disk.index && DirOf(t.disk, req) == map[]
  {
    assert Row(req, missing) in Expected(req, s.steps);
    var creating := s.(disk := s.disk.(dirs := s.disk.dirs - {req}), pc := Creating(req));
    if req in s.disk.dirs {
      StepIn(rules, r, s, Take(req), s.(pc := Deleting(req)));
      DeleteAll(rules, r, s.(pc := Deleting(req)));
    } else {
      assert s.disk.dirs - {req} == s.disk.dirs;
      StepIn(rules, r, s, Take(req), creating);
    }
    t := FreshAttempt(rules, r, creating);
  }

  lemma FreshAttempt(rules: Rules, r: iset<State>, s: State) returns (t: State)
    requires Closed(rules, r) && s in r && s.pc.Creating? && s.pc.req !in s.disk.dirs
    ensures t in r && t.pc == Saving(s.pc.req, 0, s.attempts) && t.steps == s.steps
    ensures t.disk.index == s.disk.index && DirOf(t.disk, s.pc.req) == map[]
  {
    var req := s.pc.req;
    var computing := s.(disk := s.disk.(dirs := s.disk.dirs[req := map[]]), pc := Computing(req));
    StepIn(rules, r, s, DirCreated, computing);
    t := computing.(pc := Saving(req, 0, s.attempts), attempts := s.attempts + 1);
    StepIn(rules, r, computing, Computed(set step | step in s.steps), t);
  }

  /** One step saved, indexed and remembered. */
  lemma SaveOne(rules: Rules, r: iset<State>, s: State) returns (t: State)
    requires Closed(rules, r) && s in r && s.pc.Saving? && s.pc.k < |s.steps|
    ensures t in r
    ensures t == s.(disk := WriteFile(s.disk, s.pc.req, s.steps[s.pc.k], Whole(s.pc.attempt))
                            .(index := s.disk.index + [Row(s.pc.req, s.steps[s.pc.k])]),
                    done := s.done + {Row(s.pc.req, s.steps[s.pc.k])},
                    pc := Saving(s.pc.req, s.pc.k + 1, s.pc.attempt))
  {
    var req, k, a := s.pc.req, s.pc.k, s.pc.attempt;
    var saved := s.(disk := WriteFile(s.disk, req, s.steps[k], Whole(a)), pc := Saved(req, k, a));
    var row := Row(req, s.steps[k]);
    var indexed := saved.(disk := saved.disk.(index := s.disk.index + [row]), pc := Indexed(req, k, a));
    t := indexed.(done := s.done + {row}, pc := Saving(req, k + 1, a));
    StepIn(rules, r, s, Save, saved);
    StepIn(rules, r, saved, AppendRow, indexed);
    StepIn(rules, r, indexed, AddDone, t);
  }

  /** The record has exactly the files of the first `k` steps, and their rows were added to `rows`. */
  ghost predicate SavedSoFar(d: Disk, req: Req, steps: seq<Step>, k: nat, a: nat, rows: set<Row>)
    requires k <= |steps|
  {
    && WrittenBy(DirOf(d, req), steps[..k], a) && (forall step :: step in DirOf(d, req) ==> step in steps[..k])
    && LoadDone(d.index) == rows + Expected(req, steps[..k])
  }

  lemma {:induction false} SaveUpTo(rules: Rules, r: iset<State>, s: State, n: nat) returns (t: State)
    requires Closed(rules, r) && s in r && s.pc.Saving? && s.pc.k == 0
    requires n <= |s.steps| && DirOf(s.disk, s.pc.req) == map[]
    ensures t in r && t.pc == Saving(s.pc.req, n, s.pc.attempt) && t.steps == s.steps
    ensures SavedSoFar(t.disk, s.pc.req, s.steps, n, s.pc.attempt, LoadDone(s.disk.index))
  {
    if n == 0 {
      t := s;
    } else {
      t := SaveUpTo(rules, r, s, n - 1);
      SoFarGrows(t.disk, s.pc.req, s.steps, n - 1, s.pc.attempt, LoadDone(s.disk.index));
      t := SaveOne(rules, r, t);
    }
  }

  lemma SoFarGrows(d: Disk, req: Req, steps: seq<Step>, k: nat, a: nat, rows: set<Row>)
    requires k < |steps| && SavedSoFar(d, req, steps, k, a, rows)
    ensures
      var saved := WriteFile(d, req, steps[k], Whole(a));
      SavedSoFar(saved.(index := d.index + [Row(req, steps[k])]), req, steps, k + 1, a, rows)
  {
    var saved := WriteFile(d, req, steps[k], Whole(a));
    ExpectedGrows(req, steps, k);
    assert steps[..k + 1] == steps[..k] + [steps[k]];
    assert LoadDone(d.index + [Row(req, steps[k])]) == LoadDone(d.index) + {Row(req, steps[k])};
    assert DirOf(saved, req) == DirOf(d, req)[steps[k] := Whole(a)];
  }

  /** A fresh directory, the list started, and its first `n` steps saved for record "r". */
  lemma FirstSaved(rules: Rules, r: iset<State>, steps: seq<Step>, n: nat) returns (s: State)
    requires Closed(rules, r) && Init() in r && steps in rules.lists && steps != [] && n <= |steps|
    ensures s in r && s.pc == Saving("r", n, 0) && s.steps == steps
    ensures SavedSoFar(s.disk, "r", steps, n, 0, {})
  {
    s := Begin(rules, r, Init(), steps);
    s := Retry(rules, r, s, "r", steps[0]);
    assert LoadDone(s.disk.index) == {};
    s := SaveUpTo(rules, r, s, n);
  }

  /** The record is about to be skipped although its files are not all there from one attempt. */
  ghost predicate UnsafeSkip(s: State, req: Req) {
    Skips(s, req) && !OneAttempt(s.disk, req, s.steps)
  }

  lemma BadSkip(s: State, req: Req, step: Step)
    requires s.pc == Between && s.done == LoadDone(s.disk.index) && Expected(req, s.steps) <= LoadDone(s.disk.index)
    requires step in s.steps && (step !in DirOf(s.disk, req) || DirOf(s.disk, req)[step] == Torn)
    ensures UnsafeSkip(s, req)
  {
  }

  // In what follows `r` is any set of states that contains the initial one and that no allowed event
  // leaves, such as the set of reachable states.

  /** If the last step occurs twice, a crash while it is being saved again leaves a complete index
      and a torn file. */
  lemma RepeatedLastBreaks(rules: Rules, r: iset<State>, steps: seq<Step>) returns (s: State)
    requires Closed(rules, r) && Init() in r && steps in rules.lists && !LastIsNew(steps)
    ensures s in r && UnsafeSkip(s, "r")
  {
    var n := |steps| - 1;
    s := FirstSaved(rules, r, steps, n);
    var torn := s.(disk := WriteFile(s.disk, "r", steps[n], Torn), pc := Off, done := {});
    StepIn(rules, r, s, Crash(true), torn);
    s := Begin(rules, r, torn, steps);
    RepeatedExpected("r", steps);
    BadSkip(s, "r", steps[n]);
  }

  lemma RepeatedExpected(req: Req, steps: seq<Step>)
    requires !LastIsNew(steps)
    ensures Expected(req, steps) == Expected(req, steps[..|steps| - 1])
  {
    assert steps == steps[..|steps| - 1] + [steps[|steps| - 1]];
  }

  /** A run of a list with one more step deletes what a run of the other had finished. */
  lemma MoreStepsBreak(rules: Rules, r: iset<State>, one: seq<Step>, two: seq<Step>, more: Step) returns (s: State)
    requires Closed(rules, r) && Init() in r && one in rules.lists && two in rules.lists
    requires one != [] && more in two && more !in one
    ensures s in r && UnsafeSkip(s, "r")
  {
    s := FirstSaved(rules, r, one, |one|);
    assert one[..|one|] == one;
    s := Restart(rules, r, s, two);
    assert Row("r", more) !in Expected("r", one);
    s := Retry(rules, r, s, "r", more);
    s := Restart(rules, r, s, one);
    BadSkip(s, "r", one[0]);
  }

  /** With the same steps but another last one, the rows of an unfinished run of the first list
      complete those of an unfinished run of the second. */
  lemma OtherLastBreaks(rules: Rules, r: iset<State>, one: seq<Step>, two: seq<Step>) returns (s: State)
    requires Closed(rules, r) && Init() in r && one in rules.lists && two in rules.lists
    requires one != [] && two != [] && LastIsNew(one) && LastIsNew(two)
    requires (forall step :: step in one <==> step in two) && one[|one| - 1] != two[|two| - 1]
    ensures s in r && UnsafeSkip(s, "r")
  {
    var last, n := one[|one| - 1], |one| - 1;
    s := FirstSaved(rules, r, one, n);
    assert Row("r", last) !in Expected("r", one[..n]);
    s := Restart(rules, r, s, two);
    assert last in one;
    var k :| 0 <= k < |two| && two[k] == last;
    s := Retry(rules, r, s, "r", last);
    s := SaveUpTo(rules, r, s, k + 1);
    s := Restart(rules, r, s, two);
    AllRows("r", one, two, k);
    NotYetSaved(two, k + 1);
    BadSkip(s, "r", two[|two| - 1]);
  }

  lemma AllRows(req: Req, one: seq<Step>, two: seq<Step>, k: nat)
    requires one != [] && k < |two| && two[k] == one[|one| - 1]
    requires forall step :: step in two ==> step in one
    ensures Expected(req, two) <= Expected(req, one[..|one| - 1]) + Expected(req, two[..k + 1])
  {
    assert one == one[..|one| - 1] + [one[|one| - 1]];
    assert two[..k + 1][k] == two[k];
  }

  lemma NotYetSaved(steps: seq<Step>, k: nat)
    requires LastIsNew(steps) && k < |steps|
    ensures steps[|steps| - 1] !in steps[..k]
  {
    assert steps[..k] == steps[..|steps| - 1][..k];
  }

  /** A crash while --clean deletes the directory, before it reaches the index. */
  lemma CrashInCleanBreaks(rules: Rules, r: iset<State>, steps: seq<Step>) returns (s: State)
    requires Closed(rules, r) && Init() in r && rules.crashInClean && steps in rules.lists && steps != []
    ensures s in r && UnsafeSkip(s, "r")
  {
    s := FirstSaved(rules, r, steps, |steps|);
    assert steps[..|steps|] == steps;
    var off := s.(pc := Off, done := {});
    StepIn(rules, r, s, Crash(false), off);
    var cleaning := off.(steps := steps, pc := Cleaning);
    StepIn(rules, r, off, Launch(steps, true), cleaning);
    var half := cleaning.(disk := DeleteFileOf(off.disk, "r", steps[0]));
    StepIn(rules, r, cleaning, CleanFile("r", steps[0]), half);
    s := Restart(rules, r, half, steps);
    BadSkip(s, "r", steps[0]);
  }

  lemma IncompatibleBreaks(rules: Rules, r: iset<State>) returns (s: State)
    requires Closed(rules, r) && Init() in r && !Compatible(rules.lists)
    ensures s in r && UnsafeSkip(s, "r")
  {
    if a :| a in rules.lists && !LastIsNew(a) {
      s := RepeatedLastBreaks(rules, r, a);
    } else {
      var a, b :| a in rules.lists && b in rules.lists && a != [] && b != [] && !Alike(a, b);
      if step :| step in a && step !in b {
        s := MoreStepsBreak(rules, r, b, a, step);
      } else if step :| step in b && step !in a {
        s := MoreStepsBreak(rules, r, a, b, step);
      } else {
        s := OtherLastBreaks(rules, r, a, b);
      }
    }
  }

  /** Exactly when the skip is safe over all sequences of runs, failures and crashes.  If a crash can
      hit --clean: when no run saves anything.  Otherwise: when the lists that runs are started with
      save the same steps, end in the same one, and do not have that one earlier. */
  lemma SkipSafeExactly(rules: Rules)
    ensures (forall s, req :: s in Reachable(rules, Init()) && Skips(s, req) ==> OneAttempt(s.disk, req, s.steps))
            <==> if rules.crashInClean then (forall steps :: steps in rules.lists ==> steps == [])
                 else Compatible(rules.lists)
  {
    var r := Reachable(rules, Init());
    ReachableClosed(rules, Init());
    if rules.crashInClean {
      if steps :| steps in rules.lists && steps != [] {
        var s := CrashInCleanBreaks(rules, r, steps);
        assert UnsafeSkip(s, "r");
      } else {
        NoRunSaves(rules);
      }
    } else if Compatible(rules.lists) {
      forall s, req | s in r && Skips(s, req) ensures OneAttempt(s.disk, req, s.steps) {
        var events :| Run(rules, Init(), events) == Some(s);
        SkipIsSafe(rules, events, s, req);
      }
    } else {
      var s := IncompatibleBreaks(rules, r);
      assert UnsafeSkip(s, "r");
    }
  }

  lemma NoRunSaves(rules: Rules)
    requires forall steps :: steps in rules.lists ==> steps == []
    ensures forall s, req :: s in Reachable(rules, Init()) && Skips(s, req) ==> OneAttempt(s.disk, req, s.steps)
  {
    forall s, req | s in Reachable(rules, Init()) && Skips(s, req)
      ensures OneAttempt(s.disk, req, s.steps)
    {
      var events :| Run(rules, Init(), events) == Some(s);
      StepsListed(rules, events, s);
      assert WrittenBy(DirOf(s.disk, req), s.steps, 0);
    }
  }

  /** One list for all runs: safe exactly when its last step does not occur earlier. */
  lemma OneListSafeExactly(steps: seq<Step>)
    ensures (forall s, req :: s in Reachable(Rules(iset{steps}, false), Init()) && Skips(s, req) ==>
                                OneAttempt(s.disk, req, s.steps))
            <==> LastIsNew(steps)
  {
    SkipSafeExactly(Rules(iset{steps}, false));
  }

  /** The obvious invariant is false: during a retry a row outlives its file. */
  lemma RowsOutliveFiles(rules: Rules, r: iset<State>, steps: seq<Step>) returns (s: State)
    requires Closed(rules, r) && Init() in r && steps in rules.lists && |steps| >= 2 && LastIsNew(steps)
    ensures s in r && Row("r", steps[0]) in s.disk.index && steps[0] !in DirOf(s.disk, "r")
  {
    var n := |steps| - 1;
    s := FirstSaved(rules, r, steps, n);
    assert steps[..n][0] == steps[0];
    assert Row("r", steps[0]) in Expected("r", steps[..n]);
    s := Restart(rules, r, s, steps);
    assert Row("r", steps[n]) !in Expected("r", steps[..n]);
    s := Retry(rules, r, s, "r", steps[n]);
  }
}
