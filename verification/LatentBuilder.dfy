/** The dataset script's own operations, in place, each shown to be a run of the crash model. */
module LatentBuilder {
  import opened Common
  import opened LatentIndex

  /** One line of the index file. */
  datatype Line = Entry(row: Row) | Blank | Malformed

  /** What the pipeline call and the saving loop run into; a failing save may leave a torn file. */
  datatype Outcome =
    | PipelineError
    | NotATuple
    | Payload(available: set<Step>, saveFailsAt: Option<nat>, torn: bool)

  datatype Status = Skip | Ok | Error

  function FilesOf(steps: seq<Step>, attempt: nat): map<Step, File> {
    map step | step in steps :: Whole(attempt)
  }

  function RowsOf(req: Req, steps: seq<Step>): seq<Row> {
    if steps == [] then [] else RowsOf(req, steps[..|steps| - 1]) + [Row(req, steps[|steps| - 1])]
  }

  /** How many steps get saved: none unless the payload has all of them, all unless a save fails. */
  function SavedCount(steps: seq<Step>, outcome: Outcome): (n: nat)
    ensures n <= |steps|
  {
    if !outcome.Payload? || (exists step :: step in steps && step !in outcome.available) then 0
    else if outcome.saveFailsAt.Some? && outcome.saveFailsAt.value < |steps| then outcome.saveFailsAt.value
    else |steps|
  }

  /** The files an attempt leaves behind: those of the saved steps, and possibly a torn one. */
  function LeftBehind(steps: seq<Step>, outcome: Outcome, attempt: nat): map<Step, File> {
    var n := SavedCount(steps, outcome);
    var whole := FilesOf(steps[..n], attempt);
    if SaveFails(steps, outcome) && outcome.torn then whole[steps[n] := Torn] else whole
  }

  predicate SaveFails(steps: seq<Step>, outcome: Outcome) {
    && outcome.Payload? && (forall step :: step in steps ==> step in outcome.available)
    && SavedCount(steps, outcome) < |steps|
  }

  predicate Complete(steps: seq<Step>, outcome: Outcome) {
    && outcome.Payload? && (forall step :: step in steps ==> step in outcome.available)
    && SavedCount(steps, outcome) == |steps|
  }

  /** Exactly the first `k` steps were saved by this attempt: their files are whole, a torn file is
      there if and only if one is named, and their rows and done entries were added in step order. */
  ghost predicate SavedExactly(req: Req, steps: seq<Step>, k: nat, attempt: nat, torn: Option<Step>,
                               dirs: map<Req, map<Step, File>>, index: seq<Row>, newIndex: seq<Row>,
                               done: set<Row>, newDone: set<Row>)
    requires k <= |steps|
  {
    && req in dirs
    && (forall step :: step in dirs[req] <==> step in steps[..k] || torn == Some(step))
    && (forall step :: step in steps[..k] && torn != Some(step) ==> dirs[req][step] == Whole(attempt))
    && (torn.Some? ==> dirs[req][torn.value] == Torn)
    && |newIndex| == |index| + k && newIndex[..|index|] == index
    && (forall j :: 0 <= j < k ==> newIndex[|index| + j] == Row(req, steps[j]))
    && (forall row :: row in newDone <==> row in done || (row.req == req && row.step in steps[..k]))
  }

  lemma {:induction false} RowsInOrder(req: Req, steps: seq<Step>)
    ensures |RowsOf(req, steps)| == |steps|
    ensures forall j :: 0 <= j < |steps| ==> RowsOf(req, steps)[j] == Row(req, steps[j])
  {
    if steps != [] {
      RowsInOrder(req, steps[..|steps| - 1]);
    }
  }

  predicate MissesStep(steps: seq<Step>, outcome: Outcome) {
    outcome.Payload? && exists step :: step in steps && step !in outcome.available
  }

  /** What an attempt promises for each way it can go.  After an error of the pipeline or a missing
      step: an empty directory, no row.  When all steps are there and no save fails: "ok", every step
      saved, so that the record is skipped from then on.  When the save of step `k` fails: an error,
      and exactly the steps before it saved, with or without a torn file of its own. */
  ghost predicate AsPromised(req: Req, steps: seq<Step>, outcome: Outcome, status: Status, attempt: nat,
                             dirs: map<Req, map<Step, File>>, newDirs: map<Req, map<Step, File>>,
                             index: seq<Row>, newIndex: seq<Row>, done: set<Row>, newDone: set<Row>)
  {
    if !outcome.Payload? || MissesStep(steps, outcome) then
      status == Error && newDirs == dirs[req := map[]] && newIndex == index && newDone == done
    else if outcome.saveFailsAt.None? || outcome.saveFailsAt.value >= |steps| then
      && status == Ok && Expected(req, steps) <= newDone
      && SavedExactly(req, steps, |steps|, attempt, None, newDirs, index, newIndex, done, newDone)
    else
      var k := outcome.saveFailsAt.value;
      && status == Error
      && SavedExactly(req, steps, k, attempt, if outcome.torn then Some(steps[k]) else None,
                      newDirs, index, newIndex, done, newDone)
  }

  lemma KeepsPromise(req: Req, steps: seq<Step>, outcome: Outcome, attempt: nat,
                     dirs: map<Req, map<Step, File>>, index: seq<Row>, done: set<Row>)
    ensures
      var saved := steps[..SavedCount(steps, outcome)];
      AsPromised(req, steps, outcome, if Complete(steps, outcome) then Ok else Error, attempt,
                 dirs, dirs[req := LeftBehind(steps, outcome, attempt)],
                 index, index + RowsOf(req, saved), done, done + Expected(req, saved))
  {
    if !outcome.Payload? || MissesStep(steps, outcome) {
      NothingLeft(req, steps, attempt);
    } else {
      SavedIsExact(req, steps, outcome, attempt, dirs, index, done);
    }
  }

  lemma NothingLeft(req: Req, steps: seq<Step>, attempt: nat)
    ensures FilesOf(steps[..0], attempt) == map[] && RowsOf(req, steps[..0]) == [] && Expected(req, steps[..0]) == {}
  {
  }

  lemma SavedIsExact(req: Req, steps: seq<Step>, outcome: Outcome, attempt: nat,
                     dirs: map<Req, map<Step, File>>, index: seq<Row>, done: set<Row>)
    requires outcome.Payload? && !MissesStep(steps, outcome)
    ensures
      var k := SavedCount(steps, outcome);
      && (k == |steps| <==> outcome.saveFailsAt.None? || outcome.saveFailsAt.value >= |steps|)
      && (k < |steps| ==> k == outcome.saveFailsAt.value)
      && (k == |steps| ==> steps[..k] == steps)
      && SavedExactly(req, steps, k, attempt, if k < |steps| && outcome.torn then Some(steps[k]) else None,
                      dirs[req := LeftBehind(steps, outcome, attempt)],
                      index, index + RowsOf(req, steps[..k]), done, done + Expected(req, steps[..k]))
  {
    RowsInOrder(req, steps[..SavedCount(steps, outcome)]);
  }

  method LoadDoneSet(lines: seq<Line>) returns (done: set<Row>)
    ensures forall row :: row in done <==> Entry(row) in lines
  {
    done := {};
    for i := 0 to |lines|
      invariant forall row :: row in done <==> Entry(row) in lines[..i]
    {
      assert lines[..i + 1] == lines[..i] + [lines[i]];
      match lines[i]
      case Entry(row) => done := done + {row};
      case Blank =>
      case Malformed =>
    }
    assert lines[..|lines|] == lines;
  }

  class Builder {
    const steps: seq<Step>
    var dirs: map<Req, map<Step, File>>
    var index: seq<Row>
    var done: set<Row>
    var attempts: nat

    constructor (steps: seq<Step>, dirs: map<Req, map<Step, File>>, lines: seq<Row>, attempts: nat)
      ensures this.steps == steps && this.dirs == dirs && index == lines && this.attempts == attempts
      ensures done == LoadDone(lines)
    {
      this.steps := steps;
      this.dirs := dirs;
      this.index := lines;
      this.done := LoadDone(lines);
      this.attempts := attempts;
    }

    /** The builder as a state of the crash model. */
    ghost function At(pc: Pc): State
      reads this
    {
      State(Disk(dirs, index), steps, done, pc, attempts)
    }

    /** Delete what is there, create the directory anew. */
    method FreshDirectory(req: Req, ghost rules: Rules) returns (ghost events: seq<Event>)
      requires !(Expected(req, steps) <= done)
      modifies this`dirs
      ensures dirs == old(dirs)[req := map[]]
      ensures Run(rules, old(At(Between)), events) == Some(At(Computing(req)))
    {
      ghost var start := At(Between);
      events := [];
      ExtendFrom(rules, start, events, At(Between), Take(req));
      events := events + [Take(req)];
      if req in dirs {
        ReachableClosed(rules, start);
        DeleteAll(rules, Reachable(rules, start), At(Deleting(req)));
        ghost var creating := State(Disk(dirs - {req}, index), steps, done, Creating(req), attempts);
        events :| Run(rules, start, events) == Some(creating);
        dirs := dirs - {req};
      }
      ExtendFrom(rules, start, events, At(Creating(req)), DirCreated);
      events := events + [DirCreated];
      dirs := dirs[req := map[]];
    }

    /** Process one record.  `events` witnesses that the call is one crash-free stretch of the
        model, so that every prefix of it is a point at which a crash is accounted for. */
    method ProcessRecord(req: Req, outcome: Outcome, ghost rules: Rules)
      returns (status: Status, ghost events: seq<Event>)
      modifies this`dirs, this`index, this`done, this`attempts
      ensures Run(rules, old(At(Between)), events) == Some(At(Between))
      ensures status == Skip <==> Expected(req, steps) <= old(done)
      ensures status == Skip ==> At(Between) == old(At(Between))
      ensures status != Skip ==>
                var saved := steps[..SavedCount(steps, outcome)];
                && dirs == old(dirs)[req := LeftBehind(steps, outcome, old(attempts))]
                && index == old(index) + RowsOf(req, saved)
                && done == old(done) + Expected(req, saved)
                && (status == Ok <==> Complete(steps, outcome))
      ensures status != Skip ==>
                AsPromised(req, steps, outcome, status, old(attempts),
                           old(dirs), dirs, old(index), index, old(done), done)
    {
      if Expected(req, steps) <= done {
        return Skip, [];
      }
      status, events := Retry(req, outcome, rules);
      KeepsPromise(req, steps, outcome, old(attempts), old(dirs), old(index), old(done));
    }

    /** Process a record that is not complete. */
    method Retry(req: Req, outcome: Outcome, ghost rules: Rules) returns (status: Status, ghost events: seq<Event>)
      requires !(Expected(req, steps) <= done)
      modifies this`dirs, this`index, this`done, this`attempts
      ensures Run(rules, old(At(Between)), events) == Some(At(Between))
      ensures
        var saved := steps[..SavedCount(steps, outcome)];
        && dirs == old(dirs)[req := LeftBehind(steps, outcome, old(attempts))]
        && index == old(index) + RowsOf(req, saved)
        && done == old(done) + Expected(req, saved)
      ensures status == if Complete(steps, outcome) then Ok else Error
    {
      ghost var start := At(Between);
      events := FreshDirectory(req, rules);
      status, events := Attempt(req, outcome, rules, start, events);
    }

    /** The pipeline call and what follows from its outcome. */
    method Attempt(req: Req, outcome: Outcome, ghost rules: Rules, ghost start: State, ghost before: seq<Event>)
      returns (status: Status, ghost events: seq<Event>)
      requires req in dirs && dirs[req] == map[]
      requires Run(rules, start, before) == Some(At(Computing(req)))
      modifies this`dirs, this`index, this`done, this`attempts
      ensures Run(rules, start, events) == Some(At(Between))
      ensures
        var saved := steps[..SavedCount(steps, outcome)];
        && dirs == old(dirs)[req := LeftBehind(steps, outcome, old(attempts))]
        && index == old(index) + RowsOf(req, saved)
        && done == old(done) + Expected(req, saved)
      ensures status == if Complete(steps, outcome) then Ok else Error
    {
      if !outcome.Payload? {
        ExtendFrom(rules, start, before, At(Computing(req)), Fail(false));
        NothingSaved(req, steps, attempts, dirs);
        return Error, before + [Fail(false)];
      }
      ExtendFrom(rules, start, before, At(Computing(req)), Computed(outcome.available));
      events := before + [Computed(outcome.available)];
      if exists step :: step in steps && step !in outcome.available {
        NothingSaved(req, steps, attempts, dirs);
        return Error, events;
      }
      var attempt := attempts;
      attempts := attempts + 1;
      var n := SavedCount(steps, outcome);
      events := SaveSteps(req, n, attempt, rules, start, events);
      events := Close(req, n, attempt, outcome.torn, rules, start, events);
      return if n < |steps| then Error else Ok, events;
    }

    /** The attempt is over: a save has failed, or all steps are saved. */
    method Close(req: Req, n: nat, attempt: nat, torn: bool, ghost rules: Rules, ghost start: State,
                 ghost before: seq<Event>)
      returns (ghost events: seq<Event>)
      requires n <= |steps| && req in dirs
      requires Run(rules, start, before) == Some(At(Saving(req, n, attempt)))
      modifies this`dirs
      ensures Run(rules, start, events) == Some(At(Between))
      ensures dirs == if n < |steps| && torn then old(dirs)[req := old(dirs)[req][steps[n] := Torn]] else old(dirs)
    {
      ghost var last := if n < |steps| then Fail(torn) else RecordFinished;
      ExtendFrom(rules, start, before, At(Saving(req, n, attempt)), last);
      events := before + [last];
      if n < |steps| && torn {
        dirs := dirs[req := dirs[req][steps[n] := Torn]];
      }
    }

    /** One step: its file, then its row, then its entry in the done set. */
    method SaveStep(req: Req, k: nat, attempt: nat, ghost rules: Rules, ghost start: State, ghost before: seq<Event>)
      returns (ghost events: seq<Event>)
      requires k < |steps| && req in dirs
      requires Run(rules, start, before) == Some(At(Saving(req, k, attempt)))
      modifies this`dirs, this`index, this`done
      ensures Run(rules, start, events) == Some(At(Saving(req, k + 1, attempt)))
      ensures dirs == old(dirs)[req := old(dirs)[req][steps[k] := Whole(attempt)]]
      ensures index == old(index) + [Row(req, steps[k])]
      ensures done == old(done) + {Row(req, steps[k])}
    {
      ExtendFrom(rules, start, before, At(Saving(req, k, attempt)), Save);
      events := before + [Save];
      dirs := dirs[req := dirs[req][steps[k] := Whole(attempt)]];
      ExtendFrom(rules, start, events, At(Saved(req, k, attempt)), AppendRow);
      events := events + [AppendRow];
      index := index + [Row(req, steps[k])];
      ExtendFrom(rules, start, events, At(Indexed(req, k, attempt)), AddDone);
      events := events + [AddDone];
      done := done + {Row(req, steps[k])};
    }

    /** The saving loop over the first `n` steps. */
    method SaveSteps(req: Req, n: nat, attempt: nat, ghost rules: Rules, ghost start: State, ghost before: seq<Event>)
      returns (ghost events: seq<Event>)
      requires req in dirs && dirs[req] == map[] && n <= |steps|
      requires Run(rules, start, before) == Some(At(Saving(req, 0, attempt)))
      modifies this`dirs, this`index, this`done
      ensures Run(rules, start, events) == Some(At(Saving(req, n, attempt)))
      ensures dirs == old(dirs)[req := FilesOf(steps[..n], attempt)]
      ensures index == old(index) + RowsOf(req, steps[..n])
      ensures done == old(done) + Expected(req, steps[..n])
    {
      events := before;
      for k := 0 to n
        invariant dirs == old(dirs)[req := FilesOf(steps[..k], attempt)]
        invariant index == old(index) + RowsOf(req, steps[..k])
        invariant done == old(done) + Expected(req, steps[..k])
        invariant Run(rules, start, events) == Some(At(Saving(req, k, attempt)))
      {
        SavedGrows(req, steps, k, attempt, old(dirs), old(index), old(done));
        events := SaveStep(req, k, attempt, rules, start, events);
      }
    }
  }

  lemma NothingSaved(req: Req, steps: seq<Step>, attempt: nat, dirs: map<Req, map<Step, File>>)
    requires req in dirs && dirs[req] == map[]
    ensures dirs[req := FilesOf(steps[..0], attempt)] == dirs
    ensures RowsOf(req, steps[..0]) == [] && Expected(req, steps[..0]) == {}
  {
    assert FilesOf(steps[..0], attempt) == map[];
  }

  lemma SavedGrows(req: Req, steps: seq<Step>, k: nat, attempt: nat,
                   dirs: map<Req, map<Step, File>>, index: seq<Row>, done: set<Row>)
    requires k < |steps|
    ensures
      var before := dirs[req := FilesOf(steps[..k], attempt)];
      before[req := before[req][steps[k] := Whole(attempt)]] == dirs[req := FilesOf(steps[..k + 1], attempt)]
    ensures index + RowsOf(req, steps[..k]) + [Row(req, steps[k])] == index + RowsOf(req, steps[..k + 1])
    ensures done + Expected(req, steps[..k]) + {Row(req, steps[k])} == done + Expected(req, steps[..k + 1])
  {
    assert steps[..k + 1] == steps[..k] + [steps[k]];
    assert steps[..k + 1][..k] == steps[..k];
    assert FilesOf(steps[..k + 1], attempt) == FilesOf(steps[..k], attempt)[steps[k] := Whole(attempt)];
    ExpectedGrows(req, steps, k);
  }
}
