/** Resuming a regression run in an existing directory, and merging its report. */
module ResumeReport {
  import opened Common

  /** What identifies an output file: script stem, GPU count, output type. */
  datatype Key = Key(stem: string, gpus: nat, video: bool)

  /** `report` maps names to recorded statuses; `outputs` says which child run wrote each file. */
  datatype Dir = Dir(report: map<string, string>, outputs: map<Key, nat>)

  /** A run in progress: what it set out to run, and the statuses computed so far. */
  datatype Session = Session(todo: set<string>, results: map<string, string>)

  datatype State = State(dir: Dir, session: Option<Session>, clock: nat)

  datatype Event =
    | Launch(names: set<string>)           // a resumed run of these configured pipelines
    | Write(name: string)                  // its child for `name` writes the output file
    | Record(name: string, status: string) // the result of `name` is known
    | Save                                 // all results known: the report is written
    | Interrupt                            // the run dies, leaving the directory as it is
    | TornSave                             // the run dies while it overwrites the report

  predicate IsCompleted(d: Dir, keys: map<string, Key>, name: string)
    requires name in keys
  {
    name in d.report && d.report[name] == "PASS" && keys[name] in d.outputs
  }

  /** The names that a resumed run skips. */
  method GetCompletedPipelines(d: Dir, keys: map<string, Key>, names: seq<string>) returns (completed: set<string>)
    requires forall n :: n in names ==> n in keys
    ensures forall n :: n in completed <==> n in names && IsCompleted(d, keys, n)
  {
    completed := {};
    for i := 0 to |names|
      invariant forall n :: n in completed <==> n in names[..i] && n in keys && IsCompleted(d, keys, n)
    {
      assert names[..i + 1] == names[..i] + [names[i]];
      assert names[i] in names;
      if IsCompleted(d, keys, names[i]) {
        completed := completed + {names[i]};
      }
    }
    assert names[..|names|] == names;
  }

  /** What a run of `names` still has to do. */
  function Remaining(d: Dir, keys: map<string, Key>, names: set<string>): set<string>
    requires names <= keys.Keys
  {
    set n | n in names && !IsCompleted(d, keys, n)
  }

  function Apply(keys: map<string, Key>, s: State, e: Event): Option<State> {
    match e
    case Launch(names) =>
      if s.session.Some? || !(names <= keys.Keys) then None
      else
        var todo := Remaining(s.dir, keys, names);
        Some(if todo == {} then s else s.(session := Some(Session(todo, map[]))))
    case Write(name) =>
      if s.session.None? || name !in s.session.value.todo || name !in keys then None
      else Some(s.(dir := s.dir.(outputs := s.dir.outputs[keys[name] := s.clock]), clock := s.clock + 1))
    case Record(name, status) =>
      if s.session.None? || name !in s.session.value.todo then None
      else Some(s.(session := Some(s.session.value.(results := s.session.value.results[name := status]))))
    case Save =>
      if s.session.None? || s.session.value.results.Keys != s.session.value.todo then None
      else Some(s.(dir := s.dir.(report := s.dir.report + s.session.value.results), session := None))
    case Interrupt =>
      if s.session.None? then None else Some(s.(session := None))
    case TornSave =>
      // a report that does not parse counts as an empty one
      if s.session.None? || s.session.value.results.Keys != s.session.value.todo then None
      else Some(s.(dir := s.dir.(report := map[]), session := None))
  }

  /** With `atomic`, no run dies while it overwrites the report. */
  function Run(keys: map<string, Key>, atomic: bool, s: State, events: seq<Event>): Option<State>
    decreases |events|
  {
    if events == [] then Some(s)
    else
      var before := Run(keys, atomic, s, events[..|events| - 1]);
      if before.None? || (atomic && events[|events| - 1].TornSave?) then None
      else Apply(keys, before.value, events[|events| - 1])
  }

  /** Every pipeline that shares the file has a recorded PASS, and the file is there. */
  ghost predicate Verified(keys: map<string, Key>, d: Dir, key: Key) {
    && key in d.outputs
    && (forall m :: m in keys && keys[m] == key ==> m in d.report && d.report[m] == "PASS")
  }

  /** Nothing in progress is about to touch the file or the records of those who share it. */
  ghost predicate Settled(keys: map<string, Key>, s: State, key: Key) {
    && Verified(keys, s.dir, key)
    && (s.session.Some? ==> s.session.value.results.Keys <= s.session.value.todo
                            && forall m :: m in s.session.value.todo ==> m in keys && keys[m] != key)
  }

  lemma SettledKept(keys: map<string, Key>, s: State, e: Event, t: State, key: Key)
    requires Settled(keys, s, key) && Apply(keys, s, e) == Some(t) && e != TornSave
    ensures Settled(keys, t, key) && t.dir.outputs[key] == s.dir.outputs[key]
  {
    match e
    case Launch(names) =>
      forall m | m in names && keys[m] == key ensures IsCompleted(s.dir, keys, m) {
      }
    case _ =>
  }

  lemma {:induction false} SettledForever(keys: map<string, Key>, s: State, events: seq<Event>, t: State, key: Key)
    requires Settled(keys, s, key) && Run(keys, true, s, events) == Some(t)
    ensures Settled(keys, t, key) && t.dir.outputs[key] == s.dir.outputs[key]
    decreases |events|
  {
    if events != [] {
      var before := Run(keys, true, s, events[..|events| - 1]).value;
      SettledForever(keys, s, events[..|events| - 1], before, key);
      SettledKept(keys, before, events[|events| - 1], t, key);
    }
  }

  /** Writes are numbered in order, so a later write shows. */
  ghost predicate Numbered(s: State) {
    forall k :: k in s.dir.outputs ==> s.dir.outputs[k] < s.clock
  }

  predicate SameFile(s: State, t: State, key: Key) {
    key in s.dir.outputs && key in t.dir.outputs && t.dir.outputs[key] == s.dir.outputs[key]
  }

  /** Resume safety, exactly: over every later sequence of complete and interrupted runs the file
      of a pipeline with a recorded PASS is never written again, if and only if every configured
      pipeline that shares the file has a recorded PASS too. */
  lemma NeverOverwrittenExactly(keys: map<string, Key>, s: State, name: string)
    requires s.session.None? && Numbered(s) && name in keys && IsCompleted(s.dir, keys, name)
    ensures (forall events :: Run(keys, true, s, events).Some? ==>
                                SameFile(s, Run(keys, true, s, events).value, keys[name]))
            <==> Verified(keys, s.dir, keys[name])
  {
    var key := keys[name];
    if Verified(keys, s.dir, key) {
      forall events | Run(keys, true, s, events).Some? ensures SameFile(s, Run(keys, true, s, events).value, key) {
        SettledForever(keys, s, events, Run(keys, true, s, events).value, key);
      }
    } else {
      var m :| m in keys && keys[m] == key && !(m in s.dir.report && s.dir.report[m] == "PASS");
      Overwrite(keys, s, m);
      var events := [Launch({m}), Write(m)];
      assert !SameFile(s, Run(keys, true, s, events).value, key);
    }
  }

  lemma Overwrite(keys: map<string, Key>, s: State, m: string)
    requires s.session.None? && m in keys && !(m in s.dir.report && s.dir.report[m] == "PASS")
    ensures
      var events := [Launch({m}), Write(m)];
      && Run(keys, true, s, events).Some?
      && Run(keys, true, s, events).value.dir.outputs == s.dir.outputs[keys[m] := s.clock]
  {
    var a, b := Launch({m}), Write(m);
    assert [a, b][..1] == [a] && [a][..0] == [];
    assert Run(keys, true, s, []) == Some(s);
    var todo := Remaining(s.dir, keys, {m});
    assert m in todo && todo != {};
    assert Apply(keys, s, a) == Some(s.(session := Some(Session(todo, map[]))));
    assert Run(keys, true, s, [a]) == Apply(keys, s, a);
  }

  /** The name is completed, and a run in progress neither runs nor records it. */
  ghost predicate PassKept(keys: map<string, Key>, s: State, name: string) {
    && name in keys && IsCompleted(s.dir, keys, name)
    && (s.session.Some? ==>
          name !in s.session.value.todo && s.session.value.results.Keys <= s.session.value.todo)
  }

  /** A completed pipeline, whoever else shares its file, keeps its PASS and its file over every later
      sequence of complete and interrupted runs, and none of them runs it again. */
  lemma {:induction false} RecordedPassIsFinal(keys: map<string, Key>, s: State, events: seq<Event>, t: State,
                                               name: string)
    requires s.session.None? && name in keys && IsCompleted(s.dir, keys, name)
    requires Run(keys, true, s, events) == Some(t)
    ensures PassKept(keys, t, name)
    decreases |events|
  {
    if events != [] {
      var before := Run(keys, true, s, events[..|events| - 1]).value;
      RecordedPassIsFinal(keys, s, events[..|events| - 1], before, name);
    }
  }

  lemma PassNeedsSave(keys: map<string, Key>, s: State, e: Event, t: State, name: string)
    requires Apply(keys, s, e) == Some(t)
    requires name in t.dir.report && t.dir.report[name] == "PASS"
    ensures (name in s.dir.report && s.dir.report[name] == "PASS")
            || (e == Save && s.session.Some?
                && name in s.session.value.results && s.session.value.results[name] == "PASS")
  {
  }

  /** A run that had computed a PASS for the name was at the point of saving its report. */
  ghost predicate SavedPass(keys: map<string, Key>, atomic: bool, s: State, events: seq<Event>, k: nat, name: string) {
    && k < |events| && events[k] == Save && Run(keys, atomic, s, events[..k]).Some?
    && var u := Run(keys, atomic, s, events[..k]).value;
       u.session.Some? && name in u.session.value.results && u.session.value.results[name] == "PASS"
  }

  /** Over all runs, torn or not, a new PASS in the report goes back to a save by a run that computed
      it: files alone, left by interrupted runs, never make a later run skip. */
  lemma {:induction false} PassWasSaved(keys: map<string, Key>, atomic: bool, s: State, events: seq<Event>, t: State,
                                        name: string)
    requires Run(keys, atomic, s, events) == Some(t)
    requires name in t.dir.report && t.dir.report[name] == "PASS"
    requires !(name in s.dir.report && s.dir.report[name] == "PASS")
    ensures exists k: nat :: SavedPass(keys, atomic, s, events, k, name)
    decreases |events|
  {
    var n := |events| - 1;
    var before := Run(keys, atomic, s, events[..n]).value;
    PassNeedsSave(keys, before, events[n], t, name);
    if name in before.dir.report && before.dir.report[name] == "PASS" {
      PassWasSaved(keys, atomic, s, events[..n], before, name);
      var k: nat :| SavedPass(keys, atomic, s, events[..n], k, name);
      assert events[..n][..k] == events[..k];
      assert SavedPass(keys, atomic, s, events, k, name);
    } else {
      assert SavedPass(keys, atomic, s, events, n, name);
    }
  }

  /** No skip without a PASS: a resumed run leaves out only names that had a PASS to begin with, or
      for which, over all runs, torn or not, a run that had computed a PASS was saved. */
  lemma SkipNeedsSavedPass(keys: map<string, Key>, atomic: bool, s: State, events: seq<Event>, t: State,
                           names: set<string>, u: State, name: string)
    requires Run(keys, atomic, s, events) == Some(t) && Apply(keys, t, Launch(names)) == Some(u)
    requires name in names && !(u.session.Some? && name in u.session.value.todo)
    ensures keys[name] in t.dir.outputs
    ensures (name in s.dir.report && s.dir.report[name] == "PASS")
            || exists k: nat :: SavedPass(keys, atomic, s, events, k, name)
  {
    assert name !in Remaining(t.dir, keys, names);
    if !(name in s.dir.report && s.dir.report[name] == "PASS") {
      PassWasSaved(keys, atomic, s, events, t, name);
    }
  }

  /** What saving does to the report: every name the run set out to run has been computed and gets
      exactly that status, every other name keeps its own or stays absent; files stay as they are. */
  lemma SaveRecords(keys: map<string, Key>, s: State, t: State, name: string)
    requires Apply(keys, s, Save) == Some(t)
    ensures name in s.session.value.todo <==> name in s.session.value.results
    ensures name in s.session.value.results ==>
              name in t.dir.report && t.dir.report[name] == s.session.value.results[name]
    ensures name !in s.session.value.results ==>
              (name in t.dir.report <==> name in s.dir.report)
              && (name in s.dir.report ==> t.dir.report[name] == s.dir.report[name])
    ensures t.dir.outputs == s.dir.outputs && t.session.None?
  {
  }

  /** Event `k` is the last to record a result for the name, in the run that is still in progress. */
  ghost predicate LastRecord(events: seq<Event>, k: nat, name: string, status: string) {
    && k < |events| && events[k] == Record(name, status)
    && forall x :: k < x < |events| ==>
                     !(events[x].Record? && events[x].name == name) && !events[x].Save? && !events[x].Interrupt?
  }

  /** The statuses a run holds, and so those it saves, are the last ones recorded for each name. */
  lemma {:induction false} ResultsAreRecorded(keys: map<string, Key>, atomic: bool, s: State, events: seq<Event>,
                                              t: State, name: string)
    requires s.session.None? && Run(keys, atomic, s, events) == Some(t)
    requires t.session.Some? && name in t.session.value.results
    ensures exists k: nat :: LastRecord(events, k, name, t.session.value.results[name])
    decreases |events|
  {
    var n := |events| - 1;
    var before := Run(keys, atomic, s, events[..n]).value;
    if events[n] == Record(name, t.session.value.results[name]) {
      assert LastRecord(events, n, name, t.session.value.results[name]);
    } else {
      ResultsAreRecorded(keys, atomic, s, events[..n], before, name);
      var k: nat :| LastRecord(events[..n], k, name, t.session.value.results[name]);
      assert LastRecord(events, k, name, t.session.value.results[name]);
    }
  }

  lemma {:induction false} OutputsStay(keys: map<string, Key>, atomic: bool, s: State, events: seq<Event>, t: State,
                                       k: nat, name: string)
    requires Run(keys, atomic, s, events) == Some(t) && k < |events| && events[k] == Write(name)
    ensures name in keys && keys[name] in t.dir.outputs
    decreases |events|
  {
    var n := |events| - 1;
    if k < n {
      OutputsStay(keys, atomic, s, events[..n], Run(keys, atomic, s, events[..n]).value, k, name);
    }
  }

  /** A pipeline whose child wrote its file, and for which the run saved a PASS, is completed; over all
      later runs, until one dies while it writes the report, it stays so and is never run again. */
  lemma SavedPassIsSkipped(keys: map<string, Key>, atomic: bool, s: State, events: seq<Event>, u: State, k: nat,
                           t: State, later: seq<Event>, v: State, name: string)
    requires Run(keys, atomic, s, events) == Some(u) && k < |events| && events[k] == Write(name)
    requires Apply(keys, u, Save) == Some(t) && name in u.session.value.results
    requires u.session.value.results[name] == "PASS" && Run(keys, true, t, later) == Some(v)
    ensures PassKept(keys, v, name)
    ensures forall names: set<string> :: name !in Remaining(v.dir, keys, names * keys.Keys)
  {
    OutputsStay(keys, atomic, s, events, u, k, name);
    SaveRecords(keys, u, t, name);
    RecordedPassIsFinal(keys, t, later, v, name);
  }

  /** The set of names in the report only grows. */
  lemma {:induction false} NamesOnlyGrow(keys: map<string, Key>, s: State, events: seq<Event>, t: State)
    requires Run(keys, true, s, events) == Some(t)
    ensures s.dir.report.Keys <= t.dir.report.Keys
    decreases |events|
  {
    if events != [] {
      NamesOnlyGrow(keys, s, events[..|events| - 1], Run(keys, true, s, events[..|events| - 1]).value);
    }
  }

  /** Without that guarantee a single pipeline left to run is enough to lose the records, and the
      next resumed run writes over a verified file. */
  lemma TornSaveForgets(keys: map<string, Key>, s: State, name: string, other: string) returns (events: seq<Event>)
    requires s.session.None? && Numbered(s) && name in keys && IsCompleted(s.dir, keys, name)
    requires other in keys && !IsCompleted(s.dir, keys, other)
    ensures
      var t := Run(keys, false, s, events);
      && t.Some? && t.value.session.Some? && name in t.value.session.value.todo
      && !SameFile(s, t.value, keys[name])
  {
    var a := s.(session := Some(Session({other}, map[])));
    assert Remaining(s.dir, keys, {other}) == {other};
    Longer(keys, s, [], s, Launch({other}), a);
    var b := s.(session := Some(Session({other}, map[other := "ERROR"])));
    Longer(keys, s, [Launch({other})], a, Record(other, "ERROR"), b);
    var c := s.(dir := s.dir.(report := map[]));
    events := [Launch({other})] + [Record(other, "ERROR")];
    Longer(keys, s, events, b, TornSave, c);
    var d := c.(session := Some(Session({name}, map[])));
    assert Remaining(c.dir, keys, {name}) == {name};
    events := events + [TornSave];
    Longer(keys, s, events, c, Launch({name}), d);
    events := events + [Launch({name})];
    Longer(keys, s, events, d, Write(name), Apply(keys, d, Write(name)).value);
    events := events + [Write(name)];
  }

  /** When every configured pipeline is completed, no resumed run begins at all. */
  lemma {:induction false} NothingToRun(keys: map<string, Key>, atomic: bool, s: State, events: seq<Event>)
    requires s.session.None? && (forall m :: m in keys ==> IsCompleted(s.dir, keys, m))
    requires Run(keys, atomic, s, events).Some?
    ensures Run(keys, atomic, s, events) == Some(s)
    decreases |events|
  {
    if events != [] {
      NothingToRun(keys, atomic, s, events[..|events| - 1]);
      match events[|events| - 1]
      case Launch(names) => assert Remaining(s.dir, keys, names) == {};
      case _ =>
    }
  }

  /** Resume safety with runs that may also die while they overwrite the report, exactly: the file
      of a completed pipeline is never written again if and only if every configured pipeline is
      completed, so that there is nothing left to run. */
  lemma NeverOverwrittenTorn(keys: map<string, Key>, s: State, name: string)
    requires s.session.None? && Numbered(s) && name in keys && IsCompleted(s.dir, keys, name)
    ensures (forall events :: Run(keys, false, s, events).Some? ==>
                                SameFile(s, Run(keys, false, s, events).value, keys[name]))
            <==> forall m :: m in keys ==> IsCompleted(s.dir, keys, m)
  {
    if m :| m in keys && !IsCompleted(s.dir, keys, m) {
      var events := TornSaveForgets(keys, s, name, m);
    } else {
      forall events | Run(keys, false, s, events).Some?
        ensures SameFile(s, Run(keys, false, s, events).value, keys[name])
      {
        NothingToRun(keys, false, s, events);
      }
    }
  }

  lemma Longer(keys: map<string, Key>, s: State, events: seq<Event>, t: State, e: Event, u: State)
    requires Run(keys, false, s, events) == Some(t) && Apply(keys, t, e) == Some(u)
    ensures Run(keys, false, s, events + [e]) == Some(u)
  {
    assert (events + [e])[..|events|] == events;
  }

  // ----- merging old and new results

  datatype Result = Result(name: string, status: string)

  /** The later entry for a name wins, as in a dict update. */
  function StatusMap(results: seq<Result>): map<string, string> {
    if results == [] then map[]
    else StatusMap(results[..|results| - 1])[results[|results| - 1].name := results[|results| - 1].status]
  }

  lemma StatusMapGrows(results: seq<Result>, r: Result)
    ensures StatusMap(results + [r]) == StatusMap(results)[r.name := r.status]
  {
    assert (results + [r])[..|results|] == results;
  }

  lemma KeptGrows(kept: seq<Result>, front: seq<Result>, r: Result, rerun: set<string>)
    requires StatusMap(kept) == StatusMap(front) - rerun
    ensures StatusMap(front + [r]) - rerun == if r.name in rerun then StatusMap(kept) else StatusMap(kept + [r])
  {
    StatusMapGrows(front, r);
    StatusMapGrows(kept, r);
  }

  lemma {:induction false} StatusMapJoin(a: seq<Result>, b: seq<Result>)
    ensures StatusMap(a + b) == StatusMap(a) + StatusMap(b)
  {
    if b == [] {
      assert a + b == a;
    } else {
      StatusMapJoin(a, b[..|b| - 1]);
      assert (a + b)[..|a + b| - 1] == a + b[..|b| - 1];
    }
  }

  lemma {:induction false} StatusMapNames(results: seq<Result>)
    ensures forall n :: n in StatusMap(results) <==> exists i :: 0 <= i < |results| && results[i].name == n
  {
    if results != [] {
      StatusMapNames(results[..|results| - 1]);
      assert results[|results| - 1].name in StatusMap(results);
    }
  }

  /** Recorded results, none of them run again. */
  ghost predicate OldOnly(kept: seq<Result>, existing: seq<Result>, rerun: set<string>) {
    forall i :: 0 <= i < |kept| ==> kept[i] in existing && kept[i].name !in rerun
  }

  /** The table: recorded results whose name was not run now, then the new ones. */
  method MergedTable(existing: seq<Result>, results: seq<Result>) returns (table: seq<Result>)
    ensures StatusMap(table) == StatusMap(existing) + StatusMap(results)
    ensures exists kept :: table == kept + results && OldOnly(kept, existing, StatusMap(results).Keys)
  {
    var rerun := NamesOf(results);
    var kept := NotRerun(existing, rerun);
    StatusMapJoin(kept, results);
    return kept + results;
  }

  method NotRerun(existing: seq<Result>, rerun: set<string>) returns (kept: seq<Result>)
    ensures OldOnly(kept, existing, rerun) && StatusMap(kept) == StatusMap(existing) - rerun
  {
    kept := [];
    for i := 0 to |existing|
      invariant OldOnly(kept, existing, rerun)
      invariant StatusMap(kept) == StatusMap(existing[..i]) - rerun
    {
      KeptGrows(kept, existing[..i], existing[i], rerun);
      assert existing[..i + 1] == existing[..i] + [existing[i]];
      if existing[i].name !in rerun {
        kept := kept + [existing[i]];
      }
    }
    assert existing[..|existing|] == existing;
  }

  method NamesOf(results: seq<Result>) returns (names: set<string>)
    ensures names == StatusMap(results).Keys
  {
    names := {};
    for i := 0 to |results|
      invariant names == StatusMap(results[..i]).Keys
    {
      assert results[..i + 1][..i] == results[..i];
      names := names + {results[i].name};
    }
    assert results[..|results|] == results;
  }

  /** Result `i` is the last one for the name. */
  predicate LastFor(results: seq<Result>, i: int, name: string) {
    && 0 <= i < |results| && results[i].name == name
    && forall j :: i < j < |results| ==> results[j].name != name
  }

  lemma {:induction false} LastWins(results: seq<Result>, i: int, name: string)
    requires LastFor(results, i, name)
    ensures name in StatusMap(results) && StatusMap(results)[name] == results[i].status
  {
    if i < |results| - 1 {
      LastWins(results[..|results| - 1], i, name);
    }
  }

  /** The saving step of the runs above writes the merged report of the save routine below. */
  lemma SaveIsMerge(keys: map<string, Key>, s: State, t: State, results: seq<Result>)
    requires Apply(keys, s, Save) == Some(t) && StatusMap(results) == s.session.value.results
    ensures t.dir.report == s.dir.report + StatusMap(results)
  {
  }

  /** The report: recorded results updated with the new ones, entry by entry. */
  method MergedReport(existing: map<string, string>, results: seq<Result>) returns (all: map<string, string>)
    ensures all == existing + StatusMap(results)
    ensures forall n, i :: LastFor(results, i, n) ==> n in all && all[n] == results[i].status
    ensures forall n :: (forall i :: 0 <= i < |results| ==> results[i].name != n) ==>
                          (n in all <==> n in existing) && (n in existing ==> all[n] == existing[n])
  {
    all := existing;
    for i := 0 to |results|
      invariant all == existing + StatusMap(results[..i])
    {
      assert results[..i + 1][..i] == results[..i];
      all := all[results[i].name := results[i].status];
    }
    assert results[..|results|] == results;
    forall n, i | LastFor(results, i, n) ensures n in all && all[n] == results[i].status {
      LastWins(results, i, n);
    }
    StatusMapNames(results);
  }

  /** The table and the JSON report give every name the same status. */
  method TableAndReport(existing: seq<Result>, results: seq<Result>)
    returns (table: seq<Result>, report: map<string, string>)
    ensures StatusMap(table) == report
    ensures report.Keys == StatusMap(existing).Keys + StatusMap(results).Keys
  {
    table := MergedTable(existing, results);
    report := MergedReport(StatusMap(existing), results);
  }

  function LowerChar(c: char): char {
    if 'A' <= c <= 'Z' then c + 32 as char else c
  }

  function Lower(s: string): string {
    if s == "" then "" else [LowerChar(s[0])] + Lower(s[1..])
  }

  /** Every capital becomes the small letter at its place in the alphabet; nothing else changes. */
  lemma {:induction false} LowerExactly(s: string, i: nat)
    requires i < |s|
    ensures |Lower(s)| == |s|
    ensures 'A' <= s[i] <= 'Z' ==> Lower(s)[i] as int - 'a' as int == s[i] as int - 'A' as int
    ensures !('A' <= s[i] <= 'Z') ==> Lower(s)[i] == s[i]
  {
    if |s| > 1 {
      LowerExactly(s[1..], if i > 0 then i - 1 else 0);
    } else {
      assert s[1..] == "";
    }
  }

  function LowerAll(statuses: seq<string>): seq<string> {
    seq(|statuses|, i requires 0 <= i < |statuses| => Lower(statuses[i]))
  }

  ghost function Total(counts: map<string, nat>): nat
    decreases |counts|
  {
    if counts == map[] then 0
    else
      var k: string :| k in counts;
      assert |counts - {k}| < |counts| by { Fewer(counts, k); }
      counts[k] + Total(counts - {k})
  }

  lemma Fewer(counts: map<string, nat>, k: string)
    requires k in counts
    ensures |counts - {k}| < |counts|
  {
    assert (counts - {k}).Keys == counts.Keys - {k};
    assert |counts.Keys - {k}| == |counts.Keys| - 1;
  }

  /** The total does not depend on the order of adding. */
  lemma {:induction false} TotalSplit(counts: map<string, nat>, k: string)
    requires k in counts
    ensures Total(counts) == counts[k] + Total(counts - {k})
    decreases |counts|
  {
    var first: string :| first in counts && Total(counts) == counts[first] + Total(counts - {first});
    if first != k {
      Fewer(counts, first);
      Fewer(counts, k);
      TotalSplit(counts - {first}, k);
      TotalSplit(counts - {k}, first);
      assert counts - {first} - {k} == counts - {k} - {first};
    }
  }

  function Bumped(counts: map<string, nat>, k: string): map<string, nat> {
    counts[k := (if k in counts then counts[k] else 0) + 1]
  }

  lemma TotalCountsOne(counts: map<string, nat>, k: string)
    ensures Total(Bumped(counts, k)) == Total(counts) + 1
  {
    TotalSplit(Bumped(counts, k), k);
    assert Bumped(counts, k) - {k} == counts - {k};
    if k in counts {
      TotalSplit(counts, k);
    } else {
      assert counts - {k} == counts;
    }
  }

  lemma {:induction false} AllZero(counts: map<string, nat>)
    requires forall k :: k in counts ==> counts[k] == 0
    ensures Total(counts) == 0
    decreases |counts|
  {
    if counts != map[] {
      var k :| k in counts;
      Fewer(counts, k);
      TotalSplit(counts, k);
      AllZero(counts - {k});
    }
  }

  /** Every key counted, as often as it occurs. */
  ghost predicate Tallies(counts: map<string, nat>, keys: seq<string>) {
    && (forall k :: k in keys ==> k in counts)
    && (forall k :: k in counts ==> counts[k] == multiset(keys)[k])
    && Total(counts) == |keys|
  }

  lemma TallyGrows(counts: map<string, nat>, keys: seq<string>, key: string)
    requires Tallies(counts, keys)
    ensures Tallies(Bumped(counts, key), keys + [key])
  {
    TotalCountsOne(counts, key);
    assert key !in counts ==> multiset(keys)[key] == 0;
  }

  lemma {:induction false} LowerIs(s: string, t: string)
    requires |s| == |t| && forall i :: 0 <= i < |s| ==> t[i] == LowerChar(s[i])
    ensures Lower(s) == t
  {
    if s != "" {
      LowerIs(s[1..], t[1..]);
      assert t == [t[0]] + t[1..];
    }
  }

  lemma LowerWords()
    ensures Lower("PASS") == "pass" && Lower("FAIL") == "fail" && Lower("SKIP") == "skip"
    ensures Lower("ERROR") == "error" && Lower("TIMEOUT") == "timeout"
  {
    LowerIs("PASS", "pass");
    LowerIs("FAIL", "fail");
    LowerIs("SKIP", "skip");
    LowerIs("ERROR", "error");
    LowerIs("TIMEOUT", "timeout");
  }

  predicate Known(status: string) {
    status == "PASS" || status == "FAIL" || status == "SKIP" || status == "ERROR" || status == "TIMEOUT"
  }

  lemma {:induction false} CountsOne(statuses: seq<string>, word: string, low: string)
    requires forall i :: 0 <= i < |statuses| ==> (Lower(statuses[i]) == low <==> statuses[i] == word)
    ensures multiset(LowerAll(statuses))[low] == multiset(statuses)[word]
  {
    if statuses != [] {
      var n := |statuses| - 1;
      CountsOne(statuses[..n], word, low);
      assert statuses == statuses[..n] + [statuses[n]];
      assert LowerAll(statuses) == LowerAll(statuses[..n]) + [Lower(statuses[n])];
    }
  }

  /** On the statuses the runner uses, each counter counts exactly one of them. */
  ghost predicate CountsByName(counts: map<string, nat>, statuses: seq<string>) {
    && {"pass", "fail", "skip", "error", "timeout"} <= counts.Keys
    && counts["pass"] == multiset(statuses)["PASS"] && counts["fail"] == multiset(statuses)["FAIL"]
    && counts["skip"] == multiset(statuses)["SKIP"] && counts["error"] == multiset(statuses)["ERROR"]
    && counts["timeout"] == multiset(statuses)["TIMEOUT"]
  }

  lemma KnownCounts(counts: map<string, nat>, statuses: seq<string>)
    requires forall i :: 0 <= i < |statuses| ==> Known(statuses[i])
    requires Tallies(counts, LowerAll(statuses)) && {"pass", "fail", "skip", "error", "timeout"} <= counts.Keys
    ensures CountsByName(counts, statuses)
  {
    LowerWords();
    WordsApart();
    CountsOne(statuses, "PASS", "pass");
    CountsOne(statuses, "FAIL", "fail");
    CountsOne(statuses, "SKIP", "skip");
    CountsOne(statuses, "ERROR", "error");
    CountsOne(statuses, "TIMEOUT", "timeout");
  }

  lemma WordsApart()
    ensures "pass" != "fail" && "pass" != "skip" && "fail" != "skip"
    ensures |"pass"| == |"fail"| == |"skip"| == 4 && |"error"| == 5 && |"timeout"| == 7
  {
    assert "pass"[0] != "fail"[0] && "pass"[0] != "skip"[0] && "fail"[0] != "skip"[0];
  }

  /** The summary's counters: every status counted under its own lower-case name, so that the
      counters add up to the number of results. */
  method CountStatuses(statuses: seq<string>) returns (counts: map<string, nat>)
    ensures Tallies(counts, LowerAll(statuses)) && Total(counts) == |statuses|
    ensures (forall i :: 0 <= i < |statuses| ==> Known(statuses[i])) ==> CountsByName(counts, statuses)
  {
    counts := map["pass" := 0, "fail" := 0, "skip" := 0, "error" := 0, "timeout" := 0];
    AllZero(counts);
    ghost var start := counts;
    for i := 0 to |statuses|
      invariant Tallies(counts, LowerAll(statuses[..i]))
      invariant start.Keys <= counts.Keys
    {
      assert LowerAll(statuses[..i + 1]) == LowerAll(statuses[..i]) + [Lower(statuses[i])];
      TallyGrows(counts, LowerAll(statuses[..i]), Lower(statuses[i]));
      counts := Bumped(counts, Lower(statuses[i]));
    }
    assert statuses[..|statuses|] == statuses;
    if forall i :: 0 <= i < |statuses| ==> Known(statuses[i]) {
      KnownCounts(counts, statuses);
    }
  }
}
