/** The run loop: how many rounds it takes, and what it has produced at the end. */
module SchedulerLoop {
  import opened Common
  import opened GpuPool
  import opened Scheduler
  import opened SchedulerSafety

  /** What the environment contributes to one round: the clock when a pipeline may start, and what
      each poll shows.  A child process may finish at any poll or never. */
  datatype Round = Round(start: int, seen: nat -> Observation)

  /** Time moves forward within round `k`, and by at least `d` (the sleep) before the next. */
  ghost predicate Ticks(env: nat -> Round, d: nat, k: nat) {
    && env(k).start + d <= env(k + 1).start
    && (forall id: nat :: env(k).start <= env(k).seen(id).now && env(k).seen(id).now + d <= env(k + 1).start)
  }

  ghost predicate GoodClock(env: nat -> Round, d: nat) {
    forall k: nat :: Ticks(env, d, k)
  }

  function Step(s: Sched, r: Round, grace: nat): Sched {
    Collected(Scheduled(s, r.start), r.seen, grace)
  }

  /** A round of `while pending or running`; nothing happens once the loop is over. */
  function Next(s: Sched, r: Round, grace: nat): Sched {
    if Finished(s) then s else Step(s, r, grace)
  }

  /** The state after at most `n` rounds. */
  function AfterRounds(s: Sched, env: nat -> Round, grace: nat, n: nat): Sched {
    if n == 0 then s else Next(AfterRounds(s, env, grace, n - 1), env(n - 1), grace)
  }

  // ----- the measure

  /** Rounds within which a pipeline, once started, is certainly collected, plus one to start it. */
  function Allowance(p: Pipeline, grace: nat, d: nat): nat
    requires d > 0
  {
    (p.timeout + grace) / d + 2
  }

  function Bound(pending: seq<Pipeline>, grace: nat, d: nat): nat
    requires d > 0
  {
    if pending == [] then 0
    else Bound(pending[..|pending| - 1], grace, d) + Allowance(pending[|pending| - 1], grace, d)
  }

  function Deadline(job: Job, grace: nat): int {
    job.start + job.pipeline.timeout + grace
  }

  function Latest(a: int, b: int): int {
    if a < b then b else a
  }

  /** Rounds a running job can still last when the next round starts at `clock`. */
  function Remaining(job: Job, clock: int, grace: nat, d: nat): (r: nat)
    requires d > 0
    ensures r >= 1
  {
    var left := Deadline(job, grace) - Latest(clock, job.start);
    if left < 0 then 1 else left / d + 2
  }

  function TotalRemaining(running: seq<Job>, clock: int, grace: nat, d: nat): nat
    requires d > 0
  {
    if running == [] then 0
    else TotalRemaining(running[..|running| - 1], clock, grace, d) + Remaining(running[|running| - 1], clock, grace, d)
  }

  function Measure(s: Sched, clock: int, grace: nat, d: nat): nat
    requires d > 0
  {
    Bound(s.pending, grace, d) + TotalRemaining(s.running, clock, grace, d)
  }

  lemma {:induction false} BoundSplit(a: seq<Pipeline>, b: seq<Pipeline>, grace: nat, d: nat)
    requires d > 0
    ensures Bound(a + b, grace, d) == Bound(a, grace, d) + Bound(b, grace, d)
  {
    if b == [] {
      assert a + b == a;
    } else {
      BoundSplit(a, b[..|b| - 1], grace, d);
      assert (a + b)[..|a + b| - 1] == a + b[..|b| - 1];
    }
  }

  lemma BoundRemove(pending: seq<Pipeline>, k: nat, grace: nat, d: nat)
    requires d > 0 && k < |pending|
    ensures Bound(pending, grace, d)
            == Bound(pending[..k] + pending[k + 1..], grace, d) + Allowance(pending[k], grace, d)
  {
    assert pending == pending[..k + 1] + pending[k + 1..];
    assert pending[..k + 1][..k] == pending[..k];
    BoundSplit(pending[..k + 1], pending[k + 1..], grace, d);
    BoundSplit(pending[..k], pending[k + 1..], grace, d);
  }

  lemma DivideLess(x: nat, y: nat, d: nat)
    requires d > 0 && x + d <= y
    ensures x / d + 1 <= y / d
  {
    if y / d <= x / d {
      MultiplyMonotone(y / d, x / d, d);
    }
  }

  /** Scheduling does not raise the measure: a start trades an allowance for running time. */
  lemma ScheduleCost(s: Sched, clock: int, grace: nat, d: nat)
    requires d > 0
    ensures Measure(Scheduled(s, clock), clock, grace, d) == Measure(s, clock, grace, d)
  {
    var t := Scheduled(s, clock);
    var k := FirstFit(s.pending, |s.pool.available|);
    if k < |s.pending| {
      BoundRemove(s.pending, k, grace, d);
      assert t.running[..|t.running| - 1] == s.running;
      assert Remaining(t.running[|t.running| - 1], clock, grace, d) == Allowance(s.pending[k], grace, d);
    }
  }

  /** A job that survives a poll has one round less to go. */
  lemma SurvivorCloser(job: Job, seen: Observation, clock: int, next: int, grace: nat, d: nat)
    requires d > 0 && clock <= seen.now && job.start <= seen.now && seen.now + d <= next
    requires Verdict(job, seen, grace).None?
    ensures Remaining(job, next, grace, d) + 1 <= Remaining(job, clock, grace, d)
  {
    var before := Deadline(job, grace) - Latest(clock, job.start);
    var after := Deadline(job, grace) - Latest(next, job.start);
    assert before >= 0;
    if after >= 0 {
      DivideLess(after, before, d);
    }
  }

  /** Collecting lowers the measure by at least one for every job that was running. */
  lemma {:induction false} CollectCost(running: seq<Job>, seen: nat -> Observation, clock: int, next: int,
                                       grace: nat, d: nat)
    requires d > 0
    requires forall i :: 0 <= i < |running| ==>
                           clock <= seen(running[i].id).now && running[i].start <= seen(running[i].id).now
                           && seen(running[i].id).now + d <= next
    ensures TotalRemaining(Kept(running, seen, grace), next, grace, d) + |running|
            <= TotalRemaining(running, clock, grace, d)
  {
    if running != [] {
      var front, job := running[..|running| - 1], running[|running| - 1];
      CollectCost(front, seen, clock, next, grace, d);
      if Verdict(job, seen(job.id), grace).None? {
        SurvivorCloser(job, seen(job.id), clock, next, grace, d);
        var kept := Kept(running, seen, grace);
        assert kept[..|kept| - 1] == Kept(front, seen, grace);
      }
    }
  }

  ghost predicate StartedBy(running: seq<Job>, clock: int) {
    forall i :: 0 <= i < |running| ==> running[i].start <= clock
  }

  lemma {:induction false} KeptStarted(running: seq<Job>, seen: nat -> Observation, grace: nat, clock: int)
    requires StartedBy(running, clock)
    ensures StartedBy(Kept(running, seen, grace), clock)
  {
    if running != [] {
      KeptStarted(running[..|running| - 1], seen, grace, clock);
    }
  }

  /** One round of the loop: the measure falls, and everything safety needs is kept. */
  lemma RoundProgress(ids: seq<int>, inputs: seq<Pipeline>, s: Sched, env: nat -> Round, k: nat, grace: nat, d: nat)
    requires d > 0 && GoodClock(env, d) && SchedInv(ids, inputs, s)
    requires StartedBy(s.running, env(k).start) && !Finished(s)
    ensures SchedInv(ids, inputs, Step(s, env(k), grace))
    ensures StartedBy(Step(s, env(k), grace).running, env(k + 1).start)
    ensures Measure(Step(s, env(k), grace), env(k + 1).start, grace, d) < Measure(s, env(k).start, grace, d)
  {
    var r := env(k);
    var t := Scheduled(s, r.start);
    ScheduledKeeps(ids, inputs, s, r.start);
    CollectedKeeps(ids, inputs, t, r.seen, grace);
    SomethingRuns(ids, inputs, s, r.start);
    assert Ticks(env, d, k);
    RoundCost(s, env, k, grace, d);
  }

  lemma SomethingRuns(ids: seq<int>, inputs: seq<Pipeline>, s: Sched, now: int)
    requires SchedInv(ids, inputs, s) && !Finished(s)
    ensures |Scheduled(s, now).running| >= 1
  {
    if s.running == [] {
      NeverStuck(ids, inputs, s, now);
    }
  }

  lemma RoundCost(s: Sched, env: nat -> Round, k: nat, grace: nat, d: nat)
    requires d > 0 && Ticks(env, d, k)
    requires StartedBy(s.running, env(k).start) && |Scheduled(s, env(k).start).running| >= 1
    ensures StartedBy(Step(s, env(k), grace).running, env(k + 1).start)
    ensures Measure(Step(s, env(k), grace), env(k + 1).start, grace, d) < Measure(s, env(k).start, grace, d)
  {
    var r := env(k);
    var t := Scheduled(s, r.start);
    assert StartedBy(t.running, r.start);
    ScheduleCost(s, r.start, grace, d);
    CollectCost(t.running, r.seen, r.start, env(k + 1).start, grace, d);
    KeptStarted(t.running, r.seen, grace, r.start);
  }

  // ----- whole runs

  /** On time: what is left of the measure and the rounds spent stay within `most`. */
  ghost predicate OnTime(t: Sched, clock: int, grace: nat, d: nat, spent: nat, most: nat)
    requires d > 0
  {
    Finished(t) || (StartedBy(t.running, clock) && Measure(t, clock, grace, d) + spent <= most)
  }

  lemma StartsOnTime(s: Sched, clock: int, grace: nat, d: nat)
    requires d > 0 && s.running == []
    ensures OnTime(s, clock, grace, d, 0, Bound(s.pending, grace, d))
  {
  }

  lemma StaysOnTime(ids: seq<int>, inputs: seq<Pipeline>, t: Sched, env: nat -> Round, k: nat, grace: nat, d: nat,
                    most: nat)
    requires d > 0 && GoodClock(env, d) && SchedInv(ids, inputs, t)
    requires OnTime(t, env(k).start, grace, d, k, most)
    ensures SchedInv(ids, inputs, Next(t, env(k), grace))
    ensures OnTime(Next(t, env(k), grace), env(k + 1).start, grace, d, k + 1, most)
  {
    if !Finished(t) {
      RoundProgress(ids, inputs, t, env, k, grace, d);
    }
  }

  /** Induction over rounds. */
  lemma {:induction false} RoundsInduct(s: Sched, env: nat -> Round, grace: nat, n: nat, keeps: (Sched, nat) -> bool)
    requires keeps(s, 0)
    requires forall t: Sched, k: nat :: keeps(t, k) ==> keeps(Next(t, env(k), grace), k + 1)
    ensures keeps(AfterRounds(s, env, grace, n), n)
  {
    if n > 0 {
      RoundsInduct(s, env, grace, n - 1, keeps);
      assert keeps(AfterRounds(s, env, grace, n - 1), n - 1);
    }
  }

  /** From a state with nothing running yet, `n` rounds keep everything, on time. */
  lemma RoundsKeepFrom(ids: seq<int>, inputs: seq<Pipeline>, s: Sched, env: nat -> Round, grace: nat, d: nat, n: nat)
    requires d > 0 && GoodClock(env, d) && SchedInv(ids, inputs, s) && s.running == []
    ensures SchedInv(ids, inputs, AfterRounds(s, env, grace, n))
    ensures OnTime(AfterRounds(s, env, grace, n), env(n).start, grace, d, n, Bound(s.pending, grace, d))
  {
    var most := Bound(s.pending, grace, d);
    var keeps := (t: Sched, k: nat) => SchedInv(ids, inputs, t) && OnTime(t, env(k).start, grace, d, k, most);
    StartsOnTime(s, env(0).start, grace, d);
    forall t: Sched, k: nat | keeps(t, k) ensures keeps(Next(t, env(k), grace), k + 1) {
      StaysOnTime(ids, inputs, t, env, k, grace, d, most);
    }
    RoundsInduct(s, env, grace, n, keeps);
    assert keeps(AfterRounds(s, env, grace, n), n);
  }

  lemma RoundsKeep(ids: seq<int>, inputs: seq<Pipeline>, env: nat -> Round, grace: nat, d: nat, n: nat)
    requires d > 0 && GoodClock(env, d)
    ensures
      var s := NewScheduler(NewPool(ids), inputs);
      var t := AfterRounds(s, env, grace, n);
      && SchedInv(ids, inputs, t)
      && OnTime(t, env(n).start, grace, d, n, Bound(s.pending, grace, d))
  {
    NewSchedulerOk(ids, inputs);
    RoundsKeepFrom(ids, inputs, NewScheduler(NewPool(ids), inputs), env, grace, d, n);
  }

  /** Termination: whatever the children do, the loop is over within the sum of the allowances. */
  lemma TerminatesWithinBound(ids: seq<int>, inputs: seq<Pipeline>, env: nat -> Round, grace: nat, d: nat, n: nat)
    requires d > 0 && GoodClock(env, d)
    requires n >= Bound(NewScheduler(NewPool(ids), inputs).pending, grace, d)
    ensures Finished(AfterRounds(NewScheduler(NewPool(ids), inputs), env, grace, n))
  {
    RoundsKeep(ids, inputs, env, grace, d, n);
    var t := AfterRounds(NewScheduler(NewPool(ids), inputs), env, grace, n);
    if !Finished(t) {
      UnfinishedMeasure(t, env(n).start, grace, d);
    }
  }

  lemma UnfinishedMeasure(s: Sched, clock: int, grace: nat, d: nat)
    requires d > 0 && !Finished(s)
    ensures Measure(s, clock, grace, d) > 0
  {
  }

  /** Safety of whole runs, whatever the clock shows. */
  lemma RunsStaySafe(ids: seq<int>, inputs: seq<Pipeline>, env: nat -> Round, grace: nat, n: nat)
    ensures SchedInv(ids, inputs, AfterRounds(NewScheduler(NewPool(ids), inputs), env, grace, n))
  {
    var s := NewScheduler(NewPool(ids), inputs);
    var keeps := (t: Sched, k: nat) => SchedInv(ids, inputs, t);
    NewSchedulerOk(ids, inputs);
    forall t: Sched, k: nat | keeps(t, k) ensures keeps(Next(t, env(k), grace), k + 1) {
      RoundIsSafe(ids, inputs, t, env(k), grace);
    }
    RoundsInduct(s, env, grace, n, keeps);
    assert keeps(AfterRounds(s, env, grace, n), n);
  }

  lemma RoundIsSafe(ids: seq<int>, inputs: seq<Pipeline>, s: Sched, r: Round, grace: nat)
    requires SchedInv(ids, inputs, s)
    ensures SchedInv(ids, inputs, Next(s, r, grace))
  {
    ScheduledKeeps(ids, inputs, s, r.start);
    CollectedKeeps(ids, inputs, Scheduled(s, r.start), r.seen, grace);
  }

  /** Exactly once: in every state of every run each input name is in exactly one of results,
      running and pending, and at the end it has exactly one result. */
  lemma ExactlyOnce(ids: seq<int>, inputs: seq<Pipeline>, env: nat -> Round, grace: nat, n: nat)
    requires NoDuplicates(PipelineNames(inputs))
    ensures
      var t := AfterRounds(NewScheduler(NewPool(ids), inputs), env, grace, n);
      && (forall name :: AllNames(t)[name] == if name in PipelineNames(inputs) then 1 else 0)
      && (Finished(t) ==> multiset(ResultNames(t.results)) == multiset(PipelineNames(inputs)))
  {
    RunsStaySafe(ids, inputs, env, grace, n);
    var t := AfterRounds(NewScheduler(NewPool(ids), inputs), env, grace, n);
    forall name ensures AllNames(t)[name] == if name in PipelineNames(inputs) then 1 else 0 {
      CountOnce(PipelineNames(inputs), name);
    }
    if Finished(t) {
      assert JobNames(t.running) == [] && PipelineNames(t.pending) == [];
    }
  }

  lemma {:induction false} CountOnce(names: seq<string>, name: string)
    requires NoDuplicates(names)
    ensures multiset(names)[name] == if name in names then 1 else 0
  {
    if names != [] {
      assert names == [names[0]] + names[1..];
      CountOnce(names[1..], name);
      if name == names[0] {
        assert name !in names[1..];
      }
    }
  }

  /** GPU safety of whole runs: in every state free and held ids together are the initial ids and the
      running jobs are exactly the leases; with distinct ids the running jobs hold disjoint GPUs of the
      pool, disjoint from the free ones; and when the run is over every GPU is free again. */
  lemma RunsConserveGpus(ids: seq<int>, inputs: seq<Pipeline>, env: nat -> Round, grace: nat, n: nat)
    ensures
      var t := AfterRounds(NewScheduler(NewPool(ids), inputs), env, grace, n);
      && multiset(t.pool.available) + HeldByJobs(t.running) == multiset(ids)
      && JobsMatchLeases(t.running, t.pool) && Ascending(t.pool.available)
      && (NoDuplicates(ids) ==> GpusApart(ids, t))
      && (Finished(t) ==> t.pool.available == Sort(ids))
  {
    RunsStaySafe(ids, inputs, env, grace, n);
    KeptConserved(ids, inputs, AfterRounds(NewScheduler(NewPool(ids), inputs), env, grace, n));
  }

  ghost predicate GpusApart(ids: seq<int>, t: Sched) {
    && (forall i, j, g :: 0 <= i < j < |t.running| && g in t.running[i].gpus ==> g !in t.running[j].gpus)
    && (forall i, g :: 0 <= i < |t.running| && g in t.running[i].gpus ==> g in ids && g !in t.pool.available)
    && (forall i :: 0 <= i < |t.running| ==> |t.running[i].gpus| == t.running[i].pipeline.gpuCount)
  }

  lemma KeptConserved(ids: seq<int>, inputs: seq<Pipeline>, t: Sched)
    requires SchedInv(ids, inputs, t)
    ensures multiset(t.pool.available) + HeldByJobs(t.running) == multiset(ids)
    ensures JobsMatchLeases(t.running, t.pool) && Ascending(t.pool.available)
    ensures NoDuplicates(ids) ==> GpusApart(ids, t)
    ensures Finished(t) ==> t.pool.available == Sort(ids)
  {
    HeldByLeases(t.running, t.pool, t.pool.nextJobId);
    if NoDuplicates(ids) {
      KeptApart(ids, t.running, t.pool);
    }
    if Finished(t) {
      AllFree(ids, t.pool);
    }
  }

  /** The ids that the running jobs hold, with multiplicity. */
  ghost function HeldByJobs(running: seq<Job>): multiset<int> {
    if running == [] then multiset{}
    else HeldByJobs(running[..|running| - 1]) + multiset(running[|running| - 1].gpus)
  }

  /** Jobs numbered below `n`, in the order of their ids, hold what the leases below `n` hold. */
  lemma {:induction false} HeldByLeases(running: seq<Job>, pool: Pool, n: nat)
    requires IdsIncrease(running) && (forall i :: 0 <= i < |running| ==> HoldsLease(running[i], pool))
    requires forall id :: id in JobIds(running) <==> id in pool.leases && id < n
    ensures HeldByJobs(running) == HeldIds(pool.leases, n)
  {
    forall i | 0 <= i < |running| ensures running[i].id in JobIds(running) {
      IdAmong(running, i);
    }
    if n == 0 {
      assert JobIds(running) == {};
      NoJobs(running);
    } else if n - 1 in pool.leases {
      LastJob(running, n - 1);
      var front := running[..|running| - 1];
      IdsBelow(front, n - 1);
      HeldByLeases(front, pool, n - 1);
      assert HoldsLease(running[|running| - 1], pool);
    } else {
      HeldByLeases(running, pool, n - 1);
    }
  }

  lemma NoJobs(running: seq<Job>)
    requires JobIds(running) == {}
    ensures running == []
  {
  }

  /** The largest id belongs to the last job. */
  lemma LastJob(running: seq<Job>, id: nat)
    requires IdsIncrease(running) && id in JobIds(running) && (forall k :: k in JobIds(running) ==> k <= id)
    ensures running != [] && running[|running| - 1].id == id
  {
    var last := running[|running| - 1];
    IdAmong(running, |running| - 1);
    IdsBelow(running[..|running| - 1], last.id);
  }

  lemma KeptApart(ids: seq<int>, running: seq<Job>, pool: Pool)
    requires NoDuplicates(ids) && PoolInv(ids, pool) && JobsMatchLeases(running, pool)
    ensures forall i, j, g :: 0 <= i < j < |running| && g in running[i].gpus ==> g !in running[j].gpus
    ensures forall i, g :: 0 <= i < |running| && g in running[i].gpus ==> g in ids && g !in pool.available
    ensures forall i :: 0 <= i < |running| ==> |running[i].gpus| == running[i].pipeline.gpuCount
  {
    JobsDisjoint(ids, running, pool);
    forall i | 0 <= i < |running| ensures |running[i].gpus| == running[i].pipeline.gpuCount {
      assert HoldsLease(running[i], pool);
    }
  }

  lemma AllFree(ids: seq<int>, pool: Pool)
    requires PoolInv(ids, pool) && JobsMatchLeases([], pool)
    ensures pool.available == Sort(ids)
  {
    NothingHeld(pool.leases, pool.nextJobId);
    SortSorts(ids);
    SortedUnique(pool.available, Sort(ids));
  }

  lemma JobsDisjoint(ids: seq<int>, running: seq<Job>, pool: Pool)
    requires NoDuplicates(ids) && PoolInv(ids, pool) && JobsMatchLeases(running, pool)
    ensures forall i, j, g :: 0 <= i < j < |running| && g in running[i].gpus ==> g !in running[j].gpus
    ensures forall i, g :: 0 <= i < |running| && g in running[i].gpus ==> g in ids && g !in pool.available
  {
    forall i, g | 0 <= i < |running| && g in running[i].gpus
      ensures g in ids && g !in pool.available
    {
      NoSharing(ids, pool, running[i].id, running[i].id, g);
    }
    forall i, j, g | 0 <= i < j < |running| && g in running[i].gpus
      ensures g !in running[j].gpus
    {
      NoSharing(ids, pool, running[i].id, running[j].id, g);
    }
  }

  lemma FinishedNames(ids: seq<int>, inputs: seq<Pipeline>, env: nat -> Round, grace: nat, n: nat)
    requires Finished(AfterRounds(NewScheduler(NewPool(ids), inputs), env, grace, n))
    ensures multiset(ResultNames(AfterRounds(NewScheduler(NewPool(ids), inputs), env, grace, n).results))
            == multiset(PipelineNames(inputs))
  {
    RunsStaySafe(ids, inputs, env, grace, n);
    var t := AfterRounds(NewScheduler(NewPool(ids), inputs), env, grace, n);
    assert JobNames(t.running) == [] && PipelineNames(t.pending) == [];
  }

  method RunRound(scheduler: PipelineScheduler, r: Round, grace: nat)
    modifies scheduler, scheduler.pool
    ensures scheduler.View() == Step(old(scheduler.View()), r, grace)
  {
    var started := scheduler.ScheduleNext(r.start);
    var ended := scheduler.CollectFinished(r.seen, grace);
  }

  /** The loop itself, on the scheduler object. */
  method RunAll(ids: seq<int>, inputs: seq<Pipeline>, env: nat -> Round, grace: nat, ghost d: nat)
    returns (results: seq<Result>, rounds: nat)
    requires d > 0 && GoodClock(env, d)
    ensures rounds <= Bound(NewScheduler(NewPool(ids), inputs).pending, grace, d)
    ensures results == AfterRounds(NewScheduler(NewPool(ids), inputs), env, grace, rounds).results
    ensures multiset(ResultNames(results)) == multiset(PipelineNames(inputs))
  {
    var pool := new GPUPool(ids);
    var scheduler := new PipelineScheduler(pool, inputs);
    ghost var most := Bound(scheduler.pending, grace, d);
    TerminatesWithinBound(ids, inputs, env, grace, d, most);
    rounds := RunLoop(scheduler, env, grace, most);
    results := scheduler.results;
    FinishedNames(ids, inputs, env, grace, rounds);
  }

  /** The loop, given a number of rounds within which it is over. */
  method RunLoop(scheduler: PipelineScheduler, env: nat -> Round, grace: nat, ghost most: nat)
    returns (rounds: nat)
    requires Finished(AfterRounds(scheduler.View(), env, grace, most))
    modifies scheduler, scheduler.pool
    ensures scheduler.View() == AfterRounds(old(scheduler.View()), env, grace, rounds)
    ensures Finished(scheduler.View())
    ensures rounds <= most
  {
    rounds := 0;
    ghost var s0 := scheduler.View();
    ghost var s := s0;
    while scheduler.pending != [] || scheduler.running != []
      invariant s == scheduler.View() && AtRound(s0, env, grace, rounds, s)
      invariant rounds <= most
      decreases most - rounds
    {
      NotYet(s0, env, grace, rounds, s, most);
      ghost var before := s;
      RunRound(scheduler, env(rounds), grace);
      s := scheduler.View();
      OneMoreRound(s0, env, grace, rounds, before, s);
      rounds := rounds + 1;
    }
  }

  ghost predicate AtRound(s: Sched, env: nat -> Round, grace: nat, n: nat, t: Sched) {
    t == AfterRounds(s, env, grace, n)
  }

  /** An unfinished state is short of a round at which the loop is over. */
  lemma NotYet(s: Sched, env: nat -> Round, grace: nat, n: nat, t: Sched, most: nat)
    requires AtRound(s, env, grace, n, t) && !Finished(t)
    requires n <= most && Finished(AfterRounds(s, env, grace, most))
    ensures n < most
  {
    assert n != most;
  }

  lemma OneMoreRound(s: Sched, env: nat -> Round, grace: nat, n: nat, t: Sched, next: Sched)
    requires AtRound(s, env, grace, n, t) && !Finished(t) && next == Step(t, env(n), grace)
    ensures AtRound(s, env, grace, n + 1, next)
  {
  }
}
