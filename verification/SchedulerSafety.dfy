/** What the scheduler keeps over whole runs: GPUs, names, and the order of pending work. */
module SchedulerSafety {
  import opened Common
  import opened GpuPool
  import opened Scheduler

  // ----- the order of pending work

  /** `p` stands before `q` in the configuration. */
  ghost predicate EarlierIn(inputs: seq<Pipeline>, p: Pipeline, q: Pipeline) {
    exists i, j :: 0 <= i < j < |inputs| && inputs[i] == p && inputs[j] == q
  }

  /** Larger demand first; equal demand in configuration order. */
  ghost predicate Precedes(inputs: seq<Pipeline>, p: Pipeline, q: Pipeline) {
    p.gpuCount > q.gpuCount || (p.gpuCount == q.gpuCount && EarlierIn(inputs, p, q))
  }

  ghost predicate QueueOrder(inputs: seq<Pipeline>, pending: seq<Pipeline>) {
    forall i, j :: 0 <= i < j < |pending| ==> Precedes(inputs, pending[i], pending[j])
  }

  lemma {:induction false} InsertPlace(p: Pipeline, s: seq<Pipeline>) returns (k: nat)
    ensures k <= |s| && InsertDescending(p, s) == s[..k] + [p] + s[k..]
    ensures forall i :: 0 <= i < k ==> s[i].gpuCount > p.gpuCount
    ensures k < |s| ==> s[k].gpuCount <= p.gpuCount
  {
    if s == [] || p.gpuCount >= s[0].gpuCount {
      k := 0;
      assert s == s[..0] + s[0..];
    } else {
      k := InsertPlace(p, s[1..]);
      k := k + 1;
      assert s[..k] == [s[0]] + s[1..][..k - 1] && s[k..] == s[1..][k - 1..];
    }
  }

  lemma EarlierShift(p: Pipeline, rest: seq<Pipeline>, a: Pipeline, b: Pipeline)
    ensures EarlierIn(rest, a, b) ==> EarlierIn([p] + rest, a, b)
    ensures b in rest ==> EarlierIn([p] + rest, p, b)
  {
    var all := [p] + rest;
    if EarlierIn(rest, a, b) {
      var i, j :| 0 <= i < j < |rest| && rest[i] == a && rest[j] == b;
      assert all[i + 1] == a && all[j + 1] == b;
    }
    if b in rest {
      var j :| 0 <= j < |rest| && rest[j] == b;
      assert all[0] == p && all[j + 1] == b;
    }
  }

  lemma {:induction false} SortKeepsBag(s: seq<Pipeline>)
    ensures multiset(SortDescending(s)) == multiset(s)
  {
    if s != [] {
      SortKeepsBag(s[1..]);
      var sorted := SortDescending(s[1..]);
      var k := InsertPlace(s[0], sorted);
      assert sorted == sorted[..k] + sorted[k..];
      assert s == [s[0]] + s[1..];
    }
  }

  /** Python's sort with `reverse=True` keeps equal elements in their original order. */
  lemma {:induction false} SortIsStable(s: seq<Pipeline>)
    ensures QueueOrder(s, SortDescending(s))
  {
    if s != [] {
      var rest := s[1..];
      SortIsStable(rest);
      SortKeepsBag(rest);
      var sorted := SortDescending(rest);
      var k := InsertPlace(s[0], sorted);
      forall i | 0 <= i < |sorted| ensures sorted[i] in rest {
        assert sorted[i] in multiset(rest);
      }
      InsertOrdered(s[0], rest, sorted, k);
      assert s == [s[0]] + rest;
    }
  }

  lemma InsertOrdered(p: Pipeline, rest: seq<Pipeline>, sorted: seq<Pipeline>, k: nat)
    requires QueueOrder(rest, sorted) && k <= |sorted|
    requires forall i :: 0 <= i < |sorted| ==> sorted[i] in rest
    requires forall i :: 0 <= i < k ==> sorted[i].gpuCount > p.gpuCount
    requires k < |sorted| ==> sorted[k].gpuCount <= p.gpuCount
    ensures QueueOrder([p] + rest, sorted[..k] + [p] + sorted[k..])
  {
    var placed := sorted[..k] + [p] + sorted[k..];
    forall i, j | 0 <= i < j < |placed| ensures Precedes([p] + rest, placed[i], placed[j]) {
      EarlierShift(p, rest, placed[i], placed[j]);
      if i == k {
        assert placed[j] == sorted[j - 1];
        assert k < j - 1 ==> Precedes(rest, sorted[k], sorted[j - 1]);
      } else if j == k {
        assert placed[i] == sorted[i];
      } else {
        var a := if i < k then i else i - 1;
        var b := if j < k then j else j - 1;
        assert placed[i] == sorted[a] && placed[j] == sorted[b];
        assert Precedes(rest, sorted[a], sorted[b]);
      }
    }
  }

  lemma RemoveKeepsOrder(inputs: seq<Pipeline>, pending: seq<Pipeline>, k: nat)
    requires QueueOrder(inputs, pending) && k < |pending|
    ensures QueueOrder(inputs, pending[..k] + pending[k + 1..])
  {
    var left := pending[..k] + pending[k + 1..];
    forall i, j | 0 <= i < j < |left| ensures Precedes(inputs, left[i], left[j]) {
      var a := if i < k then i else i + 1;
      var b := if j < k then j else j + 1;
      assert left[i] == pending[a] && left[j] == pending[b];
    }
  }

  // ----- names

  function PipelineNames(s: seq<Pipeline>): seq<string> {
    seq(|s|, i requires 0 <= i < |s| => s[i].name)
  }

  function JobNames(s: seq<Job>): seq<string> {
    seq(|s|, i requires 0 <= i < |s| => s[i].pipeline.name)
  }

  function ResultNames(s: seq<Result>): seq<string> {
    seq(|s|, i requires 0 <= i < |s| => s[i].name)
  }

  /** Every name the scheduler has anywhere, with multiplicity. */
  ghost function AllNames(s: Sched): multiset<string> {
    multiset(ResultNames(s.results)) + multiset(JobNames(s.running)) + multiset(PipelineNames(s.pending))
  }

  lemma {:induction false} FilterNames(inputs: seq<Pipeline>, total: nat)
    ensures multiset(ResultNames(Skipped(inputs, total))) + multiset(PipelineNames(Fitting(inputs, total)))
            == multiset(PipelineNames(inputs))
    ensures forall p :: p in Fitting(inputs, total) ==> p in inputs && p.gpuCount <= total
    ensures forall r :: r in Skipped(inputs, total) ==> r.status == "SKIP"
  {
    if inputs != [] {
      var front, last := inputs[..|inputs| - 1], inputs[|inputs| - 1];
      FilterNames(front, total);
      assert PipelineNames(inputs) == PipelineNames(front) + [last.name];
      if last.gpuCount > total {
        assert ResultNames(Skipped(inputs, total)) == ResultNames(Skipped(front, total)) + [last.name];
      } else {
        assert PipelineNames(Fitting(inputs, total)) == PipelineNames(Fitting(front, total)) + [last.name];
      }
    }
  }

  lemma InsertAddsName(p: Pipeline, s: seq<Pipeline>)
    ensures multiset(PipelineNames(InsertDescending(p, s))) == multiset(PipelineNames(s)) + multiset{p.name}
  {
    var k := InsertPlace(p, s);
    var placed := s[..k] + [p] + s[k..];
    assert placed[..k] + placed[k + 1..] == s;
    RemoveNames(placed, k);
  }

  lemma {:induction false} SortKeepsNames(s: seq<Pipeline>)
    ensures multiset(PipelineNames(SortDescending(s))) == multiset(PipelineNames(s))
  {
    if s != [] {
      SortKeepsNames(s[1..]);
      InsertAddsName(s[0], SortDescending(s[1..]));
      FirstName(s);
    }
  }

  lemma FirstName(s: seq<Pipeline>)
    requires s != []
    ensures multiset(PipelineNames(s)) == multiset(PipelineNames(s[1..])) + multiset{s[0].name}
  {
    assert PipelineNames(s) == [s[0].name] + PipelineNames(s[1..]);
  }

  lemma RemoveNames(s: seq<Pipeline>, k: nat)
    requires k < |s|
    ensures multiset(PipelineNames(s)) == multiset(PipelineNames(s[..k] + s[k + 1..])) + multiset{s[k].name}
  {
    var names := PipelineNames(s);
    assert names == names[..k] + [s[k].name] + names[k + 1..];
    assert PipelineNames(s[..k] + s[k + 1..]) == names[..k] + names[k + 1..];
  }

  lemma {:induction false} CollectNames(running: seq<Job>, seen: nat -> Observation, grace: nat)
    ensures multiset(JobNames(running))
            == multiset(JobNames(Kept(running, seen, grace))) + multiset(ResultNames(Ended(running, seen, grace)))
  {
    if running != [] {
      var front, job := running[..|running| - 1], running[|running| - 1];
      CollectNames(front, seen, grace);
      assert JobNames(running) == JobNames(front) + [job.pipeline.name];
      if Verdict(job, seen(job.id), grace).None? {
        assert JobNames(Kept(running, seen, grace)) == JobNames(Kept(front, seen, grace)) + [job.pipeline.name];
      } else {
        assert ResultNames(Ended(running, seen, grace)) == ResultNames(Ended(front, seen, grace)) + [job.pipeline.name];
      }
    }
  }

  // ----- the invariant

  function JobIds(running: seq<Job>): set<nat> {
    if running == [] then {} else JobIds(running[..|running| - 1]) + {running[|running| - 1].id}
  }

  ghost predicate IdsIncrease(running: seq<Job>) {
    forall i, j :: 0 <= i < j < |running| ==> running[i].id < running[j].id
  }

  /** A job holds the lease of its id, with as many GPUs as its pipeline asks for. */
  ghost predicate HoldsLease(job: Job, pool: Pool) {
    job.id in pool.leases && pool.leases[job.id] == job.gpus && |job.gpus| == job.pipeline.gpuCount
  }

  /** Running jobs are exactly the pool's leases, in the order their ids were given. */
  ghost predicate JobsMatchLeases(running: seq<Job>, pool: Pool) {
    && JobIds(running) == pool.leases.Keys
    && IdsIncrease(running)
    && (forall i :: 0 <= i < |running| ==> HoldsLease(running[i], pool))
  }

  ghost predicate SchedInv(ids: seq<int>, inputs: seq<Pipeline>, s: Sched) {
    && PoolInv(ids, s.pool)
    && JobsMatchLeases(s.running, s.pool)
    && AllNames(s) == multiset(PipelineNames(inputs))
    && QueueOrder(inputs, s.pending)
    && (forall i :: 0 <= i < |s.pending| ==> s.pending[i].gpuCount <= |ids|)
  }

  lemma NewSchedulerOk(ids: seq<int>, inputs: seq<Pipeline>)
    ensures SchedInv(ids, inputs, NewScheduler(NewPool(ids), inputs))
  {
    NewPoolOk(ids);
    var fitting := Fitting(inputs, |ids|);
    FilterNames(inputs, |ids|);
    SortIsStable(fitting);
    SortKeepsBag(fitting);
    SortKeepsNames(fitting);
    var s := NewScheduler(NewPool(ids), inputs);
    FittingOrder(inputs, |ids|, SortDescending(fitting));
    forall i | 0 <= i < |s.pending| ensures s.pending[i].gpuCount <= |ids| {
      assert s.pending[i] in multiset(fitting);
    }
  }

  lemma FittingOrder(inputs: seq<Pipeline>, total: nat, pending: seq<Pipeline>)
    requires QueueOrder(Fitting(inputs, total), pending)
    ensures QueueOrder(inputs, pending)
  {
    forall i, j | 0 <= i < j < |pending| ensures Precedes(inputs, pending[i], pending[j]) {
      assert Precedes(Fitting(inputs, total), pending[i], pending[j]);
      FittingEarlier(inputs, total, pending[i], pending[j]);
    }
  }

  lemma {:induction false} FittingEarlier(inputs: seq<Pipeline>, total: nat, p: Pipeline, q: Pipeline)
    ensures EarlierIn(Fitting(inputs, total), p, q) ==> EarlierIn(inputs, p, q)
  {
    if EarlierIn(Fitting(inputs, total), p, q) {
      var fitting := Fitting(inputs, total);
      var front := inputs[..|inputs| - 1];
      var i, j :| 0 <= i < j < |fitting| && fitting[i] == p && fitting[j] == q;
      FittingEarlier(front, total, p, q);
      var inner := Fitting(front, total);
      if j < |inner| {
        assert inner[i] == p && inner[j] == q;
        var a, b :| 0 <= a < b < |front| && front[a] == p && front[b] == q;
        assert inputs[a] == p && inputs[b] == q;
      } else {
        assert inner[i] == p && q == inputs[|inputs| - 1];
        FilterNames(front, total);
        assert p in front;
        var a :| 0 <= a < |front| && front[a] == p;
        assert inputs[a] == p && inputs[|inputs| - 1] == q;
      }
    }
  }

  lemma ScheduledNames(s: Sched, now: int)
    ensures AllNames(Scheduled(s, now)) == AllNames(s)
  {
    var t := Scheduled(s, now);
    var k := FirstFit(s.pending, |s.pool.available|);
    if k < |s.pending| {
      RemoveNames(s.pending, k);
      assert JobNames(t.running) == JobNames(s.running) + [s.pending[k].name];
    }
  }

  lemma ScheduledQueue(inputs: seq<Pipeline>, s: Sched, now: int, most: nat)
    requires QueueOrder(inputs, s.pending)
    requires forall i :: 0 <= i < |s.pending| ==> s.pending[i].gpuCount <= most
    ensures QueueOrder(inputs, Scheduled(s, now).pending)
    ensures forall i :: 0 <= i < |Scheduled(s, now).pending| ==> Scheduled(s, now).pending[i].gpuCount <= most
  {
    var k := FirstFit(s.pending, |s.pool.available|);
    if k < |s.pending| {
      RemoveKeepsOrder(inputs, s.pending, k);
    }
  }

  lemma ScheduledKeeps(ids: seq<int>, inputs: seq<Pipeline>, s: Sched, now: int)
    requires SchedInv(ids, inputs, s)
    ensures SchedInv(ids, inputs, Scheduled(s, now))
  {
    ScheduledNames(s, now);
    ScheduledQueue(inputs, s, now, |ids|);
    StartedMatches(s, now);
    ScheduledPool(ids, s, now);
  }

  lemma ScheduledPool(ids: seq<int>, s: Sched, now: int)
    requires PoolInv(ids, s.pool)
    ensures PoolInv(ids, Scheduled(s, now).pool)
  {
    var k := FirstFit(s.pending, |s.pool.available|);
    if k < |s.pending| {
      AllocateConserves(ids, s.pool, s.pending[k].gpuCount);
    }
  }

  lemma StartedMatches(s: Sched, now: int)
    requires JobsMatchLeases(s.running, s.pool) && (forall j :: j in s.pool.leases ==> j < s.pool.nextJobId)
    ensures JobsMatchLeases(Scheduled(s, now).running, Scheduled(s, now).pool)
  {
    var t := Scheduled(s, now);
    if |t.running| > |s.running| {
      JobAdded(s.running, t.running[|s.running|], s.pool, t.pool);
    }
  }

  /** A new job with a fresh lease keeps jobs and leases in step. */
  lemma JobAdded(running: seq<Job>, job: Job, pool: Pool, after: Pool)
    requires JobsMatchLeases(running, pool) && (forall j :: j in pool.leases ==> j < job.id)
    requires after.leases == pool.leases[job.id := job.gpus] && |job.gpus| == job.pipeline.gpuCount
    ensures JobsMatchLeases(running + [job], after)
  {
    assert (running + [job])[..|running|] == running;
    forall i | 0 <= i < |running| ensures HoldsLease(running[i], after) && running[i].id < job.id {
      assert HoldsLease(running[i], pool);
    }
  }

  lemma {:induction false} ReleaseAllConserves(ids: seq<int>, pool: Pool, jobs: seq<nat>)
    requires PoolInv(ids, pool)
    ensures PoolInv(ids, ReleaseAll(pool, jobs))
    ensures forall j :: j in ReleaseAll(pool, jobs).leases <==> j in pool.leases && j !in jobs
    ensures forall j :: j in ReleaseAll(pool, jobs).leases ==> ReleaseAll(pool, jobs).leases[j] == pool.leases[j]
  {
    if jobs != [] {
      var front, last := jobs[..|jobs| - 1], jobs[|jobs| - 1];
      ReleaseAllConserves(ids, pool, front);
      ReleaseConserves(ids, ReleaseAll(pool, front), last);
      assert jobs == front + [last];
    }
  }

  lemma {:induction false} IdsBelow(running: seq<Job>, n: nat)
    requires forall i :: 0 <= i < |running| ==> running[i].id < n
    ensures forall id :: id in JobIds(running) ==> id < n
  {
    if running != [] {
      IdsBelow(running[..|running| - 1], n);
    }
  }

  lemma {:induction false} EndedWereRunning(running: seq<Job>, seen: nat -> Observation, grace: nat)
    ensures forall id :: id in EndedIds(running, seen, grace) ==> id in JobIds(running)
    ensures forall job :: job in Kept(running, seen, grace) ==> job in running
  {
    if running != [] {
      EndedWereRunning(running[..|running| - 1], seen, grace);
    }
  }

  /** Each running job is either kept or ended, never both. */
  lemma {:induction false} KeptOrEnded(running: seq<Job>, seen: nat -> Observation, grace: nat)
    requires IdsIncrease(running)
    ensures JobIds(Kept(running, seen, grace)) == JobIds(running) - Elements(EndedIds(running, seen, grace))
  {
    if running != [] {
      var front, job := running[..|running| - 1], running[|running| - 1];
      KeptOrEnded(front, seen, grace);
      IdsBelow(front, job.id);
      EndedWereRunning(front, seen, grace);
      var inner, ended := Kept(front, seen, grace), EndedIds(front, seen, grace);
      if Verdict(job, seen(job.id), grace).None? {
        assert (inner + [job])[..|inner|] == inner;
        assert job.id !in Elements(ended);
      } else {
        assert Elements(ended + [job.id]) == Elements(ended) + {job.id};
      }
    }
  }

  lemma {:induction false} KeptIncrease(running: seq<Job>, seen: nat -> Observation, grace: nat)
    requires IdsIncrease(running)
    ensures IdsIncrease(Kept(running, seen, grace))
  {
    if running != [] {
      var front, job := running[..|running| - 1], running[|running| - 1];
      KeptIncrease(front, seen, grace);
      EndedWereRunning(front, seen, grace);
      var inner := Kept(front, seen, grace);
      assert forall i :: 0 <= i < |inner| ==> inner[i] in front;
    }
  }

  /** Dropping jobs and exactly their leases keeps the two in step. */
  lemma DropMatches(running: seq<Job>, pool: Pool, left: seq<Job>, after: Pool)
    requires JobsMatchLeases(running, pool)
    requires JobIds(left) == after.leases.Keys && IdsIncrease(left)
    requires forall i :: 0 <= i < |left| ==> left[i] in running && left[i].id in after.leases
    requires forall id :: id in after.leases ==> id in pool.leases && after.leases[id] == pool.leases[id]
    ensures JobsMatchLeases(left, after)
  {
    forall i | 0 <= i < |left| ensures HoldsLease(left[i], after) {
      var j :| 0 <= j < |running| && running[j] == left[i];
      assert HoldsLease(running[j], pool);
    }
  }

  lemma {:induction false} IdAmong(running: seq<Job>, i: nat)
    requires i < |running|
    ensures running[i].id in JobIds(running)
  {
    if i < |running| - 1 {
      IdAmong(running[..|running| - 1], i);
    }
  }

  lemma CollectedMatches(ids: seq<int>, s: Sched, seen: nat -> Observation, grace: nat)
    requires PoolInv(ids, s.pool) && JobsMatchLeases(s.running, s.pool)
    ensures JobsMatchLeases(Collected(s, seen, grace).running, Collected(s, seen, grace).pool)
  {
    var t := Collected(s, seen, grace);
    var ended := EndedIds(s.running, seen, grace);
    ReleaseAllConserves(ids, s.pool, ended);
    KeptOrEnded(s.running, seen, grace);
    KeptIncrease(s.running, seen, grace);
    EndedWereRunning(s.running, seen, grace);
    forall i | 0 <= i < |t.running| ensures t.running[i] in s.running && t.running[i].id in JobIds(t.running) {
      IdAmong(t.running, i);
    }
    DropMatches(s.running, s.pool, t.running, t.pool);
  }

  lemma CollectedKeeps(ids: seq<int>, inputs: seq<Pipeline>, s: Sched, seen: nat -> Observation, grace: nat)
    requires SchedInv(ids, inputs, s)
    ensures SchedInv(ids, inputs, Collected(s, seen, grace))
  {
    ReleaseAllConserves(ids, s.pool, EndedIds(s.running, seen, grace));
    CollectedMatches(ids, s, seen, grace);
    CollectedNames(s, seen, grace);
  }

  lemma JoinNames(a: seq<Result>, b: seq<Result>)
    ensures multiset(ResultNames(a + b)) == multiset(ResultNames(a)) + multiset(ResultNames(b))
  {
    assert ResultNames(a + b) == ResultNames(a) + ResultNames(b);
  }

  lemma CollectedNames(s: Sched, seen: nat -> Observation, grace: nat)
    ensures AllNames(Collected(s, seen, grace)) == AllNames(s)
  {
    CollectNames(s.running, seen, grace);
    JoinNames(s.results, Ended(s.running, seen, grace));
  }

  // ----- what one scheduling step picks

  /** Greedy backfill: the step starts the largest pending pipeline that fits, the earliest in the
      configuration among equals; it overtakes only pipelines that do not fit; and it starts
      nothing exactly when nothing pending fits. */
  lemma GreedyBackfill(ids: seq<int>, inputs: seq<Pipeline>, s: Sched, now: int)
    requires SchedInv(ids, inputs, s)
    ensures Scheduled(s, now) == s <==> forall p :: p in s.pending ==> p.gpuCount > |s.pool.available|
    ensures Scheduled(s, now) != s ==> exists k :: Picks(inputs, s, now, k, Scheduled(s, now))
  {
    var k := FirstFit(s.pending, |s.pool.available|);
    if k < |s.pending| {
      assert s.pending[k] in s.pending;
      PicksFirst(inputs, s, now);
      assert |Scheduled(s, now).running| == |s.running| + 1;
    }
  }

  /** The step from `s` to `t` starts pending pipeline `k` now, on the first free GPUs. */
  ghost predicate Picks(inputs: seq<Pipeline>, s: Sched, now: int, k: int, t: Sched) {
    && 0 <= k < |s.pending| && s.pending[k].gpuCount <= |s.pool.available|
    && t.pending == s.pending[..k] + s.pending[k + 1..] && t.results == s.results
    && |t.running| == |s.running| + 1 && t.running[..|s.running|] == s.running
    && t.running[|s.running|].pipeline == s.pending[k] && t.running[|s.running|].start == now
    && t.running[|s.running|].gpus == s.pool.available[..s.pending[k].gpuCount]
    && t.pool.available == s.pool.available[s.pending[k].gpuCount..]
    && (forall j :: 0 <= j < k ==> s.pending[j].gpuCount > |s.pool.available|)
    && (forall j :: k < j < |s.pending| ==> Precedes(inputs, s.pending[k], s.pending[j]))
  }

  lemma PicksFirst(inputs: seq<Pipeline>, s: Sched, now: int)
    requires QueueOrder(inputs, s.pending) && FirstFit(s.pending, |s.pool.available|) < |s.pending|
    ensures Picks(inputs, s, now, FirstFit(s.pending, |s.pool.available|), Scheduled(s, now))
  {
  }

  /** The scheduler is never stuck: with nothing running, the largest pending pipeline fits. */
  lemma NeverStuck(ids: seq<int>, inputs: seq<Pipeline>, s: Sched, now: int)
    requires SchedInv(ids, inputs, s) && s.running == [] && s.pending != []
    ensures |Scheduled(s, now).running| == 1 && Scheduled(s, now).running[0].pipeline == s.pending[0]
  {
    NothingHeld(s.pool.leases, s.pool.nextJobId);
    assert |multiset(s.pool.available)| == |multiset(ids)|;
    assert |s.pool.available| == |ids|;
  }

  lemma {:induction false} NothingHeld(leases: map<nat, seq<int>>, n: nat)
    requires forall id :: id !in leases
    ensures HeldIds(leases, n) == multiset{}
  {
    if n > 0 {
      NothingHeld(leases, n - 1);
    }
  }
}
