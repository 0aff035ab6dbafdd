/** The greedy pipeline scheduler of the example runner, on top of the GPU pool. */
module Scheduler {
  import opened Common
  import opened GpuPool

  datatype Pipeline = Pipeline(name: string, gpuCount: nat, timeout: nat)
  datatype Result = Result(name: string, status: string)
  datatype Job = Job(id: nat, pipeline: Pipeline, gpus: seq<int>, start: int)

  datatype Sched = Sched(pool: Pool, pending: seq<Pipeline>, running: seq<Job>, results: seq<Result>)

  /** What one poll of a child process shows: the status of the result computed from its output if
      it has exited, and the clock when its age is computed. */
  datatype Observation = Observation(finished: Option<string>, now: int)

  // ----- construction

  function InsertDescending(p: Pipeline, s: seq<Pipeline>): seq<Pipeline> {
    if s == [] || p.gpuCount >= s[0].gpuCount then [p] + s
    else [s[0]] + InsertDescending(p, s[1..])
  }

  /** Stable, largest GPU demand first. */
  function SortDescending(s: seq<Pipeline>): seq<Pipeline> {
    if s == [] then [] else InsertDescending(s[0], SortDescending(s[1..]))
  }

  function Fitting(s: seq<Pipeline>, total: nat): seq<Pipeline> {
    if s == [] then []
    else
      var front := Fitting(s[..|s| - 1], total);
      if s[|s| - 1].gpuCount > total then front else front + [s[|s| - 1]]
  }

  function Skipped(s: seq<Pipeline>, total: nat): seq<Result> {
    if s == [] then []
    else
      var front := Skipped(s[..|s| - 1], total);
      if s[|s| - 1].gpuCount > total then front + [Result(s[|s| - 1].name, "SKIP")] else front
  }

  function NewScheduler(pool: Pool, pipelines: seq<Pipeline>): Sched {
    Sched(pool, SortDescending(Fitting(pipelines, pool.total)), [], Skipped(pipelines, pool.total))
  }

  // ----- scheduling

  /** Position of the first pipeline that fits, or the length if none does. */
  function FirstFit(pending: seq<Pipeline>, free: nat): (k: nat)
    ensures k <= |pending|
    ensures k < |pending| ==> pending[k].gpuCount <= free
    ensures forall j :: 0 <= j < k ==> pending[j].gpuCount > free
  {
    if pending == [] || pending[0].gpuCount <= free then 0 else 1 + FirstFit(pending[1..], free)
  }

  function Scheduled(s: Sched, now: int): Sched {
    var k := FirstFit(s.pending, |s.pool.available|);
    if k == |s.pending| then s
    else
      var p := s.pending[k];
      var (pool, a) := AllocateFrom(s.pool, p.gpuCount);
      if a.None? then s
      else s.(pool := pool, pending := s.pending[..k] + s.pending[k + 1..],
              running := s.running + [Job(a.value.jobId, p, a.value.gpus, now)])
  }

  // ----- collecting

  /** The status a job ends with at this poll, if it ends. */
  function Verdict(job: Job, seen: Observation, grace: nat): Option<string> {
    if seen.finished.Some? then seen.finished
    else
      var age := seen.now - job.start;
      if age > job.pipeline.timeout && age > job.pipeline.timeout + grace then Some("TIMEOUT") else None
  }

  function Kept(running: seq<Job>, seen: nat -> Observation, grace: nat): seq<Job> {
    if running == [] then []
    else
      var job := running[|running| - 1];
      var front := Kept(running[..|running| - 1], seen, grace);
      if Verdict(job, seen(job.id), grace).None? then front + [job] else front
  }

  function Ended(running: seq<Job>, seen: nat -> Observation, grace: nat): seq<Result> {
    if running == [] then []
    else
      var job := running[|running| - 1];
      var front := Ended(running[..|running| - 1], seen, grace);
      var verdict := Verdict(job, seen(job.id), grace);
      if verdict.None? then front else front + [Result(job.pipeline.name, verdict.value)]
  }

  function EndedIds(running: seq<Job>, seen: nat -> Observation, grace: nat): seq<nat> {
    if running == [] then []
    else
      var job := running[|running| - 1];
      var front := EndedIds(running[..|running| - 1], seen, grace);
      if Verdict(job, seen(job.id), grace).None? then front else front + [job.id]
  }

  function ReleaseAll(pool: Pool, ids: seq<nat>): Pool {
    if ids == [] then pool
    else ReleaseTo(ReleaseAll(pool, ids[..|ids| - 1]), ids[|ids| - 1]).0
  }

  function Collected(s: Sched, seen: nat -> Observation, grace: nat): Sched {
    Sched(ReleaseAll(s.pool, EndedIds(s.running, seen, grace)), s.pending,
          Kept(s.running, seen, grace), s.results + Ended(s.running, seen, grace))
  }

  predicate Finished(s: Sched) {
    s.pending == [] && s.running == []
  }

  class PipelineScheduler {
    const pool: GPUPool
    var pending: seq<Pipeline>
    var running: seq<Job>
    var results: seq<Result>

    ghost function View(): Sched
      reads this, pool
    {
      Sched(pool.View(), pending, running, results)
    }

    constructor (pool: GPUPool, pipelines: seq<Pipeline>)
      ensures this.pool == pool
      ensures View() == NewScheduler(pool.View(), pipelines)
    {
      var skipped: seq<Result> := [];
      var valid: seq<Pipeline> := [];
      for i := 0 to |pipelines|
        invariant skipped == Skipped(pipelines[..i], pool.total)
        invariant valid == Fitting(pipelines[..i], pool.total)
      {
        assert pipelines[..i + 1][..i] == pipelines[..i];
        if pipelines[i].gpuCount > pool.total {
          skipped := skipped + [Result(pipelines[i].name, "SKIP")];
        } else {
          valid := valid + [pipelines[i]];
        }
      }
      assert pipelines[..|pipelines|] == pipelines;
      this.pool := pool;
      pending := SortDescending(valid);
      running := [];
      results := skipped;
    }

    method ScheduleNext(now: int) returns (started: Option<Allocation>)
      modifies this, pool
      ensures View() == Scheduled(old(View()), now)
      ensures started.Some? <==> exists p :: p in old(pending) && p.gpuCount <= old(|pool.available|)
      ensures started.Some? ==> |running| == |old(running)| + 1 && started.value.jobId == running[|running| - 1].id
                                && started.value.gpus == running[|running| - 1].gpus
    {
      for k := 0 to |pending|
        invariant View() == old(View())
        invariant FirstFit(pending, |pool.available|) >= k
      {
        if pending[k].gpuCount <= |pool.available| {
          assert FirstFit(pending, |pool.available|) == k;
          assert pending[k] in old(pending);
          var p := pending[k];
          var a := pool.Allocate(p.gpuCount);
          pending := pending[..k] + pending[k + 1..];
          running := running + [Job(a.value.jobId, p, a.value.gpus, now)];
          return a;
        }
      }
      return None;
    }

    method CollectFinished(seen: nat -> Observation, grace: nat) returns (ended: seq<Result>)
      modifies this, pool
      ensures View() == Collected(old(View()), seen, grace)
      ensures results == old(results) + ended && pending == old(pending)
      ensures forall job :: job in old(running) && seen(job.id).finished.Some? ==>
                              Result(job.pipeline.name, seen(job.id).finished.value) in ended
      ensures forall job :: job in old(running) && seen(job.id).finished.None? ==>
                              if seen(job.id).now - job.start > job.pipeline.timeout + grace
                              then Result(job.pipeline.name, "TIMEOUT") in ended else job in running
    {
      ended := [];
      var ids: seq<nat> := [];
      var kept: seq<Job> := [];
      for i := 0 to |running|
        invariant View() == old(View())
        invariant ended == Ended(running[..i], seen, grace)
        invariant ids == EndedIds(running[..i], seen, grace)
        invariant kept == Kept(running[..i], seen, grace)
        invariant forall job :: job in running[..i] && seen(job.id).finished.Some? ==>
                                  Result(job.pipeline.name, seen(job.id).finished.value) in ended
        invariant forall job :: job in running[..i] && seen(job.id).finished.None? ==>
                                  if seen(job.id).now - job.start > job.pipeline.timeout + grace
                                  then Result(job.pipeline.name, "TIMEOUT") in ended else job in kept
      {
        var job := running[i];
        var age := seen(job.id).now - job.start;
        assert running[..i + 1][..i] == running[..i];
        if seen(job.id).finished.Some? {
          ended := ended + [Result(job.pipeline.name, seen(job.id).finished.value)];
          ids := ids + [job.id];
        } else if age > job.pipeline.timeout && age > job.pipeline.timeout + grace {
          ended := ended + [Result(job.pipeline.name, "TIMEOUT")];
          ids := ids + [job.id];
        } else {
          kept := kept + [job];
        }
      }
      assert running[..|running|] == running;
      for i := 0 to |ids|
        invariant pending == old(pending) && running == old(running) && results == old(results)
        invariant pool.View() == ReleaseAll(old(pool.View()), ids[..i])
      {
        assert ids[..i + 1][..i] == ids[..i];
        var gpus := pool.Release(ids[i]);
      }
      assert ids[..|ids|] == ids;
      running := kept;
      results := results + ended;
    }
  }
}
