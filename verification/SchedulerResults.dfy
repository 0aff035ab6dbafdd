/** Which results a run of the scheduler reports, and why: each goes back to what one poll showed. */
module SchedulerResults {
  import opened Common
  import opened GpuPool
  import opened Scheduler
  import opened SchedulerSafety
  import opened SchedulerLoop

  // ----- one poll

  /** Still running at the poll, and older than its timeout and the grace period. */
  predicate Overdue(job: Job, seen: Observation, grace: nat) {
    seen.finished.None? && seen.now - job.start > job.pipeline.timeout + grace
  }

  /** The poll accounts for the result: the job was seen to have finished with that status, or it was
      overdue and the status is TIMEOUT. */
  predicate Accounts(job: Job, seen: Observation, grace: nat, r: Result) {
    && job.pipeline.name == r.name
    && (seen.finished == Some(r.status) || (Overdue(job, seen, grace) && r.status == "TIMEOUT"))
  }

  lemma {:induction false} EndedAccounted(running: seq<Job>, seen: nat -> Observation, grace: nat, r: Result)
    requires r in Ended(running, seen, grace)
    ensures exists job :: job in running && Accounts(job, seen(job.id), grace, r)
  {
    var front, job := running[..|running| - 1], running[|running| - 1];
    if r in Ended(front, seen, grace) {
      EndedAccounted(front, seen, grace, r);
      var other :| other in front && Accounts(other, seen(other.id), grace, r);
      assert other in running;
    } else {
      assert job in running && Accounts(job, seen(job.id), grace, r);
    }
  }

  lemma {:induction false} PollDecides(running: seq<Job>, seen: nat -> Observation, grace: nat, job: Job)
    requires job in running
    ensures seen(job.id).finished.Some? ==>
              Result(job.pipeline.name, seen(job.id).finished.value) in Ended(running, seen, grace)
    ensures Overdue(job, seen(job.id), grace) ==> Result(job.pipeline.name, "TIMEOUT") in Ended(running, seen, grace)
    ensures seen(job.id).finished.None? && !Overdue(job, seen(job.id), grace) ==> job in Kept(running, seen, grace)
  {
    var front, last := running[..|running| - 1], running[|running| - 1];
    if job != last {
      assert job in front;
      PollDecides(front, seen, grace, job);
    }
  }

  lemma {:induction false} SkippedExactly(inputs: seq<Pipeline>, total: nat, r: Result)
    ensures r in Skipped(inputs, total)
            <==> exists p :: p in inputs && p.gpuCount > total && r == Result(p.name, "SKIP")
  {
    if inputs != [] {
      var front, last := inputs[..|inputs| - 1], inputs[|inputs| - 1];
      SkippedExactly(front, total, r);
      assert last in inputs;
      if p :| p in inputs && p.gpuCount > total && r == Result(p.name, "SKIP") {
        assert p in front || p == last;
      }
    }
  }

  // ----- whole runs

  function StateAt(ids: seq<int>, inputs: seq<Pipeline>, env: nat -> Round, grace: nat, n: nat): Sched {
    AfterRounds(NewScheduler(NewPool(ids), inputs), env, grace, n)
  }

  /** Round `k` takes place, and polls the job. */
  ghost predicate PolledAt(ids: seq<int>, inputs: seq<Pipeline>, env: nat -> Round, grace: nat, k: nat, job: Job) {
    var s := StateAt(ids, inputs, env, grace, k);
    !Finished(s) && job in Scheduled(s, env(k).start).running
  }

  /** The result is a SKIP of a configured pipeline too large for the pool, or a round before round `n`
      polled a job that accounts for it. */
  ghost predicate Explained(ids: seq<int>, inputs: seq<Pipeline>, env: nat -> Round, grace: nat, n: nat, r: Result) {
    || (exists p :: p in inputs && p.gpuCount > |ids| && r == Result(p.name, "SKIP"))
    || exists k: nat, job ::
         k < n && PolledAt(ids, inputs, env, grace, k, job) && Accounts(job, env(k).seen(job.id), grace, r)
  }

  /** Every result of every run has such an explanation. */
  lemma {:induction false} ResultsExplained(ids: seq<int>, inputs: seq<Pipeline>, env: nat -> Round, grace: nat,
                                            n: nat, r: Result)
    requires r in StateAt(ids, inputs, env, grace, n).results
    ensures Explained(ids, inputs, env, grace, n, r)
  {
    if n == 0 {
      SkippedExactly(inputs, |ids|, r);
    } else {
      var s := StateAt(ids, inputs, env, grace, n - 1);
      if r in s.results {
        ResultsExplained(ids, inputs, env, grace, n - 1, r);
      } else {
        var running := Scheduled(s, env(n - 1).start).running;
        EndedAccounted(running, env(n - 1).seen, grace, r);
        var job :| job in running && Accounts(job, env(n - 1).seen(job.id), grace, r);
        assert PolledAt(ids, inputs, env, grace, n - 1, job);
      }
    }
  }

  lemma {:induction false} ResultsStay(ids: seq<int>, inputs: seq<Pipeline>, env: nat -> Round, grace: nat,
                                       k: nat, n: nat, r: Result)
    requires k <= n && r in StateAt(ids, inputs, env, grace, k).results
    ensures r in StateAt(ids, inputs, env, grace, n).results
    decreases n - k
  {
    if k < n {
      ResultsStay(ids, inputs, env, grace, k, n - 1, r);
    }
  }

  /** Conversely, what a poll shows is what is reported from then on: the status of a job seen to have
      finished, TIMEOUT for an overdue one; any other job goes on running. */
  lemma PollsAreReported(ids: seq<int>, inputs: seq<Pipeline>, env: nat -> Round, grace: nat, k: nat, n: nat, job: Job)
    requires k < n && PolledAt(ids, inputs, env, grace, k, job)
    ensures
      var seen := env(k).seen(job.id);
      && (seen.finished.Some? ==>
            Result(job.pipeline.name, seen.finished.value) in StateAt(ids, inputs, env, grace, n).results)
      && (Overdue(job, seen, grace) ==>
            Result(job.pipeline.name, "TIMEOUT") in StateAt(ids, inputs, env, grace, n).results)
      && (seen.finished.None? && !Overdue(job, seen, grace) ==>
            job in StateAt(ids, inputs, env, grace, k + 1).running)
  {
    var seen := env(k).seen(job.id);
    PollDecides(Scheduled(StateAt(ids, inputs, env, grace, k), env(k).start).running, env(k).seen, grace, job);
    if seen.finished.Some? {
      ResultsStay(ids, inputs, env, grace, k + 1, n, Result(job.pipeline.name, seen.finished.value));
    } else if Overdue(job, seen, grace) {
      ResultsStay(ids, inputs, env, grace, k + 1, n, Result(job.pipeline.name, "TIMEOUT"));
    }
  }

  /** Every configured pipeline that is too large for the pool is reported as SKIP from the start. */
  lemma TooLargeAreSkipped(ids: seq<int>, inputs: seq<Pipeline>, env: nat -> Round, grace: nat, n: nat, p: Pipeline)
    requires p in inputs && p.gpuCount > |ids|
    ensures Result(p.name, "SKIP") in StateAt(ids, inputs, env, grace, n).results
  {
    SkippedExactly(inputs, |ids|, Result(p.name, "SKIP"));
    ResultsStay(ids, inputs, env, grace, 0, n, Result(p.name, "SKIP"));
  }

  /** Round `k` starts the job: a pending pipeline that fits, on the first free GPUs, at the time the
      clock shows. */
  ghost predicate StartedAt(ids: seq<int>, inputs: seq<Pipeline>, env: nat -> Round, grace: nat, k: nat, job: Job) {
    var s := StateAt(ids, inputs, env, grace, k);
    && PolledAt(ids, inputs, env, grace, k, job)
    && job.start == env(k).start && job.pipeline in s.pending && job.pipeline.gpuCount <= |s.pool.available|
    && job.id == s.pool.nextJobId && job.gpus == s.pool.available[..job.pipeline.gpuCount]
  }

  /** Every job that runs was started so, by an earlier round. */
  lemma {:induction false} JobsWereStarted(ids: seq<int>, inputs: seq<Pipeline>, env: nat -> Round, grace: nat,
                                           n: nat, job: Job)
    requires job in StateAt(ids, inputs, env, grace, n).running
    ensures exists k: nat :: k < n && StartedAt(ids, inputs, env, grace, k, job)
  {
    var s := StateAt(ids, inputs, env, grace, n - 1);
    if job in s.running {
      JobsWereStarted(ids, inputs, env, grace, n - 1, job);
    } else {
      EndedWereRunning(Scheduled(s, env(n - 1).start).running, env(n - 1).seen, grace);
      assert StartedAt(ids, inputs, env, grace, n - 1, job);
    }
  }
}
