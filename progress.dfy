/**
 * The importer's progress aggregate, `update_progress`: one completion value
 * in [0, 1] computed from every reader's `(current, max_count)` pair.
 * Arithmetic is exact over `real`.
 */
module Progress {

  /** One reader's shared counters: rows read so far and rows in its file. */
  datatype JobProgress = JobProgress(current: int, total: int)

  function Min(a: real, b: real): real
  {
    if a <= b then a else b
  }

  /** One pass of the loop body on the running value. */
  function Step(lowest: real, job: JobProgress): real
  {
    if job.current < 0 then 0.0
    else if job.total <= 0 then 1.0
    else Min(lowest, job.current as real / job.total as real)
  }

  /** The value `update_progress` arrives at, as written: `Step` folded over the jobs from 1.0. */
  function Completion(jobs: seq<JobProgress>): real
  {
    if jobs == [] then 1.0 else Step(Completion(jobs[..|jobs| - 1]), jobs[|jobs| - 1])
  }

  /** The aggregate is always a fraction, and complete when there are no jobs. */
  lemma {:induction false} CompletionInRange(jobs: seq<JobProgress>)
    ensures 0.0 <= Completion(jobs) <= 1.0
    ensures jobs == [] ==> Completion(jobs) == 1.0
  {
    if jobs != [] {
      CompletionInRange(jobs[..|jobs| - 1]);
    }
  }

  /** The loop of `update_progress`, without the printing. */
  method UpdateProgress(jobs: seq<JobProgress>) returns (lowest: real)
    ensures lowest == Completion(jobs)
    ensures 0.0 <= lowest <= 1.0
  {
    lowest := 1.0;
    for i := 0 to |jobs|
      invariant lowest == Completion(jobs[..i])
    {
      assert jobs[..i + 1][..i] == jobs[..i];
      var job := jobs[i];
      if job.current < 0 {
        lowest := 0.0;
      } else if job.total <= 0 {
        lowest := 1.0;
      } else {
        lowest := Min(lowest, job.current as real / job.total as real);
      }
    }
    assert jobs[..|jobs|] == jobs;
    CompletionInRange(jobs);
  }

  // ---------------------------------------------------------------------------
  // The aggregate as a minimum

  /** One job's own completion, read the way the loop reads it. */
  function Ratio(job: JobProgress): real
  {
    if job.current < 0 then 0.0
    else if job.total <= 0 then 1.0
    else job.current as real / job.total as real
  }

  /** The least completion over all jobs, capped at 1.0. */
  function SlowestJob(jobs: seq<JobProgress>): real
  {
    if jobs == [] then 1.0 else Min(SlowestJob(jobs[..|jobs| - 1]), Ratio(jobs[|jobs| - 1]))
  }

  /**
   * `SlowestJob` is the minimum: no job is behind it, it is 1.0 or some job's
   * completion, and it is a fraction.
   */
  lemma {:induction false} SlowestJobIsMinimum(jobs: seq<JobProgress>)
    ensures forall i :: 0 <= i < |jobs| ==> SlowestJob(jobs) <= Ratio(jobs[i])
    ensures SlowestJob(jobs) == 1.0 || exists i :: 0 <= i < |jobs| && SlowestJob(jobs) == Ratio(jobs[i])
    ensures 0.0 <= SlowestJob(jobs) <= 1.0
  {
    if jobs != [] {
      var n := |jobs| - 1;
      SlowestJobIsMinimum(jobs[..n]);
      forall i | 0 <= i < |jobs| ensures SlowestJob(jobs) <= Ratio(jobs[i]) {
        if i < n { assert jobs[..n][i] == jobs[i]; }
      }
      if SlowestJob(jobs) != 1.0 && SlowestJob(jobs) != Ratio(jobs[n]) {
        var i :| 0 <= i < n && SlowestJob(jobs[..n]) == Ratio(jobs[..n][i]);
        assert jobs[..n][i] == jobs[i];
      }
    }
  }

  /** When no job has an empty or unknown total, the loop computes exactly the minimum. */
  lemma {:induction false} CompletionIsSlowestJob(jobs: seq<JobProgress>)
    requires forall i :: 0 <= i < |jobs| ==> jobs[i].current < 0 || jobs[i].total > 0
    ensures Completion(jobs) == SlowestJob(jobs)
  {
    if jobs != [] {
      var n := |jobs| - 1;
      assert forall i :: 0 <= i < n ==> jobs[..n][i] == jobs[i];
      CompletionIsSlowestJob(jobs[..n]);
      SlowestJobIsMinimum(jobs[..n]);
    }
  }

  /** A job with a total of zero or less, placed after the others, resets the aggregate to complete. */
  lemma LaterEmptyJobErasesEarlierOnes(jobs: seq<JobProgress>, empty: JobProgress)
    requires empty.current >= 0 && empty.total <= 0
    ensures Completion(jobs + [empty]) == 1.0
  {
    assert (jobs + [empty])[..|jobs|] == jobs;
  }

  /** A job one tenth done followed by an empty one reads as complete, while the slowest job is at 0.1. */
  lemma EmptyJobHidesSlowJob()
    ensures Completion([JobProgress(1, 10), JobProgress(0, 0)]) == 1.0
    ensures SlowestJob([JobProgress(1, 10), JobProgress(0, 0)]) == 0.1
  {
    var jobs := [JobProgress(1, 10), JobProgress(0, 0)];
    assert jobs[..1] == [JobProgress(1, 10)];
    assert jobs[..1][..0] == [];
  }
}
