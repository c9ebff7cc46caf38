/** Jobs run the way they were scheduled: one scheduled as parallel has a batch for each cached chunk, and one that is
    not is run by one worker (src/ECS/JobChunk.cpp:8-37, src/ECS/ThreadPool.cpp:326-392). */
module JobCuts {
  import opened WorkerLoop
  import opened Scheduling
  import opened Phases

  /** How a chunk job was scheduled: as parallel or not, for a query with so many cached chunks. */
  datatype Cut = Cut(parallel: bool, cacheCount: nat)

  /** The chunk jobs added to the schedule being built, in order. */
  function Building(actions: seq<Action>, k: nat): seq<Cut>
    requires k <= |actions|
  {
    if k == 0 then []
    else match actions[k - 1]
      case BuildClear => []
      case BuildChunks(parallel, cacheCount, _) => Building(actions, k - 1) + [Cut(parallel, cacheCount)]
      case _ => Building(actions, k - 1)
  }

  /** Those of the schedule in the arrays. */
  function Standing(actions: seq<Action>, k: nat): seq<Cut>
    requires k <= |actions|
  {
    if k == 0 then []
    else match actions[k - 1]
      case BuildClear => []
      case BuildPrepare(_) => Building(actions, k - 1)
      case _ => Standing(actions, k - 1)
  }

  /** Batches of one chunk each, or one batch of all chunks. */
  predicate CutAs(jobs: seq<Job>, cuts: seq<Cut>) {
    && |jobs| == |cuts|
    && forall j :: 0 <= j < |jobs| ==>
         && jobs[j].cacheCount == cuts[j].cacheCount > 0
         && (cuts[j].parallel ==> jobs[j].batchCount == cuts[j].cacheCount && jobs[j].stepSize == 1)
         && (!cuts[j].parallel ==> jobs[j].batchCount == 1 && jobs[j].stepSize == cuts[j].cacheCount)
  }

  lemma NothingCut()
    ensures CutAs([], [])
  {
  }

  lemma CutStep(s: Sys, a: Action, s1: Sys, standing: seq<Cut>, building: seq<Cut>)
    requires IsStep(s, a, s1) && !a.BuildAdd? && !s1.failed
    requires CutAs(s.pool.jobs, standing) && (s.build.Adding? ==> CutAs(s.build.jobs, building))
    ensures CutAs(s1.pool.jobs, match a case BuildClear => [] case BuildPrepare(_) => building case _ => standing)
    ensures s1.build.Adding? ==>
      CutAs(s1.build.jobs, match a
                           case BuildClear => []
                           case BuildChunks(parallel, cacheCount, _) => building + [Cut(parallel, cacheCount)]
                           case _ => building)
  {
    hide CutAs, Prepared, LevelsLinked, Handles, PositionOk, BatchChunks, FencedJob;
    NothingCut();
    match a
    case BuildChunks(parallel, cacheCount, fences) =>
      CutMore(s.build.jobs, building, parallel, cacheCount, fences);
    case _ =>
  }

  lemma CutMore(jobs: seq<Job>, cuts: seq<Cut>, parallel: bool, cacheCount: nat, fences: seq<int>)
    requires CutAs(jobs, cuts) && cacheCount > 0
    ensures CutAs(jobs + [FencedJob(jobs, parallel, cacheCount, fences)], cuts + [Cut(parallel, cacheCount)])
  {
  }

  lemma {:induction false} RunCuts(ss: seq<Sys>, actions: seq<Action>, workers: nat, k: nat)
    requires ChunkRun(ss, actions, workers) && workers > 0 && k < |ss|
    ensures k <= |actions| && CutAs(ss[k].pool.jobs, Standing(actions, k))
    ensures ss[k].build.Adding? ==> CutAs(ss[k].build.jobs, Building(actions, k))
  {
    hide CutAs, IsStep, WorkerLoop.Inv;
    NothingCut();
    if k > 0 {
      RunCuts(ss, actions, workers, k - 1);
      assert IsStep(ss[k - 1], actions[k - 1], ss[k]);
      PhasesExclude(ss, actions, workers, k);
      CutStep(ss[k - 1], actions[k - 1], ss[k], Standing(actions, k - 1), Building(actions, k - 1));
    }
  }

  /** In every reachable state at most one worker runs a job scheduled as not parallel. */
  lemma SerialAlone(ss: seq<Sys>, actions: seq<Action>, workers: nat, k: nat, j: nat, v: nat, w: nat)
    requires ChunkRun(ss, actions, workers) && workers > 0 && k < |ss| == |actions| + 1
    requires j < |Standing(actions, k)| && !Standing(actions, k)[j].parallel
    requires v < |ss[k].pool.workers| && w < |ss[k].pool.workers|
    requires Doing(ss[k].pool, ss[k].pool.workers[v]).0 == j == Doing(ss[k].pool, ss[k].pool.workers[w]).0
    ensures v == w
  {
    RunCuts(ss, actions, workers, k);
    RunInv(ss, actions, workers, k);
    OneAtATime(ss[k].pool, j, v, w);
  }

  lemma OneAtATime(p: Pool, j: nat, v: nat, w: nat)
    requires WorkerLoop.Inv(p) && j < |p.jobs| && p.jobs[j].batchCount == 1
    requires v < |p.workers| && w < |p.workers| && Doing(p, p.workers[v]).0 == j == Doing(p, p.workers[w]).0
    ensures v == w
  {
    hide PassedOk, LevelsOk, ChunksOk, Prepared;
    assert WorkerOk(p, p.workers[v]) && WorkerOk(p, p.workers[w]);
  }

  /** The chunks of job j a worker executes when it runs a batch. */
  predicate InBatch(cut: Cut, batch: nat, chunk: nat) {
    chunk < cut.cacheCount && (cut.parallel ==> chunk == batch)
  }

  lemma RunsBatch(p: Pool, w: nat, i: nat, chunk: nat)
    requires Shape(p) && w < |p.workers| && p.workers[w].Run?
    ensures var (j, b) := (p.order[p.workers[w].r], p.workers[w].batch);
      var job := p.jobs[j];
      var from := b * job.stepSize;
      Next(p, w).ran[(i, chunk)] == p.ran[(i, chunk)] +
        (if i == j && chunk < job.cacheCount && from <= chunk < from + job.stepSize then 1 else 0)
  {
    hide Prepared;
  }

  lemma RunsAsCut(p: Pool, cuts: seq<Cut>, w: nat, i: nat, chunk: nat)
    requires WorkerLoop.Inv(p) && CutAs(p.jobs, cuts) && w < |p.workers| && p.workers[w].Run?
    ensures p.workers[w].r < |p.order| && p.order[p.workers[w].r] < |cuts|
    ensures Next(p, w).ran[(i, chunk)] == p.ran[(i, chunk)] +
      (if i == p.order[p.workers[w].r] && InBatch(cuts[i], p.workers[w].batch, chunk) then 1 else 0)
  {
    hide PassedOk, LevelsOk, ChunksOk, BatchesOk, Next;
    assert WorkerOk(p, p.workers[w]);
    RunsBatch(p, w, i, chunk);
  }

  /** A batch of a job scheduled as parallel executes exactly the chunk of its number, the batch of a job that is not
      executes all, and neither a chunk of another job. */
  lemma ExecutesAsCut(ss: seq<Sys>, actions: seq<Action>, workers: nat, k: nat, w: nat, i: nat, chunk: nat)
    requires ChunkRun(ss, actions, workers) && workers > 0 && k < |actions| && |ss| == |actions| + 1
    requires actions[k] == Work(w) && w < |ss[k].pool.workers| && ss[k].pool.workers[w].Run?
    ensures var worker := ss[k].pool.workers[w];
      && worker.r < |ss[k].pool.order| && ss[k].pool.order[worker.r] < |Standing(actions, k)|
      && ss[k + 1].pool.ran[(i, chunk)] == ss[k].pool.ran[(i, chunk)] +
           (if i == ss[k].pool.order[worker.r] && InBatch(Standing(actions, k)[i], worker.batch, chunk) then 1 else 0)
  {
    hide WorkerLoop.Inv, CutAs, Standing, Shape, Next, Control, InBatch;
    RunCuts(ss, actions, workers, k);
    RunInv(ss, actions, workers, k);
    assert IsStep(ss[k], actions[k], ss[k + 1]);
    RunsAsCut(ss[k].pool, Standing(actions, k), w, i, chunk);
  }
}
