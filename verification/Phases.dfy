/** Which of "systems iterating", "schedule being built" and "workers running" is going on, and the counter that
    decides it (src/ECS/ThreadPool.cpp:213-357, 393-403). The event loop runs one callback at a time; the build
    and the workers run on pool threads; requests may be signalled at any moment. */
module Phases {
  import opened WorkerLoop
  import opened Scheduling

  datatype Request = Exit | Render | Timer

  /** What the event loop is doing; it is stopped after an exit request. */
  datatype Main = Waiting | InSystems | Stopped

  /** The work item that builds the schedule. */
  datatype Build = NoBuild | Queued | Adding(jobs: seq<Job>) | Built

  datatype Sys = Sys(active: nat, bits: set<Request>, main: Main, build: Build, pool: Pool, queued: bool, failed: bool)

  /** A schedule is built by adding chunk jobs, each for a query whose fences, null or jobs scheduled before, are
      combined. BuildAdd is a direct call of JobsUtility::schedule, which the engine's own builder never makes. */
  datatype Action =
    | Signal(request: Request)
    | Wake
    | SystemsPass(schedules: bool, quits: bool)
    | BuildClear
    | BuildChunks(parallel: bool, cacheCount: nat, fences: seq<int>)
    | BuildAdd(job: Job)
    | BuildPrepare(order: seq<nat>)
    | BuildDone
    | Work(w: nat)
    | WorkerDone(w: nat)

  function Out(ws: seq<Worker>): nat {
    if ws == [] then 0 else Out(ws[..|ws|-1]) + if ws[|ws|-1].Parked? then 0 else 1
  }

  function NewPool(jobs: seq<Job>, order: seq<nat>, workers: seq<Worker>): Pool {
    Pool(jobs, order, 0, 0, seq(|jobs|, _ => 0), workers, multiset{}, multiset{})
  }

  /** The arrays before anything is scheduled: write and read index zero. */
  function Cleared(p: Pool): Pool {
    p.(jobs := [], order := [], readerLevel := 0, readIndex := 0, begin := [], finished := multiset{},
       ran := multiset{})
  }

  /** queue_jobs on the event loop: the exchange 1 -> N, then one work item per worker. */
  function Launch(s: Sys): Sys {
    if s.active != 1 then s.(failed := true)
    else s.(active := |s.pool.workers|, pool := s.pool.(workers := seq(|s.pool.workers|, _ => Load(0))))
  }

  /** wakeThread: the exchange 0 -> 1, then iterate if every job has been read, else launch the workers. */
  function WakeUp(s: Sys): Sys {
    if s.active != 0 then s
    else if |s.pool.jobs| <= s.pool.readIndex then s.(active := 1, main := InSystems)
    else Launch(s.(active := 1))
  }

  /** after_work_jobs: the last participant to leave wakes the loop. */
  function Leave(s: Sys): Sys {
    if s.active == 0 then s.(failed := true)
    else if s.active == 1 then WakeUp(s.(active := 0))
    else s.(active := s.active - 1)
  }

  predicate Enabled(s: Sys, a: Action) {
    match a
    case Signal(_) => true
    case Wake => s.main == Waiting
    case SystemsPass(_, _) => s.main == InSystems
    case BuildClear => s.build == Queued
    case BuildChunks(_, cacheCount, fences) =>
      s.build.Adding? && cacheCount > 0 && LevelsLinked(s.build.jobs) && Handles(fences, |s.build.jobs|)
    case BuildAdd(job) => s.build.Adding? && LevelsLinked(s.build.jobs + [job])
    case BuildPrepare(order) => s.build.Adding? && Prepared(s.build.jobs, order)
    case BuildDone => s.main == Waiting && s.build == Built
    case Work(w) => w < |s.pool.workers| && Shape(s.pool)
    case WorkerDone(w) => s.main == Waiting && w < |s.pool.workers| && s.pool.workers[w] == Returned
  }

  function Apply(s: Sys, a: Action): Sys
    requires Enabled(s, a)
  {
    match a
    case Signal(r) => s.(bits := s.bits + {r})
    case Wake => WakeUp(s)
    case SystemsPass(schedules, quits) => Pass(s, schedules, quits)
    case BuildClear => s.(build := Adding([]), pool := Cleared(s.pool))
    case BuildChunks(parallel, cacheCount, fences) =>
      s.(build := Adding(s.build.jobs + [FencedJob(s.build.jobs, parallel, cacheCount, fences)]))
    case BuildAdd(job) => s.(build := Adding(s.build.jobs + [job]))
    case BuildPrepare(order) =>
      if s.build.jobs != [] && s.active != 1 then s.(failed := true)
      else s.(build := Built, queued := false, pool := NewPool(s.build.jobs, order, s.pool.workers))
    case BuildDone =>
      // with jobs the completion callback is after_work_jobs, without jobs it is iterate_systems
      if s.pool.jobs != [] then Leave(s.(build := NoBuild)) else s.(build := NoBuild, main := InSystems)
    case Work(w) => s.(pool := Next(s.pool, w))
    case WorkerDone(w) => Leave(s.(pool := Become(s.pool, w, Parked)))
  }

  /** The chunk job that depends on the combination of the fences. */
  function FencedJob(jobs: seq<Job>, parallel: bool, cacheCount: nat, fences: seq<int>): Job {
    var dependsOn := Combined(jobs, fences, 0);
    ChunkJob(parallel, cacheCount, if 0 <= dependsOn < |jobs| then jobs[dependsOn].level + 1 else 0, dependsOn)
  }

  /** One turn of iterate_systems. */
  function Pass(s: Sys, schedules: bool, quits: bool): Sys {
    if Exit in s.bits then s.(main := Stopped)
    else if Timer in s.bits then AfterSystems(s, Timer, schedules, quits)
    else if Render in s.bits then AfterSystems(s, Render, schedules, quits)
    else if s.active == 0 then s.(failed := true)
    else s.(active := s.active - 1, main := Waiting)
  }

  function AfterSystems(s: Sys, served: Request, schedules: bool, quits: bool): Sys {
    var bits := (if quits then s.bits + {Exit} else s.bits) - {served};
    var s1 := s.(bits := bits, queued := s.queued || schedules);
    if s1.queued then s1.(build := Queued, main := Waiting)
    else if bits != {} then s1
    else if s1.active == 0 then s1.(failed := true)
    else s1.(active := s1.active - 1, main := Waiting)
  }

  function Init(workers: nat): Sys {
    Sys(0, {}, Waiting, NoBuild, NewPool([], [], seq(workers, _ => Parked)), false, false)
  }

  // Invariant.

  /** activeThreads counts the unfinished participants, and they are all of one kind. */
  predicate Participants(s: Sys) {
    && s.active == (if s.main == Waiting then 0 else 1) + (if s.build == NoBuild then 0 else 1) + Out(s.pool.workers)
    && (s.main != Waiting ==> s.build == NoBuild && Out(s.pool.workers) == 0)
    && (s.build != NoBuild ==> Out(s.pool.workers) == 0)
  }

  /** The counter and the phases agree, and a pool nobody is in has nothing left that may start. */
  predicate Control(s: Sys)
    requires Shape(s.pool)
  {
    && !s.failed && |s.pool.workers| > 0 && s.pool.readerLevel == 0 && Participants(s)
    && (s.build.Adding? ==> LevelsLinked(s.build.jobs))
    && (Out(s.pool.workers) == 0 && !s.build.Built? ==> Exhausted(s.pool))
    && (s.build.Built? && s.pool.jobs == [] ==> Exhausted(s.pool))
    && (s.main == InSystems || s.build == Queued ==> s.pool.readIndex == |s.pool.jobs|)
  }

  ghost predicate PhaseInv(s: Sys) {
    WorkerLoop.Inv(s.pool) && Control(s)
  }

  lemma {:induction false} OutUpdate(ws: seq<Worker>, w: nat, worker: Worker)
    requires w < |ws|
    ensures Out(ws[w := worker]) ==
      Out(ws) - (if ws[w].Parked? then 0 else 1) + (if worker.Parked? then 0 else 1)
  {
    var m := |ws| - 1;
    if w == m {
      assert ws[w := worker][..m] == ws[..m];
    } else {
      assert ws[w := worker][..m] == ws[..m][w := worker];
      OutUpdate(ws[..m], w, worker);
    }
  }

  lemma {:induction false} OutBounds(ws: seq<Worker>)
    ensures Out(ws) == 0 <==> forall w :: 0 <= w < |ws| ==> ws[w].Parked?
  {
    if ws != [] {
      var m := |ws| - 1;
      OutBounds(ws[..m]);
      forall w | 0 <= w < m ensures ws[..m][w] == ws[w] {}
    }
  }

  lemma {:induction false} OutAll(ws: seq<Worker>)
    requires forall w :: 0 <= w < |ws| ==> !ws[w].Parked?
    ensures Out(ws) == |ws|
  {
    if ws != [] {
      OutAll(ws[..|ws| - 1]);
    }
  }

  /** Nobody inside the loop: every started batch has finished. */
  lemma NoneRunning(p: Pool)
    requires WorkerLoop.Inv(p) && Out(p.workers) == 0
    ensures forall b :: Started(p, b) ==> b in p.finished
    ensures forall w, b :: 0 <= w < |p.workers| ==> !Does(p, w, b)
  {
    OutBounds(p.workers);
  }

  /** Launching all workers on a pool nobody is in. */
  lemma LaunchKeeps(s: Sys)
    requires WorkerLoop.Inv(s.pool) && s.active == 1 && Out(s.pool.workers) == 0 && s.build == NoBuild
    requires s.main == Waiting
    requires !s.failed && |s.pool.workers| > 0 && s.pool.readerLevel == 0
    ensures PhaseInv(Launch(s))
  {
    var p, p1 := s.pool, Launch(s).pool;
    NoneRunning(p);
    OutAll(p1.workers);
    assert BatchesOk(p1);
  }

  lemma WakeUpKeeps(s: Sys)
    requires WorkerLoop.Inv(s.pool) && s.active == 0 && Out(s.pool.workers) == 0 && s.build == NoBuild
    requires s.main == Waiting
    requires !s.failed && |s.pool.workers| > 0 && s.pool.readerLevel == 0
    ensures PhaseInv(WakeUp(s))
  {
    if s.pool.readIndex < |s.pool.jobs| {
      LaunchKeeps(s.(active := 1));
    }
  }

  /** Arrays no worker has touched. */
  lemma FreshInv(p: Pool)
    requires Prepared(p.jobs, p.order) && Out(p.workers) == 0 && p.readIndex == 0 && |p.begin| == |p.jobs|
    requires forall j :: 0 <= j < |p.begin| ==> p.begin[j] == 0
    requires p.finished == multiset{} && p.ran == multiset{}
    ensures WorkerLoop.Inv(p)
  {
    OutBounds(p.workers);
  }

  lemma NewPoolInv(jobs: seq<Job>, order: seq<nat>, workers: seq<Worker>)
    requires Prepared(jobs, order) && Out(workers) == 0
    ensures WorkerLoop.Inv(NewPool(jobs, order, workers))
  {
    FreshInv(NewPool(jobs, order, workers));
  }

  lemma WorkerDoneKeeps(s: Sys, w: nat)
    requires PhaseInv(s) && Enabled(s, WorkerDone(w))
    ensures PhaseInv(Apply(s, WorkerDone(w)))
  {
    var s1 := s.(pool := Become(s.pool, w, Parked));
    OutUpdate(s.pool.workers, w, Parked);
    OutBounds(s.pool.workers);
    MoveKeeps(s.pool, w, Parked);
    assert WorkerOk(s.pool, s.pool.workers[w]);
    if s1.active == 1 {
      WakeUpKeeps(s1.(active := 0));
    }
  }

  /** A worker inside the loop took a step and is still counted. */
  lemma WorkControl(s: Sys, w: nat, p1: Pool)
    requires Shape(s.pool) && Shape(p1) && Control(s) && w < |s.pool.workers| && |p1.workers| == |s.pool.workers|
    requires p1.workers == s.pool.workers[w := p1.workers[w]] && p1.readerLevel == 0
    requires !s.pool.workers[w].Parked? && !p1.workers[w].Parked?
    ensures Control(s.(pool := p1))
  {
    OutUpdate(s.pool.workers, w, p1.workers[w]);
    OutBounds(s.pool.workers);
  }

  lemma NextMoves(p: Pool, w: nat)
    requires Shape(p) && w < |p.workers| && !p.workers[w].Parked?
    ensures var p1 := Next(p, w);
      && |p1.workers| == |p.workers| && p1.workers == p.workers[w := p1.workers[w]]
      && p1.readerLevel == p.readerLevel && !p1.workers[w].Parked?
  {
  }

  lemma WorkKeeps(s: Sys, w: nat)
    requires PhaseInv(s) && Enabled(s, Work(w))
    ensures PhaseInv(Apply(s, Work(w)))
  {
    if s.pool.workers[w].Parked? {
      assert Apply(s, Work(w)) == s;
    } else {
      NextKeeps(s.pool, w);
      NextMoves(s.pool, w);
      WorkControl(s, w, Next(s.pool, w));
      assert Apply(s, Work(w)) == s.(pool := Next(s.pool, w));
    }
  }

  lemma PassKeeps(s: Sys, schedules: bool, quits: bool)
    requires PhaseInv(s) && s.main == InSystems
    ensures PhaseInv(Pass(s, schedules, quits))
  {
    assert Pass(s, schedules, quits).pool == s.pool;
  }

  lemma BuildDoneKeeps(s: Sys)
    requires PhaseInv(s) && Enabled(s, BuildDone)
    ensures PhaseInv(Apply(s, BuildDone))
  {
    if s.pool.jobs != [] {
      WakeUpKeeps(s.(active := 0, build := NoBuild));
    }
  }

  lemma BuildPrepareKeeps(s: Sys, order: seq<nat>)
    requires PhaseInv(s) && Enabled(s, BuildPrepare(order))
    ensures PhaseInv(Apply(s, BuildPrepare(order)))
  {
    NewPoolInv(s.build.jobs, order, s.pool.workers);
    assert Apply(s, BuildPrepare(order)).pool == NewPool(s.build.jobs, order, s.pool.workers);
  }

  lemma ClearedInv(p: Pool)
    requires Out(p.workers) == 0
    ensures WorkerLoop.Inv(Cleared(p)) && Exhausted(Cleared(p))
  {
    FreshInv(Cleared(p));
  }

  lemma BuildClearKeeps(s: Sys)
    requires PhaseInv(s) && s.build == Queued
    ensures PhaseInv(Apply(s, BuildClear))
  {
    ClearedInv(s.pool);
    assert Apply(s, BuildClear).pool == Cleared(s.pool);
  }

  lemma FencedLinked(jobs: seq<Job>, parallel: bool, cacheCount: nat, fences: seq<int>)
    requires LevelsLinked(jobs) && Handles(fences, |jobs|)
    ensures LevelsLinked(jobs + [FencedJob(jobs, parallel, cacheCount, fences)])
  {
    CombinedHighest(jobs, fences, 0);
  }

  /** Steps that touch neither the pool nor the counter. */
  lemma AsideKeeps(s: Sys, a: Action)
    requires PhaseInv(s) && Enabled(s, a) && (a.Signal? || a.BuildChunks? || a.BuildAdd?)
    ensures PhaseInv(Apply(s, a))
  {
    if a.BuildChunks? {
      FencedLinked(s.build.jobs, a.parallel, a.cacheCount, a.fences);
    }
    assert Apply(s, a).pool == s.pool;
  }

  lemma ApplyKeeps(s: Sys, a: Action)
    requires PhaseInv(s) && Enabled(s, a)
    ensures PhaseInv(Apply(s, a))
  {
    match a
    case Signal(_) => AsideKeeps(s, a);
    case Wake => if s.active == 0 { WakeUpKeeps(s); }
    case SystemsPass(schedules, quits) => PassKeeps(s, schedules, quits);
    case BuildClear => BuildClearKeeps(s);
    case BuildChunks(_, _, _) => AsideKeeps(s, a);
    case BuildAdd(_) => AsideKeeps(s, a);
    case BuildPrepare(order) => BuildPrepareKeeps(s, order);
    case BuildDone => BuildDoneKeeps(s);
    case Work(w) => WorkKeeps(s, w);
    case WorkerDone(w) => WorkerDoneKeeps(s, w);
  }

  // Runs.

  ghost predicate IsStep(s: Sys, a: Action, s1: Sys) {
    Enabled(s, a) && s1 == Apply(s, a)
  }

  ghost predicate IsRun(ss: seq<Sys>, actions: seq<Action>, workers: nat) {
    && |ss| == |actions| + 1 && ss[0] == Init(workers)
    && forall k :: 0 <= k < |actions| ==> IsStep(ss[k], actions[k], ss[k + 1])
  }

  lemma {:induction false} RunInv(ss: seq<Sys>, actions: seq<Action>, workers: nat, k: nat)
    requires IsRun(ss, actions, workers) && workers > 0 && k < |ss|
    ensures PhaseInv(ss[k])
  {
    if k == 0 {
      OutBounds(ss[0].pool.workers);
      NewPoolInv([], [], ss[0].pool.workers);
    } else {
      RunInv(ss, actions, workers, k - 1);
      assert IsStep(ss[k - 1], actions[k - 1], ss[k]);
      ApplyKeeps(ss[k - 1], actions[k - 1]);
    }
  }

  /** In every reachable state at most one phase is going on, and no internal error has been thrown. */
  lemma PhasesExclude(ss: seq<Sys>, actions: seq<Action>, workers: nat, k: nat)
    requires IsRun(ss, actions, workers) && workers > 0 && k < |ss|
    ensures !ss[k].failed
    ensures ss[k].main == InSystems ==> ss[k].build == NoBuild && forall w :: 0 <= w < |ss[k].pool.workers| ==>
      ss[k].pool.workers[w].Parked?
    ensures ss[k].build != NoBuild ==> ss[k].main == Waiting && forall w :: 0 <= w < |ss[k].pool.workers| ==>
      ss[k].pool.workers[w].Parked?
    ensures ss[k].active == (if ss[k].main == Waiting then 0 else 1) + (if ss[k].build == NoBuild then 0 else 1)
      + Out(ss[k].pool.workers)
    ensures ss[k].main == InSystems || ss[k].build != NoBuild ==> ss[k].active == 1
  {
    RunInv(ss, actions, workers, k);
    OutBounds(ss[k].pool.workers);
  }

  predicate Resets(p: Pool, p1: Pool) {
    p1.jobs != p.jobs || p1.order != p.order || p1.readIndex < p.readIndex
  }

  lemma OnlyBuildResets(s: Sys, a: Action)
    requires Enabled(s, a) && Resets(s.pool, Apply(s, a).pool)
    ensures a.BuildClear? || a.BuildPrepare?
  {
    hide Prepared, LevelsLinked, Handles, PositionOk;
  }

  /** When a step replaces the job arrays or rewinds the read index, no worker is inside the loop. */
  lemma ResetsSeenByNoWorker(ss: seq<Sys>, actions: seq<Action>, workers: nat, k: nat, w: nat)
    requires IsRun(ss, actions, workers) && workers > 0 && k < |actions|
    requires Resets(ss[k].pool, ss[k + 1].pool)
    requires w < |ss[k].pool.workers|
    ensures ss[k].pool.workers[w].Parked? && ss[k].main == Waiting
  {
    RunInv(ss, actions, workers, k);
    OutBounds(ss[k].pool.workers);
    assert IsStep(ss[k], actions[k], ss[k + 1]);
    OnlyBuildResets(ss[k], actions[k]);
    hide Apply, WorkerLoop.Inv;
  }

  /** When nobody participates, every batch of every job up to the reader level has finished exactly once, and no
      batch of another job has. */
  lemma QuietRound(ss: seq<Sys>, actions: seq<Action>, workers: nat, k: nat, j: nat, b: nat)
    requires IsRun(ss, actions, workers) && workers > 0 && k < |ss|
    requires ss[k].active == 0 || ss[k].main == InSystems || ss[k].build == Queued
    requires j < |ss[k].pool.jobs| && b < ss[k].pool.jobs[j].batchCount
    ensures ss[k].pool.finished[(j, b)] == if ss[k].pool.jobs[j].level == 0 then 1 else 0
  {
    RunInv(ss, actions, workers, k);
    OutBounds(ss[k].pool.workers);
    QuietComplete(ss[k].pool);
  }

  /** While systems iterate, and when the next schedule starts to be built, every cached chunk of every job of
      the last schedule has been executed exactly once, however the workers were interleaved. */
  lemma RoundComplete(ss: seq<Sys>, actions: seq<Action>, workers: nat, k: nat, j: nat, chunk: nat)
    requires IsRun(ss, actions, workers) && workers > 0 && k < |ss|
    requires ss[k].main == InSystems || ss[k].build == Queued
    requires j < |ss[k].pool.jobs| && CutsChunks(ss[k].pool.jobs[j]) && chunk < ss[k].pool.jobs[j].cacheCount
    ensures ss[k].pool.ran[(j, chunk)] == 1
  {
    RunInv(ss, actions, workers, k);
    OutBounds(ss[k].pool.workers);
    var i := PositionOf(ss[k].pool.jobs, ss[k].pool.order, j);
    QuietExecutedOnce(ss[k].pool, j, chunk);
  }

  // Schedules of chunk jobs.

  ghost predicate ChunkRun(ss: seq<Sys>, actions: seq<Action>, workers: nat) {
    IsRun(ss, actions, workers) && forall k :: 0 <= k < |actions| ==> !actions[k].BuildAdd?
  }

  predicate ChunkJobs(jobs: seq<Job>) {
    Independent(jobs) && forall j :: 0 <= j < |jobs| ==> CutsChunks(jobs[j])
  }

  ghost predicate AllChunkJobs(s: Sys) {
    ChunkJobs(s.pool.jobs) && (s.build.Adding? ==> ChunkJobs(s.build.jobs))
  }

  lemma ChunkAdded(jobs: seq<Job>, parallel: bool, cacheCount: nat, fences: seq<int>)
    requires ChunkJobs(jobs) && cacheCount > 0 && Handles(fences, |jobs|)
    ensures ChunkJobs(jobs + [FencedJob(jobs, parallel, cacheCount, fences)])
  {
    NothingToCombine(jobs, fences, 0);
  }

  lemma ChunksStay(s: Sys, a: Action)
    requires Enabled(s, a) && AllChunkJobs(s) && !a.BuildAdd?
    ensures AllChunkJobs(Apply(s, a))
  {
    if a.BuildChunks? {
      ChunkAdded(s.build.jobs, a.parallel, a.cacheCount, a.fences);
      hide ChunkJobs, FencedJob, Handles, LevelsLinked;
    } else {
      var s1 := Apply(s, a);
      hide ChunkJobs, Prepared, LevelsLinked, Handles, PositionOk;
      assert a.Work? ==> s1.pool.jobs == s.pool.jobs;
      assert ChunkJobs([]) by { NoJobs(); }
    }
  }

  lemma NoJobs()
    ensures ChunkJobs([])
  {
  }

  /** Whatever the fences are, no chunk job depends on another. */
  lemma {:induction false} NoDependencies(ss: seq<Sys>, actions: seq<Action>, workers: nat, k: nat)
    requires ChunkRun(ss, actions, workers) && workers > 0 && k < |ss|
    ensures ChunkJobs(ss[k].pool.jobs)
    ensures ss[k].build.Adding? ==> ChunkJobs(ss[k].build.jobs)
  {
    if k > 0 {
      NoDependencies(ss, actions, workers, k - 1);
      assert IsStep(ss[k - 1], actions[k - 1], ss[k]);
      hide ChunkJobs, Apply, Enabled;
      ChunksStay(ss[k - 1], actions[k - 1]);
    }
  }

  /** So in a run of chunk jobs every cached chunk of every job of the schedule is executed exactly once before the
      systems iterate again. */
  lemma EveryChunkOnce(ss: seq<Sys>, actions: seq<Action>, workers: nat, k: nat, j: nat, chunk: nat)
    requires ChunkRun(ss, actions, workers) && workers > 0 && k < |ss|
    requires ss[k].active == 0 || ss[k].main == InSystems || ss[k].build == Queued
    requires j < |ss[k].pool.jobs| && chunk < ss[k].pool.jobs[j].cacheCount
    ensures ss[k].pool.ran[(j, chunk)] == 1
  {
    NoDependencies(ss, actions, workers, k);
    RunInv(ss, actions, workers, k);
    OutBounds(ss[k].pool.workers);
    QuietExecutedOnce(ss[k].pool, j, chunk);
  }

  /** How far the workers still are from handing over to the systems. */
  function RoundLeft(s: Sys): nat
    requires Shape(s.pool)
  {
    Measure(s.pool) + Out(s.pool.workers)
  }

  /** A step of a worker inside the loop, or the completion of one that has returned. */
  predicate Proceeds(s: Sys, a: Action) {
    Enabled(s, a) && ((a.Work? && !s.pool.workers[a.w].Parked? && !s.pool.workers[a.w].Returned?) || a.WorkerDone?)
  }

  lemma DoneNears(s: Sys, w: nat)
    requires PhaseInv(s) && Independent(s.pool.jobs) && Enabled(s, WorkerDone(w))
    ensures var s1 := Apply(s, WorkerDone(w));
      s1.main == InSystems || (Shape(s1.pool) && RoundLeft(s1) < RoundLeft(s) && s1.main == Waiting)
  {
    WorkerDoneKeeps(s, w);
    var p1 := Become(s.pool, w, Parked);
    OutUpdate(s.pool.workers, w, Parked);
    AllLeftUpdate(|s.pool.jobs|, s.pool.workers, w, Parked);
    assert WorkerOk(s.pool, s.pool.workers[w]);
    OutBounds(s.pool.workers);
    if s.active > 1 {
      assert Apply(s, WorkerDone(w)).pool == p1;
    }
  }

  /** The loop comes back to the systems: while workers are out some step proceeds, and each that does brings the
      systems nearer by a natural number or reaches them, in every interleaving. */
  lemma ComesBack(ss: seq<Sys>, actions: seq<Action>, workers: nat, k: nat)
    requires ChunkRun(ss, actions, workers) && workers > 0 && k < |ss|
    requires Out(ss[k].pool.workers) > 0
    ensures Shape(ss[k].pool) && exists a :: Proceeds(ss[k], a)
    ensures forall a :: Proceeds(ss[k], a) ==>
      var s1 := Apply(ss[k], a);
      s1.main == InSystems || (Shape(s1.pool) && RoundLeft(s1) < RoundLeft(ss[k]) && s1.main == Waiting)
  {
    var s := ss[k];
    RunInv(ss, actions, workers, k);
    NoDependencies(ss, actions, workers, k);
    OutBounds(s.pool.workers);
    var w :| 0 <= w < |s.pool.workers| && !s.pool.workers[w].Parked?;
    assert Proceeds(s, if s.pool.workers[w] == Returned then WorkerDone(w) else Work(w));
    forall a | Proceeds(s, a)
      ensures var s1 := Apply(s, a);
        s1.main == InSystems || (Shape(s1.pool) && RoundLeft(s1) < RoundLeft(s) && s1.main == Waiting)
    {
      if a.Work? {
        WorkKeeps(s, a.w);
        StepLowersMeasure(s.pool, a.w);
        NextMoves(s.pool, a.w);
        OutUpdate(s.pool.workers, a.w, Next(s.pool, a.w).workers[a.w]);
      } else {
        DoneNears(s, a.w);
      }
    }
  }

  // Jobs scheduled directly.

  /** Nothing raises the reader level, so a job scheduled directly on another never runs, and the systems are not
      reached again while it is in the arrays. */
  lemma DependentJobBlocks(ss: seq<Sys>, actions: seq<Action>, workers: nat, k: nat, j: nat)
    requires IsRun(ss, actions, workers) && workers > 0 && k < |ss|
    requires j < |ss[k].pool.jobs| && ss[k].pool.jobs[j].level > 0
    ensures ss[k].main != InSystems && ss[k].build != Queued
    ensures forall b: nat :: ss[k].pool.finished[(j, b)] == 0
  {
    RunInv(ss, actions, workers, k);
    var i := PositionOf(ss[k].pool.jobs, ss[k].pool.order, j);
  }

  const DependentJobs: seq<Job> := [Job(1, 1, 0, -1, 1), Job(1, 1, 1, 0, 1)]

  /** One worker at a job and one that depends on it. */
  function Working(worker: Worker, readIndex: nat, begin: nat, done: bool): Sys {
    var batches: multiset<(nat, nat)> := if done then multiset{(0, 0)} else multiset{};
    Sys(1, {}, Waiting, NoBuild, Pool(DependentJobs, [0, 1], 0, readIndex, [begin, 0], [worker], batches, batches),
        false, false)
  }

  ghost predicate Reachable(s: Sys) {
    exists ss, actions :: IsRun(ss, actions, 1) && ss[|actions|] == s
  }

  lemma Reach(s: Sys, a: Action, s1: Sys)
    requires Reachable(s) && IsStep(s, a, s1)
    ensures Reachable(s1)
  {
    var ss, actions :| IsRun(ss, actions, 1) && ss[|actions|] == s;
    var ss1, actions1 := ss + [s1], actions + [a];
    forall k | 0 <= k < |actions1| ensures IsStep(ss1[k], actions1[k], ss1[k + 1]) {
      if k < |actions| {
        assert IsStep(ss[k], actions[k], ss[k + 1]);
      }
    }
    assert IsRun(ss1, actions1, 1);
  }

  function Idle(active: nat, main: Main, build: Build, queued: bool, bits: set<Request>): Sys {
    Sys(active, bits, main, build, Pool([], [], 0, 0, [], [Parked], multiset{}, multiset{}), queued, false)
  }

  lemma ReachBuild()
    ensures Reachable(Idle(1, Waiting, Adding([]), true, {}))
  {
    assert Init(1).pool.workers == [Parked];
    assert IsRun([Init(1)], [], 1);
    Reach(Init(1), Signal(Timer), Idle(0, Waiting, NoBuild, false, {Timer}));
    Reach(Idle(0, Waiting, NoBuild, false, {Timer}), Wake, Idle(1, InSystems, NoBuild, false, {Timer}));
    assert {Timer} - {Timer} == {};
    Reach(Idle(1, InSystems, NoBuild, false, {Timer}), SystemsPass(true, false), Idle(1, Waiting, Queued, true, {}));
    Reach(Idle(1, Waiting, Queued, true, {}), BuildClear, Idle(1, Waiting, Adding([]), true, {}));
  }

  const Prebuilt: Sys := Working(Parked, 0, 0, false).(build := Built)

  lemma BuildSteps(first: Sys)
    requires first == Idle(1, Waiting, Adding([DependentJobs[0]]), true, {})
    ensures IsStep(Idle(1, Waiting, Adding([]), true, {}), BuildAdd(DependentJobs[0]), first)
    ensures IsStep(first, BuildAdd(DependentJobs[1]), Idle(1, Waiting, Adding(DependentJobs), true, {}))
  {
    assert [] + [DependentJobs[0]] == [DependentJobs[0]] && [DependentJobs[0]] + [DependentJobs[1]] == DependentJobs;
  }

  lemma LaunchSteps()
    ensures IsStep(Idle(1, Waiting, Adding(DependentJobs), true, {}), BuildPrepare([0, 1]), Prebuilt)
    ensures IsStep(Prebuilt, BuildDone, Working(Load(0), 0, 0, false))
  {
    assert NewPool(DependentJobs, [0, 1], [Parked]) == Prebuilt.pool;
    assert Launch(Working(Parked, 0, 0, false)).pool.workers == [Load(0)];
  }

  lemma ReachLaunch()
    ensures Reachable(Working(Load(0), 0, 0, false))
  {
    ReachBuild();
    var first := Idle(1, Waiting, Adding([DependentJobs[0]]), true, {});
    BuildSteps(first);
    LaunchSteps();
    hide *;
    Reach(Idle(1, Waiting, Adding([]), true, {}), BuildAdd(DependentJobs[0]), first);
    Reach(first, BuildAdd(DependentJobs[1]), Idle(1, Waiting, Adding(DependentJobs), true, {}));
    Reach(Idle(1, Waiting, Adding(DependentJobs), true, {}), BuildPrepare([0, 1]), Prebuilt);
    Reach(Prebuilt, BuildDone, Working(Load(0), 0, 0, false));
  }

  predicate AtJob(worker: Worker) {
    match worker
    case Fetch(r) => r < 2
    case Run(r, _) => r < 2
    case Advance(r) => r < 2
    case _ => true
  }

  lemma WorkingShape(worker: Worker, readIndex: nat, begin: nat, done: bool)
    requires AtJob(worker) && readIndex <= 2
    ensures Shape(Working(worker, readIndex, begin, done).pool)
  {
  }

  lemma WorkStep(worker: Worker, readIndex: nat, begin: nat, done: bool, s1: Sys)
    requires AtJob(worker) && readIndex <= 2
    requires Shape(Working(worker, readIndex, begin, done).pool) ==>
      s1 == Working(worker, readIndex, begin, done).(pool := Next(Working(worker, readIndex, begin, done).pool, 0))
    ensures IsStep(Working(worker, readIndex, begin, done), Work(0), s1)
  {
    WorkingShape(worker, readIndex, begin, done);
    hide Shape, Next;
  }

  lemma StartSteps()
    ensures IsStep(Working(Load(0), 0, 0, false), Work(0), Working(Check(0), 0, 0, false))
    ensures IsStep(Working(Check(0), 0, 0, false), Work(0), Working(Fetch(0), 0, 0, false))
    ensures IsStep(Working(Fetch(0), 0, 0, false), Work(0), Working(Run(0, 0), 0, 1, false))
  {
    hide Shape, IsStep;
    WorkStep(Load(0), 0, 0, false, Working(Check(0), 0, 0, false));
    WorkStep(Check(0), 0, 0, false, Working(Fetch(0), 0, 0, false));
    WorkStep(Fetch(0), 0, 0, false, Working(Run(0, 0), 0, 1, false));
  }

  lemma RunStep()
    ensures IsStep(Working(Run(0, 0), 0, 1, false), Work(0), Working(Fetch(0), 0, 1, true))
  {
    hide Shape, IsStep;
    assert BatchChunks(0, DependentJobs[0], 0) == multiset{(0, 0)} + ChunksFrom(0, 1, 1);
    WorkStep(Run(0, 0), 0, 1, false, Working(Fetch(0), 0, 1, true));
  }

  lemma FinishSteps()
    ensures IsStep(Working(Fetch(0), 0, 1, true), Work(0), Working(Advance(0), 0, 2, true))
    ensures IsStep(Working(Advance(0), 0, 2, true), Work(0), Working(Load(1), 1, 2, true))
  {
    hide Shape, IsStep;
    WorkStep(Fetch(0), 0, 1, true, Working(Advance(0), 0, 2, true));
    WorkStep(Advance(0), 0, 2, true, Working(Load(1), 1, 2, true));
  }

  /** The worker runs the first job. */
  lemma ReachSecond()
    ensures Reachable(Working(Load(1), 1, 2, true))
  {
    ReachLaunch();
    StartSteps();
    RunStep();
    FinishSteps();
    hide *;
    Reach(Working(Load(0), 0, 0, false), Work(0), Working(Check(0), 0, 0, false));
    Reach(Working(Check(0), 0, 0, false), Work(0), Working(Fetch(0), 0, 0, false));
    Reach(Working(Fetch(0), 0, 0, false), Work(0), Working(Run(0, 0), 0, 1, false));
    Reach(Working(Run(0, 0), 0, 1, false), Work(0), Working(Fetch(0), 0, 1, true));
    Reach(Working(Fetch(0), 0, 1, true), Work(0), Working(Advance(0), 0, 2, true));
    Reach(Working(Advance(0), 0, 2, true), Work(0), Working(Load(1), 1, 2, true));
  }

  /** After it the worker returns at the second. */
  lemma Returns(last: nat)
    ensures IsStep(Working(Load(last), 1, 2, true), Work(0), Working(Check(1), 1, 2, true))
    ensures IsStep(Working(Check(1), 1, 2, true), Work(0), Working(Returned, 1, 2, true))
    ensures IsStep(Working(Returned, 1, 2, true), WorkerDone(0), Working(Load(0), 1, 2, true))
  {
    hide Shape, IsStep;
    WorkStep(Load(last), 1, 2, true, Working(Check(1), 1, 2, true));
    WorkStep(Check(1), 1, 2, true, Working(Returned, 1, 2, true));
    DoneStep();
  }

  lemma DoneStep()
    ensures IsStep(Working(Returned, 1, 2, true), WorkerDone(0), Working(Load(0), 1, 2, true))
  {
    assert Launch(Working(Parked, 1, 2, true)).pool.workers == [Load(0)];
  }

  /** A reachable state with a job and one that depends on it, which recurs: the one worker has run the first,
      returns at the second, and is launched again. */
  lemma DependentJobRecurs()
    ensures var s := Working(Load(0), 1, 2, true);
      && Reachable(s) && DependentJobs[1].level > 0
      && IsStep(s, Work(0), Working(Check(1), 1, 2, true))
      && IsStep(Working(Check(1), 1, 2, true), Work(0), Working(Returned, 1, 2, true))
      && IsStep(Working(Returned, 1, 2, true), WorkerDone(0), s)
  {
    ReachSecond();
    Returns(0);
    Returns(1);
    assert DependentJobs[1].level > 0;
    hide *;
    Reach(Working(Load(1), 1, 2, true), Work(0), Working(Check(1), 1, 2, true));
    Reach(Working(Check(1), 1, 2, true), Work(0), Working(Returned, 1, 2, true));
    Reach(Working(Returned, 1, 2, true), WorkerDone(0), Working(Load(0), 1, 2, true));
  }
}
