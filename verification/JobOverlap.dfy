/** What follows for jobs of conflicting queries: any two jobs of a schedule can run at the same time
    (src/ECS/ThreadPool.cpp:326-392). */
module JobOverlap {
  import opened WorkerLoop
  import opened Scheduling
  import opened ComponentDependencies
  import opened Phases

  /** A state of the engine with that many workers, whose schedules consist of chunk jobs. */
  ghost predicate ChunkReachable(s: Sys, workers: nat) {
    exists ss, actions :: ChunkRun(ss, actions, workers) && ss[|actions|] == s
  }

  lemma ReachNext(s: Sys, workers: nat, a: Action, s1: Sys)
    requires ChunkReachable(s, workers) && IsStep(s, a, s1) && !a.BuildAdd?
    ensures ChunkReachable(s1, workers)
  {
    var ss, actions :| ChunkRun(ss, actions, workers) && ss[|actions|] == s;
    var ss1, actions1 := ss + [s1], actions + [a];
    forall k | 0 <= k < |actions1| ensures IsStep(ss1[k], actions1[k], ss1[k + 1]) && !actions1[k].BuildAdd? {
      if k < |actions| {
        assert IsStep(ss[k], actions[k], ss[k + 1]);
      }
    }
    assert ChunkRun(ss1, actions1, workers);
  }

  // The schedule is built and the workers are launched.

  function Resting(workers: nat, active: nat, main: Main, build: Build, queued: bool, bits: set<Phases.Request>): Sys {
    Sys(active, bits, main, build, NewPool([], [], seq(workers, _ => Parked)), queued, false)
  }

  lemma ReachBuild(workers: nat)
    ensures ChunkReachable(Resting(workers, 1, Waiting, Adding([]), true, {}), workers)
  {
    var s0 := Init(workers);
    assert ChunkRun([s0], [], workers);
    var s1 := s0.(bits := {Timer});
    ReachNext(s0, workers, Signal(Timer), s1);
    var s2 := s1.(active := 1, main := InSystems);
    ReachNext(s1, workers, Wake, s2);
    assert {Timer} - {Timer} == {};
    var s3 := Resting(workers, 1, Waiting, Queued, true, {});
    ReachNext(s2, workers, SystemsPass(true, false), s3);
    ReachNext(s3, workers, BuildClear, Resting(workers, 1, Waiting, Adding([]), true, {}));
  }

  /** The jobs for the first n requests are in the arrays. */
  lemma {:induction false} ReachJobs(requests: seq<ComponentDependencies.Request>, n: nat, jobs: seq<Job>, workers: nat)
    requires n <= |requests| && Scheduled(jobs, requests[..n])
    requires forall i :: 0 <= i < |requests| ==> Fits(requests[i])
    ensures ChunkReachable(Resting(workers, 1, Waiting, Adding(jobs), true, {}), workers)
  {
    if n == 0 {
      assert jobs == [];
      ReachBuild(workers);
    } else {
      var before, r := jobs[..n - 1], requests[n - 1];
      ReachJobs(requests, n - 1, before, workers);
      var s := Resting(workers, 1, Waiting, Adding(before), true, {});
      assert Combined(before, [], 0) == -1;
      assert jobs == before + [FencedJob(before, r.parallel, r.cacheCount, [])];
      ReachNext(s, workers, BuildChunks(r.parallel, r.cacheCount, []), s.(build := Adding(jobs)));
    }
  }

  /** The arrays as prepareJobs leaves them, every worker launched. */
  function Launched(jobs: seq<Job>, order: seq<nat>, workers: nat): Sys {
    Sys(workers, {}, Waiting, NoBuild, NewPool(jobs, order, seq(workers, _ => Load(0))), false, false)
  }

  lemma ReachLaunch(requests: seq<ComponentDependencies.Request>, jobs: seq<Job>, order: seq<nat>, workers: nat)
    requires Scheduled(jobs, requests) && jobs != [] && Prepared(jobs, order) && workers > 0
    requires forall i :: 0 <= i < |requests| ==> Fits(requests[i])
    ensures ChunkReachable(Launched(jobs, order, workers), workers)
  {
    assert requests[..|requests|] == requests;
    ReachJobs(requests, |requests|, jobs, workers);
    var s := Resting(workers, 1, Waiting, Adding(jobs), true, {});
    var s1 := s.(build := Built, queued := false, pool := NewPool(jobs, order, s.pool.workers));
    ReachNext(s, workers, BuildPrepare(order), s1);
    ReachNext(s1, workers, BuildDone, Launched(jobs, order, workers));
  }

  // Workers at the arrays. A turn of worker w leaves the rest of the engine and the other workers as they are.

  predicate OnlyTurns(s: Sys, t: Sys, w: nat) {
    && t == s.(pool := t.pool) && Shape(s.pool) && Shape(t.pool)
    && t.pool.jobs == s.pool.jobs && t.pool.order == s.pool.order && t.pool.readerLevel == s.pool.readerLevel
    && |t.pool.workers| == |s.pool.workers|
    && forall v :: 0 <= v < |s.pool.workers| && v != w ==> t.pool.workers[v] == s.pool.workers[v]
  }

  lemma NextShape(p: Pool, w: nat)
    requires Shape(p) && w < |p.workers|
    ensures Shape(Next(p, w))
  {
    assert |p.order| == |p.jobs|;
    hide Prepared, BatchChunks;
  }

  lemma NextSame(p: Pool, w: nat)
    requires Shape(p) && w < |p.workers|
    ensures var q := Next(p, w);
      && q.jobs == p.jobs && q.order == p.order && q.readerLevel == p.readerLevel && |q.workers| == |p.workers|
      && forall v :: 0 <= v < |p.workers| && v != w ==> q.workers[v] == p.workers[v]
  {
    hide Prepared, BatchChunks;
  }

  lemma Turn(s: Sys, workers: nat, w: nat) returns (t: Sys)
    requires ChunkReachable(s, workers) && Shape(s.pool) && w < |s.pool.workers|
    ensures t == s.(pool := Next(s.pool, w)) && ChunkReachable(t, workers) && OnlyTurns(s, t, w)
  {
    NextShape(s.pool, w);
    NextSame(s.pool, w);
    hide Next, Shape, ChunkReachable;
    t := s.(pool := Next(s.pool, w));
    ReachNext(s, workers, Work(w), t);
  }

  /** The worker runs what is left of the job and finds it exhausted. */
  lemma {:induction false} Drain(s: Sys, workers: nat, w: nat, r: nat) returns (t: Sys)
    requires ChunkReachable(s, workers) && Shape(s.pool) && w < |s.pool.workers| && s.pool.workers[w] == Fetch(r)
    ensures ChunkReachable(t, workers) && OnlyTurns(s, t, w)
    ensures t.pool.workers[w] == Advance(r) && t.pool.readIndex == s.pool.readIndex
    ensures forall j :: 0 <= j < |s.pool.jobs| && j != s.pool.order[r] ==> t.pool.begin[j] == s.pool.begin[j]
    decreases s.pool.jobs[s.pool.order[r]].batchCount - s.pool.begin[s.pool.order[r]]
  {
    t := Turn(s, workers, w);
    if t.pool.workers[w].Run? {
      t := Turn(t, workers, w);
      t := Drain(t, workers, w, r);
    }
  }

  predicate AllAllowed(p: Pool) {
    forall j :: 0 <= j < |p.jobs| ==> p.jobs[j].level <= p.readerLevel
  }

  /** From the job at r, at which the read index stands, to the job at k. */
  lemma {:induction false} Proceed(s: Sys, workers: nat, w: nat, r: nat, k: nat) returns (t: Sys)
    requires ChunkReachable(s, workers) && Shape(s.pool) && AllAllowed(s.pool)
    requires w < |s.pool.workers| && s.pool.workers[w] == Fetch(r) && s.pool.readIndex == r <= k < |s.pool.order|
    ensures ChunkReachable(t, workers) && OnlyTurns(s, t, w)
    ensures t.pool.workers[w] == Fetch(k) && t.pool.readIndex == k
    ensures forall m :: k <= m < |s.pool.order| ==> t.pool.begin[s.pool.order[m]] == s.pool.begin[s.pool.order[m]]
    decreases k - r
  {
    t := s;
    if r < k {
      t := Drain(s, workers, w, r);
      t := Turn(t, workers, w);
      t := Turn(t, workers, w);
      t := Turn(t, workers, w);
      t := Proceed(t, workers, w, r + 1, k);
    }
  }

  /** A worker that has just been launched comes to start the job at k, of which no batch has been handed out. */
  lemma StartAt(s: Sys, workers: nat, w: nat, k: nat) returns (t: Sys)
    requires ChunkReachable(s, workers) && Shape(s.pool) && AllAllowed(s.pool)
    requires w < |s.pool.workers| && s.pool.workers[w] == Load(0) && s.pool.readIndex <= k < |s.pool.order|
    requires s.pool.begin[s.pool.order[k]] == 0 < s.pool.jobs[s.pool.order[k]].batchCount
    ensures ChunkReachable(t, workers) && OnlyTurns(s, t, w)
    ensures t.pool.workers[w] == Run(k, 0) && t.pool.readIndex == k
    ensures forall m :: k < m < |s.pool.order| ==> t.pool.begin[s.pool.order[m]] == s.pool.begin[s.pool.order[m]]
  {
    t := Turn(s, workers, w);
    t := Turn(t, workers, w);
    t := Proceed(t, workers, w, s.pool.readIndex, k);
    t := Turn(t, workers, w);
  }

  predicate AllCut(jobs: seq<Job>) {
    forall j :: 0 <= j < |jobs| ==> jobs[j].level == 0 && jobs[j].batchCount > 0
  }

  lemma LaunchedShape(jobs: seq<Job>, order: seq<nat>, workers: nat)
    requires Prepared(jobs, order) && AllCut(jobs)
    ensures Shape(Launched(jobs, order, workers).pool) && AllAllowed(Launched(jobs, order, workers).pool)
  {
  }

  /** Worker v starts the job at i, then w passes it and starts the job at k. */
  lemma BothStart(jobs: seq<Job>, order: seq<nat>, workers: nat, v: nat, i: nat, w: nat, k: nat) returns (s: Sys)
    requires Prepared(jobs, order) && AllCut(jobs) && ChunkReachable(Launched(jobs, order, workers), workers)
    requires v < workers && w < workers && v != w && i < k < |order|
    ensures ChunkReachable(s, workers) && s.pool.jobs == jobs && s.pool.order == order && |s.pool.workers| == workers
    ensures Doing(s.pool, s.pool.workers[v]) == (order[i], 0) && Doing(s.pool, s.pool.workers[w]) == (order[k], 0)
  {
    var s0 := Launched(jobs, order, workers);
    LaunchedShape(jobs, order, workers);
    assert s0.pool.begin[order[i]] == 0 == s0.pool.begin[order[k]];
    hide Shape, ChunkReachable, Prepared;
    var s1 := StartAt(s0, workers, v, i);
    s := StartAt(s1, workers, w, k);
  }

  /** Any two jobs of any schedule run at the same time at any two workers, in some interleaving, whatever their
      queries read and write, and whichever way their chunks are cut: a reachable state in which v runs the first
      batch of job a while w runs that of job b. */
  lemma ConflictingJobsOverlap(requests: seq<ComponentDependencies.Request>, order: seq<nat>, workers: nat, v: nat,
                               w: nat, a: nat, b: nat) returns (s: Sys)
    requires forall i :: 0 <= i < |requests| ==> Fits(requests[i])
    requires v < workers && w < workers && v != w && a < |requests| && b < |requests| && a != b
    requires Prepared(JobsOf(requests), order)
    ensures ChunkReachable(s, workers) && s.pool.jobs == JobsOf(requests) && s.pool.order == order
    ensures |s.pool.workers| == workers
    ensures Doing(s.pool, s.pool.workers[v]) == (a, 0) && Doing(s.pool, s.pool.workers[w]) == (b, 0)
  {
    var jobs := JobsOf(requests);
    assert AllCut(jobs);
    ReachLaunch(requests, jobs, order, workers);
    hide AllCut, ChunkReachable, Prepared, Scheduled, Fits, Launched;
    var i := PositionOf(jobs, order, a);
    var k := PositionOf(jobs, order, b);
    if i < k {
      s := BothStart(jobs, order, workers, v, i, w, k);
    } else {
      s := BothStart(jobs, order, workers, w, k, v, i);
    }
  }

  /** The jobs a schedule of these requests consists of. */
  function JobsOf(requests: seq<ComponentDependencies.Request>): (jobs: seq<Job>)
    ensures Scheduled(jobs, requests)
  {
    seq(|requests|, i requires 0 <= i < |requests| => ChunkJob(requests[i].parallel, requests[i].cacheCount, 0, -1))
  }
}
