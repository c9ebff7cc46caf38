/** The loop every worker thread runs over the shared job arrays (src/ECS/ThreadPool.cpp:358-392), as steps of
    any number of workers interleaved in any order. Each atomic access is one step. */
module WorkerLoop {
  import opened Collections

  /** A job as scheduled: the index of the job it depends on, or a negative number, and the number of chunks
      its query caches (src/ECS/JobChunk.cpp:8-37). */
  datatype Job = Job(batchCount: nat, stepSize: nat, level: nat, dependsOn: int, cacheCount: nat)

  /** Where a worker is. Parked workers are not inside the loop; r is the position in the job order the
      worker loaded. */
  datatype Worker =
    | Parked
    | Load(last: nat)          // about to load readIndex; every value it advanced past is below last
    | Check(r: nat)            // about to compare with writeIndex, then with the reader level
    | Fetch(r: nat)            // about to fetch-and-add the job's begin index
    | Run(r: nat, batch: nat)  // running that batch
    | Advance(r: nat)          // about to exchange readIndex r for r + 1
    | Returned

  /** begin[j] is job j's begin index; finished and ran count completed batches and executed chunks. */
  datatype Pool = Pool(jobs: seq<Job>, order: seq<nat>, readerLevel: nat, readIndex: nat, begin: seq<nat>,
                       workers: seq<Worker>, finished: multiset<(nat, nat)>, ran: multiset<(nat, nat)>)

  /** The chunks one batch executes: the batch's range, cut at the number of cached chunks. */
  function ChunksFrom(j: nat, from: nat, to: nat): (m: multiset<(nat, nat)>)
    ensures forall p :: m[p] == (if p.0 == j && from <= p.1 < to then 1 else 0)
    decreases if from < to then to - from else 0
  {
    if from < to then multiset{(j, from)} + ChunksFrom(j, from + 1, to) else multiset{}
  }

  function BatchChunks(j: nat, job: Job, batch: nat): multiset<(nat, nat)> {
    var from, to := batch * job.stepSize, batch * job.stepSize + job.stepSize;
    ChunksFrom(j, from, if to < job.cacheCount then to else job.cacheCount)
  }

  /** The order is a permutation of the jobs, lower levels first. */
  predicate Prepared(jobs: seq<Job>, order: seq<nat>) {
    && |order| == |jobs|
    && (forall i :: 0 <= i < |order| ==> order[i] < |jobs|)
    && (forall i, k :: 0 <= i < k < |order| ==> order[i] != order[k])
    && (forall i, k :: 0 <= i < k < |order| && order[i] < |jobs| && order[k] < |jobs| ==>
          jobs[order[i]].level <= jobs[order[k]].level)
  }

  predicate Shape(p: Pool) {
    && Prepared(p.jobs, p.order) && |p.begin| == |p.jobs| && p.readIndex <= |p.jobs|
    && forall w :: 0 <= w < |p.workers| ==> PositionOk(p, p.workers[w])
  }

  /** A worker past the write-index check holds a position inside the order. */
  predicate PositionOk(p: Pool, w: Worker) {
    match w
    case Fetch(r) => r < |p.order|
    case Run(r, _) => r < |p.order|
    case Advance(r) => r < |p.order|
    case _ => true
  }

  function Become(p: Pool, w: nat, worker: Worker): Pool
    requires w < |p.workers|
  {
    p.(workers := p.workers[w := worker])
  }

  /** One step of worker w. */
  function Next(p: Pool, w: nat): Pool
    requires Shape(p) && w < |p.workers|
  {
    match p.workers[w]
    case Parked | Returned => p
    case Load(_) => Become(p, w, Check(p.readIndex))
    case Check(r) =>
      if |p.jobs| <= r then Become(p, w, Returned)
      else if p.jobs[p.order[r]].level > p.readerLevel then Become(p, w, Returned)
      else Become(p, w, Fetch(r))
    case Fetch(r) =>
      var j := p.order[r];
      Become(p.(begin := p.begin[j := p.begin[j] + 1]), w,
             if p.begin[j] >= p.jobs[j].batchCount then Advance(r) else Run(r, p.begin[j]))
    case Run(r, batch) =>
      var j := p.order[r];
      Become(p.(finished := p.finished + multiset{(j, batch)}, ran := p.ran + BatchChunks(j, p.jobs[j], batch)), w,
             Fetch(r))
    case Advance(r) =>
      Become(if p.readIndex == r then p.(readIndex := r + 1) else p, w, Load(r + 1))
  }

  // Invariant.

  /** Jobs the read index has passed are exhausted and were allowed to start. */
  ghost predicate PassedOk(p: Pool)
    requires Shape(p)
  {
    forall i :: 0 <= i < p.readIndex ==>
      p.begin[p.order[i]] >= p.jobs[p.order[i]].batchCount && p.jobs[p.order[i]].level <= p.readerLevel
  }

  /** No batch of a job above the reader level has started. */
  ghost predicate LevelsOk(p: Pool)
    requires Shape(p)
  {
    forall j :: 0 <= j < |p.jobs| && p.begin[j] > 0 ==> p.jobs[j].level <= p.readerLevel
  }

  ghost predicate WorkerOk(p: Pool, w: Worker)
    requires Shape(p) && PositionOk(p, w)
  {
    match w
    case Parked => true
    case Load(last) => last <= p.readIndex
    case Check(r) => r <= p.readIndex
    case Fetch(r) => r <= p.readIndex && p.jobs[p.order[r]].level <= p.readerLevel
    case Run(r, batch) =>
      && r <= p.readIndex && p.jobs[p.order[r]].level <= p.readerLevel
      && batch < p.begin[p.order[r]] && batch < p.jobs[p.order[r]].batchCount
    case Advance(r) =>
      && r <= p.readIndex && p.jobs[p.order[r]].level <= p.readerLevel
      && p.begin[p.order[r]] >= p.jobs[p.order[r]].batchCount
    case Returned => Exhausted(p)
  }

  /** Nothing that may start is left behind the read index. */
  predicate Exhausted(p: Pool)
    requires Shape(p)
  {
    p.readIndex == |p.jobs| || p.jobs[p.order[p.readIndex]].level > p.readerLevel
  }

  /** The batch a worker is running, as (job, batch). */
  function Doing(p: Pool, w: Worker): (int, int) {
    if w.Run? && w.r < |p.order| then (p.order[w.r] as int, w.batch as int) else (-1, -1)
  }

  predicate Started(p: Pool, b: (nat, nat)) {
    b.0 < |p.jobs| && b.0 < |p.begin| && b.1 < p.begin[b.0] && b.1 < p.jobs[b.0].batchCount
  }

  predicate Does(p: Pool, w: nat, b: (nat, nat))
    requires w < |p.workers|
  {
    Doing(p, p.workers[w]) == (b.0 as int, b.1 as int)
  }

  /** Every started batch is finished once or is being run by one worker, not both; nothing else is. */
  ghost predicate BatchesOk(p: Pool) {
    && (forall b :: p.finished[b] <= 1)
    && (forall b :: b in p.finished ==> Started(p, b))
    && (forall w, b :: 0 <= w < |p.workers| && Does(p, w, b) ==> b !in p.finished)
    && (forall v, w :: 0 <= v < w < |p.workers| && Doing(p, p.workers[v]) != (-1, -1) ==>
          Doing(p, p.workers[v]) != Doing(p, p.workers[w]))
    && (forall b :: Started(p, b) && b !in p.finished ==> exists w :: 0 <= w < |p.workers| && Does(p, w, b))
  }

  /** The batch whose range holds chunk k. */
  function BatchOf(job: Job, k: nat): nat {
    if job.stepSize == 0 then 0 else k / job.stepSize
  }

  /** A chunk has been executed as often as the batch it belongs to has finished. */
  ghost predicate ChunksOk(p: Pool) {
    forall j: nat, k: nat :: p.ran[(j, k)] ==
      if j < |p.jobs| && p.jobs[j].stepSize > 0 && k < p.jobs[j].cacheCount
      then p.finished[(j, BatchOf(p.jobs[j], k))] else 0
  }

  ghost predicate Inv(p: Pool) {
    && Shape(p) && PassedOk(p) && LevelsOk(p) && BatchesOk(p) && ChunksOk(p)
    && forall w :: 0 <= w < |p.workers| ==> WorkerOk(p, p.workers[w])
  }

  // Each kind of step keeps it.

  /** The effect on the batch bookkeeping when only worker w moves. */
  ghost predicate OnlyMoves(p: Pool, p1: Pool, w: nat) {
    && w < |p.workers| == |p1.workers| && p1.jobs == p.jobs && p1.order == p.order
    && forall v :: 0 <= v < |p.workers| && v != w ==> p1.workers[v] == p.workers[v]
  }

  lemma BatchesSame(p: Pool, p1: Pool, w: nat)
    requires BatchesOk(p) && OnlyMoves(p, p1, w) && p1.finished == p.finished
    requires forall b :: Started(p1, b) <==> Started(p, b)
    requires !p.workers[w].Run? && !p1.workers[w].Run?
    ensures BatchesOk(p1)
  {
    forall v, b | 0 <= v < |p.workers| ensures Does(p1, v, b) <==> Does(p, v, b) {}
  }

  lemma BatchesStart(p: Pool, p1: Pool, w: nat, b: (nat, nat))
    requires BatchesOk(p) && OnlyMoves(p, p1, w) && p1.finished == p.finished
    requires !p.workers[w].Run? && Does(p1, w, b) && !Started(p, b)
    requires forall c :: Started(p1, c) <==> Started(p, c) || c == b
    requires forall v :: 0 <= v < |p.workers| && v != w ==> !Does(p, v, b)
    ensures BatchesOk(p1)
  {
    forall v, c | 0 <= v < |p.workers| ensures Does(p1, v, c) <==> Does(p, v, c) || (v == w && c == b) {}
    forall v | 0 <= v < |p.workers| && v != w ensures Doing(p1, p1.workers[v]) != Doing(p1, p1.workers[w]) {
      assert !Does(p, v, b);
    }
    forall c | Started(p1, c) && c !in p1.finished
      ensures exists v :: 0 <= v < |p1.workers| && Does(p1, v, c)
    {
      if c == b { assert Does(p1, w, c); }
    }
  }

  lemma BatchesFinish(p: Pool, p1: Pool, w: nat, b: (nat, nat))
    requires BatchesOk(p) && OnlyMoves(p, p1, w) && p1.finished == p.finished + multiset{b}
    requires p.workers[w].Run? && Does(p, w, b) && !p1.workers[w].Run? && Started(p, b)
    requires forall c :: Started(p1, c) <==> Started(p, c)
    ensures BatchesOk(p1)
  {
    forall v, c | 0 <= v < |p.workers| && v != w ensures Does(p1, v, c) <==> Does(p, v, c) {}
    forall v, c | 0 <= v < |p.workers| && Does(p1, v, c) ensures c !in p1.finished {
      assert v != w && Does(p, v, c);
    }
    forall c | Started(p1, c) && c !in p1.finished
      ensures exists v :: 0 <= v < |p1.workers| && Does(p1, v, c)
    {
      var v :| 0 <= v < |p.workers| && Does(p, v, c);
      assert Does(p1, v, c);
    }
  }

  /** What the other workers' positions rely on: nothing goes backwards. */
  ghost predicate Onward(p: Pool, p1: Pool)
    requires Shape(p) && Shape(p1)
  {
    && p1.jobs == p.jobs && p1.order == p.order && p1.readerLevel == p.readerLevel
    && p.readIndex <= p1.readIndex && (Exhausted(p) ==> p1.readIndex == p.readIndex)
    && forall j :: 0 <= j < |p.jobs| ==> p.begin[j] <= p1.begin[j]
  }

  lemma WorkersKept(p: Pool, p1: Pool, w: nat)
    requires Shape(p) && Shape(p1) && Onward(p, p1) && OnlyMoves(p, p1, w)
    requires forall v :: 0 <= v < |p.workers| ==> WorkerOk(p, p.workers[v])
    requires WorkerOk(p1, p1.workers[w])
    ensures forall v :: 0 <= v < |p1.workers| ==> WorkerOk(p1, p1.workers[v])
  {
    forall v | 0 <= v < |p1.workers| && v != w ensures WorkerOk(p1, p1.workers[v]) {
      assert WorkerOk(p, p.workers[v]);
    }
  }

  /** Steps that only move the worker. */
  lemma MoveKeeps(p: Pool, w: nat, worker: Worker)
    requires Inv(p) && w < |p.workers| && !p.workers[w].Run? && !worker.Run?
    requires PositionOk(p, worker) && WorkerOk(p, worker)
    ensures Inv(Become(p, w, worker))
  {
    var p1 := Become(p, w, worker);
    BatchesSame(p, p1, w);
    WorkersKept(p, p1, w);
  }

  lemma AdvanceKeeps(p: Pool, w: nat)
    requires Inv(p) && w < |p.workers| && p.workers[w].Advance?
    ensures Inv(Next(p, w))
  {
    var p1 := Next(p, w);
    assert WorkerOk(p, p.workers[w]);
    BatchesSame(p, p1, w);
    hide BatchesOk, ChunksOk;
    assert ChunksOk(p1) by { ChunksFollow(p, p1); }
    WorkersKept(p, p1, w);
  }

  lemma ChunksFollow(p: Pool, p1: Pool)
    requires ChunksOk(p) && p1.jobs == p.jobs && p1.finished == p.finished && p1.ran == p.ran
    ensures ChunksOk(p1)
  {
  }

  /** A batch that has not been handed out is run by nobody. */
  lemma NobodyDoes(p: Pool, b: (nat, nat))
    requires Shape(p) && b.0 < |p.jobs| && b.1 >= p.begin[b.0]
    requires forall v :: 0 <= v < |p.workers| ==> WorkerOk(p, p.workers[v])
    ensures forall v :: 0 <= v < |p.workers| ==> !Does(p, v, b)
  {
    forall v | 0 <= v < |p.workers| ensures !Does(p, v, b) {
      assert WorkerOk(p, p.workers[v]);
    }
  }

  /** The fetch-and-add: starts a batch that no worker was given before, or finds none left. */
  lemma FetchKeeps(p: Pool, w: nat)
    requires Inv(p) && w < |p.workers| && p.workers[w].Fetch?
    ensures Inv(Next(p, w))
  {
    var p1 := Next(p, w);
    var j := p.order[p.workers[w].r];
    var b := (j, p.begin[j]);
    assert WorkerOk(p, p.workers[w]);
    assert Shape(p1) && PassedOk(p1) && LevelsOk(p1);
    if p.begin[j] < p.jobs[j].batchCount {
      NobodyDoes(p, b);
      BatchesStart(p, p1, w, b);
    } else {
      BatchesSame(p, p1, w);
    }
    hide BatchesOk, ChunksOk, Does, Started, Doing, Prepared;
    assert ChunksOk(p1) by { ChunksFollow(p, p1); }
    WorkersKept(p, p1, w);
  }

  lemma RunKeeps(p: Pool, w: nat)
    requires Inv(p) && w < |p.workers| && p.workers[w].Run?
    ensures Inv(Next(p, w))
  {
    var p1 := Next(p, w);
    var j, batch := p.order[p.workers[w].r], p.workers[w].batch;
    BatchesFinish(p, p1, w, (j, batch));
    WorkersKept(p, p1, w);
    RanBatch(p, p1, j, batch);
  }

  /** A chunk lies in the range of a batch exactly when dividing by the step gives the batch. */
  lemma InRange(k: nat, step: nat, batch: nat)
    requires step > 0
    ensures batch * step <= k < batch * step + step <==> k / step == batch
  {
    var q, r := k / step, k % step;
    assert k == q * step + r;
    if q < batch {
      assert (q + 1) * step <= batch * step;
    } else if batch < q {
      assert (batch + 1) * step <= q * step;
    }
  }

  lemma RanBatch(p: Pool, p1: Pool, j: nat, batch: nat)
    requires ChunksOk(p) && j < |p.jobs| && p1.jobs == p.jobs
    requires p1.finished == p.finished + multiset{(j, batch)}
    requires p1.ran == p.ran + BatchChunks(j, p.jobs[j], batch)
    ensures ChunksOk(p1)
  {
    var job := p.jobs[j];
    forall i: nat, k: nat
      ensures p1.ran[(i, k)] ==
        if i < |p1.jobs| && p1.jobs[i].stepSize > 0 && k < p1.jobs[i].cacheCount
        then p1.finished[(i, BatchOf(p1.jobs[i], k))] else 0
    {
      if job.stepSize > 0 {
        InRange(k, job.stepSize, batch);
      }
    }
  }

  lemma NextKeeps(p: Pool, w: nat)
    requires Inv(p) && w < |p.workers|
    ensures Inv(Next(p, w))
  {
    match p.workers[w]
    case Parked =>
    case Returned =>
    case Load(_) => MoveKeeps(p, w, Check(p.readIndex));
    case Check(r) => MoveKeeps(p, w, Next(p, w).workers[w]);
    case Fetch(_) => FetchKeeps(p, w);
    case Run(_, _) => RunKeeps(p, w);
    case Advance(_) => AdvanceKeeps(p, w);
  }

  // Completion and termination.

  /** In a quiet pool whose workers all found nothing to do, a job that was allowed to start has run all its
      batches exactly once, and one that was not has run none. */
  lemma QuietComplete(p: Pool)
    requires Inv(p) && Exhausted(p)
    requires forall w :: 0 <= w < |p.workers| ==> p.workers[w].Parked? || p.workers[w].Returned?
    ensures forall j: nat, b: nat :: j < |p.jobs| && b < p.jobs[j].batchCount ==>
      p.finished[(j, b)] == if p.jobs[j].level <= p.readerLevel then 1 else 0
  {
    forall j: nat, b: nat | j < |p.jobs| && b < p.jobs[j].batchCount
      ensures p.finished[(j, b)] == if p.jobs[j].level <= p.readerLevel then 1 else 0
    {
      if p.jobs[j].level <= p.readerLevel {
        var i := PositionOf(p.jobs, p.order, j);
        assert i < p.readIndex;
        assert Started(p, (j, b));
      } else {
        assert !Started(p, (j, b));
      }
      assert forall w :: 0 <= w < |p.workers| ==> !Does(p, w, (j, b));
    }
  }

  /** Every job has a place in the order. */
  lemma PositionOf(jobs: seq<Job>, order: seq<nat>, j: nat) returns (i: nat)
    requires Prepared(jobs, order) && j < |jobs|
    ensures i < |order| && order[i] == j
  {
    if j !in order {
      ElementCount(order);
      SubsetSize(Elements(order), Below(|jobs|) - {j});
      assert false;
    }
    i :| 0 <= i < |order| && order[i] == j;
  }

  function Elements(xs: seq<nat>): (s: set<nat>)
    ensures forall x :: x in s <==> x in xs
  {
    set x | x in xs
  }

  lemma {:induction false} ElementCount(xs: seq<nat>)
    requires Distinct(xs)
    ensures |Elements(xs)| == |xs|
  {
    if xs != [] {
      var n := |xs| - 1;
      ElementCount(xs[..n]);
      assert xs == xs[..n] + [xs[n]];
      assert Elements(xs) == Elements(xs[..n]) + {xs[n]};
    }
  }

  /** How scheduleParallel and schedule cut a query's cached chunks into batches. */
  predicate CutsChunks(job: Job) {
    && job.cacheCount > 0
    && ((job.batchCount == job.cacheCount && job.stepSize == 1) || (job.batchCount == 1
          && job.stepSize == job.cacheCount))
  }

  /** So each cached chunk of such a job has been executed exactly once. */
  lemma QuietExecutedOnce(p: Pool, j: nat, k: nat)
    requires Inv(p) && Exhausted(p)
    requires forall w :: 0 <= w < |p.workers| ==> p.workers[w].Parked? || p.workers[w].Returned?
    requires j < |p.jobs| && CutsChunks(p.jobs[j]) && k < p.jobs[j].cacheCount && p.jobs[j].level <= p.readerLevel
    ensures p.ran[(j, k)] == 1
  {
    QuietComplete(p);
    assert BatchOf(p.jobs[j], k) < p.jobs[j].batchCount;
  }

  // Termination: every step of a worker inside the loop lowers a natural number.

  /** Batches still to be handed out. */
  function Unstarted(jobs: seq<Job>, begin: seq<nat>): nat
    requires |jobs| == |begin|
  {
    if jobs == [] then 0
    else
      var n := |jobs| - 1;
      Unstarted(jobs[..n], begin[..n]) + if begin[n] < jobs[n].batchCount then jobs[n].batchCount - begin[n] else 0
  }

  /** How far a worker still is from returning, in a pool of n jobs: the loop's own measure is n - r. */
  function Left(n: nat, w: Worker): nat {
    match w
    case Parked | Returned => 0
    case Load(last) => if last <= n then 8 * (n - last) + 8 else 0
    case Check(r) => if r <= n then 8 * (n - r) + 7 else 0
    case Fetch(r) => if r <= n then 8 * (n - r) + 5 else 0
    case Run(r, _) => if r <= n then 8 * (n - r) + 6 else 0
    case Advance(r) => if r <= n then 8 * (n - r) + 4 else 0
  }

  function AllLeft(n: nat, ws: seq<Worker>): nat {
    if ws == [] then 0 else AllLeft(n, ws[..|ws|-1]) + Left(n, ws[|ws|-1])
  }

  function Measure(p: Pool): nat
    requires Shape(p)
  {
    2 * Unstarted(p.jobs, p.begin) + AllLeft(|p.jobs|, p.workers)
  }

  lemma {:induction false} AllLeftUpdate(n: nat, ws: seq<Worker>, w: nat, worker: Worker)
    requires w < |ws|
    ensures AllLeft(n, ws[w := worker]) == AllLeft(n, ws) - Left(n, ws[w]) + Left(n, worker)
  {
    var m := |ws| - 1;
    if w == m {
      assert ws[w := worker][..m] == ws[..m];
    } else {
      assert ws[w := worker][..m] == ws[..m][w := worker];
      AllLeftUpdate(n, ws[..m], w, worker);
    }
  }

  lemma {:induction false} UnstartedUpdate(jobs: seq<Job>, begin: seq<nat>, j: nat)
    requires |jobs| == |begin| && j < |jobs|
    ensures Unstarted(jobs, begin[j := begin[j] + 1]) ==
      Unstarted(jobs, begin) - if begin[j] < jobs[j].batchCount then 1 else 0
  {
    var m := |jobs| - 1;
    if j == m {
      assert begin[j := begin[j] + 1][..m] == begin[..m];
    } else {
      assert begin[j := begin[j] + 1][..m] == begin[..m][j := begin[j] + 1];
      UnstartedUpdate(jobs[..m], begin[..m], j);
    }
  }

  /** The worker's own distance shrinks, except by one for each batch it is handed. */
  lemma LeftLowers(p: Pool, w: nat)
    requires Inv(p) && w < |p.workers| && !p.workers[w].Parked? && !p.workers[w].Returned?
    ensures var p1 := Next(p, w);
      Left(|p.jobs|, p1.workers[w]) < Left(|p.jobs|, p.workers[w]) + if p1.workers[w].Run? then 2 else 0
  {
    assert WorkerOk(p, p.workers[w]);
  }

  /** Whatever the interleaving, a step of a worker inside the loop lowers the measure, so any schedule brings
      every worker to its return. */
  lemma StepLowersMeasure(p: Pool, w: nat)
    requires Inv(p) && w < |p.workers| && !p.workers[w].Parked? && !p.workers[w].Returned?
    ensures Shape(Next(p, w)) && Measure(Next(p, w)) < Measure(p)
  {
    NextKeeps(p, w);
    LeftLowers(p, w);
    var p1 := Next(p, w);
    assert p1.workers == p.workers[w := p1.workers[w]];
    AllLeftUpdate(|p.jobs|, p.workers, w, p1.workers[w]);
    if p.workers[w].Fetch? {
      UnstartedUpdate(p.jobs, p.begin, p.order[p.workers[w].r]);
    }
  }
}
