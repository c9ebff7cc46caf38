/** The buffer that is to order jobs of conflicting queries (src/ECS/ComponentDependencyManager.cpp), and the building
    of a schedule with it (src/ECS/JobChunk.cpp:8-33, src/ECS/ThreadPool.cpp:326-357). */
module ComponentDependencies {
  import opened WorkerLoop
  import opened Scheduling
  import opened Types

  const MaximumReads: nat := 16
  const MaximumQueryTypes: nat := 32
  const MaximumTypes: nat := 0x1000

  /** A type of a query's All or Any part. */
  datatype Access = Access(typeId: nat, writes: bool)

  /** What the jobs scheduled so far do with one type: the last that writes it, and those that read it. */
  datatype Fences = Fences(write: int, readers: seq<int>)

  /** A query to schedule a job for. */
  datatype Request = Request(parallel: bool, cacheCount: nat, query: seq<Access>)

  /** A query with chunks and few types. */
  predicate Fits(request: Request) {
    request.cacheCount > 0 && |request.query| < MaximumQueryTypes
  }

  predicate AllSized(query: seq<Access>) {
    forall a :: a in query ==> !IsZeroSized(a.typeId)
  }

  /** One independent job for each request, in order. */
  predicate Scheduled(jobs: seq<Job>, requests: seq<Request>) {
    && |jobs| == |requests|
    && forall i :: 0 <= i < |jobs| ==> jobs[i] == ChunkJob(requests[i].parallel, requests[i].cacheCount, 0, -1)
  }

  /** A batch for each cached chunk, or one for all of them, and nothing to wait for. */
  predicate RunsFor(job: Job, request: Request) {
    && job.dependsOn == -1 && job.level == 0 && job.cacheCount == request.cacheCount
    && job.batchCount == (if request.parallel then request.cacheCount else 1)
    && job.stepSize == (if request.parallel then 1 else request.cacheCount)
  }

  lemma ScheduledRuns(jobs: seq<Job>, requests: seq<Request>)
    requires Scheduled(jobs, requests)
    ensures |jobs| == |requests| && forall i :: 0 <= i < |requests| ==> RunsFor(jobs[i], requests[i])
  {
  }

  lemma ScheduledMore(jobs: seq<Job>, requests: seq<Request>, i: nat)
    requires i < |requests| && Scheduled(jobs, requests[..i])
    ensures Scheduled(jobs + [ChunkJob(requests[i].parallel, requests[i].cacheCount, 0, -1)], requests[..i + 1])
  {
  }

  lemma NoJobs()
    ensures Scheduled([], []) && Independent([])
  {
  }

  function Key(t: nat): nat { t % MaximumTypes }

  predicate FencesOk(f: Fences, n: nat) {
    -1 <= f.write < n && |f.readers| < MaximumReads && Handles(f.readers, n)
  }

  function Backwards(s: seq<int>): seq<int> {
    if s == [] then [] else [s[|s| - 1]] + Backwards(s[..|s| - 1])
  }

  lemma {:induction false} BackwardsHandles(s: seq<int>, n: nat)
    requires Handles(s, n)
    ensures Handles(Backwards(s), n)
  {
    if s != [] {
      BackwardsHandles(s[..|s| - 1], n);
    }
  }

  /** The handles a job for the query has to wait for: a reader waits for the writer, a writer for both. */
  function Collected(query: seq<Access>, fences: map<nat, Fences>): seq<int> {
    if query == [] then []
    else
      var a := query[|query| - 1];
      Collected(query[..|query| - 1], fences) +
      if Key(a.typeId) !in fences then []
      else
        var f := fences[Key(a.typeId)];
        if a.writes then [f.write] + Backwards(f.readers) else [f.write]
  }

  /** A handle a job for the query has to wait for: of the last writer of a type it accesses, or of a reader of a type
      it writes. */
  predicate WaitsFor(query: seq<Access>, fences: map<nat, Fences>, h: int) {
    exists a :: a in query && a.typeId % MaximumTypes in fences
      && (h == fences[a.typeId % MaximumTypes].write || (a.writes && h in fences[a.typeId % MaximumTypes].readers))
  }

  lemma {:induction false} BackwardsSame(s: seq<int>, h: int)
    ensures h in Backwards(s) <==> h in s
  {
    if s != [] {
      BackwardsSame(s[..|s| - 1], h);
      assert s == s[..|s| - 1] + [s[|s| - 1]];
    }
  }

  /** Exactly these are collected, though combining ignores them. */
  lemma {:induction false} CollectedExactly(query: seq<Access>, fences: map<nat, Fences>, h: int)
    ensures h in Collected(query, fences) <==> WaitsFor(query, fences, h)
  {
    if query != [] {
      var n := |query| - 1;
      var a, key := query[n], Key(query[n].typeId);
      CollectedExactly(query[..n], fences, h);
      assert query == query[..n] + [a];
      if key in fences { BackwardsSame(fences[key].readers, h); }
      assert WaitsFor(query, fences, h) <==> WaitsFor(query[..n], fences, h) || WaitsFor([a], fences, h);
      assert WaitsFor([a], fences, h) <==>
        key in fences && (h == fences[key].write || (a.writes && h in fences[key].readers))
      by {
        assert a in [a];
      }
    }
  }

  lemma {:induction false} CollectedHandles(query: seq<Access>, fences: map<nat, Fences>, n: nat)
    requires forall k :: k in fences ==> FencesOk(fences[k], n)
    ensures Handles(Collected(query, fences), n)
  {
    if query != [] {
      CollectedHandles(query[..|query| - 1], fences, n);
      var key := Key(query[|query| - 1].typeId);
      if key in fences {
        BackwardsHandles(fences[key].readers, n);
      }
    }
  }

  /** The fences know of the job: a write fence is it; of the read fences it is the last, unless they were full and
      have been combined into null. */
  predicate Recorded(f: Fences, a: Access, job: int) {
    && (a.writes ==> f.write == job)
    && (!a.writes ==> |f.readers| > 0 && (f.readers[|f.readers| - 1] == job || f.readers == [-1]))
  }

  /** A type's fences after a job that accesses it; a full array of readers is combined into the null handle. */
  function After(f: Fences, a: Access, job: int): Fences {
    if a.writes then f.(write := job)
    else if |f.readers| + 1 == MaximumReads then f.(readers := [-1])
    else f.(readers := f.readers + [job])
  }

  function Noted(fences: map<nat, Fences>, a: Access, job: int): map<nat, Fences> {
    var key := Key(a.typeId);
    fences[key := After(if key in fences then fences[key] else Fences(-1, []), a, job)]
  }

  /** A later access by the same job leaves what is recorded. */
  lemma NotedKeeps(fences: map<nat, Fences>, a: Access, b: Access, job: nat)
    requires Key(b.typeId) in fences && Recorded(fences[Key(b.typeId)], b, job)
    ensures Recorded(Noted(fences, a, job)[Key(b.typeId)], b, job)
  {
  }

  lemma AfterRecords(f: Fences, a: Access, b: Access, job: nat, n: nat)
    requires FencesOk(f, n) && job < n
    ensures FencesOk(After(f, a, job), n) && Recorded(After(f, a, job), a, job)
    ensures Recorded(f, b, job) ==> Recorded(After(f, a, job), b, job)
  {
  }

  function NotedAll(fences: map<nat, Fences>, query: seq<Access>, job: int): map<nat, Fences> {
    if query == [] then fences
    else Noted(NotedAll(fences, query[..|query| - 1], job), query[|query| - 1], job)
  }

  lemma {:induction false} NotedAllRecords(fences: map<nat, Fences>, query: seq<Access>, job: nat)
    ensures forall k :: k in NotedAll(fences, query, job) <==>
      k in fences || exists a :: a in query && Key(a.typeId) == k
    ensures forall a :: a in query ==> Recorded(NotedAll(fences, query, job)[Key(a.typeId)], a, job)
    ensures forall k :: k in fences && (forall a :: a in query ==> a.typeId % MaximumTypes != k) ==>
      NotedAll(fences, query, job)[k] == fences[k]
  {
    if query != [] {
      var n := |query| - 1;
      NotedAllRecords(fences, query[..n], job);
      var before := NotedAll(fences, query[..n], job);
      assert query == query[..n] + [query[n]];
      forall a | a in query ensures Recorded(Noted(before, query[n], job)[Key(a.typeId)], a, job) {
        if a in query[..n] {
          NotedKeeps(before, query[n], a, job);
        }
      }
    }
  }

  /** The query's type at q has no size and no fences when its turn comes. */
  predicate Unfenced(query: seq<Access>, fences: map<nat, Fences>, q: nat)
    requires q < |query|
  {
    && IsZeroSized(query[q].typeId) && Key(query[q].typeId) !in fences
    && forall p :: 0 <= p < q ==> Key(query[p].typeId) != Key(query[q].typeId)
  }

  lemma UnfencedAt(query: seq<Access>, fences: map<nat, Fences>, q: nat, job: nat)
    requires q < |query|
    ensures Unfenced(query, fences, q) <==>
      IsZeroSized(query[q].typeId) && Key(query[q].typeId) !in NotedAll(fences, query[..q], job)
  {
    NotedAllRecords(fences, query[..q], job);
    forall p | 0 <= p < q ensures query[p] in query[..q] {}
  }

  /** The index array and the fences it leads to are one map here, from the type's index. */
  class Manager {
    const arrays: JobArrays
    var fences: map<nat, Fences>

    /** Every fence is a scheduled job or null, and no array of read fences is full. */
    ghost predicate Valid()
      reads this, arrays
    {
      && arrays.Valid() && Independent(arrays.jobs)
      && forall k :: k in fences ==> FencesOk(fences[k], |arrays.jobs|)
    }

    constructor (arrays: JobArrays)
      requires arrays.Valid() && arrays.jobs == []
      ensures Valid() && this.arrays == arrays
    {
      this.arrays := arrays;
      fences := map[];
    }

    /** Every dependency is the null handle: the fences are null or jobs of level 0, and combining ignores both. */
    method GetDependency(query: seq<Access>, beyond: nat) returns (r: Dependency)
      requires Valid()
      ensures r == if |query| >= MaximumQueryTypes then TooBigQuery else On(-1)
    {
      if |query| >= MaximumQueryTypes {
        return TooBigQuery;
      }
      if query == [] {
        return On(-1);
      }
      var handles := CollectFences(query);
      CollectedHandles(query, fences, |arrays.jobs|);
      NothingToCombine(arrays.jobs, handles, beyond);
      r := arrays.CombineDependencies(handles, beyond);
    }

    /** The handles that are combined: exactly those a job for the query has to wait for. */
    method CollectFences(query: seq<Access>) returns (handles: seq<int>)
      ensures handles == Collected(query, fences)
      ensures forall h :: h in handles <==> WaitsFor(query, fences, h)
    {
      handles := [];
      for q := 0 to |query|
        invariant handles == Collected(query[..q], fences)
      {
        assert query[..q + 1][..q] == query[..q];
        var key := Key(query[q].typeId);
        if key in fences {
          var f := fences[key];
          if query[q].writes {
            var back := ReadBackwards(f.readers);
            handles := handles + ([f.write] + back);
          } else {
            handles := handles + [f.write];
          }
        }
      }
      assert query[..|query|] == query;
      forall h ensures h in handles <==> WaitsFor(query, fences, h) {
        CollectedExactly(query, fences, h);
      }
    }

    method AddToFences(f: Fences, a: Access, job: nat) returns (r: Fences)
      requires arrays.Valid() && Independent(arrays.jobs) && FencesOk(f, |arrays.jobs|) && job < |arrays.jobs|
      ensures r == After(f, a, job)
    {
      if a.writes {
        return f.(write := job);
      }
      var readers := f.readers + [job as int];
      if |readers| == MaximumReads {
        NothingToCombine(arrays.jobs, readers, 0);
        var combined := arrays.CombineDependencies(readers, 0);
        readers := [combined.handle];
      }
      r := f.(readers := readers);
    }

    /** A type without size is refused unless its index is known. */
    method NoteAccess(a: Access, job: nat) returns (ok: bool)
      requires Valid() && job < |arrays.jobs|
      modifies this
      ensures Valid()
      ensures !ok <==> IsZeroSized(a.typeId) && Key(a.typeId) !in old(fences)
      ensures fences == if ok then Noted(old(fences), a, job) else old(fences)
    {
      var key := Key(a.typeId);
      if key !in fences {
        if IsZeroSized(a.typeId) {
          return false;
        }
        fences := fences[key := Fences(-1, [])];
      }
      AfterRecords(fences[key], a, a, job, |arrays.jobs|);
      var f := AddToFences(fences[key], a, job);
      fences := fences[key := f];
      ok := true;
    }

    /** Records a scheduled job under every type of its query, and stops at a type without size. */
    method AddDependency(job: nat, query: seq<Access>) returns (ok: bool)
      requires Valid() && job < |arrays.jobs|
      modifies this
      ensures Valid()
      ensures ok <==> forall q :: 0 <= q < |query| ==> !Unfenced(query, old(fences), q)
      ensures ok ==> fences == NotedAll(old(fences), query, job)
    {
      hide LevelsLinked, Independent, FencesOk, Unfenced, After;
      for q := 0 to |query|
        invariant Valid()
        invariant fences == NotedAll(old(fences), query[..q], job)
        invariant forall p :: 0 <= p < q ==> !Unfenced(query, old(fences), p)
      {
        assert query[..q + 1][..q] == query[..q];
        UnfencedAt(query, old(fences), q, job);
        ok := NoteAccess(query[q], job);
        if !ok {
          return;
        }
      }
      assert query[..|query|] == query;
      ok := true;
    }

    /** Schedules a chunk job. The job depends on nothing and has level 0, whatever the queries of the jobs
        before it read and write. A type without size is noticed only when the job is in the arrays. */
    method ScheduleJob(request: Request, beyond: nat) returns (r: Outcome)
      requires Valid()
      modifies this, arrays
      ensures Valid()
      ensures r.Handle? || r == ZeroSizedType <==> Fits(request) && |old(arrays.jobs)| <= MaximumCount
      ensures r.Handle? || r == ZeroSizedType ==>
        arrays.jobs == old(arrays.jobs) + [ChunkJob(request.parallel, request.cacheCount, 0, -1)]
      ensures r.Handle? || r == ZeroSizedType ==> |arrays.jobs| > 0 && RunsFor(arrays.jobs[|arrays.jobs| - 1], request)
      ensures r == ZeroSizedType ==> !AllSized(request.query)
      ensures r.Handle? ==> forall q :: 0 <= q < |request.query| ==> !Unfenced(request.query, old(fences), q)
      ensures r.Handle? ==> fences == NotedAll(old(fences), request.query, r.index)
      ensures r.Handle? ==> r.index == |old(arrays.jobs)|
      ensures !r.Handle? && r != ZeroSizedType ==> arrays.jobs == old(arrays.jobs)
    {
      hide LevelsLinked, NotedAll, After, CutsChunks;
      var dependsOn := GetDependency(request.query, beyond);
      if dependsOn == TooBigQuery {
        return TooManyTypes;
      }
      r := arrays.ScheduleChunks(request.parallel, request.cacheCount, dependsOn.handle);
      if r.Handle? {
        var ok := AddDependency(r.index, request.query);
        if !ok {
          r := ZeroSizedType;
        }
      }
    }

    /** Builds a schedule: one independent job for each request, in order, and all arrays ready for the workers. */
    method BuildSchedule(requests: seq<Request>, beyond: nat) returns (ok: bool)
      requires Valid()
      modifies this, arrays
      ensures Valid()
      ensures ok ==> Prepared(arrays.jobs, arrays.order) && Scheduled(arrays.jobs, requests)
      ensures ok ==> forall i :: 0 <= i < |requests| ==> RunsFor(arrays.jobs[i], requests[i])
      ensures ok ==> forall i :: 0 <= i < |requests| ==> Fits(requests[i])
      ensures !ok && |requests| <= MaximumCount ==>
        exists i :: 0 <= i < |requests| && !(Fits(requests[i]) && AllSized(requests[i].query))
    {
      hide LevelsLinked, Independent, FencesOk, Scheduled, Fits, AllSized, ChunkJob, RunsFor;
      assert Scheduled([], []) && Independent([]) by { NoJobs(); }
      fences := map[];
      arrays.Clear();
      for i := 0 to |requests|
        invariant Valid() && Scheduled(arrays.jobs, requests[..i])
        invariant |arrays.jobs| == i && forall j :: 0 <= j < i ==> Fits(requests[j])
      {
        ScheduledMore(arrays.jobs, requests, i);
        var r := ScheduleJob(requests[i], beyond);
        if !r.Handle? {
          return false;
        }
      }
      assert requests[..|requests|] == requests;
      arrays.PrepareJobs();
      ScheduledRuns(arrays.jobs, requests);
      ok := true;
    }
  }

  method ReadBackwards(readers: seq<int>) returns (r: seq<int>)
    ensures r == Backwards(readers)
  {
    r := [];
    var n := |readers|;
    assert readers[..n] == readers;
    while n > 0
      invariant 0 <= n <= |readers|
      invariant r + Backwards(readers[..n]) == Backwards(readers)
    {
      n := n - 1;
      assert readers[..n + 1][..n] == readers[..n];
      r := r + [readers[n]];
    }
  }
}
