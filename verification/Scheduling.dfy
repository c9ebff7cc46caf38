/** Building the job arrays (src/ECS/ThreadPool.cpp:72-123, src/ECS/JobChunk.cpp:8-37). */
module Scheduling {
  import opened WorkerLoop

  const MaximumCount: nat := 0x7FFF_FFFF

  datatype Outcome =
    | Handle(index: nat)
    | InvalidArgument
    | Full
    | InvalidDependency
    | TooManyTypes
    | ZeroSizedType

  /** What a job may depend on: a handle, where a negative index is the null handle. */
  datatype Dependency = On(handle: int) | InvalidHandles | TooBigQuery

  /** A job's level is one above that of the job it depends on, which was scheduled earlier. */
  predicate LevelsLinked(jobs: seq<Job>) {
    forall j :: 0 <= j < |jobs| ==>
      && jobs[j].dependsOn < j
      && jobs[j].level == (if jobs[j].dependsOn < 0 then 0 else jobs[jobs[j].dependsOn].level + 1)
  }

  // Combining dependencies. The test for invalid handles lets the index of the next job through, whose level is
  // then read from memory no job has written: beyond.

  function LevelOf(jobs: seq<Job>, handle: int, beyond: nat): nat {
    if handle < 0 then 0 else if handle < |jobs| then jobs[handle].level else beyond
  }

  /** The first handle of the highest level, but null if that level is 0. */
  function Combined(jobs: seq<Job>, handles: seq<int>, beyond: nat): int {
    if handles == [] then -1
    else
      var max, last := Combined(jobs, handles[..|handles| - 1], beyond), handles[|handles| - 1];
      if LevelOf(jobs, last, beyond) > LevelOf(jobs, max, beyond) then last else max
  }

  predicate FirstAt(jobs: seq<Job>, handles: seq<int>, beyond: nat, r: int, i: nat) {
    && i < |handles| && handles[i] == r
    && forall k :: 0 <= k < i ==> LevelOf(jobs, handles[k], beyond) < LevelOf(jobs, r, beyond)
  }

  /** The combined handle is null exactly when every handle is null or of level 0; otherwise it is one of them, no
      other has a higher level, and none before it as high a one. */
  lemma {:induction false} CombinedHighest(jobs: seq<Job>, handles: seq<int>, beyond: nat)
    ensures var r := Combined(jobs, handles, beyond);
      && (r < 0 <==> forall h :: h in handles ==> LevelOf(jobs, h, beyond) == 0)
      && (r < 0 ==> r == -1) && (r >= 0 ==> r in handles)
      && (forall h :: h in handles ==> LevelOf(jobs, h, beyond) <= LevelOf(jobs, r, beyond))
      && (r >= 0 ==> exists i: nat :: FirstAt(jobs, handles, beyond, r, i))
  {
    if handles != [] {
      var n := |handles| - 1;
      CombinedHighest(jobs, handles[..n], beyond);
      assert handles == handles[..n] + [handles[n]];
      var r := Combined(jobs, handles, beyond);
      if r >= 0 {
        assert r in handles;
        if LevelOf(jobs, handles[n], beyond) > LevelOf(jobs, Combined(jobs, handles[..n], beyond), beyond) {
          forall k | 0 <= k < n ensures LevelOf(jobs, handles[k], beyond) < LevelOf(jobs, r, beyond) {
            assert handles[..n][k] in handles[..n];
          }
          assert FirstAt(jobs, handles, beyond, r, n);
        } else {
          var i: nat :| FirstAt(jobs, handles[..n], beyond, r, i);
          assert FirstAt(jobs, handles, beyond, r, i);
        }
      }
    }
  }

  /** Jobs that depend on nothing. */
  predicate Independent(jobs: seq<Job>) {
    forall j :: 0 <= j < |jobs| ==> jobs[j].dependsOn == -1 && jobs[j].level == 0
  }

  predicate Handles(handles: seq<int>, n: nat) {
    forall i :: 0 <= i < |handles| ==> -1 <= handles[i] < n
  }

  /** Over independent jobs every dependency combines to the null handle. */
  lemma NothingToCombine(jobs: seq<Job>, handles: seq<int>, beyond: nat)
    requires Independent(jobs) && Handles(handles, |jobs|)
    ensures Combined(jobs, handles, beyond) == -1
  {
    CombinedHighest(jobs, handles, beyond);
  }

  /** The job a wrapper schedules for a query: one batch per cached chunk, or one batch for all of them. */
  function ChunkJob(parallel: bool, cacheCount: nat, level: nat, dependsOn: int): Job {
    if parallel then Job(cacheCount, 1, level, dependsOn, cacheCount)
    else Job(1, cacheCount, level, dependsOn, cacheCount)
  }

  /** A sorted arrangement of the first n jobs. */
  predicate SortedPrefix(jobs: seq<Job>, order: seq<nat>, n: nat) {
    && |order| == n <= |jobs|
    && (forall i :: 0 <= i < n ==> order[i] < n)
    && (forall i, k :: 0 <= i < k < n ==> order[i] != order[k])
    && (forall i, k :: 0 <= i < k < n && order[i] < n && order[k] < n ==> jobs[order[i]].level <= jobs[order[k]].level)
  }

  /** Two places of the arrangement that has job n = |sorted| put in at k. */
  lemma InsertPair(jobs: seq<Job>, sorted: seq<nat>, k: nat, i: nat, j: nat)
    requires SortedPrefix(jobs, sorted, |sorted|) && |sorted| < |jobs| && k <= |sorted|
    requires forall m :: k <= m < |sorted| ==> jobs[sorted[m]].level > jobs[|sorted|].level
    requires 0 < k ==> jobs[sorted[k - 1]].level <= jobs[|sorted|].level
    requires i < j <= |sorted|
    ensures var r := sorted[..k] + [|sorted|] + sorted[k..];
      r[i] <= |sorted| && r[j] <= |sorted| && r[i] != r[j] && jobs[r[i]].level <= jobs[r[j]].level
  {
    var n := |sorted|;
    var i', j' := if i < k then i else i - 1, if j < k then j else j - 1;
    if i == k {
      assert sorted[j'] < n;
    } else if j == k {
      assert sorted[i'] < n;
      if i < k - 1 { assert jobs[sorted[i]].level <= jobs[sorted[k - 1]].level; }
    } else {
      assert sorted[i'] < n && sorted[j'] < n && sorted[i'] != sorted[j'];
      assert jobs[sorted[i']].level <= jobs[sorted[j']].level;
    }
  }

  lemma InsertSorted(jobs: seq<Job>, sorted: seq<nat>, k: nat)
    requires SortedPrefix(jobs, sorted, |sorted|) && |sorted| < |jobs| && k <= |sorted|
    requires forall m :: k <= m < |sorted| ==> jobs[sorted[m]].level > jobs[|sorted|].level
    requires 0 < k ==> jobs[sorted[k - 1]].level <= jobs[|sorted|].level
    ensures SortedPrefix(jobs, sorted[..k] + [|sorted|] + sorted[k..], |sorted| + 1)
  {
    var r := sorted[..k] + [|sorted|] + sorted[k..];
    forall i, j | 0 <= i < j < |r|
      ensures r[i] <= |sorted| && r[j] <= |sorted| && r[i] != r[j] && jobs[r[i]].level <= jobs[r[j]].level
    {
      InsertPair(jobs, sorted, k, i, j);
    }
    if |r| == 1 { assert r[0] == |sorted|; }
    forall i | 0 <= i < |r| ensures r[i] <= |sorted| {
      if i < |sorted| { assert r[i] != r[i + 1]; } else if 0 < i { assert r[i - 1] != r[i]; }
    }
  }

  method InsertByLevel(jobs: seq<Job>, sorted: seq<nat>, i: nat) returns (r: seq<nat>)
    requires i < |jobs| && SortedPrefix(jobs, sorted, i)
    ensures SortedPrefix(jobs, r, i + 1)
  {
    var k := |sorted|;
    while 0 < k && jobs[sorted[k - 1]].level > jobs[i].level
      invariant 0 <= k <= |sorted|
      invariant forall m :: k <= m < |sorted| ==> jobs[sorted[m]].level > jobs[i].level
    {
      k := k - 1;
    }
    InsertSorted(jobs, sorted, k);
    r := sorted[..k] + [i] + sorted[k..];
  }

  class JobArrays {
    var jobs: seq<Job>
    var order: seq<nat>
    var begin: seq<nat>

    ghost predicate Valid()
      reads this
    {
      LevelsLinked(jobs)
    }

    constructor ()
      ensures Valid() && jobs == []
    {
      jobs, order, begin := [], [], [];
    }

    /** The write index goes back to zero. */
    method Clear()
      modifies this
      ensures Valid() && jobs == []
    {
      jobs := [];
    }

    /** Refuses a handle past the next job; else the handle of the highest level above 0, or null. */
    method CombineDependencies(handles: seq<int>, beyond: nat) returns (r: Dependency)
      ensures r == if exists i :: 0 <= i < |handles| && handles[i] > |jobs| then InvalidHandles
        else On(Combined(jobs, handles, beyond))
    {
      var max, maxLevel := -1, 0;
      for i := 0 to |handles|
        invariant max == Combined(jobs, handles[..i], beyond) && maxLevel == LevelOf(jobs, max, beyond)
        invariant forall k :: 0 <= k < i ==> handles[k] <= |jobs|
      {
        assert handles[..i + 1][..i] == handles[..i];
        if handles[i] < 0 {
          continue;
        }
        if handles[i] > |jobs| {
          return InvalidHandles;
        }
        var level := if handles[i] < |jobs| then jobs[handles[i]].level else beyond;
        if level > maxLevel {
          max, maxLevel := handles[i], level;
        }
      }
      assert handles[..|handles|] == handles;
      r := On(max);
    }

    /** Appends a job, or refuses it and changes nothing. */
    method Schedule(batchCount: nat, stepSize: nat, dependsOn: int, cacheCount: nat) returns (r: Outcome)
      requires Valid()
      modifies this
      ensures Valid()
      ensures r == (if stepSize < 1 || batchCount < 1 then InvalidArgument else if |old(jobs)| > MaximumCount then Full
        else if dependsOn >= |old(jobs)| then InvalidDependency else Handle(|old(jobs)|))
      ensures r.Handle? ==>
        var level := if dependsOn < 0 then 0 else old(jobs)[dependsOn].level + 1;
        jobs == old(jobs) + [Job(batchCount, stepSize, level, dependsOn, cacheCount)]
      ensures !r.Handle? ==> jobs == old(jobs)
    {
      var index := |jobs|;
      if stepSize < 1 || batchCount < 1 {
        return InvalidArgument;
      }
      if index > MaximumCount {
        return Full;
      }
      if dependsOn >= index {
        return InvalidDependency;
      }
      var level := 0;
      if dependsOn >= 0 {
        level := jobs[dependsOn].level + 1;
      }
      jobs := jobs + [Job(batchCount, stepSize, level, dependsOn, cacheCount)];
      r := Handle(index);
    }

    /** Schedules a chunk job for a query, exactly when the query caches a chunk, the arrays have room, and the
        dependency was scheduled before. */
    method ScheduleChunks(parallel: bool, cacheCount: nat, dependsOn: int) returns (r: Outcome)
      requires Valid()
      modifies this
      ensures Valid()
      ensures r.Handle? <==> cacheCount > 0 && |old(jobs)| <= MaximumCount && dependsOn < |old(jobs)|
      ensures cacheCount == 0 ==> r == InvalidArgument
      ensures cacheCount > 0 && |old(jobs)| > MaximumCount ==> r == Full
      ensures r.Handle? ==>
        var job := ChunkJob(parallel, cacheCount,
                            if dependsOn < 0 then 0 else old(jobs)[dependsOn].level + 1, dependsOn);
        r.index == |old(jobs)| && jobs == old(jobs) + [job] && CutsChunks(job)
      ensures r.Handle? && parallel ==> jobs[r.index].batchCount == cacheCount && jobs[r.index].stepSize == 1
      ensures r.Handle? && !parallel ==> jobs[r.index].batchCount == 1 && jobs[r.index].stepSize == cacheCount
      ensures r.Handle? ==> jobs[r.index].cacheCount == cacheCount && jobs[r.index].dependsOn == dependsOn
      ensures !r.Handle? ==> jobs == old(jobs)
    {
      if parallel {
        r := Schedule(cacheCount, 1, dependsOn, cacheCount);
      } else {
        r := Schedule(1, cacheCount, dependsOn, cacheCount);
      }
    }

    /** Zeroes the begin indexes and arranges the jobs by level. The library sort is stood in for by insertion;
        nothing below uses more of it than that the result is a sorted permutation. */
    method PrepareJobs()
      requires Valid()
      modifies this
      ensures Valid() && jobs == old(jobs)
      ensures Prepared(jobs, order)
      ensures |begin| == |jobs| && forall j :: 0 <= j < |begin| ==> begin[j] == 0
    {
      begin := seq(|jobs|, _ => 0);
      var sorted: seq<nat> := [];
      var i := 0;
      while i < |jobs|
        invariant 0 <= i <= |jobs| && SortedPrefix(jobs, sorted, i)
        invariant jobs == old(jobs) && |begin| == |jobs| && forall j :: 0 <= j < |begin| ==> begin[j] == 0
      {
        sorted := InsertByLevel(jobs, sorted, i);
        i := i + 1;
      }
      order := sorted;
    }
  }

  /** A job is arranged after the job it depends on. */
  lemma DependencyFirst(jobs: seq<Job>, order: seq<nat>, i: nat, k: nat)
    requires LevelsLinked(jobs) && Prepared(jobs, order) && i < |order| && k < |order|
    requires jobs[order[i]].dependsOn == order[k]
    ensures k < i
  {
  }
}
