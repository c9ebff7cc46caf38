/** Queries, the archetypes registered with them, and their caches of matching chunks
    (src/ECS/EntityQueryManager.cpp:67-255, src/ECS/Archetype.cpp:29-44). */
module Queries {
  import opened Types
  import opened Collections
  import opened QueryMatching
  import opened ChangedList

  const MaximumQueryCount: nat := 512

  /** What queries see of an archetype: its types, its chunk list and entity count, and the queries it is registered
      with, as a list and as the bits of queryMask. */
  datatype Arch = Arch(types: seq<nat>, chunks: seq<nat>, entityCount: nat, matching: seq<nat>, queryMask: set<nat>)

  /** A cached chunk, with the place of its archetype in the query's list. */
  datatype Entry = Entry(chunk: nat, archetypeIndex: nat)

  datatype Query = Query(all: seq<nat>, any: seq<nat>, none: seq<nat>, archetypes: seq<nat>, cache: seq<Entry>,
                         validCache: bool)

  /** What a query asks for. */
  ghost predicate Matches(types: seq<nat>, q: Query) {
    && (forall t :: t in q.all ==> t in types)
    && (q.any == [] || exists t :: t in q.any && t in types)
    && (forall t :: t in q.none ==> t !in types)
  }

  function Entries(chunks: seq<nat>, index: nat): seq<Entry> {
    seq(|chunks|, i requires 0 <= i < |chunks| => Entry(chunks[i], index))
  }

  /** The cache entries of one archetype. */
  function Block(a: Arch, index: nat): seq<Entry> {
    if a.entityCount > 0 then Entries(a.chunks, index) else []
  }

  /** What a rebuild of the cache gives for the first n archetypes of a query: the last archetype comes first. */
  function Rebuilt(archs: seq<Arch>, ids: seq<nat>, n: nat): seq<Entry>
    requires n <= |ids|
  {
    if n == 0 then []
    else (if ids[n - 1] < |archs| then Block(archs[ids[n - 1]], n - 1) else []) + Rebuilt(archs, ids, n - 1)
  }

  /** The cache holds each chunk of each of these archetypes as often as the archetype's list does, with the place of
      the archetype, and nothing else. */
  ghost predicate Lists(cache: seq<Entry>, archs: seq<Arch>, ids: seq<nat>) {
    && (forall i :: 0 <= i < |ids| ==> ids[i] < |archs|)
    && forall e :: multiset(cache)[e] ==
         if e.archetypeIndex < |ids| then multiset(archs[ids[e.archetypeIndex]].chunks)[e.chunk] else 0
  }

  /** Where each chunk of the lists is in one list only and once, as the tracking keeps it, each is cached once. */
  lemma CachedOnce(cache: seq<Entry>, archs: seq<Arch>, ids: seq<nat>, k: nat, c: nat)
    requires Lists(cache, archs, ids) && k < |ids| && c in archs[ids[k]].chunks
    requires forall i :: 0 <= i < |ids| ==> Distinct(archs[ids[i]].chunks) && (i != k ==> c !in archs[ids[i]].chunks)
    ensures multiset(cache)[Entry(c, k)] == 1 && forall e :: e in cache && e.chunk == c ==> e == Entry(c, k)
  {
    OnceEach(archs[ids[k]].chunks, c);
    forall e | e in cache && e.chunk == c ensures e == Entry(c, k) {
      assert multiset(cache)[e] > 0;
    }
  }

  lemma {:induction false} EntriesCount(chunks: seq<nat>, index: nat, e: Entry)
    ensures multiset(Entries(chunks, index))[e] == if e.archetypeIndex == index then multiset(chunks)[e.chunk] else 0
  {
    if chunks != [] {
      var n := |chunks| - 1;
      EntriesCount(chunks[..n], index, e);
      assert Entries(chunks, index) == Entries(chunks[..n], index) + [Entry(chunks[n], index)];
      assert chunks == chunks[..n] + [chunks[n]];
    }
  }

  lemma BlockCounts(a: Arch, index: nat, e: Entry)
    requires a.entityCount == 0 <==> a.chunks == []
    ensures multiset(Block(a, index))[e] == if e.archetypeIndex == index then multiset(a.chunks)[e.chunk] else 0
  {
    EntriesCount(a.chunks, index, e);
  }

  lemma RebuiltStep(archs: seq<Arch>, ids: seq<nat>, n: nat, e: Entry)
    requires 0 < n <= |ids| && ids[n - 1] < |archs|
    ensures multiset(Rebuilt(archs, ids, n))[e] ==
      multiset(Block(archs[ids[n - 1]], n - 1))[e] + multiset(Rebuilt(archs, ids, n - 1))[e]
  {
    hide Block;
    assert Rebuilt(archs, ids, n) == Block(archs[ids[n - 1]], n - 1) + Rebuilt(archs, ids, n - 1);
  }

  /** How often the archetype of the entry lists its chunk. */
  function Listed(archs: seq<Arch>, ids: seq<nat>, e: Entry): nat
    requires forall i :: 0 <= i < |ids| ==> ids[i] < |archs|
  {
    if e.archetypeIndex < |ids| then multiset(archs[ids[e.archetypeIndex]].chunks)[e.chunk] else 0
  }

  lemma {:induction false} RebuiltCounts(archs: seq<Arch>, ids: seq<nat>, n: nat, e: Entry)
    requires n <= |ids| && forall i :: 0 <= i < |ids| ==> ids[i] < |archs|
    requires forall i :: 0 <= i < |ids| ==> (archs[ids[i]].entityCount == 0 <==> archs[ids[i]].chunks == [])
    ensures multiset(Rebuilt(archs, ids, n))[e] == if e.archetypeIndex < n then Listed(archs, ids, e) else 0
  {
    if n > 0 {
      var a := archs[ids[n - 1]];
      assert a.entityCount == 0 <==> a.chunks == [];
      assert e.archetypeIndex == n - 1 ==> Listed(archs, ids, e) == multiset(a.chunks)[e.chunk];
      hide Block, Rebuilt, Listed;
      RebuiltCounts(archs, ids, n - 1, e);
      RebuiltStep(archs, ids, n, e);
      BlockCounts(a, n - 1, e);
    }
  }

  /** A rebuilt cache holds exactly the chunks of the query's archetypes, each as often as it is listed. */
  lemma RebuiltLists(archs: seq<Arch>, ids: seq<nat>)
    requires forall i :: 0 <= i < |ids| ==> ids[i] < |archs|
    requires forall k :: 0 <= k < |archs| ==> (archs[k].entityCount == 0 <==> archs[k].chunks == [])
    ensures Lists(Rebuilt(archs, ids, |ids|), archs, ids)
  {
    forall e ensures multiset(Rebuilt(archs, ids, |ids|))[e] ==
      if e.archetypeIndex < |ids| then multiset(archs[ids[e.archetypeIndex]].chunks)[e.chunk] else 0
    {
      RebuiltCounts(archs, ids, |ids|, e);
    }
  }

  /** An archetype's own data are in order. */
  ghost predicate ArchOk(a: Arch, queryCount: nat) {
    && Sorted(a.types) && (a.entityCount == 0 <==> a.chunks == [])
    && Distinct(a.matching) && (forall q :: q in a.matching <==> q in a.queryMask)
    && (forall q :: q in a.matching ==> q < queryCount)
  }

  ghost predicate QueryOk(q: Query, archCount: nat) {
    && Sorted(q.all) && Sorted(q.any) && Sorted(q.none)
    && Distinct(q.archetypes) && forall i :: 0 <= i < |q.archetypes| ==> q.archetypes[i] < archCount
  }

  /** Archetype and query know each other, or neither knows the other; if they do, they match. */
  ghost predicate PairOk(a: Arch, k: nat, query: Query, q: nat) {
    && (q in a.matching <==> k in query.archetypes)
    && (k in query.archetypes ==> Matches(a.types, query))
  }

  ghost predicate Registry(archs: seq<Arch>, queries: seq<Query>) {
    && (forall k {:trigger ArchOk(archs[k], |queries|)} :: 0 <= k < |archs| ==> ArchOk(archs[k], |queries|))
    && (forall q {:trigger QueryOk(queries[q], |archs|)} :: 0 <= q < |queries| ==> QueryOk(queries[q], |archs|))
    && (forall k, q {:trigger PairOk(archs[k], k, queries[q], q)} ::
          0 <= k < |archs| && 0 <= q < |queries| ==> PairOk(archs[k], k, queries[q], q))
  }

  /** The archetype is registered with every query it matches. */
  ghost predicate Complete(archs: seq<Arch>, queries: seq<Query>, k: nat, upto: nat)
    requires k < |archs| && upto <= |queries|
  {
    forall q :: 0 <= q < upto && Matches(archs[k].types, queries[q]) ==> k in queries[q].archetypes
  }

  /** A valid cache is what a rebuild would give, unless an archetype of the query is tracked as changed. */
  ghost predicate Coherent(archs: seq<Arch>, q: Query, tracked: seq<nat>) {
    q.validCache ==>
      q.cache == Rebuilt(archs, q.archetypes, |q.archetypes|) || exists k :: k in q.archetypes && k in tracked
  }

  ghost predicate AllCoherent(archs: seq<Arch>, queries: seq<Query>, tracked: seq<nat>) {
    forall q {:trigger Coherent(archs, queries[q], tracked)} :: 0 <= q < |queries| ==>
      Coherent(archs, queries[q], tracked)
  }

  // Registration.

  function WithQuery(a: Arch, q: nat): Arch {
    a.(matching := a.matching + [q], queryMask := a.queryMask + {q})
  }

  function WithArchetype(query: Query, k: nat): Query {
    query.(archetypes := query.archetypes + [k], validCache := false)
  }

  lemma RegisterKeeps(archs: seq<Arch>, queries: seq<Query>, k: nat, q: nat)
    requires Registry(archs, queries) && k < |archs| && q < |queries|
    requires q !in archs[k].queryMask && Matches(archs[k].types, queries[q])
    ensures Registry(archs[k := WithQuery(archs[k], q)], queries[q := WithArchetype(queries[q], k)])
  {
    var archs1, queries1 := archs[k := WithQuery(archs[k], q)], queries[q := WithArchetype(queries[q], k)];
    assert PairOk(archs[k], k, queries[q], q) && ArchOk(archs[k], |queries|);
    forall j | 0 <= j < |archs1| ensures ArchOk(archs1[j], |queries1|) { assert ArchOk(archs[j], |queries|); }
    forall p | 0 <= p < |queries1| ensures QueryOk(queries1[p], |archs1|) { assert QueryOk(queries[p], |archs|); }
    forall j, p | 0 <= j < |archs1| && 0 <= p < |queries1| ensures PairOk(archs1[j], j, queries1[p], p) {
      assert PairOk(archs[j], j, queries[p], p);
    }
  }

  lemma RegisterCoherent(archs: seq<Arch>, queries: seq<Query>, tracked: seq<nat>, k: nat, q: nat)
    requires AllCoherent(archs, queries, tracked) && k < |archs| && q < |queries|
    ensures AllCoherent(archs[k := WithQuery(archs[k], q)], queries[q := WithArchetype(queries[q], k)], tracked)
  {
    var archs1, queries1 := archs[k := WithQuery(archs[k], q)], queries[q := WithArchetype(queries[q], k)];
    forall p | 0 <= p < |queries1| ensures Coherent(archs1, queries1[p], tracked) {
      assert Coherent(archs, queries[p], tracked);
      if p != q { RebuiltAlike(archs, archs1, queries[p].archetypes, |queries[p].archetypes|); }
    }
  }

  /** The rebuild depends on chunk lists, and on which entity counts are 0, only. */
  lemma {:induction false} RebuiltAlike(archs: seq<Arch>, archs1: seq<Arch>, ids: seq<nat>, n: nat)
    requires n <= |ids| && |archs| == |archs1|
    requires forall i :: 0 <= i < n && ids[i] < |archs| ==>
      archs1[ids[i]].chunks == archs[ids[i]].chunks
      && (archs1[ids[i]].entityCount == 0 <==> archs[ids[i]].entityCount == 0)
    ensures Rebuilt(archs1, ids, n) == Rebuilt(archs, ids, n)
  {
    if n > 0 { RebuiltAlike(archs, archs1, ids, n - 1); }
  }

  // Changes.

  /** A changed chunk list leaves the caches of its queries to be invalidated, and does not concern other queries. */
  lemma ChangeCoherent(archs: seq<Arch>, queries: seq<Query>, tracked: seq<nat>, k: nat, a: Arch, tracked1: seq<nat>)
    requires AllCoherent(archs, queries, tracked) && k < |archs| && k in tracked1
    requires forall x :: x in tracked ==> x in tracked1
    ensures AllCoherent(archs[k := a], queries, tracked1)
  {
    forall q | 0 <= q < |queries| ensures Coherent(archs[k := a], queries[q], tracked1) {
      assert Coherent(archs, queries[q], tracked);
      if k !in queries[q].archetypes {
        RebuiltAlike(archs, archs[k := a], queries[q].archetypes, |queries[q].archetypes|);
      }
    }
  }

  /** Entities that come and go while some stay and the chunks are the same concern no cache. */
  lemma CountCoherent(archs: seq<Arch>, queries: seq<Query>, tracked: seq<nat>, k: nat, n: nat)
    requires AllCoherent(archs, queries, tracked) && k < |archs| && archs[k].entityCount > 0 && n > 0
    ensures AllCoherent(archs[k := archs[k].(entityCount := n)], queries, tracked)
  {
    var archs1 := archs[k := archs[k].(entityCount := n)];
    forall q | 0 <= q < |queries| ensures Coherent(archs1, queries[q], tracked) {
      assert Coherent(archs, queries[q], tracked);
      RebuiltAlike(archs, archs1, queries[q].archetypes, |queries[q].archetypes|);
    }
  }

  lemma ChangeKeeps(archs: seq<Arch>, queries: seq<Query>, k: nat, chunks: seq<nat>, entityCount: nat)
    requires Registry(archs, queries) && k < |archs| && (entityCount == 0 <==> chunks == [])
    ensures Registry(archs[k := archs[k].(chunks := chunks, entityCount := entityCount)], queries)
  {
    var archs1 := archs[k := archs[k].(chunks := chunks, entityCount := entityCount)];
    forall j | 0 <= j < |archs1| ensures ArchOk(archs1[j], |queries|) { assert ArchOk(archs[j], |queries|); }
    forall p | 0 <= p < |queries| ensures QueryOk(queries[p], |archs1|) { assert QueryOk(queries[p], |archs|); }
    forall j, p | 0 <= j < |archs1| && 0 <= p < |queries| ensures PairOk(archs1[j], j, queries[p], p) {
      assert PairOk(archs[j], j, queries[p], p);
    }
  }

  /** A query's cache and its validity are its own business. */
  lemma CacheKeeps(archs: seq<Arch>, queries: seq<Query>, q: nat, cache: seq<Entry>, valid: bool)
    requires Registry(archs, queries) && q < |queries|
    ensures Registry(archs, queries[q := queries[q].(cache := cache, validCache := valid)])
  {
    var queries1 := queries[q := queries[q].(cache := cache, validCache := valid)];
    forall j | 0 <= j < |archs| ensures ArchOk(archs[j], |queries1|) { assert ArchOk(archs[j], |queries|); }
    forall p | 0 <= p < |queries1| ensures QueryOk(queries1[p], |archs|) { assert QueryOk(queries[p], |archs|); }
    forall j, p | 0 <= j < |archs| && 0 <= p < |queries1| ensures PairOk(archs[j], j, queries1[p], p) {
      assert PairOk(archs[j], j, queries[p], p);
    }
  }

  /** The library sort, stood in for by insertion; it throws when two types are equal. */
  method SortTypes(types: seq<nat>) returns (r: seq<nat>)
    requires Distinct(types)
    ensures Sorted(r) && forall t :: t in r <==> t in types
  {
    hide Sorted, Elems;
    r := [];
    assert Sorted(r) by { NothingSorted(); }
    for i := 0 to |types|
      invariant Sorted(r) && forall t :: t in r <==> t in types[..i]
    {
      assert types[..i + 1] == types[..i] + [types[i]] && types[i] !in types[..i];
      var longer, index := WithAddedComponent(r, types[i]);
      r := longer.value;
    }
    assert types[..|types|] == types;
  }

  lemma NothingSorted()
    ensures Sorted([])
  {
  }

  class Manager {
    var archetypes: seq<Arch>
    /** nextChangedArchetype of each archetype. */
    var links: seq<Link>
    var head: Link
    var queries: seq<Query>
    var previousArchetypeCount: nat
    /** The tracked archetypes. */
    ghost var tracked: seq<nat>

    ghost predicate Valid()
      reads this
    {
      && |links| == |archetypes| && Shape(links, head, tracked)
      && Registry(archetypes, queries) && AllCoherent(archetypes, queries, tracked)
      && previousArchetypeCount <= |archetypes| && |queries| <= MaximumQueryCount
      && forall k :: 0 <= k < previousArchetypeCount ==> Complete(archetypes, queries, k, |queries|)
    }

    constructor ()
      ensures Valid() && archetypes == [] && queries == [] && tracked == []
    {
      archetypes, links, head, queries, previousArchetypeCount, tracked := [], [], Null, [], 0, [];
    }

    /** The registration part of addArchetypeIfMatching; a pair already registered is left alone. */
    method AddArchetypeIfMatching(k: nat, q: nat)
      requires Registry(archetypes, queries) && AllCoherent(archetypes, queries, tracked) && k < |archetypes|
      requires q < |queries|
      modifies this`archetypes, this`queries
      ensures Registry(archetypes, queries) && AllCoherent(archetypes, queries, tracked)
      ensures Enrolled(old(archetypes), old(queries), archetypes, queries)
      ensures k in queries[q].archetypes <==> Matches(archetypes[k].types, queries[q])
      ensures forall j :: 0 <= j < |archetypes| && j != k ==>
        (j in queries[q].archetypes <==> j in old(queries)[q].archetypes)
      ensures forall p :: 0 <= p < |queries| && p != q ==> queries[p] == old(queries)[p]
      ensures queries[q].validCache ==> queries[q] == old(queries)[q]
    {
      var a, query := archetypes[k], queries[q];
      assert ArchOk(a, |queries|) && QueryOk(query, |archetypes|) && PairOk(a, k, query, q);
      if |a.types| < |query.all| {
        AllTooLong(a.types, query.all);
        return;
      }
      var r := TestRequired(a.types, query.all);
      if !r { return; }
      r := TestOptional(a.types, query.any);
      if !r { return; }
      r := TestExcluded(a.types, query.none);
      if !r { return; }
      if q in a.queryMask {
        return;
      }
      RegisterKeeps(archetypes, queries, k, q);
      RegisterCoherent(archetypes, queries, tracked, k, q);
      archetypes := archetypes[k := a.(matching := a.matching + [q], queryMask := a.queryMask + {q})];
      queries := queries[q := query.(archetypes := query.archetypes + [k], validCache := false)];
    }

    /** addAdditionalArchetypes: every listed archetype from index `first` on is tested against every query. */
    method AddAdditionalArchetypes(first: nat)
      requires Valid() && first == previousArchetypeCount
      modifies this`archetypes, this`queries
      ensures Registry(archetypes, queries) && AllCoherent(archetypes, queries, tracked)
      ensures Enrolled(old(archetypes), old(queries), archetypes, queries)
      ensures forall k :: 0 <= k < |archetypes| ==> Complete(archetypes, queries, k, |queries|)
    {
      ghost var archs, qs := archetypes, queries;
      for k := first to |archetypes|
        invariant Registry(archetypes, queries) && AllCoherent(archetypes, queries, tracked)
        invariant Enrolled(archs, qs, archetypes, queries)
        invariant forall j :: 0 <= j < k ==> Complete(archetypes, queries, j, |queries|)
      {
        for g := 0 to |queries|
          invariant Registry(archetypes, queries) && AllCoherent(archetypes, queries, tracked)
          invariant Enrolled(archs, qs, archetypes, queries)
          invariant forall j :: 0 <= j < k ==> Complete(archetypes, queries, j, |queries|)
          invariant Complete(archetypes, queries, k, g)
        {
          ghost var archs0, qs0 := archetypes, queries;
          AddArchetypeIfMatching(k, g);
          forall j | 0 <= j < k ensures Complete(archetypes, queries, j, |queries|) {
            CompleteStays(archs0, qs0, archetypes, queries, j, |queries|);
          }
          CompleteStays(archs0, qs0, archetypes, queries, k, g);
        }
      }
    }

    /** updateNewArchetypes: afterwards each query lists each matching archetype exactly once, and no other. */
    method UpdateNewArchetypes()
      requires Valid()
      modifies this`archetypes, this`queries, this`previousArchetypeCount
      ensures Valid() && previousArchetypeCount == |archetypes|
      ensures Enrolled(old(archetypes), old(queries), archetypes, queries)
      ensures forall k, q :: 0 <= k < |archetypes| && 0 <= q < |queries| ==>
        multiset(queries[q].archetypes)[k] ==
          if && (forall t :: t in queries[q].all ==> t in archetypes[k].types)
             && (queries[q].any == [] || exists t :: t in queries[q].any && t in archetypes[k].types)
             && (forall t :: t in queries[q].none ==> t !in archetypes[k].types) then 1 else 0
    {
      var pCount := previousArchetypeCount;
      if pCount < |archetypes| {
        AddAdditionalArchetypes(pCount);
        previousArchetypeCount := |archetypes|;
      }
      forall k, q | 0 <= k < |archetypes| && 0 <= q < |queries|
        ensures multiset(queries[q].archetypes)[k] == if Matches(archetypes[k].types, queries[q]) then 1 else 0
      {
        assert Complete(archetypes, queries, k, |queries|) && PairOk(archetypes[k], k, queries[q], q)
          && QueryOk(queries[q], |archetypes|);
        OnceEach(queries[q].archetypes, k);
      }
    }

    /** A new archetype, not registered anywhere yet. */
    method AddArchetype(types: seq<nat>)
      requires Valid() && Sorted(types)
      modifies this`archetypes, this`links
      ensures Valid() && archetypes == old(archetypes) + [Arch(types, [], 0, [], {})]
    {
      var a := Arch(types, [], 0, [], {});
      NewArchetype(archetypes, queries, tracked, a);
      NewLink(links, head, tracked);
      ghost var archs := archetypes;
      archetypes := archetypes + [a];
      links := links + [Null];
      forall k | 0 <= k < previousArchetypeCount ensures Complete(archetypes, queries, k, |queries|) {
        assert Complete(archs, queries, k, |queries|);
      }
    }

    /** createEntityQuery: the query has the types in ascending order and lists exactly the matching archetypes there
        are. Fails when the query has too many types, or there are too many queries. */
    method CreateEntityQuery(all: seq<nat>, any: seq<nat>, none: seq<nat>) returns (ok: bool, q: nat)
      requires Valid() && Distinct(all) && Distinct(any) && Distinct(none) && |all| >= 1
      modifies this`archetypes, this`queries
      ensures Valid() && (ok <==> |all| + |any| + |none| <= 32 && |old(queries)| < MaximumQueryCount)
      ensures !ok ==> archetypes == old(archetypes) && queries == old(queries)
      ensures ok ==> q == |old(queries)| && |queries| == q + 1 && |archetypes| == |old(archetypes)|
      ensures ok ==> Sorted(queries[q].all) && Sorted(queries[q].any) && Sorted(queries[q].none)
      ensures ok ==> !queries[q].validCache
      ensures ok ==> forall t :: t in queries[q].all <==> t in all
      ensures ok ==> forall t :: t in queries[q].any <==> t in any
      ensures ok ==> forall t :: t in queries[q].none <==> t in none
      ensures ok ==> forall k :: 0 <= k < |archetypes| ==>
        (k in queries[q].archetypes <==> Matches(archetypes[k].types, queries[q]))
      ensures forall p :: 0 <= p < |old(queries)| ==> queries[p] == old(queries)[p]
    {
      q := |queries|;
      if |all| + |any| + |none| > 32 || |queries| >= MaximumQueryCount {
        return false, q;
      }
      var sortedAll := SortTypes(all);
      var sortedAny := SortTypes(any);
      var sortedNone := SortTypes(none);
      var query := Query(sortedAll, sortedAny, sortedNone, [], [], false);
      NewQuery(archetypes, queries, tracked, query);
      ghost var archs0, qs0 := archetypes, queries;
      queries := queries + [query];
      ghost var archs, qs := archetypes, queries;
      hide Registry, AllCoherent, Shape, Matches, Complete;
      for k := 0 to |archetypes|
        invariant Registry(archetypes, queries) && AllCoherent(archetypes, queries, tracked)
        invariant Enrolled(archs, qs, archetypes, queries) && !queries[q].validCache
        invariant forall p :: 0 <= p < q ==> queries[p] == qs[p]
        invariant forall j :: 0 <= j < k ==> (j in queries[q].archetypes <==> Matches(archetypes[j].types, queries[q]))
      {
        AddArchetypeIfMatching(k, q);
      }
      forall k | 0 <= k < previousArchetypeCount ensures Complete(archetypes, queries, k, |queries|) {
        CompleteWithNew(archs0, qs0, archetypes, queries, k);
      }
      ok := true;
    }

    /** trackArchetype: pushes an archetype whose link is null. */
    method TrackArchetype(k: nat)
      requires |links| == |archetypes| && Shape(links, head, tracked) && k < |archetypes|
      modifies this`links, this`head, this`tracked
      ensures |links| == |archetypes| && Shape(links, head, tracked)
      ensures forall x :: x in tracked <==> x in old(tracked) || x == k
    {
      TrackKeeps(links, head, tracked, k);
      tracked := TrackedOrder(links, tracked, k);
      if links[k] == Null {
        links := links[k := head];
        head := To(k);
      }
    }

    /** addToChunkList and removeFromChunkList: the chunk list changes and the archetype is tracked. */
    method ChangeChunkList(k: nat, chunks: seq<nat>, entityCount: nat)
      requires Valid() && k < |archetypes| && (entityCount == 0 <==> chunks == [])
      modifies this`archetypes, this`links, this`head, this`tracked
      ensures Valid() && k in tracked && archetypes == old(archetypes)[k := archetypes[k]]
      ensures archetypes[k] == old(archetypes)[k].(chunks := chunks, entityCount := entityCount)
    {
      ghost var archs := archetypes;
      ChangeKeeps(archetypes, queries, k, chunks, entityCount);
      var a := archetypes[k].(chunks := chunks, entityCount := entityCount);
      ghost var before := tracked;
      TrackArchetype(k);
      ChangeCoherent(archs, queries, before, k, a, tracked);
      archetypes := archetypes[k := a];
      forall j | 0 <= j < previousArchetypeCount ensures Complete(archetypes, queries, j, |queries|) {
        assert Complete(archs, queries, j, |queries|);
      }
    }

    /** setChunkCount within a chunk: the entity count changes, the chunk list does not, and nothing is tracked. */
    method ChangeEntityCount(k: nat, entityCount: nat)
      requires Valid() && k < |archetypes| && archetypes[k].entityCount > 0 && entityCount > 0
      modifies this`archetypes
      ensures Valid() && |archetypes| == |old(archetypes)|
      ensures archetypes[k] == old(archetypes)[k].(entityCount := entityCount)
      ensures forall j :: 0 <= j < |archetypes| && j != k ==> archetypes[j] == old(archetypes)[j]
    {
      ghost var archs := archetypes;
      assert ArchOk(archetypes[k], |queries|);
      ChangeKeeps(archetypes, queries, k, archetypes[k].chunks, entityCount);
      CountCoherent(archetypes, queries, tracked, k, entityCount);
      archetypes := archetypes[k := archetypes[k].(entityCount := entityCount)];
      forall j | 0 <= j < previousArchetypeCount ensures Complete(archetypes, queries, j, |queries|) {
        assert Complete(archs, queries, j, |queries|);
      }
    }

    /** The queries of one tracked archetype are invalidated. */
    method InvalidateQueries(k: nat)
      requires Registry(archetypes, queries) && k < |archetypes|
      modifies this`queries
      ensures Registry(archetypes, queries) && Invalidated(old(queries), queries)
      ensures forall q :: 0 <= q < |queries| && k in queries[q].archetypes ==> !queries[q].validCache
    {
      ghost var qs := queries;
      var matchingQuery := archetypes[k].matching;
      assert ArchOk(archetypes[k], |queries|);
      for queryIndex := 0 to |matchingQuery|
        invariant Registry(archetypes, queries) && Invalidated(qs, queries)
        invariant forall i :: 0 <= i < queryIndex ==>
          matchingQuery[i] < |queries| && !queries[matchingQuery[i]].validCache
      {
        var q := matchingQuery[queryIndex];
        assert q in matchingQuery;
        CacheKeeps(archetypes, queries, q, queries[q].cache, false);
        queries := queries[q := queries[q].(validCache := false)];
      }
      forall q | 0 <= q < |queries| && k in queries[q].archetypes ensures !queries[q].validCache {
        assert PairOk(archetypes[k], k, queries[q], q);
      }
    }

    /** The walk along the links, which clears each behind it. */
    method WalkChanges()
      requires Valid()
      modifies this`queries, this`links
      ensures Registry(archetypes, queries) && Invalidated(old(queries), queries) && AllInvalid(queries, tracked)
      ensures |links| == |old(links)| && forall k :: 0 <= k < |links| ==> links[k] == Null
    {
      ghost var links0, head0, order, qs := links, head, tracked, queries;
      assert forall k :: 0 <= k < |order| ==> order[k] < |links0|;
      assert AllInvalid(queries, order[..0]) && Invalidated(qs, queries);
      hide Registry, AllCoherent, Shape, Rebuilt, Matches, Complete, AllInvalid, Invalidated;
      var archetype := head;
      ghost var i := 0;
      while archetype != Null
        invariant 0 <= i <= |order| && |links| == |archetypes|
        invariant links == Cleared(links0, order, i)
        invariant archetype == Cursor(links0, order, i) || (archetype == Null && i == |order|)
        invariant Registry(archetypes, queries) && Invalidated(qs, queries)
        invariant AllInvalid(queries, order[..i])
        decreases if archetype == Null then 0 else |order| - i + 1
      {
        WalkEnd(links0, head0, order);
        var k := archetype.index;
        ghost var qs1 := queries;
        InvalidateQueries(k);
        StillInvalid(qs, qs1, queries, order, i, k);
        var nextArchetype := links[k];
        ghost var links1 := links;
        links := links[k := Null];
        archetype := nextArchetype;
        if i < |order| {
          WalkStep(links0, head0, order, i);
          i := i + 1;
        } else {
          assert links == links1;
        }
      }
      WalkEnd(links0, head0, order);
      assert order[..i] == order;
    }

    /** cleanChangeList: walks the list, even one that has closed into a cycle, to its end. Every tracked archetype is
        visited, its queries are invalidated and its link is nulled; every cache that is valid afterwards is what a
        rebuild would give. */
    method CleanChangeList()
      requires Valid()
      modifies this`queries, this`links, this`head, this`tracked
      ensures Valid() && tracked == [] && head == Null && Invalidated(old(queries), queries)
      ensures forall k :: 0 <= k < |links| ==> links[k] == Null
      ensures forall k, q :: k in old(tracked) && 0 <= q < |queries| && k in queries[q].archetypes ==>
        !queries[q].validCache
      ensures forall q :: 0 <= q < |queries| && queries[q].validCache ==>
        Lists(queries[q].cache, archetypes, queries[q].archetypes)
    {
      ghost var order, qs := tracked, queries;
      WalkChanges();
      hide Registry, Rebuilt, Matches, Complete, AllInvalid, Invalidated, Lists;
      head, tracked := Null, [];
      DrainCoherent(archetypes, qs, queries, order);
      forall q | 0 <= q < |queries| && queries[q].validCache
        ensures Lists(queries[q].cache, archetypes, queries[q].archetypes)
      {
        RegistryLists(archetypes, queries, q);
      }
      forall k | 0 <= k < previousArchetypeCount ensures Complete(archetypes, queries, k, |queries|) {
        CompleteAfter(archetypes, qs, queries, k);
      }
    }

    /** rebuildMatchingChunkCache. */
    method RebuildMatchingChunkCache(q: nat)
      requires Valid() && q < |queries|
      modifies this`queries
      ensures Valid() && |queries| == |old(queries)| && queries == old(queries)[q := queries[q]]
      ensures queries[q] == old(queries)[q].(cache := queries[q].cache, validCache := true)
      ensures Lists(queries[q].cache, archetypes, queries[q].archetypes)
    {
      ghost var qs := queries;
      RegistryLists(archetypes, queries, q);
      hide Lists;
      assert QueryOk(queries[q], |archetypes|);
      var caches := CollectChunks(archetypes, queries[q].archetypes);
      CacheKeeps(archetypes, queries, q, caches, true);
      queries := queries[q := queries[q].(cache := caches, validCache := true)];
      forall p | 0 <= p < |queries| ensures Coherent(archetypes, queries[p], tracked) {
        assert Coherent(archetypes, qs[p], tracked);
      }
      forall k | 0 <= k < previousArchetypeCount ensures Complete(archetypes, queries, k, |queries|) {
        assert Complete(archetypes, qs, k, |qs|);
      }
    }

    /** getData: rebuilds a cache that is not valid. Once the changes are drained, the cache holds exactly the chunks
        of the query's archetypes; once the new archetypes are registered, these are the matching ones. */
    method GetData(q: nat) returns (data: Query)
      requires Valid() && q < |queries|
      modifies this`queries
      ensures Valid() && |queries| == |old(queries)| && queries == old(queries)[q := data]
      ensures data.validCache && data.archetypes == old(queries)[q].archetypes && Distinct(data.archetypes)
      ensures forall i :: 0 <= i < |data.archetypes| ==> data.archetypes[i] < |archetypes|
      ensures tracked == [] ==>
        forall e :: multiset(data.cache)[e] ==
          if e.archetypeIndex < |data.archetypes|
          then multiset(archetypes[data.archetypes[e.archetypeIndex]].chunks)[e.chunk] else 0
      ensures previousArchetypeCount == |archetypes| ==> forall k :: 0 <= k < |archetypes| ==>
        (k in data.archetypes <==>
          && (forall t :: t in data.all ==> t in archetypes[k].types)
          && (data.any != [] ==> exists t :: t in data.any && t in archetypes[k].types)
          && (forall t :: t in data.none ==> t !in archetypes[k].types))
    {
      assert QueryOk(queries[q], |archetypes|) && Coherent(archetypes, queries[q], tracked);
      RegistryLists(archetypes, queries, q);
      if !queries[q].validCache {
        RebuildMatchingChunkCache(q);
      }
      data := queries[q];
      assert QueryOk(queries[q], |archetypes|);
      forall k | 0 <= k < |archetypes| && previousArchetypeCount == |archetypes|
        ensures k in data.archetypes <==> Matches(archetypes[k].types, data)
      {
        assert Complete(archetypes, queries, k, |queries|) && PairOk(archetypes[k], k, queries[q], q);
      }
    }
  }

  lemma RegistryLists(archs: seq<Arch>, queries: seq<Query>, q: nat)
    requires Registry(archs, queries) && q < |queries|
    ensures Lists(Rebuilt(archs, queries[q].archetypes, |queries[q].archetypes|), archs, queries[q].archetypes)
  {
    hide Lists;
    assert QueryOk(queries[q], |archs|);
    forall k | 0 <= k < |archs| ensures archs[k].entityCount == 0 <==> archs[k].chunks == [] {
      assert ArchOk(archs[k], |queries|);
    }
    RebuiltLists(archs, queries[q].archetypes);
  }

  /** The loop of a rebuild: the chunks of the listed archetypes, the last archetype first. */
  method CollectChunks(archs: seq<Arch>, ids: seq<nat>) returns (caches: seq<Entry>)
    requires forall i :: 0 <= i < |ids| ==> ids[i] < |archs|
    ensures caches == Rebuilt(archs, ids, |ids|)
  {
    caches := [];
    var archetypeCount := |ids|;
    while archetypeCount > 0
      invariant 0 <= archetypeCount <= |ids|
      invariant caches + Rebuilt(archs, ids, archetypeCount) == Rebuilt(archs, ids, |ids|)
    {
      archetypeCount := archetypeCount - 1;
      var archetype := archs[ids[archetypeCount]];
      CollectStep(archs, ids, archetypeCount, caches);
      if archetype.entityCount > 0 {
        caches := AppendChunks(archetype, archetypeCount, caches);
      }
    }
  }

  lemma CollectStep(archs: seq<Arch>, ids: seq<nat>, n: nat, caches: seq<Entry>)
    requires n < |ids| && ids[n] < |archs|
    ensures caches + Rebuilt(archs, ids, n + 1) == (caches + Block(archs[ids[n]], n)) + Rebuilt(archs, ids, n)
    ensures archs[ids[n]].entityCount == 0 ==> caches + Block(archs[ids[n]], n) == caches
  {
    var block, rest := Block(archs[ids[n]], n), Rebuilt(archs, ids, n);
    assert Rebuilt(archs, ids, n + 1) == block + rest;
    hide Rebuilt;
    Regroup(caches, block, rest);
  }

  lemma Regroup(a: seq<Entry>, b: seq<Entry>, c: seq<Entry>)
    ensures a + (b + c) == (a + b) + c
  {
  }

  method AppendChunks(archetype: Arch, index: nat, before: seq<Entry>) returns (caches: seq<Entry>)
    requires archetype.entityCount > 0
    ensures caches == before + Block(archetype, index)
  {
    caches := before;
    for i := 0 to |archetype.chunks|
      invariant |caches| == |before| + i && caches[..|before|] == before
      invariant forall j :: 0 <= j < i ==> caches[|before| + j] == Entry(archetype.chunks[j], index)
    {
      caches := caches + [Entry(archetype.chunks[i], index)];
    }
  }

  /** Only validity can have been lost. */
  ghost predicate Invalidated(queries: seq<Query>, queries1: seq<Query>) {
    && |queries1| == |queries|
    && forall q :: 0 <= q < |queries| ==>
      queries1[q].(validCache := queries[q].validCache) == queries[q]
        && (queries1[q].validCache ==> queries[q].validCache)
  }

  /** No query of one of these archetypes has a valid cache. */
  ghost predicate AllInvalid(queries: seq<Query>, order: seq<nat>) {
    forall j, q :: 0 <= j < |order| && 0 <= q < |queries| && order[j] in queries[q].archetypes ==>
      !queries[q].validCache
  }

  lemma StillInvalid(qs: seq<Query>, queries: seq<Query>, queries1: seq<Query>, order: seq<nat>, i: nat, k: nat)
    requires Invalidated(qs, queries) && Invalidated(queries, queries1) && i <= |order|
    requires AllInvalid(queries, order[..i])
    requires forall q :: 0 <= q < |queries1| && k in queries1[q].archetypes ==> !queries1[q].validCache
    ensures Invalidated(qs, queries1) && AllInvalid(queries1, order[..i])
    ensures i < |order| && order[i] == k ==> AllInvalid(queries1, order[..i + 1])
  {
    forall q | 0 <= q < |queries1| ensures queries1[q].archetypes == queries[q].archetypes {
      assert queries1[q].(validCache := queries[q].validCache) == queries[q];
    }
  }

  lemma DrainCoherent(archs: seq<Arch>, queries: seq<Query>, queries1: seq<Query>, tracked: seq<nat>)
    requires AllCoherent(archs, queries, tracked) && Invalidated(queries, queries1) && AllInvalid(queries1, tracked)
    ensures AllCoherent(archs, queries1, [])
    ensures forall k, q :: k in tracked && 0 <= q < |queries1| && k in queries1[q].archetypes ==>
      !queries1[q].validCache
    ensures forall q :: 0 <= q < |queries1| && queries1[q].validCache ==>
      queries1[q].cache == Rebuilt(archs, queries1[q].archetypes, |queries1[q].archetypes|)
  {
    forall q | 0 <= q < |queries1|
      ensures Coherent(archs, queries1[q], [])
      ensures queries1[q].validCache ==>
        queries1[q].cache == Rebuilt(archs, queries1[q].archetypes, |queries1[q].archetypes|)
    {
      assert Coherent(archs, queries[q], tracked);
    }
  }

  /** A new query that lists every archetype it matches. */
  lemma CompleteWithNew(archs: seq<Arch>, queries: seq<Query>, archs1: seq<Arch>, queries1: seq<Query>, k: nat)
    requires k < |archs| == |archs1| && archs1[k].types == archs[k].types && |queries1| == |queries| + 1
    requires forall p :: 0 <= p < |queries| ==> queries1[p] == queries[p]
    requires Complete(archs, queries, k, |queries|)
    requires k in queries1[|queries|].archetypes <==> Matches(archs1[k].types, queries1[|queries|])
    ensures Complete(archs1, queries1, k, |queries1|)
  {
  }

  lemma CompleteAfter(archs: seq<Arch>, queries: seq<Query>, queries1: seq<Query>, k: nat)
    requires Invalidated(queries, queries1) && k < |archs| && Complete(archs, queries, k, |queries|)
    ensures |queries1| == |queries| && Complete(archs, queries1, k, |queries1|)
  {
  }

  lemma CompleteStays(archs: seq<Arch>, queries: seq<Query>, archs1: seq<Arch>, queries1: seq<Query>, k: nat, upto: nat)
    requires Enrolled(archs, queries, archs1, queries1) && k < |archs| && upto <= |queries|
    requires Complete(archs, queries, k, upto)
    ensures Complete(archs1, queries1, k, upto)
  {
    forall q | 0 <= q < upto && Matches(archs1[k].types, queries1[q]) ensures k in queries1[q].archetypes {
      assert Matches(archs[k].types, queries[q]);
      assert queries[q].archetypes <= queries1[q].archetypes;
    }
  }

  lemma {:induction false} OnceEach(s: seq<nat>, x: nat)
    requires Distinct(s)
    ensures multiset(s)[x] == if x in s then 1 else 0
  {
    if s != [] {
      var n := |s| - 1;
      OnceEach(s[..n], x);
      assert s == s[..n] + [s[n]];
      assert s[n] !in s[..n];
    }
  }

  lemma NewArchetype(archs: seq<Arch>, queries: seq<Query>, tracked: seq<nat>, a: Arch)
    requires Registry(archs, queries) && AllCoherent(archs, queries, tracked)
    requires a == Arch(a.types, [], 0, [], {}) && Sorted(a.types)
    ensures Registry(archs + [a], queries) && AllCoherent(archs + [a], queries, tracked)
  {
    var archs1 := archs + [a];
    forall j | 0 <= j < |archs1| ensures ArchOk(archs1[j], |queries|) {
      if j < |archs| { assert ArchOk(archs[j], |queries|); }
    }
    forall p | 0 <= p < |queries| ensures QueryOk(queries[p], |archs1|) && Coherent(archs1, queries[p], tracked) {
      assert QueryOk(queries[p], |archs|) && Coherent(archs, queries[p], tracked);
      RebuiltMore(archs, a, queries[p].archetypes, |queries[p].archetypes|);
    }
    forall j, p | 0 <= j < |archs1| && 0 <= p < |queries| ensures PairOk(archs1[j], j, queries[p], p) {
      assert QueryOk(queries[p], |archs|);
      if j < |archs| { assert PairOk(archs[j], j, queries[p], p); }
    }
  }

  lemma {:induction false} RebuiltMore(archs: seq<Arch>, a: Arch, ids: seq<nat>, n: nat)
    requires n <= |ids| && forall i :: 0 <= i < |ids| ==> ids[i] < |archs|
    ensures Rebuilt(archs + [a], ids, n) == Rebuilt(archs, ids, n)
  {
    if n > 0 { RebuiltMore(archs, a, ids, n - 1); }
  }

  lemma NewLink(next: seq<Link>, head: Link, order: seq<nat>)
    requires Shape(next, head, order)
    ensures Shape(next + [Null], head, order)
  {
    forall i | 0 <= i < |order| - 1 ensures Follows(next + [Null], order, i) { assert Follows(next, order, i); }
  }

  lemma NewQuery(archs: seq<Arch>, queries: seq<Query>, tracked: seq<nat>, query: Query)
    requires Registry(archs, queries) && AllCoherent(archs, queries, tracked) && QueryOk(query, |archs|)
    requires query.archetypes == [] && !query.validCache
    ensures Registry(archs, queries + [query]) && AllCoherent(archs, queries + [query], tracked)
  {
    var queries1 := queries + [query];
    forall j | 0 <= j < |archs| ensures ArchOk(archs[j], |queries1|) { assert ArchOk(archs[j], |queries|); }
    forall p | 0 <= p < |queries1| ensures QueryOk(queries1[p], |archs|) && Coherent(archs, queries1[p], tracked) {
      if p < |queries| { assert QueryOk(queries[p], |archs|) && Coherent(archs, queries[p], tracked); }
    }
    forall j, p | 0 <= j < |archs| && 0 <= p < |queries1| ensures PairOk(archs[j], j, queries1[p], p) {
      assert ArchOk(archs[j], |queries|);
      if p < |queries| { assert PairOk(archs[j], j, queries[p], p); }
    }
  }

  /** Registration changes no types, chunks or questions, and unregisters nothing. */
  ghost predicate Enrolled(archs: seq<Arch>, queries: seq<Query>, archs1: seq<Arch>, queries1: seq<Query>) {
    && |archs1| == |archs| && |queries1| == |queries|
    && (forall k :: 0 <= k < |archs| ==>
          archs1[k].types == archs[k].types && archs1[k].chunks == archs[k].chunks
            && archs1[k].entityCount == archs[k].entityCount)
    && (forall q :: 0 <= q < |queries| ==>
          && queries1[q].all == queries[q].all && queries1[q].any == queries[q].any
          && queries1[q].none == queries[q].none
          && queries[q].archetypes <= queries1[q].archetypes)
  }

  /** More required types than the archetype has. */
  lemma AllTooLong(types: seq<nat>, all: seq<nat>)
    requires Sorted(types) && Sorted(all) && |types| < |all|
    ensures exists t :: t in all && t !in types
  {
    InElems(types);
    InElems(all);
    SortedSize(types);
    SortedSize(all);
    if Elems(all) <= Elems(types) {
      SubsetSize(Elems(all), Elems(types));
    } else {
      var t :| t in Elems(all) && t !in Elems(types);
    }
  }
}
