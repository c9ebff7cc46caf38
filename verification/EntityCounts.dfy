/** countEntities (src/ECS/EntityComponentStore.cpp:271-278): the archetypes' entity counts add up to the number of
    live entities. */
module EntityCounts {
  import opened EntityBlocks
  import opened EntityRows
  import opened ChunkTracking

  /** The first n rows of a chunk belong to n different handles. */
  /** One more row is one more handle. */
  lemma NextRow(w: Rows, c: nat, n: nat)
    requires RowsAgree(w, NoRows) && c in w.chunks && n < w.chunks[c].count
    ensures Owner(w, c, n).Reference? && Owner(w, c, n).handle !in HandlesIn(w, Batch(c, 0, n))
    ensures HandlesIn(w, Batch(c, 0, n + 1)) == HandlesIn(w, Batch(c, 0, n)) + {Owner(w, c, n).handle}
  {
    assert RowTaken(w, c, n);
    forall h ensures h in HandlesIn(w, Batch(c, 0, n + 1)) <==>
      h in HandlesIn(w, Batch(c, 0, n)) + {Owner(w, c, n).handle}
    {
      if h in w.places { assert Seated(w, h); }
    }
  }

  lemma {:induction false} RowCount(w: Rows, c: nat, n: nat)
    requires RowsAgree(w, NoRows) && c in w.chunks && n <= w.chunks[c].count
    ensures |HandlesIn(w, Batch(c, 0, n))| == n
  {
    if n == 0 {
      assert HandlesIn(w, Batch(c, 0, 0)) == {};
    } else {
      hide *;
      RowCount(w, c, n - 1);
      NextRow(w, c, n - 1);
    }
  }

  /** The handles of a chunk. */
  function HandlesOf(w: Rows, c: nat): set<Handle> {
    if c in w.chunks then HandlesIn(w, Batch(c, 0, w.chunks[c].count)) else {}
  }

  /** The handles of the first n chunks of a list. */
  function ListHandles(w: Rows, chunks: seq<nat>, n: nat): set<Handle>
    requires n <= |chunks|
  {
    if n == 0 then {} else ListHandles(w, chunks, n - 1) + HandlesOf(w, chunks[n - 1])
  }

  lemma {:induction false} InList(w: Rows, chunks: seq<nat>, n: nat, h: Handle)
    requires n <= |chunks|
    ensures h in ListHandles(w, chunks, n) <==> exists i :: 0 <= i < n && h in HandlesOf(w, chunks[i])
  {
    if n > 0 { InList(w, chunks, n - 1, h); }
  }

  lemma {:induction false} NotInList(w: Rows, chunks: seq<nat>, n: nat, c: nat)
    requires n <= |chunks| && forall i :: 0 <= i < n ==> chunks[i] != c
    ensures ListHandles(w, chunks, n) !! HandlesOf(w, c)
  {
    if n > 0 { NotInList(w, chunks, n - 1, c); }
  }

  /** The first n chunks of the list are different ones, each with as many handles as its header counts. */
  ghost predicate Counts(w: Rows, hs: map<nat, Header>, chunks: seq<nat>, n: nat) {
    && n <= |chunks|
    && (forall i :: 0 <= i < n ==> chunks[i] in hs && |HandlesOf(w, chunks[i])| == hs[chunks[i]].count)
    && (forall i, j :: 0 <= i < j < n ==> chunks[i] != chunks[j])
  }

  lemma NextCounts(w: Rows, hs: map<nat, Header>, chunks: seq<nat>, n: nat)
    requires Counts(w, hs, chunks, n) && n > 0
    ensures Counts(w, hs, chunks, n - 1) && chunks[n - 1] in hs
    ensures |HandlesOf(w, chunks[n - 1])| == hs[chunks[n - 1]].count
    ensures ListHandles(w, chunks, n - 1) !! HandlesOf(w, chunks[n - 1])
  {
    NotInList(w, chunks, n - 1, chunks[n - 1]);
  }

  /** A list of different chunks holds as many handles as its population says. */
  lemma {:induction false} ListCount(w: Rows, hs: map<nat, Header>, chunks: seq<nat>, n: nat)
    requires Counts(w, hs, chunks, n)
    ensures |ListHandles(w, chunks, n)| == Population(hs, chunks, n)
  {
    if n > 0 {
      NextCounts(w, hs, chunks, n);
      hide Counts, HandlesOf;
      ListCount(w, hs, chunks, n - 1);
    }
  }

  /** The handles of the chunks listed by the first n archetypes. */
  function ArchetypeHandles(w: Rows, archs: seq<Archetype>, n: nat): set<Handle>
    requires n <= |archs|
  {
    if n == 0 then {}
    else ArchetypeHandles(w, archs, n - 1) + ListHandles(w, archs[n - 1].chunks, |archs[n - 1].chunks|)
  }

  function CountUpto(archs: seq<Archetype>, n: nat): nat
    requires n <= |archs|
  {
    if n == 0 then 0 else CountUpto(archs, n - 1) + archs[n - 1].entityCount
  }

  /** The tracking and the rows speak of the same chunks. */
  ghost predicate SameChunks(w: Rows, archs: seq<Archetype>, hs: map<nat, Header>) {
    && Agree(archs, hs) && Counted(archs, hs) && w.chunks.Keys == hs.Keys
    && forall c :: c in hs ==> w.chunks[c].count == hs[c].count && w.chunks[c].arch == hs[c].arch
  }

  lemma {:induction false} InArchetypes(w: Rows, archs: seq<Archetype>, hs: map<nat, Header>, n: nat, h: Handle)
    requires RowsAgree(w, NoRows) && SameChunks(w, archs, hs) && n <= |archs|
    ensures h in ArchetypeHandles(w, archs, n) <==>
      h in w.places && w.places[h].At? && w.places[h].chunk in w.chunks && w.chunks[w.places[h].chunk].arch < n
  {
    if h in w.places { assert Seated(w, h); }
    if n > 0 {
      InArchetypes(w, archs, hs, n - 1, h);
      var a := archs[n - 1];
      assert ArchAgree(a, n - 1, hs);
      InList(w, a.chunks, |a.chunks|, h);
      if h in w.places && w.chunks[w.places[h].chunk].arch == n - 1 {
        var c := w.places[h].chunk;
        assert HeaderOk(a, c, hs[c]);
        assert h in HandlesOf(w, a.chunks[hs[c].listIndex]);
      }
    }
  }

  /** An archetype's count is the number of entities in its chunks. */
  lemma OneArchetype(w: Rows, archs: seq<Archetype>, hs: map<nat, Header>, k: nat)
    requires RowsAgree(w, NoRows) && SameChunks(w, archs, hs) && k < |archs|
    ensures |ListHandles(w, archs[k].chunks, |archs[k].chunks|)| == archs[k].entityCount
  {
    var a := archs[k];
    assert ArchAgree(a, k, hs);
    forall i | 0 <= i < |a.chunks| ensures a.chunks[i] in hs && |HandlesOf(w, a.chunks[i])| == hs[a.chunks[i]].count {
      RowCount(w, a.chunks[i], w.chunks[a.chunks[i]].count);
    }
    ListCount(w, hs, a.chunks, |a.chunks|);
    assert a.entityCount == Total(archs, hs, k);
  }

  lemma Apart(w: Rows, archs: seq<Archetype>, hs: map<nat, Header>, k: nat)
    requires RowsAgree(w, NoRows) && SameChunks(w, archs, hs) && k < |archs|
    ensures ArchetypeHandles(w, archs, k) !! ListHandles(w, archs[k].chunks, |archs[k].chunks|)
  {
    var chunks := archs[k].chunks;
    assert ArchAgree(archs[k], k, hs);
    forall h | h in ListHandles(w, chunks, |chunks|) ensures h !in ArchetypeHandles(w, archs, k) {
      InArchetypes(w, archs, hs, k, h);
      InList(w, chunks, |chunks|, h);
    }
  }

  /** Archetype k's chunks add entityCount handles to those of the archetypes before it. */
  ghost predicate Adds(w: Rows, archs: seq<Archetype>, k: nat)
    requires k < |archs|
  {
    && |ListHandles(w, archs[k].chunks, |archs[k].chunks|)| == archs[k].entityCount
    && ArchetypeHandles(w, archs, k) !! ListHandles(w, archs[k].chunks, |archs[k].chunks|)
  }

  lemma {:induction false} ArchetypeCount(w: Rows, archs: seq<Archetype>, n: nat)
    requires n <= |archs| && forall k :: 0 <= k < n ==> Adds(w, archs, k)
    ensures |ArchetypeHandles(w, archs, n)| == CountUpto(archs, n)
  {
    if n > 0 {
      ArchetypeCount(w, archs, n - 1);
      assert Adds(w, archs, n - 1);
    }
  }

  /** Over all archetypes: the number of live entities. */
  lemma CountsAddUp(w: Rows, archs: seq<Archetype>, hs: map<nat, Header>)
    requires RowsAgree(w, NoRows) && SameChunks(w, archs, hs)
    ensures CountUpto(archs, |archs|) == |Entities(w)|
  {
    forall k | 0 <= k < |archs| ensures Adds(w, archs, k) {
      OneArchetype(w, archs, hs, k);
      Apart(w, archs, hs, k);
    }
    ArchetypeCount(w, archs, |archs|);
    forall h ensures h in ArchetypeHandles(w, archs, |archs|) <==> h in w.places {
      InArchetypes(w, archs, hs, |archs|, h);
      if h in w.places { assert Seated(w, h); }
    }
    assert ArchetypeHandles(w, archs, |archs|) == w.places.Keys == Entities(w).Keys;
  }
}
