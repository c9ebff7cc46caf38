/** How archetypes keep track of their chunks (src/ECS/Archetype.cpp:7-96, 128-203, 430-462): the chunk list with
    its back-indexes, the chunks that still have room, and the entity counts. */
module ChunkTracking {
  import opened Collections
  import Probing
  import ChunkListMap

  /** The header fields of a chunk. */
  datatype Header = Header(arch: nat, count: nat, listIndex: nat, emptyIndex: int)

  /** chunks is the list of chunk ids, shared the row of shared component indices of each. Chunks with room are in
      chunksWithEmptySlots if the archetype has no shared components, else they are the members of its map keyed by
      shared values, which freeChunks lists. */
  datatype Archetype = Archetype(numShared: nat, capacity: nat, chunks: seq<nat>, shared: seq<seq<nat>>,
                                 chunksWithEmptySlots: seq<nat>, freeChunks: set<nat>, entityCount: nat)

  /** What the tracking stands for: each chunk's archetype, number of entities and shared values. */
  datatype Info = Info(arch: nat, count: nat, shared: seq<nat>)

  /** The chunk list and the chunks agree. */
  predicate ListOk(a: Archetype, k: nat, hs: map<nat, Header>) {
    && |a.chunks| == |a.shared|
    && (forall i :: 0 <= i < |a.chunks| ==>
          a.chunks[i] in hs && hs[a.chunks[i]].arch == k && hs[a.chunks[i]].listIndex == i)
    && (forall i :: 0 <= i < |a.shared| ==> |a.shared[i]| == a.numShared)
  }

  /** What is tracked as having room has room and names its place. */
  predicate RoomOk(a: Archetype, k: nat, hs: map<nat, Header>) {
    && (a.numShared > 0 ==> a.chunksWithEmptySlots == [])
    && (a.numShared == 0 ==> a.freeChunks == {})
    && (forall i :: 0 <= i < |a.chunksWithEmptySlots| ==>
          var c := a.chunksWithEmptySlots[i];
          c in hs && hs[c].arch == k && hs[c].emptyIndex == i && hs[c].count < a.capacity)
    && (forall c :: c in a.freeChunks ==> c in hs && hs[c].arch == k && hs[c].count < a.capacity)
  }

  /** A chunk is where its list index says, and tracked as having room exactly if it has. */
  predicate HeaderOk(a: Archetype, c: nat, h: Header) {
    && h.listIndex < |a.chunks| && a.chunks[h.listIndex] == c && h.count <= a.capacity
    && (h.count < a.capacity ==> Tracked(a, c, h))
  }

  predicate Tracked(a: Archetype, c: nat, h: Header) {
    if a.numShared == 0
    then 0 <= h.emptyIndex < |a.chunksWithEmptySlots| && a.chunksWithEmptySlots[h.emptyIndex] == c
    else c in a.freeChunks
  }

  /** One archetype and its chunks agree. */
  ghost predicate ArchAgree(a: Archetype, k: nat, hs: map<nat, Header>) {
    && (a.capacity == 0 ==> a.chunks == []) && ListOk(a, k, hs) && RoomOk(a, k, hs)
    && forall c :: c in hs && hs[c].arch == k ==> HeaderOk(a, c, hs[c])
  }

  ghost predicate Agree(archs: seq<Archetype>, hs: map<nat, Header>) {
    && (forall k {:trigger ArchAgree(archs[k], k, hs)} :: 0 <= k < |archs| ==> ArchAgree(archs[k], k, hs))
    && (forall c :: c in hs ==> hs[c].arch < |archs|)
  }

  /** A change of one archetype and its own chunks. */
  lemma Localize(archs: seq<Archetype>, hs: map<nat, Header>, k: nat, a: Archetype, hs1: map<nat, Header>)
    requires Agree(archs, hs) && k < |archs| && ArchAgree(a, k, hs1)
    requires forall c :: c in hs && hs[c].arch != k ==> c in hs1 && hs1[c] == hs[c]
    requires forall c :: c in hs1 && hs1[c].arch != k ==> c in hs && hs1[c] == hs[c]
    ensures Agree(archs[k := a], hs1)
  {
    forall j | 0 <= j < |archs| && j != k ensures ArchAgree(archs[j], j, hs1) {
      assert ArchAgree(archs[j], j, hs);
    }
  }

  // Room tracking.

  /** emptySlotTrackingRemoveChunk: the last tracked chunk takes the place of the one removed. */
  function RoomRemove(a: Archetype, hs: map<nat, Header>, c: nat): (Archetype, map<nat, Header>)
    requires c in hs && Tracked(a, c, hs[c])
    requires forall i :: 0 <= i < |a.chunksWithEmptySlots| ==> a.chunksWithEmptySlots[i] in hs
  {
    if a.numShared == 0 then
      var index := hs[c].emptyIndex;
      var last := a.chunksWithEmptySlots[|a.chunksWithEmptySlots| - 1];
      (a.(chunksWithEmptySlots := SwapBack(a.chunksWithEmptySlots, index)),
       if c == last then hs else hs[last := hs[last].(emptyIndex := index)])
    else (a.(freeChunks := a.freeChunks - {c}), hs[c := hs[c].(emptyIndex := -1)])
  }

  function RoomAdd(a: Archetype, hs: map<nat, Header>, c: nat): (Archetype, map<nat, Header>)
    requires c in hs
  {
    if a.numShared == 0 then
      (a.(chunksWithEmptySlots := a.chunksWithEmptySlots + [c]),
       hs[c := hs[c].(emptyIndex := |a.chunksWithEmptySlots|)])
    else (a.(freeChunks := a.freeChunks + {c}), hs)
  }

  /** A chunk is filled up: it leaves the tracking. */
  lemma FillUp(a: Archetype, k: nat, hs: map<nat, Header>, c: nat)
    requires ArchAgree(a, k, hs) && c in hs && hs[c].arch == k && hs[c].count < a.capacity
    ensures var (a1, hs1) := RoomRemove(a, hs, c);
      ArchAgree(a1, k, hs1[c := hs1[c].(count := a.capacity)])
  {
  }

  /** A full chunk loses entities: it enters the tracking. */
  lemma OpenUp(a: Archetype, k: nat, hs: map<nat, Header>, c: nat, n: nat)
    requires ArchAgree(a, k, hs) && c in hs && hs[c].arch == k && hs[c].count == a.capacity && n < a.capacity
    ensures var (a1, hs1) := RoomAdd(a, hs, c);
      ArchAgree(a1, k, hs1[c := hs1[c].(count := n)])
  {
    var (a1, hs1) := RoomAdd(a, hs, c);
    assert c !in a.freeChunks;
    forall i | 0 <= i < |a.chunksWithEmptySlots| ensures a.chunksWithEmptySlots[i] != c {}
  }

  /** Room before and after: only the count changes. */
  lemma Recount(a: Archetype, k: nat, hs: map<nat, Header>, c: nat, n: nat)
    requires ArchAgree(a, k, hs) && c in hs && hs[c].arch == k && hs[c].count < a.capacity && n < a.capacity
    ensures ArchAgree(a, k, hs[c := hs[c].(count := n)])
  {
  }

  // The chunk list.

  /** addEmptyChunk: a new chunk is listed last and tracked as having room. */
  function ListNew(a: Archetype, k: nat, hs: map<nat, Header>, c: nat, shared: seq<nat>)
    : (Archetype, map<nat, Header>)
  {
    RoomAdd(a.(chunks := a.chunks + [c], shared := a.shared + [shared]), hs[c := Header(k, 0, |a.chunks|, -1)], c)
  }

  /** removeFromChunkList and freeChunk: the last listed chunk takes the place of the one removed. */
  function Unlist(a: Archetype, hs: map<nat, Header>, c: nat): (Archetype, map<nat, Header>)
    requires c in hs && |a.chunks| == |a.shared| && hs[c].listIndex < |a.chunks|
    requires forall i :: 0 <= i < |a.chunks| ==> a.chunks[i] in hs
  {
    var i := hs[c].listIndex;
    var a1 := a.(chunks := SwapBack(a.chunks, i), shared := SwapBack(a.shared, i));
    var hs1 := if i < |a1.chunks| then hs[a1.chunks[i] := hs[a1.chunks[i]].(listIndex := i)] else hs;
    (a1, map x | x in hs1 && x != c :: hs1[x])
  }

  lemma NewChunk(a: Archetype, k: nat, hs: map<nat, Header>, c: nat, shared: seq<nat>)
    requires ArchAgree(a, k, hs) && c !in hs && |shared| == a.numShared && a.capacity > 0
    ensures var (a1, hs1) := ListNew(a, k, hs, c, shared);
      && ArchAgree(a1, k, hs1) && hs1.Keys == hs.Keys + {c}
      && hs1[c].arch == k && hs1[c].count == 0 && hs1[c].listIndex == |a.chunks|
      && forall x :: x in hs ==> hs1[x] == hs[x]
  {
    var (a1, hs1) := ListNew(a, k, hs, c, shared);
    forall i | 0 <= i < |a.chunks| ensures a.chunks[i] != c {}
    forall i | 0 <= i < |a.chunksWithEmptySlots| ensures a.chunksWithEmptySlots[i] != c {}
    assert c !in a.freeChunks;
    assert ListOk(a1, k, hs1);
    assert RoomOk(a1, k, hs1);
  }

  /** Taking a full chunk off the list. Every other chunk keeps its shared values, wherever its row went. */
  lemma UnlistFull(a: Archetype, k: nat, hs: map<nat, Header>, c: nat)
    requires a.capacity > 0 && ListOk(a, k, hs) && RoomOk(a, k, hs) && c in hs && hs[c].arch == k
    requires hs[c].listIndex < |a.chunks| && a.chunks[hs[c].listIndex] == c
    requires forall x :: x in hs && hs[x].arch == k && x != c ==> HeaderOk(a, x, hs[x])
    requires c !in a.chunksWithEmptySlots && c !in a.freeChunks
    ensures var (a1, hs1) := Unlist(a, hs, c);
      && ArchAgree(a1, k, hs1) && hs1.Keys == hs.Keys - {c}
      && (forall x :: x in hs1 ==>
            hs1[x].arch == hs[x].arch && hs1[x].count == hs[x].count && (hs[x].arch != k ==> hs1[x] == hs[x]))
      && (forall x :: x in hs1 && hs1[x].arch == k ==> a1.shared[hs1[x].listIndex] == a.shared[hs[x].listIndex])
  {
    var (a1, hs1) := Unlist(a, hs, c);
    UnlistHeaders(a, k, hs, c);
    forall x | x in hs1 && hs1[x].arch == k
      ensures HeaderOk(a1, x, hs1[x]) && a1.shared[hs1[x].listIndex] == a.shared[hs[x].listIndex]
    {
      assert HeaderOk(a, x, hs[x]);
    }
  }

  lemma UnlistHeaders(a: Archetype, k: nat, hs: map<nat, Header>, c: nat)
    requires ListOk(a, k, hs) && RoomOk(a, k, hs) && c in hs && hs[c].arch == k
    requires hs[c].listIndex < |a.chunks| && a.chunks[hs[c].listIndex] == c
    requires c !in a.chunksWithEmptySlots && c !in a.freeChunks
    ensures var (a1, hs1) := Unlist(a, hs, c); var last := |a.chunks| - 1;
      && hs1.Keys == hs.Keys - {c}
      && (forall x :: x in hs1 ==>
            hs1[x] == hs[x].(listIndex := if x == a.chunks[last] then hs[c].listIndex else hs[x].listIndex))
      && ListOk(a1, k, hs1) && RoomOk(a1, k, hs1)
  {
    var (a1, hs1) := Unlist(a, hs, c);
    var i := hs[c].listIndex;
    forall j | 0 <= j < |a1.chunks|
      ensures a1.chunks[j] in hs1 && hs1[a1.chunks[j]].arch == k && hs1[a1.chunks[j]].listIndex == j
    {
      assert a1.chunks[j] == a.chunks[if j == i then |a.chunks| - 1 else j];
    }
  }

  /** The number of entities in the first n listed chunks. */
  function Population(hs: map<nat, Header>, chunks: seq<nat>, n: nat): nat
    requires n <= |chunks|
  {
    if n == 0 then 0
    else Population(hs, chunks, n - 1) + if chunks[n - 1] in hs then hs[chunks[n - 1]].count else 0
  }

  lemma {:induction false} PopulationSame(hs: map<nat, Header>, hs1: map<nat, Header>, chunks: seq<nat>,
                                          chunks1: seq<nat>, n: nat)
    requires n <= |chunks| && n <= |chunks1|
    requires forall i :: 0 <= i < n ==>
      chunks1[i] == chunks[i] && chunks[i] in hs && chunks[i] in hs1 && hs1[chunks[i]].count == hs[chunks[i]].count
    ensures Population(hs1, chunks1, n) == Population(hs, chunks, n)
  {
    if n > 0 { PopulationSame(hs, hs1, chunks, chunks1, n - 1); }
  }

  /** One chunk's count changes. */
  lemma {:induction false} PopulationRecount(hs: map<nat, Header>, hs1: map<nat, Header>, chunks: seq<nat>, i: nat,
                                             n: nat)
    requires i < n <= |chunks|
    requires forall j :: 0 <= j < n ==> chunks[j] in hs && chunks[j] in hs1
    requires forall j :: 0 <= j < n && j != i ==> hs1[chunks[j]].count == hs[chunks[j]].count
    ensures Population(hs1, chunks, n) == Population(hs, chunks, n) - hs[chunks[i]].count + hs1[chunks[i]].count
  {
    if i == n - 1 {
      PopulationSame(hs, hs1, chunks, chunks, n - 1);
    } else {
      PopulationRecount(hs, hs1, chunks, i, n - 1);
    }
  }

  /** The last chunk takes the place of chunk i. */
  lemma {:induction false} PopulationSwap(hs: map<nat, Header>, hs1: map<nat, Header>, chunks: seq<nat>, i: nat)
    requires i < |chunks|
    requires forall j :: 0 <= j < |chunks| ==> chunks[j] in hs
    requires forall j :: 0 <= j < |chunks| && j != i ==> chunks[j] in hs1 && hs1[chunks[j]].count == hs[chunks[j]].count
    ensures var r := SwapBack(chunks, i);
      Population(hs1, r, |r|) == Population(hs, chunks, |chunks|) - hs[chunks[i]].count
  {
    var r, n := SwapBack(chunks, i), |chunks| - 1;
    if i == n {
      PopulationSame(hs, hs1, chunks, r, n);
    } else {
      PopulationSame(hs, hs, chunks, r, i);
      PopulationSplit(hs, hs1, chunks, r, i, n);
    }
  }

  lemma {:induction false} PopulationSplit(hs: map<nat, Header>, hs1: map<nat, Header>, chunks: seq<nat>, r: seq<nat>,
                                           i: nat, n: nat)
    requires i < n < |chunks| && n <= |r| && (forall j :: 0 <= j < |chunks| ==> chunks[j] in hs)
    requires forall j :: 0 <= j < n ==> r[j] in hs && r[j] in hs1 && hs1[r[j]].count == hs[r[j]].count
    requires forall j :: 0 <= j < n && j != i ==> r[j] == chunks[j]
    ensures Population(hs1, r, n) == Population(hs, chunks, n) - hs[chunks[i]].count + hs[r[i]].count
  {
    if n == i + 1 {
      PopulationSame(hs, hs1, chunks, r, i);
    } else {
      PopulationSplit(hs, hs1, chunks, r, i, n - 1);
    }
  }

  // All archetypes together.

  function ShapeOf(archs: seq<Archetype>, hs: map<nat, Header>): map<nat, Info> {
    map c | c in hs :: InfoOf(archs, hs[c])
  }

  function InfoOf(archs: seq<Archetype>, h: Header): Info {
    var listed := h.arch < |archs| && h.listIndex < |archs[h.arch].shared|;
    Info(h.arch, h.count, if listed then archs[h.arch].shared[h.listIndex] else [])
  }

  function Total(archs: seq<Archetype>, hs: map<nat, Header>, k: nat): nat
    requires k < |archs|
  {
    Population(hs, archs[k].chunks, |archs[k].chunks|)
  }

  predicate SameKind(a: Archetype, b: Archetype) {
    a.capacity == b.capacity && a.numShared == b.numShared && a.entityCount == b.entityCount
  }

  predicate SameKinds(archs: seq<Archetype>, archs1: seq<Archetype>) {
    |archs1| == |archs| && forall k :: 0 <= k < |archs| ==> SameKind(archs[k], archs1[k])
  }

  /** Chunk c has n entities, or is gone if n is 0. */
  function WithCount(m: map<nat, Info>, c: nat, n: nat): map<nat, Info>
    requires c in m
  {
    if n == 0 then Without(m, c) else m[c := m[c].(count := n)]
  }

  /** Chunk c now has n entities, or is gone if n is 0; nothing else that can be observed changed. */
  ghost predicate Recounted(archs: seq<Archetype>, hs: map<nat, Header>, archs1: seq<Archetype>, hs1: map<nat, Header>,
                            c: nat, n: nat)
    requires c in hs
  {
    && Agree(archs1, hs1) && SameKinds(archs, archs1)
    && ShapeOf(archs1, hs1) == WithCount(ShapeOf(archs, hs), c, n)
    && forall k :: 0 <= k < |archs| ==>
      Total(archs1, hs1, k) == Total(archs, hs, k) + if k == hs[c].arch then n - hs[c].count else 0
  }

  lemma InPlaceShape(archs: seq<Archetype>, hs: map<nat, Header>, c: nat, n: nat, a1: Archetype, hs1: map<nat, Header>)
    requires c in hs && hs[c].arch < |archs| && a1.shared == archs[hs[c].arch].shared
    requires hs1.Keys == hs.Keys && hs1[c].count == n
    requires forall x :: x in hs ==> hs1[x].arch == hs[x].arch && hs1[x].listIndex == hs[x].listIndex
    requires forall x :: x in hs && x != c ==> hs1[x].count == hs[x].count
    ensures ShapeOf(archs[hs[c].arch := a1], hs1) == ShapeOf(archs, hs)[c := InfoOf(archs, hs[c]).(count := n)]
  {
    var archs1 := archs[hs[c].arch := a1];
    forall x | x in hs ensures InfoOf(archs1, hs1[x]) == InfoOf(archs, hs[x]).(count := hs1[x].count) {}
  }

  /** The branches of setChunkCount that keep the chunk. */
  lemma RecountedInPlace(archs: seq<Archetype>, hs: map<nat, Header>, c: nat, n: nat, a1: Archetype,
                         hs1: map<nat, Header>)
    requires Agree(archs, hs) && c in hs && n > 0
    requires var k := hs[c].arch;
      && ArchAgree(a1, k, hs1) && SameKind(archs[k], a1) && a1.chunks == archs[k].chunks && a1.shared == archs[k].shared
    requires hs1.Keys == hs.Keys && hs1[c].count == n
    requires forall x :: x in hs ==> hs1[x].arch == hs[x].arch && hs1[x].listIndex == hs[x].listIndex
    requires forall x :: x in hs && x != c ==> hs1[x].count == hs[x].count
    requires forall x :: x in hs && hs[x].arch != hs[c].arch ==> hs1[x] == hs[x]
    ensures Recounted(archs, hs, archs[hs[c].arch := a1], hs1, c, n)
  {
    var k := hs[c].arch;
    var archs1 := archs[k := a1];
    assert ArchAgree(archs[k], k, hs);
    Localize(archs, hs, k, a1, hs1);
    InPlaceShape(archs, hs, c, n, a1, hs1);
    forall j | 0 <= j < |archs|
      ensures Total(archs1, hs1, j) == Total(archs, hs, j) + if j == k then n - hs[c].count else 0
    {
      if j == k {
        PopulationRecount(hs, hs1, a1.chunks, hs[c].listIndex, |a1.chunks|);
      } else {
        TotalsKept(archs, hs, k, a1, hs1, j);
      }
    }
  }

  /** The room part of setChunkCount. */
  function RoomChange(a: Archetype, hs: map<nat, Header>, c: nat, n: nat): (Archetype, map<nat, Header>)
    requires c in hs && (n == a.capacity ==> Tracked(a, c, hs[c]))
    requires forall i :: 0 <= i < |a.chunksWithEmptySlots| ==> a.chunksWithEmptySlots[i] in hs
  {
    if n == a.capacity then RoomRemove(a, hs, c) else if hs[c].count == a.capacity then RoomAdd(a, hs, c) else (a, hs)
  }

  lemma RoomChanged(a: Archetype, k: nat, hs: map<nat, Header>, c: nat, n: nat)
    requires ArchAgree(a, k, hs) && c in hs && hs[c].arch == k && n != hs[c].count && n <= a.capacity
    ensures n == a.capacity ==> Tracked(a, c, hs[c])
    ensures var (a1, hs1) := RoomChange(a, hs, c, n);
      && c in hs1 && ArchAgree(a1, k, hs1[c := hs1[c].(count := n)])
  {
    assert HeaderOk(a, c, hs[c]);
    if n == a.capacity {
      FillUp(a, k, hs, c);
    } else if hs[c].count == a.capacity {
      OpenUp(a, k, hs, c, n);
    } else {
      Recount(a, k, hs, c, n);
    }
  }

  lemma RoomChangeFrame(a: Archetype, k: nat, hs: map<nat, Header>, c: nat, n: nat)
    requires RoomOk(a, k, hs) && c in hs && hs[c].arch == k && (n == a.capacity ==> Tracked(a, c, hs[c]))
    ensures var (a1, hs1) := RoomChange(a, hs, c, n);
      && SameKind(a, a1) && a1.chunks == a.chunks && a1.shared == a.shared && hs1.Keys == hs.Keys
      && (forall x :: x in hs ==> hs1[x].(emptyIndex := 0) == hs[x].(emptyIndex := 0))
      && (forall x :: x in hs && hs[x].arch != k ==> hs1[x] == hs[x])
  {
  }

  /** setChunkCount when the chunk stays. */
  lemma SetCountFits(archs: seq<Archetype>, hs: map<nat, Header>, c: nat, n: nat)
    requires Agree(archs, hs) && c in hs && n != hs[c].count && 0 < n <= archs[hs[c].arch].capacity
    ensures var k := hs[c].arch;
      && RoomOk(archs[k], k, hs) && (n == archs[k].capacity ==> Tracked(archs[k], c, hs[c]))
      && var (a1, hs1) := RoomChange(archs[k], hs, c, n);
      c in hs1 && Recounted(archs, hs, archs[k := a1], hs1[c := hs1[c].(count := n)], c, n)
  {
    var k := hs[c].arch;
    assert ArchAgree(archs[k], k, hs);
    RoomChanged(archs[k], k, hs, c, n);
    RoomChangeFrame(archs[k], k, hs, c, n);
    var (a1, hs1) := RoomChange(archs[k], hs, c, n);
    RecountedInPlace(archs, hs, c, n, a1, hs1[c := hs1[c].(count := n)]);
  }

  /** The room part of releaseChunk. */
  function RoomDrop(a: Archetype, hs: map<nat, Header>, c: nat): (Archetype, map<nat, Header>)
    requires c in hs && (hs[c].count < a.capacity ==> Tracked(a, c, hs[c]))
    requires forall i :: 0 <= i < |a.chunksWithEmptySlots| ==> a.chunksWithEmptySlots[i] in hs
  {
    if hs[c].count < a.capacity then RoomRemove(a, hs, c) else (a, hs)
  }

  lemma RoomDropFrame(a: Archetype, k: nat, hs: map<nat, Header>, c: nat)
    requires RoomOk(a, k, hs) && c in hs && hs[c].arch == k && (hs[c].count < a.capacity ==> Tracked(a, c, hs[c]))
    ensures var (a0, hs0) := RoomDrop(a, hs, c);
      && hs0.Keys == hs.Keys && a0.chunks == a.chunks && a0.shared == a.shared && SameKind(a, a0)
      && (forall x :: x in hs ==>
            hs0[x].(emptyIndex := 0) == hs[x].(emptyIndex := 0) && (hs[x].arch != k ==> hs0[x] == hs[x]))
  {
  }

  lemma RoomDropped(a: Archetype, k: nat, hs: map<nat, Header>, c: nat)
    requires ArchAgree(a, k, hs) && c in hs && hs[c].arch == k
    ensures hs[c].count < a.capacity ==> Tracked(a, c, hs[c])
    ensures var (a0, hs0) := RoomDrop(a, hs, c);
      && RoomOk(a0, k, hs0) && c !in a0.chunksWithEmptySlots && c !in a0.freeChunks
      && (forall x :: x in hs && hs[x].arch == k && x != c ==> x in hs0 && HeaderOk(a0, x, hs0[x]))
  {
  }

  /** Chunk c, and nothing else, is gone from the list of archetype k, by swap-back. */
  ghost predicate Unlisted(a: Archetype, hs: map<nat, Header>, c: nat, k: nat, a1: Archetype, hs1: map<nat, Header>) {
    && c in hs && k == hs[c].arch && ArchAgree(a, k, hs) && ArchAgree(a1, k, hs1)
    && hs1.Keys == hs.Keys - {c} && SameKind(a, a1)
    && hs[c].listIndex < |a.chunks| && a1.chunks == SwapBack(a.chunks, hs[c].listIndex)
    && (forall x :: x in hs1 ==>
          hs1[x].arch == hs[x].arch && hs1[x].count == hs[x].count && (hs[x].arch != k ==> hs1[x] == hs[x]))
    && (forall x :: x in hs1 && hs1[x].arch == k ==>
          hs1[x].listIndex < |a1.shared| && hs[x].listIndex < |a.shared|
          && a1.shared[hs1[x].listIndex] == a.shared[hs[x].listIndex])
  }

  /** releaseChunk: off the room tracking if it had room, off the list, and gone. */
  lemma ReleasedFrom(a: Archetype, k: nat, hs: map<nat, Header>, c: nat)
    requires ArchAgree(a, k, hs) && c in hs && hs[c].arch == k
    ensures var (a0, hs0) := RoomDrop(a, hs, c);
      && c in hs0 && |a0.chunks| == |a0.shared| && hs0[c].listIndex < |a0.chunks|
      && (forall i :: 0 <= i < |a0.chunks| ==> a0.chunks[i] in hs0)
      && var (a1, hs1) := Unlist(a0, hs0, c); Unlisted(a, hs, c, k, a1, hs1)
  {
    RoomDropped(a, k, hs, c);
    RoomDropFrame(a, k, hs, c);
    var (a0, hs0) := RoomDrop(a, hs, c);
    assert HeaderOk(a, c, hs[c]);
    UnlistFull(a0, k, hs0, c);
  }

  lemma ReleasedShape(archs: seq<Archetype>, hs: map<nat, Header>, c: nat, archs1: seq<Archetype>,
                      hs1: map<nat, Header>)
    requires c in hs && hs1.Keys == hs.Keys - {c}
    requires forall x :: x in hs1 ==> InfoOf(archs1, hs1[x]) == InfoOf(archs, hs[x])
    ensures ShapeOf(archs1, hs1) == Without(ShapeOf(archs, hs), c)
  {
  }

  /** A chunk that stays reads the same after the change of archetype k. */
  lemma InfoKept(archs: seq<Archetype>, hs: map<nat, Header>, k: nat, a1: Archetype, hs1: map<nat, Header>, x: nat)
    requires k < |archs| && ArchAgree(archs[k], k, hs) && ArchAgree(a1, k, hs1) && x in hs && x in hs1
    requires hs1[x].arch == hs[x].arch && hs1[x].count == hs[x].count && (hs[x].arch != k ==> hs1[x] == hs[x])
    requires hs[x].arch == k ==>
      && hs1[x].listIndex < |a1.shared| && hs[x].listIndex < |archs[k].shared|
      && a1.shared[hs1[x].listIndex] == archs[k].shared[hs[x].listIndex]
    ensures InfoOf(archs[k := a1], hs1[x]) == InfoOf(archs, hs[x])
  {
  }

  /** The totals after archetype k's chunks became hs1, of which it lists a1.chunks. */
  lemma TotalsKept(archs: seq<Archetype>, hs: map<nat, Header>, k: nat, a1: Archetype, hs1: map<nat, Header>, j: nat)
    requires Agree(archs, hs) && k < |archs| && j < |archs| && j != k
    requires forall x :: x in hs && hs[x].arch != k ==> x in hs1 && hs1[x] == hs[x]
    ensures Total(archs[k := a1], hs1, j) == Total(archs, hs, j)
  {
    assert ArchAgree(archs[j], j, hs);
    PopulationSame(hs, hs1, archs[j].chunks, archs[j].chunks, |archs[j].chunks|);
  }

  lemma UnlistedTotal(a: Archetype, hs: map<nat, Header>, c: nat, k: nat, a1: Archetype, hs1: map<nat, Header>)
    requires Unlisted(a, hs, c, k, a1, hs1)
    ensures Population(hs1, a1.chunks, |a1.chunks|) == Population(hs, a.chunks, |a.chunks|) - hs[c].count
  {
    assert ListOk(a, k, hs) && HeaderOk(a, c, hs[c]);
    PopulationSwap(hs, hs1, a.chunks, hs[c].listIndex);
  }

  lemma UnlistedInfo(archs: seq<Archetype>, hs: map<nat, Header>, c: nat, k: nat, a1: Archetype, hs1: map<nat, Header>)
    requires k < |archs| && Unlisted(archs[k], hs, c, k, a1, hs1)
    ensures ShapeOf(archs[k := a1], hs1) == Without(ShapeOf(archs, hs), c)
  {
    forall x | x in hs1 ensures InfoOf(archs[k := a1], hs1[x]) == InfoOf(archs, hs[x]) {
      hide ArchAgree, SameKind;
      InfoKept(archs, hs, k, a1, hs1, x);
    }
    ReleasedShape(archs, hs, c, archs[k := a1], hs1);
  }

  lemma ReleasedChunk(archs: seq<Archetype>, hs: map<nat, Header>, c: nat, k: nat, a1: Archetype, hs1: map<nat, Header>)
    requires Agree(archs, hs) && k < |archs| && Unlisted(archs[k], hs, c, k, a1, hs1)
    ensures Recounted(archs, hs, archs[k := a1], hs1, c, 0)
  {
    hide ArchAgree, ShapeOf, Population, InfoOf, Without;
    var archs1 := archs[k := a1];
    UnlistedInfo(archs, hs, c, k, a1, hs1);
    UnlistedTotal(archs[k], hs, c, k, a1, hs1);
    Localize(archs, hs, k, a1, hs1);
    forall j | 0 <= j < |archs| && j != k ensures Total(archs1, hs1, j) == Total(archs, hs, j) {
      TotalsKept(archs, hs, k, a1, hs1, j);
    }
  }

  lemma ListedTotals(archs: seq<Archetype>, hs: map<nat, Header>, k: nat, c: nat, a1: Archetype, hs1: map<nat, Header>)
    requires Agree(archs, hs) && k < |archs| && ListOk(archs[k], k, hs) && c !in hs
    requires a1.chunks == archs[k].chunks + [c]
    requires c in hs1 && hs1[c].count == 0 && forall x :: x in hs ==> x in hs1 && hs1[x] == hs[x]
    ensures forall j :: 0 <= j < |archs| ==> Total(archs[k := a1], hs1, j) == Total(archs, hs, j)
  {
    var a := archs[k];
    forall j | 0 <= j < |archs| ensures Total(archs[k := a1], hs1, j) == Total(archs, hs, j) {
      if j == k {
        PopulationSame(hs, hs1, a.chunks, a1.chunks, |a.chunks|);
      } else {
        TotalsKept(archs, hs, k, a1, hs1, j);
      }
    }
  }

  /** addEmptyChunk, over all archetypes. */
  lemma ListedChunk(archs: seq<Archetype>, hs: map<nat, Header>, k: nat, c: nat, shared: seq<nat>)
    requires Agree(archs, hs) && k < |archs| && c !in hs && |shared| == archs[k].numShared && archs[k].capacity > 0
    ensures var (a1, hs1) := ListNew(archs[k], k, hs, c, shared);
      && Agree(archs[k := a1], hs1) && SameKinds(archs, archs[k := a1])
      && ShapeOf(archs[k := a1], hs1) == ShapeOf(archs, hs)[c := Info(k, 0, shared)]
      && hs1.Keys == hs.Keys + {c} && hs1[c].count == 0 && (forall x :: x in hs ==> hs1[x] == hs[x])
      && forall j :: 0 <= j < |archs| ==> Total(archs[k := a1], hs1, j) == Total(archs, hs, j)
  {
    assert ArchAgree(archs[k], k, hs);
    NewChunk(archs[k], k, hs, c, shared);
    var (a1, hs1) := ListNew(archs[k], k, hs, c, shared);
    Localize(archs, hs, k, a1, hs1);
    ListedShape(archs, hs, k, c, shared, a1, hs1);
    ListedTotals(archs, hs, k, c, a1, hs1);
  }

  lemma ListedShape(archs: seq<Archetype>, hs: map<nat, Header>, k: nat, c: nat, shared: seq<nat>, a1: Archetype,
                    hs1: map<nat, Header>)
    requires k < |archs| && c !in hs && a1.shared == archs[k].shared + [shared] && hs1.Keys == hs.Keys + {c}
    requires hs1[c].arch == k && hs1[c].count == 0 && hs1[c].listIndex == |archs[k].shared|
    requires forall x :: x in hs ==> hs1[x] == hs[x] && (hs[x].arch == k ==> hs[x].listIndex < |archs[k].shared|)
    ensures ShapeOf(archs[k := a1], hs1) == ShapeOf(archs, hs)[c := Info(k, 0, shared)]
  {
    forall x | x in hs ensures InfoOf(archs[k := a1], hs1[x]) == InfoOf(archs, hs[x]) {}
  }

  lemma NewAgrees(archs: seq<Archetype>, hs: map<nat, Header>, a: Archetype)
    requires Agree(archs, hs) && a == Archetype(a.numShared, a.capacity, [], [], [], {}, 0)
    ensures Agree(archs + [a], hs)
  {
    forall k | 0 <= k <= |archs| ensures ArchAgree((archs + [a])[k], k, hs) {
      if k < |archs| {
        hide ArchAgree;
        assert ArchAgree(archs[k], k, hs);
      }
    }
  }

  lemma NewShape(archs: seq<Archetype>, hs: map<nat, Header>, a: Archetype)
    requires forall c :: c in hs ==> hs[c].arch < |archs|
    ensures ShapeOf(archs + [a], hs) == ShapeOf(archs, hs)
  {
    forall c | c in hs ensures InfoOf(archs + [a], hs[c]) == InfoOf(archs, hs[c]) {}
  }

  lemma NewCounted(archs: seq<Archetype>, hs: map<nat, Header>, a: Archetype)
    requires Counted(archs, hs) && a.chunks == [] && a.entityCount == 0
    ensures Counted(archs + [a], hs)
  {
    forall k | 0 <= k < |archs| ensures Total(archs + [a], hs, k) == Total(archs, hs, k) {}
  }

  lemma ArchetypeAdded(archs: seq<Archetype>, hs: map<nat, Header>, a: Archetype)
    requires Agree(archs, hs) && a == Archetype(a.numShared, a.capacity, [], [], [], {}, 0)
    ensures Agree(archs + [a], hs) && ShapeOf(archs + [a], hs) == ShapeOf(archs, hs)
    ensures Counted(archs, hs) ==> Counted(archs + [a], hs)
  {
    NewAgrees(archs, hs, a);
    NewShape(archs, hs, a);
    hide Agree, Counted, ShapeOf;
    if Counted(archs, hs) {
      NewCounted(archs, hs, a);
    }
  }

  /** A chunk's count is part of its archetype's population. */
  lemma {:induction false} PopulationAtLeast(hs: map<nat, Header>, chunks: seq<nat>, i: nat, n: nat)
    requires i < n <= |chunks| && chunks[i] in hs
    ensures Population(hs, chunks, n) >= hs[chunks[i]].count
  {
    if i < n - 1 { PopulationAtLeast(hs, chunks, i, n - 1); }
  }

  /** Setting an archetype's entity count touches nothing else. */
  lemma CountSet(archs: seq<Archetype>, hs: map<nat, Header>, k: nat, n: nat)
    requires Agree(archs, hs) && k < |archs|
    ensures var archs1 := archs[k := archs[k].(entityCount := n)];
      && Agree(archs1, hs) && ShapeOf(archs1, hs) == ShapeOf(archs, hs)
      && forall j :: 0 <= j < |archs| ==> Total(archs1, hs, j) == Total(archs, hs, j)
  {
    var a1 := archs[k].(entityCount := n);
    assert ArchAgree(archs[k], k, hs);
    assert ArchAgree(a1, k, hs);
    Localize(archs, hs, k, a1, hs);
    forall h: Header ensures InfoOf(archs[k := a1], h) == InfoOf(archs, h) {}
  }

  ghost predicate Counted(archs: seq<Archetype>, hs: map<nat, Header>) {
    forall k :: 0 <= k < |archs| ==> archs[k].entityCount == Total(archs, hs, k)
  }

  predicate NoneEmpty(hs: map<nat, Header>, but: set<nat>) {
    forall c :: c in hs && c !in but ==> hs[c].count > 0
  }

  lemma CountWithin(archs: seq<Archetype>, hs: map<nat, Header>, c: nat)
    requires Agree(archs, hs) && c in hs
    ensures hs[c].count <= archs[hs[c].arch].capacity
    ensures Total(archs, hs, hs[c].arch) >= hs[c].count
  {
    var a := archs[hs[c].arch];
    assert ArchAgree(a, hs[c].arch, hs);
    assert HeaderOk(a, c, hs[c]);
    PopulationAtLeast(hs, a.chunks, hs[c].listIndex, |a.chunks|);
  }

  /** A recount to a positive number, or a release, leaves no new empty chunk. */
  lemma StillNoneEmpty(archs: seq<Archetype>, hs: map<nat, Header>, archs1: seq<Archetype>, hs1: map<nat, Header>,
                       c: nat, n: nat)
    requires c in hs && Recounted(archs, hs, archs1, hs1, c, n) && NoneEmpty(hs, {c})
    ensures NoneEmpty(hs1, {})
  {
    forall x | x in hs1 ensures hs1[x].count > 0 {
      assert x in ShapeOf(archs1, hs1) && ShapeOf(archs1, hs1)[x].count == hs1[x].count;
    }
  }

  predicate SameLimits(archs: seq<Archetype>, archs1: seq<Archetype>) {
    && |archs1| == |archs|
    && forall k :: 0 <= k < |archs| ==>
         archs[k].capacity == archs1[k].capacity && archs[k].numShared == archs1[k].numShared
  }

  /** The entity count follows the chunk count. */
  lemma CountFollows(archs: seq<Archetype>, hs: map<nat, Header>, archs1: seq<Archetype>, hs1: map<nat, Header>,
                     c: nat, n: nat, total: nat)
    requires Agree(archs, hs) && Counted(archs, hs) && c in hs && NoneEmpty(hs, {c})
    requires Recounted(archs, hs, archs1, hs1, c, n)
    requires total == archs[hs[c].arch].entityCount - hs[c].count + n
    ensures var k := hs[c].arch;
      && k < |archs1|
      && var archs2 := archs1[k := archs1[k].(entityCount := total)];
      && Agree(archs2, hs1) && Counted(archs2, hs1) && NoneEmpty(hs1, {}) && SameLimits(archs, archs2)
      && ShapeOf(archs2, hs1) == WithCount(ShapeOf(archs, hs), c, n)
  {
    CountSet(archs1, hs1, hs[c].arch, total);
    StillNoneEmpty(archs, hs, archs1, hs1, c, n);
  }

  /** What setChunkCount is well defined on. */
  lemma SetCountReady(archs: seq<Archetype>, hs: map<nat, Header>, c: nat, n: nat)
    requires Agree(archs, hs) && c in hs && n != hs[c].count && n <= archs[hs[c].arch].capacity
    ensures var k, a := hs[c].arch, archs[hs[c].arch];
      && ArchAgree(a, k, hs) && (hs[c].count < a.capacity ==> Tracked(a, c, hs[c]))
      && (n == a.capacity ==> Tracked(a, c, hs[c]))
      && (forall i :: 0 <= i < |a.chunksWithEmptySlots| ==> a.chunksWithEmptySlots[i] in hs)
      && var (a0, hs0) := RoomDrop(a, hs, c);
      && c in hs0 && |a0.chunks| == |a0.shared| && hs0[c].listIndex < |a0.chunks|
      && (forall i :: 0 <= i < |a0.chunks| ==> a0.chunks[i] in hs0)
      && (n > 0 ==> c in RoomChange(a, hs, c, n).1)
  {
    var k := hs[c].arch;
    assert ArchAgree(archs[k], k, hs) && HeaderOk(archs[k], c, hs[c]);
    ReleasedFrom(archs[k], k, hs, c);
    if n > 0 { SetCountFits(archs, hs, c, n); }
  }

  /** setChunkCount: a chunk set to 0 is released, any other stays, tracked as having room if it has. */
  ghost function SetCount(archs: seq<Archetype>, hs: map<nat, Header>, c: nat, n: nat)
    : (seq<Archetype>, map<nat, Header>)
    requires Agree(archs, hs) && c in hs && n != hs[c].count && n <= archs[hs[c].arch].capacity
  {
    SetCountReady(archs, hs, c, n);
    var k := hs[c].arch;
    if n == 0 then
      var (a0, hs0) := RoomDrop(archs[k], hs, c);
      var (a1, hs1) := Unlist(a0, hs0, c);
      (archs[k := a1], hs1)
    else
      var (a1, hs1) := RoomChange(archs[k], hs, c, n);
      (archs[k := a1], hs1[c := hs1[c].(count := n)])
  }

  lemma SetCountRecounts(archs: seq<Archetype>, hs: map<nat, Header>, c: nat, n: nat)
    requires Agree(archs, hs) && c in hs && n != hs[c].count && n <= archs[hs[c].arch].capacity
    ensures var (archs1, hs1) := SetCount(archs, hs, c, n); Recounted(archs, hs, archs1, hs1, c, n)
  {
    SetCountReady(archs, hs, c, n);
    if n == 0 {
      var k := hs[c].arch;
      ReleasedFrom(archs[k], k, hs, c);
      var (a0, hs0) := RoomDrop(archs[k], hs, c);
      var (a1, hs1) := Unlist(a0, hs0, c);
      ReleasedChunk(archs, hs, c, k, a1, hs1);
    } else {
      SetCountFits(archs, hs, c, n);
    }
  }

  /** setChunkCount followed by the adjustment of the entity count. */
  lemma CountAdjusted(archs: seq<Archetype>, hs: map<nat, Header>, c: nat, n: nat, entityCount: nat)
    requires Agree(archs, hs) && Counted(archs, hs) && c in hs && NoneEmpty(hs, {c})
    requires n != hs[c].count && n <= archs[hs[c].arch].capacity
    requires entityCount == archs[hs[c].arch].entityCount - hs[c].count + n
    ensures var (archs1, hs1) := SetCount(archs, hs, c, n); var k := hs[c].arch;
      && k < |archs1|
      && var archs2 := archs1[k := archs1[k].(entityCount := entityCount)];
      && Agree(archs2, hs1) && Counted(archs2, hs1) && NoneEmpty(hs1, {}) && SameLimits(archs, archs2)
      && ShapeOf(archs2, hs1) == WithCount(ShapeOf(archs, hs), c, n)
  {
    var (archs1, hs1) := SetCount(archs, hs, c, n);
    SetCountRecounts(archs, hs, c, n);
    CountFollows(archs, hs, archs1, hs1, c, n, entityCount);
  }

  // The maps of chunks with room.

  /** The shared values of archetype k's chunks, read at their list indexes: what its map is keyed by. */
  function KeysIn(shape: map<nat, Info>, k: nat): map<nat, Probing.Key> {
    map c | c in shape && shape[c].arch == k :: shape[c].shared
  }

  /** The map of an archetype with shared components files exactly its tracked chunks, under their values. */
  ghost predicate RoomFiled(hash: Probing.Key -> nat, shape: map<nat, Info>, a: Archetype, k: nat,
                            m: ChunkListMap.Map) {
    a.numShared > 0 ==> ChunkListMap.Valid(hash, KeysIn(shape, k), m) && m.Members() == a.freeChunks
  }

  ghost predicate RoomsFiled(hash: Probing.Key -> nat, shape: map<nat, Info>, archs: seq<Archetype>,
                             rooms: seq<ChunkListMap.Map>)
  {
    && |rooms| == |archs|
    && forall k {:trigger RoomFiled(hash, shape, archs[k], k, rooms[k])} :: 0 <= k < |archs| ==>
      RoomFiled(hash, shape, archs[k], k, rooms[k])
  }

  /** The map depends on the shared values of the tracked chunks only. */
  lemma RoomKept(hash: Probing.Key -> nat, shape: map<nat, Info>, shape1: map<nat, Info>, a: Archetype, a1: Archetype,
                 k: nat, m: ChunkListMap.Map)
    requires RoomFiled(hash, shape, a, k, m) && a1.numShared == a.numShared && a1.freeChunks == a.freeChunks
    requires forall x :: x in a.freeChunks && x in KeysIn(shape, k) ==>
      x in KeysIn(shape1, k) && KeysIn(shape1, k)[x] == KeysIn(shape, k)[x]
    ensures RoomFiled(hash, shape1, a1, k, m)
  {
    if a.numShared > 0 {
      forall x | x in m.Members() ensures x in KeysIn(shape, k) { ChunkListMap.MemberAt(hash, KeysIn(shape, k), m, x); }
      Probing.LinkedRekeyed(hash, KeysIn(shape, k), KeysIn(shape1, k), m.hashes, m.chunks, m.back);
    }
  }

  /** One archetype's map was brought up to date for a recount of its chunk c, and the others need no change. */
  lemma RoomsRecounted(hash: Probing.Key -> nat, archs: seq<Archetype>, hs: map<nat, Header>,
                       rooms: seq<ChunkListMap.Map>,
                       c: nat, n: nat, a: Archetype, m: ChunkListMap.Map, a1: Archetype)
    requires Agree(archs, hs) && RoomsFiled(hash, ShapeOf(archs, hs), archs, rooms) && c in hs
    requires RoomFiled(hash, ShapeOf(archs, hs), a, hs[c].arch, m) && (n == 0 ==> c !in a.freeChunks)
    requires a1.numShared == a.numShared && a1.freeChunks == a.freeChunks
    ensures var k := hs[c].arch;
      k < |archs| && RoomsFiled(hash, WithCount(ShapeOf(archs, hs), c, n), archs[k := a1], rooms[k := m])
  {
    var k, shape, shape1 := hs[c].arch, ShapeOf(archs, hs), WithCount(ShapeOf(archs, hs), c, n);
    var archs1, rooms1 := archs[k := a1], rooms[k := m];
    forall j | 0 <= j < |archs| ensures RoomFiled(hash, shape1, archs1[j], j, rooms1[j]) {
      if j == k {
        RoomKept(hash, shape, shape1, a, a1, k, m);
      } else {
        assert RoomFiled(hash, shape, archs[j], j, rooms[j]) && ArchAgree(archs[j], j, hs);
        RoomKept(hash, shape, shape1, archs[j], archs[j], j, rooms[j]);
      }
    }
  }

  /** So after setChunkCount all maps are up to date. */
  lemma RoomsFollow(hash: Probing.Key -> nat, archs: seq<Archetype>, hs: map<nat, Header>, rooms: seq<ChunkListMap.Map>,
                    c: nat, n: nat, a: Archetype, m: ChunkListMap.Map)
    requires Agree(archs, hs) && c in hs && n != hs[c].count && n <= archs[hs[c].arch].capacity
    requires RoomsFiled(hash, ShapeOf(archs, hs), archs, rooms) && RoomFiled(hash, ShapeOf(archs, hs), a, hs[c].arch, m)
    requires var (archs1, hs1) := SetCount(archs, hs, c, n); var k := hs[c].arch;
      k < |archs1| && archs1[k].numShared == a.numShared && archs1[k].freeChunks == a.freeChunks
      && archs1 == archs[k := archs1[k]]
    requires n == 0 ==> c !in a.freeChunks
    ensures var (archs1, hs1) := SetCount(archs, hs, c, n);
      RoomsFiled(hash, ShapeOf(archs1, hs1), archs1, rooms[hs[c].arch := m])
  {
    SetCountRecounts(archs, hs, c, n);
    var archs1, k := SetCount(archs, hs, c, n).0, hs[c].arch;
    hide SetCount;
    RoomsRecounted(hash, archs, hs, rooms, c, n, a, m, archs1[k]);
  }

  lemma RoomsOneChanged(hash: Probing.Key -> nat, shape: map<nat, Info>, archs: seq<Archetype>,
                        rooms: seq<ChunkListMap.Map>, k: nat, a: Archetype, m: ChunkListMap.Map)
    requires RoomsFiled(hash, shape, archs, rooms) && k < |archs| && RoomFiled(hash, shape, a, k, m)
    ensures RoomsFiled(hash, shape, archs[k := a], rooms[k := m])
  {
    var archs1, rooms1 := archs[k := a], rooms[k := m];
    forall j | 0 <= j < |archs| && j != k ensures RoomFiled(hash, shape, archs1[j], j, rooms1[j]) {
      assert RoomFiled(hash, shape, archs[j], j, rooms[j]);
    }
  }

  /** Entity counts are no matter of the maps. */
  lemma RoomsUncounted(hash: Probing.Key -> nat, shape: map<nat, Info>, archs: seq<Archetype>,
                       rooms: seq<ChunkListMap.Map>,
                       k: nat, n: nat)
    requires RoomsFiled(hash, shape, archs, rooms) && k < |archs|
    ensures RoomsFiled(hash, shape, archs[k := archs[k].(entityCount := n)], rooms)
  {
    var archs1 := archs[k := archs[k].(entityCount := n)];
    forall j | 0 <= j < |archs| ensures RoomFiled(hash, shape, archs1[j], j, rooms[j]) {
      assert RoomFiled(hash, shape, archs[j], j, rooms[j]);
      RoomKept(hash, shape, shape, archs[j], archs1[j], j, rooms[j]);
    }
  }

  /** A new chunk is in no map yet. */
  lemma RoomsListed(hash: Probing.Key -> nat, archs: seq<Archetype>, hs: map<nat, Header>, rooms: seq<ChunkListMap.Map>,
                    c: nat, info: Info)
    requires Agree(archs, hs) && RoomsFiled(hash, ShapeOf(archs, hs), archs, rooms) && c !in hs
    ensures RoomsFiled(hash, ShapeOf(archs, hs)[c := info], archs, rooms)
  {
    var shape := ShapeOf(archs, hs);
    forall j | 0 <= j < |archs| ensures RoomFiled(hash, shape[c := info], archs[j], j, rooms[j]) {
      assert RoomFiled(hash, shape, archs[j], j, rooms[j]);
      RoomKept(hash, shape, shape[c := info], archs[j], archs[j], j, rooms[j]);
    }
  }

  /** A new chunk, listed and not yet tracked. */
  lemma ListedRoom(hash: Probing.Key -> nat, archs: seq<Archetype>, hs: map<nat, Header>, rooms: seq<ChunkListMap.Map>,
                   k: nat, c: nat, shared: seq<nat>)
    requires Agree(archs, hs) && RoomsFiled(hash, ShapeOf(archs, hs), archs, rooms) && c !in hs && k < |archs|
    ensures var a1 := archs[k].(chunks := archs[k].chunks + [c], shared := archs[k].shared + [shared]);
      var shape := ShapeOf(archs[k := a1], hs[c := Header(k, 0, |archs[k].chunks|, -1)]);
      && shape == ShapeOf(archs, hs)[c := Info(k, 0, shared)] && |rooms| == |archs|
      && RoomFiled(hash, shape, a1, k, rooms[k]) && c !in a1.freeChunks && RoomsFiled(hash, shape, archs, rooms)
  {
    assert ArchAgree(archs[k], k, hs);
    var a1 := archs[k].(chunks := archs[k].chunks + [c], shared := archs[k].shared + [shared]);
    ListedShape(archs, hs, k, c, shared, a1, hs[c := Header(k, 0, |archs[k].chunks|, -1)]);
    RoomsListed(hash, archs, hs, rooms, c, Info(k, 0, shared));
    var shape := ShapeOf(archs, hs)[c := Info(k, 0, shared)];
    assert RoomFiled(hash, shape, archs[k], k, rooms[k]);
    RoomKept(hash, shape, shape, archs[k], a1, k, rooms[k]);
  }

  /** A new chunk, listed and tracked. */
  lemma ListedDone(archs: seq<Archetype>, hs: map<nat, Header>, k: nat, c: nat, shared: seq<nat>)
    requires Agree(archs, hs) && Counted(archs, hs) && NoneEmpty(hs, {}) && c !in hs && k < |archs|
    requires |shared| == archs[k].numShared && archs[k].capacity > 0
    ensures var (a1, hs1) := ListNew(archs[k], k, hs, c, shared);
      && Agree(archs[k := a1], hs1) && Counted(archs[k := a1], hs1) && NoneEmpty(hs1, {c}) && c in hs1
      && SameLimits(archs, archs[k := a1])
      && ShapeOf(archs[k := a1], hs1) == ShapeOf(archs, hs)[c := Info(k, 0, shared)]
  {
    ListedChunk(archs, hs, k, c, shared);
    var a1 := ListNew(archs[k], k, hs, c, shared).0;
    assert forall j :: 0 <= j < |archs| ==> SameKind(archs[j], archs[k := a1][j]);
  }

  /** Room tracking does not show. */
  lemma SameShape(archs: seq<Archetype>, hs: map<nat, Header>, k: nat, a1: Archetype, hs1: map<nat, Header>)
    requires k < |archs| && a1.shared == archs[k].shared && hs1.Keys == hs.Keys
    requires forall x :: x in hs ==> hs1[x].(emptyIndex := 0) == hs[x].(emptyIndex := 0)
    ensures ShapeOf(archs[k := a1], hs1) == ShapeOf(archs, hs)
  {
    forall x | x in hs ensures InfoOf(archs[k := a1], hs1[x]) == InfoOf(archs, hs[x]) {
      assert hs1[x].(emptyIndex := 0) == hs[x].(emptyIndex := 0);
    }
  }

  /** Some number is not in use. */
  lemma {:induction false} FreshId(s: set<nat>) returns (c: nat)
    ensures c !in s && forall x :: x in s ==> x < c
  {
    if s == {} {
      c := 0;
    } else {
      var x :| x in s;
      var d := FreshId(s - {x});
      assert forall y :: y in s ==> y == x || y in s - {x};
      c := if d <= x then x + 1 else d;
    }
  }

  const InitialChunkListSize: nat := 128

  class Tracker {
    const hash: Probing.Key -> nat
    var archetypes: seq<Archetype>
    var headers: map<nat, Header>
    /** The maps of chunks with room, one for each archetype. */
    var rooms: seq<ChunkListMap.Map>

    ghost predicate Sound()
      reads this
    {
      Agree(archetypes, headers)
    }

    ghost predicate Filed()
      reads this
    {
      RoomsFiled(hash, Shape(), archetypes, rooms)
    }

    /** Archetype k and its map, in the middle of a change of its chunks. */
    ghost predicate FiledAt(k: nat)
      reads this
    {
      k < |archetypes| && |rooms| == |archetypes| && RoomFiled(hash, Shape(), archetypes[k], k, rooms[k])
    }

    /** Between public operations: the tracking agrees, the maps file the chunks with room, the entity counts are the
        sums of the chunk counts, and no chunk is empty, except perhaps one about to be filled. */
    ghost predicate ValidBut(empty: set<nat>)
      reads this
    {
      Sound() && Filed() && Counted(archetypes, headers) && NoneEmpty(headers, empty)
    }

    function Shape(): map<nat, Info>
      reads this
    {
      ShapeOf(archetypes, headers)
    }

    constructor (hash: Probing.Key -> nat)
      ensures ValidBut({}) && archetypes == [] && Shape() == map[] && this.hash == hash
    {
      this.hash, archetypes, headers, rooms := hash, [], map[], [];
    }

    method EmptySlotTrackingRemoveChunk(c: nat)
      requires c in headers && FiledAt(headers[c].arch) && RoomOk(archetypes[headers[c].arch], headers[c].arch, headers)
      requires Tracked(archetypes[headers[c].arch], c, headers[c])
      modifies this
      ensures var k := old(headers)[c].arch; var (a, hs) := RoomRemove(old(archetypes)[k], old(headers), c);
        archetypes == old(archetypes)[k := a] && headers == hs && FiledAt(k) && rooms == old(rooms)[k := rooms[k]]
      ensures Shape() == old(Shape())
    {
      var k := headers[c].arch;
      var a := archetypes[k];
      ghost var archs, hs := archetypes, headers;
      hide ShapeOf, ChunkListMap.Valid, KeysIn;
      if a.numShared == 0 {
        var index := headers[c].emptyIndex;
        var last := a.chunksWithEmptySlots[|a.chunksWithEmptySlots| - 1];
        if c != last {
          headers := headers[last := headers[last].(emptyIndex := index)];
        }
        archetypes := archetypes[k := a.(chunksWithEmptySlots := SwapBack(a.chunksWithEmptySlots, index))];
      } else {
        ChunkListMap.MemberAt(hash, KeysIn(Shape(), k), rooms[k], c);
        var m, removed := ChunkListMap.Remove(hash, KeysIn(Shape(), k), rooms[k], c);
        headers := headers[c := headers[c].(emptyIndex := -1)];
        rooms := rooms[k := m];
        archetypes := archetypes[k := a.(freeChunks := a.freeChunks - {c})];
      }
      SameShape(archs, hs, k, archetypes[k], headers);
    }

    method EmptySlotTrackingAddChunk(c: nat)
      requires c in headers && FiledAt(headers[c].arch) && c !in archetypes[headers[c].arch].freeChunks
      modifies this
      ensures var k := old(headers)[c].arch; var (a, hs) := RoomAdd(old(archetypes)[k], old(headers), c);
        archetypes == old(archetypes)[k := a] && headers == hs && FiledAt(k) && rooms == old(rooms)[k := rooms[k]]
      ensures Shape() == old(Shape())
    {
      var k := headers[c].arch;
      var a := archetypes[k];
      ghost var archs, hs := archetypes, headers;
      if a.numShared == 0 {
        headers := headers[c := headers[c].(emptyIndex := |a.chunksWithEmptySlots|)];
        archetypes := archetypes[k := a.(chunksWithEmptySlots := a.chunksWithEmptySlots + [c])];
      } else {
        var m := ChunkListMap.Add(hash, KeysIn(Shape(), k), rooms[k], c);
        rooms := rooms[k := m];
        archetypes := archetypes[k := a.(freeChunks := a.freeChunks + {c})];
      }
      SameShape(archs, hs, k, archetypes[k], headers);
    }

    method RemoveFromChunkList(c: nat)
      requires c in headers && headers[c].arch < |archetypes|
      requires var a := archetypes[headers[c].arch];
        && |a.chunks| == |a.shared| && headers[c].listIndex < |a.chunks|
        && forall i :: 0 <= i < |a.chunks| ==> a.chunks[i] in headers
      modifies this`archetypes, this`headers
      ensures var k := old(headers)[c].arch; var (a, hs) := Unlist(old(archetypes)[k], old(headers), c);
        archetypes == old(archetypes)[k := a] && headers == hs
    {
      var k := headers[c].arch;
      var a := archetypes[k];
      var chunkListIndex := headers[c].listIndex;
      a := a.(chunks := SwapBack(a.chunks, chunkListIndex), shared := SwapBack(a.shared, chunkListIndex));
      archetypes := archetypes[k := a];
      if |a.chunks| > chunkListIndex {
        var chunkThatMoved := a.chunks[chunkListIndex];
        headers := headers[chunkThatMoved := headers[chunkThatMoved].(listIndex := chunkListIndex)];
      }
      headers := map x | x in headers && x != c :: headers[x];
    }

    /** The room part of releaseChunk. */
    method LeaveRoom(c: nat)
      requires Sound() && Filed() && c in headers && headers[c].count > 0
      modifies this
      ensures old(headers[c].arch < |archetypes|) && |rooms| == |old(rooms)| == |old(archetypes)|
      ensures c in headers && headers[c].arch == old(headers)[c].arch
      ensures var k, a := old(headers)[c].arch, old(archetypes[headers[c].arch]);
        && (old(headers)[c].count < a.capacity ==> Tracked(a, c, old(headers)[c]))
        && (forall i :: 0 <= i < |a.chunksWithEmptySlots| ==> a.chunksWithEmptySlots[i] in old(headers))
        && var (a0, hs0) := RoomDrop(a, old(headers), c);
        && archetypes == old(archetypes)[k := a0] && headers == hs0 && rooms == old(rooms)[k := rooms[k]]
        && c !in a0.freeChunks && RoomFiled(hash, old(Shape()), a0, k, rooms[k])
    {
      ghost var archs, hs, k := archetypes, headers, headers[c].arch;
      SetCountReady(archs, hs, c, 0);
      RoomDropped(archs[k], k, hs, c);
      assert RoomFiled(hash, Shape(), archetypes[k], k, rooms[k]);
      hide RoomFiled, ArchAgree, ShapeOf;
      if headers[c].count < archetypes[headers[c].arch].capacity {
        EmptySlotTrackingRemoveChunk(c);
      }
    }

    method ReleaseChunk(c: nat)
      requires Sound() && Filed() && c in headers && headers[c].count > 0
      modifies this
      ensures (archetypes, headers) == old(SetCount(archetypes, headers, c, 0)) && Filed()
    {
      hide RoomFiled, RoomsFiled, ArchAgree, ShapeOf, RoomDrop, Tracked;
      ghost var archs, hs, rs, k := archetypes, headers, rooms, headers[c].arch;
      SetCountReady(archs, hs, c, 0);
      LeaveRoom(c);
      ghost var a := archetypes[k];
      RemoveFromChunkList(c);
      assert archetypes == archs[k := archetypes[k]];
      RoomsFollow(hash, archs, hs, rs, c, 0, a, rooms[k]);
    }

    method SetChunkCount(c: nat, newCount: nat)
      requires Sound() && Filed() && c in headers
      requires newCount != headers[c].count && newCount <= archetypes[headers[c].arch].capacity
      modifies this
      ensures (archetypes, headers) == old(SetCount(archetypes, headers, c, newCount)) && Filed()
    {
      if newCount == 0 {
        ReleaseChunk(c);
        return;
      }
      ghost var archs, hs, rs, k := archetypes, headers, rooms, headers[c].arch;
      SetCountReady(archs, hs, c, newCount);
      assert RoomFiled(hash, Shape(), archetypes[k], k, rooms[k]) && RoomOk(archetypes[k], k, headers);
      assert headers[c].count == archetypes[k].capacity ==> c !in archetypes[k].freeChunks;
      hide RoomFiled, ArchAgree, ShapeOf, RoomOk;
      var capacity := archetypes[headers[c].arch].capacity;
      if newCount == capacity {
        EmptySlotTrackingRemoveChunk(c);
      } else if headers[c].count == capacity {
        EmptySlotTrackingAddChunk(c);
      }
      headers := headers[c := headers[c].(count := newCount)];
      assert archetypes == archs[k := archetypes[k]] && rooms == rs[k := rooms[k]];
      assert (archetypes, headers) == SetCount(archs, hs, c, newCount);
      RoomsFollow(hash, archs, hs, rs, c, newCount, archetypes[k], rooms[k]);
    }

    /** A chunk's header as clients see it. */
    function InfoAt(c: nat): (info: Info)
      requires c in Shape()
      reads this
      ensures info == Shape()[c]
    {
      InfoOf(archetypes, headers[c])
    }

    /** A new archetype, without chunks. */
    method AddArchetype(numShared: nat, capacity: nat)
      requires ValidBut({})
      modifies this
      ensures ValidBut({}) && Shape() == old(Shape()) && headers == old(headers)
      ensures archetypes == old(archetypes) + [Archetype(numShared, capacity, [], [], [], {}, 0)]
    {
      var a := Archetype(numShared, capacity, [], [], [], {}, 0);
      ghost var archs, k := archetypes, |archetypes|;
      ArchetypeAdded(archetypes, headers, a);
      var m := ChunkListMap.Init(InitialChunkListSize, hash, KeysIn(Shape(), k));
      archetypes, rooms := archetypes + [a], rooms + [m];
      forall j | 0 <= j <= k ensures RoomFiled(hash, Shape(), archetypes[j], j, rooms[j]) {
        if j < k { assert RoomFiled(hash, ShapeOf(archs, headers), archs[j], j, rooms[j]); }
      }
    }

    /** addEmptyChunk with a chunk id the supplier has not given out. */
    method AddEmptyChunk(k: nat, shared: seq<nat>, c: nat)
      requires ValidBut({}) && k < |archetypes| && |shared| == archetypes[k].numShared && c !in headers
      requires archetypes[k].capacity > 0
      modifies this
      ensures ValidBut({c}) && SameLimits(old(archetypes), archetypes) && c in headers
      ensures Shape() == old(Shape())[c := Info(k, 0, shared)]
    {
      ghost var archs, hs, rs := archetypes, headers, rooms;
      ListedRoom(hash, archs, hs, rs, k, c, shared);
      ListedDone(archs, hs, k, c, shared);
      hide RoomsFiled, RoomFiled, Agree, ShapeOf, Counted, NoneEmpty, SameLimits;
      var a := archetypes[k];
      headers := headers[c := Header(k, 0, |a.chunks|, -1)];
      archetypes := archetypes[k := a.(chunks := a.chunks + [c], shared := a.shared + [shared])];
      EmptySlotTrackingAddChunk(c);
      RoomsOneChanged(hash, Shape(), archs, rs, k, archetypes[k], rooms[k]);
      assert archetypes == archs[k := ListNew(archs[k], k, hs, c, shared).0];
    }

    /** A tracked chunk of archetype k with those shared values: there is one unless all such chunks are full. */
    method GetExistingChunkWithEmptySlots(k: nat, shared: seq<nat>) returns (found: bool, c: nat)
      requires ValidBut({}) && k < |archetypes| && |shared| == archetypes[k].numShared
      ensures found ==> ValidBut({c}) && c in Shape() && Shape()[c].arch == k && Shape()[c].shared == shared
      ensures found ==> Shape()[c].count < archetypes[k].capacity
      ensures !found ==> forall d :: d in Shape() && Shape()[d].arch == k && Shape()[d].shared == shared ==>
        Shape()[d].count == archetypes[k].capacity
    {
      var a := archetypes[k];
      c := 0;
      assert ArchAgree(a, k, headers) && RoomFiled(hash, Shape(), a, k, rooms[k]);
      if a.numShared == 0 {
        found := a.chunksWithEmptySlots != [];
        if found {
          c := a.chunksWithEmptySlots[|a.chunksWithEmptySlots| - 1];
          assert HeaderOk(a, c, headers[c]) && |a.shared[headers[c].listIndex]| == 0;
        }
      } else {
        found, c := ChunkListMap.TryGet(hash, KeysIn(Shape(), k), rooms[k], shared);
      }
      if !found {
        forall d | d in Shape() && Shape()[d].arch == k && Shape()[d].shared == shared
          ensures Shape()[d].count == a.capacity
        {
          assert HeaderOk(a, d, headers[d]);
        }
      }
    }

    /** A chunk nobody uses, listed as empty. */
    method GetCleanChunk(k: nat, shared: seq<nat>) returns (c: nat)
      requires ValidBut({}) && k < |archetypes| && |shared| == archetypes[k].numShared && archetypes[k].capacity > 0
      modifies this
      ensures ValidBut({c}) && SameLimits(old(archetypes), archetypes)
      ensures c !in old(Shape()) && Shape() == old(Shape())[c := Info(k, 0, shared)]
    {
      ghost var bound := FreshId(headers.Keys);
      c :| c !in headers;
      AddEmptyChunk(k, shared, c);
    }

    /** setChunkCount together with the change of the archetype's entity count. */
    method Recount(c: nat, n: nat)
      requires ValidBut({c}) && c in Shape() && n != Shape()[c].count && Shape()[c].arch < |archetypes|
      requires n <= archetypes[Shape()[c].arch].capacity
      modifies this
      ensures ValidBut({}) && SameLimits(old(archetypes), archetypes)
      ensures Shape() == WithCount(old(Shape()), c, n)
    {
      var k := headers[c].arch;
      CountWithin(archetypes, headers, c);
      SetCountRecounts(archetypes, headers, c, n);
      hide RoomsFiled, SetCount, ArchAgree, Counted, WithCount, InfoOf;
      var entityCount := archetypes[k].entityCount - headers[c].count + n;
      CountAdjusted(archetypes, headers, c, n, entityCount);
      SetChunkCount(c, n);
      RoomsUncounted(hash, Shape(), archetypes, rooms, k, entityCount);
      CountSet(archetypes, headers, k, entityCount);
      archetypes := archetypes[k := archetypes[k].(entityCount := entityCount)];
    }

    /** Makes room for up to `count` more entities at the end of the chunk. */
    method AllocateIntoChunk(c: nat, count: nat) returns (taken: nat, outIndex: nat)
      requires ValidBut({c}) && c in Shape() && count > 0 && Shape()[c].arch < |archetypes|
      requires Shape()[c].count < archetypes[Shape()[c].arch].capacity
      modifies this
      ensures ValidBut({}) && SameLimits(old(archetypes), archetypes)
      ensures outIndex == old(Shape())[c].count
      ensures taken == Least(old(archetypes[Shape()[c].arch].capacity - Shape()[c].count), count)
      ensures Shape() == WithCount(old(Shape()), c, outIndex + taken)
    {
      hide *;
      SeenHeader(this, c);
      outIndex := headers[c].count;
      taken := Least(archetypes[headers[c].arch].capacity - outIndex, count);
      Recount(c, outIndex + taken);
    }

    /** The chunk loses its last n entities, and goes away with its last one. */
    method TakeFromChunk(c: nat, n: nat)
      requires ValidBut({}) && c in Shape() && 0 < n <= Shape()[c].count
      modifies this
      ensures ValidBut({}) && SameLimits(old(archetypes), archetypes)
      ensures Shape() == WithCount(old(Shape()), c, old(Shape()[c].count) - n)
    {
      hide *;
      HeaderFacts(this, c);
      Recount(c, headers[c].count - n);
    }
  }

  /** With shared components, too, a chunk is tracked exactly if it has room: it is filed under its shared values, at
      the slot its back-index names. */
  lemma RoomIndexed(t: Tracker, empty: set<nat>, k: nat, c: nat)
    requires t.ValidBut(empty) && k < |t.archetypes| && t.archetypes[k].numShared > 0
    requires c in t.Shape() && t.Shape()[c].arch == k
    ensures |t.rooms| == |t.archetypes|
    ensures var m := t.rooms[k];
      t.Shape()[c].count < t.archetypes[k].capacity <==>
        && c in m.back && 0 <= m.back[c] < |m.hashes| == |m.chunks| && m.chunks[m.back[c]] == c
        && m.hashes[m.back[c]] == Probing.HashCode(t.hash(t.Shape()[c].shared))
  {
    var a, m, keys := t.archetypes[k], t.rooms[k], KeysIn(t.Shape(), k);
    assert ArchAgree(a, k, t.headers) && HeaderOk(a, c, t.headers[c]) && RoomFiled(t.hash, t.Shape(), a, k, m);
    ChunkListMap.MemberAt(t.hash, keys, m, c);
  }

  lemma SeenHeader(t: Tracker, c: nat)
    requires c in t.Shape()
    ensures c in t.headers && t.Shape()[c].count == t.headers[c].count && t.Shape()[c].arch == t.headers[c].arch
  {
  }

  /** What a tracked chunk's header says is what clients see, and no chunk is empty. */
  lemma HeaderFacts(t: Tracker, c: nat)
    requires t.ValidBut({}) && c in t.Shape()
    ensures c in t.headers && t.Shape()[c].count == t.headers[c].count > 0 && t.ValidBut({c})
    ensures t.Shape()[c].arch < |t.archetypes| && t.Shape()[c].count <= t.archetypes[t.Shape()[c].arch].capacity
  {
    CountWithin(t.archetypes, t.headers, c);
  }

  /** Every chunk has as many shared values as its archetype has shared components. */
  lemma SharedWidth(t: Tracker, empty: set<nat>, c: nat)
    requires t.ValidBut(empty) && c in t.Shape()
    ensures t.Shape()[c].arch < |t.archetypes| && |t.Shape()[c].shared| == t.archetypes[t.Shape()[c].arch].numShared
  {
    var k := t.headers[c].arch;
    assert ArchAgree(t.archetypes[k], k, t.headers);
    assert HeaderOk(t.archetypes[k], c, t.headers[c]);
  }
}
