/** The operations on rows, each as a whole: claiming rows for new entities, copying a batch into another
    archetype's chunk, and taking a batch out of its chunk. What each does to the map of entities. */
module EntityMoves {
  import opened Types
  import opened EntityBlocks
  import opened Archetypes
  import opened ChunkTracking
  import opened EntityRows

  // Values of converted and new rows.

  /** What is left of a row when it is copied to an archetype with the given columns: shared columns keep their
      value, added ones are zero. */
  function Converted(row: map<nat, Value>, columns: set<nat>): map<nat, Value> {
    map t | t in columns :: if t in row then row[t] else Data(0)
  }

  /** The rows to, to + 1, ... of the destination after the source rows from, from + 1, ... were converted. */
  function ConvertRows(bd: Buffer, bs: Buffer, from: nat, to: nat, n: nat): Buffer {
    map t | t in bd :: ConvertColumn(bd[t], if t in bs then bs[t] else [], from, to, n)
  }

  /** Copies cells, or clears them where the source has no column. */
  function ConvertColumn(d: seq<Value>, s: seq<Value>, from: nat, to: nat, n: nat): (r: seq<Value>)
    ensures |r| == |d|
  {
    seq(|d|, i requires 0 <= i < |d| =>
      if to <= i < to + n then (if from + (i - to) < |s| then s[from + (i - to)] else Data(0)) else d[i])
  }

  lemma ConvertedRows(bd: Buffer, bs: Buffer, from: nat, to: nat, n: nat, kd: Kind, ks: Kind)
    requires IsBuffer(bd, kd) && IsBuffer(bs, ks) && to + n <= kd.capacity && from + n <= ks.capacity
    requires EntityType in bd && EntityType in bs
    ensures OnlyRows(bd, ConvertRows(bd, bs, from, to, n), to, n)
    ensures forall i: nat :: from <= i < from + n ==>
      OwnerAt(bs, i) == OwnerAt(ConvertRows(bd, bs, from, to, n), to + (i - from))
  {
  }

  lemma ConvertedRowAt(bd: Buffer, bs: Buffer, from: nat, to: nat, n: nat, kd: Kind, ks: Kind, k: nat)
    requires IsBuffer(bd, kd) && IsBuffer(bs, ks) && to + n <= kd.capacity && from + n <= ks.capacity && k < n
    ensures RowOf(ConvertRows(bd, bs, from, to, n), to + k) == Converted(RowOf(bs, from + k), Stored(kd.types))
  {
    var b1 := ConvertRows(bd, bs, from, to, n);
    forall t | t in bd
      ensures to + k < |b1[t]| && b1[t][to + k] == if t in bs && from + k < |bs[t]| then bs[t][from + k] else Data(0)
    {}
  }

  // clone: rows are claimed in the destination, converted, and the table follows.

  /** Where a batch can be cloned to. */
  predicate Fits(w: Rows, b: Batch, d: nat) {
    && ChunkOk(w, b.chunk) && ChunkOk(w, d) && d != b.chunk && b.count > 0
    && b.start + b.count <= w.chunks[b.chunk].count
    && w.chunks[d].count + b.count <= w.kinds[w.chunks[d].arch].capacity
  }

  function Cloned(w: Rows, b: Batch, d: nat): Rows
    requires Fits(w, b, d)
  {
    var first := w.chunks[d].count;
    Rows(w.kinds, WithCount(w.chunks, d, first + b.count),
         w.buffers[d := ConvertRows(w.buffers[d], w.buffers[b.chunk], b.start, first, b.count)],
         Moved(w.places, b, d, first))
  }

  /** The entity after a move to archetype kind with these shared values. */
  function Into(e: Entity, types: seq<nat>, shared: seq<nat>): Entity {
    Entity(types, Converted(e.values, Stored(types)), shared)
  }

  /** Exactly the sized types have a value: the one there was, and zero for a type that is new. */
  ghost predicate ValuesKept(e: Entity, e1: Entity) {
    && (forall t :: t in e1.values <==> t in e1.types && t < ZeroSizedFlag)
    && (forall t :: t in e1.values ==> e1.values[t] == if t in e.values then e.values[t] else Data(0))
  }

  lemma IntoKeeps(e: Entity, types: seq<nat>, shared: seq<nat>)
    ensures ValuesKept(e, Into(e, types, shared))
  {
  }

  /** The map of entities after those in hs moved. */
  function MovedEntities(es: map<Handle, Entity>, hs: set<Handle>, types: seq<nat>, shared: seq<nat>)
    : map<Handle, Entity>
  {
    map h | h in es :: if h in hs then Into(es[h], types, shared) else es[h]
  }

  lemma CloneAgrees(w: Rows, b: Batch, d: nat)
    requires RowsAgree(w, NoRows) && Fits(w, b, d)
    ensures RowsAgree(Cloned(w, b, d), b)
  {
    var first := w.chunks[d].count;
    var hole := Batch(d, first, b.count);
    var w1 := Resized(w, d, first + b.count);
    ReserveStep(w, d, b.count);
    var bd, bs := w.buffers[d], w.buffers[b.chunk];
    var b1 := ConvertRows(bd, bs, b.start, first, b.count);
    ConvertedRows(bd, bs, b.start, first, b.count, w.kinds[w.chunks[d].arch], w.kinds[w.chunks[b.chunk].arch]);
    assert ChunkOk(w1, d);
    WriteStep(w1, hole, b1);
    var w2 := w1.(buffers := w1.buffers[d := b1]);
    assert ChunkOk(w2, b.chunk);
    RepointStep(w2, hole, b);
    assert Cloned(w, b, d) == w2.(places := Moved(w2.places, b, d, first));
  }

  /** Every entity in hs has these types and shared values, and the values it had; the others are as they were. */
  ghost predicate MovedInto(es: map<Handle, Entity>, es1: map<Handle, Entity>, hs: set<Handle>, types: seq<nat>,
                            shared: seq<nat>) {
    && es1.Keys == es.Keys && (forall h :: h in es && h !in hs ==> es1[h] == es[h])
    && forall h :: h in es && h in hs ==>
         es1[h].types == types && es1[h].shared == shared && ValuesKept(es[h], es1[h])
  }

  lemma AllMovedInto(es: map<Handle, Entity>, hs: set<Handle>, types: seq<nat>, shared: seq<nat>)
    ensures MovedInto(es, MovedEntities(es, hs, types, shared), hs, types, shared)
  {
    forall h | h in es && h in hs ensures ValuesKept(es[h], Into(es[h], types, shared)) {
      IntoKeeps(es[h], types, shared);
    }
    hide Into, ValuesKept;
  }

  lemma CloneMap(w: Rows, b: Batch, d: nat)
    requires RowsAgree(w, NoRows) && Fits(w, b, d)
    ensures Entities(Cloned(w, b, d)) ==
      MovedEntities(Entities(w), HandlesIn(w, b), w.kinds[w.chunks[d].arch].types, w.chunks[d].shared)
  {
    var w1 := Cloned(w, b, d);
    forall h | h in w.places
      ensures EntityAt(w1, w1.places[h]) ==
        if h in HandlesIn(w, b) then Into(EntityAt(w, w.places[h]), w.kinds[w.chunks[d].arch].types, w.chunks[d].shared)
        else EntityAt(w, w.places[h])
    {
      assert Seated(w, h);
      hide *;
      CloneMoved(w, b, d, h);
    }
  }

  lemma CloneMoves(w: Rows, b: Batch, d: nat)
    requires RowsAgree(w, NoRows) && Fits(w, b, d)
    ensures Entities(Cloned(w, b, d)) ==
      MovedEntities(Entities(w), HandlesIn(w, b), w.kinds[w.chunks[d].arch].types, w.chunks[d].shared)
    ensures MovedInto(Entities(w), Entities(Cloned(w, b, d)), HandlesIn(w, b), w.kinds[w.chunks[d].arch].types,
                      w.chunks[d].shared)
  {
    hide Cloned, RowsAgree, Entities, MovedEntities, MovedInto, HandlesIn;
    CloneMap(w, b, d);
    AllMovedInto(Entities(w), HandlesIn(w, b), w.kinds[w.chunks[d].arch].types, w.chunks[d].shared);
  }

  /** One entity before and after. */
  lemma CloneMoved(w: Rows, b: Batch, d: nat, h: Handle)
    requires Fits(w, b, d) && Seated(w, h)
    ensures h in Cloned(w, b, d).places
    ensures EntityAt(Cloned(w, b, d), Cloned(w, b, d).places[h]) ==
      if h in HandlesIn(w, b) then Into(EntityAt(w, w.places[h]), w.kinds[w.chunks[d].arch].types, w.chunks[d].shared)
      else EntityAt(w, w.places[h])
  {
    var w1, p, first := Cloned(w, b, d), w.places[h], w.chunks[d].count;
    var bd, bs := w.buffers[d], w.buffers[b.chunk];
    var kd, ks := w.kinds[w.chunks[d].arch], w.kinds[w.chunks[b.chunk].arch];
    hide ConvertRows, RowOf, Converted, IsBuffer, OnlyRows;
    if InBatch(b, p.chunk, p.row) {
      ConvertedRowAt(bd, bs, b.start, first, b.count, kd, ks, p.row - b.start);
    } else if p.chunk == d {
      ConvertedRows(bd, bs, b.start, first, b.count, kd, ks);
      OtherRows(bd, w1.buffers[d], first, b.count, p.row);
    }
  }

  // remove and the end of deallocate: the hole is filled from the tail and the chunk shrinks.

  function Closed(w: Rows, b: Batch): Rows
    requires b.chunk in w.chunks && b.chunk in w.buffers && b.start + b.count <= w.chunks[b.chunk].count
  {
    Resized(Filled(w, b), b.chunk, w.chunks[b.chunk].count - b.count)
  }

  lemma CloseHole(w: Rows, b: Batch)
    requires RowsAgree(w, b) && ChunkOk(w, b.chunk) && b.count > 0 && b.start + b.count <= w.chunks[b.chunk].count
    ensures RowsAgree(Closed(w, b), NoRows) && Entities(Closed(w, b)) == Entities(w)
  {
    FillStep(w, b);
    ShrinkStep(Filled(w, b), b.chunk, b.count);
  }

  /** After clone the batch is still in its chunk, as a hole. */
  lemma CloneLeaves(w: Rows, b: Batch, d: nat)
    requires RowsAgree(w, NoRows) && Fits(w, b, d)
    ensures RowsAgree(Cloned(w, b, d), b) && ChunkOk(Cloned(w, b, d), b.chunk)
    ensures Cloned(w, b, d).chunks[b.chunk] == w.chunks[b.chunk] && Cloned(w, b, d).kinds == w.kinds
  {
    CloneAgrees(w, b, d);
    assert ChunkOk(Cloned(w, b, d), b.chunk);
  }

  /** One partial move: the batch ends in chunk d's archetype and nothing else changes. */
  lemma MoveEffect(w: Rows, b: Batch, d: nat)
    requires RowsAgree(w, NoRows) && Fits(w, b, d)
    ensures ChunkOk(Cloned(w, b, d), b.chunk)
    ensures RowsAgree(Closed(Cloned(w, b, d), b), NoRows)
    ensures Entities(Closed(Cloned(w, b, d), b)) ==
      MovedEntities(Entities(w), HandlesIn(w, b), w.kinds[w.chunks[d].arch].types, w.chunks[d].shared)
  {
    CloneAgrees(w, b, d);
    CloneMoves(w, b, d);
    assert ChunkOk(Cloned(w, b, d), b.chunk);
    CloseHole(Cloned(w, b, d), b);
  }

  /** The rows of a batch before position n stay where they are when the rest is moved away. */
  lemma PrefixStays(w: Rows, b: Batch, d: nat, n: nat)
    requires RowsAgree(w, NoRows) && 0 < n < b.count && Fits(w, Batch(b.chunk, b.start + n, b.count - n), d)
    ensures var taken := Batch(b.chunk, b.start + n, b.count - n);
      && ChunkOk(Cloned(w, taken, d), b.chunk)
      && var w1 := Closed(Cloned(w, taken, d), taken);
      && b.chunk in w1.chunks
      && w1.chunks[b.chunk] == w.chunks[b.chunk].(count := w.chunks[b.chunk].count - taken.count)
      && b.start + n <= w1.chunks[b.chunk].count
      && HandlesIn(w1, Batch(b.chunk, b.start, n)) == HandlesIn(w, b) - HandlesIn(w, taken)
      && HandlesIn(w, taken) <= HandlesIn(w, b)
  {
    var taken := Batch(b.chunk, b.start + n, b.count - n);
    var w0 := Cloned(w, taken, d);
    assert ChunkOk(w0, b.chunk);
    var w1 := Closed(w0, taken);
    forall h | h in w.places
      ensures h in HandlesIn(w1, Batch(b.chunk, b.start, n)) <==> h in HandlesIn(w, b) - HandlesIn(w, taken)
    {
      assert Seated(w, h);
    }
  }

  // New entities.

  /** What initializeComponents leaves in a new entity's row. */
  function Initial(t: nat, h: Handle): Value {
    if t == EntityType then Reference(h) else if IsManaged(t) then Built else Data(0)
  }

  function InitialColumn(d: seq<Value>, t: nat, start: nat, hs: seq<Handle>): (r: seq<Value>)
    ensures |r| == |d|
  {
    seq(|d|, i requires 0 <= i < |d| => if start <= i < start + |hs| then Initial(t, hs[i - start]) else d[i])
  }

  function InitialRows(b: Buffer, start: nat, hs: seq<Handle>): Buffer {
    map t | t in b :: InitialColumn(b[t], t, start, hs)
  }

  /** A new entity's values: its own handle, what a constructor leaves for a managed type, and zero for any other. */
  ghost predicate IsNew(e: Entity, h: Handle, types: seq<nat>, shared: seq<nat>) {
    && e.types == types && e.shared == shared
    && (forall t :: t in e.values <==> t in types && t < ZeroSizedFlag)
    && (forall t :: t in e.values ==>
          e.values[t] == if t == EntityType then Reference(h) else if IsManaged(t) then Built else Data(0))
  }

  lemma NewIsNew(types: seq<nat>, h: Handle, shared: seq<nat>)
    ensures IsNew(NewEntity(types, h, shared), h, types, shared)
  {
  }

  function NewEntity(types: seq<nat>, h: Handle, shared: seq<nat>): Entity {
    Entity(types, map t | t in Stored(types) :: Initial(t, h), shared)
  }

  /** After claiming rows at the end of chunk c for the handles hs. */
  function Allocated(w: Rows, c: nat, hs: seq<Handle>, places: map<Handle, Place>): Rows
    requires ChunkOk(w, c)
  {
    var first := w.chunks[c].count;
    Rows(w.kinds, WithCount(w.chunks, c, first + |hs|), w.buffers[c := InitialRows(w.buffers[c], first, hs)], places)
  }

  /** The table with new handles at the rows from first on. */
  ghost predicate Handed(before: map<Handle, Place>, hs: seq<Handle>, c: nat, first: nat, after: map<Handle, Place>) {
    && (forall h :: h in after <==> h in before || h in hs)
    && (forall h :: h in before ==> h !in hs && after[h] == before[h])
    && (forall k :: 0 <= k < |hs| ==> hs[k] in after && after[hs[k]] == At(c, first + k))
  }

  lemma InitialOwners(b: Buffer, kind: Kind, first: nat, hs: seq<Handle>)
    requires IsBuffer(b, kind) && EntityType in b && first + |hs| <= kind.capacity
    ensures OnlyRows(b, InitialRows(b, first, hs), first, |hs|)
    ensures forall k: nat :: k < |hs| ==> OwnerAt(InitialRows(b, first, hs), first + k) == Reference(hs[k])
  {
    var b1 := InitialRows(b, first, hs);
    forall k: nat | k < |hs| ensures OwnerAt(b1, first + k) == Reference(hs[k]) {
      assert b1[EntityType][first + k] == Initial(EntityType, hs[(first + k) - first]);
    }
  }

  /** n rows claimed for the handles hs, whose rows b1 stores them; if there are fewer, the other rows are nobody's. */
  lemma PartAgrees(w: Rows, c: nat, n: nat, hs: seq<Handle>, places: map<Handle, Place>, b1: Buffer)
    requires RowsAgree(w, NoRows) && ChunkOk(w, c) && |hs| <= n && n > 0
    requires w.chunks[c].count + n <= w.kinds[w.chunks[c].arch].capacity
    requires Handed(w.places, hs, c, w.chunks[c].count, places)
    requires OnlyRows(w.buffers[c], b1, w.chunks[c].count, n)
    requires forall k: nat :: k < |hs| ==> OwnerAt(b1, w.chunks[c].count + k) == Reference(hs[k])
    ensures var w1 := Rows(w.kinds, WithCount(w.chunks, c, w.chunks[c].count + n), w.buffers[c := b1], places);
      && RowsAgree(w1, Batch(c, w.chunks[c].count + |hs|, n - |hs|))
      && (forall h :: h in Entities(w1) <==> h in Entities(w) || h in hs)
      && (forall h :: h in Entities(w) ==> Entities(w1)[h] == Entities(w)[h])
  {
    hide RowsAgree, Entities, OnlyRows, IsBuffer, OwnerAt, Handed, Binds;
    var hole := Batch(c, w.chunks[c].count, n);
    var w1 := Resized(w, c, w.chunks[c].count + n);
    var w2 := w1.(buffers := w1.buffers[c := b1]);
    ReserveStep(w, c, n);
    assert ChunkOk(w1, c);
    WriteStep(w1, hole, b1);
    HandedBinds(w2, hole, hs, places);
    BindStep(w2, hole, hs, places);
    EntityKeys(w);
    EntityKeys(w2.(places := places));
    SameKeys(w.places, hs, c, w.chunks[c].count, places);
  }

  lemma HandedBinds(w: Rows, hole: Batch, hs: seq<Handle>, places: map<Handle, Place>)
    requires Handed(w.places, hs, hole.chunk, hole.start, places) && |hs| <= hole.count && hole.chunk in w.buffers
    requires forall k: nat :: k < |hs| ==> OwnerAt(w.buffers[hole.chunk], hole.start + k) == Reference(hs[k])
    ensures Binds(w, hole, hs, places)
  {
  }

  lemma SameKeys(before: map<Handle, Place>, hs: seq<Handle>, c: nat, first: nat, after: map<Handle, Place>)
    requires Handed(before, hs, c, first, after)
    ensures forall h :: h in after <==> h in before || h in hs
  {
  }

  lemma AllocateAgrees(w: Rows, c: nat, hs: seq<Handle>, places: map<Handle, Place>)
    requires RowsAgree(w, NoRows) && ChunkOk(w, c) && hs != []
    requires w.chunks[c].count + |hs| <= w.kinds[w.chunks[c].arch].capacity
    requires Handed(w.places, hs, c, w.chunks[c].count, places)
    ensures RowsAgree(Allocated(w, c, hs, places), NoRows)
    ensures forall h :: h in w.places ==> Entities(Allocated(w, c, hs, places))[h] == Entities(w)[h]
  {
    hide RowsAgree, Entities, InitialRows, Handed, OwnerAt, OnlyRows, IsBuffer;
    var first := w.chunks[c].count;
    InitialOwners(w.buffers[c], w.kinds[w.chunks[c].arch], first, hs);
    PartAgrees(w, c, |hs|, hs, places, InitialRows(w.buffers[c], first, hs));
    NoHole(Allocated(w, c, hs, places), Batch(c, first + |hs|, 0));
    EntityKeys(w);
  }

  lemma EntityKeys(w: Rows)
    ensures forall h :: h in Entities(w) <==> h in w.places
  {
  }

  /** The handles alone written to their rows. */
  function WithHandles(b: Buffer, start: nat, hs: seq<Handle>): Buffer
    requires EntityType in b
  {
    b[EntityType := InitialColumn(b[EntityType], EntityType, start, hs)]
  }

  lemma HandlesWritten(b: Buffer, kind: Kind, first: nat, hs: seq<Handle>, n: nat)
    requires IsBuffer(b, kind) && EntityType in b && |hs| <= n && first + n <= kind.capacity
    ensures OnlyRows(b, WithHandles(b, first, hs), first, n)
    ensures forall k: nat :: k < |hs| ==> OwnerAt(WithHandles(b, first, hs), first + k) == Reference(hs[k])
  {
    var b1 := WithHandles(b, first, hs);
    forall k: nat | k < |hs| ensures OwnerAt(b1, first + k) == Reference(hs[k]) {
      assert b1[EntityType][first + k] == Initial(EntityType, hs[(first + k) - first]);
    }
  }

  lemma InitialRowAt(b: Buffer, kind: Kind, first: nat, hs: seq<Handle>, k: nat)
    requires IsBuffer(b, kind) && first + |hs| <= kind.capacity && k < |hs|
    ensures RowOf(InitialRows(b, first, hs), first + k) == map t | t in Stored(kind.types) :: Initial(t, hs[k])
  {
  }

  lemma AllocatedValues(w: Rows, c: nat, hs: seq<Handle>, places: map<Handle, Place>, h: Handle)
    requires ChunkOk(w, c) && h in hs
    requires w.chunks[c].count + |hs| <= w.kinds[w.chunks[c].arch].capacity
    requires Handed(w.places, hs, c, w.chunks[c].count, places)
    ensures h in places && EntityAt(Allocated(w, c, hs, places), places[h]) ==
      NewEntity(w.kinds[w.chunks[c].arch].types, h, w.chunks[c].shared)
  {
    hide IsBuffer, InitialRows, RowOf, Stored, Initial;
    var k :| 0 <= k < |hs| && hs[k] == h;
    InitialRowAt(w.buffers[c], w.kinds[w.chunks[c].arch], w.chunks[c].count, hs, k);
  }

  lemma AllocateCreates(w: Rows, c: nat, hs: seq<Handle>, places: map<Handle, Place>)
    requires RowsAgree(w, NoRows) && ChunkOk(w, c) && hs != []
    requires w.chunks[c].count + |hs| <= w.kinds[w.chunks[c].arch].capacity
    requires Handed(w.places, hs, c, w.chunks[c].count, places)
    ensures forall h :: h in hs ==>
      && h in places
      && Entities(Allocated(w, c, hs, places))[h] == NewEntity(w.kinds[w.chunks[c].arch].types, h, w.chunks[c].shared)
      && IsNew(Entities(Allocated(w, c, hs, places))[h], h, w.kinds[w.chunks[c].arch].types, w.chunks[c].shared)
  {
    hide RowsAgree, Handed, InitialRows, NewEntity, IsNew, EntityAt, IsBuffer;
    forall h | h in hs
      ensures h in places && Entities(Allocated(w, c, hs, places))[h] ==
        NewEntity(w.kinds[w.chunks[c].arch].types, h, w.chunks[c].shared)
      ensures IsNew(NewEntity(w.kinds[w.chunks[c].arch].types, h, w.chunks[c].shared), h,
                    w.kinds[w.chunks[c].arch].types, w.chunks[c].shared)
    {
      AllocatedValues(w, c, hs, places, h);
      NewIsNew(w.kinds[w.chunks[c].arch].types, h, w.chunks[c].shared);
    }
  }
}
