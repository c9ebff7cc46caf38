/** What the chunks, their rows and the entity table stand for together, and what each step that moves rows does
    to it (src/ECS/Archetype.cpp:197-298, 463-565, src/ECS/EntityComponentStore.cpp:332-375, 576-617). */
module EntityRows {
  import opened Types
  import opened EntityBlocks
  import opened Archetypes
  import opened ChunkTracking

  /** A cell of a column: an entity's own handle, component bytes, or what a default constructor leaves. */
  datatype Value = Reference(handle: Handle) | Data(bits: int) | Built

  /** A chunk's columns, one for each type that takes room. */
  type Buffer = map<nat, seq<Value>>

  datatype Rows = Rows(kinds: seq<Kind>, chunks: map<nat, Info>, buffers: map<nat, Buffer>, places: map<Handle, Place>)

  /** The simple view of one entity. */
  datatype Entity = Entity(types: seq<nat>, values: map<nat, Value>, shared: seq<nat>)

  /** Consecutive rows of one chunk. */
  datatype Batch = Batch(chunk: nat, start: nat, count: nat)

  const NoRows: Batch := Batch(0, 0, 0)

  predicate InBatch(b: Batch, c: nat, i: nat) {
    c == b.chunk && b.start <= i < b.start + b.count
  }

  /** The types of a list that have a column. */
  function Stored(types: seq<nat>): set<nat> {
    set t | t in types && t < ZeroSizedFlag
  }

  predicate IsBuffer(b: Buffer, kind: Kind) {
    b.Keys == Stored(kind.types) && forall t :: t in b ==> |b[t]| == kind.capacity
  }

  function RowOf(b: Buffer, i: nat): map<nat, Value> {
    map t | t in b && i < |b[t]| :: b[t][i]
  }

  function OwnerAt(b: Buffer, i: nat): Value {
    if EntityType in b && i < |b[EntityType]| then b[EntityType][i] else Data(0)
  }

  function Owner(w: Rows, c: nat, i: nat): Value {
    if c in w.buffers then OwnerAt(w.buffers[c], i) else Data(0)
  }

  predicate ChunkOk(w: Rows, c: nat) {
    && c in w.chunks && c in w.buffers && w.chunks[c].arch < |w.kinds|
    && w.chunks[c].count <= w.kinds[w.chunks[c].arch].capacity
    && IsBuffer(w.buffers[c], w.kinds[w.chunks[c].arch]) && EntityType in w.buffers[c]
  }

  /** Row i of chunk c stores a live handle, and the table sends that handle back to the row. */
  predicate RowTaken(w: Rows, c: nat, i: nat) {
    var v := Owner(w, c, i);
    v.Reference? && v.handle in w.places && w.places[v.handle] == At(c, i)
  }

  /** The table sends the handle to a row in use that stores it. */
  predicate Seated(w: Rows, h: Handle) {
    && h in w.places && w.places[h].At? && w.places[h].chunk in w.chunks
    && w.places[h].row < w.chunks[w.places[h].chunk].count
    && Owner(w, w.places[h].chunk, w.places[h].row) == Reference(h)
  }

  ghost predicate ChunksOk(w: Rows) {
    forall c {:trigger ChunkOk(w, c)} :: c in w.chunks ==> ChunkOk(w, c)
  }

  ghost predicate RowsTaken(w: Rows, hole: Batch) {
    forall c, i: nat {:trigger RowTaken(w, c, i)} ::
      c in w.chunks && i < w.chunks[c].count && !InBatch(hole, c, i) ==> RowTaken(w, c, i)
  }

  ghost predicate AllSeated(w: Rows, hole: Batch) {
    forall h {:trigger Seated(w, h)} ::
      h in w.places ==> Seated(w, h) && !InBatch(hole, w.places[h].chunk, w.places[h].row)
  }

  /** Rows and table agree, except that the rows of the hole are nobody's. */
  ghost predicate RowsAgree(w: Rows, hole: Batch) {
    ChunksOk(w) && RowsTaken(w, hole) && AllSeated(w, hole)
  }

  /** A handle is live exactly if one row stores it, that row is unique, and the table names it. */
  lemma LocationAgreement(w: Rows, h: Handle)
    requires RowsAgree(w, NoRows)
    ensures h in w.places <==>
      exists c, i: nat :: c in w.chunks && i < w.chunks[c].count && Owner(w, c, i) == Reference(h)
    ensures forall c, i: nat :: c in w.chunks && i < w.chunks[c].count && Owner(w, c, i) == Reference(h) ==>
      h in w.places && w.places[h] == At(c, i)
  {
    forall c, i: nat | c in w.chunks && i < w.chunks[c].count && Owner(w, c, i) == Reference(h)
      ensures h in w.places && w.places[h] == At(c, i)
    {
      assert RowTaken(w, c, i);
    }
    if h in w.places {
      assert Seated(w, h);
      assert Owner(w, w.places[h].chunk, w.places[h].row) == Reference(h);
    }
  }

  // The abstract value.

  function EntityAt(w: Rows, p: Place): Entity {
    if p.At? && p.chunk in w.chunks && p.chunk in w.buffers && w.chunks[p.chunk].arch < |w.kinds| then
      Entity(w.kinds[w.chunks[p.chunk].arch].types, RowOf(w.buffers[p.chunk], p.row), w.chunks[p.chunk].shared)
    else Entity([], map[], [])
  }

  /** Every live entity with its types, values and shared values. */
  function Entities(w: Rows): map<Handle, Entity> {
    map h | h in w.places :: EntityAt(w, w.places[h])
  }

  function HandlesIn(w: Rows, b: Batch): set<Handle> {
    set h | h in w.places && w.places[h].At? && InBatch(b, w.places[h].chunk, w.places[h].row)
  }

  // Steps.

  function NewChunk(w: Rows, c: nat, k: nat, shared: seq<nat>, b: Buffer): Rows {
    w.(chunks := w.chunks[c := Info(k, 0, shared)], buffers := w.buffers[c := b])
  }

  /** A chunk nobody uses joins with no rows; what its memory holds does not matter. */
  lemma NewChunkStep(w: Rows, c: nat, k: nat, shared: seq<nat>, b: Buffer)
    requires RowsAgree(w, NoRows) && c !in w.chunks && k < |w.kinds| && IsBuffer(b, w.kinds[k]) && EntityType in b
    ensures RowsAgree(NewChunk(w, c, k, shared, b), NoRows) && Entities(NewChunk(w, c, k, shared, b)) == Entities(w)
  {
    var w1 := NewChunk(w, c, k, shared, b);
    forall d | d in w1.chunks ensures ChunkOk(w1, d) { if d != c { assert ChunkOk(w, d); } }
    forall d, i: nat | d in w1.chunks && i < w1.chunks[d].count ensures RowTaken(w1, d, i) { assert RowTaken(w, d, i); }
    forall h | h in w1.places
      ensures Seated(w1, h) && EntityAt(w1, w1.places[h]) == EntityAt(w, w.places[h])
    {
      assert Seated(w, h);
    }
  }

  function Resized(w: Rows, c: nat, n: nat): Rows
    requires c in w.chunks
  {
    w.(chunks := WithCount(w.chunks, c, n))
  }

  /** An entity that does not sit in a row given up stays as it is. */
  lemma ResizedSeat(w: Rows, c: nat, n: nat, h: Handle)
    requires c in w.chunks && Seated(w, h) && (w.places[h].chunk == c ==> w.places[h].row < n)
    ensures var w1 := Resized(w, c, n);
      h in w1.places && Seated(w1, h) && EntityAt(w1, w1.places[h]) == EntityAt(w, w.places[h])
  {
    hide RowOf, OwnerAt;
  }

  lemma ResizedChunks(w: Rows, c: nat, n: nat)
    requires ChunksOk(w) && ChunkOk(w, c) && n <= w.kinds[w.chunks[c].arch].capacity
    ensures ChunksOk(Resized(w, c, n))
  {
    var w1 := Resized(w, c, n);
    forall d | d in w1.chunks ensures ChunkOk(w1, d) {
      hide IsBuffer;
      assert ChunkOk(w, d);
    }
  }

  /** Every row in use outside the one hole was in use outside the other. */
  predicate SameRows(w: Rows, hole: Batch, w1: Rows, hole1: Batch) {
    forall d, i: nat :: d in w1.chunks && i < w1.chunks[d].count && !InBatch(hole1, d, i) ==>
      d in w.chunks && i < w.chunks[d].count && !InBatch(hole, d, i)
  }

  lemma ResizedRows(w: Rows, c: nat, n: nat, hole: Batch, hole1: Batch)
    requires c in w.chunks && RowsTaken(w, hole) && SameRows(w, hole, Resized(w, c, n), hole1)
    ensures RowsTaken(Resized(w, c, n), hole1)
  {
    var w1 := Resized(w, c, n);
    forall d, i: nat | d in w1.chunks && i < w1.chunks[d].count && !InBatch(hole1, d, i) ensures RowTaken(w1, d, i) {
      hide InBatch;
      assert RowTaken(w, d, i);
    }
  }

  lemma ResizedSeats(w: Rows, c: nat, n: nat, hole: Batch, hole1: Batch)
    requires c in w.chunks && AllSeated(w, hole)
    requires forall h :: h in w.places && Seated(w, h) && !InBatch(hole, w.places[h].chunk, w.places[h].row) ==>
      (w.places[h].chunk == c ==> w.places[h].row < n) && !InBatch(hole1, w.places[h].chunk, w.places[h].row)
    ensures AllSeated(Resized(w, c, n), hole1) && Entities(Resized(w, c, n)) == Entities(w)
  {
    var w1 := Resized(w, c, n);
    forall h | h in w1.places
      ensures Seated(w1, h) && !InBatch(hole1, w1.places[h].chunk, w1.places[h].row)
      ensures EntityAt(w1, w1.places[h]) == EntityAt(w, w.places[h])
    {
      hide EntityAt, Owner, InBatch, WithCount;
      assert Seated(w, h);
      ResizedSeat(w, c, n, h);
    }
  }

  /** Rows are claimed at the end of a chunk: nobody's yet. */
  lemma ReserveStep(w: Rows, c: nat, n: nat)
    requires RowsAgree(w, NoRows) && ChunkOk(w, c) && n > 0
    requires w.chunks[c].count + n <= w.kinds[w.chunks[c].arch].capacity
    ensures var w1 := Resized(w, c, w.chunks[c].count + n);
      RowsAgree(w1, Batch(c, w.chunks[c].count, n)) && Entities(w1) == Entities(w)
  {
    hide ChunksOk, RowsTaken, AllSeated, Entities, Owner, IsBuffer;
    var count := w.chunks[c].count;
    ResizedChunks(w, c, count + n);
    ResizedRows(w, c, count + n, NoRows, Batch(c, count, n));
    ResizedSeats(w, c, count + n, NoRows, Batch(c, count, n));
  }

  /** A hole at the end of a chunk is given up; with its last row the chunk goes too. */
  lemma ShrinkStep(w: Rows, c: nat, n: nat)
    requires c in w.chunks && 0 < n <= w.chunks[c].count && RowsAgree(w, Batch(c, w.chunks[c].count - n, n))
    ensures var w1 := Resized(w, c, w.chunks[c].count - n);
      RowsAgree(w1, NoRows) && Entities(w1) == Entities(w)
  {
    assert ChunkOk(w, c);
    hide ChunksOk, RowsTaken, AllSeated, Entities, Owner, IsBuffer;
    var rest := w.chunks[c].count - n;
    ResizedChunks(w, c, rest);
    ResizedRows(w, c, rest, Batch(c, rest, n), NoRows);
    ResizedSeats(w, c, rest, Batch(c, rest, n), NoRows);
  }

  /** b1 differs from b at most in the given rows. */
  ghost predicate OnlyRows(b: Buffer, b1: Buffer, start: nat, count: nat) {
    && b1.Keys == b.Keys
    && (forall t :: t in b ==> |b1[t]| == |b[t]|)
    && (forall t, i: nat :: t in b && i < |b[t]| && !(start <= i < start + count) ==> b1[t][i] == b[t][i])
  }

  lemma OtherRows(b: Buffer, b1: Buffer, start: nat, count: nat, i: nat)
    requires OnlyRows(b, b1, start, count) && !(start <= i < start + count)
    ensures RowOf(b1, i) == RowOf(b, i) && OwnerAt(b1, i) == OwnerAt(b, i)
  {
  }

  /** Writing to rows that are nobody's. */
  lemma WriteStep(w: Rows, hole: Batch, b: Buffer)
    requires RowsAgree(w, hole) && ChunkOk(w, hole.chunk) && OnlyRows(w.buffers[hole.chunk], b, hole.start, hole.count)
    ensures var w1 := w.(buffers := w.buffers[hole.chunk := b]);
      RowsAgree(w1, hole) && Entities(w1) == Entities(w)
  {
    var w1 := w.(buffers := w.buffers[hole.chunk := b]);
    var b0 := w.buffers[hole.chunk];
    forall d | d in w1.chunks ensures ChunkOk(w1, d) { assert ChunkOk(w, d); }
    forall d, i: nat | d in w1.chunks && i < w1.chunks[d].count && !InBatch(hole, d, i) ensures RowTaken(w1, d, i) {
      assert RowTaken(w, d, i);
      if d == hole.chunk { OtherRows(b0, b, hole.start, hole.count, i); }
    }
    forall h | h in w1.places
      ensures Seated(w1, h) && !InBatch(hole, w1.places[h].chunk, w1.places[h].row)
      ensures EntityAt(w1, w1.places[h]) == EntityAt(w, w.places[h])
    {
      assert Seated(w, h) && !InBatch(hole, w.places[h].chunk, w.places[h].row);
      if w.places[h].chunk == hole.chunk { OtherRows(b0, b, hole.start, hole.count, w.places[h].row); }
    }
  }

  /** What is left of a hole once its first n rows are somebody's. */
  function Rest(hole: Batch, n: nat): Batch
    requires n <= hole.count
  {
    Batch(hole.chunk, hole.start + n, hole.count - n)
  }

  /** The table with new handles hs at the first rows of the hole, which store them. */
  ghost predicate Binds(w: Rows, hole: Batch, hs: seq<Handle>, places: map<Handle, Place>) {
    && |hs| <= hole.count
    && (forall h :: h in places <==> h in w.places || h in hs)
    && (forall h :: h in w.places ==> places[h] == w.places[h])
    && (forall k :: 0 <= k < |hs| ==> hs[k] in places && places[hs[k]] == At(hole.chunk, hole.start + k))
    && (forall k: nat :: k < |hs| ==> Owner(w, hole.chunk, hole.start + k) == Reference(hs[k]))
  }

  lemma BoundRow(w: Rows, hole: Batch, hs: seq<Handle>, places: map<Handle, Place>, d: nat, i: nat)
    requires Binds(w, hole, hs, places) && !InBatch(Rest(hole, |hs|), d, i)
    requires InBatch(hole, d, i) || RowTaken(w, d, i)
    ensures RowTaken(w.(places := places), d, i)
  {
    if InBatch(hole, d, i) {
      var k := i - hole.start;
      assert Owner(w, hole.chunk, hole.start + k) == Reference(hs[k]);
    }
  }

  lemma BoundSeat(w: Rows, hole: Batch, hs: seq<Handle>, places: map<Handle, Place>, h: Handle)
    requires Binds(w, hole, hs, places) && h in places && hole.chunk in w.chunks
    requires hole.start + hole.count <= w.chunks[hole.chunk].count
    requires h in w.places ==> Seated(w, h) && !InBatch(hole, w.places[h].chunk, w.places[h].row)
    ensures Seated(w.(places := places), h) && !InBatch(Rest(hole, |hs|), places[h].chunk, places[h].row)
  {
    if h !in w.places {
      var k: nat :| k < |hs| && hs[k] == h;
      assert Owner(w, hole.chunk, hole.start + k) == Reference(h);
    }
  }

  /** The first rows of a hole get the handles they store: the rest of it is nobody's still. */
  lemma BindStep(w: Rows, hole: Batch, hs: seq<Handle>, places: map<Handle, Place>)
    requires RowsAgree(w, hole) && hole.chunk in w.chunks && Binds(w, hole, hs, places)
    requires hole.start + hole.count <= w.chunks[hole.chunk].count
    ensures RowsAgree(w.(places := places), Rest(hole, |hs|))
    ensures forall h :: h in w.places ==> Entities(w.(places := places))[h] == Entities(w)[h]
  {
    hide Binds, InBatch, Owner, IsBuffer;
    BoundEntities(w, hole, hs, places);
    var w1 := w.(places := places);
    forall d | d in w1.chunks ensures ChunkOk(w1, d) { assert ChunkOk(w, d); }
    forall d, i: nat | d in w1.chunks && i < w1.chunks[d].count && !InBatch(Rest(hole, |hs|), d, i)
      ensures RowTaken(w1, d, i)
    {
      assert InBatch(hole, d, i) || RowTaken(w, d, i);
      BoundRow(w, hole, hs, places, d, i);
    }
    forall h | h in w1.places
      ensures Seated(w1, h) && !InBatch(Rest(hole, |hs|), w1.places[h].chunk, w1.places[h].row)
    {
      assert h in w.places ==> Seated(w, h);
      BoundSeat(w, hole, hs, places, h);
    }
  }

  lemma BoundEntities(w: Rows, hole: Batch, hs: seq<Handle>, places: map<Handle, Place>)
    requires Binds(w, hole, hs, places)
    ensures |hs| <= hole.count
    ensures forall h :: h in w.places ==>
      h in places && Entities(w.(places := places))[h] == Entities(w)[h]
  {
    forall h | h in w.places
      ensures h in places && EntityAt(w.(places := places), places[h]) == EntityAt(w, w.places[h])
    {
    }
  }

  /** A hole without rows is none. */
  lemma NoHole(w: Rows, hole: Batch)
    requires RowsAgree(w, hole) && hole.count == 0
    ensures RowsAgree(w, NoRows)
  {
    forall d, i: nat | d in w.chunks && i < w.chunks[d].count ensures RowTaken(w, d, i) {
      assert !InBatch(hole, d, i);
    }
    forall h | h in w.places ensures Seated(w, h) && !InBatch(NoRows, w.places[h].chunk, w.places[h].row) {
      assert Seated(w, h);
    }
  }

  /** The table after the handles of the batch were sent to rows of chunk d from row `first` on. */
  function Moved(places: map<Handle, Place>, b: Batch, d: nat, first: nat): map<Handle, Place> {
    map h | h in places ::
      if places[h].At? && InBatch(b, places[h].chunk, places[h].row)
      then At(d, first + (places[h].row - b.start)) else places[h]
  }

  /** The rows of a batch were copied into the hole; their handles follow, and the batch is the hole now. */
  lemma RepointStep(w: Rows, hole: Batch, b: Batch)
    requires RowsAgree(w, hole) && hole.chunk in w.chunks && b.chunk in w.chunks && b.count == hole.count
    requires b.chunk != hole.chunk
    requires hole.start + hole.count <= w.chunks[hole.chunk].count && b.start + b.count <= w.chunks[b.chunk].count
    requires forall i: nat :: InBatch(b, b.chunk, i) ==>
      Owner(w, b.chunk, i) == Owner(w, hole.chunk, hole.start + (i - b.start))
    ensures RowsAgree(w.(places := Moved(w.places, b, hole.chunk, hole.start)), b)
  {
    var w1 := w.(places := Moved(w.places, b, hole.chunk, hole.start));
    forall d | d in w1.chunks ensures ChunkOk(w1, d) { assert ChunkOk(w, d); }
    forall d, i: nat | d in w1.chunks && i < w1.chunks[d].count && !InBatch(b, d, i) ensures RowTaken(w1, d, i) {
      if InBatch(hole, d, i) {
        var r := b.start + (i - hole.start);
        assert InBatch(b, b.chunk, r);
        assert RowTaken(w, b.chunk, r);
      } else {
        assert RowTaken(w, d, i);
      }
    }
    forall h | h in w1.places ensures Seated(w1, h) && !InBatch(b, w1.places[h].chunk, w1.places[h].row) {
      assert Seated(w, h) && !InBatch(hole, w.places[h].chunk, w.places[h].row);
    }
  }

  function CopyColumn(s: seq<Value>, from: nat, to: nat, n: nat): (r: seq<Value>)
    ensures |r| == |s|
  {
    seq(|s|, i requires 0 <= i < |s| => if to <= i < to + n && from + (i - to) < |s| then s[from + (i - to)] else s[i])
  }

  /** Rows copied inside a chunk, column by column. */
  function CopyRows(b: Buffer, from: nat, to: nat, n: nat): Buffer {
    map t | t in b :: CopyColumn(b[t], from, to, n)
  }

  lemma CopiedRow(b: Buffer, from: nat, to: nat, n: nat, k: nat, kind: Kind)
    requires IsBuffer(b, kind) && k < n && from + n <= kind.capacity && to + n <= kind.capacity
    ensures RowOf(CopyRows(b, from, to, n), to + k) == RowOf(b, from + k)
    ensures OwnerAt(CopyRows(b, from, to, n), to + k) == OwnerAt(b, from + k)
  {
    var b1 := CopyRows(b, from, to, n);
    forall t | t in b ensures to + k < |b1[t]| && from + k < |b[t]| && b1[t][to + k] == b[t][from + k] {}
  }

  /** The number of rows fill-from-tail moves. */
  function FillCount(count: nat, b: Batch): nat
    requires b.start + b.count <= count
  {
    if b.count < count - b.start - b.count then b.count else count - b.start - b.count
  }

  /** Fill-from-tail: the chunk's last rows and their table entries go where the batch was. */
  function Filled(w: Rows, b: Batch): Rows
    requires b.chunk in w.chunks && b.chunk in w.buffers && b.start + b.count <= w.chunks[b.chunk].count
  {
    var fill := FillCount(w.chunks[b.chunk].count, b);
    var from := w.chunks[b.chunk].count - fill;
    w.(buffers := w.buffers[b.chunk := CopyRows(w.buffers[b.chunk], from, b.start, fill)],
       places := Moved(w.places, Batch(b.chunk, from, fill), b.chunk, b.start))
  }

  /** The hole goes to the end of the chunk; no entity changes. */
  lemma FillStep(w: Rows, b: Batch)
    requires RowsAgree(w, b) && b.chunk in w.chunks && b.start + b.count <= w.chunks[b.chunk].count
    ensures ChunkOk(w, b.chunk)
    ensures RowsAgree(Filled(w, b), Batch(b.chunk, w.chunks[b.chunk].count - b.count, b.count))
    ensures Entities(Filled(w, b)) == Entities(w)
  {
    assert ChunkOk(w, b.chunk);
    FillRowsTaken(w, b);
    FillSeated(w, b);
    var w1 := Filled(w, b);
    forall d | d in w1.chunks ensures ChunkOk(w1, d) { assert ChunkOk(w, d); }
  }

  lemma FillRowsTaken(w: Rows, b: Batch)
    requires RowsAgree(w, b) && ChunkOk(w, b.chunk) && b.start + b.count <= w.chunks[b.chunk].count
    ensures RowsTaken(Filled(w, b), Batch(b.chunk, w.chunks[b.chunk].count - b.count, b.count))
  {
    var w1 := Filled(w, b);
    var n := w.chunks[b.chunk].count;
    var fill := FillCount(n, b);
    var from := n - fill;
    var b0, b1 := w.buffers[b.chunk], w1.buffers[b.chunk];
    var kind := w.kinds[w.chunks[b.chunk].arch];
    forall d, i: nat | d in w1.chunks && i < w1.chunks[d].count && !InBatch(Batch(b.chunk, n - b.count, b.count), d, i)
      ensures RowTaken(w1, d, i)
    {
      if d == b.chunk && b.start <= i < b.start + fill {
        assert RowTaken(w, d, from + (i - b.start));
        CopiedRow(b0, from, b.start, fill, i - b.start, kind);
      } else {
        assert RowTaken(w, d, i);
      }
    }
  }

  lemma FillSeated(w: Rows, b: Batch)
    requires RowsAgree(w, b) && ChunkOk(w, b.chunk) && b.start + b.count <= w.chunks[b.chunk].count
    ensures AllSeated(Filled(w, b), Batch(b.chunk, w.chunks[b.chunk].count - b.count, b.count))
    ensures Entities(Filled(w, b)) == Entities(w)
  {
    var w1, n := Filled(w, b), w.chunks[b.chunk].count;
    forall h | h in w1.places
      ensures Seated(w1, h) && !InBatch(Batch(b.chunk, n - b.count, b.count), w1.places[h].chunk, w1.places[h].row)
      ensures EntityAt(w1, w1.places[h]) == EntityAt(w, w.places[h])
    {
      assert h in w.places && Seated(w, h) && !InBatch(b, w.places[h].chunk, w.places[h].row);
      hide *;
      FillSeat(w, b, h);
    }
  }

  /** Where an entity outside the batch is after the fill. */
  lemma FillPlace(w: Rows, b: Batch, h: Handle)
    requires ChunkOk(w, b.chunk) && b.start + b.count <= w.chunks[b.chunk].count
    requires Seated(w, h) && !InBatch(b, w.places[h].chunk, w.places[h].row)
    ensures h in Moved(w.places, Tail(w, b), b.chunk, b.start)
    ensures var n, r, p1 := w.chunks[b.chunk].count, w.places[h].row, Moved(w.places, Tail(w, b), b.chunk, b.start)[h];
      && p1.At? && p1.chunk == w.places[h].chunk && p1.row < w.chunks[p1.chunk].count
      && !InBatch(Batch(b.chunk, n - b.count, b.count), p1.chunk, p1.row)
      && p1.row == if p1.chunk == b.chunk && Tail(w, b).start <= r then b.start + (r - Tail(w, b).start) else r
  {
  }

  /** The rows that move into the batch. */
  function Tail(w: Rows, b: Batch): Batch
    requires b.chunk in w.chunks && b.start + b.count <= w.chunks[b.chunk].count
  {
    var fill := FillCount(w.chunks[b.chunk].count, b);
    Batch(b.chunk, w.chunks[b.chunk].count - fill, fill)
  }

  /** The row is the same there. */
  lemma CopiedOrKept(b: Buffer, kind: Kind, from: nat, to: nat, n: nat, r: nat, r1: nat)
    requires IsBuffer(b, kind) && from + n <= kind.capacity && to + n <= kind.capacity && r < from + n
    requires if from <= r then r1 == to + (r - from) else r1 == r && !(to <= r < to + n)
    ensures RowOf(CopyRows(b, from, to, n), r1) == RowOf(b, r) && OwnerAt(CopyRows(b, from, to, n), r1) == OwnerAt(b, r)
  {
    hide CopyRows, RowOf, OwnerAt, IsBuffer;
    if from <= r {
      CopiedRow(b, from, to, n, r - from, kind);
    } else {
      KeptRow(b, from, to, n, r);
    }
  }

  lemma FillRow(w: Rows, b: Batch, r: nat)
    requires ChunkOk(w, b.chunk) && b.start + b.count <= w.chunks[b.chunk].count
    requires r < w.chunks[b.chunk].count && !InBatch(b, b.chunk, r)
    ensures var b0, b1 := w.buffers[b.chunk], Filled(w, b).buffers[b.chunk];
      var r1 := if Tail(w, b).start <= r then b.start + (r - Tail(w, b).start) else r;
      RowOf(b1, r1) == RowOf(b0, r) && OwnerAt(b1, r1) == OwnerAt(b0, r)
  {
    hide CopyRows, RowOf, OwnerAt, IsBuffer, Moved;
    var kind, from, fill := w.kinds[w.chunks[b.chunk].arch], Tail(w, b).start, Tail(w, b).count;
    CopiedOrKept(w.buffers[b.chunk], kind, from, b.start, fill, r, if from <= r then b.start + (r - from) else r);
  }

  lemma FillSeat(w: Rows, b: Batch, h: Handle)
    requires ChunkOk(w, b.chunk) && b.start + b.count <= w.chunks[b.chunk].count
    requires Seated(w, h) && !InBatch(b, w.places[h].chunk, w.places[h].row)
    ensures var w1, n := Filled(w, b), w.chunks[b.chunk].count;
      && h in w1.places && Seated(w1, h)
      && !InBatch(Batch(b.chunk, n - b.count, b.count), w1.places[h].chunk, w1.places[h].row)
      && EntityAt(w1, w1.places[h]) == EntityAt(w, w.places[h])
  {
    hide CopyRows, RowOf, OwnerAt, IsBuffer, EntityAt, Moved, FillCount;
    var w1 := Filled(w, b);
    FillPlace(w, b, h);
    if w.places[h].chunk == b.chunk {
      FillRow(w, b, w.places[h].row);
    }
    SameEntity(w, w1, w.places[h], w1.places[h]);
  }

  /** One entity before and after. */
  lemma SameEntity(w: Rows, w1: Rows, p: Place, p1: Place)
    requires w1.kinds == w.kinds && w1.chunks == w.chunks && p.At? && p1.At? && p1.chunk == p.chunk
    requires p.chunk in w.buffers && p.chunk in w1.buffers
    requires RowOf(w.buffers[p.chunk], p.row) == RowOf(w1.buffers[p.chunk], p1.row)
    ensures EntityAt(w, p) == EntityAt(w1, p1)
  {
    hide RowOf;
  }

  lemma KeptRow(b: Buffer, from: nat, to: nat, n: nat, i: nat)
    requires !(to <= i < to + n)
    ensures RowOf(CopyRows(b, from, to, n), i) == RowOf(b, i) && OwnerAt(CopyRows(b, from, to, n), i) == OwnerAt(b, i)
  {
  }

  /** The handles of a batch are freed: the batch is a hole. */
  lemma FreeStep(w: Rows, b: Batch)
    requires RowsAgree(w, NoRows)
    ensures RowsAgree(w.(places := w.places - HandlesIn(w, b)), b)
    ensures Entities(w.(places := w.places - HandlesIn(w, b))) == Entities(w) - HandlesIn(w, b)
  {
    var w1 := w.(places := w.places - HandlesIn(w, b));
    forall d | d in w1.chunks ensures ChunkOk(w1, d) { assert ChunkOk(w, d); }
    forall d, i: nat | d in w1.chunks && i < w1.chunks[d].count && !InBatch(b, d, i) ensures RowTaken(w1, d, i) {
      assert RowTaken(w, d, i);
    }
    forall h | h in w1.places ensures Seated(w1, h) && !InBatch(b, w1.places[h].chunk, w1.places[h].row) {
      assert Seated(w, h);
    }
  }
}
