/** The entity component store (src/ECS/EntityComponentStore.cpp, src/ECS/Archetype.cpp): archetypes, chunks,
    rows and the entity table kept in step while entities are created, moved and destroyed.

    Every operation is stated over Entities(View()), the map from live handles to types, values and shared values,
    and over destructed, the destructor calls made. An operation that works through a hole, rows that are nobody's for a
    while, says so by RowsAgree(View(), hole); the lemmas of EntityRows and EntityMoves take it from there. */
module EntityComponentStore {
  import opened Types
  import opened EntityBlocks
  import opened Archetypes
  import opened EntityRows
  import opened EntityMoves
  import opened ChunkColumns
  import opened EntityCounts
  import opened SharedIndices
  import opened ChunkTracking
  import opened Collections
  import EntityStore
  import Probing

  /** The tracking knows the limits of every archetype. */
  ghost predicate Parallel(kinds: seq<Kind>, archs: seq<ChunkTracking.Archetype>) {
    && |archs| == |kinds|
    && forall k :: 0 <= k < |kinds| ==>
         archs[k].capacity == kinds[k].capacity && archs[k].numShared == NumShared(kinds[k].types)
  }

  /** The handles of a batch, row by row. */
  ghost predicate RowHandles(places: map<Handle, Place>, b: Batch, hs: seq<Handle>) {
    && |hs| == b.count
    && (forall i: nat :: i < |hs| ==> hs[i] in places && places[hs[i]] == At(b.chunk, b.start + i))
    && (forall h :: h in places && places[h].At? && InBatch(b, places[h].chunk, places[h].row) ==>
          h == hs[places[h].row - b.start])
  }

  function OwnersOf(b: Buffer, start: nat, n: nat): (hs: seq<Handle>)
    ensures |hs| == n
  {
    seq(n, i requires 0 <= i < n => var v := OwnerAt(b, start + i); if v.Reference? then v.handle else Handle(-1, 0))
  }

  /** The owners stored in rows in use are exactly the handles the table sends there. */
  lemma BatchHandles(w: Rows, hole: Batch, b: Batch)
    requires RowsAgree(w, hole) && ChunkOk(w, b.chunk) && b.start + b.count <= w.chunks[b.chunk].count
    requires forall i: nat :: InBatch(b, b.chunk, i) ==> !InBatch(hole, b.chunk, i)
    ensures var hs := OwnersOf(w.buffers[b.chunk], b.start, b.count);
      && RowHandles(w.places, b, hs) && Owned(w.buffers[b.chunk], b.start, hs)
      && HandleSet(hs) == HandlesIn(w, b)
  {
    var hs := OwnersOf(w.buffers[b.chunk], b.start, b.count);
    forall i: nat | i < |hs|
      ensures hs[i] in w.places && w.places[hs[i]] == At(b.chunk, b.start + i)
      ensures OwnerAt(w.buffers[b.chunk], b.start + i) == Reference(hs[i])
    {
      assert RowTaken(w, b.chunk, b.start + i);
    }
    forall h | h in w.places && w.places[h].At? && InBatch(b, w.places[h].chunk, w.places[h].row)
      ensures h == hs[w.places[h].row - b.start]
    {
      assert Seated(w, h);
    }
  }

  lemma NoneMoved(places: map<Handle, Place>, b: Batch, d: nat, first: nat)
    ensures Moved(places, Batch(b.chunk, b.start, 0), d, first) == places
  {
  }

  lemma MovedStep(places: map<Handle, Place>, b: Batch, hs: seq<Handle>, i: nat, d: nat, first: nat)
    requires RowHandles(places, b, hs) && i < |hs|
    ensures hs[i] in Moved(places, Batch(b.chunk, b.start, i), d, first)
    ensures Moved(places, Batch(b.chunk, b.start, i + 1), d, first) ==
      Moved(places, Batch(b.chunk, b.start, i), d, first)[hs[i] := At(d, first + i)]
  {
  }

  lemma AllMoved(places: map<Handle, Place>, b: Batch, hs: seq<Handle>)
    requires RowHandles(places, b, hs)
    ensures Batch(b.chunk, b.start, |hs|) == b
  {
  }

  class Store {
    const table: Table
    const tracker: ChunkTracking.Tracker
    const entities: EntityStore.Store
    var buffers: map<nat, Buffer>
    /** What freshly allocated chunk memory holds: anything. */
    const memory: (nat, nat) -> Value
    /** Every destructor call made so far. */
    var destructed: multiset<Destruction>

    function View(): Rows
      requires BlocksOk(entities.dataBlocks)
      reads this, table, tracker, entities
    {
      Rows(table.archetypes, tracker.Shape(), buffers, Places(entities.dataBlocks))
    }

    /** The parts hold together; chunks in `but` may be empty. */
    ghost predicate Sound(but: set<nat>)
      reads this, table, table.lookup, tracker, entities
    {
      table.Valid() && tracker.ValidBut(but) && entities.Valid() && Parallel(table.archetypes, tracker.archetypes)
    }

    /** Between public operations, tracking, rows and entity table agree. */
    ghost predicate Valid()
      reads this, table, table.lookup, tracker, entities
    {
      Sound({}) && RowsAgree(View(), NoRows)
    }

    constructor (hash: Probing.Key -> nat, capacityOf: seq<nat> -> nat, memory: (nat, nat) -> Value)
      ensures Valid() && fresh(table) && fresh(table.lookup) && fresh(tracker) && fresh(entities)
      ensures EntityRows.Entities(View()) == map[] && table.archetypes == [] && destructed == multiset{}
      ensures table.capacityOf == capacityOf
    {
      this.memory := memory;
      table := new Table(hash, capacityOf);
      tracker := new ChunkTracking.Tracker(hash);
      entities := new EntityStore.Store();
      buffers, destructed := map[], multiset{};
    }

    /** setEntityInChunk for the handles of a batch, one row after the other. */
    method SetEntitiesInChunk(hs: seq<Handle>, ghost b: Batch, d: nat, first: nat)
      requires entities.Valid() && RowHandles(Places(entities.dataBlocks), b, hs)
      modifies entities
      ensures entities.Valid() && Places(entities.dataBlocks) == Moved(old(Places(entities.dataBlocks)), b, d, first)
    {
      hide Places, BlocksOk, Moved, RowHandles;
      ghost var places := Places(entities.dataBlocks);
      NoneMoved(places, b, d, first);
      for i := 0 to |hs|
        invariant entities.Valid()
        invariant Places(entities.dataBlocks) == Moved(places, Batch(b.chunk, b.start, i), d, first)
      {
        MovedStep(places, b, hs, i, d, first);
        var ok := entities.SetEntityInChunk(hs[i], At(d, first + i));
      }
      AllMoved(places, b, hs);
    }

    /** convert for a batch and the rows of chunk d from `first` on, with its destructor calls; hs are the batch's
        handles. */
    method ConvertBatch(b: Batch, ks: Kind, d: nat, kd: Kind, first: nat, ghost hs: seq<Handle>)
      requires KindOk(ks) && KindOk(kd) && b.chunk in buffers && d in buffers
      requires IsBuffer(buffers[b.chunk], ks) && IsBuffer(buffers[d], kd)
      requires |hs| == b.count && Owned(buffers[b.chunk], b.start, hs)
      modifies this
      ensures buffers == old(buffers)[d := ConvertRows(old(buffers)[d], old(buffers)[b.chunk], b.start, first, b.count)]
      ensures destructed == old(destructed) + multiset(Destructions(HandleSet(hs), LeftBehind(ks.types, kd.types)))
    {
      var bs := buffers[b.chunk];
      ConvertMeans(ks, kd, bs, buffers[d], b.start, first, b.count);
      var b1, dead := Convert(Job(bs, b.start, first, b.count), ks.types[..ks.firstTag], kd.types[..kd.firstTag],
                              buffers[d]);
      destructed := DestroySourceOnly(ks, Stored(kd.types), dead, bs, b.start, b.count, destructed, hs);
      buffers := buffers[d := b1];
      assert LeftBehind(ks.types, kd.types) == Disposed(ks.types) - Stored(kd.types);
    }

    /** clone: rows at the end of chunk d become converted copies of the batch, and the entities live there. */
    method Clone(b: Batch, d: nat)
      requires Sound({d}) && RowsAgree(View(), NoRows) && Fits(View(), b, d)
      modifies this, tracker, entities
      ensures Sound({}) && View() == Cloned(old(View()), b, d)
      ensures destructed == old(destructed) + multiset(Destructions(old(HandlesIn(View(), b)),
        old(LeftBehind(View().kinds[View().chunks[b.chunk].arch].types, View().kinds[View().chunks[d].arch].types))))
    {
      hide ShapeOf, Agree, RoomsFiled, Counted, NoneEmpty, Places, BlocksOk, RowsAgree, ConvertRows, Moved, KindOk,
           IsBuffer, RowHandles, Owned, Table.Valid;
      ghost var w := View();
      BatchHandles(w, NoRows, b);
      var hs := OwnersOf(buffers[b.chunk], b.start, b.count);
      var ks, kd := table.archetypes[tracker.InfoAt(b.chunk).arch], table.archetypes[tracker.InfoAt(d).arch];
      KindAt(table, tracker.InfoAt(b.chunk).arch);
      KindAt(table, tracker.InfoAt(d).arch);
      var dstCount, dstChunkIndex := tracker.AllocateIntoChunk(d, b.count);
      assert dstCount == b.count;
      ConvertBatch(b, ks, d, kd, dstChunkIndex, hs);
      SetEntitiesInChunk(hs, b, d, dstChunkIndex);
    }

    /** The first half of remove: the tail of the chunk is copied over the batch, then its handles follow. */
    method CopyFromTail(b: Batch, kind: Kind, count: nat)
      requires Sound({}) && RowsAgree(View(), b) && ChunkOk(View(), b.chunk)
      requires b.start + b.count <= View().chunks[b.chunk].count
      requires count == View().chunks[b.chunk].count && kind == View().kinds[View().chunks[b.chunk].arch]
      modifies this, entities
      ensures Sound({}) && View() == Filled(old(View()), b) && destructed == old(destructed)
    {
      hide ShapeOf, Agree, RoomsFiled, Counted, NoneEmpty, Places, BlocksOk, RowsAgree, ChunkOk, IsBuffer, Moved,
           OwnersOf, KindOk, CopyRows, Archetypes.ListOk, Table.Valid;
      ghost var w := View();
      var srcTailIndex := b.start + b.count;
      var srcTailCount := count - srcTailIndex;
      var fillCount := Least(b.count, srcTailCount);
      TailFacts(w, b);
      FilledAny(w, b);
      KindAt(table, tracker.Shape()[b.chunk].arch);
      if fillCount > 0 {
        var fillStartIndex := count - fillCount;
        ghost var tail := Batch(b.chunk, fillStartIndex, fillCount);
        var b1 := Copy(kind, buffers[b.chunk], fillStartIndex, b.start, fillCount);
        var fillEntities := OwnersOf(b1, b.start, fillCount);
        buffers := buffers[b.chunk := b1];
        SetEntitiesInChunk(fillEntities, tail, b.chunk, b.start);
      }
    }

    /** remove: the rows of the batch, nobody's by now, are filled from the tail of the chunk, which shrinks. */
    method Remove(b: Batch)
      requires Sound({}) && RowsAgree(View(), b) && ChunkOk(View(), b.chunk)
      requires b.count > 0 && b.start + b.count <= View().chunks[b.chunk].count
      modifies this, tracker, entities
      ensures Sound({}) && View() == Closed(old(View()), b) && destructed == old(destructed)
    {
      hide ShapeOf, Agree, RoomsFiled, Counted, NoneEmpty, Places, BlocksOk, RowsAgree, Table.Valid;
      var info := tracker.InfoAt(b.chunk);
      CopyFromTail(b, table.archetypes[info.arch], info.count);
      tracker.TakeFromChunk(b.chunk, b.count);
    }

    /** The entity table entries of the rows that will fill the batch. */
    method PatchMoved(hs: seq<Handle>, ghost tail: Batch, start: nat)
      requires entities.Valid() && RowHandles(Places(entities.dataBlocks), tail, hs)
      modifies entities
      ensures entities.Valid()
      ensures Places(entities.dataBlocks) == Moved(old(Places(entities.dataBlocks)), tail, tail.chunk, start)
    {
      hide Places, BlocksOk, Moved, RowHandles;
      ghost var places := Places(entities.dataBlocks);
      NoneMoved(places, tail, tail.chunk, start);
      for i := 0 to |hs|
        invariant entities.Valid()
        invariant Places(entities.dataBlocks) == Moved(places, Batch(tail.chunk, tail.start, i), tail.chunk, start)
      {
        StillThere(places, tail, hs, i, start);
        MovedStep(places, tail, hs, i, tail.chunk, start);
        var ok, entityInChunk := entities.GetEntityInChunk(hs[i]);
        ok := entities.SetEntityInChunk(hs[i], entityInChunk.(row := start + i));
      }
      AllMoved(places, tail, hs);
    }

    /** Frees the handles of a batch in the entity table. */
    method FreeHandles(hs: seq<Handle>)
      requires entities.Valid() && forall i :: 0 <= i < |hs| ==> hs[i] in Places(entities.dataBlocks)
      modifies entities
      ensures entities.Valid() && Places(entities.dataBlocks) == old(Places(entities.dataBlocks)) - HandleSet(hs)
    {
      ghost var blocks := entities.dataBlocks;
      var ok, processed := entities.DeallocateEntities(hs);
      assert processed == |hs|;
      assert EntityStore.Prefix(hs, processed) == HandleSet(hs) by { assert hs[..|hs|] == hs; }
      EntityStore.FreePlaces(blocks, entities.dataBlocks, HandleSet(hs));
    }

    /** The tail of the chunk fills a batch whose rows are nobody's: table first, then the columns. */
    method FillFromTail(b: Batch, kind: Kind, count: nat)
      requires Sound({}) && RowsAgree(View(), b) && ChunkOk(View(), b.chunk)
      requires b.start + b.count <= View().chunks[b.chunk].count
      requires count == View().chunks[b.chunk].count && kind == View().kinds[View().chunks[b.chunk].arch]
      modifies this, entities
      ensures Sound({}) && View() == Filled(old(View()), b) && destructed == old(destructed)
    {
      hide ShapeOf, Agree, RoomsFiled, Counted, NoneEmpty, Places, BlocksOk, RowsAgree, ChunkOk, IsBuffer, Moved,
           OwnersOf, KindOk, CopyRows, Archetypes.ListOk, Table.Valid;
      ghost var w := View();
      TailFacts(w, b);
      FilledAny(w, b);
      KindAt(table, tracker.Shape()[b.chunk].arch);
      var patchCount := Least(b.count, count - b.start - b.count);
      if 0 == patchCount {
        return;
      }
      var startIndex := count - patchCount;
      ghost var tail := Batch(b.chunk, startIndex, patchCount);
      PatchMoved(OwnersOf(buffers[b.chunk], startIndex, patchCount), tail, b.start);
      var b1 := Copy(kind, buffers[b.chunk], startIndex, b.start, patchCount);
      buffers := buffers[b.chunk := b1];
    }

    /** deallocateDataEntitiesInChunk: destructors run, the handles are freed, and the tail fills the gap. */
    method DeallocateDataEntitiesInChunk(b: Batch)
      requires Sound({}) && RowsAgree(View(), NoRows) && ChunkOk(View(), b.chunk)
      requires b.count > 0 && b.start + b.count <= View().chunks[b.chunk].count
      modifies this, entities
      ensures Sound({}) && ChunkOk(old(View()), b.chunk)
      ensures View() == Filled(old(View()).(places := old(View()).places - HandlesIn(old(View()), b)), b)
      ensures destructed == old(destructed) + multiset(Destructions(HandlesIn(old(View()), b),
        Disposed(old(View()).kinds[old(View()).chunks[b.chunk].arch].types)))
    {
      hide ShapeOf, Agree, RoomsFiled, Counted, NoneEmpty, Places, BlocksOk, RowsAgree, KindOk, Table.Valid, ChunkOk,
           IsBuffer, Owned, OwnersOf, Destructions, Disposed, Filled;
      ghost var w := View();
      ChunkParts(w, b.chunk);
      var info := tracker.InfoAt(b.chunk);
      var kind := table.archetypes[info.arch];
      KindAt(table, info.arch);
      BatchHandles(w, NoRows, b);
      var hs := OwnersOf(buffers[b.chunk], b.start, b.count);
      destructed := DestroyManaged(kind, buffers[b.chunk], b.start, b.count, destructed, hs);
      FreeHandles(hs);
      FreeStep(w, b);
      assert View() == w.(places := w.places - HandlesIn(w, b));
      SameChunk(w, View(), b.chunk);
      FillFromTail(b, kind, info.count);
    }

    /** deallocate: the entities of the batch are gone. */
    method Deallocate(b: Batch)
      requires Valid() && ChunkOk(View(), b.chunk)
      requires b.count > 0 && b.start + b.count <= View().chunks[b.chunk].count
      modifies this, tracker, entities
      ensures Valid() && View().kinds == old(View()).kinds
      ensures Entities(View()) == old(Entities(View()) - HandlesIn(View(), b))
      ensures destructed == old(destructed) + multiset(old(Destructions(HandlesIn(View(), b),
        Disposed(View().kinds[View().chunks[b.chunk].arch].types))))
    {
      hide ShapeOf, Agree, RoomsFiled, Counted, NoneEmpty, Places, BlocksOk, RowsAgree, Table.Valid;
      ghost var w := View();
      ghost var w1 := w.(places := w.places - HandlesIn(w, b));
      DeallocateDataEntitiesInChunk(b);
      FreeStep(w, b);
      assert ChunkOk(w1, b.chunk);
      CloseHole(w1, b);
      tracker.TakeFromChunk(b.chunk, b.count);
      assert View() == Closed(w1, b);
    }

    /** A chunk of archetype k with those shared values and room: a tracked one, or a new one if all these are full. */
    method GetChunkWithEmptySlots(k: nat, shared: seq<nat>) returns (c: nat)
      requires Valid() && k < |table.archetypes| && |shared| == NumShared(table.archetypes[k].types)
      requires table.archetypes[k].capacity > 0
      modifies this, tracker
      ensures Sound({c}) && RowsAgree(View(), NoRows) && destructed == old(destructed)
      ensures Provided(old(View()), View(), c, k, shared)
    {
      hide ShapeOf, Agree, RoomsFiled, Counted, NoneEmpty, Places, BlocksOk, RowsAgree, Table.Valid, KindOk, Entities,
           ChunkOk, IsBuffer, Stored, Provided, AllFull;
      ghost var w := View();
      var found;
      found, c := tracker.GetExistingChunkWithEmptySlots(k, shared);
      if !found {
        forall d | d in w.chunks && w.chunks[d].arch == k && w.chunks[d].shared == shared
          ensures w.chunks[d].count == w.kinds[k].capacity
        {
          assert d in tracker.Shape() && tracker.Shape()[d] == w.chunks[d];
        }
        NoneHasRoom(w, k, shared);
        c := tracker.GetCleanChunk(k, shared);
        var kind := table.archetypes[k];
        buffers := buffers[c := Memory(memory, kind)];
        KindAt(table, k);
        MemoryColumns(memory, kind);
        NewProvided(w, c, k, shared, buffers[c]);
        return;
      }
      FoundProvided(w, c, k, shared);
    }

    /** move of as much of a batch as chunk d has room for, from the end of the batch. */
    method MoveSome(b: Batch, d: nat) returns (moved: nat)
      requires Sound({d}) && RowsAgree(View(), NoRows) && ChunkOk(View(), b.chunk) && ChunkOk(View(), d) && d != b.chunk
      requires b.count > 0 && b.start + b.count <= View().chunks[b.chunk].count
      requires View().chunks[d].count < View().kinds[View().chunks[d].arch].capacity
      modifies this, tracker, entities
      ensures Valid()
      ensures moved == Least(old(View().kinds[View().chunks[d].arch].capacity - View().chunks[d].count), b.count)
      ensures Fits(old(View()), Last(b, moved), d)
      ensures View() == Closed(Cloned(old(View()), Last(b, moved), d), Last(b, moved))
      ensures destructed == old(destructed) + multiset(Destructions(HandlesIn(old(View()), Last(b, moved)),
        LeftBehind(old(View()).kinds[old(View()).chunks[b.chunk].arch].types,
                   old(View()).kinds[old(View()).chunks[d].arch].types)))
    {
      hide ShapeOf, Agree, RoomsFiled, Counted, NoneEmpty, Places, BlocksOk, RowsAgree, Cloned, Closed, Entities,
           HandlesIn, IsBuffer, ChunkOk, Fits, Parallel, Table.Valid;
      ghost var w := View();
      SomeMoves(w, b, d);
      var dst := tracker.InfoAt(d);
      var dstUnusedCount := table.archetypes[dst.arch].capacity - dst.count;
      moved := Least(dstUnusedCount, b.count);
      var partialSrcBatch := Batch(b.chunk, b.start + b.count - moved, moved);
      Clone(partialSrcBatch, d);
      Remove(partialSrcBatch);
    }

    /** Moves a batch to another archetype, or to other shared values, chunk by chunk from the end of the batch.
        Every entity of the batch ends there, with the values of the common types, zero for the added ones, and one
        destructor call for each managed type left behind. Nobody else is touched. */
    method Move(b: Batch, k: nat, shared: seq<nat>)
      requires Valid() && k < |table.archetypes| && |shared| == NumShared(table.archetypes[k].types)
      requires table.archetypes[k].capacity > 0
      requires ChunkOk(View(), b.chunk) && b.start + b.count <= View().chunks[b.chunk].count
      requires View().chunks[b.chunk].arch != k || View().chunks[b.chunk].shared != shared
      modifies this, tracker, entities
      ensures Valid() && View().kinds == old(View()).kinds
      ensures Entities(View()) ==
        old(MovedEntities(Entities(View()), HandlesIn(View(), b), View().kinds[k].types, shared))
      ensures MovedInto(old(Entities(View())), Entities(View()), old(HandlesIn(View(), b)), View().kinds[k].types,
                        shared)
      ensures destructed == old(destructed) + multiset(Destructions(old(HandlesIn(View(), b)),
        old(LeftBehind(View().kinds[View().chunks[b.chunk].arch].types, View().kinds[k].types))))
      ensures forall o, t ::
        destructed[Destruction(o, t)] == old(destructed)[Destruction(o, t)] +
        if && o in old(HandlesIn(View(), b)) && t in Disposed(old(View()).kinds[old(View()).chunks[b.chunk].arch].types)
           && t !in View().kinds[k].types then 1 else 0
    {
      hide ShapeOf, Agree, RoomsFiled, Counted, NoneEmpty, Places, BlocksOk, RowsAgree, Cloned, Closed, Entities,
           HandlesIn, IsBuffer, MovedEntities, MovedInto, Destructions, Disposed, LeftBehind, Table.Valid;
      ghost var w, calls := View(), destructed;
      var count := b.count;
      MovingStarts(w, b, k, shared);
      while count > 0
        invariant 0 <= count <= b.count && Valid() && Moving(w, View(), b, count, k, shared)
        invariant destructed == calls + MovedDestructions(w, View(), b, count, k)
      {
        ghost var w0 := View();
        var rest := Batch(b.chunk, b.start, count);
        var dstChunk := GetChunkWithEmptySlots(k, shared);
        ghost var w1 := View();
        ProvidedOk(w1, b.chunk);
        var moved := MoveSome(rest, dstChunk);
        MovingStep(w, w0, w1, dstChunk, b, count, moved, k, shared);
        count := count - moved;
      }
      MovingEnds(w, View(), b, k, shared);
      AllMovedInto(Entities(w), HandlesIn(w, b), w.kinds[k].types, shared);
      LeftOnce(HandlesIn(w, b), w.kinds[w.chunks[b.chunk].arch].types, w.kinds[k].types, calls);
    }

    /** The number of handles that can still be handed out. */
    ghost function FreeSlots(): nat
      requires entities.Valid()
      reads entities
    {
      EntityStore.FreeFrom(entities.entityCount, 0)
    }

    /** A handle was handed out at some time. */
    predicate WasIssued(h: Handle)
      requires entities.Valid()
      reads entities
    {
      Issued(entities.dataBlocks, h)
    }

    /** New handles for rows of a chunk, and the table entries that go with them. */
    method AllocateHandles(c: nat, first: nat, n: nat) returns (ok: bool, hs: seq<Handle>)
      requires entities.Valid() && n > 0
      modifies entities
      ensures entities.Valid() && (ok <==> n <= old(FreeSlots())) && |hs| == if ok then n else old(FreeSlots())
      ensures FreeSlots() == old(FreeSlots()) - |hs|
      ensures Handed(old(Places(entities.dataBlocks)), hs, c, first, Places(entities.dataBlocks))
      ensures Distinct(hs) && forall h :: h in hs ==> !old(WasIssued(h))
      ensures forall h :: WasIssued(h) <==> old(WasIssued(h)) || h in hs
    {
      ghost var blocks := entities.dataBlocks;
      ok, hs := entities.AllocateEntities(n, c, first);
      EntityStore.AllocatePlaces(blocks, entities.dataBlocks, hs, c, first);
      assert forall h :: h in Places(blocks) ==> Issued(blocks, h);
    }

    /** allocate: n new entities at the end of chunk c. Fails when the entity table is full: then it has handed out
        every handle there was, the rows of those handles agree with the table though their components are not
        initialized, the other rows claimed are nobody's, and the entities there were are as they were. */
    method Allocate(c: nat, n: nat) returns (ok: bool, hs: seq<Handle>)
      requires Sound({c}) && RowsAgree(View(), NoRows) && ChunkOk(View(), c)
      requires 0 < n <= View().kinds[View().chunks[c].arch].capacity - View().chunks[c].count
      modifies this, tracker, entities
      ensures Sound({}) && (ok <==> n <= old(FreeSlots())) && destructed == old(destructed)
      ensures |hs| == (if ok then n else old(FreeSlots())) && FreeSlots() == old(FreeSlots()) - |hs|
      ensures Handed(old(View().places), hs, c, old(View().chunks[c].count), View().places)
      ensures ok ==> View() == Allocated(old(View()), c, hs, View().places)
      ensures View().kinds == old(View()).kinds
      ensures !ok ==> View().chunks == WithCount(old(View()).chunks, c, old(View().chunks[c].count) + n)
      ensures !ok ==> |hs| < n && RowsAgree(View(), Batch(c, old(View().chunks[c].count) + |hs|, n - |hs|))
      ensures !ok ==> OnlyMore(old(View()), View(), hs)
      ensures Distinct(hs) && forall h :: h in hs ==> !old(WasIssued(h))
      ensures forall h :: WasIssued(h) <==> old(WasIssued(h)) || h in hs
    {
      hide ShapeOf, Agree, RoomsFiled, Counted, NoneEmpty, Places, BlocksOk, RowsAgree, Issued, Handed, Distinct,
           KindOk, InitialRows, Entities, OnlyMore, Table.Valid;
      ghost var w := View();
      assert KindOk(w.kinds[w.chunks[c].arch]) && IsBuffer(w.buffers[c], w.kinds[w.chunks[c].arch]) by {
        KindAt(table, w.chunks[c].arch);
      }
      var kind := table.archetypes[tracker.InfoAt(c).arch];
      var allocatedCount, allocatedIndex := tracker.AllocateIntoChunk(c, n);
      ok, hs := AllocateHandles(c, allocatedIndex, allocatedCount);
      var b: Buffer := buffers[c][EntityType := InitialColumn(buffers[c][EntityType], EntityType, allocatedIndex, hs)];
      if !ok {
        buffers := buffers[c := b];
        PartAllocated(w, View(), c, n, hs);
        return;
      }
      var b1 := InitializeComponents(kind, b, allocatedIndex, hs, allocatedCount);
      InitializedRows(w.buffers[c], allocatedIndex, hs);
      buffers := buffers[c := b1];
    }

    /** createEntities: n new entities of archetype k, in as many chunks as it takes. Fails when not even one fits a
        chunk, or when the entity table cannot hold them; then every handle there was has been handed out, and rows
        and table agree but for the hole, the rows claimed for handles there were not. The entities there were are as
        they were even then. */
    method CreateEntities(k: nat, n: nat, shared: seq<nat>) returns (ok: bool, hs: seq<Handle>, ghost hole: Batch)
      requires Valid() && k < |table.archetypes| && |shared| == NumShared(table.archetypes[k].types)
      modifies this, tracker, entities
      ensures ok <==> n == 0 || (n <= old(FreeSlots()) && table.archetypes[k].capacity > 0)
      ensures Sound({}) && RowsAgree(View(), hole) && (ok ==> hole == NoRows && Valid())
      ensures |hs| == (if ok then n else if table.archetypes[k].capacity == 0 then 0 else old(FreeSlots()))
      ensures View().kinds == old(View()).kinds && destructed == old(destructed)
      ensures OnlyMore(old(View()), View(), hs)
      ensures ok ==> forall h :: h in hs ==> IsNew(Entities(View())[h], h, View().kinds[k].types, shared)
      ensures Distinct(hs) && forall h :: h in hs ==> !old(WasIssued(h))
    {
      hide ShapeOf, Agree, RoomsFiled, Counted, NoneEmpty, Places, BlocksOk, RowsAgree, Issued, Entities, IsBuffer,
           Allocated, NewEntity, IsNew, FreeSlots, Table.Valid;
      ghost var es0, kinds, free, calls := Entities(View()), View().kinds, FreeSlots(), destructed;
      label Start:
      hs, hole := [], NoRows;
      ok := n == 0 || table.archetypes[k].capacity > 0;
      if !ok {
        return;
      }
      while |hs| < n
        invariant |hs| <= n && Valid() && View().kinds == kinds && destructed == calls
        invariant FreeSlots() == free - |hs|
        invariant Creating(es0, Entities(View()), hs, kinds[k].types, shared)
        invariant Distinct(hs) && forall h :: h in hs ==> !old(WasIssued(h))
        invariant forall h :: WasIssued(h) <==> old(WasIssued(h)) || h in hs
      {
        var chunk := GetChunkWithEmptySlots(k, shared);
        var info := tracker.InfoAt(chunk);
        var unusedCount := table.archetypes[k].capacity - info.count;
        var allocateCount := Least(n - |hs|, unusedCount);
        ghost var w := View();
        var more;
        ok, more := Allocate(chunk, allocateCount);
        if !ok {
          MoreAfterCreating(old(View()), w, View(), hs, more, kinds[k].types, shared);
          DistinctMore(hs, more);
          hole := Batch(chunk, info.count + |more|, allocateCount - |more|);
          hs := hs + more;
          return;
        }
        AllocateAgrees(w, chunk, more, View().places);
        AllocateCreates(w, chunk, more, View().places);
        EntityKeys(w);
        EntityKeys(View());
        CreatedMore(es0, Entities(w), hs, more, Entities(View()), kinds[k].types, shared);
        DistinctMore(hs, more);
        hs := hs + more;
      }
      forall h | h in hs ensures IsNew(NewEntity(kinds[k].types, h, shared), h, kinds[k].types, shared) {
        NewIsNew(kinds[k].types, h, shared);
      }
      ok := true;
    }

    /** exists: the handle is not null, its version is current and its slot has a chunk. */
    predicate Exists(h: Handle)
      requires entities.Valid()
      reads entities
    {
      h.index >= 0 && entities.Exists(h)
    }

    /** A handle nobody was given: its slot is free, was used before, and this even version is its version now. */
    predicate Forged(h: Handle)
      requires entities.Valid()
      reads entities
    {
      && 0 <= h.index < Capacity && h.version % 2 == 0
      && h.version == Version(entities.dataBlocks, h.index) && PlaceOf(entities.dataBlocks, h.index) != Nowhere
    }

    /** What exists accepts: the live handles and, since it does not look at parity, the forged ones. */
    lemma ExistsExactly(h: Handle)
      requires Valid()
      ensures entities.Valid() && BlocksOk(entities.dataBlocks)
      ensures Exists(h) <==> h in Entities(View()) || Forged(h)
      ensures h in Entities(View()) ==> !Forged(h)
    {
      hide RoomsFiled, Agree, Counted, NoneEmpty, Table.Valid, Parallel, BlockOk;
      if h in View().places { assert Seated(View(), h); }
    }

    /** The row of an entity that exists, else no row; fails for a forged handle, whose slot is not allocated. */
    method Lookup(h: Handle) returns (ok: bool, p: Place)
      requires Valid()
      ensures ok <==> !Forged(h)
      ensures ok ==> p == if h in Entities(View()) then View().places[h] else Nowhere
    {
      hide ShapeOf, RoomsFiled, Agree, Counted, NoneEmpty, Table.Valid, Parallel, BlockOk, RowsAgree, Issued;
      ok, p := true, Nowhere;
      ExistsExactly(h);
      EntityKeys(View());
      if Exists(h) {
        ok, p := entities.GetEntityInChunk(h);
      }
    }

    /** getFirstEntityBatchInChunk: the longest run of listed entities, from position i on, that lie in consecutive
        rows of one chunk; none if the entity at i does not exist. */
    method GetFirstEntityBatchInChunk(hs: seq<Handle>, i: nat) returns (found: bool, b: Batch)
      requires Valid() && i < |hs| && forall k :: 0 <= k < |hs| ==> !Forged(hs[k])
      ensures found <==> hs[i] in Entities(View())
      ensures found ==> BatchOf(View(), hs, i, b) && LongestRun(View(), hs, i, b)
    {
      hide ShapeOf, Agree, RoomsFiled, Counted, NoneEmpty, Places, BlocksOk, RowsAgree, Entities, Run, BatchOf,
           LongestRun, Table.Valid, Parallel;
      ghost var w := View();
      EntityKeys(w);
      AllPlaced(w, hs[i]);
      var ok, p := Lookup(hs[i]);
      found := p.At?;
      b := NoRows;
      if found {
        b := Batch(p.chunk, p.row, 1);
        RunStarts(w, hs, i, b);
        b := ExtendRun(hs, i, b);
        RunIsBatch(w, hs, i, b);
      }
    }

    lemma NoneForged(hs: seq<Handle>)
      requires entities.Valid() && forall k :: 0 <= k < |hs| ==> ProperHandle(hs[k])
      ensures forall k :: 0 <= k < |hs| ==> !Forged(hs[k])
    {
    }

    /** The loop over the following handles, as long as each lies in the next row. */
    method ExtendRun(hs: seq<Handle>, i: nat, first: Batch) returns (b: Batch)
      requires Valid() && i < |hs| && forall k :: 0 <= k < |hs| ==> !Forged(hs[k])
      requires first.count == 1 && Run(View(), hs, i, first)
      ensures b.count > 0 && LongestRun(View(), hs, i, b)
    {
      hide ShapeOf, Agree, RoomsFiled, Counted, NoneEmpty, Places, BlocksOk, RowsAgree, Entities, Run, Table.Valid,
           Parallel;
      ghost var w := View();
      EntityKeys(w);
      b := first;
      while b.count < |hs| - i
        invariant 1 <= b.count <= |hs| - i && Run(w, hs, i, b)
        decreases |hs| - i - b.count
      {
        RunStep(w, hs, i, b);
        var ok, q := Lookup(hs[i + b.count]);
        if q != At(b.chunk, b.start + b.count) {
          break;
        }
        b := b.(count := b.count + 1);
      }
    }

    /** destroyEntities, for any list: any order, repeated, stale or null handles. The listed entities are gone, each
        with one destructor call for each managed component, and all others are as they were. */
    method DestroyEntities(hs: seq<Handle>)
      requires Valid() && forall k :: 0 <= k < |hs| ==> ProperHandle(hs[k])
      modifies this, tracker, entities
      ensures Valid() && View().kinds == old(View()).kinds
      ensures Entities(View()) == old(Entities(View())) - HandleSet(hs)
      ensures destructed == old(destructed) + multiset(DestructionsOf(old(Entities(View())), HandleSet(hs)))
      ensures forall o, t ::
        destructed[Destruction(o, t)] == old(destructed)[Destruction(o, t)] +
        if o in hs && o in old(Entities(View())) && t in Disposed(old(Entities(View()))[o].types) then 1 else 0
    {
      hide ShapeOf, Agree, RoomsFiled, Counted, NoneEmpty, Places, BlocksOk, RowsAgree, Entities, HandleSet,
           ProperHandle, DestructionsOf, Table.Valid, Parallel;
      ghost var es0, kinds, calls := Entities(View()), View().kinds, destructed;
      NothingDestroyed(es0);
      var i := 0;
      while i < |hs|
        invariant 0 <= i <= |hs| && Valid() && View().kinds == kinds
        invariant Entities(View()) == es0 - HandleSet(hs[..i])
        invariant destructed == calls + multiset(DestructionsOf(es0, HandleSet(hs[..i])))
      {
        i := DestroyNext(hs, i, es0, calls);
      }
      assert hs[..|hs|] == hs;
      DestroyedOnce(es0, hs, calls);
    }

    /** One turn of that loop. The batch found may have been moved by the turns before. */
    method DestroyNext(hs: seq<Handle>, i: nat, ghost es0: map<Handle, Entity>, ghost calls: multiset<Destruction>)
      returns (next: nat)
      requires Valid() && i < |hs| && forall k :: 0 <= k < |hs| ==> ProperHandle(hs[k])
      requires Entities(View()) == es0 - HandleSet(hs[..i])
      requires destructed == calls + multiset(DestructionsOf(es0, HandleSet(hs[..i])))
      modifies this, tracker, entities
      ensures i < next <= |hs| && Valid() && View().kinds == old(View()).kinds
      ensures Entities(View()) == es0 - HandleSet(hs[..next])
      ensures destructed == calls + multiset(DestructionsOf(es0, HandleSet(hs[..next])))
    {
      hide ShapeOf, Agree, RoomsFiled, Counted, NoneEmpty, Places, BlocksOk, RowsAgree, Entities, HandlesIn, HandleSet,
           IsBuffer, DestructionsOf, Destructions, Table.Valid, Parallel, LongestRun, ProperHandle;
      ghost var w := View();
      NoneForged(hs);
      var found, batch := GetFirstEntityBatchInChunk(hs, i);
      if !found {
        NoneDestroyed(es0, hs, i);
        next := i + 1;
      } else {
        BatchDestroyed(es0, w, hs, i, batch);
        Deallocate(batch);
        next := i + batch.count;
      }
    }

    /** The archetype with exactly these types, created without chunks if there is none. */
    method GetOrCreateArchetype(types: seq<nat>) returns (ok: bool, k: nat)
      requires Valid() && (Legal(types) ==> Sorted(types))
      modifies table, table.lookup, tracker
      ensures Valid() && buffers == old(buffers) && destructed == old(destructed)
      ensures old(View()).kinds <= View().kinds && View() == old(View()).(kinds := View().kinds)
      ensures Entities(View()) == old(Entities(View()))
      ensures ok <==> types in old(KeysOf(table.archetypes)).Values || Legal(types)
      ensures ok ==> k < |View().kinds| && forall j :: 0 <= j < |View().kinds| ==>
        (View().kinds[j].types == types <==> j == k)
      ensures ok ==> View().kinds[k].capacity == table.capacityOf(types)
      ensures !ok ==> View() == old(View())
    {
      hide ShapeOf, Agree, RoomsFiled, Counted, NoneEmpty, Places, BlocksOk, RowsAgree, Entities, KindOk, Table.Valid;
      ghost var w := View();
      var n := |table.archetypes|;
      ok, k := table.GetOrCreateArchetype(types);
      KindsGrow(w, table.archetypes);
      if |table.archetypes| > n {
        var numShared := CountShared(types);
        tracker.AddArchetype(numShared, table.archetypes[k].capacity);
      }
    }

    /** The slot of a handle is allocated, if perhaps to a later entity. */
    predicate HasSlot(h: Handle)
      requires entities.Valid()
      reads entities
    {
      0 <= h.index < Capacity && Version(entities.dataBlocks, h.index) % 2 == 1
    }

    /** Who occupies the slot of a handle: the handle itself if it is live. */
    function Occupant(h: Handle): Handle
      requires entities.Valid() && HasSlot(h)
      reads entities
    {
      Handle(h.index, Version(entities.dataBlocks, h.index))
    }

    /** The occupant of a slot is live; it is the handle itself exactly if that is. */
    lemma OccupantIsLive(h: Handle)
      requires Valid()
      ensures entities.Valid() && BlocksOk(entities.dataBlocks)
      ensures HasSlot(h) ==> Occupant(h) in Entities(View()) && (Occupant(h) == h <==> h in Entities(View()))
      ensures !HasSlot(h) ==> h !in Entities(View())
    {
      EntityKeys(View());
    }

    /** getEntityInChunk goes by the slot: it finds the row of whoever occupies it now. */
    method RowOfSlot(h: Handle) returns (ok: bool, b: Batch, kind: Kind, shared: seq<nat>)
      requires Valid()
      ensures ok <==> HasSlot(h)
      ensures ok ==> Occupant(h) in Entities(View()) && HandlesIn(View(), b) == {Occupant(h)} && b.count == 1
      ensures ok ==> ChunkOk(View(), b.chunk) && b.start + 1 <= View().chunks[b.chunk].count
      ensures ok ==> Entities(View())[Occupant(h)] == EntityAt(View(), At(b.chunk, b.start))
      ensures ok ==> kind == View().kinds[View().chunks[b.chunk].arch] && KindOk(kind)
      ensures ok ==> Entities(View())[Occupant(h)].types == kind.types
      ensures ok ==> Entities(View())[Occupant(h)].shared == shared && |shared| == |kind.types| - kind.firstShared
    {
      hide RoomsFiled, Agree, Counted, NoneEmpty, Disposed, Legal, Boundaries;
      kind, shared := Kind([], 0, 0, 0, 0), [];
      var p;
      ok, p := entities.GetEntityInChunk(h);
      if ok {
        assert Occupant(h) in View().places && p == View().places[Occupant(h)];
        SingleRow(View(), Occupant(h));
        b := Batch(p.chunk, p.row, 1);
        kind := table.archetypes[tracker.InfoAt(b.chunk).arch];
        KindAt(table, tracker.InfoAt(b.chunk).arch);
        shared := tracker.InfoAt(b.chunk).shared;
        SharedWidth(tracker, {}, b.chunk);
        SharedCount(kind);
      } else {
        b := NoRows;
      }
    }

    /** The archetype with exactly these types, which have to be legal; a chunk has to have room for one entity. */
    method FindArchetype(types: seq<nat>) returns (ok: bool, k: nat, kind: Kind)
      requires Valid() && Sorted(types)
      modifies table, table.lookup, tracker
      ensures Valid() && buffers == old(buffers) && destructed == old(destructed)
      ensures old(View()).kinds <= View().kinds && View() == old(View()).(kinds := View().kinds)
      ensures Entities(View()) == old(Entities(View()))
      ensures ok <==> Legal(types) && table.capacityOf(types) > 0
      ensures ok ==> k < |table.archetypes| && kind == table.archetypes[k] && kind.types == types && kind.capacity > 0
      ensures ok ==> KindOk(kind) && NumShared(types) == |types| - kind.firstShared <= MaximumSharedCount
    {
      hide ShapeOf, Agree, RoomsFiled, Counted, NoneEmpty, Places, BlocksOk, RowsAgree, Entities, KindOk, Table.Valid;
      KnownLegal(table);
      kind := Kind([], 0, 0, 0, 0);
      ok, k := GetOrCreateArchetype(types);
      if !ok {
        return;
      }
      kind := table.archetypes[k];
      KindAt(table, k);
      SharedCount(kind);
      WithinLimits(kind);
      ok := kind.capacity > 0;
    }

    /** Moves one entity to another archetype, with these shared values. */
    method MoveEntity(b: Batch, ghost o: Handle, k: nat, ghost types: seq<nat>, shared: seq<nat>)
      requires Valid() && ChunkOk(View(), b.chunk) && b.count == 1 && b.start + 1 <= View().chunks[b.chunk].count
      requires o in Entities(View()) && HandlesIn(View(), b) == {o}
      requires Entities(View())[o] == EntityAt(View(), At(b.chunk, b.start))
      requires k < |table.archetypes| && table.archetypes[k].capacity > 0
      requires table.archetypes[k].types == types != Entities(View())[o].types && |shared| == NumShared(types)
      modifies this, tracker, entities
      ensures Valid() && View().kinds == old(View()).kinds
      ensures
        var es := old(Entities(View()));
        Entities(View()) == es[o := Into(es[o], types, shared)]
      ensures
        var left := LeftBehind(old(Entities(View()))[o].types, types);
        destructed == old(destructed) + multiset(Destructions({o}, left))
    {
      hide ShapeOf, Agree, RoomsFiled, Counted, NoneEmpty, Places, BlocksOk, RowsAgree, Entities, HandlesIn,
           MovedEntities, Destructions, IsBuffer, KindOk, Table.Valid;
      ghost var w := View();
      Move(b, k, shared);
      MovedOne(Entities(w), o, types, shared);
    }

    /** addComponent. Fails when the handle's slot is free, when the longer type list is not legal, or when no entity
        with these types fits a chunk; changes nothing when the component is there already. Else the entity that
        occupies the slot, which is the handle's own exactly if that is live, has the component too, keeps its other
        values, and nothing is destroyed. A component that is not shared is zero and the shared values are kept; for
        one that is shared they become what AddedWords says. */
    method AddComponent(h: Handle, t: nat, defaultOf: nat -> nat, beyond: nat, memory: seq<nat>)
      returns (ok: bool, changed: bool)
      requires Valid() && |memory| == MaximumSharedCount + 1
      modifies this, table, table.lookup, tracker, entities
      ensures Valid() && destructed == old(destructed)
      ensures !changed ==> View() == old(View()).(kinds := View().kinds) && Entities(View()) == old(Entities(View()))
      ensures !old(HasSlot(h)) ==> !ok && !changed
      ensures old(HasSlot(h)) ==> old(Occupant(h) in Entities(View()))
      ensures old(HasSlot(h)) ==> (changed <==> ok && t !in old(Entities(View())[Occupant(h)].types))
      ensures old(HasSlot(h)) ==> (ok <==> old(AddFits(table.capacityOf, Entities(View())[Occupant(h)].types, t)))
      ensures changed ==> (old(Occupant(h)) == h <==> h in old(Entities(View())))
      ensures changed && !IsShared(t) ==> Retyped(old(Entities(View())), Entities(View()), old(Occupant(h)),
        old(Elems(Entities(View())[Occupant(h)].types)) + {t})
      ensures changed && IsShared(t) ==>
        SharedGained(old(Entities(View())), Entities(View()), old(Occupant(h)), t, defaultOf(t), memory)
    {
      hide *;
      var b, kind, shared;
      OccupantIsLive(h);
      ok, b, kind, shared := RowOfSlot(h);
      changed := false;
      if !ok {
        return;
      }
      ghost var o, es, w := Occupant(h), Entities(View()), View();
      KindFacts(kind);
      var added, index := WithAddedComponent(kind.types, t);
      if added.None? {
        AddNothing(table.capacityOf, kind.types, t);
        return;
      }
      AddOutcome(table.capacityOf, kind, t, added.value);
      var k, dst;
      ok, k, dst := FindArchetype(added.value);
      if !ok {
        return;
      }
      BatchStays(w, View(), b);
      AddedPlace(kind, t, added.value, index, dst.firstShared);
      EnterAdded(b, o, kind, shared, k, dst, t, index, defaultOf(t), beyond, memory);
      changed := true;
    }

    /** The end of addComponent, in the archetype that has the type. */
    method EnterAdded(b: Batch, ghost o: Handle, ghost kind: Kind, shared: seq<nat>, k: nat, dst: Kind, ghost t: nat,
                      index: nat, value: nat, beyond: nat, memory: seq<nat>)
      requires Valid() && ChunkOk(View(), b.chunk) && b.count == 1 && b.start + 1 <= View().chunks[b.chunk].count
      requires o in Entities(View()) && HandlesIn(View(), b) == {o}
      requires Entities(View())[o] == EntityAt(View(), At(b.chunk, b.start))
      requires Entities(View())[o].types == kind.types && Entities(View())[o].shared == shared
      requires |shared| == |kind.types| - kind.firstShared <= MaximumSharedCount < |memory| == MaximumSharedCount + 1
      requires k < |table.archetypes| && table.archetypes[k] == dst && dst.capacity > 0 && dst.types != kind.types
      requires index <= |kind.types| && dst.types == kind.types[..index] + [t] + kind.types[index..]
      requires Sorted(dst.types) && Elems(dst.types) == Elems(kind.types) + {t} && Elems(kind.types) <= Elems(dst.types)
      requires NumShared(dst.types) == |dst.types| - dst.firstShared <= MaximumSharedCount
      requires |dst.types| - dst.firstShared == |shared| + if IsShared(t) then 1 else 0
      requires IsShared(t) ==> dst.firstShared == kind.firstShared <= index
      modifies this, tracker, entities
      ensures Valid() && View().kinds == old(View()).kinds && destructed == old(destructed)
      ensures !IsShared(t) ==>
        Retyped(old(Entities(View())), Entities(View()), o, Elems(kind.types) + {t})
      ensures IsShared(t) ==> SharedGained(old(Entities(View())), Entities(View()), o, t, value, memory)
    {
      hide *;
      OccupantIsLive(o);
      ghost var es := Entities(View());
      var newCount := |dst.types| - dst.firstShared;
      var out := BuildWithAddedComponent(shared, beyond, newCount, index - dst.firstShared, value, memory);
      MoveEntity(b, o, k, dst.types, out);
      GainsOnly(kind.types, dst.types, {o});
      GainsOne(es, o, kind, t, dst.types, index, value, memory, out);
    }

    /** removeComponent: the inverse of addComponent, with one destructor call if the component is disposed of. Fails
        when the handle's slot is free, for Entity itself, or when no entity with the other types fits a chunk. For a
        shared component the other shared values become what RemovedWords says. */
    method RemoveComponent(h: Handle, t: nat, memory: seq<nat>) returns (ok: bool, changed: bool)
      requires Valid() && |memory| == MaximumSharedCount + 1
      modifies this, table, table.lookup, tracker, entities
      ensures Valid()
      ensures !changed ==> View() == old(View()).(kinds := View().kinds) && Entities(View()) == old(Entities(View()))
      ensures !changed ==> destructed == old(destructed)
      ensures !old(HasSlot(h)) ==> !ok && !changed
      ensures old(HasSlot(h)) ==> old(Occupant(h) in Entities(View()))
      ensures old(HasSlot(h)) ==> (changed <==> ok && t in old(Entities(View())[Occupant(h)].types))
      ensures old(HasSlot(h)) ==> (ok <==> old(RemoveFits(table.capacityOf, Entities(View())[Occupant(h)].types, t)))
      ensures changed ==> (old(Occupant(h)) == h <==> h in old(Entities(View())))
      ensures changed && !IsShared(t) ==> Retyped(old(Entities(View())), Entities(View()), old(Occupant(h)),
        old(Elems(Entities(View())[Occupant(h)].types)) - {t})
      ensures changed && IsShared(t) ==>
        SharedLost(old(Entities(View())), Entities(View()), old(Occupant(h)), t, memory)
      ensures changed ==>
        destructed == old(destructed) + Disposal(old(Entities(View())[Occupant(h)].types), old(Occupant(h)), t)
    {
      hide *;
      var b, kind, shared;
      OccupantIsLive(h);
      ok, b, kind, shared := RowOfSlot(h);
      changed := false;
      if !ok {
        return;
      }
      ghost var o, es, w := Occupant(h), Entities(View()), View();
      KindFacts(kind);
      var removed, index := WithRemovedComponent(kind.types, t);
      if removed.None? {
        RemoveNothing(table.capacityOf, kind.types, t);
        return;
      }
      RemoveOutcome(table.capacityOf, kind, t, removed.value);
      var k, dst;
      ok, k, dst := FindArchetype(removed.value);
      if !ok {
        return;
      }
      BatchStays(w, View(), b);
      RemovedPlace(kind, t, removed.value, index, dst.firstShared);
      var newCount := |dst.types| - dst.firstShared;
      var out := BuildWithRemovedComponent(shared, newCount, index - kind.firstShared, memory);
      MoveEntity(b, o, k, removed.value, out);
      changed := true;
      OneDestruction(kind.types, removed.value, o, t);
      LosesOne(es, o, kind, t, removed.value, index, memory, out);
    }

    /** removeComponents. It never removes anything: if a listed component is there, the new type list begins with the
        first listed type instead of Entity, and is refused. */
    method RemoveComponents(h: Handle, types: seq<nat>, beyond: nat -> nat) returns (ok: bool)
      requires Valid() && EntityType !in types
      modifies this, table, table.lookup, tracker, entities
      ensures Valid() && destructed == old(destructed)
      ensures View() == old(View()) && Entities(View()) == old(Entities(View()))
      ensures old(HasSlot(h)) ==> old(Occupant(h) in Entities(View()))
      ensures ok <==> old(HasSlot(h)) && forall t :: t in types ==> t !in old(Entities(View())[Occupant(h)].types)
    {
      hide *;
      var b, kind, shared;
      OccupantIsLive(h);
      ok, b, kind, shared := RowOfSlot(h);
      if !ok {
        return;
      }
      KindFacts(kind);
      var removed := WithRemovedComponents(kind.types, types, beyond);
      if removed.None? {
        return;
      }
      MisreadIllegal(kind.types, types, beyond);
      ok := RefuseArchetype(removed.value);
    }

    /** A list of types that is not legal. */
    method RefuseArchetype(types: seq<nat>) returns (ok: bool)
      requires Valid() && !Legal(types)
      modifies table, table.lookup, tracker
      ensures Valid() && !ok && buffers == old(buffers) && destructed == old(destructed)
      ensures View() == old(View()) && Entities(View()) == old(Entities(View()))
    {
      hide ShapeOf, Agree, RoomsFiled, Counted, NoneEmpty, Places, BlocksOk, RowsAgree, Entities, KindOk, Table.Valid;
      KnownLegal(table);
      var k;
      ok, k := GetOrCreateArchetype(types);
    }

    /** addComponents, several components at once, shared ones included. Fails when the handle's slot is free or the
        merged type list is not legal or too big for a chunk; changes nothing when no component is new. Else the entity
        that occupies the slot, the handle's own exactly if that is live, has all of them, its own values and shared
        values are kept, and new shared components have their default. */
    method AddComponents(h: Handle, types: seq<nat>, defaultOf: nat -> nat) returns (ok: bool, changed: bool)
      requires Valid() && Sorted(types) && forall i :: 0 <= i < |types| ==> types[i] >= EntityType
      modifies this, table, table.lookup, tracker, entities
      ensures Valid() && destructed == old(destructed)
      ensures !changed ==> View() == old(View()).(kinds := View().kinds) && Entities(View()) == old(Entities(View()))
      ensures !old(HasSlot(h)) ==> !ok && !changed
      ensures old(HasSlot(h)) ==> old(Occupant(h) in Entities(View()))
      ensures old(HasSlot(h)) ==> (changed <==>
          ok && !(Elems(types) <= old(Elems(Entities(View())[Occupant(h)].types))))
      ensures old(HasSlot(h)) ==>
        (ok <==> old(AllFit(table.capacityOf, Elems(Entities(View())[Occupant(h)].types), Elems(types))))
      ensures changed ==> (old(Occupant(h)) == h <==> h in old(Entities(View())))
      ensures changed ==> Gained(old(Entities(View())), Entities(View()), old(Occupant(h)), Elems(types), defaultOf)
    {
      hide *;
      var b, kind, shared;
      OccupantIsLive(h);
      ok, b, kind, shared := RowOfSlot(h);
      changed := false;
      if !ok {
        return;
      }
      ghost var o, es := Occupant(h), Entities(View());
      KindFacts(kind);
      var union := WithAddedComponents(kind.types, types);
      if union.None? {
        GainNothing(table.capacityOf, Elems(kind.types), Elems(types));
        return;
      }
      GainOutcome(table.capacityOf, kind, types, union.value);
      ok := MoveEntityWith(b, o, kind, union.value, types, defaultOf);
      changed := ok;
    }

    /** Moves one entity to the archetype with more types; new shared values are the defaults. */
    method MoveEntityWith(b: Batch, ghost o: Handle, kind: Kind, union: seq<nat>, ghost more: seq<nat>,
                          defaultOf: nat -> nat)
      returns (ok: bool)
      requires Valid() && ChunkOk(View(), b.chunk) && b.count == 1 && b.start + 1 <= View().chunks[b.chunk].count
      requires o in Entities(View()) && HandlesIn(View(), b) == {o}
      requires Entities(View())[o] == EntityAt(View(), At(b.chunk, b.start)) && Entities(View())[o].types == kind.types
      requires kind == View().kinds[View().chunks[b.chunk].arch] && KindOk(kind) && union != kind.types
      requires Sorted(union) && Elems(union) == Elems(kind.types) + Elems(more)
      modifies this, table, table.lookup, tracker, entities
      ensures Valid() && (ok <==> Legal(union) && table.capacityOf(union) > 0) && destructed == old(destructed)
      ensures !ok ==> View() == old(View()).(kinds := View().kinds) && Entities(View()) == old(Entities(View()))
      ensures ok ==> Gained(old(Entities(View())), Entities(View()), o, Elems(more), defaultOf)
    {
      hide ShapeOf, Agree, RoomsFiled, Counted, NoneEmpty, Places, BlocksOk, RowsAgree, Entities, HandlesIn,
           Destructions, IsBuffer, Archetypes.ListOk, KindOk, Sorted, Carried, MovedEntities, Legal, Gained, LeftBehind,
           Table.Valid;
      ghost var es := Entities(View());
      var info := tracker.InfoAt(b.chunk);
      KnownLegal(table);
      SharedWidth(tracker, {}, b.chunk);
      var k;
      ok, k := GetOrCreateArchetype(union);
      if !ok || table.archetypes[k].capacity == 0 {
        return false;
      }
      KindAt(table, k);
      var dst := table.archetypes[k];
      SharedCount(kind);
      SharedCount(dst);
      var shared := BuildWithAddedComponents(kind, info.shared, dst, defaultOf);
      SameHandles(old(View()), View(), b);
      Move(b, k, shared);
      MovedOne(es, o, dst.types, shared);
      GainsOnly(kind.types, dst.types, {o});
      GainedBy(es, o, kind, dst, more, shared, defaultOf);
    }

    /** countEntities: the number of live entities. */
    method CountEntities() returns (total: nat)
      requires Valid()
      ensures total == |Entities(View())|
    {
      total := 0;
      for i := 0 to |tracker.archetypes|
        invariant total == CountUpto(tracker.archetypes, i)
      {
        total := total + tracker.archetypes[i].entityCount;
      }
      CountsAddUp(View(), tracker.archetypes, tracker.headers);
    }
  }

  /** The capacity of the one archetype with these types is not 0. */
  ghost predicate RoomFor(capacityOf: seq<nat> -> nat, ts: set<nat>) {
    exists types {:trigger capacityOf(types)} :: Sorted(types) && Elems(types) == ts && capacityOf(types) > 0
  }

  lemma RoomForList(capacityOf: seq<nat> -> nat, types: seq<nat>)
    requires Sorted(types)
    ensures RoomFor(capacityOf, Elems(types)) <==> capacityOf(types) > 0
  {
    if RoomFor(capacityOf, Elems(types)) {
      var l :| Sorted(l) && Elems(l) == Elems(types) && capacityOf(l) > 0;
      SortedUnique(l, types);
    }
  }

  /** Adding these types is possible, or there is nothing to add. */
  ghost predicate AllFit(capacityOf: seq<nat> -> nat, types: set<nat>, more: set<nat>) {
    more <= types || (LegalUnion(types, more) && RoomFor(capacityOf, types + more))
  }

  predicate LegalUnion(types: set<nat>, more: set<nat>) {
    |types + more| <= MaximumComponentCount && |SharedTypes(types + more)| <= MaximumSharedCount
  }

  /** The shared value an entity has for a shared type. */
  ghost predicate SharedIs(e: Entity, t: nat, value: nat) {
    exists i: nat :: i < |e.shared| <= |e.types| && e.types[|e.types| - |e.shared| + i] == t && e.shared[i] == value
  }

  /** Entity o has the types `more` too; values and shared values it had are kept, new shared values are the default. */
  ghost predicate Gained(es: map<Handle, Entity>, es1: map<Handle, Entity>, o: Handle, more: set<nat>,
                         defaultOf: nat -> nat) {
    && o in es && o in es1 && es1 == es[o := es1[o]]
    && Sorted(es1[o].types) && Elems(es1[o].types) == Elems(es[o].types) + more
    && ValuesKept(es[o], es1[o])
    && (forall t, value :: SharedIs(es[o], t, value) ==> SharedIs(es1[o], t, value))
    && (forall t :: t in more && IsShared(t) && t !in es[o].types ==> SharedIs(es1[o], t, defaultOf(t)))
  }

  lemma KindFacts(kind: Kind)
    requires KindOk(kind)
    ensures Sorted(kind.types) && |kind.types| > 0 && kind.types[0] == EntityType && kind.firstShared <= |kind.types|
  {
  }

  lemma UnionLegal(kind: Kind, types: seq<nat>, union: seq<nat>)
    requires KindOk(kind) && Sorted(union) && Elems(union) == Elems(kind.types) + Elems(types)
    requires !(Elems(types) <= Elems(kind.types)) && forall i :: 0 <= i < |types| ==> types[i] >= EntityType
    ensures union != kind.types && (Legal(union) <==> LegalUnion(Elems(kind.types), Elems(types)))
  {
    UnionFirst(kind.types, types, union);
    SortedSize(union);
    NumSharedIsSize(union);
  }

  lemma GainNothing(capacityOf: seq<nat> -> nat, types: set<nat>, more: set<nat>)
    requires more <= types
    ensures AllFit(capacityOf, types, more)
  {
  }

  lemma GainOutcome(capacityOf: seq<nat> -> nat, kind: Kind, types: seq<nat>, union: seq<nat>)
    requires KindOk(kind) && Sorted(union) && Elems(union) == Elems(kind.types) + Elems(types)
    requires !(Elems(types) <= Elems(kind.types)) && forall i :: 0 <= i < |types| ==> types[i] >= EntityType
    ensures union != kind.types
    ensures Legal(union) && capacityOf(union) > 0 <==> AllFit(capacityOf, Elems(kind.types), Elems(types))
  {
    UnionLegal(kind, types, union);
    RoomForList(capacityOf, union);
  }

  lemma UnionFirst(types: seq<nat>, more: seq<nat>, union: seq<nat>)
    requires Sorted(types) && types != [] && types[0] == EntityType
    requires forall i :: 0 <= i < |more| ==> more[i] >= EntityType
    requires Sorted(union) && Elems(union) == Elems(types) + Elems(more)
    ensures union != [] && union[0] == EntityType
  {
    InElems(types);
    InElems(more);
    InElems(union);
    assert types[0] in types;
    forall y | y in union ensures y >= EntityType {
      assert y in types || y in more;
    }
    LeastFirst(union, EntityType);
  }

  lemma LeastFirst(s: seq<nat>, x: nat)
    requires Sorted(s) && x in s && forall y :: y in s ==> y >= x
    ensures s[0] == x
  {
    var i :| 0 <= i < |s| && s[i] == x;
    assert s[0] in s;
  }

  lemma SharedKept(e: Entity, e1: Entity, src: Kind, dst: Kind, defaultOf: nat -> nat, t: nat, value: nat)
    requires KindOk(src) && KindOk(dst) && Elems(src.types) <= Elems(dst.types)
    requires e.types == src.types && |e.shared| == SharedCountOf(src) && e1.types == dst.types
    requires |e1.shared| == SharedCountOf(dst)
    requires forall j: nat :: j < |e1.shared| ==> Carried(src, e.shared, dst, defaultOf, j, e1.shared[j])
    requires SharedIs(e, t, value)
    ensures SharedIs(e1, t, value)
  {
    var i: nat :| i < |e.shared| && e.types[|e.types| - |e.shared| + i] == t && e.shared[i] == value;
    SharedIn(src, dst, i);
    assert |src.types| - |e.shared| == src.firstShared && |dst.types| - |e1.shared| == dst.firstShared;
    var j: nat :| j < SharedCountOf(dst) && SharedType(dst, j) == SharedType(src, i);
    hide KindOk;
    assert Carried(src, e.shared, dst, defaultOf, j, e1.shared[j]);
    assert e1.types[|e1.types| - |e1.shared| + j] == t;
  }

  lemma SharedNew(e: Entity, e1: Entity, src: Kind, dst: Kind, defaultOf: nat -> nat, t: nat)
    requires KindOk(dst) && e.types == src.types && |e.shared| == SharedCountOf(src) && e1.types == dst.types
    requires |e1.shared| == SharedCountOf(dst) && src.firstShared <= |src.types|
    requires forall j: nat :: j < |e1.shared| ==> Carried(src, e.shared, dst, defaultOf, j, e1.shared[j])
    requires IsShared(t) && t !in e.types && t in e1.types
    ensures SharedIs(e1, t, defaultOf(t))
  {
    var x :| 0 <= x < |dst.types| && dst.types[x] == t;
    var j := x - dst.firstShared;
    assert SharedType(dst, j) == t;
    assert Carried(src, e.shared, dst, defaultOf, j, e1.shared[j]);
    forall i: nat | i < |e.shared| ensures SharedType(src, i) != t { assert SharedType(src, i) in e.types; }
    assert e1.types[|e1.types| - |e1.shared| + j] == t;
  }

  lemma GainedBy(es: map<Handle, Entity>, o: Handle, src: Kind, dst: Kind, more: seq<nat>, shared: seq<nat>,
                 defaultOf: nat -> nat)
    requires KindOk(src) && KindOk(dst) && Elems(dst.types) == Elems(src.types) + Elems(more) && o in es
    requires es[o].types == src.types && |es[o].shared| == SharedCountOf(src) && |shared| == SharedCountOf(dst)
    requires forall j: nat :: j < |shared| ==> Carried(src, es[o].shared, dst, defaultOf, j, shared[j])
    ensures Gained(es, es[o := Into(es[o], dst.types, shared)], o, Elems(more), defaultOf)
  {
    hide KindOk, Carried, Sorted, Elems, SharedIs, ValuesKept;
    var e, e1 := es[o], Into(es[o], dst.types, shared);
    KindFacts(src);
    KindFacts(dst);
    IntoKeeps(e, dst.types, shared);
    forall t, value | SharedIs(e, t, value) ensures SharedIs(e1, t, value) {
      SharedKept(e, e1, src, dst, defaultOf, t, value);
    }
    InElems(dst.types);
    forall t | t in Elems(more) && IsShared(t) && t !in e.types ensures SharedIs(e1, t, defaultOf(t)) {
      SharedNew(e, e1, src, dst, defaultOf, t);
    }
  }

  /** Adding an absent component and then removing it gives back the same entity, whatever happened to its rows. */
  lemma AddThenRemoveEntity(es: map<Handle, Entity>, es1: map<Handle, Entity>, es2: map<Handle, Entity>, o: Handle,
                            t: nat)
    requires o in es && Sorted(es[o].types) && t !in es[o].types && es[o].values.Keys == Stored(es[o].types)
    requires Retyped(es, es1, o, Elems(es[o].types) + {t}) && Retyped(es1, es2, o, Elems(es1[o].types) - {t})
    ensures es2 == es
  {
    hide Sorted, ValuesKept;
    InElems(es[o].types);
    AddThenRemove(es[o].types, t, es1[o].types, es2[o].types);
    InElems(es1[o].types);
    ValuesBack(es[o], es1[o], es2[o]);
  }

  lemma ValuesBack(e: Entity, e1: Entity, e2: Entity)
    requires ValuesKept(e, e1) && ValuesKept(e1, e2) && e2.types == e.types && e.values.Keys == Stored(e.types)
    requires forall t :: t in e.types ==> t in e1.types
    ensures e2.values == e.values
  {
    forall t ensures t in e2.values <==> t in e.values { assert t in e.values <==> t in Stored(e.types); }
  }

  /** A component that can be added, or is there. */
  ghost predicate AddFits(capacityOf: seq<nat> -> nat, types: seq<nat>, t: nat) {
    t in types || (t > EntityType && LegalUnion(Elems(types), {t}) && RoomFor(capacityOf, Elems(types) + {t}))
  }

  /** A component that can be removed, or is not there. */
  ghost predicate RemoveFits(capacityOf: seq<nat> -> nat, types: seq<nat>, t: nat) {
    t !in types || (t != EntityType && RoomFor(capacityOf, Elems(types) - {t}))
  }

  /** Entity o has exactly the types ts now; common values and shared values are kept, new values are zero. */
  ghost predicate Retyped(es: map<Handle, Entity>, es1: map<Handle, Entity>, o: Handle, ts: set<nat>) {
    && o in es && o in es1 && es1 == es[o := es1[o]]
    && Sorted(es1[o].types) && Elems(es1[o].types) == ts
    && ValuesKept(es[o], es1[o]) && es1[o].shared == es[o].shared
  }

  lemma FirstAdded(types: seq<nat>, added: seq<nat>, t: nat)
    requires Sorted(types) && types != [] && types[0] == EntityType && t !in types
    requires Sorted(added) && Elems(added) == Elems(types) + {t}
    ensures t in Elems(added) && t !in Elems(types) && added != []
    ensures added[0] == EntityType <==> t > EntityType
  {
    InElems(types);
    InElems(added);
    assert types[0] in added && t in added && added[0] in Elems(types) + {t};
  }

  lemma FirstRemoved(types: seq<nat>, removed: seq<nat>, t: nat)
    requires Sorted(types) && types != [] && types[0] == EntityType && t in types
    requires Sorted(removed) && Elems(removed) == Elems(types) - {t}
    ensures t !in Elems(removed) && t in Elems(types)
    ensures removed != [] && removed[0] == EntityType <==> t != EntityType
  {
    InElems(types);
    InElems(removed);
    if t != EntityType {
      assert EntityType in removed;
    }
    if removed != [] {
      assert removed[0] in removed && removed[0] in Elems(types);
    }
  }

  lemma AddLegal(kind: Kind, t: nat, added: seq<nat>)
    requires KindOk(kind) && t !in kind.types && Sorted(added) && Elems(added) == Elems(kind.types) + {t}
    ensures NumShared(added) == NumShared(kind.types) + (if IsShared(t) then 1 else 0) && added != kind.types
    ensures Legal(added) <==> t > EntityType && LegalUnion(Elems(kind.types), {t})
  {
    SortedSize(added);
    NumSharedIsSize(added);
    NumSharedIsSize(kind.types);
    SharedMore(Elems(kind.types), t);
    FirstAdded(kind.types, added, t);
    hide Sorted, NumShared, Boundaries, SharedTypes;
  }

  lemma SharedMore(types: set<nat>, t: nat)
    ensures t !in types ==> |SharedTypes(types + {t})| == |SharedTypes(types)| + if IsShared(t) then 1 else 0
  {
    if t !in types {
      assert SharedTypes(types + {t}) == SharedTypes(types) + if IsShared(t) then {t} else {};
    }
  }

  lemma RemoveLegal(kind: Kind, t: nat, removed: seq<nat>)
    requires KindOk(kind) && t in kind.types && Sorted(removed) && Elems(removed) == Elems(kind.types) - {t}
    ensures NumShared(removed) == NumShared(kind.types) - (if IsShared(t) then 1 else 0) && removed != kind.types
    ensures Legal(removed) <==> t != EntityType
  {
    SortedSize(kind.types);
    SortedSize(removed);
    NumSharedIsSize(removed);
    NumSharedIsSize(kind.types);
    FirstRemoved(kind.types, removed, t);
    assert Elems(removed) + {t} == Elems(kind.types);
    SharedMore(Elems(removed), t);
    hide Sorted, NumShared, Boundaries, SharedTypes;
    assert |removed| == |kind.types| - 1;
  }

  lemma AddNothing(capacityOf: seq<nat> -> nat, types: seq<nat>, t: nat)
    requires t in types
    ensures AddFits(capacityOf, types, t)
  {
  }

  lemma AddOutcome(capacityOf: seq<nat> -> nat, kind: Kind, t: nat, added: seq<nat>)
    requires KindOk(kind) && t !in kind.types && Sorted(added) && Elems(added) == Elems(kind.types) + {t}
    ensures added != kind.types && Elems(kind.types) <= Elems(added)
    ensures Legal(added) && capacityOf(added) > 0 <==> AddFits(capacityOf, kind.types, t)
  {
    AddLegal(kind, t, added);
    RoomForList(capacityOf, added);
  }

  lemma RemoveNothing(capacityOf: seq<nat> -> nat, types: seq<nat>, t: nat)
    requires t !in types
    ensures RemoveFits(capacityOf, types, t)
  {
  }

  lemma RemoveOutcome(capacityOf: seq<nat> -> nat, kind: Kind, t: nat, removed: seq<nat>)
    requires KindOk(kind) && t in kind.types && Sorted(removed) && Elems(removed) == Elems(kind.types) - {t}
    ensures removed != kind.types
    ensures Legal(removed) && capacityOf(removed) > 0 <==> RemoveFits(capacityOf, kind.types, t)
  {
    RemoveLegal(kind, t, removed);
    RoomForList(capacityOf, removed);
  }

  lemma MisreadIllegal(src: seq<nat>, types: seq<nat>, beyond: nat -> nat)
    requires src != [] && src[0] == EntityType && EntityType !in types && types != []
    ensures !Legal(Misread(src, types, |src|, beyond))
  {
    MisreadFirst(src, types, |src|, beyond);
    assert types[0] in types;
  }

  lemma ChunkParts(w: Rows, c: nat)
    requires ChunkOk(w, c)
    ensures c in w.chunks && c in w.buffers && w.chunks[c].arch < |w.kinds|
  {
  }

  lemma SameChunk(w: Rows, w1: Rows, c: nat)
    requires ChunkOk(w, c) && w1 == w.(places := w1.places)
    ensures ChunkOk(w1, c)
  {
  }

  lemma WithinLimits(kind: Kind)
    requires KindOk(kind)
    ensures NumShared(kind.types) <= MaximumSharedCount && kind.firstShared <= |kind.types|
  {
  }

  /** A batch is where it was although there is one more archetype. */
  lemma BatchStays(w: Rows, w1: Rows, b: Batch)
    requires w1 == w.(kinds := w1.kinds) && w.kinds <= w1.kinds && ChunkOk(w, b.chunk)
    ensures ChunkOk(w1, b.chunk) && HandlesIn(w1, b) == HandlesIn(w, b) && w1.chunks == w.chunks
    ensures EntityAt(w1, At(b.chunk, b.start)) == EntityAt(w, At(b.chunk, b.start))
  {
  }

  /** Where the new type stands among the shared ones, if it is one. */
  lemma AddedPlace(kind: Kind, t: nat, added: seq<nat>, index: nat, firstShared: nat)
    requires KindOk(kind) && index <= |kind.types| && added == kind.types[..index] + [t] + kind.types[index..]
    requires Sorted(added) && t !in kind.types && Elems(added) == Elems(kind.types) + {t}
    requires NumShared(added) == |added| - firstShared
    ensures |added| - firstShared == |kind.types| - kind.firstShared + if IsShared(t) then 1 else 0
    ensures |kind.types| - kind.firstShared <= MaximumSharedCount
    ensures IsShared(t) ==> firstShared == kind.firstShared <= index
  {
    AddLegal(kind, t, added);
    SharedCount(kind);
    assert index < |kind.types| ==> added[index] == t && added[index + 1] == kind.types[index];
  }

  lemma RemovedPlace(kind: Kind, t: nat, removed: seq<nat>, index: nat, firstShared: nat)
    requires KindOk(kind) && index < |kind.types| && kind.types[index] == t
    requires Sorted(removed) && Elems(removed) == Elems(kind.types) - {t}
    requires NumShared(removed) == |removed| - firstShared && |removed| == |kind.types| - 1
    ensures |removed| - firstShared == |kind.types| - kind.firstShared - if IsShared(t) then 1 else 0
    ensures |kind.types| - kind.firstShared <= MaximumSharedCount
    ensures IsShared(t) ==> firstShared == kind.firstShared <= index
  {
    RemoveLegal(kind, t, removed);
    SharedCount(kind);
  }

  // What becomes of the shared values when one shared component is added or removed.

  /** e1 is e with the shared type t as its i-th, and what addComponent leaves as shared values. */
  ghost predicate SharedInsert(e: Entity, e1: Entity, i: nat, t: nat, value: nat, memory: seq<nat>) {
    && i <= |e.shared| <= |e.types| && |e.shared| < |memory|
    && (var x := |e.types| - |e.shared| + i; e1.types == e.types[..x] + [t] + e.types[x..])
    && ValuesKept(e, e1) && e1.shared == AddedWords(e.shared, i, value, memory)
  }

  ghost predicate SharedDelete(e: Entity, e1: Entity, i: nat, t: nat, memory: seq<nat>) {
    && i < |e.shared| <= |e.types| && |e.shared| <= |memory|
    && (var x := |e.types| - |e.shared| + i; e.types[x] == t && e1.types == e.types[..x] + e.types[x + 1..])
    && ValuesKept(e, e1) && e1.shared == RemovedWords(e.shared, i, memory)
  }

  ghost predicate SharedGained(es: map<Handle, Entity>, es1: map<Handle, Entity>, o: Handle, t: nat, value: nat,
                               memory: seq<nat>) {
    && o in es && o in es1 && es1 == es[o := es1[o]] && Sorted(es1[o].types)
    && exists i: nat :: SharedInsert(es[o], es1[o], i, t, value, memory)
  }

  ghost predicate SharedLost(es: map<Handle, Entity>, es1: map<Handle, Entity>, o: Handle, t: nat, memory: seq<nat>) {
    && o in es && o in es1 && es1 == es[o := es1[o]] && Sorted(es1[o].types)
    && exists i: nat :: SharedDelete(es[o], es1[o], i, t, memory)
  }

  lemma GainsShared(es: map<Handle, Entity>, o: Handle, kind: Kind, t: nat, added: seq<nat>, index: nat, value: nat,
                    memory: seq<nat>)
    requires o in es && es[o].types == kind.types && |es[o].shared| == |kind.types| - kind.firstShared < |memory|
    requires kind.firstShared <= index <= |kind.types| && Sorted(added)
    requires added == kind.types[..index] + [t] + kind.types[index..]
    ensures var out := AddedWords(es[o].shared, index - kind.firstShared, value, memory);
      SharedGained(es, es[o := Into(es[o], added, out)], o, t, value, memory)
  {
    var i := index - kind.firstShared;
    var e1 := Into(es[o], added, AddedWords(es[o].shared, i, value, memory));
    IntoKeeps(es[o], added, e1.shared);
    assert SharedInsert(es[o], e1, i, t, value, memory);
  }

  lemma LosesShared(es: map<Handle, Entity>, o: Handle, kind: Kind, t: nat, removed: seq<nat>, index: nat,
                    memory: seq<nat>)
    requires o in es && es[o].types == kind.types && |es[o].shared| == |kind.types| - kind.firstShared <= |memory|
    requires kind.firstShared <= index < |kind.types| && kind.types[index] == t && Sorted(removed)
    requires removed == kind.types[..index] + kind.types[index + 1..]
    ensures var out := RemovedWords(es[o].shared, index - kind.firstShared, memory);
      SharedLost(es, es[o := Into(es[o], removed, out)], o, t, memory)
  {
    var i := index - kind.firstShared;
    var e1 := Into(es[o], removed, RemovedWords(es[o].shared, i, memory));
    IntoKeeps(es[o], removed, e1.shared);
    assert SharedDelete(es[o], e1, i, t, memory);
  }

  lemma GainsOne(es: map<Handle, Entity>, o: Handle, kind: Kind, t: nat, added: seq<nat>, index: nat, value: nat,
                 memory: seq<nat>, out: seq<nat>)
    requires o in es && es[o].types == kind.types && |es[o].shared| == |kind.types| - kind.firstShared < |memory|
    requires index <= |kind.types| && Sorted(added) && added == kind.types[..index] + [t] + kind.types[index..]
    requires Elems(added) == Elems(kind.types) + {t} && (IsShared(t) ==> kind.firstShared <= index)
    requires out == if IsShared(t) then AddedWords(es[o].shared, index - kind.firstShared, value, memory)
      else es[o].shared
    ensures var es1 := es[o := Into(es[o], added, out)];
      && (!IsShared(t) ==> Retyped(es, es1, o, Elems(kind.types) + {t}))
      && (IsShared(t) ==> SharedGained(es, es1, o, t, value, memory))
  {
    hide SharedGained, Retyped, Into;
    if IsShared(t) {
      GainsShared(es, o, kind, t, added, index, value, memory);
    } else {
      Retypes(es, o, added);
    }
  }

  lemma LosesOne(es: map<Handle, Entity>, o: Handle, kind: Kind, t: nat, removed: seq<nat>, index: nat,
                 memory: seq<nat>, out: seq<nat>)
    requires o in es && es[o].types == kind.types && |es[o].shared| == |kind.types| - kind.firstShared <= |memory|
    requires index < |kind.types| && Sorted(removed) && removed == kind.types[..index] + kind.types[index + 1..]
    requires Elems(removed) == Elems(kind.types) - {t} && kind.types[index] == t
    requires IsShared(t) ==> kind.firstShared <= index
    requires out == if IsShared(t) then RemovedWords(es[o].shared, index - kind.firstShared, memory) else es[o].shared
    ensures var es1 := es[o := Into(es[o], removed, out)];
      && (!IsShared(t) ==> Retyped(es, es1, o, Elems(kind.types) - {t}))
      && (IsShared(t) ==> SharedLost(es, es1, o, t, memory))
  {
    hide SharedLost, Retyped, Into;
    if IsShared(t) {
      LosesShared(es, o, kind, t, removed, index, memory);
    } else {
      Retypes(es, o, removed);
    }
  }

  /** The entity keeps its shared values exactly if the new type is above all it has, or a word of stack memory holds
      by chance the value that is not written. */
  lemma AddedKept(e: Entity, e1: Entity, i: nat, t: nat, value: nat, memory: seq<nat>)
    requires SharedInsert(e, e1, i, t, value, memory) && Sorted(e1.types)
    ensures SharedIs(e1, t, value)
    ensures (forall u, v :: SharedIs(e, u, v) ==> SharedIs(e1, u, v)) <==>
      i == |e.shared| || memory[i + 1] == e.shared[i]
    ensures i == |e.shared| <==> forall u :: u in e.types ==> u < t
  {
    AddedShape(e, e1, i, t, value, memory);
    if i == |e.shared| || memory[i + 1] == e.shared[i] {
      forall u, v | SharedIs(e, u, v) ensures SharedIs(e1, u, v) {
        ValueStays(e, e1, i, t, value, memory, u, v);
      }
    } else {
      ValueMoved(e, e1, i, t, value, memory);
    }
  }

  lemma AddedShape(e: Entity, e1: Entity, i: nat, t: nat, value: nat, memory: seq<nat>)
    requires SharedInsert(e, e1, i, t, value, memory) && Sorted(e1.types)
    ensures SharedIs(e1, t, value)
    ensures i == |e.shared| <==> forall u :: u in e.types ==> u < t
  {
    var f := |e.types| - |e.shared|;
    assert |e1.types| - |e1.shared| == f && e1.types[f + i] == t && e1.shared[i] == value;
    if i < |e.shared| {
      assert e1.types[f + i + 1] == e.types[f + i] && e.types[f + i] in e.types;
    } else {
      assert forall j :: 0 <= j < |e.types| ==> e1.types[j] == e.types[j];
    }
  }

  lemma ValueStays(e: Entity, e1: Entity, i: nat, t: nat, value: nat, memory: seq<nat>, u: nat, v: nat)
    requires SharedInsert(e, e1, i, t, value, memory) && SharedIs(e, u, v)
    requires i == |e.shared| || memory[i + 1] == e.shared[i]
    ensures SharedIs(e1, u, v)
  {
    var f := |e.types| - |e.shared|;
    var j: nat :| j < |e.shared| && e.types[f + j] == u && e.shared[j] == v;
    var j1 := if j < i then j else j + 1;
    assert |e1.types| - |e1.shared| == f && e1.types[f + j1] == u && e1.shared[j1] == v;
  }

  /** The type above the new one has the unwritten word for its value. */
  lemma ValueMoved(e: Entity, e1: Entity, i: nat, t: nat, value: nat, memory: seq<nat>)
    requires SharedInsert(e, e1, i, t, value, memory) && Sorted(e1.types) && i < |e.shared|
    ensures var u := e.types[|e.types| - |e.shared| + i];
      u > t && SharedIs(e, u, e.shared[i]) && forall v :: SharedIs(e1, u, v) <==> v == memory[i + 1]
  {
    var f := |e.types| - |e.shared|;
    var u := e.types[f + i];
    assert e1.types[f + i] == t && e1.types[f + i + 1] == u && e1.shared[i + 1] == memory[i + 1];
    assert |e1.types| - |e1.shared| == f;
  }

  /** The same for a removal, where the last value is the one that is lost. */
  lemma RemovedKept(e: Entity, e1: Entity, i: nat, t: nat, memory: seq<nat>)
    requires SharedDelete(e, e1, i, t, memory) && Sorted(e.types) && Sorted(e1.types)
    ensures (forall u, v :: u != t && SharedIs(e, u, v) ==> SharedIs(e1, u, v)) <==>
      i == |e.shared| - 1 || memory[|e.shared| - 2] == e.shared[|e.shared| - 1]
    ensures i == |e.shared| - 1 <==> forall u :: u in e.types ==> u <= t
  {
    var n := |e.shared|;
    RemovedShape(e, e1, i, t, memory);
    if i == n - 1 || memory[n - 2] == e.shared[n - 1] {
      forall u, v | u != t && SharedIs(e, u, v) ensures SharedIs(e1, u, v) {
        OtherStays(e, e1, i, t, memory, u, v);
      }
    } else {
      LastLost(e, e1, i, t, memory);
    }
  }

  lemma RemovedShape(e: Entity, e1: Entity, i: nat, t: nat, memory: seq<nat>)
    requires SharedDelete(e, e1, i, t, memory) && Sorted(e.types)
    ensures i == |e.shared| - 1 <==> forall u :: u in e.types ==> u <= t
  {
    assert e.types[|e.types| - 1] in e.types;
  }

  lemma OtherStays(e: Entity, e1: Entity, i: nat, t: nat, memory: seq<nat>, u: nat, v: nat)
    requires SharedDelete(e, e1, i, t, memory) && Sorted(e.types) && u != t && SharedIs(e, u, v)
    requires i == |e.shared| - 1 || memory[|e.shared| - 2] == e.shared[|e.shared| - 1]
    ensures SharedIs(e1, u, v)
  {
    hide Sorted, SharedDelete;
    var f := |e.types| - |e.shared|;
    var j: nat :| j < |e.shared| && e.types[f + j] == u && e.shared[j] == v;
    DeletedAt(e, e1, i, t, memory, j);
  }

  /** Where a shared type other than the one removed has gone. */
  lemma DeletedAt(e: Entity, e1: Entity, i: nat, t: nat, memory: seq<nat>, j: nat)
    requires SharedDelete(e, e1, i, t, memory) && j < |e.shared| && e.types[|e.types| - |e.shared| + j] != t
    requires i == |e.shared| - 1 || memory[|e.shared| - 2] == e.shared[|e.shared| - 1]
    ensures j != i && |e1.types| - |e1.shared| == |e.types| - |e.shared|
    ensures var j1 := if j < i then j else j - 1;
      && j1 < |e1.shared| <= |e1.types|
      && e1.types[|e1.types| - |e1.shared| + j1] == e.types[|e.types| - |e.shared| + j] && e1.shared[j1] == e.shared[j]
  {
    hide ValuesKept;
  }

  lemma LastLost(e: Entity, e1: Entity, i: nat, t: nat, memory: seq<nat>)
    requires SharedDelete(e, e1, i, t, memory) && Sorted(e.types) && Sorted(e1.types) && i < |e.shared| - 1
    ensures var u := e.types[|e.types| - 1];
      u > t && SharedIs(e, u, e.shared[|e.shared| - 1])
      && forall v :: SharedIs(e1, u, v) <==> v == memory[|e.shared| - 2]
  {
    hide ValuesKept;
    var f, n := |e.types| - |e.shared|, |e.shared|;
    var u := e.types[|e.types| - 1];
    assert |e1.types| - |e1.shared| == f && e1.types[f + n - 2] == u && e1.shared[n - 2] == memory[n - 2];
    assert e.types[|e.types| - n + (n - 1)] == u;
  }

  /** A move that keeps the shared values. */
  lemma Retypes(es: map<Handle, Entity>, o: Handle, types: seq<nat>)
    requires o in es && Sorted(types)
    ensures Retyped(es, es[o := Into(es[o], types, es[o].shared)], o, Elems(types))
  {
    IntoKeeps(es[o], types, es[o].shared);
  }

  /** Where no type is left behind no destructor runs. */
  lemma GainsOnly(types: seq<nat>, added: seq<nat>, hs: set<Handle>)
    requires Elems(types) <= Elems(added)
    ensures multiset(Destructions(hs, LeftBehind(types, added))) == multiset{}
  {
    InElems(types);
    InElems(added);
    assert LeftBehind(types, added) == {};
    NoDestructions(hs);
  }

  lemma KindAt(table: Table, k: nat)
    requires table.Valid() && k < |table.archetypes|
    ensures KindOk(table.archetypes[k])
  {
  }

  /** Archetypes in the table have legal type lists. */
  lemma KnownLegal(table: Table)
    requires table.Valid()
    ensures forall types :: types in KeysOf(table.archetypes).Values ==> Legal(types)
  {
    forall types | types in KeysOf(table.archetypes).Values ensures Legal(types) {
      var k :| k in KeysOf(table.archetypes) && KeysOf(table.archetypes)[k] == types;
      assert KindOk(table.archetypes[k]);
    }
  }

  /** One destructor call, if the type is disposed of. */
  function Disposal(types: seq<nat>, o: Handle, t: nat): multiset<Destruction> {
    if t in Disposed(types) then multiset{Destruction(o, t)} else multiset{}
  }

  lemma NoDestructions(hs: set<Handle>)
    ensures multiset(Destructions(hs, {})) == multiset{}
  {
    assert Destructions(hs, {}) == {};
  }

  lemma OneDestruction(types: seq<nat>, removed: seq<nat>, o: Handle, t: nat)
    requires t in types && Elems(removed) == Elems(types) - {t}
    ensures multiset(Destructions({o}, LeftBehind(types, removed))) == Disposal(types, o, t)
  {
    InElems(types);
    InElems(removed);
    assert LeftBehind(types, removed) == if t in Disposed(types) then {t} else {};
    assert Destructions({o}, LeftBehind(types, removed)) == if t in Disposed(types) then {Destruction(o, t)} else {};
  }

  lemma KindsGrow(w: Rows, kinds: seq<Kind>)
    requires RowsAgree(w, NoRows) && w.kinds <= kinds
    ensures RowsAgree(w.(kinds := kinds), NoRows) && Entities(w.(kinds := kinds)) == Entities(w)
  {
    var w1 := w.(kinds := kinds);
    forall c | c in w1.chunks ensures ChunkOk(w1, c) { assert ChunkOk(w, c); }
    forall c, i: nat | c in w1.chunks && i < w1.chunks[c].count ensures RowTaken(w1, c, i) { assert RowTaken(w, c, i); }
    forall h | h in w1.places ensures Seated(w1, h) && EntityAt(w1, w1.places[h]) == EntityAt(w, w.places[h]) {
      assert Seated(w, h);
      assert ChunkOk(w, w.places[h].chunk);
    }
  }

  lemma SingleRow(w: Rows, h: Handle)
    requires RowsAgree(w, NoRows) && h in w.places
    ensures w.places[h].At? && ChunkOk(w, w.places[h].chunk) && w.places[h].row < w.chunks[w.places[h].chunk].count
    ensures HandlesIn(w, Batch(w.places[h].chunk, w.places[h].row, 1)) == {h}
    ensures Entities(w)[h] == EntityAt(w, w.places[h])
  {
    assert Seated(w, h) && ChunkOk(w, w.places[h].chunk);
    var b := Batch(w.places[h].chunk, w.places[h].row, 1);
    forall x ensures x in HandlesIn(w, b) <==> x == h {
      if x in HandlesIn(w, b) { assert Seated(w, x); }
    }
  }

  lemma SameHandles(w: Rows, w1: Rows, b: Batch)
    requires w1 == w.(kinds := w1.kinds) && w.kinds <= w1.kinds && ChunkOk(w, b.chunk)
    ensures ChunkOk(w1, b.chunk) && HandlesIn(w1, b) == HandlesIn(w, b)
  {
  }

  lemma MovedOne(es: map<Handle, Entity>, o: Handle, types: seq<nat>, shared: seq<nat>)
    requires o in es
    ensures MovedEntities(es, {o}, types, shared) == es[o := Into(es[o], types, shared)]
  {
  }

  /** A handle is null or has an odd version, as every handle ever handed out has. */
  predicate ProperHandle(h: Handle) {
    h.index >= 0 ==> h.version % 2 == 1
  }

  lemma AllPlaced(w: Rows, h: Handle)
    requires RowsAgree(w, NoRows)
    ensures h in w.places ==> w.places[h].At?
  {
    if h in w.places { assert Seated(w, h); }
  }

  /** The listed handles from position i on lie in the rows of the batch. */
  ghost predicate Run(w: Rows, hs: seq<Handle>, i: nat, b: Batch) {
    && i + b.count <= |hs|
    && forall j :: i <= j < i + b.count ==> hs[j] in w.places && w.places[hs[j]] == At(b.chunk, b.start + (j - i))
  }

  /** A run that cannot be continued. */
  ghost predicate LongestRun(w: Rows, hs: seq<Handle>, i: nat, b: Batch) {
    Run(w, hs, i, b) && (i + b.count < |hs| ==> !Run(w, hs, i, b.(count := b.count + 1)))
  }

  /** The rows of a batch hold exactly the listed handles from position i on, as many as it counts. */
  ghost predicate BatchOf(w: Rows, hs: seq<Handle>, i: nat, b: Batch) {
    && 0 < b.count && i + b.count <= |hs| && ChunkOk(w, b.chunk) && b.start + b.count <= w.chunks[b.chunk].count
    && HandlesIn(w, b) == HandleSet(hs[i..i + b.count])
  }

  lemma RunStarts(w: Rows, hs: seq<Handle>, i: nat, b: Batch)
    requires i < |hs| && b.count == 1 && hs[i] in w.places && w.places[hs[i]] == At(b.chunk, b.start)
    ensures Run(w, hs, i, b)
  {
  }

  /** The run is one longer exactly if the next handle's row is the next one. */
  lemma RunStep(w: Rows, hs: seq<Handle>, i: nat, b: Batch)
    requires Run(w, hs, i, b) && i + b.count < |hs|
    ensures Run(w, hs, i, b.(count := b.count + 1)) <==>
      hs[i + b.count] in w.places && w.places[hs[i + b.count]] == At(b.chunk, b.start + b.count)
  {
  }

  lemma RunIsBatch(w: Rows, hs: seq<Handle>, i: nat, b: Batch)
    requires RowsAgree(w, NoRows) && LongestRun(w, hs, i, b) && b.count > 0
    ensures BatchOf(w, hs, i, b)
  {
    var last := i + b.count - 1;
    assert Seated(w, hs[last]) && w.places[hs[last]] == At(b.chunk, b.start + (last - i));
    assert ChunkOk(w, b.chunk);
    forall h ensures h in HandlesIn(w, b) <==> h in hs[i..i + b.count] {
      if h in HandlesIn(w, b) {
        var j := i + (w.places[h].row - b.start);
        assert Seated(w, h) && Seated(w, hs[j]);
        assert hs[i..i + b.count][j - i] == h;
      }
      if h in hs[i..i + b.count] {
        var k: nat :| k < b.count && hs[i..i + b.count][k] == h;
        assert hs[i + k] == h;
      }
    }
  }

  /** The destructor calls that are due when the entities of hs are destroyed. */
  function DestructionsOf(es: map<Handle, Entity>, hs: set<Handle>): set<Destruction> {
    set h, t | h in hs && h in es && t in Disposed(es[h].types) :: Destruction(h, t)
  }

  lemma DestroyedOnce(es: map<Handle, Entity>, hs: seq<Handle>, calls: multiset<Destruction>)
    ensures forall o, t ::
      (calls + multiset(DestructionsOf(es, HandleSet(hs))))[Destruction(o, t)] == calls[Destruction(o, t)] +
      if o in hs && o in es && t in Disposed(es[o].types) then 1 else 0
  {
  }

  lemma LeftOnce(hs: set<Handle>, types: seq<nat>, other: seq<nat>, calls: multiset<Destruction>)
    ensures forall o, t ::
      (calls + multiset(Destructions(hs, LeftBehind(types, other))))[Destruction(o, t)] == calls[Destruction(o, t)] +
      if o in hs && t in Disposed(types) && t !in other then 1 else 0
  {
  }

  lemma NothingDestroyed(es: map<Handle, Entity>)
    ensures DestructionsOf(es, HandleSet([])) == {} && es - HandleSet([]) == es
  {
  }

  /** A listed entity that does not exist any more, or never did. */
  lemma NoneDestroyed(es: map<Handle, Entity>, hs: seq<Handle>, i: nat)
    requires i < |hs| && hs[i] !in es - HandleSet(hs[..i])
    ensures es - HandleSet(hs[..i + 1]) == es - HandleSet(hs[..i])
    ensures DestructionsOf(es, HandleSet(hs[..i + 1])) == DestructionsOf(es, HandleSet(hs[..i]))
  {
    assert hs[..i + 1] == hs[..i] + [hs[i]];
    assert forall h :: h in es ==> (h in HandleSet(hs[..i + 1]) <==> h in HandleSet(hs[..i]));
  }

  lemma BatchDestroyed(es: map<Handle, Entity>, w: Rows, hs: seq<Handle>, i: nat, b: Batch)
    requires i + b.count <= |hs| && Entities(w) == es - HandleSet(hs[..i]) && ChunkOk(w, b.chunk)
    requires HandlesIn(w, b) == HandleSet(hs[i..i + b.count])
    ensures Entities(w) - HandlesIn(w, b) == es - HandleSet(hs[..i + b.count])
    ensures multiset(DestructionsOf(es, HandleSet(hs[..i + b.count]))) ==
      multiset(DestructionsOf(es, HandleSet(hs[..i])))
      + multiset(Destructions(HandlesIn(w, b), Disposed(w.kinds[w.chunks[b.chunk].arch].types)))
  {
    var before, batch := HandleSet(hs[..i]), HandlesIn(w, b);
    assert hs[..i + b.count] == hs[..i] + hs[i..i + b.count];
    assert HandleSet(hs[..i + b.count]) == before + batch;
    var ts := Disposed(w.kinds[w.chunks[b.chunk].arch].types);
    forall h | h in batch ensures h in es && h !in before && es[h].types == w.kinds[w.chunks[b.chunk].arch].types {
      assert h in Entities(w) && Entities(w)[h] == EntityAt(w, w.places[h]);
    }
    assert DestructionsOf(es, before + batch) == DestructionsOf(es, before) + Destructions(batch, ts);
    DisjointSum(DestructionsOf(es, before), Destructions(batch, ts));
  }

  /** es is es0 with new entities for hs. */
  ghost predicate Creating(es0: map<Handle, Entity>, es: map<Handle, Entity>, hs: seq<Handle>, types: seq<nat>,
                           shared: seq<nat>) {
    && (forall h :: h in es <==> h in es0 || h in hs)
    && (forall h :: h in es0 ==> es[h] == es0[h])
    && (forall h :: h in hs ==> es[h] == NewEntity(types, h, shared))
  }

  lemma CreatedMore(es0: map<Handle, Entity>, es: map<Handle, Entity>, hs: seq<Handle>, more: seq<Handle>,
                    es1: map<Handle, Entity>,
                    types: seq<nat>, shared: seq<nat>)
    requires Creating(es0, es, hs, types, shared)
    requires forall h :: h in es1 <==> h in es || h in more
    requires forall h :: h in es ==> es1[h] == es[h]
    requires forall h :: h in more ==> es1[h] == NewEntity(types, h, shared)
    ensures Creating(es0, es1, hs + more, types, shared)
  {
  }

  lemma DistinctMore(hs: seq<Handle>, more: seq<Handle>)
    requires Distinct(hs) && Distinct(more) && forall h :: h in more ==> h !in hs
    ensures Distinct(hs + more)
  {
    forall i, j | 0 <= i < j < |hs + more| ensures (hs + more)[i] != (hs + more)[j] {
      if i < |hs| <= j {
        assert hs[i] in hs && more[j - |hs|] in more;
      }
    }
  }

  /** Every entity is as it was, and the handles hs came. */
  ghost predicate OnlyMore(w: Rows, w1: Rows, hs: seq<Handle>) {
    && (forall h :: h in Entities(w1) <==> h in Entities(w) || h in hs)
    && (forall h :: h in Entities(w) ==> Entities(w1)[h] == Entities(w)[h])
  }

  lemma MoreAfterCreating(w0: Rows, w: Rows, w1: Rows, hs: seq<Handle>, more: seq<Handle>, types: seq<nat>,
                          shared: seq<nat>)
    requires Creating(Entities(w0), Entities(w), hs, types, shared) && OnlyMore(w, w1, more)
    ensures OnlyMore(w0, w1, hs + more)
  {
    hide Entities;
  }

  /** Rows claimed for more handles than there were. */
  lemma PartAllocated(w: Rows, w1: Rows, c: nat, n: nat, hs: seq<Handle>)
    requires RowsAgree(w, NoRows) && ChunkOk(w, c) && |hs| < n
    requires w.chunks[c].count + n <= w.kinds[w.chunks[c].arch].capacity
    requires Handed(w.places, hs, c, w.chunks[c].count, w1.places) && w1.kinds == w.kinds
    requires w1.chunks == WithCount(w.chunks, c, w.chunks[c].count + n)
    requires w1.buffers == w.buffers[c := WithHandles(w.buffers[c], w.chunks[c].count, hs)]
    ensures RowsAgree(w1, Batch(c, w.chunks[c].count + |hs|, n - |hs|)) && OnlyMore(w, w1, hs)
  {
    hide RowsAgree, Entities, Handed, WithHandles, OnlyRows;
    HandlesWritten(w.buffers[c], w.kinds[w.chunks[c].arch], w.chunks[c].count, hs, n);
    PartAgrees(w, c, n, hs, w1.places, w1.buffers[c]);
  }

  lemma InitializedRows(b: Buffer, start: nat, hs: seq<Handle>)
    requires EntityType in b
    ensures var b0: Buffer := b[EntityType := InitialColumn(b[EntityType], EntityType, start, hs)];
      (map t | t in b0 :: if t == EntityType then b0[t] else InitialColumn(b0[t], t, start, hs)) ==
        InitialRows(b, start, hs)
  {
  }

  /** The move of a batch with its first n rows still to go. */
  ghost predicate Moving(w0: Rows, w: Rows, b: Batch, n: nat, k: nat, shared: seq<nat>) {
    && w.kinds == w0.kinds && k < |w.kinds| && b.chunk in w0.chunks && w0.chunks[b.chunk].arch < |w0.kinds|
    && Entities(w) == MovedEntities(Entities(w0), HandlesIn(w0, b) - HandlesIn(w, Batch(b.chunk, b.start, n)),
                                    w0.kinds[k].types, shared)
    && HandlesIn(w, Batch(b.chunk, b.start, n)) <= HandlesIn(w0, b)
    && (n > 0 ==> StillIn(w0, w, b, n))
  }

  ghost predicate StillIn(w0: Rows, w: Rows, b: Batch, n: nat) {
    && ChunkOk(w, b.chunk) && b.chunk in w0.chunks && b.start + n <= w.chunks[b.chunk].count
    && w.chunks[b.chunk].arch == w0.chunks[b.chunk].arch && w.chunks[b.chunk].shared == w0.chunks[b.chunk].shared
  }

  ghost function MovedDestructions(w0: Rows, w: Rows, b: Batch, n: nat, k: nat): multiset<Destruction>
    requires k < |w0.kinds| && b.chunk in w0.chunks && w0.chunks[b.chunk].arch < |w0.kinds|
  {
    multiset(Destructions(HandlesIn(w0, b) - HandlesIn(w, Batch(b.chunk, b.start, n)),
      LeftBehind(w0.kinds[w0.chunks[b.chunk].arch].types, w0.kinds[k].types)))
  }

  lemma MovingStarts(w: Rows, b: Batch, k: nat, shared: seq<nat>)
    requires ChunkOk(w, b.chunk) && b.start + b.count <= w.chunks[b.chunk].count && k < |w.kinds|
    ensures Moving(w, w, b, b.count, k, shared) && MovedDestructions(w, w, b, b.count, k) == multiset{}
  {
    assert HandlesIn(w, b) - HandlesIn(w, Batch(b.chunk, b.start, b.count)) == {};
    assert MovedEntities(Entities(w), {}, w.kinds[k].types, shared) == Entities(w);
    assert Destructions({}, LeftBehind(w.kinds[w.chunks[b.chunk].arch].types, w.kinds[k].types)) == {};
  }

  lemma MovingEnds(w0: Rows, w: Rows, b: Batch, k: nat, shared: seq<nat>)
    requires Moving(w0, w, b, 0, k, shared)
    ensures Entities(w) == MovedEntities(Entities(w0), HandlesIn(w0, b), w0.kinds[k].types, shared)
    ensures MovedDestructions(w0, w, b, 0, k) ==
      multiset(Destructions(HandlesIn(w0, b), LeftBehind(w0.kinds[w0.chunks[b.chunk].arch].types, w0.kinds[k].types)))
  {
    assert HandlesIn(w, Batch(b.chunk, b.start, 0)) == {};
    assert HandlesIn(w0, b) - {} == HandlesIn(w0, b);
  }

  lemma MovedTwice(es: map<Handle, Entity>, a: set<Handle>, c: set<Handle>, types: seq<nat>, shared: seq<nat>)
    requires a !! c
    ensures MovedEntities(MovedEntities(es, a, types, shared), c, types, shared) ==
      MovedEntities(es, a + c, types, shared)
  {
  }

  lemma DestroyedTwice(a: set<Handle>, c: set<Handle>, ts: set<nat>)
    requires a !! c
    ensures multiset(Destructions(a, ts)) + multiset(Destructions(c, ts)) == multiset(Destructions(a + c, ts))
  {
    assert Destructions(a + c, ts) == Destructions(a, ts) + Destructions(c, ts);
    DisjointSum(Destructions(a, ts), Destructions(c, ts));
  }

  /** What is left of the batch after one partial move. */
  lemma RestAfter(w: Rows, b: Batch, d: nat, n: nat, moved: nat)
    requires RowsAgree(w, NoRows) && 0 < moved <= n && Fits(w, Last(Batch(b.chunk, b.start, n), moved), d)
    ensures var taken := Last(Batch(b.chunk, b.start, n), moved); var rest := Batch(b.chunk, b.start, n);
      && ChunkOk(Cloned(w, taken, d), b.chunk)
      && var w1 := Closed(Cloned(w, taken, d), taken);
      && HandlesIn(w, taken) <= HandlesIn(w, rest)
      && HandlesIn(w1, Batch(b.chunk, b.start, n - moved)) == HandlesIn(w, rest) - HandlesIn(w, taken)
      && (n > moved ==>
          && b.chunk in w1.chunks && b.start + (n - moved) <= w1.chunks[b.chunk].count
          && w1.chunks[b.chunk].arch == w.chunks[b.chunk].arch && w1.chunks[b.chunk].shared == w.chunks[b.chunk].shared)
  {
    var rest := Batch(b.chunk, b.start, n);
    var taken := Last(rest, moved);
    CloneLeaves(w, taken, d);
    hide RowsAgree, Cloned, Closed, HandlesIn;
    if moved < n {
      PrefixStays(w, rest, d, n - moved);
    } else {
      assert taken == rest;
      NoHandles(Closed(Cloned(w, taken, d), taken), b.chunk, b.start);
    }
  }

  lemma NoHandles(w: Rows, c: nat, start: nat)
    ensures HandlesIn(w, Batch(c, start, 0)) == {}
  {
  }

  /** As much of the end of a batch as chunk d has room for can be moved there. */
  lemma SomeMoves(w: Rows, b: Batch, d: nat)
    requires RowsAgree(w, NoRows) && ChunkOk(w, b.chunk) && ChunkOk(w, d) && d != b.chunk
    requires b.count > 0 && b.start + b.count <= w.chunks[b.chunk].count
    requires w.chunks[d].count < w.kinds[w.chunks[d].arch].capacity
    ensures d in w.chunks && b.chunk in w.chunks && w.chunks[d].arch < |w.kinds| && w.chunks[b.chunk].arch < |w.kinds|
    ensures var n := Least(w.kinds[w.chunks[d].arch].capacity - w.chunks[d].count, b.count); var taken := Last(b, n);
      && 0 < n <= b.count && Fits(w, taken, d)
      && var w1 := Cloned(w, taken, d);
      && RowsAgree(w1, taken) && ChunkOk(w1, b.chunk) && b.chunk in w1.chunks && b.chunk in w1.buffers
      && taken.start + taken.count <= w1.chunks[b.chunk].count && RowsAgree(Closed(w1, taken), NoRows)
  {
    var n := Least(w.kinds[w.chunks[d].arch].capacity - w.chunks[d].count, b.count);
    CloneLeaves(w, Last(b, n), d);
    MoveEffect(w, Last(b, n), d);
  }

  lemma MovingStep(w: Rows, w0: Rows, w1: Rows, d: nat, b: Batch, n: nat, moved: nat, k: nat, shared: seq<nat>)
    requires Moving(w, w0, b, n, k, shared) && Provided(w0, w1, d, k, shared) && RowsAgree(w1, NoRows)
    requires 0 < moved <= n && Fits(w1, Last(Batch(b.chunk, b.start, n), moved), d)
    ensures var taken := Last(Batch(b.chunk, b.start, n), moved);
      && ChunkOk(Cloned(w1, taken, d), b.chunk)
      && var w2 := Closed(Cloned(w1, taken, d), taken);
      && Moving(w, w2, b, n - moved, k, shared)
      && MovedDestructions(w, w2, b, n - moved, k) == MovedDestructions(w, w0, b, n, k)
        + multiset(Destructions(HandlesIn(w1, taken),
                                LeftBehind(w.kinds[w.chunks[b.chunk].arch].types, w.kinds[k].types)))
  {
    var rest := Batch(b.chunk, b.start, n);
    var taken := Last(rest, moved);
    RestAfter(w1, b, d, n, moved);
    MoveEffect(w1, taken, d);
    var w2 := Closed(Cloned(w1, taken, d), taken);
    assert HandlesIn(w1, rest) == HandlesIn(w0, rest);
    var gone, more := HandlesIn(w, b) - HandlesIn(w0, rest), HandlesIn(w1, taken);
    assert gone !! more;
    assert HandlesIn(w, b) - HandlesIn(w2, Batch(b.chunk, b.start, n - moved)) == gone + more;
    MovedTwice(Entities(w), gone, more, w.kinds[k].types, shared);
    DestroyedTwice(gone, more, LeftBehind(w.kinds[w.chunks[b.chunk].arch].types, w.kinds[k].types));
    if n > moved { ProvidedOk(w2, b.chunk); }
  }

  /** The last n rows of a batch. */
  function Last(b: Batch, n: nat): Batch
    requires n <= b.count
  {
    Batch(b.chunk, b.start + b.count - n, n)
  }

  function Memory(memory: (nat, nat) -> Value, kind: Kind): (b: Buffer)
    ensures IsBuffer(b, kind)
  {
    map t | t in Stored(kind.types) :: seq(kind.capacity, i requires i >= 0 => memory(t, i))
  }

  lemma MemoryColumns(memory: (nat, nat) -> Value, kind: Kind)
    requires KindOk(kind)
    ensures EntityType in Memory(memory, kind)
  {
    Columns(kind, 0);
  }

  /** Every chunk of archetype k with these shared values is full. */
  ghost predicate AllFull(w: Rows, k: nat, shared: seq<nat>) {
    forall d :: d in w.chunks && w.chunks[d].arch == k && w.chunks[d].shared == shared ==>
      k < |w.kinds| && w.chunks[d].count == w.kinds[k].capacity
  }

  /** Chunk c was found for archetype k and these shared values, or added because all there are are full; nothing else
      changed. */
  ghost predicate Provided(w: Rows, w1: Rows, c: nat, k: nat, shared: seq<nat>) {
    && w1.kinds == w.kinds && w1.places == w.places && Entities(w1) == Entities(w)
    && ChunkOk(w1, c) && w1.chunks[c].arch == k && w1.chunks[c].shared == shared
    && w1.chunks[c].count < w1.kinds[k].capacity
    && (forall d :: d in w.chunks ==> d in w1.chunks && w1.chunks[d] == w.chunks[d])
    && (forall d :: d in w1.chunks && d != c ==> d in w.chunks)
    && (if c in w.chunks then w1 == w else w1.chunks[c].count == 0 && AllFull(w, k, shared))
  }

  lemma ProvidedOk(w: Rows, c: nat)
    requires RowsAgree(w, NoRows) && c in w.chunks
    ensures ChunkOk(w, c)
  {
  }

  lemma NoneHasRoom(w: Rows, k: nat, shared: seq<nat>)
    requires k < |w.kinds| && forall d :: d in w.chunks && w.chunks[d].arch == k && w.chunks[d].shared == shared ==>
      w.chunks[d].count == w.kinds[k].capacity
    ensures AllFull(w, k, shared)
  {
  }

  lemma FoundProvided(w: Rows, c: nat, k: nat, shared: seq<nat>)
    requires RowsAgree(w, NoRows) && c in w.chunks && k < |w.kinds|
    requires w.chunks[c].arch == k && w.chunks[c].shared == shared && w.chunks[c].count < w.kinds[k].capacity
    ensures Provided(w, w, c, k, shared)
  {
  }

  lemma NewProvided(w: Rows, c: nat, k: nat, shared: seq<nat>, b: Buffer)
    requires RowsAgree(w, NoRows) && c !in w.chunks && k < |w.kinds| && IsBuffer(b, w.kinds[k]) && EntityType in b
    requires w.kinds[k].capacity > 0 && AllFull(w, k, shared)
    ensures var w1 := EntityRows.NewChunk(w, c, k, shared, b);
      RowsAgree(w1, NoRows) && Provided(w, w1, c, k, shared)
  {
    NewChunkStep(w, c, k, shared, b);
    hide Entities;
  }

  lemma TailHandles(w: Rows, b: Batch)
    requires RowsAgree(w, b) && ChunkOk(w, b.chunk) && b.start + b.count <= w.chunks[b.chunk].count
    ensures var n := w.chunks[b.chunk].count; var fill := FillCount(n, b);
      && fill <= n && b.start + fill <= n - fill
      && RowHandles(w.places, Batch(b.chunk, n - fill, fill), OwnersOf(w.buffers[b.chunk], n - fill, fill))
  {
    var n := w.chunks[b.chunk].count;
    var fill := FillCount(n, b);
    BatchHandles(w, b, Batch(b.chunk, n - fill, fill));
  }

  /** The tail that fills a batch: its owners before and after the copy, and room to copy. */
  lemma TailFacts(w: Rows, b: Batch)
    requires RowsAgree(w, b) && ChunkOk(w, b.chunk) && b.start + b.count <= w.chunks[b.chunk].count
    ensures b.chunk in w.chunks && b.chunk in w.buffers && w.chunks[b.chunk].arch < |w.kinds|
    ensures var kind, n := w.kinds[w.chunks[b.chunk].arch], w.chunks[b.chunk].count;
      var fill := FillCount(n, b);
      && IsBuffer(w.buffers[b.chunk], kind) && n <= kind.capacity && b.start + fill <= n - fill
      && RowHandles(w.places, Batch(b.chunk, n - fill, fill), OwnersOf(w.buffers[b.chunk], n - fill, fill))
      && OwnersOf(CopyRows(w.buffers[b.chunk], n - fill, b.start, fill), b.start, fill) ==
        OwnersOf(w.buffers[b.chunk], n - fill, fill)
  {
    hide RowsAgree, RowHandles, OwnersOf, CopyRows, RowsTaken, AllSeated;
    var n := w.chunks[b.chunk].count;
    var fill := FillCount(n, b);
    TailHandles(w, b);
    CopiedOwners(w.buffers[b.chunk], w.kinds[w.chunks[b.chunk].arch], n - fill, b.start, fill);
  }

  /** A handle not yet patched is where it was. */
  lemma StillThere(places: map<Handle, Place>, b: Batch, hs: seq<Handle>, i: nat, start: nat)
    requires RowHandles(places, b, hs) && i < |hs|
    ensures Moved(places, Batch(b.chunk, b.start, i), b.chunk, start)[hs[i]] == At(b.chunk, b.start + i)
  {
  }

  /** With no tail there is nothing to fill. */
  lemma FilledAny(w: Rows, b: Batch)
    requires ChunkOk(w, b.chunk) && b.start + b.count <= w.chunks[b.chunk].count
    ensures FillCount(w.chunks[b.chunk].count, b) == Least(b.count, w.chunks[b.chunk].count - (b.start + b.count))
    ensures FillCount(w.chunks[b.chunk].count, b) == 0 ==> Filled(w, b) == w
  {
    if FillCount(w.chunks[b.chunk].count, b) == 0 {
      var b0 := w.buffers[b.chunk];
      assert CopyRows(b0, w.chunks[b.chunk].count, b.start, 0) == b0 by {
        forall t | t in b0 ensures CopyColumn(b0[t], w.chunks[b.chunk].count, b.start, 0) == b0[t] {}
      }
      assert Filled(w, b).places == w.places;
      assert Filled(w, b).buffers == w.buffers;
    }
  }

  lemma CopiedOwners(b: Buffer, kind: Kind, from: nat, to: nat, n: nat)
    requires IsBuffer(b, kind) && from + n <= kind.capacity && to + n <= kind.capacity
    ensures OwnersOf(CopyRows(b, from, to, n), to, n) == OwnersOf(b, from, n)
  {
    forall k: nat | k < n ensures OwnersOf(CopyRows(b, from, to, n), to, n)[k] == OwnersOf(b, from, n)[k] {
      CopiedRow(b, from, to, n, k, kind);
    }
  }
}
