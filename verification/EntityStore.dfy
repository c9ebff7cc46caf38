/** The entity store run by one thread (src/ECS/EntityStore.cpp): versioned handles handed out from
    fixed-size blocks, each handle carrying the chunk row of its entity. */
module EntityStore {
  import opened EntityBlocks

  /** Free slots in blocks i and later. */
  function FreeFrom(counts: seq<nat>, i: nat): nat
    requires i <= |counts|
    requires forall b :: 0 <= b < |counts| ==> counts[b] <= EntitiesInBlock
    decreases |counts| - i
  {
    if i == |counts| then 0 else EntitiesInBlock - counts[i] + FreeFrom(counts, i + 1)
  }

  lemma {:induction false} FreeSet(counts: seq<nat>, i: nat, v: nat, j: nat)
    requires i < |counts| && j <= |counts| && v <= EntitiesInBlock
    requires forall b :: 0 <= b < |counts| ==> counts[b] <= EntitiesInBlock
    ensures FreeFrom(counts[i := v], j) == FreeFrom(counts, j) - if j <= i then v - counts[i] else 0
    decreases |counts| - j
  {
    if j < |counts| { FreeSet(counts, i, v, j + 1); }
  }

  /** hs are new handles, in ascending slot order, placed at consecutive rows. */
  ghost predicate HandedOut(bs0: seq<Block>, bs: seq<Block>, hs: seq<Handle>, chunk: nat, first: nat)
    requires BlocksOk(bs0) && BlocksOk(bs)
  {
    && (forall k :: 0 <= k < |hs| ==>
          && 0 <= hs[k].index < Capacity
          && hs[k].version % 2 == 1
          && Version(bs0, hs[k].index) == hs[k].version - 1
          && Version(bs, hs[k].index) == hs[k].version
          && PlaceOf(bs, hs[k].index) == At(chunk, first + k))
    && (forall j, k :: 0 <= j < k < |hs| ==> hs[j].index < hs[k].index)
  }

  /** Every slot that changed is the slot of one of hs. */
  ghost predicate OnlyChanged(bs0: seq<Block>, bs: seq<Block>, hs: seq<Handle>)
    requires BlocksOk(bs0) && BlocksOk(bs)
  {
    forall i :: 0 <= i < Capacity ==>
      || (Version(bs, i) == Version(bs0, i) && PlaceOf(bs, i) == PlaceOf(bs0, i))
      || Handle(i, Version(bs, i)) in hs
  }

  /** The same two facts about one block. */
  ghost predicate Filled(b0: Block, b: Block, i: nat, hs: seq<Handle>, chunk: nat, first: nat) {
    && b0.Block? && b.Block? && BlockOk(b0) && BlockOk(b)
    && (forall k :: 0 <= k < |hs| ==>
          && 0 <= hs[k].index - 8192 * i < EntitiesInBlock
          && hs[k].version % 2 == 1
          && b0.versions[hs[k].index - 8192 * i] == hs[k].version - 1
          && b.versions[hs[k].index - 8192 * i] == hs[k].version
          && b.places[hs[k].index - 8192 * i] == At(chunk, first + k))
    && (forall j, k :: 0 <= j < k < |hs| ==> hs[j].index < hs[k].index)
  }

  ghost predicate OnlyFilled(b0: Block, b: Block, i: nat, hs: seq<Handle>)
    requires b0.Block? && b.Block? && BlockOk(b0) && BlockOk(b)
  {
    forall s :: 0 <= s < EntitiesInBlock ==>
      || (b.versions[s] == b0.versions[s] && b.places[s] == b0.places[s])
      || Handle(8192 * i + s, b.versions[s]) in hs
  }

  /** What freeing the handles of a set does, however they were listed: a slot whose current handle is in
      the set moves to the next (even) version; no other slot changes. */
  ghost predicate Freed(bs0: seq<Block>, bs: seq<Block>, hs: set<Handle>)
    requires BlocksOk(bs0) && BlocksOk(bs)
  {
    forall i :: 0 <= i < Capacity ==>
      && Version(bs, i) == (if Handle(i, Version(bs0, i)) in hs then Version(bs0, i) + 1 else Version(bs0, i))
      && PlaceOf(bs, i) == PlaceOf(bs0, i)
  }

  /** A block not yet created reads as a fresh one. */
  lemma OldBlock(bs: seq<Block>, i: nat, j: int)
    requires BlocksOk(bs) && i < BlockCount && 0 <= j < Capacity && BlockOf(j) == i
    ensures var b := Created(bs[i]);
      Version(bs, j) == b.versions[j - 8192 * i] && PlaceOf(bs, j) == b.places[j - 8192 * i]
  {
  }

  /** Filling the next block extends what was handed out so far. */
  lemma AppendFilled(bs0: seq<Block>, bs: seq<Block>, i: nat, filled: Block, hs: seq<Handle>,
                     more: seq<Handle>, chunk: nat, first: nat)
    requires i < BlockCount && BlocksOk(bs0) && BlocksOk(bs) && bs[i] == bs0[i]
    requires HandedOut(bs0, bs, hs, chunk, first)
    requires Filled(Created(bs[i]), filled, i, more, chunk, first + |hs|)
    requires forall k :: 0 <= k < |hs| ==> hs[k].index < 8192 * i
    ensures BlocksOk(bs[i := filled]) && HandedOut(bs0, bs[i := filled], hs + more, chunk, first)
    ensures forall k :: 0 <= k < |hs + more| ==> (hs + more)[k].index < 8192 * (i + 1)
  {
    var bs1, all := bs[i := filled], hs + more;
    forall k | 0 <= k < |all|
      ensures 0 <= all[k].index < Capacity && all[k].version % 2 == 1
      ensures Version(bs0, all[k].index) == all[k].version - 1 && Version(bs1, all[k].index) == all[k].version
      ensures PlaceOf(bs1, all[k].index) == At(chunk, first + k) && all[k].index < 8192 * (i + 1)
    {
      if k < |hs| {
        assert all[k] == hs[k];
      } else {
        assert all[k] == more[k - |hs|];
        OldBlock(bs0, i, all[k].index);
      }
      SetBlock(bs, i, filled, all[k].index);
    }
  }

  lemma AppendOnly(bs0: seq<Block>, bs: seq<Block>, i: nat, filled: Block, hs: seq<Handle>, more: seq<Handle>)
    requires i < BlockCount && BlocksOk(bs0) && BlocksOk(bs) && bs[i] == bs0[i]
    requires OnlyChanged(bs0, bs, hs)
    requires filled.Block? && BlockOk(filled) && OnlyFilled(Created(bs[i]), filled, i, more)
    ensures BlocksOk(bs[i := filled]) && OnlyChanged(bs0, bs[i := filled], hs + more)
  {
    var bs1 := bs[i := filled];
    forall j | 0 <= j < Capacity
      ensures (Version(bs1, j) == Version(bs0, j) && PlaceOf(bs1, j) == PlaceOf(bs0, j))
        || Handle(j, Version(bs1, j)) in hs + more
    {
      SetBlock(bs, i, filled, j);
      if BlockOf(j) == i { OldBlock(bs0, i, j); }
    }
  }

  /** Handing out the next clear slot of a block. */
  lemma TakeFills(b0: Block, b: Block, i: nat, hs: seq<Handle>, chunk: nat, first: nat, s: nat)
    requires Filled(b0, b, i, hs, chunk, first) && s < EntitiesInBlock && !b.bits[s]
    requires b.versions[s] == b0.versions[s]
    requires forall k :: 0 <= k < |hs| ==> hs[k].index < 8192 * i + s
    ensures var r := TakeSlot(b, s, At(chunk, first + |hs|));
      Filled(b0, r, i, hs + [Handle(8192 * i + s, r.versions[s])], chunk, first)
  {
  }

  lemma TakeOnlyFills(b0: Block, b: Block, i: nat, hs: seq<Handle>, s: nat, p: Place)
    requires b0.Block? && b.Block? && BlockOk(b0) && BlockOk(b) && s < EntitiesInBlock && !b.bits[s]
    requires OnlyFilled(b0, b, i, hs)
    ensures var r := TakeSlot(b, s, p);
      && r.bits == b.bits[s := true] && OnlyFilled(b0, r, i, hs + [Handle(8192 * i + s, r.versions[s])])
      && forall k :: 0 <= k < EntitiesInBlock && k != s ==> r.versions[k] == b.versions[k]
  {
  }

  /** Below the slots handed out none is free. */
  ghost predicate LowestTaken(bs: seq<Block>, hs: seq<Handle>)
    requires BlocksOk(bs)
  {
    forall k, j :: 0 <= k < |hs| && 0 <= j < hs[k].index && j < Capacity ==> Version(bs, j) % 2 == 1
  }

  /** Blocks before i are full. */
  ghost predicate FullBelow(bs: seq<Block>, i: nat)
    requires BlocksOk(bs)
  {
    forall j :: 0 <= j < 8192 * i && j < Capacity ==> Version(bs, j) % 2 == 1
  }

  lemma BlockFull(bs: seq<Block>, i: nat)
    requires BlocksOk(bs) && i < BlockCount && BitCount(bs[i]) == EntitiesInBlock && FullBelow(bs, i)
    ensures FullBelow(bs, i + 1)
  {
    CountBound(bs[i].bits);
    forall j | 8192 * i <= j < 8192 * (i + 1) && j < Capacity ensures Version(bs, j) % 2 == 1 {
      assert BlockOf(j) == i;
    }
  }

  lemma LowestInBlock(bs: seq<Block>, i: nat, b: Block, hs: seq<Handle>, more: seq<Handle>)
    requires BlocksOk(bs) && i < BlockCount && b.Block? && BlockOk(b) && FullBelow(bs, i)
    requires forall k :: 0 <= k < |hs| ==> hs[k].index < 8192 * i
    requires forall k :: 0 <= k < |more| ==> 0 <= more[k].index - 8192 * i < EntitiesInBlock
    requires forall k, s :: 0 <= k < |more| && 0 <= s < more[k].index - 8192 * i ==> b.bits[s]
    ensures BlocksOk(bs[i := b]) && LowestTaken(bs[i := b], hs + more) && FullBelow(bs[i := b], i)
  {
    var bs1, all := bs[i := b], hs + more;
    assert BlocksOk(bs1) by { SetBlock(bs, i, b, 0); }
    forall j | 0 <= j < 8192 * i && j < Capacity ensures Version(bs1, j) % 2 == 1 {
      SetBlock(bs, i, b, j);
    }
    forall k, j | 0 <= k < |all| && 0 <= j < all[k].index && j < Capacity ensures Version(bs1, j) % 2 == 1 {
      SetBlock(bs, i, b, j);
      if k >= |hs| && BlockOf(j) == i {
        assert all[k] == more[k - |hs|];
        assert b.bits[j - 8192 * i];
      }
    }
  }

  /** The scan over a block's bitmap: takes its lowest `count` clear slots. */
  method FillBlock(b: Block, i: nat, count: nat, chunk: nat, first: nat) returns (r: Block, hs: seq<Handle>)
    requires b.Block? && BlockOk(b) && BitCount(b) + count <= EntitiesInBlock
    ensures |hs| == count && Filled(b, r, i, hs, chunk, first) && OnlyFilled(b, r, i, hs)
    ensures r.Block? && BlockOk(r) && BitCount(r) == BitCount(b) + count
    ensures forall k :: 0 <= k < |hs| ==> 0 <= hs[k].index - 8192 * i < EntitiesInBlock
    ensures forall k, s :: 0 <= k < |hs| && 0 <= s < hs[k].index - 8192 * i ==> r.bits[s]
  {
    r, hs := b, [];
    var remainingCount := count;
    assert Filled(b, r, i, hs, chunk, first) && OnlyFilled(b, r, i, hs);
    hide Filled, OnlyFilled, TakeSlot;
    while remainingCount > 0
      invariant r.Block? && BlockOk(r) && |hs| + remainingCount == count && BitCount(r) == BitCount(b) + |hs|
      invariant Filled(b, r, i, hs, chunk, first) && OnlyFilled(b, r, i, hs)
      invariant remainingCount > 0 ==> hs == [] && r == b
      invariant forall k :: 0 <= k < |hs| ==> 0 <= hs[k].index - 8192 * i < EntitiesInBlock
      invariant forall k, s :: 0 <= k < |hs| && 0 <= s < hs[k].index - 8192 * i ==> r.bits[s]
    {
      var s := 0;
      while s < EntitiesInBlock && remainingCount > 0
        invariant 0 <= s <= EntitiesInBlock
        invariant r.Block? && BlockOk(r) && |hs| + remainingCount == count && BitCount(r) == BitCount(b) + |hs|
        invariant Filled(b, r, i, hs, chunk, first) && OnlyFilled(b, r, i, hs)
        invariant forall k :: 0 <= k < |hs| ==> 8192 * i <= hs[k].index < 8192 * i + s
        invariant forall k :: 0 <= k < s ==> r.bits[k]
        invariant forall k :: s <= k < EntitiesInBlock ==> r.versions[k] == b.versions[k]
      {
        if !r.bits[s] {
          TakeFills(b, r, i, hs, chunk, first, s);
          TakeOnlyFills(b, r, i, hs, s, At(chunk, first + |hs|));
          r := TakeSlot(r, s, At(chunk, first + |hs|));
          hs := hs + [Handle(8192 * i + s, r.versions[s])];
          remainingCount := remainingCount - 1;
        }
        s := s + 1;
      }
      CountBound(r.bits);
    }
  }

  /** The handles listed before position i. */
  function Prefix(hs: seq<Handle>, i: nat): (r: set<Handle>)
    requires i <= |hs|
    ensures forall h :: h in r <==> h in hs[..i]
  {
    set h | h in hs[..i]
  }

  /** Freeing one more handle; for a stale one, or one of a block never created, nothing changes. */
  lemma FreeOne(bs0: seq<Block>, bs: seq<Block>, done: set<Handle>, h: Handle)
    requires BlocksOk(bs0) && BlocksOk(bs) && Freed(bs0, bs, done)
    requires 0 <= h.index < Capacity && h.version % 2 == 1
    requires forall d :: d in done ==> d.version % 2 == 1
    ensures bs[BlockOf(h.index)].Absent? || Version(bs, h.index) != h.version ==> Freed(bs0, bs, done + {h})
    ensures bs[BlockOf(h.index)].Block? ==>
      var bs1 := bs[BlockOf(h.index) := FreeSlot(bs[BlockOf(h.index)], SlotOf(h.index), h.version)];
      BlocksOk(bs1) && Freed(bs0, bs1, done + {h})
  {
    var b, s := BlockOf(h.index), SlotOf(h.index);
    if bs[b].Block? {
      var r := FreeSlot(bs[b], s, h.version);
      forall j | 0 <= j < Capacity
        ensures Version(bs[b := r], j) ==
          (if Handle(j, Version(bs0, j)) in done + {h} then Version(bs0, j) + 1 else Version(bs0, j))
        ensures PlaceOf(bs[b := r], j) == PlaceOf(bs0, j)
      {
        SetBlock(bs, b, r, j);
      }
    }
  }

  /** In a block that counts no entity every version is even. */
  lemma EmptyBlock(b: Block, s: nat)
    requires BlockOk(b) && BitCount(b) == 0 && s < EntitiesInBlock && b.Block?
    ensures b.versions[s] % 2 == 0
  {
    if b.bits[s] { SetBit(b.bits, s, false); }
  }

  /** A block that counts no entity holds none of the listed handles. */
  lemma {:induction false} SkipRange(bs0: seq<Block>, bs: seq<Block>, hs: seq<Handle>, i: nat, j: nat, b: nat)
    requires BlocksOk(bs0) && BlocksOk(bs) && b < BlockCount && i <= j <= |hs|
    requires BitCount(bs[b]) == 0 && Freed(bs0, bs, Prefix(hs, i))
    requires forall k :: 0 <= k < |hs| ==> hs[k].version % 2 == 1
    requires forall k :: i <= k < j ==> 0 <= hs[k].index < Capacity && BlockOf(hs[k].index) == b
    ensures Freed(bs0, bs, Prefix(hs, j))
    decreases j - i
  {
    if i < j {
      PrefixStep(hs, i);
      FreeOne(bs0, bs, Prefix(hs, i), hs[i]);
      if bs[b].Block? { EmptyBlock(bs[b], SlotOf(hs[i].index)); }
      SkipRange(bs0, bs, hs, i + 1, j, b);
    }
  }

  lemma PrefixStep(hs: seq<Handle>, i: nat)
    requires i < |hs|
    ensures Prefix(hs, i + 1) == Prefix(hs, i) + {hs[i]}
  {
    assert hs[..i + 1] == hs[..i] + [hs[i]];
  }

  /** The allocation after the blocks before i have been visited. */
  ghost predicate Progress(bs0: seq<Block>, bs: seq<Block>, hs: seq<Handle>, chunk: nat, first: nat, i: nat)
    requires BlocksOk(bs0) && BlocksOk(bs)
  {
    && HandedOut(bs0, bs, hs, chunk, first) && OnlyChanged(bs0, bs, hs)
    && forall k :: 0 <= k < |hs| ==> hs[k].index < 8192 * i
  }

  /** Recording a place for one slot. */
  lemma MovePlace(bs: seq<Block>, h: Handle, p: Place)
    requires BlocksOk(bs) && 0 <= h.index < Capacity && bs[BlockOf(h.index)].Block?
    ensures var b := bs[BlockOf(h.index)];
      var bs1 := bs[BlockOf(h.index) := b.(places := b.places[SlotOf(h.index) := p])];
      && BlocksOk(bs1)
      && (forall i :: 0 <= i < Capacity ==> Version(bs1, i) == Version(bs, i))
      && (Live(bs, h) ==> Places(bs1) == Places(bs)[h := p])
  {
    var b := bs[BlockOf(h.index)];
    var r := b.(places := b.places[SlotOf(h.index) := p]);
    var bs1 := bs[BlockOf(h.index) := r];
    forall j | 0 <= j < Capacity
      ensures Version(bs1, j) == Version(bs, j)
      ensures PlaceOf(bs1, j) == if j == h.index then p else PlaceOf(bs, j)
    {
      SetBlock(bs, BlockOf(h.index), r, j);
    }
    if Live(bs, h) {
      forall x: Handle ensures x in Places(bs1) <==> x in Places(bs) {}
    }
  }

  /** Handing out, seen from one handle. */
  lemma AllocateOne(bs0: seq<Block>, bs: seq<Block>, hs: seq<Handle>, chunk: nat, first: nat, h: Handle)
    requires BlocksOk(bs0) && BlocksOk(bs) && HandedOut(bs0, bs, hs, chunk, first) && OnlyChanged(bs0, bs, hs)
    ensures Live(bs, h) <==> Live(bs0, h) || h in hs
    ensures Issued(bs, h) <==> Issued(bs0, h) || h in hs
    ensures h in hs ==> !Issued(bs0, h)
    ensures Live(bs0, h) ==> PlaceOf(bs, h.index) == PlaceOf(bs0, h.index)
  {
    if h in hs {
      var k :| 0 <= k < |hs| && hs[k] == h;
    } else if 0 <= h.index < Capacity {
      var now := Handle(h.index, Version(bs, h.index));
      if now in hs {
        var k :| 0 <= k < |hs| && hs[k] == now;
        assert Version(bs0, hs[k].index) == hs[k].version - 1;
      }
    }
  }

  /** Handing out: exactly hs become live, at consecutive rows, and none of hs was ever issued before. */
  lemma AllocatePlaces(bs0: seq<Block>, bs: seq<Block>, hs: seq<Handle>, chunk: nat, first: nat)
    requires BlocksOk(bs0) && BlocksOk(bs) && HandedOut(bs0, bs, hs, chunk, first) && OnlyChanged(bs0, bs, hs)
    ensures forall h :: h in Places(bs) <==> h in Places(bs0) || h in hs
    ensures forall h :: h in Places(bs0) ==> Places(bs)[h] == Places(bs0)[h]
    ensures forall k :: 0 <= k < |hs| ==> hs[k] in Places(bs) && Places(bs)[hs[k]] == At(chunk, first + k)
    ensures forall h :: Issued(bs, h) <==> Issued(bs0, h) || h in hs
    ensures forall h :: h in hs ==> !Issued(bs0, h)
  {
    var m0, m := Places(bs0), Places(bs);
    forall h: Handle
      ensures h in m <==> h in m0 || h in hs
      ensures h in m0 ==> m[h] == m0[h]
      ensures Issued(bs, h) <==> Issued(bs0, h) || h in hs
      ensures h in hs ==> !Issued(bs0, h)
    {
      AllocateOne(bs0, bs, hs, chunk, first, h);
    }
  }

  /** Freeing, seen from one handle. */
  lemma FreeSeen(bs0: seq<Block>, bs: seq<Block>, hs: set<Handle>, h: Handle)
    requires BlocksOk(bs0) && BlocksOk(bs) && Freed(bs0, bs, hs)
    requires forall d :: d in hs ==> d.version % 2 == 1
    ensures Live(bs, h) <==> Live(bs0, h) && h !in hs
    ensures Issued(bs, h) <==> Issued(bs0, h)
    ensures Live(bs, h) ==> PlaceOf(bs, h.index) == PlaceOf(bs0, h.index)
  {
    if 0 <= h.index < Capacity {
      var was := Handle(h.index, Version(bs0, h.index));
      assert was in hs ==> was.version % 2 == 1;
      assert h.version == Version(bs0, h.index) ==> h == was;
    }
  }

  /** Freeing: exactly the listed handles stop being live, and what was issued stays issued. */
  lemma FreePlaces(bs0: seq<Block>, bs: seq<Block>, hs: set<Handle>)
    requires BlocksOk(bs0) && BlocksOk(bs) && Freed(bs0, bs, hs)
    requires forall h :: h in hs ==> h.version % 2 == 1
    ensures Places(bs) == Places(bs0) - hs
    ensures forall h :: Issued(bs, h) <==> Issued(bs0, h)
  {
    var m0, m := Places(bs0), Places(bs);
    forall h: Handle
      ensures h in m <==> h in m0 && h !in hs
      ensures h in m ==> m[h] == m0[h]
      ensures Issued(bs, h) <==> Issued(bs0, h)
    {
      FreeSeen(bs0, bs, hs, h);
    }
  }

  // Whole runs.

  /** One call on the store, with the handles it handed out. */
  datatype Event = Allocate(hs: seq<Handle>) | Deallocate(freed: set<Handle>)

  ghost predicate IsStep(bs0: seq<Block>, e: Event, bs: seq<Block>)
    requires BlocksOk(bs0) && BlocksOk(bs)
  {
    match e
    case Allocate(hs) =>
      exists chunk: nat, first: nat :: HandedOut(bs0, bs, hs, chunk, first) && OnlyChanged(bs0, bs, hs)
    case Deallocate(freed) => Freed(bs0, bs, freed) && forall h :: h in freed ==> h.version % 2 == 1
  }

  ghost predicate IsRun(bss: seq<seq<Block>>, events: seq<Event>) {
    && |bss| == |events| + 1
    && (forall k :: 0 <= k < |bss| ==> BlocksOk(bss[k]))
    && forall k :: 0 <= k < |events| ==> IsStep(bss[k], events[k], bss[k + 1])
  }

  lemma StepKeepsIssued(bs0: seq<Block>, e: Event, bs: seq<Block>)
    requires BlocksOk(bs0) && BlocksOk(bs) && IsStep(bs0, e, bs)
    ensures forall h :: Issued(bs0, h) ==> Issued(bs, h)
    ensures e.Allocate? ==> forall h :: h in e.hs ==> !Issued(bs0, h) && Issued(bs, h)
  {
    match e
    case Allocate(hs) =>
      var chunk: nat, first: nat :| HandedOut(bs0, bs, hs, chunk, first) && OnlyChanged(bs0, bs, hs);
      AllocatePlaces(bs0, bs, hs, chunk, first);
    case Deallocate(freed) =>
      FreePlaces(bs0, bs, freed);
  }

  /** Once issued, a handle stays issued. */
  lemma {:induction false} IssuedForever(bss: seq<seq<Block>>, events: seq<Event>, i: nat, j: nat, h: Handle)
    requires IsRun(bss, events) && i <= j < |bss| && Issued(bss[i], h)
    ensures Issued(bss[j], h)
    decreases j - i
  {
    if i < j {
      StepKeepsIssued(bss[i], events[i], bss[i + 1]);
      IssuedForever(bss, events, i + 1, j, h);
    }
  }

  /** Over any run, no handle is handed out by two different calls. */
  lemma NeverReissued(bss: seq<seq<Block>>, events: seq<Event>, i: nat, j: nat, h: Handle)
    requires IsRun(bss, events) && i < j < |events|
    requires events[i].Allocate? && events[j].Allocate? && h in events[i].hs
    ensures h !in events[j].hs
  {
    StepKeepsIssued(bss[i], events[i], bss[i + 1]);
    IssuedForever(bss, events, i + 1, j, h);
    StepKeepsIssued(bss[j], events[j], bss[j + 1]);
  }

  /** A slot taken, freed and taken again: the first handle was issued and is stale, and the slot is another's now. In
      between, the slot's even version with the place still recorded passes for an existing handle. */
  lemma SlotHistory(bs: seq<Block>, p: Place, q: Place)
    requires BlocksOk(bs) && p != Nowhere
    ensures var b1 := TakeSlot(FreshBlock(), 0, p); var b2 := FreeSlot(b1, 0, 1); var b3 := TakeSlot(b2, 0, q);
      var bs2, bs3 := bs[0 := b2], bs[0 := b3];
      && BlocksOk(bs2) && !Live(bs2, Handle(0, 2)) && Version(bs2, 0) == 2 && PlaceOf(bs2, 0) == p
      && BlocksOk(bs3) && Issued(bs3, Handle(0, 1)) && !Live(bs3, Handle(0, 1))
      && Live(bs3, Handle(0, 3)) && PlaceOf(bs3, 0) == q
  {
    var b1 := TakeSlot(FreshBlock(), 0, p);
    var b2 := FreeSlot(b1, 0, 1);
    var b3 := TakeSlot(b2, 0, q);
    SetBlock(bs, 0, b2, 0);
    SetBlock(bs, 0, b3, 0);
  }

  class Store {
    var entityCount: seq<nat>
    var dataBlocks: seq<Block>

    ghost predicate Valid()
      reads this
    {
      && BlocksOk(dataBlocks) && |entityCount| == BlockCount
      && forall b :: 0 <= b < BlockCount ==> entityCount[b] == BitCount(dataBlocks[b]) <= EntitiesInBlock
    }

    constructor ()
      ensures Valid() && Places(dataBlocks) == map[]
      ensures forall h :: !Issued(dataBlocks, h)
    {
      entityCount := seq(BlockCount, _ => 0);
      dataBlocks := seq(BlockCount, _ => Absent);
    }

    /** True when the version is the slot's current one and the slot has a chunk. */
    predicate Exists(h: Handle)
      requires Valid()
      reads this
    {
      && 0 <= h.index < Capacity
      && dataBlocks[BlockOf(h.index)].Block?
      && Version(dataBlocks, h.index) == h.version
      && PlaceOf(dataBlocks, h.index) != Nowhere
    }

    /** The place recorded for the handle's slot; fails if the slot is not allocated. */
    method GetEntityInChunk(h: Handle) returns (ok: bool, p: Place)
      requires Valid()
      ensures ok <==> 0 <= h.index < Capacity && Version(dataBlocks, h.index) % 2 == 1
      ensures ok ==> p == PlaceOf(dataBlocks, h.index)
      ensures h in Places(dataBlocks) ==> ok && p == Places(dataBlocks)[h]
    {
      p := Nowhere;
      ok := 0 <= h.index < Capacity && dataBlocks[BlockOf(h.index)].Block?
        && dataBlocks[BlockOf(h.index)].bits[SlotOf(h.index)];
      if ok {
        p := dataBlocks[BlockOf(h.index)].places[SlotOf(h.index)];
      }
    }

    /** Records a place for the handle's slot; fails, changing nothing, if the slot is not allocated. */
    method SetEntityInChunk(h: Handle, p: Place) returns (ok: bool)
      requires Valid()
      modifies this
      ensures Valid() && entityCount == old(entityCount)
      ensures ok <==> 0 <= h.index < Capacity && Version(old(dataBlocks), h.index) % 2 == 1
      ensures !ok ==> dataBlocks == old(dataBlocks)
      ensures forall i :: 0 <= i < Capacity ==> Version(dataBlocks, i) == Version(old(dataBlocks), i)
      ensures h in old(Places(dataBlocks)) ==> ok && Places(dataBlocks) == old(Places(dataBlocks))[h := p]
    {
      ghost var bs0 := dataBlocks;
      ok := 0 <= h.index < Capacity && dataBlocks[BlockOf(h.index)].Block?
        && dataBlocks[BlockOf(h.index)].bits[SlotOf(h.index)];
      if ok {
        var b, s := BlockOf(h.index), SlotOf(h.index);
        var block := dataBlocks[b];
        var r := block.(places := block.places[s := p]);
        dataBlocks := dataBlocks[b := r];
        MovePlace(bs0, h, p);
      }
    }

    /** Hands out n handles for rows first, first + 1, ... of the chunk; when the store is full it stops
        with what it could hand out. */
    method AllocateEntities(n: nat, chunk: nat, first: nat) returns (ok: bool, hs: seq<Handle>)
      requires Valid()
      modifies this
      ensures Valid()
      ensures ok <==> n <= FreeFrom(old(entityCount), 0) && 0 < FreeFrom(old(entityCount), 0)
      ensures |hs| <= n && |hs| == if ok then n else FreeFrom(old(entityCount), 0)
      ensures FreeFrom(entityCount, 0) == FreeFrom(old(entityCount), 0) - |hs|
      ensures HandedOut(old(dataBlocks), dataBlocks, hs, chunk, first)
      ensures OnlyChanged(old(dataBlocks), dataBlocks, hs) && LowestTaken(dataBlocks, hs)
    {
      ghost var bs0, counts := dataBlocks, entityCount;
      hs := [];
      var i := 0;
      while i < BlockCount
        invariant 0 <= i <= BlockCount && |hs| <= n && Valid()
        invariant forall b :: i <= b < BlockCount ==> entityCount[b] == counts[b] && dataBlocks[b] == bs0[b]
        invariant |hs| + FreeFrom(counts, i) == FreeFrom(counts, 0)
        invariant FreeFrom(entityCount, 0) == FreeFrom(counts, 0) - |hs|
        invariant |hs| < n || |hs| == 0
        invariant Progress(bs0, dataBlocks, hs, chunk, first, i)
        invariant LowestTaken(dataBlocks, hs) && FullBelow(dataBlocks, i)
      {
        if entityCount[i] != EntitiesInBlock {
          hs := AllocateInBlock(bs0, i, n, hs, chunk, first);
          if |hs| == n {
            return true, hs;
          }
        }
        BlockFull(dataBlocks, i);
        i := i + 1;
      }
      ok := false;
    }

    /** One turn of the loop over blocks: takes what block i can give of the n - |hs| still wanted. */
    method AllocateInBlock(ghost bs0: seq<Block>, i: nat, n: nat, hs: seq<Handle>, chunk: nat, first: nat)
      returns (all: seq<Handle>)
      requires Valid() && i < BlockCount && |hs| <= n && BlocksOk(bs0)
      requires entityCount[i] < EntitiesInBlock && dataBlocks[i] == bs0[i]
      requires Progress(bs0, dataBlocks, hs, chunk, first, i) && FullBelow(dataBlocks, i)
      modifies this
      ensures Valid() && Progress(bs0, dataBlocks, all, chunk, first, i + 1)
      ensures FreeFrom(entityCount, 0) == FreeFrom(old(entityCount), 0) - (|all| - |hs|)
      ensures var room := EntitiesInBlock - old(entityCount[i]);
        |all| == if room < n - |hs| then |hs| + room else n
      ensures LowestTaken(dataBlocks, all) && FullBelow(dataBlocks, i)
      ensures |all| < n ==> entityCount[i] == EntitiesInBlock
      ensures forall b :: 0 <= b < BlockCount && b != i ==>
        entityCount[b] == old(entityCount[b]) && dataBlocks[b] == old(dataBlocks[b])
    {
      hide HandedOut, OnlyChanged, Filled, OnlyFilled, LowestTaken, FullBelow;
      var blockCount := entityCount[i];
      var blockAvailable := EntitiesInBlock - blockCount;
      var count := if blockAvailable < n - |hs| then blockAvailable else n - |hs|;
      var filled, more := FillBlock(Created(dataBlocks[i]), i, count, chunk, first + |hs|);
      AppendFilled(bs0, dataBlocks, i, filled, hs, more, chunk, first);
      AppendOnly(bs0, dataBlocks, i, filled, hs, more);
      FreeSet(entityCount, i, blockCount + count, 0);
      LowestInBlock(dataBlocks, i, filled, hs, more);
      dataBlocks := dataBlocks[i := filled];
      entityCount := entityCount[i := blockCount + count];
      all := hs + more;
    }

    /** Frees the listed handles, one maximal run of consecutive slots at a time. Stops at the first handle
        whose index is in no block. */
    method DeallocateEntities(hs: seq<Handle>) returns (ok: bool, processed: nat)
      requires Valid()
      requires forall k :: 0 <= k < |hs| ==> hs[k].version % 2 == 1
      modifies this
      ensures Valid()
      ensures processed <= |hs| && (ok <==> processed == |hs|)
      ensures forall k :: 0 <= k < processed ==> 0 <= hs[k].index < Capacity
      ensures !ok ==> !(0 <= hs[processed].index < Capacity)
      ensures Freed(old(dataBlocks), dataBlocks, Prefix(hs, processed))
    {
      ghost var bs0 := dataBlocks;
      var i := 0;
      while i < |hs|
        invariant 0 <= i <= |hs| && Valid()
        invariant forall k :: 0 <= k < i ==> 0 <= hs[k].index < Capacity
        invariant Freed(bs0, dataBlocks, Prefix(hs, i))
      {
        var rangeStart := i;
        var startIndex := hs[i].index;
        if !(0 <= startIndex < Capacity) {
          return false, i;
        }
        var blockIndex := BlockOf(startIndex);
        i := i + 1;
        while i < |hs| && 0 <= hs[i].index < Capacity && BlockOf(hs[i].index) == blockIndex
          && hs[i].index == hs[i - 1].index + 1
          invariant rangeStart < i <= |hs|
          invariant forall k :: rangeStart <= k < i ==>
            0 <= hs[k].index < Capacity && hs[k].index == startIndex + (k - rangeStart)
              && BlockOf(hs[k].index) == blockIndex
        {
          i := i + 1;
        }
        FreeRange(bs0, hs, rangeStart, i, blockIndex);
      }
      return true, i;
    }

    /** Frees a run of consecutive slots of one block; a block that counts no entity is skipped. */
    method FreeRange(ghost bs0: seq<Block>, hs: seq<Handle>, rangeStart: nat, rangeEnd: nat, blockIndex: nat)
      requires Valid() && BlocksOk(bs0) && blockIndex < BlockCount && rangeStart < rangeEnd <= |hs|
      requires forall k :: 0 <= k < |hs| ==> hs[k].version % 2 == 1
      requires forall k :: rangeStart <= k < rangeEnd ==>
        && 0 <= hs[k].index < Capacity && BlockOf(hs[k].index) == blockIndex
        && hs[k].index == hs[rangeStart].index + (k - rangeStart)
      requires Freed(bs0, dataBlocks, Prefix(hs, rangeStart))
      modifies this
      ensures Valid() && Freed(bs0, dataBlocks, Prefix(hs, rangeEnd))
    {
      var blockCount := entityCount[blockIndex];
      if blockCount == 0 {
        SkipRange(bs0, dataBlocks, hs, rangeStart, rangeEnd, blockIndex);
        return;
      }
      var bs := dataBlocks;
      ghost var start, counts := dataBlocks, entityCount;
      var k := rangeStart;
      while k < rangeEnd
        invariant rangeStart <= k <= rangeEnd
        invariant BlocksOk(bs) && bs[blockIndex].Block? && blockCount == BitCount(bs[blockIndex])
        invariant entityCount == counts
        invariant forall b :: 0 <= b < BlockCount && b != blockIndex ==> bs[b] == start[b]
        invariant Freed(bs0, bs, Prefix(hs, k))
      {
        var block := bs[blockIndex];
        var indexInBlock := SlotOf(hs[k].index);
        PrefixStep(hs, k);
        FreeOne(bs0, bs, Prefix(hs, k), hs[k]);
        if block.versions[indexInBlock] == hs[k].version {
          blockCount := blockCount - 1;
        }
        bs := bs[blockIndex := FreeSlot(block, indexInBlock, hs[k].version)];
        k := k + 1;
      }
      CountBound(bs[blockIndex].bits);
      dataBlocks := bs;
      entityCount := entityCount[blockIndex := blockCount];
    }
  }
}
