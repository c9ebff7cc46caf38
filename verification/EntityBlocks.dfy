/** Blocks of entity slots: what a block stores, and what taking and freeing one slot does to it.
    Both the sequential entity store and the concurrent block protocol are built from these. */
module EntityBlocks {

  /** A versioned handle. A slot is allocated exactly while its version is odd. */
  datatype Handle = Handle(index: int, version: nat)

  /** Where an entity's row is: a chunk and a row index in it, or no chunk at all. */
  datatype Place = Nowhere | At(chunk: nat, row: nat)

  const EntitiesInBlock: nat := 8192
  const BlockCount: nat := 4096
  const Capacity: nat := 8192 * 4096

  /** A data block is created the first time an entity is allocated in it. */
  datatype Block = Absent | Block(bits: seq<bool>, versions: seq<nat>, places: seq<Place>)

  function FreshBlock(): (b: Block)
    ensures b.Block? && BlockOk(b) && BitCount(b) == 0
    ensures forall s :: 0 <= s < EntitiesInBlock ==> b.versions[s] == 0
  {
    var clear := seq(EntitiesInBlock, _ => false);
    NoneSet(clear);
    Block(clear, seq(EntitiesInBlock, _ => 0), seq(EntitiesInBlock, _ => Nowhere))
  }

  /** The block an allocation works on. */
  function Created(b: Block): (r: Block)
    requires BlockOk(b)
    ensures r.Block? && BlockOk(r) && BitCount(r) == BitCount(b)
  {
    if b.Absent? then FreshBlock() else b
  }

  predicate BlockOk(b: Block) {
    b.Block? ==>
      && |b.bits| == |b.versions| == |b.places| == EntitiesInBlock
      && forall s :: 0 <= s < EntitiesInBlock ==> (b.bits[s] <==> b.versions[s] % 2 == 1)
  }

  /** The number of set bits. */
  function CountTrue(bits: seq<bool>): nat {
    if bits == [] then 0 else CountTrue(bits[..|bits|-1]) + if bits[|bits|-1] then 1 else 0
  }

  function BitCount(b: Block): nat {
    if b.Absent? then 0 else CountTrue(b.bits)
  }

  /** Sets the bit, makes the version odd and records the row. */
  function TakeSlot(b: Block, s: nat, p: Place): (r: Block)
    requires b.Block? && BlockOk(b) && s < EntitiesInBlock && !b.bits[s]
    ensures BlockOk(r) && BitCount(r) == BitCount(b) + 1
  {
    SetBit(b.bits, s, true);
    Block(b.bits[s := true], b.versions[s := b.versions[s] + 1], b.places[s := p])
  }

  /** Frees the slot if the version matches; a stale handle changes nothing. Parity is not looked at: an even version
      that is the slot's current one makes the version odd again, with the bit clear. */
  function FreeSlot(b: Block, s: nat, version: nat): (r: Block)
    requires b.Block? && BlockOk(b) && s < EntitiesInBlock
    ensures BlockOk(r) <==> b.versions[s] != version || version % 2 == 1
    ensures BitCount(r) == BitCount(b) - if b.versions[s] == version && version % 2 == 1 then 1 else 0
  {
    if b.versions[s] == version then
      ClearBit(b.bits, s);
      var freed: Block := b.(bits := b.bits[s := false], versions := b.versions[s := version + 1]);
      assert !freed.bits[s] && freed.versions[s] == version + 1;
      freed
    else b
  }

  lemma ClearBit(bits: seq<bool>, s: nat)
    requires s < |bits|
    ensures CountTrue(bits[s := false]) == CountTrue(bits) - if bits[s] then 1 else 0
  {
    if bits[s] { SetBit(bits, s, false); } else { assert bits[s := false] == bits; }
  }

  lemma {:induction false} SetBit(bits: seq<bool>, s: nat, v: bool)
    requires s < |bits| && bits[s] != v
    ensures CountTrue(bits[s := v]) == CountTrue(bits) + if v then 1 else -1
  {
    var n := |bits| - 1;
    if s == n {
      assert bits[s := v][..n] == bits[..n];
    } else {
      assert bits[s := v][..n] == bits[..n][s := v];
      SetBit(bits[..n], s, v);
    }
  }

  lemma {:induction false} NoneSet(bits: seq<bool>)
    requires forall s :: 0 <= s < |bits| ==> !bits[s]
    ensures CountTrue(bits) == 0
  {
    if bits != [] { NoneSet(bits[..|bits|-1]); }
  }

  /** The count reaches the length exactly when no bit is clear. */
  lemma {:induction false} CountBound(bits: seq<bool>)
    ensures CountTrue(bits) <= |bits|
    ensures CountTrue(bits) == |bits| <==> forall s :: 0 <= s < |bits| ==> bits[s]
  {
    if bits != [] {
      var n := |bits| - 1;
      CountBound(bits[..n]);
      assert forall s :: 0 <= s < n ==> bits[..n][s] == bits[s];
    }
  }

  // The flat view: slots addressed by entity index over all blocks.

  function BlockOf(i: int): (b: int)
    requires 0 <= i < Capacity
    ensures 0 <= b < BlockCount
  {
    i / 8192
  }

  function SlotOf(i: int): (s: int)
    requires 0 <= i < Capacity
    ensures 0 <= s < EntitiesInBlock && i == BlockOf(i) * 8192 + s
  {
    i % 8192
  }

  predicate BlocksOk(bs: seq<Block>) {
    |bs| == BlockCount && forall b :: 0 <= b < BlockCount ==> BlockOk(bs[b])
  }

  /** The version stored for an entity index; a slot of a block not yet created has version 0. */
  function Version(bs: seq<Block>, i: int): nat
    requires BlocksOk(bs) && 0 <= i < Capacity
  {
    var b := bs[BlockOf(i)];
    if b.Absent? then 0 else b.versions[SlotOf(i)]
  }

  function PlaceOf(bs: seq<Block>, i: int): Place
    requires BlocksOk(bs) && 0 <= i < Capacity
  {
    var b := bs[BlockOf(i)];
    if b.Absent? then Nowhere else b.places[SlotOf(i)]
  }

  /** A handle was handed out at some time: its version is odd and not above the slot's. */
  predicate Issued(bs: seq<Block>, h: Handle)
    requires BlocksOk(bs)
  {
    0 <= h.index < Capacity && h.version % 2 == 1 && h.version <= Version(bs, h.index)
  }

  /** A handle is live: it is the one its slot was last allocated under. */
  predicate Live(bs: seq<Block>, h: Handle)
    requires BlocksOk(bs)
  {
    0 <= h.index < Capacity && h.version % 2 == 1 && h.version == Version(bs, h.index)
  }

  /** The live handles with their rows: the abstract value of an entity store. */
  function Places(bs: seq<Block>): (m: map<Handle, Place>)
    requires BlocksOk(bs)
    ensures forall h :: h in m <==> Live(bs, h)
    ensures forall h :: h in m ==> 0 <= h.index < Capacity && m[h] == PlaceOf(bs, h.index)
  {
    map i | 0 <= i < Capacity && Version(bs, i) % 2 == 1 :: Handle(i, Version(bs, i)) := PlaceOf(bs, i)
  }

  /** Replacing block i changes the flat view there and nowhere else. */
  lemma SetBlock(bs: seq<Block>, i: nat, b: Block, j: int)
    requires BlocksOk(bs) && i < BlockCount && b.Block? && BlockOk(b) && 0 <= j < Capacity
    ensures BlocksOk(bs[i := b])
    ensures BlockOf(j) == i ==>
      && 0 <= j - 8192 * i < EntitiesInBlock
      && Version(bs[i := b], j) == b.versions[j - 8192 * i] && PlaceOf(bs[i := b], j) == b.places[j - 8192 * i]
    ensures BlockOf(j) != i ==> Version(bs[i := b], j) == Version(bs, j) && PlaceOf(bs[i := b], j) == PlaceOf(bs, j)
  {
  }
}
