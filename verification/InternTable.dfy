/** The reference-counted table of distinct values of one shared component type
    (src/ECS/SharedComponentStore.cpp). Dead slots are chained through their version field. */
module InternTable {
  import opened Probing
  import opened Collections

  const InitialCapacity: nat := 0x20
  const MaximumSize: nat := 0xFFFF         // the last index of an element
  const MaximumCapacity: nat := 0x2_0000
  const InvalidIndex: nat := 0xFFFF_FFFF

  datatype Info = Info(referenceCount: nat, version: nat, hash: nat)

  /** The values of the slots that are referenced. */
  function LiveKeys(infos: seq<Info>, buffer: seq<Key>, count: nat): (m: map<nat, Key>)
    requires count <= |infos| == |buffer|
  {
    map e | 0 <= e < count && infos[e].referenceCount > 0 :: buffer[e]
  }

  predicate Dead(infos: seq<Info>, e: nat) {
    e < |infos| && infos[e].referenceCount == 0
  }

  function NextFree(free: seq<nat>, i: nat): nat {
    if i < |free| then free[i] else InvalidIndex
  }

  /** The i-th chained slot is dead and names the next one in its version field. */
  predicate Link(infos: seq<Info>, free: seq<nat>, i: nat)
    requires i < |free|
  {
    Dead(infos, free[i]) && infos[free[i]].version == NextFree(free, i + 1)
  }

  /** free lists the chained dead slots, first to last: all of them, each once. */
  ghost predicate Chained(infos: seq<Info>, count: nat, head: nat, free: seq<nat>)
    requires count <= |infos|
  {
    && head == NextFree(free, 0)
    && (forall i {:trigger Link(infos, free, i)} :: 0 <= i < |free| ==> Link(infos, free, i))
    && (forall i :: 0 <= i < |free| ==> free[i] < count)
    && (forall i, j :: 0 <= i < j < |free| ==> free[i] != free[j])
    && (forall e {:trigger Dead(infos, e)} :: 0 <= e < count && Dead(infos, e) ==> e in free)
  }

  /** What the slots hold: element 0 is pinned, live values are distinct and carry their hash, nothing is live
      above the count, and the dead slots below it are chained. */
  ghost predicate SlotsOk(hash: Key -> nat, infos: seq<Info>, buffer: seq<Key>, count: nat, head: nat, free: seq<nat>) {
    && 0 < count < |infos| == |buffer| <= MaximumCapacity
    && infos[0].referenceCount > 0
    && Chained(infos, count, head, free)
    && (forall e, f :: 0 <= e < f < count && infos[e].referenceCount > 0 && infos[f].referenceCount > 0 ==>
          buffer[e] != buffer[f])
    && (forall e :: 0 <= e < count && infos[e].referenceCount > 0 ==> infos[e].hash == HashCode(hash(buffer[e])))
    && (forall e :: count <= e < |infos| ==> infos[e].referenceCount == 0)
  }

  /** The hash part files exactly the live elements under their values. */
  ghost predicate FiledOk(hash: Key -> nat, keys: map<nat, Key>, hashes: seq<nat>, indecies: seq<nat>,
                          place: map<nat, int>) {
    && Linked(hash, keys, hashes, indecies, place) && BackLinked(hashes, indecies, place)
    && Entries(hashes, indecies) == keys.Keys
    && CountFree(hashes) == |hashes| - |keys|
  }

  /** A live element whose reference count stays positive. */
  lemma Recount(hash: Key -> nat, infos: seq<Info>, buffer: seq<Key>, count: nat, head: nat, free: seq<nat>, e: nat,
                n: nat)
    requires SlotsOk(hash, infos, buffer, count, head, free) && e < count && infos[e].referenceCount > 0 && n > 0
    ensures var is1 := infos[e := infos[e].(referenceCount := n)];
      SlotsOk(hash, is1, buffer, count, head, free) && LiveKeys(is1, buffer, count) == LiveKeys(infos, buffer, count)
  {
    var is1 := infos[e := infos[e].(referenceCount := n)];
    forall i | 0 <= i < |free| ensures Link(is1, free, i) { assert Link(infos, free, i); }
    forall f | 0 <= f < count && Dead(is1, f) ensures f in free { assert Dead(infos, f); }
  }

  function Stamped(infos: seq<Info>, e: nat, v: nat): seq<Info>
    requires e < |infos|
  {
    infos[e := infos[e].(version := v)]
  }

  /** A live element gets another version; the chain runs through dead ones only. */
  lemma Restamp(hash: Key -> nat, infos: seq<Info>, buffer: seq<Key>, count: nat, head: nat, free: seq<nat>, e: nat,
                v: nat)
    requires SlotsOk(hash, infos, buffer, count, head, free) && e < count && infos[e].referenceCount > 0
    ensures var is1 := Stamped(infos, e, v);
      SlotsOk(hash, is1, buffer, count, head, free) && LiveKeys(is1, buffer, count) == LiveKeys(infos, buffer, count)
  {
    var is1 := Stamped(infos, e, v);
    forall i | 0 <= i < |free| ensures Link(is1, free, i) { assert Link(infos, free, i); }
    forall f | 0 <= f < count && Dead(is1, f) ensures f in free { assert Dead(infos, f); }
  }

  /** Only a live element may be stamped: with a new version in a dead one no list is chained any more. */
  lemma OnlyLiveStamped(infos: seq<Info>, count: nat, head: nat, e: nat, v: nat, free: seq<nat>)
    requires e < count <= |infos| && count <= v != InvalidIndex
    requires Chained(Stamped(infos, e, v), count, head, free)
    ensures !Dead(infos, e)
  {
    var is1 := Stamped(infos, e, v);
    forall i | 0 <= i < |free| ensures free[i] != e {
      assert Link(is1, free, i);
    }
    assert Dead(is1, e) ==> e in free;
  }

  /** The head of the chain comes to life. */
  lemma PopFree(infos: seq<Info>, count: nat, head: nat, free: seq<nat>, info: Info)
    requires count <= |infos| && Chained(infos, count, head, free) && free != [] && info.referenceCount > 0
    ensures Link(infos, free, 0)
    ensures Chained(infos[head := info], count, infos[head].version, free[1..])
  {
    assert Link(infos, free, 0);
    var is1, rest := infos[head := info], free[1..];
    forall i | 0 <= i < |rest| ensures Link(is1, rest, i) {
      assert Link(infos, free, i + 1);
      assert rest[i] == free[i + 1] != free[0];
      assert NextFree(rest, i + 1) == NextFree(free, i + 2);
    }
    forall e | 0 <= e < count && Dead(is1, e) ensures e in rest {
      assert Dead(infos, e) && e != free[0];
      var i :| 0 <= i < |free| && free[i] == e;
      assert rest[i - 1] == e;
    }
  }

  /** A live element dies and becomes the head of the chain. */
  lemma PushFree(infos: seq<Info>, count: nat, head: nat, free: seq<nat>, e: nat, info: Info)
    requires count <= |infos| && Chained(infos, count, head, free) && e < count && !Dead(infos, e)
    requires info.referenceCount == 0 && info.version == head
    ensures Chained(infos[e := info], count, e, [e] + free)
  {
    var is1, all := infos[e := info], [e] + free;
    forall i | 0 <= i < |free| ensures free[i] != e {
      assert Link(infos, free, i);
    }
    forall i | 0 <= i < |all| ensures Link(is1, all, i) {
      assert NextFree(all, i + 1) == NextFree(free, i);
      if i > 0 {
        assert Link(infos, free, i - 1) && all[i] == free[i - 1];
      }
    }
    forall f | 0 <= f < count && Dead(is1, f) ensures f in all {
      if f != e { assert Dead(infos, f); }
    }
  }

  /** No live slot holds a value that is not a live value. */
  lemma NotHeld(infos: seq<Info>, buffer: seq<Key>, count: nat, data: Key)
    requires count <= |infos| == |buffer| && data !in LiveKeys(infos, buffer, count).Values
    ensures forall f :: 0 <= f < count && infos[f].referenceCount > 0 ==> buffer[f] != data
  {
    var keys := LiveKeys(infos, buffer, count);
    forall f | 0 <= f < count && infos[f].referenceCount > 0 ensures buffer[f] != data {
      assert f in keys && keys[f] in keys.Values;
    }
  }

  /** A value that is not live is written to the head of the chain. */
  lemma NewFromChain(hash: Key -> nat, infos: seq<Info>, buffer: seq<Key>, count: nat, head: nat, free: seq<nat>,
                     info: Info, data: Key)
    requires SlotsOk(hash, infos, buffer, count, head, free) && free != []
    requires info.referenceCount > 0 && info.hash == HashCode(hash(data))
    requires data !in LiveKeys(infos, buffer, count).Values
    ensures head < count && Dead(infos, head)
    ensures SlotsOk(hash, infos[head := info], buffer[head := data], count, infos[head].version, free[1..])
    ensures LiveKeys(infos[head := info], buffer[head := data], count) == LiveKeys(infos, buffer, count)[head := data]
  {
    NotHeld(infos, buffer, count, data);
    PopFree(infos, count, head, free, info);
  }

  /** A value that is not live is written to the slot above the count. */
  lemma NewAtTop(hash: Key -> nat, infos: seq<Info>, buffer: seq<Key>, count: nat, head: nat, free: seq<nat>,
                 info: Info, data: Key)
    requires SlotsOk(hash, infos, buffer, count, head, free) && count + 1 < |infos|
    requires info.referenceCount > 0 && info.hash == HashCode(hash(data))
    requires data !in LiveKeys(infos, buffer, count).Values
    ensures SlotsOk(hash, infos[count := info], buffer[count := data], count + 1, head, free)
    ensures LiveKeys(infos[count := info], buffer[count := data], count + 1) ==
      LiveKeys(infos, buffer, count)[count := data]
  {
    NotHeld(infos, buffer, count, data);
    var is1 := infos[count := info];
    forall i | 0 <= i < |free| ensures Link(is1, free, i) { assert Link(infos, free, i); }
    forall f | 0 <= f < count + 1 && Dead(is1, f) ensures f in free { assert Dead(infos, f); }
  }

  /** The last reference of an element goes, and the element joins the chain. */
  lemma DeadToChain(hash: Key -> nat, infos: seq<Info>, buffer: seq<Key>, count: nat, head: nat, free: seq<nat>, e: nat)
    requires SlotsOk(hash, infos, buffer, count, head, free) && 0 < e < count && !Dead(infos, e)
    ensures var is1 := infos[e := infos[e].(referenceCount := 0, version := head)];
      && SlotsOk(hash, is1, buffer, count, e, [e] + free)
      && LiveKeys(is1, buffer, count) == Without(LiveKeys(infos, buffer, count), e)
  {
    PushFree(infos, count, head, free, e, infos[e].(referenceCount := 0, version := head));
  }

  /** The last reference of the top element goes, and the count is lowered past it. */
  lemma DeadAtTop(hash: Key -> nat, infos: seq<Info>, buffer: seq<Key>, count: nat, head: nat, free: seq<nat>)
    requires SlotsOk(hash, infos, buffer, count, head, free) && 1 < count && !Dead(infos, count - 1)
    ensures var is1 := infos[count - 1 := infos[count - 1].(referenceCount := 0)];
      && SlotsOk(hash, is1, buffer, count - 1, head, free)
      && LiveKeys(is1, buffer, count - 1) == Without(LiveKeys(infos, buffer, count), count - 1)
  {
    var is1 := infos[count - 1 := infos[count - 1].(referenceCount := 0)];
    forall i | 0 <= i < |free| ensures free[i] < count - 1 { assert Link(infos, free, i); }
    forall i | 0 <= i < |free| ensures Link(is1, free, i) { assert Link(infos, free, i); }
    forall f | 0 <= f < count - 1 && Dead(is1, f) ensures f in free { assert Dead(infos, f); }
  }

  lemma LiveBound(infos: seq<Info>, buffer: seq<Key>, count: nat)
    requires count <= |infos| == |buffer|
    ensures |LiveKeys(infos, buffer, count)| <= count
  {
    var m := LiveKeys(infos, buffer, count);
    SubsetSize(m.Keys, Below(count));
    assert |m| == |m.Keys|;
  }

  /** The block of one type: what the source calls its chunk. */
  datatype Chunk = Chunk(count: nat, freeSlotIndex: nat, infos: seq<Info>, buffer: seq<Key>, hashes: seq<nat>,
                         indecies: seq<nat>)

  ghost predicate ChunkOk(hash: Key -> nat, t: Chunk, free: seq<nat>, place: map<nat, int>) {
    && SlotsOk(hash, t.infos, t.buffer, t.count, t.freeSlotIndex, free)
    && FiledOk(hash, LiveKeys(t.infos, t.buffer, t.count), t.hashes, t.indecies, place)
    && |t.hashes| == |t.infos| && PowerOfTwo(|t.infos|)
  }

  /** The live elements and their values. */
  function KeysOf(t: Chunk): map<nat, Key>
    requires t.count <= |t.infos| == |t.buffer|
  {
    LiveKeys(t.infos, t.buffer, t.count)
  }

  /** The references held on element e; 0 for a dead one. */
  function ReferencesOf(t: Chunk, e: nat): nat {
    if e < t.count && e < |t.infos| then t.infos[e].referenceCount else 0
  }

  lemma GrowSlots(hash: Key -> nat, infos: seq<Info>, buffer: seq<Key>, count: nat, head: nat, free: seq<nat>,
                  moreInfos: seq<Info>, moreBuffer: seq<Key>)
    requires SlotsOk(hash, infos, buffer, count, head, free) && |moreInfos| == |moreBuffer|
    requires |infos| + |moreInfos| <= MaximumCapacity
    requires forall i :: 0 <= i < |moreInfos| ==> moreInfos[i].referenceCount == 0
    ensures SlotsOk(hash, infos + moreInfos, buffer + moreBuffer, count, head, free)
    ensures LiveKeys(infos + moreInfos, buffer + moreBuffer, count) == LiveKeys(infos, buffer, count)
  {
    var is1 := infos + moreInfos;
    forall i | 0 <= i < |free| ensures Link(is1, free, i) { assert Link(infos, free, i); }
    forall f | 0 <= f < count && Dead(is1, f) ensures f in free { assert Dead(infos, f); }
  }

  /** The first chained slot is taken, else the one above the count; no other slot is written. */
  predicate NewSlot(t: Chunk, t1: Chunk, e: nat, info: Info) {
    && e == (if t.freeSlotIndex != InvalidIndex then t.freeSlotIndex else t.count)
    && t1.count == t.count + (if t.freeSlotIndex != InvalidIndex then 0 else 1)
    && e < |t.infos| == |t1.infos| && t1.infos[e] == info
    && forall f :: 0 <= f < |t.infos| && f != e ==> t1.infos[f] == t.infos[f]
  }

  /** The top slot is given back by lowering the count, any other becomes the first chained one. */
  predicate SlotGone(t: Chunk, t1: Chunk, e: nat) {
    if t.count == e + 1 then t1.count == e && t1.freeSlotIndex == t.freeSlotIndex
    else t1.count == t.count && t1.freeSlotIndex == e
  }

  /** Makes a dead slot live: the head of the chain, or the slot above the count if the chain is empty. */
  method TakeSlot(hash: Key -> nat, t: Chunk, ghost free: seq<nat>, ghost place: map<nat, int>, info: Info, data: Key)
    returns (e: nat, t1: Chunk, ghost free1: seq<nat>)
    requires ChunkOk(hash, t, free, place) && (t.freeSlotIndex != InvalidIndex || t.count + 1 < |t.infos|)
    requires info.referenceCount == 1 && info.hash == HashCode(hash(data)) && data !in KeysOf(t).Values
    ensures SlotsOk(hash, t1.infos, t1.buffer, t1.count, t1.freeSlotIndex, free1)
    ensures |t1.infos| == |t.infos|
    ensures e !in KeysOf(t) && KeysOf(t1) == KeysOf(t)[e := data]
    ensures forall f :: ReferencesOf(t1, f) == if f == e then 1 else ReferencesOf(t, f)
    ensures NewSlot(t, t1, e, info)
  {
    var head, count := t.freeSlotIndex, t.count;
    HeadIsSlot(t.infos, count, head, free);
    if head != InvalidIndex {
      NewFromChain(hash, t.infos, t.buffer, count, head, free, info, data);
      e, free1 := head, free[1..];
      t1 := t.(freeSlotIndex := t.infos[head].version, infos := t.infos[e := info], buffer := t.buffer[e := data]);
    } else {
      NewAtTop(hash, t.infos, t.buffer, count, head, free, info, data);
      e, free1 := count, free;
      t1 := t.(count := count + 1, infos := t.infos[e := info], buffer := t.buffer[e := data]);
    }
  }

  lemma HeadIsSlot(infos: seq<Info>, count: nat, head: nat, free: seq<nat>)
    requires count <= |infos| <= MaximumCapacity && Chained(infos, count, head, free)
    ensures head == InvalidIndex <==> free == []
  {
  }

  /** Makes a live slot dead: the top one by lowering the count, any other by chaining it. */
  method DropSlot(hash: Key -> nat, t: Chunk, ghost free: seq<nat>, ghost place: map<nat, int>, e: nat)
    returns (t1: Chunk, ghost free1: seq<nat>)
    requires ChunkOk(hash, t, free, place) && 0 < e < t.count && !Dead(t.infos, e)
    ensures SlotsOk(hash, t1.infos, t1.buffer, t1.count, t1.freeSlotIndex, free1)
    ensures t1.hashes == t.hashes && t1.indecies == t.indecies && |t1.infos| == |t.infos|
    ensures KeysOf(t1) == Without(KeysOf(t), e) && SlotGone(t, t1, e)
    ensures forall f :: ReferencesOf(t1, f) == if f == e then 0 else ReferencesOf(t, f)
  {
    if t.count == e + 1 {
      DeadAtTop(hash, t.infos, t.buffer, t.count, t.freeSlotIndex, free);
      t1 := t.(infos := t.infos[e := t.infos[e].(referenceCount := 0)], count := t.count - 1);
      free1 := free;
    } else {
      DeadToChain(hash, t.infos, t.buffer, t.count, t.freeSlotIndex, free, e);
      t1 := t.(infos := t.infos[e := t.infos[e].(referenceCount := 0, version := t.freeSlotIndex)], freeSlotIndex := e);
      free1 := [e] + free;
    }
  }

  /** insertHash for an element that was not filed. */
  method FileElement(hash: Key -> nat, ghost keys: map<nat, Key>, keys1: map<nat, Key>, hashes: seq<nat>,
                     indecies: seq<nat>,
                     ghost place: map<nat, int>, e: nat)
    returns (hs: seq<nat>, xs: seq<nat>, slot: nat)
    requires FiledOk(hash, keys, hashes, indecies, place) && |keys| < |hashes|
    requires e !in keys && e in keys1 && keys1 == keys[e := keys1[e]]
    ensures |hs| == |hashes| && FiledOk(hash, keys1, hs, xs, place[e := slot])
  {
    hide Linked, BackLinked, Entries, CountFree;
    LinkedRekeyed(hash, keys, keys1, hashes, indecies, place);
    assert |keys1| == |keys| + 1;
    hs, xs, slot := Probing.Insert(hash, keys1, hashes, indecies, place, e);
  }

  /** A filed element has an entry under its hash. */
  lemma FiledAt(hash: Key -> nat, keys: map<nat, Key>, hashes: seq<nat>, indecies: seq<nat>, place: map<nat, int>,
                e: nat, code: nat)
    requires FiledOk(hash, keys, hashes, indecies, place) && e in keys && code == HashCode(hash(keys[e]))
    ensures |hashes| == |indecies| && Reachable(hashes)
    ensures exists s :: 0 <= s < |hashes| && hashes[s] == code && indecies[s] == e
  {
    assert e in Entries(hashes, indecies);
  }

  lemma WithoutSize(keys: map<nat, Key>, e: nat)
    requires e in keys
    ensures |Without(keys, e)| == |keys| - 1 && Without(keys, e).Keys == keys.Keys - {e}
  {
    assert keys == Without(keys, e)[e := keys[e]];
  }

  lemma NothingWithout(keys: map<nat, Key>, e: nat)
    ensures e !in keys ==> Without(keys, e) == keys
  {
  }

  /** Without that entry the others are filed. */
  lemma ErasedFiled(hash: Key -> nat, keys: map<nat, Key>, hashes: seq<nat>, indecies: seq<nat>, place: map<nat, int>,
                    e: nat, slot: nat)
    requires FiledOk(hash, keys, hashes, indecies, place) && e in keys
    requires slot < |hashes| == |indecies| && Occupied(hashes[slot]) && indecies[slot] == e
    ensures FiledOk(hash, Without(keys, e), hashes[slot := SkipCode], indecies, place[e := -1])
  {
    EraseEntry(hash, keys, hashes, indecies, place, slot);
    WithoutSize(keys, e);
    hide Linked, Entries;
    LinkedRekeyed(hash, keys, Without(keys, e), hashes[slot := SkipCode], indecies, place[e := -1]);
  }

  /** removeHash of a filed element: the search always finds it. */
  method UnfileElement(hash: Key -> nat, ghost keys: map<nat, Key>, hashes: seq<nat>, indecies: seq<nat>,
                       ghost place: map<nat, int>, e: nat, code: nat)
    returns (hs: seq<nat>)
    requires 0 < |hashes| && FiledOk(hash, keys, hashes, indecies, place) && e in keys
    requires code == HashCode(hash(keys[e]))
    ensures |hs| == |hashes|
    ensures FiledOk(hash, Without(keys, e), hs, indecies, place[e := -1])
  {
    FiledAt(hash, keys, hashes, indecies, place, e, code);
    hide FiledOk, Linked, Entries;
    var r := Find(hashes, indecies, code, f => f == e);
    hs := hashes[r.slot := SkipCode];
    ErasedFiled(hash, keys, hashes, indecies, place, e, r.slot);
  }

  lemma Repack(hash: Key -> nat, t: Chunk, free: seq<nat>, hs: seq<nat>, xs: seq<nat>, place: map<nat, int>)
    requires SlotsOk(hash, t.infos, t.buffer, t.count, t.freeSlotIndex, free)
    requires FiledOk(hash, KeysOf(t), hs, xs, place) && |hs| == |t.infos| && PowerOfTwo(|t.infos|)
    ensures ChunkOk(hash, t.(hashes := hs, indecies := xs), free, place)
    ensures forall f :: ReferencesOf(t.(hashes := hs, indecies := xs), f) == ReferencesOf(t, f)
  {
  }

  /** The part of insert after the search failed. */
  method PutNew(hash: Key -> nat, t: Chunk, ghost free: seq<nat>, ghost place: map<nat, int>, version: nat, data: Key)
    returns (e: nat, t1: Chunk, ghost free1: seq<nat>, ghost place1: map<nat, int>)
    requires ChunkOk(hash, t, free, place) && (t.freeSlotIndex != InvalidIndex || t.count + 1 < |t.infos|)
    requires data !in KeysOf(t).Values
    ensures ChunkOk(hash, t1, free1, place1) && t1.count <= |t1.infos| == |t1.buffer| && |t1.infos| == |t.infos|
    ensures e !in KeysOf(t) && KeysOf(t1) == KeysOf(t)[e := data]
    ensures NewSlot(t, t1, e, Info(1, version, HashCode(hash(data))))
    ensures forall f :: ReferencesOf(t1, f) == if f == e then 1 else ReferencesOf(t, f)
  {
    LiveBound(t.infos, t.buffer, t.count);
    var t0;
    e, t0, free1 := TakeSlot(hash, t, free, place, Info(1, version, HashCode(hash(data))), data);
    var hs, xs, slot := FileElement(hash, KeysOf(t), KeysOf(t0), t.hashes, t.indecies, place, e);
    Repack(hash, t0, free1, hs, xs, place[e := slot]);
    t1 := t0.(hashes := hs, indecies := xs);
    place1 := place[e := slot];
  }

  /** The part of removeReference after the last reference is gone. */
  method PutAway(hash: Key -> nat, t: Chunk, ghost free: seq<nat>, ghost place: map<nat, int>, e: nat)
    returns (t1: Chunk, ghost free1: seq<nat>, ghost place1: map<nat, int>)
    requires ChunkOk(hash, t, free, place) && 0 < e < t.count && !Dead(t.infos, e)
    ensures ChunkOk(hash, t1, free1, place1) && |t1.infos| == |t.infos|
    ensures KeysOf(t1) == Without(KeysOf(t), e) && SlotGone(t, t1, e)
    ensures forall f :: ReferencesOf(t1, f) == if f == e then 0 else ReferencesOf(t, f)
  {
    var hs := UnfileElement(hash, KeysOf(t), t.hashes, t.indecies, place, e, t.infos[e].hash);
    var t0;
    t0, free1 := DropSlot(hash, t, free, place, e);
    Repack(hash, t0, free1, hs, t0.indecies, place[e := -1]);
    t1 := t0.(hashes := hs, indecies := t0.indecies);
    place1 := place[e := -1];
  }

  lemma EnlargedSlots(hash: Key -> nat, t: Chunk, free: seq<nat>, t1: Chunk, more: nat)
    requires SlotsOk(hash, t.infos, t.buffer, t.count, t.freeSlotIndex, free) && |t.infos| + more <= MaximumCapacity
    requires t1 == t.(infos := t.infos + seq(more, _ => Info(0, 0, 0)), buffer := t.buffer + seq(more, _ => []))
    ensures SlotsOk(hash, t1.infos, t1.buffer, t1.count, t1.freeSlotIndex, free) && |t1.infos| == |t.infos| + more
    ensures KeysOf(t1) == KeysOf(t) && forall f :: ReferencesOf(t1, f) == ReferencesOf(t, f)
  {
    hide SlotsOk, LiveKeys;
    var moreInfos, moreBuffer := seq(more, _ => Info(0, 0, 0)), seq(more, _ => []);
    GrowSlots(hash, t.infos, t.buffer, t.count, t.freeSlotIndex, free, moreInfos, moreBuffer);
    assert t.count <= |t.infos| by { InTheArrays(hash, t, free); }
  }

  lemma InTheArrays(hash: Key -> nat, t: Chunk, free: seq<nat>)
    requires SlotsOk(hash, t.infos, t.buffer, t.count, t.freeSlotIndex, free)
    ensures 0 < t.count < |t.infos| == |t.buffer|
  {
  }

  /** The part of resize that files every live element anew in arrays of that size. */
  method Refile(hash: Key -> nat, keys: map<nat, Key>, hashes: seq<nat>, indecies: seq<nat>,
                ghost place: map<nat, int>, size: nat)
    returns (hs: seq<nat>, xs: seq<nat>, ghost place1: map<nat, int>)
    requires FiledOk(hash, keys, hashes, indecies, place) && 0 < size && 2 * |keys| <= size
    ensures FiledOk(hash, keys, hs, xs, place1) && |hs| == size
  {
    var slots;
    hs, xs, slots := Rehash(hash, keys, hashes, indecies, place, size);
    place1 := place + slots;
  }

  method Enlarge(hash: Key -> nat, t: Chunk, ghost free: seq<nat>, ghost place: map<nat, int>)
    returns (t1: Chunk, ghost place1: map<nat, int>)
    requires ChunkOk(hash, t, free, place) && 2 * |t.infos| <= MaximumCapacity
    ensures ChunkOk(hash, t1, free, place1) && |t1.infos| == 2 * |t.infos|
    ensures t1.count == t.count && t1.freeSlotIndex == t.freeSlotIndex
    ensures t1.count + 1 < |t1.infos| == |t1.buffer|
    ensures KeysOf(t1) == KeysOf(t) && forall f :: ReferencesOf(t1, f) == ReferencesOf(t, f)
  {
    hide SlotsOk, FiledOk, LiveKeys, ReferencesOf;
    var n := |t.infos|;
    InTheArrays(hash, t, free);
    LiveBound(t.infos, t.buffer, t.count);
    DoublePower(n);
    var t0 := t.(infos := t.infos + seq(n, _ => Info(0, 0, 0)), buffer := t.buffer + seq(n, _ => []));
    EnlargedSlots(hash, t, free, t0, n);
    InTheArrays(hash, t0, free);
    var hs, xs;
    hs, xs, place1 := Refile(hash, KeysOf(t), t.hashes, t.indecies, place, 2 * n);
    Repack(hash, t0, free, hs, xs, place1);
    t1 := t0.(hashes := hs, indecies := xs);
  }

  /** Without a chained slot and without room: the arrays can still be doubled if the index is not too big. */
  lemma AtCapacity(hash: Key -> nat, t: Chunk, free: seq<nat>, place: map<nat, int>)
    requires ChunkOk(hash, t, free, place)
    ensures 0 < t.count < |t.infos| == |t.buffer| <= MaximumCapacity
    ensures t.count <= MaximumSize && t.count + 1 >= |t.infos| ==> 2 * |t.infos| <= MaximumCapacity
  {
  }

  /** A slot that is counted and not made live belongs to no list of dead slots. */
  lemma SlotLost(hash: Key -> nat, t: Chunk, free0: seq<nat>, place0: map<nat, int>)
    requires ChunkOk(hash, t, free0, place0) && t.freeSlotIndex == InvalidIndex
    ensures t.count < |t.infos| == |t.buffer|
    ensures var t1 := t.(count := t.count + 1);
      && KeysOf(t1) == KeysOf(t) && (forall f :: ReferencesOf(t1, f) == ReferencesOf(t, f))
      && forall free, place :: !ChunkOk(hash, t1, free, place)
  {
    var t1, e := t.(count := t.count + 1), t.count;
    assert t.infos[e].referenceCount == 0;
    forall free, place ensures !ChunkOk(hash, t1, free, place) {
      NotChained(t.infos, t1.count, free, e);
    }
  }

  method SkipSlot(hash: Key -> nat, t: Chunk, ghost free: seq<nat>, ghost place: map<nat, int>) returns (t1: Chunk)
    requires ChunkOk(hash, t, free, place) && t.freeSlotIndex == InvalidIndex
    requires t.count > MaximumSize || t.count + 1 >= |t.infos|
    ensures t.count <= |t.infos| == |t.buffer| && t1.count == t.count + 1 <= |t1.infos| == |t1.buffer|
    ensures |t1.infos| == if t.count <= MaximumSize then 2 * |t.infos| else |t.infos|
    ensures KeysOf(t1) == KeysOf(t) && forall f :: ReferencesOf(t1, f) == ReferencesOf(t, f)
    ensures forall free1, place1 :: !ChunkOk(hash, t1, free1, place1)
  {
    hide ChunkOk, KeysOf, ReferencesOf;
    AtCapacity(hash, t, free, place);
    ghost var place0 := place;
    t1 := t;
    if t.count <= MaximumSize {
      t1, place0 := Enlarge(hash, t, free, place);
    }
    SlotLost(hash, t1, free, place0);
    t1 := t1.(count := t1.count + 1);
  }

  lemma NotChained(infos: seq<Info>, count: nat, free: seq<nat>, e: nat)
    requires e < count <= |infos| <= MaximumCapacity && Dead(infos, e)
    ensures !Chained(infos, count, InvalidIndex, free)
  {
    assert free != [] ==> NextFree(free, 0) == free[0];
  }

  /** An element has a value exactly if it has references. */
  lemma LiveMeans(t: Chunk, e: nat)
    requires t.count <= |t.infos| == |t.buffer|
    ensures e in KeysOf(t) <==> ReferencesOf(t, e) > 0
    ensures e in KeysOf(t) ==> e < t.count
  {
  }

  lemma FirstSlots(hash: Key -> nat, infos: seq<Info>, buffer: seq<Key>, value: Key)
    requires 1 < |infos| == |buffer| <= MaximumCapacity && buffer[0] == value
    requires infos[0] == Info(1, 0, HashCode(hash(value)))
    requires forall e :: 0 < e < |infos| ==> infos[e].referenceCount == 0
    ensures SlotsOk(hash, infos, buffer, 1, InvalidIndex, []) && LiveKeys(infos, buffer, 1) == map[0 := value]
  {
  }

  /** The arrays with only the default value in them. */
  method FirstChunk(hash: Key -> nat, defaultValue: Key) returns (t: Chunk, ghost place: map<nat, int>)
    ensures t.count <= |t.infos| == |t.buffer| && |t.infos| == InitialCapacity && ChunkOk(hash, t, [], place)
    ensures KeysOf(t) == map[0 := defaultValue] && ReferencesOf(t, 0) == 1
  {
    hide FiledOk, SlotsOk, LiveKeys;
    var code := HashCode(hash(defaultValue));
    var infos := seq(InitialCapacity, e => if e == 0 then Info(1, 0, code) else Info(0, 0, 0));
    var buffer := seq(InitialCapacity, _ => defaultValue);
    FirstSlots(hash, infos, buffer, defaultValue);
    var none := seq(InitialCapacity, _ => 0);
    NothingFiled(hash, none);
    var hs, xs, slot := FileElement(hash, map[], map[0 := defaultValue], none, none, map[], 0);
    t := Chunk(1, InvalidIndex, infos, buffer, hs, xs);
    place := map[0 := slot];
  }

  lemma NothingFiled(hash: Key -> nat, none: seq<nat>)
    requires forall s :: 0 <= s < |none| ==> none[s] == 0
    ensures FiledOk(hash, map[], none, none, map[])
  {
    AllFree(none, |none|);
  }

  class Table {
    const hash: Key -> nat
    var chunk: Chunk
    var sharedVersion: nat
    ghost var free: seq<nat>
    ghost var place: map<nat, int>

    ghost predicate Valid()
      reads this
    {
      chunk.count <= |chunk.infos| == |chunk.buffer| && ChunkOk(hash, chunk, free, place)
    }

    function Keys(): map<nat, Key>
      requires chunk.count <= |chunk.infos| == |chunk.buffer|
      reads this
    {
      KeysOf(chunk)
    }

    function References(e: nat): nat
      reads this
    {
      ReferencesOf(chunk, e)
    }

    function Capacity(): nat
      reads this
    {
      |chunk.infos|
    }

    /** initiate: element 0 holds the default value and is pinned. */
    constructor (hash: Key -> nat, defaultValue: Key)
      ensures Valid() && this.hash == hash && Keys() == map[0 := defaultValue] && References(0) == 1
      ensures Capacity() == InitialCapacity
    {
      var t, p := FirstChunk(hash, defaultValue);
      this.hash := hash;
      chunk := t;
      sharedVersion := 0;
      free := [];
      place := p;
    }

    /** tryFind: the live element with that value. */
    method TryFind(data: Key) returns (found: bool, e: nat)
      requires Valid()
      ensures found <==> data in Keys().Values
      ensures found ==> e in Keys() && Keys()[e] == data
    {
      var keys := Keys();
      var r := Find(chunk.hashes, chunk.indecies, HashCode(hash(data)), f => f in keys && keys[f] == data);
      match r {
        case Missing =>
          found, e := false, 0;
          forall f | f in keys ensures keys[f] != data {
            assert f in Entries(chunk.hashes, chunk.indecies);
          }
        case Found(slot) =>
          found, e := true, chunk.indecies[slot];
          assert keys[e] in keys.Values;
      }
    }

    /** There is room for one more value without growing. */
    predicate Room()
      reads this
    {
      chunk.freeSlotIndex != InvalidIndex || (chunk.count <= MaximumSize && chunk.count + 1 < |chunk.infos|)
    }

    /** The element of an equal live value, with one more reference, or a dead slot made live. A new value that fills
        the arrays is lost: they are replaced by bigger ones while it is written to the old. A value beyond the last
        index is refused. Both ways the count has gone up, and no table is valid with that slot. */
    method Insert(data: Key) returns (ok: bool, e: nat)
      requires Valid()
      modifies this
      ensures old(Room() || data in Keys().Values) ==> ok && Valid() && Capacity() == old(Capacity())
      ensures data in old(Keys()).Values ==> e in old(Keys()) && old(Keys())[e] == data && Keys() == old(Keys())
      ensures data !in old(Keys()).Values && old(Room()) ==> e !in old(Keys()) && Keys() == old(Keys())[e := data]
      ensures data !in old(Keys()).Values && old(Room()) ==>
        && e == (if old(chunk.freeSlotIndex) != InvalidIndex then old(chunk.freeSlotIndex) else old(chunk.count))
        && chunk.count == old(chunk.count) + (if old(chunk.freeSlotIndex) != InvalidIndex then 0 else 1)
        && e < |chunk.infos| && chunk.infos[e].version == sharedVersion == old(sharedVersion) + 1
      ensures old(Room() || data in Keys().Values) ==>
        forall f :: 0 <= f < |chunk.infos| == |old(chunk.infos)| && (f != e || data in old(Keys()).Values) ==>
          chunk.infos[f].version == old(chunk.infos)[f].version
      ensures old(Room() || data in Keys().Values) ==> References(e) == old(References(e)) + 1
      ensures forall f :: (f == e && old(Room() || data in Keys().Values)) || References(f) == old(References(f))
      ensures !old(Room() || data in Keys().Values) ==>
        && (ok <==> e <= MaximumSize) && References(e) == 0 && e == old(chunk.count)
        && chunk.count == e + 1 <= |chunk.infos| == |chunk.buffer|
        && Keys() == old(Keys()) && forall free, place :: !ChunkOk(hash, chunk, free, place)
    {
      hide ChunkOk, KeysOf;
      var found;
      found, e := TryFind(data);
      ok := true;
      if found {
        LiveMeans(chunk, e);
        SetReferences(e, chunk.infos[e].referenceCount + 1);
      } else if Room() {
        ghost var before := chunk;
        e := InsertNew(data);
        LiveMeans(before, e);
      } else {
        e := chunk.count;
        ok := e <= MaximumSize;
        LoseSlot();
      }
    }

    /** The count goes up, and if the index is not too big the arrays are replaced by bigger ones. */
    method LoseSlot()
      requires Valid() && !Room()
      modifies this
      ensures chunk.count == old(chunk.count) + 1 <= |chunk.infos| == |chunk.buffer|
      ensures Keys() == old(Keys()) && forall f :: References(f) == old(References(f))
      ensures forall free, place :: !ChunkOk(hash, chunk, free, place)
    {
      hide ChunkOk, KeysOf, ReferencesOf;
      sharedVersion := if chunk.count <= MaximumSize then sharedVersion + 1 else sharedVersion;
      chunk := SkipSlot(hash, chunk, free, place);
    }

    method SetReferences(e: nat, n: nat)
      requires Valid() && e < chunk.count && !Dead(chunk.infos, e) && n > 0
      modifies this
      ensures Valid() && Capacity() == old(Capacity()) && Keys() == old(Keys()) && chunk.count == old(chunk.count)
      ensures chunk.freeSlotIndex == old(chunk.freeSlotIndex) && |chunk.infos| == |old(chunk.infos)|
      ensures forall f :: 0 <= f < |chunk.infos| ==> chunk.infos[f].version == old(chunk.infos)[f].version
      ensures References(e) == n && forall f :: f != e ==> References(f) == old(References(f))
    {
      Recount(hash, chunk.infos, chunk.buffer, chunk.count, chunk.freeSlotIndex, free, e, n);
      chunk := chunk.(infos := chunk.infos[e := chunk.infos[e].(referenceCount := n)]);
    }

    /** Takes a slot from the chain, or the next one above the count, and files the value. */
    method InsertNew(data: Key) returns (e: nat)
      requires Valid() && Room() && data !in Keys().Values
      modifies this
      ensures Valid() && Capacity() == old(Capacity()) && sharedVersion == old(sharedVersion) + 1
      ensures e !in old(Keys()) && Keys() == old(Keys())[e := data]
      ensures forall f :: References(f) == if f == e then 1 else old(References(f))
      ensures NewSlot(old(chunk), chunk, e, Info(1, sharedVersion, HashCode(hash(data))))
    {
      hide ChunkOk, KeysOf, ReferencesOf;
      sharedVersion := sharedVersion + 1;
      e, chunk, free, place := PutNew(hash, chunk, free, place, sharedVersion, data);
    }

    /** Adds num references; refuses an element at or above the count, and a dead one. */
    method AddReference(e: nat, num: nat) returns (ok: bool)
      requires Valid()
      modifies this
      ensures Valid() && Keys() == old(Keys()) && Capacity() == old(Capacity())
      ensures ok <==> e < old(chunk.count) && (num == 0 || e == 0 || old(References(e)) > 0)
      ensures References(e) == old(References(e)) + if ok && e != 0 then num else 0
      ensures forall f :: f != e ==> References(f) == old(References(f))
    {
      if e >= chunk.count {
        return false;
      }
      if num == 0 || e == 0 {
        return true;
      }
      if chunk.infos[e].referenceCount == 0 {
        return false;
      }
      SetReferences(e, chunk.infos[e].referenceCount + num);
      ok := true;
    }

    /** A new version for a live element; refuses an element at or above the count, and a dead one, whose version
        is its link in the chain. */
    method IncrementVersion(e: nat) returns (ok: bool)
      requires Valid()
      modifies this
      ensures Valid() && Keys() == old(Keys()) && Capacity() == old(Capacity())
      ensures ok <==> e < old(chunk.count) && old(References(e)) > 0
      ensures ok ==> sharedVersion == old(sharedVersion) + 1
      ensures ok ==> e < |old(chunk.infos)| && chunk.infos == Stamped(old(chunk.infos), e, sharedVersion)
      ensures !ok ==> chunk == old(chunk) && sharedVersion == old(sharedVersion)
      ensures forall f :: References(f) == old(References(f))
    {
      if e >= chunk.count || chunk.infos[e].referenceCount == 0 {
        return false;
      }
      sharedVersion := sharedVersion + 1;
      Restamp(hash, chunk.infos, chunk.buffer, chunk.count, chunk.freeSlotIndex, free, e, sharedVersion);
      chunk := chunk.(infos := Stamped(chunk.infos, e, sharedVersion));
      ok := true;
    }

    /** Takes num references away; the last one makes the element dead and its value unknown. Element 0 is
        never released. Refuses, changing nothing, to take more references than there are. */
    method RemoveReference(e: nat, num: nat) returns (ok: bool)
      requires Valid()
      modifies this
      ensures Valid() && Capacity() == old(Capacity())
      ensures ok <==> e < old(chunk.count) && (num == 0 || e == 0 || 0 < num <= old(References(e)))
      ensures References(e) == old(References(e)) - if ok && e != 0 then num else 0
      ensures forall f :: f != e ==> References(f) == old(References(f))
      ensures Keys() == if References(e) == 0 then Without(old(Keys()), e) else old(Keys())
      ensures if old(References(e)) > 0 == References(e) then SlotGone(old(chunk), chunk, e)
        else chunk.count == old(chunk.count) && chunk.freeSlotIndex == old(chunk.freeSlotIndex)
    {
      hide ChunkOk, KeysOf, Without;
      LiveMeans(chunk, e);
      NothingWithout(KeysOf(chunk), e);
      if e >= chunk.count {
        return false;
      }
      if e == 0 || num == 0 {
        return true;
      }
      if chunk.infos[e].referenceCount == 0 || chunk.infos[e].referenceCount < num {
        return false;
      }
      ok := true;
      if chunk.infos[e].referenceCount == num {
        Release(e);
      } else {
        SetReferences(e, chunk.infos[e].referenceCount - num);
      }
    }

    /** The last reference is gone: the count is lowered past the top slot, any other slot joins the chain, and
        the value's entry becomes a tombstone. */
    method Release(e: nat)
      requires Valid() && 0 < e < chunk.count && !Dead(chunk.infos, e)
      modifies this
      ensures Valid() && Capacity() == old(Capacity())
      ensures Keys() == Without(old(Keys()), e) && SlotGone(old(chunk), chunk, e)
      ensures forall f :: References(f) == if f == e then 0 else old(References(f))
    {
      chunk, free, place := PutAway(hash, chunk, free, place, e);
    }

    /** Doubles the arrays and files every live element anew. */
    method Resize()
      requires Valid() && 2 * Capacity() <= MaximumCapacity
      modifies this
      ensures Valid() && Capacity() == 2 * old(Capacity()) && (chunk.count <= MaximumSize ==> Room())
      ensures Keys() == old(Keys()) && forall f :: References(f) == old(References(f))
    {
      hide ChunkOk, KeysOf, ReferencesOf;
      chunk, place := Enlarge(hash, chunk, free, place);
    }
  }
}
