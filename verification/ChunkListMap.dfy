/** The map from shared component values to chunks with room (src/ECS/ChunkListMap.cpp), which an archetype holds as
    a part of itself. A chunk's key is read through the chunk; each member stores its slot as a back-index. */
module ChunkListMap {
  import opened Probing

  const MinimumSize: nat := 8

  /** back stands for the chunks' listWithEmptySlotsIndex fields. */
  datatype Map = Map(hashes: seq<nat>, chunks: seq<nat>, emptyNodes: nat, back: map<nat, int>)
  {
    function Members(): set<nat> {
      if |hashes| == |chunks| then Entries(hashes, chunks) else {}
    }
  }

  ghost predicate Sound(hash: Key -> nat, keys: map<nat, Key>, m: Map) {
    && Linked(hash, keys, m.hashes, m.chunks, m.back) && BackLinked(m.hashes, m.chunks, m.back)
    && m.emptyNodes == CountFree(m.hashes)
    && PowerOfTwo(|m.hashes|) && |m.hashes| >= MinimumSize
  }

  /** Between calls a third of the slots is free. */
  ghost predicate Valid(hash: Key -> nat, keys: map<nat, Key>, m: Map) {
    Sound(hash, keys, m) && m.emptyNodes >= |m.hashes| / 3
  }

  method Init(count: nat, ghost hash: Key -> nat, ghost keys: map<nat, Key>) returns (m: Map)
    requires PowerOfTwo(count) && count >= MinimumSize
    ensures Valid(hash, keys, m) && m.Members() == {} && |m.hashes| == count
  {
    m := Map(seq(count, _ => 0), seq(count, _ => 0), count, map[]);
    AllFree(m.hashes, count);
  }

  /** Stores the chunk under its key, then grows if fewer than a third of the slots is left free. The probe always
      finds a slot. */
  method Add(hash: Key -> nat, keys: map<nat, Key>, m: Map, chunk: nat) returns (m1: Map)
    requires Valid(hash, keys, m) && chunk in keys && chunk !in m.Members()
    ensures Valid(hash, keys, m1) && m1.Members() == m.Members() + {chunk}
    ensures |m1.hashes| == if m.emptyNodes - 1 < |m.hashes| / 3 then 2 * |m.hashes| else |m.hashes|
  {
    var hs, cs, slot := Insert(hash, keys, m.hashes, m.chunks, m.back, chunk);
    m1 := Map(hs, cs, m.emptyNodes - 1, m.back[chunk := slot]);
    if m1.emptyNodes < |m1.hashes| / 3 {
      DoublePower(|m1.hashes|);
      m1 := Resize(hash, keys, m1, 2 * |m1.hashes|);
    }
  }

  /** Leaves a tombstone at the chunk's back-index, then shrinks if fewer than a third of the slots is used. Refuses
      a chunk whose back-index does not locate it. */
  method Remove(hash: Key -> nat, keys: map<nat, Key>, m: Map, chunk: nat) returns (m1: Map, ok: bool)
    requires Valid(hash, keys, m) && chunk in m.back
    ensures Valid(hash, keys, m1) && m1.Members() == m.Members() - {chunk}
    ensures ok <==> chunk in m.Members()
    ensures chunk in m1.back && m1.back[chunk] == -1
    ensures !(ok && |m.hashes| - m.emptyNodes - 1 < |m.hashes| / 3) ==> |m1.hashes| == |m.hashes|
    ensures ok && |m.hashes| - m.emptyNodes - 1 < |m.hashes| / 3 ==>
      |m1.hashes| == if |m.hashes| / 2 < MinimumSize then MinimumSize else |m.hashes| / 2
  {
    var offset := m.back[chunk];
    m1 := m.(back := m.back[chunk := -1]);
    if offset < 0 || offset >= |m.hashes| || m.chunks[offset] != chunk {
      return m1, false;
    }
    assert Occupied(m.hashes[offset]) && chunk in m.Members();
    EraseEntry(hash, keys, m.hashes, m.chunks, m.back, offset);
    m1 := m1.(hashes := m.hashes[offset := SkipCode], emptyNodes := m.emptyNodes + 1);
    if |m1.hashes| - m1.emptyNodes < |m1.hashes| / 3 {
      m1 := Resize(hash, keys, m1, |m1.hashes| / 2);
    }
    ok := true;
  }

  /** Whether the chunk's back-index locates it. */
  method Contains(ghost hash: Key -> nat, ghost keys: map<nat, Key>, m: Map, chunk: nat) returns (r: bool)
    requires Valid(hash, keys, m) && chunk in m.back
    ensures r <==> chunk in m.Members()
  {
    var offset := m.back[chunk];
    r := 0 <= offset < |m.hashes| && m.chunks[offset] == chunk;
  }

  /** A chunk filed under equal values, or none. */
  method TryGet(hash: Key -> nat, keys: map<nat, Key>, m: Map, values: Key) returns (found: bool, chunk: nat)
    requires Valid(hash, keys, m)
    ensures found ==> chunk in m.Members() && chunk in keys && keys[chunk] == values
    ensures !found ==> forall c :: c in m.Members() ==> c in keys && keys[c] != values
  {
    var r := Find(m.hashes, m.chunks, HashCode(hash(values)), c => c in keys && keys[c] == values);
    match r
    case Missing => found, chunk := false, 0;
    case Found(slot) => found, chunk := true, m.chunks[slot];
  }

  /** Files every member anew in arrays of the given size; filing them never asks for another resize. */
  method Resize(hash: Key -> nat, keys: map<nat, Key>, m: Map, wanted: nat) returns (m1: Map)
    requires Sound(hash, keys, m) && PowerOfTwo(wanted)
    requires var size := if wanted < MinimumSize then MinimumSize else wanted;
      size - (|m.hashes| - m.emptyNodes) >= size / 3
    ensures Valid(hash, keys, m1) && m1.Members() == m.Members()
    ensures |m1.hashes| == if wanted < MinimumSize then MinimumSize else wanted
    ensures forall c :: c in m.back && c !in m.Members() ==> c in m1.back && m1.back[c] == m.back[c]
  {
    var size := if wanted < MinimumSize then MinimumSize else wanted;
    if size == |m.hashes| {
      return m;
    }
    var hs, cs, slots := Rehash(hash, keys, m.hashes, m.chunks, m.back, size);
    m1 := Map(hs, cs, size - (|m.hashes| - m.emptyNodes), m.back + slots);
  }

  /** A valid map has a slot for each member and no other: the back-index of a member locates it. */
  lemma MemberAt(hash: Key -> nat, keys: map<nat, Key>, m: Map, chunk: nat)
    requires Valid(hash, keys, m)
    ensures chunk in m.Members() <==>
      && chunk in m.back && 0 <= m.back[chunk] < |m.hashes| == |m.chunks|
      && Occupied(m.hashes[m.back[chunk]]) && m.chunks[m.back[chunk]] == chunk
    ensures chunk in m.Members() ==> chunk in keys
  {
    if chunk in m.Members() {
      var s :| 0 <= s < |m.hashes| && Occupied(m.hashes[s]) && m.chunks[s] == chunk;
      assert m.back[chunk] == s;
    }
  }
}
