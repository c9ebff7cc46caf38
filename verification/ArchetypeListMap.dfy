/** The map from type lists to archetypes (src/ECS/ArchetypeListMap.cpp). Archetypes are named by numbers; keys
    gives each its type list, which never changes. */
module ArchetypeListMap {
  import opened Probing

  const MinimumSize: nat := 16

  class Map {
    const hash: Key -> nat
    var hashes: seq<nat>
    var pointers: seq<nat>
    var emptyNodes: nat
    /** Where each member is filed; the code finds it by searching. */
    ghost var place: map<nat, int>

    ghost predicate Sound(keys: map<nat, Key>)
      reads this
    {
      && Linked(hash, keys, hashes, pointers, place) && BackLinked(hashes, pointers, place)
      && emptyNodes == CountFree(hashes)
      && PowerOfTwo(|hashes|) && |hashes| >= MinimumSize
    }

    /** Between calls a third of the slots is free. */
    ghost predicate Valid(keys: map<nat, Key>)
      reads this
    {
      Sound(keys) && emptyNodes >= |hashes| / 3
    }

    function Members(): set<nat>
      requires |hashes| == |pointers|
      reads this
    {
      Entries(hashes, pointers)
    }

    constructor (hash: Key -> nat, count: nat)
      requires PowerOfTwo(count) && count >= MinimumSize
      ensures this.hash == hash && |hashes| == |pointers| == count && Members() == {}
      ensures forall keys :: Valid(keys)
    {
      this.hash := hash;
      hashes := seq(count, _ => 0);
      pointers := seq(count, _ => 0);
      emptyNodes := count;
      place := map[];
      new;
      AllFree(hashes, count);
    }

    /** Files the archetype under its type list, then grows if fewer than a third of the slots is left free. */
    method Add(keys: map<nat, Key>, ptr: nat)
      requires Valid(keys) && ptr in keys && ptr !in Members()
      modifies this
      ensures Valid(keys) && Members() == old(Members()) + {ptr}
      ensures |hashes| == if old(emptyNodes - 1 < |hashes| / 3) then 2 * |old(hashes)| else |old(hashes)|
    {
      var hs, ps, slot := Insert(hash, keys, hashes, pointers, place, ptr);
      hashes, pointers, place := hs, ps, place[ptr := slot];
      emptyNodes := emptyNodes - 1;
      if emptyNodes < |hashes| / 3 {
        DoublePower(|hashes|);
        Resize(keys, 2 * |hashes|);
      }
    }

    /** Leaves a tombstone where the archetype is found, then shrinks if fewer than a third of the slots is
        used. Refuses an archetype that is not filed. */
    method Remove(keys: map<nat, Key>, ptr: nat) returns (ok: bool)
      requires Valid(keys) && ptr in keys
      modifies this
      ensures Valid(keys) && Members() == old(Members()) - {ptr}
      ensures ok <==> ptr in old(Members())
      ensures !(ok && old(|hashes| - emptyNodes - 1 < |hashes| / 3)) ==> |hashes| == |old(hashes)|
      ensures ok && old(|hashes| - emptyNodes - 1 < |hashes| / 3) ==>
        |hashes| == if |old(hashes)| / 2 < MinimumSize then MinimumSize else |old(hashes)| / 2
    {
      var r := IndexOf(keys, ptr);
      if r.Missing? {
        return false;
      }
      EraseEntry(hash, keys, hashes, pointers, place, r.slot);
      place := place[ptr := -1];
      hashes := hashes[r.slot := SkipCode];
      emptyNodes := emptyNodes + 1;
      if |hashes| - emptyNodes < |hashes| / 3 {
        Resize(keys, |hashes| / 2);
      }
      ok := true;
    }

    /** The archetype with that type list, or none. */
    method TryGet(keys: map<nat, Key>, types: Key) returns (found: bool, ptr: nat)
      requires Valid(keys)
      ensures found ==> ptr in Members() && keys[ptr] == types
      ensures !found ==> forall p :: p in Members() ==> keys[p] != types
    {
      var r := Find(hashes, pointers, HashCode(hash(types)), p => p in keys && keys[p] == types);
      match r
      case Missing => found, ptr := false, 0;
      case Found(slot) => found, ptr := true, pointers[slot];
    }

    /** The slot of an archetype, or none. */
    method IndexOf(keys: map<nat, Key>, ptr: nat) returns (r: Search)
      requires Valid(keys) && ptr in keys
      ensures r.Found? <==> ptr in Members()
      ensures r.Found? ==> r.slot < |hashes| && Occupied(hashes[r.slot]) && pointers[r.slot] == ptr
    {
      r := Find(hashes, pointers, HashCode(hash(keys[ptr])), p => p == ptr);
    }

    /** Files every member anew in arrays of the given size; filing them never asks for another resize. */
    method Resize(keys: map<nat, Key>, wanted: nat)
      requires Sound(keys) && PowerOfTwo(wanted)
      requires var size := if wanted < MinimumSize then MinimumSize else wanted;
        size - (|hashes| - emptyNodes) >= size / 3
      modifies this
      ensures Valid(keys) && Members() == old(Members())
      ensures |hashes| == if wanted < MinimumSize then MinimumSize else wanted
    {
      var size := if wanted < MinimumSize then MinimumSize else wanted;
      if size == |hashes| {
        return;
      }
      var hs, ps, slots := Rehash(hash, keys, hashes, pointers, place, size);
      emptyNodes := size - (|hashes| - emptyNodes);
      hashes, pointers, place := hs, ps, place + slots;
    }
  }
}
