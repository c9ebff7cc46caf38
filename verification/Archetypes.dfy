/** The list of archetypes and the lookup by type list (src/ECS/EntityComponentStore.cpp:48-53, 68-162). */
module Archetypes {
  import opened Types
  import Probing
  import ArchetypeListMap

  const MaximumComponentCount: nat := 0x6f
  const MaximumSharedCount: nat := 16

  /** An archetype's types, where each category starts, and how many entities fit in a chunk. */
  datatype Kind = Kind(types: seq<nat>, firstManaged: nat, firstTag: nat, firstShared: nat, capacity: nat)

  function NumShared(types: seq<nat>): nat {
    if types == [] then 0 else NumShared(types[..|types| - 1]) + if IsShared(types[|types| - 1]) then 1 else 0
  }

  lemma {:induction false} SharedLast(types: seq<nat>, firstShared: nat)
    requires firstShared <= |types| && forall i :: 0 <= i < |types| ==> (IsShared(types[i]) <==> i >= firstShared)
    ensures NumShared(types) == |types| - firstShared
  {
    if types != [] {
      SharedLast(types[..|types| - 1], if firstShared == |types| then firstShared - 1 else firstShared);
    }
  }

  function SharedTypes(types: set<nat>): set<nat> {
    set t | t in types && IsShared(t)
  }

  lemma {:induction false} NumSharedIsSize(types: seq<nat>)
    requires Sorted(types)
    ensures NumShared(types) == |SharedTypes(Elems(types))|
  {
    if types != [] {
      LastBiggest(types);
      var init, last := types[..|types| - 1], types[|types| - 1];
      NumSharedIsSize(init);
      if IsShared(last) {
        assert SharedTypes(Elems(types)) == SharedTypes(Elems(init)) + {last};
      } else {
        assert SharedTypes(Elems(types)) == SharedTypes(Elems(init));
      }
    }
  }

  /** What createArchetype accepts. */
  predicate Legal(types: seq<nat>) {
    1 <= |types| <= MaximumComponentCount && types[0] == EntityType && NumShared(types) <= MaximumSharedCount
  }

  predicate KindOk(a: Kind) {
    && Sorted(a.types) && Legal(a.types)
    && Boundaries(a.types, a.firstManaged, a.firstTag, a.firstShared)
  }

  function KeysOf(archetypes: seq<Kind>): map<nat, Probing.Key> {
    map k | 0 <= k < |archetypes| :: archetypes[k].types
  }

  predicate Different(archetypes: seq<Kind>, j: nat, k: nat)
    requires j < |archetypes| && k < |archetypes|
  {
    archetypes[j].types != archetypes[k].types
  }

  ghost predicate ListOk(archetypes: seq<Kind>) {
    && (forall k {:trigger KindOk(archetypes[k])} :: 0 <= k < |archetypes| ==> KindOk(archetypes[k]))
    && (forall j, k :: 0 <= j < k < |archetypes| ==> Different(archetypes, j, k))
  }

  lemma ListGrows(archetypes: seq<Kind>, kind: Kind)
    requires ListOk(archetypes) && KindOk(kind)
    requires forall j :: 0 <= j < |archetypes| ==> archetypes[j].types != kind.types
    ensures ListOk(archetypes + [kind])
  {
    hide KindOk, Different;
    var all := archetypes + [kind];
    forall k | 0 <= k < |all| ensures KindOk(all[k]) {
      if k < |archetypes| { assert KindOk(archetypes[k]); }
    }
    forall j, k | 0 <= j < k < |all| ensures Different(all, j, k) {
      if k < |archetypes| { assert Different(archetypes, j, k); }
      DifferentIn(archetypes, kind, j, k);
    }
  }

  lemma DifferentIn(archetypes: seq<Kind>, kind: Kind, j: nat, k: nat)
    requires j < k <= |archetypes| && forall i :: 0 <= i < |archetypes| ==> archetypes[i].types != kind.types
    ensures k < |archetypes| ==> (Different(archetypes + [kind], j, k) <==> Different(archetypes, j, k))
    ensures k == |archetypes| ==> Different(archetypes + [kind], j, k)
  {
  }

  lemma KeysGrow(archetypes: seq<Kind>, kind: Kind)
    ensures KeysOf(archetypes + [kind]) == KeysOf(archetypes)[|archetypes| := kind.types]
  {
  }

  class Table {
    const capacityOf: seq<nat> -> nat
    const lookup: ArchetypeListMap.Map
    var archetypes: seq<Kind>

    /** The lookup files exactly the listed archetypes, no two of them have the same types, and each has the capacity
        the layout gives its types. */
    ghost predicate Valid()
      reads this, lookup
    {
      && lookup.Valid(KeysOf(archetypes)) && lookup.Members() == KeysOf(archetypes).Keys
      && ListOk(archetypes)
      && forall k :: 0 <= k < |archetypes| ==> archetypes[k].capacity == capacityOf(archetypes[k].types)
    }

    constructor (hash: Probing.Key -> nat, capacityOf: seq<nat> -> nat)
      ensures Valid() && archetypes == [] && this.capacityOf == capacityOf && fresh(lookup)
    {
      this.capacityOf := capacityOf;
      lookup := new ArchetypeListMap.Map(hash, 128);
      archetypes := [];
    }

    /** The archetype with exactly these types, created if there is none yet. Equal lists give the same archetype. */
    method GetOrCreateArchetype(types: seq<nat>) returns (ok: bool, k: nat)
      requires Valid() && (Legal(types) ==> Sorted(types))
      modifies this, lookup
      ensures Valid()
      ensures ok <==> types in old(KeysOf(archetypes)).Values || Legal(types)
      ensures ok ==> k < |archetypes| && forall j :: 0 <= j < |archetypes| ==>
        (archetypes[j].types == types <==> j == k)
      ensures old(archetypes) <= archetypes
      ensures |archetypes| == |old(archetypes)| + if ok && types !in old(KeysOf(archetypes)).Values then 1 else 0
      ensures |archetypes| > |old(archetypes)| ==> k == |old(archetypes)|
      ensures ok ==> archetypes[k].capacity == capacityOf(types)
    {
      hide ListOk, Legal, Sorted, KeysOf;
      var found;
      found, k := lookup.TryGet(KeysOf(archetypes), types);
      KnownTypes(archetypes, types);
      if found {
        OnlyOne(archetypes, k);
        return true, k;
      }
      ghost var known := archetypes;
      ok, k := CreateArchetype(types);
      if ok {
        JustAdded(known, archetypes, types);
      }
    }

    method CreateArchetype(types: seq<nat>) returns (ok: bool, k: nat)
      requires Valid() && (Legal(types) ==> Sorted(types))
      requires forall j :: 0 <= j < |archetypes| ==> archetypes[j].types != types
      modifies this, lookup
      ensures Valid() && (ok <==> Legal(types))
      ensures !ok ==> archetypes == old(archetypes)
      ensures ok ==> k == |old(archetypes)| && |archetypes| == k + 1 && archetypes[..k] == old(archetypes)
      ensures ok ==> archetypes[k].types == types && archetypes[k].capacity == capacityOf(types)
    {
      k := |archetypes|;
      if |types| < 1 || |types| > MaximumComponentCount || types[0] != EntityType {
        return false, k;
      }
      var numSharedComponents := CountShared(types);
      if MaximumSharedCount < numSharedComponents {
        return false, k;
      }
      var firstManaged, firstTag, firstShared := FirstIndices(types);
      var kind := Kind(types, firstManaged, firstTag, firstShared, capacityOf(types));
      ListGrows(archetypes, kind);
      KeysGrow(archetypes, kind);
      Rekeyed(lookup, KeysOf(archetypes), KeysOf(archetypes + [kind]));
      archetypes := archetypes + [kind];
      lookup.Add(KeysOf(archetypes), k);
      ok := true;
    }
  }

  lemma KnownTypes(archetypes: seq<Kind>, types: seq<nat>)
    ensures types in KeysOf(archetypes).Values <==> exists j :: 0 <= j < |archetypes| && archetypes[j].types == types
  {
    if j :| 0 <= j < |archetypes| && archetypes[j].types == types {
      assert KeysOf(archetypes)[j] == types;
    }
  }

  lemma JustAdded(known: seq<Kind>, archetypes: seq<Kind>, types: seq<nat>)
    requires |archetypes| == |known| + 1 && archetypes[..|known|] == known && archetypes[|known|].types == types
    requires forall j :: 0 <= j < |known| ==> known[j].types != types
    ensures known <= archetypes
    ensures forall j :: 0 <= j < |archetypes| ==> (archetypes[j].types == types <==> j == |known|)
  {
    forall j | 0 <= j < |known| ensures archetypes[j] == known[j] {
      assert archetypes[..|known|][j] == known[j];
    }
  }

  lemma OnlyOne(archetypes: seq<Kind>, k: nat)
    requires ListOk(archetypes) && k in KeysOf(archetypes)
    ensures k < |archetypes| && KeysOf(archetypes)[k] == archetypes[k].types
    ensures forall j :: 0 <= j < |archetypes| && j != k ==> archetypes[j].types != archetypes[k].types
  {
    forall j | 0 <= j < |archetypes| && j != k ensures archetypes[j].types != archetypes[k].types {
      assert if j < k then Different(archetypes, j, k) else Different(archetypes, k, j);
    }
  }

  /** Listing one more archetype does not disturb the filing of the others. */
  lemma Rekeyed(lookup: ArchetypeListMap.Map, keys: map<nat, Probing.Key>, keys1: map<nat, Probing.Key>)
    requires lookup.Valid(keys) && lookup.Members() == keys.Keys
    requires forall k :: k in keys ==> k in keys1 && keys1[k] == keys[k]
    ensures lookup.Valid(keys1)
  {
    Probing.LinkedRekeyed(lookup.hash, keys, keys1, lookup.hashes, lookup.pointers, lookup.place);
  }

  method CountShared(types: seq<nat>) returns (n: nat)
    ensures n == NumShared(types)
  {
    n := 0;
    for i := 0 to |types|
      invariant n == NumShared(types[..i])
    {
      assert types[..i + 1][..i] == types[..i];
      if IsShared(types[i]) {
        n := n + 1;
      }
    }
    assert types[..|types|] == types;
  }

  /** In a sorted list the shared types are the last ones, so the counts agree. */
  lemma SharedCount(a: Kind)
    requires KindOk(a)
    ensures NumShared(a.types) == |a.types| - a.firstShared
  {
    SharedLast(a.types, a.firstShared);
  }
}
