/** Who holds references on the values of one shared component type: callers that interned a value, and the chunks whose
    row of shared values names it (src/ECS/Archetype.cpp:133-141, 437-444). */
module SharedReferences {
  import opened Probing
  import opened ChunkTracking
  import opened Collections
  import InternTable

  /** A shared component index: the type above 16 bits of element. */
  const Elements: nat := 0x1_0000

  function Index(typeIndex: nat, e: nat): nat {
    typeIndex * Elements + e
  }

  lemma IndexParts(typeIndex: nat, v: nat, e: nat)
    requires e < Elements
    ensures v == Index(typeIndex, e) <==> v / Elements == typeIndex && v % Elements == e
  {
  }

  /** The chunks whose shared values name the index. */
  function Holders(shape: map<nat, Info>, v: nat): set<nat> {
    set c | c in shape && v in shape[c].shared
  }

  lemma HoldersNew(shape: map<nat, Info>, c: nat, info: Info, v: nat)
    requires c !in shape
    ensures |Holders(shape[c := info], v)| == |Holders(shape, v)| + if v in info.shared then 1 else 0
  {
    if v in info.shared {
      assert Holders(shape[c := info], v) == Holders(shape, v) + {c};
    } else {
      assert Holders(shape[c := info], v) == Holders(shape, v);
    }
  }

  /** Another count changes no holder, and a chunk that goes away stops holding. */
  lemma HoldersCounted(shape: map<nat, Info>, c: nat, n: nat, v: nat)
    requires c in shape
    ensures |Holders(WithCount(shape, c, n), v)| == |Holders(shape, v)| - if n == 0 && v in shape[c].shared then 1
      else 0
  {
    if n == 0 {
      HoldersNew(Without(shape, c), c, shape[c], v);
      assert shape == Without(shape, c)[c := shape[c]];
    } else {
      assert Holders(WithCount(shape, c, n), v) == Holders(shape, v);
    }
  }

  lemma TakeOne(s: seq<nat>, i: nat, v: nat)
    requires i < |s| && Distinct(s)
    ensures v in s[..i + 1] <==> v in s[..i] || v == s[i]
    ensures s[i] !in s[..i]
  {
  }

  lemma NotSeen(tracker: Tracker, c: nat)
    requires c !in tracker.headers
    ensures c !in tracker.Shape()
  {
  }

  class Ledger {
    const typeIndex: nat
    const table: InternTable.Table
    const tracker: Tracker
    /** References handed to callers and not given back. */
    var callers: multiset<nat>

    function Chunks(e: nat): nat
      reads tracker
    {
      |Holders(tracker.Shape(), Index(typeIndex, e))|
    }

    /** Every count is the number of outstanding references, and rows name different values. */
    ghost predicate Balanced()
      reads this, table, tracker
    {
      && table.Valid()
      && (forall e: nat :: 0 < e < Elements ==> table.References(e) == callers[e] + Chunks(e))
      && forall c :: c in tracker.Shape() ==> Distinct(tracker.Shape()[c].shared)
    }

    constructor (typeIndex: nat, tracker: Tracker, hash: Key -> nat, defaultValue: Key)
      requires tracker.Shape() == map[]
      ensures Balanced() && callers == multiset{} && fresh(table) && this.tracker == tracker
      ensures this.typeIndex == typeIndex && table.Keys() == map[0 := defaultValue]
    {
      this.typeIndex, this.tracker := typeIndex, tracker;
      table := new InternTable.Table(hash, defaultValue);
      callers := multiset{};
      new;
      forall e: nat | 0 < e < Elements ensures table.References(e) == callers[e] + Chunks(e) {
        InternTable.LiveMeans(table.chunk, e);
        assert Holders(tracker.Shape(), Index(typeIndex, e)) == {};
      }
    }

    /** A caller interns a value and holds one more reference on its element, unless the value is lost: it is new and
        fills the arrays. */
    method Intern(data: Key) returns (ok: bool, e: nat)
      requires Balanced()
      modifies this, table
      ensures old(table.Room() || data in table.Keys().Values) ==>
        ok && Balanced() && e in table.Keys() && table.Keys()[e] == data && callers == old(callers) + multiset{e}
      ensures !old(table.Room() || data in table.Keys().Values) ==>
        && !Balanced() && table.References(e) == 0 && e == old(table.chunk.count)
        && (ok <==> e <= InternTable.MaximumSize)
        && callers == old(callers) + if ok then multiset{e} else multiset{}
      ensures forall f :: f in old(table.Keys()) ==>
        table.chunk.count <= |table.chunk.infos| == |table.chunk.buffer|
        && f in table.Keys() && table.Keys()[f] == old(table.Keys())[f]
    {
      hide InternTable.ChunkOk, InternTable.KeysOf, InternTable.ReferencesOf, Holders, ShapeOf, Distinct;
      ok, e := table.Insert(data);
      if ok {
        callers := callers + multiset{e};
      }
    }

    /** A caller gives a reference back. */
    method GiveBack(e: nat)
      requires Balanced() && e in callers && e in table.Keys()
      modifies this, table
      ensures Balanced() && callers == old(callers) - multiset{e}
    {
      hide InternTable.ChunkOk, InternTable.KeysOf, InternTable.ReferencesOf, Holders, ShapeOf, Distinct;
      InternTable.LiveMeans(table.chunk, e);
      var ok := table.RemoveReference(e, 1);
      callers := callers - multiset{e};
    }

    /** One more reference for each value of this type in the row. */
    method AddReferences(shared: seq<nat>)
      requires table.Valid() && Distinct(shared)
      requires forall e: nat :: e < Elements && Names(shared, e) ==> e in table.Keys()
      modifies table
      ensures table.Valid() && table.Keys() == old(table.Keys())
      ensures forall e: nat :: 0 < e < Elements ==>
        table.References(e) == old(table.References(e)) + if Names(shared, e) then 1 else 0
    {
      hide InternTable.ChunkOk, InternTable.KeysOf, InternTable.ReferencesOf, Distinct, Index;
      for i := 0 to |shared|
        invariant table.Valid() && table.Keys() == old(table.Keys())
        invariant forall e: nat :: 0 < e < Elements ==>
          table.References(e) == old(table.References(e)) + if Names(shared[..i], e) then 1 else 0
      {
        NamesOneMore(shared, i);
        if shared[i] / Elements == typeIndex {
          InternTable.LiveMeans(table.chunk, shared[i] % Elements);
          var ok := table.AddReference(shared[i] % Elements, 1);
        }
      }
      assert shared[..|shared|] == shared;
    }

    /** One reference less for each. */
    method RemoveReferences(shared: seq<nat>)
      requires table.Valid() && Distinct(shared)
      requires forall e: nat :: 0 < e < Elements && Names(shared, e) ==> table.References(e) > 0
      modifies table
      ensures table.Valid()
      ensures forall e: nat :: 0 < e < Elements ==>
        table.References(e) == old(table.References(e)) - if Names(shared, e) then 1 else 0
    {
      hide InternTable.ChunkOk, InternTable.KeysOf, InternTable.ReferencesOf, Distinct, Index;
      for i := 0 to |shared|
        invariant table.Valid()
        invariant forall e: nat :: 0 < e < Elements ==>
          table.References(e) == old(table.References(e)) - if Names(shared[..i], e) then 1 else 0
      {
        NamesOneMore(shared, i);
        if shared[i] / Elements == typeIndex {
          InternTable.LiveMeans(table.chunk, shared[i] % Elements);
          var ok := table.RemoveReference(shared[i] % Elements, 1);
        }
      }
      assert shared[..|shared|] == shared;
    }

    predicate Names(shared: seq<nat>, e: nat) {
      Index(typeIndex, e) in shared
    }

    lemma NamesOneMore(shared: seq<nat>, i: nat)
      requires i < |shared| && Distinct(shared)
      ensures shared[i] % Elements < Elements
      ensures forall e: nat :: e < Elements && Names(shared[..i], e) ==> Names(shared, e)
      ensures forall e: nat :: e < Elements ==>
        (Names(shared[..i + 1], e) <==> Names(shared[..i], e) || Newly(shared, i, e))
      ensures forall e: nat :: e < Elements && Newly(shared, i, e) ==> Names(shared, e) && !Names(shared[..i], e)
    {
      forall e: nat | e < Elements
        ensures Names(shared[..i + 1], e) <==> Names(shared[..i], e) || Newly(shared, i, e)
        ensures Newly(shared, i, e) ==> Names(shared, e) && !Names(shared[..i], e)
      {
        IndexParts(typeIndex, shared[i], e);
        TakeOne(shared, i, Index(typeIndex, e));
      }
    }

    predicate Newly(shared: seq<nat>, i: nat, e: nat)
      requires i < |shared|
    {
      shared[i] / Elements == typeIndex && shared[i] % Elements == e
    }

    /** addEmptyChunk: the new chunk holds one reference for each of its shared values. */
    method AddEmptyChunk(k: nat, shared: seq<nat>, c: nat)
      requires Balanced() && tracker.ValidBut({}) && k < |tracker.archetypes|
      requires |shared| == tracker.archetypes[k].numShared && tracker.archetypes[k].capacity > 0
      requires c !in tracker.headers && Distinct(shared)
      requires forall e: nat :: e < Elements && Names(shared, e) ==> e in table.Keys()
      modifies table, tracker
      ensures Balanced() && tracker.ValidBut({c}) && table.Keys() == old(table.Keys())
      ensures tracker.Shape() == old(tracker.Shape())[c := Info(k, 0, shared)]
    {
      hide InternTable.ChunkOk, InternTable.KeysOf, InternTable.ReferencesOf, Distinct, Index, Holders, ShapeOf, Agree,
           RoomsFiled, Counted, NoneEmpty;
      NotSeen(tracker, c);
      ghost var shape := tracker.Shape();
      AddReferences(shared);
      tracker.AddEmptyChunk(k, shared, c);
      forall e: nat | 0 < e < Elements ensures table.References(e) == callers[e] + Chunks(e) {
        HoldersNew(shape, c, Info(k, 0, shared), Index(typeIndex, e));
      }
    }

    /** setChunkCount, which every allocation, deallocation and move ends in: a chunk that loses its last entity is
        released, and its references go. A value is live afterwards exactly if a reference is left. */
    method Recount(c: nat, n: nat)
      requires Balanced() && tracker.ValidBut({c}) && c in tracker.Shape() && n != tracker.Shape()[c].count
      requires tracker.Shape()[c].arch < |tracker.archetypes|
      requires n <= tracker.archetypes[tracker.Shape()[c].arch].capacity
      modifies table, tracker
      ensures Balanced() && tracker.ValidBut({})
      ensures tracker.Shape() == WithCount(old(tracker.Shape()), c, n)
    {
      hide InternTable.ChunkOk, InternTable.KeysOf, InternTable.ReferencesOf, Index, Holders, ShapeOf, Agree,
           RoomsFiled, Counted, NoneEmpty;
      ghost var shape := tracker.Shape();
      if n == 0 {
        forall e: nat | 0 < e < Elements && Names(shape[c].shared, e) ensures table.References(e) > 0 {
          HoldersCounted(shape, c, 0, Index(typeIndex, e));
        }
        RemoveReferences(tracker.Shape()[c].shared);
      }
      tracker.Recount(c, n);
      forall e: nat | 0 < e < Elements ensures table.References(e) == callers[e] + Chunks(e) {
        HoldersCounted(shape, c, n, Index(typeIndex, e));
      }
    }

    /** A value is live exactly if it is the default one, a caller has a reference, or a chunk's row names it; so no
        row names a dead value. */
    lemma LiveExactly(e: nat)
      requires Balanced() && e < Elements
      ensures e in table.Keys() <==>
        e == 0 || e in callers || exists c :: c in tracker.Shape() && Names(tracker.Shape()[c].shared, e)
    {
      InternTable.LiveMeans(table.chunk, e);
      if e > 0 {
        assert Holders(tracker.Shape(), Index(typeIndex, e)) == {} ==> table.References(e) == callers[e];
        if c :| c in tracker.Shape() && Names(tracker.Shape()[c].shared, e) {
          assert c in Holders(tracker.Shape(), Index(typeIndex, e));
        } else {
          assert Holders(tracker.Shape(), Index(typeIndex, e)) == {};
        }
      }
    }
  }
}
