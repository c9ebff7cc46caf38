/** Component types and the sorted type lists that identify archetypes (include/ECS/Base/TypeID.hpp,
    src/ECS/EntityComponentStore.cpp:105-115, 465-549). */
module Types {
  import opened Collections

  datatype Option<T> = None | Some(value: T)

  // A type id is an index with flag bits above it; type lists are sorted by the whole number.

  const EntityType: nat := 1
  const ManagedFlag: nat := 0x2_0000
  const AssetFlag: nat := 0x4_0000
  const ZeroSizedFlag: nat := 0x1000_0000
  const SharedFlag: nat := 0x2000_0000

  predicate HasFlag(t: nat, flag: nat)
    requires flag > 0
  {
    t / flag % 2 == 1
  }

  predicate IsManaged(t: nat) { HasFlag(t, ManagedFlag) }

  predicate IsZeroSized(t: nat) { ZeroSizedFlag <= t < SharedFlag }

  predicate IsShared(t: nat) { SharedFlag <= t }

  /** The two highest flags can be told by comparing. */
  lemma HighFlags(t: nat)
    requires t < 2 * SharedFlag
    ensures IsShared(t) <==> HasFlag(t, SharedFlag)
    ensures IsZeroSized(t) <==> !IsShared(t) && HasFlag(t, ZeroSizedFlag)
  {
  }

  /** Strictly ascending. */
  predicate Sorted(s: seq<nat>) {
    forall i, j :: 0 <= i < j < |s| ==> s[i] < s[j]
  }

  function Elems(s: seq<nat>): set<nat> {
    if s == [] then {} else Elems(s[..|s| - 1]) + {s[|s| - 1]}
  }

  lemma {:induction false} InElems(s: seq<nat>)
    ensures forall t :: t in Elems(s) <==> t in s
  {
    if s != [] {
      InElems(s[..|s| - 1]);
      assert s == s[..|s| - 1] + [s[|s| - 1]];
    }
  }

  lemma ElemsAppend(s: seq<nat>, x: nat)
    ensures Elems(s + [x]) == Elems(s) + {x}
  {
    assert (s + [x])[..|s|] == s;
  }

  predicate AllBelow(ts: set<nat>, x: nat) {
    forall t :: t in ts ==> t < x
  }

  /** All but the last are below the last. */
  lemma LastBiggest(s: seq<nat>)
    requires Sorted(s) && s != []
    ensures AllBelow(Elems(s[..|s| - 1]), s[|s| - 1]) && Elems(s) == Elems(s[..|s| - 1]) + {s[|s| - 1]}
  {
    InElems(s[..|s| - 1]);
  }

  lemma LastOfSet(ts: set<nat>, us: set<nat>, x: nat, y: nat)
    requires AllBelow(ts, x) && AllBelow(us, y) && ts + {x} == us + {y}
    ensures x == y && ts == us
  {
    assert x in us + {y} && y in ts + {x};
    assert x !in ts && y !in us;
    assert ts == (ts + {x}) - {x} && us == (us + {y}) - {y};
  }

  /** A type list is determined by its set of types. */
  lemma {:induction false} SortedUnique(a: seq<nat>, b: seq<nat>)
    requires Sorted(a) && Sorted(b) && Elems(a) == Elems(b)
    ensures a == b
  {
    if a != [] && b != [] {
      var m, n := |a| - 1, |b| - 1;
      LastBiggest(a);
      LastBiggest(b);
      LastOfSet(Elems(a[..m]), Elems(b[..n]), a[m], b[n]);
      SortedUnique(a[..m], b[..n]);
      assert a == a[..m] + [a[m]] && b == b[..n] + [b[n]];
    }
  }

  lemma {:induction false} SortedSize(s: seq<nat>)
    requires Sorted(s)
    ensures |Elems(s)| == |s|
  {
    if s != [] {
      LastBiggest(s);
      SortedSize(s[..|s| - 1]);
    }
  }

  /** What the scans from the end of a list find: where its shared types start, its zero-sized ones, and the
      unbroken run of managed types before those. */
  predicate Boundaries(types: seq<nat>, firstManaged: nat, firstTag: nat, firstShared: nat) {
    && 1 <= firstManaged <= firstTag <= firstShared <= |types|
    && (forall i :: 0 <= i < |types| ==>
      && (types[i] >= ZeroSizedFlag <==> i >= firstTag)
      && (types[i] >= SharedFlag <==> i >= firstShared))
    && (forall i :: firstManaged <= i < firstTag ==> IsManaged(types[i]))
    && !IsManaged(types[firstManaged - 1])
  }

  /** The types of the run: sized, managed, and with only managed sized types after them. These are the ones the
      store calls destructors for. */
  function Disposed(types: seq<nat>): set<nat> {
    set t | t in types && t < ZeroSizedFlag && OnlyManagedFrom(types, t)
  }

  predicate OnlyManagedFrom(types: seq<nat>, t: nat) {
    forall u :: u in types && t <= u < ZeroSizedFlag ==> IsManaged(u)
  }

  lemma DisposedAt(types: seq<nat>, firstManaged: nat, firstTag: nat, firstShared: nat, i: nat)
    requires Sorted(types) && Boundaries(types, firstManaged, firstTag, firstShared) && i < |types|
    ensures types[i] in Disposed(types) <==> firstManaged <= i < firstTag
  {
    if i < firstManaged {
      assert types[firstManaged - 1] in types && types[firstManaged - 1] < ZeroSizedFlag;
    } else if i < firstTag {
      forall u | u in types && types[i] <= u < ZeroSizedFlag ensures IsManaged(u) {
        var j :| 0 <= j < |types| && types[j] == u;
      }
    }
  }

  /** The sized types that are managed. */
  function ManagedTypes(types: seq<nat>): set<nat> {
    set t | t in types && t < ZeroSizedFlag && IsManaged(t)
  }

  /** A sized type that is not managed comes after one that is. */
  predicate BrokenRun(types: seq<nat>) {
    exists m, a :: m in types && a in types && m < a < ZeroSizedFlag && IsManaged(m) && !IsManaged(a)
  }

  /** The store calls the destructors of all managed types unless the run is broken. */
  lemma DisposedExactly(types: seq<nat>)
    ensures Disposed(types) <= ManagedTypes(types)
    ensures Disposed(types) == ManagedTypes(types) <==> !BrokenRun(types)
  {
    if BrokenRun(types) {
      var m, a :| m in types && a in types && m < a < ZeroSizedFlag && IsManaged(m) && !IsManaged(a);
      assert m in ManagedTypes(types) && m !in Disposed(types);
    }
  }

  /** Ids of registered types: the flags are the bits 17, 18, 28 and 29, the index lies below. */
  predicate Registered(t: nat) {
    t < 2 * SharedFlag && t % ZeroSizedFlag < 2 * AssetFlag
  }

  /** Managed, without asset references, and sized. */
  predicate PlainManaged(t: nat) {
    t < ZeroSizedFlag && IsManaged(t) && !HasFlag(t, AssetFlag)
  }

  /** With asset references, not managed, and sized. */
  predicate PlainAsset(t: nat) {
    t < ZeroSizedFlag && !IsManaged(t) && HasFlag(t, AssetFlag)
  }

  /** Among registered types the run is broken exactly by having one of each of these. */
  lemma BrokenByAssets(types: seq<nat>)
    requires forall t :: t in types ==> Registered(t)
    ensures BrokenRun(types) <==> exists m, a :: m in types && a in types && PlainManaged(m) && PlainAsset(a)
  {
    forall m, a | m in types && a in types && m < ZeroSizedFlag && a < ZeroSizedFlag
      ensures m < a && IsManaged(m) && !IsManaged(a) <==> PlainManaged(m) && PlainAsset(a)
    {
      assert Registered(m) && Registered(a);
    }
  }

  /** A native list with one managed type and one with asset references: nothing is ever destroyed. */
  lemma AssetsBreakTheRun()
    ensures var types := [EntityType, ManagedFlag + 3, AssetFlag + 5];
      && Sorted(types) && Boundaries(types, 3, 3, 3)
      && ManagedTypes(types) == {ManagedFlag + 3} && Disposed(types) == {}
  {
    var types := [EntityType, ManagedFlag + 3, AssetFlag + 5];
    assert AssetFlag + 5 in types && ManagedFlag + 3 in types && EntityType in types;
    assert !IsManaged(AssetFlag + 5) && IsManaged(ManagedFlag + 3) && !IsManaged(EntityType);
  }

  /** The three scans of createArchetype from the end of the list. */
  method FirstIndices(types: seq<nat>) returns (firstManaged: nat, firstTag: nat, firstShared: nat)
    requires Sorted(types) && |types| > 0 && types[0] == EntityType
    ensures Boundaries(types, firstManaged, firstTag, firstShared)
  {
    firstShared := |types|;
    var i := |types| - 1;
    while IsShared(types[i])
      invariant 0 <= i == firstShared - 1 && firstShared <= |types|
      invariant forall j :: i < j < |types| ==> IsShared(types[j])
      decreases i
    {
      firstShared := i;
      i := i - 1;
    }
    firstTag := firstShared;
    while IsZeroSized(types[i])
      invariant 0 <= i == firstTag - 1 && firstTag <= firstShared && !IsShared(types[i])
      invariant forall j :: i < j < firstShared ==> IsZeroSized(types[j])
      decreases i
    {
      firstTag := i;
      i := i - 1;
    }
    firstManaged := firstTag;
    while IsManaged(types[i])
      invariant 0 <= i == firstManaged - 1 && firstManaged <= firstTag && types[i] < ZeroSizedFlag
      invariant forall j :: i < j < firstTag ==> IsManaged(types[j])
      decreases i
    {
      firstManaged := i;
      i := i - 1;
    }
  }

  // Type lists with types added or removed.

  /** The first m types of src merged with the first n of types: the bigger last one comes last, an equal pair once. */
  function Merge(src: seq<nat>, m: nat, types: seq<nat>, n: nat): (r: seq<nat>)
    requires m <= |src| && n <= |types|
    ensures |r| <= m + n
  {
    if n == 0 then src[..m]
    else if m == 0 then types[..n]
    else if src[m - 1] > types[n - 1] then Merge(src, m - 1, types, n) + [src[m - 1]]
    else if src[m - 1] == types[n - 1] then Merge(src, m - 1, types, n - 1) + [types[n - 1]]
    else Merge(src, m, types, n - 1) + [types[n - 1]]
  }

  lemma AppendBigger(s: seq<nat>, x: nat)
    requires Sorted(s) && AllBelow(Elems(s), x)
    ensures Sorted(s + [x]) && Elems(s + [x]) == Elems(s) + {x}
  {
    InElems(s);
    ElemsAppend(s, x);
    assert forall i :: 0 <= i < |s| ==> s[i] in s;
  }

  lemma ElemsStep(s: seq<nat>, n: nat)
    requires Sorted(s) && 0 < n <= |s|
    ensures Elems(s[..n]) == Elems(s[..n - 1]) + {s[n - 1]} && AllBelow(Elems(s[..n - 1]), s[n - 1])
  {
    assert s[..n][..n - 1] == s[..n - 1];
    LastBiggest(s[..n]);
  }

  /** One turn: what is appended is bigger than all that was merged. */
  lemma MergeTurn(r: seq<nat>, a: set<nat>, x: nat, b: set<nat>, y: nat)
    requires Sorted(r) && AllBelow(a, x) && AllBelow(b, y)
    ensures x > y && Elems(r) == a + (b + {y}) ==> Sorted(r + [x]) && Elems(r + [x]) == (a + {x}) + (b + {y})
    ensures x == y && Elems(r) == a + b ==> Sorted(r + [y]) && Elems(r + [y]) == (a + {x}) + (b + {y})
    ensures x < y && Elems(r) == (a + {x}) + b ==> Sorted(r + [y]) && Elems(r + [y]) == (a + {x}) + (b + {y})
  {
    if x > y && Elems(r) == a + (b + {y}) {
      AppendBigger(r, x);
    } else if x == y && Elems(r) == a + b {
      AppendBigger(r, y);
    } else if x < y && Elems(r) == (a + {x}) + b {
      AppendBigger(r, y);
    }
  }

  /** The merge is the sorted union. */
  lemma {:induction false} MergeUnion(src: seq<nat>, m: nat, types: seq<nat>, n: nat)
    requires Sorted(src) && Sorted(types) && m <= |src| && n <= |types|
    ensures Sorted(Merge(src, m, types, n)) && Elems(Merge(src, m, types, n)) == Elems(src[..m]) + Elems(types[..n])
  {
    if m > 0 && n > 0 {
      ElemsStep(src, m);
      ElemsStep(types, n);
      var x, y := src[m - 1], types[n - 1];
      var m1, n1 := if x >= y then m - 1 else m, if x <= y then n - 1 else n;
      MergeUnion(src, m1, types, n1);
      MergeTurn(Merge(src, m1, types, n1), Elems(src[..m - 1]), x, Elems(types[..n - 1]), y);
    }
  }

  /** The merge is as long as the source exactly if nothing was new. */
  lemma MergeLength(src: seq<nat>, types: seq<nat>)
    requires Sorted(src) && Sorted(types)
    ensures Sorted(Merge(src, |src|, types, |types|))
    ensures Elems(Merge(src, |src|, types, |types|)) == Elems(src) + Elems(types)
    ensures |Merge(src, |src|, types, |types|)| == |src| <==> Elems(types) <= Elems(src)
  {
    var r := Merge(src, |src|, types, |types|);
    MergeUnion(src, |src|, types, |types|);
    assert src[..|src|] == src && types[..|types|] == types;
    SortedSize(r);
    SortedSize(src);
    UnionSize(Elems(src), Elems(types));
  }

  lemma UnionSize(a: set<nat>, b: set<nat>)
    ensures |a + b| == |a| <==> b <= a
  {
    if b <= a {
      assert a + b == a;
    } else {
      var t :| t in b && t !in a;
      SubsetSize(a + {t}, a + b);
    }
  }

  /** Writes the next entry in front of those written. */
  method PutFront(a: array<nat>, i: nat, x: nat, ghost out: seq<nat>)
    requires i < a.Length && a[i + 1..] == out
    modifies a
    ensures a[i..] == [x] + out
  {
    a[i] := x;
  }

  /** One turn of the merge from the back. */
  lemma MergeStep(src: seq<nat>, m: nat, types: seq<nat>, n: nat, out: seq<nat>)
    requires 0 < m <= |src| && 0 < n <= |types|
    ensures var x, y := src[m - 1], types[n - 1];
      Merge(src, m, types, n) + out ==
        if x > y then Merge(src, m - 1, types, n) + ([x] + out)
        else if x == y then Merge(src, m - 1, types, n - 1) + ([y] + out)
        else Merge(src, m, types, n - 1) + ([y] + out)
  {
  }

  lemma Shift(s: seq<nat>, x: nat, out: seq<nat>)
    ensures (s + [x]) + out == s + ([x] + out)
  {
  }

  /** The loop over the new types, from the back of the array; what it leaves of src comes before what it mixed. */
  method MergeBackwards(src: seq<nat>, types: seq<nat>) returns (dstTypes: array<nat>, mixedThings: nat, oldThings: int)
    requires |src| > 0 && forall i :: 0 <= i < |types| ==> if i == 0 then types[i] >= src[0] else types[i] > src[0]
    ensures fresh(dstTypes) && -1 <= oldThings < |src|
    ensures oldThings + 1 <= mixedThings <= dstTypes.Length == |src| + |types|
    ensures src[..oldThings + 1] + dstTypes[mixedThings..] == Merge(src, |src|, types, |types|)
  {
    hide Merge;
    ghost var all := Merge(src, |src|, types, |types|);
    dstTypes := new nat[|src| + |types|];
    mixedThings, oldThings := |src| + |types|, |src| - 1;
    var newThings := |types| - 1;
    ghost var out := [];
    while newThings >= 0
      invariant -1 <= oldThings < |src| && -1 <= newThings < |types| && (newThings >= 0 ==> oldThings >= 0)
      invariant (oldThings + 1) + (newThings + 1) <= mixedThings <= dstTypes.Length
      invariant dstTypes[mixedThings..] == out && Merge(src, oldThings + 1, types, newThings + 1) + out == all
      decreases oldThings + newThings
    {
      MergeStep(src, oldThings + 1, types, newThings + 1, out);
      var oldThing, newThing := src[oldThings], types[newThings];
      mixedThings := mixedThings - 1;
      PutFront(dstTypes, mixedThings, if oldThing > newThing then oldThing else newThing, out);
      if oldThing > newThing {
        oldThings := oldThings - 1;
      } else {
        if oldThing == newThing {
          oldThings := oldThings - 1;
        }
        newThings := newThings - 1;
      }
      out := [if oldThing > newThing then oldThing else newThing] + out;
    }
    NothingToMerge(src, oldThings + 1, types);
  }

  lemma NothingToMerge(src: seq<nat>, m: nat, types: seq<nat>)
    requires m <= |src|
    ensures Merge(src, m, types, 0) == src[..m]
  {
  }

  /** The types of both lists, or nothing if no type is new. */
  method WithAddedComponents(src: seq<nat>, types: seq<nat>) returns (r: Option<seq<nat>>)
    requires Sorted(src) && Sorted(types) && |src| > 0 && src[0] == EntityType
    requires forall i :: 0 <= i < |types| ==> types[i] >= EntityType
    ensures r.None? <==> Elems(types) <= Elems(src)
    ensures r.Some? ==> Sorted(r.value) && Elems(r.value) == Elems(src) + Elems(types)
  {
    if |types| == 0 {
      return None;
    }
    assert forall i :: 0 < i < |types| ==> types[i] > types[0];
    var dstTypes, mixedThings, oldThings := MergeBackwards(src, types);
    MergeLength(src, types);
    mixedThings := CopyRemaining(src, dstTypes, mixedThings, oldThings);
    if mixedThings == |types| {
      return None;
    }
    r := Some(dstTypes[mixedThings..]);
  }

  /** The loop that copies the remaining old types in front. */
  method CopyRemaining(src: seq<nat>, dstTypes: array<nat>, mixed: nat, old_: int) returns (mixedThings: nat)
    requires -1 <= old_ < |src| && old_ + 1 <= mixed <= dstTypes.Length
    modifies dstTypes
    ensures mixedThings <= dstTypes.Length && dstTypes[mixedThings..] == src[..old_ + 1] + old(dstTypes[mixed..])
  {
    ghost var all := src[..old_ + 1] + dstTypes[mixed..];
    mixedThings := mixed;
    var oldThings := old_;
    while oldThings >= 0
      invariant -1 <= oldThings < |src| && oldThings + 1 <= mixedThings <= dstTypes.Length
      invariant src[..oldThings + 1] + dstTypes[mixedThings..] == all
    {
      ghost var out := dstTypes[mixedThings..];
      mixedThings := mixedThings - 1;
      PutFront(dstTypes, mixedThings, src[oldThings], out);
      assert src[..oldThings + 1] == src[..oldThings] + [src[oldThings]];
      Shift(src[..oldThings], src[oldThings], out);
      oldThings := oldThings - 1;
    }
    assert src[..0] + dstTypes[mixedThings..] == dstTypes[mixedThings..];
  }

  /** The list with one more type and that type's index, or nothing if it is there already. */
  method WithAddedComponent(src: seq<nat>, newType: nat) returns (r: Option<seq<nat>>, index: nat)
    requires Sorted(src)
    ensures r.None? <==> newType in src
    ensures r.Some? ==> Sorted(r.value) && Elems(r.value) == Elems(src) + {newType}
    ensures r.Some? ==> index <= |src| && r.value == src[..index] + [newType] + src[index..]
  {
    hide Sorted, Elems;
    var newTypes := new nat[|src| + 1];
    var t := 0;
    while t < |src| && src[t] < newType
      invariant 0 <= t <= |src| && newTypes[..t] == src[..t]
      invariant forall j :: 0 <= j < t ==> src[j] < newType
    {
      newTypes[t] := src[t];
      t := t + 1;
    }
    index := t;
    if t != |src| && src[t] == newType {
      return None, index;
    }
    Between(src, index, newType);
    newTypes[t] := newType;
    assert newTypes[..index] == src[..index];
    while t < |src|
      invariant index <= t <= |src|
      invariant newTypes[..t + 1] == src[..index] + [newType] + src[index..t]
    {
      newTypes[t + 1] := src[t];
      t := t + 1;
    }
    r := Some(newTypes[..]);
    assert newTypes[..] == newTypes[..t + 1] && src[index..t] == src[index..];
    Inserted(src, index, newType);
    InsertedElems(src, index, newType);
  }

  /** What is bigger than all before a place and smaller than what stands there is not in the list. */
  lemma Between(src: seq<nat>, index: nat, x: nat)
    requires Sorted(src) && index <= |src| && forall j :: 0 <= j < index ==> src[j] < x
    requires index < |src| ==> src[index] > x
    ensures x !in src && forall j :: index <= j < |src| ==> src[j] > x
  {
  }

  lemma InsertedElems(s: seq<nat>, i: nat, t: nat)
    requires i <= |s|
    ensures Elems(s[..i] + [t] + s[i..]) == Elems(s) + {t}
  {
    var d := s[..i] + [t] + s[i..];
    InElems(s);
    InElems(d);
    assert s == s[..i] + s[i..];
    forall x ensures x in d <==> x in s || x == t {}
  }

  lemma Inserted(src: seq<nat>, i: nat, t: nat)
    requires Sorted(src) && i <= |src| && forall j :: 0 <= j < |src| ==> if j < i then src[j] < t else t < src[j]
    ensures Sorted(src[..i] + [t] + src[i..])
  {
  }

  /** The list without a type, or nothing if it is not there. */
  method WithRemovedComponent(types: seq<nat>, oldType: nat) returns (r: Option<seq<nat>>, index: nat)
    requires Sorted(types)
    ensures r.None? <==> oldType !in types
    ensures r.Some? ==> Sorted(r.value) && Elems(r.value) == Elems(types) - {oldType}
    ensures r.Some? ==> index < |types| && types[index] == oldType && r.value == types[..index] + types[index + 1..]
  {
    hide Sorted, Elems, Omitting;
    var newTypes := new nat[|types|];
    var removedTypes := 0;
    index := 0;
    OmittingNone(types, oldType);
    for t := 0 to |types|
      invariant removedTypes == t - |Omitting(types, oldType, t)| <= 1
      invariant newTypes[..t - removedTypes] == Omitting(types, oldType, t)
      invariant removedTypes == 0 ==> forall j :: 0 <= j < t ==> types[j] != oldType
      invariant removedTypes == 1 ==> index < t && types[index] == oldType
    {
      OmittingStep(types, oldType, t);
      NoneTwice(types, index, t);
      if types[t] == oldType {
        index := t;
        removedTypes := removedTypes + 1;
      } else {
        newTypes[t - removedTypes] := types[t];
      }
    }
    InElems(types);
    if removedTypes == 0 {
      return None, index;
    }
    r := Some(newTypes[..|types| - removedTypes]);
    OmittingSorted(types, oldType, |types|);
    OmittingElems(types, oldType, |types|);
    OmittingOne(types, index, |types|);
    assert types[..|types|] == types && types[index + 1..|types|] == types[index + 1..];
  }

  /** What getArchetypeWithRemovedComponents puts in its list: for a type that stays, at place t, not the t-th type of
      the archetype but that of the list of types to remove, or what lies beyond it. */
  function Misread(src: seq<nat>, types: seq<nat>, n: nat, beyond: nat -> nat): seq<nat>
    requires n <= |src|
  {
    if n == 0 then []
    else
      var read := if n - 1 < |types| then types[n - 1] else beyond(n - 1);
      Misread(src, types, n - 1, beyond) + if src[n - 1] in types then [] else [read]
  }

  method WithRemovedComponents(src: seq<nat>, types: seq<nat>, beyond: nat -> nat) returns (r: Option<seq<nat>>)
    ensures r.None? <==> forall t :: t in types ==> t !in src
    ensures r.Some? ==> r.value == Misread(src, types, |src|, beyond) && types != []
  {
    var newTypes := new nat[|src|];
    var numRemovedTypes := 0;
    for t := 0 to |src|
      invariant 0 <= numRemovedTypes <= t && newTypes[..t - numRemovedTypes] == Misread(src, types, t, beyond)
      invariant numRemovedTypes == 0 <==> forall j :: 0 <= j < t ==> src[j] !in types
    {
      var remove := false;
      for i := 0 to |types|
        invariant remove <==> src[t] in types[..i]
      {
        assert types[..i + 1] == types[..i] + [types[i]];
        if src[t] == types[i] {
          remove := true;
        }
      }
      assert types[..|types|] == types;
      if remove {
        numRemovedTypes := numRemovedTypes + 1;
      } else {
        newTypes[t - numRemovedTypes] := if t < |types| then types[t] else beyond(t);
      }
    }
    if numRemovedTypes == 0 {
      return None;
    }
    r := Some(newTypes[..|src| - numRemovedTypes]);
  }

  /** If the first type stays, the list begins with the first type to remove. */
  lemma {:induction false} MisreadFirst(src: seq<nat>, types: seq<nat>, n: nat, beyond: nat -> nat)
    requires 0 < n <= |src| && src[0] !in types && types != []
    ensures Misread(src, types, n, beyond) != [] && Misread(src, types, n, beyond)[0] == types[0]
  {
    if n > 1 {
      MisreadFirst(src, types, n - 1, beyond);
    } else {
      assert Misread(src, types, 0, beyond) == [];
    }
  }

  /** The first n entries of a list, without x. */
  function Omitting(s: seq<nat>, x: nat, n: nat): (r: seq<nat>)
    requires n <= |s|
    ensures |r| <= n
  {
    if n == 0 then [] else Omitting(s, x, n - 1) + if s[n - 1] == x then [] else [s[n - 1]]
  }

  lemma NoneTwice(s: seq<nat>, i: nat, j: nat)
    requires Sorted(s) && j < |s|
    ensures i < j ==> s[i] != s[j]
  {
  }

  lemma OmittingNone(s: seq<nat>, x: nat)
    ensures Omitting(s, x, 0) == []
  {
  }

  lemma {:induction false} OmittingOne(s: seq<nat>, i: nat, n: nat)
    requires Sorted(s) && i < n <= |s|
    ensures Omitting(s, s[i], n) == s[..i] + s[i + 1..n]
  {
    if n == i + 1 {
      OmittingAbove(s, s[i], i);
    } else {
      OmittingOne(s, i, n - 1);
      assert s[i + 1..n] == s[i + 1..n - 1] + [s[n - 1]];
    }
  }

  lemma {:induction false} OmittingAbove(s: seq<nat>, x: nat, n: nat)
    requires n <= |s| && forall j :: 0 <= j < n ==> s[j] < x
    ensures Omitting(s, x, n) == s[..n]
  {
    if n > 0 {
      OmittingAbove(s, x, n - 1);
      assert s[..n] == s[..n - 1] + [s[n - 1]];
    }
  }

  lemma OmittingStep(s: seq<nat>, x: nat, n: nat)
    requires n < |s|
    ensures Omitting(s, x, n + 1) == Omitting(s, x, n) + if s[n] == x then [] else [s[n]]
  {
  }

  lemma {:induction false} OmittingElems(s: seq<nat>, x: nat, n: nat)
    requires n <= |s|
    ensures Elems(Omitting(s, x, n)) == Elems(s[..n]) - {x}
  {
    if n > 0 {
      OmittingElems(s, x, n - 1);
      var a, d, y := s[..n - 1], Omitting(s, x, n - 1), s[n - 1];
      assert s[..n] == a + [y];
      assert Omitting(s, x, n) == if y == x then d else d + [y] by { assert d + [] == d; }
      hide *;
      ElemsAppend(a, y);
      ElemsAppend(d, y);
    }
  }

  lemma {:induction false} OmittingSorted(s: seq<nat>, x: nat, n: nat)
    requires Sorted(s) && n <= |s|
    ensures Sorted(Omitting(s, x, n))
    ensures forall j :: 0 <= j < |Omitting(s, x, n)| ==> n > 0 && Omitting(s, x, n)[j] <= s[n - 1]
  {
    if n > 0 {
      OmittingSorted(s, x, n - 1);
      if n > 1 { assert s[n - 2] < s[n - 1]; }
    }
  }

  /** Adding an absent component and then removing it gives back the same type list. */
  lemma AddThenRemove(types: seq<nat>, t: nat, added: seq<nat>, removed: seq<nat>)
    requires Sorted(types) && t !in Elems(types)
    requires Sorted(added) && Elems(added) == Elems(types) + {t}
    requires Sorted(removed) && Elems(removed) == Elems(added) - {t}
    ensures removed == types
  {
    assert Elems(removed) == Elems(types);
    SortedUnique(removed, types);
  }
}
