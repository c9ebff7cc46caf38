/** The shared values of an entity that gains or loses components (src/ECS/EntityComponentStore.cpp:683-805). */
module SharedIndices {
  import opened Types
  import opened Archetypes

  /** The i-th shared type of an archetype. */
  function SharedType(kind: Kind, i: nat): nat
    requires kind.firstShared + i < |kind.types|
  {
    kind.types[kind.firstShared + i]
  }

  function SharedCountOf(kind: Kind): int {
    |kind.types| - kind.firstShared
  }

  /** The value at j is the one the source has for that type, or the default if it has none. */
  ghost predicate Carried(src: Kind, values: seq<nat>, dst: Kind, defaultOf: nat -> nat, j: nat, value: nat)
    requires j < SharedCountOf(dst) && |values| == SharedCountOf(src)
  {
    && (forall i: nat :: i < |values| && SharedType(src, i) == SharedType(dst, j) ==> value == values[i])
    && ((forall i: nat :: i < |values| ==> SharedType(src, i) != SharedType(dst, j)) ==>
          value == defaultOf(SharedType(dst, j)))
  }

  /** Every shared type of the source is one of the destination. */
  lemma SharedIn(src: Kind, dst: Kind, i: nat)
    requires KindOk(src) && KindOk(dst) && Elems(src.types) <= Elems(dst.types) && i < SharedCountOf(src)
    ensures exists j: nat :: j < SharedCountOf(dst) && SharedType(dst, j) == SharedType(src, i)
  {
    InElems(src.types);
    InElems(dst.types);
    var t := SharedType(src, i);
    assert t in src.types;
    var x :| 0 <= x < |dst.types| && dst.types[x] == t;
    assert x >= dst.firstShared;
    assert SharedType(dst, x - dst.firstShared) == t;
  }

  /** How far the two cursors have come: the source types behind are bigger than the destination type looked at, those
      ahead are not. */
  ghost predicate Cursors(src: Kind, dst: Kind, oldIndex: int, newIndex: int) {
    && -1 <= oldIndex < SharedCountOf(src) && -1 <= newIndex < SharedCountOf(dst)
    && (newIndex >= 0 ==> forall i: nat :: oldIndex < i < SharedCountOf(src) ==>
          SharedType(src, i) > SharedType(dst, newIndex))
    && (forall i: nat :: i <= oldIndex ==> newIndex >= 0 && SharedType(src, i) <= SharedType(dst, newIndex))
  }

  /** Shared types ascend. */
  lemma SharedAscend(kind: Kind, i: nat, j: nat)
    requires KindOk(kind) && i < SharedCountOf(kind) && j < SharedCountOf(kind)
    ensures i < j <==> SharedType(kind, i) < SharedType(kind, j)
  {
    assert i < j ==> kind.types[kind.firstShared + i] < kind.types[kind.firstShared + j];
    assert j < i ==> kind.types[kind.firstShared + j] < kind.types[kind.firstShared + i];
  }

  /** A source type below a destination type is not above the one before it. */
  lemma BelowNext(src: Kind, dst: Kind, i: nat, newIndex: nat)
    requires KindOk(src) && KindOk(dst) && Elems(src.types) <= Elems(dst.types)
    requires i < SharedCountOf(src) && newIndex < SharedCountOf(dst)
    requires SharedType(src, i) < SharedType(dst, newIndex)
    ensures newIndex > 0 && SharedType(src, i) <= SharedType(dst, newIndex - 1)
  {
    SharedIn(src, dst, i);
    var j: nat :| j < SharedCountOf(dst) && SharedType(dst, j) == SharedType(src, i);
    SharedAscend(dst, j, newIndex);
    SharedAscend(dst, newIndex - 1, j);
  }

  /** Both cursors stand at the same type. */
  lemma CommonStep(src: Kind, dst: Kind, oldIndex: nat, newIndex: nat)
    requires KindOk(src) && KindOk(dst) && Elems(src.types) <= Elems(dst.types)
    requires Cursors(src, dst, oldIndex, newIndex) && SharedType(src, oldIndex) == SharedType(dst, newIndex)
    ensures Cursors(src, dst, oldIndex - 1, newIndex - 1)
  {
    hide KindOk;
    if oldIndex > 0 {
      SharedAscend(src, 0, oldIndex);
      BelowNext(src, dst, 0, newIndex);
    }
    forall i: nat | i <= oldIndex - 1 ensures newIndex > 0 && SharedType(src, i) <= SharedType(dst, newIndex - 1) {
      SharedAscend(src, i, oldIndex);
      BelowNext(src, dst, i, newIndex);
    }
    if newIndex > 0 {
      SharedAscend(dst, newIndex - 1, newIndex);
    }
  }

  /** The destination type is new. */
  lemma NewStep(src: Kind, dst: Kind, oldIndex: int, newIndex: nat)
    requires KindOk(src) && KindOk(dst) && Elems(src.types) <= Elems(dst.types)
    requires Cursors(src, dst, oldIndex, newIndex)
    requires oldIndex >= 0 ==> SharedType(src, oldIndex) != SharedType(dst, newIndex)
    ensures Cursors(src, dst, oldIndex, newIndex - 1)
    ensures forall i: nat :: i < SharedCountOf(src) ==> SharedType(src, i) != SharedType(dst, newIndex)
  {
    hide KindOk;
    if oldIndex >= 0 {
      SharedAscend(src, 0, oldIndex);
      BelowNext(src, dst, 0, newIndex);
    }
    forall i: nat | i <= oldIndex
      ensures SharedType(src, i) < SharedType(dst, newIndex)
      ensures newIndex > 0 && SharedType(src, i) <= SharedType(dst, newIndex - 1)
    {
      SharedAscend(src, i, oldIndex);
      BelowNext(src, dst, i, newIndex);
    }
    if newIndex > 0 {
      SharedAscend(dst, newIndex - 1, newIndex);
    }
  }

  lemma CursorStep(src: Kind, dst: Kind, oldIndex: int, newIndex: nat)
    requires KindOk(src) && KindOk(dst) && Elems(src.types) <= Elems(dst.types)
    requires Cursors(src, dst, oldIndex, newIndex)
    ensures src.types[oldIndex + src.firstShared] == SharedType(dst, newIndex) ==>
      oldIndex >= 0 && Cursors(src, dst, oldIndex - 1, newIndex - 1)
    ensures src.types[oldIndex + src.firstShared] != SharedType(dst, newIndex) ==>
      && Cursors(src, dst, oldIndex, newIndex - 1)
      && forall i: nat :: i < SharedCountOf(src) ==> SharedType(src, i) != SharedType(dst, newIndex)
  {
    assert oldIndex < 0 ==> !IsShared(src.types[src.firstShared - 1]) && IsShared(SharedType(dst, newIndex));
    hide KindOk, Cursors;
    if src.types[oldIndex + src.firstShared] == SharedType(dst, newIndex) {
      CommonStep(src, dst, oldIndex, newIndex);
    } else {
      NewStep(src, dst, oldIndex, newIndex);
    }
  }

  lemma CursorStart(src: Kind, dst: Kind)
    requires KindOk(src) && KindOk(dst) && Elems(src.types) <= Elems(dst.types)
    ensures Cursors(src, dst, SharedCountOf(src) - 1, SharedCountOf(dst) - 1)
  {
    forall i: nat | i < SharedCountOf(src) ensures SharedCountOf(dst) > 0
      && SharedType(src, i) <= SharedType(dst, SharedCountOf(dst) - 1) {
      SharedIn(src, dst, i);
    }
  }

  /** Equally many shared types, all of them common: the same ones. */
  lemma {:induction false} SameSharedTypes(src: Kind, dst: Kind, oldIndex: int, newIndex: int, i: nat)
    requires KindOk(src) && KindOk(dst) && Elems(src.types) <= Elems(dst.types)
    requires Cursors(src, dst, oldIndex, newIndex) && oldIndex == newIndex && i <= oldIndex
    ensures SharedType(src, i) == SharedType(dst, i)
    decreases oldIndex
  {
    CursorStep(src, dst, oldIndex, newIndex);
    if src.types[oldIndex + src.firstShared] == SharedType(dst, newIndex) {
      if i < oldIndex { SameSharedTypes(src, dst, oldIndex - 1, newIndex - 1, i); }
    } else {
      TooFew(src, dst, oldIndex, newIndex - 1);
    }
  }

  /** More source types ahead than destination types cannot be. */
  lemma {:induction false} TooFew(src: Kind, dst: Kind, oldIndex: int, newIndex: int)
    requires KindOk(src) && KindOk(dst) && Elems(src.types) <= Elems(dst.types)
    requires Cursors(src, dst, oldIndex, newIndex) && oldIndex > newIndex
    ensures false
    decreases newIndex
  {
    assert SharedType(src, oldIndex) == src.types[src.firstShared + oldIndex];
    if newIndex >= 0 {
      CursorStep(src, dst, oldIndex, newIndex);
      if src.types[oldIndex + src.firstShared] == SharedType(dst, newIndex) {
        TooFew(src, dst, oldIndex - 1, newIndex - 1);
      } else {
        TooFew(src, dst, oldIndex, newIndex - 1);
      }
    }
  }

  lemma BuildStep(src: Kind, values: seq<nat>, dst: Kind, defaultOf: nat -> nat, oldIndex: int, newIndex: int)
    requires KindOk(src) && KindOk(dst) && Elems(src.types) <= Elems(dst.types) && |values| == SharedCountOf(src)
    requires Cursors(src, dst, oldIndex, newIndex) && newIndex >= 0
    ensures src.types[oldIndex + src.firstShared] == SharedType(dst, newIndex) ==>
      oldIndex >= 0 && Cursors(src, dst, oldIndex - 1, newIndex - 1)
      && Carried(src, values, dst, defaultOf, newIndex, values[oldIndex])
    ensures src.types[oldIndex + src.firstShared] != SharedType(dst, newIndex) ==>
      Cursors(src, dst, oldIndex, newIndex - 1)
      && Carried(src, values, dst, defaultOf, newIndex, defaultOf(SharedType(dst, newIndex)))
  {
    CursorStep(src, dst, oldIndex, newIndex);
    if src.types[oldIndex + src.firstShared] == SharedType(dst, newIndex) {
      assert SharedType(src, oldIndex) == SharedType(dst, newIndex);
    }
  }

  lemma AllKept(src: Kind, values: seq<nat>, dst: Kind, defaultOf: nat -> nat)
    requires KindOk(src) && KindOk(dst) && Elems(src.types) <= Elems(dst.types)
    requires |values| == SharedCountOf(src) == SharedCountOf(dst)
    ensures forall j: nat :: j < |values| ==> Carried(src, values, dst, defaultOf, j, values[j])
  {
    CursorStart(src, dst);
    forall j: nat | j < |values| ensures Carried(src, values, dst, defaultOf, j, values[j]) {
      SameSharedTypes(src, dst, |values| - 1, |values| - 1, j);
    }
  }

  /** Each shared type the source has keeps its value; the others get their default. */
  method BuildWithAddedComponents(src: Kind, values: seq<nat>, dst: Kind, defaultOf: nat -> nat) returns (out: seq<nat>)
    requires KindOk(src) && KindOk(dst) && Elems(src.types) <= Elems(dst.types) && |values| == SharedCountOf(src)
    ensures |out| == SharedCountOf(dst)
    ensures forall j: nat :: j < |out| ==> Carried(src, values, dst, defaultOf, j, out[j])
  {
    hide Carried, Sorted, Elems;
    var oldCount, newCount := |src.types| - src.firstShared, |dst.types| - dst.firstShared;
    if newCount != oldCount {
      CursorStart(src, dst);
      out := seq(newCount, _ => 0);
      var oldIndex, newIndex := oldCount - 1, newCount - 1;
      while newIndex >= 0
        invariant Cursors(src, dst, oldIndex, newIndex) && |out| == newCount
        invariant forall j: nat :: newIndex < j < newCount ==> Carried(src, values, dst, defaultOf, j, out[j])
      {
        BuildStep(src, values, dst, defaultOf, oldIndex, newIndex);
        var oldType := dst.types[newIndex + dst.firstShared];
        if oldType == src.types[oldIndex + src.firstShared] {
          out := out[newIndex := values[oldIndex]];
          oldIndex := oldIndex - 1;
        } else {
          out := out[newIndex := defaultOf(oldType)];
        }
        newIndex := newIndex - 1;
      }
    } else {
      AllKept(src, values, dst, defaultOf);
      out := values;
    }
  }

  // One component. The values go to an array on the stack; memory is what it holds before, and the word behind it.

  /** What addComponent leaves in the array: after the new value one word is not written. */
  function AddedWords(values: seq<nat>, index: nat, value: nat, memory: seq<nat>): (out: seq<nat>)
    requires index <= |values| < |memory|
    ensures |out| == |values| + 1
  {
    seq(|values| + 1, j requires 0 <= j <= |values| =>
      if j < index then values[j] else if j == index then value
      else if j == index + 1 then memory[j] else values[j - 1])
  }

  /** What removeComponent leaves in the array: the last word is not written. */
  function RemovedWords(values: seq<nat>, index: nat, memory: seq<nat>): (out: seq<nat>)
    requires index < |values| <= |memory|
    ensures |out| == |values| - 1
  {
    seq(|values| - 1, j requires 0 <= j < |values| - 1 =>
      if j < index then values[j] else if j < |values| - 2 then values[j + 1] else memory[j])
  }

  /** Each value is where it belongs exactly if the new type comes last, or the unwritten word happens to hold the
      value that was to be written there. */
  lemma AddedRight(values: seq<nat>, index: nat, value: nat, memory: seq<nat>)
    requires index <= |values| < |memory|
    ensures AddedWords(values, index, value, memory) == values[..index] + [value] + values[index..] <==>
      index == |values| || memory[index + 1] == values[index]
  {
    var out, right := AddedWords(values, index, value, memory), values[..index] + [value] + values[index..];
    if index < |values| {
      assert out[index + 1] == memory[index + 1] && right[index + 1] == values[index];
    }
  }

  lemma RemovedRight(values: seq<nat>, index: nat, memory: seq<nat>)
    requires index < |values| <= |memory|
    ensures RemovedWords(values, index, memory) == values[..index] + values[index + 1..] <==>
      index == |values| - 1 || memory[|values| - 2] == values[|values| - 1]
  {
    var out, right := RemovedWords(values, index, memory), values[..index] + values[index + 1..];
    var last := |values| - 2;
    if index <= last {
      assert out[last] == memory[last] && right[last] == values[last + 1];
    }
  }

  /** An entity with two shared components gains one between them: its value for the upper one is lost. */
  lemma MiddleValueLost()
    ensures var memory := seq(MaximumSharedCount + 1, _ => 0);
      && AddedWords([7, 9], 1, 8, memory) == [7, 8, 0] && RemovedWords([7, 8, 9], 1, memory) == [7, 0]
  {
  }

  /** buildSharedComponentIndicesWithAddedComponent. The output pointer moves on with the loop counter after the new
      value, so the words after it are written one place too far, the last with what lies beyond the old values. */
  method BuildWithAddedComponent(values: seq<nat>, beyond: nat, newCount: nat, index: int, value: nat, memory: seq<nat>)
    returns (out: seq<nat>)
    requires |memory| == MaximumSharedCount + 1 && newCount <= MaximumSharedCount
    requires newCount == |values| || (newCount == |values| + 1 && 0 <= index < newCount)
    ensures out == if newCount == |values| then values else AddedWords(values, index, value, memory)
  {
    var words := new nat[MaximumSharedCount + 1](i requires 0 <= i <= MaximumSharedCount => memory[i]);
    assert words[..] == memory;
    if newCount != |values| {
      var outSharedComponentValues := 0;
      for i := 0 to newCount
        invariant outSharedComponentValues == if i <= index then 0 else 1
        invariant forall j :: 0 <= j < i && j < index ==> words[j] == values[j]
        invariant i > index ==> words[index] == value
        invariant forall j :: index + 1 < j <= i ==> words[j] == if j <= |values| then values[j - 1] else beyond
        invariant index + 1 < words.Length && words[index + 1] == memory[index + 1]
      {
        if i == index {
          words[outSharedComponentValues + index] := value;
          outSharedComponentValues := outSharedComponentValues + 1;
        } else {
          words[outSharedComponentValues + i] := if i < |values| then values[i] else beyond;
        }
      }
    } else {
      for i := 0 to newCount
        invariant words[..i] == values[..i]
      {
        words[i] := values[i];
      }
    }
    out := words[..newCount];
  }

  /** buildSharedComponentIndicesWithRemovedComponent. Here the pointer moves back, so the last word stays unwritten
      unless the last type is the one removed. */
  method BuildWithRemovedComponent(values: seq<nat>, newCount: nat, index: int, memory: seq<nat>)
    returns (out: seq<nat>)
    requires |memory| == MaximumSharedCount + 1 && |values| <= MaximumSharedCount
    requires newCount == |values| || (newCount + 1 == |values| && 0 <= index <= newCount)
    ensures out == if newCount == |values| then values else RemovedWords(values, index, memory)
  {
    var words := new nat[MaximumSharedCount + 1](i requires 0 <= i <= MaximumSharedCount => memory[i]);
    assert words[..] == memory;
    if newCount != |values| {
      var outSharedComponentValues := 0;
      for i := 0 to newCount
        invariant outSharedComponentValues == if i <= index then 0 else -1
        invariant forall j :: 0 <= j < i && j < index ==> words[j] == values[j]
        invariant forall j :: index <= j < i - 1 ==> words[j] == values[j + 1]
        invariant forall j :: i - 1 <= j < words.Length && index <= j ==> words[j] == memory[j]
      {
        if i == index {
          outSharedComponentValues := outSharedComponentValues - 1;
        } else {
          words[outSharedComponentValues + i] := values[i];
        }
      }
    } else {
      for i := 0 to newCount
        invariant words[..i] == values[..i]
      {
        words[i] := values[i];
      }
    }
    out := words[..newCount];
  }
}
