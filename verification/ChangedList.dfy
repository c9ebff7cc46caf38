/** The list of changed archetypes (src/ECS/ChunkListChanges.cpp:6-13, src/ECS/EntityQueryManager.cpp:181-194). One is
    in it while its link is not null, but the first one tracked has a null link: tracked again it closes a cycle. */
module ChangedList {

  datatype Link = Null | To(index: nat)

  /** order lists the tracked archetypes, each once, as the links lead from the head; the last link is null or leads
      back into the list. All other archetypes have no link. */
  ghost predicate Shape(next: seq<Link>, head: Link, order: seq<nat>) {
    && (forall i :: 0 <= i < |order| ==> order[i] < |next|)
    && (forall i, j :: 0 <= i < j < |order| ==> order[i] != order[j])
    && head == (if order == [] then Null else To(order[0]))
    && (forall i :: 0 <= i < |order| - 1 ==> Follows(next, order, i))
    && (order != [] ==> var last := next[order[|order| - 1]]; last == Null || last.index in order)
    && (forall a :: 0 <= a < |next| && a !in order ==> next[a] == Null)
  }

  predicate Follows(next: seq<Link>, order: seq<nat>, i: nat)
    requires i < |order| - 1 && order[i] < |next|
  {
    next[order[i]] == To(order[i + 1])
  }

  /** The list after tracking a: in front if it was new, moved to the front if it was the last with a null link. */
  function TrackedOrder(next: seq<Link>, order: seq<nat>, a: nat): seq<nat>
    requires a < |next|
  {
    if next[a] != Null then order
    else if a in order then [a] + order[..|order| - 1]
    else [a] + order
  }

  lemma TrackNew(next: seq<Link>, head: Link, order: seq<nat>, a: nat)
    requires Shape(next, head, order) && a < |next| && a !in order
    ensures Shape(next[a := head], To(a), [a] + order)
  {
    var next1, order1 := next[a := head], [a] + order;
    forall i | 0 <= i < |order1| - 1 ensures Follows(next1, order1, i) {
      if i > 0 { assert order[i - 1] != a && order1[i] == order[i - 1] && Follows(next, order, i - 1); }
    }
  }

  /** Only the last link can be null. */
  lemma OnlyLastNull(next: seq<Link>, head: Link, order: seq<nat>, i: nat)
    requires Shape(next, head, order) && i < |order|
    ensures next[order[i]] == Null ==> i == |order| - 1
  {
    if i < |order| - 1 { assert Follows(next, order, i); }
  }

  lemma TrackLast(next: seq<Link>, head: Link, order: seq<nat>, a: nat)
    requires Shape(next, head, order) && order != [] && a == order[|order| - 1] && next[a] == Null
    ensures Shape(next[a := head], To(a), [a] + order[..|order| - 1])
  {
    var next1, order1, n := next[a := head], [a] + order[..|order| - 1], |order|;
    Rotated(order);
    assert forall i :: 0 < i < n ==> order1[i] == order[i - 1];
    forall i | 0 <= i < n - 1 ensures Follows(next1, order1, i) {
      if i > 0 { assert order[i - 1] != a && Follows(next, order, i - 1); }
    }
    if n > 1 { assert Follows(next, order, n - 2); }
  }

  lemma Rotated(order: seq<nat>)
    requires order != []
    ensures forall x :: x in [order[|order| - 1]] + order[..|order| - 1] <==> x in order
  {
    assert order == order[..|order| - 1] + [order[|order| - 1]];
  }

  /** trackArchetype keeps the shape, and tracks the archetype besides those tracked before. */
  lemma TrackKeeps(next: seq<Link>, head: Link, order: seq<nat>, a: nat)
    requires Shape(next, head, order) && a < |next|
    ensures var order1 := TrackedOrder(next, order, a);
      && (next[a] != Null ==> Shape(next, head, order1))
      && (next[a] == Null ==> Shape(next[a := head], To(a), order1))
      && forall x :: x in order1 <==> x in order || x == a
  {
    if next[a] == Null {
      if a in order {
        var i :| 0 <= i < |order| && order[i] == a;
        OnlyLastNull(next, head, order, i);
        TrackLast(next, head, order, a);
        Rotated(order);
      } else {
        TrackNew(next, head, order, a);
      }
    }
  }

  /** The last link is not null. */
  predicate Closed(next: seq<Link>, order: seq<nat>)
    requires forall i :: 0 <= i < |order| ==> order[i] < |next|
  {
    order != [] && next[order[|order| - 1]] != Null
  }

  lemma NewStays(next: seq<Link>, head: Link, order: seq<nat>, a: nat)
    requires Shape(next, head, order) && a < |next| && a !in order && Shape(next[a := head], To(a), [a] + order)
    ensures Closed(next[a := head], [a] + order) <==> Closed(next, order)
  {
    if order != [] {
      assert ([a] + order)[|order|] == order[|order| - 1] != a;
    }
  }

  lemma LastCloses(next: seq<Link>, head: Link, order: seq<nat>, a: nat)
    requires Shape(next, head, order) && order != [] && a == order[|order| - 1]
    requires Shape(next[a := head], To(a), [a] + order[..|order| - 1])
    ensures Closed(next[a := head], [a] + order[..|order| - 1])
  {
    var n := |order|;
    if n > 1 {
      assert Follows(next, order, n - 2);
      assert ([a] + order[..n - 1])[n - 1] == order[n - 2] != a;
    }
  }

  /** Tracking closes the list into a cycle exactly if it tracks, again, the one archetype in it whose link is null. */
  lemma TrackCloses(next: seq<Link>, head: Link, order: seq<nat>, a: nat)
    requires Shape(next, head, order) && a < |next| && next[a] == Null
    ensures var order1 := TrackedOrder(next, order, a);
      Shape(next[a := head], To(a), order1) && (Closed(next[a := head], order1) <==> Closed(next, order) || a in order)
  {
    TrackKeeps(next, head, order, a);
    if a in order {
      var i :| 0 <= i < |order| && order[i] == a;
      OnlyLastNull(next, head, order, i);
      LastCloses(next, head, order, a);
    } else {
      NewStays(next, head, order, a);
    }
  }

  /** A list that closes: two archetypes tracked, then the first of them again. */
  lemma CycleArises(next: seq<Link>)
    requires |next| >= 2 && forall a :: 0 <= a < |next| ==> next[a] == Null
    ensures var once := next[0 := Null]; var twice := once[1 := To(0)]; var again := twice[0 := To(1)];
      Shape(next, Null, []) && Shape(once, To(0), [0]) && Shape(twice, To(1), [1, 0]) && Shape(again, To(0), [0, 1])
      && again[0] == To(1) && again[1] == To(0)
  {
    assert forall a :: 0 <= a < |next| && a !in [0, 1] ==> a > 1;
  }

  /** The links after the first i archetypes of the list were visited. */
  function Cleared(next: seq<Link>, order: seq<nat>, i: nat): (r: seq<Link>)
    requires i <= |order| && forall k :: 0 <= k < |order| ==> order[k] < |next|
    ensures |r| == |next|
  {
    if i == 0 then next else Cleared(next, order, i - 1)[order[i - 1] := Null]
  }

  lemma {:induction false} ClearedAt(next: seq<Link>, order: seq<nat>, i: nat, a: nat)
    requires i <= |order| && (forall k :: 0 <= k < |order| ==> order[k] < |next|) && a < |next|
    ensures Cleared(next, order, i)[a] == if a in order[..i] then Null else next[a]
  {
    if i > 0 {
      ClearedAt(next, order, i - 1, a);
      assert order[..i] == order[..i - 1] + [order[i - 1]];
    }
  }

  /** Where the walk stands after i archetypes: at the next one, or, after the last, at its link. */
  function Cursor(next: seq<Link>, order: seq<nat>, i: nat): Link
    requires i <= |order| && forall k :: 0 <= k < |order| ==> order[k] < |next|
  {
    if i < |order| then To(order[i]) else if order == [] then Null else next[order[|order| - 1]]
  }

  /** One turn of the walk: what it reads is the next archetype's link as it was before the walk. */
  lemma WalkStep(next: seq<Link>, head: Link, order: seq<nat>, i: nat)
    requires Shape(next, head, order) && i < |order|
    ensures Cleared(next, order, i)[order[i]] == Cursor(next, order, i + 1)
  {
    ClearedAt(next, order, i, order[i]);
    if i < |order| - 1 { assert Follows(next, order, i); }
  }

  /** After the last archetype the walk stops, or meets one it has visited, whose link is null by now. */
  lemma WalkEnd(next: seq<Link>, head: Link, order: seq<nat>)
    requires Shape(next, head, order)
    ensures forall a :: 0 <= a < |next| ==> Cleared(next, order, |order|)[a] == Null
    ensures Cursor(next, order, |order|).To? ==> Cursor(next, order, |order|).index in order
  {
    forall a | 0 <= a < |next| ensures Cleared(next, order, |order|)[a] == Null {
      ClearedAt(next, order, |order|, a);
      assert order[..|order|] == order;
    }
  }
}
