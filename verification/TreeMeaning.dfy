/** What a valid red-black tree says about the nodes in memory (external/uv/tree.h): search order, parent
    links, colours and balance, read off the pointers. */
module TreeMeaning {
  import opened TreeShape
  import opened TreeSteps

  /** The nodes from the smallest to the biggest. */
  function InOrder(t: Tree): seq<nat> {
    if t.Leaf? then [] else InOrder(t.left) + [t.id] + InOrder(t.right)
  }

  /** Read in order, the keys of the nodes rise strictly, and every node is read. */
  lemma {:induction false} KeysRise(key: nat -> int, t: Tree, lo: Bound, hi: Bound)
    requires Ordered(key, t, lo, hi)
    ensures forall i, j :: 0 <= i < j < |InOrder(t)| ==> key(InOrder(t)[i]) < key(InOrder(t)[j])
    ensures forall i :: 0 <= i < |InOrder(t)| ==> Within(lo, key(InOrder(t)[i]), hi)
    ensures forall x :: x in InOrder(t) <==> x in Ids(t)
  {
    if t.Node? {
      KeysRise(key, t.left, lo, Key(key(t.id)));
      KeysRise(key, t.right, Key(key(t.id)), hi);
    }
  }

  /** The root of a subtree has the parent given, and a child's parent is the node itself. */
  lemma {:induction false} ParentLinks(mem: Memory, t: Tree, parent: nat, x: nat, s: Side)
    requires Lies(mem, t, parent) && x in Ids(t)
    ensures x != Nil && x in mem && (mem[x].parent == parent || mem[x].parent in Ids(t))
    ensures x == t.id ==> mem[x].parent == parent
    ensures var child := mem[x].Child(s); child != Nil ==> child in Ids(t) && child in mem && mem[child].parent == x
  {
    if x in Ids(t.left) && x != t.id {
      ParentLinks(mem, t.left, t.id, x, s);
    } else if x in Ids(t.right) && x != t.id {
      ParentLinks(mem, t.right, t.id, x, s);
    }
  }

  /** No red node has a red child. */
  lemma {:induction false} BlackChildren(mem: Memory, t: Tree, parent: nat, x: nat, s: Side)
    requires Lies(mem, t, parent) && NoRedRed(t) && x in Ids(t) && x in mem && mem[x].red
    ensures var child := mem[x].Child(s); child == Nil || (child in mem && !mem[child].red)
  {
    if x != t.id {
      if x in Ids(t.left) {
        BlackChildren(mem, t.left, t.id, x, s);
      } else {
        BlackChildren(mem, t.right, t.id, x, s);
      }
    }
  }

  /** Going down from x by these sides ends at a null pointer, and not before. */
  predicate EndsAtNull(mem: Memory, x: nat, way: seq<Side>)
    decreases |way|
  {
    if way == [] then x == Nil else x != Nil && x in mem && EndsAtNull(mem, mem[x].Child(way[0]), way[1..])
  }

  /** The black nodes met on the way down. */
  function BlackNodes(mem: Memory, x: nat, way: seq<Side>): nat
    requires EndsAtNull(mem, x, way)
    decreases |way|
  {
    if way == [] then 0 else (if mem[x].red then 0 else 1) + BlackNodes(mem, mem[x].Child(way[0]), way[1..])
  }

  /** Every way down meets the same number of black nodes. */
  lemma {:induction false} SameBlackHeight(mem: Memory, t: Tree, parent: nat, h: int, way: seq<Side>)
    requires Lies(mem, t, parent) && Black(t, h) && EndsAtNull(mem, Root(t), way)
    ensures BlackNodes(mem, Root(t), way) == h
  {
    if way != [] {
      var below := if way[0] == Left then t.left else t.right;
      SameBlackHeight(mem, below, t.id, if t.red then h else h - 1, way[1..]);
    }
  }

  /** At least every second node on a way down is black. */
  lemma {:induction false} HalfBlack(mem: Memory, t: Tree, parent: nat, way: seq<Side>)
    requires Lies(mem, t, parent) && NoRedRed(t) && EndsAtNull(mem, Root(t), way)
    ensures var b := BlackNodes(mem, Root(t), way); b <= |way| <= 2 * b + if IsRed(t) then 1 else 0
  {
    if way != [] {
      var below := if way[0] == Left then t.left else t.right;
      HalfBlack(mem, below, t.id, way[1..]);
    }
  }

  /** No way down from the root is more than twice as long as another. */
  lemma Balanced(mem: Memory, t: Tree, way: seq<Side>, other: seq<Side>)
    requires Lies(mem, t, Nil) && RedBlack(t) && EndsAtNull(mem, Root(t), way) && EndsAtNull(mem, Root(t), other)
    ensures BlackNodes(mem, Root(t), way) == BlackNodes(mem, Root(t), other) && |way| <= 2 * |other|
  {
    var h :| Black(t, h);
    SameBlackHeight(mem, t, Nil, h, way);
    SameBlackHeight(mem, t, Nil, h, other);
    HalfBlack(mem, t, Nil, way);
    HalfBlack(mem, t, Nil, other);
  }
}
