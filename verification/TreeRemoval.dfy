/** Taking a node out of the tree in memory (external/uv/tree.h:530-595): detaching a node with at most one child, and
    putting one node in the place of another.

    An element with two children goes in two steps. Its successor, the end of a spine that leads right once and then
    only left, is detached; what is then below the element is still ordered, above the successor's key. Then the
    successor takes over the element's cell and its neighbours' links. The path to where the successor was ran through
    the element, so it now runs through the successor (Swapped), with the same colours and heights, and the fix-up can
    start from its end. */
module TreeRemoval {
  import opened TreeShape
  import opened TreeSteps

  lemma {:induction false} Widen(key: nat -> int, t: Tree, lo: Bound, hi: Bound, lo1: Bound, hi1: Bound)
    requires Ordered(key, t, lo, hi) && (lo1 == lo || Less(lo1, lo)) && (hi1 == hi || Less(hi, hi1))
    ensures Ordered(key, t, lo1, hi1)
  {
    if t.Node? {
      Widen(key, t.left, lo, Key(key(t.id)), lo1, Key(key(t.id)));
      Widen(key, t.right, Key(key(t.id)), hi, Key(key(t.id)), hi1);
    }
  }

  /** The only child of a node with at most one child. */
  function OnlyChild(t: Tree): Tree
    requires t.Node?
  {
    if t.left.Leaf? then t.right else t.left
  }

  function Detached(mem: Memory, root: nat, parent: nat, x: nat, child: nat): (Memory, nat) {
    Relinked(Adopted(mem, child, parent), root, parent, x, child)
  }

  /** Its child takes the place of the node. */
  lemma {:induction false} Detach(key: nat -> int, mem: Memory, root: nat, p: Path, t: Tree)
    requires Whole(key, mem, root, p, t) && t.Node? && (t.left.Leaf? || t.right.Leaf?)
    ensures var (mem1, root1) := Detached(mem, root, ParentOf(p), t.id, Root(OnlyChild(t)));
      && Whole(key, mem1, root1, p, OnlyChild(t)) && mem1.Keys == mem.Keys && t.id in mem1 && mem1[t.id] == mem[t.id]
  {
    var k := OnlyChild(t);
    var mem0 := Adopted(mem, Root(k), ParentOf(p));
    var (mem1, root1) := Relinked(mem0, root, ParentOf(p), t.id, Root(k));
    if t.left.Leaf? {
      AdoptTree(key, mem, k, t.id, ParentOf(p), Key(key(t.id)), Hi(key, p));
      InBounds(key, k, Key(key(t.id)), Hi(key, p));
      Widen(key, k, Key(key(t.id)), Hi(key, p), Lo(key, p), Hi(key, p));
    } else {
      AdoptTree(key, mem, k, t.id, ParentOf(p), Lo(key, p), Key(key(t.id)));
      InBounds(key, k, Lo(key, p), Key(key(t.id)));
      Widen(key, k, Lo(key, p), Key(key(t.id)), Lo(key, p), Hi(key, p));
    }
    PathFrame(key, mem, mem0, p, t.id, root);
    RelinkPath(key, mem0, root, p, t.id, Root(k));
    LiesFrame(key, mem0, mem1, k, ParentOf(p), Lo(key, p), Hi(key, p));
    ParentOutside(key, p);
  }

  /** Memory after node m was put in the place of node x, whose cell it copies. */
  function Replaced(mem: Memory, root: nat, x: nat, m: nat): (Memory, nat)
    requires x in mem
  {
    var cell := mem[x];
    var (mem1, root1) := Relinked(mem[m := cell], root, cell.parent, x, m);
    (Adopted(Adopted(mem1, cell.left, m), cell.right, m), root1)
  }

  /** What is the same in wider bounds is the same in narrower ones. */
  lemma {:induction false} Narrow(key: nat -> int, mem: Memory, mem1: Memory, lo: Bound, hi: Bound, k: int)
    requires SameWithin(key, mem, mem1, lo, hi) && Within(lo, k, hi)
    ensures SameWithin(key, mem, mem1, lo, Key(k)) && SameWithin(key, mem, mem1, Key(k), hi)
  {
  }

  /** First the copy and the link from above. */
  lemma {:induction false} ReplaceLink(key: nat -> int, mem: Memory, root: nat, p: Path, l: Tree, x: nat, c: bool,
                                       r: Tree, m: nat)
    requires Whole(key, mem, root, p, Node(l, x, c, r)) && m != Nil && Within(Lo(key, p), key(m), Hi(key, p))
    requires Ordered(key, r, Key(key(m)), Hi(key, p)) && key(x) < key(m)
    ensures x in mem && mem[x] == Cell(Root(l), Root(r), ParentOf(p), c)
    ensures var (mem1, root1) := Relinked(mem[m := mem[x]], root, ParentOf(p), x, m);
      && PathLies(mem1, p, m, root1) && Lies(mem1, l, x) && Lies(mem1, r, x) && m in mem1 && mem1[m] == mem[x]
  {
    hide Lies, Ordered, PathLies, PathOrdered;
    var lo, hi := Lo(key, p), Hi(key, p);
    Parts(mem, Left, l, x, c, r, ParentOf(p));
    OrderedParts(key, Left, l, x, c, r, lo, hi);
    ParentOutside(key, p);
    var mem0 := mem[m := mem[x]];
    PathFrame(key, mem, mem0, p, x, root);
    RelinkPath(key, mem0, root, p, x, m);
    var (mem1, root1) := Relinked(mem0, root, ParentOf(p), x, m);
    LiesFrame(key, mem, mem0, l, x, lo, Key(key(x)));
    LiesFrame(key, mem, mem0, r, x, Key(key(m)), hi);
    Narrow(key, mem0, mem1, lo, hi, key(x));
    Narrow(key, mem0, mem1, lo, hi, key(m));
    LiesFrame(key, mem0, mem1, l, x, lo, Key(key(x)));
    LiesFrame(key, mem0, mem1, r, x, Key(key(m)), hi);
  }

  /** Then the children turn to their new parent. */
  lemma {:induction false} ReplaceChildren(key: nat -> int, mem: Memory, root: nat, p: Path, l: Tree, x: nat, c: bool,
                                           r: Tree, m: nat)
    requires PathLies(mem, p, m, root) && PathOrdered(key, p) && Lies(mem, l, x) && Lies(mem, r, x)
    requires m != Nil && m in mem && mem[m] == Cell(Root(l), Root(r), ParentOf(p), c)
    requires Within(Lo(key, p), key(m), Hi(key, p))
    requires Ordered(key, l, Lo(key, p), Key(key(m))) && Ordered(key, r, Key(key(m)), Hi(key, p))
    ensures Whole(key, Adopted(Adopted(mem, Root(l), m), Root(r), m), root, p, Node(l, m, c, r))
  {
    hide Lies, Ordered, PathLies, PathOrdered;
    var lo, hi := Lo(key, p), Hi(key, p);
    var mem1 := Adopted(mem, Root(l), m);
    var mem2 := Adopted(mem1, Root(r), m);
    Parts(mem2, Left, l, m, c, r, ParentOf(p));
    OrderedParts(key, Left, l, m, c, r, lo, hi);
    RootLies(mem, l, x);
    InBounds(key, l, lo, Key(key(m)));
    InBounds(key, r, Key(key(m)), hi);
    AdoptTree(key, mem, l, x, m, lo, Key(key(m)));
    LiesFrame(key, mem, mem1, r, x, Key(key(m)), hi);
    RootLies(mem1, r, x);
    AdoptTree(key, mem1, r, x, m, Key(key(m)), hi);
    LiesFrame(key, mem1, mem2, l, m, lo, Key(key(m)));
    PathFrame(key, mem, mem2, p, m, root);
  }

  /** A node outside the tree takes the place of another with two subtrees, if its key fits. */
  lemma {:induction false} Replace(key: nat -> int, mem: Memory, root: nat, p: Path, l: Tree, x: nat, c: bool, r: Tree,
                                   m: nat)
    requires Whole(key, mem, root, p, Node(l, x, c, r)) && m != Nil && Within(Lo(key, p), key(m), Hi(key, p))
    requires Ordered(key, r, Key(key(m)), Hi(key, p)) && key(x) < key(m)
    ensures x in mem && mem[x] == Cell(Root(l), Root(r), ParentOf(p), c)
    ensures var (mem1, root1) := Replaced(mem, root, x, m); Whole(key, mem1, root1, p, Node(l, m, c, r))
  {
    ReplaceLink(key, mem, root, p, l, x, c, r, m);
    var (mem1, root1) := Relinked(mem[m := mem[x]], root, ParentOf(p), x, m);
    Widen(key, l, Lo(key, p), Key(key(x)), Lo(key, p), Key(key(m)));
    ReplaceChildren(key, mem1, root1, p, l, x, c, r, m);
  }

  // The way from a node with two subtrees to its successor: right once, then left to the end.

  /** The path leads right from node x and then only left. */
  predicate Spine(q: Path, x: nat, c: bool, l: Tree, p: Path) {
    q == Step(Right, x, c, l, p) || (q.Step? && q.side == Left && Spine(q.up, x, c, l, p))
  }

  /** The subtree to the right of x when t hangs at the end of the path. */
  function Filled(q: Path, t: Tree, base: Path): Tree {
    if q == base || q.Top? then t else Filled(q.up, Make(q.side, t, q.id, q.red, q.sibling), base)
  }

  /** The path with node m instead of x. */
  function Swapped(q: Path, base: Path, m: nat): Path {
    if q.Top? then q
    else if q == base then q.(id := m)
    else q.(up := Swapped(q.up, base, m))
  }

  lemma {:induction false} SpineWhole(key: nat -> int, mem: Memory, root: nat, q: Path, t: Tree, x: nat, c: bool,
                                      l: Tree, p: Path)
    requires Spine(q, x, c, l, p)
    ensures var r := Filled(q, t, Step(Right, x, c, l, p));
      && (Whole(key, mem, root, q, t) <==> Whole(key, mem, root, p, Node(l, x, c, r)))
      && Plug(q, t) == Plug(p, Node(l, x, c, r))
  {
    if q == Step(Right, x, c, l, p) {
      Down(key, mem, root, p, Right, t, x, c, l);
    } else {
      Down(key, mem, root, q.up, q.side, t, q.id, q.red, q.sibling);
      SpineWhole(key, mem, root, q.up, Make(q.side, t, q.id, q.red, q.sibling), x, c, l, p);
    }
  }

  lemma {:induction false} SwappedSpine(q: Path, x: nat, c: bool, l: Tree, p: Path, m: nat, t: Tree)
    requires Spine(q, x, c, l, p)
    ensures var base := Step(Right, x, c, l, p); var q1 := Swapped(q, base, m);
      && Spine(q1, m, c, l, p) && Plug(q1, t) == Plug(p, Node(l, m, c, Filled(q, t, base)))
  {
    if q != Step(Right, x, c, l, p) {
      SwappedSpine(q.up, x, c, l, p, m, Make(q.side, t, q.id, q.red, q.sibling));
    }
  }

  /** Colours and heights do not depend on who the nodes are. */
  lemma {:induction false} SwappedColours(q: Path, base: Path, m: nat, holeRed: bool, h: int)
    ensures PathRed(Swapped(q, base, m), holeRed) == PathRed(q, holeRed)
    ensures PathBlack(Swapped(q, base, m), h) == PathBlack(q, h)
    ensures RootBlack(Swapped(q, base, m)) == RootBlack(q)
    ensures Swapped(q, base, m).Top? == q.Top?
  {
    if q.Step? && q != base {
      SwappedColours(q.up, base, m, q.red, if q.red then h else h + 1);
    }
  }

  /** What hangs on the way to the successor is above it. */
  lemma {:induction false} AboveSuccessor(key: nat -> int, q: Path, t: Tree, x: nat, c: bool, l: Tree, p: Path, k: int)
    requires Spine(q, x, c, l, p) && PathOrdered(key, q) && Ordered(key, t, Key(k), Hi(key, q))
    requires Within(Key(key(x)), k, Hi(key, q))
    ensures Ordered(key, Filled(q, t, Step(Right, x, c, l, p)), Key(k), Hi(key, p)) && Less(Key(k), Hi(key, p))
  {
    if q != Step(Right, x, c, l, p) {
      AboveSuccessor(key, q.up, Make(q.side, t, q.id, q.red, q.sibling), x, c, l, p, k);
    }
  }

  lemma {:induction false} SpineLow(key: nat -> int, q: Path, x: nat, c: bool, l: Tree, p: Path)
    requires Spine(q, x, c, l, p) && PathOrdered(key, q)
    ensures Lo(key, q) == Key(key(x)) && Within(Lo(key, p), key(x), Hi(key, p))
    ensures Ordered(key, l, Lo(key, p), Key(key(x)))
    ensures PathOrdered(key, p)
  {
    if q != Step(Right, x, c, l, p) { SpineLow(key, q.up, x, c, l, p); }
  }

  lemma {:induction false} SwappedIds(q: Path, x: nat, c: bool, l: Tree, p: Path, m: nat)
    requires Spine(q, x, c, l, p)
    ensures PathIds(Swapped(q, Step(Right, x, c, l, p), m)) + {x} == PathIds(q) + {m, x} && x in PathIds(q)
  {
    if q != Step(Right, x, c, l, p) { SwappedIds(q.up, x, c, l, p, m); }
  }
}
