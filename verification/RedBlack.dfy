/** Insertion into and removal from the red-black tree (external/uv/tree.h:342-626). The two mirror-image branches of
    the fix-up loops are one, taken for a side.

    The fix-up loops walk up from a position in the tree, a path and the subtree at its end. Inserting and Removing say
    what is wrong there and that nothing else is: for insertion the subtree is red and may have a red parent, for
    removal it is one black node short. Each case of a loop is a change of the position (Flipped, Lifted, TurnedPath;
    RedSiblingPath, PaintedTree, NephewUp, Settled),
    a lemma that the change keeps Inserting or Removing or ends the loop,
    and a method that carries it out in memory by rotations and colourings. The nodes stay the same throughout, and the
    depth of the position shrinks. */
module RedBlack {
  import opened TreeShape
  import opened TreeSteps
  import opened TreeRemoval

  function ChildTree(t: Tree, s: Side): Tree
    requires t.Node?
  {
    if s == Left then t.left else t.right
  }

  lemma Unmake(t: Tree, s: Side)
    requires t.Node?
    ensures t == Make(s, ChildTree(t, s), t.id, t.red, ChildTree(t, Other(s)))
  {
  }

  /** Where insertion's fix-up stands: a red node whose only fault can be a red parent. */
  ghost predicate Inserting(p: Path, t: Tree, h: int) {
    && IsRed(t) && NoRedRed(t) && Black(t, h)
    && PathRed(p, false) && PathBlack(p, h) && RootBlack(p)
  }

  /** A red parent is not the root, and its parent is black. */
  lemma GrandParent(p: Path, t: Tree, h: int)
    requires Inserting(p, t, h) && p.Step? && p.red
    ensures p.up.Step? && !p.up.red
  {
    assert PathRed(p.up, p.red);
  }

  /** The case of a red uncle: the fault moves up two levels. */
  function Flipped(p: Path, t: Tree): Tree
    requires p.Step? && p.up.Step? && p.up.sibling.Node?
  {
    Make(p.up.side, Make(p.side, t, p.id, false, p.sibling), p.up.id, true, p.up.sibling.(red := false))
  }

  lemma FlipKeeps(p: Path, t: Tree, h: int)
    requires Inserting(p, t, h) && p.Step? && p.red && p.up.Step? && IsRed(p.up.sibling)
    ensures Inserting(p.up.up, Flipped(p, t), h + 1)
  {
    PathUp(p, false, h);
    PathUp(p.up, p.red, h);
  }

  lemma PathUp(p: Path, holeRed: bool, h: int)
    requires p.Step? && PathRed(p, holeRed) && PathBlack(p, h) && RootBlack(p)
    ensures PathRed(p.up, p.red) && PathBlack(p.up, if p.red then h else h + 1) && RootBlack(p.up)
    ensures NoRedRed(p.sibling) && Black(p.sibling, h) && (p.red ==> !holeRed && !IsRed(p.sibling))
    ensures p.up.Top? ==> !p.red
  {
  }

  /** The case of a black uncle, child and parent on the same side: one rotation ends it. */
  function Lifted(p: Path): Path
    requires p.Step? && p.up.Step?
  {
    Step(p.side, p.id, false, Make(p.side, p.sibling, p.up.id, true, p.up.sibling), p.up.up)
  }

  lemma LiftKeeps(p: Path, t: Tree, h: int)
    requires Inserting(p, t, h) && p.Step? && p.red && p.up.Step? && !IsRed(p.up.sibling)
    ensures Inserting(Lifted(p), t, h)
  {
    PathUp(p, false, h);
    PathUp(p.up, p.red, h);
  }

  /** The nodes a rotation writes are there, and different. */
  predicate Apart(mem: Memory, elm: nat, tmp: nat, s: Side) {
    && elm in mem && tmp in mem && tmp != elm && elm != Nil
    && (mem[tmp].Child(s) != Nil ==> mem[tmp].Child(s) in mem && mem[tmp].Child(s) != elm && mem[tmp].Child(s) != tmp)
    && (mem[elm].parent != Nil ==>
        mem[elm].parent in mem && mem[elm].parent != elm && mem[elm].parent != tmp
          && mem[elm].parent != mem[tmp].Child(s))
  }

  /** The rotation macros, statement by statement. */
  method Rotated(mem: Memory, root: nat, s: Side, elm: nat) returns (m: Memory, r: nat)
    requires elm in mem && elm != Nil
    requires Apart(mem, elm, mem[elm].Child(Other(s)), s)
    ensures (m, r) == Relinked(RotatedInside(mem, s, elm), root, mem[elm].parent, elm, mem[elm].Child(Other(s)))
  {
    m, r := mem, root;
    var tmp := m[elm].Child(Other(s));
    var inner := m[tmp].Child(s);
    m := m[elm := m[elm].With(Other(s), inner)];
    if inner != Nil {
      m := m[inner := m[inner].(parent := elm)];
    }
    m := m[tmp := m[tmp].(parent := m[elm].parent)];
    var parent := m[elm].parent;
    if parent != Nil {
      if elm == m[parent].left {
        m := m[parent := m[parent].(left := tmp)];
      } else {
        m := m[parent := m[parent].(right := tmp)];
      }
    } else {
      r := tmp;
    }
    m := m[tmp := m[tmp].With(s, elm)];
    m := m[elm := m[elm].(parent := tmp)];
    ghost var (m1, r1) := Relinked(RotatedInside(mem, s, elm), root, parent, elm, tmp);
    assert r == r1;
    assert m.Keys == m1.Keys;
    assert forall z :: z in m ==> m[z] == m1[z];
    assert m == m1;
  }

  /** The case of a black uncle, child and parent on different sides: a rotation first makes the sides the same. */
  function TurnedPath(p: Path, t: Tree): Path
    requires p.Step? && t.Node?
  {
    Step(Other(p.side), t.id, t.red, ChildTree(t, p.side), p.up)
  }

  function TurnedTree(p: Path, t: Tree): Tree
    requires p.Step? && t.Node?
  {
    Make(Other(p.side), p.sibling, p.id, p.red, ChildTree(t, Other(p.side)))
  }

  lemma TurnKeeps(p: Path, t: Tree, h: int)
    requires Inserting(p, t, h) && p.Step? && p.red
    ensures Inserting(TurnedPath(p, t), TurnedTree(p, t), h)
  {
    PathUp(p, false, h);
  }

  lemma MakeSwap(s: Side, a: Tree, id: nat, red: bool, b: Tree)
    ensures Make(s, a, id, red, b) == Make(Other(s), b, id, red, a)
    ensures Make(s, a, id, red, b).Node? && Make(s, a, id, red, b).id == id && Make(s, a, id, red, b).red == red
    ensures forall c :: Make(s, a, id, red, b).(red := c) == Make(s, a, id, c, b)
    ensures Ids(Make(s, a, id, red, b)) == Ids(a) + {id} + Ids(b)
  {
  }

  /** The steps of the fix-up keep the nodes. */
  lemma TurnIds(p: Path, t: Tree)
    requires p.Step? && t.Node?
    ensures PathIds(TurnedPath(p, t)) + Ids(TurnedTree(p, t)) == PathIds(p) + Ids(t)
    ensures TurnedTree(p, t).Node? && TurnedTree(p, t).id == p.id && Depth(TurnedPath(p, t)) == Depth(p)
  {
    Unmake(t, p.side);
    MakeSwap(p.side, ChildTree(t, p.side), t.id, t.red, ChildTree(t, Other(p.side)));
    MakeSwap(Other(p.side), p.sibling, p.id, p.red, ChildTree(t, Other(p.side)));
  }

  lemma LiftIds(p: Path, t: Tree)
    requires p.Step? && p.up.Step?
    ensures Depth(Lifted(p)) < Depth(p) && Depth(p.up.up) < Depth(p)
    ensures PathIds(Lifted(p)) + Ids(t) == PathIds(p) + Ids(t)
  {
    MakeSwap(p.side, p.sibling, p.up.id, true, p.up.sibling);
  }

  lemma FlipIds(p: Path, t: Tree)
    requires p.Step? && p.up.Step? && p.up.sibling.Node?
    ensures Flipped(p, t).Node? && Flipped(p, t).id == p.up.id
    ensures PathIds(p.up.up) + Ids(Flipped(p, t)) == PathIds(p) + Ids(t)
  {
    var a := Make(p.side, t, p.id, false, p.sibling);
    MakeSwap(p.side, t, p.id, false, p.sibling);
    MakeSwap(p.up.side, a, p.up.id, true, p.up.sibling.(red := false));
  }

  lemma StepIds(p: Path, t: Tree)
    requires p.Step? && t.Node?
    ensures PathIds(TurnedPath(p, t)) + Ids(TurnedTree(p, t)) == PathIds(p) + Ids(t)
    ensures TurnedTree(p, t).Node? && TurnedTree(p, t).id == p.id && Depth(TurnedPath(p, t)) == Depth(p)
    ensures p.up.Step? ==> Depth(Lifted(p)) < Depth(p) && Depth(p.up.up) < Depth(p)
    ensures p.up.Step? && p.up.sibling.Node? ==> Flipped(p, t).Node? && Flipped(p, t).id == p.up.id
    ensures p.up.Step? ==> PathIds(Lifted(p)) + Ids(t) == PathIds(p) + Ids(t)
    ensures p.up.Step? && p.up.sibling.Node? ==> PathIds(p.up.up) + Ids(Flipped(p, t)) == PathIds(p) + Ids(t)
  {
    hide PathIds, Ids, TurnedPath, TurnedTree, Lifted, Flipped, Depth;
    TurnIds(p, t);
    if p.up.Step? {
      LiftIds(p, t);
      if p.up.sibling.Node? {
        FlipIds(p, t);
      }
    }
  }

  /** What the code reads around the end of a path. */
  lemma Around(key: nat -> int, mem: Memory, root: nat, p: Path, t: Tree)
    requires Whole(key, mem, root, p, t)
    ensures t.Node? ==> t.id != Nil && t.id in mem && mem[t.id] == Cell(Root(t.left), Root(t.right), ParentOf(p), t.red)
    ensures p.Top? ==> root == Root(t)
    ensures p.Step? ==>
      && p.id != Nil && p.id in mem && mem[p.id] == MakeCell(p.side, Root(t), Root(p.sibling), ParentOf(p.up), p.red)
      && (p.sibling.Node? ==> p.sibling.id in mem && p.sibling.id != Nil && mem[p.sibling.id].red == p.sibling.red)
      && (t.Node? ==> Root(t) != Root(p.sibling))
  {
    if p.Step? {
      InBounds(key, t, Lo(key, p), Hi(key, p));
      InBounds(key, p.sibling, if p.side == Left then Key(key(p.id)) else Lo(key, p.up),
               if p.side == Left then Hi(key, p.up) else Key(key(p.id)));
    }
  }

  /** The subtree at the end of a path is another now; the parent's link, or the root, follows. */
  function Hung(mem: Memory, root: nat, p: Path, to: nat): (Memory, nat) {
    if p.Top? then (mem, to)
    else if p.id !in mem then (mem, root)
    else (mem[p.id := mem[p.id].With(p.side, to)], root)
  }

  lemma HangPath(key: nat -> int, mem: Memory, root: nat, p: Path, hole: nat, to: nat)
    requires PathLies(mem, p, hole, root) && PathOrdered(key, p)
    ensures var (mem1, root1) := Hung(mem, root, p, to);
      PathLies(mem1, p, to, root1) && SameWithin(key, mem, mem1, Lo(key, p), Hi(key, p)) && mem1.Keys == mem.Keys
  {
    var (mem1, root1) := Hung(mem, root, p, to);
    if p.Step? {
      if p.side == Left {
        LiesFrame(key, mem, mem1, p.sibling, p.id, Key(key(p.id)), Hi(key, p.up));
      } else {
        LiesFrame(key, mem, mem1, p.sibling, p.id, Lo(key, p.up), Key(key(p.id)));
      }
      PathFrame(key, mem, mem1, p.up, p.id, root);
    }
  }

  /** A new red leaf where the search ended. */
  lemma Attach(key: nat -> int, mem: Memory, root: nat, p: Path, elm: nat)
    requires Whole(key, mem, root, p, Leaf) && elm != Nil && Within(Lo(key, p), key(elm), Hi(key, p))
    ensures var mem1 := mem[elm := Cell(Nil, Nil, ParentOf(p), true)]; var (mem2, root2) := Hung(mem1, root, p, elm);
      Whole(key, mem2, root2, p, Node(Leaf, elm, true, Leaf))
  {
    var mem1 := mem[elm := Cell(Nil, Nil, ParentOf(p), true)];
    PathFrame(key, mem, mem1, p, Nil, root);
    HangPath(key, mem1, root, p, Nil, elm);
  }

  /** Taking a red-black tree apart along a path. */
  lemma {:induction false} Unplug(p: Path, t: Tree) returns (h: int)
    requires RedBlack(Plug(p, t))
    ensures PathRed(p, IsRed(t)) && NoRedRed(t) && Black(t, h) && PathBlack(p, h) && RootBlack(p)
    ensures p.Top? ==> !IsRed(t)
  {
    if p.Top? {
      h :| Black(t, h);
    } else {
      var above := Unplug(p.up, Make(p.side, t, p.id, p.red, p.sibling));
      h := if p.red then above else above - 1;
    }
  }

  /** No key on the path or below equals one that leads to an empty place. */
  lemma {:induction false} Elsewhere(key: nat -> int, p: Path, k: int)
    requires PathOrdered(key, p) && Within(Lo(key, p), k, Hi(key, p))
    ensures forall x :: x in PathIds(p) ==> key(x) != k
  {
    if p.Step? {
      Elsewhere(key, p.up, k);
      if p.side == Left {
        KeysWithin(key, p.sibling, Key(key(p.id)), Hi(key, p.up));
      } else {
        KeysWithin(key, p.sibling, Lo(key, p.up), Key(key(p.id)));
      }
    }
  }

  lemma {:induction false} KeysWithin(key: nat -> int, t: Tree, lo: Bound, hi: Bound)
    requires Ordered(key, t, lo, hi)
    ensures forall x :: x in Ids(t) ==> Within(lo, key(x), hi)
  {
    if t.Node? {
      KeysWithin(key, t.left, lo, Key(key(t.id)));
      KeysWithin(key, t.right, Key(key(t.id)), hi);
    }
  }

  // Removal.

  /** Where removal's fix-up stands: one black node is missing below. The subtree can be red, above a red child. */
  ghost predicate Removing(p: Path, t: Tree, h: int) {
    && (t.Node? ==> NoRedRed(t.left) && NoRedRed(t.right)) && (IsRed(t) || NoRedRed(t)) && Black(t, h)
    && PathRed(p, false) && PathBlack(p, h + 1) && RootBlack(p)
  }

  lemma {:induction false} BlackPositive(t: Tree, h: int)
    requires Black(t, h)
    ensures h >= 0 && (h > 0 ==> t.Node?)
  {
    if t.Node? { BlackPositive(t.left, if t.red then h else h - 1); }
  }

  /** What there is on the other side: a node, with nodes below it if it is red. */
  lemma SiblingThere(p: Path, t: Tree, h: int)
    requires Removing(p, t, h) && p.Step?
    ensures p.sibling.Node?
  {
    BlackPositive(t, h);
    BlackPositive(p.sibling, h + 1);
  }

  /** Parent and sibling after the red sibling came up. */
  function RedSiblingPath(p: Path): Path
    requires p.Step? && p.sibling.Node?
  {
    Step(p.side, p.id, true, ChildTree(p.sibling, p.side),
      Step(p.side, p.sibling.id, false, ChildTree(p.sibling, Other(p.side)), p.up))
  }

  lemma RedSiblingKeeps(p: Path, t: Tree, h: int)
    requires Removing(p, t, h) && p.Step? && IsRed(p.sibling)
    ensures Removing(RedSiblingPath(p), t, h) && ChildTree(p.sibling, p.side).Node?
    ensures !IsRed(ChildTree(p.sibling, p.side))
  {
    PathUp(p, false, h + 1);
    BlackPositive(t, h);
    BlackPositive(ChildTree(p.sibling, p.side), h + 1);
  }

  /** The sibling turns red and the fault moves up. */
  function PaintedTree(p: Path, t: Tree): Tree
    requires p.Step? && p.sibling.Node?
  {
    Make(p.side, t, p.id, p.red, p.sibling.(red := true))
  }

  lemma {:induction false} PathRedLess(p: Path)
    requires PathRed(p, true)
    ensures PathRed(p, false)
  {
  }

  lemma PaintKeeps(p: Path, t: Tree, h: int)
    requires Removing(p, t, h) && p.Step? && !IsRed(t) && p.sibling.Node? && !p.sibling.red
    requires !IsRed(p.sibling.left) && !IsRed(p.sibling.right)
    ensures Removing(p.up, PaintedTree(p, t), if p.red then h else h + 1)
  {
    PathUp(p, false, h + 1);
    if p.red { PathRedLess(p.up); }
  }

  /** The last rotation: the sibling takes the parent's colour, the parent and the far nephew turn black. */
  function Settled(p: Path, t: Tree): Tree
    requires p.Step? && p.sibling.Node? && ChildTree(p.sibling, Other(p.side)).Node?
  {
    Make(p.side, Make(p.side, t, p.id, false, ChildTree(p.sibling, p.side)), p.sibling.id, p.red,
      ChildTree(p.sibling, Other(p.side)).(red := false))
  }

  lemma SettleKeeps(p: Path, t: Tree, h: int)
    requires Removing(p, t, h) && p.Step? && !IsRed(t) && p.sibling.Node? && !p.sibling.red
    requires IsRed(ChildTree(p.sibling, Other(p.side)))
    ensures RedBlack(Plug(p.up, Settled(p, t)))
  {
    PathUp(p, false, h + 1);
    PlugRedBlack(p.up, Settled(p, t), if p.red then h + 1 else h + 2);
  }

  /** The near nephew, red, comes up between sibling and parent. */
  function NephewUp(p: Path): Path
    requires p.Step? && p.sibling.Node? && ChildTree(p.sibling, p.side).Node?
  {
    var w, n := p.sibling, ChildTree(p.sibling, p.side);
    p.(sibling := Make(p.side, ChildTree(n, p.side), n.id, false,
      Make(p.side, ChildTree(n, Other(p.side)), w.id, true, ChildTree(w, Other(p.side)))))
  }

  lemma NephewKeeps(p: Path, t: Tree, h: int)
    requires Removing(p, t, h) && p.Step? && p.sibling.Node? && !p.sibling.red
    requires IsRed(ChildTree(p.sibling, p.side)) && !IsRed(ChildTree(p.sibling, Other(p.side)))
    ensures Removing(NephewUp(p), t, h)
    ensures NephewUp(p).sibling.Node? && !NephewUp(p).sibling.red
    ensures IsRed(ChildTree(NephewUp(p).sibling, Other(p.side)))
  {
    PathUp(p, false, h + 1);
    var w, n := p.sibling, ChildTree(p.sibling, p.side);
    assert NoRedRed(n) && Black(n, h) && Black(ChildTree(w, Other(p.side)), h);
    assert NoRedRed(ChildTree(w, Other(p.side)));
    var turned := Make(p.side, ChildTree(n, Other(p.side)), w.id, true, ChildTree(w, Other(p.side)));
    assert NoRedRed(turned) && Black(turned, h);
  }

  /** What the code reads about the node on the other side and its children. */
  lemma Across(key: nat -> int, mem: Memory, root: nat, p: Path, t: Tree)
    requires Whole(key, mem, root, p, t) && p.Step? && p.sibling.Node?
    ensures var w := p.sibling;
      && w.id in mem && w.id != Nil && mem[w.id] == Cell(Root(w.left), Root(w.right), p.id, w.red)
      && (w.left.Node? ==> w.left.id in mem && w.left.id != Nil && mem[w.left.id].red == w.left.red)
      && (w.right.Node? ==> w.right.id in mem && w.right.id != Nil && mem[w.right.id].red == w.right.red)
  {
    assert Lies(mem, p.sibling, p.id);
    assert Lies(mem, p.sibling.left, p.sibling.id) && Lies(mem, p.sibling.right, p.sibling.id);
  }

  /** Only the root itself is pointed at by the root pointer. */
  lemma AtRoot(key: nat -> int, mem: Memory, root: nat, p: Path, t: Tree)
    requires Whole(key, mem, root, p, t)
    ensures Root(t) == root <==> p.Top?
  {
    if p.Step? {
      InBounds(key, t, Lo(key, p), Hi(key, p));
      RootAbove(key, mem, root, p, Root(t));
    }
  }

  lemma {:induction false} RootAbove(key: nat -> int, mem: Memory, root: nat, p: Path, hole: nat)
    requires PathLies(mem, p, hole, root) && PathOrdered(key, p) && p.Step?
    ensures root != Nil && !Within(Lo(key, p), key(root), Hi(key, p))
  {
    if p.up.Step? { RootAbove(key, mem, root, p.up, p.id); }
  }

  /** Blackening the subtree puts everything right. */
  ghost predicate Ending(p: Path, t: Tree) {
    RedBlack(Plug(p, if t.Node? then t.(red := false) else t))
  }

  lemma RemovingEnds(p: Path, t: Tree, h: int)
    requires Removing(p, t, h) && (IsRed(t) || p.Top?)
    ensures Ending(p, t)
  {
    BlackPositive(t, h);
    if IsRed(t) {
      PlugRedBlack(p, t.(red := false), h + 1);
    } else {
      assert t.Node? ==> t.(red := false) == t;
      PlugRedBlack(p, t, h);
    }
  }

  lemma SettledEnds(t: Tree)
    requires RedBlack(t)
    ensures Ending(Top, t)
  {
    assert t.Node? ==> t.(red := false) == t;
  }

  /** The steps of removal's fix-up keep the nodes. */
  lemma RemoveIds(p: Path, t: Tree)
    requires p.Step? && p.sibling.Node?
    ensures PathIds(RedSiblingPath(p)) + Ids(t) == PathIds(p) + Ids(t) && Depth(RedSiblingPath(p)) == Depth(p) + 1
    ensures PathIds(p.up) + Ids(PaintedTree(p, t)) == PathIds(p) + Ids(t) && Depth(p.up) == Depth(p) - 1
    ensures PaintedTree(p, t).Node? && PaintedTree(p, t).id == p.id && PaintedTree(p, t).red == p.red
  {
    var s, w := p.side, p.sibling;
    Unmake(w, s);
    MakeSwap(s, ChildTree(w, s), w.id, w.red, ChildTree(w, Other(s)));
    MakeSwap(s, t, p.id, p.red, w.(red := true));
  }

  lemma NephewIds(p: Path, t: Tree)
    requires p.Step? && p.sibling.Node? && ChildTree(p.sibling, p.side).Node?
    ensures PathIds(NephewUp(p)) + Ids(t) == PathIds(p) + Ids(t)
  {
    var s, w := p.side, p.sibling;
    var n, f := ChildTree(w, s), ChildTree(w, Other(s));
    Unmake(w, s);
    MakeSwap(s, n, w.id, w.red, f);
    Unmake(n, s);
    MakeSwap(s, ChildTree(n, s), n.id, n.red, ChildTree(n, Other(s)));
    MakeSwap(s, ChildTree(n, Other(s)), w.id, true, f);
    MakeSwap(s, ChildTree(n, s), n.id, false, Make(s, ChildTree(n, Other(s)), w.id, true, f));
  }

  lemma SettledIds(p: Path, t: Tree)
    requires p.Step? && p.sibling.Node? && ChildTree(p.sibling, Other(p.side)).Node?
    ensures PathIds(p.up) + Ids(Settled(p, t)) == PathIds(p) + Ids(t)
  {
    var s, w := p.side, p.sibling;
    var n, f := ChildTree(w, s), ChildTree(w, Other(s));
    Unmake(w, s);
    MakeSwap(s, n, w.id, w.red, f);
    MakeSwap(s, t, p.id, false, n);
    MakeSwap(s, Make(s, t, p.id, false, n), w.id, p.red, f.(red := false));
  }

  /** A red-black tree, seen as a subtree of black height h at the end of a path. */
  ghost predicate Fine(p: Path, k: Tree, h: int) {
    PathRed(p, false) && PathBlack(p, h) && RootBlack(p) && NoRedRed(k) && !IsRed(k) && Black(k, h)
  }

  /** A node with at most one child is taken out: all is well if it was red, else one black node is missing. */
  lemma DetachColours(p: Path, t: Tree, h: int)
    requires PathRed(p, IsRed(t)) && NoRedRed(t) && Black(t, h) && PathBlack(p, h) && RootBlack(p) && t.Node?
    requires t.left.Leaf? || t.right.Leaf?
    ensures t.red ==> Fine(p, OnlyChild(t), h)
    ensures !t.red ==> Removing(p, OnlyChild(t), h - 1)
  {
    if t.red { PathRedLess(p); }
  }

  lemma SwappedStays(q: Path, base: Path, m: nat, k: Tree, h: int)
    ensures Fine(q, k, h) ==> Fine(Swapped(q, base, m), k, h)
    ensures Removing(q, k, h - 1) ==> Removing(Swapped(q, base, m), k, h - 1)
  {
    SwappedColours(q, base, m, false, h);
  }

  /** The way to a node of the tree. */
  lemma {:induction false} Locate(p: Path, t: Tree, x: nat) returns (q: Path, sub: Tree)
    requires x in Ids(t)
    ensures Plug(q, sub) == Plug(p, t) && sub.Node? && sub.id == x
    decreases t
  {
    if t.id == x {
      q, sub := p, t;
    } else if x in Ids(t.left) {
      q, sub := Locate(Step(Left, t.id, t.red, t.right, p), t.left, x);
    } else {
      q, sub := Locate(Step(Right, t.id, t.red, t.left, p), t.right, x);
    }
  }

  /** No node lies in the tree twice. */
  lemma OnceOnly(key: nat -> int, mem: Memory, root: nat, p: Path, t: Tree)
    requires Whole(key, mem, root, p, t) && t.Node?
    ensures t.id !in PathIds(p) && t.id !in Ids(t.left) && t.id !in Ids(t.right)
  {
    Elsewhere(key, p, key(t.id));
    KeysWithin(key, t.left, Lo(key, p), Key(key(t.id)));
    KeysWithin(key, t.right, Key(key(t.id)), Hi(key, p));
  }

  /** The successor, detached, can take the place of x: the tree that results, and who is in it. */
  lemma Succeed(key: nat -> int, mem: Memory, root: nat, mem1: Memory, root1: nat, q: Path, sub: Tree, x: nat, c: bool,
                l: Tree, p: Path)
    requires Spine(q, x, c, l, p) && sub.Node? && sub.left.Leaf?
    requires Whole(key, mem, root, q, sub) && Whole(key, mem1, root1, q, OnlyChild(sub))
    ensures x in mem1
    ensures mem1[x] == Cell(Root(l), Root(Filled(q, OnlyChild(sub), Step(Right, x, c, l, p))), ParentOf(p), c)
    ensures ParentOf(p) != Nil ==> ParentOf(p) in mem1 && ParentOf(p) != x
    ensures mem1[x].left != Nil ==> mem1[x].left in mem1
    ensures mem1[x].right != Nil ==> mem1[x].right in mem1
    ensures var (mem2, root2) := Replaced(mem1, root1, x, sub.id);
      var q1 := Swapped(q, Step(Right, x, c, l, p), sub.id);
      && Whole(key, mem2, root2, q1, OnlyChild(sub))
      && PathIds(q1) + Ids(OnlyChild(sub)) == PathIds(q) + Ids(sub) - {x}
  {
    hide PathIds, Ids;
    var base, m, k := Step(Right, x, c, l, p), sub.id, OnlyChild(sub);
    var r := Filled(q, k, base);
    var q1 := Swapped(q, base, m);
    SpineWhole(key, mem1, root1, q, k, x, c, l, p);
    SpineLow(key, q, x, c, l, p);
    AboveSuccessor(key, q, k, x, c, l, p, key(m));
    Around(key, mem1, root1, p, Node(l, x, c, r));
    ChildThere(key, mem1, root1, p, Node(l, x, c, r));
    ParentOutside(key, p);
    Replace(key, mem1, root1, p, l, x, c, r, m);
    var (mem2, root2) := Replaced(mem1, root1, x, m);
    SwappedSpine(q, x, c, l, p, m, k);
    SpineWhole(key, mem2, root2, q1, k, m, c, l, p);
    PlugWhole(key, mem2, root2, q1, k);
    PlugWhole(key, mem2, root2, p, Node(l, m, c, r));
    SwappedWithout(key, mem2, root2, q1, k, l, m, c, r, p, x);
    SwappedOut(q, sub, x, c, l, p);
  }

  /** Who is in the tree then. */
  lemma SwappedOut(q: Path, sub: Tree, x: nat, c: bool, l: Tree, p: Path)
    requires Spine(q, x, c, l, p) && sub.Node? && sub.left.Leaf?
    ensures var ids := PathIds(Swapped(q, Step(Right, x, c, l, p), sub.id)) + Ids(OnlyChild(sub));
      x !in ids ==> ids == PathIds(q) + Ids(sub) - {x}
  {
    SwappedIds(q, x, c, l, p, sub.id);
    assert Ids(sub) == {sub.id} + Ids(OnlyChild(sub));
  }

  /** x is not in the tree any more. */
  lemma SwappedWithout(key: nat -> int, mem: Memory, root: nat, q: Path, k: Tree, l: Tree, m: nat, c: bool, r: Tree,
                       p: Path, x: nat)
    requires Whole(key, mem, root, p, Node(l, m, c, r)) && Plug(q, k) == Plug(p, Node(l, m, c, r))
    requires Ordered(key, l, Lo(key, p), Key(key(x))) && key(x) < key(m) && Within(Lo(key, p), key(x), Hi(key, p))
    ensures x !in PathIds(q) + Ids(k)
  {
    PlugIds(q, k);
    PlugIds(p, Node(l, m, c, r));
    Elsewhere(key, p, key(x));
    KeysWithin(key, l, Lo(key, p), Key(key(x)));
    KeysWithin(key, r, Key(key(m)), Hi(key, p));
  }

  class RbTree {
    const key: nat -> int
    var root: nat
    var mem: Memory
    ghost var tree: Tree

    /** The memory below the root is a red-black tree in search order, with parent links. */
    ghost predicate Valid()
      reads this
    {
      Whole(key, mem, root, Top, tree) && RedBlack(tree)
    }

    constructor (key: nat -> int, mem: Memory)
      ensures Valid() && tree == Leaf && this.key == key && this.mem == mem
    {
      this.key, root, this.mem, tree := key, Nil, mem, Leaf;
      new;
      assert Black(tree, 0);
    }

    /** RB_ROTATE: elm goes down on side s, its other child comes up. */
    method Rotate(s: Side, elm: nat, ghost p: Path, ghost a: Tree, ghost cx: bool, ghost b: Tree, ghost y: nat,
                  ghost cy: bool, ghost c: Tree)
      requires Whole(key, mem, root, p, Make(s, a, elm, cx, Make(s, b, y, cy, c)))
      modifies this`root, this`mem
      ensures Whole(key, mem, root, p, Make(s, Make(s, a, elm, cx, b), y, cy, c))
    {
      hide Whole;
      RotateWhole(key, mem, root, p, s, a, elm, cx, b, y, cy, c);
      mem, root := Rotated(mem, root, s, elm);
    }

    /** RB_COLOR of a node, the root of a subtree. */
    method Color(x: nat, red: bool, ghost p: Path, ghost t: Tree)
      requires Whole(key, mem, root, p, t) && t.Node? && t.id == x
      modifies this`mem
      ensures Whole(key, mem, root, p, t.(red := red))
    {
      ColorWhole(key, mem, root, p, t, red);
      mem := mem[x := mem[x].(red := red)];
    }

    /** A red uncle: colours are exchanged between the generations. */
    method Flip(ghost p: Path, ghost t: Tree, parent: nat, gparent: nat, tmp: nat)
      requires Whole(key, mem, root, p, t) && p.Step? && p.up.Step? && p.up.sibling.Node?
      requires parent == p.id && gparent == p.up.id && tmp == p.up.sibling.id
      modifies this`mem
      ensures Whole(key, mem, root, p.up.up, Flipped(p, t))
    {
      hide Whole, Make;
      ghost var up, s := p.up.up, p.up.side;
      ghost var a, u := Make(p.side, t, p.id, p.red, p.sibling), p.up.sibling;
      ghost var a1, u1 := Make(p.side, t, p.id, false, p.sibling), u.(red := false);
      MakeSwap(p.side, t, p.id, p.red, p.sibling);
      Down(key, mem, root, p.up, p.side, t, p.id, p.red, p.sibling);
      Down(key, mem, root, up, s, a, p.up.id, p.up.red, u);
      MakeSwap(s, a, p.up.id, p.up.red, u);
      Down(key, mem, root, up, Other(s), u, p.up.id, p.up.red, a);
      Color(tmp, false, Step(Other(s), p.up.id, p.up.red, a, up), u);
      Down(key, mem, root, up, Other(s), u1, p.up.id, p.up.red, a);
      MakeSwap(s, a, p.up.id, p.up.red, u1);
      Down(key, mem, root, up, s, a, p.up.id, p.up.red, u1);
      Color(parent, false, Step(s, p.up.id, p.up.red, u1, up), a);
      Down(key, mem, root, up, s, a1, p.up.id, p.up.red, u1);
      MakeSwap(s, a1, p.up.id, p.up.red, u1);
      Color(gparent, true, up, Make(s, a1, p.up.id, p.up.red, u1));
    }

    /** A black uncle, child and parent on the same side: parent and grandparent exchange colours and turn. */
    method Lift(ghost p: Path, ghost t: Tree, s: Side, parent: nat, gparent: nat)
      requires Whole(key, mem, root, p, t) && p.Step? && p.up.Step? && p.side == p.up.side == s
      requires parent == p.id && gparent == p.up.id
      modifies this`mem, this`root
      ensures Whole(key, mem, root, Lifted(p), t)
    {
      hide Whole, Make;
      ghost var up, u := p.up.up, p.up.sibling;
      ghost var a, a1 := Make(s, t, p.id, p.red, p.sibling), Make(s, t, p.id, false, p.sibling);
      MakeSwap(s, t, p.id, p.red, p.sibling);
      Down(key, mem, root, p.up, s, t, p.id, p.red, p.sibling);
      Color(parent, false, p.up, a);
      Down(key, mem, root, up, s, a1, p.up.id, p.up.red, u);
      MakeSwap(s, a1, p.up.id, p.up.red, u);
      Color(gparent, true, up, Make(s, a1, p.up.id, p.up.red, u));
      MakeSwap(s, a1, p.up.id, true, u);
      MakeSwap(s, t, p.id, false, p.sibling);
      Rotate(Other(s), gparent, up, u, true, p.sibling, parent, false, t);
      MakeSwap(s, p.sibling, gparent, true, u);
      MakeSwap(s, t, parent, false, Make(s, p.sibling, gparent, true, u));
      Down(key, mem, root, up, s, t, parent, false, Make(s, p.sibling, gparent, true, u));
    }

    /** The first rotation when child and parent are on different sides. */
    method Turn(ghost p: Path, ghost t: Tree, s: Side, parent: nat)
      requires Whole(key, mem, root, p, t) && p.Step? && t.Node? && p.side == Other(s) && parent == p.id
      modifies this`mem, this`root
      ensures Whole(key, mem, root, TurnedPath(p, t), TurnedTree(p, t))
    {
      hide Whole, Make;
      ghost var b, c := ChildTree(t, s), ChildTree(t, Other(s));
      Unmake(t, s);
      Down(key, mem, root, p.up, p.side, t, p.id, p.red, p.sibling);
      MakeSwap(p.side, t, p.id, p.red, p.sibling);
      Rotate(s, parent, p.up, p.sibling, p.red, b, t.id, t.red, c);
      Down(key, mem, root, p.up, s, Make(s, p.sibling, parent, p.red, b), t.id, t.red, c);
    }

    /** RB_INSERT_COLOR. */
    method InsertColor(x: nat, ghost p0: Path, ghost t0: Tree, ghost h0: int)
      requires Whole(key, mem, root, p0, t0) && Inserting(p0, t0, h0) && t0.id == x
      modifies this
      ensures Valid() && Ids(tree) == PathIds(p0) + Ids(t0)
    {
      hide Whole, PathRed, PathBlack, RootBlack, NoRedRed, Black, PathIds, Ids, Make;
      var elm := x;
      ghost var p, t, h := p0, t0, h0;
      Around(key, mem, root, p, t);
      var parent := mem[elm].parent;
      while parent != Nil && mem[parent].red
        invariant Whole(key, mem, root, p, t) && Inserting(p, t, h) && t.id == elm && parent == ParentOf(p)
        invariant p.Step? ==> p.id in mem && p.id != Nil && mem[p.id].red == p.red
        invariant PathIds(p) + Ids(t) == PathIds(p0) + Ids(t0)
        decreases Depth(p)
      {
        GrandParent(p, t, h);
        Around(key, mem, root, p, t);
        Down(key, mem, root, p.up, p.side, t, p.id, p.red, p.sibling);
        MakeSwap(p.side, t, p.id, p.red, p.sibling);
        Around(key, mem, root, p.up, Make(p.side, t, p.id, p.red, p.sibling));
        var gparent := mem[parent].parent;
        var s := if parent == mem[gparent].left then Left else Right;
        assert s == p.up.side;
        var tmp := mem[gparent].Child(Other(s));
        StepIds(p, t);
        if tmp != Nil && mem[tmp].red {
          FlipKeeps(p, t, h);
          Flip(p, t, parent, gparent, tmp);
          elm := gparent;
          p, t, h := p.up.up, Flipped(p, t), h + 1;
        } else {
          if mem[parent].Child(Other(s)) == elm {
            TurnKeeps(p, t, h);
            Turn(p, t, s, parent);
            parent, elm := elm, parent;
            p, t := TurnedPath(p, t), TurnedTree(p, t);
            StepIds(p, t);
          }
          LiftKeeps(p, t, h);
          Lift(p, t, s, parent, gparent);
          p := Lifted(p);
        }
        Around(key, mem, root, p, t);
        parent := mem[elm].parent;
      }
      Finish(p, t, h);
    }

    /** RB_COLOR of the root. */
    method Finish(ghost p: Path, ghost t: Tree, ghost h: int)
      requires Whole(key, mem, root, p, t) && Inserting(p, t, h) && (p.Step? ==> !p.red)
      modifies this
      ensures Valid() && Ids(tree) == PathIds(p) + Ids(t)
    {
      PlugWhole(key, mem, root, p, t);
      PlugIds(p, t);
      ghost var all := Plug(p, t);
      PlugNode(p, t);
      Around(key, mem, root, Top, all);
      Color(root, false, Top, all);
      tree := all.(red := false);
      BlackRoot(p, t, h);
    }

    /** RB_INSERT: an element with an equal key is returned and nothing changes; else the element joins the tree. */
    method Insert(elm: nat) returns (existing: nat)
      requires Valid() && elm != Nil
      modifies this
      ensures Valid()
      ensures existing != Nil ==> existing in Ids(tree) && key(existing) == key(elm)
      ensures existing != Nil ==> tree == old(tree) && mem == old(mem) && root == old(root)
      ensures existing == Nil ==> Ids(tree) == old(Ids(tree)) + {elm}
      ensures existing == Nil ==> forall x :: x in old(Ids(tree)) ==> key(x) != key(elm)
    {
      hide Whole, PathRed, PathBlack, RootBlack, NoRedRed, Black, PathIds, Ids, Plug;
      var parent, tmp := Nil, root;
      var comp := 0;
      ghost var p, t := Top, tree;
      Around(key, mem, root, p, t);
      PlugTop(t);
      while tmp != Nil
        invariant tree == old(tree) && mem == old(mem) && root == old(root)
        invariant Whole(key, mem, root, p, t) && Plug(p, t) == tree && tmp == Root(t) && parent == ParentOf(p)
        invariant (p.Step? ==> parent != Nil) && (t.Node? ==> t.id != Nil)
        invariant Within(Lo(key, p), key(elm), Hi(key, p)) && (p.Step? ==> (comp < 0 <==> p.side == Left))
        decreases t
      {
        parent := tmp;
        comp := key(elm) - key(parent);
        Around(key, mem, root, p, t);
        if comp == 0 {
          RootIsThere(p, t);
          return tmp;
        }
        var s := if comp < 0 then Left else Right;
        tmp := mem[tmp].Child(s);
        GoDown(key, mem, root, p, t, s, key(elm));
        p, t := Step(s, t.id, t.red, ChildTree(t, Other(s)), p), ChildTree(t, s);
        Around(key, mem, root, p, t);
      }
      Around(key, mem, root, p, t);
      Absent(key, mem, root, p, key(elm));
      Attach(key, mem, root, p, elm);
      mem := mem[elm := Cell(Nil, Nil, parent, true)];
      if parent != Nil {
        mem := if comp < 0 then mem[parent := mem[parent].(left := elm)] else mem[parent := mem[parent].(right := elm)];
      } else {
        root := elm;
      }
      LeafReady(p, elm);
      InsertColor(elm, p, Node(Leaf, elm, true, Leaf), 0);
      existing := Nil;
    }

    /** Colours the node above. */
    method ColorParent(x: nat, red: bool, ghost p: Path, ghost t: Tree)
      requires Whole(key, mem, root, p, t) && p.Step? && p.id == x
      modifies this`mem
      ensures Whole(key, mem, root, p.(red := red), t)
    {
      hide Whole, Make;
      Down(key, mem, root, p.up, p.side, t, p.id, p.red, p.sibling);
      MakeSwap(p.side, t, p.id, p.red, p.sibling);
      Color(x, red, p.up, Make(p.side, t, p.id, p.red, p.sibling));
      Down(key, mem, root, p.up, p.side, t, p.id, red, p.sibling);
    }

    /** Colours the node on the other side. */
    method ColorSibling(x: nat, red: bool, ghost p: Path, ghost t: Tree)
      requires Whole(key, mem, root, p, t) && p.Step? && p.sibling.Node? && p.sibling.id == x
      modifies this`mem
      ensures Whole(key, mem, root, p.(sibling := p.sibling.(red := red)), t)
    {
      hide Whole, Make;
      ghost var w, w1 := p.sibling, p.sibling.(red := red);
      Down(key, mem, root, p.up, p.side, t, p.id, p.red, w);
      MakeSwap(p.side, t, p.id, p.red, w);
      Down(key, mem, root, p.up, Other(p.side), w, p.id, p.red, t);
      Color(x, red, Step(Other(p.side), p.id, p.red, t, p.up), w);
      Down(key, mem, root, p.up, Other(p.side), w1, p.id, p.red, t);
      MakeSwap(p.side, t, p.id, p.red, w1);
      Down(key, mem, root, p.up, p.side, t, p.id, p.red, w1);
    }

    /** Colours a child of the node on the other side. */
    method ColorNephew(x: nat, red: bool, s: Side, ghost p: Path, ghost t: Tree)
      requires Whole(key, mem, root, p, t) && p.Step? && p.sibling.Node?
      requires ChildTree(p.sibling, s).Node? && ChildTree(p.sibling, s).id == x
      modifies this`mem
      ensures Whole(key, mem, root,
        p.(sibling := Make(s, ChildTree(p.sibling, s).(red := red), p.sibling.id, p.sibling.red,
                           ChildTree(p.sibling, Other(s)))), t)
    {
      hide Whole, Make;
      ghost var w, n, f := p.sibling, ChildTree(p.sibling, s), ChildTree(p.sibling, Other(s));
      ghost var n1 := n.(red := red);
      ghost var w1 := Make(s, n1, w.id, w.red, f);
      ghost var across := Step(Other(p.side), p.id, p.red, t, p.up);
      Unmake(w, s);
      Down(key, mem, root, p.up, p.side, t, p.id, p.red, w);
      MakeSwap(p.side, t, p.id, p.red, w);
      Down(key, mem, root, p.up, Other(p.side), w, p.id, p.red, t);
      Down(key, mem, root, across, s, n, w.id, w.red, f);
      Color(x, red, Step(s, w.id, w.red, f, across), n);
      Down(key, mem, root, across, s, n1, w.id, w.red, f);
      Down(key, mem, root, p.up, Other(p.side), w1, p.id, p.red, t);
      MakeSwap(p.side, t, p.id, p.red, w1);
      Down(key, mem, root, p.up, p.side, t, p.id, p.red, w1);
    }

    /** A red sibling: it turns black and comes up, and the parent turns red. */
    method RaiseSibling(ghost p: Path, ghost t: Tree, s: Side, parent: nat, tmp: nat)
      requires Whole(key, mem, root, p, t) && p.Step? && p.side == s && p.sibling.Node? && parent == p.id
      requires tmp == p.sibling.id
      modifies this`mem, this`root
      ensures Whole(key, mem, root, RedSiblingPath(p), t)
    {
      hide Whole, Make;
      ghost var w := p.sibling;
      ghost var b, c := ChildTree(w, s), ChildTree(w, Other(s));
      ColorSibling(tmp, false, p, t);
      ColorParent(parent, true, p.(sibling := w.(red := false)), t);
      Unmake(w.(red := false), s);
      Down(key, mem, root, p.up, s, t, p.id, true, w.(red := false));
      Rotate(s, parent, p.up, t, true, b, tmp, false, c);
      Down(key, mem, root, p.up, s, Make(s, t, p.id, true, b), tmp, false, c);
      Down(key, mem, root, Step(s, tmp, false, c, p.up), s, t, p.id, true, b);
    }

    /** Both nephews black: the sibling turns red, and the parent is looked at next. */
    method PaintSibling(ghost p: Path, ghost t: Tree, tmp: nat)
      requires Whole(key, mem, root, p, t) && p.Step? && p.sibling.Node? && tmp == p.sibling.id
      modifies this`mem
      ensures Whole(key, mem, root, p.up, PaintedTree(p, t))
    {
      hide Whole, Make;
      ColorSibling(tmp, true, p, t);
      Down(key, mem, root, p.up, p.side, t, p.id, p.red, p.sibling.(red := true));
    }

    /** Only the near nephew red: it turns black, the sibling red, and the nephew comes up in its place. */
    method RaiseNephew(ghost p: Path, ghost t: Tree, s: Side, tmp: nat, near: nat)
      requires Whole(key, mem, root, p, t) && p.Step? && p.side == s && p.sibling.Node? && tmp == p.sibling.id
      requires ChildTree(p.sibling, s).Node? && near == ChildTree(p.sibling, s).id
      modifies this`mem, this`root
      ensures Whole(key, mem, root, NephewUp(p), t)
    {
      hide Whole, Make;
      ghost var w, n, f := p.sibling, ChildTree(p.sibling, s), ChildTree(p.sibling, Other(s));
      ghost var n1, n2 := ChildTree(n, s), ChildTree(n, Other(s));
      ghost var across := Step(Other(s), p.id, p.red, t, p.up);
      ColorNephew(near, false, s, p, t);
      ghost var w1 := Make(s, n.(red := false), w.id, w.red, f);
      MakeSwap(s, n.(red := false), w.id, w.red, f);
      ColorSibling(tmp, true, p.(sibling := w1), t);
      ghost var w2 := Make(s, n.(red := false), w.id, true, f);
      MakeSwap(s, n.(red := false), w.id, true, f);
      Unmake(n.(red := false), s);
      MakeSwap(s, n1, n.id, false, n2);
      Down(key, mem, root, p.up, s, t, p.id, p.red, w2);
      MakeSwap(s, t, p.id, p.red, w2);
      Down(key, mem, root, p.up, Other(s), w2, p.id, p.red, t);
      Rotate(Other(s), tmp, across, f, true, n2, n.id, false, n1);
      MakeSwap(s, n2, w.id, true, f);
      MakeSwap(s, n1, n.id, false, Make(s, n2, w.id, true, f));
      ghost var w3 := Make(s, n1, n.id, false, Make(s, n2, w.id, true, f));
      Down(key, mem, root, p.up, Other(s), w3, p.id, p.red, t);
      MakeSwap(s, t, p.id, p.red, w3);
      Down(key, mem, root, p.up, s, t, p.id, p.red, w3);
    }

    /** The far nephew red: colours move over and the sibling comes up for good. */
    method Settle(ghost p: Path, ghost t: Tree, s: Side, parent: nat, tmp: nat, far: nat)
      requires Whole(key, mem, root, p, t) && p.Step? && p.side == s && p.sibling.Node? && parent == p.id
      requires tmp == p.sibling.id
      requires ChildTree(p.sibling, Other(s)).Node? && far == ChildTree(p.sibling, Other(s)).id && parent in mem
      requires mem[parent].red == p.red
      modifies this`mem, this`root
      ensures Whole(key, mem, root, p.up, Settled(p, t))
    {
      hide Whole, Make;
      ghost var w, n, f := p.sibling, ChildTree(p.sibling, s), ChildTree(p.sibling, Other(s));
      var color := mem[parent].red;
      ColorSibling(tmp, color, p, t);
      ghost var w1, p1 := w.(red := color), p.(sibling := w.(red := color));
      ColorParent(parent, false, p1, t);
      ColorNephew(far, false, Other(s), p1.(red := false), t);
      ghost var w2 := Make(Other(s), f.(red := false), w.id, color, n);
      MakeSwap(s, n, w.id, color, f.(red := false));
      Down(key, mem, root, p.up, s, t, p.id, false, w2);
      Rotate(s, parent, p.up, t, false, n, tmp, color, f.(red := false));
    }

    /** The branch of RB_REMOVE_COLOR that makes the sibling black. */
    method RedSiblingTurn(ghost p: Path, ghost t: Tree, ghost h: int, s: Side, parent: nat, tmp: nat)
      returns (sibling: nat)
      requires Whole(key, mem, root, p, t) && Removing(p, t, h) && p.Step? && IsRed(p.sibling)
      requires p.side == s && parent == p.id && tmp == p.sibling.id
      modifies this`mem, this`root
      ensures ChildTree(p.sibling, s).Node? && !ChildTree(p.sibling, s).red && sibling == ChildTree(p.sibling, s).id
      ensures Whole(key, mem, root, RedSiblingPath(p), t) && Removing(RedSiblingPath(p), t, h)
      ensures root != Root(t)
      ensures var w := ChildTree(p.sibling, s);
        && sibling in mem && mem[sibling] == Cell(Root(w.left), Root(w.right), parent, w.red)
        && (w.left.Node? ==> w.left.id in mem && w.left.id != Nil && mem[w.left.id].red == w.left.red)
        && (w.right.Node? ==> w.right.id in mem && w.right.id != Nil && mem[w.right.id].red == w.right.red)
    {
      hide Whole, PathRed, PathBlack, RootBlack, NoRedRed, Black, Make;
      RedSiblingKeeps(p, t, h);
      RaiseSibling(p, t, s, parent, tmp);
      ghost var p1 := RedSiblingPath(p);
      Around(key, mem, root, p1, t);
      Across(key, mem, root, p1, t);
      AtRoot(key, mem, root, p1, t);
      sibling := mem[parent].Child(Other(s));
    }

    /** The branch for two black nephews: the sibling turns red, and the black node missing is missing one level up. */
    method PaintTurn(ghost p: Path, ghost t: Tree, ghost h: int, parent: nat, sibling: nat) returns (above: nat)
      requires Whole(key, mem, root, p, t) && Removing(p, t, h) && p.Step? && !IsRed(t) && parent == p.id
      requires p.sibling.Node? && !p.sibling.red && sibling == p.sibling.id
      requires !IsRed(p.sibling.left) && !IsRed(p.sibling.right)
      modifies this
      ensures var t1 := PaintedTree(p, t);
        && Whole(key, mem, root, p.up, t1) && Removing(p.up, t1, if p.red then h else h + 1) && t1.Node?
        && PathIds(p.up) + Ids(t1) == PathIds(p) + Ids(t) && Depth(p.up) == Depth(p) - 1
        && parent == Root(t1) && above == ParentOf(p.up) && t1.red == p.red
      ensures (parent == root <==> p.up.Top?) && parent in mem && mem[parent].red == p.red
    {
      hide Whole, Removing, PathIds, Ids, Make, Plug;
      RemoveIds(p, t);
      PaintKeeps(p, t, h);
      PaintSibling(p, t, sibling);
      Around(key, mem, root, p.up, PaintedTree(p, t));
      AtRoot(key, mem, root, p.up, PaintedTree(p, t));
      above := mem[parent].parent;
    }

    /** The side the element is on and its sibling, which a first turn makes black if it is red. */
    method BlackSibling(parent: nat, elm: nat, ghost p: Path, ghost t: Tree, ghost h: int)
      returns (s: Side, tmp: nat, ghost p1: Path)
      requires Whole(key, mem, root, p, t) && Removing(p, t, h) && p.Step? && !IsRed(t)
      requires elm == Root(t) && parent == p.id
      modifies this`mem, this`root
      ensures Whole(key, mem, root, p1, t) && Removing(p1, t, h) && p1.Step? && p1.side == s && p1.id == parent
      ensures p1.sibling.Node? && !p1.sibling.red && tmp == p1.sibling.id
      ensures PathIds(p1) + Ids(t) == PathIds(p) + Ids(t)
      ensures Depth(p1) == Depth(p) || (Depth(p1) == Depth(p) + 1 && p1.red)
      ensures tmp in mem && mem[tmp] == Cell(Root(p1.sibling.left), Root(p1.sibling.right), parent, false)
      ensures forall k :: k in {p1.sibling.left, p1.sibling.right} && k.Node? ==>
        k.id in mem && k.id != Nil && mem[k.id].red == k.red
    {
      hide Whole, PathRed, PathBlack, RootBlack, NoRedRed, Black, PathIds, Ids, Make, Plug;
      Around(key, mem, root, p, t);
      SiblingThere(p, t, h);
      Across(key, mem, root, p, t);
      RemoveIds(p, t);
      s := if mem[parent].left == elm then Left else Right;
      assert s == p.side;
      tmp := mem[parent].Child(Other(s));
      p1 := p;
      if mem[tmp].red {
        tmp := RedSiblingTurn(p, t, h, s, parent, tmp);
        p1 := RedSiblingPath(p);
      }
    }

    /** RB_REMOVE_COLOR. */
    method RemoveColor(above: nat, x: nat, ghost p0: Path, ghost t0: Tree, ghost h0: int)
      requires Whole(key, mem, root, p0, t0) && Removing(p0, t0, h0) && above == ParentOf(p0) && x == Root(t0)
      modifies this
      ensures Valid() && Ids(tree) == PathIds(p0) + Ids(t0)
    {
      hide Whole, PathRed, PathBlack, RootBlack, NoRedRed, Black, PathIds, Ids, Make, Plug;
      var parent, elm := above, x;
      ghost var p, t, h := p0, t0, h0;
      Around(key, mem, root, p, t);
      AtRoot(key, mem, root, p, t);
      while (elm == Nil || !mem[elm].red) && elm != root
        invariant Whole(key, mem, root, p, t) && Removing(p, t, h) && elm == Root(t) && parent == ParentOf(p)
        invariant (elm == root <==> p.Top?) && (elm != Nil ==> elm in mem && t.Node? && mem[elm].red == t.red)
        invariant PathIds(p) + Ids(t) == PathIds(p0) + Ids(t0)
        decreases 2 * Depth(p) + if IsRed(t) then 0 else 1
      {
        Around(key, mem, root, p, t);
        var s, tmp;
        s, tmp, p := BlackSibling(parent, elm, p, t, h);
        var near, far := mem[tmp].Child(s), mem[tmp].Child(Other(s));
        if (near == Nil || !mem[near].red) && (far == Nil || !mem[far].red) {
          elm := parent;
          parent := PaintTurn(p, t, h, parent, tmp);
          p, t, h := p.up, PaintedTree(p, t), if p.red then h else h + 1;
        } else {
          LastTurn(p, t, h, s, parent, tmp, near, far);
          return;
        }
      }
      RemovingEnds(p, t, h);
      FinishRemove(elm, p, t);
    }

    /** The branch of RB_REMOVE_COLOR that ends it: a red nephew. */
    method LastTurn(ghost p0: Path, ghost t0: Tree, ghost h: int, s: Side, parent: nat, sibling: nat, near: nat,
                    farther: nat)
      requires Whole(key, mem, root, p0, t0) && Removing(p0, t0, h) && !IsRed(t0) && p0.Step? && p0.side == s
      requires parent == p0.id
      requires p0.sibling.Node? && !p0.sibling.red && sibling == p0.sibling.id
      requires near == Root(ChildTree(p0.sibling, s)) && farther == Root(ChildTree(p0.sibling, Other(s)))
      requires IsRed(ChildTree(p0.sibling, s)) || IsRed(ChildTree(p0.sibling, Other(s)))
      modifies this
      ensures Valid() && Ids(tree) == PathIds(p0) + Ids(t0)
    {
      hide Whole, PathRed, PathBlack, RootBlack, NoRedRed, Black, PathIds, Ids, Make, Plug;
      var tmp, far := sibling, farther;
      ghost var p, t := p0, t0;
      Around(key, mem, root, p, t);
      Across(key, mem, root, p, t);
      if far == Nil || !mem[far].red {
        NephewKeeps(p, t, h);
        NephewIds(p, t);
        RaiseNephew(p, t, s, tmp, near);
        p := NephewUp(p);
        Around(key, mem, root, p, t);
        Across(key, mem, root, p, t);
        tmp := mem[parent].Child(Other(s));
        far := mem[tmp].Child(Other(s));
      }
      SettleKeeps(p, t, h);
      SettledIds(p, t);
      Settle(p, t, s, parent, tmp, far);
      PlugWhole(key, mem, root, p.up, Settled(p, t));
      PlugIds(p.up, Settled(p, t));
      ghost var all := Plug(p.up, Settled(p, t));
      SettledEnds(all);
      TopIds(all);
      Around(key, mem, root, Top, all);
      FinishRemove(root, Top, all);
    }

    /** The last line of RB_REMOVE_COLOR. */
    method FinishRemove(elm: nat, ghost p: Path, ghost t: Tree)
      requires Whole(key, mem, root, p, t) && Ending(p, t) && elm == Root(t)
      modifies this
      ensures Valid() && Ids(tree) == PathIds(p) + Ids(t)
    {
      ghost var t1 := if t.Node? then t.(red := false) else t;
      Around(key, mem, root, p, t);
      if elm != Nil {
        Color(elm, false, p, t);
      }
      PlugWhole(key, mem, root, p, t1);
      PlugIds(p, t1);
      tree := Plug(p, t1);
    }

    /** Whoever points at `from` points at `to` now. */
    method Relink(parent: nat, from: nat, to: nat)
      requires parent != Nil ==> parent in mem
      modifies this`mem, this`root
      ensures (mem, root) == old(Relinked(mem, root, parent, from, to))
    {
      if parent != Nil {
        if mem[parent].left == from {
          mem := mem[parent := mem[parent].(left := to)];
        } else {
          mem := mem[parent := mem[parent].(right := to)];
        }
      } else {
        root := to;
      }
    }

    /** The child of a node that goes takes its place. */
    method TakeOut(elm: nat, child: nat, parent: nat, ghost p: Path, ghost t: Tree)
      requires Whole(key, mem, root, p, t) && t.Node? && (t.left.Leaf? || t.right.Leaf?)
      requires elm == t.id && child == Root(OnlyChild(t)) && parent == ParentOf(p)
      modifies this`mem, this`root
      ensures Whole(key, mem, root, p, OnlyChild(t)) && elm in mem && mem[elm] == old(mem)[elm]
      ensures mem.Keys == old(mem).Keys
    {
      hide Whole;
      Around(key, mem, root, p, t);
      Detach(key, mem, root, p, t);
      ChildThere(key, mem, root, p, t);
      if child != Nil {
        mem := mem[child := mem[child].(parent := parent)];
      }
      Relink(parent, elm, child);
    }

    /** The end of RB_REMOVE: the fix-up, if the node taken out was black. */
    method Repair(red: bool, parent: nat, child: nat, ghost p: Path, ghost k: Tree, ghost h: int)
      requires Whole(key, mem, root, p, k) && parent == ParentOf(p) && child == Root(k)
      requires if red then Fine(p, k, h) else Removing(p, k, h - 1)
      modifies this
      ensures Valid() && Ids(tree) == PathIds(p) + Ids(k)
    {
      if !red {
        RemoveColor(parent, child, p, k, h - 1);
      } else {
        PlugWhole(key, mem, root, p, k);
        PlugIds(p, k);
        PlugRedBlack(p, k, h);
        tree := Plug(p, k);
      }
    }

    /** RB_REMOVE: the element leaves the tree, and no other does. */
    method Remove(elm: nat) returns (removed: nat)
      requires Valid() && elm in Ids(tree)
      modifies this
      ensures Valid() && removed == elm && Ids(tree) == old(Ids(tree)) - {elm}
    {
      hide Whole, PathRed, PathBlack, RootBlack, NoRedRed, Black, PathIds, Ids, Plug;
      ghost var p, t := Locate(Top, tree, elm);
      PlugTop(tree);
      PlugWhole(key, mem, root, p, t);
      PlugIds(p, t);
      ghost var h := Unplug(p, t);
      Around(key, mem, root, p, t);
      ChildThere(key, mem, root, p, t);
      removed := elm;
      if mem[elm].left != Nil && mem[elm].right != Nil {
        RemoveInner(elm, p, t);
        return;
      }
      var child := if mem[elm].left == Nil then mem[elm].right else mem[elm].left;
      var parent, red := mem[elm].parent, mem[elm].red;
      OnceOnly(key, mem, root, p, t);
      NodeIds(t);
      DetachColours(p, t, h);
      TakeOut(elm, child, parent, p, t);
      Repair(red, parent, child, p, OnlyChild(t), h);
    }

    /** RB_REMOVE of an element with two children: its successor is taken out and then put in its place. */
    method RemoveInner(old_: nat, ghost p: Path, ghost t: Tree)
      requires Whole(key, mem, root, p, t) && RedBlack(Plug(p, t)) && t.Node? && t.id == old_ && t.left.Node?
      requires t.right.Node?
      modifies this
      ensures Valid() && Ids(tree) == PathIds(p) + Ids(t) - {old_}
    {
      hide Whole, PathRed, PathBlack, RootBlack, NoRedRed, Black, PathIds, Ids, Plug, Spine, Swapped;
      ghost var l, c, base := t.left, t.red, Step(Right, old_, t.red, t.left, p);
      ghost var q, sub := base, t.right;
      Around(key, mem, root, p, t);
      ChildThere(key, mem, root, p, t);
      FirstSpine(key, mem, root, p, t);
      var elm := mem[old_].right;
      Around(key, mem, root, q, sub);
      ChildThere(key, mem, root, q, sub);
      var left := mem[elm].left;
      while left != Nil
        invariant Whole(key, mem, root, q, sub) && Spine(q, old_, c, l, p) && sub.Node? && sub.id == elm && elm in mem
        invariant left == Root(sub.left) && (sub.left.Node? ==> sub.left.id != Nil) && q.Step?
        invariant Plug(q, sub) == Plug(p, t)
        invariant ParentOf(q) == old_ <==> q == base
        decreases sub
      {
        elm := left;
        NextSpine(key, mem, root, q, sub, old_, c, l, p);
        q, sub := Step(Left, sub.id, sub.red, sub.right, q), sub.left;
        Around(key, mem, root, q, sub);
        ChildThere(key, mem, root, q, sub);
        left := mem[elm].left;
      }
      Around(key, mem, root, q, sub);
      ghost var h := Unplug(q, sub);
      ghost var mem0, root0 := mem, root;
      var child, parent, red := mem[elm].right, mem[elm].parent, mem[elm].red;
      DetachColours(q, sub, h);
      TakeOut(elm, child, parent, q, sub);
      if mem[elm].parent == old_ {
        parent := elm;
      }
      Succeed(key, mem0, root0, mem, root, q, sub, old_, c, l, p);
      PutInPlace(old_, elm);
      SwappedStays(q, base, elm, OnlyChild(sub), h);
      SwappedParent(q, base, elm);
      PlugIds(q, sub);
      PlugIds(p, t);
      Repair(red, parent, child, Swapped(q, base, elm), OnlyChild(sub), h);
    }

    /** elm, detached, takes over the fields and the neighbours of old. */
    method PutInPlace(old_: nat, elm: nat)
      requires old_ in mem && elm in mem && elm != old_
      requires mem[old_].parent != Nil ==> mem[old_].parent in mem && mem[old_].parent != old_
      requires mem[old_].left != Nil && mem[old_].left in mem && (mem[old_].right != Nil ==> mem[old_].right in mem)
      modifies this`mem, this`root
      ensures (mem, root) == old(Replaced(mem, root, old_, elm))
    {
      mem := mem[elm := mem[old_]];
      Relink(mem[old_].parent, old_, elm);
      mem := mem[mem[old_].left := mem[mem[old_].left].(parent := elm)];
      if mem[old_].right != Nil {
        mem := mem[mem[old_].right := mem[mem[old_].right].(parent := elm)];
      }
    }
  }

  lemma ChildThere(key: nat -> int, mem: Memory, root: nat, p: Path, t: Tree)
    requires Whole(key, mem, root, p, t) && t.Node?
    ensures t.left.Node? ==> t.left.id in mem && t.left.id != Nil
    ensures t.right.Node? ==> t.right.id in mem && t.right.id != Nil
  {
    RootLies(mem, t.left, t.id);
    RootLies(mem, t.right, t.id);
  }

  lemma NodeIds(t: Tree)
    requires t.Node?
    ensures Ids(t) == Ids(t.left) + {t.id} + Ids(t.right)
    ensures t.left.Leaf? || t.right.Leaf? ==> Ids(t) == Ids(OnlyChild(t)) + {t.id}
  {
  }

  lemma FirstSpine(key: nat -> int, mem: Memory, root: nat, p: Path, t: Tree)
    requires Whole(key, mem, root, p, t) && t.Node?
    ensures var q := Step(Right, t.id, t.red, t.left, p);
      Spine(q, t.id, t.red, t.left, p) && Whole(key, mem, root, q, t.right) && Plug(q, t.right) == Plug(p, t)
  {
    Unmake(t, Right);
    Down(key, mem, root, p, Right, t.right, t.id, t.red, t.left);
  }

  lemma NextSpine(key: nat -> int, mem: Memory, root: nat, q: Path, sub: Tree, x: nat, c: bool, l: Tree, p: Path)
    requires Whole(key, mem, root, q, sub) && sub.Node? && Spine(q, x, c, l, p)
    ensures var q1 := Step(Left, sub.id, sub.red, sub.right, q);
      && Spine(q1, x, c, l, p) && Whole(key, mem, root, q1, sub.left) && Plug(q1, sub.left) == Plug(q, sub)
      && sub.id != x && q1 != Step(Right, x, c, l, p)
  {
    Unmake(sub, Left);
    Down(key, mem, root, q, Left, sub.left, sub.id, sub.red, sub.right);
    SpineLow(key, q, x, c, l, p);
    InBounds(key, sub, Lo(key, q), Hi(key, q));
  }

  lemma SwappedParent(q: Path, base: Path, m: nat)
    requires q.Step? && base.Step?
    ensures ParentOf(Swapped(q, base, m)) == if q == base then m else ParentOf(q)
  {
  }

  lemma TopIds(t: Tree)
    ensures PathIds(Top) + Ids(t) == Ids(t)
  {
  }

  lemma PlugTop(t: Tree)
    ensures Plug(Top, t) == t && Lo(_ => 0, Top) == Low
  {
  }

  lemma RootIsThere(p: Path, t: Tree)
    requires t.Node?
    ensures t.id in Ids(Plug(p, t))
  {
    PlugIds(p, t);
  }

  /** One step of a search. */
  lemma GoDown(key: nat -> int, mem: Memory, root: nat, p: Path, t: Tree, s: Side, k: int)
    requires Whole(key, mem, root, p, t) && t.Node? && Within(Lo(key, p), k, Hi(key, p))
    requires if s == Left then k < key(t.id) else k > key(t.id)
    ensures var p1 := Step(s, t.id, t.red, ChildTree(t, Other(s)), p);
      && Whole(key, mem, root, p1, ChildTree(t, s)) && Plug(p1, ChildTree(t, s)) == Plug(p, t)
      && Within(Lo(key, p1), k, Hi(key, p1))
  {
    Unmake(t, s);
    Down(key, mem, root, p, s, ChildTree(t, s), t.id, t.red, ChildTree(t, Other(s)));
  }

  /** A search that ends at an empty place has shown that its key is absent. */
  lemma Absent(key: nat -> int, mem: Memory, root: nat, p: Path, k: int)
    requires Whole(key, mem, root, p, Leaf) && Within(Lo(key, p), k, Hi(key, p))
    ensures forall x :: x in Ids(Plug(p, Leaf)) ==> key(x) != k
  {
    Elsewhere(key, p, k);
    PlugIds(p, Leaf);
  }

  lemma LeafReady(p: Path, elm: nat)
    requires RedBlack(Plug(p, Leaf))
    ensures Inserting(p, Node(Leaf, elm, true, Leaf), 0)
    ensures PathIds(p) + Ids(Node(Leaf, elm, true, Leaf)) == Ids(Plug(p, Leaf)) + {elm}
  {
    var h := Unplug(p, Leaf);
    PlugIds(p, Leaf);
  }

  lemma {:induction false} PlugNode(p: Path, t: Tree)
    requires t.Node?
    ensures Plug(p, t).Node?
  {
    if p.Step? { PlugNode(p.up, Make(p.side, t, p.id, p.red, p.sibling)); }
  }

  lemma BlackRoot(p: Path, t: Tree, h: int)
    requires Inserting(p, t, h) && (p.Step? ==> !p.red)
    ensures Plug(p, t).Node? && RedBlack(Plug(p, t).(red := false))
  {
    if p.Top? {
      BlackPositive(t.left, h);
      var root := t.(red := false);
      assert root == Node(t.left, t.id, false, t.right) && Black(root, h + 1);
    } else {
      PathRedBlack(p, t, h);
    }
  }

  /** With a black node above, a red hole is as good as any. */
  lemma PathRedBlack(p: Path, t: Tree, h: int)
    requires Inserting(p, t, h) && p.Step? && !p.red
    ensures Plug(p, t).Node? && RedBlack(Plug(p, t)) && Plug(p, t).(red := false) == Plug(p, t)
  {
    PlugNode(p, t);
    PlugRedBlack(p, t, h);
  }
}
