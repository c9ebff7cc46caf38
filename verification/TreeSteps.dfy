/** The pointer steps of the red-black tree (external/uv/tree.h:342-380) and what each does to the tree in memory.

    A step writes a few cells. That all other subtrees and the path above still lie in memory as they did is shown by
    bounds on keys: every cell written has a key outside the bounds of the subtree in question (LiesFrame, PathFrame in
    TreeShape), since no two nodes of an ordered tree have the same key.

    RotateWhole, ColorWhole and RelinkPath are what the methods of RedBlack use. */
module TreeSteps {
  import opened TreeShape

  /** Whoever points at `from`, the parent or the root, points at `to` now. */
  function Relinked(mem: Memory, root: nat, parent: nat, from: nat, to: nat): (Memory, nat) {
    if parent == Nil then (mem, to)
    else if parent !in mem then (mem, root)
    else if mem[parent].left == from then (mem[parent := mem[parent].(left := to)], root)
    else (mem[parent := mem[parent].(right := to)], root)
  }

  /** Relinking the end of a path changes nothing else. */
  lemma RelinkPath(key: nat -> int, mem: Memory, root: nat, p: Path, from: nat, to: nat)
    requires PathLies(mem, p, from, root) && PathOrdered(key, p) && from != Nil
    requires Within(Lo(key, p), key(from), Hi(key, p))
    ensures var (mem1, root1) := Relinked(mem, root, ParentOf(p), from, to);
      && PathLies(mem1, p, to, root1) && SameWithin(key, mem, mem1, Lo(key, p), Hi(key, p)) && mem1.Keys == mem.Keys
  {
    var (mem1, root1) := Relinked(mem, root, ParentOf(p), from, to);
    if p.Step? {
      if p.side == Left {
        LiesFrame(key, mem, mem1, p.sibling, p.id, Key(key(p.id)), Hi(key, p.up));
      } else {
        assert p.sibling.Node? ==> key(p.sibling.id) != key(from);
        LiesFrame(key, mem, mem1, p.sibling, p.id, Lo(key, p.up), Key(key(p.id)));
      }
      PathFrame(key, mem, mem1, p.up, p.id, root);
    }
  }

  /** The parent of a subtree, if there is one, is another now. */
  function Adopted(mem: Memory, child: nat, parent: nat): Memory {
    if child == Nil || child !in mem then mem else mem[child := mem[child].(parent := parent)]
  }

  lemma AdoptTree(key: nat -> int, mem: Memory, t: Tree, parent: nat, parent1: nat, lo: Bound, hi: Bound)
    requires Lies(mem, t, parent) && Ordered(key, t, lo, hi)
    ensures Lies(Adopted(mem, Root(t), parent1), t, parent1)
  {
    if t.Node? {
      var mem1 := Adopted(mem, t.id, parent1);
      LiesFrame(key, mem, mem1, t.left, t.id, lo, Key(key(t.id)));
      LiesFrame(key, mem, mem1, t.right, t.id, Key(key(t.id)), hi);
    }
  }

  /** The rotation of elm to side s; its other child comes up. */
  function RotatedInside(mem: Memory, s: Side, elm: nat): Memory
    requires elm in mem && mem[elm].Child(Other(s)) in mem
  {
    var tmp := mem[elm].Child(Other(s));
    var b := mem[tmp].Child(s);
    var mem1 := mem[elm := mem[elm].With(Other(s), b).(parent := tmp)];
    var mem2 := mem1[tmp := mem1[tmp].With(s, elm).(parent := mem[elm].parent)];
    Adopted(mem2, b, elm)
  }

  lemma RotatedOutside(mem: Memory, s: Side, elm: nat)
    requires elm in mem && mem[elm].Child(Other(s)) in mem
    ensures var tmp, mem1 := mem[elm].Child(Other(s)), RotatedInside(mem, s, elm);
      forall z :: z != elm && z != tmp && z != mem[tmp].Child(s) && z in mem ==> z in mem1 && mem1[z] == mem[z]
  {
  }

  /** Taking a node apart, and putting it together. */
  lemma Parts(mem: Memory, s: Side, near: Tree, id: nat, red: bool, far: Tree, parent: nat)
    ensures Lies(mem, Make(s, near, id, red, far), parent) <==>
      id != Nil && id in mem && mem[id] == MakeCell(s, Root(near), Root(far), parent, red) && Lies(mem, near, id)
        && Lies(mem, far, id)
  {
  }

  lemma OrderedParts(key: nat -> int, s: Side, near: Tree, id: nat, red: bool, far: Tree, lo: Bound, hi: Bound)
    ensures Ordered(key, Make(s, near, id, red, far), lo, hi) <==>
      && Within(lo, key(id), hi)
      && (if s == Left then Ordered(key, near, lo, Key(key(id))) && Ordered(key, far, Key(key(id)), hi)
          else Ordered(key, near, Key(key(id)), hi) && Ordered(key, far, lo, Key(key(id))))
  {
  }

  lemma InBounds(key: nat -> int, t: Tree, lo: Bound, hi: Bound)
    requires Ordered(key, t, lo, hi)
    ensures t.Node? ==> Within(lo, key(t.id), hi)
  {
  }

  /** Memory after the inner part of a rotation, but for the parent of the subtree that changes sides. */
  function Turned(mem: Memory, s: Side, a: nat, x: nat, cx: bool, b: nat, y: nat, cy: bool, c: nat,
                  parent: nat): Memory {
    mem[x := MakeCell(s, a, b, y, cx)][y := MakeCell(s, x, c, parent, cy)]
  }

  lemma RotatedLinks(mem: Memory, parent: nat, s: Side, a: Tree, x: nat, cx: bool, b: Tree, y: nat, cy: bool, c: Tree)
    requires Lies(mem, Make(s, a, x, cx, Make(s, b, y, cy, c)), parent)
    ensures x in mem && mem[x] == MakeCell(s, Root(a), y, parent, cx)
    ensures y in mem && mem[y] == MakeCell(s, Root(b), Root(c), x, cy)
  {
    hide Lies;
    Parts(mem, s, a, x, cx, Make(s, b, y, cy, c), parent);
    Parts(mem, s, b, y, cy, c, x);
  }

  lemma RotatedCells(mem: Memory, parent: nat, s: Side, a: Tree, x: nat, cx: bool, b: Tree, y: nat, cy: bool, c: Tree)
    requires Lies(mem, Make(s, a, x, cx, Make(s, b, y, cy, c)), parent) && x != y
    ensures x in mem && mem[x].Child(Other(s)) == y && y in mem && mem[y].Child(s) == Root(b)
    ensures RotatedInside(mem, s, x) ==
      Adopted(Turned(mem, s, Root(a), x, cx, Root(b), y, cy, Root(c), parent), Root(b), x)
  {
    RotatedLinks(mem, parent, s, a, x, cx, b, y, cy, c);
    hide Lies, Adopted;
  }

  /** The three subtrees of a rotation, each with its own bounds. */
  ghost predicate Pieces(key: nat -> int, mem: Memory, a: Tree, x: nat, b: Tree, y: nat, c: Tree,
                         loA: Bound, hiA: Bound, loB: Bound, hiB: Bound, loC: Bound, hiC: Bound) {
    && Lies(mem, a, x) && Lies(mem, b, y) && Lies(mem, c, y) && x != Nil && y != Nil
    && Ordered(key, a, loA, hiA) && Ordered(key, b, loB, hiB) && Ordered(key, c, loC, hiC) && key(x) != key(y)
    && !Within(loA, key(x), hiA) && !Within(loB, key(x), hiB) && !Within(loC, key(x), hiC)
    && !Within(loA, key(y), hiA) && !Within(loB, key(y), hiB) && !Within(loC, key(y), hiC)
    && (b.Node? ==> !Within(loA, key(b.id), hiA) && !Within(loC, key(b.id), hiC))
  }

  lemma PiecesMove(key: nat -> int, mem: Memory, parent: nat, s: Side, a: Tree, x: nat, cx: bool, b: Tree, y: nat,
                   cy: bool, c: Tree, loA: Bound, hiA: Bound, loB: Bound, hiB: Bound, loC: Bound, hiC: Bound)
    requires Pieces(key, mem, a, x, b, y, c, loA, hiA, loB, hiB, loC, hiC)
    ensures var mem2 := Turned(mem, s, Root(a), x, cx, Root(b), y, cy, Root(c), parent);
      var mem1 := Adopted(mem2, Root(b), x);
      && Lies(mem1, a, x) && Lies(mem1, b, x) && Lies(mem1, c, y)
      && (b.Node? ==> b.id != x && b.id != y) && x != y
  {
    var mem2 := Turned(mem, s, Root(a), x, cx, Root(b), y, cy, Root(c), parent);
    var mem1 := Adopted(mem2, Root(b), x);
    InBounds(key, b, loB, hiB);
    hide Lies, Ordered;
    LiesFrame(key, mem, mem1, a, x, loA, hiA);
    LiesFrame(key, mem, mem1, c, y, loC, hiC);
    LiesFrame(key, mem, mem2, b, y, loB, hiB);
    AdoptTree(key, mem2, b, y, x, loB, hiB);
  }

  lemma RotatePieces(key: nat -> int, mem: Memory, parent: nat, s: Side, a: Tree, x: nat, cx: bool, b: Tree, y: nat,
                     cy: bool, c: Tree, loA: Bound, hiA: Bound, loB: Bound, hiB: Bound, loC: Bound, hiC: Bound)
    requires Pieces(key, mem, a, x, b, y, c, loA, hiA, loB, hiB, loC, hiC)
    ensures var mem1 := Adopted(Turned(mem, s, Root(a), x, cx, Root(b), y, cy, Root(c), parent), Root(b), x);
      Lies(mem1, Make(s, Make(s, a, x, cx, b), y, cy, c), parent)
  {
    PiecesMove(key, mem, parent, s, a, x, cx, b, y, cy, c, loA, hiA, loB, hiB, loC, hiC);
    assert x != Nil && y != Nil;
    hide Lies, Pieces;
    var mem1 := Adopted(Turned(mem, s, Root(a), x, cx, Root(b), y, cy, Root(c), parent), Root(b), x);
    Parts(mem1, s, a, x, cx, b, y);
    Parts(mem1, s, Make(s, a, x, cx, b), y, cy, c, parent);
  }

  /** The inner part of a rotation turns the subtree; the path above still points at elm. */
  lemma RotateInside(key: nat -> int, mem: Memory, parent: nat, lo: Bound, hi: Bound,
                     s: Side, a: Tree, x: nat, cx: bool, b: Tree, y: nat, cy: bool, c: Tree)
    requires Lies(mem, Make(s, a, x, cx, Make(s, b, y, cy, c)), parent)
    requires Ordered(key, Make(s, a, x, cx, Make(s, b, y, cy, c)), lo, hi)
    ensures x in mem && mem[x].Child(Other(s)) == y && y in mem && mem[y].Child(s) == Root(b)
    ensures Lies(RotatedInside(mem, s, x), Make(s, Make(s, a, x, cx, b), y, cy, c), parent)
    ensures Ordered(key, Make(s, Make(s, a, x, cx, b), y, cy, c), lo, hi)
  {
    hide Lies, Ordered;
    var sub := Make(s, b, y, cy, c);
    Parts(mem, s, a, x, cx, sub, parent);
    Parts(mem, s, b, y, cy, c, x);
    OrderedParts(key, s, a, x, cx, sub, lo, hi);
    OrderedParts(key, s, b, y, cy, c, if s == Left then Key(key(x)) else lo, if s == Left then hi else Key(key(x)));
    OrderedParts(key, s, a, x, cx, b, if s == Left then lo else Key(key(y)), if s == Left then Key(key(y)) else hi);
    OrderedParts(key, s, Make(s, a, x, cx, b), y, cy, c, lo, hi);
    RotatedCells(mem, parent, s, a, x, cx, b, y, cy, c);
    InBounds(key, b, if s == Left then Key(key(x)) else Key(key(y)), if s == Left then Key(key(y)) else Key(key(x)));
    if s == Left {
      RotatePieces(key, mem, parent, s, a, x, cx, b, y, cy, c, lo, Key(key(x)), Key(key(x)), Key(key(y)), Key(key(y)),
                   hi);
    } else {
      RotatePieces(key, mem, parent, s, a, x, cx, b, y, cy, c, Key(key(x)), hi, Key(key(y)), Key(key(x)), lo,
                   Key(key(y)));
    }
  }

  /** A rotation, with the path above: the whole tree is as before but for the turn, and stays in search order. */
  lemma RotateWhole(key: nat -> int, mem: Memory, root: nat, p: Path,
                    s: Side, a: Tree, x: nat, cx: bool, b: Tree, y: nat, cy: bool, c: Tree)
    requires Whole(key, mem, root, p, Make(s, a, x, cx, Make(s, b, y, cy, c)))
    ensures x in mem && mem[x].Child(Other(s)) == y && y in mem && mem[y].Child(s) == Root(b)
    ensures mem[x].parent == ParentOf(p) && x != Nil && y != Nil && x != y
    ensures b.Node? ==> b.id in mem && b.id != Nil && b.id != x && b.id != y
    ensures ParentOf(p) != Nil ==> ParentOf(p) in mem && ParentOf(p) != x && ParentOf(p) != y && ParentOf(p) != Root(b)
    ensures var (mem1, root1) := Relinked(RotatedInside(mem, s, x), root, ParentOf(p), x, y);
      Whole(key, mem1, root1, p, Make(s, Make(s, a, x, cx, b), y, cy, c))
  {
    hide Lies, Ordered;
    var lo, hi, sub := Lo(key, p), Hi(key, p), Make(s, b, y, cy, c);
    var before, after := Make(s, a, x, cx, sub), Make(s, Make(s, a, x, cx, b), y, cy, c);
    Parts(mem, s, a, x, cx, sub, ParentOf(p));
    Parts(mem, s, b, y, cy, c, x);
    OrderedParts(key, s, a, x, cx, sub, lo, hi);
    OrderedParts(key, s, b, y, cy, c, if s == Left then Key(key(x)) else lo, if s == Left then hi else Key(key(x)));
    InBounds(key, b, if s == Left then Key(key(x)) else Key(key(y)), if s == Left then Key(key(y)) else Key(key(x)));
    RootLies(mem, b, y);
    ParentOutside(key, p);
    RotateInside(key, mem, ParentOf(p), lo, hi, s, a, x, cx, b, y, cy, c);
    var mem1 := RotatedInside(mem, s, x);
    RotatedOutside(mem, s, x);
    hide RotatedInside;
    PathFrame(key, mem, mem1, p, x, root);
    RelinkPath(key, mem1, root, p, x, y);
    var (mem2, root2) := Relinked(mem1, root, ParentOf(p), x, y);
    LiesFrame(key, mem1, mem2, after, ParentOf(p), lo, hi);
  }

  lemma RootLies(mem: Memory, t: Tree, parent: nat)
    requires Lies(mem, t, parent)
    ensures t.Node? ==> t.id in mem && t.id != Nil
  {
  }

  /** The node above a subtree is outside the bounds of the subtree. */
  lemma ParentOutside(key: nat -> int, p: Path)
    ensures p.Step? ==> !Within(Lo(key, p), key(p.id), Hi(key, p))
  {
  }

  /** Colouring the root of a subtree. */
  lemma ColorWhole(key: nat -> int, mem: Memory, root: nat, p: Path, t: Tree, red: bool)
    requires Whole(key, mem, root, p, t) && t.Node?
    ensures t.id in mem && t.id != Nil && Whole(key, mem[t.id := mem[t.id].(red := red)], root, p, t.(red := red))
  {
    var mem1 := mem[t.id := mem[t.id].(red := red)];
    LiesFrame(key, mem, mem1, t.left, t.id, Lo(key, p), Key(key(t.id)));
    LiesFrame(key, mem, mem1, t.right, t.id, Key(key(t.id)), Hi(key, p));
    PathFrame(key, mem, mem1, p, t.id, root);
  }

  // Colours.

  predicate IsRed(t: Tree) {
    t.Node? && t.red
  }

  predicate NoRedRed(t: Tree) {
    t.Node? ==> (t.red ==> !IsRed(t.left) && !IsRed(t.right)) && NoRedRed(t.left) && NoRedRed(t.right)
  }

  /** Every way down meets h black nodes. */
  predicate Black(t: Tree, h: int) {
    match t
    case Leaf => h == 0
    case Node(l, _, red, r) => if red then Black(l, h) && Black(r, h) else h > 0 && Black(l, h - 1) && Black(r, h - 1)
  }

  ghost predicate RedBlack(t: Tree) {
    !IsRed(t) && NoRedRed(t) && exists h :: Black(t, h)
  }

  /** The path is all right for a hole that is red or not. */
  predicate PathRed(p: Path, holeRed: bool) {
    p.Step? ==> (p.red ==> !holeRed && !IsRed(p.sibling)) && NoRedRed(p.sibling) && PathRed(p.up, p.red)
  }

  /** The path is all right for a hole of black height h. */
  predicate PathBlack(p: Path, h: int) {
    p.Step? ==> Black(p.sibling, h) && PathBlack(p.up, if p.red then h else h + 1)
  }

  /** The root is black, if it is on the path. */
  predicate RootBlack(p: Path) {
    p.Step? ==> if p.up.Top? then !p.red else RootBlack(p.up)
  }

  function Depth(p: Path): nat {
    if p.Top? then 0 else 1 + Depth(p.up)
  }

  /** A red-black tree with a hole, filled. */
  lemma {:induction false} PlugRedBlack(p: Path, t: Tree, h: int)
    requires PathRed(p, IsRed(t)) && PathBlack(p, h) && NoRedRed(t) && Black(t, h) && (p.Top? ==> !IsRed(t))
    requires RootBlack(p)
    ensures RedBlack(Plug(p, t))
  {
    if p.Step? {
      PlugRedBlack(p.up, Make(p.side, t, p.id, p.red, p.sibling), if p.red then h else h + 1);
    }
  }
}
