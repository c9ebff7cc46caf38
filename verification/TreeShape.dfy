/** The vocabulary of the red-black tree (external/uv/tree.h): trees, a position in a tree as a path of contexts, how
    both lie in memory, search order and balance. Left and right are told apart by a side, so that a statement about
    one side is one about its mirror image too. */
module TreeShape {

  /** The null pointer. */
  const Nil: nat := 0

  datatype Side = Left | Right

  function Other(s: Side): Side {
    if s == Left then Right else Left
  }

  /** The fields of a node. */
  datatype Cell = Cell(left: nat, right: nat, parent: nat, red: bool)
  {
    function Child(s: Side): nat {
      if s == Left then left else right
    }

    function With(s: Side, child: nat): Cell {
      if s == Left then this.(left := child) else this.(right := child)
    }
  }

  type Memory = map<nat, Cell>

  datatype Tree = Leaf | Node(left: Tree, id: nat, red: bool, right: Tree)

  /** The way from a subtree up to the root: the subtree is the `side` child of node id. */
  datatype Path = Top | Step(side: Side, id: nat, red: bool, sibling: Tree, up: Path)

  /** A node whose child on side s is `near`. */
  function Make(s: Side, near: Tree, id: nat, red: bool, far: Tree): Tree {
    if s == Left then Node(near, id, red, far) else Node(far, id, red, near)
  }

  function MakeCell(s: Side, near: nat, far: nat, parent: nat, red: bool): Cell {
    if s == Left then Cell(near, far, parent, red) else Cell(far, near, parent, red)
  }

  function Root(t: Tree): nat {
    if t.Leaf? then Nil else t.id
  }

  function ParentOf(p: Path): nat {
    if p.Top? then Nil else p.id
  }

  // In memory.

  /** The tree lies in memory with the given parent above it. */
  predicate Lies(mem: Memory, t: Tree, parent: nat) {
    t.Node? ==>
      && t.id != Nil && t.id in mem && mem[t.id] == Cell(Root(t.left), Root(t.right), parent, t.red)
      && Lies(mem, t.left, t.id) && Lies(mem, t.right, t.id)
  }

  /** The path lies in memory, with subtree `hole` at its end and the given root at its top. */
  predicate PathLies(mem: Memory, p: Path, hole: nat, root: nat) {
    match p
    case Top => root == hole
    case Step(s, id, red, sibling, up) =>
      && id != Nil && id in mem && mem[id] == MakeCell(s, hole, Root(sibling), ParentOf(up), red)
      && Lies(mem, sibling, id) && PathLies(mem, up, id, root)
  }

  // Search order.

  datatype Bound = Low | Key(k: int) | High

  predicate Less(a: Bound, b: Bound) {
    match (a, b)
    case (Key(x), Key(y)) => x < y
    case (Low, Low) => false
    case (Low, _) => true
    case (High, _) => false
    case (Key(_), Low) => false
    case (Key(_), High) => true
  }

  predicate Within(lo: Bound, k: int, hi: Bound) {
    Less(lo, Key(k)) && Less(Key(k), hi)
  }

  /** All keys of the tree lie between the bounds, in search order. */
  predicate Ordered(key: nat -> int, t: Tree, lo: Bound, hi: Bound) {
    t.Node? ==>
      && Within(lo, key(t.id), hi)
      && Ordered(key, t.left, lo, Key(key(t.id))) && Ordered(key, t.right, Key(key(t.id)), hi)
  }

  /** The bounds a path sets on the keys at its end. */
  function Lo(key: nat -> int, p: Path): Bound {
    match p
    case Top => Low
    case Step(s, id, _, _, up) => if s == Left then Lo(key, up) else Key(key(id))
  }

  function Hi(key: nat -> int, p: Path): Bound {
    match p
    case Top => High
    case Step(s, id, _, _, up) => if s == Left then Key(key(id)) else Hi(key, up)
  }

  predicate PathOrdered(key: nat -> int, p: Path) {
    match p
    case Top => true
    case Step(s, id, _, sibling, up) =>
      && Within(Lo(key, up), key(id), Hi(key, up)) && PathOrdered(key, up)
      && if s == Left then Ordered(key, sibling, Key(key(id)), Hi(key, up))
           else Ordered(key, sibling, Lo(key, up), Key(key(id)))
  }

  /** The whole tree, seen from the end of a path. */
  predicate Whole(key: nat -> int, mem: Memory, root: nat, p: Path, t: Tree) {
    && Lies(mem, t, ParentOf(p)) && PathLies(mem, p, Root(t), root)
    && PathOrdered(key, p) && Ordered(key, t, Lo(key, p), Hi(key, p))
  }

  /** Going down a side, and back up. */
  lemma Down(key: nat -> int, mem: Memory, root: nat, p: Path, s: Side, near: Tree, id: nat, red: bool, far: Tree)
    ensures Whole(key, mem, root, p, Make(s, near, id, red, far)) <==>
      Whole(key, mem, root, Step(s, id, red, far, p), near)
  {
  }

  // Contents.

  function Ids(t: Tree): set<nat> {
    if t.Leaf? then {} else Ids(t.left) + {t.id} + Ids(t.right)
  }

  function PathIds(p: Path): set<nat> {
    if p.Top? then {} else {p.id} + Ids(p.sibling) + PathIds(p.up)
  }

  function Plug(p: Path, t: Tree): Tree {
    match p
    case Top => t
    case Step(s, id, red, sibling, up) => Plug(up, Make(s, t, id, red, sibling))
  }

  lemma {:induction false} PlugIds(p: Path, t: Tree)
    ensures Ids(Plug(p, t)) == PathIds(p) + Ids(t)
  {
    if p.Step? {
      PlugIds(p.up, Make(p.side, t, p.id, p.red, p.sibling));
    }
  }

  lemma {:induction false} PlugWhole(key: nat -> int, mem: Memory, root: nat, p: Path, t: Tree)
    ensures Whole(key, mem, root, p, t) <==> Whole(key, mem, root, Top, Plug(p, t))
  {
    if p.Step? {
      Down(key, mem, root, p.up, p.side, t, p.id, p.red, p.sibling);
      PlugWhole(key, mem, root, p.up, Make(p.side, t, p.id, p.red, p.sibling));
    }
  }

  // Frames.

  ghost predicate SameWithin(key: nat -> int, mem: Memory, mem1: Memory, lo: Bound, hi: Bound) {
    forall x :: x in mem && Within(lo, key(x), hi) ==> x in mem1 && mem1[x] == mem[x]
  }

  ghost predicate SameOutside(key: nat -> int, mem: Memory, mem1: Memory, lo: Bound, hi: Bound) {
    forall x :: x in mem && !Within(lo, key(x), hi) ==> x in mem1 && mem1[x] == mem[x]
  }

  lemma {:induction false} LiesFrame(key: nat -> int, mem: Memory, mem1: Memory, t: Tree, parent: nat, lo: Bound,
                                     hi: Bound)
    requires Lies(mem, t, parent) && Ordered(key, t, lo, hi) && SameWithin(key, mem, mem1, lo, hi)
    ensures Lies(mem1, t, parent)
  {
    if t.Node? {
      LiesFrame(key, mem, mem1, t.left, t.id, lo, Key(key(t.id)));
      LiesFrame(key, mem, mem1, t.right, t.id, Key(key(t.id)), hi);
    }
  }

  lemma {:induction false} PathFrame(key: nat -> int, mem: Memory, mem1: Memory, p: Path, hole: nat, root: nat)
    requires PathLies(mem, p, hole, root) && PathOrdered(key, p) && SameOutside(key, mem, mem1, Lo(key, p), Hi(key, p))
    ensures PathLies(mem1, p, hole, root)
  {
    if p.Step? {
      if p.side == Left {
        LiesFrame(key, mem, mem1, p.sibling, p.id, Key(key(p.id)), Hi(key, p.up));
      } else {
        LiesFrame(key, mem, mem1, p.sibling, p.id, Lo(key, p.up), Key(key(p.id)));
      }
      PathFrame(key, mem, mem1, p.up, p.id, root);
    }
  }
}
