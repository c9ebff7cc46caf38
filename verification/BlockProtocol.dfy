/** The entity store run by any number of threads (src/ECS/EntityStore.cpp:74-231). Every atomic operation on
    a block's count is one step; a thread owns a block between the exchange that swaps the count for
    BlockBusy and the exchange that swaps it back. Compare-exchange never fails spuriously. */
module BlockProtocol {
  import opened EntityBlocks
  import opened Collections

  datatype Count = Busy | Num(n: int)

  /** Where a thread is in allocateEntities or deallocateEntities. */
  datatype Thread =
    | Idle
    | AllocScan(i: nat, want: nat)                                     // about to load the count of block i
    | AllocTry(i: nat, c: int, want: nat)                              // about to exchange c for BlockBusy
    | AllocFill(i: nat, c: int, count: nat, left: nat, want: nat)      // owns block i
    | AllocRelease(i: nat, c: int, count: nat, want: nat)              // about to put back c + count
    | OutOfSpace                                                       // every block was visited
    | FreeScan(todo: seq<Handle>)                                      // about to load the next run's block count
    | FreeTry(b: nat, seen: Count, run: seq<Handle>, rest: seq<Handle>)
    | FreeRun(b: nat, c: int, run: seq<Handle>, rest: seq<Handle>)     // owns block b
    | FreeRelease(b: nat, c: int, rest: seq<Handle>)                   // about to put back c
    | Broken                                                           // an internal error was thrown

  /** log lists every handle handed out so far, by any thread, oldest first. */
  datatype State = State(counts: seq<Count>, blocks: seq<Block>, threads: seq<Thread>, log: seq<Handle>)

  /** The length of the leading run of consecutive slots of one block. */
  function RunLength(hs: seq<Handle>, k: nat): (r: nat)
    requires 0 < k <= |hs|
    ensures k <= r <= |hs|
    decreases |hs| - k
  {
    if k < |hs| && hs[k].index == hs[k - 1].index + 1 && SameBlock(hs[k - 1], hs[k])
    then RunLength(hs, k + 1) else k
  }

  predicate SameBlock(g: Handle, h: Handle) {
    0 <= g.index < Capacity && 0 <= h.index < Capacity && BlockOf(g.index) == BlockOf(h.index)
  }

  lemma {:induction false} RunInBlock(hs: seq<Handle>, k: nat)
    requires 0 < k <= |hs| && 0 <= hs[0].index < Capacity
    requires forall j :: 0 <= j < k ==> SameBlock(hs[0], hs[j])
    ensures forall j :: 0 <= j < RunLength(hs, k) ==> SameBlock(hs[0], hs[j])
    decreases |hs| - k
  {
    if k < |hs| && hs[k].index == hs[k - 1].index + 1 && SameBlock(hs[k - 1], hs[k]) {
      RunInBlock(hs, k + 1);
    }
  }

  /** The lowest clear slot at s or above, or EntitiesInBlock. */
  function ClearFrom(bits: seq<bool>, s: nat): (r: nat)
    requires s <= |bits|
    ensures s <= r <= |bits| && (r < |bits| ==> !bits[r])
    ensures forall k :: s <= k < r ==> bits[k]
    decreases |bits| - s
  {
    if s == |bits| || !bits[s] then s else ClearFrom(bits, s + 1)
  }

  function AfterRun(rest: seq<Handle>): Thread {
    if rest == [] then Idle else FreeScan(rest)
  }

  predicate Shape(s: State) {
    |s.counts| == BlockCount && BlocksOk(s.blocks)
  }

  predicate WasIssued(s: State, hs: seq<Handle>)
    requires Shape(s)
  {
    forall k :: 0 <= k < |hs| ==> Issued(s.blocks, hs[k])
  }

  predicate InBlock(hs: seq<Handle>, b: nat) {
    forall k :: 0 <= k < |hs| ==> 0 <= hs[k].index < Capacity && BlockOf(hs[k].index) == b
  }

  /** A thread's locals refer to existing things, and the handles it frees were handed out before. */
  predicate LocalsOk(s: State, t: Thread)
    requires Shape(s)
  {
    match t
    case Idle | OutOfSpace | Broken => true
    case AllocScan(i, want) => i <= BlockCount
    case AllocTry(i, c, want) => i < BlockCount && c < EntitiesInBlock
    case AllocFill(i, c, count, left, want) =>
      i < BlockCount && left <= count == Least(want, EntitiesInBlock - c) && s.blocks[i].Block?
    case AllocRelease(i, c, count, want) => i < BlockCount && count == Least(want, EntitiesInBlock - c)
    case FreeScan(todo) => todo != [] && WasIssued(s, todo)
    case FreeTry(b, seen, run, rest) => b < BlockCount && WasIssued(s, run) && WasIssued(s, rest) && InBlock(run, b)
    case FreeRun(b, c, run, rest) =>
      b < BlockCount && WasIssued(s, run) && WasIssued(s, rest) && InBlock(run, b) && s.blocks[b].Block?
    case FreeRelease(b, c, rest) => b < BlockCount && WasIssued(s, rest)
  }

  function Become(s: State, t: nat, thread: Thread): State
    requires t < |s.threads|
  {
    s.(threads := s.threads[t := thread])
  }

  /** One step of thread t. */
  function Next(s: State, t: nat): State
    requires Shape(s) && t < |s.threads| && LocalsOk(s, s.threads[t])
  {
    match s.threads[t]
    case Idle | OutOfSpace | Broken => s
    case AllocScan(i, want) =>
      if i == BlockCount then Become(s, t, OutOfSpace)
      else if s.counts[i] == Busy || s.counts[i] == Num(EntitiesInBlock) then Become(s, t, AllocScan(i + 1, want))
      else if s.counts[i].n < EntitiesInBlock then Become(s, t, AllocTry(i, s.counts[i].n, want))
      else Become(s, t, Broken)
    case AllocTry(i, c, want) =>
      if s.counts[i] != Num(c) then Become(s, t, AllocScan(i + 1, want))
      else
        var count: nat := if EntitiesInBlock - c < want then EntitiesInBlock - c else want;
        Become(s.(counts := s.counts[i := Busy], blocks := s.blocks[i := Created(s.blocks[i])]), t,
               AllocFill(i, c, count, count, want))
    case AllocFill(i, c, count, left, want) =>
      if left == 0 then Become(s, t, AllocRelease(i, c, count, want))
      else
        var b := s.blocks[i];
        var slot := ClearFrom(b.bits, 0);
        if slot == EntitiesInBlock then Become(s, t, Broken)
        else
          var taken := TakeSlot(b, slot, Nowhere);
          Become(s.(blocks := s.blocks[i := taken], log := s.log + [Handle(8192 * i + slot, taken.versions[slot])]), t,
                 AllocFill(i, c, count, left - 1, want))
    case AllocRelease(i, c, count, want) =>
      if s.counts[i] != Busy then Become(s, t, Broken)
      else Become(s.(counts := s.counts[i := Num(c + count)]), t,
                  if count == want then Idle else AllocScan(i + 1, want - count))
    case FreeScan(todo) =>
      var r := RunLength(todo, 1);
      var b := BlockOf(todo[0].index);
      if s.counts[b] == Num(0) then Become(s, t, AfterRun(todo[r..]))
      else Become(s, t, FreeTry(b, s.counts[b], todo[..r], todo[r..]))
    case FreeTry(b, seen, run, rest) =>
      if seen == Busy || s.counts[b] != seen then Become(s, t, FreeTry(b, s.counts[b], run, rest))
      else if seen.n == 0 then Become(s.(counts := s.counts[b := Busy]), t, FreeRelease(b, 0, rest))
      else if s.blocks[b].Absent? then Become(s, t, Broken)
      else Become(s.(counts := s.counts[b := Busy]), t, FreeRun(b, seen.n, run, rest))
    case FreeRun(b, c, run, rest) =>
      if run == [] then Become(s, t, FreeRelease(b, c, rest))
      else
        var block, slot := s.blocks[b], SlotOf(run[0].index);
        Become(s.(blocks := s.blocks[b := FreeSlot(block, slot, run[0].version)]), t,
               FreeRun(b, if block.versions[slot] == run[0].version then c - 1 else c, run[1..], rest))
    case FreeRelease(b, c, rest) =>
      if s.counts[b] != Busy then Become(s, t, Broken)
      else Become(s.(counts := s.counts[b := Num(c)]), t, AfterRun(rest))
  }

  /** The block a thread owns, or -1. */
  function Owned(t: Thread): int {
    match t
    case AllocFill(i, _, _, _, _) => i
    case AllocRelease(i, _, _, _) => i
    case FreeRun(b, _, _, _) => b
    case FreeRelease(b, _, _) => b
    case _ => -1
  }

  /** The number of entities an owner takes its block to hold at this moment. */
  function Held(t: Thread): int {
    match t
    case AllocFill(_, c, count, left, _) => c + count - left
    case AllocRelease(_, c, count, _) => c + count
    case FreeRun(_, c, _, _) => c
    case FreeRelease(_, c, _) => c
    case _ => 0
  }

  /** At most one thread owns a block, and a block is busy exactly while one does. */
  ghost predicate Exclusive(s: State)
    requires Shape(s)
  {
    && (forall t, u :: 0 <= t < |s.threads| && 0 <= u < |s.threads| && t != u ==>
          Owned(s.threads[t]) == -1 || Owned(s.threads[t]) != Owned(s.threads[u]))
    && (forall t :: 0 <= t < |s.threads| && 0 <= Owned(s.threads[t]) < BlockCount ==>
          s.counts[Owned(s.threads[t])] == Busy)
    && (forall b :: 0 <= b < BlockCount && s.counts[b] == Busy ==>
          exists t :: 0 <= t < |s.threads| && Owned(s.threads[t]) == b)
  }

  /** A count that is not BlockBusy is the number of set bits; an owner's running count is too. */
  ghost predicate Counted(s: State)
    requires Shape(s)
  {
    && (forall b :: 0 <= b < BlockCount && s.counts[b].Num? ==> s.counts[b].n == BitCount(s.blocks[b]))
    && (forall t :: 0 <= t < |s.threads| && 0 <= Owned(s.threads[t]) < BlockCount ==>
          BitCount(s.blocks[Owned(s.threads[t])]) == Held(s.threads[t]))
  }

  /** The log is exactly what the versions say was issued, and lists nothing twice. */
  ghost predicate Logged(s: State)
    requires Shape(s)
  {
    && (forall h :: Issued(s.blocks, h) <==> h in s.log)
    && forall j, k :: 0 <= j < k < |s.log| ==> s.log[j] != s.log[k]
  }

  ghost predicate Inv(s: State) {
    && Shape(s)
    && (forall t :: 0 <= t < |s.threads| ==> LocalsOk(s, s.threads[t]) && s.threads[t] != Broken)
    && Exclusive(s) && Counted(s) && Logged(s)
  }

  // The four kinds of step.

  /** Later states of the same blocks: versions only grow and no block disappears. */
  ghost predicate Later(bs: seq<Block>, bs1: seq<Block>) {
    && BlocksOk(bs) && BlocksOk(bs1)
    && (forall i :: 0 <= i < Capacity ==> Version(bs, i) <= Version(bs1, i))
    && (forall b :: 0 <= b < BlockCount && bs[b].Block? ==> bs1[b].Block?)
  }

  lemma LocalsSurvive(s: State, s1: State, thread: Thread)
    requires Shape(s) && Shape(s1) && Later(s.blocks, s1.blocks) && LocalsOk(s, thread)
    ensures LocalsOk(s1, thread)
  {
  }

  /** Ownership after thread t and block b changed together: t gains b, gives it up, or keeps what it had. */
  lemma ExclusiveKept(s: State, s1: State, t: nat, b: nat)
    requires Shape(s) && Shape(s1) && Exclusive(s) && t < |s.threads| == |s1.threads| && b < BlockCount
    requires forall u :: 0 <= u < |s.threads| && u != t ==> s1.threads[u] == s.threads[u]
    requires forall c :: 0 <= c < BlockCount && c != b ==> s1.counts[c] == s.counts[c]
    requires var was, now := Owned(s.threads[t]), Owned(s1.threads[t]);
      || (was == now && s1.counts[b] == s.counts[b])
      || (was == -1 && now == b && s.counts[b] != Busy && s1.counts[b] == Busy)
      || (was == b && now == -1 && s1.counts[b] != Busy)
    ensures Exclusive(s1)
  {
    forall c | 0 <= c < BlockCount && s1.counts[c] == Busy
      ensures exists u :: 0 <= u < |s1.threads| && Owned(s1.threads[u]) == c
    {
      if s.counts[c] == Busy {
        var u :| 0 <= u < |s.threads| && Owned(s.threads[u]) == c;
        assert Owned(s1.threads[u]) == c;
      } else {
        assert Owned(s1.threads[t]) == c;
      }
    }
  }

  /** Counting after thread t and block b changed together. */
  lemma CountedKept(s: State, s1: State, t: nat, b: nat)
    requires Shape(s) && Shape(s1) && Exclusive(s1) && Counted(s) && t < |s.threads| == |s1.threads| && b < BlockCount
    requires forall u :: 0 <= u < |s.threads| && u != t ==> s1.threads[u] == s.threads[u]
    requires forall c :: 0 <= c < BlockCount && c != b ==> s1.counts[c] == s.counts[c] && s1.blocks[c] == s.blocks[c]
    requires s1.blocks[b] == s.blocks[b] || Owned(s1.threads[t]) == b
    requires Owned(s1.threads[t]) == -1 || (Owned(s1.threads[t]) == b && BitCount(s1.blocks[b]) == Held(s1.threads[t]))
    requires s1.counts[b].Num? ==> s1.counts[b].n == BitCount(s1.blocks[b])
    ensures Counted(s1)
  {
  }

  lemma ThreadsKept(s: State, s1: State, t: nat)
    requires Shape(s) && Shape(s1) && Later(s.blocks, s1.blocks) && t < |s.threads| == |s1.threads|
    requires forall u :: 0 <= u < |s.threads| ==> LocalsOk(s, s.threads[u]) && s.threads[u] != Broken
    requires forall u :: 0 <= u < |s.threads| && u != t ==> s1.threads[u] == s.threads[u]
    requires LocalsOk(s1, s1.threads[t]) && s1.threads[t] != Broken
    ensures forall u :: 0 <= u < |s.threads| ==> LocalsOk(s1, s1.threads[u]) && s1.threads[u] != Broken
  {
    forall u | 0 <= u < |s.threads| && u != t ensures LocalsOk(s1, s1.threads[u]) {
      LocalsSurvive(s, s1, s.threads[u]);
    }
  }

  /** A step that only changes the thread's own place. */
  lemma LocalStep(s: State, t: nat, thread: Thread)
    requires Inv(s) && t < |s.threads| && Owned(s.threads[t]) == -1 == Owned(thread)
    requires LocalsOk(s, thread) && thread != Broken
    ensures Inv(Become(s, t, thread))
  {
    var s1 := Become(s, t, thread);
    ExclusiveKept(s, s1, t, 0);
    CountedKept(s, s1, t, 0);
    ThreadsKept(s, s1, t);
  }

  /** Creating an absent block changes no version. */
  lemma CreatedSame(bs: seq<Block>, b: nat)
    requires BlocksOk(bs) && b < BlockCount
    ensures Later(bs, bs[b := Created(bs[b])])
    ensures forall h :: Issued(bs[b := Created(bs[b])], h) <==> Issued(bs, h)
  {
    var r := Created(bs[b]);
    forall i | 0 <= i < Capacity ensures Version(bs[b := r], i) == Version(bs, i) {
      SetBlock(bs, b, r, i);
    }
  }

  /** The exchange that makes t the owner. */
  lemma Acquire(s: State, t: nat, b: nat, block: Block, thread: Thread)
    requires Inv(s) && t < |s.threads| && Owned(s.threads[t]) == -1 && b < BlockCount && Owned(thread) == b
    requires s.counts[b] == Num(Held(thread)) && thread != Broken
    requires block == s.blocks[b] || block == Created(s.blocks[b])
    requires LocalsOk(s.(blocks := s.blocks[b := block]), thread)
    ensures Inv(Become(s.(counts := s.counts[b := Busy], blocks := s.blocks[b := block]), t, thread))
  {
    var s1 := Become(s.(counts := s.counts[b := Busy], blocks := s.blocks[b := block]), t, thread);
    CreatedSame(s.blocks, b);
    assert s.blocks[b := s.blocks[b]] == s.blocks;
    ExclusiveKept(s, s1, t, b);
    CountedKept(s, s1, t, b);
    ThreadsKept(s, s1, t);
  }

  /** The exchange that gives block b up again. */
  lemma Release(s: State, t: nat, b: nat, thread: Thread)
    requires Inv(s) && t < |s.threads| && b < BlockCount && Owned(s.threads[t]) == b && Owned(thread) == -1
    requires LocalsOk(s, thread) && thread != Broken
    ensures Inv(Become(s.(counts := s.counts[b := Num(Held(s.threads[t]))]), t, thread))
  {
    var s1 := Become(s.(counts := s.counts[b := Num(Held(s.threads[t]))]), t, thread);
    ExclusiveKept(s, s1, t, b);
    CountedKept(s, s1, t, b);
    ThreadsKept(s, s1, t);
  }

  /** A change of block b by its owner. */
  lemma OwnerStep(s: State, t: nat, b: nat, block: Block, log: seq<Handle>, thread: Thread)
    requires Inv(s) && t < |s.threads| && b < BlockCount && Owned(s.threads[t]) == b == Owned(thread)
    requires block.Block? && BlockOk(block) && BitCount(block) == Held(thread) && thread != Broken
    requires Later(s.blocks, s.blocks[b := block])
    requires LocalsOk(s.(blocks := s.blocks[b := block]), thread)
    requires Logged(s.(blocks := s.blocks[b := block], log := log))
    ensures Inv(Become(s.(blocks := s.blocks[b := block], log := log), t, thread))
  {
    var s1 := Become(s.(blocks := s.blocks[b := block], log := log), t, thread);
    ExclusiveKept(s, s1, t, b);
    CountedKept(s, s1, t, b);
    ThreadsKept(s, s1, t);
  }

  /** Taking a slot issues exactly one handle, and it is new. */
  lemma TakeIssues(bs: seq<Block>, b: nat, slot: nat, h: Handle)
    requires BlocksOk(bs) && b < BlockCount && bs[b].Block? && slot < EntitiesInBlock && !bs[b].bits[slot]
    requires h == Handle(8192 * b + slot, bs[b].versions[slot] + 1)
    ensures var bs1 := bs[b := TakeSlot(bs[b], slot, Nowhere)];
      Later(bs, bs1) && !Issued(bs, h) && forall g :: Issued(bs1, g) <==> Issued(bs, g) || g == h
  {
    var r := TakeSlot(bs[b], slot, Nowhere);
    var bs1 := bs[b := r];
    forall i | 0 <= i < Capacity
      ensures Version(bs1, i) == if i == h.index then Version(bs, i) + 1 else Version(bs, i)
    {
      SetBlock(bs, b, r, i);
    }
    assert Version(bs, h.index) == h.version - 1;
  }

  /** Freeing a slot issues nothing. */
  lemma FreeIssues(bs: seq<Block>, h: Handle)
    requires BlocksOk(bs) && 0 <= h.index < Capacity && h.version % 2 == 1 && bs[BlockOf(h.index)].Block?
    ensures var bs1 := bs[BlockOf(h.index) := FreeSlot(bs[BlockOf(h.index)], SlotOf(h.index), h.version)];
      Later(bs, bs1) && forall g :: Issued(bs1, g) <==> Issued(bs, g)
  {
    var b := BlockOf(h.index);
    var r := FreeSlot(bs[b], SlotOf(h.index), h.version);
    forall i | 0 <= i < Capacity
      ensures Version(bs[b := r], i) ==
        if i == h.index && Version(bs, i) == h.version then Version(bs, i) + 1 else Version(bs, i)
    {
      SetBlock(bs, b, r, i);
    }
  }

  lemma BlockHasBits(b: Block)
    requires BlockOk(b) && BitCount(b) != 0
    ensures b.Block?
  {
  }

  // Each kind of thread state in turn.

  lemma ScanKeeps(s: State, t: nat)
    requires Inv(s) && t < |s.threads| && s.threads[t].AllocScan?
    ensures Inv(Next(s, t))
  {
    var i := s.threads[t].i;
    if i < BlockCount && s.blocks[i].Block? { CountBound(s.blocks[i].bits); }
    LocalStep(s, t, Next(s, t).threads[t]);
  }

  lemma TryKeeps(s: State, t: nat)
    requires Inv(s) && t < |s.threads| && s.threads[t].AllocTry?
    ensures Inv(Next(s, t))
  {
    var i := s.threads[t].i;
    if s.counts[i] == Num(s.threads[t].c) {
      Acquire(s, t, i, Created(s.blocks[i]), Next(s, t).threads[t]);
    } else {
      LocalStep(s, t, Next(s, t).threads[t]);
    }
  }

  lemma TakeLogged(s: State, b: nat, slot: nat, h: Handle)
    requires Shape(s) && Logged(s) && b < BlockCount && s.blocks[b].Block? && slot < EntitiesInBlock
    requires !s.blocks[b].bits[slot] && h == Handle(8192 * b + slot, s.blocks[b].versions[slot] + 1)
    ensures Logged(s.(blocks := s.blocks[b := TakeSlot(s.blocks[b], slot, Nowhere)], log := s.log + [h]))
    ensures Later(s.blocks, s.blocks[b := TakeSlot(s.blocks[b], slot, Nowhere)])
  {
    TakeIssues(s.blocks, b, slot, h);
  }

  /** The owner of a block that still has to hand something out finds a clear bit. */
  lemma ClearBitExists(s: State, t: nat)
    requires Inv(s) && t < |s.threads| && s.threads[t].AllocFill? && s.threads[t].left > 0
    ensures var b := s.blocks[s.threads[t].i]; b.Block? && BlockOk(b) && ClearFrom(b.bits, 0) < EntitiesInBlock
  {
    CountBound(s.blocks[s.threads[t].i].bits);
  }

  lemma FillTakes(s: State, t: nat)
    requires Inv(s) && t < |s.threads| && s.threads[t].AllocFill? && s.threads[t].left > 0
    ensures Inv(Next(s, t))
  {
    ClearBitExists(s, t);
    var i := s.threads[t].i;
    var slot := ClearFrom(s.blocks[i].bits, 0);
    var taken := TakeSlot(s.blocks[i], slot, Nowhere);
    var h := Handle(8192 * i + slot, taken.versions[slot]);
    TakeLogged(s, i, slot, h);
    var thread := s.threads[t].(left := s.threads[t].left - 1);
    assert Next(s, t) == Become(s.(blocks := s.blocks[i := taken], log := s.log + [h]), t, thread);
    OwnerStep(s, t, i, taken, s.log + [h], thread);
  }

  /** A step of an owner that changes nothing but its own place. */
  lemma OwnerPauses(s: State, t: nat, thread: Thread)
    requires Inv(s) && t < |s.threads| && Owned(s.threads[t]) == Owned(thread) != -1 && thread != Broken
    requires LocalsOk(s, thread) && Held(s.threads[t]) == Held(thread)
    ensures Inv(Become(s, t, thread))
  {
    var s1 := Become(s, t, thread);
    assert 0 <= Owned(thread) < BlockCount;
    ExclusiveKept(s, s1, t, Owned(thread));
    CountedKept(s, s1, t, Owned(thread));
    ThreadsKept(s, s1, t);
  }

  lemma FillKeeps(s: State, t: nat)
    requires Inv(s) && t < |s.threads| && s.threads[t].AllocFill?
    ensures Inv(Next(s, t))
  {
    if s.threads[t].left == 0 {
      OwnerPauses(s, t, Next(s, t).threads[t]);
    } else {
      FillTakes(s, t);
    }
  }

  /** The owner's count is put back as it is. */
  lemma AllocReleases(s: State, t: nat)
    requires Shape(s) && t < |s.threads| && LocalsOk(s, s.threads[t]) && s.threads[t].AllocRelease?
    requires s.counts[s.threads[t].i] == Busy
    ensures var (b, n, thread) := (s.threads[t].i, Held(s.threads[t]), Next(s, t).threads[t]);
      && Next(s, t) == Become(s.(counts := s.counts[b := Num(n)]), t, thread)
      && Owned(thread) == -1 && thread != Broken && LocalsOk(s, thread)
  {
  }

  lemma OwnedIsBusy(s: State, t: nat)
    requires Inv(s) && t < |s.threads| && 0 <= Owned(s.threads[t]) < BlockCount
    ensures s.counts[Owned(s.threads[t])] == Busy && LocalsOk(s, s.threads[t])
  {
  }

  lemma AllocReleaseKeeps(s: State, t: nat)
    requires Inv(s) && t < |s.threads| && s.threads[t].AllocRelease?
    ensures Inv(Next(s, t))
  {
    OwnedIsBusy(s, t);
    AllocReleases(s, t);
    hide Exclusive, Counted, Logged, Next, LocalsOk;
    Release(s, t, s.threads[t].i, Next(s, t).threads[t]);
  }

  lemma FreeScanKeeps(s: State, t: nat)
    requires Inv(s) && t < |s.threads| && s.threads[t].FreeScan?
    ensures Inv(Next(s, t))
  {
    RunInBlock(s.threads[t].todo, 1);
    LocalStep(s, t, Next(s, t).threads[t]);
  }

  lemma FreeTryKeeps(s: State, t: nat)
    requires Inv(s) && t < |s.threads| && s.threads[t].FreeTry?
    ensures Inv(Next(s, t))
  {
    var FreeTry(b, seen, run, rest) := s.threads[t];
    if seen == Busy || s.counts[b] != seen {
      LocalStep(s, t, Next(s, t).threads[t]);
    } else {
      if seen.n != 0 { BlockHasBits(s.blocks[b]); }
      Acquire(s, t, b, s.blocks[b], Next(s, t).threads[t]);
      assert s.blocks[b := s.blocks[b]] == s.blocks;
    }
  }

  lemma FreeRunKeeps(s: State, t: nat)
    requires Inv(s) && t < |s.threads| && s.threads[t].FreeRun?
    ensures Inv(Next(s, t))
  {
    var FreeRun(b, c, run, rest) := s.threads[t];
    if run == [] {
      OwnerPauses(s, t, FreeRelease(b, c, rest));
    } else {
      FreeIssues(s.blocks, run[0]);
      var block := FreeSlot(s.blocks[b], SlotOf(run[0].index), run[0].version);
      LocalsSurvive(s, s.(blocks := s.blocks[b := block]), s.threads[t]);
      OwnerStep(s, t, b, block, s.log, Next(s, t).threads[t]);
    }
  }

  lemma FreeReleaseKeeps(s: State, t: nat)
    requires Inv(s) && t < |s.threads| && s.threads[t].FreeRelease?
    ensures Inv(Next(s, t))
  {
    Release(s, t, s.threads[t].b, Next(s, t).threads[t]);
  }

  /** Every step of every thread keeps the invariant; in particular no internal error is ever thrown. */
  lemma NextKeeps(s: State, t: nat)
    requires Inv(s) && t < |s.threads|
    ensures Inv(Next(s, t))
  {
    match s.threads[t]
    case Idle =>
    case OutOfSpace =>
    case AllocScan(_, _) => ScanKeeps(s, t);
    case AllocTry(_, _, _) => TryKeeps(s, t);
    case AllocFill(_, _, _, _, _) => FillKeeps(s, t);
    case AllocRelease(_, _, _, _) => AllocReleaseKeeps(s, t);
    case FreeScan(_) => FreeScanKeeps(s, t);
    case FreeTry(_, _, _, _) => FreeTryKeeps(s, t);
    case FreeRun(_, _, _, _) => FreeRunKeeps(s, t);
    case FreeRelease(_, _, _) => FreeReleaseKeeps(s, t);
  }

  // Runs: calls begin on idle threads, and started threads take steps in any order.

  datatype Action = BeginAllocate(t: nat, n: nat) | BeginFree(t: nat, hs: seq<Handle>) | Step(t: nat)

  /** A caller may only free handles that were handed out. */
  predicate Enabled(s: State, a: Action)
    requires Shape(s)
  {
    && a.t < |s.threads|
    && match a
       case BeginAllocate(t, n) => s.threads[t] == Idle
       case BeginFree(t, hs) => s.threads[t] == Idle && hs != [] && WasIssued(s, hs)
       case Step(t) => LocalsOk(s, s.threads[t])
  }

  function Apply(s: State, a: Action): State
    requires Shape(s) && Enabled(s, a)
  {
    match a
    case BeginAllocate(t, n) => Become(s, t, AllocScan(0, n))
    case BeginFree(t, hs) => Become(s, t, FreeScan(hs))
    case Step(t) => Next(s, t)
  }

  function Init(threads: nat): State {
    State(seq(BlockCount, _ => Num(0)), seq(BlockCount, _ => Absent), seq(threads, _ => Idle), [])
  }

  ghost predicate IsRun(ss: seq<State>, actions: seq<Action>, threads: nat) {
    && |ss| == |actions| + 1
    && ss[0] == Init(threads)
    && forall k :: 0 <= k < |actions| ==> IsStep(ss[k], actions[k], ss[k + 1])
  }

  ghost predicate IsStep(s: State, a: Action, s1: State) {
    Shape(s) && Enabled(s, a) && s1 == Apply(s, a)
  }

  lemma InitInv(threads: nat)
    ensures Inv(Init(threads))
  {
  }

  /** Every state of every run, with any number of threads interleaved in any way, satisfies the invariant. */
  lemma {:induction false} RunInv(ss: seq<State>, actions: seq<Action>, threads: nat, k: nat)
    requires IsRun(ss, actions, threads) && k < |ss|
    ensures Inv(ss[k])
  {
    if k == 0 {
      InitInv(threads);
    } else {
      RunInv(ss, actions, threads, k - 1);
      var s, a := ss[k - 1], actions[k - 1];
      assert IsStep(s, a, ss[k]);
      match a
      case BeginAllocate(t, n) => LocalStep(s, t, AllocScan(0, n));
      case BeginFree(t, hs) => LocalStep(s, t, FreeScan(hs));
      case Step(t) => NextKeeps(s, t);
    }
  }

  /** Mutual exclusion, honest counts, no internal error, and no handle handed out twice, in every run. */
  lemma ProtocolSafe(ss: seq<State>, actions: seq<Action>, threads: nat, k: nat)
    requires IsRun(ss, actions, threads) && k < |ss|
    ensures forall t, u :: 0 <= t < u < |ss[k].threads| && Owned(ss[k].threads[t]) != -1 ==>
      Owned(ss[k].threads[t]) != Owned(ss[k].threads[u])
    ensures |ss[k].counts| == |ss[k].blocks| == BlockCount
    ensures forall b :: 0 <= b < BlockCount && ss[k].counts[b] != Busy ==>
      ss[k].counts[b] == Num(BitCount(ss[k].blocks[b]))
    ensures Broken !in ss[k].threads
    ensures forall i, j :: 0 <= i < j < |ss[k].log| ==> ss[k].log[i] != ss[k].log[j]
  {
    RunInv(ss, actions, threads, k);
  }

  /** However often other threads took and freed slots since the count was loaded, an exchange that succeeds
      swapped out the true number of set bits. */
  lemma ExchangeSeesTruth(s: State, t: nat)
    requires Inv(s) && t < |s.threads| && Owned(s.threads[t]) == -1
    requires 0 <= Owned(Next(s, t).threads[t]) < BlockCount
    ensures var b := Owned(Next(s, t).threads[t]);
      Held(Next(s, t).threads[t]) == BitCount(s.blocks[b]) == BitCount(Next(s, t).blocks[b])
  {
    NextKeeps(s, t);
    var b := Owned(Next(s, t).threads[t]);
    assert Next(s, t).blocks[b] == s.blocks[b] || Next(s, t).blocks[b] == Created(s.blocks[b]);
  }

  /** When no thread is inside a call, the integrity check passes for every block. */
  lemma QuiescentIntegrity(s: State)
    requires Inv(s) && forall t :: 0 <= t < |s.threads| ==> Owned(s.threads[t]) == -1
    ensures forall b :: 0 <= b < BlockCount ==> s.counts[b] == Num(BitCount(s.blocks[b]))
  {
  }
}
