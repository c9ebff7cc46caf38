/** What the calls of a run achieve, with any number of threads interleaved in any way: deallocateEntities ends the
    handles it was given and no others, allocateEntities hands out as many as it was asked for, and each gets on
    (src/ECS/EntityStore.cpp:74-231). */
module BlockCalls {
  import opened EntityBlocks
  import opened BlockProtocol
  import opened Collections

  // What one step does to the live handles.

  lemma TakeLive(bs: seq<Block>, b: nat, slot: nat, h: Handle, g: Handle)
    requires BlocksOk(bs) && b < BlockCount && bs[b].Block? && slot < EntitiesInBlock && !bs[b].bits[slot]
    requires h == Handle(8192 * b + slot, bs[b].versions[slot] + 1)
    ensures Live(bs[b := TakeSlot(bs[b], slot, Nowhere)], g) <==> Live(bs, g) || g == h
  {
    if 0 <= g.index < Capacity {
      SetBlock(bs, b, TakeSlot(bs[b], slot, Nowhere), g.index);
      assert Version(bs, h.index) == h.version - 1;
    }
  }

  lemma FreeLive(bs: seq<Block>, h: Handle, g: Handle)
    requires BlocksOk(bs) && 0 <= h.index < Capacity && h.version % 2 == 1 && bs[BlockOf(h.index)].Block?
    ensures BlocksOk(bs[BlockOf(h.index) := FreeSlot(bs[BlockOf(h.index)], SlotOf(h.index), h.version)])
    ensures Live(bs[BlockOf(h.index) := FreeSlot(bs[BlockOf(h.index)], SlotOf(h.index), h.version)], g) <==>
      Live(bs, g) && g != h
  {
    if 0 <= g.index < Capacity {
      SetBlock(bs, BlockOf(h.index), FreeSlot(bs[BlockOf(h.index)], SlotOf(h.index), h.version), g.index);
    }
  }

  lemma CreatedLive(bs: seq<Block>, b: nat, g: Handle)
    requires BlocksOk(bs) && b < BlockCount
    ensures BlocksOk(bs[b := Created(bs[b])]) && (Live(bs[b := Created(bs[b])], g) <==> Live(bs, g))
  {
    if 0 <= g.index < Capacity { SetBlock(bs, b, Created(bs[b]), g.index); }
  }

  /** The handle this step of the thread frees, if it frees one. */
  predicate Frees(t: Thread, h: Handle) {
    t.FreeRun? && t.run != [] && t.run[0] == h
  }

  /** A step makes live exactly the handle it logs, and ends exactly the one it frees. */
  lemma NextLive(s: State, t: nat, h: Handle)
    requires Inv(s) && t < |s.threads|
    ensures Shape(Next(s, t)) && s.log <= Next(s, t).log
    ensures Live(Next(s, t).blocks, h) <==>
      (Live(s.blocks, h) && !Frees(s.threads[t], h)) || h in Next(s, t).log[|s.log|..]
  {
    hide Exclusive, Counted, Logged, BitCount, Live;
    NextKeeps(s, t);
    match s.threads[t]
    case AllocTry(i, c, want) =>
      CreatedLive(s.blocks, i, h);
    case AllocFill(i, c, count, left, want) =>
      if left > 0 {
        ClearBitExists(s, t);
        var slot := ClearFrom(s.blocks[i].bits, 0);
        TakeLive(s.blocks, i, slot, Handle(8192 * i + slot, s.blocks[i].versions[slot] + 1), h);
      }
    case FreeRun(b, c, run, rest) =>
      if run != [] { FreeLive(s.blocks, run[0], h); }
    case _ =>
  }

  /** A handle handed out that is not live is never live again. */
  lemma StaysDead(s: State, t: nat, h: Handle)
    requires Inv(s) && t < |s.threads| && h in s.log && !Live(s.blocks, h)
    ensures Shape(Next(s, t)) && h in Next(s, t).log && !Live(Next(s, t).blocks, h)
  {
    NextKeeps(s, t);
    NextLive(s, t, h);
    NewlyLogged(s.log, Next(s, t).log, h);
  }

  lemma NewlyLogged(log: seq<Handle>, log1: seq<Handle>, h: Handle)
    requires log <= log1 && Distinct(log1)
    ensures h in log1 <==> h in log || h in log1[|log|..]
    ensures h in log ==> h !in log1[|log|..]
  {
    assert log1 == log + log1[|log|..];
    forall i, j | 0 <= i < |log| <= j < |log1| ensures log[i] != log1[j] { assert log1[i] == log[i]; }
  }

  // Deallocation.

  /** The handles a thread has still to free. */
  function Pending(t: Thread): seq<Handle> {
    match t
    case FreeScan(todo) => todo
    case FreeTry(_, _, run, rest) => run + rest
    case FreeRun(_, _, run, rest) => run + rest
    case FreeRelease(_, _, rest) => rest
    case _ => []
  }

  /** A block whose count is zero holds no live handle. */
  lemma {:induction false} NoneTaken(bits: seq<bool>, k: nat)
    requires CountTrue(bits) == 0 && k < |bits|
    ensures !bits[k]
  {
    var n := |bits| - 1;
    if k < n { NoneTaken(bits[..n], k); }
  }

  lemma NoneLive(bs: seq<Block>, h: Handle)
    requires BlocksOk(bs) && 0 <= h.index < Capacity && BitCount(bs[BlockOf(h.index)]) == 0
    ensures !Live(bs, h)
  {
    var b := bs[BlockOf(h.index)];
    if b.Block? { NoneTaken(b.bits, SlotOf(h.index)); }
  }

  /** A thread forgets no handle it has to free, and takes none up: it has still to be freed, or it is not live. */
  ghost predicate Forgotten(s: State, t: nat, h: Handle)
    requires Shape(s) && t < |s.threads| && LocalsOk(s, s.threads[t])
  {
    && Shape(Next(s, t)) && t < |Next(s, t).threads|
    && (h in Pending(s.threads[t]) ==> h in Pending(Next(s, t).threads[t]) || !Live(Next(s, t).blocks, h))
    && (h in Pending(Next(s, t).threads[t]) ==> h in Pending(s.threads[t]))
  }

  lemma RunSplit(todo: seq<Handle>, r: nat, h: Handle)
    requires r <= |todo|
    ensures h in todo <==> h in todo[..r] || h in todo[r..]
  {
    assert todo == todo[..r] + todo[r..];
  }

  lemma InRun(hs: seq<Handle>, h: Handle)
    requires hs != [] && 0 <= hs[0].index < Capacity && h in hs[..RunLength(hs, 1)]
    ensures 0 <= h.index < Capacity && BlockOf(h.index) == BlockOf(hs[0].index)
  {
    RunInBlock(hs, 1);
  }

  lemma ScanForgets(s: State, t: nat, h: Handle)
    requires Inv(s) && t < |s.threads| && s.threads[t].FreeScan?
    ensures Forgotten(s, t, h)
  {
    hide Exclusive, Logged, BitCount, Live;
    var todo := s.threads[t].todo;
    var r, b := RunLength(todo, 1), BlockOf(todo[0].index);
    RunSplit(todo, r, h);
    if s.counts[b] == Num(0) && h in todo[..r] {
      InRun(todo, h);
      NoneLive(s.blocks, h);
    }
  }

  lemma TryForgets(s: State, t: nat, h: Handle)
    requires Inv(s) && t < |s.threads| && s.threads[t].FreeTry?
    ensures Forgotten(s, t, h)
  {
    hide Exclusive, Logged, Issued, BitCount, Live;
    var FreeTry(b, seen, run, rest) := s.threads[t];
    if seen == s.counts[b] == Num(0) && h in run {
      NoneLive(s.blocks, h);
    }
    FreeTryKeeps(s, t);
  }

  lemma RunForgets(s: State, t: nat, h: Handle)
    requires Inv(s) && t < |s.threads| && s.threads[t].FreeRun?
    ensures Forgotten(s, t, h)
  {
    hide Exclusive, Counted, Logged, BitCount, Live;
    var FreeRun(b, c, run, rest) := s.threads[t];
    if run != [] {
      RunSplit(run, 1, h);
      FreeLive(s.blocks, run[0], h);
    }
  }

  lemma StepForgets(s: State, t: nat, h: Handle)
    requires Inv(s) && t < |s.threads|
    ensures Forgotten(s, t, h)
  {
    NextKeeps(s, t);
    match s.threads[t]
    case FreeScan(_) => ScanForgets(s, t, h);
    case FreeTry(_, _, _, _) => TryForgets(s, t, h);
    case FreeRun(_, _, _, _) => RunForgets(s, t, h);
    case _ => hide Exclusive, Counted, Logged, Issued, BitCount, Live;
  }

  lemma PendingLogged(s: State, t: nat, h: Handle)
    requires Inv(s) && t < |s.threads| && h in Pending(s.threads[t])
    ensures h in s.log
  {
    assert Issued(s.blocks, h);
  }

  /** What any action does to a handle that thread t may have to free. */
  ghost predicate Onward(s: State, a: Action, s1: State, t: nat, h: Handle) {
    && Shape(s) && Shape(s1) && t < |s.threads| == |s1.threads| && s.log <= s1.log
    && (h in Pending(s.threads[t]) ==> h in s.log && (h in Pending(s1.threads[t]) || !Live(s1.blocks, h)))
    && (h in Pending(s1.threads[t]) ==>
          h in s1.log && (h in Pending(s.threads[t]) || (a.BeginFree? && a.t == t && h in a.hs)))
    && (h in s.log && !Live(s.blocks, h) ==> !Live(s1.blocks, h))
  }

  lemma StepOnward(s: State, u: nat, t: nat, h: Handle)
    requires Inv(s) && u < |s.threads| && t < |s.threads|
    ensures Onward(s, Step(u), Next(s, u), t, h)
  {
    hide Exclusive, Counted, Logged, Live, Pending, LocalsOk, Next, Frees;
    StepForgets(s, u, h);
    NextLive(s, u, h);
    NextThreads(s, u);
    StepPending(s, u, t, h);
    if h in s.log && !Live(s.blocks, h) { StaysDead(s, u, h); }
  }

  lemma NextThreads(s: State, u: nat)
    requires Shape(s) && u < |s.threads| && LocalsOk(s, s.threads[u])
    ensures |Next(s, u).threads| == |s.threads|
    ensures forall t :: 0 <= t < |s.threads| && t != u ==> Next(s, u).threads[t] == s.threads[t]
  {
  }

  lemma StepPending(s: State, u: nat, t: nat, h: Handle)
    requires Inv(s) && u < |s.threads| && t < |s.threads| && t < |Next(s, u).threads|
    ensures h in Pending(s.threads[t]) ==> h in s.log
    ensures h in Pending(Next(s, u).threads[t]) ==> h in Next(s, u).log
  {
    hide Pending, Next, Shape;
    NextKeeps(s, u);
    if h in Pending(s.threads[t]) { PendingLogged(s, t, h); }
    if h in Pending(Next(s, u).threads[t]) { PendingLogged(Next(s, u), t, h); }
  }

  lemma BeginOnward(s: State, a: Action, t: nat, h: Handle)
    requires Inv(s) && t < |s.threads| && Shape(s) && Enabled(s, a) && !a.Step?
    ensures Onward(s, a, Apply(s, a), t, h)
  {
    hide Exclusive, Counted, BitCount, Live;
    if h in Pending(s.threads[t]) { PendingLogged(s, t, h); }
    if a.BeginFree? && h in a.hs { assert Issued(s.blocks, h); }
  }

  // Runs.

  lemma RunStep(ss: seq<State>, actions: seq<Action>, threads: nat, k: nat)
    requires IsRun(ss, actions, threads) && k < |actions|
    ensures |ss| == |actions| + 1 && Inv(ss[k]) && Inv(ss[k + 1]) && IsStep(ss[k], actions[k], ss[k + 1])
    ensures |ss[k].threads| == |ss[k + 1].threads| && actions[k].t < |ss[k].threads|
  {
    hide Inv, LocalsOk, WasIssued;
    RunInv(ss, actions, threads, k);
    RunInv(ss, actions, threads, k + 1);
    assert IsStep(ss[k], actions[k], ss[k + 1]);
    StepThreads(ss[k], actions[k], ss[k + 1]);
  }

  lemma StepThreads(s: State, a: Action, s1: State)
    requires Inv(s) && IsStep(s, a, s1)
    ensures |s1.threads| == |s.threads| && a.t < |s.threads|
  {
    hide Inv, Next;
    if a.Step? { NextThreads(s, a.t); }
  }

  lemma RunOnward(ss: seq<State>, actions: seq<Action>, threads: nat, k: nat, t: nat, h: Handle)
    requires IsRun(ss, actions, threads) && k < |actions| && t < |ss[k].threads|
    ensures Onward(ss[k], actions[k], ss[k + 1], t, h)
  {
    hide Inv, LocalsOk, WasIssued, Next, Onward, Shape;
    RunStep(ss, actions, threads, k);
    if actions[k].Step? {
      StepOnward(ss[k], actions[k].t, t, h);
    } else {
      BeginOnward(ss[k], actions[k], t, h);
    }
  }

  lemma {:induction false} RunShape(ss: seq<State>, actions: seq<Action>, threads: nat, k: nat)
    requires IsRun(ss, actions, threads) && k < |ss|
    ensures |ss| == |actions| + 1 && Shape(ss[k]) && |ss[k].threads| == threads && Inv(ss[k])
  {
    hide Inv, Shape, IsStep;
    RunInv(ss, actions, threads, k);
    if k > 0 {
      RunShape(ss, actions, threads, k - 1);
      RunStep(ss, actions, threads, k - 1);
    }
    InvShape(ss[k]);
  }

  lemma InvShape(s: State)
    requires Inv(s)
    ensures Shape(s)
  {
  }

  /** A handle that was handed out and is not live any more never is again. */
  lemma {:induction false} DeadForever(ss: seq<State>, actions: seq<Action>, threads: nat, i: nat, j: nat, h: Handle)
    requires IsRun(ss, actions, threads) && i <= j < |ss|
    requires Shape(ss[i]) && h in ss[i].log && !Live(ss[i].blocks, h)
    ensures Shape(ss[j]) && h in ss[j].log && !Live(ss[j].blocks, h)
    decreases j - i
  {
    hide IsRun, Shape, Live, Pending, Inv, IsStep;
    RunShape(ss, actions, threads, i);
    if i < j {
      RunStep(ss, actions, threads, i);
      RunOnward(ss, actions, threads, i, 0, h);
      DeadForever(ss, actions, threads, i + 1, j, h);
    }
  }

  /** From a call to free on, each of its handles is still to be freed by the thread, or is not live. */
  lemma {:induction false} StillPending(ss: seq<State>, actions: seq<Action>, threads: nat, i: nat, j: nat, h: Handle)
    requires IsRun(ss, actions, threads) && i < j < |ss| && i < |actions| && actions[i].BeginFree? && h in actions[i].hs
    ensures actions[i].t < |ss[j].threads| && Shape(ss[j]) && h in ss[j].log
    ensures h in Pending(ss[j].threads[actions[i].t]) || !Live(ss[j].blocks, h)
  {
    hide IsRun, Shape, Live, Pending, Inv, IsStep;
    var t := actions[i].t;
    RunShape(ss, actions, threads, j);
    RunStep(ss, actions, threads, j - 1);
    if i == j - 1 {
      FreeBegun(ss[i], actions[i], ss[j], h);
    } else {
      StillPending(ss, actions, threads, i, j - 1, h);
    }
    RunOnward(ss, actions, threads, j - 1, t, h);
  }

  lemma FreeBegun(s: State, a: Action, s1: State, h: Handle)
    requires Inv(s) && IsStep(s, a, s1) && a.BeginFree? && h in a.hs
    ensures a.t < |s1.threads| && h in Pending(s1.threads[a.t])
  {
    hide Inv, Next;
  }

  /** When a thread that was asked to free handles is idle again, none of them is live, whatever the other threads
      did meanwhile, and none ever will be. */
  lemma FreedWhenDone(ss: seq<State>, actions: seq<Action>, threads: nat, i: nat, j: nat, k: nat, h: Handle)
    requires IsRun(ss, actions, threads) && i < j <= k < |ss| && i < |actions|
    requires actions[i].BeginFree? && h in actions[i].hs
    requires actions[i].t < |ss[j].threads| && ss[j].threads[actions[i].t] == Idle
    ensures Shape(ss[k]) && !Live(ss[k].blocks, h)
  {
    hide IsRun, Shape, Live;
    StillPending(ss, actions, threads, i, j, h);
    RunShape(ss, actions, threads, j);
    DeadForever(ss, actions, threads, j, k, h);
  }

  /** What a thread has to free it was asked to free. */
  lemma {:induction false} PendingAsked(ss: seq<State>, actions: seq<Action>, threads: nat, j: nat, t: nat, h: Handle)
    requires IsRun(ss, actions, threads) && j < |ss| && t < |ss[j].threads| && h in Pending(ss[j].threads[t])
    ensures exists i :: 0 <= i < j && actions[i].BeginFree? && h in actions[i].hs
  {
    hide Shape, Live, Inv, IsStep, Onward;
    if j > 0 {
      hide IsRun, Pending;
      RunStep(ss, actions, threads, j - 1);
      RunOnward(ss, actions, threads, j - 1, t, h);
      AskedOrPending(ss[j - 1], actions[j - 1], ss[j], t, h);
      if h in Pending(ss[j - 1].threads[t]) {
        PendingAsked(ss, actions, threads, j - 1, t, h);
      }
    }
  }

  lemma AskedOrPending(s: State, a: Action, s1: State, t: nat, h: Handle)
    requires Onward(s, a, s1, t, h) && h in Pending(s1.threads[t])
    ensures t < |s.threads| && (h in Pending(s.threads[t]) || (a.BeginFree? && h in a.hs))
  {
  }

  /** A handle dies by the step of a thread that has to free it. */
  lemma DiesPending(s: State, a: Action, s1: State, h: Handle)
    requires Inv(s) && Inv(s1) && IsStep(s, a, s1) && h in s1.log && !Live(s1.blocks, h)
    ensures (h in s.log && !Live(s.blocks, h)) || (a.t < |s.threads| && h in Pending(s.threads[a.t]))
  {
    hide Exclusive, Counted, LocalsOk, Live, Next, BitCount, BlockOk;
    if a.Step? {
      NextLive(s, a.t, h);
      NewlyLogged(s.log, s1.log, h);
    }
  }

  /** A handle handed out is live until a call to free lists it. */
  lemma {:induction false} LiveUntilFreed(ss: seq<State>, actions: seq<Action>, threads: nat, j: nat, h: Handle)
    requires IsRun(ss, actions, threads) && j < |ss| && Shape(ss[j]) && h in ss[j].log && !Live(ss[j].blocks, h)
    ensures exists i :: 0 <= i < j && actions[i].BeginFree? && h in actions[i].hs
  {
    hide Shape, Live, Inv, IsStep, Pending;
    if j > 0 {
      hide IsRun;
      RunStep(ss, actions, threads, j - 1);
      InvShape(ss[j - 1]);
      DiesPending(ss[j - 1], actions[j - 1], ss[j], h);
      if h in ss[j - 1].log && !Live(ss[j - 1].blocks, h) {
        LiveUntilFreed(ss, actions, threads, j - 1, h);
      } else {
        PendingAsked(ss, actions, threads, j - 1, actions[j - 1].t, h);
      }
    }
  }

  // Allocation.

  /** The handles the steps of thread t between states i and j handed out, oldest first. */
  function TakenBy(ss: seq<State>, actions: seq<Action>, t: nat, i: nat, j: nat): seq<Handle>
    requires i <= j < |ss| == |actions| + 1
    decreases j - i
  {
    if i == j then []
    else
      TakenBy(ss, actions, t, i, j - 1) +
      if actions[j - 1] == Step(t) && |ss[j - 1].log| <= |ss[j].log| then ss[j].log[|ss[j - 1].log|..] else []
  }

  /** How many handles a thread inside allocateEntities has still to hand out. */
  function Wanted(t: Thread): int {
    match t
    case AllocScan(_, want) => want
    case AllocTry(_, _, want) => want
    case AllocFill(_, _, count, left, want) => want - count + left
    case AllocRelease(_, _, count, want) => want - count
    case _ => 0
  }

  predicate Allocating(t: Thread) {
    t.AllocScan? || t.AllocTry? || t.AllocFill? || t.AllocRelease?
  }

  /** A thread looks for blocks only while it wants handles, or was asked for none. */
  predicate Looks(t: Thread, n: nat) {
    (t.AllocScan? || t.AllocTry?) && n > 0 ==> t.want > 0
  }

  /** A thread wants one handle less exactly for each it hands out, until the call is over. */
  lemma StepHandsOut(s: State, t: nat, n: nat)
    requires Inv(s) && t < |s.threads| && Allocating(s.threads[t]) && Looks(s.threads[t], n)
    ensures t < |Next(s, t).threads| && Looks(Next(s, t).threads[t], n)
    ensures |Next(s, t).threads| == |s.threads| && s.log <= Next(s, t).log
    ensures Allocating(Next(s, t).threads[t]) || Next(s, t).threads[t] == Idle || Next(s, t).threads[t] == OutOfSpace
    ensures Next(s, t).threads[t] != OutOfSpace ==>
      Wanted(Next(s, t).threads[t]) == Wanted(s.threads[t]) - (|Next(s, t).log| - |s.log|)
    ensures Next(s, t).threads[t] == OutOfSpace ==> Next(s, t).log == s.log && (n > 0 ==> Wanted(s.threads[t]) > 0)
  {
    hide Exclusive, Logged, Live, BitCount;
    ScanUnbroken(s, t);
    if s.threads[t].AllocFill? && s.threads[t].left > 0 { ClearBitExists(s, t); }
  }

  lemma ScanUnbroken(s: State, t: nat)
    requires Inv(s) && t < |s.threads|
    ensures |Next(s, t).threads| == |s.threads| && Next(s, t).threads[t] != Broken
  {
    hide Exclusive, Counted, Logged, Next, LocalsOk;
    NextKeeps(s, t);
    NextSize(s, t);
  }

  lemma NextSize(s: State, t: nat)
    requires Inv(s) && t < |s.threads|
    ensures |Next(s, t).threads| == |s.threads|
  {
    hide Exclusive, Counted, Logged;
  }

  /** No step of the thread ends a call between states i and j. */
  ghost predicate Within(ss: seq<State>, t: nat, i: nat, j: nat) {
    forall k :: i < k < j && k < |ss| ==> t < |ss[k].threads| && Allocating(ss[k].threads[t])
  }

  lemma {:induction false} HandedSoFar(ss: seq<State>, actions: seq<Action>, threads: nat, i: nat, j: nat)
    requires IsRun(ss, actions, threads) && i < j < |ss| && i < |actions| && actions[i].BeginAllocate?
    requires Within(ss, actions[i].t, i, j)
    ensures |ss| == |actions| + 1 && actions[i].t < |ss[j].threads|
    ensures var thread := ss[j].threads[actions[i].t];
      && (Allocating(thread) || thread == Idle || thread == OutOfSpace)
      && Looks(thread, actions[i].n)
      && (thread != OutOfSpace ==> |TakenBy(ss, actions, actions[i].t, i, j)| + Wanted(thread) == actions[i].n)
      && (thread == OutOfSpace && actions[i].n > 0 ==> |TakenBy(ss, actions, actions[i].t, i, j)| < actions[i].n)
  {
    hide IsRun, Shape, Live, Inv, IsStep, Wanted, Looks;
    var t := actions[i].t;
    RunShape(ss, actions, threads, j);
    RunStep(ss, actions, threads, j - 1);
    if i == j - 1 {
      AllocateBegun(ss[i], actions[i], ss[j]);
      assert TakenBy(ss, actions, t, i, i) == [];
    } else {
      HandedSoFar(ss, actions, threads, i, j - 1);
      AllocateStep(ss[j - 1], actions[j - 1], ss[j], t, actions[i].n);
    }
  }

  lemma AllocateBegun(s: State, a: Action, s1: State)
    requires Inv(s) && IsStep(s, a, s1) && a.BeginAllocate?
    ensures a.t < |s1.threads| && Allocating(s1.threads[a.t]) && Looks(s1.threads[a.t], a.n)
    ensures Wanted(s1.threads[a.t]) == a.n && s1.log == s.log
  {
    hide Inv, Next;
  }

  lemma AllocateStep(s: State, a: Action, s1: State, t: nat, n: nat)
    requires Inv(s) && IsStep(s, a, s1) && t < |s.threads| == |s1.threads|
    requires Allocating(s.threads[t]) && Looks(s.threads[t], n)
    ensures a != Step(t) ==> s1.threads[t] == s.threads[t]
    ensures a == Step(t) ==> s.log <= s1.log
    ensures var now, more := s1.threads[t], if a == Step(t) then |s1.log| - |s.log| else 0;
      && (Allocating(now) || now == Idle || now == OutOfSpace) && Looks(now, n)
      && (now != OutOfSpace ==> Wanted(now) == Wanted(s.threads[t]) - more)
      && (now == OutOfSpace ==> more == 0 && (n > 0 ==> Wanted(s.threads[t]) > 0))
  {
    hide Exclusive, Counted, Logged, Next, Wanted, LocalsOk;
    if a == Step(t) {
      StepHandsOut(s, t, n);
    } else if a.Step? {
      NextThreads(s, a.t);
    }
  }

  /** What a thread is handed was logged in between, and no handle twice. */
  lemma {:induction false} TakenNew(ss: seq<State>, actions: seq<Action>, threads: nat, t: nat, i: nat, j: nat)
    requires IsRun(ss, actions, threads) && i <= j < |ss| == |actions| + 1
    ensures Distinct(TakenBy(ss, actions, t, i, j)) && ss[i].log <= ss[j].log
    ensures forall h :: h in TakenBy(ss, actions, t, i, j) ==> h in ss[j].log && h !in ss[i].log
    decreases j - i
  {
    hide IsRun, Inv, IsStep, TakenBy, Distinct;
    if i == j {
      NothingTaken(ss, actions, t, i);
    } else {
      TakenNew(ss, actions, threads, t, i, j - 1);
      RunStep(ss, actions, threads, j - 1);
      LogGrows(ss, actions, threads, j - 1);
      TakenMore(ss, actions, t, i, j);
    }
  }

  lemma NothingTaken(ss: seq<State>, actions: seq<Action>, t: nat, i: nat)
    requires i < |ss| == |actions| + 1
    ensures TakenBy(ss, actions, t, i, i) == [] && Distinct(TakenBy(ss, actions, t, i, i))
  {
  }

  lemma LogGrows(ss: seq<State>, actions: seq<Action>, threads: nat, k: nat)
    requires IsRun(ss, actions, threads) && k < |actions|
    ensures k + 1 < |ss| && ss[k].log <= ss[k + 1].log && Distinct(ss[k + 1].log)
  {
    hide IsRun, Inv, IsStep;
    RunStep(ss, actions, threads, k);
    RunOnward(ss, actions, threads, k, actions[k].t, Handle(0, 0));
    LoggedOnce(ss[k + 1]);
  }

  lemma LoggedOnce(s: State)
    requires Inv(s)
    ensures Distinct(s.log)
  {
  }

  lemma TakenMore(ss: seq<State>, actions: seq<Action>, t: nat, i: nat, j: nat)
    requires i < j < |ss| == |actions| + 1 && ss[i].log <= ss[j - 1].log <= ss[j].log && Distinct(ss[j].log)
    requires Distinct(TakenBy(ss, actions, t, i, j - 1))
    requires forall h :: h in TakenBy(ss, actions, t, i, j - 1) ==> h in ss[j - 1].log && h !in ss[i].log
    ensures Distinct(TakenBy(ss, actions, t, i, j))
    ensures forall h :: h in TakenBy(ss, actions, t, i, j) ==> h in ss[j].log && h !in ss[i].log
  {
    var taken, log, log1 := TakenBy(ss, actions, t, i, j - 1), ss[j - 1].log, ss[j].log;
    var more := if actions[j - 1] == Step(t) then log1[|log|..] else [];
    assert TakenBy(ss, actions, t, i, j) == taken + more;
    hide TakenBy;
    assert log1 == log + log1[|log|..];
    forall h | h in more ensures h in log1 && h !in log { NewlyLogged(log, log1, h); }
    assert log == ss[i].log + log[|ss[i].log|..];
    forall x, y | 0 <= x < y < |taken + more| ensures (taken + more)[x] != (taken + more)[y] {
      if x < |taken| <= y {
        assert taken[x] in taken && more[y - |taken|] in more;
      } else if |taken| <= x {
        assert more[x - |taken|] == log1[|log| + (x - |taken|)] && more[y - |taken|] == log1[|log| + (y - |taken|)];
      }
    }
  }

  lemma IdleWants()
    ensures Wanted(Idle) == 0
  {
  }

  /** When a thread that was asked for n handles is idle again, it has handed out exactly n, all new; when it found no
      more room, fewer. */
  lemma HandsOut(ss: seq<State>, actions: seq<Action>, threads: nat, i: nat, j: nat)
    requires IsRun(ss, actions, threads) && i < j < |ss| && i < |actions| && actions[i].BeginAllocate?
    requires Within(ss, actions[i].t, i, j)
    requires actions[i].t < |ss[j].threads|
    ensures |ss| == |actions| + 1
    ensures var hs, end := TakenBy(ss, actions, actions[i].t, i, j), ss[j].threads[actions[i].t];
      && (end == Idle ==> |hs| == actions[i].n)
      && (end == OutOfSpace && actions[i].n > 0 ==> |hs| < actions[i].n)
      && Distinct(hs) && forall h :: h in hs ==> h in ss[j].log && h !in ss[i].log
  {
    hide *;
    HandedSoFar(ss, actions, threads, i, j);
    IdleWants();
    TakenNew(ss, actions, threads, actions[i].t, i, j);
  }

  /** A handle is handed out by one thread. */
  lemma {:induction false} TakenOnce(ss: seq<State>, actions: seq<Action>, threads: nat, t: nat, u: nat, j: nat,
                                     h: Handle)
    requires IsRun(ss, actions, threads) && j < |ss| == |actions| + 1
    requires h in TakenBy(ss, actions, t, 0, j) && h in TakenBy(ss, actions, u, 0, j)
    ensures t == u
  {
    hide IsRun, Inv, IsStep, TakenBy, Distinct;
    NothingTaken(ss, actions, t, 0);
    if j > 0 {
      LogGrows(ss, actions, threads, j - 1);
      NewlyLogged(ss[j - 1].log, ss[j].log, h);
      TakenNew(ss, actions, threads, t, 0, j - 1);
      TakenNew(ss, actions, threads, u, 0, j - 1);
      TakenLast(ss, actions, t, j, h);
      TakenLast(ss, actions, u, j, h);
      if h in ss[j - 1].log {
        TakenOnce(ss, actions, threads, t, u, j - 1, h);
      }
    }
  }

  lemma TakenLast(ss: seq<State>, actions: seq<Action>, t: nat, j: nat, h: Handle)
    requires 0 < j < |ss| == |actions| + 1 && ss[j - 1].log <= ss[j].log
    ensures h in TakenBy(ss, actions, t, 0, j) <==>
      h in TakenBy(ss, actions, t, 0, j - 1) || (actions[j - 1] == Step(t) && h in ss[j].log[|ss[j - 1].log|..])
  {
  }

  // A call that finds no room has looked at every block.

  /** The thread learns that block b is busy or full, was changed under its hands, or is full now by its own doing. */
  predicate Refused(s: State, t: nat, b: nat)
    requires t < |s.threads| && b < |s.counts|
  {
    match s.threads[t]
    case AllocScan(i, _) => i == b && (s.counts[b] == Busy || s.counts[b] == Num(EntitiesInBlock))
    case AllocTry(i, c, _) => i == b && s.counts[b] != Num(c)
    case AllocRelease(i, c, count, _) => i == b && c + count == EntitiesInBlock
    case _ => false
  }

  /** The blocks before this one are done with. */
  function Looked(t: Thread): nat {
    match t
    case AllocScan(i, _) => i
    case AllocTry(i, _, _) => i
    case AllocFill(i, _, _, _, _) => i
    case AllocRelease(i, _, _, _) => i
    case OutOfSpace => BlockCount
    case _ => 0
  }

  /** A thread goes on to the next block only when this one is refused, and gives up only behind the last. */
  lemma LooksOn(s: State, t: nat)
    requires Inv(s) && t < |s.threads| && Allocating(s.threads[t]) && Shape(s)
    ensures t < |Next(s, t).threads| && Looked(s.threads[t]) <= BlockCount
    ensures Next(s, t).threads[t] != Idle ==>
      || Looked(Next(s, t).threads[t]) == Looked(s.threads[t])
      || (&& Looked(Next(s, t).threads[t]) == Looked(s.threads[t]) + 1 <= BlockCount
          && Refused(s, t, Looked(s.threads[t])))
  {
    hide Exclusive, Logged, Live, BitCount;
    ScanUnbroken(s, t);
  }

  /** Thread t was refused block b in a state between i and j. */
  ghost predicate RefusedIn(ss: seq<State>, actions: seq<Action>, t: nat, b: nat, i: nat, j: nat) {
    exists k :: i <= k < j && k < |ss| && k < |actions| && actions[k] == Step(t) && t < |ss[k].threads|
      && b < |ss[k].counts| && Refused(ss[k], t, b)
  }

  lemma {:induction false} RefusedSoFar(ss: seq<State>, actions: seq<Action>, threads: nat, i: nat, j: nat, b: nat)
    requires IsRun(ss, actions, threads) && i < j < |ss| && i < |actions| && actions[i].BeginAllocate?
    requires Within(ss, actions[i].t, i, j)
    requires actions[i].t < |ss[j].threads| && ss[j].threads[actions[i].t] != Idle
    requires b < Looked(ss[j].threads[actions[i].t])
    ensures RefusedIn(ss, actions, actions[i].t, b, i, j)
  {
    hide IsRun, Shape, Live, Inv, IsStep, Looked, Allocating, Refused;
    var t := actions[i].t;
    RunShape(ss, actions, threads, j - 1);
    RunStep(ss, actions, threads, j - 1);
    if i == j - 1 {
      LooksFromStart(ss[i], actions[i], ss[j]);
    } else {
      LooksStep(ss[j - 1], actions[j - 1], ss[j], t);
      if b < Looked(ss[j - 1].threads[t]) {
        RefusedSoFar(ss, actions, threads, i, j - 1, b);
      }
    }
  }

  lemma LooksFromStart(s: State, a: Action, s1: State)
    requires Inv(s) && IsStep(s, a, s1) && a.BeginAllocate?
    ensures a.t < |s1.threads| && Looked(s1.threads[a.t]) == 0
  {
    hide Inv, Next;
  }

  lemma LooksStep(s: State, a: Action, s1: State, t: nat)
    requires Inv(s) && IsStep(s, a, s1) && t < |s.threads| == |s1.threads| && Allocating(s.threads[t])
    ensures s.threads[t] != Idle && (a != Step(t) ==> s1.threads[t] == s.threads[t])
    ensures s1.threads[t] != Idle ==>
      || Looked(s1.threads[t]) == Looked(s.threads[t])
      || (Looked(s1.threads[t]) == Looked(s.threads[t]) + 1 && a == Step(t) && Looked(s.threads[t]) < |s.counts|
            && Refused(s, t, Looked(s.threads[t])))
  {
    hide Exclusive, Counted, Logged, Next, Refused, Looked, LocalsOk;
    if a == Step(t) {
      LooksOn(s, t);
    } else if a.Step? {
      NextThreads(s, a.t);
    }
  }

  /** A call that ends without room was refused every block there is. */
  lemma GivesUpLast(ss: seq<State>, actions: seq<Action>, threads: nat, i: nat, j: nat, b: nat)
    requires IsRun(ss, actions, threads) && i < j < |ss| && i < |actions| && actions[i].BeginAllocate?
    requires Within(ss, actions[i].t, i, j)
    requires actions[i].t < |ss[j].threads| && ss[j].threads[actions[i].t] == OutOfSpace && b < BlockCount
    ensures RefusedIn(ss, actions, actions[i].t, b, i, j)
  {
    hide IsRun, Within, RefusedIn;
    RefusedSoFar(ss, actions, threads, i, j, b);
  }

  // Each call gets on.

  /** How many steps a thread may still take, those aside that wait for another thread. */
  function StepsLeft(t: Thread): int {
    match t
    case Idle | OutOfSpace | Broken => 0
    case AllocScan(i, _) => 8200 * (BlockCount - i) + 8199
    case AllocTry(i, _, _) => 8200 * (BlockCount - i) + 8198
    case AllocFill(i, _, _, left, _) => 8200 * (BlockCount - i) + 1 + left
    case AllocRelease(i, _, _, _) => 8200 * (BlockCount - i)
    case FreeScan(todo) => 8 * |todo|
    case FreeTry(_, _, run, rest) => 8 * |rest| + 3 + |run|
    case FreeRun(_, _, run, rest) => 8 * |rest| + 2 + |run|
    case FreeRelease(_, _, rest) => 8 * |rest| + 1
  }

  predicate Freeing(t: Thread) {
    t.FreeScan? || t.FreeTry? || t.FreeRun? || t.FreeRelease?
  }

  /** Every step of a call lowers a natural number; only a thread that frees may have to try again, when its block is
      busy or has changed since it looked. A call to free ends idle. */
  lemma CallsGetOn(s: State, t: nat)
    requires Inv(s) && t < |s.threads| && s.threads[t] != Idle && s.threads[t] != OutOfSpace && Shape(s)
    ensures t < |Next(s, t).threads| && 0 <= StepsLeft(Next(s, t).threads[t])
    ensures Freeing(s.threads[t]) ==> Freeing(Next(s, t).threads[t]) || Next(s, t).threads[t] == Idle
    ensures
      || StepsLeft(Next(s, t).threads[t]) < StepsLeft(s.threads[t])
      || (&& s.threads[t].FreeTry? && (s.threads[t].seen == Busy || s.counts[s.threads[t].b] != s.threads[t].seen)
          && Next(s, t) == Become(s, t, s.threads[t].(seen := s.counts[s.threads[t].b])))
  {
    hide Exclusive, Logged, Live, BitCount;
    ScanUnbroken(s, t);
    LocalsBounded(s, t);
  }

  lemma LocalsBounded(s: State, t: nat)
    requires Inv(s) && t < |s.threads|
    ensures LocalsOk(s, s.threads[t]) && Shape(s) && s.threads[t] != Broken
    ensures LocalsOk(Next(s, t), Next(s, t).threads[t])
  {
    hide Exclusive, Counted, Logged, Next;
    NextKeeps(s, t);
    NextSize(s, t);
  }
}
