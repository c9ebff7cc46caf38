/** What becomes of the requests to exit, to render and to iterate, and of a schedule the systems ask for: none is
    lost, however signals, completions and the workers' steps interleave (src/ECS/ThreadPool.cpp:205-300, 393-403). */
module Requests {
  import opened WorkerLoop
  import opened Scheduling
  import opened Phases

  /** A request signalled wakes the loop, once for all signals since the last time it was woken: this is so while the
      wake-up of some signal is still to come. */
  ghost predicate WakeComing(actions: seq<Action>, k: nat)
    requires k <= |actions|
  {
    exists i :: 0 <= i < k && actions[i].Signal? && forall m :: i < m < k ==> actions[m] != Wake
  }

  /** The loop sleeps on a request. */
  predicate Asleep(s: Sys) {
    s.main == Waiting && s.active == 0 && s.bits != {}
  }

  lemma FallsAsleep(s: Sys, a: Action, s1: Sys)
    requires IsStep(s, a, s1) && PhaseInv(s) && !s1.failed && Asleep(s1)
    ensures a.Signal? || (Asleep(s) && a != Wake)
  {
    hide WorkerLoop.Inv, Prepared, LevelsLinked, Handles, PositionOk, Next, FencedJob, Cleared;
    if Exit !in s.bits && Timer !in s.bits && Render !in s.bits {
      assert s.bits == {} by { forall r ensures r !in s.bits { assert r == Exit || r == Timer || r == Render; } }
    }
  }

  /** The loop never sleeps on a request whose wake-up was spent: one that comes while another phase is going on, and
      has no effect then, is seen when that phase is over. */
  lemma {:induction false} NeverForgotten(ss: seq<Sys>, actions: seq<Action>, workers: nat, k: nat)
    requires IsRun(ss, actions, workers) && workers > 0 && k < |ss| && Asleep(ss[k])
    ensures k <= |actions| && WakeComing(actions, k)
  {
    hide IsStep, Asleep, PhaseInv;
    if k == 0 {
      NothingAsked(workers);
    } else {
      assert IsStep(ss[k - 1], actions[k - 1], ss[k]);
      PhasesExclude(ss, actions, workers, k);
      RunInv(ss, actions, workers, k - 1);
      FallsAsleep(ss[k - 1], actions[k - 1], ss[k]);
      if !actions[k - 1].Signal? {
        NeverForgotten(ss, actions, workers, k - 1);
        var i :| 0 <= i < k - 1 && actions[i].Signal? && forall m :: i < m < k - 1 ==> actions[m] != Wake;
        assert forall m :: i < m < k ==> actions[m] != Wake;
      }
    }
  }

  lemma NothingAsked(workers: nat)
    ensures !Asleep(Init(workers))
  {
  }

  /** The pass that serves a request: an exit goes before all others, the timer before rendering. */
  predicate Serves(s: Sys, a: Action, r: Phases.Request) {
    && a.SystemsPass? && s.main == InSystems && Exit !in s.bits
    && (r == Timer || (r == Render && Timer !in s.bits))
  }

  lemma OnlyServed(s: Sys, a: Action, s1: Sys, r: Phases.Request)
    requires IsStep(s, a, s1) && r in s.bits
    ensures r in s1.bits || Serves(s, a, r)
  {
    hide Prepared, LevelsLinked, Handles, PositionOk, Shape, Next, FencedJob, NewPool, Cleared;
  }

  /** A request stays until a pass serves it. */
  lemma {:induction false} KeptUntilServed(ss: seq<Sys>, actions: seq<Action>, workers: nat, i: nat, j: nat,
                                           r: Phases.Request)
    requires IsRun(ss, actions, workers) && i <= j < |ss| && r in ss[i].bits
    ensures r in ss[j].bits || exists k :: i <= k < j && k < |actions| && Serves(ss[k], actions[k], r)
  {
    hide IsStep, Serves;
    if i < j {
      KeptUntilServed(ss, actions, workers, i, j - 1, r);
      if r in ss[j - 1].bits {
        assert IsStep(ss[j - 1], actions[j - 1], ss[j]);
        OnlyServed(ss[j - 1], actions[j - 1], ss[j], r);
      }
    }
  }

  /** The request is signalled, or a system throws while a request is served, which asks for an exit. */
  predicate Asks(s: Sys, a: Action, r: Phases.Request) {
    a == Signal(r) || (a.SystemsPass? && a.quits && r == Exit && s.bits != {})
  }

  lemma AskedNoted(s: Sys, a: Action, s1: Sys, r: Phases.Request)
    requires IsStep(s, a, s1) && Asks(s, a, r)
    ensures r in s1.bits
  {
    assert s.bits != {} ==> exists x :: x in s.bits && (x == Exit || x == Timer || x == Render);
  }

  /** A request that was made stays until a pass serves it. */
  lemma AskedUntilServed(ss: seq<Sys>, actions: seq<Action>, workers: nat, i: nat, j: nat, r: Phases.Request)
    requires IsRun(ss, actions, workers) && i < j < |ss| && i < |actions| && Asks(ss[i], actions[i], r)
    ensures r in ss[j].bits || exists k :: i < k < j && k < |actions| && Serves(ss[k], actions[k], r)
  {
    hide Serves, Asks;
    assert IsStep(ss[i], actions[i], ss[i + 1]);
    AskedNoted(ss[i], actions[i], ss[i + 1], r);
    KeptUntilServed(ss, actions, workers, i + 1, j, r);
  }

  lemma PassServes(s: Sys, a: Action, s1: Sys)
    requires IsStep(s, a, s1) && a.SystemsPass? && !s1.failed
    ensures Exit in s.bits ==> s1.main == Stopped
    ensures Exit !in s.bits ==> s1.main != Stopped && Timer !in s1.bits
    ensures Exit !in s.bits && Timer !in s.bits ==> Render !in s1.bits
  {
  }

  lemma StaysStopped(s: Sys, a: Action, s1: Sys)
    requires IsStep(s, a, s1) && s.main == Stopped && s.build == NoBuild && Out(s.pool.workers) == 0
    ensures s1.main == Stopped
  {
    hide Prepared, LevelsLinked, Handles, PositionOk, Shape, Next, FencedJob, NewPool, Cleared;
  }

  /** After a request to exit the systems do not iterate again: the next pass stops the loop, which stays stopped. */
  lemma {:induction false} ExitStops(ss: seq<Sys>, actions: seq<Action>, workers: nat, i: nat, j: nat, k: nat)
    requires IsRun(ss, actions, workers) && workers > 0 && i < j < k < |ss| && j < |actions|
    requires Asks(ss[i], actions[i], Exit) && actions[j].SystemsPass?
    ensures ss[k].main == Stopped
  {
    hide IsStep, Serves, Asks;
    assert IsStep(ss[k - 1], actions[k - 1], ss[k]);
    PhasesExclude(ss, actions, workers, k);
    if j == k - 1 {
      AskedUntilServed(ss, actions, workers, i, j, Exit);
      assert Exit in ss[j].bits by { ExitUnserved(); }
      PassServes(ss[j], actions[j], ss[k]);
    } else {
      ExitStops(ss, actions, workers, i, j, k - 1);
      RunInv(ss, actions, workers, k - 1);
      StoppedAlone(ss[k - 1]);
      StaysStopped(ss[k - 1], actions[k - 1], ss[k]);
    }
  }

  lemma ExitUnserved()
    ensures forall s, a :: !Serves(s, a, Exit)
  {
  }

  lemma StoppedAlone(s: Sys)
    requires PhaseInv(s) && s.main == Stopped
    ensures s.build == NoBuild && Out(s.pool.workers) == 0
  {
    hide WorkerLoop.Inv;
  }

  // A schedule asked for.

  /** The schedule has been asked for and its arrays are not prepared yet. */
  predicate Owed(s: Sys) {
    s.queued && (s.build == Queued || s.build.Adding?) && s.main == Waiting
  }

  lemma AskedIsOwed(s: Sys, a: Action, s1: Sys)
    requires IsStep(s, a, s1) && a.SystemsPass? && a.schedules
    requires Exit !in s.bits && (Timer in s.bits || Render in s.bits)
    ensures Owed(s1)
  {
  }

  lemma OwedUntilPrepared(s: Sys, a: Action, s1: Sys)
    requires IsStep(s, a, s1) && Owed(s) && PhaseInv(s)
    ensures Owed(s1) || a.BuildPrepare?
  {
    hide WorkerLoop.Inv, LevelsLinked, Handles, PositionOk, Shape, Next, FencedJob, NewPool, Cleared;
    OutBounds(s.pool.workers);
  }

  /** A schedule the systems asked for is built before they iterate again. */
  lemma {:induction false} ScheduleBuilt(ss: seq<Sys>, actions: seq<Action>, workers: nat, i: nat, j: nat)
    requires IsRun(ss, actions, workers) && workers > 0 && i < j < |ss| && i < |actions|
    requires actions[i].SystemsPass? && actions[i].schedules
    requires Exit !in ss[i].bits && (Timer in ss[i].bits || Render in ss[i].bits)
    ensures Owed(ss[j]) || exists k :: i < k < j && k < |actions| && actions[k].BuildPrepare?
    ensures ss[j].main == InSystems ==> exists k :: i < k < j && k < |actions| && actions[k].BuildPrepare?
  {
    hide IsStep, PhaseInv;
    assert IsStep(ss[j - 1], actions[j - 1], ss[j]);
    if i == j - 1 {
      AskedIsOwed(ss[i], actions[i], ss[j]);
    } else {
      ScheduleBuilt(ss, actions, workers, i, j - 1);
      RunInv(ss, actions, workers, j - 1);
      if Owed(ss[j - 1]) {
        OwedUntilPrepared(ss[j - 1], actions[j - 1], ss[j]);
      }
    }
  }
}
