/** What a thread's way through the event loop amounts to: what it may do next, when it comes out
    of waiting, and what a pass over the events has done. */
module EventPasses {
  import opened Wrappers
  import opened EventProtocol
  import opened EventProofs

  // ----- What a thread may do -----

  /** The thread waits for a lock that another one holds. */
  predicate WaitsForLock(sh: Shared, pc: Pc) {
    || ((pc == WantEvents || pc == CloseWait) && sh.owner.Some?)
    || ((pc == WantWaiters || pc == Woken || pc == OweBroadcast || pc.WantCallback?) && sh.waitersOwner.Some?)
  }

  ghost predicate CanAct(s: State, t: Tid) {
    Enabled(s, Broadcast(t)) || exists m :: Enabled(s, Act(t, m))
  }

  /** At every point of every run a thread can go on, unless it waits for a lock that is held;
      one that sleeps may time out or wake for no reason. */
  lemma ThreadsGoOn(run: seq<State>, acts: seq<Action>, i: nat, t: Tid)
    requires IsRun(run, acts) && i < |run| && t in run[i].threads
    ensures CanAct(run[i], t) <==> !WaitsForLock(run[i].sh, run[i].Pc(t))
  {
    hide CanMove, WaitsForLock, NextMove;
    var sh, th := run[i].sh, run[i].threads[t];
    if !WaitsForLock(sh, th.pc) {
      GoesOn(sh, th);
      assert th.pc != OweBroadcast ==> Enabled(run[i], Act(t, NextMove(sh, th)));
    }
    forall m | Enabled(run[i], Act(t, m)) ensures !WaitsForLock(sh, th.pc) {
      Blocked(sh, th, m);
    }
    if th.pc == OweBroadcast {
      BroadcastWaits(sh, th.pc);
    }
  }

  lemma GoesOn(sh: Shared, th: Thread)
    requires !WaitsForLock(sh, th.pc)
    ensures if th.pc == OweBroadcast then sh.waitersOwner == None else CanMove(sh, th, NextMove(sh, th))
  {
  }

  lemma Blocked(sh: Shared, th: Thread, m: Move)
    requires CanMove(sh, th, m)
    ensures !WaitsForLock(sh, th.pc)
  {
  }

  lemma BroadcastWaits(sh: Shared, pc: Pc)
    requires pc == OweBroadcast
    ensures WaitsForLock(sh, pc) <==> sh.waitersOwner != None
  {
  }

  /** A move for every thread that does not wait for a lock. */
  function NextMove(sh: Shared, th: Thread): Move {
    match th.pc
    case Idle => CallHandleEvents(None)
    case ReadDeviceClose => DoReadDeviceClose
    case TryEvents => DoTryEvents
    case MarkActive(_) => DoMarkActive
    case TestCompleted => DoTestCompleted
    case Prepare => DoPrepare(true)
    case Polling => PollError
    case Trigger(_) => DoTrigger
    case Drain(rest, failed, _) => if rest == [] || failed then DrainEnd else DrainOne(false, false)
    case Backend => BackendReturn
    case WantCallback(_) => EnterCallback
    case InCallback(_) => ReturnCallback(None)
    case WantEvents => GetEvents
    case OwnsEvents => CallUnlockEvents
    case ClearActive => DoClearActive
    case ReleaseEvents => DoReleaseEvents
    case OweBroadcast => DoMarkActive
    case WantWaiters => GetWaiters
    case WaiterTest => DoWaiterTest
    case WaiterReadClose => DoWaiterReadClose
    case WaiterReadActive => DoWaiterReadActive
    case WillPark => DoPark
    case Parked => TimedOutOrSpurious
    case Woken => Reacquire
    case LeaveWaiters(_) => DoLeaveWaiters
    case CloseWait => GetEvents
    case Closing => RetireClose
  }

  /** What the application can ask for, and when. */
  lemma CallsAreMade(s: State, t: Tid, cell: Option<Cell>)
    requires t in s.threads
    ensures Enabled(s, Act(t, CallHandleEvents(cell))) <==> s.Pc(t) == Idle
    ensures Enabled(s, Act(t, CallLockEvents)) <==> s.Pc(t) == Idle
    ensures Enabled(s, Act(t, CallClose)) <==> s.Pc(t) == Idle
    ensures Enabled(s, Act(t, CallHandleLocked)) <==> s.Pc(t) == OwnsEvents
    ensures Enabled(s, Act(t, CallUnlockEvents)) <==> s.Pc(t) == OwnsEvents
  {
  }

  /** poll can return in any way the flags allow: it times out exactly if none is pending, and
      without events of the backend it returns exactly if one is. */
  lemma PollReturns(run: seq<State>, acts: seq<Action>, i: nat, t: Tid)
    requires IsRun(run, acts) && i < |run| && t in run[i].threads && run[i].Pc(t) == Polling
    ensures Enabled(run[i], Act(t, PollTimeout)) <==> run[i].sh.flags == {}
    ensures Enabled(run[i], Act(t, PollReady(false))) <==> run[i].sh.flags != {}
    ensures Enabled(run[i], Act(t, PollReady(true))) && Enabled(run[i], Act(t, PollError))
  {
    InvRun(run, acts, i);
  }

  lemma OnlyPollersReturn(s: State, t: Tid, ready: bool)
    requires t in s.threads && s.Pc(t) != Polling
    ensures !Enabled(s, Act(t, PollTimeout)) && !Enabled(s, Act(t, PollReady(ready))) && !Enabled(s, Act(t, PollError))
  {
  }

  /** And what any thread can do to the event data, at any time. */
  lemma AnyonePosts(s: State, x: Xfer, fd: Fd, n: nat)
    ensures Enabled(s, Do(Interrupt)) && Enabled(s, Do(Deregister)) && Enabled(s, Do(NotifyHotplug))
    ensures Enabled(s, Do(SignalCompletion(x)))
    ensures fd != EVENT_FD ==> Enabled(s, Do(AddSource(fd)))
    ensures n < |s.sh.sources| && s.sh.sources[n] != EVENT_FD ==> Enabled(s, Do(RemoveSource(n)))
  {
  }

  // ----- A thread between its own steps -----

  /** The action is a step of t. */
  predicate Steps(a: Action, t: Tid) {
    (a.Act? || a.Broadcast?) && a.t == t
  }

  lemma {:induction false} Stays(run: seq<State>, acts: seq<Action>, i: nat, j: nat, t: Tid)
    requires IsRun(run, acts) && i <= j < |run| && t in run[i].threads
    requires forall n :: i <= n < j ==> !Steps(acts[n], t)
    ensures t in run[j].threads
    ensures run[j].threads[t] == run[i].threads[t]
            || (run[i].Pc(t) == Parked && run[j].threads[t] == run[i].threads[t].(pc := Woken))
  {
    hide CanMove, NextPc, NextShared, NextThread, Posted;
    if i < j {
      Stays(run, acts, i, j - 1, t);
      assert run[j] == Apply(run[j - 1], acts[j - 1]);
    }
  }

  /** A thread comes out of waiting, at step i, by what its step k before has found.  It goes
      back to try for the events lock exactly if it saw that nobody handles events; otherwise
      its own flag was set, or it has slept. */
  lemma WaitersReturn(run: seq<State>, acts: seq<Action>, k: nat, i: nat, t: Tid)
    requires IsRun(run, acts) && k < i < |acts| && Steps(acts[k], t) && acts[i] == Act(t, DoLeaveWaiters)
    requires forall n :: k < n < i ==> !Steps(acts[n], t)
    ensures t in run[k].threads && acts[k].Act? && t in run[i + 1].threads
    ensures run[i + 1].Pc(t) == (if acts[k].move == DoWaiterReadActive then ReadDeviceClose else Idle)
    ensures match acts[k].move
            case DoWaiterReadActive => !run[k].sh.active
            case DoWaiterTest => CellDone(run[k].sh, run[k].threads[t])
            case Reacquire => run[k].Pc(t) == Woken
            case _ => false
    ensures run[i + 1].sh.waitersOwner == None
  {
    hide CanMove, NextPc, NextThread, NextShared, Posted, CellDone;
    assert run[k + 1] == Apply(run[k], acts[k]) && run[i + 1] == Apply(run[i], acts[i]);
    Stays(run, acts, k + 1, i, t);
    WaitersFreed(run[i], t);
    if acts[k].Act? {
      PcOfNext(run[k].sh, run[k].threads[t], acts[k].move);
      ComesOut(run[k].sh, run[k].threads[t], acts[k].move);
    }
  }

  lemma ComesOut(sh: Shared, th: Thread, m: Move)
    requires CanMove(sh, th, m) && NextPc(sh, th, m).LeaveWaiters?
    ensures NextPc(sh, th, m).retry <==> m == DoWaiterReadActive
    ensures match m
            case DoWaiterReadActive => !sh.active
            case DoWaiterTest => CellDone(sh, th)
            case Reacquire => th.pc == Woken
            case _ => false
  {
    hide CellDone;
  }

  lemma WaitersFreed(s: State, t: Tid)
    requires Enabled(s, Act(t, DoLeaveWaiters))
    ensures Apply(s, Act(t, DoLeaveWaiters)).sh.waitersOwner == None && s.Pc(t).LeaveWaiters?
    ensures Apply(s, Act(t, DoLeaveWaiters)).Pc(t) == if s.Pc(t).retry then ReadDeviceClose else Idle
  {
  }

  // ----- A pass over the events -----

  /** From the return of poll to the end of handle_events. */
  predicate InPass(pc: Pc) {
    pc.Trigger? || pc.Drain? || pc == Backend || pc.WantCallback? || pc.InCallback?
  }

  /** Between the actions i and n the backend has failed on a completed transfer that t handed
      to it. */
  ghost predicate Failed(acts: seq<Action>, i: nat, n: nat, t: Tid)
    requires n <= |acts|
  {
    exists k :: i < k < n && FailsAt(acts[k], t)
  }

  predicate FailsAt(a: Action, t: Tid) {
    a.Act? && a.t == t && a.move.DrainOne? && a.move.backendError
  }

  /** Where t is in a pass in which poll reported events of the backend (ready) or not. */
  predicate Serving(pc: Pc, ready: bool, failed: bool) {
    match pc
    case Trigger(r) => r == ready && !failed
    case Drain(_, f, r) => r == ready && f == failed
    case WantCallback(InDrain(_, f, r)) => r == ready && f == failed
    case InCallback(InDrain(_, f, r)) => r == ready && f == failed
    case _ => ready && !failed
  }

  ghost predicate IsPass(run: seq<State>, acts: seq<Action>, i: nat, n: nat, t: Tid)
    requires |run| == |acts| + 1
  {
    && i < n < |run| && acts[i].Act? && acts[i].t == t && acts[i].move.PollReady?
    && forall k :: i < k <= n ==> t in run[k].threads && InPass(run[k].Pc(t))
  }

  lemma ServingMove(sh: Shared, th: Thread, m: Move, ready: bool, failed: bool)
    requires CanMove(sh, th, m) && InPass(th.pc) && Serving(th.pc, ready, failed)
    ensures FailsAt(Act(0, m), 0) ==> !failed
    ensures m.DrainOne? ==> (NextPc(sh, th, m).WantCallback? <==> m.callback)
    ensures var pc := NextPc(sh, th, m);
            if InPass(pc) then Serving(pc, ready, failed || FailsAt(Act(0, m), 0))
            else pc == (if th.manual then OwnsEvents else ClearActive) && (m == BackendReturn <==> ready && !failed)
  {
  }

  lemma {:induction false} PassServing(run: seq<State>, acts: seq<Action>, i: nat, n: nat, t: Tid)
    requires IsRun(run, acts) && IsPass(run, acts, i, n, t)
    ensures Serving(run[n].Pc(t), acts[i].move.backendReady, Failed(acts, i, n, t))
  {
    hide CanMove, NextPc, NextShared, NextThread, Posted, Serving, Failed, FailsAt;
    var a, s := acts[n - 1], run[n - 1];
    assert run[n] == Apply(s, a);
    if n == i + 1 {
      PassBegins(s, a, t);
      NoneFailed(acts, i, t);
    } else {
      PassServing(run, acts, i, n - 1, t);
      FailedMore(acts, i, n - 1, t);
      if Steps(a, t) {
        assert a.Act?;
        ServingMove(s.sh, s.threads[t], a.move, acts[i].move.backendReady, Failed(acts, i, n - 1, t));
        FailsBy(a, t);
        PcOfNext(s.sh, s.threads[t], a.move);
      } else {
        FailsNot(a, t);
        Stays(run, acts, n - 1, n, t);
      }
    }
  }

  lemma PassBegins(s: State, a: Action, t: Tid)
    requires Enabled(s, a) && a.Act? && a.t == t && a.move.PollReady?
    ensures Serving(Apply(s, a).Pc(t), a.move.backendReady, false)
  {
  }

  lemma NoneFailed(acts: seq<Action>, i: nat, t: Tid)
    requires i < |acts|
    ensures !Failed(acts, i, i + 1, t)
  {
  }

  lemma FailedMore(acts: seq<Action>, i: nat, n: nat, t: Tid)
    requires i < n < |acts|
    ensures Failed(acts, i, n + 1, t) <==> Failed(acts, i, n, t) || FailsAt(acts[n], t)
  {
  }

  lemma FailsBy(a: Action, t: Tid)
    requires a.Act? && a.t == t
    ensures FailsAt(a, t) <==> FailsAt(Act(0, a.move), 0)
  {
  }

  lemma FailsNot(a: Action, t: Tid)
    requires !Steps(a, t)
    ensures !FailsAt(a, t)
  {
  }

  /** A pass starts with the flags if any is pending, and else with the events of the backend. */
  lemma FlagsComeFirst(run: seq<State>, acts: seq<Action>, i: nat, t: Tid, ready: bool)
    requires IsRun(run, acts) && i < |acts| && acts[i] == Act(t, PollReady(ready))
    ensures t in run[i + 1].threads
    ensures run[i + 1].Pc(t) == if run[i].sh.flags == {} then Backend else Trigger(ready)
  {
    InvRun(run, acts, i);
    assert run[i + 1] == Apply(run[i], acts[i]);
  }

  /** A pass ends with the backend's own events exactly if poll reported some and the backend did
      not fail on a completed transfer, which is then the last one handed to it.  The caller
      of libusb_lock_events keeps the lock, any other gives it back. */
  lemma PassServes(run: seq<State>, acts: seq<Action>, i: nat, n: nat, t: Tid)
    requires IsRun(run, acts) && IsPass(run, acts, i, n, t) && n < |acts| && Steps(acts[n], t)
    ensures acts[n].Act? && (acts[n].move.DrainOne? ==> !Failed(acts, i, n, t))
    ensures acts[n].move.DrainOne? ==> (run[n + 1].Pc(t).WantCallback? <==> acts[n].move.callback)
    ensures !InPass(run[n + 1].Pc(t)) ==>
              && run[n + 1].Pc(t) == (if run[n].threads[t].manual then OwnsEvents else ClearActive)
              && (acts[n].move == BackendReturn <==> acts[i].move.backendReady && !Failed(acts, i, n, t))
  {
    hide CanMove, NextPc, NextShared, NextThread, Posted, Serving, Failed, FailsAt;
    var a, s := acts[n], run[n];
    assert run[n + 1] == Apply(s, a);
    PassServing(run, acts, i, n, t);
    assert a.Act?;
    ServingMove(s.sh, s.threads[t], a.move, acts[i].move.backendReady, Failed(acts, i, n, t));
    PcOfNext(s.sh, s.threads[t], a.move);
    DrainFails(s.sh, s.threads[t], a.move, acts[i].move.backendReady, Failed(acts, i, n, t));
  }

  lemma DrainFails(sh: Shared, th: Thread, m: Move, ready: bool, failed: bool)
    requires CanMove(sh, th, m) && InPass(th.pc) && Serving(th.pc, ready, failed)
    ensures m.DrainOne? ==> !failed
  {
  }

  // ----- Draining the completed transfers -----

  /** Who does not own events_lock hands over nothing. */
  lemma DeliveredMove(sh: Shared, t: Tid, th: Thread, m: Move)
    requires CanMove(sh, th, m)
    ensures !m.DrainOne? ==> NextShared(sh, t, th, m).delivered == sh.delivered
    ensures m.DrainOne? ==> HoldsEvents(th.pc)
  {
  }

  lemma DeliveredStep(s: State, a: Action, t: Tid)
    requires Enabled(s, a) && LocksMatch(s) && t in s.threads && InDrainPhase(s.Pc(t))
    requires !Steps(a, t) || !(a.Act? && a.move.DrainOne?)
    ensures Apply(s, a).sh.delivered == s.sh.delivered
  {
    hide CanMove, NextPc, NextShared, NextThread;
    if a.Act? {
      DeliveredMove(s.sh, a.t, s.threads[a.t], a.move);
      DrainersHold(s.Pc(t));
    }
  }

  lemma DrainersHold(pc: Pc)
    requires InDrainPhase(pc)
    ensures HoldsEvents(pc)
  {
  }

  lemma DrainingMove(sh: Shared, th: Thread, m: Move)
    requires CanMove(sh, th, m) && InDrainPhase(th.pc) && InDrainPhase(NextPc(sh, th, m)) && !m.DrainOne?
    ensures Draining(NextPc(sh, th, m)) == Draining(th.pc)
  {
  }

  ghost predicate IsDrain(run: seq<State>, acts: seq<Action>, m: nat, n: nat, t: Tid)
    requires |run| == |acts| + 1
  {
    && m < n < |run| && acts[m] == Act(t, DoTrigger)
    && forall k :: m < k <= n ==> t in run[k].threads && InDrainPhase(run[k].Pc(t))
  }

  /** What was queued when the drain began is what has been handed over and what is left. */
  lemma {:induction false} DrainedSoFar(run: seq<State>, acts: seq<Action>, m: nat, n: nat, t: Tid)
    requires IsRun(run, acts) && IsDrain(run, acts, m, n, t)
    ensures run[m].sh.delivered + run[m].sh.queue == run[n].sh.delivered + Draining(run[n].Pc(t))
  {
    hide CanMove, NextPc, NextShared, NextThread, Posted, PipeMatches, BroadcastOwed, WaitsAreFresh;
    hide QueueMatches, PollArrayMatches, ClosersCounted, InDrainPhase, Draining, LocksMatch;
    var a, s := acts[n - 1], run[n - 1];
    assert run[n] == Apply(s, a);
    if n == m + 1 {
      DrainBegins(s, t);
    } else {
      DrainedSoFar(run, acts, m, n - 1, t);
      InvRun(run, acts, n - 1);
      DrainGoesOn(s, a, t);
    }
  }

  lemma DrainBegins(s: State, t: Tid)
    requires Enabled(s, Act(t, DoTrigger)) && InDrainPhase(Apply(s, Act(t, DoTrigger)).Pc(t))
    ensures var next := Apply(s, Act(t, DoTrigger));
            next.sh.delivered == s.sh.delivered && Draining(next.Pc(t)) == s.sh.queue
  {
  }

  lemma DrainGoesOn(s: State, a: Action, t: Tid)
    requires Enabled(s, a) && LocksMatch(s) && t in s.threads && InDrainPhase(s.Pc(t))
    requires t in Apply(s, a).threads && InDrainPhase(Apply(s, a).Pc(t))
    ensures Apply(s, a).sh.delivered + Draining(Apply(s, a).Pc(t)) == s.sh.delivered + Draining(s.Pc(t))
  {
    hide CanMove, NextPc, NextShared, NextThread, Posted, InDrainPhase, Draining, LocksMatch;
    if !Steps(a, t) {
      DeliveredStep(s, a, t);
      NotAsleep(s.Pc(t));
    } else {
      NotAsleep(s.Pc(t));
      PcOfNext(s.sh, s.threads[t], a.move);
      if a.move.DrainOne? {
        DrainOneIs(s.sh, t, s.threads[t], a.move);
        FirstMoves(s.sh.delivered, s.Pc(t).rest, []);
        assert s.Pc(t).rest + [] == s.Pc(t).rest && s.Pc(t).rest[1..] + [] == s.Pc(t).rest[1..];
      } else {
        DeliveredStep(s, a, t);
        DrainingMove(s.sh, s.threads[t], a.move);
      }
    }
  }

  lemma NotAsleep(pc: Pc)
    requires InDrainPhase(pc)
    ensures pc != Parked && pc != OweBroadcast
  {
  }

  /** A drain ends when all that was queued at its beginning has been handed over, unless the
      backend failed in this pass; what is left is put back in front of the queue. */
  lemma DrainsAll(run: seq<State>, acts: seq<Action>, i: nat, m: nat, n: nat, t: Tid)
    requires IsRun(run, acts) && IsPass(run, acts, i, n, t) && i < m && IsDrain(run, acts, m, n, t)
    requires n < |acts| && acts[n] == Act(t, DrainEnd)
    ensures var left := Draining(run[n].Pc(t));
            && run[m].sh.delivered + run[m].sh.queue == run[n + 1].sh.delivered + left
            && run[n + 1].sh.queue == left + run[n].sh.queue
            && (!Failed(acts, i, n, t) ==> left == [])
  {
    hide CanMove, NextPc, NextShared, NextThread, Posted, Serving, Failed, FailsAt, Draining, InDrainPhase;
    DrainedSoFar(run, acts, m, n, t);
    PassServing(run, acts, i, n, t);
    assert run[n + 1] == Apply(run[n], acts[n]);
    DrainEnds(run[n], t, acts[i].move.backendReady, Failed(acts, i, n, t));
  }

  lemma DrainEnds(s: State, t: Tid, ready: bool, failed: bool)
    requires Enabled(s, Act(t, DrainEnd)) && Serving(s.Pc(t), ready, failed)
    ensures var next, left := Apply(s, Act(t, DrainEnd)), Draining(s.Pc(t));
            && next.sh.delivered == s.sh.delivered && next.sh.queue == left + s.sh.queue
            && (!failed ==> left == [])
  {
  }

  // ----- Locking events by hand -----

  /** A thread between libusb_lock_events and libusb_unlock_events. */
  predicate HasLocked(th: Thread) {
    th.manual && (th.pc in {WantEvents, MarkActive(Manual), OwnsEvents, Prepare, Polling} || InPass(th.pc))
  }

  lemma HasLockedMove(sh: Shared, th: Thread, m: Move)
    requires CanMove(sh, th, m) && HasLocked(th) && m != CallUnlockEvents
    ensures HasLocked(NextThread(sh, th, m))
  {
    hide CellDone;
    if InPass(th.pc) {
      PassGoesOn(sh, th, m);
    } else {
      PcOfNext(sh, th, m);
    }
  }

  lemma PassGoesOn(sh: Shared, th: Thread, m: Move)
    requires CanMove(sh, th, m) && InPass(th.pc)
    ensures NextThread(sh, th, m) == th.(pc := NextPc(sh, th, m))
    ensures InPass(NextPc(sh, th, m)) || NextPc(sh, th, m) == if th.manual then OwnsEvents else ClearActive
  {
  }

  /** Who has called libusb_lock_events waits for the lock or owns it until it calls
      libusb_unlock_events, however often it handles events in between. */
  lemma {:induction false} LockStays(run: seq<State>, acts: seq<Action>, i: nat, j: nat, t: Tid)
    requires IsRun(run, acts) && i < j < |run| && acts[i] == Act(t, CallLockEvents)
    requires forall k :: i < k < j ==> acts[k] != Act(t, CallUnlockEvents)
    ensures t in run[j].threads && HasLocked(run[j].threads[t])
    ensures run[j].Pc(t) == WantEvents || run[j].sh.owner == Some(t)
  {
    hide CanMove, NextPc, NextShared, NextThread, Posted, HasLocked, PipeMatches, BroadcastOwed, WaitsAreFresh;
    hide QueueMatches, PollArrayMatches, ClosersCounted;
    var a, s := acts[j - 1], run[j - 1];
    assert run[j] == Apply(s, a);
    InvRun(run, acts, j);
    if j == i + 1 {
      LockIsCalled(s, t);
    } else {
      LockStays(run, acts, i, j - 1, t);
      if Steps(a, t) {
        BroadcastNotOwed(s, t, a);
        HasLockedMove(s.sh, s.threads[t], a.move);
      } else {
        NotParked(s.threads[t]);
        Stays(run, acts, j - 1, j, t);
      }
    }
    LockedOwns(run[j], t);
  }

  lemma LockIsCalled(s: State, t: Tid)
    requires Enabled(s, Act(t, CallLockEvents))
    ensures HasLocked(Apply(s, Act(t, CallLockEvents)).threads[t])
  {
  }

  lemma BroadcastNotOwed(s: State, t: Tid, a: Action)
    requires Enabled(s, a) && Steps(a, t) && HasLocked(s.threads[t])
    ensures a.Act?
  {
  }

  lemma NotParked(th: Thread)
    requires HasLocked(th)
    ensures th.pc != Parked
  {
  }

  lemma LockedOwns(s: State, t: Tid)
    requires LocksMatch(s) && t in s.threads && HasLocked(s.threads[t])
    ensures s.Pc(t) == WantEvents || s.sh.owner == Some(t)
  {
  }

  // ----- What the event data tell of the past -----

  /** The post has been made since the last trigger was handled, among the first i actions. */
  predicate SinceTrigger(acts: seq<Action>, i: nat, p: Post)
    requires i <= |acts|
  {
    i > 0 && !(acts[i - 1].Act? && acts[i - 1].move == DoTrigger)
    && (acts[i - 1] == Do(p) || SinceTrigger(acts, i - 1, p))
  }

  /** The hotplug messages since then. */
  function MessagesSince(acts: seq<Action>, i: nat): nat
    requires i <= |acts|
  {
    if i == 0 || (acts[i - 1].Act? && acts[i - 1].move == DoTrigger) then 0
    else MessagesSince(acts, i - 1) + if acts[i - 1] == Do(NotifyHotplug) then 1 else 0
  }

  /** An interrupt, a deregistered callback and hotplug messages are pending exactly from when
      they are posted until the next trigger is handled. */
  lemma {:induction false} FlagsTell(run: seq<State>, acts: seq<Action>, i: nat)
    requires IsRun(run, acts) && i < |run|
    ensures UserInterrupt in run[i].sh.flags <==> SinceTrigger(acts, i, Interrupt)
    ensures CallbackDeregistered in run[i].sh.flags <==> SinceTrigger(acts, i, Deregister)
    ensures HotplugPending in run[i].sh.flags <==> SinceTrigger(acts, i, NotifyHotplug)
    ensures run[i].sh.hotplugMsgs == MessagesSince(acts, i)
  {
    hide CanMove, NextPc, NextShared, NextThread, Posted, PipeMatches, BroadcastOwed, WaitsAreFresh;
    hide PollArrayMatches, ClosersCounted, LocksMatch;
    if i > 0 {
      var s, a := run[i - 1], acts[i - 1];
      FlagsTell(run, acts, i - 1);
      InvRun(run, acts, i - 1);
      assert run[i] == Apply(s, a);
      match a {
        case Act(t, m) => FlagsMove(s.sh, t, s.threads[t], m);
        case Broadcast(_) =>
        case Do(p) => FlagsPost(s.sh, p);
      }
    }
  }

  /** The flags that a handled trigger takes away, and what comes with them. */
  predicate SameNews(sh: Shared, next: Shared) {
    && (UserInterrupt in next.flags <==> UserInterrupt in sh.flags)
    && (CallbackDeregistered in next.flags <==> CallbackDeregistered in sh.flags)
    && (HotplugPending in next.flags <==> HotplugPending in sh.flags)
    && next.hotplugMsgs == sh.hotplugMsgs
  }

  lemma FlagsMove(sh: Shared, t: Tid, th: Thread, m: Move)
    requires CanMove(sh, th, m) && (HotplugPending in sh.flags <==> sh.hotplugMsgs > 0)
    ensures var next := NextShared(sh, t, th, m);
            if m == DoTrigger then
              UserInterrupt !in next.flags && CallbackDeregistered !in next.flags && HotplugPending !in next.flags
              && next.hotplugMsgs == 0
            else SameNews(sh, next)
  {
    if TouchesData(m) {
      hide TouchesData;
    } else {
      hide NextShared;
      DataKept(sh, t, th, m);
    }
  }

  lemma FlagsPost(sh: Shared, p: Post)
    requires CanPost(sh, p)
    ensures var next := Posted(sh, p);
            && (UserInterrupt in next.flags <==> UserInterrupt in sh.flags || p == Interrupt)
            && (CallbackDeregistered in next.flags <==> CallbackDeregistered in sh.flags || p == Deregister)
            && (HotplugPending in next.flags <==> HotplugPending in sh.flags || p == NotifyHotplug)
            && next.hotplugMsgs == sh.hotplugMsgs + if p == NotifyHotplug then 1 else 0
  {
  }

  /** An action at which handle_events rebuilds the poll array, or tries to. */
  predicate Rebuilds(s: State, a: Action) {
    a.Act? && a.move.DoPrepare? && SourcesModified in s.sh.flags
  }

  /** The sources removed since the array was last rebuilt, or its memory could not be had. */
  function RemovedSince(run: seq<State>, acts: seq<Action>, i: nat): seq<Fd>
    requires i <= |acts| < |run|
  {
    if i == 0 || Rebuilds(run[i - 1], acts[i - 1]) then []
    else
      RemovedSince(run, acts, i - 1) +
      match acts[i - 1]
      case Do(RemoveSource(n)) => if n < |run[i - 1].sh.sources| then [run[i - 1].sh.sources[n]] else []
      case _ => []
  }

  /** The array that was last built; none if its memory could not be had the last time. */
  function LastArray(run: seq<State>, acts: seq<Action>, i: nat): Option<seq<Fd>>
    requires i <= |acts| < |run|
  {
    if i == 0 then None
    else if Rebuilds(run[i - 1], acts[i - 1]) then
      (if acts[i - 1].move.allocOk then Some(run[i - 1].sh.sources) else None)
    else LastArray(run, acts, i - 1)
  }

  /** The removed sources that still wait to be freed are those removed since the last rebuild,
      and the poll array is what that has left. */
  lemma {:induction false} SourcesTell(run: seq<State>, acts: seq<Action>, i: nat)
    requires IsRun(run, acts) && i < |run|
    ensures run[i].sh.removed == RemovedSince(run, acts, i)
    ensures run[i].sh.pollfds == LastArray(run, acts, i)
  {
    hide CanMove, NextPc, NextShared, NextThread, Posted;
    if i > 0 {
      var s, a := run[i - 1], acts[i - 1];
      SourcesTell(run, acts, i - 1);
      assert run[i] == Apply(s, a);
      match a {
        case Act(t, m) => SourcesMove(s.sh, t, s.threads[t], m);
        case Broadcast(_) =>
        case Do(p) => SourcesPost(s.sh, p);
      }
    }
  }

  lemma SourcesMove(sh: Shared, t: Tid, th: Thread, m: Move)
    requires CanMove(sh, th, m)
    ensures var next := NextShared(sh, t, th, m);
            if m.DoPrepare? && SourcesModified in sh.flags then
              next.removed == [] && next.pollfds == if m.allocOk then Some(sh.sources) else None
            else next.removed == sh.removed && next.pollfds == sh.pollfds
  {
  }

  lemma SourcesPost(sh: Shared, p: Post)
    requires CanPost(sh, p)
    ensures var next := Posted(sh, p);
            && next.pollfds == sh.pollfds
            && next.removed == sh.removed + match p
                                            case RemoveSource(n) => [sh.sources[n]]
                                            case _ => []
  {
  }
}
