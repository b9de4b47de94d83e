/** What every run of the event-handling protocol keeps. */
module EventProofs {
  import opened Wrappers
  import opened EventProtocol

  predicate HoldsEvents(pc: Pc) {
    match pc
    case MarkActive(_) | TestCompleted | Prepare | Polling | Trigger(_) | Drain(_, _, _)
       | Backend | WantCallback(_) | InCallback(_) | OwnsEvents | ClearActive
       | ReleaseEvents | Closing => true
    case _ => false
  }

  predicate HoldsWaiters(pc: Pc) {
    match pc
    case InCallback(_) | WaiterTest | WaiterReadClose | WaiterReadActive | WillPark
       | LeaveWaiters(_) => true
    case _ => false
  }

  // ----- Locks -----

  ghost predicate LocksMatch(s: State) {
    && (forall t :: t in s.threads ==> (HoldsEvents(s.Pc(t)) <==> s.sh.owner == Some(t)))
    && (forall t :: t in s.threads ==> (HoldsWaiters(s.Pc(t)) <==> s.sh.waitersOwner == Some(t)))
    && (s.sh.owner.Some? ==> s.sh.owner.value in s.threads)
    && (s.sh.waitersOwner.Some? ==> s.sh.waitersOwner.value in s.threads)
    && (s.sh.active ==> s.sh.owner.Some? && s.Pc(s.sh.owner.value) != ReleaseEvents)
  }

  /** A lock changes hands only from or to the moving thread. */
  predicate Handover(before: Option<Tid>, after: Option<Tid>, t: Tid) {
    before == after || (before == None && after == Some(t)) || (before == Some(t) && after == None)
  }

  /** The critical sections that only touch the event data leave the locks alone. */
  lemma DataKeepsLocks(sh: Shared, th: Thread, m: Move)
    requires CanMove(sh, th, m)
    ensures forall ok: bool :: SameLocks(sh, Prepared(sh, ok))
    ensures SameLocks(sh, Triggered(sh)) && SameLocks(sh, Announce(sh)) && SameLocks(sh, Retire(sh))
    ensures m.DrainEnd? ==> SameLocks(sh, Drained(sh, th.pc.rest))
  {
  }

  predicate SameLocks(sh: Shared, sh': Shared) {
    sh'.owner == sh.owner && sh'.waitersOwner == sh.waitersOwner && sh'.active == sh.active
  }

  /** The moves that touch more than the locks, event_handler_active and the completion flags. */
  predicate TouchesData(m: Move) {
    m.DoPrepare? || m.DoTrigger? || m.DrainOne? || m.DrainEnd? || m.CallClose? || m.RetireClose?
  }

  lemma DataKept(sh: Shared, t: Tid, th: Thread, m: Move)
    requires CanMove(sh, th, m) && !TouchesData(m)
    ensures var x := NextShared(sh, t, th, m);
            x == sh.(owner := x.owner, active := x.active, waitersOwner := x.waitersOwner, done := x.done)
  {
    hide NextPc, CellDone;
  }

  lemma PcOfNext(sh: Shared, th: Thread, m: Move)
    requires CanMove(sh, th, m)
    ensures NextThread(sh, th, m).pc == NextPc(sh, th, m)
  {
    hide NextPc;
  }

  /** Who owns events_lock after a move. */
  function NextOwner(sh: Shared, t: Tid, m: Move): Option<Tid> {
    if m.GetEvents? || (m.DoTryEvents? && sh.owner.None?) then Some(t)
    else if m.DoReleaseEvents? then None
    else sh.owner
  }

  lemma OwnerIs(sh: Shared, t: Tid, th: Thread, m: Move)
    requires CanMove(sh, th, m)
    ensures NextShared(sh, t, th, m).owner == NextOwner(sh, t, m)
  {
    hide Prepared, Triggered, Drained, Announce, Retire, NextPc;
    DataKeepsLocks(sh, th, m);
  }

  lemma HoldsEventsNext(sh: Shared, t: Tid, th: Thread, m: Move)
    requires CanMove(sh, th, m) && (HoldsEvents(th.pc) <==> sh.owner == Some(t))
    ensures HoldsEvents(NextPc(sh, th, m)) <==> NextOwner(sh, t, m) == Some(t)
    ensures Handover(sh.owner, NextOwner(sh, t, m), t)
  {
    if m.GetEvents? || m.DoTryEvents? || m.DoReleaseEvents? {
      hide CellDone;
    } else {
      hide CanMove, NextPc, HoldsEvents;
      HoldsEventsSame(sh, th, m);
    }
  }

  lemma HoldsEventsSame(sh: Shared, th: Thread, m: Move)
    requires CanMove(sh, th, m) && !m.GetEvents? && !m.DoTryEvents? && !m.DoReleaseEvents?
    ensures HoldsEvents(NextPc(sh, th, m)) <==> HoldsEvents(th.pc)
  {
    hide CellDone;
  }

  lemma EventsLockMove(sh: Shared, t: Tid, th: Thread, m: Move)
    requires CanMove(sh, th, m) && (HoldsEvents(th.pc) <==> sh.owner == Some(t))
    ensures HoldsEvents(NextPc(sh, th, m)) <==> NextShared(sh, t, th, m).owner == Some(t)
    ensures Handover(sh.owner, NextShared(sh, t, th, m).owner, t)
  {
    hide CanMove, NextShared, NextPc, NextOwner, HoldsEvents;
    OwnerIs(sh, t, th, m);
    HoldsEventsNext(sh, t, th, m);
  }

  lemma WaitersLockMove(sh: Shared, t: Tid, th: Thread, m: Move)
    requires CanMove(sh, th, m) && (HoldsWaiters(th.pc) <==> sh.waitersOwner == Some(t))
    ensures HoldsWaiters(NextPc(sh, th, m)) <==> NextShared(sh, t, th, m).waitersOwner == Some(t)
    ensures Handover(sh.waitersOwner, NextShared(sh, t, th, m).waitersOwner, t)
  {
    hide Prepared, Triggered, Drained, Announce, Retire;
    DataKeepsLocks(sh, th, m);
  }

  /** event_handler_active is written only under events_lock. */
  lemma ActiveMove(sh: Shared, t: Tid, th: Thread, m: Move)
    requires CanMove(sh, th, m) && (HoldsEvents(th.pc) <==> sh.owner == Some(t))
    requires sh.active ==> sh.owner.Some? && (sh.owner == Some(t) ==> th.pc != ReleaseEvents)
    ensures NextShared(sh, t, th, m).active ==>
              && NextShared(sh, t, th, m).owner.Some?
              && (HoldsEvents(th.pc) ==> NextPc(sh, th, m) != ReleaseEvents)
              && (!HoldsEvents(th.pc) ==> sh.active && NextShared(sh, t, th, m).owner == sh.owner)
  {
    hide Prepared, Triggered, Drained, Announce, Retire;
    DataKeepsLocks(sh, th, m);
  }

  lemma LocksStep(s: State, a: Action)
    requires Enabled(s, a) && LocksMatch(s)
    ensures LocksMatch(Apply(s, a))
  {
    match a
    case Act(t, m) => LocksAct(s, t, m);
    case Broadcast(t) => LocksBroadcast(s, t);
    case Do(p) => LocksPost(s, p);
  }

  lemma LocksBroadcast(s: State, t: Tid)
    requires LocksMatch(s) && t in s.threads && s.Pc(t) == OweBroadcast
    ensures LocksMatch(State(s.sh, WakeAll(s.threads)[t := s.threads[t].(pc := Idle)]))
  {
    var s' := State(s.sh, WakeAll(s.threads)[t := s.threads[t].(pc := Idle)]);
    forall u | u in s.threads
      ensures HoldsEvents(s'.Pc(u)) == HoldsEvents(s.Pc(u)) && HoldsWaiters(s'.Pc(u)) == HoldsWaiters(s.Pc(u))
    {
    }
    if s.sh.owner.Some? {
      assert s'.Pc(s.sh.owner.value) == s.Pc(s.sh.owner.value);
    }
  }

  lemma LocksPost(s: State, p: Post)
    requires LocksMatch(s) && CanPost(s.sh, p)
    ensures LocksMatch(State(Posted(s.sh, p), s.threads))
  {
  }

  lemma LocksAct(s: State, t: Tid, m: Move)
    requires LocksMatch(s) && t in s.threads && CanMove(s.sh, s.threads[t], m)
    ensures LocksMatch(State(NextShared(s.sh, t, s.threads[t], m), s.threads[t := NextThread(s.sh, s.threads[t], m)]))
  {
    hide CanMove, NextShared, NextThread, NextPc, HoldsEvents, HoldsWaiters;
    var th := s.threads[t];
    PcOfNext(s.sh, th, m);
    EventsLockMove(s.sh, t, th, m);
    WaitersLockMove(s.sh, t, th, m);
    ActiveMove(s.sh, t, th, m);
    LocksGlue(s, t, NextShared(s.sh, t, th, m), NextThread(s.sh, th, m));
  }

  lemma LocksGlue(s: State, t: Tid, sh: Shared, th: Thread)
    requires LocksMatch(s) && t in s.threads
    requires HoldsEvents(th.pc) <==> sh.owner == Some(t)
    requires HoldsWaiters(th.pc) <==> sh.waitersOwner == Some(t)
    requires Handover(s.sh.owner, sh.owner, t) && Handover(s.sh.waitersOwner, sh.waitersOwner, t)
    requires sh.active ==> sh.owner.Some? && (HoldsEvents(s.Pc(t)) ==> th.pc != ReleaseEvents)
    requires sh.active && !HoldsEvents(s.Pc(t)) ==> s.sh.active && sh.owner == s.sh.owner
    ensures LocksMatch(State(sh, s.threads[t := th]))
  {
  }

  // ----- The event pipe and the pending flags -----

  /** The pipe holds one signal when a flag is pending and none otherwise; a handler that
      saw the pipe readable still finds a flag pending. */
  ghost predicate PipeMatches(s: State) {
    && s.sh.pipe == (if s.sh.flags == {} then 0 else 1)
    && (forall t :: t in s.threads && NeedsFlag(s.Pc(t)) ==> s.sh.flags != {})
  }

  predicate NeedsFlag(pc: Pc) {
    pc.Trigger? || InDrainPhase(pc)
  }

  predicate InDrainPhase(pc: Pc) {
    match pc
    case Drain(_, _, _) => true
    case WantCallback(InDrain(_, _, _)) => true
    case InCallback(InDrain(_, _, _)) => true
    case _ => false
  }

  /** Only the owner of events_lock takes flags away. */
  lemma PipeMove(sh: Shared, t: Tid, th: Thread, m: Move)
    requires CanMove(sh, th, m)
    requires sh.pipe == (if sh.flags == {} then 0 else 1)
    requires NeedsFlag(th.pc) ==> sh.flags != {}
    requires InDrainPhase(th.pc) ==> TransferCompleted in sh.flags
    requires 0 <= sh.deviceClose && (sh.deviceClose > 0 <==> DeviceClose in sh.flags)
    requires th.pc == Closing ==> sh.deviceClose > 0
    ensures var sh' := NextShared(sh, t, th, m);
            && sh'.pipe == (if sh'.flags == {} then 0 else 1)
            && (NeedsFlag(NextPc(sh, th, m)) ==> sh'.flags != {})
            && (HoldsEvents(th.pc) || sh.flags <= sh'.flags)
  {
    hide NextShared, NextPc, CanMove, NeedsFlag, HoldsEvents, InDrainPhase;
    match m
    case DoPrepare(ok) => PipePrepare(sh, t, th, ok);
    case DoTrigger => PipeTrigger(sh, t, th);
    case DrainOne(_, _) => PipeDrainOne(sh, t, th, m);
    case DrainEnd => PipeDrainEnd(sh, t, th);
    case CallClose => PipeClose(sh, t, th);
    case RetireClose => PipeRetire(sh, t, th);
    case _ =>
      DataKept(sh, t, th, m);
      PipePc(sh, th, m);
  }

  lemma PipePc(sh: Shared, th: Thread, m: Move)
    requires CanMove(sh, th, m) && !TouchesData(m)
    ensures NeedsFlag(NextPc(sh, th, m)) ==> NeedsFlag(th.pc) || sh.pipe > 0
  {
    hide CellDone;
  }

  lemma PipePrepare(sh: Shared, t: Tid, th: Thread, ok: bool)
    requires CanMove(sh, th, DoPrepare(ok)) && sh.pipe == (if sh.flags == {} then 0 else 1)
    ensures var sh' := NextShared(sh, t, th, DoPrepare(ok));
            sh'.pipe == (if sh'.flags == {} then 0 else 1) && HoldsEvents(th.pc)
    ensures !NeedsFlag(NextPc(sh, th, DoPrepare(ok)))
  {
  }

  lemma PipeTrigger(sh: Shared, t: Tid, th: Thread)
    requires CanMove(sh, th, DoTrigger) && sh.pipe == (if sh.flags == {} then 0 else 1)
    requires NeedsFlag(th.pc) ==> sh.flags != {}
    ensures var sh' := NextShared(sh, t, th, DoTrigger);
            && sh'.pipe == (if sh'.flags == {} then 0 else 1) && HoldsEvents(th.pc)
            && (NeedsFlag(NextPc(sh, th, DoTrigger)) ==> sh'.flags != {})
  {
    var sh' := NextShared(sh, t, th, DoTrigger);
    assert TransferCompleted in sh.flags ==> TransferCompleted in sh'.flags;
  }

  lemma PipeDrainOne(sh: Shared, t: Tid, th: Thread, m: Move)
    requires CanMove(sh, th, m) && m.DrainOne?
    ensures NextShared(sh, t, th, m).pipe == sh.pipe && NextShared(sh, t, th, m).flags == sh.flags
    ensures NeedsFlag(th.pc)
  {
  }

  lemma PipeDrainEnd(sh: Shared, t: Tid, th: Thread)
    requires CanMove(sh, th, DrainEnd) && sh.pipe == (if sh.flags == {} then 0 else 1)
    requires InDrainPhase(th.pc) ==> TransferCompleted in sh.flags
    ensures var sh' := NextShared(sh, t, th, DrainEnd);
            sh'.pipe == (if sh'.flags == {} then 0 else 1) && HoldsEvents(th.pc)
    ensures !NeedsFlag(NextPc(sh, th, DrainEnd))
  {
    assert TransferCompleted in sh.flags;
  }

  lemma PipeClose(sh: Shared, t: Tid, th: Thread)
    requires CanMove(sh, th, CallClose) && sh.pipe == (if sh.flags == {} then 0 else 1)
    requires 0 <= sh.deviceClose && (sh.deviceClose > 0 <==> DeviceClose in sh.flags)
    ensures var sh' := NextShared(sh, t, th, CallClose);
            sh'.pipe == (if sh'.flags == {} then 0 else 1) && sh.flags <= sh'.flags
    ensures !NeedsFlag(NextPc(sh, th, CallClose))
  {
    assert DeviceClose in NextShared(sh, t, th, CallClose).flags;
  }

  lemma PipeRetire(sh: Shared, t: Tid, th: Thread)
    requires CanMove(sh, th, RetireClose) && sh.pipe == (if sh.flags == {} then 0 else 1)
    requires sh.deviceClose > 0 <==> DeviceClose in sh.flags
    requires th.pc == Closing ==> sh.deviceClose > 0
    ensures var sh' := NextShared(sh, t, th, RetireClose);
            sh'.pipe == (if sh'.flags == {} then 0 else 1) && HoldsEvents(th.pc)
    ensures !NeedsFlag(NextPc(sh, th, RetireClose))
  {
    assert DeviceClose in sh.flags;
  }

  // ----- Closers -----

  /** A closer between its announcement and its retirement. */
  predicate Announced(pc: Pc) {
    pc == CloseWait || pc == MarkActive(Close) || pc == Closing
  }

  ghost function Closers(threads: map<Tid, Thread>): set<Tid> {
    set t | t in threads && Announced(threads[t].pc)
  }

  /** device_close counts the announced closers, and its flag says whether there is one. */
  ghost predicate ClosersCounted(s: State) {
    && s.sh.deviceClose == |Closers(s.threads)|
    && (s.sh.deviceClose > 0 <==> DeviceClose in s.sh.flags)
  }

  lemma ClosersMoved(threads: map<Tid, Thread>, t: Tid, th: Thread)
    requires t in threads
    ensures |Closers(threads[t := th])| ==
            |Closers(threads)| - (if Announced(threads[t].pc) then 1 else 0) + (if Announced(th.pc) then 1 else 0)
  {
    var c, c' := Closers(threads), Closers(threads[t := th]);
    assert c' - {t} == c - {t};
    assert Announced(threads[t].pc) <==> t in c;
    assert Announced(th.pc) <==> t in c';
    assert c == if t in c then (c - {t}) + {t} else c - {t};
    assert c' == if t in c' then (c' - {t}) + {t} else c' - {t};
  }

  lemma ClosersMove(sh: Shared, t: Tid, th: Thread, m: Move)
    requires CanMove(sh, th, m)
    requires sh.deviceClose > 0 <==> DeviceClose in sh.flags
    requires 0 <= sh.deviceClose && (Announced(th.pc) ==> sh.deviceClose > 0)
    ensures var sh' := NextShared(sh, t, th, m);
            && sh'.deviceClose == sh.deviceClose
               - (if Announced(th.pc) then 1 else 0) + (if Announced(NextPc(sh, th, m)) then 1 else 0)
            && (sh'.deviceClose > 0 <==> DeviceClose in sh'.flags)
  {
    if !m.CallClose? && !m.RetireClose? {
      hide NextShared, NextPc;
      CloseFieldsKept(sh, t, th, m);
      AnnouncedKept(sh, th, m);
    }
  }

  lemma CloseFieldsKept(sh: Shared, t: Tid, th: Thread, m: Move)
    requires CanMove(sh, th, m) && !m.CallClose? && !m.RetireClose?
    ensures NextShared(sh, t, th, m).deviceClose == sh.deviceClose
    ensures DeviceClose in NextShared(sh, t, th, m).flags <==> DeviceClose in sh.flags
  {
    hide NextPc;
    if !TouchesData(m) {
      hide NextShared;
      DataKept(sh, t, th, m);
    }
  }

  lemma AnnouncedKept(sh: Shared, th: Thread, m: Move)
    requires CanMove(sh, th, m) && !m.CallClose? && !m.RetireClose?
    ensures Announced(th.pc) <==> Announced(NextPc(sh, th, m))
  {
    hide NextShared, CellDone;
  }

  lemma AnnouncedMeansCounted(s: State, t: Tid)
    requires ClosersCounted(s) && t in s.threads && Announced(s.Pc(t))
    ensures s.sh.deviceClose > 0
  {
    assert t in Closers(s.threads);
  }

  lemma ClosersStep(s: State, a: Action)
    requires Enabled(s, a) && ClosersCounted(s)
    ensures ClosersCounted(Apply(s, a))
  {
    match a
    case Act(t, m) =>
      hide CanMove, NextShared, NextThread, NextPc, Announced, Closers;
      if Announced(s.Pc(t)) {
        AnnouncedMeansCounted(s, t);
      }
      PcOfNext(s.sh, s.threads[t], m);
      ClosersMove(s.sh, t, s.threads[t], m);
      ClosersMoved(s.threads, t, NextThread(s.sh, s.threads[t], m));
    case Broadcast(t) => ClosersBroadcast(s, t);
    case Do(p) => ClosersPost(s.sh, p);
  }

  lemma ClosersBroadcast(s: State, t: Tid)
    requires Enabled(s, Broadcast(t))
    ensures Closers(WakeAll(s.threads)[t := s.threads[t].(pc := Idle)]) == Closers(s.threads)
  {
  }

  lemma ClosersPost(sh: Shared, p: Post)
    requires CanPost(sh, p)
    ensures Posted(sh, p).deviceClose == sh.deviceClose
    ensures DeviceClose in Posted(sh, p).flags <==> DeviceClose in sh.flags
  {
  }

  lemma PipeStep(s: State, a: Action)
    requires Enabled(s, a) && LocksMatch(s) && PipeMatches(s) && ClosersCounted(s) && QueueMatches(s)
    ensures PipeMatches(Apply(s, a))
  {
    match a
    case Act(t, m) =>
      var th := s.threads[t];
      if th.pc == Closing {
        AnnouncedMeansCounted(s, t);
      }
      PipeMove(s.sh, t, th, m);
      PipeGlue(s, t, NextShared(s.sh, t, th, m), NextThread(s.sh, th, m));
    case Broadcast(_) =>
    case Do(p) => PipePost(s.sh, p);
  }

  lemma PipePost(sh: Shared, p: Post)
    requires CanPost(sh, p) && sh.pipe == (if sh.flags == {} then 0 else 1)
    ensures Posted(sh, p).pipe == 1 && Posted(sh, p).flags != {}
  {
    match p
    case Interrupt => assert UserInterrupt in Posted(sh, p).flags;
    case Deregister => assert CallbackDeregistered in Posted(sh, p).flags;
    case NotifyHotplug => assert HotplugPending in Posted(sh, p).flags;
    case SignalCompletion(_) => assert TransferCompleted in Posted(sh, p).flags;
    case AddSource(_) => assert SourcesModified in Posted(sh, p).flags;
    case RemoveSource(_) => assert SourcesModified in Posted(sh, p).flags;
  }

  lemma PipeGlue(s: State, t: Tid, sh: Shared, th: Thread)
    requires LocksMatch(s) && PipeMatches(s) && t in s.threads
    requires sh.pipe == (if sh.flags == {} then 0 else 1)
    requires NeedsFlag(th.pc) ==> sh.flags != {}
    requires HoldsEvents(s.Pc(t)) || s.sh.flags <= sh.flags
    ensures PipeMatches(State(sh, s.threads[t := th]))
  {
    forall u | u in s.threads && u != t && NeedsFlag(s.Pc(u)) ensures sh.flags != {} {
      assert HoldsEvents(s.Pc(u)) && !HoldsEvents(s.Pc(t));
      var f :| f in s.sh.flags;
      assert f in sh.flags;
    }
  }

  // ----- No wake-up is lost -----

  /** A thread that sleeps on the condition variable, or is bound to. */
  predicate Sleepy(pc: Pc) {
    pc == Parked || pc == WillPark
  }

  /** A thread that will still broadcast on event_waiters_cond: the owner of events_lock,
      an unlocker before its broadcast, a closer that waits for events_lock. */
  predicate OwesBroadcast(pc: Pc) {
    HoldsEvents(pc) || pc == OweBroadcast || pc == CloseWait
  }

  ghost predicate Debtor(s: State, d: Tid) {
    d in s.threads && OwesBroadcast(s.Pc(d))
  }

  ghost predicate BroadcastOwed(s: State) {
    (exists t :: t in s.threads && Sleepy(s.Pc(t))) ==> exists d :: Debtor(s, d)
  }

  /** A moving thread pays no debt: only the broadcast itself does. */
  lemma DebtMove(sh: Shared, th: Thread, m: Move)
    requires CanMove(sh, th, m)
    ensures OwesBroadcast(th.pc) ==> OwesBroadcast(NextPc(sh, th, m))
    ensures Sleepy(NextPc(sh, th, m)) ==> Sleepy(th.pc) || sh.deviceClose != 0 || sh.active
  {
    hide CellDone;
    if Sleepy(NextPc(sh, th, m)) {
      hide OwesBroadcast;
      SleepyMove(sh, th, m);
    }
  }

  lemma SleepyMove(sh: Shared, th: Thread, m: Move)
    requires CanMove(sh, th, m) && Sleepy(NextPc(sh, th, m))
    ensures Sleepy(th.pc) || sh.deviceClose != 0 || sh.active
    ensures OwesBroadcast(th.pc) ==> OwesBroadcast(NextPc(sh, th, m))
  {
    hide CellDone;
    assert m.DoPark? || m.DoWaiterReadClose? || m.DoWaiterReadActive?;
  }

  lemma BroadcastStep(s: State, a: Action)
    requires Enabled(s, a) && LocksMatch(s) && ClosersCounted(s) && BroadcastOwed(s)
    ensures BroadcastOwed(Apply(s, a))
  {
    hide LocksMatch, ClosersCounted;
    var s' := Apply(s, a);
    match a
    case Act(t, m) =>
      hide CanMove, NextPc, NextShared, NextThread, OwesBroadcast, Sleepy;
      PcOfNext(s.sh, s.threads[t], m);
      DebtMove(s.sh, s.threads[t], m);
      if d :| Debtor(s, d) {
        assert Debtor(s', d);
      } else {
        SleeperNeedsDebtor(s);
      }
    case Broadcast(t) => BroadcastEmptiesQueue(s, t);
    case Do(_) =>
      if d :| Debtor(s, d) {
        assert Debtor(s', d);
      }
  }

  /** The broadcast runs under event_waiters_lock, so nobody is about to park either. */
  lemma BroadcastEmptiesQueue(s: State, t: Tid)
    requires LocksMatch(s) && Enabled(s, Broadcast(t))
    ensures var threads := WakeAll(s.threads)[t := s.threads[t].(pc := Idle)];
            forall u :: u in threads ==> !Sleepy(threads[u].pc)
  {
    forall u | u in s.threads ensures s.Pc(u) != WillPark {
    }
  }

  /** With no debtor, nothing tells a waiter that it may sleep. */
  lemma SleeperNeedsDebtor(s: State)
    requires LocksMatch(s) && ClosersCounted(s)
    requires forall d :: !Debtor(s, d)
    ensures s.sh.deviceClose == 0 && !s.sh.active
  {
    if s.sh.active {
      assert Debtor(s, s.sh.owner.value);
    }
    if c :| c in Closers(s.threads) {
      assert Debtor(s, c);
    } else {
      assert Closers(s.threads) == {};
    }
  }

  // ----- Nobody waits for a flag already set -----

  /** A thread that polls, or is committed to poll or to park, for its completion flag. */
  predicate CommittedToWait(pc: Pc) {
    pc == Prepare || pc == Polling || pc == WaiterReadClose || pc == WaiterReadActive || pc == WillPark
  }

  /** An application that took events_lock itself passes no completion flag. */
  predicate ManualWaitsForNothing(th: Thread) {
    && (th.manual ==> th.cell.None?)
    && (th.pc == WantEvents || th.pc == MarkActive(Manual) || th.pc == OwnsEvents ==> th.manual)
  }

  ghost predicate WaitsAreFresh(s: State) {
    && (forall t :: t in s.threads && CommittedToWait(s.Pc(t)) ==> !CellDone(s.sh, s.threads[t]))
    && (forall t :: t in s.threads ==> ManualWaitsForNothing(s.threads[t]))
  }

  lemma FreshMove(sh: Shared, t: Tid, th: Thread, m: Move)
    requires CanMove(sh, th, m) && ManualWaitsForNothing(th)
    requires CommittedToWait(th.pc) ==> !CellDone(sh, th)
    ensures ManualWaitsForNothing(NextThread(sh, th, m))
    ensures CommittedToWait(NextPc(sh, th, m)) ==> !CellDone(sh, NextThread(sh, th, m))
  {
    ManualMove(sh, th, m);
    CommitMove(sh, th, m);
  }

  lemma ManualMove(sh: Shared, th: Thread, m: Move)
    requires CanMove(sh, th, m) && ManualWaitsForNothing(th)
    ensures ManualWaitsForNothing(NextThread(sh, th, m))
  {
    hide CellDone;
  }

  lemma CommitMove(sh: Shared, th: Thread, m: Move)
    requires CanMove(sh, th, m) && ManualWaitsForNothing(th)
    requires CommittedToWait(th.pc) ==> !CellDone(sh, th)
    ensures CommittedToWait(NextPc(sh, th, m)) ==> !CellDone(sh, NextThread(sh, th, m))
  {
    if CommittedToWait(NextPc(sh, th, m)) {
      hide CellDone, ManualWaitsForNothing;
      CommitsFrom(sh, th, m);
      if th.pc == OwnsEvents {
        NoCell(sh, th);
      }
    }
  }

  /** How a thread comes to wait. */
  lemma CommitsFrom(sh: Shared, th: Thread, m: Move)
    requires CanMove(sh, th, m) && CommittedToWait(NextPc(sh, th, m))
    ensures CommittedToWait(th.pc) || th.pc == OwnsEvents || !CellDone(sh, th)
    ensures NextThread(sh, th, m) == th.(pc := NextPc(sh, th, m))
  {
    hide CellDone;
  }

  lemma NoCell(sh: Shared, th: Thread)
    requires ManualWaitsForNothing(th) && th.pc == OwnsEvents
    ensures !CellDone(sh, th)
  {
  }

  /** A completion flag is set only inside a callback, under both locks. */
  lemma DoneMove(sh: Shared, t: Tid, th: Thread, m: Move)
    requires CanMove(sh, th, m)
    ensures !th.pc.InCallback? ==> NextShared(sh, t, th, m).done == sh.done
    ensures th.pc.InCallback? ==> !CommittedToWait(NextPc(sh, th, m))
  {
  }

  lemma FreshStep(s: State, a: Action)
    requires Enabled(s, a) && LocksMatch(s) && WaitsAreFresh(s)
    ensures WaitsAreFresh(Apply(s, a))
  {
    match a
    case Act(t, m) =>
      hide CanMove, NextShared, NextThread, NextPc, CommittedToWait, ManualWaitsForNothing, LocksMatch;
      var th := s.threads[t];
      PcOfNext(s.sh, th, m);
      FreshMove(s.sh, t, th, m);
      DoneMove(s.sh, t, th, m);
      FreshGlue(s, t, NextShared(s.sh, t, th, m), NextThread(s.sh, th, m));
    case Broadcast(t) => FreshBroadcast(s, t);
    case Do(p) =>
      hide LocksMatch, CommittedToWait, ManualWaitsForNothing;
      assert Posted(s.sh, p).done == s.sh.done;
  }

  lemma FreshBroadcast(s: State, t: Tid)
    requires WaitsAreFresh(s) && t in s.threads && s.Pc(t) == OweBroadcast
    ensures WaitsAreFresh(State(s.sh, WakeAll(s.threads)[t := s.threads[t].(pc := Idle)]))
  {
    hide Wake, CellDone, CommittedToWait, ManualWaitsForNothing;
    IdleWaitsForNothing(s.threads[t]);
    forall u | u in s.threads
      ensures CommittedToWait(Wake(s.threads[u]).pc) ==> !CellDone(s.sh, Wake(s.threads[u]))
      ensures ManualWaitsForNothing(Wake(s.threads[u]))
    {
      WakeIsFresh(s.sh, s.threads[u]);
    }
  }

  lemma IdleWaitsForNothing(th: Thread)
    requires ManualWaitsForNothing(th)
    ensures ManualWaitsForNothing(th.(pc := Idle)) && !CommittedToWait(Idle)
  {
  }

  lemma WakeIsFresh(sh: Shared, th: Thread)
    requires ManualWaitsForNothing(th) && (CommittedToWait(th.pc) ==> !CellDone(sh, th))
    ensures ManualWaitsForNothing(Wake(th)) && (CommittedToWait(Wake(th).pc) ==> !CellDone(sh, Wake(th)))
  {
  }

  lemma FreshGlue(s: State, t: Tid, sh: Shared, th: Thread)
    requires LocksMatch(s) && WaitsAreFresh(s) && t in s.threads
    requires ManualWaitsForNothing(th)
    requires CommittedToWait(th.pc) ==> !CellDone(s.sh, th) && !s.Pc(t).InCallback?
    requires !s.Pc(t).InCallback? ==> sh.done == s.sh.done
    ensures WaitsAreFresh(State(sh, s.threads[t := th]))
  {
    hide CommittedToWait, ManualWaitsForNothing, HoldsEvents, HoldsWaiters;
    forall u | u in s.threads && u != t && CommittedToWait(s.Pc(u)) ensures sh.done == s.sh.done {
      WaitersHold(s.Pc(u));
      if s.Pc(t).InCallback? {
        CallbacksHold(s.Pc(t));
        assert false;
      }
    }
  }

  lemma WaitersHold(pc: Pc)
    requires CommittedToWait(pc)
    ensures HoldsEvents(pc) || HoldsWaiters(pc)
  {
  }

  lemma CallbacksHold(pc: Pc)
    requires pc.InCallback?
    ensures HoldsEvents(pc) && HoldsWaiters(pc)
  {
  }

  // ----- Completed transfers: first in, first out, each handed over once -----

  /** The transfers cut from the context's queue and not yet handed to the backend. */
  function Draining(pc: Pc): seq<Xfer> {
    match pc
    case Drain(rest, _, _) => rest
    case WantCallback(InDrain(rest, _, _)) => rest
    case InCallback(InDrain(rest, _, _)) => rest
    case _ => []
  }

  function OwnerPc(s: State): Pc {
    if s.sh.owner.Some? && s.sh.owner.value in s.threads then s.Pc(s.sh.owner.value) else Idle
  }

  ghost predicate QueueMatches(s: State) {
    QueueView(s.sh, OwnerPc(s))
  }

  predicate QueueView(sh: Shared, pc: Pc) {
    && sh.signalled == sh.delivered + (Draining(pc) + sh.queue)
    && (InDrainPhase(pc) ==> TransferCompleted in sh.flags)
    && (!InDrainPhase(pc) ==> (TransferCompleted in sh.flags <==> sh.queue != []))
    && (HotplugPending in sh.flags <==> sh.hotplugMsgs > 0)
  }

  /** The owner of events_lock moves. */
  lemma QueueMoveOwner(sh: Shared, t: Tid, th: Thread, m: Move)
    requires CanMove(sh, th, m) && QueueView(sh, th.pc)
    ensures QueueView(NextShared(sh, t, th, m), NextPc(sh, th, m))
  {
    match m
    case DrainOne(_, _) => QueueDrainOne(sh, t, th, m);
    case DrainEnd => QueueDrainEnd(sh, t, th);
    case DoTrigger => QueueTrigger(sh, t, th);
    case _ => QueueElsewhere(sh, t, th, m);
  }

  lemma QueueTrigger(sh: Shared, t: Tid, th: Thread)
    requires CanMove(sh, th, DoTrigger) && QueueView(sh, th.pc)
    ensures QueueView(NextShared(sh, t, th, DoTrigger), NextPc(sh, th, DoTrigger))
  {
  }

  lemma QueueElsewhere(sh: Shared, t: Tid, th: Thread, m: Move)
    requires CanMove(sh, th, m) && !m.DrainOne? && !m.DrainEnd? && !m.DoTrigger?
    ensures Draining(NextPc(sh, th, m)) == Draining(th.pc)
    ensures InDrainPhase(NextPc(sh, th, m)) <==> InDrainPhase(th.pc)
    ensures var sh' := NextShared(sh, t, th, m);
            && sh'.queue == sh.queue && sh'.signalled == sh.signalled && sh'.delivered == sh.delivered
            && sh'.hotplugMsgs == sh.hotplugMsgs
            && (TransferCompleted in sh'.flags <==> TransferCompleted in sh.flags)
            && (HotplugPending in sh'.flags <==> HotplugPending in sh.flags)
  {
    hide NextPc, Draining, InDrainPhase;
    QueuePc(sh, th, m);
    if !TouchesData(m) {
      hide NextShared, CanMove;
      DataKept(sh, t, th, m);
    }
  }

  lemma QueuePc(sh: Shared, th: Thread, m: Move)
    requires CanMove(sh, th, m) && !m.DrainOne? && !m.DrainEnd? && !m.DoTrigger?
    ensures Draining(NextPc(sh, th, m)) == Draining(th.pc)
    ensures InDrainPhase(NextPc(sh, th, m)) <==> InDrainPhase(th.pc)
  {
    hide CellDone;
  }

  lemma QueueDrainOne(sh: Shared, t: Tid, th: Thread, m: Move)
    requires CanMove(sh, th, m) && m.DrainOne? && QueueView(sh, th.pc)
    ensures QueueView(NextShared(sh, t, th, m), NextPc(sh, th, m))
  {
    hide CanMove, NextShared, NextPc, Draining, InDrainPhase;
    DrainOneIs(sh, t, th, m);
    FirstMoves(sh.delivered, th.pc.rest, sh.queue);
  }

  lemma DrainOneIs(sh: Shared, t: Tid, th: Thread, m: Move)
    requires CanMove(sh, th, m) && m.DrainOne?
    ensures th.pc.Drain? && th.pc.rest != [] && Draining(th.pc) == th.pc.rest && InDrainPhase(th.pc)
    ensures Draining(NextPc(sh, th, m)) == th.pc.rest[1..] && InDrainPhase(NextPc(sh, th, m))
    ensures NextShared(sh, t, th, m) == sh.(delivered := sh.delivered + [th.pc.rest[0]])
  {
  }

  lemma FirstMoves(a: seq<Xfer>, rest: seq<Xfer>, b: seq<Xfer>)
    requires rest != []
    ensures a + (rest + b) == (a + [rest[0]]) + (rest[1..] + b)
  {
  }

  lemma QueueDrainEnd(sh: Shared, t: Tid, th: Thread)
    requires CanMove(sh, th, DrainEnd) && QueueView(sh, th.pc)
    ensures QueueView(NextShared(sh, t, th, DrainEnd), NextPc(sh, th, DrainEnd))
  {
    assert [] + (th.pc.rest + sh.queue) == th.pc.rest + sh.queue;
  }

  lemma QueueStep(s: State, a: Action)
    requires Enabled(s, a) && LocksMatch(s) && QueueMatches(s)
    ensures QueueMatches(Apply(s, a))
  {
    match a
    case Act(t, m) => QueueAct(s, t, m);
    case Broadcast(t) => assert Draining(OwnerPc(Apply(s, a))) == Draining(OwnerPc(s));
    case Do(p) => QueuePost(s.sh, OwnerPc(s), p);
  }

  lemma QueuePost(sh: Shared, pc: Pc, p: Post)
    requires CanPost(sh, p) && QueueView(sh, pc)
    ensures QueueView(Posted(sh, p), pc)
  {
    if p.SignalCompletion? {
      assert sh.delivered + (Draining(pc) + sh.queue) + [p.x] == sh.delivered + (Draining(pc) + (sh.queue + [p.x]));
    }
  }

  lemma QueueAct(s: State, t: Tid, m: Move)
    requires LocksMatch(s) && QueueMatches(s) && t in s.threads && CanMove(s.sh, s.threads[t], m)
    ensures QueueMatches(State(NextShared(s.sh, t, s.threads[t], m), s.threads[t := NextThread(s.sh, s.threads[t], m)]))
  {
    hide CanMove, NextShared, NextThread, NextPc, HoldsEvents, HoldsWaiters, QueueView;
    var th := s.threads[t];
    var s' := State(NextShared(s.sh, t, th, m), s.threads[t := NextThread(s.sh, th, m)]);
    PcOfNext(s.sh, th, m);
    EventsLockMove(s.sh, t, th, m);
    if HoldsEvents(th.pc) {
      QueueMoveOwner(s.sh, t, th, m);
      assert OwnerPc(s') == if s'.sh.owner == Some(t) then NextPc(s.sh, th, m) else Idle;
      if s'.sh.owner != Some(t) {
        QueueIdle(s'.sh, NextPc(s.sh, th, m));
      }
    } else {
      QueueOther(s.sh, t, th, m, OwnerPc(s));
      if s'.sh.owner == Some(t) {
        assert OwnerPc(s) == Idle;
        QueueTaken(s'.sh, NextPc(s.sh, th, m));
      } else {
        assert OwnerPc(s') == OwnerPc(s);
      }
    }
  }

  /** A move without events_lock changes nothing in the view of any pc, and drains nothing. */
  lemma QueueOther(sh: Shared, t: Tid, th: Thread, m: Move, pc: Pc)
    requires CanMove(sh, th, m) && !HoldsEvents(th.pc) && QueueView(sh, pc)
    ensures QueueView(NextShared(sh, t, th, m), pc)
    ensures !InDrainPhase(NextPc(sh, th, m)) && Draining(NextPc(sh, th, m)) == []
  {
    hide NextShared, NextPc;
    assert !m.DrainOne? && !m.DrainEnd? && !m.DoTrigger?;
    QueueElsewhere(sh, t, th, m);
  }

  lemma QueueTaken(sh: Shared, pc: Pc)
    requires QueueView(sh, Idle) && !InDrainPhase(pc) && Draining(pc) == []
    ensures QueueView(sh, pc)
  {
  }

  lemma QueueIdle(sh: Shared, pc: Pc)
    requires QueueView(sh, pc) && !HoldsEvents(pc)
    ensures QueueView(sh, Idle)
  {
  }

  // ----- The cached poll array -----

  predicate UsesPollArray(pc: Pc) {
    match pc
    case Polling | Trigger(_) | Drain(_, _, _) | Backend | WantCallback(_) | InCallback(_) => true
    case _ => false
  }

  predicate PollArrayView(sh: Shared) {
    && |sh.sources| > 0 && sh.sources[0] == EVENT_FD && EVENT_FD !in sh.sources[1..]
    && (SourcesModified !in sh.flags ==> sh.pollfds == Some(sh.sources) && sh.removed == [])
    && (sh.pollfds.Some? ==> |sh.pollfds.value| > 0 && sh.pollfds.value[0] == EVENT_FD)
  }

  ghost predicate PollArrayMatches(s: State) {
    PollArrayView(s.sh) && (UsesPollArray(OwnerPc(s)) ==> s.sh.pollfds.Some?)
  }

  lemma PollArrayMove(sh: Shared, t: Tid, th: Thread, m: Move)
    requires CanMove(sh, th, m) && PollArrayView(sh)
    requires UsesPollArray(th.pc) ==> sh.pollfds.Some?
    ensures PollArrayView(NextShared(sh, t, th, m))
    ensures UsesPollArray(NextPc(sh, th, m)) ==> NextShared(sh, t, th, m).pollfds.Some?
    ensures !HoldsEvents(th.pc) ==> NextShared(sh, t, th, m).pollfds == sh.pollfds
  {
    if m.DoPrepare? {
      PollArrayPrepare(sh, t, th, m);
    } else {
      hide CanMove, NextShared, NextPc, UsesPollArray, HoldsEvents;
      PollArrayKept(sh, t, th, m);
      PollArrayPc(sh, th, m);
    }
  }

  lemma PollArrayPrepare(sh: Shared, t: Tid, th: Thread, m: Move)
    requires CanMove(sh, th, m) && PollArrayView(sh) && m.DoPrepare?
    ensures PollArrayView(NextShared(sh, t, th, m)) && HoldsEvents(th.pc)
    ensures UsesPollArray(NextPc(sh, th, m)) ==> NextShared(sh, t, th, m).pollfds.Some?
  {
  }

  lemma PollArrayPc(sh: Shared, th: Thread, m: Move)
    requires CanMove(sh, th, m) && !m.DoPrepare?
    ensures UsesPollArray(NextPc(sh, th, m)) ==> UsesPollArray(th.pc)
  {
    hide CellDone;
  }

  /** Only the start of handle_events touches the array or clears its mark. */
  lemma PollArrayKept(sh: Shared, t: Tid, th: Thread, m: Move)
    requires CanMove(sh, th, m) && !m.DoPrepare?
    ensures var sh' := NextShared(sh, t, th, m);
            && sh'.sources == sh.sources && sh'.removed == sh.removed && sh'.pollfds == sh.pollfds
            && (SourcesModified in sh'.flags <==> SourcesModified in sh.flags)
  {
    hide NextPc;
    if !TouchesData(m) {
      hide NextShared, CanMove;
      DataKept(sh, t, th, m);
    }
  }

  lemma PollArrayPost(sh: Shared, p: Post)
    requires CanPost(sh, p) && PollArrayView(sh)
    ensures PollArrayView(Posted(sh, p)) && Posted(sh, p).pollfds == sh.pollfds
  {
    var sh' := Posted(sh, p);
    match p
    case AddSource(fd) => assert sh'.sources[1..] == sh.sources[1..] + [fd];
    case RemoveSource(i) => assert sh'.sources[1..] == sh.sources[1..i] + sh.sources[i + 1..];
    case _ =>
  }

  lemma PollArrayStep(s: State, a: Action)
    requires Enabled(s, a) && LocksMatch(s) && PollArrayMatches(s)
    ensures PollArrayMatches(Apply(s, a))
  {
    match a
    case Act(t, m) =>
      var th := s.threads[t];
      assert UsesPollArray(th.pc) ==> HoldsEvents(th.pc);
      PollArrayMove(s.sh, t, th, m);
      EventsLockMove(s.sh, t, th, m);
    case Broadcast(t) =>
    case Do(p) => PollArrayPost(s.sh, p);
  }

  // ----- Every reachable state -----

  ghost predicate Inv(s: State) {
    && LocksMatch(s)
    && PipeMatches(s)
    && ClosersCounted(s)
    && BroadcastOwed(s)
    && WaitsAreFresh(s)
    && QueueMatches(s)
    && PollArrayMatches(s)
  }

  lemma InvInit(s: State)
    requires Init(s)
    ensures Inv(s)
  {
    assert Closers(s.threads) == {};
  }

  lemma InvStep(s: State, a: Action)
    requires Enabled(s, a) && Inv(s)
    ensures Inv(Apply(s, a))
  {
    LocksStep(s, a);
    PipeStep(s, a);
    ClosersStep(s, a);
    BroadcastStep(s, a);
    FreshStep(s, a);
    QueueStep(s, a);
    PollArrayStep(s, a);
  }

  lemma {:induction false} InvRun(run: seq<State>, acts: seq<Action>, i: nat)
    requires IsRun(run, acts) && i < |run|
    ensures Inv(run[i])
  {
    if i == 0 {
      InvInit(run[0]);
    } else {
      InvRun(run, acts, i - 1);
      InvStep(run[i - 1], acts[i - 1]);
    }
  }

  /** No wake-up is lost: in every run, whenever a thread sleeps on event_waiters_cond some
      thread still owes a broadcast. */
  lemma NoLostWakeUp(run: seq<State>, acts: seq<Action>, i: nat, t: Tid)
    requires IsRun(run, acts) && i < |run|
    requires t in run[i].threads && run[i].Pc(t) == Parked
    ensures exists d :: Debtor(run[i], d)
  {
    InvRun(run, acts, i);
  }

  /** The debt outlives the sleep: while t stays parked, whoever owed a broadcast still
      owes it, since the only step that pays it wakes every parked thread. */
  lemma {:induction false} DebtOutlivesSleep(run: seq<State>, acts: seq<Action>, i: nat, j: nat, t: Tid, d: Tid)
    requires IsRun(run, acts) && i <= j < |run| && Debtor(run[i], d)
    requires forall k :: i <= k <= j ==> t in run[k].threads && run[k].Pc(t) == Parked
    ensures Debtor(run[j], d)
  {
    if i < j {
      DebtOutlivesSleep(run, acts, i, j - 1, t, d);
      DebtStep(run[j - 1], acts[j - 1], t, d);
    }
  }

  lemma DebtStep(s: State, a: Action, t: Tid, d: Tid)
    requires Enabled(s, a) && Debtor(s, d)
    requires t in s.threads && s.Pc(t) == Parked
    requires t in Apply(s, a).threads && Apply(s, a).Pc(t) == Parked
    ensures Debtor(Apply(s, a), d)
  {
    match a
    case Act(u, m) => DebtMove(s.sh, s.threads[u], m);
    case Broadcast(_) =>
    case Do(_) =>
  }

  /** No thread starts to poll, and none goes to sleep, for a completion flag already set. */
  lemma NoStaleWait(run: seq<State>, acts: seq<Action>, i: nat)
    requires IsRun(run, acts) && i < |acts| && acts[i].Act?
    requires NextPc(run[i].sh, run[i].threads[acts[i].t], acts[i].move) in {Polling, Parked}
    requires run[i].Pc(acts[i].t) !in {Polling, Parked}
    ensures !CellDone(run[i].sh, run[i].threads[acts[i].t])
    ensures !CellDone(run[i + 1].sh, run[i + 1].threads[acts[i].t])
  {
    hide LocksMatch, PipeMatches, ClosersCounted, BroadcastOwed, QueueMatches, PollArrayMatches;
    hide CanMove, NextShared, NextThread, NextPc, CommittedToWait, ManualWaitsForNothing;
    InvRun(run, acts, i);
    assert run[i + 1] == Apply(run[i], acts[i]);
    EntersWait(run[i].sh, acts[i].t, run[i].threads[acts[i].t], acts[i].move);
  }

  lemma EntersWait(sh: Shared, t: Tid, th: Thread, m: Move)
    requires CanMove(sh, th, m) && NextPc(sh, th, m) in {Polling, Parked} && th.pc !in {Polling, Parked}
    ensures CommittedToWait(th.pc)
    ensures NextThread(sh, th, m).cell == th.cell && NextShared(sh, t, th, m).done == sh.done
  {
    hide Triggered, Drained, Announce, Retire, CellDone, NextThread, NextShared, CommittedToWait;
    assert m.DoPrepare? || m.DoPark?;
    WaitingMove(sh, t, th, m);
  }

  lemma WaitingMove(sh: Shared, t: Tid, th: Thread, m: Move)
    requires CanMove(sh, th, m) && (m.DoPrepare? || m.DoPark?)
    ensures CommittedToWait(th.pc)
    ensures NextThread(sh, th, m).cell == th.cell && NextShared(sh, t, th, m).done == sh.done
  {
  }

  /** The event pipe holds exactly one signal when a flag is pending and none otherwise, so
      the read of usbi_clear_event, which takes the pipe from one signal to none, always
      finds one. */
  lemma PipeHoldsOneSignal(run: seq<State>, acts: seq<Action>, i: nat)
    requires IsRun(run, acts) && i < |run|
    ensures run[i].sh.pipe == if run[i].sh.flags == {} then 0 else 1
  {
    InvRun(run, acts, i);
  }

  /** device_close counts exactly the closers between announcement and retirement, and is
      positive exactly when USBI_EVENT_DEVICE_CLOSE is set. */
  lemma DeviceCloseCountsClosers(run: seq<State>, acts: seq<Action>, i: nat)
    requires IsRun(run, acts) && i < |run|
    ensures run[i].sh.deviceClose == |Closers(run[i].threads)|
    ensures run[i].sh.deviceClose > 0 <==> DeviceClose in run[i].sh.flags
  {
    InvRun(run, acts, i);
  }

  /** A handler never blocks in poll while a closer waits: the event pipe is readable, the
      poll array has the event pipe in front, and poll cannot time out. */
  lemma CloserInterruptsPoll(run: seq<State>, acts: seq<Action>, i: nat, h: Tid, c: Tid)
    requires IsRun(run, acts) && i < |run|
    requires h in run[i].threads && run[i].Pc(h) == Polling
    requires c in run[i].threads && run[i].Pc(c) == CloseWait
    ensures run[i].sh.pipe == 1 && !Enabled(run[i], Act(h, PollTimeout))
    ensures run[i].sh.pollfds.Some? && |run[i].sh.pollfds.value| > 0 && run[i].sh.pollfds.value[0] == EVENT_FD
    ensures Enabled(run[i], Act(h, PollReady(false)))
  {
    InvRun(run, acts, i);
    AnnouncedMeansCounted(run[i], c);
    assert UsesPollArray(OwnerPc(run[i]));
  }

  /** A thread on its way to the waiters, or not yet past the test of device_close. */
  predicate TurnedAway(pc: Pc) {
    match pc
    case Idle | ReadDeviceClose | WantWaiters | WaiterTest | WaiterReadClose | WaiterReadActive
       | WillPark | Parked | Woken | LeaveWaiters(_) => true
    case _ => false
  }

  lemma TurnedAwayMove(sh: Shared, th: Thread, m: Move)
    requires CanMove(sh, th, m) && TurnedAway(th.pc) && sh.deviceClose != 0
    requires m != CallLockEvents && m != CallClose
    ensures TurnedAway(NextPc(sh, th, m))
  {
    hide CellDone;
  }

  lemma TurnedAwayStep(s: State, a: Action, u: Tid)
    requires Enabled(s, a) && s.sh.deviceClose != 0 && u in s.threads && TurnedAway(s.Pc(u))
    requires a != Act(u, CallLockEvents) && a != Act(u, CallClose)
    ensures u in Apply(s, a).threads && TurnedAway(Apply(s, a).Pc(u))
  {
    hide CanMove, NextPc, NextShared, NextThread, Posted;
    if a.Act? && a.t == u {
      PcOfNext(s.sh, s.threads[u], a.move);
      TurnedAwayMove(s.sh, s.threads[u], a.move);
    }
  }

  lemma TurnedAwayOwnsNothing(s: State, u: Tid)
    requires LocksMatch(s) && u in s.threads && TurnedAway(s.Pc(u))
    ensures s.sh.owner != Some(u)
  {
  }

  /** While some closer is announced, a thread that has not passed the test of device_close, and
      calls neither libusb_lock_events nor libusb_close itself, does not get events_lock: a
      closer is overtaken only by threads that had already passed the test. */
  lemma {:induction false} CloserGoesFirst(run: seq<State>, acts: seq<Action>, i: nat, j: nat, u: Tid)
    requires IsRun(run, acts) && i <= j < |run|
    requires forall k :: i <= k <= j ==> Closers(run[k].threads) != {}
    requires u in run[i].threads && run[i].Pc(u) in {Idle, ReadDeviceClose}
    requires forall k :: i <= k < j ==> acts[k] != Act(u, CallLockEvents) && acts[k] != Act(u, CallClose)
    ensures u in run[j].threads && TurnedAway(run[j].Pc(u)) && run[j].sh.owner != Some(u)
  {
    hide LocksMatch, PipeMatches, BroadcastOwed, WaitsAreFresh, QueueMatches, PollArrayMatches, Closers;
    InvRun(run, acts, j);
    if i < j {
      CloserGoesFirst(run, acts, i, j - 1, u);
      InvRun(run, acts, j - 1);
      TurnedAwayStep(run[j - 1], acts[j - 1], u);
    }
    TurnedAwayOwnsNothing(run[j], u);
  }

  /** Completed transfers reach the backend in the order they were signalled, each at most
      once and none lost, across any number of backend errors: what was handed over, what
      is cut out, and what is queued make up the history of signals. */
  lemma CompletionsAreFifo(run: seq<State>, acts: seq<Action>, i: nat)
    requires IsRun(run, acts) && i < |run|
    ensures run[i].sh.signalled == run[i].sh.delivered + (Draining(OwnerPc(run[i])) + run[i].sh.queue)
    ensures run[i].sh.delivered <= run[i].sh.signalled
    ensures !InDrainPhase(OwnerPc(run[i])) ==> (TransferCompleted in run[i].sh.flags <==> run[i].sh.queue != [])
  {
    InvRun(run, acts, i);
  }

  /** Unless EVENT_SOURCES_MODIFIED is set, the cached poll array is the list of event
      sources in order, the internal event first; and nothing removed waits to be freed. */
  lemma PollArrayIsCurrent(run: seq<State>, acts: seq<Action>, i: nat)
    requires IsRun(run, acts) && i < |run|
    ensures |run[i].sh.sources| > 0 && run[i].sh.sources[0] == EVENT_FD
    ensures SourcesModified !in run[i].sh.flags ==>
              run[i].sh.pollfds == Some(run[i].sh.sources) && run[i].sh.removed == []
  {
    InvRun(run, acts, i);
  }

  /** At most one thread handles events, and the unprotected event_handler_active is set
      only while that thread owns events_lock. */
  lemma OneEventHandler(run: seq<State>, acts: seq<Action>, i: nat, t: Tid, u: Tid)
    requires IsRun(run, acts) && i < |run| && t in run[i].threads && u in run[i].threads
    requires HoldsEvents(run[i].Pc(t)) && HoldsEvents(run[i].Pc(u))
    ensures t == u
    ensures run[i].sh.active ==> run[i].Pc(t) != ReleaseEvents
  {
    InvRun(run, acts, i);
  }

  /** Against the documentation of libusb_wait_for_event: the return of a transfer callback
      wakes nobody.  In every run a parked thread, also one whose flag has just been set, stays
      parked until a broadcast or its own timeout or spurious wake-up; and the thread whose
      callback returned still owes a broadcast. */
  lemma CallbackWakesNobody(run: seq<State>, acts: seq<Action>, i: nat, w: Tid)
    requires IsRun(run, acts) && i < |acts| && w in run[i].threads && run[i].Pc(w) == Parked
    ensures w in run[i + 1].threads
    ensures run[i + 1].Pc(w) == Parked <==> !acts[i].Broadcast? && acts[i] != Act(w, TimedOutOrSpurious)
    ensures acts[i].Act? && acts[i].move.ReturnCallback? ==> Debtor(run[i + 1], acts[i].t)
  {
    hide Inv, NextShared, Posted;
    InvRun(run, acts, i);
    if acts[i].Act? && acts[i].move.ReturnCallback? {
      ReturnOwes(run[i], acts[i].t, acts[i].move.completes);
    }
    if acts[i].Act? && acts[i].t == w {
      ParkedMoves(run[i].sh, run[i].threads[w], acts[i].move);
    }
  }

  lemma ParkedMoves(sh: Shared, th: Thread, m: Move)
    requires CanMove(sh, th, m) && th.pc == Parked
    ensures m == TimedOutOrSpurious && NextPc(sh, th, m) == Woken
  {
  }

  lemma ReturnOwes(s: State, t: Tid, c: Option<Cell>)
    requires Inv(s) && Enabled(s, Act(t, ReturnCallback(c)))
    ensures Debtor(Apply(s, Act(t, ReturnCallback(c))), t)
  {
    hide LocksMatch, PipeMatches, ClosersCounted, BroadcastOwed, WaitsAreFresh, QueueMatches, PollArrayMatches;
  }

  // ----- A thread that sleeps on -----

  lemma Extend(run: seq<State>, acts: seq<Action>, a: Action)
    returns (run': seq<State>, acts': seq<Action>)
    requires IsRun(run, acts) && Enabled(run[|acts|], a)
    ensures IsRun(run', acts') && acts' == acts + [a]
    ensures run'[|acts'|] == Apply(run[|acts|], a)
  {
    run', acts' := run + [Apply(run[|acts|], a)], acts + [a];
    forall i | 0 <= i < |acts'|
      ensures Enabled(run'[i], acts'[i]) && run'[i + 1] == Apply(run'[i], acts'[i])
    {
      if i < |acts| {
        assert acts'[i] == acts[i] && run'[i] == run[i] && run'[i + 1] == run[i + 1];
      }
    }
  }

  /** One move of thread t, from th with the shared fields sh to th' with sh'; base are the
      other threads. */
  lemma Then(run: seq<State>, acts: seq<Action>, base: map<Tid, Thread>, t: Tid, sh: Shared, th: Thread,
             m: Move, sh': Shared, th': Thread)
    returns (run': seq<State>, acts': seq<Action>)
    requires IsRun(run, acts) && run[|acts|] == State(sh, base[t := th])
    requires CanMove(sh, th, m) && NextShared(sh, t, th, m) == sh' && NextThread(sh, th, m) == th'
    ensures IsRun(run', acts') && acts' == acts + [Act(t, m)] && run'[|acts'|] == State(sh', base[t := th'])
  {
    hide CanMove, NextShared, NextThread, IsRun;
    run', acts' := Extend(run, acts, Act(t, m));
    assert base[t := th][t := th'] == base[t := th'];
  }

  const QUIET := Thread(Idle, None, false)

  /** The state in which thread 0 polls and nothing has happened. */
  const POLLED := Shared({}, 0, 0, Some(0), true, None, 0, [], [], [], [EVENT_FD], [], Some([EVENT_FD]), {})

  function At(pc: Pc): Thread {
    Thread(pc, None, false)
  }

  function For(pc: Pc): Thread {
    Thread(pc, Some(7), false)
  }

  lemma HandlerPolls() returns (run: seq<State>, acts: seq<Action>)
    ensures IsRun(run, acts) && run[|acts|] == State(POLLED, map[0 := At(Polling), 1 := QUIET])
  {
    hide IsRun;
    var sh := Shared({SourcesModified}, 1, 0, None, false, None, 0, [], [], [], [EVENT_FD], [], None, {});
    var base := map[0 := QUIET, 1 := QUIET];
    run, acts := FirstState(sh, base);
    assert base[0 := QUIET] == base;
    run, acts := Then(run, acts, base, 0, sh, QUIET, CallHandleEvents(None), sh, At(ReadDeviceClose));
    run, acts := Then(run, acts, base, 0, sh, At(ReadDeviceClose), DoReadDeviceClose, sh, At(TryEvents));
    var sh1 := sh.(owner := Some(0));
    run, acts := Then(run, acts, base, 0, sh, At(TryEvents), DoTryEvents, sh1, At(MarkActive(Handle)));
    var sh2 := sh1.(active := true);
    run, acts := Then(run, acts, base, 0, sh1, At(MarkActive(Handle)), DoMarkActive, sh2, At(TestCompleted));
    run, acts := Then(run, acts, base, 0, sh2, At(TestCompleted), DoTestCompleted, sh2, At(Prepare));
    run, acts := Then(run, acts, base, 0, sh2, At(Prepare), DoPrepare(true), POLLED, At(Polling));
    assert base[0 := At(Polling)] == map[0 := At(Polling), 1 := QUIET];
  }

  lemma FirstState(sh: Shared, threads: map<Tid, Thread>) returns (run: seq<State>, acts: seq<Action>)
    requires Init(State(sh, threads))
    ensures IsRun(run, acts) && run[|acts|] == State(sh, threads)
  {
    run, acts := [State(sh, threads)], [];
  }

  /** Thread t finds the events lock taken. */
  lemma WaiterTurnsAway(run: seq<State>, acts: seq<Action>, base: map<Tid, Thread>, t: Tid, sh: Shared)
    returns (run': seq<State>, acts': seq<Action>)
    requires IsRun(run, acts) && run[|acts|] == State(sh, base[t := QUIET])
    requires sh.owner.Some? && sh.deviceClose == 0
    ensures IsRun(run', acts')
    ensures run'[|acts'|] == State(sh, base[t := For(WantWaiters)])
  {
    hide IsRun;
    run', acts' := Then(run, acts, base, t, sh, QUIET, CallHandleEvents(Some(7)), sh, For(ReadDeviceClose));
    run', acts' := Then(run', acts', base, t, sh, For(ReadDeviceClose), DoReadDeviceClose, sh, For(TryEvents));
    run', acts' := Then(run', acts', base, t, sh, For(TryEvents), DoTryEvents, sh, For(WantWaiters));
  }

  /** And it goes to sleep for its flag, under event_waiters_lock. */
  lemma WaiterParks(run: seq<State>, acts: seq<Action>, base: map<Tid, Thread>, t: Tid, sh: Shared)
    returns (run': seq<State>, acts': seq<Action>)
    requires IsRun(run, acts) && run[|acts|] == State(sh, base[t := For(WantWaiters)])
    requires sh.waitersOwner.None? && sh.active && 7 !in sh.done && sh.deviceClose == 0
    ensures IsRun(run', acts')
    ensures run'[|acts'|] == State(sh, base[t := For(Parked)])
  {
    hide IsRun;
    var held := sh.(waitersOwner := Some(t));
    run', acts' := Then(run, acts, base, t, sh, For(WantWaiters), GetWaiters, held, For(WaiterTest));
    run', acts' := Then(run', acts', base, t, held, For(WaiterTest), DoWaiterTest, held, For(WaiterReadClose));
    run', acts' := Then(run', acts', base, t, held, For(WaiterReadClose), DoWaiterReadClose,
                        held, For(WaiterReadActive));
    run', acts' := Then(run', acts', base, t, held, For(WaiterReadActive), DoWaiterReadActive, held, For(WillPark));
    run', acts' := Then(run', acts', base, t, held, For(WillPark), DoPark, sh, For(Parked));
  }

  /** The polling thread t calls a callback, which sets the flag. */
  lemma CallbackSets(run: seq<State>, acts: seq<Action>, base: map<Tid, Thread>, t: Tid, sh: Shared)
    returns (run': seq<State>, acts': seq<Action>)
    requires IsRun(run, acts) && run[|acts|] == State(sh, base[t := At(Polling)])
    requires sh.pipe == 0 && sh.waitersOwner.None?
    ensures IsRun(run', acts') && acts' != [] && acts'[|acts'| - 1] == Act(t, ReturnCallback(Some(7)))
    ensures run'[|acts'|] == State(sh.(done := sh.done + {7}), base[t := At(Backend)])
  {
    hide IsRun;
    var held := sh.(waitersOwner := Some(t));
    run', acts' := Then(run, acts, base, t, sh, At(Polling), PollReady(true), sh, At(Backend));
    run', acts' := Then(run', acts', base, t, sh, At(Backend), BackendCallback, sh, At(WantCallback(InBackend)));
    run', acts' := Then(run', acts', base, t, sh, At(WantCallback(InBackend)), EnterCallback,
                        held, At(InCallback(InBackend)));
    run', acts' := Then(run', acts', base, t, held, At(InCallback(InBackend)), ReturnCallback(Some(7)),
                        sh.(done := sh.done + {7}), At(Backend));
  }

  /** There is a run in which a callback sets the flag that another thread waits for, and that
      thread sleeps on. */
  lemma SleepsOnWithItsFlagSet() returns (run: seq<State>, acts: seq<Action>)
    ensures IsRun(run, acts) && acts != [] && acts[|acts| - 1] == Act(0, ReturnCallback(Some(7)))
    ensures 1 in run[|acts|].threads && run[|acts|].Pc(1) == Parked
    ensures CellDone(run[|acts|].sh, run[|acts|].threads[1])
  {
    hide IsRun;
    var base: map<Tid, Thread> := map[0 := At(Polling)];
    run, acts := HandlerPolls();
    assert base[1 := QUIET] == map[0 := At(Polling), 1 := QUIET];
    run, acts := WaiterTurnsAway(run, acts, base, 1, POLLED);
    run, acts := WaiterParks(run, acts, base, 1, POLLED);
    base := map[1 := For(Parked)];
    assert base[0 := At(Polling)] == map[0 := At(Polling)][1 := For(Parked)];
    run, acts := CallbackSets(run, acts, base, 0, POLLED);
  }
}
