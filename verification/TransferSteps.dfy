/** What a thread may do to a transfer at each point, and what the locks keep it from doing. */
module TransferSteps {
  import opened Wrappers
  import opened TransferProtocol
  import opened TransferProofs

  // ----- What a thread may do -----

  /** The thread waits for a lock that is held: the flying list's, or that of its transfer. */
  predicate WaitsForLock(ctx: Ctx, r: Rec, pc: Pc) {
    || (pc in {SStart, SFailed, TStart, HFlag, HRemove, DStart} && ctx.flyingOwner.Some?)
    || (pc in {SFlying, HClear, DTest, DFound, TCancel} && r.lock.Some?)
  }

  /** At every point of every run a thread can go on unless it waits for a lock that is held. */
  lemma ThreadsGoOn(run: seq<State>, who: seq<Tid>, choices: seq<Choice>, i: nat, t: Tid)
    requires IsRun(run, who, choices) && i < |run| && t in run[i].threads
    ensures run[i].threads[t].x in run[i].recs
    ensures var th := run[i].threads[t];
            (exists c :: Enabled(run[i], t, c)) <==> !WaitsForLock(run[i].ctx, run[i].recs[th.x], th.pc)
  {
    hide CanStep, WaitsForLock, RolesMatch, IsRun;
    InvRun(run, who, choices, i);
    RolesAt(run[i], t);
    var s := run[i];
    var th := s.threads[t];
    if !WaitsForLock(s.ctx, s.recs[th.x], th.pc) {
      GoesOn(s.ctx, s.recs[th.x], th);
      assert Enabled(s, t, NextChoice(th.pc));
    }
    forall c | Enabled(s, t, c) ensures !WaitsForLock(s.ctx, s.recs[th.x], th.pc) {
      Blocked(s.ctx, s.recs[Target(th, c)], s.recs[th.x], th, c);
    }
  }

  lemma RolesAt(s: State, t: Tid)
    requires RolesMatch(s) && t in s.threads
    ensures s.threads[t].x in s.recs
  {
  }

  lemma GoesOn(ctx: Ctx, r: Rec, th: Thread)
    requires !WaitsForLock(ctx, r, th.pc)
    ensures CanStep(ctx, r, th, NextChoice(th.pc)) && Target(th, NextChoice(th.pc)) == th.x
  {
  }

  lemma Blocked(ctx: Ctx, r: Rec, own: Rec, th: Thread, c: Choice)
    requires CanStep(ctx, r, th, c) && (Target(th, c) == th.x ==> r == own)
    ensures !WaitsForLock(ctx, own, th.pc)
  {
  }

  /** A choice for every thread that does not wait for a lock. */
  function NextChoice(pc: Pc): Choice {
    match pc
    case Idle => CallTimeouts
    case SBackend => Submitted(true)
    case TScan => Leave
    case TCancel => CancelOutcome(false, false)
    case HIdle => StopHandling
    case DScan => Leave
    case _ => Go
  }

  /** The calls of the application, and when they may be made. */
  lemma CallsAreMade(s: State, t: Tid, x: Xid, ok: bool, marks: bool)
    requires t in s.threads && x in s.recs && s.threads[t].x in s.recs
    ensures var pc, r := s.threads[t].pc, s.recs[x];
            && (Enabled(s, t, CallSubmit(x)) <==> pc == Idle && r.submitter == None)
            && (Enabled(s, t, CallCancel(x, ok, marks)) <==> pc == Idle && r.lock == None)
            && (Enabled(s, t, CallTimeouts) <==> pc == Idle)
            && (Enabled(s, t, BecomeHandler) <==> pc == Idle && s.ctx.handler == None)
            && (Enabled(s, t, StopHandling) <==> pc == HIdle)
            && (Enabled(s, t, StartDisconnect) <==> pc == HIdle)
  {
  }

  /** What the backend may answer and bring, and which transfers a walk over the list meets. */
  lemma AnswersAre(s: State, t: Tid, x: Xid, ok: bool, marks: bool, code: int)
    requires t in s.threads && x in s.recs && s.threads[t].x in s.recs
    ensures var pc, r := s.threads[t].pc, s.recs[x];
            && (Enabled(s, t, ReapLast(x, code)) <==> pc == HIdle && r.lock == None && r.backend.Pending?)
            && (Enabled(s, t, Pick(x))
                <==> s.ctx.flying[x] > 0 && (pc == DScan || (pc == TScan && !r.handled)))
            && (Enabled(s, t, Submitted(ok)) <==> pc == SBackend)
            && (Enabled(s, t, CancelOutcome(ok, marks)) <==> pc == TCancel && s.recs[s.threads[t].x].lock == None)
  {
  }

  // ----- What the locks keep apart -----

  /** While a thread holds the lock of a transfer, no other one changes what the lock protects. */
  lemma LockExcludes(run: seq<State>, who: seq<Tid>, choices: seq<Choice>, i: nat, x: Xid, u: Tid)
    requires IsRun(run, who, choices) && i < |who| && x in run[i].recs
    requires run[i].recs[x].lock == Some(u) && who[i] != u
    ensures x in run[i + 1].recs
    ensures var r, next := run[i].recs[x], run[i + 1].recs[x];
            && next.lock == Some(u) && next.inFlight == r.inFlight && next.cancelling == r.cancelling
            && next.backend == r.backend && next.cancels == r.cancels && next.maker == r.maker
            && next.successes == r.successes
  {
    hide NextCtx, NextThread;
    InvRun(run, who, choices, i);
    var s, t := run[i], who[i];
    assert run[i + 1] == Apply(s, t, choices[i]);
    if Target(s.threads[t], choices[i]) == x {
      OtherHolds(s, t, choices[i], x, u);
      LockedMove(s.ctx, s.recs[x], t, s.threads[t], choices[i], u);
    }
  }

  lemma OtherHolds(s: State, t: Tid, c: Choice, x: Xid, u: Tid)
    requires Enabled(s, t, c) && RolesMatch(s) && x == Target(s.threads[t], c) && s.recs[x].lock == Some(u) && t != u
    ensures s.threads[t].pc != SBackend
  {
  }

  lemma LockedMove(ctx: Ctx, r: Rec, t: Tid, th: Thread, c: Choice, u: Tid)
    requires CanStep(ctx, r, th, c) && r.lock == Some(u) && t != u && th.pc != SBackend
    ensures var next := NextRec(t, r, th, c);
            && next.lock == Some(u) && next.inFlight == r.inFlight && next.cancelling == r.cancelling
            && next.backend == r.backend && next.cancels == r.cancels && next.maker == r.maker
            && next.successes == r.successes
  {
  }

  /** While a thread holds flying_transfers_lock, no other one changes the list, or whether a
      timeout has been dealt with. */
  lemma ListExcludes(run: seq<State>, who: seq<Tid>, choices: seq<Choice>, i: nat, u: Tid)
    requires IsRun(run, who, choices) && i < |who| && run[i].ctx.flyingOwner == Some(u) && who[i] != u
    ensures run[i + 1].ctx.flyingOwner == Some(u) && run[i + 1].ctx.flying == run[i].ctx.flying
    ensures forall x :: x in run[i].recs ==>
              x in run[i + 1].recs && run[i + 1].recs[x].handled == run[i].recs[x].handled
              && run[i + 1].recs[x].timedOut == run[i].recs[x].timedOut
  {
    hide NextThread;
    InvRun(run, who, choices, i);
    var s, t := run[i], who[i];
    assert run[i + 1] == Apply(s, t, choices[i]);
    var th := s.threads[t];
    NotInList(s, t);
    ListedMove(s.ctx, s.recs[Target(th, choices[i])], t, th, choices[i], u);
  }

  lemma NotInList(s: State, t: Tid)
    requires RolesMatch(s) && t in s.threads && s.ctx.flyingOwner != Some(t)
    ensures !HoldsFlying(s.threads[t].pc)
  {
  }

  lemma ListedMove(ctx: Ctx, r: Rec, t: Tid, th: Thread, c: Choice, u: Tid)
    requires CanStep(ctx, r, th, c) && ctx.flyingOwner == Some(u) && !HoldsFlying(th.pc)
    ensures NextCtx(ctx, t, r, th, c).flyingOwner == Some(u) && NextCtx(ctx, t, r, th, c).flying == ctx.flying
    ensures NextRec(t, r, th, c).handled == r.handled && NextRec(t, r, th, c).timedOut == r.timedOut
  {
  }

  // ----- Timeouts -----

  /** Step k is the one at which a submission of x resets the transfer. */
  predicate Resets(s: State, t: Tid, c: Choice, x: Xid) {
    t in s.threads && s.threads[t].pc == SFlying && s.threads[t].x == x
  }

  lemma HandledMove(ctx: Ctx, r: Rec, t: Tid, th: Thread, c: Choice)
    requires CanStep(ctx, r, th, c) && r.handled && th.pc != SFlying
    ensures NextRec(t, r, th, c).handled
  {
  }

  /** Once picked for its timeout, a transfer stays marked until it is submitted again. */
  lemma {:induction false} StaysHandled(run: seq<State>, who: seq<Tid>, choices: seq<Choice>, i: nat, j: nat, x: Xid)
    requires IsRun(run, who, choices) && i < j < |run| && choices[i] == Pick(x)
    requires run[i].threads[who[i]].pc == TScan
    requires forall k :: i < k < j ==> !Resets(run[k], who[k], choices[k], x)
    ensures x in run[j].recs && run[j].recs[x].handled
  {
    hide NextCtx, NextThread, CanStep, NextRec, NextPc;
    var s, t, c := run[j - 1], who[j - 1], choices[j - 1];
    assert run[j] == Apply(s, t, c);
    if j == i + 1 {
      PickMarks(s.ctx, s.recs[x], t, s.threads[t], x);
    } else {
      StaysHandled(run, who, choices, i, j - 1, x);
      if Target(s.threads[t], c) == x && s.threads[t].pc != SFlying {
        HandledMove(s.ctx, s.recs[x], t, s.threads[t], c);
      } else if Target(s.threads[t], c) == x {
        FlyingTargets(s.ctx, s.recs[x], s.threads[t], c);
      }
    }
  }

  lemma PickMarks(ctx: Ctx, r: Rec, t: Tid, th: Thread, x: Xid)
    requires CanStep(ctx, r, th, Pick(x)) && th.pc == TScan
    ensures NextRec(t, r, th, Pick(x)).handled
  {
  }

  lemma FlyingTargets(ctx: Ctx, r: Rec, th: Thread, c: Choice)
    requires CanStep(ctx, r, th, c) && th.pc == SFlying
    ensures Target(th, c) == th.x
  {
  }

  /** The timeouts deal with a transfer that is on the flying list, and at most once between two
      submissions of it. */
  lemma TimesOutOnce(run: seq<State>, who: seq<Tid>, choices: seq<Choice>, i: nat, j: nat, x: Xid)
    requires IsRun(run, who, choices) && i < j < |who| && choices[i] == Pick(x) && choices[j] == Pick(x)
    requires run[i].threads[who[i]].pc == TScan && who[j] in run[j].threads && run[j].threads[who[j]].pc == TScan
    ensures run[j].ctx.flying[x] > 0
    ensures exists k :: i < k < j && Resets(run[k], who[k], choices[k], x)
  {
    hide NextCtx, NextThread, NextRec, NextPc;
    assert Enabled(run[j], who[j], choices[j]);
    if forall k :: i < k < j ==> !Resets(run[k], who[k], choices[k], x) {
      StaysHandled(run, who, choices, i, j, x);
    }
  }

  // ----- Walks over the flying list -----

  lemma {:induction false} ThreadStays(run: seq<State>, who: seq<Tid>, choices: seq<Choice>, i: nat, j: nat, t: Tid)
    requires IsRun(run, who, choices) && i <= j < |run| && t in run[i].threads
    requires forall n :: i <= n < j ==> who[n] != t
    ensures t in run[j].threads && run[j].threads[t] == run[i].threads[t]
  {
    hide CanStep, NextRec, NextCtx, NextThread;
    if i < j {
      ThreadStays(run, who, choices, i, j - 1, t);
      assert run[j] == Apply(run[j - 1], who[j - 1], choices[j - 1]);
    }
  }

  lemma PickLeads(r: Rec, th: Thread, ctx: Ctx, c: Choice)
    requires CanStep(ctx, r, th, c)
    ensures NextPc(r, th, c) in {TCancel, DTest} <==> c.Pick?
    ensures NextPc(r, th, c) == TMark <==> c.CancelOutcome?
  {
  }

  /** A timeout cancels, and a disconnect looks at, the transfer that its step k before has
      picked from the list. */
  lemma PicksFirst(run: seq<State>, who: seq<Tid>, choices: seq<Choice>, k: nat, i: nat, t: Tid)
    requires IsRun(run, who, choices) && k < i < |run| && who[k] == t && t in run[i].threads
    requires forall n :: k < n < i ==> who[n] != t
    ensures run[i].threads[t].pc in {TCancel, DTest} <==> choices[k].Pick?
    ensures choices[k].Pick? ==> run[i].threads[t].x == choices[k].target
    ensures run[i].threads[t].pc == TMark <==> choices[k].CancelOutcome?
  {
    hide CanStep, NextPc, NextRec, NextCtx, NextThread;
    var s, c := run[k], choices[k];
    assert Enabled(s, t, c) && run[k + 1] == Apply(s, t, c);
    var r := s.recs[Target(s.threads[t], c)];
    ThreadStays(run, who, choices, k + 1, i, t);
    PickLeads(r, s.threads[t], s.ctx, c);
    NextIs(r, s.threads[t], c);
  }

  // ----- What the record of a transfer tells of the past -----

  /** What can happen to a transfer: its cancel is asked for while it is in flight; the backend
      agrees to the first such cancel, of the user or a timeout, and marks its requests or not;
      its timeout is picked. */
  datatype Kind = CancelAsked | UserCancelled | TimeoutCancelled | RequestsMarked | TimeoutPicked

  /** A cancel of x, by the user or by a timeout. */
  predicate Cancels(s: State, t: Tid, c: Choice, x: Xid) {
    && t in s.threads && x in s.recs
    && ((c.CallCancel? && c.target == x) || (c.CancelOutcome? && s.threads[t].x == x))
  }

  predicate Is(kind: Kind, s: State, t: Tid, c: Choice, x: Xid) {
    match kind
    case CancelAsked => Cancels(s, t, c, x) && s.recs[x].inFlight
    case UserCancelled => Agreed(s, t, c, x) && c.CallCancel?
    case TimeoutCancelled => Agreed(s, t, c, x) && c.CancelOutcome?
    case RequestsMarked => Agreed(s, t, c, x) && c.marks
    case TimeoutPicked => c == Pick(x) && t in s.threads && s.threads[t].pc == TScan
  }

  /** The backend agrees to the first cancel of the requests it holds. */
  predicate Agreed(s: State, t: Tid, c: Choice, x: Xid) {
    Cancels(s, t, c, x) && s.recs[x].inFlight && !s.recs[x].cancelling && s.recs[x].backend != Quiet && c.ok
  }

  /** A submission of x that is not in flight begins. */
  predicate Begins(s: State, t: Tid, x: Xid) {
    t in s.threads && s.threads[t].pc == SFlying && s.threads[t].x == x && x in s.recs && !s.recs[x].inFlight
  }

  /** This has happened to x among the first i steps, and no submission of it has begun since. */
  ghost predicate Happened(run: seq<State>, who: seq<Tid>, choices: seq<Choice>, i: nat, x: Xid, kind: Kind)
    requires i <= |who| && |run| == |who| + 1 && |choices| == |who|
  {
    exists k :: 0 <= k < i && Is(kind, run[k], who[k], choices[k], x) && NoneBegins(run, who, k + 1, i, x)
  }

  ghost predicate NoneBegins(run: seq<State>, who: seq<Tid>, from: nat, i: nat, x: Xid)
    requires i <= |who| && |run| == |who| + 1
  {
    forall m :: from <= m < i ==> !Begins(run[m], who[m], x)
  }

  lemma HappenedMore(run: seq<State>, who: seq<Tid>, choices: seq<Choice>, i: nat, x: Xid, kind: Kind)
    requires i < |who| && |run| == |who| + 1 && |choices| == |who|
    requires Is(kind, run[i], who[i], choices[i], x) ==> !Begins(run[i], who[i], x)
    ensures Happened(run, who, choices, i + 1, x, kind)
            <==> Is(kind, run[i], who[i], choices[i], x)
                 || (Happened(run, who, choices, i, x, kind) && !Begins(run[i], who[i], x))
  {
    hide Is, Begins;
    if Is(kind, run[i], who[i], choices[i], x) {
      assert NoneBegins(run, who, i + 1, i + 1, x);
    } else if Happened(run, who, choices, i, x, kind) && !Begins(run[i], who[i], x) {
      var k :| 0 <= k < i && Is(kind, run[k], who[k], choices[k], x) && NoneBegins(run, who, k + 1, i, x);
      assert NoneBegins(run, who, k + 1, i + 1, x);
    }
  }

  lemma RecOf(s: State, t: Tid, c: Choice, x: Xid)
    requires Enabled(s, t, c) && x == Target(s.threads[t], c)
    ensures x in Apply(s, t, c).recs && Apply(s, t, c).recs[x] == NextRec(t, s.recs[x], s.threads[t], c)
  {
    hide NextRec, NextCtx, NextThread, CanStep;
  }

  /** How a step changes what a cancel and a timeout leave in the record. */
  lemma RecMoves(s: State, t: Tid, c: Choice, x: Xid)
    requires Enabled(s, t, c) && x == Target(s.threads[t], c) && !Begins(s, t, x)
    ensures var r, n := s.recs[x], NextRec(t, s.recs[x], s.threads[t], c);
            && (n.cancelling <==> r.cancelling || Is(CancelAsked, s, t, c, x))
            && n.cancels == r.cancels + (if Is(CancelAsked, s, t, c, x) && !r.cancelling then 1 else 0)
  {
  }

  lemma HandledMoves(s: State, t: Tid, c: Choice, x: Xid)
    requires Enabled(s, t, c) && x == Target(s.threads[t], c) && !Begins(s, t, x)
    ensures var r, n := s.recs[x], NextRec(t, s.recs[x], s.threads[t], c);
            n.handled <==> r.handled || Is(TimeoutPicked, s, t, c, x)
  {
  }

  /** A submission begins with a clean record. */
  lemma CleanStart(s: State, t: Tid, c: Choice, x: Xid)
    requires Enabled(s, t, c) && x == Target(s.threads[t], c) && Begins(s, t, x)
    ensures var n := NextRec(t, s.recs[x], s.threads[t], c);
            !n.cancelling && n.cancels == 0 && n.maker == None && !n.handled && n.backend == s.recs[x].backend
  {
  }

  lemma MakerMoves(s: State, t: Tid, c: Choice, x: Xid)
    requires Enabled(s, t, c) && x == Target(s.threads[t], c) && !Begins(s, t, x)
    ensures var r, n := s.recs[x], NextRec(t, s.recs[x], s.threads[t], c);
            n.maker == (if Is(UserCancelled, s, t, c, x) then Some(User)
                        else if Is(TimeoutCancelled, s, t, c, x) then Some(Timeout)
                        else r.maker)
  {
  }

  lemma BackendMoves(s: State, t: Tid, c: Choice, x: Xid)
    requires Enabled(s, t, c) && x == Target(s.threads[t], c) && !Begins(s, t, x)
    requires s.threads[t].pc == SBackend ==> s.recs[x].backend == Quiet
    ensures var r, n := s.recs[x], NextRec(t, s.recs[x], s.threads[t], c);
            if s.threads[t].pc == SBackend then n.backend != Pending(true) && !Is(RequestsMarked, s, t, c, x)
            else
              && (n.backend != Quiet ==> r.backend != Quiet)
              && (n.backend == Pending(true)
                  <==> n.backend != Quiet && (r.backend == Pending(true) || Is(RequestsMarked, s, t, c, x)))
  {
  }

  lemma ElsewhereSame(s: State, t: Tid, c: Choice, x: Xid, kind: Kind)
    requires Enabled(s, t, c) && x in s.recs && x != Target(s.threads[t], c)
    ensures x in Apply(s, t, c).recs && Apply(s, t, c).recs[x] == s.recs[x]
    ensures !Begins(s, t, x) && !Is(kind, s, t, c, x)
  {
  }

  lemma BeginsAlone(s: State, t: Tid, c: Choice, x: Xid, kind: Kind)
    requires Enabled(s, t, c) && Begins(s, t, x)
    ensures !Is(kind, s, t, c, x)
  {
  }

  /** The record of a transfer after the first i steps. */
  ghost predicate Tells(run: seq<State>, who: seq<Tid>, choices: seq<Choice>, i: nat, x: Xid)
    requires i <= |who| && |run| == |who| + 1 && |choices| == |who|
  {
    && x in run[i].recs
    && var r := run[i].recs[x];
       && (r.cancelling <==> Happened(run, who, choices, i, x, CancelAsked))
       && r.cancels == (if Happened(run, who, choices, i, x, CancelAsked) then 1 else 0)
       && (r.maker == Some(User) <==> Happened(run, who, choices, i, x, UserCancelled))
       && (r.maker == Some(Timeout) <==> Happened(run, who, choices, i, x, TimeoutCancelled))
       && (r.handled <==> Happened(run, who, choices, i, x, TimeoutPicked))
       && (r.backend == Pending(true) <==> r.backend != Quiet && Happened(run, who, choices, i, x, RequestsMarked))
  }

  /** Between the beginning of a submission and its end nobody has asked for a cancel. */
  ghost predicate WindowClean(s: State, x: Xid) {
    x in s.recs && (InWindow(Role(s.threads, s.recs[x].submitter)) ==> !s.recs[x].cancelling && s.recs[x].maker == None)
  }

  lemma SubmitterMoves(ctx: Ctx, r: Rec, t: Tid, th: Thread, c: Choice)
    requires CanStep(ctx, r, th, c) && (InWindow(th) ==> !r.cancelling && r.maker == None && !r.inFlight)
    ensures var n := NextRec(t, r, th, c);
            InWindow(NextThread(r, th, c)) ==> !n.cancelling && n.maker == None
  {
  }

  lemma OthersMove(ctx: Ctx, r: Rec, t: Tid, th: Thread, c: Choice)
    requires CanStep(ctx, r, th, c) && !r.inFlight && !Submitting(th.pc)
    ensures var n := NextRec(t, r, th, c);
            n.cancelling == r.cancelling && n.maker == r.maker
    ensures NextRec(t, r, th, c).submitter == if c.CallSubmit? then Some(t) else r.submitter
    ensures c.CallSubmit? ==> r.submitter == None && !InWindow(NextThread(r, th, c))
  {
  }

  lemma SubmitterRole(s: State, t: Tid, x: Xid)
    requires Inv(s) && x in s.recs && t in s.threads
    ensures s.recs[x].submitter == Some(t) ==> s.threads[t].x == x && Submitting(s.threads[t].pc)
    ensures s.recs[x].submitter.Some? ==> s.recs[x].submitter.value in s.threads
    ensures s.threads[t].x == x ==> (Submitting(s.threads[t].pc) <==> s.recs[x].submitter == Some(t))
    ensures InWindow(Role(s.threads, s.recs[x].submitter)) ==> !s.recs[x].inFlight && s.recs[x].backend == Quiet
  {
    assert XView(s, x);
  }

  lemma WindowMove(s: State, t: Tid, c: Choice, x: Xid)
    requires Enabled(s, t, c) && Inv(s) && WindowClean(s, x)
    ensures WindowClean(Apply(s, t, c), x)
  {
    hide XView, RolesMatch, NextRec, NextPc, NextCtx, NextThread, CanStep, InWindow;
    var th, r, u := s.threads[t], s.recs[x], s.recs[x].submitter;
    SubmitterRole(s, t, x);
    if x != Target(th, c) {
      if u == Some(t) {
        RetargetMove(s.ctx, s.recs[Target(th, c)], th, c);
      }
    } else {
      RecOf(s, t, c, x);
      if u == Some(t) {
        SubmitterMoves(s.ctx, r, t, th, c);
        SubmitterMove(s.ctx, r, t, th, c);
        OutOfWindow(NextThread(r, th, c));
      } else if Submitting(th.pc) {
        SubmitsOwn(th, c, s.ctx, r);
      } else if !InWindow(Role(s.threads, u)) {
        NotInWindow(s, t, c, x);
      } else {
        OthersMove(s.ctx, r, t, th, c);
      }
    }
  }

  lemma OutOfWindow(th: Thread)
    ensures InWindow(NOONE) ==> false
  {
  }

  lemma SubmitsOwn(th: Thread, c: Choice, ctx: Ctx, r: Rec)
    requires CanStep(ctx, r, th, c) && Submitting(th.pc)
    ensures Target(th, c) == th.x
  {
  }

  /** A thread that does not submit brings no transfer into its window. */
  lemma NotInWindow(s: State, t: Tid, c: Choice, x: Xid)
    requires Enabled(s, t, c) && x == Target(s.threads[t], c) && !Submitting(s.threads[t].pc)
    requires s.recs[x].submitter != Some(t) && !InWindow(Role(s.threads, s.recs[x].submitter))
    ensures var next := Apply(s, t, c);
            !InWindow(Role(next.threads, next.recs[x].submitter))
  {
    hide NextRec, NextCtx, NextThread, CanStep, InWindow;
    RecOf(s, t, c, x);
    OtherSubmitter(s.ctx, s.recs[x], t, s.threads[t], c);
    OutOfWindow(NOONE);
  }

  lemma OtherSubmitter(ctx: Ctx, r: Rec, t: Tid, th: Thread, c: Choice)
    requires CanStep(ctx, r, th, c) && !Submitting(th.pc) && r.submitter != Some(t)
    ensures var n := NextRec(t, r, th, c);
            n.submitter == r.submitter || (n.submitter == Some(t) && !InWindow(NextThread(r, th, c)))
  {
  }

  lemma {:induction false} WindowsClean(run: seq<State>, who: seq<Tid>, choices: seq<Choice>, i: nat, x: Xid)
    requires IsRun(run, who, choices) && i < |run| && x in run[0].recs
    ensures WindowClean(run[i], x)
  {
    hide Inv, CanStep, NextRec, NextCtx, NextThread, InWindow;
    if i == 0 {
      OutOfWindow(NOONE);
    } else {
      WindowsClean(run, who, choices, i - 1, x);
      InvRun(run, who, choices, i - 1);
      assert run[i] == Apply(run[i - 1], who[i - 1], choices[i - 1]);
      WindowMove(run[i - 1], who[i - 1], choices[i - 1], x);
    }
  }

  /** In every run the record of a transfer tells its past: the cancel has been asked for, and
      the backend called for it once, exactly if that happened since its submission began while
      it was in flight; who made a cancel succeed; whether its timeout was dealt with; and the
      backend brings it back as cancelled exactly if it marked its requests. */
  lemma {:induction false} RecordTells(run: seq<State>, who: seq<Tid>, choices: seq<Choice>, i: nat, x: Xid)
    requires IsRun(run, who, choices) && i < |run| && x in run[0].recs
    ensures Tells(run, who, choices, i, x)
  {
    hide Inv, CanStep, NextRec, NextPc, NextCtx, NextThread, Happened, Is, Begins, Tells;
    if i == 0 {
      NothingTold(run, who, choices, x);
    } else {
      RecordTells(run, who, choices, i - 1, x);
      InvRun(run, who, choices, i - 1);
      WindowsClean(run, who, choices, i - 1, x);
      TellsMore(run, who, choices, i - 1, x);
    }
  }

  lemma NothingTold(run: seq<State>, who: seq<Tid>, choices: seq<Choice>, x: Xid)
    requires IsRun(run, who, choices) && x in run[0].recs
    ensures Tells(run, who, choices, 0, x)
  {
    assert run[0].recs[x] == UNUSED;
  }

  lemma AllMore(run: seq<State>, who: seq<Tid>, choices: seq<Choice>, i: nat, x: Xid)
    requires IsRun(run, who, choices) && i < |who| && x in run[i].recs
    ensures forall kind ::
              Happened(run, who, choices, i + 1, x, kind)
              <==> Is(kind, run[i], who[i], choices[i], x)
                   || (Happened(run, who, choices, i, x, kind) && !Begins(run[i], who[i], x))
    ensures forall kind :: Begins(run[i], who[i], x) ==> !Is(kind, run[i], who[i], choices[i], x)
  {
    hide CanStep, Happened, Is, Begins;
    assert Enabled(run[i], who[i], choices[i]);
    forall kind
      ensures Happened(run, who, choices, i + 1, x, kind)
              <==> Is(kind, run[i], who[i], choices[i], x)
                   || (Happened(run, who, choices, i, x, kind) && !Begins(run[i], who[i], x))
      ensures Begins(run[i], who[i], x) ==> !Is(kind, run[i], who[i], choices[i], x)
    {
      if Begins(run[i], who[i], x) {
        BeginsAlone(run[i], who[i], choices[i], x, kind);
      }
      HappenedMore(run, who, choices, i, x, kind);
    }
  }

  lemma MarkedByCancel(run: seq<State>, who: seq<Tid>, choices: seq<Choice>, i: nat, x: Xid)
    requires i <= |who| && |run| == |who| + 1 && |choices| == |who|
    requires Happened(run, who, choices, i, x, RequestsMarked)
    ensures Happened(run, who, choices, i, x, UserCancelled) || Happened(run, who, choices, i, x, TimeoutCancelled)
  {
    hide Begins;
    var k :| 0 <= k < i && Is(RequestsMarked, run[k], who[k], choices[k], x) && NoneBegins(run, who, k + 1, i, x);
    assert Is(UserCancelled, run[k], who[k], choices[k], x) || Is(TimeoutCancelled, run[k], who[k], choices[k], x);
  }

  /** A transfer that is not in flight is not held by the backend, and in the window of a
      submission nobody has asked for a cancel. */
  lemma QuietUnlessInFlight(s: State, t: Tid, c: Choice, x: Xid)
    requires Enabled(s, t, c) && Inv(s) && WindowClean(s, x) && x == Target(s.threads[t], c)
    ensures Begins(s, t, x) ==> s.recs[x].backend == Quiet
    ensures s.threads[t].pc == SBackend ==> s.recs[x].backend == Quiet && s.recs[x].maker == None
  {
    SubmitterRole(s, t, x);
    assert XView(s, x);
  }

  /** A cancel that succeeds is the first one, of the user or of a timeout. */
  lemma OneMaker(s: State, t: Tid, c: Choice, x: Xid)
    requires Inv(s) && x in s.recs
    ensures Is(UserCancelled, s, t, c, x) || Is(TimeoutCancelled, s, t, c, x) ==> s.recs[x].maker == None
    ensures Is(UserCancelled, s, t, c, x) ==> !Is(TimeoutCancelled, s, t, c, x)
  {
    assert XView(s, x);
  }

  lemma TellsMore(run: seq<State>, who: seq<Tid>, choices: seq<Choice>, i: nat, x: Xid)
    requires IsRun(run, who, choices) && i < |who| && Inv(run[i]) && WindowClean(run[i], x)
    requires Tells(run, who, choices, i, x)
    ensures Tells(run, who, choices, i + 1, x)
  {
    hide Inv, CanStep, NextRec, NextPc, NextCtx, NextThread, Happened, Is, Begins, WindowClean;
    var s, t, c := run[i], who[i], choices[i];
    assert Enabled(s, t, c) && run[i + 1] == Apply(s, t, c);
    AllMore(run, who, choices, i, x);
    if x != Target(s.threads[t], c) {
      forall kind ensures !Begins(s, t, x) && !Is(kind, s, t, c, x) && x in Apply(s, t, c).recs
                          && Apply(s, t, c).recs[x] == s.recs[x] {
        ElsewhereSame(s, t, c, x, kind);
      }
    } else {
      RecOf(s, t, c, x);
      SubmitterRole(s, t, x);
      QuietUnlessInFlight(s, t, c, x);
      if Happened(run, who, choices, i, x, RequestsMarked) {
        MarkedByCancel(run, who, choices, i, x);
      }
      if Begins(s, t, x) {
        CleanStart(s, t, c, x);
      } else {
        RecMoves(s, t, c, x);
        HandledMoves(s, t, c, x);
        MakerMoves(s, t, c, x);
        OneMaker(s, t, c, x);
        BackendMoves(s, t, c, x);
      }
    }
  }
}
