/** What every run of the transfer protocol keeps, for every transfer. */
module TransferProofs {
  import opened Wrappers
  import opened TransferProtocol

  // ----- Locks and roles -----

  predicate HoldsFlying(pc: Pc) {
    pc == SFlying || pc == TScan || pc == TCancel || pc == TMark || pc == DScan || pc == DTest
  }

  predicate HoldsTransfer(pc: Pc) {
    pc == SBackend
  }

  predicate Handling(pc: Pc) {
    match pc
    case HIdle | HFlag | HRemove | HClear | HCallback | DStart | DScan | DTest | DFound => true
    case _ => false
  }

  predicate Submitting(pc: Pc) {
    pc == SStart || pc == SFlying || pc == SBackend || pc == SFailed
  }

  /** Thread t against the locks: x is the transfer it works on, r that transfer's record. */
  predicate RoleView(ctx: Ctx, r: Rec, t: Tid, th: Thread) {
    && (HoldsFlying(th.pc) <==> ctx.flyingOwner == Some(t))
    && (Handling(th.pc) <==> ctx.handler == Some(t))
    && (HoldsTransfer(th.pc) <==> r.lock == Some(t))
    && (Submitting(th.pc) <==> r.submitter == Some(t))
  }

  /** Every thread has its roles, and no transfer is locked or submitted by a thread that
      works on another one. */
  ghost predicate RolesMatch(s: State) {
    && (forall t :: t in s.threads ==>
          s.threads[t].x in s.recs && RoleView(s.ctx, s.recs[s.threads[t].x], t, s.threads[t]))
    && (forall x :: x in s.recs ==>
          Attended(s.threads, s.recs[x].lock, x) && Attended(s.threads, s.recs[x].submitter, x))
    && (s.ctx.flyingOwner.Some? ==> s.ctx.flyingOwner.value in s.threads)
    && (s.ctx.handler.Some? ==> s.ctx.handler.value in s.threads)
  }

  /** The thread that holds something of transfer x works on x. */
  predicate Attended(threads: map<Tid, Thread>, owner: Option<Tid>, x: Xid) {
    owner.Some? ==> owner.value in threads && threads[owner.value].x == x
  }

  predicate Handover(before: Option<Tid>, after: Option<Tid>, t: Tid) {
    before == after || (before == None && after == Some(t)) || (before == Some(t) && after == None)
  }

  lemma FlyingMove(ctx: Ctx, r: Rec, t: Tid, th: Thread, c: Choice)
    requires CanStep(ctx, r, th, c) && (HoldsFlying(th.pc) <==> ctx.flyingOwner == Some(t))
    ensures HoldsFlying(NextPc(r, th, c)) <==> NextCtx(ctx, t, r, th, c).flyingOwner == Some(t)
    ensures Handover(ctx.flyingOwner, NextCtx(ctx, t, r, th, c).flyingOwner, t)
  {
  }

  lemma HandlerMove(ctx: Ctx, r: Rec, t: Tid, th: Thread, c: Choice)
    requires CanStep(ctx, r, th, c) && (Handling(th.pc) <==> ctx.handler == Some(t))
    ensures Handling(NextPc(r, th, c)) <==> NextCtx(ctx, t, r, th, c).handler == Some(t)
    ensures Handover(ctx.handler, NextCtx(ctx, t, r, th, c).handler, t)
  {
  }

  /** A thread changes the transfer it works on only while it holds nothing of any. */
  lemma RetargetMove(ctx: Ctx, r: Rec, th: Thread, c: Choice)
    requires CanStep(ctx, r, th, c) && Target(th, c) != th.x
    ensures !HoldsTransfer(th.pc) && !Submitting(th.pc) && th.pc in {Idle, TScan, HIdle, DScan}
  {
  }

  lemma TransferLockMove(ctx: Ctx, r: Rec, t: Tid, th: Thread, c: Choice)
    requires CanStep(ctx, r, th, c) && (HoldsTransfer(th.pc) <==> r.lock == Some(t))
    ensures HoldsTransfer(NextPc(r, th, c)) <==> NextRec(t, r, th, c).lock == Some(t)
    ensures Handover(r.lock, NextRec(t, r, th, c).lock, t)
  {
    if th.pc != SFlying && th.pc != SBackend {
      assert NextRec(t, r, th, c).lock == r.lock;
    }
  }

  lemma SubmitterMove(ctx: Ctx, r: Rec, t: Tid, th: Thread, c: Choice)
    requires CanStep(ctx, r, th, c) && (Submitting(th.pc) <==> r.submitter == Some(t))
    ensures Submitting(NextPc(r, th, c)) <==> NextRec(t, r, th, c).submitter == Some(t)
    ensures Handover(r.submitter, NextRec(t, r, th, c).submitter, t)
  {
    if th.pc != Idle && !Submitting(th.pc) {
      assert NextRec(t, r, th, c).submitter == r.submitter;
    }
  }

  lemma NextIs(r: Rec, th: Thread, c: Choice)
    ensures NextThread(r, th, c).pc == NextPc(r, th, c) && NextThread(r, th, c).x == Target(th, c)
  {
    hide NextPc;
  }

  lemma RolesStep(s: State, t: Tid, c: Choice)
    requires Enabled(s, t, c) && RolesMatch(s)
    ensures RolesMatch(Apply(s, t, c))
  {
    hide CanStep, NextPc, NextRec, NextCtx, NextThread, HoldsFlying, HoldsTransfer, Handling, Submitting;
    var th, x := s.threads[t], Target(s.threads[t], c);
    var r := s.recs[x];
    NextIs(r, th, c);
    FlyingMove(s.ctx, r, t, th, c);
    HandlerMove(s.ctx, r, t, th, c);
    if x != th.x {
      RetargetMove(s.ctx, r, th, c);
      assert r.lock != Some(t) && r.submitter != Some(t);
    }
    TransferLockMove(s.ctx, r, t, th, c);
    SubmitterMove(s.ctx, r, t, th, c);
    RolesGlue(s, t, NextCtx(s.ctx, t, r, th, c), x, NextRec(t, r, th, c), NextThread(r, th, c));
  }

  lemma RolesGlue(s: State, t: Tid, ctx: Ctx, x: Xid, r: Rec, th: Thread)
    requires RolesMatch(s) && t in s.threads && x in s.recs && th.x == x
    requires RoleView(ctx, r, t, th)
    requires Handover(s.ctx.flyingOwner, ctx.flyingOwner, t) && Handover(s.ctx.handler, ctx.handler, t)
    requires Handover(s.recs[x].lock, r.lock, t) && Handover(s.recs[x].submitter, r.submitter, t)
    requires x != s.threads[t].x ==> !HoldsTransfer(s.threads[t].pc) && !Submitting(s.threads[t].pc)
    ensures RolesMatch(State(ctx, s.recs[x := r], s.threads[t := th]))
  {
    var s' := State(ctx, s.recs[x := r], s.threads[t := th]);
    forall u | u in s'.threads
      ensures s'.threads[u].x in s'.recs && RoleView(ctx, s'.recs[s'.threads[u].x], u, s'.threads[u])
    {
      if u != t {
        OtherRole(s, t, ctx, x, r, u);
      }
    }
    forall y | y in s'.recs
      ensures Attended(s'.threads, s'.recs[y].lock, y) && Attended(s'.threads, s'.recs[y].submitter, y)
    {
      OtherAttended(s, t, x, r, th, y);
    }
  }

  lemma OtherRole(s: State, t: Tid, ctx: Ctx, x: Xid, r: Rec, u: Tid)
    requires RolesMatch(s) && t in s.threads && x in s.recs && u in s.threads && u != t
    requires Handover(s.ctx.flyingOwner, ctx.flyingOwner, t) && Handover(s.ctx.handler, ctx.handler, t)
    requires Handover(s.recs[x].lock, r.lock, t) && Handover(s.recs[x].submitter, r.submitter, t)
    ensures s.threads[u].x in s.recs && RoleView(ctx, s.recs[x := r][s.threads[u].x], u, s.threads[u])
  {
    assert RoleView(s.ctx, s.recs[s.threads[u].x], u, s.threads[u]);
  }

  lemma OtherAttended(s: State, t: Tid, x: Xid, r: Rec, th: Thread, y: Xid)
    requires RolesMatch(s) && t in s.threads && x in s.recs && th.x == x && y in s.recs
    requires Handover(s.recs[x].lock, r.lock, t) && Handover(s.recs[x].submitter, r.submitter, t)
    requires x != s.threads[t].x ==> !HoldsTransfer(s.threads[t].pc) && !Submitting(s.threads[t].pc)
    ensures var recs, threads := s.recs[x := r], s.threads[t := th];
            Attended(threads, recs[y].lock, y) && Attended(threads, recs[y].submitter, y)
  {
    assert Attended(s.threads, s.recs[y].lock, y) && Attended(s.threads, s.recs[y].submitter, y);
    assert RoleView(s.ctx, s.recs[s.threads[t].x], t, s.threads[t]);
  }

  // ----- What holds of each transfer -----

  function B(p: bool): nat {
    if p then 1 else 0
  }

  const NOONE := Thread(Idle, 0, false, Ending(false, None, None))

  /** The thread that plays a role, or nobody. */
  function Role(threads: map<Tid, Thread>, owner: Option<Tid>): Thread {
    if owner.Some? && owner.value in threads then threads[owner.value] else NOONE
  }

  /** A submission between the insertion into the flying list and the backend's verdict, or
      after a failure and before the removal. */
  predicate InWindow(sp: Thread) {
    sp.pc == SBackend || sp.pc == SFailed
  }

  /** The handler reports transfer x and has not yet removed it from the flying list. */
  predicate BeforeRemove(hp: Thread, x: Xid) {
    hp.x == x && (hp.pc == HFlag || hp.pc == HRemove)
  }

  /** The handler reports transfer x and has not yet cleared its IN_FLIGHT flag. */
  predicate BeforeClear(hp: Thread, x: Xid) {
    hp.x == x && (hp.pc == HFlag || hp.pc == HRemove || hp.pc == HClear)
  }

  predicate BeforeCallback(hp: Thread, x: Xid) {
    hp.x == x && (hp.pc == HFlag || hp.pc == HRemove || hp.pc == HClear || hp.pc == HCallback)
  }

  /** A disconnect has picked transfer x. */
  predicate Selected(hp: Thread, x: Xid) {
    hp.x == x && hp.pc == DFound
  }

  /** The timeout path has cancelled x and not yet set its TIMED_OUT flag. */
  predicate OwesTimedOut(fp: Thread, x: Xid) {
    fp.x == x && fp.pc == TMark && fp.ok
  }

  /** A report is TIMED_OUT exactly when it is a cancellation made by the timeout path, and
      CANCELLED exactly when it is one made by the user. */
  predicate ReportOk(e: Ending) {
    && e.status.Some?
    && (e.viaCancel ==> e.maker.Some?)
    && (e.status == Some(TimedOut) <==> e.viaCancel && e.maker == Some(Timeout))
    && (e.status == Some(Cancelled) <==> e.viaCancel && e.maker == Some(User))
  }

  predicate EndingOk(hp: Thread) {
    if hp.pc == HFlag then hp.e.viaCancel && hp.e.maker.Some? else ReportOk(hp.e)
  }

  /** A transfer against its place n on the flying list and the threads that work on it:
      its submitter sp, the handler hp, the owner fp of flying_transfers_lock. */
  predicate ListView(r: Rec, n: nat, sp: Thread, hp: Thread, x: Xid) {
    && (r.inFlight <==> r.backend.Pending? || BeforeClear(hp, x))
    && !(r.backend.Pending? && BeforeClear(hp, x))
    && (InWindow(sp) ==> !r.inFlight)
    && (Selected(hp, x) ==> r.backend.Pending?)
    && n == B(r.backend.Pending?) + B(InWindow(sp)) + B(BeforeRemove(hp, x))
  }

  predicate CountView(r: Rec, hp: Thread, x: Xid) {
    && r.successes == |r.reports| + B(r.backend.Pending?) + B(BeforeCallback(hp, x))
    && r.cancels <= 1
    && (!r.cancelling ==> r.cancels == 0 && r.maker.None?)
  }

  ghost predicate CancelView(r: Rec, hp: Thread, fp: Thread, x: Xid) {
    && (r.backend == Pending(true) ==> r.maker.Some?)
    && (r.timedOut ==> r.maker == Some(Timeout))
    && (r.maker == Some(Timeout) ==> r.timedOut || OwesTimedOut(fp, x))
    && (OwesTimedOut(fp, x) ==> r.maker == Some(Timeout))
    && (BeforeClear(hp, x) && hp.e.viaCancel ==> hp.e.maker == r.maker)
    && (BeforeCallback(hp, x) ==> EndingOk(hp))
    && (forall i :: 0 <= i < |r.reports| ==> ReportOk(r.reports[i]))
  }

  /** The threads in the roles of transfer x after the step of thread t, which plays a role
      of x exactly when its program counter says so and x is its target. */
  function After(plays: bool, played: bool, th: Thread, role: Thread): Thread {
    if plays then th else if played then NOONE else role
  }

  /** A submitting thread moves. */
  lemma ListSubmit(ctx: Ctx, r: Rec, t: Tid, th: Thread, c: Choice, hp: Thread)
    requires CanStep(ctx, r, th, c) && Submitting(th.pc)
    requires ListView(r, ctx.flying[th.x], th, hp, th.x)
    ensures var th' := NextThread(r, th, c);
            ListView(NextRec(t, r, th, c), NextCtx(ctx, t, r, th, c).flying[th.x],
                     After(Submitting(th'.pc), true, th', th), hp, th.x)
  {
  }

  predicate Reporting(pc: Pc) {
    pc == HFlag || pc == HRemove || pc == HClear || pc == HCallback || pc == DFound
  }

  /** The event handler moves on with a report. */
  lemma ListReport(ctx: Ctx, r: Rec, t: Tid, th: Thread, c: Choice, sp: Thread)
    requires CanStep(ctx, r, th, c) && Reporting(th.pc)
    requires ListView(r, ctx.flying[th.x], sp, th, th.x)
    ensures ListView(NextRec(t, r, th, c), NextCtx(ctx, t, r, th, c).flying[th.x], sp, NextThread(r, th, c), th.x)
  {
    if th.pc == HRemove {
      ListRemove(ctx, r, t, th, c, sp);
    } else if th.pc == HClear {
      ListClear(ctx, r, t, th, c, sp);
    } else {
      assert NextCtx(ctx, t, r, th, c).flying == ctx.flying;
    }
  }

  lemma ListRemove(ctx: Ctx, r: Rec, t: Tid, th: Thread, c: Choice, sp: Thread)
    requires CanStep(ctx, r, th, c) && th.pc == HRemove
    requires ListView(r, ctx.flying[th.x], sp, th, th.x)
    ensures ListView(NextRec(t, r, th, c), NextCtx(ctx, t, r, th, c).flying[th.x], sp, NextThread(r, th, c), th.x)
  {
    assert (ctx.flying - multiset{th.x})[th.x] == ctx.flying[th.x] - 1;
  }

  lemma ListClear(ctx: Ctx, r: Rec, t: Tid, th: Thread, c: Choice, sp: Thread)
    requires CanStep(ctx, r, th, c) && th.pc == HClear
    requires ListView(r, ctx.flying[th.x], sp, th, th.x)
    ensures ListView(NextRec(t, r, th, c), NextCtx(ctx, t, r, th, c).flying[th.x], sp, NextThread(r, th, c), th.x)
  {
  }

  /** The event handler moves outside a report. */
  lemma ListHandle(ctx: Ctx, r: Rec, t: Tid, th: Thread, c: Choice, sp: Thread)
    requires CanStep(ctx, r, th, c) && Handling(th.pc) && !Reporting(th.pc)
    requires ListView(r, ctx.flying[Target(th, c)], sp, th, Target(th, c))
    ensures var th' := NextThread(r, th, c);
            ListView(NextRec(t, r, th, c), NextCtx(ctx, t, r, th, c).flying[Target(th, c)],
                     sp, After(Handling(th'.pc), true, th', th), Target(th, c))
  {
    assert NextCtx(ctx, t, r, th, c).flying == ctx.flying;
    assert NextRec(t, r, th, c).inFlight == r.inFlight;
  }

  /** Any other thread moves: what the list depends on stays. */
  lemma ListOther(ctx: Ctx, r: Rec, t: Tid, th: Thread, c: Choice)
    requires CanStep(ctx, r, th, c) && !Handling(th.pc) && !Submitting(th.pc)
    ensures var r' := NextRec(t, r, th, c);
            && r'.inFlight == r.inFlight && r'.backend.Pending? == r.backend.Pending?
            && NextCtx(ctx, t, r, th, c).flying == ctx.flying
    ensures Submitting(NextPc(r, th, c)) ==> NextPc(r, th, c) == SStart
    ensures Handling(NextPc(r, th, c)) ==> NextPc(r, th, c) == HIdle
  {
  }

  lemma CountHandle(ctx: Ctx, r: Rec, t: Tid, th: Thread, c: Choice, sp: Thread)
    requires CanStep(ctx, r, th, c) && Handling(th.pc) && CountView(r, th, Target(th, c))
    requires ListView(r, ctx.flying[Target(th, c)], sp, th, Target(th, c))
    ensures var th' := NextThread(r, th, c);
            CountView(NextRec(t, r, th, c), After(Handling(th'.pc), true, th', th), Target(th, c))
  {
    hide CountView, CanStep, NextRec, NextThread;
    CountHandleMove(ctx, r, t, th, c);
  }

  lemma CountHandleMove(ctx: Ctx, r: Rec, t: Tid, th: Thread, c: Choice)
    requires CanStep(ctx, r, th, c) && Handling(th.pc) && CountView(r, th, Target(th, c))
    requires Selected(th, Target(th, c)) ==> r.backend.Pending?
    ensures var th' := NextThread(r, th, c);
            CountView(NextRec(t, r, th, c), After(Handling(th'.pc), true, th', th), Target(th, c))
  {
    if th.pc == HCallback {
      CountCallback(ctx, r, t, th, c);
    } else if th.pc == HIdle {
      CountReap(ctx, r, t, th, c);
    } else {
      CountElse(ctx, r, t, th, c);
    }
  }

  lemma CountCallback(ctx: Ctx, r: Rec, t: Tid, th: Thread, c: Choice)
    requires CanStep(ctx, r, th, c) && th.pc == HCallback && CountView(r, th, Target(th, c))
    ensures CountView(NextRec(t, r, th, c), NextThread(r, th, c), Target(th, c))
  {
  }

  lemma CountReap(ctx: Ctx, r: Rec, t: Tid, th: Thread, c: Choice)
    requires CanStep(ctx, r, th, c) && th.pc == HIdle && CountView(r, th, Target(th, c))
    ensures var th' := NextThread(r, th, c);
            CountView(NextRec(t, r, th, c), After(Handling(th'.pc), true, th', th), Target(th, c))
  {
  }

  lemma CountElse(ctx: Ctx, r: Rec, t: Tid, th: Thread, c: Choice)
    requires CanStep(ctx, r, th, c) && Handling(th.pc) && CountView(r, th, Target(th, c))
    requires th.pc != HCallback && th.pc != HIdle
    requires Selected(th, Target(th, c)) ==> r.backend.Pending?
    ensures CountView(NextRec(t, r, th, c), NextThread(r, th, c), Target(th, c))
    ensures Handling(NextThread(r, th, c).pc)
  {
  }

  lemma CountOther(ctx: Ctx, r: Rec, t: Tid, th: Thread, c: Choice, sp: Thread, hp: Thread)
    requires CanStep(ctx, r, th, c) && !Handling(th.pc) && CountView(r, hp, Target(th, c))
    requires Submitting(th.pc) ==> sp == th
    requires ListView(r, ctx.flying[Target(th, c)], sp, hp, Target(th, c))
    ensures CountView(NextRec(t, r, th, c), hp, Target(th, c))
  {
  }

  // ----- Who cancelled -----

  /** The handler reads TIMED_OUT under flying_transfers_lock, so no timeout is between its
      cancel and its mark: the flag tells who cancelled. */
  lemma CancelFlag(ctx: Ctx, r: Rec, t: Tid, th: Thread, c: Choice)
    requires CanStep(ctx, r, th, c) && th.pc == HFlag && CancelView(r, th, NOONE, th.x)
    ensures CancelView(NextRec(t, r, th, c), NextThread(r, th, c), NOONE, th.x)
  {
    var th' := NextThread(r, th, c);
    assert th.e.viaCancel && th.e.maker == r.maker;
    assert r.timedOut <==> r.maker == Some(Timeout);
    match r.maker.value {
      case User => assert ReportOk(th'.e);
      case Timeout => assert ReportOk(th'.e);
    }
  }

  lemma CancelHandle(ctx: Ctx, r: Rec, t: Tid, th: Thread, c: Choice, fp: Thread)
    requires CanStep(ctx, r, th, c) && Handling(th.pc) && th.pc != HFlag
    requires CancelView(r, th, fp, Target(th, c))
    requires Selected(th, Target(th, c)) ==> r.backend.Pending?
    ensures var th' := NextThread(r, th, c);
            CancelView(NextRec(t, r, th, c), After(Handling(th'.pc), true, th', th), fp, Target(th, c))
  {
    if th.pc == HCallback {
      CancelReported(ctx, r, t, th, c, fp);
    } else if th.pc == HIdle {
      CancelReap(ctx, r, t, th, c, fp);
    } else {
      assert NextRec(t, r, th, c).reports == r.reports;
    }
  }

  lemma CancelReported(ctx: Ctx, r: Rec, t: Tid, th: Thread, c: Choice, fp: Thread)
    requires CanStep(ctx, r, th, c) && th.pc == HCallback && CancelView(r, th, fp, Target(th, c))
    ensures CancelView(NextRec(t, r, th, c), NextThread(r, th, c), fp, Target(th, c))
  {
    assert EndingOk(th);
  }

  lemma CancelReap(ctx: Ctx, r: Rec, t: Tid, th: Thread, c: Choice, fp: Thread)
    requires CanStep(ctx, r, th, c) && th.pc == HIdle && CancelView(r, th, fp, Target(th, c))
    ensures var th' := NextThread(r, th, c);
            CancelView(NextRec(t, r, th, c), After(Handling(th'.pc), true, th', th), fp, Target(th, c))
  {
    assert NextRec(t, r, th, c).reports == r.reports;
  }

  /** A timeout moves, or another holder of flying_transfers_lock. */
  lemma CancelHolder(ctx: Ctx, r: Rec, t: Tid, th: Thread, c: Choice, sp: Thread, hp: Thread)
    requires CanStep(ctx, r, th, c) && !Handling(th.pc) && HoldsFlying(th.pc)
    requires CancelView(r, hp, th, Target(th, c))
    requires Submitting(th.pc) ==> sp == th
    requires ListView(r, ctx.flying[Target(th, c)], sp, hp, Target(th, c))
    requires CountView(r, hp, Target(th, c))
    ensures var th' := NextThread(r, th, c);
            CancelView(NextRec(t, r, th, c), hp, After(HoldsFlying(th'.pc), true, th', th), Target(th, c))
  {
  }

  /** A user's cancel or a submission moves, or a thread takes flying_transfers_lock. */
  lemma CancelOutside(ctx: Ctx, r: Rec, t: Tid, th: Thread, c: Choice, sp: Thread, hp: Thread, fp: Thread)
    requires CanStep(ctx, r, th, c) && !Handling(th.pc) && !HoldsFlying(th.pc)
    requires CancelView(r, hp, fp, Target(th, c))
    requires Submitting(th.pc) ==> sp == th
    requires ListView(r, ctx.flying[Target(th, c)], sp, hp, Target(th, c))
    requires CountView(r, hp, Target(th, c))
    requires HoldsFlying(NextPc(r, th, c)) ==> fp == NOONE
    ensures var th' := NextThread(r, th, c);
            CancelView(NextRec(t, r, th, c), hp, After(HoldsFlying(th'.pc), false, th', fp), Target(th, c))
  {
  }

  lemma CancelOther(ctx: Ctx, r: Rec, t: Tid, th: Thread, c: Choice, sp: Thread, hp: Thread, fp: Thread)
    requires CanStep(ctx, r, th, c) && !Handling(th.pc) && CancelView(r, hp, fp, Target(th, c))
    requires Submitting(th.pc) ==> sp == th
    requires ListView(r, ctx.flying[Target(th, c)], sp, hp, Target(th, c))
    requires CountView(r, hp, Target(th, c))
    requires HoldsFlying(th.pc) ==> fp == th
    requires !HoldsFlying(th.pc) && HoldsFlying(NextPc(r, th, c)) ==> fp == NOONE
    ensures var th' := NextThread(r, th, c);
            CancelView(NextRec(t, r, th, c), hp, After(HoldsFlying(th'.pc), HoldsFlying(th.pc), th', fp), Target(th, c))
  {
    hide NextPc, NextRec, NextThread, CanStep, ListView, CountView, CancelView;
    if HoldsFlying(th.pc) {
      CancelHolder(ctx, r, t, th, c, sp, hp);
    } else {
      CancelOutside(ctx, r, t, th, c, sp, hp, fp);
    }
  }

  // ----- Every reachable state -----

  ghost predicate XView(s: State, x: Xid)
    requires x in s.recs
  {
    var r := s.recs[x];
    var sp, hp, fp := Role(s.threads, r.submitter), Role(s.threads, s.ctx.handler), Role(s.threads, s.ctx.flyingOwner);
    ListView(r, s.ctx.flying[x], sp, hp, x) && CountView(r, hp, x) && CancelView(r, hp, fp, x)
  }

  ghost predicate Inv(s: State) {
    RolesMatch(s) && forall x :: x in s.recs ==> XView(s, x)
  }

  lemma InvInit(s: State)
    requires Init(s)
    ensures Inv(s)
  {
  }

  /** The player of a role after thread t has moved. */
  lemma RoleAfter(threads: map<Tid, Thread>, t: Tid, th: Thread, before: Option<Tid>, after: Option<Tid>,
                  played: bool, plays: bool)
    requires t in threads && Handover(before, after, t)
    requires (played <==> before == Some(t)) && (plays <==> after == Some(t))
    ensures Role(threads[t := th], after) == After(plays, played, th, Role(threads, before))
    ensures played ==> Role(threads, before) == threads[t]
    ensures !played && plays ==> Role(threads, before) == NOONE
  {
  }

  /** sp, hp and fp play the roles around the target of thread t's step. */
  predicate Cast(ctx: Ctx, r: Rec, th: Thread, c: Choice, sp: Thread, hp: Thread, fp: Thread) {
    && (Submitting(th.pc) ==> sp == th)
    && (Handling(th.pc) ==> hp == th)
    && (HoldsFlying(th.pc) ==> fp == th)
    && (!Submitting(th.pc) && Submitting(NextPc(r, th, c)) ==> sp == NOONE)
    && (!Handling(th.pc) && Handling(NextPc(r, th, c)) ==> hp == NOONE)
    && (!HoldsFlying(th.pc) && HoldsFlying(NextPc(r, th, c)) ==> fp == NOONE)
    && (ctx.flyingOwner.None? ==> fp == NOONE)
  }

  function NextSubmitter(r: Rec, th: Thread, c: Choice, sp: Thread): Thread {
    After(Submitting(NextPc(r, th, c)), Submitting(th.pc), NextThread(r, th, c), sp)
  }

  function NextHandler(r: Rec, th: Thread, c: Choice, hp: Thread): Thread {
    After(Handling(NextPc(r, th, c)), Handling(th.pc), NextThread(r, th, c), hp)
  }

  function NextHolder(r: Rec, th: Thread, c: Choice, fp: Thread): Thread {
    After(HoldsFlying(NextPc(r, th, c)), HoldsFlying(th.pc), NextThread(r, th, c), fp)
  }

  lemma TargetList(ctx: Ctx, r: Rec, t: Tid, th: Thread, c: Choice, sp: Thread, hp: Thread, fp: Thread)
    requires CanStep(ctx, r, th, c) && Cast(ctx, r, th, c, sp, hp, fp)
    requires ListView(r, ctx.flying[Target(th, c)], sp, hp, Target(th, c))
    ensures ListView(NextRec(t, r, th, c), NextCtx(ctx, t, r, th, c).flying[Target(th, c)],
                     NextSubmitter(r, th, c, sp), NextHandler(r, th, c, hp), Target(th, c))
  {
    if Handling(th.pc) {
      TargetListHandling(ctx, r, t, th, c, sp);
    } else {
      TargetListOther(ctx, r, t, th, c, sp, hp, fp);
    }
  }

  lemma TargetListHandling(ctx: Ctx, r: Rec, t: Tid, th: Thread, c: Choice, sp: Thread)
    requires CanStep(ctx, r, th, c) && Handling(th.pc)
    requires ListView(r, ctx.flying[Target(th, c)], sp, th, Target(th, c))
    ensures ListView(NextRec(t, r, th, c), NextCtx(ctx, t, r, th, c).flying[Target(th, c)],
                     sp, NextHandler(r, th, c, th), Target(th, c))
    ensures !Submitting(NextPc(r, th, c))
  {
    if Reporting(th.pc) {
      ListReport(ctx, r, t, th, c, sp);
    } else {
      ListHandle(ctx, r, t, th, c, sp);
    }
  }

  lemma TargetListOther(ctx: Ctx, r: Rec, t: Tid, th: Thread, c: Choice, sp: Thread, hp: Thread, fp: Thread)
    requires CanStep(ctx, r, th, c) && Cast(ctx, r, th, c, sp, hp, fp) && !Handling(th.pc)
    requires ListView(r, ctx.flying[Target(th, c)], sp, hp, Target(th, c))
    ensures ListView(NextRec(t, r, th, c), NextCtx(ctx, t, r, th, c).flying[Target(th, c)],
                     NextSubmitter(r, th, c, sp), NextHandler(r, th, c, hp), Target(th, c))
  {
    if Submitting(th.pc) {
      ListSubmit(ctx, r, t, th, c, hp);
      ListOtherHandler(ctx, r, th, c);
    } else {
      ListOther(ctx, r, t, th, c);
    }
  }

  lemma TargetCount(ctx: Ctx, r: Rec, t: Tid, th: Thread, c: Choice, sp: Thread, hp: Thread, fp: Thread)
    requires CanStep(ctx, r, th, c) && Cast(ctx, r, th, c, sp, hp, fp)
    requires ListView(r, ctx.flying[Target(th, c)], sp, hp, Target(th, c))
    requires CountView(r, hp, Target(th, c))
    ensures CountView(NextRec(t, r, th, c), NextHandler(r, th, c, hp), Target(th, c))
  {
    if Handling(th.pc) {
      CountHandle(ctx, r, t, th, c, sp);
    } else {
      CountOther(ctx, r, t, th, c, sp, hp);
      ListOtherHandler(ctx, r, th, c);
    }
  }

  /** A thread starts to handle events with nothing to report. */
  lemma ListOtherHandler(ctx: Ctx, r: Rec, th: Thread, c: Choice)
    requires CanStep(ctx, r, th, c) && !Handling(th.pc)
    ensures Handling(NextPc(r, th, c)) ==> NextPc(r, th, c) == HIdle
  {
  }

  lemma TargetCancelHandle(ctx: Ctx, r: Rec, t: Tid, th: Thread, c: Choice, fp: Thread)
    requires CanStep(ctx, r, th, c) && Handling(th.pc) && th.pc != HFlag
    requires CancelView(r, th, fp, Target(th, c)) && (Selected(th, Target(th, c)) ==> r.backend.Pending?)
    requires HoldsFlying(th.pc) ==> fp == th
    requires !HoldsFlying(th.pc) && HoldsFlying(NextPc(r, th, c)) ==> fp == NOONE
    ensures CancelView(NextRec(t, r, th, c), NextHandler(r, th, c, th), NextHolder(r, th, c, fp), Target(th, c))
  {
    hide NextRec;
    CancelHandle(ctx, r, t, th, c, fp);
    assert !OwesTimedOut(NextHolder(r, th, c, fp), Target(th, c)) <==> !OwesTimedOut(fp, Target(th, c));
  }

  lemma TargetCancel(ctx: Ctx, r: Rec, t: Tid, th: Thread, c: Choice, sp: Thread, hp: Thread, fp: Thread)
    requires CanStep(ctx, r, th, c) && Cast(ctx, r, th, c, sp, hp, fp)
    requires ListView(r, ctx.flying[Target(th, c)], sp, hp, Target(th, c))
    requires CountView(r, hp, Target(th, c)) && CancelView(r, hp, fp, Target(th, c))
    ensures CancelView(NextRec(t, r, th, c), NextHandler(r, th, c, hp), NextHolder(r, th, c, fp), Target(th, c))
  {
    hide NextRec, CancelView, CountView;
    if th.pc == HFlag {
      CancelFlag(ctx, r, t, th, c);
    } else if Handling(th.pc) {
      TargetCancelHandle(ctx, r, t, th, c, fp);
    } else {
      hide NextThread, CanStep;
      NextIs(r, th, c);
      CancelOther(ctx, r, t, th, c, sp, hp, fp);
      ListOtherHandler(ctx, r, th, c);
      if Handling(NextPc(r, th, c)) {
        IdleHandler(NextRec(t, r, th, c), NextThread(r, th, c), NextHolder(r, th, c, fp), Target(th, c));
      }
    }
  }

  /** A thread between two reports is to a transfer as nobody. */
  lemma IdleHandler(r: Rec, hp: Thread, fp: Thread, x: Xid)
    requires CancelView(r, NOONE, fp, x) && hp.pc == HIdle
    ensures CancelView(r, hp, fp, x)
  {
  }

  /** Whether thread t plays a role of the target is in the record of the target. */
  lemma TargetRole(s: State, t: Tid, c: Choice)
    requires Enabled(s, t, c) && RolesMatch(s)
    ensures RoleView(s.ctx, s.recs[Target(s.threads[t], c)], t, s.threads[t])
  {
    var th, x := s.threads[t], Target(s.threads[t], c);
    assert RoleView(s.ctx, s.recs[th.x], t, th);
    if x != th.x {
      RetargetMove(s.ctx, s.recs[x], th, c);
      assert Attended(s.threads, s.recs[x].lock, x) && Attended(s.threads, s.recs[x].submitter, x);
    }
  }

  lemma SubmitterCast(threads: map<Tid, Thread>, ctx: Ctx, r: Rec, t: Tid, th: Thread, c: Choice)
    requires CanStep(ctx, r, th, c) && RoleView(ctx, r, t, th) && t in threads && threads[t] == th
    ensures var sp := Role(threads, r.submitter);
            && (Submitting(th.pc) ==> sp == th)
            && (!Submitting(th.pc) && Submitting(NextPc(r, th, c)) ==> sp == NOONE)
            && Role(threads[t := NextThread(r, th, c)], NextRec(t, r, th, c).submitter) == NextSubmitter(r, th, c, sp)
  {
    hide CanStep, NextPc, NextRec;
    SubmitterMove(ctx, r, t, th, c);
    RoleAfter(threads, t, NextThread(r, th, c), r.submitter, NextRec(t, r, th, c).submitter,
              Submitting(th.pc), Submitting(NextPc(r, th, c)));
  }

  lemma HandlerCast(threads: map<Tid, Thread>, ctx: Ctx, r: Rec, t: Tid, th: Thread, c: Choice)
    requires CanStep(ctx, r, th, c) && RoleView(ctx, r, t, th) && t in threads && threads[t] == th
    ensures var hp := Role(threads, ctx.handler);
            && (Handling(th.pc) ==> hp == th)
            && (!Handling(th.pc) && Handling(NextPc(r, th, c)) ==> hp == NOONE)
            && Role(threads[t := NextThread(r, th, c)], NextCtx(ctx, t, r, th, c).handler) == NextHandler(r, th, c, hp)
  {
    hide CanStep, NextPc, NextCtx;
    HandlerMove(ctx, r, t, th, c);
    RoleAfter(threads, t, NextThread(r, th, c), ctx.handler, NextCtx(ctx, t, r, th, c).handler,
              Handling(th.pc), Handling(NextPc(r, th, c)));
  }

  lemma HolderCast(threads: map<Tid, Thread>, ctx: Ctx, r: Rec, t: Tid, th: Thread, c: Choice)
    requires CanStep(ctx, r, th, c) && RoleView(ctx, r, t, th) && t in threads && threads[t] == th
    ensures var fp := Role(threads, ctx.flyingOwner);
            && (HoldsFlying(th.pc) ==> fp == th)
            && (!HoldsFlying(th.pc) && HoldsFlying(NextPc(r, th, c)) ==> fp == NOONE)
            && Role(threads[t := NextThread(r, th, c)], NextCtx(ctx, t, r, th, c).flyingOwner) ==
                 NextHolder(r, th, c, fp)
  {
    hide CanStep, NextPc, NextCtx;
    FlyingMove(ctx, r, t, th, c);
    RoleAfter(threads, t, NextThread(r, th, c), ctx.flyingOwner, NextCtx(ctx, t, r, th, c).flyingOwner,
              HoldsFlying(th.pc), HoldsFlying(NextPc(r, th, c)));
  }

  lemma TargetCast(s: State, t: Tid, c: Choice)
    requires Enabled(s, t, c) && RolesMatch(s)
    ensures var th, x := s.threads[t], Target(s.threads[t], c);
            var r := s.recs[x];
            var sp, hp, fp :=
              Role(s.threads, r.submitter), Role(s.threads, s.ctx.handler), Role(s.threads, s.ctx.flyingOwner);
            var r', ctx', threads' :=
              NextRec(t, r, th, c), NextCtx(s.ctx, t, r, th, c), s.threads[t := NextThread(r, th, c)];
            && Cast(s.ctx, r, th, c, sp, hp, fp)
            && Role(threads', r'.submitter) == NextSubmitter(r, th, c, sp)
            && Role(threads', ctx'.handler) == NextHandler(r, th, c, hp)
            && Role(threads', ctx'.flyingOwner) == NextHolder(r, th, c, fp)
  {
    hide CanStep, NextPc, NextRec, NextCtx, NextThread, NextSubmitter, NextHandler, NextHolder, RoleView, RolesMatch;
    var th, r := s.threads[t], s.recs[Target(s.threads[t], c)];
    TargetRole(s, t, c);
    SubmitterCast(s.threads, s.ctx, r, t, th, c);
    HandlerCast(s.threads, s.ctx, r, t, th, c);
    HolderCast(s.threads, s.ctx, r, t, th, c);
  }

  lemma TargetStep(s: State, t: Tid, c: Choice)
    requires Enabled(s, t, c) && Inv(s)
    ensures XView(Apply(s, t, c), Target(s.threads[t], c))
  {
    var th, x := s.threads[t], Target(s.threads[t], c);
    var r := s.recs[x];
    var sp, hp, fp := Role(s.threads, r.submitter), Role(s.threads, s.ctx.handler), Role(s.threads, s.ctx.flyingOwner);
    assert XView(s, x);
    TargetCast(s, t, c);
    TargetList(s.ctx, r, t, th, c, sp, hp, fp);
    TargetCount(s.ctx, r, t, th, c, sp, hp, fp);
    TargetCancel(s.ctx, r, t, th, c, sp, hp, fp);
  }

  /** The flying list changes only at the target. */
  lemma FlyingElsewhere(ctx: Ctx, r: Rec, t: Tid, th: Thread, c: Choice, y: Xid)
    requires CanStep(ctx, r, th, c) && y != Target(th, c)
    ensures NextCtx(ctx, t, r, th, c).flying[y] == ctx.flying[y]
  {
  }

  /** What a thread that works on another transfer, before or after its step, is to y. */
  predicate Idles(th: Thread, y: Xid) {
    !BeforeCallback(th, y) && !Selected(th, y) && !OwesTimedOut(th, y)
  }

  lemma IdlesElsewhere(ctx: Ctx, r: Rec, th: Thread, c: Choice, y: Xid)
    requires CanStep(ctx, r, th, c) && y != Target(th, c)
    ensures Idles(th, y) && Idles(NextThread(r, th, c), y)
  {
  }

  lemma SameView(r: Rec, n: nat, sp: Thread, hp: Thread, fp: Thread, hp': Thread, fp': Thread, y: Xid)
    requires ListView(r, n, sp, hp, y) && CountView(r, hp, y) && CancelView(r, hp, fp, y)
    requires hp' == hp || (Idles(hp, y) && Idles(hp', y))
    requires fp' == fp || (Idles(fp, y) && Idles(fp', y))
    ensures ListView(r, n, sp, hp', y) && CountView(r, hp', y) && CancelView(r, hp', fp', y)
  {
  }

  /** To another transfer, the handler looks the same before and after. */
  lemma HandlerElsewhere(s: State, t: Tid, c: Choice, y: Xid)
    requires Enabled(s, t, c) && RolesMatch(s) && y != Target(s.threads[t], c)
    ensures var s' := Apply(s, t, c);
            var hp, hp' := Role(s.threads, s.ctx.handler), Role(s'.threads, s'.ctx.handler);
            hp' == hp || (Idles(hp, y) && Idles(hp', y))
  {
    hide CanStep, NextPc, NextRec, NextCtx, NextThread, HoldsFlying, HoldsTransfer, Handling, Submitting;
    hide Role;
    var th, r := s.threads[t], s.recs[Target(s.threads[t], c)];
    NextIs(r, th, c);
    assert RoleView(s.ctx, s.recs[th.x], t, th);
    HandlerMove(s.ctx, r, t, th, c);
    IdlesElsewhere(s.ctx, r, th, c, y);
    RoleAfter(s.threads, t, NextThread(r, th, c), s.ctx.handler, NextCtx(s.ctx, t, r, th, c).handler,
              Handling(th.pc), Handling(NextPc(r, th, c)));
  }

  /** And so does the holder of flying_transfers_lock. */
  lemma HolderElsewhere(s: State, t: Tid, c: Choice, y: Xid)
    requires Enabled(s, t, c) && RolesMatch(s) && y != Target(s.threads[t], c)
    ensures var s' := Apply(s, t, c);
            var fp, fp' := Role(s.threads, s.ctx.flyingOwner), Role(s'.threads, s'.ctx.flyingOwner);
            fp' == fp || (Idles(fp, y) && Idles(fp', y))
  {
    hide CanStep, NextPc, NextRec, NextCtx, NextThread, HoldsFlying, HoldsTransfer, Handling, Submitting;
    hide Role;
    var th, r := s.threads[t], s.recs[Target(s.threads[t], c)];
    NextIs(r, th, c);
    assert RoleView(s.ctx, s.recs[th.x], t, th);
    FlyingMove(s.ctx, r, t, th, c);
    IdlesElsewhere(s.ctx, r, th, c, y);
    RoleAfter(s.threads, t, NextThread(r, th, c), s.ctx.flyingOwner, NextCtx(s.ctx, t, r, th, c).flyingOwner,
              HoldsFlying(th.pc), HoldsFlying(NextPc(r, th, c)));
  }

  lemma ElsewhereStep(s: State, t: Tid, c: Choice, y: Xid)
    requires Enabled(s, t, c) && Inv(s) && y in s.recs && y != Target(s.threads[t], c)
    ensures XView(Apply(s, t, c), y)
  {
    var s' := Apply(s, t, c);
    assert XView(s, y);
    FlyingElsewhere(s.ctx, s.recs[Target(s.threads[t], c)], t, s.threads[t], c, y);
    HandlerElsewhere(s, t, c, y);
    HolderElsewhere(s, t, c, y);
    SubmitterElsewhere(s, t, c, y);
    SameView(s.recs[y], s.ctx.flying[y], Role(s.threads, s.recs[y].submitter),
             Role(s.threads, s.ctx.handler), Role(s.threads, s.ctx.flyingOwner),
             Role(s'.threads, s'.ctx.handler), Role(s'.threads, s'.ctx.flyingOwner), y);
  }

  lemma SubmitterElsewhere(s: State, t: Tid, c: Choice, y: Xid)
    requires Enabled(s, t, c) && RolesMatch(s) && y in s.recs && y != Target(s.threads[t], c)
    ensures Role(Apply(s, t, c).threads, s.recs[y].submitter) == Role(s.threads, s.recs[y].submitter)
  {
    var th := s.threads[t];
    if s.recs[y].submitter == Some(t) {
      assert Attended(s.threads, s.recs[y].submitter, y);
      assert RoleView(s.ctx, s.recs[y], t, th);
      RetargetMove(s.ctx, s.recs[Target(th, c)], th, c);
      assert false;
    }
  }

  lemma InvStep(s: State, t: Tid, c: Choice)
    requires Enabled(s, t, c) && Inv(s)
    ensures Inv(Apply(s, t, c))
  {
    RolesStep(s, t, c);
    TargetStep(s, t, c);
    forall y | y in s.recs && y != Target(s.threads[t], c) ensures XView(Apply(s, t, c), y) {
      ElsewhereStep(s, t, c, y);
    }
  }

  lemma {:induction false} InvRun(run: seq<State>, who: seq<Tid>, choices: seq<Choice>, i: nat)
    requires IsRun(run, who, choices) && i < |run|
    ensures Inv(run[i])
  {
    if i == 0 {
      InvInit(run[0]);
    } else {
      InvRun(run, who, choices, i - 1);
      InvStep(run[i - 1], who[i - 1], choices[i - 1]);
    }
  }

  // ----- Main results -----

  /** In every interleaving the backend's cancel is called at most once per submission. */
  lemma CancelledAtMostOnce(run: seq<State>, who: seq<Tid>, choices: seq<Choice>, i: nat, x: Xid)
    requires IsRun(run, who, choices) && i < |run| && x in run[i].recs
    ensures run[i].recs[x].cancels <= 1
  {
    InvRun(run, who, choices, i);
    assert XView(run[i], x);
  }

  /** Every successful submission gets exactly one callback: at any point it has had it, or
      the backend still holds the transfer, or the one handler is bringing it. */
  lemma OneCallbackPerSubmission(run: seq<State>, who: seq<Tid>, choices: seq<Choice>, i: nat, x: Xid)
    requires IsRun(run, who, choices) && i < |run| && x in run[i].recs
    ensures var r := run[i].recs[x];
            r.successes == |r.reports| + B(r.backend.Pending?)
                           + B(BeforeCallback(Role(run[i].threads, run[i].ctx.handler), x))
    ensures |run[i].recs[x].reports| <= run[i].recs[x].successes <= |run[i].recs[x].reports| + 2
  {
    InvRun(run, who, choices, i);
    assert XView(run[i], x);
  }

  /** A callback reports TIMED_OUT exactly when the transfer was cancelled and the timeout
      path had made the successful cancel, and CANCELLED exactly when the user had. */
  lemma TimedOutMeansTimeoutCancelled(run: seq<State>, who: seq<Tid>, choices: seq<Choice>, i: nat, x: Xid, k: nat)
    requires IsRun(run, who, choices) && i < |run| && x in run[i].recs && k < |run[i].recs[x].reports|
    ensures var e := run[i].recs[x].reports[k];
            && (e.status == Some(TimedOut) <==> e.viaCancel && e.maker == Some(Timeout))
            && (e.status == Some(Cancelled) <==> e.viaCancel && e.maker == Some(User))
  {
    InvRun(run, who, choices, i);
    assert XView(run[i], x);
  }

  /** The flying list holds every transfer the backend holds, each exactly once; the only
      others on it are those being submitted or whose submission has just failed, and the
      one whose report has begun and not yet reached the removal. */
  lemma FlyingListIsExact(run: seq<State>, who: seq<Tid>, choices: seq<Choice>, i: nat, x: Xid)
    requires IsRun(run, who, choices) && i < |run| && x in run[i].recs
    ensures run[i].ctx.flying[x] <= 1
    ensures run[i].recs[x].backend.Pending? ==> run[i].recs[x].inFlight && run[i].ctx.flying[x] == 1
    ensures run[i].ctx.flying[x] == 1 <==>
              || run[i].recs[x].backend.Pending?
              || InWindow(Role(run[i].threads, run[i].recs[x].submitter))
              || BeforeRemove(Role(run[i].threads, run[i].ctx.handler), x)
  {
    InvRun(run, who, choices, i);
    assert XView(run[i], x);
  }

  /** list_del is applied only to a transfer that is on the list. */
  lemma RemovesOnlyWhatIsListed(run: seq<State>, who: seq<Tid>, choices: seq<Choice>, i: nat)
    requires IsRun(run, who, choices) && i < |who|
    requires run[i].threads[who[i]].pc in {SFailed, HRemove}
    ensures run[i].ctx.flying[run[i].threads[who[i]].x] == 1
  {
    InvRun(run, who, choices, i);
    var th := run[i].threads[who[i]];
    assert RoleView(run[i].ctx, run[i].recs[th.x], who[i], th);
    assert XView(run[i], th.x);
  }

  /** A disconnect clears the backend's data only of transfers the backend holds. */
  lemma DisconnectTakesOnlyPending(run: seq<State>, who: seq<Tid>, choices: seq<Choice>, i: nat)
    requires IsRun(run, who, choices) && i < |who| && run[i].threads[who[i]].pc == DFound
    ensures run[i].recs[run[i].threads[who[i]].x].backend.Pending?
  {
    InvRun(run, who, choices, i);
    var th := run[i].threads[who[i]];
    assert RoleView(run[i].ctx, run[i].recs[th.x], who[i], th);
    assert XView(run[i], th.x);
  }

  // ----- What the callback reports -----

  function HandlerOf(s: State): Thread {
    Role(s.threads, s.ctx.handler)
  }

  /** Thread hp is bringing the callback of x, with this status. */
  predicate Brings(hp: Thread, x: Xid, st: Status) {
    BeforeCallback(hp, x) && hp.pc != HFlag && hp.e.status == Some(st)
  }

  /** A step that decides what will be reported: a disconnect takes x, or the last request of x
      comes back and was not cancelled. */
  predicate Ends(r: Rec, th: Thread, c: Choice, x: Xid, st: Status) {
    || (th.pc == DFound && th.x == x && st == NoDevice)
    || (c.ReapLast? && c.target == x && r.backend == Pending(false) && st == Finished(c.code))
  }

  predicate Decided(st: Status) {
    st == NoDevice || st.Finished?
  }

  /** A step of the handler for its target. */
  lemma BringsMove(ctx: Ctx, r: Rec, t: Tid, th: Thread, c: Choice, x: Xid, st: Status)
    requires CanStep(ctx, r, th, c) && Handling(th.pc)
    ensures Target(th, c) == x && Ends(r, th, c, x, st) ==> Brings(NextThread(r, th, c), x, st) && th.pc != HCallback
    ensures Brings(th, x, st) && th.pc != HCallback ==> Brings(NextThread(r, th, c), x, st)
    ensures Brings(NextThread(r, th, c), x, st) && Decided(st) ==>
              (Brings(th, x, st) && th.pc != HCallback) || (Target(th, c) == x && Ends(r, th, c, x, st))
    ensures Handling(NextPc(r, th, c)) || !Brings(NextThread(r, th, c), x, st)
  {
  }

  /** Reports are made by callbacks only, and say what was brought. */
  lemma ReportsMove(ctx: Ctx, r: Rec, t: Tid, th: Thread, c: Choice)
    requires CanStep(ctx, r, th, c)
    ensures NextRec(t, r, th, c).reports == if th.pc == HCallback then r.reports + [th.e] else r.reports
    ensures th.pc == HCallback ==> Target(th, c) == th.x && BeforeCallback(th, th.x)
  {
  }

  /** Who the handler is after a step. */
  lemma HandlerStep(s: State, t: Tid, c: Choice)
    requires Enabled(s, t, c) && RolesMatch(s)
    ensures var th, th' := s.threads[t], Apply(s, t, c).threads[t];
            && (Handling(th.pc) ==> HandlerOf(s) == th
                                    && HandlerOf(Apply(s, t, c)) == if Handling(th'.pc) then th' else NOONE)
            && (!Handling(th.pc) ==> HandlerOf(Apply(s, t, c)) == HandlerOf(s)
                                     || (HandlerOf(Apply(s, t, c)).pc == HIdle && HandlerOf(s) == NOONE))
  {
    hide CanStep, NextPc, NextRec, NextCtx, NextThread, HoldsFlying, HoldsTransfer, Handling, Submitting, Role;
    var th, r := s.threads[t], s.recs[Target(s.threads[t], c)];
    NextIs(r, th, c);
    assert RoleView(s.ctx, s.recs[th.x], t, th);
    HandlerMove(s.ctx, r, t, th, c);
    RoleAfter(s.threads, t, NextThread(r, th, c), s.ctx.handler, NextCtx(s.ctx, t, r, th, c).handler,
              Handling(th.pc), Handling(NextPc(r, th, c)));
    if !Handling(th.pc) {
      ListOtherHandler(s.ctx, r, th, c);
    }
  }

  /** What a step does to what is brought for x. */
  lemma BringsStep(s: State, t: Tid, c: Choice, x: Xid, st: Status)
    requires Enabled(s, t, c) && RolesMatch(s) && x in s.recs
    ensures var s' := Apply(s, t, c);
            var calls, ends :=
              s.threads[t].pc == HCallback && s.threads[t].x == x, Ends(s.recs[x], s.threads[t], c, x, st);
            && x in s'.recs
            && s'.recs[x].reports == (if calls then s.recs[x].reports + [HandlerOf(s).e] else s.recs[x].reports)
            && (ends ==> Brings(HandlerOf(s'), x, st) && !calls)
            && (Brings(HandlerOf(s), x, st) && !calls ==> Brings(HandlerOf(s'), x, st))
            && (Brings(HandlerOf(s'), x, st) && Decided(st) ==> (Brings(HandlerOf(s), x, st) && !calls) || ends)
            && (calls ==> BeforeCallback(HandlerOf(s), x) && HandlerOf(s).pc != HFlag)
  {
    hide CanStep, NextPc, NextRec, NextCtx, NextThread, Handling, RolesMatch, HandlerOf;
    var th, y := s.threads[t], Target(s.threads[t], c);
    var r := s.recs[y];
    ReportsMove(s.ctx, r, t, th, c);
    HandlerStep(s, t, c);
    NextIs(r, th, c);
    if Handling(th.pc) {
      BringsMove(s.ctx, r, t, th, c, x, st);
    } else {
      EndsHandling(s.ctx, r, th, c);
    }
    EndsTarget(s.ctx, r, th, c);
  }

  lemma EndsHandling(ctx: Ctx, r: Rec, th: Thread, c: Choice)
    requires CanStep(ctx, r, th, c) && !Handling(th.pc)
    ensures !c.ReapLast? && th.pc != DFound && th.pc != HCallback
  {
  }

  lemma EndsTarget(ctx: Ctx, r: Rec, th: Thread, c: Choice)
    requires CanStep(ctx, r, th, c)
    ensures c.ReapLast? ==> Target(th, c) == c.target && th.pc == HIdle
    ensures th.pc == DFound || th.pc == HCallback ==> Target(th, c) == th.x
  {
  }

  /** The report that follows such a step: it is still being brought, or has been made. */
  predicate WillReport(s: State, x: Xid, n: nat, st: Status) {
    && x in s.recs
    && if |s.recs[x].reports| > n then s.recs[x].reports[n].status == Some(st)
       else |s.recs[x].reports| == n && Brings(HandlerOf(s), x, st)
  }

  lemma WillReportStep(s: State, t: Tid, c: Choice, x: Xid, n: nat, st: Status)
    requires Enabled(s, t, c) && RolesMatch(s) && WillReport(s, x, n, st)
    ensures WillReport(Apply(s, t, c), x, n, st)
  {
    hide Apply, Enabled, RolesMatch, Ends, HandlerOf;
    BringsStep(s, t, c, x, st);
  }

  /** When a disconnect takes a transfer its next callback reports NO_DEVICE, and when its last
      request comes back uncancelled the next callback reports the status that brought. */
  lemma {:induction false} NextReport(run: seq<State>, who: seq<Tid>, choices: seq<Choice>, i: nat, j: nat,
                                      x: Xid, st: Status)
    requires IsRun(run, who, choices) && i < |who| && i < j < |run|
    requires x in run[i].recs && Ends(run[i].recs[x], run[i].threads[who[i]], choices[i], x, st)
    ensures WillReport(run[j], x, |run[i].recs[x].reports|, st)
    decreases j
  {
    hide Enabled, Apply, Ends, WillReport, XView, RolesMatch;
    assert Enabled(run[j - 1], who[j - 1], choices[j - 1]);
    InvRun(run, who, choices, j - 1);
    if i + 1 == j {
      EndsDecides(run[i], who[i], choices[i], x, st);
    } else {
      NextReport(run, who, choices, i, j - 1, x, st);
      WillReportStep(run[j - 1], who[j - 1], choices[j - 1], x, |run[i].recs[x].reports|, st);
    }
  }

  lemma EndsDecides(s: State, t: Tid, c: Choice, x: Xid, st: Status)
    requires Enabled(s, t, c) && RolesMatch(s) && x in s.recs && Ends(s.recs[x], s.threads[t], c, x, st)
    ensures WillReport(Apply(s, t, c), x, |s.recs[x].reports|, st)
  {
    hide Apply, Enabled, RolesMatch, Ends, HandlerOf;
    BringsStep(s, t, c, x, st);
  }

  /** Such a step made before state i, when x had had n callbacks. */
  ghost predicate DecidedBefore(run: seq<State>, who: seq<Tid>, choices: seq<Choice>, i: nat,
                                x: Xid, n: nat, st: Status)
    requires IsRun(run, who, choices) && i < |run|
  {
    exists h {:trigger who[h]} ::
      && 0 <= h < i && x in run[h].recs && |run[h].recs[x].reports| == n
      && Ends(run[h].recs[x], run[h].threads[who[h]], choices[h], x, st)
  }

  lemma DecidedLater(run: seq<State>, who: seq<Tid>, choices: seq<Choice>, i: nat, x: Xid, n: nat, st: Status)
    requires IsRun(run, who, choices) && 0 < i < |run| && DecidedBefore(run, who, choices, i - 1, x, n, st)
    ensures DecidedBefore(run, who, choices, i, x, n, st)
  {
    var h :| && 0 <= h < i - 1 && x in run[h].recs && |run[h].recs[x].reports| == n
             && Ends(run[h].recs[x], run[h].threads[who[h]], choices[h], x, st);
    assert who[h] == who[h];
  }

  /** Whatever is brought or has been reported for x with this status was decided before. */
  ghost predicate ComesFrom(run: seq<State>, who: seq<Tid>, choices: seq<Choice>, i: nat, x: Xid, st: Status)
    requires IsRun(run, who, choices) && i < |run| && x in run[i].recs
  {
    var reports := run[i].recs[x].reports;
    && (Brings(HandlerOf(run[i]), x, st) ==> DecidedBefore(run, who, choices, i, x, |reports|, st))
    && forall k :: 0 <= k < |reports| && reports[k].status == Some(st) ==>
         DecidedBefore(run, who, choices, i, x, k, st)
  }

  lemma ComesFromStep(run: seq<State>, who: seq<Tid>, choices: seq<Choice>, i: nat, x: Xid, st: Status)
    requires IsRun(run, who, choices) && 0 < i < |run| && x in run[i - 1].recs && x in run[i].recs && Decided(st)
    requires RolesMatch(run[i - 1]) && ComesFrom(run, who, choices, i - 1, x, st)
    ensures ComesFrom(run, who, choices, i, x, st)
  {
    hide Apply, Ends, RolesMatch, Brings, HandlerOf, DecidedBefore, Decided;
    var s, t, c := run[i - 1], who[i - 1], choices[i - 1];
    assert Enabled(s, t, c);
    var before, after := s.recs[x].reports, run[i].recs[x].reports;
    BringsStep(s, t, c, x, st);
    CallsBring(HandlerOf(s), x, st);
    if Brings(HandlerOf(run[i]), x, st) {
      if Ends(s.recs[x], s.threads[t], c, x, st) {
        EndsHere(run, who, choices, i, x, st);
      } else {
        DecidedLater(run, who, choices, i, x, |before|, st);
      }
    }
    forall k | 0 <= k < |after| && after[k].status == Some(st)
      ensures DecidedBefore(run, who, choices, i, x, k, st)
    {
      assert k < |before| ==> after[k] == before[k];
      DecidedLater(run, who, choices, i, x, k, st);
    }
  }

  /** And no callback reports one of these statuses without such a step. */
  lemma {:induction false} ReportsComeFrom(run: seq<State>, who: seq<Tid>, choices: seq<Choice>, i: nat,
                                           x: Xid, st: Status)
    requires IsRun(run, who, choices) && i < |run| && x in run[i].recs && Decided(st)
    ensures ComesFrom(run, who, choices, i, x, st)
  {
    if i > 0 {
      hide Enabled, Apply, XView, RolesMatch, ComesFrom;
      assert Enabled(run[i - 1], who[i - 1], choices[i - 1]);
      SameTransfers(run[i - 1], who[i - 1], choices[i - 1]);
      InvRun(run, who, choices, i - 1);
      ReportsComeFrom(run, who, choices, i - 1, x, st);
      ComesFromStep(run, who, choices, i, x, st);
    }
  }

  lemma SameTransfers(s: State, t: Tid, c: Choice)
    requires Enabled(s, t, c)
    ensures Apply(s, t, c).recs.Keys == s.recs.Keys
  {
  }

  lemma EndsHere(run: seq<State>, who: seq<Tid>, choices: seq<Choice>, i: nat, x: Xid, st: Status)
    requires IsRun(run, who, choices) && 0 < i < |run| && x in run[i - 1].recs
    requires Ends(run[i - 1].recs[x], run[i - 1].threads[who[i - 1]], choices[i - 1], x, st)
    ensures DecidedBefore(run, who, choices, i, x, |run[i - 1].recs[x].reports|, st)
  {
    assert who[i - 1] == who[i - 1];
  }

  lemma CallsBring(hp: Thread, x: Xid, st: Status)
    ensures BeforeCallback(hp, x) && hp.pc != HFlag && hp.e.status == Some(st) <==> Brings(hp, x, st)
  {
  }
}
