/** The life cycle of transfers under flying_transfers_lock and the per-transfer locks, as
    a state machine over any number of threads and transfers: submit, user cancel, timeout,
    reap, completion and disconnect.

    A step is one critical section under one lock, taken when the lock is free, or the part
    of a longer section between two inner ones; a thread that holds a lock across steps is
    recorded as its owner.  Two assumptions: at most one thread is inside
    libusb_submit_transfer for a given transfer, and only the owner of events_lock reaps
    and reports, since a backend is entered from handle_events only. */
module TransferProtocol {
  import opened Wrappers

  type Tid = nat
  type Xid = nat

  datatype Who = User | Timeout
  datatype Status = Finished(code: int) | TimedOut | Cancelled | NoDevice

  /** What the backend holds: nothing, or outstanding requests, marked when a cancel took. */
  datatype Backend = Quiet | Pending(cancelled: bool)

  /** A transfer on its way to its callback: whether the backend reaped it as cancelled, the
      status once it is known, and who had made the successful cancel. */
  datatype Ending = Ending(viaCancel: bool, status: Option<Status>, maker: Option<Who>)

  /** struct usbi_transfer with the owner of its lock, the backend's view, and history: the
      backend cancels and the maker of the successful one (both since the last submission),
      the successful submissions, and what the callbacks reported. */
  datatype Rec = Rec(
    lock: Option<Tid>,
    submitter: Option<Tid>,
    inFlight: bool,
    cancelling: bool,
    handled: bool,
    timedOut: bool,
    backend: Backend,
    cancels: nat,
    maker: Option<Who>,
    successes: nat,
    reports: seq<Ending>)

  datatype Pc =
    | Idle
    // libusb_submit_transfer: before flying_transfers_lock, between the two locks, inserted
    // and in the backend under the transfer lock, failed and before the removal
    | SStart | SFlying | SBackend | SFailed
    // handle_timeouts: before the lock, in the loop, about to cancel, about to mark
    | TStart | TScan | TCancel | TMark
    // the owner of events_lock: between events, then the stages of one report
    | HIdle | HFlag | HRemove | HClear | HCallback
    // usbi_handle_disconnect
    | DStart | DScan | DTest | DFound

  /** A thread: where it is, the transfer it works on, and its local variables: the result
      of its cancel, the ending it reports. */
  datatype Thread = Thread(pc: Pc, x: Xid, ok: bool, e: Ending)

  /** The flying list is kept here as the number of times each transfer is on it. */
  datatype Ctx = Ctx(
    flyingOwner: Option<Tid>,
    handler: Option<Tid>,
    flying: multiset<Xid>)

  datatype State = State(ctx: Ctx, recs: map<Xid, Rec>, threads: map<Tid, Thread>)

  /** A choice of the program or of the environment. */
  datatype Choice =
    | Go
    | CallSubmit(target: Xid)
    | CallCancel(target: Xid, ok: bool, marks: bool)
    | CallTimeouts
    | BecomeHandler
    | StopHandling
    | ReapLast(target: Xid, code: int)
    | StartDisconnect
    | Pick(target: Xid)
    | Leave
    | Submitted(ok: bool)
    | CancelOutcome(ok: bool, marks: bool)

  /** The transfer a step is about. */
  function Target(th: Thread, c: Choice): Xid {
    if c.CallSubmit? || c.CallCancel? || c.ReapLast? || c.Pick? then c.target else th.x
  }

  /** Steps a thread can take; r is the record of the transfer the step is about. */
  predicate CanStep(ctx: Ctx, r: Rec, th: Thread, c: Choice) {
    match th.pc
    case Idle =>
      || (c.CallSubmit? && r.submitter.None?)
      || (c.CallCancel? && r.lock.None?)
      || c == CallTimeouts
      || (c == BecomeHandler && ctx.handler.None?)
    case SStart | SFailed | TStart | HFlag | HRemove | DStart => c == Go && ctx.flyingOwner.None?
    case SFlying | HClear | DTest | DFound => c == Go && r.lock.None?
    case SBackend => c.Submitted?
    case TScan => c == Leave || (c.Pick? && ctx.flying[c.target] > 0 && !r.handled)
    case TCancel => c.CancelOutcome? && r.lock.None?
    case TMark => c == Go
    case HIdle =>
      || (c.ReapLast? && r.lock.None? && r.backend.Pending?)
      || c == StartDisconnect || c == StopHandling
    case HCallback => c == Go
    case DScan => c == Leave || (c.Pick? && ctx.flying[c.target] > 0)
  }

  /** The guard of libusb_cancel_transfer. */
  predicate MayCancel(r: Rec) {
    r.inFlight && !r.cancelling
  }

  /** The cancel reports success: the backend was called, held the transfer, and agreed. */
  predicate CancelTakes(r: Rec, ok: bool) {
    MayCancel(r) && r.backend.Pending? && ok
  }

  /** The critical section of libusb_cancel_transfer: CANCELLING is set even when the
      backend refuses. */
  function CancelRec(r: Rec, who: Who, ok: bool, marks: bool): Rec {
    if !MayCancel(r) then r
    else if CancelTakes(r, ok) then
      r.(cancelling := true, cancels := r.cancels + 1, maker := Some(who),
         backend := Pending(r.backend.cancelled || marks))
    else r.(cancelling := true, cancels := r.cancels + 1)
  }

  /** The last request comes back: as a cancellation when the backend marked it so. */
  function Reaped(r: Rec, code: int): Ending {
    if r.backend == Pending(true) then Ending(true, None, r.maker)
    else Ending(false, Some(Finished(code)), r.maker)
  }

  function NextPc(r: Rec, th: Thread, c: Choice): Pc {
    match th.pc
    case Idle =>
      (match c
       case CallSubmit(_) => SStart
       case CallTimeouts => TStart
       case BecomeHandler => HIdle
       case _ => Idle)
    case SStart => SFlying
    case SFlying => if r.inFlight then Idle else SBackend
    case SBackend => if c == Submitted(true) then Idle else SFailed
    case SFailed => Idle
    case TStart => TScan
    case TScan => if c.Pick? then TCancel else Idle
    case TCancel => TMark
    case TMark => TScan
    case HIdle =>
      (match c
       case ReapLast(_, _) => if r.backend == Pending(true) then HFlag else HRemove
       case StartDisconnect => DStart
       case _ => Idle)
    case HFlag => HRemove
    case HRemove => HClear
    case HClear => HCallback
    case HCallback => HIdle
    case DStart => DScan
    case DScan => if c.Pick? then DTest else HIdle
    case DTest => if r.inFlight then DFound else DScan
    case DFound => HRemove
  }

  function NextThread(r: Rec, th: Thread, c: Choice): Thread {
    var th1 := th.(pc := NextPc(r, th, c), x := Target(th, c));
    match th.pc
    case TCancel => th1.(ok := c.CancelOutcome? && CancelTakes(r, c.ok))
    case HIdle => if c.ReapLast? then th1.(e := Reaped(r, c.code)) else th1
    case HFlag => th1.(e := th.e.(status := Some(if r.timedOut then TimedOut else Cancelled)))
    case DFound => th1.(e := Ending(false, Some(NoDevice), r.maker))
    case _ => th1
  }

  /** The record of the target after the step of thread t. */
  function NextRec(t: Tid, r: Rec, th: Thread, c: Choice): Rec {
    match th.pc
    case Idle =>
      (match c
       case CallSubmit(_) => r.(submitter := Some(t))
       case CallCancel(_, ok, marks) => CancelRec(r, User, ok, marks)
       case _ => r)
    case SFlying =>
      if r.inFlight then r.(submitter := None)
      else r.(lock := Some(t), cancelling := false, handled := false, timedOut := false,
              cancels := 0, maker := None)
    case SBackend =>
      if c == Submitted(true) then
        r.(lock := None, submitter := None, backend := Pending(false), inFlight := true,
           successes := r.successes + 1)
      else r.(lock := None)
    case SFailed => r.(submitter := None)
    case TScan => if c.Pick? then r.(handled := true) else r
    case TCancel => if c.CancelOutcome? then CancelRec(r, Timeout, c.ok, c.marks) else r
    case TMark => if th.ok then r.(timedOut := true) else r
    case HIdle => if c.ReapLast? then r.(backend := Quiet) else r
    case HClear => r.(inFlight := false)
    case HCallback => r.(reports := r.reports + [th.e])
    case DFound => r.(backend := Quiet)
    case _ => r
  }

  /** The shared locks and the flying list after the step of thread t. */
  function NextCtx(ctx: Ctx, t: Tid, r: Rec, th: Thread, c: Choice): Ctx {
    match th.pc
    case Idle => if c == BecomeHandler then ctx.(handler := Some(t)) else ctx
    case SStart | TStart | DStart => ctx.(flyingOwner := Some(t))
    case SFlying =>
      ctx.(flyingOwner := None, flying := if r.inFlight then ctx.flying else ctx.flying + multiset{th.x})
    case SFailed => ctx.(flying := ctx.flying - multiset{th.x})
    case TScan => if c == Leave then ctx.(flyingOwner := None) else ctx
    case HIdle => if c == StopHandling then ctx.(handler := None) else ctx
    case HRemove => ctx.(flying := ctx.flying - multiset{th.x})
    case DScan => if c == Leave then ctx.(flyingOwner := None) else ctx
    case DTest => if r.inFlight then ctx.(flyingOwner := None) else ctx
    case _ => ctx
  }

  predicate Enabled(s: State, t: Tid, c: Choice) {
    && t in s.threads
    && Target(s.threads[t], c) in s.recs
    && CanStep(s.ctx, s.recs[Target(s.threads[t], c)], s.threads[t], c)
  }

  function Apply(s: State, t: Tid, c: Choice): State
    requires Enabled(s, t, c)
  {
    var th, x := s.threads[t], Target(s.threads[t], c);
    State(NextCtx(s.ctx, t, s.recs[x], th, c),
          s.recs[x := NextRec(t, s.recs[x], th, c)],
          s.threads[t := NextThread(s.recs[x], th, c)])
  }

  const UNUSED := Rec(None, None, false, false, false, false, Quiet, 0, None, 0, [])

  /** Nothing submitted yet, every thread outside the library. */
  ghost predicate Init(s: State) {
    && s.ctx == Ctx(None, None, multiset{})
    && (forall x :: x in s.recs ==> s.recs[x] == UNUSED)
    && (forall t :: t in s.threads ==> s.threads[t].pc == Idle && s.threads[t].x in s.recs)
  }

  ghost predicate IsRun(run: seq<State>, who: seq<Tid>, choices: seq<Choice>) {
    && |run| == |who| + 1 && |choices| == |who|
    && Init(run[0])
    && forall i {:trigger who[i]} :: 0 <= i < |who| ==>
         Enabled(run[i], who[i], choices[i]) && run[i + 1] == Apply(run[i], who[i], choices[i])
  }
}
