/** The event-handling protocol of one libusb context, as a state machine over an
    unbounded set of threads.

    Each action is one atomic step of one thread: a lock or unlock, one critical section
    of event_data_lock (a leaf lock, nothing blocks inside it), one unprotected read or
    write of event_handler_active, or one call into poll().  A thread's program counter
    names the point of the source it has reached.  The fields signalled and delivered
    record history; the code never reads them. */
module EventProtocol {
  import opened Wrappers

  type Tid = nat
  type Fd = int
  type Xfer = nat
  type Cell = nat

  /** The event flags of libusbi.h. */
  datatype Flag =
    | SourcesModified | UserInterrupt | CallbackDeregistered
    | HotplugPending | TransferCompleted | DeviceClose

  /** Why a thread took events_lock. */
  datatype Purpose = Handle | Manual | Close

  /** Where a transfer callback was called from. */
  datatype Site = InDrain(rest: seq<Xfer>, failed: bool, ready: bool) | InBackend

  datatype Pc =
    | Idle
    // libusb_handle_events_timeout_completed, the path that handles events
    | ReadDeviceClose
    | TryEvents
    | MarkActive(why: Purpose)
    | TestCompleted
    | Prepare
    | Polling
    | Trigger(ready: bool)
    | Drain(rest: seq<Xfer>, failed: bool, ready: bool)
    | Backend
    | WantCallback(site: Site)
    | InCallback(site: Site)
    // libusb_lock_events by an application
    | WantEvents
    | OwnsEvents
    // libusb_unlock_events
    | ClearActive
    | ReleaseEvents
    | OweBroadcast
    // the path of a thread that finds another one handling events
    | WantWaiters
    | WaiterTest
    | WaiterReadClose
    | WaiterReadActive
    | WillPark
    | Parked
    | Woken
    | LeaveWaiters(retry: bool)
    // libusb_close
    | CloseWait
    | Closing

  /** A thread, the completion flag it waits for, and whether it came through
      libusb_lock_events (manual) or through libusb_handle_events. */
  datatype Thread = Thread(pc: Pc, cell: Option<Cell>, manual: bool)

  const EVENT_FD: Fd := 0

  /** The fields of struct libusb_context that the protocol shares between threads, the
      number of signals in the event pipe, and the completion flags set so far. */
  datatype Shared = Shared(
    flags: set<Flag>,
    pipe: int,
    deviceClose: int,
    owner: Option<Tid>,
    active: bool,
    waitersOwner: Option<Tid>,
    hotplugMsgs: nat,
    queue: seq<Xfer>,
    signalled: seq<Xfer>,
    delivered: seq<Xfer>,
    sources: seq<Fd>,
    removed: seq<Fd>,
    pollfds: Option<seq<Fd>>,
    done: set<Cell>)
  {
    /** Set a flag and signal the event pipe when no flag was pending. */
    function Raise(f: Flag): Shared {
      this.(flags := flags + {f}, pipe := if flags == {} then pipe + 1 else pipe)
    }

    /** usbi_clear_event when no flag is left: one read of the pipe. */
    function ClearIfQuiet(): Shared {
      if flags == {} then this.(pipe := pipe - 1) else this
    }
  }

  datatype State = State(sh: Shared, threads: map<Tid, Thread>) {
    function Pc(t: Tid): Pc
      requires t in threads
    {
      threads[t].pc
    }
  }

  /** What one thread does next.  The arguments are the choices of the environment. */
  datatype Move =
    | CallHandleEvents(cell: Option<Cell>)
    | DoReadDeviceClose
    | DoTryEvents
    | DoMarkActive
    | DoTestCompleted
    | DoPrepare(allocOk: bool)
    | PollReady(backendReady: bool)
    | PollTimeout
    | PollError
    | DoTrigger
    | DrainOne(backendError: bool, callback: bool)
    | DrainEnd
    | BackendCallback
    | BackendReturn
    | EnterCallback
    | ReturnCallback(completes: Option<Cell>)
    | CallLockEvents
    | GetEvents
    | CallHandleLocked
    | CallUnlockEvents
    | DoClearActive
    | DoReleaseEvents
    | GetWaiters
    | DoWaiterTest
    | DoWaiterReadClose
    | DoWaiterReadActive
    | DoPark
    | TimedOutOrSpurious
    | Reacquire
    | DoLeaveWaiters
    | CallClose
    | RetireClose

  /** A critical section of event_data_lock that any thread may run at any point. */
  datatype Post =
    | Interrupt
    | Deregister
    | NotifyHotplug
    | SignalCompletion(x: Xfer)
    | AddSource(fd: Fd)
    | RemoveSource(i: nat)

  datatype Action = Act(t: Tid, move: Move) | Broadcast(t: Tid) | Do(post: Post)

  /** True when the completion flag this thread waits for has been set. */
  predicate CellDone(sh: Shared, th: Thread) {
    th.cell.Some? && th.cell.value in sh.done
  }

  predicate CanMove(sh: Shared, th: Thread, m: Move) {
    match m
    case CallHandleEvents(_) => th.pc == Idle
    case DoReadDeviceClose => th.pc == ReadDeviceClose
    case DoTryEvents => th.pc == TryEvents
    case DoMarkActive => th.pc.MarkActive?
    case DoTestCompleted => th.pc == TestCompleted
    case DoPrepare(_) => th.pc == Prepare
    case PollReady(ready) => th.pc == Polling && (ready || sh.pipe > 0)
    case PollTimeout => th.pc == Polling && sh.pipe == 0
    case PollError => th.pc == Polling
    case DoTrigger => th.pc.Trigger?
    case DrainOne(_, _) => th.pc.Drain? && th.pc.rest != [] && !th.pc.failed
    case DrainEnd => th.pc.Drain? && (th.pc.rest == [] || th.pc.failed)
    case BackendCallback => th.pc == Backend
    case BackendReturn => th.pc == Backend
    case EnterCallback => th.pc.WantCallback? && sh.waitersOwner.None?
    case ReturnCallback(_) => th.pc.InCallback?
    case CallLockEvents => th.pc == Idle
    case GetEvents => (th.pc == WantEvents || th.pc == CloseWait) && sh.owner.None?
    case CallHandleLocked => th.pc == OwnsEvents
    case CallUnlockEvents => th.pc == OwnsEvents
    case DoClearActive => th.pc == ClearActive
    case DoReleaseEvents => th.pc == ReleaseEvents
    case GetWaiters => th.pc == WantWaiters && sh.waitersOwner.None?
    case DoWaiterTest => th.pc == WaiterTest
    case DoWaiterReadClose => th.pc == WaiterReadClose
    case DoWaiterReadActive => th.pc == WaiterReadActive
    case DoPark => th.pc == WillPark
    case TimedOutOrSpurious => th.pc == Parked
    case Reacquire => th.pc == Woken && sh.waitersOwner.None?
    case DoLeaveWaiters => th.pc.LeaveWaiters?
    case CallClose => th.pc == Idle
    case RetireClose => th.pc == Closing
  }

  /** The next program counter of the moving thread. */
  function NextPc(sh: Shared, th: Thread, m: Move): Pc
    requires CanMove(sh, th, m)
  {
    match m
    case CallHandleEvents(_) => ReadDeviceClose
    case DoReadDeviceClose => if sh.deviceClose != 0 then WantWaiters else TryEvents
    case DoTryEvents => if sh.owner.Some? then WantWaiters else MarkActive(Handle)
    case DoMarkActive =>
      (match th.pc.why case Handle => TestCompleted case Manual => OwnsEvents case Close => Closing)
    case DoTestCompleted => if CellDone(sh, th) then ClearActive else Prepare
    case DoPrepare(ok) => if SourcesModified in sh.flags && !ok then AfterHandling(th) else Polling
    case PollReady(ready) => if sh.pipe > 0 then Trigger(ready) else Backend
    case PollTimeout => AfterHandling(th)
    case PollError => AfterHandling(th)
    case DoTrigger =>
      if TransferCompleted in sh.flags then Drain(sh.queue, false, th.pc.ready)
      else if th.pc.ready then Backend
      else AfterHandling(th)
    case DrainOne(failed, callback) =>
      if callback then WantCallback(InDrain(th.pc.rest[1..], failed, th.pc.ready))
      else Drain(th.pc.rest[1..], failed, th.pc.ready)
    case DrainEnd => if !th.pc.failed && th.pc.ready then Backend else AfterHandling(th)
    case BackendCallback => WantCallback(InBackend)
    case BackendReturn => AfterHandling(th)
    case EnterCallback => InCallback(th.pc.site)
    case ReturnCallback(_) =>
      (match th.pc.site case InDrain(rest, failed, ready) => Drain(rest, failed, ready) case InBackend => Backend)
    case CallLockEvents => WantEvents
    case GetEvents => MarkActive(if th.pc == CloseWait then Close else Manual)
    case CallHandleLocked => Prepare
    case CallUnlockEvents => ClearActive
    case DoClearActive => ReleaseEvents
    case DoReleaseEvents => OweBroadcast
    case GetWaiters => WaiterTest
    case DoWaiterTest => if CellDone(sh, th) then LeaveWaiters(false) else WaiterReadClose
    case DoWaiterReadClose => if sh.deviceClose != 0 then WillPark else WaiterReadActive
    case DoWaiterReadActive => if sh.active then WillPark else LeaveWaiters(true)
    case DoPark => Parked
    case TimedOutOrSpurious => Woken
    case Reacquire => LeaveWaiters(false)
    case DoLeaveWaiters => if th.pc.retry then ReadDeviceClose else Idle
    case CallClose => CloseWait
    case RetireClose => ClearActive
  }

  /** Where handle_events returns to. */
  function AfterHandling(th: Thread): Pc {
    if th.manual then OwnsEvents else ClearActive
  }

  function NextThread(sh: Shared, th: Thread, m: Move): Thread
    requires CanMove(sh, th, m)
  {
    var pc := NextPc(sh, th, m);
    match m
    case CallHandleEvents(cell) => Thread(pc, cell, false)
    case CallLockEvents => Thread(pc, None, true)
    case _ => th.(pc := pc)
  }

  /** The effect of the moving thread, t, on the shared fields. */
  function NextShared(sh: Shared, t: Tid, th: Thread, m: Move): Shared
    requires CanMove(sh, th, m)
  {
    match m
    case DoTryEvents => if sh.owner.Some? then sh else sh.(owner := Some(t))
    case DoMarkActive => sh.(active := true)
    case DoPrepare(ok) => Prepared(sh, ok)
    case DoTrigger => Triggered(sh)
    case DrainOne(_, _) => sh.(delivered := sh.delivered + [th.pc.rest[0]])
    case DrainEnd => Drained(sh, th.pc.rest)
    case EnterCallback => sh.(waitersOwner := Some(t))
    case ReturnCallback(c) =>
      sh.(waitersOwner := None, done := if c.Some? then sh.done + {c.value} else sh.done)
    case GetEvents => sh.(owner := Some(t))
    case DoClearActive => sh.(active := false)
    case DoReleaseEvents => sh.(owner := None)
    case GetWaiters => sh.(waitersOwner := Some(t))
    case DoPark => sh.(waitersOwner := None)
    case Reacquire => sh.(waitersOwner := Some(t))
    case DoLeaveWaiters => sh.(waitersOwner := None)
    case CallClose => Announce(sh)
    case RetireClose => Retire(sh)
    case _ => sh
  }

  /** The start of handle_events: rebuild the poll array when the sources changed. */
  function Prepared(sh: Shared, allocOk: bool): Shared {
    if SourcesModified !in sh.flags then sh
    else if !allocOk then sh.(removed := [], pollfds := None)
    else
      sh.(removed := [], pollfds := Some(sh.sources), flags := sh.flags - {SourcesModified})
        .ClearIfQuiet()
  }

  /** The first critical section of handle_event_trigger. */
  function Triggered(sh: Shared): Shared {
    var sh1 := sh.(flags := sh.flags - {UserInterrupt, CallbackDeregistered, HotplugPending},
                   hotplugMsgs := if HotplugPending in sh.flags then 0 else sh.hotplugMsgs);
    if TransferCompleted in sh.flags then sh1.(queue := []) else sh1.ClearIfQuiet()
  }

  /** The critical section after the loop over the completed transfers: put the rest back
      in front after an error, clear the flag when nothing is left. */
  function Drained(sh: Shared, rest: seq<Xfer>): Shared {
    (if rest != [] then sh.(queue := rest + sh.queue)
     else if sh.queue == [] then sh.(flags := sh.flags - {TransferCompleted})
     else sh).ClearIfQuiet()
  }

  /** The announcement libusb_close makes before it takes events_lock. */
  function Announce(sh: Shared): Shared {
    sh.(deviceClose := sh.deviceClose + 1,
        flags := if sh.deviceClose == 0 then sh.flags + {DeviceClose} else sh.flags,
        pipe := if sh.flags == {} then sh.pipe + 1 else sh.pipe)
  }

  /** The critical section of libusb_close after the device has been closed. */
  function Retire(sh: Shared): Shared {
    sh.(deviceClose := sh.deviceClose - 1,
        flags := if sh.deviceClose == 1 then sh.flags - {DeviceClose} else sh.flags)
      .ClearIfQuiet()
  }

  predicate CanPost(sh: Shared, p: Post) {
    match p
    case AddSource(fd) => fd != EVENT_FD
    case RemoveSource(i) => i < |sh.sources| && sh.sources[i] != EVENT_FD
    case _ => true
  }

  function Posted(sh: Shared, p: Post): Shared
    requires CanPost(sh, p)
  {
    match p
    case Interrupt => sh.Raise(UserInterrupt)
    case Deregister => sh.Raise(CallbackDeregistered)
    case NotifyHotplug => sh.(hotplugMsgs := sh.hotplugMsgs + 1).Raise(HotplugPending)
    case SignalCompletion(x) =>
      sh.(queue := sh.queue + [x], signalled := sh.signalled + [x]).Raise(TransferCompleted)
    case AddSource(fd) => sh.(sources := sh.sources + [fd]).Raise(SourcesModified)
    case RemoveSource(i) =>
      sh.(sources := sh.sources[..i] + sh.sources[i + 1..],
          removed := sh.removed + [sh.sources[i]]).Raise(SourcesModified)
  }

  /** usbi_cond_broadcast: every parked thread must now re-acquire event_waiters_lock. */
  function WakeAll(threads: map<Tid, Thread>): map<Tid, Thread> {
    map t | t in threads :: Wake(threads[t])
  }

  function Wake(th: Thread): Thread {
    if th.pc == Parked then th.(pc := Woken) else th
  }

  predicate Enabled(s: State, a: Action) {
    match a
    case Act(t, m) => t in s.threads && CanMove(s.sh, s.threads[t], m)
    case Broadcast(t) => t in s.threads && s.Pc(t) == OweBroadcast && s.sh.waitersOwner.None?
    case Do(p) => CanPost(s.sh, p)
  }

  function Apply(s: State, a: Action): State
    requires Enabled(s, a)
  {
    match a
    case Act(t, m) =>
      State(NextShared(s.sh, t, s.threads[t], m), s.threads[t := NextThread(s.sh, s.threads[t], m)])
    case Broadcast(t) => State(s.sh, WakeAll(s.threads)[t := s.threads[t].(pc := Idle)])
    case Do(p) => State(Posted(s.sh, p), s.threads)
  }

  /** The state usbi_io_init leaves: the internal event source has been added, so the
      sources count as modified and the pipe holds one signal. */
  ghost predicate Init(s: State) {
    && s.sh == Shared({SourcesModified}, 1, 0, None, false, None, 0, [], [], [], [EVENT_FD], [], None, {})
    && forall t :: t in s.threads ==> s.threads[t] == Thread(Idle, None, false)
  }

  /** A run: a sequence of states, each reached from the one before by an enabled action. */
  ghost predicate IsRun(run: seq<State>, acts: seq<Action>) {
    && |run| == |acts| + 1
    && Init(run[0])
    && forall i {:trigger acts[i]} :: 0 <= i < |acts| ==>
         Enabled(run[i], acts[i]) && run[i + 1] == Apply(run[i], acts[i])
  }
}
