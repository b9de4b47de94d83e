/** Lock order: the lock and unlock operations of the API entry points on Linux, for any number
    of threads, and the absence of deadlock on events_lock, open_devs_lock, event_waiters_lock,
    flying_transfers_lock, the per-transfer locks and event_data_lock. */
module LockOrder {
  import opened Wrappers

  type Tid = nat

  datatype Lock = Events | OpenDevs | Waiters | Flying | Transfer(id: nat) | Data

  /** The fixed order in which locks are taken. */
  function Rank(l: Lock): nat {
    match l
    case Events => 0
    case OpenDevs => 1
    case Waiters => 2
    case Flying => 3
    case Transfer(_) => 4
    case Data => 5
  }

  /** What a thread still has to do to the locks.  Try is a trylock, which never blocks. */
  datatype Prog =
    | Done
    | Acquire(l: Lock, next: Prog)
    | Release(l: Lock, next: Prog)
    | Try(l: Lock, got: Prog, missed: Prog)

  // ----- The lock programs of the source -----

  datatype SubmitOutcome = Busy | ListFailed | BackendFailed | Submitted

  /** The calls a callback may make, and some that it may make only in places. */
  datatype Call =
    | Submit(x: nat, outcome: SubmitOutcome, signals: bool)
    | Cancel(x: nat, signals: bool)
    | NextTimeout
    | EventData
    | Open
    | CloseInHandler(xs: seq<nat>)
    | HandleInCallback

  /** One completion: what usbi_handle_transfer_cancellation or _completion does, after the
      transfer's lock was taken to look at it. */
  datatype Completion = Completion(x: nat, cancelled: bool, callback: Option<seq<Call>>)

  /** A request handed back by the kernel: one that leaves its transfer pending is handled under
      the transfer's lock alone, the last one completes it. */
  datatype Reap = Early(x: nat) | Final(c: Completion)

  /** What op_handle_events does for one descriptor.  A disconnect looks for a transfer in
      flight and completes it, over and over, until a scan finds none. */
  datatype BackendEvent =
    | Reaps(reaped: seq<Reap>)
    | Disconnect(reaped: seq<Reap>, rounds: seq<Round>, lastScan: seq<nat>)
  datatype Round = Round(scan: seq<nat>, c: Completion)

  /** One pass of handle_events: poll timed out, or events are there; backend says what the
      backend has to do, if anything. */
  datatype Handling =
    | PollTimedOut(timeouts: seq<nat>)
    | Ready(drained: seq<Completion>, hotplug: seq<Call>, backend: Option<seq<BackendEvent>>)

  /** libusb_handle_events_timeout_completed: what it does with events_lock, and without. */
  datatype HandleCall = HandleCall(handling: Handling, waiting: Waiting)
  datatype Waiting = AlreadyDone | Retry(again: HandleCall) | Park(timeouts: Option<seq<nat>>)

  datatype TopCall =
    | Plain(c: Call)
    | Expired(timeouts: seq<nat>)
    | HandleEvents(h: HandleCall)
    | LockedHandling(hs: seq<Handling>)
    | Close(xs: seq<nat>)

  function DataSection(k: Prog): Prog {
    Acquire(Data, Release(Data, k))
  }

  function Signal(signals: bool, k: Prog): Prog {
    if signals then DataSection(k) else k
  }

  /** libusb_submit_transfer takes a then b and releases a then b. */
  function SubmitProg(x: nat, outcome: SubmitOutcome, signals: bool, k: Prog): Prog {
    Acquire(Flying, Acquire(Transfer(x),
      match outcome
      case Busy | ListFailed => Release(Flying, Release(Transfer(x), k))
      case Submitted => Release(Flying, Signal(signals, Release(Transfer(x), k)))
      case BackendFailed =>
        Release(Flying, Release(Transfer(x), Acquire(Flying, Release(Flying, k))))))
  }

  function CancelProg(x: nat, signals: bool, k: Prog): Prog {
    Acquire(Transfer(x), Signal(signals, Release(Transfer(x), k)))
  }

  /** The transfer locks a loop over the flying list takes one after the other. */
  function LockEach(xs: seq<nat>, k: Prog): Prog {
    if xs == [] then k else CancelProg(xs[0], false, LockEach(xs[1..], k))
  }

  /** handle_timeouts, do_close and usbi_handle_disconnect all walk the list like this. */
  function WalkFlying(xs: seq<nat>, k: Prog): Prog {
    Acquire(Flying, LockEach(xs, Release(Flying, k)))
  }

  /** libusb_handle_events called from a callback: the events lock is already held, so the
      trylock misses and the call goes on to event_waiters_lock. */
  function NestedHandleProg(k: Prog): Prog {
    DataSection(Try(Events, Release(Events, k), Acquire(Waiters, Release(Waiters, k))))
  }

  /** libusb_open adds an event source and then the handle to the list of open devices. */
  function OpenProg(k: Prog): Prog {
    DataSection(Acquire(OpenDevs, Release(OpenDevs, k)))
  }

  /** do_close: the transfers of the handle, the list of open devices, the event source. */
  function CloseProg(xs: seq<nat>, k: Prog): Prog {
    WalkFlying(xs, Acquire(OpenDevs, Release(OpenDevs, DataSection(k))))
  }

  function CallProg(c: Call, k: Prog): Prog {
    match c
    case Submit(x, outcome, signals) => SubmitProg(x, outcome, signals, k)
    case Cancel(x, signals) => CancelProg(x, signals, k)
    case NextTimeout => WalkFlying([], k)
    case EventData => DataSection(k)
    case Open => OpenProg(k)
    case CloseInHandler(xs) => CloseProg(xs, k)
    case HandleInCallback => NestedHandleProg(k)
  }

  function CallsProg(cs: seq<Call>, k: Prog): Prog {
    if cs == [] then k else CallProg(cs[0], CallsProg(cs[1..], k))
  }

  /** The callback runs with event_waiters_lock held. */
  function CallbackProg(callback: Option<seq<Call>>, k: Prog): Prog {
    if callback.None? then k else Acquire(Waiters, CallsProg(callback.value, Release(Waiters, k)))
  }

  function CompletionProg(c: Completion, k: Prog): Prog {
    var finish := WalkFlying([], CancelProg(c.x, false, CallbackProg(c.callback, k)));
    CancelProg(c.x, false, if c.cancelled then WalkFlying([], finish) else finish)
  }

  function CompletionsProg(cs: seq<Completion>, k: Prog): Prog {
    if cs == [] then k else CompletionProg(cs[0], CompletionsProg(cs[1..], k))
  }

  function ReapProg(r: Reap, k: Prog): Prog {
    match r
    case Early(x) => CancelProg(x, false, k)
    case Final(c) => CompletionProg(c, k)
  }

  function ReapsProg(rs: seq<Reap>, k: Prog): Prog {
    if rs == [] then k else ReapProg(rs[0], ReapsProg(rs[1..], k))
  }

  /** usbi_handle_disconnect: scan, complete what was found, and again. */
  function RoundsProg(rounds: seq<Round>, k: Prog): Prog {
    if rounds == [] then k
    else WalkFlying(rounds[0].scan, CompletionProg(rounds[0].c, RoundsProg(rounds[1..], k)))
  }

  /** A lost device: its event source is removed and its disconnect announced first. */
  function EventProg(e: BackendEvent, k: Prog): Prog {
    match e
    case Reaps(reaped) => ReapsProg(reaped, k)
    case Disconnect(reaped, rounds, lastScan) =>
      DataSection(DataSection(ReapsProg(reaped, RoundsProg(rounds, WalkFlying(lastScan, k)))))
  }

  function EventsProg(es: seq<BackendEvent>, k: Prog): Prog {
    if es == [] then k else EventProg(es[0], EventsProg(es[1..], k))
  }

  /** op_handle_events holds open_devs_lock throughout. */
  function BackendProg(backend: Option<seq<BackendEvent>>, k: Prog): Prog {
    if backend.None? then k else Acquire(OpenDevs, EventsProg(backend.value, Release(OpenDevs, k)))
  }

  function HandlingProg(h: Handling, k: Prog): Prog {
    DataSection(
      match h
      case PollTimedOut(timeouts) => WalkFlying(timeouts, k)
      case Ready(drained, hotplug, backend) =>
        DataSection(CompletionsProg(drained, DataSection(CallsProg(hotplug, BackendProg(backend, k))))))
  }

  function HandlingsProg(hs: seq<Handling>, k: Prog): Prog {
    if hs == [] then k else WalkFlying([], HandlingProg(hs[0], HandlingsProg(hs[1..], k)))
  }

  /** libusb_unlock_events: release, then broadcast under event_waiters_lock. */
  function UnlockEventsProg(k: Prog): Prog {
    Release(Events, Acquire(Waiters, Release(Waiters, k)))
  }

  function HandleProg(h: HandleCall, k: Prog): Prog {
    DataSection(Try(Events,
      HandlingProg(h.handling, UnlockEventsProg(k)),
      Acquire(Waiters,
        match h.waiting
        case AlreadyDone => Release(Waiters, k)
        case Retry(again) => DataSection(Release(Waiters, HandleProg(again, k)))
        case Park(timeouts) =>
          DataSection(Release(Waiters, Acquire(Waiters, Release(Waiters,
            if timeouts.None? then k else WalkFlying(timeouts.value, k))))))))
  }

  function TopProg(c: TopCall, k: Prog): Prog {
    match c
    case Plain(call) => CallProg(call, k)
    case Expired(timeouts) => WalkFlying([], WalkFlying(timeouts, k))
    case HandleEvents(h) => WalkFlying([], HandleProg(h, k))
    case LockedHandling(hs) => Acquire(Events, HandlingsProg(hs, UnlockEventsProg(k)))
    case Close(xs) => DataSection(Acquire(Events, CloseProg(xs, DataSection(UnlockEventsProg(k)))))
  }

  function ThreadProg(cs: seq<TopCall>): Prog {
    if cs == [] then Done else TopProg(cs[0], ThreadProg(cs[1..]))
  }

  // ----- What callbacks may do -----

  /** The locks a callback or an outside caller can hold when it calls the library. */
  predicate Context(held: set<Lock>) {
    held == {} || held == {Events} || held == {Events, Waiters} || held == {Events, OpenDevs}
    || held == {Events, OpenDevs, Waiters}
  }

  /** A callback called from the backend may not open or close a device, and no transfer
      callback may handle events. */
  predicate Allowed(c: Call, held: set<Lock>) {
    && (c.Open? || c.CloseInHandler? ==> OpenDevs !in held)
    && (c.HandleInCallback? ==> Waiters !in held)
  }

  predicate AllAllowed(cs: seq<Call>, held: set<Lock>) {
    forall i :: 0 <= i < |cs| ==> Allowed(cs[i], held)
  }

  /** held are the locks around the completion; its callback runs with one more. */
  predicate QuietOne(c: Completion, held: set<Lock>) {
    c.callback.Some? ==> AllAllowed(c.callback.value, held + {Waiters})
  }

  predicate Quiet(cs: seq<Completion>, held: set<Lock>) {
    forall i :: 0 <= i < |cs| ==> QuietOne(cs[i], held)
  }

  predicate QuietReap(r: Reap, held: set<Lock>) {
    r.Final? ==> QuietOne(r.c, held)
  }

  predicate QuietReaps(rs: seq<Reap>, held: set<Lock>) {
    forall i :: 0 <= i < |rs| ==> QuietReap(rs[i], held)
  }

  predicate QuietRounds(rounds: seq<Round>, held: set<Lock>) {
    forall i :: 0 <= i < |rounds| ==> QuietOne(rounds[i].c, held)
  }

  predicate QuietEvent(e: BackendEvent, held: set<Lock>) {
    match e
    case Reaps(reaped) => QuietReaps(reaped, held)
    case Disconnect(reaped, rounds, _) => QuietReaps(reaped, held) && QuietRounds(rounds, held)
  }

  predicate QuietEvents(es: seq<BackendEvent>, held: set<Lock>) {
    forall i :: 0 <= i < |es| ==> QuietEvent(es[i], held)
  }

  predicate QuietHandling(h: Handling) {
    h.Ready? ==>
      && Quiet(h.drained, {Events}) && AllAllowed(h.hotplug, {Events})
      && (h.backend.Some? ==> QuietEvents(h.backend.value, {Events, OpenDevs}))
  }

  predicate QuietHandle(h: HandleCall) {
    QuietHandling(h.handling) && (h.waiting.Retry? ==> QuietHandle(h.waiting.again))
  }

  predicate QuietTop(c: TopCall) {
    match c
    case Plain(_) => true
    case Expired(_) => true
    case HandleEvents(h) => QuietHandle(h)
    case LockedHandling(hs) => forall i :: 0 <= i < |hs| ==> QuietHandling(hs[i])
    case Close(_) => true
  }

  // ----- Every program respects the order -----

  /** Every lock in held ranks below r. */
  ghost predicate Below(held: set<Lock>, r: nat) {
    forall l :: l in held ==> Rank(l) < r
  }

  /** Locks are taken upward, but for one case: the owner of events_lock may take
      open_devs_lock above event_waiters_lock.  Any other owner of open_devs_lock takes
      nothing on top of it. */
  ghost predicate MayTake(l: Lock, held: set<Lock>) {
    && (Below(held, Rank(l)) || (l == OpenDevs && held == {Events, Waiters}))
    && (OpenDevs in held ==> Events in held)
  }

  /** With the locks in held, the program takes only locks it may take, releases only what
      it holds, and ends with nothing held. */
  ghost predicate WellRanked(p: Prog, held: set<Lock>) {
    match p
    case Done => held == {}
    case Acquire(l, next) => MayTake(l, held) && WellRanked(next, held + {l})
    case Release(l, next) => l in held && WellRanked(next, held - {l})
    case Try(l, got, missed) =>
      && l == Events
      && (l !in held ==> WellRanked(got, held + {l}))
      && WellRanked(missed, held)
  }

  /** Below flying_transfers_lock, with open_devs_lock only under events_lock. */
  ghost predicate Base(held: set<Lock>) {
    Below(held, 3) && (OpenDevs in held ==> Events in held)
  }

  lemma SectionRanked(k: Prog, held: set<Lock>)
    requires Below(held, 5) && (OpenDevs in held ==> Events in held) && WellRanked(k, held)
    ensures WellRanked(DataSection(k), held)
  {
    assert held + {Data} - {Data} == held;
  }

  lemma SubmitRanked(x: nat, o: SubmitOutcome, signals: bool, k: Prog, held: set<Lock>)
    requires Base(held) && WellRanked(k, held)
    ensures WellRanked(SubmitProg(x, o, signals, k), held)
  {
    var both := held + {Flying} + {Transfer(x)};
    assert both - {Flying} == held + {Transfer(x)};
    assert both - {Flying} - {Transfer(x)} == held + {Transfer(x)} - {Transfer(x)} == held;
    WalkRanked([], k, held);
    assert WellRanked(Release(Transfer(x), k), held + {Transfer(x)});
    assert WellRanked(Release(Transfer(x), WalkFlying([], k)), held + {Transfer(x)});
    if signals {
      SectionRanked(Release(Transfer(x), k), held + {Transfer(x)});
    }
    assert WellRanked(Signal(signals, Release(Transfer(x), k)), held + {Transfer(x)});
    var Acquire(_, Acquire(_, rest)) := SubmitProg(x, o, signals, k);
    assert WellRanked(rest, both);
  }

  lemma CancelRanked(x: nat, signals: bool, k: Prog, held: set<Lock>)
    requires Below(held, 4) && (OpenDevs in held ==> Events in held) && WellRanked(k, held)
    ensures WellRanked(CancelProg(x, signals, k), held)
  {
    var h := held + {Transfer(x)};
    assert h - {Transfer(x)} == held;
    if signals {
      SectionRanked(Release(Transfer(x), k), h);
    }
  }

  lemma {:induction false} LockEachRanked(xs: seq<nat>, k: Prog, held: set<Lock>)
    requires Below(held, 4) && (OpenDevs in held ==> Events in held) && WellRanked(k, held)
    ensures WellRanked(LockEach(xs, k), held)
  {
    if xs != [] {
      LockEachRanked(xs[1..], k, held);
      CancelRanked(xs[0], false, LockEach(xs[1..], k), held);
    }
  }

  lemma WalkRanked(xs: seq<nat>, k: Prog, held: set<Lock>)
    requires Base(held) && WellRanked(k, held)
    ensures WellRanked(WalkFlying(xs, k), held)
  {
    var h := held + {Flying};
    assert h - {Flying} == held;
    LockEachRanked(xs, Release(Flying, k), h);
  }

  /** open_devs_lock is taken for a moment, in a place where it is allowed. */
  lemma MomentRanked(k: Prog, held: set<Lock>)
    requires Context(held) && OpenDevs !in held && WellRanked(k, held)
    ensures WellRanked(Acquire(OpenDevs, Release(OpenDevs, k)), held)
  {
    assert held + {OpenDevs} - {OpenDevs} == held;
  }

  lemma CloseRanked(xs: seq<nat>, k: Prog, held: set<Lock>)
    requires Context(held) && OpenDevs !in held && WellRanked(k, held)
    ensures WellRanked(CloseProg(xs, k), held)
  {
    SectionRanked(k, held);
    MomentRanked(DataSection(k), held);
    WalkRanked(xs, Acquire(OpenDevs, Release(OpenDevs, DataSection(k))), held);
  }

  lemma CallRanked(c: Call, k: Prog, held: set<Lock>)
    requires Context(held) && Allowed(c, held) && WellRanked(k, held)
    ensures WellRanked(CallProg(c, k), held)
  {
    match c
    case Submit(x, o, signals) => SubmitRanked(x, o, signals, k, held);
    case Cancel(x, signals) => CancelRanked(x, signals, k, held);
    case NextTimeout => WalkRanked([], k, held);
    case EventData => SectionRanked(k, held);
    case Open =>
      MomentRanked(k, held);
      SectionRanked(Acquire(OpenDevs, Release(OpenDevs, k)), held);
    case CloseInHandler(xs) => CloseRanked(xs, k, held);
    case HandleInCallback =>
      assert Events !in held ==> held + {Events} - {Events} == held;
      assert held + {Waiters} - {Waiters} == held;
      SectionRanked(Try(Events, Release(Events, k), Acquire(Waiters, Release(Waiters, k))), held);
  }

  lemma {:induction false} CallsRanked(cs: seq<Call>, k: Prog, held: set<Lock>)
    requires Context(held) && AllAllowed(cs, held) && WellRanked(k, held)
    ensures WellRanked(CallsProg(cs, k), held)
  {
    if cs != [] {
      CallsRanked(cs[1..], k, held);
      CallRanked(cs[0], CallsProg(cs[1..], k), held);
    }
  }

  /** The locks around a completion. */
  predicate Around(held: set<Lock>) {
    held == {Events} || held == {Events, OpenDevs}
  }

  lemma CompletionRanked(c: Completion, k: Prog, held: set<Lock>)
    requires Around(held) && WellRanked(k, held) && QuietOne(c, held)
    ensures WellRanked(CompletionProg(c, k), held)
  {
    var tail := CallbackProg(c.callback, k);
    if c.callback.Some? {
      assert held + {Waiters} - {Waiters} == held;
      CallsRanked(c.callback.value, Release(Waiters, k), held + {Waiters});
    }
    CancelRanked(c.x, false, tail, held);
    WalkRanked([], CancelProg(c.x, false, tail), held);
    var finish := WalkFlying([], CancelProg(c.x, false, tail));
    WalkRanked([], finish, held);
    CancelRanked(c.x, false, if c.cancelled then WalkFlying([], finish) else finish, held);
  }

  lemma {:induction false} CompletionsRanked(cs: seq<Completion>, k: Prog, held: set<Lock>)
    requires Around(held) && WellRanked(k, held) && Quiet(cs, held)
    ensures WellRanked(CompletionsProg(cs, k), held)
  {
    if cs != [] {
      CompletionsRanked(cs[1..], k, held);
      CompletionRanked(cs[0], CompletionsProg(cs[1..], k), held);
    }
  }

  lemma {:induction false} ReapsRanked(rs: seq<Reap>, k: Prog, held: set<Lock>)
    requires Around(held) && WellRanked(k, held) && QuietReaps(rs, held)
    ensures WellRanked(ReapsProg(rs, k), held)
  {
    hide CompletionProg, CancelProg, QuietOne;
    if rs != [] {
      ReapsRanked(rs[1..], k, held);
      assert QuietReap(rs[0], held);
      match rs[0] {
        case Early(x) => CancelRanked(x, false, ReapsProg(rs[1..], k), held);
        case Final(c) => CompletionRanked(c, ReapsProg(rs[1..], k), held);
      }
    }
  }

  lemma {:induction false} RoundsRanked(rounds: seq<Round>, k: Prog, held: set<Lock>)
    requires Around(held) && WellRanked(k, held) && QuietRounds(rounds, held)
    ensures WellRanked(RoundsProg(rounds, k), held)
  {
    if rounds != [] {
      RoundsRanked(rounds[1..], k, held);
      var more := RoundsProg(rounds[1..], k);
      CompletionRanked(rounds[0].c, more, held);
      WalkRanked(rounds[0].scan, CompletionProg(rounds[0].c, more), held);
    }
  }

  lemma EventRanked(e: BackendEvent, k: Prog, held: set<Lock>)
    requires Around(held) && WellRanked(k, held) && QuietEvent(e, held)
    ensures WellRanked(EventProg(e, k), held)
  {
    match e
    case Reaps(reaped) => ReapsRanked(reaped, k, held);
    case Disconnect(reaped, rounds, lastScan) =>
      WalkRanked(lastScan, k, held);
      RoundsRanked(rounds, WalkFlying(lastScan, k), held);
      var p := ReapsProg(reaped, RoundsProg(rounds, WalkFlying(lastScan, k)));
      ReapsRanked(reaped, RoundsProg(rounds, WalkFlying(lastScan, k)), held);
      SectionRanked(p, held);
      SectionRanked(DataSection(p), held);
  }

  lemma {:induction false} EventsRanked(es: seq<BackendEvent>, k: Prog, held: set<Lock>)
    requires Around(held) && WellRanked(k, held) && QuietEvents(es, held)
    ensures WellRanked(EventsProg(es, k), held)
  {
    if es != [] {
      EventsRanked(es[1..], k, held);
      EventRanked(es[0], EventsProg(es[1..], k), held);
    }
  }

  lemma BackendRanked(backend: Option<seq<BackendEvent>>, k: Prog)
    requires WellRanked(k, {Events}) && (backend.Some? ==> QuietEvents(backend.value, {Events, OpenDevs}))
    ensures WellRanked(BackendProg(backend, k), {Events})
  {
    if backend.Some? {
      assert {Events} + {OpenDevs} == {Events, OpenDevs} && {Events, OpenDevs} - {OpenDevs} == {Events};
      EventsRanked(backend.value, Release(OpenDevs, k), {Events, OpenDevs});
    }
  }

  lemma HandlingRanked(h: Handling, k: Prog)
    requires WellRanked(k, {Events}) && QuietHandling(h)
    ensures WellRanked(HandlingProg(h, k), {Events})
  {
    match h
    case PollTimedOut(timeouts) =>
      WalkRanked(timeouts, k, {Events});
      SectionRanked(WalkFlying(timeouts, k), {Events});
    case Ready(drained, hotplug, backend) =>
      var p1 := BackendProg(backend, k);
      BackendRanked(backend, k);
      var p2 := CallsProg(hotplug, p1);
      CallsRanked(hotplug, p1, {Events});
      SectionRanked(p2, {Events});
      var p3 := CompletionsProg(drained, DataSection(p2));
      CompletionsRanked(drained, DataSection(p2), {Events});
      SectionRanked(p3, {Events});
      SectionRanked(DataSection(p3), {Events});
  }

  lemma {:induction false} HandlingsRanked(hs: seq<Handling>, k: Prog)
    requires WellRanked(k, {Events})
    requires forall i :: 0 <= i < |hs| ==> QuietHandling(hs[i])
    ensures WellRanked(HandlingsProg(hs, k), {Events})
  {
    if hs != [] {
      HandlingsRanked(hs[1..], k);
      HandlingRanked(hs[0], HandlingsProg(hs[1..], k));
      WalkRanked([], HandlingProg(hs[0], HandlingsProg(hs[1..], k)), {Events});
    }
  }

  lemma UnlockRanked(k: Prog)
    requires WellRanked(k, {})
    ensures WellRanked(UnlockEventsProg(k), {Events})
  {
    assert {Events} - {Events} == {};
    assert {} + {Waiters} - {Waiters} == {};
  }

  lemma {:induction false} HandleRanked(h: HandleCall, k: Prog)
    requires WellRanked(k, {}) && QuietHandle(h)
    ensures WellRanked(HandleProg(h, k), {})
  {
    UnlockRanked(k);
    assert {} + {Events} == {Events} && {} + {Waiters} == {Waiters} && {Waiters} - {Waiters} == {};
    HandlingRanked(h.handling, UnlockEventsProg(k));
    match h.waiting {
      case AlreadyDone =>
      case Retry(again) =>
        HandleRanked(again, k);
        SectionRanked(Release(Waiters, HandleProg(again, k)), {Waiters});
      case Park(timeouts) =>
        if timeouts.Some? {
          WalkRanked(timeouts.value, k, {});
        }
        var after := if timeouts.None? then k else WalkFlying(timeouts.value, k);
        assert WellRanked(Acquire(Waiters, Release(Waiters, after)), {});
        SectionRanked(Release(Waiters, Acquire(Waiters, Release(Waiters, after))), {Waiters});
    }
    var Acquire(_, Release(_, body)) := HandleProg(h, k);
    SectionRanked(body, {});
  }

  lemma TopRanked(c: TopCall, k: Prog)
    requires WellRanked(k, {}) && QuietTop(c)
    ensures WellRanked(TopProg(c, k), {})
  {
    assert {} + {Events} == {Events};
    UnlockRanked(k);
    match c
    case Plain(call) => CallRanked(call, k, {});
    case Expired(timeouts) =>
      WalkRanked(timeouts, k, {});
      WalkRanked([], WalkFlying(timeouts, k), {});
    case HandleEvents(h) =>
      HandleRanked(h, k);
      WalkRanked([], HandleProg(h, k), {});
    case LockedHandling(hs) => HandlingsRanked(hs, UnlockEventsProg(k));
    case Close(xs) =>
      var p := DataSection(UnlockEventsProg(k));
      SectionRanked(UnlockEventsProg(k), {Events});
      CloseRanked(xs, p, {Events});
      SectionRanked(Acquire(Events, CloseProg(xs, p)), {});
  }

  /** Every thread made of API calls takes only locks it may take, so it never
      holds two transfer locks, and ends with none. */
  lemma {:induction false} ThreadRanked(cs: seq<TopCall>)
    requires forall i :: 0 <= i < |cs| ==> QuietTop(cs[i])
    ensures WellRanked(ThreadProg(cs), {})
  {
    if cs != [] {
      ThreadRanked(cs[1..]);
      TopRanked(cs[0], ThreadProg(cs[1..]));
    }
  }

  // ----- Runs of many threads -----

  datatype Thread = Thread(prog: Prog, held: set<Lock>)
  type System = map<Tid, Thread>

  ghost predicate Free(s: System, l: Lock) {
    forall t :: t in s ==> l !in s[t].held
  }

  /** Thread t can take its next step; only a plain acquisition can block. */
  ghost predicate CanStep(s: System, t: Tid) {
    && t in s && !s[t].prog.Done?
    && (s[t].prog.Acquire? ==> Free(s, s[t].prog.l))
  }

  ghost function Step(s: System, t: Tid): System
    requires CanStep(s, t)
  {
    var Thread(p, held) := s[t];
    s[t := match p
           case Acquire(l, next) => Thread(next, held + {l})
           case Release(l, next) => Thread(next, held - {l})
           case Try(l, got, missed) => if Free(s, l) then Thread(got, held + {l}) else Thread(missed, held)]
  }

  /** Every thread is about to make API calls and holds nothing. */
  ghost predicate Starts(s: System) {
    forall t :: t in s ==> s[t].held == {} && exists cs :: s[t].prog == ThreadProg(cs)
  }

  /** And its callbacks do only what they may. */
  ghost predicate StartsQuiet(s: System) {
    forall t :: t in s ==>
      s[t].held == {} &&
      exists cs :: s[t].prog == ThreadProg(cs) && forall i :: 0 <= i < |cs| ==> QuietTop(cs[i])
  }

  ghost predicate Follows(run: seq<System>, who: seq<Tid>) {
    && |run| == |who| + 1
    && forall i {:trigger who[i]} :: 0 <= i < |who| ==>
         CanStep(run[i], who[i]) && run[i + 1] == Step(run[i], who[i])
  }

  ghost predicate IsRun(run: seq<System>, who: seq<Tid>) {
    Follows(run, who) && StartsQuiet(run[0])
  }

  ghost predicate OneTransfer(held: set<Lock>) {
    forall x, y :: Transfer(x) in held && Transfer(y) in held ==> x == y
  }

  /** Each lock has one holder, every thread still respects the order, and none holds two
      transfer locks. */
  ghost predicate Ordered(s: System) {
    && (forall t :: t in s ==> WellRanked(s[t].prog, s[t].held) && OneTransfer(s[t].held))
    && (forall t, u, l :: t in s && u in s && l in s[t].held && l in s[u].held ==> t == u)
  }

  lemma StepOrdered(s: System, t: Tid)
    requires Ordered(s) && CanStep(s, t)
    ensures Ordered(Step(s, t))
  {
  }

  lemma {:induction false} RunOrdered(run: seq<System>, who: seq<Tid>, i: nat)
    requires IsRun(run, who) && i < |run|
    ensures Ordered(run[i])
  {
    if i == 0 {
      forall t | t in run[0] ensures WellRanked(run[0][t].prog, {}) {
        var cs :| run[0][t].prog == ThreadProg(cs) && forall i :: 0 <= i < |cs| ==> QuietTop(cs[i]);
        ThreadRanked(cs);
      }
    } else {
      RunOrdered(run, who, i - 1);
      StepOrdered(run[i - 1], who[i - 1]);
    }
  }

  /** Thread t waits for a lock that thread u holds. */
  ghost predicate WaitsFor(s: System, t: Tid, u: Tid) {
    t in s && u in s && s[t].prog.Acquire? && s[t].prog.l in s[u].held
  }

  ghost predicate WaitsInside(s: System, t: Tid, stuck: set<Tid>) {
    exists u :: u in stuck && WaitsFor(s, t, u)
  }

  /** A deadlock: a set of threads each of which waits for a lock held inside the set. */
  ghost predicate Deadlocked(s: System, stuck: set<Tid>) {
    && stuck != {}
    && forall t {:trigger WaitsInside(s, t, stuck)} :: t in stuck ==> WaitsInside(s, t, stuck)
  }

  /** Following the waits climbs the ranks, unless the owner of events_lock waits for
      open_devs_lock; whoever holds that waits for nothing. */
  lemma WaitsClimb(s: System, t: Tid, u: Tid)
    requires Ordered(s) && WaitsFor(s, t, u) && s[u].prog.Acquire?
    ensures Rank(s[t].prog.l) < Rank(s[u].prog.l) || (s[u].prog.l == OpenDevs && Events in s[u].held)
    ensures s[t].prog.l == OpenDevs ==> Events in s[u].held
  {
    assert WellRanked(s[u].prog, s[u].held);
  }

  /** A thread of a deadlock waits for another one of it, which waits as well. */
  lemma NextWait(s: System, stuck: set<Tid>, t: Tid) returns (u: Tid)
    requires Deadlocked(s, stuck) && t in stuck
    ensures u in stuck && WaitsFor(s, t, u) && s[u].prog.Acquire?
  {
    assert WaitsInside(s, t, stuck);
    u :| u in stuck && WaitsFor(s, t, u);
    assert WaitsInside(s, u, stuck);
  }

  lemma {:induction false} NoClimb(s: System, stuck: set<Tid>, t: Tid)
    requires Ordered(s) && Deadlocked(s, stuck) && t in stuck && t in s && s[t].prog.Acquire?
    ensures false
    decreases 5 - Rank(s[t].prog.l)
  {
    var u := NextWait(s, stuck, t);
    WaitsClimb(s, t, u);
    if Rank(s[t].prog.l) < Rank(s[u].prog.l) {
      NoClimb(s, stuck, u);
    } else {
      var v := NextWait(s, stuck, u);
      WaitsClimb(s, u, v);
    }
  }

  /** In no run of any number of threads whose callbacks do only what they may is any set of
      threads deadlocked, at any point. */
  lemma NoDeadlock(run: seq<System>, who: seq<Tid>, i: nat, stuck: set<Tid>)
    requires IsRun(run, who) && i < |run|
    ensures !Deadlocked(run[i], stuck)
  {
    RunOrdered(run, who, i);
    if Deadlocked(run[i], stuck) {
      var t :| t in stuck;
      var u := NextWait(run[i], stuck, t);
      NoClimb(run[i], stuck, t);
    }
  }

  /** In no run does a thread hold the locks of two transfers at once. */
  lemma OneTransferLock(run: seq<System>, who: seq<Tid>, i: nat, t: Tid, x: nat, y: nat)
    requires IsRun(run, who) && i < |run| && t in run[i]
    requires Transfer(x) in run[i][t].held && Transfer(y) in run[i][t].held
    ensures x == y
  {
    RunOrdered(run, who, i);
  }

  // ----- The restriction on callbacks is exact -----

  /** A thread that is alone gets to the end of its program. */
  ghost predicate Runs(p: Prog, held: set<Lock>) {
    match p
    case Done => true
    case Acquire(l, next) => l !in held && Runs(next, held + {l})
    case Release(l, next) => Runs(next, held - {l})
    case Try(l, got, missed) => if l !in held then Runs(got, held + {l}) else Runs(missed, held)
  }

  lemma SectionRuns(k: Prog, held: set<Lock>)
    requires Data !in held
    ensures Runs(DataSection(k), held) <==> Runs(k, held)
  {
    assert held + {Data} - {Data} == held;
  }

  lemma CancelRuns(x: nat, signals: bool, k: Prog, held: set<Lock>)
    requires Data !in held && Transfer(x) !in held
    ensures Runs(CancelProg(x, signals, k), held) <==> Runs(k, held)
  {
    var h := held + {Transfer(x)};
    assert h - {Transfer(x)} == held;
    SectionRuns(Release(Transfer(x), k), h);
  }

  lemma {:induction false} LockEachRuns(xs: seq<nat>, k: Prog, held: set<Lock>)
    requires Data !in held && forall x :: Transfer(x) !in held
    ensures Runs(LockEach(xs, k), held) <==> Runs(k, held)
  {
    if xs != [] {
      LockEachRuns(xs[1..], k, held);
      CancelRuns(xs[0], false, LockEach(xs[1..], k), held);
    }
  }

  lemma WalkRuns(xs: seq<nat>, k: Prog, held: set<Lock>)
    requires Context(held)
    ensures Runs(WalkFlying(xs, k), held) <==> Runs(k, held)
  {
    var h := held + {Flying};
    assert h - {Flying} == held;
    LockEachRuns(xs, Release(Flying, k), h);
  }

  lemma SubmitRuns(x: nat, o: SubmitOutcome, signals: bool, k: Prog, held: set<Lock>)
    requires Context(held)
    ensures Runs(SubmitProg(x, o, signals, k), held) <==> Runs(k, held)
  {
    var one, both := held + {Transfer(x)}, held + {Flying} + {Transfer(x)};
    assert both - {Flying} == one && one - {Transfer(x)} == held;
    WalkRuns([], k, held);
    SectionRuns(Release(Transfer(x), k), one);
    assert Runs(Release(Transfer(x), k), one) <==> Runs(k, held);
    assert Runs(Release(Transfer(x), WalkFlying([], k)), one) <==> Runs(k, held);
    var Acquire(_, Acquire(_, rest)) := SubmitProg(x, o, signals, k);
    assert Runs(rest, both) <==> Runs(k, held);
  }

  lemma MomentRuns(k: Prog, held: set<Lock>)
    ensures Runs(Acquire(OpenDevs, Release(OpenDevs, k)), held) <==> OpenDevs !in held && Runs(k, held)
  {
    if OpenDevs !in held {
      assert held + {OpenDevs} - {OpenDevs} == held;
    }
  }

  /** A call gets through exactly if it is allowed where it is made. */
  lemma CallRuns(c: Call, k: Prog, held: set<Lock>)
    requires Context(held)
    ensures Runs(CallProg(c, k), held) <==> Allowed(c, held) && Runs(k, held)
  {
    match c
    case Submit(x, o, signals) => SubmitRuns(x, o, signals, k, held);
    case Cancel(x, signals) => CancelRuns(x, signals, k, held);
    case NextTimeout => WalkRuns([], k, held);
    case EventData => SectionRuns(k, held);
    case Open =>
      MomentRuns(k, held);
      SectionRuns(Acquire(OpenDevs, Release(OpenDevs, k)), held);
    case CloseInHandler(xs) =>
      SectionRuns(k, held);
      MomentRuns(DataSection(k), held);
      WalkRuns(xs, Acquire(OpenDevs, Release(OpenDevs, DataSection(k))), held);
    case HandleInCallback => NestedRuns(k, held);
  }

  lemma NestedRuns(k: Prog, held: set<Lock>)
    requires Context(held)
    ensures Runs(NestedHandleProg(k), held) <==> Waiters !in held && Runs(k, held)
  {
    var miss := Acquire(Waiters, Release(Waiters, k));
    SectionRuns(Try(Events, Release(Events, k), miss), held);
    if Events !in held {
      assert held + {Events} - {Events} == held;
      assert Runs(Release(Events, k), held + {Events}) <==> Runs(k, held);
    } else if Waiters !in held {
      assert held + {Waiters} - {Waiters} == held;
      assert Runs(Release(Waiters, k), held + {Waiters}) <==> Runs(k, held);
    }
  }

  lemma {:induction false} CallsRun(cs: seq<Call>, k: Prog, held: set<Lock>)
    requires Context(held)
    ensures Runs(CallsProg(cs, k), held) <==> AllAllowed(cs, held) && Runs(k, held)
  {
    if cs != [] {
      CallsRun(cs[1..], k, held);
      CallRuns(cs[0], CallsProg(cs[1..], k), held);
      assert AllAllowed(cs, held) <==> Allowed(cs[0], held) && AllAllowed(cs[1..], held) by {
        assert forall i :: 1 <= i < |cs| ==> cs[i] == cs[1..][i - 1];
      }
    }
  }

  lemma CompletionRuns(c: Completion, k: Prog, held: set<Lock>)
    requires Around(held)
    ensures Runs(CompletionProg(c, k), held) <==> QuietOne(c, held) && Runs(k, held)
  {
    hide WalkFlying, CancelProg, Signal, CallProg, CallsProg, AllAllowed;
    var tail := CallbackProg(c.callback, k);
    if c.callback.Some? {
      assert held + {Waiters} - {Waiters} == held;
      CallsRun(c.callback.value, Release(Waiters, k), held + {Waiters});
    }
    CancelRuns(c.x, false, tail, held);
    var finish := WalkFlying([], CancelProg(c.x, false, tail));
    WalkRuns([], CancelProg(c.x, false, tail), held);
    WalkRuns([], finish, held);
    CancelRuns(c.x, false, if c.cancelled then WalkFlying([], finish) else finish, held);
  }

  lemma {:induction false} CompletionsRun(cs: seq<Completion>, k: Prog, held: set<Lock>)
    requires Around(held)
    ensures Runs(CompletionsProg(cs, k), held) <==> Quiet(cs, held) && Runs(k, held)
  {
    hide CompletionProg, QuietOne;
    if cs != [] {
      CompletionsRun(cs[1..], k, held);
      CompletionRuns(cs[0], CompletionsProg(cs[1..], k), held);
      assert Quiet(cs, held) <==> QuietOne(cs[0], held) && Quiet(cs[1..], held) by {
        assert forall i :: 1 <= i < |cs| ==> cs[i] == cs[1..][i - 1];
      }
    }
  }

  lemma {:induction false} ReapsRun(rs: seq<Reap>, k: Prog, held: set<Lock>)
    requires Around(held)
    ensures Runs(ReapsProg(rs, k), held) <==> QuietReaps(rs, held) && Runs(k, held)
  {
    hide CompletionProg, CancelProg, QuietOne;
    if rs != [] {
      ReapsRun(rs[1..], k, held);
      match rs[0] {
        case Early(x) => CancelRuns(x, false, ReapsProg(rs[1..], k), held);
        case Final(c) => CompletionRuns(c, ReapsProg(rs[1..], k), held);
      }
      assert QuietReaps(rs, held) <==> QuietReap(rs[0], held) && QuietReaps(rs[1..], held) by {
        assert forall i :: 1 <= i < |rs| ==> rs[i] == rs[1..][i - 1];
      }
    }
  }

  lemma {:induction false} RoundsRun(rounds: seq<Round>, k: Prog, held: set<Lock>)
    requires Around(held)
    ensures Runs(RoundsProg(rounds, k), held) <==> QuietRounds(rounds, held) && Runs(k, held)
  {
    hide CompletionProg, QuietOne, WalkFlying;
    if rounds != [] {
      RoundsRun(rounds[1..], k, held);
      var more := RoundsProg(rounds[1..], k);
      CompletionRuns(rounds[0].c, more, held);
      WalkRuns(rounds[0].scan, CompletionProg(rounds[0].c, more), held);
      assert QuietRounds(rounds, held) <==> QuietOne(rounds[0].c, held) && QuietRounds(rounds[1..], held) by {
        assert forall i :: 1 <= i < |rounds| ==> rounds[i] == rounds[1..][i - 1];
      }
    }
  }

  lemma EventRuns(e: BackendEvent, k: Prog, held: set<Lock>)
    requires Around(held)
    ensures Runs(EventProg(e, k), held) <==> QuietEvent(e, held) && Runs(k, held)
  {
    hide ReapsProg, RoundsProg, WalkFlying, QuietReaps, QuietRounds;
    match e
    case Reaps(reaped) => ReapsRun(reaped, k, held);
    case Disconnect(reaped, rounds, lastScan) =>
      WalkRuns(lastScan, k, held);
      RoundsRun(rounds, WalkFlying(lastScan, k), held);
      var p := ReapsProg(reaped, RoundsProg(rounds, WalkFlying(lastScan, k)));
      ReapsRun(reaped, RoundsProg(rounds, WalkFlying(lastScan, k)), held);
      SectionRuns(p, held);
      SectionRuns(DataSection(p), held);
  }

  lemma {:induction false} EventsRun(es: seq<BackendEvent>, k: Prog, held: set<Lock>)
    requires Around(held)
    ensures Runs(EventsProg(es, k), held) <==> QuietEvents(es, held) && Runs(k, held)
  {
    hide EventProg, QuietEvent;
    if es != [] {
      EventsRun(es[1..], k, held);
      EventRuns(es[0], EventsProg(es[1..], k), held);
      assert QuietEvents(es, held) <==> QuietEvent(es[0], held) && QuietEvents(es[1..], held) by {
        assert forall i :: 1 <= i < |es| ==> es[i] == es[1..][i - 1];
      }
    }
  }

  /** A pass of handle_events gets through exactly if its callbacks do only what they may. */
  lemma HandlingRuns(h: Handling, k: Prog)
    ensures Runs(HandlingProg(h, k), {Events}) <==> QuietHandling(h) && Runs(k, {Events})
  {
    hide CompletionsProg, EventsProg, CallsProg, WalkFlying, Quiet, QuietEvents, AllAllowed;
    match h
    case PollTimedOut(timeouts) =>
      WalkRuns(timeouts, k, {Events});
      SectionRuns(WalkFlying(timeouts, k), {Events});
    case Ready(drained, hotplug, backend) =>
      var p1 := BackendProg(backend, k);
      if backend.Some? {
        assert {Events} + {OpenDevs} == {Events, OpenDevs} && {Events, OpenDevs} - {OpenDevs} == {Events};
        EventsRun(backend.value, Release(OpenDevs, k), {Events, OpenDevs});
      }
      var p2 := CallsProg(hotplug, p1);
      CallsRun(hotplug, p1, {Events});
      SectionRuns(p2, {Events});
      var p3 := CompletionsProg(drained, DataSection(p2));
      CompletionsRun(drained, DataSection(p2), {Events});
      SectionRuns(p3, {Events});
      SectionRuns(DataSection(p3), {Events});
  }

  /** A thread alone whose program does not get through ends up waiting for itself. */
  lemma {:induction false} SoloRun(p: Prog, held: set<Lock>) returns (run: seq<System>, who: seq<Tid>)
    requires !Runs(p, held)
    ensures Follows(run, who) && run[0] == map[0 := Thread(p, held)]
    ensures Deadlocked(run[|who|], {0})
  {
    var s := map[0 := Thread(p, held)];
    if p.Acquire? && p.l in held {
      assert WaitsFor(s, 0, 0);
      assert WaitsInside(s, 0, {0});
      return [s], [];
    }
    var rest, who' := [], [];
    match p {
      case Acquire(l, next) => rest, who' := SoloRun(next, held + {l});
      case Release(l, next) => rest, who' := SoloRun(next, held - {l});
      case Try(l, got, missed) =>
        if l !in held {
          rest, who' := SoloRun(got, held + {l});
        } else {
          rest, who' := SoloRun(missed, held);
        }
    }
    assert CanStep(s, 0) && rest[0] == Step(s, 0);
    PrependStep(s, rest, who');
    run, who := [s] + rest, [0] + who';
  }

  lemma PrependStep(s: System, rest: seq<System>, who: seq<Tid>)
    requires Follows(rest, who) && CanStep(s, 0) && rest[0] == Step(s, 0)
    ensures Follows([s] + rest, [0] + who)
    ensures ([s] + rest)[|[0] + who|] == rest[|who|]
  {
    var run, all := [s] + rest, [0] + who;
    forall i {:trigger all[i]} | 0 <= i < |all| ensures CanStep(run[i], all[i]) && run[i + 1] == Step(run[i], all[i]) {
      if i > 0 {
        assert all[i] == who[i - 1] && run[i] == rest[i - 1] && run[i + 1] == rest[i];
      }
    }
  }

  /** The restriction is needed in full: for every pass of handle_events in which a callback
      does something else there is a run, from a thread that has taken no lock yet, that ends
      with that thread deadlocked. */
  lemma ForbiddenCallDeadlocks(h: Handling) returns (run: seq<System>, who: seq<Tid>)
    requires !QuietHandling(h)
    ensures Follows(run, who) && Starts(run[0]) && run[0] == map[0 := Thread(ThreadProg([LockedHandling([h])]), {})]
    ensures Deadlocked(run[|who|], {0})
  {
    var cs := [LockedHandling([h])];
    var k := UnlockEventsProg(ThreadProg(cs[1..]));
    HandlingRuns(h, HandlingsProg([h][1..], k));
    WalkRuns([], HandlingProg(h, HandlingsProg([h][1..], k)), {Events});
    assert {} + {Events} == {Events};
    assert !Runs(ThreadProg(cs), {}) by {
      hide HandlingProg, WalkFlying;
      assert ThreadProg(cs) == Acquire(Events, HandlingsProg([h], k));
    }
    run, who := SoloRun(ThreadProg(cs), {});
  }

  /** For instance: a callback of a reaped transfer that closes a device. */
  lemma CallbackMustNotClose() returns (run: seq<System>, who: seq<Tid>)
    ensures Follows(run, who) && Starts(run[0]) && Deadlocked(run[|who|], {0})
  {
    var c := Completion(0, false, Some([CloseInHandler([])]));
    var h := Ready([], [], Some([Reaps([Final(c)])]));
    assert !Allowed(c.callback.value[0], {Events, OpenDevs} + {Waiters});
    assert !QuietReap([Final(c)][0], {Events, OpenDevs});
    assert !QuietEvent(h.backend.value[0], {Events, OpenDevs});
    run, who := ForbiddenCallDeadlocks(h);
  }

  /** And one that handles events. */
  lemma CallbackMustNotHandleEvents() returns (run: seq<System>, who: seq<Tid>)
    ensures Follows(run, who) && Starts(run[0]) && Deadlocked(run[|who|], {0})
  {
    var c := Completion(0, false, Some([HandleInCallback]));
    var h := Ready([c], [], None);
    assert !Allowed(c.callback.value[0], {Events} + {Waiters});
    assert !QuietOne(h.drained[0], {Events});
    run, who := ForbiddenCallDeadlocks(h);
  }
}
