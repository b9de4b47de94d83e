/** Which locks each entry point takes, in which order. */
module LockUse {
  import opened Wrappers
  import opened LockOrder

  /** The locks that p takes, in order; free says whether every trylock finds its lock free. */
  function Taken(p: Prog, free: bool): seq<Lock> {
    match p
    case Done => []
    case Acquire(l, next) => [l] + Taken(next, free)
    case Release(_, next) => Taken(next, free)
    case Try(l, got, missed) => if free then [l] + Taken(got, free) else Taken(missed, free)
  }

  /** The locks of some transfers, one after the other. */
  function Transfers(xs: seq<nat>): seq<Lock> {
    seq(|xs|, i requires 0 <= i < |xs| => Transfer(xs[i]))
  }

  lemma WalkTakes(xs: seq<nat>, k: Prog, free: bool)
    ensures Taken(WalkFlying(xs, k), free) == [Flying] + Transfers(xs) + Taken(k, free)
  {
    EachTakes(xs, Release(Flying, k), free);
    Assoc([Flying], Transfers(xs), Taken(k, free));
  }

  lemma Assoc(a: seq<Lock>, b: seq<Lock>, c: seq<Lock>)
    ensures a + b + c == a + (b + c)
  {
  }

  lemma {:induction false} EachTakes(xs: seq<nat>, k: Prog, free: bool)
    ensures Taken(LockEach(xs, k), free) == Transfers(xs) + Taken(k, free)
  {
    if xs != [] {
      EachTakes(xs[1..], k, free);
      assert Transfers(xs) == [Transfer(xs[0])] + Transfers(xs[1..]);
    }
  }

  /** The locks of a call of the application or a callback.  A nested libusb_handle_events takes
      the events lock or, as it finds it held, event_waiters_lock. */
  function LocksOf(c: Call, free: bool): seq<Lock> {
    match c
    case Submit(x, outcome, signals) =>
      [Flying, Transfer(x)] + (if outcome == Submitted && signals then [Data] else [])
      + if outcome == BackendFailed then [Flying] else []
    case Cancel(x, signals) => [Transfer(x)] + if signals then [Data] else []
    case NextTimeout => [Flying]
    case EventData => [Data]
    case Open => [Data, OpenDevs]
    case CloseInHandler(xs) => [Flying] + Transfers(xs) + [OpenDevs, Data]
    case HandleInCallback => [Data, if free then Events else Waiters]
  }

  lemma SectionTakes(l: Lock, k: Prog, free: bool)
    ensures Taken(Acquire(l, Release(l, k)), free) == [l] + Taken(k, free)
  {
  }

  lemma ReleasesTake(l: Lock, m: Lock, k: Prog, free: bool)
    ensures Taken(Release(l, Release(m, k)), free) == Taken(k, free)
  {
  }

  lemma SubmitTakes(x: nat, outcome: SubmitOutcome, signals: bool, k: Prog, free: bool)
    ensures Taken(SubmitProg(x, outcome, signals, k), free)
         == LocksOf(Submit(x, outcome, signals), free) + Taken(k, free)
  {
    var p := SubmitProg(x, outcome, signals, k);
    var rest := p.next.next;
    assert Taken(p, free) == [Flying] + ([Transfer(x)] + Taken(rest, free)) by {
      assert Taken(p.next, free) == [Transfer(x)] + Taken(rest, free);
    }
    match outcome
    case Busy | ListFailed => ReleasesTake(Flying, Transfer(x), k, free);
    case Submitted => SectionTakes(Data, Release(Transfer(x), k), free);
    case BackendFailed =>
      ReleasesTake(Flying, Transfer(x), Acquire(Flying, Release(Flying, k)), free);
      SectionTakes(Flying, k, free);
  }

  lemma CancelTakes(x: nat, signals: bool, k: Prog, free: bool)
    ensures Taken(CancelProg(x, signals, k), free) == [Transfer(x)] + (if signals then [Data] else []) + Taken(k, free)
  {
    SectionTakes(Data, Release(Transfer(x), k), free);
  }

  /** Every call takes these locks and no others, in this order. */
  lemma CallTakes(c: Call, k: Prog, free: bool)
    ensures Taken(CallProg(c, k), free) == LocksOf(c, free) + Taken(k, free)
  {
    match c
    case Submit(x, outcome, signals) => SubmitTakes(x, outcome, signals, k, free);
    case Cancel(x, signals) => CancelTakes(x, signals, k, free);
    case NextTimeout => WalkTakes([], k, free);
    case EventData => SectionTakes(Data, k, free);
    case Open =>
      SectionTakes(Data, Acquire(OpenDevs, Release(OpenDevs, k)), free);
      SectionTakes(OpenDevs, k, free);
    case CloseInHandler(xs) =>
      WalkTakes(xs, Acquire(OpenDevs, Release(OpenDevs, DataSection(k))), free);
      SectionTakes(OpenDevs, DataSection(k), free);
      SectionTakes(Data, k, free);
      CloseTakes(Transfers(xs), Taken(k, free));
    case HandleInCallback =>
      var missed := Acquire(Waiters, Release(Waiters, k));
      SectionTakes(Data, Try(Events, Release(Events, k), missed), free);
      SectionTakes(Waiters, k, free);
      assert Taken(Release(Events, k), free) == Taken(k, free);
  }

  lemma CloseTakes(xs: seq<Lock>, rest: seq<Lock>)
    ensures [Flying] + xs + ([OpenDevs] + ([Data] + rest)) == [Flying] + xs + [OpenDevs, Data] + rest
  {
  }

  /** A cancelled transfer goes back over the flying list once more before it is reported. */
  lemma CompletionTakes(c: Completion, k: Prog, free: bool)
    ensures Taken(CompletionProg(c, k), free)
         == [Transfer(c.x)] + (if c.cancelled then [Flying] else []) + [Flying, Transfer(c.x)]
            + Taken(CallbackProg(c.callback, k), free)
  {
    var callback := CallbackProg(c.callback, k);
    var finish := WalkFlying([], CancelProg(c.x, false, callback));
    CancelTakes(c.x, false, if c.cancelled then WalkFlying([], finish) else finish, free);
    WalkTakes([], finish, free);
    WalkTakes([], CancelProg(c.x, false, callback), free);
    CancelTakes(c.x, false, callback, free);
  }

  /** The callback runs under event_waiters_lock, and its calls take their locks after that. */
  lemma CallbackTakes(call: Call, k: Prog, free: bool)
    ensures Taken(CallbackProg(Some([call]), k), free) == [Waiters] + LocksOf(call, free) + Taken(k, free)
  {
    CallTakes(call, CallsProg([], Release(Waiters, k)), free);
    assert [call][1..] == [];
    Assoc([Waiters], LocksOf(call, free), Taken(k, free));
  }

  /** The locks of a thread that waits for events, behind event_waiters_lock: one that sleeps
      takes it again, and one that finds nobody handling events starts over. */
  function WaitLocks(waiting: Waiting, k: Prog): seq<Lock> {
    if waiting.AlreadyDone? then Taken(k, false)
    else if waiting.Retry? then [Data] + Taken(HandleProg(waiting.again, k), false)
    else
      [Data, Waiters] +
      if waiting.timeouts.None? then Taken(k, false)
      else [Flying] + Transfers(waiting.timeouts.value) + Taken(k, false)
  }

  lemma TryTakes(l: Lock, got: Prog, missed: Prog, free: bool)
    ensures Taken(DataSection(Try(l, got, missed)), free)
         == [Data] + if free then [l] + Taken(got, free) else Taken(missed, free)
  {
    SectionTakes(Data, Try(l, got, missed), free);
  }

  /** What a thread does with event_waiters_lock held. */
  lemma WaitTakes(waiting: Waiting, k: Prog, p: Prog)
    requires match waiting
             case AlreadyDone => p == Release(Waiters, k)
             case Retry(again) => p == DataSection(Release(Waiters, HandleProg(again, k)))
             case Park(timeouts) =>
               p == DataSection(Release(Waiters, Acquire(Waiters, Release(Waiters,
                      if timeouts.None? then k else WalkFlying(timeouts.value, k)))))
    ensures Taken(Acquire(Waiters, p), false) == [Waiters] + WaitLocks(waiting, k)
  {
    hide HandleProg, WalkFlying;
    assert Taken(Acquire(Waiters, p), false) == [Waiters] + Taken(p, false);
    match waiting
    case AlreadyDone =>
    case Retry(again) => SectionTakes(Data, Release(Waiters, HandleProg(again, k)), false);
    case Park(timeouts) =>
      var after := if timeouts.None? then k else WalkFlying(timeouts.value, k);
      SectionTakes(Data, Release(Waiters, Acquire(Waiters, Release(Waiters, after))), false);
      SectionTakes(Waiters, after, false);
      if timeouts.Some? {
        WalkTakes(timeouts.value, k, false);
      }
  }

  /** libusb_handle_events: with the events lock free a pass and the broadcast, otherwise the
      lock of the waiters. */
  lemma HandleTakes(h: HandleCall, k: Prog)
    ensures Taken(HandleProg(h, k), true)
         == [Data] + ([Events] + Taken(HandlingProg(h.handling, UnlockEventsProg(k)), true))
    ensures Taken(HandleProg(h, k), false) == [Data] + ([Waiters] + WaitLocks(h.waiting, k))
  {
    hide Taken, WaitLocks, HandlingProg, UnlockEventsProg, WalkFlying;
    var got := HandlingProg(h.handling, UnlockEventsProg(k));
    var missed := HandleProg(h, k).next.next.missed;
    TryTakes(Events, got, missed, true);
    TryTakes(Events, got, missed, false);
    WaitTakes(h.waiting, k, missed.next);
  }

  /** libusb_unlock_events broadcasts under event_waiters_lock. */
  lemma UnlockTakes(k: Prog, free: bool)
    ensures Taken(UnlockEventsProg(k), free) == [Waiters] + Taken(k, free)
  {
    SectionTakes(Waiters, k, free);
  }
}
