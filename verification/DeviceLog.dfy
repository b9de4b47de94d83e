/** What whole runs leave behind: the messages queued, and who holds references, told by the
    operations carried out. */
module DeviceLog {
  import opened DeviceRefs
  import opened DeviceRuns
  import opened HotplugExit
  import opened HotplugTeardown
  import opened Sequences
  import opened Wrappers

  /** How often an operation was carried out. */
  function Times(acts: seq<Action>, a: Action): nat {
    if acts == [] then 0
    else Times(acts[..|acts| - 1], a) + if acts[|acts| - 1] == a then 1 else 0
  }

  lemma TimesNext(acts: seq<Action>, k: nat, a: Action)
    requires k < |acts|
    ensures Times(acts[..k + 1], a) == Times(acts[..k], a) + if acts[k] == a then 1 else 0
  {
    assert acts[..k + 1][..k] == acts[..k];
  }

  lemma StepIs(ss: seq<State>, acts: seq<Action>, k: nat)
    requires IsRun(ss, acts) && k < |acts|
    ensures Inv(ss[k]) && Possible(ss[k], acts[k]) && ss[k + 1] == Apply(ss[k], acts[k])
  {
    hide Inv, Possible, Apply;
    InvRun(ss, acts, k);
    assert acts[k] == acts[k];
    EnabledIsPossible(ss[k], acts[k]);
  }

  // ----- What callers may do -----

  /** At every point of every run, whoever holds on to a device may use it, and the backend may go
      on with its part of the device's life. */
  lemma HoldersMayAct(ss: seq<State>, acts: seq<Action>, k: nat, d: Dev, queued: bool)
    requires IsRun(ss, acts) && k < |ss|
    ensures var s := ss[k];
            && (d !in s.known ==> Possible(s, Allocate(d)))
            && (d in s.newborn && d in s.backend ==> Possible(s, Attach(d)))
            && (d in s.arriving ==> Possible(s, SayArrived(d, queued)))
            && (d in s.usbDevs ==> Possible(s, Find(d)) && Possible(s, TakeRef(d)) && Possible(s, Open(d)))
            && (d in s.usbDevs && d !in s.arriving ==> Possible(s, Detach(d)))
            && (d in s.leaving ==> Possible(s, SayLeft(d, queued)))
            && (d in s.backend ==> Possible(s, BackendUnref(d)))
    ensures var s := ss[k];
            && (d in s.users ==> Possible(s, TakeRef(d)) && Possible(s, Open(d)) && Possible(s, DropRef(d)))
            && (d in s.handles ==> Possible(s, TakeRef(d)) && Possible(s, Open(d)) && Possible(s, Close(d)))
            && (d in s.handles ==> Possible(s, Submit(d, None)))
            && (d in s.handles ==> forall e :: e in s.transfers ==> Possible(s, Submit(d, Some(e))))
            && (d in s.transfers ==> Possible(s, FreeTransfer(d)))
  {
    hide Possible, Inv;
    var s := ss[k];
    InvRun(ss, acts, k);
    forall a | Enabled(s, a) ensures Possible(s, a) {
      EnabledIsPossible(s, a);
    }
  }

  /** The handler may take the next message, and the application use the device it is about. */
  lemma HandlerMayAct(ss: seq<State>, acts: seq<Action>, k: nat)
    requires IsRun(ss, acts) && k < |ss| && ss[k].done < |ss[k].log|
    ensures var s, d := ss[k], ss[k].log[ss[k].done].dev;
            Possible(s, HandleMessage) && Possible(s, TakeRef(d)) && Possible(s, Open(d))
  {
    hide Possible, Inv;
    InvRun(ss, acts, k);
    forall a | Enabled(ss[k], a) ensures Possible(ss[k], a) {
      EnabledIsPossible(ss[k], a);
    }
  }

  /** A new device may be given any device of the list for its parent. */
  lemma ParentMayBeSet(ss: seq<State>, acts: seq<Action>, k: nat, d: Dev, p: Dev)
    requires IsRun(ss, acts) && k < |ss| && d in ss[k].newborn && d in ss[k].backend && p in ss[k].usbDevs
    requires d in ss[k].devs && ss[k].devs[d].parent == None
    ensures Possible(ss[k], SetParent(d, p))
  {
    hide Inv;
    InvRun(ss, acts, k);
    EnabledIsPossible(ss[k], SetParent(d, p));
  }

  // ----- Messages -----

  /** The message an operation queues, if it could be allocated. */
  function Says(a: Action): seq<Message> {
    match a
    case SayArrived(d, queued) => if queued then [Arrived(d)] else []
    case SayLeft(d, queued) => if queued then [Left(d)] else []
    case _ => []
  }

  function AllSaid(acts: seq<Action>): seq<Message> {
    if acts == [] then [] else AllSaid(acts[..|acts| - 1]) + Says(acts[|acts| - 1])
  }

  /** Every message that could be allocated is queued, in the order of the operations, and each
      call of the handler takes the next one: the queue loses none and delivers none twice. */
  lemma {:induction false} QueueIsFifo(ss: seq<State>, acts: seq<Action>, k: nat)
    requires IsRun(ss, acts) && k < |ss|
    ensures ss[k].log == AllSaid(acts[..k]) && ss[k].done == Times(acts[..k], HandleMessage) <= |ss[k].log|
    ensures Queued(ss[k]) == AllSaid(acts[..k])[Times(acts[..k], HandleMessage)..]
  {
    hide Inv, Apply, Possible, Enabled, Says, Empty;
    if k == 0 {
      assert ss[0] == Empty();
      EmptyQueue();
    } else {
      QueueIsFifo(ss, acts, k - 1);
      StepIs(ss, acts, k - 1);
      TimesNext(acts, k - 1, HandleMessage);
      assert acts[..k][..k - 1] == acts[..k - 1];
      QueueNext(ss[k - 1], acts[k - 1]);
    }
  }

  lemma EmptyQueue()
    ensures Empty().log == [] && Empty().done == 0
  {
  }

  lemma QueueNext(s: State, a: Action)
    requires Possible(s, a)
    ensures Apply(s, a).log == s.log + Says(a)
    ensures Apply(s, a).done == s.done + if a == HandleMessage then 1 else 0
    ensures a == HandleMessage ==> s.done < |s.log|
  {
  }

  // ----- References -----

  /** How an operation changes the number of references that transfers hold on d. */
  function SubmitChange(a: Action, d: Dev): int {
    match a
    case Submit(e, before) => (if e == d then 1 else 0) - if before == Some(d) then 1 else 0
    case FreeTransfer(e) => if e == d then -1 else 0
    case _ => 0
  }

  function SubmitTotal(acts: seq<Action>, d: Dev): int {
    if acts == [] then 0 else SubmitTotal(acts[..|acts| - 1], d) + SubmitChange(acts[|acts| - 1], d)
  }

  /** Who holds references on d is what the operations so far say: the application those it took
      and did not drop, each open handle and each submitted transfer one, the backend those
      that came with creating and finding it and that it did not pass on or drop. */
  ghost predicate AccountsOf(s: State, acts: seq<Action>, d: Dev) {
    && s.users[d] == Times(acts, TakeRef(d)) - Times(acts, DropRef(d))
    && s.handles[d] == Times(acts, Open(d)) - Times(acts, Close(d))
    && s.transfers[d] == SubmitTotal(acts, d)
    && s.backend[d]
       == Times(acts, Allocate(d)) + Times(acts, Find(d)) - Times(acts, Attach(d)) - Times(acts, BackendUnref(d))
  }

  lemma {:induction false} Accounts(ss: seq<State>, acts: seq<Action>, k: nat, d: Dev)
    requires IsRun(ss, acts) && k < |ss|
    ensures AccountsOf(ss[k], acts[..k], d)
  {
    hide Inv, Apply, Possible, Enabled;
    if k == 0 {
      assert acts[..0] == [];
    } else {
      hide AccountsOf, Times, SubmitTotal, Empty;
      Accounts(ss, acts, k - 1, d);
      StepIs(ss, acts, k - 1);
      AccountsNext(ss[k - 1], acts[..k - 1], acts[k - 1], d);
      assert acts[..k] == acts[..k - 1] + [acts[k - 1]];
    }
  }

  lemma TimesMore(acts: seq<Action>, a: Action, b: Action)
    ensures Times(acts + [a], b) == Times(acts, b) + if a == b then 1 else 0
  {
    assert (acts + [a])[..|acts|] == acts;
  }

  lemma AccountsNext(s: State, acts: seq<Action>, a: Action, d: Dev)
    requires Possible(s, a) && AccountsOf(s, acts, d)
    ensures AccountsOf(Apply(s, a), acts + [a], d)
  {
    hide Times, SubmitTotal, Possible, Apply;
    UsersNext(s, acts, a, d);
    HandlesNext(s, acts, a, d);
    TransfersNext(s, acts, a, d);
    BackendNext(s, acts, a, d);
  }

  lemma UsersNext(s: State, acts: seq<Action>, a: Action, d: Dev)
    requires Possible(s, a) && s.users[d] == Times(acts, TakeRef(d)) - Times(acts, DropRef(d))
    ensures var next := acts + [a];
            Apply(s, a).users[d] == Times(next, TakeRef(d)) - Times(next, DropRef(d))
  {
    hide Times;
    TimesMore(acts, a, TakeRef(d));
    TimesMore(acts, a, DropRef(d));
  }

  lemma HandlesNext(s: State, acts: seq<Action>, a: Action, d: Dev)
    requires Possible(s, a) && s.handles[d] == Times(acts, Open(d)) - Times(acts, Close(d))
    ensures var next := acts + [a];
            Apply(s, a).handles[d] == Times(next, Open(d)) - Times(next, Close(d))
  {
    hide Times;
    TimesMore(acts, a, Open(d));
    TimesMore(acts, a, Close(d));
  }

  lemma TransfersNext(s: State, acts: seq<Action>, a: Action, d: Dev)
    requires Possible(s, a) && s.transfers[d] == SubmitTotal(acts, d)
    ensures Apply(s, a).transfers[d] == SubmitTotal(acts + [a], d)
  {
    hide SubmitTotal, Unref, Ref, DropIf, Touched, InReach;
    SubmitMore(acts, a, d);
  }

  lemma SubmitMore(acts: seq<Action>, a: Action, d: Dev)
    ensures SubmitTotal(acts + [a], d) == SubmitTotal(acts, d) + SubmitChange(a, d)
  {
    assert (acts + [a])[..|acts|] == acts;
  }

  lemma BackendNext(s: State, acts: seq<Action>, a: Action, d: Dev)
    requires Possible(s, a)
    requires s.backend[d]
          == Times(acts, Allocate(d)) + Times(acts, Find(d)) - Times(acts, Attach(d)) - Times(acts, BackendUnref(d))
    ensures var next := acts + [a];
            Apply(s, a).backend[d]
            == Times(next, Allocate(d)) + Times(next, Find(d)) - Times(next, Attach(d)) - Times(next, BackendUnref(d))
  {
    hide Times;
    TimesMore(acts, a, Allocate(d));
    TimesMore(acts, a, Find(d));
    TimesMore(acts, a, Attach(d));
    TimesMore(acts, a, BackendUnref(d));
  }

  /** The stages of d's life are told by how often it was attached, detached and reported. */
  ghost predicate LifeOf(s: State, acts: seq<Action>, d: Dev) {
    && (d in s.known <==> Times(acts, Allocate(d)) > 0)
    && (d in s.newborn <==> Times(acts, Allocate(d)) > Times(acts, Attach(d)))
    && (d in s.usbDevs <==> Times(acts, Attach(d)) > Times(acts, Detach(d)))
    && (d in s.arriving
        <==> Times(acts, Attach(d)) > Times(acts, SayArrived(d, true)) + Times(acts, SayArrived(d, false)))
    && (d in s.leaving <==> Times(acts, Detach(d)) > Times(acts, SayLeft(d, true)) + Times(acts, SayLeft(d, false)))
    && (d in s.lost <==> Times(acts, SayLeft(d, false)) > 0)
    && Times(acts, SayArrived(d, true)) + Times(acts, SayArrived(d, false)) <= Times(acts, Attach(d))
    && Times(acts, SayLeft(d, true)) + Times(acts, SayLeft(d, false)) <= Times(acts, Detach(d))
    && Times(acts, Detach(d)) <= Times(acts, Attach(d)) <= Times(acts, Allocate(d)) <= 1
  }

  lemma {:induction false} Life(ss: seq<State>, acts: seq<Action>, k: nat, d: Dev)
    requires IsRun(ss, acts) && k < |ss|
    ensures LifeOf(ss[k], acts[..k], d)
  {
    hide Inv, Apply, Possible, Enabled;
    if k == 0 {
      assert acts[..0] == [];
    } else {
      hide LifeOf, Times, Empty;
      Life(ss, acts, k - 1, d);
      StepIs(ss, acts, k - 1);
      LifeNext(ss[k - 1], acts[..k - 1], acts[k - 1], d);
      assert acts[..k] == acts[..k - 1] + [acts[k - 1]];
    }
  }

  lemma LifeNext(s: State, acts: seq<Action>, a: Action, d: Dev)
    requires Inv(s) && Possible(s, a) && LifeOf(s, acts, d)
    ensures LifeOf(Apply(s, a), acts + [a], d)
  {
    hide LifeOf, Inv, Possible, Apply;
    if a.Allocate? || a.SetParent? || a.Attach? || a.SayArrived? || a.Detach? || a.SayLeft? {
      BackendLife(s, acts, a, d);
    } else {
      UseLife(s, acts, a, d);
    }
  }

  lemma TimesOfLife(acts: seq<Action>, a: Action, d: Dev)
    ensures var next := acts + [a];
            && Times(next, Allocate(d)) == Times(acts, Allocate(d)) + (if a == Allocate(d) then 1 else 0)
            && Times(next, Attach(d)) == Times(acts, Attach(d)) + (if a == Attach(d) then 1 else 0)
            && Times(next, Detach(d)) == Times(acts, Detach(d)) + (if a == Detach(d) then 1 else 0)
            && forall queued ::
                 && Times(next, SayArrived(d, queued))
                    == Times(acts, SayArrived(d, queued)) + (if a == SayArrived(d, queued) then 1 else 0)
                 && Times(next, SayLeft(d, queued))
                    == Times(acts, SayLeft(d, queued)) + (if a == SayLeft(d, queued) then 1 else 0)
  {
    assert (acts + [a])[..|acts|] == acts;
  }

  lemma BackendLife(s: State, acts: seq<Action>, a: Action, d: Dev)
    requires Inv(s) && Possible(s, a) && LifeOf(s, acts, d)
    requires a.Allocate? || a.SetParent? || a.Attach? || a.SayArrived? || a.Detach? || a.SayLeft?
    ensures LifeOf(Apply(s, a), acts + [a], d)
  {
    hide Times, Counted, Acyclic, LogOk, Announced, Ref, Adopt, Touched, Remove;
    TimesOfLife(acts, a, d);
    if a.Detach? {
      RemoveMeans(s.usbDevs, a.d);
    }
  }

  lemma UseLife(s: State, acts: seq<Action>, a: Action, d: Dev)
    requires Possible(s, a) && LifeOf(s, acts, d)
    requires !(a.Allocate? || a.SetParent? || a.Attach? || a.SayArrived? || a.Detach? || a.SayLeft?)
    ensures LifeOf(Apply(s, a), acts + [a], d)
  {
    hide Times, Unref, Ref, DropIf, Touched, Enabled;
    TimesOfLife(acts, a, d);
  }

  // ----- Parents -----

  ghost predicate ParentOf(s: State, acts: seq<Action>, d: Dev, p: Dev) {
    && (Times(acts, SetParent(d, p)) > 0 ==> d in s.known)
    && (d in s.devs ==> (s.devs[d].parent == Some(p) <==> Times(acts, SetParent(d, p)) > 0))
  }

  /** As long as a device exists its parent is the one it was given. */
  lemma {:induction false} ParentStays(ss: seq<State>, acts: seq<Action>, k: nat, d: Dev, p: Dev)
    requires IsRun(ss, acts) && k < |ss|
    ensures ParentOf(ss[k], acts[..k], d, p)
  {
    hide Inv, Apply, Possible, Enabled;
    if k == 0 {
      assert acts[..0] == [];
    } else {
      hide ParentOf, Times, Empty;
      ParentStays(ss, acts, k - 1, d, p);
      StepIs(ss, acts, k - 1);
      ParentNext(ss[k - 1], acts[..k - 1], acts[k - 1], d, p);
      assert acts[..k] == acts[..k - 1] + [acts[k - 1]];
    }
  }

  lemma ParentNext(s: State, acts: seq<Action>, a: Action, d: Dev, p: Dev)
    requires Inv(s) && Possible(s, a) && ParentOf(s, acts, d, p)
    ensures ParentOf(Apply(s, a), acts + [a], d, p)
  {
    hide Times, Counted, Acyclic, LogOk, Announced;
    TimesMore(acts, a, SetParent(d, p));
    if !(a.Allocate? || a.SetParent? || a.Attach? || a.SayArrived? || a.Detach? || a.SayLeft?) {
      hide Apply, Possible, Stages;
      UseChanges(s, a);
    } else {
      hide Remove;
      assert a.SetParent? ==> a.p in Touched(s, a);
    }
  }
}
