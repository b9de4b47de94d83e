/** The life of devices over whole runs: created, attached and detached by a hotplug backend,
    announced by messages, and referenced by handles, transfers and the application.  The
    backend's connects and disconnects are serialized; everything else interleaves freely. */
module DeviceRuns {
  import opened Wrappers
  import opened DeviceRefs
  import opened HotplugExit
  import opened Sequences
  import opened HotplugTeardown

  /** All messages ever queued are in log; those before done have been handled.  newborn are the
      devices that were not attached yet, arriving those whose arrival is not announced yet.
      The rest are the holders of references: the list of devices, the backend for devices it
      creates or looks up, disconnects before they queue their message (leaving) and those
      that could not queue it (lost), the application, its handles and its transfers. */
  datatype State = State(
    devs: Devices,
    known: set<Dev>,
    newborn: set<Dev>,
    arriving: set<Dev>,
    usbDevs: seq<Dev>,
    leaving: set<Dev>,
    lost: set<Dev>,
    log: seq<Message>,
    done: nat,
    backend: multiset<Dev>,
    users: multiset<Dev>,
    handles: multiset<Dev>,
    transfers: multiset<Dev>)

  datatype Action =
    | Allocate(d: Dev)
    | SetParent(d: Dev, p: Dev)
    | Attach(d: Dev)
    | SayArrived(d: Dev, queued: bool)
    | Find(d: Dev)
    | BackendUnref(d: Dev)
    | Detach(d: Dev)
    | SayLeft(d: Dev, queued: bool)
    | HandleMessage
    | TakeRef(d: Dev)
    | DropRef(d: Dev)
    | Open(d: Dev)
    | Close(d: Dev)
    | Submit(d: Dev, before: Option<Dev>)
    | FreeTransfer(d: Dev)

  function Queued(s: State): seq<Message> {
    if s.done <= |s.log| then s.log[s.done..] else []
  }

  /** Every reference but those of children to their parents. */
  ghost function Held(s: State): multiset<Dev> {
    Elsewhere(s) + OnBehalf(s.usbDevs, s.leaving, s.lost, Queued(s))
  }

  ghost function Sum(a: multiset<Dev>, b: multiset<Dev>, c: multiset<Dev>, e: multiset<Dev>): multiset<Dev> {
    a + b + c + e
  }

  /** The reference that comes with being attached, wherever it is now. */
  ghost function OnBehalf(usbDevs: seq<Dev>, leaving: set<Dev>, lost: set<Dev>, queue: seq<Message>): multiset<Dev> {
    multiset(usbDevs) + multiset(leaving) + multiset(lost) + LeftRefs(queue)
  }

  ghost function Elsewhere(s: State): multiset<Dev> {
    Sum(s.backend, s.users, s.handles, s.transfers)
  }

  /** The application gets at a device through the list, what it holds, or the message being
      handled. */
  predicate InReach(s: State, d: Dev) {
    d in s.usbDevs || d in s.users || d in s.handles || (s.done < |s.log| && s.log[s.done].dev == d)
  }

  /** What the caller of each operation has to hold. */
  predicate Enabled(s: State, a: Action) {
    match a
    case Allocate(d) => d !in s.known
    case SetParent(d, p) => d in s.newborn && d in s.backend && d in s.devs
                            && s.devs[d].parent == None && p in s.usbDevs
    case Attach(d) => d in s.newborn && d in s.backend
    case SayArrived(d, _) => d in s.arriving
    case Find(d) => d in s.usbDevs
    case BackendUnref(d) => d in s.backend
    case Detach(d) => d in s.usbDevs && d !in s.arriving
    case SayLeft(d, _) => d in s.leaving
    case HandleMessage => s.done < |s.log|
    case TakeRef(d) => InReach(s, d)
    case DropRef(d) => d in s.users
    // the attached flag was set when the call tested it; the device may have left since
    case Open(d) => InReach(s, d)
    case Close(d) => d in s.handles
    case Submit(d, before) => d in s.handles && (before.Some? ==> before.value in s.transfers)
    case FreeTransfer(d) => d in s.transfers
  }

  /** The devices an operation reads or writes: they must not have been freed. */
  function Touched(s: State, a: Action): set<Dev> {
    match a
    case Allocate(d) => {}
    case SetParent(d, p) => {d, p}
    case HandleMessage => if s.done < |s.log| then {s.log[s.done].dev} else {}
    case Submit(d, before) => if before.Some? then {d, before.value} else {d}
    case Attach(d) => {d}
    case SayArrived(d, _) => {d}
    case Find(d) => {d}
    case BackendUnref(d) => {d}
    case Detach(d) => {d}
    case SayLeft(d, _) => {d}
    case TakeRef(d) => {d}
    case DropRef(d) => {d}
    case Open(d) => {d}
    case Close(d) => {d}
    case FreeTransfer(d) => {d}
  }

  predicate Possible(s: State, a: Action) {
    Enabled(s, a) && forall d :: d in Touched(s, a) ==> d in s.devs
  }

  function Adopt(devs: Devices, d: Dev, p: Dev): Devices
    requires d in devs
  {
    devs[d := devs[d].(parent := Some(p))]
  }

  function DropIf(devs: Devices, d: Option<Dev>): Devices {
    if d.Some? && d.value in devs then Unref(devs, d.value) else devs
  }

  function Apply(s: State, a: Action): State
    requires Possible(s, a)
  {
    match a
    case Allocate(d) =>
      s.(devs := s.devs[d := Device(1, None)], known := s.known + {d},
         newborn := s.newborn + {d}, backend := s.backend + multiset{d})
    case SetParent(d, p) =>
      s.(devs := Adopt(Ref(s.devs, p), d, p))
    case Attach(d) =>
      s.(newborn := s.newborn - {d}, arriving := s.arriving + {d},
         usbDevs := [d] + s.usbDevs, backend := s.backend - multiset{d})
    case SayArrived(d, queued) =>
      s.(arriving := s.arriving - {d}, log := if queued then s.log + [Arrived(d)] else s.log)
    case Find(d) => s.(devs := Ref(s.devs, d), backend := s.backend + multiset{d})
    case BackendUnref(d) =>
      s.(devs := Unref(s.devs, d), backend := s.backend - multiset{d})
    case Detach(d) => s.(usbDevs := Remove(s.usbDevs, d), leaving := s.leaving + {d})
    case SayLeft(d, queued) =>
      s.(leaving := s.leaving - {d}, log := if queued then s.log + [Left(d)] else s.log,
         lost := if queued then s.lost else s.lost + {d})
    case HandleMessage =>
      s.(devs := if s.log[s.done].Left? then Unref(s.devs, s.log[s.done].dev) else s.devs, done := s.done + 1)
    case TakeRef(d) => s.(devs := Ref(s.devs, d), users := s.users + multiset{d})
    case DropRef(d) => s.(devs := Unref(s.devs, d), users := s.users - multiset{d})
    case Open(d) => s.(devs := Ref(s.devs, d), handles := s.handles + multiset{d})
    case Close(d) => s.(devs := Unref(s.devs, d), handles := s.handles - multiset{d})
    case Submit(d, before) =>
      var dropped := DropIf(s.devs, before);
      s.(devs := if d in dropped then Ref(dropped, d) else dropped,
         transfers := (if before.Some? then s.transfers - multiset{before.value} else s.transfers) + multiset{d})
    case FreeTransfer(d) => s.(devs := Unref(s.devs, d), transfers := s.transfers - multiset{d})
  }

  // ----- The invariant -----

  ghost predicate Acyclic(devs: Devices) {
    exists depth: Dev -> nat :: Forest(devs, depth)
  }

  /** Each device is in one stage of its life: newborn, attached, leaving, or past that. */
  ghost predicate Stages(s: State) {
    && Distinct(s.usbDevs)
    && s.done <= |s.log|
    && s.newborn <= s.known && s.leaving <= s.known && s.lost <= s.known
    && (forall d :: d in s.usbDevs ==> d in s.known && d !in s.newborn && d !in s.leaving && d !in s.lost)
    && (forall d :: d in s.devs ==> d in s.known)
    && (forall d :: d in s.arriving ==> d in s.usbDevs)
    && s.newborn !! s.leaving && s.newborn !! s.lost && s.leaving !! s.lost
    && (forall d :: d in s.devs && s.devs[d].parent.Some? ==> s.devs[d].parent.value !in s.newborn)
  }

  /** A device leaves at most once, and arrives before it leaves. */
  ghost predicate LogOk(s: State) {
    && (forall i :: 0 <= i < |s.log| ==> s.log[i].dev in s.known && s.log[i].dev !in s.newborn)
    && (forall i :: 0 <= i < |s.log| && s.log[i].Left? ==>
          s.log[i].dev !in s.usbDevs && s.log[i].dev !in s.leaving && s.log[i].dev !in s.lost)
    && (forall i :: 0 <= i < |s.log| && s.log[i].Arrived? ==> s.log[i].dev !in s.arriving)
    && (forall i, j :: 0 <= i < j < |s.log| && s.log[i].dev == s.log[j].dev ==> s.log[i].Arrived? && s.log[j].Left?)
  }

  /** An announced device that has not left for good is still referenced on its behalf. */
  ghost predicate Announced(s: State) {
    forall i :: 0 <= i < |s.log| && s.log[i].Arrived? ==> AliveBehind(s, i)
  }

  ghost predicate AliveBehind(s: State, i: nat)
    requires i < |s.log|
  {
    var d := s.log[i].dev;
    d in s.usbDevs || d in s.leaving || d in s.lost || exists j :: i < j < |s.log| && s.log[j] == Left(d)
  }

  ghost predicate Inv(s: State) {
    Acyclic(s.devs) && Counted(s.devs, Held(s)) && Stages(s) && LogOk(s) && Announced(s)
  }

  // ----- References -----

  lemma TakeCounted(devs: Devices, held: multiset<Dev>, d: Dev)
    requires Counted(devs, held) && Acyclic(devs) && d in devs
    ensures Counted(Ref(devs, d), held + multiset{d}) && Acyclic(Ref(devs, d))
  {
    var depth: Dev -> nat :| Forest(devs, depth);
    RefCounted(devs, held, d, depth);
  }

  lemma DropCounted(devs: Devices, held: multiset<Dev>, d: Dev)
    requires Counted(devs, held) && Acyclic(devs) && d in held
    ensures d in devs && Counted(Unref(devs, d), held - multiset{d}) && Acyclic(Unref(devs, d))
  {
    var depth: Dev -> nat :| Forest(devs, depth);
    UnrefCounted(devs, held, d, depth);
  }

  lemma NewCounted(devs: Devices, held: multiset<Dev>, d: Dev)
    requires Counted(devs, held) && Acyclic(devs) && d !in devs
    ensures Counted(devs[d := Device(1, None)], held + multiset{d}) && Acyclic(devs[d := Device(1, None)])
  {
    var depth: Dev -> nat :| Forest(devs, depth);
    var devs' := devs[d := Device(1, None)];
    assert Forest(devs', depth);
    forall e | e in devs ensures Children(devs', e) == Children(devs, e) {
    }
    assert Children(devs', d) == {} by {
      forall c | c in devs && devs[c].parent.Some? ensures devs[c].parent.value != d {
      }
    }
  }

  lemma AdoptAcyclic(devs: Devices, d: Dev, p: Dev)
    requires Acyclic(devs) && d in devs && p in devs && d != p
    requires forall c :: c in devs && devs[c].parent.Some? ==> devs[c].parent.value != d
    ensures Acyclic(Adopt(devs, d, p))
  {
    var depth: Dev -> nat :| Forest(devs, depth);
    var lower: Dev -> nat := e => if e == d then depth(p) + 1 else depth(e);
    assert Forest(Adopt(devs, d, p), lower);
  }

  lemma AdoptChildren(devs: Devices, d: Dev, p: Dev, e: Dev)
    requires d in devs && devs[d].parent == None
    ensures |Children(Adopt(devs, d, p), e)| == if e == p then |Children(devs, e)| + 1 else |Children(devs, e)|
  {
    if e == p {
      assert Children(Adopt(devs, d, p), e) == Children(devs, e) + {d};
    } else {
      assert Children(Adopt(devs, d, p), e) == Children(devs, e);
    }
  }

  lemma AdoptCounted(devs: Devices, held: multiset<Dev>, d: Dev, p: Dev)
    requires Counted(devs, held + multiset{p}) && d in devs && d != p && devs[d].parent == None
    ensures Counted(Adopt(devs, d, p), held)
  {
    var devs' := Adopt(devs, d, p);
    forall e | e in devs ensures devs'[e].refcnt == held[e] + |Children(devs', e)| {
      AdoptChildren(devs, d, p, e);
    }
  }

  lemma {:induction false} LeftRefsAppend(q: seq<Message>, m: Message)
    ensures LeftRefs(q + [m]) == LeftRefs(q) + if m.Left? then multiset{m.dev} else multiset{}
  {
    if q == [] {
      assert q + [m] == [m];
    } else {
      LeftRefsAppend(q[1..], m);
      assert (q + [m])[1..] == q[1..] + [m];
    }
  }

  lemma {:induction false} LeftIsHeld(q: seq<Message>, j: nat)
    requires j < |q| && q[j].Left?
    ensures q[j].dev in LeftRefs(q)
  {
    if j > 0 {
      LeftIsHeld(q[1..], j - 1);
    }
  }

  lemma {:induction false} RemoveOne(s: seq<Dev>, d: Dev)
    requires d in s
    ensures multiset(Remove(s, d)) == multiset(s) - multiset{d}
  {
    assert s == [s[0]] + s[1..];
    if s[0] != d {
      RemoveOne(s[1..], d);
    }
  }

  lemma QueueMore(s: State, m: Message)
    requires s.done <= |s.log|
    ensures (s.log + [m])[s.done..] == Queued(s) + [m]
  {
  }

  // ----- Each operation keeps the count -----

  lemma HeldSame(s: State, t: State)
    requires Counted(s.devs, Held(s)) && Acyclic(s.devs) && t.devs == s.devs && Held(t) == Held(s)
    ensures Counted(t.devs, Held(t)) && Acyclic(t.devs)
  {
  }

  lemma HeldMore(s: State, t: State, d: Dev)
    requires Counted(s.devs, Held(s)) && Acyclic(s.devs) && d in s.devs
    requires t.devs == Ref(s.devs, d) && Held(t) == Held(s) + multiset{d}
    ensures Counted(t.devs, Held(t)) && Acyclic(t.devs)
  {
    TakeCounted(s.devs, Held(s), d);
  }

  lemma HeldLess(s: State, t: State, d: Dev)
    requires Counted(s.devs, Held(s)) && Acyclic(s.devs) && d in Held(s) && d in s.devs
    requires t.devs == Unref(s.devs, d) && Held(t) == Held(s) - multiset{d}
    ensures Counted(t.devs, Held(t)) && Acyclic(t.devs)
  {
    DropCounted(s.devs, Held(s), d);
  }

  lemma AllocateKeepsCount(s: State, d: Dev)
    requires Inv(s) && Possible(s, Allocate(d))
    ensures var t := Apply(s, Allocate(d)); Counted(t.devs, Held(t)) && Acyclic(t.devs)
  {
    hide Counted, Acyclic, LogOk, Announced, OnBehalf;
    NewCounted(s.devs, Held(s), d);
    assert Held(Apply(s, Allocate(d))) == Held(s) + multiset{d};
  }

  lemma AttachKeepsCount(s: State, d: Dev)
    requires Inv(s) && Possible(s, Attach(d))
    ensures var t := Apply(s, Attach(d)); Counted(t.devs, Held(t)) && Acyclic(t.devs)
  {
    hide Counted, Acyclic, LogOk, Announced, OnBehalf;
    OnBehalfAttach(s.usbDevs, s.leaving, s.lost, Queued(s), d);
    HeldSame(s, Apply(s, Attach(d)));
  }

  lemma SayArrivedKeepsCount(s: State, d: Dev, queued: bool)
    requires Inv(s) && Possible(s, SayArrived(d, queued))
    ensures var t := Apply(s, SayArrived(d, queued)); Counted(t.devs, Held(t)) && Acyclic(t.devs)
  {
    hide Counted, Acyclic, LogOk, Announced, OnBehalf;
    OnBehalfQueue(s.usbDevs, s.leaving, s.lost, Queued(s), Arrived(d));
    QueueMore(s, Arrived(d));
    HeldSame(s, Apply(s, SayArrived(d, queued)));
  }

  lemma AdoptKeepsCount(s: State, d: Dev, p: Dev)
    requires Inv(s) && Possible(s, SetParent(d, p))
    ensures var t := Apply(s, SetParent(d, p)); Counted(t.devs, Held(t)) && Acyclic(t.devs)
  {
    hide Counted, Acyclic, LogOk, Announced, Held;
    TakeCounted(s.devs, Held(s), p);
    AdoptCounted(Ref(s.devs, p), Held(s), d, p);
    AdoptAcyclic(Ref(s.devs, p), d, p);
    var t := Apply(s, SetParent(d, p));
    assert Held(t) == Held(s) by {
      SameHolders(s, t);
    }
  }

  lemma SameHolders(s: State, t: State)
    requires t == s.(devs := t.devs)
    ensures Held(t) == Held(s)
  {
  }

  lemma OnBehalfAttach(usbDevs: seq<Dev>, leaving: set<Dev>, lost: set<Dev>, q: seq<Message>, d: Dev)
    ensures OnBehalf([d] + usbDevs, leaving, lost, q) == OnBehalf(usbDevs, leaving, lost, q) + multiset{d}
  {
    assert multiset([d] + usbDevs) == multiset{d} + multiset(usbDevs);
  }

  lemma OnBehalfDetach(usbDevs: seq<Dev>, leaving: set<Dev>, lost: set<Dev>, q: seq<Message>, d: Dev)
    requires d in usbDevs && d !in leaving
    ensures OnBehalf(Remove(usbDevs, d), leaving + {d}, lost, q) == OnBehalf(usbDevs, leaving, lost, q)
  {
    hide LeftRefs;
    RemoveOne(usbDevs, d);
    assert multiset(leaving + {d}) == multiset(leaving) + multiset{d};
  }

  lemma OnBehalfQueue(usbDevs: seq<Dev>, leaving: set<Dev>, lost: set<Dev>, q: seq<Message>, m: Message)
    ensures OnBehalf(usbDevs, leaving, lost, q + [m])
         == OnBehalf(usbDevs, leaving, lost, q) + if m.Left? then multiset{m.dev} else multiset{}
  {
    LeftRefsAppend(q, m);
  }

  lemma OnBehalfGone(usbDevs: seq<Dev>, leaving: set<Dev>, lost: set<Dev>, q: seq<Message>, d: Dev)
    requires d in leaving
    ensures OnBehalf(usbDevs, leaving - {d}, lost, q) + multiset{d} == OnBehalf(usbDevs, leaving, lost, q)
    ensures d !in lost ==> OnBehalf(usbDevs, leaving - {d}, lost + {d}, q) == OnBehalf(usbDevs, leaving, lost, q)
  {
    hide LeftRefs;
    assert multiset(leaving) == multiset(leaving - {d}) + multiset{d};
    if d !in lost {
      assert multiset(lost + {d}) == multiset(lost) + multiset{d};
    }
  }

  lemma OnBehalfHandle(usbDevs: seq<Dev>, leaving: set<Dev>, lost: set<Dev>, q: seq<Message>)
    requires q != []
    ensures OnBehalf(usbDevs, leaving, lost, q)
         == OnBehalf(usbDevs, leaving, lost, q[1..]) + if q[0].Left? then multiset{q[0].dev} else multiset{}
  {
  }

  lemma DetachKeepsCount(s: State, d: Dev)
    requires Inv(s) && Possible(s, Detach(d))
    ensures var t := Apply(s, Detach(d)); Counted(t.devs, Held(t)) && Acyclic(t.devs)
  {
    hide Counted, Acyclic, LogOk, Announced, Unref, OnBehalf;
    OnBehalfDetach(s.usbDevs, s.leaving, s.lost, Queued(s), d);
    HeldSame(s, Apply(s, Detach(d)));
  }

  lemma SayLeftKeepsCount(s: State, d: Dev, queued: bool)
    requires Inv(s) && Possible(s, SayLeft(d, queued))
    ensures var t := Apply(s, SayLeft(d, queued)); Counted(t.devs, Held(t)) && Acyclic(t.devs)
  {
    hide Counted, Acyclic, LogOk, Announced, Unref, OnBehalf;
    OnBehalfGone(s.usbDevs, s.leaving, s.lost, Queued(s), d);
    if queued {
      QueueMore(s, Left(d));
      OnBehalfQueue(s.usbDevs, s.leaving - {d}, s.lost, Queued(s), Left(d));
    }
    HeldSame(s, Apply(s, SayLeft(d, queued)));
  }

  lemma HandleKeepsCount(s: State)
    requires Inv(s) && Possible(s, HandleMessage)
    ensures var t := Apply(s, HandleMessage); Counted(t.devs, Held(t)) && Acyclic(t.devs)
  {
    hide Counted, Acyclic, LogOk, Announced, Unref, OnBehalf;
    var t, m := Apply(s, HandleMessage), s.log[s.done];
    assert Queued(s)[0] == m && Queued(s)[1..] == Queued(t);
    OnBehalfHandle(s.usbDevs, s.leaving, s.lost, Queued(s));
    if m.Left? {
      HeldLess(s, t, m.dev);
    } else {
      HeldSame(s, t);
    }
  }

  lemma TakingKeepsCount(s: State, a: Action)
    requires Inv(s) && Possible(s, a) && (a.TakeRef? || a.Open? || a.Find?)
    ensures var t := Apply(s, a); Counted(t.devs, Held(t)) && Acyclic(t.devs)
  {
    hide Counted, Acyclic, LogOk, Announced, Ref, OnBehalf, Stages, Enabled;
    var t := Apply(s, a);
    var d := a.d;
    assert Elsewhere(t) == Elsewhere(s) + multiset{d};
    assert Held(t) == Held(s) + multiset{d};
    HeldMore(s, t, d);
  }

  lemma SumAt(a: multiset<Dev>, b: multiset<Dev>, c: multiset<Dev>, e: multiset<Dev>, x: Dev)
    ensures Sum(a, b, c, e)[x] == a[x] + b[x] + c[x] + e[x]
  {
  }

  lemma OneLess(m: multiset<Dev>, n: multiset<Dev>, d: Dev)
    requires d in m && forall x :: n[x] == m[x] - if x == d then 1 else 0
    ensures n == m - multiset{d}
  {
  }

  lemma LessElsewhere(s: State, t: State, d: Dev, m: multiset<Dev>)
    requires d in m
    requires t.(devs := s.devs, backend := s.backend, users := s.users, handles := s.handles,
                transfers := s.transfers) == s
    requires || (m == s.backend && t.backend == m - multiset{d}
                 && t.users == s.users && t.handles == s.handles && t.transfers == s.transfers)
             || (m == s.users && t.users == m - multiset{d}
                 && t.backend == s.backend && t.handles == s.handles && t.transfers == s.transfers)
             || (m == s.handles && t.handles == m - multiset{d}
                 && t.backend == s.backend && t.users == s.users && t.transfers == s.transfers)
             || (m == s.transfers && t.transfers == m - multiset{d}
                 && t.backend == s.backend && t.users == s.users && t.handles == s.handles)
    ensures d in Held(s) && Held(t) == Held(s) - multiset{d}
  {
    hide OnBehalf, Sum;
    LessSum(s.backend, s.users, s.handles, s.transfers, t.backend, t.users, t.handles, t.transfers, d, m);
    LessWhole(Elsewhere(s), OnBehalf(s.usbDevs, s.leaving, s.lost, Queued(s)), d);
  }

  lemma LessWhole(a: multiset<Dev>, b: multiset<Dev>, d: Dev)
    requires d in a
    ensures (a - multiset{d}) + b == (a + b) - multiset{d}
  {
  }

  lemma LessSum(a: multiset<Dev>, b: multiset<Dev>, c: multiset<Dev>, e: multiset<Dev>,
                a': multiset<Dev>, b': multiset<Dev>, c': multiset<Dev>, e': multiset<Dev>,
                d: Dev, m: multiset<Dev>)
    requires d in m
    requires || (m == a && a' == m - multiset{d} && b' == b && c' == c && e' == e)
             || (m == b && b' == m - multiset{d} && a' == a && c' == c && e' == e)
             || (m == c && c' == m - multiset{d} && a' == a && b' == b && e' == e)
             || (m == e && e' == m - multiset{d} && a' == a && b' == b && c' == c)
    ensures d in Sum(a, b, c, e) && Sum(a', b', c', e') == Sum(a, b, c, e) - multiset{d}
  {
    hide Sum;
    SumAt(a, b, c, e, d);
    forall x ensures Sum(a', b', c', e')[x] == Sum(a, b, c, e)[x] - if x == d then 1 else 0 {
      SumAt(a, b, c, e, x);
      SumAt(a', b', c', e', x);
    }
    OneLess(Sum(a, b, c, e), Sum(a', b', c', e'), d);
  }

  /** A reference taken out of one of the four kinds, and dropped. */
  lemma DroppedFrom(s: State, t: State, d: Dev, m: multiset<Dev>)
    requires Counted(s.devs, Held(s)) && Acyclic(s.devs) && d in m && d in s.devs && t.devs == Unref(s.devs, d)
    requires t.(devs := s.devs, backend := s.backend, users := s.users, handles := s.handles,
                transfers := s.transfers) == s
    requires || (m == s.backend && t.backend == m - multiset{d}
                 && t.users == s.users && t.handles == s.handles && t.transfers == s.transfers)
             || (m == s.users && t.users == m - multiset{d}
                 && t.backend == s.backend && t.handles == s.handles && t.transfers == s.transfers)
             || (m == s.handles && t.handles == m - multiset{d}
                 && t.backend == s.backend && t.users == s.users && t.transfers == s.transfers)
             || (m == s.transfers && t.transfers == m - multiset{d}
                 && t.backend == s.backend && t.users == s.users && t.handles == s.handles)
    ensures Counted(t.devs, Held(t)) && Acyclic(t.devs)
  {
    hide Counted, Acyclic, Held, Unref;
    LessElsewhere(s, t, d, m);
    HeldLess(s, t, d);
  }

  lemma DroppingKeepsCount(s: State, a: Action)
    requires Inv(s) && Possible(s, a) && (a.DropRef? || a.Close? || a.FreeTransfer? || a.BackendUnref?)
    ensures var t := Apply(s, a); Counted(t.devs, Held(t)) && Acyclic(t.devs)
  {
    hide Counted, Acyclic, LogOk, Announced, Stages, Held, Unref, InReach;
    if a.DropRef? {
      DroppedFrom(s, Apply(s, a), a.d, s.users);
    } else if a.Close? {
      DroppedFrom(s, Apply(s, a), a.d, s.handles);
    } else if a.FreeTransfer? {
      DroppedFrom(s, Apply(s, a), a.d, s.transfers);
    } else {
      DroppedFrom(s, Apply(s, a), a.d, s.backend);
    }
  }

  /** A transfer submitted again first drops the device of its last submission; the handle
      keeps the new one alive meanwhile. */
  lemma SubmitKeepsCount(s: State, d: Dev, before: Option<Dev>)
    requires Inv(s) && Possible(s, Submit(d, before))
    ensures var t := Apply(s, Submit(d, before)); Counted(t.devs, Held(t)) && Acyclic(t.devs)
    ensures d in DropIf(s.devs, before)
  {
    hide Counted, Acyclic, LogOk, Announced, Unref, Ref, OnBehalf, Stages, Held;
    var t := Apply(s, Submit(d, before));
    if before.Some? {
      var e := before.value;
      var u := s.(devs := Unref(s.devs, e), transfers := s.transfers - multiset{e});
      LessElsewhere(s, u, e, s.transfers);
      HeldLess(s, u, e);
      HandleIsHeld(u, d);
      CountedLive(u.devs, Held(u), d);
      MoreTransfers(u, t, d);
      HeldMore(u, t, d);
    } else {
      MoreTransfers(s, t, d);
      HeldMore(s, t, d);
    }
  }

  lemma HandleIsHeld(s: State, d: Dev)
    requires d in s.handles
    ensures d in Held(s)
  {
  }

  lemma MoreTransfers(s: State, t: State, d: Dev)
    requires t == s.(devs := t.devs, transfers := s.transfers + multiset{d})
    ensures Held(t) == Held(s) + multiset{d}
  {
    hide OnBehalf;
  }

  // ----- Each operation keeps the rest -----

  lemma BackendKeepsStages(s: State, a: Action)
    requires Inv(s) && Possible(s, a)
    requires a.Allocate? || a.SetParent? || a.Attach? || a.SayArrived? || a.Detach? || a.SayLeft?
    ensures Stages(Apply(s, a))
  {
    hide Counted, Acyclic, LogOk, Announced, Held;
    if a.Detach? {
      RemoveMeans(s.usbDevs, a.d);
    } else if a.Attach? {
      DistinctCons(a.d, s.usbDevs);
    } else if a.Allocate? {
      ParentsExist(s.devs);
    }
  }

  /** A use of devices changes counts and may free devices, but no stage. */
  predicate OnlyUsed(s: State, t: State) {
    && t.usbDevs == s.usbDevs && t.known == s.known && t.newborn == s.newborn && t.arriving == s.arriving
    && t.leaving == s.leaving && t.lost == s.lost && t.log == s.log && t.done <= |t.log|
    && SameParents(s.devs, t.devs)
  }

  predicate SameParents(devs: Devices, devs': Devices) {
    forall e :: e in devs' ==> e in devs && devs'[e].parent == devs[e].parent
  }

  lemma DropThenRef(devs: Devices, d: Dev, before: Option<Dev>)
    ensures SameParents(devs, DropIf(devs, before))
    ensures d in DropIf(devs, before) ==> SameParents(devs, Ref(DropIf(devs, before), d))
  {
  }

  lemma CountParents(devs: Devices, d: Dev)
    requires d in devs
    ensures SameParents(devs, devs) && SameParents(devs, Ref(devs, d)) && SameParents(devs, Unref(devs, d))
  {
  }

  lemma UseChanges(s: State, a: Action)
    requires Possible(s, a) && s.done <= |s.log|
    requires !(a.Allocate? || a.SetParent? || a.Attach? || a.SayArrived? || a.Detach? || a.SayLeft?)
    ensures OnlyUsed(s, Apply(s, a))
  {
    hide SameParents, Ref, Unref, DropIf, InReach;
    if a.Submit? {
      DropThenRef(s.devs, a.d, a.before);
    } else if a.HandleMessage? {
      CountParents(s.devs, s.log[s.done].dev);
    } else if a.Find? || a.TakeRef? || a.Open? {
      TakeChanges(s, a);
    } else {
      DropChanges(s, a);
    }
  }

  lemma TakeChanges(s: State, a: Action)
    requires Possible(s, a) && s.done <= |s.log| && (a.Find? || a.TakeRef? || a.Open?)
    ensures OnlyUsed(s, Apply(s, a))
  {
    hide SameParents, Ref, Unref, DropIf, InReach;
    CountParents(s.devs, a.d);
  }

  lemma DropChanges(s: State, a: Action)
    requires Possible(s, a) && s.done <= |s.log|
    requires a.DropRef? || a.Close? || a.FreeTransfer? || a.BackendUnref?
    ensures OnlyUsed(s, Apply(s, a))
  {
    hide SameParents, Ref, Unref, DropIf, InReach;
    CountParents(s.devs, a.d);
  }

  lemma OnlyUsedKeepsStages(s: State, t: State)
    requires Stages(s) && OnlyUsed(s, t)
    ensures Stages(t)
  {
    hide Distinct;
  }

  lemma UseKeepsStages(s: State, a: Action)
    requires Inv(s) && Possible(s, a)
    requires !(a.Allocate? || a.SetParent? || a.Attach? || a.SayArrived? || a.Detach? || a.SayLeft?)
    ensures Stages(Apply(s, a))
  {
    hide Counted, Acyclic, LogOk, Announced, Possible, OnlyUsed, Apply;
    UseChanges(s, a);
    OnlyUsedKeepsStages(s, Apply(s, a));
  }

  lemma ParentsExist(devs: Devices)
    requires Acyclic(devs)
    ensures forall d :: d in devs && devs[d].parent.Some? ==> devs[d].parent.value in devs
  {
  }

  lemma KeepsLog(s: State, a: Action)
    requires Inv(s) && Possible(s, a)
    ensures LogOk(Apply(s, a))
  {
    match a
    case Allocate(_) | Attach(_) | Detach(_) => KeepsLogOnMove(s, a);
    case SayArrived(_, _) | SayLeft(_, _) => KeepsLogOnMessage(s, a);
    case SetParent(_, _) =>
      hide Stages, Counted, Acyclic, Announced, LogOk, Unref, InReach, Adopt;
      SameLog(s, Apply(s, a));
    case _ =>
      hide Counted, Acyclic, Announced, LogOk, Possible, Apply;
      UseChanges(s, a);
      SameLog(s, Apply(s, a));
  }

  /** LogOk is about these fields only. */
  lemma SameLog(s: State, t: State)
    requires LogOk(s)
    requires t.log == s.log && t.known == s.known && t.newborn == s.newborn && t.arriving == s.arriving
    requires t.usbDevs == s.usbDevs && t.leaving == s.leaving && t.lost == s.lost
    ensures LogOk(t)
  {
  }

  lemma KeepsLogOnMove(s: State, a: Action)
    requires Inv(s) && Possible(s, a) && (a.Allocate? || a.Attach? || a.Detach?)
    ensures LogOk(Apply(s, a))
  {
    hide Counted, Acyclic, Announced, Held, Unref, InReach, Adopt;
    if a.Detach? {
      RemoveMeans(s.usbDevs, a.d);
    }
  }

  lemma KeepsLogOnMessage(s: State, a: Action)
    requires Inv(s) && Possible(s, a) && (a.SayArrived? || a.SayLeft?)
    ensures LogOk(Apply(s, a))
  {
    hide Counted, Acyclic, Announced, Held, Unref, InReach, Adopt;
  }

  lemma KeepsAnnounced(s: State, a: Action)
    requires Inv(s) && Possible(s, a)
    ensures Announced(Apply(s, a))
  {
    hide Counted, Acyclic, Held, Unref;
    var t := Apply(s, a);
    if a.Detach? {
      RemoveMeans(s.usbDevs, a.d);
    }
    forall i | 0 <= i < |t.log| && t.log[i].Arrived? ensures AliveBehind(t, i) {
      if i < |s.log| {
        assert AliveBehind(s, i);
        var d := s.log[i].dev;
        if j :| i < j < |s.log| && s.log[j] == Left(d) {
          assert t.log[j] == Left(d);
        } else if a.SayLeft? && a.queued && a.d == d {
          assert t.log[|s.log|] == Left(d);
        }
      }
    }
  }

  // ----- Main results -----

  lemma HolderIsLive(s: State, d: Dev)
    requires Inv(s)
    requires d in s.usbDevs || d in s.leaving || d in s.lost || d in s.backend
             || d in s.users || d in s.handles || d in s.transfers
    ensures d in s.devs
  {
    hide Acyclic, LeftRefs, LogOk, Announced;
  }

  lemma ArrivingIsListed(s: State, d: Dev)
    requires Inv(s) && d in s.arriving
    ensures d in s.usbDevs
  {
    hide Acyclic, Counted, LogOk, Announced;
  }

  /** Whatever a caller is entitled to do touches only devices that exist. */
  lemma EnabledIsPossible(s: State, a: Action)
    requires Inv(s) && Enabled(s, a)
    ensures Possible(s, a)
  {
    hide Inv, Held;
    forall d | d in Touched(s, a) ensures d in s.devs {
      if s.done < |s.log| && s.log[s.done].dev == d {
        HeadIsLive(s);
      } else {
        if d in s.arriving {
          ArrivingIsListed(s, d);
        }
        HolderIsLive(s, d);
      }
    }
  }

  lemma LeavingIsLive(s: State, j: nat)
    requires Inv(s) && s.done <= j < |s.log| && s.log[j].Left?
    ensures s.log[j].dev in s.devs
  {
    hide Acyclic, LogOk, Announced, Stages;
    LeftIsHeld(Queued(s), j - s.done);
    QueueIsHeld(s, s.log[j].dev);
  }

  lemma QueueIsHeld(s: State, d: Dev)
    requires d in LeftRefs(Queued(s))
    ensures d in Held(s)
  {
    hide LeftRefs, Sum;
  }

  /** No queued message names a freed device. */
  lemma QueuedIsLive(s: State, i: nat)
    requires Inv(s) && s.done <= i < |s.log|
    ensures s.log[i].dev in s.devs
  {
    hide Acyclic, Counted, Held, LogOk, Stages;
    var d := s.log[i].dev;
    if s.log[i].Left? {
      LeavingIsLive(s, i);
    } else {
      assert AliveBehind(s, i);
      if j :| i < j < |s.log| && s.log[j] == Left(d) {
        LeavingIsLive(s, j);
      } else {
        HolderIsLive(s, d);
      }
    }
  }

  lemma HeadIsLive(s: State)
    requires Inv(s) && s.done < |s.log|
    ensures s.log[s.done].dev in s.devs
  {
    QueuedIsLive(s, s.done);
  }

  lemma InvStep(s: State, a: Action)
    requires Inv(s) && Possible(s, a)
    ensures Inv(Apply(s, a))
  {
    KeepsLog(s, a);
    KeepsAnnounced(s, a);
    StagesAndCount(s, a);
  }

  lemma StagesAndCount(s: State, a: Action)
    requires Inv(s) && Possible(s, a)
    ensures var t := Apply(s, a); Stages(t) && Counted(t.devs, Held(t)) && Acyclic(t.devs)
  {
    hide Inv, Stages, Counted, Acyclic, Held, Apply, Possible;
    match a {
      case Allocate(d) => AllocateKeepsCount(s, d); BackendKeepsStages(s, a);
      case SetParent(d, p) => AdoptKeepsCount(s, d, p); BackendKeepsStages(s, a);
      case Attach(d) => AttachKeepsCount(s, d); BackendKeepsStages(s, a);
      case SayArrived(d, queued) => SayArrivedKeepsCount(s, d, queued); BackendKeepsStages(s, a);
      case Detach(d) => DetachKeepsCount(s, d); BackendKeepsStages(s, a);
      case SayLeft(d, queued) => SayLeftKeepsCount(s, d, queued); BackendKeepsStages(s, a);
      case HandleMessage => HandleKeepsCount(s); UseKeepsStages(s, a);
      case Submit(d, before) => SubmitKeepsCount(s, d, before); UseKeepsStages(s, a);
      case Find(d) => TakingKeepsCount(s, a); UseKeepsStages(s, a);
      case TakeRef(d) => TakingKeepsCount(s, a); UseKeepsStages(s, a);
      case Open(d) => TakingKeepsCount(s, a); UseKeepsStages(s, a);
      case BackendUnref(d) => DroppingKeepsCount(s, a); UseKeepsStages(s, a);
      case DropRef(d) => DroppingKeepsCount(s, a); UseKeepsStages(s, a);
      case Close(d) => DroppingKeepsCount(s, a); UseKeepsStages(s, a);
      case FreeTransfer(d) => DroppingKeepsCount(s, a); UseKeepsStages(s, a);
    }
  }

  function Empty(): State {
    State(map[], {}, {}, {}, [], {}, {}, [], 0, multiset{}, multiset{}, multiset{}, multiset{})
  }

  /** A run: from an empty context, operations their callers are entitled to. */
  ghost predicate IsRun(ss: seq<State>, acts: seq<Action>) {
    && |ss| == |acts| + 1 && ss[0] == Empty()
    && forall k {:trigger acts[k]} :: 0 <= k < |acts| ==>
         Enabled(ss[k], acts[k]) && (Possible(ss[k], acts[k]) ==> ss[k + 1] == Apply(ss[k], acts[k]))
  }

  lemma {:induction false} InvRun(ss: seq<State>, acts: seq<Action>, k: nat)
    requires IsRun(ss, acts) && k < |ss|
    ensures Inv(ss[k])
  {
    hide Inv, Apply, Possible, Enabled;
    if k == 0 {
      EmptyInv();
    } else {
      InvRun(ss, acts, k - 1);
      assert acts[k - 1] == acts[k - 1];
      EnabledIsPossible(ss[k - 1], acts[k - 1]);
      InvStep(ss[k - 1], acts[k - 1]);
    }
  }

  lemma EmptyInv()
    ensures Inv(Empty())
  {
    var depth: Dev -> nat := d => 0;
    assert Forest(map[], depth);
  }

  /** An operation on a device that exists: the one it names, its parent, the one whose reference
      a transfer gives up, or the one of the message it handles. */
  predicate Uses(s: State, a: Action, d: Dev) {
    || (!a.HandleMessage? && !a.Allocate? && a.d == d)
    || (a.SetParent? && a.p == d)
    || (a.Submit? && a.before == Some(d))
    || (a.HandleMessage? && s.done < |s.log| && s.log[s.done].dev == d)
  }

  /** In every run, no operation uses a device that has been freed. */
  lemma NoUseAfterFree(ss: seq<State>, acts: seq<Action>, k: nat)
    requires IsRun(ss, acts) && k < |acts|
    ensures forall d :: Uses(ss[k], acts[k], d) ==> d in ss[k].devs
  {
    hide Inv, Enabled, Apply, Touched, Uses;
    InvRun(ss, acts, k);
    assert acts[k] == acts[k];
    EnabledIsPossible(ss[k], acts[k]);
    forall d | Uses(ss[k], acts[k], d) ensures d in Touched(ss[k], acts[k]) {
      UsesTouches(ss[k], acts[k], d);
    }
  }

  lemma UsesTouches(s: State, a: Action, d: Dev)
    requires Uses(s, a, d)
    ensures d in Touched(s, a)
  {
  }

  /** At every point the count of each device is the number of its holders and children. */
  lemma CountIsHolders(ss: seq<State>, acts: seq<Action>, k: nat, d: Dev)
    requires IsRun(ss, acts) && k < |ss| && d in ss[k].devs
    ensures ss[k].devs[d].refcnt == Held(ss[k])[d] + |Children(ss[k].devs, d)| >= 1
  {
    InvRun(ss, acts, k);
  }

  /** A device is announced to have left at most once, and only after its arrival. */
  lemma LeavesOnce(ss: seq<State>, acts: seq<Action>, k: nat, i: nat, j: nat)
    requires IsRun(ss, acts) && k < |ss| && i < j < |ss[k].log| && ss[k].log[i].dev == ss[k].log[j].dev
    ensures ss[k].log[i].Arrived? && ss[k].log[j].Left?
  {
    InvRun(ss, acts, k);
  }

  /** No message in the queue and no entry of the list of devices names a freed device. */
  lemma NamedIsLive(ss: seq<State>, acts: seq<Action>, k: nat)
    requires IsRun(ss, acts) && k < |ss|
    ensures forall i :: ss[k].done <= i < |ss[k].log| ==> ss[k].log[i].dev in ss[k].devs
    ensures forall d :: d in ss[k].usbDevs ==> d in ss[k].devs
  {
    InvRun(ss, acts, k);
    forall i | ss[k].done <= i < |ss[k].log| ensures ss[k].log[i].dev in ss[k].devs {
      QueuedIsLive(ss[k], i);
    }
  }

  /** A context may be torn down at any point of a run: what HotplugTeardown.Context.Exit asks
      for holds, with everything but the list and the queue counting as outside. */
  lemma TeardownIsReady(ss: seq<State>, acts: seq<Action>, k: nat)
    requires IsRun(ss, acts) && k < |ss|
    ensures var s := ss[k];
            var outside := Elsewhere(s) + multiset(s.leaving) + multiset(s.lost);
            && Counted(s.devs, outside + multiset(s.usbDevs) + LeftRefs(Queued(s)))
            && Distinct(s.usbDevs) && exists depth: Dev -> nat :: Forest(s.devs, depth)
  {
    InvRun(ss, acts, k);
    var s := ss[k];
    assert Elsewhere(s) + multiset(s.leaving) + multiset(s.lost) + multiset(s.usbDevs) + LeftRefs(Queued(s)) == Held(s);
  }
}
