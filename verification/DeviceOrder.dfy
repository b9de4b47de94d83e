/** The order of the device list: a device is in front of the devices it is plugged into.  So
    the teardown takes no device off the list that lives. */
module DeviceOrder {
  import opened DeviceRefs
  import opened DeviceRuns
  import opened HotplugExit
  import opened HotplugSurvivors
  import opened Sequences
  import opened Wrappers

  ghost predicate Ordered(devs: Devices, usbDevs: seq<Dev>) {
    exists rank: Dev -> nat :: Forest(devs, rank) && Descending(usbDevs, rank)
  }

  /** A rank that puts d right above n. */
  function Raised(rank: Dev -> nat, d: Dev, n: nat): Dev -> nat {
    e => if e == d then n + 1 else rank(e)
  }

  ghost predicate Childless(devs: Devices, d: Dev) {
    forall c :: c in devs && devs[c].parent.Some? ==> devs[c].parent.value != d
  }

  lemma NewOrdered(devs: Devices, usbDevs: seq<Dev>, d: Dev)
    requires Ordered(devs, usbDevs) && d !in devs
    ensures Ordered(devs[d := Device(1, None)], usbDevs)
  {
    var rank: Dev -> nat :| Forest(devs, rank) && Descending(usbDevs, rank);
    assert Forest(devs[d := Device(1, None)], rank);
  }

  lemma AdoptOrdered(devs: Devices, usbDevs: seq<Dev>, d: Dev, p: Dev)
    requires Ordered(devs, usbDevs) && d in devs && p in devs && d != p
    requires Childless(devs, d) && d !in usbDevs
    ensures Ordered(Adopt(Ref(devs, p), d, p), usbDevs)
  {
    var rank: Dev -> nat :| Forest(devs, rank) && Descending(usbDevs, rank);
    var rank' := Raised(rank, d, rank(p));
    assert Forest(Adopt(Ref(devs, p), d, p), rank');
    assert Descending(usbDevs, rank');
  }

  lemma AttachOrdered(devs: Devices, usbDevs: seq<Dev>, d: Dev)
    requires Ordered(devs, usbDevs) && d in devs && Childless(devs, d) && d !in usbDevs
    ensures Ordered(devs, [d] + usbDevs)
  {
    var rank: Dev -> nat :| Forest(devs, rank) && Descending(usbDevs, rank);
    var n := HighestExists(devs.Keys + (set e | e in usbDevs), rank);
    var rank' := Raised(rank, d, n);
    assert Forest(devs, rank');
    assert Descending([d] + usbDevs, rank');
  }

  lemma {:induction false} RemoveDescends(s: seq<Dev>, d: Dev, rank: Dev -> nat)
    requires Descending(s, rank)
    ensures Descending(Remove(s, d), rank)
  {
    if s != [] {
      RemoveDescends(s[1..], d, rank);
      var r := Remove(s[1..], d);
      forall k | 0 <= k < |r| ensures rank(s[0]) > rank(r[k]) {
        assert r[k] in s[1..];
      }
    }
  }

  lemma DetachOrdered(devs: Devices, usbDevs: seq<Dev>, d: Dev)
    requires Ordered(devs, usbDevs)
    ensures Ordered(devs, Remove(usbDevs, d))
  {
    var rank: Dev -> nat :| Forest(devs, rank) && Descending(usbDevs, rank);
    RemoveDescends(usbDevs, d, rank);
  }

  lemma ShrunkOrdered(devs: Devices, devs': Devices, usbDevs: seq<Dev>)
    requires Ordered(devs, usbDevs) && SameParents(devs, devs') && Acyclic(devs')
    ensures Ordered(devs', usbDevs)
  {
    var rank: Dev -> nat :| Forest(devs, rank) && Descending(usbDevs, rank);
    ParentsExist(devs');
    assert Forest(devs', rank);
  }

  lemma NewbornApart(s: State, d: Dev)
    requires Inv(s) && d in s.newborn
    ensures Childless(s.devs, d) && d !in s.usbDevs
  {
    hide Counted, Acyclic, LogOk, Announced;
  }

  lemma OrderedStep(s: State, a: Action)
    requires Inv(s) && Possible(s, a) && Ordered(s.devs, s.usbDevs)
    ensures Ordered(Apply(s, a).devs, Apply(s, a).usbDevs)
  {
    hide Ordered, Inv, Unref, Acyclic, SameParents;
    match a
    case Allocate(d) =>
      KnownApart(s, d);
      NewOrdered(s.devs, s.usbDevs, d);
    case SetParent(d, p) =>
      NewbornApart(s, d);
      AdoptOrdered(s.devs, s.usbDevs, d, p);
    case Attach(d) =>
      NewbornApart(s, d);
      AttachOrdered(s.devs, s.usbDevs, d);
    case Detach(d) => DetachOrdered(s.devs, s.usbDevs, d);
    case SayArrived(_, _) =>
    case SayLeft(_, _) =>
    case _ =>
      UseOrdered(s, a);
  }

  lemma KnownApart(s: State, d: Dev)
    requires Inv(s) && d !in s.known
    ensures d !in s.devs
  {
    hide Counted, Acyclic, LogOk, Announced;
  }

  lemma UseOrdered(s: State, a: Action)
    requires Inv(s) && Possible(s, a) && Ordered(s.devs, s.usbDevs)
    requires !(a.Allocate? || a.SetParent? || a.Attach? || a.SayArrived? || a.Detach? || a.SayLeft?)
    ensures Ordered(Apply(s, a).devs, Apply(s, a).usbDevs)
  {
    hide Counted, Acyclic, LogOk, Announced, Possible, Apply, SameParents, Ordered;
    UseChanges(s, a);
    InvStep(s, a);
    ShrunkOrdered(s.devs, Apply(s, a).devs, s.usbDevs);
  }

  lemma {:induction false} OrderedRun(ss: seq<State>, acts: seq<Action>, k: nat)
    requires IsRun(ss, acts) && k < |ss|
    ensures Ordered(ss[k].devs, ss[k].usbDevs)
  {
    hide Inv, Apply, Possible, Enabled, Ordered;
    if k == 0 {
      EmptyOrdered();
    } else {
      OrderedRun(ss, acts, k - 1);
      InvRun(ss, acts, k - 1);
      assert acts[k - 1] == acts[k - 1];
      EnabledIsPossible(ss[k - 1], acts[k - 1]);
      OrderedStep(ss[k - 1], acts[k - 1]);
    }
  }

  lemma EmptyOrdered()
    ensures Ordered(map[], [])
  {
    var rank: Dev -> nat := d => 0;
    assert Forest(map[], rank) && Descending([], rank);
  }

  /** A teardown at any point of a run leaves every device on the list that lives, as the comment
      in the source says. */
  lemma SurvivorsStay(ss: seq<State>, acts: seq<Action>, k: nat, outside: multiset<Dev>, d: Dev, depth: Dev -> nat)
    requires IsRun(ss, acts) && k < |ss| && Forest(ss[k].devs, depth)
    ensures !TakenOff(ss[k].devs, ss[k].usbDevs, outside, d, depth)
  {
    OrderedRun(ss, acts, k);
    var rank: Dev -> nat :| Forest(ss[k].devs, rank) && Descending(ss[k].usbDevs, rank);
    NoneTaken(ss[k].devs, ss[k].usbDevs, outside, d, depth, rank);
  }
}
