/** usbi_hotplug_exit and what it calls, on the fields of a context. */
module HotplugTeardown {
  import opened Wrappers
  import opened DeviceRefs
  import opened HotplugExit
  import opened HotplugSurvivors
  import opened Sequences

  /** The reference counting can go up from d: every device it reaches exists, with at least
      one reference. */
  ghost predicate Droppable(devs: Devices, d: Dev, depth: Dev -> nat)
    decreases depth(d)
  {
    && d in devs && devs[d].refcnt >= 1
    && (devs[d].refcnt == 1 && devs[d].parent.Some? ==>
          depth(devs[d].parent.value) < depth(d) && Droppable(devs, devs[d].parent.value, depth))
  }

  lemma {:induction false} CountedDroppable(devs: Devices, held: multiset<Dev>, d: Dev, depth: Dev -> nat)
    requires Counted(devs, held) && Forest(devs, depth) && d in devs
    ensures Droppable(devs, d, depth)
    decreases depth(d)
  {
    if devs[d].parent.Some? {
      CountedDroppable(devs, held, devs[d].parent.value, depth);
    }
  }

  lemma WithoutOther(devs: Devices, d: Dev, p: Dev, y: Device)
    requires d in devs && p in devs && p != d
    ensures Without(devs[p := y], d) == Without(devs, d)[p := y]
  {
    hide Without;
  }

  lemma WithoutSame(devs: Devices, d: Dev, x: Device)
    requires d in devs
    ensures Without(devs[d := x], d) == Without(devs, d)
  {
    hide Without;
  }

  lemma MapFacts(devs: Devices, d: Dev, x: Device, p: Dev, y: Device)
    requires d in devs && p in devs && p != d
    ensures p in Without(devs, d) && d in Without(devs, p)
    ensures Without(devs[d := x][p := y], d) == Without(devs, d)[p := y]
    ensures Without(devs[d := x], p) == Without(devs, p)[d := x]
    ensures Without(Without(devs, d), p) == Without(Without(devs, p), d)
    ensures Without(Without(devs, p)[d := x], d) == Without(Without(devs, p), d)
  {
    hide Without;
    WithoutSame(devs, d, x);
    WithoutOther(devs[d := x], d, p, y);
    WithoutOther(devs, p, d, x);
    WithoutSame(Without(devs, p), d, x);
  }

  lemma UnrefMore(devs: Devices, p: Dev)
    requires p in devs && devs[p].refcnt > 1
    ensures Unref(devs, p) == devs[p := devs[p].(refcnt := devs[p].refcnt - 1)]
  {
  }

  lemma UnrefLast(devs: Devices, p: Dev)
    requires p in devs && devs[p].refcnt == 1
    ensures devs[p].parent.None? ==> Unref(devs, p) == Without(devs, p)
    ensures devs[p].parent.Some? && devs[p].parent.value in Without(devs, p) ==>
              Unref(devs, p) == Unref(Without(devs, p), devs[p].parent.value)
  {
  }

  /** A device below p, about to be freed, plays no part when a reference to p is dropped. */
  lemma {:induction false} DropApart(devs: Devices, d: Dev, x: Device, p: Dev, depth: Dev -> nat)
    requires d in devs && Droppable(devs, p, depth) && depth(p) < depth(d)
    ensures Droppable(devs[d := x], p, depth) && p in Without(devs, d)
    ensures d in Unref(devs[d := x], p) && Without(Unref(devs[d := x], p), d) == Unref(Without(devs, d), p)
    decreases depth(p)
  {
    hide Without, Unref;
    MapFacts(devs, d, x, p, devs[p].(refcnt := devs[p].refcnt - 1));
    if devs[p].refcnt > 1 {
      UnrefMore(devs[d := x], p);
      UnrefMore(Without(devs, d), p);
    } else {
      UnrefLast(devs[d := x], p);
      UnrefLast(Without(devs, d), p);
      if devs[p].parent.Some? {
        var q, rest := devs[p].parent.value, Without(devs, p);
        DroppableWithout(devs, p, q, depth);
        DropApart(rest, d, x, q, depth);
        DroppableWith(devs, d, x, q, depth);
      }
    }
  }

  lemma {:induction false} DroppableWith(devs: Devices, d: Dev, x: Device, q: Dev, depth: Dev -> nat)
    requires Droppable(devs, q, depth) && depth(q) < depth(d)
    ensures Droppable(devs[d := x], q, depth)
    decreases depth(q)
  {
    if devs[q].refcnt == 1 && devs[q].parent.Some? {
      DroppableWith(devs, d, x, devs[q].parent.value, depth);
    }
  }

  lemma {:induction false} DroppableWithout(devs: Devices, p: Dev, q: Dev, depth: Dev -> nat)
    requires p in devs && Droppable(devs, q, depth) && depth(q) < depth(p)
    ensures Droppable(Without(devs, p), q, depth)
    decreases depth(q)
  {
    if devs[q].refcnt == 1 && devs[q].parent.Some? {
      DroppableWithout(devs, p, devs[q].parent.value, depth);
    }
  }

  /** The references that queued messages hold: one for each device that left. */
  ghost function LeftRefs(msgs: seq<Message>): multiset<Dev> {
    if msgs == [] then multiset{}
    else if msgs[0].Left? then multiset{msgs[0].dev} + LeftRefs(msgs[1..])
    else LeftRefs(msgs[1..])
  }

  /** What dropping the reference of the first message does. */
  lemma DropLeft(devs: Devices, msgs: seq<Message>, outside: multiset<Dev>, depth: Dev -> nat)
    requires Counted(devs, outside + LeftRefs(msgs)) && Forest(devs, depth) && msgs != [] && msgs[0].Left?
    ensures Droppable(devs, msgs[0].dev, depth)
    ensures Counted(Unref(devs, msgs[0].dev), outside + LeftRefs(msgs[1..])) && Forest(Unref(devs, msgs[0].dev), depth)
  {
    var d, held := msgs[0].dev, outside + LeftRefs(msgs);
    CountedLive(devs, held, d);
    CountedDroppable(devs, held, d, depth);
    UnrefCounted(devs, held, d, depth);
    assert held - multiset{d} == outside + LeftRefs(msgs[1..]);
  }

  lemma FirstIn(s: seq<Dev>)
    ensures s == [] || s[0] in s
  {
  }

  lemma NoneLeft(devs: Devices, s: seq<Dev>)
    requires devs == map[] && forall d :: d in s ==> d in devs
    ensures s == []
  {
    FirstIn(s);
  }

  class Context {
    var devs: Devices
    var usbDevs: seq<Dev>
    var hotplugMsgs: seq<Message>
    ghost const depth: Dev -> nat

    constructor (ghost depth: Dev -> nat)
      ensures this.depth == depth && devs == map[] && usbDevs == [] && hotplugMsgs == []
    {
      devs, usbDevs, hotplugMsgs, this.depth := map[], [], [], depth;
    }

    /** libusb_unref_device with hotplug support; no device is a null pointer. */
    method UnrefDevice(dev: Option<Dev>)
      requires dev.Some? ==> Droppable(devs, dev.value, depth)
      modifies `devs
      ensures devs == if dev.Some? then Unref(old(devs), dev.value) else old(devs)
      decreases if dev.Some? then depth(dev.value) + 1 else 0
    {
      if dev.None? {
        return;
      }
      var d := dev.value;
      var refcnt := devs[d].refcnt - 1;
      devs := devs[d := devs[d].(refcnt := refcnt)];
      if refcnt == 0 {
        ghost var zero := devs[d];
        if devs[d].parent.Some? {
          DropApart(old(devs), d, zero, devs[d].parent.value, depth);
        }
        UnrefDevice(devs[d].parent);
        devs := Without(devs, d);
      }
    }

    /** usbi_recursively_remove_parents; nextDev is the device saved for the next turn. */
    method RecursivelyRemoveParents(dev: Dev, nextDev: Option<Dev>, ghost held: multiset<Dev>)
      requires Counted(devs, held) && Forest(devs, depth) && dev in devs
      requires nextDev.Some? ==> nextDev.value in held
      modifies `usbDevs
      ensures usbDevs == RemoveParents(devs, old(usbDevs), dev, depth)
      decreases depth(dev)
    {
      if devs[dev].parent.Some? {
        var parent := devs[dev].parent.value;
        ParentNotJustHeld(devs, held, dev);
        if devs[parent].refcnt == 1 {
          assert nextDev != Some(parent);
          if parent in usbDevs {
            usbDevs := Remove(usbDevs, parent);
          } else {
            RemoveAbsent(usbDevs, parent);
          }
        }
        RecursivelyRemoveParents(parent, nextDev, held);
      }
    }

    /** Frees the queued hotplug messages. */
    method DropMessages(ghost outside: multiset<Dev>)
      requires Counted(devs, outside + LeftRefs(hotplugMsgs)) && Forest(devs, depth)
      modifies `devs, `hotplugMsgs
      ensures hotplugMsgs == [] && Counted(devs, outside) && Forest(devs, depth)
      ensures Shrunk(old(devs), devs)
    {
      while hotplugMsgs != []
        invariant Counted(devs, outside + LeftRefs(hotplugMsgs)) && Forest(devs, depth)
        invariant Shrunk(old(devs), devs)
        decreases |hotplugMsgs|
      {
        hide Unref, Counted, Shrunk;
        var msg := hotplugMsgs[0];
        if msg.Left? {
          CountedLive(devs, outside + LeftRefs(hotplugMsgs), msg.dev);
          ShrunkMore(old(devs), devs, msg.dev);
          DropLeft(devs, hotplugMsgs, outside, depth);
          UnrefDevice(Some(msg.dev));
        }
        hotplugMsgs := hotplugMsgs[1..];
      }
    }

    /** One turn of the loop over the devices. */
    method Step(dev: Dev, nextDev: Option<Dev>, ghost front: seq<Dev>, ghost rest: seq<Dev>,
                ghost outside: multiset<Dev>)
      requires Walking(devs, front, rest, outside, depth) && usbDevs == front + rest
      requires rest != [] && rest[0] == dev && nextDev == First(rest[1..])
      modifies `devs, `usbDevs
      ensures devs == Unref(old(devs), dev) && usbDevs == FrontAfter(old(devs), front, dev, depth) + rest[1..]
    {
      ghost var held := outside + multiset(rest);
      InRest(rest, outside);
      CountedDroppable(devs, held, dev, depth);
      StepList(devs, front, rest, outside, depth);
      if devs[dev].refcnt == 1 {
        usbDevs := Remove(usbDevs, dev);
      }
      RecursivelyRemoveParents(dev, nextDev, held);
      UnrefDevice(Some(dev));
    }

    /** The loop of usbi_hotplug_exit over the devices.  Reading the successor of the saved
        device needs that it is still on the list. */
    method DropDevices(ghost outside: multiset<Dev>)
      requires Counted(devs, outside + multiset(usbDevs)) && Forest(devs, depth) && Distinct(usbDevs)
      modifies `devs, `usbDevs
      ensures Counted(devs, outside) && Forest(devs, depth)
      ensures Shrunk(old(devs), devs)
      ensures Distinct(usbDevs)
      ensures forall d :: d in usbDevs <==>
                d in old(usbDevs) && d in devs && !TakenOff(old(devs), old(usbDevs), outside, d, depth)
    {
      hide Walking, Unref, FrontAfter, FrontOk, Shrunk, Counted, Distinct, Forest, TakenOff;
      ghost var front: seq<Dev>, rest, k := [], usbDevs, 0;
      WalkStart(devs, usbDevs, outside, depth);
      assert front + rest == usbDevs;
      var dev := First(usbDevs);
      var nextDev: Option<Dev> := None;
      if dev.Some? {
        NextIs(front, rest);
        nextDev := After(usbDevs, dev.value);
      }
      while dev.Some?
        invariant Walking(devs, front, rest, outside, depth) && usbDevs == front + rest
        invariant dev == First(rest) && (rest != [] ==> nextDev == First(rest[1..]))
        invariant Shrunk(old(devs), devs) && k <= |old(usbDevs)| && rest == old(usbDevs)[k..]
        invariant FrontOk(old(devs), old(usbDevs), outside, k, devs, front, depth)
        decreases |rest|
      {
        WalkingLive(devs, front, rest, outside, depth);
        FrontStep(old(devs), old(usbDevs), outside, k, devs, front, depth);
        ShrunkMore(old(devs), devs, dev.value);
        StepWalking(devs, front, rest, outside, depth);
        ghost var front' := FrontAfter(devs, front, dev.value, depth);
        Step(dev.value, nextDev, front, rest, outside);
        front, rest, k := front', rest[1..], k + 1;
        dev := nextDev;
        if dev.Some? {
          WalkingDistinct(devs, front, rest, outside, depth);
          NextIs(front, rest);
          nextDev := After(usbDevs, dev.value);
        }
      }
      assert front + rest == front;
      WalkDone(old(devs), old(usbDevs), outside, devs, front, depth);
    }

    /** usbi_hotplug_exit; outside are the references the application still has. */
    method Exit(ghost outside: multiset<Dev>)
      requires Counted(devs, outside + multiset(usbDevs) + LeftRefs(hotplugMsgs)) && Forest(devs, depth)
      requires Distinct(usbDevs)
      modifies this
      ensures hotplugMsgs == [] && Counted(devs, outside) && Forest(devs, depth)
      ensures Shrunk(old(devs), devs)
      // the list is left with those of its devices that live and were not taken off
      ensures Distinct(usbDevs)
      ensures forall d :: d in usbDevs <==>
                d in old(usbDevs) && d in devs && !TakenOff(old(devs), old(usbDevs), outside, d, depth)
      // a device survives exactly if it or a device below it is referenced from outside
      ensures forall d :: d in old(devs) ==>
                (d in devs <==> exists e :: e in outside && (e == d || Ancestor(old(devs), e, d, depth)))
      // so with no reference outside everything is freed
      ensures outside == multiset{} ==> devs == map[] && usbDevs == []
    {
      hide Shrunk, Counted, TakenOff, Distinct, LeftRefs, Ancestor;
      DropMessages(outside + multiset(usbDevs));
      ghost var between := devs;
      MessagesApart(old(devs), between, usbDevs, outside, depth);
      DropDevices(outside);
      ShrunkTwice(old(devs), between, devs);
      Survivors(old(devs), devs, outside, depth);
      if outside == multiset{} {
        UnheldIsEmpty(devs, depth);
        NoneLeft(devs, usbDevs);
      }
    }
  }

  lemma ShrunkTwice(before: Devices, between: Devices, after: Devices)
    requires Shrunk(before, between) && Shrunk(between, after)
    ensures Shrunk(before, after)
  {
  }

  lemma Survivors(before: Devices, after: Devices, outside: multiset<Dev>, depth: Dev -> nat)
    requires Forest(before, depth) && Forest(after, depth) && Counted(after, outside) && Shrunk(before, after)
    ensures forall d :: d in before ==>
              (d in after <==> exists e :: e in outside && (e == d || Ancestor(before, e, d, depth)))
  {
    hide Forest, Counted, Shrunk;
    forall d | d in before
      ensures d in after <==> exists e :: e in outside && (e == d || Ancestor(before, e, d, depth))
    {
      Survives(before, after, outside, d, depth);
    }
  }

  lemma NextIs(front: seq<Dev>, rest: seq<Dev>)
    requires Distinct(front + rest) && rest != []
    ensures rest[0] in front + rest && After(front + rest, rest[0]) == First(rest[1..])
  {
    assert rest == [rest[0]] + rest[1..];
    AfterMiddle(front, rest[0], rest[1..]);
  }

  lemma WalkingLive(devs: Devices, front: seq<Dev>, rest: seq<Dev>, outside: multiset<Dev>, depth: Dev -> nat)
    requires Walking(devs, front, rest, outside, depth) && rest != []
    ensures rest[0] in devs && Forest(devs, depth)
  {
    InRest(rest, outside);
  }

  lemma WalkingDistinct(devs: Devices, front: seq<Dev>, rest: seq<Dev>, outside: multiset<Dev>, depth: Dev -> nat)
    requires Walking(devs, front, rest, outside, depth)
    ensures Distinct(front + rest)
  {
  }

  lemma Survives(before: Devices, after: Devices, outside: multiset<Dev>, d: Dev, depth: Dev -> nat)
    requires Forest(before, depth) && Forest(after, depth) && Counted(after, outside) && d in before
    requires Shrunk(before, after)
    ensures d in after <==> exists e :: e in outside && (e == d || Ancestor(before, e, d, depth))
  {
    if d in after {
      var n := HighestExists(after.Keys, depth);
      var e := HolderBelow(after, outside, d, depth, n);
      SameAncestors(before, after, e, d, depth);
    }
    if e :| e in outside && (e == d || Ancestor(before, e, d, depth)) {
      if e != d {
        SameAncestors(before, after, e, d, depth);
        AncestorLives(after, e, d, depth);
      }
    }
  }
}
