/** Reference counts of devices.  A device that has been freed is no longer in the map, so
    that touching one is an error in the model. */
module DeviceRefs {
  import opened Wrappers

  type Dev = nat

  datatype Device = Device(refcnt: nat, parent: Option<Dev>)
  type Devices = map<Dev, Device>

  ghost function Children(devs: Devices, d: Dev): set<Dev> {
    set c | c in devs && devs[c].parent == Some(d)
  }

  /** Parents exist and lie nearer the root. */
  ghost predicate Forest(devs: Devices, depth: Dev -> nat) {
    forall d :: d in devs && devs[d].parent.Some? ==>
      devs[d].parent.value in devs && depth(devs[d].parent.value) < depth(d)
  }

  /** held has one entry for each reference other than those of children. */
  ghost predicate Counted(devs: Devices, held: multiset<Dev>) {
    && (forall d :: d in devs ==> devs[d].refcnt == held[d] + |Children(devs, d)| && devs[d].refcnt >= 1)
    && (forall d :: d in held ==> d in devs)
  }

  /** libusb_unref_device: the last reference frees the device and drops its parent's. */
  function Unref(devs: Devices, d: Dev): (r: Devices)
    requires d in devs
    ensures forall e :: e in r ==> e in devs && r[e].parent == devs[e].parent && r[e].refcnt <= devs[e].refcnt
    decreases |devs|
  {
    if devs[d].refcnt > 1 then devs[d := devs[d].(refcnt := devs[d].refcnt - 1)]
    else
      var rest := Without(devs, d);
      match devs[d].parent
      case None => rest
      case Some(p) => if p in rest then Unref(rest, p) else rest
  }

  function Without(devs: Devices, d: Dev): (r: Devices)
    requires d in devs
    ensures r.Keys == devs.Keys - {d} && (forall e :: e in r ==> r[e] == devs[e]) && |r| == |devs| - 1
  {
    assert |devs.Keys - {d}| == |devs.Keys| - 1;
    var r := devs - {d};
    assert r.Keys == devs.Keys - {d};
    assert |r| == |r.Keys| && |devs| == |devs.Keys|;
    r
  }

  function Ref(devs: Devices, d: Dev): Devices
    requires d in devs
  {
    devs[d := devs[d].(refcnt := devs[d].refcnt + 1)]
  }

  lemma ChildrenSame(devs: Devices, devs': Devices, d: Dev)
    requires devs.Keys == devs'.Keys && forall e :: e in devs ==> devs'[e].parent == devs[e].parent
    ensures Children(devs', d) == Children(devs, d)
  {
  }

  lemma RefCounted(devs: Devices, held: multiset<Dev>, d: Dev, depth: Dev -> nat)
    requires Counted(devs, held) && Forest(devs, depth) && d in devs
    ensures Counted(Ref(devs, d), held + multiset{d}) && Forest(Ref(devs, d), depth)
  {
    forall e | e in devs ensures Children(Ref(devs, d), e) == Children(devs, e) {
      ChildrenSame(devs, Ref(devs, d), e);
    }
  }

  lemma ChildrenWithout(devs: Devices, d: Dev, e: Dev)
    requires d in devs
    ensures |Children(Without(devs, d), e)|
         == if devs[d].parent == Some(e) then |Children(devs, e)| - 1 else |Children(devs, e)|
  {
    if devs[d].parent == Some(e) {
      assert d in Children(devs, e);
      assert Children(Without(devs, d), e) == Children(devs, e) - {d};
    } else {
      assert Children(Without(devs, d), e) == Children(devs, e);
    }
  }

  lemma ForestWithout(devs: Devices, d: Dev, depth: Dev -> nat)
    requires Forest(devs, depth) && d in devs && Children(devs, d) == {}
    ensures Forest(Without(devs, d), depth)
  {
    forall e | e in Without(devs, d) && devs[e].parent.Some? ensures devs[e].parent.value != d {
      assert e !in Children(devs, d);
    }
  }

  /** The references accounted for when d, held once, is taken out: its parent has one more. */
  ghost function Passed(held: multiset<Dev>, d: Dev, parent: Option<Dev>): multiset<Dev> {
    match parent
    case None => held - multiset{d}
    case Some(p) => held - multiset{d} + multiset{p}
  }

  lemma PassedAt(held: multiset<Dev>, d: Dev, parent: Option<Dev>, e: Dev)
    requires d in held
    ensures Passed(held, d, parent)[e] == held[e] - (if e == d then 1 else 0) + (if parent == Some(e) then 1 else 0)
  {
  }

  lemma WithoutCounted(devs: Devices, held: multiset<Dev>, d: Dev, depth: Dev -> nat)
    requires Counted(devs, held) && Forest(devs, depth) && d in held && devs[d].refcnt == 1
    ensures Forest(Without(devs, d), depth)
    ensures Counted(Without(devs, d), Passed(held, d, devs[d].parent))
  {
    hide Without, Passed;
    assert |Children(devs, d)| == 0;
    ForestWithout(devs, d, depth);
    var rest, passed := Without(devs, d), Passed(held, d, devs[d].parent);
    forall e | e in rest ensures rest[e].refcnt == passed[e] + |Children(rest, e)| && rest[e].refcnt >= 1 {
      ChildrenWithout(devs, d, e);
      PassedAt(held, d, devs[d].parent, e);
    }
    forall e | e in passed ensures e in rest {
      PassedAt(held, d, devs[d].parent, e);
    }
  }

  /** Dropping a held reference keeps the count; what is still held stays. */
  lemma {:induction false} UnrefCounted(devs: Devices, held: multiset<Dev>, d: Dev, depth: Dev -> nat)
    requires Counted(devs, held) && Forest(devs, depth) && d in held
    ensures Counted(Unref(devs, d), held - multiset{d}) && Forest(Unref(devs, d), depth)
    decreases |devs|
  {
    hide Without;
    hide Counted, Forest;
    CountedLive(devs, held, d);
    if devs[d].refcnt > 1 {
      DecrementCounted(devs, held, d, depth);
    } else {
      WithoutCounted(devs, held, d, depth);
      if devs[d].parent.Some? {
        var p := devs[d].parent.value;
        var passed := held - multiset{d} + multiset{p};
        CountedLive(Without(devs, d), passed, p);
        UnrefCounted(Without(devs, d), passed, p, depth);
        assert passed - multiset{p} == held - multiset{d};
      }
    }
  }

  lemma DecrementCounted(devs: Devices, held: multiset<Dev>, d: Dev, depth: Dev -> nat)
    requires Counted(devs, held) && Forest(devs, depth) && d in held && devs[d].refcnt > 1
    ensures var devs' := devs[d := devs[d].(refcnt := devs[d].refcnt - 1)];
            Counted(devs', held - multiset{d}) && Forest(devs', depth)
  {
    var devs' := devs[d := devs[d].(refcnt := devs[d].refcnt - 1)];
    forall e | e in devs ensures Children(devs', e) == Children(devs, e) {
      ChildrenSame(devs, devs', e);
    }
  }

  lemma CountedLive(devs: Devices, held: multiset<Dev>, d: Dev)
    requires Counted(devs, held) && d in held
    ensures d in devs && devs[d].refcnt >= 1
  {
  }

  // ----- Ancestors -----

  /** a is an ancestor of d. */
  ghost predicate Ancestor(devs: Devices, d: Dev, a: Dev, depth: Dev -> nat)
    requires Forest(devs, depth)
    decreases if d in devs then depth(d) + 1 else 0
  {
    d in devs && devs[d].parent.Some? && (devs[d].parent.value == a || Ancestor(devs, devs[d].parent.value, a, depth))
  }

  lemma {:induction false} AncestorWithout(devs: Devices, x: Dev, d: Dev, a: Dev, depth: Dev -> nat)
    requires Forest(devs, depth) && x in devs && Forest(Without(devs, x), depth)
    requires Ancestor(Without(devs, x), d, a, depth)
    ensures Ancestor(devs, d, a, depth)
    decreases depth(d)
  {
    if devs[d].parent.value != a {
      AncestorWithout(devs, x, devs[d].parent.value, a, depth);
    }
  }

  /** Dropping a reference to d frees only d and ancestors of d, each with its last one. */
  lemma {:induction false} FreedAreAncestors(devs: Devices, held: multiset<Dev>, d: Dev, e: Dev, depth: Dev -> nat)
    requires Counted(devs, held) && Forest(devs, depth) && d in held
    requires e in devs && e !in Unref(devs, d)
    ensures devs[e].refcnt == 1 && (e == d || Ancestor(devs, d, e, depth))
    decreases |devs|
  {
    hide Without;
    if devs[d].refcnt == 1 && e != d {
      WithoutCounted(devs, held, d, depth);
      if devs[d].parent.Some? {
        var p, rest := devs[d].parent.value, Without(devs, d);
        FreedAreAncestors(rest, held - multiset{d} + multiset{p}, p, e, depth);
        if e != p {
          AncestorWithout(devs, d, p, e, depth);
        }
      }
    }
  }

  /** A parent has a reference that is not held outside. */
  lemma ParentNotJustHeld(devs: Devices, held: multiset<Dev>, d: Dev)
    requires Counted(devs, held) && d in devs && devs[d].parent.Some? && devs[d].parent.value in devs
    ensures devs[devs[d].parent.value].refcnt > held[devs[d].parent.value]
  {
    assert d in Children(devs, devs[d].parent.value);
  }

  lemma HighestExists(ds: set<Dev>, depth: Dev -> nat) returns (n: nat)
    ensures forall d :: d in ds ==> depth(d) <= n
  {
    n := 0;
    if d :| d in ds {
      var m := HighestExists(ds - {d}, depth);
      n := if depth(d) > m then depth(d) else m;
    }
  }

  /** Every device that exists has a reference held to it or to a device below it. */
  lemma {:induction false} HolderBelow(devs: Devices, held: multiset<Dev>, d: Dev, depth: Dev -> nat, n: nat)
    returns (e: Dev)
    requires Counted(devs, held) && Forest(devs, depth) && d in devs
    requires forall x :: x in devs ==> depth(x) <= n
    ensures e in held && (e == d || Ancestor(devs, e, d, depth))
    decreases n - depth(d)
  {
    if d in held {
      e := d;
    } else {
      assert |Children(devs, d)| > 0;
      var c :| c in Children(devs, d);
      e := HolderBelow(devs, held, c, depth, n);
      if e != c {
        AncestorUp(devs, e, c, d, depth);
      }
    }
  }

  lemma {:induction false} AncestorUp(devs: Devices, e: Dev, c: Dev, d: Dev, depth: Dev -> nat)
    requires Forest(devs, depth) && Ancestor(devs, e, c, depth) && c in devs && devs[c].parent == Some(d)
    ensures Ancestor(devs, e, d, depth)
    decreases depth(e)
  {
    if devs[e].parent.value != c {
      AncestorUp(devs, devs[e].parent.value, c, d, depth);
    }
  }

  lemma {:induction false} AncestorLives(devs: Devices, e: Dev, d: Dev, depth: Dev -> nat)
    requires Forest(devs, depth) && Ancestor(devs, e, d, depth)
    ensures d in devs
    decreases depth(e)
  {
    if devs[e].parent.value != d {
      AncestorLives(devs, devs[e].parent.value, d, depth);
    }
  }

  /** With nothing held no device is left. */
  lemma UnheldIsEmpty(devs: Devices, depth: Dev -> nat)
    requires Counted(devs, multiset{}) && Forest(devs, depth)
    ensures devs == map[]
  {
    if d :| d in devs {
      var n := HighestExists(devs.Keys, depth);
      var e := HolderBelow(devs, multiset{}, d, depth, n);
    }
  }

  /** after has some of the devices of before, each with the parent it had. */
  ghost predicate Shrunk(before: Devices, after: Devices) {
    forall d :: d in after ==> d in before && after[d].parent == before[d].parent
  }

  lemma ShrunkMore(before: Devices, middle: Devices, d: Dev)
    requires Shrunk(before, middle) && d in middle
    ensures Shrunk(before, Unref(middle, d))
  {
  }

  /** Devices that are left have the ancestors they had. */
  lemma {:induction false} SameAncestors(before: Devices, after: Devices, e: Dev, d: Dev, depth: Dev -> nat)
    requires Forest(before, depth) && Forest(after, depth) && e in after
    requires Shrunk(before, after)
    ensures Ancestor(before, e, d, depth) <==> Ancestor(after, e, d, depth)
    decreases depth(e)
  {
    if after[e].parent.Some? && after[e].parent.value != d {
      SameAncestors(before, after, after[e].parent.value, d, depth);
    }
  }
}
