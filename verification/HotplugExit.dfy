/** The teardown of a context: it walks the list of devices and drops the list's reference to
    each, while freed devices drop those to their parents, up the tree. */
module HotplugExit {
  import opened Wrappers
  import opened DeviceRefs
  import opened Sequences

  datatype Message = Arrived(dev: Dev) | Left(dev: Dev)

  // ----- The list of devices -----

  /** list_del: takes d out of the list. */
  function Remove(s: seq<Dev>, d: Dev): (r: seq<Dev>)
    ensures forall e :: e in r ==> e in s
  {
    if s == [] then [] else if s[0] == d then s[1..] else [s[0]] + Remove(s[1..], d)
  }

  lemma {:induction false} RemoveMeans(s: seq<Dev>, d: Dev)
    requires Distinct(s)
    ensures Distinct(Remove(s, d)) && d !in Remove(s, d) && forall e :: e in s && e != d ==> e in Remove(s, d)
  {
    if s != [] {
      if s[0] != d {
        RemoveMeans(s[1..], d);
        DistinctCons(s[0], Remove(s[1..], d));
      }
      forall e | e in s && e != d ensures e in Remove(s, d) {
        assert e == s[0] || e in s[1..];
      }
    }
  }

  lemma DistinctCons(d: Dev, s: seq<Dev>)
    requires Distinct(s) && d !in s
    ensures Distinct([d] + s)
  {
  }

  lemma {:induction false} RemoveFront(a: seq<Dev>, b: seq<Dev>, d: Dev)
    requires d !in b
    ensures Remove(a + b, d) == Remove(a, d) + b
  {
    if a == [] {
      RemoveAbsent(b, d);
      assert a + b == b;
    } else {
      RemoveFront(a[1..], b, d);
      assert (a + b)[1..] == a[1..] + b;
    }
  }

  lemma {:induction false} RemoveAbsent(s: seq<Dev>, d: Dev)
    requires d !in s
    ensures Remove(s, d) == s
  {
    if s != [] {
      RemoveAbsent(s[1..], d);
    }
  }

  function First(s: seq<Dev>): Option<Dev> {
    if s == [] then None else Some(s[0])
  }

  /** The next device on the list; only a device on the list has one. */
  function After(s: seq<Dev>, d: Dev): Option<Dev>
    requires d in s
  {
    if s[0] == d then First(s[1..]) else After(s[1..], d)
  }

  lemma {:induction false} AfterMiddle(a: seq<Dev>, d: Dev, b: seq<Dev>)
    requires Distinct(a + ([d] + b))
    ensures d in a + ([d] + b) && After(a + ([d] + b), d) == First(b)
  {
    var s := a + ([d] + b);
    assert s[|a|] == d;
    if a == [] {
      assert s[1..] == b;
    } else {
      assert s[1..] == a[1..] + ([d] + b);
      AfterMiddle(a[1..], d, b);
    }
  }

  // ----- Taking ancestors off the list -----

  /** usbi_recursively_remove_parents: every ancestor of d with a single reference. */
  ghost function RemoveParents(devs: Devices, s: seq<Dev>, d: Dev, depth: Dev -> nat): seq<Dev>
    requires Forest(devs, depth) && d in devs
    decreases depth(d)
  {
    match devs[d].parent
    case None => s
    case Some(p) => RemoveParents(devs, if devs[p].refcnt == 1 then Remove(s, p) else s, p, depth)
  }

  /** Exactly the ancestors with a single reference are off the list. */
  lemma {:induction false} ParentsRemoved(devs: Devices, s: seq<Dev>, d: Dev, depth: Dev -> nat)
    requires Forest(devs, depth) && d in devs && Distinct(s)
    ensures var r := RemoveParents(devs, s, d, depth);
            && Distinct(r)
            && forall e :: e in r <==> e in s && !(Ancestor(devs, d, e, depth) && e in devs && devs[e].refcnt == 1)
    decreases depth(d)
  {
    if devs[d].parent.Some? {
      var p := devs[d].parent.value;
      RemoveMeans(s, p);
      ParentsRemoved(devs, if devs[p].refcnt == 1 then Remove(s, p) else s, p, depth);
    }
  }

  /** What is held stays on the list. */
  lemma {:induction false} HeldStay(devs: Devices, held: multiset<Dev>, a: seq<Dev>, b: seq<Dev>,
                                  d: Dev, depth: Dev -> nat)
    requires Counted(devs, held) && Forest(devs, depth) && d in devs
    requires forall e :: e in b ==> e in held
    ensures RemoveParents(devs, a + b, d, depth) == RemoveParents(devs, a, d, depth) + b
    decreases depth(d)
  {
    if devs[d].parent.Some? {
      var p := devs[d].parent.value;
      ParentNotJustHeld(devs, held, d);
      if devs[p].refcnt == 1 {
        RemoveFront(a, b, p);
        HeldStay(devs, held, Remove(a, p), b, p, depth);
      } else {
        HeldStay(devs, held, a, b, p, depth);
      }
    }
  }

  // ----- The walk -----

  /** Between two steps: the devices in front are done, those of rest still have the list's
      reference, and no device on the list has been freed. */
  ghost predicate Walking(devs: Devices, front: seq<Dev>, rest: seq<Dev>, outside: multiset<Dev>, depth: Dev -> nat) {
    && Counted(devs, outside + multiset(rest)) && Forest(devs, depth)
    && Distinct(front + rest) && forall d :: d in front + rest ==> d in devs
  }

  /** What a step makes of the devices in front. */
  ghost function FrontAfter(devs: Devices, front: seq<Dev>, d: Dev, depth: Dev -> nat): seq<Dev>
    requires Forest(devs, depth) && d in devs
  {
    RemoveParents(devs, if devs[d].refcnt == 1 then front else front + [d], d, depth)
  }

  lemma InRest(rest: seq<Dev>, outside: multiset<Dev>)
    ensures forall d :: d in rest ==> d in outside + multiset(rest)
  {
  }

  lemma HeldAfter(rest: seq<Dev>, outside: multiset<Dev>)
    requires rest != []
    ensures outside + multiset(rest) - multiset{rest[0]} == outside + multiset(rest[1..])
  {
    assert rest == [rest[0]] + rest[1..];
  }

  /** A step leaves the rest of the list as it is, so the device saved as the next one is
      still there. */
  lemma StepList(devs: Devices, front: seq<Dev>, rest: seq<Dev>, outside: multiset<Dev>, depth: Dev -> nat)
    requires Walking(devs, front, rest, outside, depth) && rest != []
    ensures var d, more := rest[0], rest[1..];
            var s := if devs[d].refcnt == 1 then Remove(front + rest, d) else front + rest;
            RemoveParents(devs, s, d, depth) == FrontAfter(devs, front, d, depth) + more
  {
    hide Counted;
    var d, more := rest[0], rest[1..];
    InRest(rest, outside);
    OnlyOnce(front, rest);
    InRest(more, outside);
    HeldAfter(rest, outside);
    if devs[d].refcnt == 1 {
      RemoveBack(front, rest, d);
      HeldStay(devs, outside + multiset(rest), front, more, d, depth);
    } else {
      assert front + rest == front + [d] + more;
      HeldStay(devs, outside + multiset(rest), front + [d], more, d, depth);
    }
  }

  lemma OnlyOnce(a: seq<Dev>, b: seq<Dev>)
    requires Distinct(a + b) && b != []
    ensures b[0] !in a && b[0] !in b[1..]
  {
    assert (a + b)[|a|] == b[0];
    forall i | 0 <= i < |b[1..]| ensures b[1..][i] != b[0] {
      assert (a + b)[|a| + 1 + i] == b[1..][i];
    }
    forall i | 0 <= i < |a| ensures a[i] != b[0] {
      assert (a + b)[i] == a[i];
    }
  }

  lemma {:induction false} RemoveBack(a: seq<Dev>, b: seq<Dev>, d: Dev)
    requires d !in a
    ensures Remove(a + b, d) == a + Remove(b, d)
  {
    if a == [] {
      assert a + b == b && a + Remove(b, d) == Remove(b, d);
    } else {
      RemoveBack(a[1..], b, d);
      assert (a + b)[1..] == a[1..] + b;
    }
  }

  /** And it keeps the walk sound: no device freed by it is left on the list. */
  lemma StepWalking(devs: Devices, front: seq<Dev>, rest: seq<Dev>, outside: multiset<Dev>, depth: Dev -> nat)
    requires Walking(devs, front, rest, outside, depth) && rest != []
    ensures Walking(Unref(devs, rest[0]), FrontAfter(devs, front, rest[0], depth), rest[1..], outside, depth)
  {
    var d, more := rest[0], rest[1..];
    var held, devs' := outside + multiset(rest), Unref(devs, rest[0]);
    InRest(rest, outside);
    HeldAfter(rest, outside);
    UnrefCounted(devs, held, d, depth);
    StepList(devs, front, rest, outside, depth);
    var s := if devs[d].refcnt == 1 then Remove(front + rest, d) else front + rest;
    RemoveMeans(front + rest, d);
    ParentsRemoved(devs, s, d, depth);
    var list := RemoveParents(devs, s, d, depth);
    forall e | e in list ensures e in devs' {
      if e !in devs' {
        FreedAreAncestors(devs, held, d, e, depth);
      }
    }
  }
}
