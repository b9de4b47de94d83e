/** Which devices are left on the list after the teardown of a context, besides those freed. */
module HotplugSurvivors {
  import opened DeviceRefs
  import opened HotplugExit
  import opened Sequences
  import opened Wrappers

  ghost predicate AtOrBelow(devs: Devices, e: Dev, d: Dev, depth: Dev -> nat)
    requires Forest(devs, depth)
  {
    e == d || Ancestor(devs, e, d, depth)
  }

  // ----- Paths to the root -----

  lemma {:induction false} AncestorNearer(devs: Devices, e: Dev, d: Dev, depth: Dev -> nat)
    requires Forest(devs, depth) && Ancestor(devs, e, d, depth)
    ensures d in devs && depth(d) < depth(e)
    decreases depth(e)
  {
    if devs[e].parent.value != d {
      AncestorNearer(devs, devs[e].parent.value, d, depth);
    }
  }

  /** What is below d is at or below a child of d. */
  lemma {:induction false} ChildOnPath(devs: Devices, e: Dev, d: Dev, depth: Dev -> nat) returns (q: Dev)
    requires Forest(devs, depth) && Ancestor(devs, e, d, depth)
    ensures q in Children(devs, d) && AtOrBelow(devs, e, q, depth)
    decreases depth(e)
  {
    if devs[e].parent.value == d {
      q := e;
    } else {
      q := ChildOnPath(devs, devs[e].parent.value, d, depth);
    }
  }

  /** And that child is the only one. */
  lemma {:induction false} OnePath(devs: Devices, e: Dev, q: Dev, c: Dev, d: Dev, depth: Dev -> nat)
    requires Forest(devs, depth) && q in Children(devs, d) && c in Children(devs, d)
    requires AtOrBelow(devs, e, q, depth) && AtOrBelow(devs, e, c, depth)
    ensures q == c
    decreases depth(e)
  {
    if e == q {
      if e != c && d != c {
        AncestorNearer(devs, d, c, depth);
      }
    } else if e == c {
      if d != q {
        AncestorNearer(devs, d, q, depth);
      }
    } else {
      OnePath(devs, devs[e].parent.value, q, c, d, depth);
    }
  }

  lemma BelowChild(devs: Devices, e: Dev, q: Dev, d: Dev, depth: Dev -> nat)
    requires Forest(devs, depth) && q in Children(devs, d) && AtOrBelow(devs, e, q, depth)
    ensures Ancestor(devs, e, d, depth)
  {
    if e != q {
      AncestorUp(devs, e, q, d, depth);
    }
  }

  /** A device with child q has a single reference exactly if everything held at or below it is
      at or below q. */
  lemma SoleChild(devs: Devices, held: multiset<Dev>, d: Dev, q: Dev, depth: Dev -> nat)
    requires Counted(devs, held) && Forest(devs, depth) && d in devs && q in Children(devs, d)
    ensures devs[d].refcnt == 1 <==>
              forall e :: e in held && AtOrBelow(devs, e, d, depth) ==> AtOrBelow(devs, e, q, depth)
  {
    if devs[d].refcnt == 1 {
      SingleMeans(devs, held, d, q, depth);
    } else if forall e :: e in held && AtOrBelow(devs, e, d, depth) ==> AtOrBelow(devs, e, q, depth) {
      if d in held {
        AncestorNearer(devs, d, q, depth);
      } else {
        var c := OtherChild(Children(devs, d), q);
        var n := HighestExists(devs.Keys, depth);
        var e := HolderBelow(devs, held, c, depth, n);
        BelowChild(devs, e, c, d, depth);
        OnePath(devs, e, q, c, d, depth);
      }
    }
  }

  lemma SingleMeans(devs: Devices, held: multiset<Dev>, d: Dev, q: Dev, depth: Dev -> nat)
    requires Counted(devs, held) && Forest(devs, depth) && d in devs && q in Children(devs, d)
    requires devs[d].refcnt == 1
    ensures forall e :: e in held && AtOrBelow(devs, e, d, depth) ==> AtOrBelow(devs, e, q, depth)
  {
    OneElement(Children(devs, d), q);
    forall e | e in held && AtOrBelow(devs, e, d, depth) ensures AtOrBelow(devs, e, q, depth) {
      var c := ChildOnPath(devs, e, d, depth);
    }
  }

  lemma OneElement(s: set<Dev>, q: Dev)
    requires q in s
    ensures |s| >= 1 && (|s| == 1 ==> s == {q})
  {
    assert s == (s - {q}) + {q};
  }

  lemma OtherChild(s: set<Dev>, q: Dev) returns (c: Dev)
    requires q in s && |s| != 1
    ensures c in s && c != q
  {
    assert s == {q} + (s - {q}) && |s| == 1 + |s - {q}|;
    c :| c in s - {q};
  }

  // ----- Devices taken off although they live -----

  /** At its turn, device j of the list takes d, walked before, off the list: d is above it, and
      whatever is held then at or below d, from outside or by the list, is at or below the one
      child of d on that way. */
  ghost predicate TakenAt(devs: Devices, s: seq<Dev>, outside: multiset<Dev>, j: nat, d: Dev, depth: Dev -> nat)
    requires Forest(devs, depth) && j < |s|
  {
    d in s[..j] && exists q :: TakenWith(devs, s, outside, j, d, q, depth)
  }

  ghost predicate TakenWith(devs: Devices, s: seq<Dev>, outside: multiset<Dev>, j: nat, d: Dev, q: Dev,
                            depth: Dev -> nat)
    requires Forest(devs, depth) && j < |s|
  {
    && q in Children(devs, d) && AtOrBelow(devs, s[j], q, depth)
    && forall e :: (e in outside || e in s[j..]) && AtOrBelow(devs, e, d, depth) ==> AtOrBelow(devs, e, q, depth)
  }

  ghost predicate TakenOff(devs: Devices, s: seq<Dev>, outside: multiset<Dev>, d: Dev, depth: Dev -> nat)
    requires Forest(devs, depth)
  {
    exists j :: 0 <= j < |s| && TakenAt(devs, s, outside, j, d, depth)
  }

  /** Freeing devices changes nothing in this, as long as those held live. */
  lemma TakenShrunk(before: Devices, after: Devices, s: seq<Dev>, outside: multiset<Dev>, j: nat, d: Dev,
                    depth: Dev -> nat)
    requires Forest(before, depth) && Forest(after, depth) && Shrunk(before, after) && j < |s|
    requires forall e :: e in outside || e in s[j..] ==> e in after
    ensures TakenAt(before, s, outside, j, d, depth) <==> TakenAt(after, s, outside, j, d, depth)
  {
    if q :| TakenWith(before, s, outside, j, d, q, depth) {
      assert TakenWith(after, s, outside, j, d, q, depth) by {
        SameWay(before, after, s, outside, j, d, q, depth);
      }
    }
    if q :| TakenWith(after, s, outside, j, d, q, depth) {
      assert TakenWith(before, s, outside, j, d, q, depth) by {
        SameWay(before, after, s, outside, j, d, q, depth);
      }
    }
  }

  lemma SameWay(before: Devices, after: Devices, s: seq<Dev>, outside: multiset<Dev>, j: nat, d: Dev, q: Dev,
                depth: Dev -> nat)
    requires Forest(before, depth) && Forest(after, depth) && Shrunk(before, after) && j < |s|
    requires forall e :: e in outside || e in s[j..] ==> e in after
    ensures TakenWith(before, s, outside, j, d, q, depth) <==> TakenWith(after, s, outside, j, d, q, depth)
  {
    hide Ancestor;
    assert s[j] in s[j..];
    forall e, x | (e in outside || e in s[j..])
      ensures AtOrBelow(before, e, x, depth) <==> AtOrBelow(after, e, x, depth)
    {
      SameAncestors(before, after, e, x, depth);
    }
    if AtOrBelow(after, s[j], q, depth) && s[j] != q {
      AncestorNearer(after, s[j], q, depth);
    }
  }

  // ----- The walk -----

  /** After k turns: a device walked before is in front exactly if it lives and was not taken
      off. */
  ghost predicate FrontOk(devs: Devices, s: seq<Dev>, outside: multiset<Dev>, k: nat, now: Devices,
                          front: seq<Dev>, depth: Dev -> nat)
    requires Forest(devs, depth) && k <= |s|
  {
    forall d :: d in front <==>
      d in s[..k] && d in now && forall j :: 0 <= j < k ==> !TakenAt(devs, s, outside, j, d, depth)
  }

  /** The turn of device k takes off exactly the ancestors with a single reference. */
  lemma TurnTakes(devs: Devices, s: seq<Dev>, outside: multiset<Dev>, k: nat, d: Dev, depth: Dev -> nat)
    requires Forest(devs, depth) && k < |s| && s[k] in devs && d in s[..k]
    requires Counted(devs, outside + multiset(s[k..]))
    ensures TakenAt(devs, s, outside, k, d, depth) <==>
              d in devs && devs[d].refcnt == 1 && Ancestor(devs, s[k], d, depth)
  {
    var held := outside + multiset(s[k..]);
    assert forall e :: e in held <==> e in outside || e in s[k..];
    if q :| TakenWith(devs, s, outside, k, d, q, depth) {
      BelowChild(devs, s[k], q, d, depth);
      SoleChild(devs, held, d, q, depth);
    }
    if d in devs && devs[d].refcnt == 1 && Ancestor(devs, s[k], d, depth) {
      var q := ChildOnPath(devs, s[k], d, depth);
      SoleChild(devs, held, d, q, depth);
      assert TakenWith(devs, s, outside, k, d, q, depth);
    }
  }

  /** Freeing in the turn of x: x itself with its last reference, and of the devices that stay
      in front none. */
  lemma TurnFrees(now: Devices, front: seq<Dev>, rest: seq<Dev>, outside: multiset<Dev>, d: Dev, depth: Dev -> nat)
    requires Walking(now, front, rest, outside, depth) && rest != []
    ensures rest[0] in now
    ensures d in Unref(now, rest[0]) ==> d in now
    ensures rest[0] in Unref(now, rest[0]) <==> now[rest[0]].refcnt != 1
    ensures d in now && d !in Unref(now, rest[0]) && d != rest[0] ==>
              now[d].refcnt == 1 && Ancestor(now, rest[0], d, depth)
  {
    InRest(rest, outside);
    if d in now && d !in Unref(now, rest[0]) {
      FreedAreAncestors(now, outside + multiset(rest), rest[0], d, depth);
    }
  }

  /** Who is in front after the turn of x. */
  lemma TurnKeeps(now: Devices, front: seq<Dev>, rest: seq<Dev>, outside: multiset<Dev>, d: Dev, depth: Dev -> nat)
    requires Walking(now, front, rest, outside, depth) && rest != []
    ensures rest[0] in now
    ensures d in FrontAfter(now, front, rest[0], depth) <==>
              && (d in front || (d == rest[0] && now[rest[0]].refcnt != 1))
              && !(d in now && now[d].refcnt == 1 && Ancestor(now, rest[0], d, depth))
  {
    hide Counted;
    var x := rest[0];
    InRest(rest, outside);
    WalkedDistinct(front, rest);
    ParentsRemoved(now, if now[x].refcnt == 1 then front else front + [x], x, depth);
  }

  lemma WalkedDistinct(front: seq<Dev>, rest: seq<Dev>)
    requires Distinct(front + rest) && rest != []
    ensures Distinct(front) && Distinct(front + [rest[0]])
  {
    var all := front + rest;
    assert front == all[..|front|] && front + [rest[0]] == all[..|front| + 1];
  }

  lemma FrontStepFor(devs: Devices, s: seq<Dev>, outside: multiset<Dev>, k: nat, now: Devices, front: seq<Dev>,
                     d: Dev, depth: Dev -> nat)
    requires Forest(devs, depth) && Shrunk(devs, now) && k < |s| && Distinct(s)
    requires Walking(now, front, s[k..], outside, depth) && FrontOk(devs, s, outside, k, now, front, depth)
    ensures s[k] in now
    ensures d in FrontAfter(now, front, s[k], depth) <==>
              d in s[..k + 1] && d in Unref(now, s[k])
              && forall j :: 0 <= j < k + 1 ==> !TakenAt(devs, s, outside, j, d, depth)
  {
    hide TakenAt, FrontAfter, Counted, Ancestor;
    var x := s[k];
    assert s[k..][0] == x && s[..k + 1] == s[..k] + [x];
    TurnFrees(now, front, s[k..], outside, d, depth);
    TurnKeeps(now, front, s[k..], outside, d, depth);
    if d == x {
      NotTakenYet(devs, s, outside, k, depth);
    } else if d in s[..k] {
      HeldLive(now, front, s[k..], outside, depth);
      TakenShrunk(devs, now, s, outside, k, d, depth);
      CountedHere(now, front, s[k..], outside, depth);
      TurnTakes(now, s, outside, k, d, depth);
    }
  }

  lemma CountedHere(now: Devices, front: seq<Dev>, rest: seq<Dev>, outside: multiset<Dev>, depth: Dev -> nat)
    requires Walking(now, front, rest, outside, depth)
    ensures Counted(now, outside + multiset(rest)) && Forest(now, depth)
  {
  }

  lemma HeldLive(now: Devices, front: seq<Dev>, rest: seq<Dev>, outside: multiset<Dev>, depth: Dev -> nat)
    requires Walking(now, front, rest, outside, depth)
    ensures forall e :: e in outside || e in rest ==> e in now
  {
    assert forall e :: e in outside || e in rest ==> e in outside + multiset(rest);
  }

  /** A device is not taken off before its own turn, nor at it. */
  lemma NotTakenYet(devs: Devices, s: seq<Dev>, outside: multiset<Dev>, k: nat, depth: Dev -> nat)
    requires Forest(devs, depth) && k < |s| && Distinct(s)
    ensures s[k] !in s[..k] && forall j :: 0 <= j < k + 1 ==> !TakenAt(devs, s, outside, j, s[k], depth)
  {
  }

  /** A turn keeps this. */
  lemma FrontStep(devs: Devices, s: seq<Dev>, outside: multiset<Dev>, k: nat, now: Devices, front: seq<Dev>,
                  depth: Dev -> nat)
    requires Forest(devs, depth) && Shrunk(devs, now) && k < |s| && Distinct(s)
    requires Walking(now, front, s[k..], outside, depth) && FrontOk(devs, s, outside, k, now, front, depth)
    ensures s[k] in now
    ensures FrontOk(devs, s, outside, k + 1, Unref(now, s[k]), FrontAfter(now, front, s[k], depth), depth)
  {
    hide Walking, TakenAt, FrontAfter, Distinct, Shrunk;
    CountedHere(now, front, s[k..], outside, depth);
    FrontStepFor(devs, s, outside, k, now, front, s[k], depth);
    forall d
      ensures d in FrontAfter(now, front, s[k], depth) <==>
                d in s[..k + 1] && d in Unref(now, s[k])
                && forall j :: 0 <= j < k + 1 ==> !TakenAt(devs, s, outside, j, d, depth)
    {
      FrontStepFor(devs, s, outside, k, now, front, d, depth);
    }
  }

  /** The start of the walk. */
  lemma WalkStart(devs: Devices, s: seq<Dev>, outside: multiset<Dev>, depth: Dev -> nat)
    requires Counted(devs, outside + multiset(s)) && Forest(devs, depth) && Distinct(s)
    ensures Walking(devs, [], s, outside, depth) && FrontOk(devs, s, outside, 0, devs, [], depth)
    ensures Shrunk(devs, devs)
  {
    hide Counted, Distinct;
    InRest(s, outside);
    assert [] + s == s;
    forall d | d in s ensures d in devs {
      CountedLive(devs, outside + multiset(s), d);
    }
  }

  /** The end of the walk. */
  lemma WalkDone(devs: Devices, s: seq<Dev>, outside: multiset<Dev>, now: Devices, front: seq<Dev>, depth: Dev -> nat)
    requires Forest(devs, depth) && FrontOk(devs, s, outside, |s|, now, front, depth)
    requires Walking(now, front, [], outside, depth)
    ensures Counted(now, outside) && Forest(now, depth) && Distinct(front)
    ensures forall d :: d in front <==> d in s && d in now && !TakenOff(devs, s, outside, d, depth)
  {
    hide TakenAt, Counted, Distinct;
    assert s[..|s|] == s;
    assert outside + multiset([]) == outside;
    assert front + [] == front;
  }

  /** What the queued messages free makes no difference. */
  lemma MessagesApart(devs: Devices, now: Devices, s: seq<Dev>, outside: multiset<Dev>, depth: Dev -> nat)
    requires Forest(devs, depth) && Forest(now, depth) && Shrunk(devs, now)
    requires Counted(now, outside + multiset(s))
    ensures forall d :: TakenOff(devs, s, outside, d, depth) <==> TakenOff(now, s, outside, d, depth)
  {
    hide TakenAt;
    assert forall e :: e in outside || e in s ==> e in outside + multiset(s);
    forall d, j | 0 <= j < |s|
      ensures TakenAt(devs, s, outside, j, d, depth) <==> TakenAt(now, s, outside, j, d, depth)
    {
      TakenShrunk(devs, now, s, outside, j, d, depth);
    }
  }

  // ----- When none is -----

  /** The list has later devices in front, by some rank. */
  ghost predicate Descending(s: seq<Dev>, rank: Dev -> nat) {
    forall i, j :: 0 <= i < j < |s| ==> rank(s[i]) > rank(s[j])
  }

  lemma {:induction false} RankNearer(devs: Devices, e: Dev, d: Dev, depth: Dev -> nat, rank: Dev -> nat)
    requires Forest(devs, depth) && Forest(devs, rank) && Ancestor(devs, e, d, depth)
    ensures rank(d) < rank(e)
    decreases depth(e)
  {
    if devs[e].parent.value != d {
      RankNearer(devs, devs[e].parent.value, d, depth, rank);
    }
  }

  /** With every device behind the devices below it, none is taken off. */
  lemma NoneTaken(devs: Devices, s: seq<Dev>, outside: multiset<Dev>, d: Dev, depth: Dev -> nat, rank: Dev -> nat)
    requires Forest(devs, depth) && Forest(devs, rank) && Descending(s, rank)
    ensures !TakenOff(devs, s, outside, d, depth)
  {
    if TakenOff(devs, s, outside, d, depth) {
      var j :| 0 <= j < |s| && TakenAt(devs, s, outside, j, d, depth);
      var q :| TakenWith(devs, s, outside, j, d, q, depth);
      BelowChild(devs, s[j], q, d, depth);
      RankNearer(devs, s[j], d, depth, rank);
      assert false;
    }
  }

  /** With the parent in front of a child that is held from outside, the parent is taken off
      although it lives. */
  lemma ParentInFront()
    ensures var devs: Devices := map[0 := Device(2, None), 1 := Device(2, Some(0))];
            var depth: Dev -> nat := d => d;
            && Forest(devs, depth) && Counted(devs, multiset{1} + multiset([0, 1]))
            && Ancestor(devs, 1, 0, depth) && TakenOff(devs, [0, 1], multiset{1}, 0, depth)
  {
    var devs: Devices := map[0 := Device(2, None), 1 := Device(2, Some(0))];
    var depth: Dev -> nat := d => d;
    var s: seq<Dev> := [0, 1];
    assert Children(devs, 0) == {1} && Children(devs, 1) == {};
    assert multiset(s) == multiset{0, 1};
    assert s[1..] == [1] && s[..1] == [0];
    assert TakenWith(devs, s, multiset{1}, 1, 0, 1, depth);
    assert TakenAt(devs, s, multiset{1}, 1, 0, depth);
  }
}
