/** Deadlines of transfers, the list of transfers in flight sorted by them, and how long the
    event loop sleeps. */
module Timeouts {
  import opened Integers

  const NSEC_PER_SEC: nat := 1_000_000_000

  datatype Timespec = Timespec(sec: nat, nsec: int)
  datatype Timeval = Timeval(sec: nat, usec: nat)

  /** The nanoseconds a time stands for. */
  function Nanos(t: Timespec): int {
    t.sec * NSEC_PER_SEC + t.nsec
  }

  predicate Normalized(t: Timespec) {
    0 <= t.nsec < NSEC_PER_SEC
  }

  /** TIMESPEC_IS_SET; a deadline that is not set is infinite. */
  predicate IsSet(t: Timespec) {
    t.sec != 0 || t.nsec != 0
  }

  /** TIMESPEC_CMP(a, b, >) */
  predicate Later(a: Timespec, b: Timespec) {
    if a.sec == b.sec then a.nsec > b.nsec else a.sec > b.sec
  }

  lemma LaterMeans(a: Timespec, b: Timespec)
    requires Normalized(a) && Normalized(b)
    ensures Later(a, b) <==> Nanos(a) > Nanos(b)
    ensures IsSet(a) <==> Nanos(a) != 0
  {
  }

  /** A transfer in flight.  handled says that its timeout was dealt with, timedOut that this
      cancelled it. */
  datatype Transfer = Transfer(id: nat, timeout: Timespec, handled: bool, osHandles: bool, timedOut: bool)

  /** a's deadline is not after b's, infinite ones being last. */
  predicate NotAfter(a: Transfer, b: Transfer) {
    !IsSet(b.timeout) || (IsSet(a.timeout) && Nanos(a.timeout) <= Nanos(b.timeout))
  }

  predicate Sorted(s: seq<Transfer>) {
    && (forall i :: 0 <= i < |s| ==> Normalized(s[i].timeout))
    && forall i, j :: 0 <= i < j < |s| ==> NotAfter(s[i], s[j])
  }

  predicate NoDuplicates(s: seq<Transfer>) {
    forall i, j :: 0 <= i < j < |s| ==> s[i].id != s[j].id
  }

  /** The timeout of t has run out and nobody has dealt with it. */
  predicate Overdue(t: Transfer, now: Timespec) {
    IsSet(t.timeout) && !t.handled && !t.osHandles && Nanos(t.timeout) <= Nanos(now)
  }

  /** t has a deadline that still has to be dealt with. */
  predicate Waiting(t: Transfer) {
    IsSet(t.timeout) && !t.handled && !t.osHandles
  }

  function HandleOne(t: Transfer, cancelled: bool): Transfer {
    t.(handled := true, timedOut := t.timedOut || cancelled)
  }

  /** x put into s at position i. */
  function Put(s: seq<Transfer>, i: nat, x: Transfer): seq<Transfer>
    requires i <= |s|
  {
    s[..i] + [x] + s[i..]
  }

  lemma PutSorted(s: seq<Transfer>, i: nat, x: Transfer)
    requires Sorted(s) && i <= |s| && Normalized(x.timeout)
    requires forall k :: 0 <= k < i ==> NotAfter(s[k], x)
    requires forall k :: i <= k < |s| ==> NotAfter(x, s[k])
    ensures Sorted(Put(s, i, x))
  {
    var r := Put(s, i, x);
    forall k | 0 <= k < |r| ensures r[k] == if k < i then s[k] else if k == i then x else s[k - 1] {
    }
  }

  lemma PutNew(s: seq<Transfer>, i: nat, x: Transfer)
    requires NoDuplicates(s) && i <= |s| && forall k :: 0 <= k < |s| ==> s[k].id != x.id
    ensures NoDuplicates(Put(s, i, x))
  {
    var r := Put(s, i, x);
    forall k | 0 <= k < |r| ensures r[k] == if k < i then s[k] else if k == i then x else s[k - 1] {
    }
  }

  /** calculate_timeout: exactly the given number of milliseconds from now, normalized, and
      never mistaken for an infinite deadline.  The intermediate nanoseconds fit 32 bits. */
  method CalculateTimeout(timeout: nat, now: Timespec) returns (t: Timespec)
    requires Normalized(now)
    ensures Normalized(t)
    ensures timeout == 0 ==> !IsSet(t)
    ensures timeout > 0 ==> IsSet(t) && Nanos(t) == Nanos(now) + timeout * 1_000_000
  {
    if timeout == 0 {
      return Timespec(0, 0);
    }
    t := now;
    t := t.(sec := t.sec + timeout / 1000);
    t := t.(nsec := t.nsec + timeout % 1000 * 1_000_000);
    assert t.nsec < INT_LIMIT;
    if t.nsec >= NSEC_PER_SEC {
      t := t.(sec := t.sec + 1);
      t := t.(nsec := t.nsec - NSEC_PER_SEC);
    }
  }

  /** The transfers in flight of a context. */
  class FlyingTransfers {
    var flying: seq<Transfer>

    ghost predicate Valid()
      reads this
    {
      Sorted(flying) && NoDuplicates(flying)
    }

    constructor ()
      ensures Valid() && flying == []
    {
      flying := [];
    }

    /** add_to_flying_list: behind every transfer that is not to time out later. */
    method Add(id: nat, timeoutMs: nat, osHandles: bool, now: Timespec) returns (ghost at: nat)
      requires Valid() && Normalized(now) && forall k :: 0 <= k < |flying| ==> flying[k].id != id
      modifies this
      ensures Valid()
      ensures at <= |old(flying)| && |flying| == |old(flying)| + 1 && flying == Put(old(flying), at, flying[at])
      ensures flying[at].id == id && !flying[at].handled && !flying[at].timedOut && flying[at].osHandles == osHandles
      ensures if timeoutMs == 0 then !IsSet(flying[at].timeout)
              else IsSet(flying[at].timeout) && Nanos(flying[at].timeout) == Nanos(now) + timeoutMs * 1_000_000
      ensures forall k :: at < k < |flying| ==> !NotAfter(flying[k], flying[at])
    {
      var timeout := CalculateTimeout(timeoutMs, now);
      var x := Transfer(id, timeout, false, osHandles, false);
      var i := 0;
      if |flying| > 0 && !IsSet(timeout) {
        i := |flying|;
      } else {
        while i < |flying|
          invariant 0 <= i <= |flying| && flying == old(flying)
          invariant forall k :: 0 <= k < i ==> NotAfter(flying[k], x)
        {
          LaterMeans(flying[i].timeout, timeout);
          if !IsSet(flying[i].timeout) || Later(flying[i].timeout, timeout) {
            break;
          }
          i := i + 1;
        }
      }
      at := i;
      AllAfter(flying, i, x);
      PutSorted(flying, i, x);
      PutNew(flying, i, x);
      flying := flying[..i] + [x] + flying[i..];
    }

    /** remove_from_flying_list */
    method Remove(i: nat)
      requires Valid() && i < |flying|
      modifies this
      ensures Valid() && flying == old(flying[..i] + flying[i + 1..])
    {
      ghost var before := flying;
      flying := flying[..i] + flying[i + 1..];
      forall k | 0 <= k < |flying| ensures flying[k] == before[if k < i then k else k + 1] {
      }
    }

    /** handle_timeout: cancelled says whether libusb_cancel_transfer succeeds. */
    method HandleTimeout(i: nat, cancelled: bool) returns (id: nat)
      requires i < |flying|
      modifies this
      ensures flying == old(flying)[i := HandleOne(old(flying)[i], cancelled)] && id == old(flying)[i].id
    {
      id := flying[i].id;
      flying := flying[i := flying[i].(handled := true)];
      if cancelled {
        flying := flying[i := flying[i].(timedOut := true)];
      }
    }

    /** handle_timeouts_locked: cancelled says for which transfers libusb_cancel_transfer
        succeeds.  In spite of the early returns, exactly the overdue transfers are handled. */
    method HandleTimeouts(now: Timespec, cancelled: nat -> bool) returns (calls: seq<nat>)
      requires Valid() && Normalized(now)
      modifies this
      ensures Valid() && |flying| == |old(flying)|
      ensures forall k :: 0 <= k < |flying| ==>
                flying[k] == if Overdue(old(flying)[k], now)
                             then HandleOne(old(flying)[k], cancelled(old(flying)[k].id))
                             else old(flying)[k]
      ensures calls == OverdueIds(old(flying), now)
    {
      hide Sorted, NoDuplicates, Nanos, Later, OverdueIds, HandleOne;
      calls := [];
      OverdueNone(flying, now);
      if |flying| == 0 {
        return;
      }
      ghost var before := flying;
      var i := 0;
      while i < |flying|
        invariant 0 <= i <= |flying| == |before|
        invariant forall k :: 0 <= k < i ==>
                    flying[k] == if Overdue(before[k], now)
                                   then HandleOne(before[k], cancelled(before[k].id)) else before[k]
        invariant forall k :: i <= k < |flying| ==> flying[k] == before[k]
        invariant calls == OverdueIds(before[..i], now)
      {
        NormalizedAt(before, i);
        LaterMeans(flying[i].timeout, now);
        OverdueMore(before, i, now);
        if !IsSet(flying[i].timeout) {
          NoneOverdue(before, i, now);
          break;
        }
        if flying[i].handled || flying[i].osHandles {
          i := i + 1;
          continue;
        }
        if Later(flying[i].timeout, now) {
          NoneOverdue(before, i, now);
          break;
        }
        var id := HandleTimeout(i, cancelled(flying[i].id));
        calls := calls + [id];
        i := i + 1;
      }
      assert before[..|before|] == before;
      HandledKeys(before, flying, now, cancelled);
    }

    /** libusb_get_next_timeout without an OS timer: the time left of the earliest deadline
        still to be dealt with; found is false if there is none. */
    method GetNextTimeout(now: Timespec) returns (found: bool, tv: Timeval, ghost at: nat)
      requires Valid() && Normalized(now)
      ensures found <==> exists k :: 0 <= k < |flying| && Waiting(flying[k])
      ensures found ==> at < |flying| && Waiting(flying[at])
      ensures found ==> forall k :: 0 <= k < |flying| && Waiting(flying[k]) ==>
                Nanos(flying[at].timeout) <= Nanos(flying[k].timeout)
      ensures found ==> tv == TimeLeft(flying[at].timeout, now)
    {
      found, tv, at := false, Timeval(0, 0), 0;
      var next := Timespec(0, 0);
      var i := 0;
      while i < |flying|
        invariant 0 <= i <= |flying|
        invariant forall k :: 0 <= k < i ==> !Waiting(flying[k])
        invariant !IsSet(next)
      {
        if flying[i].handled || flying[i].osHandles {
          i := i + 1;
          continue;
        }
        if !IsSet(flying[i].timeout) {
          break;
        }
        next, at := flying[i].timeout, i;
        break;
      }
      if !IsSet(next) {
        return;
      }
      found := true;
      LaterMeans(next, now);
      if !Later(next, now) {
        tv := Timeval(0, 0);
      } else {
        TimeLeftIs(next, now);
        next := SubTimespec(next, now);
        tv := Timeval(next.sec, next.nsec / 1000);
      }
    }
  }

  /** TIMESPEC_SUB */
  function SubTimespec(a: Timespec, b: Timespec): (r: Timespec)
    requires Normalized(a) && Normalized(b) && Later(a, b)
    ensures Normalized(r) && Nanos(r) == Nanos(a) - Nanos(b)
  {
    if a.nsec - b.nsec < 0 then Timespec(a.sec - b.sec - 1, a.nsec - b.nsec + NSEC_PER_SEC)
    else Timespec(a.sec - b.sec, a.nsec - b.nsec)
  }

  /** What is left until a deadline, in whole microseconds; nothing if it has passed. */
  function TimeLeft(deadline: Timespec, now: Timespec): Timeval {
    var micros := if Nanos(deadline) > Nanos(now) then (Nanos(deadline) - Nanos(now)) / 1000 else 0;
    Timeval(micros / 1_000_000, micros % 1_000_000)
  }

  lemma TimeLeftIs(deadline: Timespec, now: Timespec)
    requires Normalized(deadline) && Normalized(now) && Later(deadline, now)
    ensures var r := SubTimespec(deadline, now);
            TimeLeft(deadline, now) == Timeval(r.sec, r.nsec / 1000)
  {
  }

  // ----- How long the event loop sleeps -----

  predicate Shorter(a: Timeval, b: Timeval) {
    if a.sec == b.sec then a.usec < b.usec else a.sec < b.sec
  }

  /** get_next_timeout: nothing if a deadline has passed, and otherwise the shorter of the time
      left and the limit of the caller. */
  datatype Wait = Expired | Sleep(tv: Timeval)

  function NextWait(found: bool, left: Timeval, limit: Timeval): Wait {
    if !found then Sleep(limit)
    else if left.sec == 0 && left.usec == 0 then Expired
    else if Shorter(left, limit) then Sleep(left)
    else Sleep(limit)
  }

  /** The time in whole milliseconds, rounded up. */
  function CeilMs(tv: Timeval): nat {
    tv.sec * 1000 + (tv.usec + 999) / 1000
  }

  function PollMs(tv: Timeval): int {
    ToInt(CeilMs(tv))
  }

  /** The milliseconds handle_events passes to poll, an int at each step: the product, the
      sum, and the sum rounded up, each taken to wrap around.  A negative number waits for ever. */
  method PollTimeout(tv: Timeval) returns (timeoutMs: int)
    ensures timeoutMs == ToInt(CeilMs(tv))
  {
    timeoutMs := ToInt(ToInt(tv.sec * 1000) + tv.usec / 1000);
    ToIntAdd(tv.sec * 1000, tv.usec / 1000);
    ToIntAdd(tv.sec * 1000 + tv.usec / 1000, 1);
    if tv.usec % 1000 != 0 {
      timeoutMs := ToInt(timeoutMs + 1);
    }
  }

  /** When a deadline decides how long to sleep, with r nanoseconds left the sleep lasts at
      least r - 999 and at most r + 999000, exactly if the time left fits an int as
      milliseconds rounded up. */
  lemma SleepIsExact(deadline: Timespec, now: Timespec, limit: Timeval)
    requires Normalized(deadline) && Normalized(now) && Later(deadline, now)
    requires var left := TimeLeft(deadline, now); NextWait(true, left, limit) == Sleep(left)
    ensures var left, r := TimeLeft(deadline, now), Nanos(deadline) - Nanos(now);
            r - 999 <= PollMs(left) * 1_000_000 <= r + 999_000
            <==> left.sec * 1000 + (left.usec + 999) / 1000 <= 0x7fff_ffff
  {
    var left := TimeLeft(deadline, now);
    var r, ms := Nanos(deadline) - Nanos(now), CeilMs(left);
    assert 0 <= r - (left.sec * 1_000_000 + left.usec) * 1000 <= 999;
    assert r - 999 <= ms * 1_000_000 <= r + 999_000;
    ToIntFits(ms);
  }

  /** When the caller's limit decides, the sleep is the limit rounded up to a millisecond,
      under the same condition. */
  lemma LimitIsExact(limit: Timeval)
    ensures var us := limit.sec * 1_000_000 + limit.usec;
            us <= PollMs(limit) * 1000 <= us + 999 <==> limit.sec * 1000 + (limit.usec + 999) / 1000 <= 0x7fff_ffff
  {
    ToIntFits(CeilMs(limit));
  }

  /** Whatever decides, a sleep is never endless and never lasts a millisecond longer than the
      limit, if the limit fits; the default limit is 60 seconds. */
  lemma SleepWithinLimit(found: bool, left: Timeval, limit: Timeval)
    requires left.usec < 1_000_000 && limit.sec * 1000 + (limit.usec + 999) / 1000 <= 0x7fff_ffff
    requires NextWait(found, left, limit).Sleep?
    ensures var ms := PollMs(NextWait(found, left, limit).tv);
            0 <= ms && ms * 1000 <= limit.sec * 1_000_000 + limit.usec + 999
  {
    var tv := NextWait(found, left, limit).tv;
    assert tv.sec * 1_000_000 + tv.usec <= limit.sec * 1_000_000 + limit.usec;
    assert CeilMs(tv) * 1000 <= tv.sec * 1_000_000 + tv.usec + 999;
    ToIntFits(CeilMs(tv));
  }

  function Micros(tv: Timeval): nat {
    tv.sec * 1_000_000 + tv.usec
  }

  /** With a deadline ahead the wait is the smaller of the time left to it and the limit; with
      none left it has expired; without one the limit decides. */
  lemma SmallerDecides(left: Timeval, limit: Timeval)
    requires left.usec < 1_000_000 && limit.usec < 1_000_000
    ensures NextWait(true, left, limit) == Expired <==> Micros(left) == 0
    ensures Micros(left) > 0 ==>
              NextWait(true, left, limit) == Sleep(if Micros(left) < Micros(limit) then left else limit)
    ensures NextWait(false, left, limit) == Sleep(limit)
  {
    if left.sec != limit.sec {
      assert left.sec < limit.sec <==> Micros(left) < Micros(limit);
    }
  }

  /** So a sleep that fits an int ends less than a millisecond after the earliest deadline still
      to be dealt with, and after the limit: found and left are what libusb_get_next_timeout
      says about the transfers in flight. */
  lemma NeverLate(flying: seq<Transfer>, now: Timespec, found: bool, at: nat, left: Timeval, limit: Timeval)
    requires Normalized(now) && limit.usec < 1_000_000
    requires found <==> exists k :: 0 <= k < |flying| && Waiting(flying[k])
    requires found ==>
               && at < |flying| && Waiting(flying[at]) && left == TimeLeft(flying[at].timeout, now)
               && forall k :: 0 <= k < |flying| && Waiting(flying[k]) ==>
                    Nanos(flying[at].timeout) <= Nanos(flying[k].timeout)
    requires NextWait(found, left, limit).Sleep?
    requires var tv := NextWait(found, left, limit).tv; tv.sec * 1000 + (tv.usec + 999) / 1000 <= 0x7fff_ffff
    ensures var ms := PollMs(NextWait(found, left, limit).tv);
            && 0 <= ms && ms * 1000 < Micros(limit) + 1000
            && forall k :: 0 <= k < |flying| && Waiting(flying[k]) ==>
                 ms * 1_000_000 < Nanos(flying[k].timeout) - Nanos(now) + 1_000_000
  {
    var tv := NextWait(found, left, limit).tv;
    ToIntFits(CeilMs(tv));
    assert CeilMs(tv) * 1000 <= Micros(tv) + 999;
    if found {
      SmallerDecides(left, limit);
      TimeLeftBelow(flying[at].timeout, now);
    }
  }

  lemma TimeLeftBelow(deadline: Timespec, now: Timespec)
    ensures TimeLeft(deadline, now).usec < 1_000_000
    ensures Micros(TimeLeft(deadline, now)) > 0 ==>
              Micros(TimeLeft(deadline, now)) * 1000 <= Nanos(deadline) - Nanos(now)
  {
  }

  /** The first wait beyond is without end, and a longer one may be far too short. */
  lemma LongTimeoutWaitsForever()
    ensures PollMs(Timeval(2_147_483, 647_000)) == 0x7fff_ffff
    ensures PollMs(Timeval(2_147_483, 647_001)) < 0
    ensures PollMs(Timeval(4_294_968, 0)) == 704
    ensures var now, deadline := Timespec(5, 0), Timespec(2_147_488, 700_000_000);
            var left := TimeLeft(deadline, now);
            NextWait(true, left, Timeval(3_000_000, 0)) == Sleep(left) && PollMs(left) < 0
  {
    assert CeilMs(Timeval(4_294_968, 0)) == 4_294_968_000;
    assert ToInt(4_294_968_000) == 704;
    assert ToInt(2_147_483_648) < 0;
    assert CeilMs(Timeval(2_147_483, 700_000)) == 2_147_483_700;
    assert ToInt(2_147_483_700) < 0;
    assert 2_147_483_700_000_000 / 1000 == 2_147_483_700_000;
    assert TimeLeft(Timespec(2_147_488, 700_000_000), Timespec(5, 0)) == Timeval(2_147_483, 700_000);
  }

  /** A deadline less than a microsecond away counts as passed, and then nothing sleeps. */
  lemma ExpiredMeans(deadline: Timespec, now: Timespec, limit: Timeval)
    requires Normalized(deadline) && Normalized(now)
    ensures NextWait(true, TimeLeft(deadline, now), limit) == Expired <==> Nanos(deadline) - Nanos(now) < 1000
  {
    var left := TimeLeft(deadline, now);
    var micros := if Nanos(deadline) > Nanos(now) then (Nanos(deadline) - Nanos(now)) / 1000 else 0;
    assert micros == left.sec * 1_000_000 + left.usec;
  }

  /** The ids of the overdue transfers, in order. */
  function OverdueIds(s: seq<Transfer>, now: Timespec): seq<nat> {
    if s == [] then []
    else OverdueIds(s[..|s| - 1], now) + if Overdue(s[|s| - 1], now) then [s[|s| - 1].id] else []
  }

  /** Everything from position i of a sorted list on times out after x, if i is the first that
      does. */
  lemma AllAfter(s: seq<Transfer>, i: nat, x: Transfer)
    requires Sorted(s) && i <= |s| && Normalized(x.timeout)
    requires i < |s| ==> IsSet(x.timeout) && (!IsSet(s[i].timeout) || Nanos(s[i].timeout) > Nanos(x.timeout))
    ensures forall k :: i <= k < |s| ==> NotAfter(x, s[k]) && !NotAfter(s[k], x)
  {
  }

  /** From a deadline that has not passed, or an infinite one, on nothing is overdue. */
  lemma {:induction false} NoneOverdue(s: seq<Transfer>, i: nat, now: Timespec)
    requires Sorted(s) && i < |s| && (!IsSet(s[i].timeout) || Nanos(s[i].timeout) > Nanos(now))
    ensures forall k :: i <= k < |s| ==> !Overdue(s[k], now)
    ensures OverdueIds(s, now) == OverdueIds(s[..i], now)
  {
    forall k | i <= k < |s| ensures !Overdue(s[k], now) {
      assert k > i ==> NotAfter(s[i], s[k]);
    }
    OverdueTail(s, i, now);
  }

  lemma {:induction false} OverdueTail(s: seq<Transfer>, i: nat, now: Timespec)
    requires i <= |s| && forall k :: i <= k < |s| ==> !Overdue(s[k], now)
    ensures OverdueIds(s, now) == OverdueIds(s[..i], now)
  {
    if i == |s| {
      assert s[..i] == s;
    } else {
      OverdueTail(s[..|s| - 1], i, now);
      assert s[..|s| - 1][..i] == s[..i];
    }
  }

  lemma OverdueNone(s: seq<Transfer>, now: Timespec)
    ensures OverdueIds(s[..0], now) == [] && (s == [] ==> OverdueIds(s, now) == [])
  {
  }

  lemma OverdueMore(s: seq<Transfer>, i: nat, now: Timespec)
    requires i < |s|
    ensures OverdueIds(s[..i + 1], now) == OverdueIds(s[..i], now) + if Overdue(s[i], now) then [s[i].id] else []
  {
    assert s[..i + 1][..i] == s[..i];
  }

  lemma NormalizedAt(s: seq<Transfer>, i: nat)
    requires Sorted(s) && i < |s|
    ensures Normalized(s[i].timeout)
  {
  }

  /** Handling timeouts changes neither the deadlines nor who is on the list. */
  lemma HandledKeys(s: seq<Transfer>, r: seq<Transfer>, now: Timespec, cancelled: nat -> bool)
    requires Sorted(s) && NoDuplicates(s) && |r| == |s|
    requires forall k :: 0 <= k < |s| ==>
               r[k] == if Overdue(s[k], now) then HandleOne(s[k], cancelled(s[k].id)) else s[k]
    ensures Sorted(r) && NoDuplicates(r)
  {
    hide Overdue, Sorted, NoDuplicates;
    SameKeys(s, r);
  }

  lemma SameKeys(s: seq<Transfer>, r: seq<Transfer>)
    requires Sorted(s) && NoDuplicates(s) && |r| == |s|
    requires forall k :: 0 <= k < |s| ==> r[k].timeout == s[k].timeout && r[k].id == s[k].id
    ensures Sorted(r) && NoDuplicates(r)
  {
  }
}
