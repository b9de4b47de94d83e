/** The array of file descriptors handed to poll: how it is built from the event sources, and
    what is reported after poll returns. */
module PollFds {
  datatype Source = Source(fd: int, events: int)
  datatype PollFd = PollFd(fd: int, events: int, revents: int)

  /** The entries in which poll raised events. */
  function Raised(s: seq<PollFd>): nat {
    if s == [] then 0 else (if s[0].revents != 0 then 1 else 0) + Raised(s[1..])
  }

  lemma {:induction false} RaisedMore(s: seq<PollFd>, p: PollFd)
    ensures Raised(s + [p]) == Raised(s) + if p.revents != 0 then 1 else 0
  {
    if s == [] {
      assert s + [p] == [p] && [p][1..] == [];
    } else {
      RaisedMore(s[1..], p);
      assert (s + [p])[1..] == s[1..] + [p];
    }
  }

  ghost function RaisedIn(s: seq<PollFd>): set<nat> {
    set n: nat | n < |s| && s[n].revents != 0
  }

  /** num_ready is the number of entries in which poll raised events. */
  lemma {:induction false} RaisedIs(s: seq<PollFd>)
    ensures Raised(s) == |RaisedIn(s)|
  {
    if s != [] {
      var init, last := s[..|s| - 1], s[|s| - 1];
      assert s == init + [last];
      RaisedIs(init);
      RaisedMore(init, last);
      assert RaisedIn(s) == if last.revents != 0 then RaisedIn(init) + {|init|} else RaisedIn(init);
    }
  }

  predicate RaisedAt(s: seq<PollFd>, n: nat, fd: int) {
    n < |s| && s[n].fd == fd && s[n].revents != 0
  }

  /** Those of one descriptor. */
  function RaisedAs(s: seq<PollFd>, fd: int): nat {
    if s == [] then 0 else (if RaisedAt(s, 0, fd) then 1 else 0) + RaisedAs(s[1..], fd)
  }

  function Occurrences(removed: seq<int>, fd: int): nat {
    if removed == [] then 0 else (if removed[0] == fd then 1 else 0) + Occurrences(removed[1..], fd)
  }

  /** Clears the first entry with raised events of the given descriptor, if there is one. */
  function ClearFirst(s: seq<PollFd>, fd: int): (r: seq<PollFd>)
    ensures |r| == |s|
  {
    if s == [] then []
    else if RaisedAt(s, 0, fd) then [s[0].(revents := 0)] + s[1..]
    else [s[0]] + ClearFirst(s[1..], fd)
  }

  /** What is left of the raised events after every removed source cleared one entry. */
  function Silence(s: seq<PollFd>, removed: seq<int>): (r: seq<PollFd>)
    ensures |r| == |s|
    decreases |removed|
  {
    if removed == [] then s else Silence(ClearFirst(s, removed[0]), removed[1..])
  }

  lemma {:induction false} ClearFirstCounts(s: seq<PollFd>, fd: int, x: int)
    ensures RaisedAs(ClearFirst(s, fd), x) == RaisedAs(s, x) - if x == fd && RaisedAs(s, fd) > 0 then 1 else 0
    ensures Raised(ClearFirst(s, fd)) == Raised(s) - if RaisedAs(s, fd) > 0 then 1 else 0
    ensures forall n :: 0 <= n < |s| ==>
              ClearFirst(s, fd)[n].fd == s[n].fd && ClearFirst(s, fd)[n].events == s[n].events
    ensures RaisedAs(s, fd) <= Raised(s)
  {
    if s != [] {
      ClearFirstCounts(s[1..], fd, x);
      var r := ClearFirst(s, fd);
      assert r == [r[0]] + r[1..];
      if RaisedAt(s, 0, fd) {
        assert r[1..] == s[1..];
      } else {
        assert r[1..] == ClearFirst(s[1..], fd);
      }
    }
  }

  lemma {:induction false} SilenceCounts(s: seq<PollFd>, removed: seq<int>, x: int)
    ensures RaisedAs(Silence(s, removed), x)
         == if RaisedAs(s, x) <= Occurrences(removed, x) then 0 else RaisedAs(s, x) - Occurrences(removed, x)
    ensures forall n :: 0 <= n < |s| ==>
              Silence(s, removed)[n].fd == s[n].fd && Silence(s, removed)[n].events == s[n].events
    decreases |removed|
  {
    if removed != [] {
      ClearFirstCounts(s, removed[0], x);
      SilenceCounts(ClearFirst(s, removed[0]), removed[1..], x);
    }
  }

  lemma {:induction false} NoneRaised(s: seq<PollFd>, fd: int)
    ensures RaisedAs(s, fd) == 0 <==> forall n: nat :: !RaisedAt(s, n, fd)
  {
    if s != [] {
      NoneRaised(s[1..], fd);
      if RaisedAs(s, fd) == 0 {
        forall n: nat | n < |s| ensures !RaisedAt(s, n, fd) {
          if n > 0 {
            assert !RaisedAt(s[1..], n - 1, fd);
          }
        }
      } else if !RaisedAt(s, 0, fd) {
        var n: nat :| RaisedAt(s[1..], n, fd);
        assert RaisedAt(s, n + 1, fd);
      }
    }
  }

  lemma {:induction false} OccursMeans(removed: seq<int>, fd: int)
    ensures Occurrences(removed, fd) > 0 <==> fd in removed
  {
    if removed != [] {
      OccursMeans(removed[1..], fd);
      assert removed == [removed[0]] + removed[1..];
    }
  }

  ghost predicate NoneReported(s: seq<PollFd>, removed: seq<int>) {
    forall n: nat, fd :: fd in removed ==> !RaisedAt(Silence(s, removed), n, fd)
  }

  /** No raised event of a removed source is left, exactly if no removed descriptor has more
      raised entries than it has removals. */
  lemma NoRemovedSourceReported(s: seq<PollFd>, removed: seq<int>)
    ensures NoneReported(s, removed) <==> forall fd :: fd in removed ==> RaisedAs(s, fd) <= Occurrences(removed, fd)
  {
    forall fd | fd in removed
      ensures (forall n: nat :: !RaisedAt(Silence(s, removed), n, fd)) <==> RaisedAs(s, fd) <= Occurrences(removed, fd)
    {
      SilenceCounts(s, removed, fd);
      NoneRaised(Silence(s, removed), fd);
    }
  }

  /** How many entries of the array are for one descriptor, whatever poll answers. */
  function Entries(s: seq<PollFd>, fd: int): nat {
    if s == [] then 0 else (if s[0].fd == fd then 1 else 0) + Entries(s[1..], fd)
  }

  /** The array s after poll has written an answer. */
  predicate Answered(s: seq<PollFd>, r: seq<PollFd>) {
    |r| == |s| && forall n :: 0 <= n < |s| ==> r[n].fd == s[n].fd && r[n].events == s[n].events
  }

  lemma {:induction false} RaisedAtMost(s: seq<PollFd>, r: seq<PollFd>, fd: int)
    requires Answered(s, r)
    ensures RaisedAs(r, fd) <= Entries(s, fd)
  {
    if s != [] {
      RaisedAtMost(s[1..], r[1..], fd);
    }
  }

  /** The answer that raises an event everywhere. */
  function AllRaised(s: seq<PollFd>): (r: seq<PollFd>)
    ensures Answered(s, r)
  {
    if s == [] then [] else [s[0].(revents := 1)] + AllRaised(s[1..])
  }

  lemma {:induction false} AllRaisedCounts(s: seq<PollFd>, fd: int)
    ensures RaisedAs(AllRaised(s), fd) == Entries(s, fd)
  {
    if s != [] {
      AllRaisedCounts(s[1..], fd);
      assert AllRaised(s)[1..] == AllRaised(s[1..]);
    }
  }

  /** Whatever poll answers, no removed source is reported, exactly if no removed descriptor
      is in the array more often than it was removed. */
  lemma NoneReportedWhateverPollSays(s: seq<PollFd>, removed: seq<int>)
    ensures (forall r :: Answered(s, r) ==> NoneReported(r, removed))
            <==> forall fd :: fd in removed ==> Entries(s, fd) <= Occurrences(removed, fd)
  {
    if forall fd :: fd in removed ==> Entries(s, fd) <= Occurrences(removed, fd) {
      forall r | Answered(s, r) ensures NoneReported(r, removed) {
        forall fd | fd in removed ensures RaisedAs(r, fd) <= Occurrences(removed, fd) {
          RaisedAtMost(s, r, fd);
        }
        NoRemovedSourceReported(r, removed);
      }
    }
    if forall r :: Answered(s, r) ==> NoneReported(r, removed) {
      assert NoneReported(AllRaised(s), removed);
      NoRemovedSourceReported(AllRaised(s), removed);
      forall fd | fd in removed ensures Entries(s, fd) <= Occurrences(removed, fd) {
        AllRaisedCounts(s, fd);
      }
    }
  }

  predicate DistinctFds(s: seq<PollFd>) {
    forall i, j :: 0 <= i < j < |s| ==> s[i].fd != s[j].fd
  }

  lemma {:induction false} DistinctRaisedOnce(s: seq<PollFd>, fd: int)
    requires DistinctFds(s)
    ensures RaisedAs(s, fd) <= 1
  {
    if s != [] {
      DistinctRaisedOnce(s[1..], fd);
      if RaisedAt(s, 0, fd) {
        NoneRaised(s[1..], fd);
        forall n: nat ensures !RaisedAt(s[1..], n, fd) {
          if n < |s[1..]| {
            assert s[1..][n] == s[n + 1];
          }
        }
      }
    }
  }

  /** So with every descriptor registered once, none is reported that was removed. */
  lemma DistinctNoneRemoved(s: seq<PollFd>, removed: seq<int>)
    requires DistinctFds(s)
    ensures NoneReported(s, removed)
  {
    forall fd | fd in removed ensures RaisedAs(s, fd) <= Occurrences(removed, fd) {
      DistinctRaisedOnce(s, fd);
      OccursMeans(removed, fd);
    }
    NoRemovedSourceReported(s, removed);
  }

  /** Events of sources that were not removed are all reported. */
  lemma OthersStillReported(s: seq<PollFd>, removed: seq<int>, fd: int)
    requires fd !in removed
    ensures RaisedAs(Silence(s, removed), fd) == RaisedAs(s, fd)
  {
    SilenceCounts(s, removed, fd);
    OccursMeans(removed, fd);
  }

  /** A descriptor registered twice and removed once may still be reported. */
  lemma RegisteredTwice()
    ensures var s := [PollFd(7, 4, 4), PollFd(7, 4, 4)];
            RaisedAt(Silence(s, [7]), 1, 7)
  {
    var s := [PollFd(7, 4, 4), PollFd(7, 4, 4)];
    assert ClearFirst(s, 7) == [PollFd(7, 4, 0), PollFd(7, 4, 4)];
    assert Silence(s, [7]) == ClearFirst(s, 7);
  }

  // ----- The loops -----

  lemma {:induction false} ClearFirstAt(s: seq<PollFd>, fd: int, n: nat)
    requires forall m: nat :: m < n ==> !RaisedAt(s, m, fd)
    requires RaisedAt(s, n, fd)
    ensures ClearFirst(s, fd) == s[n := s[n].(revents := 0)] && RaisedAs(s, fd) > 0
  {
    if n > 0 {
      assert !RaisedAt(s, 0, fd);
      forall m: nat | m < n - 1 ensures !RaisedAt(s[1..], m, fd) {
        assert !RaisedAt(s, m + 1, fd);
      }
      ClearFirstAt(s[1..], fd, n - 1);
    }
  }

  lemma {:induction false} ClearFirstNone(s: seq<PollFd>, fd: int)
    requires RaisedAs(s, fd) == 0
    ensures ClearFirst(s, fd) == s
  {
    if s != [] {
      ClearFirstNone(s[1..], fd);
    }
  }

  datatype PollOutcome = TimedOut | Interrupted | Failed | Ready
  datatype WaitResult = Success | Timeout | InterruptedError | IoError

  class Context {
    var eventSources: seq<Source>
    var removedSources: seq<int>
    var sourcesModified: bool
    var fds: array?<PollFd>
    var fdsCount: nat

    constructor ()
      ensures eventSources == [] && removedSources == [] && fds == null
    {
      eventSources, removedSources, sourcesModified, fds, fdsCount := [], [], false, null, 0;
    }

    /** usbi_alloc_event_data; allocOk says whether calloc succeeds. */
    method AllocEventData(allocOk: bool) returns (ok: bool)
      modifies `fds, `fdsCount
      ensures ok <==> allocOk
      ensures fdsCount == |eventSources|
      ensures !ok ==> fds == null
      ensures ok ==> fresh(fds) && fds.Length == |eventSources|
      ensures ok ==> forall i :: 0 <= i < |eventSources| ==>
                fds[i] == PollFd(eventSources[i].fd, eventSources[i].events, 0)
    {
      fds := null;
      var count := 0;
      while count < |eventSources|
        invariant 0 <= count <= |eventSources|
      {
        count := count + 1;
      }
      fdsCount := count;
      if !allocOk {
        return false;
      }
      var a := new PollFd[count](_ => PollFd(0, 0, 0));
      var i := 0;
      while i < |eventSources|
        invariant 0 <= i <= |eventSources|
        invariant forall k :: 0 <= k < i ==> a[k] == PollFd(eventSources[k].fd, eventSources[k].events, 0)
        modifies a
      {
        a[i] := PollFd(eventSources[i].fd, eventSources[i].events, 0);
        i := i + 1;
      }
      fds := a;
      return true;
    }

    /** The inner loop over the descriptors of the backend, for one removed source. */
    method ClearOne(a: array<PollFd>, fd: int) returns (cleared: bool)
      requires a.Length > 0
      modifies a
      ensures a[0] == old(a[0]) && a[1..] == ClearFirst(old(a[1..]), fd)
      ensures cleared <==> RaisedAs(old(a[1..]), fd) > 0
    {
      ghost var s := a[1..];
      var n := 0;
      while n < a.Length - 1
        invariant 0 <= n <= a.Length - 1 && a[1..] == s && a[0] == old(a[0])
        invariant forall m: nat :: m < n ==> !RaisedAt(s, m, fd)
      {
        if a[n + 1].fd == fd {
          if a[n + 1].revents != 0 {
            assert s[n] == a[n + 1];
            ClearFirstAt(s, fd, n);
            a[n + 1] := a[n + 1].(revents := 0);
            assert a[1..] == s[n := s[n].(revents := 0)];
            return true;
          }
        }
        assert s[n] == a[n + 1];
        n := n + 1;
      }
      NoneRaised(s, fd);
      ClearFirstNone(s, fd);
      return false;
    }

    /** usbi_wait_for_events without an OS timer, after poll has written revents and returned
        their number.  The entries for the backend start at the second. */
    method WaitForEvents(outcome: PollOutcome, numRaised: int)
      returns (r: WaitResult, eventTriggered: bool, numReady: int)
      requires fds != null && fds.Length > 0
      requires outcome == Ready ==> numRaised == Raised(fds[..]) > 0
      modifies fds
      ensures r == match outcome
                   case TimedOut => Timeout
                   case Interrupted => InterruptedError
                   case Failed => IoError
                   case Ready => Success
      ensures r != Success ==> fds[..] == old(fds[..])
      ensures r == Success ==>
                && fds[0] == old(fds[0]) && (eventTriggered <==> fds[0].revents != 0)
                && fds[1..] == (if sourcesModified then Silence(old(fds[1..]), removedSources) else old(fds[1..]))
                && numReady == Raised(fds[1..])
      ensures r == Success && sourcesModified && DistinctFds(old(fds[1..])) ==>
                forall n: nat, fd :: fd in removedSources ==> !RaisedAt(fds[1..], n, fd)
    {
      if DistinctFds(fds[1..]) {
        DistinctNoneRemoved(fds[1..], removedSources);
      }
      eventTriggered, numReady := false, 0;
      match outcome {
        case TimedOut => return Timeout, false, 0;
        case Interrupted => return InterruptedError, false, 0;
        case Failed => return IoError, false, 0;
        case Ready =>
      }
      numReady := numRaised;
      assert fds[..][1..] == fds[1..];
      if fds[0].revents != 0 {
        eventTriggered := true;
        numReady := numReady - 1;
      } else {
        eventTriggered := false;
      }
      if numReady == 0 {
        QuietStays(fds[1..], removedSources);
        return Success, eventTriggered, numReady;
      }
      if sourcesModified {
        numReady := ClearRemoved(fds, numReady);
      }
      return Success, eventTriggered, numReady;
    }

    /** The loop over the removed sources. */
    method ClearRemoved(a: array<PollFd>, ready: int) returns (numReady: int)
      requires a.Length > 0 && ready == Raised(a[1..])
      modifies a
      ensures a[0] == old(a[0]) && a[1..] == Silence(old(a[1..]), removedSources) && numReady == Raised(a[1..])
    {
      numReady := ready;
      ghost var s := a[1..];
      var i := 0;
      while i < |removedSources|
        invariant 0 <= i <= |removedSources|
        invariant a[0] == old(a[0]) && Silence(a[1..], removedSources[i..]) == Silence(s, removedSources)
        invariant numReady == Raised(a[1..])
      {
        ClearFirstCounts(a[1..], removedSources[i], 0);
        assert removedSources[i..][1..] == removedSources[i + 1..];
        var cleared := ClearOne(a, removedSources[i]);
        if cleared {
          numReady := numReady - 1;
        }
        i := i + 1;
      }
    }
  }

  lemma {:induction false} QuietStays(s: seq<PollFd>, removed: seq<int>)
    requires Raised(s) == 0
    ensures Silence(s, removed) == s
    decreases |removed|
  {
    if removed != [] {
      ClearFirstCounts(s, removed[0], 0);
      ClearFirstNone(s, removed[0]);
      QuietStays(s, removed[1..]);
    }
  }
}
