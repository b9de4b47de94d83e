/** What a bulk or interrupt transfer reports, in terms of what the kernel and the user did. */
module BulkReports {
  import opened BulkAccounts
  import opened BulkSplit
  import opened Sequences

  // ----- What happened -----

  /** Event q is a request that came back with an error of the bus in normal mode. */
  ghost predicate BusFails(ms: seq<Books>, es: seq<BooksEvent>, q: nat)
    requires q < |es| < |ms|
  {
    es[q].Reaps? && es[q].st == BusError && ms[q].action == NORMAL
  }

  /** Event q is a cancel that takes effect: the kernel holds requests, every one was discarded
      or had come back already, the last one was discarded, and unless this is an interrupt
      transfer the bus has not failed before. */
  ghost predicate CancelTakes(setup: Setup, ms: seq<Books>, es: seq<BooksEvent>, q: nat)
    requires q < |es| < |ms|
  {
    && es[q].Cancels? && ms[q].Held() != {}
    && (forall k :: 0 <= k < |es[q].answers| ==>
          es[q].answers[k] == Discarded || (es[q].answers[k] == NotThere && k != |es[q].answers| - 1))
    && (setup.isInterrupt || forall p :: 0 <= p < q ==> !BusFails(ms, es, p))
  }

  /** Event q is a request that came back without an error, but with less than it had room for,
      while the kernel held others. */
  ghost predicate ComesShort(setup: Setup, ms: seq<Books>, es: seq<BooksEvent>, q: nat)
    requires q < |es| < |ms|
  {
    && es[q].Reaps? && es[q].i < setup.Count() && es[q].actual < setup.Room(es[q].i)
    && (es[q].st == Success || es[q].st == RemoteIo || es[q].st == Unlinked)
    && |ms[q].Held()| > 1
  }

  /** The statuses of the requests that came back in normal mode. */
  function NormalStatuses(ms: seq<Books>, es: seq<BooksEvent>, k: nat): seq<UrbStatus>
    requires k <= |es| < |ms|
  {
    if k == 0 then []
    else
      NormalStatuses(ms, es, k - 1) +
      if es[k - 1].Reaps? && ms[k - 1].action == NORMAL then [es[k - 1].st] else []
  }

  // Among the first k events there was one of these.

  ghost predicate WasCancelled(setup: Setup, ms: seq<Books>, es: seq<BooksEvent>, k: nat)
    requires k <= |es| < |ms|
  {
    exists q :: 0 <= q < k && CancelTakes(setup, ms, es, q)
  }

  ghost predicate BusFailed(ms: seq<Books>, es: seq<BooksEvent>, k: nat)
    requires k <= |es| < |ms|
  {
    exists q :: 0 <= q < k && BusFails(ms, es, q)
  }

  ghost predicate CameShort(setup: Setup, ms: seq<Books>, es: seq<BooksEvent>, k: nat)
    requires k <= |es| < |ms|
  {
    exists q :: 0 <= q < k && ComesShort(setup, ms, es, q)
  }

  lemma OneMore(setup: Setup, ms: seq<Books>, es: seq<BooksEvent>, k: nat)
    requires k < |es| < |ms|
    ensures WasCancelled(setup, ms, es, k + 1) <==> WasCancelled(setup, ms, es, k) || CancelTakes(setup, ms, es, k)
    ensures BusFailed(ms, es, k + 1) <==> BusFailed(ms, es, k) || BusFails(ms, es, k)
    ensures CameShort(setup, ms, es, k + 1) <==> CameShort(setup, ms, es, k) || ComesShort(setup, ms, es, k)
  {
    hide CancelTakes, BusFails, ComesShort;
  }

  // ----- What it makes of the mode -----

  /** The mode after k events. */
  ghost predicate ModeOk(setup: Setup, ms: seq<Books>, es: seq<BooksEvent>, k: nat, errno: SubmitErrno)
    requires k <= |es| < |ms|
  {
    var m, all := ms[k], ms[0].submitted == setup.Count();
    && m.submitted == ms[0].submitted && m.statuses == NormalStatuses(ms, es, k)
    && (!all ==> m.statuses == [])
    && (BusFailed(ms, es, k) ==> BusError in m.statuses)
    && (m.action == CANCELLED <==> WasCancelled(setup, ms, es, k))
    && (m.action == NORMAL ==> all && !CameShort(setup, ms, es, k) && !BusFailed(ms, es, k))
    && (m.action == ERROR ==> all && BusFailed(ms, es, k))
    && (m.action == COMPLETED_EARLY ==>
          !BusFailed(ms, es, k) && if all then CameShort(setup, ms, es, k) else errno == EREMOTEIO)
    && (m.action == SUBMIT_FAILED ==> !all && errno != EREMOTEIO && !BusFailed(ms, es, k))
  }

  lemma ModeStarts(setup: Setup, ms: seq<Books>, es: seq<BooksEvent>, accepted: nat, errno: SubmitErrno)
    requires |ms| > |es| && ms[0] == BooksStarted(setup, accepted, errno) && 0 < accepted <= setup.Count()
    ensures ModeOk(setup, ms, es, 0, errno)
  {
  }

  lemma ModeCancelled(setup: Setup, ms: seq<Books>, es: seq<BooksEvent>, k: nat, errno: SubmitErrno)
    requires IsBooksHistory(setup, ms, es) && k < |es| && es[k].Cancels? && ModeOk(setup, ms, es, k, errno)
    ensures ModeOk(setup, ms, es, k + 1, errno)
  {
    hide BooksOk, WasCancelled, BusFailed, CameShort;
    BooksHistoryOk(setup, ms, es, k);
    HeldCount(setup.Count(), ms[k]);
    DiscardOk(es[k].answers, 0);
    OneMore(setup, ms, es, k);
    NoneFailed(ms, es, k);
    assert ms[k + 1] == BooksCancelled(setup, ms[k], es[k].answers);
  }

  lemma NoneFailed(ms: seq<Books>, es: seq<BooksEvent>, k: nat)
    requires k <= |es| < |ms|
    ensures !BusFailed(ms, es, k) <==> forall p :: 0 <= p < k ==> !BusFails(ms, es, p)
  {
  }

  lemma ModeReaped(setup: Setup, ms: seq<Books>, es: seq<BooksEvent>, k: nat, errno: SubmitErrno)
    requires IsBooksHistory(setup, ms, es) && k < |es| && es[k].Reaps? && ModeOk(setup, ms, es, k, errno)
    ensures ModeOk(setup, ms, es, k + 1, errno)
  {
    hide BooksOk, WasCancelled, BusFailed, CameShort, UrbCount, UrbLength, Outside;
    BooksHistoryOk(setup, ms, es, k);
    LastOut(setup.Count(), ms[k]);
    ReapedOk(setup, ms[k], es[k].i, es[k].st, es[k].actual);
    OneMore(setup, ms, es, k);
    assert ms[k + 1] == BooksReaped(setup, ms[k], es[k].i, es[k].st, es[k].actual);
  }

  /** The last request out is the one with which num_retired comes to the count. */
  lemma LastOut(numUrbs: nat, m: Books)
    requires BooksOk(numUrbs, m)
    ensures m.numRetired + 1 == numUrbs <==> |m.Held()| == 1
    ensures m.live <==> |m.Held()| > 0
    ensures m.submitted == numUrbs || m.action != NORMAL
  {
    HeldCount(numUrbs, m);
  }

  lemma {:induction false} ModeMeans(setup: Setup, ms: seq<Books>, es: seq<BooksEvent>, k: nat,
                                     accepted: nat, errno: SubmitErrno)
    requires IsBooksHistory(setup, ms, es) && k < |ms|
    requires 0 < accepted <= setup.Count() && ms[0] == BooksStarted(setup, accepted, errno)
    ensures ModeOk(setup, ms, es, k, errno)
  {
    hide ModeOk, BooksStarted, BooksReaped, BooksCancelled;
    if k == 0 {
      ModeStarts(setup, ms, es, accepted, errno);
    } else {
      ModeMeans(setup, ms, es, k - 1, accepted, errno);
      match es[k - 1] {
        case NoChange => ModeSame(setup, ms, es, k - 1, errno);
        case Cancels(_) => ModeCancelled(setup, ms, es, k - 1, errno);
        case Reaps(_, _, _) => ModeReaped(setup, ms, es, k - 1, errno);
      }
    }
  }

  lemma ModeSame(setup: Setup, ms: seq<Books>, es: seq<BooksEvent>, k: nat, errno: SubmitErrno)
    requires IsBooksHistory(setup, ms, es) && k < |es| && es[k].NoChange? && ModeOk(setup, ms, es, k, errno)
    ensures ModeOk(setup, ms, es, k + 1, errno)
  {
    hide WasCancelled, BusFailed, CameShort;
    OneMore(setup, ms, es, k);
    assert ms[k + 1] == ms[k];
  }

  // ----- Main results -----

  /** A transfer is in normal mode exactly while every request was accepted and none of these has
      happened: a cancel took effect, the bus failed, or a request came short. */
  lemma NormalMeans(setup: Setup, ms: seq<Books>, es: seq<BooksEvent>, k: nat, accepted: nat, errno: SubmitErrno)
    requires IsBooksHistory(setup, ms, es) && k < |ms|
    requires 0 < accepted <= setup.Count() && ms[0] == BooksStarted(setup, accepted, errno)
    ensures ms[k].action == NORMAL <==>
              && accepted == setup.Count()
              && !WasCancelled(setup, ms, es, k) && !BusFailed(ms, es, k) && !CameShort(setup, ms, es, k)
  {
    ModeMeans(setup, ms, es, k, accepted, errno);
  }

  /** What is reported when the kernel holds none of the requests.  A cancel that took effect is
      reported as such.  Otherwise a lost device comes first, then the first error among the
      requests that came back in normal mode; a request refused is an error unless the kernel
      said that it was not needed. */
  lemma ReportMeans(setup: Setup, ms: seq<Books>, es: seq<BooksEvent>, k: nat, accepted: nat, errno: SubmitErrno)
    requires IsBooksHistory(setup, ms, es) && k < |ms| && ms[k].Held() == {}
    requires 0 < accepted <= setup.Count() && ms[0] == BooksStarted(setup, accepted, errno)
    ensures var statuses := NormalStatuses(ms, es, k);
            var refused := accepted < setup.Count() && errno != EREMOTEIO;
            var one, gone := ms[k].reports, DeviceGone in statuses;
            && |one| == 1
            && (one[0] == Cancellation <==> WasCancelled(setup, ms, es, k))
            && (one[0] != Cancellation ==>
                  && (one[0].status == StNoDevice <==> gone)
                  && (one[0].status == StStall <==> !gone && FirstError(statuses, Pipe))
                  && (one[0].status == StOverflow <==> !gone && FirstError(statuses, Overflow))
                  && (one[0].status == StError <==> refused || (!gone && FirstError(statuses, BusError)))
                  && (one[0].status == StCompleted <==> !refused && NoErrors(statuses)))
  {
    hide WasCancelled, BusFailed, CameShort, FirstError, NoErrors, Verdict;
    ModeMeans(setup, ms, es, k, accepted, errno);
    OneReportAtTheEnd(setup, ms, es, k);
    VerdictMeaning(ms[k].statuses);
    NothingYet();
    if ms[k].action == ERROR {
      BusErrorCounts(ms[k].statuses);
    }
  }

  lemma NothingYet()
    ensures NoErrors([]) && forall st :: !FirstError([], st)
  {
  }

  lemma BusErrorCounts(statuses: seq<UrbStatus>)
    requires BusError in statuses
    ensures !NoErrors(statuses)
  {
  }
}
