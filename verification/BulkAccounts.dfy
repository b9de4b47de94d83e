/** The bookkeeping of a bulk or interrupt transfer in either direction: which requests the
    kernel still holds, when they are freed, and what is reported.  Nothing is assumed about
    the data, the lengths or the order in which requests come back. */
module BulkAccounts {
  import opened BulkSplit
  import opened Sequences

  /** The fields of linux_transfer_priv and transferred; live says that the requests are
      allocated.  Then the environment and the history: how many requests the kernel accepted,
      what it has handed back with which actual lengths, the statuses reaped in normal mode,
      and the reports to the user. */
  datatype Books = Books(
    live: bool,
    numRetired: int,
    action: ReapAction,
    status: Status,
    transferred: nat,
    submitted: nat,
    reaped: seq<nat>,
    lengths: seq<nat>,
    statuses: seq<UrbStatus>,
    reports: seq<Report>)
  {
    /** The requests the kernel holds. */
    ghost function Held(): set<nat> {
      Outside(reaped, submitted)
    }
  }

  lemma SumMore(lengths: seq<nat>, n: nat)
    ensures Sum(lengths + [n]) == Sum(lengths) + n
  {
    assert (lengths + [n])[..|lengths|] == lengths;
  }

  /** num_retired counts the reaped and the never submitted requests; the requests live until
      the kernel holds none of them, and then the one report is out. */
  ghost predicate BooksOk(numUrbs: nat, m: Books) {
    && 0 < m.submitted <= numUrbs
    && Distinct(m.reaped)
    && (forall k :: 0 <= k < |m.reaped| ==> m.reaped[k] < m.submitted)
    && m.numRetired == |m.reaped| + (numUrbs - m.submitted)
    && |m.lengths| == |m.reaped| && m.transferred == Sum(m.lengths)
    && (m.live <==> |m.reaped| < m.submitted)
    && (m.live ==> m.status == Verdict(m.statuses) && m.reports == [])
    && (!m.live ==> m.reports == [FinalReport(m.action, m.statuses)])
    && (m.action == ERROR ==> Verdict(m.statuses) != StCompleted)
    && (m.action == NORMAL ==> m.submitted == numUrbs)
  }

  /** After a successful submission of which the kernel accepted the given number. */
  function BooksStarted(setup: Setup, accepted: nat, errno: SubmitErrno): Books {
    Books(true, setup.Count() - accepted,
          if accepted == setup.Count() then NORMAL else if errno == EREMOTEIO then COMPLETED_EARLY else SUBMIT_FAILED,
          StCompleted, 0, accepted, [], [], [], [])
  }

  /** op_cancel_transfer with the kernel's answers. */
  function BooksCancelled(setup: Setup, m: Books, answers: seq<Answer>): Books {
    if m.live && DiscardResult(answers, 0) == Ok && (setup.isInterrupt || m.action != ERROR)
    then m.(action := CANCELLED)
    else m
  }

  /** handle_bulk_completion for request i: it reports when it has the last request, and on an
      overflow in normal mode. */
  function BooksReaped(setup: Setup, m: Books, i: nat, st: UrbStatus, actual: nat): Books
    requires i < setup.Count()
  {
    var last := m.numRetired + 1 == setup.Count();
    var ends := last || (m.action == NORMAL && st == Overflow);
    var action := NextAction(m.action, st, actual < setup.Room(i), last);
    var status :=
      if last && m.action != NORMAL && m.action != COMPLETED_EARLY && m.status == StCompleted then StError
      else NextStatus(m.action, m.status, st);
    m.(live := m.live && !ends,
       numRetired := m.numRetired + 1,
       action := action,
       status := status,
       transferred := m.transferred + actual,
       reaped := m.reaped + [i],
       lengths := m.lengths + [actual],
       statuses := if m.action == NORMAL then m.statuses + [st] else m.statuses,
       reports := if ends then m.reports + [if action == CANCELLED then Cancellation else Completion(status)]
                  else m.reports)
  }

  /** What the bookkeeping relies on: the kernel hands back a request it holds, and in normal
      mode an overflow only on the last one. */
  predicate MayReturn(m: Books, i: nat, st: UrbStatus) {
    && i < m.submitted && i !in m.reaped
    && (m.action == NORMAL && st == Overflow ==> |m.reaped| + 1 == m.submitted)
  }

  lemma StartedOk(setup: Setup, accepted: nat, errno: SubmitErrno)
    requires 0 < accepted <= setup.Count()
    ensures BooksOk(setup.Count(), BooksStarted(setup, accepted, errno))
  {
  }

  lemma CancelledOk(setup: Setup, m: Books, answers: seq<Answer>)
    requires BooksOk(setup.Count(), m)
    ensures BooksOk(setup.Count(), BooksCancelled(setup, m, answers))
  {
  }

  /** The kernel holds the submitted requests that have not been reaped. */
  lemma HeldCount(numUrbs: nat, m: Books)
    requires BooksOk(numUrbs, m)
    ensures |m.Held()| == m.submitted - |m.reaped|
    ensures m.live <==> m.Held() != {}
    ensures m.numRetired == numUrbs <==> m.Held() == {}
  {
    LeftOver(m.reaped, m.submitted);
  }

  /** A reap keeps the books, whatever the request brought. */
  lemma ReapedOk(setup: Setup, m: Books, i: nat, st: UrbStatus, actual: nat)
    requires BooksOk(setup.Count(), m) && MayReturn(m, i, st)
    ensures m.live && BooksOk(setup.Count(), BooksReaped(setup, m, i, st, actual))
  {
    hide Verdict, Outside, Sum;
    VerdictNext(m.statuses, st);
    DistinctMore(m.reaped, i);
    SumMore(m.lengths, actual);
    StillHeld(m, i);
  }

  lemma StillHeld(m: Books, i: nat)
    requires Distinct(m.reaped) && forall k :: 0 <= k < |m.reaped| ==> m.reaped[k] < m.submitted
    requires i < m.submitted && i !in m.reaped
    ensures |m.reaped| < m.submitted
  {
    LeftOver(m.reaped, m.submitted);
    assert i in Outside(m.reaped, m.submitted);
  }

  /** The condition on overflows is needed: an overflow on any other request frees them all
      while the kernel holds some. */
  lemma OverflowMustBeLast(setup: Setup, m: Books, i: nat, actual: nat)
    requires BooksOk(setup.Count(), m) && m.action == NORMAL && i < m.submitted && i !in m.reaped
    ensures var m' := BooksReaped(setup, m, i, Overflow, actual);
            (!m'.live <==> m'.Held() == {}) <==> |m.reaped| + 1 == m.submitted
  {
    DistinctMore(m.reaped, i);
    LeftOver(m.reaped + [i], m.submitted);
  }

  // ----- Histories -----

  /** What can happen to the books; a write of the kernel, for one, does nothing to them. */
  datatype BooksEvent = NoChange | Cancels(answers: seq<Answer>) | Reaps(i: nat, st: UrbStatus, actual: nat)

  predicate MayHappen(setup: Setup, m: Books, e: BooksEvent) {
    e.Reaps? ==> e.i < setup.Count() && MayReturn(m, e.i, e.st)
  }

  function BooksAfter(setup: Setup, m: Books, e: BooksEvent): Books
    requires MayHappen(setup, m, e)
  {
    match e
    case NoChange => m
    case Cancels(answers) => BooksCancelled(setup, m, answers)
    case Reaps(i, st, actual) => BooksReaped(setup, m, i, st, actual)
  }

  /** A history of one transfer in either direction: submitted with at least one request
      accepted, then cancels and reaps in any order, with any statuses and lengths. */
  ghost predicate IsBooksHistory(setup: Setup, ms: seq<Books>, es: seq<BooksEvent>) {
    && |ms| == |es| + 1
    && (exists accepted: nat, errno ::
          0 < accepted <= setup.Count() && ms[0] == BooksStarted(setup, accepted, errno))
    && forall k {:trigger es[k]} :: 0 <= k < |es| ==>
         MayHappen(setup, ms[k], es[k]) && ms[k + 1] == BooksAfter(setup, ms[k], es[k])
  }

  lemma {:induction false} BooksHistoryOk(setup: Setup, ms: seq<Books>, es: seq<BooksEvent>, k: nat)
    requires IsBooksHistory(setup, ms, es) && k < |ms|
    ensures BooksOk(setup.Count(), ms[k])
  {
    hide BooksOk, BooksReaped, MayReturn;
    if k == 0 {
      var accepted: nat, errno :| 0 < accepted <= setup.Count() && ms[0] == BooksStarted(setup, accepted, errno);
      StartedOk(setup, accepted, errno);
    } else {
      BooksHistoryOk(setup, ms, es, k - 1);
      match es[k - 1] {
        case NoChange =>
        case Cancels(answers) => CancelledOk(setup, ms[k - 1], answers);
        case Reaps(i, st, actual) => ReapedOk(setup, ms[k - 1], i, st, actual);
      }
    }
  }

  // ----- Main results -----

  /** In either direction, num_retired always counts the reaped and the never submitted
      requests.  The requests are freed, and the one report given, exactly when the kernel
      holds none of them; transferred is the sum of the actual lengths. */
  lemma OneReportAtTheEnd(setup: Setup, ms: seq<Books>, es: seq<BooksEvent>, k: nat)
    requires IsBooksHistory(setup, ms, es) && k < |ms|
    ensures ms[k].numRetired == |ms[k].reaped| + (setup.Count() - ms[k].submitted)
    ensures ms[k].live <==> ms[k].Held() != {}
    ensures ms[k].reports == if ms[k].Held() == {} then [FinalReport(ms[k].action, ms[k].statuses)] else []
    ensures ms[k].transferred == Sum(ms[k].lengths)
  {
    BooksHistoryOk(setup, ms, es, k);
    HeldCount(setup.Count(), ms[k]);
  }

  /** In either direction, a transfer is reported as completed exactly if no request reaped
      before anything abnormal happened had an error status, and it was neither cancelled nor
      failed midway. */
  lemma CompletedMeansNoError(setup: Setup, ms: seq<Books>, es: seq<BooksEvent>, k: nat)
    requires IsBooksHistory(setup, ms, es) && k < |ms| && ms[k].Held() == {}
    ensures ms[k].reports == [Completion(StCompleted)] <==>
              NoErrors(ms[k].statuses) && (ms[k].action == NORMAL || ms[k].action == COMPLETED_EARLY)
  {
    BooksHistoryOk(setup, ms, es, k);
    HeldCount(setup.Count(), ms[k]);
    VerdictMeaning(ms[k].statuses);
  }

  // ----- Where surplus bytes go -----

  /** No reaped request brought more than it had room for. */
  ghost predicate WithinRoom(setup: Setup, m: Books) {
    && |m.lengths| == |m.reaped|
    && forall k :: 0 <= k < |m.reaped| ==> m.reaped[k] < setup.Count() && m.lengths[k] <= setup.Room(m.reaped[k])
  }

  /** The room of distinct requests: all but the last are full units. */
  lemma {:induction false} SumBound(setup: Setup, order: seq<nat>, lengths: seq<nat>)
    requires Distinct(order) && |lengths| == |order|
    requires forall k :: 0 <= k < |order| ==> order[k] < setup.Count() && lengths[k] <= setup.Room(order[k])
    ensures setup.Count() - 1 in order ==>
              Sum(lengths) + setup.Unit() <= Offset(setup.Unit(), |order|) + setup.Room(setup.Count() - 1)
    ensures Sum(lengths) <= Offset(setup.Unit(), |order|)
  {
    if order != [] {
      var init, last := order[..|order| - 1], order[|order| - 1];
      assert order == init + [last];
      SumBound(setup, init, lengths[..|order| - 1]);
    }
  }

  lemma {:induction false} OffsetUp(n: nat, a: nat, b: nat)
    requires a <= b
    ensures Offset(n, a) <= Offset(n, b)
  {
    if a < b {
      OffsetUp(n, a, b - 1);
    }
  }

  /** In either direction, in whatever order requests come back, the bytes of a request lie
      inside the buffer, where they are and where they are moved to. */
  lemma MoveStaysInside(setup: Setup, m: Books, i: nat, st: UrbStatus, actual: nat)
    requires BooksOk(setup.Count(), m) && MayReturn(m, i, st)
    requires WithinRoom(setup, m) && i < setup.Count() && actual <= setup.Room(i)
    ensures m.transferred + actual <= setup.length && setup.Start(i) + actual <= setup.length
    ensures WithinRoom(setup, BooksReaped(setup, m, i, st, actual))
  {
    var order, lengths, count := m.reaped + [i], m.lengths + [actual], setup.Count();
    UrbInside(setup.length, setup.Unit(), i);
    DistinctMore(m.reaped, i);
    SumMore(m.lengths, actual);
    LeftOver(order, count);
    SumBound(setup, order, lengths);
    UrbsTile(setup.length, setup.Unit(), count - 1);
    if |order| < count {
      OffsetUp(setup.Unit(), |order|, count - 1);
    } else {
      assert count - 1 !in Outside(order, count);
      assert Offset(setup.Unit(), count) == Offset(setup.Unit(), count - 1) + setup.Unit();
    }
  }

  /** If the kernel never brings more than a request has room for, then at every point of every
      history transferred is within the buffer, and so are both ends of the next move. */
  lemma {:induction false} HistoryStaysInside(setup: Setup, ms: seq<Books>, es: seq<BooksEvent>, k: nat)
    requires IsBooksHistory(setup, ms, es) && k < |ms|
    requires forall p :: 0 <= p < |es| && es[p].Reaps? ==> es[p].actual <= setup.Room(es[p].i)
    ensures WithinRoom(setup, ms[k]) && ms[k].transferred <= setup.length
    ensures k < |es| && es[k].Reaps? ==>
              && ms[k].transferred + es[k].actual <= setup.length
              && setup.Start(es[k].i) + es[k].actual <= setup.length
  {
    hide BooksOk, MayReturn, UrbLength, Offset, Distinct;
    if k > 0 {
      HistoryStaysInside(setup, ms, es, k - 1);
      assert MayHappen(setup, ms[k - 1], es[k - 1]);
      if es[k - 1].Reaps? {
        BooksHistoryOk(setup, ms, es, k - 1);
        MoveStaysInside(setup, ms[k - 1], es[k - 1].i, es[k - 1].st, es[k - 1].actual);
      }
    }
    if k < |es| && es[k].Reaps? {
      assert MayHappen(setup, ms[k], es[k]);
      BooksHistoryOk(setup, ms, es, k);
      MoveStaysInside(setup, ms[k], es[k].i, es[k].st, es[k].actual);
    }
  }
}
