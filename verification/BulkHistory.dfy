/** Whole histories of a bulk IN transfer: what holds after any events the kernel and the
    user may bring about, in any order. */
module BulkHistory {
  import opened BulkAccounts
  import opened BulkSplit
  import opened Sequences
  import opened BulkUrbs

  datatype Event = KernelWrites(j: nat) | UserCancels(answers: seq<Answer>) | KernelReturns(i: nat, st: UrbStatus)

  ghost predicate Possible(job: Job, m: Model, e: Event) {
    && (forall j :: j in m.Held() ==> j < |job.wire|)
    && match e
       case KernelWrites(j) => j in m.Held() && j !in m.delivered && job.Start(j) + |job.wire[j]| <= |m.buffer|
       case UserCancels(answers) => |answers| == job.Count()
       case KernelReturns(i, st) =>
         Returns(job, m, i, st) && i < job.Count() && m.books.transferred + |job.wire[i]| <= |m.buffer|
  }

  function After(job: Job, m: Model, e: Event): Model
    requires Possible(job, m, e)
  {
    match e
    case KernelWrites(j) => Delivered(job, m, j)
    case UserCancels(answers) => AfterCancel(job, m, answers)
    case KernelReturns(i, st) => AfterReap(job, m, i, st)
  }

  /** A history of one transfer: submitted with at least one request accepted, then any
      events the kernel and the user may bring about. */
  ghost predicate IsHistory(job: Job, ms: seq<Model>, es: seq<Event>) {
    && job.Sound()
    && |ms| == |es| + 1
    && (exists accepted: nat, errno ::
          && 0 < accepted <= job.Count() && |ms[0].buffer| == job.setup.length
          && ms[0] == Started(job, ms[0].buffer, accepted, errno))
    && forall k {:trigger es[k]} :: 0 <= k < |es| ==>
         Possible(job, ms[k], es[k]) && ms[k + 1] == After(job, ms[k], es[k])
  }

  /** The data of a request have been written exactly if the kernel did so at some point. */
  lemma {:induction false} DeliveredMeans(job: Job, ms: seq<Model>, es: seq<Event>, k: nat, j: nat)
    requires IsHistory(job, ms, es) && k < |ms|
    ensures j in ms[k].delivered <==> exists q :: 0 <= q < k && es[q] == KernelWrites(j)
  {
    hide Put, BooksStarted, BooksReaped, BooksCancelled, Possible;
    if k > 0 {
      DeliveredMeans(job, ms, es, k - 1, j);
      assert ms[k] == After(job, ms[k - 1], es[k - 1]);
    }
  }

  /** Requests that carry data come back in order: no request still held comes before one
      reaped with data, and the reaped ones with data are in order. */
  ghost predicate DataInOrder(job: Job, m: Model) {
    && (forall k :: 0 <= k < |m.books.reaped| ==> m.books.reaped[k] < |job.wire|)
    && (forall j :: j in m.Held() ==> j < |job.wire|)
    && Behind(job.wire, m.books.reaped, m.Held())
    && Ascending(job.wire, m.books.reaped)
  }

  ghost predicate Ascending(wire: seq<seq<Byte>>, order: seq<nat>)
    requires forall k :: 0 <= k < |order| ==> order[k] < |wire|
  {
    forall a, b :: 0 <= a < b < |order| && wire[order[a]] != [] && wire[order[b]] != [] ==> order[a] < order[b]
  }

  lemma EventKeeps(job: Job, m: Model, e: Event)
    requires Valid(job, m) && DataInOrder(job, m) && Possible(job, m, e)
    ensures Valid(job, After(job, m, e)) && DataInOrder(job, After(job, m, e))
  {
    match e
    case KernelWrites(j) => DeliveredValid(job, m, j);
    case UserCancels(answers) => AfterCancelValid(job, m, answers);
    case KernelReturns(i, st) =>
      AfterReapValid(job, m, i, st);
      AfterReapData(job, m, i, st);
      OrderKeeps(job, m, i, st);
  }

  lemma OrderKeeps(job: Job, m: Model, i: nat, st: UrbStatus)
    requires Valid(job, m) && DataInOrder(job, m) && Returns(job, m, i, st)
    requires m.books.transferred + |job.wire[i]| <= |m.buffer|
    ensures DataInOrder(job, AfterReap(job, m, i, st))
  {
    hide Valid, Ascending, Behind, Put, NextAction, NextStatus;
    assert Outside(m.books.reaped + [i], m.books.submitted) == m.Held() - {i};
    AscendingKeeps(job.wire, m.books.reaped, i, m.Held());
    BehindKeeps(job.wire, m.books.reaped, i, m.Held());
  }

  /** What was reaped with data precedes every held request with data. */
  ghost predicate Behind(wire: seq<seq<Byte>>, order: seq<nat>, held: set<nat>)
    requires forall k :: 0 <= k < |order| ==> order[k] < |wire|
    requires forall j :: j in held ==> j < |wire|
  {
    forall k, j :: 0 <= k < |order| && j in held && j < order[k] ==> wire[order[k]] == [] || wire[j] == []
  }

  lemma AscendingKeeps(wire: seq<seq<Byte>>, order: seq<nat>, i: nat, held: set<nat>)
    requires forall k :: 0 <= k < |order| ==> order[k] < |wire|
    requires forall j :: j in held ==> j < |wire|
    requires Ascending(wire, order) && Behind(wire, order, held) && i in held && i !in order
    ensures Ascending(wire, order + [i])
  {
    var order' := order + [i];
    forall a, b | 0 <= a < b < |order'| && wire[order'[a]] != [] && wire[order'[b]] != []
      ensures order'[a] < order'[b]
    {
      assert order'[a] == order[a] && order[a] in order;
      if b < |order| {
        assert order'[b] == order[b];
      }
    }
  }

  lemma BehindKeeps(wire: seq<seq<Byte>>, order: seq<nat>, i: nat, held: set<nat>)
    requires forall k :: 0 <= k < |order| ==> order[k] < |wire|
    requires forall j :: j in held ==> j < |wire|
    requires Behind(wire, order, held) && i in held
    requires wire[i] == [] || forall j :: j in held && j < i ==> wire[j] == []
    ensures Behind(wire, order + [i], held - {i})
  {
    var order' := order + [i];
    forall k, j | 0 <= k < |order'| && j in held - {i} && j < order'[k]
      ensures wire[order'[k]] == [] || wire[j] == []
    {
      if k < |order| {
        assert order'[k] == order[k];
      }
    }
  }

  lemma {:induction false} HistoryKeeps(job: Job, ms: seq<Model>, es: seq<Event>, k: nat)
    requires IsHistory(job, ms, es) && k < |ms|
    ensures Valid(job, ms[k]) && DataInOrder(job, ms[k])
  {
    if k == 0 {
      var accepted: nat, errno :| 0 < accepted <= job.Count() && ms[0] == Started(job, ms[0].buffer, accepted, errno);
      StartedValid(job, ms[0].buffer, accepted, errno);
    } else {
      HistoryKeeps(job, ms, es, k - 1);
      EventKeeps(job, ms[k - 1], es[k - 1]);
    }
  }

  // ----- Main results -----

  function Total(wire: seq<seq<Byte>>, order: seq<nat>): nat
    requires forall k :: 0 <= k < |order| ==> order[k] < |wire|
  {
    if order == [] then 0
    else Total(wire, order[..|order| - 1]) + |wire[order[|order| - 1]]|
  }

  lemma {:induction false} JoinedTotal(wire: seq<seq<Byte>>, order: seq<nat>)
    requires forall k :: 0 <= k < |order| ==> order[k] < |wire|
    ensures |Joined(wire, order)| == Total(wire, order)
  {
    if order != [] {
      JoinedTotal(wire, order[..|order| - 1]);
    }
  }

  /** At every point the buffer starts with the data of the reaped requests end to end,
      transferred is the sum of their actual lengths, and data the kernel has written for a
      request not yet reaped have not been overwritten. */
  lemma BufferHoldsReapedData(job: Job, ms: seq<Model>, es: seq<Event>, k: nat)
    requires IsHistory(job, ms, es) && k < |ms|
    ensures forall p :: 0 <= p < |ms[k].books.reaped| ==> ms[k].books.reaped[p] < |job.wire|
    ensures ms[k].books.transferred == Total(job.wire, ms[k].books.reaped) <= |ms[k].buffer|
    ensures ms[k].buffer[..ms[k].books.transferred] == Joined(job.wire, ms[k].books.reaped)
    ensures forall j :: j in ms[k].Held() && j in ms[k].delivered ==>
              j < |job.wire| && Stands(ms[k].buffer, job.Start(j), job.wire[j])
  {
    HistoryKeeps(job, ms, es, k);
    JoinedTotal(job.wire, ms[k].books.reaped);
  }

  /** What an event does to the books. */
  function OnBooks(job: Job, e: Event): BooksEvent
    requires e.KernelReturns? ==> e.i < |job.wire|
  {
    match e
    case KernelWrites(_) => NoChange
    case UserCancels(answers) => Cancels(answers)
    case KernelReturns(i, st) => Reaps(i, st, |job.wire[i]|)
  }

  /** The books of an IN transfer are a history of books, so OneReportAtTheEnd and
      CompletedMeansNoError of BulkAccounts hold of it. */
  lemma BooksOfHistory(job: Job, ms: seq<Model>, es: seq<Event>)
    requires IsHistory(job, ms, es)
    ensures forall k :: 0 <= k < |es| && es[k].KernelReturns? ==> es[k].i < |job.wire|
    ensures IsBooksHistory(job.setup, seq(|ms|, k requires 0 <= k < |ms| => ms[k].books),
                           seq(|es|, k requires 0 <= k < |es| => OnBooks(job, es[k])))
  {
    hide Valid, Returns, BooksReaped, MayReturn;
    var bs := seq(|ms|, k requires 0 <= k < |ms| => ms[k].books);
    var accepted: nat, errno :| 0 < accepted <= job.Count() && ms[0] == Started(job, ms[0].buffer, accepted, errno);
    assert bs[0] == BooksStarted(job.setup, accepted, errno);
    forall k | 0 <= k < |es|
      ensures es[k].KernelReturns? ==> es[k].i < |job.wire|
      ensures MayHappen(job.setup, bs[k], OnBooks(job, es[k]))
      ensures bs[k + 1] == BooksAfter(job.setup, bs[k], OnBooks(job, es[k]))
    {
      HistoryKeeps(job, ms, es, k);
      if es[k].KernelReturns? {
        ReturnsMayReturn(job, ms[k], es[k].i, es[k].st);
      }
    }
  }

  /** The data of requests 0 up to n, end to end. */
  function InSequence(wire: seq<seq<Byte>>, n: nat): seq<Byte>
    requires n <= |wire|
  {
    if n == 0 then [] else InSequence(wire, n - 1) + wire[n - 1]
  }

  lemma {:induction false} JoinedEmpty(wire: seq<seq<Byte>>, order: seq<nat>)
    requires forall k :: 0 <= k < |order| ==> order[k] < |wire| && wire[order[k]] == []
    ensures Joined(wire, order) == []
  {
    if order != [] {
      JoinedEmpty(wire, order[..|order| - 1]);
    }
  }

  lemma {:induction false} JoinedConcat(wire: seq<seq<Byte>>, a: seq<nat>, b: seq<nat>)
    requires forall k :: 0 <= k < |a| ==> a[k] < |wire|
    requires forall k :: 0 <= k < |b| ==> b[k] < |wire|
    ensures Joined(wire, a + b) == Joined(wire, a) + Joined(wire, b)
  {
    if b == [] {
      assert a + b == a;
    } else {
      var c, x := b[..|b| - 1], b[|b| - 1];
      JoinedConcat(wire, a, c);
      assert (a + b)[..|a + b| - 1] == a + c && (a + b)[|a + b| - 1] == x;
      assert Joined(wire, a) + (Joined(wire, c) + wire[x]) == (Joined(wire, a) + Joined(wire, c)) + wire[x];
    }
  }

  lemma JoinedOne(wire: seq<seq<Byte>>, x: nat)
    requires x < |wire|
    ensures Joined(wire, [x]) == wire[x]
  {
    assert [x][..0] == [];
  }

  lemma ConcatEmpty<T>(a: seq<T>, x: seq<T>, b: seq<T>)
    requires x == [] || b == []
    ensures a + (x + b) == (a + b) + x
  {
  }

  /** Taking out a request that no other with data follows leaves its data at the end. */
  lemma TakeOut(wire: seq<seq<Byte>>, a: seq<nat>, x: nat, b: seq<nat>)
    requires forall k :: 0 <= k < |a| ==> a[k] < |wire|
    requires forall k :: 0 <= k < |b| ==> b[k] < |wire|
    requires x < |wire| && (wire[x] == [] || forall k :: 0 <= k < |b| ==> wire[b[k]] == [])
    ensures Joined(wire, a + ([x] + b)) == Joined(wire, a + b) + wire[x]
  {
    var xb := [x] + b;
    JoinedConcat(wire, a, xb);
    JoinedConcat(wire, [x], b);
    JoinedConcat(wire, a, b);
    JoinedOne(wire, x);
    if wire[x] != [] {
      JoinedEmpty(wire, b);
    }
    ConcatEmpty(Joined(wire, a), wire[x], Joined(wire, b));
  }

  lemma TopIsReaped(order: seq<nat>, n: nat) returns (p: nat)
    requires n > 0 && Distinct(order) && |order| == n
    requires forall k :: 0 <= k < |order| ==> order[k] < n
    ensures p < n && order[p] == n - 1
  {
    LeftOver(order, n);
    assert n - 1 !in Outside(order, n);
    p :| 0 <= p < n && order[p] == n - 1;
  }

  lemma SplitAt(order: seq<nat>, p: nat, n: nat) returns (a: seq<nat>, b: seq<nat>)
    requires p < |order| && forall k :: 0 <= k < |order| ==> order[k] < n
    ensures a == order[..p] && b == order[p + 1..] && order == a + ([order[p]] + b) && |a + b| == |order| - 1
    ensures forall k :: 0 <= k < |a| ==> a[k] < n
    ensures forall k :: 0 <= k < |b| ==> b[k] < n
  {
    a, b := order[..p], order[p + 1..];
  }

  /** Taking the request with the highest number out of an ascending order. */
  lemma TakeTop(wire: seq<seq<Byte>>, order: seq<nat>, n: nat) returns (less: seq<nat>)
    requires 0 < n <= |wire| && Distinct(order) && |order| == n
    requires forall k :: 0 <= k < |order| ==> order[k] < n
    requires Ascending(wire, order)
    ensures Distinct(less) && |less| == n - 1 && forall k :: 0 <= k < |less| ==> less[k] < n - 1
    ensures Ascending(wire, less) && Joined(wire, order) == Joined(wire, less) + wire[n - 1]
  {
    hide Joined, Ascending, Distinct, Outside;
    var p := TopIsReaped(order, n);
    var a, b := SplitAt(order, p, n);
    RemoveKeeps(wire, order, p, n);
    AfterTopNoData(wire, order, p, n, b);
    TakeOut(wire, a, n - 1, b);
    less := a + b;
  }

  /** Any order that is ascending on the requests with data joins to the same bytes. */
  lemma {:induction false} AscendingJoins(wire: seq<seq<Byte>>, order: seq<nat>, n: nat)
    requires n <= |wire| && Distinct(order) && |order| == n
    requires forall k :: 0 <= k < |order| ==> order[k] < n
    requires Ascending(wire, order)
    ensures Joined(wire, order) == InSequence(wire, n)
    decreases n
  {
    if n == 0 {
      assert order == [];
    } else {
      hide Joined, Ascending, Distinct;
      var less := TakeTop(wire, order, n);
      AscendingJoins(wire, less, n - 1);
    }
  }

  lemma AfterTopNoData(wire: seq<seq<Byte>>, order: seq<nat>, p: nat, n: nat, b: seq<nat>)
    requires 0 < n <= |wire| && p < |order| && order[p] == n - 1 && b == order[p + 1..]
    requires forall k :: 0 <= k < |order| ==> order[k] < n
    requires Ascending(wire, order)
    ensures wire[n - 1] == [] || forall k :: 0 <= k < |b| ==> wire[b[k]] == []
  {
    if wire[n - 1] != [] {
      forall k | 0 <= k < |b| ensures wire[b[k]] == [] {
        assert b[k] == order[p + 1 + k];
      }
    }
  }

  lemma RemoveKeeps(wire: seq<seq<Byte>>, order: seq<nat>, p: nat, n: nat)
    requires 0 < n <= |wire| && Distinct(order) && p < |order| && order[p] == n - 1
    requires forall k :: 0 <= k < |order| ==> order[k] < n
    requires Ascending(wire, order)
    ensures var less := order[..p] + order[p + 1..];
            && Distinct(less) && (forall k :: 0 <= k < |less| ==> less[k] < n - 1)
            && Ascending(wire, less)
  {
    var less := order[..p] + order[p + 1..];
    forall k | 0 <= k < |less| ensures less[k] == order[if k < p then k else k + 1] {
    }
  }

  /** Once the kernel holds nothing, the user's buffer starts with everything it delivered,
      in the order of submission and without holes. */
  lemma AllDataInSequence(job: Job, ms: seq<Model>, es: seq<Event>, k: nat)
    requires IsHistory(job, ms, es) && k < |ms| && ms[k].Held() == {}
    ensures ms[k].books.submitted <= |job.wire|
    ensures ms[k].books.transferred == |InSequence(job.wire, ms[k].books.submitted)| <= |ms[k].buffer|
    ensures ms[k].buffer[..ms[k].books.transferred] == InSequence(job.wire, ms[k].books.submitted)
  {
    HistoryKeeps(job, ms, es, k);
    HeldCount(job.Count(), ms[k].books);
    AscendingJoins(job.wire, ms[k].books.reaped, ms[k].books.submitted);
  }
}
