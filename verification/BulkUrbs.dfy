/** The data of a bulk or interrupt IN transfer: how the Linux backend puts what the kernel
    hands back together again in the user's buffer.

    The kernel is an environment: wire[i] is the data it will deliver for request i, at any
    time while it holds it.  What the code relies on about the kernel are the clauses of
    Returns. */
module BulkUrbs {
  import opened BulkAccounts
  import opened BulkSplit
  import opened Sequences

  type Byte = bv8

  // ----- The data -----

  /** The data of the given requests, in the given order, end to end. */
  function Joined(wire: seq<seq<Byte>>, order: seq<nat>): seq<Byte>
    requires forall k :: 0 <= k < |order| ==> order[k] < |wire|
  {
    if order == [] then []
    else Joined(wire, order[..|order| - 1]) + wire[order[|order| - 1]]
  }

  /** The bytes data stand in b at offset d. */
  predicate Stands(b: seq<Byte>, d: nat, data: seq<Byte>) {
    d + |data| <= |b| && b[d..d + |data|] == data
  }

  /** Put data into a buffer at offset d. */
  function Put(b: seq<Byte>, d: nat, data: seq<Byte>): seq<Byte>
    requires d + |data| <= |b|
  {
    b[..d] + data + b[d + |data|..]
  }

  /** What does not overlap the new data still stands. */
  lemma PutKeeps(b: seq<Byte>, d: nat, data: seq<Byte>, e: nat, other: seq<Byte>)
    requires d + |data| <= |b| && Stands(b, e, other)
    requires e + |other| <= d || d + |data| <= e || other == [] || data == []
    ensures Stands(Put(b, d, data), e, other)
  {
    var b' := Put(b, d, data);
    forall k | 0 <= k < |other| ensures b'[e + k] == other[k] {
      assert b[e..e + |other|][k] == other[k];
    }
    assert b'[e..e + |other|] == other;
  }

  lemma PutSame(b: seq<Byte>, d: nat, data: seq<Byte>)
    requires Stands(b, d, data)
    ensures Put(b, d, data) == b
  {
    assert b == b[..d] + b[d..d + |data|] + b[d + |data|..];
  }

  lemma PutStands(b: seq<Byte>, d: nat, data: seq<Byte>)
    requires d + |data| <= |b|
    ensures Stands(Put(b, d, data), d, data)
  {
  }

  lemma JoinedAppend(wire: seq<seq<Byte>>, order: seq<nat>, i: nat)
    requires i < |wire| && forall k :: 0 <= k < |order| ==> order[k] < |wire|
    ensures Joined(wire, order + [i]) == Joined(wire, order) + wire[i]
  {
    assert (order + [i])[..|order|] == order;
  }

  /** The kernel never delivers more than a request has room for. */
  ghost predicate Fits(wire: seq<seq<Byte>>, length: nat, n: nat) {
    && n > 0 && |wire| == UrbCount(length, n)
    && forall i :: 0 <= i < |wire| ==> |wire[i]| <= UrbLength(length, n, i)
  }

  /** The buffer b starts with the collected data; what each held request still brings lies
      beyond it; and what the kernel has written for a held request still stands. */
  ghost predicate Kept(b: seq<Byte>, wire: seq<seq<Byte>>, n: nat, held: set<nat>,
                       delivered: set<nat>, collected: seq<Byte>) {
    && Stands(b, 0, collected)
    && (forall j :: j in held ==> j < |wire|)
    && (forall j :: j in held ==> wire[j] == [] || |collected| <= Offset(n, j))
    && (forall j :: j in held && j in delivered ==> Stands(b, Offset(n, j), wire[j]))
  }

  /** The data of two requests do not overlap, and lie inside the buffer. */
  lemma WireApart(wire: seq<seq<Byte>>, length: nat, n: nat, j: nat, k: nat)
    requires Fits(wire, length, n) && j < |wire| && k < |wire|
    ensures Offset(n, j) + |wire[j]| <= length
    ensures j < k ==> Offset(n, j) + |wire[j]| <= Offset(n, k)
    ensures k < j ==> Offset(n, k) + |wire[k]| <= Offset(n, j)
  {
    UrbInside(length, n, j);
    if j < k {
      UrbsApart(length, n, j, k);
    } else if k < j {
      UrbsApart(length, n, k, j);
    }
  }

  /** The kernel's write for request j disturbs nothing. */
  lemma DeliverKeeps(b: seq<Byte>, wire: seq<seq<Byte>>, length: nat, n: nat, held: set<nat>, delivered: set<nat>,
                     collected: seq<Byte>, j: nat)
    requires Fits(wire, length, n) && |b| == length && Kept(b, wire, n, held, delivered, collected) && j in held
    ensures Offset(n, j) + |wire[j]| <= |b|
    ensures Kept(Put(b, Offset(n, j), wire[j]), wire, n, held, delivered + {j}, collected)
  {
    WireApart(wire, length, n, j, j);
    PutStands(b, Offset(n, j), wire[j]);
    PutKeeps(b, Offset(n, j), wire[j], 0, collected);
    forall k | k in held && k in delivered + {j}
      ensures Stands(Put(b, Offset(n, j), wire[j]), Offset(n, k), wire[k])
    {
      if k != j {
        WireApart(wire, length, n, j, k);
        PutKeeps(b, Offset(n, j), wire[j], Offset(n, k), wire[k]);
      }
    }
  }

  /** Reaping request i, whose data no earlier held request outlives, appends its data to
      the collected data and disturbs no other request. */
  lemma ReapKeeps(b: seq<Byte>, wire: seq<seq<Byte>>, length: nat, n: nat, held: set<nat>, delivered: set<nat>,
                  collected: seq<Byte>, i: nat)
    requires Fits(wire, length, n) && |b| == length && Kept(b, wire, n, held, delivered, collected) && i in held
    requires wire[i] == [] || forall j :: j in held && j < i ==> wire[j] == []
    ensures |collected| + |wire[i]| <= |b|
    ensures Kept(Put(b, |collected|, wire[i]), wire, n, held - {i}, delivered, collected + wire[i])
  {
    WireApart(wire, length, n, i, i);
    var b' := Put(b, |collected|, wire[i]);
    PutKeeps(b, |collected|, wire[i], 0, collected);
    PutStands(b, |collected|, wire[i]);
    assert b'[..|collected| + |wire[i]|] == collected + wire[i];
    forall j | j in held - {i}
      ensures wire[j] == [] || |collected + wire[i]| <= Offset(n, j)
      ensures j in delivered ==> Stands(b', Offset(n, j), wire[j])
    {
      WireApart(wire, length, n, i, j);
      if j in delivered {
        PutKeeps(b, |collected|, wire[i], Offset(n, j), wire[j]);
      }
    }
  }

  /** No request among these will carry data any more. */
  ghost predicate NoMoreData(wire: seq<seq<Byte>>, held: set<nat>) {
    forall j :: j in held ==> j < |wire| && wire[j] == []
  }

  /** In normal mode the requests come back from the first, and while data may follow, all
      that came back were full. */
  ghost predicate InOrder(wire: seq<seq<Byte>>, n: nat, submitted: nat, reaped: seq<nat>, transferred: nat) {
    && (forall k :: 0 <= k < |reaped| ==> reaped[k] == k)
    && (NoMoreData(wire, Outside(reaped, submitted)) || transferred == Offset(n, |reaped|))
  }

  /** A reap that leaves the mode normal keeps the order: the request was full, or no data
      follows. */
  lemma ReapInOrder(wire: seq<seq<Byte>>, length: nat, n: nat, reaped: seq<nat>, transferred: nat, i: nat)
    requires Fits(wire, length, n) && InOrder(wire, n, |wire|, reaped, transferred) && i == |reaped| < |wire|
    requires |wire[i]| < UrbLength(length, n, i) ==> NoMoreData(wire, Outside(reaped + [i], |wire|))
    ensures InOrder(wire, n, |wire|, reaped + [i], transferred + |wire[i]|)
  {
    var held := Outside(reaped + [i], |wire|);
    assert held <= Outside(reaped, |wire|);
    if !NoMoreData(wire, held) {
      var j :| j in held && wire[j] != [];
      assert j in Outside(reaped, |wire|);
      assert transferred == Offset(n, i);
      assert forall k :: 0 <= k < i ==> k in reaped by {
        forall k | 0 <= k < i ensures k in reaped {
          assert reaped[k] == k;
        }
      }
      assert i + 1 < |wire|;
      UrbsTile(length, n, i);
    }
  }

  // ----- A transfer and its events, as values -----

  /** What stays fixed for one submission: what the transfer asks for, and the data the kernel
      will deliver for each request. */
  datatype Job = Job(setup: Setup, wire: seq<seq<Byte>>) {
    function Unit(): (n: nat)
      ensures n > 0
    {
      setup.Unit()
    }

    function Count(): nat {
      setup.Count()
    }

    function Start(i: nat): nat {
      setup.Start(i)
    }

    ghost predicate Sound() {
      Fits(wire, setup.length, Unit())
    }
  }

  /** The books, the user's buffer, and for which requests the kernel has written its data. */
  datatype Model = Model(books: Books, buffer: seq<Byte>, delivered: set<nat>) {
    /** The requests the kernel holds. */
    ghost function Held(): set<nat> {
      books.Held()
    }

    ghost function Collected(wire: seq<seq<Byte>>): seq<Byte>
      requires forall k :: 0 <= k < |books.reaped| ==> books.reaped[k] < |wire|
    {
      Joined(wire, books.reaped)
    }
  }

  ghost predicate Valid(job: Job, m: Model) {
    && job.Sound() && |m.buffer| == job.setup.length
    && BooksOk(job.Count(), m.books)
    && m.books.transferred == |m.Collected(job.wire)|
    && Kept(m.buffer, job.wire, job.Unit(), m.Held(), m.delivered, m.Collected(job.wire))
    && (m.books.action == NORMAL ==>
          InOrder(job.wire, job.Unit(), m.books.submitted, m.books.reaped, m.books.transferred))
  }

  /** After a successful submission of which the kernel accepted the given number. */
  function Started(job: Job, buffer: seq<Byte>, accepted: nat, errno: SubmitErrno): Model {
    Model(BooksStarted(job.setup, accepted, errno), buffer, {})
  }

  /** The kernel writes the data of request j. */
  function Delivered(job: Job, m: Model, j: nat): Model
    requires j < |job.wire| && job.Start(j) + |job.wire[j]| <= |m.buffer|
  {
    m.(delivered := m.delivered + {j}, buffer := Put(m.buffer, job.Start(j), job.wire[j]))
  }

  /** op_cancel_transfer with the kernel's answers. */
  function AfterCancel(job: Job, m: Model, answers: seq<Answer>): Model {
    m.(books := BooksCancelled(job.setup, m.books, answers))
  }

  /** handle_bulk_completion for request i: its data end up behind those collected. */
  function AfterReap(job: Job, m: Model, i: nat, st: UrbStatus): Model
    requires i < |job.wire| && i < job.Count() && m.books.transferred + |job.wire[i]| <= |m.buffer|
  {
    m.(books := BooksReaped(job.setup, m.books, i, st, |job.wire[i]|),
       buffer := Put(m.buffer, m.books.transferred, job.wire[i]))
  }

  /** What the code relies on when the kernel hands request i back. */
  ghost predicate Returns(job: Job, m: Model, i: nat, st: UrbStatus)
    requires forall j :: j in m.Held() ==> j < |job.wire|
  {
    // it was submitted and not handed back before
    && i in m.Held()
    // its data have been written
    && (i in m.delivered || job.wire[i] == [])
    // requests that carry data come back in the order of submission
    && (job.wire[i] == [] || forall j :: j in m.Held() && j < i ==> job.wire[j] == [])
    // while nothing abnormal happened, so do all
    && (m.books.action == NORMAL ==> forall j :: j in m.Held() ==> i <= j)
    // after a stall or a lost device no request carries data
    && (m.books.action == NORMAL && (st == Pipe || st == DeviceGone) ==>
          forall j :: j in m.Held() && j != i ==> job.wire[j] == [])
    // an overflow occurs only on the last outstanding request
    && (m.books.action == NORMAL && st == Overflow ==> m.Held() == {i})
  }

  lemma StartedValid(job: Job, buffer: seq<Byte>, accepted: nat, errno: SubmitErrno)
    requires job.Sound() && |buffer| == job.setup.length && 0 < accepted <= job.Count()
    ensures Valid(job, Started(job, buffer, accepted, errno))
  {
    StartedOk(job.setup, accepted, errno);
    assert Joined(job.wire, []) == [];
  }

  lemma DeliveredValid(job: Job, m: Model, j: nat)
    requires Valid(job, m) && j in m.Held()
    ensures job.Start(j) + |job.wire[j]| <= |m.buffer|
    ensures Valid(job, Delivered(job, m, j))
  {
    DeliverKeeps(m.buffer, job.wire, job.setup.length, job.Unit(), m.Held(), m.delivered, m.Collected(job.wire), j);
  }

  lemma AfterCancelValid(job: Job, m: Model, answers: seq<Answer>)
    requires Valid(job, m)
    ensures Valid(job, AfterCancel(job, m, answers))
  {
    CancelledOk(job.setup, m.books, answers);
  }

  /** What the books need of a returned request is part of what the kernel promises. */
  lemma ReturnsMayReturn(job: Job, m: Model, i: nat, st: UrbStatus)
    requires Valid(job, m) && Returns(job, m, i, st)
    ensures MayReturn(m.books, i, st) && i < job.Count()
  {
    HeldCount(job.Count(), m.books);
  }

  /** In normal mode the requests come back one by one from the first, and the data of each
      already stand where they belong. */
  lemma NormalNext(job: Job, m: Model, i: nat, st: UrbStatus)
    requires Valid(job, m) && Returns(job, m, i, st) && m.books.action == NORMAL
    ensures i == |m.books.reaped| && m.books.submitted == |job.wire|
    ensures m.books.transferred == job.Start(i) || job.wire[i] == []
  {
    var reaped := m.books.reaped;
    assert forall k :: 0 <= k < |reaped| ==> k in reaped by {
      forall k | 0 <= k < |reaped| ensures k in reaped {
        assert reaped[k] == k;
      }
    }
    assert |reaped| in m.Held();
  }

  /** Reaping appends the data of the request to what was collected. */
  lemma AfterReapData(job: Job, m: Model, i: nat, st: UrbStatus)
    requires Valid(job, m) && Returns(job, m, i, st)
    ensures m.books.transferred + |job.wire[i]| <= |m.buffer|
    ensures var m' := AfterReap(job, m, i, st);
            && m'.books.transferred == |m'.Collected(job.wire)|
            && Kept(m'.buffer, job.wire, job.Unit(), m'.Held(), m'.delivered, m'.Collected(job.wire))
            && m'.Held() == m.Held() - {i}
  {
    var reaped := m.books.reaped;
    ReapKeeps(m.buffer, job.wire, job.setup.length, job.Unit(), m.Held(), m.delivered, m.Collected(job.wire), i);
    JoinedAppend(job.wire, reaped, i);
    assert Outside(reaped + [i], m.books.submitted) == m.Held() - {i};
  }

  /** If the mode stays normal after a request that was not full, no data follows. */
  lemma ShortIsLast(job: Job, m: Model, i: nat, st: UrbStatus)
    requires Valid(job, m) && Returns(job, m, i, st) && m.books.action == NORMAL && m.books.submitted == |job.wire|
    requires i < job.Count() && m.books.transferred + |job.wire[i]| <= |m.buffer|
    requires AfterReap(job, m, i, st).books.action == NORMAL && |job.wire[i]| < job.setup.Room(i)
    ensures NoMoreData(job.wire, Outside(m.books.reaped + [i], |job.wire|))
  {
    hide Kept, InOrder, Put, Joined, Distinct, UrbCount, UrbLength, Verdict;
    var rest := m.Held() - {i};
    assert Outside(m.books.reaped + [i], m.books.submitted) == rest;
    HeldCount(job.Count(), m.books);
    assert |rest| == |m.Held()| - 1;
    forall j | j in rest ensures j < |job.wire| && job.wire[j] == [] {
    }
  }

  lemma AfterReapOrder(job: Job, m: Model, i: nat, st: UrbStatus)
    requires Valid(job, m) && Returns(job, m, i, st) && m.books.transferred + |job.wire[i]| <= |m.buffer|
    ensures var m' := AfterReap(job, m, i, st);
            m'.books.action == NORMAL ==>
              InOrder(job.wire, job.Unit(), m'.books.submitted, m'.books.reaped, m'.books.transferred)
  {
    hide Kept, InOrder, Joined, Distinct, UrbCount, UrbLength, Verdict, NoMoreData, Outside;
    ReturnsMayReturn(job, m, i, st);
    var m' := AfterReap(job, m, i, st);
    if m'.books.action == NORMAL {
      NormalNext(job, m, i, st);
      if |job.wire[i]| < job.setup.Room(i) {
        ShortIsLast(job, m, i, st);
      }
      ReapInOrder(job.wire, job.setup.length, job.Unit(), m.books.reaped, m.books.transferred, i);
    }
  }

  /** Every reap keeps everything. */
  lemma AfterReapValid(job: Job, m: Model, i: nat, st: UrbStatus)
    requires Valid(job, m) && Returns(job, m, i, st)
    ensures m.books.transferred + |job.wire[i]| <= |m.buffer|
    ensures Valid(job, AfterReap(job, m, i, st))
  {
    AfterReapData(job, m, i, st);
    ReturnsMayReturn(job, m, i, st);
    ReapedOk(job.setup, m.books, i, st, |job.wire[i]|);
    AfterReapOrder(job, m, i, st);
  }
}
