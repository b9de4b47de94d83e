/** What handing requests back does to the user's buffer, in either direction: when it moves
    bytes, and for which transfers it never does. */
module BulkMoves {
  import opened BulkAccounts
  import opened BulkSplit
  import opened BulkUrbs
  import opened Sequences

  /** The buffer after request i brought actual bytes: once the transfer is being torn down
      they are moved behind those collected. */
  function Moved(setup: Setup, m: Books, i: nat, actual: nat, b: seq<Byte>): seq<Byte>
    requires m.transferred + actual <= |b| && setup.Start(i) + actual <= |b|
  {
    if m.action == NORMAL then b
    else Put(b, m.transferred, b[setup.Start(i)..setup.Start(i) + actual])
  }

  /** The event leaves the buffer as it is; HistoryStaysInside of BulkAccounts shows that the
      bytes are inside. */
  predicate LeavesAlone(setup: Setup, m: Books, e: BooksEvent, b: seq<Byte>) {
    e.Reaps? && m.transferred + e.actual <= |b| && setup.Start(e.i) + e.actual <= |b| ==>
      Moved(setup, m, e.i, e.actual, b) == b
  }

  /** The event moves bytes to another place. */
  predicate MovesBytes(setup: Setup, m: Books, e: BooksEvent) {
    e.Reaps? && m.action != NORMAL && e.actual > 0 && setup.Start(e.i) != m.transferred
  }

  /** Moving n bytes from s to t leaves every buffer alone exactly if there are none to move, or
      they stay where they are. */
  lemma MoveChanges(length: nat, t: nat, s: nat, n: nat)
    requires t + n <= length && s + n <= length
    ensures (forall b: seq<Byte> :: |b| == length ==> Put(b, t, b[s..s + n]) == b) <==> n == 0 || s == t
  {
    if n == 0 || s == t {
      forall b: seq<Byte> | |b| == length ensures Put(b, t, b[s..s + n]) == b {
        PutSame(b, t, b[s..s + n]);
      }
    } else {
      var b: seq<Byte> := seq(length, j => if j == s then 1 else 0);
      assert Put(b, t, b[s..s + n])[t] == 1 != b[t];
    }
  }

  /** The first request that comes back finds nothing collected. */
  lemma NothingYet(setup: Setup, ms: seq<Books>, es: seq<BooksEvent>, k: nat)
    requires IsBooksHistory(setup, ms, es) && k < |es| && es[k].Reaps? && setup.Count() == 1
    ensures es[k].i == 0 && ms[k].transferred == 0
  {
    BooksHistoryOk(setup, ms, es, k);
    assert MayHappen(setup, ms[k], es[k]);
    StillHeld(ms[k], es[k].i);
  }

  /** Every request accepted and the transfer cancelled: request 0 comes back empty and request
      1 with a byte, which goes to the start of the buffer. */
  lemma CancelledMoves(setup: Setup) returns (ms: seq<Books>, es: seq<BooksEvent>)
    requires setup.Count() > 1
    ensures IsBooksHistory(setup, ms, es) && BringsWhatFits(setup, es)
    ensures |es| == 3 && MovesBytes(setup, ms[2], es[2])
  {
    hide UrbCount, UrbLength, Verdict;
    var count := setup.Count();
    var answers := seq(count, _ => Discarded);
    DiscardOk(answers, 0);
    RoomForOne(setup);
    es := [Cancels(answers), Reaps(0, Unlinked, 0), Reaps(1, Unlinked, 1)];
    var m0 := BooksStarted(setup, count, EOTHER);
    var m1 := BooksCancelled(setup, m0, answers);
    var m2 := BooksReaped(setup, m1, 0, Unlinked, 0);
    var m3 := BooksReaped(setup, m2, 1, Unlinked, 1);
    ms := [m0, m1, m2, m3];
    assert setup.Start(1) == setup.Start(0) + setup.Unit();
    forall k | 0 <= k < |es|
      ensures MayHappen(setup, ms[k], es[k]) && ms[k + 1] == BooksAfter(setup, ms[k], es[k])
    {
      assert k == 0 || k == 1 || k == 2;
    }
  }

  lemma RoomForOne(setup: Setup)
    requires setup.Count() > 1
    ensures setup.Room(1) >= 1
  {
    UrbsTile(setup.length, setup.Unit(), 1);
  }

  /** No request brings more than it has room for. */
  predicate BringsWhatFits(setup: Setup, es: seq<BooksEvent>) {
    forall p :: 0 <= p < |es| && es[p].Reaps? ==> es[p].i < setup.Count() && es[p].actual <= setup.Room(es[p].i)
  }

  // ----- Main results -----

  /** In no history bytes are moved to another place, exactly if the transfer is a single
      request. */
  lemma NoMoveExactly(setup: Setup)
    ensures (forall ms: seq<Books>, es: seq<BooksEvent>, k ::
               IsBooksHistory(setup, ms, es) && 0 <= k < |es| ==> !MovesBytes(setup, ms[k], es[k]))
            <==> setup.Count() == 1
  {
    if setup.Count() == 1 {
      forall ms: seq<Books>, es: seq<BooksEvent>, k |
        IsBooksHistory(setup, ms, es) && 0 <= k < |es|
        ensures !MovesBytes(setup, ms[k], es[k])
      {
        if es[k].Reaps? {
          NothingYet(setup, ms, es, k);
        }
      }
    } else {
      var ms, es := CancelledMoves(setup);
      assert MovesBytes(setup, ms[2], es[2]);
    }
  }

  lemma OneRequestStays(setup: Setup, ms: seq<Books>, es: seq<BooksEvent>, k: nat, b: seq<Byte>)
    requires IsBooksHistory(setup, ms, es) && k < |es| && setup.Count() == 1
    ensures LeavesAlone(setup, ms[k], es[k], b)
  {
    if es[k].Reaps? && es[k].actual <= |b| {
      NothingYet(setup, ms, es, k);
      PutSame(b, 0, b[0..es[k].actual]);
    }
  }

  lemma SomeBufferChanges(setup: Setup, ms: seq<Books>, es: seq<BooksEvent>, k: nat) returns (b: seq<Byte>)
    requires IsBooksHistory(setup, ms, es) && BringsWhatFits(setup, es)
    requires k < |es| && MovesBytes(setup, ms[k], es[k])
    ensures |b| == setup.length && !LeavesAlone(setup, ms[k], es[k], b)
  {
    hide Put;
    HistoryStaysInside(setup, ms, es, k);
    var t, s, n := ms[k].transferred, setup.Start(es[k].i), es[k].actual;
    MoveChanges(setup.length, t, s, n);
    b :| |b| == setup.length && Put(b, t, b[s..s + n]) != b;
  }

  /** In every history every reap leaves the buffer as it is, whatever it holds, exactly if the
      transfer is a single request.  So the user finds the buffer of such an OUT transfer as it
      was, and that of no other OUT transfer for certain. */
  lemma BufferKeptExactly(setup: Setup)
    ensures (forall ms: seq<Books>, es: seq<BooksEvent>, k, b: seq<Byte> ::
               IsBooksHistory(setup, ms, es) && BringsWhatFits(setup, es) && 0 <= k < |es| && |b| == setup.length ==>
                 LeavesAlone(setup, ms[k], es[k], b))
            <==> setup.Count() == 1
  {
    hide LeavesAlone, MovesBytes, BringsWhatFits;
    if setup.Count() == 1 {
      forall ms: seq<Books>, es: seq<BooksEvent>, k, b: seq<Byte> |
        IsBooksHistory(setup, ms, es) && BringsWhatFits(setup, es) && 0 <= k < |es| && |b| == setup.length
        ensures LeavesAlone(setup, ms[k], es[k], b)
      {
        OneRequestStays(setup, ms, es, k, b);
      }
    } else {
      var ms, es := CancelledMoves(setup);
      var b := SomeBufferChanges(setup, ms, es, 2);
    }
  }
}
