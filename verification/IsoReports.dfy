/** What an isochronous transfer tells its user, in terms of what the kernel and the user did. */
module IsoReports {
  import opened BulkSplit
  import opened IsoUrbs
  import opened Sequences

  // ----- The report -----

  /** Event q is a cancel that takes effect: the kernel holds requests, every one was discarded
      or had come back already, and the last one was discarded. */
  ghost predicate CancelTakes(ms: seq<IsoModel>, es: seq<IsoEvent>, q: nat)
    requires q < |es| < |ms|
  {
    && es[q].IsoCancel? && Outside(ms[q].reaped, ms[q].submitted) != {}
    && forall k :: 0 <= k < |es[q].answers| ==>
         es[q].answers[k] == Discarded || (es[q].answers[k] == NotThere && k != |es[q].answers| - 1)
  }

  ghost predicate WasCancelled(ms: seq<IsoModel>, es: seq<IsoEvent>, k: nat)
    requires k <= |es| < |ms|
  {
    exists q :: 0 <= q < k && CancelTakes(ms, es, q)
  }

  /** A history begins with any number of requests that the kernel accepted, at least one. */
  lemma HistoryBegins(packets: nat, results: seq<PacketResult>, accepted: nat)
    requires 0 < accepted <= NumUrbs(packets) && |results| == packets
    ensures IsIsoHistory(packets, [IsoStarted(packets, results, accepted)], [])
  {
    var ms := [IsoStarted(packets, results, accepted)];
    assert ms[0] == IsoStarted(packets, ms[0].results, accepted);
  }

  /** The mode is decided by the submission, and by a cancel that takes effect. */
  lemma {:induction false} ModeMeans(packets: nat, ms: seq<IsoModel>, es: seq<IsoEvent>, k: nat)
    requires IsIsoHistory(packets, ms, es) && k < |ms|
    ensures ms[k].submitted == ms[0].submitted
    ensures ms[k].action == CANCELLED <==> WasCancelled(ms, es, k)
    ensures ms[k].action == NORMAL <==> !WasCancelled(ms, es, k) && ms[0].submitted == NumUrbs(packets)
    ensures ms[k].action == SUBMIT_FAILED <==> !WasCancelled(ms, es, k) && ms[0].submitted != NumUrbs(packets)
  {
    hide CancelTakes, IsoValid, NumUrbs;
    if k > 0 {
      ModeMeans(packets, ms, es, k - 1);
      IsoHistoryValid(packets, ms, es, k - 1);
      assert WasCancelled(ms, es, k) <==> WasCancelled(ms, es, k - 1) || CancelTakes(ms, es, k - 1);
      TakesEffect(packets, ms, es, k - 1);
      assert ms[k] == IsoAfter(packets, ms[k - 1], es[k - 1]);
    }
  }

  lemma TakesEffect(packets: nat, ms: seq<IsoModel>, es: seq<IsoEvent>, q: nat)
    requires q < |es| < |ms| && IsoValid(packets, ms[q])
    ensures CancelTakes(ms, es, q)
            <==> es[q].IsoCancel? && ms[q].live && DiscardResult(es[q].answers, 0) == Ok
  {
    LeftOver(ms[q].reaped, ms[q].submitted);
    if es[q].IsoCancel? {
      DiscardOk(es[q].answers, 0);
    }
  }

  /** What is reported when the kernel holds none of the requests: the cancel, if one took
      effect; an error if a request was refused; and otherwise what became of the request that
      came back last, event p. */
  lemma IsoReportMeans(packets: nat, ms: seq<IsoModel>, es: seq<IsoEvent>, k: nat) returns (p: nat)
    requires IsIsoHistory(packets, ms, es) && k < |ms| && Outside(ms[k].reaped, ms[k].submitted) == {}
    ensures LastReap(es, k, p) && |ms[k].reports| == 1
    ensures var one, all := ms[k].reports[0], ms[0].submitted == NumUrbs(packets);
            && (one == Cancellation <==> WasCancelled(ms, es, k))
            && (one != Cancellation ==>
                  && (one.status == StCompleted <==> all && (es[p].st == IsoSuccess || es[p].st == IsoUnlinked))
                  && (one.status == StNoDevice <==> all && es[p].st == IsoShutdown)
                  && (one.status == StError <==> !all || es[p].st == IsoOther))
  {
    hide WasCancelled, NumUrbs;
    ModeMeans(packets, ms, es, k);
    p := IsoCompletedMeans(packets, ms, es, k);
  }

  // ----- The results of the packets -----

  /** The user is told what became of a packet. */
  predicate Told(o: PacketOutcome, r: PacketResult) {
    && r.actualLength == o.actualLength
    && (r.status == StCompleted <==> o.status == PkSuccess || o.status == PkUnlinked)
    && (r.status == StNoDevice <==> o.status == PkGone)
    && (r.status == StStall <==> o.status == PkStall)
    && (r.status == StOverflow <==> o.status == PkOverflow)
    && (r.status == StError <==> o.status == PkError)
  }

  lemma WrittenTold(results: seq<PacketResult>, p: nat, outcomes: seq<PacketOutcome>)
    requires p + |outcomes| <= |results|
    ensures forall j :: 0 <= j < |outcomes| ==> Told(outcomes[j], Written(results, p, outcomes)[p + j])
    ensures forall x :: 0 <= x < |results| && !(p <= x < p + |outcomes|) ==>
              Written(results, p, outcomes)[x] == results[x]
  {
  }

  /** What the user is told of a packet stays, and what has not been told yet is untouched. */
  lemma {:induction false} ResultsStay(packets: nat, ms: seq<IsoModel>, es: seq<IsoEvent>, p: nat, k: nat)
    requires IsIsoHistory(packets, ms, es) && p < k < |ms| && es[p].IsoReap?
    ensures ms[p].offset + |es[p].outcomes| <= ms[k].offset <= |ms[k].results|
    ensures forall j :: 0 <= j < |es[p].outcomes| ==>
              Told(es[p].outcomes[j], ms[k].results[ms[p].offset + j])
  {
    hide Told, Written, IsoValid;
    IsoHistoryValid(packets, ms, es, k - 1);
    KeepsInside(packets, ms, es, k - 1);
    assert ms[k] == IsoAfter(packets, ms[k - 1], es[k - 1]);
    if es[k - 1].IsoReap? {
      WrittenTold(ms[k - 1].results, ms[k - 1].offset, es[k - 1].outcomes);
    }
    if p < k - 1 {
      ResultsStay(packets, ms, es, p, k - 1);
    }
  }

  lemma KeepsInside(packets: nat, ms: seq<IsoModel>, es: seq<IsoEvent>, k: nat)
    requires k < |ms| && IsoValid(packets, ms[k])
    ensures ms[k].offset <= |ms[k].results| == packets
  {
    TakenFits(packets, ms[k].reaped);
  }

  /** The event at which the request reaped as number q came back. */
  lemma {:induction false} ReapOf(packets: nat, ms: seq<IsoModel>, es: seq<IsoEvent>, k: nat, q: nat) returns (p: nat)
    requires IsIsoHistory(packets, ms, es) && k < |ms| && q < |ms[k].reaped|
    ensures p < k && es[p].IsoReap? && es[p].i == ms[k].reaped[q] && ms[p].reaped == ms[k].reaped[..q]
    ensures |es[p].outcomes| == PacketsIn(packets, es[p].i)
  {
    hide Written, NumUrbs, PacketsIn;
    assert k > 0;
    assert ms[k] == IsoAfter(packets, ms[k - 1], es[k - 1]);
    if q == |ms[k - 1].reaped| {
      p := k - 1;
    } else {
      p := ReapOf(packets, ms, es, k - 1, q);
      assert ms[k].reaped[..q] == ms[k - 1].reaped[..q];
    }
  }

  /** When all requests of a transfer have come back in the order of submission, the user has been
      told of every packet x what the kernel reported of it: request x / 128 at event p, its
      packet x % 128. */
  lemma EveryPacketTold(packets: nat, ms: seq<IsoModel>, es: seq<IsoEvent>, k: nat, x: nat) returns (p: nat)
    requires IsIsoHistory(packets, ms, es) && k < |ms| && x < packets
    requires ms[k].reaped == seq(NumUrbs(packets), i requires 0 <= i => i)
    ensures p < k && es[p].IsoReap? && es[p].i == x / 128 && x % 128 < |es[p].outcomes| && x < |ms[k].results|
    ensures Told(es[p].outcomes[x % 128], ms[k].results[x])
  {
    var order := ms[k].reaped;
    var q := x / 128;
    IsoHistoryValid(packets, ms, es, k);
    p := ReapOf(packets, ms, es, k, q);
    IsoHistoryValid(packets, ms, es, p);
    ResultsStay(packets, ms, es, p, k);
    PrefixTaken(packets, order, q);
    assert x == ms[p].offset + x % 128;
  }
}
