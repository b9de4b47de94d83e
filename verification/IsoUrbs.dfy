/** How the Linux backend cuts an isochronous transfer into requests (URBs) of up to 128
    packets, and how it takes their results back. */
module IsoUrbs {
  import opened BulkSplit
  import opened Integers
  import opened Sequences

  const MAX_ISO_PACKETS_PER_URB: nat := 128

  /** The status of a reaped request, by the cases of handle_iso_completion. */
  datatype IsoStatus = IsoSuccess | IsoUnlinked | IsoShutdown | IsoOther

  /** What the kernel reports of a packet, and what the user is told. */
  datatype PacketStatus = PkSuccess | PkUnlinked | PkGone | PkStall | PkOverflow | PkError
  datatype PacketOutcome = PacketOutcome(status: PacketStatus, actualLength: nat)
  datatype PacketResult = PacketResult(status: Status, actualLength: nat)

  /** A request: where its part of the buffer starts and the lengths of its packets. */
  datatype IsoUrb = IsoUrb(offset: nat, bufferLength: nat, lengths: seq<nat>)

  // ----- The split -----

  function NumUrbs(packets: nat): nat {
    (packets + (MAX_ISO_PACKETS_PER_URB - 1)) / MAX_ISO_PACKETS_PER_URB
  }

  /** The packets of request i. */
  function PacketsIn(packets: nat, i: nat): (n: nat)
    requires i < NumUrbs(packets)
    ensures 1 <= n <= MAX_ISO_PACKETS_PER_URB && i * MAX_ISO_PACKETS_PER_URB + n <= packets
    ensures n < MAX_ISO_PACKETS_PER_URB ==> i == NumUrbs(packets) - 1
    ensures i == NumUrbs(packets) - 1 ==> i * MAX_ISO_PACKETS_PER_URB + n == packets
  {
    var left := packets - i * MAX_ISO_PACKETS_PER_URB;
    if left < MAX_ISO_PACKETS_PER_URB then left else MAX_ISO_PACKETS_PER_URB
  }

  lemma {:induction false} SumSplit(a: seq<nat>, b: seq<nat>)
    ensures Sum(a + b) == Sum(a) + Sum(b)
  {
    if b == [] {
      assert a + b == a;
    } else {
      var c := b[..|b| - 1];
      SumSplit(a, c);
      assert (a + b)[..|a + b| - 1] == a + c;
    }
  }

  function UrbOf(lengths: seq<nat>, i: nat): IsoUrb
    requires i < NumUrbs(|lengths|)
  {
    var start := i * MAX_ISO_PACKETS_PER_URB;
    var part := lengths[start..start + PacketsIn(|lengths|, i)];
    IsoUrb(Sum(lengths[..start]), Sum(part), part)
  }

  lemma UrbOfIs(lengths: seq<nat>, i: nat, j: nat)
    requires i < NumUrbs(|lengths|) && j == i * MAX_ISO_PACKETS_PER_URB
    ensures var part := lengths[j..j + PacketsIn(|lengths|, i)];
            UrbOf(lengths, i) == IsoUrb(Sum(lengths[..j]), Sum(part), part)
  {
  }

  /** The requests tile the buffer in the order of the packets: each starts where the one
      before ends, and the last ends with the last packet. */
  lemma IsoUrbsTile(lengths: seq<nat>, i: nat)
    requires i < NumUrbs(|lengths|)
    ensures UrbOf(lengths, i).offset + UrbOf(lengths, i).bufferLength
         == if i + 1 < NumUrbs(|lengths|) then UrbOf(lengths, i + 1).offset else Sum(lengths)
  {
    hide Sum, UrbOf;
    var start := i * MAX_ISO_PACKETS_PER_URB;
    UrbOfIs(lengths, i, start);
    var end := start + PacketsIn(|lengths|, i);
    SumRange(lengths, start, end);
    if i + 1 == NumUrbs(|lengths|) {
      assert lengths[..end] == lengths;
    } else {
      UrbOfIs(lengths, i + 1, end);
    }
  }

  lemma SumRange(lengths: seq<nat>, start: nat, end: nat)
    requires start <= end <= |lengths|
    ensures Sum(lengths[..start]) + Sum(lengths[start..end]) == Sum(lengths[..end])
  {
    SumSplit(lengths[..start], lengths[start..end]);
    assert lengths[..start] + lengths[start..end] == lengths[..end];
  }

  // ----- Where results go -----

  function StatusOf(p: PacketStatus): Status {
    match p
    case PkSuccess => StCompleted
    case PkUnlinked => StCompleted
    case PkGone => StNoDevice
    case PkStall => StStall
    case PkOverflow => StOverflow
    case PkError => StError
  }

  function ResultOf(p: PacketOutcome): PacketResult {
    PacketResult(StatusOf(p.status), p.actualLength)
  }

  /** The packets of the requests reaped so far: the cursor iso_packet_offset. */
  function Taken(packets: nat, order: seq<nat>): nat
    requires forall k :: 0 <= k < |order| ==> order[k] < NumUrbs(packets)
  {
    if order == [] then 0
    else Taken(packets, order[..|order| - 1]) + PacketsIn(packets, order[|order| - 1])
  }

  /** All requests but the last are full. */
  lemma {:induction false} TakenIs(packets: nat, order: seq<nat>)
    requires forall k :: 0 <= k < |order| ==> order[k] < NumUrbs(packets)
    requires Distinct(order)
    ensures Taken(packets, order)
         == if NumUrbs(packets) - 1 in order then
              MAX_ISO_PACKETS_PER_URB * |order| - (MAX_ISO_PACKETS_PER_URB * NumUrbs(packets) - packets)
            else MAX_ISO_PACKETS_PER_URB * |order|
  {
    if order != [] {
      var init, last := order[..|order| - 1], order[|order| - 1];
      assert order == init + [last];
      TakenIs(packets, init);
    }
  }

  /** The cursor never leaves the packet descriptors. */
  lemma TakenFits(packets: nat, order: seq<nat>)
    requires forall k :: 0 <= k < |order| ==> order[k] < NumUrbs(packets)
    requires Distinct(order)
    ensures Taken(packets, order) <= packets
    ensures |order| == NumUrbs(packets) ==> Taken(packets, order) == packets
  {
    TakenIs(packets, order);
    LeftOver(order, NumUrbs(packets));
    if |order| == NumUrbs(packets) && packets > 0 {
      assert NumUrbs(packets) - 1 !in Outside(order, NumUrbs(packets));
    }
  }

  /** The results of the k-th reaped request stand at its own packets. */
  predicate InPlace(packets: nat, order: seq<nat>, k: nat)
    requires forall j :: 0 <= j < |order| ==> order[j] < NumUrbs(packets)
    requires k < |order|
  {
    Taken(packets, order[..k]) == order[k] * MAX_ISO_PACKETS_PER_URB
  }

  /** Results stand at their own packets exactly if the requests come back in the order of
      submission. */
  lemma ResultsInPlace(packets: nat, order: seq<nat>)
    requires forall k :: 0 <= k < |order| ==> order[k] < NumUrbs(packets)
    requires Distinct(order)
    ensures (forall k :: 0 <= k < |order| ==> InPlace(packets, order, k))
            <==> forall k :: 0 <= k < |order| ==> order[k] == k
  {
    hide Taken, PacketsIn, NumUrbs, InPlace;
    if forall k :: 0 <= k < |order| ==> order[k] == k {
      forall k | 0 <= k < |order| ensures InPlace(packets, order, k) {
        FirstInPlace(packets, order, k);
      }
    }
    if forall k :: 0 <= k < |order| ==> InPlace(packets, order, k) {
      InOrderUpTo(packets, order, |order|);
    }
  }

  /** With the requests before it in order, a request is in place exactly if it is next. */
  lemma FirstInPlace(packets: nat, order: seq<nat>, k: nat)
    requires forall j :: 0 <= j < |order| ==> order[j] < NumUrbs(packets)
    requires Distinct(order) && k < |order| && forall j :: 0 <= j < k ==> order[j] == j
    ensures InPlace(packets, order, k) <==> order[k] == k
  {
    AtLeast(order, k);
    PrefixTaken(packets, order, k);
  }

  lemma PrefixTaken(packets: nat, order: seq<nat>, k: nat)
    requires forall j :: 0 <= j < |order| ==> order[j] < NumUrbs(packets)
    requires k < |order| && forall j :: 0 <= j < k ==> order[j] == j
    requires order[k] >= k
    ensures Taken(packets, order[..k]) == k * MAX_ISO_PACKETS_PER_URB
  {
    TakenIs(packets, order[..k]);
    forall j | 0 <= j < k ensures order[..k][j] != NumUrbs(packets) - 1 {
    }
  }

  lemma {:induction false} InOrderUpTo(packets: nat, order: seq<nat>, n: nat)
    requires forall k :: 0 <= k < |order| ==> order[k] < NumUrbs(packets)
    requires Distinct(order) && n <= |order|
    requires forall k :: 0 <= k < |order| ==> InPlace(packets, order, k)
    ensures forall k :: 0 <= k < n ==> order[k] == k
  {
    hide InPlace, NumUrbs, Distinct;
    if n > 0 {
      InOrderUpTo(packets, order, n - 1);
      FirstInPlace(packets, order, n - 1);
    }
  }

  lemma AtLeast(order: seq<nat>, k: nat)
    requires Distinct(order) && k < |order| && forall j :: 0 <= j < k ==> order[j] == j
    ensures order[k] >= k
  {
    if order[k] < k {
      NotTaken(order, k, order[k]);
    }
  }

  lemma NotTaken(order: seq<nat>, k: nat, j: nat)
    requires Distinct(order) && j < k < |order| && order[j] == j
    ensures order[k] != j
  {
  }

  // ----- A transfer and its events, as values -----

  /** The fields of linux_transfer_priv and the packet descriptors of the user; then the
      environment and the history. */
  datatype IsoModel = IsoModel(
    live: bool,
    numRetired: int,
    action: ReapAction,
    offset: nat,
    results: seq<PacketResult>,
    submitted: nat,
    reaped: seq<nat>,
    lastStatus: IsoStatus,
    reports: seq<Report>)

  ghost predicate IsoValid(packets: nat, m: IsoModel) {
    && |m.results| == packets
    && 0 < m.submitted <= NumUrbs(packets)
    && Distinct(m.reaped)
    && (forall k :: 0 <= k < |m.reaped| ==> m.reaped[k] < m.submitted)
    && m.numRetired == |m.reaped| + (NumUrbs(packets) - m.submitted)
    && m.offset == Taken(packets, m.reaped)
    && (m.live <==> |m.reaped| < m.submitted)
    && m.reports == (if m.live then [] else [IsoReport(m.action, m.lastStatus)])
    && (m.action == NORMAL || m.action == SUBMIT_FAILED || m.action == CANCELLED)
    && (m.action == NORMAL ==> m.submitted == NumUrbs(packets))
  }

  /** The report: in normal mode that of the request reaped last alone. */
  function IsoReport(action: ReapAction, last: IsoStatus): Report {
    match action
    case CANCELLED => Cancellation
    case NORMAL =>
      Completion(match last
                 case IsoSuccess => StCompleted
                 case IsoUnlinked => StCompleted
                 case IsoShutdown => StNoDevice
                 case IsoOther => StError)
    case _ => Completion(StError)
  }

  /** After a submission of which the kernel accepted the given number. */
  function IsoStarted(packets: nat, results: seq<PacketResult>, accepted: nat): IsoModel {
    IsoModel(true, NumUrbs(packets) - accepted, if accepted == NumUrbs(packets) then NORMAL else SUBMIT_FAILED,
             0, results, accepted, [], IsoSuccess, [])
  }

  function IsoAfterCancel(m: IsoModel, answers: seq<Answer>): IsoModel {
    if m.live && DiscardResult(answers, 0) == Ok then m.(action := CANCELLED) else m
  }

  /** Results written over those from position p on. */
  function Written(results: seq<PacketResult>, p: nat, outcomes: seq<PacketOutcome>): (r: seq<PacketResult>)
    requires p + |outcomes| <= |results|
    ensures |r| == |results|
  {
    results[..p] + seq(|outcomes|, i requires 0 <= i < |outcomes| => ResultOf(outcomes[i])) + results[p + |outcomes|..]
  }

  /** handle_iso_completion for request i. */
  function IsoAfterReap(packets: nat, m: IsoModel, i: nat, st: IsoStatus, outcomes: seq<PacketOutcome>): IsoModel
    requires m.offset + |outcomes| <= |m.results|
  {
    var last := m.numRetired + 1 == NumUrbs(packets);
    m.(live := m.live && !last,
       numRetired := m.numRetired + 1,
       offset := m.offset + |outcomes|,
       results := Written(m.results, m.offset, outcomes),
       reaped := m.reaped + [i],
       lastStatus := st,
       reports := if last then m.reports + [IsoReport(m.action, st)] else m.reports)
  }

  /** What the kernel promises when it hands request i back: it holds it, and it reports on
      its packets. */
  ghost predicate IsoReturns(packets: nat, m: IsoModel, i: nat, outcomes: seq<PacketOutcome>)
    requires m.submitted <= NumUrbs(packets)
  {
    i < m.submitted && i !in m.reaped && |outcomes| == PacketsIn(packets, i)
  }

  lemma IsoStartedValid(packets: nat, results: seq<PacketResult>, accepted: nat)
    requires 0 < accepted <= NumUrbs(packets) && |results| == packets
    ensures IsoValid(packets, IsoStarted(packets, results, accepted))
  {
  }

  lemma IsoCancelValid(packets: nat, m: IsoModel, answers: seq<Answer>)
    requires IsoValid(packets, m)
    ensures IsoValid(packets, IsoAfterCancel(m, answers))
  {
  }

  /** Every reap stays inside the packet descriptors and keeps the accounts. */
  lemma IsoReapValid(packets: nat, m: IsoModel, i: nat, st: IsoStatus, outcomes: seq<PacketOutcome>)
    requires IsoValid(packets, m) && IsoReturns(packets, m, i, outcomes)
    ensures m.live && m.offset + |outcomes| <= |m.results|
    ensures IsoValid(packets, IsoAfterReap(packets, m, i, st, outcomes))
  {
    var order := m.reaped + [i];
    assert Distinct(order);
    assert order[..|m.reaped|] == m.reaped;
    TakenFits(packets, order);
    LeftOver(m.reaped, m.submitted);
    assert i in Outside(m.reaped, m.submitted);
    LeftOver(order, m.submitted);
  }

  // ----- Histories -----

  datatype IsoEvent = IsoCancel(answers: seq<Answer>) | IsoReap(i: nat, st: IsoStatus, outcomes: seq<PacketOutcome>)

  ghost predicate IsoPossible(packets: nat, m: IsoModel, e: IsoEvent) {
    && m.submitted <= NumUrbs(packets)
    && (e.IsoReap? ==> IsoReturns(packets, m, e.i, e.outcomes) && m.offset + |e.outcomes| <= |m.results|)
  }

  function IsoAfter(packets: nat, m: IsoModel, e: IsoEvent): IsoModel
    requires IsoPossible(packets, m, e)
  {
    match e
    case IsoCancel(answers) => IsoAfterCancel(m, answers)
    case IsoReap(i, st, outcomes) => IsoAfterReap(packets, m, i, st, outcomes)
  }

  ghost predicate IsIsoHistory(packets: nat, ms: seq<IsoModel>, es: seq<IsoEvent>) {
    && |ms| == |es| + 1
    && (exists accepted: nat :: 0 < accepted <= NumUrbs(packets) && |ms[0].results| == packets
                                && ms[0] == IsoStarted(packets, ms[0].results, accepted))
    && forall k {:trigger es[k]} :: 0 <= k < |es| ==>
         IsoPossible(packets, ms[k], es[k]) && ms[k + 1] == IsoAfter(packets, ms[k], es[k])
  }

  lemma {:induction false} IsoHistoryValid(packets: nat, ms: seq<IsoModel>, es: seq<IsoEvent>, k: nat)
    requires IsIsoHistory(packets, ms, es) && k < |ms|
    ensures IsoValid(packets, ms[k])
  {
    hide IsoValid;
    if k == 0 {
      var accepted: nat :| 0 < accepted <= NumUrbs(packets) && ms[0] == IsoStarted(packets, ms[0].results, accepted);
      IsoStartedValid(packets, ms[0].results, accepted);
    } else {
      IsoHistoryValid(packets, ms, es, k - 1);
      match es[k - 1] {
        case IsoCancel(answers) => IsoCancelValid(packets, ms[k - 1], answers);
        case IsoReap(i, st, outcomes) => IsoReapValid(packets, ms[k - 1], i, st, outcomes);
      }
    }
  }

  /** num_retired always counts the reaped and the never submitted requests.  The requests are
      freed, and the one report given, exactly when the kernel holds none of them; and in
      normal mode all packets have their results by then. */
  lemma IsoOneReportAtTheEnd(packets: nat, ms: seq<IsoModel>, es: seq<IsoEvent>, k: nat)
    requires IsIsoHistory(packets, ms, es) && k < |ms|
    ensures ms[k].numRetired == |ms[k].reaped| + (NumUrbs(packets) - ms[k].submitted)
    ensures ms[k].live <==> Outside(ms[k].reaped, ms[k].submitted) != {}
    ensures ms[k].reports == if ms[k].live then [] else [IsoReport(ms[k].action, ms[k].lastStatus)]
    ensures ms[k].offset <= packets
    ensures !ms[k].live && ms[k].action == NORMAL ==> ms[k].offset == packets
  {
    IsoHistoryValid(packets, ms, es, k);
    LeftOver(ms[k].reaped, ms[k].submitted);
    TakenFits(packets, ms[k].reaped);
  }

  // ----- What the report says -----

  /** Event p is the last reap among the first k events. */
  ghost predicate LastReap(es: seq<IsoEvent>, k: nat, p: nat)
    requires k <= |es|
  {
    p < k && es[p].IsoReap? && forall q :: p < q < k ==> !es[q].IsoReap?
  }

  lemma {:induction false} LastStatusIs(packets: nat, ms: seq<IsoModel>, es: seq<IsoEvent>, k: nat) returns (p: nat)
    requires IsIsoHistory(packets, ms, es) && k < |ms| && ms[k].reaped != []
    ensures LastReap(es, k, p) && ms[k].lastStatus == es[p].st
  {
    assert k > 0;
    if es[k - 1].IsoReap? {
      p := k - 1;
    } else {
      p := LastStatusIs(packets, ms, es, k - 1);
    }
  }

  /** When the kernel holds none of the requests, COMPLETED has been reported exactly if nothing
      abnormal happened and the request reaped last, whichever it was, was neither in error nor
      lost with the device; the others do not matter. */
  lemma IsoCompletedMeans(packets: nat, ms: seq<IsoModel>, es: seq<IsoEvent>, k: nat) returns (p: nat)
    requires IsIsoHistory(packets, ms, es) && k < |ms|
    requires Outside(ms[k].reaped, ms[k].submitted) == {}
    ensures LastReap(es, k, p) && ms[k].reports == [IsoReport(ms[k].action, es[p].st)]
    ensures ms[k].reports == [Completion(StCompleted)] <==>
              ms[k].action == NORMAL && (es[p].st == IsoSuccess || es[p].st == IsoUnlinked)
  {
    IsoHistoryValid(packets, ms, es, k);
    LeftOver(ms[k].reaped, ms[k].submitted);
    p := LastStatusIs(packets, ms, es, k);
  }

  /** So an error of an earlier request is lost: with 129 packets, request 0 in error and then
      request 1 without are reported as COMPLETED, whatever the outcomes of the packets. */
  lemma EarlierErrorIsLost(results: seq<PacketResult>, first: seq<PacketOutcome>, second: seq<PacketOutcome>)
    returns (ms: seq<IsoModel>, es: seq<IsoEvent>)
    requires |results| == 129 && |first| == 128 && |second| == 1
    ensures IsIsoHistory(129, ms, es) && es == [IsoReap(0, IsoOther, first), IsoReap(1, IsoSuccess, second)]
    ensures ms[0] == IsoStarted(129, results, 2) && ms[2].reports == [Completion(StCompleted)]
  {
    hide Written;
    es := [IsoReap(0, IsoOther, first), IsoReap(1, IsoSuccess, second)];
    var m0 := IsoStarted(129, results, 2);
    var m1 := IsoAfterReap(129, m0, 0, IsoOther, first);
    var m2 := IsoAfterReap(129, m1, 1, IsoSuccess, second);
    ms := [m0, m1, m2];
    assert NumUrbs(129) == 2 && ms[0] == IsoStarted(129, ms[0].results, 2);
    forall k | 0 <= k < |es|
      ensures IsoPossible(129, ms[k], es[k]) && ms[k + 1] == IsoAfter(129, ms[k], es[k])
    {
      assert k == 0 || k == 1;
    }
  }

  // ----- The length check -----

  /** The length check of submit_iso_transfer: the total is an unsigned 32-bit number, compared
      as a signed one. */
  predicate LengthAccepted(lengths: seq<nat>, bufferLength: nat) {
    bufferLength >= ToInt(Sum(lengths) % 0x1_0000_0000)
  }

  /** And of the transfers that add up to less, it accepts exactly those that fit. */
  lemma LengthCheckRight(lengths: seq<nat>, bufferLength: nat)
    requires Sum(lengths) < 0x8000_0000
    ensures LengthAccepted(lengths, bufferLength) <==> Sum(lengths) <= bufferLength
  {
  }

  /** Whatever the packets add up to, the check sees the low 32 bits, and accepts them if they do
      not exceed the buffer or their top bit is set. */
  lemma LengthCheckSees(lengths: seq<nat>, bufferLength: nat)
    ensures var low := Sum(lengths) % 0x1_0000_0000;
            LengthAccepted(lengths, bufferLength) <==> low <= bufferLength || low >= 0x8000_0000
  {
  }

  predicate EndsInside(lengths: seq<nat>, i: nat, bufferLength: nat)
    requires i < NumUrbs(|lengths|)
  {
    UrbOf(lengths, i).offset + UrbOf(lengths, i).bufferLength <= bufferLength
  }

  lemma {:induction false} IsoUrbInside(lengths: seq<nat>, i: nat)
    requires i < NumUrbs(|lengths|)
    ensures UrbOf(lengths, i).offset + UrbOf(lengths, i).bufferLength <= Sum(lengths)
    decreases NumUrbs(|lengths|) - i
  {
    IsoUrbsTile(lengths, i);
    if i + 1 < NumUrbs(|lengths|) {
      IsoUrbInside(lengths, i + 1);
    }
  }

  /** Of the transfers the check accepts, those whose every request ends inside the buffer are
      exactly those whose packets add up to less than 2 to the 31. */
  lemma LengthCheckExact(lengths: seq<nat>, bufferLength: nat)
    requires lengths != [] && bufferLength < 0x8000_0000 && LengthAccepted(lengths, bufferLength)
    ensures (forall i: nat :: i < NumUrbs(|lengths|) ==> EndsInside(lengths, i, bufferLength))
            <==> Sum(lengths) < 0x8000_0000
  {
    hide UrbOf, Sum;
    if Sum(lengths) < 0x8000_0000 {
      forall i: nat | i < NumUrbs(|lengths|) ensures EndsInside(lengths, i, bufferLength) {
        IsoUrbInside(lengths, i);
      }
    } else {
      var last := NumUrbs(|lengths|) - 1;
      IsoUrbsTile(lengths, last);
      assert !EndsInside(lengths, last, bufferLength);
    }
  }

  lemma {:induction false} SumSame(n: nat, v: nat)
    ensures Sum(seq(n, _ => v)) == n * v
  {
    if n > 0 {
      SumSame(n - 1, v);
      assert seq(n, _ => v)[..n - 1] == seq(n - 1, _ => v);
      assert n * v == (n - 1) * v + v;
    }
  }

  /** The largest packets Linux takes, 21846 times, are accepted for any buffer. */
  lemma TooManyLargePackets(bufferLength: nat)
    requires bufferLength < 0x8000_0000
    ensures var lengths: seq<nat> := seq(21846, _ => 98304);
            && (forall i :: 0 <= i < |lengths| ==> lengths[i] <= 98304)
            && LengthAccepted(lengths, bufferLength)
            && !EndsInside(lengths, NumUrbs(|lengths|) - 1, bufferLength)
  {
    hide Sum;
    var lengths: seq<nat> := seq(21846, _ => 98304);
    SumSame(21846, 98304);
    assert Sum(lengths) == 2_147_549_184;
    IsoUrbsTile(lengths, NumUrbs(|lengths|) - 1);
  }

  /** Requests that come back in another order leave their results at the wrong packets. */
  lemma SwappedResults()
    ensures !InPlace(256, [1, 0], 0)
  {
    assert [1, 0][..0] == [];
  }
}
