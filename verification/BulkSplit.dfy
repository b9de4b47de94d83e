/** How the Linux backend cuts a bulk or interrupt transfer into requests (URBs), and what the
    statuses of the requests and the kernel's answers to a discard amount to. */
module BulkSplit {
  const MAX_BULK_BUFFER_LENGTH: nat := 16384

  /** The usbfs capabilities that decide the split. */
  datatype Caps = Caps(scatterGather: bool, continuation: bool, noPacketSizeLimit: bool)

  datatype ReapAction = NORMAL | SUBMIT_FAILED | CANCELLED | COMPLETED_EARLY | ERROR
  datatype Status = StCompleted | StError | StStall | StNoDevice | StOverflow
  datatype Report = Completion(status: Status) | Cancellation

  /** The status of a reaped request, by the cases of handle_bulk_completion. */
  datatype UrbStatus = Success | RemoteIo | Unlinked | DeviceGone | Pipe | Overflow | BusError

  /** What IOCTL_USBFS_DISCARDURB answers: done, EINVAL, ENODEV or another errno. */
  datatype Answer = Discarded | NotThere | DeviceLost | Refused
  datatype CancelResult = Ok | NotFound | NoDevice | Other

  datatype SubmitErrno = ENODEV | ENOMEM | EREMOTEIO | EOTHER
  datatype SubmitResult = Submitted | NoDeviceError | NoMemError | IoError

  /** A request: where its part of the buffer starts, how long it is, and its flags. */
  datatype Urb = Urb(offset: nat, bufferLength: nat, shortNotOk: bool, continues: bool, zeroPacket: bool)

  /** What a transfer asks for, and the kernel's capabilities: isOut is the direction,
      addZeroPacket the user's flag of that name. */
  datatype Setup = Setup(caps: Caps, length: nat, isInterrupt: bool, isOut: bool, addZeroPacket: bool) {
    function Unit(): (n: nat)
      ensures n > 0
    {
      BulkBufferLength(caps, length)
    }

    function Count(): nat {
      UrbCount(length, Unit())
    }

    function Start(i: nat): nat {
      Offset(Unit(), i)
    }

    /** The length of request i. */
    function Room(i: nat): nat
      requires i < Count()
    {
      UrbLength(length, Unit(), i)
    }
  }

  // ----- The split -----

  function UsesContinuation(caps: Caps): bool {
    !caps.scatterGather && caps.continuation
  }

  function BulkBufferLength(caps: Caps, length: nat): (n: nat)
    ensures n > 0
  {
    if caps.scatterGather || (!caps.continuation && caps.noPacketSizeLimit)
    then (if length > 0 then length else 1)
    else MAX_BULK_BUFFER_LENGTH
  }

  /** A request takes up to n bytes; what is left goes to the next ones. */
  function UrbCount(length: nat, n: nat): (count: nat)
    requires n > 0
    ensures count > 0
  {
    if length <= n then 1 else 1 + UrbCount(length - n, n)
  }

  function UrbLength(length: nat, n: nat, i: nat): (r: nat)
    requires n > 0 && i < UrbCount(length, n)
    ensures r <= n
  {
    if i == 0 then (if length < n then length else n) else UrbLength(length - n, n, i - 1)
  }

  /** The code's own counting by division agrees. */
  lemma {:induction false} UrbCountIs(length: nat, n: nat)
    requires n > 0
    ensures UrbCount(length, n) == if length == 0 then 1 else length / n + (if length % n > 0 then 1 else 0)
  {
    if length > n {
      UrbCountIs(length - n, n);
      DropOne(length, n);
    } else if length == n {
      assert length / n == 1 && length % n == 0;
    } else if length > 0 {
      assert length / n == 0 && length % n == length;
    }
  }

  lemma DropOne(length: nat, n: nat)
    requires length >= n > 0
    ensures (length - n) / n == length / n - 1 && (length - n) % n == length % n
  {
    var q, r := length / n, length % n;
    assert length == q * n + r;
    assert length - n == (q - 1) * n + r;
    DivModUnique(length - n, n, q - 1, r);
  }

  lemma DivModUnique(a: int, n: int, q: int, r: int)
    requires n > 0 && a == q * n + r && 0 <= r < n
    ensures a / n == q && a % n == r
  {
    var d := a / n - q;
    assert a == a / n * n + a % n;
    assert d * n == r - a % n;
    assert d > 0 ==> d * n >= n;
    assert d < 0 ==> d * n <= -n;
  }

  /** And so does its choice of the length of each request. */
  lemma {:induction false} UrbLengthIs(length: nat, n: nat, i: nat)
    requires n > 0 && i < UrbCount(length, n)
    ensures UrbLength(length, n, i) ==
              if i == UrbCount(length, n) - 1 && length % n > 0 then length % n
              else if length == 0 then 0
              else n
  {
    if i > 0 {
      UrbLengthIs(length - n, n, i - 1);
      DropOne(length, n);
    } else if length < n {
      assert length % n == length;
    } else if length == n {
      assert length % n == 0;
    }
  }

  /** Where request i starts: i times n. */
  function Offset(n: nat, i: nat): nat {
    if i == 0 then 0 else Offset(n, i - 1) + n
  }

  lemma {:induction false} OffsetIs(n: nat, i: nat)
    ensures Offset(n, i) == i * n
  {
    if i > 0 {
      OffsetIs(n, i - 1);
      assert i * n == (i - 1) * n + n;
    }
  }

  function UrbAt(setup: Setup, i: nat): Urb
    requires i < setup.Count()
  {
    var continuation := UsesContinuation(setup.caps);
    Urb(setup.Start(i), setup.Room(i),
        continuation && !setup.isOut && i + 1 < setup.Count(),
        i > 0 && continuation,
        setup.isOut && i + 1 == setup.Count() && setup.addZeroPacket)
  }

  /** The requests tile the buffer: each starts where the one before ends, and the last
      ends at its end. */
  lemma {:induction false} UrbsTile(length: nat, n: nat, i: nat)
    requires n > 0 && i < UrbCount(length, n)
    ensures Offset(n, i) + UrbLength(length, n, i) == if i + 1 < UrbCount(length, n) then Offset(n, i + 1) else length
    ensures length > 0 ==> 0 < UrbLength(length, n, i)
  {
    if i > 0 {
      UrbsTile(length - n, n, i - 1);
    } else if length > n {
      assert Offset(n, 1) == n;
    }
  }

  lemma {:induction false} UrbInside(length: nat, n: nat, i: nat)
    requires n > 0 && i < UrbCount(length, n)
    ensures Offset(n, i) + UrbLength(length, n, i) <= length
    decreases UrbCount(length, n) - i
  {
    UrbsTile(length, n, i);
    if i + 1 < UrbCount(length, n) {
      UrbInside(length, n, i + 1);
    }
  }

  /** A request ends before a later one starts. */
  lemma {:induction false} UrbsApart(length: nat, n: nat, i: nat, j: nat)
    requires n > 0 && i < j < UrbCount(length, n)
    ensures Offset(n, i) + UrbLength(length, n, i) <= Offset(n, j)
  {
    UrbsTile(length, n, j - 1);
    if i < j - 1 {
      UrbsApart(length, n, i, j - 1);
    }
  }

  /** Without scatter-gather, transfers are cut into pieces of 16384 bytes, unless the kernel has
      no limit and does not offer to chain requests; and all others stay whole. */
  lemma SplitMeans(setup: Setup)
    ensures var whole := setup.caps.scatterGather || (!setup.caps.continuation && setup.caps.noPacketSizeLimit);
            setup.Count() == if whole || setup.length == 0 then 1 else (setup.length + 16383) / 16384
  {
    UrbCountIs(setup.length, setup.Unit());
    if setup.length > 0 && setup.Unit() == 16384 {
      var q, r := setup.length / 16384, setup.length % 16384;
      assert (setup.length + 16383) / 16384 == if r == 0 then q else q + 1;
    }
  }

  /** What each request is: its piece of the buffer, and whether it may come back short, goes on
      with the one before, or is to end with an empty packet. */
  lemma RequestMeans(setup: Setup, i: nat)
    requires i < setup.Count()
    ensures var u, last := UrbAt(setup, i), i + 1 == setup.Count();
            var chained := !setup.caps.scatterGather && setup.caps.continuation;
            && u.offset == 16384 * i
            && u.bufferLength == (if last then setup.length - 16384 * i else 16384)
            && (u.shortNotOk <==> chained && !setup.isOut && !last)
            && (u.continues <==> chained && i > 0)
            && (u.zeroPacket <==> setup.isOut && setup.addZeroPacket && last)
  {
    OffsetIs(setup.Unit(), i);
    UrbCountIs(setup.length, setup.Unit());
    UrbLengthIs(setup.length, setup.Unit(), i);
    UrbsTile(setup.length, setup.Unit(), i);
    if setup.Unit() != 16384 {
      assert setup.Count() == 1;
    }
  }

  // ----- What the statuses of the requests amount to -----

  predicate IsError(st: UrbStatus) {
    st == DeviceGone || st == Pipe || st == Overflow || st == BusError
  }

  function ErrorClass(st: UrbStatus): Status
    requires IsError(st)
  {
    match st
    case DeviceGone => StNoDevice
    case Pipe => StStall
    case Overflow => StOverflow
    case BusError => StError
  }

  /** The status earned by the requests reaped before anything abnormal happened. */
  function Verdict(statuses: seq<UrbStatus>): Status {
    if statuses == [] then StCompleted
    else
      var before, last := Verdict(statuses[..|statuses| - 1]), statuses[|statuses| - 1];
      if !IsError(last) then before
      else if last == DeviceGone || before == StCompleted then ErrorClass(last)
      else before
  }

  /** No error: the request is done, came back short or was discarded. */
  predicate NoErrors(statuses: seq<UrbStatus>) {
    forall i :: 0 <= i < |statuses| ==>
      statuses[i] == Success || statuses[i] == RemoteIo || statuses[i] == Unlinked
  }

  /** The first request in error, if there is one, has status st. */
  ghost predicate FirstError(statuses: seq<UrbStatus>, st: UrbStatus) {
    exists i :: 0 <= i < |statuses| && statuses[i] == st && NoErrors(statuses[..i])
  }

  /** A verdict of completion means no request had an error, and one of no device that some
      request found the device gone; any other is that of the first request in error: a stall,
      an overflow, or an error of the bus. */
  lemma {:induction false} VerdictMeaning(statuses: seq<UrbStatus>)
    ensures Verdict(statuses) == StCompleted <==> NoErrors(statuses)
    ensures Verdict(statuses) == StNoDevice <==> DeviceGone in statuses
    ensures Verdict(statuses) == StStall <==> DeviceGone !in statuses && FirstError(statuses, Pipe)
    ensures Verdict(statuses) == StOverflow <==> DeviceGone !in statuses && FirstError(statuses, Overflow)
    ensures Verdict(statuses) == StError <==> DeviceGone !in statuses && FirstError(statuses, BusError)
  {
    if statuses != [] {
      hide FirstError;
      var init, last := statuses[..|statuses| - 1], statuses[|statuses| - 1];
      assert statuses == init + [last];
      VerdictMeaning(init);
      NoErrorsMore(init, last);
      FirstErrorMore(init, last, Pipe);
      FirstErrorMore(init, last, Overflow);
      FirstErrorMore(init, last, BusError);
    } else {
      assert forall st :: !FirstError(statuses, st);
    }
  }

  lemma NoErrorsMore(init: seq<UrbStatus>, last: UrbStatus)
    ensures NoErrors(init + [last]) <==> NoErrors(init) && (last == Success || last == RemoteIo || last == Unlinked)
  {
    assert (init + [last])[|init|] == last;
    assert forall i :: 0 <= i < |init| ==> (init + [last])[i] == init[i];
  }

  lemma FirstErrorMore(init: seq<UrbStatus>, last: UrbStatus, st: UrbStatus)
    requires st == Pipe || st == Overflow || st == BusError
    ensures FirstError(init + [last], st) <==> FirstError(init, st) || (NoErrors(init) && last == st)
  {
    var all := init + [last];
    if FirstError(init, st) {
      var i :| 0 <= i < |init| && init[i] == st && NoErrors(init[..i]);
      assert all[i] == st && all[..i] == init[..i];
    }
    if NoErrors(init) && last == st {
      assert all[|init|] == st && all[..|init|] == init;
    }
    if FirstError(all, st) {
      var i :| 0 <= i < |all| && all[i] == st && NoErrors(all[..i]);
      assert i < |init| ==> init[i] == st && init[..i] == all[..i];
      assert all[..|init|] == init;
    }
  }

  /** The report that must follow: the verdict, except that a transfer cancelled reports
      so, and one torn down without an error of its own reports an error. */
  function FinalReport(action: ReapAction, statuses: seq<UrbStatus>): Report {
    if action == CANCELLED then Cancellation
    else if (action == SUBMIT_FAILED || action == ERROR) && Verdict(statuses) == StCompleted then Completion(StError)
    else Completion(Verdict(statuses))
  }

  /** What discard_urbs returns after the requests from i up: each failure overrides those
      at higher numbers, and EINVAL is one only for the request with the highest number. */
  function DiscardResult(answers: seq<Answer>, i: nat): CancelResult
    requires i <= |answers|
    decreases |answers| - i
  {
    if i == |answers| then Ok
    else
      match answers[i]
      case Discarded => DiscardResult(answers, i + 1)
      case NotThere => if i == |answers| - 1 then NotFound else DiscardResult(answers, i + 1)
      case DeviceLost => NoDevice
      case Refused => Other
  }

  /** A cancel succeeds exactly when every request was discarded or had already come back,
      and the last one was discarded. */
  lemma {:induction false} DiscardOk(answers: seq<Answer>, i: nat)
    requires i <= |answers|
    ensures DiscardResult(answers, i) == Ok <==>
              forall k :: i <= k < |answers| ==>
                answers[k] == Discarded || (answers[k] == NotThere && k != |answers| - 1)
    decreases |answers| - i
  {
    if i < |answers| {
      DiscardOk(answers, i + 1);
    }
  }

  /** The answer to the discard of request k is a failure. */
  predicate Fails(answers: seq<Answer>, k: nat)
    requires k < |answers|
  {
    answers[k] == DeviceLost || answers[k] == Refused || (answers[k] == NotThere && k == |answers| - 1)
  }

  predicate NoneFails(answers: seq<Answer>, i: nat, k: nat)
    requires k <= |answers|
  {
    forall j :: i <= j < k ==> !Fails(answers, j)
  }

  /** Of the requests from i up, the one with the lowest number to fail does so with a. */
  ghost predicate FirstToFail(answers: seq<Answer>, i: nat, a: Answer) {
    exists k :: i <= k < |answers| && Fails(answers, k) && answers[k] == a && NoneFails(answers, i, k)
  }

  /** A cancel that fails does so for the failure at the lowest number. */
  lemma {:induction false} DiscardMeans(answers: seq<Answer>, i: nat)
    requires i <= |answers|
    ensures DiscardResult(answers, i) == NoDevice <==> FirstToFail(answers, i, DeviceLost)
    ensures DiscardResult(answers, i) == Other <==> FirstToFail(answers, i, Refused)
    ensures DiscardResult(answers, i) == NotFound <==> FirstToFail(answers, i, NotThere)
    decreases |answers| - i
  {
    if i < |answers| {
      hide FirstToFail;
      DiscardMeans(answers, i + 1);
      FirstToFailHere(answers, i, DeviceLost);
      FirstToFailHere(answers, i, Refused);
      FirstToFailHere(answers, i, NotThere);
    } else {
      assert forall a :: !FirstToFail(answers, i, a);
    }
  }

  lemma FirstToFailHere(answers: seq<Answer>, i: nat, a: Answer)
    requires i < |answers|
    ensures FirstToFail(answers, i, a)
            <==> if Fails(answers, i) then answers[i] == a else FirstToFail(answers, i + 1, a)
  {
    assert NoneFails(answers, i, i);
    if !Fails(answers, i) && FirstToFail(answers, i + 1, a) {
      var k :| i + 1 <= k < |answers| && Fails(answers, k) && answers[k] == a && NoneFails(answers, i + 1, k);
      assert NoneFails(answers, i, k);
    }
  }

  /** How a reap changes reap_action; shortUrb says that the request brought less than it
      had room for, last that it was the last one outstanding. */
  function NextAction(action: ReapAction, st: UrbStatus, shortUrb: bool, last: bool): ReapAction {
    if action != NORMAL then action
    else if st == BusError then ERROR
    else if !IsError(st) && !last && shortUrb then COMPLETED_EARLY
    else NORMAL
  }

  /** The status a reap leaves in reap_status. */
  function NextStatus(action: ReapAction, status: Status, st: UrbStatus): Status {
    if action != NORMAL || !IsError(st) then status
    else if st == DeviceGone || status == StCompleted then ErrorClass(st)
    else status
  }

  lemma VerdictNext(statuses: seq<UrbStatus>, st: UrbStatus)
    ensures Verdict(statuses + [st]) == NextStatus(NORMAL, Verdict(statuses), st)
    ensures st == BusError ==> Verdict(statuses + [st]) != StCompleted
  {
    assert (statuses + [st])[..|statuses|] == statuses;
  }

  /** The total of the lengths. */
  function Sum(lengths: seq<nat>): nat {
    if lengths == [] then 0 else Sum(lengths[..|lengths| - 1]) + lengths[|lengths| - 1]
  }
}
