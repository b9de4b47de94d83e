/** The code of the Linux backend for a bulk or interrupt transfer of either direction, on its
    own fields: the array of requests, the counters and the user's buffer.  Each method is
    proved to do exactly what the corresponding step of BulkAccounts says to the books, and
    on an IN transfer what the step of BulkUrbs says to the data. */
module BulkDriver {
  import opened BulkAccounts
  import opened BulkMoves
  import opened BulkSplit
  import opened Sequences
  import opened BulkUrbs

  /** discard_urbs: the last request first; one failure does not stop it. */
  method DiscardUrbs(answers: seq<Answer>) returns (r: CancelResult)
    ensures r == DiscardResult(answers, 0)
  {
    r := Ok;
    var i := |answers|;
    while i > 0
      invariant 0 <= i <= |answers| && r == DiscardResult(answers, i)
    {
      i := i - 1;
      match answers[i] {
        case Discarded =>
        case NotThere =>
          if i == |answers| - 1 {
            r := NotFound;
          }
        case DeviceLost => r := NoDevice;
        case Refused => r := Other;
      }
    }
  }

  class BulkTransfer {
    const setup: Setup
    const buffer: array<Byte>

    var urbs: array?<Urb>
    var numUrbs: nat
    var numRetired: int
    var reapAction: ReapAction
    var reapStatus: Status
    var transferred: nat
    var reports: seq<Report>

    // The environment and the history.
    ghost var submitted: nat
    ghost var reaped: seq<nat>
    ghost var lengths: seq<nat>
    ghost var statuses: seq<UrbStatus>

    constructor (setup: Setup, buffer: array<Byte>)
      requires buffer.Length == setup.length
      ensures this.setup == setup && this.buffer == buffer && urbs == null && reports == []
    {
      this.setup, this.buffer := setup, buffer;
      urbs, numUrbs, numRetired, reapAction, reapStatus, transferred := null, 0, 0, NORMAL, StCompleted, 0;
      reports, submitted, reaped, lengths, statuses := [], 0, [], [], [];
    }

    ghost function Abs(): Books
      reads this
    {
      Books(urbs != null, numRetired, reapAction, reapStatus, transferred,
            submitted, reaped, lengths, statuses, reports)
    }

    /** The requests that the kernel holds or held are those of the split. */
    ghost predicate Shape()
      reads `urbs, `numUrbs, `submitted, urbs
    {
      urbs != null ==>
        && urbs.Length == numUrbs == setup.Count() && submitted <= numUrbs && buffer.Length == setup.length
        && (forall k :: 0 <= k < submitted ==> urbs[k] == UrbAt(setup, k))
        && (urbs as object) != buffer
    }

    /** The capability branches of submit_bulk_transfer and its division. */
    method ChooseSplit() returns (unit: nat, count: nat, continuation: bool, lastPartial: bool)
      ensures unit == setup.Unit() && count == setup.Count() && continuation == UsesContinuation(setup.caps)
      ensures lastPartial <==> setup.length % unit > 0
    {
      if setup.caps.scatterGather {
        unit, continuation := if setup.length > 0 then setup.length else 1, false;
      } else if setup.caps.continuation {
        unit, continuation := MAX_BULK_BUFFER_LENGTH, true;
      } else if setup.caps.noPacketSizeLimit {
        unit, continuation := if setup.length > 0 then setup.length else 1, false;
      } else {
        unit, continuation := MAX_BULK_BUFFER_LENGTH, false;
      }
      UrbCountIs(setup.length, unit);
      lastPartial := false;
      count := setup.length / unit;
      if setup.length == 0 {
        count := 1;
      } else if setup.length % unit > 0 {
        lastPartial := true;
        count := count + 1;
      }
    }

    /** The fields of request i as the submission loop computes them. */
    method FillUrb(i: nat, unit: nat, count: nat, continuation: bool, lastPartial: bool) returns (urb: Urb)
      requires unit == setup.Unit() && count == setup.Count() && continuation == UsesContinuation(setup.caps)
      requires lastPartial <==> setup.length % unit > 0
      requires i < count
      ensures urb == UrbAt(setup, i)
    {
      OffsetIs(unit, i);
      UrbLengthIs(setup.length, unit, i);
      var shortNotOk, continues, zeroPacket := false, false, false;
      if continuation && !setup.isOut && i < count - 1 {
        shortNotOk := true;
      }
      var len;
      if i == count - 1 && lastPartial {
        len := setup.length % unit;
      } else if setup.length == 0 {
        len := 0;
      } else {
        len := unit;
      }
      if i > 0 && continuation {
        continues := true;
      }
      if setup.isOut && i == count - 1 && setup.addZeroPacket {
        zeroPacket := true;
      }
      urb := Urb(i * unit, len, shortNotOk, continues, zeroPacket);
    }

    /** The submission loop: fills and submits requests until the kernel refuses one. */
    method SubmitAll(a: array<Urb>, unit: nat, count: nat, continuation: bool, lastPartial: bool, refuseAt: nat)
      returns (i: nat)
      requires unit == setup.Unit() && count == setup.Count() && continuation == UsesContinuation(setup.caps)
      requires lastPartial <==> setup.length % unit > 0
      requires a.Length == count
      modifies a
      ensures i == if refuseAt < count then refuseAt else count
      ensures forall k :: 0 <= k < i ==> a[k] == UrbAt(setup, k)
    {
      i := 0;
      while i < count
        invariant 0 <= i <= count && i <= refuseAt
        invariant forall k :: 0 <= k < i ==> a[k] == UrbAt(setup, k)
      {
        a[i] := FillUrb(i, unit, count, continuation, lastPartial);
        if i == refuseAt {
          return;
        }
        i := i + 1;
      }
    }

    /** The kernel refused request i: the requests before it, if any, stay submitted, and the
        rest count as retired. */
    method SubmitRefused(i: nat, errno: SubmitErrno, answers: seq<Answer>) returns (r: SubmitResult)
      requires i < numUrbs
      modifies this`urbs, this`reapAction, this`numRetired
      ensures r == if i > 0 then Submitted
                   else if errno == ENODEV then NoDeviceError
                   else if errno == ENOMEM then NoMemError
                   else IoError
      ensures i == 0 ==> urbs == null && numRetired == old(numRetired) && reapAction == old(reapAction)
      ensures i > 0 ==>
                && urbs == old(urbs) && numRetired == old(numRetired) + numUrbs - i
                && reapAction == if errno == EREMOTEIO then COMPLETED_EARLY else SUBMIT_FAILED
    {
      r := if errno == ENODEV then NoDeviceError else if errno == ENOMEM then NoMemError else IoError;
      if i == 0 {
        urbs := null;
        return;
      }
      reapAction := if errno == EREMOTEIO then COMPLETED_EARLY else SUBMIT_FAILED;
      numRetired := numRetired + (numUrbs - i);
      if reapAction != COMPLETED_EARLY {
        var _ := DiscardUrbs(answers);
      }
      r := Submitted;
    }

    /** Allocates the requests, resets the counters and submits the requests; accepted says how
        many the kernel took. */
    method Allocate(refuseAt: nat) returns (accepted: nat)
      modifies this`urbs, this`numUrbs, this`numRetired, this`reapAction, this`reapStatus, this`transferred
      modifies this`submitted, this`reaped, this`lengths, this`statuses
      ensures fresh(urbs) && urbs.Length == numUrbs == setup.Count()
      ensures submitted == accepted == if refuseAt < setup.Count() then refuseAt else setup.Count()
      ensures forall k :: 0 <= k < accepted ==> urbs[k] == UrbAt(setup, k)
      ensures numRetired == 0 && reapAction == NORMAL && reapStatus == StCompleted && transferred == 0
      ensures reaped == [] && lengths == [] && statuses == []
    {
      var unit, count, continuation, lastPartial := ChooseSplit();
      var a := new Urb[count](_ => Urb(0, 0, false, false, false));
      urbs, numUrbs, numRetired, reapAction, reapStatus, transferred := a, count, 0, NORMAL, StCompleted, 0;
      accepted := SubmitAll(a, unit, count, continuation, lastPartial, refuseAt);
      submitted, reaped, lengths, statuses := accepted, [], [], [];
    }

    /** submit_bulk_transfer.  allocOk says whether calloc succeeds; the kernel accepts the
        requests before refuseAt and answers errno to the next; answers are its answers to
        the discards that follow. */
    method Submit(allocOk: bool, refuseAt: nat, errno: SubmitErrno, answers: seq<Answer>) returns (r: SubmitResult)
      requires urbs == null && buffer.Length == setup.length
      modifies this
      ensures r == if !allocOk then NoMemError
                   else if refuseAt > 0 then Submitted
                   else if errno == ENODEV then NoDeviceError
                   else if errno == ENOMEM then NoMemError
                   else IoError
      ensures r == Submitted ==>
                && Abs() == BooksStarted(setup, if refuseAt < setup.Count() then refuseAt else setup.Count(), errno)
                && Shape()
      ensures r != Submitted ==> urbs == null && reports == old(reports)
    {
      hide UrbAt;
      if !allocOk {
        return NoMemError;
      }
      var i := Allocate(refuseAt);
      r := Submitted;
      if i < numUrbs {
        r := SubmitRefused(i, errno, answers);
        if r != Submitted {
          return;
        }
      }
      reports := [];
    }

    /** op_cancel_transfer */
    method Cancel(answers: seq<Answer>) returns (r: CancelResult)
      requires |answers| == numUrbs
      modifies this`reapAction
      ensures Abs() == BooksCancelled(setup, old(Abs()), answers)
      ensures r == if urbs == null then NotFound else DiscardResult(answers, 0)
    {
      if urbs == null {
        return NotFound;
      }
      r := DiscardUrbs(answers);
      if r != Ok {
        return;
      }
      if setup.isInterrupt || reapAction != ERROR {
        reapAction := CANCELLED;
      }
    }

    /** memmove inside the user's buffer */
    method MoveDown(target: nat, source: nat, n: nat)
      requires target + n <= buffer.Length && source + n <= buffer.Length
      modifies buffer
      ensures buffer[..] == Put(old(buffer[..]), target, old(buffer[source..source + n]))
    {
      forall k | 0 <= k < n {
        buffer[target + k] := buffer[source + k];
      }
    }

    /** Data that arrive once the transfer is being torn down close up to the data before. */
    method TakeSurplus(offset: nat, n: nat)
      requires transferred + n <= buffer.Length && offset + n <= buffer.Length
      modifies this`transferred, buffer
      ensures transferred == old(transferred) + n
      ensures buffer[..] == Put(old(buffer[..]), old(transferred), old(buffer[offset..offset + n]))
    {
      if n > 0 {
        if offset != transferred {
          MoveDown(transferred, offset, n);
        } else {
          PutSame(buffer[..], offset, buffer[offset..offset + n]);
        }
        transferred := transferred + n;
      } else {
        PutSame(buffer[..], transferred, []);
      }
    }

    method Complete()
      modifies this`urbs, this`reports
      ensures urbs == null
      ensures reports == old(reports) + [if reapAction == CANCELLED then Cancellation else Completion(reapStatus)]
    {
      urbs := null;
      if reapAction == CANCELLED {
        reports := reports + [Cancellation];
      } else {
        reports := reports + [Completion(reapStatus)];
      }
    }

    /** The reap of a request once the transfer is being torn down. */
    method ReapAbnormal(i: nat, actual: nat)
      requires urbs != null && i < urbs.Length && reapAction != NORMAL
      requires transferred + actual <= buffer.Length && urbs[i].offset + actual <= buffer.Length
      modifies this`transferred, this`reapStatus, this`urbs, this`reports, buffer
      ensures transferred == old(transferred) + actual
      ensures buffer[..] ==
                Put(old(buffer[..]), old(transferred), old(buffer[urbs[i].offset..urbs[i].offset + actual]))
      ensures var last := numRetired == numUrbs;
              && reapStatus == (if last && reapAction != COMPLETED_EARLY && old(reapStatus) == StCompleted then StError
                                else old(reapStatus))
              && urbs == (if last then null else old(urbs))
              && reports == (if last then
                               old(reports) +
                                 [if reapAction == CANCELLED then Cancellation else Completion(reapStatus)]
                             else old(reports))
    {
      TakeSurplus(urbs[i].offset, actual);
      if numRetired == numUrbs {
        if reapAction != COMPLETED_EARLY && reapStatus == StCompleted {
          reapStatus := StError;
        }
        Complete();
      }
    }

    /** What the reap of a request with the given status does in normal mode. */
    method ReapNormal(i: nat, st: UrbStatus, actual: nat, answers: seq<Answer>)
      requires urbs != null && i < urbs.Length && reapAction == NORMAL
      modifies this`transferred, this`reapAction, this`reapStatus, this`urbs, this`reports
      ensures transferred == old(transferred) + actual
      ensures var last := numRetired == numUrbs;
              var ends := last || st == Overflow;
              && reapAction == NextAction(NORMAL, st, actual < old(urbs[i].bufferLength), last)
              && reapStatus == NextStatus(NORMAL, old(reapStatus), st)
              && urbs == (if ends then null else old(urbs))
              && reports == if ends then old(reports) + [Completion(reapStatus)] else old(reports)
    {
      transferred := transferred + actual;
      match st {
        case Success =>
        case RemoteIo =>
        case Unlinked =>
        case DeviceGone =>
          reapStatus := StNoDevice;
        case Pipe =>
          if reapStatus == StCompleted {
            reapStatus := StStall;
          }
        case Overflow =>
          if reapStatus == StCompleted {
            reapStatus := StOverflow;
          }
          Complete();
          return;
        case BusError =>
          reapAction := ERROR;
      }
      if !IsError(st) {
        if numRetired == numUrbs {
          Complete();
          return;
        } else if actual < urbs[i].bufferLength {
          if reapAction == NORMAL {
            reapAction := COMPLETED_EARLY;
          }
        } else {
          return;
        }
      }
      if reapAction == ERROR && reapStatus == StCompleted {
        reapStatus := StError;
      }
      if numRetired == numUrbs {
        Complete();
        return;
      }
      var _ := DiscardUrbs(answers);
    }

    /** handle_bulk_completion once the transfer is being torn down */
    method HandleAbnormal(i: nat, st: UrbStatus, actual: nat)
      requires Shape() && urbs != null && i < submitted && reapAction != NORMAL
      requires transferred + actual <= buffer.Length && setup.Start(i) + actual <= buffer.Length
      modifies this`numRetired, this`reaped, this`lengths, this`transferred, this`reapStatus, this`urbs, this`reports
      modifies buffer
      ensures Abs() == BooksReaped(setup, old(Abs()), i, st, actual)
      ensures buffer[..] ==
                Put(old(buffer[..]), old(transferred), old(buffer[setup.Start(i)..setup.Start(i) + actual]))
      ensures urbs == null || urbs == old(urbs)
    {
      hide Put;
      assert urbs[i] == UrbAt(setup, i);
      numRetired := numRetired + 1;
      reaped, lengths := reaped + [i], lengths + [actual];
      ReapAbnormal(i, actual);
    }

    /** handle_bulk_completion in normal mode; answers are the kernel's answers should the
        rest be discarded. */
    method HandleNormal(i: nat, st: UrbStatus, actual: nat, answers: seq<Answer>)
      requires Shape() && urbs != null && i < submitted && reapAction == NORMAL
      modifies this`numRetired, this`reaped, this`lengths, this`statuses
      modifies this`transferred, this`reapAction, this`reapStatus, this`urbs, this`reports
      ensures Abs() == BooksReaped(setup, old(Abs()), i, st, actual)
      ensures urbs == null || urbs == old(urbs)
    {
      assert urbs[i] == UrbAt(setup, i);
      numRetired := numRetired + 1;
      reaped, lengths, statuses := reaped + [i], lengths + [actual], statuses + [st];
      ReapNormal(i, st, actual, answers);
    }

    /** handle_bulk_completion, whatever the direction; the bytes of the request are moved also
        in the buffer of an OUT transfer. */
    method HandleCompletion(i: nat, st: UrbStatus, actual: nat, answers: seq<Answer>)
      requires Shape() && urbs != null && i < submitted
      requires transferred + actual <= buffer.Length && setup.Start(i) + actual <= buffer.Length
      modifies this, buffer
      ensures Abs() == BooksReaped(setup, old(Abs()), i, st, actual)
      ensures buffer[..] == Moved(setup, old(Abs()), i, actual, old(buffer[..]))
      ensures Shape()
    {
      if reapAction != NORMAL {
        HandleAbnormal(i, st, actual);
      } else {
        HandleNormal(i, st, actual, answers);
      }
    }

    /** The kernel hands request i back with the given status and length; answers are its
        answers should the rest be discarded.  Nothing is assumed about the data. */
    method Reap(i: nat, st: UrbStatus, actual: nat, answers: seq<Answer>)
      requires Shape() && BooksOk(setup.Count(), Abs()) && WithinRoom(setup, Abs())
      requires MayReturn(Abs(), i, st) && actual <= setup.Room(i)
      modifies this, buffer
      ensures Abs() == BooksReaped(setup, old(Abs()), i, st, actual)
      ensures BooksOk(setup.Count(), Abs()) && WithinRoom(setup, Abs()) && Shape()
      ensures setup.Start(i) + actual <= buffer.Length && old(transferred) + actual <= buffer.Length
      ensures buffer[..] == Moved(setup, old(Abs()), i, actual, old(buffer[..]))
    {
      ReapedOk(setup, Abs(), i, st, actual);
      MoveStaysInside(setup, Abs(), i, st, actual);
      HandleCompletion(i, st, actual, answers);
    }

    /** The same on an IN transfer, under what the kernel promises about the data: wire is what
        it brings for each request, delivered for which it has written that to the buffer. */
    method ReapIn(i: nat, st: UrbStatus, actual: nat, answers: seq<Answer>,
                  ghost wire: seq<seq<Byte>>, ghost delivered: set<nat>)
      requires Shape() && Valid(Job(setup, wire), Model(Abs(), buffer[..], delivered))
      requires Returns(Job(setup, wire), Model(Abs(), buffer[..], delivered), i, st) && actual == |wire[i]|
      modifies this, buffer
      ensures i < |wire| && i < setup.Count() && old(transferred) + |wire[i]| <= buffer.Length
      ensures Model(Abs(), buffer[..], delivered) ==
                AfterReap(Job(setup, wire), old(Model(Abs(), buffer[..], delivered)), i, st)
      ensures Shape() && Valid(Job(setup, wire), Model(Abs(), buffer[..], delivered))
    {
      hide Valid, Returns, BooksReaped, Put;
      ReapReady(Job(setup, wire), Model(Abs(), buffer[..], delivered), i, st);
      HandleCompletion(i, st, actual, answers);
    }
  }

  /** The data of a request handed back stand at its offset. */
  lemma StandsEmpty(job: Job, m: Model, i: nat)
    requires Valid(job, m) && i in m.Held() && (i in m.delivered || job.wire[i] == [])
    ensures Stands(m.buffer, job.Start(i), job.wire[i])
  {
    WireApart(job.wire, job.setup.length, job.Unit(), i, i);
  }

  /** In normal mode the data already follow those collected. */
  lemma InPlace(job: Job, m: Model, i: nat, st: UrbStatus)
    requires Valid(job, m) && Returns(job, m, i, st) && m.books.action == NORMAL
    ensures Stands(m.buffer, m.books.transferred, job.wire[i])
  {
    NormalNext(job, m, i, st);
    StandsEmpty(job, m, i);
  }

  /** What the code needs when a request comes back follows from what the kernel promises, and
      what it does to the buffer is what the step on the data says. */
  lemma ReapReady(job: Job, m: Model, i: nat, st: UrbStatus)
    requires Valid(job, m) && Returns(job, m, i, st)
    ensures m.books.live && i < m.books.submitted && i < |job.wire| && i < job.Count()
    ensures m.books.transferred + |job.wire[i]| <= |m.buffer|
    ensures job.Start(i) + |job.wire[i]| <= |m.buffer|
    ensures AfterReap(job, m, i, st).buffer ==
              if m.books.action == NORMAL then m.buffer
              else Put(m.buffer, m.books.transferred, m.buffer[job.Start(i)..job.Start(i) + |job.wire[i]|])
    ensures Valid(job, AfterReap(job, m, i, st))
  {
    AfterReapValid(job, m, i, st);
    HeldCount(job.Count(), m.books);
    StandsEmpty(job, m, i);
    if m.books.action == NORMAL {
      InPlace(job, m, i, st);
      PutSame(m.buffer, m.books.transferred, job.wire[i]);
    }
  }
}
