/** The code of the Linux backend for an isochronous transfer, on its own fields.  Each method
    is proved to do exactly what the corresponding step of IsoUrbs says. */
module IsoDriver {
  import opened BulkSplit
  import opened Integers
  import opened Sequences
  import opened IsoUrbs
  import BulkDriver

  datatype IsoSubmitErrno = IsoENODEV | IsoEINVAL | IsoEMSGSIZE | IsoEOTHER
  datatype IsoSubmitResult = IsoSubmitted | IsoNoDevice | IsoInvalidParam | IsoNoMem | IsoIoError

  class IsoTransfer {
    const lengths: seq<nat>
    const bufferLength: nat
    const packets: array<PacketResult>

    var urbs: seq<IsoUrb>
    var addresses: seq<nat>
    var live: bool
    var numUrbs: nat
    var numRetired: int
    var reapAction: ReapAction
    var packetOffset: nat
    var reports: seq<Report>

    // The environment and the history.
    ghost var submitted: nat
    ghost var reaped: seq<nat>
    ghost var lastStatus: IsoStatus

    constructor (lengths: seq<nat>, bufferLength: nat, packets: array<PacketResult>)
      requires packets.Length == |lengths|
      ensures this.lengths == lengths && this.bufferLength == bufferLength && this.packets == packets
      ensures !live && reports == []
    {
      this.lengths, this.bufferLength, this.packets := lengths, bufferLength, packets;
      urbs, addresses, live, numUrbs, numRetired, reapAction, packetOffset := [], [], false, 0, 0, NORMAL, 0;
      reports, submitted, reaped, lastStatus := [], 0, [], IsoSuccess;
    }

    ghost function Abs(): IsoModel
      reads this, packets
    {
      IsoModel(live, numRetired, reapAction, packetOffset, packets[..], submitted, reaped, lastStatus, reports)
    }

    /** The checks at the start of submit_iso_transfer; the total is kept in 32 bits. */
    method Check(maxPacket: nat) returns (ok: bool)
      ensures ok <==>
                && |lengths| >= 1
                && (forall i :: 0 <= i < |lengths| ==> lengths[i] <= maxPacket)
                && LengthAccepted(lengths, bufferLength)
    {
      if |lengths| < 1 {
        return false;
      }
      var total, i := 0, 0;
      while i < |lengths|
        invariant 0 <= i <= |lengths|
        invariant forall k :: 0 <= k < i ==> lengths[k] <= maxPacket
        invariant total == Sum(lengths[..i]) % 0x1_0000_0000
      {
        if lengths[i] > maxPacket {
          return false;
        }
        assert lengths[..i + 1][..i] == lengths[..i];
        total := (total + lengths[i]) % 0x1_0000_0000;
        i := i + 1;
      }
      assert lengths[..|lengths|] == lengths;
      return !(bufferLength < ToInt(total));
    }

    /** The loop that allocates and fills the requests; the first allocOk allocations
        succeed. */
    method Fill(count: nat, allocOk: nat) returns (ok: bool, filled: seq<IsoUrb>)
      requires count == NumUrbs(|lengths|)
      ensures ok <==> allocOk >= count
      ensures ok ==> |filled| == count && forall i :: 0 <= i < count ==> filled[i] == UrbOf(lengths, i)
    {
      hide UrbOf;
      filled := [];
      var remaining, i, j, at := |lengths|, 0, 0, 0;
      while i < count
        invariant 0 <= i <= count && i <= allocOk && |filled| == i
        invariant j == (if i < count then i * MAX_ISO_PACKETS_PER_URB else |lengths|) && remaining == |lengths| - j
        invariant at == Sum(lengths[..j])
        invariant forall k :: 0 <= k < i ==> filled[k] == UrbOf(lengths, k)
      {
        if i == allocOk {
          return false, filled;
        }
        var urb, n := FillOne(i, j, remaining, at);
        filled := filled + [urb];
        at := at + urb.bufferLength;
        remaining := remaining - n;
        j := j + n;
        i := i + 1;
      }
      return true, filled;
    }

    /** The body of the loop for request i, which starts with packet j at offset at; n is the
        number of its packets. */
    method FillOne(i: nat, j: nat, remaining: nat, at: nat) returns (urb: IsoUrb, n: nat)
      requires i < NumUrbs(|lengths|) && j == i * MAX_ISO_PACKETS_PER_URB <= |lengths|
      requires remaining == |lengths| - j && at == Sum(lengths[..j])
      ensures n == PacketsIn(|lengths|, i) && urb == UrbOf(lengths, i)
      ensures j + n <= |lengths| && at + urb.bufferLength == Sum(lengths[..j + n])
    {
      hide UrbOf, Sum;
      n := if remaining < MAX_ISO_PACKETS_PER_URB then remaining else MAX_ISO_PACKETS_PER_URB;
      assert n == PacketsIn(|lengths|, i);
      UrbOfIs(lengths, i, j);
      var len, part := FillPackets(j, n);
      urb := IsoUrb(at, len, part);
      SumSplit(lengths[..j], lengths[j..j + n]);
      assert lengths[..j] + lengths[j..j + n] == lengths[..j + n];
    }

    /** The packet lengths of one request. */
    method FillPackets(j: nat, n: nat) returns (len: nat, part: seq<nat>)
      requires j + n <= |lengths|
      ensures part == lengths[j..j + n] && len == Sum(part)
    {
      len, part := 0, [];
      var k := 0;
      while k < n
        invariant 0 <= k <= n && part == lengths[j..j + k] && len == Sum(part)
      {
        assert (part + [lengths[j + k]])[..|part|] == part;
        len := len + lengths[j + k];
        part := part + [lengths[j + k]];
        k := k + 1;
      }
    }

    /** submit_iso_transfer; tableOk says whether the table of requests is allocated, blocks are
        the addresses of the requests that are, and the kernel refuses request refuseAt. */
    method Submit(maxPacket: nat, tableOk: bool, blocks: seq<nat>, refuseAt: nat, errno: IsoSubmitErrno,
                  answers: seq<Answer>)
      returns (r: IsoSubmitResult)
      requires !live && Distinct(blocks)
      modifies this
      ensures r == IsoSubmitted ==> Shape()
      ensures r == IsoSubmitted ==>
                Abs() == IsoStarted(|lengths|, old(packets[..]), if refuseAt < numUrbs then refuseAt else numUrbs)
      ensures r == IsoSubmitted ==> addresses <= blocks
      ensures r != IsoSubmitted ==> !live && reports == old(reports)
      ensures r == IsoSubmitted <==>
                && |lengths| >= 1 && (forall i :: 0 <= i < |lengths| ==> lengths[i] <= maxPacket)
                && LengthAccepted(lengths, bufferLength)
                && tableOk && |blocks| >= NumUrbs(|lengths|) && refuseAt > 0
    {
      var ok := Check(maxPacket);
      if !ok {
        return IsoInvalidParam;
      }
      var count := (|lengths| + (MAX_ISO_PACKETS_PER_URB - 1)) / MAX_ISO_PACKETS_PER_URB;
      if !tableOk {
        return IsoNoMem;
      }
      var filled;
      ok, filled := Fill(count, |blocks|);
      if !ok {
        return IsoNoMem;
      }
      urbs, addresses, numUrbs, numRetired, reapAction, packetOffset := filled, blocks[..count], count, 0, NORMAL, 0;
      r := SubmitAll(refuseAt, errno, answers);
    }

    /** The requests are those of the split, each at an address of its own. */
    ghost predicate Shape()
      reads this
    {
      && |lengths| >= 1 && numUrbs == NumUrbs(|lengths|) == |urbs| == |addresses| && Distinct(addresses)
      && forall i :: 0 <= i < numUrbs ==> urbs[i] == UrbOf(lengths, i)
    }

    /** The submission loop of submit_iso_transfer. */
    method SubmitAll(refuseAt: nat, errno: IsoSubmitErrno, answers: seq<Answer>) returns (r: IsoSubmitResult)
      requires numUrbs >= 1 && numUrbs == NumUrbs(|lengths|) && numRetired == 0
               && reapAction == NORMAL && packetOffset == 0
      requires !live
      modifies `live, `reapAction, `numRetired, `reports, `submitted, `reaped, `lastStatus
      ensures r == IsoSubmitted <==> refuseAt > 0
      ensures r == IsoSubmitted ==>
                Abs() == IsoStarted(|lengths|, packets[..], if refuseAt < numUrbs then refuseAt else numUrbs)
      ensures r != IsoSubmitted ==> !live && reports == old(reports)
    {
      live := true;
      var i := 0;
      while i < numUrbs
        invariant 0 <= i <= numUrbs && i <= refuseAt
        invariant live && reapAction == NORMAL && numRetired == 0 && reports == old(reports)
      {
        if i == refuseAt {
          break;
        }
        i := i + 1;
      }
      submitted, reaped, lastStatus := i, [], IsoSuccess;
      if i == numUrbs {
        reports := [];
        return IsoSubmitted;
      }
      if i == 0 {
        live := false;
        match errno {
          case IsoENODEV => return IsoNoDevice;
          case IsoEINVAL => return IsoInvalidParam;
          case IsoEMSGSIZE => return IsoInvalidParam;
          case IsoEOTHER => return IsoIoError;
        }
      }
      reports := [];
      reapAction := SUBMIT_FAILED;
      numRetired := numUrbs - i;
      var _ := BulkDriver.DiscardUrbs(answers);
      return IsoSubmitted;
    }

    /** op_cancel_transfer */
    method Cancel(answers: seq<Answer>) returns (r: CancelResult)
      modifies `reapAction
      ensures Abs() == IsoAfterCancel(old(Abs()), answers)
      ensures r == if live then DiscardResult(answers, 0) else NotFound
    {
      if !live {
        return NotFound;
      }
      r := BulkDriver.DiscardUrbs(answers);
      if r == Ok {
        reapAction := CANCELLED;
      }
    }

    /** Copies the outcomes of the packets of one request into the user's descriptors. */
    method CopyResults(outcomes: seq<PacketOutcome>)
      requires packetOffset + |outcomes| <= packets.Length
      modifies `packetOffset, packets
      ensures packetOffset == old(packetOffset) + |outcomes|
      ensures packets[..] == Written(old(packets[..]), old(packetOffset), outcomes)
    {
      var i := 0;
      while i < |outcomes|
        invariant 0 <= i <= |outcomes| && packetOffset == old(packetOffset) + i
        invariant forall k :: 0 <= k < i ==> packets[old(packetOffset) + k] == ResultOf(outcomes[k])
        invariant forall k :: 0 <= k < packets.Length && !(old(packetOffset) <= k < old(packetOffset) + i) ==>
                    packets[k] == old(packets[k])
      {
        var status := StCompleted;
        match outcomes[i].status {
          case PkSuccess =>
          case PkUnlinked =>
          case PkGone => status := StNoDevice;
          case PkStall => status := StStall;
          case PkOverflow => status := StOverflow;
          case PkError => status := StError;
        }
        packets[packetOffset] := PacketResult(status, outcomes[i].actualLength);
        packetOffset := packetOffset + 1;
        i := i + 1;
      }
    }

    /** The loop that looks for the request the kernel handed back. */
    method FindUrb(urb: nat) returns (idx: nat)
      requires Shape()
      ensures idx == 0 <==> urb !in addresses
      ensures idx > 0 ==> idx <= numUrbs && addresses[idx - 1] == urb
    {
      idx := 0;
      var i := 0;
      while i < numUrbs
        invariant 0 <= i <= numUrbs && urb !in addresses[..i]
      {
        if urb == addresses[i] {
          return i + 1;
        }
        i := i + 1;
      }
    }

    /** handle_iso_completion for a request of the transfer, once it is found. */
    method HandleCompletion(ghost i: nat, st: IsoStatus, outcomes: seq<PacketOutcome>)
      requires live && numUrbs == NumUrbs(|lengths|) && packetOffset + |outcomes| <= packets.Length
      requires reapAction == NORMAL || reapAction == SUBMIT_FAILED || reapAction == CANCELLED
      modifies `packetOffset, `numRetired, `live, `reports, `reaped, `lastStatus, packets
      ensures Abs() == IsoAfterReap(|lengths|, old(Abs()), i, st, outcomes)
    {
      CopyResults(outcomes);
      numRetired := numRetired + 1;
      reaped, lastStatus := reaped + [i], st;
      if reapAction != NORMAL {
        if numRetired == numUrbs {
          live := false;
          if reapAction == CANCELLED {
            reports := reports + [Cancellation];
          } else {
            reports := reports + [Completion(StError)];
          }
        }
        return;
      }
      var status := StCompleted;
      match st {
        case IsoSuccess =>
        case IsoUnlinked =>
        case IsoShutdown => status := StNoDevice;
        case IsoOther => status := StError;
      }
      if numRetired == numUrbs {
        live := false;
        reports := reports + [Completion(status)];
      }
    }

    /** handle_iso_completion.  A request that is not the transfer's is an error and changes
        nothing; of the others the kernel hands back those it holds. */
    method Reap(urb: nat, st: IsoStatus, outcomes: seq<PacketOutcome>) returns (found: bool)
      requires live && Shape() && IsoValid(|lengths|, Abs())
      requires forall i :: 0 <= i < numUrbs && addresses[i] == urb ==> IsoReturns(|lengths|, Abs(), i, outcomes)
      modifies `packetOffset, `numRetired, `live, `reports, `reaped, `lastStatus, packets
      ensures found <==> urb in addresses
      ensures !found ==> Abs() == old(Abs())
      ensures IsoValid(|lengths|, Abs())
      ensures forall i :: 0 <= i < numUrbs && addresses[i] == urb ==>
                && old(packetOffset) + |outcomes| <= packets.Length
                && Abs() == IsoAfterReap(|lengths|, old(Abs()), i, st, outcomes)
    {
      hide IsoAfterReap, Written;
      var idx := FindUrb(urb);
      if idx == 0 {
        return false;
      }
      OnlyAddress(addresses, idx - 1);
      IsoReapValid(|lengths|, Abs(), idx - 1, st, outcomes);
      HandleCompletion(idx - 1, st, outcomes);
      return true;
    }
  }

  lemma OnlyAddress(addresses: seq<nat>, k: nat)
    requires Distinct(addresses) && k < |addresses|
    ensures forall i :: 0 <= i < |addresses| && addresses[i] == addresses[k] ==> i == k
  {
  }
}
