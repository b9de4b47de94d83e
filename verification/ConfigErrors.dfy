/** When the configuration parser accepts its bytes, and where it ends: one descriptor after the
    other, by the place in the tree where it is read. */
module ConfigErrors {
  import opened Descriptors
  import opened ConfigProofs

  /** What is read at the cursor.  left is the number of announced interfaces behind the one
      being read; number is that of its settings, -1 before the first; endpoints is the number
      of announced endpoints not yet read; from is where the skipping of unknown descriptors
      began. */
  datatype Place =
    | AtInterface(left: nat, from: nat)
    | AtSetting(left: nat, number: int)
    | BehindSetting(left: nat, number: int, endpoints: nat, from: nat)
    | AtEndpoint(left: nat, number: int, endpoints: nat)
    | BehindEndpoint(left: nat, number: int, endpoints: nat, from: nat)
    | AfterSetting(left: nat, number: int)

  datatype Cursor = Cursor(p: nat, place: Place)

  predicate Within(b: seq<Byte>, c: Cursor) {
    c.p <= |b|
  }

  /** Descriptors of unknown type are skipped at this place. */
  predicate Skips(place: Place) {
    (place.AtInterface? && place.left > 0) || place.BehindSetting? || place.BehindEndpoint?
  }

  /** The bytes at the cursor cannot be accepted: where descriptors are skipped, one of less
      than two bytes; a setting of less than nine bytes, or a whole one with more than 32
      endpoints; an announced endpoint of less than seven bytes, or less than two bytes where
      it should start. */
  predicate Faulty(b: seq<Byte>, c: Cursor)
    requires Within(b, c)
  {
    var left := |b| - c.p;
    || (Skips(c.place) && left >= 2 && b[c.p] < 2)
    || (c.place.AtSetting? && left >= 9 && b[c.p + 1] == 4 && (b[c.p] < 9 || (b[c.p] <= left && b[c.p + 4] > 32)))
    || (c.place.AtEndpoint? && c.place.endpoints > 0 && (left < 2 || (b[c.p + 1] == 5 && b[c.p] < 7)))
  }

  /** The descriptor at the cursor is cut off by the end of the bytes. */
  predicate CutShort(b: seq<Byte>, p: nat)
    requires p < |b|
  {
    b[p] > |b| - p
  }

  /** Nothing is skipped at p: the end, or a whole descriptor of a configuration, an interface,
      an endpoint or a device. */
  predicate SkippedAll(b: seq<Byte>, p: nat)
    requires p <= |b|
  {
    || |b| - p < 2
    || (2 <= b[p] && !CutShort(b, p) && (b[p + 1] == 1 || b[p + 1] == 2 || b[p + 1] == 4 || b[p + 1] == 5))
  }

  datatype Move = Go(to: Cursor) | Halt

  /** Where reading goes on, if nothing is at fault. */
  function Next(b: seq<Byte>, c: Cursor): (m: Move)
    requires Within(b, c) && !Faulty(b, c)
    ensures m.Go? ==> c.p <= m.to.p <= |b|
    ensures m.Go? && m.to.p == c.p ==> m.to.place.left <= c.place.left
    ensures m.Go? && m.to.p == c.p && m.to.place.left == c.place.left ==> Depth(m.to.place) < Depth(c.place)
  {
    var p := c.p;
    match c.place
    case AtInterface(left, from) =>
      if left == 0 then Halt
      else if SkippedAll(b, p) then Go(Cursor(p, AtSetting(left - 1, -1)))
      else if CutShort(b, p) then Halt
      else Go(Cursor(p + b[p], c.place))
    case AtSetting(left, number) =>
      if |b| - p >= 9 && b[p + 1] == 4 && !CutShort(b, p) then
        var n := if number == -1 then b[p + 2] else number;
        Go(Cursor(p + b[p], BehindSetting(left, n, b[p + 4], p + b[p])))
      else if number == -1 then Halt
      else Go(Cursor(p, AtInterface(left, p)))
    case BehindSetting(left, number, endpoints, from) =>
      if SkippedAll(b, p) then Go(Cursor(p, AtEndpoint(left, number, endpoints)))
      else if CutShort(b, p) then Go(Cursor(p, AtInterface(left, p)))
      else Go(Cursor(p + b[p], c.place))
    case AtEndpoint(left, number, endpoints) =>
      if endpoints > 0 && b[p + 1] == 5 && !CutShort(b, p) then
        Go(Cursor(p + b[p], BehindEndpoint(left, number, endpoints - 1, p + b[p])))
      else Go(Cursor(p, AfterSetting(left, number)))
    case BehindEndpoint(left, number, endpoints, from) =>
      if SkippedAll(b, p) || CutShort(b, p) then Go(Cursor(p, AtEndpoint(left, number, endpoints)))
      else Go(Cursor(p + b[p], c.place))
    case AfterSetting(left, number) =>
      if |b| - p >= 9 && b[p + 1] == 4 && b[p + 2] == number then Go(Cursor(p, AtSetting(left, number)))
      else Go(Cursor(p, AtInterface(left, p)))
  }

  function Depth(place: Place): nat {
    match place
    case AtInterface(_, _) => 0
    case AtSetting(_, _) => 1
    case AfterSetting(_, _) => 2
    case AtEndpoint(_, _, _) => 3
    case _ => 4
  }

  /** The memory asked for at the cursor: for a setting; for what was skipped; and for the
      endpoints, once a setting's own unknown descriptors are skipped. */
  predicate Granted(b: seq<Byte>, c: Cursor, mem: Memory)
    requires Within(b, c)
  {
    var left := |b| - c.p;
    match c.place
    case AtSetting(_, _) => left >= 9 ==> mem(ForAltSettings, left)
    case AtInterface(n, from) => n > 0 && SkippedAll(b, c.p) && c.p > from ==> mem(ForConfigExtra, left)
    case BehindSetting(_, _, endpoints, from) =>
      SkippedAll(b, c.p) ==>
        (c.p > from ==> mem(ForInterfaceExtra, left)) && (endpoints > 0 ==> mem(ForEndpoints, left))
    case BehindEndpoint(_, _, _, from) => SkippedAll(b, c.p) && c.p > from ==> mem(ForEndpointExtra, left)
    case _ => true
  }

  datatype Outcome = Failed(error: Error) | End(at: nat)

  /** Reading to the end: up to the first fault or the first failing allocation. */
  function Read(b: seq<Byte>, c: Cursor, mem: Memory): Outcome
    requires Within(b, c)
    decreases |b| - c.p, c.place.left, Depth(c.place)
  {
    if !Granted(b, c, mem) then Failed(NO_MEM)
    else if Faulty(b, c) then Failed(IO)
    else
      match Next(b, c)
      case Halt => End(c.p)
      case Go(to) => Read(b, to, mem)
  }

  // ----- The parser reads this way -----

  /** What reading comes to once a part of the tree has been parsed: it goes on at place. */
  function Then<T>(b: seq<Byte>, r: Parsed<T>, place: Place, mem: Memory): Outcome
    requires r.Ok? ==> r.end <= |b|
  {
    match r
    case Err(e) => Failed(e)
    case Ok(_, end) => Read(b, Cursor(end, place), mem)
  }

  lemma {:induction false} ScanReads(b: seq<Byte>, p: nat, place: Place, mem: Memory)
    requires p <= |b| && Skips(place)
    ensures var s := ScanExtras(b, p);
            Read(b, Cursor(p, place), mem)
            == if s.Invalid? then Failed(IO) else Read(b, Cursor(s.end, place), mem)
    ensures var s := ScanExtras(b, p);
            (s.Found? ==> SkippedAll(b, s.end)) && (s.Truncated? ==> |b| - s.end >= 2 && CutShort(b, s.end))
    decreases |b| - p
  {
    if |b| - p >= 2 && 2 <= b[p] <= |b| - p && !IsProper(b[p + 1]) {
      ScanReads(b, p + b[p], place, mem);
    }
  }

  lemma BehindReads(b: seq<Byte>, s: Scan, left: nat, number: int, n: nat, from: nat, mem: Memory)
    requires !s.Invalid? && s.end <= |b|
    requires if s.Found? then SkippedAll(b, s.end) else s.end + 2 <= |b| && CutShort(b, s.end)
    ensures Read(b, Cursor(s.end, BehindEndpoint(left, number, n, from)), mem)
         == if s.Found? && s.end > from && !mem(ForEndpointExtra, |b| - s.end) then Failed(NO_MEM)
            else Read(b, Cursor(s.end, AtEndpoint(left, number, n)), mem)
  {
  }

  lemma NextEndpoint(b: seq<Byte>, p: nat, left: nat, number: int, n: nat, mem: Memory)
    requires p <= |b| && n > 0
    ensures Read(b, Cursor(p, AtEndpoint(left, number, n)), mem)
         == if |b| - p < 2 || (b[p + 1] == 5 && b[p] < 7) then Failed(IO)
            else if b[p + 1] == 5 && b[p] <= |b| - p then
              Read(b, Cursor(p + b[p], BehindEndpoint(left, number, n - 1, p + b[p])), mem)
            else Read(b, Cursor(p, AfterSetting(left, number)), mem)
  {
  }

  lemma EndpointReads(b: seq<Byte>, p: nat, left: nat, number: int, n: nat, mem: Memory)
    requires p <= |b| && n > 0
    ensures var r := ParseEndpoint(b, p, mem);
            Read(b, Cursor(p, AtEndpoint(left, number, n)), mem)
            == if r.Ok? && r.end == p then Read(b, Cursor(p, AfterSetting(left, number)), mem)
               else Then(b, r, AtEndpoint(left, number, n - 1), mem)
  {
    hide ScanExtras, Read;
    NextEndpoint(b, p, left, number, n, mem);
    if |b| - p >= 2 && b[p + 1] == 5 && 7 <= b[p] <= |b| - p {
      var q := p + b[p];
      var s := ScanExtras(b, q);
      ScanReads(b, q, BehindEndpoint(left, number, n - 1, q), mem);
      if !s.Invalid? {
        BehindReads(b, s, left, number, n - 1, q, mem);
      }
    }
  }

  lemma {:induction false} EndpointsRead(b: seq<Byte>, p: nat, left: nat, number: int, n: nat,
                                       front: seq<Endpoint>, mem: Memory)
    requires p <= |b|
    ensures Read(b, Cursor(p, AtEndpoint(left, number, n)), mem)
         == Then(b, ParseEndpoints(b, p, n, front, mem), AfterSetting(left, number), mem)
    decreases n
  {
    hide ParseEndpoint;
    if n > 0 {
      EndpointReads(b, p, left, number, n, mem);
      var r := ParseEndpoint(b, p, mem);
      if r.Ok? && r.end > p {
        EndpointsRead(b, r.end, left, number, n - 1, front + [r.value], mem);
      }
    }
  }

  lemma BodyReads(b: seq<Byte>, p: nat, left: nat, number: int, alt: AltSetting, mem: Memory)
    requires p <= |b|
    ensures ScanExtras(b, p).Truncated? ==> ParseBody(alt, b, p, mem).Ok?
    ensures Read(b, Cursor(p, BehindSetting(left, number, alt.bNumEndpoints, p)), mem)
         == var r := ParseBody(alt, b, p, mem);
            if ScanExtras(b, p).Truncated? then Read(b, Cursor(r.end, AtInterface(left, r.end)), mem)
            else Then(b, r, AfterSetting(left, number), mem)
  {
    hide ParseEndpoints, ScanExtras;
    ScanReads(b, p, BehindSetting(left, number, alt.bNumEndpoints, p), mem);
    var s := ScanExtras(b, p);
    if s.Found? {
      EndpointsRead(b, s.end, left, number, alt.bNumEndpoints, [], mem);
    }
  }

  lemma AfterReads(b: seq<Byte>, p: nat, left: nat, number: int, mem: Memory)
    requires p <= |b|
    ensures Read(b, Cursor(p, AfterSetting(left, number)), mem)
         == if Continues(b, p, number) then Read(b, Cursor(p, AtSetting(left, number)), mem)
            else Read(b, Cursor(p, AtInterface(left, p)), mem)
  {
  }

  lemma SettingReads(b: seq<Byte>, p: nat, left: nat, number: int, mem: Memory)
    requires p <= |b|
    ensures Read(b, Cursor(p, AtSetting(left, number)), mem)
         == if |b| - p >= 9 && !mem(ForAltSettings, |b| - p) then Failed(NO_MEM)
            else if |b| - p < 9 || b[p + 1] != 4 || (b[p] >= 9 && CutShort(b, p)) then
              if number == -1 then End(p) else Read(b, Cursor(p, AtInterface(left, p)), mem)
            else if b[p] < 9 || b[p + 4] > 32 then Failed(IO)
            else Read(b, Cursor(p + b[p], BehindSetting(left, Number(number, b[p + 2]), b[p + 4], p + b[p])), mem)
  {
  }

  /** A setting and, after the last one of its interface, what reading comes to. */
  lemma OneReads(b: seq<Byte>, p: nat, left: nat, number: int, mem: Memory)
    requires p <= |b| && |b| - p >= 9 && b[p + 1] == 4 && 9 <= b[p] <= |b| - p && b[p + 4] <= 32
    requires mem(ForAltSettings, |b| - p)
    ensures var n, body := Number(number, b[p + 2]), ParseBody(AltFields(b, p), b, p + b[p], mem);
            Read(b, Cursor(p, AtSetting(left, number)), mem)
            == if body.Err? then Failed(body.error)
               else if ScanExtras(b, p + b[p]).Truncated? || !Continues(b, body.end, n) then
                 Read(b, Cursor(body.end, AtInterface(left, body.end)), mem)
               else Read(b, Cursor(body.end, AtSetting(left, n)), mem)
  {
    hide ParseBody, ScanExtras, Read, Continues;
    var n := Number(number, b[p + 2]);
    SettingReads(b, p, left, number, mem);
    BodyReads(b, p + b[p], left, n, AltFields(b, p), mem);
    var body := ParseBody(AltFields(b, p), b, p + b[p], mem);
    if body.Ok? {
      AfterReads(b, body.end, left, n, mem);
    }
  }

  lemma {:induction false} InterfaceReads(b: seq<Byte>, p: nat, left: nat, number: int, front: Interface, mem: Memory)
    requires p <= |b| && (number == -1 <==> front == [])
    ensures var r := ParseInterface(b, p, number, front, mem);
            Read(b, Cursor(p, AtSetting(left, number)), mem)
            == if r.Err? then Failed(r.error)
               else if front == [] && r.end == p then End(p)
               else Read(b, Cursor(r.end, AtInterface(left, r.end)), mem)
    decreases |b| - p
  {
    hide ParseBody, ScanExtras, Read, Continues, AltFields;
    SettingReads(b, p, left, number, mem);
    if |b| - p >= 9 && b[p + 1] == 4 && 9 <= b[p] <= |b| - p && b[p + 4] <= 32 && mem(ForAltSettings, |b| - p) {
      var n, q := Number(number, b[p + 2]), p + b[p];
      OneReads(b, p, left, number, mem);
      var body := ParseBody(AltFields(b, p), b, q, mem);
      if body.Ok? && !ScanExtras(b, q).Truncated? && Continues(b, body.end, n) {
        InterfaceReads(b, body.end, left, n, front + [body.value], mem);
      }
    }
  }

  lemma InterfaceStep(b: seq<Byte>, p: nat, left: nat, from: nat, mem: Memory)
    requires p <= |b|
    requires left > 0 ==> SkippedAll(b, p) || (p + 2 <= |b| && CutShort(b, p))
    ensures Read(b, Cursor(p, AtInterface(left, from)), mem)
         == if left == 0 || !SkippedAll(b, p) then End(p)
            else if p > from && !mem(ForConfigExtra, |b| - p) then Failed(NO_MEM)
            else Read(b, Cursor(p, AtSetting(left - 1, -1)), mem)
  {
  }

  lemma {:induction false} InterfacesRead(b: seq<Byte>, p: nat, n: nat, front: Body, mem: Memory)
    requires p <= |b|
    ensures var r := ParseInterfaces(b, p, n, front, mem);
            Read(b, Cursor(p, AtInterface(n, p)), mem) == if r.Err? then Failed(r.error) else End(r.end)
    decreases n
  {
    hide ParseInterface, ScanExtras, Read;
    if n == 0 {
      InterfaceStep(b, p, n, p, mem);
    } else {
      ScanReads(b, p, AtInterface(n, p), mem);
      var s := ScanExtras(b, p);
      if !s.Invalid? {
        InterfaceStep(b, s.end, n, p, mem);
      }
      if s.Found? {
        InterfaceReads(b, s.end, n - 1, -1, [], mem);
        var t := NextInterface(b, p, front, mem);
        if t.More? {
          InterfacesRead(b, t.end, n - 1, t.body, mem);
        }
      }
    }
  }

  /** The bytes do not start with a whole descriptor of a configuration of up to 32 interfaces. */
  predicate BadHeader(b: seq<Byte>) {
    |b| < 9 || b[1] != 2 || b[0] < 9 || b[0] > |b| || b[4] > 32
  }

  /** Where reading starts: behind the descriptor of the configuration. */
  function Start(b: seq<Byte>): Cursor
    requires !BadHeader(b)
  {
    Cursor(b[0], AtInterface(b[4], b[0]))
  }

  /** For arbitrary bytes and arbitrary failures of allocations, the parser fails, or ends,
      where reading does. */
  lemma ParserReads(b: seq<Byte>, mem: Memory)
    ensures var r := ParseConfiguration(b, mem);
            (if r.Err? then Failed(r.error) else End(r.end))
            == if BadHeader(b) then Failed(IO)
               else if !mem(ForInterfaces, |b|) then Failed(NO_MEM)
               else Read(b, Start(b), mem)
  {
    hide ParseInterfaces, Read;
    if !BadHeader(b) {
      InterfacesRead(b, b[0], b[4], Body([], []), mem);
    }
  }

  /** The cursors of a reading, one after the other, none of them at fault before the last. */
  predicate IsReading(b: seq<Byte>, run: seq<Cursor>) {
    && run != []
    && (forall k :: 0 <= k < |run| ==> Within(b, run[k]))
    && forall k :: 0 <= k < |run| - 1 ==> !Faulty(b, run[k]) && Next(b, run[k]) == Go(run[k + 1])
  }

  lemma {:induction false} FaultFound(b: seq<Byte>, c: Cursor, mem: Memory) returns (run: seq<Cursor>)
    requires Within(b, c) && Unlimited(mem)
    ensures IsReading(b, run) && run[0] == c
    ensures Read(b, c, mem) == Failed(IO) ==> Faulty(b, run[|run| - 1])
    decreases |b| - c.p, c.place.left, Depth(c.place)
  {
    run := [c];
    if !Faulty(b, c) && Next(b, c).Go? {
      var rest := FaultFound(b, Next(b, c).to, mem);
      run := [c] + rest;
      forall k | 0 <= k < |run| - 1 ensures !Faulty(b, run[k]) && Next(b, run[k]) == Go(run[k + 1]) {
        assert k > 0 ==> Next(b, rest[k - 1]) == Go(rest[k]);
      }
    }
  }

  lemma {:induction false} FaultMet(b: seq<Byte>, run: seq<Cursor>, mem: Memory)
    requires IsReading(b, run) && Faulty(b, run[|run| - 1]) && Unlimited(mem)
    ensures Read(b, run[0], mem) == Failed(IO)
    decreases |run|
  {
    if |run| > 1 {
      var rest := run[1..];
      forall k | 0 <= k < |rest| - 1 ensures !Faulty(b, rest[k]) && Next(b, rest[k]) == Go(rest[k + 1]) {
        assert Next(b, run[k + 1]) == Go(run[k + 2]);
      }
      FaultMet(b, rest, mem);
      assert Next(b, run[0]) == Go(run[1]);
    }
  }

  ghost predicate MeetsFault(b: seq<Byte>)
    requires !BadHeader(b)
  {
    exists run :: IsReading(b, run) && run[0] == Start(b) && Faulty(b, run[|run| - 1])
  }

  /** With all the memory it asks for, the parser rejects bytes exactly for a bad header or a
      fault where reading arrives; all other bytes are accepted. */
  lemma RejectsExactly(b: seq<Byte>, mem: Memory)
    requires Unlimited(mem)
    ensures ParseConfiguration(b, mem) == Err(IO) <==> BadHeader(b) || MeetsFault(b)
    ensures ParseConfiguration(b, mem) != Err(NO_MEM)
  {
    hide Read, Next, Faulty, ParseInterfaces;
    ParserReads(b, mem);
    if !BadHeader(b) {
      NeverShort(b, Start(b), mem);
      var run := FaultFound(b, Start(b), mem);
      forall other | IsReading(b, other) && other[0] == Start(b) && Faulty(b, other[|other| - 1])
        ensures Read(b, Start(b), mem) == Failed(IO)
      {
        FaultMet(b, other, mem);
      }
    }
  }

  lemma {:induction false} NeverShort(b: seq<Byte>, c: Cursor, mem: Memory)
    requires Within(b, c) && Unlimited(mem)
    ensures Read(b, c, mem) != Failed(NO_MEM)
    decreases |b| - c.p, c.place.left, Depth(c.place)
  {
    hide Next, Faulty;
    if !Faulty(b, c) && Next(b, c).Go? {
      NeverShort(b, Next(b, c).to, mem);
    }
  }
}
