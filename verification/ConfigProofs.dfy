/** What the configuration parser does with every input: it inverts the serializer, whatever
    it accepts is a well-formed tree, and it stops between descriptors. */
module ConfigProofs {
  import opened Descriptors

  // ----- Bytes at a position -----

  predicate At(b: seq<Byte>, p: nat, s: seq<Byte>) {
    p + |s| <= |b| && forall i :: 0 <= i < |s| ==> b[p + i] == s[i]
  }

  lemma AtSlice(b: seq<Byte>, p: nat, s: seq<Byte>)
    requires At(b, p, s)
    ensures b[p..p + |s|] == s
  {
  }

  lemma AtSplit(b: seq<Byte>, p: nat, x: seq<Byte>, y: seq<Byte>)
    requires At(b, p, x + y)
    ensures At(b, p, x) && At(b, p + |x|, y)
  {
    forall i | 0 <= i < |x| ensures b[p + i] == x[i] {
      assert (x + y)[i] == x[i];
    }
    forall i | 0 <= i < |y| ensures b[p + |x| + i] == y[i] {
      assert (x + y)[|x| + i] == y[i];
    }
  }

  lemma AtTail(b: seq<Byte>, p: nat, s: seq<Byte>, k: nat)
    requires At(b, p, s) && k <= |s|
    ensures At(b, p + k, s[k..])
  {
    forall i | 0 <= i < |s[k..]| ensures b[p + k + i] == s[k..][i] {
      assert b[p + (k + i)] == s[k + i];
    }
  }

  // ----- Skipping -----

  /** Nothing can be skipped at p: the end, or a whole proper descriptor. */
  predicate StopsAt(b: seq<Byte>, p: nat) {
    && p <= |b|
    && (|b| - p < DESC_HEADER_LENGTH || (DESC_HEADER_LENGTH <= b[p] <= |b| - p && IsProper(b[p + 1])))
  }

  /** A descriptor is cut off at p by the end of the bytes, behind its header. */
  predicate CutAt(b: seq<Byte>, p: nat) {
    p + DESC_HEADER_LENGTH <= |b| && b[p] > |b| - p
  }

  predicate EndsAt(b: seq<Byte>, p: nat) {
    StopsAt(b, p) || CutAt(b, p)
  }

  lemma {:induction false} ScanOver(b: seq<Byte>, p: nat, e: seq<Byte>)
    requires At(b, p, e) && WholeExtras(e) && EndsAt(b, p + |e|)
    ensures ScanExtras(b, p) == if CutAt(b, p + |e|) then Truncated(p + |e|) else Found(p + |e|)
    decreases |e|
  {
    if e != [] {
      assert b[p + 0] == e[0] && b[p + 1] == e[1];
      AtTail(b, p, e, e[0]);
      ScanOver(b, p + e[0], e[e[0]..]);
    }
  }

  // ----- Replacing the extra descriptors at the very end -----

  function EndpointsWith(es: seq<Endpoint>, x: seq<Byte>): seq<Endpoint> {
    if es == [] then [] else es[|es| - 1 := es[|es| - 1].(extra := x)]
  }

  /** The last extra descriptors of a setting are those of its last endpoint, or its own. */
  function AltWith(a: AltSetting, x: seq<Byte>): AltSetting {
    if a.endpoints == [] then a.(extra := x) else a.(endpoints := EndpointsWith(a.endpoints, x))
  }

  function InterfaceWith(alts: Interface, x: seq<Byte>): Interface {
    if alts == [] then [] else alts[|alts| - 1 := AltWith(alts[|alts| - 1], x)]
  }

  function InterfacesWith(ifs: seq<Interface>, x: seq<Byte>): seq<Interface> {
    if ifs == [] then [] else ifs[|ifs| - 1 := InterfaceWith(ifs[|ifs| - 1], x)]
  }

  /** The tree with x for the extra descriptors at its end. */
  function With(c: Config, x: seq<Byte>): Config {
    c.(interfaces := InterfacesWith(c.interfaces, x))
  }

  /** What is left of endpoints, settings and interfaces if the bytes behind them are cut off,
      or not. */
  function EndpointsLeft(es: seq<Endpoint>, cut: bool): seq<Endpoint> {
    if cut then EndpointsWith(es, []) else es
  }

  function AltLeft(a: AltSetting, cut: bool): AltSetting {
    if cut then AltWith(a, []) else a
  }

  function InterfaceLeft(alts: Interface, cut: bool): Interface {
    if cut then InterfaceWith(alts, []) else alts
  }

  function InterfacesLeft(ifs: seq<Interface>, cut: bool): seq<Interface> {
    if cut then InterfacesWith(ifs, []) else ifs
  }

  lemma EndpointsJoin(front: seq<Endpoint>, es: seq<Endpoint>, cut: bool)
    requires es != []
    ensures front + EndpointsLeft(es, cut)
         == if |es| > 1 then front + [es[0]] + EndpointsLeft(es[1..], cut)
            else front + [if cut then es[0].(extra := []) else es[0]]
  {
  }

  lemma SettingsJoin(front: Interface, alts: Interface, cut: bool)
    requires alts != []
    ensures front + InterfaceLeft(alts, cut)
         == if |alts| > 1 then front + [alts[0]] + InterfaceLeft(alts[1..], cut) else front + [AltLeft(alts[0], cut)]
  {
  }

  lemma InterfacesJoin(front: seq<Interface>, ifs: seq<Interface>, cut: bool)
    requires ifs != []
    ensures front + InterfacesLeft(ifs, cut)
         == if |ifs| > 1 then front + [ifs[0]] + InterfacesLeft(ifs[1..], cut) else front + [InterfaceLeft(ifs[0], cut)]
  {
  }

  // ----- Parsing what was serialized -----

  ghost predicate Unlimited(mem: Memory) {
    forall a, n :: mem(a, n)
  }

  lemma EndpointAt(b: seq<Byte>, p: nat, e: Endpoint)
    requires At(b, p, EndpointHeader(e)) && WellFormedEndpoint(e)
    ensures p + DT_ENDPOINT_SIZE <= |b| && b[p] == e.bLength <= |b| - p && b[p + 1] == DT_ENDPOINT
    ensures EndpointFields(b, p) == e.(extra := [])
  {
    var h := EndpointHeader(e);
    assert b[p + 0] == h[0] && b[p + 1] == h[1] && b[p + 2] == h[2] && b[p + 3] == h[3];
    assert b[p + 4] == h[4] && b[p + 5] == h[5] && b[p + 6] == h[6];
    if e.bLength >= DT_ENDPOINT_AUDIO_SIZE {
      assert b[p + 7] == h[7] && b[p + 8] == h[8];
    }
  }

  /** A serialized endpoint is parsed; if a descriptor is cut off behind it, without its extras. */
  lemma EndpointBack(b: seq<Byte>, p: nat, e: Endpoint, mem: Memory)
    requires At(b, p, SerializeEndpoint(e)) && EndsAt(b, p + |SerializeEndpoint(e)|)
    requires WellFormedEndpoint(e) && Unlimited(mem)
    ensures StopsAt(b, p) && |SerializeEndpoint(e)| > 0
    ensures var end := p + |SerializeEndpoint(e)|;
            ParseEndpoint(b, p, mem) == Ok(if CutAt(b, end) then e.(extra := []) else e, end)
  {
    AtSplit(b, p, EndpointHeader(e), e.extra);
    EndpointAt(b, p, e);
    ScanOver(b, p + e.bLength, e.extra);
    AtSlice(b, p + e.bLength, e.extra);
  }

  lemma EndpointsSplit(b: seq<Byte>, p: nat, es: seq<Endpoint>)
    requires es != [] && At(b, p, SerializeEndpoints(es))
    ensures var first, more := SerializeEndpoint(es[0]), SerializeEndpoints(es[1..]);
            && At(b, p, first) && At(b, p + |first|, more) && |SerializeEndpoints(es)| == |first| + |more|
            && (|es| == 1 ==> more == [])
  {
    hide At, SerializeEndpoint;
    AtSplit(b, p, SerializeEndpoint(es[0]), SerializeEndpoints(es[1..]));
  }

  lemma {:induction false} EndpointsBack(b: seq<Byte>, p: nat, es: seq<Endpoint>, front: seq<Endpoint>, mem: Memory)
    requires forall i :: 0 <= i < |es| ==> WellFormedEndpoint(es[i])
    requires At(b, p, SerializeEndpoints(es)) && EndsAt(b, p + |SerializeEndpoints(es)|) && Unlimited(mem)
    ensures es != [] ==> StopsAt(b, p)
    ensures var end := p + |SerializeEndpoints(es)|;
            ParseEndpoints(b, p, |es|, front, mem)
            == Ok(front + EndpointsLeft(es, CutAt(b, end)), end)
    decreases |es|
  {
    hide ParseEndpoint, SerializeEndpoint, WellFormedEndpoint, At, CutAt, StopsAt, Unlimited;
    if es == [] {
      assert front + EndpointsLeft(es, CutAt(b, p)) == front;
    } else {
      hide EndpointsLeft, ParseEndpoints, SerializeEndpoints, EndsAt;
      var first, more := SerializeEndpoint(es[0]), SerializeEndpoints(es[1..]);
      EndpointsSplit(b, p, es);
      EndpointsJoin(front, es, CutAt(b, p + |first| + |more|));
      if |es| > 1 {
        EndpointsBack(b, p + |first|, es[1..], front + [es[0]], mem);
        NotBoth(b, p + |first|);
      }
      EndpointBack(b, p, es[0], mem);
      EndpointsStep(b, p, |es|, front, mem);
    }
  }

  lemma EndpointsStep(b: seq<Byte>, p: nat, n: nat, front: seq<Endpoint>, mem: Memory)
    requires p <= |b| && n > 0 && ParseEndpoint(b, p, mem).Ok? && ParseEndpoint(b, p, mem).end > p
    ensures var r := ParseEndpoint(b, p, mem);
            ParseEndpoints(b, p, n, front, mem)
            == if n == 1 then Ok(front + [r.value], r.end)
               else ParseEndpoints(b, r.end, n - 1, front + [r.value], mem)
  {
    hide ParseEndpoint;
  }

  lemma NotBoth(b: seq<Byte>, p: nat)
    ensures StopsAt(b, p) ==> !CutAt(b, p) && EndsAt(b, p)
  {
  }

  lemma AltAt(b: seq<Byte>, p: nat, a: AltSetting)
    requires At(b, p, AltHeader(a)) && WellFormedAlt(a)
    ensures p + DT_INTERFACE_SIZE <= |b| && b[p] == a.bLength <= |b| - p && b[p + 1] == DT_INTERFACE
    ensures AltFields(b, p) == a.(extra := [], endpoints := [])
  {
    var h := AltHeader(a);
    assert b[p + 0] == h[0] && b[p + 1] == h[1] && b[p + 2] == h[2] && b[p + 3] == h[3] && b[p + 4] == h[4];
    assert b[p + 5] == h[5] && b[p + 6] == h[6] && b[p + 7] == h[7] && b[p + 8] == h[8];
  }

  lemma NoEndpoints()
    ensures SerializeEndpoints([]) == []
  {
  }

  lemma BodyBack(b: seq<Byte>, p: nat, a: AltSetting, mem: Memory)
    requires WellFormedAlt(a) && Unlimited(mem)
    requires At(b, p, a.extra + SerializeEndpoints(a.endpoints))
    requires EndsAt(b, p + |a.extra| + |SerializeEndpoints(a.endpoints)|)
    ensures var end := p + |a.extra| + |SerializeEndpoints(a.endpoints)|;
            && (ScanExtras(b, p).Truncated? <==> CutAt(b, end) && a.endpoints == [])
            && ParseBody(a.(extra := [], endpoints := []), b, p, mem)
               == Ok(AltLeft(a, CutAt(b, end)), end)
  {
    hide ParseEndpoints, SerializeEndpoints, WellFormedEndpoint, At, CutAt, StopsAt, WholeExtras;
    AtSplit(b, p, a.extra, SerializeEndpoints(a.endpoints));
    EndpointsBack(b, p + |a.extra|, a.endpoints, [], mem);
    NoEndpoints();
    NotBoth(b, p + |a.extra|);
    ScanOver(b, p, a.extra);
    AtSlice(b, p, a.extra);
    assert [] + a.endpoints == a.endpoints && [] + EndpointsWith(a.endpoints, []) == EndpointsWith(a.endpoints, []);
  }

  lemma AltStarts(b: seq<Byte>, p: nat, a: AltSetting)
    requires At(b, p, SerializeAlt(a)) && WellFormedAlt(a)
    ensures At(b, p, AltHeader(a)) && At(b, p + a.bLength, a.extra + SerializeEndpoints(a.endpoints))
    ensures StopsAt(b, p) && Continues(b, p, a.bInterfaceNumber) && b[p + 2] == a.bInterfaceNumber
  {
    AtSplit(b, p, AltHeader(a), a.extra + SerializeEndpoints(a.endpoints));
    AltAt(b, p, a);
    assert AltFields(b, p).bInterfaceNumber == a.bInterfaceNumber;
  }

  lemma InterfaceStarts(b: seq<Byte>, p: nat, alts: Interface)
    requires At(b, p, SerializeInterface(alts)) && WellFormedInterface(alts)
    ensures StopsAt(b, p) && Continues(b, p, alts[0].bInterfaceNumber) && b[p + 2] == alts[0].bInterfaceNumber
  {
    AtSplit(b, p, SerializeAlt(alts[0]), SerializeInterface(alts[1..]));
    AltStarts(b, p, alts[0]);
  }

  /** One setting, followed by another of the interface or not. */
  lemma AltBack(b: seq<Byte>, p: nat, a: AltSetting, number: int, front: Interface, mem: Memory)
    requires WellFormedAlt(a) && Unlimited(mem) && (number == -1 || number == a.bInterfaceNumber)
    requires At(b, p, SerializeAlt(a)) && EndsAt(b, p + |SerializeAlt(a)|)
    ensures var end := p + |SerializeAlt(a)|;
            ParseInterface(b, p, number, front, mem)
            == if !CutAt(b, end) && Continues(b, end, a.bInterfaceNumber) then
                 ParseInterface(b, end, a.bInterfaceNumber, front + [a], mem)
               else Ok(front + [AltLeft(a, CutAt(b, end))], end)
  {
    hide ParseBody, ScanExtras, AltWith;
    AltStarts(b, p, a);
    AltAt(b, p, a);
    BodyBack(b, p + a.bLength, a, mem);
    assert b[p + 4] == AltFields(b, p).bNumEndpoints;
  }

  lemma InterfaceSplit(b: seq<Byte>, p: nat, alts: Interface)
    requires alts != [] && At(b, p, SerializeInterface(alts))
    ensures var first, more := SerializeAlt(alts[0]), SerializeInterface(alts[1..]);
            && At(b, p, first) && At(b, p + |first|, more) && |SerializeInterface(alts)| == |first| + |more|
            && (|alts| == 1 ==> more == [])
  {
    hide At, SerializeAlt;
    AtSplit(b, p, SerializeAlt(alts[0]), SerializeInterface(alts[1..]));
  }

  lemma {:induction false} InterfaceBack(b: seq<Byte>, p: nat, alts: Interface, number: int,
                                       front: Interface, mem: Memory)
    requires WellFormedInterface(alts) && Unlimited(mem) && (number == -1 || number == alts[0].bInterfaceNumber)
    requires At(b, p, SerializeInterface(alts)) && EndsAt(b, p + |SerializeInterface(alts)|)
    requires var end := p + |SerializeInterface(alts)|;
             CutAt(b, end) || !Continues(b, end, alts[0].bInterfaceNumber)
    ensures var end := p + |SerializeInterface(alts)|;
            ParseInterface(b, p, number, front, mem)
            == Ok(front + InterfaceLeft(alts, CutAt(b, end)), end)
    decreases |alts|
  {
    hide ParseInterface, SerializeInterface, SerializeAlt, InterfaceLeft, AltLeft, At, EndsAt, CutAt, StopsAt;
    hide Continues, WellFormedAlt, Unlimited;
    var a, first, more := alts[0], SerializeAlt(alts[0]), SerializeInterface(alts[1..]);
    InterfaceSplit(b, p, alts);
    SettingsJoin(front, alts, CutAt(b, p + |first| + |more|));
    if |alts| > 1 {
      WellFormedRest(alts);
      InterfaceStarts(b, p + |first|, alts[1..]);
      NotBoth(b, p + |first|);
      InterfaceBack(b, p + |first|, alts[1..], a.bInterfaceNumber, front + [a], mem);
    }
    AltBack(b, p, a, number, front, mem);
  }

  lemma WellFormedRest(alts: Interface)
    requires WellFormedInterface(alts) && |alts| > 1
    ensures WellFormedInterface(alts[1..]) && alts[1].bInterfaceNumber == alts[0].bInterfaceNumber
  {
  }

  lemma WellFormedTail(ifs: seq<Interface>)
    requires WellFormedInterfaces(ifs) && ifs != []
    ensures WellFormedInterface(ifs[0]) && WellFormedInterfaces(ifs[1..])
    ensures |ifs| > 1 ==> WellFormedInterface(ifs[1]) && ifs[1][0].bInterfaceNumber != ifs[0][0].bInterfaceNumber
  {
    var rest := ifs[1..];
    forall i | 0 <= i < |rest| ensures WellFormedInterface(rest[i]) && rest[i] == ifs[i + 1] {
    }
    if |ifs| > 1 {
      assert ifs[1][0].bInterfaceNumber != ifs[1 - 1][0].bInterfaceNumber;
    }
  }

  /** The bytes at end, behind these interfaces, add nothing to them: they are cut off, or
      nothing is skipped there and no setting of the last interface starts. */
  predicate Closed(b: seq<Byte>, end: nat, ifs: seq<Interface>) {
    CutAt(b, end)
    || (StopsAt(b, end)
        && (ifs != [] && ifs[|ifs| - 1] != [] ==> !Continues(b, end, ifs[|ifs| - 1][0].bInterfaceNumber)))
  }

  /** What follows an interface does not continue it. */
  lemma NextDiffers(b: seq<Byte>, p: nat, ifs: seq<Interface>)
    requires WellFormedInterfaces(ifs) && ifs != []
    requires At(b, p, SerializeInterfaces(ifs[1..])) && Closed(b, p + |SerializeInterfaces(ifs[1..])|, ifs)
    ensures EndsAt(b, p) && (CutAt(b, p) || !Continues(b, p, ifs[0][0].bInterfaceNumber))
    ensures |ifs| > 1 ==> !CutAt(b, p)
  {
    WellFormedTail(ifs);
    if |ifs| > 1 {
      AtSplit(b, p, SerializeInterface(ifs[1]), SerializeInterfaces(ifs[1..][1..]));
      InterfaceStarts(b, p, ifs[1]);
    }
  }

  /** An interface behind extra descriptors. */
  lemma OneBack(b: seq<Byte>, p: nat, extra: seq<Byte>, alts: Interface, front: Body, mem: Memory)
    requires WellFormedInterface(alts) && WholeExtras(extra) && Unlimited(mem)
    requires At(b, p, extra) && At(b, p + |extra|, SerializeInterface(alts))
    requires var end := p + |extra| + |SerializeInterface(alts)|;
             EndsAt(b, end) && (CutAt(b, end) || !Continues(b, end, alts[0].bInterfaceNumber))
    ensures var end := p + |extra| + |SerializeInterface(alts)|;
            NextInterface(b, p, front, mem)
            == More(Body(front.extra + extra,
                         front.interfaces + [InterfaceLeft(alts, CutAt(b, end))]), end)
  {
    hide ParseInterface, ScanExtras, SerializeInterface, At, CutAt, StopsAt, InterfaceLeft, WholeExtras;
    hide Continues, WellFormedInterface;
    InterfaceStarts(b, p + |extra|, alts);
    NotBoth(b, p + |extra|);
    ScanOver(b, p, extra);
    AtSlice(b, p, extra);
    InterfaceBack(b, p + |extra|, alts, -1, [], mem);
    var end := p + |extra| + |SerializeInterface(alts)|;
    assert [] + InterfaceLeft(alts, CutAt(b, end)) == InterfaceLeft(alts, CutAt(b, end));
    SerializeSome(alts);
  }

  lemma SerializeSome(alts: Interface)
    requires WellFormedInterface(alts)
    ensures |SerializeInterface(alts)| > 0
  {
  }

  lemma NoExtras(b: seq<Byte>, p: nat)
    requires p <= |b|
    ensures WholeExtras([]) && At(b, p, [])
  {
  }

  lemma ClosedRest(b: seq<Byte>, end: nat, ifs: seq<Interface>)
    requires Closed(b, end, ifs) && |ifs| > 1
    ensures Closed(b, end, ifs[1..])
  {
  }

  lemma InterfacesStep(b: seq<Byte>, p: nat, n: nat, front: Body, mem: Memory)
    requires p <= |b| && n > 0 && NextInterface(b, p, front, mem).More?
    ensures var t := NextInterface(b, p, front, mem);
            ParseInterfaces(b, p, n, front, mem) == ParseInterfaces(b, t.end, n - 1, t.body, mem)
  {
  }

  lemma NoneLeft(b: seq<Byte>, p: nat, front: Body, mem: Memory)
    requires p <= |b|
    ensures ParseInterfaces(b, p, 0, front, mem) == Ok(front, p)
  {
  }

  lemma {:induction false} InterfacesBack(b: seq<Byte>, p: nat, extra: seq<Byte>, ifs: seq<Interface>,
                                        front: Body, mem: Memory)
    requires WellFormedInterfaces(ifs) && WholeExtras(extra) && Unlimited(mem) && (ifs == [] ==> extra == [])
    requires At(b, p, extra) && At(b, p + |extra|, SerializeInterfaces(ifs))
    requires Closed(b, p + |extra| + |SerializeInterfaces(ifs)|, ifs)
    ensures var end := p + |extra| + |SerializeInterfaces(ifs)|;
            ParseInterfaces(b, p, |ifs|, front, mem)
            == Ok(Body(front.extra + extra,
                       front.interfaces + InterfacesLeft(ifs, CutAt(b, end))), end)
    decreases |ifs|
  {
    hide NextInterface, SerializeInterface, InterfaceWith, At, StopsAt, CutAt, Closed, WholeExtras;
    hide WellFormedInterfaces, WellFormedInterface;
    if ifs == [] {
      assert front.extra + extra == front.extra;
      assert front.interfaces + InterfacesLeft(ifs, CutAt(b, p)) == front.interfaces;
    } else {
      hide InterfacesLeft, InterfaceLeft, ParseInterfaces;
      var first, tail := SerializeInterface(ifs[0]), SerializeInterfaces(ifs[1..]);
      var q := p + |extra| + |first|;
      var cut := CutAt(b, q + |tail|);
      InterfacesJoin(front.interfaces, ifs, cut);
      WellFormedTail(ifs);
      AtSplit(b, p + |extra|, first, tail);
      NextDiffers(b, q, ifs);
      OneBack(b, p, extra, ifs[0], front, mem);
      InterfacesStep(b, p, |ifs|, front, mem);
      var body := NextInterface(b, p, front, mem).body;
      if |ifs| == 1 {
        NoneLeft(b, q, body, mem);
      } else {
        assert InterfaceLeft(ifs[0], false) == ifs[0] by {
          WholeLeft(ifs[0]);
        }
        NoExtras(b, q);
        ClosedRest(b, q + |tail|, ifs);
        InterfacesBack(b, q, [], ifs[1..], body, mem);
        assert body.extra + [] == body.extra;
      }
    }
  }

  lemma WholeLeft(alts: Interface)
    ensures InterfaceLeft(alts, false) == alts
  {
  }

  lemma ConfigAt(b: seq<Byte>, c: Config)
    requires At(b, 0, ConfigHeader(c)) && WellFormed(c)
    ensures DT_CONFIG_SIZE <= |b| && b[0] == c.bLength <= |b| && b[1] == DT_CONFIG && b[4] == c.bNumInterfaces
    ensures ConfigFields(b) == c.(extra := [], interfaces := [])
  {
    var h := ConfigHeader(c);
    assert b[0 + 0] == h[0] && b[0 + 1] == h[1] && b[0 + 2] == h[2] && b[0 + 3] == h[3] && b[0 + 4] == h[4];
    assert b[0 + 5] == h[5] && b[0 + 6] == h[6] && b[0 + 7] == h[7] && b[0 + 8] == h[8];
  }

  lemma SerializedAt(c: Config, b: seq<Byte>)
    requires At(b, 0, Serialize(c))
    ensures At(b, 0, ConfigHeader(c)) && At(b, c.bLength, c.extra)
    ensures At(b, c.bLength + |c.extra|, SerializeInterfaces(c.interfaces))
    ensures |Serialize(c)| == c.bLength + |c.extra| + |SerializeInterfaces(c.interfaces)|
  {
    hide SerializeInterfaces;
    AtSplit(b, 0, ConfigHeader(c), c.extra + SerializeInterfaces(c.interfaces));
    AtSplit(b, c.bLength, c.extra, SerializeInterfaces(c.interfaces));
  }

  /** Bytes that begin with a serialized tree, and whose rest adds nothing to it, parse to the
      tree; but if they end inside a descriptor, behind its header, the extra descriptors at
      the end of the tree are dropped. */
  lemma SerializedBack(b: seq<Byte>, c: Config, mem: Memory)
    requires WellFormed(c) && (c.interfaces == [] ==> c.extra == []) && Unlimited(mem)
    requires Serialize(c) <= b && Closed(b, |Serialize(c)|, c.interfaces)
    ensures ParseConfiguration(b, mem)
         == Ok(if CutAt(b, |Serialize(c)|) then With(c, []) else c, |Serialize(c)|)
  {
    hide Serialize, SerializeInterfaces, ParseInterfaces, At, Closed, CutAt, WholeExtras, WellFormedInterfaces;
    assert At(b, 0, Serialize(c)) by {
      Starts(b, Serialize(c));
    }
    SerializedAt(c, b);
    ConfigAt(b, c);
    InterfacesBack(b, c.bLength, c.extra, c.interfaces, Body([], []), mem);
    assert [] + c.extra == c.extra;
    var left := InterfacesLeft(c.interfaces, CutAt(b, |Serialize(c)|));
    assert [] + left == left;
  }

  lemma Starts(b: seq<Byte>, s: seq<Byte>)
    requires s <= b
    ensures At(b, 0, s)
  {
  }

  /** The parser inverts the serializer and leaves no byte over. */
  lemma RoundTrip(c: Config, mem: Memory)
    requires WellFormed(c) && (c.interfaces == [] ==> c.extra == []) && Unlimited(mem)
    ensures ParseConfiguration(Serialize(c), mem) == Ok(c, |Serialize(c)|)
  {
    hide Serialize, ParseConfiguration, WellFormedInterfaces;
    SerializedBack(Serialize(c), c, mem);
  }

  lemma BytesAppend(x: seq<Byte>, y: seq<Byte>)
    requires Bytes(x) && Bytes(y)
    ensures Bytes(x + y)
  {
  }

  lemma {:induction false} EndpointsBytes(es: seq<Endpoint>)
    requires forall i :: 0 <= i < |es| ==> EndpointFits(es[i])
    ensures Bytes(SerializeEndpoints(es))
  {
    if es != [] {
      BytesAppend(EndpointHeader(es[0]), es[0].extra);
      EndpointsBytes(es[1..]);
      BytesAppend(SerializeEndpoint(es[0]), SerializeEndpoints(es[1..]));
    }
  }

  lemma {:induction false} InterfaceBytes(alts: Interface)
    requires InterfaceFits(alts)
    ensures Bytes(SerializeInterface(alts))
  {
    if alts != [] {
      EndpointsBytes(alts[0].endpoints);
      BytesAppend(alts[0].extra, SerializeEndpoints(alts[0].endpoints));
      BytesAppend(AltHeader(alts[0]), alts[0].extra + SerializeEndpoints(alts[0].endpoints));
      InterfaceBytes(alts[1..]);
      BytesAppend(SerializeAlt(alts[0]), SerializeInterface(alts[1..]));
    }
  }

  lemma {:induction false} InterfacesBytes(ifs: seq<Interface>)
    requires forall i :: 0 <= i < |ifs| ==> InterfaceFits(ifs[i])
    ensures Bytes(SerializeInterfaces(ifs))
  {
    if ifs != [] {
      InterfaceBytes(ifs[0]);
      InterfacesBytes(ifs[1..]);
      BytesAppend(SerializeInterface(ifs[0]), SerializeInterfaces(ifs[1..]));
    }
  }

  /** What is serialized are bytes if the fields fit theirs. */
  lemma SerializedBytes(c: Config)
    requires Fits(c)
    ensures Bytes(Serialize(c))
  {
    InterfacesBytes(c.interfaces);
    BytesAppend(c.extra, SerializeInterfaces(c.interfaces));
    BytesAppend(ConfigHeader(c), c.extra + SerializeInterfaces(c.interfaces));
  }

  // ----- Whatever the parser accepts -----

  /** What was skipped are whole descriptors, and nothing more can be skipped behind it. */
  lemma {:induction false} ScanResult(b: seq<Byte>, p: nat)
    requires p <= |b|
    ensures var s := ScanExtras(b, p);
            s.Invalid? || (WholeExtras(b[p..s.end])
                           && ScanExtras(b, s.end) == if s.Found? then Found(s.end) else Truncated(s.end))
    decreases |b| - p
  {
    var s := ScanExtras(b, p);
    if !s.Invalid? && s.end > p {
      var q := p + b[p];
      ScanResult(b, q);
      assert b[p..s.end][b[p]..] == b[q..s.end];
    }
  }

  /** No descriptor of unknown type can be skipped at p. */
  predicate Settled(b: seq<Byte>, p: nat) {
    p <= |b| && (ScanExtras(b, p) == Found(p) || ScanExtras(b, p) == Truncated(p))
  }

  lemma EndpointGood(b: seq<Byte>, p: nat, mem: Memory)
    requires p <= |b|
    ensures var r := ParseEndpoint(b, p, mem);
            r.Ok? && r.end > p ==> WellFormedEndpoint(r.value) && Settled(b, r.end)
  {
    var r := ParseEndpoint(b, p, mem);
    if r.Ok? && r.end > p {
      ScanResult(b, p + b[p]);
    }
  }

  predicate AllEndpoints(es: seq<Endpoint>) {
    forall i :: 0 <= i < |es| ==> WellFormedEndpoint(es[i])
  }

  lemma {:induction false} EndpointsGood(b: seq<Byte>, p: nat, n: nat, front: seq<Endpoint>, mem: Memory)
    requires Settled(b, p) && AllEndpoints(front)
    ensures var r := ParseEndpoints(b, p, n, front, mem);
            r.Ok? ==> AllEndpoints(r.value) && Settled(b, r.end)
    decreases n
  {
    hide ParseEndpoint, ScanExtras, WellFormedEndpoint;
    if n > 0 {
      EndpointGood(b, p, mem);
      var e := ParseEndpoint(b, p, mem);
      if e.Ok? && e.end > p {
        EndpointsGood(b, e.end, n - 1, front + [e.value], mem);
      }
    }
  }

  /** A setting as it is read from its own descriptor. */
  predicate FreshAlt(a: AltSetting) {
    && a.bDescriptorType == DT_INTERFACE && a.bLength >= DT_INTERFACE_SIZE && a.bNumEndpoints <= USB_MAXENDPOINTS
    && a.extra == [] && a.endpoints == []
  }

  lemma BodyGood(alt: AltSetting, b: seq<Byte>, p: nat, mem: Memory)
    requires p <= |b| && FreshAlt(alt)
    ensures var r := ParseBody(alt, b, p, mem);
            r.Ok? ==> WellFormedAlt(r.value) && r.value.bInterfaceNumber == alt.bInterfaceNumber && Settled(b, r.end)
  {
    hide ParseEndpoints, WellFormedEndpoint;
    ScanResult(b, p);
    var s := ScanExtras(b, p);
    if s.Found? {
      EndpointsGood(b, s.end, alt.bNumEndpoints, [], mem);
    }
  }

  /** A setting with the given number can be read at p. */
  predicate CanFollow(b: seq<Byte>, p: nat, number: int) {
    Continues(b, p, number) && DT_INTERFACE_SIZE <= b[p] <= |b| - p
  }

  /** Settings in front that share a number, -1 standing for none yet. */
  predicate Numbered(front: Interface, number: int) {
    && (number == -1 <==> front == [])
    && forall i :: 0 <= i < |front| ==> WellFormedAlt(front[i]) && front[i].bInterfaceNumber == number
  }

  lemma NumberedMore(front: Interface, number: int, a: AltSetting)
    requires Numbered(front, number) && WellFormedAlt(a) && a.bInterfaceNumber == Number(number, a.bInterfaceNumber)
    ensures Numbered(front + [a], a.bInterfaceNumber)
  {
  }

  lemma {:induction false} InterfaceGood(b: seq<Byte>, p: nat, number: int, front: Interface, mem: Memory)
    requires p <= |b| && Numbered(front, number) && (front == [] || Settled(b, p))
    requires front == [] || Continues(b, p, number)
    ensures var r := ParseInterface(b, p, number, front, mem);
            r.Ok? ==>
              && (r.end == p ==> r.value == front)
              && (r.value != [] ==> Numbered(r.value, r.value[0].bInterfaceNumber) && Settled(b, r.end)
                                    && !CanFollow(b, r.end, r.value[0].bInterfaceNumber))
              && (r.end > p ==> r.value != [] && CanFollow(b, p, Number(number, b[p + 2]))
                                && r.value[0].bInterfaceNumber == Number(number, b[p + 2]))
    decreases |b| - p
  {
    hide ParseBody, WellFormedAlt, ScanExtras;
    var r := ParseInterface(b, p, number, front, mem);
    if r.Ok? && r.end > p {
      var alt := AltFields(b, p);
      BodyGood(alt, b, p + b[p], mem);
      var body := ParseBody(alt, b, p + b[p], mem);
      NumberedMore(front, number, body.value);
      if !ScanExtras(b, p + b[p]).Truncated? && Continues(b, body.end, body.value.bInterfaceNumber) {
        InterfaceGood(b, body.end, body.value.bInterfaceNumber, front + [body.value], mem);
      } else if ScanExtras(b, p + b[p]).Truncated? {
        CutOff(alt, b, p + b[p], mem);
      }
    }
  }

  /** Where extra descriptors are cut off no setting can be read. */
  lemma CutOff(alt: AltSetting, b: seq<Byte>, p: nat, mem: Memory)
    requires p <= |b| && ScanExtras(b, p).Truncated?
    ensures var r := ParseBody(alt, b, p, mem);
            r.Ok? && forall number :: !CanFollow(b, r.end, number)
  {
    ScanResult(b, p);
  }

  /** The interfaces in front are well formed, and what is at p does not continue the last. */
  predicate Resumable(b: seq<Byte>, p: nat, front: Body) {
    && p <= |b| && WholeExtras(front.extra) && WellFormedInterfaces(front.interfaces)
    && (front.interfaces == [] ==> front.extra == [])
    && (front.interfaces != [] ==>
          Settled(b, p) && front.interfaces[|front.interfaces| - 1] != []
          && !CanFollow(b, p, front.interfaces[|front.interfaces| - 1][0].bInterfaceNumber))
  }

  lemma AddInterface(ifs: seq<Interface>, alts: Interface)
    requires WellFormedInterfaces(ifs) && WellFormedInterface(alts)
    requires ifs != [] ==> WellFormedInterface(ifs[|ifs| - 1])
                           && ifs[|ifs| - 1][0].bInterfaceNumber != alts[0].bInterfaceNumber
    ensures WellFormedInterfaces(ifs + [alts])
  {
    var all := ifs + [alts];
    forall i | 0 <= i < |all| ensures WellFormedInterface(all[i]) {
    }
    forall i {:trigger all[i]} | 0 < i < |all| ensures all[i][0].bInterfaceNumber != all[i - 1][0].bInterfaceNumber {
      if i < |ifs| {
        assert ifs[i][0].bInterfaceNumber != ifs[i - 1][0].bInterfaceNumber;
      }
    }
  }

  lemma LastGood(ifs: seq<Interface>)
    requires WellFormedInterfaces(ifs) && ifs != []
    ensures WellFormedInterface(ifs[|ifs| - 1])
  {
  }

  lemma NumberedGood(alts: Interface)
    requires alts != [] && Numbered(alts, alts[0].bInterfaceNumber)
    ensures WellFormedInterface(alts)
  {
  }

  lemma NextGood(b: seq<Byte>, p: nat, front: Body, mem: Memory)
    requires Resumable(b, p, front)
    ensures var t := NextInterface(b, p, front, mem);
            && (t.More? ==> Resumable(b, t.end, t.body))
            && (t.Stop? ==> WholeExtras(t.body.extra) && t.body.interfaces == front.interfaces)
  {
    hide ParseInterface, Numbered, WellFormedInterfaces, WellFormedInterface, WholeExtras;
    ScanResult(b, p);
    var s := ScanExtras(b, p);
    if s.Found? {
      assert [] + b[p..s.end] == b[p..s.end];
      assert front.interfaces != [] ==> front.extra + b[p..s.end] == front.extra;
      NoneYet();
      InterfaceGood(b, s.end, -1, [], mem);
      var r := ParseInterface(b, s.end, -1, [], mem);
      if r.Ok? && r.end > s.end {
        if front.interfaces != [] {
          LastGood(front.interfaces);
        }
        NumberedGood(r.value);
        AddInterface(front.interfaces, r.value);
      }
    }
  }

  lemma NoneYet()
    ensures Numbered([], -1)
  {
  }

  lemma {:induction false} InterfacesGood(b: seq<Byte>, p: nat, n: nat, front: Body, mem: Memory)
    requires Resumable(b, p, front)
    ensures var r := ParseInterfaces(b, p, n, front, mem);
            r.Ok? ==> WholeExtras(r.value.extra) && WellFormedInterfaces(r.value.interfaces)
    decreases n
  {
    hide NextInterface, WholeExtras, WellFormedInterfaces, Settled, CanFollow;
    if n > 0 {
      NextGood(b, p, front, mem);
      var t := NextInterface(b, p, front, mem);
      if t.More? {
        InterfacesGood(b, t.end, n - 1, t.body, mem);
      }
    }
  }

  /** Whatever bytes the parser accepts, the tree is well formed: the settings of an interface
      share one number, neighbouring interfaces differ in theirs, bNumEndpoints counts the
      endpoints and is at most 32, and the extras are whole descriptors of unknown types. */
  lemma ParsedIsWellFormed(b: seq<Byte>, mem: Memory)
    requires ParseConfiguration(b, mem).Ok?
    ensures WellFormed(ParseConfiguration(b, mem).value)
  {
    hide ParseInterfaces, WellFormedInterfaces, WellFormedInterface;
    assert WellFormedInterfaces([]) by {
      NoInterfaces();
    }
    InterfacesGood(b, b[0], b[4], Body([], []), mem);
  }

  lemma NoInterfaces()
    ensures WellFormedInterfaces([])
  {
  }

  /** What was parsed can be written and parsed again, exactly unless it has extra
      descriptors but no interface: then they are lost. */
  lemma NormalForm(b: seq<Byte>, mem: Memory, c: Config, again: Memory)
    requires ParseConfiguration(b, mem).Ok? && c == ParseConfiguration(b, mem).value && Unlimited(again)
    ensures WellFormed(c)
    ensures ParseConfiguration(Serialize(c), again) == Ok(c, |Serialize(c)|) <==> (c.interfaces == [] ==> c.extra == [])
  {
    ParsedIsWellFormed(b, mem);
    if c.interfaces == [] && c.extra != [] {
      NothingRead(c, again);
    } else {
      RoundTrip(c, again);
    }
  }

  lemma NothingRead(c: Config, mem: Memory)
    requires WellFormed(c) && c.interfaces == []
    ensures ParseConfiguration(Serialize(c), mem).Ok? ==> ParseConfiguration(Serialize(c), mem).value.extra == []
  {
    hide SerializeInterfaces, WholeExtras;
    var b := Serialize(c);
    Starts(b, b);
    SerializedAt(c, b);
    ConfigAt(b, c);
  }

  /** Such trees exist: one interface announced, none there, but a descriptor to skip. */
  lemma ExtrasWithoutInterface(mem: Memory)
    requires Unlimited(mem)
    ensures var c := Config(9, 2, 11, 0, 1, 0, 128, 50, [2, 11], []);
            ParseConfiguration([9, 2, 11, 0, 1, 1, 0, 128, 50, 2, 11], mem) == Ok(c, 11)
  {
    var b := [9, 2, 11, 0, 1, 1, 0, 128, 50, 2, 11];
    assert b[9..11] == [2, 11];
    assert ScanExtras(b, 11) == Found(11);
    assert ScanExtras(b, 9) == Found(11);
    assert ParseInterface(b, 11, -1, [], mem) == Ok([], 11);
    assert NextInterface(b, 9, Body([], []), mem) == Stop(Body([2, 11], []), 11);
  }

  // ----- Where the parser stops -----

  /** From p the lengths of whole descriptors lead to q. */
  predicate Chain(b: seq<Byte>, p: nat, q: nat)
    decreases |b| - p
  {
    p == q || (p + DESC_HEADER_LENGTH <= |b|
               && DESC_HEADER_LENGTH <= b[p] && p + b[p] <= q <= |b| && Chain(b, p + b[p], q))
  }

  lemma {:induction false} ChainJoin(b: seq<Byte>, p: nat, q: nat, r: nat)
    requires Chain(b, p, q) && Chain(b, q, r) && q <= r <= |b|
    ensures Chain(b, p, r)
    decreases |b| - p
  {
    if p != q {
      ChainJoin(b, p + b[p], q, r);
    }
  }

  lemma {:induction false} ScanChain(b: seq<Byte>, p: nat)
    requires p <= |b|
    ensures !ScanExtras(b, p).Invalid? ==> Chain(b, p, ScanExtras(b, p).end)
    decreases |b| - p
  {
    if ScanExtras(b, p) != Invalid && ScanExtras(b, p).end > p {
      ScanChain(b, p + b[p]);
    }
  }

  lemma EndpointChain(b: seq<Byte>, p: nat, mem: Memory)
    requires p <= |b|
    ensures ParseEndpoint(b, p, mem).Ok? ==> Chain(b, p, ParseEndpoint(b, p, mem).end)
  {
    if ParseEndpoint(b, p, mem).Ok? && ParseEndpoint(b, p, mem).end > p {
      ScanChain(b, p + b[p]);
    }
  }

  lemma {:induction false} EndpointsChain(b: seq<Byte>, p: nat, n: nat, front: seq<Endpoint>, mem: Memory)
    requires p <= |b|
    ensures var r := ParseEndpoints(b, p, n, front, mem);
            r.Ok? ==> Chain(b, p, r.end)
    decreases n
  {
    hide ParseEndpoint;
    if n > 0 {
      EndpointChain(b, p, mem);
      var e := ParseEndpoint(b, p, mem);
      var r := ParseEndpoints(b, p, n, front, mem);
      if e.Ok? && e.end > p && r.Ok? {
        EndpointsChain(b, e.end, n - 1, front + [e.value], mem);
        ChainJoin(b, p, e.end, r.end);
      }
    }
  }

  lemma BodyChain(alt: AltSetting, b: seq<Byte>, p: nat, mem: Memory)
    requires p <= |b|
    ensures var r := ParseBody(alt, b, p, mem);
            r.Ok? ==> Chain(b, p, r.end)
  {
    hide ParseEndpoints;
    ScanChain(b, p);
    var s, r := ScanExtras(b, p), ParseBody(alt, b, p, mem);
    if s.Found? && r.Ok? {
      EndpointsChain(b, s.end, alt.bNumEndpoints, [], mem);
      ChainJoin(b, p, s.end, r.end);
    }
  }

  lemma {:induction false} InterfaceChain(b: seq<Byte>, p: nat, number: int, front: Interface, mem: Memory)
    requires p <= |b|
    ensures var r := ParseInterface(b, p, number, front, mem);
            r.Ok? ==> Chain(b, p, r.end)
    decreases |b| - p
  {
    hide ParseBody, ScanExtras;
    var r := ParseInterface(b, p, number, front, mem);
    if r.Ok? && r.end > p {
      var q, num := p + b[p], Number(number, b[p + 2]);
      BodyChain(AltFields(b, p), b, q, mem);
      var body := ParseBody(AltFields(b, p), b, q, mem);
      if !ScanExtras(b, q).Truncated? && Continues(b, body.end, num) {
        InterfaceChain(b, body.end, num, front + [body.value], mem);
        ChainJoin(b, q, body.end, r.end);
      }
    }
  }

  lemma {:induction false} InterfacesChain(b: seq<Byte>, p: nat, n: nat, front: Body, mem: Memory)
    requires p <= |b|
    ensures var r := ParseInterfaces(b, p, n, front, mem);
            r.Ok? ==> Chain(b, p, r.end)
    decreases n
  {
    hide ParseInterface, ScanExtras;
    var r := ParseInterfaces(b, p, n, front, mem);
    if n > 0 && r.Ok? {
      ScanChain(b, p);
      var s := ScanExtras(b, p);
      if s.Found? {
        InterfaceChain(b, s.end, -1, [], mem);
        var t := NextInterface(b, p, front, mem);
        ChainJoin(b, p, s.end, t.end);
        if t.More? {
          InterfacesChain(b, t.end, n - 1, t.body, mem);
          ChainJoin(b, p, t.end, r.end);
        }
      }
    }
  }

  /** The bytes read are whole descriptors: what is left over starts where one ends. */
  lemma StopsBetweenDescriptors(b: seq<Byte>, mem: Memory)
    requires ParseConfiguration(b, mem).Ok?
    ensures Chain(b, 0, ParseConfiguration(b, mem).end)
  {
    hide ParseInterfaces;
    InterfacesChain(b, b[0], b[4], Body([], []), mem);
  }

  // ----- Allocation failures -----

  /** r0, obtained with failing allocations, is r or reports that memory ran out. */
  predicate SameUnlessNoMemory<T(==)>(r0: Parsed<T>, r: Parsed<T>) {
    r0 == Err(NO_MEM) || r0 == r
  }

  lemma {:induction false} EndpointsMemory(b: seq<Byte>, p: nat, n: nat, front: seq<Endpoint>, mem: Memory, all: Memory)
    requires p <= |b| && Unlimited(all)
    ensures SameUnlessNoMemory(ParseEndpoints(b, p, n, front, mem), ParseEndpoints(b, p, n, front, all))
    decreases n
  {
    hide ScanExtras;
    if n > 0 {
      var e := ParseEndpoint(b, p, mem);
      assert SameUnlessNoMemory(e, ParseEndpoint(b, p, all));
      if e.Ok? && e.end > p {
        EndpointsMemory(b, e.end, n - 1, front + [e.value], mem, all);
      }
    }
  }

  lemma BodyMemory(alt: AltSetting, b: seq<Byte>, p: nat, mem: Memory, all: Memory)
    requires p <= |b| && Unlimited(all)
    ensures SameUnlessNoMemory(ParseBody(alt, b, p, mem), ParseBody(alt, b, p, all))
  {
    hide ParseEndpoints, ScanExtras;
    if ScanExtras(b, p).Found? {
      EndpointsMemory(b, ScanExtras(b, p).end, alt.bNumEndpoints, [], mem, all);
    }
  }

  lemma {:induction false} InterfaceMemory(b: seq<Byte>, p: nat, number: int, front: Interface,
                                         mem: Memory, all: Memory)
    requires p <= |b| && Unlimited(all)
    ensures SameUnlessNoMemory(ParseInterface(b, p, number, front, mem), ParseInterface(b, p, number, front, all))
    decreases |b| - p
  {
    hide ParseBody, ScanExtras;
    if p + DT_INTERFACE_SIZE <= |b| && DT_INTERFACE_SIZE <= b[p] <= |b| - p {
      BodyMemory(AltFields(b, p), b, p + b[p], mem, all);
      var body := ParseBody(AltFields(b, p), b, p + b[p], mem);
      if body.Ok? {
        InterfaceMemory(b, body.end, Number(number, b[p + 2]), front + [body.value], mem, all);
      }
    }
  }

  lemma {:induction false} InterfacesMemory(b: seq<Byte>, p: nat, n: nat, front: Body, mem: Memory, all: Memory)
    requires p <= |b| && Unlimited(all)
    ensures SameUnlessNoMemory(ParseInterfaces(b, p, n, front, mem), ParseInterfaces(b, p, n, front, all))
    decreases n
  {
    hide ParseInterface, ScanExtras;
    if n > 0 && ScanExtras(b, p).Found? {
      InterfaceMemory(b, ScanExtras(b, p).end, -1, [], mem, all);
      var t := NextInterface(b, p, front, mem);
      if t.More? {
        InterfacesMemory(b, t.end, n - 1, t.body, mem, all);
      }
    }
  }

  /** A failing allocation never changes the tree: the call either returns what it would with
      all the memory it asks for, or reports that it ran out. */
  lemma OnlyNoMemory(b: seq<Byte>, mem: Memory, all: Memory)
    requires Unlimited(all)
    ensures ParseConfiguration(b, mem) == ParseConfiguration(b, all) || ParseConfiguration(b, mem) == Err(NO_MEM)
  {
    hide ParseInterfaces;
    if |b| >= DT_CONFIG_SIZE && b[0] <= |b| {
      InterfacesMemory(b, b[0], b[4], Body([], []), mem, all);
    }
  }
}
