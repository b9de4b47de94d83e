/** What the configuration parser makes of a tree whose bytes end too early. */
module ConfigCuts {
  import opened Descriptors
  import opened ConfigProofs

  /** The extra descriptors at the end of a setting. */
  function AltExtra(a: AltSetting): seq<Byte> {
    if a.endpoints == [] then a.extra else a.endpoints[|a.endpoints| - 1].extra
  }

  /** The extra descriptors at the end of a configuration, of its last endpoint or setting. */
  function LastExtra(c: Config): seq<Byte>
    requires c.interfaces != [] && c.interfaces[|c.interfaces| - 1] != []
  {
    var alts := c.interfaces[|c.interfaces| - 1];
    AltExtra(alts[|alts| - 1])
  }

  /** The bytes that whole descriptors take up among the first k of x. */
  function WholePart(x: seq<Byte>, k: nat): (w: nat)
    requires WholeExtras(x) && k <= |x|
    ensures w <= k
    decreases |x|
  {
    if k < 2 || x[0] > k then 0 else x[0] + WholePart(x[x[0]..], k - x[0])
  }

  lemma {:induction false} WholePartIs(x: seq<Byte>, k: nat)
    requires WholeExtras(x) && k <= |x|
    ensures var w := WholePart(x, k);
            WholeExtras(x[..w]) && (k - w < 2 || x[w] > k - w)
    decreases |x|
  {
    var w := WholePart(x, k);
    if k >= 2 && x[0] <= k {
      var rest, v := x[x[0]..], WholePart(x[x[0]..], k - x[0]);
      WholePartIs(rest, k - x[0]);
      assert x[..w][x[0]..] == rest[..v];
      assert k - w >= 2 ==> x[w] == rest[v];
    } else {
      assert x[..w] == [];
    }
  }

  // ----- The end of a serialized tree -----

  lemma {:induction false} EndpointsAppend(es: seq<Endpoint>, e: Endpoint)
    ensures SerializeEndpoints(es + [e]) == SerializeEndpoints(es) + SerializeEndpoint(e)
  {
    hide SerializeEndpoint;
    if es == [] {
      assert es + [e] == [e];
    } else {
      EndpointsAppend(es[1..], e);
      assert (es + [e])[1..] == es[1..] + [e];
    }
  }

  lemma {:induction false} InterfaceAppend(alts: Interface, a: AltSetting)
    ensures SerializeInterface(alts + [a]) == SerializeInterface(alts) + SerializeAlt(a)
  {
    hide SerializeAlt;
    if alts == [] {
      assert alts + [a] == [a];
    } else {
      InterfaceAppend(alts[1..], a);
      assert (alts + [a])[1..] == alts[1..] + [a];
    }
  }

  lemma {:induction false} InterfacesAppend(ifs: seq<Interface>, alts: Interface)
    ensures SerializeInterfaces(ifs + [alts]) == SerializeInterfaces(ifs) + SerializeInterface(alts)
  {
    hide SerializeInterface;
    if ifs == [] {
      assert ifs + [alts] == [alts];
    } else {
      InterfacesAppend(ifs[1..], alts);
      assert (ifs + [alts])[1..] == ifs[1..] + [alts];
    }
  }

  lemma EndpointEnd(e: Endpoint, x: seq<Byte>)
    ensures SerializeEndpoint(e.(extra := x)) == SerializeEndpoint(e.(extra := [])) + x
  {
    assert EndpointHeader(e.(extra := x)) == EndpointHeader(e.(extra := []));
  }

  lemma EndpointsEnd(es: seq<Endpoint>, x: seq<Byte>)
    requires es != []
    ensures SerializeEndpoints(EndpointsWith(es, x)) == SerializeEndpoints(EndpointsWith(es, [])) + x
  {
    hide SerializeEndpoints, SerializeEndpoint;
    var init, e := es[..|es| - 1], es[|es| - 1];
    EndpointsAppend(init, e.(extra := x));
    EndpointsAppend(init, e.(extra := []));
    EndpointEnd(e, x);
    assert EndpointsWith(es, x) == init + [e.(extra := x)];
    assert EndpointsWith(es, []) == init + [e.(extra := [])];
  }

  lemma AltEnd(a: AltSetting, x: seq<Byte>)
    ensures SerializeAlt(AltWith(a, x)) == SerializeAlt(AltWith(a, [])) + x
    ensures AltWith(a, AltExtra(a)) == a
  {
    hide SerializeEndpoints;
    assert AltHeader(AltWith(a, x)) == AltHeader(AltWith(a, []));
    if a.endpoints == [] {
      NoEndpoints();
    } else {
      EndpointsEnd(a.endpoints, x);
    }
  }

  lemma InterfaceEnd(alts: Interface, x: seq<Byte>)
    requires alts != []
    ensures SerializeInterface(InterfaceWith(alts, x)) == SerializeInterface(InterfaceWith(alts, [])) + x
    ensures InterfaceWith(alts, AltExtra(alts[|alts| - 1])) == alts
  {
    hide SerializeInterface, SerializeAlt, AltWith, AltExtra;
    var init, a := alts[..|alts| - 1], alts[|alts| - 1];
    InterfaceAppend(init, AltWith(a, x));
    InterfaceAppend(init, AltWith(a, []));
    AltEnd(a, x);
    assert InterfaceWith(alts, x) == init + [AltWith(a, x)];
    assert InterfaceWith(alts, []) == init + [AltWith(a, [])];
  }

  lemma InterfacesEnd(ifs: seq<Interface>, x: seq<Byte>)
    requires ifs != [] && ifs[|ifs| - 1] != []
    ensures SerializeInterfaces(InterfacesWith(ifs, x)) == SerializeInterfaces(InterfacesWith(ifs, [])) + x
    ensures var alts := ifs[|ifs| - 1];
            InterfacesWith(ifs, AltExtra(alts[|alts| - 1])) == ifs
  {
    hide SerializeInterfaces, SerializeInterface, InterfaceWith, AltExtra;
    var init, alts := ifs[..|ifs| - 1], ifs[|ifs| - 1];
    InterfacesAppend(init, InterfaceWith(alts, x));
    InterfacesAppend(init, InterfaceWith(alts, []));
    InterfaceEnd(alts, x);
    assert InterfacesWith(ifs, x) == init + [InterfaceWith(alts, x)];
    assert InterfacesWith(ifs, []) == init + [InterfaceWith(alts, [])];
  }

  lemma ConfigEnd(c: Config, x: seq<Byte>)
    requires c.interfaces != [] && c.interfaces[|c.interfaces| - 1] != []
    ensures Serialize(With(c, x)) == Serialize(With(c, [])) + x
    ensures With(c, LastExtra(c)) == c
  {
    hide SerializeInterfaces, InterfacesWith;
    InterfacesEnd(c.interfaces, x);
    assert ConfigHeader(With(c, x)) == ConfigHeader(With(c, []));
  }

  // ----- Replacing extras keeps a tree well formed -----

  lemma AltKept(a: AltSetting, x: seq<Byte>)
    requires WellFormedAlt(a) && WholeExtras(x)
    ensures WellFormedAlt(AltWith(a, x)) && AltWith(a, x).bInterfaceNumber == a.bInterfaceNumber
    ensures AltWith(AltWith(a, x), []) == AltWith(a, [])
  {
    hide WholeExtras;
  }

  lemma InterfaceKept(alts: Interface, x: seq<Byte>)
    requires WellFormedInterface(alts) && WholeExtras(x)
    ensures WellFormedInterface(InterfaceWith(alts, x)) && |InterfaceWith(alts, x)| == |alts|
    ensures InterfaceWith(alts, x)[0].bInterfaceNumber == alts[0].bInterfaceNumber
    ensures InterfaceWith(InterfaceWith(alts, x), []) == InterfaceWith(alts, [])
  {
    hide WholeExtras, WellFormedAlt, AltWith;
    AltKept(alts[|alts| - 1], x);
  }

  lemma InterfacesKept(ifs: seq<Interface>, x: seq<Byte>)
    requires WellFormedInterfaces(ifs) && WholeExtras(x)
    ensures WellFormedInterfaces(InterfacesWith(ifs, x)) && |InterfacesWith(ifs, x)| == |ifs|
    ensures InterfacesWith(InterfacesWith(ifs, x), []) == InterfacesWith(ifs, [])
  {
    hide WholeExtras, WellFormedInterface, InterfaceWith;
    if ifs != [] {
      LastGood(ifs);
      InterfaceKept(ifs[|ifs| - 1], x);
      SameNumbers(ifs, InterfacesWith(ifs, x));
    }
  }

  lemma SameNumbers(ifs: seq<Interface>, jfs: seq<Interface>)
    requires WellFormedInterfaces(ifs) && |jfs| == |ifs|
    requires forall i :: 0 <= i < |ifs| ==>
               WellFormedInterface(jfs[i]) && jfs[i][0].bInterfaceNumber == ifs[i][0].bInterfaceNumber
    ensures WellFormedInterfaces(jfs)
  {
    hide WellFormedAlt;
    forall i {:trigger jfs[i]} | 0 < i < |jfs| ensures jfs[i][0].bInterfaceNumber != jfs[i - 1][0].bInterfaceNumber {
      assert ifs[i][0].bInterfaceNumber != ifs[i - 1][0].bInterfaceNumber;
    }
  }

  lemma CutBytes(s: seq<Byte>, x: seq<Byte>, w: nat, k: nat)
    requires w <= k <= |x|
    ensures (s + x)[..|s| + k] == s + x[..w] + x[w..k]
  {
  }

  lemma CutCloses(s: seq<Byte>, x: seq<Byte>, w: nat, k: nat, ifs: seq<Interface>)
    requires w <= k <= |x| && (k - w < 2 || x[w] > k - w)
    ensures var b := s + x[w..k];
            Closed(b, |s|, ifs) && (k - w >= 2 <==> CutAt(b, |s|))
  {
    assert k > w ==> (s + x[w..k])[|s|] == x[w];
  }

  /** A tree cut inside the extra descriptors at its end parses to the tree up to there: with
      the whole descriptors that are left, or with none if two bytes or more of a further one
      are. */
  lemma CutInExtras(c: Config, k: nat, mem: Memory)
    requires WellFormed(c) && c.interfaces != [] && Unlimited(mem) && k <= |LastExtra(c)|
    ensures var x := LastExtra(c);
            && WholeExtras(x) && |x| <= |Serialize(c)|
            && var w := WholePart(x, k);
               ParseConfiguration(Serialize(c)[..|Serialize(c)| - |x| + k], mem)
               == Ok(With(c, if k - w >= 2 then [] else x[..w]), |Serialize(c)| - |x| + w)
  {
    hide Serialize, ParseConfiguration, InterfacesWith, WellFormedInterfaces;
    LastExtraWhole(c);
    var x := LastExtra(c);
    var w := WholePart(x, k);
    WholePartIs(x, k);
    var d := With(c, x[..w]);
    InterfacesKept(c.interfaces, x[..w]);
    ConfigEnd(c, x);
    ConfigEnd(c, x[..w]);
    var b, end := Serialize(c)[..|Serialize(c)| - |x| + k], |Serialize(d)|;
    CutBytes(Serialize(With(c, [])), x, w, k);
    assert b == Serialize(d) + x[w..k];
    assert Closed(b, end, d.interfaces) && (k - w >= 2 <==> CutAt(b, end)) by {
      CutCloses(Serialize(d), x, w, k, d.interfaces);
    }
    hide Closed, CutAt, LastExtra, WholePart, WholeExtras;
    SerializedBack(b, d, mem);
  }

  lemma LastExtraWhole(c: Config)
    requires WellFormed(c) && c.interfaces != []
    ensures c.interfaces[|c.interfaces| - 1] != [] && WholeExtras(LastExtra(c))
  {
    hide WholeExtras;
    LastGood(c.interfaces);
    var alts := c.interfaces[|c.interfaces| - 1];
    var a := alts[|alts| - 1];
    assert WellFormedAlt(a);
    if a.endpoints != [] {
      assert WellFormedEndpoint(a.endpoints[|a.endpoints| - 1]);
    }
  }
}
