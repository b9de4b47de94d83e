/** The configuration parser as the library runs it: a cursor over the bytes that is advanced
    in loops.  Each method is proved to return what Descriptors says. */
module ConfigParser {
  import opened Descriptors

  /** The loops that skip the descriptors of unknown type. */
  method SkipExtras(b: seq<Byte>, begin: nat) returns (s: Scan)
    requires begin <= |b|
    ensures s == ScanExtras(b, begin)
  {
    var buffer: nat, size := begin, |b| - begin;
    while size >= DESC_HEADER_LENGTH
      invariant buffer <= |b| && size == |b| - buffer && ScanExtras(b, begin) == ScanExtras(b, buffer)
      decreases size
    {
      if b[buffer] < DESC_HEADER_LENGTH {
        return Invalid;
      } else if b[buffer] > size {
        return Truncated(buffer);
      }
      if IsProper(b[buffer + 1]) {
        break;
      }
      buffer, size := buffer + b[buffer], size - b[buffer];
    }
    return Found(buffer);
  }

  /** parse_endpoint */
  method Endpoint(b: seq<Byte>, p: nat, mem: Memory) returns (r: Parsed<Endpoint>)
    requires p <= |b|
    ensures r == ParseEndpoint(b, p, mem)
  {
    var endpoint, size := NoEndpoint(), |b| - p;
    if size < DESC_HEADER_LENGTH {
      return Err(IO);
    }
    if b[p + 1] != DT_ENDPOINT {
      return Ok(endpoint, p);
    } else if b[p] < DT_ENDPOINT_SIZE {
      return Err(IO);
    } else if b[p] > size {
      return Ok(endpoint, p);
    }
    endpoint := endpoint.(bLength := b[p], bDescriptorType := b[p + 1], bEndpointAddress := b[p + 2],
                          bmAttributes := b[p + 3], wMaxPacketSize := LittleEndian16(b[p + 4], b[p + 5]),
                          bInterval := b[p + 6]);
    if b[p] >= DT_ENDPOINT_AUDIO_SIZE {
      endpoint := endpoint.(bRefresh := b[p + 7], bSynchAddress := b[p + 8]);
    }
    var begin := p + b[p];
    var scan := SkipExtras(b, begin);
    match scan {
      case Invalid => return Err(IO);
      case Truncated(end) => return Ok(endpoint, end);
      case Found(end) =>
        if end - begin <= 0 {
          assert b[begin..end] == [];
          return Ok(endpoint, end);
        }
        if !mem(ForEndpointExtra, |b| - end) {
          return Err(NO_MEM);
        }
        return Ok(endpoint.(extra := b[begin..end]), end);
    }
  }

  /** The endpoint loop of parse_interface. */
  method Endpoints(b: seq<Byte>, p: nat, n: nat, mem: Memory) returns (r: Parsed<seq<Endpoint>>)
    requires p <= |b|
    ensures r == ParseEndpoints(b, p, n, [], mem)
  {
    hide ParseEndpoint;
    var buffer: nat := p;
    var endpoints: seq<Descriptors.Endpoint> := [];
    var i := 0;
    while i < n
      invariant 0 <= i <= n && buffer <= |b|
      invariant ParseEndpoints(b, p, n, [], mem) == ParseEndpoints(b, buffer, n - i, endpoints, mem)
    {
      var e := Endpoint(b, buffer, mem);
      if e.Err? {
        return Err(e.error);
      }
      if e.end == buffer {
        break;
      }
      endpoints := endpoints + [e.value];
      buffer := e.end;
      i := i + 1;
    }
    return Ok(endpoints, buffer);
  }

  /** The part of parse_interface's loop that follows the header of a setting. */
  method Body(alt: AltSetting, b: seq<Byte>, p: nat, mem: Memory) returns (r: Parsed<AltSetting>, cut: bool)
    requires p <= |b| && alt.extra == [] && alt.endpoints == []
    ensures r == ParseBody(alt, b, p, mem) && cut == ScanExtras(b, p).Truncated?
  {
    var ifp := alt;
    var scan := SkipExtras(b, p);
    match scan {
      case Invalid => return Err(IO), false;
      case Truncated(end) =>
        ifp := ifp.(bNumEndpoints := 0);
        return Ok(ifp, end), true;
      case Found(end) =>
        if end - p > 0 {
          if !mem(ForInterfaceExtra, |b| - end) {
            return Err(NO_MEM), false;
          }
          ifp := ifp.(extra := b[p..end]);
        }
        assert ifp.extra == b[p..end];
        assert ParseEndpoints(b, end, 0, [], mem) == Ok([], end);
        var q := end;
        if ifp.bNumEndpoints > 0 {
          if !mem(ForEndpoints, |b| - end) {
            return Err(NO_MEM), false;
          }
          var es := Endpoints(b, end, ifp.bNumEndpoints, mem);
          if es.Err? {
            return Err(es.error), false;
          }
          ifp := ifp.(endpoints := es.value);
          if |es.value| < ifp.bNumEndpoints {
            ifp := ifp.(bNumEndpoints := |es.value|);
          }
          q := es.end;
        }
        return Ok(ifp, q), false;
    }
  }

  /** parse_interface */
  method Interface(b: seq<Byte>, p: nat, mem: Memory) returns (r: Parsed<Descriptors.Interface>)
    requires p <= |b|
    ensures r == ParseInterface(b, p, -1, [], mem)
  {
    hide ParseBody, ScanExtras;
    var buffer: nat, interfaceNumber: int := p, -1;
    var altsettings: Descriptors.Interface := [];
    while |b| - buffer >= DT_INTERFACE_SIZE
      invariant buffer <= |b|
      invariant ParseInterface(b, p, -1, [], mem) == ParseInterface(b, buffer, interfaceNumber, altsettings, mem)
      decreases |b| - buffer
    {
      if !mem(ForAltSettings, |b| - buffer) {
        return Err(NO_MEM);
      }
      var ifp := AltFields(b, buffer);
      if ifp.bDescriptorType != DT_INTERFACE {
        return Ok(altsettings, buffer);
      } else if ifp.bLength < DT_INTERFACE_SIZE {
        return Err(IO);
      } else if ifp.bLength > |b| - buffer {
        return Ok(altsettings, buffer);
      } else if ifp.bNumEndpoints > USB_MAXENDPOINTS {
        return Err(IO);
      }
      if interfaceNumber == -1 {
        interfaceNumber := ifp.bInterfaceNumber;
      }
      var body, cut := Body(ifp, b, buffer + ifp.bLength, mem);
      if body.Err? {
        return Err(body.error);
      }
      altsettings := altsettings + [body.value];
      buffer := body.end;
      if cut || !Continues(b, buffer, interfaceNumber) {
        return Ok(altsettings, buffer);
      }
    }
    return Ok(altsettings, buffer);
  }

  /** The body of the interface loop of parse_configuration. */
  method OneInterface(b: seq<Byte>, p: nat, front: Descriptors.Body, mem: Memory) returns (t: Turn)
    requires p <= |b|
    ensures t == NextInterface(b, p, front, mem)
  {
    hide ParseInterface, ScanExtras;
    var scan := SkipExtras(b, p);
    if scan.Invalid? {
      return Fail(IO);
    } else if scan.Truncated? {
      return Stop(front, scan.end);
    }
    var buffer := scan.end;
    if buffer - p > 0 {
      if !mem(ForConfigExtra, |b| - buffer) {
        return Fail(NO_MEM);
      }
    }
    var extra := front.extra + b[p..buffer];
    var alts := Interface(b, buffer, mem);
    if alts.Err? {
      return Fail(alts.error);
    }
    if alts.end == buffer {
      return Stop(front.(extra := extra), buffer);
    }
    return More(Descriptors.Body(extra, front.interfaces + [alts.value]), alts.end);
  }

  /** The interface loop of parse_configuration. */
  method Interfaces(b: seq<Byte>, p: nat, n: nat, mem: Memory) returns (r: Parsed<Descriptors.Body>)
    requires p <= |b|
    ensures r == ParseInterfaces(b, p, n, Descriptors.Body([], []), mem)
  {
    hide NextInterface;
    var buffer: nat := p;
    var body := Descriptors.Body([], []);
    var i := 0;
    while i < n
      invariant 0 <= i <= n && buffer <= |b|
      invariant ParseInterfaces(b, p, n, Descriptors.Body([], []), mem) == ParseInterfaces(b, buffer, n - i, body, mem)
    {
      var t := OneInterface(b, buffer, body, mem);
      if t.Fail? {
        return Err(t.error);
      }
      body, buffer := t.body, t.end;
      if t.Stop? {
        break;
      }
      i := i + 1;
    }
    return Ok(body, buffer);
  }

  /** parse_configuration: on success left is the number of bytes it did not read. */
  method Configuration(b: seq<Byte>, mem: Memory) returns (config: Config, left: int, error: Error)
    ensures match ParseConfiguration(b, mem)
            case Err(e) => left < 0 && error == e
            case Ok(c, end) => config == c && left == |b| - end
  {
    config, left, error := Config(0, 0, 0, 0, 0, 0, 0, 0, [], []), -1, IO;
    if |b| < DT_CONFIG_SIZE {
      return;
    }
    config := ConfigFields(b);
    if config.bDescriptorType != DT_CONFIG {
      return;
    } else if config.bLength < DT_CONFIG_SIZE {
      return;
    } else if config.bLength > |b| {
      return;
    } else if config.bNumInterfaces > USB_MAXINTERFACES {
      return;
    }
    if !mem(ForInterfaces, |b|) {
      error := NO_MEM;
      return;
    }
    var r := Interfaces(b, config.bLength, config.bNumInterfaces, mem);
    match r {
      case Err(e) => error := e;
      case Ok(body, end) =>
        config := config.(extra := body.extra, interfaces := body.interfaces);
        if |body.interfaces| < config.bNumInterfaces {
          config := config.(bNumInterfaces := |body.interfaces|);
        }
        left := |b| - end;
    }
  }
}
