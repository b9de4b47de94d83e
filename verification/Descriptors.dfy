/** Configuration descriptors (sections 9.6.3, 9.6.5 and 9.6.6 of the USB 3.0 specification):
    the tree the parser builds, what it makes of any bytes, and a serializer. */
module Descriptors {
  /** A byte of a buffer.  Nothing the parser does depends on its being below 256;
      ConfigProofs.SerializedBytes says that the serializer writes only such bytes. */
  type Byte = nat

  const DESC_HEADER_LENGTH := 2
  const DT_CONFIG_SIZE := 9
  const DT_INTERFACE_SIZE := 9
  const DT_ENDPOINT_SIZE := 7
  const DT_ENDPOINT_AUDIO_SIZE := 9
  const USB_MAXENDPOINTS := 32
  const USB_MAXINTERFACES := 32

  const DT_DEVICE: Byte := 1
  const DT_CONFIG: Byte := 2
  const DT_INTERFACE: Byte := 4
  const DT_ENDPOINT: Byte := 5

  datatype Endpoint = Endpoint(
    bLength: Byte, bDescriptorType: Byte, bEndpointAddress: Byte, bmAttributes: Byte, wMaxPacketSize: nat,
    bInterval: Byte, bRefresh: Byte, bSynchAddress: Byte, extra: seq<Byte>)

  datatype AltSetting = AltSetting(
    bLength: Byte, bDescriptorType: Byte, bInterfaceNumber: Byte, bAlternateSetting: Byte, bNumEndpoints: Byte,
    bInterfaceClass: Byte, bInterfaceSubClass: Byte, bInterfaceProtocol: Byte, iInterface: Byte,
    extra: seq<Byte>, endpoints: seq<Endpoint>)

  /** The alternate settings of one interface. */
  type Interface = seq<AltSetting>

  datatype Config = Config(
    bLength: Byte, bDescriptorType: Byte, wTotalLength: nat, bNumInterfaces: Byte, bConfigurationValue: Byte,
    iConfiguration: Byte, bmAttributes: Byte, maxPower: Byte, extra: seq<Byte>, interfaces: seq<Interface>)

  datatype Error = IO | NO_MEM

  /** A value and where the bytes it was read from end, or an error. */
  datatype Parsed<+T> = Ok(value: T, end: nat) | Err(error: Error)

  /** The allocations of the parser; together with the number of bytes left, each occurs at
      most once, so that a function of both can fail any of them. */
  datatype Allocation = ForAltSettings | ForInterfaceExtra | ForEndpoints | ForEndpointExtra
                        | ForInterfaces | ForConfigExtra
  type Memory = (Allocation, nat) -> bool

  predicate IsProper(t: Byte) {
    t == DT_ENDPOINT || t == DT_INTERFACE || t == DT_CONFIG || t == DT_DEVICE
  }

  function LittleEndian16(low: Byte, high: Byte): nat {
    low + 256 * high
  }

  // ----- Parsing: b is the whole buffer and p the cursor -----

  /** The descriptors of unknown type at p: they end at a proper one or at the end of the
      buffer (Found), at one with an impossible length (Invalid), or at one cut off by the end
      of the buffer (Truncated). */
  datatype Scan = Found(end: nat) | Invalid | Truncated(end: nat)

  function ScanExtras(b: seq<Byte>, p: nat): (s: Scan)
    requires p <= |b|
    ensures s.Found? || s.Truncated? ==> p <= s.end <= |b|
    decreases |b| - p
  {
    if |b| - p < DESC_HEADER_LENGTH then Found(p)
    else if b[p] < DESC_HEADER_LENGTH then Invalid
    else if b[p] > |b| - p then Truncated(p)
    else if IsProper(b[p + 1]) then Found(p)
    else ScanExtras(b, p + b[p])
  }

  function EndpointFields(b: seq<Byte>, p: nat): Endpoint
    requires p + DT_ENDPOINT_SIZE <= |b| && p + b[p] <= |b|
  {
    Endpoint(b[p], b[p + 1], b[p + 2], b[p + 3], LittleEndian16(b[p + 4], b[p + 5]), b[p + 6],
             if b[p] >= DT_ENDPOINT_AUDIO_SIZE then b[p + 7] else 0,
             if b[p] >= DT_ENDPOINT_AUDIO_SIZE then b[p + 8] else 0, [])
  }

  /** The zeroed endpoint of a freshly allocated array. */
  function NoEndpoint(): Endpoint {
    Endpoint(0, 0, 0, 0, 0, 0, 0, 0, [])
  }

  /** One endpoint and the descriptors that follow it; the cursor stays if there is none. */
  function ParseEndpoint(b: seq<Byte>, p: nat, mem: Memory): (r: Parsed<Endpoint>)
    requires p <= |b|
    ensures r.Ok? ==> p <= r.end <= |b|
  {
    if |b| - p < DESC_HEADER_LENGTH then Err(IO)
    else if b[p + 1] != DT_ENDPOINT then Ok(NoEndpoint(), p)
    else if b[p] < DT_ENDPOINT_SIZE then Err(IO)
    else if b[p] > |b| - p then Ok(NoEndpoint(), p)
    else
      match ScanExtras(b, p + b[p])
      case Invalid => Err(IO)
      case Truncated(end) => Ok(EndpointFields(b, p), end)
      case Found(end) =>
        if end > p + b[p] && !mem(ForEndpointExtra, |b| - end) then Err(NO_MEM)
        else Ok(EndpointFields(b, p).(extra := b[p + b[p]..end]), end)
  }

  /** Up to n more endpoints after those in front. */
  function ParseEndpoints(b: seq<Byte>, p: nat, n: nat, front: seq<Endpoint>, mem: Memory): (r: Parsed<seq<Endpoint>>)
    requires p <= |b|
    ensures r.Ok? ==> p <= r.end <= |b| && |front| <= |r.value| <= |front| + n
    decreases n
  {
    if n == 0 then Ok(front, p)
    else
      match ParseEndpoint(b, p, mem)
      case Err(e) => Err(e)
      case Ok(e, q) => if q == p then Ok(front, p) else ParseEndpoints(b, q, n - 1, front + [e], mem)
  }

  function AltFields(b: seq<Byte>, p: nat): AltSetting
    requires p + DT_INTERFACE_SIZE <= |b|
  {
    AltSetting(b[p], b[p + 1], b[p + 2], b[p + 3], b[p + 4], b[p + 5], b[p + 6], b[p + 7], b[p + 8], [], [])
  }

  /** A setting with its extra descriptors and endpoints, read from behind its own
      descriptor.  If its extra descriptors are cut off, it counts as having no endpoints. */
  function ParseBody(alt: AltSetting, b: seq<Byte>, p: nat, mem: Memory): (r: Parsed<AltSetting>)
    requires p <= |b|
    ensures r.Ok? ==> p <= r.end <= |b|
  {
    match ScanExtras(b, p)
    case Invalid => Err(IO)
    case Truncated(end) => Ok(alt.(bNumEndpoints := 0), end)
    case Found(end) =>
      if end > p && !mem(ForInterfaceExtra, |b| - end) then Err(NO_MEM)
      else if alt.bNumEndpoints > 0 && !mem(ForEndpoints, |b| - end) then Err(NO_MEM)
      else
        match ParseEndpoints(b, end, alt.bNumEndpoints, [], mem)
        case Err(e) => Err(e)
        case Ok(es, q) => Ok(alt.(extra := b[p..end], endpoints := es, bNumEndpoints := |es|), q)
  }

  /** Another setting of the interface starts at p. */
  predicate Continues(b: seq<Byte>, p: nat, number: int) {
    p + DT_INTERFACE_SIZE <= |b| && b[p + 1] == DT_INTERFACE && b[p + 2] == number
  }

  /** The number of the interface is that of its first setting. */
  function Number(number: int, first: Byte): int {
    if number == -1 then first else number
  }

  /** The interface at p: its settings, after those in front, as long as they carry one
      number. */
  function ParseInterface(b: seq<Byte>, p: nat, number: int, front: Interface, mem: Memory): (r: Parsed<Interface>)
    requires p <= |b|
    ensures r.Ok? ==> p <= r.end <= |b|
    decreases |b| - p
  {
    if |b| - p < DT_INTERFACE_SIZE then Ok(front, p)
    else if !mem(ForAltSettings, |b| - p) then Err(NO_MEM)
    else if b[p + 1] != DT_INTERFACE then Ok(front, p)
    else if b[p] < DT_INTERFACE_SIZE then Err(IO)
    else if b[p] > |b| - p then Ok(front, p)
    else if b[p + 4] > USB_MAXENDPOINTS then Err(IO)
    else
      match ParseBody(AltFields(b, p), b, p + b[p], mem)
      case Err(e) => Err(e)
      case Ok(alt, q) =>
        if ScanExtras(b, p + b[p]).Truncated? || !Continues(b, q, Number(number, b[p + 2])) then Ok(front + [alt], q)
        else ParseInterface(b, q, Number(number, b[p + 2]), front + [alt], mem)
  }

  /** The extra bytes found between interfaces, and the interfaces. */
  datatype Body = Body(extra: seq<Byte>, interfaces: seq<Interface>)

  /** The outcome of a turn of the interface loop. */
  datatype Turn = Fail(error: Error) | Stop(body: Body, end: nat) | More(body: Body, end: nat)

  /** Skips the extra descriptors at p and parses an interface. */
  function NextInterface(b: seq<Byte>, p: nat, front: Body, mem: Memory): (t: Turn)
    requires p <= |b|
    ensures !t.Fail? ==> p <= t.end <= |b|
    ensures t.Stop? ==> |t.body.interfaces| == |front.interfaces|
    ensures t.More? ==> |t.body.interfaces| == |front.interfaces| + 1
  {
    match ScanExtras(b, p)
    case Invalid => Fail(IO)
    case Truncated(end) => Stop(front, end)
    case Found(q) =>
      if q > p && !mem(ForConfigExtra, |b| - q) then Fail(NO_MEM)
      else
        match ParseInterface(b, q, -1, [], mem)
        case Err(e) => Fail(e)
        case Ok(alts, r) =>
          if r == q then Stop(front.(extra := front.extra + b[p..q]), q)
          else More(Body(front.extra + b[p..q], front.interfaces + [alts]), r)
  }

  /** Up to n more interfaces after those in front. */
  function ParseInterfaces(b: seq<Byte>, p: nat, n: nat, front: Body, mem: Memory): (r: Parsed<Body>)
    requires p <= |b|
    ensures r.Ok? ==> p <= r.end <= |b| && |r.value.interfaces| <= |front.interfaces| + n
    decreases n
  {
    if n == 0 then Ok(front, p)
    else
      match NextInterface(b, p, front, mem)
      case Fail(e) => Err(e)
      case Stop(body, end) => Ok(body, end)
      case More(body, end) => ParseInterfaces(b, end, n - 1, body, mem)
  }

  function ConfigFields(b: seq<Byte>): Config
    requires |b| >= DT_CONFIG_SIZE
  {
    Config(b[0], b[1], LittleEndian16(b[2], b[3]), b[4], b[5], b[6], b[7], b[8], [], [])
  }

  /** The configuration at the start of b. */
  function ParseConfiguration(b: seq<Byte>, mem: Memory): (r: Parsed<Config>)
    ensures r.Ok? ==> r.end <= |b|
  {
    if |b| < DT_CONFIG_SIZE then Err(IO)
    else if b[1] != DT_CONFIG || b[0] < DT_CONFIG_SIZE || b[0] > |b| || b[4] > USB_MAXINTERFACES then Err(IO)
    else if !mem(ForInterfaces, |b|) then Err(NO_MEM)
    else
      match ParseInterfaces(b, b[0], b[4], Body([], []), mem)
      case Err(e) => Err(e)
      case Ok(body, end) =>
        Ok(ConfigFields(b).(extra := body.extra, interfaces := body.interfaces,
                           bNumInterfaces := |body.interfaces|), end)
  }

  // ----- Serializing -----

  /** Byte i of the descriptor of an endpoint; those past its fields are zero. */
  function EndpointByte(e: Endpoint, i: nat): Byte {
    match i
    case 0 => e.bLength
    case 1 => e.bDescriptorType
    case 2 => e.bEndpointAddress
    case 3 => e.bmAttributes
    case 4 => e.wMaxPacketSize % 256
    case 5 => e.wMaxPacketSize / 256
    case 6 => e.bInterval
    case 7 => e.bRefresh
    case 8 => e.bSynchAddress
    case _ => 0
  }

  function EndpointHeader(e: Endpoint): seq<Byte> {
    seq(e.bLength, i requires i >= 0 => EndpointByte(e, i))
  }

  function SerializeEndpoint(e: Endpoint): seq<Byte> {
    EndpointHeader(e) + e.extra
  }

  function SerializeEndpoints(es: seq<Endpoint>): seq<Byte> {
    if es == [] then [] else SerializeEndpoint(es[0]) + SerializeEndpoints(es[1..])
  }

  function AltByte(a: AltSetting, i: nat): Byte {
    match i
    case 0 => a.bLength
    case 1 => a.bDescriptorType
    case 2 => a.bInterfaceNumber
    case 3 => a.bAlternateSetting
    case 4 => a.bNumEndpoints
    case 5 => a.bInterfaceClass
    case 6 => a.bInterfaceSubClass
    case 7 => a.bInterfaceProtocol
    case 8 => a.iInterface
    case _ => 0
  }

  function AltHeader(a: AltSetting): seq<Byte> {
    seq(a.bLength, i requires i >= 0 => AltByte(a, i))
  }

  function SerializeAlt(a: AltSetting): seq<Byte> {
    AltHeader(a) + (a.extra + SerializeEndpoints(a.endpoints))
  }

  function SerializeInterface(alts: Interface): seq<Byte> {
    if alts == [] then [] else SerializeAlt(alts[0]) + SerializeInterface(alts[1..])
  }

  function SerializeInterfaces(ifs: seq<Interface>): seq<Byte> {
    if ifs == [] then [] else SerializeInterface(ifs[0]) + SerializeInterfaces(ifs[1..])
  }

  function ConfigByte(c: Config, i: nat): Byte {
    match i
    case 0 => c.bLength
    case 1 => c.bDescriptorType
    case 2 => c.wTotalLength % 256
    case 3 => c.wTotalLength / 256
    case 4 => c.bNumInterfaces
    case 5 => c.bConfigurationValue
    case 6 => c.iConfiguration
    case 7 => c.bmAttributes
    case 8 => c.maxPower
    case _ => 0
  }

  function ConfigHeader(c: Config): seq<Byte> {
    seq(c.bLength, i requires i >= 0 => ConfigByte(c, i))
  }

  function Serialize(c: Config): seq<Byte> {
    ConfigHeader(c) + (c.extra + SerializeInterfaces(c.interfaces))
  }

  // ----- Well-formed trees -----

  /** Whole descriptors of unknown types, end to end. */
  predicate WholeExtras(b: seq<Byte>)
    decreases |b|
  {
    b == [] || (|b| >= 2 && 2 <= b[0] <= |b| && b[1] !in {1, 2, 4, 5} && WholeExtras(b[b[0]..]))
  }

  predicate WellFormedEndpoint(e: Endpoint) {
    && e.bDescriptorType == 5 && e.bLength >= 7
    && (e.bLength < 9 ==> e.bRefresh == 0 && e.bSynchAddress == 0)
    && WholeExtras(e.extra)
  }

  predicate WellFormedAlt(a: AltSetting) {
    && a.bDescriptorType == 4 && a.bLength >= 9
    && |a.endpoints| == a.bNumEndpoints <= 32
    && (forall i :: 0 <= i < |a.endpoints| ==> WellFormedEndpoint(a.endpoints[i]))
    && WholeExtras(a.extra)
  }

  /** Settings with one and the same interface number. */
  predicate WellFormedInterface(alts: Interface) {
    && alts != []
    && forall i :: 0 <= i < |alts| ==> WellFormedAlt(alts[i]) && alts[i].bInterfaceNumber == alts[0].bInterfaceNumber
  }

  predicate WellFormedInterfaces(ifs: seq<Interface>) {
    && (forall i :: 0 <= i < |ifs| ==> WellFormedInterface(ifs[i]))
    && forall i {:trigger ifs[i]} :: 0 < i < |ifs| ==> ifs[i][0].bInterfaceNumber != ifs[i - 1][0].bInterfaceNumber
  }

  predicate WellFormed(c: Config) {
    && c.bDescriptorType == 2 && c.bLength >= 9
    && |c.interfaces| == c.bNumInterfaces <= 32
    && WellFormedInterfaces(c.interfaces)
    && WholeExtras(c.extra)
  }

  // ----- Trees whose fields fit their bytes -----

  predicate Bytes(b: seq<Byte>) {
    forall i :: 0 <= i < |b| ==> b[i] < 0x100
  }

  predicate EndpointFits(e: Endpoint) {
    && e.bLength < 0x100 && e.bDescriptorType < 0x100 && e.bEndpointAddress < 0x100 && e.bmAttributes < 0x100
    && e.wMaxPacketSize < 0x1_0000 && e.bInterval < 0x100 && e.bRefresh < 0x100 && e.bSynchAddress < 0x100
    && Bytes(e.extra)
  }

  predicate AltFits(a: AltSetting) {
    && a.bLength < 0x100 && a.bDescriptorType < 0x100 && a.bInterfaceNumber < 0x100 && a.bAlternateSetting < 0x100
    && a.bNumEndpoints < 0x100 && a.bInterfaceClass < 0x100 && a.bInterfaceSubClass < 0x100
    && a.bInterfaceProtocol < 0x100 && a.iInterface < 0x100
    && Bytes(a.extra) && forall i :: 0 <= i < |a.endpoints| ==> EndpointFits(a.endpoints[i])
  }

  predicate InterfaceFits(alts: Interface) {
    forall i :: 0 <= i < |alts| ==> AltFits(alts[i])
  }

  predicate Fits(c: Config) {
    && c.bLength < 0x100 && c.bDescriptorType < 0x100 && c.wTotalLength < 0x1_0000 && c.bNumInterfaces < 0x100
    && c.bConfigurationValue < 0x100 && c.iConfiguration < 0x100 && c.bmAttributes < 0x100 && c.maxPower < 0x100
    && Bytes(c.extra) && forall i :: 0 <= i < |c.interfaces| ==> InterfaceFits(c.interfaces[i])
  }
}
