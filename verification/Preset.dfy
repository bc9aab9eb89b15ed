/** A preset's HTTP/2, HTTP/3, TLS, header and TCP state, the JSON spec that describes it, and the
    getters the transports read it through (fingerprint/presets.go, fingerprint/custom_preset.go). */
module Preset {
  import opened A = Akamai
  import opened Wrappers

  // ----- The preset

  type Uint8 = n: nat | n < 256

  /** One priority decision of a browser for a resource class. */
  datatype Priority = Priority(urgency: Uint8, incremental: bool, emitHeader: bool, weight: nat)

  type PriorityTable = map<string, Priority>

  /** H2FingerprintConfig. Lists are None when nil; a nil table or map is the empty one, which no code
      tells apart. */
  datatype H2Config = H2Config(
    hpackHeaderOrder: Option<seq<string>>,
    hpackHeaderOrderSubresource: Option<seq<string>>,
    hpackIndexingPolicy: string,
    hpackRepresentation: map<string, string>,
    hpackNeverIndex: Option<seq<string>>,
    streamPriorityMode: string,
    disableCookieSplit: Option<bool>,
    dataFrameMaxSize: Option<nat>,
    prefacePingIdleMs: Option<nat>,
    prefacePingHangMs: Option<nat>,
    idlePingMs: Option<nat>,
    settingsOrder: Option<seq<nat>>,
    pseudoHeaderOrder: Option<seq<string>>,
    priorityTable: PriorityTable,
    priorityModel: string,
    priorityOverHttp1: Option<bool>)

  const EMPTY_H2 := H2Config(None, None, "", map[], None, "", None, None, None, None, None, None, None, map[], "", None)

  /** H3FingerprintConfig. */
  datatype H3Config = H3Config(
    qpackMaxTableCapacity: Option<nat>,
    qpackBlockedStreams: Option<nat>,
    maxFieldSectionSize: Option<nat>,
    enableDatagrams: Option<bool>,
    quicInitialPacketSize: Option<nat>,
    quicMaxIncomingStreams: Option<int>,
    quicMaxIncomingUniStreams: Option<int>,
    quicAllow0RTT: Option<bool>,
    quicChromeStyleInitial: Option<bool>,
    quicDisableHelloScramble: Option<bool>,
    quicTransportParamOrder: string,
    quicConnectionIdLength: Option<int>,
    quicMaxDatagramFrameSize: Option<nat>,
    maxResponseHeaderBytes: Option<nat>,
    sendGreaseFrames: Option<bool>,
    quicConnectionOptions: Option<seq<string>>,
    quicInitialStreamReceiveWindow: Option<nat>,
    quicInitialConnectionReceiveWindow: Option<nat>)

  const EMPTY_H3 := H3Config(None, None, None, None, None, None, None, None, None, None, "", None, None, None, None,
                             None, None, None)

  /** A uTLS hello identity; both fields empty means none. */
  datatype HelloId = HelloId(client: string, version: string)

  const NO_HELLO := HelloId("", "")

  datatype CertCompression = Brotli | Zlib | Zstd

  datatype Ja3Extras = Ja3Extras(
    signatureAlgorithms: seq<nat>,
    delegatedCredentialAlgorithms: seq<nat>,
    alpn: seq<string>,
    certCompression: seq<CertCompression>,
    permuteExtensions: bool,
    recordSizeLimit: nat,
    keyShareCurves: int)

  datatype Tls = Tls(
    hello: HelloId,
    pskHello: HelloId,
    quicHello: HelloId,
    quicPskHello: HelloId,
    ja3: string,
    ja3Extras: Option<Ja3Extras>,
    signatureAlgorithms: seq<nat>,
    quicSignatureAlgorithms: seq<nat>,
    trustAnchors: seq<seq<nat>>,
    quicTrustAnchorShuffle: bool)

  const NO_TLS := Tls(NO_HELLO, NO_HELLO, NO_HELLO, NO_HELLO, "", None, [], [], [], false)

  datatype HeaderBlock = HeaderBlock(userAgent: string, values: map<string, string>, order: seq<(string, string)>,
                                     imageAccept: string)

  datatype Tcp = Tcp(ttl: int, mss: int, windowSize: int, windowScale: int, dfBit: bool)

  const NO_TCP := Tcp(0, 0, 0, 0, false)

  datatype Preset = Preset(
    name: string,
    tls: Tls,
    headers: HeaderBlock,
    http2: Settings,
    tcp: Tcp,
    supportHttp3: bool,
    h2: Option<H2Config>,
    h3: Option<H3Config>)

  function EmptyPreset(name: string): Preset
  {
    Preset(name, NO_TLS, HeaderBlock("", map[], [], ""), ZERO, NO_TCP, false, None, None)
  }

  // ----- The H2 getters

  function DefaultHeaderOrder(): seq<string>
  {
    ["cache-control",
     "sec-ch-ua", "sec-ch-ua-arch", "sec-ch-ua-bitness", "sec-ch-ua-full-version-list",
     "sec-ch-ua-mobile", "sec-ch-ua-model",
     "sec-ch-ua-platform", "sec-ch-ua-platform-version", "sec-ch-ua-wow64",
     "upgrade-insecure-requests", "user-agent",
     "content-type", "content-length",
     "accept", "origin",
     "sec-fetch-site", "sec-fetch-mode", "sec-fetch-user", "sec-fetch-dest",
     "referer",
     "if-none-match", "if-modified-since",
     "accept-encoding", "accept-language",
     "cookie", "priority"]
  }

  function DefaultPriorityTable(): PriorityTable
  {
    map[
      "audio" := Priority(3, true, true, 0),
      "document" := Priority(0, true, true, 0),
      "embed" := Priority(0, true, true, 0),
      "empty" := Priority(1, true, true, 0),
      "font" := Priority(1, false, true, 0),
      "iframe" := Priority(0, true, true, 0),
      "image" := Priority(2, true, true, 0),
      "manifest" := Priority(2, false, true, 0),
      "object" := Priority(0, true, true, 0),
      "script" := Priority(1, false, true, 0),
      "style" := Priority(0, false, true, 0),
      "track" := Priority(3, true, true, 0),
      "video" := Priority(3, true, true, 0),
      "worker" := Priority(4, true, true, 0)]
  }

  function Get<T>(v: Option<T>, default: T): T
  {
    if v.Some? then v.value else default
  }

  function Text(v: string, default: string): string
  {
    if v != "" then v else default
  }

  /** Reads the config block, or an all-absent one when there is none: every getter falls back field by
      field, so the two are the same to it. */
  function H2Of(p: Preset): H2Config
  {
    if p.h2.Some? then p.h2.value else EMPTY_H2
  }

  function H2HeaderOrder(p: Preset): seq<string>
  {
    Get(H2Of(p).hpackHeaderOrder, DefaultHeaderOrder())
  }

  function H2HeaderOrderFor(p: Preset, dest: string): seq<string>
  {
    var sub := Get(H2Of(p).hpackHeaderOrderSubresource, []);
    if dest == "" || dest == "document" || dest == "iframe" || sub == [] then H2HeaderOrder(p) else sub
  }

  function H2HpackIndexingPolicy(p: Preset): string { Text(H2Of(p).hpackIndexingPolicy, "chrome") }

  function H2HpackNeverIndex(p: Preset): seq<string> { Get(H2Of(p).hpackNeverIndex, []) }

  function H2HpackRepresentation(p: Preset): map<string, string> { H2Of(p).hpackRepresentation }

  function H2StreamPriorityMode(p: Preset): string { Text(H2Of(p).streamPriorityMode, "chrome") }

  function H2DisableCookieSplit(p: Preset): bool { Get(H2Of(p).disableCookieSplit, true) }

  function H2DataFrameMaxSize(p: Preset): nat
  {
    Get(H2Of(p).dataFrameMaxSize, if p.tls.hello.client == "Chrome" then 16375 else 0)
  }

  function H2PrefacePingIdle(p: Preset): nat { Get(H2Of(p).prefacePingIdleMs, 0) }

  function H2PrefacePingHang(p: Preset): nat { Get(H2Of(p).prefacePingHangMs, H2PrefacePingIdle(p)) }

  function H2IdlePing(p: Preset): nat { Get(H2Of(p).idlePingMs, 0) }

  /** None tells the caller to build the order dynamically. */
  function H2SettingsOrder(p: Preset): Option<seq<nat>> { H2Of(p).settingsOrder }

  function H2PseudoHeaderOrder(p: Preset): Option<seq<string>> { H2Of(p).pseudoHeaderOrder }

  /** The table that applies, if any: the preset's own, else the default unless it opts out. */
  function EffectiveTable(p: Preset): Option<PriorityTable>
  {
    if H2Of(p).priorityTable != map[] then Some(H2Of(p).priorityTable)
    else if p.http2.noRfc7540Priorities then None
    else Some(DefaultPriorityTable())
  }

  predicate H2HasPriorityTable(p: Preset) { EffectiveTable(p).Some? }

  function PriorityFromUrgency(urgency: nat): (w: nat)
    ensures 1 <= w <= 256
  {
    var u := if urgency > 7 then 7 else urgency;
    256 - (u * 73) / 2
  }

  function DigitsOf(v: Uint8): string
  {
    if v <= 9 then [('0' as int + v) as char] else [('0' as int + v / 10) as char, ('0' as int + v % 10) as char]
  }

  function PriorityHeader(rp: Priority): string
  {
    if !rp.emitHeader then ""
    else if rp.urgency == 3 then (if rp.incremental then "i" else "")
    else "u=" + DigitsOf(rp.urgency) + (if rp.incremental then ", i" else "")
  }

  /** Weight, exclusive flag and header value for a sec-fetch-dest. */
  function H2PriorityFor(p: Preset, dest: string): Option<(nat, bool, string)>
  {
    var table := EffectiveTable(p);
    if table.None? || dest !in table.value then None
    else
      var rp := table.value[dest];
      Some((if rp.weight == 0 then PriorityFromUrgency(rp.urgency) else rp.weight,
            p.http2.streamExclusive, PriorityHeader(rp)))
  }

  const CHROMIUM := "chromium"
  const TABLE := "table"

  function H2PriorityModel(p: Preset): string
  {
    Text(H2Of(p).priorityModel, if p.http2.streamExclusive && !p.http2.noRfc7540Priorities then CHROMIUM else TABLE)
  }

  predicate SendsPriorityOverHttp1(p: Preset)
  {
    Get(H2Of(p).priorityOverHttp1, H2PriorityModel(p) != CHROMIUM && !("chrome-" <= p.name) && !("Chrome" <= p.name))
  }

  // ----- The H3 getters

  function H3Of(p: Preset): H3Config
  {
    if p.h3.Some? then p.h3.value else EMPTY_H3
  }

  /** Every value an HTTP/3 transport reads, resolved. */
  datatype H3Values = H3Values(
    qpackMaxTableCapacity: nat,
    qpackBlockedStreams: nat,
    maxFieldSectionSize: nat,
    enableDatagrams: bool,
    quicInitialPacketSize: nat,
    quicMaxIncomingStreams: int,
    quicMaxIncomingUniStreams: int,
    quicAllow0RTT: bool,
    quicChromeStyleInitial: bool,
    quicDisableHelloScramble: bool,
    quicTransportParamOrder: string,
    quicConnectionIdLength: int,
    quicMaxDatagramFrameSize: nat,
    maxResponseHeaderBytes: nat,
    sendGreaseFrames: bool,
    quicConnectionOptions: seq<string>,
    quicInitialStreamReceiveWindow: nat,
    quicInitialConnectionReceiveWindow: nat)

  function H3Getters(p: Preset): H3Values
  {
    var c, safari := H3Of(p), p.http2.noRfc7540Priorities;
    H3Values(
      Get(c.qpackMaxTableCapacity, if safari then 16383 else 65536),
      Get(c.qpackBlockedStreams, 100),
      Get(c.maxFieldSectionSize, if safari then 0 else 262144),
      Get(c.enableDatagrams, !safari),
      Get(c.quicInitialPacketSize, 1250),
      Get(c.quicMaxIncomingStreams, 100),
      Get(c.quicMaxIncomingUniStreams, 103),
      Get(c.quicAllow0RTT, true),
      Get(c.quicChromeStyleInitial, true),
      Get(c.quicDisableHelloScramble, true),
      Text(c.quicTransportParamOrder, "chrome"),
      Get(c.quicConnectionIdLength, 0),
      Get(c.quicMaxDatagramFrameSize, 65536),
      Get(c.maxResponseHeaderBytes, 262144),
      Get(c.sendGreaseFrames, true),
      Get(c.quicConnectionOptions, ["ORIG"]),
      Get(c.quicInitialStreamReceiveWindow, 0),
      Get(c.quicInitialConnectionReceiveWindow, 0))
  }

  // ----- The spec

  datatype Http2Spec = Http2Spec(
    akamai: string,
    headerTableSize: Option<nat>,
    enablePush: Option<bool>,
    maxConcurrentStreams: Option<nat>,
    initialWindowSize: Option<nat>,
    maxFrameSize: Option<nat>,
    maxHeaderListSize: Option<nat>,
    connectionWindowUpdate: Option<nat>,
    streamWeight: Option<nat>,
    streamExclusive: Option<bool>,
    noRfc7540Priorities: Option<bool>,
    settings: seq<Pair>,
    settingsOrder: Option<seq<nat>>,
    pseudoOrder: Option<seq<string>>,
    hpackHeaderOrder: Option<seq<string>>,
    hpackHeaderOrderSubresource: Option<seq<string>>,
    hpackIndexingPolicy: Option<string>,
    hpackRepresentation: Option<map<string, string>>,
    hpackNeverIndex: Option<seq<string>>,
    streamPriorityMode: Option<string>,
    disableCookieSplit: Option<bool>,
    dataFrameMaxSize: Option<nat>,
    prefacePingIdleMs: Option<nat>,
    prefacePingHangMs: Option<nat>,
    idlePingMs: Option<nat>,
    priorityTable: Option<PriorityTable>,
    priorityModel: Option<string>,
    priorityOverHttp1: Option<bool>)

  datatype Http3Spec = Http3Spec(
    qpackMaxTableCapacity: Option<nat>,
    qpackBlockedStreams: Option<nat>,
    maxFieldSectionSize: Option<nat>,
    enableDatagrams: Option<bool>,
    quicInitialPacketSize: Option<nat>,
    quicMaxIncomingStreams: Option<int>,
    quicMaxIncomingUniStreams: Option<int>,
    quicAllow0RTT: Option<bool>,
    quicChromeStyleInitial: Option<bool>,
    quicDisableHelloScramble: Option<bool>,
    quicTransportParamOrder: Option<string>,
    quicConnectionIdLength: Option<int>,
    quicMaxDatagramFrameSize: Option<nat>,
    maxResponseHeaderBytes: Option<nat>,
    sendGreaseFrames: Option<bool>,
    quicConnectionOptions: Option<seq<string>>,
    quicInitialStreamReceiveWindow: Option<nat>,
    quicInitialConnectionReceiveWindow: Option<nat>)

  datatype Ja3ExtrasSpec = Ja3ExtrasSpec(
    signatureAlgorithms: seq<nat>,
    delegatedCredentialAlgorithms: seq<nat>,
    alpn: seq<string>,
    certCompression: seq<CertCompression>,
    permuteExtensions: Option<bool>,
    recordSizeLimit: Option<nat>,
    keyShareCurves: Option<int>)

  /** The client_hello and ja3 modes of a tls block. */
  datatype TlsSpec = TlsSpec(
    clientHello: string,
    pskClientHello: string,
    quicClientHello: string,
    quicPskClientHello: string,
    ja3: string,
    ja3Extras: Option<Ja3ExtrasSpec>,
    signatureAlgorithms: seq<nat>,
    quicSignatureAlgorithms: seq<nat>,
    trustAnchors: Option<seq<seq<nat>>>,
    quicTrustAnchorsShuffle: Option<bool>)

  datatype TcpSpec = TcpSpec(ttl: Option<int>, mss: Option<int>, windowSize: Option<int>, windowScale: Option<int>,
                             dfBit: Option<bool>)

  /** A flat spec: no based_on. */
  datatype Spec = Spec(
    name: string,
    tls: Option<TlsSpec>,
    headers: Option<HeaderBlock>,
    http2: Http2Spec,
    http3: Option<Http3Spec>,
    tcp: Option<TcpSpec>,
    http3Protocol: Option<bool>)
}
