/** BuildPreset and its apply functions (fingerprint/custom_preset.go): overlaying a spec on a preset. */
module PresetBuild {
  import opened A = Akamai
  import opened P = Preset
  import opened Wrappers

  /** What the build takes from elsewhere: the hello names, and whether a JA3 string parses. */
  datatype Env = Env(helloIds: map<string, HelloId>, ja3Parses: string -> bool)

  // ----- HTTP/2 settings: which source decides a slot

  function FirstOf(list: Option<nat>, akamai: Option<nat>, discrete: Option<nat>, inherited: nat): nat
  {
    if list.Some? then list.value else if akamai.Some? then akamai.value else Get(discrete, inherited)
  }

  function FirstFlag(list: Option<nat>, akamai: Option<nat>, discrete: Option<bool>, inherited: bool): bool
  {
    if list.Some? then list.value != 0 else if akamai.Some? then akamai.value != 0 else Get(discrete, inherited)
  }

  /** Each slot is the last settings-list entry, else the last Akamai pair, else the discrete field, else
      the inherited value. ak is the meaning of the Akamai string, when there is one, and weighted
      whether its weight field counts as present. */
  function OverlaySettings(base: Settings, spec: Http2Spec, ak: Option<Meaning>, weighted: bool): Settings
  {
    var pairs := if ak.Some? then ak.value.pairs else [];
    var list := spec.settings;
    Settings(
      FirstOf(LastValue(list, 1), LastValue(pairs, 1), spec.headerTableSize, base.headerTableSize),
      FirstFlag(LastValue(list, 2), LastValue(pairs, 2), spec.enablePush, base.enablePush),
      FirstOf(LastValue(list, 3), LastValue(pairs, 3), spec.maxConcurrentStreams, base.maxConcurrentStreams),
      FirstOf(LastValue(list, 4), LastValue(pairs, 4), spec.initialWindowSize, base.initialWindowSize),
      FirstOf(LastValue(list, 5), LastValue(pairs, 5), spec.maxFrameSize, base.maxFrameSize),
      FirstOf(LastValue(list, 6), LastValue(pairs, 6), spec.maxHeaderListSize, base.maxHeaderListSize),
      FirstOf(None, if ak.Some? then ak.value.window else None,
              spec.connectionWindowUpdate, base.connectionWindowUpdate),
      FirstOf(None, if ak.Some? && weighted then Some(Or(ak.value.weight, 0)) else None,
              spec.streamWeight, base.streamWeight),
      FirstFlag(None, if ak.Some? && weighted then Some(Or(ak.value.weight, 0)) else None,
                spec.streamExclusive, base.streamExclusive),
      FirstFlag(LastValue(list, 9), LastValue(pairs, 9), spec.noRfc7540Priorities, base.noRfc7540Priorities))
  }

  /** The discrete value, unless the Akamai string covers the slot. */
  function Unless<T>(covered: bool, discrete: Option<T>, current: T): T
  {
    if covered then current else Get(discrete, current)
  }

  /** The Akamai value, if the string covers the slot. */
  function Covering<T>(covered: bool, akamai: T, current: T): T
  {
    if covered then akamai else current
  }

  function Over<T>(spec: Option<T>, base: Option<T>): Option<T>
  {
    if spec.Some? then spec else base
  }

  predicate TouchesH2Config(spec: Http2Spec)
  {
    || spec.settingsOrder.Some? || spec.pseudoOrder.Some? || spec.hpackHeaderOrder.Some?
    || spec.hpackHeaderOrderSubresource.Some? || spec.hpackIndexingPolicy.Some? || spec.hpackNeverIndex.Some?
    || spec.hpackRepresentation.Some? || spec.streamPriorityMode.Some? || spec.disableCookieSplit.Some?
    || spec.priorityTable.Some? || spec.dataFrameMaxSize.Some? || spec.prefacePingIdleMs.Some?
    || spec.prefacePingHangMs.Some? || spec.idlePingMs.Some? || spec.priorityModel.Some? || spec.priorityOverHttp1.Some?
  }

  function OverlayH2(base: Option<H2Config>, spec: Http2Spec, akamaiPseudo: seq<string>): Option<H2Config>
  {
    if base.None? && akamaiPseudo == [] && !TouchesH2Config(spec) then None
    else
      var c := Get(base, EMPTY_H2);
      Some(H2Config(
        Over(spec.hpackHeaderOrder, c.hpackHeaderOrder),
        Over(spec.hpackHeaderOrderSubresource, c.hpackHeaderOrderSubresource),
        Get(spec.hpackIndexingPolicy, c.hpackIndexingPolicy),
        Get(spec.hpackRepresentation, c.hpackRepresentation),
        Over(spec.hpackNeverIndex, c.hpackNeverIndex),
        Get(spec.streamPriorityMode, c.streamPriorityMode),
        Over(spec.disableCookieSplit, c.disableCookieSplit),
        Over(spec.dataFrameMaxSize, c.dataFrameMaxSize),
        Over(spec.prefacePingIdleMs, c.prefacePingIdleMs),
        Over(spec.prefacePingHangMs, c.prefacePingHangMs),
        Over(spec.idlePingMs, c.idlePingMs),
        Over(spec.settingsOrder, c.settingsOrder),
        if akamaiPseudo != [] then Some(akamaiPseudo) else Over(spec.pseudoOrder, c.pseudoHeaderOrder),
        Get(spec.priorityTable, c.priorityTable),
        Get(spec.priorityModel, c.priorityModel),
        Over(spec.priorityOverHttp1, c.priorityOverHttp1)))
  }

  function OverlayH3(base: Option<H3Config>, spec: Http3Spec): H3Config
  {
    var c := Get(base, EMPTY_H3);
    H3Config(
      Over(spec.qpackMaxTableCapacity, c.qpackMaxTableCapacity),
      Over(spec.qpackBlockedStreams, c.qpackBlockedStreams),
      Over(spec.maxFieldSectionSize, c.maxFieldSectionSize),
      Over(spec.enableDatagrams, c.enableDatagrams),
      Over(spec.quicInitialPacketSize, c.quicInitialPacketSize),
      Over(spec.quicMaxIncomingStreams, c.quicMaxIncomingStreams),
      Over(spec.quicMaxIncomingUniStreams, c.quicMaxIncomingUniStreams),
      Over(spec.quicAllow0RTT, c.quicAllow0RTT),
      Over(spec.quicChromeStyleInitial, c.quicChromeStyleInitial),
      Over(spec.quicDisableHelloScramble, c.quicDisableHelloScramble),
      Get(spec.quicTransportParamOrder, c.quicTransportParamOrder),
      Over(spec.quicConnectionIdLength, c.quicConnectionIdLength),
      Over(spec.quicMaxDatagramFrameSize, c.quicMaxDatagramFrameSize),
      Over(spec.maxResponseHeaderBytes, c.maxResponseHeaderBytes),
      Over(spec.sendGreaseFrames, c.sendGreaseFrames),
      Over(spec.quicConnectionOptions, c.quicConnectionOptions),
      Over(spec.quicInitialStreamReceiveWindow, c.quicInitialStreamReceiveWindow),
      Over(spec.quicInitialConnectionReceiveWindow, c.quicInitialConnectionReceiveWindow))
  }

  // ----- TLS, headers and TCP

  function Resolve(env: Env, name: string, base: HelloId): Result<HelloId>
  {
    if name == "" then Ok(base) else if name in env.helloIds then Ok(env.helloIds[name]) else Err
  }

  function BuildExtras(spec: Ja3ExtrasSpec): Ja3Extras
  {
    Ja3Extras(spec.signatureAlgorithms, spec.delegatedCredentialAlgorithms, spec.alpn, spec.certCompression,
              Get(spec.permuteExtensions, false), Get(spec.recordSizeLimit, 0), Get(spec.keyShareCurves, 0))
  }

  predicate AnchorsFit(anchors: seq<seq<nat>>)
  {
    forall i | 0 <= i < |anchors| :: 1 <= |anchors[i]| <= 255
  }

  /** applyTLS in its client_hello and ja3 modes. */
  function OverlayTls(base: Tls, spec: TlsSpec, env: Env): Result<Tls>
  {
    var psk := Resolve(env, spec.pskClientHello, base.pskHello);
    var quic := Resolve(env, spec.quicClientHello, base.quicHello);
    var quicPsk := Resolve(env, spec.quicPskClientHello, base.quicPskHello);
    var hello := Resolve(env, spec.clientHello, base.hello);
    var identity :=
      if spec.ja3 != "" then
        Ok(base.(ja3 := spec.ja3, hello := NO_HELLO, pskHello := NO_HELLO,
                ja3Extras := if spec.ja3Extras.Some? then Some(BuildExtras(spec.ja3Extras.value)) else base.ja3Extras))
      else if hello.Err? || psk.Err? || quic.Err? || quicPsk.Err? then Err
      else
        var ids := base.(hello := hello.value, pskHello := psk.value, quicHello := quic.value,
                         quicPskHello := quicPsk.value);
        Ok(if spec.clientHello != "" then ids.(ja3 := "", ja3Extras := None) else ids);
    if identity.Err? || (spec.trustAnchors.Some? && !AnchorsFit(spec.trustAnchors.value)) then Err
    else
      var t := identity.value;
      Ok(t.(signatureAlgorithms :=
              if spec.ja3 == "" && spec.signatureAlgorithms != [] then spec.signatureAlgorithms
              else t.signatureAlgorithms,
            quicSignatureAlgorithms :=
              if spec.ja3 == "" && spec.quicSignatureAlgorithms != [] then spec.quicSignatureAlgorithms
              else t.quicSignatureAlgorithms,
            quicTrustAnchorShuffle := Get(spec.quicTrustAnchorsShuffle, t.quicTrustAnchorShuffle),
            trustAnchors := Get(spec.trustAnchors, t.trustAnchors)))
  }

  function OverlayHeaders(base: HeaderBlock, spec: HeaderBlock): HeaderBlock
  {
    HeaderBlock(
      if spec.userAgent != "" then spec.userAgent else base.userAgent,
      base.values + spec.values,
      if spec.order != [] then spec.order else base.order,
      if spec.imageAccept != "" then spec.imageAccept else base.imageAccept)
  }

  function OverlayTcp(base: Tcp, spec: TcpSpec): Tcp
  {
    Tcp(Get(spec.ttl, base.ttl), Get(spec.mss, base.mss), Get(spec.windowSize, base.windowSize),
        Get(spec.windowScale, base.windowScale), Get(spec.dfBit, base.dfBit))
  }

  // ----- Validation and the whole build

  predicate ValidTls(t: Tls, spec: TlsSpec)
  {
    && !(spec.clientHello != "" && spec.ja3 != "")
    && (t.hello.client == "" && t.ja3 == "" ==>
          spec.pskClientHello == "" && spec.quicClientHello == "" && spec.quicPskClientHello == "")
    && (t.ja3 != "" ==> spec.quicClientHello == "" && spec.quicPskClientHello == "" && spec.pskClientHello == "")
    && (spec.ja3Extras.Some? ==> spec.ja3 != "")
    && (spec.ja3Extras.Some? ==> spec.signatureAlgorithms == [])
  }

  predicate ValidRepresentation(m: map<string, string>)
  {
    forall k | k in m :: m[k] == "incremental" || m[k] == "without" || m[k] == "never" || m[k] == "default"
  }

  predicate ValidTable(t: PriorityTable)
  {
    forall d | d in t :: t[d].urgency <= 7 && t[d].weight <= 256
  }

  predicate ValidHttp2(spec: Http2Spec)
  {
    && (spec.hpackRepresentation.Some? ==> ValidRepresentation(spec.hpackRepresentation.value))
    && (spec.hpackIndexingPolicy.Some? ==> spec.hpackIndexingPolicy.value in ["chrome", "never", "always", "default"])
    && (spec.streamPriorityMode.Some? ==> spec.streamPriorityMode.value in ["chrome", "default"])
    && (spec.priorityModel.Some? ==> spec.priorityModel.value in [CHROMIUM, TABLE])
    && (spec.priorityTable.Some? ==> ValidTable(spec.priorityTable.value))
  }

  predicate ValidHttp3(spec: Http3Spec)
  {
    spec.quicTransportParamOrder.Some? ==> spec.quicTransportParamOrder.value in ["chrome", "random"]
  }

  function AkamaiMeaning(spec: Http2Spec): Option<Meaning>
  {
    if spec.akamai == "" || Read(spec.akamai).Err? then None else Some(Read(spec.akamai).value)
  }

  predicate AkamaiOk(spec: Http2Spec)
  {
    spec.akamai == "" || Read(spec.akamai).Ok?
  }

  predicate Weighted(spec: Http2Spec)
  {
    spec.akamai != "" && Read(spec.akamai).Ok? && PresenceOf(spec.akamai).hasStreamWeight
  }

  function AkamaiPseudo(spec: Http2Spec): seq<string>
  {
    var ak := AkamaiMeaning(spec);
    if ak.Some? then ak.value.pseudo else []
  }

  function Overlay(p: Preset, spec: Spec, tls: Tls): Preset
  {
    p.(tls := tls,
       http2 := OverlaySettings(p.http2, spec.http2, AkamaiMeaning(spec.http2), Weighted(spec.http2)),
       h2 := OverlayH2(p.h2, spec.http2, AkamaiPseudo(spec.http2)),
       h3 := if spec.http3.Some? then Some(OverlayH3(p.h3, spec.http3.value)) else p.h3,
       headers := if spec.headers.Some? then OverlayHeaders(p.headers, spec.headers.value) else p.headers,
       tcp := if spec.tcp.Some? then OverlayTcp(p.tcp, spec.tcp.value) else p.tcp,
       supportHttp3 := Get(spec.http3Protocol, p.supportHttp3))
  }

  /** BuildPreset: base is a copy of the preset that based_on names, or the empty preset. A spec without a name
      keeps the base's. */
  function BuildOn(base: Preset, spec: Spec, env: Env): Result<Preset>
  {
    var p := if spec.name != "" then base.(name := spec.name) else base;
    if spec.tls.Some? && spec.tls.value.ja3 != "" && !env.ja3Parses(spec.tls.value.ja3) then Err
    else
      var tls := if spec.tls.Some? then OverlayTls(p.tls, spec.tls.value, env) else Ok(p.tls);
      if tls.Err? || !AkamaiOk(spec.http2) then Err
      else if (spec.tls.Some? && !ValidTls(tls.value, spec.tls.value)) || !ValidHttp2(spec.http2) ||
              (spec.http3.Some? && !ValidHttp3(spec.http3.value)) then Err
      else Ok(Overlay(p, spec, tls.value))
  }

  /** A spec without based_on. */
  function Build(spec: Spec, env: Env): Result<Preset>
  {
    BuildOn(EmptyPreset(""), spec, env)
  }

  /** validateComplete: a preset that can serve a request names a TLS fingerprint source and a user agent,
      and has some header. */
  predicate Complete(p: Preset)
  {
    && (p.tls.hello.client != "" || p.tls.ja3 != "")
    && p.headers.userAgent != ""
    && (p.headers.order != [] || p.headers.values != map[])
  }

  /** The loaders: build, and refuse an incomplete preset. */
  function Load(spec: Spec, env: Env): Result<Preset>
  {
    var p := Build(spec, env);
    if p.Ok? && !Complete(p.value) then Err else p
  }

  // ----- applyHTTP2 on the mutable preset

  /** The three passes over the settings, and what they add up to. */
  function Discrete(s: Settings, spec: Http2Spec, seen: set<nat>, hasWindow: bool, hasWeight: bool): Settings
  {
    Settings(
      Unless(1 in seen, spec.headerTableSize, s.headerTableSize),
      Unless(2 in seen, spec.enablePush, s.enablePush),
      Unless(3 in seen, spec.maxConcurrentStreams, s.maxConcurrentStreams),
      Unless(4 in seen, spec.initialWindowSize, s.initialWindowSize),
      Unless(5 in seen, spec.maxFrameSize, s.maxFrameSize),
      Unless(6 in seen, spec.maxHeaderListSize, s.maxHeaderListSize),
      Unless(hasWindow, spec.connectionWindowUpdate, s.connectionWindowUpdate),
      Unless(hasWeight, spec.streamWeight, s.streamWeight),
      Unless(hasWeight, spec.streamExclusive, s.streamExclusive),
      Unless(9 in seen, spec.noRfc7540Priorities, s.noRfc7540Priorities))
  }

  function Shorthand(s: Settings, ak: Presence): Settings
  {
    Settings(
      Covering(1 in ak.seen, ak.settings.headerTableSize, s.headerTableSize),
      Covering(2 in ak.seen, ak.settings.enablePush, s.enablePush),
      Covering(3 in ak.seen, ak.settings.maxConcurrentStreams, s.maxConcurrentStreams),
      Covering(4 in ak.seen, ak.settings.initialWindowSize, s.initialWindowSize),
      Covering(5 in ak.seen, ak.settings.maxFrameSize, s.maxFrameSize),
      Covering(6 in ak.seen, ak.settings.maxHeaderListSize, s.maxHeaderListSize),
      Covering(ak.hasWindowUpdate, ak.settings.connectionWindowUpdate, s.connectionWindowUpdate),
      Covering(ak.hasStreamWeight, ak.settings.streamWeight, s.streamWeight),
      Covering(ak.hasStreamWeight, ak.settings.streamExclusive, s.streamExclusive),
      Covering(9 in ak.seen, ak.settings.noRfc7540Priorities, s.noRfc7540Priorities))
  }

  function Listed(s: Settings, list: seq<Pair>): Settings
  {
    Settings(
      Or(LastValue(list, 1), s.headerTableSize),
      FirstFlag(LastValue(list, 2), None, None, s.enablePush),
      Or(LastValue(list, 3), s.maxConcurrentStreams),
      Or(LastValue(list, 4), s.initialWindowSize),
      Or(LastValue(list, 5), s.maxFrameSize),
      Or(LastValue(list, 6), s.maxHeaderListSize),
      s.connectionWindowUpdate, s.streamWeight, s.streamExclusive,
      FirstFlag(LastValue(list, 9), None, None, s.noRfc7540Priorities))
  }

  lemma ListedStep(s: Settings, list: seq<Pair>, p: Pair)
    ensures Listed(s, list + [p]) == WithPair(Listed(s, list), p)
  {
    LastValueAppend(list, p, 1);
    LastValueAppend(list, p, 2);
    LastValueAppend(list, p, 3);
    LastValueAppend(list, p, 4);
    LastValueAppend(list, p, 5);
    LastValueAppend(list, p, 6);
    LastValueAppend(list, p, 9);
  }

  /** The settings after the three passes in the code's order. */
  function Passes(s: Settings, spec: Http2Spec, ak: Presence): Settings
  {
    Listed(Shorthand(Discrete(s, spec, ak.seen, ak.hasWindowUpdate, ak.hasStreamWeight), ak), spec.settings)
  }

  /** One numeric slot through the three passes. */
  lemma SlotDecides(list: Option<nat>, akamai: Option<nat>, discrete: Option<nat>, inherited: nat)
    ensures Or(list, Covering(akamai.Some?, Or(akamai, 0), Unless(akamai.Some?, discrete, inherited))) ==
            FirstOf(list, akamai, discrete, inherited)
  {
  }

  lemma NumericSlotsDecide(spec: Http2Spec, pairs: seq<Pair>, id: nat, discrete: Option<nat>, inherited: nat)
    ensures Or(LastValue(spec.settings, id),
               Covering(id in Ids(pairs), Or(LastValue(pairs, id), 0),
                        Unless(id in Ids(pairs), discrete, inherited))) ==
            FirstOf(LastValue(spec.settings, id), LastValue(pairs, id), discrete, inherited)
  {
    SeenIffGiven(pairs, id);
    SlotDecides(LastValue(spec.settings, id), LastValue(pairs, id), discrete, inherited);
  }

  lemma NumbersDecided(s: Settings, spec: Http2Spec, m: Meaning, ak: Presence)
    requires ak.settings == SettingsOf(m) && ak.seen == Ids(m.pairs)
    ensures var passes, want := Passes(s, spec, ak), OverlaySettings(s, spec, Some(m), ak.hasStreamWeight);
            && passes.headerTableSize == want.headerTableSize &&
               passes.maxConcurrentStreams == want.maxConcurrentStreams
            && passes.initialWindowSize == want.initialWindowSize && passes.maxFrameSize == want.maxFrameSize
            && passes.maxHeaderListSize == want.maxHeaderListSize
  {
    NumericSlotsDecide(spec, m.pairs, 1, spec.headerTableSize, s.headerTableSize);
    NumericSlotsDecide(spec, m.pairs, 3, spec.maxConcurrentStreams, s.maxConcurrentStreams);
    NumericSlotsDecide(spec, m.pairs, 4, spec.initialWindowSize, s.initialWindowSize);
    NumericSlotsDecide(spec, m.pairs, 5, spec.maxFrameSize, s.maxFrameSize);
    NumericSlotsDecide(spec, m.pairs, 6, spec.maxHeaderListSize, s.maxHeaderListSize);
  }

  lemma FlagDecides(list: Option<nat>, akamai: Option<nat>, discrete: Option<bool>, inherited: bool)
    ensures FirstFlag(list, None, None,
                      Covering(akamai.Some?, Or(akamai, 0) != 0, Unless(akamai.Some?, discrete, inherited))) ==
            FirstFlag(list, akamai, discrete, inherited)
  {
  }

  lemma FlagSlotsDecide(spec: Http2Spec, pairs: seq<Pair>, id: nat, discrete: Option<bool>, inherited: bool)
    ensures FirstFlag(LastValue(spec.settings, id), None, None,
                      Covering(id in Ids(pairs), Or(LastValue(pairs, id), 0) != 0,
                               Unless(id in Ids(pairs), discrete, inherited))) ==
            FirstFlag(LastValue(spec.settings, id), LastValue(pairs, id), discrete, inherited)
  {
    SeenIffGiven(pairs, id);
    FlagDecides(LastValue(spec.settings, id), LastValue(pairs, id), discrete, inherited);
  }

  lemma FlagsDecided(s: Settings, spec: Http2Spec, m: Meaning, ak: Presence)
    requires ak.settings == SettingsOf(m) && ak.seen == Ids(m.pairs)
    ensures var passes, want := Passes(s, spec, ak), OverlaySettings(s, spec, Some(m), ak.hasStreamWeight);
            passes.enablePush == want.enablePush && passes.noRfc7540Priorities == want.noRfc7540Priorities
  {
    FlagSlotsDecide(spec, m.pairs, 2, spec.enablePush, s.enablePush);
    FlagSlotsDecide(spec, m.pairs, 9, spec.noRfc7540Priorities, s.noRfc7540Priorities);
  }

  /** The passes give each slot to the highest source that names it. */
  lemma SourcesDecideFor(s: Settings, spec: Http2Spec, m: Meaning, ak: Presence)
    requires ak.settings == SettingsOf(m) && ak.seen == Ids(m.pairs) && ak.hasWindowUpdate == m.window.Some?
    ensures Passes(s, spec, ak) == OverlaySettings(s, spec, Some(m), ak.hasStreamWeight)
  {
    NumbersDecided(s, spec, m, ak);
    FlagsDecided(s, spec, m, ak);
  }

  lemma SourcesDecideAlone(s: Settings, spec: Http2Spec)
    ensures Listed(Discrete(s, spec, {}, false, false), spec.settings) == OverlaySettings(s, spec, None, false)
  {
  }

  /** The part of a preset that applyHTTP2 and applyHTTP3 update in place. */
  class MutablePreset {
    var http2: Settings
    var h2: Option<H2Config>
    var h3: Option<H3Config>

    constructor (p: Preset)
      ensures http2 == p.http2 && h2 == p.h2 && h3 == p.h3
    {
      http2, h2, h3 := p.http2, p.h2, p.h3;
    }

    /** Discrete fields, except the slots the Akamai string covers. */
    method ApplyDiscrete(spec: Http2Spec, seen: set<nat>, hasWindow: bool, hasWeight: bool)
      modifies this`http2
      ensures http2 == Discrete(old(http2), spec, seen, hasWindow, hasWeight)
    {
      var s := http2;
      s := s.(headerTableSize := Unless(1 in seen, spec.headerTableSize, s.headerTableSize));
      s := s.(enablePush := Unless(2 in seen, spec.enablePush, s.enablePush));
      s := s.(maxConcurrentStreams := Unless(3 in seen, spec.maxConcurrentStreams, s.maxConcurrentStreams));
      s := s.(initialWindowSize := Unless(4 in seen, spec.initialWindowSize, s.initialWindowSize));
      s := s.(maxFrameSize := Unless(5 in seen, spec.maxFrameSize, s.maxFrameSize));
      s := s.(maxHeaderListSize := Unless(6 in seen, spec.maxHeaderListSize, s.maxHeaderListSize));
      s := s.(connectionWindowUpdate := Unless(hasWindow, spec.connectionWindowUpdate, s.connectionWindowUpdate));
      s := s.(streamWeight := Unless(hasWeight, spec.streamWeight, s.streamWeight));
      s := s.(streamExclusive := Unless(hasWeight, spec.streamExclusive, s.streamExclusive));
      s := s.(noRfc7540Priorities := Unless(9 in seen, spec.noRfc7540Priorities, s.noRfc7540Priorities));
      http2 := s;
    }

    /** The Akamai values, for the slots the string covers. */
    method ApplyAkamai(ak: Presence)
      modifies this`http2
      ensures http2 == Shorthand(old(http2), ak)
    {
      var s, seen, given := http2, ak.seen, ak.settings;
      s := s.(headerTableSize := Covering(1 in seen, given.headerTableSize, s.headerTableSize));
      s := s.(enablePush := Covering(2 in seen, given.enablePush, s.enablePush));
      s := s.(maxConcurrentStreams := Covering(3 in seen, given.maxConcurrentStreams, s.maxConcurrentStreams));
      s := s.(initialWindowSize := Covering(4 in seen, given.initialWindowSize, s.initialWindowSize));
      s := s.(maxFrameSize := Covering(5 in seen, given.maxFrameSize, s.maxFrameSize));
      s := s.(maxHeaderListSize := Covering(6 in seen, given.maxHeaderListSize, s.maxHeaderListSize));
      s := s.(noRfc7540Priorities := Covering(9 in seen, given.noRfc7540Priorities, s.noRfc7540Priorities));
      s := s.(connectionWindowUpdate := Covering(ak.hasWindowUpdate, given.connectionWindowUpdate,
        s.connectionWindowUpdate));
      s := s.(streamWeight := Covering(ak.hasStreamWeight, given.streamWeight, s.streamWeight));
      s := s.(streamExclusive := Covering(ak.hasStreamWeight, given.streamExclusive, s.streamExclusive));
      http2 := s;
    }

    /** The structured settings list, in order. */
    method ApplyList(settings: seq<Pair>)
      modifies this`http2
      ensures http2 == Listed(old(http2), settings)
    {
      for i := 0 to |settings|
        invariant http2 == Listed(old(http2), settings[..i])
      {
        assert settings[..i + 1] == settings[..i] + [settings[i]];
        ListedStep(old(http2), settings[..i], settings[i]);
        http2 := WithPair(http2, settings[i]);
      }
      assert settings[..|settings|] == settings;
    }

    method ApplyH2Config(spec: Http2Spec, akamaiPseudo: seq<string>)
      modifies this`h2
      ensures h2 == OverlayH2(old(h2), spec, akamaiPseudo)
    {
      if akamaiPseudo != [] {
        h2 := Some(Get(h2, EMPTY_H2).(pseudoHeaderOrder := Some(akamaiPseudo)));
      }
      if TouchesH2Config(spec) && h2.None? {
        h2 := Some(EMPTY_H2);
      }
      if h2.Some? {
        var c := h2.value;
        c := c.(pseudoHeaderOrder := if akamaiPseudo == [] then Over(spec.pseudoOrder, c.pseudoHeaderOrder)
          else c.pseudoHeaderOrder);
        c := c.(settingsOrder := Over(spec.settingsOrder, c.settingsOrder));
        c := c.(hpackHeaderOrder := Over(spec.hpackHeaderOrder, c.hpackHeaderOrder));
        c := c.(hpackHeaderOrderSubresource := Over(spec.hpackHeaderOrderSubresource, c.hpackHeaderOrderSubresource));
        c := c.(hpackNeverIndex := Over(spec.hpackNeverIndex, c.hpackNeverIndex));
        c := c.(disableCookieSplit := Over(spec.disableCookieSplit, c.disableCookieSplit));
        c := c.(dataFrameMaxSize := Over(spec.dataFrameMaxSize, c.dataFrameMaxSize));
        c := c.(prefacePingIdleMs := Over(spec.prefacePingIdleMs, c.prefacePingIdleMs));
        c := c.(prefacePingHangMs := Over(spec.prefacePingHangMs, c.prefacePingHangMs));
        c := c.(idlePingMs := Over(spec.idlePingMs, c.idlePingMs));
        c := c.(priorityOverHttp1 := Over(spec.priorityOverHttp1, c.priorityOverHttp1));
        c := c.(hpackIndexingPolicy := Get(spec.hpackIndexingPolicy, c.hpackIndexingPolicy));
        c := c.(hpackRepresentation := Get(spec.hpackRepresentation, c.hpackRepresentation));
        c := c.(streamPriorityMode := Get(spec.streamPriorityMode, c.streamPriorityMode));
        c := c.(priorityTable := Get(spec.priorityTable, c.priorityTable));
        c := c.(priorityModel := Get(spec.priorityModel, c.priorityModel));
        h2 := Some(c);
      }
    }

    /** applyHTTP2: fails exactly on a bad Akamai string, and otherwise leaves every slot to the source
        that decides it. */
    method ApplyHttp2(spec: Http2Spec) returns (ok: bool)
      modifies this`http2, this`h2
      ensures ok == AkamaiOk(spec)
      ensures ok ==> http2 == OverlaySettings(old(http2), spec, AkamaiMeaning(spec), Weighted(spec))
      ensures ok ==> h2 == OverlayH2(old(h2), spec, AkamaiPseudo(spec))
    {
      var ak: Option<Presence> := None;
      if spec.akamai != "" {
        var r := ParseAkamaiDetailed(spec.akamai);
        if r.Err? {
          return false;
        }
        ak := Some(r.value);
      }
      if ak.Some? {
        ApplyDiscrete(spec, ak.value.seen, ak.value.hasWindowUpdate, ak.value.hasStreamWeight);
        ApplyAkamai(ak.value);
      } else {
        ApplyDiscrete(spec, {}, false, false);
      }
      ApplyList(spec.settings);
      if ak.Some? {
        SourcesDecideFor(old(http2), spec, Read(spec.akamai).value, ak.value);
      } else {
        SourcesDecideAlone(old(http2), spec);
      }
      ApplyH2Config(spec, if ak.Some? then ak.value.pseudo else []);
      return true;
    }

    /** applyHTTP3: creates the block if there is none, then overlays the fields given. */
    method ApplyHttp3(spec: Http3Spec)
      modifies this`h3
      ensures h3 == Some(OverlayH3(old(h3), spec))
    {
      var c := if h3.Some? then h3.value else EMPTY_H3;
      c := c.(qpackMaxTableCapacity := Over(spec.qpackMaxTableCapacity, c.qpackMaxTableCapacity));
      c := c.(qpackBlockedStreams := Over(spec.qpackBlockedStreams, c.qpackBlockedStreams));
      c := c.(maxFieldSectionSize := Over(spec.maxFieldSectionSize, c.maxFieldSectionSize));
      c := c.(enableDatagrams := Over(spec.enableDatagrams, c.enableDatagrams));
      c := c.(quicInitialPacketSize := Over(spec.quicInitialPacketSize, c.quicInitialPacketSize));
      c := c.(quicMaxIncomingStreams := Over(spec.quicMaxIncomingStreams, c.quicMaxIncomingStreams));
      c := c.(quicMaxIncomingUniStreams := Over(spec.quicMaxIncomingUniStreams, c.quicMaxIncomingUniStreams));
      c := c.(quicAllow0RTT := Over(spec.quicAllow0RTT, c.quicAllow0RTT));
      c := c.(quicChromeStyleInitial := Over(spec.quicChromeStyleInitial, c.quicChromeStyleInitial));
      c := c.(quicDisableHelloScramble := Over(spec.quicDisableHelloScramble, c.quicDisableHelloScramble));
      c := c.(quicConnectionIdLength := Over(spec.quicConnectionIdLength, c.quicConnectionIdLength));
      c := c.(quicMaxDatagramFrameSize := Over(spec.quicMaxDatagramFrameSize, c.quicMaxDatagramFrameSize));
      c := c.(maxResponseHeaderBytes := Over(spec.maxResponseHeaderBytes, c.maxResponseHeaderBytes));
      c := c.(sendGreaseFrames := Over(spec.sendGreaseFrames, c.sendGreaseFrames));
      c := c.(quicConnectionOptions := Over(spec.quicConnectionOptions, c.quicConnectionOptions));
      c := c.(quicInitialStreamReceiveWindow := Over(spec.quicInitialStreamReceiveWindow,
        c.quicInitialStreamReceiveWindow));
      c := c.(quicInitialConnectionReceiveWindow := Over(spec.quicInitialConnectionReceiveWindow,
        c.quicInitialConnectionReceiveWindow));
      c := c.(quicTransportParamOrder := Get(spec.quicTransportParamOrder, c.quicTransportParamOrder));
      h3 := Some(c);
    }
  }
}
