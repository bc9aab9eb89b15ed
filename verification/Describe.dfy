/** Describing a preset as a flat spec, and what survives describing and reloading it
    (fingerprint/describe.go, fingerprint/client_hello_ids.go). */
module Describe {
  import opened A = Akamai
  import opened P = Preset
  import opened B = PresetBuild
  import opened Wrappers

  // ----- Names of hello identities

  predicate IsAuto(name: string)
  {
    |name| >= 5 && name[|name| - 5..] == "-auto"
  }

  lemma AutoIsSuffix(name: string)
    ensures IsAuto(name) <==> exists stem :: name == stem + "-auto"
  {
    if IsAuto(name) {
      assert name == name[..|name| - 5] + "-auto";
    }
  }

  /** m gives every registered identity one of its names, a concrete one if it has any. */
  ghost predicate IsInverse(ids: map<string, HelloId>, m: map<HelloId, string>)
  {
    && (forall id | id in m :: id != NO_HELLO && m[id] in ids && ids[m[id]] == id)
    && (forall n | n in ids && ids[n] != NO_HELLO ::
          ids[n] in m && ((forall stem :: n != stem + "-auto") ==> forall stem :: m[ids[n]] != stem + "-auto"))
  }

  /** The first pass over the names in done: m covers the concrete ones. */
  ghost predicate Covers(ids: map<string, HelloId>, m: map<HelloId, string>, done: set<string>, auto: bool)
  {
    && (forall id | id in m :: id != NO_HELLO && m[id] in ids && ids[m[id]] == id && (!auto ==> !IsAuto(m[id])))
    && (forall n | n in done && n in ids && ids[n] != NO_HELLO && (auto || !IsAuto(n)) :: ids[n] in m)
    && (auto ==> forall n | n in ids && ids[n] != NO_HELLO && !IsAuto(n) :: ids[n] in m && !IsAuto(m[ids[n]]))
  }

  /** Two passes in whatever order the map is walked: concrete names first, then aliases for what is
      left. */
  method BuildInverse(ids: map<string, HelloId>) returns (m: map<HelloId, string>)
    ensures IsInverse(ids, m)
  {
    m := map[];
    var todo := ids.Keys;
    while todo != {}
      invariant todo <= ids.Keys && Covers(ids, m, ids.Keys - todo, false)
      decreases |todo|
    {
      var n :| n in todo;
      todo := todo - {n};
      if !IsAuto(n) && ids[n] != NO_HELLO {
        m := m[ids[n] := n];
      }
    }
    assert ids.Keys - {} == ids.Keys;
    todo := ids.Keys;
    while todo != {}
      invariant todo <= ids.Keys && Covers(ids, m, ids.Keys - todo, true)
      decreases |todo|
    {
      var n :| n in todo;
      todo := todo - {n};
      if IsAuto(n) && ids[n] != NO_HELLO && ids[n] !in m {
        m := m[ids[n] := n];
      }
    }
    assert ids.Keys - {} == ids.Keys;
    forall n
      ensures IsAuto(n) <==> exists stem :: n == stem + "-auto"
    {
      AutoIsSuffix(n);
    }
  }

  // ----- Flattening

  function NonEmpty<T>(s: seq<T>): Option<seq<T>>
  {
    if s == [] then None else Some(s)
  }

  function FlattenHttp2(p: Preset): Http2Spec
  {
    var s, c, table := p.http2, H2Of(p), EffectiveTable(p);
    Http2Spec(
      "",
      Some(s.headerTableSize), Some(s.enablePush), Some(s.maxConcurrentStreams), Some(s.initialWindowSize),
      Some(s.maxFrameSize), Some(s.maxHeaderListSize), Some(s.connectionWindowUpdate), Some(s.streamWeight),
      Some(s.streamExclusive), Some(s.noRfc7540Priorities),
      [],
      NonEmpty(Get(H2SettingsOrder(p), [])),
      NonEmpty(Get(H2PseudoHeaderOrder(p), [])),
      NonEmpty(H2HeaderOrder(p)),
      NonEmpty(Get(c.hpackHeaderOrderSubresource, [])),
      Some(H2HpackIndexingPolicy(p)),
      None,
      NonEmpty(H2HpackNeverIndex(p)),
      Some(H2StreamPriorityMode(p)),
      Some(H2DisableCookieSplit(p)),
      Some(H2DataFrameMaxSize(p)),
      Some(H2PrefacePingIdle(p)),
      Some(H2PrefacePingHang(p)),
      Some(H2IdlePing(p)),
      table,
      if table.Some? then Some(H2PriorityModel(p)) else None,
      Some(SendsPriorityOverHttp1(p)))
  }

  function FlattenHttp3(p: Preset): Http3Spec
  {
    var v, c := H3Getters(p), H3Of(p);
    Http3Spec(
      Some(v.qpackMaxTableCapacity), Some(v.qpackBlockedStreams), Some(v.maxFieldSectionSize), Some(v.enableDatagrams),
      Some(v.quicInitialPacketSize), Some(v.quicMaxIncomingStreams), Some(v.quicMaxIncomingUniStreams),
      Some(v.quicAllow0RTT), Some(v.quicChromeStyleInitial), Some(v.quicDisableHelloScramble),
      Some(v.quicTransportParamOrder), Some(v.quicConnectionIdLength), Some(v.quicMaxDatagramFrameSize),
      Some(v.maxResponseHeaderBytes), Some(v.sendGreaseFrames),
      c.quicConnectionOptions, c.quicInitialStreamReceiveWindow, c.quicInitialConnectionReceiveWindow)
  }

  function FlattenExtras(e: Ja3Extras): Ja3ExtrasSpec
  {
    Ja3ExtrasSpec(
      e.signatureAlgorithms, e.delegatedCredentialAlgorithms, e.alpn, e.certCompression,
      if e.permuteExtensions then Some(true) else None,
      if e.recordSizeLimit != 0 then Some(e.recordSizeLimit) else None,
      if e.keyShareCurves != 0 then Some(e.keyShareCurves) else None)
  }

  function NameOf(id: HelloId, names: map<HelloId, string>): Result<string>
  {
    if id == NO_HELLO then Ok("") else if id in names then Ok(names[id]) else Err
  }

  function FlattenTls(t: Tls, names: map<HelloId, string>): Result<Option<TlsSpec>>
  {
    if t.ja3 != "" then
      Ok(Some(TlsSpec("", "", "", "", t.ja3, if t.ja3Extras.Some? then Some(FlattenExtras(t.ja3Extras.value)) else None,
                      [], [], None, None)))
    else
      var hello, psk := NameOf(t.hello, names), NameOf(t.pskHello, names);
      var quic, quicPsk := NameOf(t.quicHello, names), NameOf(t.quicPskHello, names);
      if hello.Err? || psk.Err? || quic.Err? || quicPsk.Err? then Err
      else if hello.value == "" then Ok(None)
      else
        Ok(Some(TlsSpec(hello.value, psk.value, quic.value, quicPsk.value, "", None,
                        t.signatureAlgorithms, t.quicSignatureAlgorithms, NonEmpty(t.trustAnchors),
                        if t.quicTrustAnchorShuffle then Some(true) else None)))
  }

  function FlattenHeaders(h: HeaderBlock): Option<HeaderBlock>
  {
    if h.userAgent == "" && h.values == map[] && h.order == [] then None else Some(h)
  }

  function FlattenTcp(t: Tcp): Option<TcpSpec>
  {
    if t == NO_TCP then None
    else Some(TcpSpec(Some(t.ttl), Some(t.mss), Some(t.windowSize), Some(t.windowScale), Some(t.dfBit)))
  }

  function Flatten(p: Preset, names: map<HelloId, string>): Result<Spec>
  {
    var tls := FlattenTls(p.tls, names);
    if tls.Err? then Err
    else
      Ok(Spec(p.name, tls.value, FlattenHeaders(p.headers), FlattenHttp2(p),
              if p.supportHttp3 || p.h3.Some? then Some(FlattenHttp3(p)) else None,
              FlattenTcp(p.tcp), Some(p.supportHttp3)))
  }

  /** A header block is described exactly when it holds a user agent, a value or an order. */
  lemma HeadersDescribedIff(h: HeaderBlock)
    ensures FlattenHeaders(h).Some? <==> h.userAgent != "" || h.values != map[] || h.order != []
    ensures FlattenHeaders(h).Some? ==> FlattenHeaders(h).value == h
  {
  }

  // ----- JSON: omitempty drops empty lists and maps

  function OmitEmptySeq<T>(v: Option<seq<T>>): Option<seq<T>>
  {
    if v == Some([]) then None else v
  }

  function OmitEmptyMap<K, V>(v: Option<map<K, V>>): Option<map<K, V>>
  {
    if v.Some? && |v.value| == 0 then None else v
  }

  /** Writing JSON drops exactly the empty lists and maps. */
  lemma JsonDropsTheEmpty<T, K, V>(list: Option<seq<T>>, table: Option<map<K, V>>)
    ensures OmitEmptySeq(list).Some? <==> list.Some? && list.value != []
    ensures OmitEmptyMap(table).Some? <==> table.Some? && table.value != map[]
    ensures OmitEmptySeq(list).Some? ==> OmitEmptySeq(list) == list
    ensures OmitEmptyMap(table).Some? ==> OmitEmptyMap(table) == table
  {
  }

  function ThroughJson(s: Spec): Spec
  {
    var h := s.http2;
    s.(http2 := h.(settingsOrder := OmitEmptySeq(h.settingsOrder), pseudoOrder := OmitEmptySeq(h.pseudoOrder),
                   hpackHeaderOrder := OmitEmptySeq(h.hpackHeaderOrder),
                   hpackHeaderOrderSubresource := OmitEmptySeq(h.hpackHeaderOrderSubresource),
                   hpackRepresentation := OmitEmptyMap(h.hpackRepresentation),
                   hpackNeverIndex := OmitEmptySeq(h.hpackNeverIndex),
                   priorityTable := OmitEmptyMap(h.priorityTable)),
       tls := if s.tls.Some? then Some(s.tls.value.(trustAnchors := OmitEmptySeq(s.tls.value.trustAnchors))) else None)
  }

  /** Describe, write, read back, build. */
  function Rebuild(p: Preset, names: map<HelloId, string>, env: Env): Result<Preset>
  {
    var spec := Flatten(p, names);
    if spec.Err? then Err else Build(ThroughJson(spec.value), env)
  }

  /** The same through the loader, which refuses an incomplete preset. */
  function Reload(p: Preset, names: map<HelloId, string>, env: Env): Result<Preset>
  {
    var spec := Flatten(p, names);
    if spec.Err? then Err else Load(ThroughJson(spec.value), env)
  }

  // ----- Which presets can be described and reloaded

  predicate KnownHello(id: HelloId, names: map<HelloId, string>)
  {
    id == NO_HELLO || id in names
  }

  predicate WellFormedTls(t: Tls, names: map<HelloId, string>, env: Env)
  {
    if t.ja3 != "" then env.ja3Parses(t.ja3)
    else
      && KnownHello(t.hello, names) && KnownHello(t.pskHello, names)
      && KnownHello(t.quicHello, names) && KnownHello(t.quicPskHello, names)
      && (t.hello != NO_HELLO ==> t.hello.client != "" && names[t.hello] != "")
      && AnchorsFit(t.trustAnchors)
  }

  predicate WellFormedH2(c: H2Config)
  {
    && c.hpackIndexingPolicy in ["", "chrome", "never", "always", "default"]
    && c.streamPriorityMode in ["", "chrome", "default"]
    && c.priorityModel in ["", CHROMIUM, TABLE]
    && ValidTable(c.priorityTable)
  }

  ghost predicate WellFormed(p: Preset, names: map<HelloId, string>, env: Env)
  {
    && IsInverse(env.helloIds, names)
    && WellFormedTls(p.tls, names, env)
    && WellFormedH2(H2Of(p))
    && H3Of(p).quicTransportParamOrder in ["", "chrome", "random"]
  }

  // ----- The rebuilt preset

  /** The H2 block that building the described preset produces. */
  function RebuiltH2(p: Preset): H2Config
  {
    var table := EffectiveTable(p);
    H2Config(
      NonEmpty(H2HeaderOrder(p)),
      NonEmpty(Get(H2Of(p).hpackHeaderOrderSubresource, [])),
      H2HpackIndexingPolicy(p),
      map[],
      NonEmpty(H2HpackNeverIndex(p)),
      H2StreamPriorityMode(p),
      Some(H2DisableCookieSplit(p)),
      Some(H2DataFrameMaxSize(p)),
      Some(H2PrefacePingIdle(p)),
      Some(H2PrefacePingHang(p)),
      Some(H2IdlePing(p)),
      NonEmpty(Get(H2SettingsOrder(p), [])),
      NonEmpty(Get(H2PseudoHeaderOrder(p), [])),
      Get(table, map[]),
      if table.Some? then H2PriorityModel(p) else "",
      Some(SendsPriorityOverHttp1(p)))
  }

  lemma SettingsRebuilt(p: Preset)
    ensures OverlaySettings(ZERO, FlattenHttp2(p), None, false) == p.http2
  {
  }

  lemma H2Rebuilt(p: Preset)
    ensures OverlayH2(None, FlattenHttp2(p), []) == Some(RebuiltH2(p))
  {
  }

  lemma DefaultTableFacts()
    ensures DefaultPriorityTable() != map[] && ValidTable(DefaultPriorityTable())
  {
    assert "audio" in DefaultPriorityTable();
  }

  lemma TableNeverEmpty(p: Preset)
    ensures OmitEmptyMap(EffectiveTable(p)) == EffectiveTable(p)
  {
    DefaultTableFacts();
  }

  lemma NonEmptyKept<T>(s: seq<T>)
    ensures OmitEmptySeq(NonEmpty(s)) == NonEmpty(s)
  {
  }

  lemma JsonKeeps(p: Preset, names: map<HelloId, string>)
    requires Flatten(p, names).Ok?
    ensures ThroughJson(Flatten(p, names).value) == Flatten(p, names).value
  {
    TableNeverEmpty(p);
    NonEmptyKept(Get(H2SettingsOrder(p), []));
    NonEmptyKept(Get(H2PseudoHeaderOrder(p), []));
    NonEmptyKept(H2HeaderOrder(p));
    NonEmptyKept(Get(H2Of(p).hpackHeaderOrderSubresource, []));
    NonEmptyKept(H2HpackNeverIndex(p));
    NonEmptyKept(p.tls.trustAnchors);
  }

  lemma FlattenedHttp2Valid(p: Preset)
    requires WellFormedH2(H2Of(p))
    ensures ValidHttp2(FlattenHttp2(p))
  {
    DefaultTableFacts();
  }

  // ----- TLS comes back to the same description

  lemma HelloReturns(id: HelloId, names: map<HelloId, string>, env: Env)
    requires IsInverse(env.helloIds, names) && KnownHello(id, names)
    ensures NameOf(id, names).Ok? && Resolve(env, NameOf(id, names).value, NO_HELLO).Ok?
    ensures id != NO_HELLO && names[id] != "" ==> Resolve(env, NameOf(id, names).value, NO_HELLO).value == id
    ensures id == NO_HELLO || names[id] == "" ==> Resolve(env, NameOf(id, names).value, NO_HELLO).value == NO_HELLO
  {
  }

  function Named(id: HelloId, names: map<HelloId, string>): HelloId
  {
    if id in names && names[id] != "" then id else NO_HELLO
  }

  /** The TLS block that building the described one produces. */
  function RebuiltTls(t: Tls, names: map<HelloId, string>): Tls
  {
    if t.ja3 != "" then NO_TLS.(ja3 := t.ja3, ja3Extras := t.ja3Extras)
    else if t.hello == NO_HELLO then NO_TLS
    else t.(ja3Extras := None, pskHello := Named(t.pskHello, names), quicHello := Named(t.quicHello, names),
            quicPskHello := Named(t.quicPskHello, names))
  }

  lemma TlsReturns(t: Tls, names: map<HelloId, string>, env: Env)
    requires IsInverse(env.helloIds, names) && WellFormedTls(t, names, env)
    ensures FlattenTls(t, names).Ok?
    ensures var spec := FlattenTls(t, names).value;
            if spec.Some? then
              OverlayTls(NO_TLS, spec.value, env) == Ok(RebuiltTls(t, names)) &&
              ValidTls(RebuiltTls(t, names), spec.value)
            else RebuiltTls(t, names) == NO_TLS
  {
    if t.ja3 == "" {
      HelloReturns(t.hello, names, env);
      HelloReturns(t.pskHello, names, env);
      HelloReturns(t.quicHello, names, env);
      HelloReturns(t.quicPskHello, names, env);
    }
  }

  lemma TlsDescriptionReturns(t: Tls, names: map<HelloId, string>, env: Env)
    requires IsInverse(env.helloIds, names) && WellFormedTls(t, names, env)
    ensures FlattenTls(RebuiltTls(t, names), names) == FlattenTls(t, names)
  {
    if t.ja3 == "" {
      HelloReturns(t.hello, names, env);
      HelloReturns(t.pskHello, names, env);
      HelloReturns(t.quicHello, names, env);
      HelloReturns(t.quicPskHello, names, env);
    }
  }

  /** What describing a TLS block loses. In ja3 mode it writes the string and its extras only, so hello
      identities, signature algorithms and trust anchors kept beside them are gone; without a hello it
      writes nothing; in hello mode it drops extras without a ja3 string, and identities whose
      registered name is empty. */
  predicate TlsLossless(t: Tls, names: map<HelloId, string>)
  {
    if t.ja3 != "" then
      && t.hello == NO_HELLO && t.pskHello == NO_HELLO && t.quicHello == NO_HELLO && t.quicPskHello == NO_HELLO
      && t.signatureAlgorithms == [] && t.quicSignatureAlgorithms == []
      && t.trustAnchors == [] && !t.quicTrustAnchorShuffle
    else if t.hello == NO_HELLO then t == NO_TLS
    else
      && t.ja3Extras.None?
      && Named(t.pskHello, names) == t.pskHello && Named(t.quicHello, names) == t.quicHello
      && Named(t.quicPskHello, names) == t.quicPskHello
  }

  // ----- HTTP/3, headers and TCP

  lemma H3Returns(p: Preset, q: Preset)
    requires q.h3 == Some(OverlayH3(None, FlattenHttp3(p)))
    ensures H3Getters(q) == H3Getters(p) && FlattenHttp3(q) == FlattenHttp3(p)
  {
  }

  lemma HeadersReturn(h: HeaderBlock)
    requires FlattenHeaders(h).Some?
    ensures OverlayHeaders(HeaderBlock("", map[], [], ""), h) == h
  {
    assert map[] + h.values == h.values;
  }

  lemma TcpReturns(t: Tcp)
    ensures FlattenTcp(t).Some? ==> OverlayTcp(NO_TCP, FlattenTcp(t).value) == t
  {
  }

  /** The TLS block that building a flat spec starts from. */
  function BuiltTls(spec: Spec, env: Env): Result<Tls>
  {
    if spec.tls.Some? then OverlayTls(NO_TLS, spec.tls.value, env) else Ok(NO_TLS)
  }

  lemma BuildSucceeds(spec: Spec, env: Env)
    requires spec.http2.akamai == "" && ValidHttp2(spec.http2) && (spec.http3.Some? ==> ValidHttp3(spec.http3.value))
    requires BuiltTls(spec, env).Ok?
    requires spec.tls.Some? ==>
               ValidTls(BuiltTls(spec, env).value, spec.tls.value) &&
               (spec.tls.value.ja3 != "" ==> env.ja3Parses(spec.tls.value.ja3))
    ensures Build(spec, env) == Ok(Overlay(EmptyPreset(spec.name), spec, BuiltTls(spec, env).value))
  {
  }

  /** The header block that comes back: an image accept value alone is not described. */
  function RebuiltHeaders(h: HeaderBlock): HeaderBlock
  {
    Get(FlattenHeaders(h), HeaderBlock("", map[], [], ""))
  }

  /** What describing and building a preset gives. */
  function Rebuilt(p: Preset, names: map<HelloId, string>): Preset
  {
    Preset(p.name, RebuiltTls(p.tls, names), RebuiltHeaders(p.headers), p.http2, p.tcp, p.supportHttp3,
           Some(RebuiltH2(p)),
           if p.supportHttp3 || p.h3.Some? then Some(OverlayH3(None, FlattenHttp3(p))) else None)
  }

  lemma OverlayOfFlat(p: Preset, names: map<HelloId, string>)
    requires Flatten(p, names).Ok?
    ensures Overlay(EmptyPreset(p.name), Flatten(p, names).value, RebuiltTls(p.tls, names)) == Rebuilt(p, names)
  {
    SettingsRebuilt(p);
    H2Rebuilt(p);
    if FlattenHeaders(p.headers).Some? {
      HeadersReturn(p.headers);
    }
    TcpReturns(p.tcp);
  }

  lemma FlatTlsBuilds(p: Preset, names: map<HelloId, string>, env: Env)
    requires IsInverse(env.helloIds, names) && WellFormedTls(p.tls, names, env)
    ensures Flatten(p, names).Ok?
    ensures var spec := Flatten(p, names).value;
            && BuiltTls(spec, env) == Ok(RebuiltTls(p.tls, names))
            && (spec.tls.Some? ==>
                  ValidTls(RebuiltTls(p.tls, names), spec.tls.value) &&
                  (spec.tls.value.ja3 != "" ==> env.ja3Parses(spec.tls.value.ja3)))
  {
    TlsReturns(p.tls, names, env);
  }

  /** Describing and building a well-formed preset succeeds, and this is what comes back. */
  lemma RebuildGives(p: Preset, names: map<HelloId, string>, env: Env)
    requires WellFormed(p, names, env)
    ensures Flatten(p, names).Ok? && Rebuild(p, names, env) == Ok(Rebuilt(p, names))
  {
    FlatTlsBuilds(p, names, env);
    var spec := Flatten(p, names).value;
    JsonKeeps(p, names);
    FlattenedHttp2Valid(p);
    assert spec.http3.Some? ==> ValidHttp3(spec.http3.value);
    BuildSucceeds(spec, env);
    OverlayOfFlat(p, names);
  }

  lemma RebuiltCompleteIff(p: Preset, names: map<HelloId, string>, env: Env)
    requires WellFormedTls(p.tls, names, env)
    ensures Complete(Rebuilt(p, names)) <==> Complete(p)
  {
  }

  /** Reloading a well-formed preset through the loader succeeds exactly when the preset itself has a TLS
      source, a user agent and some header; and this is what comes back. */
  lemma ReloadGives(p: Preset, names: map<HelloId, string>, env: Env)
    requires WellFormed(p, names, env)
    ensures Reload(p, names, env) ==
            if (p.tls.hello.client != "" || p.tls.ja3 != "") && p.headers.userAgent != "" &&
               (p.headers.order != [] || p.headers.values != map[])
            then Ok(Rebuilt(p, names)) else Err
  {
    RebuildGives(p, names, env);
    RebuiltCompleteIff(p, names, env);
  }

  // ----- Describe, reload, describe

  lemma TableReturns(p: Preset, q: Preset)
    requires q.http2 == p.http2 && q.h2 == Some(RebuiltH2(p))
    ensures EffectiveTable(q) == EffectiveTable(p)
  {
    DefaultTableFacts();
  }

  lemma H2DescriptionReturns(p: Preset, q: Preset)
    requires q.http2 == p.http2 && q.h2 == Some(RebuiltH2(p))
    ensures FlattenHttp2(q) == FlattenHttp2(p) <==> H2Of(p).hpackHeaderOrder != Some([])
  {
    TableReturns(p, q);
    var a, b := FlattenHttp2(p), FlattenHttp2(q);
    assert b == a.(hpackHeaderOrder := NonEmpty(H2HeaderOrder(q)));
  }

  lemma H3DescriptionReturns(p: Preset, names: map<HelloId, string>)
    ensures H3Getters(Rebuilt(p, names)) == H3Getters(p)
    ensures p.supportHttp3 || p.h3.Some? ==> FlattenHttp3(Rebuilt(p, names)) == FlattenHttp3(p)
  {
    if p.supportHttp3 || p.h3.Some? {
      H3Returns(p, Rebuilt(p, names));
    }
  }

  lemma HeadersDescriptionReturns(h: HeaderBlock)
    ensures FlattenHeaders(RebuiltHeaders(h)) == FlattenHeaders(h)
  {
  }

  lemma DescriptionReturnsIff(p: Preset, names: map<HelloId, string>)
    requires FlattenTls(p.tls, names).Ok? && FlattenTls(RebuiltTls(p.tls, names), names) == FlattenTls(p.tls, names)
    ensures Flatten(Rebuilt(p, names), names) == Flatten(p, names) <==>
            FlattenHttp2(Rebuilt(p, names)) == FlattenHttp2(p)
  {
    H3DescriptionReturns(p, names);
    HeadersDescriptionReturns(p.headers);
  }

  /** The loader's verdict, and the builder's. */
  lemma RoundTrip(p: Preset, names: map<HelloId, string>, env: Env)
    requires WellFormed(p, names, env)
    ensures Rebuild(p, names, env) == Ok(Rebuilt(p, names))
    ensures Reload(p, names, env) == if Complete(p) then Rebuild(p, names, env) else Err
  {
    RebuildGives(p, names, env);
    ReloadGives(p, names, env);
  }

  /** The second description equals the first exactly when the preset does not carry an empty, non-nil
      header order; an empty one is dropped and comes back as the default. The loader lets the preset
      through exactly when it is complete. */
  lemma DescribeReloadDescribe(p: Preset, names: map<HelloId, string>, env: Env)
    requires WellFormed(p, names, env)
    ensures Rebuild(p, names, env).Ok?
    ensures Reload(p, names, env) == if Complete(p) then Rebuild(p, names, env) else Err
    ensures Flatten(Rebuild(p, names, env).value, names) == Flatten(p, names) <==> H2Of(p).hpackHeaderOrder != Some([])
  {
    RoundTrip(p, names, env);
    TlsDescriptionReturns(p.tls, names, env);
    assert FlattenTls(p.tls, names).Ok? by {
      TlsReturns(p.tls, names, env);
    }
    DescriptionReturnsIff(p, names);
    H2DescriptionReturns(p, Rebuilt(p, names));
  }

  lemma TlsRebuiltIff(t: Tls, names: map<HelloId, string>)
    ensures RebuiltTls(t, names) == t <==> TlsLossless(t, names)
  {
  }

  lemma HeadersRebuiltIff(h: HeaderBlock)
    ensures RebuiltHeaders(h) == h <==> FlattenHeaders(h).Some? || h.imageAccept == ""
  {
  }

  /** What comes back outside HTTP/2 and HTTP/3: name, settings and TCP values always; the headers unless
      an image accept value was all there was; and the TLS block exactly when it has nothing that a
      description leaves out. */
  lemma TlsComesBackIffLossless(p: Preset, names: map<HelloId, string>, env: Env)
    requires WellFormed(p, names, env)
    ensures Rebuild(p, names, env).Ok?
    ensures Reload(p, names, env) == if Complete(p) then Rebuild(p, names, env) else Err
    ensures var q := Rebuild(p, names, env).value;
            && q.name == p.name && q.http2 == p.http2 && q.tcp == p.tcp && q.supportHttp3 == p.supportHttp3
            && (q.headers == p.headers <==> FlattenHeaders(p.headers).Some? || p.headers.imageAccept == "")
            && (q.tls == p.tls <==> TlsLossless(p.tls, names))
  {
    RoundTrip(p, names, env);
    TlsRebuiltIff(p.tls, names);
    HeadersRebuiltIff(p.headers);
  }

  // ----- What the transports read

  ghost predicate H2GettersAgree(p: Preset, q: Preset)
  {
    && H2HeaderOrder(q) == H2HeaderOrder(p)
    && (forall dest :: H2HeaderOrderFor(q, dest) == H2HeaderOrderFor(p, dest))
    && H2HpackIndexingPolicy(q) == H2HpackIndexingPolicy(p)
    && H2HpackNeverIndex(q) == H2HpackNeverIndex(p)
    && H2HpackRepresentation(q) == H2HpackRepresentation(p)
    && H2StreamPriorityMode(q) == H2StreamPriorityMode(p)
    && H2DisableCookieSplit(q) == H2DisableCookieSplit(p)
    && H2DataFrameMaxSize(q) == H2DataFrameMaxSize(p)
    && H2PrefacePingIdle(q) == H2PrefacePingIdle(p)
    && H2PrefacePingHang(q) == H2PrefacePingHang(p)
    && H2IdlePing(q) == H2IdlePing(p)
    && H2SettingsOrder(q) == H2SettingsOrder(p)
    && H2PseudoHeaderOrder(q) == H2PseudoHeaderOrder(p)
    && H2HasPriorityTable(q) == H2HasPriorityTable(p)
    && (forall dest :: H2PriorityFor(q, dest) == H2PriorityFor(p, dest))
    && H2PriorityModel(q) == H2PriorityModel(p)
    && SendsPriorityOverHttp1(q) == SendsPriorityOverHttp1(p)
  }

  /** What describing the HTTP/2 block loses: an empty non-nil list, any per-name HPACK representation, and
      an explicit priority model on a preset that has no priority table. */
  predicate H2Lossless(p: Preset)
  {
    var c := H2Of(p);
    && c.hpackHeaderOrder != Some([]) && c.settingsOrder != Some([]) && c.pseudoHeaderOrder != Some([])
    && c.hpackRepresentation == map[]
    && (H2HasPriorityTable(p) || c.priorityModel == "" || c.priorityModel == TABLE)
  }

  /** These agree whatever the preset. */
  lemma H2AlwaysKept(p: Preset, q: Preset)
    requires q.http2 == p.http2 && q.h2 == Some(RebuiltH2(p))
    ensures H2HpackIndexingPolicy(q) == H2HpackIndexingPolicy(p) && H2HpackNeverIndex(q) == H2HpackNeverIndex(p)
    ensures H2StreamPriorityMode(q) == H2StreamPriorityMode(p) && H2DisableCookieSplit(q) == H2DisableCookieSplit(p)
    ensures H2DataFrameMaxSize(q) == H2DataFrameMaxSize(p) && H2IdlePing(q) == H2IdlePing(p)
    ensures H2PrefacePingIdle(q) == H2PrefacePingIdle(p) && H2PrefacePingHang(q) == H2PrefacePingHang(p)
    ensures SendsPriorityOverHttp1(q) == SendsPriorityOverHttp1(p)
    ensures H2HasPriorityTable(q) == H2HasPriorityTable(p)
    ensures forall dest :: H2PriorityFor(q, dest) == H2PriorityFor(p, dest)
  {
    TableReturns(p, q);
  }

  lemma H2OrdersKept(p: Preset, q: Preset)
    requires q.h2 == Some(RebuiltH2(p))
    ensures H2HeaderOrder(q) == H2HeaderOrder(p) <==> H2Of(p).hpackHeaderOrder != Some([])
    ensures H2HeaderOrder(q) == H2HeaderOrder(p) ==>
            forall dest :: H2HeaderOrderFor(q, dest) == H2HeaderOrderFor(p, dest)
    ensures H2SettingsOrder(q) == H2SettingsOrder(p) <==> H2Of(p).settingsOrder != Some([])
    ensures H2PseudoHeaderOrder(q) == H2PseudoHeaderOrder(p) <==> H2Of(p).pseudoHeaderOrder != Some([])
  {
  }

  lemma H2RepresentationKept(p: Preset, q: Preset)
    requires q.h2 == Some(RebuiltH2(p))
    ensures H2HpackRepresentation(q) == H2HpackRepresentation(p) <==> H2Of(p).hpackRepresentation == map[]
  {
  }

  lemma H2ModelKept(p: Preset, q: Preset)
    requires q.http2 == p.http2 && q.h2 == Some(RebuiltH2(p))
    ensures H2PriorityModel(q) == H2PriorityModel(p) <==>
            H2HasPriorityTable(p) || H2Of(p).priorityModel == "" || H2Of(p).priorityModel == TABLE
  {
  }

  lemma H2GettersAgreeIffLossless(p: Preset, q: Preset)
    requires q.http2 == p.http2 && q.h2 == Some(RebuiltH2(p))
    ensures H2GettersAgree(p, q) <==> H2Lossless(p)
  {
    H2AlwaysKept(p, q);
    H2OrdersKept(p, q);
    H2ModelKept(p, q);
    H2RepresentationKept(p, q);
  }

  /** The reloaded preset agrees with the original on every H2 getter, for every destination, exactly when
      nothing of the above is lost; and on every H3 getter always, whatever the name, hello family and
      NoRFC7540Priorities the defaults were derived from. */
  lemma GettersAgreeIffH2Lossless(p: Preset, names: map<HelloId, string>, env: Env)
    requires WellFormed(p, names, env)
    ensures Rebuild(p, names, env).Ok?
    ensures Reload(p, names, env) == if Complete(p) then Rebuild(p, names, env) else Err
    ensures H2GettersAgree(p, Rebuild(p, names, env).value) <==> H2Lossless(p)
    ensures H3Getters(Rebuild(p, names, env).value) == H3Getters(p)
  {
    RoundTrip(p, names, env);
    H2GettersAgreeIffLossless(p, Rebuilt(p, names));
    H3DescriptionReturns(p, names);
  }
}
