/** What inheritance and the getters mean (fingerprint/custom_preset.go, fingerprint/presets.go): a spec changes what it
    names and nothing else, a grandchild is its base overlaid once, and a transport reads what was set. */
module PresetLaws {
  import opened Wrappers
  import opened A = Akamai
  import opened AkamaiText
  import opened P = Preset
  import opened B = PresetBuild

  // ----- A spec that names nothing changes nothing

  const ABSENT_H2 := Http2Spec(
    "", None, None, None, None, None, None, None, None, None, None, [], None, None, None, None, None, None, None, None,
    None, None, None, None, None, None, None, None)

  const ABSENT_H3 := Http3Spec(
    None, None, None, None, None, None, None, None, None, None, None, None, None, None, None, None, None, None)

  const ABSENT_TLS := TlsSpec("", "", "", "", "", None, [], [], None, None)

  const ABSENT_HEADERS := HeaderBlock("", map[], [], "")

  const ABSENT_TCP := TcpSpec(None, None, None, None, None)

  /** Every block left out. */
  const ABSENT := Spec("", None, None, ABSENT_H2, None, None, None)

  /** Every block there, but empty. */
  const EMPTY := Spec("", Some(ABSENT_TLS), Some(ABSENT_HEADERS), ABSENT_H2, None, Some(ABSENT_TCP), None)

  lemma AbsentHeadersKeep(h: HeaderBlock)
    ensures OverlayHeaders(h, ABSENT_HEADERS) == h
  {
    assert h.values + map[] == h.values;
  }

  /** A preset based on another and naming nothing of its own is that other preset, and so is one whose blocks are
      all empty; an HTTP/3 block with no field keeps every field of the inherited one. */
  lemma AbsentSpecChangesNothing(base: Preset, env: Env)
    ensures BuildOn(base, ABSENT, env) == Ok(base) && BuildOn(base, EMPTY, env) == Ok(base)
    ensures base.h3.Some? ==> OverlayH3(base.h3, ABSENT_H3) == base.h3.value
    ensures base.h3.None? ==> OverlayH3(base.h3, ABSENT_H3) == EMPTY_H3
  {
    AbsentHeadersKeep(base.headers);
  }

  /** Without a base, a spec that names nothing gives the preset in which nothing is set. */
  lemma AbsentSpecAlone(env: Env)
    ensures Build(ABSENT, env) ==
            Ok(Preset("", NO_TLS, ABSENT_HEADERS, Settings(0, false, 0, 0, 0, 0, 0, 0, false, false),
                      Tcp(0, 0, 0, 0, false), false, None, None))
  {
  }

  // ----- Overlaying twice is overlaying the merged spec

  /** The HTTP/2 fields of s2 where it has them, else those of s1; the settings list is s2's. */
  function MergeH2(s1: Http2Spec, s2: Http2Spec): Http2Spec
  {
    Http2Spec(
      s2.akamai,
      Over(s2.headerTableSize, s1.headerTableSize),
      Over(s2.enablePush, s1.enablePush),
      Over(s2.maxConcurrentStreams, s1.maxConcurrentStreams),
      Over(s2.initialWindowSize, s1.initialWindowSize),
      Over(s2.maxFrameSize, s1.maxFrameSize),
      Over(s2.maxHeaderListSize, s1.maxHeaderListSize),
      Over(s2.connectionWindowUpdate, s1.connectionWindowUpdate),
      Over(s2.streamWeight, s1.streamWeight),
      Over(s2.streamExclusive, s1.streamExclusive),
      Over(s2.noRfc7540Priorities, s1.noRfc7540Priorities),
      s2.settings,
      Over(s2.settingsOrder, s1.settingsOrder),
      Over(s2.pseudoOrder, s1.pseudoOrder),
      Over(s2.hpackHeaderOrder, s1.hpackHeaderOrder),
      Over(s2.hpackHeaderOrderSubresource, s1.hpackHeaderOrderSubresource),
      Over(s2.hpackIndexingPolicy, s1.hpackIndexingPolicy),
      Over(s2.hpackRepresentation, s1.hpackRepresentation),
      Over(s2.hpackNeverIndex, s1.hpackNeverIndex),
      Over(s2.streamPriorityMode, s1.streamPriorityMode),
      Over(s2.disableCookieSplit, s1.disableCookieSplit),
      Over(s2.dataFrameMaxSize, s1.dataFrameMaxSize),
      Over(s2.prefacePingIdleMs, s1.prefacePingIdleMs),
      Over(s2.prefacePingHangMs, s1.prefacePingHangMs),
      Over(s2.idlePingMs, s1.idlePingMs),
      Over(s2.priorityTable, s1.priorityTable),
      Over(s2.priorityModel, s1.priorityModel),
      Over(s2.priorityOverHttp1, s1.priorityOverHttp1))
  }

  /** The config block of a grandchild. A pseudo-header order in a shorthand counts as one more field: the later of
      the two, whichever form it has. */
  lemma H2OverlaysCompose(base: Option<H2Config>, s1: Http2Spec, pseudo1: seq<string>, s2: Http2Spec,
                          pseudo2: seq<string>)
    ensures OverlayH2(OverlayH2(base, s1, pseudo1), s2, pseudo2) ==
            OverlayH2(base, MergeH2(s1, s2),
                      if pseudo2 != [] then pseudo2 else if s2.pseudoOrder.Some? then [] else pseudo1)
  {
  }

  /** Its settings, when the child gives them field by field. */
  lemma SettingsOverlaysCompose(base: Settings, s1: Http2Spec, s2: Http2Spec, ak: Option<Meaning>, weighted: bool)
    requires s1.settings == []
    ensures OverlaySettings(OverlaySettings(base, s1, None, false), s2, ak, weighted) ==
            OverlaySettings(base, MergeH2(s1, s2), ak, weighted)
  {
  }

  function MergeH3(s1: Http3Spec, s2: Http3Spec): Http3Spec
  {
    Http3Spec(
      Over(s2.qpackMaxTableCapacity, s1.qpackMaxTableCapacity),
      Over(s2.qpackBlockedStreams, s1.qpackBlockedStreams),
      Over(s2.maxFieldSectionSize, s1.maxFieldSectionSize),
      Over(s2.enableDatagrams, s1.enableDatagrams),
      Over(s2.quicInitialPacketSize, s1.quicInitialPacketSize),
      Over(s2.quicMaxIncomingStreams, s1.quicMaxIncomingStreams),
      Over(s2.quicMaxIncomingUniStreams, s1.quicMaxIncomingUniStreams),
      Over(s2.quicAllow0RTT, s1.quicAllow0RTT),
      Over(s2.quicChromeStyleInitial, s1.quicChromeStyleInitial),
      Over(s2.quicDisableHelloScramble, s1.quicDisableHelloScramble),
      Over(s2.quicTransportParamOrder, s1.quicTransportParamOrder),
      Over(s2.quicConnectionIdLength, s1.quicConnectionIdLength),
      Over(s2.quicMaxDatagramFrameSize, s1.quicMaxDatagramFrameSize),
      Over(s2.maxResponseHeaderBytes, s1.maxResponseHeaderBytes),
      Over(s2.sendGreaseFrames, s1.sendGreaseFrames),
      Over(s2.quicConnectionOptions, s1.quicConnectionOptions),
      Over(s2.quicInitialStreamReceiveWindow, s1.quicInitialStreamReceiveWindow),
      Over(s2.quicInitialConnectionReceiveWindow, s1.quicInitialConnectionReceiveWindow))
  }

  lemma H3OverlaysCompose(base: Option<H3Config>, s1: Http3Spec, s2: Http3Spec)
    ensures OverlayH3(Some(OverlayH3(base, s1)), s2) == OverlayH3(base, MergeH3(s1, s2))
  {
  }

  function Later(v1: string, v2: string): string
  {
    if v2 != "" then v2 else v1
  }

  function LaterList<T(==)>(v1: seq<T>, v2: seq<T>): seq<T>
  {
    if v2 != [] then v2 else v1
  }

  function MergeHeaders(s1: HeaderBlock, s2: HeaderBlock): HeaderBlock
  {
    HeaderBlock(Later(s1.userAgent, s2.userAgent), s1.values + s2.values, LaterList(s1.order, s2.order),
                Later(s1.imageAccept, s2.imageAccept))
  }

  lemma HeaderOverlaysCompose(base: HeaderBlock, s1: HeaderBlock, s2: HeaderBlock)
    ensures OverlayHeaders(OverlayHeaders(base, s1), s2) == OverlayHeaders(base, MergeHeaders(s1, s2))
  {
    assert (base.values + s1.values) + s2.values == base.values + (s1.values + s2.values);
  }

  function MergeTcp(s1: TcpSpec, s2: TcpSpec): TcpSpec
  {
    TcpSpec(Over(s2.ttl, s1.ttl), Over(s2.mss, s1.mss), Over(s2.windowSize, s1.windowSize),
            Over(s2.windowScale, s1.windowScale), Over(s2.dfBit, s1.dfBit))
  }

  lemma TcpOverlaysCompose(base: Tcp, s1: TcpSpec, s2: TcpSpec)
    ensures OverlayTcp(OverlayTcp(base, s1), s2) == OverlayTcp(base, MergeTcp(s1, s2))
  {
  }

  /** Two specs that name hellos, or only what goes with them. */
  function MergeTls(s1: TlsSpec, s2: TlsSpec): TlsSpec
  {
    TlsSpec(Later(s1.clientHello, s2.clientHello), Later(s1.pskClientHello, s2.pskClientHello),
            Later(s1.quicClientHello, s2.quicClientHello), Later(s1.quicPskClientHello, s2.quicPskClientHello),
            "", None,
            LaterList(s1.signatureAlgorithms, s2.signatureAlgorithms),
            LaterList(s1.quicSignatureAlgorithms, s2.quicSignatureAlgorithms),
            Over(s2.trustAnchors, s1.trustAnchors), Over(s2.quicTrustAnchorsShuffle, s1.quicTrustAnchorsShuffle))
  }

  lemma LaterNameResolves(env: Env, v1: string, v2: string, base: HelloId)
    requires Resolve(env, v1, base).Ok? && Resolve(env, v2, Resolve(env, v1, base).value).Ok?
    ensures Resolve(env, Later(v1, v2), base) == Resolve(env, v2, Resolve(env, v1, base).value)
  {
  }

  predicate NamesResolve(base: Tls, spec: TlsSpec, env: Env)
  {
    && Resolve(env, spec.clientHello, base.hello).Ok? && Resolve(env, spec.pskClientHello, base.pskHello).Ok?
    && Resolve(env, spec.quicClientHello, base.quicHello).Ok?
    && Resolve(env, spec.quicPskClientHello, base.quicPskHello).Ok?
  }

  /** The TLS block that a spec of names gives, written out. */
  function NamedTls(base: Tls, spec: TlsSpec, env: Env): Tls
    requires NamesResolve(base, spec, env)
  {
    Tls(Resolve(env, spec.clientHello, base.hello).value, Resolve(env, spec.pskClientHello, base.pskHello).value,
        Resolve(env, spec.quicClientHello, base.quicHello).value,
        Resolve(env, spec.quicPskClientHello, base.quicPskHello).value,
        if spec.clientHello != "" then "" else base.ja3, if spec.clientHello != "" then None else base.ja3Extras,
        LaterList(base.signatureAlgorithms, spec.signatureAlgorithms),
        LaterList(base.quicSignatureAlgorithms, spec.quicSignatureAlgorithms),
        Get(spec.trustAnchors, base.trustAnchors), Get(spec.quicTrustAnchorsShuffle, base.quicTrustAnchorShuffle))
  }

  predicate AnchorsOk(spec: TlsSpec)
  {
    spec.trustAnchors.Some? ==> AnchorsFit(spec.trustAnchors.value)
  }

  lemma NamedForm(base: Tls, spec: TlsSpec, env: Env)
    requires spec.ja3 == ""
    ensures OverlayTls(base, spec, env) ==
            if NamesResolve(base, spec, env) && AnchorsOk(spec) then Ok(NamedTls(base, spec, env)) else Err
  {
  }

  lemma NamedTlsCompose(base: Tls, s1: TlsSpec, s2: TlsSpec, env: Env)
    requires NamesResolve(base, s1, env) && NamesResolve(NamedTls(base, s1, env), s2, env)
    ensures NamesResolve(base, MergeTls(s1, s2), env)
    ensures NamedTls(base, MergeTls(s1, s2), env) == NamedTls(NamedTls(base, s1, env), s2, env)
  {
    LaterNameResolves(env, s1.clientHello, s2.clientHello, base.hello);
    LaterNameResolves(env, s1.pskClientHello, s2.pskClientHello, base.pskHello);
    LaterNameResolves(env, s1.quicClientHello, s2.quicClientHello, base.quicHello);
    LaterNameResolves(env, s1.quicPskClientHello, s2.quicPskClientHello, base.quicPskHello);
  }

  lemma TlsOverlaysCompose(base: Tls, s1: TlsSpec, s2: TlsSpec, env: Env)
    requires s1.ja3 == "" && s2.ja3 == ""
    requires OverlayTls(base, s1, env).Ok? && OverlayTls(OverlayTls(base, s1, env).value, s2, env).Ok?
    ensures OverlayTls(base, MergeTls(s1, s2), env) == OverlayTls(OverlayTls(base, s1, env).value, s2, env)
  {
    NamedForm(base, s1, env);
    NamedForm(NamedTls(base, s1, env), s2, env);
    NamedTlsCompose(base, s1, s2, env);
    NamedForm(base, MergeTls(s1, s2), env);
  }

  /** The two TLS modes exclude each other, whatever was inherited: a ja3 string clears the named TCP hellos, a named
      hello clears an inherited ja3 string and its extras, and a spec with neither keeps the inherited mode. */
  lemma TlsModeIsTheLaterOne(base: Tls, spec: TlsSpec, env: Env)
    requires OverlayTls(base, spec, env).Ok?
    ensures var r := OverlayTls(base, spec, env).value;
            if spec.ja3 != "" then
              && r.ja3 == spec.ja3 && r.hello == NO_HELLO && r.pskHello == NO_HELLO
              && r.quicHello == base.quicHello && r.quicPskHello == base.quicPskHello
              && r.signatureAlgorithms == base.signatureAlgorithms
              && r.quicSignatureAlgorithms == base.quicSignatureAlgorithms
              && (spec.ja3Extras.None? ==> r.ja3Extras == base.ja3Extras)
            else if spec.clientHello != "" then
              && r.ja3 == "" && r.ja3Extras.None?
              && spec.clientHello in env.helloIds && r.hello == env.helloIds[spec.clientHello]
            else r.ja3 == base.ja3 && r.ja3Extras == base.ja3Extras && r.hello == base.hello
    ensures var r := OverlayTls(base, spec, env).value;
            spec.ja3 == "" ==>
              && (if spec.pskClientHello != "" then
                    spec.pskClientHello in env.helloIds && r.pskHello == env.helloIds[spec.pskClientHello]
                  else r.pskHello == base.pskHello)
              && (if spec.quicClientHello != "" then
                    spec.quicClientHello in env.helloIds && r.quicHello == env.helloIds[spec.quicClientHello]
                  else r.quicHello == base.quicHello)
              && (if spec.quicPskClientHello != "" then
                    spec.quicPskClientHello in env.helloIds && r.quicPskHello == env.helloIds[spec.quicPskClientHello]
                  else r.quicPskHello == base.quicPskHello)
  {
  }

  predicate Known(env: Env, name: string)
  {
    name == "" || name in env.helloIds
  }

  /** A block of names is refused exactly when a name is unknown or a trust anchor is not of 1 to 255 bytes, and a ja3
      block only for the anchors. */
  lemma TlsRefusedIff(base: Tls, spec: TlsSpec, env: Env)
    ensures var anchors := spec.trustAnchors.Some? ==>
                             forall i | 0 <= i < |spec.trustAnchors.value| :: 1 <= |spec.trustAnchors.value[i]| <= 255;
            OverlayTls(base, spec, env).Ok? <==>
            anchors && (spec.ja3 == "" ==>
                          && Known(env, spec.clientHello) && Known(env, spec.pskClientHello)
                          && Known(env, spec.quicClientHello) && Known(env, spec.quicPskClientHello))
  {
  }

  // ----- Which source decides a setting

  function DiscreteOf(spec: Http2Spec, id: nat): Option<nat>
  {
    match id
    case 1 => spec.headerTableSize
    case 2 => if spec.enablePush.Some? then Some(if spec.enablePush.value then 1 else 0) else None
    case 3 => spec.maxConcurrentStreams
    case 4 => spec.initialWindowSize
    case 5 => spec.maxFrameSize
    case 6 => spec.maxHeaderListSize
    case 9 => if spec.noRfc7540Priorities.Some? then Some(if spec.noRfc7540Priorities.value then 1 else 0) else None
    case _ => None
  }

  function PairsOf(ak: Option<Meaning>): seq<Pair>
  {
    if ak.Some? then ak.value.pairs else []
  }

  /** For every setting: the last entry of the settings list decides, else the last pair of the shorthand, else the
      discrete field, else the inherited value. */
  lemma SettingPrecedence(base: Settings, spec: Http2Spec, ak: Option<Meaning>, weighted: bool, id: nat, v: nat)
    requires SlotOf(ZERO, id).Some?
    ensures var r := OverlaySettings(base, spec, ak, weighted);
            && (LastIs(spec.settings, id, v) ==> SlotOf(r, id) == Some(Normal(id, v)))
            && (NeverGiven(spec.settings, id) ==>
                  && (LastIs(PairsOf(ak), id, v) ==> SlotOf(r, id) == Some(Normal(id, v)))
                  && (NeverGiven(PairsOf(ak), id) ==>
                        SlotOf(r, id) == if DiscreteOf(spec, id).Some? then DiscreteOf(spec, id) else SlotOf(base, id)))
  {
    LastValueIsLast(spec.settings, id);
    LastValueIsLast(PairsOf(ak), id);
    if LastIs(spec.settings, id, v) {
      LastIsUnique(spec.settings, id, v);
    }
    if LastIs(PairsOf(ak), id, v) {
      LastIsUnique(PairsOf(ak), id, v);
    }
  }

  /** The connection window and the stream priority: the shorthand where its field counts as present, else the
      discrete field, else the inherited value. */
  lemma PriorityPrecedence(base: Settings, spec: Http2Spec, m: Meaning, weighted: bool)
    ensures var r := OverlaySettings(base, spec, Some(m), weighted);
            && (m.window.Some? ==> r.connectionWindowUpdate == m.window.value)
            && (m.window.None? && spec.connectionWindowUpdate.Some? ==>
                  r.connectionWindowUpdate == spec.connectionWindowUpdate.value)
            && (m.window.None? && spec.connectionWindowUpdate.None? ==>
                  r.connectionWindowUpdate == base.connectionWindowUpdate)
            && (weighted && m.weight.Some? ==>
                  r.streamWeight == m.weight.value && (r.streamExclusive <==> m.weight.value > 0))
            && (!weighted && spec.streamWeight.Some? ==> r.streamWeight == spec.streamWeight.value)
            && (!weighted && spec.streamWeight.None? ==> r.streamWeight == base.streamWeight)
            && (!weighted && spec.streamExclusive.Some? ==> r.streamExclusive == spec.streamExclusive.value)
            && (!weighted && spec.streamExclusive.None? ==> r.streamExclusive == base.streamExclusive)
  {
  }

  /** A pseudo-header order in the shorthand beats the field of that name, inherited or given. */
  lemma ShorthandPseudoOrderWins(base: Option<H2Config>, spec: Http2Spec, pseudo: seq<string>)
    requires pseudo != []
    ensures var r := OverlayH2(base, spec, pseudo);
            r.Some? && r.value.pseudoHeaderOrder == Some(pseudo)
  {
  }

  lemma ShorthandIsItsMeaning(h: Http2Spec, m: Meaning)
    requires Writable(m) && h.akamai == Written(m)
    ensures AkamaiMeaning(h) == Some(m) && AkamaiPseudo(h) == m.pseudo
    ensures Weighted(h) <==> m.weight.Some? && m.weight.value > 0
  {
    WrittenPresence(m);
  }

  /** The blocks of a built preset. */
  lemma BuiltHttp2(base: Preset, spec: Spec, env: Env)
    requires BuildOn(base, spec, env).Ok?
    ensures var r := BuildOn(base, spec, env).value;
            && r.http2 == OverlaySettings(base.http2, spec.http2, AkamaiMeaning(spec.http2), Weighted(spec.http2))
            && r.h2 == OverlayH2(base.h2, spec.http2, AkamaiPseudo(spec.http2))
  {
  }

  /** What is written in the shorthand takes effect in the built preset: its settings and its pseudo-header order. */
  lemma WrittenShorthandBuilds(base: Preset, spec: Spec, m: Meaning, env: Env)
    requires Writable(m) && spec.http2.akamai == Written(m) && BuildOn(base, spec, env).Ok?
    ensures var r := BuildOn(base, spec, env).value;
            && r.http2 == OverlaySettings(base.http2, spec.http2, Some(m), m.weight.Some? && m.weight.value > 0)
            && r.h2 == OverlayH2(base.h2, spec.http2, m.pseudo)
  {
    BuiltHttp2(base, spec, env);
    ShorthandIsItsMeaning(spec.http2, m);
  }

  /** Without a shorthand the discrete fields and the list alone do. */
  lemma NoShorthandBuilds(base: Preset, spec: Spec, env: Env)
    requires spec.http2.akamai == "" && BuildOn(base, spec, env).Ok?
    ensures var r := BuildOn(base, spec, env).value;
            && r.http2 == OverlaySettings(base.http2, spec.http2, None, false)
            && r.h2 == OverlayH2(base.h2, spec.http2, [])
  {
  }

  /** The other blocks take effect as they are. */
  lemma BlocksBuild(base: Preset, spec: Spec, env: Env)
    requires BuildOn(base, spec, env).Ok?
    ensures var r := BuildOn(base, spec, env).value;
            && r.name == (if spec.name != "" then spec.name else base.name)
            && (spec.tls.Some? ==> Ok(r.tls) == OverlayTls(base.tls, spec.tls.value, env))
            && (spec.tls.None? ==> r.tls == base.tls)
            && (spec.http3.Some? ==> r.h3 == Some(OverlayH3(base.h3, spec.http3.value)))
            && (spec.http3.None? ==> r.h3 == base.h3)
            && (spec.headers.Some? ==> r.headers == OverlayHeaders(base.headers, spec.headers.value))
            && (spec.headers.None? ==> r.headers == base.headers)
            && r.tcp == (if spec.tcp.Some? then OverlayTcp(base.tcp, spec.tcp.value) else base.tcp)
            && r.supportHttp3 == (if spec.http3Protocol.Some? then spec.http3Protocol.value else base.supportHttp3)
  {
  }

  // ----- What is refused

  ghost predicate LegalHttp2(h: Http2Spec)
  {
    && (h.hpackIndexingPolicy.Some? ==> h.hpackIndexingPolicy.value in {"chrome", "never", "always", "default"})
    && (h.streamPriorityMode.Some? ==> h.streamPriorityMode.value in {"chrome", "default"})
    && (h.priorityModel.Some? ==> h.priorityModel.value in {"chromium", "table"})
    && (h.hpackRepresentation.Some? ==>
          forall n | n in h.hpackRepresentation.value ::
            h.hpackRepresentation.value[n] in {"incremental", "without", "never", "default"})
    && (h.priorityTable.Some? ==>
          forall d | d in h.priorityTable.value ::
            h.priorityTable.value[d].urgency <= 7 && h.priorityTable.value[d].weight <= 256)
  }

  ghost predicate LegalHttp3(h: Http3Spec)
  {
    h.quicTransportParamOrder.Some? ==> h.quicTransportParamOrder.value in {"chrome", "random"}
  }

  /** One TLS source at a time, and what belongs to another source or to none is refused: hello names need a hello to go
      with and no ja3 string, given or inherited; ja3 extras need the string, and exclude a top-level signature list. */
  ghost predicate LegalTls(built: Tls, t: TlsSpec)
  {
    var names := t.pskClientHello != "" || t.quicClientHello != "" || t.quicPskClientHello != "";
    && (t.clientHello == "" || t.ja3 == "")
    && (names ==> built.ja3 == "" && built.hello.client != "")
    && (t.ja3Extras.Some? ==> t.ja3 != "" && t.signatureAlgorithms == [])
  }

  lemma Http2ValidIffLegal(h: Http2Spec)
    ensures ValidHttp2(h) <==> LegalHttp2(h)
  {
  }

  lemma Http3ValidIffLegal(h: Http3Spec)
    ensures ValidHttp3(h) <==> LegalHttp3(h)
  {
  }

  lemma TlsValidIffLegal(built: Tls, t: TlsSpec)
    ensures ValidTls(built, t) <==> LegalTls(built, t)
  {
  }

  /** When a build succeeds, with the three validations left as they are. */
  lemma BuiltIffValid(base: Preset, spec: Spec, env: Env)
    ensures BuildOn(base, spec, env).Ok? <==>
            && ValidHttp2(spec.http2) && (spec.http3.Some? ==> ValidHttp3(spec.http3.value)) && AkamaiOk(spec.http2)
            && (spec.tls.Some? ==>
                  var t := spec.tls.value;
                  && (t.ja3 != "" ==> env.ja3Parses(t.ja3))
                  && OverlayTls(base.tls, t, env).Ok? && ValidTls(OverlayTls(base.tls, t, env).value, t))
  {
  }

  /** A preset is built exactly from legal values: a ja3 string that parses, a TLS block that resolves and is legal for
      what comes of it, a shorthand that reads, and legal HTTP/2 and HTTP/3 fields. */
  lemma BuiltIffLegal(base: Preset, spec: Spec, env: Env)
    ensures BuildOn(base, spec, env).Ok? <==>
            && LegalHttp2(spec.http2) && (spec.http3.Some? ==> LegalHttp3(spec.http3.value))
            && (spec.http2.akamai != "" ==> Read(spec.http2.akamai).Ok?)
            && (spec.tls.Some? ==>
                  var t := spec.tls.value;
                  && (t.ja3 != "" ==> env.ja3Parses(t.ja3))
                  && OverlayTls(base.tls, t, env).Ok? && LegalTls(OverlayTls(base.tls, t, env).value, t))
  {
    BuiltIffValid(base, spec, env);
    Http2ValidIffLegal(spec.http2);
    if spec.http3.Some? {
      Http3ValidIffLegal(spec.http3.value);
    }
    if spec.tls.Some? && OverlayTls(base.tls, spec.tls.value, env).Ok? {
      TlsValidIffLegal(OverlayTls(base.tls, spec.tls.value, env).value, spec.tls.value);
    }
  }

  // ----- What the transports read

  /** What the block sets is what the getters return. */
  lemma GettersReadTheBlock(p: Preset, c: H2Config)
    requires p.h2 == Some(c)
    ensures c.hpackHeaderOrder.Some? ==> H2HeaderOrder(p) == c.hpackHeaderOrder.value
    ensures c.hpackIndexingPolicy != "" ==> H2HpackIndexingPolicy(p) == c.hpackIndexingPolicy
    ensures c.hpackNeverIndex.Some? ==> H2HpackNeverIndex(p) == c.hpackNeverIndex.value
    ensures H2HpackRepresentation(p) == c.hpackRepresentation
    ensures c.streamPriorityMode != "" ==> H2StreamPriorityMode(p) == c.streamPriorityMode
    ensures c.disableCookieSplit.Some? ==> H2DisableCookieSplit(p) == c.disableCookieSplit.value
    ensures c.dataFrameMaxSize.Some? ==> H2DataFrameMaxSize(p) == c.dataFrameMaxSize.value
    ensures c.prefacePingIdleMs.Some? ==> H2PrefacePingIdle(p) == c.prefacePingIdleMs.value
    ensures c.prefacePingHangMs.Some? ==> H2PrefacePingHang(p) == c.prefacePingHangMs.value
    ensures c.idlePingMs.Some? ==> H2IdlePing(p) == c.idlePingMs.value
    ensures H2SettingsOrder(p) == c.settingsOrder && H2PseudoHeaderOrder(p) == c.pseudoHeaderOrder
    ensures c.priorityTable != map[] ==> EffectiveTable(p) == Some(c.priorityTable)
    ensures c.priorityModel != "" ==> H2PriorityModel(p) == c.priorityModel
    ensures c.priorityOverHttp1.Some? ==> SendsPriorityOverHttp1(p) == c.priorityOverHttp1.value
  {
  }

  /** What they return for a preset without a block. */
  lemma GettersWithoutABlock(p: Preset)
    requires p.h2.None?
    ensures H2HpackIndexingPolicy(p) == "chrome" && H2StreamPriorityMode(p) == "chrome" && H2DisableCookieSplit(p)
    ensures H2HpackNeverIndex(p) == [] && H2HpackRepresentation(p) == map[]
    ensures H2DataFrameMaxSize(p) == if p.tls.hello.client == "Chrome" then 16375 else 0
    ensures H2PrefacePingIdle(p) == 0 && H2PrefacePingHang(p) == 0 && H2IdlePing(p) == 0
    ensures H2SettingsOrder(p).None? && H2PseudoHeaderOrder(p).None?
    ensures EffectiveTable(p) == if p.http2.noRfc7540Priorities then None else Some(DefaultPriorityTable())
    ensures H2PriorityModel(p) ==
            if p.http2.streamExclusive && !p.http2.noRfc7540Priorities then "chromium" else "table"
    ensures SendsPriorityOverHttp1(p) <==>
            !(p.http2.streamExclusive && !p.http2.noRfc7540Priorities) &&
            forall rest :: p.name != "chrome-" + rest && p.name != "Chrome" + rest
  {
    if "chrome-" <= p.name {
      assert p.name == "chrome-" + p.name[7..];
    }
    if "Chrome" <= p.name {
      assert p.name == "Chrome" + p.name[6..];
    }
  }

  /** The HTTP/3 values of a preset without a block, of the Chrome and of the Safari family. */
  lemma H3GettersWithoutABlock(p: Preset)
    requires p.h3.None?
    ensures var safari := p.http2.noRfc7540Priorities;
            H3Getters(p) == H3Values(
              if safari then 16383 else 65536, 100, if safari then 0 else 262144, !safari, 1250, 100, 103, true, true,
              true, "chrome", 0, 65536, 262144, true, ["ORIG"], 0, 0)
  {
  }

  lemma H3GettersReadTheBlock(p: Preset, c: H3Config)
    requires p.h3 == Some(c)
    ensures var v := H3Getters(p);
            && (c.qpackMaxTableCapacity.Some? ==> v.qpackMaxTableCapacity == c.qpackMaxTableCapacity.value)
            && (c.qpackBlockedStreams.Some? ==> v.qpackBlockedStreams == c.qpackBlockedStreams.value)
            && (c.maxFieldSectionSize.Some? ==> v.maxFieldSectionSize == c.maxFieldSectionSize.value)
            && (c.enableDatagrams.Some? ==> v.enableDatagrams == c.enableDatagrams.value)
            && (c.quicInitialPacketSize.Some? ==> v.quicInitialPacketSize == c.quicInitialPacketSize.value)
            && (c.quicMaxIncomingStreams.Some? ==> v.quicMaxIncomingStreams == c.quicMaxIncomingStreams.value)
            && (c.quicMaxIncomingUniStreams.Some? ==> v.quicMaxIncomingUniStreams == c.quicMaxIncomingUniStreams.value)
            && (c.quicAllow0RTT.Some? ==> v.quicAllow0RTT == c.quicAllow0RTT.value)
            && (c.quicChromeStyleInitial.Some? ==> v.quicChromeStyleInitial == c.quicChromeStyleInitial.value)
            && (c.quicDisableHelloScramble.Some? ==> v.quicDisableHelloScramble == c.quicDisableHelloScramble.value)
            && (c.quicTransportParamOrder != "" ==> v.quicTransportParamOrder == c.quicTransportParamOrder)
            && (c.quicConnectionIdLength.Some? ==> v.quicConnectionIdLength == c.quicConnectionIdLength.value)
    ensures var v := H3Getters(p);
            && (c.quicMaxDatagramFrameSize.Some? ==> v.quicMaxDatagramFrameSize == c.quicMaxDatagramFrameSize.value)
            && (c.maxResponseHeaderBytes.Some? ==> v.maxResponseHeaderBytes == c.maxResponseHeaderBytes.value)
            && (c.sendGreaseFrames.Some? ==> v.sendGreaseFrames == c.sendGreaseFrames.value)
            && (c.quicConnectionOptions.Some? ==> v.quicConnectionOptions == c.quicConnectionOptions.value)
            && (c.quicInitialStreamReceiveWindow.Some? ==>
                  v.quicInitialStreamReceiveWindow == c.quicInitialStreamReceiveWindow.value)
            && (c.quicInitialConnectionReceiveWindow.Some? ==>
                  v.quicInitialConnectionReceiveWindow == c.quicInitialConnectionReceiveWindow.value)
  {
  }

  /** The Priority header that the default table puts on each destination. */
  lemma DefaultPriorityHeaders()
    ensures var t := DefaultPriorityTable();
            && t.Keys == {"audio", "document", "embed", "empty", "font", "iframe", "image", "manifest", "object",
                          "script", "style", "track", "video", "worker"}
            && (forall d | d in {"document", "embed", "iframe", "object"} :: PriorityHeader(t[d]) == "u=0, i")
            && (forall d | d in {"audio", "track", "video"} :: PriorityHeader(t[d]) == "i")
            && (forall d | d in {"font", "script"} :: PriorityHeader(t[d]) == "u=1")
            && PriorityHeader(t["empty"]) == "u=1, i" && PriorityHeader(t["image"]) == "u=2, i"
            && PriorityHeader(t["manifest"]) == "u=2" && PriorityHeader(t["style"]) == "u=0"
            && PriorityHeader(t["worker"]) == "u=4, i"
            && forall d | d in t :: t[d].weight == 0
  {
  }

  /** The idle preface ping's value stands in for the hang value that is not given. */
  lemma HangFollowsIdle(p: Preset, c: H2Config)
    requires p.h2 == Some(c) && c.prefacePingHangMs.None?
    ensures H2PrefacePingHang(p) == H2PrefacePingIdle(p)
  {
  }

  /** Only subresources read the subresource order, and only where it is not empty: a navigation, of a document or a
      frame, and a request without a destination read the main order. */
  lemma SubresourcesReadTheirOrder(p: Preset, c: H2Config, dest: string)
    requires p.h2 == Some(c)
    ensures dest in {"", "document", "iframe"} ==> H2HeaderOrderFor(p, dest) == H2HeaderOrder(p)
    ensures dest !in {"", "document", "iframe"} ==>
              H2HeaderOrderFor(p, dest) ==
              if c.hpackHeaderOrderSubresource.Some? && c.hpackHeaderOrderSubresource.value != []
              then c.hpackHeaderOrderSubresource.value else H2HeaderOrder(p)
  {
  }

  /** More urgent means heavier: the weight falls strictly from 256 to 1 over the urgencies of RFC 9218, and what is
      beyond them counts as the least urgent. */
  lemma WeightFallsWithUrgency(u: nat, v: nat)
    ensures PriorityFromUrgency(0) == 256 && PriorityFromUrgency(7) == 1
    ensures u < v <= 7 ==> PriorityFromUrgency(u) > PriorityFromUrgency(v)
    ensures u > 7 ==> PriorityFromUrgency(u) == PriorityFromUrgency(7)
  {
  }

  function ReadDigits(s: string): int
  {
    if s == "" then 0 else 10 * ReadDigits(s[..|s| - 1]) + (s[|s| - 1] as int - '0' as int)
  }

  /** A Priority header as RFC 9218 reads it: urgency 3 and not incremental where it does not say. */
  function ReadPriority(header: string): (int, bool)
  {
    if header == "" then (3, false)
    else if header == "i" then (3, true)
    else
      var digits := if |header| > 3 && header[|header| - 3..] == ", i" then header[..|header| - 3] else header;
      (ReadDigits(if |digits| >= 2 then digits[2..] else ""), digits != header)
  }

  lemma DigitsRead(v: Uint8)
    ensures ReadDigits(DigitsOf(v)) == v
  {
    var s := DigitsOf(v);
    assert s[..0] == "";
    if v > 9 {
      assert s[..1] == [s[0]] && s[..1][..0] == "";
      assert ReadDigits(s[..1]) == v / 10;
    }
  }

  /** The header value says the urgency and whether the resource is incremental, and is absent when the resource asks
      for none. */
  lemma PriorityHeaderReadsBack(rp: Priority)
    ensures rp.emitHeader ==> ReadPriority(PriorityHeader(rp)) == (rp.urgency, rp.incremental)
    ensures !rp.emitHeader ==> PriorityHeader(rp) == ""
  {
    if rp.emitHeader && rp.urgency != 3 {
      var ds := DigitsOf(rp.urgency);
      DigitsRead(rp.urgency);
      var plain := "u=" + ds;
      assert plain[2..] == ds && |ds| <= 2;
      if rp.incremental {
        var h := plain + ", i";
        assert h[|h| - 3..] == ", i" && h[..|h| - 3] == plain;
      } else {
        assert plain + "" == plain;
        assert |plain| > 3 ==> plain[|plain| - 3..][0] == '=';
      }
    }
  }

  /** A destination with an entry goes out with that entry's weight, or the one its urgency gives, and its header; one
      without an entry, or without a table, with none. */
  lemma PriorityComesFromTheTable(p: Preset, dest: string, rp: Priority)
    ensures EffectiveTable(p).Some? && dest in EffectiveTable(p).value && EffectiveTable(p).value[dest] == rp ==>
              H2PriorityFor(p, dest) ==
              Some((if rp.weight != 0 then rp.weight else PriorityFromUrgency(rp.urgency), p.http2.streamExclusive,
                    PriorityHeader(rp)))
    ensures H2PriorityFor(p, dest).Some? ==> EffectiveTable(p).Some? && dest in EffectiveTable(p).value
  {
  }
}
