/** The per-host pool on top of the connection protocol (pool/pool.go): GetConn, CloseIdle and Close
    as steps under the pool's mutex, interleaved with the steps of every connection. */
module HostPool {
  import opened C = ConnLifecycle
  import opened Wrappers

  type ConnId = nat

  /** maxConns <= 0 means unlimited. overlap bounds how many GetConn calls may be under way at once. */
  datatype Config = Config(maxConns: int, maxIdleTime: Time, maxConnAge: Time, abandonedBodyTimeout: Time, overlap: nat)

  // ----- The three questions a pool asks about a connection

  predicate Usable(f: Fields, now: Time, cfg: Config, canTakeNewRequest: bool)
  {
    && !f.closed && !f.closeRequested
    && now - f.createdAt <= cfg.maxConnAge
    && (f.inFlight == 0 ==> now - f.lastUsedAt <= cfg.maxIdleTime)
    && f.hasHttp2 && canTakeNewRequest
  }

  /** The later of the last use and the last recorded body progress (0 means none recorded). */
  function LastSign(f: Fields, lastProgress: Time): Time
  {
    if lastProgress > 0 && lastProgress > f.lastUsedAt then lastProgress else f.lastUsedAt
  }

  predicate Destroyable(f: Fields, lastProgress: Time, now: Time, cfg: Config)
  {
    if f.closed then true
    else if f.inFlight > 0 then now - LastSign(f, lastProgress) > cfg.abandonedBodyTimeout
    else !f.hasHttp2 || now - f.createdAt > cfg.maxConnAge || now - f.lastUsedAt > cfg.maxIdleTime
  }

  predicate Retirable(f: Fields, now: Time, cfg: Config)
  {
    !f.closed && !f.closeRequested && (!f.hasHttp2 || now - f.createdAt > cfg.maxConnAge)
  }

  // ----- The system

  datatype Stage = AskDestroyable | AskRetirable | AskRetired

  /** Who holds the pool's mutex, and how far it has come. snap is the copy of the guarded fields
      taken under the connection's own mutex; the question is answered after that mutex is dropped. */
  datatype Holder =
    | Free
    | Scanning(pos: nat, seen: Option<Fields>)
    | Sweeping(forGet: bool, at: nat, stage: Stage, snap: Option<Fields>, kept: seq<ConnId>, serving: nat)

  datatype Pool = Pool(
    clock: Time,
    conns: map<ConnId, C.State>,
    connections: seq<ConnId>,
    holder: Holder,
    dialing: nat,
    closeIssued: set<ConnId>,
    retireIssued: set<ConnId>)

  datatype Event =
    | Tick(elapsed: nat)
    | OfConn(c: ConnId, e: C.Event)
    | BeginGet
    | Scan(canTakeNewRequest: bool)
    | BeginCloseIdle
    | Sweep
    | DialFailed
    | DialDone(added: ConnId, createdAt: Time)
    | CloseAll

  function Init(now: Time): Pool
  {
    Pool(now, map[], [], Free, 0, {}, {})
  }

  /** Connection events that the pool itself causes never come from outside it. */
  predicate External(e: C.Event, clock: Time)
  {
    match e
    case SpawnRequestClose => false
    case SpawnClose => false
    case Admit(_, now) => now <= clock
    case Progress(now) => now <= clock
    case Headers(_, _, now) => now <= clock
    case BodyRead(_, _, _, now) => now <= clock
    case Release(_, now) => now <= clock
    case MarkUsed(now) => now <= clock
    case _ => true
  }

  function OnConn(p: Pool, c: ConnId, e: C.Event): Pool
  {
    if c in p.conns then p.(conns := p.conns[c := C.Step(p.conns[c], e)]) else p
  }

  function SpawnCloses(conns: map<ConnId, C.State>, cs: set<ConnId>): map<ConnId, C.State>
  {
    map c | c in conns :: if c in cs then C.Step(conns[c], SpawnClose) else conns[c]
  }

  function MoveToEnd(cs: seq<ConnId>, i: nat): seq<ConnId>
    requires i < |cs|
  {
    cs[..i] + cs[i + 1..] + [cs[i]]
  }

  function ScanStep(p: Pool, canTake: bool, cfg: Config): Pool
    requires p.holder.Scanning?
  {
    var h := p.holder;
    if h.pos >= |p.connections| then
      p.(holder := Sweeping(true, 0, AskDestroyable, None, [], 0))
    else
      var c := p.connections[h.pos];
      if c !in p.conns then p
      else if h.seen.None? then p.(holder := h.(seen := Some(p.conns[c].f)))
      else if Usable(h.seen.value, p.clock, cfg, canTake) then
        p.(connections := MoveToEnd(p.connections, h.pos), holder := Free)
      else p.(holder := Scanning(h.pos + 1, None))
  }

  function FinishSweep(p: Pool, cfg: Config): Pool
    requires p.holder.Sweeping?
  {
    var h := p.holder;
    var p1 := p.(connections := h.kept, holder := Free);
    if h.forGet && !(cfg.maxConns > 0 && h.serving >= cfg.maxConns) then p1.(dialing := p.dialing + 1) else p1
  }

  function SweepStep(p: Pool, cfg: Config): Pool
    requires p.holder.Sweeping?
  {
    var h := p.holder;
    if h.at >= |p.connections| then FinishSweep(p, cfg)
    else
      var c := p.connections[h.at];
      if c !in p.conns then p
      else if !h.stage.AskRetired? && h.snap.None? then p.(holder := h.(snap := Some(p.conns[c].f)))
      else match h.stage
        case AskDestroyable =>
          if Destroyable(h.snap.value, p.conns[c].lastProgress, p.clock, cfg) then
            OnConn(p, c, SpawnClose).(closeIssued := p.closeIssued + {c}, holder := h.(at := h.at + 1, snap := None))
          else p.(holder := h.(stage := AskRetirable, snap := None))
        case AskRetirable =>
          var next := h.(at := h.at + 1, stage := AskDestroyable, snap := None, kept := h.kept + [c]);
          if Retirable(h.snap.value, p.clock, cfg) then
            OnConn(p, c, SpawnRequestClose).(retireIssued := p.retireIssued + {c}, holder := next)
          else if h.forGet then p.(holder := h.(stage := AskRetired, snap := None))
          else p.(holder := next)
        case AskRetired =>
          var serving := if p.conns[c].f.closeRequested then h.serving else h.serving + 1;
          p.(holder := h.(at := h.at + 1, stage := AskDestroyable, snap := None, kept := h.kept + [c],
                          serving := serving))
  }

  /** One step of the pool or of one of its connections; an event out of place changes nothing. */
  function Step(p: Pool, e: Event, cfg: Config): Pool
  {
    match e
    case Tick(d) => p.(clock := p.clock + d)
    case OfConn(c, ce) => if External(ce, p.clock) then OnConn(p, c, ce) else p
    case BeginGet => if p.holder.Free? && p.dialing < cfg.overlap then p.(holder := Scanning(0, None)) else p
    case Scan(canTake) => if p.holder.Scanning? then ScanStep(p, canTake, cfg) else p
    case BeginCloseIdle =>
      if p.holder.Free? then p.(holder := Sweeping(false, 0, AskDestroyable, None, [], 0)) else p
    case Sweep => if p.holder.Sweeping? then SweepStep(p, cfg) else p
    case DialFailed => if p.dialing > 0 then p.(dialing := p.dialing - 1) else p
    case DialDone(c, createdAt) =>
      if p.dialing > 0 && p.holder.Free? && c !in p.conns && createdAt <= p.clock then
        p.(conns := p.conns[c := C.Init(true, createdAt)], connections := p.connections + [c], dialing := p.dialing - 1)
      else p
    case CloseAll =>
      if p.holder.Free? then
        var cs := set c | c in p.connections;
        p.(conns := SpawnCloses(p.conns, cs), connections := [], closeIssued := p.closeIssued + cs)
      else p
  }

  function Run(p: Pool, es: seq<Event>, cfg: Config): Pool
    decreases |es|
  {
    if es == [] then p else Run(Step(p, es[0], cfg), es[1..], cfg)
  }

  // ----- Invariants

  predicate Live(p: Pool, c: ConnId, cfg: Config)
  {
    && c in p.conns
    && !p.conns[c].f.closed && !p.conns[c].f.closeRequested && p.conns[c].f.hasHttp2
    && p.clock - p.conns[c].f.createdAt <= cfg.maxConnAge
  }

  function LiveIn(p: Pool, cs: seq<ConnId>, cfg: Config): set<ConnId>
  {
    set c | c in cs && Live(p, c, cfg)
  }

  predicate Overage(p: Pool, c: ConnId, cfg: Config)
    requires c in p.conns
  {
    !p.conns[c].f.hasHttp2 || p.clock - p.conns[c].f.createdAt > cfg.maxConnAge
  }

  /** A snapshot never disagrees with the connection on what cannot change, nor on what is final. */
  predicate SnapAgrees(snap: Fields, f: Fields)
  {
    && snap.createdAt == f.createdAt && snap.hasHttp2 == f.hasHttp2
    && (snap.closed ==> f.closed) && (snap.closeRequested ==> f.closeRequested)
  }

  ghost predicate Known(p: Pool)
  {
    (forall c | c in p.connections :: c in p.conns) && p.closeIssued <= p.conns.Keys && p.retireIssued <= p.conns.Keys
  }

  /** Every connection ever added is tracked or has had a close issued that has run or will run. */
  ghost predicate Tracked(p: Pool)
  {
    && (forall c | c in p.conns :: c in p.connections || c in p.closeIssued)
    && (forall c | c in p.closeIssued :: c in p.conns && (p.conns[c].f.closed || Pending(p.conns[c], Direct) > 0))
  }

  ghost predicate RetiredOnlyOverage(p: Pool, cfg: Config)
  {
    && (forall c | c in p.retireIssued :: c in p.conns && Overage(p, c, cfg))
    && (forall c | c in p.conns && (p.conns[c].retiring > 0 || p.conns[c].f.closeRequested) :: c in p.retireIssued)
  }

  ghost predicate HolderInv(p: Pool, cfg: Config)
  {
    match p.holder
    case Free => true
    case Scanning(pos, _) => pos <= |p.connections| && p.dialing < cfg.overlap
    case Sweeping(forGet, at, stage, snap, kept, serving) =>
      && at <= |p.connections|
      && (forGet ==> p.dialing < cfg.overlap)
      && (forall c | c in kept :: c in p.connections)
      && (forall i | 0 <= i < at :: p.connections[i] in kept || p.connections[i] in p.closeIssued)
      && (snap.Some? ==>
            at < |p.connections| && p.connections[at] in p.conns &&
            SnapAgrees(snap.value, p.conns[p.connections[at]].f))
      && (forGet ==> |LiveIn(p, kept, cfg)| <= serving)
  }

  ghost predicate CapInv(p: Pool, cfg: Config)
  {
    cfg.maxConns > 0 ==> |LiveIn(p, p.connections, cfg)| + p.dialing <= cfg.maxConns + cfg.overlap - 1
  }

  ghost predicate Inv(p: Pool, cfg: Config)
  {
    Known(p) && Tracked(p) && RetiredOnlyOverage(p, cfg) && HolderInv(p, cfg) && CapInv(p, cfg)
  }

  lemma SubsetSize<T>(a: set<T>, b: set<T>)
    requires a <= b
    ensures |a| <= |b|
  {
    if a != {} {
      var x :| x in a;
      SubsetSize(a - {x}, b - {x});
    }
  }

  /** What any external connection step keeps: constants, final flags, issued closes. */
  lemma ConnStepFacts(s: C.State, e: C.Event)
    ensures SnapAgrees(s.f, C.Step(s, e).f)
    ensures s.f.closed || Pending(s, Direct) > 0 ==>
              C.Step(s, e).f.closed || Pending(C.Step(s, e), Direct) > 0
    ensures !e.SpawnRequestClose? && C.Step(s, e).retiring > 0 ==> s.retiring > 0
    ensures C.Step(s, e).f.closeRequested ==> s.f.closeRequested || s.retiring > 0
  {
  }

  /** Time passing and connection steps only take connections out of service. */
  lemma FewerLive(p: Pool, q: Pool, cs: seq<ConnId>, cfg: Config)
    requires p.clock <= q.clock && p.conns.Keys <= q.conns.Keys
    requires forall c | c in p.conns :: SnapAgrees(p.conns[c].f, q.conns[c].f)
    requires forall c | c in cs :: c in p.conns
    ensures |LiveIn(q, cs, cfg)| <= |LiveIn(p, cs, cfg)|
  {
    SubsetSize(LiveIn(q, cs, cfg), LiveIn(p, cs, cfg));
  }

  lemma KeptKnown(p: Pool, cfg: Config)
    requires Known(p) && HolderInv(p, cfg)
    ensures p.holder.Sweeping? ==> forall c | c in p.holder.kept :: c in p.conns
  {
  }

  lemma OfConnKeepsInv(p: Pool, c: ConnId, e: C.Event, cfg: Config)
    requires Inv(p, cfg) && External(e, p.clock)
    ensures Inv(OnConn(p, c, e), cfg)
  {
    if c in p.conns {
      var q := OnConn(p, c, e);
      ConnStepFacts(p.conns[c], e);
      KeptKnown(p, cfg);
      FewerLive(p, q, p.connections, cfg);
      if p.holder.Sweeping? {
        FewerLive(p, q, p.holder.kept, cfg);
      }
    }
  }

  lemma TickKeepsInv(p: Pool, d: nat, cfg: Config)
    requires Inv(p, cfg)
    ensures Inv(p.(clock := p.clock + d), cfg)
  {
    var q := p.(clock := p.clock + d);
    KeptKnown(p, cfg);
    FewerLive(p, q, p.connections, cfg);
    if p.holder.Sweeping? {
      FewerLive(p, q, p.holder.kept, cfg);
    }
  }

  lemma MoveToEndSame(cs: seq<ConnId>, i: nat)
    requires i < |cs|
    ensures forall c :: c in MoveToEnd(cs, i) <==> c in cs
  {
    forall c
      ensures c in MoveToEnd(cs, i) <==> c in cs
    {
      if c in cs {
        var k :| 0 <= k < |cs| && cs[k] == c;
        if k < i {
          assert MoveToEnd(cs, i)[k] == c;
        } else if k == i {
          assert MoveToEnd(cs, i)[|cs| - 1] == c;
        } else {
          assert MoveToEnd(cs, i)[k - 1] == c;
        }
      }
    }
  }

  lemma HandOutKeepsInv(p: Pool, cfg: Config)
    requires Inv(p, cfg) && p.holder.Scanning? && p.holder.pos < |p.connections|
    ensures Inv(p.(connections := MoveToEnd(p.connections, p.holder.pos), holder := Free), cfg)
  {
    var q := p.(connections := MoveToEnd(p.connections, p.holder.pos), holder := Free);
    MoveToEndSame(p.connections, p.holder.pos);
    assert LiveIn(q, q.connections, cfg) == LiveIn(p, p.connections, cfg);
  }

  lemma SameLive(p: Pool, q: Pool, cfg: Config)
    requires q == p.(holder := q.holder)
    ensures forall cs :: LiveIn(q, cs, cfg) == LiveIn(p, cs, cfg)
  {
  }

  lemma NewHolderKeepsInv(p: Pool, holder: Holder, cfg: Config)
    requires Inv(p, cfg) && HolderInv(p.(holder := holder), cfg)
    ensures Inv(p.(holder := holder), cfg)
  {
    SameLive(p, p.(holder := holder), cfg);
  }

  lemma ScanKeepsInv(p: Pool, canTake: bool, cfg: Config)
    requires Inv(p, cfg) && p.holder.Scanning?
    ensures Inv(ScanStep(p, canTake, cfg), cfg)
  {
    var h, q := p.holder, ScanStep(p, canTake, cfg);
    if h.pos < |p.connections| && h.seen.Some? && Usable(h.seen.value, p.clock, cfg, canTake) {
      HandOutKeepsInv(p, cfg);
    } else {
      assert LiveIn(q, [], cfg) == {};
      NewHolderKeepsInv(p, q.holder, cfg);
    }
  }

  lemma FinishSweepKeepsInv(p: Pool, cfg: Config)
    requires Inv(p, cfg) && p.holder.Sweeping? && p.holder.at >= |p.connections|
    ensures Inv(FinishSweep(p, cfg), cfg)
  {
    var h := p.holder;
    var q := FinishSweep(p, cfg);
    assert LiveIn(q, h.kept, cfg) == LiveIn(p, h.kept, cfg);
    SubsetSize(LiveIn(p, h.kept, cfg), LiveIn(p, p.connections, cfg));
    forall c | c in q.conns
      ensures c in q.connections || c in q.closeIssued
    {
      if c in p.connections {
        var i :| 0 <= i < |p.connections| && p.connections[i] == c;
        assert i < h.at;
      }
    }
  }

  lemma LiveInAppend(p: Pool, cs: seq<ConnId>, c: ConnId, cfg: Config)
    ensures LiveIn(p, cs + [c], cfg) == LiveIn(p, cs, cfg) + (if Live(p, c, cfg) then {c} else {})
  {
  }

  /** The two sweep decisions that start a goroutine touch one connection and keep the rest. */
  lemma SpawnKeepsTracked(p: Pool, c: ConnId, e: C.Event, q: Pool, cfg: Config)
    requires Known(p) && Tracked(p) && RetiredOnlyOverage(p, cfg) && c in p.conns
    requires q == OnConn(p, c, e).(closeIssued := q.closeIssued, retireIssued := q.retireIssued, holder := q.holder)
    requires (e == SpawnClose && q.closeIssued == p.closeIssued + {c} && q.retireIssued == p.retireIssued) ||
             (e == SpawnRequestClose && q.closeIssued == p.closeIssued && q.retireIssued == p.retireIssued + {c} &&
              Overage(p, c, cfg))
    ensures Known(q) && Tracked(q) && RetiredOnlyOverage(q, cfg)
  {
    ConnStepFacts(p.conns[c], e);
  }

  lemma SpawnKeepsLive(p: Pool, c: ConnId, e: C.Event, q: Pool, cfg: Config)
    requires Inv(p, cfg) && p.holder.Sweeping? && c in p.conns
    requires q == OnConn(p, c, e).(closeIssued := q.closeIssued, retireIssued := q.retireIssued, holder := q.holder)
    ensures |LiveIn(q, p.connections, cfg)| <= |LiveIn(p, p.connections, cfg)|
    ensures |LiveIn(q, p.holder.kept, cfg)| <= |LiveIn(p, p.holder.kept, cfg)|
  {
    ConnStepFacts(p.conns[c], e);
    KeptKnown(p, cfg);
    FewerLive(p, q, p.connections, cfg);
    FewerLive(p, q, p.holder.kept, cfg);
  }

  /** A connection a sweep drops has its Close issued, so the prefix it has passed grows by one. */
  lemma DropKeepsHolder(p: Pool, q: Pool, cfg: Config)
    requires Known(p) && HolderInv(p, cfg) && p.holder.Sweeping? && p.holder.at < |p.connections|
    requires q.holder == p.holder.(at := p.holder.at + 1, snap := None)
    requires q.connections == p.connections && q.dialing == p.dialing &&
             q.closeIssued == p.closeIssued + {p.connections[p.holder.at]}
    requires |LiveIn(q, p.holder.kept, cfg)| <= |LiveIn(p, p.holder.kept, cfg)|
    ensures HolderInv(q, cfg)
  {
  }

  lemma DropKeepsInv(p: Pool, cfg: Config)
    requires Inv(p, cfg) && p.holder.Sweeping? && p.holder.at < |p.connections|
    requires p.holder.stage.AskDestroyable? && p.holder.snap.Some?
    requires Destroyable(p.holder.snap.value, p.conns[p.connections[p.holder.at]].lastProgress, p.clock, cfg)
    ensures Inv(SweepStep(p, cfg), cfg)
  {
    var c := p.connections[p.holder.at];
    var q := SweepStep(p, cfg);
    assert Known(q) && Tracked(q) && RetiredOnlyOverage(q, cfg) by {
      SpawnKeepsTracked(p, c, SpawnClose, q, cfg);
    }
    SpawnKeepsLive(p, c, SpawnClose, q, cfg);
    DropKeepsHolder(p, q, cfg);
  }

  lemma NotDroppedKeepsInv(p: Pool, cfg: Config)
    requires Inv(p, cfg) && p.holder.Sweeping? && p.holder.at < |p.connections|
    requires p.holder.stage.AskDestroyable? && p.holder.snap.Some?
    requires !Destroyable(p.holder.snap.value, p.conns[p.connections[p.holder.at]].lastProgress, p.clock, cfg)
    ensures Inv(SweepStep(p, cfg), cfg)
  {
    SameLive(p, SweepStep(p, cfg), cfg);
  }

  /** A connection a sweep has decided on is kept, so the prefix it has passed grows by one. */
  lemma PrefixGrows(p: Pool, kept: seq<ConnId>, at: nat)
    requires at < |p.connections|
    requires forall i | 0 <= i < at :: p.connections[i] in kept || p.connections[i] in p.closeIssued
    requires forall c | c in kept :: c in p.connections
    ensures var longer := kept + [p.connections[at]];
            && (forall i | 0 <= i < at + 1 :: p.connections[i] in longer || p.connections[i] in p.closeIssued)
            && (forall c | c in longer :: c in p.connections)
  {
  }

  lemma RetireKeepsInv(p: Pool, cfg: Config)
    requires Inv(p, cfg) && p.holder.Sweeping? && p.holder.at < |p.connections|
    requires p.holder.stage.AskRetirable? && p.holder.snap.Some?
    requires Retirable(p.holder.snap.value, p.clock, cfg)
    ensures Inv(SweepStep(p, cfg), cfg)
  {
    var h := p.holder;
    var c := p.connections[h.at];
    var q := SweepStep(p, cfg);
    assert Known(q) && Tracked(q) && RetiredOnlyOverage(q, cfg) by {
      SpawnKeepsTracked(p, c, SpawnRequestClose, q, cfg);
    }
    assert HolderInv(q, cfg) && CapInv(q, cfg) by {
      SpawnKeepsLive(p, c, SpawnRequestClose, q, cfg);
      assert !Live(q, c, cfg);
      LiveInAppend(q, h.kept, c, cfg);
      PrefixGrows(p, h.kept, h.at);
    }
  }

  lemma NotRetirableKeepsInv(p: Pool, cfg: Config)
    requires Inv(p, cfg) && p.holder.Sweeping? && p.holder.at < |p.connections|
    requires p.holder.stage.AskRetirable? && p.holder.snap.Some?
    requires !Retirable(p.holder.snap.value, p.clock, cfg)
    ensures Inv(SweepStep(p, cfg), cfg)
  {
    SameLive(p, SweepStep(p, cfg), cfg);
    PrefixGrows(p, p.holder.kept, p.holder.at);
  }

  lemma CountKeepsInv(p: Pool, cfg: Config)
    requires Inv(p, cfg) && p.holder.Sweeping? && p.holder.at < |p.connections|
    requires p.holder.stage.AskRetired?
    ensures Inv(SweepStep(p, cfg), cfg)
  {
    var h := p.holder;
    var q := SweepStep(p, cfg);
    SameLive(p, q, cfg);
    LiveInAppend(q, h.kept, p.connections[h.at], cfg);
    PrefixGrows(p, h.kept, h.at);
  }

  lemma SweepKeepsInv(p: Pool, cfg: Config)
    requires Inv(p, cfg) && p.holder.Sweeping?
    ensures Inv(SweepStep(p, cfg), cfg)
  {
    var h := p.holder;
    if h.at >= |p.connections| {
      FinishSweepKeepsInv(p, cfg);
    } else if h.stage.AskRetired? {
      CountKeepsInv(p, cfg);
    } else if h.snap.None? {
      var q := SweepStep(p, cfg);
      assert LiveIn(q, q.connections, cfg) == LiveIn(p, p.connections, cfg);
      assert LiveIn(q, h.kept, cfg) == LiveIn(p, h.kept, cfg);
    } else if h.stage.AskDestroyable? {
      if Destroyable(h.snap.value, p.conns[p.connections[h.at]].lastProgress, p.clock, cfg) {
        DropKeepsInv(p, cfg);
      } else {
        NotDroppedKeepsInv(p, cfg);
      }
    } else if Retirable(h.snap.value, p.clock, cfg) {
      RetireKeepsInv(p, cfg);
    } else {
      NotRetirableKeepsInv(p, cfg);
    }
  }

  lemma DialDoneKeepsTracked(p: Pool, q: Pool, c: ConnId, createdAt: Time, cfg: Config)
    requires Known(p) && Tracked(p) && RetiredOnlyOverage(p, cfg) && c !in p.conns
    requires q.conns == p.conns[c := C.Init(true, createdAt)] && q.connections == p.connections + [c]
    requires q.closeIssued == p.closeIssued && q.retireIssued == p.retireIssued && q.clock == p.clock
    ensures Known(q) && Tracked(q) && RetiredOnlyOverage(q, cfg)
  {
    assert forall x | x in p.conns :: x in q.connections || x in q.closeIssued;
  }

  lemma DialDoneKeepsInv(p: Pool, c: ConnId, createdAt: Time, cfg: Config)
    requires Inv(p, cfg) && p.dialing > 0 && p.holder.Free? && c !in p.conns && createdAt <= p.clock
    ensures Inv(Step(p, DialDone(c, createdAt), cfg), cfg)
  {
    var q := Step(p, DialDone(c, createdAt), cfg);
    assert CapInv(q, cfg) by {
      LiveInAppend(q, p.connections, c, cfg);
      FewerLive(p, q, p.connections, cfg);
    }
    DialDoneKeepsTracked(p, q, c, createdAt, cfg);
  }

  lemma DialFailedKeepsInv(p: Pool, cfg: Config)
    requires Inv(p, cfg)
    ensures Inv(Step(p, DialFailed, cfg), cfg)
  {
    var q := Step(p, DialFailed, cfg);
    assert forall cs :: LiveIn(q, cs, cfg) == LiveIn(p, cs, cfg);
  }

  lemma SpawnClosesFacts(conns: map<ConnId, C.State>, cs: set<ConnId>, c: ConnId)
    requires c in conns
    ensures var after := SpawnCloses(conns, cs);
            && after.Keys == conns.Keys && after[c].f == conns[c].f && after[c].retiring == conns[c].retiring
            && Pending(after[c], Direct) == Pending(conns[c], Direct) + (if c in cs then 1 else 0)
  {
    assert SpawnCloses(conns, cs).Keys == conns.Keys;
  }

  lemma CloseAllKeepsInv(p: Pool, cfg: Config)
    requires Inv(p, cfg) && p.holder.Free?
    ensures Inv(Step(p, CloseAll, cfg), cfg)
  {
    var q := Step(p, CloseAll, cfg);
    var cs := set c | c in p.connections;
    forall c | c in p.conns
      ensures c in q.conns && q.conns[c].f == p.conns[c].f && q.conns[c].retiring == p.conns[c].retiring
      ensures Pending(q.conns[c], Direct) == Pending(p.conns[c], Direct) + (if c in cs then 1 else 0)
    {
      SpawnClosesFacts(p.conns, cs, c);
    }
    assert q.conns.Keys == p.conns.Keys;
    assert Known(q) && Tracked(q);
    assert LiveIn(q, [], cfg) == {};
  }

  lemma BeginKeepsInv(p: Pool, e: Event, cfg: Config)
    requires Inv(p, cfg) && (e.BeginGet? || e.BeginCloseIdle?)
    ensures Inv(Step(p, e, cfg), cfg)
  {
    var q := Step(p, e, cfg);
    assert LiveIn(q, q.connections, cfg) == LiveIn(p, p.connections, cfg);
    assert LiveIn(q, [], cfg) == {};
    if p.holder.Sweeping? {
      assert LiveIn(q, p.holder.kept, cfg) == LiveIn(p, p.holder.kept, cfg);
    }
  }

  lemma StepKeepsInv(p: Pool, e: Event, cfg: Config)
    requires Inv(p, cfg)
    ensures Inv(Step(p, e, cfg), cfg)
  {
    match e {
      case Tick(d) => TickKeepsInv(p, d, cfg);
      case OfConn(c, ce) =>
        if External(ce, p.clock) {
          OfConnKeepsInv(p, c, ce, cfg);
        }
      case Scan(canTake) =>
        if p.holder.Scanning? {
          ScanKeepsInv(p, canTake, cfg);
        }
      case Sweep =>
        if p.holder.Sweeping? {
          SweepKeepsInv(p, cfg);
        }
      case CloseAll =>
        if p.holder.Free? {
          CloseAllKeepsInv(p, cfg);
        }
      case DialFailed => DialFailedKeepsInv(p, cfg);
      case DialDone(c, createdAt) =>
        if p.dialing > 0 && p.holder.Free? && c !in p.conns && createdAt <= p.clock {
          DialDoneKeepsInv(p, c, createdAt, cfg);
        }
      case BeginGet => BeginKeepsInv(p, e, cfg);
      case BeginCloseIdle => BeginKeepsInv(p, e, cfg);
    }
  }

  lemma {:induction false} RunKeepsInv(p: Pool, es: seq<Event>, cfg: Config)
    requires Inv(p, cfg)
    ensures Inv(Run(p, es, cfg), cfg)
    decreases |es|
  {
    if es != [] {
      StepKeepsInv(p, es[0], cfg);
      RunKeepsInv(Step(p, es[0], cfg), es[1..], cfg);
    }
  }

  // ----- What holds over every run

  lemma InitInv(now: Time, cfg: Config)
    ensures Inv(Init(now), cfg)
  {
    assert LiveIn(Init(now), [], cfg) == {};
  }

  /** No connection is lost: each one ever added is still tracked, or a Close was issued for it that
      has run or is on its way. */
  lemma NothingLeaks(now: Time, es: seq<Event>, cfg: Config)
    ensures var p := Run(Init(now), es, cfg);
            forall c | c in p.conns ::
              || c in p.connections
              || (c in p.closeIssued && (p.conns[c].f.closed || Pending(p.conns[c], Direct) > 0))
  {
    InitInv(now, cfg);
    RunKeepsInv(Init(now), es, cfg);
  }

  /** No sequence of sweeps retires a connection that is young and has a live transport, even while
      it cannot take a new stream. */
  lemma YoungNeverRetired(now: Time, es: seq<Event>, cfg: Config, c: ConnId)
    ensures var p := Run(Init(now), es, cfg);
            c in p.conns && p.conns[c].f.hasHttp2 && p.clock - p.conns[c].f.createdAt <= cfg.maxConnAge ==>
              !p.conns[c].f.closeRequested && p.conns[c].retiring == 0 && c !in p.retireIssued
  {
    InitInv(now, cfg);
    RunKeepsInv(Init(now), es, cfg);
  }

  /** With at most overlap GetConn calls under way at once, the connections that are tracked, open,
      not retired and not over age number at most maxConns + overlap - 1; so non-overlapping calls
      respect the cap. Draining connections are not counted. */
  lemma CapUnderOverlap(now: Time, es: seq<Event>, cfg: Config)
    requires cfg.maxConns > 0
    ensures var p := Run(Init(now), es, cfg);
            |LiveIn(p, p.connections, cfg)| <= cfg.maxConns + cfg.overlap - 1
    ensures cfg.overlap == 1 ==>
              var p := Run(Init(now), es, cfg);
              |LiveIn(p, p.connections, cfg)| + p.dialing <= cfg.maxConns
  {
    InitInv(now, cfg);
    RunKeepsInv(Init(now), es, cfg);
  }

  /** The sweep is about to decide whether to drop c. */
  predicate Deciding(p: Pool, c: ConnId)
  {
    && p.holder.Sweeping? && p.holder.stage.AskDestroyable? && p.holder.snap.Some?
    && p.holder.at < |p.connections| && p.connections[p.holder.at] == c && c in p.conns
  }

  /** A sweep issues a Close for a connection exactly when the copy of its fields said: already
      closed; or busy, with both its last use and its last body progress older than the
      abandoned-body bound; or idle and dead, over age or unused for too long. */
  lemma SweepDropsExactly(now: Time, es: seq<Event>, cfg: Config, c: ConnId)
    ensures var p := Run(Init(now), es, cfg);
            var q := Step(p, Sweep, cfg);
            Deciding(p, c) ==>
              var f := p.holder.snap.value;
              && SnapAgrees(f, p.conns[c].f)
              && (Pending(q.conns[c], Direct) > Pending(p.conns[c], Direct) <==>
                  || f.closed
                  || (f.inFlight > 0 && p.clock - f.lastUsedAt > cfg.abandonedBodyTimeout &&
                      (p.conns[c].lastProgress <= 0 || p.clock - p.conns[c].lastProgress > cfg.abandonedBodyTimeout))
                  || (f.inFlight <= 0 &&
                      (|| !f.hasHttp2
                       || p.clock - f.createdAt > cfg.maxConnAge
                       || p.clock - f.lastUsedAt > cfg.maxIdleTime)))
  {
    InitInv(now, cfg);
    RunKeepsInv(Init(now), es, cfg);
  }

  /** A sweep retires a connection exactly when the copy of its fields said: open, not retired yet, and
      dead or over age, which no connection recovers from. */
  lemma SweepRetiresExactly(now: Time, es: seq<Event>, cfg: Config, c: ConnId)
    ensures var p := Run(Init(now), es, cfg);
            var q := Step(p, Sweep, cfg);
            p.holder.Sweeping? && p.holder.stage.AskRetirable? && p.holder.snap.Some? &&
            p.holder.at < |p.connections| && p.connections[p.holder.at] == c && c in p.conns ==>
              var f := p.holder.snap.value;
              && SnapAgrees(f, p.conns[c].f)
              && (q.conns[c].retiring > p.conns[c].retiring <==>
                  !f.closed && !f.closeRequested && (!f.hasHttp2 || p.clock - f.createdAt > cfg.maxConnAge))
  {
    InitInv(now, cfg);
    RunKeepsInv(Init(now), es, cfg);
  }

  /** Nothing but such a decision, or closing the whole pool, issues a Close. */
  lemma ClosesComeFromDecisions(p: Pool, e: Event, cfg: Config, c: ConnId)
    requires c in Step(p, e, cfg).closeIssued && c !in p.closeIssued
    ensures if e.CloseAll? then c in p.connections
            else e.Sweep? && Deciding(p, c) && Destroyable(p.holder.snap.value, p.conns[c].lastProgress, p.clock, cfg)
  {
  }

  // ----- Runs compose

  lemma {:induction false} RunAppend(p: Pool, xs: seq<Event>, ys: seq<Event>, cfg: Config)
    ensures Run(p, xs + ys, cfg) == Run(Run(p, xs, cfg), ys, cfg)
    decreases |xs|
  {
    if xs == [] {
      assert xs + ys == ys;
    } else {
      assert (xs + ys)[0] == xs[0] && (xs + ys)[1..] == xs[1..] + ys;
      RunAppend(Step(p, xs[0], cfg), xs[1..], ys, cfg);
    }
  }

  // ----- What the remaining steps change

  /** A dial that ends gives its place back; one that succeeds adds a fresh connection at the end of the list. */
  lemma DialsEnd(p: Pool, c: ConnId, createdAt: Time, cfg: Config)
    requires p.dialing > 0
    ensures Step(p, DialFailed, cfg) == p.(dialing := p.dialing - 1)
    ensures p.holder.Free? && c !in p.conns && createdAt <= p.clock ==>
              var q := Step(p, DialDone(c, createdAt), cfg);
              && q.dialing == p.dialing - 1 && q.connections == p.connections + [c]
              && q.conns == p.conns[c := C.Init(true, createdAt)]
  {
  }

  /** Closing the pool empties its list and issues a Close for every connection in it. */
  lemma CloseAllClosesAll(p: Pool, c: ConnId, cfg: Config)
    requires p.holder.Free? && c in p.conns
    ensures var q := Step(p, CloseAll, cfg);
            && q.connections == [] && c in q.conns
            && Pending(q.conns[c], Direct) == Pending(p.conns[c], Direct) + (if c in p.connections then 1 else 0)
            && (c in p.connections ==> c in q.closeIssued)
  {
    var cs := set x | x in p.connections;
    SpawnClosesFacts(p.conns, cs, c);
  }

  /** What happens to a connection outside the pool happens, as long as its clock reading is not in the future. */
  lemma OutsideStepsHappen(p: Pool, c: ConnId, e: C.Event, cfg: Config)
    requires c in p.conns && !e.SpawnRequestClose? && !e.SpawnClose?
    requires (e.Admit? || e.Progress? || e.Headers? || e.BodyRead? || e.Release? || e.MarkUsed?) ==> e.now <= p.clock
    ensures Step(p, OfConn(c, e), cfg).conns[c] == C.Step(p.conns[c], e)
    ensures forall d: nat :: Step(p, Tick(d), cfg).clock == p.clock + d
  {
  }
}
