/** How far overlapping GetConn calls can take a host's pool past its cap (pool/pool.go): the bound is
    reached for every cap and every overlap. */
module HostPoolCap {
  import C = ConnLifecycle
  import opened H = HostPool
  import opened HostPoolCalls
  import opened Wrappers

  /** The pool at time zero with n unused connections, nobody holding its mutex, and d calls dialling. */
  ghost predicate Steady(p: Pool, n: nat, d: nat)
  {
    && p.holder.Free? && p.clock == 0 && p.dialing == d && |p.connections| == n
    && (forall i: nat :: i in p.conns <==> i < n)
    && (forall i | 0 <= i < n :: p.connections[i] == i && p.conns[i] == C.Init(true, 0))
  }

  /** Time limits that let a connection be used at the instant it was made. */
  ghost predicate Sensible(cfg: Config)
  {
    cfg.maxConns > 0 && cfg.maxIdleTime >= 0 && cfg.maxConnAge >= 0
  }

  /** No connection takes a new stream, so the scan passes them all and turns to the sweep. */
  lemma {:induction false} ScanPassesAll(p: Pool, n: nat, d: nat, i: nat, cfg: Config) returns (es: seq<Event>)
    requires Steady(p, n, d) && i <= n
    ensures Run(p.(holder := Scanning(i, None)), es, cfg) ==
            p.(holder := Sweeping(true, 0, AskDestroyable, None, [], 0))
    decreases n - i
  {
    var q := p.(holder := Scanning(i, None));
    if i == n {
      es := [Scan(false)];
      RunOne(q, Scan(false), cfg);
    } else {
      var rest := ScanPassesAll(p, n, d, i + 1, cfg);
      assert p.connections[i] == i;
      RunTwo(q, Scan(false), Scan(false), cfg);
      RunAppend(q, [Scan(false), Scan(false)], rest, cfg);
      es := [Scan(false), Scan(false)] + rest;
    }
  }

  /** A sweep at connection i, having kept and counted all before it. */
  function CountedUpTo(p: Pool, i: nat): Pool
    requires i <= |p.connections|
  {
    p.(holder := Sweeping(true, i, AskDestroyable, None, p.connections[..i], i))
  }

  lemma VisitCounts(p: Pool, n: nat, d: nat, i: nat, cfg: Config)
    requires Steady(p, n, d) && i < n && Sensible(cfg)
    ensures p.connections[i] in p.conns && Visited(CountedUpTo(p, i), cfg) == CountedUpTo(p, i + 1)
  {
    assert p.connections[i] == i && p.connections[..i] + [i] == p.connections[..i + 1];
  }

  /** The sweep keeps and counts every unused connection. */
  lemma {:induction false} SweepCountsAll(p: Pool, n: nat, d: nat, i: nat, cfg: Config) returns (es: seq<Event>)
    requires Steady(p, n, d) && i <= n && Sensible(cfg) && n < cfg.maxConns
    ensures Run(CountedUpTo(p, i), es, cfg) == p.(dialing := d + 1)
    decreases n - i
  {
    var q := CountedUpTo(p, i);
    if i == n {
      assert p.connections[..i] == p.connections;
      es := [Sweep];
      RunOne(q, Sweep, cfg);
    } else {
      var rest := SweepCountsAll(p, n, d, i + 1, cfg);
      VisitCounts(p, n, d, i, cfg);
      var visit := VisitIsRun(q, cfg);
      RunAppend(q, visit, rest, cfg);
      es := visit + rest;
    }
  }

  /** A call that finds fewer connections than the cap, none with a free stream, starts a dial. */
  lemma CallStartsDial(p: Pool, n: nat, d: nat, cfg: Config) returns (es: seq<Event>)
    requires Steady(p, n, d) && Sensible(cfg) && n < cfg.maxConns && d < cfg.overlap
    ensures Run(p, es, cfg) == p.(dialing := d + 1)
  {
    var scan := ScanPassesAll(p, n, d, 0, cfg);
    var sweep := SweepCountsAll(p, n, d, 0, cfg);
    RunOne(p, BeginGet, cfg);
    RunAppend(p, [BeginGet], scan, cfg);
    RunAppend(p, [BeginGet] + scan, sweep, cfg);
    es := [BeginGet] + scan + sweep;
  }

  lemma {:induction false} CallsStartDials(p: Pool, n: nat, d: nat, calls: nat, cfg: Config) returns (es: seq<Event>)
    requires Steady(p, n, d) && Sensible(cfg) && n < cfg.maxConns && d + calls <= cfg.overlap
    ensures Steady(Run(p, es, cfg), n, d + calls)
    decreases calls
  {
    if calls == 0 {
      es := [];
    } else {
      var first := CallStartsDial(p, n, d, cfg);
      var rest := CallsStartDials(p.(dialing := d + 1), n, d + 1, calls - 1, cfg);
      RunAppend(p, first, rest, cfg);
      es := first + rest;
    }
  }

  lemma {:induction false} DialsLand(p: Pool, n: nat, d: nat, cfg: Config) returns (es: seq<Event>)
    requires Steady(p, n, d)
    ensures Steady(Run(p, es, cfg), n + d, 0)
    decreases d
  {
    if d == 0 {
      es := [];
    } else {
      var e := DialDone(n, 0);
      var q := Step(p, e, cfg);
      var rest := DialsLand(q, n + 1, d - 1, cfg);
      es := [e] + rest;
      RunOne(p, e, cfg);
      RunAppend(p, [e], rest, cfg);
    }
  }

  /** A group of overlapping calls, all past the check before any of their dials lands. */
  lemma GroupAdds(p: Pool, n: nat, calls: nat, cfg: Config) returns (es: seq<Event>)
    requires Steady(p, n, 0) && Sensible(cfg) && n < cfg.maxConns && calls <= cfg.overlap
    ensures Steady(Run(p, es, cfg), n + calls, 0)
  {
    var start := CallsStartDials(p, n, 0, calls, cfg);
    var land := DialsLand(Run(p, start, cfg), n, calls, cfg);
    RunAppend(p, start, land, cfg);
    es := start + land;
  }

  /** One call after another fills the pool up to its cap. */
  lemma {:induction false} CallsFill(n: nat, cfg: Config) returns (es: seq<Event>)
    requires Sensible(cfg) && n <= cfg.maxConns && cfg.overlap >= 1
    ensures Steady(Run(Init(0), es, cfg), n, 0)
    decreases n
  {
    if n == 0 {
      es := [];
    } else {
      var before := CallsFill(n - 1, cfg);
      var last := GroupAdds(Run(Init(0), before, cfg), n - 1, 1, cfg);
      RunAppend(Init(0), before, last, cfg);
      es := before + last;
    }
  }

  lemma {:induction false} LiveCount(p: Pool, cs: seq<ConnId>, cfg: Config)
    requires forall i | 0 <= i < |cs| :: cs[i] == i && Live(p, i, cfg)
    ensures |LiveIn(p, cs, cfg)| == |cs|
    decreases |cs|
  {
    if cs == [] {
      assert LiveIn(p, cs, cfg) == {};
    } else {
      var front, last := cs[..|cs| - 1], cs[|cs| - 1];
      assert cs == front + [last];
      LiveCount(p, front, cfg);
      LiveInAppend(p, front, last, cfg);
      assert last !in front;
    }
  }

  /** For every cap and every number of calls allowed to overlap, some run reaches the bound: all but one
      place is filled by calls in turn, and then every overlapping call passes the check before any of
      their dials, made outside the lock, lands. */
  lemma OverlapReachesBound(cfg: Config) returns (es: seq<Event>)
    requires Sensible(cfg) && cfg.overlap >= 1
    ensures var p := Run(Init(0), es, cfg);
            |LiveIn(p, p.connections, cfg)| == cfg.maxConns + cfg.overlap - 1
  {
    var n := cfg.maxConns - 1;
    var fill := CallsFill(n, cfg);
    var group := GroupAdds(Run(Init(0), fill, cfg), n, cfg.overlap, cfg);
    RunAppend(Init(0), fill, group, cfg);
    es := fill + group;
    var p := Run(Init(0), es, cfg);
    LiveCount(p, p.connections, cfg);
  }

  ghost predicate WithinCap(now: C.Time, es: seq<Event>, cfg: Config)
  {
    var p := Run(Init(now), es, cfg);
    |LiveIn(p, p.connections, cfg)| <= cfg.maxConns
  }

  /** Every run stays within the cap exactly when calls do not overlap. */
  lemma CapHoldsIffNoOverlap(cfg: Config)
    requires Sensible(cfg)
    ensures (forall now, es :: WithinCap(now, es, cfg)) <==> cfg.overlap <= 1
  {
    if cfg.overlap <= 1 {
      forall now, es
        ensures WithinCap(now, es, cfg)
      {
        CapUnderOverlap(now, es, cfg);
      }
    } else {
      var es := OverlapReachesBound(cfg);
      assert !WithinCap(0, es, cfg);
    }
  }
}
