/** GetConn and CloseIdle as the loops they are (pool/pool.go), each shown to be an uninterrupted run of
    the pool's steps. */
module HostPoolCalls {
  import C = ConnLifecycle
  import opened H = HostPool
  import opened Wrappers

  /** What a sweep decides about one connection, from the connection's present fields. */
  predicate Drops(p: Pool, c: ConnId, cfg: Config)
    requires c in p.conns
  {
    Destroyable(p.conns[c].f, p.conns[c].lastProgress, p.clock, cfg)
  }

  /** The pool after the sweep has visited its next connection. */
  function Visited(p: Pool, cfg: Config): Pool
    requires p.holder.Sweeping? && p.holder.at < |p.connections| && p.connections[p.holder.at] in p.conns
  {
    var h := p.holder;
    var c := p.connections[h.at];
    var next := h.(at := h.at + 1);
    if Drops(p, c, cfg) then
      OnConn(p, c, C.SpawnClose).(closeIssued := p.closeIssued + {c}, holder := next)
    else if Retirable(p.conns[c].f, p.clock, cfg) then
      OnConn(p, c, C.SpawnRequestClose).(retireIssued := p.retireIssued + {c}, holder := next.(kept := h.kept + [c]))
    else
      var counts := h.forGet && !p.conns[c].f.closeRequested;
      p.(holder := next.(kept := h.kept + [c], serving := h.serving + (if counts then 1 else 0)))
  }

  ghost predicate AtVisit(p: Pool)
  {
    p.holder.Sweeping? && p.holder.stage.AskDestroyable? && p.holder.snap.None? && p.holder.at <= |p.connections|
  }

  lemma RunOne(p: Pool, e: Event, cfg: Config)
    ensures Run(p, [e], cfg) == Step(p, e, cfg)
  {
    assert Run(Step(p, e, cfg), [e][1..], cfg) == Step(p, e, cfg);
  }

  lemma RunTwo(p: Pool, e: Event, f: Event, cfg: Config)
    ensures Run(p, [e, f], cfg) == Step(Step(p, e, cfg), f, cfg)
  {
    assert [e, f] == [e] + [f];
    RunAppend(p, [e], [f], cfg);
    RunOne(p, e, cfg);
    RunOne(Step(p, e, cfg), f, cfg);
  }

  /** Visiting a connection takes two, four or five steps. */
  lemma VisitIsRun(p: Pool, cfg: Config) returns (es: seq<Event>)
    requires AtVisit(p) && p.holder.at < |p.connections| && p.connections[p.holder.at] in p.conns
    ensures Run(p, es, cfg) == Visited(p, cfg) && AtVisit(Visited(p, cfg))
  {
    var c := p.connections[p.holder.at];
    RunTwo(p, Sweep, Sweep, cfg);
    var p2 := Run(p, [Sweep, Sweep], cfg);
    if Drops(p, c, cfg) {
      es := [Sweep, Sweep];
    } else {
      RunAppend(p, [Sweep, Sweep], [Sweep, Sweep], cfg);
      RunTwo(p2, Sweep, Sweep, cfg);
      es := [Sweep, Sweep] + [Sweep, Sweep];
      if p.holder.forGet && !Retirable(p.conns[c].f, p.clock, cfg) {
        RunAppend(p, es, [Sweep], cfg);
        RunOne(Run(p, es, cfg), Sweep, cfg);
        es := es + [Sweep];
      }
    }
  }

  /** What a sweep keeps, in order. */
  function Kept(p: Pool, cs: seq<ConnId>, cfg: Config): seq<ConnId>
    requires forall c | c in cs :: c in p.conns
  {
    if cs == [] then []
    else
      var last := cs[|cs| - 1];
      Kept(p, cs[..|cs| - 1], cfg) + (if Drops(p, last, cfg) then [] else [last])
  }

  lemma {:induction false} KeptAppend(p: Pool, xs: seq<ConnId>, ys: seq<ConnId>, cfg: Config)
    requires (forall c | c in xs :: c in p.conns) && (forall c | c in ys :: c in p.conns)
    ensures Kept(p, xs + ys, cfg) == Kept(p, xs, cfg) + Kept(p, ys, cfg)
    decreases |ys|
  {
    if ys == [] {
      assert xs + ys == xs;
    } else {
      var front, last := ys[..|ys| - 1], ys[|ys| - 1];
      assert (xs + ys)[..|xs + ys| - 1] == xs + front && (xs + ys)[|xs + ys| - 1] == last;
      KeptAppend(p, xs, front, cfg);
    }
  }

  /** A sweep keeps exactly the connections it may not destroy, each as often as it was listed. */
  lemma {:induction false} KeptExactly(p: Pool, cs: seq<ConnId>, cfg: Config, c: ConnId)
    requires (forall x | x in cs :: x in p.conns) && c in p.conns
    ensures multiset(Kept(p, cs, cfg))[c] == if Drops(p, c, cfg) then 0 else multiset(cs)[c]
    decreases |cs|
  {
    if cs != [] {
      var front, last := cs[..|cs| - 1], cs[|cs| - 1];
      assert cs == front + [last];
      KeptExactly(p, front, cfg, c);
    }
  }

  /** Connections neither retired nor about to be, which count against the cap. */
  function Serving(p: Pool, cs: seq<ConnId>, cfg: Config): nat
    requires forall c | c in cs :: c in p.conns
  {
    if cs == [] then 0
    else
      var c := cs[|cs| - 1];
      var counts := !Drops(p, c, cfg) && !Retirable(p.conns[c].f, p.clock, cfg) && !p.conns[c].f.closeRequested;
      Serving(p, cs[..|cs| - 1], cfg) + (if counts then 1 else 0)
  }

  /** A sweep leaves c in service: kept, not retired, with a transport and within the age. */
  predicate StaysInService(p: Pool, c: ConnId, cfg: Config)
    requires c in p.conns
  {
    var f := p.conns[c].f;
    !Drops(p, c, cfg) && !f.closeRequested && f.hasHttp2 && p.clock - f.createdAt <= cfg.maxConnAge
  }

  ghost function InService(p: Pool, cs: seq<ConnId>, cfg: Config): set<nat>
    requires forall c | c in cs :: c in p.conns
  {
    set i: nat | i < |cs| && StaysInService(p, cs[i], cfg)
  }

  lemma InServiceStep(p: Pool, front: seq<ConnId>, last: ConnId, cfg: Config)
    requires last in p.conns && forall c | c in front :: c in p.conns
    ensures InService(p, front + [last], cfg) ==
            InService(p, front, cfg) + (if StaysInService(p, last, cfg) then {|front|} else {})
    ensures |front| !in InService(p, front, cfg)
  {
  }

  /** The number that GetConn compares with its cap is exactly how many listed connections stay in service:
      retired ones, and those about to be, do not count against it. */
  lemma {:induction false} ServingCountsInService(p: Pool, cs: seq<ConnId>, cfg: Config)
    requires forall c | c in cs :: c in p.conns
    ensures Serving(p, cs, cfg) == |InService(p, cs, cfg)|
    decreases |cs|
  {
    if cs != [] {
      var front, last := cs[..|cs| - 1], cs[|cs| - 1];
      assert cs == front + [last];
      ServingCountsInService(p, front, cfg);
      InServiceStep(p, front, last, cfg);
    }
  }

  /** Starting goroutines changes nothing that a later decision reads. */
  ghost predicate SameFields(p: Pool, q: Pool)
  {
    && p.clock == q.clock && p.conns.Keys == q.conns.Keys
    && forall c | c in p.conns :: q.conns[c].f == p.conns[c].f && q.conns[c].lastProgress == p.conns[c].lastProgress
  }

  /** A sweep begun at p has visited the first i connections and reached q. */
  ghost predicate SweptUpTo(p: Pool, q: Pool, forGet: bool, i: nat, cfg: Config)
  {
    && Known(p) && i <= |p.connections|
    && AtVisit(q) && SameFields(p, q) && q.connections == p.connections && q.dialing == p.dialing
    && q.holder.forGet == forGet && q.holder.at == i
    && q.holder.kept == Kept(p, p.connections[..i], cfg)
    && (forGet ==> q.holder.serving == Serving(p, p.connections[..i], cfg))
  }

  lemma KeptStep(p: Pool, i: nat, cfg: Config)
    requires Known(p) && i < |p.connections|
    ensures var c := p.connections[i];
            && c in p.conns
            && Kept(p, p.connections[..i + 1], cfg) ==
               Kept(p, p.connections[..i], cfg) + (if Drops(p, c, cfg) then [] else [c])
            && Serving(p, p.connections[..i + 1], cfg) == Serving(p, p.connections[..i], cfg) +
               (if !Drops(p, c, cfg) && !Retirable(p.conns[c].f, p.clock, cfg) && !p.conns[c].f.closeRequested
                then 1 else 0)
  {
    var upTo := p.connections[..i + 1];
    assert upTo[..|upTo| - 1] == p.connections[..i] && upTo[|upTo| - 1] == p.connections[i];
    assert p.connections[i] in p.connections;
  }

  lemma VisitedKeepsFields(p: Pool, q: Pool, cfg: Config)
    requires SameFields(p, q) && q.holder.Sweeping? && q.holder.at < |q.connections| &&
             q.connections[q.holder.at] in q.conns
    ensures SameFields(p, Visited(q, cfg))
  {
  }

  lemma VisitMovesOn(p: Pool, q: Pool, forGet: bool, i: nat, cfg: Config)
    requires SweptUpTo(p, q, forGet, i, cfg) && i < |p.connections|
    ensures p.connections[i] in q.conns && SweptUpTo(p, Visited(q, cfg), forGet, i + 1, cfg)
  {
    KeptStep(p, i, cfg);
    VisitedKeepsFields(p, q, cfg);
    var c := p.connections[i];
    assert Drops(q, c, cfg) == Drops(p, c, cfg) && q.conns[c].f == p.conns[c].f;
  }

  /** The sweep loop shared by GetConn and CloseIdle. */
  method SweepAll(p: Pool, forGet: bool, cfg: Config) returns (q: Pool, ghost es: seq<Event>)
    requires Known(p) && p.holder == Sweeping(forGet, 0, AskDestroyable, None, [], 0)
    ensures q == Run(p, es, cfg) && q.holder.Free?
    ensures q.connections == Kept(p, p.connections, cfg)
    ensures q.dialing == p.dialing +
            (if forGet && !(cfg.maxConns > 0 && Serving(p, p.connections, cfg) >= cfg.maxConns) then 1 else 0)
  {
    q, es := p, [];
    var i := 0;
    while i < |p.connections|
      invariant 0 <= i <= |p.connections|
      invariant q == Run(p, es, cfg) && SweptUpTo(p, q, forGet, i, cfg)
    {
      VisitMovesOn(p, q, forGet, i, cfg);
      ghost var more := VisitIsRun(q, cfg);
      RunAppend(p, es, more, cfg);
      es := es + more;
      q := Visited(q, cfg);
      i := i + 1;
    }
    assert p.connections[..|p.connections|] == p.connections;
    RunAppend(p, es, [Sweep], cfg);
    RunOne(q, Sweep, cfg);
    es := es + [Sweep];
    q := FinishSweep(q, cfg);
  }

  lemma {:induction false} SameKept(p: Pool, q: Pool, cs: seq<ConnId>, cfg: Config)
    requires SameFields(p, q) && forall c | c in cs :: c in p.conns
    ensures Kept(p, cs, cfg) == Kept(q, cs, cfg) && Serving(p, cs, cfg) == Serving(q, cs, cfg)
    decreases |cs|
  {
    if cs != [] {
      assert cs[|cs| - 1] in cs;
      SameKept(p, q, cs[..|cs| - 1], cfg);
    }
  }

  /** CloseIdle keeps exactly the connections it may not destroy, in order, and is one of the pool's runs. */
  method CloseIdle(p: Pool, cfg: Config) returns (q: Pool, ghost es: seq<Event>)
    requires Known(p) && p.holder.Free?
    ensures q == Run(p, es, cfg) && q.holder.Free?
    ensures q.connections == Kept(p, p.connections, cfg) && q.dialing == p.dialing
  {
    var begun := p.(holder := Sweeping(false, 0, AskDestroyable, None, [], 0));
    RunOne(p, BeginCloseIdle, cfg);
    ghost var rest;
    q, rest := SweepAll(begun, false, cfg);
    RunAppend(p, [BeginCloseIdle], rest, cfg);
    es := [BeginCloseIdle] + rest;
    SameKept(begun, p, p.connections, cfg);
  }

  /** What GetConn's locked part decides. */
  datatype Verdict = HandOut(c: ConnId) | NoConnections | Dial

  /** The pool's three questions agree: a connection is usable exactly when RoundTrip would admit a request, no
      sweep would retire it, none would drop it for being idle, and its transport takes a request. */
  lemma UsableIffServes(f: C.Fields, lastProgress: C.Time, now: C.Time, cfg: Config, canTake: bool)
    ensures Usable(f, now, cfg, canTake) <==>
            && !C.Refuses(f) && !Retirable(f, now, cfg)
            && (f.inFlight == 0 ==> !Destroyable(f, lastProgress, now, cfg)) && canTake
  {
  }

  /** Connection i would admit a request, and no sweep would retire it or drop it for being idle. */
  ghost predicate ServesAt(p: Pool, i: nat, cfg: Config, canTake: ConnId -> bool)
    requires Known(p) && i < |p.connections|
  {
    var c := p.connections[i];
    var f := p.conns[c].f;
    && !C.Refuses(f) && !Retirable(f, p.clock, cfg) && (f.inFlight == 0 ==> !Drops(p, c, cfg))
    && canTake(c)
  }

  /** The scan of p has passed the first i connections and none would serve. */
  ghost predicate NoneServesUpTo(p: Pool, i: nat, cfg: Config, canTake: ConnId -> bool)
    requires Known(p) && i <= |p.connections|
  {
    forall j: nat | j < i :: !ServesAt(p, j, cfg, canTake)
  }

  /** What handing out connection i does to the list: it goes to the end, and the others keep their order. */
  lemma MovedToEnd(cs: seq<ConnId>, i: nat)
    requires i < |cs|
    ensures var r := MoveToEnd(cs, i);
            && |r| == |cs| && r[|cs| - 1] == cs[i]
            && (forall k | 0 <= k < |cs| - 1 :: r[k] == cs[if k < i then k else k + 1])
  {
  }

  /** The scan's turn at connection i takes two steps: it copies the fields, then decides. */
  lemma ScanTurn(p: Pool, i: nat, cfg: Config, canTake: bool)
    requires Known(p) && i < |p.connections|
    ensures var c, e := p.connections[i], Scan(canTake);
            && c in p.conns
            && Run(p.(holder := Scanning(i, None)), [e, e], cfg) ==
               if Usable(p.conns[c].f, p.clock, cfg, canTake)
               then p.(connections := MoveToEnd(p.connections, i), holder := Free)
               else p.(holder := Scanning(i + 1, None))
  {
    assert p.connections[i] in p.connections;
    RunTwo(p.(holder := Scanning(i, None)), Scan(canTake), Scan(canTake), cfg);
  }

  /** The first loop of GetConn: the position of the first connection that would serve, or the end of the list. */
  method FindUsable(p: Pool, cfg: Config, canTake: ConnId -> bool) returns (i: nat, q: Pool, ghost es: seq<Event>)
    requires Known(p)
    ensures i <= |p.connections| && NoneServesUpTo(p, i, cfg, canTake)
    ensures i < |p.connections| ==> ServesAt(p, i, cfg, canTake)
    ensures q == Run(p.(holder := Scanning(0, None)), es, cfg)
    ensures q == if i < |p.connections| then p.(connections := MoveToEnd(p.connections, i), holder := Free)
                 else p.(holder := Scanning(i, None))
  {
    i, es := 0, [];
    while i < |p.connections|
      invariant 0 <= i <= |p.connections| && NoneServesUpTo(p, i, cfg, canTake)
      invariant Run(p.(holder := Scanning(0, None)), es, cfg) == p.(holder := Scanning(i, None))
    {
      var c := p.connections[i];
      ScanTurn(p, i, cfg, canTake(c));
      ghost var two := [Scan(canTake(c)), Scan(canTake(c))];
      RunAppend(p.(holder := Scanning(0, None)), es, two, cfg);
      es := es + two;
      UsableIffServes(p.conns[c].f, p.conns[c].lastProgress, p.clock, cfg, canTake(c));
      if Usable(p.conns[c].f, p.clock, cfg, canTake(c)) {
        q := p.(connections := MoveToEnd(p.connections, i), holder := Free);
        return;
      }
      i := i + 1;
    }
    q := p.(holder := Scanning(i, None));
  }

  /** The rest of GetConn's locked part, once no connection was usable. */
  method SweepAndDecide(p: Pool, cfg: Config) returns (v: Verdict, q: Pool, ghost es: seq<Event>)
    requires Known(p)
    ensures q == Run(p.(holder := Scanning(|p.connections|, None)), es, cfg) && q.holder.Free?
    ensures !v.HandOut? && q.connections == Kept(p, p.connections, cfg)
    ensures v == Dial <==> (cfg.maxConns > 0 ==> Serving(p, p.connections, cfg) < cfg.maxConns)
    ensures q.dialing == p.dialing + (if v == Dial then 1 else 0)
  {
    var scanned := p.(holder := Scanning(|p.connections|, None));
    var begun := p.(holder := Sweeping(true, 0, AskDestroyable, None, [], 0));
    RunOne(scanned, Scan(false), cfg);
    SameKept(begun, p, p.connections, cfg);
    ghost var rest;
    q, rest := SweepAll(begun, true, cfg);
    RunAppend(scanned, [Scan(false)], rest, cfg);
    es := [Scan(false)] + rest;
    v := if q.dialing > p.dialing then Dial else NoConnections;
  }

  /** GetConn up to its dial: the first connection that would admit a request, and that no sweep would retire
      or drop for being idle, is handed out and moved to the end. If there is none the pool is swept and the
      call dials, unless as many connections as the cap can still serve. Also one of the pool's runs. canTake
      is the transport's own answer for each connection. */
  method GetConn(p: Pool, cfg: Config, canTake: ConnId -> bool) returns (v: Verdict, q: Pool, ghost es: seq<Event>)
    requires Known(p) && p.holder.Free? && p.dialing < cfg.overlap
    ensures q == Run(p, es, cfg) && q.holder.Free?
    ensures match v
            case HandOut(c) =>
              exists i: nat :: i < |p.connections| && p.connections[i] == c &&
                q.connections == MoveToEnd(p.connections, i) &&
                ServesAt(p, i, cfg, canTake) && NoneServesUpTo(p, i, cfg, canTake)
            case Dial =>
              && NoneServesUpTo(p, |p.connections|, cfg, canTake) && q.connections == Kept(p, p.connections, cfg)
              && (cfg.maxConns > 0 ==> Serving(p, p.connections, cfg) < cfg.maxConns) && q.dialing == p.dialing + 1
            case NoConnections =>
              && NoneServesUpTo(p, |p.connections|, cfg, canTake) && q.connections == Kept(p, p.connections, cfg)
              && 0 < cfg.maxConns <= Serving(p, p.connections, cfg) && q.dialing == p.dialing
  {
    RunOne(p, BeginGet, cfg);
    var i: nat;
    i, q, es := FindUsable(p, cfg, canTake);
    RunAppend(p, [BeginGet], es, cfg);
    es := [BeginGet] + es;
    if i < |p.connections| {
      v := HandOut(p.connections[i]);
    } else {
      ghost var rest;
      v, q, rest := SweepAndDecide(p, cfg);
      RunAppend(p, es, rest, cfg);
      es := es + rest;
    }
  }
}
