/** What the pool's sweeps do to the responses still streaming (pool/pool.go): every pooled connection runs by
    its own protocol, and a response that a sweep's close cuts is explained by what the sweep saw. */
module HostPoolReaper {
  import C = ConnLifecycle
  import opened H = HostPool
  import opened HostPoolCalls
  import opened HostPoolCap
  import opened Wrappers

  // ----- A run of the pool is a run of each connection

  lemma ConnRunOne(s: C.State, e: C.Event)
    ensures C.Run(s, [e]) == C.Step(s, e)
  {
    assert C.Run(C.Step(s, e), [e][1..]) == C.Step(s, e);
  }

  /** The step that the pool's step makes a connection take, if any. */
  function ConnEvent(p: Pool, e: Event): C.Event
  {
    match e
    case OfConn(_, ce) => ce
    case Sweep => if p.holder.Sweeping? && p.holder.stage.AskRetirable? then C.SpawnRequestClose else C.SpawnClose
    case _ => C.SpawnClose
  }

  lemma StepMovesConn(p: Pool, e: Event, cfg: Config, c: ConnId)
    requires c in p.conns
    ensures var q := Step(p, e, cfg);
            c in q.conns && (q.conns[c] == p.conns[c] || q.conns[c] == C.Step(p.conns[c], ConnEvent(p, e)))
  {
  }

  lemma {:induction false} RunProjects(p: Pool, es: seq<Event>, cfg: Config, c: ConnId) returns (ces: seq<C.Event>)
    requires c in p.conns
    ensures c in Run(p, es, cfg).conns && Run(p, es, cfg).conns[c] == C.Run(p.conns[c], ces)
    decreases |es|
  {
    if es == [] {
      ces := [];
    } else {
      var q := Step(p, es[0], cfg);
      StepMovesConn(p, es[0], cfg, c);
      ces := RunProjects(q, es[1..], cfg, c);
      if q.conns[c] != p.conns[c] {
        var ce := ConnEvent(p, es[0]);
        ConnRunOne(p.conns[c], ce);
        C.RunAppend(p.conns[c], [ce], ces);
        ces := [ce] + ces;
      }
    }
  }

  /** Every connection of a reachable pool is in a state that the connection protocol reaches, so all that is
      proved about single connections holds of pooled ones. */
  lemma {:induction false} PooledConnIsRun(p: Pool, es: seq<Event>, cfg: Config, c: ConnId)
    returns (createdAt: C.Time, ces: seq<C.Event>)
    requires c in Run(p, es, cfg).conns && c !in p.conns
    ensures Run(p, es, cfg).conns[c] == C.Run(C.Init(true, createdAt), ces)
    decreases |es|
  {
    var q := Step(p, es[0], cfg);
    if c in q.conns {
      createdAt := es[0].createdAt;
      ces := RunProjects(q, es[1..], cfg, c);
    } else {
      createdAt, ces := PooledConnIsRun(q, es[1..], cfg, c);
    }
  }

  lemma PooledConnInv(now: C.Time, es: seq<Event>, cfg: Config, c: ConnId)
    requires c in Run(Init(now), es, cfg).conns
    ensures C.Inv(Run(Init(now), es, cfg).conns[c])
  {
    var createdAt, ces := PooledConnIsRun(Init(now), es, cfg, c);
    assert C.Inv(C.Init(true, createdAt)) by {
      assert C.Open(C.Init(true, createdAt)) == {};
    }
    C.RunKeepsInv(C.Init(true, createdAt), ces);
  }

  // ----- Where a Close comes from

  /** The pool after the first n events. */
  function At(now: C.Time, es: seq<Event>, n: nat, cfg: Config): Pool
    requires n <= |es|
  {
    Run(Init(now), es[..n], cfg)
  }

  lemma AtNext(now: C.Time, es: seq<Event>, n: nat, cfg: Config)
    requires n < |es|
    ensures At(now, es, n + 1, cfg) == Step(At(now, es, n, cfg), es[n], cfg)
  {
    assert es[..n + 1] == es[..n] + [es[n]];
    RunAppend(Init(now), es[..n], [es[n]], cfg);
    var p := At(now, es, n, cfg);
    assert Run(Step(p, es[n], cfg), [es[n]][1..], cfg) == Step(p, es[n], cfg);
  }

  lemma AtInv(now: C.Time, es: seq<Event>, n: nat, cfg: Config)
    requires n <= |es|
    ensures Inv(At(now, es, n, cfg), cfg)
  {
    InitInv(now, cfg);
    RunKeepsInv(Init(now), es[..n], cfg);
  }

  /** The sweep's decision that c may be destroyed. */
  predicate Dooms(p: Pool, e: Event, c: ConnId, cfg: Config)
  {
    e.Sweep? && Deciding(p, c) && Destroyable(p.holder.snap.value, p.conns[c].lastProgress, p.clock, cfg)
  }

  lemma NewCloseHasCause(p: Pool, e: Event, cfg: Config, c: ConnId)
    requires var q := Step(p, e, cfg); c in q.conns && C.Pending(q.conns[c], C.Direct) > 0
    ensures (c in p.conns && C.Pending(p.conns[c], C.Direct) > 0) || e.CloseAll? || Dooms(p, e, c, cfg)
  {
  }

  /** A Close on its way was issued by closing the pool or by a sweep's decision. */
  lemma {:induction false} CloseHasCause(now: C.Time, es: seq<Event>, n: nat, cfg: Config, c: ConnId) returns (i: nat)
    requires n <= |es| && c in At(now, es, n, cfg).conns && C.Pending(At(now, es, n, cfg).conns[c], C.Direct) > 0
    ensures i < n && (es[i].CloseAll? || Dooms(At(now, es, i, cfg), es[i], c, cfg))
    decreases n
  {
    var before := At(now, es, n - 1, cfg);
    AtNext(now, es, n - 1, cfg);
    NewCloseHasCause(before, es[n - 1], cfg, c);
    if c in before.conns && C.Pending(before.conns[c], C.Direct) > 0 {
      i := CloseHasCause(now, es, n - 1, cfg, c);
    } else {
      i := n - 1;
    }
  }

  lemma CopyOrWait(p: Pool, e: Event, cfg: Config, c: ConnId)
    requires Known(p) && Deciding(Step(p, e, cfg), c)
    ensures var q := Step(p, e, cfg);
            || (Deciding(p, c) && p.holder.snap == q.holder.snap)
            || (c in p.conns && q.holder.snap == Some(p.conns[c].f))
  {
  }

  /** What a sweep decides on is the copy of the fields taken at some earlier point of the run. */
  lemma {:induction false} SnapshotIsCopy(now: C.Time, es: seq<Event>, n: nat, cfg: Config, c: ConnId) returns (j: nat)
    requires n <= |es| && Deciding(At(now, es, n, cfg), c)
    ensures j < n && c in At(now, es, j, cfg).conns
    ensures At(now, es, n, cfg).holder.snap == Some(At(now, es, j, cfg).conns[c].f)
    decreases n
  {
    AtNext(now, es, n - 1, cfg);
    AtInv(now, es, n - 1, cfg);
    CopyOrWait(At(now, es, n - 1, cfg), es[n - 1], cfg, c);
    if Deciding(At(now, es, n - 1, cfg), c) && At(now, es, n - 1, cfg).holder.snap == At(now, es, n, cfg).holder.snap {
      j := SnapshotIsCopy(now, es, n - 1, cfg, c);
    } else {
      j := n - 1;
    }
  }

  // ----- What a sweep's close can cut

  lemma AtProjects(now: C.Time, es: seq<Event>, j: nat, cfg: Config, c: ConnId) returns (ces: seq<C.Event>)
    requires j <= |es| && c in At(now, es, j, cfg).conns
    ensures c in Run(Init(now), es, cfg).conns
    ensures Run(Init(now), es, cfg).conns[c] == C.Run(At(now, es, j, cfg).conns[c], ces)
  {
    assert es == es[..j] + es[j..];
    RunAppend(Init(now), es[..j], es[j..], cfg);
    ces := RunProjects(At(now, es, j, cfg), es[j..], cfg, c);
  }

  /** A connection seen closed is never cut again; for one seen without a request, a close of any kind cuts a
      response exactly when the socket is open and a request admitted since has not released. */
  lemma WhatTheCopyDecides(now: C.Time, es: seq<Event>, j: nat, cfg: Config, c: ConnId, kind: C.CloseKind)
    requires j <= |es| && c in At(now, es, j, cfg).conns
    ensures c in Run(Init(now), es, cfg).conns
    ensures var s, t := At(now, es, j, cfg).conns[c], Run(Init(now), es, cfg).conns[c];
            && (s.f.closed ==> !C.Cuts(t, C.RunClose(kind)))
            && (s.f.inFlight == 0 ==>
                  (C.Cuts(t, C.RunClose(kind)) <==>
                   C.Pending(t, kind) > 0 && !t.f.closed && exists r :: C.AdmittedSince(s, t, r)))
  {
    var s := At(now, es, j, cfg).conns[c];
    var ces := AtProjects(now, es, j, cfg, c);
    PooledConnInv(now, es[..j], cfg, c);
    if s.f.closed {
      C.RetiredAdmitsNothing(s, ces);
    }
    if s.f.inFlight == 0 {
      C.IdleCloseCutsIffAdmittedSince(s, ces, kind);
    }
  }

  /** The fields copied show a busy connection whose last use is older than the abandoned-body bound, and so is
      its last body progress where the sweep decides. */
  predicate Abandoned(copy: C.Fields, decided: Pool, c: ConnId, cfg: Config)
    requires c in decided.conns
  {
    && copy.inFlight > 0
    && decided.clock - copy.lastUsedAt > cfg.abandonedBodyTimeout
    && (decided.conns[c].lastProgress <= 0 || decided.clock - decided.conns[c].lastProgress > cfg.abandonedBodyTimeout)
  }

  /** Reaper safety, over every run. Wherever a Close that the pool issued would cut a response, either the pool
      itself was closed, or a sweep decided, at step i, on a copy it took at step j: the connection was open
      then, and either it was busy and abandoned, or some response that is cut belongs to a request
      admitted after the copy. */
  lemma CutHasCause(now: C.Time, es: seq<Event>, cfg: Config, c: ConnId) returns (j: nat, i: nat)
    requires c in Run(Init(now), es, cfg).conns && C.Cuts(Run(Init(now), es, cfg).conns[c], C.RunClose(C.Direct))
    ensures j <= i < |es|
    ensures es[i].CloseAll? ||
            (var copied, decided := At(now, es, j, cfg), At(now, es, i, cfg);
             && es[i].Sweep? && Deciding(decided, c)
             && c in copied.conns && decided.holder.snap == Some(copied.conns[c].f) && !copied.conns[c].f.closed
             && (|| Abandoned(copied.conns[c].f, decided, c, cfg)
                 || (copied.conns[c].f.inFlight == 0 &&
                     exists r :: C.AdmittedSince(copied.conns[c], Run(Init(now), es, cfg).conns[c], r))))
  {
    assert es[..|es|] == es;
    i := CloseHasCause(now, es, |es|, cfg, c);
    if es[i].CloseAll? {
      j := i;
    } else {
      j := SnapshotIsCopy(now, es, i, cfg, c);
      WhatTheCopyDecides(now, es, j, cfg, c, C.Direct);
      PooledConnInv(now, es[..j], cfg, c);
    }
  }

  /** A sweep visits the one connection of an otherwise unused pool, which has been idle for too long. */
  lemma IdleIsDoomed(p: Pool, cfg: Config)
    requires Steady(p.(clock := 0), 1, 0) && p.clock > cfg.maxIdleTime
    ensures var begun := Step(p, BeginCloseIdle, cfg);
            var q := Run(begun, [Sweep, Sweep], cfg);
            q.clock == p.clock && 0 in q.conns && q.conns[0] == C.Step(p.conns[0], C.SpawnClose)
  {
    var begun := Step(p, BeginCloseIdle, cfg);
    assert p.connections[0] == 0;
    RunTwo(begun, Sweep, Sweep, cfg);
  }

  lemma LateRequestIsCut(p: Pool, cfg: Config)
    requires 0 in p.conns && exists createdAt :: p.conns[0] == C.Step(C.Init(true, createdAt), C.SpawnClose)
    ensures var q := Step(p, OfConn(0, C.Admit(0, p.clock)), cfg);
            0 in q.conns && C.Cuts(q.conns[0], C.RunClose(C.Direct))
  {
  }

  /** It happens to an idle connection too, for every cap and limits: it is used, left for too long and swept,
      and a request is admitted before the Close runs. */
  lemma SweepCanCut(cfg: Config) returns (es: seq<Event>)
    requires Sensible(cfg) && cfg.overlap >= 1
    ensures var p := Run(Init(0), es, cfg);
            0 in p.conns && C.Cuts(p.conns[0], C.RunClose(C.Direct))
  {
    var fill := CallsFill(1, cfg);
    var p := Run(Init(0), fill, cfg);
    var idle := [Tick(cfg.maxIdleTime + 1), BeginCloseIdle];
    RunTwo(p, idle[0], idle[1], cfg);
    IdleIsDoomed(Step(p, idle[0], cfg), cfg);
    RunAppend(p, idle, [Sweep, Sweep], cfg);
    var q := Run(p, idle + [Sweep, Sweep], cfg);
    assert q.conns[0] == C.Step(C.Init(true, 0), C.SpawnClose);
    LateRequestIsCut(q, cfg);
    var late := OfConn(0, C.Admit(0, q.clock));
    RunOne(q, late, cfg);
    RunAppend(p, idle + [Sweep, Sweep], [late], cfg);
    RunAppend(Init(0), fill, idle + [Sweep, Sweep] + [late], cfg);
    es := fill + (idle + [Sweep, Sweep] + [late]);
  }

  // ----- A recent use protects an idle connection

  /** The reading of connection c's last use in the first n events, or else its creation time, from the events
      alone. */
  function LastUseAt(now: C.Time, es: seq<Event>, n: nat, cfg: Config, c: ConnId): C.Time
    requires n <= |es|
  {
    if n == 0 then 0
    else
      var p, e, before := At(now, es, n - 1, cfg), es[n - 1], LastUseAt(now, es, n - 1, cfg, c);
      if e.DialDone? && e.added == c && c !in p.conns then e.createdAt
      else if e.OfConn? && e.c == c && c in p.conns && External(e.e, p.clock) then
        C.Or(C.UseReading(p.conns[c], e.e), before)
      else before
  }

  lemma UseUntouched(p: Pool, e: Event, cfg: Config, c: ConnId)
    requires c in p.conns && !(e.OfConn? && e.c == c && External(e.e, p.clock))
    ensures Step(p, e, cfg).conns[c].f == p.conns[c].f
  {
  }

  lemma StepKeepsUse(p: Pool, e: Event, cfg: Config, c: ConnId, before: C.Time)
    requires c in p.conns ==> p.conns[c].f.lastUsedAt == before
    ensures var q := Step(p, e, cfg);
            c in q.conns ==>
              q.conns[c].f.lastUsedAt ==
              (if e.DialDone? && e.added == c && c !in p.conns then e.createdAt
               else if e.OfConn? && e.c == c && c in p.conns && External(e.e, p.clock) then
                 C.Or(C.UseReading(p.conns[c], e.e), before)
               else before)
  {
    if c in p.conns && e.OfConn? && e.c == c && External(e.e, p.clock) {
      C.TimesStep(p.conns[c], e.e);
    } else if c in p.conns {
      UseUntouched(p, e, cfg, c);
    }
  }

  lemma {:induction false} LastUseIsLastReading(now: C.Time, es: seq<Event>, n: nat, cfg: Config, c: ConnId)
    requires n <= |es| && c in At(now, es, n, cfg).conns
    ensures At(now, es, n, cfg).conns[c].f.lastUsedAt == LastUseAt(now, es, n, cfg, c)
    decreases n
  {
    var p := At(now, es, n - 1, cfg);
    AtNext(now, es, n - 1, cfg);
    if c in p.conns {
      LastUseIsLastReading(now, es, n - 1, cfg, c);
    }
    StepKeepsUse(p, es[n - 1], cfg, c, LastUseAt(now, es, n - 1, cfg, c));
  }

  /** In every run, a sweep that decides on a copy showing an idle, open, live connection within its age drops
      it exactly when the connection's last use before the copy (its creation, an admission, headers, a
      release or a hand-out) is further back than the idle limit. */
  lemma IdleDroppedIffUnused(now: C.Time, es: seq<Event>, i: nat, cfg: Config, c: ConnId) returns (j: nat)
    requires i < |es| && es[i].Sweep? && Deciding(At(now, es, i, cfg), c)
    ensures j < i && c in At(now, es, j, cfg).conns
    ensures At(now, es, i, cfg).holder.snap == Some(At(now, es, j, cfg).conns[c].f)
    ensures var copy, p := At(now, es, j, cfg).conns[c].f, At(now, es, i, cfg);
            copy.inFlight == 0 && !copy.closed && copy.hasHttp2 && p.clock - copy.createdAt <= cfg.maxConnAge ==>
              (Dooms(p, es[i], c, cfg) <==> p.clock - LastUseAt(now, es, j, cfg, c) > cfg.maxIdleTime)
  {
    j := SnapshotIsCopy(now, es, i, cfg, c);
    LastUseIsLastReading(now, es, j, cfg, c);
  }
}
