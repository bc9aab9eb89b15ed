/** doHTTP2 (client/client.go) over any number of pooled connections: one retry after a refusal. */
module Http2Exchange {
  import opened C = ConnLifecycle
  import opened Wrappers

  type ConnId = nat

  /** Where a caller of doHTTP2 stands. */
  datatype Progress =
    | FirstTry(c: ConnId)
    | WantsSecond
    | SecondTry(c: ConnId)
    | HandedOver
    | GaveUp

  datatype System = System(conns: map<ConnId, C.State>, callers: map<ReqId, Progress>)

  datatype Event =
    | NewConn(c: ConnId, now: Time)
    | GotConn(r: ReqId, c: ConnId)
    | NoConn(r: ReqId)
    | RoundTrip(r: ReqId, now: Time)
    | OfConn(c: ConnId, e: C.Event)

  /** The RoundTrip critical section, and the caller's reaction to its answer. */
  function Send(s: System, r: ReqId, c: ConnId, refused: Progress, now: Time): System
    requires c in s.conns
  {
    var after := C.Step(s.conns[c], Admit(r, now));
    s.(conns := s.conns[c := after], callers := s.callers[r := if r in after.requests then HandedOver else refused])
  }

  function Step(s: System, e: Event): System
  {
    match e
    case NewConn(c, now) => if c in s.conns then s else s.(conns := s.conns[c := C.Init(true, now)])
    case GotConn(r, c) =>
      if r !in s.callers then s.(callers := s.callers[r := FirstTry(c)])
      else if s.callers[r] == WantsSecond then s.(callers := s.callers[r := SecondTry(c)])
      else s
    case NoConn(r) =>
      if r !in s.callers || s.callers[r] == WantsSecond then s.(callers := s.callers[r := GaveUp]) else s
    case RoundTrip(r, now) =>
      if r !in s.callers then s
      else (match s.callers[r]
        case FirstTry(c) => if c in s.conns then Send(s, r, c, WantsSecond, now) else s
        case SecondTry(c) => if c in s.conns then Send(s, r, c, GaveUp, now) else s
        case _ => s)
    case OfConn(c, ce) =>
      if c in s.conns && !ce.Admit? then s.(conns := s.conns[c := C.Step(s.conns[c], ce)]) else s
  }

  function Run(s: System, es: seq<Event>): System
    decreases |es|
  {
    if es == [] then s else Run(Step(s, es[0]), es[1..])
  }

  /** The connections whose HTTP/2 layer was given request r. */
  function Handoffs(s: System, r: ReqId): set<ConnId>
  {
    set c | c in s.conns && r in s.conns[c].requests
  }

  /** The hand-over count of x is right. */
  ghost predicate Counted(s: System, x: ReqId)
  {
    |Handoffs(s, x)| == if x in s.callers && s.callers[x] == HandedOver then 1 else 0
  }

  ghost predicate Inv(s: System)
  {
    forall r: ReqId :: Counted(s, r)
  }

  /** Every step but an admission leaves the admitted requests alone. */
  lemma OnlyAdmitAdds(s: C.State, e: C.Event, r: ReqId)
    ensures !e.Admit? ==> (r in C.Step(s, e).requests <==> r in s.requests)
    ensures e.Admit? && e.r != r ==> (r in C.Step(s, e).requests <==> r in s.requests)
  {
  }

  lemma HandoffsAfterSend(s: System, r: ReqId, c: ConnId, refused: Progress, now: Time, x: ReqId)
    requires c in s.conns
    ensures var t := Send(s, r, c, refused, now);
            Handoffs(t, x) == Handoffs(s, x) + (if x == r && r in t.conns[c].requests then {c} else {})
  {
    OnlyAdmitAdds(s.conns[c], Admit(r, now), x);
  }

  lemma SendKeepsCount(s: System, r: ReqId, c: ConnId, refused: Progress, now: Time, x: ReqId)
    requires c in s.conns && Counted(s, x) && refused != HandedOver
    requires x == r ==> Handoffs(s, x) == {}
    ensures Counted(Send(s, r, c, refused, now), x)
  {
    HandoffsAfterSend(s, r, c, refused, now, x);
  }

  lemma RoundTripKeepsCount(s: System, r: ReqId, now: Time, x: ReqId)
    requires Counted(s, x)
    ensures Counted(Step(s, RoundTrip(r, now)), x)
  {
    if r in s.callers {
      match s.callers[r] {
        case FirstTry(c) =>
          if c in s.conns {
            SendKeepsCount(s, r, c, WantsSecond, now, x);
          }
        case SecondTry(c) =>
          if c in s.conns {
            SendKeepsCount(s, r, c, GaveUp, now, x);
          }
        case _ =>
      }
    }
  }

  lemma OtherStepsKeepCount(s: System, e: Event, x: ReqId)
    requires Counted(s, x) && !e.RoundTrip?
    ensures Counted(Step(s, e), x)
  {
    if e.OfConn? && e.c in s.conns {
      OnlyAdmitAdds(s.conns[e.c], e.e, x);
    }
    assert Handoffs(Step(s, e), x) == Handoffs(s, x);
  }

  lemma StepKeepsInv(s: System, e: Event)
    requires Inv(s)
    ensures Inv(Step(s, e))
  {
    forall x: ReqId
      ensures Counted(Step(s, e), x)
    {
      assert Counted(s, x);
      if e.RoundTrip? {
        RoundTripKeepsCount(s, e.r, e.now, x);
      } else {
        OtherStepsKeepCount(s, e, x);
      }
    }
  }

  lemma {:induction false} RunKeepsInv(s: System, es: seq<Event>)
    requires Inv(s)
    ensures Inv(Run(s, es))
    decreases |es|
  {
    if es != [] {
      StepKeepsInv(s, es[0]);
      RunKeepsInv(Step(s, es[0]), es[1..]);
    }
  }

  /** In every interleaving a request reaches the HTTP/2 layer at most once, over all connections and
      both tries; and a caller that wants its retry, or gave up, has not been handed over at all, so
      its body is untouched. */
  lemma HandedOverAtMostOnce(es: seq<Event>, r: ReqId)
    ensures var s := Run(System(map[], map[]), es);
            && |Handoffs(s, r)| <= 1
            && (|Handoffs(s, r)| == 1 <==> r in s.callers && s.callers[r] == HandedOver)
  {
    var s0 := System(map[], map[]);
    assert forall x: ReqId :: Handoffs(s0, x) == {};
    RunKeepsInv(s0, es);
    assert Counted(Run(s0, es), r);
  }

  // ----- When a caller gives up

  /** The connection that the caller is trying, if any. */
  function Trying(s: System, r: ReqId): Option<ConnId>
  {
    if r !in s.callers then None
    else match s.callers[r] case FirstTry(c) => Some(c) case SecondTry(c) => Some(c) case _ => None
  }

  /** The event is a RoundTrip of r that its connection, closed, retired or without a transport, refuses. */
  predicate IsRefusal(s: System, e: Event, r: ReqId)
  {
    && e.RoundTrip? && e.r == r && Trying(s, r).Some? && Trying(s, r).value in s.conns
    && var f := s.conns[Trying(s, r).value].f; f.closed || f.closeRequested || !f.hasHttp2
  }

  function Refusals(s: System, es: seq<Event>, r: ReqId): nat
    decreases |es|
  {
    if es == [] then 0 else (if IsRefusal(s, es[0], r) then 1 else 0) + Refusals(Step(s, es[0]), es[1..], r)
  }

  /** How many refusals the caller has behind it, if its stage says; a caller past its tries may have had either. */
  ghost predicate Stands(s: System, r: ReqId, refusals: nat, noConn: bool)
  {
    if r !in s.callers then refusals == 0
    else match s.callers[r]
      case FirstTry(_) => refusals == 0
      case WantsSecond => refusals == 1
      case SecondTry(_) => refusals == 1
      case HandedOver => refusals <= 1
      case GaveUp => refusals == 2 || (refusals <= 1 && noConn)
  }

  /** A caller that still tries has not been handed over anywhere. */
  ghost predicate NotYetHandedOver(s: System, r: ReqId)
  {
    Trying(s, r).Some? ==> Handoffs(s, r) == {}
  }

  lemma StepStands(s: System, e: Event, r: ReqId, refusals: nat, noConn: bool)
    requires Stands(s, r, refusals, noConn) && NotYetHandedOver(s, r)
    ensures Stands(Step(s, e), r, refusals + (if IsRefusal(s, e, r) then 1 else 0), noConn || e == NoConn(r))
  {
    if e.RoundTrip? && e.r == r && Trying(s, r).Some? && Trying(s, r).value in s.conns {
      var c := Trying(s, r).value;
      assert c !in Handoffs(s, r);
      AdmittedIffServing(s.conns[c], r, e.now);
    }
  }

  lemma {:induction false} RunStands(s: System, es: seq<Event>, r: ReqId, refusals: nat, noConn: bool)
    requires Inv(s) && Stands(s, r, refusals, noConn)
    ensures Stands(Run(s, es), r, refusals + Refusals(s, es, r), noConn || NoConn(r) in es)
    decreases |es|
  {
    if es != [] {
      var e, t := es[0], Step(s, es[0]);
      assert Counted(s, r);
      StepStands(s, e, r, refusals, noConn);
      StepKeepsInv(s, e);
      RunStands(t, es[1..], r, refusals + (if IsRefusal(s, e, r) then 1 else 0), noConn || e == NoConn(r));
      assert es == [e] + es[1..];
    }
  }

  /** In every run a caller gives up only after two refusals, or because the pool offered it no connection; after one
      refusal it is still owed its second connection, and it is never refused a third time. */
  lemma GivesUpAfterTwoRefusals(es: seq<Event>, r: ReqId)
    ensures var s0 := System(map[], map[]);
            var s, n := Run(s0, es), Refusals(s0, es, r);
            && n <= 2
            && (r in s.callers && s.callers[r] == GaveUp ==> n == 2 || NoConn(r) in es)
            && (r in s.callers && s.callers[r] == WantsSecond ==> n == 1)
            && (n == 1 ==> r in s.callers && !s.callers[r].FirstTry?)
  {
    var s0 := System(map[], map[]);
    assert forall x: ReqId :: Handoffs(s0, x) == {};
    RunStands(s0, es, r, 0, false);
  }

  /** The caller that wants its second try takes whatever connection it is offered. */
  lemma SecondConnectionIsTried(s: System, r: ReqId, c: ConnId)
    requires r in s.callers && s.callers[r] == WantsSecond
    ensures Trying(Step(s, GotConn(r, c)), r) == Some(c)
  {
  }

  lemma {:induction false} RunSnoc(s: System, es: seq<Event>, e: Event)
    ensures Run(s, es + [e]) == Step(Run(s, es), e)
    decreases |es|
  {
    if es == [] {
      assert [e][1..] == [] && [] + [e] == [e];
    } else {
      assert (es + [e])[0] == es[0] && (es + [e])[1..] == es[1..] + [e];
      RunSnoc(Step(s, es[0]), es[1..], e);
    }
  }

  /** Each connection goes through its own protocol: every other step of it happens, admissions come from callers alone,
      and a step of one connection leaves the rest and the callers alone. */
  lemma ConnectionsKeepTheirProtocol(s: System, e: Event, c: ConnId)
    requires c in s.conns
    ensures var t := Step(s, e);
            && c in t.conns
            && (e.OfConn? && e.c == c && !e.e.Admit? ==> t.conns[c] == C.Step(s.conns[c], e.e))
            && (e.RoundTrip? && Trying(s, e.r) == Some(c) ==> t.conns[c] == C.Step(s.conns[c], Admit(e.r, e.now)))
            && (!(e.OfConn? && e.c == c) && !(e.RoundTrip? && Trying(s, e.r) == Some(c)) ==> t.conns[c] == s.conns[c])
            && (e.OfConn? ==> t.callers == s.callers)
  {
  }
}
