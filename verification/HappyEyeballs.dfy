/** dialHappyEyeballs (pool/pool.go), after section 5 of RFC 8305: preferred addresses are dialled
    first, fallback addresses after a failure or 250 ms, and the first success wins. */
module HappyEyeballs {

  datatype Dial = NotStarted | Running | Queued(ok: bool) | Received(ok: bool) | Dropped(ok: bool)

  datatype Outcome = Connected(dial: nat) | AllFailed | Cancelled | NoAddresses

  /** FirstWait is the select before the fallback dials; Draining(i) has taken i loop turns. */
  datatype Phase = FirstWait | Draining(i: nat) | Finished(outcome: Outcome)

  datatype State = State(phase: Phase, dials: seq<Dial>, channel: seq<nat>, started: int, fallback: nat, ctxDone: bool)

  datatype Event =
    | DialEnds(k: nat, ok: bool)
    | DialDropped(k: nat, ok: bool)
    | Receive
    | Timer
    | CancelCtx
    | SeeCancel

  function Init(preferred: nat, fallback: nat): State
  {
    State(if preferred + fallback == 0 then Finished(NoAddresses) else if fallback > 0 then FirstWait else Draining(0),
          seq(preferred, _ => Running) + seq(fallback, _ => NotStarted),
          [], preferred, fallback, false)
  }

  function AllStarted(ds: seq<Dial>): (r: seq<Dial>)
    ensures |r| == |ds|
    ensures forall k | 0 <= k < |ds| :: r[k] == if ds[k].NotStarted? then Running else ds[k]
  {
    if ds == [] then [] else [if ds[0].NotStarted? then Running else ds[0]] + AllStarted(ds[1..])
  }

  function StartFallback(s: State): State
  {
    s.(phase := Draining(0), started := s.started + s.fallback, dials := AllStarted(s.dials))
  }

  function TakeResult(s: State): State
    requires s.channel != [] && s.channel[0] < |s.dials| && s.dials[s.channel[0]].Queued?
  {
    var k := s.channel[0];
    var ok := s.dials[k].ok;
    var s1 := s.(channel := s.channel[1..], dials := s.dials[k := Received(ok)]);
    if ok then s1.(phase := Finished(Connected(k)))
    else match s.phase
      case FirstWait => StartFallback(s1.(started := s.started - 1))
      case Draining(i) => s1.(phase := if i + 1 >= s.started then Finished(AllFailed) else Draining(i + 1))
      case Finished(_) => s
  }

  function Step(s: State, e: Event): State
  {
    match e
    case DialEnds(k, ok) =>
      if k < |s.dials| && s.dials[k].Running? && |s.channel| < |s.dials| then
        s.(dials := s.dials[k := Queued(ok)], channel := s.channel + [k])
      else s
    case DialDropped(k, ok) =>
      if k < |s.dials| && s.dials[k].Running? && (s.ctxDone || s.phase.Finished?) then
        s.(dials := s.dials[k := Dropped(ok)])
      else s
    case Receive =>
      if !s.phase.Finished? && s.channel != [] && s.channel[0] < |s.dials| && s.dials[s.channel[0]].Queued?
      then TakeResult(s) else s
    case Timer => if s.phase.FirstWait? then StartFallback(s) else s
    case CancelCtx => s.(ctxDone := true)
    case SeeCancel => if s.ctxDone && !s.phase.Finished? then s.(phase := Finished(Cancelled)) else s
  }

  function Run(s: State, es: seq<Event>): State
    decreases |es|
  {
    if es == [] then s else Run(Step(s, es[0]), es[1..])
  }

  // ----- Invariants

  function Count(ds: seq<Dial>, p: Dial -> bool): nat
  {
    if ds == [] then 0 else (if p(ds[0]) then 1 else 0) + Count(ds[1..], p)
  }

  predicate IsRunning(d: Dial) { d.Running? }

  predicate IsWaiting(d: Dial) { d.NotStarted? }

  /** Dials whose result has not been sent. */
  predicate IsUnsent(d: Dial) { d.Running? || d.NotStarted? }

  function InProgress(s: State): nat { Count(s.dials, IsRunning) }

  function Unsent(s: State): nat { Count(s.dials, IsUnsent) }

  function Waiting(s: State): nat { Count(s.dials, IsWaiting) }

  lemma {:induction false} CountUpdate(ds: seq<Dial>, k: nat, d: Dial, p: Dial -> bool)
    requires k < |ds|
    ensures Count(ds[k := d], p) + (if p(ds[k]) then 1 else 0) == Count(ds, p) + (if p(d) then 1 else 0)
  {
    if k == 0 {
      assert ds[k := d][1..] == ds[1..];
    } else {
      assert ds[k := d][1..] == ds[1..][k - 1 := d];
      CountUpdate(ds[1..], k - 1, d, p);
    }
  }

  lemma {:induction false} CountAppend(ds: seq<Dial>, es: seq<Dial>, p: Dial -> bool)
    ensures Count(ds + es, p) == Count(ds, p) + Count(es, p)
  {
    if ds == [] {
      assert ds + es == es;
    } else {
      assert (ds + es)[1..] == ds[1..] + es;
      CountAppend(ds[1..], es, p);
    }
  }

  lemma {:induction false} CountSame(ds: seq<Dial>, d: Dial, p: Dial -> bool)
    requires forall k | 0 <= k < |ds| :: ds[k] == d
    ensures Count(ds, p) == if p(d) then |ds| else 0
  {
    if ds != [] {
      CountSame(ds[1..], d, p);
    }
  }

  lemma {:induction false} CountWitness(ds: seq<Dial>, p: Dial -> bool)
    ensures Count(ds, p) > 0 <==> exists k :: 0 <= k < |ds| && p(ds[k])
    ensures Count(ds, p) <= |ds|
  {
    if ds != [] {
      CountWitness(ds[1..], p);
      if k :| 0 <= k < |ds[1..]| && p(ds[1..][k]) {
        assert p(ds[k + 1]);
      }
      if k :| 0 <= k < |ds| && p(ds[k]) {
        assert k > 0 ==> p(ds[1..][k - 1]);
      }
    }
  }

  ghost predicate ChannelInv(s: State)
  {
    && (forall j | 0 <= j < |s.channel| :: s.channel[j] < |s.dials| && s.dials[s.channel[j]].Queued?)
    && (forall i, j | 0 <= i < j < |s.channel| :: s.channel[i] != s.channel[j])
    && (forall k | 0 <= k < |s.dials| && s.dials[k].Queued? :: k in s.channel)
    && Unsent(s) + |s.channel| <= |s.dials|
  }

  /** How many results the waiting loop still counts on. */
  ghost predicate CountInv(s: State)
  {
    match s.phase
    case FirstWait => s.started == InProgress(s) + |s.channel| && s.fallback == Waiting(s) > 0
    case Draining(i) => i < s.started && s.started - i == InProgress(s) + |s.channel| && Waiting(s) == 0
    case Finished(_) => true
  }

  ghost predicate ResultInv(s: State)
  {
    match s.phase
    case Finished(Connected(d)) => d < |s.dials| && s.dials[d] == Received(true)
    case Finished(AllFailed) => forall k | 0 <= k < |s.dials| :: s.dials[k] == Received(false)
    case Finished(NoAddresses) => s.dials == []
    case Finished(Cancelled) => s.ctxDone
    case _ => s.dials != [] && forall k | 0 <= k < |s.dials| :: s.dials[k] != Received(true) && !s.dials[k].Dropped?
  }

  ghost predicate Inv(s: State)
  {
    ChannelInv(s) && (s.ctxDone || (CountInv(s) && ResultInv(s)))
  }

  lemma InitCount(preferred: nat, fallback: nat, p: Dial -> bool)
    ensures Count(Init(preferred, fallback).dials, p) ==
            (if p(Running) then preferred else 0) + (if p(NotStarted) then fallback else 0)
  {
    var before, after := seq(preferred, _ => Running), seq(fallback, _ => NotStarted);
    CountAppend(before, after, p);
    CountSame(before, Running, p);
    CountSame(after, NotStarted, p);
  }

  /** The invariant before any dial has ended. */
  lemma FreshInv(s: State, preferred: nat, fallback: nat)
    requires s.channel == [] && s.started == preferred && s.fallback == fallback && |s.dials| == preferred + fallback
    requires s.phase == if preferred + fallback == 0 then Finished(NoAddresses) else if fallback > 0 then FirstWait
             else Draining(0)
    requires forall k | 0 <= k < |s.dials| :: s.dials[k].Running? || s.dials[k].NotStarted?
    requires InProgress(s) == preferred && Waiting(s) == fallback && Unsent(s) == preferred + fallback
    ensures Inv(s)
  {
  }

  lemma InitDials(preferred: nat, fallback: nat)
    ensures |Init(preferred, fallback).dials| == preferred + fallback
    ensures var ds := Init(preferred, fallback).dials; forall k | 0 <= k < |ds| :: ds[k].Running? || ds[k].NotStarted?
  {
  }

  lemma InitInv(preferred: nat, fallback: nat)
    ensures Inv(Init(preferred, fallback))
  {
    InitCount(preferred, fallback, IsRunning);
    InitCount(preferred, fallback, IsWaiting);
    InitCount(preferred, fallback, IsUnsent);
    InitDials(preferred, fallback);
    FreshInv(Init(preferred, fallback), preferred, fallback);
  }

  /** Changing one dial moves each count by that dial alone. */
  lemma CountsUpdate(ds: seq<Dial>, k: nat, d: Dial)
    requires k < |ds|
    ensures var es := ds[k := d];
            && Count(es, IsRunning) + (if IsRunning(ds[k]) then 1 else 0) ==
               Count(ds, IsRunning) + (if IsRunning(d) then 1 else 0)
            && Count(es, IsWaiting) + (if IsWaiting(ds[k]) then 1 else 0) ==
               Count(ds, IsWaiting) + (if IsWaiting(d) then 1 else 0)
            && Count(es, IsUnsent) + (if IsUnsent(ds[k]) then 1 else 0) ==
               Count(ds, IsUnsent) + (if IsUnsent(d) then 1 else 0)
  {
    CountUpdate(ds, k, d, IsRunning);
    CountUpdate(ds, k, d, IsWaiting);
    CountUpdate(ds, k, d, IsUnsent);
  }

  lemma DialEndsChannel(s: State, k: nat, ok: bool)
    requires ChannelInv(s) && k < |s.dials| && s.dials[k].Running?
    ensures var t := s.(dials := s.dials[k := Queued(ok)], channel := s.channel + [k]);
            |s.channel| < |s.dials| && ChannelInv(t) && InProgress(t) == InProgress(s) - 1 && Waiting(t) == Waiting(s)
  {
    CountsUpdate(s.dials, k, Queued(ok));
    var t := s.(dials := s.dials[k := Queued(ok)], channel := s.channel + [k]);
    assert k !in s.channel;
    forall j | 0 <= j < |t.dials| && t.dials[j].Queued?
      ensures j in t.channel
    {
      assert j != k ==> j in s.channel;
    }
  }

  lemma DialEndsKeepsInv(s: State, k: nat, ok: bool)
    requires Inv(s) && k < |s.dials| && s.dials[k].Running?
    ensures |s.channel| < |s.dials| && Inv(Step(s, DialEnds(k, ok)))
  {
    DialEndsChannel(s, k, ok);
    var t := Step(s, DialEnds(k, ok));
    assert s.ctxDone || CountInv(t);
    assert s.ctxDone || ResultInv(t);
  }

  lemma DialDroppedKeepsInv(s: State, k: nat, ok: bool)
    requires Inv(s)
    ensures Inv(Step(s, DialDropped(k, ok)))
  {
    if k < |s.dials| {
      CountsUpdate(s.dials, k, Dropped(ok));
    }
  }

  lemma {:induction false} CountStarted(ds: seq<Dial>)
    ensures var es := AllStarted(ds);
            && Count(es, IsUnsent) == Count(ds, IsUnsent) && Count(es, IsWaiting) == 0
            && Count(es, IsRunning) == Count(ds, IsRunning) + Count(ds, IsWaiting)
  {
    if ds != [] {
      CountStarted(ds[1..]);
      assert AllStarted(ds)[1..] == AllStarted(ds[1..]);
    }
  }

  lemma StartFallbackKeepsInv(s: State)
    requires ChannelInv(s) && s.phase.FirstWait?
    requires s.ctxDone || (ResultInv(s) && s.started == InProgress(s) + |s.channel| && s.fallback == Waiting(s) > 0)
    ensures Inv(StartFallback(s))
  {
    CountStarted(s.dials);
  }

  /** The channel with its first result taken. */
  function Taken(s: State): State
    requires s.channel != [] && s.channel[0] < |s.dials| && s.dials[s.channel[0]].Queued?
  {
    s.(channel := s.channel[1..], dials := s.dials[s.channel[0] := Received(s.dials[s.channel[0]].ok)])
  }

  lemma TakenCounts(s: State)
    requires s.channel != [] && s.channel[0] < |s.dials| && s.dials[s.channel[0]].Queued?
    ensures var t := Taken(s);
            Unsent(t) == Unsent(s) && InProgress(t) == InProgress(s) && Waiting(t) == Waiting(s)
  {
    CountsUpdate(s.dials, s.channel[0], Received(s.dials[s.channel[0]].ok));
  }

  lemma TakenFacts(s: State)
    requires ChannelInv(s) && s.channel != []
    ensures var t := Taken(s);
            ChannelInv(t) && Unsent(t) == Unsent(s) && InProgress(t) == InProgress(s) && Waiting(t) == Waiting(s)
  {
    var t := Taken(s);
    TakenCounts(s);
    assert forall j | 0 <= j < |t.channel| :: t.channel[j] == s.channel[j + 1];
    forall k | 0 <= k < |t.dials| && t.dials[k].Queued?
      ensures k in t.channel
    {
      assert k in s.channel && k != s.channel[0];
      var j :| 0 <= j < |s.channel| && s.channel[j] == k;
      assert t.channel[j - 1] == k;
    }
  }

  /** Taking a failure leaves no success taken and nothing dropped. */
  lemma FailureKeepsResults(s: State)
    requires ChannelInv(s) && s.channel != [] && !s.dials[s.channel[0]].ok
    requires forall k | 0 <= k < |s.dials| :: s.dials[k] != Received(true) && !s.dials[k].Dropped?
    ensures forall k | 0 <= k < |s.dials| :: Taken(s).dials[k] != Received(true) && !Taken(s).dials[k].Dropped?
  {
  }

  lemma FirstFailureTaken(s: State, t: State)
    requires Inv(s) && s.phase.FirstWait? && s.channel != [] && !s.dials[s.channel[0]].ok
    requires t == Taken(s).(started := s.started - 1)
    ensures ChannelInv(t) && TakeResult(s) == StartFallback(t)
    ensures t.ctxDone || (ResultInv(t) && t.started == InProgress(t) + |t.channel| && t.fallback == Waiting(t) > 0)
  {
    TakenFacts(s);
    if !s.ctxDone {
      FailureKeepsResults(s);
    }
  }

  lemma ReceiveWhileFirst(s: State)
    requires Inv(s) && s.phase.FirstWait? && s.channel != [] && !s.dials[s.channel[0]].ok
    ensures Inv(TakeResult(s))
  {
    var t := Taken(s).(started := s.started - 1);
    FirstFailureTaken(s, t);
    StartFallbackKeepsInv(t);
  }

  /** No dial running, waiting or queued means every result has been taken. */
  lemma AllReceived(t: State)
    requires ChannelInv(t) && InProgress(t) + |t.channel| == 0 && Waiting(t) == 0
    requires forall k | 0 <= k < |t.dials| :: t.dials[k] != Received(true) && !t.dials[k].Dropped?
    ensures forall k | 0 <= k < |t.dials| :: t.dials[k] == Received(false)
  {
    CountWitness(t.dials, IsRunning);
    CountWitness(t.dials, IsWaiting);
    forall k | 0 <= k < |t.dials|
      ensures t.dials[k] == Received(false)
    {
      assert !IsRunning(t.dials[k]) && !IsWaiting(t.dials[k]) && k !in t.channel;
    }
  }

  lemma ReceiveWhileDraining(s: State)
    requires Inv(s) && s.phase.Draining? && s.channel != [] && !s.dials[s.channel[0]].ok
    ensures Inv(TakeResult(s))
  {
    TakenFacts(s);
    var t, u := Taken(s), TakeResult(s);
    assert u == t.(phase := u.phase);
    if !s.ctxDone {
      FailureKeepsResults(s);
      if u.phase.Finished? {
        AllReceived(t);
      }
    }
  }

  lemma ReceiveKeepsInv(s: State)
    requires Inv(s) && !s.phase.Finished? && s.channel != []
    ensures Inv(TakeResult(s))
  {
    if s.dials[s.channel[0]].ok {
      TakenFacts(s);
      assert TakeResult(s) == Taken(s).(phase := Finished(Connected(s.channel[0])));
    } else if s.phase.FirstWait? {
      ReceiveWhileFirst(s);
    } else {
      ReceiveWhileDraining(s);
    }
  }

  lemma StepKeepsInv(s: State, e: Event)
    requires Inv(s)
    ensures Inv(Step(s, e))
  {
    match e {
      case DialEnds(k, ok) =>
        if k < |s.dials| && s.dials[k].Running? {
          DialEndsKeepsInv(s, k, ok);
        }
      case DialDropped(k, ok) => DialDroppedKeepsInv(s, k, ok);
      case Receive =>
        if !s.phase.Finished? && s.channel != [] {
          ReceiveKeepsInv(s);
        }
      case Timer =>
        if s.phase.FirstWait? {
          StartFallbackKeepsInv(s);
        }
      case CancelCtx =>
      case SeeCancel =>
    }
  }

  lemma {:induction false} RunKeepsInv(s: State, es: seq<Event>)
    requires Inv(s)
    ensures Inv(Run(s, es))
    decreases |es|
  {
    if es != [] {
      StepKeepsInv(s, es[0]);
      RunKeepsInv(Step(s, es[0]), es[1..]);
    }
  }

  // ----- What holds for every result order and timer outcome

  lemma {:induction false} DialsFixed(s: State, es: seq<Event>)
    ensures |Run(s, es).dials| == |s.dials|
    decreases |es|
  {
    if es != [] {
      DialsFixed(Step(s, es[0]), es[1..]);
    }
  }

  /** The channel made with one slot per address is never overfull: a finishing dial can always send. */
  lemma ChannelNeverOverfull(preferred: nat, fallback: nat, es: seq<Event>, k: nat)
    ensures var s := Run(Init(preferred, fallback), es);
            |s.channel| <= preferred + fallback == |s.dials| &&
            (k < |s.dials| && s.dials[k].Running? ==> |s.channel| < preferred + fallback)
  {
    InitInv(preferred, fallback);
    RunKeepsInv(Init(preferred, fallback), es);
    DialsFixed(Init(preferred, fallback), es);
    var s := Run(Init(preferred, fallback), es);
    if k < |s.dials| && s.dials[k].Running? {
      DialEndsKeepsInv(s, k, true);
    }
  }

  /** No deadlock: while the function waits, a result is queued, a dial that will send one is running,
      or the timer is armed; and the loop counts exactly the results still to come. */
  lemma NeverWaitsForNothing(preferred: nat, fallback: nat, es: seq<Event>)
    ensures var s := Run(Init(preferred, fallback), es);
            !s.ctxDone && s.phase.Draining? ==>
              && s.started - s.phase.i == InProgress(s) + |s.channel|
              && (s.channel != [] || exists k :: 0 <= k < |s.dials| && s.dials[k].Running?)
  {
    InitInv(preferred, fallback);
    RunKeepsInv(Init(preferred, fallback), es);
    var s := Run(Init(preferred, fallback), es);
    CountWitness(s.dials, IsRunning);
  }

  lemma {:induction false} NoAddressesOnlyAtStart(s: State, es: seq<Event>)
    ensures Run(s, es).phase == Finished(NoAddresses) ==> s.phase == Finished(NoAddresses)
    ensures Run(s, es).phase == Finished(AllFailed) ==> s.phase == Finished(AllFailed) || |s.dials| > 0
    decreases |es|
  {
    if es != [] {
      NoAddressesOnlyAtStart(Step(s, es[0]), es[1..]);
    }
  }

  /** Without cancellation: an error is returned only after every address was dialled and failed, so
      any successful dial yields a connection; and the connection returned is a successful dial's. */
  lemma ErrorOnlyWhenAllFailed(preferred: nat, fallback: nat, es: seq<Event>)
    ensures var s := Run(Init(preferred, fallback), es);
            !s.ctxDone && s.phase.Finished? ==>
              match s.phase.outcome
              case Connected(d) => d < |s.dials| && s.dials[d] == Received(true)
              case AllFailed => |s.dials| > 0 && forall k | 0 <= k < |s.dials| :: s.dials[k] == Received(false)
              case NoAddresses => preferred + fallback == 0
              case Cancelled => false
  {
    InitInv(preferred, fallback);
    RunKeepsInv(Init(preferred, fallback), es);
    DialsFixed(Init(preferred, fallback), es);
    NoAddressesOnlyAtStart(Init(preferred, fallback), es);
  }

  /** Every effective step but a cancellation brings the function nearer its return. */
  function Remaining(s: State): nat
  {
    2 * Unsent(s) + |s.channel| + match s.phase case FirstWait => 2 case Draining(_) => 1 case Finished(_) => 0
  }

  lemma ReceiveIsProgress(s: State)
    requires ChannelInv(s) && s.channel != [] && !s.phase.Finished?
    ensures Remaining(TakeResult(s)) < Remaining(s)
  {
    TakenFacts(s);
    CountStarted(Taken(s).dials);
  }

  lemma EveryStepIsProgress(s: State, e: Event)
    requires Inv(s) && !e.CancelCtx? && Step(s, e) != s
    ensures Remaining(Step(s, e)) < Remaining(s)
  {
    match e {
      case DialEnds(k, ok) => CountsUpdate(s.dials, k, Queued(ok));
      case DialDropped(k, ok) => CountsUpdate(s.dials, k, Dropped(ok));
      case Receive => ReceiveIsProgress(s);
      case Timer => CountStarted(s.dials);
      case SeeCancel =>
    }
  }

  ghost predicate NoCancel(es: seq<Event>)
  {
    forall e | e in es :: !e.CancelCtx?
  }

  /** Every step of the run changes the state. */
  ghost predicate AllEffective(s: State, es: seq<Event>)
    decreases |es|
  {
    es != [] ==> Step(s, es[0]) != s && AllEffective(Step(s, es[0]), es[1..])
  }

  lemma {:induction false} EffectiveRunsUseUp(s: State, es: seq<Event>)
    requires Inv(s) && NoCancel(es) && AllEffective(s, es)
    ensures |es| + Remaining(Run(s, es)) <= Remaining(s)
    decreases |es|
  {
    if es != [] {
      assert es[0] in es;
      EveryStepIsProgress(s, es[0]);
      StepKeepsInv(s, es[0]);
      EffectiveRunsUseUp(Step(s, es[0]), es[1..]);
    }
  }

  /** Without cancellation at most two steps for each address and two more can happen. */
  lemma RunsAreShort(preferred: nat, fallback: nat, es: seq<Event>)
    requires NoCancel(es) && AllEffective(Init(preferred, fallback), es)
    ensures |es| <= 2 * (preferred + fallback) + 2
  {
    InitInv(preferred, fallback);
    InitCount(preferred, fallback, IsUnsent);
    EffectiveRunsUseUp(Init(preferred, fallback), es);
  }

  /** Until the function has returned, some step other than a cancellation is possible; with RunsAreShort it
      returns. */
  lemma SomeStepUntilReturn(s: State) returns (e: Event)
    requires Inv(s) && !s.phase.Finished?
    ensures !e.CancelCtx? && Step(s, e) != s
  {
    if s.ctxDone {
      e := SeeCancel;
    } else if s.channel != [] {
      e := Receive;
      ReceiveIsProgress(s);
    } else if s.phase.FirstWait? {
      e := Timer;
    } else {
      CountWitness(s.dials, IsRunning);
      var k :| 0 <= k < |s.dials| && IsRunning(s.dials[k]);
      DialEndsKeepsInv(s, k, true);
      e := DialEnds(k, true);
    }
  }

  // ----- Dials that lose the race

  /** Dial k succeeded and its connection is in the channel that nobody reads any more. */
  predicate LeakedAt(s: State, k: nat)
  {
    s.phase.Finished? && k < |s.dials| && s.dials[k] == Queued(true)
  }

  /** Once the function has returned, its outcome is fixed and only running dials change. */
  lemma AfterReturn(s: State, e: Event, k: nat)
    requires s.phase.Finished? && k < |s.dials|
    ensures var t := Step(s, e);
            t.phase == s.phase && |t.dials| == |s.dials| && (!s.dials[k].Running? ==> t.dials[k] == s.dials[k])
  {
  }

  lemma {:induction false} SettledStays(s: State, es: seq<Event>, k: nat)
    requires s.phase.Finished? && k < |s.dials| && !s.dials[k].Running?
    ensures var t := Run(s, es);
            t.phase == s.phase && |t.dials| == |s.dials| && t.dials[k] == s.dials[k]
    decreases |es|
  {
    if es != [] {
      AfterReturn(s, es[0], k);
      SettledStays(Step(s, es[0]), es[1..], k);
    }
  }

  lemma RunOne(s: State, e: Event)
    ensures Run(s, [e]) == Step(s, e)
  {
    assert Run(Step(s, e), [e][1..]) == Step(s, e);
  }

  /** Dial k's connection is left open after the run es from s. */
  ghost predicate LeavesOpen(s: State, es: seq<Event>, k: nat)
  {
    LeakedAt(Run(s, es), k)
  }

  lemma RunningMayGoEitherWay(s: State, k: nat)
    requires Inv(s) && s.phase.Finished? && k < |s.dials| && s.dials[k].Running?
    ensures LeavesOpen(s, [DialEnds(k, true)], k) && !LeavesOpen(s, [], k)
  {
    DialEndsKeepsInv(s, k, true);
    RunOne(s, DialEnds(k, true));
  }

  /** What the state at the return decides. Dial k's connection may be left open exactly when its success is
      already in the channel or the dial is still running, whose select may pick either branch then; it is
      left open whatever happens next exactly when it is already in the channel. */
  lemma LeakDecidedAtReturn(s: State, k: nat)
    requires Inv(s) && s.phase.Finished? && k < |s.dials|
    ensures (exists es :: LeavesOpen(s, es, k)) <==> s.dials[k] == Queued(true) || s.dials[k].Running?
    ensures (forall es :: LeavesOpen(s, es, k)) <==> s.dials[k] == Queued(true)
  {
    if s.dials[k].Running? {
      RunningMayGoEitherWay(s, k);
    } else {
      forall es
        ensures LeavesOpen(s, es, k) <==> s.dials[k] == Queued(true)
      {
        SettledStays(s, es, k);
      }
      assert LeavesOpen(s, [], k) <==> s.dials[k] == Queued(true);
    }
  }

  /** Some dial's connection is left open after the run. */
  ghost predicate Leaks(preferred: nat, fallback: nat, es: seq<Event>)
  {
    exists k :: LeavesOpen(Init(preferred, fallback), es, k)
  }

  /** Two dials succeed before the first result is taken. */
  const RACE: seq<Event> := [Timer, DialEnds(0, true), DialEnds(1, true), Receive]

  lemma RunFour(s: State, a: Event, b: Event, c: Event, d: Event)
    ensures Run(s, [a, b, c, d]) == Step(Step(Step(Step(s, a), b), c), d)
  {
    var es := [a, b, c, d];
    var s1 := Step(s, a);
    var s2 := Step(s1, b);
    assert es[1..] == [b, c, d] && es[1..][1..] == [c, d] && es[1..][1..][1..] == [d];
    assert Run(s, es) == Run(s1, [b, c, d]) == Run(s2, [c, d]) == Run(Step(s2, c), [d]);
    RunOne(Step(s2, c), d);
  }

  /** After the timer every dial runs, whichever were preferred. */
  lemma TimerStartsAll(preferred: nat, fallback: nat)
    requires preferred + fallback > 0
    ensures var s := Step(Init(preferred, fallback), Timer);
            && s.phase == Draining(0) && s.started == |s.dials| == preferred + fallback && s.channel == []
            && forall k | 0 <= k < |s.dials| :: s.dials[k] == Running
  {
  }

  lemma LosingDialCanLeak(preferred: nat, fallback: nat)
    requires preferred + fallback >= 2
    ensures NoCancel(RACE) && Run(Init(preferred, fallback), RACE).phase == Finished(Connected(0))
    ensures Leaks(preferred, fallback, RACE)
  {
    var s0 := Init(preferred, fallback);
    TimerStartsAll(preferred, fallback);
    RunFour(s0, Timer, DialEnds(0, true), DialEnds(1, true), Receive);
    var s2 := Step(Step(s0, Timer), DialEnds(0, true));
    assert s2.channel == [0] && s2.dials[1] == Running;
    assert Step(s2, DialEnds(1, true)).channel == [0, 1];
    assert LeavesOpen(s0, RACE, 1);
  }

  lemma {:induction false} NoCancelNoCtx(s: State, es: seq<Event>)
    requires !s.ctxDone && NoCancel(es)
    ensures !Run(s, es).ctxDone
    decreases |es|
  {
    if es != [] {
      assert es[0] in es;
      NoCancelNoCtx(Step(s, es[0]), es[1..]);
    }
  }

  lemma OneAddressNeverLeaks(preferred: nat, fallback: nat, es: seq<Event>)
    requires preferred + fallback <= 1 && NoCancel(es)
    ensures !Leaks(preferred, fallback, es)
  {
    var s0 := Init(preferred, fallback);
    InitInv(preferred, fallback);
    RunKeepsInv(s0, es);
    DialsFixed(s0, es);
    NoCancelNoCtx(s0, es);
  }

  /** Which calls can leave a connection open without any cancellation: exactly those with two or more
      addresses. */
  lemma NeverLeaksIffOneAddress(preferred: nat, fallback: nat)
    ensures (forall es | NoCancel(es) :: !Leaks(preferred, fallback, es)) <==> preferred + fallback <= 1
  {
    if preferred + fallback <= 1 {
      forall es | NoCancel(es)
        ensures !Leaks(preferred, fallback, es)
      {
        OneAddressNeverLeaks(preferred, fallback, es);
      }
    } else {
      LosingDialCanLeak(preferred, fallback);
    }
  }

  /** With cancellation one address is enough: the dial succeeds and the function sees only that the caller is
      gone. */
  lemma NeverLeaksCancelledIffNoAddress(preferred: nat, fallback: nat)
    ensures (forall es :: !Leaks(preferred, fallback, es)) <==> preferred + fallback == 0
  {
    var s0 := Init(preferred, fallback);
    if preferred + fallback == 0 {
      forall es
        ensures !Leaks(preferred, fallback, es)
      {
        DialsFixed(s0, es);
      }
    } else {
      var es := [Timer, DialEnds(0, true), CancelCtx, SeeCancel];
      TimerStartsAll(preferred, fallback);
      RunFour(s0, Timer, DialEnds(0, true), CancelCtx, SeeCancel);
      assert LeavesOpen(s0, es, 0);
      assert Leaks(preferred, fallback, es);
    }
  }
}
