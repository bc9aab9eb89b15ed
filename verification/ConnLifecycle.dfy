/** One pooled connection as a concurrent object (pool/pool.go). The steps are the mutex critical
    sections of the code, so a run is an arbitrary interleaving of them. */
module ConnLifecycle {
  import opened Wrappers

  type Time = int
  type ReqId = nat

  /** The fields that the connection's mutex guards. */
  datatype Fields = Fields(
    inFlight: int,
    closeRequested: bool,
    closed: bool,
    hasHttp2: bool,
    createdAt: Time,
    lastUsedAt: Time,
    useCount: int)

  // ----- The critical sections, as functions of the guarded fields

  predicate Refuses(f: Fields)
  {
    f.closed || f.closeRequested || !f.hasHttp2
  }

  function Admitted(f: Fields, now: Time): Fields
  {
    f.(inFlight := f.inFlight + 1, lastUsedAt := now)
  }

  function ReleasedOne(f: Fields, now: Time): Fields
  {
    f.(inFlight := f.inFlight - 1, lastUsedAt := now)
  }

  /** The test a release makes after its decrement: does it fire the deferred close? */
  predicate FiresDeferredClose(after: Fields)
  {
    after.closeRequested && after.inFlight <= 0
  }

  /** The test requestClose makes: defer while anything is in flight. */
  predicate Defers(f: Fields)
  {
    f.inFlight > 0
  }

  /** The same sections on the mutable object. */
  class Conn {
    var inFlight: int
    var closeRequested: bool
    var closed: bool
    const hasHttp2: bool
    const createdAt: Time
    var lastUsedAt: Time
    var useCount: int
    var socketOpen: bool

    ghost function Guarded(): Fields
      reads this
    {
      Fields(inFlight, closeRequested, closed, hasHttp2, createdAt, lastUsedAt, useCount)
    }

    ghost predicate Valid()
      reads this
    {
      socketOpen == !closed
    }

    constructor (hasHttp2: bool, now: Time)
      ensures Guarded() == Fields(0, false, false, hasHttp2, now, now, 0) && Valid()
    {
      this.hasHttp2 := hasHttp2;
      inFlight, useCount := 0, 0;
      closeRequested, closed, socketOpen := false, false, true;
      createdAt, lastUsedAt := now, now;
    }

    method Admit(now: Time) returns (ok: bool)
      requires Valid()
      modifies this
      ensures Valid() && ok == !Refuses(old(Guarded()))
      ensures Guarded() == if ok then Admitted(old(Guarded()), now) else old(Guarded())
    {
      if closed || closeRequested || !hasHttp2 {
        return false;
      }
      inFlight := inFlight + 1;
      lastUsedAt := now;
      return true;
    }

    method Release(now: Time) returns (shouldClose: bool)
      requires Valid()
      modifies this
      ensures Valid() && Guarded() == ReleasedOne(old(Guarded()), now)
      ensures shouldClose == FiresDeferredClose(Guarded())
    {
      inFlight := inFlight - 1;
      lastUsedAt := now;
      shouldClose := closeRequested && inFlight <= 0;
    }

    method RequestClose() returns (closeNow: bool)
      requires Valid()
      modifies this
      ensures Valid() && closeNow == !Defers(old(Guarded()))
      ensures Guarded() == if closeNow then old(Guarded()) else old(Guarded()).(closeRequested := true)
    {
      if inFlight > 0 {
        closeRequested := true;
        return false;
      }
      return true;
    }

    method Close() returns (closedSocket: bool)
      requires Valid()
      modifies this
      ensures Valid() && Guarded() == old(Guarded()).(closed := true)
      ensures closedSocket == old(socketOpen) && !socketOpen
    {
      if closed {
        return false;
      }
      closed := true;
      socketOpen := false;
      return true;
    }

    method MarkUsed(now: Time)
      requires Valid()
      modifies this
      ensures Valid() && Guarded() == old(Guarded()).(lastUsedAt := now, useCount := old(useCount) + 1)
    {
      lastUsedAt := now;
      useCount := useCount + 1;
    }
  }

  // ----- The concurrent system

  /** Where a request stands: in the HTTP/2 layer, streaming behind its body guard,
      committed to call release (the guard's once is spent), or released. */
  datatype Phase = Sending | Streaming | Releasing | Released

  /** Why a Close call is on its way: called directly by the pool, by requestClose after it saw no
      request, or by the release that emptied a retired connection. */
  datatype CloseKind = Direct | Unused | Deferred

  datatype State = State(
    f: Fields,
    lastProgress: Time,
    requests: map<ReqId, Phase>,
    refused: set<ReqId>,
    retiring: nat,
    closing: map<CloseKind, nat>)

  datatype Event =
    | Admit(r: ReqId, now: Time)
    | Progress(now: Time)
    | TransportError(r: ReqId)
    | Headers(r: ReqId, hasBody: bool, now: Time)
    | BodyRead(r: ReqId, gotBytes: bool, failed: bool, now: Time)
    | BodyClose(r: ReqId)
    | Release(r: ReqId, now: Time)
    | SpawnRequestClose
    | RunRequestClose
    | SpawnClose
    | RunClose(kind: CloseKind)
    | MarkUsed(now: Time)

  function Init(hasHttp2: bool, now: Time): State
  {
    State(Fields(0, false, false, hasHttp2, now, now, 0), 0, map[], {}, 0, map[])
  }

  function Pending(s: State, k: CloseKind): nat
  {
    if k in s.closing then s.closing[k] else 0
  }

  function Enqueue(s: State, k: CloseKind): State
  {
    s.(closing := s.closing[k := Pending(s, k) + 1])
  }

  predicate In(s: State, r: ReqId, p: Phase)
  {
    r in s.requests && s.requests[r] == p
  }

  /** The guard's release: the first caller commits, every later one does nothing. */
  function SpendOnce(s: State, r: ReqId): State
  {
    if In(s, r, Streaming) then s.(requests := s.requests[r := Releasing]) else s
  }

  /** One critical section. An event whose thread is not at that point changes nothing. */
  function Step(s: State, e: Event): State
  {
    match e
    case Admit(r, now) =>
      if r in s.requests then s
      else if Refuses(s.f) then s.(refused := s.refused + {r})
      else s.(f := Admitted(s.f, now), requests := s.requests[r := Sending])
    case Progress(now) => s.(lastProgress := now)
    case TransportError(r) =>
      if In(s, r, Sending) then s.(requests := s.requests[r := Releasing]) else s
    case Headers(r, hasBody, now) =>
      if In(s, r, Sending) then
        s.(f := s.f.(lastUsedAt := now), requests := s.requests[r := if hasBody then Streaming else Releasing])
      else s
    case BodyRead(r, gotBytes, failed, now) =>
      var s1 := if gotBytes then s.(lastProgress := now) else s;
      if failed then SpendOnce(s1, r) else s1
    case BodyClose(r) => SpendOnce(s, r)
    case Release(r, now) =>
      if In(s, r, Releasing) then
        var s1 := s.(f := ReleasedOne(s.f, now), requests := s.requests[r := Released]);
        if FiresDeferredClose(s1.f) then Enqueue(s1, Deferred) else s1
      else s
    case SpawnRequestClose => s.(retiring := s.retiring + 1)
    case RunRequestClose =>
      if s.retiring == 0 then s
      else if Defers(s.f) then s.(retiring := s.retiring - 1, f := s.f.(closeRequested := true))
      else Enqueue(s.(retiring := s.retiring - 1), Unused)
    case SpawnClose => Enqueue(s, Direct)
    case RunClose(k) =>
      if Pending(s, k) == 0 then s
      else s.(closing := s.closing[k := Pending(s, k) - 1], f := s.f.(closed := true))
    case MarkUsed(now) => s.(f := s.f.(lastUsedAt := now, useCount := s.f.useCount + 1))
  }

  function Run(s: State, es: seq<Event>): State
    decreases |es|
  {
    if es == [] then s else Run(Step(s, es[0]), es[1..])
  }

  // ----- Invariants

  function Open(s: State): set<ReqId>
  {
    set r | r in s.requests && s.requests[r] != Released
  }

  /** A retired connection whose last request has finished. */
  predicate Drained(s: State)
  {
    s.f.closeRequested && s.f.inFlight == 0
  }

  /** Once drained, and only then, a deferred close is pending or the connection is closed. */
  ghost predicate DeferredInv(s: State)
  {
    && (Drained(s) ==> s.f.closed || Pending(s, Deferred) > 0)
    && (Pending(s, Deferred) > 0 ==> Drained(s))
  }

  ghost predicate Inv(s: State)
  {
    && s.f.inFlight == |Open(s)|
    && s.refused !! s.requests.Keys
    && (s.refused != {} ==> Refuses(s.f))
    && (!s.f.hasHttp2 ==> s.requests == map[])
    && DeferredInv(s)
  }

  lemma OpenAfterUpdate(s: State, r: ReqId, p: Phase)
    ensures var after := s.(requests := s.requests[r := p]);
            Open(after) == if p == Released then Open(s) - {r} else Open(s) + {r}
  {
  }

  lemma AdmitCounts(s: State, r: ReqId, now: Time)
    requires s.f.inFlight == |Open(s)|
    ensures Step(s, Admit(r, now)).f.inFlight == |Open(Step(s, Admit(r, now)))|
  {
    var after := Step(s, Admit(r, now));
    if r !in s.requests && !Refuses(s.f) {
      OpenAfterUpdate(s, r, Sending);
      assert Open(after) == Open(s) + {r} && r !in Open(s);
    } else {
      assert Open(after) == Open(s);
    }
  }

  lemma ReleaseCounts(s: State, r: ReqId, now: Time)
    requires s.f.inFlight == |Open(s)|
    ensures Step(s, Release(r, now)).f.inFlight == |Open(Step(s, Release(r, now)))|
  {
    var after := Step(s, Release(r, now));
    if In(s, r, Releasing) {
      OpenAfterUpdate(s, r, Released);
      assert Open(after) == Open(s) - {r} && r in Open(s);
    }
  }

  lemma StepKeepsOpenCount(s: State, e: Event)
    requires s.f.inFlight == |Open(s)|
    ensures Step(s, e).f.inFlight == |Open(Step(s, e))|
  {
    if e.Admit? {
      AdmitCounts(s, e.r, e.now);
    } else if e.Release? {
      ReleaseCounts(s, e.r, e.now);
    } else {
      assert Open(Step(s, e)) == Open(s);
    }
  }

  lemma StepKeepsRefusals(s: State, e: Event)
    requires s.refused !! s.requests.Keys && (s.refused != {} ==> Refuses(s.f)) &&
             (!s.f.hasHttp2 ==> s.requests == map[])
    ensures var t := Step(s, e);
            t.refused !! t.requests.Keys && (t.refused != {} ==> Refuses(t.f)) &&
            (!t.f.hasHttp2 ==> t.requests == map[])
  {
  }

  lemma ReleasingIsOpen(s: State, r: ReqId)
    requires s.f.inFlight == |Open(s)| && In(s, r, Releasing)
    ensures s.f.inFlight > 0
  {
    assert r in Open(s);
  }

  lemma StepKeepsDeferred(s: State, e: Event)
    requires DeferredInv(s) && s.f.inFlight >= 0 && (e.Release? && In(s, e.r, Releasing) ==> s.f.inFlight > 0)
    ensures DeferredInv(Step(s, e))
  {
  }

  lemma StepKeepsInv(s: State, e: Event)
    requires Inv(s)
    ensures Inv(Step(s, e))
  {
    StepKeepsOpenCount(s, e);
    StepKeepsRefusals(s, e);
    if e.Release? && In(s, e.r, Releasing) {
      ReleasingIsOpen(s, e.r);
    }
    StepKeepsDeferred(s, e);
  }

  lemma {:induction false} RunKeepsInv(s: State, es: seq<Event>)
    requires Inv(s)
    ensures Inv(Run(s, es))
    decreases |es|
  {
    if es != [] {
      StepKeepsInv(s, es[0]);
      RunKeepsInv(Step(s, es[0]), es[1..]);
    }
  }

  /** In every interleaving, inFlight is the number of admitted, unreleased requests (so it is never
      negative), and no request is both refused and handed to the HTTP/2 layer. */
  lemma InFlightCountsOpenRequests(hasHttp2: bool, now: Time, es: seq<Event>)
    ensures var s := Run(Init(hasHttp2, now), es);
            s.f.inFlight == |Open(s)| >= 0 && s.refused !! s.requests.Keys
  {
    RunKeepsInv(Init(hasHttp2, now), es);
  }

  lemma RetiredStepAdmitsNothing(s: State, e: Event)
    requires s.f.closeRequested || s.f.closed
    ensures var t := Step(s, e);
            && t.requests.Keys == s.requests.Keys && t.f.inFlight <= s.f.inFlight
            && (s.f.closeRequested ==> t.f.closeRequested) && (s.f.closed ==> t.f.closed)
  {
  }

  /** Once a connection is retired or closed, no later RoundTrip is admitted: the set of requests is
      fixed, inFlight never rises, and neither flag is ever cleared. */
  lemma {:induction false} RetiredAdmitsNothing(s: State, es: seq<Event>)
    requires s.f.closeRequested || s.f.closed
    ensures var t := Run(s, es);
            && t.requests.Keys == s.requests.Keys
            && t.f.inFlight <= s.f.inFlight
            && (s.f.closeRequested ==> t.f.closeRequested)
            && (s.f.closed ==> t.f.closed)
    decreases |es|
  {
    if es != [] {
      RetiredStepAdmitsNothing(s, es[0]);
      RetiredAdmitsNothing(Step(s, es[0]), es[1..]);
    }
  }

  /** The event is a release that fires the deferred close. */
  predicate Fires(s: State, e: Event)
  {
    e.Release? && In(s, e.r, Releasing) && FiresDeferredClose(ReleasedOne(s.f, e.now))
  }

  function Bit(b: bool): nat
  {
    if b then 1 else 0
  }

  /** The releases in a run that fire the deferred close. */
  function DeferredFires(s: State, es: seq<Event>): (n: nat)
    decreases |es|
  {
    if es == [] then 0 else Bit(Fires(s, es[0])) + DeferredFires(Step(s, es[0]), es[1..])
  }

  /** The event closes the socket. */
  predicate Shuts(s: State, e: Event)
  {
    e.RunClose? && Pending(s, e.kind) > 0 && !s.f.closed
  }

  /** The steps in a run that actually close the socket. */
  function SocketCloses(s: State, es: seq<Event>): (n: nat)
    decreases |es|
  {
    if es == [] then 0 else Bit(Shuts(s, es[0])) + SocketCloses(Step(s, es[0]), es[1..])
  }

  /** A release fires the deferred close exactly when it is the step that drains the connection. */
  lemma FiresDrains(s: State, e: Event)
    requires Inv(s)
    ensures Bit(Fires(s, e)) + Bit(Drained(s)) == Bit(Drained(Step(s, e)))
  {
    if e.Release? && In(s, e.r, Releasing) {
      assert e.r in Open(s);
    }
  }

  lemma {:induction false} DeferredFiresFrom(s: State, es: seq<Event>)
    requires Inv(s)
    ensures DeferredFires(s, es) + Bit(Drained(s)) == Bit(Drained(Run(s, es)))
    decreases |es|
  {
    if es != [] {
      FiresDrains(s, es[0]);
      StepKeepsInv(s, es[0]);
      DeferredFiresFrom(Step(s, es[0]), es[1..]);
    }
  }

  lemma ShutsCloses(s: State, e: Event)
    ensures Bit(Shuts(s, e)) + Bit(s.f.closed) == Bit(Step(s, e).f.closed)
  {
  }

  lemma {:induction false} SocketClosesFrom(s: State, es: seq<Event>)
    ensures SocketCloses(s, es) + Bit(s.f.closed) == Bit(Run(s, es).f.closed)
    decreases |es|
  {
    if es != [] {
      ShutsCloses(s, es[0]);
      SocketClosesFrom(Step(s, es[0]), es[1..]);
    }
  }

  /** The deferred close over a whole run: exactly one release fires it once the retired connection
      has drained, none does before; it is never lost; and the socket is closed at most once. */
  lemma DeferredCloseExactlyOnce(hasHttp2: bool, now: Time, es: seq<Event>)
    ensures var s0 := Init(hasHttp2, now);
            var s := Run(s0, es);
            && DeferredFires(s0, es) == Bit(Drained(s))
            && (Drained(s) ==> s.f.closed || Pending(s, Deferred) > 0)
            && SocketCloses(s0, es) == Bit(s.f.closed) <= 1
  {
    var s0 := Init(hasHttp2, now);
    RunKeepsInv(s0, es);
    DeferredFiresFrom(s0, es);
    SocketClosesFrom(s0, es);
  }

  /** Nothing is stranded: when no request is open and no goroutine is left, a retired connection
      has been closed. */
  lemma QuiescentRetiredIsClosed(hasHttp2: bool, now: Time, es: seq<Event>)
    ensures var s := Run(Init(hasHttp2, now), es);
            s.f.closeRequested && Open(s) == {} && Pending(s, Deferred) == 0 ==> s.f.closed
  {
    RunKeepsInv(Init(hasHttp2, now), es);
  }

  /** A close step cuts a response when it closes the socket while requests are in flight. */
  predicate Cuts(s: State, e: Event)
  {
    e.RunClose? && Pending(s, e.kind) > 0 && !s.f.closed && s.f.inFlight > 0
  }

  /** The deferred close never cuts a response, in any interleaving. */
  lemma DeferredCloseNeverCuts(hasHttp2: bool, now: Time, es: seq<Event>)
    ensures !Cuts(Run(Init(hasHttp2, now), es), RunClose(Deferred))
  {
    RunKeepsInv(Init(hasHttp2, now), es);
  }

  /** requestClose decides under the lock and closes after it, so a request admitted in between is
      cut: the comment that eviction never yanks the socket does not hold for this run. */
  lemma RequestCloseCanCut()
    ensures var es := [SpawnRequestClose, RunRequestClose, Admit(0, 1)];
            Cuts(Run(Init(true, 0), es), RunClose(Unused))
  {
    var s0 := Init(true, 0);
    var es: seq<Event> := [SpawnRequestClose, RunRequestClose, Admit(0, 1)];
    var s1 := Step(s0, es[0]);
    var s2 := Step(s1, es[1]);
    var s3 := Step(s2, es[2]);
    assert es[1..][0] == es[1] && es[1..][1..][0] == es[2] && es[1..][1..][1..] == [];
    assert Run(s0, es) == Run(s1, es[1..]) == Run(s2, es[1..][1..]) == Run(s3, es[1..][1..][1..]) == s3;
  }

  lemma {:induction false} ReleasedStays(s: State, es: seq<Event>, r: ReqId)
    requires In(s, r, Released)
    ensures In(Run(s, es), r, Released)
    decreases |es|
  {
    if es != [] {
      ReleasedStays(Step(s, es[0]), es[1..], r);
    }
  }

  /** A request of t that has not released and was not there at s. */
  ghost predicate AdmittedSince(s: State, t: State, r: ReqId)
  {
    r in t.requests && r !in s.requests && t.requests[r] != Released
  }

  /** From a state with nothing in flight, whatever runs after it, a close of any kind cuts a response if and
      only if the socket is still open and some request admitted since has not released yet. */
  lemma IdleCloseCutsIffAdmittedSince(s: State, es: seq<Event>, kind: CloseKind)
    requires Inv(s) && s.f.inFlight == 0
    ensures var t := Run(s, es);
            Cuts(t, RunClose(kind)) <==> Pending(t, kind) > 0 && !t.f.closed && exists r :: AdmittedSince(s, t, r)
  {
    var t := Run(s, es);
    RunKeepsInv(s, es);
    forall r | r in s.requests
      ensures In(t, r, Released)
    {
      assert r !in Open(s);
      ReleasedStays(s, es, r);
    }
    if t.f.inFlight > 0 {
      var r :| r in Open(t);
      assert AdmittedSince(s, t, r);
    } else {
      assert Open(t) == {};
      assert forall r | AdmittedSince(s, t, r) :: r in Open(t);
    }
  }

  /** For requestClose that gap is the only way: where it decides to close, nothing is in flight, so its close
      cuts a response exactly when a request admitted after the decision is still open. */
  lemma RequestCloseCutsIffAdmittedSince(s: State, es: seq<Event>)
    requires Inv(s) && !Defers(s.f)
    ensures var t := Run(s, es);
            Cuts(t, RunClose(Unused)) <==> Pending(t, Unused) > 0 && !t.f.closed && exists r :: AdmittedSince(s, t, r)
  {
    IdleCloseCutsIffAdmittedSince(s, es, Unused);
  }

  lemma {:induction false} RunAppend(s: State, xs: seq<Event>, ys: seq<Event>)
    ensures Run(s, xs + ys) == Run(Run(s, xs), ys)
    decreases |xs|
  {
    if xs == [] {
      assert xs + ys == ys;
    } else {
      assert (xs + ys)[0] == xs[0] && (xs + ys)[1..] == xs[1..] + ys;
      RunAppend(Step(s, xs[0]), xs[1..], ys);
    }
  }

  // ----- What the guarded fields say of a run

  /** A request is admitted exactly when the connection is open, not retired and has a transport. */
  lemma AdmittedIffServing(s: State, r: ReqId, now: Time)
    requires r !in s.requests
    ensures r in Step(s, Admit(r, now)).requests <==> !s.f.closed && !s.f.closeRequested && s.f.hasHttp2
  {
  }

  /** The only ways to release: before the body, a transport error or headers without a body; while it streams, a
      read that fails or a close. */
  lemma CommitsToReleaseIff(s: State, e: Event, r: ReqId)
    requires !In(s, r, Releasing)
    ensures In(Step(s, e), r, Releasing) <==>
            || (In(s, r, Sending) && (e == TransportError(r) || (e.Headers? && e.r == r && !e.hasBody)))
            || (In(s, r, Streaming) && (e == BodyClose(r) || (e.BodyRead? && e.r == r && e.failed)))
  {
  }

  /** The clock reading of a use that takes effect: an admission, headers arriving, a release, or the pool
      handing the connection out. */
  function UseReading(s: State, e: Event): Option<Time>
  {
    match e
    case Admit(r, now) => if r !in s.requests && r in Step(s, e).requests then Some(now) else None
    case Headers(r, _, now) => if In(s, r, Sending) then Some(now) else None
    case Release(r, now) => if In(s, r, Releasing) then Some(now) else None
    case MarkUsed(now) => Some(now)
    case _ => None
  }

  /** The clock reading of body progress. */
  function ProgressReading(e: Event): Option<Time>
  {
    match e
    case Progress(now) => Some(now)
    case BodyRead(_, gotBytes, _, now) => if gotBytes then Some(now) else None
    case _ => None
  }

  function Or(reading: Option<Time>, before: Time): Time
  {
    if reading.Some? then reading.value else before
  }

  /** The last reading of a use in the run es from s, or before if there is none. */
  function LastUse(s: State, es: seq<Event>, before: Time): Time
    decreases |es|
  {
    if es == [] then before else LastUse(Step(s, es[0]), es[1..], Or(UseReading(s, es[0]), before))
  }

  function LastProgress(es: seq<Event>, before: Time): Time
    decreases |es|
  {
    if es == [] then before else LastProgress(es[1..], Or(ProgressReading(es[0]), before))
  }

  /** How often the pool handed the connection out. */
  function TimesUsed(es: seq<Event>): nat
    decreases |es|
  {
    if es == [] then 0 else Bit(es[0].MarkUsed?) + TimesUsed(es[1..])
  }

  lemma TimesStep(s: State, e: Event)
    ensures var t := Step(s, e);
            && t.f.lastUsedAt == Or(UseReading(s, e), s.f.lastUsedAt)
            && t.lastProgress == Or(ProgressReading(e), s.lastProgress)
            && t.f.useCount == s.f.useCount + Bit(e.MarkUsed?)
            && t.f.createdAt == s.f.createdAt && t.f.hasHttp2 == s.f.hasHttp2
  {
  }

  lemma {:induction false} LastUseFrom(s: State, es: seq<Event>)
    ensures Run(s, es).f.lastUsedAt == LastUse(s, es, s.f.lastUsedAt)
    decreases |es|
  {
    if es != [] {
      var t := Step(s, es[0]);
      assert t.f.lastUsedAt == Or(UseReading(s, es[0]), s.f.lastUsedAt) by {
        TimesStep(s, es[0]);
      }
      LastUseFrom(t, es[1..]);
    }
  }

  lemma {:induction false} OthersFrom(s: State, es: seq<Event>)
    ensures var t := Run(s, es);
            && t.lastProgress == LastProgress(es, s.lastProgress)
            && t.f.useCount == s.f.useCount + TimesUsed(es)
            && t.f.createdAt == s.f.createdAt && t.f.hasHttp2 == s.f.hasHttp2
    decreases |es|
  {
    if es != [] {
      TimesStep(s, es[0]);
      OthersFrom(Step(s, es[0]), es[1..]);
    }
  }

  /** In every run the last-use time is the reading of the last use, or else the creation time; the progress
      time is that of the last body progress, or zero; and the use count counts the hand-outs. */
  lemma TimesAreReadings(hasHttp2: bool, createdAt: Time, es: seq<Event>)
    ensures var s := Run(Init(hasHttp2, createdAt), es);
            && s.f.lastUsedAt == LastUse(Init(hasHttp2, createdAt), es, createdAt)
            && s.lastProgress == LastProgress(es, 0)
            && s.f.useCount == TimesUsed(es)
            && s.f.createdAt == createdAt && s.f.hasHttp2 == hasHttp2
  {
    LastUseFrom(Init(hasHttp2, createdAt), es);
    OthersFrom(Init(hasHttp2, createdAt), es);
  }

  /** The event retires the connection: requestClose runs while a request is open. */
  predicate Retires(s: State, e: Event)
  {
    e.RunRequestClose? && s.retiring > 0 && Open(s) != {}
  }

  ghost predicate EverRetired(s: State, es: seq<Event>)
    decreases |es|
  {
    es != [] && (Retires(s, es[0]) || EverRetired(Step(s, es[0]), es[1..]))
  }

  lemma RetiresStep(s: State, e: Event)
    requires s.f.inFlight == |Open(s)|
    ensures Step(s, e).f.closeRequested <==> s.f.closeRequested || Retires(s, e)
  {
    if Open(s) == {} {
      assert s.f.inFlight == 0;
    }
  }

  lemma {:induction false} RetiredFrom(s: State, es: seq<Event>)
    requires Inv(s)
    ensures Run(s, es).f.closeRequested <==> s.f.closeRequested || EverRetired(s, es)
    decreases |es|
  {
    if es != [] {
      var t := Step(s, es[0]);
      assert t.f.closeRequested <==> s.f.closeRequested || Retires(s, es[0]) by {
        RetiresStep(s, es[0]);
      }
      assert Inv(t) by {
        StepKeepsInv(s, es[0]);
      }
      RetiredFrom(t, es[1..]);
    }
  }

  /** A connection is retired exactly when requestClose has run while a request was open, and closed exactly
      when a close has run. */
  lemma FlagsAreHistory(hasHttp2: bool, now: Time, es: seq<Event>)
    ensures var s0 := Init(hasHttp2, now);
            && (Run(s0, es).f.closeRequested <==> EverRetired(s0, es))
            && (Run(s0, es).f.closed <==> SocketCloses(s0, es) > 0)
  {
    RetiredFrom(Init(hasHttp2, now), es);
    SocketClosesFrom(Init(hasHttp2, now), es);
  }
}
