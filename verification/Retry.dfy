/** The retry loop around a request (client/client.go). */
module Retry {

  /** What one attempt, redirects included, comes to. cookies: the response set any. */
  datatype Attempt =
    | Vetoed
    | Errored
    | Reply(status: int, cookies: bool)

  datatype Outcome =
    | Response(attempt: nat)
    | Refused
    | Cancelled
    | Failed

  /** cancelled(k): the context is done during the wait before attempt k. auto: the caller left the choice
      of protocol to the client. hasHttp3(k): a QUIC or MASQUE transport exists at attempt k. */
  datatype Plan = Plan(attempts: nat -> Attempt, cancelled: nat -> bool, maxRetries: int, retryOn: set<int>, auto: bool,
                       hasHttp3: nat -> bool)

  /** A 403 or 429 with cookies, which the client answers once by trying again over HTTP/3. */
  predicate IsChallenge(p: Plan, k: nat)
  {
    var a := p.attempts(k);
    p.auto && a.Reply? && (a.status == 403 || a.status == 429) && a.cookies
  }

  ghost predicate FirstChallenge(p: Plan, k: nat)
  {
    IsChallenge(p, k) && forall j: nat | j < k :: !IsChallenge(p, j)
  }

  /** The same, as the source's comment has it: bot protection answered a caller that left the protocol open. */
  ghost predicate Challenges(p: Plan, k: nat)
  {
    p.auto && p.attempts(k).Reply? && p.attempts(k).status in {403, 429} && p.attempts(k).cookies
  }

  lemma ChallengeIffChallenges(p: Plan)
    ensures forall k: nat :: IsChallenge(p, k) <==> Challenges(p, k)
  {
  }

  /** A reply that the configuration says to try again. */
  ghost predicate Retryable(p: Plan, k: nat)
  {
    p.attempts(k).Reply? && !FirstChallenge(p, k) && p.attempts(k).status in p.retryOn && k < p.maxRetries
  }

  /** The context is done in the wait before attempt k; there is no wait before the first. */
  predicate StoppedBefore(p: Plan, k: nat)
  {
    k > 0 && p.cancelled(k)
  }

  /** The loop ends at attempt k: the context is done, the caller's hook refused, or the reply is final. */
  ghost predicate Ends(p: Plan, k: nat)
  {
    || StoppedBefore(p, k)
    || p.attempts(k).Vetoed?
    || (p.attempts(k).Reply? && !FirstChallenge(p, k) && !Retryable(p, k))
  }

  /** Attempts 0 to n - 1 were all made and none ended the loop. */
  ghost predicate NoneEnds(p: Plan, n: nat)
  {
    forall k: nat | k < n :: !Ends(p, k)
  }

  ghost predicate LastRetryable(p: Plan, k: nat, n: nat)
  {
    k < n && Retryable(p, k) && forall j: nat | k < j < n :: !Retryable(p, j)
  }

  /** How many attempts a run that nothing ends makes. */
  function Bound(p: Plan): nat
  {
    if p.maxRetries < 0 then 0 else p.maxRetries + 1
  }

  /** What the loop promises: it stops at the first attempt that ends it, and never makes another after the
      caller's hook refused; if none does it returns the last reply it was told to retry, or fails when
      there is none. calls counts the attempts made. */
  ghost predicate IsOutcome(p: Plan, r: Outcome, calls: nat)
  {
    calls <= Bound(p) &&
    match r
    case Refused => 0 < calls && NoneEnds(p, calls - 1) && !StoppedBefore(p, calls - 1) && p.attempts(calls - 1).Vetoed?
    case Cancelled => 0 < calls < Bound(p) && NoneEnds(p, calls) && StoppedBefore(p, calls)
    case Response(k) =>
      || (calls == k + 1 && NoneEnds(p, k) && Ends(p, k) && !StoppedBefore(p, k) && p.attempts(k).Reply?)
      || (calls == Bound(p) && NoneEnds(p, calls) && LastRetryable(p, k, calls))
    case Failed => calls == Bound(p) && NoneEnds(p, calls) && forall k: nat | k < calls :: !Retryable(p, k)
  }

  /** overHttp3 holds the attempts sent over HTTP/3 because of a challenge before them. */
  method DoWithRetry(p: Plan) returns (r: Outcome, calls: nat, overHttp3: set<nat>)
    ensures IsOutcome(p, r, calls)
    ensures r.Failed? <==> NoneEnds(p, Bound(p)) && forall k: nat | k < Bound(p) :: !Retryable(p, k)
    ensures forall k: nat ::
              k in overHttp3 <==> k < calls && p.hasHttp3(k) && exists j: nat :: j < k && Challenges(p, j)
  {
    ChallengeIffChallenges(p);
    calls, overHttp3 := 0, {};
    var last: int := -1;
    var challenged := false;
    while calls <= p.maxRetries
      invariant calls <= Bound(p) && NoneEnds(p, calls)
      invariant challenged <==> exists j: nat :: j < calls && IsChallenge(p, j)
      invariant if last == -1 then forall k: nat | k < calls :: !Retryable(p, k)
                else 0 <= last && LastRetryable(p, last, calls)
      invariant forall k: nat ::
                  k in overHttp3 <==> k < calls && p.hasHttp3(k) && exists j: nat :: j < k && Challenges(p, j)
    {
      var k := calls;
      if k > 0 && p.cancelled(k) {
        assert Ends(p, k);
        return Cancelled, calls, overHttp3;
      }
      calls := calls + 1;
      if challenged && p.hasHttp3(k) {
        overHttp3 := overHttp3 + {k};
      }
      var a := p.attempts(k);
      if a.Vetoed? {
        assert Ends(p, k);
        return Refused, calls, overHttp3;
      }
      if a.Reply? {
        if !challenged && IsChallenge(p, k) {
          assert FirstChallenge(p, k);
          challenged := true;
        } else if a.status in p.retryOn && k < p.maxRetries {
          assert Retryable(p, k);
          last := k;
        } else {
          assert Ends(p, k);
          return Response(k), calls, overHttp3;
        }
      }
    }
    if last != -1 {
      return Response(last), calls, overHttp3;
    }
    return Failed, calls, overHttp3;
  }

  // ----- The promise determines the outcome

  /** Attempt k is the first that ends the loop. */
  ghost predicate FirstEnd(p: Plan, k: nat)
  {
    k < Bound(p) && NoneEnds(p, k) && Ends(p, k)
  }

  lemma FirstEndUnique(p: Plan, j: nat, k: nat)
    requires FirstEnd(p, j) && FirstEnd(p, k)
    ensures j == k
  {
  }

  lemma EndOf(p: Plan, r: Outcome, calls: nat) returns (end: nat)
    requires IsOutcome(p, r, calls)
    ensures end == (if r.Cancelled? then calls else if calls == 0 then 0 else calls - 1)
    ensures FirstEnd(p, end) || (NoneEnds(p, Bound(p)) && calls == Bound(p))
    ensures r.Refused? || r.Cancelled? ==> FirstEnd(p, end)
    ensures r.Failed? ==> !FirstEnd(p, end) && NoneEnds(p, Bound(p))
  {
    end := if r.Cancelled? then calls else if calls == 0 then 0 else calls - 1;
    assert r.Failed? && end < Bound(p) ==> !Ends(p, end);
  }

  /** At most one outcome and one number of attempts keep the promise. */
  lemma OutcomeUnique(p: Plan, r1: Outcome, calls1: nat, r2: Outcome, calls2: nat)
    requires IsOutcome(p, r1, calls1) && IsOutcome(p, r2, calls2)
    ensures r1 == r2 && calls1 == calls2
  {
    var e1 := EndOf(p, r1, calls1);
    var e2 := EndOf(p, r2, calls2);
    if FirstEnd(p, e1) && FirstEnd(p, e2) {
      FirstEndUnique(p, e1, e2);
    }
  }

  // ----- When a reply is lost

  /** Some attempt of the run was answered by the server. */
  ghost predicate SomeReply(p: Plan)
  {
    exists k: nat :: k < Bound(p) && p.attempts(k).Reply?
  }

  lemma ChallengeIsLost(p: Plan)
    requires forall k: nat | k < Bound(p) :: !StoppedBefore(p, k) && (p.attempts(k).Errored? || FirstChallenge(p, k))
    ensures IsOutcome(p, Failed, Bound(p))
  {
  }

  /** The run fails exactly when the context stays alive and every attempt errors, but for a first
      challenge anywhere among them. */
  lemma FailsIff(p: Plan, r: Outcome, calls: nat)
    requires IsOutcome(p, r, calls)
    ensures r.Failed? <==>
            forall k: nat | k < Bound(p) :: !StoppedBefore(p, k) && (p.attempts(k).Errored? || FirstChallenge(p, k))
  {
    if r.Failed? {
      forall k: nat | k < Bound(p)
        ensures !StoppedBefore(p, k) && (p.attempts(k).Errored? || FirstChallenge(p, k))
      {
        assert !Ends(p, k) && !Retryable(p, k);
      }
    } else if forall k: nat | k < Bound(p) :: !StoppedBefore(p, k) && (p.attempts(k).Errored? || FirstChallenge(p, k)) {
      ChallengeIsLost(p);
      OutcomeUnique(p, r, calls, Failed, Bound(p));
    }
  }

  /** Attempt k is a challenge, every other one errors, and the context stays alive. */
  ghost predicate LoneChallenge(p: Plan, k: nat)
  {
    && Challenges(p, k)
    && (forall j: nat | j < Bound(p) && j != k :: p.attempts(j).Errored?)
    && (forall j: nat | 0 < j < Bound(p) :: !p.cancelled(j))
  }

  /** A failure hides a reply exactly when the one reply of the run is a challenge, on whichever attempt,
      and every other attempt errored. */
  lemma ReplyLostIffLoneChallenge(p: Plan, r: Outcome, calls: nat)
    requires IsOutcome(p, r, calls)
    ensures r.Failed? && SomeReply(p) <==>
            exists k: nat :: k < Bound(p) && LoneChallenge(p, k)
  {
    FailsIff(p, r, calls);
    if r.Failed? && SomeReply(p) {
      var k: nat :| k < Bound(p) && p.attempts(k).Reply?;
      forall j: nat | j < Bound(p) && j != k
        ensures p.attempts(j).Errored?
      {
        assert FirstChallenge(p, k) && (p.attempts(j).Errored? || FirstChallenge(p, j));
      }
      forall j: nat | 0 < j < Bound(p)
        ensures !p.cancelled(j)
      {
        assert !StoppedBefore(p, j);
      }
      assert LoneChallenge(p, k);
    }
    forall k: nat | k < Bound(p) && LoneChallenge(p, k)
      ensures FirstChallenge(p, k)
    {
    }
  }

  /** Such a run exists for every number of retries and every attempt of it: the loop reports a failure
      although the server answered attempt k. */
  lemma ChallengeCanBeLost(maxRetries: nat, k: nat) returns (p: Plan)
    requires k <= maxRetries
    ensures p.maxRetries == maxRetries && p.attempts(k) == Reply(403, true)
    ensures IsOutcome(p, Failed, maxRetries + 1) && forall r, calls | IsOutcome(p, r, calls) :: r == Failed
  {
    p := Plan(i => if i == k then Reply(403, true) else Errored, _ => false, maxRetries, {}, true, _ => true);
    ChallengeIsLost(p);
    forall r, calls | IsOutcome(p, r, calls)
      ensures r == Failed
    {
      OutcomeUnique(p, r, calls, Failed, Bound(p));
    }
  }

  /** One reply that ends the loop or not: a veto stops it, so does a reply that is neither a first challenge nor to be
      retried, and on the last attempt every reply but a first challenge. */
  lemma WhatEndsTheLoop(p: Plan, k: nat)
    requires !(k > 0 && p.cancelled(k))
    ensures var a := p.attempts(k);
            var first := Challenges(p, k) && forall j: nat | j < k :: !Challenges(p, j);
            && (a.Vetoed? ==> Ends(p, k))
            && (a.Errored? ==> !Ends(p, k))
            && (a.Reply? ==> (Ends(p, k) <==> !first && !(a.status in p.retryOn && k < p.maxRetries)))
  {
    ChallengeIffChallenges(p);
  }
}
