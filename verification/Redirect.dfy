/** The redirect section of doOnce (client/client.go): a recursion over whatever the server answers. */
module Redirect {
  import opened Wrappers

  /** Scheme, host and port as url.Parse and the default ports give them, in lower case. */
  datatype Origin = Origin(scheme: string, host: string, port: string)

  /** What the client takes from elsewhere: URL parsing (None when it fails or there is no scheme), URL
      joining, and case folding. Every claim holds for any choice of them. */
  datatype Env = Env(parse: string -> Option<Origin>, join: (string, string) -> string, lower: string -> string)

  type Headers = map<string, string>

  datatype Request = Request(verb: string, url: string, headers: Headers, auth: Option<string>, body: string)

  /** The caller's OnRedirect answer, if any: take the hop, stop at this response, or refuse. */
  datatype Verdict = Follow | UseLastResponse | Refuse

  /** One answer of the server. added holds the headers that the preset, the cookie jar and request
      normalisation put on the outgoing request, which are copied back into the caller's header map. */
  datatype Answer =
    | Failed
    | Reply(status: int, location: string, added: Headers, verdict: Verdict)

  datatype RedirectInfo = RedirectInfo(status: int, url: string)

  datatype Outcome =
    | Final(status: int, history: seq<RedirectInfo>)
    | InvalidUrl
    | NotHttps
    | TransportFailed
    | TooManyRedirects
    | MissingLocation
    | HookRefused

  /** The requests put on the wire, in order, and how the chain ended. */
  datatype Result = Result(sent: seq<Request>, outcome: Outcome)

  datatype Config = Config(followRedirects: bool, maxRedirects: int)

  // ----- One hop

  predicate IsRedirect(status: int)
  {
    status == 301 || status == 302 || status == 303 || status == 307 || status == 308
  }

  predicate SameOrigin(a: string, b: string, env: Env)
  {
    env.parse(a).Some? && env.parse(b).Some? && env.parse(a) == env.parse(b)
  }

  predicate SchemeDowngrade(a: string, b: string, env: Env)
  {
    && env.parse(a).Some? && env.parse(a).value.scheme == "https"
    && env.parse(b).Some? && env.parse(b).value.scheme == "http"
  }

  function MethodOf(req: Request): string
  {
    if req.verb == "" then "GET" else req.verb
  }

  function NextMethod(status: int, verb: string): string
  {
    if status == 303 || ((status == 301 || status == 302) && verb == "POST") then "GET" else verb
  }

  predicate AuthHeader(name: string, env: Env)
  {
    env.lower(name) == "authorization" || env.lower(name) == "proxy-authorization"
  }

  predicate HasHeader(headers: Headers, name: string, env: Env)
  {
    exists k | k in headers :: env.lower(k) == env.lower(name)
  }

  /** The caller's header map after sending: everything that went out, user entries kept. */
  function CopyBack(req: Request, added: Headers, env: Env): Headers
  {
    var withAuth := if req.auth.Some? then added["Authorization" := req.auth.value] else added;
    req.headers + map k | k in withAuth && !HasHeader(req.headers, k, env) :: withAuth[k]
  }

  function Carried(headers: Headers, crossOrigin: bool, downgrade: bool, env: Env): Headers
  {
    map k | k in headers &&
            !(downgrade && env.lower(k) == "referer") &&
            !((crossOrigin || downgrade) && AuthHeader(k, env)) :: headers[k]
  }

  function NextRequest(req: Request, status: int, location: string, added: Headers, env: Env): Request
  {
    var to := env.join(req.url, location);
    var downgrade := SchemeDowngrade(req.url, to, env);
    var crossOrigin := !SameOrigin(req.url, to, env);
    Request(
      NextMethod(status, MethodOf(req)),
      to,
      Carried(CopyBack(req, added, env), crossOrigin, downgrade, env),
      if downgrade || crossOrigin then None else req.auth,
      if status == 307 || status == 308 then req.body else "")
  }

  // ----- The chain

  /** How the chain ends at this request, or None when it takes the hop. */
  function Ends(req: Request, history: seq<RedirectInfo>, answer: Answer, cfg: Config, env: Env): Option<Result>
  {
    if env.parse(req.url).None? then Some(Result([], InvalidUrl))
    else if env.parse(req.url).value.scheme != "https" then Some(Result([], NotHttps))
    else if answer.Failed? then Some(Result([req], TransportFailed))
    else if !IsRedirect(answer.status) || !cfg.followRedirects then Some(Result([req], Final(answer.status, history)))
    else if |history| >= cfg.maxRedirects then Some(Result([req], TooManyRedirects))
    else if answer.location == "" then Some(Result([req], MissingLocation))
    else if answer.verdict == Refuse then Some(Result([req], HookRefused))
    else if answer.verdict == UseLastResponse then Some(Result([req], Final(answer.status, history)))
    else None
  }

  /** answers(i) is what the server says to the i-th request of the chain. */
  function DoOnce(req: Request, history: seq<RedirectInfo>, answers: nat -> Answer, cfg: Config, env: Env): Result
    decreases if cfg.maxRedirects > |history| then cfg.maxRedirects - |history| else 0
  {
    var a := answers(|history|);
    var end := Ends(req, history, a, cfg, env);
    if end.Some? then end.value
    else
      var rest := DoOnce(NextRequest(req, a.status, a.location, a.added, env),
                         history + [RedirectInfo(a.status, req.url)], answers, cfg, env);
      Result([req] + rest.sent, rest.outcome)
  }

  function Do(req: Request, answers: nat -> Answer, cfg: Config, env: Env): Result
  {
    DoOnce(req, [], answers, cfg, env)
  }

  /** The statuses that move a request: section 15.4 of RFC 9110 without 300, 304 and 305. */
  const REDIRECTS := {301, 302, 303, 307, 308}

  /** Hop k of a chain that starts at history position base. */
  ghost predicate HopTaken(sent: seq<Request>, k: nat, base: nat, answers: nat -> Answer, env: Env)
    requires k + 1 < |sent|
  {
    var a := answers(base + k);
    && a.Reply? && a.status in REDIRECTS && a.location != "" && a.verdict == Follow
    && sent[k + 1] == NextRequest(sent[k], a.status, a.location, a.added, env)
  }

  ghost predicate IsHttps(url: string, env: Env)
  {
    env.parse(url).Some? && env.parse(url).value.scheme == "https"
  }

  /** Every request but the first follows from the one before it and its answer. */
  ghost predicate Chained(sent: seq<Request>, base: nat, answers: nat -> Answer, env: Env)
  {
    && (forall k: nat | k + 1 < |sent| :: HopTaken(sent, k, base, answers, env))
    && (forall k | 0 <= k < |sent| :: IsHttps(sent[k].url, env))
  }

  lemma ChainedCons(req: Request, rest: seq<Request>, base: nat, answers: nat -> Answer, env: Env)
    requires IsHttps(req.url, env) && Chained(rest, base + 1, answers, env)
    requires rest != [] ==> HopTaken([req] + rest, 0, base, answers, env)
    ensures Chained([req] + rest, base, answers, env)
  {
    var sent := [req] + rest;
    forall k: nat | k + 1 < |sent|
      ensures HopTaken(sent, k, base, answers, env)
    {
      if k > 0 {
        assert HopTaken(rest, k - 1, base + 1, answers, env);
      }
    }
  }

  /** Everything about the shape of a chain: its length, its first request, how each request follows
      from the one before, and that all go to https URLs. */
  lemma {:induction false} ChainShape(req: Request, history: seq<RedirectInfo>, answers: nat -> Answer, cfg: Config,
                                      env: Env)
    ensures var r := DoOnce(req, history, answers, cfg, env);
            && |r.sent| <= 1 + (if cfg.maxRedirects > |history| then cfg.maxRedirects - |history| else 0)
            && (r.sent != [] ==> r.sent[0] == req)
            && Chained(r.sent, |history|, answers, env)
    decreases if cfg.maxRedirects > |history| then cfg.maxRedirects - |history| else 0
  {
    var a := answers(|history|);
    if Ends(req, history, a, cfg, env).None? {
      var next := NextRequest(req, a.status, a.location, a.added, env);
      var longer := history + [RedirectInfo(a.status, req.url)];
      ChainShape(next, longer, answers, cfg, env);
      ChainedCons(req, DoOnce(next, longer, answers, cfg, env).sent, |history|, answers, env);
    }
  }

  /** At most maxRedirects hops, so at most one request more than that, for every server. */
  lemma AtMostMaxRedirectsHops(req: Request, answers: nat -> Answer, cfg: Config, env: Env)
    ensures |Do(req, answers, cfg, env).sent| <= 1 + (if cfg.maxRedirects > 0 then cfg.maxRedirects else 0)
  {
    ChainShape(req, [], answers, cfg, env);
  }

  /** The history entry for hop k names that hop's status and URL, and the URL resolves to the next. */
  ghost predicate Linked(h: seq<RedirectInfo>, sent: seq<Request>, base: nat, k: nat, answers: nat -> Answer, env: Env)
  {
    var a := answers(base + k);
    && k + 1 < |sent| && base + k < |h| && a.Reply?
    && h[base + k] == RedirectInfo(a.status, sent[k].url)
    && sent[k + 1].url == env.join(sent[k].url, a.location)
  }

  /** Linking a shorter chain's history to the request before it. */
  lemma LinkedCons(h: seq<RedirectInfo>, req: Request, rest: seq<Request>, base: nat, next: nat,
                   answers: nat -> Answer, env: Env)
    requires next == base + 1 && rest != [] && |h| == base + |rest| && answers(base).Reply?
    requires h[base] == RedirectInfo(answers(base).status, req.url) &&
             rest[0].url == env.join(req.url, answers(base).location)
    requires forall k: nat | k < |rest| - 1 :: Linked(h, rest, next, k, answers, env)
    ensures forall k: nat | k < |rest| :: Linked(h, [req] + rest, base, k, answers, env)
  {
    forall k: nat | k < |rest|
      ensures Linked(h, [req] + rest, base, k, answers, env)
    {
      if k > 0 {
        assert Linked(h, rest, next, k - 1, answers, env);
      }
    }
  }

  lemma FinalIsSent(req: Request, history: seq<RedirectInfo>, answers: nat -> Answer, cfg: Config, env: Env)
    requires DoOnce(req, history, answers, cfg, env).outcome.Final?
    ensures var sent := DoOnce(req, history, answers, cfg, env).sent;
            sent != [] && sent[0] == req
  {
    ChainShape(req, history, answers, cfg, env);
  }

  /** A final response reports exactly the hops taken: the status and URL of every request but the last,
      each one's URL resolving to the next. */
  lemma {:induction false} HistoryLinksTheChain(req: Request, history: seq<RedirectInfo>, answers: nat -> Answer,
                                                cfg: Config, env: Env)
    ensures var r := DoOnce(req, history, answers, cfg, env);
            r.outcome.Final? ==>
              && |r.outcome.history| == |history| + |r.sent| - 1
              && history <= r.outcome.history
              && (forall k: nat | k < |r.sent| - 1 :: Linked(r.outcome.history, r.sent, |history|, k, answers, env))
    decreases if cfg.maxRedirects > |history| then cfg.maxRedirects - |history| else 0
  {
    var a := answers(|history|);
    if Ends(req, history, a, cfg, env).None? {
      var next := NextRequest(req, a.status, a.location, a.added, env);
      var longer := history + [RedirectInfo(a.status, req.url)];
      var rest := DoOnce(next, longer, answers, cfg, env);
      HistoryLinksTheChain(next, longer, answers, cfg, env);
      if rest.outcome.Final? {
        FinalIsSent(next, longer, answers, cfg, env);
        assert rest.outcome.history[|history|] == longer[|history|];
        LinkedCons(rest.outcome.history, req, rest.sent, |history|, |longer|, answers, env);
      }
    }
  }

  /** Request k + 1 of a whole chain follows from request k. */
  lemma HopOf(req: Request, answers: nat -> Answer, cfg: Config, env: Env, k: nat)
    requires k + 1 < |Do(req, answers, cfg, env).sent|
    ensures var sent, a := Do(req, answers, cfg, env).sent, answers(k);
            sent[0] == req && a.Reply? && sent[k + 1] == NextRequest(sent[k], a.status, a.location, a.added, env)
  {
    ChainShape(req, [], answers, cfg, env);
    assert HopTaken(Do(req, answers, cfg, env).sent, k, 0, answers, env);
  }

  lemma FirstRequest(req: Request, answers: nat -> Answer, cfg: Config, env: Env)
    requires Do(req, answers, cfg, env).sent != []
    ensures Do(req, answers, cfg, env).sent[0] == req
  {
    ChainShape(req, [], answers, cfg, env);
  }

  ghost predicate KeepsBody(a: Answer)
  {
    a.Reply? && (a.status == 307 || a.status == 308)
  }

  /** The caller's body reaches hop k exactly when every earlier answer was 307 or 308; otherwise that
      hop has no body. */
  lemma {:induction false} BodyReachesHop(req: Request, answers: nat -> Answer, cfg: Config, env: Env, k: nat)
    requires k < |Do(req, answers, cfg, env).sent|
    ensures Do(req, answers, cfg, env).sent[k].body ==
            if forall j: nat | j < k :: KeepsBody(answers(j)) then req.body else ""
  {
    if k == 0 {
      FirstRequest(req, answers, cfg, env);
    } else {
      BodyReachesHop(req, answers, cfg, env, k - 1);
      HopOf(req, answers, cfg, env, k - 1);
    }
  }

  /** An answer that turns a request of this method into a GET. */
  ghost predicate TurnsIntoGet(a: Answer, verb: string)
  {
    a.Reply? && (a.status == 303 || ((a.status == 301 || a.status == 302) && verb == "POST"))
  }

  lemma {:induction false} VerbAlong(sent: seq<Request>, answers: nat -> Answer, env: Env, k: nat)
    requires k < |sent| && Chained(sent, 0, answers, env)
    ensures MethodOf(sent[k]) ==
            if exists j: nat :: j < k && TurnsIntoGet(answers(j), MethodOf(sent[0])) then "GET" else MethodOf(sent[0])
  {
    if k > 0 {
      VerbAlong(sent, answers, env, k - 1);
      assert HopTaken(sent, k - 1, 0, answers, env);
      assert TurnsIntoGet(answers(k - 1), MethodOf(sent[0])) ==>
               exists j: nat :: j < k && TurnsIntoGet(answers(j), MethodOf(sent[0]));
    }
  }

  /** Hop k keeps the caller's method unless an earlier answer was 303, or was 301 or 302 to a POST; from
      then on it is GET and stays GET. */
  lemma VerbAtHop(req: Request, answers: nat -> Answer, cfg: Config, env: Env, k: nat)
    requires k < |Do(req, answers, cfg, env).sent|
    ensures var verb := if req.verb == "" then "GET" else req.verb;
            MethodOf(Do(req, answers, cfg, env).sent[k]) ==
            if exists j: nat :: j < k && TurnsIntoGet(answers(j), verb) then "GET" else verb
  {
    ChainShape(req, [], answers, cfg, env);
    VerbAlong(Do(req, answers, cfg, env).sent, answers, env, k);
  }

  // ----- How a chain ends

  ghost predicate Redirected(a: Answer, cfg: Config)
  {
    a.Reply? && a.status in REDIRECTS && cfg.followRedirects
  }

  /** What the outcome says of the last answer, and of the URL that was not requested. */
  ghost predicate EndsRightly(req: Request, r: Result, base: nat, answers: nat -> Answer, cfg: Config, env: Env)
  {
    var n := |r.sent|;
    if n == 0 then
      || (r.outcome == InvalidUrl && env.parse(req.url).None?)
      || (r.outcome == NotHttps && env.parse(req.url).Some? && env.parse(req.url).value.scheme != "https")
    else
      var a := answers(base + n - 1);
      match r.outcome
      case TransportFailed => a.Failed?
      case Final(status, _) =>
        && a.Reply? && a.status == status
        && (|| !cfg.followRedirects || status !in REDIRECTS
            || (a.verdict == UseLastResponse && a.location != "" && base + n <= cfg.maxRedirects))
      case InvalidUrl => a.Reply? && env.parse(env.join(r.sent[n - 1].url, a.location)).None?
      case NotHttps =>
        var to := env.parse(env.join(r.sent[n - 1].url, if a.Reply? then a.location else ""));
        a.Reply? && to.Some? && to.value.scheme != "https"
      case TooManyRedirects => Redirected(a, cfg) && base + n > cfg.maxRedirects
      case MissingLocation => Redirected(a, cfg) && base + n <= cfg.maxRedirects && a.location == ""
      case HookRefused =>
        Redirected(a, cfg) && base + n <= cfg.maxRedirects && a.location != "" && a.verdict == Refuse
  }

  lemma EndsRightlyCons(req: Request, next: Request, rest: Result, base: nat, after: nat, answers: nat -> Answer,
                        cfg: Config, env: Env)
    requires after == base + 1 && EndsRightly(next, rest, after, answers, cfg, env)
    requires answers(base).Reply? && next.url == env.join(req.url, answers(base).location)
    ensures EndsRightly(req, Result([req] + rest.sent, rest.outcome), base, answers, cfg, env)
  {
    if rest.sent != [] {
      assert ([req] + rest.sent)[|rest.sent|] == rest.sent[|rest.sent| - 1];
    }
  }

  /** A chain goes on exactly while the answers redirect, and its outcome names what stopped it. */
  lemma {:induction false} OutcomeNamesTheEnd(req: Request, history: seq<RedirectInfo>, answers: nat -> Answer,
                                              cfg: Config, env: Env)
    ensures EndsRightly(req, DoOnce(req, history, answers, cfg, env), |history|, answers, cfg, env)
    decreases if cfg.maxRedirects > |history| then cfg.maxRedirects - |history| else 0
  {
    var a := answers(|history|);
    if Ends(req, history, a, cfg, env).None? {
      var next := NextRequest(req, a.status, a.location, a.added, env);
      var longer := history + [RedirectInfo(a.status, req.url)];
      OutcomeNamesTheEnd(next, longer, answers, cfg, env);
      var rest := DoOnce(next, longer, answers, cfg, env);
      EndsRightlyCons(req, next, rest, |history|, |longer|, answers, cfg, env);
    }
  }

  // ----- Auth

  /** Every URL up to the k-th has the scheme, host and port of the first. */
  ghost predicate OnOrigin(sent: seq<Request>, k: nat, env: Env)
    requires k < |sent|
  {
    forall j: nat | j <= k :: env.parse(sent[j].url) == env.parse(sent[0].url)
  }

  lemma {:induction false} AuthAlong(sent: seq<Request>, answers: nat -> Answer, env: Env, k: nat)
    requires k < |sent| && Chained(sent, 0, answers, env)
    ensures sent[k].auth == if OnOrigin(sent, k, env) then sent[0].auth else None
  {
    if k > 0 {
      AuthAlong(sent, answers, env, k - 1);
      assert HopTaken(sent, k - 1, 0, answers, env);
      assert IsHttps(sent[k].url, env) && IsHttps(sent[k - 1].url, env);
      assert OnOrigin(sent, k, env) <==>
             OnOrigin(sent, k - 1, env) && env.parse(sent[k].url) == env.parse(sent[0].url);
    }
  }

  /** The caller's credentials ride along exactly while every URL keeps the scheme, host and port of the
      first. */
  lemma AuthFollowsOrigin(req: Request, answers: nat -> Answer, cfg: Config, env: Env, k: nat)
    requires k < |Do(req, answers, cfg, env).sent|
    ensures var sent := Do(req, answers, cfg, env).sent;
            sent[k].auth ==
            if forall j: nat | j <= k :: env.parse(sent[j].url) == env.parse(req.url) then req.auth else None
  {
    ChainShape(req, [], answers, cfg, env);
    AuthAlong(Do(req, answers, cfg, env).sent, answers, env, k);
  }

  ghost predicate NoAuthHeaders(headers: Headers, env: Env)
  {
    forall h | h in headers :: env.lower(h) != "authorization" && env.lower(h) != "proxy-authorization"
  }

  lemma HopDropsAuthHeaders(req: Request, a: Answer, env: Env)
    requires a.Reply? && !SameOrigin(req.url, env.join(req.url, a.location), env)
    ensures NoAuthHeaders(NextRequest(req, a.status, a.location, a.added, env).headers, env)
  {
  }

  lemma HopAddsNoAuthHeaders(req: Request, a: Answer, env: Env)
    requires a.Reply? && req.auth.None? && NoAuthHeaders(req.headers, env) && NoAuthHeaders(a.added, env)
    ensures NoAuthHeaders(NextRequest(req, a.status, a.location, a.added, env).headers, env)
  {
    assert forall h | h in CopyBack(req, a.added, env) :: h in req.headers || h in a.added;
  }

  lemma {:induction false} NoAuthAlong(sent: seq<Request>, answers: nat -> Answer, env: Env, k: nat)
    requires k < |sent| && Chained(sent, 0, answers, env) && !OnOrigin(sent, k, env)
    requires forall i: nat | answers(i).Reply? :: NoAuthHeaders(answers(i).added, env)
    ensures sent[k].auth == None && NoAuthHeaders(sent[k].headers, env)
  {
    AuthAlong(sent, answers, env, k);
    assert HopTaken(sent, k - 1, 0, answers, env);
    if SameOrigin(sent[k - 1].url, sent[k].url, env) {
      assert !OnOrigin(sent, k - 1, env);
      NoAuthAlong(sent, answers, env, k - 1);
      HopAddsNoAuthHeaders(sent[k - 1], answers(k - 1), env);
    } else {
      HopDropsAuthHeaders(sent[k - 1], answers(k - 1), env);
    }
  }

  /** From the first URL with another scheme, host or port on, no request carries the caller's auth: neither as
      such nor as an Authorization or Proxy-Authorization header, although sent headers are copied back into
      the map that the next hop inherits. */
  lemma NoAuthOffOrigin(req: Request, answers: nat -> Answer, cfg: Config, env: Env, k: nat)
    requires k < |Do(req, answers, cfg, env).sent|
    requires exists j: nat ::
               j <= k && env.parse(Do(req, answers, cfg, env).sent[j].url) != env.parse(req.url)
    requires forall i: nat | answers(i).Reply? :: NoAuthHeaders(answers(i).added, env)
    ensures var sent := Do(req, answers, cfg, env).sent;
            sent[k].auth == None && NoAuthHeaders(sent[k].headers, env)
  {
    ChainShape(req, [], answers, cfg, env);
    NoAuthAlong(Do(req, answers, cfg, env).sent, answers, env, k);
  }

  /** A hop that stays on the origin keeps every header that went out: the caller's, what the client added
      where the caller had none of that name, and the auth it applied. */
  lemma SameOriginKeepsHeaders(req: Request, status: int, location: string, added: Headers, env: Env, h: string)
    requires env.parse(req.url).Some? && env.parse(req.url).value.scheme == "https"
    requires env.parse(env.join(req.url, location)) == env.parse(req.url)
    ensures var next := NextRequest(req, status, location, added, env).headers;
            var callers := exists k :: k in req.headers && env.lower(k) == env.lower(h);
            && (h in req.headers ==> h in next && next[h] == req.headers[h])
            && (h in added && !callers && h != "Authorization" ==> h in next && next[h] == added[h])
            && (h == "Authorization" && req.auth.Some? && !callers ==> h in next && next[h] == req.auth.value)
  {
  }

  // ----- Cookies

  /** The jar had a cookie for the i-th request. */
  predicate JarServes(answers: nat -> Answer, i: nat)
  {
    answers(i).Reply? && "Cookie" in answers(i).added
  }

  /** The first of the first k requests for which the jar had a cookie. */
  function FirstServed(answers: nat -> Answer, k: nat): (j: Option<nat>)
    ensures j.Some? ==>
              j.value < k && JarServes(answers, j.value) &&
              forall i: nat | i < j.value :: !JarServes(answers, i)
    ensures j.None? ==> forall i: nat | i < k :: !JarServes(answers, i)
  {
    if k == 0 then None
    else
      var before := FirstServed(answers, k - 1);
      if before.Some? then before else if JarServes(answers, k - 1) then Some(k - 1) else None
  }

  function CookieIn(headers: Headers): Option<string>
  {
    if "Cookie" in headers then Some(headers["Cookie"]) else None
  }

  /** The Cookie header that the i-th request is sent with: the jar's for that URL, which replaces any
      other, else the one in the request's header map. */
  function CookieOnWire(req: Request, answers: nat -> Answer, i: nat): Option<string>
  {
    if JarServes(answers, i) then CookieIn(answers(i).added) else CookieIn(req.headers)
  }

  /** The only spelling of the header is the one that the client itself uses. */
  ghost predicate PlainCookie(headers: Headers, env: Env)
  {
    forall h | h in headers && env.lower(h) == "cookie" :: h == "Cookie"
  }

  ghost predicate CookieSpelling(answers: nat -> Answer, env: Env)
  {
    && env.lower("Cookie") == "cookie" && env.lower("Authorization") == "authorization"
    && forall i: nat | answers(i).Reply? :: PlainCookie(answers(i).added, env)
  }

  lemma CookieAfterHop(req: Request, a: Answer, env: Env)
    requires a.Reply? && env.lower("Cookie") == "cookie" && env.lower("Authorization") == "authorization"
    requires PlainCookie(a.added, env) && PlainCookie(req.headers, env)
    ensures var next := NextRequest(req, a.status, a.location, a.added, env).headers;
            && PlainCookie(next, env)
            && CookieIn(next) == if CookieIn(req.headers).Some? then CookieIn(req.headers) else CookieIn(a.added)
  {
    assert HasHeader(req.headers, "Cookie", env) <==> "Cookie" in req.headers;
  }

  /** The cookie that request k inherits: the caller's, if there is one, else the jar's first in the chain. */
  function Inherited(caller: Headers, answers: nat -> Answer, k: nat): Option<string>
  {
    var first := FirstServed(answers, k);
    if CookieIn(caller).Some? then CookieIn(caller)
    else if first.Some? then CookieIn(answers(first.value).added)
    else None
  }

  /** What the header map of request k says of cookies, whatever the origins of the hops before it. */
  lemma {:induction false} CookieInMap(sent: seq<Request>, answers: nat -> Answer, env: Env, k: nat)
    requires k < |sent| && Chained(sent, 0, answers, env) && CookieSpelling(answers, env)
    requires PlainCookie(sent[0].headers, env)
    ensures PlainCookie(sent[k].headers, env) && CookieIn(sent[k].headers) == Inherited(sent[0].headers, answers, k)
  {
    if k > 0 {
      CookieInMap(sent, answers, env, k - 1);
      assert HopTaken(sent, k - 1, 0, answers, env);
      CookieAfterHop(sent[k - 1], answers(k - 1), env);
    }
  }

  /** Cookies do not stay on their origin. Request k goes out with a cookie that the jar did not choose for it
      exactly when the jar has none for its URL, and the caller set one or the jar had one for an earlier
      request; it is the caller's, else the first of the jar's, and that request may be of any origin. */
  lemma ForeignCookieIff(req: Request, answers: nat -> Answer, cfg: Config, env: Env, k: nat)
    requires k < |Do(req, answers, cfg, env).sent| && CookieSpelling(answers, env) && PlainCookie(req.headers, env)
    ensures var cookie := CookieOnWire(Do(req, answers, cfg, env).sent[k], answers, k);
            !JarServes(answers, k) ==>
              && cookie == Inherited(req.headers, answers, k)
              && (cookie.Some? <==> "Cookie" in req.headers || exists j: nat :: j < k && JarServes(answers, j))
  {
    ChainShape(req, [], answers, cfg, env);
    CookieInMap(Do(req, answers, cfg, env).sent, answers, env, k);
  }

  lemma {:induction false} HeaderAlong(sent: seq<Request>, answers: nat -> Answer, env: Env, k: nat, h: string)
    requires k < |sent| && Chained(sent, 0, answers, env) && h in sent[0].headers
    requires env.lower(h) !in {"authorization", "proxy-authorization", "referer"}
    ensures h in sent[k].headers && sent[k].headers[h] == sent[0].headers[h]
  {
    if k > 0 {
      HeaderAlong(sent, answers, env, k - 1, h);
      assert HopTaken(sent, k - 1, 0, answers, env);
    }
  }

  /** Under any spelling, a header of the caller's that is neither auth nor Referer reaches every request of
      the chain. */
  lemma CallersHeaderStays(req: Request, answers: nat -> Answer, cfg: Config, env: Env, k: nat, h: string)
    requires k < |Do(req, answers, cfg, env).sent| && h in req.headers
    requires env.lower(h) !in {"authorization", "proxy-authorization", "referer"}
    ensures var headers := Do(req, answers, cfg, env).sent[k].headers;
            h in headers && headers[h] == req.headers[h]
  {
    ChainShape(req, [], answers, cfg, env);
    HeaderAlong(Do(req, answers, cfg, env).sent, answers, env, k, h);
  }

  /** A server that redirects the first request and answers the second. */
  function OneRedirect(to: string, added: Headers): nat -> Answer
  {
    i => if i == 0 then Reply(302, to, added, Follow) else Reply(200, "", map[], Follow)
  }

  lemma TwoRequests(req: Request, to: string, added: Headers, cfg: Config, env: Env)
    requires cfg.followRedirects && cfg.maxRedirects > 0 && to != ""
    requires IsHttps(req.url, env) && IsHttps(env.join(req.url, to), env)
    ensures Do(req, OneRedirect(to, added), cfg, env).sent == [req, NextRequest(req, 302, to, added, env)]
  {
    var answers := OneRedirect(to, added);
    var next := NextRequest(req, 302, to, added, env);
    var history := [RedirectInfo(302, req.url)];
    assert [] + history == history;
    assert DoOnce(next, history, answers, cfg, env) == Result([next], Final(200, history));
  }

  /** Such a hop exists between any two https URLs of different origins: the second request carries the
      cookie that the jar gave the first. */
  lemma CookieCanLeaveOrigin(req: Request, to: string, cfg: Config, env: Env) returns (answers: nat -> Answer)
    requires cfg.followRedirects && cfg.maxRedirects > 0 && to != "" && !HasHeader(req.headers, "Cookie", env)
    requires IsHttps(req.url, env) && IsHttps(env.join(req.url, to), env) &&
             env.parse(req.url) != env.parse(env.join(req.url, to))
    requires env.lower("Cookie") == "cookie" && env.lower("Authorization") == "authorization"
    ensures var sent := Do(req, answers, cfg, env).sent;
            && |sent| == 2 && env.parse(sent[0].url) != env.parse(sent[1].url)
            && !JarServes(answers, 1)
            && CookieOnWire(sent[1], answers, 1) == CookieOnWire(sent[0], answers, 0) == Some("id=1")
  {
    var jar: Headers := map["Cookie" := "id=1"];
    answers := OneRedirect(to, jar);
    TwoRequests(req, to, jar, cfg, env);
    CookieAfterHop(req, answers(0), env);
  }
}
