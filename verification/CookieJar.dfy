/** The cookie jar (client/cookiejar.go, client/cookie.go): a domain-keyed index that must answer
    like a flat scan of every stored cookie (sections 5.3 and 5.4 of RFC 6265). */
module CookieJar {
  import opened Text
  import opened Wrappers

  type Time = int

  /** expires is None for a session cookie. */
  datatype Cookie = Cookie(name: string, value: string, domain: string, path: string,
                           expires: Option<Time>, maxAge: int, secure: bool)

  datatype Url = Url(scheme: string, host: string, path: string)

  type Jar = map<string, seq<Cookie>>

  /** strings.ToLower; nothing below depends on what it computes. */
  type Lower = string -> string

  // ----- Matching one cookie against a URL

  function LastColon(s: string, n: nat): (i: int)
    requires n <= |s|
    ensures -1 <= i < n && (i >= 0 ==> s[i] == ':')
  {
    if n == 0 then -1 else if s[n - 1] == ':' then n - 1 else LastColon(s, n - 1)
  }

  function CutPort(host: string): string
  {
    var i := LastColon(host, |host|);
    if i == -1 then host else host[..i]
  }

  function HostOf(u: Url, lower: Lower): string
  {
    lower(CutPort(u.host))
  }

  predicate EndsWith(s: string, t: string)
  {
    |t| <= |s| && s[|s| - |t|..] == t
  }

  predicate DomainMatches(domain: string, host: string)
  {
    || host == domain
    || (domain != "" && domain[0] == '.' && (host == domain[1..] || EndsWith(host, domain)))
  }

  predicate PathMatches(cookiePath: string, urlPath: string)
  {
    var path := if urlPath == "" then "/" else urlPath;
    || cookiePath == "" || cookiePath == "/"
    || (cookiePath <= path &&
        (|path| == |cookiePath| || path[|cookiePath|] == '/' || cookiePath[|cookiePath| - 1] == '/'))
  }

  predicate Matches(c: Cookie, u: Url, lower: Lower)
  {
    && DomainMatches(lower(c.domain), HostOf(u, lower))
    && PathMatches(c.path, u.path)
    && (c.secure ==> u.scheme == "https")
  }

  predicate Expired(c: Cookie, now: Time)
  {
    c.maxAge < 0 || (c.expires.Some? && now > c.expires.value)
  }

  /** The cookie would be sent for u at time now. */
  predicate Served(c: Cookie, u: Url, now: Time, lower: Lower)
  {
    !Expired(c, now) && Matches(c, u, lower)
  }

  // ----- Matching as RFC 6265 states it

  /** Section 5.1.4: identical, or a prefix that ends in a slash or is followed by one. */
  ghost predicate RfcPathMatch(cookiePath: string, path: string)
  {
    || cookiePath == path
    || exists rest :: path == cookiePath + rest && rest != "" &&
                      ((cookiePath != "" && cookiePath[|cookiePath| - 1] == '/') || rest[0] == '/')
  }

  /** The path test is the RFC's, except that a cookie path of "" or "/" also accepts a request path that
      does not begin with a slash. */
  lemma PathMatchesIffRfc(cookiePath: string, urlPath: string)
    ensures var path := if urlPath == "" then "/" else urlPath;
            (PathMatches(cookiePath, urlPath) <==> RfcPathMatch(cookiePath, path)) <==>
            !((cookiePath == "" || cookiePath == "/") && path[0] != '/')
  {
    var path := if urlPath == "" then "/" else urlPath;
    if cookiePath <= path {
      var rest := path[|cookiePath|..];
      assert path == cookiePath + rest;
    } else {
      assert forall rest :: path == cookiePath + rest ==> cookiePath <= path;
    }
  }

  /** Section 5.1.3: a domain cookie for d matches d itself and every name that ends in a dot and d; a
      host-only cookie matches its own host alone. */
  lemma DomainMatchesAsRfc(d: string, host: string)
    ensures DomainMatches("." + d, host) <==> host == d || exists sub :: host == sub + ("." + d)
    ensures (d == "" || d[0] != '.') ==> (DomainMatches(d, host) <==> host == d)
  {
    var dotted := "." + d;
    assert dotted[1..] == d;
    if EndsWith(host, dotted) {
      var sub := host[..|host| - |dotted|];
      assert host == sub + dotted;
    }
    forall sub | host == sub + dotted
      ensures EndsWith(host, dotted)
    {
    }
  }

  /** name is the host without its port: what stands before the last colon, if there is one. */
  ghost predicate WithoutPort(host: string, name: string)
  {
    || (':' !in host && name == host)
    || exists port :: host == name + (":" + port) && ':' !in port
  }

  lemma {:induction false} LastColonIsLast(s: string, n: nat)
    requires n <= |s|
    ensures forall k | LastColon(s, n) < k < n :: s[k] != ':'
    decreases n
  {
    if n > 0 && s[n - 1] != ':' {
      LastColonIsLast(s, n - 1);
    }
  }

  /** A cut with no colon after it is at the last colon. */
  lemma CutAtLastColon(host: string, name: string, port: string)
    requires host == name + (":" + port) && ':' !in port
    ensures LastColon(host, |host|) == |name| && name == host[..|name|]
  {
    LastColonIsLast(host, |host|);
    assert host[|name|] == ':' && forall k | |name| < k < |host| :: host[k] == port[k - |name| - 1];
  }

  lemma CutPortIffWithoutPort(host: string, name: string)
    ensures WithoutPort(host, name) <==> name == CutPort(host)
  {
    LastColonIsLast(host, |host|);
    var i := LastColon(host, |host|);
    if i >= 0 {
      assert host == host[..i] + (":" + host[i + 1..]);
    }
    forall port | host == name + (":" + port) && ':' !in port
      ensures name == CutPort(host)
    {
      CutAtLastColon(host, name, port);
    }
  }

  /** Section 5.1.3: a domain cookie matches its domain and every name that ends in it, another its own host. */
  ghost predicate RfcDomainMatch(domain: string, host: string)
  {
    if domain != "" && domain[0] == '.' then host == domain[1..] || exists sub :: host == sub + domain
    else host == domain
  }

  /** Section 5.4: the cookie is one to send for u at time now. The one departure is that a cookie path of "" or
      "/" accepts any request path. */
  ghost predicate Retrieved(c: Cookie, u: Url, now: Time, lower: Lower)
  {
    && (exists name :: WithoutPort(u.host, name) && RfcDomainMatch(lower(c.domain), lower(name)))
    && (c.path == "" || c.path == "/" || RfcPathMatch(c.path, if u.path == "" then "/" else u.path))
    && (c.secure ==> u.scheme == "https")
    && c.maxAge >= 0 && (c.expires.Some? ==> now <= c.expires.value)
  }

  lemma PathMatchesIffRfcOrRoot(cookiePath: string, urlPath: string)
    ensures PathMatches(cookiePath, urlPath) <==>
            cookiePath == "" || cookiePath == "/" || RfcPathMatch(cookiePath, if urlPath == "" then "/" else urlPath)
  {
    PathMatchesIffRfc(cookiePath, urlPath);
  }

  lemma DomainMatchesIffRfc(domain: string, host: string)
    ensures DomainMatches(domain, host) <==> RfcDomainMatch(domain, host)
  {
    if domain != "" && domain[0] == '.' {
      assert domain == "." + domain[1..];
      DomainMatchesAsRfc(domain[1..], host);
    } else {
      DomainMatchesAsRfc(domain, host);
    }
  }

  /** What the jar serves is what the RFC retrieves. */
  lemma ServedIffRetrieved(c: Cookie, u: Url, now: Time, lower: Lower)
    ensures Served(c, u, now, lower) <==> Retrieved(c, u, now, lower)
  {
    CutPortIffWithoutPort(u.host, CutPort(u.host));
    forall name
      ensures WithoutPort(u.host, name) <==> name == CutPort(u.host)
    {
      CutPortIffWithoutPort(u.host, name);
    }
    DomainMatchesIffRfc(lower(c.domain), HostOf(u, lower));
    PathMatchesIffRfcOrRoot(c.path, u.path);
  }

  // ----- The index

  function DomainKey(domain: string, lower: Lower): string
  {
    var d := lower(domain);
    if d != "" && d[0] == '.' then d[1..] else d
  }

  /** The parent domains of a host, longest first: the text after each dot. */
  function Parents(host: string): seq<string>
  {
    if host == "" then []
    else if host[0] == '.' then [host[1..]] + Parents(host[1..])
    else Parents(host[1..])
  }

  function Present(jar: Jar, ds: seq<string>): (r: seq<string>)
    ensures forall d :: d in r <==> d in ds && d in jar
  {
    if ds == [] then []
    else if ds[0] in jar then [ds[0]] + Present(jar, ds[1..])
    else Present(jar, ds[1..])
  }

  function MatchingDomains(jar: Jar, host: string): seq<string>
  {
    Present(jar, [host] + Parents(host))
  }

  function Pick(cs: seq<Cookie>, u: Url, now: Time, lower: Lower): (r: seq<Cookie>)
    ensures forall c | c in r :: c in cs && Served(c, u, now, lower)
  {
    if cs == [] then []
    else if Served(cs[0], u, now, lower) then [cs[0]] + Pick(cs[1..], u, now, lower)
    else Pick(cs[1..], u, now, lower)
  }

  /** Every served cookie of the given buckets, bucket by bucket. */
  function Scan(jar: Jar, keys: seq<string>, u: Url, now: Time, lower: Lower): seq<Cookie>
  {
    if keys == [] then []
    else (if keys[0] in jar then Pick(jar[keys[0]], u, now, lower) else []) + Scan(jar, keys[1..], u, now, lower)
  }

  /** What the jar answers before sorting. */
  function Found(jar: Jar, u: Url, now: Time, lower: Lower): seq<Cookie>
  {
    Scan(jar, MatchingDomains(jar, HostOf(u, lower)), u, now, lower)
  }

  // ----- The operations, on values

  predicate SameSlot(a: Cookie, b: Cookie)
  {
    a.name == b.name && a.path == b.path
  }

  function Without(cs: seq<Cookie>, c: Cookie): (r: seq<Cookie>)
    ensures forall x :: x in r <==> x in cs && !SameSlot(x, c)
  {
    if cs == [] then []
    else if SameSlot(cs[0], c) then Without(cs[1..], c)
    else [cs[0]] + Without(cs[1..], c)
  }

  function Bucket(jar: Jar, key: string): seq<Cookie>
  {
    if key in jar then jar[key] else []
  }

  /** One turn of the SetCookies loop; a nil or nameless cookie is skipped. */
  function SetOne(jar: Jar, c: Option<Cookie>, now: Time, lower: Lower): Jar
  {
    if c.None? || c.value.name == "" then jar
    else
      var key := DomainKey(c.value.domain, lower);
      var kept := Without(Bucket(jar, key), c.value);
      jar[key := if Expired(c.value, now) then kept else kept + [c.value]]
  }

  /** nows[i] is the clock reading made for the i-th cookie. */
  function SetAll(jar: Jar, cs: seq<Option<Cookie>>, nows: seq<Time>, lower: Lower): Jar
    requires |cs| == |nows|
  {
    if cs == [] then jar
    else
      var n := |cs| - 1;
      SetOne(SetAll(jar, cs[..n], nows[..n], lower), cs[n], nows[n], lower)
  }

  predicate KeptByClear(c: Cookie, now: Time)
  {
    c.maxAge >= 0 && (c.expires.None? || now < c.expires.value)
  }

  function Unexpired(cs: seq<Cookie>, now: Time): (r: seq<Cookie>)
    ensures forall c :: c in r <==> c in cs && KeptByClear(c, now)
  {
    if cs == [] then []
    else if KeptByClear(cs[0], now) then [cs[0]] + Unexpired(cs[1..], now)
    else Unexpired(cs[1..], now)
  }

  function ClearedExpired(jar: Jar, now: Time): Jar
  {
    map k | k in jar && Unexpired(jar[k], now) != [] :: Unexpired(jar[k], now)
  }

  /** The jar while ClearExpired still has the buckets in todo to visit. */
  function PartlyCleared(jar: Jar, now: Time, todo: set<string>): Jar
  {
    map k | k in jar && (k in todo || Unexpired(jar[k], now) != []) ::
      if k in todo then jar[k] else Unexpired(jar[k], now)
  }

  lemma ClearOneMore(jar: Jar, now: Time, todo: set<string>, d: string)
    requires todo <= jar.Keys && d in todo
    ensures var m := PartlyCleared(jar, now, todo);
            && d in m && m[d] == jar[d]
            && PartlyCleared(jar, now, todo - {d}) ==
               if Unexpired(jar[d], now) != [] then m[d := Unexpired(jar[d], now)] else m - {d}
  {
  }

  lemma ClearBounds(jar: Jar, now: Time)
    ensures PartlyCleared(jar, now, {}) == ClearedExpired(jar, now) && PartlyCleared(jar, now, jar.Keys) == jar
  {
  }

  lemma {:induction false} ScanServes(jar: Jar, keys: seq<string>, u: Url, now: Time, lower: Lower)
    ensures forall c | c in Scan(jar, keys, u, now, lower) :: Served(c, u, now, lower)
  {
    if keys != [] {
      ScanServes(jar, keys[1..], u, now, lower);
    }
  }

  ghost predicate AllRetrieved(cs: seq<Cookie>, u: Url, now: Time, lower: Lower)
  {
    forall c | c in cs :: Retrieved(c, u, now, lower)
  }

  lemma SameCookiesRetrieved(cs: seq<Cookie>, r: seq<Cookie>, u: Url, now: Time, lower: Lower)
    requires AllRetrieved(cs, u, now, lower) && multiset(r) == multiset(cs)
    ensures AllRetrieved(r, u, now, lower)
  {
    forall c | c in r
      ensures c in cs
    {
      assert c in multiset(r);
    }
  }

  lemma OnlyRetrieved(jar: Jar, keys: seq<string>, u: Url, now: Time, lower: Lower)
    ensures AllRetrieved(Scan(jar, keys, u, now, lower), u, now, lower)
  {
    ScanServes(jar, keys, u, now, lower);
    forall c | c in Scan(jar, keys, u, now, lower)
      ensures Retrieved(c, u, now, lower)
    {
      ServedIffRetrieved(c, u, now, lower);
    }
  }

  // ----- The jar object

  method FilterSlot(cs: seq<Cookie>, c: Cookie) returns (r: seq<Cookie>)
    ensures r == Without(cs, c)
  {
    r := [];
    for i := 0 to |cs|
      invariant r + Without(cs[i..], c) == Without(cs, c)
    {
      assert cs[i..][0] == cs[i] && cs[i..][1..] == cs[i + 1..];
      if cs[i].name != c.name || cs[i].path != c.path {
        r := r + [cs[i]];
      }
    }
  }

  method FilterUnexpired(cs: seq<Cookie>, now: Time) returns (r: seq<Cookie>)
    ensures r == Unexpired(cs, now)
  {
    r := [];
    for i := 0 to |cs|
      invariant r + Unexpired(cs[i..], now) == Unexpired(cs, now)
    {
      assert cs[i..][0] == cs[i] && cs[i..][1..] == cs[i + 1..];
      if cs[i].maxAge >= 0 && (cs[i].expires.None? || now < cs[i].expires.value) {
        r := r + [cs[i]];
      }
    }
  }

  lemma PickStep(cs: seq<Cookie>, i: nat, u: Url, now: Time, lower: Lower)
    requires i < |cs|
    ensures Pick(cs[i..], u, now, lower) ==
            (if Served(cs[i], u, now, lower) then [cs[i]] else []) + Pick(cs[i + 1..], u, now, lower)
  {
    assert cs[i..][0] == cs[i] && cs[i..][1..] == cs[i + 1..];
  }

  method FilterServed(cs: seq<Cookie>, u: Url, now: Time, lower: Lower) returns (r: seq<Cookie>)
    ensures r == Pick(cs, u, now, lower)
  {
    r := [];
    assert cs[0..] == cs;
    for i := 0 to |cs|
      invariant r + Pick(cs[i..], u, now, lower) == Pick(cs, u, now, lower)
    {
      PickStep(cs, i, u, now, lower);
      var expired := cs[i].maxAge < 0 || (cs[i].expires.Some? && now > cs[i].expires.value);
      if !expired && Matches(cs[i], u, lower) {
        r := r + [cs[i]];
      }
    }
    assert Pick(cs[|cs|..], u, now, lower) == [];
  }

  lemma {:induction false} PresentAppend(jar: Jar, xs: seq<string>, ys: seq<string>)
    ensures Present(jar, xs + ys) == Present(jar, xs) + Present(jar, ys)
  {
    if xs == [] {
      assert xs + ys == ys;
    } else {
      assert (xs + ys)[1..] == xs[1..] + ys;
      PresentAppend(jar, xs[1..], ys);
    }
  }

  lemma PresentStep(jar: Jar, ds: seq<string>, i: nat)
    requires i < |ds|
    ensures Present(jar, ds[..i + 1]) == Present(jar, ds[..i]) + (if ds[i] in jar then [ds[i]] else [])
  {
    assert ds[..i + 1] == ds[..i] + [ds[i]];
    PresentAppend(jar, ds[..i], [ds[i]]);
  }

  /** The parents are the labels rejoined from each position on. */
  ghost predicate JoinedFrom(host: string, parts: seq<string>)
  {
    && |Parents(host)| == |parts| - 1 && Join(parts, ".") == host
    && forall i | 1 <= i < |parts| :: Parents(host)[i - 1] == Join(parts[i..], ".")
  }

  lemma JoinedFromDot(host: string, rest: seq<string>)
    requires host != "" && host[0] == '.' && rest != [] && JoinedFrom(host[1..], rest)
    ensures JoinedFrom(host, [""] + rest)
  {
    var parts := [""] + rest;
    assert parts[1..] == rest;
    assert Join(parts, ".") == "" + "." + Join(rest, ".") == host;
    forall i | 1 <= i < |parts|
      ensures Parents(host)[i - 1] == Join(parts[i..], ".")
    {
      assert parts[i..] == rest[i - 1..];
      assert i == 1 ==> rest[0..] == rest;
    }
  }

  lemma JoinedFromLetter(host: string, rest: seq<string>)
    requires host != "" && host[0] != '.' && rest != [] && JoinedFrom(host[1..], rest)
    ensures JoinedFrom(host, [[host[0]] + rest[0]] + rest[1..])
  {
    var parts := [[host[0]] + rest[0]] + rest[1..];
    assert parts[1..] == rest[1..];
    assert forall i | 1 <= i < |parts| :: parts[i..] == rest[i..];
    assert Join(parts, ".") == [host[0]] + Join(rest, ".");
  }

  lemma {:induction false} ParentsAreJoins(host: string)
    ensures JoinedFrom(host, Split(host, '.'))
  {
    if host != "" {
      ParentsAreJoins(host[1..]);
      if host[0] == '.' {
        JoinedFromDot(host, Split(host[1..], '.'));
      } else {
        JoinedFromLetter(host, Split(host[1..], '.'));
      }
    }
  }

  /** The exact host and then each parent rejoined from the labels, where the jar has a bucket. */
  method GetMatchingDomains(jar: Jar, host: string) returns (domains: seq<string>)
    ensures domains == MatchingDomains(jar, host)
  {
    domains := [];
    if host in jar {
      domains := [host];
    }
    var parts := Split(host, '.');
    ghost var all := [host] + Parents(host);
    ParentsAreJoins(host);
    for i := 1 to |parts|
      invariant domains == Present(jar, all[..i])
    {
      var parent := Join(parts[i..], ".");
      PresentStep(jar, all, i);
      if parent in jar {
        domains := domains + [parent];
      }
    }
    assert all[..|parts|] == all;
  }

  ghost predicate LongestFirst(cs: seq<Cookie>)
  {
    forall i, j | 0 <= i < j < |cs| :: |cs[i].path| >= |cs[j].path|
  }

  lemma InsertKeepsOrder(cs: seq<Cookie>, c: Cookie, k: nat)
    requires LongestFirst(cs) && k <= |cs|
    requires (forall i | 0 <= i < k :: |cs[i].path| >= |c.path|) && (k < |cs| ==> |cs[k].path| < |c.path|)
    ensures LongestFirst(cs[..k] + [c] + cs[k..])
  {
    var r := cs[..k] + [c] + cs[k..];
    assert forall i | 0 <= i < |r| :: r[i] == if i < k then cs[i] else if i == k then c else cs[i - 1];
  }

  lemma InsertAddsOne(cs: seq<Cookie>, c: Cookie, k: nat)
    requires k <= |cs|
    ensures multiset(cs[..k] + [c] + cs[k..]) == multiset(cs) + multiset{c}
  {
    assert multiset(cs[..k] + [c] + cs[k..]) == multiset(cs[..k]) + multiset{c} + multiset(cs[k..]);
    assert cs == cs[..k] + cs[k..];
  }

  method InsertByPath(cs: seq<Cookie>, c: Cookie) returns (r: seq<Cookie>)
    requires LongestFirst(cs)
    ensures LongestFirst(r) && multiset(r) == multiset(cs) + multiset{c}
  {
    var k := 0;
    while k < |cs| && |cs[k].path| >= |c.path|
      invariant 0 <= k <= |cs|
      invariant forall i | 0 <= i < k :: |cs[i].path| >= |c.path|
    {
      k := k + 1;
    }
    InsertKeepsOrder(cs, c, k);
    InsertAddsOne(cs, c, k);
    r := cs[..k] + [c] + cs[k..];
  }

  method SortByPath(cs: seq<Cookie>) returns (r: seq<Cookie>)
    ensures multiset(r) == multiset(cs) && LongestFirst(r)
  {
    r := [];
    for n := 0 to |cs|
      invariant multiset(r) == multiset(cs[..n]) && LongestFirst(r)
    {
      assert cs[..n + 1] == cs[..n] + [cs[n]];
      r := InsertByPath(r, cs[n]);
    }
    assert cs[..|cs|] == cs;
  }

  lemma {:induction false} ScanAppend(jar: Jar, xs: seq<string>, ys: seq<string>, u: Url, now: Time, lower: Lower)
    ensures Scan(jar, xs + ys, u, now, lower) == Scan(jar, xs, u, now, lower) + Scan(jar, ys, u, now, lower)
  {
    if xs == [] {
      assert xs + ys == ys;
    } else {
      assert (xs + ys)[1..] == xs[1..] + ys;
      ScanAppend(jar, xs[1..], ys, u, now, lower);
    }
  }

  lemma ScanStep(jar: Jar, ks: seq<string>, i: nat, u: Url, now: Time, lower: Lower)
    requires i < |ks| && ks[i] in jar
    ensures Scan(jar, ks[..i + 1], u, now, lower) == Scan(jar, ks[..i], u, now, lower) + Pick(jar[ks[i]], u, now, lower)
  {
    assert ks[..i + 1] == ks[..i] + [ks[i]];
    ScanAppend(jar, ks[..i], [ks[i]], u, now, lower);
  }

  class CookieJar {
    var cookies: Jar
    const lower: Lower

    constructor (lower: Lower)
      ensures cookies == map[] && this.lower == lower
    {
      cookies := map[];
      this.lower := lower;
    }

    method SetCookies(cs: seq<Option<Cookie>>, nows: seq<Time>)
      requires |cs| == |nows|
      modifies this
      ensures cookies == SetAll(old(cookies), cs, nows, lower)
    {
      if |cs| == 0 {
        return;
      }
      for i := 0 to |cs|
        invariant cookies == SetAll(old(cookies), cs[..i], nows[..i], lower)
      {
        assert cs[..i + 1][..i] == cs[..i] && nows[..i + 1][..i] == nows[..i];
        if cs[i].None? || cs[i].value.name == "" {
          continue;
        }
        var c := cs[i].value;
        var domain := DomainKey(c.domain, lower);
        var existing := if domain in cookies then cookies[domain] else [];
        var filtered := FilterSlot(existing, c);
        if !Expired(c, nows[i]) {
          filtered := filtered + [c];
        }
        cookies := cookies[domain := filtered];
      }
      assert cs[..|cs|] == cs && nows[..|cs|] == nows;
    }

    method Clear()
      modifies this
      ensures cookies == map[]
    {
      cookies := map[];
    }

    method ClearDomain(domain: string)
      modifies this
      ensures cookies == old(cookies) - {DomainKey(domain, lower)}
    {
      cookies := cookies - {DomainKey(domain, lower)};
    }

    method ClearExpired(now: Time)
      modifies this
      ensures cookies == ClearedExpired(old(cookies), now)
    {
      var todo := cookies.Keys;
      ClearBounds(cookies, now);
      while todo != {}
        invariant todo <= old(cookies).Keys && cookies == PartlyCleared(old(cookies), now, todo)
        decreases |todo|
      {
        var domain :| domain in todo;
        ClearOneMore(old(cookies), now, todo, domain);
        var filtered := FilterUnexpired(cookies[domain], now);
        if |filtered| > 0 {
          cookies := cookies[domain := filtered];
        } else {
          cookies := cookies - {domain};
        }
        todo := todo - {domain};
      }
    }

    /** The cookies to send, longest path first; within that the order is the sort's own choice. */
    method Cookies(u: Url, now: Time) returns (result: seq<Cookie>)
      ensures multiset(result) == multiset(Found(cookies, u, now, lower))
      ensures LongestFirst(result) && AllRetrieved(result, u, now, lower)
    {
      var host := HostOf(u, lower);
      var domains := GetMatchingDomains(cookies, host);
      result := [];
      for i := 0 to |domains|
        invariant result == Scan(cookies, domains[..i], u, now, lower)
      {
        ScanStep(cookies, domains, i, u, now, lower);
        var picked := FilterServed(cookies[domains[i]], u, now, lower);
        result := result + picked;
      }
      assert domains[..|domains|] == domains;
      OnlyRetrieved(cookies, domains, u, now, lower);
      ghost var found := result;
      result := SortByPath(result);
      SameCookiesRetrieved(found, result, u, now, lower);
    }
  }

  // ----- The index agrees with a flat scan

  ghost predicate OnePerSlot(cs: seq<Cookie>)
  {
    forall i, j | 0 <= i < j < |cs| :: cs[i].name != cs[j].name || cs[i].path != cs[j].path
  }

  /** Each stored cookie sits in the bucket of its own domain, and each bucket holds at most one cookie
      per name and path. */
  ghost predicate JarInv(jar: Jar, lower: Lower)
  {
    forall k | k in jar ::
      && (forall c | c in jar[k] :: c.name != "" && DomainKey(c.domain, lower) == k)
      && OnePerSlot(jar[k])
  }

  ghost predicate NoRepeats(ks: seq<string>)
  {
    forall i, j | 0 <= i < j < |ks| :: ks[i] != ks[j]
  }

  lemma {:induction false} ParentsAreSuffixes(host: string, k: nat)
    requires k < |host| && host[k] == '.'
    ensures host[k + 1..] in Parents(host)
    decreases |host|
  {
    if k == 0 {
      assert Parents(host)[0] == host[1..];
    } else {
      assert host[1..][k - 1] == '.' && host[1..][k..] == host[k + 1..];
      ParentsAreSuffixes(host[1..], k - 1);
    }
  }

  lemma {:induction false} ParentsShrink(host: string)
    ensures forall i | 0 <= i < |Parents(host)| :: |Parents(host)[i]| < |host|
    ensures forall i, j | 0 <= i < j < |Parents(host)| :: |Parents(host)[i]| > |Parents(host)[j]|
  {
    if host != "" {
      ParentsShrink(host[1..]);
    }
  }

  /** A matching cookie's bucket is the host's own or one of its parents'. */
  lemma MatchIsIndexed(c: Cookie, u: Url, lower: Lower)
    requires Matches(c, u, lower)
    ensures DomainKey(c.domain, lower) in [HostOf(u, lower)] + Parents(HostOf(u, lower))
  {
    var host, domain := HostOf(u, lower), lower(c.domain);
    var key := DomainKey(c.domain, lower);
    if key == host {
      assert ([host] + Parents(host))[0] == key;
    } else {
      var k := |host| - |domain|;
      assert host[k..] == domain && host[k] == domain[0] == '.';
      assert host[k + 1..] == domain[1..];
      ParentsAreSuffixes(host, k);
    }
  }

  lemma {:induction false} PresentNoRepeats(jar: Jar, ds: seq<string>)
    requires NoRepeats(ds)
    ensures NoRepeats(Present(jar, ds))
  {
    if ds != [] {
      PresentNoRepeats(jar, ds[1..]);
      assert ds[0] !in Present(jar, ds[1..]) by {
        assert ds[0] !in ds[1..];
      }
    }
  }

  lemma MatchingDomainsNoRepeats(jar: Jar, host: string)
    ensures NoRepeats(MatchingDomains(jar, host))
  {
    ParentsShrink(host);
    PresentNoRepeats(jar, [host] + Parents(host));
  }

  /** A bucket outside the host's chain serves nothing. */
  lemma OtherBucketsServeNothing(jar: Jar, key: string, u: Url, now: Time, lower: Lower)
    requires JarInv(jar, lower) && key in jar && key !in MatchingDomains(jar, HostOf(u, lower))
    ensures Pick(jar[key], u, now, lower) == []
  {
    var picked := Pick(jar[key], u, now, lower);
    if picked != [] {
      assert picked[0] in picked;
      MatchIsIndexed(picked[0], u, lower);
    }
  }

  lemma {:induction false} ScanNothing(jar: Jar, keys: seq<string>, u: Url, now: Time, lower: Lower)
    requires JarInv(jar, lower)
    requires forall k | k in keys :: k in jar && k !in MatchingDomains(jar, HostOf(u, lower))
    ensures Scan(jar, keys, u, now, lower) == []
  {
    if keys != [] {
      OtherBucketsServeNothing(jar, keys[0], u, now, lower);
      ScanNothing(jar, keys[1..], u, now, lower);
    }
  }

  lemma ScanRemove(jar: Jar, keys: seq<string>, i: nat, u: Url, now: Time, lower: Lower)
    requires i < |keys| && keys[i] in jar
    ensures multiset(Scan(jar, keys, u, now, lower)) ==
            multiset(Pick(jar[keys[i]], u, now, lower)) + multiset(Scan(jar, keys[..i] + keys[i + 1..], u, now, lower))
  {
    assert keys == keys[..i] + ([keys[i]] + keys[i + 1..]);
    ScanAppend(jar, keys[..i], [keys[i]] + keys[i + 1..], u, now, lower);
    ScanAppend(jar, [keys[i]], keys[i + 1..], u, now, lower);
    ScanAppend(jar, keys[..i], keys[i + 1..], u, now, lower);
    assert Scan(jar, [keys[i]], u, now, lower) == Pick(jar[keys[i]], u, now, lower);
  }

  lemma RemoveFacts(keys: seq<string>, i: nat)
    requires i < |keys| && NoRepeats(keys)
    ensures var r := keys[..i] + keys[i + 1..];
            NoRepeats(r) && forall k :: k in r <==> k in keys && k != keys[i]
  {
    var r := keys[..i] + keys[i + 1..];
    forall k | k in keys && k != keys[i]
      ensures k in r
    {
      var j :| 0 <= j < |keys| && keys[j] == k;
      assert r[if j < i then j else j - 1] == k;
    }
  }

  /** Scanning the matching buckets and scanning any enumeration of all buckets give the same cookies. */
  lemma {:induction false} ScanAgree(jar: Jar, domains: seq<string>, keys: seq<string>, u: Url, now: Time, lower: Lower)
    requires JarInv(jar, lower) && NoRepeats(domains) && NoRepeats(keys)
    requires forall k | k in keys :: k in jar
    requires forall d | d in domains :: d in keys
    requires forall k | k in keys && k in MatchingDomains(jar, HostOf(u, lower)) :: k in domains
    ensures multiset(Scan(jar, domains, u, now, lower)) == multiset(Scan(jar, keys, u, now, lower))
    decreases |domains|
  {
    if domains == [] {
      ScanNothing(jar, keys, u, now, lower);
    } else {
      var d := domains[0];
      assert d in domains;
      var i :| 0 <= i < |keys| && keys[i] == d;
      var fewer := keys[..i] + keys[i + 1..];
      RemoveFacts(keys, i);
      RemoveFacts(domains, 0);
      assert domains[..0] + domains[1..] == domains[1..];
      ScanAgree(jar, domains[1..], fewer, u, now, lower);
      ScanRemove(jar, keys, i, u, now, lower);
      ScanRemove(jar, domains, 0, u, now, lower);
    }
  }

  /** For every jar that keeps its cookies in their own buckets, every URL and every order in which
      the buckets may be enumerated, the indexed answer is the flat scan's, as a multiset. */
  lemma IndexAgreesWithFlatScan(jar: Jar, keys: seq<string>, u: Url, now: Time, lower: Lower)
    requires JarInv(jar, lower)
    requires NoRepeats(keys) && forall k :: k in keys <==> k in jar
    ensures multiset(Found(jar, u, now, lower)) == multiset(Scan(jar, keys, u, now, lower))
  {
    var domains := MatchingDomains(jar, HostOf(u, lower));
    MatchingDomainsNoRepeats(jar, HostOf(u, lower));
    ScanAgree(jar, domains, keys, u, now, lower);
  }

  // ----- The answer is the RFC's retrieval

  /** Every cookie of the given buckets. */
  function AllIn(jar: Jar, keys: seq<string>): seq<Cookie>
  {
    if keys == [] then [] else Bucket(jar, keys[0]) + AllIn(jar, keys[1..])
  }

  lemma {:induction false} PickCounts(cs: seq<Cookie>, u: Url, now: Time, lower: Lower, c: Cookie)
    ensures multiset(Pick(cs, u, now, lower))[c] == if Served(c, u, now, lower) then multiset(cs)[c] else 0
  {
    if cs != [] {
      PickCounts(cs[1..], u, now, lower, c);
      assert cs == [cs[0]] + cs[1..];
    }
  }

  lemma {:induction false} ScanCounts(jar: Jar, keys: seq<string>, u: Url, now: Time, lower: Lower, c: Cookie)
    ensures multiset(Scan(jar, keys, u, now, lower))[c] ==
            if Served(c, u, now, lower) then multiset(AllIn(jar, keys))[c] else 0
  {
    if keys != [] {
      PickCounts(Bucket(jar, keys[0]), u, now, lower, c);
      ScanCounts(jar, keys[1..], u, now, lower, c);
    }
  }

  function Apply(jar: Jar, op: Op, lower: Lower): Jar
  {
    match op
    case Set(cs, nows) => if |cs| == |nows| then SetAll(jar, cs, nows, lower) else jar
    case ClearAll => map[]
    case ClearDomain(domain) => jar - {DomainKey(domain, lower)}
    case ClearExpired(now) => ClearedExpired(jar, now)
  }

  function ApplyAll(jar: Jar, ops: seq<Op>, lower: Lower): Jar
    decreases |ops|
  {
    if ops == [] then jar else ApplyAll(Apply(jar, ops[0], lower), ops[1..], lower)
  }

  lemma OnePerSlotCons(c: Cookie, cs: seq<Cookie>)
    requires OnePerSlot(cs) && forall x | x in cs :: x.name != c.name || x.path != c.path
    ensures OnePerSlot([c] + cs)
  {
  }

  lemma {:induction false} UnexpiredOnePerSlot(cs: seq<Cookie>, now: Time)
    requires OnePerSlot(cs)
    ensures OnePerSlot(Unexpired(cs, now))
  {
    if cs != [] {
      UnexpiredOnePerSlot(cs[1..], now);
      OnePerSlotCons(cs[0], Unexpired(cs[1..], now));
    }
  }

  lemma OnePerSlotSnoc(cs: seq<Cookie>, c: Cookie)
    requires OnePerSlot(cs) && forall x | x in cs :: x.name != c.name || x.path != c.path
    ensures OnePerSlot(cs + [c])
  {
  }

  lemma {:induction false} WithoutOnePerSlot(cs: seq<Cookie>, c: Cookie)
    requires OnePerSlot(cs)
    ensures OnePerSlot(Without(cs, c)) && OnePerSlot(Without(cs, c) + [c])
  {
    if cs != [] {
      WithoutOnePerSlot(cs[1..], c);
      OnePerSlotCons(cs[0], Without(cs[1..], c));
    }
    OnePerSlotSnoc(Without(cs, c), c);
  }

  lemma SetOneKeepsInv(jar: Jar, c: Option<Cookie>, now: Time, lower: Lower)
    requires JarInv(jar, lower)
    ensures JarInv(SetOne(jar, c, now, lower), lower)
  {
    if c.Some? {
      WithoutOnePerSlot(Bucket(jar, DomainKey(c.value.domain, lower)), c.value);
    }
  }

  lemma {:induction false} SetAllKeepsInv(jar: Jar, cs: seq<Option<Cookie>>, nows: seq<Time>, lower: Lower)
    requires |cs| == |nows| && JarInv(jar, lower)
    ensures JarInv(SetAll(jar, cs, nows, lower), lower)
  {
    if cs != [] {
      var n := |cs| - 1;
      SetAllKeepsInv(jar, cs[..n], nows[..n], lower);
      SetOneKeepsInv(SetAll(jar, cs[..n], nows[..n], lower), cs[n], nows[n], lower);
    }
  }

  lemma ApplyKeepsInv(jar: Jar, op: Op, lower: Lower)
    requires JarInv(jar, lower)
    ensures JarInv(Apply(jar, op, lower), lower)
  {
    match op {
      case Set(cs, nows) =>
        if |cs| == |nows| {
          SetAllKeepsInv(jar, cs, nows, lower);
        }
      case ClearExpired(now) =>
        forall k | k in jar
          ensures OnePerSlot(Unexpired(jar[k], now))
        {
          UnexpiredOnePerSlot(jar[k], now);
        }
      case _ =>
    }
  }

  /** Every reachable jar keeps its cookies in their own buckets, one per name and path. */
  lemma {:induction false} ReachableJarInv(jar: Jar, ops: seq<Op>, lower: Lower)
    requires JarInv(jar, lower)
    ensures JarInv(ApplyAll(jar, ops, lower), lower)
    decreases |ops|
  {
    if ops != [] {
      ApplyKeepsInv(jar, ops[0], lower);
      ReachableJarInv(Apply(jar, ops[0], lower), ops[1..], lower);
    }
  }

  lemma ReachableAnswersLikeFlatScan(ops: seq<Op>, keys: seq<string>, u: Url, now: Time, lower: Lower)
    requires var jar := ApplyAll(map[], ops, lower);
             NoRepeats(keys) && forall k :: k in keys <==> k in jar
    ensures var jar := ApplyAll(map[], ops, lower);
            multiset(Found(jar, u, now, lower)) == multiset(Scan(jar, keys, u, now, lower))
  {
    ReachableJarInv(map[], ops, lower);
    IndexAgreesWithFlatScan(ApplyAll(map[], ops, lower), keys, u, now, lower);
  }

  /** For every reachable jar, URL and time, the answer holds each cookie exactly as often as the jar does if
      section 5.4 retrieves it, and not at all otherwise; the keys may be listed in any order. */
  lemma AnswerIsRetrieval(ops: seq<Op>, keys: seq<string>, u: Url, now: Time, lower: Lower, c: Cookie)
    requires var jar := ApplyAll(map[], ops, lower);
             NoRepeats(keys) && forall k :: k in keys <==> k in jar
    ensures var jar := ApplyAll(map[], ops, lower);
            multiset(Found(jar, u, now, lower))[c] ==
            if Retrieved(c, u, now, lower) then multiset(AllIn(jar, keys))[c] else 0
  {
    ReachableAnswersLikeFlatScan(ops, keys, u, now, lower);
    ScanCounts(ApplyAll(map[], ops, lower), keys, u, now, lower, c);
    ServedIffRetrieved(c, u, now, lower);
  }

  // ----- Every run of the jar's operations

  datatype Op =
    | Set(cs: seq<Option<Cookie>>, nows: seq<Time>)
    | ClearAll
    | ClearDomain(domain: string)
    | ClearExpired(now: Time)

  // ----- The last write of a batch decides its slot

  /** The batch entry writes the slot of c in bucket key. */
  predicate Writes(w: Option<Cookie>, key: string, c: Cookie, lower: Lower)
  {
    && w.Some? && w.value.name != "" && DomainKey(w.value.domain, lower) == key
    && w.value.name == c.name && w.value.path == c.path
  }

  /** The position of the last writer of a slot, or -1. */
  function LastWriter(cs: seq<Option<Cookie>>, key: string, c: Cookie, lower: Lower): (i: int)
    ensures -1 <= i < |cs|
    ensures i >= 0 ==> Writes(cs[i], key, c, lower)
    ensures forall j | i < j < |cs| :: !Writes(cs[j], key, c, lower)
  {
    if cs == [] then -1
    else if Writes(cs[|cs| - 1], key, c, lower) then |cs| - 1
    else LastWriter(cs[..|cs| - 1], key, c, lower)
  }

  /** After a batch a cookie is in the jar exactly when it is its slot's last writer and was not expired
      then, or nobody wrote its slot and it was there before. */
  lemma {:induction false} LastWriteDecides(jar: Jar, cs: seq<Option<Cookie>>, nows: seq<Time>, key: string,
                                            c: Cookie, lower: Lower)
    requires |cs| == |nows|
    ensures var i := LastWriter(cs, key, c, lower);
            c in Bucket(SetAll(jar, cs, nows, lower), key) <==>
            if i >= 0 then cs[i].value == c && !Expired(c, nows[i]) else c in Bucket(jar, key)
  {
    if cs != [] {
      var n := |cs| - 1;
      LastWriteDecides(jar, cs[..n], nows[..n], key, c, lower);
    }
  }

  // ----- ClearExpired is invisible later

  /** Clearing at t keeps exactly the cookies that are not deleted and expire after t, and no empty bucket. */
  lemma ClearKeepsExactly(jar: Jar, t: Time, key: string, c: Cookie)
    ensures c in Bucket(ClearedExpired(jar, t), key) <==>
            c in Bucket(jar, key) && c.maxAge >= 0 && (c.expires.Some? ==> t < c.expires.value)
    ensures key in ClearedExpired(jar, t) ==> ClearedExpired(jar, t)[key] != []
  {
  }

  lemma {:induction false} PickAfterClear(cs: seq<Cookie>, t: Time, u: Url, later: Time, lower: Lower)
    requires t < later
    ensures Pick(Unexpired(cs, t), u, later, lower) == Pick(cs, u, later, lower)
  {
    if cs != [] {
      PickAfterClear(cs[1..], t, u, later, lower);
    }
  }

  lemma {:induction false} ScanAfterClear(jar: Jar, ds: seq<string>, t: Time, u: Url, later: Time, lower: Lower)
    requires t < later
    ensures Scan(ClearedExpired(jar, t), Present(ClearedExpired(jar, t), ds), u, later, lower) ==
            Scan(jar, Present(jar, ds), u, later, lower)
  {
    if ds != [] {
      ScanAfterClear(jar, ds[1..], t, u, later, lower);
      if ds[0] in jar {
        PickAfterClear(jar[ds[0]], t, u, later, lower);
      }
    }
  }

  /** Removing the cookies expired at t changes no answer at any strictly later time. */
  lemma ClearExpiredInvisibleLater(jar: Jar, t: Time, u: Url, later: Time, lower: Lower)
    requires t < later
    ensures Found(ClearedExpired(jar, t), u, later, lower) == Found(jar, u, later, lower)
  {
    ScanAfterClear(jar, [HostOf(u, lower)] + Parents(HostOf(u, lower)), t, u, later, lower);
  }

  /** A cookie that is served for u at t and expires at that very instant. */
  predicate LastServed(c: Cookie, u: Url, t: Time, lower: Lower)
  {
    Served(c, u, t, lower) && c.expires == Some(t)
  }

  lemma PickOfUnexpired(cs: seq<Cookie>, u: Url, t: Time, lower: Lower)
    requires cs != []
    ensures Pick(Unexpired(cs, t), u, t, lower) ==
            (if KeptByClear(cs[0], t) && Served(cs[0], u, t, lower) then [cs[0]] else []) +
            Pick(Unexpired(cs[1..], t), u, t, lower)
  {
  }

  lemma {:induction false} PickClearedNow(cs: seq<Cookie>, u: Url, t: Time, lower: Lower)
    ensures var before, after := Pick(cs, u, t, lower), Pick(Unexpired(cs, t), u, t, lower);
            if exists c :: c in cs && LastServed(c, u, t, lower) then |after| < |before| else after == before
  {
    if cs != [] {
      PickClearedNow(cs[1..], u, t, lower);
      assert cs == [cs[0]] + cs[1..];
      PickOfUnexpired(cs, u, t, lower);
    }
  }

  /** Some bucket of ds holds a cookie served for u for the last time at t. */
  ghost predicate AnyLastServed(jar: Jar, ds: seq<string>, u: Url, t: Time, lower: Lower)
  {
    exists d, c :: d in ds && d in jar && c in jar[d] && LastServed(c, u, t, lower)
  }

  lemma AnyLastServedStep(jar: Jar, ds: seq<string>, u: Url, t: Time, lower: Lower)
    requires ds != []
    ensures AnyLastServed(jar, ds, u, t, lower) <==>
            || (ds[0] in jar && exists c :: c in jar[ds[0]] && LastServed(c, u, t, lower))
            || AnyLastServed(jar, ds[1..], u, t, lower)
  {
    assert ds[0] in ds && forall d :: d in ds <==> d == ds[0] || d in ds[1..];
  }

  lemma ScanPresentStep(jar: Jar, ds: seq<string>, u: Url, now: Time, lower: Lower)
    requires ds != []
    ensures Scan(jar, Present(jar, ds), u, now, lower) ==
            Pick(Bucket(jar, ds[0]), u, now, lower) + Scan(jar, Present(jar, ds[1..]), u, now, lower)
  {
    if ds[0] in jar {
      assert Present(jar, ds)[1..] == Present(jar, ds[1..]);
    }
  }

  lemma {:induction false} ScanClearedNow(jar: Jar, ds: seq<string>, u: Url, t: Time, lower: Lower)
    ensures var before := Scan(jar, Present(jar, ds), u, t, lower);
            var after := Scan(ClearedExpired(jar, t), Present(ClearedExpired(jar, t), ds), u, t, lower);
            if AnyLastServed(jar, ds, u, t, lower) then |after| < |before| else after == before
  {
    if ds != [] {
      ScanClearedNow(jar, ds[1..], u, t, lower);
      AnyLastServedStep(jar, ds, u, t, lower);
      ScanPresentStep(jar, ds, u, t, lower);
      ScanPresentStep(ClearedExpired(jar, t), ds, u, t, lower);
      assert Bucket(ClearedExpired(jar, t), ds[0]) == Unexpired(Bucket(jar, ds[0]), t);
      PickClearedNow(Bucket(jar, ds[0]), u, t, lower);
    }
  }

  /** At the very instant t, clearing changes the answer exactly when the host's bucket or a parent's holds
      a cookie that is served at t and expires at t; and then cookies are missing from it. */
  lemma ClearExpiredInvisibleNowIff(jar: Jar, t: Time, u: Url, lower: Lower)
    ensures var before, after := Found(jar, u, t, lower), Found(ClearedExpired(jar, t), u, t, lower);
            var chain := [HostOf(u, lower)] + Parents(HostOf(u, lower));
            && (after == before <==> !AnyLastServed(jar, chain, u, t, lower))
            && (multiset(after) == multiset(before) <==> !AnyLastServed(jar, chain, u, t, lower))
  {
    ScanClearedNow(jar, [HostOf(u, lower)] + Parents(HostOf(u, lower)), u, t, lower);
    var before, after := Found(jar, u, t, lower), Found(ClearedExpired(jar, t), u, t, lower);
    assert |multiset(after)| == |after| && |multiset(before)| == |before|;
  }

  /** Such a jar exists: its one cookie is served at t, and gone once ClearExpired has run at t. */
  lemma ClearExpiredVisibleAtOnce(t: Time, lower: Lower)
    requires lower("h") == "h"
    ensures var c := Cookie("n", "v", "h", "/", Some(t), 0, false);
            var jar: Jar := map["h" := [c]];
            var u := Url("https", "h", "/");
            c in Found(jar, u, t, lower) && Found(ClearedExpired(jar, t), u, t, lower) == []
  {
    var c := Cookie("n", "v", "h", "/", Some(t), 0, false);
    var jar: Jar := map["h" := [c]];
    var u := Url("https", "h", "/");
    assert LastColon("h", 1) == -1 && HostOf(u, lower) == "h";
    assert Parents("h") == Parents("h"[1..]) == [] && ["h"] + Parents("h") == ["h"];
    assert ["h"][1..] == [];
    assert Present(jar, ["h"]) == ["h"] + Present(jar, []) == ["h"];
    assert Scan(jar, ["h"], u, t, lower) == Pick([c], u, t, lower) + Scan(jar, [], u, t, lower);
    assert Pick([c], u, t, lower) == [c];
    assert Unexpired([c], t) == [];
    assert Present(ClearedExpired(jar, t), ["h"]) == Present(ClearedExpired(jar, t), []) == [];
  }

  // ----- What was set is served

  lemma {:induction false} ApplyAllSnoc(jar: Jar, ops: seq<Op>, op: Op, lower: Lower)
    ensures ApplyAll(jar, ops + [op], lower) == Apply(ApplyAll(jar, ops, lower), op, lower)
    decreases |ops|
  {
    if ops == [] {
      assert [op][1..] == [] && [] + [op] == [op];
    } else {
      assert (ops + [op])[0] == ops[0] && (ops + [op])[1..] == ops[1..] + [op];
      ApplyAllSnoc(Apply(jar, ops[0], lower), ops[1..], op, lower);
    }
  }

  lemma SetOneMore(ops: seq<Op>, c: Cookie, now: Time, lower: Lower)
    requires c.name != "" && !Expired(c, now)
    ensures var jar := ApplyAll(map[], ops + [Set([Some(c)], [now])], lower);
            c in Bucket(jar, DomainKey(c.domain, lower))
  {
    var before, cs, nows := ApplyAll(map[], ops, lower), [Some(c)], [now];
    ApplyAllSnoc(map[], ops, Set(cs, nows), lower);
    assert SetAll(before, cs[..0], nows[..0], lower) == before;
    assert SetAll(before, cs, nows, lower) == SetOne(SetAll(before, cs[..0], nows[..0], lower), cs[0], nows[0], lower);
  }

  lemma {:induction false} PickedInScan(jar: Jar, keys: seq<string>, key: string, u: Url, now: Time, lower: Lower,
                                        c: Cookie)
    requires key in keys && c in Bucket(jar, key) && Served(c, u, now, lower)
    ensures c in Scan(jar, keys, u, now, lower)
  {
    if key == keys[0] {
      PickCounts(Bucket(jar, key), u, now, lower, c);
      assert c in multiset(Pick(jar[key], u, now, lower));
    } else {
      PickedInScan(jar, keys[1..], key, u, now, lower, c);
    }
  }

  /** In every run, a cookie set at now that is not expired is in the answer for every URL that section 5.4 sends it to,
      at that time. */
  lemma SetThenServed(ops: seq<Op>, c: Cookie, u: Url, now: Time, lower: Lower)
    requires c.name != "" && Retrieved(c, u, now, lower)
    ensures c in Found(ApplyAll(map[], ops + [Set([Some(c)], [now])], lower), u, now, lower)
  {
    ServedIffRetrieved(c, u, now, lower);
    SetOneMore(ops, c, now, lower);
    MatchIsIndexed(c, u, lower);
    var jar, host := ApplyAll(map[], ops + [Set([Some(c)], [now])], lower), HostOf(u, lower);
    PickedInScan(jar, MatchingDomains(jar, host), DomainKey(c.domain, lower), u, now, lower, c);
  }

  /** Clearing empties the jar, or one domain's bucket under any spelling. */
  lemma ClearsTakeEffect(jar: Jar, domain: string, key: string, t: Time, lower: Lower)
    ensures Apply(jar, ClearAll, lower) == map[]
    ensures Bucket(Apply(jar, ClearDomain(domain), lower), key) ==
            if key == DomainKey(domain, lower) then [] else Bucket(jar, key)
    ensures Apply(jar, ClearExpired(t), lower) == ClearedExpired(jar, t)
  {
  }
}
