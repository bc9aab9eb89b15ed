/** The DNS cache (dns/cache.go): lookups collapsed per host, short negative entries, stale answers
    only after a transient failure, and address interleaving (section 4 of RFC 8305). */
module DnsCache {
  import opened Wrappers

  type Time = int

  datatype IP = IP(isV4: bool, address: nat)

  datatype LookupError =
    | Canceled
    | DeadlineExceeded
    | DnsError(isNotFound: bool, isTimeout: bool, isTemporary: bool)
    | OtherError

  datatype Entry = Entry(ips: seq<IP>, expiresAt: Time, negative: bool, err: LookupError, network: string)

  type Entries = map<string, Entry>

  datatype Answer = Addresses(ips: seq<IP>) | NoAnswer(err: LookupError)

  /** What the system resolver says. */
  datatype Outcome = Found(ips: seq<IP>) | Failed(err: LookupError)

  const MAX_ENTRIES := 4096
  const NO_ADDRESSES := DnsError(true, false, false)

  predicate Transient(e: LookupError)
  {
    match e
    case Canceled => true
    case DeadlineExceeded => true
    case DnsError(isNotFound, isTimeout, isTemporary) => !isNotFound && (isTimeout || isTemporary)
    case OtherError => true
  }

  predicate IsExpired(e: Entry, now: Time)
  {
    now > e.expiresAt
  }

  predicate Usable(e: Entry, network: string, now: Time)
  {
    e.network == network && !IsExpired(e, now)
  }

  function AnswerOf(e: Entry): Answer
  {
    if e.negative then NoAnswer(e.err) else Addresses(e.ips)
  }

  // ----- The critical sections, on values

  function Unexpired(entries: Entries, now: Time): Entries
  {
    map h | h in entries && !IsExpired(entries[h], now) :: entries[h]
  }

  function Stored(entries: Entries, host: string, e: Entry, now: Time): Entries
  {
    (if |entries| >= MAX_ENTRIES then Unexpired(entries, now) else entries)[host := e]
  }

  /** A stale positive entry that a transient failure may fall back on. */
  predicate Fallback(snap: Option<Entry>, network: string)
  {
    snap.Some? && snap.value.network == network && !snap.value.negative && snap.value.ips != []
  }

  /** What the end of a lookup leaves in the cache and answers. */
  function Finished(entries: Entries, network: string, ttl: Time, negTTL: Time, host: string,
                    snap: Option<Entry>, outcome: Outcome, at: Time, now: Time): (Entries, Answer)
  {
    match outcome
    case Failed(err) =>
      if Transient(err) then (entries, if Fallback(snap, network) then Addresses(snap.value.ips) else NoAnswer(err))
      else (Stored(entries, host, Entry([], at + negTTL, true, err, network), now), NoAnswer(err))
    case Found(ips) =>
      if ips == [] then
        (Stored(entries, host, Entry([], at + negTTL, true, NO_ADDRESSES, network), now), NoAnswer(NO_ADDRESSES))
      else (Stored(entries, host, Entry(ips, at + ttl, false, OtherError, network), now), Addresses(ips))
  }

  // ----- The object

  class Cache {
    var entries: Entries
    var network: string
    var defaultTTL: Time
    const negTTL: Time
    const minTTL: Time

    constructor ()
      ensures entries == map[] && network == "" && defaultTTL == 60 && negTTL == 10 && minTTL == 5
    {
      entries, network, defaultTTL, negTTL, minTTL := map[], "", 60, 10, 5;
    }

    method Sweep(now: Time)
      modifies this`entries
      ensures entries == Unexpired(old(entries), now)
    {
      var todo := entries.Keys;
      while todo != {}
        invariant todo <= old(entries).Keys
        invariant entries ==
                  map h | h in old(entries) && (h in todo || !IsExpired(old(entries)[h], now)) :: old(entries)[h]
        decreases |todo|
      {
        var h :| h in todo;
        if now > entries[h].expiresAt {
          entries := entries - {h};
        }
        todo := todo - {h};
      }
    }

    method Store(host: string, e: Entry, now: Time)
      modifies this`entries
      ensures entries == Stored(old(entries), host, e.(network := network), now)
    {
      var stamped := e.(network := network);
      if |entries| >= MAX_ENTRIES {
        Sweep(now);
      }
      entries := entries[host := stamped];
    }

    method Cleanup(now: Time)
      modifies this`entries
      ensures entries == Unexpired(old(entries), now)
    {
      Sweep(now);
    }

    method SetTTL(ttl: Time)
      modifies this`defaultTTL
      ensures defaultTTL == if ttl < minTTL then minTTL else ttl
    {
      defaultTTL := if ttl < minTTL then minTTL else ttl;
    }

    /** The cached answer for a host, if there is a fresh one for the current family. */
    method Peek(host: string, now: Time) returns (r: Option<Answer>)
      ensures r.Some? <==> host in entries && entries[host].network == network && now <= entries[host].expiresAt
      ensures r.Some? ==> r.value == AnswerOf(entries[host])
    {
      if host in entries {
        var e := entries[host];
        if e.network == network && !(now > e.expiresAt) {
          if e.negative {
            return Some(NoAnswer(e.err));
          }
          return Some(Addresses(e.ips));
        }
      }
      return None;
    }

    /** The end of a shared lookup: snap is the entry seen before it, ttl the default time to live, read in a
        section of its own before a positive result is stored, at the clock reading that dates a new
        entry, and now the one store makes. */
    method FinishLookup(host: string, snap: Option<Entry>, outcome: Outcome, ttl: Time, at: Time, now: Time)
      returns (a: Answer)
      modifies this`entries
      ensures (entries, a) == Finished(old(entries), network, ttl, negTTL, host, snap, outcome, at, now)
    {
      match outcome {
        case Failed(err) =>
          if Transient(err) {
            if snap.Some? && snap.value.network == network && !snap.value.negative && |snap.value.ips| > 0 {
              return Addresses(snap.value.ips);
            }
            return NoAnswer(err);
          }
          Store(host, Entry([], at + negTTL, true, err, ""), now);
          return NoAnswer(err);
        case Found(ips) =>
          if |ips| == 0 {
            Store(host, Entry([], at + negTTL, true, NO_ADDRESSES, ""), now);
            return NoAnswer(NO_ADDRESSES);
          }
          Store(host, Entry(ips, at + ttl, false, OtherError, ""), now);
          return Addresses(ips);
      }
    }
  }

  // ----- Concurrent runs, with the family fixed

  /** A shared lookup per host: about to re-check the cache, at the resolver with what it saw, or about to
      store the addresses found, with the time to live it has read. */
  datatype Flight = Starting | LookingUp(snap: Option<Entry>) | Storing(found: seq<IP>, ttl: Time)

  datatype State = State(clock: Time, entries: Entries, defaultTTL: Time, flights: map<string, Flight>)

  datatype Config = Config(network: string, negTTL: Time, minTTL: Time)

  datatype Event =
    | Tick(elapsed: nat)
    | Ask(host: string)
    | Recheck(host: string)
    | ReadTTL(host: string, found: seq<IP>)
    | StoreFound(host: string, at: Time)
    | Finish(host: string, outcome: Outcome, at: Time)
    | Cleanup
    | Invalidate(host: string)
    | Clear
    | SetTTL(ttl: Time)

  function Cached(s: State, host: string, cfg: Config): Option<Answer>
  {
    if host in s.entries && Usable(s.entries[host], cfg.network, s.clock) then Some(AnswerOf(s.entries[host])) else None
  }

  /** The lookup failed or came back without addresses. */
  predicate FindsNothing(outcome: Outcome)
  {
    outcome.Failed? || outcome.ips == []
  }

  function Landed(s: State, host: string, result: (Entries, Answer)): (State, Option<Answer>)
  {
    (s.(entries := result.0, flights := s.flights - {host}), Some(result.1))
  }

  /** One step and the answer it hands to callers, if any. */
  function Step(s: State, e: Event, cfg: Config): (State, Option<Answer>)
  {
    match e
    case Tick(d) => (s.(clock := s.clock + d), None)
    case Ask(host) =>
      if Cached(s, host, cfg).Some? then (s, Cached(s, host, cfg))
      else if host in s.flights then (s, None)
      else (s.(flights := s.flights[host := Starting]), None)
    case Recheck(host) =>
      if host in s.flights && s.flights[host].Starting? then
        if Cached(s, host, cfg).Some? then (s.(flights := s.flights - {host}), Cached(s, host, cfg))
        else
          var snap := if host in s.entries then Some(s.entries[host]) else None;
          (s.(flights := s.flights[host := LookingUp(snap)]), None)
      else (s, None)
    case ReadTTL(host, found) =>
      if host in s.flights && s.flights[host].LookingUp? && found != [] then
        (s.(flights := s.flights[host := Storing(found, s.defaultTTL)]), None)
      else (s, None)
    case StoreFound(host, at) =>
      if host in s.flights && s.flights[host].Storing? && at <= s.clock then
        var f := s.flights[host];
        Landed(s, host, Finished(s.entries, cfg.network, f.ttl, cfg.negTTL, host, None, Found(f.found), at, s.clock))
      else (s, None)
    case Finish(host, outcome, at) =>
      if host in s.flights && s.flights[host].LookingUp? && at <= s.clock && FindsNothing(outcome) then
        var snap := s.flights[host].snap;
        Landed(s, host, Finished(s.entries, cfg.network, 0, cfg.negTTL, host, snap, outcome, at, s.clock))
      else (s, None)
    case Cleanup => (s.(entries := Unexpired(s.entries, s.clock)), None)
    case Invalidate(host) => (s.(entries := s.entries - {host}), None)
    case Clear => (s.(entries := map[]), None)
    case SetTTL(ttl) => (s.(defaultTTL := if ttl < cfg.minTTL then cfg.minTTL else ttl), None)
  }

  function Run(s: State, es: seq<Event>, cfg: Config): State
    decreases |es|
  {
    if es == [] then s else Run(Step(s, es[0], cfg).0, es[1..], cfg)
  }

  function Init(now: Time): State
  {
    State(now, map[], 60, map[])
  }

  predicate WellFormed(e: Entry, network: string)
  {
    (!e.negative ==> e.ips != []) && e.network == network
  }

  ghost predicate Inv(s: State, cfg: Config)
  {
    && (forall h | h in s.entries :: WellFormed(s.entries[h], cfg.network))
    && (forall h | h in s.flights && s.flights[h].LookingUp? && s.flights[h].snap.Some? ::
          WellFormed(s.flights[h].snap.value, cfg.network) && IsExpired(s.flights[h].snap.value, s.clock))
    && (forall h | h in s.flights && s.flights[h].Storing? :: s.flights[h].found != [])
  }

  /** The end of a lookup leaves well-formed entries. */
  lemma FinishedWellFormed(entries: Entries, ttl: Time, host: string, snap: Option<Entry>, outcome: Outcome,
                           at: Time, now: Time, cfg: Config)
    requires forall h | h in entries :: WellFormed(entries[h], cfg.network)
    ensures var after := Finished(entries, cfg.network, ttl, cfg.negTTL, host, snap, outcome, at, now).0;
            forall h | h in after :: WellFormed(after[h], cfg.network)
  {
  }

  lemma StepKeepsInv(s: State, e: Event, cfg: Config)
    requires Inv(s, cfg)
    ensures Inv(Step(s, e, cfg).0, cfg)
  {
    if e.StoreFound? && e.host in s.flights && s.flights[e.host].Storing? {
      var f := s.flights[e.host];
      FinishedWellFormed(s.entries, f.ttl, e.host, None, Found(f.found), e.at, s.clock, cfg);
    } else if e.Finish? && e.host in s.flights && s.flights[e.host].LookingUp? {
      FinishedWellFormed(s.entries, 0, e.host, s.flights[e.host].snap, e.outcome, e.at, s.clock, cfg);
    }
  }

  lemma {:induction false} RunKeepsInv(s: State, es: seq<Event>, cfg: Config)
    requires Inv(s, cfg)
    ensures Inv(Run(s, es, cfg), cfg)
    decreases |es|
  {
    if es != [] {
      StepKeepsInv(s, es[0], cfg);
      RunKeepsInv(Step(s, es[0], cfg).0, es[1..], cfg);
    }
  }

  /** In every run, every positive entry and every successful answer has at least one address; and an
      answer comes from a fresh entry, from the resolver just now, or, expired, only when the
      resolver failed transiently. */
  lemma AnswersAreJustified(now: Time, es: seq<Event>, e: Event, cfg: Config)
    ensures var s := Run(Init(now), es, cfg);
            && (forall h | h in s.entries && !s.entries[h].negative :: s.entries[h].ips != [])
            && match Step(s, e, cfg).1
               case None => true
               case Some(NoAnswer(_)) => true
               case Some(Addresses(ips)) =>
                 && ips != []
                 && (e.Ask? || e.Recheck? || e.StoreFound? || e.Finish?)
                 && (if e.StoreFound? then
                       e.host in s.flights && s.flights[e.host].Storing? && s.flights[e.host].found == ips
                     else if !e.Finish? then
                       e.host in s.entries && s.clock <= s.entries[e.host].expiresAt && s.entries[e.host].ips == ips
                     else
                       && e.outcome.Failed? && Transient(e.outcome.err)
                       && s.flights[e.host].LookingUp? && s.flights[e.host].snap.Some?
                       && s.flights[e.host].snap.value.ips == ips && s.flights[e.host].snap.value.expiresAt < s.clock)
  {
    RunKeepsInv(Init(now), es, cfg);
  }

  /** A transient failure never changes the cache; a permanent one and an empty result leave a negative
      entry for the host and touch no unexpired entry of another. */
  lemma FailuresAndTheCache(s: State, host: string, outcome: Outcome, at: Time, cfg: Config)
    requires host in s.flights && s.flights[host].LookingUp? && at <= s.clock
    requires FindsNothing(outcome)
    ensures var t := Step(s, Finish(host, outcome, at), cfg).0;
            if outcome.Failed? && Transient(outcome.err) then t.entries == s.entries
            else
              && host in t.entries && t.entries[host].negative && t.entries[host].expiresAt == at + cfg.negTTL
              && forall h | h != host ::
                   && (h in t.entries ==> h in s.entries && t.entries[h] == s.entries[h])
                   && (h in s.entries && !IsExpired(s.entries[h], s.clock) ==> h in t.entries)
  {
  }

  /** A store sweeps only expired entries, and only when the map is full; afterwards it holds at most
      4096 entries or one more than the unexpired ones. */
  lemma StoreIsBounded(entries: Entries, host: string, e: Entry, now: Time)
    ensures var r := Stored(entries, host, e, now);
            |r| <= if |Unexpired(entries, now)| + 1 > MAX_ENTRIES then |Unexpired(entries, now)| + 1 else MAX_ENTRIES
  {
    var swept := if |entries| >= MAX_ENTRIES then Unexpired(entries, now) else entries;
    assert swept[host := e].Keys == swept.Keys + {host};
    assert |swept.Keys + {host}| <= |swept.Keys| + 1;
  }

  /** The default time to live, and every one that a lookup has read and not used yet, are at least the
      floor. */
  ghost predicate TtlsAboveFloor(s: State, cfg: Config)
  {
    s.defaultTTL >= cfg.minTTL && forall h | h in s.flights && s.flights[h].Storing? :: s.flights[h].ttl >= cfg.minTTL
  }

  lemma {:induction false} TtlAboveFloor(s: State, es: seq<Event>, cfg: Config)
    requires TtlsAboveFloor(s, cfg)
    ensures TtlsAboveFloor(Run(s, es, cfg), cfg)
    decreases |es|
  {
    if es != [] {
      TtlAboveFloor(Step(s, es[0], cfg).0, es[1..], cfg);
    }
  }

  lemma StoreFoundGives(s: State, host: string, at: Time, cfg: Config)
    requires Inv(s, cfg) && host in s.flights && s.flights[host].Storing? && at <= s.clock
    ensures var t, f := Step(s, StoreFound(host, at), cfg).0, s.flights[host];
            host in t.entries && t.entries[host] == Entry(f.found, at + f.ttl, false, OtherError, cfg.network)
  {
  }

  /** In every run, the entry for addresses found lives at least the floor from the reading that dates it,
      whatever SetTTL did between reading the time to live and storing. */
  lemma FoundLivesAboveFloor(now: Time, es: seq<Event>, host: string, at: Time, cfg: Config)
    requires cfg.minTTL <= 60
    ensures var s := Run(Init(now), es, cfg);
            host in s.flights && s.flights[host].Storing? && at <= s.clock ==>
              var t := Step(s, StoreFound(host, at), cfg).0;
              && host in t.entries && !t.entries[host].negative && t.entries[host].ips == s.flights[host].found
              && t.entries[host].expiresAt == at + s.flights[host].ttl >= at + cfg.minTTL
  {
    TtlAboveFloor(Init(now), es, cfg);
    RunKeepsInv(Init(now), es, cfg);
    var s := Run(Init(now), es, cfg);
    if host in s.flights && s.flights[host].Storing? && at <= s.clock {
      StoreFoundGives(s, host, at, cfg);
    }
  }

  // ----- Interleaving the two families

  function OfFamily(ips: seq<IP>, v4: bool): (r: seq<IP>)
    ensures forall ip | ip in r :: ip.isV4 == v4
  {
    if ips == [] then []
    else if ips[0].isV4 == v4 then [ips[0]] + OfFamily(ips[1..], v4)
    else OfFamily(ips[1..], v4)
  }

  function Interleave(a: seq<IP>, b: seq<IP>): (r: seq<IP>)
    ensures |r| == |a| + |b|
  {
    if a == [] then b else if b == [] then a else [a[0], b[0]] + Interleave(a[1..], b[1..])
  }

  method Partition(ips: seq<IP>) returns (ipv4: seq<IP>, ipv6: seq<IP>)
    ensures ipv4 == OfFamily(ips, true) && ipv6 == OfFamily(ips, false)
  {
    ipv4, ipv6 := [], [];
    for i := 0 to |ips|
      invariant ipv4 + OfFamily(ips[i..], true) == OfFamily(ips, true)
      invariant ipv6 + OfFamily(ips[i..], false) == OfFamily(ips, false)
    {
      assert ips[i..][0] == ips[i] && ips[i..][1..] == ips[i + 1..];
      if ips[i].isV4 {
        ipv4 := ipv4 + [ips[i]];
      } else {
        ipv6 := ipv6 + [ips[i]];
      }
    }
  }

  /** The first i and j addresses have been taken, and the rest completes the list. */
  ghost predicate TakenUpTo(result: seq<IP>, a: seq<IP>, b: seq<IP>, i: nat, j: nat)
  {
    i <= |a| && j <= |b| && result + Interleave(a[i..], b[j..]) == Interleave(a, b)
  }

  /** One turn of the loop takes the head of each non-empty list. */
  lemma AlternateTurn(result: seq<IP>, a: seq<IP>, b: seq<IP>, i: nat, j: nat)
    requires TakenUpTo(result, a, b, i, j) && (i < |a| || j < |b|)
    ensures var next := result + (if i < |a| then [a[i]] else []) + (if j < |b| then [b[j]] else []);
            TakenUpTo(next, a, b, if i < |a| then i + 1 else i, if j < |b| then j + 1 else j)
  {
    var x, y := a[i..], b[j..];
    if i == |a| {
      assert x == [] && Interleave(x, y) == [b[j]] + b[j + 1..];
    } else if j == |b| {
      assert y == [] && Interleave(x, y) == [a[i]] + a[i + 1..];
    } else {
      assert x[1..] == a[i + 1..] && y[1..] == b[j + 1..];
      assert Interleave(x, y) == [a[i]] + [b[j]] + Interleave(a[i + 1..], b[j + 1..]);
    }
  }

  lemma TakenAll(result: seq<IP>, a: seq<IP>, b: seq<IP>)
    requires TakenUpTo(result, a, b, |a|, |b|)
    ensures result == Interleave(a, b)
  {
    assert a[|a|..] == [] && b[|b|..] == [];
  }

  lemma TakenNone(a: seq<IP>, b: seq<IP>)
    ensures TakenUpTo([], a, b, 0, 0)
  {
    assert a[0..] == a && b[0..] == b;
  }

  method Alternate(a: seq<IP>, b: seq<IP>) returns (result: seq<IP>)
    ensures result == Interleave(a, b)
  {
    result := [];
    var i, j := 0, 0;
    TakenNone(a, b);
    while i < |a| || j < |b|
      invariant 0 <= i <= |a| && 0 <= j <= |b| && TakenUpTo(result, a, b, i, j)
      decreases |a| - i + |b| - j
    {
      AlternateTurn(result, a, b, i, j);
      var first := if i < |a| then [a[i]] else [];
      var second := if j < |b| then [b[j]] else [];
      result := result + first + second;
      i, j := if i < |a| then i + 1 else i, if j < |b| then j + 1 else j;
    }
    TakenAll(result, a, b);
  }

  /** ResolveAllSorted after the resolution itself. */
  method SortForDialling(ips: seq<IP>, preferIPv4: bool) returns (result: seq<IP>)
    ensures result == Interleave(OfFamily(ips, preferIPv4), OfFamily(ips, !preferIPv4))
  {
    var ipv4, ipv6 := Partition(ips);
    if preferIPv4 {
      result := Alternate(ipv4, ipv6);
    } else {
      result := Alternate(ipv6, ipv4);
    }
  }

  lemma MultisetCons(a: seq<IP>)
    requires a != []
    ensures multiset(a) == multiset{a[0]} + multiset(a[1..])
  {
    assert a == [a[0]] + a[1..];
  }

  lemma {:induction false} InterleavePermutes(a: seq<IP>, b: seq<IP>)
    ensures multiset(Interleave(a, b)) == multiset(a) + multiset(b)
  {
    if a != [] && b != [] {
      var rest := Interleave(a[1..], b[1..]);
      InterleavePermutes(a[1..], b[1..]);
      MultisetCons(a);
      MultisetCons(b);
      assert multiset([a[0], b[0]] + rest) == multiset{a[0], b[0]} + multiset(rest);
    }
  }

  lemma {:induction false} PartitionPermutes(ips: seq<IP>, v4: bool)
    ensures multiset(OfFamily(ips, v4)) + multiset(OfFamily(ips, !v4)) == multiset(ips)
  {
    if ips != [] {
      PartitionPermutes(ips[1..], v4);
      assert ips == [ips[0]] + ips[1..];
    }
  }

  lemma {:induction false} FamilyOfOne(ips: seq<IP>, v4: bool, other: bool)
    requires forall ip | ip in ips :: ip.isV4 == v4
    ensures OfFamily(ips, other) == if v4 == other then ips else []
  {
    if ips != [] {
      FamilyOfOne(ips[1..], v4, other);
    }
  }

  lemma {:induction false} InterleaveKeepsOrder(a: seq<IP>, b: seq<IP>, v4: bool)
    requires (forall ip | ip in a :: ip.isV4 == v4) && (forall ip | ip in b :: ip.isV4 == !v4)
    ensures OfFamily(Interleave(a, b), v4) == a && OfFamily(Interleave(a, b), !v4) == b
  {
    if a == [] {
      FamilyOfOne(b, !v4, v4);
      FamilyOfOne(b, !v4, !v4);
    } else if b == [] {
      FamilyOfOne(a, v4, v4);
      FamilyOfOne(a, v4, !v4);
    } else {
      InterleaveKeepsOrder(a[1..], b[1..], v4);
      var r, rest := Interleave(a, b), Interleave(a[1..], b[1..]);
      assert r[0] == a[0] && r[1..][0] == b[0] && r[1..][1..] == rest;
    }
  }

  function Shorter(a: seq<IP>, b: seq<IP>): nat
  {
    if |a| < |b| then |a| else |b|
  }

  /** The list r takes from a and b in turn until one runs out, and then the rest of the other. */
  ghost predicate Alternates(r: seq<IP>, a: seq<IP>, b: seq<IP>)
  {
    var m := Shorter(a, b);
    && |r| == |a| + |b|
    && (forall k | 0 <= k < m :: r[2 * k] == a[k] && r[2 * k + 1] == b[k])
    && r[2 * m..] == a[m..] + b[m..]
  }

  lemma AlternatesCons(r: seq<IP>, a: seq<IP>, b: seq<IP>)
    requires a != [] && b != [] && |r| >= 2 && r[0] == a[0] && r[1] == b[0] && Alternates(r[2..], a[1..], b[1..])
    ensures Alternates(r, a, b)
  {
    var m, rest := Shorter(a, b), r[2..];
    forall k | 0 <= k < m
      ensures r[2 * k] == a[k] && r[2 * k + 1] == b[k]
    {
      if k > 0 {
        assert rest[2 * (k - 1)] == a[1..][k - 1] && rest[2 * (k - 1) + 1] == b[1..][k - 1];
      }
    }
    assert r[2 * m..] == rest[2 * (m - 1)..] && a[1..][m - 1..] == a[m..] && b[1..][m - 1..] == b[m..];
  }

  lemma {:induction false} InterleaveAlternates(a: seq<IP>, b: seq<IP>)
    ensures Alternates(Interleave(a, b), a, b)
  {
    if a != [] && b != [] {
      InterleaveAlternates(a[1..], b[1..]);
      assert Interleave(a, b)[2..] == Interleave(a[1..], b[1..]);
      AlternatesCons(Interleave(a, b), a, b);
    }
  }

  /** The sorted list is a permutation of the resolved addresses that keeps each family's order and
      alternates from the preferred family until one runs out, then appends the rest. */
  lemma SortedForDialling(ips: seq<IP>, preferIPv4: bool)
    ensures var a, b := OfFamily(ips, preferIPv4), OfFamily(ips, !preferIPv4);
            var r := Interleave(a, b);
            var m := if |a| < |b| then |a| else |b|;
            && multiset(r) == multiset(ips)
            && OfFamily(r, preferIPv4) == a && OfFamily(r, !preferIPv4) == b
            && (forall k | 0 <= k < m :: r[2 * k].isV4 == preferIPv4 && r[2 * k + 1].isV4 == !preferIPv4)
            && r[2 * m..] == a[m..] + b[m..]
  {
    var a, b := OfFamily(ips, preferIPv4), OfFamily(ips, !preferIPv4);
    InterleavePermutes(a, b);
    PartitionPermutes(ips, preferIPv4);
    InterleaveKeepsOrder(a, b, preferIPv4);
    InterleaveAlternates(a, b);
  }

  // ----- What each kind of failure does

  /** A name that does not resolve is answered with that error and remembered, never covered up by an old address; so is
      any other permanent resolver error. */
  lemma PermanentFailureIsRemembered(s: State, host: string, at: Time, notFound: bool, timeout: bool, temporary: bool,
                                     cfg: Config)
    requires host in s.flights && s.flights[host].LookingUp? && at <= s.clock
    requires notFound || (!timeout && !temporary)
    ensures var err := DnsError(notFound, timeout, temporary);
            var (t, a) := Step(s, Finish(host, Failed(err), at), cfg);
            && a == Some(NoAnswer(err))
            && host in t.entries && t.entries[host] == Entry([], at + cfg.negTTL, true, err, cfg.network)
  {
  }

  /** A timeout, a temporary failure, a cancellation and any error that is not the resolver's leave the cache alone and
      are covered by the old addresses of the family, where there are some. */
  lemma PassingFailureIsCovered(s: State, host: string, at: Time, err: LookupError, cfg: Config)
    requires host in s.flights && s.flights[host].LookingUp? && at <= s.clock
    requires err.DnsError? ==> !err.isNotFound && (err.isTimeout || err.isTemporary)
    ensures var (t, a) := Step(s, Finish(host, Failed(err), at), cfg);
            var stale := s.flights[host].snap;
            && t.entries == s.entries
            && a == (if stale.Some? && stale.value.network == cfg.network && !stale.value.negative &&
                        stale.value.ips != []
                     then Some(Addresses(stale.value.ips)) else Some(NoAnswer(err)))
  {
  }

  /** A cached answer is given without a lookup exactly while it is fresh and of the current family, and it repeats what
      was stored: the addresses, or the error. */
  lemma AskAnswersFromFreshEntry(s: State, host: string, cfg: Config)
    ensures var (t, a) := Step(s, Ask(host), cfg);
            && (a.Some? <==>
                host in s.entries && s.entries[host].network == cfg.network && s.clock <= s.entries[host].expiresAt)
            && (a.Some? ==>
                  && t == s
                  && a.value == if s.entries[host].negative then NoAnswer(s.entries[host].err)
                                else Addresses(s.entries[host].ips))
            && (a.None? ==> host in t.flights)
  {
  }

  // ----- What each step changes

  lemma {:induction false} RunSnoc(s: State, es: seq<Event>, e: Event, cfg: Config)
    ensures Run(s, es + [e], cfg) == Step(Run(s, es, cfg), e, cfg).0
    decreases |es|
  {
    if es == [] {
      assert [e][1..] == [];
      assert [] + [e] == [e];
    } else {
      assert (es + [e])[0] == es[0] && (es + [e])[1..] == es[1..] + [e];
      RunSnoc(Step(s, es[0], cfg).0, es[1..], e, cfg);
    }
  }

  /** A shared lookup runs from the question that finds nothing fresh to the answer, and then is over: the host can be
      asked for again. No other step ends it. */
  lemma FlightRunsToItsAnswer(s: State, e: Event, host: string, cfg: Config)
    ensures var (t, a) := Step(s, e, cfg);
            && (host !in s.flights ==> (host in t.flights <==> e == Ask(host) && a.None?))
            && (host in s.flights ==>
                  (host !in t.flights <==> (e.Recheck? || e.StoreFound? || e.Finish?) && e.host == host && a.Some?))
  {
  }

  /** Time passes only with the clock, and the time to live changes only by SetTTL, which floors it. */
  lemma ClockAndTtl(s: State, e: Event, cfg: Config)
    ensures var t := Step(s, e, cfg).0;
            && t.clock == (if e.Tick? then s.clock + e.elapsed else s.clock)
            && t.defaultTTL == (if !e.SetTTL? then s.defaultTTL else if e.ttl < cfg.minTTL then cfg.minTTL else e.ttl)
  {
  }

  /** Without a store, entries only disappear: the expired ones by a cleanup, one by its name, all by a clear. */
  lemma EntriesWithoutAStore(s: State, e: Event, host: string, cfg: Config)
    requires !e.StoreFound? && !e.Finish?
    ensures var t := Step(s, e, cfg).0;
            && (host in t.entries <==>
                  && host in s.entries && e != Clear && e != Invalidate(host)
                  && (e.Cleanup? ==> s.clock <= s.entries[host].expiresAt))
            && (host in t.entries ==> t.entries[host] == s.entries[host])
  {
  }
}
