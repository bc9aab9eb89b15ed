/** The Akamai HTTP/2 fingerprint shorthand (fingerprint/akamai.go):
    SETTINGS|WINDOW_UPDATE|PRIORITY|PSEUDO_HEADER_ORDER. */
module Akamai {
  import opened Text
  import opened Wrappers

  /** The HTTP/2 settings block of a preset; zero and false where nothing was said. */
  datatype Settings = Settings(
    headerTableSize: nat,
    enablePush: bool,
    maxConcurrentStreams: nat,
    initialWindowSize: nat,
    maxFrameSize: nat,
    maxHeaderListSize: nat,
    connectionWindowUpdate: nat,
    streamWeight: nat,
    streamExclusive: bool,
    noRfc7540Priorities: bool)

  const ZERO := Settings(0, false, 0, 0, 0, 0, 0, 0, false, false)

  // ----- Numbers

  predicate IsDigit(c: char)
  {
    '0' <= c <= '9'
  }

  function DigitValue(c: char): nat
    requires IsDigit(c)
  {
    c as int - '0' as int
  }

  function DecimalValue(s: string): nat
    requires forall i | 0 <= i < |s| :: IsDigit(s[i])
  {
    if s == "" then 0 else 10 * DecimalValue(s[..|s| - 1]) + DigitValue(s[|s| - 1])
  }

  /** strconv.ParseUint in base 10: digits only, at least one, below the bound. */
  function ParseUint(s: string, bound: nat): (r: Option<nat>)
    ensures r.Some? ==> s != "" && r.value < bound
  {
    if s != "" && (forall i | 0 <= i < |s| :: IsDigit(s[i])) && DecimalValue(s) < bound then Some(DecimalValue(s))
    else None
  }

  const BOUND16: nat := 0x1_0000
  const BOUND32: nat := 0x1_0000_0000

  // ----- The fields, declaratively

  datatype Pair = Pair(id: nat, val: nat)

  function PairFrom(idText: string, valText: string): Option<Pair>
  {
    var id, val := ParseUint(Trim(idText), BOUND16), ParseUint(Trim(valText), BOUND32);
    if id.None? || val.None? then None else Some(Pair(id.value, val.value))
  }

  /** One trimmed, non-empty settings item. */
  function ParsePair(item: string): Option<Pair>
  {
    var colon := IndexOf(item, ":");
    if colon == -1 then None else PairFrom(item[..colon], item[colon + 1..])
  }

  /** The pairs of a list of items; blank items are skipped, a bad one spoils the list. */
  function ParsePairs(items: seq<string>): Result<seq<Pair>>
  {
    if items == [] then Ok([])
    else
      var front := ParsePairs(items[..|items| - 1]);
      var item := Trim(items[|items| - 1]);
      if front.Err? then Err
      else if item == "" then front
      else
        var p := ParsePair(item);
        if p.None? then Err else Ok(front.value + [p.value])
  }

  function PseudoHeader(ch: string): Option<string>
  {
    if ch == "m" then Some(":method")
    else if ch == "a" then Some(":authority")
    else if ch == "s" then Some(":scheme")
    else if ch == "p" then Some(":path")
    else None
  }

  function ParsePseudo(items: seq<string>): Result<seq<string>>
  {
    if items == [] then Ok([])
    else
      var front := ParsePseudo(items[..|items| - 1]);
      var h := PseudoHeader(Trim(items[|items| - 1]));
      if front.Err? || h.None? then Err else Ok(front.value + [h.value])
  }

  /** What an accepted string says. */
  datatype Meaning = Meaning(pairs: seq<Pair>, window: Option<nat>, weight: Option<nat>, pseudo: seq<string>)

  function OptionalUint(field: string, bound: nat): Result<Option<nat>>
  {
    if field == "" then Ok(None)
    else
      var v := ParseUint(Trim(field), bound);
      if v.None? then Err else Ok(v)
  }

  function Fields(akamai: string): seq<string>
  {
    Split(akamai, '|')
  }

  function SettingItems(field: string): seq<string>
  {
    if field == "" then [] else Split(field, ';')
  }

  function PseudoItems(field: string): seq<string>
  {
    if field == "" then [] else Split(Trim(field), ',')
  }

  function ReadFields(parts: seq<string>): Result<Meaning>
    requires |parts| == 4
  {
    var pairs := ParsePairs(SettingItems(parts[0]));
    var window := OptionalUint(parts[1], BOUND32);
    var weight := OptionalUint(parts[2], BOUND16);
    var pseudo := ParsePseudo(PseudoItems(parts[3]));
    if pairs.Err? || window.Err? || weight.Err? || pseudo.Err? then Err
    else Ok(Meaning(pairs.value, window.value, weight.value, pseudo.value))
  }

  function Read(akamai: string): Result<Meaning>
  {
    var parts := Fields(akamai);
    if |parts| != 4 then Err else ReadFields(parts)
  }

  /** The last value given for an id. */
  function LastValue(pairs: seq<Pair>, id: nat): Option<nat>
  {
    if pairs == [] then None
    else if pairs[|pairs| - 1].id == id then Some(pairs[|pairs| - 1].val)
    else LastValue(pairs[..|pairs| - 1], id)
  }

  function Or(v: Option<nat>, default: nat): nat
  {
    if v.Some? then v.value else default
  }

  /** The settings an accepted string stands for: per slot the last pair, zero where none. */
  function SettingsOf(m: Meaning): Settings
  {
    var weight := Or(m.weight, 0);
    Settings(
      Or(LastValue(m.pairs, 1), 0), Or(LastValue(m.pairs, 2), 0) != 0, Or(LastValue(m.pairs, 3), 0),
      Or(LastValue(m.pairs, 4), 0), Or(LastValue(m.pairs, 5), 0), Or(LastValue(m.pairs, 6), 0),
      Or(m.window, 0), weight, weight > 0, Or(LastValue(m.pairs, 9), 0) != 0)
  }

  /** The ids of the pairs. */
  function Ids(pairs: seq<Pair>): set<nat>
  {
    set p | p in pairs :: p.id
  }

  // ----- The parser

  /** One turn of the settings switch; other ids are ignored. */
  function WithPair(s: Settings, p: Pair): Settings
  {
    if p.id == 1 then s.(headerTableSize := p.val)
    else if p.id == 2 then s.(enablePush := p.val != 0)
    else if p.id == 3 then s.(maxConcurrentStreams := p.val)
    else if p.id == 4 then s.(initialWindowSize := p.val)
    else if p.id == 5 then s.(maxFrameSize := p.val)
    else if p.id == 6 then s.(maxHeaderListSize := p.val)
    else if p.id == 9 then s.(noRfc7540Priorities := p.val != 0)
    else s
  }

  lemma LastValueAppend(pairs: seq<Pair>, p: Pair, id: nat)
    ensures LastValue(pairs + [p], id) == if p.id == id then Some(p.val) else LastValue(pairs, id)
  {
    assert (pairs + [p])[..|pairs|] == pairs;
  }

  lemma WithPairIsLast(pairs: seq<Pair>, p: Pair)
    ensures SettingsOf(Meaning(pairs + [p], None, None, [])) == WithPair(SettingsOf(Meaning(pairs, None, None, [])), p)
  {
    LastValueAppend(pairs, p, 1);
    LastValueAppend(pairs, p, 2);
    LastValueAppend(pairs, p, 3);
    LastValueAppend(pairs, p, 4);
    LastValueAppend(pairs, p, 5);
    LastValueAppend(pairs, p, 6);
    LastValueAppend(pairs, p, 9);
  }

  lemma {:induction false} ParsePairsFails(items: seq<string>, i: nat)
    requires i <= |items| && ParsePairs(items[..i]).Err?
    ensures ParsePairs(items).Err?
    decreases |items|
  {
    if i == |items| {
      assert items[..i] == items;
    } else {
      assert items[..|items| - 1][..i] == items[..i];
      ParsePairsFails(items[..|items| - 1], i);
    }
  }

  lemma PairsStep(items: seq<string>, i: nat)
    requires i < |items| && ParsePairs(items[..i]).Ok?
    ensures var item := Trim(items[i]);
            ParsePairs(items[..i + 1]) ==
              if item == "" then ParsePairs(items[..i])
              else if ParsePair(item).None? then Err
              else Ok(ParsePairs(items[..i]).value + [ParsePair(item).value])
  {
    assert items[..i + 1][..i] == items[..i];
  }

  method ParseItems(items: seq<string>) returns (r: Result<Settings>)
    ensures r == if ParsePairs(items).Err? then Err
            else Ok(SettingsOf(Meaning(ParsePairs(items).value, None, None, [])))
  {
    var settings := ZERO;
    ghost var pairs: seq<Pair> := [];
    for i := 0 to |items|
      invariant ParsePairs(items[..i]) == Ok(pairs)
      invariant settings == SettingsOf(Meaning(pairs, None, None, []))
    {
      PairsStep(items, i);
      var item := Trim(items[i]);
      if item != "" {
        var p := ParsePair(item);
        if p.None? {
          ParsePairsFails(items, i + 1);
          return Err;
        }
        WithPairIsLast(pairs, p.value);
        settings := WithPair(settings, p.value);
        pairs := pairs + [p.value];
      }
    }
    assert items[..|items|] == items;
    r := Ok(settings);
  }

  method ParseSettings(field: string) returns (r: Result<Settings>)
    ensures var pairs := ParsePairs(SettingItems(field));
            r == if pairs.Err? then Err else Ok(SettingsOf(Meaning(pairs.value, None, None, [])))
  {
    if field != "" {
      r := ParseItems(Split(field, ';'));
    } else {
      r := ParseItems([]);
    }
  }

  lemma {:induction false} ParsePseudoFails(items: seq<string>, i: nat)
    requires i <= |items| && ParsePseudo(items[..i]).Err?
    ensures ParsePseudo(items).Err?
    decreases |items|
  {
    if i == |items| {
      assert items[..i] == items;
    } else {
      assert items[..|items| - 1][..i] == items[..i];
      ParsePseudoFails(items[..|items| - 1], i);
    }
  }

  lemma PseudoStep(items: seq<string>, i: nat)
    requires i < |items| && ParsePseudo(items[..i]).Ok?
    ensures var h := PseudoHeader(Trim(items[i]));
            ParsePseudo(items[..i + 1]) == if h.None? then Err else Ok(ParsePseudo(items[..i]).value + [h.value])
  {
    assert items[..i + 1][..i] == items[..i];
  }

  method ParsePseudoItems(items: seq<string>) returns (r: Result<seq<string>>)
    ensures r == ParsePseudo(items)
  {
    var order: seq<string> := [];
    for i := 0 to |items|
      invariant ParsePseudo(items[..i]) == Ok(order)
    {
      PseudoStep(items, i);
      var h := PseudoHeader(Trim(items[i]));
      if h.None? {
        ParsePseudoFails(items, i + 1);
        return Err;
      }
      order := order + [h.value];
    }
    assert items[..|items|] == items;
    return Ok(order);
  }

  method ParsePseudoOrder(field: string) returns (r: Result<seq<string>>)
    ensures r == ParsePseudo(PseudoItems(field))
  {
    if field != "" {
      r := ParsePseudoItems(Split(Trim(field), ','));
    } else {
      r := Ok([]);
    }
  }

  method ParseOptional(field: string, bound: nat) returns (r: Result<Option<nat>>)
    ensures r == OptionalUint(field, bound)
  {
    r := Ok(None);
    if field != "" {
      var v := ParseUint(Trim(field), bound);
      if v.None? {
        return Err;
      }
      r := Ok(v);
    }
  }

  /** The settings of some pairs, once the window field is known. */
  lemma WindowSets(pairs: seq<Pair>, window: Option<nat>)
    ensures var base := SettingsOf(Meaning(pairs, None, None, []));
            SettingsOf(Meaning(pairs, window, None, [])) ==
            if window.Some? then base.(connectionWindowUpdate := window.value) else base
  {
  }

  /** The same, once the weight field is known too; only a positive weight is written. */
  lemma WeightSets(pairs: seq<Pair>, window: Option<nat>, weight: Option<nat>, pseudo: seq<string>)
    ensures var base := SettingsOf(Meaning(pairs, window, None, []));
            SettingsOf(Meaning(pairs, window, weight, pseudo)) ==
            if Or(weight, 0) > 0 then base.(streamWeight := weight.value, streamExclusive := true) else base
  {
  }

  /** The three numeric fields, in the code's order. */
  method ParseNumbers(parts: seq<string>) returns (r: Result<Settings>)
    requires |parts| == 4
    ensures var pairs := ParsePairs(SettingItems(parts[0]));
            var window, weight := OptionalUint(parts[1], BOUND32), OptionalUint(parts[2], BOUND16);
            r == if pairs.Err? || window.Err? || weight.Err? then Err
                 else Ok(SettingsOf(Meaning(pairs.value, window.value, weight.value, [])))
  {
    var base := ParseSettings(parts[0]);
    if base.Err? {
      return Err;
    }
    ghost var pairs := ParsePairs(SettingItems(parts[0])).value;
    var settings := base.value;
    var window := ParseOptional(parts[1], BOUND32);
    if window.Err? {
      return Err;
    }
    if window.value.Some? {
      settings := settings.(connectionWindowUpdate := window.value.value);
    }
    WindowSets(pairs, window.value);
    var weight := ParseOptional(parts[2], BOUND16);
    if weight.Err? {
      return Err;
    }
    if weight.value.Some? && weight.value.value > 0 {
      settings := settings.(streamWeight := weight.value.value, streamExclusive := true);
    }
    WeightSets(pairs, window.value, weight.value, []);
    return Ok(settings);
  }

  method ParseFields(parts: seq<string>) returns (r: Result<(Settings, seq<string>)>)
    requires |parts| == 4
    ensures r == if ReadFields(parts).Err? then Err
            else Ok((SettingsOf(ReadFields(parts).value), ReadFields(parts).value.pseudo))
  {
    var settings := ParseNumbers(parts);
    if settings.Err? {
      return Err;
    }
    var order := ParsePseudoOrder(parts[3]);
    if order.Err? {
      return Err;
    }
    return Ok((settings.value, order.value));
  }

  method ParseAkamai(akamai: string) returns (r: Result<(Settings, seq<string>)>)
    ensures r == if Read(akamai).Err? then Err else Ok((SettingsOf(Read(akamai).value), Read(akamai).value.pseudo))
  {
    var parts := Split(akamai, '|');
    if |parts| != 4 {
      return Err;
    }
    r := ParseFields(parts);
  }

  // ----- Which fields were present

  datatype Presence = Presence(settings: Settings, pseudo: seq<string>, seen: set<nat>, hasWindowUpdate: bool,
                               hasStreamWeight: bool)

  predicate WeightPresent(field: string)
  {
    Trim(field) != "" && Trim(field) != "0"
  }

  function PresenceIn(parts: seq<string>): Presence
    requires |parts| == 4 && ReadFields(parts).Ok?
  {
    var m := ReadFields(parts).value;
    Presence(SettingsOf(m), m.pseudo, Ids(m.pairs), m.window.Some?, WeightPresent(parts[2]))
  }

  function PresenceOf(akamai: string): Presence
    requires Read(akamai).Ok?
  {
    PresenceIn(Fields(akamai))
  }

  /** The id that the second scan finds in an item. */
  lemma IdOfPair(item: string)
    requires ParsePair(item).Some?
    ensures var colon := IndexOf(item, ":");
            colon != -1 && ParseUint(Trim(item[..colon]), BOUND16) == Some(ParsePair(item).value.id)
  {
  }

  lemma IdsAppend(pairs: seq<Pair>, p: Pair)
    ensures Ids(pairs + [p]) == Ids(pairs) + {p.id}
  {
  }

  /** The second scan, which repeats the settings loop to collect ids. */
  method CollectIds(items: seq<string>) returns (seen: set<nat>)
    requires ParsePairs(items).Ok?
    ensures seen == Ids(ParsePairs(items).value)
  {
    seen := {};
    ghost var pairs: seq<Pair> := [];
    for i := 0 to |items|
      invariant ParsePairs(items[..i]) == Ok(pairs) && seen == Ids(pairs)
    {
      PairsStep(items, i);
      if ParsePairs(items[..i + 1]).Err? {
        ParsePairsFails(items, i + 1);
      }
      var item := Trim(items[i]);
      if item != "" {
        IdOfPair(item);
        var colon := IndexOf(item, ":");
        if colon != -1 {
          var id := ParseUint(Trim(item[..colon]), BOUND16);
          if id.Some? {
            seen := seen + {id.value};
          }
        }
        IdsAppend(pairs, ParsePair(item).value);
        pairs := pairs + [ParsePair(item).value];
      }
    }
    assert items[..|items|] == items;
  }

  /** A field that parses is present exactly when it is not blank. */
  lemma PresentIffNotBlank(field: string, bound: nat)
    requires OptionalUint(field, bound).Ok?
    ensures OptionalUint(field, bound).value.Some? <==> Trim(field) != ""
  {
    assert Trim("") == "";
  }

  method CollectPresence(parts: seq<string>, settings: Settings, pseudo: seq<string>) returns (pres: Presence)
    requires |parts| == 4 && ReadFields(parts).Ok?
    requires settings == SettingsOf(ReadFields(parts).value) && pseudo == ReadFields(parts).value.pseudo
    ensures pres == PresenceIn(parts)
  {
    var seen := CollectIds(if parts[0] != "" then Split(parts[0], ';') else []);
    PresentIffNotBlank(parts[1], BOUND32);
    var w := Trim(parts[2]);
    pres := Presence(settings, pseudo, seen, Trim(parts[1]) != "", w != "" && w != "0");
  }

  method ParseAkamaiDetailed(akamai: string) returns (r: Result<Presence>)
    ensures r == if Read(akamai).Err? then Err else Ok(PresenceOf(akamai))
  {
    var parsed := ParseAkamai(akamai);
    if parsed.Err? {
      return Err;
    }
    var pres := CollectPresence(Split(akamai, '|'), parsed.value.0, parsed.value.1);
    return Ok(pres);
  }

  // ----- What presence means

  lemma {:induction false} SeenIffGiven(pairs: seq<Pair>, id: nat)
    ensures id in Ids(pairs) <==> LastValue(pairs, id).Some?
  {
    if pairs != [] {
      var front, last := pairs[..|pairs| - 1], pairs[|pairs| - 1];
      SeenIffGiven(front, id);
      assert pairs == front + [last];
      assert Ids(pairs) == Ids(front) + {last.id};
    }
  }

  lemma {:induction false} DecimalZero(s: string)
    requires forall i | 0 <= i < |s| :: IsDigit(s[i])
    ensures DecimalValue(s) == 0 <==> forall i | 0 <= i < |s| :: s[i] == '0'
  {
    if s != "" {
      DecimalZero(s[..|s| - 1]);
    }
  }

  /** A weight field that parses: present and positive are the same unless it is two or more zeros. */
  lemma WeightField(field: string)
    requires OptionalUint(field, BOUND16).Ok?
    ensures var w := Trim(field);
            (WeightPresent(field) <==> Or(OptionalUint(field, BOUND16).value, 0) > 0) <==>
            !(|w| >= 2 && forall i | 0 <= i < |w| :: w[i] == '0')
  {
    var w := Trim(field);
    if field == "" {
      assert w == "";
    } else {
      DecimalZero(w);
      assert w == "0" <==> |w| == 1 && w[0] == '0';
    }
  }

  /** For an accepted string the weight flag means "a non-zero weight was given" unless the field is
      written as two or more zeros, which the parser reads as zero yet still reports as present. */
  lemma WeightFlagMeansPositive(akamai: string)
    requires Read(akamai).Ok?
    ensures var w := Trim(Fields(akamai)[2]);
            (PresenceOf(akamai).hasStreamWeight <==> Or(Read(akamai).value.weight, 0) > 0) <==>
            !(|w| >= 2 && forall i | 0 <= i < |w| :: w[i] == '0')
  {
    WeightField(Fields(akamai)[2]);
  }
}
