/** Writing the Akamai shorthand and reading it back (fingerprint/akamai.go): the parser recovers what an ordinary
    writer puts down, and each slot of the settings is the last value given for its identifier. */
module AkamaiText {
  import opened Text
  import opened Wrappers
  import opened A = Akamai

  lemma {:induction false} JoinIsPlain(parts: seq<string>, sep: string, mark: char)
    requires mark !in sep && forall p | p in parts :: mark !in p
    ensures mark !in Join(parts, sep)
    decreases |parts|
  {
    if |parts| > 1 {
      JoinIsPlain(parts[1..], sep, mark);
    }
  }

  /** Induction over lists built by appending. */
  lemma {:induction false} ByAppending<T>(holds: seq<T> -> bool, fits: T -> bool, s: seq<T>)
    requires holds([]) && forall front, x | holds(front) && fits(x) :: holds(front + [x])
    requires forall x | x in s :: fits(x)
    ensures holds(s)
    decreases |s|
  {
    if s != [] {
      var front, last := s[..|s| - 1], s[|s| - 1];
      ByAppending(holds, fits, front);
      assert front + [last] == s;
    }
  }

  // ----- Decimal numerals

  function Digit(d: nat): (c: char)
    requires d < 10
    ensures IsDigit(c)
  {
    ['0', '1', '2', '3', '4', '5', '6', '7', '8', '9'][d]
  }

  /** n written in base ten. */
  function Numeral(n: nat): (s: string)
    ensures s != "" && forall i | 0 <= i < |s| :: IsDigit(s[i])
  {
    if n < 10 then [Digit(n)] else Numeral(n / 10) + [Digit(n % 10)]
  }

  lemma {:induction false} NumeralReads(n: nat)
    ensures DecimalValue(Numeral(n)) == n
  {
    if n < 10 {
      assert [Digit(n)][..0] == "";
    } else {
      NumeralReads(n / 10);
      var s := Numeral(n);
      assert s[..|s| - 1] == Numeral(n / 10);
    }
  }

  lemma DigitsAreTrimmed(s: string)
    requires s != "" && forall i | 0 <= i < |s| :: IsDigit(s[i])
    ensures Trim(s) == s
  {
    assert Trimmed(s);
  }

  lemma NumeralParses(n: nat, bound: nat)
    ensures ParseUint(Trim(Numeral(n)), bound) == if n < bound then Some(n) else None
  {
    NumeralReads(n);
    DigitsAreTrimmed(Numeral(n));
  }

  /** No digit is one of the marks that structure the shorthand. */
  lemma NumeralIsPlain(n: nat, mark: char)
    requires !IsDigit(mark)
    ensures mark !in Numeral(n)
  {
  }

  // ----- The settings field

  function PairText(p: Pair): string
  {
    Numeral(p.id) + ":" + Numeral(p.val)
  }

  predicate Fits(p: Pair)
  {
    p.id < 0x1_0000 && p.val < 0x1_0000_0000
  }

  lemma ColonOf(p: Pair)
    ensures IndexOf(PairText(p), ":") == |Numeral(p.id)|
  {
    var s, k := PairText(p), |Numeral(p.id)|;
    CharOccurs(s, ':', k);
    var i := IndexOf(s, ":");
    CharOccurs(s, ':', i);
    NumeralIsPlain(p.id, ':');
    assert s[k] == ':' && forall j | 0 <= j < k :: s[j] == Numeral(p.id)[j];
  }

  lemma PartsRead(item: string, id: string, val: string, p: Pair)
    requires item == id + ":" + val && IndexOf(item, ":") == |id| && PairFrom(id, val) == Some(p)
    ensures ParsePair(item) == Some(p)
  {
    assert item[..|id|] == id && item[|id| + 1..] == val;
  }

  lemma PairReads(p: Pair)
    requires Fits(p)
    ensures ParsePair(PairText(p)) == Some(p)
  {
    ColonOf(p);
    assert PairFrom(Numeral(p.id), Numeral(p.val)) == Some(p) by {
      NumeralParses(p.id, BOUND16);
      NumeralParses(p.val, BOUND32);
    }
    PartsRead(PairText(p), Numeral(p.id), Numeral(p.val), p);
  }

  /** The item stands for the pair, white space and separators aside. */
  ghost predicate Says(item: string, p: Pair)
  {
    item != "" && Trim(item) == item && ';' !in item && '|' !in item && ParsePair(item) == Some(p)
  }

  lemma EndsInDigits(a: string, b: string, c: string)
    requires a != "" && c != "" && IsDigit(a[0]) && IsDigit(c[|c| - 1])
    ensures a + b + c != "" && Trim(a + b + c) == a + b + c
  {
    assert Trimmed(a + b + c);
  }

  lemma PairTextSays(p: Pair)
    requires Fits(p)
    ensures Says(PairText(p), p)
  {
    PairReads(p);
    EndsInDigits(Numeral(p.id), ":", Numeral(p.val));
    NumeralIsPlain(p.id, ';');
    NumeralIsPlain(p.val, ';');
    NumeralIsPlain(p.id, '|');
    NumeralIsPlain(p.val, '|');
  }

  lemma SaidAppend(front: seq<string>, ps: seq<Pair>, item: string, p: Pair)
    requires ParsePairs(front) == Ok(ps) && Says(item, p)
    ensures ParsePairs(front + [item]) == Ok(ps + [p])
  {
    assert (front + [item])[..|front|] == front;
  }

  /** The texts of some pairs, in order. */
  function PairTexts(ps: seq<Pair>): (ts: seq<string>)
    ensures |ts| == |ps|
  {
    if ps == [] then [] else PairTexts(ps[..|ps| - 1]) + [PairText(ps[|ps| - 1])]
  }

  ghost predicate ListReads(ps: seq<Pair>)
  {
    ParsePairs(PairTexts(ps)) == Ok(ps)
  }

  lemma NoneRead()
    ensures ListReads([])
  {
  }

  lemma OneMoreReads(front: seq<Pair>, p: Pair)
    requires ListReads(front) && Fits(p)
    ensures ListReads(front + [p])
  {
    PairTextSays(p);
    SaidAppend(PairTexts(front), front, PairText(p), p);
    assert (front + [p])[..|front|] == front;
  }

  lemma PairsRead(ps: seq<Pair>)
    requires forall p | p in ps :: Fits(p)
    ensures ListReads(ps)
  {
    NoneRead();
    forall front, p | ListReads(front) && Fits(p)
      ensures ListReads(front + [p])
    {
      OneMoreReads(front, p);
    }
    ByAppending(qs => ListReads(qs), p => Fits(p), ps);
  }

  /** Every text is non-empty and free of separators. */
  ghost predicate Separable(ts: seq<string>)
  {
    forall t | t in ts :: t != "" && ';' !in t && '|' !in t
  }

  lemma PairTextIsSeparable(p: Pair)
    ensures Separable([PairText(p)])
  {
    NumeralIsPlain(p.id, ';');
    NumeralIsPlain(p.val, ';');
    NumeralIsPlain(p.id, '|');
    NumeralIsPlain(p.val, '|');
  }

  lemma {:induction false} PairTextsAreSeparable(ps: seq<Pair>)
    ensures Separable(PairTexts(ps))
    decreases |ps|
  {
    if ps != [] {
      PairTextsAreSeparable(ps[..|ps| - 1]);
      PairTextIsSeparable(ps[|ps| - 1]);
    }
  }

  function SettingsText(ps: seq<Pair>): string
  {
    Join(PairTexts(ps), ";")
  }

  lemma SeparableSplits(ts: seq<string>)
    requires Separable(ts)
    ensures SettingItems(Join(ts, ";")) == ts && '|' !in Join(ts, ";")
  {
    JoinIsPlain(ts, ";", '|');
    if ts != [] {
      assert [';'] == ";" && ts[0] in ts;
      SplitOfJoin(ts, ';');
    }
  }

  ghost predicate SettingsRead(ps: seq<Pair>)
  {
    ParsePairs(SettingItems(SettingsText(ps))) == Ok(ps) && '|' !in SettingsText(ps)
  }

  lemma WrittenSettingsRead(ps: seq<Pair>)
    requires forall p | p in ps :: Fits(p)
    ensures SettingsRead(ps)
  {
    PairsRead(ps);
    PairTextsAreSeparable(ps);
    SeparableSplits(PairTexts(ps));
  }

  // ----- The pseudo-header field

  const PSEUDO_HEADERS := {":method", ":authority", ":scheme", ":path"}

  /** A pseudo-header is written as the first letter of its name. */
  function LetterOf(header: string): string
    requires header in PSEUDO_HEADERS
  {
    [header[1]]
  }

  lemma OneCharStays(c: char)
    requires !IsSpace(c)
    ensures Trim([c]) == [c]
  {
    assert Trimmed([c]);
  }

  /** The item is a single mark that stands for the header. */
  ghost predicate Names(item: string, h: string)
  {
    |item| == 1 && !IsSpace(item[0]) && item[0] != ',' && item[0] != '|' && PseudoHeader(item) == Some(h)
  }

  lemma LetterNames(header: string)
    requires header in PSEUDO_HEADERS
    ensures Names(LetterOf(header), header)
  {
  }

  /** No other letter is accepted. */
  lemma OnlyFourLetters(ch: string)
    ensures PseudoHeader(ch).Some? <==> ch in {"m", "a", "s", "p"}
  {
  }

  function Letters(hs: seq<string>): (ls: seq<string>)
    requires forall h | h in hs :: h in PSEUDO_HEADERS
    ensures |ls| == |hs|
  {
    if hs == [] then [] else Letters(hs[..|hs| - 1]) + [LetterOf(hs[|hs| - 1])]
  }

  lemma NamedAppend(front: seq<string>, hs: seq<string>, item: string, h: string)
    requires ParsePseudo(front) == Ok(hs) && Names(item, h)
    ensures ParsePseudo(front + [item]) == Ok(hs + [h])
  {
    assert (front + [item])[..|front|] == front && item == [item[0]];
    OneCharStays(item[0]);
  }

  ghost predicate LettersRead(hs: seq<string>)
  {
    (forall h | h in hs :: h in PSEUDO_HEADERS) && ParsePseudo(Letters(hs)) == Ok(hs)
  }

  lemma NoLettersRead()
    ensures LettersRead([])
  {
  }

  lemma OneMoreLetter(front: seq<string>, h: string)
    requires h in PSEUDO_HEADERS && LettersRead(front)
    ensures LettersRead(front + [h])
  {
    LetterNames(h);
    NamedAppend(Letters(front), front, LetterOf(h), h);
    assert (front + [h])[..|front|] == front;
  }

  lemma HeadersRead(hs: seq<string>)
    requires forall h | h in hs :: h in PSEUDO_HEADERS
    ensures LettersRead(hs)
  {
    NoLettersRead();
    forall front, h | LettersRead(front) && h in PSEUDO_HEADERS
      ensures LettersRead(front + [h])
    {
      OneMoreLetter(front, h);
    }
    ByAppending(gs => LettersRead(gs), h => h in PSEUDO_HEADERS, hs);
  }

  /** Every text is one character, no white space and no separator. */
  ghost predicate SingleMarks(ls: seq<string>)
  {
    forall l | l in ls :: |l| == 1 && !IsSpace(l[0]) && ',' !in l && '|' !in l
  }

  lemma {:induction false} LettersAreSingle(hs: seq<string>)
    requires forall h | h in hs :: h in PSEUDO_HEADERS
    ensures SingleMarks(Letters(hs))
    decreases |hs|
  {
    if hs != [] {
      LettersAreSingle(hs[..|hs| - 1]);
      LetterNames(hs[|hs| - 1]);
    }
  }

  function PseudoText(hs: seq<string>): string
    requires forall h | h in hs :: h in PSEUDO_HEADERS
  {
    Join(Letters(hs), ",")
  }

  /** Letters joined by commas begin and end in a letter. */
  lemma {:induction false} MarkListIsTrimmed(ls: seq<string>)
    requires ls != [] && SingleMarks(ls)
    ensures Join(ls, ",") != "" && Trimmed(Join(ls, ","))
    decreases |ls|
  {
    assert ls[0] in ls;
    if |ls| > 1 {
      MarkListIsTrimmed(ls[1..]);
    }
  }

  lemma MarksSplit(ls: seq<string>)
    requires SingleMarks(ls)
    ensures PseudoItems(Join(ls, ",")) == ls && '|' !in Join(ls, ",")
  {
    JoinIsPlain(ls, ",", '|');
    if ls != [] {
      MarkListIsTrimmed(ls);
      assert [','] == ",";
      SplitOfJoin(ls, ',');
    }
  }

  ghost predicate PseudoReads(hs: seq<string>)
    requires forall h | h in hs :: h in PSEUDO_HEADERS
  {
    ParsePseudo(PseudoItems(PseudoText(hs))) == Ok(hs) && '|' !in PseudoText(hs)
  }

  lemma WrittenPseudoReads(hs: seq<string>)
    requires forall h | h in hs :: h in PSEUDO_HEADERS
    ensures PseudoReads(hs)
  {
    HeadersRead(hs);
    LettersAreSingle(hs);
    MarksSplit(Letters(hs));
  }

  // ----- The whole string

  function OptionalText(v: Option<nat>): string
  {
    if v.Some? then Numeral(v.value) else ""
  }

  lemma OptionalReads(v: Option<nat>, bound: nat)
    requires v.Some? ==> v.value < bound
    ensures OptionalUint(OptionalText(v), bound) == Ok(v) && '|' !in OptionalText(v)
  {
    if v.Some? {
      NumeralParses(v.value, bound);
      NumeralIsPlain(v.value, '|');
    }
  }

  predicate Writable(m: Meaning)
  {
    && (forall p | p in m.pairs :: Fits(p))
    && (m.window.Some? ==> m.window.value < 0x1_0000_0000) && (m.weight.Some? ==> m.weight.value < 0x1_0000)
    && (forall h | h in m.pseudo :: h in PSEUDO_HEADERS)
  }

  /** SETTINGS|WINDOW_UPDATE|PRIORITY|PSEUDO_HEADER_ORDER */
  function Written(m: Meaning): string
    requires Writable(m)
  {
    Join([SettingsText(m.pairs), OptionalText(m.window), OptionalText(m.weight), PseudoText(m.pseudo)], "|")
  }

  lemma FourFields(a: string, b: string, c: string, d: string)
    requires '|' !in a && '|' !in b && '|' !in c && '|' !in d
    ensures Fields(Join([a, b, c, d], "|")) == [a, b, c, d]
  {
    assert ['|'] == "|";
    SplitOfJoin([a, b, c, d], '|');
  }

  lemma FieldsRead(a: string, b: string, c: string, d: string, m: Meaning)
    requires '|' !in a && '|' !in b && '|' !in c && '|' !in d
    requires ParsePairs(SettingItems(a)) == Ok(m.pairs) && ParsePseudo(PseudoItems(d)) == Ok(m.pseudo)
    requires OptionalUint(b, BOUND32) == Ok(m.window) && OptionalUint(c, BOUND16) == Ok(m.weight)
    ensures Read(Join([a, b, c, d], "|")) == Ok(m)
  {
    FourFields(a, b, c, d);
  }

  /** Reading undoes writing, for everything the shorthand can say. */
  lemma ReadWritten(m: Meaning)
    requires Writable(m)
    ensures Read(Written(m)) == Ok(m)
  {
    WrittenSettingsRead(m.pairs);
    OptionalReads(m.window, BOUND32);
    OptionalReads(m.weight, BOUND16);
    WrittenPseudoReads(m.pseudo);
    FieldsRead(SettingsText(m.pairs), OptionalText(m.window), OptionalText(m.weight), PseudoText(m.pseudo), m);
  }

  lemma ZeroNumeral(n: nat)
    ensures Numeral(n) == "0" <==> n == 0
  {
    NumeralReads(n);
    NumeralReads(0);
  }

  lemma WrittenWeightPresent(weight: Option<nat>)
    ensures WeightPresent(OptionalText(weight)) <==> weight.Some? && weight.value > 0
  {
    if weight.Some? {
      DigitsAreTrimmed(Numeral(weight.value));
      ZeroNumeral(weight.value);
    }
  }

  /** The weight field of a written shorthand counts as present exactly for a positive weight. */
  lemma WrittenPresence(m: Meaning)
    requires Writable(m)
    ensures Written(m) != "" && Read(Written(m)) == Ok(m)
    ensures PresenceOf(Written(m)).hasStreamWeight <==> m.weight.Some? && m.weight.value > 0
  {
    ReadWritten(m);
    WrittenSettingsRead(m.pairs);
    OptionalReads(m.window, BOUND32);
    OptionalReads(m.weight, BOUND16);
    WrittenPseudoReads(m.pseudo);
    FourFields(SettingsText(m.pairs), OptionalText(m.window), OptionalText(m.weight), PseudoText(m.pseudo));
    WrittenWeightPresent(m.weight);
  }

  // ----- Which slot a pair sets

  /** The value of the setting that an identifier of section 6.5.2 of RFC 9113 or RFC 9218 names. */
  function SlotOf(s: Settings, id: nat): Option<nat>
  {
    match id
    case 1 => Some(s.headerTableSize)
    case 2 => Some(if s.enablePush then 1 else 0)
    case 3 => Some(s.maxConcurrentStreams)
    case 4 => Some(s.initialWindowSize)
    case 5 => Some(s.maxFrameSize)
    case 6 => Some(s.maxHeaderListSize)
    case 9 => Some(if s.noRfc7540Priorities then 1 else 0)
    case _ => None
  }

  /** A flag is on for every value but zero. */
  function Normal(id: nat, v: nat): nat
  {
    if (id == 2 || id == 9) && v != 0 then 1 else v
  }

  /** The last pair with this identifier has this value. */
  ghost predicate LastIs(pairs: seq<Pair>, id: nat, v: nat)
  {
    exists i: nat :: i < |pairs| && pairs[i] == Pair(id, v) && forall j | i < j < |pairs| :: pairs[j].id != id
  }

  ghost predicate NeverGiven(pairs: seq<Pair>, id: nat)
  {
    forall p | p in pairs :: p.id != id
  }

  lemma {:induction false} LastValueIsLast(pairs: seq<Pair>, id: nat)
    ensures LastValue(pairs, id).Some? ==> LastIs(pairs, id, LastValue(pairs, id).value)
    ensures LastValue(pairs, id).None? <==> NeverGiven(pairs, id)
    decreases |pairs|
  {
    if pairs != [] {
      var front, last := pairs[..|pairs| - 1], pairs[|pairs| - 1];
      assert pairs == front + [last];
      if last.id == id {
        assert pairs[|pairs| - 1] == Pair(id, last.val);
      } else {
        LastValueIsLast(front, id);
        if v :| LastIs(front, id, v) {
          var i: nat :| i < |front| && front[i] == Pair(id, v) && forall j | i < j < |front| :: front[j].id != id;
          assert pairs[i] == Pair(id, v);
        }
      }
    }
  }

  lemma LastIsUnique(pairs: seq<Pair>, id: nat, v: nat)
    requires LastIs(pairs, id, v)
    ensures LastValue(pairs, id) == Some(v)
  {
    LastValueIsLast(pairs, id);
  }

  /** Each slot that the shorthand sets has the last value given for its identifier, and zero if none was. */
  lemma SlotsOfSettings(m: Meaning, id: nat, v: nat)
    requires SlotOf(ZERO, id).Some?
    ensures LastIs(m.pairs, id, v) ==> SlotOf(SettingsOf(m), id) == Some(Normal(id, v))
    ensures NeverGiven(m.pairs, id) ==> SlotOf(SettingsOf(m), id) == Some(0)
    ensures SettingsOf(m).connectionWindowUpdate == (if m.window.Some? then m.window.value else 0)
    ensures SettingsOf(m).streamWeight == (if m.weight.Some? then m.weight.value else 0)
    ensures SettingsOf(m).streamExclusive <==> m.weight.Some? && m.weight.value > 0
  {
    LastValueIsLast(m.pairs, id);
    if LastIs(m.pairs, id, v) {
      LastIsUnique(m.pairs, id, v);
    }
  }
}
