/** Rewriting a sec-ch-ua brand list to full versions (fingerprint/headers.go). */
module BrandList {
  import opened Text

  // ----- Splitting on commas outside quotes

  function QuoteAfter(c: char, inQuote: bool): bool
  {
    if c == '"' then !inQuote else inQuote
  }

  /** The pieces between commas that sit outside quotes; inQuote says whether s starts inside one. */
  function Pieces(s: string, inQuote: bool): (ps: seq<string>)
    ensures ps != []
  {
    if s == "" then [""]
    else if s[0] == ',' && !inQuote then [""] + Pieces(s[1..], inQuote)
    else
      var rest := Pieces(s[1..], QuoteAfter(s[0], inQuote));
      [[s[0]] + rest[0]] + rest[1..]
  }

  function TrimAll(ps: seq<string>): (r: seq<string>)
    ensures |r| == |ps| && forall i | 0 <= i < |ps| :: r[i] == Trim(ps[i])
  {
    if ps == [] then [] else [Trim(ps[0])] + TrimAll(ps[1..])
  }

  function Entries(s: string): (ps: seq<string>)
    ensures ps != []
  {
    TrimAll(Pieces(s, false))
  }

  lemma {:induction false} TrimAllAppend(ps: seq<string>, qs: seq<string>)
    ensures TrimAll(ps + qs) == TrimAll(ps) + TrimAll(qs)
  {
    if ps == [] {
      assert ps + qs == qs;
    } else {
      assert (ps + qs)[1..] == ps[1..] + qs;
      TrimAllAppend(ps[1..], qs);
    }
  }

  lemma TrimAllOne(p: string)
    ensures TrimAll([p]) == [Trim(p)]
  {
  }

  /** Adding text in front of the first piece. */
  function Prepend(text: string, ps: seq<string>): seq<string>
    requires ps != []
  {
    [text + ps[0]] + ps[1..]
  }

  /** Quote state after scanning s, and whether s has no comma outside quotes. */
  function QuoteEnd(s: string, inQuote: bool): bool
  {
    if s == "" then inQuote else QuoteEnd(s[1..], QuoteAfter(s[0], inQuote))
  }

  predicate NoSplit(s: string, inQuote: bool)
  {
    s == "" || ((s[0] == ',' ==> inQuote) && NoSplit(s[1..], QuoteAfter(s[0], inQuote)))
  }

  lemma PiecesStep(s: string, start: nat, i: nat, q: bool)
    requires start <= i < |s|
    ensures var ps := Prepend(s[start..i], Pieces(s[i..], q));
            if s[i] == ',' && !q then ps == [s[start..i]] + Prepend(s[i + 1..i + 1], Pieces(s[i + 1..], q))
            else ps == Prepend(s[start..i + 1], Pieces(s[i + 1..], QuoteAfter(s[i], q)))
  {
    assert s[i..][0] == s[i] && s[i..][1..] == s[i + 1..];
    if s[i] == ',' && !q {
      var rest := Pieces(s[i + 1..], q);
      assert s[i + 1..i + 1] + rest[0] == rest[0];
      assert s[start..i] + "" == s[start..i];
    } else {
      var rest := Pieces(s[i + 1..], QuoteAfter(s[i], q));
      assert s[start..i] + ([s[i]] + rest[0]) == s[start..i + 1] + rest[0];
    }
  }

  /** The scan at position i: cut holds the finished pieces, trimmed in parts, and the rest of the
      text completes the list. */
  ghost predicate ScanAt(s: string, parts: seq<string>, cut: seq<string>, start: nat, i: nat, q: bool)
  {
    start <= i <= |s| && parts == TrimAll(cut) && cut + Prepend(s[start..i], Pieces(s[i..], q)) == Pieces(s, false)
  }

  lemma ScanStart(s: string)
    ensures ScanAt(s, [], [], 0, 0, false)
  {
    assert s[0..] == s && s[0..0] + Pieces(s, false)[0] == Pieces(s, false)[0];
  }

  lemma ScanCut(s: string, parts: seq<string>, cut: seq<string>, start: nat, i: nat)
    requires ScanAt(s, parts, cut, start, i, false) && i < |s| && s[i] == ','
    ensures ScanAt(s, parts + [Trim(s[start..i])], cut + [s[start..i]], i + 1, i + 1, false)
  {
    var piece := s[start..i];
    var rest := Prepend(s[i + 1..i + 1], Pieces(s[i + 1..], false));
    assert (cut + [piece]) + rest == Pieces(s, false) by {
      PiecesStep(s, start, i, false);
      assert cut + ([piece] + rest) == (cut + [piece]) + rest;
    }
    assert parts + [Trim(piece)] == TrimAll(cut + [piece]) by {
      TrimAllAppend(cut, [piece]);
      TrimAllOne(piece);
    }
  }

  lemma ScanEnd(s: string, parts: seq<string>, cut: seq<string>, start: nat, q: bool)
    requires ScanAt(s, parts, cut, start, |s|, q)
    ensures parts + [Trim(s[start..])] == Entries(s)
  {
    assert s[|s|..] == "" && s[start..|s|] + "" == s[start..];
    assert Pieces(s, false) == cut + [s[start..]];
    TrimAllAppend(cut, [s[start..]]);
    TrimAllOne(s[start..]);
  }

  lemma ScanOn(s: string, parts: seq<string>, cut: seq<string>, start: nat, i: nat, q: bool)
    requires ScanAt(s, parts, cut, start, i, q) && i < |s| && !(s[i] == ',' && !q)
    ensures ScanAt(s, parts, cut, start, i + 1, QuoteAfter(s[i], q))
  {
    PiecesStep(s, start, i, q);
  }

  /** The scanner's variables; cut keeps the pieces untrimmed. */
  datatype Scanner = Scanner(parts: seq<string>, cut: seq<string>, start: nat, inQuote: bool)

  function Scanned(s: string, i: nat): (r: Scanner)
    requires i <= |s|
    ensures r.start <= i
  {
    if i == 0 then Scanner([], [], 0, false)
    else
      var r, c := Scanned(s, i - 1), s[i - 1];
      if c == '"' then r.(inQuote := !r.inQuote)
      else if c == ',' && !r.inQuote then
        Scanner(r.parts + [Trim(s[r.start..i - 1])], r.cut + [s[r.start..i - 1]], i, false)
      else r
  }

  lemma {:induction false} ScannedIsRight(s: string, i: nat)
    requires i <= |s|
    ensures var r := Scanned(s, i); ScanAt(s, r.parts, r.cut, r.start, i, r.inQuote)
  {
    if i == 0 {
      ScanStart(s);
    } else {
      ScannedIsRight(s, i - 1);
      var r := Scanned(s, i - 1);
      if s[i - 1] == ',' && !r.inQuote {
        ScanCut(s, r.parts, r.cut, r.start, i - 1);
      } else {
        ScanOn(s, r.parts, r.cut, r.start, i - 1, r.inQuote);
      }
    }
  }

  lemma ScannedToTheEnd(s: string)
    ensures var r := Scanned(s, |s|); r.parts + [Trim(s[r.start..])] == Entries(s)
  {
    ScannedIsRight(s, |s|);
    var r := Scanned(s, |s|);
    ScanEnd(s, r.parts, r.cut, r.start, r.inQuote);
  }

  method SplitBrandList(s: string) returns (parts: seq<string>)
    ensures parts == Entries(s)
  {
    parts := [];
    var inQuote := false;
    var start := 0;
    for i := 0 to |s|
      invariant 0 <= start <= i
      invariant parts == Scanned(s, i).parts && start == Scanned(s, i).start && inQuote == Scanned(s, i).inQuote
    {
      if s[i] == '"' {
        inQuote := !inQuote;
      } else if s[i] == ',' && !inQuote {
        parts := parts + [Trim(s[start..i])];
        start := i + 1;
      }
    }
    ScannedToTheEnd(s);
    parts := parts + [Trim(s[start..])];
  }

  // ----- Expanding one version

  const MARKER := ";v=\""
  const SUFFIX := ".0.0.0"

  /** The position where the suffix goes, or -1 when the entry is left as it is. */
  function InsertAt(entry: string): (k: int)
    ensures k == -1 || (|MARKER| < k < |entry| && entry[k] == '"')
  {
    var idx := IndexOf(entry, MARKER);
    if idx == -1 then -1
    else
      var vStart := idx + |MARKER|;
      var vEnd := IndexFrom(entry, "\"", vStart);
      if vEnd == -1 then -1
      else
        CharOccurs(entry, '"', vEnd);
        var ver := entry[vStart..vEnd];
        if ver == "" || '.' in ver then -1 else vEnd
  }

  function ExpandEntry(entry: string): string
  {
    var k := InsertAt(entry);
    if k < 0 then entry else entry[..k] + SUFFIX + entry[k..]
  }

  function ExpandAll(ps: seq<string>): (r: seq<string>)
    ensures |r| == |ps| && forall i | 0 <= i < |ps| :: r[i] == ExpandEntry(ps[i])
  {
    if ps == [] then [] else [ExpandEntry(ps[0])] + ExpandAll(ps[1..])
  }

  function Expand(s: string): string
  {
    if s == "" then "" else Join(ExpandAll(Entries(s)), ", ")
  }

  /** The first i entries rewritten in place. */
  ghost predicate ExpandedUpTo(entries: seq<string>, parts: seq<string>, i: nat)
  {
    i <= |entries| && parts == ExpandAll(entries[..i]) + entries[i..]
  }

  lemma ExpandedStep(entries: seq<string>, parts: seq<string>, i: nat)
    requires ExpandedUpTo(entries, parts, i) && i < |entries|
    ensures |parts| == |entries| && ExpandedUpTo(entries, parts[i := ExpandEntry(parts[i])], i + 1)
  {
  }

  lemma ExpandedEnd(entries: seq<string>, parts: seq<string>)
    requires ExpandedUpTo(entries, parts, |entries|)
    ensures parts == ExpandAll(entries)
  {
    assert entries[..|entries|] == entries && entries[|entries|..] == [];
  }

  method ExpandParts(entries: seq<string>) returns (parts: seq<string>)
    ensures parts == ExpandAll(entries)
  {
    parts := entries;
    for i := 0 to |parts|
      invariant |parts| == |entries| && ExpandedUpTo(entries, parts, i)
    {
      ExpandedStep(entries, parts, i);
      parts := parts[i := ExpandEntry(parts[i])];
    }
    ExpandedEnd(entries, parts);
  }

  method ExpandSecChUaVersions(secChUa: string) returns (r: string)
    ensures r == Expand(secChUa)
  {
    if secChUa == "" {
      return "";
    }
    var parts := SplitBrandList(secChUa);
    parts := ExpandParts(parts);
    r := Join(parts, ", ");
  }

  // ----- Expansion of an entry is idempotent and stays inside it

  lemma NoQuoteBefore(entry: string, k: nat)
    requires InsertAt(entry) == k
    ensures var vStart := IndexOf(entry, MARKER) + |MARKER|;
            vStart < k && forall j | vStart <= j < k :: entry[j] != '"'
  {
    var vStart := IndexOf(entry, MARKER) + |MARKER|;
    forall j | vStart <= j < k
      ensures entry[j] != '"'
    {
      CharOccurs(entry, '"', j);
    }
  }

  lemma ExpandEntryIdempotent(entry: string)
    ensures ExpandEntry(ExpandEntry(entry)) == ExpandEntry(entry)
  {
    var k := InsertAt(entry);
    if k >= 0 {
      var t := ExpandEntry(entry);
      var vStart := IndexOf(entry, MARKER) + |MARKER|;
      NoQuoteBefore(entry, k);
      assert t[..vStart] == entry[..vStart];
      IndexOfPrefix(entry, t, MARKER);
      var vEnd := IndexFrom(t, "\"", vStart);
      if vEnd >= 0 {
        CharOccurs(t, '"', vEnd);
        assert t[k] == '.' && t[k..k + |SUFFIX|] == SUFFIX;
        assert vStart <= k < vEnd;
        assert t[vStart..vEnd][k - vStart] == '.';
      }
    }
  }

  // ----- Expansion commutes with splitting

  lemma {:induction false} ScanAppend(a: string, b: string, q: bool)
    ensures QuoteEnd(a + b, q) == QuoteEnd(b, QuoteEnd(a, q))
    ensures NoSplit(a + b, q) <==> NoSplit(a, q) && NoSplit(b, QuoteEnd(a, q))
    decreases |a|
  {
    if a == "" {
      assert a + b == b;
    } else {
      assert (a + b)[1..] == a[1..] + b;
      ScanAppend(a[1..], b, QuoteAfter(a[0], q));
    }
  }

  /** Text with neither quotes nor commas is invisible to the scan. */
  lemma {:induction false} ScanPlain(s: string, q: bool)
    requires forall i | 0 <= i < |s| :: s[i] != '"' && s[i] != ','
    ensures QuoteEnd(s, q) == q && NoSplit(s, q)
  {
    if s != "" {
      ScanPlain(s[1..], q);
    }
  }

  /** An entry scans alone: no separator in it, and quotes closed at its end unless it is the last. */
  predicate Whole(p: string, last: bool)
  {
    NoSplit(p, false) && (last || !QuoteEnd(p, false))
  }

  /** The first piece continues a scan in state q, and every other one scans alone. */
  ghost predicate AllWhole(ps: seq<string>, q: bool)
  {
    && ps != [] && NoSplit(ps[0], q) && (|ps| > 1 ==> !QuoteEnd(ps[0], q))
    && forall i | 1 <= i < |ps| :: Whole(ps[i], i == |ps| - 1)
  }

  lemma WholeAfterComma(rest: seq<string>)
    requires AllWhole(rest, false)
    ensures AllWhole([""] + rest, false)
  {
    var ps := [""] + rest;
    forall i | 1 <= i < |ps|
      ensures Whole(ps[i], i == |ps| - 1)
    {
      assert ps[i] == rest[i - 1];
    }
  }

  lemma WholeAfterChar(c: char, rest: seq<string>, q: bool)
    requires !(c == ',' && !q) && AllWhole(rest, QuoteAfter(c, q))
    ensures AllWhole([[c] + rest[0]] + rest[1..], q)
  {
    assert ([c] + rest[0])[1..] == rest[0];
  }

  lemma {:induction false} PiecesWhole(s: string, q: bool)
    ensures AllWhole(Pieces(s, q), q)
    decreases |s|
  {
    if s == "" {
    } else if s[0] == ',' && !q {
      PiecesWhole(s[1..], q);
      WholeAfterComma(Pieces(s[1..], q));
    } else {
      PiecesWhole(s[1..], QuoteAfter(s[0], q));
      WholeAfterChar(s[0], Pieces(s[1..], QuoteAfter(s[0], q)), q);
    }
  }

  /** A space neither opens a quote nor separates. */
  lemma ScanSpace(s: string, q: bool)
    requires s != "" && IsSpace(s[0])
    ensures QuoteEnd(s, q) == QuoteEnd(s[1..], q) && (NoSplit(s, q) <==> NoSplit(s[1..], q))
  {
    assert s[0] != '"' && s[0] != ',';
  }

  lemma {:induction false} TrimLeftScan(s: string, q: bool)
    ensures QuoteEnd(TrimLeft(s), q) == QuoteEnd(s, q) && (NoSplit(TrimLeft(s), q) <==> NoSplit(s, q))
  {
    if s != "" && IsSpace(s[0]) {
      ScanSpace(s, q);
      TrimLeftScan(s[1..], q);
    }
  }

  lemma {:induction false} TrimRightScan(s: string, q: bool)
    ensures QuoteEnd(TrimRight(s), q) == QuoteEnd(s, q) && (NoSplit(TrimRight(s), q) <==> NoSplit(s, q))
  {
    if s != "" && IsSpace(s[|s| - 1]) {
      var front, last := s[..|s| - 1], [s[|s| - 1]];
      assert s == front + last;
      ScanAppend(front, last, q);
      ScanPlain(last, QuoteEnd(front, q));
      TrimRightScan(front, q);
    }
  }

  lemma TrimWhole(p: string, last: bool)
    requires Whole(p, last)
    ensures Whole(Trim(p), last)
  {
    TrimLeftScan(p, false);
    TrimRightScan(TrimLeft(p), false);
  }

  lemma ExpandWhole(p: string, last: bool)
    requires Whole(p, last) && Trimmed(p)
    ensures Whole(ExpandEntry(p), last) && Trimmed(ExpandEntry(p))
  {
    var k := InsertAt(p);
    if k >= 0 {
      assert p == p[..k] + p[k..];
      ScanAppend(p[..k], p[k..], false);
      var q := QuoteEnd(p[..k], false);
      ScanPlain(SUFFIX, q);
      ScanAppend(p[..k], SUFFIX, false);
      ScanAppend(p[..k] + SUFFIX, p[k..], false);
    }
  }

  lemma PrependTwice(c: char, a: string, ps: seq<string>)
    requires ps != []
    ensures Prepend([c], Prepend(a, ps)) == Prepend([c] + a, ps)
  {
    assert [c] + (a + ps[0]) == ([c] + a) + ps[0];
  }

  lemma PiecesOfChar(c: char, s: string, q: bool)
    requires !(c == ',' && !q)
    ensures Pieces([c] + s, q) == Prepend([c], Pieces(s, QuoteAfter(c, q)))
  {
    assert ([c] + s)[1..] == s;
  }

  lemma {:induction false} PiecesOfWhole(a: string, b: string, q: bool)
    requires NoSplit(a, q)
    ensures Pieces(a + b, q) == Prepend(a, Pieces(b, QuoteEnd(a, q)))
    decreases |a|
  {
    if a == "" {
      assert a + b == b && a + Pieces(b, q)[0] == Pieces(b, q)[0];
    } else {
      var c, tail, q' := a[0], a[1..], QuoteAfter(a[0], q);
      assert a + b == [c] + (tail + b) && [c] + tail == a;
      PiecesOfWhole(tail, b, q');
      PiecesOfChar(c, tail + b, q);
      PrependTwice(c, tail, Pieces(b, QuoteEnd(tail, q')));
    }
  }

  lemma PiecesOfLast(p: string)
    requires Whole(p, true)
    ensures Pieces(p, false) == [p]
  {
    PiecesOfWhole(p, "", false);
    assert p + "" == p;
  }

  lemma PiecesOfFirst(p: string, rest: string)
    requires Whole(p, false)
    ensures Pieces(p + ("," + rest), false) == [p] + Pieces(rest, false)
  {
    PiecesOfWhole(p, "," + rest, false);
    assert ("," + rest)[1..] == rest;
    assert p + "" == p;
  }

  lemma LeadWhole(lead: string, p: string, last: bool)
    requires (lead == "" || lead == " ") && Whole(p, last) && Trimmed(p)
    ensures Whole(lead + p, last) && Trim(lead + p) == p
  {
    ScanPlain(lead, false);
    ScanAppend(lead, p, false);
    TrimDropsLeadingSpace(p);
    assert "" + p == p;
  }

  lemma SplitJoinStep(p: string, lead: string, rest: string)
    requires (lead == "" || lead == " ") && Whole(p, false) && Trimmed(p)
    ensures TrimAll(Pieces(lead + (p + (", " + rest)), false)) == [p] + TrimAll(Pieces(" " + rest, false))
  {
    var whole := lead + (p + (", " + rest));
    assert whole == (lead + p) + ("," + (" " + rest));
    LeadWhole(lead, p, false);
    PiecesOfFirst(lead + p, " " + rest);
    assert Pieces(whole, false) == [lead + p] + Pieces(" " + rest, false);
    TrimAllAppend([lead + p], Pieces(" " + rest, false));
    TrimAllOne(lead + p);
  }

  /** Every entry of the list ps scans alone and is trimmed. */
  ghost predicate Clean(ps: seq<string>)
  {
    forall i | 0 <= i < |ps| :: Whole(ps[i], i == |ps| - 1) && Trimmed(ps[i])
  }

  lemma CleanTail(ps: seq<string>)
    requires |ps| > 1 && Clean(ps)
    ensures Clean(ps[1..]) && Whole(ps[0], false) && Trimmed(ps[0])
  {
    var tail := ps[1..];
    forall i | 0 <= i < |tail|
      ensures Whole(tail[i], i == |tail| - 1) && Trimmed(tail[i])
    {
      assert tail[i] == ps[i + 1] && Whole(ps[i + 1], i + 1 == |ps| - 1);
    }
    assert Whole(ps[0], 0 == |ps| - 1);
  }

  lemma JoinCons(ps: seq<string>, lead: string)
    requires |ps| > 1
    ensures lead + Join(ps, ", ") == lead + (ps[0] + (", " + Join(ps[1..], ", ")))
  {
    assert ps[0] + ", " + Join(ps[1..], ", ") == ps[0] + (", " + Join(ps[1..], ", "));
  }

  /** The entries ps come back from splitting their join, with lead in front of it. */
  ghost predicate Returns(ps: seq<string>, lead: string)
  {
    TrimAll(Pieces(lead + Join(ps, ", "), false)) == ps
  }

  lemma SplitOne(p: string, lead: string)
    requires (lead == "" || lead == " ") && Whole(p, true) && Trimmed(p)
    ensures TrimAll(Pieces(lead + p, false)) == [p]
  {
    LeadWhole(lead, p, true);
    PiecesOfLast(lead + p);
    TrimAllOne(lead + p);
  }

  lemma SplitJoinOne(p: string, lead: string)
    requires (lead == "" || lead == " ") && Whole(p, true) && Trimmed(p)
    ensures Returns([p], lead)
  {
    assert Join([p], ", ") == p;
    SplitOne(p, lead);
  }

  lemma SplitJoinMore(ps: seq<string>, lead: string)
    requires |ps| > 1 && (lead == "" || lead == " ") && Whole(ps[0], false) && Trimmed(ps[0])
    requires Returns(ps[1..], " ")
    ensures Returns(ps, lead)
  {
    var rest := Join(ps[1..], ", ");
    assert [ps[0]] + ps[1..] == ps;
    assert TrimAll(Pieces(lead + (ps[0] + (", " + rest)), false)) == [ps[0]] + ps[1..] by {
      SplitJoinStep(ps[0], lead, rest);
    }
    JoinCons(ps, lead);
  }

  /** Entries that scan alone and are trimmed come back from splitting their join. */
  lemma {:induction false} SplitJoin(ps: seq<string>, lead: string)
    requires ps != [] && (lead == "" || lead == " ") && Clean(ps)
    ensures Returns(ps, lead)
    decreases |ps|
  {
    if |ps| == 1 {
      assert Whole(ps[0], 0 == |ps| - 1) && [ps[0]] == ps;
      SplitJoinOne(ps[0], lead);
    } else {
      CleanTail(ps);
      SplitJoin(ps[1..], " ");
      SplitJoinMore(ps, lead);
    }
  }

  lemma SplitJoinClean(ps: seq<string>)
    requires ps != [] && Clean(ps)
    ensures Entries(Join(ps, ", ")) == ps
  {
    SplitJoin(ps, "");
    assert "" + Join(ps, ", ") == Join(ps, ", ");
  }

  lemma EntryWhole(p: string, last: bool)
    requires Whole(p, last)
    ensures Whole(ExpandEntry(Trim(p)), last) && Trimmed(ExpandEntry(Trim(p)))
  {
    TrimWhole(p, last);
    ExpandWhole(Trim(p), last);
  }

  lemma PiecesAllWhole(s: string, i: nat)
    requires i < |Pieces(s, false)|
    ensures Whole(Pieces(s, false)[i], i == |Pieces(s, false)| - 1)
  {
    PiecesWhole(s, false);
  }

  lemma ExpandedEntriesClean(s: string)
    ensures Clean(ExpandAll(Entries(s)))
  {
    var ps, es := Pieces(s, false), ExpandAll(Entries(s));
    forall i | 0 <= i < |es|
      ensures Whole(es[i], i == |es| - 1) && Trimmed(es[i])
    {
      PiecesAllWhole(s, i);
      EntryWhole(ps[i], i == |ps| - 1);
    }
  }

  /** Entry by entry: splitting the rewritten list gives the rewritten entries, so their number and
      order are kept, whatever the quoting. */
  lemma SplitOfExpand(s: string)
    ensures Entries(Expand(s)) == ExpandAll(Entries(s))
  {
    if s == "" {
      assert Entries("") == [""];
    } else {
      ExpandedEntriesClean(s);
      SplitJoinClean(ExpandAll(Entries(s)));
    }
  }

  lemma ExpandAllIdempotent(ps: seq<string>)
    ensures ExpandAll(ExpandAll(ps)) == ExpandAll(ps)
  {
    forall i | 0 <= i < |ps|
      ensures ExpandEntry(ExpandEntry(ps[i])) == ExpandEntry(ps[i])
    {
      ExpandEntryIdempotent(ps[i]);
    }
  }

  /** Rewriting a rewritten list changes nothing. */
  lemma ExpandIdempotent(s: string)
    ensures Expand(Expand(s)) == Expand(s)
  {
    if s != "" {
      assert ExpandAll(Entries(Expand(s))) == ExpandAll(Entries(s)) by {
        SplitOfExpand(s);
        ExpandAllIdempotent(Entries(s));
      }
    }
  }

  /** What one entry may gain: at most the suffix, put directly before the quote that ends a
      non-empty version without a dot; every other character stays in place. */
  lemma ExpandEntryOnlyInserts(entry: string)
    ensures var r := ExpandEntry(entry);
            || r == entry
            || (exists v: nat, k: nat :: |MARKER| <= v < k < |entry| && entry[v - |MARKER|..v] == MARKER &&
                  entry[k] == '"' && '"' !in entry[v..k] && '.' !in entry[v..k] &&
                  r == entry[..k] + SUFFIX + entry[k..])
  {
    var k := InsertAt(entry);
    if k >= 0 {
      var v := IndexOf(entry, MARKER) + |MARKER|;
      NoQuoteBefore(entry, k);
      assert |MARKER| <= v < k < |entry| && entry[v - |MARKER|..v] == MARKER;
    }
  }

  // ----- What splitting and expanding mean

  /** The number of double quotes in s. */
  function QuotesIn(s: string): nat
  {
    if s == "" then 0 else (if s[0] == '"' then 1 else 0) + QuotesIn(s[1..])
  }

  lemma {:induction false} QuoteEndIsParity(s: string, q: bool)
    ensures QuoteEnd(s, q) == (q != (QuotesIn(s) % 2 == 1))
  {
    if s != "" {
      QuoteEndIsParity(s[1..], QuoteAfter(s[0], q));
    }
  }

  lemma PrependAppend(text: string, xs: seq<string>, ys: seq<string>)
    requires xs != []
    ensures Prepend(text, xs + ys) == Prepend(text, xs) + ys
  {
    assert (xs + ys)[1..] == xs[1..] + ys;
  }

  lemma PiecesOfComma(s: string)
    ensures Pieces([','] + s, false) == [""] + Pieces(s, false)
  {
    assert ([','] + s)[1..] == s;
  }

  lemma {:induction false} PiecesCut(a: string, b: string, q: bool)
    requires !QuoteEnd(a, q)
    ensures Pieces(a + ("," + b), q) == Pieces(a, q) + Pieces(b, false)
    decreases |a|
  {
    if a == "" {
      assert a + ("," + b) == [','] + b && Pieces(a, q) == [""];
      PiecesOfComma(b);
    } else {
      var c, rest, after := a[0], a[1..], a[1..] + ("," + b);
      assert a == [c] + rest && a + ("," + b) == [c] + after;
      PiecesCut(rest, b, QuoteAfter(c, q));
      if c == ',' && !q {
        PiecesOfComma(rest);
        PiecesOfComma(after);
      } else {
        PiecesOfChar(c, rest, q);
        PiecesOfChar(c, after, q);
        PrependAppend([c], Pieces(rest, QuoteAfter(c, q)), Pieces(b, false));
      }
    }
  }

  lemma {:induction false} PiecesUncut(s: string, q: bool)
    requires forall k | 0 <= k < |s| && s[k] == ',' :: q != (QuotesIn(s[..k]) % 2 == 1)
    ensures Pieces(s, q) == [s]
  {
    if s != "" {
      assert s[..0] == "";
      forall k | 0 <= k < |s| - 1 && s[1..][k] == ','
        ensures QuoteAfter(s[0], q) != (QuotesIn(s[1..][..k]) % 2 == 1)
      {
        assert s[..k + 1][1..] == s[1..][..k];
      }
      PiecesUncut(s[1..], QuoteAfter(s[0], q));
      assert [s[0]] + s[1..] == s;
    }
  }

  /** The list is cut at exactly the commas with an even number of quotes before them, and nowhere else: it
      falls apart at each such comma, and a text without one is a single piece. */
  lemma PiecesCutOutsideQuotes(s: string, k: nat)
    requires k < |s| && s[k] == ',' && QuotesIn(s[..k]) % 2 == 0
    ensures Pieces(s, false) == Pieces(s[..k], false) + Pieces(s[k + 1..], false)
  {
    QuoteEndIsParity(s[..k], false);
    assert s == s[..k] + ("," + s[k + 1..]);
    PiecesCut(s[..k], s[k + 1..], false);
  }

  lemma NeverClosed(entry: string, version: string, vStart: nat)
    requires vStart <= |entry| && entry[vStart..] == version && '"' !in version && IndexOf(entry, MARKER) == vStart - 4
    ensures ExpandEntry(entry) == entry
  {
    forall j: nat | vStart <= j
      ensures !OccursAt(entry, "\"", j)
    {
      CharOccurs(entry, '"', j);
      assert j < |entry| ==> entry[j] == version[j - vStart];
    }
  }

  /** What expanding does to an entry whose first version marker follows brand: a non-empty version without a
      dot gains three zero components, any other stays, and so does one whose quote is never closed. */
  lemma ExpandsExactly(brand: string, version: string, rest: string)
    requires IndexOf(brand + ";v=\"" + version, ";v=\"") == |brand| && '"' !in version
    ensures var entry := brand + ";v=\"" + version;
            && ExpandEntry(entry + "\"" + rest) ==
               (if version != "" && '.' !in version then entry + ".0.0.0" + "\"" + rest else entry + "\"" + rest)
            && ExpandEntry(entry) == entry
  {
    var entry := brand + ";v=\"" + version;
    var whole := entry + "\"" + rest;
    var vStart := |brand| + 4;
    assert entry[..vStart] == whole[..vStart];
    IndexOfPrefix(entry, whole, MARKER);
    assert whole[vStart..|entry|] == version && whole[|entry|] == '"';
    CharOccurs(whole, '"', |entry|);
    var vEnd := IndexFrom(whole, "\"", vStart);
    CharOccurs(whole, '"', vEnd);
    assert vEnd == |entry| by {
      assert forall j | vStart <= j < |entry| :: whole[j] == version[j - vStart];
    }
    assert whole[..|entry|] == entry && whole[|entry|..] == "\"" + rest;
    NeverClosed(entry, version, vStart);
  }

  /** An entry without a version marker stays as it is. */
  lemma UnmarkedStays(entry: string)
    requires forall k :: !OccursAt(entry, ";v=\"", k)
    ensures ExpandEntry(entry) == entry
  {
  }
}
