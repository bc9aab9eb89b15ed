/** Levenshtein distance and the preset-name suggestion built on it (fingerprint/suggest.go). */
module EditDistance {

  function Min3(a: int, b: int, c: int): (m: int)
    ensures m <= a && m <= b && m <= c
    ensures m == a || m == b || m == c
  {
    var ab := if b < a then b else a;
    if c < ab then c else ab
  }

  function Cost(x: char, y: char): (c: nat)
  {
    if x == y then 0 else 1
  }

  function Front(s: string): (r: string)
    requires s != ""
  {
    s[..|s| - 1]
  }

  function Last(s: string): char
    requires s != ""
  {
    s[|s| - 1]
  }

  /** The recursive definition that the two-row program must compute. */
  function Lev(a: string, b: string): (d: nat)
    decreases |a| + |b|
  {
    if a == "" then |b|
    else if b == "" then |a|
    else Min3(Lev(a, Front(b)) + 1, Lev(Front(a), b) + 1, Lev(Front(a), Front(b)) + Cost(Last(a), Last(b)))
  }

  // ----- The metric laws

  lemma {:induction false} LevBounds(a: string, b: string)
    ensures |a| - |b| <= Lev(a, b) <= |a| + |b|
    ensures |b| - |a| <= Lev(a, b)
    decreases |a| + |b|
  {
    if a != "" && b != "" {
      LevBounds(a, Front(b));
      LevBounds(Front(a), b);
      LevBounds(Front(a), Front(b));
    }
  }

  lemma {:induction false} LevSymmetric(a: string, b: string)
    ensures Lev(a, b) == Lev(b, a)
    decreases |a| + |b|
  {
    if a != "" && b != "" {
      LevSymmetric(a, Front(b));
      LevSymmetric(Front(a), b);
      LevSymmetric(Front(a), Front(b));
    }
  }

  lemma {:induction false} LevZeroIffEqual(a: string, b: string)
    ensures Lev(a, b) == 0 <==> a == b
    decreases |a| + |b|
  {
    if a != "" && b != "" {
      LevZeroIffEqual(Front(a), Front(b));
      assert a == Front(a) + [Last(a)] && b == Front(b) + [Last(b)];
    }
  }

  /** Dropping or adding one final character moves the distance by at most one. */
  lemma LevStep(a: string, b: string)
    ensures b != "" ==> Lev(a, b) <= Lev(a, Front(b)) + 1
    ensures a != "" ==> Lev(a, b) <= Lev(Front(a), b) + 1
  {
  }

  /** The distance of two non-empty words is reached by one of the three last moves. */
  lemma LevLastMove(a: string, b: string)
    requires a != "" && b != ""
    ensures || Lev(a, b) == Lev(a, Front(b)) + 1
            || Lev(a, b) == Lev(Front(a), b) + 1
            || Lev(a, b) == Lev(Front(a), Front(b)) + Cost(Last(a), Last(b))
    ensures Lev(a, b) <= Lev(Front(a), Front(b)) + Cost(Last(a), Last(b))
  {
  }

  lemma {:induction false} LevTriangle(a: string, b: string, c: string)
    ensures Lev(a, c) <= Lev(a, b) + Lev(b, c)
    decreases |a| + |b| + |c|
  {
    if a == "" || b == "" || c == "" {
      LevBounds(a, b);
      LevBounds(b, c);
      LevBounds(a, c);
    } else {
      LevStep(a, c);
      LevLastMove(a, b);
      LevLastMove(b, c);
      LevLastMove(a, c);
      LevTriangle(Front(a), b, c);
      LevTriangle(a, b, Front(c));
      LevTriangle(a, Front(b), c);
      LevTriangle(a, Front(b), Front(c));
      LevTriangle(Front(a), Front(b), c);
      LevTriangle(Front(a), Front(b), Front(c));
    }
  }

  // ----- What the number means: the least number of single-character edits

  ghost predicate Inserted(s: string, t: string)
  {
    exists k | 0 <= k < |t| :: s == t[..k] + t[k + 1..]
  }

  ghost predicate Substituted(s: string, t: string)
  {
    |s| == |t| && exists k | 0 <= k < |s| :: s[..k] == t[..k] && s[k + 1..] == t[k + 1..]
  }

  /** t arises from s by one insertion, deletion or substitution of a character, or by no change. */
  ghost predicate OneEdit(s: string, t: string)
  {
    s == t || Inserted(s, t) || Inserted(t, s) || Substituted(s, t)
  }

  /** A script is the list of intermediate words, each one edit from the next. */
  ghost predicate Script(words: seq<string>, a: string, b: string)
  {
    |words| > 0 && words[0] == a && words[|words| - 1] == b &&
    forall i | 0 <= i < |words| - 1 :: OneEdit(words[i], words[i + 1])
  }

  lemma {:induction false} LevAppend(a: string, b: string, suffix: string)
    ensures Lev(a + suffix, b + suffix) <= Lev(a, b)
    decreases |suffix|
  {
    if suffix == "" {
      assert a + suffix == a && b + suffix == b;
    } else {
      LevAppend(a, b, Front(suffix));
      assert Front(a + suffix) == a + Front(suffix) && Front(b + suffix) == b + Front(suffix);
    }
  }

  lemma SubstitutedDistance(s: string, t: string)
    requires Substituted(s, t)
    ensures Lev(s, t) <= 1
  {
    var k :| 0 <= k < |s| && s[..k] == t[..k] && s[k + 1..] == t[k + 1..];
    var x, y, rest := s[..k + 1], t[..k + 1], s[k + 1..];
    assert s == x + rest && t == y + rest;
    LevAppend(x, y, rest);
    assert Front(x) == s[..k] && Front(y) == t[..k];
    LevZeroIffEqual(Front(x), Front(y));
  }

  lemma InsertedDistance(s: string, t: string)
    requires Inserted(s, t)
    ensures Lev(s, t) <= 1
  {
    var k :| 0 <= k < |t| && s == t[..k] + t[k + 1..];
    assert t == t[..k + 1] + t[k + 1..];
    LevAppend(t[..k], t[..k + 1], t[k + 1..]);
    assert Front(t[..k + 1]) == t[..k];
    LevStep(t[..k], t[..k + 1]);
    LevZeroIffEqual(t[..k], t[..k]);
  }

  lemma OneEditDistance(s: string, t: string)
    requires OneEdit(s, t)
    ensures Lev(s, t) <= 1
  {
    if s == t {
      LevZeroIffEqual(s, t);
    } else if Inserted(s, t) {
      InsertedDistance(s, t);
    } else if Inserted(t, s) {
      InsertedDistance(t, s);
      LevSymmetric(s, t);
    } else {
      SubstitutedDistance(s, t);
    }
  }

  /** No script is shorter than the distance. */
  lemma {:induction false} ScriptAtLeastLev(words: seq<string>, a: string, b: string)
    requires Script(words, a, b)
    ensures Lev(a, b) <= |words| - 1
    decreases |words|
  {
    if |words| == 1 {
      LevZeroIffEqual(a, b);
    } else {
      var mid := words[1];
      assert OneEdit(words[0], words[1]);
      OneEditDistance(a, mid);
      var rest := words[1..];
      forall i | 0 <= i < |rest| - 1
        ensures OneEdit(rest[i], rest[i + 1])
      {
        assert OneEdit(words[i + 1], words[i + 1 + 1]);
      }
      ScriptAtLeastLev(rest, mid, b);
      LevTriangle(a, mid, b);
    }
  }

  lemma InsertedAppend(s: string, t: string, x: char)
    requires Inserted(s, t)
    ensures Inserted(s + [x], t + [x])
  {
    var k :| 0 <= k < |t| && s == t[..k] + t[k + 1..];
    var t' := t + [x];
    assert t'[..k] == t[..k] && t'[k + 1..] == t[k + 1..] + [x];
    assert s + [x] == t'[..k] + t'[k + 1..];
  }

  lemma OneEditAppend(s: string, t: string, x: char)
    requires OneEdit(s, t)
    ensures OneEdit(s + [x], t + [x])
  {
    if s == t {
    } else if Inserted(s, t) {
      InsertedAppend(s, t, x);
    } else if Inserted(t, s) {
      InsertedAppend(t, s, x);
    } else {
      var k :| 0 <= k < |s| && s[..k] == t[..k] && s[k + 1..] == t[k + 1..];
      var s', t' := s + [x], t + [x];
      assert s'[..k] == s[..k] && t'[..k] == t[..k];
      assert s'[k + 1..] == s[k + 1..] + [x] && t'[k + 1..] == t[k + 1..] + [x];
      assert Substituted(s', t');
    }
  }

  /** Appending the same character to every word of a script keeps it a script. */
  lemma ScriptAppend(words: seq<string>, a: string, b: string, x: char) returns (longer: seq<string>)
    requires Script(words, a, b)
    ensures Script(longer, a + [x], b + [x]) && |longer| == |words|
  {
    longer := seq(|words|, i requires 0 <= i < |words| => words[i] + [x]);
    forall i | 0 <= i < |longer| - 1
      ensures OneEdit(longer[i], longer[i + 1])
    {
      assert OneEdit(words[i], words[i + 1]);
      OneEditAppend(words[i], words[i + 1], x);
    }
  }

  lemma ScriptExtend(words: seq<string>, a: string, b: string, c: string) returns (longer: seq<string>)
    requires Script(words, a, b) && OneEdit(b, c)
    ensures Script(longer, a, c) && |longer| == |words| + 1
  {
    longer := words + [c];
    forall i | 0 <= i < |longer| - 1
      ensures OneEdit(longer[i], longer[i + 1])
    {
      if i < |words| - 1 {
        assert OneEdit(words[i], words[i + 1]);
      }
    }
  }

  lemma FrontInserted(b: string)
    requires b != ""
    ensures Inserted(Front(b), b)
  {
    var k := |b| - 1;
    assert b[k + 1..] == "" && Front(b) == b[..k] + b[k + 1..];
  }

  /** A script for the fronts gives one for the words, with a substitution if the last letters differ. */
  lemma ScriptReplaceLast(words: seq<string>, a: string, b: string) returns (longer: seq<string>)
    requires a != "" && b != "" && Script(words, Front(a), Front(b))
    ensures Script(longer, a, b) && |longer| == |words| + Cost(Last(a), Last(b))
  {
    longer := ScriptAppend(words, Front(a), Front(b), Last(a));
    assert a == Front(a) + [Last(a)] && b == Front(b) + [Last(b)];
    if Last(a) != Last(b) {
      var mid, k := Front(b) + [Last(a)], |b| - 1;
      assert mid[..k] == b[..k] && mid[k + 1..] == b[k + 1..];
      assert Substituted(mid, b);
      longer := ScriptExtend(longer, a, mid, b);
    }
  }

  lemma ScriptPrepend(words: seq<string>, b: string, c: string, a: string) returns (longer: seq<string>)
    requires Script(words, b, c) && OneEdit(a, b)
    ensures Script(longer, a, c) && |longer| == |words| + 1
  {
    longer := [a] + words;
    forall i | 0 <= i < |longer| - 1
      ensures OneEdit(longer[i], longer[i + 1])
    {
      if i > 0 {
        assert OneEdit(words[i - 1], words[i - 1 + 1]);
      }
    }
  }

  /** Some script uses exactly Lev(a, b) edits, so the distance is the least edit count. */
  lemma {:induction false} LevHasScript(a: string, b: string) returns (words: seq<string>)
    ensures Script(words, a, b) && |words| == Lev(a, b) + 1
    decreases |a| + |b|
  {
    if a == b {
      LevZeroIffEqual(a, b);
      words := [a];
    } else if b != "" && (a == "" || Lev(a, b) == Lev(a, Front(b)) + 1) {
      words := LevHasScript(a, Front(b));
      FrontInserted(b);
      words := ScriptExtend(words, a, Front(b), b);
    } else if a != "" && (b == "" || Lev(a, b) == Lev(Front(a), b) + 1) {
      words := LevHasScript(Front(a), b);
      FrontInserted(a);
      words := ScriptPrepend(words, Front(a), b, a);
    } else {
      words := LevHasScript(Front(a), Front(b));
      words := ScriptReplaceLast(words, a, b);
    }
  }

  // ----- The two-row program

  /** A cell of the distance table: the distance of the two prefixes. */
  function Cell(a: string, b: string, i: nat, j: nat): nat
    requires i <= |a| && j <= |b|
  {
    Lev(a[..i], b[..j])
  }

  lemma CellStep(a: string, b: string, i: nat, j: nat)
    requires 1 <= i <= |a| && 1 <= j <= |b|
    ensures Cell(a, b, i, j) ==
            Min3(Cell(a, b, i, j - 1) + 1, Cell(a, b, i - 1, j) + 1,
                 Cell(a, b, i - 1, j - 1) + Cost(a[i - 1], b[j - 1]))
  {
    var x, y := a[..i], b[..j];
    assert Front(x) == a[..i - 1] && Front(y) == b[..j - 1] && Last(x) == a[i - 1] && Last(y) == b[j - 1];
  }

  lemma CellEdge(a: string, b: string, i: nat, j: nat)
    requires i <= |a| && j <= |b|
    ensures Cell(a, b, i, 0) == i && Cell(a, b, 0, j) == j && Cell(a, b, |a|, |b|) == Lev(a, b)
  {
    assert a[..|a|] == a && b[..|b|] == b;
    assert a[..0] == "" && b[..0] == "";
  }

  /** The first n cells of row are row i of the distance table of a and b. */
  ghost predicate RowIs(row: seq<int>, n: nat, a: string, b: string, i: nat)
  {
    n <= |b| + 1 == |row| && i <= |a| && forall k | 0 <= k < n :: row[k] == Cell(a, b, i, k)
  }

  lemma RowGrows(row: seq<int>, longer: seq<int>, j: nat, a: string, b: string, i: nat)
    requires RowIs(row, j, a, b, i) && j <= |b| && |longer| == |row| && longer[..j] == row[..j] &&
             longer[j] == Cell(a, b, i, j)
    ensures RowIs(longer, j + 1, a, b, i)
  {
    forall k | 0 <= k < j + 1
      ensures longer[k] == Cell(a, b, i, k)
    {
      assert k < j ==> longer[k] == longer[..j][k] == row[..j][k] == row[k];
    }
  }

  /** The inner loop's value for one cell. */
  lemma CellComputed(prev: seq<int>, curr: seq<int>, j: nat, a: string, b: string, i: nat)
    requires 1 <= i <= |a| && 1 <= j <= |b| && RowIs(prev, |b| + 1, a, b, i - 1) && RowIs(curr, j, a, b, i)
    ensures Min3(curr[j - 1] + 1, prev[j] + 1, prev[j - 1] + Cost(a[i - 1], b[j - 1])) == Cell(a, b, i, j)
  {
    CellStep(a, b, i, j);
  }

  /** One turn of the outer loop: row i from row i - 1. */
  method FillRow(a: string, b: string, i: nat, prev: array<int>, curr: array<int>)
    requires 1 <= i <= |a| && prev != curr && prev.Length == curr.Length == |b| + 1
    requires RowIs(prev[..], |b| + 1, a, b, i - 1)
    modifies curr
    ensures RowIs(curr[..], |b| + 1, a, b, i)
  {
    CellEdge(a, b, i, 0);
    curr[0] := i;
    for j := 1 to |b| + 1
      invariant RowIs(curr[..], j, a, b, i)
      invariant prev[..] == old(prev[..])
    {
      var cost := 1;
      if a[i - 1] == b[j - 1] {
        cost := 0;
      }
      CellComputed(prev[..], curr[..], j, a, b, i);
      ghost var before := curr[..];
      curr[j] := Min3(curr[j - 1] + 1, prev[j] + 1, prev[j - 1] + cost);
      RowGrows(before, curr[..], j, a, b, i);
    }
  }

  method Distance(a: string, b: string) returns (d: nat)
    ensures d == Lev(a, b)
  {
    if a == b {
      LevZeroIffEqual(a, b);
      return 0;
    }
    if |a| == 0 {
      return |b|;
    }
    if |b| == 0 {
      return |a|;
    }
    var prev := new int[|b| + 1];
    var curr := new int[|b| + 1];
    for j := 0 to |b| + 1
      invariant RowIs(prev[..], j, a, b, 0)
    {
      CellEdge(a, b, 0, j);
      ghost var before := prev[..];
      prev[j] := j;
      RowGrows(before, prev[..], j, a, b, 0);
    }
    for i := 1 to |a| + 1
      invariant prev != curr && prev.Length == curr.Length == |b| + 1
      invariant fresh(prev) && fresh(curr)
      invariant RowIs(prev[..], |b| + 1, a, b, i - 1)
    {
      FillRow(a, b, i, prev, curr);
      prev, curr := curr, prev;
    }
    CellEdge(a, b, 0, 0);
    d := prev[|b|];
  }

  // ----- Suggest

  const NO_DISTANCE := 0x4000_0000

  /** i is the first position holding the least distance from want among the lowered candidates. */
  ghost predicate FirstNearest(want: string, lowered: seq<string>, i: nat)
  {
    i < |lowered| &&
    (forall k | 0 <= k < i :: Lev(want, lowered[k]) > Lev(want, lowered[i])) &&
    (forall k | i <= k < |lowered| :: Lev(want, lowered[k]) >= Lev(want, lowered[i]))
  }

  function Limit(want: string): (l: nat)
  {
    |want| / 3 + 1
  }

  /** The candidate at i is worth suggesting: nearest, and within the limit and the initial sentinel. */
  ghost predicate Suggested(want: string, lowered: seq<string>, i: nat)
  {
    FirstNearest(want, lowered, i) && Lev(want, lowered[i]) <= |want| / 3 + 1 && Lev(want, lowered[i]) < NO_DISTANCE
  }

  function Lowered(known: seq<string>, lower: string -> string): (r: seq<string>)
    ensures |r| == |known|
  {
    seq(|known|, i requires 0 <= i < |known| => lower(known[i]))
  }

  /** What the scan has found among the first n candidates: nothing below the sentinel,
      or the first of the nearest. */
  ghost predicate BestSoFar(want: string, lowered: seq<string>, bestDist: nat, at: nat)
  {
    if bestDist == NO_DISTANCE then forall k | 0 <= k < |lowered| :: Lev(want, lowered[k]) >= NO_DISTANCE
    else FirstNearest(want, lowered, at) && bestDist == Lev(want, lowered[at]) < NO_DISTANCE
  }

  function AllButLast(lowered: seq<string>): (r: seq<string>)
    requires lowered != []
  {
    lowered[..|lowered| - 1]
  }

  lemma BestSoFarStep(want: string, lowered: seq<string>, bestDist: nat, at: nat)
    requires lowered != [] && BestSoFar(want, AllButLast(lowered), bestDist, at)
    ensures var d := Lev(want, lowered[|lowered| - 1]);
            if d < bestDist && bestDist <= NO_DISTANCE then BestSoFar(want, lowered, d, |lowered| - 1)
            else d >= bestDist ==> BestSoFar(want, lowered, bestDist, at)
  {
    assert forall k | 0 <= k < |lowered| - 1 :: AllButLast(lowered)[k] == lowered[k];
  }

  lemma BestDecides(want: string, lowered: seq<string>, bestDist: nat, at: nat, i: nat)
    requires bestDist <= NO_DISTANCE && BestSoFar(want, lowered, bestDist, at)
    ensures Suggested(want, lowered, i) <==> bestDist != NO_DISTANCE && bestDist <= Limit(want) && i == at
  {
  }

  /** The scan over the candidates. */
  method Nearest(want: string, known: seq<string>, lower: string -> string)
    returns (best: string, bestDist: nat, ghost at: nat)
    ensures bestDist <= NO_DISTANCE && BestSoFar(want, Lowered(known, lower), bestDist, at)
    ensures best == if bestDist == NO_DISTANCE then "" else known[at]
  {
    best, bestDist, at := "", NO_DISTANCE, 0;
    ghost var lowered := Lowered(known, lower);
    for i := 0 to |known|
      invariant bestDist <= NO_DISTANCE && BestSoFar(want, lowered[..i], bestDist, at)
      invariant best == if bestDist == NO_DISTANCE then "" else known[at]
    {
      var d := Distance(want, lower(known[i]));
      assert AllButLast(lowered[..i + 1]) == lowered[..i];
      BestSoFarStep(want, lowered[..i + 1], bestDist, at);
      if d < bestDist {
        best, bestDist, at := known[i], d, i;
      }
    }
    assert lowered[..|known|] == lowered;
  }

  /** lower and trim stand for the Unicode case folding and trimming of the standard library;
      the claim holds whatever they compute. */
  method Suggest(name: string, known: seq<string>, lower: string -> string, trim: string -> string)
    returns (best: string)
    ensures name != "" ==>
              forall i: nat | Suggested(lower(trim(name)), Lowered(known, lower), i) :: best == known[i]
    ensures (name == "" || forall i: nat :: !Suggested(lower(trim(name)), Lowered(known, lower), i)) ==> best == ""
  {
    if name == "" {
      return "";
    }
    var want := lower(trim(name));
    var bestDist;
    ghost var at;
    best, bestDist, at := Nearest(want, known, lower);
    ghost var lowered := Lowered(known, lower);
    forall i: nat
      ensures Suggested(want, lowered, i) <==> bestDist != NO_DISTANCE && bestDist <= Limit(want) && i == at
    {
      BestDecides(want, lowered, bestDist, at, i);
    }
    assert bestDist != NO_DISTANCE && bestDist <= Limit(want) ==> Suggested(want, lowered, at);
    if bestDist > Limit(want) {
      best := "";
    }
  }

  /** For every name shorter than three gigabytes the sentinel plays no part. */
  lemma SuggestedWithinLimit(want: string, lowered: seq<string>, i: nat)
    requires |want| / 3 + 1 < NO_DISTANCE
    ensures Suggested(want, lowered, i) <==> FirstNearest(want, lowered, i) && Lev(want, lowered[i]) <= |want| / 3 + 1
  {
  }

  /** At most one candidate position is the first nearest, and one exists when there are candidates. */
  lemma {:induction false} FirstNearestExists(want: string, lowered: seq<string>) returns (i: nat)
    requires lowered != []
    ensures FirstNearest(want, lowered, i)
    ensures forall j: nat | FirstNearest(want, lowered, j) :: j == i
  {
    if |lowered| == 1 {
      i := 0;
    } else {
      var shorter := lowered[..|lowered| - 1];
      var h := FirstNearestExists(want, shorter);
      i := if Lev(want, lowered[|lowered| - 1]) < Lev(want, lowered[h]) then |lowered| - 1 else h;
      assert forall k | 0 <= k < |shorter| :: shorter[k] == lowered[k];
    }
  }
}
