/** The string primitives the scraper relies on, written out over `seq<char>`:
    `re.findall(r'\d+', s)` (maximal digit runs), `s.split()` (maximal non-blank runs),
    `s.split(sep)`, `sep.join(parts)`, and `int(...)` of a decimal token. */
module Strings {
  import opened Wrappers

  /** ASCII decimal digit, the characters `\d` and `int()` are modelled on. */
  predicate IsDigit(c: char) { '0' <= c <= '9' }

  /** The characters Python's `str.split()` (and `str.isspace`) treats as blanks. */
  predicate IsSpace(c: char) {
    c == ' ' || '\t' <= c <= '\r' || '\U{1C}' <= c <= '\U{1F}' || c == '\U{85}' || c == '\U{A0}'
    || c == '\U{1680}' || '\U{2000}' <= c <= '\U{200A}' || c == '\U{2028}' || c == '\U{2029}'
    || c == '\U{202F}' || c == '\U{205F}' || c == '\U{3000}'
  }

  predicate NotSpace(c: char) { !IsSpace(c) }

  predicate All(s: string, p: char -> bool) {
    forall i | 0 <= i < |s| :: p(s[i])
  }

  predicate IsSuffix(t: string, s: string) {
    |t| <= |s| && s[|s| - |t|..] == t
  }

  /** Length of the longest prefix of `s` whose characters all satisfy `p`. */
  function LeadingRun(s: string, p: char -> bool): (n: nat)
    ensures n <= |s|
    ensures forall i | 0 <= i < n :: p(s[i])
    ensures n < |s| ==> !p(s[n])
  {
    if s == [] || !p(s[0]) then 0 else 1 + LeadingRun(s[1..], p)
  }

  /** The maximal runs of `p`-characters of `s`, left to right. */
  function Runs(s: string, p: char -> bool): (runs: seq<string>)
    ensures forall k | 0 <= k < |runs| :: runs[k] != [] && All(runs[k], p)
    decreases |s|
  {
    if s == [] then []
    else if !p(s[0]) then Runs(s[1..], p)
    else
      var n := LeadingRun(s, p);
      [s[..n]] + Runs(s[n..], p)
  }

  /** `re.findall(r'\d+', s)` */
  function DigitRuns(s: string): (runs: seq<string>)
    ensures forall k | 0 <= k < |runs| :: runs[k] != [] && All(runs[k], IsDigit)
    ensures All(s, IsDigit) && s != [] ==> runs == [s]
  {
    WholeRun(s, IsDigit);
    Runs(s, IsDigit)
  }

  /** `s.split()` with no separator: the blank-separated words of `s`. */
  function Tokens(s: string): (words: seq<string>)
    ensures forall k | 0 <= k < |words| :: words[k] != [] && All(words[k], NotSpace)
    ensures All(s, IsSpace) ==> words == []
  {
    BlankHasNoRuns(s);
    Runs(s, NotSpace)
  }

  /** `sep.join(parts)` for a one-character separator. */
  function JoinWith(parts: seq<string>, sep: char): string {
    if |parts| == 0 then []
    else if |parts| == 1 then parts[0]
    else parts[0] + [sep] + JoinWith(parts[1..], sep)
  }

  /** `s.split(sep)`: the pieces between occurrences of `sep`; never empty. */
  function SplitOn(s: string, sep: char): (pieces: seq<string>)
    ensures |pieces| >= 1
    ensures forall k | 0 <= k < |pieces| :: sep !in pieces[k]
  {
    if s == [] then [[]]
    else
      var rest := SplitOn(s[1..], sep);
      if s[0] == sep then [[]] + rest
      else [[s[0]] + rest[0]] + rest[1..]
  }

  function Last(parts: seq<string>): string
    requires |parts| > 0
  {
    parts[|parts| - 1]
  }

  function DigitValue(c: char): nat
    requires IsDigit(c)
  {
    (c as int - '0' as int) as nat
  }

  function DigitChar(d: nat): (c: char)
    requires d < 10
    ensures IsDigit(c) && DigitValue(c) == d
  {
    ('0' as int + d) as char
  }

  /** The number a string of decimal digits denotes (leading zeros allowed). */
  function Value(s: string): nat
    requires All(s, IsDigit)
  {
    if s == [] then 0 else Value(s[..|s| - 1]) * 10 + DigitValue(s[|s| - 1])
  }

  /** `str(n)` for a natural number: no leading zero except in `"0"` itself
      (`ValueOfDecimal` reads it back). */
  function DecimalString(n: nat): (s: string)
    ensures s != [] && All(s, IsDigit)
    ensures s[0] == '0' <==> n == 0
    ensures n == 0 ==> s == "0"
    decreases n
  {
    if n < 10 then [DigitChar(n)] else DecimalString(n / 10) + [DigitChar(n % 10)]
  }

  /** What `int()` accepts here: an optional sign followed by at least one digit. */
  predicate IsNumeral(s: string) {
    || (s != [] && All(s, IsDigit))
    || (|s| >= 2 && (s[0] == '+' || s[0] == '-') && All(s[1..], IsDigit))
  }

  /** `int(s)` for a token: an optional sign followed by decimal digits; anything else
      is the `ValueError` Python would raise. */
  function ParseInt(s: string): (r: Option<int>)
    ensures r.Some? <==> IsNumeral(s)
    ensures r.Some? && r.value < 0 ==> s[0] == '-'
    ensures r.Some? && s[0] != '-' ==> r.value >= 0
  {
    if s != [] && (s[0] == '+' || s[0] == '-') then
      var digits := s[1..];
      if digits != [] && All(digits, IsDigit) then
        var magnitude: int := Value(digits);
        Some(if s[0] == '-' then -magnitude else magnitude)
      else None
    else if s != [] && All(s, IsDigit) then Some(Value(s))
    else None
  }

  // ---------------------------------------------------------------------------
  // Runs and joins are inverse to each other.

  lemma {:induction false} BlankHasNoRuns(s: string)
    ensures All(s, IsSpace) ==> Runs(s, NotSpace) == []
  {
    if s != [] && All(s, IsSpace) {
      BlankHasNoRuns(s[1..]);
    }
  }

  lemma WholeRun(s: string, p: char -> bool)
    ensures s != [] && All(s, p) ==> Runs(s, p) == [s]
  {
    if s != [] && All(s, p) {
      RunsOfPrefix(s, [], p);
      assert s + [] == s;
    }
  }

  lemma RunsSkip(c: char, s: string, p: char -> bool)
    requires !p(c)
    ensures Runs([c] + s, p) == Runs(s, p)
  {
    assert ([c] + s)[1..] == s;
  }

  lemma {:induction false} LeadingRunOfPrefix(a: string, b: string, p: char -> bool)
    requires All(a, p)
    requires b == [] || !p(b[0])
    ensures LeadingRun(a + b, p) == |a|
  {
    if a == [] {
      assert a + b == b;
    } else {
      assert (a + b)[0] == a[0];
      assert (a + b)[1..] == a[1..] + b;
      LeadingRunOfPrefix(a[1..], b, p);
    }
  }

  /** A run of `p`-characters followed by a non-`p` character (or the end) is the first run. */
  lemma RunsOfPrefix(a: string, b: string, p: char -> bool)
    requires a != [] && All(a, p)
    requires b == [] || !p(b[0])
    ensures Runs(a + b, p) == [a] + Runs(b, p)
  {
    var s := a + b;
    assert s[0] == a[0];
    LeadingRunOfPrefix(a, b, p);
    assert s[..|a|] == a && s[|a|..] == b;
  }

  /** No character of `s` satisfies `p`: a gap between runs. */
  predicate NoneOf(s: string, p: char -> bool) {
    forall i | 0 <= i < |s| :: !p(s[i])
  }

  /** A gap contributes no run, however long it is. */
  lemma {:induction false} RunsSkipGap(g: string, s: string, p: char -> bool)
    requires NoneOf(g, p)
    ensures Runs(g + s, p) == Runs(s, p)
  {
    if g == [] {
      assert g + s == s;
    } else {
      assert (g + s)[0] == g[0] && !p(g[0]);
      assert (g + s)[1..] == g[1..] + s;
      RunsSkipGap(g[1..], s, p);
    }
  }

  /** One step of reading runs off the front: a run, a non-empty gap, then the rest. */
  lemma RunsStepGap(a: string, g: string, rest: string, p: char -> bool)
    requires a != [] && All(a, p)
    requires g != [] && NoneOf(g, p)
    ensures Runs(a + (g + rest), p) == [a] + Runs(rest, p)
  {
    RunsOfPrefix(a, g + rest, p);
    RunsSkipGap(g, rest, p);
  }

  /** `parts[0] + gaps[0] + parts[1] + ... + parts[n - 1]`: the parts with a gap string
      between each two. */
  function Interleave(parts: seq<string>, gaps: seq<string>): string
    requires |parts| == |gaps| + 1
  {
    if gaps == [] then parts[0] else parts[0] + (gaps[0] + Interleave(parts[1..], gaps[1..]))
  }

  /** `Runs` recovers the parts of a text that holds them separated by non-empty gaps of
      any length, with a gap of any length, possibly empty, before and after. */
  lemma RunsOfInterleave(lead: string, parts: seq<string>, gaps: seq<string>, trail: string, p: char -> bool)
    requires |parts| == |gaps| + 1
    requires forall k | 0 <= k < |parts| :: parts[k] != [] && All(parts[k], p)
    requires forall k | 0 <= k < |gaps| :: gaps[k] != [] && NoneOf(gaps[k], p)
    requires NoneOf(lead, p) && NoneOf(trail, p)
    ensures Runs(lead + Interleave(parts, gaps) + trail, p) == parts
  {
    assert lead + Interleave(parts, gaps) + trail == lead + (Interleave(parts, gaps) + trail);
    RunsSkipGap(lead, Interleave(parts, gaps) + trail, p);
    RunsOfInterleaveTrail(parts, gaps, trail, p);
  }

  lemma {:induction false} RunsOfInterleaveTrail(parts: seq<string>, gaps: seq<string>, trail: string, p: char -> bool)
    requires |parts| == |gaps| + 1
    requires forall k | 0 <= k < |parts| :: parts[k] != [] && All(parts[k], p)
    requires forall k | 0 <= k < |gaps| :: gaps[k] != [] && NoneOf(gaps[k], p)
    requires NoneOf(trail, p)
    ensures Runs(Interleave(parts, gaps) + trail, p) == parts
    decreases |gaps|
  {
    if gaps == [] {
      RunsOfPrefix(parts[0], trail, p);
      RunsSkipGap(trail, [], p);
      assert trail + [] == trail;
    } else {
      var rest := Interleave(parts[1..], gaps[1..]);
      assert Interleave(parts, gaps) + trail == parts[0] + (gaps[0] + (rest + trail));
      RunsStepGap(parts[0], gaps[0], rest + trail, p);
      RunsOfInterleaveTrail(parts[1..], gaps[1..], trail, p);
      assert [parts[0]] + parts[1..] == parts;
    }
  }

  /** `s.split()` of words separated by runs of blanks, with blanks before and after, is
      those words. */
  lemma TokensOfSpacedWords(lead: string, words: seq<string>, blanks: seq<string>, trail: string)
    requires |words| == |blanks| + 1
    requires forall k | 0 <= k < |words| :: words[k] != [] && All(words[k], NotSpace)
    requires forall k | 0 <= k < |blanks| :: blanks[k] != [] && All(blanks[k], IsSpace)
    requires All(lead, IsSpace) && All(trail, IsSpace)
    ensures Tokens(lead + Interleave(words, blanks) + trail) == words
  {
    forall k | 0 <= k < |blanks| ensures NoneOf(blanks[k], NotSpace) {
      assert forall i | 0 <= i < |blanks[k]| :: IsSpace(blanks[k][i]);
    }
    RunsOfInterleave(lead, words, blanks, trail, NotSpace);
  }

  /** `Runs` recovers the parts of a join over a separator outside the run alphabet. */
  lemma {:induction false} RunsOfJoin(parts: seq<string>, sep: char, p: char -> bool)
    requires !p(sep)
    requires forall k | 0 <= k < |parts| :: parts[k] != [] && All(parts[k], p)
    ensures Runs(JoinWith(parts, sep), p) == parts
  {
    if |parts| == 1 {
      RunsOfPrefix(parts[0], [], p);
      assert parts[0] + [] == parts[0];
    } else if |parts| > 1 {
      var rest := JoinWith(parts[1..], sep);
      assert parts[0] + [sep] + rest == parts[0] + ([sep] + rest);
      RunsOfPrefix(parts[0], [sep] + rest, p);
      RunsSkip(sep, rest, p);
      RunsOfJoin(parts[1..], sep, p);
      assert [parts[0]] + parts[1..] == parts;
    }
  }

  lemma JoinOfFour(a: string, b: string, c: string, d: string, sep: char)
    ensures JoinWith([a, b, c, d], sep) == a + [sep] + (b + [sep] + (c + [sep] + d))
  {
    assert [a, b, c, d][1..] == [b, c, d];
    assert [b, c, d][1..] == [c, d];
    assert [c, d][1..] == [d];
    assert JoinWith([c, d], sep) == c + [sep] + d;
    assert JoinWith([b, c, d], sep) == b + [sep] + (c + [sep] + d);
  }

  // ---------------------------------------------------------------------------
  // split(sep) and join are inverse to each other.

  /** The last piece of `s.split(sep)` holds no `sep` and is what follows the last `sep`
      in `s` (all of `s` when `sep` does not occur). */
  lemma {:induction false} LastPieceOfSplit(s: string, sep: char)
    ensures sep !in Last(SplitOn(s, sep))
    ensures IsSuffix(Last(SplitOn(s, sep)), s)
    ensures sep in s ==> |Last(SplitOn(s, sep))| < |s| && s[|s| - |Last(SplitOn(s, sep))| - 1] == sep
    ensures sep !in s ==> SplitOn(s, sep) == [s]
    ensures |SplitOn(s, sep)| == 1 ==> SplitOn(s, sep) == [s]
  {
    if s != [] {
      var rest := SplitOn(s[1..], sep);
      LastPieceOfSplit(s[1..], sep);
      if s[0] == sep {
        assert Last([[]] + rest) == Last(rest);
      } else if |rest| == 1 {
        assert [s[0]] + s[1..] == s;
      } else {
        assert sep in s[1..];
        assert Last([[s[0]] + rest[0]] + rest[1..]) == Last(rest);
      }
    }
  }

  lemma {:induction false} SplitAfterPiece(a: string, b: string, sep: char)
    requires sep !in a
    ensures SplitOn(a + [sep] + b, sep) == [a] + SplitOn(b, sep)
  {
    if a == [] {
      assert ([] + [sep] + b)[1..] == b;
    } else {
      assert (a + [sep] + b)[1..] == a[1..] + [sep] + b;
      SplitAfterPiece(a[1..], b, sep);
      assert [a[0]] + a[1..] == a;
    }
  }

  lemma {:induction false} SplitOfJoin(parts: seq<string>, sep: char)
    requires |parts| >= 1
    requires forall k | 0 <= k < |parts| :: sep !in parts[k]
    ensures SplitOn(JoinWith(parts, sep), sep) == parts
  {
    if |parts| == 1 {
      LastPieceOfSplit(parts[0], sep);
    } else {
      var rest := JoinWith(parts[1..], sep);
      assert JoinWith(parts, sep) == parts[0] + [sep] + rest;
      SplitAfterPiece(parts[0], rest, sep);
      SplitOfJoin(parts[1..], sep);
      assert [parts[0]] + parts[1..] == parts;
    }
  }

  lemma {:induction false} JoinOfSplit(s: string, sep: char)
    ensures JoinWith(SplitOn(s, sep), sep) == s
  {
    if s != [] {
      var rest := SplitOn(s[1..], sep);
      JoinOfSplit(s[1..], sep);
      if s[0] == sep {
        assert ([[]] + rest)[1..] == rest;
      } else {
        var pieces := [[s[0]] + rest[0]] + rest[1..];
        assert pieces[1..] == rest[1..];
        if |rest| > 1 {
          assert rest == [rest[0]] + rest[1..];
        }
      }
    }
  }

  // ---------------------------------------------------------------------------
  // Decimal rendering and parsing are inverse to each other.

  lemma {:induction false} ValueOfDecimal(n: nat)
    ensures Value(DecimalString(n)) == n
    decreases n
  {
    var s := DecimalString(n);
    if n >= 10 {
      ValueOfDecimal(n / 10);
      assert s[..|s| - 1] == DecimalString(n / 10);
    }
  }

  lemma ParseIntOfDecimal(n: nat)
    ensures ParseInt(DecimalString(n)) == Some(n)
    ensures ParseInt("-" + DecimalString(n)) == Some(-(n as int))
  {
    var s := DecimalString(n);
    ValueOfDecimal(n);
    assert s[0] != '+' && s[0] != '-' by { assert IsDigit(s[0]); }
    assert ("-" + s)[1..] == s;
  }
}
