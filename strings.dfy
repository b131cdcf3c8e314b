// Character classes and the JavaScript string operations the translator relies on
// (trim, toLowerCase, includes, replace with a string pattern, global replace),
// written out over seq<char>.  Whitespace and case folding are ASCII only.
module Strings {

  /** `\s` and String.prototype.trim, restricted to ASCII: tab, LF, VT, FF, CR and space. */
  predicate IsSpace(c: char) {
    c == ' ' || 9 <= c as int <= 13
  }

  predicate IsDigit(c: char) {
    '0' <= c <= '9'
  }

  predicate IsAsciiLetter(c: char) {
    'a' <= c <= 'z' || 'A' <= c <= 'Z'
  }

  /** `[a-zA-Z0-9]` */
  predicate IsAlnum(c: char) {
    IsAsciiLetter(c) || IsDigit(c)
  }

  /** A regular-expression word character, `[A-Za-z0-9_]`. */
  predicate IsWordChar(c: char) {
    IsAlnum(c) || c == '_'
  }

  /** `[a-zA-Z_]`, the first character of an identifier in the placeholder patterns. */
  predicate IsIdentStart(c: char) {
    IsAsciiLetter(c) || c == '_'
  }

  predicate NoSpace(s: string) {
    forall k :: 0 <= k < |s| ==> !IsSpace(s[k])
  }

  predicate AllSpace(s: string) {
    forall k :: 0 <= k < |s| ==> IsSpace(s[k])
  }

  // ---------------------------------------------------------------- trimming

  function TrimStart(s: string): (r: string)
    ensures |r| <= |s| && r == s[|s| - |r|..]
    ensures forall k :: 0 <= k < |s| - |r| ==> IsSpace(s[k])
    ensures r == [] || !IsSpace(r[0])
  {
    if |s| > 0 && IsSpace(s[0]) then TrimStart(s[1..]) else s
  }

  function TrimEnd(s: string): (r: string)
    ensures |r| <= |s| && r == s[..|r|]
    ensures forall k :: |r| <= k < |s| ==> IsSpace(s[k])
    ensures r == [] || !IsSpace(r[|r| - 1])
  {
    if |s| > 0 && IsSpace(s[|s| - 1]) then TrimEnd(s[..|s| - 1]) else s
  }

  /** String.prototype.trim */
  function Trim(s: string): (r: string)
    ensures r == [] || (!IsSpace(r[0]) && !IsSpace(r[|r| - 1]))
  {
    TrimEnd(TrimStart(s))
  }

  /** A string with no space at either end is its own trim. */
  lemma TrimmedFixed(s: string)
    requires s == [] || (!IsSpace(s[0]) && !IsSpace(s[|s| - 1]))
    ensures Trim(s) == s
  {
  }

  lemma TrimIdempotent(s: string)
    ensures Trim(Trim(s)) == Trim(s)
  {
    TrimmedFixed(Trim(s));
  }

  /** Trimming removes only whitespace: the result is the slice of the input starting at `a`. */
  lemma TrimInside(s: string) returns (a: nat)
    ensures a + |Trim(s)| <= |s| && Trim(s) == s[a..a + |Trim(s)|]
    ensures forall j :: 0 <= j < a ==> IsSpace(s[j])
    ensures forall j :: a + |Trim(s)| <= j < |s| ==> IsSpace(s[j])
  {
    var t := TrimStart(s);
    var r := TrimEnd(t);
    a := |s| - |t|;
    assert Trim(s) == r;
    assert t == s[a..];
    assert r == t[..|r|];
    SliceOfSuffix(s, a, |r|);
    forall j | a + |r| <= j < |s| ensures IsSpace(s[j]) {
      assert s[j] == t[j - a];
    }
  }

  /** The characters of `s` that are not whitespace, in order. */
  function NonSpace(s: string): string {
    if s == [] then [] else (if IsSpace(s[0]) then [] else [s[0]]) + NonSpace(s[1..])
  }

  lemma {:induction false} NonSpaceAppend(a: string, b: string)
    ensures NonSpace(a + b) == NonSpace(a) + NonSpace(b)
  {
    if a == [] {
      assert a + b == b;
    } else {
      assert (a + b)[0] == a[0] && (a + b)[1..] == a[1..] + b;
      NonSpaceAppend(a[1..], b);
    }
  }

  /** Trimming removes whitespace only: every other character stays, in order. */
  lemma TrimKeepsNonSpace(s: string)
    ensures NonSpace(Trim(s)) == NonSpace(s)
  {
    TrimStartKeepsNonSpace(s);
    TrimEndKeepsNonSpace(TrimStart(s));
  }

  lemma {:induction false} TrimStartKeepsNonSpace(s: string)
    ensures NonSpace(TrimStart(s)) == NonSpace(s)
  {
    if |s| > 0 && IsSpace(s[0]) {
      TrimStartKeepsNonSpace(s[1..]);
    }
  }

  lemma {:induction false} TrimEndKeepsNonSpace(s: string)
    ensures NonSpace(TrimEnd(s)) == NonSpace(s)
  {
    if |s| > 0 && IsSpace(s[|s| - 1]) {
      var init := s[..|s| - 1];
      TrimEndKeepsNonSpace(init);
      assert s == init + [s[|s| - 1]];
      NonSpaceAppend(init, [s[|s| - 1]]);
      assert NonSpace([s[|s| - 1]]) == [] + NonSpace([]);
    }
  }

  /** Leading whitespace of a text that ends in a non-space lies within that text. */
  lemma {:induction false} TrimStartAppend(a: string, b: string)
    requires a != [] && !IsSpace(a[|a| - 1])
    ensures TrimStart(a + b) == TrimStart(a) + b
    ensures TrimStart(a) != [] && TrimStart(a)[|TrimStart(a)| - 1] == a[|a| - 1]
    decreases |a|
  {
    assert (a + b)[0] == a[0];
    if IsSpace(a[0]) {
      assert (a + b)[1..] == a[1..] + b;
      TrimStartAppend(a[1..], b);
    }
  }

  /** Trailing whitespace of a text that starts with a non-space lies within that text. */
  lemma {:induction false} TrimEndPrepend(a: string, b: string)
    requires b != [] && !IsSpace(b[0])
    ensures TrimEnd(a + b) == a + TrimEnd(b)
    ensures TrimEnd(b) != [] && TrimEnd(b)[0] == b[0]
    decreases |b|
  {
    assert (a + b)[|a + b| - 1] == b[|b| - 1];
    if IsSpace(b[|b| - 1]) {
      assert (a + b)[..|a + b| - 1] == a + b[..|b| - 1];
      TrimEndPrepend(a, b[..|b| - 1]);
    }
  }

  /** Trimming two words joined by one space trims each word and keeps the space. */
  lemma TrimAround(a: string, b: string)
    requires a != [] && !IsSpace(a[|a| - 1]) && b != [] && !IsSpace(b[0])
    ensures Trim(a + " " + b) == Trim(a) + " " + Trim(b)
  {
    assert a + " " + b == a + (" " + b);
    TrimStartAppend(a, " " + b);
    var sa := TrimStart(a);
    assert sa + (" " + b) == (sa + " ") + b;
    TrimEndPrepend(sa + " ", b);
    assert TrimEnd(sa) == sa;
    assert TrimStart(b) == b;
  }

  lemma SliceOfSuffix(s: string, a: nat, n: nat)
    requires a + n <= |s|
    ensures s[a..][..n] == s[a..a + n]
  {
  }

  lemma TrimTrailing(s: string)
    ensures forall j :: |s| - |TrimStart(s)| + |Trim(s)| <= j < |s| ==> IsSpace(s[j])
  {
    var t := TrimStart(s);
    var a, r := |s| - |t|, TrimEnd(t);
    forall j | a + |r| <= j < |s| ensures IsSpace(s[j]) {
      assert t == s[a..] && s[j] == t[j - a];
    }
  }

  // ------------------------------------------------------------ case folding

  /** toLowerCase on one character, ASCII only. */
  function LowerChar(c: char): char {
    if 'A' <= c <= 'Z' then (c as int + 32) as char else c
  }

  function Lower(s: string): (r: string)
    ensures |r| == |s|
    ensures forall k :: 0 <= k < |s| ==> r[k] == LowerChar(s[k])
  {
    if s == [] then [] else [LowerChar(s[0])] + Lower(s[1..])
  }

  lemma LowerAppend(a: string, b: string)
    ensures Lower(a + b) == Lower(a) + Lower(b)
  {
  }

  // ------------------------------------------------------- searching literals

  predicate StartsWith(s: string, p: string) {
    |p| <= |s| && s[..|p|] == p
  }

  /** The match test of a literal pattern, case-insensitive (regex flag `i`) when `fold` holds. */
  predicate MatchesAt(s: string, p: string, fold: bool) {
    |p| <= |s| && (if fold then Lower(s[..|p|]) == Lower(p) else s[..|p|] == p)
  }

  /** String.prototype.includes */
  predicate Contains(s: string, p: string)
    decreases |s|
  {
    StartsWith(s, p) || (|s| > 0 && Contains(s[1..], p))
  }

  lemma ContainsAt(s: string, p: string, i: nat)
    requires i + |p| <= |s| && s[i..i + |p|] == p
    ensures Contains(s, p)
    decreases i
  {
    if i > 0 {
      assert s[1..][i - 1..i - 1 + |p|] == s[i..i + |p|];
      ContainsAt(s[1..], p, i - 1);
    }
  }

  lemma ContainsWitness(s: string, p: string) returns (i: nat)
    requires Contains(s, p)
    ensures i + |p| <= |s| && s[i..i + |p|] == p
    decreases |s|
  {
    if StartsWith(s, p) {
      i := 0;
    } else {
      var j := ContainsWitness(s[1..], p);
      i := j + 1;
      assert s[i..i + |p|] == s[1..][j..j + |p|];
    }
  }

  lemma ContainsSelf(s: string)
    ensures Contains(s, s)
  {
    assert StartsWith(s, s);
  }

  /**
   * String.prototype.replace with a string pattern: the first occurrence of `p`
   * is replaced; with no occurrence the text is returned unchanged.
   */
  function ReplaceFirst(s: string, p: string, rep: string): (r: string)
    decreases |s|
  {
    if StartsWith(s, p) then rep + s[|p|..]
    else if s == [] then s
    else [s[0]] + ReplaceFirst(s[1..], p, rep)
  }

  /**
   * String.prototype.replace with a global regular expression whose source is the
   * literal `p` (flag `i` when `fold`): every leftmost, non-overlapping match is
   * replaced.  An empty pattern matches between every two characters.
   */
  function ReplaceAll(s: string, p: string, rep: string, fold: bool): (r: string)
    decreases |s|
  {
    if p == [] then rep + (if s == [] then [] else [s[0]] + ReplaceAll(s[1..], p, rep, fold))
    else if s == [] then []
    else if MatchesAt(s, p, fold) then rep + ReplaceAll(s[|p|..], p, rep, fold)
    else [s[0]] + ReplaceAll(s[1..], p, rep, fold)
  }

  lemma ReplaceFirstAbsent(s: string, p: string, rep: string)
    requires !Contains(s, p)
    ensures ReplaceFirst(s, p, rep) == s
    decreases |s|
  {
    if s != [] {
      ReplaceFirstAbsent(s[1..], p, rep);
    }
  }

  lemma ReplaceAllAbsent(s: string, p: string, rep: string)
    requires p != [] && !Contains(s, p)
    ensures ReplaceAll(s, p, rep, false) == s
    decreases |s|
  {
    if s != [] {
      ReplaceAllAbsent(s[1..], p, rep);
    }
  }

  /** Non-overlapping match positions of a non-empty literal, left to right, from `i` on. */
  function MatchPositions(s: string, p: string, fold: bool, i: nat): (r: seq<nat>)
    requires p != []
    ensures forall k :: 0 <= k < |r| ==> i <= r[k] && r[k] + |p| <= |s| && MatchesAt(s[r[k]..], p, fold)
    ensures forall k, l :: 0 <= k < l < |r| ==> r[k] + |p| <= r[l]
    decreases |s| - i
  {
    if i + |p| > |s| then []
    else if MatchesAt(s[i..], p, fold) then [i] + MatchPositions(s, p, fold, i + |p|)
    else MatchPositions(s, p, fold, i + 1)
  }

  /** Every match at or after `i` is found: the first position returned is the leftmost match. */
  lemma {:induction false} MatchPositionsLeftmost(s: string, p: string, fold: bool, i: nat, j: nat)
    requires p != [] && i <= j && j + |p| <= |s| && MatchesAt(s[j..], p, fold)
    ensures MatchPositions(s, p, fold, i) != [] && MatchPositions(s, p, fold, i)[0] <= j
    decreases |s| - i
  {
    if !MatchesAt(s[i..], p, fold) {
      MatchPositionsLeftmost(s, p, fold, i + 1, j);
    }
  }

  /** Without any match from `i` on, there are no match positions. */
  lemma {:induction false} MatchPositionsNone(s: string, p: string, fold: bool, i: nat)
    requires p != [] && forall j :: i <= j && j + |p| <= |s| ==> !MatchesAt(s[j..], p, fold)
    ensures MatchPositions(s, p, fold, i) == []
    decreases |s| - i
  {
    if i + |p| <= |s| {
      MatchPositionsNone(s, p, fold, i + 1);
    }
  }

  // ----------------------------------------------------------- decimal digits

  function DigitChar(d: nat): char
    requires d < 10
  {
    ('0' as int + d) as char
  }

  /** The decimal rendering of a natural number, as `${n}` writes it. */
  function NatToString(n: nat): (r: string)
    ensures |r| > 0
    ensures forall k :: 0 <= k < |r| ==> IsDigit(r[k])
    ensures n >= 10 ==> |r| >= 2
  {
    if n < 10 then [DigitChar(n)] else NatToString(n / 10) + [DigitChar(n % 10)]
  }

  lemma {:induction false} NatToStringInjective(a: nat, b: nat)
    requires NatToString(a) == NatToString(b)
    ensures a == b
  {
    if a >= 10 && b >= 10 {
      var sa, sb := NatToString(a), NatToString(b);
      assert sa[|sa| - 1] == DigitChar(a % 10) && sb[|sb| - 1] == DigitChar(b % 10);
      assert NatToString(a / 10) == sa[..|sa| - 1] == sb[..|sb| - 1] == NatToString(b / 10);
      NatToStringInjective(a / 10, b / 10);
    }
  }

  // ------------------------------------------------------------------ joining

  /** Array.prototype.join */
  function JoinWith(parts: seq<string>, sep: string): string {
    if parts == [] then []
    else if |parts| == 1 then parts[0]
    else parts[0] + sep + JoinWith(parts[1..], sep)
  }

  // ----------------------------------------------------------------- ordering

  /** `a` sorts no later than `b`, comparing code point by code point (a prefix first). */
  predicate LexLeq(a: string, b: string) {
    a == [] || (b != [] && (a[0] < b[0] || (a[0] == b[0] && LexLeq(a[1..], b[1..]))))
  }

  /** Any two strings are ordered one way or the other. */
  lemma {:induction false} LexLeqTotal(a: string, b: string)
    ensures LexLeq(a, b) || LexLeq(b, a)
  {
    if a != [] && b != [] && a[0] == b[0] {
      LexLeqTotal(a[1..], b[1..]);
    }
  }

  lemma {:induction false} LexLeqTransitive(a: string, b: string, c: string)
    requires LexLeq(a, b) && LexLeq(b, c)
    ensures LexLeq(a, c)
  {
    if a != [] && a[0] == b[0] && b[0] == c[0] {
      LexLeqTransitive(a[1..], b[1..], c[1..]);
    }
  }

  /** Strings ordered both ways are equal. */
  lemma {:induction false} LexLeqAntisymmetric(a: string, b: string)
    requires LexLeq(a, b) && LexLeq(b, a)
    ensures a == b
  {
    if a != [] {
      LexLeqAntisymmetric(a[1..], b[1..]);
      assert a == [a[0]] + a[1..] && b == [b[0]] + b[1..];
    }
  }
}
