// Placeholder and HTML-tag scanning, their comparison between a source text and
// its translation, and placeholder protection (src/utils/pattern-matcher.ts).
// Each global regular expression is written out as a scanner: the match it finds
// at a position (with the regex's backtracking resolved by hand) and the
// left-to-right, non-overlapping sequence of matches String.match returns.
module Placeholders {
  import opened Strings
  import opened Collections
  import opened Markers

  // --------------------------------------------------------- scanning helpers

  /** The first index at or after `i` holding `c`, or |s|. */
  function FindFrom(s: string, i: nat, c: char): (r: nat)
    requires i <= |s|
    ensures i <= r <= |s| && (r < |s| ==> s[r] == c)
    ensures forall k :: i <= k < r ==> s[k] != c
    decreases |s| - i
  {
    if i == |s| || s[i] == c then i else FindFrom(s, i + 1, c)
  }

  /** The end of the run of `[A-Za-z0-9_]` starting at `i`. */
  function WordEnd(s: string, i: nat): (r: nat)
    requires i <= |s|
    ensures i <= r <= |s| && (r < |s| ==> !IsWordChar(s[r]))
    ensures forall k :: i <= k < r ==> IsWordChar(s[k])
    decreases |s| - i
  {
    if i < |s| && IsWordChar(s[i]) then WordEnd(s, i + 1) else i
  }

  /** The end of the run of `[A-Za-z0-9]` starting at `i`. */
  function AlnumEnd(s: string, i: nat): (r: nat)
    requires i <= |s|
    ensures i <= r <= |s| && (r < |s| ==> !IsAlnum(s[r]))
    ensures forall k :: i <= k < r ==> IsAlnum(s[k])
    decreases |s| - i
  {
    if i < |s| && IsAlnum(s[i]) then AlnumEnd(s, i + 1) else i
  }

  /** The end of the run of decimal digits starting at `i`. */
  function DigitEnd(s: string, i: nat): (r: nat)
    requires i <= |s|
    ensures i <= r <= |s| && (r < |s| ==> !IsDigit(s[r]))
    ensures forall k :: i <= k < r ==> IsDigit(s[k])
    decreases |s| - i
  {
    if i < |s| && IsDigit(s[i]) then DigitEnd(s, i + 1) else i
  }

  predicate IsSdf(c: char) {
    c == 's' || c == 'd' || c == 'f'
  }

  // ------------------------------------------------------- the six patterns

  datatype Family = Curly | Percent | Dollar | Angular | Colon | Html

  /** `{name}`: a brace, at least one character other than `}`, a closing brace. */
  predicate CurlyShape(m: string) {
    |m| >= 3 && m[0] == '{' && m[|m| - 1] == '}' && forall k :: 1 <= k < |m| - 1 ==> m[k] != '}'
  }

  /** `%s`, `%d`, `%f`, or `%` digits `$` and one of s, d, f. */
  predicate PercentShape(m: string) {
    |m| >= 2 && m[0] == '%' && IsSdf(m[|m| - 1]) &&
    (|m| == 2 || (|m| >= 4 && m[|m| - 2] == '$' && forall k :: 1 <= k < |m| - 2 ==> IsDigit(m[k])))
  }

  /** `$name` or `${name}`, either brace optional; the name is an identifier. */
  predicate DollarShape(m: string) {
    |m| >= 2 && m[0] == '$' &&
    var b, e := (if m[1] == '{' then 2 else 1), (if m[|m| - 1] == '}' then |m| - 1 else |m|);
    b < e && IsIdentStart(m[b]) && forall k :: b < k < e ==> IsWordChar(m[k])
  }

  /** `{{name}}` or `[[name]]`, the inside free of the closing bracket. */
  predicate AngularShape(m: string) {
    |m| >= 5 &&
    ((m[0] == '{' && m[1] == '{' && m[|m| - 2] == '}' && m[|m| - 1] == '}' &&
      forall k :: 2 <= k < |m| - 2 ==> m[k] != '}') ||
     (m[0] == '[' && m[1] == '[' && m[|m| - 2] == ']' && m[|m| - 1] == ']' &&
      forall k :: 2 <= k < |m| - 2 ==> m[k] != ']'))
  }

  /** `:name` with an identifier name. */
  predicate ColonShape(m: string) {
    |m| >= 2 && m[0] == ':' && IsIdentStart(m[1]) && forall k :: 2 <= k < |m| ==> IsWordChar(m[k])
  }

  /** `<tag …>` or `</tag …>`: the tag name starts with a letter; no `>` before the last character. */
  predicate HtmlShape(m: string) {
    |m| >= 3 && m[0] == '<' && m[|m| - 1] == '>' &&
    (forall k :: 1 <= k < |m| - 1 ==> m[k] != '>') &&
    var j := if m[1] == '/' then 2 else 1;
    j < |m| - 1 && IsAsciiLetter(m[j])
  }

  predicate Shape(f: Family, m: string) {
    match f
    case Curly => CurlyShape(m)
    case Percent => PercentShape(m)
    case Dollar => DollarShape(m)
    case Angular => AngularShape(m)
    case Colon => ColonShape(m)
    case Html => HtmlShape(m)
  }

  /** `/\{([^}]+)\}/`: the first `}` after the brace closes it, and it may not follow at once. */
  function CurlyLen(s: string, i: nat): (n: nat)
    requires i < |s|
    ensures n > 0 ==> i + n <= |s| && CurlyShape(s[i..i + n])
  {
    if s[i] != '{' then 0
    else
      var j := FindFrom(s, i + 1, '}');
      if j < |s| && j > i + 1 then j + 1 - i else 0
  }

  /** `/%(?:(\d+)\$)?[sdf]/`: the positional form when it is complete, otherwise `%` and a letter. */
  function PercentLen(s: string, i: nat): (n: nat)
    requires i < |s|
    ensures n > 0 ==> i + n <= |s| && PercentShape(s[i..i + n])
  {
    if s[i] != '%' then 0
    else
      var k := DigitEnd(s, i + 1);
      if k > i + 1 && k + 1 < |s| && s[k] == '$' && IsSdf(s[k + 1]) then
        var m := s[i..k + 2];
        assert forall q :: 1 <= q < |m| - 2 ==> m[q] == s[i + q];
        k + 2 - i
      else if i + 1 < |s| && IsSdf(s[i + 1]) then 2
      else 0
  }

  /** `/\$\{?([a-zA-Z_][a-zA-Z0-9_]*)\}?/`: both braces are taken when present. */
  function DollarLen(s: string, i: nat): (n: nat)
    requires i < |s|
    ensures n > 0 ==> i + n <= |s| && DollarShape(s[i..i + n])
  {
    if s[i] != '$' then 0
    else
      var j := if i + 1 < |s| && s[i + 1] == '{' then i + 2 else i + 1;
      if j < |s| && IsIdentStart(s[j]) then
        var k := WordEnd(s, j + 1);
        var n := k - i + (if k < |s| && s[k] == '}' then 1 else 0);
        var m := s[i..i + n];
        assert forall q :: 0 <= q < |m| ==> m[q] == s[i + q];
        n
      else 0
  }

  /** `/\{\{([^}]+)\}\}|\[\[([^\]]+)\]\]/`: the first closing bracket must be doubled. */
  function AngularLen(s: string, i: nat): (n: nat)
    requires i < |s|
    ensures n > 0 ==> i + n <= |s| && AngularShape(s[i..i + n])
  {
    if i + 1 < |s| && ((s[i] == '{' && s[i + 1] == '{') || (s[i] == '[' && s[i + 1] == '[')) then
      var close := if s[i] == '{' then '}' else ']';
      var j := FindFrom(s, i + 2, close);
      if j > i + 2 && j + 1 < |s| && s[j + 1] == close then
        var m := s[i..j + 2];
        assert forall q :: 0 <= q < |m| ==> m[q] == s[i + q];
        j + 2 - i
      else 0
    else 0
  }

  /** `/:([a-zA-Z_][a-zA-Z0-9_]*)/` */
  function ColonLen(s: string, i: nat): (n: nat)
    requires i < |s|
    ensures n > 0 ==> i + n <= |s| && ColonShape(s[i..i + n])
  {
    if s[i] == ':' && i + 1 < |s| && IsIdentStart(s[i + 1]) then
      var k := WordEnd(s, i + 2);
      var m := s[i..k];
      assert forall q :: 0 <= q < |m| ==> m[q] == s[i + q];
      k - i
    else 0
  }

  /**
   * `/<\/?([a-zA-Z][a-zA-Z0-9]*)\b[^>]*>/`: the name runs to the end of its
   * alphanumerics; `\b` fails when `_` follows it, and the tag ends at the next `>`.
   */
  function HtmlLen(s: string, i: nat): (n: nat)
    requires i < |s|
    ensures n > 0 ==> i + n <= |s| && HtmlShape(s[i..i + n])
  {
    if s[i] != '<' then 0
    else
      var j := if i + 1 < |s| && s[i + 1] == '/' then i + 2 else i + 1;
      if j < |s| && IsAsciiLetter(s[j]) then
        var k := AlnumEnd(s, j + 1);
        if k < |s| && s[k] != '_' then
          var g := FindFrom(s, k, '>');
          if g < |s| then
            var m := s[i..g + 1];
            assert forall q :: 0 <= q < |m| ==> m[q] == s[i + q];
            g + 1 - i
          else 0
        else 0
      else 0
  }

  /** The length of the match of family `f` at position `i`, 0 when none. */
  function MatchLen(f: Family, s: string, i: nat): (n: nat)
    requires i < |s|
    ensures n > 0 ==> i + n <= |s| && Shape(f, s[i..i + n])
  {
    match f
    case Curly => CurlyLen(s, i)
    case Percent => PercentLen(s, i)
    case Dollar => DollarLen(s, i)
    case Angular => AngularLen(s, i)
    case Colon => ColonLen(s, i)
    case Html => HtmlLen(s, i)
  }

  /** String.prototype.match with the global pattern of `f`, from position `i`: the matched texts in order. */
  function Scan(f: Family, s: string, i: nat): (r: seq<string>)
    requires i <= |s|
    ensures forall k :: 0 <= k < |r| ==> Shape(f, r[k])
    ensures forall k :: 0 <= k < |r| ==> NoUnderscore(s) ==> NoUnderscore(r[k])
    decreases |s| - i
  {
    if i == |s| then []
    else
      var n := MatchLen(f, s, i);
      if n > 0 then
        NoUnderscoreSlice(s, i, i + n);
        [s[i..i + n]] + Scan(f, s, i + n)
      else Scan(f, s, i + 1)
  }

  /** The pattern matches nowhere from `i` on exactly when the scan finds nothing. */
  lemma ScanEmpty(f: Family, s: string, i: nat)
    requires i <= |s|
    ensures Scan(f, s, i) == [] <==> forall p :: i <= p < |s| ==> MatchLen(f, s, p) == 0
  {
    if forall p :: i <= p < |s| ==> MatchLen(f, s, p) == 0 {
      ScanNone(f, s, i);
    } else {
      var p :| i <= p < |s| && MatchLen(f, s, p) != 0;
      ScanSome(f, s, i, p);
    }
  }

  lemma {:induction false} ScanNone(f: Family, s: string, i: nat)
    requires i <= |s| && forall p :: i <= p < |s| ==> MatchLen(f, s, p) == 0
    ensures Scan(f, s, i) == []
    decreases |s| - i
  {
    if i < |s| {
      assert MatchLen(f, s, i) == 0;
      ScanNone(f, s, i + 1);
    }
  }

  lemma {:induction false} ScanSome(f: Family, s: string, i: nat, p: nat)
    requires i <= p < |s| && MatchLen(f, s, p) != 0
    ensures Scan(f, s, i) != []
    decreases p - i
  {
    if MatchLen(f, s, i) == 0 {
      ScanSome(f, s, i + 1, p);
    }
  }

  lemma NoUnderscoreSlice(s: string, i: nat, j: nat)
    requires i <= j <= |s|
    ensures NoUnderscore(s) ==> NoUnderscore(s[i..j])
  {
    assert forall q :: 0 <= q < j - i ==> s[i..j][q] == s[i + q];
  }

  function Matches(f: Family, s: string): seq<string> {
    Scan(f, s, 0)
  }

  // ------------------------------------------------------ placeholder extraction

  /** The detected kind: `Some(f)` for the family named KindName(f), `None` for `none`. */
  datatype Extraction = Extraction(kind: Option<Family>, placeholders: seq<string>)

  /** The placeholder families, in the order extractPlaceholders tries them. */
  const Order: seq<Family> := [Curly, Percent, Dollar, Angular, Colon]

  /** The type string the source reports for a family. */
  function KindName(f: Family): string {
    match f
    case Curly => "curly"
    case Percent => "percent"
    case Dollar => "dollar"
    case Angular => "angular"
    case Colon => "colon"
    case Html => "html"
  }

  /** Every family's matches, concatenated in family order. */
  function AllMatches(text: string): seq<string> {
    Matches(Curly, text) + Matches(Percent, text) + Matches(Dollar, text) + Matches(Angular, text) + Matches(Colon, text)
  }

  /** extractPlaceholders: the detected kind, and the distinct matches of all families in first-seen order. */
  function ExtractPlaceholders(text: string): (r: Extraction)
    ensures Distinct(r.placeholders)
    ensures forall x :: x in r.placeholders <==> x in AllMatches(text)
  {
    var kind :=
      if Matches(Curly, text) != [] then Some(Curly)
      else if Matches(Percent, text) != [] then Some(Percent)
      else if Matches(Dollar, text) != [] then Some(Dollar)
      else if Matches(Angular, text) != [] then Some(Angular)
      else if Matches(Colon, text) != [] then Some(Colon)
      else None;
    var all := AllMatches(text);
    var ps := Dedup(all);
    assert forall x :: x in ps <==> x in all by {
      forall x ensures x in ps <==> x in all {
        if x in all {
          var k :| 0 <= k < |all| && all[k] == x;
        }
      }
    }
    Extraction(kind, ps)
  }

  /** The kind is the first family, in the order curly, percent, dollar, angular, colon, that matches. */
  lemma KindIsFirstMatching(text: string)
    ensures var c, p, d, a, o := Matches(Curly, text), Matches(Percent, text), Matches(Dollar, text), Matches(Angular, text), Matches(Colon, text);
      var kind := ExtractPlaceholders(text).kind;
      (kind == Some(Curly) <==> c != []) &&
      (kind == Some(Percent) <==> c == [] && p != []) &&
      (kind == Some(Dollar) <==> c == [] && p == [] && d != []) &&
      (kind == Some(Angular) <==> c == [] && p == [] && d == [] && a != []) &&
      (kind == Some(Colon) <==> c == [] && p == [] && d == [] && a == [] && o != []) &&
      (kind == None <==> c == [] && p == [] && d == [] && a == [] && o == []) &&
      kind != Some(Html)
  {
  }

  /** A placeholder starts with `{`, `%`, `$`, `[` or `:`, and holds no `_` when the text holds none. */
  lemma PlaceholderFacts(text: string, x: string)
    requires x in ExtractPlaceholders(text).placeholders
    ensures x != [] && x[0] in {'{', '%', '$', '[', ':'}
    ensures NoUnderscore(text) ==> NoUnderscore(x)
  {
    var all := AllMatches(text);
    var k :| 0 <= k < |all| && all[k] == x;
    var fs := [Matches(Curly, text), Matches(Percent, text), Matches(Dollar, text), Matches(Angular, text), Matches(Colon, text)];
    assert all == fs[0] + fs[1] + fs[2] + fs[3] + fs[4];
    assert x in fs[0] || x in fs[1] || x in fs[2] || x in fs[3] || x in fs[4];
  }

  // ---------------------------------------------------- placeholder comparison

  /** The elements of `xs` that are not in `ys`, in order (a filter). */
  function Absent(xs: seq<string>, ys: seq<string>): (r: seq<string>)
    ensures forall x :: x in r <==> x in xs && x !in ys
    ensures (forall k :: 0 <= k < |xs| ==> xs[k] in ys) ==> r == []
    ensures Distinct(xs) ==> Distinct(r)
  {
    if xs == [] then []
    else if xs[0] in ys then Absent(xs[1..], ys)
    else [xs[0]] + Absent(xs[1..], ys)
  }

  datatype Check = Check(valid: bool, missing: seq<string>, extra: seq<string>)

  /** validatePlaceholders: the source placeholders the translation lacks, and the translation's surplus. */
  function ValidatePlaceholders(source: string, translation: string): (r: Check)
    ensures var sp, tp := ExtractPlaceholders(source).placeholders, ExtractPlaceholders(translation).placeholders;
      (forall x :: x in r.missing <==> x in sp && x !in tp) &&
      (forall x :: x in r.extra <==> x in tp && x !in sp) &&
      Distinct(r.missing) && Distinct(r.extra)
    ensures r.valid <==> r.missing == [] && r.extra == []
  {
    var sp := ExtractPlaceholders(source).placeholders;
    var tp := ExtractPlaceholders(translation).placeholders;
    var missing := Absent(sp, tp);
    var extra := Absent(tp, sp);
    Check(missing == [] && extra == [], missing, extra)
  }

  /** The check passes exactly when both texts have the same set of placeholders. */
  lemma ValidatePlaceholdersLaws(source: string, translation: string)
    ensures ValidatePlaceholders(source, translation).valid <==>
      (forall x :: x in AllMatches(source) <==> x in AllMatches(translation))
  {
    var r := ValidatePlaceholders(source, translation);
    var sa, ta := AllMatches(source), AllMatches(translation);
    if r.valid {
      forall x ensures x in sa <==> x in ta {
        assert x !in r.missing && x !in r.extra;
      }
    } else if r.missing != [] {
      var x := r.missing[0];
      assert x in sa && x !in ta;
    } else {
      var x := r.extra[0];
      assert x in ta && x !in sa;
    }
  }

  /** A text's placeholders always agree with themselves. */
  lemma ValidatePlaceholdersReflexive(text: string)
    ensures ValidatePlaceholders(text, text) == Check(true, [], [])
  {
  }

  // ----------------------------------------------------------------- HTML tags

  /** extractHtmlTags: the whole tag strings, repeats included, in order. */
  function ExtractHtmlTags(text: string): (r: seq<string>)
    ensures forall k :: 0 <= k < |r| ==> HtmlShape(r[k])
    ensures r == [] <==> forall p :: 0 <= p < |text| ==> MatchLen(Html, text, p) == 0
  {
    ScanEmpty(Html, text, 0);
    Matches(Html, text)
  }

  function Repeat(x: string, n: nat): (r: seq<string>)
    ensures |r| == n && forall k :: 0 <= k < n ==> r[k] == x
  {
    seq(n, _ => x)
  }

  /** `a - b` on counts, never negative. */
  function Monus(a: nat, b: nat): nat {
    if a > b then a - b else 0
  }

  /** For each key in order, as many copies as `a` has more than `b`. */
  function Surplus(keys: seq<string>, a: seq<string>, b: seq<string>): seq<string> {
    if keys == [] then []
    else
      var k := keys[|keys| - 1];
      Surplus(keys[..|keys| - 1], a, b) + Repeat(k, Monus(Count(a, k), Count(b, k)))
  }

  lemma RepeatMultiset(x: string, n: nat)
    ensures multiset(Repeat(x, n)) == multiset{} [x := n]
  {
    if n > 0 {
      assert Repeat(x, n) == Repeat(x, n - 1) + [x];
      RepeatMultiset(x, n - 1);
    } else {
      assert Repeat(x, n) == [];
    }
  }

  lemma {:induction false} SurplusCount(keys: seq<string>, a: seq<string>, b: seq<string>, x: string)
    requires Distinct(keys)
    ensures multiset(Surplus(keys, a, b))[x] == if x in keys then Monus(Count(a, x), Count(b, x)) else 0
  {
    if keys != [] {
      var init, k := keys[..|keys| - 1], keys[|keys| - 1];
      SurplusCount(init, a, b, x);
      RepeatMultiset(k, Monus(Count(a, k), Count(b, k)));
      assert keys == init + [k];
      assert x in keys <==> x in init || x == k;
    }
  }

  /** The surplus over the distinct elements of `a` is the multiset difference `a - b`. */
  lemma SurplusIsDifference(a: seq<string>, b: seq<string>)
    ensures multiset(Surplus(Dedup(a), a, b)) == multiset(a) - multiset(b)
  {
    var keys := Dedup(a);
    forall x ensures multiset(Surplus(keys, a, b))[x] == (multiset(a) - multiset(b))[x] {
      SurplusCount(keys, a, b, x);
      if x in keys {
        var k :| 0 <= k < |keys| && keys[k] == x;
      }
    }
  }

  /**
   * countTags: a record from each distinct tag, in first-occurrence order, to its
   * number of occurrences.
   */
  method CountTags(tags: seq<string>) returns (count: OMap<string, nat>)
    ensures ValidMap(count) && count.keys == Dedup(tags)
    ensures forall x :: x in count.entries ==> count.entries[x] == Count(tags, x)
  {
    count := EmptyMap();
    var n := 0;
    while n < |tags|
      invariant n <= |tags| && ValidMap(count) && count.keys == Dedup(tags[..n])
      invariant forall x :: x in count.entries ==> count.entries[x] == Count(tags[..n], x)
    {
      var previous := if tags[n] in count.entries then count.entries[tags[n]] else 0;
      CountStep(count, tags, n);
      count := Put(count, tags[n], previous + 1);
      n := n + 1;
    }
    assert tags[..n] == tags;
  }

  lemma CountStep(count: OMap<string, nat>, tags: seq<string>, n: nat)
    requires n < |tags| && ValidMap(count) && count.keys == Dedup(tags[..n])
    requires forall x :: x in count.entries ==> count.entries[x] == Count(tags[..n], x)
    ensures var tag := tags[n];
      var r := Put(count, tag, (if tag in count.entries then count.entries[tag] else 0) + 1);
      r.keys == Dedup(tags[..n + 1]) && forall x :: x in r.entries ==> r.entries[x] == Count(tags[..n + 1], x)
  {
    CountStepKeys(count, tags, n);
    if tags[n] !in count.entries {
      NotInDedup(tags[..n], tags[n]);
    }
    PrefixSnoc(tags, n);
    CountStepCounts(count, tags[..n], tags[n]);
  }

  lemma CountStepKeys(count: OMap<string, nat>, tags: seq<string>, n: nat)
    requires n < |tags| && ValidMap(count) && count.keys == Dedup(tags[..n])
    ensures var tag := tags[n];
      Put(count, tag, (if tag in count.entries then count.entries[tag] else 0) + 1).keys == Dedup(tags[..n + 1])
  {
    var s := tags[..n + 1];
    assert s[..|s| - 1] == tags[..n] && s[|s| - 1] == tags[n];
  }

  lemma CountStepCounts(count: OMap<string, nat>, before: seq<string>, tag: string)
    requires ValidMap(count)
    requires forall x :: x in count.entries ==> count.entries[x] == Count(before, x)
    requires tag !in count.entries ==> Count(before, tag) == 0
    ensures var r := Put(count, tag, (if tag in count.entries then count.entries[tag] else 0) + 1);
      forall x :: x in r.entries ==> r.entries[x] == Count(before + [tag], x)
  {
    var previous := if tag in count.entries then count.entries[tag] else 0;
    var r := Put(count, tag, previous + 1);
    forall x | x in r.entries ensures r.entries[x] == Count(before + [tag], x) {
      CountSnoc(before, tag, x);
    }
  }

  lemma CountSnoc(s: seq<string>, y: string, x: string)
    ensures Count(s + [y], x) == Count(s, x) + (if x == y then 1 else 0)
  {
    assert multiset(s + [y]) == multiset(s) + multiset{y};
  }

  lemma NotInDedup(s: seq<string>, x: string)
    requires x !in Dedup(s)
    ensures Count(s, x) == 0
  {
    forall k | 0 <= k < |s| ensures s[k] != x {
      assert s[k] in Dedup(s);
    }
  }

  /** Pushes, for each key in order, the copies by which `a` outnumbers `b`. */
  method PushSurplus(keys: seq<string>, a: OMap<string, nat>, b: OMap<string, nat>) returns (out: seq<string>)
    requires forall k :: 0 <= k < |keys| ==> keys[k] in a.entries
    ensures out == SurplusOf(keys, a, b)
  {
    out := [];
    var n := 0;
    while n < |keys|
      invariant n <= |keys| && out == SurplusOf(keys[..n], a, b)
    {
      var tag := keys[n];
      var mine := a.entries[tag];
      var theirs := if tag in b.entries then b.entries[tag] else 0;
      PrefixOfPrefix(keys, n);
      if theirs < mine {
        var i := 0;
        while i < mine - theirs
          invariant i <= mine - theirs && out == SurplusOf(keys[..n], a, b) + Repeat(tag, i)
        {
          out := out + [tag];
          i := i + 1;
          assert Repeat(tag, i) == Repeat(tag, i - 1) + [tag];
        }
      } else {
        assert Repeat(tag, 0) == [];
      }
      n := n + 1;
    }
    assert keys[..n] == keys;
  }

  /** The same surplus, read from count records instead of tag lists. */
  function SurplusOf(keys: seq<string>, a: OMap<string, nat>, b: OMap<string, nat>): seq<string>
    requires forall k :: 0 <= k < |keys| ==> keys[k] in a.entries
  {
    if keys == [] then []
    else
      var k := keys[|keys| - 1];
      SurplusOf(keys[..|keys| - 1], a, b) + Repeat(k, Monus(a.entries[k], if k in b.entries then b.entries[k] else 0))
  }

  lemma {:induction false} SurplusOfCounts(keys: seq<string>, a: OMap<string, nat>, b: OMap<string, nat>, sa: seq<string>, sb: seq<string>)
    requires forall k :: 0 <= k < |keys| ==> keys[k] in a.entries
    requires forall x :: x in a.entries ==> a.entries[x] == Count(sa, x)
    requires forall x :: x in b.entries ==> b.entries[x] == Count(sb, x)
    requires forall x :: x !in b.entries ==> Count(sb, x) == 0
    ensures SurplusOf(keys, a, b) == Surplus(keys, sa, sb)
  {
    if keys != [] {
      SurplusOfCounts(keys[..|keys| - 1], a, b, sa, sb);
    }
  }

  /**
   * validateHtmlTags: `missing` holds each source tag as many times as the source
   * has more of it than the translation, `extra` the converse; valid when both
   * are empty, that is, when both texts have the same tags with the same counts.
   */
  method ValidateHtmlTags(source: string, translation: string) returns (r: Check)
    ensures r.missing == Surplus(Dedup(ExtractHtmlTags(source)), ExtractHtmlTags(source), ExtractHtmlTags(translation))
    ensures r.extra == Surplus(Dedup(ExtractHtmlTags(translation)), ExtractHtmlTags(translation), ExtractHtmlTags(source))
    ensures multiset(r.missing) == multiset(ExtractHtmlTags(source)) - multiset(ExtractHtmlTags(translation))
    ensures multiset(r.extra) == multiset(ExtractHtmlTags(translation)) - multiset(ExtractHtmlTags(source))
    ensures r.valid <==> multiset(ExtractHtmlTags(source)) == multiset(ExtractHtmlTags(translation))
  {
    var sourceTags := ExtractHtmlTags(source);
    var translationTags := ExtractHtmlTags(translation);
    var sourceCount := CountTags(sourceTags);
    var translationCount := CountTags(translationTags);
    CountsComplete(sourceCount, sourceTags);
    CountsComplete(translationCount, translationTags);
    var missing := PushSurplus(sourceCount.keys, sourceCount, translationCount);
    var extra := PushSurplus(translationCount.keys, translationCount, sourceCount);
    SurplusOfCounts(sourceCount.keys, sourceCount, translationCount, sourceTags, translationTags);
    SurplusOfCounts(translationCount.keys, translationCount, sourceCount, translationTags, sourceTags);
    SurplusIsDifference(sourceTags, translationTags);
    SurplusIsDifference(translationTags, sourceTags);
    DifferencesEmpty(multiset(sourceTags), multiset(translationTags));
    r := Check(|missing| == 0 && |extra| == 0, missing, extra);
  }

  lemma CountsComplete(count: OMap<string, nat>, tags: seq<string>)
    requires ValidMap(count) && count.keys == Dedup(tags)
    ensures forall k :: 0 <= k < |count.keys| ==> count.keys[k] in count.entries
    ensures forall x :: x !in count.entries ==> Count(tags, x) == 0
  {
    forall x | x !in count.entries ensures Count(tags, x) == 0 {
      assert x !in count.keys;
    }
  }

  lemma DifferencesEmpty(a: multiset<string>, b: multiset<string>)
    ensures (a - b == multiset{} && b - a == multiset{}) <==> a == b
  {
    if a - b == multiset{} && b - a == multiset{} {
      forall x ensures a[x] == b[x] {
        assert (a - b)[x] == 0 && (b - a)[x] == 0;
      }
    }
  }

  // ------------------------------------------------------ protect and restore

  /** The word of the markers protectPlaceholders writes: `__PLACEHOLDER_<n>__`. */
  const PlaceholderWord: string := "PLACEHOLDER"

  lemma PlaceholderWordLetters()
    ensures forall k :: 0 <= k < |PlaceholderWord| ==> IsAsciiLetter(PlaceholderWord[k])
  {
  }

  lemma LeadNotAlnum(c: char)
    requires c in {'{', '%', '$', '[', ':'}
    ensures !IsAlnum(c)
  {
  }

  /** A placeholder of a text without `_` can be protected next to placeholder markers. */
  lemma PlaceholderSafe(text: string, x: string)
    requires NoUnderscore(text) && x in ExtractPlaceholders(text).placeholders
    ensures SafePattern(PlaceholderWord, x) && NoUnderscore(x)
  {
    PlaceholderFacts(text, x);
    assert !IsAlnum(x[0]) by {
      LeadNotAlnum(x[0]);
    }
    PlaceholderWordLetters();
    SafeFromLead(PlaceholderWord, x);
  }

  /**
   * protectPlaceholders: each distinct placeholder, in order, has its first
   * occurrence replaced by the next marker, and the marker is recorded with it.
   */
  method ProtectPlaceholders(text: string) returns (protectedText: string, placeholders: OMap<string, string>)
    ensures var ps := ExtractPlaceholders(text).placeholders;
      protectedText == ProtectUpTo(PlaceholderWord, text, ps, |ps|) && placeholders == MarkerMap(PlaceholderWord, ps, |ps|)
  {
    var found := ExtractPlaceholders(text).placeholders;
    placeholders := EmptyMap();
    protectedText := text;
    var index := 0;
    while index < |found|
      invariant index <= |found|
      invariant protectedText == ProtectUpTo(PlaceholderWord, text, found, index)
      invariant placeholders == MarkerMap(PlaceholderWord, found, index)
    {
      var marker := Marker(PlaceholderWord, index);
      ProtectOneMore(PlaceholderWord, text, found, index, protectedText, placeholders);
      placeholders := Put(placeholders, marker, found[index]);
      protectedText := ReplaceFirst(protectedText, found[index], marker);
      index := index + 1;
    }
  }

  /** restorePlaceholders: every occurrence of each marker, in map order, is replaced by its placeholder. */
  method RestorePlaceholders(text: string, placeholders: OMap<string, string>) returns (restored: string)
    requires ValidMap(placeholders)
    ensures restored == RestoreFrom(text, placeholders.keys, placeholders.entries, 0)
  {
    restored := RestoreMarkers(text, placeholders);
  }

  /** Restoring what protectPlaceholders produced gives back the text, when the text has no `_`. */
  lemma PlaceholderRoundTrip(text: string)
    requires NoUnderscore(text)
    ensures var ps := ExtractPlaceholders(text).placeholders;
      var m := MarkerMap(PlaceholderWord, ps, |ps|);
      RestoreFrom(ProtectUpTo(PlaceholderWord, text, ps, |ps|), m.keys, m.entries, 0) == text
  {
    var ps := ExtractPlaceholders(text).placeholders;
    AllSafe(text, ps);
    PlaceholderWordLetters();
    assert WordOk(PlaceholderWord);
    MarkerMapRoundTrip(PlaceholderWord, text, ps);
  }

  lemma AllSafe(text: string, ps: seq<string>)
    requires NoUnderscore(text) && ps == ExtractPlaceholders(text).placeholders
    ensures forall i :: 0 <= i < |ps| ==> SafePattern(PlaceholderWord, ps[i]) && NoUnderscore(ps[i])
  {
    forall i | 0 <= i < |ps| ensures SafePattern(PlaceholderWord, ps[i]) && NoUnderscore(ps[i]) {
      PlaceholderSafe(text, ps[i]);
    }
  }
}
