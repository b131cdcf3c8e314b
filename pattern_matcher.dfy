// Text utilities of the translator: Chinese detection and extraction, key
// derivation, language codes and whitespace cleaning (src/utils/pattern-matcher.ts).
module PatternMatcher {
  import opened Strings
  import opened Collections

  // ------------------------------------------------------- Chinese detection

  /** `[一-龥]`, the CJK unified ideographs the translator treats as Chinese. */
  predicate IsHan(c: char) {
    0x4E00 <= c as int <= 0x9FA5
  }

  /** `[一-龥　-〿＀-￯]`: ideographs, CJK punctuation and full-width forms. */
  predicate IsCjkText(c: char) {
    IsHan(c) || 0x3000 <= c as int <= 0x303F || 0xFF00 <= c as int <= 0xFFEF
  }

  /** hasChinese, stateless (the shared global regex's lastIndex is not modelled). */
  predicate HasChinese(t: string) {
    exists k :: 0 <= k < |t| && IsHan(t[k])
  }

  /** extractChineseFromString: the trimmed text when it holds Chinese, otherwise null. */
  function ExtractChineseFromString(t: string): (r: Option<string>)
    ensures r.Some? <==> HasChinese(t)
    ensures r.Some? ==> r.value == Trim(t) && HasChinese(r.value) && Trim(r.value) == r.value
  {
    if HasChinese(t) then
      TrimKeepsChinese(t);
      TrimIdempotent(t);
      Some(Trim(t))
    else None
  }

  /** Trimming removes whitespace only, so the Chinese characters stay. */
  lemma TrimKeepsChinese(t: string)
    requires HasChinese(t)
    ensures HasChinese(Trim(t))
  {
    var a := TrimInside(t);
    var k :| 0 <= k < |t| && IsHan(t[k]);
    assert !IsSpace(t[k]);
    assert Trim(t)[k - a] == t[k];
  }

  /** End of the run of CJK text characters starting at `i`. */
  function RunEnd(t: string, i: nat): (e: nat)
    requires i <= |t|
    ensures i <= e <= |t| && (e == |t| || !IsCjkText(t[e]))
    ensures forall k :: i <= k < e ==> IsCjkText(t[k])
    decreases |t| - i
  {
    if i < |t| && IsCjkText(t[i]) then RunEnd(t, i + 1) else i
  }

  /** A maximal run of CJK text characters, as a [start, end) span. */
  predicate IsRun(t: string, s: (nat, nat)) {
    s.0 < s.1 <= |t| &&
    (forall k :: s.0 <= k < s.1 ==> IsCjkText(t[k])) &&
    (s.0 == 0 || !IsCjkText(t[s.0 - 1])) &&
    (s.1 == |t| || !IsCjkText(t[s.1]))
  }

  /** The start of a run: no CJK text character just before `i`, or `i` at either end. */
  predicate RunBoundary(t: string, i: nat) {
    i <= |t| && (i == 0 || i == |t| || !IsCjkText(t[i - 1]) || !IsCjkText(t[i]))
  }

  /** The matches of the global CJK-text regex from `i` on, as [start, end) spans. */
  function RunSpans(t: string, i: nat): (r: seq<(nat, nat)>)
    requires RunBoundary(t, i)
    ensures forall j :: 0 <= j < |r| ==> i <= r[j].0 && IsRun(t, r[j])
    ensures forall j, l :: 0 <= j < l < |r| ==> r[j].1 < r[l].0
    decreases |t| - i
  {
    if i >= |t| then []
    else if IsCjkText(t[i]) then
      var e := RunEnd(t, i);
      if e == |t| then [(i, e)] else [(i, e)] + RunSpans(t, e)
    else RunSpans(t, i + 1)
  }

  /** Every CJK text character lies in one of the spans: the runs cover the text. */
  lemma {:induction false} RunSpansCover(t: string, i: nat, k: nat) returns (j: nat)
    requires RunBoundary(t, i)
    requires i <= k < |t| && IsCjkText(t[k])
    ensures j < |RunSpans(t, i)| && RunSpans(t, i)[j].0 <= k < RunSpans(t, i)[j].1
    decreases |t| - i
  {
    var r := RunSpans(t, i);
    if IsCjkText(t[i]) {
      var e := RunEnd(t, i);
      if k < e {
        j := 0;
      } else {
        var j' := RunSpansCover(t, e, k);
        j := j' + 1;
      }
    } else {
      j := RunSpansCover(t, i + 1, k);
    }
  }

  function SpanTexts(t: string, spans: seq<(nat, nat)>): (r: seq<string>)
    requires forall j :: 0 <= j < |spans| ==> spans[j].0 <= spans[j].1 <= |t|
    ensures |r| == |spans|
    ensures forall j :: 0 <= j < |r| ==> r[j] == t[spans[j].0..spans[j].1]
  {
    seq(|spans|, j requires 0 <= j < |spans| => t[spans[j].0..spans[j].1])
  }

  /**
   * extractChinese: the distinct maximal runs of CJK text, in first-occurrence
   * order; empty exactly when the text has no CJK text character.
   * ExtractChineseRuns and ExtractChineseOrder state the runs and their order.
   */
  function ExtractChinese(t: string): (r: seq<string>)
    ensures r == Dedup(SpanTexts(t, RunSpans(t, 0)))
    ensures Distinct(r)
    ensures r == [] <==> forall k :: 0 <= k < |t| ==> !IsCjkText(t[k])
    ensures forall j :: 0 <= j < |r| ==> r[j] != [] && forall k :: 0 <= k < |r[j]| ==> IsCjkText(r[j][k])
  {
    var spans := RunSpans(t, 0);
    ExtractChineseShape(t, spans);
    Dedup(SpanTexts(t, spans))
  }

  lemma ExtractChineseShape(t: string, spans: seq<(nat, nat)>)
    requires spans == RunSpans(t, 0)
    ensures var r := Dedup(SpanTexts(t, spans));
      (r == [] <==> forall k :: 0 <= k < |t| ==> !IsCjkText(t[k])) &&
      forall j :: 0 <= j < |r| ==> r[j] != [] && forall k :: 0 <= k < |r[j]| ==> IsCjkText(r[j][k])
  {
    var texts := SpanTexts(t, spans);
    var r := Dedup(texts);
    assert r == [] <==> forall k :: 0 <= k < |t| ==> !IsCjkText(t[k]) by {
      if spans != [] {
        assert texts[0] in r;
        assert IsCjkText(t[spans[0].0]);
      } else {
        forall k | 0 <= k < |t| ensures !IsCjkText(t[k]) {
          if IsCjkText(t[k]) {
            var j := RunSpansCover(t, 0, k);
          }
        }
      }
    }
    forall j | 0 <= j < |r|
      ensures r[j] != [] && forall k :: 0 <= k < |r[j]| ==> IsCjkText(r[j][k])
    {
      var l :| 0 <= l < |texts| && texts[l] == r[j];
      RunText(t, spans, l);
    }
  }

  /** Two maximal runs that share a position are the same run. */
  lemma SameRun(t: string, a: (nat, nat), b: (nat, nat), k: nat)
    requires IsRun(t, a) && IsRun(t, b)
    requires a.0 <= k < a.1 && b.0 <= k < b.1
    ensures a == b
  {
  }

  /** Every maximal run is one of the regex's matches. */
  lemma RunIsSpan(t: string, s: (nat, nat)) returns (l: nat)
    requires IsRun(t, s)
    ensures l < |RunSpans(t, 0)| && RunSpans(t, 0)[l] == s
  {
    l := RunSpansCover(t, 0, s.0);
    SameRun(t, RunSpans(t, 0)[l], s, s.0);
  }

  /** The entries are exactly the texts of the maximal runs of CJK text. */
  lemma ExtractChineseRuns(t: string)
    ensures forall j :: 0 <= j < |ExtractChinese(t)| ==>
      exists s: (nat, nat) :: IsRun(t, s) && ExtractChinese(t)[j] == t[s.0..s.1]
    ensures forall s: (nat, nat) :: IsRun(t, s) ==> t[s.0..s.1] in ExtractChinese(t)
  {
    var spans := RunSpans(t, 0);
    var texts := SpanTexts(t, spans);
    var r := ExtractChinese(t);
    forall j | 0 <= j < |r| ensures exists s: (nat, nat) :: IsRun(t, s) && r[j] == t[s.0..s.1] {
      var l :| 0 <= l < |texts| && texts[l] == r[j];
      assert IsRun(t, spans[l]);
    }
    forall s: (nat, nat) | IsRun(t, s) ensures t[s.0..s.1] in r {
      var l := RunIsSpan(t, s);
      assert texts[l] == t[s.0..s.1];
    }
  }

  /**
   * The entries keep first-occurrence order: an earlier entry is the text of a
   * run that ends before every run whose text is a later entry.
   */
  lemma ExtractChineseOrder(t: string, i: nat, j: nat)
    requires i < j < |ExtractChinese(t)|
    ensures exists s: (nat, nat) ::
      IsRun(t, s) && t[s.0..s.1] == ExtractChinese(t)[i] &&
      (forall s': (nat, nat) :: IsRun(t, s') && t[s'.0..s'.1] == ExtractChinese(t)[j] ==> s.1 < s'.0)
  {
    var spans := RunSpans(t, 0);
    var texts := SpanTexts(t, spans);
    RunBefore(t, spans, texts, i, j);
  }

  lemma RunBefore(t: string, spans: seq<(nat, nat)>, texts: seq<string>, i: nat, j: nat)
    requires spans == RunSpans(t, 0) && texts == SpanTexts(t, spans)
    requires i < j < |Dedup(texts)|
    ensures exists s: (nat, nat) ::
      IsRun(t, s) && t[s.0..s.1] == Dedup(texts)[i] &&
      (forall s': (nat, nat) :: IsRun(t, s') && t[s'.0..s'.1] == Dedup(texts)[j] ==> s.1 < s'.0)
  {
    var a, w := Dedup(texts)[i], Dedup(texts)[j];
    DedupOrder(texts, i, j);
    var p :| 0 <= p < |texts| && texts[p] == a && w !in texts[..p + 1];
    RunsAfter(t, spans, texts, p, w);
    assert IsRun(t, spans[p]) && t[spans[p].0..spans[p].1] == a;
  }

  /** A run whose text does not occur among the first p + 1 matches lies after match p. */
  lemma RunsAfter(t: string, spans: seq<(nat, nat)>, texts: seq<string>, p: nat, w: string)
    requires spans == RunSpans(t, 0) && texts == SpanTexts(t, spans)
    requires p < |texts| && w !in texts[..p + 1]
    ensures forall s': (nat, nat) :: IsRun(t, s') && t[s'.0..s'.1] == w ==> spans[p].1 < s'.0
  {
    forall s': (nat, nat) | IsRun(t, s') && t[s'.0..s'.1] == w ensures spans[p].1 < s'.0 {
      var q := RunIsSpan(t, s');
      assert texts[q] == w;
    }
  }

  lemma RunText(t: string, spans: seq<(nat, nat)>, l: nat)
    requires spans == RunSpans(t, 0) && l < |spans|
    ensures var x := t[spans[l].0..spans[l].1]; x != [] && forall k :: 0 <= k < |x| ==> IsCjkText(x[k])
  {
    var x := t[spans[l].0..spans[l].1];
    assert forall k :: 0 <= k < |x| ==> x[k] == t[spans[l].0 + k];
  }

  // ---------------------------------------------------------- key derivation

  /** The characters of `s` other than whitespace and `rep`, in order. */
  function Strip(s: string, rep: char): string {
    if s == [] then [] else (if IsSpace(s[0]) || s[0] == rep then [] else [s[0]]) + Strip(s[1..], rep)
  }

  lemma StripCons(c: char, s: string, rep: char)
    ensures Strip([c] + s, rep) == (if IsSpace(c) || c == rep then [] else [c]) + Strip(s, rep)
  {
    assert ([c] + s)[0] == c && ([c] + s)[1..] == s;
  }

  /** Leading whitespace contributes nothing to the stripped text. */
  lemma {:induction false} StripTrimStart(s: string, rep: char)
    ensures Strip(TrimStart(s), rep) == Strip(s, rep)
  {
    if |s| > 0 && IsSpace(s[0]) {
      StripTrimStart(s[1..], rep);
    }
  }

  /**
   * Replaces every maximal run of whitespace by the single character `rep` (`/\s+/g`);
   * every character that is neither whitespace nor `rep` is kept, in order.
   */
  function CollapseSpace(s: string, rep: char): (r: string)
    ensures Strip(r, rep) == Strip(s, rep)
    ensures !IsSpace(rep) ==> NoSpace(r)
    ensures forall k :: 0 <= k < |r| && IsSpace(r[k]) ==> r[k] == rep
    ensures forall k :: 0 <= k < |r| - 1 ==> !(IsSpace(r[k]) && IsSpace(r[k + 1]))
    ensures s != [] && !IsSpace(s[0]) ==> r != [] && r[0] == s[0]
    ensures s != [] && IsSpace(s[0]) ==> r != [] && r[0] == rep
    ensures s == [] <==> r == []
    decreases |s|
  {
    if s == [] then []
    else if IsSpace(s[0]) then
      var rest := TrimStart(s);
      assert |rest| < |s|;
      StripCons(rep, CollapseSpace(rest, rep), rep);
      StripTrimStart(s, rep);
      [rep] + CollapseSpace(rest, rep)
    else
      StripCons(s[0], CollapseSpace(s[1..], rep), rep);
      StripCons(s[0], s[1..], rep);
      assert s == [s[0]] + s[1..];
      [s[0]] + CollapseSpace(s[1..], rep)
  }

  /** A text whose only whitespace is isolated `rep` characters is left as it is. */
  lemma {:induction false} CollapseSpaceFixed(s: string, rep: char)
    requires forall k :: 0 <= k < |s| && IsSpace(s[k]) ==> s[k] == rep
    requires forall k :: 0 <= k < |s| - 1 ==> !(IsSpace(s[k]) && IsSpace(s[k + 1]))
    ensures CollapseSpace(s, rep) == s
    decreases |s|
  {
    if s != [] {
      if IsSpace(s[0]) {
        assert TrimStart(s) == s[1..] by {
          assert |s| > 1 ==> !IsSpace(s[1]);
        }
      }
      CollapseSpaceFixed(s[1..], rep);
    }
  }

  /** A text without whitespace is left as it is. */
  lemma CollapseNoSpace(s: string, rep: char)
    requires NoSpace(s)
    ensures CollapseSpace(s, rep) == s
  {
    CollapseSpaceFixed(s, rep);
  }

  /** Collapsing splits after a non-space character. */
  lemma {:induction false} CollapseAppend(x: string, z: string, rep: char)
    requires x != [] && !IsSpace(x[|x| - 1])
    ensures CollapseSpace(x + z, rep) == CollapseSpace(x, rep) + CollapseSpace(z, rep)
    decreases |x|
  {
    var cz := CollapseSpace(z, rep);
    assert (x + z)[0] == x[0];
    if IsSpace(x[0]) {
      var tx := TrimStart(x);
      TrimStartAppend(x, z);
      CollapseAppend(tx, z, rep);
      CollapseSpaceHead(x + z, rep);
      CollapseSpaceHead(x, rep);
      Regroup([rep], CollapseSpace(tx, rep), cz);
    } else if |x| == 1 {
      assert (x + z)[1..] == z;
      CollapseCharHead(x + z, rep);
      CollapseCharHead(x, rep);
      assert CollapseSpace(x, rep) == [x[0]];
    } else {
      assert (x + z)[1..] == x[1..] + z;
      CollapseAppend(x[1..], z, rep);
      CollapseCharHead(x + z, rep);
      CollapseCharHead(x, rep);
      Regroup([x[0]], CollapseSpace(x[1..], rep), cz);
    }
  }

  lemma CollapseSpaceHead(s: string, rep: char)
    requires s != [] && IsSpace(s[0])
    ensures CollapseSpace(s, rep) == [rep] + CollapseSpace(TrimStart(s), rep)
  {
  }

  lemma CollapseCharHead(s: string, rep: char)
    requires s != [] && !IsSpace(s[0])
    ensures CollapseSpace(s, rep) == [s[0]] + CollapseSpace(s[1..], rep)
  {
  }

  lemma Regroup(a: string, b: string, c: string)
    ensures a + (b + c) == (a + b) + c
  {
  }

  /** A collapsed text ends in the same non-space character as the text. */
  lemma {:induction false} CollapseLast(x: string, rep: char)
    requires x != [] && !IsSpace(x[|x| - 1])
    ensures var r := CollapseSpace(x, rep); r != [] && r[|r| - 1] == x[|x| - 1]
    decreases |x|
  {
    if IsSpace(x[0]) {
      TrimStartAppend(x, []);
      assert x + [] == x;
      CollapseLast(TrimStart(x), rep);
    } else if |x| > 1 {
      CollapseLast(x[1..], rep);
    }
  }

  /**
   * Each inner run of whitespace becomes exactly one `rep`: a run between a text
   * ending in a non-space and a text starting with one collapses on its own.
   */
  lemma CollapseRun(x: string, w: string, y: string, rep: char)
    requires x != [] && !IsSpace(x[|x| - 1]) && w != [] && AllSpace(w) && (y == [] || !IsSpace(y[0]))
    ensures CollapseSpace(x + w + y, rep) == CollapseSpace(x, rep) + [rep] + CollapseSpace(y, rep)
  {
    assert x + w + y == x + (w + y);
    CollapseAppend(x, w + y, rep);
    TrimStartSpaces(w, y);
    assert (w + y)[0] == w[0];
    assert CollapseSpace(w + y, rep) == [rep] + CollapseSpace(y, rep);
  }

  /** `[一-龥a-zA-Z0-9_]`, the characters a derived key may hold. */
  predicate IsKeyChar(c: char) {
    IsHan(c) || IsAlnum(c) || c == '_'
  }

  function KeepKeyChars(s: string): (r: string)
    ensures forall k :: 0 <= k < |r| ==> IsKeyChar(r[k])
    ensures (forall k :: 0 <= k < |s| ==> IsKeyChar(s[k])) ==> r == s
  {
    if s == [] then [] else (if IsKeyChar(s[0]) then [s[0]] else []) + KeepKeyChars(s[1..])
  }

  /** Filtering a concatenation filters each part. */
  lemma {:induction false} KeepKeyCharsAppend(a: string, b: string)
    ensures KeepKeyChars(a + b) == KeepKeyChars(a) + KeepKeyChars(b)
  {
    if a == [] {
      assert a + b == b;
    } else {
      assert (a + b)[0] == a[0] && (a + b)[1..] == a[1..] + b;
      KeepKeyCharsAppend(a[1..], b);
    }
  }

  /** One character is kept exactly when it is a key character. */
  lemma KeepKeyCharsOne(c: char)
    ensures KeepKeyChars([c]) == if IsKeyChar(c) then [c] else []
  {
    assert [c][1..] == [];
  }

  /** Dropping `_` and whitespace commutes with keeping the key characters. */
  lemma {:induction false} StripKeepKeyChars(s: string)
    ensures Strip(KeepKeyChars(s), '_') == KeepKeyChars(Strip(s, '_'))
  {
    if s != [] {
      StripKeepKeyChars(s[1..]);
      var head := if IsKeyChar(s[0]) then [s[0]] else [];
      assert KeepKeyChars(s) == head + KeepKeyChars(s[1..]);
      StripAppend(head, KeepKeyChars(s[1..]), '_');
      var kept := if IsSpace(s[0]) || s[0] == '_' then [] else [s[0]];
      assert Strip(s, '_') == kept + Strip(s[1..], '_');
      KeepKeyCharsAppend(kept, Strip(s[1..], '_'));
      if kept != [] {
        KeepKeyCharsOne(s[0]);
      }
      if head != [] {
        StripCons(s[0], [], '_');
      }
    }
  }

  lemma {:induction false} StripAppend(a: string, b: string, rep: char)
    ensures Strip(a + b, rep) == Strip(a, rep) + Strip(b, rep)
  {
    if a == [] {
      assert a + b == b;
    } else {
      assert (a + b)[0] == a[0] && (a + b)[1..] == a[1..] + b;
      StripAppend(a[1..], b, rep);
    }
  }

  /** The `ns.` prefix, present when the namespace is a non-empty string. */
  function NamespacePrefix(ns: Option<string>): string {
    if ns.Some? && ns.value != "" then ns.value + "." else ""
  }

  /** generateKey: whitespace runs become `_`, other non-key characters are dropped, at most 20 kept. */
  function GenerateKey(text: string, ns: Option<string>): (r: string)
    ensures exists body ::
      r == NamespacePrefix(ns) + body && |body| <= 20 && forall k :: 0 <= k < |body| ==> IsKeyChar(body[k])
  {
    var clean := KeepKeyChars(CollapseSpace(text, '_'));
    var short := if |clean| > 20 then clean[..20] else clean;
    NamespacePrefix(ns) + short
  }

  /**
   * The key's body is the first 20 characters of the text with whitespace runs
   * turned into `_` and every other non-key character dropped; apart from `_`,
   * those are exactly the key characters of the text, in order.
   */
  lemma GenerateKeyBody(text: string, ns: Option<string>)
    ensures var chars := KeepKeyChars(CollapseSpace(text, '_'));
      GenerateKey(text, ns) == NamespacePrefix(ns) + (if |chars| > 20 then chars[..20] else chars)
      && Strip(chars, '_') == KeepKeyChars(Strip(text, '_'))
  {
    KeyCharsStripped(text);
  }

  lemma KeyCharsStripped(text: string)
    ensures Strip(KeepKeyChars(CollapseSpace(text, '_')), '_') == KeepKeyChars(Strip(text, '_'))
  {
    var collapsed := CollapseSpace(text, '_');
    StripKeepKeyChars(collapsed);
    assert Strip(collapsed, '_') == Strip(text, '_');
  }

  /** A key derived without a namespace derives itself again. */
  lemma KeyIdempotent(text: string)
    ensures GenerateKey(GenerateKey(text, None), None) == GenerateKey(text, None)
  {
    var k := GenerateKey(text, None);
    GeneratedKeyShape(text);
    CollapseSpaceFixed(k, '_');
    assert KeepKeyChars(CollapseSpace(k, '_')) == k;
  }

  /** A key derived without a namespace has at most 20 characters, all key characters. */
  lemma GeneratedKeyShape(text: string)
    ensures var k := GenerateKey(text, None);
      |k| <= 20 && forall j :: 0 <= j < |k| ==> IsKeyChar(k[j]) && !IsSpace(k[j])
  {
    var chars := KeepKeyChars(CollapseSpace(text, '_'));
    GenerateKeyBody(text, None);
    KeyCharsPrefix(chars);
    assert GenerateKey(text, None) == if |chars| > 20 then chars[..20] else chars;
  }

  lemma KeyCharsPrefix(chars: string)
    requires forall k :: 0 <= k < |chars| ==> IsKeyChar(chars[k])
    ensures var b := if |chars| > 20 then chars[..20] else chars;
      |b| <= 20 && forall j :: 0 <= j < |b| ==> IsKeyChar(b[j]) && !IsSpace(b[j])
  {
  }

  /** A run of whitespace between two key characters becomes one `_` in the key. */
  lemma KeyJoinsWords(a: char, spaces: string, b: char)
    requires IsKeyChar(a) && IsKeyChar(b) && spaces != [] && AllSpace(spaces)
    ensures GenerateKey([a] + spaces + [b], None) == [a, '_', b]
  {
    CollapseJoin(a, spaces, b);
    assert KeepKeyChars([a, '_', b]) == [a, '_', b];
  }

  lemma CollapseJoin(a: char, spaces: string, b: char)
    requires !IsSpace(a) && !IsSpace(b) && spaces != [] && AllSpace(spaces)
    ensures CollapseSpace([a] + spaces + [b], '_') == [a, '_', b]
  {
    var s := [a] + spaces + [b];
    assert TrimStart(s[1..]) == [b] by {
      assert s[1..] == spaces + [b];
      TrimStartSpaces(spaces, [b]);
    }
    assert CollapseSpace([b], '_') == [b];
    assert CollapseSpace(s[1..], '_') == ['_'] + CollapseSpace([b], '_');
  }

  lemma {:induction false} TrimStartSpaces(spaces: string, rest: string)
    requires AllSpace(spaces) && (rest == [] || !IsSpace(rest[0]))
    ensures TrimStart(spaces + rest) == rest
    decreases |spaces|
  {
    if spaces != [] {
      assert (spaces + rest)[1..] == spaces[1..] + rest;
      TrimStartSpaces(spaces[1..], rest);
    } else {
      assert spaces + rest == rest;
    }
  }

  /** generateHashKey: the optional `ns.` prefix and the first eight hex digits of the digest. */
  function GenerateHashKey(text: string, ns: Option<string>, md5Hex: string -> string): (r: string)
    ensures |r| == |NamespacePrefix(ns)| + (if |md5Hex(text)| < 8 then |md5Hex(text)| else 8)
    ensures r[..|NamespacePrefix(ns)|] == NamespacePrefix(ns)
    ensures r[|NamespacePrefix(ns)|..] == md5Hex(text)[..|r| - |NamespacePrefix(ns)|]
  {
    var digest := md5Hex(text);
    NamespacePrefix(ns) + (if |digest| < 8 then digest else digest[..8])
  }

  // ---------------------------------------------------------- language codes

  const ValidCodes: seq<string> := [
    "en", "zh", "zh-CN", "zh-TW", "ja", "ko", "fr", "de", "es", "it",
    "pt", "ru", "ar", "hi", "th", "vi", "id", "ms", "tr", "pl",
    "nl", "sv", "da", "no", "fi", "cs", "hu", "ro", "bg", "uk",
    "el", "he", "fa", "ur", "bn", "ta", "te", "mr", "gu", "kn"
  ]

  /** isValidLanguageCode: case-sensitive membership in the fixed list. */
  predicate IsValidLanguageCode(code: string) {
    code in ValidCodes
  }

  const Aliases: map<string, string> := map[
    "zh-cn" := "zh-CN", "zh-tw" := "zh-TW", "zh-hans" := "zh-CN", "zh-hant" := "zh-TW",
    "chinese" := "zh-CN", "english" := "en", "japanese" := "ja", "korean" := "ko"
  ]

  predicate IsLower(s: string) {
    forall k :: 0 <= k < |s| ==> LowerChar(s[k]) == s[k]
  }

  /** normalizeLanguageCode: lower-case, trim, then the alias table or the value itself. */
  function NormalizeLanguageCode(code: string): string {
    var n := Trim(Lower(code));
    if n in Aliases then Aliases[n] else n
  }

  lemma LowerOfLower(s: string)
    requires IsLower(s)
    ensures Lower(s) == s
  {
  }

  lemma TrimOfLowerIsLower(s: string)
    requires IsLower(s)
    ensures IsLower(Trim(s))
  {
    var a := TrimInside(s);
    assert forall k :: 0 <= k < |Trim(s)| ==> Trim(s)[k] == s[a + k];
  }

  /** A lower-case code without surrounding whitespace that is not an alias is its own normal form. */
  lemma PlainCodeNormalized(v: string)
    requires IsLower(v) && (v == [] || (!IsSpace(v[0]) && !IsSpace(v[|v| - 1])))
    requires v !in Aliases
    ensures NormalizeLanguageCode(v) == v
  {
    LowerOfLower(v);
    TrimmedFixed(v);
  }

  lemma RegionalCnNormalized()
    ensures NormalizeLanguageCode("zh-CN") == "zh-CN"
  {
    LowerCnExample();
    TrimmedFixed("zh-cn");
    RegionalAlias();
  }

  lemma RegionalTwNormalized()
    ensures NormalizeLanguageCode("zh-TW") == "zh-TW"
  {
    LowerTwExample();
    TrimmedFixed("zh-tw");
    RegionalTwAlias();
  }

  lemma LowerCnExample()
    ensures Lower("zh-CN") == "zh-cn"
  {
  }

  lemma LowerTwExample()
    ensures Lower("zh-TW") == "zh-tw"
  {
  }

  lemma RegionalTwAlias()
    ensures "zh-tw" in Aliases && Aliases["zh-tw"] == "zh-TW"
  {
  }

  /** The codes the alias table yields are their own normal forms. */
  lemma AliasTargetsNormalized(v: string)
    requires v in Aliases.Values
    ensures NormalizeLanguageCode(v) == v
  {
    assert v in {"zh-CN", "zh-TW", "en", "ja", "ko"};
    if v == "zh-CN" {
      RegionalCnNormalized();
    } else if v == "zh-TW" {
      RegionalTwNormalized();
    } else {
      PlainCodeNormalized(v);
    }
  }

  /** Normalising a normalised code changes nothing. */
  lemma NormalizeIdempotent(code: string)
    ensures NormalizeLanguageCode(NormalizeLanguageCode(code)) == NormalizeLanguageCode(code)
  {
    var n := Trim(Lower(code));
    if n in Aliases {
      AliasTargetsNormalized(Aliases[n]);
    } else {
      PlainNormalizedAgain(code, n);
    }
  }

  lemma PlainNormalizedAgain(code: string, n: string)
    requires n == Trim(Lower(code)) && n !in Aliases
    ensures NormalizeLanguageCode(n) == n
  {
    NormalFormFixed(code);
  }

  /** A lower-cased, trimmed code is already lower-case and trimmed. */
  lemma NormalFormFixed(code: string)
    ensures var n := Trim(Lower(code)); Trim(Lower(n)) == n
  {
    var n := Trim(Lower(code));
    TrimOfLowerIsLower(Lower(code));
    LowerOfLower(n);
    TrimIdempotent(Lower(code));
  }

  /** `zh-cn`, in any case and with surrounding blanks, normalises to `zh-CN`. */
  lemma NormalizeRegionalExample()
    ensures NormalizeLanguageCode("ZH-cn ") == "zh-CN"
  {
    LowerRegionalExample();
    TrimRegionalExample();
    RegionalAlias();
  }

  lemma RegionalAlias()
    ensures "zh-cn" in Aliases && Aliases["zh-cn"] == "zh-CN"
  {
  }

  lemma LowerRegionalExample()
    ensures Lower("ZH-cn ") == "zh-cn "
  {
  }

  lemma TrimRegionalExample()
    ensures Trim("zh-cn ") == "zh-cn"
  {
    assert TrimStart("zh-cn ") == "zh-cn ";
    assert TrimEnd("zh-cn ") == "zh-cn";
  }

  /** The English names of the languages are aliases: `Chinese` normalises to `zh-CN`. */
  lemma NormalizeNameExample()
    ensures NormalizeLanguageCode("Chinese") == "zh-CN"
  {
    LowerNameExample();
    TrimmedFixed("chinese");
    NameAlias();
  }

  lemma LowerNameExample()
    ensures Lower("Chinese") == "chinese"
  {
  }

  lemma NameAlias()
    ensures "chinese" in Aliases && Aliases["chinese"] == "zh-CN"
  {
  }

  /** Membership is case-sensitive: the lower-case spelling of a regional code is not valid. */
  lemma ValidityIsCaseSensitive()
    ensures IsValidLanguageCode("zh-CN") && !IsValidLanguageCode("zh-cn")
  {
    assert ValidCodes[2] == "zh-CN";
  }

  lemma AliasValueValid(v: string)
    requires v in Aliases.Values
    ensures IsValidLanguageCode(v)
  {
    assert v in {"zh-CN", "zh-TW", "en", "ja", "ko"};
    AliasTargetsListed();
  }

  lemma AliasTargetsListed()
    ensures IsValidLanguageCode("en") && IsValidLanguageCode("zh-CN") && IsValidLanguageCode("zh-TW")
    ensures IsValidLanguageCode("ja") && IsValidLanguageCode("ko")
  {
    assert ValidCodes[0] == "en" && ValidCodes[2] == "zh-CN" && ValidCodes[3] == "zh-TW";
    assert ValidCodes[4] == "ja" && ValidCodes[5] == "ko";
  }

  /** The alias table only yields codes of the valid list. */
  lemma AliasesAreValid(code: string)
    requires Trim(Lower(code)) in Aliases
    ensures IsValidLanguageCode(NormalizeLanguageCode(code))
  {
    var n := Trim(Lower(code));
    AliasValueValid(Aliases[n]);
  }

  // ---------------------------------------------------------- cleaning text

  /** Replaces every maximal run of `\n` by one space (`/\n+/g`). */
  function CollapseNewlines(s: string): (r: string)
    ensures (forall k :: 0 <= k < |s| ==> s[k] != '\n') ==> r == s
    decreases |s|
  {
    if s == [] then []
    else if s[0] == '\n' then
      var rest := DropNewlines(s);
      [' '] + CollapseNewlines(rest)
    else [s[0]] + CollapseNewlines(s[1..])
  }

  function DropNewlines(s: string): (r: string)
    ensures |r| <= |s| && (s != [] && s[0] == '\n' ==> |r| < |s|)
  {
    if s != [] && s[0] == '\n' then DropNewlines(s[1..]) else s
  }

  predicate SingleSpaced(s: string) {
    (forall k :: 0 <= k < |s| && IsSpace(s[k]) ==> s[k] == ' ') &&
    (forall k :: 0 <= k < |s| - 1 ==> !(IsSpace(s[k]) && IsSpace(s[k + 1])))
  }

  lemma TrimKeepsSingleSpaced(s: string)
    requires SingleSpaced(s)
    ensures SingleSpaced(Trim(s))
  {
    var a := TrimInside(s);
    assert forall k :: 0 <= k < |Trim(s)| ==> Trim(s)[k] == s[a + k];
  }

  /**
   * cleanText: every non-whitespace character kept in order, no whitespace at
   * either end, only plain spaces inside, never two in a row.
   */
  function CleanText(t: string): (r: string)
    ensures NonSpace(r) == NonSpace(t)
    ensures r == [] || (!IsSpace(r[0]) && !IsSpace(r[|r| - 1]))
    ensures SingleSpaced(r)
  {
    var collapsed := CollapseSpace(t, ' ');
    var joined := CollapseNewlines(collapsed);
    TrimKeepsSingleSpaced(joined);
    CleanKeepsText(t, collapsed, joined);
    Trim(joined)
  }

  lemma {:induction false} StripSpaceIsNonSpace(s: string)
    ensures Strip(s, ' ') == NonSpace(s)
  {
    if s != [] {
      StripSpaceIsNonSpace(s[1..]);
    }
  }

  lemma CleanKeepsText(t: string, collapsed: string, joined: string)
    requires collapsed == CollapseSpace(t, ' ') && joined == CollapseNewlines(collapsed)
    ensures NonSpace(Trim(joined)) == NonSpace(t)
  {
    assert joined == collapsed by {
      assert forall k :: 0 <= k < |collapsed| ==> collapsed[k] != '\n';
    }
    TrimKeepsNonSpace(joined);
    StripSpaceIsNonSpace(collapsed);
    StripSpaceIsNonSpace(t);
  }

  /** After collapsing whitespace to spaces no newline is left for the `/\n+/g` step. */
  lemma NoNewlinesLeft(t: string)
    ensures CollapseNewlines(CollapseSpace(t, ' ')) == CollapseSpace(t, ' ')
  {
    var c := CollapseSpace(t, ' ');
    assert forall k :: 0 <= k < |c| ==> c[k] != '\n';
  }

  /** Each inner whitespace run becomes exactly one plain space in the cleaned text. */
  lemma CleanTextRun(x: string, w: string, y: string)
    requires x != [] && !IsSpace(x[|x| - 1]) && w != [] && AllSpace(w) && y != [] && !IsSpace(y[0])
    ensures CleanText(x + w + y) == CleanText(x) + " " + CleanText(y)
  {
    var cx, cy := CollapseSpace(x, ' '), CollapseSpace(y, ' ');
    CollapseRun(x, w, y, ' ');
    assert cx + [' '] + cy == cx + " " + cy;
    CollapseLast(x, ' ');
    NoNewlinesLeft(x + w + y);
    NoNewlinesLeft(x);
    NoNewlinesLeft(y);
    TrimAround(cx, cy);
  }

  /** Cleaning a cleaned text changes nothing. */
  lemma CleanTextIdempotent(t: string)
    ensures CleanText(CleanText(t)) == CleanText(t)
  {
    var c := CleanText(t);
    assert CollapseSpace(c, ' ') == c by {
      CollapseSpaceFixed(c, ' ');
    }
    assert CollapseNewlines(c) == c by {
      assert forall k :: 0 <= k < |c| ==> c[k] != '\n';
    }
    TrimmedFixed(c);
  }
}
