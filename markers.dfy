// Markers `__<WORD>_<n>__` that stand for protected pieces of text while it is
// translated, and the token view of a protected text used to prove that
// restoring the markers gives back the original text.
module Markers {
  import opened Strings
  import opened Collections

  /** The marker with index `i`: `__` + word + `_` + decimal index + `__`. */
  function Marker(w: string, i: nat): (m: string)
    ensures |m| == |w| + 5 + |NatToString(i)|
  {
    "__" + w + "_" + NatToString(i) + "__"
  }

  predicate NoUnderscore(s: string) {
    forall k :: 0 <= k < |s| ==> s[k] != '_'
  }

  /** The marker word is non-empty and has no underscore. */
  predicate WordOk(w: string) {
    w != [] && NoUnderscore(w)
  }

  /** The lower-cased characters a marker can contain. */
  function MarkerAlphabet(w: string): set<char> {
    (set k | 0 <= k < |w| :: LowerChar(w[k])) + {'_', '0', '1', '2', '3', '4', '5', '6', '7', '8', '9'}
  }

  /**
   * A text searched for in a partly protected text: non-empty, no character that
   * lower-cases to `_`, and some character outside the marker alphabet, so no
   * occurrence can overlap a marker.
   */
  predicate SafePattern(w: string, p: string) {
    p != [] &&
    (forall q :: 0 <= q < |p| ==> LowerChar(p[q]) != '_') &&
    (exists q :: 0 <= q < |p| && LowerChar(p[q]) !in MarkerAlphabet(w))
  }

  /** A pattern whose first character is neither a letter, a digit nor `_` is safe next to a letter word's markers. */
  lemma SafeFromLead(w: string, p: string)
    requires forall k :: 0 <= k < |w| ==> IsAsciiLetter(w[k])
    requires p != [] && NoUnderscore(p) && !IsAlnum(p[0])
    ensures SafePattern(w, p)
  {
    assert LowerChar(p[0]) == p[0];
    forall k | 0 <= k < |w| ensures LowerChar(w[k]) != p[0] {
    }
    assert LowerChar(p[0]) !in MarkerAlphabet(w);
  }

  lemma MarkerShape(w: string, i: nat)
    ensures var m, d, l := Marker(w, i), NatToString(i), |w|;
      m[0] == '_' && m[1] == '_' && m[2 + l] == '_' && m[|m| - 2] == '_' && m[|m| - 1] == '_' &&
      (forall k :: 0 <= k < l ==> m[2 + k] == w[k]) &&
      (forall k :: 0 <= k < |d| ==> m[3 + l + k] == d[k])
  {
  }

  lemma MarkerInAlphabet(w: string, i: nat, k: nat)
    requires k < |Marker(w, i)|
    ensures LowerChar(Marker(w, i)[k]) in MarkerAlphabet(w)
  {
    MarkerShape(w, i);
    var m, d, l := Marker(w, i), NatToString(i), |w|;
    if 2 <= k < 2 + l {
      assert m[k] == w[k - 2];
    } else if 3 + l <= k < 3 + l + |d| {
      assert m[k] == d[k - 3 - l] && IsDigit(m[k]);
    }
  }

  lemma MarkersDistinct(w: string, i: nat, j: nat)
    requires Marker(w, i) == Marker(w, j)
    ensures i == j
  {
    var di, dj := NatToString(i), NatToString(j);
    MarkerShape(w, i);
    assert |di| == |dj|;
    assert forall k :: 0 <= k < |di| ==> di[k] == Marker(w, i)[3 + |w| + k] == dj[k];
    assert di == dj;
    NatToStringInjective(i, j);
  }

  // ----------------------------------------------------------------- tokens

  /** A protected text as a sequence of plain characters and markers. */
  datatype Tok = Ch(c: char) | Mk(i: nat)

  function Chars(s: string): (t: seq<Tok>)
    ensures |t| == |s| && forall k :: 0 <= k < |s| ==> t[k] == Ch(s[k])
  {
    seq(|s|, k requires 0 <= k < |s| => Ch(s[k]))
  }

  /** The plain characters are never `_`. */
  predicate PlainChars(t: seq<Tok>) {
    forall k :: 0 <= k < |t| ==> t[k].Ch? ==> t[k].c != '_'
  }

  /** Every marker index is below `n`. */
  predicate MarkersBelow(t: seq<Tok>, n: nat) {
    forall k :: 0 <= k < |t| ==> t[k].Mk? ==> t[k].i < n
  }

  /** The originals of markers 0 .. j-1 hold no underscore. */
  predicate Restorable(ps: seq<string>, j: nat) {
    j <= |ps| && forall i :: 0 <= i < j ==> NoUnderscore(ps[i])
  }

  /** The text of one token, where markers below `j` have been put back to `ps`. */
  function TokText(w: string, x: Tok, ps: seq<string>, j: nat): string {
    match x
    case Ch(c) => [c]
    case Mk(i) => if i < j && i < |ps| then ps[i] else Marker(w, i)
  }

  /** The text of a token sequence with markers below `j` restored. */
  function RenderWith(w: string, t: seq<Tok>, ps: seq<string>, j: nat): string
    decreases |t|
  {
    if t == [] then [] else TokText(w, t[0], ps, j) + RenderWith(w, t[1..], ps, j)
  }

  /** The protected text itself: no marker restored. */
  function Render(w: string, t: seq<Tok>): string {
    RenderWith(w, t, [], 0)
  }

  lemma {:induction false} RenderChars(w: string, s: string, ps: seq<string>, j: nat)
    ensures RenderWith(w, Chars(s), ps, j) == s
    decreases |s|
  {
    if s != [] {
      assert Chars(s)[1..] == Chars(s[1..]);
      RenderChars(w, s[1..], ps, j);
    }
  }

  lemma {:induction false} RenderWithNone(w: string, t: seq<Tok>, ps: seq<string>)
    ensures RenderWith(w, t, ps, 0) == Render(w, t)
    decreases |t|
  {
    if t != [] {
      RenderWithNone(w, t[1..], ps);
    }
  }

  /** Restoring a marker index no token uses changes nothing. */
  lemma {:induction false} RenderWithUnused(w: string, t: seq<Tok>, ps: seq<string>, j: nat)
    requires MarkersBelow(t, j)
    ensures RenderWith(w, t, ps, j + 1) == RenderWith(w, t, ps, j)
    decreases |t|
  {
    if t != [] {
      RenderWithUnused(w, t[1..], ps, j);
    }
  }

  /** A token sequence that starts with the characters of `p`. */
  predicate SpellsAt(t: seq<Tok>, p: string) {
    |p| <= |t| && forall q :: 0 <= q < |p| ==> t[q] == Ch(p[q])
  }

  lemma {:induction false} SpellsRender(w: string, t: seq<Tok>, p: string, ps: seq<string>, j: nat)
    requires SpellsAt(t, p)
    ensures RenderWith(w, t, ps, j) == p + RenderWith(w, t[|p|..], ps, j)
    decreases |p|
  {
    if p != [] {
      assert SpellsAt(t[1..], p[1..]);
      SpellsRender(w, t[1..], p[1..], ps, j);
      assert t[1..][|p| - 1..] == t[|p|..];
      assert p == [p[0]] + p[1..];
    }
  }

  /** A rendered prefix without `_` consists of plain characters only. */
  lemma {:induction false} PlainPrefix(w: string, t: seq<Tok>, n: nat)
    requires n <= |Render(w, t)| && NoUnderscore(Render(w, t)[..n])
    ensures SpellsAt(t, Render(w, t)[..n])
    decreases |t|
  {
    var s := Render(w, t);
    if n > 0 {
      assert s[0] != '_';
      if t[0].Mk? {
        MarkerShape(w, t[0].i);
        assert false;
      }
      var r := Render(w, t[1..]);
      assert s == [t[0].c] + r;
      assert r[..n - 1] == s[1..n];
      PlainPrefix(w, t[1..], n - 1);
    }
  }

  /** In a rendered text the first `_` is the first character of a marker, so another `_` follows it. */
  lemma {:induction false} FirstUnderscoreDoubled(w: string, t: seq<Tok>, ps: seq<string>, j: nat, q: nat)
    requires WordOk(w) && PlainChars(t) && Restorable(ps, j)
    requires q < |RenderWith(w, t, ps, j)| && RenderWith(w, t, ps, j)[q] == '_'
    requires forall k :: 0 <= k < q ==> RenderWith(w, t, ps, j)[k] != '_'
    ensures q + 1 < |RenderWith(w, t, ps, j)| && RenderWith(w, t, ps, j)[q + 1] == '_'
    decreases |t|
  {
    var s, head, r := RenderWith(w, t, ps, j), TokText(w, t[0], ps, j), RenderWith(w, t[1..], ps, j);
    assert s == head + r;
    if t[0].Mk? && !(t[0].i < j && t[0].i < |ps|) {
      MarkerShape(w, t[0].i);
      assert s[0] == '_';
    } else {
      assert NoUnderscore(head);
      if q < |head| {
        assert false;
      }
      assert forall k :: 0 <= k < q - |head| ==> r[k] == s[|head| + k];
      FirstUnderscoreDoubled(w, t[1..], ps, j, q - |head|);
    }
  }

  // ------------------------------------------------- skipping non-matches

  lemma {:induction false} ReplaceAllSkip(s: string, p: string, rep: string, n: nat)
    requires p != [] && n <= |s|
    requires forall o :: 0 <= o < n ==> !MatchesAt(s[o..], p, false)
    ensures ReplaceAll(s, p, rep, false) == s[..n] + ReplaceAll(s[n..], p, rep, false)
    decreases n
  {
    if n > 0 {
      assert !MatchesAt(s, p, false) by {
        assert s[0..] == s;
      }
      assert ReplaceAll(s, p, rep, false) == [s[0]] + ReplaceAll(s[1..], p, rep, false);
      forall o | 0 <= o < n - 1 ensures !MatchesAt(s[1..][o..], p, false) {
        assert s[1..][o..] == s[o + 1..];
      }
      ReplaceAllSkip(s[1..], p, rep, n - 1);
      ConsSlices(s, n, ReplaceAll(s[n..], p, rep, false));
    }
  }

  /** Putting the first character back in front of a skipped stretch of the rest. */
  lemma ConsSlices(s: string, n: nat, x: string)
    requires 0 < n <= |s|
    ensures s[1..][n - 1..] == s[n..]
    ensures [s[0]] + (s[1..][..n - 1] + x) == s[..n] + x
  {
    assert s[..n] == [s[0]] + s[1..][..n - 1];
  }

  lemma {:induction false} ReplaceFirstSkip(s: string, p: string, rep: string, n: nat)
    requires n <= |s|
    requires forall o :: 0 <= o < n ==> !StartsWith(s[o..], p)
    ensures ReplaceFirst(s, p, rep) == s[..n] + ReplaceFirst(s[n..], p, rep)
    decreases n
  {
    if n > 0 {
      assert s[0..] == s;
      forall o | 0 <= o < n - 1 ensures !StartsWith(s[1..][o..], p) {
        assert s[1..][o..] == s[o + 1..];
      }
      assert ReplaceFirst(s, p, rep) == [s[0]] + ReplaceFirst(s[1..], p, rep);
      ReplaceFirstSkip(s[1..], p, rep, n - 1);
      ConsSlices(s, n, ReplaceFirst(s[n..], p, rep));
    }
  }

  // ---------------------------------------------------------- restoring

  lemma MismatchAt(s: string, b: string, k: nat)
    requires k < |b| && (k >= |s| || s[k] != b[k])
    ensures !MatchesAt(s, b, false)
  {
    if |b| <= |s| {
      assert s[..|b|][k] != b[k];
    }
  }

  /** Marker `j` does not start inside a different marker `i`, whatever rendered text follows it. */
  lemma NoMarkerMatchInside(w: string, i: nat, j: nat, t: seq<Tok>, ps: seq<string>, jj: nat, o: nat)
    requires WordOk(w) && PlainChars(t) && Restorable(ps, jj)
    requires i != j && o < |Marker(w, i)|
    ensures !MatchesAt((Marker(w, i) + RenderWith(w, t, ps, jj))[o..], Marker(w, j), false)
  {
    var a, b, r := Marker(w, i), Marker(w, j), RenderWith(w, t, ps, jj);
    var l := |w|;
    MarkerShape(w, i);
    MarkerShape(w, j);
    if o == 0 {
      MarkerStartMismatch(w, i, j, r);
    } else if o < |a| - 2 {
      MarkerMiddleMismatch(w, i, j, r, o);
    } else if o == |a| - 2 {
      assert (a + r)[o..] == "__" + r;
      MarkerAfterDoubleUnderscore(w, j, t, ps, jj);
    } else {
      assert (a + r)[o..] == "_" + r;
      MarkerAfterUnderscore(w, j, t, ps, jj);
    }
  }

  /** The closing `__` of a marker followed by the rest of a rendering never starts another marker. */
  lemma MarkerAfterDoubleUnderscore(w: string, j: nat, t: seq<Tok>, ps: seq<string>, jj: nat)
    requires WordOk(w) && PlainChars(t) && Restorable(ps, jj)
    ensures !MatchesAt("__" + RenderWith(w, t, ps, jj), Marker(w, j), false)
  {
    var b, r := Marker(w, j), RenderWith(w, t, ps, jj);
    var s := "__" + r;
    if |s| < |b| {
      MismatchAt(s, b, |s|);
    } else if k :| 0 <= k < |w| && r[k] != w[k] {
      MarkerShape(w, j);
      MismatchAt(s, b, 2 + k);
    } else {
      DoubleUnderscoreWord(w, j, t, ps, jj);
    }
  }

  /** As above, once the rendering is known to start with the word itself. */
  lemma DoubleUnderscoreWord(w: string, j: nat, t: seq<Tok>, ps: seq<string>, jj: nat)
    requires WordOk(w) && PlainChars(t) && Restorable(ps, jj)
    requires |Marker(w, j)| <= 2 + |RenderWith(w, t, ps, jj)|
    requires forall k :: 0 <= k < |w| ==> RenderWith(w, t, ps, jj)[k] == w[k]
    ensures !MatchesAt("__" + RenderWith(w, t, ps, jj), Marker(w, j), false)
  {
    var b, r := Marker(w, j), RenderWith(w, t, ps, jj);
    var s, l := "__" + r, |w|;
    MarkerShape(w, j);
    assert s[2 + l] == r[l];
    if r[l] != '_' {
      MismatchAt(s, b, 2 + l);
    } else {
      forall k | 0 <= k < l
        ensures r[k] != '_'
      {
        assert r[k] == w[k];
      }
      FirstUnderscoreDoubled(w, t, ps, jj, l);
      assert s[3 + l] == '_';
      assert IsDigit(b[3 + l]);
      MismatchAt(s, b, 3 + l);
    }
  }

  /** The last `_` of a marker followed by the rest of a rendering never starts another marker. */
  lemma MarkerAfterUnderscore(w: string, j: nat, t: seq<Tok>, ps: seq<string>, jj: nat)
    requires WordOk(w) && PlainChars(t) && Restorable(ps, jj)
    ensures !MatchesAt("_" + RenderWith(w, t, ps, jj), Marker(w, j), false)
  {
    var b, r := Marker(w, j), RenderWith(w, t, ps, jj);
    var s := "_" + r;
    MarkerShape(w, j);
    if |s| >= |b| {
      if r[0] != '_' {
        MismatchAt(s, b, 1);
      } else {
        FirstUnderscoreDoubled(w, t, ps, jj, 0);
        MismatchAt(s, b, 2);
      }
    } else {
      MismatchAt(s, b, |s|);
    }
  }

  /** Two different markers differ within the length of the shorter one. */
  lemma MarkerStartMismatch(w: string, i: nat, j: nat, r: string)
    requires i != j
    ensures !MatchesAt(Marker(w, i) + r, Marker(w, j), false)
  {
    var a, b, s := Marker(w, i), Marker(w, j), Marker(w, i) + r;
    var l, di, dj := |w|, NatToString(i), NatToString(j);
    MarkerShape(w, i);
    MarkerShape(w, j);
    if |di| == |dj| {
      if a == b {
        MarkersDistinct(w, i, j);
        assert false;
      }
      assert s[..|b|] == a;
    } else if |di| < |dj| {
      assert s[3 + l + |di|] == a[3 + l + |di|] == '_';
      assert b[3 + l + |di|] == dj[|di|];
      MismatchAt(s, b, 3 + l + |di|);
    } else {
      assert b[3 + l + |dj|] == '_';
      assert s[3 + l + |dj|] == a[3 + l + |dj|] == di[|dj|];
      MismatchAt(s, b, 3 + l + |dj|);
    }
  }

  /** A marker cannot start strictly inside another marker before its closing `__`. */
  lemma MarkerMiddleMismatch(w: string, i: nat, j: nat, r: string, o: nat)
    requires WordOk(w) && 0 < o < |Marker(w, i)| - 2
    ensures !MatchesAt((Marker(w, i) + r)[o..], Marker(w, j), false)
  {
    var a, b := Marker(w, i), Marker(w, j);
    var s := (a + r)[o..];
    var l, di := |w|, NatToString(i);
    MarkerShape(w, i);
    MarkerShape(w, j);
    if o == 1 {
      assert s[1] == a[2] == w[0];
      MismatchAt(s, b, 1);
    } else if o < 2 + l {
      assert s[0] == a[o] == w[o - 2];
      MismatchAt(s, b, 0);
    } else if o == 2 + l {
      assert s[1] == a[3 + l] == di[0];
      MismatchAt(s, b, 1);
    } else {
      assert s[0] == a[o] == di[o - 3 - l];
      MismatchAt(s, b, 0);
    }
  }

  /** No marker starts inside a restored or plain piece of text, which holds no `_`. */
  lemma PlainNoMarkerMatch(w: string, j: nat, head: string, r: string, o: nat)
    requires NoUnderscore(head) && o < |head|
    ensures !MatchesAt((head + r)[o..], Marker(w, j), false)
  {
    MarkerShape(w, j);
    assert (head + r)[o..][0] == head[o];
  }

  /**
   * Replacing every occurrence of marker `j` by its original in a text where the
   * markers below `j` are already restored restores marker `j` as well.
   */
  lemma {:induction false} RestoreStep(w: string, t: seq<Tok>, ps: seq<string>, j: nat)
    requires WordOk(w) && PlainChars(t) && j < |ps| && Restorable(ps, j + 1)
    ensures ReplaceAll(RenderWith(w, t, ps, j), Marker(w, j), ps[j], false) == RenderWith(w, t, ps, j + 1)
    decreases |t|
  {
    var m := Marker(w, j);
    if t != [] {
      var s, head, r := RenderWith(w, t, ps, j), TokText(w, t[0], ps, j), RenderWith(w, t[1..], ps, j);
      assert s == head + r;
      RestoreStep(w, t[1..], ps, j);
      if t[0] == Mk(j) {
        assert MatchesAt(s, m, false);
        assert s[|m|..] == r;
      } else {
        if t[0].Mk? && !(t[0].i < j && t[0].i < |ps|) {
          forall o | 0 <= o < |head| ensures !MatchesAt(s[o..], m, false) {
            NoMarkerMatchInside(w, t[0].i, j, t[1..], ps, j, o);
          }
        } else {
          forall o | 0 <= o < |head| ensures !MatchesAt(s[o..], m, false) {
            PlainNoMarkerMatch(w, j, head, r, o);
          }
        }
        ReplaceAllSkip(s, m, ps[j], |head|);
        assert s[..|head|] == head && s[|head|..] == r;
        assert TokText(w, t[0], ps, j + 1) == head;
      }
    }
  }

  // --------------------------------------------------------- protecting

  /** The token view of replacing the first occurrence of `p` by marker `k`. */
  function ReplaceFirstTok(t: seq<Tok>, p: string, k: nat): (r: seq<Tok>)
    decreases |t|
  {
    if SpellsAt(t, p) then [Mk(k)] + t[|p|..]
    else if t == [] then []
    else [t[0]] + ReplaceFirstTok(t[1..], p, k)
  }

  /** A safe pattern does not start inside a marker. */
  lemma SafeNotInMarker(w: string, i: nat, r: string, p: string, o: nat)
    requires SafePattern(w, p) && o < |Marker(w, i)|
    ensures !StartsWith((Marker(w, i) + r)[o..], p)
  {
    var m := Marker(w, i);
    var s := (m + r)[o..];
    if |p| <= |s| {
      if o + |p| <= |m| {
        var q :| 0 <= q < |p| && LowerChar(p[q]) !in MarkerAlphabet(w);
        MarkerInAlphabet(w, i, o + q);
        assert s[q] == m[o + q];
        assert s[..|p|][q] != p[q];
      } else {
        MarkerShape(w, i);
        var q := |m| - 1 - o;
        assert s[q] == m[|m| - 1] == '_';
        assert s[..|p|][q] != p[q];
      }
    }
  }

  /** String.replace of a safe pattern by a marker is ReplaceFirstTok on the tokens. */
  lemma {:induction false} ProtectStep(w: string, t: seq<Tok>, p: string, k: nat)
    requires PlainChars(t) && SafePattern(w, p)
    ensures ReplaceFirst(Render(w, t), p, Marker(w, k)) == Render(w, ReplaceFirstTok(t, p, k))
    ensures PlainChars(ReplaceFirstTok(t, p, k))
    decreases |t|
  {
    var s := Render(w, t);
    var r := ReplaceFirstTok(t, p, k);
    if SpellsAt(t, p) {
      SpellsRender(w, t, p, [], 0);
      assert StartsWith(s, p);
      assert s[|p|..] == Render(w, t[|p|..]);
      assert r[1..] == t[|p|..];
    } else if t == [] {
    } else {
      var head, rest := TokText(w, t[0], [], 0), Render(w, t[1..]);
      assert s == head + rest;
      ProtectStep(w, t[1..], p, k);
      assert r[1..] == ReplaceFirstTok(t[1..], p, k);
      if t[0].Ch? {
        if StartsWith(s, p) {
          assert NoUnderscore(s[..|p|]) by {
            forall q | 0 <= q < |p| ensures s[..|p|][q] != '_' {
              assert s[..|p|][q] == p[q];
            }
          }
          PlainPrefix(w, t, |p|);
          assert false;
        }
        assert s[1..] == rest;
      } else {
        forall o | 0 <= o < |head| ensures !StartsWith(s[o..], p) {
          SafeNotInMarker(w, t[0].i, rest, p, o);
        }
        ReplaceFirstSkip(s, p, Marker(w, k), |head|);
        assert s[..|head|] == head && s[|head|..] == rest;
      }
    }
  }

  /** Replacing an occurrence of `ps[k]` by marker `k` does not change the fully restored text. */
  lemma {:induction false} ProtectKeepsExpansion(w: string, t: seq<Tok>, ps: seq<string>, k: nat, j: nat)
    requires k < j <= |ps|
    ensures RenderWith(w, ReplaceFirstTok(t, ps[k], k), ps, j) == RenderWith(w, t, ps, j)
    decreases |t|
  {
    var p := ps[k];
    if SpellsAt(t, p) {
      SpellsRender(w, t, p, ps, j);
      assert ReplaceFirstTok(t, p, k)[1..] == t[|p|..];
    } else if t != [] {
      ProtectKeepsExpansion(w, t[1..], ps, k, j);
      assert ReplaceFirstTok(t, p, k)[1..] == ReplaceFirstTok(t[1..], p, k);
    }
  }

  lemma {:induction false} ReplaceFirstTokBelow(t: seq<Tok>, p: string, k: nat, n: nat)
    requires MarkersBelow(t, n) && k < n
    ensures MarkersBelow(ReplaceFirstTok(t, p, k), n)
    decreases |t|
  {
    if !SpellsAt(t, p) && t != [] {
      ReplaceFirstTokBelow(t[1..], p, k, n);
      assert ReplaceFirstTok(t, p, k)[1..] == ReplaceFirstTok(t[1..], p, k);
    }
  }

  // ------------------------------------------------------------ folds

  /** The keys `Marker(w, 0)`, ..., `Marker(w, n - 1)`. */
  function MarkerKeys(w: string, n: nat): (r: seq<string>)
    ensures |r| == n
  {
    if n == 0 then [] else MarkerKeys(w, n - 1) + [Marker(w, n - 1)]
  }

  /** Key `k` of MarkerKeys is marker `k`. */
  lemma {:induction false} MarkerKeysAt(w: string, n: nat)
    ensures forall k :: 0 <= k < n ==> MarkerKeys(w, n)[k] == Marker(w, k)
  {
    if n > 0 {
      MarkerKeysAt(w, n - 1);
    }
  }

  /** Replaces, in key order from `j` on, every occurrence of each key by its value. */
  function RestoreFrom(s: string, keys: seq<string>, originals: map<string, string>, j: nat): string
    requires forall k :: 0 <= k < |keys| ==> keys[k] in originals
    decreases |keys| - j
  {
    if j >= |keys| then s
    else RestoreFrom(ReplaceAll(s, keys[j], originals[keys[j]], false), keys, originals, j + 1)
  }

  /** Restoring the markers `j` .. `|ps| - 1` in order restores every marker. */
  lemma {:induction false} RestoreAll(w: string, t: seq<Tok>, ps: seq<string>, originals: map<string, string>, j: nat)
    requires WordOk(w) && PlainChars(t) && Restorable(ps, |ps|) && j <= |ps|
    requires forall k :: 0 <= k < |ps| ==> Marker(w, k) in originals && originals[Marker(w, k)] == ps[k]
    ensures (MarkerKeysAt(w, |ps|);
      RestoreFrom(RenderWith(w, t, ps, j), MarkerKeys(w, |ps|), originals, j) == RenderWith(w, t, ps, |ps|))
    decreases |ps| - j
  {
    MarkerKeysAt(w, |ps|);
    if j < |ps| {
      RestoreStep(w, t, ps, j);
      RestoreAll(w, t, ps, originals, j + 1);
    }
  }

  /** The text after the first occurrence of each of `ps[0]`, ..., `ps[n - 1]`, in turn, is replaced by its marker. */
  function ProtectUpTo(w: string, s: string, ps: seq<string>, n: nat): string
    requires n <= |ps|
  {
    if n == 0 then s else ReplaceFirst(ProtectUpTo(w, s, ps, n - 1), ps[n - 1], Marker(w, n - 1))
  }

  /** The token view of ProtectUpTo. */
  function ToksUpTo(t: seq<Tok>, ps: seq<string>, n: nat): seq<Tok>
    requires n <= |ps|
  {
    if n == 0 then t else ReplaceFirstTok(ToksUpTo(t, ps, n - 1), ps[n - 1], n - 1)
  }

  /** ProtectUpTo only reads the pieces it has protected. */
  lemma {:induction false} ProtectUpToPrefix(w: string, s: string, ps: seq<string>, qs: seq<string>, n: nat)
    requires n <= |ps|
    ensures ProtectUpTo(w, s, ps + qs, n) == ProtectUpTo(w, s, ps, n)
  {
    if n > 0 {
      ProtectUpToPrefix(w, s, ps, qs, n - 1);
      assert (ps + qs)[n - 1] == ps[n - 1];
    }
  }

  /** Protecting a rendered token sequence renders the protected tokens. */
  lemma {:induction false} ProtectUpToRender(w: string, t: seq<Tok>, ps: seq<string>, n: nat)
    requires PlainChars(t) && n <= |ps|
    requires forall i :: 0 <= i < n ==> SafePattern(w, ps[i])
    ensures ProtectUpTo(w, Render(w, t), ps, n) == Render(w, ToksUpTo(t, ps, n))
    ensures PlainChars(ToksUpTo(t, ps, n))
  {
    if n > 0 {
      ProtectUpToRender(w, t, ps, n - 1);
      ProtectStep(w, ToksUpTo(t, ps, n - 1), ps[n - 1], n - 1);
    }
  }

  /** Fully restored, the protected tokens read as the tokens before protection. */
  lemma {:induction false} ToksUpToExpand(w: string, t: seq<Tok>, ps: seq<string>, n: nat)
    requires n <= |ps|
    ensures RenderWith(w, ToksUpTo(t, ps, n), ps, |ps|) == RenderWith(w, t, ps, |ps|)
  {
    if n > 0 {
      ToksUpToExpand(w, t, ps, n - 1);
      ProtectKeepsExpansion(w, ToksUpTo(t, ps, n - 1), ps, n - 1, |ps|);
    }
  }

  /**
   * Protecting the pieces `ps` of a text without `_` by markers `0 .. |ps| - 1` and
   * then replacing every occurrence of each marker, in index order, by its piece
   * gives back the text, provided each piece is safe and holds no `_`.
   */
  lemma ProtectRestoreRoundTrip(w: string, text: string, ps: seq<string>, originals: map<string, string>)
    requires WordOk(w) && NoUnderscore(text)
    requires forall i :: 0 <= i < |ps| ==> SafePattern(w, ps[i]) && NoUnderscore(ps[i])
    requires forall k :: 0 <= k < |ps| ==> Marker(w, k) in originals && originals[Marker(w, k)] == ps[k]
    ensures (MarkerKeysAt(w, |ps|); RestoreFrom(ProtectUpTo(w, text, ps, |ps|), MarkerKeys(w, |ps|), originals, 0) == text)
  {
    var t := Chars(text);
    assert PlainChars(t);
    RenderChars(w, text, [], 0);
    RenderChars(w, text, ps, |ps|);
    ProtectUpToRender(w, t, ps, |ps|);
    var pt := ToksUpTo(t, ps, |ps|);
    RenderWithNone(w, pt, ps);
    RestoreAll(w, pt, ps, originals, 0);
    ToksUpToExpand(w, t, ps, |ps|);
  }

  /** The insertion-ordered map from marker `k` to `ps[k]`, for k below `n`. */
  function MarkerMap(w: string, ps: seq<string>, n: nat): (m: OMap<string, string>)
    requires n <= |ps|
    ensures ValidMap(m) && m.keys == MarkerKeys(w, n)
  {
    if n == 0 then EmptyMap()
    else
      var m := MarkerMap(w, ps, n - 1);
      assert Marker(w, n - 1) !in m.entries by {
        MarkerKeysAt(w, n - 1);
        forall k | 0 <= k < n - 1 ensures m.keys[k] != Marker(w, n - 1) {
          if m.keys[k] == Marker(w, n - 1) {
            MarkersDistinct(w, k, n - 1);
          }
        }
      }
      Put(m, Marker(w, n - 1), ps[n - 1])
  }

  /** One more original protected: its first occurrence becomes the next marker, recorded with it. */
  lemma ProtectOneMore(w: string, text: string, ps: seq<string>, n: nat, t: string, m: OMap<string, string>)
    requires n < |ps| && t == ProtectUpTo(w, text, ps, n) && m == MarkerMap(w, ps, n)
    ensures ProtectUpTo(w, text, ps, n + 1) == ReplaceFirst(t, ps[n], Marker(w, n))
    ensures MarkerMap(w, ps, n + 1) == Put(m, Marker(w, n), ps[n])
  {
  }

  /** Marker `k` of a MarkerMap holds `ps[k]`. */
  lemma MarkerMapEntries(w: string, ps: seq<string>, n: nat)
    requires n <= |ps|
    ensures var m := MarkerMap(w, ps, n);
      forall k :: 0 <= k < n ==> Marker(w, k) in m.entries && m.entries[Marker(w, k)] == ps[k]
  {
    forall k | 0 <= k < n
      ensures Marker(w, k) in MarkerMap(w, ps, n).entries && MarkerMap(w, ps, n).entries[Marker(w, k)] == ps[k]
    {
      MarkerMapEntry(w, ps, n, k);
    }
  }

  /** The same for one marker, by induction on the number recorded. */
  lemma {:induction false} MarkerMapEntry(w: string, ps: seq<string>, n: nat, k: nat)
    requires k < n <= |ps|
    ensures Marker(w, k) in MarkerMap(w, ps, n).entries && MarkerMap(w, ps, n).entries[Marker(w, k)] == ps[k]
  {
    var prev, m := MarkerMap(w, ps, n - 1), MarkerMap(w, ps, n);
    assert m.entries == prev.entries[Marker(w, n - 1) := ps[n - 1]];
    if k < n - 1 {
      MarkerMapEntry(w, ps, n - 1, k);
      if Marker(w, k) == Marker(w, n - 1) {
        MarkersDistinct(w, k, n - 1);
      }
      assert m.entries[Marker(w, k)] == prev.entries[Marker(w, k)];
    }
  }

  /** The round trip with the markers recorded in a MarkerMap and restored in its key order. */
  lemma MarkerMapRoundTrip(w: string, text: string, ps: seq<string>)
    requires WordOk(w) && NoUnderscore(text)
    requires forall i :: 0 <= i < |ps| ==> SafePattern(w, ps[i]) && NoUnderscore(ps[i])
    ensures var m := MarkerMap(w, ps, |ps|);
      RestoreFrom(ProtectUpTo(w, text, ps, |ps|), m.keys, m.entries, 0) == text
  {
    var m := MarkerMap(w, ps, |ps|);
    MarkerMapEntries(w, ps, |ps|);
    ProtectRestoreRoundTrip(w, text, ps, m.entries);
  }

  /**
   * Replaces every occurrence of each marker, in the map's insertion order, by
   * the text recorded for it (restorePlaceholders and restoreTerms).
   */
  method RestoreMarkers(text: string, markers: OMap<string, string>) returns (restored: string)
    requires ValidMap(markers)
    ensures restored == RestoreFrom(text, markers.keys, markers.entries, 0)
  {
    restored := text;
    var n := 0;
    while n < |markers.keys|
      invariant n <= |markers.keys|
      invariant RestoreFrom(restored, markers.keys, markers.entries, n) == RestoreFrom(text, markers.keys, markers.entries, 0)
    {
      var marker := markers.keys[n];
      restored := ReplaceAll(restored, marker, markers.entries[marker], false);
      n := n + 1;
    }
  }
}
