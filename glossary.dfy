// The glossary of src/core/glossary.ts: entries keyed by their lower-cased term,
// longest-first substitution of translations, protection of do-not-translate
// terms behind `__TERM_<n>__` markers, the term-usage check, the spreadsheet
// rows and the statistics.  Terms are matched literally (see escapeRegExp).
module Glossary {
  import opened Strings
  import opened Collections
  import opened Markers

  /** A glossary entry; `translations` is the per-language record, in key order. */
  datatype GlossaryEntry = GlossaryEntry(
    term: string,
    translations: OMap<string, string>,
    doNotTranslate: bool,
    description: Option<string>,
    caseSensitive: bool)

  /** A record's keys and values agree, as for any JavaScript object. */
  ghost predicate WellFormed(e: GlossaryEntry) {
    ValidMap(e.translations)
  }

  /** `entry.translations[lang]` when it is truthy, that is, present and non-empty. */
  function TranslationFor(e: GlossaryEntry, lang: string): (r: Option<string>)
    ensures r.Some? <==> lang in e.translations.entries && e.translations.entries[lang] != ""
    ensures r.Some? ==> r.value == e.translations.entries[lang]
  {
    if lang in e.translations.entries && e.translations.entries[lang] != "" then Some(e.translations.entries[lang]) else None
  }

  // ------------------------------------------------------------- ordering

  /** The comparator `b.term.length - a.term.length`: `a` may come first when its term is no shorter. */
  predicate LongerFirst(a: GlossaryEntry, b: GlossaryEntry) {
    |a.term| >= |b.term|
  }

  lemma LongerFirstIsPreorder()
    ensures TotalPreorder(LongerFirst)
  {
  }

  /** The entries sorted longest term first; entries of equal length keep their order. */
  function ByLength(es: seq<GlossaryEntry>): (r: seq<GlossaryEntry>)
    ensures multiset(r) == multiset(es)
    ensures forall i, j :: 0 <= i < j < |r| ==> |r[i].term| >= |r[j].term|
  {
    LongerFirstIsPreorder();
    var r := StableSort(es, LongerFirst);
    assert SortedBy(r, LongerFirst);
    r
  }

  function DoNotTranslateOnly(es: seq<GlossaryEntry>): (r: seq<GlossaryEntry>)
    ensures forall k :: 0 <= k < |r| ==> r[k].doNotTranslate && r[k] in es
    ensures forall k :: 0 <= k < |es| ==> es[k].doNotTranslate ==> es[k] in r
  {
    if es == [] then []
    else if es[0].doNotTranslate then [es[0]] + DoNotTranslateOnly(es[1..])
    else DoNotTranslateOnly(es[1..])
  }

  // --------------------------------------------------------------- applyTerms

  /** One entry's step of applyTerms. */
  function ApplyEntry(text: string, e: GlossaryEntry, lang: string): string {
    if e.doNotTranslate then text
    else
      match TranslationFor(e, lang)
      case None => text
      case Some(t) => ReplaceAll(text, e.term, t, !e.caseSensitive)
  }

  /** The entries' steps in order, the first entry first. */
  function ApplyEach(text: string, es: seq<GlossaryEntry>, lang: string): string
    decreases |es|
  {
    if es == [] then text else ApplyEach(ApplyEntry(text, es[0], lang), es[1..], lang)
  }

  /** An entry applies when it may be translated and has a translation for `lang`. */
  predicate Applies(e: GlossaryEntry, lang: string) {
    !e.doNotTranslate && TranslationFor(e, lang).Some?
  }

  /** When no entry applies, applyTerms returns the text unchanged. */
  lemma {:induction false} NothingApplies(text: string, es: seq<GlossaryEntry>, lang: string)
    requires forall k :: 0 <= k < |es| ==> !Applies(es[k], lang)
    ensures ApplyEach(text, es, lang) == text
    decreases |es|
  {
    if es != [] {
      assert ApplyEntry(text, es[0], lang) == text;
      NothingApplies(text, es[1..], lang);
    }
  }

  /** A case-sensitive term that does not occur in the text leaves it unchanged. */
  lemma AbsentTermUnchanged(text: string, e: GlossaryEntry, lang: string)
    requires e.caseSensitive && e.term != [] && !Contains(text, e.term)
    ensures ApplyEntry(text, e, lang) == text
  {
    if Applies(e, lang) {
      ReplaceAllAbsent(text, e.term, TranslationFor(e, lang).value);
    }
  }

  // ------------------------------------------------------------ findTermsInText

  datatype Found = Found(term: string, entry: GlossaryEntry, positions: seq<nat>)

  /** The text findTermsInText searches: lower-cased for a case-insensitive entry. */
  function SearchText(text: string, e: GlossaryEntry): string {
    if e.caseSensitive then text else Lower(text)
  }

  /**
   * The match indices of the entry's term, which is searched for as written
   * (not lower-cased) with flag `g`; an empty term matches at every index.
   */
  function TermPositions(text: string, e: GlossaryEntry): (r: seq<nat>)
    ensures e.term != [] ==> forall k :: 0 <= k < |r| ==>
      r[k] + |e.term| <= |SearchText(text, e)| && MatchesAt(SearchText(text, e)[r[k]..], e.term, false)
    ensures e.term != [] ==> forall k, l :: 0 <= k < l < |r| ==> r[k] + |e.term| <= r[l]
  {
    var s := SearchText(text, e);
    if e.term == [] then seq(|s| + 1, k => k) else MatchPositions(s, e.term, false, 0)
  }

  function FoundIn(es: seq<GlossaryEntry>, text: string): (r: seq<Found>)
    decreases |es|
  {
    if es == [] then [] else FoundIn(es[..|es| - 1], text) + Report(text, es[|es| - 1])
  }

  /** What findTermsInText reports for one entry: its match indices, when there are any. */
  function Report(text: string, e: GlossaryEntry): seq<Found> {
    var ps := TermPositions(text, e);
    if ps != [] then [Found(e.term, e, ps)] else []
  }

  /** Each report names one of the entries, its term, and the term's (non-empty) positions. */
  lemma {:induction false} FoundInSound(es: seq<GlossaryEntry>, text: string, k: nat)
    requires k < |FoundIn(es, text)|
    ensures var f := FoundIn(es, text)[k];
      f.entry in es && f.term == f.entry.term && f.positions == TermPositions(text, f.entry) != []
    decreases |es|
  {
    var init, last := es[..|es| - 1], es[|es| - 1];
    var front := FoundIn(init, text);
    if k < |front| {
      FoundInSound(init, text, k);
      var j :| 0 <= j < |init| && init[j] == front[k].entry;
      assert es[j] == init[j];
    }
  }

  /** An entry is reported exactly when its term matches somewhere in its search text. */
  lemma {:induction false} FoundInComplete(es: seq<GlossaryEntry>, text: string, e: GlossaryEntry)
    requires e in es && e.term != []
    ensures (exists k :: 0 <= k < |FoundIn(es, text)| && FoundIn(es, text)[k].entry == e) <==>
      (exists j :: 0 <= j && j + |e.term| <= |SearchText(text, e)| && MatchesAt(SearchText(text, e)[j..], e.term, false))
    decreases |es|
  {
    var s := SearchText(text, e);
    var r := FoundIn(es, text);
    if exists j :: 0 <= j && j + |e.term| <= |s| && MatchesAt(s[j..], e.term, false) {
      var j :| 0 <= j && j + |e.term| <= |s| && MatchesAt(s[j..], e.term, false);
      MatchPositionsLeftmost(s, e.term, false, 0, j);
      var i :| 0 <= i < |es| && es[i] == e;
      var k := FoundInHas(es, text, i);
    }
    if exists k :: 0 <= k < |r| && r[k].entry == e {
      var k :| 0 <= k < |r| && r[k].entry == e;
      FoundInSound(es, text, k);
      var p := r[k].positions[0];
      assert p + |e.term| <= |s| && MatchesAt(s[p..], e.term, false);
    }
  }

  lemma {:induction false} FoundInHas(es: seq<GlossaryEntry>, text: string, i: nat) returns (k: nat)
    requires i < |es| && TermPositions(text, es[i]) != []
    ensures k < |FoundIn(es, text)| && FoundIn(es, text)[k].entry == es[i]
    decreases |es|
  {
    var init := es[..|es| - 1];
    if i == |es| - 1 {
      k := FoundInLast(es, text);
    } else {
      assert init[i] == es[i];
      k := FoundInHas(init, text, i);
      FoundInFront(es, text, k);
    }
  }

  /** The reports for all but the last entry come first. */
  lemma FoundInFront(es: seq<GlossaryEntry>, text: string, k: nat)
    requires es != [] && k < |FoundIn(es[..|es| - 1], text)|
    ensures k < |FoundIn(es, text)| && FoundIn(es, text)[k] == FoundIn(es[..|es| - 1], text)[k]
  {
  }

  /** The last entry, when it matches, is reported last. */
  lemma FoundInLast(es: seq<GlossaryEntry>, text: string) returns (k: nat)
    requires es != [] && TermPositions(text, es[|es| - 1]) != []
    ensures k < |FoundIn(es, text)| && FoundIn(es, text)[k].entry == es[|es| - 1]
  {
    k := |FoundIn(es[..|es| - 1], text)|;
  }

  /**
   * A case-insensitive entry whose term holds an upper-case letter is never found:
   * the text is lower-cased but the term is not.
   */
  lemma UpperCaseTermNeverFound(text: string, e: GlossaryEntry, q: nat)
    requires !e.caseSensitive && q < |e.term| && 'A' <= e.term[q] <= 'Z'
    ensures TermPositions(text, e) == []
  {
    var s := Lower(text);
    assert SearchText(text, e) == s;
    forall j | 0 <= j && j + |e.term| <= |s| ensures !MatchesAt(s[j..], e.term, false) {
      assert s[j..][..|e.term|][q] == LowerChar(text[j + q]) != e.term[q];
    }
    MatchPositionsNone(s, e.term, false, 0);
  }

  // ------------------------------------------------------- protect and restore

  /** The word of the markers protectTerms writes: `__TERM_<n>__`. */
  const TermWord: string := "TERM"

  /** The matched texts, `match[0]` in the text's own case, of an entry's term; none for an empty term. */
  function MatchedTexts(s: string, e: GlossaryEntry): seq<string> {
    if e.term == [] then [] else MatchedFrom(s, e.term, !e.caseSensitive, 0)
  }

  /** The texts of the leftmost non-overlapping matches of `p` in `s` at or after `i`. */
  function MatchedFrom(s: string, p: string, fold: bool, i: nat): seq<string>
    requires p != []
    decreases |s| - i, 1
  {
    if i + |p| > |s| then [] else MatchedAt(s, p, fold, i)
  }

  /** MatchedFrom where the pattern fits at `i`: the match there, if any, then the rest. */
  function MatchedAt(s: string, p: string, fold: bool, i: nat): seq<string>
    requires p != [] && i + |p| <= |s|
    decreases |s| - i, 0
  {
    if MatchesAt(s[i..], p, fold) then [s[i..i + |p|]] + MatchedFrom(s, p, fold, i + |p|)
    else MatchedFrom(s, p, fold, i + 1)
  }

  /** Every text MatchedFrom returns has the pattern's length and matches it. */
  lemma {:induction false} MatchedFromMatch(s: string, p: string, fold: bool, i: nat)
    requires p != []
    ensures forall k :: 0 <= k < |MatchedFrom(s, p, fold, i)| ==>
      |MatchedFrom(s, p, fold, i)[k]| == |p| && MatchesAt(MatchedFrom(s, p, fold, i)[k], p, fold)
    decreases |s| - i
  {
    if i + |p| <= |s| {
      var r := MatchedFrom(s, p, fold, i);
      if MatchesAt(s[i..], p, fold) {
        MatchedFromMatch(s, p, fold, i + |p|);
        var m := s[i..i + |p|];
        assert m[..|p|] == s[i..][..|p|];
        assert r == MatchedAt(s, p, fold, i) == [m] + MatchedFrom(s, p, fold, i + |p|);
      } else {
        MatchedFromMatch(s, p, fold, i + 1);
        assert r == MatchedAt(s, p, fold, i) == MatchedFrom(s, p, fold, i + 1);
      }
    }
  }

  /** Every matched text has the term's length and matches the term (ignoring case unless case-sensitive). */
  lemma MatchedTextsMatch(s: string, e: GlossaryEntry)
    ensures forall k :: 0 <= k < |MatchedTexts(s, e)| ==>
      |MatchedTexts(s, e)[k]| == |e.term| && MatchesAt(MatchedTexts(s, e)[k], e.term, !e.caseSensitive)
  {
    if e.term != [] {
      MatchedFromMatch(s, e.term, !e.caseSensitive, 0);
    }
  }

  /**
   * The texts protectTerms records, in marker order: for each entry in turn, every
   * match of its term in the text as protected so far.
   */
  function TermOriginals(text: string, es: seq<GlossaryEntry>): seq<string>
    decreases |es|
  {
    if es == [] then []
    else
      var ps := TermOriginals(text, es[..|es| - 1]);
      ps + MatchedTexts(ProtectUpTo(TermWord, text, ps, |ps|), es[|es| - 1])
  }

  /** The entries protectTerms processes: the do-not-translate ones, longest term first. */
  function ProtectOrder(es: seq<GlossaryEntry>): seq<GlossaryEntry> {
    ByLength(DoNotTranslateOnly(es))
  }

  /** A term that is empty or safe next to term markers. */
  predicate ProtectableTerm(e: GlossaryEntry) {
    e.term == [] || SafePattern(TermWord, e.term)
  }

  lemma MatchedTextSafe(m: string, e: GlossaryEntry)
    requires ProtectableTerm(e) && |m| == |e.term| && MatchesAt(m, e.term, !e.caseSensitive) && m != []
    ensures SafePattern(TermWord, m) && NoUnderscore(m)
  {
    assert m[..|e.term|] == m;
    assert forall q :: 0 <= q < |m| ==> LowerChar(m[q]) == LowerChar(e.term[q]) by {
      if !e.caseSensitive {
        assert Lower(m) == Lower(e.term);
        forall q | 0 <= q < |m| ensures LowerChar(m[q]) == LowerChar(e.term[q]) {
          assert Lower(m)[q] == Lower(e.term)[q];
        }
      }
    }
    var q :| 0 <= q < |e.term| && LowerChar(e.term[q]) !in MarkerAlphabet(TermWord);
    assert LowerChar(m[q]) !in MarkerAlphabet(TermWord);
  }

  lemma {:induction false} TermOriginalsSafe(text: string, es: seq<GlossaryEntry>)
    requires forall k :: 0 <= k < |es| ==> ProtectableTerm(es[k])
    ensures forall i :: 0 <= i < |TermOriginals(text, es)| ==>
      SafePattern(TermWord, TermOriginals(text, es)[i]) && NoUnderscore(TermOriginals(text, es)[i])
    decreases |es|
  {
    if es != [] {
      var init := es[..|es| - 1];
      TermOriginalsSafe(text, init);
      var ps := TermOriginals(text, init);
      var e := es[|es| - 1];
      var ms := MatchedTexts(ProtectUpTo(TermWord, text, ps, |ps|), e);
      MatchedTextsMatch(ProtectUpTo(TermWord, text, ps, |ps|), e);
      forall i | 0 <= i < |ms| ensures SafePattern(TermWord, ms[i]) && NoUnderscore(ms[i]) {
        MatchedTextSafe(ms[i], e);
      }
    }
  }

  /**
   * Restoring the markers protectTerms recorded, in their order, gives back the
   * text, when the text has no `_` and every protected term is empty or safe.
   */
  lemma TermRoundTrip(text: string, es: seq<GlossaryEntry>)
    requires NoUnderscore(text)
    requires forall k :: 0 <= k < |es| ==> ProtectableTerm(es[k])
    ensures var ps := TermOriginals(text, es);
      var m := MarkerMap(TermWord, ps, |ps|);
      RestoreFrom(ProtectUpTo(TermWord, text, ps, |ps|), m.keys, m.entries, 0) == text
  {
    TermOriginalsSafe(text, es);
    assert WordOk(TermWord);
    MarkerMapRoundTrip(TermWord, text, TermOriginals(text, es));
  }

  lemma {:induction false} TermOriginalsPrefix(text: string, es: seq<GlossaryEntry>, n: nat)
    requires n <= |es|
    ensures var a, b := TermOriginals(text, es[..n]), TermOriginals(text, es);
      |a| <= |b| && b[..|a|] == a
    decreases |es|
  {
    if n < |es| {
      var init := es[..|es| - 1];
      assert init[..n] == es[..n];
      TermOriginalsPrefix(text, init, n);
    } else {
      assert es[..n] == es;
    }
  }

  // ------------------------------------------------------- validateTermUsage

  datatype IssueKind = Missing | Incorrect | Untranslated

  datatype TermIssue = TermIssue(term: string, issue: IssueKind, expected: Option<string>, found: Option<string>)

  /** The issue validateTermUsage raises for one term found in the source, if any. */
  function UsageIssue(f: Found, translation: string, lang: string): (r: Option<TermIssue>)
    ensures r.Some? ==> r.value.term == f.term && r.value.issue != Incorrect
    ensures f.entry.doNotTranslate ==> (r.Some? <==> !Contains(translation, f.term))
    ensures !f.entry.doNotTranslate ==> (r.Some? <==>
      TranslationFor(f.entry, lang).Some? && !Contains(translation, TranslationFor(f.entry, lang).value))
    ensures r.Some? && !f.entry.doNotTranslate ==>
      r.value.expected == TranslationFor(f.entry, lang) &&
      (r.value.issue == Untranslated <==> Contains(translation, f.term))
  {
    if f.entry.doNotTranslate then
      if !Contains(translation, f.term) then Some(TermIssue(f.term, Untranslated, Some(f.term), None)) else None
    else
      match TranslationFor(f.entry, lang)
      case None => None
      case Some(expected) =>
        var hasCorrect := Contains(translation, expected);
        var hasSource := Contains(translation, f.term);
        if !hasCorrect && hasSource then Some(TermIssue(f.term, Untranslated, Some(expected), Some(f.term)))
        else if !hasCorrect then Some(TermIssue(f.term, Missing, Some(expected), None))
        else None
  }

  function UsageIssues(found: seq<Found>, translation: string, lang: string): (r: seq<TermIssue>)
    ensures |r| <= |found|
    ensures forall k :: 0 <= k < |r| ==> r[k].issue != Incorrect
  {
    if found == [] then []
    else
      var front := UsageIssues(found[..|found| - 1], translation, lang);
      match UsageIssue(found[|found| - 1], translation, lang)
      case None => front
      case Some(i) => front + [i]
  }

  /** A translation that keeps every found term and contains every expected translation raises no issue. */
  lemma {:induction false} NoIssuesWhenComplete(found: seq<Found>, translation: string, lang: string)
    requires forall k :: 0 <= k < |found| ==> Contains(translation, found[k].term)
    requires forall k :: 0 <= k < |found| ==> TranslationFor(found[k].entry, lang).Some? ==>
      Contains(translation, TranslationFor(found[k].entry, lang).value)
    ensures UsageIssues(found, translation, lang) == []
    decreases |found|
  {
    if found != [] {
      assert UsageIssue(found[|found| - 1], translation, lang) == None;
      NoIssuesWhenComplete(found[..|found| - 1], translation, lang);
    }
  }

  // ------------------------------------------------------------- statistics

  datatype GlossaryStats = GlossaryStats(total: nat, protected: nat, byLanguage: OMap<string, nat>)

  function ProtectedCount(es: seq<GlossaryEntry>): nat {
    if es == [] then 0
    else ProtectedCount(es[..|es| - 1]) + (if es[|es| - 1].doNotTranslate then 1 else 0)
  }

  /** The number of entries with a translation (possibly empty) under `lang`. */
  function WithLanguage(es: seq<GlossaryEntry>, lang: string): nat {
    if es == [] then 0
    else WithLanguage(es[..|es| - 1], lang) + (if lang in es[|es| - 1].translations.entries then 1 else 0)
  }

  /** Adds one to the count of each key in turn. */
  function Tally(m: OMap<string, nat>, keys: seq<string>): (r: OMap<string, nat>)
    ensures ValidMap(m) ==> ValidMap(r)
    decreases |keys|
  {
    if keys == [] then m
    else
      var m2 := Tally(m, keys[..|keys| - 1]);
      var k := keys[|keys| - 1];
      Put(m2, k, (if k in m2.entries then m2.entries[k] else 0) + 1)
  }

  lemma TallyStep(m: OMap<string, nat>, keys: seq<string>, j: nat)
    requires j < |keys|
    ensures var t := Tally(m, keys[..j]);
      Tally(m, keys[..j + 1]) == Put(t, keys[j], (if keys[j] in t.entries then t.entries[keys[j]] else 0) + 1)
  {
    var s := keys[..j + 1];
    assert s[..|s| - 1] == keys[..j] && s[|s| - 1] == keys[j];
  }

  function LanguageCounts(es: seq<GlossaryEntry>): (r: OMap<string, nat>)
    ensures ValidMap(r)
  {
    if es == [] then EmptyMap()
    else Tally(LanguageCounts(es[..|es| - 1]), es[|es| - 1].translations.keys)
  }

  function CountOf(m: OMap<string, nat>, k: string): nat {
    if k in m.entries then m.entries[k] else 0
  }

  lemma {:induction false} TallyCounts(m: OMap<string, nat>, keys: seq<string>, k: string)
    requires Distinct(keys)
    ensures CountOf(Tally(m, keys), k) == CountOf(m, k) + (if k in keys then 1 else 0)
    ensures k in Tally(m, keys).entries <==> k in m.entries || k in keys
  {
    if keys != [] {
      var init := keys[..|keys| - 1];
      TallyCounts(m, init, k);
      assert keys == init + [keys[|keys| - 1]];
    }
  }

  /** byLanguage counts, for each language, the entries that have a translation under it. */
  lemma {:induction false} LanguageCountsCorrect(es: seq<GlossaryEntry>, lang: string)
    requires forall k :: 0 <= k < |es| ==> WellFormed(es[k])
    ensures CountOf(LanguageCounts(es), lang) == WithLanguage(es, lang)
    ensures lang in LanguageCounts(es).entries <==> WithLanguage(es, lang) > 0
  {
    if es != [] {
      var init, e := es[..|es| - 1], es[|es| - 1];
      LanguageCountsCorrect(init, lang);
      TallyCounts(LanguageCounts(init), e.translations.keys, lang);
      assert lang in e.translations.keys <==> lang in e.translations.entries;
    }
  }

  // -------------------------------------------------------- spreadsheet rows

  /** The columns of a glossary row that are not languages. */
  const Reserved: seq<string> := ["term", "description", "doNotTranslate", "caseSensitive"]

  function BoolText(b: bool): string {
    if b then "true" else "false"
  }

  /** exportToExcelData, one entry: the reserved columns, then one column per language. */
  function ExportRow(e: GlossaryEntry): (r: OMap<string, string>)
    requires WellFormed(e)
    ensures ValidMap(r)
  {
    PutAll(ExportBase(e), e.translations.keys, e.translations.entries)
  }

  /** exportToExcelData: the rows of the entries, in order. */
  function ExportAll(es: seq<GlossaryEntry>): (r: seq<OMap<string, string>>)
    requires forall i :: 0 <= i < |es| ==> WellFormed(es[i])
  {
    if es == [] then [] else ExportAll(es[..|es| - 1]) + [ExportRow(es[|es| - 1])]
  }

  /** One row per entry, each the entry's own row. */
  lemma {:induction false} ExportAllRow(es: seq<GlossaryEntry>, i: nat)
    requires forall j :: 0 <= j < |es| ==> WellFormed(es[j])
    requires i < |es|
    ensures |ExportAll(es)| == |es| && ExportAll(es)[i] == ExportRow(es[i])
  {
    var init := es[..|es| - 1];
    if i < |es| - 1 {
      ExportAllRow(init, i);
    } else if init != [] {
      ExportAllRow(init, 0);
    }
  }

  /** The language columns of a row: the non-reserved keys with a non-empty value, in row order. */
  function LanguageColumns(keys: seq<string>, vals: map<string, string>): (r: OMap<string, string>)
    requires forall k :: k in keys ==> k in vals
    ensures ValidMap(r)
    decreases |keys|
  {
    if keys == [] then EmptyMap()
    else
      var m := LanguageColumns(keys[..|keys| - 1], vals);
      var k := keys[|keys| - 1];
      if k !in Reserved && vals[k] != "" then Put(m, k, vals[k]) else m
  }

  /** A column is kept exactly when it is a non-reserved key with a non-empty value, and keeps that value. */
  lemma {:induction false} LanguageColumnsCell(keys: seq<string>, vals: map<string, string>, k: string)
    requires forall j :: j in keys ==> j in vals
    ensures k in LanguageColumns(keys, vals).entries <==> k in keys && k !in Reserved && vals[k] != ""
    ensures k in LanguageColumns(keys, vals).entries ==> LanguageColumns(keys, vals).entries[k] == vals[k]
    decreases |keys|
  {
    if keys != [] {
      var init := keys[..|keys| - 1];
      assert keys == init + [keys[|keys| - 1]];
      LanguageColumnsCell(init, vals, k);
    }
  }

  /** importFromExcelData, one row: skipped without a term; the flags hold when the cell reads `true`. */
  function ImportRow(row: OMap<string, string>): (r: Option<GlossaryEntry>)
    requires ValidMap(row)
    ensures r.Some? <==> "term" in row.entries && row.entries["term"] != ""
  {
    if "term" !in row.entries || row.entries["term"] == "" then None
    else
      Some(GlossaryEntry(
        row.entries["term"],
        LanguageColumns(row.keys, row.entries),
        "doNotTranslate" in row.entries && row.entries["doNotTranslate"] == "true",
        if "description" in row.entries then Some(row.entries["description"]) else None,
        "caseSensitive" in row.entries && row.entries["caseSensitive"] == "true"))
  }

  function ImportRows(rows: seq<OMap<string, string>>): (r: seq<GlossaryEntry>)
    requires forall k :: 0 <= k < |rows| ==> ValidMap(rows[k])
    ensures |r| <= |rows|
  {
    if rows == [] then []
    else
      var front := ImportRows(rows[..|rows| - 1]);
      match ImportRow(rows[|rows| - 1])
      case None => front
      case Some(e) => front + [e]
  }

  /** Reserved columns in front of the language columns do not change them. */
  lemma {:induction false} LanguageColumnsSkipReserved(keys: seq<string>, vals: map<string, string>, vals2: map<string, string>)
    requires forall k :: k in Reserved ==> k in vals
    requires forall k :: k in keys ==> k !in Reserved && k in vals && k in vals2 && vals2[k] == vals[k]
    ensures LanguageColumns(Reserved + keys, vals) == LanguageColumns(keys, vals2)
    decreases |keys|
  {
    if keys == [] {
      assert Reserved + keys == Reserved;
      ReservedColumnsSkipped(vals);
    } else {
      var init := keys[..|keys| - 1];
      assert (Reserved + keys)[..|Reserved + keys| - 1] == Reserved + init;
      assert keys == init + [keys[|keys| - 1]];
      LanguageColumnsSkipReserved(init, vals, vals2);
    }
  }

  lemma ReservedColumnsSkipped(vals: map<string, string>)
    requires forall k :: k in Reserved ==> k in vals
    ensures LanguageColumns(Reserved, vals) == EmptyMap()
  {
    var r0, r1, r2, r3 := [], ["term"], ["term", "description"], ["term", "description", "doNotTranslate"];
    assert r1[..0] == r0 && r2[..1] == r1 && r3[..2] == r2 && Reserved[..3] == r3;
    assert LanguageColumns(r0, vals) == EmptyMap();
    assert LanguageColumns(r1, vals) == EmptyMap();
    assert LanguageColumns(r2, vals) == EmptyMap();
    assert LanguageColumns(r3, vals) == EmptyMap();
  }

  /** The reserved columns of an exported row, in the object literal's order. */
  function ExportBase(e: GlossaryEntry): (r: OMap<string, string>)
    ensures ValidMap(r) && r.keys == Reserved
  {
    var r := OMap(Reserved, map["term" := e.term,
      "description" := (if e.description.Some? then e.description.value else ""),
      "doNotTranslate" := BoolText(e.doNotTranslate), "caseSensitive" := BoolText(e.caseSensitive)]);
    assert Distinct(r.keys) by {
      assert r.keys == ["term", "description", "doNotTranslate", "caseSensitive"];
    }
    r
  }

  /** An exported row: the reserved columns first, then the languages, each cell holding the entry's value. */
  lemma ExportRowCells(e: GlossaryEntry)
    requires WellFormed(e)
    requires forall k :: k in e.translations.keys ==> k !in Reserved
    ensures ExportRow(e).keys == Reserved + e.translations.keys
    ensures forall k :: k in Reserved ==> k in ExportRow(e).entries && ExportRow(e).entries[k] == ExportBase(e).entries[k]
    ensures forall k :: k in e.translations.keys ==> k in ExportRow(e).entries && ExportRow(e).entries[k] == e.translations.entries[k]
  {
    var base, t := ExportBase(e), e.translations;
    PutAllFreshKeys(base, t.keys, t.entries);
    forall k | k in Reserved || k in t.keys
      ensures k in ExportRow(e).entries
      ensures k in Reserved ==> ExportRow(e).entries[k] == base.entries[k]
      ensures k in t.keys ==> ExportRow(e).entries[k] == t.entries[k]
    {
      PutAllCell(base, t.keys, t.entries, k);
    }
  }

  /**
   * Export then import keeps an entry's term, flags and non-empty translations
   * (and turns a missing description into an empty one), provided its term is
   * non-empty and no language is named like a reserved column.
   */
  lemma ExportImportRoundTrip(e: GlossaryEntry)
    requires WellFormed(e) && e.term != []
    requires forall k :: k in e.translations.keys ==> k !in Reserved
    ensures ImportRow(ExportRow(e)) == Some(GlossaryEntry(
      e.term,
      LanguageColumns(e.translations.keys, e.translations.entries),
      e.doNotTranslate,
      Some(if e.description.Some? then e.description.value else ""),
      e.caseSensitive))
  {
    var t, row := e.translations, ExportRow(e);
    ExportRowCells(e);
    assert "term" in Reserved && "description" in Reserved;
    assert "doNotTranslate" in Reserved && "caseSensitive" in Reserved;
    LanguageColumnsSkipReserved(t.keys, row.entries, t.entries);
  }

  // ------------------------------------------------------------- the manager

  /** Each entry in turn stored under its lower-cased term (Map.prototype.set). */
  function AddAll(m: OMap<string, GlossaryEntry>, es: seq<GlossaryEntry>): (r: OMap<string, GlossaryEntry>)
    ensures ValidMap(m) ==> ValidMap(r)
  {
    if es == [] then m
    else
      var e := es[|es| - 1];
      Put(AddAll(m, es[..|es| - 1]), Lower(e.term), e)
  }

  /**
   * After adding, a term is found under any casing, held by the last added entry
   * whose term lower-cases the same; keys nobody added keep their entries.
   */
  lemma {:induction false} AddAllLast(m: OMap<string, GlossaryEntry>, es: seq<GlossaryEntry>, i: nat)
    requires i < |es|
    requires forall j :: i < j < |es| ==> Lower(es[j].term) != Lower(es[i].term)
    ensures Lower(es[i].term) in AddAll(m, es).entries && AddAll(m, es).entries[Lower(es[i].term)] == es[i]
  {
    if i < |es| - 1 {
      AddAllLast(m, es[..|es| - 1], i);
    }
  }

  lemma {:induction false} AddAllOthers(m: OMap<string, GlossaryEntry>, es: seq<GlossaryEntry>, key: string)
    requires forall j :: 0 <= j < |es| ==> Lower(es[j].term) != key
    ensures key in AddAll(m, es).entries <==> key in m.entries
    ensures key in m.entries ==> AddAll(m, es).entries[key] == m.entries[key]
  {
    if es != [] {
      AddAllOthers(m, es[..|es| - 1], key);
    }
  }

  /** The manager's invariant: every entry is stored under its lower-cased term. */
  ghost predicate KeyedByLowerTerm(m: OMap<string, GlossaryEntry>) {
    ValidMap(m) && forall k :: k in m.entries ==> k == Lower(m.entries[k].term) && WellFormed(m.entries[k])
  }

  lemma {:induction false} AddAllKeyed(m: OMap<string, GlossaryEntry>, es: seq<GlossaryEntry>)
    requires KeyedByLowerTerm(m) && forall j :: 0 <= j < |es| ==> WellFormed(es[j])
    ensures KeyedByLowerTerm(AddAll(m, es))
  {
    if es != [] {
      AddAllKeyed(m, es[..|es| - 1]);
    }
  }

  lemma ValuesOfKeyed(m: OMap<string, GlossaryEntry>)
    requires KeyedByLowerTerm(m)
    ensures forall i :: 0 <= i < |Values(m)| ==> WellFormed(Values(m)[i])
  {
    KeysInEntries(m);
  }

  /** The protected entries of a manager are the do-not-translate ones. */
  lemma ProtectOrderMembers(es: seq<GlossaryEntry>)
    ensures forall k :: 0 <= k < |ProtectOrder(es)| ==> ProtectOrder(es)[k] in es && ProtectOrder(es)[k].doNotTranslate
  {
    var d := DoNotTranslateOnly(es);
    var r := ProtectOrder(es);
    forall k | 0 <= k < |r| ensures r[k] in d {
      assert r[k] in multiset(r);
    }
  }

  /**
   * The round trip for a glossary: when every do-not-translate term is empty or
   * safe next to term markers, restoring what protectTerms produced gives back a
   * text without `_`.
   */
  lemma GlossaryRoundTrip(text: string, es: seq<GlossaryEntry>)
    requires NoUnderscore(text)
    requires forall k :: 0 <= k < |es| ==> es[k].doNotTranslate ==> ProtectableTerm(es[k])
    ensures var ps := TermOriginals(text, ProtectOrder(es));
      var m := MarkerMap(TermWord, ps, |ps|);
      RestoreFrom(ProtectUpTo(TermWord, text, ps, |ps|), m.keys, m.entries, 0) == text
  {
    ProtectOrderMembers(es);
    TermRoundTrip(text, ProtectOrder(es));
  }

  /** createDefaultGlossary: five acronyms, each protected, case-sensitive and without translations. */
  function DefaultGlossary(): (r: seq<GlossaryEntry>)
    ensures |r| == 5
    ensures forall k :: 0 <= k < |r| ==>
      r[k].term != [] && r[k].doNotTranslate && r[k].caseSensitive && r[k].translations == EmptyMap()
  {
    [ GlossaryEntry("API", EmptyMap(), true, Some("Application Programming Interface"), true),
      GlossaryEntry("UI", EmptyMap(), true, Some("User Interface"), true),
      GlossaryEntry("URL", EmptyMap(), true, Some("Uniform Resource Locator"), true),
      GlossaryEntry("HTTP", EmptyMap(), true, Some("HyperText Transfer Protocol"), true),
      GlossaryEntry("HTTPS", EmptyMap(), true, Some("HyperText Transfer Protocol Secure"), true) ]
  }

  /**
   * Each default term starts with a letter that no `__TERM_<n>__` marker holds, so
   * the default glossary meets GlossaryRoundTrip's condition.
   */
  lemma DefaultTermsProtectable()
    ensures forall k :: 0 <= k < |DefaultGlossary()| ==> ProtectableTerm(DefaultGlossary()[k])
  {
    var alphabet := MarkerAlphabet(TermWord);
    assert forall k :: 0 <= k < |TermWord| ==> LowerChar(TermWord[k]) in {'t', 'e', 'r', 'm'};
    assert 'a' !in alphabet && 'u' !in alphabet && 'h' !in alphabet;
    var es := DefaultGlossary();
    assert LowerChar(es[0].term[0]) == 'a';
    assert LowerChar(es[1].term[0]) == 'u' && LowerChar(es[2].term[0]) == 'u';
    assert LowerChar(es[3].term[0]) == 'h' && LowerChar(es[4].term[0]) == 'h';
  }

  /** One entry's worth of protectTerms: its matches in the text protected so far follow the earlier originals. */
  lemma ProtectTermsStep(text: string, es: seq<GlossaryEntry>, n: nat)
    requires n < |es|
    ensures |TermOriginals(text, es[..n])| <= |TermOriginals(text, es)|
    ensures var all, prefix := TermOriginals(text, es), TermOriginals(text, es[..n]);
      var ms := MatchedTexts(ProtectUpTo(TermWord, text, all, |prefix|), es[n]);
      |TermOriginals(text, es[..n + 1])| == |prefix| + |ms| <= |all| && all[|prefix|..|prefix| + |ms|] == ms
  {
    var all, prefix := TermOriginals(text, es), TermOriginals(text, es[..n]);
    var next := TermOriginals(text, es[..n + 1]);
    var ms := MatchedTexts(ProtectUpTo(TermWord, text, prefix, |prefix|), es[n]);
    assert |prefix| <= |all| && all[..|prefix|] == prefix by {
      TermOriginalsPrefix(text, es, n);
    }
    assert |next| <= |all| && all[..|next|] == next by {
      TermOriginalsPrefix(text, es, n + 1);
    }
    assert next == prefix + ms by {
      TermOriginalsSnoc(text, es, n);
    }
    PrefixThenSlice(all, prefix, ms, next);
    assert ProtectUpTo(TermWord, text, all, |prefix|) == ProtectUpTo(TermWord, text, prefix, |prefix|) by {
      assert all == prefix + all[|prefix|..];
      ProtectUpToPrefix(TermWord, text, prefix, all[|prefix|..], |prefix|);
    }
  }

  /** The matches of entry `n` are the next originals, right after those of the entries before it. */
  lemma ProtectEntryStep(text: string, all: seq<string>, sorted: seq<GlossaryEntry>, n: nat, index: nat, matches: seq<string>)
    requires n < |sorted| && all == TermOriginals(text, sorted)
    requires index == |TermOriginals(text, sorted[..n])| <= |all|
    requires matches == MatchedTexts(ProtectUpTo(TermWord, text, all, index), sorted[n])
    ensures index + |matches| == |TermOriginals(text, sorted[..n + 1])| <= |all|
    ensures all[index..index + |matches|] == matches
  {
    ProtectTermsStep(text, sorted, n);
  }

  lemma PrefixThenSlice(all: seq<string>, prefix: seq<string>, ms: seq<string>, next: seq<string>)
    requires next == prefix + ms && |next| <= |all| && all[..|next|] == next
    ensures |prefix| + |ms| <= |all| && all[|prefix|..|prefix| + |ms|] == ms
  {
    assert all[|prefix|..|prefix| + |ms|] == all[..|next|][|prefix|..];
  }

  lemma TermOriginalsSnoc(text: string, es: seq<GlossaryEntry>, n: nat)
    requires n < |es|
    ensures var prefix := TermOriginals(text, es[..n]);
      TermOriginals(text, es[..n + 1]) == prefix + MatchedTexts(ProtectUpTo(TermWord, text, prefix, |prefix|), es[n])
  {
    PrefixOfPrefix(es, n);
  }

  // ------------------------------------------------------ the manager's loops

  /**
   * protectTerms, one entry: the texts it matched, taken in order, each has its
   * first occurrence replaced by the next marker and is recorded under it.
   * `all` is every text protectTerms records; these matches come at `start`.
   */
  method ProtectMatches(ghost text: string, ghost all: seq<string>, matches: seq<string>, start: nat,
                        protectedText: string, protectedTerms: OMap<string, string>)
    returns (nextText: string, nextTerms: OMap<string, string>, index: nat)
    requires start + |matches| <= |all| && all[start..start + |matches|] == matches
    requires protectedText == ProtectUpTo(TermWord, text, all, start)
    requires protectedTerms == MarkerMap(TermWord, all, start)
    ensures index == start + |matches|
    ensures nextText == ProtectUpTo(TermWord, text, all, index) && nextTerms == MarkerMap(TermWord, all, index)
  {
    nextText, nextTerms := protectedText, protectedTerms;
    index := start;
    while index < start + |matches|
      invariant start <= index <= start + |matches|
      invariant nextText == ProtectUpTo(TermWord, text, all, index)
      invariant nextTerms == MarkerMap(TermWord, all, index)
    {
      var marker := Marker(TermWord, index);
      var original := matches[index - start];
      assert original == all[index] by {
        assert all[start..start + |matches|][index - start] == all[index];
      }
      ProtectOneMore(TermWord, text, all, index, nextText, nextTerms);
      nextTerms := Put(nextTerms, marker, original);
      nextText := ReplaceFirst(nextText, original, marker);
      index := index + 1;
    }
  }

  /** protectTerms, one entry: the loop body, with all the originals recorded so far as `all[..index]`. */
  method ProtectEntry(text: string, ghost all: seq<string>, sorted: seq<GlossaryEntry>, n: nat, index: nat,
                      protectedText: string, protectedTerms: OMap<string, string>)
    returns (nextText: string, nextTerms: OMap<string, string>, nextIndex: nat)
    requires n < |sorted| && all == TermOriginals(text, sorted)
    requires index == |TermOriginals(text, sorted[..n])| <= |all|
    requires protectedText == ProtectUpTo(TermWord, text, all, index)
    requires protectedTerms == MarkerMap(TermWord, all, index)
    ensures nextIndex == |TermOriginals(text, sorted[..n + 1])| <= |all|
    ensures nextText == ProtectUpTo(TermWord, text, all, nextIndex)
    ensures nextTerms == MarkerMap(TermWord, all, nextIndex)
  {
    var matches := MatchedTexts(protectedText, sorted[n]);
    ProtectEntryStep(text, all, sorted, n, index, matches);
    nextText, nextTerms, nextIndex := ProtectMatches(text, all, matches, index, protectedText, protectedTerms);
  }

  /**
   * protectTerms over entries already in protect order: every match of each
   * entry's term in the text as protected so far has its first occurrence
   * replaced by the next `__TERM_<n>__` marker, recorded with the matched text.
   */
  method ProtectEach(text: string, sorted: seq<GlossaryEntry>) returns (protectedText: string, protectedTerms: OMap<string, string>)
    ensures var ps := TermOriginals(text, sorted);
      protectedText == ProtectUpTo(TermWord, text, ps, |ps|) && protectedTerms == MarkerMap(TermWord, ps, |ps|)
  {
    ghost var all := TermOriginals(text, sorted);
    protectedTerms := EmptyMap();
    protectedText := text;
    var index := 0;
    var n := 0;
    TermOriginalsPrefix(text, sorted, 0);
    while n < |sorted|
      invariant n <= |sorted|
      invariant index == |TermOriginals(text, sorted[..n])| <= |all|
      invariant protectedText == ProtectUpTo(TermWord, text, all, index)
      invariant protectedTerms == MarkerMap(TermWord, all, index)
    {
      protectedText, protectedTerms, index := ProtectEntry(text, all, sorted, n, index, protectedText, protectedTerms);
      n := n + 1;
    }
    assert sorted[..n] == sorted;
  }

  /** validateTermUsage over the terms found in the source. */
  method CheckUsage(sourceTerms: seq<Found>, translation: string, lang: string) returns (issues: seq<TermIssue>)
    ensures issues == UsageIssues(sourceTerms, translation, lang)
  {
    issues := [];
    var n := 0;
    while n < |sourceTerms|
      invariant n <= |sourceTerms|
      invariant issues == UsageIssues(sourceTerms[..n], translation, lang)
    {
      var f := sourceTerms[n];
      PrefixOfPrefix(sourceTerms, n);
      if f.entry.doNotTranslate {
        if !Contains(translation, f.term) {
          issues := issues + [TermIssue(f.term, Untranslated, Some(f.term), None)];
        }
      } else {
        var expected := TranslationFor(f.entry, lang);
        if expected.Some? {
          var hasCorrect := Contains(translation, expected.value);
          var hasSource := Contains(translation, f.term);
          if !hasCorrect && hasSource {
            issues := issues + [TermIssue(f.term, Untranslated, Some(expected.value), Some(f.term))];
          } else if !hasCorrect {
            issues := issues + [TermIssue(f.term, Missing, Some(expected.value), None)];
          }
        }
      }
      n := n + 1;
    }
    assert sourceTerms[..n] == sourceTerms;
  }

  /** exportToExcelData, one entry: the reserved columns, then one column per language in map order. */
  method ExportOne(entry: GlossaryEntry) returns (row: OMap<string, string>)
    requires WellFormed(entry)
    ensures row == ExportRow(entry)
  {
    row := ExportBase(entry);
    var langs := entry.translations.keys;
    KeysInEntries(entry.translations);
    var j := 0;
    while j < |langs|
      invariant j <= |langs| && ValidMap(row)
      invariant PutAll(row, langs[j..], entry.translations.entries) == ExportRow(entry)
    {
      PutAllStep(row, langs, entry.translations.entries, j);
      row := Put(row, langs[j], entry.translations.entries[langs[j]]);
      j := j + 1;
    }
  }

  /** exportToExcelData over the entries: one row each, in order. */
  method ExportRows(es: seq<GlossaryEntry>) returns (data: seq<OMap<string, string>>)
    requires forall i :: 0 <= i < |es| ==> WellFormed(es[i])
    ensures data == ExportAll(es)
  {
    data := [];
    var n := 0;
    while n < |es|
      invariant n <= |es| && data == ExportAll(es[..n])
    {
      PrefixOfPrefix(es, n);
      var row := ExportOne(es[n]);
      data := data + [row];
      n := n + 1;
    }
    assert es[..n] == es;
  }

  /** importFromExcelData, first half: the entries of the rows that have a term. */
  method ImportEntries(data: seq<OMap<string, string>>) returns (imported: seq<GlossaryEntry>)
    requires forall k :: 0 <= k < |data| ==> ValidMap(data[k])
    ensures imported == ImportRows(data)
    ensures forall j :: 0 <= j < |imported| ==> WellFormed(imported[j])
  {
    imported := [];
    var n := 0;
    while n < |data|
      invariant n <= |data| && imported == ImportRows(data[..n])
      invariant forall j :: 0 <= j < |imported| ==> WellFormed(imported[j])
    {
      PrefixOfPrefix(data, n);
      var entry := ImportRow(data[n]);
      if entry.Some? {
        imported := imported + [entry.value];
      }
      n := n + 1;
    }
    assert data[..n] == data;
  }

  /** getStatistics, one entry: each of its languages counted once more. */
  method TallyLanguages(counts: OMap<string, nat>, langs: seq<string>) returns (r: OMap<string, nat>)
    ensures r == Tally(counts, langs)
  {
    r := counts;
    var j := 0;
    while j < |langs|
      invariant j <= |langs| && r == Tally(counts, langs[..j])
    {
      TallyStep(counts, langs, j);
      var lang := langs[j];
      r := Put(r, lang, (if lang in r.entries then r.entries[lang] else 0) + 1);
      j := j + 1;
    }
    assert langs[..j] == langs;
  }

  /** getStatistics over the entries: how many are protected, and how many carry each language. */
  method CountStatistics(es: seq<GlossaryEntry>) returns (protected: nat, byLanguage: OMap<string, nat>)
    ensures protected == ProtectedCount(es) && byLanguage == LanguageCounts(es)
  {
    protected := 0;
    byLanguage := EmptyMap();
    var n := 0;
    while n < |es|
      invariant n <= |es| && protected == ProtectedCount(es[..n]) && byLanguage == LanguageCounts(es[..n])
    {
      PrefixOfPrefix(es, n);
      if es[n].doNotTranslate {
        protected := protected + 1;
      }
      byLanguage := TallyLanguages(byLanguage, es[n].translations.keys);
      n := n + 1;
    }
    assert es[..n] == es;
  }

  class GlossaryManager {
    const enabled: bool
    const configEntries: seq<GlossaryEntry>
    var entries: OMap<string, GlossaryEntry>

    ghost predicate Valid()
      reads this
    {
      KeyedByLowerTerm(entries) && forall j :: 0 <= j < |configEntries| ==> WellFormed(configEntries[j])
    }

    constructor(enabled: bool, configEntries: seq<GlossaryEntry>)
      requires forall j :: 0 <= j < |configEntries| ==> WellFormed(configEntries[j])
      ensures Valid() && entries == EmptyMap()
      ensures this.enabled == enabled && this.configEntries == configEntries
    {
      this.enabled := enabled;
      this.configEntries := configEntries;
      entries := EmptyMap();
    }

    /**
     * load: nothing when disabled; otherwise the configured entries, then those
     * read from the glossary file (None when there is no file or it cannot be read).
     */
    method Load(fileEntries: Option<seq<GlossaryEntry>>)
      requires Valid()
      requires fileEntries.Some? ==> forall j :: 0 <= j < |fileEntries.value| ==> WellFormed(fileEntries.value[j])
      modifies this
      ensures Valid()
      ensures !enabled ==> entries == old(entries)
      ensures enabled ==> entries == AddAll(AddAll(old(entries), configEntries), if fileEntries.Some? then fileEntries.value else [])
    {
      if !enabled {
        return;
      }
      AddTerms(configEntries);
      if fileEntries.Some? {
        AddTerms(fileEntries.value);
      } else {
        assert AddAll(entries, []) == entries;
      }
    }

    /** addTerm: stores the entry under its lower-cased term, replacing any entry there. */
    method AddTerm(entry: GlossaryEntry)
      requires Valid() && WellFormed(entry)
      modifies this
      ensures Valid()
      ensures entries == Put(old(entries), Lower(entry.term), entry)
      ensures GetTerm(entry.term) == Some(entry)
    {
      entries := Put(entries, Lower(entry.term), entry);
    }

    method AddTerms(es: seq<GlossaryEntry>)
      requires Valid() && forall j :: 0 <= j < |es| ==> WellFormed(es[j])
      modifies this
      ensures Valid()
      ensures entries == AddAll(old(entries), es)
    {
      var n := 0;
      while n < |es|
        invariant n <= |es| && Valid()
        invariant entries == AddAll(old(entries), es[..n])
      {
        PrefixOfPrefix(es, n);
        AddTerm(es[n]);
        n := n + 1;
      }
      assert es[..n] == es;
    }

    /** removeTerm: true exactly when the lower-cased term was stored; every other entry stays. */
    method RemoveTerm(term: string) returns (deleted: bool)
      requires Valid()
      modifies this
      ensures Valid()
      ensures deleted <==> Lower(term) in old(entries).entries
      ensures entries == Remove(old(entries), Lower(term))
      ensures Lower(term) !in entries.entries && GetTerm(term) == None
      ensures forall k :: k != Lower(term) && k in old(entries).entries ==> k in entries.entries && entries.entries[k] == old(entries).entries[k]
    {
      deleted := Lower(term) in entries.entries;
      entries := Remove(entries, Lower(term));
    }

    /** getTerm: the entry stored under the lower-cased term. */
    function GetTerm(term: string): (r: Option<GlossaryEntry>)
      reads this
      requires Valid()
      ensures r.None? <==> Lower(term) !in entries.entries
      ensures r.Some? ==> Lower(r.value.term) == Lower(term) && r.value == entries.entries[Lower(term)]
    {
      if Lower(term) in entries.entries then Some(entries.entries[Lower(term)]) else None
    }

    function GetAllTerms(): (r: seq<GlossaryEntry>)
      reads this
      requires Valid()
      ensures |r| == |entries.keys|
      ensures forall i :: 0 <= i < |r| ==> r[i] == entries.entries[entries.keys[i]]
    {
      Values(entries)
    }

    /** findTermsInText: the entries whose term matches, in map order, with their match indices. */
    method FindTermsInText(text: string) returns (found: seq<Found>)
      requires Valid()
      ensures found == FoundIn(Values(entries), text)
    {
      var es := Values(entries);
      found := [];
      var n := 0;
      while n < |es|
        invariant n <= |es| && found == FoundIn(es[..n], text)
      {
        var entry := es[n];
        var positions := TermPositions(text, entry);
        PrefixOfPrefix(es, n);
        if |positions| > 0 {
          found := found + [Found(entry.term, entry, positions)];
        }
        n := n + 1;
      }
      assert es[..n] == es;
    }

    /**
     * applyTerms: longest term first, each entry that may be translated and has a
     * translation for `lang` replaces every match of its term (ignoring case unless
     * the entry is case-sensitive).
     */
    method ApplyTerms(text: string, lang: string) returns (result: string)
      requires Valid()
      ensures result == ApplyEach(text, ByLength(Values(entries)), lang)
    {
      var sorted := ByLength(Values(entries));
      result := text;
      var n := 0;
      while n < |sorted|
        invariant n <= |sorted| && ApplyEach(result, sorted[n..], lang) == ApplyEach(text, sorted, lang)
      {
        var entry := sorted[n];
        assert sorted[n..][1..] == sorted[n + 1..];
        if !entry.doNotTranslate {
          var translation := TranslationFor(entry, lang);
          if translation.Some? {
            result := ReplaceAll(result, entry.term, translation.value, !entry.caseSensitive);
          }
        }
        n := n + 1;
      }
    }

    /**
     * protectTerms: the do-not-translate entries, longest term first, each match
     * replaced by a `__TERM_<n>__` marker (see ProtectEach).
     */
    method ProtectTerms(text: string) returns (protectedText: string, protectedTerms: OMap<string, string>)
      requires Valid()
      ensures var ps := TermOriginals(text, ProtectOrder(Values(entries)));
        protectedText == ProtectUpTo(TermWord, text, ps, |ps|) && protectedTerms == MarkerMap(TermWord, ps, |ps|)
    {
      protectedText, protectedTerms := ProtectEach(text, ProtectOrder(Values(entries)));
    }

    /** restoreTerms: every occurrence of each marker, in map order, is replaced by its recorded text. */
    method RestoreTerms(text: string, protectedTerms: OMap<string, string>) returns (restored: string)
      requires ValidMap(protectedTerms)
      ensures restored == RestoreFrom(text, protectedTerms.keys, protectedTerms.entries, 0)
    {
      restored := RestoreMarkers(text, protectedTerms);
    }

    /** validateTermUsage: one issue per source term that the translation does not carry as required. */
    method ValidateTermUsage(source: string, translation: string, lang: string) returns (issues: seq<TermIssue>)
      requires Valid()
      ensures issues == UsageIssues(FoundIn(Values(entries), source), translation, lang)
    {
      var sourceTerms := FindTermsInText(source);
      issues := CheckUsage(sourceTerms, translation, lang);
    }

    /** exportToExcelData: one row per entry, in map order. */
    method ExportToExcelData() returns (data: seq<OMap<string, string>>)
      requires Valid()
      ensures (ValuesOfKeyed(entries); data == ExportAll(Values(entries)))
    {
      ValuesOfKeyed(entries);
      data := ExportRows(Values(entries));
    }

    /** importFromExcelData: the rows with a term become entries, which are then added in order. */
    method ImportFromExcelData(data: seq<OMap<string, string>>)
      requires Valid() && forall k :: 0 <= k < |data| ==> ValidMap(data[k])
      modifies this
      ensures Valid()
      ensures entries == AddAll(old(entries), ImportRows(data))
    {
      var imported := ImportEntries(data);
      AddTerms(imported);
    }

    /** getStatistics: the number of entries, of do-not-translate entries, and of entries per language. */
    method GetStatistics() returns (stats: GlossaryStats)
      requires Valid()
      ensures stats == GlossaryStats(|entries.keys|, ProtectedCount(Values(entries)), LanguageCounts(Values(entries)))
    {
      var protected, byLanguage := CountStatistics(Values(entries));
      stats := GlossaryStats(|entries.keys|, protected, byLanguage);
    }
  }
}
