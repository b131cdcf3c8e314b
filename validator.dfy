// TranslationValidator (src/core/validator.ts): the issues a translation raises
// (empty, placeholder, HTML tag and length checks) and the report that counts
// them.  Loading the translation files is a function from a language to its
// entries.
module Validator {
  import opened Strings
  import opened Collections
  import opened Placeholders
  import opened Types

  // ------------------------------------------------------------------ issues

  datatype IssueType = Placeholder | HtmlTags | Length | Empty

  datatype Severity = Error | Warning | Info

  /** The `type` string of an issue. */
  function TypeName(t: IssueType): string {
    match t
    case Placeholder => "placeholder"
    case HtmlTags => "html"
    case Length => "length"
    case Empty => "empty"
  }

  /** ValidationResult; the validator always fills in the source text. */
  datatype ValidationResult = ValidationResult(
    key: string,
    language: string,
    kind: IssueType,
    severity: Severity,
    message: string,
    source: string,
    translation: Option<string>)

  /** The place of an issue among one entry's issues. */
  function Rank(r: ValidationResult): nat {
    match r.kind
    case Empty => 0
    case Placeholder => if r.severity == Error then 1 else 2
    case HtmlTags => if r.severity == Error then 3 else 4
    case Length => if r.severity == Warning then 5 else 6
  }

  /** One entry's issues come in the order of the checks. */
  predicate InCheckOrder(rs: seq<ValidationResult>) {
    forall i, j :: 0 <= i < j < |rs| ==> Rank(rs[i]) < Rank(rs[j])
  }

  predicate HasIssue(rs: seq<ValidationResult>, t: IssueType, s: Severity) {
    exists i :: 0 <= i < |rs| && rs[i].kind == t && rs[i].severity == s
  }

  predicate NoIssueOf(rs: seq<ValidationResult>, t: IssueType) {
    forall i :: 0 <= i < |rs| ==> rs[i].kind != t
  }

  /** `!translation || translation.trim() === ''` */
  predicate Blank(translation: Option<string>) {
    translation.None? || Trim(translation.value) == []
  }

  const EmptyMessage: string := "翻译为空"
  const MissingPlaceholdersHeading: string := "缺失占位符: "
  const ExtraPlaceholdersHeading: string := "额外占位符: "
  const MissingTagsHeading: string := "缺失 HTML 标签: "
  const ExtraTagsHeading: string := "额外 HTML 标签: "

  function ListMessage(heading: string, items: seq<string>): string {
    heading + JoinWith(items, ", ")
  }

  function EmptyIssue(key: string, language: string, source: string): ValidationResult {
    ValidationResult(key, language, Empty, Error, EmptyMessage, source, None)
  }

  /**
   * At most two issues of one kind: a `first` one when `firstMessage` is set, then
   * a `second` one when `secondMessage` is set.
   */
  function IssuePair(key: string, language: string, kind: IssueType, source: string, translation: string,
                     first: Severity, firstMessage: Option<string>, second: Severity, secondMessage: Option<string>): (r: seq<ValidationResult>)
    requires first != second
    ensures |r| == (if firstMessage.Some? then 1 else 0) + (if secondMessage.Some? then 1 else 0)
    ensures HasIssue(r, kind, first) <==> firstMessage.Some?
    ensures HasIssue(r, kind, second) <==> secondMessage.Some?
    ensures forall i :: 0 <= i < |r| ==>
      r[i].kind == kind && (r[i].severity == first || r[i].severity == second)
      && r[i].key == key && r[i].language == language && r[i].source == source && r[i].translation == Some(translation)
    ensures forall i, j :: 0 <= i < j < |r| ==> r[i].severity == first && r[j].severity == second
  {
    match (firstMessage, secondMessage)
    case (None, None) => []
    case (Some(m), None) =>
      var r := [ValidationResult(key, language, kind, first, m, source, Some(translation))];
      assert r[0].severity == first;
      r
    case (None, Some(m)) =>
      var r := [ValidationResult(key, language, kind, second, m, source, Some(translation))];
      assert r[0].severity == second;
      r
    case (Some(m1), Some(m2)) =>
      var r := [ValidationResult(key, language, kind, first, m1, source, Some(translation)),
                ValidationResult(key, language, kind, second, m2, source, Some(translation))];
      assert r[0].severity == first && r[1].severity == second;
      r
  }

  /** A message naming the listed items, when there are any. */
  function ListedOrNone(heading: string, items: seq<string>): (m: Option<string>)
    ensures m.Some? <==> items != []
  {
    if items != [] then Some(ListMessage(heading, items)) else None
  }

  /**
   * The issues a failed check raises: an error listing what is missing, then a
   * warning listing what is extra; a passed check raises none.
   */
  function CheckIssues(key: string, language: string, kind: IssueType, source: string, translation: string,
                       check: Check, missingHeading: string, extraHeading: string): (r: seq<ValidationResult>)
    ensures |r| <= 2
    ensures r == [] <==> check.valid || (check.missing == [] && check.extra == [])
    ensures HasIssue(r, kind, Error) <==> !check.valid && check.missing != []
    ensures HasIssue(r, kind, Warning) <==> !check.valid && check.extra != []
    ensures forall i :: 0 <= i < |r| ==>
      (r[i].kind == kind && r[i].severity != Info
       && r[i].key == key && r[i].language == language && r[i].translation == Some(translation))
    ensures kind == Placeholder || kind == HtmlTags ==> InCheckOrder(r)
  {
    if check.valid then []
    else IssuePair(key, language, kind, source, translation,
      Error, ListedOrNone(missingHeading, check.missing), Warning, ListedOrNone(extraHeading, check.extra))
  }

  // ------------------------------------------------------ placeholder check

  /** The placeholder issues: one error for missing placeholders, one warning for extra ones. */
  function PlaceholderIssues(key: string, language: string, source: string, translation: string): (r: seq<ValidationResult>)
    ensures var c := ValidatePlaceholders(source, translation);
      (r == [] <==> c.valid)
      && (HasIssue(r, Placeholder, Error) <==> c.missing != [])
      && (HasIssue(r, Placeholder, Warning) <==> c.extra != [])
    ensures |r| <= 2 && InCheckOrder(r)
    ensures forall i :: 0 <= i < |r| ==>
      (r[i].kind == Placeholder && r[i].severity != Info
       && r[i].key == key && r[i].language == language && r[i].translation == Some(translation))
  {
    CheckIssues(key, language, Placeholder, source, translation,
      ValidatePlaceholders(source, translation), MissingPlaceholdersHeading, ExtraPlaceholdersHeading)
  }

  // --------------------------------------------------------- HTML tag check

  /** The source's tags the translation lacks, as validateHtmlTags lists them. */
  function HtmlMissing(source: string, translation: string): seq<string> {
    Surplus(Dedup(ExtractHtmlTags(source)), ExtractHtmlTags(source), ExtractHtmlTags(translation))
  }

  /** The translation's tags in excess of the source's. */
  function HtmlExtra(source: string, translation: string): seq<string> {
    HtmlMissing(translation, source)
  }

  /** The lists are empty exactly when the tag multisets leave nothing over. */
  lemma HtmlListsEmpty(source: string, translation: string)
    ensures HtmlMissing(source, translation) == [] <==>
      multiset(ExtractHtmlTags(source)) - multiset(ExtractHtmlTags(translation)) == multiset{}
    ensures HtmlExtra(source, translation) == [] <==>
      multiset(ExtractHtmlTags(translation)) - multiset(ExtractHtmlTags(source)) == multiset{}
    ensures HtmlMissing(source, translation) == [] && HtmlExtra(source, translation) == [] <==>
      multiset(ExtractHtmlTags(source)) == multiset(ExtractHtmlTags(translation))
  {
    SurplusIsDifference(ExtractHtmlTags(source), ExtractHtmlTags(translation));
    SurplusIsDifference(ExtractHtmlTags(translation), ExtractHtmlTags(source));
    DifferencesEmpty(multiset(ExtractHtmlTags(source)), multiset(ExtractHtmlTags(translation)));
  }

  /** The outcome of validateHtmlTags, as a value. */
  function HtmlCheck(source: string, translation: string): (r: Check)
    ensures r.valid <==> r.missing == [] && r.extra == []
    ensures r.valid <==> multiset(ExtractHtmlTags(source)) == multiset(ExtractHtmlTags(translation))
  {
    HtmlListsEmpty(source, translation);
    Check(multiset(ExtractHtmlTags(source)) == multiset(ExtractHtmlTags(translation)),
      HtmlMissing(source, translation), HtmlExtra(source, translation))
  }

  /** The HTML issues: one error for missing tags, one warning for extra tags. */
  function HtmlIssues(key: string, language: string, source: string, translation: string): (r: seq<ValidationResult>)
    ensures var sm, tm := multiset(ExtractHtmlTags(source)), multiset(ExtractHtmlTags(translation));
      (r == [] <==> sm == tm)
      && (HasIssue(r, HtmlTags, Error) <==> sm - tm != multiset{})
      && (HasIssue(r, HtmlTags, Warning) <==> tm - sm != multiset{})
    ensures |r| <= 2 && InCheckOrder(r)
    ensures forall i :: 0 <= i < |r| ==>
      (r[i].kind == HtmlTags && r[i].severity != Info
       && r[i].key == key && r[i].language == language && r[i].translation == Some(translation))
  {
    HtmlListsEmpty(source, translation);
    CheckIssues(key, language, HtmlTags, source, translation, HtmlCheck(source, translation), MissingTagsHeading, ExtraTagsHeading)
  }

  // ------------------------------------------------------------ single check

  /** validateSingle: an empty translation raises only that; otherwise the placeholder and HTML checks. */
  function SingleIssues(source: string, translation: string, language: string, key: string): (r: seq<ValidationResult>)
    ensures Blank(Some(translation)) ==> r == [EmptyIssue(key, language, source)]
    ensures !Blank(Some(translation)) ==>
      r == PlaceholderIssues(key, language, source, translation) + HtmlIssues(key, language, source, translation)
    ensures |r| <= 4 && NoIssueOf(r, Length) && InCheckOrder(r)
  {
    if Blank(Some(translation)) then [EmptyIssue(key, language, source)]
    else
      var p := PlaceholderIssues(key, language, source, translation);
      var h := HtmlIssues(key, language, source, translation);
      OrderAppend(p, h);
      NoIssueAppend(p, h, Length);
      p + h
  }

  // ------------------------------------------------------------- entry checks

  /** The options of validateAll; unset ones take their defaults. */
  datatype ValidateOptions = ValidateOptions(
    checkPlaceholders: Option<bool>,
    checkHtmlTags: Option<bool>,
    checkLength: Option<bool>,
    maxLength: Option<nat>)

  datatype Checks = Checks(placeholders: bool, htmlTags: bool, length: bool, maxLength: nat)

  function Default<T>(o: Option<T>, d: T): T {
    if o.Some? then o.value else d
  }

  /** The checks in force: every check on and a limit of 1000 unless the options say otherwise. */
  function ChecksOf(options: Option<ValidateOptions>): (c: Checks)
    ensures options.None? ==> c == Checks(true, true, true, 1000)
    ensures options.Some? ==>
      (c.placeholders <==> options.value.checkPlaceholders != Some(false))
      && (c.htmlTags <==> options.value.checkHtmlTags != Some(false))
      && (c.length <==> options.value.checkLength != Some(false))
      && (options.value.maxLength.None? ==> c.maxLength == 1000)
      && (options.value.maxLength.Some? ==> c.maxLength == options.value.maxLength.value)
  {
    var o := if options.Some? then options.value else ValidateOptions(None, None, None, None);
    Checks(Default(o.checkPlaceholders, true), Default(o.checkHtmlTags, true), Default(o.checkLength, true), Default(o.maxLength, 1000))
  }

  /** The length checks of one translation: too long for the limit, and over three times the source. */
  function LengthIssues(c: Checks, key: string, language: string, source: string, translation: string): (r: seq<ValidationResult>)
    ensures HasIssue(r, Length, Warning) <==> c.length && |translation| > c.maxLength
    ensures HasIssue(r, Length, Info) <==> c.length && |translation| > |source| * 3
    ensures |r| <= 2 && InCheckOrder(r)
    ensures forall i :: 0 <= i < |r| ==>
      (r[i].kind == Length && r[i].severity != Error
       && r[i].key == key && r[i].language == language && r[i].translation == Some(translation))
  {
    IssuePair(key, language, Length, source, translation,
      Warning, if c.length && |translation| > c.maxLength then Some(TooLongMessage(|translation|, c.maxLength)) else None,
      Info, if c.length && |translation| > |source| * 3 then Some(OutOfProportionMessage(|source|, |translation|)) else None)
  }

  function TooLongMessage(length: nat, maxLength: nat): string {
    "翻译过长 (" + NatToString(length) + "/" + NatToString(maxLength) + ")"
  }

  function OutOfProportionMessage(sourceLength: nat, length: nat): string {
    "翻译长度异常 (源: " + NatToString(sourceLength) + ", 译: " + NatToString(length) + ")"
  }

  /** The translation of an entry in a language, if it has one. */
  function TranslationIn(entry: TranslationEntry, language: string): Option<string> {
    if language in entry.translations.entries then Some(entry.translations.entries[language]) else None
  }

  /** Concatenated issue lists keep the check order when the first ranks below the second. */
  lemma OrderAppend(a: seq<ValidationResult>, b: seq<ValidationResult>)
    requires InCheckOrder(a) && InCheckOrder(b)
    requires forall i, j :: 0 <= i < |a| && 0 <= j < |b| ==> Rank(a[i]) < Rank(b[j])
    ensures InCheckOrder(a + b)
  {
  }

  lemma HasIssueAppend(a: seq<ValidationResult>, b: seq<ValidationResult>, t: IssueType, s: Severity)
    ensures HasIssue(a + b, t, s) <==> HasIssue(a, t, s) || HasIssue(b, t, s)
  {
    if HasIssue(a + b, t, s) {
      var i :| 0 <= i < |a + b| && (a + b)[i].kind == t && (a + b)[i].severity == s;
      if i >= |a| {
        assert b[i - |a|] == (a + b)[i];
      }
    }
    if HasIssue(a, t, s) {
      var i :| 0 <= i < |a| && a[i].kind == t && a[i].severity == s;
      assert (a + b)[i] == a[i];
    }
    if HasIssue(b, t, s) {
      var i :| 0 <= i < |b| && b[i].kind == t && b[i].severity == s;
      assert (a + b)[|a| + i] == b[i];
    }
  }

  lemma NoIssueAppend(a: seq<ValidationResult>, b: seq<ValidationResult>, t: IssueType)
    requires NoIssueOf(a, t) && NoIssueOf(b, t)
    ensures NoIssueOf(a + b, t)
  {
  }

  /** validateAll on one entry in one language. */
  function EntryIssues(c: Checks, language: string, entry: TranslationEntry): (r: seq<ValidationResult>)
    ensures Blank(TranslationIn(entry, language)) ==> r == [EmptyIssue(entry.key, language, entry.source)]
    ensures !c.placeholders ==> NoIssueOf(r, Placeholder)
    ensures !c.htmlTags ==> NoIssueOf(r, HtmlTags)
    ensures !c.length ==> NoIssueOf(r, Length)
    ensures var t := TranslationIn(entry, language);
      (HasIssue(r, Length, Warning) <==> !Blank(t) && c.length && |t.value| > c.maxLength)
      && (HasIssue(r, Length, Info) <==> !Blank(t) && c.length && |t.value| > |entry.source| * 3)
    ensures var t := TranslationIn(entry, language);
      !Blank(t) && c.placeholders ==>
        (HasIssue(r, Placeholder, Error) <==> ValidatePlaceholders(entry.source, t.value).missing != [])
        && (HasIssue(r, Placeholder, Warning) <==> ValidatePlaceholders(entry.source, t.value).extra != [])
    ensures var t := TranslationIn(entry, language);
      !Blank(t) && c.htmlTags ==>
        var sm, tm := multiset(ExtractHtmlTags(entry.source)), multiset(ExtractHtmlTags(t.value));
        (HasIssue(r, HtmlTags, Error) <==> sm - tm != multiset{})
        && (HasIssue(r, HtmlTags, Warning) <==> tm - sm != multiset{})
    ensures InCheckOrder(r) && |r| <= 6
    ensures forall i :: 0 <= i < |r| ==> r[i].key == entry.key && r[i].language == language
  {
    var t := TranslationIn(entry, language);
    if Blank(t) then [EmptyIssue(entry.key, language, entry.source)]
    else TranslatedIssues(c, entry.key, language, entry.source, t.value)
  }

  /** The issues of a non-blank translation: placeholder, HTML and length checks, in that order. */
  function TranslatedIssues(c: Checks, key: string, language: string, source: string, translation: string): (r: seq<ValidationResult>)
    ensures !c.placeholders ==> NoIssueOf(r, Placeholder)
    ensures !c.htmlTags ==> NoIssueOf(r, HtmlTags)
    ensures !c.length ==> NoIssueOf(r, Length)
    ensures (HasIssue(r, Length, Warning) <==> c.length && |translation| > c.maxLength)
      && (HasIssue(r, Length, Info) <==> c.length && |translation| > |source| * 3)
    ensures c.placeholders ==>
      (HasIssue(r, Placeholder, Error) <==> ValidatePlaceholders(source, translation).missing != [])
      && (HasIssue(r, Placeholder, Warning) <==> ValidatePlaceholders(source, translation).extra != [])
    ensures c.htmlTags ==>
      var sm, tm := multiset(ExtractHtmlTags(source)), multiset(ExtractHtmlTags(translation));
      (HasIssue(r, HtmlTags, Error) <==> sm - tm != multiset{})
      && (HasIssue(r, HtmlTags, Warning) <==> tm - sm != multiset{})
    ensures InCheckOrder(r) && |r| <= 6
    ensures forall i :: 0 <= i < |r| ==> r[i].key == key && r[i].language == language
  {
    var p := if c.placeholders then PlaceholderIssues(key, language, source, translation) else [];
    var h := if c.htmlTags then HtmlIssues(key, language, source, translation) else [];
    var l := LengthIssues(c, key, language, source, translation);
    CheckedIssues(key, language, p, h, l);
    ContentChecksKept(c, key, language, source, translation, l);
    p + h + l
  }

  /** With its check on, a placeholder or HTML issue is raised exactly by its condition. */
  lemma ContentChecksKept(c: Checks, key: string, language: string, source: string, translation: string, l: seq<ValidationResult>)
    requires forall i :: 0 <= i < |l| ==> l[i].kind == Length
    ensures var p := if c.placeholders then PlaceholderIssues(key, language, source, translation) else [];
      var h := if c.htmlTags then HtmlIssues(key, language, source, translation) else [];
      var v := ValidatePlaceholders(source, translation);
      var sm, tm := multiset(ExtractHtmlTags(source)), multiset(ExtractHtmlTags(translation));
      (c.placeholders ==>
        (HasIssue(p + h + l, Placeholder, Error) <==> v.missing != [])
        && (HasIssue(p + h + l, Placeholder, Warning) <==> v.extra != []))
      && (c.htmlTags ==>
        (HasIssue(p + h + l, HtmlTags, Error) <==> sm - tm != multiset{})
        && (HasIssue(p + h + l, HtmlTags, Warning) <==> tm - sm != multiset{}))
  {
    var p := if c.placeholders then PlaceholderIssues(key, language, source, translation) else [];
    var h := if c.htmlTags then HtmlIssues(key, language, source, translation) else [];
    GroupsKept(p, h, l, Error);
    GroupsKept(p, h, l, Warning);
  }

  /** Joining the groups keeps which placeholder and HTML issues are present. */
  lemma GroupsKept(p: seq<ValidationResult>, h: seq<ValidationResult>, l: seq<ValidationResult>, s: Severity)
    requires forall i :: 0 <= i < |p| ==> p[i].kind == Placeholder
    requires forall i :: 0 <= i < |h| ==> h[i].kind == HtmlTags
    requires forall i :: 0 <= i < |l| ==> l[i].kind == Length
    ensures HasIssue(p + h + l, Placeholder, s) <==> HasIssue(p, Placeholder, s)
    ensures HasIssue(p + h + l, HtmlTags, s) <==> HasIssue(h, HtmlTags, s)
  {
    HasIssueAppend(p + h, l, Placeholder, s);
    HasIssueAppend(p, h, Placeholder, s);
    HasIssueAppend(p + h, l, HtmlTags, s);
    HasIssueAppend(p, h, HtmlTags, s);
  }

  /** The three groups of an entry's issues, joined in the order of the checks. */
  lemma CheckedIssues(key: string, language: string, p: seq<ValidationResult>, h: seq<ValidationResult>, l: seq<ValidationResult>)
    requires |p| <= 2 && InCheckOrder(p) && forall i :: 0 <= i < |p| ==> p[i].kind == Placeholder && p[i].key == key && p[i].language == language
    requires |h| <= 2 && InCheckOrder(h) && forall i :: 0 <= i < |h| ==> h[i].kind == HtmlTags && h[i].key == key && h[i].language == language
    requires |l| <= 2 && InCheckOrder(l) && forall i :: 0 <= i < |l| ==> l[i].kind == Length && l[i].key == key && l[i].language == language
    ensures InCheckOrder(p + h + l) && |p + h + l| <= 6
    ensures p == [] ==> NoIssueOf(p + h + l, Placeholder)
    ensures h == [] ==> NoIssueOf(p + h + l, HtmlTags)
    ensures l == [] ==> NoIssueOf(p + h + l, Length)
    ensures HasIssue(p + h + l, Length, Warning) <==> HasIssue(l, Length, Warning)
    ensures HasIssue(p + h + l, Length, Info) <==> HasIssue(l, Length, Info)
    ensures forall i :: 0 <= i < |p + h + l| ==> (p + h + l)[i].key == key && (p + h + l)[i].language == language
  {
    OrderAppend(p, h);
    OrderAppend(p + h, l);
    HasIssueAppend(p + h, l, Length, Warning);
    HasIssueAppend(p + h, l, Length, Info);
    HasIssueAppend(p, h, Length, Warning);
    HasIssueAppend(p, h, Length, Info);
  }

  /** The issues of each entry of a language, entry by entry. */
  function EntryLists(c: Checks, language: string, entries: seq<TranslationEntry>): (r: seq<seq<ValidationResult>>)
    ensures |r| == |entries|
  {
    seq(|entries|, i requires 0 <= i < |entries| => EntryIssues(c, language, entries[i]))
  }

  /** The issues of one language: those of its entries in order. */
  function LanguageIssues(c: Checks, language: string, entries: seq<TranslationEntry>): seq<ValidationResult> {
    Flatten(EntryLists(c, language, entries))
  }

  /** The issues of each language, each language's entries coming from `load`. */
  function LanguageLists(c: Checks, load: string -> seq<TranslationEntry>, languages: seq<string>): (r: seq<seq<ValidationResult>>)
    ensures |r| == |languages|
  {
    seq(|languages|, i requires 0 <= i < |languages| => LanguageIssues(c, languages[i], load(languages[i])))
  }

  /** The issues of all languages, language by language. */
  function AllIssues(c: Checks, load: string -> seq<TranslationEntry>, languages: seq<string>): seq<ValidationResult> {
    Flatten(LanguageLists(c, load, languages))
  }

  /** An entry that has no translation in a language raises an empty issue among that language's issues. */
  lemma BlankEntryReported(c: Checks, language: string, entries: seq<TranslationEntry>, k: nat)
    requires k < |entries| && Blank(TranslationIn(entries[k], language))
    ensures EmptyIssue(entries[k].key, language, entries[k].source) in LanguageIssues(c, language, entries)
  {
    var lists := EntryLists(c, language, entries);
    assert lists[k] == [EmptyIssue(entries[k].key, language, entries[k].source)];
    InFlatten(lists, k, EmptyIssue(entries[k].key, language, entries[k].source));
  }

  /** Every issue of a language is reported for that language. */
  lemma LanguageIssuesLanguage(c: Checks, language: string, entries: seq<TranslationEntry>, r: ValidationResult)
    requires r in LanguageIssues(c, language, entries)
    ensures r.language == language
    ensures exists k :: 0 <= k < |entries| && r.key == entries[k].key
  {
    var lists := EntryLists(c, language, entries);
    FlattenMember(lists, r);
    var k :| 0 <= k < |lists| && r in lists[k];
    var i :| 0 <= i < |lists[k]| && lists[k][i] == r;
    assert r.key == entries[k].key;
  }

  /** Every issue names one of the validated languages, and an entry loaded for it. */
  lemma AllIssuesLanguages(c: Checks, load: string -> seq<TranslationEntry>, languages: seq<string>, r: ValidationResult)
    requires r in AllIssues(c, load, languages)
    ensures exists i :: (0 <= i < |languages| && r.language == languages[i]
      && exists k :: 0 <= k < |load(languages[i])| && r.key == load(languages[i])[k].key)
  {
    var lists := LanguageLists(c, load, languages);
    FlattenMember(lists, r);
    var i :| 0 <= i < |lists| && r in lists[i];
    LanguageIssuesLanguage(c, languages[i], load(languages[i]), r);
  }

  /** An entry with no translation in a validated language raises an empty issue in the whole run. */
  lemma BlankEntryInRun(c: Checks, load: string -> seq<TranslationEntry>, languages: seq<string>, i: nat, k: nat)
    requires i < |languages| && k < |load(languages[i])| && Blank(TranslationIn(load(languages[i])[k], languages[i]))
    ensures var e := load(languages[i])[k];
      EmptyIssue(e.key, languages[i], e.source) in AllIssues(c, load, languages)
  {
    var e := load(languages[i])[k];
    BlankEntryReported(c, languages[i], load(languages[i]), k);
    InFlatten(LanguageLists(c, load, languages), i, EmptyIssue(e.key, languages[i], e.source));
  }

  // ------------------------------------------------------------------ report

  function Severities(results: seq<ValidationResult>): seq<Severity> {
    seq(|results|, i requires 0 <= i < |results| => results[i].severity)
  }

  function TypeNames(results: seq<ValidationResult>): seq<string> {
    seq(|results|, i requires 0 <= i < |results| => TypeName(results[i].kind))
  }

  function Languages(results: seq<ValidationResult>): seq<string> {
    seq(|results|, i requires 0 <= i < |results| => results[i].language)
  }

  datatype ValidationReport = ValidationReport(
    total: nat,
    errors: nat,
    warnings: nat,
    infos: nat,
    byType: OMap<string, nat>,
    byLanguage: OMap<string, nat>)

  /** Every severity is one of the three, so their counts add up to the whole. */
  lemma SeveritiesPartition(s: seq<Severity>)
    ensures Count(s, Error) + Count(s, Warning) + Count(s, Info) == |s|
  {
    var keys := [Error, Warning, Info];
    forall x | x in s ensures x in keys {
      assert x == Error || x == Warning || x == Info;
    }
    assert Distinct(keys);
    SumCountsTotal(keys, s);
    assert keys[1..] == [Warning, Info] && keys[1..][1..] == [Info] && keys[1..][1..][1..] == [];
    assert SumCounts([Info], s) == Count(s, Info) + SumCounts([], s);
    assert SumCounts([Warning, Info], s) == Count(s, Warning) + SumCounts([Info], s);
  }

  lemma CountPrefixStep<T>(s: seq<T>, i: nat, x: T)
    requires i < |s|
    ensures Count(s[..i + 1], x) == Count(s[..i], x) + (if s[i] == x then 1 else 0)
  {
    PrefixSnoc(s, i);
    assert multiset(s[..i] + [s[i]]) == multiset(s[..i]) + multiset{s[i]};
  }

  /** `record[k] = (record[k] || 0) + 1` */
  function Bump(m: OMap<string, nat>, k: string): OMap<string, nat> {
    Put(m, k, (if k in m.entries then m.entries[k] else 0) + 1)
  }

  /** The record of counts built by bumping each element of `s` in turn. */
  function TallyOf(s: seq<string>): OMap<string, nat> {
    if s == [] then EmptyMap() else Bump(TallyOf(s[..|s| - 1]), s[|s| - 1])
  }

  /** Bumping element by element yields a tally: first-seen keys, each with its number of occurrences. */
  lemma {:induction false} TallyOfIsTally(s: seq<string>)
    ensures Tally(TallyOf(s), s)
  {
    if s == [] {
      assert forall x :: x !in TallyOf(s).entries;
    } else {
      var n := |s| - 1;
      TallyOfIsTally(s[..n]);
      assert s[..n] == s[..n][..n] && s == s[..n + 1];
      CountStep(TallyOf(s[..n]), s, n);
    }
  }

  lemma TallyOfPrefixStep(s: seq<string>, i: nat)
    requires i < |s|
    ensures TallyOf(s[..i + 1]) == Bump(TallyOf(s[..i]), s[i])
  {
    assert s[..i + 1][..i] == s[..i];
  }

  /** The number of the first `n` results that have severity `s`, counted one by one. */
  function SeverityCount(results: seq<ValidationResult>, n: nat, s: Severity): nat
    requires n <= |results|
  {
    if n == 0 then 0 else SeverityCount(results, n - 1, s) + (if results[n - 1].severity == s then 1 else 0)
  }

  /** Counting one by one agrees with the multiplicity among the severities. */
  lemma {:induction false} SeverityCountIsCount(results: seq<ValidationResult>, n: nat, s: Severity)
    requires n <= |results|
    ensures SeverityCount(results, n, s) == Count(Severities(results)[..n], s)
  {
    if n > 0 {
      SeverityCountIsCount(results, n - 1, s);
      CountPrefixStep(Severities(results), n - 1, s);
    }
  }

  // --------------------------------------------------------------- validator

  /** TranslationValidator; `load` stands for loadTranslations over the configured output directory. */
  class TranslationValidator {
    const load: string -> seq<TranslationEntry>

    constructor(load: string -> seq<TranslationEntry>)
      ensures this.load == load
    {
      this.load := load;
    }

    /** validateSingle */
    method ValidateSingle(source: string, translation: string, language: string, key: string) returns (results: seq<ValidationResult>)
      ensures results == SingleIssues(source, translation, language, key)
    {
      results := [];
      if Trim(translation) == [] {
        results := results + [EmptyIssue(key, language, source)];
        return;
      }
      var placeholders := PlaceholderChecked(key, language, source, translation);
      var html := HtmlChecked(key, language, source, translation);
      results := placeholders + html;
    }

    /** A failed check pushes an error for what is missing and a warning for what is extra. */
    method PushCheckIssues(key: string, language: string, kind: IssueType, source: string, translation: string,
                           check: Check, missingHeading: string, extraHeading: string) returns (results: seq<ValidationResult>)
      ensures results == CheckIssues(key, language, kind, source, translation, check, missingHeading, extraHeading)
    {
      results := [];
      if !check.valid {
        if |check.missing| > 0 {
          results := results + [ValidationResult(key, language, kind, Error, ListMessage(missingHeading, check.missing), source, Some(translation))];
        }
        if |check.extra| > 0 {
          results := results + [ValidationResult(key, language, kind, Warning, ListMessage(extraHeading, check.extra), source, Some(translation))];
        }
      }
    }

    /** The placeholder part of a check, through validatePlaceholders. */
    method PlaceholderChecked(key: string, language: string, source: string, translation: string) returns (results: seq<ValidationResult>)
      ensures results == PlaceholderIssues(key, language, source, translation)
    {
      var placeholderResult := ValidatePlaceholders(source, translation);
      results := PushCheckIssues(key, language, Placeholder, source, translation,
        placeholderResult, MissingPlaceholdersHeading, ExtraPlaceholdersHeading);
    }

    /** The HTML-tag part of a check, through validateHtmlTags. */
    method HtmlChecked(key: string, language: string, source: string, translation: string) returns (results: seq<ValidationResult>)
      ensures results == HtmlIssues(key, language, source, translation)
    {
      var htmlResult := ValidateHtmlTags(source, translation);
      assert htmlResult == HtmlCheck(source, translation);
      results := PushCheckIssues(key, language, HtmlTags, source, translation,
        htmlResult, MissingTagsHeading, ExtraTagsHeading);
    }

    /** The body of validateAll's inner loop: the checks of one entry in one language. */
    method ValidateEntry(c: Checks, language: string, entry: TranslationEntry) returns (results: seq<ValidationResult>)
      ensures results == EntryIssues(c, language, entry)
    {
      var translation := TranslationIn(entry, language);
      if translation.None? || Trim(translation.value) == [] {
        return [EmptyIssue(entry.key, language, entry.source)];
      }
      var t := translation.value;
      results := [];
      if c.placeholders {
        results := PlaceholderChecked(entry.key, language, entry.source, t);
      }
      ghost var p := results;
      var h := [];
      if c.htmlTags {
        h := HtmlChecked(entry.key, language, entry.source, t);
        results := results + h;
      } else {
        assert results == p + h;
      }
      results := PushLengthIssues(c, entry.key, language, entry.source, t, results);
      assert results == p + h + LengthIssues(c, entry.key, language, entry.source, t);
    }

    /** The length checks of validateAll, pushing onto the issues found so far. */
    method PushLengthIssues(c: Checks, key: string, language: string, source: string, translation: string,
                            before: seq<ValidationResult>) returns (results: seq<ValidationResult>)
      ensures results == before + LengthIssues(c, key, language, source, translation)
    {
      results := before;
      if c.length && |translation| > c.maxLength {
        results := results + [ValidationResult(key, language, Length, Warning, TooLongMessage(|translation|, c.maxLength), source, Some(translation))];
      }
      if c.length && |translation| > |source| * 3 {
        results := results + [ValidationResult(key, language, Length, Info, OutOfProportionMessage(|source|, |translation|), source, Some(translation))];
      }
    }

    /** validateAll: per language, per entry; a language without entries adds nothing. */
    method ValidateAll(languages: seq<string>, options: Option<ValidateOptions>) returns (results: seq<ValidationResult>)
      ensures results == AllIssues(ChecksOf(options), load, languages)
    {
      var c := ChecksOf(options);
      ghost var lists := LanguageLists(c, load, languages);
      results := [];
      var i := 0;
      while i < |languages|
        invariant i <= |languages|
        invariant results == Flatten(lists[..i])
      {
        var language := languages[i];
        var entries := load(language);
        var issues := ValidateLanguage(c, language, entries);
        FlattenPrefixStep(lists, i);
        results := results + issues;
        i := i + 1;
      }
      assert lists[..i] == lists;
    }

    /** validateAll's inner loop over the entries of one language. */
    method ValidateLanguage(c: Checks, language: string, entries: seq<TranslationEntry>) returns (results: seq<ValidationResult>)
      ensures results == LanguageIssues(c, language, entries)
    {
      ghost var lists := EntryLists(c, language, entries);
      results := [];
      var j := 0;
      while j < |entries|
        invariant j <= |entries|
        invariant results == Flatten(lists[..j])
      {
        var issues := ValidateEntry(c, language, entries[j]);
        FlattenPrefixStep(lists, j);
        results := results + issues;
        j := j + 1;
      }
      assert lists[..j] == lists;
    }

    /** generateReport */
    method GenerateReport(results: seq<ValidationResult>) returns (report: ValidationReport)
      ensures report.total == |results|
      ensures report.errors == Count(Severities(results), Error)
      ensures report.warnings == Count(Severities(results), Warning)
      ensures report.infos == Count(Severities(results), Info)
      ensures report.errors + report.warnings + report.infos == report.total
      ensures Tally(report.byType, TypeNames(results)) && Sum(Values(report.byType)) == report.total
      ensures Tally(report.byLanguage, Languages(results)) && Sum(Values(report.byLanguage)) == report.total
    {
      ghost var sev, types, langs := Severities(results), TypeNames(results), Languages(results);
      var errors, warnings, infos := 0, 0, 0;
      var byType, byLanguage := EmptyMap(), EmptyMap();
      var i := 0;
      while i < |results|
        invariant i <= |results|
        invariant errors == SeverityCount(results, i, Error)
        invariant warnings == SeverityCount(results, i, Warning)
        invariant infos == SeverityCount(results, i, Info)
        invariant byType == TallyOf(types[..i]) && byLanguage == TallyOf(langs[..i])
      {
        var result := results[i];
        if result.severity == Error {
          errors := errors + 1;
        } else if result.severity == Warning {
          warnings := warnings + 1;
        } else if result.severity == Info {
          infos := infos + 1;
        }
        TallyOfPrefixStep(types, i);
        byType := Bump(byType, TypeName(result.kind));
        TallyOfPrefixStep(langs, i);
        byLanguage := Bump(byLanguage, result.language);
        i := i + 1;
      }
      assert sev[..i] == sev && types[..i] == types && langs[..i] == langs;
      SeverityCountIsCount(results, i, Error);
      SeverityCountIsCount(results, i, Warning);
      SeverityCountIsCount(results, i, Info);
      SeveritiesPartition(sev);
      TallyOfIsTally(types);
      TallyOfIsTally(langs);
      TallySum(byType, types);
      TallySum(byLanguage, langs);
      report := ValidationReport(|results|, errors, warnings, infos, byType, byLanguage);
    }
  }
}
