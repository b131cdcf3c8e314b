// The text extractor of src/core/extractor.ts: the key registry and the unique
// key it derives for a text, the namespace taken from a file path, the Babel
// visitors over an abstract script, the regex scan of a Vue template, the walk
// of a JSON document, and extractTexts over a list of files.
module Extractor {
  import opened Strings
  import opened Collections
  import opened PatternMatcher
  import opened Types
  import Placeholders

  // -------------------------------------------------------------- file paths

  predicate IsSep(c: char) {
    c == '/' || c == '\\'
  }

  /** filePath.split(/[/\\]/): the segments between separators, empty ones included. */
  function SplitPath(s: string): (r: seq<string>)
    ensures |r| >= 1
    ensures forall i :: 0 <= i < |r| ==> forall k :: 0 <= k < |r[i]| ==> !IsSep(r[i][k])
  {
    if s == [] then [[]]
    else
      var rest := SplitPath(s[1..]);
      if IsSep(s[0]) then [[]] + rest else [[s[0]] + rest[0]] + rest[1..]
  }

  /** The path with every backslash written as a slash. */
  function Slashed(s: string): (r: string)
    ensures |r| == |s|
  {
    if s == [] then [] else [if IsSep(s[0]) then '/' else s[0]] + Slashed(s[1..])
  }

  /** Joining the segments with `/` gives the path back, separators normalised. */
  lemma {:induction false} SplitPathJoin(s: string)
    ensures JoinWith(SplitPath(s), "/") == Slashed(s)
  {
    if s != [] {
      var rest := SplitPath(s[1..]);
      SplitPathJoin(s[1..]);
      if IsSep(s[0]) {
        JoinAfterEmpty(rest, "/");
      } else {
        assert rest == [rest[0]] + rest[1..];
        JoinHead(s[0], rest[0], rest[1..], "/");
      }
    }
  }

  lemma JoinAfterEmpty(xs: seq<string>, sep: string)
    requires xs != []
    ensures JoinWith([[]] + xs, sep) == sep + JoinWith(xs, sep)
  {
    assert ([[]] + xs)[1..] == xs;
  }

  lemma JoinHead(c: char, x: string, xs: seq<string>, sep: string)
    ensures JoinWith([[c] + x] + xs, sep) == [c] + JoinWith([x] + xs, sep)
  {
    if xs != [] {
      assert ([[c] + x] + xs)[1..] == xs == ([x] + xs)[1..];
    }
  }

  /** Array.prototype.indexOf: the first index holding `x`, or -1. */
  function IndexOf(s: seq<string>, x: string): (r: int)
    ensures -1 <= r < |s|
    ensures r >= 0 ==> s[r] == x && forall i :: 0 <= i < r ==> s[i] != x
    ensures r == -1 ==> forall i :: 0 <= i < |s| ==> s[i] != x
  {
    if s == [] then -1
    else if s[0] == x then 0
    else
      var j := IndexOf(s[1..], x);
      if j == -1 then -1 else j + 1
  }

  /** Segment `i` is the first `src` segment, and another segment follows it. */
  predicate FirstSrcAt(parts: seq<string>, i: int) {
    0 <= i < |parts| - 1 && parts[i] == "src" && forall j :: 0 <= j < i ==> parts[j] != "src"
  }

  /** No segment but the last is `src`. */
  predicate NoInnerSrc(parts: seq<string>) {
    forall i :: 0 <= i < |parts| - 1 ==> parts[i] != "src"
  }

  /**
   * extractNamespace: with splitByNamespace set, the segment after the first `src`
   * segment; undefined when the option is off, when there is no `src` segment, or
   * when the first one is the last segment.
   */
  function ExtractNamespace(splitByNamespace: bool, filePath: string): (r: Option<string>)
    ensures !splitByNamespace ==> r.None?
    ensures r.Some? ==> exists i :: FirstSrcAt(SplitPath(filePath), i) && r.value == SplitPath(filePath)[i + 1]
    ensures splitByNamespace ==> (r.None? <==> NoInnerSrc(SplitPath(filePath)))
  {
    if !splitByNamespace then None
    else
      var parts := SplitPath(filePath);
      var srcIndex := IndexOf(parts, "src");
      if 0 <= srcIndex < |parts| - 1 then
        assert FirstSrcAt(parts, srcIndex);
        Some(parts[srcIndex + 1])
      else None
  }

  /** The namespace never holds a separator. */
  lemma NamespaceIsOneSegment(splitByNamespace: bool, filePath: string)
    requires ExtractNamespace(splitByNamespace, filePath).Some?
    ensures var ns := ExtractNamespace(splitByNamespace, filePath).value;
      forall k :: 0 <= k < |ns| ==> !IsSep(ns[k])
  {
    var parts := SplitPath(filePath);
    var i :| FirstSrcAt(parts, i) && ExtractNamespace(splitByNamespace, filePath).value == parts[i + 1];
  }

  /** path.extname(filePath).toLowerCase(): from the last `.` of the last segment, if not its first character. */
  function Extension(filePath: string): (r: string)
    ensures r == [] || r[0] == '.'
  {
    var base := LastSegment(filePath);
    var dot := LastDot(base, |base|);
    if dot <= 0 then [] else Lower(base[dot..])
  }

  function LastSegment(s: string): (r: string)
    ensures forall k :: 0 <= k < |r| ==> r[k] != '/'
  {
    if s == [] then []
    else if s[|s| - 1] == '/' then []
    else LastSegment(s[..|s| - 1]) + [s[|s| - 1]]
  }

  /** The index of the last `.` before `n`, or -1. */
  function LastDot(s: string, n: nat): (r: int)
    requires n <= |s|
    ensures -1 <= r < n && (r >= 0 ==> s[r] == '.')
  {
    if n == 0 then -1 else if s[n - 1] == '.' then n - 1 else LastDot(s, n - 1)
  }

  predicate IsScriptExtension(ext: string) {
    ext == ".js" || ext == ".jsx" || ext == ".ts" || ext == ".tsx"
  }

  // -------------------------------------------------------------- unique keys

  /** The configuration that key derivation reads; `md5Hex` is the MD5 digest in hex. */
  datatype KeyConfig = KeyConfig(splitByNamespace: bool, md5Hex: string -> string)

  /** The key registry: extracted texts by key, in insertion order. */
  type Registry = OMap<string, ExtractedText>

  /** generateHashKey(text, extractNamespace(filePath)) */
  function BaseKey(cfg: KeyConfig, text: string, filePath: string): string {
    GenerateHashKey(text, ExtractNamespace(cfg.splitByNamespace, filePath), cfg.md5Hex)
  }

  /** A key may be used for `text` when it is unbound or already bound to that same text. */
  predicate Free(reg: Registry, key: string, text: string) {
    key !in reg.entries || reg.entries[key].text == text
  }

  /** The keys tried in turn: the base key, then `base_1`, `base_2`, ... */
  function Candidate(base: string, n: nat): (r: string)
    ensures n > 0 ==> |r| > |base| + 1
  {
    if n == 0 then base else base + "_" + NatToString(n)
  }

  lemma CandidateInjective(base: string, m: nat, n: nat)
    requires Candidate(base, m) == Candidate(base, n)
    ensures m == n
  {
    if m > 0 && n > 0 {
      var c := Candidate(base, m);
      assert c[|base| + 1..] == NatToString(m);
      assert Candidate(base, n)[|base| + 1..] == NatToString(n);
      NatToStringInjective(m, n);
    }
  }

  /** The candidates before the n-th. */
  ghost function Tried(base: string, n: nat): set<string> {
    if n == 0 then {} else Tried(base, n - 1) + {Candidate(base, n - 1)}
  }

  lemma {:induction false} NotYetTried(base: string, n: nat, k: nat)
    requires n <= k
    ensures Candidate(base, k) !in Tried(base, n)
  {
    if n > 0 {
      NotYetTried(base, n - 1, k);
      if Candidate(base, k) == Candidate(base, n - 1) {
        CandidateInjective(base, k, n - 1);
      }
    }
  }

  lemma {:induction false} TriedSize(base: string, n: nat)
    ensures |Tried(base, n)| == n
  {
    if n > 0 {
      TriedSize(base, n - 1);
      NotYetTried(base, n - 1, n - 1);
    }
  }

  lemma {:induction false} SubsetSize<T>(a: set<T>, b: set<T>)
    requires a <= b
    ensures |a| <= |b|
    decreases |a|
  {
    if a != {} {
      var x :| x in a;
      SubsetSize(a - {x}, b - {x});
    }
  }

  /** Every candidate before the n-th is bound, so there are at least n bound keys. */
  lemma TriedBound(reg: Registry, base: string, n: nat)
    requires Tried(base, n) <= reg.entries.Keys
    ensures n <= |reg.entries|
  {
    TriedSize(base, n);
    SubsetSize(Tried(base, n), reg.entries.Keys);
  }

  /** The first free candidate from the n-th on. */
  function KeyFrom(reg: Registry, base: string, text: string, n: nat): string
    requires Tried(base, n) <= reg.entries.Keys
    decreases |reg.entries| - n
  {
    var c := Candidate(base, n);
    if Free(reg, c, text) then c
    else
      TriedBound(reg, base, n + 1);
      KeyFrom(reg, base, text, n + 1)
  }

  /** generateUniqueKey's result: the first free candidate. */
  function UniqueKey(reg: Registry, base: string, text: string): string {
    KeyFrom(reg, base, text, 0)
  }

  /** The n-th candidate is the first one free for `text`. */
  predicate FirstFree(reg: Registry, base: string, text: string, n: nat) {
    Free(reg, Candidate(base, n), text) && forall m :: 0 <= m < n ==> !Free(reg, Candidate(base, m), text)
  }

  lemma {:induction false} KeyFromFirstFree(reg: Registry, base: string, text: string, n: nat)
    requires Tried(base, n) <= reg.entries.Keys
    requires forall m :: 0 <= m < n ==> !Free(reg, Candidate(base, m), text)
    ensures exists k: nat :: n <= k <= |reg.entries| && KeyFrom(reg, base, text, n) == Candidate(base, k) && FirstFree(reg, base, text, k)
    decreases |reg.entries| - n
  {
    TriedBound(reg, base, n);
    if !Free(reg, Candidate(base, n), text) {
      TriedBound(reg, base, n + 1);
      KeyFromFirstFree(reg, base, text, n + 1);
    }
  }

  /**
   * The unique key is the first candidate free for the text, found among the first
   * |registry| + 1 candidates; it is the base key exactly when the base key is free.
   */
  lemma UniqueKeyIsFirstFree(reg: Registry, base: string, text: string)
    ensures exists n: nat :: n <= |reg.entries| && UniqueKey(reg, base, text) == Candidate(base, n) && FirstFree(reg, base, text, n)
    ensures Free(reg, UniqueKey(reg, base, text), text)
    ensures UniqueKey(reg, base, text) == base <==> Free(reg, base, text)
  {
    KeyFromFirstFree(reg, base, text, 0);
    var n: nat :| n <= |reg.entries| && UniqueKey(reg, base, text) == Candidate(base, n) && FirstFree(reg, base, text, n);
    if n > 0 {
      assert |Candidate(base, n)| > |base|;
    }
  }

  lemma UniqueKeyFree(reg: Registry, base: string, text: string)
    ensures Free(reg, UniqueKey(reg, base, text), text)
  {
    UniqueKeyIsFirstFree(reg, base, text);
  }

  /** Two texts with the same base key that is bound to neither share the key. */
  lemma CollidingTextsShareKey(reg: Registry, base: string, t1: string, t2: string)
    requires base !in reg.entries
    ensures UniqueKey(reg, base, t1) == UniqueKey(reg, base, t2) == base
  {
  }

  // ------------------------------------------------------------------- spans

  /** A span for `text` in `file`, keyed against the registry as it stands. */
  function Span(cfg: KeyConfig, reg: Registry, file: string, text: string,
                line: Option<nat>, column: Option<nat>, context: Option<string>): ExtractedText {
    ExtractedText(UniqueKey(reg, BaseKey(cfg, text, file), text), text, file, line, column, context)
  }

  /** What every visitor guarantees: a trimmed text holding Chinese, keyed by a key free for it. */
  predicate SpanOk(reg: Registry, file: string, x: ExtractedText) {
    x.file == file && HasChinese(x.text) && Trim(x.text) == x.text && Free(reg, x.key, x.text)
  }

  predicate AllSpansOk(reg: Registry, file: string, xs: seq<ExtractedText>) {
    forall i :: 0 <= i < |xs| ==> SpanOk(reg, file, xs[i])
  }

  function LineOf(loc: Option<Loc>): Option<nat> {
    if loc.Some? then Some(loc.value.line) else None
  }

  function ColumnOf(loc: Option<Loc>): Option<nat> {
    if loc.Some? then Some(loc.value.column) else None
  }

  /** extractChineseFromString(value) made a span: the trimmed value, when it holds Chinese. */
  function ChineseSpan(cfg: KeyConfig, reg: Registry, file: string, value: string,
                       line: Option<nat>, column: Option<nat>, context: Option<string>): (r: seq<ExtractedText>)
    ensures |r| <= 1 && (r != [] <==> HasChinese(value)) && AllSpansOk(reg, file, r)
    ensures forall k :: 0 <= k < |r| ==> r[k].line == line && r[k].column == column && r[k].context == context
  {
    var chinese := ExtractChineseFromString(value);
    if chinese.Some? then
      UniqueKeyFree(reg, BaseKey(cfg, chinese.value, file), chinese.value);
      [Span(cfg, reg, file, chinese.value, line, column, context)]
    else []
  }

  /** The StringLiteral visitor. */
  function LiteralSpans(cfg: KeyConfig, reg: Registry, file: string, value: string, loc: Option<Loc>): (r: seq<ExtractedText>)
    ensures AllSpansOk(reg, file, r)
    ensures |r| <= 1 && (r != [] <==> HasChinese(value))
  {
    ChineseSpan(cfg, reg, file, value, LineOf(loc), ColumnOf(loc), None)
  }

  /** The TemplateLiteral visitor: one span per static chunk holding Chinese. */
  function QuasiSpans(cfg: KeyConfig, reg: Registry, file: string, qs: seq<Quasi>): (r: seq<ExtractedText>)
    ensures AllSpansOk(reg, file, r)
  {
    if qs == [] then []
    else QuasiSpans(cfg, reg, file, qs[..|qs| - 1]) + LiteralSpans(cfg, reg, file, qs[|qs| - 1].raw, qs[|qs| - 1].loc)
  }

  /** The number of static chunks holding Chinese. */
  function ChineseChunks(qs: seq<Quasi>): nat {
    if qs == [] then 0 else ChineseChunks(qs[..|qs| - 1]) + (if HasChinese(qs[|qs| - 1].raw) then 1 else 0)
  }

  lemma {:induction false} QuasiSpansCount(cfg: KeyConfig, reg: Registry, file: string, qs: seq<Quasi>)
    ensures |QuasiSpans(cfg, reg, file, qs)| == ChineseChunks(qs)
  {
    if qs != [] {
      QuasiSpansCount(cfg, reg, file, qs[..|qs| - 1]);
    }
  }

  /**
   * The visitors on one node.  JSXText is trimmed and kept when it holds Chinese.
   * A JSX attribute whose value is a string literal is seen twice: by the
   * JSXAttribute visitor, at the attribute's position, and by the StringLiteral
   * visitor when the traversal enters the value.
   */
  function NodeSpans(cfg: KeyConfig, reg: Registry, file: string, node: JsNode): (r: seq<ExtractedText>)
    ensures AllSpansOk(reg, file, r)
  {
    match node
    case StringLit(value, loc) => LiteralSpans(cfg, reg, file, value, loc)
    case TemplateLit(qs) => QuasiSpans(cfg, reg, file, qs)
    case JsxText(value, loc) =>
      var text := Trim(value);
      if HasChinese(text) then
        UniqueKeyFree(reg, BaseKey(cfg, text, file), text);
        TrimIdempotent(value);
        [Span(cfg, reg, file, text, LineOf(loc), ColumnOf(loc), None)]
      else []
    case JsxAttr(literal, loc, literalLoc) =>
      if literal.Some? then
        LiteralSpans(cfg, reg, file, literal.value, loc) + LiteralSpans(cfg, reg, file, literal.value, literalLoc)
      else []
    case ImportDecl(_) => []
  }

  /** extractFromJavaScript: the spans of every node in traversal order; none when the parse fails. */
  function ScriptSpans(cfg: KeyConfig, reg: Registry, file: string, nodes: seq<JsNode>): (r: seq<ExtractedText>)
    ensures AllSpansOk(reg, file, r)
  {
    if nodes == [] then []
    else ScriptSpans(cfg, reg, file, nodes[..|nodes| - 1]) + NodeSpans(cfg, reg, file, nodes[|nodes| - 1])
  }

  // ---------------------------------------------------------- Vue templates

  /** `>([^<]+)<` tried at `i`: the captured text, when the pattern matches there. */
  function TextMatchAt(s: string, i: nat): (r: Option<string>)
    requires i < |s|
    ensures r.Some? ==> var g := r.value;
      i + |g| + 1 < |s| && s[i] == '>' && s[i + |g| + 1] == '<' && g == s[i + 1..i + |g| + 1] && g != [] &&
      forall k :: 0 <= k < |g| ==> g[k] != '<'
  {
    if s[i] != '>' then None
    else
      var j := Placeholders.FindFrom(s, i + 1, '<');
      if i + 1 < j < |s| then Some(s[i + 1..j]) else None
  }

  /** `="([^"]+)"|='([^']+)'` tried at `i`: the captured value, when one alternative matches there. */
  function AttrMatchAt(s: string, i: nat): (r: Option<string>)
    requires i < |s|
    ensures r.Some? ==> var g := r.value;
      i + |g| + 2 < |s| && s[i] == '=' && (s[i + 1] == '"' || s[i + 1] == '\'') && s[i + |g| + 2] == s[i + 1] &&
      g == s[i + 2..i + |g| + 2] && g != [] && forall k :: 0 <= k < |g| ==> g[k] != s[i + 1]
  {
    if s[i] != '=' || i + 1 == |s| || (s[i + 1] != '"' && s[i + 1] != '\'') then None
    else
      var j := Placeholders.FindFrom(s, i + 2, s[i + 1]);
      if i + 2 < j < |s| then Some(s[i + 2..j]) else None
  }

  /** The successive matches of the global `>([^<]+)<` from `i` on: index and captured text. */
  function TextMatches(s: string, i: nat): (r: seq<(nat, string)>)
    requires i <= |s|
    ensures forall k :: 0 <= k < |r| ==> i <= r[k].0 < |s| && TextMatchAt(s, r[k].0) == Some(r[k].1)
    ensures forall k :: 0 <= k < |r| - 1 ==> r[k].0 + |r[k].1| + 2 <= r[k + 1].0
    decreases |s| - i
  {
    if i == |s| then []
    else
      var m := TextMatchAt(s, i);
      if m.Some? then [(i, m.value)] + TextMatches(s, i + |m.value| + 2) else TextMatches(s, i + 1)
  }

  /** The successive matches of the global attribute pattern from `i` on. */
  function AttrMatches(s: string, i: nat): (r: seq<(nat, string)>)
    requires i <= |s|
    ensures forall k :: 0 <= k < |r| ==> i <= r[k].0 < |s| && AttrMatchAt(s, r[k].0) == Some(r[k].1)
    ensures forall k :: 0 <= k < |r| - 1 ==> r[k].0 + |r[k].1| + 3 <= r[k + 1].0
    decreases |s| - i
  {
    if i == |s| then []
    else
      var m := AttrMatchAt(s, i);
      if m.Some? then [(i, m.value)] + AttrMatches(s, i + |m.value| + 3) else AttrMatches(s, i + 1)
  }

  /** The template's line of a match: the block's first line plus the newlines before the match. */
  function LineAt(content: string, offset: nat, index: nat): nat
    requires index <= |content|
  {
    offset + Count(content[..index], '\n')
  }

  lemma LineWithinTemplate(content: string, offset: nat, index: nat)
    requires index <= |content|
    ensures offset <= LineAt(content, offset, index) <= offset + Count(content, '\n')
  {
    assert content == content[..index] + content[index..];
    assert multiset(content) == multiset(content[..index]) + multiset(content[index..]);
  }

  predicate MatchesIn(content: string, ms: seq<(nat, string)>) {
    forall k :: 0 <= k < |ms| ==> ms[k].0 < |content|
  }

  /** A template span has a line, and neither a column nor a context. */
  predicate TemplateSpansOk(reg: Registry, file: string, xs: seq<ExtractedText>) {
    forall k :: 0 <= k < |xs| ==> SpanOk(reg, file, xs[k]) && xs[k].line.Some? && xs[k].column.None? && xs[k].context.None?
  }

  lemma TemplateSpansAppend(reg: Registry, file: string, a: seq<ExtractedText>, b: seq<ExtractedText>)
    requires TemplateSpansOk(reg, file, a) && TemplateSpansOk(reg, file, b)
    ensures TemplateSpansOk(reg, file, a + b)
  {
    forall k | 0 <= k < |a + b|
      ensures SpanOk(reg, file, (a + b)[k]) && (a + b)[k].line.Some? && (a + b)[k].column.None? && (a + b)[k].context.None?
    {
      if k < |a| {
        assert (a + b)[k] == a[k];
      } else {
        assert (a + b)[k] == b[k - |a|];
      }
    }
  }

  /** The span of one text match: the trimmed capture, when it holds Chinese. */
  function TextSpan(cfg: KeyConfig, reg: Registry, file: string, content: string, offset: nat,
                    m: (nat, string)): (r: seq<ExtractedText>)
    requires m.0 < |content|
    ensures |r| <= 1 && TemplateSpansOk(reg, file, r)
  {
    var text := Trim(m.1);
    if HasChinese(text) then
      UniqueKeyFree(reg, BaseKey(cfg, text, file), text);
      TrimIdempotent(m.1);
      [Span(cfg, reg, file, text, Some(LineAt(content, offset, m.0)), None, None)]
    else []
  }

  /** The span of one attribute match: extractChineseFromString of the trimmed capture. */
  function AttrSpan(cfg: KeyConfig, reg: Registry, file: string, content: string, offset: nat,
                    m: (nat, string)): (r: seq<ExtractedText>)
    requires m.0 < |content|
    ensures |r| <= 1 && TemplateSpansOk(reg, file, r)
  {
    ChineseSpan(cfg, reg, file, Trim(m.1), Some(LineAt(content, offset, m.0)), None, None)
  }

  /** The spans of the first `n` text matches. */
  function TextSpans(cfg: KeyConfig, reg: Registry, file: string, content: string, offset: nat,
                     ms: seq<(nat, string)>, n: nat): (r: seq<ExtractedText>)
    requires MatchesIn(content, ms) && n <= |ms|
    ensures TemplateSpansOk(reg, file, r)
  {
    if n == 0 then []
    else
      var prev := TextSpans(cfg, reg, file, content, offset, ms, n - 1);
      var last := TextSpan(cfg, reg, file, content, offset, ms[n - 1]);
      TemplateSpansAppend(reg, file, prev, last);
      prev + last
  }

  /** The spans of the first `n` attribute matches. */
  function AttrSpans(cfg: KeyConfig, reg: Registry, file: string, content: string, offset: nat,
                     ms: seq<(nat, string)>, n: nat): (r: seq<ExtractedText>)
    requires MatchesIn(content, ms) && n <= |ms|
    ensures TemplateSpansOk(reg, file, r)
  {
    if n == 0 then []
    else
      var prev := AttrSpans(cfg, reg, file, content, offset, ms, n - 1);
      var last := AttrSpan(cfg, reg, file, content, offset, ms[n - 1]);
      TemplateSpansAppend(reg, file, prev, last);
      prev + last
  }

  /** extractFromVueTemplate: the text matches first, then the attribute matches. */
  function TemplateSpans(cfg: KeyConfig, reg: Registry, file: string, content: string, offset: nat): (r: seq<ExtractedText>)
    ensures AllSpansOk(reg, file, r)
  {
    var texts := TextMatches(content, 0);
    var attrs := AttrMatches(content, 0);
    TextSpans(cfg, reg, file, content, offset, texts, |texts|) + AttrSpans(cfg, reg, file, content, offset, attrs, |attrs|)
  }

  // -------------------------------------------------------------------- JSON

  function IndexSegment(i: nat): string {
    "[" + NatToString(i) + "]"
  }

  /**
   * traverseJSON's walk: string leaves in document order, array items under the
   * segment `[i]`, object members under their name; `leaf` says what a string leaf
   * at a path contributes.
   */
  function Walk<T>(leaf: (string, seq<string>) -> seq<T>, j: Json, path: seq<string>): seq<T>
    decreases j, 1
  {
    match j
    case JString(s) => leaf(s, path)
    case JArray(items) => WalkItems(leaf, j, path, |items|)
    case JObject(members) => WalkMembers(leaf, j, path, |members|)
    case JOther => []
  }

  function WalkItems<T>(leaf: (string, seq<string>) -> seq<T>, j: Json, path: seq<string>, n: nat): seq<T>
    requires j.JArray? && n <= |j.items|
    decreases j, 0, n
  {
    if n == 0 then [] else WalkItems(leaf, j, path, n - 1) + Walk(leaf, j.items[n - 1], path + [IndexSegment(n - 1)])
  }

  function WalkMembers<T>(leaf: (string, seq<string>) -> seq<T>, j: Json, path: seq<string>, n: nat): seq<T>
    requires j.JObject? && n <= |j.members|
    decreases j, 0, n
  {
    if n == 0 then []
    else WalkMembers(leaf, j, path, n - 1) + Walk(leaf, j.members[n - 1].value, path + [j.members[n - 1].name])
  }

  lemma AppendAssoc<T>(a: seq<T>, b: seq<T>, c: seq<T>)
    ensures a + b + c == a + (b + c)
  {
  }

  /** The string leaves of a JSON value in document order, each with its path. */
  function Leaves(j: Json, path: seq<string>): seq<(string, seq<string>)>
    decreases j, 1
  {
    match j
    case JString(s) => [(s, path)]
    case JArray(items) => ItemLeaves(j, path, |items|)
    case JObject(members) => MemberLeaves(j, path, |members|)
    case JOther => []
  }

  function ItemLeaves(j: Json, path: seq<string>, n: nat): seq<(string, seq<string>)>
    requires j.JArray? && n <= |j.items|
    decreases j, 0, n
  {
    if n == 0 then [] else ItemLeaves(j, path, n - 1) + Leaves(j.items[n - 1], path + [IndexSegment(n - 1)])
  }

  function MemberLeaves(j: Json, path: seq<string>, n: nat): seq<(string, seq<string>)>
    requires j.JObject? && n <= |j.members|
    decreases j, 0, n
  {
    if n == 0 then []
    else MemberLeaves(j, path, n - 1) + Leaves(j.members[n - 1].value, path + [j.members[n - 1].name])
  }

  /** What the leaves contribute, one after the other. */
  function Concat<T>(leaf: (string, seq<string>) -> seq<T>, ls: seq<(string, seq<string>)>): seq<T> {
    if ls == [] then []
    else
      var l := ls[|ls| - 1];
      Concat(leaf, ls[..|ls| - 1]) + leaf(l.0, l.1)
  }

  lemma {:induction false} ConcatAppend<T>(leaf: (string, seq<string>) -> seq<T>, a: seq<(string, seq<string>)>, b: seq<(string, seq<string>)>)
    ensures Concat(leaf, a + b) == Concat(leaf, a) + Concat(leaf, b)
    decreases |b|
  {
    if b == [] {
      assert a + b == a;
    } else {
      assert (a + b)[..|a + b| - 1] == a + b[..|b| - 1];
      ConcatAppend(leaf, a, b[..|b| - 1]);
    }
  }

  /** The walk visits exactly the string leaves, in document order. */
  lemma {:induction false} WalkIsConcat<T>(leaf: (string, seq<string>) -> seq<T>, j: Json, path: seq<string>)
    ensures Walk(leaf, j, path) == Concat(leaf, Leaves(j, path))
    decreases j, 1
  {
    match j
    case JString(s) =>
      assert [(s, path)][..0] == [];
    case JArray(items) => WalkItemsIsConcat(leaf, j, path, |items|);
    case JObject(members) => WalkMembersIsConcat(leaf, j, path, |members|);
    case JOther =>
  }

  lemma {:induction false} WalkItemsIsConcat<T>(leaf: (string, seq<string>) -> seq<T>, j: Json, path: seq<string>, n: nat)
    requires j.JArray? && n <= |j.items|
    ensures WalkItems(leaf, j, path, n) == Concat(leaf, ItemLeaves(j, path, n))
    decreases j, 0, n
  {
    if n > 0 {
      var p := path + [IndexSegment(n - 1)];
      WalkItemsIsConcat(leaf, j, path, n - 1);
      WalkIsConcat(leaf, j.items[n - 1], p);
      ConcatAppend(leaf, ItemLeaves(j, path, n - 1), Leaves(j.items[n - 1], p));
    }
  }

  lemma {:induction false} WalkMembersIsConcat<T>(leaf: (string, seq<string>) -> seq<T>, j: Json, path: seq<string>, n: nat)
    requires j.JObject? && n <= |j.members|
    ensures WalkMembers(leaf, j, path, n) == Concat(leaf, MemberLeaves(j, path, n))
    decreases j, 0, n
  {
    if n > 0 {
      var m := j.members[n - 1];
      WalkMembersIsConcat(leaf, j, path, n - 1);
      WalkIsConcat(leaf, m.value, path + [m.name]);
      ConcatAppend(leaf, MemberLeaves(j, path, n - 1), Leaves(m.value, path + [m.name]));
    }
  }

  /** A string leaf's span: its Chinese, with the path joined with `.` as context. */
  function LeafSpan(cfg: KeyConfig, reg: Registry, file: string): (string, seq<string>) -> seq<ExtractedText> {
    (s: string, path: seq<string>) => ChineseSpan(cfg, reg, file, s, None, None, Some(JoinWith(path, ".")))
  }

  /** `leaf` gives a string leaf's span. */
  ghost predicate IsLeafSpan(leaf: (string, seq<string>) -> seq<ExtractedText>, cfg: KeyConfig, reg: Registry, file: string) {
    forall s, path :: leaf(s, path) == ChineseSpan(cfg, reg, file, s, None, None, Some(JoinWith(path, ".")))
  }

  lemma LeafSpanIsLeafSpan(cfg: KeyConfig, reg: Registry, file: string)
    ensures IsLeafSpan(LeafSpan(cfg, reg, file), cfg, reg, file)
  {
  }

  /** Leaves holding Chinese each give one well-formed span. */
  lemma {:induction false} LeafSpansOk(cfg: KeyConfig, reg: Registry, file: string, ls: seq<(string, seq<string>)>)
    ensures var r := Concat(LeafSpan(cfg, reg, file), ls);
      AllSpansOk(reg, file, r) && |r| == |ChineseLeaves(ls)|
  {
    if ls != [] {
      var l := ls[|ls| - 1];
      LeafSpansOk(cfg, reg, file, ls[..|ls| - 1]);
      var a := Concat(LeafSpan(cfg, reg, file), ls[..|ls| - 1]);
      var b := ChineseSpan(cfg, reg, file, l.0, None, None, Some(JoinWith(l.1, ".")));
      assert Concat(LeafSpan(cfg, reg, file), ls) == a + b;
      assert forall i :: 0 <= i < |a + b| ==> (a + b)[i] == if i < |a| then a[i] else b[i - |a|];
    }
  }

  /** The leaves whose value holds Chinese. */
  function ChineseLeaves(ls: seq<(string, seq<string>)>): seq<(string, seq<string>)> {
    if ls == [] then []
    else
      var l := ls[|ls| - 1];
      ChineseLeaves(ls[..|ls| - 1]) + if HasChinese(l.0) then [l] else []
  }

  /** traverseJSON: a span for each string leaf holding Chinese, in document order. */
  function JsonSpans(cfg: KeyConfig, reg: Registry, file: string, j: Json, path: seq<string>): (r: seq<ExtractedText>)
    ensures AllSpansOk(reg, file, r)
    ensures |r| == |ChineseLeaves(Leaves(j, path))|
  {
    WalkIsConcat(LeafSpan(cfg, reg, file), j, path);
    LeafSpansOk(cfg, reg, file, Leaves(j, path));
    Walk(LeafSpan(cfg, reg, file), j, path)
  }

  // ------------------------------------------------------------------- files

  /** A script block of a Vue component: its spans, none when it is absent or does not parse. */
  function BlockSpans(cfg: KeyConfig, reg: Registry, file: string, b: Option<SfcBlock>): (r: seq<ExtractedText>)
    ensures AllSpansOk(reg, file, r)
  {
    if b.Some? && b.value.script.Some? then ScriptSpans(cfg, reg, file, b.value.script.value) else []
  }

  /** extractFromVue: the template's spans, then the script's, then the setup script's. */
  function VueSpans(cfg: KeyConfig, reg: Registry, file: string, d: SfcDescriptor): (r: seq<ExtractedText>)
    ensures AllSpansOk(reg, file, r)
  {
    var template := if d.template.Some? then TemplateSpans(cfg, reg, file, d.template.value.content, d.template.value.startLine) else [];
    template + BlockSpans(cfg, reg, file, d.script) + BlockSpans(cfg, reg, file, d.scriptSetup)
  }

  predicate IsSupported(ext: string) {
    IsScriptExtension(ext) || ext == ".vue" || ext == ".json"
  }

  /**
   * extractFromFile on a readable file: by extension, the script, component or
   * JSON extraction; nothing for a parse failure or an unsupported extension.
   */
  function FileSpans(cfg: KeyConfig, reg: Registry, f: SourceFile): (r: seq<ExtractedText>)
    ensures AllSpansOk(reg, f.path, r)
    ensures !IsSupported(Extension(f.path)) ==> r == []
  {
    var ext := Extension(f.path);
    if IsScriptExtension(ext) then
      if f.parsed.script.Some? then ScriptSpans(cfg, reg, f.path, f.parsed.script.value) else []
    else if ext == ".vue" then
      if f.parsed.sfc.Some? then VueSpans(cfg, reg, f.path, f.parsed.sfc.value) else []
    else if ext == ".json" then
      if f.parsed.json.Some? then JsonSpans(cfg, reg, f.path, f.parsed.json.value, []) else []
    else []
  }

  // ---------------------------------------------------------------- registry

  /** The registry's invariant: every text is stored under its own key. */
  ghost predicate Keyed(reg: Registry) {
    ValidMap(reg) && forall k :: k in reg.entries ==> reg.entries[k].key == k
  }

  /** addExtractedText for each text in turn (Map.prototype.set by key). */
  function AddTexts(reg: Registry, ts: seq<ExtractedText>): (r: Registry)
    ensures ValidMap(reg) ==> ValidMap(r)
  {
    if ts == [] then reg
    else
      var t := ts[|ts| - 1];
      Put(AddTexts(reg, ts[..|ts| - 1]), t.key, t)
  }

  lemma {:induction false} AddTextsKeyed(reg: Registry, ts: seq<ExtractedText>)
    requires Keyed(reg)
    ensures Keyed(AddTexts(reg, ts))
  {
    if ts != [] {
      AddTextsKeyed(reg, ts[..|ts| - 1]);
    }
  }

  /** A key ends up bound to the last text added under it. */
  lemma {:induction false} AddTextsLast(reg: Registry, ts: seq<ExtractedText>, i: nat)
    requires i < |ts| && forall j :: i < j < |ts| ==> ts[j].key != ts[i].key
    ensures ts[i].key in AddTexts(reg, ts).entries && AddTexts(reg, ts).entries[ts[i].key] == ts[i]
  {
    if i < |ts| - 1 {
      AddTextsLast(reg, ts[..|ts| - 1], i);
    }
  }

  /** Keys no added text carries keep their binding. */
  lemma {:induction false} AddTextsOthers(reg: Registry, ts: seq<ExtractedText>, key: string)
    requires forall j :: 0 <= j < |ts| ==> ts[j].key != key
    ensures key in AddTexts(reg, ts).entries <==> key in reg.entries
    ensures key in reg.entries ==> AddTexts(reg, ts).entries[key] == reg.entries[key]
  {
    if ts != [] {
      AddTextsOthers(reg, ts[..|ts| - 1], key);
    }
  }

  /**
   * extractTexts: each readable file is extracted against the registry built from
   * the files before it, and its spans are then added in order; an unreadable file
   * is skipped.
   */
  function Catalog(cfg: KeyConfig, files: seq<SourceFile>): (r: Registry)
    ensures Keyed(r)
  {
    if files == [] then EmptyMap()
    else
      var prev := Catalog(cfg, files[..|files| - 1]);
      var f := files[|files| - 1];
      if f.content.Some? then
        AddTextsKeyed(prev, FileSpans(cfg, prev, f));
        AddTexts(prev, FileSpans(cfg, prev, f))
      else prev
  }

  /** The catalog lists every key once. */
  lemma CatalogKeysUnique(cfg: KeyConfig, files: seq<SourceFile>)
    ensures var ts := Values(Catalog(cfg, files));
      forall i, j :: 0 <= i < j < |ts| ==> ts[i].key != ts[j].key
  {
    var reg := Catalog(cfg, files);
    KeysInEntries(reg);
  }

  // --------------------------------------------------------------- extractor

  /** TextExtractor: the key registry and the per-format extraction passes. */
  class TextExtractor {
    const cfg: KeyConfig
    var extractedTexts: Registry

    ghost predicate Valid()
      reads this
    {
      Keyed(extractedTexts)
    }

    constructor(cfg: KeyConfig)
      ensures Valid() && this.cfg == cfg && extractedTexts == EmptyMap()
    {
      this.cfg := cfg;
      extractedTexts := EmptyMap();
    }

    /**
     * generateUniqueKey: the hash key, then `key_1`, `key_2`, ... until a key is
     * unbound or bound to this same text.
     */
    method GenerateUniqueKey(text: string, filePath: string) returns (key: string)
      ensures key == UniqueKey(extractedTexts, BaseKey(cfg, text, filePath), text)
    {
      var namespace := ExtractNamespace(cfg.splitByNamespace, filePath);
      key := GenerateHashKey(text, namespace, cfg.md5Hex);
      var counter: nat := 1;
      var originalKey := key;
      while key in extractedTexts.entries
        invariant key == Candidate(originalKey, counter - 1)
        invariant Tried(originalKey, counter - 1) <= extractedTexts.entries.Keys
        invariant counter - 1 <= |extractedTexts.entries|
        invariant KeyFrom(extractedTexts, originalKey, text, counter - 1) == UniqueKey(extractedTexts, originalKey, text)
        decreases |extractedTexts.entries| - (counter - 1)
      {
        var existingText := extractedTexts.entries[key];
        if existingText.text == text {
          break;
        }
        TriedBound(extractedTexts, originalKey, counter);
        key := originalKey + "_" + NatToString(counter);
        counter := counter + 1;
      }
    }

    /** One node's visitors, each text keyed against the registry. */
    method VisitNode(filePath: string, node: JsNode) returns (results: seq<ExtractedText>)
      ensures results == NodeSpans(cfg, extractedTexts, filePath, node)
    {
      results := [];
      match node
      case StringLit(value, loc) =>
        results := VisitLiteral(filePath, value, LineOf(loc), ColumnOf(loc));
      case TemplateLit(quasis) =>
        for i := 0 to |quasis|
          invariant results == QuasiSpans(cfg, extractedTexts, filePath, quasis[..i])
        {
          var found := VisitLiteral(filePath, quasis[i].raw, LineOf(quasis[i].loc), ColumnOf(quasis[i].loc));
          PrefixOfPrefix(quasis, i);
          results := results + found;
        }
        assert quasis[..|quasis|] == quasis;
      case JsxText(value, loc) =>
        var text := Trim(value);
        if HasChinese(text) {
          var key := GenerateUniqueKey(text, filePath);
          results := [ExtractedText(key, text, filePath, LineOf(loc), ColumnOf(loc), None)];
        }
      case JsxAttr(literal, loc, literalLoc) =>
        if literal.Some? {
          var attr := VisitLiteral(filePath, literal.value, LineOf(loc), ColumnOf(loc));
          var lit := VisitLiteral(filePath, literal.value, LineOf(literalLoc), ColumnOf(literalLoc));
          results := attr + lit;
        }
      case ImportDecl(_) =>
    }

    /** A literal's Chinese, when it has some, as one span at the given position. */
    method VisitLiteral(filePath: string, value: string, line: Option<nat>, column: Option<nat>) returns (results: seq<ExtractedText>)
      ensures results == ChineseSpan(cfg, extractedTexts, filePath, value, line, column, None)
    {
      results := [];
      var chinese := ExtractChineseFromString(value);
      if chinese.Some? {
        var key := GenerateUniqueKey(chinese.value, filePath);
        results := [ExtractedText(key, chinese.value, filePath, line, column, None)];
      }
    }

    /** extractFromJavaScript: the traversal's nodes in order; nothing when the parse failed. */
    method ExtractFromJavaScript(filePath: string, script: Option<seq<JsNode>>) returns (results: seq<ExtractedText>)
      ensures results == if script.Some? then ScriptSpans(cfg, extractedTexts, filePath, script.value) else []
    {
      results := [];
      if script.Some? {
        var nodes := script.value;
        for i := 0 to |nodes|
          invariant results == ScriptSpans(cfg, extractedTexts, filePath, nodes[..i])
        {
          var found := VisitNode(filePath, nodes[i]);
          PrefixOfPrefix(nodes, i);
          results := results + found;
        }
        assert nodes[..|nodes|] == nodes;
      }
    }

    /** extractFromVueTemplate: every text match, then every attribute match. */
    method ExtractFromVueTemplate(filePath: string, content: string, lineOffset: nat) returns (results: seq<ExtractedText>)
      ensures results == TemplateSpans(cfg, extractedTexts, filePath, content, lineOffset)
    {
      var texts := TextMatches(content, 0);
      results := [];
      for i := 0 to |texts|
        invariant results == TextSpans(cfg, extractedTexts, filePath, content, lineOffset, texts, i)
      {
        var found := VisitTextMatch(filePath, content, lineOffset, texts[i]);
        results := results + found;
      }
      var attrs := AttrMatches(content, 0);
      var attrResults := [];
      for i := 0 to |attrs|
        invariant attrResults == AttrSpans(cfg, extractedTexts, filePath, content, lineOffset, attrs, i)
      {
        var m := attrs[i];
        var found := VisitLiteral(filePath, Trim(m.1), Some(lineOffset + Count(content[..m.0], '\n')), None);
        attrResults := attrResults + found;
      }
      results := results + attrResults;
    }

    /** One `>text<` match: its trimmed text, when it holds Chinese, on the line the match starts. */
    method VisitTextMatch(filePath: string, content: string, lineOffset: nat, m: (nat, string)) returns (results: seq<ExtractedText>)
      requires m.0 < |content|
      ensures results == TextSpan(cfg, extractedTexts, filePath, content, lineOffset, m)
    {
      results := [];
      var text := Trim(m.1);
      if HasChinese(text) {
        var line := lineOffset + Count(content[..m.0], '\n');
        var key := GenerateUniqueKey(text, filePath);
        results := [ExtractedText(key, text, filePath, Some(line), None, None)];
        assert results == [Span(cfg, extractedTexts, filePath, text, Some(LineAt(content, lineOffset, m.0)), None, None)];
      }
    }

    /** extractFromVue: the template, then the script, then the setup script; nothing when the parse failed. */
    method ExtractFromVue(filePath: string, sfc: Option<SfcDescriptor>) returns (results: seq<ExtractedText>)
      ensures results == if sfc.Some? then VueSpans(cfg, extractedTexts, filePath, sfc.value) else []
    {
      results := [];
      if sfc.Some? {
        var d := sfc.value;
        if d.template.Some? {
          results := ExtractFromVueTemplate(filePath, d.template.value.content, d.template.value.startLine);
        }
        var script := ExtractFromBlock(filePath, d.script);
        var scriptSetup := ExtractFromBlock(filePath, d.scriptSetup);
        results := results + script + scriptSetup;
      }
    }

    /** A script block's extraction, when the block is present. */
    method ExtractFromBlock(filePath: string, b: Option<SfcBlock>) returns (results: seq<ExtractedText>)
      ensures results == BlockSpans(cfg, extractedTexts, filePath, b)
    {
      results := [];
      if b.Some? {
        results := ExtractFromJavaScript(filePath, b.value.script);
      }
    }

    /**
     * traverseJSON: appends the spans of `j`'s string leaves to `results`.  The
     * ghost `leaf` names what one string leaf contributes, so that the walk is
     * reasoned about without unfolding the key derivation.
     */
    method TraverseJson(j: Json, filePath: string, results: seq<ExtractedText>, path: seq<string>,
                        ghost leaf: (string, seq<string>) -> seq<ExtractedText>) returns (out: seq<ExtractedText>)
      requires IsLeafSpan(leaf, cfg, extractedTexts, filePath)
      ensures out == results + Walk(leaf, j, path)
      decreases j, 2
    {
      match j
      case JString(s) =>
        var found := VisitJsonString(filePath, s, path);
        out := results + found;
      case JArray(items) =>
        out := TraverseItems(j, filePath, results, path, leaf);
      case JObject(members) =>
        out := TraverseMembers(j, filePath, results, path, leaf);
      case JOther =>
        out := results;
    }

    /** An array's items in order, item `i` under the segment `[i]`. */
    method TraverseItems(j: Json, filePath: string, results: seq<ExtractedText>, path: seq<string>,
                         ghost leaf: (string, seq<string>) -> seq<ExtractedText>) returns (out: seq<ExtractedText>)
      requires j.JArray? && IsLeafSpan(leaf, cfg, extractedTexts, filePath)
      ensures out == results + WalkItems(leaf, j, path, |j.items|)
      decreases j, 1
    {
      out := results;
      for i := 0 to |j.items|
        invariant out == results + WalkItems(leaf, j, path, i)
      {
        ghost var before := WalkItems(leaf, j, path, i);
        out := TraverseJson(j.items[i], filePath, out, path + [IndexSegment(i)], leaf);
        AppendAssoc(results, before, Walk(leaf, j.items[i], path + [IndexSegment(i)]));
      }
    }

    /** An object's members in order, each under its name. */
    method TraverseMembers(j: Json, filePath: string, results: seq<ExtractedText>, path: seq<string>,
                           ghost leaf: (string, seq<string>) -> seq<ExtractedText>) returns (out: seq<ExtractedText>)
      requires j.JObject? && IsLeafSpan(leaf, cfg, extractedTexts, filePath)
      ensures out == results + WalkMembers(leaf, j, path, |j.members|)
      decreases j, 1
    {
      out := results;
      assert out == results + WalkMembers(leaf, j, path, 0);
      var i := 0;
      while i < |j.members|
        invariant i <= |j.members|
        invariant out == results + WalkMembers(leaf, j, path, i)
      {
        var m := j.members[i];
        ghost var before := WalkMembers(leaf, j, path, i);
        out := TraverseJson(m.value, filePath, out, path + [m.name], leaf);
        AppendAssoc(results, before, Walk(leaf, m.value, path + [m.name]));
        i := i + 1;
      }
    }

    method VisitJsonString(filePath: string, s: string, path: seq<string>) returns (results: seq<ExtractedText>)
      ensures results == ChineseSpan(cfg, extractedTexts, filePath, s, None, None, Some(JoinWith(path, ".")))
    {
      results := [];
      var chinese := ExtractChineseFromString(s);
      if chinese.Some? {
        var key := GenerateUniqueKey(chinese.value, filePath);
        results := [ExtractedText(key, chinese.value, filePath, None, None, Some(JoinWith(path, ".")))];
      }
    }

    /** extractFromJSON: the walk of the parsed document; nothing when the parse failed. */
    method ExtractFromJson(filePath: string, json: Option<Json>) returns (results: seq<ExtractedText>)
      ensures results == if json.Some? then JsonSpans(cfg, extractedTexts, filePath, json.value, []) else []
    {
      results := [];
      if json.Some? {
        LeafSpanIsLeafSpan(cfg, extractedTexts, filePath);
        results := TraverseJson(json.value, filePath, [], [], LeafSpan(cfg, extractedTexts, filePath));
      }
    }

    /**
     * extractFromFile: reading an unreadable file fails (None); otherwise the
     * extraction its extension selects.
     */
    method ExtractFromFile(f: SourceFile) returns (texts: Option<seq<ExtractedText>>)
      ensures texts == if f.content.Some? then Some(FileSpans(cfg, extractedTexts, f)) else None
    {
      var ext := Extension(f.path);
      if f.content.None? {
        return None;
      }
      var found: seq<ExtractedText> := [];
      if IsScriptExtension(ext) {
        found := ExtractFromJavaScript(f.path, f.parsed.script);
      } else if ext == ".vue" {
        found := ExtractFromVue(f.path, f.parsed.sfc);
      } else if ext == ".json" {
        found := ExtractFromJson(f.path, f.parsed.json);
      }
      texts := Some(found);
    }

    /** addExtractedText: binds the text's key to it, replacing an earlier binding. */
    method AddExtractedText(text: ExtractedText)
      requires Valid()
      modifies this
      ensures Valid()
      ensures extractedTexts == Put(old(extractedTexts), text.key, text)
    {
      extractedTexts := Put(extractedTexts, text.key, text);
    }

    /** getAllTexts: the texts in the order their keys were first bound. */
    method GetAllTexts() returns (texts: seq<ExtractedText>)
      requires Valid()
      ensures texts == Values(extractedTexts)
      ensures forall i, j :: 0 <= i < j < |texts| ==> texts[i].key != texts[j].key
    {
      KeysInEntries(extractedTexts);
      texts := Values(extractedTexts);
    }

    method Clear()
      modifies this
      ensures Valid() && extractedTexts == EmptyMap()
    {
      extractedTexts := EmptyMap();
    }
  }

  /**
   * extractTexts: each file is extracted against the registry built so far and its
   * texts are added in order; a file that cannot be read is skipped.
   */
  method ExtractTexts(cfg: KeyConfig, files: seq<SourceFile>) returns (texts: seq<ExtractedText>)
    ensures texts == Values(Catalog(cfg, files))
  {
    var extractor := new TextExtractor(cfg);
    for i := 0 to |files|
      invariant extractor.Valid() && extractor.cfg == cfg
      invariant extractor.extractedTexts == Catalog(cfg, files[..i])
    {
      PrefixOfPrefix(files, i);
      var found := extractor.ExtractFromFile(files[i]);
      if found.Some? {
        var before := extractor.extractedTexts;
        var spans := found.value;
        for k := 0 to |spans|
          invariant extractor.Valid() && extractor.cfg == cfg
          invariant extractor.extractedTexts == AddTexts(before, spans[..k])
        {
          PrefixOfPrefix(spans, k);
          extractor.AddExtractedText(spans[k]);
        }
        assert spans[..|spans|] == spans;
      }
    }
    assert files[..|files|] == files;
    texts := extractor.GetAllTexts();
  }
}
