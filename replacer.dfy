// CodeReplacer (src/core/replacer.ts): rewriting source files so that each piece
// of Chinese UI text the extractor catalogued becomes a call of the i18n accessor.
// The Babel and Vue parsers are the abstract parses of types.dfy, and
// @babel/generator is an uninterpreted function from the rewritten program to text.
module Replacer {
  import opened Strings
  import opened Collections
  import opened PatternMatcher
  import opened Types
  import Extractor

  // ---------------------------------------------------------------- settings

  /** JavaScript's `a || b` on an optional string: unset and empty both fall through. */
  function OrElse(a: Option<string>, b: string): string {
    if a.Some? && a.value != [] then a.value else b
  }

  /** A setting taken from the constructor's options, else the configuration, else the default. */
  function Setting(option: Option<string>, configured: Option<string>, default: string): (r: string)
    ensures default != [] ==> r != []
    ensures option.Some? && option.value != [] ==> r == option.value
    ensures (option.None? || option.value == []) && configured.Some? && configured.value != [] ==> r == configured.value
    ensures (option.None? || option.value == []) && (configured.None? || configured.value == []) ==> r == default
  {
    OrElse(option, OrElse(configured, default))
  }

  /** The `replace` section of the configuration; an absent section has every field unset. */
  datatype ReplaceConfig = ReplaceConfig(i18nFunction: Option<string>, importPath: Option<string>, addImports: Option<bool>)

  /** The constructor's own options. */
  datatype ReplacerOptions = ReplacerOptions(i18nFunction: Option<string>, importPath: Option<string>)

  /** The accessor the rewritten code calls, where it is imported from, and whether imports are added. */
  datatype Accessor = Accessor(name: string, importPath: string, addImports: bool)

  // ----------------------------------------------------------------- results

  /** One rewrite: where it happened, the text replaced, what replaced it and the key used. */
  datatype Replacement = Replacement(line: nat, column: nat, original: string, replaced: string, key: string)

  /**
   * Why a file was not rewritten: its extension, its content could not be read, its
   * parser threw, or the import scan's visitor threw (see CodeReplacer.ScanImports).
   */
  datatype Failure = UnsupportedType(ext: string) | Unreadable | ParseError | ImportVisitorThrows

  /** ReplaceResult */
  datatype ReplaceResult = ReplaceResult(
    filePath: string,
    count: nat,
    success: bool,
    error: Option<Failure>,
    replacements: Option<seq<Replacement>>)

  function Failed(filePath: string, why: Failure): ReplaceResult {
    ReplaceResult(filePath, 0, false, Some(why), None)
  }

  function Succeeded(filePath: string, records: seq<Replacement>): ReplaceResult {
    ReplaceResult(filePath, |records|, true, None, Some(records))
  }

  /** A successful result counts exactly its records; a failed one counts nothing and says why. */
  predicate Consistent(r: ReplaceResult) {
    if r.success then r.error.None? && r.replacements.Some? && r.count == |r.replacements.value|
    else r.count == 0 && r.error.Some? && r.replacements.None?
  }

  /** A result and the content written back to the file, if any. */
  datatype Outcome = Outcome(result: ReplaceResult, written: Option<string>)

  // ----------------------------------------------------------- script visitors

  /** A node of the rewritten program: kept, or a call of the accessor where text was. */
  datatype OutNode =
    | Kept(node: JsNode)
    | Call(callee: string, key: string)
    | JsxCall(callee: string, key: string)
    | AttrCall(loc: Option<Loc>, callee: string, key: string)

  /** The rewritten program: the body, preceded by an import of the accessor when one was added. */
  datatype Program = Program(importsAccessor: bool, body: seq<OutNode>)

  /** `f('key')` */
  function CallText(f: string, key: string): string {
    f + "('" + key + "')"
  }

  /** `{f('key')}` */
  function Braced(s: string): string {
    "{" + s + "}"
  }

  /** `loc?.start.line || 0` */
  function LineOf(loc: Option<Loc>): nat {
    if loc.Some? then loc.value.line else 0
  }

  function ColumnOf(loc: Option<Loc>): nat {
    if loc.Some? then loc.value.column else 0
  }

  /** Whether the replacing traversal rewrites a node: its Chinese text, trimmed, is a key of the map. */
  predicate Replaceable(keys: map<string, string>, node: JsNode) {
    match node
    case StringLit(value, _) => HasChinese(value) && Trim(value) in keys
    case JsxText(value, _) => HasChinese(Trim(value)) && Trim(value) in keys
    case JsxAttr(Some(value), _, _) => HasChinese(value) && Trim(value) in keys
    case _ => false
  }

  /**
   * The record a rewritten node leaves and the node that took its place: the key is
   * the one the map gives the trimmed text, a literal becomes `f('key')`, JSX text and
   * a JSX attribute's value become `{f('key')}`.
   */
  predicate ReplacedBy(keys: map<string, string>, f: string, node: JsNode, out: OutNode, r: Replacement) {
    HasChinese(r.original) && Trim(r.original) in keys && r.key == keys[Trim(r.original)] &&
    match node
    case StringLit(value, loc) =>
      r.original == value && out == Call(f, r.key) && r.replaced == CallText(f, r.key)
      && r.line == LineOf(loc) && r.column == ColumnOf(loc)
    case JsxText(value, loc) =>
      r.original == Trim(value) && out == JsxCall(f, r.key) && r.replaced == Braced(CallText(f, r.key))
      && r.line == LineOf(loc) && r.column == ColumnOf(loc)
    case JsxAttr(Some(value), loc, _) =>
      r.original == value && out == AttrCall(loc, f, r.key) && r.replaced == Braced(CallText(f, r.key))
      && r.line == LineOf(loc) && r.column == ColumnOf(loc)
    case _ => false
  }

  datatype Visit = Visit(out: OutNode, record: Option<Replacement>)

  /** The key a string literal is replaced by: the one the map gives its Chinese text, trimmed. */
  function LiteralKey(keys: map<string, string>, value: string): (r: Option<string>)
    ensures r.Some? <==> HasChinese(value) && Trim(value) in keys
    ensures r.Some? ==> r.value == keys[Trim(value)]
  {
    var chinese := ExtractChineseFromString(value);
    if chinese.Some? && chinese.value in keys then Some(keys[chinese.value]) else None
  }

  /** The key JSX text is replaced by: the one the map gives its trimmed value, when that holds Chinese. */
  function TextKey(keys: map<string, string>, value: string): (r: Option<string>)
    ensures r.Some? <==> HasChinese(Trim(value)) && Trim(value) in keys
    ensures r.Some? ==> r.value == keys[Trim(value)] && Trim(Trim(value)) == Trim(value)
  {
    var text := Trim(value);
    TrimIdempotent(value);
    if HasChinese(text) && text in keys then Some(keys[text]) else None
  }

  /** The StringLiteral visitor. */
  function VisitLiteral(keys: map<string, string>, f: string, value: string, loc: Option<Loc>): (v: Visit)
    ensures v.record.Some? <==> Replaceable(keys, StringLit(value, loc))
    ensures v.record.None? ==> v.out == Kept(StringLit(value, loc))
    ensures v.record.Some? ==> ReplacedBy(keys, f, StringLit(value, loc), v.out, v.record.value)
  {
    var key := LiteralKey(keys, value);
    if key.Some? then
      Visit(Call(f, key.value), Some(Replacement(LineOf(loc), ColumnOf(loc), value, CallText(f, key.value), key.value)))
    else Visit(Kept(StringLit(value, loc)), None)
  }

  /** The JSXText visitor. */
  function VisitText(keys: map<string, string>, f: string, value: string, loc: Option<Loc>): (v: Visit)
    ensures v.record.Some? <==> Replaceable(keys, JsxText(value, loc))
    ensures v.record.None? ==> v.out == Kept(JsxText(value, loc))
    ensures v.record.Some? ==> ReplacedBy(keys, f, JsxText(value, loc), v.out, v.record.value)
  {
    var key := TextKey(keys, value);
    if key.Some? then
      Visit(JsxCall(f, key.value), Some(Replacement(LineOf(loc), ColumnOf(loc), Trim(value), Braced(CallText(f, key.value)), key.value)))
    else Visit(Kept(JsxText(value, loc)), None)
  }

  lemma AttrReplaceable(keys: map<string, string>, value: string, loc: Option<Loc>, literalLoc: Option<Loc>)
    ensures Replaceable(keys, JsxAttr(Some(value), loc, literalLoc)) <==> HasChinese(value) && Trim(value) in keys
  {
  }

  /** The JSXAttribute visitor on an attribute whose value is a string literal. */
  function VisitAttr(keys: map<string, string>, f: string, value: string, loc: Option<Loc>, literalLoc: Option<Loc>): (v: Visit)
    ensures v.record.Some? <==> Replaceable(keys, JsxAttr(Some(value), loc, literalLoc))
    ensures v.record.None? ==> v.out == Kept(JsxAttr(Some(value), loc, literalLoc))
    ensures v.record.Some? ==> ReplacedBy(keys, f, JsxAttr(Some(value), loc, literalLoc), v.out, v.record.value)
  {
    var key := LiteralKey(keys, value);
    AttrReplaceable(keys, value, loc, literalLoc);
    if key.Some? then
      Visit(AttrCall(loc, f, key.value), Some(Replacement(LineOf(loc), ColumnOf(loc), value, Braced(CallText(f, key.value)), key.value)))
    else Visit(Kept(JsxAttr(Some(value), loc, literalLoc)), None)
  }

  /** The visitors of the replacing traversal on one node; other nodes are kept. */
  function ReplaceNode(keys: map<string, string>, f: string, node: JsNode): (v: Visit)
    ensures v.record.Some? <==> Replaceable(keys, node)
    ensures v.record.None? ==> v.out == Kept(node)
    ensures v.record.Some? ==> ReplacedBy(keys, f, node, v.out, v.record.value)
  {
    match node
    case StringLit(value, loc) => VisitLiteral(keys, f, value, loc)
    case JsxText(value, loc) => VisitText(keys, f, value, loc)
    case JsxAttr(Some(value), loc, literalLoc) => VisitAttr(keys, f, value, loc, literalLoc)
    case _ => Visit(Kept(node), None)
  }

  /** The records of the first `n` nodes, in traversal order. */
  function Records(keys: map<string, string>, f: string, nodes: seq<JsNode>, n: nat): (r: seq<Replacement>)
    requires n <= |nodes|
  {
    if n == 0 then []
    else
      var v := ReplaceNode(keys, f, nodes[n - 1]);
      Records(keys, f, nodes, n - 1) + (if v.record.Some? then [v.record.value] else [])
  }

  /** A record names Chinese text whose trimmed form the map keys, and that key. */
  predicate RecordKeyed(keys: map<string, string>, r: Replacement) {
    HasChinese(r.original) && Trim(r.original) in keys && r.key == keys[Trim(r.original)]
  }

  /** At most one record per node, and none exactly when no node is replaceable. */
  lemma RecordsEmpty(keys: map<string, string>, f: string, nodes: seq<JsNode>, n: nat)
    requires n <= |nodes|
    ensures |Records(keys, f, nodes, n)| <= n
    ensures Records(keys, f, nodes, n) == [] <==> forall i :: 0 <= i < n ==> !Replaceable(keys, nodes[i])
  {
    RecordsLength(keys, f, nodes, n);
    if forall i :: 0 <= i < n ==> !Replaceable(keys, nodes[i]) {
      RecordsNone(keys, f, nodes, n);
    } else {
      var i :| 0 <= i < n && Replaceable(keys, nodes[i]);
      RecordsSome(keys, f, nodes, n, i);
    }
  }

  lemma {:induction false} RecordsLength(keys: map<string, string>, f: string, nodes: seq<JsNode>, n: nat)
    requires n <= |nodes|
    ensures |Records(keys, f, nodes, n)| <= n
  {
    if n > 0 {
      RecordsLength(keys, f, nodes, n - 1);
    }
  }

  lemma {:induction false} RecordsNone(keys: map<string, string>, f: string, nodes: seq<JsNode>, n: nat)
    requires n <= |nodes| && forall i :: 0 <= i < n ==> !Replaceable(keys, nodes[i])
    ensures Records(keys, f, nodes, n) == []
  {
    if n > 0 {
      assert !Replaceable(keys, nodes[n - 1]);
      RecordsNone(keys, f, nodes, n - 1);
    }
  }

  lemma {:induction false} RecordsSome(keys: map<string, string>, f: string, nodes: seq<JsNode>, n: nat, i: nat)
    requires i < n <= |nodes| && Replaceable(keys, nodes[i])
    ensures Records(keys, f, nodes, n) != []
  {
    if i < n - 1 {
      RecordsSome(keys, f, nodes, n - 1, i);
    }
  }

  /** Every record is keyed by the map. */
  lemma {:induction false} RecordsKeyed(keys: map<string, string>, f: string, nodes: seq<JsNode>, n: nat, j: nat)
    requires n <= |nodes| && j < |Records(keys, f, nodes, n)|
    ensures RecordKeyed(keys, Records(keys, f, nodes, n)[j])
  {
    var prev := Records(keys, f, nodes, n - 1);
    var v := ReplaceNode(keys, f, nodes[n - 1]);
    RecordsStep(keys, f, nodes, n - 1);
    if j < |prev| {
      RecordsKeyed(keys, f, nodes, n - 1, j);
      assert Records(keys, f, nodes, n)[j] == prev[j];
    } else {
      assert Records(keys, f, nodes, n)[j] == v.record.value;
      assert ReplacedBy(keys, f, nodes[n - 1], v.out, v.record.value);
    }
  }

  lemma {:induction false} RecordsStep(keys: map<string, string>, f: string, nodes: seq<JsNode>, n: nat)
    requires n < |nodes|
    ensures var v := ReplaceNode(keys, f, nodes[n]);
      Records(keys, f, nodes, n + 1) == Records(keys, f, nodes, n) + (if v.record.Some? then [v.record.value] else [])
  {
  }

  /** The rewritten nodes, one per node. */
  function Outs(keys: map<string, string>, f: string, nodes: seq<JsNode>): (r: seq<OutNode>)
    ensures |r| == |nodes|
    ensures forall i :: 0 <= i < |nodes| ==> (r[i] == Kept(nodes[i]) <==> !Replaceable(keys, nodes[i]))
  {
    seq(|nodes|, i requires 0 <= i < |nodes| => ReplaceNode(keys, f, nodes[i]).out)
  }

  /** An import whose source is the import path or mentions `i18n` counts as importing the accessor. */
  predicate ImportsAccessor(source: string, importPath: string) {
    source == importPath || Contains(source, "i18n")
  }

  /** Some import among the first `n` nodes imports the accessor. */
  predicate ImportedIn(nodes: seq<JsNode>, importPath: string, n: nat) {
    exists i :: 0 <= i < n && i < |nodes| && nodes[i].ImportDecl? && ImportsAccessor(nodes[i].source, importPath)
  }

  datatype Rewritten = Rewritten(program: Program, records: seq<Replacement>)

  /**
   * replaceJavaScript on a parsed script: every node is visited, and an import of the
   * accessor is prepended exactly when something was replaced, no import already
   * provides it, and imports are not switched off.
   */
  function Rewrite(acc: Accessor, keys: map<string, string>, nodes: seq<JsNode>): (r: Rewritten)
    ensures r.program.body == Outs(keys, acc.name, nodes)
    ensures r.records == Records(keys, acc.name, nodes, |nodes|)
    ensures r.program.importsAccessor <==>
      (exists i :: 0 <= i < |nodes| && Replaceable(keys, nodes[i]))
      && !ImportedIn(nodes, acc.importPath, |nodes|) && acc.addImports
  {
    var records := Records(keys, acc.name, nodes, |nodes|);
    RecordsEmpty(keys, acc.name, nodes, |nodes|);
    Rewritten(Program(records != [] && !ImportedIn(nodes, acc.importPath, |nodes|) && acc.addImports,
                      Outs(keys, acc.name, nodes)), records)
  }

  /** Some node among the first `n` is an import declaration. */
  predicate ImportAmong(nodes: seq<JsNode>, n: nat) {
    exists i :: 0 <= i < n && i < |nodes| && nodes[i].ImportDecl?
  }

  /**
   * replaceJavaScript as it was meant to work: a script that does not parse fails;
   * otherwise the result lists the records, and the generated code is written unless
   * this is a dry run or nothing was replaced.
   */
  function IntendedJsOutcome(acc: Accessor, generate: Program -> string, keys: map<string, string>,
                             filePath: string, script: Option<seq<JsNode>>, dryRun: bool): (o: Outcome)
    ensures o.result.filePath == filePath && Consistent(o.result)
    ensures o.result.success <==> script.Some?
    ensures o.written.Some? <==> o.result.success && !dryRun && o.result.count > 0
    ensures o.written.Some? ==> o.written.value == generate(Rewrite(acc, keys, script.value).program)
  {
    if script.None? then Outcome(Failed(filePath, ParseError), None)
    else
      var rw := Rewrite(acc, keys, script.value);
      Outcome(Succeeded(filePath, rw.records),
              if !dryRun && |rw.records| > 0 then Some(generate(rw.program)) else None)
  }

  /**
   * replaceJavaScript as written: the import scan throws on the first import
   * declaration, so a script with any import fails, replaces nothing and writes
   * nothing; a script without imports is rewritten as intended.
   */
  function JsOutcome(acc: Accessor, generate: Program -> string, keys: map<string, string>,
                     filePath: string, script: Option<seq<JsNode>>, dryRun: bool): (o: Outcome)
    ensures o.result.filePath == filePath && Consistent(o.result)
    ensures o.result.success <==> script.Some? && !ImportAmong(script.value, |script.value|)
    ensures o.written.Some? <==> o.result.success && !dryRun && o.result.count > 0
  {
    if script.None? then Outcome(Failed(filePath, ParseError), None)
    else if ImportAmong(script.value, |script.value|) then Outcome(Failed(filePath, ImportVisitorThrows), None)
    else IntendedJsOutcome(acc, generate, keys, filePath, script, dryRun)
  }

  /** Without imports the scan finds no accessor import, and the code as written does what was meant. */
  lemma JsOutcomeWithoutImports(acc: Accessor, generate: Program -> string, keys: map<string, string>,
                                filePath: string, nodes: seq<JsNode>, dryRun: bool)
    requires !ImportAmong(nodes, |nodes|)
    ensures !ImportedIn(nodes, acc.importPath, |nodes|)
    ensures JsOutcome(acc, generate, keys, filePath, Some(nodes), dryRun)
      == IntendedJsOutcome(acc, generate, keys, filePath, Some(nodes), dryRun)
  {
  }

  /**
   * An import of `vue` before a loaded Chinese literal: the code as written fails
   * and writes nothing, where the intended rewrite replaces the literal.
   */
  lemma ImportedScriptFails(acc: Accessor, generate: Program -> string)
    ensures var keys := map["你好" := "hello"];
      var nodes := [ImportDecl("vue"), StringLit("你好", None)];
      JsOutcome(acc, generate, keys, "a.js", Some(nodes), false) == Outcome(Failed("a.js", ImportVisitorThrows), None)
      && IntendedJsOutcome(acc, generate, keys, "a.js", Some(nodes), false).result.count == 1
      && IntendedJsOutcome(acc, generate, keys, "a.js", Some(nodes), false).written.Some?
  {
    var keys := map["你好" := "hello"];
    var nodes := [ImportDecl("vue"), StringLit("你好", None)];
    assert ImportAmong(nodes, |nodes|) by {
      assert nodes[0].ImportDecl?;
    }
    ExampleRecords(acc.name, keys, nodes);
  }

  lemma ExampleRecords(f: string, keys: map<string, string>, nodes: seq<JsNode>)
    requires keys == map["你好" := "hello"] && nodes == [ImportDecl("vue"), StringLit("你好", None)]
    ensures |Records(keys, f, nodes, |nodes|)| == 1
  {
    RecordsCount(keys, f, nodes, 0);
    assert !Replaceable(keys, nodes[0]);
    RecordsCount(keys, f, nodes, 1);
    ExampleReplaceable(keys, nodes[1]);
  }

  /** Each node adds one record when it is replaceable and none otherwise. */
  lemma {:induction false} RecordsCount(keys: map<string, string>, f: string, nodes: seq<JsNode>, n: nat)
    requires n < |nodes|
    ensures |Records(keys, f, nodes, n + 1)| == |Records(keys, f, nodes, n)| + (if Replaceable(keys, nodes[n]) then 1 else 0)
  {
    RecordsStep(keys, f, nodes, n);
  }

  lemma ExampleReplaceable(keys: map<string, string>, node: JsNode)
    requires keys == map["你好" := "hello"] && node == StringLit("你好", None)
    ensures Replaceable(keys, node)
  {
    TrimmedFixed("你好");
    assert IsHan("你好"[0]);
  }

  // ---------------------------------------------------------- escaping regexes

  predicate IsRegexMeta(c: char) {
    c == '.' || c == '*' || c == '+' || c == '?' || c == '^' || c == '$' || c == '{' || c == '}'
    || c == '(' || c == ')' || c == '|' || c == '[' || c == ']' || c == '\\'
  }

  /** escapeRegex: a backslash before every regular-expression metacharacter. */
  function EscapeRegex(text: string): (r: string)
    ensures |r| >= |text|
  {
    if text == [] then []
    else (if IsRegexMeta(text[0]) then ['\\', text[0]] else [text[0]]) + EscapeRegex(text[1..])
  }

  /**
   * The one string a regular-expression source matches when it is made only of
   * ordinary characters and escaped metacharacters; None for any other source.
   */
  function LiteralSource(src: string): Option<string>
    decreases |src|
  {
    if src == [] then Some([])
    else if src[0] == '\\' then
      if |src| >= 2 && IsRegexMeta(src[1]) then
        var rest := LiteralSource(src[2..]);
        if rest.Some? then Some([src[1]] + rest.value) else None
      else None
    else if IsRegexMeta(src[0]) then None
    else
      var rest := LiteralSource(src[1..]);
      if rest.Some? then Some([src[0]] + rest.value) else None
  }

  /** An escaped text, used as a regular expression, matches exactly that text. */
  lemma {:induction false} EscapeRegexLiteral(text: string)
    ensures LiteralSource(EscapeRegex(text)) == Some(text)
  {
    if text != [] {
      EscapeRegexLiteral(text[1..]);
      var e := EscapeRegex(text);
      if IsRegexMeta(text[0]) {
        assert e[0] == '\\' && e[1] == text[0] && e[2..] == EscapeRegex(text[1..]);
      } else {
        assert e[0] == text[0] && e[1..] == EscapeRegex(text[1..]);
      }
      assert text == [text[0]] + text[1..];
    }
  }

  lemma {:induction false} LiteralSourceAppend(a: string, b: string)
    requires LiteralSource(a).Some? && LiteralSource(b).Some?
    ensures LiteralSource(a + b) == Some(LiteralSource(a).value + LiteralSource(b).value)
    decreases |a|
  {
    if a == [] {
      assert a + b == b && LiteralSource(a).value == [];
      assert [] + LiteralSource(b).value == LiteralSource(b).value;
    } else if a[0] == '\\' {
      var ab := a + b;
      assert |a| >= 2 && IsRegexMeta(a[1]) && ab[0] == a[0] && ab[1] == a[1];
      assert ab[2..] == a[2..] + b;
      LiteralSourceAppend(a[2..], b);
      var ra, rb := LiteralSource(a[2..]).value, LiteralSource(b).value;
      assert LiteralSource(a).value == [a[1]] + ra;
      assert LiteralSource(ab) == Some([a[1]] + (ra + rb));
      assert [a[1]] + (ra + rb) == [a[1]] + ra + rb;
    } else {
      var ab := a + b;
      assert ab[0] == a[0] && ab[1..] == a[1..] + b;
      LiteralSourceAppend(a[1..], b);
      var ra, rb := LiteralSource(a[1..]).value, LiteralSource(b).value;
      assert LiteralSource(a).value == [a[0]] + ra;
      assert LiteralSource(ab) == Some([a[0]] + (ra + rb));
      assert [a[0]] + (ra + rb) == [a[0]] + ra + rb;
    }
  }

  /** An ordinary character stands for itself. */
  lemma LiteralSourceChar(c: char)
    requires c != '\\' && !IsRegexMeta(c)
    ensures LiteralSource([c]) == Some([c])
  {
    assert [c][1..] == [] && LiteralSource([]) == Some([]);
    assert [c] + [] == [c];
  }

  /** The two template patterns built around an escaped text match the plain `>T<` and `="T"`. */
  lemma TemplatePatternsLiteral(text: string)
    ensures LiteralSource(">" + EscapeRegex(text) + "<") == Some(TagPattern(text))
    ensures LiteralSource("=\"" + EscapeRegex(text) + "\"") == Some(AttrPattern(text))
  {
    EscapeRegexLiteral(text);
    var e := EscapeRegex(text);
    LiteralSourceChar('>');
    LiteralSourceChar('<');
    LiteralSourceChar('=');
    LiteralSourceChar('"');
    LiteralSourceAppend("=", "\"");
    assert "=" + "\"" == "=\"";
    LiteralSourceAppend(">", e);
    LiteralSourceAppend(">" + e, "<");
    LiteralSourceAppend("=\"", e);
    LiteralSourceAppend("=\"" + e, "\"");
  }

  // ------------------------------------------------------------ Vue templates

  /** `>T<`, text between two tags. */
  function TagPattern(text: string): string {
    ">" + text + "<"
  }

  /** `="T"`, a static attribute value. */
  function AttrPattern(text: string): string {
    "=\"" + text + "\""
  }

  /** `{{ f('key') }}` */
  function Mustache(f: string, key: string): string {
    "{{ " + CallText(f, key) + " }}"
  }

  datatype TemplateEdit = TemplateEdit(template: string, records: seq<Replacement>)

  /**
   * One map entry's pass over the template: when the template (as rewritten so far)
   * contains the text, every `>T<` becomes `>{{ f('k') }}<` and one record is pushed;
   * then every `="T"` becomes `=":f('k')"`, which is not recorded.
   */
  function TemplateStep(f: string, text: string, key: string, e: TemplateEdit): (r: TemplateEdit)
    ensures Contains(e.template, text) ==> r.records == e.records + [Replacement(0, 0, text, Mustache(f, key), key)]
    ensures !Contains(e.template, text) ==> r.records == e.records
  {
    var hit := Contains(e.template, text);
    var t1 := if hit then ReplaceAll(e.template, TagPattern(text), ">" + Mustache(f, key) + "<", false) else e.template;
    var records := if hit then e.records + [Replacement(0, 0, text, Mustache(f, key), key)] else e.records;
    var t2 := if Contains(t1, AttrPattern(text)) then ReplaceAll(t1, AttrPattern(text), "=\":" + CallText(f, key) + "\"", false) else t1;
    TemplateEdit(t2, records)
  }

  /** The template after the passes of the first `n` map entries, in insertion order. */
  function TemplateRewrite(f: string, keys: OMap<string, string>, template: string, n: nat): (r: TemplateEdit)
    requires ValidMap(keys) && n <= |keys.keys|
    ensures |r.records| <= n
    ensures forall j :: 0 <= j < |r.records| ==>
      r.records[j].line == 0 && r.records[j].column == 0
      && r.records[j].original in keys.entries && r.records[j].key == keys.entries[r.records[j].original]
      && r.records[j].replaced == Mustache(f, r.records[j].key)
  {
    if n == 0 then TemplateEdit(template, [])
    else
      var text := keys.keys[n - 1];
      TemplateStep(f, text, keys.entries[text], TemplateRewrite(f, keys, template, n - 1))
  }

  /** A record is pushed for a text the template mentions even when no `>T<` occurs, and the tag pass then changes nothing. */
  lemma TemplateRecordsWithoutTag(f: string, text: string, key: string, e: TemplateEdit)
    requires Contains(e.template, text) && !Contains(e.template, TagPattern(text))
    ensures |TemplateStep(f, text, key, e).records| == |e.records| + 1
    ensures !Contains(e.template, AttrPattern(text)) ==> TemplateStep(f, text, key, e).template == e.template
  {
    ReplaceAllAbsent(e.template, TagPattern(text), ">" + Mustache(f, key) + "<");
  }

  /** Replacing the first occurrence of a string by itself changes nothing. */
  lemma {:induction false} ReplaceFirstSelf(s: string, p: string)
    ensures ReplaceFirst(s, p, p) == s
    decreases |s|
  {
    if !StartsWith(s, p) && s != [] {
      ReplaceFirstSelf(s[1..], p);
    }
  }

  /** The records of a script pass that the component takes over: those of a successful pass. */
  function ScriptRecords(r: ReplaceResult): seq<Replacement> {
    if r.success && r.replacements.Some? then r.replacements.value else []
  }

  /** The script block replaceVue rewrites: `<script setup>` when present, else `<script>`. */
  function ScriptBlock(d: SfcDescriptor): Option<SfcBlock> {
    if d.scriptSetup.Some? then d.scriptSetup else d.script
  }

  function TempPath(filePath: string, b: SfcBlock): string {
    filePath + ".temp." + OrElse(b.lang, "js")
  }

  /** The component after the template pass: its first occurrence of the template replaced. */
  function TemplatePassed(f: string, keys: OMap<string, string>, content: string, d: SfcDescriptor): string
    requires ValidMap(keys)
  {
    if d.template.Some? then
      ReplaceFirst(content, d.template.value.content, TemplateRewrite(f, keys, d.template.value.content, |keys.keys|).template)
    else content
  }

  /** Whether the script pass of replaceVue, a dry run on a temporary copy of the block, succeeds. */
  predicate ScriptPassed(acc: Accessor, generate: Program -> string, keys: OMap<string, string>,
                         filePath: string, b: SfcBlock)
  {
    JsOutcome(acc, generate, keys.entries, TempPath(filePath, b), b.script, true).result.success
  }

  /** The records replaceVue collects: the template's, then those of the script pass (run as a dry run). */
  function VueRecords(acc: Accessor, generate: Program -> string, keys: OMap<string, string>,
                      filePath: string, d: SfcDescriptor): seq<Replacement>
    requires ValidMap(keys)
  {
    var t := if d.template.Some? then TemplateRewrite(acc.name, keys, d.template.value.content, |keys.keys|).records else [];
    var b := ScriptBlock(d);
    t + if b.Some? then ScriptRecords(JsOutcome(acc, generate, keys.entries, TempPath(filePath, b.value), b.value.script, true).result) else []
  }

  /**
   * replaceVue: a component that does not parse fails.  The script pass runs as a dry
   * run on a temporary copy of the block, so splicing its content back puts the same
   * text in place of itself.
   */
  function VueOutcome(acc: Accessor, generate: Program -> string, keys: OMap<string, string>,
                      filePath: string, content: string, sfc: Option<SfcDescriptor>, dryRun: bool): (o: Outcome)
    requires ValidMap(keys)
    ensures o.result.filePath == filePath && Consistent(o.result)
    ensures o.result.success <==> sfc.Some?
    ensures o.written.Some? <==> o.result.success && !dryRun && o.result.count > 0
  {
    if sfc.None? then Outcome(Failed(filePath, ParseError), None)
    else
      var d := sfc.value;
      var modified := TemplatePassed(acc.name, keys, content, d);
      var b := ScriptBlock(d);
      var spliced := if b.Some? && ScriptPassed(acc, generate, keys, filePath, b.value)
                     then ReplaceFirst(modified, b.value.content, b.value.content) else modified;
      var records := VueRecords(acc, generate, keys, filePath, d);
      Outcome(Succeeded(filePath, records), if !dryRun && |records| > 0 then Some(spliced) else None)
  }

  /** The script pass's replacements are counted but never reach the written component. */
  lemma VueScriptEditsNotWritten(acc: Accessor, generate: Program -> string, keys: OMap<string, string>,
                                 filePath: string, content: string, d: SfcDescriptor, dryRun: bool)
    requires ValidMap(keys)
    ensures var o := VueOutcome(acc, generate, keys, filePath, content, Some(d), dryRun);
      o.written.Some? ==> o.written.value == TemplatePassed(acc.name, keys, content, d)
  {
    var b := ScriptBlock(d);
    if b.Some? {
      ReplaceFirstSelf(TemplatePassed(acc.name, keys, content, d), b.value.content);
    }
  }

  /** A script block with any import contributes no records: the component keeps only the template's. */
  lemma ImportingScriptAddsNothing(acc: Accessor, generate: Program -> string, keys: OMap<string, string>,
                                   filePath: string, d: SfcDescriptor)
    requires ValidMap(keys)
    requires ScriptBlock(d).Some? && ScriptBlock(d).value.script.Some?
    requires ImportAmong(ScriptBlock(d).value.script.value, |ScriptBlock(d).value.script.value|)
    ensures VueRecords(acc, generate, keys, filePath, d)
      == if d.template.Some? then TemplateRewrite(acc.name, keys, d.template.value.content, |keys.keys|).records else []
  {
    var t := if d.template.Some? then TemplateRewrite(acc.name, keys, d.template.value.content, |keys.keys|).records else [];
    assert t + [] == t;
  }

  // ------------------------------------------------------------------ files

  /** The extensions replaceFile rewrites. */
  predicate IsReplaceable(ext: string) {
    Extractor.IsScriptExtension(ext) || ext == ".vue"
  }

  /**
   * replaceFile: an unreadable file fails; a readable one is rewritten by its
   * extension, and any other extension fails naming it.
   */
  function FileOutcome(acc: Accessor, generate: Program -> string, keys: OMap<string, string>,
                       file: SourceFile, dryRun: bool): (o: Outcome)
    requires ValidMap(keys)
    ensures o.result.filePath == file.path && Consistent(o.result)
    ensures o.written.Some? <==> o.result.success && !dryRun && o.result.count > 0
    ensures o.result.success ==> file.content.Some? && IsReplaceable(Extractor.Extension(file.path))
    ensures file.content.Some? && !IsReplaceable(Extractor.Extension(file.path)) ==>
      o.result == Failed(file.path, UnsupportedType(Extractor.Extension(file.path)))
  {
    if file.content.None? then Outcome(Failed(file.path, Unreadable), None)
    else
      var ext := Extractor.Extension(file.path);
      if Extractor.IsScriptExtension(ext) then JsOutcome(acc, generate, keys.entries, file.path, file.parsed.script, dryRun)
      else if ext == ".vue" then VueOutcome(acc, generate, keys, file.path, file.content.value, file.parsed.sfc, dryRun)
      else Outcome(Failed(file.path, UnsupportedType(ext)), None)
  }

  // ------------------------------------------------------------------ report

  /** The results that succeeded, in order. */
  function Successful(results: seq<ReplaceResult>): (r: seq<ReplaceResult>)
    ensures |r| <= |results|
    ensures forall j :: 0 <= j < |r| ==> r[j].success
  {
    if results == [] then []
    else
      var last := results[|results| - 1];
      Successful(results[..|results| - 1]) + if last.success then [last] else []
  }

  function Counts(results: seq<ReplaceResult>): seq<nat> {
    seq(|results|, i requires 0 <= i < |results| => results[i].count)
  }

  /** The paths of the results that succeeded with at least one replacement, in order. */
  function ChangedFiles(results: seq<ReplaceResult>): seq<string> {
    if results == [] then []
    else
      var last := results[|results| - 1];
      ChangedFiles(results[..|results| - 1]) + if last.success && last.count > 0 then [last.filePath] else []
  }

  /** The report generateReport returns. */
  datatype Report = Report(total: nat, success: nat, failed: nat, totalReplacements: nat, files: seq<string>)

  lemma CountsSnoc(rs: seq<ReplaceResult>, r: ReplaceResult)
    ensures Counts(rs + [r]) == Counts(rs) + [r.count]
  {
  }

  /** One more result, as the report's loop body sees it. */
  lemma {:induction false} ReportStep(results: seq<ReplaceResult>, i: nat)
    requires i < |results|
    ensures var r := results[i];
      Successful(results[..i + 1]) == Successful(results[..i]) + (if r.success then [r] else [])
      && ChangedFiles(results[..i + 1]) == ChangedFiles(results[..i]) + (if r.success && r.count > 0 then [r.filePath] else [])
      && Sum(Counts(Successful(results[..i + 1]))) == Sum(Counts(Successful(results[..i]))) + (if r.success then r.count else 0)
  {
    PrefixOfPrefix(results, i);
    var r := results[i];
    assert results[..i + 1][i] == r;
    var s := Successful(results[..i]);
    assert Successful(results[..i + 1]) == s + (if r.success then [r] else []);
    if r.success {
      CountsSnoc(s, r);
      SumAppend(Counts(s), [r.count]);
      assert Sum([r.count]) == r.count + Sum([]);
    } else {
      assert s + [] == s;
    }
  }

  // --------------------------------------------------------------- replacer

  /** CodeReplacer: the accessor settings and the text-to-key map it rewrites by. */
  class CodeReplacer {
    const i18nFunction: string
    const importPath: string
    /** `config.replace?.addImports !== false` */
    const addImports: bool
    /** @babel/generator */
    const generate: Program -> string
    /** text -> key, in insertion order */
    var extractedKeys: OMap<string, string>

    ghost predicate Valid()
      reads this
    {
      ValidMap(extractedKeys) && i18nFunction != [] && importPath != []
    }

    function Settings(): (acc: Accessor)
      ensures acc.name == i18nFunction && acc.importPath == importPath && acc.addImports == addImports
    {
      Accessor(i18nFunction, importPath, addImports)
    }

    constructor(config: ReplaceConfig, options: ReplacerOptions, generate: Program -> string)
      ensures Valid() && extractedKeys == EmptyMap()
      ensures i18nFunction == Setting(options.i18nFunction, config.i18nFunction, "t")
      ensures importPath == Setting(options.importPath, config.importPath, "i18n")
      ensures addImports <==> config.addImports != Some(false)
      ensures this.generate == generate
    {
      i18nFunction := Setting(options.i18nFunction, config.i18nFunction, "t");
      importPath := Setting(options.importPath, config.importPath, "i18n");
      addImports := config.addImports != Some(false);
      this.generate := generate;
      extractedKeys := EmptyMap();
    }

    /** loadExtractedKeys: the map is emptied and each text bound to its key, in order. */
    method LoadExtractedKeys(texts: seq<ExtractedText>)
      requires Valid()
      modifies this
      ensures Valid() && extractedKeys == KeyMap(texts)
    {
      extractedKeys := EmptyMap();
      var i := 0;
      while i < |texts|
        invariant i <= |texts|
        invariant Valid() && extractedKeys == KeyMap(texts[..i])
      {
        PrefixOfPrefix(texts, i);
        extractedKeys := Put(extractedKeys, texts[i].text, texts[i].key);
        i := i + 1;
      }
      assert texts[..i] == texts;
    }

    /**
     * The first traversal of replaceJavaScript.  Its ImportDeclaration visitor is a
     * method that reads `this.importPath`, and the traversal calls visitors with `this`
     * bound to its state, which is undefined here; so the first import declaration
     * throws before any comparison, and `hasImport` is never set.
     */
    method ScanImports(nodes: seq<JsNode>) returns (throws: bool)
      ensures throws <==> ImportAmong(nodes, |nodes|)
    {
      throws := false;
      var i := 0;
      while i < |nodes| && !throws
        invariant i <= |nodes|
        invariant throws <==> ImportAmong(nodes, i)
      {
        if nodes[i].ImportDecl? {
          throws := true;
        }
        i := i + 1;
      }
      if throws {
        var j :| 0 <= j < i && j < |nodes| && nodes[j].ImportDecl?;
        assert ImportAmong(nodes, |nodes|);
      }
    }

    /** The second traversal of replaceJavaScript: every node visited, records pushed in order. */
    method VisitNodes(nodes: seq<JsNode>) returns (body: seq<OutNode>, records: seq<Replacement>)
      ensures body == Outs(extractedKeys.entries, i18nFunction, nodes)
      ensures records == Records(extractedKeys.entries, i18nFunction, nodes, |nodes|)
    {
      var keys := extractedKeys.entries;
      ghost var outs := Outs(keys, i18nFunction, nodes);
      body, records := [], [];
      var i := 0;
      while i < |nodes|
        invariant i <= |nodes|
        invariant body == outs[..i]
        invariant records == Records(keys, i18nFunction, nodes, i)
      {
        var v := ReplaceNode(keys, i18nFunction, nodes[i]);
        assert outs[i] == v.out;
        PrefixSnoc(outs, i);
        RecordsStep(keys, i18nFunction, nodes, i);
        body := body + [v.out];
        if v.record.Some? {
          records := records + [v.record.value];
        }
        i := i + 1;
      }
      assert outs[..|nodes|] == outs;
    }

    /** replaceJavaScript: the import scan, which throws on any import, then the replacing traversal. */
    method ReplaceJavaScript(filePath: string, script: Option<seq<JsNode>>, dryRun: bool) returns (o: Outcome)
      requires Valid()
      ensures o == JsOutcome(Settings(), generate, extractedKeys.entries, filePath, script, dryRun)
    {
      if script.None? {
        return Outcome(Failed(filePath, ParseError), None);
      }
      var nodes := script.value;
      var throws := ScanImports(nodes);
      if throws {
        return Outcome(Failed(filePath, ImportVisitorThrows), None);
      }
      var hasImport := false;
      JsOutcomeWithoutImports(Settings(), generate, extractedKeys.entries, filePath, nodes, dryRun);
      var body, records := VisitNodes(nodes);
      var program := Program(records != [] && !hasImport && addImports, body);
      var written := if !dryRun && |records| > 0 then Some(generate(program)) else None;
      o := Outcome(Succeeded(filePath, records), written);
    }

    /** The template pass of replaceVue: each map entry in insertion order. */
    method ReplaceTemplate(template: string) returns (e: TemplateEdit)
      requires Valid()
      ensures e == TemplateRewrite(i18nFunction, extractedKeys, template, |extractedKeys.keys|)
    {
      KeysInEntries(extractedKeys);
      e := TemplateEdit(template, []);
      var i := 0;
      while i < |extractedKeys.keys|
        invariant i <= |extractedKeys.keys|
        invariant e == TemplateRewrite(i18nFunction, extractedKeys, template, i)
      {
        var text := extractedKeys.keys[i];
        e := TemplateStep(i18nFunction, text, extractedKeys.entries[text], e);
        i := i + 1;
      }
    }

    /** replaceVue */
    method ReplaceVue(filePath: string, content: string, sfc: Option<SfcDescriptor>, dryRun: bool) returns (o: Outcome)
      requires Valid()
      ensures o == VueOutcome(Settings(), generate, extractedKeys, filePath, content, sfc, dryRun)
    {
      if sfc.None? {
        return Outcome(Failed(filePath, ParseError), None);
      }
      var d := sfc.value;
      var modified := content;
      var records: seq<Replacement> := [];
      if d.template.Some? {
        var e := ReplaceTemplate(d.template.value.content);
        modified := ReplaceFirst(modified, d.template.value.content, e.template);
        records := e.records;
      }
      assert modified == TemplatePassed(i18nFunction, extractedKeys, content, d);
      var b := ScriptBlock(d);
      if b.Some? {
        var inner := ReplaceJavaScript(TempPath(filePath, b.value), b.value.script, true);
        records := records + ScriptRecords(inner.result);
        if inner.result.success {
          modified := ReplaceFirst(modified, b.value.content, b.value.content);
        }
      } else {
        assert records + [] == records;
      }
      assert records == VueRecords(Settings(), generate, extractedKeys, filePath, d);
      var written := if !dryRun && |records| > 0 then Some(modified) else None;
      o := Outcome(Succeeded(filePath, records), written);
    }

    /** replaceFile */
    method ReplaceFile(file: SourceFile, dryRun: bool) returns (o: Outcome)
      requires Valid()
      ensures o == FileOutcome(Settings(), generate, extractedKeys, file, dryRun)
    {
      if file.content.None? {
        return Outcome(Failed(file.path, Unreadable), None);
      }
      var ext := Extractor.Extension(file.path);
      if Extractor.IsScriptExtension(ext) {
        o := ReplaceJavaScript(file.path, file.parsed.script, dryRun);
      } else if ext == ".vue" {
        o := ReplaceVue(file.path, file.content.value, file.parsed.sfc, dryRun);
      } else {
        o := Outcome(Failed(file.path, UnsupportedType(ext)), None);
      }
    }

    /** replaceFiles: one result per file, in order. */
    method ReplaceFiles(files: seq<SourceFile>, dryRun: bool) returns (results: seq<ReplaceResult>)
      requires Valid()
      ensures |results| == |files|
      ensures forall i :: 0 <= i < |files| ==>
        results[i] == FileOutcome(Settings(), generate, extractedKeys, files[i], dryRun).result
        && results[i].filePath == files[i].path
    {
      ghost var settings, gen, keys := Settings(), generate, extractedKeys;
      ghost var all := seq(|files|, k requires 0 <= k < |files| => FileOutcome(settings, gen, keys, files[k], dryRun).result);
      results := [];
      var i := 0;
      while i < |files|
        invariant i <= |files| && results == all[..i]
      {
        var o := ReplaceFile(files[i], dryRun);
        assert all[i] == o.result;
        PrefixSnoc(all, i);
        results := results + [o.result];
        i := i + 1;
      }
      assert all[..|files|] == all;
    }

    /** generateReport */
    method GenerateReport(results: seq<ReplaceResult>) returns (report: Report)
      ensures report.total == |results|
      ensures report.success == |Successful(results)| && report.success + report.failed == report.total
      ensures report.totalReplacements == Sum(Counts(Successful(results)))
      ensures report.files == ChangedFiles(results)
    {
      report := Report(|results|, 0, 0, 0, []);
      var i := 0;
      while i < |results|
        invariant i <= |results| && report.total == |results|
        invariant report.success == |Successful(results[..i])| && report.success + report.failed == i
        invariant report.totalReplacements == Sum(Counts(Successful(results[..i])))
        invariant report.files == ChangedFiles(results[..i])
      {
        ReportStep(results, i);
        var r := results[i];
        if r.success {
          report := report.(success := report.success + 1);
          if r.count > 0 {
            report := report.(files := report.files + [r.filePath], totalReplacements := report.totalReplacements + r.count);
          }
        } else {
          report := report.(failed := report.failed + 1);
        }
        i := i + 1;
      }
      assert results[..i] == results;
    }
  }

  /**
   * replaceInFiles: a replacer built from the configuration and the options, loaded
   * with the extracted texts, rewrites the files in order.
   */
  method ReplaceInFiles(config: ReplaceConfig, options: ReplacerOptions, generate: Program -> string,
                        files: seq<SourceFile>, texts: seq<ExtractedText>, dryRun: bool)
    returns (results: seq<ReplaceResult>)
    ensures |results| == |files|
    ensures var acc := Accessor(Setting(options.i18nFunction, config.i18nFunction, "t"),
                                Setting(options.importPath, config.importPath, "i18n"),
                                config.addImports != Some(false));
            forall i :: 0 <= i < |files| ==> results[i] == FileOutcome(acc, generate, KeyMap(texts), files[i], dryRun).result
  {
    var replacer := new CodeReplacer(config, options, generate);
    replacer.LoadExtractedKeys(texts);
    results := replacer.ReplaceFiles(files, dryRun);
  }

  // ------------------------------------------------------------ the key map

  /** The map loadExtractedKeys builds: each text bound to its key, later texts overriding. */
  function KeyMap(texts: seq<ExtractedText>): (m: OMap<string, string>)
    ensures ValidMap(m)
  {
    if texts == [] then EmptyMap()
    else
      var t := texts[|texts| - 1];
      Put(KeyMap(texts[..|texts| - 1]), t.text, t.key)
  }

  /** A text is bound to the key of its last occurrence. */
  lemma {:induction false} KeyMapLast(texts: seq<ExtractedText>, i: nat)
    requires i < |texts| && forall j :: i < j < |texts| ==> texts[j].text != texts[i].text
    ensures texts[i].text in KeyMap(texts).entries && KeyMap(texts).entries[texts[i].text] == texts[i].key
  {
    if i < |texts| - 1 {
      LaterTextsDiffer(texts, i);
      KeyMapLast(texts[..|texts| - 1], i);
      KeyMapKeeps(texts, i);
    } else {
      KeyMapStep(texts);
    }
  }

  /** Loading one more, different text leaves the binding of text `i` as it was. */
  lemma {:induction false} KeyMapKeeps(texts: seq<ExtractedText>, i: nat)
    requires i < |texts| - 1 && texts[|texts| - 1].text != texts[i].text
    requires var init := texts[..|texts| - 1];
      texts[i].text in KeyMap(init).entries && KeyMap(init).entries[texts[i].text] == init[i].key
    ensures texts[i].text in KeyMap(texts).entries && KeyMap(texts).entries[texts[i].text] == texts[i].key
  {
    KeyMapStep(texts);
  }

  lemma {:induction false} KeyMapStep(texts: seq<ExtractedText>)
    requires texts != []
    ensures var t := texts[|texts| - 1];
      KeyMap(texts).entries == KeyMap(texts[..|texts| - 1]).entries[t.text := t.key]
  {
  }

  lemma {:induction false} LaterTextsDiffer(texts: seq<ExtractedText>, i: nat)
    requires i < |texts| - 1 && forall j :: i < j < |texts| ==> texts[j].text != texts[i].text
    ensures var init := texts[..|texts| - 1]; forall j :: i < j < |init| ==> init[j].text != init[i].text
  {
  }

  /** The map's texts are exactly the texts loaded. */
  lemma KeyMapDomain(texts: seq<ExtractedText>, text: string)
    ensures text in KeyMap(texts).entries <==> exists i :: 0 <= i < |texts| && texts[i].text == text
  {
    if text in KeyMap(texts).entries {
      var i := KeyMapFrom(texts, text);
    }
    if exists i :: 0 <= i < |texts| && texts[i].text == text {
      var i :| 0 <= i < |texts| && texts[i].text == text;
      KeyMapHas(texts, i);
    }
  }

  lemma {:induction false} KeyMapHas(texts: seq<ExtractedText>, i: nat)
    requires i < |texts|
    ensures texts[i].text in KeyMap(texts).entries
  {
    var init := texts[..|texts| - 1];
    if i < |init| {
      KeyMapHas(init, i);
      KeyMapIn(texts, init[i].text);
    } else {
      KeyMapIn(texts, texts[i].text);
    }
  }

  /** A text is loaded after one more text exactly when it is that text or was loaded before. */
  lemma KeyMapIn(texts: seq<ExtractedText>, k: string)
    requires texts != []
    ensures k in KeyMap(texts).entries <==> k == texts[|texts| - 1].text || k in KeyMap(texts[..|texts| - 1]).entries
  {
  }

  lemma {:induction false} KeyMapFrom(texts: seq<ExtractedText>, text: string) returns (i: nat)
    requires text in KeyMap(texts).entries
    ensures i < |texts| && texts[i].text == text
  {
    var n := |texts| - 1;
    var init := texts[..n];
    KeyMapIn(texts, text);
    if texts[n].text == text {
      i := n;
    } else {
      i := KeyMapFrom(init, text);
      assert init[i] == texts[i];
    }
  }
}
