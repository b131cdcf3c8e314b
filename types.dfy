// The records the pipeline stages pass to each other (src/types/index.ts), and
// the abstract output of the parsers the translator calls: the Babel traversal,
// the Vue single-file-component parser and JSON.parse.
module Types {
  import opened Collections

  /** A source position, Babel's `loc.start`. */
  datatype Loc = Loc(line: nat, column: nat)

  /** ExtractedText: one piece of Chinese text found in a file, with the key it was given. */
  datatype ExtractedText = ExtractedText(
    key: string,
    text: string,
    file: string,
    line: Option<nat>,
    column: Option<nat>,
    context: Option<string>)

  /** A template literal's static chunk: its raw text and position. */
  datatype Quasi = Quasi(raw: string, loc: Option<Loc>)

  /**
   * The nodes of a parsed script that the translator's Babel visitors act on, in
   * the order the traversal enters them.  A JSX attribute carries the value of its
   * string-literal value, when it has one, and that literal's own position.
   */
  datatype JsNode =
    | StringLit(value: string, loc: Option<Loc>)
    | TemplateLit(quasis: seq<Quasi>)
    | JsxText(value: string, loc: Option<Loc>)
    | JsxAttr(literal: Option<string>, loc: Option<Loc>, literalLoc: Option<Loc>)
    | ImportDecl(source: string)

  /** A block of a Vue single-file component, with its script parse when it is a script. */
  datatype SfcBlock = SfcBlock(content: string, lang: Option<string>, startLine: nat, script: Option<seq<JsNode>>)

  datatype SfcDescriptor = SfcDescriptor(template: Option<SfcBlock>, script: Option<SfcBlock>, scriptSetup: Option<SfcBlock>)

  /** A parsed JSON value; an object lists its members in Object.keys order. */
  datatype Json = JString(s: string) | JArray(items: seq<Json>) | JObject(members: seq<Member>) | JOther

  datatype Member = Member(name: string, value: Json)

  /** What each parser makes of a file's content (None: the parser throws). */
  datatype Parsed = Parsed(script: Option<seq<JsNode>>, sfc: Option<SfcDescriptor>, json: Option<Json>)

  /** A file: its path, its content when it can be read, and the parses of that content. */
  datatype SourceFile = SourceFile(path: string, content: Option<string>, parsed: Parsed)

  /** Where a translation came from. */
  datatype Origin = Api | Memory | Manual

  /** TranslationResult */
  datatype TranslationResult = TranslationResult(original: string, translated: string, source: Origin, error: Option<string>)

  /** The metadata of a translation entry. */
  datatype Metadata = Metadata(
    file: Option<string>,
    line: Option<nat>,
    context: Option<string>,
    lastModified: Option<string>,
    translatedBy: Option<string>)

  /** TranslationEntry: a key, its source text and its translations per language, in key order. */
  datatype TranslationEntry = TranslationEntry(
    key: string,
    source: string,
    translations: OMap<string, string>,
    metadata: Option<Metadata>)

  /** `entry.translations[lang]` */
  function TranslationFor(e: TranslationEntry, lang: string): Option<string> {
    if lang in e.translations.entries then Some(e.translations.entries[lang]) else None
  }

  /** A JavaScript test of an optional string: present and not empty. */
  predicate Truthy(s: Option<string>) {
    s.Some? && s.value != []
  }

  /** The `baidu` block of ApiConfig. */
  datatype BaiduCredentials = BaiduCredentials(appid: Option<string>, secret: Option<string>)

  /**
   * ApiConfig.  Every field may be absent, as in a partial configuration; the
   * `openai` and `anthropic` blocks are not read by the modelled code.
   */
  datatype ApiConfig = ApiConfig(
    provider: Option<string>,
    key: Option<string>,
    baidu: Option<BaiduCredentials>,
    rateLimit: Option<real>,
    batchSize: Option<nat>,
    retries: Option<nat>)
}
