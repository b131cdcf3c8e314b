// The configuration (src/core/config-loader.ts): a user configuration is laid
// over the defaults, nested blocks field by field, and the result is checked
// against nine rules, every failing rule contributing its message.  Searching
// for the configuration file is not modelled: its parsed content is given.
module Config {
  import opened Collections
  import opened Types
  import opened Strings

  /** A nested object the loader copies as a whole (glossary, replace, validation). */
  datatype Nested = Nested(fields: OMap<string, string>)

  /** ExtractConfig, every field optional (`includes` is the `include` field); patterns and custom extractors are not modelled. */
  datatype ExtractConfig = ExtractConfig(includes: Option<seq<string>>, exclude: Option<seq<string>>, includeComments: Option<bool>)

  /** OutputConfig, every field optional. */
  datatype OutputConfig = OutputConfig(dir: Option<string>, format: Option<string>, minify: Option<bool>, splitByNamespace: Option<bool>)

  /** MemoryConfig, every field optional. */
  datatype MemoryConfig = MemoryConfig(enabled: Option<bool>, dbPath: Option<string>, similarityThreshold: Option<real>)

  /** Partial<TranslatorConfig>: each field may be absent. */
  datatype TranslatorConfig = TranslatorConfig(
    sourceLanguage: Option<string>,
    targetLanguages: Option<seq<string>>,
    api: Option<ApiConfig>,
    extract: Option<ExtractConfig>,
    output: Option<OutputConfig>,
    memory: Option<MemoryConfig>,
    incremental: Option<bool>,
    glossary: Option<Nested>,
    replace: Option<Nested>,
    validation: Option<Nested>)

  /** A configuration with no field set, `{}`. */
  const Empty := TranslatorConfig(None, None, None, None, None, None, None, None, None, None)

  /** defaultConfig */
  const DefaultConfig := TranslatorConfig(
    Some("zh-CN"),
    Some(["en"]),
    Some(ApiConfig(Some("google"), Some(""), None, Some(10.0), Some(50), Some(3))),
    Some(ExtractConfig(Some(["src/**/*.{js,jsx,ts,tsx,vue}"]), Some(["node_modules", "dist", "build"]), Some(false))),
    Some(OutputConfig(Some("src/locales"), Some("json"), Some(false), Some(false))),
    Some(MemoryConfig(Some(true), Some(".translator/memory.db"), Some(0.7))),
    Some(true),
    None, None, None)

  // ------------------------------------------------------------ merging

  /** `{ ...a, ...b }` on one field: b's value when set. */
  function Or<T>(b: Option<T>, a: Option<T>): Option<T> {
    if b.Some? then b else a
  }

  function MergeApi(d: Option<ApiConfig>, c: Option<ApiConfig>): ApiConfig {
    var a := if d.Some? then d.value else ApiConfig(None, None, None, None, None, None);
    var b := if c.Some? then c.value else ApiConfig(None, None, None, None, None, None);
    ApiConfig(Or(b.provider, a.provider), Or(b.key, a.key), Or(b.baidu, a.baidu),
              Or(b.rateLimit, a.rateLimit), Or(b.batchSize, a.batchSize), Or(b.retries, a.retries))
  }

  function MergeExtract(d: Option<ExtractConfig>, c: Option<ExtractConfig>): ExtractConfig {
    var a := if d.Some? then d.value else ExtractConfig(None, None, None);
    var b := if c.Some? then c.value else ExtractConfig(None, None, None);
    ExtractConfig(Or(b.includes, a.includes), Or(b.exclude, a.exclude), Or(b.includeComments, a.includeComments))
  }

  function MergeOutput(d: Option<OutputConfig>, c: Option<OutputConfig>): OutputConfig {
    var a := if d.Some? then d.value else OutputConfig(None, None, None, None);
    var b := if c.Some? then c.value else OutputConfig(None, None, None, None);
    OutputConfig(Or(b.dir, a.dir), Or(b.format, a.format), Or(b.minify, a.minify), Or(b.splitByNamespace, a.splitByNamespace))
  }

  function MergeMemory(d: Option<MemoryConfig>, c: Option<MemoryConfig>): MemoryConfig {
    var a := if d.Some? then d.value else MemoryConfig(None, None, None);
    var b := if c.Some? then c.value else MemoryConfig(None, None, None);
    MemoryConfig(Or(b.enabled, a.enabled), Or(b.dbPath, a.dbPath), Or(b.similarityThreshold, a.similarityThreshold))
  }

  /**
   * mergeConfig: the custom top-level fields win; api, extract, output and
   * memory are merged field by field (and always present afterwards); the
   * other nested objects are taken whole.
   */
  function MergeConfig(defaults: TranslatorConfig, custom: TranslatorConfig): (r: TranslatorConfig)
    ensures r.api.Some? && r.extract.Some? && r.output.Some? && r.memory.Some?
  {
    TranslatorConfig(
      Or(custom.sourceLanguage, defaults.sourceLanguage),
      Or(custom.targetLanguages, defaults.targetLanguages),
      Some(MergeApi(defaults.api, custom.api)),
      Some(MergeExtract(defaults.extract, custom.extract)),
      Some(MergeOutput(defaults.output, custom.output)),
      Some(MergeMemory(defaults.memory, custom.memory)),
      Or(custom.incremental, defaults.incremental),
      Or(custom.glossary, defaults.glossary),
      Or(custom.replace, defaults.replace),
      Or(custom.validation, defaults.validation))
  }

  /** A configuration's api block, `{}` when absent. */
  function ApiOf(c: TranslatorConfig): ApiConfig {
    if c.api.Some? then c.api.value else ApiConfig(None, None, None, None, None, None)
  }

  /** A configuration's extract block, `{}` when absent. */
  function ExtractOf(c: TranslatorConfig): ExtractConfig {
    if c.extract.Some? then c.extract.value else ExtractConfig(None, None, None)
  }

  /** A configuration's output block, `{}` when absent. */
  function OutputOf(c: TranslatorConfig): OutputConfig {
    if c.output.Some? then c.output.value else OutputConfig(None, None, None, None)
  }

  /** A configuration's memory block, `{}` when absent. */
  function MemoryOf(c: TranslatorConfig): MemoryConfig {
    if c.memory.Some? then c.memory.value else MemoryConfig(None, None, None)
  }

  /** Every field the custom configuration sets, at the top or inside a merged block, is the merged value. */
  lemma MergeCustomWins(defaults: TranslatorConfig, custom: TranslatorConfig)
    ensures var r := MergeConfig(defaults, custom);
      && (custom.sourceLanguage.Some? ==> r.sourceLanguage == custom.sourceLanguage)
      && (custom.targetLanguages.Some? ==> r.targetLanguages == custom.targetLanguages)
      && (custom.incremental.Some? ==> r.incremental == custom.incremental)
      && (custom.glossary.Some? ==> r.glossary == custom.glossary)
      && (custom.replace.Some? ==> r.replace == custom.replace)
      && (custom.validation.Some? ==> r.validation == custom.validation)
    ensures var r, a := MergeConfig(defaults, custom), ApiOf(custom);
      && (a.provider.Some? ==> r.api.value.provider == a.provider)
      && (a.key.Some? ==> r.api.value.key == a.key)
      && (a.baidu.Some? ==> r.api.value.baidu == a.baidu)
      && (a.rateLimit.Some? ==> r.api.value.rateLimit == a.rateLimit)
      && (a.batchSize.Some? ==> r.api.value.batchSize == a.batchSize)
      && (a.retries.Some? ==> r.api.value.retries == a.retries)
    ensures var r, e := MergeConfig(defaults, custom), ExtractOf(custom);
      && (e.includes.Some? ==> r.extract.value.includes == e.includes)
      && (e.exclude.Some? ==> r.extract.value.exclude == e.exclude)
      && (e.includeComments.Some? ==> r.extract.value.includeComments == e.includeComments)
    ensures var r, o := MergeConfig(defaults, custom), OutputOf(custom);
      && (o.dir.Some? ==> r.output.value.dir == o.dir)
      && (o.format.Some? ==> r.output.value.format == o.format)
      && (o.minify.Some? ==> r.output.value.minify == o.minify)
      && (o.splitByNamespace.Some? ==> r.output.value.splitByNamespace == o.splitByNamespace)
    ensures var r, m := MergeConfig(defaults, custom), MemoryOf(custom);
      && (m.enabled.Some? ==> r.memory.value.enabled == m.enabled)
      && (m.dbPath.Some? ==> r.memory.value.dbPath == m.dbPath)
      && (m.similarityThreshold.Some? ==> r.memory.value.similarityThreshold == m.similarityThreshold)
  {
  }

  /**
   * A field the custom configuration leaves unset keeps its default, at the top
   * and inside the merged blocks (where an absent block counts as `{}`).
   */
  lemma MergeKeepsDefaults(defaults: TranslatorConfig, custom: TranslatorConfig)
    ensures var r := MergeConfig(defaults, custom);
      && (custom.sourceLanguage.None? ==> r.sourceLanguage == defaults.sourceLanguage)
      && (custom.targetLanguages.None? ==> r.targetLanguages == defaults.targetLanguages)
      && (custom.incremental.None? ==> r.incremental == defaults.incremental)
      && (custom.glossary.None? ==> r.glossary == defaults.glossary)
      && (custom.replace.None? ==> r.replace == defaults.replace)
      && (custom.validation.None? ==> r.validation == defaults.validation)
      && (custom.api.None? && defaults.api.Some? ==> r.api == defaults.api)
    ensures var r, a, d := MergeConfig(defaults, custom), ApiOf(custom), ApiOf(defaults);
      && (a.provider.None? ==> r.api.value.provider == d.provider)
      && (a.key.None? ==> r.api.value.key == d.key)
      && (a.baidu.None? ==> r.api.value.baidu == d.baidu)
      && (a.rateLimit.None? ==> r.api.value.rateLimit == d.rateLimit)
      && (a.batchSize.None? ==> r.api.value.batchSize == d.batchSize)
      && (a.retries.None? ==> r.api.value.retries == d.retries)
    ensures var r, e, d := MergeConfig(defaults, custom), ExtractOf(custom), ExtractOf(defaults);
      && (e.includes.None? ==> r.extract.value.includes == d.includes)
      && (e.exclude.None? ==> r.extract.value.exclude == d.exclude)
      && (e.includeComments.None? ==> r.extract.value.includeComments == d.includeComments)
    ensures var r, o, d := MergeConfig(defaults, custom), OutputOf(custom), OutputOf(defaults);
      && (o.dir.None? ==> r.output.value.dir == d.dir)
      && (o.format.None? ==> r.output.value.format == d.format)
      && (o.minify.None? ==> r.output.value.minify == d.minify)
      && (o.splitByNamespace.None? ==> r.output.value.splitByNamespace == d.splitByNamespace)
    ensures var r, m, d := MergeConfig(defaults, custom), MemoryOf(custom), MemoryOf(defaults);
      && (m.enabled.None? ==> r.memory.value.enabled == d.enabled)
      && (m.dbPath.None? ==> r.memory.value.dbPath == d.dbPath)
      && (m.similarityThreshold.None? ==> r.memory.value.similarityThreshold == d.similarityThreshold)
  {
  }

  /** Merging with `{}` leaves a configuration whose four blocks are present as it is. */
  lemma MergeEmpty(defaults: TranslatorConfig)
    requires defaults.api.Some? && defaults.extract.Some? && defaults.output.Some? && defaults.memory.Some?
    ensures MergeConfig(defaults, Empty) == defaults
  {
  }

  /** Merging the same custom configuration twice changes nothing more. */
  lemma MergeIdempotent(defaults: TranslatorConfig, custom: TranslatorConfig)
    ensures MergeConfig(MergeConfig(defaults, custom), custom) == MergeConfig(defaults, custom)
  {
  }

  // ------------------------------------------------------------ validation

  /** The nine rules, in the order they are checked. */
  datatype Rule =
    | SourceLanguage | TargetLanguages | ProviderSet | ProviderKnown | BaiduAppid | BaiduSecret
    | IncludePatterns | OutputDir | OutputFormat

  const Providers: seq<string> := ["google", "baidu", "deepl"]
  const Formats: seq<string> := ["json", "yaml", "js", "ts"]
  const ValidationFailed: string := "配置验证失败:\n"

  /** The message each rule records when it fails. */
  function Message(rule: Rule): string {
    match rule
    case SourceLanguage => "sourceLanguage 是必需的"
    case TargetLanguages => "targetLanguages 至少需要一个目标语言"
    case ProviderSet => "api.provider 是必需的"
    case ProviderKnown => "api.provider 必须是 google、baidu 或 deepl"
    case BaiduAppid => "使用百度翻译时，api.baidu.appid 是必需的"
    case BaiduSecret => "使用百度翻译时，api.baidu.secret 是必需的"
    case IncludePatterns => "extract.include 至少需要一个文件模式"
    case OutputDir => "output.dir 是必需的"
    case OutputFormat => "output.format 必须是 json、yaml、js 或 ts"
  }

  /** `config.api?.provider` */
  function ProviderOf(c: TranslatorConfig): Option<string> {
    if c.api.Some? then c.api.value.provider else None
  }

  /** `config.api?.baidu` */
  function BaiduOf(c: TranslatorConfig): Option<BaiduCredentials> {
    if c.api.Some? then c.api.value.baidu else None
  }

  /** `config.extract?.include` */
  function IncludeOf(c: TranslatorConfig): Option<seq<string>> {
    if c.extract.Some? then c.extract.value.includes else None
  }

  /** `config.output?.dir` */
  function DirOf(c: TranslatorConfig): Option<string> {
    if c.output.Some? then c.output.value.dir else None
  }

  /** `config.output?.format` */
  function FormatOf(c: TranslatorConfig): Option<string> {
    if c.output.Some? then c.output.value.format else None
  }

  /** `x || ''` */
  function OrEmpty(s: Option<string>): string {
    if s.Some? then s.value else ""
  }

  /** The configuration breaks the rule. */
  predicate Fails(c: TranslatorConfig, rule: Rule) {
    match rule
    case SourceLanguage => !Truthy(c.sourceLanguage)
    case TargetLanguages => c.targetLanguages.None? || c.targetLanguages.value == []
    case ProviderSet => !Truthy(ProviderOf(c))
    case ProviderKnown => OrEmpty(ProviderOf(c)) !in Providers
    case BaiduAppid => ProviderOf(c) == Some("baidu") && (BaiduOf(c).None? || !Truthy(BaiduOf(c).value.appid))
    case BaiduSecret => ProviderOf(c) == Some("baidu") && (BaiduOf(c).None? || !Truthy(BaiduOf(c).value.secret))
    case IncludePatterns => IncludeOf(c).None? || IncludeOf(c).value == []
    case OutputDir => !Truthy(DirOf(c))
    case OutputFormat => OrEmpty(FormatOf(c)) !in Formats
  }

  /** The rule's message when it fails, nothing otherwise. */
  function Check(c: TranslatorConfig, rule: Rule): seq<string> {
    if Fails(c, rule) then [Message(rule)] else []
  }

  /** The messages of the failing rules, in rule order. */
  function Errors(c: TranslatorConfig): seq<string> {
    Check(c, SourceLanguage) + Check(c, TargetLanguages) + Check(c, ProviderSet) + Check(c, ProviderKnown)
    + Check(c, BaiduAppid) + Check(c, BaiduSecret) + Check(c, IncludePatterns) + Check(c, OutputDir) + Check(c, OutputFormat)
  }

  /** validateConfig: nothing when every rule holds, else the error listing each failing rule's message. */
  function Validate(c: TranslatorConfig): Result<(), string> {
    var errors := Errors(c);
    if errors == [] then Ok(()) else Err(ValidationFailed + JoinWith(errors, "\n"))
  }

  /** One check of validateConfig: push the rule's message when the configuration breaks it. */
  method Push(errors: seq<string>, c: TranslatorConfig, rule: Rule) returns (next: seq<string>)
    ensures next == errors + Check(c, rule)
  {
    next := errors;
    if Fails(c, rule) {
      next := next + [Message(rule)];
    }
  }

  /** validateConfig: the nine checks in order, then the error when any of them failed. */
  method ValidateConfig(c: TranslatorConfig) returns (r: Result<(), string>)
    ensures r == Validate(c)
  {
    var errors: seq<string> := [];
    errors := Push(errors, c, SourceLanguage);
    errors := Push(errors, c, TargetLanguages);
    errors := Push(errors, c, ProviderSet);
    errors := Push(errors, c, ProviderKnown);
    errors := Push(errors, c, BaiduAppid);
    errors := Push(errors, c, BaiduSecret);
    errors := Push(errors, c, IncludePatterns);
    errors := Push(errors, c, OutputDir);
    errors := Push(errors, c, OutputFormat);
    assert [] + Check(c, SourceLanguage) == Check(c, SourceLanguage);
    if |errors| > 0 {
      return Err(ValidationFailed + JoinWith(errors, "\n"));
    }
    return Ok(());
  }

  /** No two rules share a message. */
  lemma MessagesDistinct(a: Rule, b: Rule)
    requires a != b
    ensures Message(a) != Message(b)
  {
  }

  /** A rule's message is in one check's output exactly when that check is the rule's and it fails. */
  lemma CheckLists(c: TranslatorConfig, rule: Rule, other: Rule)
    ensures Message(rule) in Check(c, other) <==> other == rule && Fails(c, rule)
  {
    if other != rule {
      MessagesDistinct(rule, other);
    }
  }

  /** A rule's message is listed exactly when the rule fails. */
  lemma ErrorsList(c: TranslatorConfig, rule: Rule)
    ensures Message(rule) in Errors(c) <==> Fails(c, rule)
  {
    CheckLists(c, rule, SourceLanguage);
    CheckLists(c, rule, TargetLanguages);
    CheckLists(c, rule, ProviderSet);
    CheckLists(c, rule, ProviderKnown);
    CheckLists(c, rule, BaiduAppid);
    CheckLists(c, rule, BaiduSecret);
    CheckLists(c, rule, IncludePatterns);
    CheckLists(c, rule, OutputDir);
    CheckLists(c, rule, OutputFormat);
  }

  /** validateConfig passes exactly when no rule fails. */
  lemma ValidateIff(c: TranslatorConfig)
    ensures Validate(c).Ok? <==> forall rule :: !Fails(c, rule)
  {
    if !Validate(c).Ok? {
      var rule :| Message(rule) == Errors(c)[0];
      ErrorsList(c, rule);
    }
  }

  /**
   * A configuration that passes names google, baidu or deepl (openai and
   * anthropic are refused), and baidu only with an appid and a secret.
   */
  lemma ValidProvider(c: TranslatorConfig)
    requires Validate(c).Ok?
    ensures ProviderOf(c).Some? && ProviderOf(c).value in Providers
    ensures ProviderOf(c) == Some("baidu") ==> BaiduOf(c).Some? && Truthy(BaiduOf(c).value.appid) && Truthy(BaiduOf(c).value.secret)
    ensures Truthy(c.sourceLanguage) && c.targetLanguages.Some? && c.targetLanguages.value != []
  {
    ValidateIff(c);
    assert !Fails(c, ProviderKnown) && !Fails(c, ProviderSet) && !Fails(c, BaiduAppid) && !Fails(c, BaiduSecret);
    assert !Fails(c, SourceLanguage) && !Fails(c, TargetLanguages);
  }

  // ------------------------------------------------------------ creating and loading

  /** createConfig: the options over the defaults, then validated. */
  function CreateConfig(options: TranslatorConfig): Result<TranslatorConfig, string> {
    var config := MergeConfig(DefaultConfig, options);
    match Validate(config)
    case Err(e) => Err(e)
    case Ok(_) => Ok(config)
  }

  /** loadConfig, given the configuration file found (None: none found): the defaults, unvalidated, or createConfig. */
  function LoadConfig(found: Option<TranslatorConfig>): Result<TranslatorConfig, string> {
    if found.None? then Ok(DefaultConfig) else CreateConfig(found.value)
  }

  /** The defaults satisfy every rule, so `createConfig({})` and loading without a file give the defaults. */
  lemma DefaultsValid()
    ensures forall rule :: !Fails(DefaultConfig, rule)
    ensures CreateConfig(Empty) == Ok(DefaultConfig)
    ensures LoadConfig(None) == LoadConfig(Some(Empty))
  {
    forall rule ensures !Fails(DefaultConfig, rule) {
    }
    ValidateIff(DefaultConfig);
    MergeEmpty(DefaultConfig);
  }

  /** createConfig succeeds exactly when the merged configuration breaks no rule, and then returns it. */
  lemma CreateConfigIff(options: TranslatorConfig)
    ensures CreateConfig(options).Ok? <==> forall rule :: !Fails(MergeConfig(DefaultConfig, options), rule)
    ensures CreateConfig(options).Ok? ==> CreateConfig(options).value == MergeConfig(DefaultConfig, options)
  {
    ValidateIff(MergeConfig(DefaultConfig, options));
  }
}
