// Translator (src/core/translator.ts): the texts of a catalog are turned into
// translation entries for one language.  An entry whose key the saved
// translation file already has keeps the saved translations (unless forced);
// otherwise an exact hit in the translation memory fills it; the rest are queued,
// sent to the provider in one batched call, and each result is written back into
// the entry of its text and, when it carries no error, into the memory.
// The saved file is given as its parsed content (None: missing or unreadable).
module Translator {
  import opened Collections
  import opened Types
  import opened Providers
  import Memory

  /** translateTexts' options: `useMemory` (default true) and `force` (default false). */
  datatype Options = Options(useMemory: bool, force: bool)

  const DefaultOptions := Options(true, false)

  /** What the translator reads of its configuration: the source language and the API block. */
  datatype Settings = Settings(sourceLanguage: string, api: ApiConfig, memory: Option<Memory.MemoryConfig>)

  // ------------------------------------------------------------ the provider

  const UnsupportedProvider: string := "不支持的翻译提供商: "
  const BaiduNeedsCredentials: string := "百度翻译需要 appid 和 secret"

  /** `${x}` of an optional string: absent prints as `undefined`. */
  function Shown(s: Option<string>): string {
    if s.Some? then s.value else "undefined"
  }

  /** The display name of each supported provider. */
  function ProviderName(provider: string): Option<string> {
    if provider == "google" then Some("Google Translate")
    else if provider == "baidu" then Some("百度翻译")
    else if provider == "deepl" then Some("DeepL")
    else None
  }

  /**
   * createProvider: google, baidu and deepl are built (their constructors check
   * the API key, and baidu its appid and secret); any other provider is refused.
   * The result is the provider's name, or the message of the error thrown.
   */
  function CreateProvider(api: ApiConfig): (r: Result<string, string>)
    ensures api.provider.None? || ProviderName(api.provider.value).None? ==> r == Err(UnsupportedProvider + Shown(api.provider))
    ensures r.Ok? <==> api.provider.Some? && ProviderName(api.provider.value).Some?
                       && ValidateConfig(ProviderName(api.provider.value).value, api).Ok?
                       && (api.provider.value == "baidu" ==> api.baidu.Some? && Truthy(api.baidu.value.appid) && Truthy(api.baidu.value.secret))
  {
    if api.provider.None? || ProviderName(api.provider.value).None? then Err(UnsupportedProvider + Shown(api.provider))
    else
      var name := ProviderName(api.provider.value).value;
      match ValidateConfig(name, api)
      case Err(e) => Err(e)
      case Ok(_) =>
        if api.provider.value == "baidu" && (api.baidu.None? || !Truthy(api.baidu.value.appid) || !Truthy(api.baidu.value.secret))
        then Err(BaiduNeedsCredentials)
        else Ok(name)
  }

  /** Only the three providers with an implementation can be created. */
  lemma CreatedProviders(api: ApiConfig)
    requires CreateProvider(api).Ok?
    ensures api.provider.value in ["google", "baidu", "deepl"]
    ensures Truthy(api.key) || api.baidu.Some?
  {
  }

  // ------------------------------------------------------- existing entries

  /** loadExistingTranslations: one entry per saved key, holding its translation; the source is not stored. */
  function LoadExisting(saved: Option<OMap<string, string>>, lang: string): (r: seq<TranslationEntry>)
    requires saved.Some? ==> ValidMap(saved.value)
    ensures saved.None? ==> r == []
    ensures saved.Some? ==> |r| == |saved.value.keys|
    ensures saved.Some? ==> forall i :: 0 <= i < |r| ==>
      r[i] == TranslationEntry(saved.value.keys[i], "", Put(EmptyMap(), lang, saved.value.entries[saved.value.keys[i]]), None)
  {
    if saved.None? then []
    else
      var m := saved.value;
      seq(|m.keys|, i requires 0 <= i < |m.keys| => TranslationEntry(m.keys[i], "", Put(EmptyMap(), lang, m.entries[m.keys[i]]), None))
  }

  /** `existing.find(e => e.key === key)`, from position `from`: the index of the first entry with the key. */
  function FindSaved(existing: seq<TranslationEntry>, key: string, from: nat := 0): (r: Option<nat>)
    decreases |existing| - from
    ensures r.Some? ==> from <= r.value < |existing| && existing[r.value].key == key
                        && forall j :: from <= j < r.value ==> existing[j].key != key
    ensures r.None? ==> forall j :: from <= j < |existing| ==> existing[j].key != key
  {
    if from >= |existing| then None
    else if existing[from].key == key then Some(from)
    else FindSaved(existing, key, from + 1)
  }

  // --------------------------------------------------------------- deciding

  /** A memory that may be disabled (None). */
  ghost predicate ValidMemory(memory: Option<Memory.Table>) {
    memory.Some? ==> ValidMap(memory.value)
  }

  /** The entry translateTexts builds for a text, before a translation is filled in. */
  function Blank(x: ExtractedText): TranslationEntry {
    TranslationEntry(x.key, x.text, EmptyMap(), Some(Metadata(Some(x.file), x.line, x.context, None, None)))
  }

  /** Where a text's translation comes from. */
  datatype Decision = Reuse(translations: OMap<string, string>) | Remembered(translation: string) | Queued

  /** The saved entry is reused: the key is saved and `force` is off. */
  predicate Reused(existing: seq<TranslationEntry>, x: ExtractedText, opts: Options) {
    FindSaved(existing, x.key).Some? && !opts.force
  }

  /** The memory is asked for the text: it is not reused, memory is wanted and is enabled. */
  predicate Consulted(existing: seq<TranslationEntry>, memory: Option<Memory.Table>, x: ExtractedText, opts: Options) {
    !Reused(existing, x, opts) && opts.useMemory && memory.Some?
  }

  /** The memory's answer for the text, when it is asked. */
  function Hit(existing: seq<TranslationEntry>, memory: Option<Memory.Table>, x: ExtractedText, lang: string, opts: Options): Option<string> {
    if Consulted(existing, memory, x, opts) then Memory.Lookup(memory.value, Memory.Key(x.text, lang)) else None
  }

  /** The saved translations, else a non-empty memory translation, else the provider. */
  function Decide(existing: seq<TranslationEntry>, memory: Option<Memory.Table>, x: ExtractedText, lang: string, opts: Options): (r: Decision)
    ensures r.Reuse? <==> Reused(existing, x, opts)
    ensures r.Remembered? <==> !Reused(existing, x, opts) && Truthy(Hit(existing, memory, x, lang, opts))
    ensures r.Queued? <==> !Reused(existing, x, opts) && !Truthy(Hit(existing, memory, x, lang, opts))
  {
    if Reused(existing, x, opts) then Reuse(existing[FindSaved(existing, x.key).value].translations)
    else
      var hit := Hit(existing, memory, x, lang, opts);
      if Truthy(hit) then Remembered(hit.value) else Queued
  }

  /** The entry for a text under a decision. */
  function Prepared(x: ExtractedText, d: Decision, lang: string): (r: TranslationEntry)
    ensures r.key == x.key && r.source == x.text && r.metadata == Blank(x).metadata
  {
    match d
    case Reuse(translations) => Blank(x).(translations := translations)
    case Remembered(translation) => Blank(x).(translations := Put(EmptyMap(), lang, translation))
    case Queued => Blank(x)
  }

  /** The memory after the text's turn: any hit, even an empty translation, counts one more use. */
  function Consult(existing: seq<TranslationEntry>, memory: Option<Memory.Table>, x: ExtractedText, lang: string, opts: Options): (r: Option<Memory.Table>)
    requires ValidMemory(memory)
    ensures ValidMemory(r) && r.Some? == memory.Some?
  {
    if Hit(existing, memory, x, lang, opts).Some? then Some(Memory.IncrementUsage(memory.value, Memory.Key(x.text, lang))) else memory
  }

  /** Counting a use changes no stored translation. */
  lemma ConsultKeepsLookups(existing: seq<TranslationEntry>, memory: Option<Memory.Table>, x: ExtractedText, lang: string, opts: Options, k: Memory.Key)
    requires ValidMemory(memory) && memory.Some?
    ensures Memory.Lookup(Consult(existing, memory, x, lang, opts).value, k) == Memory.Lookup(memory.value, k)
  {
  }

  /** The entries so far, the indices of the queued texts, and the memory. */
  datatype Plan = Plan(entries: seq<TranslationEntry>, queue: seq<nat>, memory: Option<Memory.Table>)

  /** translateTexts' first loop over the texts. */
  function Prepare(existing: seq<TranslationEntry>, memory: Option<Memory.Table>, texts: seq<ExtractedText>, lang: string, opts: Options): (r: Plan)
    requires ValidMemory(memory)
    ensures ValidMemory(r.memory) && r.memory.Some? == memory.Some?
    ensures |r.entries| == |texts| && forall j :: 0 <= j < |r.queue| ==> r.queue[j] < |texts|
  {
    if texts == [] then Plan([], [], memory)
    else
      var n := |texts| - 1;
      var p := Prepare(existing, memory, texts[..n], lang, opts);
      var d := Decide(existing, p.memory, texts[n], lang, opts);
      Plan(p.entries + [Prepared(texts[n], d, lang)], p.queue + (if d.Queued? then [n] else []), Consult(existing, p.memory, texts[n], lang, opts))
  }

  predicate Increasing(s: seq<nat>) {
    forall i, j :: 0 <= i < j < |s| ==> s[i] < s[j]
  }

  /** The decision depends on the memory only through its translation of the text. */
  lemma DecideSameLookup(existing: seq<TranslationEntry>, m1: Option<Memory.Table>, m2: Option<Memory.Table>, x: ExtractedText, lang: string, opts: Options)
    requires m1.Some? == m2.Some?
    requires m1.Some? ==> Memory.Lookup(m1.value, Memory.Key(x.text, lang)) == Memory.Lookup(m2.value, Memory.Key(x.text, lang))
    ensures Decide(existing, m1, x, lang, opts) == Decide(existing, m2, x, lang, opts)
  {
  }

  /** The first loop counts uses but changes no stored translation. */
  lemma {:induction false} PrepareKeepsLookups(existing: seq<TranslationEntry>, memory: Option<Memory.Table>, texts: seq<ExtractedText>, lang: string, opts: Options, k: Memory.Key)
    requires ValidMemory(memory) && memory.Some?
    ensures Memory.Lookup(Prepare(existing, memory, texts, lang, opts).memory.value, k) == Memory.Lookup(memory.value, k)
  {
    if texts != [] {
      var n := |texts| - 1;
      PrepareKeepsLookups(existing, memory, texts[..n], lang, opts, k);
      ConsultKeepsLookups(existing, Prepare(existing, memory, texts[..n], lang, opts).memory, texts[n], lang, opts, k);
    }
  }

  /** Each text's decision in the first loop is the one taken on the memory as it was at the start. */
  lemma DecideAtStart(existing: seq<TranslationEntry>, memory: Option<Memory.Table>, texts: seq<ExtractedText>, lang: string, opts: Options, x: ExtractedText)
    requires ValidMemory(memory)
    ensures Decide(existing, Prepare(existing, memory, texts, lang, opts).memory, x, lang, opts) == Decide(existing, memory, x, lang, opts)
  {
    if memory.Some? {
      PrepareKeepsLookups(existing, memory, texts, lang, opts, Memory.Key(x.text, lang));
    }
    DecideSameLookup(existing, Prepare(existing, memory, texts, lang, opts).memory, memory, x, lang, opts);
  }

  /** One entry per text, in order, made by the text's decision taken on the memory at the start. */
  lemma {:induction false} PrepareEntries(existing: seq<TranslationEntry>, memory: Option<Memory.Table>, texts: seq<ExtractedText>, lang: string, opts: Options)
    requires ValidMemory(memory)
    ensures var p := Prepare(existing, memory, texts, lang, opts);
      && |p.entries| == |texts|
      && (forall i :: 0 <= i < |texts| ==> p.entries[i] == Prepared(texts[i], Decide(existing, memory, texts[i], lang, opts), lang))
  {
    if texts != [] {
      var n := |texts| - 1;
      var init := texts[..n];
      PrepareEntries(existing, memory, init, lang, opts);
      DecideAtStart(existing, memory, init, lang, opts, texts[n]);
      forall i | 0 <= i < n ensures texts[i] == init[i] { }
    }
  }

  /** The queue holds exactly the indices of the texts decided Queued... */
  lemma {:induction false} PrepareQueue(existing: seq<TranslationEntry>, memory: Option<Memory.Table>, texts: seq<ExtractedText>, lang: string, opts: Options)
    requires ValidMemory(memory)
    ensures var q := Prepare(existing, memory, texts, lang, opts).queue;
      forall k: nat :: k in q <==> k < |texts| && Decide(existing, memory, texts[k], lang, opts).Queued?
  {
    if texts != [] {
      var n := |texts| - 1;
      var init := texts[..n];
      PrepareQueue(existing, memory, init, lang, opts);
      DecideAtStart(existing, memory, init, lang, opts, texts[n]);
      var before := Prepare(existing, memory, init, lang, opts).queue;
      var last: seq<nat> := if Decide(existing, memory, texts[n], lang, opts).Queued? then [n] else [];
      var q := Prepare(existing, memory, texts, lang, opts).queue;
      assert q == before + last;
      forall k: nat ensures k in q <==> k < |texts| && Decide(existing, memory, texts[k], lang, opts).Queued? {
        if k < n {
          assert texts[k] == init[k];
        }
      }
    }
  }

  /** ... in ascending order. */
  lemma {:induction false} PrepareQueueIncreasing(existing: seq<TranslationEntry>, memory: Option<Memory.Table>, texts: seq<ExtractedText>, lang: string, opts: Options)
    requires ValidMemory(memory)
    ensures Increasing(Prepare(existing, memory, texts, lang, opts).queue)
  {
    if texts != [] {
      PrepareQueueIncreasing(existing, memory, texts[..|texts| - 1], lang, opts);
    }
  }

  // ------------------------------------------------------------ writing back

  /** The message of the TypeError thrown when a result has no queued text to go to. */
  const DestructureError: string := "Cannot destructure property 'index' of 'textsToTranslate[i]' as it is undefined."

  /** The texts sent to the provider: the queued ones, in queue order. */
  function QueueTexts(texts: seq<ExtractedText>, queue: seq<nat>): (r: seq<string>)
    requires forall j :: 0 <= j < |queue| ==> queue[j] < |texts|
    ensures |r| == |queue| && forall j :: 0 <= j < |r| ==> r[j] == texts[queue[j]].text
  {
    seq(|queue|, j requires 0 <= j < |queue| => texts[queue[j]].text)
  }

  /** `entry.translations[lang] = translated` */
  function WithTranslation(e: TranslationEntry, lang: string, translated: string): (r: TranslationEntry)
    ensures r.key == e.key && r.source == e.source && r.metadata == e.metadata
  {
    e.(translations := Put(e.translations, lang, translated))
  }

  /** translateTexts' second loop: result j goes to the entry of the j-th queued text. */
  function WriteBack(entries: seq<TranslationEntry>, queue: seq<nat>, results: seq<TranslationResult>, lang: string): (r: Result<seq<TranslationEntry>, string>)
    requires forall j :: 0 <= j < |queue| ==> queue[j] < |entries|
    ensures r.Ok? ==> |r.value| == |entries|
  {
    if results == [] then Ok(entries)
    else
      var j := |results| - 1;
      match WriteBack(entries, queue, results[..j], lang)
      case Err(e) => Err(e)
      case Ok(es) =>
        if j < |queue| then Ok(es[queue[j] := WithTranslation(es[queue[j]], lang, results[j].translated)])
        else Err(DestructureError)
  }

  /** Writing back succeeds exactly when there are no more results than queued texts. */
  lemma {:induction false} WriteBackSucceeds(entries: seq<TranslationEntry>, queue: seq<nat>, results: seq<TranslationResult>, lang: string)
    requires forall j :: 0 <= j < |queue| ==> queue[j] < |entries|
    ensures var r := WriteBack(entries, queue, results, lang);
      (r.Ok? <==> |results| <= |queue|) && (r.Err? ==> r.error == DestructureError)
  {
    if results != [] {
      WriteBackSucceeds(entries, queue, results[..|results| - 1], lang);
    }
  }

  /**
   * Then the entry of the j-th queued text holds result j's translation and
   * every other entry is unchanged.
   */
  lemma WriteBackCells(entries: seq<TranslationEntry>, queue: seq<nat>, results: seq<TranslationResult>, lang: string)
    requires forall j :: 0 <= j < |queue| ==> queue[j] < |entries|
    requires Increasing(queue) && |results| <= |queue|
    ensures WriteBack(entries, queue, results, lang).Ok?
    ensures var r := WriteBack(entries, queue, results, lang).value;
      && (forall j :: 0 <= j < |results| ==> r[queue[j]] == WithTranslation(entries[queue[j]], lang, results[j].translated))
      && (forall i :: 0 <= i < |entries| && i !in queue[..|results|] ==> r[i] == entries[i])
  {
    WriteBackSucceeds(entries, queue, results, lang);
    forall j | 0 <= j < |results|
      ensures WriteBack(entries, queue, results, lang).value[queue[j]] == WithTranslation(entries[queue[j]], lang, results[j].translated)
    {
      WriteBackWritten(entries, queue, results, lang, j);
    }
    forall i | 0 <= i < |entries| && i !in queue[..|results|]
      ensures WriteBack(entries, queue, results, lang).value[i] == entries[i]
    {
      WriteBackUntouched(entries, queue, results, lang, i);
    }
  }

  /** The entry of the j-th queued text holds result j's translation... */
  lemma {:induction false} WriteBackWritten(entries: seq<TranslationEntry>, queue: seq<nat>, results: seq<TranslationResult>, lang: string, j: nat)
    requires forall k :: 0 <= k < |queue| ==> queue[k] < |entries|
    requires Increasing(queue) && |results| <= |queue| && j < |results|
    ensures WriteBack(entries, queue, results, lang).Ok?
    ensures WriteBack(entries, queue, results, lang).value[queue[j]] == WithTranslation(entries[queue[j]], lang, results[j].translated)
    decreases |results|, 1
  {
    if j < |results| - 1 {
      WrittenBefore(entries, queue, results, lang, j);
    } else {
      WrittenLast(entries, queue, results, lang);
    }
  }

  lemma {:induction false} WrittenBefore(entries: seq<TranslationEntry>, queue: seq<nat>, results: seq<TranslationResult>, lang: string, j: nat)
    requires forall k :: 0 <= k < |queue| ==> queue[k] < |entries|
    requires Increasing(queue) && |results| <= |queue| && j < |results| - 1
    ensures WriteBack(entries, queue, results, lang).Ok?
    ensures WriteBack(entries, queue, results, lang).value[queue[j]] == WithTranslation(entries[queue[j]], lang, results[j].translated)
    decreases |results|, 0
  {
    var n := |results| - 1;
    WriteBackSucceeds(entries, queue, results, lang);
    WriteBackSucceeds(entries, queue, results[..n], lang);
    WriteBackLast(entries, queue, results, lang);
    WriteBackWritten(entries, queue, results[..n], lang, j);
    IncreasingAt(queue, j, n);
  }

  lemma WrittenLast(entries: seq<TranslationEntry>, queue: seq<nat>, results: seq<TranslationResult>, lang: string)
    requires forall k :: 0 <= k < |queue| ==> queue[k] < |entries|
    requires Increasing(queue) && 0 < |results| <= |queue|
    ensures WriteBack(entries, queue, results, lang).Ok?
    ensures var n := |results| - 1;
      WriteBack(entries, queue, results, lang).value[queue[n]] == WithTranslation(entries[queue[n]], lang, results[n].translated)
  {
    var n := |results| - 1;
    WriteBackSucceeds(entries, queue, results, lang);
    WriteBackSucceeds(entries, queue, results[..n], lang);
    WriteBackLast(entries, queue, results, lang);
    IncreasingFresh(queue, n);
    WriteBackUntouched(entries, queue, results[..n], lang, queue[n]);
  }

  /** The last result goes to the last queued text it has. */
  lemma WriteBackLast(entries: seq<TranslationEntry>, queue: seq<nat>, results: seq<TranslationResult>, lang: string)
    requires forall k :: 0 <= k < |queue| ==> queue[k] < |entries|
    requires 0 < |results| <= |queue|
    requires WriteBack(entries, queue, results[..|results| - 1], lang).Ok?
    ensures var n := |results| - 1;
      var es := WriteBack(entries, queue, results[..n], lang).value;
      WriteBack(entries, queue, results, lang) == Ok(es[queue[n] := WithTranslation(es[queue[n]], lang, results[n].translated)])
  {
  }

  lemma IncreasingAt(s: seq<nat>, i: nat, j: nat)
    requires Increasing(s) && i < j < |s|
    ensures s[i] < s[j]
  {
  }

  /** In an increasing queue no index comes twice. */
  lemma IncreasingFresh(s: seq<nat>, n: nat)
    requires Increasing(s) && n < |s|
    ensures s[n] !in s[..n]
  {
    forall k | 0 <= k < n ensures s[..n][k] != s[n] {
      IncreasingAt(s, k, n);
    }
  }

  /** ...and every entry no queued result went to is unchanged. */
  lemma {:induction false} WriteBackUntouched(entries: seq<TranslationEntry>, queue: seq<nat>, results: seq<TranslationResult>, lang: string, i: nat)
    requires forall k :: 0 <= k < |queue| ==> queue[k] < |entries|
    requires |results| <= |queue| && i < |entries| && i !in queue[..|results|]
    ensures WriteBack(entries, queue, results, lang).Ok?
    ensures WriteBack(entries, queue, results, lang).value[i] == entries[i]
  {
    WriteBackSucceeds(entries, queue, results, lang);
    if results != [] {
      var n := |results| - 1;
      WriteBackSucceeds(entries, queue, results[..n], lang);
      assert queue[n] == queue[..|results|][n];
      assert i !in queue[..n] by {
        assert forall k :: 0 <= k < n ==> queue[..n][k] == queue[..|results|][k];
      }
      WriteBackUntouched(entries, queue, results[..n], lang, i);
    }
  }

  /** The memory items of the results without an error: original, translation, source type 'api'. */
  function Learned(results: seq<TranslationResult>, lang: string): (r: seq<Memory.BatchItem>)
    ensures forall k :: 0 <= k < |r| ==> r[k].targetLang == lang && r[k].sourceType == Some(Memory.ApiSource)
    ensures forall k :: 0 <= k < |r| ==> exists j :: 0 <= j < |results| && !Truthy(results[j].error)
                                          && r[k].source == results[j].original && r[k].translation == results[j].translated
  {
    if results == [] then []
    else
      var j := |results| - 1;
      var init := Learned(results[..j], lang);
      assert forall k :: 0 <= k < |init| ==> exists j' :: 0 <= j' < j && !Truthy(results[j'].error)
                                               && init[k].source == results[j'].original && init[k].translation == results[j'].translated by {
        forall k | 0 <= k < |init| ensures exists j' :: 0 <= j' < j && !Truthy(results[j'].error)
                                               && init[k].source == results[j'].original && init[k].translation == results[j'].translated {
          var j' :| 0 <= j' < |results[..j]| && !Truthy(results[..j][j'].error)
                    && init[k].source == results[..j][j'].original && init[k].translation == results[..j][j'].translated;
          assert results[..j][j'] == results[j'];
        }
      }
      if Truthy(results[j].error) then init
      else init + [Memory.BatchItem(results[j].original, lang, results[j].translated, Some(Memory.ApiSource))]
  }

  /** The memory after the error-free results of those written back have been added. */
  function Learn(memory: Option<Memory.Table>, items: seq<Memory.BatchItem>): (r: Option<Memory.Table>)
    requires ValidMemory(memory)
    ensures ValidMemory(r) && r.Some? == memory.Some?
  {
    if memory.Some? then Some(Memory.UpsertAll(memory.value, items)) else None
  }

  function Min(a: nat, b: nat): nat {
    if a <= b then a else b
  }

  /**
   * translateTexts as a whole: the entries (or the error thrown) and the memory
   * afterwards.  The provider is called only when a text is queued.
   */
  function Run(api: ApiConfig, translate: Translate, sourceLanguage: string, memory: Option<Memory.Table>,
               texts: seq<ExtractedText>, lang: string, opts: Options, saved: Option<OMap<string, string>>): (Result<seq<TranslationEntry>, string>, Option<Memory.Table>)
    requires ValidMemory(memory) && (saved.Some? ==> ValidMap(saved.value))
  {
    var existing := LoadExisting(saved, lang);
    var plan := Prepare(existing, memory, texts, lang, opts);
    var results := if plan.queue == [] then [] else BatchResults(api, translate, QueueTexts(texts, plan.queue), sourceLanguage, lang);
    (WriteBack(plan.entries, plan.queue, results, lang), Learn(plan.memory, Learned(results[..Min(|results|, |plan.queue|)], lang)))
  }

  // -------------------------------------------------------------- translator

  class Translator {
    const sourceLanguage: string
    const provider: TranslationProvider
    const memory: Memory.TranslationMemory?

    ghost predicate Valid()
      reads this, memory
    {
      memory != null ==> memory.Valid()
    }

    /** The memory's table, None when the memory is disabled. */
    function MemoryState(): (r: Option<Memory.Table>)
      reads this, memory
      ensures Valid() ==> ValidMemory(r)
    {
      if memory == null then None else Some(memory.table)
    }

    constructor(sourceLanguage: string, provider: TranslationProvider, memory: Memory.TranslationMemory?)
      requires memory != null ==> memory.Valid()
      ensures Valid()
      ensures this.sourceLanguage == sourceLanguage && this.provider == provider && this.memory == memory
    {
      this.sourceLanguage := sourceLanguage;
      this.provider := provider;
      this.memory := memory;
    }

    /** One turn of translateTexts' first loop: the text's entry, and whether it is queued. */
    method PrepareText(existing: seq<TranslationEntry>, x: ExtractedText, lang: string, opts: Options) returns (entry: TranslationEntry, queued: bool)
      requires Valid()
      modifies memory
      ensures Valid()
      ensures var d := Decide(existing, old(MemoryState()), x, lang, opts);
        entry == Prepared(x, d, lang) && queued == d.Queued?
      ensures MemoryState() == Consult(existing, old(MemoryState()), x, lang, opts)
    {
      entry := Blank(x);
      var found := FindSaved(existing, x.key);
      if found.Some? && !opts.force {
        return entry.(translations := existing[found.value].translations), false;
      }
      var hit: Option<string> := None;
      if opts.useMemory && memory != null {
        hit := memory.FindTranslation(x.text, lang);
        if !Truthy(hit) {
          var similar := memory.FindSimilarTranslations(x.text, lang, 1);
        }
      }
      if Truthy(hit) {
        return entry.(translations := Put(EmptyMap(), lang, hit.value)), false;
      }
      return entry, true;
    }

    /** translateTexts' first loop. */
    method PrepareTexts(existing: seq<TranslationEntry>, texts: seq<ExtractedText>, lang: string, opts: Options)
      returns (entries: seq<TranslationEntry>, queue: seq<nat>)
      requires Valid()
      modifies memory
      ensures Valid()
      ensures Plan(entries, queue, MemoryState()) == Prepare(existing, old(MemoryState()), texts, lang, opts)
    {
      ghost var start := MemoryState();
      entries, queue := [], [];
      var i := 0;
      while i < |texts|
        invariant i <= |texts| && Valid()
        invariant Plan(entries, queue, MemoryState()) == Prepare(existing, start, texts[..i], lang, opts)
      {
        PrepareStep(existing, start, texts, i, lang, opts);
        var entry, queued := PrepareText(existing, texts[i], lang, opts);
        entries := entries + [entry];
        if queued {
          queue := queue + [i];
        }
        i := i + 1;
      }
      assert texts[..i] == texts;
    }

    /** translateTexts' second loop; a result with no queued text to go to throws. */
    method StoreResults(entries: seq<TranslationEntry>, queue: seq<nat>, results: seq<TranslationResult>, lang: string)
      returns (r: Result<seq<TranslationEntry>, string>)
      requires Valid() && forall k :: 0 <= k < |queue| ==> queue[k] < |entries|
      modifies memory
      ensures Valid()
      ensures r == WriteBack(entries, queue, results, lang)
      ensures MemoryState() == Learn(old(MemoryState()), Learned(results[..Min(|results|, |queue|)], lang))
    {
      ghost var start := MemoryState();
      var written := entries;
      var j := 0;
      while j < |results|
        invariant j <= |results| && j <= |queue| && Valid()
        invariant WriteBack(entries, queue, results[..j], lang) == Ok(written)
        invariant MemoryState() == Learn(start, Learned(results[..j], lang))
      {
        if j >= |queue| {
          WriteBackFails(entries, queue, results, j, lang);
          return Err(DestructureError);
        }
        WriteBackStep(entries, queue, results, j, lang);
        LearnStep(results, j, lang, start);
        var result := results[j];
        var index := queue[j];
        written := written[index := WithTranslation(written[index], lang, result.translated)];
        if memory != null && !Truthy(result.error) {
          memory.AddTranslation(result.original, lang, result.translated, Memory.ApiSource);
        }
        j := j + 1;
      }
      assert results[..j] == results;
      return Ok(written);
    }

    /**
     * translateTexts: the first loop builds one entry per text and queues the
     * texts that need the provider; the queued texts are translated in one
     * batched call and the second loop writes each result back.
     */
    method TranslateTexts(texts: seq<ExtractedText>, lang: string, opts: Options, saved: Option<OMap<string, string>>)
      returns (r: Result<seq<TranslationEntry>, string>)
      requires Valid() && (saved.Some? ==> ValidMap(saved.value))
      modifies memory
      ensures Valid()
      ensures (r, MemoryState()) == Run(provider.config, provider.translate, sourceLanguage, old(MemoryState()), texts, lang, opts, saved)
    {
      var existing := LoadExisting(saved, lang);
      var entries, queue := PrepareTexts(existing, texts, lang, opts);
      var results: seq<TranslationResult> := [];
      if |queue| > 0 {
        var pausedAfter;
        results, pausedAfter := provider.TranslateBatch(QueueTexts(texts, queue), sourceLanguage, lang);
      }
      r := StoreResults(entries, queue, results, lang);
    }

    /** translateToMultipleLanguages: translateTexts for each language in turn; the first error is thrown on. */
    method TranslateToMultipleLanguages(texts: seq<ExtractedText>, langs: seq<string>, opts: Options, saved: string -> Option<OMap<string, string>>)
      returns (r: Result<OMap<string, seq<TranslationEntry>>, string>)
      requires Valid() && SavedFiles(saved)
      modifies memory
      ensures Valid()
      ensures (r, MemoryState()) == RunAll(provider.config, provider.translate, sourceLanguage, old(MemoryState()), texts, langs, opts, saved)
    {
      ghost var start := MemoryState();
      var results := EmptyMap();
      var i := 0;
      while i < |langs|
        invariant i <= |langs| && Valid()
        invariant (Ok(results), MemoryState()) == RunAll(provider.config, provider.translate, sourceLanguage, start, texts, langs[..i], opts, saved)
      {
        ghost var mid := MemoryState();
        var entries := TranslateTexts(texts, langs[i], opts, saved(langs[i]));
        RunAllStep(provider.config, provider.translate, sourceLanguage, start, texts, langs, opts, saved, i, results, mid, entries, MemoryState());
        if entries.Err? {
          RunAllStops(provider.config, provider.translate, sourceLanguage, start, texts, langs, opts, saved, i + 1);
          return Err(entries.error);
        }
        results := Put(results, langs[i], entries.value);
        i := i + 1;
      }
      assert langs[..i] == langs;
      return Ok(results);
    }
  }

  /** A translator for the configuration: the provider it names, and a memory when one is enabled. */
  method Create(settings: Settings, translate: Translate, stored: Memory.Table) returns (r: Result<Translator, string>)
    requires ValidMap(stored)
    ensures r.Err? <==> CreateProvider(settings.api).Err?
    ensures r.Err? ==> r.error == CreateProvider(settings.api).error
    ensures r.Ok? ==> && fresh(r.value) && r.value.Valid()
                      && r.value.sourceLanguage == settings.sourceLanguage
                      && r.value.provider.name == CreateProvider(settings.api).value
                      && r.value.provider.config == settings.api && r.value.provider.translate == translate
                      && (r.value.memory != null <==> settings.memory.Some? && settings.memory.value.enabled)
                      && (r.value.memory != null ==>
                            fresh(r.value.memory) && r.value.memory.table == stored
                            && r.value.memory.similarityThreshold == settings.memory.value.similarityThreshold)
  {
    match CreateProvider(settings.api)
    case Err(e) => return Err(e);
    case Ok(name) =>
      var provider := new TranslationProvider(name, settings.api, translate);
      var memory: Memory.TranslationMemory? := null;
      if settings.memory.Some? && settings.memory.value.enabled {
        memory := new Memory.TranslationMemory(settings.memory.value, stored);
      }
      var t := new Translator(settings.sourceLanguage, provider, memory);
      return Ok(t);
  }

  // ------------------------------------------------------------ many languages

  /** Every saved file that could be read is a map. */
  ghost predicate SavedFiles(saved: string -> Option<OMap<string, string>>) {
    forall lang :: saved(lang).Some? ==> ValidMap(saved(lang).value)
  }

  /** translateToMultipleLanguages: the entries per language, in first-seen order, and the memory afterwards. */
  function RunAll(api: ApiConfig, translate: Translate, sourceLanguage: string, memory: Option<Memory.Table>,
                  texts: seq<ExtractedText>, langs: seq<string>, opts: Options, saved: string -> Option<OMap<string, string>>)
    : (r: (Result<OMap<string, seq<TranslationEntry>>, string>, Option<Memory.Table>))
    requires ValidMemory(memory) && SavedFiles(saved)
    ensures ValidMemory(r.1)
  {
    if langs == [] then (Ok(EmptyMap()), memory)
    else
      var n := |langs| - 1;
      var before := RunAll(api, translate, sourceLanguage, memory, texts, langs[..n], opts, saved);
      if before.0.Err? then before
      else
        var run := Run(api, translate, sourceLanguage, before.1, texts, langs[n], opts, saved(langs[n]));
        RunMemory(api, translate, sourceLanguage, before.1, texts, langs[n], opts, saved(langs[n]), Memory.Key([], []));
        assert ValidMemory(run.1) by {
          var existing := LoadExisting(saved(langs[n]), langs[n]);
          var p := Prepare(existing, before.1, texts, langs[n], opts);
        }
        match run.0
        case Err(e) => (Err(e), run.1)
        case Ok(entries) => (Ok(Put(before.0.value, langs[n], entries)), run.1)
  }

  /** One more language: its run is added to the map, or its error ends the whole. */
  lemma RunAllStep(api: ApiConfig, translate: Translate, sourceLanguage: string, memory: Option<Memory.Table>,
                   texts: seq<ExtractedText>, langs: seq<string>, opts: Options, saved: string -> Option<OMap<string, string>>, i: nat,
                   results: OMap<string, seq<TranslationEntry>>, mid: Option<Memory.Table>,
                   entries: Result<seq<TranslationEntry>, string>, after: Option<Memory.Table>)
    requires ValidMemory(memory) && SavedFiles(saved) && i < |langs|
    requires RunAll(api, translate, sourceLanguage, memory, texts, langs[..i], opts, saved) == (Ok(results), mid)
    requires Run(api, translate, sourceLanguage, mid, texts, langs[i], opts, saved(langs[i])) == (entries, after)
    ensures RunAll(api, translate, sourceLanguage, memory, texts, langs[..i + 1], opts, saved)
         == (if entries.Err? then Err(entries.error) else Ok(Put(results, langs[i], entries.value)), after)
  {
    PrefixOfPrefix(langs, i);
    assert langs[..i + 1][i] == langs[i];
  }

  /** After an error, the remaining languages are not translated. */
  lemma {:induction false} RunAllStops(api: ApiConfig, translate: Translate, sourceLanguage: string, memory: Option<Memory.Table>,
                                       texts: seq<ExtractedText>, langs: seq<string>, opts: Options, saved: string -> Option<OMap<string, string>>, i: nat)
    requires ValidMemory(memory) && SavedFiles(saved) && i <= |langs|
    requires RunAll(api, translate, sourceLanguage, memory, texts, langs[..i], opts, saved).0.Err?
    ensures RunAll(api, translate, sourceLanguage, memory, texts, langs, opts, saved) == RunAll(api, translate, sourceLanguage, memory, texts, langs[..i], opts, saved)
    decreases |langs| - i
  {
    if i < |langs| {
      PrefixOfPrefix(langs, i);
      RunAllStops(api, translate, sourceLanguage, memory, texts, langs, opts, saved, i + 1);
    } else {
      assert langs[..i] == langs;
    }
  }

  /**
   * With a provider that answers each call with one result per text, every
   * language is translated: the map has one entry per distinct language, in
   * first-seen order.
   */
  lemma {:induction false} RunAllLanguages(api: ApiConfig, translate: Translate, sourceLanguage: string, memory: Option<Memory.Table>,
                                           texts: seq<ExtractedText>, langs: seq<string>, opts: Options, saved: string -> Option<OMap<string, string>>)
    requires ValidMemory(memory) && SavedFiles(saved) && OneResultEach(translate)
    ensures var r := RunAll(api, translate, sourceLanguage, memory, texts, langs, opts, saved).0;
      r.Ok? && ValidMap(r.value) && r.value.keys == Dedup(langs)
      && forall lang :: lang in r.value.entries ==> |r.value.entries[lang]| == |texts|
  {
    if langs != [] {
      var n := |langs| - 1;
      RunAllLanguages(api, translate, sourceLanguage, memory, texts, langs[..n], opts, saved);
      var before := RunAll(api, translate, sourceLanguage, memory, texts, langs[..n], opts, saved);
      RunEntries(api, translate, sourceLanguage, before.1, texts, langs[n], opts, saved(langs[n]));
      assert langs[n] in before.0.value.entries <==> langs[n] in Dedup(langs[..n]);
    }
  }

  /** One turn of the first loop extends the plan by the text's entry, queue index and memory. */
  lemma PrepareStep(existing: seq<TranslationEntry>, memory: Option<Memory.Table>, texts: seq<ExtractedText>, i: nat, lang: string, opts: Options)
    requires ValidMemory(memory) && i < |texts|
    ensures var p := Prepare(existing, memory, texts[..i], lang, opts);
      var d := Decide(existing, p.memory, texts[i], lang, opts);
      Prepare(existing, memory, texts[..i + 1], lang, opts)
      == Plan(p.entries + [Prepared(texts[i], d, lang)], p.queue + (if d.Queued? then [i] else []), Consult(existing, p.memory, texts[i], lang, opts))
  {
    PrefixOfPrefix(texts, i);
  }

  /** One turn of the second loop writes result j back and learns it when it has no error. */
  /** One more result written back. */
  lemma WriteBackStep(entries: seq<TranslationEntry>, queue: seq<nat>, results: seq<TranslationResult>, j: nat, lang: string)
    requires forall k :: 0 <= k < |queue| ==> queue[k] < |entries|
    requires j < |results| && j < |queue|
    requires WriteBack(entries, queue, results[..j], lang).Ok?
    ensures var es := WriteBack(entries, queue, results[..j], lang).value;
      WriteBack(entries, queue, results[..j + 1], lang) == Ok(es[queue[j] := WithTranslation(es[queue[j]], lang, results[j].translated)])
  {
    PrefixOfPrefix(results, j);
  }

  /** One more result learned: stored when it has no error and there is a memory. */
  lemma LearnStep(results: seq<TranslationResult>, j: nat, lang: string, memory: Option<Memory.Table>)
    requires ValidMemory(memory) && j < |results|
    ensures var m := Learn(memory, Learned(results[..j], lang));
      Learn(memory, Learned(results[..j + 1], lang))
      == if memory.Some? && !Truthy(results[j].error)
         then Some(Memory.Upsert(m.value, Memory.Key(results[j].original, lang), results[j].translated, Memory.ApiSource))
         else m
  {
    PrefixOfPrefix(results, j);
    var items := Learned(results[..j], lang);
    if !Truthy(results[j].error) {
      var item := Memory.BatchItem(results[j].original, lang, results[j].translated, Some(Memory.ApiSource));
      assert Learned(results[..j + 1], lang) == items + [item];
      assert (items + [item])[..|items|] == items;
    } else {
      assert Learned(results[..j + 1], lang) == items;
    }
  }

  /** Once a result has no queued text to go to, writing back fails. */
  lemma {:induction false} WriteBackFails(entries: seq<TranslationEntry>, queue: seq<nat>, results: seq<TranslationResult>, j: nat, lang: string)
    requires forall k :: 0 <= k < |queue| ==> queue[k] < |entries|
    requires |queue| <= j < |results|
    ensures WriteBack(entries, queue, results, lang) == Err(DestructureError)
  {
    WriteBackSucceeds(entries, queue, results, lang);
  }

  // ------------------------------------------------------- translateTexts' laws

  /**
   * With a provider that answers each call with one result per text, the
   * batched call gives one result per queued text and writing back succeeds:
   * the entry of the j-th queued text takes the j-th result, the others stay.
   */
  lemma RunWritten(api: ApiConfig, translate: Translate, sourceLanguage: string, memory: Option<Memory.Table>,
                   texts: seq<ExtractedText>, lang: string, opts: Options, saved: Option<OMap<string, string>>)
    requires ValidMemory(memory) && (saved.Some? ==> ValidMap(saved.value)) && OneResultEach(translate)
    ensures var p := Prepare(LoadExisting(saved, lang), memory, texts, lang, opts);
      var results := BatchResults(api, translate, QueueTexts(texts, p.queue), sourceLanguage, lang);
      var r := Run(api, translate, sourceLanguage, memory, texts, lang, opts, saved).0;
      && |results| == |p.queue| && r.Ok? && |r.value| == |texts|
      && (forall j :: 0 <= j < |p.queue| ==> r.value[p.queue[j]] == WithTranslation(p.entries[p.queue[j]], lang, results[j].translated))
      && (forall i :: 0 <= i < |texts| && i !in p.queue ==> r.value[i] == p.entries[i])
  {
    var existing := LoadExisting(saved, lang);
    var p := Prepare(existing, memory, texts, lang, opts);
    PrepareQueueIncreasing(existing, memory, texts, lang, opts);
    var results := BatchResults(api, translate, QueueTexts(texts, p.queue), sourceLanguage, lang);
    ResultsFromLength(api, translate, QueueTexts(texts, p.queue), sourceLanguage, lang, 0, 0);
    var actual := if p.queue == [] then [] else results;
    WriteBackCells(p.entries, p.queue, actual, lang);
    assert p.queue[..|actual|] == p.queue;
  }

  /**
   * With such a provider translateTexts succeeds with one entry per text, in
   * order, keyed and sourced by its text; the texts are queued in input order.
   */
  lemma RunEntries(api: ApiConfig, translate: Translate, sourceLanguage: string, memory: Option<Memory.Table>,
                   texts: seq<ExtractedText>, lang: string, opts: Options, saved: Option<OMap<string, string>>)
    requires ValidMemory(memory) && (saved.Some? ==> ValidMap(saved.value)) && OneResultEach(translate)
    ensures var r := Run(api, translate, sourceLanguage, memory, texts, lang, opts, saved).0;
      && r.Ok? && |r.value| == |texts|
      && (forall i :: 0 <= i < |texts| ==> r.value[i].key == texts[i].key && r.value[i].source == texts[i].text)
      && Increasing(Prepare(LoadExisting(saved, lang), memory, texts, lang, opts).queue)
  {
    var existing := LoadExisting(saved, lang);
    var p := Prepare(existing, memory, texts, lang, opts);
    RunWritten(api, translate, sourceLanguage, memory, texts, lang, opts, saved);
    PrepareEntries(existing, memory, texts, lang, opts);
    PrepareQueueIncreasing(existing, memory, texts, lang, opts);
    var r := Run(api, translate, sourceLanguage, memory, texts, lang, opts, saved).0.value;
    forall i | 0 <= i < |texts| ensures r[i].key == texts[i].key && r[i].source == texts[i].text {
      if i in p.queue {
        var j :| 0 <= j < |p.queue| && p.queue[j] == i;
      }
    }
  }

  /**
   * ... where a reused entry keeps the saved translations, a remembered one
   * holds the memory's translation, and the entry of the j-th queued text holds
   * exactly the j-th result of the batched call.
   */
  lemma RunTranslations(api: ApiConfig, translate: Translate, sourceLanguage: string, memory: Option<Memory.Table>,
                        texts: seq<ExtractedText>, lang: string, opts: Options, saved: Option<OMap<string, string>>)
    requires ValidMemory(memory) && (saved.Some? ==> ValidMap(saved.value)) && OneResultEach(translate)
    ensures var existing := LoadExisting(saved, lang);
      var q := Prepare(existing, memory, texts, lang, opts).queue;
      var results := BatchResults(api, translate, QueueTexts(texts, q), sourceLanguage, lang);
      var r := Run(api, translate, sourceLanguage, memory, texts, lang, opts, saved).0;
      && r.Ok? && |r.value| == |texts| && |results| == |q|
      && (forall i :: 0 <= i < |texts| ==> match Decide(existing, memory, texts[i], lang, opts)
            case Reuse(t) => r.value[i].translations == t
            case Remembered(s) => r.value[i].translations == Put(EmptyMap(), lang, s)
            case Queued => i in q)
      && (forall j :: 0 <= j < |q| ==> r.value[q[j]].translations == Put(EmptyMap(), lang, results[j].translated))
  {
    var existing := LoadExisting(saved, lang);
    var p := Prepare(existing, memory, texts, lang, opts);
    RunWritten(api, translate, sourceLanguage, memory, texts, lang, opts, saved);
    PrepareEntries(existing, memory, texts, lang, opts);
    PrepareQueue(existing, memory, texts, lang, opts);
    forall j | 0 <= j < |p.queue| ensures Decide(existing, memory, texts[p.queue[j]], lang, opts).Queued? {
      assert p.queue[j] in p.queue;
    }
  }

  /** Upserting items leaves every pair none of them names as it was. */
  lemma {:induction false} UpsertAllOthers(t: Memory.Table, items: seq<Memory.BatchItem>, k: Memory.Key)
    requires ValidMap(t)
    requires forall j :: 0 <= j < |items| ==> Memory.Key(items[j].source, items[j].targetLang) != k
    ensures Memory.Lookup(Memory.UpsertAll(t, items), k) == Memory.Lookup(t, k)
  {
    if items != [] {
      UpsertAllOthers(t, items[..|items| - 1], k);
    }
  }

  /**
   * translateTexts stores in the memory only the results without an error (as
   * 'api' translations into the target language); every other pair keeps its
   * translation.
   */
  lemma RunMemory(api: ApiConfig, translate: Translate, sourceLanguage: string, memory: Option<Memory.Table>,
                  texts: seq<ExtractedText>, lang: string, opts: Options, saved: Option<OMap<string, string>>, k: Memory.Key)
    requires ValidMemory(memory) && (saved.Some? ==> ValidMap(saved.value))
    ensures var existing := LoadExisting(saved, lang);
      var q := Prepare(existing, memory, texts, lang, opts).queue;
      var results := if q == [] then [] else BatchResults(api, translate, QueueTexts(texts, q), sourceLanguage, lang);
      var m := Run(api, translate, sourceLanguage, memory, texts, lang, opts, saved).1;
      && m.Some? == memory.Some?
      && (m.Some? && (forall j :: 0 <= j < |results| && !Truthy(results[j].error) ==> Memory.Key(results[j].original, lang) != k)
          ==> Memory.Lookup(m.value, k) == Memory.Lookup(memory.value, k))
  {
    var existing := LoadExisting(saved, lang);
    var p := Prepare(existing, memory, texts, lang, opts);
    var results := if p.queue == [] then [] else BatchResults(api, translate, QueueTexts(texts, p.queue), sourceLanguage, lang);
    if memory.Some? && forall j :: 0 <= j < |results| && !Truthy(results[j].error) ==> Memory.Key(results[j].original, lang) != k {
      var written := results[..Min(|results|, |p.queue|)];
      var items := Learned(written, lang);
      forall j | 0 <= j < |items| ensures Memory.Key(items[j].source, items[j].targetLang) != k {
        var j' :| 0 <= j' < |written| && !Truthy(written[j'].error) && items[j].source == written[j'].original && items[j].translation == written[j'].translated;
        assert written[j'] == results[j'];
      }
      UpsertAllOthers(p.memory.value, items, k);
      PrepareKeepsLookups(existing, memory, texts, lang, opts, k);
    }
  }

  // ------------------------------------------------------------ saving

  /** The entry has the key and a non-empty translation into the language. */
  predicate Kept(e: TranslationEntry, lang: string, key: string) {
    e.key == key && Truthy(TranslationFor(e, lang))
  }

  /**
   * saveTranslations' file content: each entry with a non-empty translation
   * sets its key to it, in turn, so a later entry with the same key wins.
   */
  function Saved(entries: seq<TranslationEntry>, lang: string): (r: OMap<string, string>)
    ensures ValidMap(r)
    ensures forall k :: k in r.entries ==> r.entries[k] != []
  {
    if entries == [] then EmptyMap()
    else
      var n := |entries| - 1;
      var before := Saved(entries[..n], lang);
      if Truthy(TranslationFor(entries[n], lang)) then Put(before, entries[n].key, TranslationFor(entries[n], lang).value)
      else before
  }

  /** saveTranslations, up to writing the file: the content it writes. */
  method SaveTranslations(entries: seq<TranslationEntry>, lang: string) returns (content: OMap<string, string>)
    ensures content == Saved(entries, lang)
  {
    content := EmptyMap();
    var i := 0;
    while i < |entries|
      invariant i <= |entries| && content == Saved(entries[..i], lang)
    {
      PrefixOfPrefix(entries, i);
      var t := TranslationFor(entries[i], lang);
      if Truthy(t) {
        content := Put(content, entries[i].key, t.value);
      }
      i := i + 1;
    }
    assert entries[..i] == entries;
  }

  /** The index of the last entry with the key and a non-empty translation. */
  function LastKept(entries: seq<TranslationEntry>, lang: string, k: string): (r: Option<nat>)
    ensures r.Some? ==> r.value < |entries| && Kept(entries[r.value], lang, k)
                        && forall j :: r.value < j < |entries| ==> !Kept(entries[j], lang, k)
    ensures r.None? ==> forall j :: 0 <= j < |entries| ==> !Kept(entries[j], lang, k)
  {
    if entries == [] then None
    else
      var n := |entries| - 1;
      assert forall j :: 0 <= j < n ==> entries[..n][j] == entries[j];
      if Kept(entries[n], lang, k) then Some(n) else LastKept(entries[..n], lang, k)
  }

  /**
   * The saved file has exactly the keys of the entries with a non-empty
   * translation, each with the translation of the last such entry.
   */
  lemma {:induction false} SavedCells(entries: seq<TranslationEntry>, lang: string, k: string)
    ensures k in Saved(entries, lang).entries <==> LastKept(entries, lang, k).Some?
    ensures k in Saved(entries, lang).entries ==>
      Some(Saved(entries, lang).entries[k]) == TranslationFor(entries[LastKept(entries, lang, k).value], lang)
  {
    if entries != [] {
      SavedCells(entries[..|entries| - 1], lang, k);
    }
  }

  /** With distinct keys, the saved file has one key per translated entry. */
  lemma {:induction false} SavedSize(entries: seq<TranslationEntry>, lang: string)
    requires forall i, j :: 0 <= i < j < |entries| ==> entries[i].key != entries[j].key
    ensures |Saved(entries, lang).keys| == TranslatedCount(entries, lang)
  {
    if entries != [] {
      var n := |entries| - 1;
      var before := entries[..n];
      SavedSize(before, lang);
      SavedCells(before, lang, entries[n].key);
    }
  }

  /** Loading what was saved: the key is found exactly when it was saved, with its translation. */
  lemma LoadFindsSaved(saved: OMap<string, string>, lang: string, k: string)
    requires ValidMap(saved)
    ensures var loaded := LoadExisting(Some(saved), lang);
      && (FindSaved(loaded, k).Some? <==> k in saved.entries)
      && (FindSaved(loaded, k).Some? ==> TranslationFor(loaded[FindSaved(loaded, k).value], lang) == Some(saved.entries[k]))
  {
    var loaded := LoadExisting(Some(saved), lang);
    if k in saved.entries {
      var i :| 0 <= i < |saved.keys| && saved.keys[i] == k;
      assert loaded[i].key == k;
    }
  }

  // ------------------------------------------------------------ merging

  /** `{ ...old, ...new }` on one optional field: the new value when present. */
  function Or<T>(first: Option<T>, second: Option<T>): Option<T> {
    if first.Some? then first else second
  }

  /** The metadata spread: a field the new metadata carries wins, the current one is kept otherwise. */
  function MergeMetadata(current: Option<Metadata>, incoming: Metadata): Metadata {
    var o := if current.Some? then current.value else Metadata(None, None, None, None, None);
    Metadata(Or(incoming.file, o.file), Or(incoming.line, o.line), Or(incoming.context, o.context),
             Or(incoming.lastModified, o.lastModified), Or(incoming.translatedBy, o.translatedBy))
  }

  /** An entry whose translations are a map (a record, as the source's always is). */
  ghost predicate WellFormed(e: TranslationEntry) {
    ValidMap(e.translations)
  }

  /** A new entry merged into the entry with its key: its translations and metadata fields win. */
  function MergeEntry(current: TranslationEntry, incoming: TranslationEntry): TranslationEntry
    requires WellFormed(incoming)
  {
    TranslationEntry(current.key, current.source, PutAll(current.translations, incoming.translations.keys, incoming.translations.entries),
                     if incoming.metadata.Some? then Some(MergeMetadata(current.metadata, incoming.metadata.value)) else current.metadata)
  }

  /**
   * A merged entry keeps the current key and source; a language the new entry
   * translates takes the new translation, any other keeps the current one; the
   * metadata changes only when the new entry has some.
   */
  lemma MergeEntryCells(current: TranslationEntry, incoming: TranslationEntry, lang: string)
    requires WellFormed(incoming)
    ensures var r := MergeEntry(current, incoming);
      && r.key == current.key && r.source == current.source
      && (WellFormed(current) ==> WellFormed(r))
      && (lang in r.translations.entries <==> lang in current.translations.entries || lang in incoming.translations.entries)
      && (lang in incoming.translations.entries ==> r.translations.entries[lang] == incoming.translations.entries[lang])
      && (lang !in incoming.translations.entries && lang in current.translations.entries ==> r.translations.entries[lang] == current.translations.entries[lang])
      && (incoming.metadata.None? ==> r.metadata == current.metadata)
  {
    PutAllCell(current.translations, incoming.translations.keys, incoming.translations.entries, lang);
  }

  /** The keys of the entries, in order. */
  function Keys(entries: seq<TranslationEntry>): (r: seq<string>)
    ensures |r| == |entries| && forall i :: 0 <= i < |r| ==> r[i] == entries[i].key
  {
    if entries == [] then []
    else
      var n := |entries| - 1;
      assert forall i :: 0 <= i < n ==> entries[..n][i] == entries[i];
      Keys(entries[..n]) + [entries[n].key]
  }

  /** Every entry of the map is filed under its own key. */
  ghost predicate KeyedBy(m: OMap<string, TranslationEntry>) {
    forall k :: k in m.entries ==> m.entries[k].key == k
  }

  /** mergeTranslations' first loop: `merged.set(entry.key, entry)` for each existing entry. */
  function Index(existing: seq<TranslationEntry>): (r: OMap<string, TranslationEntry>)
    ensures ValidMap(r) && KeyedBy(r)
  {
    if existing == [] then EmptyMap()
    else
      var n := |existing| - 1;
      Put(Index(existing[..n]), existing[n].key, existing[n])
  }

  /** mergeTranslations' second loop: each new entry is merged into the entry with its key, or added. */
  function MergeInto(m: OMap<string, TranslationEntry>, news: seq<TranslationEntry>): (r: OMap<string, TranslationEntry>)
    requires forall i :: 0 <= i < |news| ==> WellFormed(news[i])
    ensures ValidMap(m) ==> ValidMap(r)
    ensures KeyedBy(m) ==> KeyedBy(r)
  {
    if news == [] then m
    else
      var n := |news| - 1;
      var before := MergeInto(m, news[..n]);
      var e := news[n];
      if e.key in before.entries then Put(before, e.key, MergeEntry(before.entries[e.key], e))
      else Put(before, e.key, e)
  }

  /** mergeTranslations: the merged entries in the map's order. */
  function Merged(existing: seq<TranslationEntry>, news: seq<TranslationEntry>): seq<TranslationEntry>
    requires forall i :: 0 <= i < |news| ==> WellFormed(news[i])
  {
    Values(MergeInto(Index(existing), news))
  }

  method MergeTranslations(existing: seq<TranslationEntry>, news: seq<TranslationEntry>) returns (r: seq<TranslationEntry>)
    requires forall i :: 0 <= i < |news| ==> WellFormed(news[i])
    ensures r == Merged(existing, news)
  {
    var merged := EmptyMap();
    var i := 0;
    while i < |existing|
      invariant i <= |existing| && merged == Index(existing[..i])
    {
      PrefixOfPrefix(existing, i);
      merged := Put(merged, existing[i].key, existing[i]);
      i := i + 1;
    }
    assert existing[..i] == existing;
    var j := 0;
    while j < |news|
      invariant j <= |news| && merged == MergeInto(Index(existing), news[..j])
    {
      PrefixOfPrefix(news, j);
      var e := news[j];
      if e.key in merged.entries {
        merged := Put(merged, e.key, MergeEntry(merged.entries[e.key], e));
      } else {
        merged := Put(merged, e.key, e);
      }
      j := j + 1;
    }
    assert news[..j] == news;
    r := Values(merged);
  }

  lemma {:induction false} IndexKeys(existing: seq<TranslationEntry>)
    ensures Index(existing).keys == Dedup(Keys(existing))
  {
    if existing != [] {
      var n := |existing| - 1;
      IndexKeys(existing[..n]);
      PutKeysDedupSnoc(Index(existing[..n]), Keys(existing[..n]), existing[n].key, existing[n]);
    }
  }

  lemma {:induction false} MergeIntoKeys(m: OMap<string, TranslationEntry>, s: seq<string>, news: seq<TranslationEntry>)
    requires forall i :: 0 <= i < |news| ==> WellFormed(news[i])
    requires ValidMap(m) && m.keys == Dedup(s)
    ensures MergeInto(m, news).keys == Dedup(s + Keys(news))
  {
    if news != [] {
      var n := |news| - 1;
      var e := news[n];
      MergeIntoKeys(m, s, news[..n]);
      Advance(s, Keys(news[..n]), [e.key], s + Keys(news));
      var before := MergeInto(m, news[..n]);
      var v := if e.key in before.entries then MergeEntry(before.entries[e.key], e) else e;
      assert MergeInto(m, news) == Put(before, e.key, v);
      PutKeysDedupSnoc(before, s + Keys(news[..n]), e.key, v);
    } else {
      assert s + Keys(news) == s;
    }
  }

  /** The merged entries carry the keys of both inputs once each: existing keys first, then new ones, in order. */
  lemma MergedKeys(existing: seq<TranslationEntry>, news: seq<TranslationEntry>)
    requires forall i :: 0 <= i < |news| ==> WellFormed(news[i])
    ensures Keys(Merged(existing, news)) == Dedup(Keys(existing) + Keys(news))
  {
    IndexKeys(existing);
    MergeIntoKeys(Index(existing), Keys(existing), news);
  }

  /** A key no new entry has keeps its entry. */
  lemma {:induction false} MergeIntoOthers(m: OMap<string, TranslationEntry>, news: seq<TranslationEntry>, k: string)
    requires forall i :: 0 <= i < |news| ==> WellFormed(news[i])
    requires forall i :: 0 <= i < |news| ==> news[i].key != k
    ensures k in MergeInto(m, news).entries <==> k in m.entries
    ensures k in m.entries ==> MergeInto(m, news).entries[k] == m.entries[k]
  {
    if news != [] {
      MergeIntoOthers(m, news[..|news| - 1], k);
    }
  }

  /**
   * A translation a new entry brings wins, unless a later new entry with the
   * same key brings one for the same language.
   */
  lemma {:induction false} NewTranslationsWin(m: OMap<string, TranslationEntry>, news: seq<TranslationEntry>, j: nat, lang: string)
    requires forall i :: 0 <= i < |news| ==> WellFormed(news[i])
    requires j < |news| && lang in news[j].translations.entries
    requires forall i :: j < i < |news| && news[i].key == news[j].key ==> lang !in news[i].translations.entries
    ensures var r := MergeInto(m, news);
      && news[j].key in r.entries && lang in r.entries[news[j].key].translations.entries
      && r.entries[news[j].key].translations.entries[lang] == news[j].translations.entries[lang]
    decreases |news|, 1
  {
    if j < |news| - 1 {
      WinsOverEarlier(m, news, j, lang);
    } else {
      var before, e := MergeInto(m, news[..j]), news[j];
      MergeIntoAt(m, news, e.key);
      if e.key in before.entries {
        MergeEntryCells(before.entries[e.key], e, lang);
      }
    }
  }

  lemma {:induction false} WinsOverEarlier(m: OMap<string, TranslationEntry>, news: seq<TranslationEntry>, j: nat, lang: string)
    requires forall i :: 0 <= i < |news| ==> WellFormed(news[i])
    requires j < |news| - 1 && lang in news[j].translations.entries
    requires forall i :: j < i < |news| && news[i].key == news[j].key ==> lang !in news[i].translations.entries
    ensures var r := MergeInto(m, news);
      && news[j].key in r.entries && lang in r.entries[news[j].key].translations.entries
      && r.entries[news[j].key].translations.entries[lang] == news[j].translations.entries[lang]
    decreases |news|, 0
  {
    var n := |news| - 1;
    var init := news[..n];
    var key := news[j].key;
    assert init[j] == news[j];
    forall i | j < i < n && init[i].key == key ensures lang !in init[i].translations.entries {
      assert init[i] == news[i];
    }
    NewTranslationsWin(m, init, j, lang);
    KeepsCell(m, news, key, lang);
  }

  /** A cell the last new entry does not bring survives its merge unchanged. */
  lemma KeepsCell(m: OMap<string, TranslationEntry>, news: seq<TranslationEntry>, key: string, lang: string)
    requires forall i :: 0 <= i < |news| ==> WellFormed(news[i])
    requires news != []
    requires var before := MergeInto(m, news[..|news| - 1]);
      key in before.entries && lang in before.entries[key].translations.entries
    requires news[|news| - 1].key == key ==> lang !in news[|news| - 1].translations.entries
    ensures var before, r := MergeInto(m, news[..|news| - 1]), MergeInto(m, news);
      && key in r.entries && lang in r.entries[key].translations.entries
      && r.entries[key].translations.entries[lang] == before.entries[key].translations.entries[lang]
  {
    var before, e := MergeInto(m, news[..|news| - 1]), news[|news| - 1];
    MergeIntoAt(m, news, key);
    if e.key == key {
      MergeEntryCells(before.entries[key], e, lang);
    }
  }

  /** The last new entry is merged into the entry with its key, or added; other keys keep their entries. */
  lemma MergeIntoAt(m: OMap<string, TranslationEntry>, news: seq<TranslationEntry>, k: string)
    requires forall i :: 0 <= i < |news| ==> WellFormed(news[i])
    requires news != []
    ensures var before, e := MergeInto(m, news[..|news| - 1]), news[|news| - 1];
      var r := MergeInto(m, news);
      && (k in r.entries <==> k in before.entries || k == e.key)
      && (k != e.key && k in before.entries ==> r.entries[k] == before.entries[k])
      && (k == e.key && k in before.entries ==> r.entries[k] == MergeEntry(before.entries[k], e))
      && (k == e.key && k !in before.entries ==> r.entries[k] == e)
  {
  }

  /** A key no new entry has keeps the last existing entry with it. */
  lemma {:induction false} IndexLast(existing: seq<TranslationEntry>, i: nat)
    requires i < |existing| && forall j :: i < j < |existing| ==> existing[j].key != existing[i].key
    ensures existing[i].key in Index(existing).entries && Index(existing).entries[existing[i].key] == existing[i]
  {
    var n := |existing| - 1;
    var init := existing[..n];
    assert Index(existing).entries == Index(init).entries[existing[n].key := existing[n]];
    if i < n {
      assert init[i] == existing[i];
      forall j | i < j < n ensures init[j].key != init[i].key {
        assert init[j] == existing[j];
      }
      IndexLast(init, i);
      var k := existing[i].key;
      assert existing[n].key != k;
      assert Index(existing).entries[k] == Index(init).entries[k];
    }
  }

  /**
   * The merged entry of a key only the existing entries have is the last of
   * them, unchanged.
   */
  lemma MergedKeepsExisting(existing: seq<TranslationEntry>, news: seq<TranslationEntry>, i: nat)
    requires forall j :: 0 <= j < |news| ==> WellFormed(news[j])
    requires i < |existing| && forall j :: i < j < |existing| ==> existing[j].key != existing[i].key
    requires forall j :: 0 <= j < |news| ==> news[j].key != existing[i].key
    ensures existing[i] in Merged(existing, news)
  {
    var k := existing[i].key;
    IndexLast(existing, i);
    MergeIntoOthers(Index(existing), news, k);
    var r := MergeInto(Index(existing), news);
    var p :| 0 <= p < |r.keys| && r.keys[p] == k;
    assert Merged(existing, news)[p] == existing[i];
  }

  // ------------------------------------------------------------ statistics

  /** `entries.filter(e => e.translations[lang]).length` */
  function TranslatedCount(entries: seq<TranslationEntry>, lang: string): (r: nat)
    ensures r <= |entries|
    ensures r == |entries| <==> forall i :: 0 <= i < |entries| ==> Truthy(TranslationFor(entries[i], lang))
  {
    if entries == [] then 0
    else
      var n := |entries| - 1;
      assert forall i :: 0 <= i < n ==> entries[..n][i] == entries[i];
      TranslatedCount(entries[..n], lang) + if Truthy(TranslationFor(entries[n], lang)) then 1 else 0
  }

  /** getStatistics' result: the entry count and, per language, the translated and untranslated counts and percentage. */
  datatype Statistics = Statistics(
    total: nat,
    translated: OMap<string, nat>,
    untranslated: OMap<string, nat>,
    percentage: OMap<string, real>)

  /** `total > 0 ? (translatedCount / total) * 100 : 0` */
  function Percentage(count: nat, total: nat): real {
    if total > 0 then (count as real / total as real) * 100.0 else 0.0
  }

  /** A percentage lies in 0..100 and is 100 exactly when every entry counts. */
  lemma PercentageRange(count: nat, total: nat)
    requires count <= total
    ensures 0.0 <= Percentage(count, total) <= 100.0
    ensures Percentage(count, total) == 100.0 <==> total > 0 && count == total
  {
    if total > 0 {
      var q := count as real / total as real;
      assert q * total as real == count as real;
      assert q <= 1.0;
      assert q == 1.0 ==> count == total;
    }
  }

  /** getStatistics: each language in turn sets its three records. */
  function GetStatistics(entries: seq<TranslationEntry>, langs: seq<string>): (r: Statistics)
  {
    if langs == [] then Statistics(|entries|, EmptyMap(), EmptyMap(), EmptyMap())
    else
      var n := |langs| - 1;
      var s := GetStatistics(entries, langs[..n]);
      var count := TranslatedCount(entries, langs[n]);
      Statistics(s.total, Put(s.translated, langs[n], count), Put(s.untranslated, langs[n], |entries| - count),
                 Put(s.percentage, langs[n], Percentage(count, |entries|)))
  }

  /** getStatistics has one record per distinct language, in first-seen order, and the total is the entry count. */
  lemma {:induction false} StatisticsKeys(entries: seq<TranslationEntry>, langs: seq<string>)
    ensures var r := GetStatistics(entries, langs);
      && r.total == |entries|
      && ValidMap(r.translated) && ValidMap(r.untranslated) && ValidMap(r.percentage)
      && r.translated.keys == Dedup(langs) && r.untranslated.keys == Dedup(langs) && r.percentage.keys == Dedup(langs)
  {
    if langs != [] {
      var n := |langs| - 1;
      var s := GetStatistics(entries, langs[..n]);
      var count := TranslatedCount(entries, langs[n]);
      StatisticsKeys(entries, langs[..n]);
      PutKeysDedup(s.translated, langs, count);
      PutKeysDedup(s.untranslated, langs, |entries| - count);
      PutKeysDedup(s.percentage, langs, Percentage(count, |entries|));
    }
  }

  /** The three records of a language hold its translated count, the rest, and their percentage. */
  lemma {:induction false} StatisticsCell(entries: seq<TranslationEntry>, langs: seq<string>, lang: string)
    requires lang in langs
    ensures var r := GetStatistics(entries, langs);
      && lang in r.translated.entries && lang in r.untranslated.entries && lang in r.percentage.entries
      && r.translated.entries[lang] == TranslatedCount(entries, lang)
      && r.untranslated.entries[lang] == |entries| - TranslatedCount(entries, lang)
      && r.percentage.entries[lang] == Percentage(TranslatedCount(entries, lang), |entries|)
  {
    var n := |langs| - 1;
    if langs[n] != lang {
      assert lang in langs[..n] by {
        var i :| 0 <= i < |langs| && langs[i] == lang;
        assert langs[..n][i] == lang;
      }
      StatisticsCell(entries, langs[..n], lang);
    }
  }

  /**
   * For each language, translated + untranslated is the total, translated
   * counts the entries with a non-empty translation, and the percentage lies
   * in 0..100 and is 100 exactly when every entry (of at least one) is translated.
   */
  lemma StatisticsLaws(entries: seq<TranslationEntry>, langs: seq<string>, lang: string)
    requires lang in langs
    ensures var r := GetStatistics(entries, langs);
      && lang in r.translated.entries && lang in r.untranslated.entries && lang in r.percentage.entries
      && r.translated.entries[lang] + r.untranslated.entries[lang] == r.total
      && 0.0 <= r.percentage.entries[lang] <= 100.0
      && (r.percentage.entries[lang] == 100.0 <==> r.total > 0 && forall i :: 0 <= i < |entries| ==> Truthy(TranslationFor(entries[i], lang)))
  {
    StatisticsKeys(entries, langs);
    StatisticsCell(entries, langs, lang);
    PercentageRange(TranslatedCount(entries, lang), |entries|);
  }
}
