// TranslationMemory (src/core/memory.ts).  The SQLite table `translations` is an
// insertion-ordered map from (source, target language) to the rest of its row;
// the UNIQUE(source, target_lang) constraint is the map's distinct keys.  Ids,
// timestamps and database errors are not modelled; a batch's transaction outcome
// is a parameter.
module Memory {
  import opened Strings
  import opened Collections
  import opened StringSimilarity

  datatype SourceType = ApiSource | ManualSource | ImportedSource

  datatype Key = Key(source: string, targetLang: string)

  /** A stored row less its key, id and timestamps. */
  datatype Row = Row(translation: string, sourceType: SourceType, usageCount: nat)

  type Table = OMap<Key, Row>

  /** A row as the queries return it (MemoryEntry without id and timestamps). */
  datatype MemoryEntry = MemoryEntry(source: string, targetLang: string, translation: string, sourceType: SourceType, usageCount: nat)

  /** MemoryConfig; `enabled` and `dbPath` concern the caller and the database file. */
  datatype MemoryConfig = MemoryConfig(enabled: bool, dbPath: Option<string>, similarityThreshold: Option<real>)

  // ---------------------------------------------------------------- upserts

  /**
   * INSERT ... ON CONFLICT(source, target_lang) DO UPDATE: a new pair is stored
   * with usage 1; an existing one takes the new translation and source type and
   * one more use.  Every other row is untouched and no pair is stored twice.
   */
  function Upsert(t: Table, k: Key, translation: string, sourceType: SourceType): (r: Table)
    requires ValidMap(t)
    ensures ValidMap(r) && k in r.entries
    ensures r.entries[k].translation == translation && r.entries[k].sourceType == sourceType
    ensures r.entries[k].usageCount == if k in t.entries then t.entries[k].usageCount + 1 else 1
    ensures forall other :: other != k ==> (other in r.entries <==> other in t.entries)
    ensures forall other :: other != k && other in t.entries ==> r.entries[other] == t.entries[other]
    ensures |r.keys| == |t.keys| + (if k in t.entries then 0 else 1)
  {
    var usage := if k in t.entries then t.entries[k].usageCount + 1 else 1;
    Put(t, k, Row(translation, sourceType, usage))
  }

  /** One item of addTranslationsBatch; an unset source type is 'api'. */
  datatype BatchItem = BatchItem(source: string, targetLang: string, translation: string, sourceType: Option<SourceType>)

  function ItemSourceType(item: BatchItem): SourceType {
    if item.sourceType.Some? then item.sourceType.value else ApiSource
  }

  /** The items upserted one after another, in order. */
  function UpsertAll(t: Table, items: seq<BatchItem>): (r: Table)
    requires ValidMap(t)
    ensures ValidMap(r)
  {
    if items == [] then t
    else
      var last := items[|items| - 1];
      Upsert(UpsertAll(t, items[..|items| - 1]), Key(last.source, last.targetLang), last.translation, ItemSourceType(last))
  }

  /** A batch is the same as its first part followed by its second part. */
  lemma {:induction false} UpsertAllAppend(t: Table, a: seq<BatchItem>, b: seq<BatchItem>)
    requires ValidMap(t)
    ensures UpsertAll(t, a + b) == UpsertAll(UpsertAll(t, a), b)
  {
    if b == [] {
      assert a + b == a;
    } else {
      var last := b[|b| - 1];
      assert (a + b)[..|a + b| - 1] == a + b[..|b| - 1];
      UpsertAllAppend(t, a, b[..|b| - 1]);
    }
  }

  /** A batch stores every pair it names, with the translation of the pair's last item. */
  lemma {:induction false} UpsertAllLast(t: Table, items: seq<BatchItem>, j: nat)
    requires ValidMap(t) && j < |items|
    requires forall l :: j < l < |items| ==> Key(items[l].source, items[l].targetLang) != Key(items[j].source, items[j].targetLang)
    ensures var k := Key(items[j].source, items[j].targetLang);
      k in UpsertAll(t, items).entries && UpsertAll(t, items).entries[k].translation == items[j].translation
  {
    if j < |items| - 1 {
      var init := items[..|items| - 1];
      UpsertAllLast(t, init, j);
    }
  }

  /** UPDATE ... SET usage_count = usage_count + 1: a stored pair gains one use; otherwise nothing changes. */
  function IncrementUsage(t: Table, k: Key): (r: Table)
    requires ValidMap(t)
    ensures ValidMap(r) && r.keys == t.keys
    ensures k in t.entries ==> r.entries[k] == t.entries[k].(usageCount := t.entries[k].usageCount + 1)
    ensures forall other :: other in t.entries && other != k ==> r.entries[other] == t.entries[other]
    ensures k !in t.entries ==> r == t
  {
    if k in t.entries then Put(t, k, t.entries[k].(usageCount := t.entries[k].usageCount + 1)) else t
  }

  /** SELECT translation ... WHERE source = ? AND target_lang = ? */
  function Lookup(t: Table, k: Key): (r: Option<string>)
    ensures r.Some? <==> k in t.entries
    ensures r.Some? ==> r.value == t.entries[k].translation
  {
    if k in t.entries then Some(t.entries[k].translation) else None
  }

  // ---------------------------------------------------------------- queries

  /** The rows in insertion order. */
  function Entries(t: Table): (r: seq<MemoryEntry>)
    requires ValidMap(t)
    ensures |r| == |t.keys|
  {
    seq(|t.keys|, i requires 0 <= i < |t.keys| =>
      var k := t.keys[i];
      MemoryEntry(k.source, k.targetLang, t.entries[k].translation, t.entries[k].sourceType, t.entries[k].usageCount))
  }

  /** Every listed row is stored, with the listed fields. */
  predicate Stored(t: Table, e: MemoryEntry) {
    var k := Key(e.source, e.targetLang);
    k in t.entries && t.entries[k] == Row(e.translation, e.sourceType, e.usageCount)
  }

  lemma EntriesStored(t: Table, e: MemoryEntry)
    requires ValidMap(t) && e in Entries(t)
    ensures Stored(t, e)
  {
  }

  /** WHERE target_lang = ? */
  function InLanguage(es: seq<MemoryEntry>, lang: string): (r: seq<MemoryEntry>)
    ensures forall k :: 0 <= k < |r| ==> r[k].targetLang == lang && r[k] in es
    ensures forall k :: 0 <= k < |es| && es[k].targetLang == lang ==> es[k] in r
    ensures |r| <= |es|
  {
    if es == [] then []
    else if es[0].targetLang == lang then [es[0]] + InLanguage(es[1..], lang)
    else InLanguage(es[1..], lang)
  }

  /** ORDER BY usage_count DESC; rows of equal usage keep their insertion order. */
  predicate MoreUsedFirst(a: MemoryEntry, b: MemoryEntry) {
    a.usageCount >= b.usageCount
  }

  lemma MoreUsedFirstIsPreorder()
    ensures TotalPreorder(MoreUsedFirst)
  {
  }

  function ByUsage(es: seq<MemoryEntry>): (r: seq<MemoryEntry>)
    ensures multiset(r) == multiset(es)
    ensures forall i, j :: 0 <= i < j < |r| ==> r[i].usageCount >= r[j].usageCount
  {
    MoreUsedFirstIsPreorder();
    var r := StableSort(es, MoreUsedFirst);
    assert SortedBy(r, MoreUsedFirst);
    r
  }

  const CandidateLimit: nat := 100

  /** `slice(0, n)` */
  function Take<T>(s: seq<T>, n: nat): (r: seq<T>)
    ensures |r| <= n && |r| <= |s| && r == s[..|r|]
    ensures |s| <= n ==> r == s
  {
    if |s| <= n then s else s[..n]
  }

  /** The candidates of findSimilarTranslations: at most 100 rows of the language, most used first. */
  function Candidates(t: Table, lang: string): (r: seq<MemoryEntry>)
    requires ValidMap(t)
  {
    Take(ByUsage(InLanguage(Entries(t), lang)), CandidateLimit)
  }

  /** The candidates are stored rows of the language, most used first, and all of them when there are at most 100. */
  lemma CandidatesLaws(t: Table, lang: string)
    requires ValidMap(t)
    ensures var c := Candidates(t, lang);
      |c| <= CandidateLimit
      && (forall k :: 0 <= k < |c| ==> c[k].targetLang == lang && Stored(t, c[k]))
      && (forall i, j :: 0 <= i < j < |c| ==> c[i].usageCount >= c[j].usageCount)
      && (|InLanguage(Entries(t), lang)| <= CandidateLimit ==> multiset(c) == multiset(InLanguage(Entries(t), lang)))
      && (|InLanguage(Entries(t), lang)| > CandidateLimit ==>
            |c| == CandidateLimit &&
            forall e :: e in InLanguage(Entries(t), lang) && e !in c ==> e.usageCount <= c[|c| - 1].usageCount)
  {
    var all := InLanguage(Entries(t), lang);
    var sorted := ByUsage(all);
    var c := Candidates(t, lang);
    forall k | 0 <= k < |c| ensures c[k].targetLang == lang && Stored(t, c[k]) {
      assert c[k] == sorted[k];
      assert sorted[k] in multiset(all);
      EntriesStored(t, c[k]);
    }
    if |all| > CandidateLimit {
      LeftOutLessUsed(all, sorted, c);
    }
  }

  /** A row left out of the top `|c|` is used no more than the last row kept. */
  lemma LeftOutLessUsed(all: seq<MemoryEntry>, sorted: seq<MemoryEntry>, c: seq<MemoryEntry>)
    requires sorted == ByUsage(all) && |c| == CandidateLimit < |sorted| && c == sorted[..|c|]
    ensures forall e :: e in all && e !in c ==> e.usageCount <= c[|c| - 1].usageCount
  {
    forall e | e in all && e !in c ensures e.usageCount <= c[|c| - 1].usageCount {
      assert e in multiset(sorted);
      var k :| 0 <= k < |sorted| && sorted[k] == e;
      assert sorted[|c| - 1] == c[|c| - 1];
    }
  }

  // -------------------------------------------------------- similar lookups

  datatype SimilarTranslation = SimilarTranslation(source: string, translation: string, similarity: real)

  /** `similarityThreshold || 0.7`: an unset or zero threshold becomes 0.7. */
  function Threshold(configured: Option<real>): (r: real)
    ensures configured.Some? && configured.value != 0.0 ==> r == configured.value
    ensures configured.None? || configured.value == 0.0 ==> r == 0.7
  {
    if configured.Some? && configured.value != 0.0 then configured.value else 0.7
  }

  /** Every row scored against `source`. */
  function Scored(source: string, rows: seq<MemoryEntry>): (r: seq<SimilarTranslation>)
    ensures |r| == |rows|
    ensures forall i :: 0 <= i < |rows| ==> r[i] == SimilarTranslation(rows[i].source, rows[i].translation, Similarity(source, rows[i].source))
  {
    seq(|rows|, i requires 0 <= i < |rows| => SimilarTranslation(rows[i].source, rows[i].translation, Similarity(source, rows[i].source)))
  }

  /** The rows whose source is at least `threshold` similar to `source`, in row order. */
  function Similar(source: string, rows: seq<MemoryEntry>, threshold: real): (r: seq<SimilarTranslation>)
    ensures |r| <= |rows|
    ensures forall k :: 0 <= k < |r| ==> r[k].similarity >= threshold && r[k] in Scored(source, rows)
    ensures forall j :: 0 <= j < |rows| && Similarity(source, rows[j].source) >= threshold ==> Scored(source, rows)[j] in r
  {
    if rows == [] then []
    else
      var n := |rows| - 1;
      var init := Similar(source, rows[..n], threshold);
      ScoredPrefix(source, rows, n);
      if Similarity(source, rows[n].source) >= threshold then init + [Scored(source, rows)[n]] else init
  }

  lemma ScoredPrefix(source: string, rows: seq<MemoryEntry>, n: nat)
    requires n <= |rows|
    ensures Scored(source, rows[..n]) == Scored(source, rows)[..n]
  {
  }

  /** Each score is the similarity of its own source. */
  lemma ScoredSimilarity(source: string, rows: seq<MemoryEntry>, x: SimilarTranslation)
    requires x in Scored(source, rows)
    ensures x.similarity == Similarity(source, x.source)
    ensures exists j :: 0 <= j < |rows| && rows[j].source == x.source && rows[j].translation == x.translation
  {
  }

  /** `results.sort((a, b) => b.similarity - a.similarity)` */
  predicate MoreSimilarFirst(a: SimilarTranslation, b: SimilarTranslation) {
    a.similarity >= b.similarity
  }

  lemma MoreSimilarFirstIsPreorder()
    ensures TotalPreorder(MoreSimilarFirst)
  {
  }

  function BySimilarity(s: seq<SimilarTranslation>): (r: seq<SimilarTranslation>)
    ensures multiset(r) == multiset(s)
    ensures forall i, j :: 0 <= i < j < |r| ==> r[i].similarity >= r[j].similarity
  {
    MoreSimilarFirstIsPreorder();
    var r := StableSort(s, MoreSimilarFirst);
    assert SortedBy(r, MoreSimilarFirst);
    r
  }

  /** The ranking of findSimilarTranslations over a list of candidate rows. */
  function Ranked(source: string, rows: seq<MemoryEntry>, threshold: real, limit: nat): seq<SimilarTranslation> {
    Take(BySimilarity(Similar(source, rows, threshold)), limit)
  }

  /**
   * Every ranked result reaches the threshold and scores one of the rows;
   * results run from most to least similar; there are at most `limit` of them,
   * and fewer only when every qualifying row is among them.
   */
  lemma RankedLaws(source: string, rows: seq<MemoryEntry>, threshold: real, limit: nat)
    ensures var r := Ranked(source, rows, threshold, limit);
      |r| <= limit && |r| <= |rows|
      && (forall k :: 0 <= k < |r| ==> r[k].similarity >= threshold && r[k] in Scored(source, rows))
      && (forall i, j :: 0 <= i < j < |r| ==> r[i].similarity >= r[j].similarity)
    ensures var r := Ranked(source, rows, threshold, limit);
      |r| < limit ==> forall j :: 0 <= j < |rows| && Similarity(source, rows[j].source) >= threshold ==> Scored(source, rows)[j] in r
  {
    var similar := Similar(source, rows, threshold);
    var sorted := BySimilarity(similar);
    var r := Ranked(source, rows, threshold, limit);
    assert |sorted| == |similar| by {
      assert |multiset(sorted)| == |multiset(similar)|;
    }
    forall k | 0 <= k < |r| ensures r[k].similarity >= threshold && r[k] in Scored(source, rows) {
      assert r[k] == sorted[k];
      assert sorted[k] in multiset(similar);
    }
    if |r| < limit {
      assert r == sorted;
      forall j | 0 <= j < |rows| && Similarity(source, rows[j].source) >= threshold
        ensures Scored(source, rows)[j] in r
      {
        assert Scored(source, rows)[j] in multiset(similar);
      }
    }
  }

  /** findSimilarTranslations on a table. */
  function SimilarResults(t: Table, source: string, lang: string, threshold: real, limit: nat): seq<SimilarTranslation>
    requires ValidMap(t)
  {
    Ranked(source, Candidates(t, lang), threshold, limit)
  }

  // ------------------------------------------------------------- statistics

  function LanguagesOf(t: Table): (r: seq<string>)
    ensures |r| == |t.keys|
  {
    seq(|t.keys|, i requires 0 <= i < |t.keys| => t.keys[i].targetLang)
  }

  /** SELECT COUNT(*) ... WHERE target_lang = ? */
  function CountIn(t: Table, lang: string): nat {
    Count(LanguagesOf(t), lang)
  }

  datatype Statistics = Statistics(total: nat, byLanguage: OMap<string, nat>)

  /** Recording the next distinct key of `keys` extends the record by that key and its sum by its value. */
  lemma PutNext(m: OMap<string, nat>, keys: seq<string>, n: nat, v: nat)
    requires ValidMap(m) && Distinct(keys) && n < |keys| && m.keys == keys[..n]
    ensures var r := Put(m, keys[n], v);
      r.keys == keys[..n + 1] && Sum(Values(r)) == Sum(Values(m)) + v
  {
    var k := keys[n];
    var r := Put(m, k, v);
    PrefixSnoc(keys, n);
    assert r.keys == m.keys + [k];
    var vr, vm := Values(r), Values(m);
    forall i | 0 <= i < |vm|
      ensures vr[i] == vm[i]
    {
      assert r.keys[i] == m.keys[i] != k;
    }
    assert vr[n] == v;
    assert vr == vm + [v];
    SumAppend(Values(m), [v]);
    assert Sum([v]) == v + Sum([]);
  }

  // ------------------------------------------------------------------ export

  /** ORDER BY target_lang, usage_count DESC */
  predicate LanguageThenUsage(a: MemoryEntry, b: MemoryEntry) {
    if a.targetLang == b.targetLang then a.usageCount >= b.usageCount else LexLeq(a.targetLang, b.targetLang)
  }

  lemma LanguageThenUsageIsPreorder()
    ensures TotalPreorder(LanguageThenUsage)
  {
    forall a, b ensures LanguageThenUsage(a, b) || LanguageThenUsage(b, a) {
      LexLeqTotal(a.targetLang, b.targetLang);
    }
    forall a, b, c | LanguageThenUsage(a, b) && LanguageThenUsage(b, c) ensures LanguageThenUsage(a, c) {
      if a.targetLang != b.targetLang && b.targetLang != c.targetLang {
        LexLeqTransitive(a.targetLang, b.targetLang, c.targetLang);
        if a.targetLang == c.targetLang {
          LexLeqAntisymmetric(a.targetLang, b.targetLang);
        }
      }
    }
  }

  /**
   * export: one language's rows most used first, or every row ordered by
   * language and then most used first.  A language given as "" counts as none.
   */
  function ExportRows(t: Table, targetLang: Option<string>): (r: seq<MemoryEntry>)
    requires ValidMap(t)
    ensures targetLang.Some? && targetLang.value != [] ==>
      multiset(r) == multiset(InLanguage(Entries(t), targetLang.value))
      && forall i, j :: 0 <= i < j < |r| ==> r[i].usageCount >= r[j].usageCount
    ensures targetLang.None? || targetLang.value == [] ==>
      multiset(r) == multiset(Entries(t)) && SortedBy(r, LanguageThenUsage)
  {
    if targetLang.Some? && targetLang.value != [] then ByUsage(InLanguage(Entries(t), targetLang.value))
    else
      LanguageThenUsageIsPreorder();
      StableSort(Entries(t), LanguageThenUsage)
  }

  /** Every exported row is a stored row. */
  lemma ExportStored(t: Table, targetLang: Option<string>, k: nat)
    requires ValidMap(t) && k < |ExportRows(t, targetLang)|
    ensures Stored(t, ExportRows(t, targetLang)[k])
  {
    var r := ExportRows(t, targetLang);
    assert r[k] in multiset(r);
    EntriesStored(t, r[k]);
  }

  // ------------------------------------------------------------------- store

  /** TranslationMemory over the rows its database holds when it is opened. */
  class TranslationMemory {
    const similarityThreshold: Option<real>
    var table: Table

    ghost predicate Valid()
      reads this
    {
      ValidMap(table)
    }

    /** Opens the store; `stored` is the table the database file already holds. */
    constructor(config: MemoryConfig, stored: Table)
      requires ValidMap(stored)
      ensures Valid() && table == stored && similarityThreshold == config.similarityThreshold
    {
      similarityThreshold := config.similarityThreshold;
      table := stored;
    }

    /** addTranslation */
    method AddTranslation(source: string, targetLang: string, translation: string, sourceType: SourceType)
      requires Valid()
      modifies this
      ensures Valid() && table == Upsert(old(table), Key(source, targetLang), translation, sourceType)
    {
      table := Upsert(table, Key(source, targetLang), translation, sourceType);
    }

    /** findTranslation: a hit is returned and counted as one more use; a miss changes nothing. */
    method FindTranslation(source: string, targetLang: string) returns (r: Option<string>)
      requires Valid()
      modifies this
      ensures Valid()
      ensures r == Lookup(old(table), Key(source, targetLang))
      ensures table == if r.Some? then IncrementUsage(old(table), Key(source, targetLang)) else old(table)
    {
      var row := Lookup(table, Key(source, targetLang));
      if row.Some? {
        IncrementUsageCount(source, targetLang);
        return row;
      }
      return None;
    }

    /** incrementUsageCount */
    method IncrementUsageCount(source: string, targetLang: string)
      requires Valid()
      modifies this
      ensures Valid() && table == IncrementUsage(old(table), Key(source, targetLang))
    {
      table := IncrementUsage(table, Key(source, targetLang));
    }

    /** findSimilarTranslations: filter the candidates, sort by similarity, keep `limit`. */
    method FindSimilarTranslations(source: string, targetLang: string, limit: nat) returns (results: seq<SimilarTranslation>)
      requires Valid()
      ensures results == SimilarResults(table, source, targetLang, Threshold(similarityThreshold), limit)
    {
      var rows := Candidates(table, targetLang);
      var threshold := Threshold(similarityThreshold);
      results := [];
      var i := 0;
      while i < |rows|
        invariant i <= |rows|
        invariant results == Similar(source, rows[..i], threshold)
      {
        var row := rows[i];
        var similarity := CalculateSimilarity(source, row.source);
        PrefixOfPrefix(rows, i);
        if similarity >= threshold {
          results := results + [SimilarTranslation(row.source, row.translation, similarity)];
        }
        i := i + 1;
      }
      assert rows[..i] == rows;
      results := Take(BySimilarity(results), limit);
    }

    /** addTranslationsBatch: one transaction; when it is not committed the table is as before. */
    method AddTranslationsBatch(items: seq<BatchItem>, committed: bool)
      requires Valid()
      modifies this
      ensures Valid()
      ensures table == if committed then UpsertAll(old(table), items) else old(table)
    {
      var start := table;
      var staged := table;
      var i := 0;
      while i < |items|
        invariant i <= |items|
        invariant table == start
        invariant ValidMap(staged) && staged == UpsertAll(start, items[..i])
      {
        var item := items[i];
        PrefixOfPrefix(items, i);
        staged := Upsert(staged, Key(item.source, item.targetLang), item.translation, ItemSourceType(item));
        i := i + 1;
      }
      assert items[..i] == items;
      if committed {
        table := staged;
      }
    }

    /**
     * getStatistics: one language's count, or every language's count, first
     * seen first, and their sum.  A language given as "" counts as none.
     */
    method GetStatistics(targetLang: Option<string>) returns (stats: Statistics)
      requires Valid()
      ensures targetLang.Some? && targetLang.value != [] ==>
        stats.total == CountIn(table, targetLang.value)
        && stats.byLanguage == OMap([targetLang.value], map[targetLang.value := CountIn(table, targetLang.value)])
      ensures targetLang.None? || targetLang.value == [] ==>
        stats.total == |table.keys| && Tally(stats.byLanguage, LanguagesOf(table))
    {
      if targetLang.Some? && targetLang.value != [] {
        var count := CountIn(table, targetLang.value);
        return Statistics(count, Put(EmptyMap(), targetLang.value, count));
      }
      var langs := Dedup(LanguagesOf(table));
      var total := 0;
      var byLanguage := EmptyMap();
      var i := 0;
      while i < |langs|
        invariant i <= |langs|
        invariant ValidMap(byLanguage) && byLanguage.keys == langs[..i] && total == Sum(Values(byLanguage))
        invariant forall x :: x in byLanguage.entries ==> byLanguage.entries[x] == CountIn(table, x)
      {
        var count := CountIn(table, langs[i]);
        PutNext(byLanguage, langs, i, count);
        byLanguage := Put(byLanguage, langs[i], count);
        total := total + count;
        i := i + 1;
      }
      assert langs[..i] == langs;
      TallySum(byLanguage, LanguagesOf(table));
      return Statistics(total, byLanguage);
    }

    /** clear */
    method Clear()
      modifies this
      ensures Valid() && table.keys == [] && table.entries == map[]
    {
      table := EmptyMap();
    }

    /** export */
    method Export(targetLang: Option<string>) returns (r: seq<MemoryEntry>)
      requires Valid()
      ensures r == ExportRows(table, targetLang)
    {
      r := ExportRows(table, targetLang);
    }
  }
}
