# ldesign-translator, modelled in Dafny

ldesign-translator finds the Chinese text in a JavaScript, TypeScript, Vue or JSON
code base and gives each text a key. It translates the texts through a translation
memory and an online provider, and checks the translations. It keeps a glossary,
moves translations to and from Excel sheets, and rewrites the source so that every
text becomes a call to the i18n accessor, `t('key')`. This project models that
pipeline and proves what each step promises.

| file | module | models |
|---|---|---|
| strings.dfy | Strings | the string built-ins the code relies on: trim, ASCII lower-casing, literal search and replace, number formatting |
| collections.dfy | Collections | insertion-ordered maps (JavaScript `Map`, and plain objects whose keys are not integer-like), counting, flattening, a stable comparison sort |
| types.dfy | Types | the shared records (extracted texts, translation entries, results, the API configuration) and the abstract parser output (syntax nodes, Vue blocks, JSON values) |
| pattern_matcher.dfy | PatternMatcher | Chinese detection, run extraction, key derivation, language codes, text cleaning (`src/utils/pattern-matcher.ts`) |
| similarity.dfy | StringSimilarity | Levenshtein distance filled row by row in an array, similarity, most-similar search |
| placeholders.dfy | Placeholders | placeholder and HTML-tag scanning, validation, and placeholder protect/restore |
| markers.dfy | Markers | the `__WORD_n__` marker scheme that placeholder and term protection share, and its round trip |
| extractor.dfy | Extractor | `TextExtractor`: the key registry, unique keys, the visitors over an abstract syntax tree, the Vue template scan, the JSON walk, namespaces |
| replacer.dfy | Replacer | `CodeReplacer`: the text-to-key map, the replace rules, import insertion, the Vue template rewrite, the batch report |
| validator.dfy | Validator | `TranslationValidator`: per-entry issues with severities, length checks, the report |
| glossary.dfy | Glossary | `GlossaryManager`: the case-insensitive term map, term application, term protection, term usage, sheet rows, statistics |
| memory.dfy | Memory | `TranslationMemory`: the translations table as an ordered map, upsert, lookups, fuzzy search, batch insert, statistics, export |
| providers.dfy | Providers | the base provider: batching, retries with backoff, rate-limit pauses, fallback results, configuration check |
| translator.dfy | Translator | `Translator`: provider creation, reuse/memory/queue decisions, write-back, saving, merging, statistics |
| excel.dfy | Excel | `ExcelHandler`: export and template rows, import and filtering, file validation |
| config.dfy | Config | the default configuration, `mergeConfig`, `validateConfig`, `createConfig`, `loadConfig` |

Parsers, the database, spreadsheets and the network are outside the model. The
parser's output is given as an abstract syntax tree. The database's contents are
given as a table. A provider's network call and the MD5 hash are function
parameters. A file's content, or the absence of one, is a parameter too.

## Model

| member | source | states |
|---|---|---|
| Collections.DedupOrder | src/utils/pattern-matcher.ts:23 | `Array.from(new Set(...))` keeps first-occurrence order: an earlier element occurs in the input before a later one first does |
| Collections.StableSortStable | src/core/glossary.ts:199 | the comparison sort is stable: elements the comparator ties come out in the order they went in |
| PatternMatcher.ExtractChineseFromString | src/utils/pattern-matcher.ts:29-34 | a value is returned exactly when the text holds a Chinese character; that value is the trimmed text, which still holds Chinese and is its own trim |
| PatternMatcher.TrimKeepsChinese | src/utils/pattern-matcher.ts:29-34 | trimming a text that holds Chinese keeps the Chinese, so the returned text passes the same test |
| PatternMatcher.RunEnd | src/utils/pattern-matcher.ts:21-24 | the end of a run is the first non-CJK character (or the end of the text) and every character before it from the start is CJK text |
| PatternMatcher.RunSpans | src/utils/pattern-matcher.ts:21-24 | the global regex's matches are maximal runs of CJK text, in increasing, non-overlapping order |
| PatternMatcher.RunSpansCover | src/utils/pattern-matcher.ts:21-24 | every CJK text character lies inside one of the matched runs |
| PatternMatcher.ExtractChinese | src/utils/pattern-matcher.ts:21-24 | the result is the regex's matches deduplicated, has no duplicates, is empty exactly when the text has no CJK text character, and each entry is a non-empty run of CJK text |
| PatternMatcher.SameRun | src/utils/pattern-matcher.ts:9 | two maximal runs of CJK text that share a position are the same run |
| PatternMatcher.RunIsSpan | src/utils/pattern-matcher.ts:21-24 | every maximal run of CJK text is one of the global regex's matches |
| PatternMatcher.ExtractChineseRuns | src/utils/pattern-matcher.ts:21-24 | every entry is the text of a maximal run of CJK text, and the text of every maximal run is an entry |
| PatternMatcher.ExtractChineseOrder | src/utils/pattern-matcher.ts:21-24 | entries keep first-occurrence order: an earlier entry is the text of a run that ends before every run whose text is a later entry |
| PatternMatcher.ExtractChineseShape | src/utils/pattern-matcher.ts:21-24 | the deduplicated matches are empty exactly when no CJK text occurs, and each one is a non-empty CJK run |
| PatternMatcher.CollapseSpace | src/utils/pattern-matcher.ts:41 | every character that is neither whitespace nor the replacement is kept, in order; the only whitespace left is the replacement, never two in a row; the first character is kept or replaced; only the empty text gives the empty text |
| PatternMatcher.CollapseNoSpace | src/utils/pattern-matcher.ts:41 | a text without whitespace is left exactly as it is |
| PatternMatcher.CollapseAppend | src/utils/pattern-matcher.ts:41 | a split after a non-whitespace character commutes with the collapse: the two parts collapse independently and are joined |
| PatternMatcher.CollapseRun | src/utils/pattern-matcher.ts:41 | a non-empty whitespace run between a non-whitespace end and a non-whitespace start (or the end of the text) becomes exactly one replacement character, with both sides collapsed independently |
| PatternMatcher.StripTrimStart | src/utils/pattern-matcher.ts:41 | leading whitespace contributes no character to the text that is kept |
| PatternMatcher.CollapseSpaceFixed | src/utils/pattern-matcher.ts:41 | a text whose whitespace is already isolated replacement characters is a fixed point of the replacement |
| PatternMatcher.KeepKeyChars | src/utils/pattern-matcher.ts:41 | only key characters survive, and a text made of key characters is unchanged |
| PatternMatcher.KeepKeyCharsAppend | src/utils/pattern-matcher.ts:41 | removing the non-key characters of a concatenation removes them from each part: the step is a filter |
| PatternMatcher.KeepKeyCharsOne | src/utils/pattern-matcher.ts:41 | one character survives exactly when it is a key character (`[一-龥a-zA-Z0-9_]`) |
| PatternMatcher.StripKeepKeyChars | src/utils/pattern-matcher.ts:41 | dropping `_` and whitespace, then keeping key characters, is the same as doing it the other way round |
| PatternMatcher.GenerateKey | src/utils/pattern-matcher.ts:39-50 | the key is the `ns.` prefix (when a namespace is given) followed by at most 20 key characters |
| PatternMatcher.GenerateKeyBody | src/utils/pattern-matcher.ts:39-50 | the body is the first 20 characters of the text with whitespace runs turned into `_` and non-key characters dropped; apart from `_` those are exactly the text's key characters, in order |
| PatternMatcher.KeyIdempotent | src/utils/pattern-matcher.ts:39-50 | deriving a key from a key derived without a namespace gives the same key |
| PatternMatcher.GeneratedKeyShape | src/utils/pattern-matcher.ts:39-50 | a key derived without a namespace has at most 20 characters, all key characters and none whitespace |
| PatternMatcher.KeyJoinsWords | src/utils/pattern-matcher.ts:41 | a run of whitespace between two key characters becomes exactly one `_` |
| PatternMatcher.CollapseJoin | src/utils/pattern-matcher.ts:41 | a run of whitespace between two non-blank characters collapses to one `_` |
| PatternMatcher.GenerateHashKey | src/utils/pattern-matcher.ts:55-60 | the hash key is the `ns.` prefix followed by the first eight characters of the digest (fewer only if the digest is shorter) |
| PatternMatcher.PlainCodeNormalized | src/utils/pattern-matcher.ts:140-156 | a lower-case, already trimmed code that is not an alias normalises to itself |
| PatternMatcher.AliasTargetsNormalized | src/utils/pattern-matcher.ts:140-156 | every code the alias table yields normalises to itself |
| PatternMatcher.NormalizeIdempotent | src/utils/pattern-matcher.ts:140-156 | normalising an already normalised code changes nothing |
| PatternMatcher.NormalizeRegionalExample | src/utils/pattern-matcher.ts:140-156 | `ZH-cn ` (any case, with blanks) normalises to `zh-CN` |
| PatternMatcher.NormalizeNameExample | src/utils/pattern-matcher.ts:140-156 | the English language name `Chinese` normalises to `zh-CN` |
| PatternMatcher.ValidityIsCaseSensitive | src/utils/pattern-matcher.ts:126-135 | `zh-CN` is a valid code and `zh-cn` is not: membership is case-sensitive |
| PatternMatcher.AliasesAreValid | src/utils/pattern-matcher.ts:126-156 | whenever the alias table applies, the normalised code is in the valid list |
| PatternMatcher.CollapseNewlines | src/utils/pattern-matcher.ts:161-166 | a text without newlines is left unchanged by the `/\n+/g` step |
| PatternMatcher.CleanText | src/utils/pattern-matcher.ts:161-166 | every non-whitespace character of the text is kept, in order; the cleaned text has no whitespace at either end and its inner whitespace is single plain spaces |
| PatternMatcher.CleanTextRun | src/utils/pattern-matcher.ts:161-166 | cleaning a text whose inner whitespace run separates a part x from a part y that starts with a non-whitespace character gives the cleaned x, one space and the cleaned y |
| Strings.TrimAround | src/utils/pattern-matcher.ts:165 | trimming two parts joined by a space, where the space touches non-whitespace on both sides, trims each part on its outer side only |
| PatternMatcher.CleanKeepsText | src/utils/pattern-matcher.ts:161-166 | the two replacements and the trim together keep every non-whitespace character, in order |
| PatternMatcher.CleanTextIdempotent | src/utils/pattern-matcher.ts:161-166 | cleaning a cleaned text changes nothing |
| StringSimilarity.Min3 | src/utils/pattern-matcher.ts:86-90 | `Math.min` of three costs is one of them and no larger than any |
| StringSimilarity.LevAtUpper | src/utils/pattern-matcher.ts:72-92 | a matrix cell never exceeds the longer of its two prefix lengths |
| StringSimilarity.LevAtLower | src/utils/pattern-matcher.ts:72-92 | a matrix cell is at least the difference of its two prefix lengths |
| StringSimilarity.LevAtSymmetric | src/utils/pattern-matcher.ts:72-92 | swapping the two strings transposes the matrix without changing any distance |
| StringSimilarity.LevAtSelf | src/utils/pattern-matcher.ts:72-92 | the diagonal of a string against itself is zero |
| StringSimilarity.LevAtZero | src/utils/pattern-matcher.ts:72-92 | a zero cell means the two prefixes are equal |
| StringSimilarity.LevLaws | src/utils/pattern-matcher.ts:65-99 | the edit distance is zero exactly on equal strings, symmetric, at most the longer length and at least the length difference |
| StringSimilarity.SimilarityLaws | src/utils/pattern-matcher.ts:65-99 | the similarity lies in [0, 1], is symmetric, is 1 exactly for equal strings and 0 when only one string is empty |
| StringSimilarity.CalculateSimilarity | src/utils/pattern-matcher.ts:65-99 | the row-by-row matrix fill returns exactly 1 - distance / longer length (1 for two empty strings) |
| StringSimilarity.FillRow | src/utils/pattern-matcher.ts:83-92 | one pass of the inner loop completes row i from row i-1 and touches no other row |
| StringSimilarity.FillCell | src/utils/pattern-matcher.ts:85-90 | one cell receives the cheapest of deletion, insertion and substitution, and no other cell changes |
| StringSimilarity.FindMostSimilar | src/utils/pattern-matcher.ts:104-121 | no result exactly when every candidate is at or below the threshold; otherwise the first candidate of greatest similarity, which is above the threshold |
| Placeholders.CurlyLen | src/utils/pattern-matcher.ts:180 | a non-zero match length at a position covers a `{name}` placeholder inside the text |
| Placeholders.PercentLen | src/utils/pattern-matcher.ts:182 | a non-zero match length covers `%s`, `%d`, `%f` or the positional `%n$s` form |
| Placeholders.DollarLen | src/utils/pattern-matcher.ts:184 | a non-zero match length covers `$name` or `${name}` with an identifier name |
| Placeholders.AngularLen | src/utils/pattern-matcher.ts:186 | a non-zero match length covers `{{name}}` or `[[name]]` |
| Placeholders.ColonLen | src/utils/pattern-matcher.ts:188 | a non-zero match length covers `:name` with an identifier name |
| Placeholders.HtmlLen | src/utils/pattern-matcher.ts:277 | a non-zero match length covers an opening or closing tag `<name …>` |
| Placeholders.MatchLen | src/utils/pattern-matcher.ts:178-189 | whatever family matches at a position, the matched text has that family's shape and lies inside the text |
| Placeholders.Scan | src/utils/pattern-matcher.ts:202 | every text a global `match` returns has the family's shape, and holds no `_` when the text holds none |
| Placeholders.ScanEmpty | src/utils/pattern-matcher.ts:202-203 | `match` returns nothing exactly when the pattern matches at no position |
| Placeholders.ExtractPlaceholders | src/utils/pattern-matcher.ts:194-240 | the placeholders are distinct and are exactly the texts matched by any of the five families |
| Placeholders.KindIsFirstMatching | src/utils/pattern-matcher.ts:198-234 | the reported type is the first family in the order curly, percent, dollar, angular, colon that matches, and `none` exactly when none does |
| Placeholders.PlaceholderFacts | src/utils/pattern-matcher.ts:178-189 | every placeholder starts with `{`, `%`, `$`, `[` or `:` and holds no `_` when its text holds none |
| Placeholders.Absent | src/utils/pattern-matcher.ts:259-264 | the filter keeps exactly the elements missing from the other list, keeps distinctness, and is empty when all are present |
| Placeholders.ValidatePlaceholders | src/utils/pattern-matcher.ts:245-271 | `missing` is exactly the source placeholders the translation lacks, `extra` the converse, both without repeats, and valid exactly when both are empty |
| Placeholders.ValidatePlaceholdersLaws | src/utils/pattern-matcher.ts:245-271 | the check passes exactly when source and translation have the same set of placeholders |
| Placeholders.ValidatePlaceholdersReflexive | src/utils/pattern-matcher.ts:245-271 | a text always agrees with itself, with nothing missing or extra |
| Placeholders.ExtractHtmlTags | src/utils/pattern-matcher.ts:276-280 | every returned tag has tag shape, and the list is empty exactly when no tag matches anywhere |
| Placeholders.SurplusIsDifference | src/utils/pattern-matcher.ts:312-331 | pushing, per distinct tag, the copies by which one list outnumbers the other yields the multiset difference |
| Placeholders.CountTags | src/utils/pattern-matcher.ts:297-303 | the count record has each distinct tag once, in first-occurrence order, mapped to its number of occurrences |
| Placeholders.PushSurplus | src/utils/pattern-matcher.ts:312-331 | the loop pushes, key by key, exactly the surplus read from the two count records |
| Placeholders.SurplusOfCounts | src/utils/pattern-matcher.ts:312-331 | the surplus read from count records equals the surplus computed from the tag lists they count |
| Placeholders.ValidateHtmlTags | src/utils/pattern-matcher.ts:285-338 | `missing` is the multiset of source tags minus the translation's, `extra` the converse, and valid exactly when both texts have the same tags with the same counts |
| Placeholders.DifferencesEmpty | src/utils/pattern-matcher.ts:334 | both multiset differences are empty exactly when the multisets are equal |
| Placeholders.PlaceholderSafe | src/utils/pattern-matcher.ts:343-361 | a placeholder of a text without `_` can never overlap a `__PLACEHOLDER_n__` marker |
| Placeholders.ProtectPlaceholders | src/utils/pattern-matcher.ts:343-361 | the loop replaces the first occurrence of each distinct placeholder, in order, by the next marker and records marker to placeholder |
| Placeholders.RestorePlaceholders | src/utils/pattern-matcher.ts:366-375 | every occurrence of each marker, in map order, is replaced by its placeholder |
| Placeholders.PlaceholderRoundTrip | src/utils/pattern-matcher.ts:343-375 | restoring the protected text with the recorded markers gives back the original text (texts without `_`) |
| Markers.Marker | src/utils/pattern-matcher.ts:352 | a marker is `__`, the word, `_`, the decimal index and `__`, so its length is the word's plus five plus the digits' |
| Markers.SafeFromLead | src/utils/pattern-matcher.ts:178-189 | a text without `_` whose first character is not alphanumeric cannot overlap a marker of a letter word |
| Markers.MarkersDistinct | src/utils/pattern-matcher.ts:352 | two markers with the same word are equal only for the same index |
| Markers.FirstUnderscoreDoubled | src/utils/pattern-matcher.ts:352-354 | in a protected text the first `_` opens a marker, so a second `_` follows it |
| Markers.NoMarkerMatchInside | src/utils/pattern-matcher.ts:366-375 | the global search for one marker never starts inside a different marker |
| Markers.MarkerStartMismatch | src/utils/pattern-matcher.ts:352 | a different marker placed at the same position differs from the searched one |
| Markers.PlainNoMarkerMatch | src/utils/pattern-matcher.ts:366-375 | no marker is found starting inside a piece of text that holds no `_` |
| Markers.RestoreStep | src/utils/pattern-matcher.ts:371-373 | one global replacement of marker j by its original restores exactly the occurrences of marker j |
| Markers.SafeNotInMarker | src/utils/pattern-matcher.ts:354 | a safe placeholder is never found starting inside an earlier marker |
| Markers.ProtectStep | src/utils/pattern-matcher.ts:354 | `String.replace` of a safe text by a marker replaces its first occurrence among the plain characters and leaves earlier markers intact |
| Markers.ProtectKeepsExpansion | src/utils/pattern-matcher.ts:352-354 | putting marker k where `ps[k]` stood does not change the text once the markers are restored |
| Markers.MarkerKeysAt | src/utils/pattern-matcher.ts:352-353 | the k-th recorded key is marker k |
| Markers.RestoreAll | src/utils/pattern-matcher.ts:366-375 | restoring the remaining markers in index order restores every marker |
| Markers.ProtectUpToRender | src/utils/pattern-matcher.ts:351-356 | protecting the pieces one after another works on the plain characters only and never disturbs markers already written |
| Markers.ToksUpToExpand | src/utils/pattern-matcher.ts:351-356 | after any number of protection steps the fully restored text is the original |
| Markers.ProtectRestoreRoundTrip | src/utils/pattern-matcher.ts:343-375 | protecting safe pieces of a text without `_` and then restoring every marker in order gives back the text |
| Markers.MarkerMap | src/utils/pattern-matcher.ts:348-353 | the marker record is a well-formed insertion-ordered map whose keys are markers 0 to n-1 in order |
| Markers.ProtectOneMore | src/utils/pattern-matcher.ts:351-356 | one loop iteration replaces the first occurrence of the next piece by the next marker and records the pair |
| Markers.MarkerMapEntries | src/utils/pattern-matcher.ts:353 | marker k of the record maps to the k-th piece |
| Markers.MarkerMapRoundTrip | src/utils/pattern-matcher.ts:343-375 | restoring in the record's key order undoes the protection of safe pieces of a text without `_` |
| Markers.RestoreMarkers | src/core/glossary.ts:220-234 | every occurrence of each marker, in the map's insertion order, is replaced by its recorded text |
| Extractor.SplitPath | src/core/extractor.ts:334 | splitting on `/` and `\` yields at least one segment and no segment holds a separator |
| Extractor.SplitPathJoin | src/core/extractor.ts:334 | joining the segments with `/` gives back the path with every separator written as `/`, so no character is lost |
| Extractor.IndexOf | src/core/extractor.ts:335 | the index is the first position holding the value, and -1 exactly when no position holds it |
| Extractor.ExtractNamespace | src/core/extractor.ts:328-342 | nothing when the option is off; otherwise the segment after the first `src` segment, and nothing exactly when no `src` segment but the last exists |
| Extractor.NamespaceIsOneSegment | src/core/extractor.ts:328-342 | a namespace never holds a path separator |
| Extractor.Extension | src/utils/file-utils.ts:115-117 | the extension is empty or starts with `.` |
| Extractor.LastDot | src/utils/file-utils.ts:115-117 | the position found holds a `.` and lies before the bound |
| Extractor.Candidate | src/core/extractor.ts:318 | every suffixed key `base_n` is longer than the base key |
| Extractor.CandidateInjective | src/core/extractor.ts:318 | different counters give different candidate keys |
| Extractor.TriedBound | src/core/extractor.ts:309-320 | if the first n candidates are all bound, the registry has at least n keys, so the search ends |
| Extractor.KeyFromFirstFree | src/core/extractor.ts:309-320 | the search from candidate n on ends at the first candidate free for the text, within the registry's size |
| Extractor.UniqueKeyIsFirstFree | src/core/extractor.ts:301-323 | the key is the first candidate that is unbound or bound to the same text, found within registry size + 1 tries, and it is the hash key exactly when that key is free |
| Extractor.UniqueKeyFree | src/core/extractor.ts:301-323 | the key returned is unbound or already bound to the same text |
| Extractor.CollidingTextsShareKey | src/core/extractor.ts:311 | two texts whose common hash key is unbound both receive it, since the registry only grows after a file |
| Extractor.ChineseSpan | src/core/extractor.ts:78-89 | a span is produced exactly when the value holds Chinese; it is trimmed, holds Chinese, carries a key free for it, and keeps the given position |
| Extractor.LiteralSpans | src/core/extractor.ts:76-90 | a string literal gives at most one span, exactly when it holds Chinese |
| Extractor.QuasiSpans | src/core/extractor.ts:93-109 | every span of a template literal's static chunks is trimmed, holds Chinese and has a free key |
| Extractor.QuasiSpansCount | src/core/extractor.ts:94-108 | a template literal yields one span per static chunk that holds Chinese |
| Extractor.NodeSpans | src/core/extractor.ts:74-144 | every span produced by the four visitors is trimmed Chinese under a key free for it |
| Extractor.ScriptSpans | src/core/extractor.ts:54-150 | the traversal's spans are well formed, nothing on a parse failure |
| Extractor.TextMatchAt | src/core/extractor.ts:208 | a match of `>([^<]+)<` is a `>`, a non-empty capture free of `<`, then `<` |
| Extractor.AttrMatchAt | src/core/extractor.ts:228 | a match of the attribute pattern is `=`, a quote, a non-empty capture free of that quote, the same quote |
| Extractor.TextMatches | src/core/extractor.ts:211 | the global `exec` loop yields matches at increasing, non-overlapping positions |
| Extractor.AttrMatches | src/core/extractor.ts:229 | the attribute `exec` loop yields matches at increasing, non-overlapping positions |
| Extractor.LineWithinTemplate | src/core/extractor.ts:215-216 | the computed line lies between the template's first line and its first line plus its newlines |
| Extractor.TextSpan | src/core/extractor.ts:212-224 | a text match gives at most one span, with a line and without column or context |
| Extractor.AttrSpan | src/core/extractor.ts:230-243 | an attribute match gives at most one span, with a line and without column or context |
| Extractor.TemplateSpans | src/core/extractor.ts:199-250 | every template span is trimmed Chinese under a key free for it |
| Extractor.WalkIsConcat | src/core/extractor.ts:271-296 | the walk visits exactly the string leaves, in document order, each with its path |
| Extractor.LeafSpansOk | src/core/extractor.ts:277-286 | the string leaves give one well-formed span per leaf holding Chinese |
| Extractor.JsonSpans | src/core/extractor.ts:255-296 | a JSON document gives one well-formed span per string leaf holding Chinese |
| Extractor.BlockSpans | src/core/extractor.ts:172-188 | a script block's spans are well formed, none when it is absent or fails to parse |
| Extractor.VueSpans | src/core/extractor.ts:155-194 | a component's spans are well formed |
| Extractor.FileSpans | src/core/extractor.ts:29-49 | a file's spans are well formed, and an unsupported extension gives none |
| Extractor.AddTexts | src/core/extractor.ts:378 | adding texts keeps the registry a well-formed ordered map |
| Extractor.AddTextsKeyed | src/core/extractor.ts:347-349 | adding texts keeps every text stored under its own key |
| Extractor.AddTextsLast | src/core/extractor.ts:347-349 | a key ends up bound to the last text added under it |
| Extractor.AddTextsOthers | src/core/extractor.ts:347-349 | keys that no added text carries keep their binding |
| Extractor.Catalog | src/core/extractor.ts:369-385 | the registry built from all files stores every text under its own key |
| Extractor.CatalogKeysUnique | src/core/extractor.ts:369-385 | the returned list holds every key once |
| Extractor.TextExtractor.constructor | src/core/extractor.ts:20-24 | a new extractor keeps its configuration and starts with an empty registry |
| Extractor.TextExtractor.GenerateUniqueKey | src/core/extractor.ts:301-323 | the loop returns the first candidate key free for the text |
| Extractor.TextExtractor.VisitNode | src/core/extractor.ts:74-144 | the visitors of one node produce exactly the node's spans |
| Extractor.TextExtractor.VisitLiteral | src/core/extractor.ts:76-90 | a literal's visitor produces exactly its Chinese span |
| Extractor.TextExtractor.ExtractFromJavaScript | src/core/extractor.ts:54-150 | the traversal produces the script's spans, nothing when the parse failed |
| Extractor.TextExtractor.ExtractFromVueTemplate | src/core/extractor.ts:199-250 | the two `exec` loops produce the text matches' spans and then the attribute matches' |
| Extractor.TextExtractor.VisitTextMatch | src/core/extractor.ts:212-224 | one text match produces exactly its span |
| Extractor.TextExtractor.ExtractFromVue | src/core/extractor.ts:155-194 | the template, the script and the setup script, in that order; nothing when the parse failed |
| Extractor.TextExtractor.ExtractFromBlock | src/core/extractor.ts:172-188 | a present block's script spans, nothing for an absent block |
| Extractor.TextExtractor.TraverseJson | src/core/extractor.ts:271-296 | the recursion appends exactly the walk of the value to the results |
| Extractor.TextExtractor.TraverseItems | src/core/extractor.ts:287-290 | array items are walked in order, item i under the segment `[i]` |
| Extractor.TextExtractor.TraverseMembers | src/core/extractor.ts:291-294 | object members are walked in order, each under its name |
| Extractor.TextExtractor.VisitJsonString | src/core/extractor.ts:277-286 | a string leaf produces its Chinese span with the dotted path as context |
| Extractor.TextExtractor.ExtractFromJson | src/core/extractor.ts:255-266 | a parsed document's spans, nothing when the parse failed |
| Extractor.TextExtractor.ExtractFromFile | src/core/extractor.ts:29-49 | an unreadable file fails; otherwise the extraction its extension selects |
| Extractor.TextExtractor.AddExtractedText | src/core/extractor.ts:347-349 | the registry binds the text's key to it, replacing an earlier binding, and stays keyed |
| Extractor.TextExtractor.GetAllTexts | src/core/extractor.ts:354-356 | the texts in first-binding order, every key once |
| Extractor.TextExtractor.Clear | src/core/extractor.ts:361-363 | the registry is empty |
| Extractor.ExtractTexts | src/core/extractor.ts:369-385 | the returned texts are the values of the registry built from the files in order, unreadable files skipped |
| Replacer.Setting | src/core/replacer.ts:30-31 | the constructor option wins when non-empty, then the configured value when non-empty, then the default, so the setting is never empty |
| Replacer.LiteralKey | src/core/replacer.ts:153-157 | a string literal is replaced exactly when it holds Chinese and its trimmed text is a loaded text, by that text's key |
| Replacer.TextKey | src/core/replacer.ts:181-183 | JSX text is replaced exactly when its trimmed value holds Chinese and is a loaded text, by that text's key |
| Replacer.VisitLiteral | src/core/replacer.ts:152-177 | a literal is rewritten to `f('key')` with one record exactly when it is replaceable, and kept otherwise |
| Replacer.VisitText | src/core/replacer.ts:180-205 | JSX text is rewritten to `{f('key')}` with one record, holding the trimmed text, exactly when it is replaceable |
| Replacer.AttrReplaceable | src/core/replacer.ts:209-213 | a string-valued JSX attribute is replaceable exactly when its value holds Chinese and its trimmed value is loaded |
| Replacer.VisitAttr | src/core/replacer.ts:208-235 | an attribute's value becomes `{f('key')}` with one record, holding the untrimmed value, exactly when it is replaceable |
| Replacer.ReplaceNode | src/core/replacer.ts:151-236 | a node yields a record exactly when it is replaceable; otherwise it is kept unchanged |
| Replacer.RecordsEmpty | src/core/replacer.ts:151-236 | the traversal records at most one replacement per node, and none exactly when no node is replaceable |
| Replacer.RecordsKeyed | src/core/replacer.ts:151-236 | every record names Chinese text whose trimmed form is loaded, with that text's key |
| Replacer.Outs | src/core/replacer.ts:151-236 | one rewritten node per node, kept exactly when the node is not replaceable |
| Replacer.Rewrite | src/core/replacer.ts:137-251 | the rewritten body and records are those of the traversal, and the import is prepended exactly when something was replaced, no import provides the accessor and imports are not switched off (the intended behaviour of the import scan) |
| Replacer.JsOutcome | src/core/replacer.ts:111-278 | as written: success exactly when the script parses and holds no import declaration, since the import scan throws on the first one; the count is the number of records; code is written exactly on success with at least one replacement outside a dry run |
| Replacer.IntendedJsOutcome | src/core/replacer.ts:111-278 | as intended: success exactly when the script parses; code is written exactly on success with a replacement outside a dry run, and it is the rewrite whose import is added only when no import provides the accessor |
| Replacer.JsOutcomeWithoutImports | src/core/replacer.ts:137-148 | on a script without import declarations the scan finds no accessor import, and the code as written gives the intended outcome |
| Replacer.ImportedScriptFails | src/core/replacer.ts:141-148 | an import of `vue` before a loaded Chinese literal makes the code as written fail with nothing written, where the intended rewrite replaces the literal |
| Replacer.ExampleRecords | src/core/replacer.ts:151-177 | in that example the traversal records exactly one replacement |
| Replacer.EscapeRegex | src/core/replacer.ts:484-486 | escaping never shortens the text |
| Replacer.EscapeRegexLiteral | src/core/replacer.ts:484-486 | an escaped text, read as a regular expression, matches exactly that text |
| Replacer.TemplatePatternsLiteral | src/core/replacer.ts:306-331 | the two patterns built around an escaped text match exactly `>T<` and `="T"` |
| Replacer.TemplateStep | src/core/replacer.ts:306-331 | one record is pushed exactly when the template rewritten so far contains the text |
| Replacer.TemplateRewrite | src/core/replacer.ts:306-331 | at most one record per map entry, each at line 0, column 0, naming a loaded text with its key and `{{ f('key') }}` |
| Replacer.TemplateRecordsWithoutTag | src/core/replacer.ts:307-321 | a text the template mentions outside `>T<` is still recorded although nothing is replaced |
| Replacer.ReplaceFirstSelf | src/core/replacer.ts:363-366 | replacing the script's text by the unchanged script leaves the component as it is |
| Replacer.VueOutcome | src/core/replacer.ts:283-393 | success exactly when the component parses; the count is the number of records, the script pass's only when that pass succeeds; the component is written exactly on success with a replacement outside a dry run |
| Replacer.VueScriptEditsNotWritten | src/core/replacer.ts:340-375 | the script pass's replacements are counted, but the written component is the template pass's result only |
| Replacer.ImportingScriptAddsNothing | src/core/replacer.ts:340-370 | a script block with any import declaration contributes no records, so the component keeps only the template's |
| Replacer.FileOutcome | src/core/replacer.ts:48-106 | success needs a readable file with a script or component extension (and, for a script, no import declaration); another extension fails naming it; writing happens exactly on success with a replacement outside a dry run |
| Replacer.Successful | src/core/replacer.ts:439-449 | the successful results, in order |
| Replacer.ReportStep | src/core/replacer.ts:439-449 | one result adds itself to the successes, its path to the changed files and its count to the total exactly as the loop body does |
| Replacer.CodeReplacer.constructor | src/core/replacer.ts:22-32 | the accessor name defaults to `t`, the import path to `i18n`, imports are on unless switched off, and the map starts empty |
| Replacer.CodeReplacer.LoadExtractedKeys | src/core/replacer.ts:37-43 | the map is cleared and then binds each text to its key, later texts overriding |
| Replacer.CodeReplacer.ScanImports | src/core/replacer.ts:141-148 | the scan throws exactly when the script holds an import declaration: the visitor reads `this.importPath` with no `this`, so `hasImport` is never set |
| Replacer.CodeReplacer.VisitNodes | src/core/replacer.ts:151-236 | the traversal produces exactly the rewritten nodes and the records in order |
| Replacer.CodeReplacer.ReplaceJavaScript | src/core/replacer.ts:111-278 | the result and the written code are those of the script rewrite as written: a failure when the import scan throws, the rewrite otherwise |
| Replacer.CodeReplacer.ReplaceTemplate | src/core/replacer.ts:306-331 | the loop over the map in insertion order produces the template rewrite |
| Replacer.CodeReplacer.ReplaceVue | src/core/replacer.ts:283-393 | the result and the written component are those of the component rewrite, whose script pass fails on any import |
| Replacer.CodeReplacer.ReplaceFile | src/core/replacer.ts:48-106 | the result is that of the extension's rewrite as written, or a failure |
| Replacer.CodeReplacer.ReplaceFiles | src/core/replacer.ts:398-419 | one result per file, in order, each that file's outcome |
| Replacer.CodeReplacer.GenerateReport | src/core/replacer.ts:424-452 | total is the number of results, successes and failures add up to it, the replacements are the successes' counts summed, and the files are the successful ones with a replacement |
| Replacer.ReplaceInFiles | src/core/replacer.ts:491-513 | each file's result is its outcome under the configured accessor and the map loaded from the extracted texts |
| Replacer.KeyMap | src/core/replacer.ts:37-43 | the loaded map is a well-formed insertion-ordered map |
| Replacer.KeyMapLast | src/core/replacer.ts:39-41 | a text is bound to the key of its last occurrence |
| Replacer.KeyMapDomain | src/core/replacer.ts:39-41 | the map's texts are exactly the loaded texts |
| Validator.IssuePair | src/core/validator.ts:79-103 | at most two issues of one kind: one of the first severity exactly when its message is set, then one of the second exactly when its message is set |
| Validator.ListedOrNone | src/core/validator.ts:78-94 | a message is produced exactly when the list is non-empty |
| Validator.CheckIssues | src/core/validator.ts:79-103 | a passed check raises nothing; a failed one raises an error exactly when something is missing and a warning exactly when something is extra, in that order |
| Validator.PlaceholderIssues | src/core/validator.ts:195-220 | no issue exactly when the placeholder check passes, an error exactly when placeholders are missing, a warning exactly when some are extra |
| Validator.HtmlListsEmpty | src/utils/pattern-matcher.ts:312-334 | the missing and extra tag lists are empty exactly when the multiset differences are empty, and both exactly when the tag multisets are equal |
| Validator.HtmlCheck | src/utils/pattern-matcher.ts:285-338 | the HTML check passes exactly when both texts have the same tags with the same counts |
| Validator.HtmlIssues | src/core/validator.ts:223-248 | no issue exactly when the tag multisets agree, an error exactly when the source has tags to spare, a warning exactly when the translation has |
| Validator.SingleIssues | src/core/validator.ts:173-251 | a blank translation raises exactly the one empty error; otherwise the placeholder issues then the HTML issues; never a length issue, at most four issues, in check order |
| Validator.ChecksOf | src/core/validator.ts:38-43 | every check is on and the limit is 1000 unless the options switch a check off or set the limit |
| Validator.LengthIssues | src/core/validator.ts:137-161 | a warning exactly when the length check is on and the translation is longer than the limit, an info exactly when it is on and the translation is over three times the source |
| Validator.EntryIssues | src/core/validator.ts:56-162 | a blank translation gives just the empty error; a disabled check gives no issue of its type; with the placeholder check on, a placeholder error is raised exactly when a source placeholder is missing and a warning exactly when the translation has an extra one; with the HTML check on, an HTML error exactly when some source tag occurs fewer times in the translation and a warning exactly when some tag occurs more times; the length issues are raised exactly by their conditions; at most six issues, in check order, all for this entry and language |
| Validator.TranslatedIssues | src/core/validator.ts:72-161 | the issues of a non-blank translation: each enabled check's issues are raised exactly by its condition (missing or extra placeholders, tags short or in excess, length ratio), disabled checks raise none, in check order |
| Validator.ContentChecksKept | src/core/validator.ts:72-161 | appending the length issues after the placeholder and HTML issues does not change which placeholder or HTML issues are present |
| Validator.CheckedIssues | src/core/validator.ts:72-161 | the placeholder, HTML and length groups joined in that order stay in check order and keep each group's presence or absence |
| Validator.BlankEntryReported | src/core/validator.ts:56-70 | an entry without a translation raises the empty error among its language's issues |
| Validator.LanguageIssuesLanguage | src/core/validator.ts:47-165 | every issue of a language names that language and one of its entries |
| Validator.AllIssuesLanguages | src/core/validator.ts:47-168 | every issue names a validated language and an entry loaded for it |
| Validator.BlankEntryInRun | src/core/validator.ts:47-168 | an entry without a translation in a validated language is reported as empty in the whole run |
| Validator.SeveritiesPartition | src/core/validator.ts:275-277 | the counts of errors, warnings and infos add up to the number of results |
| Validator.TallyOfIsTally | src/core/validator.ts:280-284 | bumping a record entry per result yields each distinct value once, in first-seen order, with its number of occurrences |
| Validator.SeverityCountIsCount | src/core/validator.ts:275-277 | counting severities one by one agrees with their multiplicity among the results |
| Validator.TranslationValidator.ValidateSingle | src/core/validator.ts:173-251 | the pushed issues are exactly the single-translation issues |
| Validator.TranslationValidator.PushCheckIssues | src/core/validator.ts:79-103 | the pushes of a failed check are exactly its issues |
| Validator.TranslationValidator.PlaceholderChecked | src/core/validator.ts:195-220 | the pushes are exactly the placeholder issues |
| Validator.TranslationValidator.HtmlChecked | src/core/validator.ts:223-248 | the pushes are exactly the HTML issues |
| Validator.TranslationValidator.ValidateEntry | src/core/validator.ts:56-162 | one pass of the inner loop pushes exactly the entry's issues |
| Validator.TranslationValidator.PushLengthIssues | src/core/validator.ts:137-161 | the length checks append exactly the length issues |
| Validator.TranslationValidator.ValidateAll | src/core/validator.ts:29-168 | the results are every language's issues in order, each language's entries in order |
| Validator.TranslationValidator.ValidateLanguage | src/core/validator.ts:56-162 | the inner loop pushes the issues of the language's entries in order |
| Validator.TranslationValidator.GenerateReport | src/core/validator.ts:256-288 | total is the number of results; errors, warnings and infos count the severities and add up to the total; the per-type and per-language records count their values and each sums to the total |
| Glossary.TranslationFor | src/core/glossary.ts:172-175 | a translation is used exactly when the record has the language with a non-empty value |
| Glossary.ByLength | src/core/glossary.ts:162-164 | the sorted entries are a permutation of the entries, longest term first |
| Glossary.DoNotTranslateOnly | src/core/glossary.ts:196-198 | the filter keeps exactly the do-not-translate entries |
| Glossary.NothingApplies | src/core/glossary.ts:158-183 | when no entry may be translated with a translation for the language, the text comes back unchanged |
| Glossary.AbsentTermUnchanged | src/core/glossary.ts:177-179 | a case-sensitive term that does not occur in the text leaves it unchanged |
| Glossary.TermPositions | src/core/glossary.ts:130-141 | every reported index is a match of the term as written in the search text, and the matches do not overlap |
| Glossary.FoundInSound | src/core/glossary.ts:129-152 | each report names a glossary entry, its term and its non-empty match indices |
| Glossary.FoundInComplete | src/core/glossary.ts:129-152 | an entry with a non-empty term is reported exactly when its term matches somewhere in its search text |
| Glossary.FoundInFront | src/core/glossary.ts:129-152 | the reports follow the map's order: those of earlier entries come first |
| Glossary.FoundInLast | src/core/glossary.ts:143-149 | the last entry, when it matches, is reported |
| Glossary.UpperCaseTermNeverFound | src/core/glossary.ts:130-131 | a case-insensitive entry whose term holds an upper-case letter is never found, since only the text is lower-cased |
| Glossary.MatchedTextsMatch | src/core/glossary.ts:201-205 | every matched text has the term's length and matches it, ignoring case unless the entry is case-sensitive |
| Glossary.TermOriginalsSafe | src/core/glossary.ts:204-211 | when every protected term is safe, so is every text protectTerms records |
| Glossary.TermRoundTrip | src/core/glossary.ts:187-234 | when every term is safe to protect, restoring the markers recorded while protecting a text without `_` gives the text back |
| Glossary.GlossaryRoundTrip | src/core/glossary.ts:187-234 | for a glossary whose do-not-translate terms are safe, restoreTerms undoes protectTerms on a text without `_` |
| Glossary.DefaultGlossary | src/core/glossary.ts:392-430 | the default glossary has five entries, each a non-empty, protected, case-sensitive term without translations |
| Glossary.DefaultTermsProtectable | src/core/glossary.ts:392-430 | every default term is safe to protect, so the default glossary satisfies the round trip's condition |
| Glossary.ProtectTermsStep | src/core/glossary.ts:200-213 | one entry's matches in the text protected so far are the next originals, right after the earlier ones |
| Glossary.UsageIssue | src/core/glossary.ts:258-295 | a do-not-translate term raises an issue exactly when the translation lacks it; another raises one exactly when it has a translation the translation lacks, `untranslated` exactly when the source term was kept; never `incorrect` |
| Glossary.UsageIssues | src/core/glossary.ts:256-297 | at most one issue per found term, never `incorrect` |
| Glossary.NoIssuesWhenComplete | src/core/glossary.ts:256-297 | a translation that keeps every found term and contains every expected translation raises no issue |
| Glossary.TallyCounts | src/core/glossary.ts:380-382 | counting distinct keys adds one to each of them and to nothing else |
| Glossary.LanguageCountsCorrect | src/core/glossary.ts:364-386 | `byLanguage` counts, for each language, the entries that have a translation under it, and lists exactly the languages some entry has |
| Glossary.ExportAllRow | src/core/glossary.ts:303-323 | one row per entry, in order, each the entry's own row |
| Glossary.LanguageColumnsCell | src/core/glossary.ts:336-346 | a column becomes a translation exactly when it is not reserved and its value is non-empty, and keeps that value |
| Glossary.ImportRow | src/core/glossary.ts:331-355 | a row yields an entry exactly when its term is non-empty |
| Glossary.ImportRows | src/core/glossary.ts:331-355 | at most one entry per row |
| Glossary.ExportRowCells | src/core/glossary.ts:306-319 | an exported row has the reserved columns, then one column per language, each cell holding the entry's value |
| Glossary.ExportImportRoundTrip | src/core/glossary.ts:303-355 | exporting then importing keeps an entry's term, flags and non-empty translations, turning a missing description into an empty one |
| Glossary.AddAllLast | src/core/glossary.ts:75-87 | after adding, a term is stored under its lower-cased form, held by the last added entry with that lower-cased term |
| Glossary.AddAllOthers | src/core/glossary.ts:75-87 | keys no added entry lower-cases to keep their entries |
| Glossary.AddAllKeyed | src/core/glossary.ts:75-87 | adding keeps every entry stored under its lower-cased term |
| Glossary.ProtectOrderMembers | src/core/glossary.ts:196-198 | the entries protectTerms processes are glossary entries marked do-not-translate |
| Glossary.ProtectMatches | src/core/glossary.ts:204-211 | each match in turn has its first occurrence replaced by the next marker and is recorded under it |
| Glossary.ProtectEntry | src/core/glossary.ts:200-212 | one entry's loop body advances the protected text and the marker record by exactly that entry's matches |
| Glossary.ProtectEach | src/core/glossary.ts:200-213 | the protected text and the marker record are those of protecting every recorded original in order |
| Glossary.CheckUsage | src/core/glossary.ts:258-295 | the loop pushes exactly the usage issues of the found terms |
| Glossary.ExportOne | src/core/glossary.ts:307-317 | the loop builds exactly the entry's row |
| Glossary.ExportRows | src/core/glossary.ts:306-320 | the loop builds one row per entry, in order |
| Glossary.ImportEntries | src/core/glossary.ts:331-355 | the loop keeps the entries of the rows with a term, each well formed |
| Glossary.TallyLanguages | src/core/glossary.ts:380-382 | the loop adds one to the count of each of an entry's languages |
| Glossary.CountStatistics | src/core/glossary.ts:375-383 | the loop counts the protected entries and the entries per language |
| Glossary.GlossaryManager.constructor | src/core/glossary.ts:13-15 | a new glossary holds no entries and keeps its configuration |
| Glossary.GlossaryManager.Load | src/core/glossary.ts:20-52 | nothing changes when disabled; otherwise the configured entries, then the file's, are stored under their lower-cased terms |
| Glossary.GlossaryManager.AddTerm | src/core/glossary.ts:75-79 | the entry is stored under its lower-cased term, replacing any entry there, and getTerm then returns it |
| Glossary.GlossaryManager.AddTerms | src/core/glossary.ts:84-87 | the entries are added in order |
| Glossary.GlossaryManager.RemoveTerm | src/core/glossary.ts:92-99 | true exactly when the lower-cased term was stored; that entry is gone, getTerm then finds nothing, and every other entry stays |
| Glossary.GlossaryManager.GetTerm | src/core/glossary.ts:104-106 | an entry is returned exactly when the lower-cased term is stored; it is the stored entry, and its own term lower-cases to the same |
| Glossary.GlossaryManager.GetAllTerms | src/core/glossary.ts:111-113 | one entry per stored key, in insertion order |
| Glossary.GlossaryManager.FindTermsInText | src/core/glossary.ts:118-153 | the reports of the entries, in map order |
| Glossary.GlossaryManager.ApplyTerms | src/core/glossary.ts:158-183 | each translatable entry with a translation, longest term first, replaces every match of its term |
| Glossary.GlossaryManager.ProtectTerms | src/core/glossary.ts:187-216 | the protected text and markers are those of the do-not-translate entries, longest term first |
| Glossary.GlossaryManager.RestoreTerms | src/core/glossary.ts:220-234 | every occurrence of each marker, in map order, is replaced by its recorded text |
| Glossary.GlossaryManager.ValidateTermUsage | src/core/glossary.ts:239-298 | the issues are those of the terms found in the source |
| Glossary.GlossaryManager.ExportToExcelData | src/core/glossary.ts:303-323 | one row per entry, in map order |
| Glossary.GlossaryManager.ImportFromExcelData | src/core/glossary.ts:328-359 | the rows with a term become entries, added in order |
| Glossary.GlossaryManager.GetStatistics | src/core/glossary.ts:364-386 | the number of entries, of protected entries, and of entries per language |
| Memory.Upsert | src/core/memory.ts:63-74 | the pair is stored with the new translation and source type and one more use (one use when new); no other row changes and no pair is stored twice |
| Memory.UpsertAllAppend | src/core/memory.ts:166-189 | a batch is the same as its first part followed by its second part |
| Memory.UpsertAllLast | src/core/memory.ts:178-185 | after a batch every pair it names is stored with the translation of that pair's last item |
| Memory.IncrementUsage | src/core/memory.ts:199-212 | a stored pair gains exactly one use and nothing else changes; an unknown pair leaves the table as it was |
| Memory.Lookup | src/core/memory.ts:86-99 | a translation is returned exactly when the pair is stored, and it is the stored one |
| Memory.EntriesStored | src/core/memory.ts:116-122 | every row a query lists is a stored row |
| Memory.InLanguage | src/core/memory.ts:116-117 | exactly the rows of the language, no more than the table holds |
| Memory.MoreUsedFirstIsPreorder | src/core/memory.ts:118 | ordering by usage count, descending, is a total preorder |
| Memory.ByUsage | src/core/memory.ts:118 | the rows permuted so that usage counts never increase |
| Memory.Take | src/core/memory.ts:119 | a prefix of at most the limit, the whole list when it is no longer |
| Memory.CandidatesLaws | src/core/memory.ts:115-122 | at most 100 stored rows of the language, most used first; every such row when there are at most 100; otherwise exactly 100, and every row left out is used no more than the last one kept |
| Memory.LeftOutLessUsed | src/core/memory.ts:115-122 | a row beyond the first 100 of the usage order is used no more than the 100th |
| Memory.Threshold | src/core/memory.ts:127 | a configured non-zero threshold is used, otherwise 0.7 |
| Memory.Scored | src/core/memory.ts:134-135 | one result per row, carrying the row's source and translation and its similarity to the searched text |
| Memory.Similar | src/core/memory.ts:134-143 | exactly the scored rows that reach the threshold |
| Memory.ScoredPrefix | src/core/memory.ts:134-135 | scoring a prefix of the rows gives the prefix of the scores |
| Memory.ScoredSimilarity | src/core/memory.ts:134-141 | each score is the similarity of its own source, and its source and translation come from one row |
| Memory.MoreSimilarFirstIsPreorder | src/core/memory.ts:146 | ordering by similarity, descending, is a total preorder |
| Memory.BySimilarity | src/core/memory.ts:146 | the results permuted so that similarity never increases |
| Memory.RankedLaws | src/core/memory.ts:134-148 | at most `limit` results, each reaching the threshold and scoring a row, most similar first, and fewer than `limit` only when every qualifying row is among them |
| Memory.LanguagesOf | src/core/memory.ts:233-238 | one language per stored row |
| Memory.PutNext | src/core/memory.ts:240-243 | recording the next language adds it to the record and its count to the total |
| Memory.LanguageThenUsageIsPreorder | src/core/memory.ts:279 | ordering by language, then by usage count descending, is a total preorder |
| Memory.ExportRows | src/core/memory.ts:268-282 | with a language, a permutation of that language's rows, most used first; without one, a permutation of every row ordered by language and then usage |
| Memory.ExportStored | src/core/memory.ts:268-282 | every exported row is a stored row |
| Memory.TranslationMemory.constructor | src/core/memory.ts:15-28 | the store opens on the rows the database already holds, with the configured threshold |
| Memory.TranslationMemory.AddTranslation | src/core/memory.ts:56-79 | the table becomes the upsert of the pair |
| Memory.TranslationMemory.FindTranslation | src/core/memory.ts:84-104 | the stored translation when there is one, which then gains a use; a miss changes nothing |
| Memory.TranslationMemory.IncrementUsageCount | src/core/memory.ts:199-212 | the pair gains one use if stored |
| Memory.TranslationMemory.FindSimilarTranslations | src/core/memory.ts:109-153 | the ranking of the candidates against the threshold, cut to the limit |
| Memory.TranslationMemory.AddTranslationsBatch | src/core/memory.ts:158-194 | a committed batch upserts every item in order; a failed one leaves the table unchanged |
| Memory.TranslationMemory.GetStatistics | src/core/memory.ts:217-251 | with a language, its row count as both total and only entry; without one, each language first seen first with its number of rows, and as total the number of rows |
| Memory.TranslationMemory.Clear | src/core/memory.ts:256-263 | the table is empty |
| Memory.TranslationMemory.Export | src/core/memory.ts:268-287 | the export rows of the table |
| Translator.CreateProvider | src/core/translator.ts:39-52 | a provider other than google, baidu or deepl is refused with the unsupported-provider message; creation succeeds exactly when the provider is one of them and its configuration (for baidu also appid and secret) is accepted |
| Translator.CreatedProviders | src/core/translator.ts:39-52 | only google, baidu and deepl are ever created, and each with a key or a baidu block |
| Translator.LoadExisting | src/core/translator.ts:226-252 | no saved file gives no entries; otherwise one entry per saved key, in order, holding that key's translation and an empty source |
| Translator.FindSaved | src/core/translator.ts:90 | the index of the first entry with the key, or none when no entry has it |
| Translator.LoadFindsSaved | src/core/translator.ts:226-252 | after loading a saved file a key is found exactly when it was saved, and with its saved translation |
| Translator.Decide | src/core/translator.ts:89-128 | a text reuses the saved translations exactly when its key is saved and `force` is off; otherwise it takes the memory's translation exactly when that is non-empty, and is queued for the provider exactly when it is not |
| Translator.Prepared | src/core/translator.ts:78-87 | an entry keeps the text's key, its text as source and its file, line and context |
| Translator.Consult | src/core/translator.ts:98-104 | the memory after a text's turn is enabled exactly when it was |
| Translator.ConsultKeepsLookups | src/core/translator.ts:98-104 | asking the memory counts a use but changes no stored translation |
| Translator.Prepare | src/core/translator.ts:76-129 | one entry per text, and every queued index names a text |
| Translator.PrepareKeepsLookups | src/core/translator.ts:76-129 | the first loop changes no stored translation |
| Translator.DecideAtStart | src/core/translator.ts:76-129 | every text in the loop is decided as it would be on the memory at the start |
| Translator.PrepareEntries | src/core/translator.ts:76-129 | entry i is text i's entry under its decision taken on the memory at the start |
| Translator.PrepareQueue | src/core/translator.ts:126-127 | an index is queued exactly when its text is decided for the provider |
| Translator.PrepareQueueIncreasing | src/core/translator.ts:126-127 | the queue lists the indices in ascending order |
| Translator.QueueTexts | src/core/translator.ts:136 | the texts sent to the provider are the queued texts, in queue order |
| Translator.WithTranslation | src/core/translator.ts:148 | writing a translation keeps the entry's key, source and metadata |
| Translator.WriteBack | src/core/translator.ts:144-159 | a successful write-back keeps the number of entries |
| Translator.WriteBackSucceeds | src/core/translator.ts:144-148 | writing back succeeds exactly when there are no more results than queued texts, and otherwise throws the destructuring TypeError |
| Translator.WriteBackCells | src/core/translator.ts:144-148 | the entry of the j-th queued text holds result j's translation and every other entry is unchanged |
| Translator.WriteBackFails | src/core/translator.ts:144-148 | once a result has no queued text, the whole write-back throws |
| Translator.Learned | src/core/translator.ts:150-158 | what the memory learns are the error-free results, as `api` translations of their originals into the target language |
| Translator.RunWritten | src/core/translator.ts:57-171 | with a provider answering one result per text, the entry of the j-th queued text takes the j-th result and every other entry keeps its prepared form |
| Translator.RunEntries | src/core/translator.ts:57-171 | with such a provider translateTexts succeeds with one entry per text, in order, each with the text's key and source |
| Translator.RunTranslations | src/core/translator.ts:57-171 | reused entries keep their saved translations, remembered ones hold the memory's translation, queued ones exactly their provider result |
| Translator.RunMemory | src/core/translator.ts:98-158 | the memory stays enabled exactly when it was, and a pair no error-free result names keeps its stored translation |
| Translator.RunAllStep | src/core/translator.ts:186-190 | one more language adds its entries to the map, or its error becomes the result |
| Translator.RunAllStops | src/core/translator.ts:186-190 | after an error the remaining languages are not translated |
| Translator.RunAllLanguages | src/core/translator.ts:176-193 | with a provider answering one result per text, every distinct language is translated, first seen first, each with one entry per text |
| Translator.Saved | src/core/translator.ts:206-211 | the content holds only non-empty translations |
| Translator.LastKept | src/core/translator.ts:207-210 | the last entry with the key and a non-empty translation, or none when there is no such entry |
| Translator.SavedCells | src/core/translator.ts:206-211 | the saved keys are exactly those of entries with a non-empty translation, each holding the last such entry's translation |
| Translator.SavedSize | src/core/translator.ts:206-211 | with distinct keys the file has one key per translated entry |
| Translator.SaveTranslations | src/core/translator.ts:198-221 | the content written is the saved content of the entries |
| Translator.MergeEntryCells | src/core/translator.ts:272-285 | a merged entry keeps its key and source; a language the new entry brings takes its translation, any other keeps the old one; metadata changes only when the new entry has some |
| Translator.Index | src/core/translator.ts:264-266 | every existing entry is filed under its own key |
| Translator.MergeInto | src/core/translator.ts:269-289 | merging keeps every entry filed under its own key |
| Translator.MergedKeys | src/core/translator.ts:257-292 | the merged entries carry each key of both inputs once: existing keys first, then new ones, in order |
| Translator.MergeIntoOthers | src/core/translator.ts:269-289 | a key no new entry has keeps its entry |
| Translator.NewTranslationsWin | src/core/translator.ts:274-277 | a translation a new entry brings wins, unless a later new entry with the same key brings one for the same language |
| Translator.MergedKeepsExisting | src/core/translator.ts:257-292 | the last existing entry of a key no new entry has is among the merged entries, unchanged |
| Translator.MergeTranslations | src/core/translator.ts:257-292 | the loops compute the merged entries |
| Translator.TranslatedCount | src/core/translator.ts:309-311 | at most the number of entries, and equal to it exactly when every entry has a non-empty translation |
| Translator.PercentageRange | src/core/translator.ts:316 | a percentage lies in 0..100 and is 100 exactly when there are entries and all of them count |
| Translator.StatisticsKeys | src/core/translator.ts:297-325 | the total is the entry count and each record has one key per distinct language, first seen first |
| Translator.StatisticsCell | src/core/translator.ts:308-317 | a language's records hold its translated count, the rest, and their percentage |
| Translator.StatisticsLaws | src/core/translator.ts:297-325 | translated plus untranslated is the total, and the percentage is in 0..100 and 100 exactly when every entry, of at least one, is translated |
| Translator.Create | src/core/translator.ts:24-52 | creation fails exactly when the provider cannot be created, with its message; otherwise the translator has that provider and a memory exactly when the configuration enables one |
| Translator.Translator.constructor | src/core/translator.ts:24-34 | the translator holds the source language, the provider and the memory it is given |
| Translator.Translator.PrepareText | src/core/translator.ts:77-128 | one turn of the first loop gives the text's entry under its decision, queues it exactly when it is for the provider, and leaves the memory consulted |
| Translator.Translator.PrepareTexts | src/core/translator.ts:76-129 | the first loop gives the entries, queue and memory of the plan |
| Translator.Translator.StoreResults | src/core/translator.ts:144-159 | the second loop writes the results back, or throws, and the memory learns the error-free results written before that |
| Translator.Translator.TranslateTexts | src/core/translator.ts:57-171 | the entries, or the error, and the memory afterwards are those of the whole run |
| Translator.Translator.TranslateToMultipleLanguages | src/core/translator.ts:176-193 | each language in turn, stopping at the first error |
| Providers.BatchSize | src/providers/base.ts:36 | a configured non-zero batch size is used, otherwise 50; always positive |
| Providers.MaxRetries | src/providers/base.ts:83 | a configured non-zero retry count is used, otherwise 3 |
| Providers.RetryLaws | src/providers/base.ts:77-102 | at least one call and at most one per remaining retry plus one; every call but the last failed; the last call's answer is the outcome; a failed outcome used every retry; the k-th wait is `2^(retryCount+k)` seconds |
| Providers.RetryBound | src/providers/base.ts:77-102 | from the first attempt, at most `maxRetries + 1` calls, and failure exactly when every one of them fails |
| Providers.BatchesAt | src/providers/base.ts:40-41 | the batches from a position are the slice there followed by the batches after it |
| Providers.BatchesShape | src/providers/base.ts:40-41 | every batch holds between one and `size` texts, and all but the last exactly `size` |
| Providers.BatchesCover | src/providers/base.ts:40-41 | the batches, one after another, are the texts |
| Providers.Fallback | src/providers/base.ts:60-67 | one result per text of a failed batch, the text itself as translation, carrying the error |
| Providers.FailedBatch | src/providers/base.ts:56-67 | a batch whose every attempt fails contributes its texts unchanged, each with the last error |
| Providers.BatchEnd | src/providers/base.ts:41 | a batch ends after its start and within the texts |
| Providers.Outcomes | src/providers/base.ts:40-69 | one contribution per batch |
| Providers.ResultsFromBatches | src/providers/base.ts:31-72 | translateBatch's results are the batches' contributions, one after another |
| Providers.ResultsFromStep | src/providers/base.ts:40-69 | from a remaining text, its batch's contribution comes first, then the rest |
| Providers.ResultsFromLength | src/providers/base.ts:31-72 | with a provider answering one result per text, translateBatch returns exactly one result per text |
| Providers.PausesFromStep | src/providers/base.ts:52-55 | from a remaining text, the pause after its batch, if any, comes first, then the rest |
| Providers.PausesFromIff | src/providers/base.ts:47-55 | a pause follows a batch exactly when it succeeded, it is not the last and a rate limit is set |
| Providers.PausesFromBelow | src/providers/base.ts:52-55 | no pause is recorded for a batch before the first one counted |
| Providers.BatchStep | src/providers/base.ts:40-69 | one turn of the loop keeps what is done plus what remains equal to the whole |
| Providers.ValidateConfig | src/providers/base.ts:114-118 | an error exactly when there is neither a key nor a baidu block, naming the provider |
| Providers.ProviderLanguageCode | src/providers/base.ts:123-126 | the base provider keeps every language code unchanged |
| Providers.TranslationProvider.constructor | src/providers/base.ts:15-17 | the provider holds its name, configuration and network call |
| Providers.TranslationProvider.TryBatch | src/providers/base.ts:47-68 | a batch's contribution is its retried results or its fallback, and it succeeded exactly when the retries did |
| Providers.TranslationProvider.TranslateBatch | src/providers/base.ts:31-72 | the results are translateBatch's, and the pauses follow exactly the batches the rate limit stops after |
| Excel.WithLanguagesKeys | src/core/excel-handler.ts:29-31 | the language columns follow the row's own, once each, first seen first |
| Excel.WithLanguagesCell | src/core/excel-handler.ts:29-31 | each language column holds the entry's translation or '', and every other column is the row's |
| Excel.KeyedRow | src/core/excel-handler.ts:23-26 | a row begins with its key, then its source |
| Excel.ExportRows | src/core/excel-handler.ts:22-42 | one row per entry |
| Excel.ExportRowKeys | src/core/excel-handler.ts:22-42 | an exported row's columns are key and source, one per distinct language, then file and context exactly when the metadata has them non-empty |
| Excel.ExportRowCells | src/core/excel-handler.ts:22-42 | an exported row holds the key, the source, each language's translation or '', file and context when set, and no other column |
| Excel.ExportToExcel | src/core/excel-handler.ts:13-48 | the rows the worksheet is built from are the export rows |
| Excel.LanguagesOfCell | src/core/excel-handler.ts:118-122 | an imported entry translates exactly the requested languages whose cell is non-empty, to that cell |
| Excel.ImportRows | src/core/excel-handler.ts:110-133 | one entry per row |
| Excel.KeepComplete | src/core/excel-handler.ts:144 | exactly the entries with a key and a source |
| Excel.KeepCompleteAppend | src/core/excel-handler.ts:144 | filtering a concatenation filters each part and keeps them in order, so row order and repeated rows survive |
| Excel.KeepCompleteOne | src/core/excel-handler.ts:144 | a single row is kept exactly when it has a key and a source |
| Excel.ImportFromExcel | src/core/excel-handler.ts:82-153 | the result of importing: an error for a missing file or an empty sheet, else `KeepComplete` of the rows, i.e. the complete entries in row order with repeats kept (KeepCompleteAppend, KeepCompleteOne) |
| Excel.ExportImportEntry | src/core/excel-handler.ts:22-133 | re-importing an exported entry keeps its key and source, its non-empty translations of the listed languages, and its non-empty file and context |
| Excel.SheetRoundTrip | src/core/excel-handler.ts:13-153 | exporting then importing gives back, in order, the entries with a key and a source, each re-imported; no entries give the empty-sheet error |
| Excel.KeepReimported | src/core/excel-handler.ts:136-144 | a round trip keeps exactly the entries that were complete before it |
| Excel.BlankRow | src/core/excel-handler.ts:168-175 | the loop builds the template row |
| Excel.ExportTemplate | src/core/excel-handler.ts:158-192 | the rows are the template's rows |
| Excel.SampleKeysDistinct | src/core/excel-handler.ts:169 | distinct samples have distinct keys |
| Excel.TemplateRowCells | src/core/excel-handler.ts:168-175 | a template row holds its key and source and '' in every language column |
| Excel.TemplateCells | src/core/excel-handler.ts:158-192 | one row per sample, or the single example row when there are none; the i-th keyed `sample_{i+1}` with the sample as source and '' per language |
| Excel.TemplateKeysDistinct | src/core/excel-handler.ts:158-192 | the template's rows have distinct keys |
| Excel.Headers | src/core/excel-handler.ts:249-257 | the headers are exactly the first-row cells that hold a non-empty value |
| Excel.MissingColumns | src/core/excel-handler.ts:260-262 | exactly the required columns absent from the headers |
| Excel.ValidateExcelFile | src/core/excel-handler.ts:221-278 | the errors found, and valid exactly when there are none |
| Excel.FileErrorsNone | src/core/excel-handler.ts:221-278 | a file is valid exactly when it exists, has a sheet, every required column is a header, and the sheet has a data row |
| Config.MergeConfig | src/core/config-loader.ts:86-110 | the merged configuration always has the api, extract, output and memory blocks |
| Config.MergeCustomWins | src/core/config-loader.ts:86-110 | every field the custom configuration sets is the merged value: at the top level and in each of the api, extract, output and memory blocks |
| Config.MergeKeepsDefaults | src/core/config-loader.ts:86-110 | every field the custom configuration leaves unset keeps its default: at the top level and in each of the api, extract, output and memory blocks, a block absent from the defaults counting as empty |
| Config.MergeEmpty | src/core/config-loader.ts:86-110 | merging `{}` into a configuration that has the four blocks leaves it as it is |
| Config.MergeIdempotent | src/core/config-loader.ts:86-110 | merging the same custom configuration twice changes nothing more |
| Config.Push | src/core/config-loader.ts:118-152 | one check appends its rule's message exactly when the configuration breaks the rule |
| Config.ValidateConfig | src/core/config-loader.ts:115-157 | the checks run in order and the error is thrown when any of them failed |
| Config.MessagesDistinct | src/core/config-loader.ts:118-152 | no two rules share a message |
| Config.CheckLists | src/core/config-loader.ts:118-152 | a rule's message comes out of a check exactly when that check is the rule's and it fails |
| Config.ErrorsList | src/core/config-loader.ts:115-157 | a rule's message is listed exactly when the rule fails |
| Config.ValidateIff | src/core/config-loader.ts:115-157 | validation passes exactly when no rule fails |
| Config.ValidProvider | src/core/config-loader.ts:118-140 | a configuration that passes has a source language, at least one target language, a provider among google, baidu and deepl, and for baidu an appid and a secret |
| Config.DefaultsValid | src/core/config-loader.ts:10-37 | the defaults break no rule, so `createConfig({})` and loading without a file both give the defaults |
| Config.CreateConfigIff | src/core/config-loader.ts:162-168 | createConfig succeeds exactly when the merged configuration breaks no rule, and then returns it |

## Left out

- Parsing and printing: Babel and the Vue compiler are replaced by the abstract syntax tree each file comes with. Generated code is a function parameter, and output formatting is not modelled.
- File I/O: reading, writing, backups, temporary files, `writeJSON` and the glossary's `save` are not modelled. A file's content is a parameter, and the content a write would produce is returned.
- The Vue script path: its edits are counted but never applied. This matches the source, which runs that path as a dry run on a temporary file. The splice into the script block is not modelled.
- Translator.SaveTranslations: the saved object is an insertion-ordered map. A JavaScript object lists integer-like keys (such as `12345678`, which a bare eight-hex-digit hash key can be) first, in ascending order, and `JSON.stringify` writes them that way. The model keeps such keys in insertion order; the saved keys and translations are the same, only their order in the file can differ. The same holds for Translator.LoadExisting, which reads a saved object back.
- MD5: `generateHashKey` and the baidu signature use a hash that is a function parameter returning eight characters.
- SQLite: the SQL text, the timestamps and row ids are not modelled. Rows with equal usage counts under `LIMIT 100` keep insertion order, a choice where SQL leaves the order open.
- The HTTP providers (google, deepl, baidu), the CLI, the server and the web front end are network, UI or plumbing. A provider's network call is a function parameter.
- The logger and `printReport` only print.
- Asynchrony and time: sleeps are recorded, not taken. Backoffs are listed in milliseconds. Rate-limit pauses are listed by batch number, without the length `1000 / rateLimit`.
- Floating point: similarities and percentages are exact reals, so rounding is not modelled.
- `hasChinese` tests a shared global regular expression, whose `lastIndex` carries over between calls. The model is stateless.
- `escapeRegExp` escapes nothing for ordinary text. Glossary and marker searches are modelled as literal matches, so terms are taken to be free of regular-expression metacharacters.
- `$` patterns in replacement strings are not interpreted.
- Case folding, `\s` and `trim` cover ASCII only. JavaScript's `\s` and `trim` also take Unicode spaces such as U+3000, the ideographic space common in Chinese text; the model keeps them as ordinary characters in `cleanText`, `generateKey` and every trim. Strings are sequences of code points, not UTF-16 units.
- PatternMatcher.NormalizeLanguageCode: the alias table is a plain object in the source, so a code that names an inherited member (`constructor`, `toString`, `__proto__`) yields that member, not a string. The model's table has only the eight aliases, and such a code normalises to itself.
- Providers.BatchSize: `batchSize` is a natural number in the model. The source takes any number: a negative size never ends the batching loop, and a fractional one gives fractional `slice` bounds.
- Providers.MaxRetries: `retries` is a natural number in the model. The source takes any number: a negative count allows no retry after the first attempt, which the model cannot express, since 0 falls back to 3.
- `mergeTranslations` mutates the existing entries it merges into. The model builds new entries, so that aliasing is not modelled.
- An explicit `undefined` in a spread overrides a default in the source. The model treats it as absent.
- xlsx: reading and writing workbooks, column widths and the sheet name are not modelled. The sheet is given as rows, or as its first row and its last row index. The catch that turns a read error into a validation error is not modelled.
- cosmiconfig's file search is not modelled. `loadConfig` takes the configuration found, or none.
- The `openai` and `anthropic` configuration blocks are not modelled; validation refuses those providers anyway.
- The validator's `loadTranslations` reads files. It is a function parameter of the validator.
- Translator's `close` and TranslationMemory's `close` only close the database.
- The test in `src/__tests__/placeholder-handler.test.ts` at line 34 expects type `dollar` for a text holding `${balance}`. The code labels it `curly`, because the curly family matches `{balance}` first, and the model follows the code.
- Placeholders.PlaceholderRoundTrip: proved for texts without `_`. The source promises it for texts without `__PLACEHOLDER_`, but with that weaker condition a text like `{a} {b}PLACEHOLDER_0__` gets a marker glued into `__PLACEHOLDER_0__` and does not come back.
- Markers.ProtectRestoreRoundTrip: proved for texts without `_` and for pieces that are safe next to the markers, for the same reason.
- Markers.MarkerMapRoundTrip: the same conditions as ProtectRestoreRoundTrip.
- Glossary.TermRoundTrip: the same conditions, with every term safe to protect.
- Glossary.GlossaryRoundTrip: the same conditions, for the do-not-translate terms.

## Findings

| source | as written | input that shows it | evidently intended | confidence | as-written member | corrected member |
|---|---|---|---|---|---|---|
| src/core/replacer.ts:141-148 | The ImportDeclaration visitor is a method that reads `this.importPath`. Babel's `traverse` calls a visitor with `this` bound to the traversal state, and no state is passed, so under strict mode the first import declaration throws a TypeError. The catch at lines 269-276 then reports failure with count 0. | A script `import { ref } from 'vue'` followed by the literal `'你好'`, with `你好` among the extracted texts: replaceJavaScript fails and writes nothing. In a Vue component such a script contributes no replacements. | The visitor compares each import's source with the replacer's import path, as the arrow-function visitors below it do, so an existing import of the accessor only suppresses the added one. | high; not executed | Replacer.ImportedScriptFails | Replacer.IntendedJsOutcome |

The rest of the model (the Vue and file rewrites and `CodeReplacer`) follows the code as written, through `Replacer.JsOutcome`. `Replacer.JsOutcomeWithoutImports` proves that the two definitions agree on every script without import declarations.
