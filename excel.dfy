// The spreadsheet side of the translator (src/core/excel-handler.ts): entries
// become rows (an object per row: key, source, one column per language, then
// file and context), rows become entries again, a template is built, and the
// header row of a workbook is checked.  Rows are ordered string maps, as
// xlsx's json_to_sheet/sheet_to_json exchange them; reading and writing the
// workbook itself, the column widths and the sheet name are not modelled.
module Excel {
  import opened Collections
  import opened Types
  import opened Strings

  /** ExcelRow: the cells of one row by column name, in column order. */
  type Row = OMap<string, string>

  /** The columns of a row that are not languages. */
  const Reserved: seq<string> := ["key", "source", "file", "context"]

  const FileMissing: string := "文件不存在: "
  const EmptySheet: string := "Excel 文件为空"
  const NoSheets: string := "Excel 文件中没有工作表"
  const MissingColumnsPrefix: string := "缺少必需的列: "
  const NoDataRows: string := "Excel 文件中没有数据行"
  const TemplateKey: string := "example_key"
  const TemplateSource: string := "示例文本"
  const SamplePrefix: string := "sample_"

  /** `row[column]` */
  function Cell(row: Row, column: string): Option<string> {
    if column in row.entries then Some(row.entries[column]) else None
  }

  /** `x || ''` */
  function OrEmpty(s: Option<string>): string {
    if s.Some? then s.value else ""
  }

  /** The language columns are not among the reserved ones. */
  predicate PlainLanguages(langs: seq<string>) {
    forall l :: l in langs ==> l !in Reserved
  }

  // ------------------------------------------------------------ export

  /** `languages.forEach(lang => row[lang] = entry.translations[lang] || '')` */
  function WithLanguages(row: Row, e: TranslationEntry, langs: seq<string>): (r: Row)
    ensures ValidMap(row) ==> ValidMap(r)
  {
    if langs == [] then row
    else
      var n := |langs| - 1;
      Put(WithLanguages(row, e, langs[..n]), langs[n], Translated(e, langs[n]))
  }

  /** The language columns are added after the row's own, once each, in first-seen order. */
  lemma {:induction false} WithLanguagesKeys(row: Row, e: TranslationEntry, langs: seq<string>)
    requires ValidMap(row) && forall l :: l in langs ==> l !in row.entries
    ensures WithLanguages(row, e, langs).keys == row.keys + Dedup(langs)
  {
    if langs != [] {
      var n := |langs| - 1;
      var init := langs[..n];
      InitMembers(langs);
      WithLanguagesKeys(row, e, init);
      var before := WithLanguages(row, e, init);
      WithLanguagesCell(row, e, init, langs[n]);
      assert langs[n] in before.entries <==> langs[n] in Dedup(init);
      if langs[n] !in Dedup(init) {
        Advance(row.keys, Dedup(init), [langs[n]], row.keys + Dedup(langs));
      }
    }
  }

  /** Each language column holds the entry's translation or ''; other columns are the row's. */
  lemma {:induction false} WithLanguagesCell(row: Row, e: TranslationEntry, langs: seq<string>, c: string)
    ensures c in langs ==> Cell(WithLanguages(row, e, langs), c) == Some(Translated(e, c))
    ensures c !in langs ==> Cell(WithLanguages(row, e, langs), c) == Cell(row, c)
  {
    if langs != [] {
      var n := |langs| - 1;
      var init := langs[..n];
      InitMembers(langs);
      WithLanguagesCell(row, e, init, c);
      assert WithLanguages(row, e, langs).entries == WithLanguages(row, e, init).entries[langs[n] := Translated(e, langs[n])];
    }
  }

  /** `entry.translations[lang] || ''` */
  function Translated(e: TranslationEntry, lang: string): string {
    OrEmpty(TranslationFor(e, lang))
  }

  /** `entry.metadata?.file` */
  function FileOf(e: TranslationEntry): Option<string> {
    if e.metadata.Some? then e.metadata.value.file else None
  }

  /** `entry.metadata?.context` */
  function ContextOf(e: TranslationEntry): Option<string> {
    if e.metadata.Some? then e.metadata.value.context else None
  }

  /** A row with its key and source, in that order. */
  function KeyedRow(key: string, source: string): (r: Row)
    ensures ValidMap(r) && r.keys == ["key", "source"]
  {
    Put(Put(EmptyMap(), "key", key), "source", source)
  }

  /** exportToExcel, one entry: key, source, a cell per language, then file and context when set. */
  function ExportRow(e: TranslationEntry, langs: seq<string>): (r: Row)
    ensures ValidMap(r)
  {
    var row := WithLanguages(KeyedRow(e.key, e.source), e, langs);
    var withFile := if Truthy(FileOf(e)) then Put(row, "file", FileOf(e).value) else row;
    if Truthy(ContextOf(e)) then Put(withFile, "context", ContextOf(e).value) else withFile
  }

  /** exportToExcel: the row of each entry, in order. */
  function ExportRows(entries: seq<TranslationEntry>, langs: seq<string>): (r: seq<Row>)
    ensures |r| == |entries|
  {
    if entries == [] then [] else ExportRows(entries[..|entries| - 1], langs) + [ExportRow(entries[|entries| - 1], langs)]
  }

  /** exportToExcel, up to building the worksheet: the rows it is built from. */
  method ExportToExcel(entries: seq<TranslationEntry>, langs: seq<string>) returns (rows: seq<Row>)
    ensures rows == ExportRows(entries, langs)
  {
    rows := [];
    for i := 0 to |entries|
      invariant rows == ExportRows(entries[..i], langs)
    {
      var e := entries[i];
      var row := KeyedRow(e.key, e.source);
      ghost var start := row;
      for j := 0 to |langs|
        invariant row == WithLanguages(start, e, langs[..j])
      {
        PrefixOfPrefix(langs, j);
        row := Put(row, langs[j], Translated(e, langs[j]));
      }
      assert langs[..|langs|] == langs;
      if Truthy(FileOf(e)) {
        row := Put(row, "file", FileOf(e).value);
      }
      if Truthy(ContextOf(e)) {
        row := Put(row, "context", ContextOf(e).value);
      }
      PrefixOfPrefix(entries, i);
      rows := rows + [row];
    }
    assert entries[..|entries|] == entries;
  }

  /**
   * An exported row's columns (languages apart from the reserved columns):
   * key and source first, then one column per distinct language, then file
   * and context exactly when the metadata has them non-empty.
   */
  lemma ExportRowKeys(e: TranslationEntry, langs: seq<string>)
    requires PlainLanguages(langs)
    ensures ExportRow(e, langs).keys == ["key", "source"] + Dedup(langs)
              + (if Truthy(FileOf(e)) then ["file"] else []) + (if Truthy(ContextOf(e)) then ["context"] else [])
  {
    var base := KeyedRow(e.key, e.source);
    WithLanguagesKeys(base, e, langs);
    WithLanguagesCell(base, e, langs, "file");
    WithLanguagesCell(base, e, langs, "context");
    var row := WithLanguages(base, e, langs);
    assert "file" !in row.entries && "context" !in row.entries;
    var withFile := if Truthy(FileOf(e)) then Put(row, "file", FileOf(e).value) else row;
    assert withFile.keys == row.keys + (if Truthy(FileOf(e)) then ["file"] else []);
    assert "context" !in withFile.entries;
  }

  /**
   * An exported row's cells: the key, the source, each language's
   * translation or '', and file and context when the metadata has them
   * non-empty; no other column.
   */
  lemma ExportRowCells(e: TranslationEntry, langs: seq<string>, c: string)
    requires PlainLanguages(langs)
    ensures var row := ExportRow(e, langs);
      && Cell(row, "key") == Some(e.key) && Cell(row, "source") == Some(e.source)
      && Cell(row, "file") == (if Truthy(FileOf(e)) then FileOf(e) else None)
      && Cell(row, "context") == (if Truthy(ContextOf(e)) then ContextOf(e) else None)
      && (c in langs ==> Cell(row, c) == Some(Translated(e, c)))
      && (c !in langs && c !in Reserved ==> Cell(row, c) == None)
  {
    var base := KeyedRow(e.key, e.source);
    var row := WithLanguages(base, e, langs);
    WithLanguagesCell(base, e, langs, c);
    WithLanguagesCell(base, e, langs, "key");
    WithLanguagesCell(base, e, langs, "source");
    WithLanguagesCell(base, e, langs, "file");
    WithLanguagesCell(base, e, langs, "context");
    MetaCells(row, e, c);
    MetaCells(row, e, "key");
    MetaCells(row, e, "source");
    MetaCells(row, e, "file");
    MetaCells(row, e, "context");
  }

  /** Setting file and context after the languages changes those two cells and no other. */
  lemma MetaCells(row: Row, e: TranslationEntry, c: string)
    ensures var withFile := if Truthy(FileOf(e)) then Put(row, "file", FileOf(e).value) else row;
      var out := if Truthy(ContextOf(e)) then Put(withFile, "context", ContextOf(e).value) else withFile;
      Cell(out, c) == if c == "context" && Truthy(ContextOf(e)) then ContextOf(e)
                      else if c == "file" && Truthy(FileOf(e)) then FileOf(e)
                      else Cell(row, c)
  {
  }

  // ------------------------------------------------------------ import

  /** The non-empty cells of the requested languages, set in turn. */
  function LanguagesOf(row: Row, langs: seq<string>): (r: OMap<string, string>)
    ensures ValidMap(r)
  {
    if langs == [] then EmptyMap()
    else
      var n := |langs| - 1;
      var before := LanguagesOf(row, langs[..n]);
      if Truthy(Cell(row, langs[n])) then Put(before, langs[n], Cell(row, langs[n]).value) else before
  }

  /** An imported entry translates exactly the requested languages whose cell is non-empty, to that cell. */
  lemma {:induction false} LanguagesOfCell(row: Row, langs: seq<string>, lang: string)
    ensures lang in LanguagesOf(row, langs).entries <==> lang in langs && Truthy(Cell(row, lang))
    ensures lang in LanguagesOf(row, langs).entries ==> Some(LanguagesOf(row, langs).entries[lang]) == Cell(row, lang)
  {
    if langs != [] {
      var n := |langs| - 1;
      LanguagesOfCell(row, langs[..n], lang);
      InitMembers(langs);
    }
  }

  /** importFromExcel, one row: key and source ('' when absent), the translations, and metadata when file or context is set. */
  function ImportRow(row: Row, langs: seq<string>): TranslationEntry {
    TranslationEntry(
      OrEmpty(Cell(row, "key")),
      OrEmpty(Cell(row, "source")),
      LanguagesOf(row, langs),
      if Truthy(Cell(row, "file")) || Truthy(Cell(row, "context"))
      then Some(Metadata(Cell(row, "file"), None, Cell(row, "context"), None, None))
      else None)
  }

  /** The rows as entries, in order. */
  function ImportRows(rows: seq<Row>, langs: seq<string>): (r: seq<TranslationEntry>)
    ensures |r| == |rows|
  {
    if rows == [] then [] else ImportRows(rows[..|rows| - 1], langs) + [ImportRow(rows[|rows| - 1], langs)]
  }

  /** An entry with both a key and a source. */
  predicate Complete(e: TranslationEntry) {
    e.key != [] && e.source != []
  }

  /** `translations.filter(t => t.key && t.source)` */
  function KeepComplete(entries: seq<TranslationEntry>): (r: seq<TranslationEntry>)
    ensures |r| <= |entries|
    ensures forall i :: 0 <= i < |r| ==> Complete(r[i]) && r[i] in entries
    ensures forall i :: 0 <= i < |entries| && Complete(entries[i]) ==> entries[i] in r
  {
    if entries == [] then []
    else
      var n := |entries| - 1;
      var before := KeepComplete(entries[..n]);
      assert forall i :: 0 <= i < n ==> entries[..n][i] == entries[i];
      if Complete(entries[n]) then before + [entries[n]] else before
  }

  /** The filter keeps row order: it distributes over concatenation. */
  lemma {:induction false} KeepCompleteAppend(a: seq<TranslationEntry>, b: seq<TranslationEntry>)
    ensures KeepComplete(a + b) == KeepComplete(a) + KeepComplete(b)
    decreases |b|
  {
    if b == [] {
      assert a + b == a;
    } else {
      var n := |b| - 1;
      assert (a + b)[..|a + b| - 1] == a + b[..n] && (a + b)[|a + b| - 1] == b[n];
      KeepCompleteAppend(a, b[..n]);
      var tail := if Complete(b[n]) then [b[n]] else [];
      assert (KeepComplete(a) + KeepComplete(b[..n])) + tail == KeepComplete(a) + (KeepComplete(b[..n]) + tail);
    }
  }

  /** One entry is kept exactly when it is complete. */
  lemma KeepCompleteOne(e: TranslationEntry)
    ensures KeepComplete([e]) == if Complete(e) then [e] else []
  {
    assert [e][..0] == [];
  }

  /**
   * importFromExcel, given whether the file exists and the rows of its first
   * sheet: a missing file or an empty sheet is an error; otherwise the
   * complete entries, in row order.
   */
  function Import(fileExists: bool, path: string, rows: seq<Row>, langs: seq<string>): (r: Result<seq<TranslationEntry>, string>)
  {
    if !fileExists then Err(FileMissing + path)
    else if rows == [] then Err(EmptySheet)
    else Ok(KeepComplete(ImportRows(rows, langs)))
  }

  method ImportFromExcel(fileExists: bool, path: string, rows: seq<Row>, langs: seq<string>) returns (r: Result<seq<TranslationEntry>, string>)
    ensures r == Import(fileExists, path, rows, langs)
  {
    if !fileExists {
      return Err(FileMissing + path);
    }
    if |rows| == 0 {
      return Err(EmptySheet);
    }
    var entries := [];
    for i := 0 to |rows|
      invariant entries == ImportRows(rows[..i], langs)
    {
      var row := rows[i];
      var translations := EmptyMap();
      for j := 0 to |langs|
        invariant translations == LanguagesOf(row, langs[..j])
      {
        PrefixOfPrefix(langs, j);
        var cell := Cell(row, langs[j]);
        if Truthy(cell) {
          translations := Put(translations, langs[j], cell.value);
        }
      }
      assert langs[..|langs|] == langs;
      PrefixOfPrefix(rows, i);
      entries := entries + [ImportRow(row, langs).(translations := translations)];
    }
    assert rows[..|rows|] == rows;
    var kept := [];
    for i := 0 to |entries|
      invariant kept == KeepComplete(entries[..i])
    {
      PrefixOfPrefix(entries, i);
      if entries[i].key != [] && entries[i].source != [] {
        kept := kept + [entries[i]];
      }
    }
    assert entries[..|entries|] == entries;
    return Ok(kept);
  }

  /** The imported entry of an exported row has the entry's key, source, non-empty translations and file/context. */
  lemma ExportImportEntry(e: TranslationEntry, langs: seq<string>, lang: string)
    requires PlainLanguages(langs)
    ensures var r := ImportRow(ExportRow(e, langs), langs);
      && r.key == e.key && r.source == e.source
      && TranslationFor(r, lang) == (if lang in langs && Truthy(TranslationFor(e, lang)) then TranslationFor(e, lang) else None)
      && (r.metadata.Some? <==> Truthy(FileOf(e)) || Truthy(ContextOf(e)))
      && (r.metadata.Some? ==>
            && r.metadata.value.file == (if Truthy(FileOf(e)) then FileOf(e) else None)
            && r.metadata.value.context == (if Truthy(ContextOf(e)) then ContextOf(e) else None))
  {
    ExportRowCells(e, langs, lang);
    LanguagesOfCell(ExportRow(e, langs), langs, lang);
  }

  /** The entries a round trip through the sheet gives back, one per entry. */
  function Reimported(entries: seq<TranslationEntry>, langs: seq<string>): seq<TranslationEntry> {
    ImportRows(ExportRows(entries, langs), langs)
  }

  lemma {:induction false} ReimportedStep(entries: seq<TranslationEntry>, langs: seq<string>)
    requires entries != []
    ensures Reimported(entries, langs)
         == Reimported(entries[..|entries| - 1], langs) + [ImportRow(ExportRow(entries[|entries| - 1], langs), langs)]
  {
    var rows := ExportRows(entries, langs);
    assert rows[..|rows| - 1] == ExportRows(entries[..|entries| - 1], langs);
  }

  /**
   * Exporting then importing with the same languages gives back, in order,
   * exactly the entries with a key and a source (each as ExportImportEntry
   * describes); an empty list comes back as the empty-sheet error.
   */
  lemma {:induction false} SheetRoundTrip(entries: seq<TranslationEntry>, langs: seq<string>, path: string)
    requires PlainLanguages(langs)
    ensures Import(true, path, ExportRows(entries, langs), langs)
         == if entries == [] then Err(EmptySheet) else Ok(Reimported(KeepComplete(entries), langs))
  {
    if entries != [] {
      KeepReimported(entries, langs);
    }
  }

  lemma {:induction false} KeepReimported(entries: seq<TranslationEntry>, langs: seq<string>)
    requires PlainLanguages(langs)
    ensures KeepComplete(Reimported(entries, langs)) == Reimported(KeepComplete(entries), langs)
  {
    if entries != [] {
      var n := |entries| - 1;
      var e := entries[n];
      KeepReimported(entries[..n], langs);
      ReimportedStep(entries, langs);
      var back := Reimported(entries, langs);
      assert back[..n] == Reimported(entries[..n], langs);
      ExportImportEntry(e, langs, "");
      if Complete(e) {
        ReimportedStep(KeepComplete(entries), langs);
        assert KeepComplete(entries)[..|KeepComplete(entries)| - 1] == KeepComplete(entries[..n]);
      }
    }
  }

  // ------------------------------------------------------------ template

  /** A template entry: a key and a source, nothing translated, no metadata. */
  function Untranslated(key: string, source: string): TranslationEntry {
    TranslationEntry(key, source, EmptyMap(), None)
  }

  /** A template row, `{ key, source }` and '' in every language: the export row of an untranslated entry. */
  function TemplateRow(key: string, source: string, langs: seq<string>): (r: Row)
    ensures ValidMap(r)
  {
    ExportRow(Untranslated(key, source), langs)
  }

  /** The key of the i-th sample (from 0): `sample_${i + 1}`. */
  function SampleKey(i: nat): string {
    SamplePrefix + NatToString(i + 1)
  }

  /** One template row per sample text, the i-th keyed `sample_${i + 1}`. */
  function SampleRows(samples: seq<string>, langs: seq<string>): (r: seq<Row>) {
    seq(|samples|, i requires 0 <= i < |samples| => TemplateRow(SampleKey(i), samples[i], langs))
  }

  /** exportTemplate's rows: one per sample text, or a single example row when there are none. */
  function TemplateRows(samples: seq<string>, langs: seq<string>): seq<Row> {
    if samples == [] then [TemplateRow(TemplateKey, TemplateSource, langs)] else SampleRows(samples, langs)
  }

  /** The row of a template entry: key, source, then '' per language. */
  method BlankRow(key: string, source: string, langs: seq<string>) returns (row: Row)
    ensures row == TemplateRow(key, source, langs)
  {
    row := KeyedRow(key, source);
    ghost var start := row;
    for j := 0 to |langs|
      invariant row == WithLanguages(start, Untranslated(key, source), langs[..j])
    {
      PrefixOfPrefix(langs, j);
      row := Put(row, langs[j], "");
    }
    assert langs[..|langs|] == langs;
  }

  method ExportTemplate(samples: seq<string>, langs: seq<string>) returns (rows: seq<Row>)
    ensures rows == TemplateRows(samples, langs)
  {
    rows := [];
    ghost var all := SampleRows(samples, langs);
    for i := 0 to |samples|
      invariant rows == all[..i]
    {
      var row := BlankRow(SampleKey(i), samples[i], langs);
      assert all[i] == row;
      PrefixSnoc(all, i);
      rows := rows + [row];
    }
    assert all[..|samples|] == all;
    if |rows| == 0 {
      var row := BlankRow(TemplateKey, TemplateSource, langs);
      rows := rows + [row];
    }
  }

  /** Distinct samples have distinct keys. */
  lemma SampleKeysDistinct(i: nat, j: nat)
    requires i != j
    ensures SampleKey(i) != SampleKey(j)
  {
    if SampleKey(i) == SampleKey(j) {
      assert NatToString(i + 1) == SampleKey(i)[|SamplePrefix|..];
      assert NatToString(j + 1) == SampleKey(j)[|SamplePrefix|..];
      NatToStringInjective(i + 1, j + 1);
    }
  }

  /** A template row holds its key and source, and '' in every language column. */
  lemma TemplateRowCells(key: string, source: string, langs: seq<string>, lang: string)
    requires PlainLanguages(langs)
    ensures var row := TemplateRow(key, source, langs);
      && Cell(row, "key") == Some(key) && Cell(row, "source") == Some(source)
      && (lang in langs ==> Cell(row, lang) == Some(""))
  {
    ExportRowCells(Untranslated(key, source), langs, lang);
  }

  /**
   * exportTemplate: one row per sample (at least one row), the i-th keyed
   * `sample_{i+1}` with the sample as its source and '' in every language
   * column.
   */
  lemma TemplateCells(samples: seq<string>, langs: seq<string>, i: nat, lang: string)
    requires PlainLanguages(langs)
    ensures var rows := TemplateRows(samples, langs);
      && |rows| == (if samples == [] then 1 else |samples|)
      && (i < |rows| ==> && (lang in langs ==> Cell(rows[i], lang) == Some(""))
                         && Cell(rows[i], "key") == Some(if samples == [] then TemplateKey else SampleKey(i))
                         && Cell(rows[i], "source") == Some(if samples == [] then TemplateSource else samples[i]))
  {
    if samples == [] {
      TemplateRowCells(TemplateKey, TemplateSource, langs, lang);
    } else if i < |samples| {
      TemplateRowCells(SampleKey(i), samples[i], langs, lang);
    }
  }

  /** The template's rows have distinct keys. */
  lemma TemplateKeysDistinct(samples: seq<string>, langs: seq<string>, i: nat, j: nat)
    requires PlainLanguages(langs)
    requires i < j < |TemplateRows(samples, langs)|
    ensures Cell(TemplateRows(samples, langs)[i], "key") != Cell(TemplateRows(samples, langs)[j], "key")
  {
    TemplateRowCells(SampleKey(i), samples[i], langs, "key");
    TemplateRowCells(SampleKey(j), samples[j], langs, "key");
    SampleKeysDistinct(i, j);
  }

  // ------------------------------------------------------------ validation

  /**
   * What validateExcelFile reads of a sheet: the first row's cells across the
   * sheet's column range (None: no cell or no value; values as their text),
   * and the index of the range's last row (a sheet without a range is cell A1).
   */
  datatype Sheet = Sheet(header: seq<Option<string>>, lastRow: nat)

  /** validateExcelFile's result. */
  datatype Validation = Validation(valid: bool, errors: seq<string>)

  /** The header names: the cells with a value, in column order. */
  function Headers(cells: seq<Option<string>>): (r: seq<string>)
    ensures forall h :: h in r <==> Some(h) in cells && h != []
  {
    if cells == [] then []
    else
      var n := |cells| - 1;
      var before := Headers(cells[..n]);
      assert cells == cells[..n] + [cells[n]];
      if Truthy(cells[n]) then before + [cells[n].value] else before
  }

  /** `requiredColumns.filter(col => !headers.includes(col))` */
  function MissingColumns(required: seq<string>, headers: seq<string>): (r: seq<string>)
    ensures forall c :: c in r <==> c in required && c !in headers
  {
    if required == [] then []
    else
      var n := |required| - 1;
      var before := MissingColumns(required[..n], headers);
      assert required == required[..n] + [required[n]];
      if required[n] !in headers then before + [required[n]] else before
  }

  /** The errors validateExcelFile records, in order. */
  function FileErrors(fileExists: bool, path: string, sheets: seq<Sheet>, required: seq<string>): seq<string> {
    if !fileExists then [FileMissing + path]
    else if sheets == [] then [NoSheets]
    else
      var missing := MissingColumns(required, Headers(sheets[0].header));
      (if missing != [] then [MissingColumnsPrefix + JoinWith(missing, ", ")] else [])
      + (if sheets[0].lastRow < 1 then [NoDataRows] else [])
  }

  /** validateExcelFile: the errors found; valid when there are none. */
  method ValidateExcelFile(fileExists: bool, path: string, sheets: seq<Sheet>, required: seq<string>) returns (r: Validation)
    ensures r.errors == FileErrors(fileExists, path, sheets, required)
    ensures r.valid <==> r.errors == []
  {
    var errors: seq<string> := [];
    if !fileExists {
      errors := errors + [FileMissing + path];
      return Validation(false, errors);
    }
    if |sheets| == 0 {
      errors := errors + [NoSheets];
      return Validation(false, errors);
    }
    var sheet := sheets[0];
    var headers := [];
    for col := 0 to |sheet.header|
      invariant headers == Headers(sheet.header[..col])
    {
      PrefixOfPrefix(sheet.header, col);
      var cell := sheet.header[col];
      if cell.Some? && cell.value != [] {
        headers := headers + [cell.value];
      }
    }
    assert sheet.header[..|sheet.header|] == sheet.header;
    var missing := [];
    for k := 0 to |required|
      invariant missing == MissingColumns(required[..k], headers)
    {
      PrefixOfPrefix(required, k);
      if required[k] !in headers {
        missing := missing + [required[k]];
      }
    }
    assert required[..|required|] == required;
    if |missing| > 0 {
      errors := errors + [MissingColumnsPrefix + JoinWith(missing, ", ")];
    }
    if sheet.lastRow < 1 {
      errors := errors + [NoDataRows];
    }
    return Validation(|errors| == 0, errors);
  }

  /**
   * A file is valid exactly when it exists, has a sheet, every required
   * column is among the first sheet's headers, and the sheet has a data row.
   */
  lemma FileErrorsNone(fileExists: bool, path: string, sheets: seq<Sheet>, required: seq<string>)
    ensures FileErrors(fileExists, path, sheets, required) == []
        <==> fileExists && sheets != [] && sheets[0].lastRow >= 1
             && forall c :: c in required ==> Some(c) in sheets[0].header && c != []
  {
    if fileExists && sheets != [] {
      var missing := MissingColumns(required, Headers(sheets[0].header));
      if missing != [] {
        assert missing[0] in missing;
      }
    }
  }
}
