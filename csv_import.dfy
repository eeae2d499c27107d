/**
 * The two other branches of the CSV import of
 * src/components/CSVUploader.tsx — the flexible-header branch, whose cells
 * are found through lists of header aliases and may hold JSON, and the
 * headerless branch, which reads columns by position — and `handleParsed`,
 * which tries the header branches first and the headerless one after.
 */
module CsvImport {
  import opened Optional
  import opened Strings
  import opened Vocabulary
  import opened CsvUploader
  import ParseVocabV2

  /**
   * `JSON.parse` of a cell, seen through the two shapes the importer reads:
   * an array of strings and an array of example pairs. `None` stands for
   * text that does not parse, or parses to something that is not such an
   * array.
   */
  datatype Json = Json(strings: string -> Option<seq<string>>, pairs: string -> Option<seq<Pair>>)

  /** `cell ? safeJSON<string[]>(cell) : null`. */
  function JsonStrings(cell: string, dec: Json): Option<seq<string>> {
    if cell == "" then None else dec.strings(cell)
  }

  /** `cell ? safeJSON<ExamplePair[]>(cell) : null`. */
  function JsonPairs(cell: string, dec: Json): Option<seq<Pair>> {
    if cell == "" then None else dec.pairs(cell)
  }

  /** `arr?.length ?? 0`. */
  function Count(a: Option<seq<Pair>>): nat {
    if a.Some? then |a.value| else 0
  }

  /** The number of pairs over the seven groups. */
  function GroupCount(g: Collocations): nat {
    Count(g.ren) + Count(g.go) + Count(g.rui) + Count(g.kan) + Count(g.tai) + Count(g.kanyo) + Count(g.mei)
  }

  /* ---------- The flexible-header branch ---------- */

  /** The cells the flexible branch reads from one row, each the first filled alias. */
  datatype FlexCells = FlexCells(
    kanji: string, hira: string, meaning: string, sino: string,
    exSentence: string, exMeaning: string, meaningsJson: string, examplesJson: string,
    ren: string, go: string, rui: string, kan: string, tai: string, kanyo: string, mei: string)

  /** The alias list of each cell. */
  datatype Aliases = Aliases(
    kanji: seq<string>, hira: seq<string>, meaning: seq<string>, sino: seq<string>,
    exSentence: seq<string>, exMeaning: seq<string>, meaningsJson: seq<string>, examplesJson: seq<string>,
    ren: seq<string>, go: seq<string>, rui: seq<string>, kan: seq<string>, tai: seq<string>,
    kanyo: seq<string>, mei: seq<string>)

  /** The alias lists of the importer. */
  const Headers := Aliases(
    KanjiKeys, HiraKeys, MeaningKeys, SinoKeys, ExSentKeys, ExMeanKeys, MeaningsJsonKeys, ExamplesJsonKeys,
    RenKeys, GoKeys, RuiKeys, KanKeys, TaiKeys, KanyoKeys, MeiKeys)

  /** The row's keys normalised, then each cell looked up through its alias list. */
  function ReadFlex(raw: Row, a: Aliases, f: TextFold): FlexCells {
    var n := NormalizeRow(raw, f);
    FlexCells(
      FirstFilled(n, a.kanji), FirstFilled(n, a.hira), FirstFilled(n, a.meaning), FirstFilled(n, a.sino),
      FirstFilled(n, a.exSentence), FirstFilled(n, a.exMeaning), FirstFilled(n, a.meaningsJson), FirstFilled(n, a.examplesJson),
      FirstFilled(n, a.ren), FirstFilled(n, a.go), FirstFilled(n, a.rui), FirstFilled(n, a.kan),
      FirstFilled(n, a.tai), FirstFilled(n, a.kanyo), FirstFilled(n, a.mei))
  }

  /** The seven collocation cells, decoded; an undecodable cell is absent. */
  function FlexGroups(c: FlexCells, dec: Json): Collocations {
    Collocations(
      JsonPairs(c.ren, dec), JsonPairs(c.go, dec), JsonPairs(c.rui, dec), JsonPairs(c.kan, dec),
      JsonPairs(c.tai, dec), JsonPairs(c.kanyo, dec), JsonPairs(c.mei, dec))
  }

  /** A non-empty decoded array, or nothing. */
  function NonEmptyArray<T>(a: Option<seq<T>>): Option<seq<T>> {
    if a.Some? && |a.value| > 0 then a else None
  }

  /**
   * The record one row becomes. The picked cells are already trimmed, so the
   * second `.trim()` of the source changes nothing and is not repeated here.
   */
  function FlexItem(c: FlexCells, id: string, dec: Json): Item {
    var groups := FlexGroups(c, dec);
    var json := NonEmptyArray(JsonPairs(c.examplesJson, dec));
    var legacy := c.exSentence != "" || c.exMeaning != "";
    Item(
      id, Or(c.kanji, c.hira), c.hira, c.meaning, Some(false), NonEmptyOr(c.sino),
      NonEmptyArray(JsonStrings(c.meaningsJson, dec)),
      if json.None? && c.exSentence != "" then Some([Pair(c.exSentence, NonEmptyOr(c.exMeaning))]) else json,
      if GroupCount(groups) > 0 then Some(groups) else None,
      if legacy then NonEmptyOr(c.exSentence) else None,
      if legacy then NonEmptyOr(c.exMeaning) else None,
      None)
  }

  /** The filter of the flexible and headerless branches: a meaning, a reading and some spelling. */
  predicate Kept(it: Item) {
    it.meaning != "" && it.hiragana != "" && (it.kanji != "" || it.hiragana != "")
  }

  /** `rows.map(...)`: each row's record, the row's position choosing its id. */
  function FlexItems(rows: seq<Row>, a: Aliases, f: TextFold, dec: Json, rowId: nat -> string): (r: seq<Item>)
    ensures |r| == |rows|
  {
    seq(|rows|, i requires 0 <= i < |rows| => FlexItem(ReadFlex(rows[i], a, f), rowId(i), dec))
  }

  /** The flexible-header branch, over the alias lists `a` (the importer's are `Headers`). */
  function Flexible(rows: seq<Row>, a: Aliases, f: TextFold, dec: Json, rowId: nat -> string): seq<Item> {
    Filter(FlexItems(rows, a, f, dec, rowId), Kept)
  }

  /** A row's spelling falls back to its reading; its cells are trimmed; it is not starred. */
  lemma FlexFields(c: FlexCells, id: string, dec: Json)
    requires Trimmed(c.kanji) && Trimmed(c.hira) && Trimmed(c.meaning)
    ensures var it := FlexItem(c, id, dec);
      it.id == id && Trimmed(it.kanji) && Trimmed(it.hiragana) && Trimmed(it.meaning) &&
      it.starred == Some(false) && it.leitner.None? &&
      (c.kanji != "" ==> it.kanji == c.kanji) && (c.kanji == "" ==> it.kanji == c.hira)
  {
  }

  /** A row is kept exactly when it has a meaning and a reading among its aliases. */
  lemma FlexKeptIff(c: FlexCells, id: string, dec: Json)
    ensures Kept(FlexItem(c, id, dec)) <==> c.meaning != "" && c.hira != ""
  {
  }

  /**
   * Example precedence: a non-empty JSON array of examples wins; otherwise a
   * legacy example sentence gives the single example; otherwise there is none.
   * A cell that does not decode counts as no array.
   */
  lemma FlexExamples(c: FlexCells, id: string, dec: Json)
    ensures var ex := FlexItem(c, id, dec).examples; var js := JsonPairs(c.examplesJson, dec);
      (js.Some? && js.value != [] ==> ex == js) &&
      (!(js.Some? && js.value != []) && c.exSentence != "" ==> ex == Some([Pair(c.exSentence, NonEmptyOr(c.exMeaning))])) &&
      (!(js.Some? && js.value != []) && c.exSentence == "" ==> ex.None?) &&
      (ex.Some? ==> ex.value != [])
  {
  }

  /** Meanings come only from a non-empty decoded array. */
  lemma FlexMeanings(c: FlexCells, id: string, dec: Json)
    ensures var ms := FlexItem(c, id, dec).meanings;
      (ms.Some? <==> c.meaningsJson != "" && dec.strings(c.meaningsJson).Some? && dec.strings(c.meaningsJson).value != []) &&
      (ms.Some? ==> ms == dec.strings(c.meaningsJson))
  {
  }

  /** Collocations are present exactly when the decoded groups hold at least one pair between them. */
  lemma FlexCollocations(c: FlexCells, id: string, dec: Json)
    ensures var g := FlexItem(c, id, dec).collocations;
      (g.Some? <==> exists i :: 0 <= i < 7 && Count(GroupAt(FlexGroups(c, dec), i)) > 0) &&
      (g.Some? ==> g.value == FlexGroups(c, dec))
  {
    var gs := FlexGroups(c, dec);
    if GroupCount(gs) > 0 {
      if Count(gs.ren) > 0 { assert Count(GroupAt(gs, 0)) > 0; }
      else if Count(gs.go) > 0 { assert Count(GroupAt(gs, 1)) > 0; }
      else if Count(gs.rui) > 0 { assert Count(GroupAt(gs, 2)) > 0; }
      else if Count(gs.kan) > 0 { assert Count(GroupAt(gs, 3)) > 0; }
      else if Count(gs.tai) > 0 { assert Count(GroupAt(gs, 4)) > 0; }
      else if Count(gs.kanyo) > 0 { assert Count(GroupAt(gs, 5)) > 0; }
      else { assert Count(GroupAt(gs, 6)) > 0; }
    }
  }

  /** The i-th group, in the order ren, go, rui, kan, tai, kanyo, mei. */
  function GroupAt(g: Collocations, i: nat): Option<seq<Pair>>
    requires i < 7
  {
    match i
    case 0 => g.ren
    case 1 => g.go
    case 2 => g.rui
    case 3 => g.kan
    case 4 => g.tai
    case 5 => g.kanyo
    case _ => g.mei
  }

  /** Legacy example fields are set only when one of the two cells is filled, each to its own cell. */
  lemma FlexLegacy(c: FlexCells, id: string, dec: Json)
    ensures var it := FlexItem(c, id, dec);
      (c.exSentence == "" && c.exMeaning == "" ==> it.exampleSentence.None? && it.exampleMeaning.None?) &&
      (c.exSentence != "" ==> it.exampleSentence == Some(c.exSentence)) &&
      (c.exMeaning != "" ==> it.exampleMeaning == Some(c.exMeaning))
  {
  }

  /** Every record of the flexible branch has a meaning, a reading and a spelling. */
  lemma FlexibleKept(rows: seq<Row>, a: Aliases, f: TextFold, dec: Json, rowId: nat -> string)
    ensures forall it :: it in Flexible(rows, a, f, dec, rowId) ==> it.meaning != "" && it.hiragana != "" && it.kanji != ""
    ensures |Flexible(rows, a, f, dec, rowId)| <= |rows|
  {
    var xs := FlexItems(rows, a, f, dec, rowId);
    forall it | it in Filter(xs, Kept) ensures it.meaning != "" && it.hiragana != "" && it.kanji != "" {
      var i :| 0 <= i < |xs| && xs[i] == it;
      var c := ReadFlex(rows[i], a, f);
      assert it == FlexItem(c, rowId(i), dec);
    }
  }

  /* ---------- The headerless branch ---------- */

  /** `String(arr[i] ?? "").trim()`: a missing column reads as "". */
  function Col(arr: seq<string>, i: nat): (v: string)
    ensures Trimmed(v)
    ensures i < |arr| ==> v == Trim(arr[i])
  {
    if i < |arr| then Trim(arr[i]) else ""
  }

  /** The record one positional row becomes: kanji, kana, meaning, Sino-Vietnamese, example, its meaning. */
  function PlainItem(arr: seq<string>, id: string): Item {
    Item(
      id, Or(Col(arr, 0), Col(arr, 1)), Col(arr, 1), Col(arr, 2), Some(false), NonEmptyOr(Col(arr, 3)),
      None,
      if Col(arr, 4) != "" then Some([Pair(Col(arr, 4), NonEmptyOr(Col(arr, 5)))]) else None,
      None, None, None, None)
  }

  /** The headerless branch. */
  function Headerless(rows: seq<seq<string>>, rowId: nat -> string): seq<Item> {
    Filter(seq(|rows|, i requires 0 <= i < |rows| => PlainItem(rows[i], rowId(i))), Kept)
  }

  /**
   * Columns are read by position: a row is kept exactly when its second and
   * third columns are not blank; it has an example exactly when its fifth is
   * not blank, and that example carries the sixth column as translation.
   */
  lemma PlainColumns(arr: seq<string>, id: string)
    ensures var it := PlainItem(arr, id);
      (Kept(it) <==> Col(arr, 1) != "" && Col(arr, 2) != "") &&
      (it.examples.Some? <==> Col(arr, 4) != "") &&
      (it.examples.Some? ==> it.examples.value == [Pair(Col(arr, 4), NonEmptyOr(Col(arr, 5)))]) &&
      (it.sinoVietnamese.Some? <==> Col(arr, 3) != "") &&
      it.kanji == Or(Col(arr, 0), Col(arr, 1)) && it.meaning == Col(arr, 2)
  {
  }

  /** Every record of the headerless branch has a meaning, a reading and a spelling. */
  lemma HeaderlessKept(rows: seq<seq<string>>, rowId: nat -> string)
    ensures forall it :: it in Headerless(rows, rowId) ==> it.meaning != "" && it.hiragana != "" && it.kanji != ""
    ensures |Headerless(rows, rowId)| <= |rows|
  {
    var xs := seq(|rows|, i requires 0 <= i < |rows| => PlainItem(rows[i], rowId(i)));
    assert Headerless(rows, rowId) == Filter(xs, Kept);
    forall it | it in Filter(xs, Kept) ensures it.meaning != "" && it.hiragana != "" && it.kanji != "" {
      var i :| 0 <= i < |xs| && xs[i] == it;
      assert it == PlainItem(rows[i], rowId(i));
    }
  }

  /* ---------- `handleParsed` ---------- */

  /** What the import hands to the application: the words found, or the "nothing valid" error. */
  datatype Import = Imported(items: seq<Item>) | NothingFound

  /** The text folding, the JSON decoder and the three id sources an import uses. */
  datatype Env = Env(fold: TextFold, json: Json, wordId: string -> string, rowId: nat -> string, plainId: nat -> string)

  /** `Object.keys(rows[0] ?? {}).map(norm)`. */
  function FirstRowKeys(rows: seq<Row>, f: TextFold): (ks: seq<string>)
    ensures rows == [] ==> ks == []
  {
    if rows == [] then [] else seq(|rows[0]|, i requires 0 <= i < |rows[0]| => Norm(rows[0][i].0, f))
  }

  /** `buildItemsFromHeaderRows`: the long-form branch when the headers are long-form, the flexible one otherwise. */
  function FromHeaderRows(rows: seq<Row>, headers: seq<string>, env: Env): seq<Item> {
    if IsLongForm(headers) then LongSpec(rows, env.wordId) else Flexible(rows, Headers, env.fold, env.json, env.rowId)
  }

  /** The header branches' result if non-empty, else the headerless branch's if non-empty, else the error. */
  function Dispatch(fromHeader: seq<Item>, plain: seq<seq<string>>, env: Env): (r: Import)
    ensures r.Imported? ==> r.items != []
    ensures fromHeader != [] ==> r == Imported(fromHeader)
    ensures fromHeader == [] && Headerless(plain, env.plainId) != [] ==> r == Imported(Headerless(plain, env.plainId))
    ensures r == NothingFound <==> fromHeader == [] && Headerless(plain, env.plainId) == []
  {
    if fromHeader != [] then Imported(fromHeader)
    else
      var items2 := Headerless(plain, env.plainId);
      if items2 != [] then Imported(items2) else NothingFound
  }

  /**
   * `handleParsed` as written. `detected` is the header list the component
   * held when the handler was created: [] before the first import, the
   * previous file's headers after it. `rows` is the header parse of the file
   * and `plain` its headerless parse.
   */
  function HandleParsed(detected: seq<string>, rows: seq<Row>, plain: seq<seq<string>>, env: Env): Import {
    var headers := if detected != [] then detected else FirstRowKeys(rows, env.fold);
    Dispatch(FromHeaderRows(rows, headers, env), plain, env)
  }

  /** `handleParsed` deciding the branch on the headers of the file being imported: its first row's keys. */
  function HandleImport(rows: seq<Row>, plain: seq<seq<string>>, env: Env): Import {
    Dispatch(FromHeaderRows(rows, FirstRowKeys(rows, env.fold), env), plain, env)
  }

  /** A file without any `word_id` yields nothing in the long-form branch. */
  lemma {:induction false} NoIdsNoWords(rows: seq<Row>, newId: string -> string)
    requires forall i :: 0 <= i < |rows| ==> ParseVocabV2.Clean(rows[i], "word_id") == ""
    ensures LongSpec(rows, newId) == []
  {
    NoKeptIds(rows, newId);
    LongFoldKeys(rows, Standard(newId));
  }

  lemma {:induction false} NoKeptIds(rows: seq<Row>, newId: string -> string)
    requires forall i :: 0 <= i < |rows| ==> ParseVocabV2.Clean(rows[i], "word_id") == ""
    ensures KeptIds(rows, Standard(newId).read) == []
    decreases |rows|
  {
    if rows != [] {
      NoKeptIds(rows[..|rows| - 1], newId);
    }
  }

  /**
   * As written, after a long-form import every later file is read as long
   * form: a file with ordinary headers and no `word_id` column then yields
   * nothing from its header rows, whatever the flexible branch would have
   * found, and the import falls through to the headerless parse.
   */
  lemma StaleHeaders(detected: seq<string>, rows: seq<Row>, plain: seq<seq<string>>, env: Env)
    requires IsLongForm(detected)
    requires forall i :: 0 <= i < |rows| ==> ParseVocabV2.Clean(rows[i], "word_id") == ""
    ensures HandleParsed(detected, rows, plain, env) == Dispatch([], plain, env)
  {
    NoIdsNoWords(rows, env.wordId);
  }

  /**
   * Deciding on the file's own headers, a file whose headers are not long
   * form is read by the flexible branch, and its words are imported whenever
   * there are any.
   */
  lemma OwnHeaders(rows: seq<Row>, plain: seq<seq<string>>, env: Env)
    requires !IsLongForm(FirstRowKeys(rows, env.fold))
    ensures Flexible(rows, Headers, env.fold, env.json, env.rowId) != [] ==>
      HandleImport(rows, plain, env) == Imported(Flexible(rows, Headers, env.fold, env.json, env.rowId))
    ensures Flexible(rows, Headers, env.fold, env.json, env.rowId) == [] ==>
      HandleImport(rows, plain, env) == Dispatch([], plain, env)
  {
  }

  /**
   * What that fall-through does to an ordinary file: read without headers,
   * its header line (`kanji,hiragana,meaning`, say) is a row like any other,
   * and is kept as a word whenever its second and third names are not blank.
   */
  lemma HeaderLineKept(line: seq<string>, id: string)
    requires |line| >= 3 && !IsBlank(line[1]) && !IsBlank(line[2])
    ensures Kept(PlainItem(line, id))
    ensures PlainItem(line, id).hiragana == Trim(line[1]) && PlainItem(line, id).meaning == Trim(line[2])
  {
    TrimSpec(line[1]);
    TrimSpec(line[2]);
  }
}
