/**
 * The long-form reader of src/lib/parseVocabV2.ts: one decoded row per
 * sense, grouped by `word_id` into multi-sense `VocabV2` records whose
 * senses come out sorted by index.
 */
module ParseVocabV2 {
  import opened Optional
  import opened Strings
  import opened Vocabulary
  import opened OrderedMaps
  import opened Sorting

  const ListSep := "||"
  const PairSep := "::"

  /** `clean(r[k])`: the trimmed cell, "" when absent. */
  function Clean(row: Row, k: string): string {
    Trim(Cell(row, k))
  }

  /** `splitList`: the trimmed, non-empty `||`-separated pieces of a non-blank string. */
  function SplitList(s: string): seq<string> {
    if Trim(s) != "" then Pieces(Trim(s), ListSep) else []
  }

  /** Every piece is non-empty and trimmed, and a blank string has none. */
  lemma SplitListPieces(s: string)
    ensures forall i :: 0 <= i < |SplitList(s)| ==> SplitList(s)[i] != "" && Trimmed(SplitList(s)[i])
    ensures IsBlank(s) ==> SplitList(s) == []
  {
    TrimSpec(s);
  }

  /** One trimmed, non-empty piece without `|` is a list of itself. */
  lemma SplitListSingle(s: string)
    requires s != "" && Trimmed(s) && '|' !in s
    ensures SplitList(s) == [s]
  {
    TrimSpec(s);
    SplitWithout(s, ListSep);
    assert TrimAll([s]) == [Trim(s)];
    assert Compact([s]) == [s] + Compact([]);
  }

  /** `const [jp, vi] = x.split("::").map(trim)`, `{ jp, vi: vi || undefined }`. */
  function PairOf(x: string): (p: Pair)
  {
    var parts := Split(x, PairSep);
    Pair(Trim(parts[0]), if |parts| > 1 then NonEmptyOr(Trim(parts[1])) else None)
  }

  /** A piece without `:` is a pair with no translation. */
  lemma PairOfPlain(x: string)
    requires Trimmed(x) && ':' !in x
    ensures PairOf(x) == Pair(x, None)
  {
    SplitWithout(x, PairSep);
    TrimTrimmed(x);
  }

  /** `jp::vi` with trimmed parts free of `:` reads back as the pair. */
  lemma PairOfJoined(jp: string, vi: string)
    requires Trimmed(jp) && Trimmed(vi) && ':' !in jp && ':' !in vi
    ensures PairOf(jp + PairSep + vi) == Pair(jp, NonEmptyOr(vi))
  {
    SplitAfter(jp, PairSep, vi);
    SplitWithout(vi, PairSep);
    TrimTrimmed(jp);
    TrimTrimmed(vi);
  }

  /** `.map(...)` of `PairOf` over the pieces. */
  function PairsOf(xs: seq<string>): (r: seq<Pair>)
    ensures |r| == |xs|
    ensures forall i :: 0 <= i < |xs| ==> r[i] == PairOf(xs[i])
  {
    seq(|xs|, i requires 0 <= i < |xs| => PairOf(xs[i]))
  }

  predicate HasJp(p: Pair) {
    p.jp != ""
  }

  /** `splitPairs`: the pairs of the pieces, the ones with an empty `jp` dropped. */
  function SplitPairs(s: string): seq<Pair> {
    Filter(PairsOf(SplitList(s)), HasJp)
  }

  /** The pairs kept are those of the pieces whose `jp` is not empty, and every kept `jp` is trimmed. */
  lemma SplitPairsKept(s: string)
    ensures forall p :: p in SplitPairs(s) <==> p in PairsOf(SplitList(s)) && p.jp != ""
    ensures forall p :: p in SplitPairs(s) ==> p.jp != "" && Trimmed(p.jp)
  {
  }

  /** The `i`-th entry of a list, `""` past its end (`arr[i] || ""`). */
  function At(xs: seq<string>, i: nat): string {
    if i < |xs| then xs[i] else ""
  }

  function Max(a: nat, b: nat): nat {
    if a < b then b else a
  }

  /**
   * The pairs `buildExamples` collects from positions `0 .. n-1`: the i-th
   * Japanese and the i-th Vietnamese line side by side, a position where
   * both are missing skipped.
   */
  function Zipped(jpArr: seq<string>, viArr: seq<string>, n: nat): (r: seq<Pair>)
    ensures |r| <= n
  {
    if n == 0 then []
    else
      var i := n - 1;
      Zipped(jpArr, viArr, i) +
        (if At(jpArr, i) == "" && At(viArr, i) == "" then [] else [Pair(At(jpArr, i), NonEmptyOr(At(viArr, i)))])
  }

  /** The example list of two split columns. */
  function ExamplesOf(jpArr: seq<string>, viArr: seq<string>): seq<Pair> {
    Zipped(jpArr, viArr, Max(|jpArr|, |viArr|))
  }

  /**
   * When neither list holds an empty entry, as with `splitList` results, no
   * position is skipped: the examples are as many as the longer list's lines.
   */
  lemma {:induction false} ZippedFull(jpArr: seq<string>, viArr: seq<string>, n: nat)
    requires n <= Max(|jpArr|, |viArr|)
    requires forall i :: 0 <= i < |jpArr| ==> jpArr[i] != ""
    requires forall i :: 0 <= i < |viArr| ==> viArr[i] != ""
    ensures |Zipped(jpArr, viArr, n)| == n
    ensures forall i :: 0 <= i < n ==>
      Zipped(jpArr, viArr, n)[i] == Pair(At(jpArr, i), NonEmptyOr(At(viArr, i)))
  {
    if n > 0 {
      ZippedFull(jpArr, viArr, n - 1);
    }
  }

  /** The loop of `buildExamples` over two already split lists. */
  method ZipExamples(jpArr: seq<string>, viArr: seq<string>) returns (list: seq<Pair>)
    ensures list == ExamplesOf(jpArr, viArr)
  {
    var n := Max(|jpArr|, |viArr|);
    list := [];
    var i := 0;
    while i < n
      invariant 0 <= i <= n
      invariant list == Zipped(jpArr, viArr, i)
    {
      var jpLine, viLine := At(jpArr, i), At(viArr, i);
      if jpLine == "" && viLine == "" {
        i := i + 1;
        continue;
      }
      list := list + [Pair(Or(jpLine, ""), NonEmptyOr(viLine))];
      i := i + 1;
    }
  }

  /**
   * `buildExamples`: the i-th Japanese and the i-th Vietnamese example
   * sentence side by side, as many pairs as the longer list has lines.
   */
  method BuildExamples(jp: string, vi: string) returns (list: seq<Pair>)
    ensures list == ExamplesOf(SplitList(jp), SplitList(vi))
    ensures |list| == Max(|SplitList(jp)|, |SplitList(vi)|)
    ensures forall i :: 0 <= i < |list| ==>
      list[i].jp == At(SplitList(jp), i) && list[i].vi == NonEmptyOr(At(SplitList(vi), i))
  {
    var jpArr, viArr := SplitList(jp), SplitList(vi);
    list := ZipExamples(jpArr, viArr);
    SplitListPieces(jp);
    SplitListPieces(vi);
    ZippedFull(jpArr, viArr, Max(|jpArr|, |viArr|));
  }

  /** `buildCollocs`: all seven groups, each the pairs of its column. */
  function BuildCollocs(r: Row): (c: Collocations)
    ensures c.ren.Some? && c.go.Some? && c.rui.Some? && c.kan.Some?
    ensures c.tai.Some? && c.kanyo.Some? && c.mei.Some?
    ensures c.ren.value == SplitPairs(Cell(r, "ren")) && c.go.value == SplitPairs(Cell(r, "go"))
    ensures c.rui.value == SplitPairs(Cell(r, "rui")) && c.kan.value == SplitPairs(Cell(r, "kan"))
    ensures c.tai.value == SplitPairs(Cell(r, "tai")) && c.kanyo.value == SplitPairs(Cell(r, "kanyo"))
    ensures c.mei.value == SplitPairs(Cell(r, "mei"))
  {
    Collocations(
      Some(SplitPairs(Cell(r, "ren"))), Some(SplitPairs(Cell(r, "go"))),
      Some(SplitPairs(Cell(r, "rui"))), Some(SplitPairs(Cell(r, "kan"))),
      Some(SplitPairs(Cell(r, "tai"))), Some(SplitPairs(Cell(r, "kanyo"))),
      Some(SplitPairs(Cell(r, "mei"))))
  }

  /** `clean(r.tags)` split on commas and trimmed; empty tags are kept. */
  function Tags(t: string): seq<string> {
    if t != "" then TrimAll(Split(t, ",")) else []
  }

  /** The trimmed `word_id` of a row. */
  function WordId(r: Row): string {
    Clean(r, "word_id")
  }

  /** The record a word's first row opens. */
  function NewWord(r: Row, wordId: string): VocabV2 {
    VocabV2(wordId, Clean(r, "kanji"), NonEmptyOr(Clean(r, "hiragana")),
      NonEmptyOr(Clean(r, "jlpt")), Some(Tags(Clean(r, "tags"))), [], None)
  }

  /** What a row contributes to its sense besides the index: meaning, examples and collocations. */
  function RowContent(r: Row): Sense {
    Sense(0, Clean(r, "meaning_vi"),
      ExamplesOf(SplitList(Clean(r, "examples_jp")), SplitList(Clean(r, "examples_vi"))),
      BuildCollocs(r))
  }

  /**
   * How the loop reads a kept row: `Number(..)` on a `sense_index` cell, and
   * the sense content. The loop's properties hold for any reader; the
   * parser uses `StandardReader`.
   */
  datatype Reader = Reader(toNumber: string -> int, content: Row -> Sense)

  function StandardReader(toNumber: string -> int): Reader {
    Reader(toNumber, RowContent)
  }

  /**
   * The sense a row adds as the word's sense number `count + 1`: its index is
   * the `sense_index` cell read as a number, or `count + 1` when that cell
   * is empty.
   */
  function SenseAt(r: Row, count: nat, rd: Reader): Sense {
    rd.content(r).(index := if Cell(r, "sense_index") != "" then rd.toNumber(Cell(r, "sense_index")) else count + 1)
  }

  /** One iteration of the loop over the rows. */
  function ParseStep(m: OMap<string, VocabV2>, r: Row, rd: Reader): (m': OMap<string, VocabV2>)
    requires m.Valid()
    ensures m'.Valid()
  {
    var wordId := WordId(r);
    if wordId == "" then m
    else
      var base := if wordId in m.vals then m.vals[wordId] else NewWord(r, wordId);
      Put(m, wordId, base.(senses := base.senses + [SenseAt(r, |base.senses|, rd)]))
  }

  /** The map after the loop has run over `rows`. */
  function ParseFold(rows: seq<Row>, rd: Reader): (m: OMap<string, VocabV2>)
    ensures m.Valid()
  {
    if rows == [] then Empty() else ParseStep(ParseFold(rows[..|rows| - 1], rd), rows[|rows| - 1], rd)
  }

  /** A word with its senses sorted by index. */
  function SortSenses(v: VocabV2): (w: VocabV2)
    ensures w.(senses := v.senses) == v
    ensures SortedByIndex(w.senses)
  {
    v.(senses := SortByIndex(v.senses))
  }

  /** `parseVocabV2`, as a value. */
  function ParseSpec(rows: seq<Row>, rd: Reader): seq<VocabV2> {
    SortEach(Values(ParseFold(rows, rd)))
  }

  /** Each word with its senses sorted. */
  function SortEach(vs: seq<VocabV2>): (ws: seq<VocabV2>)
    ensures |ws| == |vs|
    ensures forall i :: 0 <= i < |vs| ==> ws[i] == SortSenses(vs[i])
  {
    seq(|vs|, i requires 0 <= i < |vs| => SortSenses(vs[i]))
  }

  /** The sense object the loop builds for a row of a word that has `count` senses so far. */
  method NewSense(r: Row, count: nat, toNumber: string -> int) returns (sense: Sense)
    ensures sense == SenseAt(r, count, StandardReader(toNumber))
  {
    var index := if Cell(r, "sense_index") != "" then toNumber(Cell(r, "sense_index")) else count + 1;
    var examples := BuildExamples(Clean(r, "examples_jp"), Clean(r, "examples_vi"));
    sense := Sense(index, Clean(r, "meaning_vi"), examples, BuildCollocs(r));
  }

  /** One pass of the loop body: the row's sense appended to its word, created if new. */
  method AddRow(byId: OMap<string, VocabV2>, r: Row, toNumber: string -> int) returns (byId': OMap<string, VocabV2>)
    requires byId.Valid()
    ensures byId' == ParseStep(byId, r, StandardReader(toNumber))
  {
    byId' := byId;
    var wordId := WordId(r);
    if wordId != "" {
      var base := if wordId in byId.vals then byId.vals[wordId] else NewWord(r, wordId);
      var sense := NewSense(r, |base.senses|, toNumber);
      base := base.(senses := base.senses + [sense]);
      byId' := Put(byId, wordId, base);
    }
  }

  /** `parseVocabV2`: the `byId` map filled row by row, then its values with sorted senses. */
  method ParseVocabV2(rows: seq<Row>, toNumber: string -> int) returns (words: seq<VocabV2>)
    ensures words == ParseSpec(rows, StandardReader(toNumber))
  {
    var byId: OMap<string, VocabV2> := Empty();
    var i := 0;
    while i < |rows|
      invariant 0 <= i <= |rows|
      invariant byId == ParseFold(rows[..i], StandardReader(toNumber))
    {
      assert rows[..i + 1][..i] == rows[..i];
      byId := AddRow(byId, rows[i], toNumber);
      i := i + 1;
    }
    assert rows[..i] == rows;
    words := SortEach(Values(byId));
  }

  /** The `word_id`s of the kept rows, in row order. */
  function KeptIds(rows: seq<Row>): seq<string> {
    if rows == [] then []
    else
      var last := WordId(rows[|rows| - 1]);
      KeptIds(rows[..|rows| - 1]) + (if last == "" then [] else [last])
  }

  /** The rows whose `word_id` is `k`, in row order. */
  function RowsOf(rows: seq<Row>, k: string): (rs: seq<Row>)
    ensures |rs| <= |rows|
  {
    if rows == [] then []
    else RowsOf(rows[..|rows| - 1], k) + (if WordId(rows[|rows| - 1]) == k then [rows[|rows| - 1]] else [])
  }

  /** The senses `rs`, the rows of one word, add one after another. */
  function SensesOf(rs: seq<Row>, rd: Reader): (ss: seq<Sense>)
    ensures |ss| == |rs|
  {
    if rs == [] then [] else SensesOf(rs[..|rs| - 1], rd) + [SenseAt(rs[|rs| - 1], |rs| - 1, rd)]
  }

  /** The map holds one entry per distinct kept `word_id`, in first-appearance order. */
  lemma {:induction false} ParseFoldKeys(rows: seq<Row>, rd: Reader)
    ensures ParseFold(rows, rd).keys == Dedup(KeptIds(rows))
    decreases |rows|
  {
    if rows != [] {
      var init := rows[..|rows| - 1];
      ParseFoldKeys(init, rd);
      var last := WordId(rows[|rows| - 1]);
      var m := ParseFold(init, rd);
      assert ParseFold(rows, rd) == ParseStep(m, rows[|rows| - 1], rd);
      ParseStepKeys(m, rows[|rows| - 1], rd);
      if last != "" {
        assert KeptIds(rows) == KeptIds(init) + [last];
        DedupSnoc(KeptIds(init), last);
      } else {
        assert KeptIds(rows) == KeptIds(init);
      }
    }
  }

  /** A kept row's `word_id` joins the keys unless it is there already; a skipped row changes nothing. */
  lemma ParseStepKeys(m: OMap<string, VocabV2>, r: Row, rd: Reader)
    requires m.Valid()
    ensures ParseStep(m, r, rd).keys ==
      if WordId(r) == "" || WordId(r) in m.keys then m.keys else m.keys + [WordId(r)]
  {
  }

  /**
   * The entry under `k`, when there is one, has id `k` and one sense per row
   * of `k`, in row order; a `k` with rows has an entry.
   */
  lemma {:induction false} ParseFoldEntry(rows: seq<Row>, rd: Reader, k: string)
    ensures k in ParseFold(rows, rd).vals <==> k != "" && RowsOf(rows, k) != []
    ensures k in ParseFold(rows, rd).vals ==>
      ParseFold(rows, rd).vals[k].id == k &&
      ParseFold(rows, rd).vals[k].senses == SensesOf(RowsOf(rows, k), rd)
    decreases |rows|
  {
    if rows != [] {
      ParseFoldEntry(rows[..|rows| - 1], rd, k);
      ParseFoldEntryStep(rows, rd, k);
    }
  }

  lemma ParseFoldEntryStep(rows: seq<Row>, rd: Reader, k: string)
    requires rows != []
    requires var m := ParseFold(rows[..|rows| - 1], rd);
      (k in m.vals <==> k != "" && RowsOf(rows[..|rows| - 1], k) != []) &&
      (k in m.vals ==> m.vals[k].id == k && m.vals[k].senses == SensesOf(RowsOf(rows[..|rows| - 1], k), rd))
    ensures k in ParseFold(rows, rd).vals <==> k != "" && RowsOf(rows, k) != []
    ensures k in ParseFold(rows, rd).vals ==>
      ParseFold(rows, rd).vals[k].id == k &&
      ParseFold(rows, rd).vals[k].senses == SensesOf(RowsOf(rows, k), rd)
  {
    var init := rows[..|rows| - 1];
    var last := rows[|rows| - 1];
    var m := ParseFold(init, rd);
    assert ParseFold(rows, rd) == ParseStep(m, last, rd);
    ParseStepEntry(m, last, rd, k);
    if WordId(last) == k {
      var rs := RowsOf(rows, k);
      assert rs == RowsOf(init, k) + [last];
      assert rs[..|rs| - 1] == RowsOf(init, k);
    } else {
      assert RowsOf(rows, k) == RowsOf(init, k);
    }
  }

  /** One row adds a sense to its own word's entry, opening it if needed, and leaves every other entry alone. */
  lemma ParseStepEntry(m: OMap<string, VocabV2>, r: Row, rd: Reader, k: string)
    requires m.Valid()
    ensures k in ParseStep(m, r, rd).vals <==> k in m.vals || (k != "" && WordId(r) == k)
    ensures WordId(r) != k && k in m.vals ==> ParseStep(m, r, rd).vals[k] == m.vals[k]
    ensures WordId(r) == k && k != "" ==>
      var before := if k in m.vals then m.vals[k] else NewWord(r, k);
      ParseStep(m, r, rd).vals[k] == before.(senses := before.senses + [SenseAt(r, |before.senses|, rd)])
  {
  }

  /**
   * The kanji, reading, level and tags of a word are those of its first row:
   * later rows only add senses.
   */
  lemma {:induction false} FirstRowFields(rows: seq<Row>, rd: Reader, j: nat)
    requires j < |rows| && WordId(rows[j]) != ""
    requires forall i :: 0 <= i < j ==> WordId(rows[i]) != WordId(rows[j])
    ensures WordId(rows[j]) in ParseFold(rows, rd).vals
    ensures ParseFold(rows, rd).vals[WordId(rows[j])].(senses := [])
      == NewWord(rows[j], WordId(rows[j]))
    decreases |rows|
  {
    var k := WordId(rows[j]);
    var init := rows[..|rows| - 1];
    var m := ParseFold(init, rd);
    assert ParseFold(rows, rd) == ParseStep(m, rows[|rows| - 1], rd);
    if j < |rows| - 1 {
      assert init[j] == rows[j];
      FirstRowFields(init, rd, j);
      StepKeepsFields(m, rows[|rows| - 1], rd, k);
    } else {
      NoRowsNoEntry(init, rd, k);
    }
  }

  /** A step never changes the non-sense fields of an existing word. */
  lemma StepKeepsFields(m: OMap<string, VocabV2>, r: Row, rd: Reader, k: string)
    requires m.Valid() && k in m.vals
    ensures k in ParseStep(m, r, rd).vals
    ensures ParseStep(m, r, rd).vals[k].(senses := []) == m.vals[k].(senses := [])
  {
  }

  /** A `word_id` that no row carries has no entry. */
  lemma {:induction false} NoRowsNoEntry(rows: seq<Row>, rd: Reader, k: string)
    requires forall i :: 0 <= i < |rows| ==> WordId(rows[i]) != k
    ensures k !in ParseFold(rows, rd).vals
    decreases |rows|
  {
    if rows != [] {
      NoRowsNoEntry(rows[..|rows| - 1], rd, k);
    }
  }

  /**
   * The parsed words: one per distinct kept `word_id`, in first-appearance
   * order, each with one sense per row of that word, sorted by index with
   * equal indices (duplicates included) in row order.
   */
  lemma ParsedWords(rows: seq<Row>, rd: Reader)
    ensures |ParseSpec(rows, rd)| == |Dedup(KeptIds(rows))|
    ensures forall p :: 0 <= p < |ParseSpec(rows, rd)| ==>
      ParseSpec(rows, rd)[p].id == Dedup(KeptIds(rows))[p] &&
      ParseSpec(rows, rd)[p].senses
        == SortByIndex(SensesOf(RowsOf(rows, Dedup(KeptIds(rows))[p]), rd))
  {
    var m := ParseFold(rows, rd);
    ParseFoldKeys(rows, rd);
    forall p | 0 <= p < |m.keys|
      ensures m.vals[m.keys[p]].id == m.keys[p]
      ensures m.vals[m.keys[p]].senses == SensesOf(RowsOf(rows, m.keys[p]), rd)
    {
      ParseFoldEntry(rows, rd, m.keys[p]);
    }
  }

  /** The parsed ids are pairwise distinct and are exactly the non-blank `word_id`s. */
  lemma ParsedIds(rows: seq<Row>, rd: Reader)
    ensures Distinct(KeysOf(ParseSpec(rows, rd), IdOfWord))
    ensures forall k :: k in KeysOf(ParseSpec(rows, rd), IdOfWord) <==> k in KeptIds(rows)
  {
    ParsedWords(rows, rd);
    DedupIsDistinct(KeptIds(rows));
    assert KeysOf(ParseSpec(rows, rd), IdOfWord) == Dedup(KeptIds(rows));
  }

  function IdOfWord(v: VocabV2): string { v.id }

  /**
   * Senses sharing an index stay in row order through the sort: the sort
   * keeps duplicate indices rather than dropping them.
   */
  lemma SensesStable(rs: seq<Row>, rd: Reader, k: int)
    ensures WithIndex(SortByIndex(SensesOf(rs, rd)), k) == WithIndex(SensesOf(rs, rd), k)
  {
    SortStable(SensesOf(rs, rd), k);
  }

  /** The i-th row of a word adds the word's sense number i + 1. */
  lemma {:induction false} SensesOfRows(rs: seq<Row>, rd: Reader)
    ensures forall i :: 0 <= i < |rs| ==> SensesOf(rs, rd)[i] == SenseAt(rs[i], i, rd)
    decreases |rs|
  {
    if rs != [] {
      SensesOfRows(rs[..|rs| - 1], rd);
    }
  }

  /** A word whose rows leave `sense_index` empty gets senses 1, 2, 3, ... in row order. */
  lemma DefaultIndices(rs: seq<Row>, rd: Reader)
    requires forall i :: 0 <= i < |rs| ==> Cell(rs[i], "sense_index") == ""
    ensures forall i :: 0 <= i < |rs| ==> SensesOf(rs, rd)[i].index == i + 1
  {
    SensesOfRows(rs, rd);
  }
}
