/**
 * The word editor of src/components/EditWordDialog.tsx: the conversions
 * between a record's lists and the dialog's text fields, and `handleSave`,
 * which builds the edited record from the fields.
 */
module EditWordDialog {
  import opened Optional
  import opened Strings
  import opened Vocabulary
  import ParseVocabV2

  /* ---------- Examples as lines ---------- */

  /** One example as an editable line: `jp || vi`, or `jp` alone when it has no translation. */
  function ExampleLine(e: Pair): string {
    if e.vi.Some? && e.vi.value != "" then e.jp + " || " + e.vi.value else e.jp
  }

  function ExampleLines(xs: seq<Pair>): (r: seq<string>)
    ensures |r| == |xs|
    ensures forall i :: 0 <= i < |xs| ==> r[i] == ExampleLine(xs[i])
  {
    seq(|xs|, i requires 0 <= i < |xs| => ExampleLine(xs[i]))
  }

  /** `toExampleLines`: one line per example. */
  function ToExampleLines(arr: Option<seq<Pair>>): string {
    Join(ExampleLines(arr.GetOr([])), "\n")
  }

  /** One non-blank line read back: `jp` before the first `||`, `vi` up to the next one. */
  function ExampleOf(l: string): Pair {
    var parts := Split(l, "||");
    Pair(Trim(parts[0]), NonEmptyOr(if |parts| > 1 then Trim(parts[1]) else ""))
  }

  /**
   * `parseExampleLines`: one example per non-blank line. The source splits
   * on `\r?\n`; splitting on `\n` cuts at the same places, and the `\r` it
   * leaves at a line's end is removed by the `trim` that follows.
   */
  function ParseExampleLines(s: string): (r: seq<Pair>)
    ensures |r| == |Pieces(s, "\n")|
  {
    var ls := Pieces(s, "\n");
    seq(|ls|, i requires 0 <= i < |ls| => ExampleOf(ls[i]))
  }

  /** An example the line form can carry: a trimmed, non-empty `jp`, a trimmed non-empty `vi` if any, neither with `|` or a line break. */
  predicate LineSafe(e: Pair) {
    e.jp != "" && Trimmed(e.jp) && '|' !in e.jp && '\n' !in e.jp &&
    (e.vi.Some? ==> e.vi.value != "" && Trimmed(e.vi.value) && '|' !in e.vi.value && '\n' !in e.vi.value)
  }

  /** `jp || vi` splits into `jp` and `vi` with their margins, when neither holds a `|`. */
  lemma ExampleParts(jp: string, vi: string)
    requires '|' !in jp && '|' !in vi
    ensures Split(jp + " || " + vi, "||") == [jp + " ", " " + vi]
  {
    var a := jp + " ";
    var b := " " + vi;
    assert jp + " || " + vi == a + "||" + b;
    SplitAfter(a, "||", b);
    SplitWithout(b, "||");
  }

  /** `jp || vi` with trimmed, non-empty parts free of `|` reads back as the pair. */
  lemma ExampleOfJoined(jp: string, vi: string)
    requires jp != "" && Trimmed(jp) && '|' !in jp && vi != "" && Trimmed(vi) && '|' !in vi
    ensures ExampleOf(jp + " || " + vi) == Pair(jp, Some(vi))
  {
    ExampleParts(jp, vi);
    TrimPadded("", jp, " ");
    assert "" + jp + " " == jp + " ";
    TrimPadded(" ", vi, "");
    assert " " + vi + "" == " " + vi;
  }

  /** A line-safe example's line is trimmed, not empty, and a single line. */
  lemma ExampleLineShape(e: Pair)
    requires LineSafe(e)
    ensures ExampleLine(e) != "" && Trimmed(ExampleLine(e)) && '\n' !in ExampleLine(e)
  {
    if e.vi.Some? {
      var l := ExampleLine(e);
      assert l[0] == e.jp[0];
      assert l[|l| - 1] == e.vi.value[|e.vi.value| - 1];
    }
  }

  /** A line-safe example is read back from its line. */
  lemma ExampleLineRoundTrip(e: Pair)
    requires LineSafe(e)
    ensures ExampleLine(e) != "" && Trimmed(ExampleLine(e)) && '\n' !in ExampleLine(e)
    ensures ExampleOf(ExampleLine(e)) == e
  {
    ExampleLineShape(e);
    if e.vi.Some? {
      ExampleOfJoined(e.jp, e.vi.value);
    } else {
      SplitWithout(e.jp, "||");
      TrimSpec(e.jp);
    }
  }

  /** `parseExampleLines(toExampleLines(xs)) == xs` for line-safe examples. */
  lemma ExamplesRoundTrip(xs: seq<Pair>)
    requires forall i :: 0 <= i < |xs| ==> LineSafe(xs[i])
    ensures ParseExampleLines(ToExampleLines(Some(xs))) == xs
  {
    var ls := ExampleLines(xs);
    forall i | 0 <= i < |xs| ensures ls[i] != "" && Trimmed(ls[i]) && '\n' !in ls[i] && ExampleOf(ls[i]) == xs[i] {
      ExampleLineRoundTrip(xs[i]);
    }
    PiecesJoin(ls, "\n", "");
    assert "" + "\n" + "" == "\n";
  }

  /* ---------- Collocation groups as text ---------- */

  /** One pair as text: `jp::vi`, or `jp` alone when it has no translation. */
  function PairText(c: Pair): string {
    if c.vi.Some? && c.vi.value != "" then c.jp + "::" + c.vi.value else c.jp
  }

  function PairTexts(xs: seq<Pair>): (r: seq<string>)
    ensures |r| == |xs|
    ensures forall i :: 0 <= i < |xs| ==> r[i] == PairText(xs[i])
  {
    seq(|xs|, i requires 0 <= i < |xs| => PairText(xs[i]))
  }

  /** `toPairsString`: the pairs joined with ` || `. */
  function ToPairsString(arr: Option<seq<Pair>>): string {
    Join(PairTexts(arr.GetOr([])), " || ")
  }

  /**
   * `parsePairsString`: the trimmed non-blank `||` pieces, each split on
   * `::`. Unlike the CSV `splitPairs`, a piece with an empty `jp` is kept.
   */
  function ParsePairsString(s: string): (r: seq<Pair>)
    ensures |r| == |Pieces(s, "||")|
  {
    ParseVocabV2.PairsOf(Pieces(s, "||"))
  }

  /** A pair the text form can carry: trimmed, non-empty parts with no `|` or `:`. */
  predicate TextSafe(c: Pair) {
    c.jp != "" && Trimmed(c.jp) && '|' !in c.jp && ':' !in c.jp &&
    (c.vi.Some? ==> c.vi.value != "" && Trimmed(c.vi.value) && '|' !in c.vi.value && ':' !in c.vi.value)
  }

  lemma PairTextRoundTrip(c: Pair)
    requires TextSafe(c)
    ensures PairText(c) != "" && Trimmed(PairText(c)) && '|' !in PairText(c)
    ensures ParseVocabV2.PairOf(PairText(c)) == c
  {
    if c.vi.Some? {
      ParseVocabV2.PairOfJoined(c.jp, c.vi.value);
      assert PairText(c)[|PairText(c)| - 1] == c.vi.value[|c.vi.value| - 1];
    } else {
      ParseVocabV2.PairOfPlain(c.jp);
    }
  }

  /** `parsePairsString(toPairsString(xs)) == xs` for text-safe pairs. */
  lemma PairsRoundTrip(xs: seq<Pair>)
    requires forall i :: 0 <= i < |xs| ==> TextSafe(xs[i])
    ensures ParsePairsString(ToPairsString(Some(xs))) == xs
  {
    var ts := PairTexts(xs);
    forall i | 0 <= i < |xs|
      ensures ts[i] != "" && Trimmed(ts[i]) && '|' !in ts[i] && ParseVocabV2.PairOf(ts[i]) == xs[i]
    {
      PairTextRoundTrip(xs[i]);
    }
    assert " " + "||" + " " == " || ";
    PiecesJoin(ts, "||", " ");
    var text := Join(ts, " || ");
    assert ToPairsString(Some(xs)) == text;
    assert Pieces(text, "||") == ts;
    var r := ParseVocabV2.PairsOf(ts);
    assert forall i :: 0 <= i < |xs| ==> r[i] == xs[i];
  }

  /* ---------- Meanings as text ---------- */

  /** The meanings field: the list joined with ` | `. */
  function MeaningsText(ms: Option<seq<string>>): string {
    Join(ms.GetOr([]), " | ")
  }

  /** The trimmed non-blank pieces between `|`s; no piece gives no list. */
  function ParseMeanings(text: string): (r: Option<seq<string>>)
    ensures r.Some? ==> r.value != []
  {
    var mms := Pieces(text, "|");
    if mms != [] then Some(mms) else None
  }

  /** Trimmed, non-empty meanings without `|` survive the field; an empty list comes back as none. */
  lemma MeaningsRoundTrip(ms: seq<string>)
    requires forall i :: 0 <= i < |ms| ==> ms[i] != "" && Trimmed(ms[i]) && '|' !in ms[i]
    ensures ParseMeanings(MeaningsText(Some(ms))) == if ms == [] then None else Some(ms)
  {
    PiecesJoin(ms, "|", " ");
    assert " " + "|" + " " == " | ";
  }

  /* ---------- The dialog ---------- */

  /** The dialog's text fields. */
  datatype Form = Form(
    kanji: string, hiragana: string, meaning: string, sino: string, meanings: string, examples: string,
    ren: string, go: string, rui: string, kan: string, tai: string, kanyo: string, mei: string)

  /** The fields as the dialog fills them from a record when it opens. */
  function FormOf(v: Item): Form {
    // `value.collocations?.ren` and so on: every group is absent when there are no collocations.
    var g := v.collocations.GetOr(NoGroups);
    Form(
      v.kanji, v.hiragana, v.meaning, v.sinoVietnamese.GetOr(""), MeaningsText(v.meanings), ToExampleLines(v.examples),
      ToPairsString(g.ren), ToPairsString(g.go), ToPairsString(g.rui), ToPairsString(g.kan), ToPairsString(g.tai),
      ToPairsString(g.kanyo), ToPairsString(g.mei))
  }

  /** Some collocation field is not blank. */
  predicate HasAnyColloc(f: Form) {
    !IsBlank(f.ren) || !IsBlank(f.go) || !IsBlank(f.rui) || !IsBlank(f.kan) ||
    !IsBlank(f.tai) || !IsBlank(f.kanyo) || !IsBlank(f.mei)
  }

  /** The collocations `handleSave` stores. */
  function SavedCollocations(f: Form): Option<Collocations> {
    if HasAnyColloc(f) then
      Some(Collocations(
        Some(ParsePairsString(f.ren)), Some(ParsePairsString(f.go)), Some(ParsePairsString(f.rui)),
        Some(ParsePairsString(f.kan)), Some(ParsePairsString(f.tai)),
        if f.kanyo != "" then Some(ParsePairsString(f.kanyo)) else None,
        if f.mei != "" then Some(ParsePairsString(f.mei)) else None))
    else None
  }

  /** A list that is empty is stored as none. */
  function NonEmptyList<T>(xs: seq<T>): Option<seq<T>> {
    if xs != [] then Some(xs) else None
  }

  /** `handleSave`: the record with the edited fields replaced. */
  function HandleSave(v: Item, f: Form): Item {
    v.(
      kanji := Trim(f.kanji),
      hiragana := Trim(f.hiragana),
      meaning := Trim(f.meaning),
      sinoVietnamese := NonEmptyOr(Trim(f.sino)),
      meanings := ParseMeanings(f.meanings),
      examples := NonEmptyList(ParseExampleLines(f.examples)),
      collocations := SavedCollocations(f))
  }

  /**
   * Saving keeps every field the dialog does not edit (id, star, schedule,
   * legacy example fields), trims the three text fields, and stores no
   * empty Sino-Vietnamese reading, meanings list or examples list.
   */
  lemma SaveKeeps(v: Item, f: Form)
    ensures var n := HandleSave(v, f);
      n.(kanji := v.kanji, hiragana := v.hiragana, meaning := v.meaning, sinoVietnamese := v.sinoVietnamese,
        meanings := v.meanings, examples := v.examples, collocations := v.collocations) == v &&
      Trimmed(n.kanji) && Trimmed(n.hiragana) && Trimmed(n.meaning) &&
      (n.sinoVietnamese.Some? ==> n.sinoVietnamese.value != "" && Trimmed(n.sinoVietnamese.value)) &&
      (n.meanings.Some? ==> n.meanings.value != []) &&
      (n.examples.Some? ==> n.examples.value != [])
  {
  }

  /**
   * Collocations are dropped exactly when all seven fields are blank;
   * otherwise the five base groups are always stored, and `kanyo`/`mei` only
   * when their field is not empty.
   */
  lemma SaveCollocations(v: Item, f: Form)
    ensures var c := HandleSave(v, f).collocations;
      (c.None? <==> (IsBlank(f.ren) && IsBlank(f.go) && IsBlank(f.rui) && IsBlank(f.kan) &&
        IsBlank(f.tai) && IsBlank(f.kanyo) && IsBlank(f.mei))) &&
      (c.Some? ==> c.value.ren.Some? && c.value.go.Some? && c.value.rui.Some? && c.value.kan.Some? && c.value.tai.Some?) &&
      (c.Some? ==> (c.value.kanyo.Some? <==> f.kanyo != "") && (c.value.mei.Some? <==> f.mei != ""))
  {
  }

  /** A stored group the dialog gives back: present, with text-safe pairs. */
  predicate GroupSafe(g: Option<seq<Pair>>) {
    g.Some? && forall i :: 0 <= i < |g.value| ==> TextSafe(g.value[i])
  }

  /** An optional group the dialog gives back: absent, or present with at least one text-safe pair. */
  predicate ExtraSafe(g: Option<seq<Pair>>) {
    g.Some? ==> g.value != [] && forall i :: 0 <= i < |g.value| ==> TextSafe(g.value[i])
  }

  /** Collocations the dialog gives back unchanged. */
  predicate CollocationsSafe(c: Option<Collocations>) {
    c.Some? ==>
      GroupSafe(c.value.ren) && GroupSafe(c.value.go) && GroupSafe(c.value.rui) &&
      GroupSafe(c.value.kan) && GroupSafe(c.value.tai) && ExtraSafe(c.value.kanyo) && ExtraSafe(c.value.mei) &&
      (c.value.ren.value != [] || c.value.go.value != [] || c.value.rui.value != [] ||
       c.value.kan.value != [] || c.value.tai.value != [] || c.value.kanyo.Some? || c.value.mei.Some?)
  }

  /** A group field is blank exactly when its group is absent or empty. */
  lemma PairsStringBlank(g: Option<seq<Pair>>)
    requires g.Some? ==> forall i :: 0 <= i < |g.value| ==> TextSafe(g.value[i])
    ensures IsBlank(ToPairsString(g)) <==> g.None? || g.value == []
    ensures ToPairsString(g) == "" <==> g.None? || g.value == []
  {
    var ts := PairTexts(g.GetOr([]));
    if ts != [] {
      PairTextRoundTrip(g.value[0]);
      JoinHead(ts, " || ");
      assert ToPairsString(g)[0] == ts[0][0];
    }
  }

  /** A join of several pieces starts with the first piece. */
  lemma JoinHead(ts: seq<string>, sep: string)
    requires ts != [] && ts[0] != ""
    ensures |Join(ts, sep)| >= |ts[0]| && Join(ts, sep)[0] == ts[0][0]
  {
  }

  /** Collocations that are safe come back unchanged through the seven fields. */
  lemma CollocationsRoundTrip(v: Item)
    requires CollocationsSafe(v.collocations)
    ensures SavedCollocations(FormOf(v)) == v.collocations
  {
    var c := v.collocations;
    var f := FormOf(v);
    if c.Some? {
      var g := c.value;
      PairsStringBlank(g.ren);
      PairsStringBlank(g.go);
      PairsStringBlank(g.rui);
      PairsStringBlank(g.kan);
      PairsStringBlank(g.tai);
      PairsStringBlank(g.kanyo);
      PairsStringBlank(g.mei);
      PairsRoundTrip(g.ren.value);
      PairsRoundTrip(g.go.value);
      PairsRoundTrip(g.rui.value);
      PairsRoundTrip(g.kan.value);
      PairsRoundTrip(g.tai.value);
      if g.kanyo.Some? {
        PairsRoundTrip(g.kanyo.value);
      }
      if g.mei.Some? {
        PairsRoundTrip(g.mei.value);
      }
    } else {
      assert f.ren == "" && f.go == "" && f.rui == "" && f.kan == "" && f.tai == "" && f.kanyo == "" && f.mei == "";
    }
  }

  /** A record the dialog gives back unchanged when it is saved without edits. */
  predicate Editable(v: Item) {
    Trimmed(v.kanji) && Trimmed(v.hiragana) && Trimmed(v.meaning) &&
    (v.sinoVietnamese.Some? ==> v.sinoVietnamese.value != "" && Trimmed(v.sinoVietnamese.value)) &&
    (v.meanings.Some? ==> (v.meanings.value != [] &&
      forall i :: 0 <= i < |v.meanings.value| ==> v.meanings.value[i] != "" && Trimmed(v.meanings.value[i]) && '|' !in v.meanings.value[i])) &&
    (v.examples.Some? ==> v.examples.value != [] && forall i :: 0 <= i < |v.examples.value| ==> LineSafe(v.examples.value[i])) &&
    CollocationsSafe(v.collocations)
  }

  /** Opening the dialog on an editable record and saving without edits gives the record back. */
  lemma SaveUnedited(v: Item)
    requires Editable(v)
    ensures HandleSave(v, FormOf(v)) == v
  {
    var f := FormOf(v);
    assert Trim(f.kanji) == v.kanji by { TrimSpec(v.kanji); }
    assert Trim(f.hiragana) == v.hiragana by { TrimSpec(v.hiragana); }
    assert Trim(f.meaning) == v.meaning by { TrimSpec(v.meaning); }
    assert NonEmptyOr(Trim(f.sino)) == v.sinoVietnamese by {
      if v.sinoVietnamese.Some? {
        TrimSpec(v.sinoVietnamese.value);
      }
    }
    assert ParseMeanings(f.meanings) == v.meanings by { MeaningsRoundTrip(v.meanings.GetOr([])); }
    assert NonEmptyList(ParseExampleLines(f.examples)) == v.examples by { ExamplesRoundTrip(v.examples.GetOr([])); }
    assert SavedCollocations(f) == v.collocations by { CollocationsRoundTrip(v); }
  }
}
