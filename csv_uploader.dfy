/**
 * The CSV import of src/components/CSVUploader.tsx, from decoded rows on:
 * header normalisation, alias lookup, the long-form branch (one row per
 * sense, folded by `word_id`), the flexible-header branch with JSON cells,
 * the headerless positional branch, and the order in which they are tried.
 */
module CsvUploader {
  import opened Optional
  import opened Strings
  import opened Vocabulary
  import opened OrderedMaps
  import ParseVocabV2

  /* ---------- Header normalisation ---------- */

  /** `.replace(/^\uFEFF/, "")`: a leading byte-order mark removed. */
  function DropBom(s: string): string {
    if s != "" && s[0] == '\U{FEFF}' then s[1..] else s
  }

  /** `.replace(/\s+/g, " ")`: every run of whitespace becomes one space. */
  function Collapse(s: string): string
    decreases |s|
  {
    if s == "" then ""
    else if IsWhite(s[0]) then " " + Collapse(s[1 + LeadingWhite(s[1..])..])
    else [s[0]] + Collapse(s[1..])
  }

  /** The only whitespace is single spaces. */
  predicate Collapsed(s: string) {
    (forall i :: 0 <= i < |s| && IsWhite(s[i]) ==> s[i] == ' ') &&
    (forall i :: 0 <= i < |s| - 1 ==> !(IsWhite(s[i]) && IsWhite(s[i + 1])))
  }

  /** A character in front of a collapsed string keeps it collapsed unless it makes a second space or is other whitespace. */
  lemma ConsCollapsed(c: char, t: string)
    requires Collapsed(t)
    requires IsWhite(c) ==> c == ' ' && (t == "" || !IsWhite(t[0]))
    ensures Collapsed([c] + t)
  {
    var u := [c] + t;
    assert forall i :: 1 <= i < |u| ==> u[i] == t[i - 1];
  }

  /** `Collapse` leaves single spaces only, and empties nothing but the empty string. */
  lemma {:induction false} CollapseShape(s: string)
    ensures Collapsed(Collapse(s))
    ensures Collapse(s) == "" <==> s == ""
    ensures Collapse(s) != "" ==> (IsWhite(Collapse(s)[0]) <==> IsWhite(s[0]))
    decreases |s|
  {
    if s != "" {
      if IsWhite(s[0]) {
        var n := LeadingWhite(s[1..]);
        var rest := s[1 + n..];
        CollapseShape(rest);
        assert rest == s[1..][n..];
        assert rest != "" ==> !IsWhite(rest[0]);
        ConsCollapsed(' ', Collapse(rest));
      } else {
        CollapseShape(s[1..]);
        ConsCollapsed(s[0], Collapse(s[1..]));
      }
    }
  }

  /** `Collapse` changes nothing on a string whose only whitespace is single spaces. */
  lemma {:induction false} CollapseFixed(s: string)
    requires Collapsed(s)
    ensures Collapse(s) == s
    decreases |s|
  {
    if s != "" {
      var t := s[1..];
      assert Collapsed(t) by {
        assert forall i :: 0 <= i < |t| ==> t[i] == s[i + 1];
      }
      if IsWhite(s[0]) {
        assert s[0] == ' ';
        if |s| > 1 {
          assert !IsWhite(s[1]);
        }
        assert LeadingWhite(t) == 0;
        assert s[1 + 0..] == t;
      }
      CollapseFixed(t);
    }
  }

  /** `Collapse` leaves single spaces only, and changes nothing more on a string that has no other whitespace. */
  lemma CollapseSpec(s: string)
    ensures Collapsed(Collapse(s))
    ensures Collapsed(s) ==> Collapse(s) == s
    ensures Collapse(s) == "" <==> s == ""
    ensures Collapse(s) != "" ==> (IsWhite(Collapse(s)[0]) <==> IsWhite(s[0]))
  {
    CollapseShape(s);
    if Collapsed(s) {
      CollapseFixed(s);
    }
  }

  /** `Collapse` is idempotent. */
  lemma CollapseTwice(s: string)
    ensures Collapse(Collapse(s)) == Collapse(s)
  {
    CollapseSpec(s);
    CollapseSpec(Collapse(s));
  }

  /** `norm`: diacritics stripped, byte-order mark dropped, trimmed, lower-cased, whitespace runs collapsed. */
  function Norm(s: string, f: TextFold): string {
    Collapse(f.lower(Trim(DropBom(f.strip(s)))))
  }

  /** `Object.keys(raw).forEach((k) => (normalized[norm(k)] = raw[k]))`. */
  function NormalizeRow(raw: Row, f: TextFold): (r: Row)
    ensures |r| == |raw|
    ensures forall i :: 0 <= i < |raw| ==> r[i] == (Norm(raw[i].0, f), raw[i].1)
  {
    seq(|raw|, i requires 0 <= i < |raw| => (Norm(raw[i].0, f), raw[i].1))
  }

  /* ---------- Alias lookup ---------- */

  const KanjiKeys := ["kanji", "chu kanji", "chu", "word", "kanji/kana"]
  const HiraKeys := ["hiragana", "kana", "furigana", "reading", "yomi", "phien am", "phien am hiragana"]
  const MeaningKeys := ["nghia", "nghia viet", "meaning", "translation", "viet", "vietnamese", "vi"]
  const SinoKeys := ["am han viet", "am hán việt", "han viet", "hanviet", "amhanviet", "sino", "sino_vietnamese"]
  const ExSentKeys := ["cau mau", "mau cau", "vi du", "example", "sentence", "sample", "cau vi du"]
  const ExMeanKeys := ["y nghia cau mau", "y nghia cau", "nghia cau mau", "giai nghia", "sentence meaning", "example meaning"]
  const MeaningsJsonKeys := ["meanings", "nghia json", "nghia list", "nghia[]"]
  const ExamplesJsonKeys := ["examples", "vi du json", "cau mau json", "examples json"]
  const RenKeys := ["ren", "連"]
  const GoKeys := ["go", "合"]
  const RuiKeys := ["rui", "類"]
  const KanKeys := ["kan", "関"]
  const TaiKeys := ["tai", "対"]
  const KanyoKeys := ["kanyo", "慣"]
  const MeiKeys := ["mei", "名"]

  /** The alias `k` holds a cell that is not blank. */
  predicate Filled(row: Row, k: string) {
    Trim(Cell(row, k)) != ""
  }

  /** The trimmed value of the first alias, in list order, whose cell is not blank; "" if none. */
  function FirstFilled(row: Row, keys: seq<string>): (v: string)
    ensures Trimmed(v)
    decreases |keys|
  {
    if keys == [] then ""
    else if Filled(row, keys[0]) then Trim(Cell(row, keys[0]))
    else FirstFilled(row, keys[1..])
  }

  /** `pickByKeys`: the loop over the aliases that returns at the first filled one. */
  method PickByKeys(row: Row, keys: seq<string>) returns (v: string)
    ensures v == FirstFilled(row, keys)
  {
    var i := 0;
    while i < |keys|
      invariant 0 <= i <= |keys|
      invariant FirstFilled(row, keys[i..]) == FirstFilled(row, keys)
    {
      var t := Trim(Cell(row, keys[i]));
      if t != "" {
        return t;
      }
      assert keys[i..][1..] == keys[i + 1..];
      i := i + 1;
    }
    return "";
  }

  /** A cell is filled exactly when it is not blank. */
  lemma FilledSpec(row: Row, k: string)
    ensures Filled(row, k) <==> !IsBlank(Cell(row, k))
  {
    TrimSpec(Cell(row, k));
  }

  /** The position of the first filled alias, `|keys|` when there is none. */
  function FirstFilledAt(row: Row, keys: seq<string>): (n: nat)
    ensures n <= |keys|
    decreases |keys|
  {
    if keys == [] then 0
    else if Filled(row, keys[0]) then 0
    else 1 + FirstFilledAt(row, keys[1..])
  }

  /**
   * The value picked is the trimmed cell of the first filled alias, every
   * alias before it being blank or absent, and "" exactly when no alias is
   * filled.
   */
  lemma {:induction false} FirstFilledSpec(row: Row, keys: seq<string>)
    ensures forall j :: 0 <= j < FirstFilledAt(row, keys) ==> !Filled(row, keys[j])
    ensures FirstFilledAt(row, keys) < |keys| ==>
      Filled(row, keys[FirstFilledAt(row, keys)]) &&
      FirstFilled(row, keys) == Trim(Cell(row, keys[FirstFilledAt(row, keys)]))
    ensures FirstFilled(row, keys) == "" <==> FirstFilledAt(row, keys) == |keys|
    decreases |keys|
  {
    if keys != [] && !Filled(row, keys[0]) {
      FirstFilledSpec(row, keys[1..]);
      assert forall j :: 1 <= j <= |keys[1..]| ==> keys[j] == keys[1..][j - 1];
    }
  }

  /* ---------- Long-form cell splitting ---------- */

  /** The long-form `splitList`: "" when blank, else the raw text split on "||", pieces trimmed, empty ones dropped. */
  function SplitList(s: string): seq<string> {
    if Trim(s) != "" then Pieces(s, ParseVocabV2.ListSep) else []
  }

  /** The long-form `splitPairs`: the `jp::vi` pairs of the pieces, those with an empty `jp` dropped. */
  function SplitPairs(s: string): seq<Pair> {
    Filter(ParseVocabV2.PairsOf(SplitList(s)), ParseVocabV2.HasJp)
  }

  /** The pieces are non-empty and trimmed, and a blank cell has none. */
  lemma SplitListSpec(s: string)
    ensures forall i :: 0 <= i < |SplitList(s)| ==> SplitList(s)[i] != "" && Trimmed(SplitList(s)[i])
    ensures IsBlank(s) ==> SplitList(s) == [] && SplitPairs(s) == []
  {
    TrimSpec(s);
  }

  /** The pairs kept are those of the pieces with a non-empty `jp`, which is trimmed, and no translation is "". */
  lemma SplitPairsSpec(s: string)
    ensures forall p :: p in SplitPairs(s) <==> p in ParseVocabV2.PairsOf(SplitList(s)) && p.jp != ""
    ensures forall p :: p in SplitPairs(s) ==> Trimmed(p.jp) && p.vi != Some("")
  {
    var xs := SplitList(s);
    forall p | p in SplitPairs(s) ensures Trimmed(p.jp) && p.vi != Some("") {
      var i :| 0 <= i < |xs| && p == ParseVocabV2.PairsOf(xs)[i];
      assert p == ParseVocabV2.PairOf(xs[i]);
    }
  }

  /* ---------- uniqueBy ---------- */

  /** `uniqueBy`, as a value: the values of a map filled with `set(key(it), it)` in order. */
  function UniqueBySpec<T, K(==, !new)>(arr: seq<T>, key: T -> K): seq<T> {
    Values(FromList(arr, key))
  }

  /** `uniqueBy`: the `Map` filled in a loop, then its values. */
  method UniqueBy<T, K(==, !new)>(arr: seq<T>, key: T -> K) returns (r: seq<T>)
    ensures r == UniqueBySpec(arr, key)
  {
    var m: OMap<K, T> := Empty();
    var i := 0;
    while i < |arr|
      invariant 0 <= i <= |arr|
      invariant m == FromList(arr[..i], key)
    {
      assert arr[..i + 1][..i] == arr[..i];
      m := Put(m, key(arr[i]), arr[i]);
      i := i + 1;
    }
    assert arr[..i] == arr;
    r := Values(m);
  }

  /**
   * The keys of the result are distinct and are the keys of the input in
   * first-appearance order; an element survives exactly when it is the last
   * one with its key.
   */
  lemma UniqueByKeeps<T, K(!new)>(arr: seq<T>, key: T -> K, v: T)
    ensures KeysOf(UniqueBySpec(arr, key), key) == Dedup(KeysOf(arr, key))
    ensures Distinct(KeysOf(UniqueBySpec(arr, key), key))
    ensures v in UniqueBySpec(arr, key) <==> LastWith(arr, key, key(v)) == Some(v)
  {
    FromListValuesKeys(arr, key);
    FromListKeys(arr, key);
    FromListValues(arr, key, v);
  }

  /** Under a key that tells every two elements of `xs` apart, `p` is the last element with its key. */
  lemma {:induction false} LastWithOnly<T, K>(xs: seq<T>, key: T -> K, p: T)
    requires p in xs
    requires forall q :: q in xs && key(q) == key(p) ==> q == p
    ensures LastWith(xs, key, key(p)) == Some(p)
    decreases |xs|
  {
    var last := xs[|xs| - 1];
    var init := xs[..|xs| - 1];
    assert xs == init + [last];
    if key(last) != key(p) {
      assert p in init;
      LastWithOnly(init, key, p);
    }
  }

  /** The text key the source deduplicates pairs by: `${jp}__${vi ?? ""}`. */
  function PairKeyText(p: Pair): string {
    p.jp + "__" + p.vi.GetOr("")
  }

  /** Two different pairs that the text key merges into one. */
  lemma PairKeyTextCollides()
    ensures Pair("a__b", None) != Pair("a", Some("b__"))
    ensures PairKeyText(Pair("a__b", None)) == PairKeyText(Pair("a", Some("b__")))
    ensures UniqueBySpec([Pair("a__b", None), Pair("a", Some("b__"))], PairKeyText) == [Pair("a", Some("b__"))]
  {
    var a := Pair("a__b", None);
    var b := Pair("a", Some("b__"));
    var k := "a__b__";
    assert PairKeyText(a) == k;
    assert PairKeyText(b) == k;
    assert [a, b][..1] == [a] && [a][..0] == [];
    var m0: OMap<string, Pair> := FromList([], PairKeyText);
    assert m0.keys == [];
    var m1 := FromList([a], PairKeyText);
    assert m1 == Put(m0, k, a);
    assert m1.keys == [k];
    var m2 := FromList([a, b], PairKeyText);
    assert m2.keys == [k] && m2.vals[k] == b;
    assert Values(m2)[0] == b;
  }

  /** `uniqueBy` on pairs as the long form calls it, keyed by the text `PairKeyText`. */
  function UniqueText(xs: seq<Pair>): seq<Pair> {
    UniqueBySpec(xs, PairKeyText)
  }

  /** A collocation cell holding both colliding pairs keeps only the second one. */
  lemma CollidingPairsMerged()
    ensures MergeGroup(None, [Pair("a__b", None), Pair("a", Some("b__"))]) == Some([Pair("a", Some("b__"))])
  {
    PairKeyTextCollides();
    assert [] + [Pair("a__b", None), Pair("a", Some("b__"))] == [Pair("a__b", None), Pair("a", Some("b__"))];
  }

  /** A pair the text key cannot confuse: no `_` in its Japanese text, and no empty translation. */
  predicate Underscoreless(p: Pair) {
    '_' !in p.jp && p.vi != Some("")
  }

  /** The first `_` of the text key comes right after the Japanese text. */
  lemma KeyTextFirst(p: Pair)
    requires '_' !in p.jp
    ensures PairKeyText(p)[|p.jp|] == '_'
    ensures forall i :: 0 <= i < |p.jp| ==> PairKeyText(p)[i] != '_'
  {
  }

  /** On such pairs the text key tells pairs apart. */
  lemma PairKeyTextInjective(p: Pair, q: Pair)
    requires Underscoreless(p) && Underscoreless(q)
    ensures PairKeyText(p) == PairKeyText(q) <==> p == q
  {
    KeyTextFirst(p);
    KeyTextFirst(q);
    var k1, k2 := PairKeyText(p), PairKeyText(q);
    if k1 == k2 {
      assert p.jp == k1[..|p.jp|] && q.jp == k2[..|q.jp|];
      assert p.vi.GetOr("") == k1[|p.jp| + 2..] && q.vi.GetOr("") == k2[|q.jp| + 2..];
    }
  }

  /** Under a key that tells the elements apart, `uniqueBy` keeps every element exactly once and invents none. */
  lemma UniqueByExact<T, K(!new)>(xs: seq<T>, key: T -> K)
    requires forall p, q :: p in xs && q in xs && key(p) == key(q) ==> p == q
    ensures Distinct(UniqueBySpec(xs, key))
    ensures forall p :: p in UniqueBySpec(xs, key) <==> p in xs
  {
    forall p | p in xs ensures p in UniqueBySpec(xs, key) {
      LastWithOnly(xs, key, p);
      UniqueByKeeps(xs, key, p);
    }
    forall p | p in UniqueBySpec(xs, key) ensures p in xs {
      UniqueByKeeps(xs, key, p);
    }
    var r := UniqueBySpec(xs, key);
    var ks := KeysOf(r, key);
    forall i, j | 0 <= i < j < |r| ensures r[i] != r[j] {
      UniqueByKeeps(xs, key, r[i]);
      assert ks[i] == key(r[i]) && ks[j] == key(r[j]);
    }
  }

  /**
   * On pairs the text key cannot confuse, the long form's deduplication
   * keeps every distinct pair exactly once and invents none.
   */
  lemma UniqueTextExact(xs: seq<Pair>)
    requires forall p :: p in xs ==> Underscoreless(p)
    ensures Distinct(UniqueText(xs))
    ensures forall p :: p in UniqueText(xs) <==> p in xs
  {
    forall p, q | p in xs && q in xs && PairKeyText(p) == PairKeyText(q) ensures p == q {
      PairKeyTextInjective(p, q);
    }
    UniqueByExact(xs, PairKeyText);
  }

  /** The key deduplication evidently means: the pair itself, an absent translation counting as "". */
  function PairKey(p: Pair): (string, string) {
    (p.jp, p.vi.GetOr(""))
  }

  /** `uniqueBy` on pairs, keyed by `PairKey`. */
  function UniquePairs(xs: seq<Pair>): seq<Pair> {
    UniqueBySpec(xs, PairKey)
  }

  /**
   * On pairs whose translation is never the empty string (as `splitPairs`
   * and `buildExamples` produce) the deduplication keeps every distinct
   * pair exactly once and invents none.
   */
  lemma UniquePairsExact(xs: seq<Pair>)
    requires forall p :: p in xs ==> p.vi != Some("")
    ensures Distinct(UniquePairs(xs))
    ensures forall p :: p in UniquePairs(xs) <==> p in xs
  {
    forall p, q | p in xs && q in xs && PairKey(p) == PairKey(q) ensures p == q {
    }
    UniqueByExact(xs, PairKey);
  }

  /* ---------- Long-form branch ---------- */

  const LongRequired := ["word_id", "sense_index", "meaning_vi"]

  /** `isLongForm`: every long-form column is among the headers. */
  predicate IsLongForm(headers: seq<string>) {
    forall k :: k in LongRequired ==> k in headers
  }

  /** The seven collocation cells of a row, split into pairs. */
  datatype Groups = Groups(
    ren: seq<Pair>, go: seq<Pair>, rui: seq<Pair>, kan: seq<Pair>,
    tai: seq<Pair>, kanyo: seq<Pair>, mei: seq<Pair>)

  /** What the long-form loop reads from one row. */
  datatype LongRow = LongRow(
    id: string, kanji: string, hira: string, meaning: string, sino: string,
    examples: seq<Pair>, groups: Groups)

  /** The cells of one long-form row, trimmed and split. */
  function ReadLong(raw: Row): LongRow {
    LongRow(
      ParseVocabV2.Clean(raw, "word_id"),
      ParseVocabV2.Clean(raw, "kanji"),
      ParseVocabV2.Clean(raw, "hiragana"),
      ParseVocabV2.Clean(raw, "meaning_vi"),
      ParseVocabV2.Clean(raw, "sino_vietnamese"),
      ParseVocabV2.ExamplesOf(SplitList(Cell(raw, "examples_jp")), SplitList(Cell(raw, "examples_vi"))),
      Groups(
        SplitPairs(Cell(raw, "ren")), SplitPairs(Cell(raw, "go")), SplitPairs(Cell(raw, "rui")),
        SplitPairs(Cell(raw, "kan")), SplitPairs(Cell(raw, "tai")), SplitPairs(Cell(raw, "kanyo")),
        SplitPairs(Cell(raw, "mei"))))
  }

  /** The loop skips a row without id, without meaning, or without both spellings. */
  predicate Skipped(r: LongRow) {
    r.id == "" || r.meaning == "" || (r.kanji == "" && r.hira == "")
  }

  /** The record a word starts from, under the id `id`. */
  function StartItem(r: LongRow, id: string): Item {
    Item(id, Or(r.kanji, r.hira), r.hira, r.meaning, Some(false), None, Some([]), Some([]), Some(NoGroups), None, None, None)
  }

  /** `mergeCol`: a non-empty list joins the group, deduplicated; an empty one leaves it as it is. */
  function MergeGroup(prev: Option<seq<Pair>>, list: seq<Pair>): Option<seq<Pair>> {
    if list == [] then prev else Some(UniqueText(prev.GetOr([]) + list))
  }

  function MergeGroups(c: Collocations, g: Groups): Collocations {
    Collocations(
      MergeGroup(c.ren, g.ren), MergeGroup(c.go, g.go), MergeGroup(c.rui, g.rui),
      MergeGroup(c.kan, g.kan), MergeGroup(c.tai, g.tai), MergeGroup(c.kanyo, g.kanyo),
      MergeGroup(c.mei, g.mei))
  }

  /** What a kept row does to its word's record. */
  function Absorb(cur: Item, r: LongRow): Item {
    cur.(
      sinoVietnamese := if r.sino != "" && !Truthy(cur.sinoVietnamese) then Some(r.sino) else cur.sinoVietnamese,
      meanings := Some(Dedup(Compact(cur.meanings.GetOr([]) + [r.meaning]))),
      examples := Some(UniqueText(cur.examples.GetOr([]) + r.examples)),
      collocations := Some(MergeGroups(cur.collocations.GetOr(NoGroups), r.groups)),
      kanji := if cur.kanji == "" && r.kanji != "" then r.kanji else cur.kanji,
      hiragana := if cur.hiragana == "" && r.hira != "" then r.hira else cur.hiragana)
  }

  /**
   * The pieces of one iteration: how a row is read, how a kept row changes
   * its word's record, and the id a new word receives.
   */
  datatype LongOps = LongOps(read: Row -> LongRow, absorb: (Item, LongRow) -> Item, newId: string -> string)

  /** The operations of the source, with the given id source. */
  function Standard(newId: string -> string): LongOps {
    LongOps(ReadLong, Absorb, newId)
  }

  /** One iteration of the long-form loop. */
  function LongStep(m: OMap<string, Item>, r: LongRow, ops: LongOps): (m': OMap<string, Item>)
    requires m.Valid()
    ensures m'.Valid()
  {
    if Skipped(r) then m
    else
      var cur := if r.id in m.vals then m.vals[r.id] else StartItem(r, ops.newId(r.id));
      Put(m, r.id, ops.absorb(cur, r))
  }

  /** The `byId` map after the loop has run over `rows`. */
  function LongFold(rows: seq<Row>, ops: LongOps): (m: OMap<string, Item>)
    ensures m.Valid()
  {
    if rows == [] then Empty()
    else LongStep(LongFold(rows[..|rows| - 1], ops), ops.read(rows[|rows| - 1]), ops)
  }

  /** The final filter: some meaning, a reading, and some spelling. */
  predicate Retained(it: Item) {
    (it.meaning != "" || (it.meanings.Some? && |it.meanings.value| > 0)) && it.hiragana != "" &&
    (it.kanji != "" || it.hiragana != "")
  }

  /** The long-form branch, as a value. */
  function LongSpec(rows: seq<Row>, newId: string -> string): seq<Item> {
    Filter(Values(LongFold(rows, Standard(newId))), Retained)
  }

  /** `mergeCol` on one group. */
  method MergeCol(prev: Option<seq<Pair>>, list: seq<Pair>) returns (r: Option<seq<Pair>>)
    ensures r == MergeGroup(prev, list)
  {
    r := prev;
    if |list| > 0 {
      var merged := UniqueBy(prev.GetOr([]) + list, PairKeyText);
      r := Some(merged);
    }
  }

  /** The seven `mergeCol` calls on the record's collocations. */
  method MergeCols(c: Collocations, g: Groups) returns (c': Collocations)
    ensures c' == MergeGroups(c, g)
  {
    c' := c;
    var ren := MergeCol(c'.ren, g.ren);
    c' := c'.(ren := ren);
    var go := MergeCol(c'.go, g.go);
    c' := c'.(go := go);
    var rui := MergeCol(c'.rui, g.rui);
    c' := c'.(rui := rui);
    var kan := MergeCol(c'.kan, g.kan);
    c' := c'.(kan := kan);
    var tai := MergeCol(c'.tai, g.tai);
    c' := c'.(tai := tai);
    var kanyo := MergeCol(c'.kanyo, g.kanyo);
    c' := c'.(kanyo := kanyo);
    var mei := MergeCol(c'.mei, g.mei);
    c' := c'.(mei := mei);
  }

  /** The loop body's updates of `current`, field by field, for a kept row. */
  method AbsorbInto(cur: Item, r: LongRow) returns (cur': Item)
    ensures cur' == Absorb(cur, r)
  {
    cur' := cur;
    if r.sino != "" && !Truthy(cur'.sinoVietnamese) {
      cur' := cur'.(sinoVietnamese := Some(r.sino));
    }
    cur' := cur'.(meanings := Some(Dedup(Compact(cur'.meanings.GetOr([]) + [r.meaning]))));
    var examples := UniqueBy(cur'.examples.GetOr([]) + r.examples, PairKeyText);
    cur' := cur'.(examples := Some(examples));
    var collocs := MergeCols(cur'.collocations.GetOr(NoGroups), r.groups);
    cur' := cur'.(collocations := Some(collocs));
    if cur'.kanji == "" && r.kanji != "" {
      cur' := cur'.(kanji := r.kanji);
    }
    if cur'.hiragana == "" && r.hira != "" {
      cur' := cur'.(hiragana := r.hira);
    }
  }

  /**
   * The long-form loop: rows without id, meaning or spelling skipped, the
   * word's record fetched or started, updated, and stored back in `byId`.
   */
  method FillById(rows: seq<Row>, ops: LongOps) returns (byId: OMap<string, Item>)
    requires ops.absorb == Absorb
    ensures byId == LongFold(rows, ops)
  {
    byId := Empty();
    var i := 0;
    while i < |rows|
      invariant 0 <= i <= |rows|
      invariant byId == LongFold(rows[..i], ops)
    {
      assert rows[..i + 1][..i] == rows[..i];
      var r := ops.read(rows[i]);
      if r.id != "" && r.meaning != "" && (r.kanji != "" || r.hira != "") {
        var current := if r.id in byId.vals then byId.vals[r.id] else StartItem(r, ops.newId(r.id));
        current := AbsorbInto(current, r);
        byId := Put(byId, r.id, current);
      }
      i := i + 1;
    }
    assert rows[..i] == rows;
  }

  /** The long-form branch of `buildItemsFromHeaderRows`: the loop, then the final filter. */
  method LongForm(rows: seq<Row>, newId: string -> string) returns (items: seq<Item>)
    ensures items == LongSpec(rows, newId)
  {
    var byId := FillById(rows, Standard(newId));
    items := Filter(Values(byId), Retained);
  }

  /* ---------- What the long-form branch computes ---------- */

  /** The ids of the kept rows, in row order. */
  function KeptIds(rows: seq<Row>, read: Row -> LongRow): seq<string> {
    if rows == [] then []
    else
      var r := read(rows[|rows| - 1]);
      KeptIds(rows[..|rows| - 1], read) + (if Skipped(r) then [] else [r.id])
  }

  /** The kept rows of the word `k`, as read, in row order. */
  function RowsFor(rows: seq<Row>, read: Row -> LongRow, k: string): (rs: seq<LongRow>)
    ensures forall r :: r in rs ==> !Skipped(r) && r.id == k
  {
    if rows == [] then []
    else
      var r := read(rows[|rows| - 1]);
      RowsFor(rows[..|rows| - 1], read, k) + (if !Skipped(r) && r.id == k then [r] else [])
  }

  /** A word's record: started from its first kept row, then each of its kept rows absorbed in order. */
  function WordItem(rs: seq<LongRow>, ops: LongOps, k: string): Item
    requires rs != []
  {
    if |rs| == 1 then ops.absorb(StartItem(rs[0], ops.newId(k)), rs[0])
    else ops.absorb(WordItem(rs[..|rs| - 1], ops, k), rs[|rs| - 1])
  }

  /** The map holds one entry per distinct kept id, in first-appearance order. */
  lemma {:induction false} LongFoldKeys(rows: seq<Row>, ops: LongOps)
    ensures LongFold(rows, ops).keys == Dedup(KeptIds(rows, ops.read))
    decreases |rows|
  {
    if rows != [] {
      var init := rows[..|rows| - 1];
      var r := ops.read(rows[|rows| - 1]);
      LongFoldKeys(init, ops);
      var m := LongFold(init, ops);
      assert LongFold(rows, ops) == LongStep(m, r, ops);
      if Skipped(r) {
        assert KeptIds(rows, ops.read) == KeptIds(init, ops.read);
      } else {
        assert KeptIds(rows, ops.read) == KeptIds(init, ops.read) + [r.id];
        PutKeys(m, KeptIds(init, ops.read), r.id, LongStep(m, r, ops).vals[r.id]);
      }
    }
  }

  /** One row more: the entry of `k` follows `WordItem` if it did before. */
  lemma LongFoldEntryStep(rows: seq<Row>, ops: LongOps, k: string)
    requires rows != []
    requires var init := rows[..|rows| - 1];
      (k in LongFold(init, ops).vals <==> RowsFor(init, ops.read, k) != []) &&
      (k in LongFold(init, ops).vals ==> LongFold(init, ops).vals[k] == WordItem(RowsFor(init, ops.read, k), ops, k))
    ensures k in LongFold(rows, ops).vals <==> RowsFor(rows, ops.read, k) != []
    ensures k in LongFold(rows, ops).vals ==> LongFold(rows, ops).vals[k] == WordItem(RowsFor(rows, ops.read, k), ops, k)
  {
    var init := rows[..|rows| - 1];
    var r := ops.read(rows[|rows| - 1]);
    var m := LongFold(init, ops);
    var rs := RowsFor(init, ops.read, k);
    assert LongFold(rows, ops) == LongStep(m, r, ops);
    if !Skipped(r) && r.id == k {
      assert RowsFor(rows, ops.read, k) == rs + [r];
      assert (rs + [r])[..|rs + [r]| - 1] == rs;
    } else {
      assert RowsFor(rows, ops.read, k) == rs;
    }
  }

  /**
   * Each word's record depends only on that word's own kept rows, in
   * order: it exists exactly when there is one, and it is `WordItem` of them.
   */
  lemma {:induction false} LongFoldEntry(rows: seq<Row>, ops: LongOps, k: string)
    ensures k in LongFold(rows, ops).vals <==> RowsFor(rows, ops.read, k) != []
    ensures k in LongFold(rows, ops).vals ==> LongFold(rows, ops).vals[k] == WordItem(RowsFor(rows, ops.read, k), ops, k)
    decreases |rows|
  {
    if rows != [] {
      LongFoldEntry(rows[..|rows| - 1], ops, k);
      LongFoldEntryStep(rows, ops, k);
    }
  }

  function MeaningsOf(rs: seq<LongRow>): seq<string> {
    if rs == [] then [] else MeaningsOf(rs[..|rs| - 1]) + [rs[|rs| - 1].meaning]
  }

  /** The first non-empty `sino_vietnamese` among the rows. */
  function FirstSino(rs: seq<LongRow>): (o: Option<string>)
    ensures o.Some? ==> o.value != ""
  {
    if rs == [] then None
    else
      var p := FirstSino(rs[..|rs| - 1]);
      if p.None? && rs[|rs| - 1].sino != "" then Some(rs[|rs| - 1].sino) else p
  }

  /** The first non-empty reading among the rows, "" if none. */
  function FirstHira(rs: seq<LongRow>): string {
    if rs == [] then ""
    else
      var p := FirstHira(rs[..|rs| - 1]);
      if p == "" then rs[|rs| - 1].hira else p
  }

  /** All example pairs of the rows, in order. */
  function AllExamples(rs: seq<LongRow>): seq<Pair> {
    if rs == [] then [] else AllExamples(rs[..|rs| - 1]) + rs[|rs| - 1].examples
  }

  /* What `Absorb` does to each field, stated on its own so that a proof about one field does not unfold the others. */

  ghost predicate KeepsIdentity(absorb: (Item, LongRow) -> Item) {
    forall c, r {:trigger absorb(c, r)} :: absorb(c, r).id == c.id && absorb(c, r).meaning == c.meaning &&
      absorb(c, r).starred == c.starred && (c.kanji != "" ==> absorb(c, r).kanji == c.kanji)
  }

  ghost predicate GathersMeanings(absorb: (Item, LongRow) -> Item) {
    forall c, r {:trigger absorb(c, r)} :: absorb(c, r).meanings == Some(Dedup(Compact(c.meanings.GetOr([]) + [r.meaning])))
  }

  ghost predicate FirstSinoWins(absorb: (Item, LongRow) -> Item) {
    forall c, r {:trigger absorb(c, r)} ::
      absorb(c, r).sinoVietnamese == if r.sino != "" && !Truthy(c.sinoVietnamese) then Some(r.sino) else c.sinoVietnamese
  }

  ghost predicate FirstHiraWins(absorb: (Item, LongRow) -> Item) {
    forall c, r {:trigger absorb(c, r)} ::
      absorb(c, r).hiragana == if c.hiragana == "" && r.hira != "" then r.hira else c.hiragana
  }

  ghost predicate GathersExamples(absorb: (Item, LongRow) -> Item) {
    forall c, r {:trigger absorb(c, r)} :: absorb(c, r).examples == Some(UniqueText(c.examples.GetOr([]) + r.examples))
  }

  /** `Absorb` has each of these properties. */
  lemma AbsorbFields()
    ensures KeepsIdentity(Absorb) && GathersMeanings(Absorb) && FirstSinoWins(Absorb)
    ensures FirstHiraWins(Absorb) && GathersExamples(Absorb)
  {
  }

  /**
   * A word's record has a fresh id, keeps its first row's meaning and
   * spelling, and is not starred.
   */
  lemma {:induction false} WordIdentity(rs: seq<LongRow>, ops: LongOps, k: string)
    requires KeepsIdentity(ops.absorb)
    requires rs != [] && forall r :: r in rs ==> !Skipped(r)
    ensures var w := WordItem(rs, ops, k);
      w.id == ops.newId(k) && w.meaning == rs[0].meaning && w.starred == Some(false) &&
      w.kanji == Or(rs[0].kanji, rs[0].hira)
    decreases |rs|
  {
    assert rs[0] in rs;
    if |rs| > 1 {
      var init := rs[..|rs| - 1];
      assert forall r :: r in init ==> r in rs;
      WordIdentity(init, ops, k);
      assert init[0] == rs[0];
    }
  }

  /** The meanings of kept rows are never empty. */
  lemma {:induction false} MeaningsNonEmpty(rs: seq<LongRow>)
    requires forall r :: r in rs ==> !Skipped(r)
    ensures forall x :: x in MeaningsOf(rs) ==> x != ""
    decreases |rs|
  {
    if rs != [] {
      var init := rs[..|rs| - 1];
      assert forall r :: r in init ==> r in rs;
      MeaningsNonEmpty(init);
      assert rs[|rs| - 1] in rs;
    }
  }

  /** A word lists the distinct meanings of its rows, in first-appearance order. */
  lemma {:induction false} WordMeanings(rs: seq<LongRow>, ops: LongOps, k: string)
    requires GathersMeanings(ops.absorb)
    requires rs != [] && forall r :: r in rs ==> !Skipped(r)
    ensures WordItem(rs, ops, k).meanings == Some(Dedup(MeaningsOf(rs)))
    decreases |rs|
  {
    var last := rs[|rs| - 1];
    var init := rs[..|rs| - 1];
    assert last in rs;
    if |rs| == 1 {
      assert MeaningsOf(rs) == [] + [last.meaning];
      CompactNonEmpty([last.meaning]);
    } else {
      assert forall r :: r in init ==> r in rs;
      WordMeanings(init, ops, k);
      MeaningsNonEmpty(init);
      GatherStep(MeaningsOf(init), last.meaning);
      assert MeaningsOf(rs) == MeaningsOf(init) + [last.meaning];
    }
  }

  /** Adding one more non-empty meaning to the distinct list of earlier ones. */
  lemma GatherStep(ms: seq<string>, m: string)
    requires m != "" && forall x :: x in ms ==> x != ""
    ensures Dedup(Compact(Dedup(ms) + [m])) == Dedup(ms + [m])
  {
    var d := Dedup(ms);
    CompactNonEmpty(d + [m]);
    DedupIsDistinct(ms);
    DedupDistinct(d);
    DedupSnoc(d, m);
    DedupSnoc(ms, m);
  }

  /** A word takes the first non-empty Sino-Vietnamese reading of its rows. */
  lemma {:induction false} WordSino(rs: seq<LongRow>, ops: LongOps, k: string)
    requires FirstSinoWins(ops.absorb)
    requires rs != []
    ensures WordItem(rs, ops, k).sinoVietnamese == FirstSino(rs)
    decreases |rs|
  {
    if |rs| > 1 {
      WordSino(rs[..|rs| - 1], ops, k);
    } else {
      assert FirstSino(rs[..0]) == None;
    }
  }

  /** A word takes the first non-empty kana reading of its rows. */
  lemma {:induction false} WordHira(rs: seq<LongRow>, ops: LongOps, k: string)
    requires FirstHiraWins(ops.absorb)
    requires rs != []
    ensures WordItem(rs, ops, k).hiragana == FirstHira(rs)
    decreases |rs|
  {
    if |rs| > 1 {
      WordHira(rs[..|rs| - 1], ops, k);
    } else {
      assert FirstHira(rs[..0]) == "";
    }
  }

  /**
   * A word's examples are distinct and are exactly the examples of its rows,
   * when the text key cannot confuse them: no `_` in an example's Japanese
   * text, and no empty translation (which `buildExamples` guarantees).
   */
  lemma {:induction false} WordExamples(rs: seq<LongRow>, ops: LongOps, k: string)
    requires GathersExamples(ops.absorb)
    requires rs != [] && forall r :: r in rs ==> forall p :: p in r.examples ==> Underscoreless(p)
    ensures WordItem(rs, ops, k).examples.Some?
    ensures Distinct(WordItem(rs, ops, k).examples.value)
    ensures forall p :: p in WordItem(rs, ops, k).examples.value <==> p in AllExamples(rs)
    decreases |rs|
  {
    var last := rs[|rs| - 1];
    var init := rs[..|rs| - 1];
    assert last in rs;
    if |rs| == 1 {
      assert AllExamples(rs) == AllExamples(init) + last.examples;
      ExamplesStep([], last.examples, []);
    } else {
      assert forall r :: r in init ==> r in rs;
      WordExamples(init, ops, k);
      AllExamplesClean(init);
      ExamplesStep(WordItem(init, ops, k).examples.value, last.examples, AllExamples(init));
      assert AllExamples(rs) == AllExamples(init) + last.examples;
    }
  }

  lemma {:induction false} AllExamplesClean(rs: seq<LongRow>)
    requires forall r :: r in rs ==> forall p :: p in r.examples ==> Underscoreless(p)
    ensures forall p :: p in AllExamples(rs) ==> Underscoreless(p)
    decreases |rs|
  {
    if rs != [] {
      var init := rs[..|rs| - 1];
      assert forall r :: r in init ==> r in rs;
      AllExamplesClean(init);
      assert rs[|rs| - 1] in rs;
    }
  }

  /** Adding one row's examples to the distinct list of earlier ones. */
  lemma ExamplesStep(prev: seq<Pair>, ex: seq<Pair>, all: seq<Pair>)
    requires forall p :: p in prev <==> p in all
    requires forall p :: p in all + ex ==> Underscoreless(p)
    ensures Distinct(UniqueText(prev + ex))
    ensures forall p :: p in UniqueText(prev + ex) <==> p in all + ex
  {
    UniqueTextExact(prev + ex);
  }

  /** A word survives the final filter exactly when one of its kept rows has a reading. */
  lemma {:induction false} WordRetained(rs: seq<LongRow>, ops: LongOps, k: string)
    requires KeepsIdentity(ops.absorb) && FirstHiraWins(ops.absorb)
    requires rs != [] && forall r :: r in rs ==> !Skipped(r)
    ensures Retained(WordItem(rs, ops, k)) <==> exists r :: r in rs && r.hira != ""
  {
    WordIdentity(rs, ops, k);
    WordHira(rs, ops, k);
    FirstHiraSpec(rs);
    assert rs[0] in rs;
  }

  lemma {:induction false} FirstHiraSpec(rs: seq<LongRow>)
    ensures FirstHira(rs) == "" <==> forall r :: r in rs ==> r.hira == ""
    decreases |rs|
  {
    if rs != [] {
      var init := rs[..|rs| - 1];
      FirstHiraSpec(init);
      assert rs == init + [rs[|rs| - 1]];
    }
  }

  /**
   * The long-form result, before the final filter: one record per distinct
   * kept id, in order of first appearance, each built from that id's rows.
   */
  lemma LongWords(rows: seq<Row>, ops: LongOps)
    ensures var m := LongFold(rows, ops); var ks := Dedup(KeptIds(rows, ops.read));
      m.keys == ks && |Values(m)| == |ks| &&
      forall i :: 0 <= i < |ks| ==>
        RowsFor(rows, ops.read, ks[i]) != [] && Values(m)[i] == WordItem(RowsFor(rows, ops.read, ks[i]), ops, ks[i])
  {
    LongFoldKeys(rows, ops);
    var m := LongFold(rows, ops);
    forall i | 0 <= i < |m.keys|
      ensures RowsFor(rows, ops.read, m.keys[i]) != [] &&
        Values(m)[i] == WordItem(RowsFor(rows, ops.read, m.keys[i]), ops, m.keys[i])
    {
      LongFoldEntry(rows, ops, m.keys[i]);
    }
  }

  lemma {:induction false} ZippedClean(jpArr: seq<string>, viArr: seq<string>, n: nat)
    ensures forall p :: p in ParseVocabV2.Zipped(jpArr, viArr, n) ==> p.vi != Some("")
    decreases n
  {
    if n > 0 {
      ZippedClean(jpArr, viArr, n - 1);
    }
  }

  /** A row's examples never carry an empty translation: a missing one is absent. */
  lemma ReadLongClean(raw: Row)
    ensures forall p :: p in ReadLong(raw).examples ==> p.vi != Some("")
  {
    var jp := SplitList(Cell(raw, "examples_jp"));
    var vi := SplitList(Cell(raw, "examples_vi"));
    ZippedClean(jp, vi, ParseVocabV2.Max(|jp|, |vi|));
  }

  /**
   * `mergeCol`: an empty list leaves a group as it was; otherwise, when the
   * text key cannot confuse the pairs, the group becomes the distinct pairs
   * of the old group and the list together (`CollidingPairsMerged` shows
   * what happens when it can).
   */
  lemma MergeGroupSpec(prev: Option<seq<Pair>>, list: seq<Pair>)
    requires forall p :: p in prev.GetOr([]) + list ==> Underscoreless(p)
    ensures list == [] ==> MergeGroup(prev, list) == prev
    ensures list != [] ==> MergeGroup(prev, list).Some? && Distinct(MergeGroup(prev, list).value)
    ensures list != [] ==> forall p :: p in MergeGroup(prev, list).value <==> p in prev.GetOr([]) || p in list
  {
    if list != [] {
      UniqueTextExact(prev.GetOr([]) + list);
    }
  }
}
