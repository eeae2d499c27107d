/**
 * The legacy migration of src/lib/storage.ts: single-meaning records of the
 * old `tsensei-vocab` store become one-sense `VocabV2` records.
 */
module Storage {
  import opened Optional
  import opened Strings
  import opened Vocabulary
  import ParseVocabV2

  /** A loosely typed legacy field: one string, an array of strings, or nothing. */
  datatype Loose = Absent | One(s: string) | Many(xs: seq<string>)

  /** A decoded legacy record. */
  datatype V1Record = V1Record(
    id: string,
    kanji: string,
    hiragana: Option<string>,
    jlpt: Option<string>,
    tags: Loose,
    meaning: Option<string>,
    example: Loose,
    exampleMeaning: Loose,
    collocations: Option<Collocations>,
    leitner: Option<Leitner>)

  /** `Array.isArray(v) ? v : v ? [v] : []`. */
  function AsList(v: Loose): seq<string> {
    match v
    case Many(xs) => xs
    case One(s) => if s != "" then [s] else []
    case Absent => []
  }

  /** `makeExamples`: the i-th sentence and the i-th translation side by side, as many as the longer side. */
  function MakeExamples(jp: Loose, vi: Loose): seq<Pair> {
    var J := AsList(jp);
    var V := AsList(vi);
    var n := ParseVocabV2.Max(|J|, |V|);
    seq(n, i requires 0 <= i < n => Pair(ParseVocabV2.At(J, i), NonEmptyOr(ParseVocabV2.At(V, i))))
  }

  /**
   * There is one example per position of the longer side; a missing sentence
   * is "", and a missing or empty translation is absent.
   */
  lemma MakeExamplesShape(jp: Loose, vi: Loose)
    ensures |MakeExamples(jp, vi)| == ParseVocabV2.Max(|AsList(jp)|, |AsList(vi)|)
    ensures forall i :: 0 <= i < |MakeExamples(jp, vi)| ==>
      MakeExamples(jp, vi)[i].jp == (if i < |AsList(jp)| then AsList(jp)[i] else "") &&
      (MakeExamples(jp, vi)[i].vi.None? <==> i >= |AsList(vi)| || AsList(vi)[i] == "") &&
      (MakeExamples(jp, vi)[i].vi.Some? ==> MakeExamples(jp, vi)[i].vi.value == AsList(vi)[i])
  {
  }

  /**
   * On lists without empty entries the migration builds the same examples
   * as the long-form reader's `buildExamples`.
   */
  lemma MakeExamplesAsParsed(J: seq<string>, V: seq<string>)
    requires forall i :: 0 <= i < |J| ==> J[i] != ""
    requires forall i :: 0 <= i < |V| ==> V[i] != ""
    ensures MakeExamples(Many(J), Many(V)) == ParseVocabV2.ExamplesOf(J, V)
  {
    ParseVocabV2.ZippedFull(J, V, ParseVocabV2.Max(|J|, |V|));
  }

  /** `tags`: an array as is, a non-empty string split on "," with each piece trimmed, otherwise none. */
  function MigrateTags(t: Loose): seq<string> {
    match t
    case Many(xs) => xs
    case One(s) => if s != "" then TrimAll(Split(s, ",")) else []
    case Absent => []
  }

  /** Tags stored as one comma-joined string read back as the list they came from. */
  lemma TagsFromString(ts: seq<string>)
    requires ts != [] && Join(ts, ",") != ""
    requires forall i :: 0 <= i < |ts| ==> Trimmed(ts[i]) && ',' !in ts[i]
    ensures MigrateTags(One(Join(ts, ","))) == ts
  {
    SplitJoin(ts, ",");
    var r := TrimAll(Split(Join(ts, ","), ","));
    forall i | 0 <= i < |ts| ensures r[i] == ts[i] {
      TrimTrimmed(ts[i]);
    }
  }

  /** One migrated record. */
  function MigrateOne(x: V1Record): VocabV2 {
    VocabV2(
      x.id,
      x.kanji,
      x.hiragana,
      x.jlpt,
      Some(MigrateTags(x.tags)),
      [Sense(1, x.meaning.GetOr(""), MakeExamples(x.example, x.exampleMeaning), x.collocations.GetOr(NoGroups))],
      x.leitner)
  }

  /** `migrateV1toV2`: the decoded value is either an array of records (`Some`) or anything else (`None`). */
  function MigrateV1toV2(v1: Option<seq<V1Record>>): (r: seq<VocabV2>)
    ensures v1.None? ==> r == []
    ensures v1.Some? ==> |r| == |v1.value|
  {
    match v1
    case None => []
    case Some(xs) => seq(|xs|, i requires 0 <= i < |xs| => MigrateOne(xs[i]))
  }

  /**
   * Order and identity are kept, each record gets exactly one sense numbered
   * 1 carrying the old meaning (or ""), the paired examples and the
   * collocations, the tags are read as `tags` does, and the identity,
   * spelling, level and schedule are copied.
   */
  lemma MigratedRecords(xs: seq<V1Record>, i: nat)
    requires i < |xs|
    ensures var v := MigrateV1toV2(Some(xs))[i];
      v.id == xs[i].id && v.kanji == xs[i].kanji &&
      v.hiragana == xs[i].hiragana && v.jlpt == xs[i].jlpt &&
      v.leitner == xs[i].leitner &&
      |v.senses| == 1 && v.senses[0].index == 1 &&
      v.senses[0].meaningVi == (if xs[i].meaning.Some? then xs[i].meaning.value else "") &&
      v.senses[0].examples == MakeExamples(xs[i].example, xs[i].exampleMeaning) &&
      v.senses[0].collocations == (if xs[i].collocations.Some? then xs[i].collocations.value else NoGroups) &&
      v.tags == Some(MigrateTags(xs[i].tags))
  {
  }

  /**
   * The legacy form of a one-sense record: the sentences and the translations
   * as two arrays (an absent translation stored as ""), the tags as an array.
   */
  function Legacy(v: VocabV2): V1Record
    requires |v.senses| == 1
  {
    var s := v.senses[0];
    V1Record(
      v.id, v.kanji, v.hiragana, v.jlpt,
      Many(v.tags.GetOr([])),
      Some(s.meaningVi),
      Many(seq(|s.examples|, i requires 0 <= i < |s.examples| => s.examples[i].jp)),
      Many(seq(|s.examples|, i requires 0 <= i < |s.examples| => s.examples[i].vi.GetOr(""))),
      Some(s.collocations),
      v.leitner)
  }

  /**
   * Migration inverts `Legacy` on the records it can produce: one sense
   * numbered 1, tags present, and no translation that is the empty string.
   */
  lemma MigrateLegacy(v: VocabV2)
    requires |v.senses| == 1 && v.senses[0].index == 1 && v.tags.Some?
    requires forall i :: 0 <= i < |v.senses[0].examples| ==> v.senses[0].examples[i].vi != Some("")
    ensures MigrateOne(Legacy(v)) == v
  {
    var s := v.senses[0];
    var x := Legacy(v);
    var es := MakeExamples(x.example, x.exampleMeaning);
    assert |es| == |s.examples|;
    forall i | 0 <= i < |es| ensures es[i] == s.examples[i] {
    }
    assert es == s.examples;
    assert MigrateOne(x).senses == [s];
  }
}
