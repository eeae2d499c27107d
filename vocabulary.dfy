/**
 * The records of the application: `VocabularyItem` with its `leitner`
 * sub-record and seven optional collocation groups (src/types/vocabulary.ts),
 * and the multi-sense `VocabV2` with its `Sense`s (src/types/vocab-v2.ts).
 * Optional TypeScript fields are `Option`s; `undefined` and an absent key are
 * the same `None`.
 */
module Vocabulary {
  import opened Optional

  /** An example sentence or a collocation: Japanese text and an optional translation. */
  datatype Pair = Pair(jp: string, vi: Option<string>)

  /** The seven collocation groups 連 合 類 関 対 慣 名, each optional. */
  datatype Collocations = Collocations(
    ren: Option<seq<Pair>>,
    go: Option<seq<Pair>>,
    rui: Option<seq<Pair>>,
    kan: Option<seq<Pair>>,
    tai: Option<seq<Pair>>,
    kanyo: Option<seq<Pair>>,
    mei: Option<seq<Pair>>)

  /** The empty object `{}`. */
  const NoGroups := Collocations(None, None, None, None, None, None, None)

  /**
   * A point in time: a calendar day number and the milliseconds into that day.
   * Only the day takes part in scheduling.
   */
  datatype Instant = Instant(day: int, ms: int)

  /** The Leitner scheduling sub-record. */
  datatype Leitner = Leitner(
    box: int,
    nextReview: Option<Instant>,
    correctStreak: int,
    totalReviews: int,
    lastReviewed: Option<Instant>)

  /** `VocabularyItem`. */
  datatype Item = Item(
    id: string,
    kanji: string,
    hiragana: string,
    meaning: string,
    starred: Option<bool>,
    sinoVietnamese: Option<string>,
    meanings: Option<seq<string>>,
    examples: Option<seq<Pair>>,
    collocations: Option<Collocations>,
    exampleSentence: Option<string>,
    exampleMeaning: Option<string>,
    leitner: Option<Leitner>)

  /** One meaning of a multi-sense word. */
  datatype Sense = Sense(index: int, meaningVi: string, examples: seq<Pair>, collocations: Collocations)

  /** `VocabV2`. */
  datatype VocabV2 = VocabV2(
    id: string,
    kanji: string,
    hiragana: Option<string>,
    jlpt: Option<string>,
    tags: Option<seq<string>>,
    senses: seq<Sense>,
    leitner: Option<Leitner>)

  /** `a || b` on strings: `a` unless it is empty. */
  function Or(a: string, b: string): string {
    if a != "" then a else b
  }

  /** `s || undefined`. */
  function NonEmptyOr(s: string): Option<string> {
    if s != "" then Some(s) else None
  }

  /** The truthiness of an optional string. */
  predicate Truthy(o: Option<string>) {
    o.Some? && o.value != ""
  }

  /**
   * A decoded tabular row: its cells as (column, value) in column order, the
   * way a JavaScript object keeps its keys. A cell missing from the row is
   * `undefined`.
   */
  type Row = seq<(string, string)>

  /** `row[k]`: the value last assigned to key `k`. */
  function Field(row: Row, k: string): Option<string> {
    if row == [] then None
    else if row[|row| - 1].0 == k then Some(row[|row| - 1].1)
    else Field(row[..|row| - 1], k)
  }

  /** A row has a value for `k` exactly when one of its cells is keyed `k`. */
  lemma {:induction false} FieldPresent(row: Row, k: string)
    ensures Field(row, k).Some? <==> exists i :: 0 <= i < |row| && row[i].0 == k
    decreases |row|
  {
    if row != [] && row[|row| - 1].0 != k {
      FieldPresent(row[..|row| - 1], k);
      assert forall i :: 0 <= i < |row| - 1 ==> row[..|row| - 1][i] == row[i];
    }
  }

  /** `String(row[k] ?? "")`. */
  function Cell(row: Row, k: string): string {
    Field(row, k).GetOr("")
  }
}
