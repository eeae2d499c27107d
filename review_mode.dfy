/**
 * The Leitner review screen (src/components/ReviewMode.tsx): the helpers
 * that read a card's extended fields (`splitMeanings`, `getMeanings`,
 * `getExamples`, `getCollocations`), the box the hint and the toast
 * announce, and the session state a run through the due list changes
 * (`idx`, `correct`, `wrong`, `flipped`).
 */
module ReviewMode {
  import opened Optional
  import opened Strings
  import opened Vocabulary
  import opened Leitner

  /* ---------- Reading the extended fields ---------- */

  /**
   * The characters `/\r?\n|;|,|\/+/` splits at. A `\r` before the line break
   * ends up at the end of a piece and is trimmed away, and the empty pieces
   * between the slashes of a run are dropped, so splitting at single
   * characters yields the same pieces.
   */
  const MeaningSeps: set<char> := {'\n', ';', ',', '/'}

  /** `splitMeanings`: the trimmed, non-empty pieces of a meaning text. */
  function SplitMeanings(s: string): seq<string> {
    var raw := Trim(s);
    if raw == "" then [] else CharPieces(raw, MeaningSeps)
  }

  /** Every piece is non-empty and trimmed and holds no separator; blank text has none. */
  lemma SplitMeaningsPieces(s: string)
    ensures forall i :: 0 <= i < |SplitMeanings(s)| ==>
      SplitMeanings(s)[i] != "" && Trimmed(SplitMeanings(s)[i]) &&
      forall c :: c in SplitMeanings(s)[i] ==> c !in MeaningSeps
    ensures IsBlank(s) ==> SplitMeanings(s) == []
  {
    CharPiecesSpec(Trim(s), MeaningSeps);
    TrimBlank(s);
  }

  /** Meanings written with any one of the separators are read back. */
  lemma SplitMeaningsJoin(xs: seq<string>, c: char)
    requires c in MeaningSeps
    requires forall i :: 0 <= i < |xs| ==>
      xs[i] != "" && Trimmed(xs[i]) && forall ch :: ch in xs[i] ==> ch !in MeaningSeps
    ensures SplitMeanings(Join(xs, [c])) == xs
  {
    var s := Join(xs, [c]);
    if xs == [] {
      TrimBlank(s);
    } else {
      JoinTrimmed(xs, [c]);
      TrimSpec(s);
      CharPiecesJoin(xs, c, MeaningSeps);
    }
  }

  /** `getMeanings`: the `meanings` list when it has entries, else the split `meaning`. */
  function GetMeanings(item: Item): (r: seq<string>)
    ensures item.meanings.Some? && item.meanings.value != [] ==> r == item.meanings.value
    ensures (item.meanings.None? || item.meanings.value == []) ==> r == SplitMeanings(item.meaning)
  {
    if item.meanings.Some? && |item.meanings.value| > 0 then item.meanings.value
    else SplitMeanings(item.meaning)
  }

  /** `getExamples`: the `examples` list when it has entries, else the legacy sentence pair if set. */
  function GetExamples(item: Item): (r: seq<Pair>)
    ensures item.examples.Some? && item.examples.value != [] ==> r == item.examples.value
    ensures (item.examples.None? || item.examples.value == []) ==>
      r == (if Truthy(item.exampleSentence)
            then [Pair(item.exampleSentence.value, item.exampleMeaning)] else [])
  {
    if item.examples.Some? && |item.examples.value| > 0 then item.examples.value
    else if Truthy(item.exampleSentence) then [Pair(item.exampleSentence.value, item.exampleMeaning)]
    else []
  }

  /** The cards list the legacy example only when they have no example list. */
  lemma ExamplesLegacy(item: Item)
    ensures GetExamples(item) == [] <==>
      (item.examples.None? || item.examples.value == []) && !Truthy(item.exampleSentence)
  {
  }

  /** `allMeanings`: the meanings to show, falling back to the raw `meaning` text. */
  function AllMeanings(item: Item): seq<string> {
    var ms := GetMeanings(item);
    if |ms| > 0 then ms else if item.meaning != "" then [item.meaning] else []
  }

  /** The back of the card is empty exactly when the record has no meaning at all. */
  lemma AllMeaningsEmpty(item: Item)
    ensures AllMeanings(item) == [] <==>
      (item.meanings.None? || item.meanings.value == []) && item.meaning == ""
  {
    TrimBlank(item.meaning);
  }

  /** A meaning text with content always shows, split or whole. */
  lemma AllMeaningsShown(item: Item)
    requires item.meanings.None? || item.meanings.value == []
    requires !IsBlank(item.meaning)
    ensures AllMeanings(item) == SplitMeanings(item.meaning) || AllMeanings(item) == [item.meaning]
    ensures AllMeanings(item) != []
  {
  }

  /* ---------- Collocation groups ---------- */

  /** The seven group labels 連 合 類 関 対 慣 名. */
  datatype Label = Ren | Go | Rui | Kan | Tai | Kanyo | Mei

  /** The position of a label in the order the card lists the groups. */
  function Rank(l: Label): nat {
    match l
    case Ren => 0
    case Go => 1
    case Rui => 2
    case Kan => 3
    case Tai => 4
    case Kanyo => 5
    case Mei => 6
  }

  /** The label at a display position. */
  function LabelAt(n: nat): (l: Label)
    requires n < 7
    ensures Rank(l) == n
  {
    [Ren, Go, Rui, Kan, Tai, Kanyo, Mei][n]
  }

  /** The group of a collocation record under a label. */
  function GroupAt(col: Option<Collocations>, l: Label): Option<seq<Pair>> {
    if col.None? then None
    else match l
      case Ren => col.value.ren
      case Go => col.value.go
      case Rui => col.value.rui
      case Kan => col.value.kan
      case Tai => col.value.tai
      case Kanyo => col.value.kanyo
      case Mei => col.value.mei
  }

  /** `col?.<group>?.length`: the group is set and has entries. */
  predicate Listed(col: Option<Collocations>, l: Label) {
    GroupAt(col, l).Some? && |GroupAt(col, l).value| > 0
  }

  /** One `{ label, list }` entry of the card. */
  datatype Entry = Entry(group: Label, pairs: seq<Pair>)

  /** The entries the pushes from display position `n` on produce, in their order. */
  function EntriesFrom(col: Option<Collocations>, n: nat): (r: seq<Entry>)
    requires n <= 7
    ensures forall i :: 0 <= i < |r| ==>
      n <= Rank(r[i].group) && Listed(col, r[i].group) && Some(r[i].pairs) == GroupAt(col, r[i].group)
    ensures forall l :: n <= Rank(l) && Listed(col, l) ==> Entry(l, GroupAt(col, l).value) in r
    ensures forall i, j :: 0 <= i < j < |r| ==> Rank(r[i].group) < Rank(r[j].group)
    decreases 7 - n
  {
    if n == 7 then []
    else
      var l := LabelAt(n);
      var rest := EntriesFrom(col, n + 1);
      if Listed(col, l) then [Entry(l, GroupAt(col, l).value)] + rest else rest
  }

  /**
   * `getCollocations`: one entry per group that has entries, in the order
   * 連 合 類 関 対 慣 名, each holding that group's list; every group with
   * entries appears.
   */
  function GetCollocations(col: Option<Collocations>): (r: seq<Entry>)
    ensures forall i :: 0 <= i < |r| ==> r[i].pairs != [] && Some(r[i].pairs) == GroupAt(col, r[i].group)
    ensures forall l :: Listed(col, l) ==> Entry(l, GroupAt(col, l).value) in r
    ensures forall i, j :: 0 <= i < j < |r| ==> Rank(r[i].group) < Rank(r[j].group)
  {
    EntriesFrom(col, 0)
  }

  /** A record without collocations, or with only empty groups, shows none. */
  lemma NoCollocationsShown(col: Option<Collocations>)
    requires col.None? || col == Some(NoGroups)
    ensures GetCollocations(col) == []
  {
  }

  /* ---------- What an answer announces ---------- */

  /** `newBox`: the box a right answer moves up to (at most 5) or a wrong one drops to. */
  function NewBox(box: int, isCorrect: bool): (b: int)
    ensures isCorrect && 1 <= box <= 5 ==> b == box + 1 || b == 5
    ensures !isCorrect ==> b == 1
  {
    if isCorrect then (if 5 < box + 1 then 5 else box + 1) else 1
  }

  /**
   * The box and the number of days the hint and the toast announce are the
   * ones the stored update then writes, at any time of answering.
   */
  lemma AnnouncementAgrees(item: Item, isCorrect: bool, now: Instant)
    ensures UpdateLeitnerData(item, isCorrect, now).leitner.value.box == NewBox(BoxOf(item), isCorrect)
    ensures UpdateLeitnerData(item, isCorrect, now).leitner.value.nextReview
      == Some(Instant(now.day + IntervalDays(NewBox(BoxOf(item), isCorrect)), 0))
    ensures !isCorrect ==> IntervalDays(NewBox(BoxOf(item), isCorrect)) == 1
  {
  }

  /* ---------- The session ---------- */

  function Min(a: int, b: int): int {
    if a < b then a else b
  }

  /**
   * One pass through the due list. `idx` is the card on screen, `correct`
   * and `wrong` count the answers; `reported` is the sequence of ids handed
   * to `onLeitnerUpdate`, kept for the proofs.
   */
  class Review {
    const list: seq<Item>
    var idx: nat
    var correct: nat
    var wrong: nat
    var flipped: bool
    ghost var reported: seq<string>

    /** The index of the last card, 0 for an empty list. */
    function Last(): nat
      reads this
    {
      if |list| == 0 then 0 else |list| - 1
    }

    /**
     * The card shown is the one after the answered ones, staying on the last;
     * each answer reported the card that was on screen.
     */
    ghost predicate Valid()
      reads this
    {
      && idx == Min(correct + wrong, Last())
      && |reported| == correct + wrong
      && forall k :: 0 <= k < |reported| ==> Min(k, Last()) < |list| && reported[k] == list[Min(k, Last())].id
    }

    constructor(list: seq<Item>)
      ensures Valid()
      ensures this.list == list && idx == 0 && correct == 0 && wrong == 0 && !flipped
    {
      this.list := list;
      idx := 0;
      correct := 0;
      wrong := 0;
      flipped := false;
      reported := [];
    }

    /** `isDone`: on the last card with as many answers as cards. */
    predicate IsDone()
      reads this
    {
      idx >= |list| - 1 && correct + wrong >= |list|
    }

    /** Flipping the card (the card itself or the space bar). */
    method Flip()
      modifies this
      ensures flipped == !old(flipped)
      ensures idx == old(idx) && correct == old(correct) && wrong == old(wrong)
      ensures reported == old(reported)
    {
      flipped := !flipped;
    }

    /**
     * `handleMark`: counts the answer, reports the card on screen with it,
     * turns the card face down and moves on unless it is the last; returns
     * the id and answer handed to `onLeitnerUpdate` and the box the toast
     * announces.
     */
    method Mark(isCorrect: bool) returns (id: string, announced: int)
      requires Valid() && |list| > 0
      modifies this
      ensures Valid()
      ensures id == list[old(idx)].id
      ensures announced == NewBox(BoxOf(list[old(idx)]), isCorrect)
      ensures correct == old(correct) + (if isCorrect then 1 else 0)
      ensures wrong == old(wrong) + (if isCorrect then 0 else 1)
      ensures idx == (if old(idx) < |list| - 1 then old(idx) + 1 else old(idx))
      ensures !flipped
      ensures reported == old(reported) + [id]
    {
      var item := list[idx];
      announced := NewBox(BoxOf(item), isCorrect);
      if isCorrect {
        correct := correct + 1;
      } else {
        wrong := wrong + 1;
      }
      id := item.id;
      reported := reported + [id];
      flipped := false;
      if idx < |list| - 1 {
        idx := idx + 1;
      }
    }
  }

  /** The session is done exactly when every card has been answered at least once. */
  lemma DoneWhenAllAnswered(r: Review)
    requires r.Valid() && |r.list| > 0
    ensures r.IsDone() <==> r.correct + r.wrong >= |r.list|
    ensures r.idx < |r.list|
  {
  }

  /** Before the session is done, the cards were reported once each, in list order. */
  lemma ReportedInOrder(r: Review)
    requires r.Valid() && !r.IsDone()
    ensures forall k :: 0 <= k < |r.reported| ==> r.reported[k] == r.list[k].id
    ensures |r.reported| < |r.list|
  {
  }
}
