/**
 * The statistics loop of src/components/LeitnerPanel.tsx: per-box counts,
 * the words due today, and the newcomer / learning / mastered split. The
 * panel receives the vocabulary as a value and changes nothing.
 */
module LeitnerPanel {
  import opened Vocabulary
  import opened Leitner

  /** `v.leitner?.totalReviews ?? 0`. */
  function ReviewsOf(item: Item): int {
    if item.leitner.Some? then item.leitner.value.totalReviews else 0
  }

  predicate IsNewcomer(item: Item) { ReviewsOf(item) == 0 }
  predicate IsMastered(item: Item) { BoxOf(item) == 5 }
  predicate IsLearning(item: Item) { ReviewsOf(item) > 0 && BoxOf(item) < 5 }

  /** How many elements of `list` satisfy `p`. */
  function Count(list: seq<Item>, p: Item -> bool): (n: nat)
    ensures n <= |list|
  {
    if list == [] then 0
    else Count(list[..|list| - 1], p) + (if p(list[|list| - 1]) then 1 else 0)
  }

  /** Counting from the front gives the same number. */
  lemma {:induction false} CountCons(x: Item, list: seq<Item>, p: Item -> bool)
    ensures Count([x] + list, p) == (if p(x) then 1 else 0) + Count(list, p)
    decreases |list|
  {
    if list != [] {
      var init := list[..|list| - 1];
      CountCons(x, init, p);
      assert ([x] + list)[..|list|] == [x] + init;
    }
  }

  /** One more element adds one to the count when it satisfies `p`. */
  lemma CountStep(list: seq<Item>, i: nat, p: Item -> bool)
    requires i < |list|
    ensures Count(list[..i + 1], p) == Count(list[..i], p) + (if p(list[i]) then 1 else 0)
  {
    assert list[..i + 1][..i] == list[..i];
  }

  /** The counters the panel shows. */
  datatype PanelStats = PanelStats(
    byBox: map<int, nat>, dueToday: nat, mastered: nat, learning: nat, newcomers: nat)

  /** The forEach loop over the vocabulary, for the calendar day `today`. */
  method CountAll(vocabulary: seq<Item>, today: int)
    returns (byBox: map<int, nat>, dueToday: nat, mastered: nat, learning: nat, newcomers: nat)
    ensures byBox == BoxTally(vocabulary)
    ensures newcomers == Count(vocabulary, IsNewcomer)
    ensures mastered == Count(vocabulary, IsMastered)
    ensures learning == Count(vocabulary, IsLearning)
    ensures dueToday == Count(vocabulary, x => DueOn(x, today))
  {
    byBox := map[1 := 0, 2 := 0, 3 := 0, 4 := 0, 5 := 0];
    dueToday, mastered, learning, newcomers := 0, 0, 0, 0;
    var i := 0;
    while i < |vocabulary|
      invariant 0 <= i <= |vocabulary|
      invariant byBox == BoxTally(vocabulary[..i])
      invariant newcomers == Count(vocabulary[..i], IsNewcomer)
      invariant mastered == Count(vocabulary[..i], IsMastered)
      invariant learning == Count(vocabulary[..i], IsLearning)
      invariant dueToday == Count(vocabulary[..i], x => DueOn(x, today))
    {
      assert vocabulary[..i + 1][..i] == vocabulary[..i];
      assert BoxTally(vocabulary[..i + 1]) == BoxTally(vocabulary[..i])[BoxOf(vocabulary[i]) :=
        (if BoxOf(vocabulary[i]) in byBox then byBox[BoxOf(vocabulary[i])] else 0) + 1];
      CountStep(vocabulary, i, IsNewcomer);
      CountStep(vocabulary, i, IsMastered);
      CountStep(vocabulary, i, IsLearning);
      CountStep(vocabulary, i, x => DueOn(x, today));
      var v := vocabulary[i];
      var box := BoxOf(v);
      byBox := byBox[box := (if box in byBox then byBox[box] else 0) + 1];
      var totalReviews := ReviewsOf(v);
      if totalReviews == 0 { newcomers := newcomers + 1; }
      if box == 5 { mastered := mastered + 1; }
      if totalReviews > 0 && box < 5 { learning := learning + 1; }
      if v.leitner.None? || v.leitner.value.nextReview.None? {
        dueToday := dueToday + 1;
      } else if v.leitner.value.nextReview.value.day <= today {
        dueToday := dueToday + 1;
      }
      i := i + 1;
    }
    assert vocabulary[..i] == vocabulary;
  }

  /** The panel's counters: boxes 1 to 5 always shown, any other box only when a word is in it. */
  method ComputeStats(vocabulary: seq<Item>, today: int) returns (s: PanelStats)
    ensures s.byBox == BoxTally(vocabulary)
    ensures forall b :: b in s.byBox <==> (1 <= b <= 5 || CountInBox(vocabulary, b) > 0)
    ensures forall b :: b in s.byBox ==> s.byBox[b] == CountInBox(vocabulary, b)
    ensures s.newcomers == Count(vocabulary, IsNewcomer)
    ensures s.mastered == Count(vocabulary, IsMastered)
    ensures s.learning == Count(vocabulary, IsLearning)
    ensures s.dueToday == Count(vocabulary, x => DueOn(x, today))
  {
    var byBox, dueToday, mastered, learning, newcomers := CountAll(vocabulary, today);
    forall b ensures b in byBox <==> (1 <= b <= 5 || CountInBox(vocabulary, b) > 0)
      ensures b in byBox ==> byBox[b] == CountInBox(vocabulary, b)
    {
      BoxTallyCounts(vocabulary, b);
    }
    s := PanelStats(byBox, dueToday, mastered, learning, newcomers);
  }

  /**
   * With every box at most 5 and no negative review count, each word is a
   * newcomer, learning or mastered, and no learning word is also a newcomer
   * or mastered; so the three counters add up to at least the size, and the
   * learning counter leaves room for each of the other two.
   */
  lemma {:induction false} CategoriesCover(list: seq<Item>)
    requires forall i :: 0 <= i < |list| ==> BoxOf(list[i]) <= 5 && ReviewsOf(list[i]) >= 0
    ensures forall i :: 0 <= i < |list| ==> IsNewcomer(list[i]) || IsLearning(list[i]) || IsMastered(list[i])
    ensures forall x :: !(IsLearning(x) && (IsNewcomer(x) || IsMastered(x)))
    ensures Count(list, IsNewcomer) + Count(list, IsLearning) + Count(list, IsMastered) >= |list|
    ensures Count(list, IsLearning) + Count(list, IsNewcomer) <= |list|
    ensures Count(list, IsLearning) + Count(list, IsMastered) <= |list|
  {
    if list != [] {
      var init := list[..|list| - 1];
      assert forall i :: 0 <= i < |init| ==> init[i] == list[i];
      CategoriesCover(init);
    }
  }

  /** The panel's due counter agrees with the scheduler's list of due words. */
  lemma {:induction false} DueTodayIsDueWords(list: seq<Item>, now: Instant)
    ensures Count(list, x => DueOn(x, now.day)) == |GetDueWords(list, now)|
    decreases |list|
  {
    if list != [] {
      var p := x => DueOn(x, now.day);
      DueTodayIsDueWords(list[1..], now);
      CountCons(list[0], list[1..], p);
      assert [list[0]] + list[1..] == list;
      DueAfterInitialize(list[0], now);
    }
  }

  /** The per-box counts of a vocabulary whose boxes are all in 1..5 add up to its size. */
  lemma PanelBoxesSum(vocabulary: seq<Item>, s: PanelStats)
    requires forall i :: 0 <= i < |vocabulary| ==> 1 <= BoxOf(vocabulary[i]) <= 5
    requires forall b :: b in s.byBox <==> (1 <= b <= 5 || CountInBox(vocabulary, b) > 0)
    requires forall b :: b in s.byBox ==> s.byBox[b] == CountInBox(vocabulary, b)
    ensures s.byBox[1] + s.byBox[2] + s.byBox[3] + s.byBox[4] + s.byBox[5] == |vocabulary|
  {
    BoxCountsSum(vocabulary);
  }
}
