/**
 * The Leitner spaced-repetition scheduler of src/hooks/use-leitner.ts: five
 * boxes with fixed review intervals, lazy initialisation of the `leitner`
 * sub-record, the due-today predicate and the per-box statistics. The clock
 * (`new Date()`) is the parameter `now`.
 */
module Leitner {
  import opened Optional
  import opened Vocabulary

  /** `LEITNER_INTERVALS[box] ?? 1`: days until the next review from a box. */
  function IntervalDays(box: int): (d: nat)
    ensures d >= 1
    ensures box < 1 || box > 5 ==> d == 1
  {
    if box == 1 then 1
    else if box == 2 then 2
    else if box == 3 then 7
    else if box == 4 then 14
    else if box == 5 then 30
    else 1
  }

  /** The interval table: 1, 2, 7, 14 and 30 days, growing with the box. */
  lemma IntervalTable()
    ensures IntervalDays(1) == 1 && IntervalDays(2) == 2 && IntervalDays(3) == 7
    ensures IntervalDays(4) == 14 && IntervalDays(5) == 30
    ensures forall b, c :: 1 <= b <= c <= 5 ==> IntervalDays(b) <= IntervalDays(c)
  {
  }

  /** `startOfDay`: the same day at 00:00. */
  function StartOfDay(t: Instant): (r: Instant)
    ensures r.day == t.day && r.ms == 0
  {
    Instant(t.day, 0)
  }

  /**
   * `reviveDates`: records with a `leitner` sub-record get a `nextReview`
   * (now, when it was missing); everything else is left as it is. The
   * decoding of ISO 8601 strings into dates is not part of this model.
   */
  function ReviveDates(list: seq<Item>, now: Instant): (r: seq<Item>)
    ensures |r| == |list|
    ensures forall i :: 0 <= i < |r| ==>
      r[i].(leitner := list[i].leitner) == list[i]
      && (list[i].leitner.None? ==> r[i] == list[i])
      && (list[i].leitner.Some? ==>
            (r[i].leitner.Some?
             && r[i].leitner.value.nextReview.Some?
             && r[i].leitner.value.(nextReview := list[i].leitner.value.nextReview) == list[i].leitner.value
             && r[i].leitner.value.nextReview == list[i].leitner.value.nextReview.OrElse(Some(now))))
  {
    if list == [] then []
    else
      var x := list[0];
      var y := if x.leitner.None? then x
               else x.(leitner := Some(x.leitner.value.(nextReview := x.leitner.value.nextReview.OrElse(Some(now)))));
      [y] + ReviveDates(list[1..], now)
  }

  /** The sub-record a word without one gets: box 1, due today, no reviews yet. */
  function FreshLeitner(now: Instant): Leitner {
    Leitner(1, Some(StartOfDay(now)), 0, 0, None)
  }

  /** `initializeLeitnerData`. */
  function InitializeLeitnerData(item: Item, now: Instant): (r: Item)
    ensures r.leitner.Some?
    ensures item.leitner.Some? ==> r == item
    ensures item.leitner.None? ==> r.leitner == Some(Leitner(1, Some(Instant(now.day, 0)), 0, 0, None))
    ensures r.(leitner := item.leitner) == item
  {
    if item.leitner.Some? then item else item.(leitner := Some(FreshLeitner(now)))
  }

  /** Initialising twice is initialising once, whatever the two clocks say. */
  lemma InitializeIdempotent(item: Item, t1: Instant, t2: Instant)
    ensures InitializeLeitnerData(InitializeLeitnerData(item, t1), t2) == InitializeLeitnerData(item, t1)
  {
  }

  /** The due rule at day granularity: no schedule, no next review, or a next review on or before `today`. */
  predicate DueOn(item: Item, today: int) {
    item.leitner.None? || item.leitner.value.nextReview.None? || item.leitner.value.nextReview.value.day <= today
  }

  /** `isDueToday`. */
  predicate IsDueToday(item: Item, now: Instant) {
    var today := StartOfDay(now);
    var next := if item.leitner.Some? && item.leitner.value.nextReview.Some?
                then StartOfDay(item.leitner.value.nextReview.value) else today;
    next.day <= today.day
  }

  /** A record is due after lazy initialisation exactly when the day-level rule says so. */
  lemma DueAfterInitialize(item: Item, now: Instant)
    ensures IsDueToday(InitializeLeitnerData(item, now), now) <==> DueOn(item, now.day)
    ensures IsDueToday(item, now) <==> DueOn(item, now.day)
  {
  }

  /** `getDueWords`: the initialised records that are due, in input order. */
  function GetDueWords(list: seq<Item>, now: Instant): (r: seq<Item>)
    ensures |r| <= |list|
    ensures forall x :: x in r ==> x.leitner.Some? && IsDueToday(x, now)
    ensures forall i :: 0 <= i < |list| && DueOn(list[i], now.day) ==>
      InitializeLeitnerData(list[i], now) in r
    ensures forall x :: x in r ==> exists i :: 0 <= i < |list| && x == InitializeLeitnerData(list[i], now)
  {
    if list == [] then []
    else
      var x := InitializeLeitnerData(list[0], now);
      var rest := GetDueWords(list[1..], now);
      assert forall i :: 1 <= i < |list| ==> list[i] == list[1..][i - 1];
      DueAfterInitialize(list[0], now);
      if IsDueToday(x, now) then [x] + rest else rest
  }

  /** The due list of a concatenation is the due list of each part, in order. */
  lemma {:induction false} GetDueWordsAppend(a: seq<Item>, b: seq<Item>, now: Instant)
    ensures GetDueWords(a + b, now) == GetDueWords(a, now) + GetDueWords(b, now)
    decreases |a|
  {
    if a == [] {
      assert a + b == b;
    } else {
      assert (a + b)[0] == a[0];
      assert (a + b)[1..] == a[1..] + b;
      GetDueWordsAppend(a[1..], b, now);
    }
  }

  /** One record contributes its initialised form, once, exactly when it is due. */
  lemma GetDueWordsOne(x: Item, now: Instant)
    ensures GetDueWords([x], now) == if DueOn(x, now.day) then [InitializeLeitnerData(x, now)] else []
  {
    assert [x][1..] == [];
    DueAfterInitialize(x, now);
  }

  /** The box a record counts under: its own, or 1 without a schedule. */
  function BoxOf(item: Item): int {
    if item.leitner.Some? then item.leitner.value.box else 1
  }

  /** `updateLeitnerData`: one answer moves the word between boxes and reschedules it. */
  function UpdateLeitnerData(item: Item, correct: bool, now: Instant): (r: Item)
    ensures r.leitner.Some?
    ensures r.(leitner := item.leitner) == item
    ensures r.leitner.value.box == (if correct then (if BoxOf(item) + 1 < 5 then BoxOf(item) + 1 else 5) else 1)
    ensures 1 <= BoxOf(item) <= 5 ==> 1 <= r.leitner.value.box <= 5
    ensures correct && 1 <= BoxOf(item) <= 5 ==> BoxOf(item) <= r.leitner.value.box
    ensures !correct ==> r.leitner.value.correctStreak == 0
    ensures correct ==>
      (r.leitner.value.correctStreak == (if item.leitner.Some? then item.leitner.value.correctStreak else 0) + 1)
    ensures r.leitner.value.totalReviews
      == (if item.leitner.Some? then item.leitner.value.totalReviews else 0) + 1
    ensures r.leitner.value.lastReviewed == Some(now)
    ensures r.leitner.value.nextReview == Some(Instant(now.day + IntervalDays(r.leitner.value.box), 0))
  {
    var withLn := InitializeLeitnerData(item, now);
    var prev := withLn.leitner.value;
    var newBox := if correct then (if prev.box + 1 < 5 then prev.box + 1 else 5) else 1;
    var days := IntervalDays(newBox);
    var next := Instant(StartOfDay(now).day + days, 0);
    withLn.(leitner := Some(Leitner(
      newBox,
      Some(next),
      if correct then prev.correctStreak + 1 else 0,
      prev.totalReviews + 1,
      Some(now))))
  }

  /** A wrong answer then a right one always lands in box 2, from any starting state. */
  lemma WrongThenRight(item: Item, t1: Instant, t2: Instant)
    ensures UpdateLeitnerData(UpdateLeitnerData(item, false, t1), true, t2).leitner.value.box == 2
    ensures UpdateLeitnerData(UpdateLeitnerData(item, false, t1), true, t2).leitner.value.correctStreak == 1
  {
  }

  /** How many records count under box `b` (from the front of the list up). */
  function CountInBox(list: seq<Item>, b: int): (n: nat)
    ensures n <= |list|
  {
    if list == [] then 0
    else CountInBox(list[..|list| - 1], b) + (if BoxOf(list[|list| - 1]) == b then 1 else 0)
  }

  /** When every record sits in a box 1..5, the five box counts add up to the list length. */
  lemma {:induction false} BoxCountsSum(list: seq<Item>)
    requires forall i :: 0 <= i < |list| ==> 1 <= BoxOf(list[i]) <= 5
    ensures CountInBox(list, 1) + CountInBox(list, 2) + CountInBox(list, 3)
      + CountInBox(list, 4) + CountInBox(list, 5) == |list|
  {
    if list != [] {
      var init := list[..|list| - 1];
      assert forall i :: 0 <= i < |init| ==> init[i] == list[i];
      BoxCountsSum(init);
    }
  }

  /** The per-box tally, starting from `{1: 0, …, 5: 0}`, after counting each record of `list` under its box. */
  function BoxTally(list: seq<Item>): map<int, nat> {
    if list == [] then map[1 := 0, 2 := 0, 3 := 0, 4 := 0, 5 := 0]
    else
      var m := BoxTally(list[..|list| - 1]);
      var b := BoxOf(list[|list| - 1]);
      m[b := (if b in m then m[b] else 0) + 1]
  }

  /** The tally has boxes 1..5 and every box in use, each holding the number of records in it. */
  lemma {:induction false} BoxTallyCounts(list: seq<Item>, b: int)
    ensures b in BoxTally(list) <==> (1 <= b <= 5 || CountInBox(list, b) > 0)
    ensures b in BoxTally(list) ==> BoxTally(list)[b] == CountInBox(list, b)
    decreases |list|
  {
    if list != [] {
      BoxTallyCounts(list[..|list| - 1], b);
    }
  }

  /** What `getLeitnerStats` returns. */
  datatype Stats = Stats(boxes: map<int, nat>, total: nat, due: nat)

  /**
   * `getLeitnerStats`: one pass over the list counting each record once under
   * its box (a box outside 1..5 gets its own entry), the list length and the
   * number of due records.
   */
  method GetLeitnerStats(list: seq<Item>, now: Instant) returns (stats: Stats)
    ensures stats.boxes == BoxTally(list)
    ensures stats.total == |list|
    ensures stats.due == |GetDueWords(list, now)|
    ensures forall b :: b in stats.boxes <==> (1 <= b <= 5 || CountInBox(list, b) > 0)
    ensures forall b :: b in stats.boxes ==> stats.boxes[b] == CountInBox(list, b)
  {
    var boxes: map<int, nat> := map[1 := 0, 2 := 0, 3 := 0, 4 := 0, 5 := 0];
    var total: nat := 0;
    var i := 0;
    while i < |list|
      invariant 0 <= i <= |list|
      invariant total == i
      invariant boxes == BoxTally(list[..i])
    {
      assert list[..i + 1][..i] == list[..i];
      var b := BoxOf(list[i]);
      boxes := boxes[b := (if b in boxes then boxes[b] else 0) + 1];
      total := total + 1;
      i := i + 1;
    }
    assert list[..i] == list;
    forall b ensures b in boxes <==> (1 <= b <= 5 || CountInBox(list, b) > 0)
      ensures b in boxes ==> boxes[b] == CountInBox(list, b)
    {
      BoxTallyCounts(list, b);
    }
    stats := Stats(boxes, total, |GetDueWords(list, now)|);
  }
}
