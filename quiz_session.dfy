/**
 * The question-by-question flow the meaning quiz (src/components/QuizMode.tsx)
 * and the kanji quiz (src/components/KanjiQuizMode.tsx) share: choosing how
 * many questions to ask, answering, moving back and forth, and the tally of
 * right and wrong answers. The two screens differ only in the guard of the
 * answer handler; both are here.
 */
module QuizSession {
  import opened Optional
  import opened Strings
  import opened Vocabulary
  import opened Shuffling

  /** What the session needs of a question: the word's id and the right answer. */
  datatype Ask = Ask(id: string, correct: string)

  /** `"setup" | "quiz" | "done"`. */
  datatype Stage = Setup | Quiz | Done

  /** The number of questions `startQuiz` asks for: all with `-1`, else at most the pool. */
  function QuestionCount(desired: int, max: nat): (n: nat)
    ensures desired == -1 ==> n == max
    ensures desired >= 0 ==> n <= max && (n == desired || n == max)
  {
    if desired == -1 then max else if desired < max then (if desired < 0 then 0 else desired) else max
  }

  /** `pickN(pool, count)`: the questions of one run. */
  function Draw<T>(pool: seq<T>, desired: int, o: Oracle): seq<T> {
    PickN(pool, QuestionCount(desired, |pool|), o)
  }

  /**
   * A run asks `count` questions (all of the pool with "test all"), each taken
   * from the pool and none more often than the pool holds it.
   */
  lemma DrawSpec<T>(pool: seq<T>, desired: int, o: Oracle)
    ensures |Draw(pool, desired, o)| == QuestionCount(desired, |pool|)
    ensures multiset(Draw(pool, desired, o)) <= multiset(pool)
    ensures desired == -1 ==> multiset(Draw(pool, desired, o)) == multiset(pool)
  {
    PickNSub(pool, QuestionCount(desired, |pool|), o);
    if desired == -1 {
      ShuffledPerm(pool, o);
    }
  }

  /** `(o) => o.id !== w.id`: the words other than `w`. */
  function OtherThan(w: Item): Item -> bool {
    (v: Item) => v.id != w.id
  }

  /** `shuffle([correct, ...pickN(Array.from(new Set(others)), 3)])`: the answer and up to three distinct distractors. */
  function Options(correct: string, others: seq<string>, pick: Oracle, order: Oracle): seq<string> {
    Shuffled([correct] + PickN(Dedup(others), 3, pick), order)
  }

  /** The distractors: `min(3, distinct others)` texts of `others`, none twice. */
  lemma DistractorsSpec(others: seq<string>, pick: Oracle)
    ensures var ds := PickN(Dedup(others), 3, pick);
      && |ds| == (if 3 < |Dedup(others)| then 3 else |Dedup(others)|)
      && (forall x :: x in multiset(ds) ==> x in others)
      && (forall x :: multiset(ds)[x] <= 1)
  {
    var ds := PickN(Dedup(others), 3, pick);
    PickNSub(Dedup(others), 3, pick);
    DedupIsDistinct(others);
    PickNDistinct(Dedup(others), 3, pick);
    forall x | x in multiset(ds) ensures x in others {
      assert x in multiset(Dedup(others));
    }
  }

  /** The options are the answer and the distractors, in some order. */
  lemma OptionsPerm(correct: string, others: seq<string>, pick: Oracle, order: Oracle)
    ensures multiset(Options(correct, others, pick, order)) == multiset{correct} + multiset(PickN(Dedup(others), 3, pick))
  {
    ShuffledPerm([correct] + PickN(Dedup(others), 3, pick), order);
  }

  /** The options hold the answer and `min(3, distinct others)` texts of `others`. */
  lemma OptionsContents(correct: string, others: seq<string>, pick: Oracle, order: Oracle)
    ensures var r := Options(correct, others, pick, order);
      && correct in r
      && |r| == 1 + (if 3 < |Dedup(others)| then 3 else |Dedup(others)|)
      && (forall x :: x in r ==> x == correct || x in others)
  {
    var r := Options(correct, others, pick, order);
    DistractorsSpec(others, pick);
    OptionsPerm(correct, others, pick, order);
    assert |r| == |multiset(r)|;
    assert correct in multiset(r);
    forall x | x in r ensures x == correct || x in others {
      assert x in multiset(r);
    }
  }

  /** No distractor is offered twice; the answer shows once when no other word shares it. */
  lemma OptionsCounts(correct: string, others: seq<string>, pick: Oracle, order: Oracle)
    ensures var r := Options(correct, others, pick, order);
      && (forall x :: x != correct ==> multiset(r)[x] <= 1)
      && (correct !in others ==> multiset(r)[correct] == 1)
  {
    DistractorsSpec(others, pick);
    OptionsPerm(correct, others, pick, order);
  }

  /**
   * The options hold the answer, `min(3, distinct others)` distractors taken
   * from `others`, and no distractor twice; the answer shows once when no
   * other word shares it.
   */
  lemma OptionsSpec(correct: string, others: seq<string>, pick: Oracle, order: Oracle)
    ensures var r := Options(correct, others, pick, order);
      && correct in r
      && |r| == 1 + (if 3 < |Dedup(others)| then 3 else |Dedup(others)|)
      && |r| <= 4
      && (forall x :: x in r ==> x == correct || x in others)
      && (forall x :: x != correct ==> multiset(r)[x] <= 1)
      && (correct !in others ==> multiset(r)[correct] == 1)
  {
    OptionsContents(correct, others, pick, order);
    OptionsCounts(correct, others, pick, order);
  }

  /**
   * As written, the answer is not kept out of the distractors: when another
   * word has the same text, the answer can be offered twice, whatever the
   * draws.
   */
  lemma AnswerOfferedTwice(a: string, pick: Oracle, order: Oracle)
    ensures Options(a, [a], pick, order) == [a, a]
  {
    assert Dedup([a]) == [a];
    assert Shuffled([a], pick) == [a];
    var s := [a, a];
    assert Swap(s, 1, order(1) % 2) == s;
  }

  /** The intended options: the distractors are drawn from the other texts that differ from the answer. */
  function CheckedOptions(correct: string, others: seq<string>, pick: Oracle, order: Oracle): seq<string> {
    Options(correct, Filter(others, x => x != correct), pick, order)
  }

  /** With the answer kept out of the distractors, every option is offered exactly once. */
  lemma CheckedOptionsSpec(correct: string, others: seq<string>, pick: Oracle, order: Oracle)
    ensures var r := CheckedOptions(correct, others, pick, order);
      && correct in r
      && |r| <= 4
      && (forall x :: x in r ==> x == correct || x in others)
      && (forall x :: multiset(r)[x] <= 1)
  {
    OptionsSpec(correct, Filter(others, x => x != correct), pick, order);
  }

  /** How many flags are set. */
  function CountTrue(bs: seq<bool>): (n: nat)
    ensures n <= |bs|
  {
    if bs == [] then 0 else (if bs[0] then 1 else 0) + CountTrue(bs[1..])
  }

  /** Setting a flag that was clear adds one to the count. */
  lemma {:induction false} CountTrueSet(bs: seq<bool>, i: nat)
    requires i < |bs| && !bs[i]
    ensures CountTrue(bs[i := true]) == CountTrue(bs) + 1
    decreases |bs|
  {
    if i > 0 {
      CountTrueSet(bs[1..], i - 1);
      assert bs[i := true][1..] == bs[1..][i - 1 := true];
    } else {
      assert bs[i := true][1..] == bs[1..];
    }
  }

  /** The count reaches the length exactly when every flag is set. */
  lemma {:induction false} CountTrueAll(bs: seq<bool>)
    ensures CountTrue(bs) == |bs| <==> forall i :: 0 <= i < |bs| ==> bs[i]
    decreases |bs|
  {
    if bs != [] {
      CountTrueAll(bs[1..]);
      assert forall i :: 1 <= i < |bs| ==> bs[i] == bs[1..][i - 1];
    }
  }

  /** A fresh list of clear flags. */
  lemma {:induction false} CountTrueNone(n: nat)
    ensures CountTrue(seq(n, _ => false)) == 0
    decreases n
  {
    if n > 0 {
      CountTrueNone(n - 1);
      assert seq(n, _ => false)[1..] == seq(n - 1, _ => false);
    }
  }

  /** One run of a quiz screen. */
  class Session {
    var stage: Stage
    var asks: seq<Ask>
    var current: nat
    var selected: Option<string>
    var showResult: bool
    var score: nat
    var answered: seq<bool>
    var correctIds: seq<string>
    var wrongIds: seq<string>

    /**
     * The shape every handler keeps: one flag per question, a question on
     * screen, the score is the right answers, a result shows only for an
     * answered question, and every question before the one on screen was
     * answered (Next is the only way forward, and it needs an answer).
     */
    ghost predicate Shaped()
      reads this
    {
      && |answered| == |asks|
      && (current < |asks| || current == 0)
      && score == |correctIds|
      && (showResult ==> current < |answered| && answered[current])
      && (forall j :: 0 <= j < current && j < |answered| ==> answered[j])
    }

    /** Every question was answered at most once: the answers recorded are the flags set. */
    ghost predicate Valid()
      reads this
    {
      Shaped() && |correctIds| + |wrongIds| == CountTrue(answered)
    }

    /** `answered.every(Boolean)`: the run can be closed. */
    predicate Complete()
      reads this
    {
      forall i :: 0 <= i < |answered| ==> answered[i]
    }

    constructor()
      ensures Valid() && stage == Setup && asks == []
    {
      stage := Setup;
      asks := [];
      current := 0;
      selected := None;
      showResult := false;
      score := 0;
      answered := [];
      correctIds := [];
      wrongIds := [];
    }

    /** The resets of `startQuiz`, given the questions it drew. */
    method Start(qs: seq<Ask>)
      modifies this
      ensures Valid()
      ensures stage == Quiz && asks == qs && current == 0 && selected.None? && !showResult
      ensures score == 0 && answered == seq(|qs|, _ => false) && correctIds == [] && wrongIds == []
    {
      stage := Quiz;
      asks := qs;
      current := 0;
      selected := None;
      showResult := false;
      score := 0;
      answered := seq(|qs|, _ => false);
      correctIds := [];
      wrongIds := [];
      CountTrueNone(|qs|);
    }

    /**
     * `handleAnswerSelect` of the meaning quiz: ignored once the result shows
     * or the question was answered before; otherwise records the answer,
     * flags the question and returns the id and verdict handed to
     * `onLeitnerUpdate`.
     */
    method Select(answer: string) returns (update: Option<(string, bool)>)
      requires Valid() && stage == Quiz && |asks| > 0
      modifies this
      ensures Valid()
      ensures old(showResult) || old(answered[current]) ==>
        update.None? && score == old(score) && answered == old(answered) &&
        correctIds == old(correctIds) && wrongIds == old(wrongIds) &&
        showResult == old(showResult) && selected == old(selected)
      ensures !old(showResult) && !old(answered[current]) ==>
        Recorded(old(asks[current]), answer, update, old(score), old(answered), old(correctIds), old(wrongIds))
      ensures stage == old(stage) && asks == old(asks) && current == old(current)
    {
      update := None;
      if showResult || answered[current] {
        return;
      }
      CountTrueSet(answered, current);
      update := Record(answer);
    }

    /** The state after one answer to the question on screen. */
    ghost predicate Recorded(q: Ask, answer: string, update: Option<(string, bool)>,
                             score0: nat, answered0: seq<bool>, correct0: seq<string>, wrong0: seq<string>)
      reads this
    {
      var ok := answer == q.correct;
      && current < |answered0|
      && update == Some((q.id, ok))
      && selected == Some(answer) && showResult
      && score == score0 + (if ok then 1 else 0)
      && correctIds == (if ok then correct0 + [q.id] else correct0)
      && wrongIds == (if ok then wrong0 else wrong0 + [q.id])
      && answered == answered0[current := true]
    }

    /** The body both handlers share once their guard lets the answer through. */
    method Record(answer: string) returns (update: Option<(string, bool)>)
      requires Shaped() && stage == Quiz && |asks| > 0
      modifies this
      ensures Shaped()
      ensures Recorded(old(asks[current]), answer, update, old(score), old(answered), old(correctIds), old(wrongIds))
      ensures stage == old(stage) && asks == old(asks) && current == old(current)
      ensures old(|correctIds| + |wrongIds|) + 1 == |correctIds| + |wrongIds|
    {
      var q := asks[current];
      var ok := answer == q.correct;
      selected := Some(answer);
      showResult := true;
      if ok {
        score := score + 1;
        correctIds := correctIds + [q.id];
      } else {
        wrongIds := wrongIds + [q.id];
      }
      answered := answered[current := true];
      update := Some((q.id, ok));
    }

    /**
     * `handleSelect` of the kanji quiz as written: ignored only while the
     * result shows, so a question revisited with `prev` is answered again.
     */
    method SelectUnguarded(answer: string) returns (update: Option<(string, bool)>)
      requires Shaped() && stage == Quiz && |asks| > 0
      modifies this
      ensures Shaped()
      ensures old(showResult) ==>
        update.None? && score == old(score) && answered == old(answered) &&
        correctIds == old(correctIds) && wrongIds == old(wrongIds) && selected == old(selected)
      ensures !old(showResult) ==>
        Recorded(old(asks[current]), answer, update, old(score), old(answered), old(correctIds), old(wrongIds))
      ensures stage == old(stage) && asks == old(asks) && current == old(current)
    {
      update := None;
      if showResult {
        return;
      }
      update := Record(answer);
    }

    /**
     * The Next button as written, `disabled={!showResult}`, running
     * `handleNext` / `next`: the next question with a clean slate, or the end
     * of the run after the last. A result shows only for an answered
     * question, so this is the step `NextChecked` takes.
     */
    method Next()
      requires Shaped() && stage == Quiz && |asks| > 0 && showResult
      modifies this
      ensures Shaped() && (old(Valid()) ==> Valid())
      ensures old(current) < |asks| - 1 ==>
        current == old(current) + 1 && selected.None? && !showResult && stage == Quiz
      ensures old(current) == |asks| - 1 ==>
        stage == Done && current == old(current) && selected == old(selected) && showResult == old(showResult)
      ensures asks == old(asks) && score == old(score) && answered == old(answered)
      ensures correctIds == old(correctIds) && wrongIds == old(wrongIds)
    {
      NextChecked();
    }

    /**
     * The Next button enabled on any answered question, so that a question
     * revisited with Prev can be left forwards again.
     */
    method NextChecked()
      requires Shaped() && stage == Quiz && |asks| > 0 && answered[current]
      modifies this
      ensures Shaped() && (old(Valid()) ==> Valid())
      ensures old(current) < |asks| - 1 ==>
        current == old(current) + 1 && selected.None? && !showResult && stage == Quiz
      ensures old(current) == |asks| - 1 ==>
        stage == Done && current == old(current) && selected == old(selected) && showResult == old(showResult)
      ensures asks == old(asks) && score == old(score) && answered == old(answered)
      ensures correctIds == old(correctIds) && wrongIds == old(wrongIds)
    {
      if current < |asks| - 1 {
        current := current + 1;
        selected := None;
        showResult := false;
      } else {
        stage := Done;
      }
    }

    /** `handlePrevious` / `prev`: the previous question with a clean slate; nothing on the first. */
    method Prev()
      requires Shaped() && stage == Quiz
      modifies this
      ensures Shaped() && (old(Valid()) ==> Valid())
      ensures old(current) > 0 ==> current == old(current) - 1 && selected.None? && !showResult
      ensures old(current) == 0 ==> current == 0 && selected == old(selected) && showResult == old(showResult)
      ensures stage == old(stage) && asks == old(asks) && score == old(score) && answered == old(answered)
      ensures correctIds == old(correctIds) && wrongIds == old(wrongIds)
    {
      if current > 0 {
        current := current - 1;
        selected := None;
        showResult := false;
      }
    }

    /** The "see results" button shown once every question is answered. */
    method Finish()
      requires Shaped() && stage == Quiz && Complete()
      modifies this
      ensures stage == Done
      ensures asks == old(asks) && current == old(current) && score == old(score) && answered == old(answered)
      ensures correctIds == old(correctIds) && wrongIds == old(wrongIds)
      ensures Shaped() && (old(Valid()) ==> Valid())
    {
      stage := Done;
    }
  }

  /**
   * With the answered-once guard the score never exceeds the number of
   * questions, every question is answered at most once, and the run is
   * complete exactly when there are as many answers as questions.
   */
  lemma ScoreBounded(s: Session)
    requires s.Valid()
    ensures s.score + |s.wrongIds| <= |s.asks|
    ensures s.score <= |s.asks|
    ensures s.Complete() <==> |s.correctIds| + |s.wrongIds| == |s.asks|
  {
    CountTrueAll(s.answered);
  }

  /**
   * The kanji quiz as written: two questions, the first answered right,
   * `next`, `prev`, answered right again, then the second answered right
   * scores 3 out of 2.
   */
  method ReanswerOvercounts() returns (score: nat, total: nat)
    ensures score == 3 && total == 2
  {
    var s := new Session();
    s.Start([Ask("a", "x"), Ask("b", "y")]);
    var u := s.SelectUnguarded("x");
    s.Next();
    s.Prev();
    u := s.SelectUnguarded("x");
    s.Next();
    u := s.SelectUnguarded("y");
    score := s.score;
    total := |s.asks|;
  }

  /**
   * The meaning quiz as written: two questions, the first answered, Next,
   * Prev. The first question is on screen again with no result showing, so
   * a selection is ignored and changes nothing, Next is disabled (no result
   * shows), Prev is disabled (the first question) and the results button is
   * not offered (the second question is unanswered): the run cannot finish.
   */
  method BackIsDeadEnd() returns (current: nat, showResult: bool, complete: bool, ignored: Option<(string, bool)>)
    ensures current == 0 && !showResult && !complete && ignored.None?
  {
    var s := new Session();
    s.Start([Ask("a", "x"), Ask("b", "y")]);
    var u := s.Select("x");
    s.Next();
    s.Prev();
    ignored := s.Select("x");
    assert !s.answered[1];
    current, showResult, complete := s.current, s.showResult, s.Complete();
  }

  /**
   * With Next enabled on an answered question, a run that is not complete
   * always has a way on: the question on screen takes an answer, or it was
   * answered and a later question exists for `NextChecked` to move to.
   */
  lemma ForwardWithChecked(s: Session)
    requires s.Shaped() && s.stage == Quiz && |s.asks| > 0 && !s.Complete()
    ensures (!s.showResult && !s.answered[s.current]) || (s.answered[s.current] && s.current < |s.asks| - 1)
  {
    if s.answered[s.current] && s.current == |s.asks| - 1 {
      assert s.Complete();
    }
  }

  /**
   * The same clicks in the meaning quiz with Next enabled on an answered
   * question: the repeat answer is ignored, Next leaves the revisited
   * question, and the run completes with a score of 2 out of 2.
   */
  method ReanswerIgnored() returns (score: nat, total: nat, ignored: Option<(string, bool)>, complete: bool)
    ensures score == 2 && total == 2 && ignored.None? && complete
  {
    var s := new Session();
    s.Start([Ask("a", "x"), Ask("b", "y")]);
    var u := s.Select("x");
    s.Next();
    s.Prev();
    ignored := s.Select("x");
    s.NextChecked();
    u := s.Select("y");
    score := s.score;
    total := |s.asks|;
    complete := s.Complete();
  }
}
