/**
 * The fill-in-the-blank quiz (src/components/ClozeQuizMode.tsx): each word
 * with an example sentence becomes a question showing the sentence with the
 * word blanked out and four labels to choose from; a run counts one answer
 * per question.
 */
module ClozeQuizMode {
  import opened Optional
  import opened Strings
  import opened Vocabulary
  import opened Shuffling
  import QuizSession

  /** The blank put in place of the word. */
  const Blank: string := "［　　］"

  /** `makeLabel`: the trimmed written form, else the trimmed reading, else empty. */
  function MakeLabel(v: Item): string {
    Or(Trim(v.kanji), Trim(v.hiragana))
  }

  /** `v.examples?.length || v.exampleSentence`: a word with an example. */
  predicate IsSource(v: Item) {
    (v.examples.Some? && |v.examples.value| > 0) || Truthy(v.exampleSentence)
  }

  /** The example a question is built from: the first of `examples`, else the legacy sentence. */
  function ExampleOf(v: Item): (e: Option<Pair>)
    ensures e.Some? <==> IsSource(v)
  {
    if v.examples.Some? && |v.examples.value| > 0 then Some(v.examples.value[0])
    else if Truthy(v.exampleSentence) then Some(Pair(v.exampleSentence.value, v.exampleMeaning))
    else None
  }

  /** `buildClozeSentence`: every occurrence of the word blanked, or else the first three characters. */
  function BuildCloze(jp: string, target: string): string {
    if jp != "" && target != "" && Contains(jp, target) then ReplaceAll(jp, target, Blank)
    else
      var n := if |jp| < 3 then |jp| else 3;
      ReplaceFirst(jp, jp[..n], Blank)
  }

  /** A text starts with each of its prefixes. */
  lemma IndexOfPrefix(s: string, n: nat)
    requires n <= |s|
    ensures IndexOf(s, s[..n]) == Some(0)
  {
  }

  /** The blank appears in place of the first occurrence the search finds. */
  lemma ReplaceAllShowsBlank(s: string, t: string)
    requires |t| > 0 && Contains(s, t)
    ensures Contains(ReplaceAll(s, t, Blank), Blank)
  {
    var k := IndexOf(s, t).value;
    var r := ReplaceAll(s, t, Blank);
    assert r == s[..k] + Blank + ReplaceAll(s[k + |t|..], t, Blank);
    assert r[k..k + |Blank|] == Blank;
    assert OccursAt(r, Blank, k);
  }

  /**
   * A sentence that holds the word has every occurrence replaced by the
   * blank; any other sentence has its first three characters (all of a
   * shorter one) replaced by the blank. A non-empty sentence always shows the
   * blank.
   */
  lemma BuildClozeSpec(jp: string, target: string)
    ensures jp != "" && target != "" && Contains(jp, target) ==>
      BuildCloze(jp, target) == Join(Split(jp, target), Blank)
    ensures !(jp != "" && target != "" && Contains(jp, target)) ==>
      BuildCloze(jp, target) == Blank + jp[(if |jp| < 3 then |jp| else 3)..]
    ensures jp != "" ==> Contains(BuildCloze(jp, target), Blank)
  {
    if jp != "" && target != "" && Contains(jp, target) {
      ReplaceAllIsSplitJoin(jp, target, Blank);
      ReplaceAllShowsBlank(jp, target);
    } else {
      var n := if |jp| < 3 then |jp| else 3;
      IndexOfPrefix(jp, n);
      var r := BuildCloze(jp, target);
      assert r == Blank + jp[n..];
      assert OccursAt(r, Blank, 0);
    }
  }

  /** `Q`. */
  datatype Question = Question(item: Item, jp: string, vi: Option<string>, cloze: string, correct: string, choices: seq<string>)

  /** The values `Math.random()` gives the distractor pick and the choice order of the `k`-th source word. */
  datatype Draws = Draws(pick: nat -> Oracle, order: nat -> Oracle)

  /** `vocabulary.map(makeLabel)`. */
  function Labels(ws: seq<Item>): (r: seq<string>)
    ensures |r| == |ws| && forall i :: 0 <= i < |r| ==> r[i] == MakeLabel(ws[i])
  {
    seq(|ws|, i requires 0 <= i < |ws| => MakeLabel(ws[i]))
  }

  /** `(c) => c !== label`. */
  function Except(answer: string): string -> bool {
    (c: string) => c != answer
  }

  /** The choices of a question: the answer and up to three other labels, shuffled. */
  function Choices(answer: string, baseChoices: seq<string>, k: nat, d: Draws): seq<string> {
    var distractors := PickN(Filter(baseChoices, Except(answer)), 3, d.pick(k));
    PickN([answer] + distractors, 4, d.order(k))
  }

  /** The question made from the `k`-th source word, if it has a answer and a sentence. */
  function QuestionFor(v: Item, baseChoices: seq<string>, k: nat, d: Draws): Option<Question> {
    var answer := MakeLabel(v);
    var e := ExampleOf(v);
    if answer == "" || e.None? || e.value.jp == "" then None
    else
      Some(Question(v, e.value.jp, e.value.vi, BuildCloze(e.value.jp, Or(v.kanji, v.hiragana)), answer,
                    Choices(answer, baseChoices, k, d)))
  }

  /** The questions `make` gives the first `k` words, in order, leaving out the words it gives none. */
  function Collect(ws: seq<Item>, k: nat, make: (nat, Item) -> Option<Question>): seq<Question>
    requires k <= |ws|
  {
    if k == 0 then []
    else
      var q := make(k - 1, ws[k - 1]);
      Collect(ws, k - 1, make) + (if q.Some? then [q.value] else [])
  }

  /** One word more. */
  lemma CollectOneMore(ws: seq<Item>, k: nat, make: (nat, Item) -> Option<Question>, q: Option<Question>)
    requires k < |ws| && make(k, ws[k]) == q
    ensures q.None? ==> Collect(ws, k + 1, make) == Collect(ws, k, make)
    ensures q.Some? ==> Collect(ws, k + 1, make) == Collect(ws, k, make) + [q.value]
  {
  }

  /** The question of the `k`-th source word. */
  function Maker(baseChoices: seq<string>, d: Draws): (nat, Item) -> Option<Question> {
    (k: nat, v: Item) => QuestionFor(v, baseChoices, k, d)
  }

  /** `baseChoices`: the non-empty labels of the vocabulary. */
  function BaseChoices(vocabulary: seq<Item>): seq<string> {
    Compact(Labels(vocabulary))
  }

  /** `pool`: the questions of all source words. */
  function Pool(vocabulary: seq<Item>, d: Draws): seq<Question> {
    var sources := Filter(vocabulary, IsSource);
    Collect(sources, |sources|, Maker(BaseChoices(vocabulary), d))
  }

  /**
   * The body of the `for` loop that builds `pool`: a word without a label or
   * without an example sentence is skipped, any other gives its question.
   */
  method QuestionOf(v: Item, baseChoices: seq<string>, k: nat, d: Draws) returns (q: Option<Question>)
    ensures q == Maker(baseChoices, d)(k, v)
  {
    var answer := MakeLabel(v);
    if answer == "" {
      return None;
    }
    var e := ExampleOf(v);
    if e.None? || e.value.jp == "" {
      return None;
    }
    var cloze := BuildCloze(e.value.jp, Or(v.kanji, v.hiragana));
    var distractors := PickN(Filter(baseChoices, Except(answer)), 3, d.pick(k));
    q := Some(Question(v, e.value.jp, e.value.vi, cloze, answer, PickN([answer] + distractors, 4, d.order(k))));
  }

  /** One turn of the `for` loop: the question of the `k`-th source word, if any, is pushed. */
  method PushOne(list: seq<Question>, sources: seq<Item>, baseChoices: seq<string>, k: nat, d: Draws)
    returns (list': seq<Question>)
    requires k < |sources|
    requires list == Collect(sources, k, Maker(baseChoices, d))
    ensures list' == Collect(sources, k + 1, Maker(baseChoices, d))
  {
    var q := QuestionOf(sources[k], baseChoices, k, d);
    CollectOneMore(sources, k, Maker(baseChoices, d), q);
    if q.Some? {
      list' := list + [q.value];
    } else {
      list' := list;
    }
  }

  /** The `for` loop that builds `pool`, one source word at a time. */
  method PushAll(sources: seq<Item>, baseChoices: seq<string>, d: Draws) returns (list: seq<Question>)
    ensures list == Collect(sources, |sources|, Maker(baseChoices, d))
  {
    list := [];
    var k := 0;
    while k < |sources|
      invariant 0 <= k <= |sources|
      invariant list == Collect(sources, k, Maker(baseChoices, d))
    {
      list := PushOne(list, sources, baseChoices, k, d);
      k := k + 1;
    }
  }

  /** `pool`: the labels to draw distractors from, then the questions of the source words. */
  method BuildPool(vocabulary: seq<Item>, d: Draws) returns (list: seq<Question>)
    ensures list == Pool(vocabulary, d)
  {
    var sources := Filter(vocabulary, IsSource);
    var baseChoices := BaseChoices(vocabulary);
    list := PushAll(sources, baseChoices, d);
  }

  /** The distractors leave out the answer and come from the candidates. */
  lemma DistractorsLeaveOutAnswer(answer: string, candidates: seq<string>, o: Oracle)
    ensures var ds := PickN(Filter(candidates, Except(answer)), 3, o);
      && answer !in multiset(ds)
      && |ds| <= 3
      && forall c :: c in multiset(ds) ==> c in candidates
  {
    var others := Filter(candidates, Except(answer));
    PickNSub(others, 3, o);
    assert !Except(answer)(answer);
    assert answer !in others;
  }

  /** Every base choice is the non-empty label of a word of the vocabulary. */
  lemma BaseChoicesSpec(vocabulary: seq<Item>)
    ensures forall c :: c in BaseChoices(vocabulary) <==> c != "" && exists v :: v in vocabulary && MakeLabel(v) == c
  {
    var ls := Labels(vocabulary);
    forall c | c in ls ensures exists v :: v in vocabulary && MakeLabel(v) == c {
      var i :| 0 <= i < |ls| && ls[i] == c;
      assert vocabulary[i] in vocabulary;
    }
    forall c | exists v :: v in vocabulary && MakeLabel(v) == c ensures c in ls {
      var v :| v in vocabulary && MakeLabel(v) == c;
      var i :| 0 <= i < |vocabulary| && vocabulary[i] == v;
      assert ls[i] == c;
    }
  }

  /** The choices hold the answer exactly once and at most three base choices, at most four in all. */
  lemma ChoicesSpec(answer: string, baseChoices: seq<string>, k: nat, d: Draws)
    ensures var r := Choices(answer, baseChoices, k, d);
      && multiset(r)[answer] == 1
      && |r| <= 4
      && forall c :: c in r ==> c == answer || c in baseChoices
  {
    var distractors := PickN(Filter(baseChoices, Except(answer)), 3, d.pick(k));
    DistractorsLeaveOutAnswer(answer, baseChoices, d.pick(k));
    var all := [answer] + distractors;
    ShuffledPerm(all, d.order(k));
    var r := Choices(answer, baseChoices, k, d);
    assert r == Shuffled(all, d.order(k));
    assert multiset(all) == multiset{answer} + multiset(distractors);
    forall c | c in r ensures c == answer || c in baseChoices {
      assert c in multiset(r);
    }
  }

  /** A word qualifies for a question: it has an example with a sentence and a non-empty label. */
  predicate Qualifies(v: Item) {
    IsSource(v) && MakeLabel(v) != "" && ExampleOf(v).value.jp != ""
  }

  /**
   * A question asks for its word's label in the word's first example with
   * the word blanked out, offering the label once among at most four labels
   * of the vocabulary.
   */
  predicate WellFormed(q: Question, vocabulary: seq<Item>) {
    && Qualifies(q.item)
    && q.correct == MakeLabel(q.item)
    && q.jp == ExampleOf(q.item).value.jp
    && q.vi == ExampleOf(q.item).value.vi
    && q.cloze == BuildCloze(q.jp, Or(q.item.kanji, q.item.hiragana))
    && multiset(q.choices)[q.correct] == 1
    && |q.choices| <= 4
    && forall c :: c in q.choices ==> c == q.correct || (c != "" && exists v :: v in vocabulary && MakeLabel(v) == c)
  }

  /** A word gives a question exactly when it qualifies, and the question is a well-formed one about it. */
  lemma QuestionForSpec(v: Item, vocabulary: seq<Item>, k: nat, d: Draws)
    ensures QuestionFor(v, BaseChoices(vocabulary), k, d).Some? <==> Qualifies(v)
    ensures QuestionFor(v, BaseChoices(vocabulary), k, d).Some? ==>
      QuestionFor(v, BaseChoices(vocabulary), k, d).value.item == v &&
      WellFormed(QuestionFor(v, BaseChoices(vocabulary), k, d).value, vocabulary)
  {
    if Qualifies(v) {
      BaseChoicesSpec(vocabulary);
      ChoicesSpec(MakeLabel(v), BaseChoices(vocabulary), k, d);
    }
  }

  /** The first `k` words give at most `k` questions. */
  lemma {:induction false} CollectSize(ws: seq<Item>, k: nat, make: (nat, Item) -> Option<Question>)
    requires k <= |ws|
    ensures |Collect(ws, k, make)| <= k
    decreases k
  {
    if k > 0 {
      CollectSize(ws, k - 1, make);
    }
  }

  /** Each collected question is the one `make` gives one of the first `k` words. */
  lemma {:induction false} CollectFrom(ws: seq<Item>, k: nat, make: (nat, Item) -> Option<Question>)
    requires k <= |ws|
    ensures forall q :: q in Collect(ws, k, make) ==> exists i :: 0 <= i < k && make(i, ws[i]) == Some(q)
    decreases k
  {
    if k > 0 {
      CollectFrom(ws, k - 1, make);
    }
  }

  /** Each question `make` gives one of the first `k` words is collected. */
  lemma {:induction false} CollectCovers(ws: seq<Item>, k: nat, make: (nat, Item) -> Option<Question>)
    requires k <= |ws|
    ensures forall i :: 0 <= i < k && make(i, ws[i]).Some? ==> make(i, ws[i]).value in Collect(ws, k, make)
    decreases k
  {
    if k > 0 {
      CollectCovers(ws, k - 1, make);
    }
  }

  /** There are at most as many questions as words with an example. */
  lemma PoolSize(vocabulary: seq<Item>, d: Draws)
    ensures |Pool(vocabulary, d)| <= |Filter(vocabulary, IsSource)|
  {
    var sources := Filter(vocabulary, IsSource);
    CollectSize(sources, |sources|, Maker(BaseChoices(vocabulary), d));
  }

  /** Every question of the pool is a well-formed question about a word of the vocabulary. */
  lemma PoolQuestions(vocabulary: seq<Item>, d: Draws)
    ensures forall q :: q in Pool(vocabulary, d) ==> q.item in vocabulary && WellFormed(q, vocabulary)
  {
    var sources := Filter(vocabulary, IsSource);
    CollectFrom(sources, |sources|, Maker(BaseChoices(vocabulary), d));
    forall q | q in Pool(vocabulary, d) ensures q.item in vocabulary && WellFormed(q, vocabulary) {
      var i :| 0 <= i < |sources| && Maker(BaseChoices(vocabulary), d)(i, sources[i]) == Some(q);
      QuestionForSpec(sources[i], vocabulary, i, d);
      assert sources[i] in sources;
    }
  }

  /** Every qualifying word of the vocabulary has a question in the pool. */
  lemma PoolCovers(vocabulary: seq<Item>, d: Draws)
    ensures forall v :: v in vocabulary && Qualifies(v) ==> exists q :: q in Pool(vocabulary, d) && q.item == v
  {
    var sources := Filter(vocabulary, IsSource);
    CollectCovers(sources, |sources|, Maker(BaseChoices(vocabulary), d));
    forall v | v in vocabulary && Qualifies(v) ensures exists q :: q in Pool(vocabulary, d) && q.item == v {
      assert v in sources;
      var i :| 0 <= i < |sources| && sources[i] == v;
      QuestionForSpec(v, vocabulary, i, d);
      assert Maker(BaseChoices(vocabulary), d)(i, sources[i]).value in Pool(vocabulary, d);
    }
  }

  /** The ids of the words of some questions, in order. */
  function ItemIds(qs: seq<Question>): (r: seq<string>)
    ensures |r| == |qs| && forall i :: 0 <= i < |r| ==> r[i] == qs[i].item.id
  {
    seq(|qs|, i requires 0 <= i < |qs| => qs[i].item.id)
  }

  /** How many of the questions have been answered, on the setup screen, a question, or the result screen. */
  function AnsweredOf(stage: QuizSession.Stage, n: nat, idx: nat, picked: bool): nat {
    match stage
    case Setup => 0
    case Quiz => idx + (if picked then 1 else 0)
    case Done => n
  }

  /**
   * The score counts the right answers, and every question up to the
   * current one, the current one once it is answered, has its word's id in
   * exactly one of the two lists. On the result screen that is every
   * question.
   */
  ghost predicate Tallied(stage: QuizSession.Stage, questions: seq<Question>, idx: nat, picked: bool,
                          score: nat, correctIds: seq<string>, wrongIds: seq<string>)
  {
    && score == |correctIds|
    && (stage == QuizSession.Setup ==> questions == [] && idx == 0 && !picked)
    && (stage == QuizSession.Quiz ==> idx < |questions|)
    && (stage == QuizSession.Done ==> idx + 1 == |questions| && picked)
    && AnsweredOf(stage, |questions|, idx, picked) <= |questions|
    && multiset(correctIds) + multiset(wrongIds) ==
         multiset(ItemIds(questions[..AnsweredOf(stage, |questions|, idx, picked)]))
  }

  /** Answering the current question adds its id to the list its verdict names. */
  lemma TallyPick(questions: seq<Question>, idx: nat, score: nat, correctIds: seq<string>, wrongIds: seq<string>,
                  right: bool)
    requires Tallied(QuizSession.Quiz, questions, idx, false, score, correctIds, wrongIds)
    ensures right ==>
      Tallied(QuizSession.Quiz, questions, idx, true, score + 1, correctIds + [questions[idx].item.id], wrongIds)
    ensures !right ==>
      Tallied(QuizSession.Quiz, questions, idx, true, score, correctIds, wrongIds + [questions[idx].item.id])
  {
    assert questions[..idx + 1] == questions[..idx] + [questions[idx]];
    assert ItemIds(questions[..idx + 1]) == ItemIds(questions[..idx]) + [questions[idx].item.id];
  }

  /** One run of the quiz: the setup screen, the questions one at a time, and the result screen. */
  class Run {
    var stage: QuizSession.Stage
    var questions: seq<Question>
    var idx: nat
    var score: nat
    var picked: Option<string>
    var showMeaning: bool
    var correctIds: seq<string>
    var wrongIds: seq<string>

    /** `done`. */
    predicate Finished()
      reads this
    {
      stage == QuizSession.Done || idx >= |questions|
    }

    ghost predicate Valid()
      reads this
    {
      Tallied(stage, questions, idx, picked.Some?, score, correctIds, wrongIds)
    }

    /** The setup screen. */
    constructor()
      ensures Valid() && stage == QuizSession.Setup
      ensures correctIds == [] && wrongIds == [] && !showMeaning
    {
      stage := QuizSession.Setup;
      questions := [];
      idx := 0;
      score := 0;
      picked := None;
      showMeaning := false;
      correctIds := [];
      wrongIds := [];
    }

    /**
     * `startQuiz`: a draw of `count` questions from a non-empty pool, with a
     * clean tally. The button is disabled while the pool is empty.
     */
    method Start(pool: seq<Question>, desired: int, o: Oracle)
      requires |pool| > 0
      requires desired == 10 || desired == 20 || desired == 30 || desired == -1
      modifies this
      ensures Valid() && stage == QuizSession.Quiz && !Finished()
      ensures questions == QuizSession.Draw(pool, desired, o)
      ensures idx == 0 && score == 0 && picked.None? && !showMeaning && correctIds == [] && wrongIds == []
    {
      questions := QuizSession.Draw(pool, desired, o);
      QuizSession.DrawSpec(pool, desired, o);
      idx := 0;
      score := 0;
      picked := None;
      showMeaning := false;
      correctIds := [];
      wrongIds := [];
      stage := QuizSession.Quiz;
    }

    /** "Show meaning". */
    method ShowMeaning()
      modifies this
      ensures showMeaning
      ensures stage == old(stage) && questions == old(questions) && idx == old(idx) && score == old(score)
      ensures picked == old(picked) && correctIds == old(correctIds) && wrongIds == old(wrongIds)
    {
      showMeaning := true;
    }

    /**
     * `handlePick`: the first choice on a question is kept and tallied; the
     * buttons are disabled after it, and the handler ignores a second one.
     * Every choice is a non-empty label.
     */
    method Pick(c: string)
      requires Valid() && stage == QuizSession.Quiz && c != ""
      modifies this
      ensures Valid()
      ensures old(picked).Some? ==>
        (picked == old(picked) && score == old(score) && correctIds == old(correctIds) && wrongIds == old(wrongIds))
      ensures old(picked).None? ==> picked == Some(c)
      ensures old(picked).None? && c == questions[idx].correct ==>
        score == old(score) + 1 && correctIds == old(correctIds) + [questions[idx].item.id] && wrongIds == old(wrongIds)
      ensures old(picked).None? && c != questions[idx].correct ==>
        score == old(score) && correctIds == old(correctIds) && wrongIds == old(wrongIds) + [questions[idx].item.id]
      ensures stage == old(stage) && questions == old(questions) && idx == old(idx) && showMeaning == old(showMeaning)
    {
      if picked.Some? {
        return;
      }
      var q := questions[idx];
      TallyPick(questions, idx, score, correctIds, wrongIds, c == q.correct);
      picked := Some(c);
      if c == q.correct {
        score := score + 1;
        correctIds := correctIds + [q.item.id];
      } else {
        wrongIds := wrongIds + [q.item.id];
      }
    }

    /**
     * `next`: on to the following question with a fresh choice and the
     * meaning hidden, or to the result screen after the last. The button is
     * disabled until a choice is made.
     */
    method Next()
      requires Valid() && stage == QuizSession.Quiz && picked.Some?
      modifies this
      ensures Valid()
      ensures old(idx) + 1 < |questions| ==>
        stage == QuizSession.Quiz && idx == old(idx) + 1 && picked.None? && !showMeaning
      ensures old(idx) + 1 >= |questions| ==>
        stage == QuizSession.Done && idx == old(idx) && picked == old(picked) && showMeaning == old(showMeaning)
      ensures questions == old(questions) && score == old(score)
      ensures correctIds == old(correctIds) && wrongIds == old(wrongIds)
    {
      if idx + 1 < |questions| {
        idx := idx + 1;
        picked := None;
        showMeaning := false;
      } else {
        stage := QuizSession.Done;
      }
    }
  }

  /**
   * On the result screen every question has been answered once: the two
   * lists together hold the questions' ids, and the score is at most the
   * number of questions.
   */
  lemma ResultTally(r: Run)
    requires r.Valid() && r.stage == QuizSession.Done
    ensures |r.correctIds| + |r.wrongIds| == |r.questions|
    ensures r.score <= |r.questions|
    ensures multiset(r.correctIds) + multiset(r.wrongIds) == multiset(ItemIds(r.questions))
  {
    assert r.questions[..|r.questions|] == r.questions;
    assert |multiset(r.correctIds) + multiset(r.wrongIds)| == |multiset(ItemIds(r.questions))|;
  }
}
