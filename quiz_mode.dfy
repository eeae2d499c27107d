/**
 * The question pool of the meaning quiz (src/components/QuizMode.tsx): one
 * multiple-choice question per word that has a meaning and a written form,
 * offering its meaning among up to three meanings of other words. The run
 * itself is `QuizSession`.
 */
module QuizMode {
  import opened Optional
  import opened Strings
  import opened Vocabulary
  import opened Shuffling
  import opened QuizSession

  /** `QuizQuestion`. */
  datatype Question = Question(word: Item, options: seq<string>, correctAnswer: string)

  /**
   * The values `Math.random()` gives while the pool is built: the draws of
   * question `k` for its distractors and for their order, and those of the
   * final shuffle.
   */
  datatype Draws = Draws(pick: nat -> Oracle, order: nat -> Oracle, pool: Oracle)

  /** `w.meaning && (w.kanji || w.hiragana)`: a word the quiz can ask about. */
  predicate Eligible(w: Item) {
    w.meaning != "" && (w.kanji != "" || w.hiragana != "")
  }

  /** `.map((v) => v.meaning)`. */
  function MeaningsOf(ws: seq<Item>): (r: seq<string>)
    ensures |r| == |ws| && forall i :: 0 <= i < |r| ==> r[i] == ws[i].meaning
  {
    seq(|ws|, i requires 0 <= i < |ws| => ws[i].meaning)
  }

  /** The candidate distractors of `word`: the non-empty meanings of the other words. */
  function OthersOf(word: Item, words: seq<Item>): (r: seq<string>)
    ensures forall x :: x in r <==> x != "" && exists v :: v in words && v.id != word.id && v.meaning == x
  {
    var ws := Filter(words, OtherThan(word));
    var ms := MeaningsOf(ws);
    assert forall x :: x in ms <==> exists v :: v in ws && v.meaning == x by {
      forall x | x in ms ensures exists v :: v in ws && v.meaning == x {
        var i :| 0 <= i < |ms| && ms[i] == x;
        assert ws[i] in ws;
      }
      forall x | (exists v :: v in ws && v.meaning == x) ensures x in ms {
        var v :| v in ws && v.meaning == x;
        var i :| 0 <= i < |ws| && ws[i] == v;
        assert ms[i] == x;
      }
    }
    Compact(ms)
  }

  /** The question built for the `k`-th eligible word. */
  function MakeQuestion(word: Item, words: seq<Item>, k: nat, d: Draws): Question {
    var correct := word.meaning;
    Question(word, Options(correct, OthersOf(word, words), d.pick(k), d.order(k)), correct)
  }

  /** A question asks for its word's meaning among at most four options, the others meanings of other words. */
  predicate WellFormed(q: Question, words: seq<Item>) {
    && q.correctAnswer == q.word.meaning
    && q.correctAnswer in q.options
    && |q.options| <= 4
    && forall x :: x in q.options ==> x == q.correctAnswer || x in OthersOf(q.word, words)
  }

  /** Each built question is well formed and offers no distractor twice. */
  lemma QuestionSpec(word: Item, words: seq<Item>, k: nat, d: Draws)
    ensures WellFormed(MakeQuestion(word, words, k, d), words)
    ensures forall x :: x != word.meaning ==> multiset(MakeQuestion(word, words, k, d).options)[x] <= 1
  {
    OptionsSpec(word.meaning, OthersOf(word, words), d.pick(k), d.order(k));
  }

  /**
   * The questions before the final shuffle, in the order of the eligible
   * words, one per word.
   */
  function Built(words: seq<Item>, d: Draws): (qs: seq<Question>)
    ensures |qs| == |words|
    ensures forall k :: 0 <= k < |qs| ==> qs[k] == MakeQuestion(words[k], words, k, d)
  {
    seq(|words|, k requires 0 <= k < |words| => MakeQuestion(words[k], words, k, d))
  }

  /**
   * `poolQuestions`: the questions of all eligible words, shuffled. The
   * distractors do not leave out the answer (see `SharedMeaningTwice`).
   */
  function Pool(vocabulary: seq<Item>, d: Draws): seq<Question> {
    var words := Filter(vocabulary, Eligible);
    Shuffled(Built(words, d), d.pool)
  }

  /** The pool has one question per eligible word. */
  lemma PoolSize(vocabulary: seq<Item>, d: Draws)
    ensures |Pool(vocabulary, d)| == |Filter(vocabulary, Eligible)|
  {
  }

  /**
   * Each pool question asks about an eligible word, with distractors taken
   * from the other eligible words, and offers no distractor twice.
   */
  lemma PoolQuestions(vocabulary: seq<Item>, d: Draws)
    ensures forall q :: q in Pool(vocabulary, d) ==>
      q.word in vocabulary && Eligible(q.word) && WellFormed(q, Filter(vocabulary, Eligible))
      && forall x :: x != q.correctAnswer ==> multiset(q.options)[x] <= 1
  {
    var words := Filter(vocabulary, Eligible);
    var qs := Built(words, d);
    ShuffledPerm(qs, d.pool);
    forall q | q in qs
      ensures q.word in words && WellFormed(q, words) && forall x :: x != q.correctAnswer ==> multiset(q.options)[x] <= 1
    {
      var k :| 0 <= k < |qs| && qs[k] == q;
      QuestionSpec(words[k], words, k, d);
      assert words[k] in words;
    }
  }

  /** Every eligible word has a question in the pool. */
  lemma PoolCovers(vocabulary: seq<Item>, d: Draws)
    ensures forall w :: w in vocabulary && Eligible(w) ==> exists q :: q in Pool(vocabulary, d) && q.word == w
  {
    var words := Filter(vocabulary, Eligible);
    var qs := Built(words, d);
    ShuffledPerm(qs, d.pool);
    forall w | w in words ensures exists q :: q in qs && q.word == w {
      var k :| 0 <= k < |words| && words[k] == w;
      assert qs[k] in qs;
    }
  }

  /** What the session needs of the drawn questions. */
  function AsksOf(qs: seq<Question>): (r: seq<Ask>)
    ensures |r| == |qs| && forall i :: 0 <= i < |r| ==> r[i] == Ask(qs[i].word.id, qs[i].correctAnswer)
  {
    seq(|qs|, i requires 0 <= i < |qs| => Ask(qs[i].word.id, qs[i].correctAnswer))
  }

  /**
   * Two words that share a meaning: the first one's question offers its
   * meaning twice, whatever the draws.
   */
  lemma SharedMeaningTwice(w1: Item, w2: Item, d: Draws)
    requires w1.id != w2.id && Eligible(w1) && Eligible(w2) && w1.meaning == w2.meaning
    ensures MakeQuestion(w1, [w1, w2], 0, d).options == [w1.meaning, w1.meaning]
  {
    var ws := Filter([w1, w2], OtherThan(w1));
    assert ws == [w2] by {
      assert [w1, w2][1..] == [w2];
      assert [w2][1..] == [];
      assert !OtherThan(w1)(w1) && OtherThan(w1)(w2);
      assert Filter([w2], OtherThan(w1)) == [w2] + Filter([], OtherThan(w1));
      assert Filter([w1, w2], OtherThan(w1)) == [] + Filter([w2], OtherThan(w1));
    }
    assert MeaningsOf(ws) == [w1.meaning];
    assert Compact([w1.meaning]) == [w1.meaning] by {
      assert [w1.meaning][1..] == [];
    }
    AnswerOfferedTwice(w1.meaning, d.pick(0), d.order(0));
  }

  /** The intended question: the distractors leave out the word's own meaning. */
  function MakeCheckedQuestion(word: Item, words: seq<Item>, k: nat, d: Draws): Question {
    var correct := word.meaning;
    Question(word, CheckedOptions(correct, OthersOf(word, words), d.pick(k), d.order(k)), correct)
  }

  /** The intended question is well formed and offers every option exactly once. */
  lemma CheckedQuestionSpec(word: Item, words: seq<Item>, k: nat, d: Draws)
    ensures WellFormed(MakeCheckedQuestion(word, words, k, d), words)
    ensures forall x :: multiset(MakeCheckedQuestion(word, words, k, d).options)[x] <= 1
  {
    CheckedOptionsSpec(word.meaning, OthersOf(word, words), d.pick(k), d.order(k));
  }
}
