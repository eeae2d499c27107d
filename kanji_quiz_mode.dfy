/**
 * The question pool of the kanji quiz (src/components/KanjiQuizMode.tsx):
 * for each word with both a written form and a reading, one question in a
 * direction chosen by a coin — pick the written form for the reading, or the
 * reading for the written form — plus both directions for the first five
 * words when the vocabulary is small. The run itself is `QuizSession`.
 */
module KanjiQuizMode {
  import opened Optional
  import opened Strings
  import opened Vocabulary
  import opened Shuffling
  import opened QuizSession

  /** `QType`. */
  datatype Direction = ReadingToKanji | KanjiToReading

  /** `Q`: the word's id, the direction, what is shown, the right answer and the options. */
  datatype Question = Question(id: string, dir: Direction, prompt: string, correct: string, options: seq<string>)

  /**
   * The values `Math.random()` gives while the pool is built: the coin of
   * each word, the draws of the question pushed at position `n` for its
   * distractors and their order, and those of the final shuffle.
   */
  datatype Draws = Draws(coin: nat -> bool, pick: nat -> Oracle, order: nat -> Oracle, pool: Oracle)

  /** `v.kanji && v.hiragana`. */
  predicate Eligible(w: Item) {
    w.kanji != "" && w.hiragana != ""
  }

  /** The written forms or the readings of some words. */
  function Texts(ws: seq<Item>, dir: Direction): (r: seq<string>)
    ensures |r| == |ws|
    ensures forall i :: 0 <= i < |r| ==> r[i] == (if dir == ReadingToKanji then ws[i].kanji else ws[i].hiragana)
  {
    seq(|ws|, i requires 0 <= i < |ws| => if dir == ReadingToKanji then ws[i].kanji else ws[i].hiragana)
  }

  /** The text a direction shows and the one it asks for. */
  function Prompt(w: Item, dir: Direction): string {
    if dir == ReadingToKanji then w.hiragana else w.kanji
  }

  function Answer(w: Item, dir: Direction): string {
    if dir == ReadingToKanji then w.kanji else w.hiragana
  }

  /**
   * `makeReadingToKanji` / `makeKanjiToReading`, and the extra pushes, as the
   * `n`-th push; the distractors are the texts of the other words, which may
   * include the answer itself (`AnswerOfferedTwice`).
   */
  function Make(w: Item, words: seq<Item>, dir: Direction, n: nat, d: Draws): Question {
    var others := Texts(Filter(words, OtherThan(w)), dir);
    Question(w.id, dir, Prompt(w, dir), Answer(w, dir), Options(Answer(w, dir), others, d.pick(n), d.order(n)))
  }

  /** The intended question: the distractors leave out the answer. */
  function CheckedMake(w: Item, words: seq<Item>, dir: Direction, n: nat, d: Draws): Question {
    var others := Texts(Filter(words, OtherThan(w)), dir);
    Question(w.id, dir, Prompt(w, dir), Answer(w, dir), CheckedOptions(Answer(w, dir), others, d.pick(n), d.order(n)))
  }

  /** The direction the coin picks: `Math.random() < 0.5` asks for the written form. */
  function Coin(d: Draws, k: nat): Direction {
    if d.coin(k) then ReadingToKanji else KanjiToReading
  }

  /** Whether the small-vocabulary extras are added after `main` questions for these words. */
  predicate WantsExtras(main: nat, words: seq<Item>) {
    main < 6 && |words| >= 2
  }

  /** The number of words that get both directions as extras. */
  function ExtraWords(words: seq<Item>): nat {
    if 5 < |words| then 5 else |words|
  }

  /** The question pushed at position `n`, for `n` below the pool size. */
  function Pushed(words: seq<Item>, n: nat, d: Draws): Question
    requires n < |words| || (WantsExtras(|words|, words) && n < |words| + 2 * ExtraWords(words))
  {
    if n < |words| then Make(words[n], words, Coin(d, n), n, d)
    else
      var j := (n - |words|) / 2;
      Make(words[j], words, if (n - |words|) % 2 == 0 then ReadingToKanji else KanjiToReading, n, d)
  }

  /** The size of the pool before shuffling. */
  function PoolSize(words: seq<Item>): nat {
    if WantsExtras(|words|, words) then |words| + 2 * ExtraWords(words) else |words|
  }

  /** The questions in push order. */
  function Unshuffled(words: seq<Item>, d: Draws): (qs: seq<Question>)
    ensures |qs| == PoolSize(words)
    ensures forall n :: 0 <= n < |qs| ==> qs[n] == Pushed(words, n, d)
  {
    seq(PoolSize(words), n requires 0 <= n < PoolSize(words) => Pushed(words, n, d))
  }

  /** `fullQuestions`: all pushed questions, shuffled. */
  function FullQuestions(vocabulary: seq<Item>, d: Draws): seq<Question> {
    Shuffled(Unshuffled(Filter(vocabulary, Eligible), d), d.pool)
  }

  /**
   * The pool holds one question per eligible word, or three per word (one by
   * the coin and both directions) when there are two to five of them.
   */
  lemma FullQuestionsSize(vocabulary: seq<Item>, d: Draws)
    ensures var n := |Filter(vocabulary, Eligible)|;
      |FullQuestions(vocabulary, d)| == if 2 <= n < 6 then 3 * n else n
  {
  }

  /**
   * A question shows one side of a word and asks for the other among at
   * most four options, offering no distractor twice (the answer itself may
   * come twice).
   */
  ghost predicate WellFormed(q: Question, vocabulary: seq<Item>) {
    && (exists w :: w in vocabulary && Eligible(w) && w.id == q.id &&
          q.prompt == Prompt(w, q.dir) && q.correct == Answer(w, q.dir))
    && q.correct in q.options
    && |q.options| <= 4
    && (forall x :: x != q.correct ==> multiset(q.options)[x] <= 1)
    && q.correct != "" && q.prompt != ""
  }

  /** Every pushed question is well formed; its distractors are texts of the other words. */
  lemma MakeSpec(w: Item, words: seq<Item>, vocabulary: seq<Item>, dir: Direction, n: nat, d: Draws)
    requires w in words && forall v :: v in words ==> v in vocabulary && Eligible(v)
    ensures WellFormed(Make(w, words, dir, n, d), vocabulary)
    ensures forall x :: x in Make(w, words, dir, n, d).options ==>
      x == Answer(w, dir) || x in Texts(Filter(words, OtherThan(w)), dir)
  {
    var others := Texts(Filter(words, OtherThan(w)), dir);
    OptionsSpec(Answer(w, dir), others, d.pick(n), d.order(n));
  }

  /**
   * Two words with the same written form and different readings: the
   * question asking for the first one's written form offers it twice,
   * whatever the draws.
   */
  lemma SharedKanjiTwice(w1: Item, w2: Item, n: nat, d: Draws)
    requires w1.id != w2.id && Eligible(w1) && Eligible(w2) && w1.kanji == w2.kanji
    ensures Make(w1, [w1, w2], ReadingToKanji, n, d).options == [w1.kanji, w1.kanji]
  {
    var ws := Filter([w1, w2], OtherThan(w1));
    assert ws == [w2] by {
      assert [w1, w2][1..] == [w2];
      assert [w2][1..] == [];
      assert !OtherThan(w1)(w1) && OtherThan(w1)(w2);
      assert Filter([w2], OtherThan(w1)) == [w2] + Filter([], OtherThan(w1));
      assert Filter([w1, w2], OtherThan(w1)) == [] + Filter([w2], OtherThan(w1));
    }
    assert Texts(ws, ReadingToKanji) == [w1.kanji];
    AnswerOfferedTwice(w1.kanji, d.pick(n), d.order(n));
  }

  /** The intended question is well formed and offers every option exactly once. */
  lemma CheckedMakeSpec(w: Item, words: seq<Item>, vocabulary: seq<Item>, dir: Direction, n: nat, d: Draws)
    requires w in words && forall v :: v in words ==> v in vocabulary && Eligible(v)
    ensures WellFormed(CheckedMake(w, words, dir, n, d), vocabulary)
    ensures forall x :: multiset(CheckedMake(w, words, dir, n, d).options)[x] <= 1
  {
    var others := Texts(Filter(words, OtherThan(w)), dir);
    CheckedOptionsSpec(Answer(w, dir), others, d.pick(n), d.order(n));
  }

  /** The extras at positions `|words| + 2j` and `|words| + 2j + 1` ask both directions of word `j`. */
  lemma PushedExtra(words: seq<Item>, j: nat, d: Draws)
    requires WantsExtras(|words|, words) && j < ExtraWords(words)
    ensures Pushed(words, |words| + 2 * j, d) == Make(words[j], words, ReadingToKanji, |words| + 2 * j, d)
    ensures Pushed(words, |words| + 2 * j + 1, d) == Make(words[j], words, KanjiToReading, |words| + 2 * j + 1, d)
  {
    assert (2 * j) / 2 == j && (2 * j) % 2 == 0;
    assert (2 * j + 1) / 2 == j && (2 * j + 1) % 2 == 1;
  }

  /** The question at each push position is well formed. */
  lemma PushedWellFormed(words: seq<Item>, vocabulary: seq<Item>, n: nat, d: Draws)
    requires n < |words| || (WantsExtras(|words|, words) && n < |words| + 2 * ExtraWords(words))
    requires forall v :: v in words ==> v in vocabulary && Eligible(v)
    ensures WellFormed(Pushed(words, n, d), vocabulary)
  {
    if n < |words| {
      MakeSpec(words[n], words, vocabulary, Coin(d, n), n, d);
    } else {
      var j := (n - |words|) / 2;
      MakeSpec(words[j], words, vocabulary,
        if (n - |words|) % 2 == 0 then ReadingToKanji else KanjiToReading, n, d);
    }
  }

  /** Every question of the pool is well formed. */
  lemma FullQuestionsWellFormed(vocabulary: seq<Item>, d: Draws)
    ensures forall q :: q in FullQuestions(vocabulary, d) ==> WellFormed(q, vocabulary)
  {
    var words := Filter(vocabulary, Eligible);
    var qs := Unshuffled(words, d);
    ShuffledPerm(qs, d.pool);
    forall q | q in qs ensures WellFormed(q, vocabulary) {
      var n :| 0 <= n < |qs| && qs[n] == q;
      PushedWellFormed(words, vocabulary, n, d);
    }
  }

  /** Every eligible word is asked about at least once. */
  lemma FullQuestionsCover(vocabulary: seq<Item>, d: Draws)
    ensures forall w :: w in vocabulary && Eligible(w) ==>
      exists q :: q in FullQuestions(vocabulary, d) && q.id == w.id && q.prompt == Prompt(w, q.dir)
  {
    var words := Filter(vocabulary, Eligible);
    var qs := Unshuffled(words, d);
    ShuffledPerm(qs, d.pool);
    forall w | w in words ensures exists q :: q in qs && q.id == w.id && q.prompt == Prompt(w, q.dir) {
      var k :| 0 <= k < |words| && words[k] == w;
      assert qs[k] in qs;
    }
  }

  /** A prefix one element longer. */
  lemma TakeOneMore<T>(s: seq<T>, m: nat)
    requires m < |s|
    ensures s[..m + 1] == s[..m] + [s[m]]
  {
  }

  /** `words.forEach(...)`: one question per word, in the direction of its coin. */
  method PushMain(words: seq<Item>, d: Draws) returns (qs: seq<Question>)
    ensures qs == Unshuffled(words, d)[..|words|]
  {
    ghost var all := Unshuffled(words, d);
    qs := [];
    var k := 0;
    while k < |words|
      invariant 0 <= k <= |words|
      invariant qs == all[..k]
    {
      var q := Make(words[k], words, Coin(d, k), k, d);
      assert q == all[k];
      TakeOneMore(all, k);
      qs := qs + [q];
      k := k + 1;
    }
  }

  /** The extras: both directions for each of the first five words. */
  method PushExtras(words: seq<Item>, d: Draws, main: seq<Question>) returns (qs: seq<Question>)
    requires WantsExtras(|words|, words)
    requires main == Unshuffled(words, d)[..|words|]
    ensures qs == Unshuffled(words, d)
  {
    ghost var all := Unshuffled(words, d);
    qs := main;
    var j := 0;
    while j < ExtraWords(words)
      invariant 0 <= j <= ExtraWords(words)
      invariant qs == all[..|words| + 2 * j]
    {
      var w := words[j];
      ghost var m := |words| + 2 * j;
      PushedExtra(words, j, d);
      var toKanji := Make(w, words, ReadingToKanji, |qs|, d);
      assert toKanji == all[m];
      TakeOneMore(all, m);
      qs := qs + [toKanji];
      var toReading := Make(w, words, KanjiToReading, |qs|, d);
      assert toReading == all[m + 1];
      TakeOneMore(all, m + 1);
      qs := qs + [toReading];
      j := j + 1;
    }
    assert all[..|all|] == all;
  }

  /**
   * `fullQuestions`: the questions pushed for every word, the extras when
   * fewer than six were made from at least two words, then the shuffle.
   */
  method BuildFullQuestions(vocabulary: seq<Item>, d: Draws) returns (r: seq<Question>)
    ensures r == FullQuestions(vocabulary, d)
  {
    var words := Filter(vocabulary, Eligible);
    var qs := PushMain(words, d);
    if |qs| < 6 && |words| >= 2 {
      qs := PushExtras(words, d, qs);
    } else {
      assert Unshuffled(words, d)[..|words|] == Unshuffled(words, d);
    }
    r := Shuffle(qs, d.pool);
  }

  /** What the session needs of the drawn questions. */
  function AsksOf(qs: seq<Question>): (r: seq<Ask>)
    ensures |r| == |qs| && forall i :: 0 <= i < |r| ==> r[i] == Ask(qs[i].id, qs[i].correct)
  {
    seq(|qs|, i requires 0 <= i < |qs| => Ask(qs[i].id, qs[i].correct))
  }
}
