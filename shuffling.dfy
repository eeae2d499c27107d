/**
 * The `shuffle` and `pickN` helpers the three quiz screens share
 * (src/components/QuizMode.tsx, KanjiQuizMode.tsx and, as `pick`,
 * ClozeQuizMode.tsx): a Fisher–Yates shuffle of a copy of the input, and
 * the first `n` elements of a shuffle.
 */
module Shuffling {
  import opened Strings

  /**
   * The values `Math.random()` gives one shuffle: the step at index `i`
   * swaps with `o(i) % (i + 1)`, the `Math.floor(Math.random() * (i + 1))`
   * of the source.
   */
  type Oracle = nat -> nat

  /** The sequence with the elements at `i` and `j` exchanged. */
  function Swap<T>(s: seq<T>, i: nat, j: nat): (r: seq<T>)
    requires i < |s| && j < |s|
    ensures |r| == |s|
    ensures r[i] == s[j] && r[j] == s[i]
    ensures forall k :: 0 <= k < |s| && k != i && k != j ==> r[k] == s[k]
  {
    s[i := s[j]][j := s[i]]
  }

  /** Exchanging two elements keeps the multiset. */
  lemma SwapPerm<T>(s: seq<T>, i: nat, j: nat)
    requires i < |s| && j < |s|
    ensures multiset(Swap(s, i, j)) == multiset(s)
  {
    var t := s[i := s[j]];
    assert multiset(t) == multiset(s) - multiset{s[i]} + multiset{s[j]};
    assert multiset(t[j := s[i]]) == multiset(t) - multiset{t[j]} + multiset{s[i]};
  }

  /** The sequence once the loop has run its steps from index `i` down to 1. */
  function ShuffleFrom<T>(s: seq<T>, i: nat, o: Oracle): (r: seq<T>)
    requires i < |s| || i == 0
    ensures |r| == |s|
    decreases i
  {
    if i == 0 then s else ShuffleFrom(Swap(s, i, o(i) % (i + 1)), i - 1, o)
  }

  /** Every run of the loop only exchanges elements. */
  lemma {:induction false} ShuffleFromPerm<T>(s: seq<T>, i: nat, o: Oracle)
    requires i < |s| || i == 0
    ensures multiset(ShuffleFrom(s, i, o)) == multiset(s)
    decreases i
  {
    if i > 0 {
      var j := o(i) % (i + 1);
      SwapPerm(s, i, j);
      ShuffleFromPerm(Swap(s, i, j), i - 1, o);
    }
  }

  /** What `shuffle(arr)` returns. */
  function Shuffled<T>(s: seq<T>, o: Oracle): (r: seq<T>)
    ensures |r| == |s|
  {
    if |s| == 0 then s else ShuffleFrom(s, |s| - 1, o)
  }

  /** `shuffle` returns a permutation of its input, whatever the draws. */
  lemma ShuffledPerm<T>(s: seq<T>, o: Oracle)
    ensures multiset(Shuffled(s, o)) == multiset(s)
    ensures forall x :: x in Shuffled(s, o) <==> x in s
  {
    if |s| > 0 {
      ShuffleFromPerm(s, |s| - 1, o);
    }
    assert forall x :: x in Shuffled(s, o) <==> x in multiset(Shuffled(s, o));
  }

  /** One step of the loop: the step at `i` swaps, then the steps below it run. */
  lemma ShuffleStep<T>(s: seq<T>, i: nat, o: Oracle)
    requires 0 < i < |s|
    ensures ShuffleFrom(s, i, o) == ShuffleFrom(Swap(s, i, o(i) % (i + 1)), i - 1, o)
  {
  }

  /** `[a[i], a[j]] = [a[j], a[i]]`. */
  method SwapInPlace<T>(a: array<T>, i: nat, j: nat)
    requires i < a.Length && j < a.Length
    modifies a
    ensures a[..] == Swap(old(a[..]), i, j)
  {
    var t := a[i];
    a[i] := a[j];
    a[j] := t;
  }

  /** `shuffle`: the swap loop on a copy of the input, which is left as it was. */
  method Shuffle<T>(arr: seq<T>, o: Oracle) returns (r: seq<T>)
    ensures r == Shuffled(arr, o)
  {
    var a := new T[|arr|](k requires 0 <= k < |arr| => arr[k]);
    assert a[..] == arr;
    if a.Length > 0 {
      var i := a.Length - 1;
      while i > 0
        invariant 0 <= i < a.Length
        invariant ShuffleFrom(a[..], i, o) == Shuffled(arr, o)
        decreases i
      {
        ghost var before := a[..];
        var j := o(i) % (i + 1);
        ShuffleStep(before, i, o);
        SwapInPlace(a, i, j);
        assert ShuffleFrom(a[..], i - 1, o) == Shuffled(arr, o);
        i := i - 1;
      }
    }
    r := a[..];
  }

  /** `pickN(arr, n)`: the first `n` elements of a shuffle, all of them when there are fewer. */
  function PickN<T>(s: seq<T>, n: nat, o: Oracle): seq<T> {
    var t := Shuffled(s, o);
    if n < |t| then t[..n] else t
  }

  /** A pick has `min(n, |s|)` elements, each taken from `s` no more often than it occurs there. */
  lemma PickNSub<T>(s: seq<T>, n: nat, o: Oracle)
    ensures |PickN(s, n, o)| == if n < |s| then n else |s|
    ensures multiset(PickN(s, n, o)) <= multiset(s)
  {
    var t := Shuffled(s, o);
    ShuffledPerm(s, o);
    if n < |t| {
      assert t == t[..n] + t[n..];
      assert multiset(t) == multiset(t[..n]) + multiset(t[n..]);
    }
  }

  /** In a sequence without repeats every element occurs once. */
  lemma {:induction false} DistinctCounts<T>(xs: seq<T>)
    requires Distinct(xs)
    ensures forall x :: multiset(xs)[x] <= 1
    decreases |xs|
  {
    if xs != [] {
      var rest := xs[1..];
      assert Distinct(rest) by {
        forall i, j | 0 <= i < j < |rest| ensures rest[i] != rest[j] {
          assert rest[i] == xs[i + 1] && rest[j] == xs[j + 1];
        }
      }
      DistinctCounts(rest);
      assert xs[0] !in rest by {
        forall k | 0 <= k < |rest| ensures rest[k] != xs[0] {
          assert rest[k] == xs[k + 1];
        }
      }
      assert xs == [xs[0]] + rest;
      assert multiset(xs) == multiset{xs[0]} + multiset(rest);
    }
  }

  /** A pick from a sequence without repeats has no repeats, whatever the draws. */
  lemma PickNDistinct<T>(s: seq<T>, n: nat, o: Oracle)
    requires Distinct(s)
    ensures forall x :: multiset(PickN(s, n, o))[x] <= 1
  {
    DistinctCounts(s);
    PickNSub(s, n, o);
  }
}
