/**
 * `senses.sort((x, y) => x.index - y.index)`: the stable sort the
 * JavaScript engine performs (ECMAScript 2019 and later), written as an
 * insertion sort that puts each sense after every sense whose index is not
 * larger.
 */
module Sorting {
  import opened Vocabulary

  predicate SortedByIndex(xs: seq<Sense>) {
    forall i, j :: 0 <= i < j < |xs| ==> xs[i].index <= xs[j].index
  }

  predicate StrictlyIncreasing(xs: seq<Sense>) {
    forall i, j :: 0 <= i < j < |xs| ==> xs[i].index < xs[j].index
  }

  /** No two senses share an index. */
  predicate UniqueIndices(xs: seq<Sense>) {
    forall i, j :: 0 <= i < j < |xs| ==> xs[i].index != xs[j].index
  }

  /** Puts `x` into `ys` after the leading elements whose index is at most `x.index`. */
  function Insert(x: Sense, ys: seq<Sense>): (r: seq<Sense>)
    ensures |r| == |ys| + 1
    ensures forall y :: y in r <==> y == x || y in ys
  {
    if ys == [] then [x]
    else if x.index < ys[0].index then [x] + ys
    else [ys[0]] + Insert(x, ys[1..])
  }

  /** Inserting into a sorted sequence keeps it sorted. */
  lemma {:induction false} InsertSorted(x: Sense, ys: seq<Sense>)
    requires SortedByIndex(ys)
    ensures SortedByIndex(Insert(x, ys))
    decreases |ys|
  {
    if ys != [] && x.index >= ys[0].index {
      var rest := Insert(x, ys[1..]);
      InsertSorted(x, ys[1..]);
      forall j | 0 <= j < |rest| ensures ys[0].index <= rest[j].index {
        assert rest[j] in rest;
        if rest[j] != x {
          var k :| 0 <= k < |ys[1..]| && ys[1..][k] == rest[j];
          assert ys[k + 1] == rest[j];
        }
      }
      assert Insert(x, ys) == [ys[0]] + rest;
    }
  }

  /** The sorted order of `xs`, equal indices in input order. */
  function SortByIndex(xs: seq<Sense>): (r: seq<Sense>)
    ensures SortedByIndex(r)
    ensures |r| == |xs|
    ensures forall y :: y in r <==> y in xs
  {
    if xs == [] then []
    else
      var init := xs[..|xs| - 1];
      var x := xs[|xs| - 1];
      assert xs == init + [x];
      InsertSorted(x, SortByIndex(init));
      Insert(x, SortByIndex(init))
  }

  /** Inserting a new index into a strictly increasing sequence keeps it strictly increasing. */
  lemma {:induction false} InsertStrict(x: Sense, ys: seq<Sense>)
    requires StrictlyIncreasing(ys)
    requires forall i :: 0 <= i < |ys| ==> ys[i].index != x.index
    ensures StrictlyIncreasing(Insert(x, ys))
    decreases |ys|
  {
    if ys != [] && x.index >= ys[0].index {
      var rest := Insert(x, ys[1..]);
      InsertStrict(x, ys[1..]);
      assert Insert(x, ys) == [ys[0]] + rest;
      forall j | 0 <= j < |rest| ensures ys[0].index < rest[j].index {
        assert rest[j] in rest;
        if rest[j] != x {
          var k :| 0 <= k < |ys[1..]| && ys[1..][k] == rest[j];
          assert ys[k + 1] == rest[j];
        }
      }
    }
  }

  /** Senses with pairwise different indices come out strictly increasing. */
  lemma {:induction false} SortStrict(xs: seq<Sense>)
    requires UniqueIndices(xs)
    ensures StrictlyIncreasing(SortByIndex(xs))
    decreases |xs|
  {
    if xs != [] {
      var init := xs[..|xs| - 1];
      var x := xs[|xs| - 1];
      SortStrict(init);
      var sorted := SortByIndex(init);
      forall i | 0 <= i < |sorted| ensures sorted[i].index != x.index {
        assert sorted[i] in init;
      }
      InsertStrict(x, sorted);
    }
  }

  /** The senses of `xs` with index `k`, in order. */
  function WithIndex(xs: seq<Sense>, k: int): (r: seq<Sense>)
    ensures forall i :: 0 <= i < |r| ==> r[i].index == k
  {
    if xs == [] then []
    else (if xs[0].index == k then [xs[0]] else []) + WithIndex(xs[1..], k)
  }

  lemma {:induction false} WithIndexAppend(a: seq<Sense>, b: seq<Sense>, k: int)
    ensures WithIndex(a + b, k) == WithIndex(a, k) + WithIndex(b, k)
    decreases |a|
  {
    if a == [] {
      assert a + b == b;
    } else {
      assert (a + b)[1..] == a[1..] + b;
      WithIndexAppend(a[1..], b, k);
    }
  }

  lemma {:induction false} WithIndexNone(ys: seq<Sense>, k: int)
    requires forall i :: 0 <= i < |ys| ==> ys[i].index != k
    ensures WithIndex(ys, k) == []
    decreases |ys|
  {
    if ys != [] {
      WithIndexNone(ys[1..], k);
    }
  }

  lemma {:induction false} InsertWithIndex(x: Sense, ys: seq<Sense>, k: int)
    requires SortedByIndex(ys)
    ensures WithIndex(Insert(x, ys), k) == WithIndex(ys, k) + (if x.index == k then [x] else [])
    decreases |ys|
  {
    if ys == [] {
      assert WithIndex([x], k) == (if x.index == k then [x] else []) + WithIndex([], k);
    } else if x.index < ys[0].index {
      InsertFrontWithIndex(x, ys, k);
    } else {
      InsertWithIndex(x, ys[1..], k);
      InsertLaterWithIndex(x, ys, k);
    }
  }

  lemma InsertFrontWithIndex(x: Sense, ys: seq<Sense>, k: int)
    requires SortedByIndex(ys) && ys != [] && x.index < ys[0].index
    ensures WithIndex([x] + ys, k) == WithIndex(ys, k) + (if x.index == k then [x] else [])
  {
    assert ([x] + ys)[1..] == ys;
    if x.index == k {
      WithIndexNone(ys, k);
    }
  }

  lemma InsertLaterWithIndex(x: Sense, ys: seq<Sense>, k: int)
    requires ys != [] && x.index >= ys[0].index
    requires WithIndex(Insert(x, ys[1..]), k) == WithIndex(ys[1..], k) + (if x.index == k then [x] else [])
    ensures WithIndex(Insert(x, ys), k) == WithIndex(ys, k) + (if x.index == k then [x] else [])
  {
    var rest := Insert(x, ys[1..]);
    assert Insert(x, ys) == [ys[0]] + rest;
    WithIndexCons(ys[0], rest, k);
    WithIndexCons(ys[0], ys[1..], k);
    assert [ys[0]] + ys[1..] == ys;
  }

  lemma WithIndexCons(y: Sense, ys: seq<Sense>, k: int)
    ensures WithIndex([y] + ys, k) == (if y.index == k then [y] else []) + WithIndex(ys, k)
  {
    assert ([y] + ys)[1..] == ys;
  }

  /** The sort is stable: the senses sharing an index keep their relative order. */
  lemma {:induction false} SortStable(xs: seq<Sense>, k: int)
    ensures WithIndex(SortByIndex(xs), k) == WithIndex(xs, k)
    decreases |xs|
  {
    if xs != [] {
      var init := xs[..|xs| - 1];
      var x := xs[|xs| - 1];
      SortStable(init, k);
      InsertWithIndex(x, SortByIndex(init), k);
      assert xs == init + [x];
      WithIndexAppend(init, [x], k);
    }
  }
}
