/**
 * src/lib/mergeVocab.ts: merging imported multi-sense words into the stored
 * ones by explicit id. Each incoming word either joins the id-keyed map or is
 * merged into the word already under its id; the senses of the two are merged
 * by index and sorted. The Leitner progress of a stored word always survives.
 */
module MergeVocab {
  import opened Optional
  import opened Strings
  import opened Vocabulary
  import opened OrderedMaps
  import opened Sorting

  function IdOf(v: VocabV2): string { v.id }
  function SenseIndex(s: Sense): int { s.index }

  /** `unique`: drops empty strings and repeats, keeping first occurrences. */
  function Unique(arr: seq<string>): (r: seq<string>)
    ensures Distinct(r)
    ensures forall x :: x in r <==> x in arr && x != ""
  {
    DedupIsDistinct(Compact(arr));
    Dedup(Compact(arr))
  }

  /** `Unique` keeps the order of first occurrence: the unique tags of `a` come first. */
  lemma UniquePrefix(a: seq<string>, b: seq<string>)
    ensures Unique(a) <= Unique(a + b)
  {
    CompactAppend(a, b);
    DedupPrefix(Compact(a), Compact(b));
  }

  /** The senses of a map keyed by index have pairwise different indices. */
  lemma IndexedValuesUnique(xs: seq<Sense>)
    ensures UniqueIndices(Values(FromList(xs, SenseIndex)))
  {
    var vs := Values(FromList(xs, SenseIndex));
    FromListValuesKeys(xs, SenseIndex);
    assert forall i :: 0 <= i < |vs| ==> KeysOf(vs, SenseIndex)[i] == vs[i].index;
  }

  /** The senses of a map keyed by index are the last sense given for each index. */
  lemma IndexedValuesLast(xs: seq<Sense>)
    ensures forall s :: s in SortByIndex(Values(FromList(xs, SenseIndex))) <==> LastWith(xs, SenseIndex, s.index) == Some(s)
  {
    forall s ensures s in Values(FromList(xs, SenseIndex)) <==> LastWith(xs, SenseIndex, s.index) == Some(s) {
      FromListValues(xs, SenseIndex, s);
    }
  }

  /** `mergeSenses`, as a value: the senses of `a` then `b` by index (the last one wins), sorted. */
  function MergeSensesSpec(a: seq<Sense>, b: seq<Sense>): seq<Sense> {
    SortByIndex(Values(FromList(a + b, SenseIndex)))
  }

  /** The merged senses have strictly increasing indices, and each is the last sense given for its index. */
  lemma MergeSensesSorted(a: seq<Sense>, b: seq<Sense>)
    ensures StrictlyIncreasing(MergeSensesSpec(a, b))
    ensures forall s :: s in MergeSensesSpec(a, b) <==> LastWith(a + b, SenseIndex, s.index) == Some(s)
  {
    IndexedValuesUnique(a + b);
    SortStrict(Values(FromList(a + b, SenseIndex)));
    IndexedValuesLast(a + b);
  }

  /**
   * A sense of the incoming word replaces the stored sense with the same
   * index; a stored index the incoming word lacks keeps its stored sense.
   */
  lemma IncomingSenseWins(a: seq<Sense>, b: seq<Sense>, s: Sense)
    ensures s in MergeSensesSpec(a, b) <==>
      LastWith(b, SenseIndex, s.index).OrElse(LastWith(a, SenseIndex, s.index)) == Some(s)
  {
    MergeSensesSorted(a, b);
    LastWithAppend(a, b, SenseIndex, s.index);
  }

  /** `mergeSenses`: fills the index-keyed map, then sorts its values. */
  method MergeSenses(a: seq<Sense>, b: seq<Sense>) returns (r: seq<Sense>)
    ensures r == MergeSensesSpec(a, b)
  {
    var byIdx := IndexSenses(a, b);
    PutAllFromList(a, b, SenseIndex);
    MergeSensesUnfold(a, b);
    r := SortByIndex(Values(byIdx));
  }

  /** The loop `for (const s of b) byIdx.set(s.index, s)` over the map seeded from `a`. */
  method IndexSenses(a: seq<Sense>, b: seq<Sense>) returns (byIdx: OMap<int, Sense>)
    ensures byIdx == PutAll(FromList(a, SenseIndex), b, SenseIndex)
  {
    byIdx := FromList(a, SenseIndex);
    var i := 0;
    while i < |b|
      invariant 0 <= i <= |b|
      invariant byIdx == PutAll(FromList(a, SenseIndex), b[..i], SenseIndex)
    {
      assert b[..i + 1][..i] == b[..i];
      byIdx := Put(byIdx, b[i].index, b[i]);
      i := i + 1;
    }
    assert b[..i] == b;
  }

  lemma MergeSensesUnfold(a: seq<Sense>, b: seq<Sense>)
    ensures MergeSensesSpec(a, b) == SortByIndex(Values(FromList(a + b, SenseIndex)))
  {
  }

  /** The merge of an incoming word into the stored word with the same id. */
  function MergeInto(existed: VocabV2, item: VocabV2): (r: VocabV2)
    ensures r.id == existed.id
    ensures r.leitner == existed.leitner
  {
    existed.(
      kanji := Or(item.kanji, existed.kanji),
      hiragana := item.hiragana.OrElse(existed.hiragana),
      jlpt := item.jlpt.OrElse(existed.jlpt),
      tags := Some(Unique(existed.tags.GetOr([]) + item.tags.GetOr([]))),
      senses := MergeSensesSpec(existed.senses, item.senses),
      leitner := existed.leitner)
  }

  /**
   * The incoming word's non-empty kanji, reading and level win; the tags
   * are the non-empty tags of either word; the senses are merged by index.
   */
  lemma MergeIntoFields(existed: VocabV2, item: VocabV2)
    ensures MergeInto(existed, item).kanji == (if item.kanji != "" then item.kanji else existed.kanji)
    ensures MergeInto(existed, item).hiragana == (if item.hiragana.Some? then item.hiragana else existed.hiragana)
    ensures MergeInto(existed, item).jlpt == (if item.jlpt.Some? then item.jlpt else existed.jlpt)
    ensures MergeInto(existed, item).tags.Some? && forall t :: t in MergeInto(existed, item).tags.value <==>
      t != "" && (t in existed.tags.GetOr([]) || t in item.tags.GetOr([]))
    ensures MergeInto(existed, item).senses == MergeSensesSpec(existed.senses, item.senses)
  {
  }

  /** A map whose every entry sits under its own id. */
  ghost predicate IdKeyed(m: OMap<string, VocabV2>) {
    m.Valid() && forall k :: k in m.vals ==> m.vals[k].id == k
  }

  /** One iteration of the loop over the incoming words. */
  function MergeStep(m: OMap<string, VocabV2>, item: VocabV2): (r: OMap<string, VocabV2>)
    requires IdKeyed(m)
    ensures IdKeyed(r)
    ensures r.keys == if item.id in m.keys then m.keys else m.keys + [item.id]
    ensures item.id !in m.vals ==> r.vals == m.vals[item.id := item]
    ensures item.id in m.vals ==> r.vals == m.vals[item.id := MergeInto(m.vals[item.id], item)]
  {
    if item.id !in m.vals then Put(m, item.id, item)
    else Put(m, item.id, MergeInto(m.vals[item.id], item))
  }

  /** The map after the loop has run over `xs`. */
  function MergeFold(seed: OMap<string, VocabV2>, xs: seq<VocabV2>): (r: OMap<string, VocabV2>)
    requires IdKeyed(seed)
    ensures IdKeyed(r)
  {
    if xs == [] then seed else MergeStep(MergeFold(seed, xs[..|xs| - 1]), xs[|xs| - 1])
  }

  /** `mergeVocabulary`, as a value. */
  function MergeVocabularySpec(current: seq<VocabV2>, incoming: seq<VocabV2>): seq<VocabV2> {
    FromListKeyed(current, IdOf);
    Values(MergeFold(FromList(current, IdOf), incoming))
  }

  /** `mergeVocabulary`: the id-keyed map seeded from `current`, updated word by word. */
  method MergeVocabulary(current: seq<VocabV2>, incoming: seq<VocabV2>) returns (r: seq<VocabV2>)
    ensures r == MergeVocabularySpec(current, incoming)
  {
    var seed := FromList(current, IdOf);
    FromListKeyed(current, IdOf);
    var byId := seed;
    var i := 0;
    while i < |incoming|
      invariant 0 <= i <= |incoming|
      invariant byId == MergeFold(seed, incoming[..i])
    {
      assert incoming[..i + 1][..i] == incoming[..i];
      var item := incoming[i];
      if item.id !in byId.vals {
        byId := Put(byId, item.id, item);
      } else {
        var existed := byId.vals[item.id];
        var mergedSenses := MergeSenses(existed.senses, item.senses);
        byId := Put(byId, item.id, existed.(
          kanji := Or(item.kanji, existed.kanji),
          hiragana := item.hiragana.OrElse(existed.hiragana),
          jlpt := item.jlpt.OrElse(existed.jlpt),
          tags := Some(Unique(existed.tags.GetOr([]) + item.tags.GetOr([]))),
          senses := mergedSenses,
          leitner := existed.leitner));
      }
      i := i + 1;
    }
    assert incoming[..i] == incoming;
    r := Values(byId);
  }

  /** The keys after the loop are the distinct ids of the seed's words and of `xs`, first occurrence first. */
  lemma {:induction false} MergeFoldKeys(seed: OMap<string, VocabV2>, ids: seq<string>, xs: seq<VocabV2>)
    requires IdKeyed(seed) && seed.keys == Dedup(ids)
    ensures MergeFold(seed, xs).keys == Dedup(ids + KeysOf(xs, IdOf))
    decreases |xs|
  {
    if xs == [] {
      assert ids + KeysOf(xs, IdOf) == ids;
    } else {
      MergeFoldKeys(seed, ids, xs[..|xs| - 1]);
      MergeFoldKeysStep(seed, ids, xs);
    }
  }

  lemma MergeFoldKeysStep(seed: OMap<string, VocabV2>, ids: seq<string>, xs: seq<VocabV2>)
    requires IdKeyed(seed) && xs != []
    requires MergeFold(seed, xs[..|xs| - 1]).keys == Dedup(ids + KeysOf(xs[..|xs| - 1], IdOf))
    ensures MergeFold(seed, xs).keys == Dedup(ids + KeysOf(xs, IdOf))
  {
    var prefix := ids + KeysOf(xs[..|xs| - 1], IdOf);
    KeysOfInit(xs, IdOf);
    assert ids + KeysOf(xs, IdOf) == prefix + [xs[|xs| - 1].id];
    DedupSnoc(prefix, xs[|xs| - 1].id);
  }

  /**
   * The merged list holds one word per id occurring in `current` or
   * `incoming`: the stored ids first, in their order, then the new ones in
   * arrival order.
   */
  lemma MergeIds(current: seq<VocabV2>, incoming: seq<VocabV2>)
    ensures KeysOf(MergeVocabularySpec(current, incoming), IdOf)
      == Dedup(KeysOf(current, IdOf) + KeysOf(incoming, IdOf))
    ensures Distinct(KeysOf(MergeVocabularySpec(current, incoming), IdOf))
    ensures Dedup(KeysOf(current, IdOf)) <= KeysOf(MergeVocabularySpec(current, incoming), IdOf)
  {
    var seed := FromList(current, IdOf);
    FromListKeyed(current, IdOf);
    var m := MergeFold(seed, incoming);
    FromListKeys(current, IdOf);
    MergeFoldKeys(seed, KeysOf(current, IdOf), incoming);
    var r := MergeVocabularySpec(current, incoming);
    assert KeysOf(r, IdOf) == m.keys;
    DedupPrefix(KeysOf(current, IdOf), KeysOf(incoming, IdOf));
  }

  /**
   * A stored word keeps its Leitner record through every merge, and a stored
   * word no incoming word names comes out unchanged.
   */
  lemma {:induction false} StoredWordKept(seed: OMap<string, VocabV2>, xs: seq<VocabV2>, k: string)
    requires IdKeyed(seed) && k in seed.vals
    ensures k in MergeFold(seed, xs).vals
    ensures MergeFold(seed, xs).vals[k].leitner == seed.vals[k].leitner
    ensures (forall i :: 0 <= i < |xs| ==> xs[i].id != k) ==> MergeFold(seed, xs).vals[k] == seed.vals[k]
    decreases |xs|
  {
    if xs != [] {
      var init := xs[..|xs| - 1];
      StoredWordKept(seed, init, k);
      MergeStepKeeps(MergeFold(seed, init), xs[|xs| - 1], k);
    }
  }

  /** One loop step keeps the entry under `k` and its Leitner record, and leaves it alone unless the word's id is `k`. */
  lemma MergeStepKeeps(m: OMap<string, VocabV2>, x: VocabV2, k: string)
    requires IdKeyed(m) && k in m.vals
    ensures k in MergeStep(m, x).vals
    ensures MergeStep(m, x).vals[k].leitner == m.vals[k].leitner
    ensures x.id != k ==> MergeStep(m, x).vals[k] == m.vals[k]
  {
  }

  /** An incoming word whose id nobody else uses is inserted as it is. */
  lemma {:induction false} NewWordInserted(seed: OMap<string, VocabV2>, xs: seq<VocabV2>, j: nat)
    requires IdKeyed(seed) && j < |xs| && xs[j].id !in seed.vals
    requires forall i :: 0 <= i < |xs| && xs[i].id == xs[j].id ==> i == j
    ensures xs[j].id in MergeFold(seed, xs).vals
    ensures MergeFold(seed, xs).vals[xs[j].id] == xs[j]
    decreases |xs|
  {
    var init := xs[..|xs| - 1];
    var x := xs[|xs| - 1];
    if j < |xs| - 1 {
      assert init[j] == xs[j];
      NewWordInserted(seed, init, j);
      assert x.id != xs[j].id;
      MergeStepKeeps(MergeFold(seed, init), x, xs[j].id);
    } else {
      assert forall i :: 0 <= i < |init| ==> init[i].id != x.id;
      NotYetKeyed(seed, init, x.id);
    }
  }

  /** An id that is neither stored nor among `xs` has no entry after the loop over `xs`. */
  lemma {:induction false} NotYetKeyed(seed: OMap<string, VocabV2>, xs: seq<VocabV2>, k: string)
    requires IdKeyed(seed) && k !in seed.vals
    requires forall i :: 0 <= i < |xs| ==> xs[i].id != k
    ensures k !in MergeFold(seed, xs).vals
    decreases |xs|
  {
    if xs != [] {
      NotYetKeyed(seed, xs[..|xs| - 1], k);
    }
  }
}
