/**
 * The vocabulary handlers of src/pages/index.tsx: the key-based smart merge
 * of imported words, adding, starring and editing a word, and the search
 * filter over the list. The page state `vocabulary` is passed in and the new
 * list returned, the way the `setVocabulary` updaters do.
 */
module IndexPage {
  import opened Optional
  import opened Strings
  import opened Vocabulary
  import opened OrderedMaps
  import opened Leitner

  /** `normalizeSearch`: diacritics stripped and lower-cased, not trimmed. */
  function NormalizeSearch(f: TextFold, s: string): string {
    f.lower(f.strip(s))
  }

  /** `normKey`: diacritics stripped, trimmed, lower-cased. */
  function NormKey(f: TextFold, s: string): string {
    f.lower(Trim(f.strip(s)))
  }

  /** `keyFromItem`: the folded kanji and reading, joined by `|`. */
  function KeyFromItem(f: TextFold, v: Item): string {
    NormKey(f, v.kanji) + "|" + NormKey(f, v.hiragana)
  }

  /** `keyFromItem` as a function value. */
  function KeyOf(f: TextFold): Item -> string {
    v => KeyFromItem(f, v)
  }

  /** `keyFromItem` looks at nothing but the kanji and the reading. */
  lemma KeyOnNames(f: TextFold)
    ensures NamesKey(KeyOf(f))
  {
  }

  /**
   * Two words share a key exactly when their folded kanji agree and their
   * folded readings agree, provided the folded kanji holds no `|`.
   */
  lemma KeyInjective(f: TextFold, a: Item, b: Item)
    requires '|' !in NormKey(f, a.kanji) && '|' !in NormKey(f, b.kanji)
    ensures KeyFromItem(f, a) == KeyFromItem(f, b) <==>
      NormKey(f, a.kanji) == NormKey(f, b.kanji) && NormKey(f, a.hiragana) == NormKey(f, b.hiragana)
  {
    SeparatedInjective(NormKey(f, a.kanji), NormKey(f, a.hiragana), NormKey(f, b.kanji), NormKey(f, b.hiragana));
  }

  /** Joining with a separator the first parts lack can be undone. */
  lemma SeparatedInjective(s1: string, t1: string, s2: string, t2: string)
    requires '|' !in s1 && '|' !in s2
    ensures s1 + "|" + t1 == s2 + "|" + t2 <==> s1 == s2 && t1 == t2
  {
    var k1, k2 := s1 + "|" + t1, s2 + "|" + t2;
    SeparatorFirst(s1, t1);
    SeparatorFirst(s2, t2);
    if k1 == k2 {
      assert s1 == k1[..|s1|] && s2 == k2[..|s2|];
      assert t1 == k1[|s1| + 1..] && t2 == k2[|s2| + 1..];
    }
  }

  /** The separator is the first `|` of the joined key. */
  lemma SeparatorFirst(s: string, t: string)
    requires '|' !in s
    ensures (s + "|" + t)[|s|] == '|'
    ensures forall i :: 0 <= i < |s| ==> (s + "|" + t)[i] != '|'
  {
  }

  /** A key function that looks at nothing but the kanji and the reading. */
  ghost predicate NamesKey(key: Item -> string) {
    forall a: Item, b: Item :: a.kanji == b.kanji && a.hiragana == b.hiragana ==> key(a) == key(b)
  }

  /** The options of one import: the key function, the "keep progress" box, and the id generator. */
  datatype MergeOpts = MergeOpts(
    key: Item -> string,
    preserveProgress: bool,
    newId: string -> string)

  /** The options the page imports with: `keyFromItem` under the folding `f`. */
  function PageOpts(f: TextFold, preserveProgress: bool, newId: string -> string): (o: MergeOpts)
    ensures NamesKey(o.key)
  {
    KeyOnNames(f);
    MergeOpts(KeyOf(f), preserveProgress, newId)
  }

  /** The truthiness of an optional flag. */
  predicate IsSet(b: Option<bool>) {
    b.Some? && b.value
  }

  /** The record stored when an incoming word meets the stored word with its key. */
  function Replacement(stored: Item, inc: Item, preserve: bool): (r: Item)
    ensures r.(id := inc.id, starred := inc.starred, leitner := inc.leitner) == inc
    ensures r.id == stored.id
    ensures preserve ==> r.starred == Some(IsSet(stored.starred) || IsSet(inc.starred))
    ensures preserve ==> r.leitner == stored.leitner.OrElse(inc.leitner)
    ensures !preserve ==> r.(id := inc.id) == inc
  {
    if preserve then
      inc.(id := stored.id,
           starred := Some(IsSet(stored.starred) || IsSet(inc.starred)),
           leitner := stored.leitner.OrElse(inc.leitner))
    else inc.(id := stored.id)
  }

  /**
   * The record stored for an incoming word with a new key: its own id, or a
   * generated one when it has none. The generator is asked for the id of the
   * entry under key `k`; one import creates each key at most once.
   */
  function Inserted(inc: Item, k: string, o: MergeOpts): (r: Item)
    ensures r.(id := inc.id) == inc
    ensures inc.id != "" ==> r == inc
  {
    inc.(id := Or(inc.id, o.newId(k)))
  }

  /** One iteration of the loop over the incoming words. */
  function SmartStep(m: OMap<string, Item>, inc: Item, o: MergeOpts): (r: OMap<string, Item>)
    requires m.Valid()
    ensures r.Valid()
  {
    var k := o.key(inc);
    if k in m.vals then Put(m, k, Replacement(m.vals[k], inc, o.preserveProgress))
    else Put(m, k, Inserted(inc, k, o))
  }

  /** The map after the loop has run over `xs`. */
  function SmartFold(seed: OMap<string, Item>, xs: seq<Item>, o: MergeOpts): (r: OMap<string, Item>)
    requires seed.Valid()
    ensures r.Valid()
  {
    if xs == [] then seed else SmartStep(SmartFold(seed, xs[..|xs| - 1], o), xs[|xs| - 1], o)
  }

  /** `smartMerge`, as a value. */
  function SmartMergeSpec(existing: seq<Item>, incoming: seq<Item>, o: MergeOpts): seq<Item> {
    Values(SmartFold(FromList(existing, o.key), incoming, o))
  }

  /** `smartMerge`: the key-indexed map loaded from `existing`, then updated word by word. */
  method SmartMerge(existing: seq<Item>, incoming: seq<Item>, o: MergeOpts) returns (r: seq<Item>)
    ensures r == SmartMergeSpec(existing, incoming, o)
  {
    var byKey := LoadByKey(existing, o.key);
    ghost var seed := byKey;
    var j := 0;
    while j < |incoming|
      invariant 0 <= j <= |incoming|
      invariant byKey == SmartFold(seed, incoming[..j], o)
    {
      assert incoming[..j + 1][..j] == incoming[..j];
      var inc := incoming[j];
      var k := o.key(inc);
      if k in byKey.vals {
        var stored := byKey.vals[k];
        var next := if o.preserveProgress then
          inc.(id := stored.id,
               starred := Some(IsSet(stored.starred) || IsSet(inc.starred)),
               leitner := stored.leitner.OrElse(inc.leitner))
        else inc.(id := stored.id);
        byKey := Put(byKey, k, next);
      } else {
        var id := Or(inc.id, o.newId(k));
        byKey := Put(byKey, k, inc.(id := id));
      }
      j := j + 1;
    }
    assert incoming[..j] == incoming;
    r := Values(byKey);
  }

  /** `for (const v of existing) map.set(keyFromItem(v), v)`. */
  method LoadByKey(existing: seq<Item>, key: Item -> string) returns (byKey: OMap<string, Item>)
    ensures byKey == FromList(existing, key)
  {
    byKey := Empty();
    var i := 0;
    while i < |existing|
      invariant 0 <= i <= |existing|
      invariant byKey == PutAll(Empty(), existing[..i], key)
    {
      assert existing[..i + 1][..i] == existing[..i];
      byKey := Put(byKey, key(existing[i]), existing[i]);
      i := i + 1;
    }
    assert existing[..i] == existing;
    PutAllFromList([], existing, key);
    assert [] + existing == existing;
  }

  /** Running the loop over `a + b` is running it over `a`, then over `b`. */
  lemma {:induction false} SmartFoldAppend(seed: OMap<string, Item>, a: seq<Item>, b: seq<Item>, o: MergeOpts)
    requires seed.Valid()
    ensures SmartFold(seed, a + b, o) == SmartFold(SmartFold(seed, a, o), b, o)
    decreases |b|
  {
    if b == [] {
      assert a + b == a;
    } else {
      SmartFoldAppend(seed, a, b[..|b| - 1], o);
      assert (a + b)[..|a + b| - 1] == a + b[..|b| - 1];
    }
  }

  /** A map whose every word sits under its own key. */
  ghost predicate KeyedBy(m: OMap<string, Item>, key: Item -> string) {
    m.Valid() && forall k :: k in m.vals ==> key(m.vals[k]) == k
  }

  /** With a key on the names alone, every stored word stays under its own key. */
  lemma {:induction false} SmartFoldKeyed(seed: OMap<string, Item>, xs: seq<Item>, o: MergeOpts)
    requires KeyedBy(seed, o.key) && NamesKey(o.key)
    ensures KeyedBy(SmartFold(seed, xs, o), o.key)
    decreases |xs|
  {
    if xs != [] {
      SmartFoldKeyed(seed, xs[..|xs| - 1], o);
    }
  }

  /** The keys after the loop are the distinct keys of the seed and of `xs`, first occurrence first. */
  lemma {:induction false} SmartFoldKeys(seed: OMap<string, Item>, ks: seq<string>, xs: seq<Item>, o: MergeOpts)
    requires seed.Valid() && seed.keys == Dedup(ks)
    ensures SmartFold(seed, xs, o).keys == Dedup(ks + KeysOf(xs, o.key))
    decreases |xs|
  {
    if xs == [] {
      assert ks + KeysOf(xs, o.key) == ks;
    } else {
      SmartFoldKeys(seed, ks, xs[..|xs| - 1], o);
      SmartFoldKeysStep(seed, ks, xs, o);
    }
  }

  lemma SmartFoldKeysStep(seed: OMap<string, Item>, ks: seq<string>, xs: seq<Item>, o: MergeOpts)
    requires seed.Valid() && xs != []
    requires SmartFold(seed, xs[..|xs| - 1], o).keys == Dedup(ks + KeysOf(xs[..|xs| - 1], o.key))
    ensures SmartFold(seed, xs, o).keys == Dedup(ks + KeysOf(xs, o.key))
  {
    var prefix := ks + KeysOf(xs[..|xs| - 1], o.key);
    var k := o.key(xs[|xs| - 1]);
    KeysOfInit(xs, o.key);
    assert ks + KeysOf(xs, o.key) == prefix + [k];
    DedupSnoc(prefix, k);
  }

  /**
   * The merged list holds one word per distinct key of `existing` and
   * `incoming`: the stored keys first, in their order, then the new keys in
   * arrival order.
   */
  lemma SmartMergeKeys(existing: seq<Item>, incoming: seq<Item>, o: MergeOpts)
    requires NamesKey(o.key)
    ensures KeysOf(SmartMergeSpec(existing, incoming, o), o.key)
      == Dedup(KeysOf(existing, o.key) + KeysOf(incoming, o.key))
    ensures Distinct(KeysOf(SmartMergeSpec(existing, incoming, o), o.key))
    ensures Dedup(KeysOf(existing, o.key)) <= KeysOf(SmartMergeSpec(existing, incoming, o), o.key)
  {
    var seed := FromList(existing, o.key);
    var m := SmartFold(seed, incoming, o);
    FromListKeyed(existing, o.key);
    FromListKeys(existing, o.key);
    SmartFoldKeys(seed, KeysOf(existing, o.key), incoming, o);
    SmartFoldKeyed(seed, incoming, o);
    assert KeysOf(Values(m), o.key) == m.keys;
    DedupPrefix(KeysOf(existing, o.key), KeysOf(incoming, o.key));
  }

  /** One step keeps every entry and its id, and touches only the entry under the word's key. */
  lemma SmartStepKeeps(m: OMap<string, Item>, x: Item, k: string, o: MergeOpts)
    requires m.Valid() && k in m.vals
    ensures k in SmartStep(m, x, o).vals
    ensures SmartStep(m, x, o).vals[k].id == m.vals[k].id
    ensures o.key(x) != k ==> SmartStep(m, x, o).vals[k] == m.vals[k]
  {
  }

  /**
   * An entry, once in the map, stays with its id through the rest of the
   * loop, and a key no later word has keeps its entry unchanged.
   */
  lemma {:induction false} SmartFoldKeeps(seed: OMap<string, Item>, xs: seq<Item>, k: string, o: MergeOpts)
    requires seed.Valid() && k in seed.vals
    ensures k in SmartFold(seed, xs, o).vals
    ensures SmartFold(seed, xs, o).vals[k].id == seed.vals[k].id
    ensures (forall i :: 0 <= i < |xs| ==> o.key(xs[i]) != k) ==>
      SmartFold(seed, xs, o).vals[k] == seed.vals[k]
    decreases |xs|
  {
    if xs != [] {
      SmartFoldKeeps(seed, xs[..|xs| - 1], k, o);
      SmartStepKeeps(SmartFold(seed, xs[..|xs| - 1], o), xs[|xs| - 1], k, o);
    }
  }

  /** A stored word keeps its id through an import, and one that no incoming word matches comes out unchanged. */
  lemma ExistingKept(existing: seq<Item>, incoming: seq<Item>, o: MergeOpts, k: string)
    requires k in FromList(existing, o.key).vals
    ensures k in SmartFold(FromList(existing, o.key), incoming, o).vals
    ensures SmartFold(FromList(existing, o.key), incoming, o).vals[k].id == FromList(existing, o.key).vals[k].id
    ensures (forall i :: 0 <= i < |incoming| ==> o.key(incoming[i]) != k) ==>
      SmartFold(FromList(existing, o.key), incoming, o).vals[k] == FromList(existing, o.key).vals[k]
  {
    SmartFoldKeeps(FromList(existing, o.key), incoming, k, o);
  }

  /**
   * A word that repeats the key of an earlier incoming word keeps the id the
   * entry got at that earlier word.
   */
  lemma {:induction false} LaterDuplicateKeepsId(seed: OMap<string, Item>, xs: seq<Item>, i: nat, o: MergeOpts)
    requires seed.Valid() && i < |xs|
    ensures o.key(xs[i]) in SmartFold(seed, xs[..i + 1], o).vals
    ensures o.key(xs[i]) in SmartFold(seed, xs, o).vals
    ensures SmartFold(seed, xs, o).vals[o.key(xs[i])].id
      == SmartFold(seed, xs[..i + 1], o).vals[o.key(xs[i])].id
    decreases |xs|
  {
    var k := o.key(xs[i]);
    assert xs[..i + 1][..i] == xs[..i];
    if i + 1 < |xs| {
      var init := xs[..|xs| - 1];
      assert init[i] == xs[i] && init[..i + 1] == xs[..i + 1];
      LaterDuplicateKeepsId(seed, init, i, o);
      SmartStepKeeps(SmartFold(seed, init, o), xs[|xs| - 1], k, o);
    } else {
      assert xs[..i + 1] == xs;
    }
  }

  /**
   * The entry under a key carries every field of the last incoming word with
   * that key, except its id, and, when progress is kept, its star and schedule.
   */
  lemma {:induction false} LastIncomingWins(seed: OMap<string, Item>, xs: seq<Item>, j: nat, o: MergeOpts)
    requires seed.Valid() && j < |xs|
    requires forall i :: j < i < |xs| ==> o.key(xs[i]) != o.key(xs[j])
    ensures o.key(xs[j]) in SmartFold(seed, xs, o).vals
    ensures SmartFold(seed, xs, o).vals[o.key(xs[j])]
      .(id := xs[j].id, starred := xs[j].starred, leitner := xs[j].leitner) == xs[j]
    ensures !o.preserveProgress ==>
      SmartFold(seed, xs, o).vals[o.key(xs[j])].(id := xs[j].id) == xs[j]
    decreases |xs|
  {
    var k := o.key(xs[j]);
    var init := xs[..|xs| - 1];
    if j < |xs| - 1 {
      assert init[j] == xs[j];
      LastIncomingWins(seed, init, j, o);
      SmartStepKeeps(SmartFold(seed, init, o), xs[|xs| - 1], k, o);
    }
  }

  /** An incoming word whose key is neither stored nor repeated is added as it is, given an id if it had none. */
  lemma {:induction false} NewKeyInserted(seed: OMap<string, Item>, xs: seq<Item>, j: nat, o: MergeOpts)
    requires seed.Valid() && j < |xs| && o.key(xs[j]) !in seed.vals
    requires forall i :: 0 <= i < |xs| && o.key(xs[i]) == o.key(xs[j]) ==> i == j
    ensures o.key(xs[j]) in SmartFold(seed, xs, o).vals
    ensures SmartFold(seed, xs, o).vals[o.key(xs[j])] == xs[j].(id := Or(xs[j].id, o.newId(o.key(xs[j]))))
    decreases |xs|
  {
    var k := o.key(xs[j]);
    var init := xs[..|xs| - 1];
    if j < |xs| - 1 {
      assert init[j] == xs[j];
      NewKeyInserted(seed, init, j, o);
      SmartStepKeeps(SmartFold(seed, init, o), xs[|xs| - 1], k, o);
    } else {
      assert forall i :: 0 <= i < |init| ==> o.key(init[i]) != k;
      KeyAbsent(seed, init, k, o);
    }
  }

  /** A key that is neither stored nor among `xs` has no entry after the loop over `xs`. */
  lemma {:induction false} KeyAbsent(seed: OMap<string, Item>, xs: seq<Item>, k: string, o: MergeOpts)
    requires seed.Valid() && k !in seed.vals
    requires forall i :: 0 <= i < |xs| ==> o.key(xs[i]) != k
    ensures k !in SmartFold(seed, xs, o).vals
    decreases |xs|
  {
    if xs != [] {
      KeyAbsent(seed, xs[..|xs| - 1], k, o);
    }
  }

  /** Every word in the map has a schedule when every seeded and incoming word has one. */
  lemma {:induction false} SmartFoldScheduled(seed: OMap<string, Item>, xs: seq<Item>, o: MergeOpts)
    requires seed.Valid()
    requires forall k :: k in seed.vals ==> seed.vals[k].leitner.Some?
    requires forall i :: 0 <= i < |xs| ==> xs[i].leitner.Some?
    ensures forall k :: k in SmartFold(seed, xs, o).vals ==> SmartFold(seed, xs, o).vals[k].leitner.Some?
    decreases |xs|
  {
    if xs != [] {
      SmartFoldScheduled(seed, xs[..|xs| - 1], o);
    }
  }

  /** `newVocabulary.map(initializeLeitnerData)`. */
  function InitializeAll(xs: seq<Item>, now: Instant): (r: seq<Item>)
    ensures |r| == |xs|
    ensures forall i :: 0 <= i < |xs| ==> r[i] == InitializeLeitnerData(xs[i], now)
  {
    seq(|xs|, i requires 0 <= i < |xs| => InitializeLeitnerData(xs[i], now))
  }

  /** `handleVocabularyImported`: schedule the new words, then merge them into the list. */
  function VocabularyImported(prev: seq<Item>, newVocabulary: seq<Item>, o: MergeOpts, now: Instant): seq<Item> {
    SmartMergeSpec(prev, InitializeAll(newVocabulary, now), o)
  }

  /** After an import into a fully scheduled list, every word has a schedule. */
  lemma ImportScheduled(prev: seq<Item>, newVocabulary: seq<Item>, o: MergeOpts, now: Instant)
    requires forall i :: 0 <= i < |prev| ==> prev[i].leitner.Some?
    ensures forall i :: 0 <= i < |VocabularyImported(prev, newVocabulary, o, now)| ==>
      VocabularyImported(prev, newVocabulary, o, now)[i].leitner.Some?
  {
    var seed := FromList(prev, o.key);
    forall k | k in seed.vals ensures seed.vals[k].leitner.Some? {
      FromListLast(prev, o.key, k);
    }
    SmartFoldScheduled(seed, InitializeAll(newVocabulary, now), o);
  }

  /** `handleAddWord`: the new word, scheduled, goes to the front. */
  function AddWord(vocabulary: seq<Item>, item: Item, now: Instant): (r: seq<Item>)
    ensures |r| == |vocabulary| + 1 && r[1..] == vocabulary
    ensures r[0].leitner.Some? && r[0].(leitner := item.leitner) == item
  {
    [InitializeLeitnerData(item, now)] + vocabulary
  }

  /** A new word without a schedule is due at once: it heads the due list. */
  lemma AddedWordDue(vocabulary: seq<Item>, item: Item, now: Instant)
    requires item.leitner.None?
    ensures GetDueWords(AddWord(vocabulary, item, now), now)
      == [InitializeLeitnerData(item, now)] + GetDueWords(vocabulary, now)
  {
    var r := AddWord(vocabulary, item, now);
    assert r[1..] == vocabulary;
    DueAfterInitialize(item, now);
  }

  /** `handleToggleStar`: flips the star of the words with the given id. */
  function ToggleStar(vocabulary: seq<Item>, id: string): (r: seq<Item>)
    ensures |r| == |vocabulary|
    ensures forall i :: 0 <= i < |r| ==> r[i].(starred := vocabulary[i].starred) == vocabulary[i]
    ensures forall i :: 0 <= i < |r| ==>
      (vocabulary[i].id == id ==> IsSet(r[i].starred) == !IsSet(vocabulary[i].starred)) &&
      (vocabulary[i].id != id ==> r[i] == vocabulary[i])
  {
    seq(|vocabulary|, i requires 0 <= i < |vocabulary| =>
      var it := vocabulary[i];
      if it.id == id then it.(starred := Some(!IsSet(it.starred))) else it)
  }

  /** Toggling twice leaves every word starred exactly as it was. */
  lemma ToggleTwice(vocabulary: seq<Item>, id: string)
    ensures |ToggleStar(ToggleStar(vocabulary, id), id)| == |vocabulary|
    ensures forall i :: 0 <= i < |vocabulary| ==>
      ToggleStar(ToggleStar(vocabulary, id), id)[i].(starred := vocabulary[i].starred) == vocabulary[i]
      && IsSet(ToggleStar(ToggleStar(vocabulary, id), id)[i].starred) == IsSet(vocabulary[i].starred)
  {
  }

  /**
   * `handleUpdateWord`: the words with the edited word's id take its fields,
   * but keep their id and schedule, and their star unless the edit sets one.
   */
  function UpdateWord(vocabulary: seq<Item>, next: Item): (r: seq<Item>)
    ensures |r| == |vocabulary|
    ensures forall i :: 0 <= i < |r| ==> r[i].id == vocabulary[i].id && r[i].leitner == vocabulary[i].leitner
    ensures forall i :: 0 <= i < |r| && vocabulary[i].id != next.id ==> r[i] == vocabulary[i]
    ensures forall i :: 0 <= i < |r| && vocabulary[i].id == next.id ==>
      r[i].(starred := next.starred, leitner := next.leitner) == next
      && r[i].starred == next.starred.OrElse(vocabulary[i].starred)
  {
    seq(|vocabulary|, i requires 0 <= i < |vocabulary| =>
      var v := vocabulary[i];
      if v.id == next.id then
        next.(id := v.id, leitner := v.leitner, starred := next.starred.OrElse(v.starred))
      else v)
  }

  /** Saving the same edit twice is saving it once. */
  lemma UpdateIdempotent(vocabulary: seq<Item>, next: Item)
    ensures UpdateWord(UpdateWord(vocabulary, next), next) == UpdateWord(vocabulary, next)
  {
  }

  /** `handleLeitnerUpdate`: the words with the answered id move boxes; the others stay as they are. */
  function LeitnerUpdate(vocabulary: seq<Item>, id: string, correct: bool, now: Instant): (r: seq<Item>)
    ensures |r| == |vocabulary|
    ensures forall i :: 0 <= i < |r| ==>
      (vocabulary[i].id == id ==> r[i] == UpdateLeitnerData(vocabulary[i], correct, now)) &&
      (vocabulary[i].id != id ==> r[i] == vocabulary[i])
  {
    seq(|vocabulary|, i requires 0 <= i < |vocabulary| =>
      var it := vocabulary[i];
      if it.id == id then UpdateLeitnerData(it, correct, now) else it)
  }

  /** A word just answered, rightly or wrongly, is no longer due that day; the answer keeps every id. */
  lemma AnsweredNotDue(vocabulary: seq<Item>, id: string, correct: bool, now: Instant)
    ensures forall i :: 0 <= i < |vocabulary| ==> LeitnerUpdate(vocabulary, id, correct, now)[i].id == vocabulary[i].id
    ensures forall x :: x in GetDueWords(LeitnerUpdate(vocabulary, id, correct, now), now) ==> x.id != id
  {
    var r := LeitnerUpdate(vocabulary, id, correct, now);
    forall x | x in GetDueWords(r, now) ensures x.id != id {
      var i :| 0 <= i < |r| && x == InitializeLeitnerData(r[i], now);
      AnsweredRecordNotDue(vocabulary[i], correct, now);
    }
  }

  /** An answered record is scheduled at least a day ahead. */
  lemma AnsweredRecordNotDue(item: Item, correct: bool, now: Instant)
    ensures InitializeLeitnerData(UpdateLeitnerData(item, correct, now), now) == UpdateLeitnerData(item, correct, now)
    ensures !IsDueToday(UpdateLeitnerData(item, correct, now), now)
  {
  }

  predicate IsStarred(v: Item) {
    IsSet(v.starred)
  }

  /** The search match: one of kanji, reading, meaning, Sino-Vietnamese reading contains the folded query. */
  predicate MatchesQuery(f: TextFold, v: Item, q: string) {
    (v.kanji != "" && Contains(NormalizeSearch(f, v.kanji), q))
    || (v.hiragana != "" && Contains(NormalizeSearch(f, v.hiragana), q))
    || (v.meaning != "" && Contains(NormalizeSearch(f, v.meaning), q))
    || (Truthy(v.sinoVietnamese) && Contains(NormalizeSearch(f, v.sinoVietnamese.value), q))
  }

  /** `filteredList`: the tab's words (all, or the starred ones), narrowed by the search box. */
  function FilteredList(vocabulary: seq<Item>, starredTab: bool, query: string, f: TextFold): (r: seq<Item>)
    ensures NormalizeSearch(f, query) == "" && !starredTab ==> r == vocabulary
  {
    var base := if starredTab then Filter(vocabulary, IsStarred) else vocabulary;
    var q := NormalizeSearch(f, query);
    if q == "" then base else Filter(base, v => MatchesQuery(f, v, q))
  }

  /** The list shown for a concatenation is the list shown for each part, in order. */
  lemma FilteredAppend(a: seq<Item>, b: seq<Item>, starredTab: bool, query: string, f: TextFold)
    ensures FilteredList(a + b, starredTab, query, f) == FilteredList(a, starredTab, query, f) + FilteredList(b, starredTab, query, f)
  {
    var q := NormalizeSearch(f, query);
    var m := v => MatchesQuery(f, v, q);
    if starredTab {
      FilterAppend(a, b, IsStarred);
      if q != "" {
        FilterAppend(Filter(a, IsStarred), Filter(b, IsStarred), m);
      }
    } else if q != "" {
      FilterAppend(a, b, m);
    }
  }

  /** One word is listed, once, exactly when it is in the tab and matches a non-empty folded query. */
  lemma FilteredOne(v: Item, starredTab: bool, query: string, f: TextFold)
    ensures FilteredList([v], starredTab, query, f) ==
      if (starredTab ==> IsStarred(v))
        && (NormalizeSearch(f, query) != "" ==> MatchesQuery(f, v, NormalizeSearch(f, query)))
      then [v] else []
  {
    var q := NormalizeSearch(f, query);
    FilterOne(v, IsStarred);
    FilterOne(v, u => MatchesQuery(f, u, q));
    assert Filter([], (u: Item) => MatchesQuery(f, u, q)) == [];
  }

  /** A word is listed exactly when it is in the tab and, for a non-empty folded query, matches it. */
  lemma FilteredMembership(vocabulary: seq<Item>, starredTab: bool, query: string, f: TextFold, v: Item)
    ensures v in FilteredList(vocabulary, starredTab, query, f) <==>
      v in vocabulary && (starredTab ==> IsStarred(v))
      && (NormalizeSearch(f, query) != "" ==> MatchesQuery(f, v, NormalizeSearch(f, query)))
  {
  }
}
