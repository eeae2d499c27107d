/**
 * The flash-card study screen (src/components/StudyMode.tsx): a local copy
 * of the vocabulary, the card on screen, whether it is turned over, and the
 * record open in the edit dialog. The card helpers are the same as the
 * review screen's and are taken from `ReviewMode`.
 */
module StudyMode {
  import opened Optional
  import opened Vocabulary
  import EditWordDialog

  /** `arr.map((x) => (x.id === nextWord.id ? nextWord : x))`: every record with the edited id replaced. */
  function ReplaceById(words: seq<Item>, next: Item): (r: seq<Item>)
    ensures |r| == |words|
    ensures forall i :: 0 <= i < |r| ==> r[i] == (if words[i].id == next.id then next else words[i])
  {
    if words == [] then [] else [if words[0].id == next.id then next else words[0]] + ReplaceById(words[1..], next)
  }

  /** The ids of a list, in order. */
  function Ids(words: seq<Item>): (r: seq<string>)
    ensures |r| == |words| && forall i :: 0 <= i < |r| ==> r[i] == words[i].id
  {
    seq(|words|, i requires 0 <= i < |words| => words[i].id)
  }

  /** An edit keeps the list's ids and their order, and saving the same record twice is saving it once. */
  lemma ReplaceKeepsIds(words: seq<Item>, next: Item)
    ensures Ids(ReplaceById(words, next)) == Ids(words)
    ensures ReplaceById(ReplaceById(words, next), next) == ReplaceById(words, next)
    ensures next.id !in Ids(words) ==> ReplaceById(words, next) == words
  {
    if next.id !in Ids(words) {
      forall i | 0 <= i < |words| ensures words[i].id != next.id {
        assert Ids(words)[i] == words[i].id;
      }
    }
  }

  /** Saving a record that is already in the list, under an id no other record has, changes nothing. */
  lemma ReplaceWithSame(words: seq<Item>, k: nat)
    requires k < |words|
    requires forall j :: 0 <= j < |words| && words[j].id == words[k].id ==> j == k
    ensures ReplaceById(words, words[k]) == words
  {
  }

  /** The study session. */
  class Study {
    var words: seq<Item>
    var idx: nat
    var flipped: bool
    var editing: Option<Item>

    /** The card on screen; none when `idx` is past the end after the vocabulary shrank. */
    function Current(): (c: Option<Item>)
      reads this
      ensures c.Some? <==> idx < |words|
    {
      if idx < |words| then Some(words[idx]) else None
    }

    constructor(vocabulary: seq<Item>)
      ensures words == vocabulary && idx == 0 && !flipped && editing.None?
    {
      words := vocabulary;
      idx := 0;
      flipped := false;
      editing := None;
    }

    /** A new `vocabulary` from the parent replaces the local copy; the position is kept. */
    method Reload(vocabulary: seq<Item>)
      modifies this
      ensures words == vocabulary
      ensures idx == old(idx) && flipped == old(flipped) && editing == old(editing)
    {
      words := vocabulary;
    }

    /** `next`: one card on, stopping at the last, face down. */
    method Next()
      requires Current().Some?
      modifies this
      ensures Current().Some?
      ensures idx == (if old(idx) + 1 < |words| then old(idx) + 1 else old(idx))
      ensures !flipped
      ensures words == old(words) && editing == old(editing)
    {
      flipped := false;
      idx := if |words| - 1 < idx + 1 then |words| - 1 else idx + 1;
    }

    /** `prev`: one card back, stopping at the first, face down. */
    method Prev()
      requires Current().Some?
      modifies this
      ensures Current().Some?
      ensures idx == (if old(idx) > 0 then old(idx) - 1 else 0)
      ensures !flipped
      ensures words == old(words) && editing == old(editing)
    {
      flipped := false;
      idx := if idx - 1 < 0 then 0 else idx - 1;
    }

    /** Turning the card over. */
    method Flip()
      modifies this
      ensures flipped == !old(flipped)
      ensures words == old(words) && idx == old(idx) && editing == old(editing)
    {
      flipped := !flipped;
    }

    /** The pencil button opens the edit dialog on the card on screen. */
    method StartEdit()
      requires Current().Some?
      modifies this
      ensures editing == old(Current())
      ensures words == old(words) && idx == old(idx) && flipped == old(flipped)
    {
      editing := Current();
    }

    /**
     * `handleSaveEdit`: the dialog's saved record replaces every record with
     * its id, the dialog closes, and the record is handed on to
     * `onUpdateWord`.
     */
    method SaveEdit(f: EditWordDialog.Form) returns (forwarded: Item)
      requires editing.Some?
      modifies this
      ensures forwarded == EditWordDialog.HandleSave(old(editing).value, f)
      ensures forwarded.id == old(editing).value.id
      ensures words == ReplaceById(old(words), forwarded)
      ensures Ids(words) == Ids(old(words))
      ensures editing.None? && idx == old(idx) && flipped == old(flipped)
    {
      forwarded := EditWordDialog.HandleSave(editing.value, f);
      EditWordDialog.SaveKeeps(editing.value, f);
      ReplaceKeepsIds(words, forwarded);
      words := ReplaceById(words, forwarded);
      editing := None;
    }
  }

  /**
   * Opening the dialog on a card and saving it untouched leaves the list as
   * it was, when the card's id is its own and its text is already trimmed.
   */
  lemma SaveUntouched(words: seq<Item>, k: nat)
    requires k < |words|
    requires forall j :: 0 <= j < |words| && words[j].id == words[k].id ==> j == k
    requires EditWordDialog.Editable(words[k])
    ensures ReplaceById(words, EditWordDialog.HandleSave(words[k], EditWordDialog.FormOf(words[k]))) == words
  {
    EditWordDialog.SaveUnedited(words[k]);
    ReplaceWithSame(words, k);
  }
}
