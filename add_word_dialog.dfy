/**
 * The "add word" dialog of src/components/AddWordDialog.tsx: the form's
 * state with its example and collocation row editors, and `onSubmit`, which
 * checks the form and builds the new record.
 */
module AddWordDialog {
  import opened Optional
  import opened Strings
  import opened Vocabulary

  /* ---------- splitLines ---------- */

  /**
   * The separators of `splitLines`' pattern `\r?\n|,`. Splitting on `\n`
   * alone cuts at the same places; the `\r` it leaves at a piece's end is
   * removed by the `trim` that always follows.
   */
  const LineSeps: set<char> := {'\n', ','}

  /** `splitLines`: the trimmed, non-empty pieces between line breaks and commas. */
  function SplitLines(s: string): seq<string> {
    CharPieces(s, LineSeps)
  }

  /** Every piece is non-empty and trimmed and holds no comma or line break. */
  lemma SplitLinesPieces(s: string)
    ensures forall i :: 0 <= i < |SplitLines(s)| ==>
      SplitLines(s)[i] != "" && Trimmed(SplitLines(s)[i]) && ',' !in SplitLines(s)[i] && '\n' !in SplitLines(s)[i]
  {
    CharPiecesSpec(s, LineSeps);
  }

  /** A blank text has no pieces. */
  lemma SplitLinesBlank(s: string)
    requires IsBlank(s)
    ensures SplitLines(s) == []
  {
    CharPiecesBlank(s, LineSeps);
  }

  /** Pieces written one per line, or separated by commas, are read back. */
  lemma SplitLinesJoin(xs: seq<string>, c: char)
    requires c in LineSeps
    requires forall i :: 0 <= i < |xs| ==> xs[i] != "" && Trimmed(xs[i]) && ',' !in xs[i] && '\n' !in xs[i]
    ensures SplitLines(Join(xs, [c])) == xs
  {
    CharPiecesJoin(xs, c, LineSeps);
  }

  /* ---------- The form ---------- */

  /** The five collocation groups the dialog edits. */
  datatype Group = Ren | Go | Rui | Kan | Tai

  /** Which field of an editor row an input writes. */
  datatype Key = Jp | Vi

  /** The row an editor starts with and `+` appends: `{ jp: "", vi: "" }`. */
  const BlankRow := Pair("", Some(""))

  /** The values of the dialog's inputs that `onSubmit` reads. */
  datatype Form = Form(
    kanji: string,
    hiragana: string,
    meaning: string,
    moreMeanings: string,
    sino: string,
    examples: seq<Pair>,
    ren: seq<Pair>,
    go: seq<Pair>,
    rui: seq<Pair>,
    kan: seq<Pair>,
    tai: seq<Pair>,
    starred: bool)
  {
    /** The rows of one collocation group. */
    function Rows(g: Group): seq<Pair> {
      match g
      case Ren => ren
      case Go => go
      case Rui => rui
      case Kan => kan
      case Tai => tai
    }

    /** The form with one group's rows replaced; putting the old rows back gives this form. */
    function WithRows(g: Group, rows: seq<Pair>): (f: Form)
      ensures f.Rows(g) == rows
      ensures forall h :: h != g ==> f.Rows(h) == Rows(h)
      ensures f.(ren := ren, go := go, rui := rui, kan := kan, tai := tai) == this
    {
      match g
      case Ren => this.(ren := rows)
      case Go => this.(go := rows)
      case Rui => this.(rui := rows)
      case Kan => this.(kan := rows)
      case Tai => this.(tai := rows)
    }
  }

  /** The form when the dialog opens, and after it is reset. */
  const Blank := Form("", "", "", "", "", [BlankRow], [], [], [], [], [], false)

  /** `next[i] = { ...next[i], [key]: val }`: row `i` with one field replaced. */
  function Updated(rows: seq<Pair>, i: nat, key: Key, val: string): (r: seq<Pair>)
    requires i < |rows|
    ensures |r| == |rows|
    ensures forall j :: 0 <= j < |rows| && j != i ==> r[j] == rows[j]
    ensures key.Jp? ==> r[i].jp == val && r[i].vi == rows[i].vi
    ensures key.Vi? ==> r[i].vi == Some(val) && r[i].jp == rows[i].jp
  {
    rows[i := if key.Jp? then rows[i].(jp := val) else rows[i].(vi := Some(val))]
  }

  /** `next.splice(i, 1)`: the rows without row `i`; an index past the end removes nothing. */
  function Removed(rows: seq<Pair>, i: nat): (r: seq<Pair>)
    ensures i < |rows| ==> |r| == |rows| - 1
    ensures i >= |rows| ==> r == rows
    ensures forall j :: 0 <= j < i && j < |r| ==> r[j] == rows[j]
    ensures forall j :: i <= j < |r| ==> r[j] == rows[j + 1]
  {
    if i < |rows| then rows[..i] + rows[i + 1..] else rows
  }

  /* ---------- onSubmit ---------- */

  /** The guard of `onSubmit`, on the inputs as typed: a reading, and a main or an extra meaning. */
  predicate Accepts(f: Form) {
    !(f.hiragana == "" || Or(f.kanji, f.hiragana) == "" || Or(f.meaning, f.moreMeanings) == "")
  }

  /** `[meaning, ...splitLines(moreMeanings)].filter(Boolean)`. */
  function MeaningList(f: Form): seq<string> {
    Compact([f.meaning] + SplitLines(f.moreMeanings))
  }

  /** `r.jp.trim()` is truthy. */
  predicate Filled(p: Pair) {
    Trim(p.jp) != ""
  }

  /** `{ jp: e.jp.trim(), vi: e.vi?.trim() || undefined }`. */
  function CleanExample(p: Pair): Pair {
    Pair(Trim(p.jp), NonEmptyOr(Trim(p.vi.GetOr(""))))
  }

  /** An example as the dialog stores it: a non-empty trimmed `jp`, and a `vi` that is non-empty and trimmed if present. */
  predicate Clean(p: Pair) {
    p.jp != "" && Trimmed(p.jp) && (p.vi.Some? ==> p.vi.value != "" && Trimmed(p.vi.value))
  }

  /** The examples kept: the rows with a non-blank `jp`, cleaned. */
  function ExampleList(xs: seq<Pair>): (r: seq<Pair>)
    ensures |r| <= |xs|
  {
    var kept := Filter(xs, Filled);
    seq(|kept|, i requires 0 <= i < |kept| => CleanExample(kept[i]))
  }

  /** A collocation group as stored: present when the editor has rows, holding those with a non-blank `jp`. */
  function GroupOf(rows: seq<Pair>): Option<seq<Pair>> {
    if |rows| > 0 then Some(Filter(rows, Filled)) else None
  }

  /** The stored value of one group. */
  function Slot(c: Collocations, g: Group): Option<seq<Pair>> {
    match g
    case Ren => c.ren
    case Go => c.go
    case Rui => c.rui
    case Kan => c.kan
    case Tai => c.tai
  }

  /** The `collocations` object `onSubmit` fills group by group; left out when it has no key. */
  function CollocationsOf(f: Form): Option<Collocations> {
    var c := Collocations(GroupOf(f.ren), GroupOf(f.go), GroupOf(f.rui), GroupOf(f.kan), GroupOf(f.tai), None, None);
    if c != NoGroups then Some(c) else None
  }

  /** The record `onSubmit` builds from the form, a new id and a meaning list. */
  function Build(f: Form, id: string, ms: seq<string>): Item {
    var ex := ExampleList(f.examples);
    Item(
      id,
      Trim(Or(f.kanji, f.hiragana)),
      Trim(f.hiragana),
      if ms != [] then ms[0] else "",
      Some(f.starred),
      NonEmptyOr(f.sino),
      if |ms| > 1 then Some(ms) else None,
      if |ex| > 0 then Some(ex) else None,
      CollocationsOf(f),
      None, None, None)
  }

  /** `onSubmit`: nothing when the guard fails, otherwise the record handed to `onSave`. */
  function NewRecord(f: Form, id: string): Option<Item> {
    if Accepts(f) then Some(Build(f, id, MeaningList(f))) else None
  }

  /* ---------- What onSubmit promises ---------- */

  /** A record is saved exactly when the reading and one of the two meaning fields are not empty as typed. */
  lemma SubmitGuard(f: Form, id: string)
    ensures NewRecord(f, id).Some? <==> f.hiragana != "" && (f.meaning != "" || f.moreMeanings != "")
  {
  }

  /** The saved reading and writing are trimmed; the writing falls back to the reading; nothing is scheduled yet. */
  lemma SubmitText(f: Form, id: string)
    requires NewRecord(f, id).Some?
    ensures var v := NewRecord(f, id).value;
      v.id == id && v.hiragana == Trim(f.hiragana) && Trimmed(v.kanji) &&
      (f.kanji != "" ==> v.kanji == Trim(f.kanji)) && (f.kanji == "" ==> v.kanji == v.hiragana) &&
      v.starred == Some(f.starred) && (v.sinoVietnamese.Some? <==> f.sino != "") &&
      v.leitner.None? && v.exampleSentence.None? && v.exampleMeaning.None?
  {
  }

  /**
   * The main meaning is the typed one, else the first extra one; the list is
   * stored only when it has more than one entry, and then starts with the
   * main meaning and holds exactly the non-empty ones.
   */
  lemma {:induction false} SubmitMeanings(f: Form, id: string)
    requires NewRecord(f, id).Some?
    ensures var v := NewRecord(f, id).value;
      var more := SplitLines(f.moreMeanings);
      (f.meaning != "" ==> v.meaning == f.meaning) &&
      (f.meaning == "" && more != [] ==> v.meaning == more[0]) &&
      (v.meaning == "" <==> f.meaning == "" && more == []) &&
      (v.meanings.Some? <==> |MeaningList(f)| > 1)
    ensures var v := NewRecord(f, id).value;
      v.meanings.Some? ==> (v.meanings.value[0] == v.meaning &&
        forall m :: m in v.meanings.value <==> m != "" && (m == f.meaning || m in SplitLines(f.moreMeanings)))
  {
    var more := SplitLines(f.moreMeanings);
    SplitLinesPieces(f.moreMeanings);
    CompactAppend([f.meaning], more);
    CompactNonEmpty(more);
    if f.meaning != "" {
      assert Compact([f.meaning]) == [f.meaning] + Compact([]);
    } else {
      assert Compact([f.meaning]) == [];
    }
  }

  /** Examples are stored exactly when some row has a non-blank `jp`, and each one stored is clean. */
  lemma SubmitExamples(f: Form, id: string)
    requires NewRecord(f, id).Some?
    ensures var v := NewRecord(f, id).value;
      (v.examples.None? <==> forall i :: 0 <= i < |f.examples| ==> IsBlank(f.examples[i].jp)) &&
      (v.examples.Some? ==> v.examples.value == ExampleList(f.examples))
    ensures var v := NewRecord(f, id).value;
      v.examples.Some? ==> forall i :: 0 <= i < |v.examples.value| ==> Clean(v.examples.value[i])
  {
    ExampleListSpec(f.examples);
  }

  /** The kept examples are clean and none is left only when every row's `jp` is blank. */
  lemma ExampleListSpec(xs: seq<Pair>)
    ensures forall i :: 0 <= i < |ExampleList(xs)| ==> Clean(ExampleList(xs)[i])
    ensures ExampleList(xs) == [] <==> forall i :: 0 <= i < |xs| ==> IsBlank(xs[i].jp)
  {
    var kept := Filter(xs, Filled);
    forall i | 0 <= i < |kept| ensures Clean(CleanExample(kept[i])) {
      assert kept[i] in kept;
      TrimSpec(kept[i].jp);
    }
    forall i | 0 <= i < |xs| ensures IsBlank(xs[i].jp) <==> !Filled(xs[i]) {
      TrimSpec(xs[i].jp);
    }
    if kept == [] {
      assert forall i :: 0 <= i < |xs| ==> xs[i] in xs && !Filled(xs[i]);
    } else {
      assert kept[0] in kept;
    }
  }

  /** Rows that are already clean are stored as they are, so cleaning twice changes nothing. */
  lemma ExampleListClean(xs: seq<Pair>)
    requires forall i :: 0 <= i < |xs| ==> Clean(xs[i])
    ensures ExampleList(xs) == xs
    ensures ExampleList(ExampleList(xs)) == ExampleList(xs)
  {
    forall i | 0 <= i < |xs| ensures Filled(xs[i]) && CleanExample(xs[i]) == xs[i] {
      TrimSpec(xs[i].jp);
      if xs[i].vi.Some? {
        TrimSpec(xs[i].vi.value);
      }
    }
    FilterAll(xs, Filled);
  }

  /**
   * A group is stored exactly when its editor has rows, and then holds the
   * rows with a non-blank `jp`; the object is left out when no group has
   * rows, and the two groups the dialog does not edit stay empty.
   */
  lemma CollocationsSpec(f: Form)
    ensures var c := CollocationsOf(f);
      c.Some? <==> exists g :: |f.Rows(g)| > 0
    ensures var c := CollocationsOf(f);
      c.Some? ==> (c.value.kanyo.None? && c.value.mei.None? &&
        forall g :: (Slot(c.value, g).Some? <==> |f.Rows(g)| > 0) &&
          (Slot(c.value, g).Some? ==> forall p :: p in Slot(c.value, g).value <==> p in f.Rows(g) && !IsBlank(p.jp)))
  {
    var c := CollocationsOf(f);
    forall p: Pair ensures Filled(p) <==> !IsBlank(p.jp) {
      TrimSpec(p.jp);
    }
    if c.None? {
      forall g ensures |f.Rows(g)| == 0 {
        match g
        case Ren =>
        case Go =>
        case Rui =>
        case Kan =>
        case Tai =>
      }
    } else {
      assert |f.ren| > 0 || |f.go| > 0 || |f.rui| > 0 || |f.kan| > 0 || |f.tai| > 0;
      if |f.ren| > 0 {
        assert |f.Rows(Ren)| > 0;
      } else if |f.go| > 0 {
        assert |f.Rows(Go)| > 0;
      } else if |f.rui| > 0 {
        assert |f.Rows(Rui)| > 0;
      } else if |f.kan| > 0 {
        assert |f.Rows(Kan)| > 0;
      } else {
        assert |f.Rows(Tai)| > 0;
      }
      forall g ensures Slot(c.value, g) == GroupOf(f.Rows(g)) {
        match g
        case Ren =>
        case Go =>
        case Rui =>
        case Kan =>
        case Tai =>
      }
    }
  }

  /* ---------- The guard on the text as typed ---------- */

  /** A reading of spaces passes the guard and is saved as an empty reading. */
  lemma BlankReadingSaved(f: Form, id: string)
    requires f.hiragana != "" && IsBlank(f.hiragana) && f.meaning != ""
    ensures NewRecord(f, id).Some? && NewRecord(f, id).value.hiragana == ""
  {
    TrimSpec(f.hiragana);
  }

  /** A writing of spaces is kept over the reading and is saved as an empty writing. */
  lemma BlankWritingSaved(f: Form, id: string)
    requires f.kanji != "" && IsBlank(f.kanji) && f.hiragana != "" && f.meaning != ""
    ensures NewRecord(f, id).Some? && NewRecord(f, id).value.kanji == ""
  {
    TrimSpec(f.kanji);
  }

  /** Extra meanings made only of spaces pass the guard and give a record with an empty meaning. */
  lemma BlankMeaningSaved(f: Form, id: string)
    requires f.hiragana != "" && f.meaning == "" && f.moreMeanings != "" && IsBlank(f.moreMeanings)
    ensures NewRecord(f, id).Some? && NewRecord(f, id).value.meaning == ""
  {
    SplitLinesBlank(f.moreMeanings);
    assert [f.meaning] + SplitLines(f.moreMeanings) == [""];
    assert Compact([""]) == [];
    assert MeaningList(f) == [];
    assert Accepts(f);
    var r := Build(f, id, []);
    assert NewRecord(f, id) == Some(r);
  }

  /** The meaning list of a guard that checks the trimmed text: the main meaning is trimmed too. */
  function CheckedMeanings(f: Form): seq<string> {
    Compact([Trim(f.meaning)] + SplitLines(f.moreMeanings))
  }

  /** The text inputs trimmed before they are checked and used. */
  function TrimmedInputs(f: Form): Form {
    f.(kanji := Trim(f.kanji), hiragana := Trim(f.hiragana), meaning := Trim(f.meaning))
  }

  /** `onSubmit` with the inputs trimmed first, so the guard sees what would be saved. */
  function SubmitChecked(f: Form, id: string): Option<Item> {
    var ms := CheckedMeanings(f);
    if Trim(f.hiragana) != "" && ms != [] then Some(Build(TrimmedInputs(f), id, ms)) else None
  }

  /**
   * The checked submit saves exactly when the reading and some meaning are
   * not blank, and what it saves has a non-empty reading and writing and a
   * non-empty, trimmed meaning.
   */
  lemma SubmitCheckedSound(f: Form, id: string)
    ensures SubmitChecked(f, id).Some? <==>
      !IsBlank(f.hiragana) && (!IsBlank(f.meaning) || SplitLines(f.moreMeanings) != [])
    ensures SubmitChecked(f, id).Some? ==>
      var v := SubmitChecked(f, id).value;
      v.hiragana != "" && v.kanji != "" && v.meaning != "" && Trimmed(v.meaning)
  {
    TrimSpec(f.hiragana);
    CheckedMeaningsSpec(f);
    var t := TrimmedInputs(f);
    TrimSpec(t.hiragana);
    TrimSpec(t.kanji);
  }

  /** The checked list is empty exactly when both meaning fields are blank; its first entry is trimmed. */
  lemma CheckedMeaningsSpec(f: Form)
    ensures CheckedMeanings(f) != [] <==> !IsBlank(f.meaning) || SplitLines(f.moreMeanings) != []
    ensures CheckedMeanings(f) != [] ==> CheckedMeanings(f)[0] != "" && Trimmed(CheckedMeanings(f)[0])
  {
    var more := SplitLines(f.moreMeanings);
    TrimSpec(f.meaning);
    SplitLinesPieces(f.moreMeanings);
    CompactAppend([Trim(f.meaning)], more);
    CompactNonEmpty(more);
    if Trim(f.meaning) != "" {
      assert Compact([Trim(f.meaning)]) == [Trim(f.meaning)] + Compact([]);
    } else {
      assert Compact([Trim(f.meaning)]) == [];
    }
  }

  /* ---------- The dialog ---------- */

  /** The dialog's state: what its inputs and row editors hold, whether it is open, and whether the advanced section shows. */
  class Dialog {
    var open: bool
    var form: Form
    var showAdvanced: bool

    /** The example editor always shows at least one row. */
    predicate Valid()
      reads this
    {
      |form.examples| > 0
    }

    /** The dialog as first rendered: a blank form, advanced fields hidden. */
    constructor (isOpen: bool)
      ensures Valid() && form == Blank && open == isOpen && !showAdvanced
    {
      open, form, showAdvanced := isOpen, Blank, false;
    }

    /** `addRow`: a blank row at the end of the group. */
    method AddRow(g: Group)
      requires Valid()
      modifies this
      ensures Valid()
      ensures form == old(form).WithRows(g, old(form.Rows(g)) + [BlankRow])
      ensures open == old(open) && showAdvanced == old(showAdvanced)
    {
      form := form.WithRows(g, form.Rows(g) + [BlankRow]);
    }

    /** `updateRow`: one field of row `i` of the group set to what was typed. */
    method UpdateRow(g: Group, i: nat, key: Key, val: string)
      requires Valid() && i < |form.Rows(g)|
      modifies this
      ensures Valid()
      ensures form == old(form).WithRows(g, Updated(old(form.Rows(g)), i, key, val))
      ensures open == old(open) && showAdvanced == old(showAdvanced)
    {
      form := form.WithRows(g, Updated(form.Rows(g), i, key, val));
    }

    /** `removeRow`: row `i` taken out of the group, which may become empty. */
    method RemoveRow(g: Group, i: nat)
      requires Valid()
      modifies this
      ensures Valid()
      ensures form == old(form).WithRows(g, Removed(old(form.Rows(g)), i))
      ensures open == old(open) && showAdvanced == old(showAdvanced)
    {
      form := form.WithRows(g, Removed(form.Rows(g), i));
    }

    /** `+ Thêm ví dụ`: a blank example row at the end. */
    method AddExample()
      requires Valid()
      modifies this
      ensures Valid()
      ensures form == old(form).(examples := old(form.examples) + [BlankRow])
      ensures open == old(open) && showAdvanced == old(showAdvanced)
    {
      form := form.(examples := form.examples + [BlankRow]);
    }

    /** Typing into example row `i`. */
    method UpdateExample(i: nat, key: Key, val: string)
      requires Valid() && i < |form.examples|
      modifies this
      ensures Valid()
      ensures form == old(form).(examples := Updated(old(form.examples), i, key, val))
      ensures open == old(open) && showAdvanced == old(showAdvanced)
    {
      form := form.(examples := Updated(form.examples, i, key, val));
    }

    /** Removing example row `i`; removing the last one leaves a blank row. */
    method RemoveExample(i: nat)
      requires Valid()
      modifies this
      ensures Valid()
      ensures var rest := Removed(old(form.examples), i);
        form == old(form).(examples := if |rest| > 0 then rest else [BlankRow])
      ensures open == old(open) && showAdvanced == old(showAdvanced)
    {
      var next := Removed(form.examples, i);
      form := form.(examples := if |next| > 0 then next else [BlankRow]);
    }

    /** `onClose` followed by the reset the dialog runs when it is closed. */
    method Close()
      modifies this
      ensures Valid() && form == Blank && !open && !showAdvanced
    {
      open, form, showAdvanced := false, Blank, false;
    }

    /**
     * `onSubmit(andContinue)` as written (`NewRecord`, whose guard tests the
     * untrimmed text): the record saved, if any. A rejected form is left
     * as it is; after a save the form is cleared and stays open when
     * `andContinue` holds (the advanced section as it was), and the dialog
     * closes otherwise.
     */
    method Submit(andContinue: bool, id: string) returns (saved: Option<Item>)
      requires Valid()
      modifies this
      ensures Valid()
      ensures saved == NewRecord(old(form), id)
      ensures saved.None? ==> form == old(form) && open == old(open) && showAdvanced == old(showAdvanced)
      ensures saved.Some? && andContinue ==> form == Blank && open == old(open) && showAdvanced == old(showAdvanced)
      ensures saved.Some? && !andContinue ==> form == Blank && !open && !showAdvanced
    {
      saved := NewRecord(form, id);
      if saved.Some? {
        if andContinue {
          form := Blank;
        } else {
          Close();
        }
      }
    }
  }
}
