/**
 * The JavaScript string operations the application relies on, on `seq<char>`:
 * `trim`, `split` by a literal separator or a character class, `join`,
 * `includes`, `indexOf`, `replace`/`replaceAll` with a literal pattern,
 * `filter(Boolean)` and `Array.from(new Set(..))`.
 */
module Strings {
  import opened Optional

  /** The characters `String.prototype.trim` removes and the regex class `\s` matches. */
  predicate IsWhite(c: char) {
    c == ' ' || c == '\t' || c == '\n' || c == '\U{000B}' || c == '\U{000C}' || c == '\r'
    || c == '\U{00A0}' || c == '\U{1680}' || ('\U{2000}' <= c <= '\U{200A}')
    || c == '\U{2028}' || c == '\U{2029}' || c == '\U{202F}' || c == '\U{205F}'
    || c == '\U{3000}' || c == '\U{FEFF}'
  }

  /** Empty or whitespace only: `!s.trim()`. */
  predicate IsBlank(s: string) {
    forall i :: 0 <= i < |s| ==> IsWhite(s[i])
  }

  /** Neither end is whitespace. */
  predicate Trimmed(s: string) {
    s == "" || (!IsWhite(s[0]) && !IsWhite(s[|s| - 1]))
  }

  /** How many whitespace characters `s` starts with. */
  function LeadingWhite(s: string): (n: nat)
    ensures n <= |s|
    ensures forall i :: 0 <= i < n ==> IsWhite(s[i])
    ensures n == |s| || !IsWhite(s[n])
  {
    if |s| > 0 && IsWhite(s[0]) then
      var n := LeadingWhite(s[1..]);
      assert forall i :: 1 <= i <= n ==> s[i] == s[1..][i - 1];
      1 + n
    else 0
  }

  /** How many whitespace characters `s` ends with. */
  function TrailingWhite(s: string): (n: nat)
    ensures n <= |s|
    ensures forall i :: |s| - n <= i < |s| ==> IsWhite(s[i])
    ensures n == |s| || !IsWhite(s[|s| - n - 1])
  {
    if |s| > 0 && IsWhite(s[|s| - 1]) then
      var n := TrailingWhite(s[..|s| - 1]);
      assert forall i :: 0 <= i < |s| - 1 ==> s[i] == s[..|s| - 1][i];
      1 + n
    else 0
  }

  /** `s.trimStart()`. */
  function TrimStart(s: string): string {
    s[LeadingWhite(s)..]
  }

  /** `s.trimEnd()`. */
  function TrimEnd(s: string): string {
    s[..|s| - TrailingWhite(s)]
  }

  /** `s.trim()`. */
  function Trim(s: string): (r: string)
    ensures Trimmed(r)
    ensures |r| <= |s|
  {
    TrimTrimmed(s);
    TrimChars(s);
    TrimEnd(TrimStart(s))
  }

  /**
   * `trim` gives "" exactly on blank strings, leaves a trimmed string alone,
   * and keeps only characters of its input.
   */
  lemma TrimSpec(s: string)
    ensures Trim(s) == "" <==> IsBlank(s)
    ensures Trimmed(s) ==> Trim(s) == s
    ensures forall i :: 0 <= i < |Trim(s)| ==> Trim(s)[i] in s
  {
    TrimTrimmed(s);
    TrimBlank(s);
    TrimChars(s);
  }

  lemma TrimTrimmed(s: string)
    ensures Trimmed(TrimEnd(TrimStart(s)))
    ensures Trimmed(s) ==> TrimEnd(TrimStart(s)) == s
  {
    var a := TrimStart(s);
    var r := TrimEnd(a);
    if r != "" {
      assert r[0] == a[0] == s[LeadingWhite(s)];
      assert r[|r| - 1] == a[|a| - TrailingWhite(a) - 1];
    }
  }

  lemma TrimBlank(s: string)
    ensures TrimEnd(TrimStart(s)) == "" <==> IsBlank(s)
  {
    var p := LeadingWhite(s);
    var a := TrimStart(s);
    var q := TrailingWhite(a);
    assert forall i :: p <= i < |s| ==> s[i] == a[i - p];
    assert IsBlank(s) ==> p == |s|;
  }

  lemma TrimChars(s: string)
    ensures |TrimEnd(TrimStart(s))| <= |s|
    ensures forall i :: 0 <= i < |TrimEnd(TrimStart(s))| ==> TrimEnd(TrimStart(s))[i] in s
  {
    var p := LeadingWhite(s);
    var r := TrimEnd(TrimStart(s));
    forall i | 0 <= i < |r| ensures r[i] in s {
      assert r[i] == s[p + i];
    }
  }

  /** `s[k..]` starts with `t`. */
  predicate OccursAt(s: string, t: string, k: nat) {
    k + |t| <= |s| && s[k..k + |t|] == t
  }

  /** First position at or after `from` where `t` occurs in `s`. */
  function IndexOfFrom(s: string, t: string, from: nat): (r: Option<nat>)
    requires from <= |s|
    decreases |s| - from
    ensures r.Some? ==> from <= r.value && OccursAt(s, t, r.value)
    ensures forall k: nat :: from <= k && (r.None? || k < r.value) ==> !OccursAt(s, t, k)
  {
    if from + |t| > |s| then None
    else if s[from..from + |t|] == t then Some(from)
    else IndexOfFrom(s, t, from + 1)
  }

  /** `s.indexOf(t)`, with `None` for JavaScript's -1. */
  function IndexOf(s: string, t: string): Option<nat> {
    IndexOfFrom(s, t, 0)
  }

  /** `s.includes(t)`. */
  predicate Contains(s: string, t: string) {
    IndexOf(s, t).Some?
  }

  /** `s.split(sep)` for a non-empty literal separator. */
  function Split(s: string, sep: string): (r: seq<string>)
    requires |sep| > 0
    ensures |r| > 0
    decreases |s|
  {
    match IndexOf(s, sep)
    case None => [s]
    case Some(k) => [s[..k]] + Split(s[k + |sep|..], sep)
  }

  /** `xs.join(sep)`. */
  function Join(xs: seq<string>, sep: string): string {
    if |xs| == 0 then ""
    else if |xs| == 1 then xs[0]
    else xs[0] + sep + Join(xs[1..], sep)
  }

  /** Splitting and joining back with the same separator restores the string. */
  lemma {:induction false} JoinSplit(s: string, sep: string)
    requires |sep| > 0
    ensures Join(Split(s, sep), sep) == s
    decreases |s|
  {
    match IndexOf(s, sep)
    case None =>
    case Some(k) =>
      var rest := s[k + |sep|..];
      JoinSplit(rest, sep);
      var xs := Split(s, sep);
      assert xs == [s[..k]] + Split(rest, sep);
      assert xs[1..] == Split(rest, sep);
      assert s == s[..k] + s[k..k + |sep|] + rest;
  }

  /** A string without the separator's first character is not split. */
  lemma SplitWithout(a: string, sep: string)
    requires |sep| > 0 && sep[0] !in a
    ensures Split(a, sep) == [a]
  {
    match IndexOf(a, sep)
    case None =>
    case Some(k) =>
  }

  /** The first separator after a separator-free prefix ends the first piece. */
  lemma SplitAfter(a: string, sep: string, b: string)
    requires |sep| > 0 && sep[0] !in a
    ensures Split(a + sep + b, sep) == [a] + Split(b, sep)
  {
    var s := a + sep + b;
    assert OccursAt(s, sep, |a|) by {
      assert s[|a|..|a| + |sep|] == sep;
    }
    var r := IndexOf(s, sep);
    assert r.Some?;
    assert r.value == |a|;
    assert s[|a| + |sep|..] == b;
    assert s[..|a|] == a;
  }

  /** Joining pieces that do not contain the separator and splitting again gives the pieces back. */
  lemma {:induction false} SplitJoin(xs: seq<string>, sep: string)
    requires |sep| > 0 && xs != []
    requires forall i :: 0 <= i < |xs| ==> sep[0] !in xs[i]
    ensures Split(Join(xs, sep), sep) == xs
    decreases |xs|
  {
    if |xs| == 1 {
      SplitWithout(xs[0], sep);
    } else {
      SplitJoin(xs[1..], sep);
      SplitAfter(xs[0], sep, Join(xs[1..], sep));
      assert [xs[0]] + xs[1..] == xs;
    }
  }

  /** `s.split(re)` for a regular expression that is a single character class. */
  function SplitChars(s: string, seps: set<char>): (r: seq<string>)
    ensures |r| > 0
    ensures forall i :: 0 <= i < |r| ==> forall c :: c in r[i] ==> c in s && c !in seps
  {
    if s == "" then [""]
    else
      var rest := SplitChars(s[1..], seps);
      assert forall c :: c in s[1..] ==> c in s;
      if s[0] in seps then [""] + rest
      else [[s[0]] + rest[0]] + rest[1..]
  }

  /** A string with no separator character is one piece. */
  lemma {:induction false} SplitCharsWithout(a: string, seps: set<char>)
    requires forall i :: 0 <= i < |a| ==> a[i] !in seps
    ensures SplitChars(a, seps) == [a]
    decreases |a|
  {
    if a != "" {
      SplitCharsWithout(a[1..], seps);
      assert [a[0]] + a[1..] == a;
    }
  }

  /** The first separator character after a separator-free prefix ends the first piece. */
  lemma {:induction false} SplitCharsAfter(a: string, c: char, b: string, seps: set<char>)
    requires c in seps
    requires forall i :: 0 <= i < |a| ==> a[i] !in seps
    ensures SplitChars(a + [c] + b, seps) == [a] + SplitChars(b, seps)
    decreases |a|
  {
    var s := a + [c] + b;
    if a == "" {
      assert s[1..] == b;
    } else {
      assert s[1..] == a[1..] + [c] + b;
      SplitCharsAfter(a[1..], c, b, seps);
      assert [a[0]] + a[1..] == a;
    }
  }

  /** Joining separator-free pieces with a separator character and splitting again gives them back. */
  lemma {:induction false} SplitCharsJoin(xs: seq<string>, c: char, seps: set<char>)
    requires c in seps && xs != []
    requires forall i :: 0 <= i < |xs| ==> forall ch :: ch in xs[i] ==> ch !in seps
    ensures SplitChars(Join(xs, [c]), seps) == xs
    decreases |xs|
  {
    assert forall i :: 0 <= i < |xs[0]| ==> xs[0][i] in xs[0];
    if |xs| == 1 {
      SplitCharsWithout(xs[0], seps);
    } else {
      SplitCharsJoin(xs[1..], c, seps);
      SplitCharsAfter(xs[0], c, Join(xs[1..], [c]), seps);
      assert [xs[0]] + xs[1..] == xs;
    }
  }

  /** `s.split(re).map((x) => x.trim()).filter(Boolean)` for a character-class pattern. */
  function CharPieces(s: string, seps: set<char>): seq<string> {
    Compact(TrimAll(SplitChars(s, seps)))
  }

  /** Every piece is non-empty and trimmed and holds no separator character. */
  lemma CharPiecesSpec(s: string, seps: set<char>)
    ensures forall i :: 0 <= i < |CharPieces(s, seps)| ==>
      CharPieces(s, seps)[i] != "" && Trimmed(CharPieces(s, seps)[i]) &&
      forall c :: c in CharPieces(s, seps)[i] ==> c !in seps
  {
    var ps := SplitChars(s, seps);
    var ts := TrimAll(ps);
    forall x | x in ts ensures Trimmed(x) && forall c :: c in x ==> c !in seps {
      var i :| 0 <= i < |ts| && ts[i] == x;
      TrimSpec(ps[i]);
      assert forall k :: 0 <= k < |x| ==> x[k] in ps[i] && x[k] !in seps;
    }
    forall i | 0 <= i < |CharPieces(s, seps)|
      ensures Trimmed(CharPieces(s, seps)[i]) && forall c :: c in CharPieces(s, seps)[i] ==> c !in seps
    {
      assert CharPieces(s, seps)[i] in CharPieces(s, seps);
    }
  }

  /** A blank text has no pieces. */
  lemma CharPiecesBlank(s: string, seps: set<char>)
    requires IsBlank(s)
    ensures CharPieces(s, seps) == []
  {
    var ps := SplitChars(s, seps);
    forall i | 0 <= i < |ps| ensures Trim(ps[i]) == "" {
      forall j | 0 <= j < |ps[i]| ensures IsWhite(ps[i][j]) {
        assert ps[i][j] in ps[i];
        var k :| 0 <= k < |s| && s[k] == ps[i][j];
      }
      TrimSpec(ps[i]);
    }
    CompactEmpty(TrimAll(ps));
  }

  /** Trimming trimmed texts changes nothing. */
  lemma TrimAllTrimmed(xs: seq<string>)
    requires forall i :: 0 <= i < |xs| ==> Trimmed(xs[i])
    ensures TrimAll(xs) == xs
  {
    forall i | 0 <= i < |xs| ensures Trim(xs[i]) == xs[i] {
      TrimSpec(xs[i]);
    }
  }

  /** Pieces joined with one separator character are read back. */
  lemma CharPiecesJoin(xs: seq<string>, c: char, seps: set<char>)
    requires c in seps
    requires forall i :: 0 <= i < |xs| ==> xs[i] != "" && Trimmed(xs[i]) && forall ch :: ch in xs[i] ==> ch !in seps
    ensures CharPieces(Join(xs, [c]), seps) == xs
  {
    if xs == [] {
      TrimSpec("");
      assert TrimAll([""]) == [""];
    } else {
      SplitCharsJoin(xs, c, seps);
      TrimAllTrimmed(xs);
      CompactNonEmpty(xs);
    }
  }

  /** Non-empty pieces joined by anything start with the first piece's first character and end with the last piece's last. */
  lemma {:induction false} JoinEnds(xs: seq<string>, sep: string)
    requires xs != [] && forall i :: 0 <= i < |xs| ==> xs[i] != ""
    ensures Join(xs, sep) != ""
    ensures Join(xs, sep)[0] == xs[0][0]
    ensures Join(xs, sep)[|Join(xs, sep)| - 1] == xs[|xs| - 1][|xs[|xs| - 1]| - 1]
    decreases |xs|
  {
    if |xs| > 1 {
      JoinEnds(xs[1..], sep);
      var j := Join(xs[1..], sep);
      assert Join(xs, sep) == xs[0] + sep + j;
    }
  }

  /** A join of non-empty trimmed pieces is itself trimmed. */
  lemma JoinTrimmed(xs: seq<string>, sep: string)
    requires xs != [] && forall i :: 0 <= i < |xs| ==> xs[i] != "" && Trimmed(xs[i])
    ensures Trimmed(Join(xs, sep))
  {
    JoinEnds(xs, sep);
    assert Trimmed(xs[0]) && Trimmed(xs[|xs| - 1]);
  }

  /** `.filter(Boolean)` on strings: drops the empty ones. */
  function Compact(xs: seq<string>): (r: seq<string>)
    ensures forall i :: 0 <= i < |r| ==> r[i] != ""
    ensures forall x :: x in r <==> x in xs && x != ""
    ensures |r| <= |xs|
  {
    if xs == [] then []
    else (if xs[0] == "" then [] else [xs[0]]) + Compact(xs[1..])
  }

  lemma {:induction false} CompactAppend(a: seq<string>, b: seq<string>)
    ensures Compact(a + b) == Compact(a) + Compact(b)
    decreases |a|
  {
    if a == [] {
      assert a + b == b;
    } else {
      var head := if a[0] == "" then [] else [a[0]];
      assert (a + b)[0] == a[0] && (a + b)[1..] == a[1..] + b;
      calc {
        Compact(a + b);
        head + Compact(a[1..] + b);
        { CompactAppend(a[1..], b); }
        head + (Compact(a[1..]) + Compact(b));
        (head + Compact(a[1..])) + Compact(b);
      }
    }
  }

  /** `.map((x) => x.trim())`. */
  function TrimAll(xs: seq<string>): (r: seq<string>)
    ensures |r| == |xs|
    ensures forall i :: 0 <= i < |r| ==> r[i] == Trim(xs[i])
  {
    if xs == [] then [] else [Trim(xs[0])] + TrimAll(xs[1..])
  }

  /** `xs.filter(p)`: the elements satisfying `p`, in order. */
  function Filter<T(!new)>(xs: seq<T>, p: T -> bool): (r: seq<T>)
    ensures forall x :: x in r <==> x in xs && p(x)
    ensures |r| <= |xs|
  {
    if xs == [] then []
    else
      assert forall x :: x in xs <==> x == xs[0] || x in xs[1..] by {
        assert xs == [xs[0]] + xs[1..];
      }
      (if p(xs[0]) then [xs[0]] else []) + Filter(xs[1..], p)
  }

  /** Filtering a concatenation filters each part and keeps them in order. */
  lemma {:induction false} FilterAppend<T(!new)>(a: seq<T>, b: seq<T>, p: T -> bool)
    ensures Filter(a + b, p) == Filter(a, p) + Filter(b, p)
    decreases |a|
  {
    if a == [] {
      assert a + b == b;
    } else {
      assert (a + b)[0] == a[0];
      assert (a + b)[1..] == a[1..] + b;
      FilterAppend(a[1..], b, p);
    }
  }

  /** One element is kept, once, exactly when it passes. */
  lemma FilterOne<T(!new)>(x: T, p: T -> bool)
    ensures Filter([x], p) == if p(x) then [x] else []
  {
    assert [x][1..] == [];
  }

  /** A filter that every element passes keeps the whole sequence. */
  lemma {:induction false} FilterAll<T(!new)>(xs: seq<T>, p: T -> bool)
    requires forall i :: 0 <= i < |xs| ==> p(xs[i])
    ensures Filter(xs, p) == xs
    decreases |xs|
  {
    if xs != [] {
      FilterAll(xs[1..], p);
    }
  }

  /**
   * The Unicode folding the program asks of the JavaScript engine:
   * `normalize("NFD")` followed by removing U+0300..U+036F (`strip`), and
   * `toLowerCase` (`lower`). Both are given, not defined here.
   */
  datatype TextFold = TextFold(strip: string -> string, lower: string -> string)

  /** Dropping empty strings from strings that are all non-empty changes nothing. */
  lemma {:induction false} CompactNonEmpty(xs: seq<string>)
    requires forall x :: x in xs ==> x != ""
    ensures Compact(xs) == xs
    decreases |xs|
  {
    if xs != [] {
      assert xs[0] in xs;
      assert forall x :: x in xs[1..] ==> x in xs;
      CompactNonEmpty(xs[1..]);
      assert xs == [xs[0]] + xs[1..];
    }
  }

  /** Strings that are all empty leave nothing. */
  lemma {:induction false} CompactEmpty(xs: seq<string>)
    requires forall i :: 0 <= i < |xs| ==> xs[i] == ""
    ensures Compact(xs) == []
    decreases |xs|
  {
    if xs != [] {
      CompactEmpty(xs[1..]);
    }
  }

  /** Trimming a non-empty trimmed string between blank margins gives the string back. */
  lemma TrimPadded(p: string, t: string, q: string)
    requires IsBlank(p) && IsBlank(q) && t != "" && Trimmed(t)
    ensures Trim(p + t + q) == t
  {
    var s := p + t + q;
    var n := LeadingWhite(s);
    assert s[|p|] == t[0];
    assert n == |p|;
    var a := s[n..];
    assert a == t + q;
    var m := TrailingWhite(a);
    assert a[|t| - 1] == t[|t| - 1];
    assert m == |q|;
    assert a[..|a| - m] == t;
  }

  /**
   * Joining trimmed, non-empty pieces free of the separator's first character
   * with the separator between blank margins, and splitting back with
   * `Pieces`, restores the pieces.
   */
  lemma PiecesJoin(ts: seq<string>, sep: string, pad: string)
    requires |sep| > 0 && IsBlank(pad) && sep[0] !in pad
    requires forall i :: 0 <= i < |ts| ==> ts[i] != "" && Trimmed(ts[i]) && sep[0] !in ts[i]
    ensures Pieces(Join(ts, pad + sep + pad), sep) == ts
  {
    PiecesJoinAfter("", ts, sep, pad);
    assert "" + Join(ts, pad + sep + pad) == Join(ts, pad + sep + pad);
  }

  lemma {:induction false} PiecesJoinAfter(p: string, ts: seq<string>, sep: string, pad: string)
    requires |sep| > 0 && IsBlank(pad) && sep[0] !in pad && IsBlank(p) && sep[0] !in p
    requires forall i :: 0 <= i < |ts| ==> ts[i] != "" && Trimmed(ts[i]) && sep[0] !in ts[i]
    ensures Pieces(p + Join(ts, pad + sep + pad), sep) == ts
    decreases |ts|
  {
    if ts == [] {
      PiecesBlank(p, sep);
      assert p + Join(ts, pad + sep + pad) == p;
    } else if |ts| == 1 {
      PiecesJoinOne(p, ts[0], sep);
      assert p + Join(ts, pad + sep + pad) == p + ts[0] + "";
    } else {
      PiecesJoinAfter(pad, ts[1..], sep, pad);
      PiecesJoinCons(p, ts, sep, pad);
    }
  }

  /** The step of `PiecesJoinAfter`: the first piece, then the pieces of the rest. */
  lemma PiecesJoinCons(p: string, ts: seq<string>, sep: string, pad: string)
    requires |sep| > 0 && IsBlank(pad) && sep[0] !in pad && IsBlank(p) && sep[0] !in p
    requires |ts| > 1 && ts[0] != "" && Trimmed(ts[0]) && sep[0] !in ts[0]
    requires Pieces(pad + Join(ts[1..], pad + sep + pad), sep) == ts[1..]
    ensures Pieces(p + Join(ts, pad + sep + pad), sep) == ts
  {
    var g := pad + sep + pad;
    var rest := Join(ts[1..], g);
    JoinCons(ts, g);
    PiecesJoinNext(p, ts[0], rest, sep, pad, ts[1..]);
    assert [ts[0]] + ts[1..] == ts;
  }

  /** Joining two or more pieces: the first, the separator, then the join of the rest. */
  lemma JoinCons(ts: seq<string>, g: string)
    requires |ts| > 1
    ensures Join(ts, g) == ts[0] + g + Join(ts[1..], g)
  {
  }

  /** Regrouping a concatenation. */
  lemma SeqAssoc5(p: string, t: string, pad: string, sep: string, b: string)
    ensures p + (t + (pad + sep + pad) + b) == p + t + pad + sep + (pad + b)
  {
  }

  /** Blank text without the separator has no pieces. */
  lemma PiecesBlank(p: string, sep: string)
    requires |sep| > 0 && IsBlank(p) && sep[0] !in p
    ensures Pieces(p, sep) == []
  {
    SplitWithout(p, sep);
    TrimSpec(p);
    assert TrimAll([p]) == [Trim(p)];
  }

  /** A single padded piece. */
  lemma PiecesJoinOne(p: string, t: string, sep: string)
    requires |sep| > 0 && IsBlank(p) && sep[0] !in p
    requires t != "" && Trimmed(t) && sep[0] !in t
    ensures Pieces(p + t + "", sep) == [t]
  {
    var s := p + t + "";
    assert sep[0] !in s;
    SplitWithout(s, sep);
    TrimPadded(p, t, "");
    assert TrimAll([s]) == [t];
    assert Compact([t]) == [t] + Compact([]);
  }

  /** The first piece, then the pieces of the rest. */
  lemma PiecesJoinNext(p: string, t: string, rest: string, sep: string, pad: string, tail: seq<string>)
    requires |sep| > 0 && IsBlank(pad) && sep[0] !in pad && IsBlank(p) && sep[0] !in p
    requires t != "" && Trimmed(t) && sep[0] !in t
    requires Pieces(pad + rest, sep) == tail
    ensures Pieces(p + (t + (pad + sep + pad) + rest), sep) == [t] + tail
  {
    var a := p + t + pad;
    SeqAssoc5(p, t, pad, sep, rest);
    assert sep[0] !in a;
    TrimPadded(p, t, pad);
    PiecesHead(a, sep, pad + rest);
  }

  /** A first piece with text before the first separator comes first. */
  lemma PiecesHead(a: string, sep: string, b: string)
    requires |sep| > 0 && sep[0] !in a && Trim(a) != ""
    ensures Pieces(a + sep + b, sep) == [Trim(a)] + Pieces(b, sep)
  {
    SplitAfter(a, sep, b);
    var xs := Split(b, sep);
    assert TrimAll([a] + xs) == [Trim(a)] + TrimAll(xs) by {
      assert ([a] + xs)[1..] == xs;
    }
    var ys := TrimAll(xs);
    assert Compact([Trim(a)] + ys) == [Trim(a)] + Compact(ys) by {
      assert ([Trim(a)] + ys)[1..] == ys;
    }
  }

  /** `s.split(sep).map((x) => x.trim()).filter(Boolean)`. */
  function Pieces(s: string, sep: string): (r: seq<string>)
    requires |sep| > 0
    ensures forall i :: 0 <= i < |r| ==> r[i] != "" && Trimmed(r[i])
  {
    var ts := TrimAll(Split(s, sep));
    assert forall x :: x in ts ==> Trimmed(x);
    Compact(ts)
  }

  predicate Distinct<T(==)>(xs: seq<T>) {
    forall i, j :: 0 <= i < j < |xs| ==> xs[i] != xs[j]
  }

  /** `Array.from(new Set(xs))`: first occurrences, in order. */
  function Dedup<T(==, !new)>(xs: seq<T>): (r: seq<T>)
    ensures forall x :: x in r <==> x in xs
    ensures |r| <= |xs|
  {
    if xs == [] then []
    else
      var d := Dedup(xs[..|xs| - 1]);
      assert forall x :: x in xs <==> x in xs[..|xs| - 1] || x == xs[|xs| - 1] by {
        assert xs == xs[..|xs| - 1] + [xs[|xs| - 1]];
      }
      if xs[|xs| - 1] in d then d else d + [xs[|xs| - 1]]
  }

  /** `Dedup` of a sequence with one more element at the end. */
  lemma DedupSnoc<T(!new)>(xs: seq<T>, x: T)
    ensures Dedup(xs + [x]) == if x in Dedup(xs) then Dedup(xs) else Dedup(xs) + [x]
  {
    assert (xs + [x])[..|xs|] == xs;
  }

  /** `Dedup` never repeats an element. */
  lemma {:induction false} DedupIsDistinct<T(!new)>(xs: seq<T>)
    ensures Distinct(Dedup(xs))
    decreases |xs|
  {
    if xs != [] {
      DedupIsDistinct(xs[..|xs| - 1]);
    }
  }

  /** `Dedup` leaves a sequence without repetitions as it is. */
  lemma {:induction false} DedupDistinct<T(!new)>(xs: seq<T>)
    requires Distinct(xs)
    ensures Dedup(xs) == xs
    decreases |xs|
  {
    if xs != [] {
      var init := xs[..|xs| - 1];
      DedupDistinct(init);
      assert xs[|xs| - 1] !in init;
      assert xs == init + [xs[|xs| - 1]];
    }
  }

  /** `Dedup` of a longer sequence starts with `Dedup` of its prefix. */
  lemma {:induction false} DedupPrefix<T(!new)>(xs: seq<T>, ys: seq<T>)
    ensures Dedup(xs) <= Dedup(xs + ys)
    decreases |ys|
  {
    if ys == [] {
      assert xs + ys == xs;
    } else {
      var init := ys[..|ys| - 1];
      DedupPrefix(xs, init);
      assert xs + ys == (xs + init) + [ys[|ys| - 1]];
      DedupSnoc(xs + init, ys[|ys| - 1]);
    }
  }

  /** `s.replaceAll(t, b)` for a non-empty literal pattern. */
  function ReplaceAll(s: string, t: string, b: string): string
    requires |t| > 0
    decreases |s|
  {
    match IndexOf(s, t)
    case None => s
    case Some(k) => s[..k] + b + ReplaceAll(s[k + |t|..], t, b)
  }

  /** Replacing every occurrence is splitting on the pattern and joining with the replacement. */
  lemma {:induction false} ReplaceAllIsSplitJoin(s: string, t: string, b: string)
    requires |t| > 0
    ensures ReplaceAll(s, t, b) == Join(Split(s, t), b)
    decreases |s|
  {
    match IndexOf(s, t)
    case None =>
    case Some(k) =>
      var rest := s[k + |t|..];
      ReplaceAllIsSplitJoin(rest, t, b);
      assert Split(s, t)[1..] == Split(rest, t);
  }

  /** `s.replace(t, b)` for a literal pattern: only the first occurrence. */
  function ReplaceFirst(s: string, t: string, b: string): string {
    match IndexOf(s, t)
    case None => s
    case Some(k) => s[..k] + b + s[k + |t|..]
  }
}
