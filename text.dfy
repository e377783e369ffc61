/**
 * The pieces of Go's `strings` package that the parser relies on: `strings.Fields`
 * (split on white space), `strings.Split` on a one-character separator,
 * `strings.HasPrefix` and `bytes.IndexByte`. A Go string is modelled as a `string`
 * (a sequence of characters).
 */
module Text {
  import opened Wrappers

  /** Go's `unicode.IsSpace`: the Latin-1 spaces and the Unicode White_Space runes. */
  predicate IsSpace(c: char) {
    c == ' ' || c == '\t' || c == '\n' || c == '\U{000B}' || c == '\U{000C}' || c == '\r'
    || c == '\U{0085}' || c == '\U{00A0}' || c == '\U{1680}'
    || ('\U{2000}' <= c <= '\U{200A}')
    || c == '\U{2028}' || c == '\U{2029}' || c == '\U{202F}' || c == '\U{205F}' || c == '\U{3000}'
  }

  /** A non-empty run of non-space characters: what `strings.Fields` yields. */
  predicate IsWord(w: string) {
    w != [] && forall i :: 0 <= i < |w| ==> !IsSpace(w[i])
  }

  predicate HasPrefix(s: string, prefix: string) {
    |prefix| <= |s| && s[..|prefix|] == prefix
  }

  /** Length of the leading run of non-space characters of `s`. */
  function WordEnd(s: string): (n: nat)
    ensures n <= |s|
    ensures forall i :: 0 <= i < n ==> !IsSpace(s[i])
    ensures n < |s| ==> IsSpace(s[n])
  {
    if s == [] || IsSpace(s[0]) then 0 else 1 + WordEnd(s[1..])
  }

  /** `strings.Fields`: the maximal runs of non-space characters, in order. */
  function Fields(s: string): (r: seq<string>)
    ensures forall i :: 0 <= i < |r| ==> IsWord(r[i])
    decreases |s|
  {
    if s == [] then []
    else if IsSpace(s[0]) then Fields(s[1..])
    else
      var n := WordEnd(s);
      [s[..n]] + Fields(s[n..])
  }

  /** The words joined by single spaces, as `fmt.Sprintf("%s %s ...")` writes a log line. */
  function Unwords(ws: seq<string>): string
  {
    if ws == [] then []
    else if |ws| == 1 then ws[0]
    else ws[0] + " " + Unwords(ws[1..])
  }

  lemma {:induction false} WordEndOfWord(w: string, rest: string)
    requires IsWord(w)
    requires rest == [] || IsSpace(rest[0])
    ensures WordEnd(w + rest) == |w|
    decreases |w|
  {
    var s := w + rest;
    if |w| > 1 {
      assert s[1..] == w[1..] + rest;
      WordEndOfWord(w[1..], rest);
    } else {
      assert s[1..] == rest;
    }
  }

  /** Splitting a space-joined line of words gives the words back. */
  lemma {:induction false} FieldsOfUnwords(ws: seq<string>)
    requires forall i :: 0 <= i < |ws| ==> IsWord(ws[i])
    ensures Fields(Unwords(ws)) == ws
  {
    if ws == [] {
    } else if |ws| == 1 {
      WordEndOfWord(ws[0], []);
      assert ws[0][..|ws[0]|] == ws[0];
      assert ws[0][|ws[0]|..] == [];
    } else {
      var tail := Unwords(ws[1..]);
      var s := ws[0] + (" " + tail);
      assert Unwords(ws) == s;
      WordEndOfWord(ws[0], " " + tail);
      assert s[..|ws[0]|] == ws[0];
      assert s[|ws[0]|..] == " " + tail;
      assert (" " + tail)[1..] == tail;
      FieldsOfUnwords(ws[1..]);
      assert ws == [ws[0]] + ws[1..];
    }
  }

  /** Index of the first occurrence of `c` in `s`. */
  function IndexOf(s: string, c: char): (r: Option<nat>)
    ensures r.None? <==> c !in s
    ensures r.Some? ==> r.value < |s| && s[r.value] == c && c !in s[..r.value]
  {
    var r := IndexFrom(s, c, 0);
    assert r.Some? ==> forall j :: 0 <= j < r.value ==> s[..r.value][j] != c;
    r
  }

  /** The search from position `from` on, knowing that `c` does not occur before it. */
  function IndexFrom(s: string, c: char, from: nat): (r: Option<nat>)
    requires from <= |s|
    requires forall j :: 0 <= j < from ==> s[j] != c
    ensures r.None? ==> forall j :: 0 <= j < |s| ==> s[j] != c
    ensures r.Some? ==> from <= r.value < |s| && s[r.value] == c && forall j :: 0 <= j < r.value ==> s[j] != c
    decreases |s| - from
  {
    if from == |s| then None
    else if s[from] == c then Some(from)
    else IndexFrom(s, c, from + 1)
  }

  /** A first occurrence is unique: any position holding `c` with no `c` before it is the index. */
  lemma IndexOfIsFirst(s: string, c: char, i: nat)
    requires i < |s| && s[i] == c && c !in s[..i]
    ensures IndexOf(s, c) == Some(i)
  {
    var r := IndexOf(s, c);
    assert r.Some? by { assert s[i] in s; }
    assert forall j :: 0 <= j < i ==> s[j] != c by {
      assert forall j :: 0 <= j < i ==> s[..i][j] == s[j];
    }
    assert forall j :: 0 <= j < r.value ==> s[j] != c by {
      assert forall j :: 0 <= j < r.value ==> s[..r.value][j] == s[j];
    }
  }

  /** The separator right after a separator-free prefix is the first occurrence. */
  lemma IndexOfAfter(a: string, c: char, rest: string)
    requires c !in a
    ensures IndexOf(a + [c] + rest, c) == Some(|a|)
  {
    var s := a + [c] + rest;
    assert s[..|a|] == a;
    IndexOfIsFirst(s, c, |a|);
  }

  /** The first occurrence of `c` in a prefix that contains it is its first occurrence overall. */
  lemma IndexOfInPrefix(a: string, b: string, c: char)
    requires c in a
    ensures IndexOf(a + b, c) == IndexOf(a, c)
  {
    var i := IndexOf(a, c).value;
    assert (a + b)[..i] == a[..i];
    IndexOfIsFirst(a + b, c, i);
  }

  /** `strings.Split(s, string(c))`: the pieces between occurrences of `c`. */
  function SplitOn(s: string, c: char): (r: seq<string>)
    ensures |r| >= 1
    ensures forall k :: 0 <= k < |r| ==> c !in r[k]
    decreases |s|
  {
    match IndexOf(s, c)
    case None => [s]
    case Some(i) => [s[..i]] + SplitOn(s[i + 1..], c)
  }

  /** `strings.Join(pieces, string(c))`. */
  function JoinOn(pieces: seq<string>, c: char): string
    requires |pieces| >= 1
  {
    if |pieces| == 1 then pieces[0] else pieces[0] + [c] + JoinOn(pieces[1..], c)
  }

  /** Joining a first piece onto further pieces puts one separator between them. */
  lemma JoinOnCons(first: string, pieces: seq<string>, c: char)
    requires |pieces| >= 1
    ensures JoinOn([first] + pieces, c) == first + [c] + JoinOn(pieces, c)
  {
    assert ([first] + pieces)[1..] == pieces;
  }

  /** Splitting loses nothing: joining the pieces gives the string back. */
  lemma {:induction false} JoinOfSplit(s: string, c: char)
    ensures JoinOn(SplitOn(s, c), c) == s
    decreases |s|
  {
    match IndexOf(s, c)
    case None =>
    case Some(i) =>
      var head, tail := s[..i], s[i + 1..];
      assert head + [c] + tail == s;
      JoinOfSplit(tail, c);
      assert SplitOn(s, c) == [head] + SplitOn(tail, c);
      JoinOnCons(head, SplitOn(tail, c), c);
  }

  /**
   * There are at least two pieces exactly when the separator occurs; then the
   * second piece is the text after the first separator up to the next one (or the end).
   */
  lemma SecondPiece(s: string, c: char)
    ensures |SplitOn(s, c)| >= 2 <==> c in s
    ensures c in s ==>
      var i := IndexOf(s, c).value;
      var rest := s[i + 1..];
      SplitOn(s, c)[1] == (match IndexOf(rest, c) case None => rest case Some(j) => rest[..j])
  {
    match IndexOf(s, c)
    case None =>
    case Some(i) =>
      var rest := s[i + 1..];
      match IndexOf(rest, c)
      case None =>
      case Some(j) =>
  }

  /** The pieces of `name + [c] + value` when `value` holds no separator. */
  lemma SplitOfAssignment(name: string, c: char, value: string)
    requires c !in name && c !in value
    ensures SplitOn(name + [c] + value, c) == [name, value]
  {
    var s := name + [c] + value;
    IndexOfAfter(name, c, value);
    assert s[..|name|] == name;
    assert s[|name| + 1..] == value;
  }

  /** Concatenation is associative; stated once so that proofs can name the regrouping they need. */
  lemma AppendAssoc<T>(p: seq<T>, q: seq<T>, r: seq<T>)
    ensures (p + q) + r == p + (q + r)
  {
  }
}
