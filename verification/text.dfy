/** The pieces of Go's `strings` package that the wrapper leans on, over `seq<char>`. */
module Text {

  /** The wrapper's own `fieldsFunc` separator set: newline, carriage return, space, tab. */
  predicate IsListSeparator(c: char) {
    c == '\n' || c == '\r' || c == ' ' || c == '\t'
  }

  /** Go's `unicode.IsSpace`, the separator set of `strings.Fields`: the ASCII
      white space, NEL, NO-BREAK SPACE and the other Unicode White_Space code points. */
  predicate IsSpace(c: char) {
    || c == '\t' || c == '\n' || c == '\U{000B}' || c == '\U{000C}' || c == '\r' || c == ' '
    || c == '\U{0085}' || c == '\U{00A0}' || c == '\U{1680}'
    || ('\U{2000}' <= c <= '\U{200A}')
    || c == '\U{2028}' || c == '\U{2029}' || c == '\U{202F}' || c == '\U{205F}' || c == '\U{3000}'
  }

  /** A token: non-empty, and none of its characters is a separator. */
  predicate IsToken(t: string, sep: char -> bool) {
    |t| > 0 && forall i :: 0 <= i < |t| ==> !sep(t[i])
  }

  /** `strings.HasPrefix`. */
  predicate HasPrefix(s: string, p: string) {
    |p| <= |s| && s[..|p|] == p
  }

  /** `sub` occurs in `s` starting at index `i`. */
  predicate OccursAt(s: string, sub: string, i: int) {
    0 <= i <= |s| - |sub| && s[i..i + |sub|] == sub
  }

  /** `strings.Contains`. */
  predicate Contains(s: string, sub: string) {
    exists i :: 0 <= i <= |s| - |sub| && OccursAt(s, sub, i)
  }

  /** Length of the longest prefix of `s` free of separators. */
  function WordLength(s: string, sep: char -> bool): (n: nat)
    ensures n <= |s|
    ensures forall i :: 0 <= i < n ==> !sep(s[i])
    ensures n < |s| ==> sep(s[n])
  {
    if |s| == 0 || sep(s[0]) then 0 else 1 + WordLength(s[1..], sep)
  }

  /** `strings.FieldsFunc(s, sep)`: the maximal separator-free runs of `s`, in order. */
  function Fields(s: string, sep: char -> bool): (r: seq<string>)
    ensures forall i :: 0 <= i < |r| ==> IsToken(r[i], sep)
    decreases |s|
  {
    if |s| == 0 then []
    else if sep(s[0]) then Fields(s[1..], sep)
    else
      var n := WordLength(s, sep);
      [s[..n]] + Fields(s[n..], sep)
  }

  /** The characters of `s` that are not separators, in order. */
  function Keep(s: string, sep: char -> bool): (r: string)
    ensures |r| <= |s|
    ensures forall i :: 0 <= i < |r| ==> !sep(r[i])
  {
    if |s| == 0 then ""
    else if sep(s[0]) then Keep(s[1..], sep)
    else [s[0]] + Keep(s[1..], sep)
  }

  function Concat(ts: seq<string>): string {
    if |ts| == 0 then "" else ts[0] + Concat(ts[1..])
  }

  /** `strings.Join` with a one-character separator. */
  function Join(parts: seq<string>, d: char): string {
    if |parts| == 0 then ""
    else if |parts| == 1 then parts[0]
    else parts[0] + [d] + Join(parts[1..], d)
  }

  /** `strings.IndexByte`, with `|s|` standing for "absent". */
  function IndexOf(s: string, d: char): (n: nat)
    ensures n <= |s|
    ensures d !in s[..n]
    ensures n < |s| ==> s[n] == d
  {
    if |s| == 0 || s[0] == d then 0 else 1 + IndexOf(s[1..], d)
  }

  /** `strings.Split(s, [d])`: the pieces between occurrences of `d`; one more piece than there are `d`s. */
  function Split(s: string, d: char): (r: seq<string>)
    ensures |r| >= 1
    ensures forall i :: 0 <= i < |r| ==> d !in r[i]
    ensures |r[0]| <= |s| && r[0] == s[..|r[0]|]
    decreases |s|
  {
    var n := IndexOf(s, d);
    if n == |s| then [s] else [s[..n]] + Split(s[n + 1..], d)
  }

  lemma {:induction false} KeepAppend(a: string, b: string, sep: char -> bool)
    ensures Keep(a + b, sep) == Keep(a, sep) + Keep(b, sep)
    decreases |a|
  {
    if |a| > 0 {
      assert (a + b)[0] == a[0];
      assert (a + b)[1..] == a[1..] + b;
      KeepAppend(a[1..], b, sep);
      if sep(a[0]) {
        assert Keep(a + b, sep) == Keep(a[1..] + b, sep);
        assert Keep(a, sep) == Keep(a[1..], sep);
      } else {
        assert Keep(a + b, sep) == [a[0]] + Keep(a[1..] + b, sep);
        assert Keep(a, sep) == [a[0]] + Keep(a[1..], sep);
      }
    } else {
      assert a + b == b;
    }
  }

  lemma {:induction false} KeepOfToken(t: string, sep: char -> bool)
    requires forall i :: 0 <= i < |t| ==> !sep(t[i])
    ensures Keep(t, sep) == t
    decreases |t|
  {
    if |t| > 0 {
      KeepOfToken(t[1..], sep);
    }
  }

  /** Tokenizing loses exactly the separators: the tokens, concatenated, are the
      non-separator characters of the input in their original order. */
  lemma {:induction false} FieldsKeepEveryOtherCharacter(s: string, sep: char -> bool)
    ensures Concat(Fields(s, sep)) == Keep(s, sep)
    decreases |s|
  {
    if |s| > 0 && sep(s[0]) {
      FieldsKeepEveryOtherCharacter(s[1..], sep);
    } else if |s| > 0 {
      var n := WordLength(s, sep);
      FieldsKeepEveryOtherCharacter(s[n..], sep);
      KeepOfToken(s[..n], sep);
      KeepAppend(s[..n], s[n..], sep);
      assert s[..n] + s[n..] == s;
    }
  }

  lemma {:induction false} WordLengthStopsAtSeparator(a: string, c: char, b: string, sep: char -> bool)
    requires sep(c)
    ensures WordLength(a + [c] + b, sep) == WordLength(a, sep)
    decreases |a|
  {
    if |a| > 0 && !sep(a[0]) {
      assert (a + [c] + b)[1..] == a[1..] + [c] + b;
      WordLengthStopsAtSeparator(a[1..], c, b, sep);
    }
  }

  /** A separator cuts the tokenization in two: no token spans it. */
  lemma {:induction false} FieldsAroundSeparator(a: string, c: char, b: string, sep: char -> bool)
    requires sep(c)
    ensures Fields(a + [c] + b, sep) == Fields(a, sep) + Fields(b, sep)
    decreases |a|
  {
    var s := a + [c] + b;
    if |a| == 0 {
      assert s == [c] + b;
      assert s[1..] == b;
    } else if sep(a[0]) {
      assert s[1..] == a[1..] + [c] + b;
      FieldsAroundSeparator(a[1..], c, b, sep);
    } else {
      var n := WordLength(a, sep);
      WordLengthStopsAtSeparator(a, c, b, sep);
      assert s[..n] == a[..n];
      assert s[n..] == a[n..] + [c] + b;
      FieldsAroundSeparator(a[n..], c, b, sep);
    }
  }

  lemma {:induction false} FieldsOfToken(t: string, sep: char -> bool)
    requires IsToken(t, sep)
    ensures Fields(t, sep) == [t]
  {
    var n := WordLength(t, sep);
    assert n == |t|;
    assert t[..n] == t;
    assert t[n..] == [];
    assert Fields(t[n..], sep) == [];
  }

  /** Joining tokens with any separator and tokenizing again gives the tokens back. */
  lemma {:induction false} FieldsOfJoin(ts: seq<string>, c: char, sep: char -> bool)
    requires sep(c)
    requires forall i :: 0 <= i < |ts| ==> IsToken(ts[i], sep)
    ensures Fields(Join(ts, c), sep) == ts
    decreases |ts|
  {
    if |ts| == 1 {
      FieldsOfToken(ts[0], sep);
    } else if |ts| > 1 {
      FieldsOfJoin(ts[1..], c, sep);
      FieldsAroundSeparator(ts[0], c, Join(ts[1..], c), sep);
      FieldsOfToken(ts[0], sep);
      assert ts == [ts[0]] + ts[1..];
    }
  }

  lemma {:induction false} IndexOfStopsAt(a: string, d: char, b: string)
    requires d !in a
    ensures IndexOf(a + [d] + b, d) == |a|
    decreases |a|
  {
    if |a| > 0 {
      assert (a + [d] + b)[1..] == a[1..] + [d] + b;
      IndexOfStopsAt(a[1..], d, b);
    }
  }

  /** Splitting and joining again with the same character is the identity. */
  lemma {:induction false} JoinOfSplit(s: string, d: char)
    ensures Join(Split(s, d), d) == s
    decreases |s|
  {
    var n := IndexOf(s, d);
    if n < |s| {
      var tail := s[n + 1..];
      assert Join(Split(s, d), d) == s[..n] + [d] + Join(Split(tail, d), d) by {
        var rest := Split(tail, d);
        var pieces := [s[..n]] + rest;
        assert Split(s, d) == pieces;
        assert pieces[0] == s[..n] && pieces[1..] == rest && |pieces| > 1;
      }
      JoinOfSplit(tail, d);
      assert s == s[..n] + [d] + tail;
    }
  }

  /** ... and the other way round: pieces free of `d` are recovered by splitting their join. */
  lemma {:induction false} SplitOfJoin(parts: seq<string>, d: char)
    requires |parts| >= 1
    requires forall i :: 0 <= i < |parts| ==> d !in parts[i]
    ensures Split(Join(parts, d), d) == parts
    decreases |parts|
  {
    var s := Join(parts, d);
    if |parts| == 1 {
      assert IndexOf(parts[0], d) == |parts[0]|;
    } else {
      var rest := Join(parts[1..], d);
      assert s == parts[0] + [d] + rest;
      IndexOfStopsAt(parts[0], d, rest);
      assert s[..|parts[0]|] == parts[0];
      assert s[|parts[0]| + 1..] == rest;
      SplitOfJoin(parts[1..], d);
      assert Split(s, d) == [parts[0]] + Split(rest, d);
      assert parts == [parts[0]] + parts[1..];
    }
  }

  lemma {:induction false} ListSeparatorsAreSpaces(c: char)
    ensures IsListSeparator(c) ==> IsSpace(c)
  {
  }
}
