/**
 * Strings as the text wrapper sees them: whitespace, tokens (maximal runs of
 * non-whitespace characters), joining with a separator and counting a character.
 */
module Text {

  /** The six characters Python's textwrap treats as whitespace:
      tab, line feed, vertical tab, form feed, carriage return and space. */
  predicate IsSpace(c: char) {
    c == ' ' || c == '\t' || c == '\n' || c == '\U{000B}' || c == '\U{000C}' || c == '\r'
  }

  predicate HasSpace(s: string) {
    exists k :: 0 <= k < |s| && IsSpace(s[k])
  }

  /** A token: a non-empty string without whitespace. */
  predicate IsWord(t: string) {
    t != [] && !HasSpace(t)
  }

  /** Length of the run of non-whitespace characters at the front of `s`. */
  function WordLen(s: string): (n: nat)
    ensures n <= |s|
    ensures forall k :: 0 <= k < n ==> !IsSpace(s[k])
    ensures n < |s| ==> IsSpace(s[n])
  {
    if s == [] || IsSpace(s[0]) then 0 else 1 + WordLen(s[1..])
  }

  /** The whitespace-separated tokens of `s`, left to right. */
  function Tokens(s: string): (ts: seq<string>)
    ensures forall t :: t in ts ==> IsWord(t)
    decreases |s|
  {
    if s == [] then []
    else if IsSpace(s[0]) then Tokens(s[1..])
    else
      var n := WordLen(s);
      [s[..n]] + Tokens(s[n..])
  }

  /** `parts` joined with `sep` between consecutive parts, as Python's `sep.join(parts)`. */
  function Join(parts: seq<string>, sep: char): string
  {
    if |parts| == 0 then ""
    else if |parts| == 1 then parts[0]
    else parts[0] + [sep] + Join(parts[1..], sep)
  }

  /** Number of occurrences of `c` in `s`, as Python's `s.count(c)` for a one-character `c`. */
  function Count(s: string, c: char): nat
  {
    if s == [] then 0 else (if s[0] == c then 1 else 0) + Count(s[1..], c)
  }

  lemma {:induction false} CountAppend(a: string, b: string, c: char)
    ensures Count(a + b, c) == Count(a, c) + Count(b, c)
    decreases |a|
  {
    if a != [] {
      assert (a + b)[1..] == a[1..] + b;
      CountAppend(a[1..], b, c);
    } else {
      assert a + b == b;
    }
  }

  /** A string that does not contain `c` counts no `c`. */
  lemma {:induction false} CountAbsent(s: string, c: char)
    requires forall k :: 0 <= k < |s| ==> s[k] != c
    ensures Count(s, c) == 0
    decreases |s|
  {
    if s != [] {
      CountAbsent(s[1..], c);
    }
  }

  /** Joining parts that do not contain the separator leaves exactly one separator
      between each pair of consecutive parts. */
  lemma {:induction false} CountJoin(parts: seq<string>, sep: char)
    requires parts != []
    requires forall i, k :: 0 <= i < |parts| && 0 <= k < |parts[i]| ==> parts[i][k] != sep
    ensures Count(Join(parts, sep), sep) == |parts| - 1
    decreases |parts|
  {
    CountAbsent(parts[0], sep);
    if |parts| > 1 {
      CountJoin(parts[1..], sep);
      CountAppend(parts[0] + [sep], Join(parts[1..], sep), sep);
      CountAppend(parts[0], [sep], sep);
    }
  }

  /** Any length meeting the three conditions of `WordLen` is `WordLen`. */
  lemma WordLenUnique(s: string, n: nat)
    requires n <= |s|
    requires forall k :: 0 <= k < n ==> !IsSpace(s[k])
    requires n < |s| ==> IsSpace(s[n])
    ensures n == WordLen(s)
  {
  }

  /** A word is its own single token. */
  lemma TokensOfWord(t: string)
    requires IsWord(t)
    ensures Tokens(t) == [t]
  {
    WordLenUnique(t, |t|);
    assert t[..|t|] == t;
    assert t[|t|..] == [];
  }

  /** The first word of `a` is not lengthened by what follows a whitespace character. */
  lemma WordLenBeforeSpace(a: string, c: char, b: string)
    requires IsSpace(c)
    ensures WordLen(a + [c] + b) == WordLen(a)
  {
    var s, n := a + [c] + b, WordLen(a);
    forall k | 0 <= k < n
      ensures !IsSpace(s[k])
    {
      assert s[k] == a[k];
    }
    assert n < |a| ==> s[n] == a[n];
    assert n == |a| ==> s[n] == c;
    WordLenUnique(s, n);
  }

  /** A whitespace character splits the token sequence: nothing is glued across it. */
  lemma {:induction false} TokensSplit(a: string, c: char, b: string)
    requires IsSpace(c)
    ensures Tokens(a + [c] + b) == Tokens(a) + Tokens(b)
    decreases |a|
  {
    if a == [] {
      assert (a + [c] + b)[1..] == b;
    } else if IsSpace(a[0]) {
      TokensSplit(a[1..], c, b);
      SplitAfterSpace(a, c, b);
    } else {
      TokensSplit(a[WordLen(a)..], c, b);
      SplitAfterWord(a, c, b);
    }
  }

  /** One step of `TokensSplit` when `a` starts with whitespace. */
  lemma SplitAfterSpace(a: string, c: char, b: string)
    requires a != [] && IsSpace(a[0])
    requires Tokens(a[1..] + [c] + b) == Tokens(a[1..]) + Tokens(b)
    ensures Tokens(a + [c] + b) == Tokens(a) + Tokens(b)
  {
    assert (a + [c] + b)[1..] == a[1..] + [c] + b;
  }

  /** One step of `TokensSplit` when `a` starts with a word. */
  lemma SplitAfterWord(a: string, c: char, b: string)
    requires IsSpace(c) && a != [] && !IsSpace(a[0])
    requires Tokens(a[WordLen(a)..] + [c] + b) == Tokens(a[WordLen(a)..]) + Tokens(b)
    ensures Tokens(a + [c] + b) == Tokens(a) + Tokens(b)
  {
    var s, n := a + [c] + b, WordLen(a);
    WordLenBeforeSpace(a, c, b);
    assert s[..n] == a[..n];
    assert s[n..] == a[n..] + [c] + b;
    assert Tokens(s) == [a[..n]] + Tokens(a[n..] + [c] + b);
    assert [a[..n]] + (Tokens(a[n..]) + Tokens(b)) == [a[..n]] + Tokens(a[n..]) + Tokens(b);
  }

  /** Joining words with a whitespace separator gives back exactly those words as tokens. */
  lemma {:induction false} TokensOfJoinedWords(ws: seq<string>, sep: char)
    requires IsSpace(sep)
    requires forall i :: 0 <= i < |ws| ==> IsWord(ws[i])
    ensures Tokens(Join(ws, sep)) == ws
    decreases |ws|
  {
    if |ws| == 1 {
      TokensOfWord(ws[0]);
    } else if |ws| > 1 {
      TokensOfWord(ws[0]);
      TokensOfJoinedWords(ws[1..], sep);
      TokensSplit(ws[0], sep, Join(ws[1..], sep));
      assert ws == [ws[0]] + ws[1..];
    }
  }
}
