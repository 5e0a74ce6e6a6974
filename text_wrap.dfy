/**
 * The nested `wrap` helper of the table renderer: Python's `textwrap.wrap` with
 * `break_long_words=False`, its lines joined with line feeds.  Text is cut into
 * whitespace-separated tokens and the tokens are placed greedily, a single space
 * apart, on lines of at most `maxChars` characters; a token longer than that is
 * never split and sits on a line of its own.
 */
module TextWrap {
  import opened Results
  import opened Text

  /** textwrap raises ValueError for a width that is not positive. */
  datatype WrapError = InvalidWidth(width: int)

  /** Printed width of a line that holds the tokens `g` separated by single spaces. */
  function Width(g: seq<string>): nat {
    |Join(g, ' ')|
  }

  /** The groups of a layout, read one after another. */
  function Flatten(gs: seq<seq<string>>): seq<string> {
    if gs == [] then [] else gs[0] + Flatten(gs[1..])
  }

  /** A layout of `toks` into lines is greedy when it keeps the tokens in order,
      every line fits in `w` or is one token alone, and no line could also have
      taken the first token of the line after it. */
  ghost predicate IsGreedyLayout(gs: seq<seq<string>>, toks: seq<string>, w: nat) {
    && Flatten(gs) == toks
    && (forall g :: g in gs ==> g != [] && (Width(g) <= w || |g| == 1))
    && (forall i :: 0 <= i < |gs| - 1 ==> Width(gs[i]) + 1 + |gs[i + 1][0]| > w)
  }

  lemma WidthSnoc(g: seq<string>, t: string)
    requires g != []
    ensures Width(g + [t]) == Width(g) + 1 + |t|
    decreases |g|
  {
    if |g| == 1 {
      assert (g + [t])[1..] == [t];
      assert Join(g + [t], ' ') == g[0] + [' '] + t;
    } else {
      assert (g + [t])[1..] == g[1..] + [t];
      WidthSnoc(g[1..], t);
    }
  }

  /** Lines are filled greedily: `cur` is the line being built, `rest` the tokens still to place. */
  function FillFrom(cur: seq<string>, rest: seq<string>, w: nat): (gs: seq<seq<string>>)
    requires cur != []
    requires Width(cur) <= w || |cur| == 1
    ensures gs != [] && cur <= gs[0]
    ensures Flatten(gs) == cur + rest
    ensures forall g :: g in gs ==> g != [] && (Width(g) <= w || |g| == 1)
    ensures forall i :: 0 <= i < |gs| - 1 ==> Width(gs[i]) + 1 + |gs[i + 1][0]| > w
    decreases |rest|
  {
    if rest == [] then
      assert Flatten([cur]) == cur + Flatten([]);
      [cur]
    else if Width(cur) + 1 + |rest[0]| <= w then
      WidthSnoc(cur, rest[0]);
      assert cur + [rest[0]] + rest[1..] == cur + rest;
      FillFrom(cur + [rest[0]], rest[1..], w)
    else
      var tail := FillFrom([rest[0]], rest[1..], w);
      assert [rest[0]] + rest[1..] == rest;
      PrependLine(cur, tail, rest, w);
      [cur] + tail
  }

  /** A line that fits (or is one token) and could not take the next line's first token may be
      put in front of a layout that keeps the greedy properties. */
  lemma PrependLine(cur: seq<string>, tail: seq<seq<string>>, rest: seq<string>, w: nat)
    requires cur != [] && (Width(cur) <= w || |cur| == 1)
    requires tail != [] && tail[0] != [] && Flatten(tail) == rest
    requires forall g :: g in tail ==> g != [] && (Width(g) <= w || |g| == 1)
    requires forall i :: 0 <= i < |tail| - 1 ==> Width(tail[i]) + 1 + |tail[i + 1][0]| > w
    requires Width(cur) + 1 + |tail[0][0]| > w
    ensures Flatten([cur] + tail) == cur + rest
    ensures forall g :: g in [cur] + tail ==> g != [] && (Width(g) <= w || |g| == 1)
    ensures forall i :: 0 <= i < |[cur] + tail| - 1 ==>
      Width(([cur] + tail)[i]) + 1 + |([cur] + tail)[i + 1][0]| > w
  {
    var gs := [cur] + tail;
    assert gs[1..] == tail;
    forall i | 0 <= i < |gs| - 1 ensures Width(gs[i]) + 1 + |gs[i + 1][0]| > w {
      if i > 0 {
        assert gs[i] == tail[i - 1] && gs[i + 1] == tail[i];
      }
    }
  }

  /** The greedy layout of a token sequence. */
  function Fill(toks: seq<string>, w: nat): (gs: seq<seq<string>>)
    ensures IsGreedyLayout(gs, toks, w)
  {
    if toks == [] then []
    else
      assert [toks[0]] + toks[1..] == toks;
      FillFrom([toks[0]], toks[1..], w)
  }

  /** The text of each line: its tokens separated by single spaces. */
  function Lines(gs: seq<seq<string>>): (ls: seq<string>)
    ensures |ls| == |gs|
    ensures forall i :: 0 <= i < |gs| ==> ls[i] == Join(gs[i], ' ')
  {
    if gs == [] then [] else [Join(gs[0], ' ')] + Lines(gs[1..])
  }

  /** Wrapped text for a positive width: the greedy lines joined with line feeds. */
  function WrapText(s: string, w: nat): string {
    Join(Lines(Fill(Tokens(s), w)), '\n')
  }

  /** `wrap(s, max_chars)`: `None` is read as the empty string, a non-positive width raises. */
  function Wrap(s: Option<string>, maxChars: int): (r: Result<string, WrapError>)
    ensures r.Failure? <==> maxChars <= 0
    ensures r.Failure? ==> r.error == InvalidWidth(maxChars)
    ensures s == None && maxChars > 0 ==> r == Success("")
  {
    if maxChars <= 0 then Failure(InvalidWidth(maxChars))
    else Success(WrapText(if s.None? then "" else s.value, maxChars))
  }

  // ---------------------------------------------------------------------------
  // Properties of the greedy layout

  lemma {:induction false} FlattenPrefix(gs: seq<seq<string>>)
    requires gs != []
    ensures Flatten(gs) == gs[0] + Flatten(gs[1..])
  {
  }

  /** A line's width only grows when more tokens are appended to it. */
  lemma {:induction false} WidthPrefix(toks: seq<string>, a: nat, b: nat)
    requires 1 <= a <= b <= |toks|
    ensures Width(toks[..a]) <= Width(toks[..b])
    decreases b - a
  {
    if a < b {
      WidthPrefix(toks, a, b - 1);
      assert toks[..b] == toks[..b - 1] + [toks[b - 1]];
      WidthSnoc(toks[..b - 1], toks[b - 1]);
    }
  }

  /** Groups that are all non-empty hold at least as many tokens as there are groups. */
  lemma {:induction false} FlattenLength(gs: seq<seq<string>>)
    requires forall g :: g in gs ==> g != []
    ensures |Flatten(gs)| >= |gs|
  {
    if gs != [] {
      assert gs[0] in gs;
      FlattenPrefix(gs);
      forall g | g in gs[1..] ensures g != [] {
        assert g in gs;
      }
      FlattenLength(gs[1..]);
    }
  }

  /** The first line of a greedy layout: a prefix of the tokens that fits or is one token, and,
      unless it holds every token, is followed by a line starting with the next token, which
      would not have fitted. */
  lemma FirstLine(gs: seq<seq<string>>, toks: seq<string>, w: nat)
    requires IsGreedyLayout(gs, toks, w) && gs != []
    ensures |gs[0]| <= |toks| && gs[0] == toks[..|gs[0]|]
    ensures Flatten(gs[1..]) == toks[|gs[0]|..]
    ensures gs[0] != [] && (Width(gs[0]) <= w || |gs[0]| == 1)
    ensures |gs[0]| < |toks| ==>
      |gs| > 1 && gs[1][0] == toks[|gs[0]|] && Width(gs[0]) + 1 + |toks[|gs[0]|]| > w
  {
    assert gs[0] in gs;
    FlattenPrefix(gs);
    var a := |gs[0]|;
    if a < |toks| {
      assert gs[1..] != [];
      assert gs[1] in gs;
      FlattenPrefix(gs[1..]);
    }
  }

  /** Any longer prefix than the first line of a greedy layout is too wide. */
  lemma FirstLineFull(gs: seq<seq<string>>, toks: seq<string>, w: nat, b: nat)
    requires IsGreedyLayout(gs, toks, w) && gs != []
    requires |gs[0]| < b <= |toks|
    ensures Width(toks[..b]) > w
  {
    FirstLine(gs, toks, w);
    var a := |gs[0]|;
    assert toks[..a + 1] == toks[..a] + [toks[a]];
    WidthSnoc(toks[..a], toks[a]);
    WidthPrefix(toks, a + 1, b);
  }

  /** What remains of a greedy layout after its first line is a greedy layout of the remaining tokens. */
  lemma GreedyRest(gs: seq<seq<string>>, toks: seq<string>, w: nat)
    requires IsGreedyLayout(gs, toks, w) && gs != []
    ensures IsGreedyLayout(gs[1..], toks[|gs[0]|..], w)
  {
    FirstLine(gs, toks, w);
    forall g | g in gs[1..] ensures g != [] && (Width(g) <= w || |g| == 1) {
      assert g in gs;
    }
    forall i | 0 <= i < |gs[1..]| - 1 ensures Width(gs[1..][i]) + 1 + |gs[1..][i + 1][0]| > w {
      assert gs[1..][i] == gs[i + 1] && gs[1..][i + 1] == gs[i + 2];
    }
  }

  /** Two greedy layouts of the same non-empty tokens have the same first line. */
  lemma SameFirstLine(gs: seq<seq<string>>, hs: seq<seq<string>>, toks: seq<string>, w: nat)
    requires IsGreedyLayout(gs, toks, w) && IsGreedyLayout(hs, toks, w)
    requires gs != [] && hs != []
    ensures gs[0] == hs[0]
  {
    FirstLine(gs, toks, w);
    FirstLine(hs, toks, w);
    var a, b := |gs[0]|, |hs[0]|;
    if a < b {
      FirstLineFull(gs, toks, w, b);
      assert false;
    } else if b < a {
      FirstLineFull(hs, toks, w, a);
      assert false;
    }
  }

  /** The greedy layout is unique: two layouts meeting `IsGreedyLayout` are equal. */
  lemma {:induction false} GreedyLayoutUnique(gs: seq<seq<string>>, hs: seq<seq<string>>, toks: seq<string>, w: nat)
    requires IsGreedyLayout(gs, toks, w) && IsGreedyLayout(hs, toks, w)
    ensures gs == hs
    decreases |toks|
  {
    FlattenLength(gs);
    FlattenLength(hs);
    if toks != [] {
      assert gs != [] && hs != [];
      SameFirstLine(gs, hs, toks, w);
      GreedyRest(gs, toks, w);
      GreedyRest(hs, toks, w);
      GreedyLayoutUnique(gs[1..], hs[1..], toks[|gs[0]|..], w);
      assert gs == [gs[0]] + gs[1..] && hs == [hs[0]] + hs[1..];
    }
  }

  /** `Fill` is the one and only greedy layout. */
  lemma FillIsTheGreedyLayout(gs: seq<seq<string>>, toks: seq<string>, w: nat)
    requires IsGreedyLayout(gs, toks, w)
    ensures gs == Fill(toks, w)
  {
    GreedyLayoutUnique(gs, Fill(toks, w), toks, w);
  }

  // ---------------------------------------------------------------------------
  // Properties of the wrapped text

  /** Every token of every line of a layout is one of the layout's tokens. */
  lemma {:induction false} GroupElementInFlatten(gs: seq<seq<string>>, i: nat, k: nat)
    requires i < |gs| && k < |gs[i]|
    ensures gs[i][k] in Flatten(gs)
    decreases i
  {
    FlattenPrefix(gs);
    if i > 0 {
      assert gs[1..][i - 1] == gs[i];
      GroupElementInFlatten(gs[1..], i - 1, k);
    }
  }

  /** Joining lines with any whitespace separator gives back the layout's tokens, in order. */
  lemma {:induction false} TokensOfLines(gs: seq<seq<string>>, sep: char)
    requires IsSpace(sep)
    requires forall t :: t in Flatten(gs) ==> IsWord(t)
    ensures Tokens(Join(Lines(gs), sep)) == Flatten(gs)
    decreases |gs|
  {
    if gs != [] {
      FlattenPrefix(gs);
      var ls := Lines(gs);
      forall k | 0 <= k < |gs[0]| ensures IsWord(gs[0][k]) {
        assert gs[0][k] in Flatten(gs);
      }
      TokensOfJoinedWords(gs[0], ' ');
      if |gs| > 1 {
        assert ls[1..] == Lines(gs[1..]);
        TokensOfLines(gs[1..], sep);
        TokensSplit(ls[0], sep, Join(ls[1..], sep));
      } else {
        assert Flatten(gs[1..]) == [];
      }
    }
  }

  /** A joined string avoids every character that neither the parts nor the separator contain. */
  lemma {:induction false} JoinAvoids(parts: seq<string>, sep: char, c: char)
    requires sep != c
    requires forall i, k :: 0 <= i < |parts| && 0 <= k < |parts[i]| ==> parts[i][k] != c
    ensures forall k :: 0 <= k < |Join(parts, sep)| ==> Join(parts, sep)[k] != c
    decreases |parts|
  {
    if |parts| > 1 {
      JoinAvoids(parts[1..], sep, c);
      var tail := Join(parts[1..], sep);
      forall k | 0 <= k < |Join(parts, sep)| ensures Join(parts, sep)[k] != c {
        if k > |parts[0]| {
          assert Join(parts, sep)[k] == tail[k - |parts[0]| - 1];
        }
      }
    }
  }

  /** Wrapping keeps every token, in its original order, and adds none. */
  lemma WrapPreservesTokens(s: string, w: nat)
    ensures Tokens(WrapText(s, w)) == Tokens(s)
  {
    TokensOfLines(Fill(Tokens(s), w), '\n');
  }

  /** Re-wrapping wrapped text changes nothing, whether its lines are kept or joined with spaces. */
  lemma WrapIdempotent(s: string, w: nat)
    ensures WrapText(WrapText(s, w), w) == WrapText(s, w)
    ensures WrapText(Join(Lines(Fill(Tokens(s), w)), ' '), w) == WrapText(s, w)
  {
    WrapPreservesTokens(s, w);
    TokensOfLines(Fill(Tokens(s), w), ' ');
  }

  /** Empty or all-whitespace text wraps to the empty string. */
  lemma WrapBlank(s: string, w: nat)
    requires forall k :: 0 <= k < |s| ==> IsSpace(s[k])
    ensures WrapText(s, w) == ""
    decreases |s|
  {
    if s != [] {
      WrapBlank(s[1..], w);
    }
  }

  /** No word is split: each line fits in `w` characters or is a single token of the input. */
  lemma WrapLinesBounded(s: string, w: nat)
    ensures forall line :: line in Lines(Fill(Tokens(s), w)) ==> |line| <= w || line in Tokens(s)
  {
    var gs := Fill(Tokens(s), w);
    forall i | 0 <= i < |gs| ensures |Lines(gs)[i]| <= w || Lines(gs)[i] in Tokens(s) {
      assert gs[i] in gs;
      if |gs[i]| == 1 {
        GroupElementInFlatten(gs, i, 0);
      }
    }
  }

  /** When no token is longer than `w`, every line fits. */
  lemma WrapShortTokensFit(s: string, w: nat)
    requires forall t :: t in Tokens(s) ==> |t| <= w
    ensures forall line :: line in Lines(Fill(Tokens(s), w)) ==> |line| <= w
  {
    WrapLinesBounded(s, w);
  }

  /** The wrapped text has one line feed fewer than it has lines (and none when there is no line). */
  lemma WrapLineFeeds(s: string, w: nat)
    ensures Count(WrapText(s, w), '\n') + 1 == if Fill(Tokens(s), w) == [] then 1 else |Fill(Tokens(s), w)|
  {
    var gs := Fill(Tokens(s), w);
    var ls := Lines(gs);
    if gs != [] {
      forall i, k | 0 <= i < |ls| && 0 <= k < |ls[i]| ensures ls[i][k] != '\n' {
        forall m, n | 0 <= m < |gs[i]| && 0 <= n < |gs[i][m]| ensures gs[i][m][n] != '\n' {
          GroupElementInFlatten(gs, i, m);
          assert IsWord(gs[i][m]);
        }
        JoinAvoids(gs[i], ' ', '\n');
      }
      CountJoin(ls, '\n');
    }
  }

  /** Text that is a single token wraps to itself, whatever its length. */
  lemma SingleTokenUnchanged(t: string, w: nat)
    requires IsWord(t)
    ensures WrapText(t, w) == t
  {
    TokensOfWord(t);
    assert Fill([t], w) == [[t]];
    assert Lines([[t]]) == [t];
  }
}
