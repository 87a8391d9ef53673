/**
 * The two pieces of Rust's `str` that the parser relies on: `split_whitespace`
 * (tokens separated by runs of Unicode white space) and `lines` (pieces
 * separated by "\n" or "\r\n").
 */
module Strings {
  import opened Wrappers

  /** `char::is_whitespace`: the code points with the Unicode White_Space property. */
  predicate IsWhitespace(c: char)
    ensures ('\t' <= c <= '\r' || c == ' ') ==> IsWhitespace(c)
    ensures '!' <= c <= '~' ==> !IsWhitespace(c)
  {
    var n := c as int;
    (0x09 <= n <= 0x0D) || n == 0x20 || n == 0x85 || n == 0xA0 || n == 0x1680
    || (0x2000 <= n <= 0x200A) || n == 0x2028 || n == 0x2029 || n == 0x202F
    || n == 0x205F || n == 0x3000
  }

  predicate AllWhitespace(s: string) {
    forall i :: 0 <= i < |s| ==> IsWhitespace(s[i])
  }

  /** What `split_whitespace` can yield: a non-empty run without white space. */
  predicate IsToken(t: string) {
    |t| > 0 && forall i :: 0 <= i < |t| ==> !IsWhitespace(t[i])
  }

  /** Length of the longest prefix of `s` containing no character that satisfies `stop`. */
  function SpanLength(s: string, stop: char -> bool): (n: nat)
    ensures n <= |s|
    ensures forall i :: 0 <= i < n ==> !stop(s[i])
    ensures n == |s| || stop(s[n])
  {
    if s == [] || stop(s[0]) then 0 else 1 + SpanLength(s[1..], stop)
  }

  /** The three facts SpanLength ensures determine it. */
  lemma {:induction false} SpanLengthIs(s: string, stop: char -> bool, n: nat)
    requires n <= |s|
    requires forall i :: 0 <= i < n ==> !stop(s[i])
    requires n == |s| || stop(s[n])
    ensures SpanLength(s, stop) == n
  {
    if n > 0 {
      SpanLengthIs(s[1..], stop, n - 1);
    }
  }

  // ---------------------------------------------------------------------------
  // split_whitespace
  // ---------------------------------------------------------------------------

  /** The sequence of tokens `s.split_whitespace()` yields, in order. */
  function Tokens(s: string): (r: seq<string>)
    ensures forall k :: 0 <= k < |r| ==> IsToken(r[k])
    decreases |s|
  {
    if s == [] then []
    else if IsWhitespace(s[0]) then Tokens(s[1..])
    else
      var n := SpanLength(s, IsWhitespace);
      [s[..n]] + Tokens(s[n..])
  }

  lemma {:induction false} TokensSkipWhitespace(w: string, s: string)
    requires AllWhitespace(w)
    ensures Tokens(w + s) == Tokens(s)
    decreases |w|
  {
    if w == [] {
      assert w + s == s;
    } else {
      assert (w + s)[1..] == w[1..] + s;
      TokensSkipWhitespace(w[1..], s);
    }
  }

  /** A token followed by the end of the text or by white space is yielded whole. */
  lemma TokensWord(t: string, s: string)
    requires IsToken(t)
    requires s == [] || IsWhitespace(s[0])
    ensures Tokens(t + s) == [t] + Tokens(s)
  {
    SpanLengthIs(t + s, IsWhitespace, |t|);
    assert (t + s)[..|t|] == t;
    assert (t + s)[|t|..] == s;
  }

  lemma {:induction false} TokensTrailingWhitespace(s: string, w: string)
    requires AllWhitespace(w)
    ensures Tokens(s + w) == Tokens(s)
    decreases |s|
  {
    if s == [] {
      assert s + w == w + [];
      TokensSkipWhitespace(w, []);
    } else if IsWhitespace(s[0]) {
      assert (s + w)[1..] == s[1..] + w;
      TokensTrailingWhitespace(s[1..], w);
    } else {
      var n := SpanLength(s, IsWhitespace);
      if n < |s| {
        SpanLengthIs(s + w, IsWhitespace, n);
      } else {
        SpanLengthIs(s + w, IsWhitespace, n);
      }
      assert (s + w)[..n] == s[..n];
      assert (s + w)[n..] == s[n..] + w;
      TokensTrailingWhitespace(s[n..], w);
    }
  }

  /** The text with every white-space character removed. */
  function NonWhitespace(s: string): (r: string)
    ensures |r| <= |s|
  {
    if s == [] then []
    else if IsWhitespace(s[0]) then NonWhitespace(s[1..])
    else [s[0]] + NonWhitespace(s[1..])
  }

  function Concat(ts: seq<string>): string {
    if ts == [] then [] else ts[0] + Concat(ts[1..])
  }

  lemma {:induction false} NonWhitespaceAppend(a: string, b: string)
    ensures NonWhitespace(a + b) == NonWhitespace(a) + NonWhitespace(b)
    decreases |a|
  {
    if a == [] {
      assert a + b == b;
    } else {
      assert (a + b)[1..] == a[1..] + b;
      NonWhitespaceAppend(a[1..], b);
    }
  }

  lemma {:induction false} NonWhitespaceOfToken(t: string)
    requires forall i :: 0 <= i < |t| ==> !IsWhitespace(t[i])
    ensures NonWhitespace(t) == t
    decreases |t|
  {
    if t != [] {
      NonWhitespaceOfToken(t[1..]);
    }
  }

  /** Splitting on white space loses the white space and nothing else. */
  lemma {:induction false} TokensLoseOnlyWhitespace(s: string)
    ensures Concat(Tokens(s)) == NonWhitespace(s)
    decreases |s|
  {
    if s != [] {
      if IsWhitespace(s[0]) {
        TokensLoseOnlyWhitespace(s[1..]);
      } else {
        var n := SpanLength(s, IsWhitespace);
        assert s == s[..n] + s[n..];
        NonWhitespaceAppend(s[..n], s[n..]);
        NonWhitespaceOfToken(s[..n]);
        TokensLoseOnlyWhitespace(s[n..]);
        assert ([s[..n]] + Tokens(s[n..]))[1..] == Tokens(s[n..]);
      }
    }
  }

  /**
   * Tokens laid out with separators: `seps[0] + toks[0] + seps[1] + ... + toks[n-1] + seps[n]`.
   */
  function Joined(toks: seq<string>, seps: seq<string>): string
    requires |seps| == |toks| + 1
  {
    if toks == [] then seps[0] else seps[0] + toks[0] + Joined(toks[1..], seps[1..])
  }

  /** Separators that split_whitespace treats as token boundaries: white-space runs, non-empty between tokens. */
  predicate Separators(seps: seq<string>) {
    && |seps| > 0
    && (forall k :: 0 <= k < |seps| ==> AllWhitespace(seps[k]))
    && (forall k :: 0 < k < |seps| - 1 ==> seps[k] != [])
  }

  /** Round trip: split_whitespace recovers the tokens of any such layout. */
  lemma {:induction false} TokensOfJoined(toks: seq<string>, seps: seq<string>)
    requires |seps| == |toks| + 1
    requires forall k :: 0 <= k < |toks| ==> IsToken(toks[k])
    requires Separators(seps)
    ensures Tokens(Joined(toks, seps)) == toks
    decreases |toks|
  {
    if toks == [] {
      assert seps[0] == seps[0] + [];
      TokensSkipWhitespace(seps[0], []);
    } else {
      var rest := Joined(toks[1..], seps[1..]);
      SeparatorsTail(seps);
      JoinedStart(toks[1..], seps[1..]);
      assert seps[0] + toks[0] + rest == seps[0] + (toks[0] + rest);
      TokensSkipWhitespace(seps[0], toks[0] + rest);
      TokensWord(toks[0], rest);
      TokensOfJoined(toks[1..], seps[1..]);
    }
  }

  lemma SeparatorsTail(seps: seq<string>)
    requires Separators(seps) && |seps| > 1
    ensures Separators(seps[1..])
    ensures |seps| > 2 ==> seps[1..][0] != []
  {
    assert forall k :: 0 <= k < |seps| - 1 ==> seps[1..][k] == seps[k + 1];
  }

  /** A layout whose first separator is non-empty, or that has no token, starts with white space if at all. */
  lemma JoinedStart(toks: seq<string>, seps: seq<string>)
    requires |seps| == |toks| + 1 && AllWhitespace(seps[0])
    requires toks != [] ==> seps[0] != []
    ensures var j := Joined(toks, seps); j == [] || IsWhitespace(j[0])
  {
    if toks != [] {
      assert Joined(toks, seps) == seps[0] + (toks[0] + Joined(toks[1..], seps[1..]));
      assert Joined(toks, seps)[0] == seps[0][0];
    }
  }

  /**
   * The cursor that `s.split_whitespace()` hands out: each `Next` yields the next
   * token, and `None` for ever once the tokens are exhausted.
   */
  class SplitWhitespace {
    const text: string
    var pos: nat

    ghost predicate Valid()
      reads this
    {
      pos <= |text|
    }

    /** The tokens that `Next` has yet to yield. */
    ghost function Remaining(): seq<string>
      reads this
      requires Valid()
    {
      Tokens(text[pos..])
    }

    constructor (s: string)
      ensures Valid() && text == s && Remaining() == Tokens(s)
    {
      text := s;
      pos := 0;
      assert s[0..] == s;
    }

    method Next() returns (tok: Option<string>)
      requires Valid()
      modifies this
      ensures Valid()
      ensures old(Remaining()) == [] ==> tok == None && Remaining() == []
      ensures old(Remaining()) != [] ==> tok == Some(old(Remaining())[0]) && Remaining() == old(Remaining())[1..]
    {
      ghost var pending := Tokens(text[pos..]);
      var i := pos;
      while i < |text| && IsWhitespace(text[i])
        invariant i <= |text|
        invariant Tokens(text[i..]) == pending
      {
        TokensAfterWhitespace(text, i);
        i := i + 1;
      }
      if i == |text| {
        pos := i;
        return None;
      }
      var start := i;
      while i < |text| && !IsWhitespace(text[i])
        invariant start <= i <= |text|
        invariant forall k :: start <= k < i ==> !IsWhitespace(text[k])
      {
        i := i + 1;
      }
      TokensAtWord(text, start, i);
      tok := Some(text[start..i]);
      pos := i;
    }
  }

  lemma TokensAfterWhitespace(s: string, i: nat)
    requires i < |s| && IsWhitespace(s[i])
    ensures Tokens(s[i..]) == Tokens(s[i + 1..])
  {
    assert s[i..][1..] == s[i + 1..];
  }

  lemma TokensAtWord(s: string, start: nat, end: nat)
    requires start < end <= |s|
    requires forall i :: start <= i < end ==> !IsWhitespace(s[i])
    requires end == |s| || IsWhitespace(s[end])
    ensures Tokens(s[start..]) == [s[start..end]] + Tokens(s[end..])
  {
    assert s[start..] == s[start..end] + s[end..];
    TokensWord(s[start..end], s[end..]);
  }

  // ---------------------------------------------------------------------------
  // lines
  // ---------------------------------------------------------------------------

  predicate IsNewline(c: char) {
    c == '\n'
  }

  /** Drops the '\r' of a "\r\n" line ending. */
  function StripCarriageReturn(line: string): string {
    if |line| > 0 && line[|line| - 1] == '\r' then line[..|line| - 1] else line
  }

  function Count(s: string, c: char): nat {
    if s == [] then 0 else (if s[0] == c then 1 else 0) + Count(s[1..], c)
  }

  /**
   * `s.lines()`: the pieces between '\n' terminators, a '\r' before a '\n' dropped;
   * the last terminator is optional, so a text ending in '\n' yields no empty last line.
   */
  function Lines(s: string): (r: seq<string>)
    ensures forall k :: 0 <= k < |r| ==> '\n' !in r[k]
    ensures |r| == Count(s, '\n') + if s != [] && s[|s| - 1] != '\n' then 1 else 0
    decreases |s|
  {
    if s == [] then []
    else
      var n := SpanLength(s, IsNewline);
      if n == |s| then
        CountAbsent(s, '\n');
        [s]
      else
        CountSplit(s, n);
        [StripCarriageReturn(s[..n])] + Lines(s[n + 1..])
  }

  lemma {:induction false} CountAbsent(s: string, c: char)
    requires c !in s
    ensures Count(s, c) == 0
    decreases |s|
  {
    if s != [] {
      CountAbsent(s[1..], c);
    }
  }

  lemma {:induction false} CountAppend(a: string, b: string, c: char)
    ensures Count(a + b, c) == Count(a, c) + Count(b, c)
    decreases |a|
  {
    if a == [] {
      assert a + b == b;
    } else {
      assert (a + b)[1..] == a[1..] + b;
      CountAppend(a[1..], b, c);
    }
  }

  lemma CountSplit(s: string, n: nat)
    requires n < |s| && s[n] == '\n'
    requires forall i :: 0 <= i < n ==> s[i] != '\n'
    ensures Count(s, '\n') == 1 + Count(s[n + 1..], '\n')
  {
    assert s == s[..n] + ([s[n]] + s[n + 1..]);
    CountAppend(s[..n], [s[n]] + s[n + 1..], '\n');
    CountAbsent(s[..n], '\n');
  }

  /** Text lines joined with '\n' between them, as a here-document lays them out. */
  function JoinLines(ls: seq<string>): string {
    if ls == [] then [] else if |ls| == 1 then ls[0] else ls[0] + "\n" + JoinLines(ls[1..])
  }

  /** A piece `lines` gives back unchanged: no '\n', and no '\r' at its end. */
  predicate IsPlainLine(l: string) {
    '\n' !in l && (l == [] || l[|l| - 1] != '\r')
  }

  /**
   * Round trip: `lines` recovers lines joined with '\n' when none holds a '\n' or
   * ends in '\r', and the last is not empty.
   */
  lemma {:induction false} LinesOfJoinLines(ls: seq<string>)
    requires forall k :: 0 <= k < |ls| ==> IsPlainLine(ls[k])
    requires ls == [] || ls[|ls| - 1] != []
    ensures Lines(JoinLines(ls)) == ls
    decreases |ls|
  {
    if |ls| == 1 {
      SpanLengthIs(ls[0], IsNewline, |ls[0]|);
    } else if |ls| > 1 {
      var s := ls[0] + "\n" + JoinLines(ls[1..]);
      SpanLengthIs(s, IsNewline, |ls[0]|);
      assert s[..|ls[0]|] == ls[0];
      assert s[|ls[0]| + 1..] == JoinLines(ls[1..]);
      LinesOfJoinLines(ls[1..]);
    }
  }

  /**
   * The same round trip for a text that ends with a terminator, as the output of
   * a command does: the final '\n' adds no empty line, and any last line is kept.
   */
  lemma {:induction false} LinesOfTerminated(ls: seq<string>)
    requires ls != []
    requires forall k :: 0 <= k < |ls| ==> IsPlainLine(ls[k])
    ensures Lines(JoinLines(ls) + "\n") == ls
    decreases |ls|
  {
    var first, tail := ls[0], ls[1..];
    assert ls == [first] + tail;
    if tail == [] {
      assert JoinLines(ls) + "\n" == first + "\n" + [];
      LinesStep(first, []);
    } else {
      assert forall k :: 0 <= k < |tail| ==> tail[k] == ls[k + 1];
      LinesOfTerminated(tail);
      TerminatedCons(first, tail);
    }
  }

  lemma TerminatedCons(first: string, tail: seq<string>)
    requires IsPlainLine(first) && tail != []
    requires Lines(JoinLines(tail) + "\n") == tail
    ensures Lines(JoinLines([first] + tail) + "\n") == [first] + tail
  {
    var ls := [first] + tail;
    var rest := JoinLines(tail) + "\n";
    assert ls[1..] == tail;
    assert JoinLines(ls) + "\n" == first + "\n" + rest;
    LinesStep(first, rest);
  }

  /** A plain line and its terminator in front of a text add that line in front of its lines. */
  lemma LinesStep(first: string, rest: string)
    requires IsPlainLine(first)
    ensures Lines(first + "\n" + rest) == [first] + Lines(rest)
  {
    var s := first + "\n" + rest;
    SpanLengthIs(s, IsNewline, |first|);
    assert s[..|first|] == first && s[|first| + 1..] == rest;
    assert StripCarriageReturn(first) == first;
  }
}
