/**
 * What `DfLine::from_str` and `Df::from` promise, stated over the layout of
 * the text: tokens laid out with white-space separators (Strings.Joined).
 */
module DfProperties {
  import opened Wrappers
  import opened Strings
  import opened Numbers
  import opened DfParser

  /** Every line is the layout of its own tokens with some separators. */
  lemma {:induction false} LayoutOfTokens(s: string) returns (seps: seq<string>)
    ensures |seps| == |Tokens(s)| + 1 && Separators(seps)
    ensures s == Joined(Tokens(s), seps)
    ensures s != [] && IsWhitespace(s[0]) ==> seps[0] != []
    decreases |s|
  {
    if s == [] {
      seps := [[]];
    } else if IsWhitespace(s[0]) {
      var tail := LayoutOfTokens(s[1..]);
      seps := [[s[0]] + tail[0]] + tail[1..];
      LayoutWhitespaceFirst(s[0], Tokens(s[1..]), tail);
      assert s == [s[0]] + s[1..];
    } else {
      var n := SpanLength(s, IsWhitespace);
      var tail := LayoutOfTokens(s[n..]);
      seps := [[]] + tail;
      assert Tokens(s) == [s[..n]] + Tokens(s[n..]);
      LayoutWordFirst(s[..n], Tokens(s[n..]), tail);
      assert s == s[..n] + s[n..];
    }
  }

  /** A white-space character in front of a layout joins its first separator. */
  lemma LayoutWhitespaceFirst(c: char, toks: seq<string>, seps: seq<string>)
    requires IsWhitespace(c) && |seps| == |toks| + 1 && Separators(seps)
    ensures Separators([[c] + seps[0]] + seps[1..])
    ensures Joined(toks, [[c] + seps[0]] + seps[1..]) == [c] + Joined(toks, seps)
  {
    SeparatorsWiden(c, seps);
    JoinedPrefix([c], toks, seps);
  }

  lemma SeparatorsWiden(c: char, seps: seq<string>)
    requires IsWhitespace(c) && Separators(seps)
    ensures Separators([[c] + seps[0]] + seps[1..])
  {
    var seps' := [[c] + seps[0]] + seps[1..];
    var first := [c] + seps[0];
    assert AllWhitespace(first) by {
      forall i | 0 <= i < |first| ensures IsWhitespace(first[i]) {
        if i > 0 {
          assert first[i] == seps[0][i - 1];
        }
      }
    }
    forall k | 0 < k < |seps'| ensures seps'[k] == seps[k] {
    }
  }

  /** Text in front of a layout belongs to its first separator. */
  lemma JoinedPrefix(p: string, toks: seq<string>, seps: seq<string>)
    requires |seps| == |toks| + 1
    ensures Joined(toks, [p + seps[0]] + seps[1..]) == p + Joined(toks, seps)
  {
    var seps' := [p + seps[0]] + seps[1..];
    if toks == [] {
      assert Joined(toks, seps') == seps'[0];
    } else {
      var tail := Joined(toks[1..], seps[1..]);
      assert seps'[1..] == seps[1..];
      calc {
        Joined(toks, seps');
        seps'[0] + toks[0] + tail;
        (p + seps[0]) + toks[0] + tail;
        { AppendAssoc(p, seps[0], toks[0], tail); }
        p + (seps[0] + toks[0] + tail);
        p + Joined(toks, seps);
      }
    }
  }

  lemma AppendAssoc(a: string, b: string, c: string, d: string)
    ensures (a + b) + c + d == a + (b + c + d)
  {
  }

  /** A token in front of a layout that starts with white space (or is empty) gets an empty first separator. */
  lemma LayoutWordFirst(w: string, toks: seq<string>, seps: seq<string>)
    requires |seps| == |toks| + 1 && Separators(seps)
    requires toks != [] ==> seps[0] != []
    ensures Separators([[]] + seps)
    ensures Joined([w] + toks, [[]] + seps) == w + Joined(toks, seps)
  {
    var seps' := [[]] + seps;
    var toks' := [w] + toks;
    assert toks'[1..] == toks && seps'[1..] == seps;
    assert Joined(toks', seps') == seps'[0] + toks'[0] + Joined(toks, seps);
    assert seps'[0] + toks'[0] == w;
    forall k | 0 <= k < |seps'| ensures AllWhitespace(seps'[k]) {
      if k > 0 {
        assert seps'[k] == seps[k - 1];
      }
    }
    forall k | 0 < k < |seps'| - 1 ensures seps'[k] != [] {
      assert seps'[k] == seps[k - 1];
    }
  }

  /** A line with fewer than six white-space separated tokens is rejected. */
  lemma ShortLineRejected(toks: seq<string>, seps: seq<string>)
    requires |seps| == |toks| + 1 && Separators(seps)
    requires forall k :: 0 <= k < |toks| ==> IsToken(toks[k])
    requires |toks| < 6
    ensures ParseLine(Joined(toks, seps)) == None
  {
    TokensOfJoined(toks, seps);
  }

  /**
   * A line whose second or third token is not a `u64` (a non-digit, nothing
   * after a '+', or 2^64 and above) is rejected, whatever else it holds.
   */
  lemma NonNumericSizeRejected(toks: seq<string>, seps: seq<string>)
    requires |seps| == |toks| + 1 && Separators(seps)
    requires forall k :: 0 <= k < |toks| ==> IsToken(toks[k])
    requires (|toks| > 1 && ParseU64(toks[1]) == None) || (|toks| > 2 && ParseU64(toks[2]) == None)
    ensures ParseLine(Joined(toks, seps)) == None
  {
    TokensOfJoined(toks, seps);
  }

  /**
   * A line of six or more tokens whose second and third are numbers is
   * accepted; its fields are tokens 1 and 6 and the two numbers, and tokens
   * 4, 5 and 7 onwards play no part.
   */
  lemma FieldsExtracted(toks: seq<string>, seps: seq<string>, total: u64, used: u64)
    requires |seps| == |toks| + 1 && Separators(seps)
    requires forall k :: 0 <= k < |toks| ==> IsToken(toks[k])
    requires |toks| >= 6 && ParseU64(toks[1]) == Some(total) && ParseU64(toks[2]) == Some(used)
    ensures ParseLine(Joined(toks, seps)) == Some(DfLine(toks[0], toks[5], total, used))
  {
    TokensOfJoined(toks, seps);
  }

  /** The tokens of a line as `df -B1` prints a record, followed by any extra tokens. */
  function RecordTokens(r: DfLine, available: string, usePercent: string, extra: seq<string>): seq<string> {
    [r.filesystem, Decimal(r.total), Decimal(r.used), available, usePercent, r.mounted] + extra
  }

  /**
   * Round trip: a record printed as `F T U A P M` (sizes in decimal, any runs
   * of white space between the columns, anything after the mount point)
   * parses back to the same record.
   */
  lemma RoundTrip(r: DfLine, available: string, usePercent: string, extra: seq<string>, seps: seq<string>)
    requires IsToken(r.filesystem) && IsToken(r.mounted) && IsToken(available) && IsToken(usePercent)
    requires forall k :: 0 <= k < |extra| ==> IsToken(extra[k])
    requires |seps| == |extra| + 7 && Separators(seps)
    ensures ParseLine(Joined(RecordTokens(r, available, usePercent, extra), seps)) == Some(r)
  {
    var toks := RecordTokens(r, available, usePercent, extra);
    RecordTokensFields(r, available, usePercent, extra);
    FieldsExtracted(toks, seps, r.total, r.used);
  }

  /** The printed record is made of tokens, and its fields sit in columns 1, 2, 3 and 6. */
  lemma RecordTokensFields(r: DfLine, available: string, usePercent: string, extra: seq<string>)
    requires IsToken(r.filesystem) && IsToken(r.mounted) && IsToken(available) && IsToken(usePercent)
    requires forall k :: 0 <= k < |extra| ==> IsToken(extra[k])
    ensures |RecordTokens(r, available, usePercent, extra)| == |extra| + 6
    ensures forall k :: 0 <= k < |RecordTokens(r, available, usePercent, extra)| ==>
              IsToken(RecordTokens(r, available, usePercent, extra)[k])
    ensures RecordTokens(r, available, usePercent, extra)[0] == r.filesystem
    ensures RecordTokens(r, available, usePercent, extra)[5] == r.mounted
    ensures ParseU64(RecordTokens(r, available, usePercent, extra)[1]) == Some(r.total)
    ensures ParseU64(RecordTokens(r, available, usePercent, extra)[2]) == Some(r.used)
  {
    var total, used := Decimal(r.total), Decimal(r.used);
    var head := [r.filesystem, total, used, available, usePercent, r.mounted];
    var toks := head + extra;
    assert toks == RecordTokens(r, available, usePercent, extra);
    assert toks[0] == r.filesystem && toks[1] == total && toks[2] == used && toks[5] == r.mounted;
    ParseU64Decimal(r.total);
    ParseU64Decimal(r.used);
    assert forall k :: 0 <= k < |head| ==> IsToken(head[k]) by {
      DecimalIsToken(r.total);
      DecimalIsToken(r.used);
    }
    AllTokensAppend(head, extra);
  }

  lemma AllTokensAppend(a: seq<string>, b: seq<string>)
    requires forall k :: 0 <= k < |a| ==> IsToken(a[k])
    requires forall k :: 0 <= k < |b| ==> IsToken(b[k])
    ensures forall k :: 0 <= k < |a + b| ==> IsToken((a + b)[k])
  {
  }

  /** The carriage return `lines` strips from a "\r\n" ending never changes the parse. */
  lemma CarriageReturnIgnored(line: string)
    ensures ParseLine(StripCarriageReturn(line)) == ParseLine(line)
  {
    if |line| > 0 && line[|line| - 1] == '\r' {
      var body := line[..|line| - 1];
      assert line == body + "\r";
      TokensTrailingWhitespace(body, "\r");
    }
  }

  // ---------------------------------------------------------------------------
  // Df::from as a filter over the lines
  // ---------------------------------------------------------------------------

  /** `DfLine::from_str` applied to each line. */
  function Parses(lines: seq<string>): (p: seq<Option<DfLine>>)
    ensures |p| == |lines| && forall i :: 0 <= i < |lines| ==> p[i] == ParseLine(lines[i])
  {
    seq(|lines|, i requires 0 <= i < |lines| => ParseLine(lines[i]))
  }

  /** The indices, from `from` on, of the entries of `p` that are present. */
  function KeptIndices<T>(p: seq<Option<T>>, from: nat): (ix: seq<nat>)
    requires from <= |p|
    ensures forall k :: 0 <= k < |ix| ==> from <= ix[k] < |p| && p[ix[k]].Some?
    decreases |p| - from
  {
    if from == |p| then []
    else if p[from].Some? then [from] + KeptIndices(p, from + 1)
    else KeptIndices(p, from + 1)
  }

  /** KeptIndices is strictly increasing: each present entry is listed once, in order. */
  lemma {:induction false} KeptIndicesIncreasing<T>(p: seq<Option<T>>, from: nat)
    requires from <= |p|
    ensures forall k, l :: 0 <= k < l < |KeptIndices(p, from)| ==> KeptIndices(p, from)[k] < KeptIndices(p, from)[l]
    decreases |p| - from
  {
    if from < |p| {
      KeptIndicesIncreasing(p, from + 1);
      var rest := KeptIndices(p, from + 1);
      if p[from].Some? {
        var ix := [from] + rest;
        assert KeptIndices(p, from) == ix;
        forall k, l | 0 <= k < l < |ix| ensures ix[k] < ix[l] {
          assert ix[l] == rest[l - 1] && from + 1 <= rest[l - 1];
          if k > 0 {
            assert ix[k] == rest[k - 1] && rest[k - 1] < rest[l - 1];
          } else {
            assert ix[k] == from;
          }
        }
      }
    }
  }

  /** KeptIndices misses no present entry from `from` on. */
  lemma {:induction false} KeptIndicesComplete<T>(p: seq<Option<T>>, from: nat, i: nat)
    requires from <= i < |p| && p[i].Some?
    ensures i in KeptIndices(p, from)
    decreases |p| - from
  {
    if i > from {
      KeptIndicesComplete(p, from + 1, i);
    }
  }

  /** The values present in `p`, in order. */
  function Present<T>(p: seq<Option<T>>): seq<T> {
    if p == [] then []
    else if p[0].Some? then [p[0].value] + Present(p[1..])
    else Present(p[1..])
  }

  /** The values present in `p` are those at its kept indices. */
  lemma {:induction false} PresentAtKept<T>(p: seq<Option<T>>)
    ensures |Present(p)| == |KeptIndices(p, 0)|
    ensures forall k :: 0 <= k < |KeptIndices(p, 0)| ==>
              Some(Present(p)[k]) == p[KeptIndices(p, 0)[k]]
    decreases |p|
  {
    if p != [] {
      var tail := p[1..];
      PresentAtKept(tail);
      ShiftKept(p, 1);
      var ix := KeptIndices(p, 0);
      var shifted := KeptIndices(p, 1);
      var jx := KeptIndices(tail, 0);
      if p[0].Some? {
        assert ix == [0] + shifted;
        forall k | 0 < k < |ix| ensures Some(Present(p)[k]) == p[ix[k]] {
          assert ix[k] == jx[k - 1] + 1 && p[jx[k - 1] + 1] == tail[jx[k - 1]];
        }
      } else {
        assert ix == shifted;
        forall k | 0 <= k < |ix| ensures Some(Present(p)[k]) == p[ix[k]] {
          assert ix[k] == jx[k] + 1 && p[jx[k] + 1] == tail[jx[k]];
        }
      }
    }
  }

  lemma {:induction false} ParseLinesIsPresent(lines: seq<string>)
    ensures ParseLines(lines) == Present(Parses(lines))
    decreases |lines|
  {
    if lines != [] {
      ParseLinesIsPresent(lines[1..]);
      assert Parses(lines)[1..] == Parses(lines[1..]);
    }
  }

  /**
   * `Df::from` is exactly the order-preserving filter-map of `DfLine::from_str`
   * over the lines: its k-th record is the parse of the k-th accepted line.
   */
  lemma ParseLinesIsFilterMap(lines: seq<string>)
    ensures |ParseLines(lines)| == |KeptIndices(Parses(lines), 0)|
    ensures forall k :: 0 <= k < |KeptIndices(Parses(lines), 0)| ==>
              Some(ParseLines(lines)[k]) == ParseLine(lines[KeptIndices(Parses(lines), 0)[k]])
  {
    ParseLinesIsPresent(lines);
    PresentAtKept(Parses(lines));
  }

  /** Kept indices from `from` on are those of the suffix, shifted by `from`. */
  lemma {:induction false} ShiftKept<T>(p: seq<Option<T>>, from: nat)
    requires from <= |p|
    ensures |KeptIndices(p, from)| == |KeptIndices(p[from..], 0)|
    ensures forall k :: 0 <= k < |KeptIndices(p, from)| ==>
              KeptIndices(p, from)[k] == KeptIndices(p[from..], 0)[k] + from
    decreases |p| - from
  {
    if from < |p| {
      ShiftKept(p, from + 1);
      ShiftKept(p[from..], 1);
      assert p[from..][1..] == p[from + 1..];
    }
  }

  /**
   * The '\n' that ends the output of `df` changes nothing: the text with it and
   * without it give the same records, those of its lines.
   */
  lemma FinalNewlineIgnored(ls: seq<string>)
    requires ls != [] && ls[|ls| - 1] != []
    requires forall k :: 0 <= k < |ls| ==> IsPlainLine(ls[k])
    ensures Df.From(JoinLines(ls) + "\n") == Df.From(JoinLines(ls)) == Df(ParseLines(ls))
  {
    LinesOfTerminated(ls);
    LinesOfJoinLines(ls);
  }

  /** Parsing line by line: the records of two blocks of lines are those of each, in order. */
  lemma {:induction false} ParseLinesAppend(a: seq<string>, b: seq<string>)
    ensures ParseLines(a + b) == ParseLines(a) + ParseLines(b)
    decreases |a|
  {
    if a == [] {
      assert a + b == b;
    } else {
      assert (a + b)[1..] == a[1..] + b;
      ParseLinesAppend(a[1..], b);
    }
  }
}
