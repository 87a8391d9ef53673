/**
 * The unit tests and the usage example of src/lib.rs, as lemmas about the
 * model. Each line of `df` output is written as its tokens and the widths of
 * the runs of spaces around them (Spaced), which is the same text.
 */
module DfSamples {
  import opened Wrappers
  import opened Strings
  import opened Numbers
  import opened DfParser
  import opened DfProperties

  function Spaces(n: nat): (s: string)
    ensures |s| == n && AllWhitespace(s)
  {
    seq(n, _ => ' ')
  }

  /** `widths[0]` spaces, `toks[0]`, `widths[1]` spaces, ..., `toks[n-1]`, `widths[n]` spaces. */
  function Spaced(toks: seq<string>, widths: seq<nat>): string
    requires |widths| == |toks| + 1
  {
    Joined(toks, seq(|widths|, i requires 0 <= i < |widths| => Spaces(widths[i])))
  }

  /** Tokens of a Spaced line, when the inner widths are positive. */
  lemma TokensOfSpaced(toks: seq<string>, widths: seq<nat>)
    requires |widths| == |toks| + 1
    requires forall k :: 0 <= k < |toks| ==> IsToken(toks[k])
    requires forall k :: 0 < k < |widths| - 1 ==> widths[k] > 0
    ensures Tokens(Spaced(toks, widths)) == toks
  {
    var seps := seq(|widths|, i requires 0 <= i < |widths| => Spaces(widths[i]));
    assert Separators(seps);
    TokensOfJoined(toks, seps);
  }

  /** A Spaced line holds no character that its tokens do not hold, besides spaces. */
  lemma {:induction false} CharNotInJoined(toks: seq<string>, seps: seq<string>, c: char)
    requires |seps| == |toks| + 1
    requires forall k :: 0 <= k < |toks| ==> c !in toks[k]
    requires forall k :: 0 <= k < |seps| ==> c !in seps[k]
    ensures c !in Joined(toks, seps)
    decreases |toks|
  {
    if toks != [] {
      CharNotInJoined(toks[1..], seps[1..], c);
    }
  }

  lemma SpacedIsOneLine(toks: seq<string>, widths: seq<nat>)
    requires |widths| == |toks| + 1
    requires forall k :: 0 <= k < |toks| ==> '\n' !in toks[k] && '\r' !in toks[k]
    ensures '\n' !in Spaced(toks, widths) && '\r' !in Spaced(toks, widths)
  {
    var seps := seq(|widths|, i requires 0 <= i < |widths| => Spaces(widths[i]));
    assert forall k :: 0 <= k < |seps| ==> '\n' !in seps[k] && '\r' !in seps[k];
    CharNotInJoined(toks, seps, '\n');
    CharNotInJoined(toks, seps, '\r');
  }

  // The lines of `df -B1` output used by the tests and the usage example of
  // src/lib.rs. The texts there are indented raw strings: after `trim`, the
  // first line has no indentation and every later one keeps the indentation
  // of the source (`indent` below).

  const ERROR_TOKENS: seq<string> := ["df:", "/run/user/1000/doc:", "Operation", "not", "permitted"]
  const ERROR_LINE: string := Spaced(ERROR_TOKENS, [0, 1, 1, 1, 1, 0])

  const HEADER_TOKENS: seq<string> := ["Filesystem", "1B-blocks", "Used", "Available", "Use%", "Mounted", "on"]
  function HeaderLine(indent: nat): string {
    Spaced(HEADER_TOKENS, [indent, 17, 9, 4, 1, 1, 1, 0])
  }

  const UDEV_TOKENS: seq<string> := ["udev", "12294803456", "0", "12294803456", "0%", "/dev"]
  function UdevLine(indent: nat): string {
    Spaced(UDEV_TOKENS, [indent, 21, 12, 2, 3, 1, 0])
  }

  const BOOT_TOKENS: seq<string> := ["/dev/nvme0n1p2", "493201408", "121312256", "346304512", "26%", "/boot"]
  function BootLine(indent: nat): string {
    Spaced(BOOT_TOKENS, [indent, 13, 4, 4, 2, 1, 0])
  }

  const EFI_TOKENS: seq<string> := ["/dev/nvme0n1p1", "535805952", "3579904", "532226048", "1%", "/boot/efi"]
  function EfiLine(indent: nat): string {
    Spaced(EFI_TOKENS, [indent, 13, 6, 4, 3, 1, 0])
  }

  /** The text of the `test_df` unit test (src/lib.rs:100-107). */
  const TEST_LINES: seq<string> := [ERROR_LINE, HeaderLine(12), UdevLine(12), BootLine(12), EfiLine(12)]

  /** The text of the usage example (src/lib.rs:11-16). */
  const USAGE_LINES: seq<string> := [ERROR_LINE, HeaderLine(4), UdevLine(4), BootLine(4)]

  /** Visible ASCII: no white space among these characters. */
  predicate Visible(t: string) {
    |t| > 0 && forall i :: 0 <= i < |t| ==> '!' <= t[i] <= '~'
  }

  lemma VisibleTokens(toks: seq<string>)
    requires forall k :: 0 <= k < |toks| ==> Visible(toks[k])
    ensures forall k :: 0 <= k < |toks| ==> IsToken(toks[k])
  {
  }

  predicate AllTokens(toks: seq<string>) {
    forall k :: 0 <= k < |toks| ==> IsToken(toks[k])
  }

  // The words of each sample line are tokens: one lemma per line keeps each proof small.

  lemma ErrorTokens()
    ensures AllTokens(ERROR_TOKENS)
  {
    assert Visible(ERROR_TOKENS[0]);
    assert Visible(ERROR_TOKENS[1]);
    assert Visible(ERROR_TOKENS[2]);
    assert Visible(ERROR_TOKENS[3]);
    assert Visible(ERROR_TOKENS[4]);
    VisibleTokens(ERROR_TOKENS);
  }

  lemma HeaderTokens()
    ensures AllTokens(HEADER_TOKENS)
  {
    assert Visible(HEADER_TOKENS[0]);
    assert Visible(HEADER_TOKENS[1]);
    assert Visible(HEADER_TOKENS[2]);
    assert Visible(HEADER_TOKENS[3]);
    assert Visible(HEADER_TOKENS[4]);
    assert Visible(HEADER_TOKENS[5]);
    assert Visible(HEADER_TOKENS[6]);
    VisibleTokens(HEADER_TOKENS);
  }

  lemma UdevTokens()
    ensures AllTokens(UDEV_TOKENS)
  {
    assert Visible(UDEV_TOKENS[0]);
    assert Visible(UDEV_TOKENS[1]);
    assert Visible(UDEV_TOKENS[2]);
    assert Visible(UDEV_TOKENS[3]);
    assert Visible(UDEV_TOKENS[4]);
    assert Visible(UDEV_TOKENS[5]);
    VisibleTokens(UDEV_TOKENS);
  }

  lemma BootTokens()
    ensures AllTokens(BOOT_TOKENS)
  {
    assert Visible(BOOT_TOKENS[0]);
    assert Visible(BOOT_TOKENS[1]);
    assert Visible(BOOT_TOKENS[2]);
    assert Visible(BOOT_TOKENS[3]);
    assert Visible(BOOT_TOKENS[4]);
    assert Visible(BOOT_TOKENS[5]);
    VisibleTokens(BOOT_TOKENS);
  }

  lemma EfiTokens()
    ensures AllTokens(EFI_TOKENS)
  {
    assert Visible(EFI_TOKENS[0]);
    assert Visible(EFI_TOKENS[1]);
    assert Visible(EFI_TOKENS[2]);
    assert Visible(EFI_TOKENS[3]);
    assert Visible(EFI_TOKENS[4]);
    assert Visible(EFI_TOKENS[5]);
    VisibleTokens(EFI_TOKENS);
  }

  /** Appending a digit to a number's decimal form multiplies it by ten and adds the digit. */
  lemma DecimalAppend(n: nat, d: nat, s: string, c: char)
    requires 0 < n && d < 10 && Decimal(n) == s && c == DigitChar(d)
    ensures Decimal(10 * n + d) == s + [c]
  {
    assert (10 * n + d) / 10 == n && (10 * n + d) % 10 == d;
  }

  lemma UdevNumber()
    ensures ParseU64("12294803456") == Some(12294803456)
  {
    assert Decimal(1) == "1";
    DecimalAppend(1, 2, "1", '2');
    DecimalAppend(12, 2, "12", '2');
    DecimalAppend(122, 9, "122", '9');
    DecimalAppend(1229, 4, "1229", '4');
    DecimalAppend(12294, 8, "12294", '8');
    DecimalAppend(122948, 0, "122948", '0');
    DecimalAppend(1229480, 3, "1229480", '3');
    DecimalAppend(12294803, 4, "12294803", '4');
    DecimalAppend(122948034, 5, "122948034", '5');
    DecimalAppend(1229480345, 6, "1229480345", '6');
    assert "1229480345" + ['6'] == "12294803456";
    ParseU64Decimal(12294803456);
  }

  lemma ZeroNumber()
    ensures ParseU64("0") == Some(0)
  {
    assert Decimal(0) == "0";
    ParseU64Decimal(0);
  }

  lemma BootTotalNumber()
    ensures ParseU64("493201408") == Some(493201408)
  {
    assert Decimal(4) == "4";
    DecimalAppend(4, 9, "4", '9');
    DecimalAppend(49, 3, "49", '3');
    DecimalAppend(493, 2, "493", '2');
    DecimalAppend(4932, 0, "4932", '0');
    DecimalAppend(49320, 1, "49320", '1');
    DecimalAppend(493201, 4, "493201", '4');
    DecimalAppend(4932014, 0, "4932014", '0');
    DecimalAppend(49320140, 8, "49320140", '8');
    assert "49320140" + ['8'] == "493201408";
    ParseU64Decimal(493201408);
  }

  lemma BootUsedNumber()
    ensures ParseU64("121312256") == Some(121312256)
  {
    assert Decimal(1) == "1";
    DecimalAppend(1, 2, "1", '2');
    DecimalAppend(12, 1, "12", '1');
    DecimalAppend(121, 3, "121", '3');
    DecimalAppend(1213, 1, "1213", '1');
    DecimalAppend(12131, 2, "12131", '2');
    DecimalAppend(121312, 2, "121312", '2');
    DecimalAppend(1213122, 5, "1213122", '5');
    DecimalAppend(12131225, 6, "12131225", '6');
    assert "12131225" + ['6'] == "121312256";
    ParseU64Decimal(121312256);
  }

  lemma EfiTotalNumber()
    ensures ParseU64("535805952") == Some(535805952)
  {
    assert Decimal(5) == "5";
    DecimalAppend(5, 3, "5", '3');
    DecimalAppend(53, 5, "53", '5');
    DecimalAppend(535, 8, "535", '8');
    DecimalAppend(5358, 0, "5358", '0');
    DecimalAppend(53580, 5, "53580", '5');
    DecimalAppend(535805, 9, "535805", '9');
    DecimalAppend(5358059, 5, "5358059", '5');
    DecimalAppend(53580595, 2, "53580595", '2');
    assert "53580595" + ['2'] == "535805952";
    ParseU64Decimal(535805952);
  }

  lemma EfiUsedNumber()
    ensures ParseU64("3579904") == Some(3579904)
  {
    assert Decimal(3) == "3";
    DecimalAppend(3, 5, "3", '5');
    DecimalAppend(35, 7, "35", '7');
    DecimalAppend(357, 9, "357", '9');
    DecimalAppend(3579, 9, "3579", '9');
    DecimalAppend(35799, 0, "35799", '0');
    DecimalAppend(357990, 4, "357990", '4');
    assert "357990" + ['4'] == "3579904";
    ParseU64Decimal(3579904);
  }

  lemma ErrorLineRejected()
    ensures ParseLine(ERROR_LINE) == None
  {
    ErrorTokens();
    TokensOfSpaced(ERROR_TOKENS, [0, 1, 1, 1, 1, 0]);
  }

  lemma HeaderRejected(indent: nat)
    ensures ParseLine(HeaderLine(indent)) == None
  {
    HeaderTokens();
    TokensOfSpaced(HEADER_TOKENS, [indent, 17, 9, 4, 1, 1, 1, 0]);
    assert !IsDigit(HEADER_TOKENS[1][1]);
  }

  lemma DataLineParsed(toks: seq<string>, widths: seq<nat>, total: u64, used: u64)
    requires |toks| == 6 && |widths| == 7 && forall k :: 0 < k < 6 ==> widths[k] > 0
    requires forall k :: 0 <= k < 6 ==> IsToken(toks[k])
    requires ParseU64(toks[1]) == Some(total) && ParseU64(toks[2]) == Some(used)
    ensures ParseLine(Spaced(toks, widths)) == Some(DfLine(toks[0], toks[5], total, used))
  {
    TokensOfSpaced(toks, widths);
  }

  lemma UdevParsed(indent: nat)
    ensures ParseLine(UdevLine(indent)) == Some(DfLine("udev", "/dev", 12294803456, 0))
  {
    UdevNumber();
    ZeroNumber();
    UdevTokens();
    DataLineParsed(UDEV_TOKENS, [indent, 21, 12, 2, 3, 1, 0], 12294803456, 0);
  }

  lemma BootParsed(indent: nat)
    ensures ParseLine(BootLine(indent)) == Some(DfLine("/dev/nvme0n1p2", "/boot", 493201408, 121312256))
  {
    BootTotalNumber();
    BootUsedNumber();
    BootTokens();
    DataLineParsed(BOOT_TOKENS, [indent, 13, 4, 4, 2, 1, 0], 493201408, 121312256);
  }

  lemma EfiParsed(indent: nat)
    ensures ParseLine(EfiLine(indent)) == Some(DfLine("/dev/nvme0n1p1", "/boot/efi", 535805952, 3579904))
  {
    EfiTotalNumber();
    EfiUsedNumber();
    EfiTokens();
    DataLineParsed(EFI_TOKENS, [indent, 13, 6, 4, 3, 1, 0], 535805952, 3579904);
  }

  /** `test_line_from_str` (src/lib.rs:81-96): the error line and the header give nothing, a data line its record. */
  lemma LineFromStrTest()
    ensures ParseLine(ERROR_LINE) == None
    ensures ParseLine(HeaderLine(0)) == None
    ensures var line := ParseLine(UdevLine(0));
      line.Some? && line.value.filesystem == "udev" && line.value.mounted == "/dev"
      && line.value.total == 12294803456 && line.value.used == 0
  {
    ErrorLineRejected();
    HeaderRejected(0);
    UdevParsed(0);
  }

  /** `lines` splits a text of four sample lines back into those lines. */
  lemma FourLines(a: string, b: string, c: string, d: string)
    requires IsPlainLine(a) && IsPlainLine(b) && IsPlainLine(c) && IsPlainLine(d)
    requires Tokens(d) != []
    ensures Lines(JoinLines([a, b, c, d])) == [a, b, c, d]
  {
    var ls := [a, b, c, d];
    assert forall k :: 0 <= k < |ls| ==> IsPlainLine(ls[k]) by {
      forall k | 0 <= k < 4 ensures IsPlainLine(ls[k]) {
      }
    }
    LinesOfJoinLines(ls);
  }

  /** `lines` splits a text of five sample lines back into those lines. */
  lemma FiveLines(a: string, b: string, c: string, d: string, e: string)
    requires IsPlainLine(a) && IsPlainLine(b) && IsPlainLine(c) && IsPlainLine(d) && IsPlainLine(e)
    requires Tokens(e) != []
    ensures Lines(JoinLines([a, b, c, d, e])) == [a, b, c, d, e]
  {
    var ls := [a, b, c, d, e];
    assert forall k :: 0 <= k < |ls| ==> IsPlainLine(ls[k]) by {
      forall k | 0 <= k < 5 ensures IsPlainLine(ls[k]) {
      }
    }
    LinesOfJoinLines(ls);
  }

  /** Line breaks are white space, so a Spaced line of tokens is one line. */
  lemma OneLine(toks: seq<string>, widths: seq<nat>)
    requires |widths| == |toks| + 1
    requires forall k :: 0 <= k < |toks| ==> IsToken(toks[k])
    ensures IsPlainLine(Spaced(toks, widths))
  {
    var line := Spaced(toks, widths);
    forall k | 0 <= k < |toks| ensures '\n' !in toks[k] && '\r' !in toks[k] {
      assert IsWhitespace('\n') && IsWhitespace('\r');
    }
    SpacedIsOneLine(toks, widths);
    if line != [] {
      assert line[|line| - 1] in line;
    }
  }

  /** `filter_map` over the lines, one line at a time. */
  lemma ParseLinesCons(line: string, rest: seq<string>)
    ensures ParseLines([line] + rest)
         == (if ParseLine(line).Some? then [ParseLine(line).value] else []) + ParseLines(rest)
  {
    assert ([line] + rest)[1..] == rest;
  }

  const UDEV: DfLine := DfLine("udev", "/dev", 12294803456, 0)
  const BOOT: DfLine := DfLine("/dev/nvme0n1p2", "/boot", 493201408, 121312256)
  const EFI: DfLine := DfLine("/dev/nvme0n1p1", "/boot/efi", 535805952, 3579904)

  /** The two data lines the test text and the usage example share give the records of udev and /boot. */
  lemma ParseDataLines(indent: nat)
    ensures ParseLines([UdevLine(indent), BootLine(indent)]) == [UDEV, BOOT]
  {
    var l2, l3 := UdevLine(indent), BootLine(indent);
    UdevParsed(indent);
    BootParsed(indent);
    ParseLinesCons(l3, []);
    assert ParseLines([l3]) == [BOOT] by {
      assert [l3] == [l3] + [];
    }
    ParseLinesCons(l2, [l3]);
    assert [l2, l3] == [l2] + [l3];
  }

  /** The error line and the header in front of them give nothing. */
  lemma ParseSampleLines(indent: nat)
    ensures ParseLines([ERROR_LINE, HeaderLine(indent), UdevLine(indent), BootLine(indent)]) == [UDEV, BOOT]
  {
    var l0, l1, l2, l3 := ERROR_LINE, HeaderLine(indent), UdevLine(indent), BootLine(indent);
    ErrorLineRejected();
    HeaderRejected(indent);
    ParseDataLines(indent);
    ParseLinesCons(l1, [l2, l3]);
    assert ParseLines([l1, l2, l3]) == [UDEV, BOOT] by {
      assert [l1, l2, l3] == [l1] + [l2, l3];
    }
    ParseLinesCons(l0, [l1, l2, l3]);
    assert [l0, l1, l2, l3] == [l0] + [l1, l2, l3];
  }

  lemma SampleLookups(df: Df)
    requires df.entries == [UDEV, BOOT, EFI]
    ensures df.GetByFilesystem("unknown") == None
    ensures df.GetByFilesystem("udev") == Some(UDEV)
    ensures df.GetByMount("unknown") == None
    ensures df.GetByMount("/dev") == Some(UDEV)
  {
    assert df.entries[0] == UDEV;
  }

  lemma ErrorLineIsLine()
    ensures IsPlainLine(ERROR_LINE)
  {
    ErrorTokens();
    OneLine(ERROR_TOKENS, [0, 1, 1, 1, 1, 0]);
  }

  lemma HeaderLineIsLine(indent: nat)
    ensures IsPlainLine(HeaderLine(indent))
  {
    HeaderTokens();
    OneLine(HEADER_TOKENS, [indent, 17, 9, 4, 1, 1, 1, 0]);
  }

  lemma UdevLineIsLine(indent: nat)
    ensures IsPlainLine(UdevLine(indent))
  {
    UdevTokens();
    OneLine(UDEV_TOKENS, [indent, 21, 12, 2, 3, 1, 0]);
  }

  lemma BootLineIsLine(indent: nat)
    ensures IsPlainLine(BootLine(indent)) && Tokens(BootLine(indent)) != []
  {
    BootTokens();
    OneLine(BOOT_TOKENS, [indent, 13, 4, 4, 2, 1, 0]);
    TokensOfSpaced(BOOT_TOKENS, [indent, 13, 4, 4, 2, 1, 0]);
  }

  lemma EfiLineIsLine(indent: nat)
    ensures IsPlainLine(EfiLine(indent)) && Tokens(EfiLine(indent)) != []
  {
    EfiTokens();
    OneLine(EFI_TOKENS, [indent, 13, 6, 4, 3, 1, 0]);
    TokensOfSpaced(EFI_TOKENS, [indent, 13, 6, 4, 3, 1, 0]);
  }

  /** `lines` splits the text of `test_df` back into its five lines. */
  lemma TestLinesSplit()
    ensures Lines(JoinLines(TEST_LINES)) == TEST_LINES
  {
    ErrorLineIsLine();
    HeaderLineIsLine(12);
    UdevLineIsLine(12);
    BootLineIsLine(12);
    EfiLineIsLine(12);
    FiveLines(ERROR_LINE, HeaderLine(12), UdevLine(12), BootLine(12), EfiLine(12));
  }

  /** `Df::from` on the text of `test_df` gives the records of udev, /boot and /boot/efi. */
  lemma TestEntries()
    ensures Df.From(JoinLines(TEST_LINES)).entries == [UDEV, BOOT, EFI]
  {
    var first := [ERROR_LINE, HeaderLine(12), UdevLine(12), BootLine(12)];
    var efi := EfiLine(12);
    TestLinesSplit();
    assert TEST_LINES == first + [efi];
    ParseSampleLines(12);
    EfiParsed(12);
    ParseLinesCons(efi, []);
    assert ParseLines([efi]) == [EFI] by {
      assert [efi] == [efi] + [];
    }
    ParseLinesAppend(first, [efi]);
  }

  /**
   * `test_df` (src/lib.rs:99-121): three records, the second mounted on /boot;
   * unknown keys find nothing, udev is mounted on /dev and /dev holds udev.
   */
  lemma DfTest()
    ensures var df := Df.From(JoinLines(TEST_LINES));
      && |df.entries| == 3
      && df.entries[1].mounted == "/boot"
      && df.GetByFilesystem("unknown") == None
      && df.GetByFilesystem("udev").Some? && df.GetByFilesystem("udev").value.mounted == "/dev"
      && df.GetByMount("unknown") == None
      && df.GetByMount("/dev").Some? && df.GetByMount("/dev").value.filesystem == "udev"
  {
    TestEntries();
    SampleLookups(Df.From(JoinLines(TEST_LINES)));
  }

  /** `Df::from` on the text of the usage example gives the records of udev and /boot. */
  lemma UsageEntries()
    ensures Df.From(JoinLines(USAGE_LINES)).entries == [UDEV, BOOT]
  {
    ErrorLineIsLine();
    HeaderLineIsLine(4);
    UdevLineIsLine(4);
    BootLineIsLine(4);
    FourLines(ERROR_LINE, HeaderLine(4), UdevLine(4), BootLine(4));
    ParseSampleLines(4);
  }

  /** The usage example (src/lib.rs:9-19): the record of /dev/nvme0n1p2 has 121312256 bytes used. */
  lemma UsageExample()
    ensures var df := Df.From(JoinLines(USAGE_LINES));
      df.GetByFilesystem("/dev/nvme0n1p2").Some?
      && df.GetByFilesystem("/dev/nvme0n1p2").value.used == 121312256
  {
    UsageEntries();
    var df := Df.From(JoinLines(USAGE_LINES));
    assert df.entries[1] == BOOT && df.entries[0].filesystem != "/dev/nvme0n1p2";
  }
}
