# linux-df-parser in Dafny

This is a model of the parser that the Rust crate `linux-df-parser` uses for the output of
`df -B1`. The crate reads that output one line at a time:

- `DfLine::from_str` takes a line and returns a record. The record holds the filesystem, the
  mount point, and the total and used sizes in bytes. A line that is not a data line, such as
  a header or an error message, gives `None`.
- `Df::from` keeps the record of every line that parses, in order.
- `Df::get_by_filesystem` and `Df::get_by_mount` return the first record with a given
  filesystem or mount point.

The model has six modules:

- `Wrappers` is `Option`. It is failure-compatible, so `:-` plays the part of Rust's `?`.
- `Strings` holds the two `str` operations the parser relies on:
  - `split_whitespace` is `Tokens`. The cursor that `from_str` advances is the class
    `SplitWhitespace`, whose `Next` method works through the text with loops.
  - `lines` is `Lines`.
  - White space is `char::is_whitespace`: the Unicode White_Space code points.
- `Numbers` is `u64::from_str`. It accepts one optional `+`, then one or more ASCII digits,
  with the value at most 2^64 - 1. Integers are unbounded here, so the overflow check is
  written out.
- `DfParser` holds the crate itself:
  - `DfLine.FromStr` is the imperative `from_str`. Its contract ties it to `ParseLine`.
  - `Df.From`, `Df.GetByFilesystem` and `Df.GetByMount` are the rest of the crate.
- `DfProperties` states what the parser promises over any layout of tokens and white space:
  rejection, the fields it extracts, a round trip, and filter-map exactness.
- `DfSamples` holds the crate's unit tests and its usage example as lemmas.

## Model

| member | source | states |
|---|---|---|
| DfParser.DfLine.FromStr | src/lib.rs:59-73 | walking the white-space tokens with the cursor and stopping at the first missing token or failed number gives exactly `ParseLine(s)` |
| DfParser.ParseLine | src/lib.rs:59-73 | an accepted line yields a filesystem and a mount point that are each one white-space-free, non-empty token |
| DfParser.ParseLines | src/lib.rs:42 | `filter_map` over lines: no more records than lines, and each record is the parse of some line |
| DfParser.Df.From | src/lib.rs:40-44 | the records of a text are at most as many as its lines, and each is the parse of one of its lines |
| DfParser.FindIndex | src/lib.rs:49 | `None` exactly when no element satisfies the predicate; otherwise an index that satisfies it with none before it |
| DfParser.Df.GetByFilesystem | src/lib.rs:48-50 | `None` iff no record has that filesystem; otherwise the first record, in order, whose filesystem equals it |
| DfParser.Df.GetByMount | src/lib.rs:53-55 | `None` iff no record has that mount point; otherwise the first record, in order, whose mount point equals it |
| Strings.IsWhitespace | src/lib.rs:60 | `char::is_whitespace`, the Unicode White_Space set that `split_whitespace` splits on; tab to carriage return and space are white space, visible ASCII never is |
| Strings.Tokens | src/lib.rs:60 | every piece `split_whitespace` yields is a non-empty run without white space |
| Strings.SplitWhitespace.constructor | src/lib.rs:60 | a fresh cursor has all of the text's tokens still to yield |
| Strings.SplitWhitespace.Next | src/lib.rs:61-66 | `next()` yields the first remaining token and drops it, or gives `None` and stays exhausted |
| Strings.TokensOfJoined | src/lib.rs:60 | tokens laid out with white-space runs between them come back as exactly those tokens |
| Strings.TokensLoseOnlyWhitespace | src/lib.rs:60 | the tokens of a text, put together, are the text with its white space removed |
| DfProperties.LayoutOfTokens | src/lib.rs:60 | every text is its own tokens laid out with white-space separators, so the layout lemmas cover every line |
| Strings.Lines | src/lib.rs:42 | `lines` yields pieces without '\n', one per terminator plus one for an unterminated last line; which pieces, the two round-trip lemmas below state |
| Strings.LinesOfJoinLines | src/lib.rs:42 | lines joined with '\n' come back unchanged when none holds '\n' or ends in '\r' and the last is non-empty |
| Strings.LinesOfTerminated | src/lib.rs:42 | the same lines followed by a final '\n', as command output ends, come back unchanged: the terminator adds no empty line, and an empty last line is kept |
| DfProperties.FinalNewlineIgnored | src/lib.rs:40-44 | `Df::from` gives the same records with or without the final '\n', namely the records of the lines |
| Numbers.ParseU64 | src/lib.rs:62-63 | `u64::from_str`: accepts only an optional leading '+' followed by ASCII digits, so "", "+", a '-' or any other character gives `None`; the value is the digits' value, `None` above 2^64 - 1 |
| Numbers.ParseU64Decimal | src/lib.rs:62-63 | `parse::<u64>` reads back the decimal rendering of every `u64` |
| Numbers.ParseU64Accepts | src/lib.rs:62-63 | an optional '+', any leading zeros and a decimal number give that number, or an error above 2^64 - 1 |
| Numbers.ParseU64Canonical | src/lib.rs:62-63 | any text that parses to `n` is an optional '+', some zeros, and `n` in decimal |
| DfProperties.ShortLineRejected | src/lib.rs:60-66 | a line with fewer than six tokens gives `None` |
| DfProperties.NonNumericSizeRejected | src/lib.rs:62-63 | a line whose second or third token is not a `u64` gives `None`, whatever else it holds |
| DfProperties.FieldsExtracted | src/lib.rs:59-73 | a line of six or more tokens with numbers second and third gives token 1 as filesystem, token 6 as mount point and the two numbers; tokens 4, 5 and 7 onward, and whether used exceeds total, play no part |
| DfProperties.RoundTrip | src/lib.rs:59-73 | a record printed as `df` prints it, with any white-space runs and trailing columns, parses back to the same record |
| DfProperties.CarriageReturnIgnored | src/lib.rs:42 | the '\r' that `lines` strips from a "\r\n" ending never changes what `from_str` gives |
| DfProperties.KeptIndicesIncreasing | src/lib.rs:42 | the indices of the lines that parse are listed in strictly increasing order |
| DfProperties.KeptIndicesComplete | src/lib.rs:42 | every line that parses has its index listed |
| DfProperties.PresentAtKept | src/lib.rs:42 | the k-th value a filter-map keeps is the one at the k-th kept index |
| DfProperties.ParseLinesIsFilterMap | src/lib.rs:42 | `Df::from` has exactly one record per parsing line, and the k-th record is the parse of the k-th parsing line |
| DfProperties.ParseLinesAppend | src/lib.rs:42 | the records of two blocks of lines are the records of each, in order |
| DfSamples.LineFromStrTest | src/lib.rs:81-96 | the error line and the header give `None`; the udev line gives udev, /dev, 12294803456 and 0 |
| DfSamples.TestEntries | src/lib.rs:100-110 | the five-line test text gives the records of udev, /dev/nvme0n1p2 and /dev/nvme0n1p1, in that order |
| DfSamples.DfTest | src/lib.rs:99-121 | three records, the second mounted on /boot; "unknown" is found by neither lookup; udev is mounted on /dev, and /dev holds udev |
| DfSamples.UsageExample | src/lib.rs:9-19 | in the usage text, the record of /dev/nvme0n1p2 has 121312256 bytes used |

## Left out

- Running `/bin/df -B1` (src/lib.rs:4-5) is I/O and is not modelled: the model starts from its text.
- `#[derive(Debug)]` and the lint attributes have no behaviour to model.
- Df.GetByFilesystem and Df.GetByMount return a copy of the record (`Option<DfLine>`), not a borrowed `&DfLine`. Datatype values in Dafny have no identity, so nothing observable is lost.
- `str::trim` in the tests and the usage example is not modelled: the sample texts are written as they are after trimming.
- The sample lines in DfSamples are written as their tokens and the widths of the runs of spaces between them. That is the same text, but it is not a single string literal.
- Strings.Lines follows `str::lines` as current Rust defines it: a '\r' is dropped only when it comes just before a '\n'.
- The crate's documentation promises nothing about `used <= total`, and neither does the model. FieldsExtracted and RoundTrip accept any two `u64` values.
