/**
 * The parser for the text `df -B1` prints (src/lib.rs): one record per data
 * line, and lookups by filesystem and by mount point.
 */
module DfParser {
  import opened Wrappers
  import opened Strings
  import opened Numbers

  /** One data line of `df`: sizes in bytes. */
  datatype DfLine = DfLine(filesystem: string, mounted: string, total: u64, used: u64) {

    /**
     * `DfLine::from_str`: walks the white-space tokens of `s` one `next()` at a
     * time and gives up (`None`) at the first missing token or failed number.
     */
    static method FromStr(s: string) returns (r: Option<DfLine>)
      ensures r == ParseLine(s)
    {
      var parts := new SplitWhitespace(s);
      var filesystem :- parts.Next();
      var totalText :- parts.Next();
      var total :- ParseU64(totalText);
      var usedText :- parts.Next();
      var used :- ParseU64(usedText);
      var _ :- parts.Next();
      var _ :- parts.Next();
      var mounted :- parts.Next();
      return Some(DfLine(filesystem, mounted, total, used));
    }
  }

  /**
   * What `DfLine::from_str` computes: token 1 is the filesystem, tokens 2 and 3
   * the total and used byte counts, tokens 4 and 5 must exist, token 6 is the
   * mount point, and any later token is ignored.
   */
  function ParseLine(s: string): (r: Option<DfLine>)
    ensures r.Some? ==> IsToken(r.value.filesystem) && IsToken(r.value.mounted)
  {
    var parts := Tokens(s);
    if |parts| < 6 then None
    else
      var total :- ParseU64(parts[1]);
      var used :- ParseU64(parts[2]);
      Some(DfLine(parts[0], parts[5], total, used))
  }

  /** `lines.filter_map(DfLine::from_str).collect()`. */
  function ParseLines(lines: seq<string>): (r: seq<DfLine>)
    ensures |r| <= |lines|
    ensures forall k :: 0 <= k < |r| ==>
              exists i :: 0 <= i < |lines| && ParseLine(lines[i]) == Some(r[k])
  {
    if lines == [] then []
    else
      var rest := ParseLines(lines[1..]);
      assert forall k :: 0 <= k < |rest| ==>
               exists i :: 0 <= i < |lines| && ParseLine(lines[i]) == Some(rest[k]) by {
        forall k | 0 <= k < |rest|
          ensures exists i :: 0 <= i < |lines| && ParseLine(lines[i]) == Some(rest[k])
        {
          var i :| 0 <= i < |lines[1..]| && ParseLine(lines[1..][i]) == Some(rest[k]);
          assert lines[1..][i] == lines[i + 1];
        }
      }
      match ParseLine(lines[0])
      case Some(line) => [line] + rest
      case None => rest
  }

  /** The index of the element `iter().find(p)` returns: the first one satisfying `p`. */
  function FindIndex<T>(s: seq<T>, p: T -> bool): (r: Option<nat>)
    ensures r.None? <==> forall i :: 0 <= i < |s| ==> !p(s[i])
    ensures r.Some? ==> r.value < |s| && p(s[r.value])
                        && forall j :: 0 <= j < r.value ==> !p(s[j])
  {
    if s == [] then None
    else if p(s[0]) then Some(0)
    else match FindIndex(s[1..], p)
      case None => None
      case Some(i) => Some(i + 1)
  }

  /** The records of `df`, in the order of their lines. */
  datatype Df = Df(entries: seq<DfLine>) {

    /** `Df::from`: every line that parses, in order; lines that do not are dropped. */
    static function From(s: string): (df: Df)
      ensures |df.entries| <= |Lines(s)|
      ensures forall k :: 0 <= k < |df.entries| ==>
                exists i :: 0 <= i < |Lines(s)| && ParseLine(Lines(s)[i]) == Some(df.entries[k])
    {
      Df(ParseLines(Lines(s)))
    }

    /** `Df::get_by_filesystem`: the first record whose filesystem is exactly `filesystem`. */
    function GetByFilesystem(filesystem: string): (r: Option<DfLine>)
      ensures r.None? <==> forall i :: 0 <= i < |entries| ==> entries[i].filesystem != filesystem
      ensures r.Some? ==> exists i :: 0 <= i < |entries| && entries[i] == r.value
                            && r.value.filesystem == filesystem
                            && forall j :: 0 <= j < i ==> entries[j].filesystem != filesystem
    {
      match FindIndex(entries, (x: DfLine) => x.filesystem == filesystem)
      case None => None
      case Some(i) => Some(entries[i])
    }

    /** `Df::get_by_mount`: the first record whose mount point is exactly `mounted`. */
    function GetByMount(mounted: string): (r: Option<DfLine>)
      ensures r.None? <==> forall i :: 0 <= i < |entries| ==> entries[i].mounted != mounted
      ensures r.Some? ==> exists i :: 0 <= i < |entries| && entries[i] == r.value
                            && r.value.mounted == mounted
                            && forall j :: 0 <= j < i ==> entries[j].mounted != mounted
    {
      match FindIndex(entries, (x: DfLine) => x.mounted == mounted)
      case None => None
      case Some(i) => Some(entries[i])
    }
  }
}
