/**
 * Rust's `<u64 as FromStr>::from_str` (what `str::parse::<u64>` calls) over
 * unbounded naturals, with the 64-bit overflow check written out.
 */
module Numbers {
  import opened Wrappers
  import Strings

  const U64_MAX: nat := 0xFFFF_FFFF_FFFF_FFFF

  /** The values of Rust's `u64`. */
  type u64 = n: nat | n <= U64_MAX

  predicate IsDigit(c: char) {
    '0' <= c <= '9'
  }

  predicate AllDigits(s: string) {
    forall i :: 0 <= i < |s| ==> IsDigit(s[i])
  }

  function DigitValue(c: char): (d: nat)
    requires IsDigit(c)
    ensures d < 10
  {
    c as int - '0' as int
  }

  function DigitChar(d: nat): (c: char)
    requires d < 10
    ensures IsDigit(c) && DigitValue(c) == d
  {
    ('0' as int + d) as char
  }

  /** The number a string of decimal digits denotes, most significant digit first. */
  function Value(ds: string): nat
    requires AllDigits(ds)
    decreases |ds|
  {
    if ds == [] then 0 else 10 * Value(ds[..|ds| - 1]) + DigitValue(ds[|ds| - 1])
  }

  /**
   * `u64::from_str`: an optional single leading '+', then one or more ASCII
   * digits whose value fits in 64 bits; anything else (the empty string, a
   * lone '+', a '-', any other character, overflow) is an error, here `None`.
   */
  function ParseU64(t: string): (r: Option<u64>)
    ensures r.Some? ==> t != [] && t != "+"
    ensures r.Some? ==> forall i :: 0 <= i < |t| ==> IsDigit(t[i]) || (i == 0 && t[i] == '+')
  {
    var digits := if |t| > 0 && t[0] == '+' then t[1..] else t;
    if digits == [] || !AllDigits(digits) then None
    else if Value(digits) > U64_MAX then None
    else Some(Value(digits))
  }

  /** How `n` is written in decimal: no sign and no leading zero. */
  function Decimal(n: nat): (s: string)
    ensures |s| > 0 && AllDigits(s) && Value(s) == n
    ensures s[0] == '0' <==> n == 0
    ensures n == 0 ==> |s| == 1
  {
    if n < 10 then [DigitChar(n)]
    else
      var s := Decimal(n / 10) + [DigitChar(n % 10)];
      assert s[..|s| - 1] == Decimal(n / 10);
      s
  }

  function Zeros(k: nat): (s: string)
    ensures |s| == k && forall i :: 0 <= i < k ==> s[i] == '0'
  {
    seq(k, _ => '0')
  }

  lemma {:induction false} ValueOfZeros(k: nat)
    ensures Value(Zeros(k)) == 0
  {
    if k > 0 {
      assert Zeros(k)[..k - 1] == Zeros(k - 1);
      ValueOfZeros(k - 1);
    }
  }

  /** Leading zeros do not change the value. */
  lemma {:induction false} ValueIgnoresLeadingZeros(k: nat, ds: string)
    requires AllDigits(ds)
    ensures AllDigits(Zeros(k) + ds) && Value(Zeros(k) + ds) == Value(ds)
    decreases |ds|
  {
    if ds == [] {
      assert Zeros(k) + ds == Zeros(k);
      ValueOfZeros(k);
    } else {
      var s := Zeros(k) + ds;
      assert s[..|s| - 1] == Zeros(k) + ds[..|ds| - 1];
      ValueIgnoresLeadingZeros(k, ds[..|ds| - 1]);
    }
  }

  lemma {:induction false} ValueOfLeadingNonZero(ds: string)
    requires |ds| > 0 && AllDigits(ds) && ds[0] != '0'
    ensures Value(ds) >= 1
    decreases |ds|
  {
    if |ds| > 1 {
      ValueOfLeadingNonZero(ds[..|ds| - 1]);
    } else {
      assert ds[..0] == [];
    }
  }

  /** Decimal undoes Value on digit strings written without a leading zero. */
  lemma {:induction false} DecimalOfValue(ds: string)
    requires |ds| > 0 && AllDigits(ds)
    requires ds[0] != '0' || |ds| == 1
    ensures Decimal(Value(ds)) == ds
    decreases |ds|
  {
    var p := ds[..|ds| - 1];
    var last := ds[|ds| - 1];
    if |ds| == 1 {
      assert p == [];
      assert ds == [last];
    } else {
      ValueOfLeadingNonZero(p);
      DecimalOfValue(p);
      assert Value(ds) / 10 == Value(p) && Value(ds) % 10 == DigitValue(last);
      assert ds == p + [last];
    }
  }

  /** `from_str` of digits, optionally signed with '+': their value, unless it overflows. */
  lemma ParseU64OfDigits(plus: bool, ds: string)
    requires |ds| > 0 && AllDigits(ds)
    ensures ParseU64((if plus then "+" else "") + ds)
         == if Value(ds) <= U64_MAX then Some(Value(ds)) else None
  {
    var t := (if plus then "+" else "") + ds;
    if plus {
      assert t[1..] == ds;
    } else {
      assert t == ds;
      assert t[0] != '+';
    }
  }

  /** A number written in decimal is one white-space free token. */
  lemma DecimalIsToken(n: nat)
    ensures Strings.IsToken(Decimal(n))
  {
    var s := Decimal(n);
    forall i | 0 <= i < |s| ensures !Strings.IsWhitespace(s[i]) {
      assert IsDigit(s[i]);
    }
  }

  /** `from_str` reads back what `to_string` writes for a `u64`. */
  lemma ParseU64Decimal(n: u64)
    ensures ParseU64(Decimal(n)) == Some(n)
  {
    ParseU64OfDigits(false, Decimal(n));
    assert "" + Decimal(n) == Decimal(n);
  }

  /**
   * Every text `from_str` accepts for `n`: an optional '+', any number of
   * zeros, then `n` in decimal; `n` above `U64_MAX` is refused.
   */
  lemma ParseU64Accepts(plus: bool, k: nat, n: nat)
    ensures ParseU64((if plus then "+" else "") + Zeros(k) + Decimal(n))
         == if n <= U64_MAX then Some(n) else None
  {
    var body := Zeros(k) + Decimal(n);
    ValueIgnoresLeadingZeros(k, Decimal(n));
    ParseU64OfDigits(plus, body);
    assert (if plus then "+" else "") + Zeros(k) + Decimal(n) == (if plus then "+" else "") + body;
  }

  /** Every digit string is some zeros followed by a digit string without a leading zero. */
  lemma SplitLeadingZeros(ds: string) returns (k: nat)
    requires |ds| > 0 && AllDigits(ds)
    ensures k < |ds| && ds == Zeros(k) + ds[k..]
    ensures ds[k] != '0' || k == |ds| - 1
  {
    k := Strings.SpanLength(ds, c => c != '0');
    if k == |ds| {
      k := k - 1;
    }
    assert ds == Zeros(k) + ds[k..];
  }

  /** ... and nothing else: an accepted text has exactly that shape. */
  lemma ParseU64Canonical(t: string, n: nat)
    requires ParseU64(t) == Some(n)
    ensures exists k :: t == Zeros(k) + Decimal(n) || t == "+" + Zeros(k) + Decimal(n)
  {
    if |t| > 0 && t[0] == '+' {
      var k := CanonicalSigned(t, n);
    } else {
      var k := CanonicalDigits(t, n);
    }
  }

  lemma CanonicalSigned(t: string, n: nat) returns (k: nat)
    requires |t| > 1 && t[0] == '+' && AllDigits(t[1..]) && Value(t[1..]) == n
    ensures t == "+" + Zeros(k) + Decimal(n)
  {
    var digits := t[1..];
    k := CanonicalDigits(digits, n);
    calc {
      t;
      [t[0]] + digits;
      "+" + (Zeros(k) + Decimal(n));
      "+" + Zeros(k) + Decimal(n);
    }
  }

  lemma CanonicalDigits(ds: string, n: nat) returns (k: nat)
    requires |ds| > 0 && AllDigits(ds) && Value(ds) == n
    ensures ds == Zeros(k) + Decimal(n)
  {
    k := SplitLeadingZeros(ds);
    var rest := ds[k..];
    ValueIgnoresLeadingZeros(k, rest);
    DecimalOfValue(rest);
  }
}
