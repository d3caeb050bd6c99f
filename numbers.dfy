/**
  Fixed-width integers and the decimal conversions the modelled code uses: `fmt`'s `%d` when
  formatting and when scanning an unsigned field, and `strconv.Atoi`/`strconv.Itoa`
  for a 64-bit `int`.
 */
module Numbers {
  import opened Wrappers

  type byte = bv8
  newtype uint8 = x: int | 0 <= x < 0x100
  newtype uint32 = x: int | 0 <= x < 0x1_0000_0000

  const MinInt64: int := -0x8000_0000_0000_0000
  const MaxInt64: int := 0x7FFF_FFFF_FFFF_FFFF

  predicate IsDigit(c: char) {
    '0' <= c <= '9'
  }

  predicate AllDigits(s: string) {
    forall k :: 0 <= k < |s| ==> IsDigit(s[k])
  }

  function DigitChar(d: nat): (c: char)
    requires d < 10
    ensures IsDigit(c)
  {
    (d + '0' as int) as char
  }

  /** Value of a string of decimal digits, most significant first. */
  function DigitsValue(s: string): nat
    requires AllDigits(s)
  {
    if s == [] then 0 else DigitsValue(s[..|s| - 1]) * 10 + (s[|s| - 1] as int - '0' as int)
  }

  /** `%d` of a non-negative number: its shortest decimal digits. */
  function Decimal(n: nat): (s: string)
    ensures |s| >= 1 && AllDigits(s)
    ensures |s| > 1 ==> s[0] != '0'
  {
    if n < 10 then [DigitChar(n)] else Decimal(n / 10) + [DigitChar(n % 10)]
  }

  /** Reading back the digits of `Decimal(n)` gives `n`. */
  lemma {:induction false} DecimalValue(n: nat)
    ensures DigitsValue(Decimal(n)) == n
  {
    if n >= 10 {
      var s := Decimal(n);
      assert s[..|s| - 1] == Decimal(n / 10);
      DecimalValue(n / 10);
    }
  }

  /** Length of the run of digits at the start of `s`. */
  function LeadingDigits(s: string): (k: nat)
    ensures k <= |s| && AllDigits(s[..k])
    ensures k < |s| ==> !IsDigit(s[k])
  {
    if s != [] && IsDigit(s[0]) then
      var k := LeadingDigits(s[1..]);
      assert s[..k + 1] == [s[0]] + s[1..][..k];
      k + 1
    else
      0
  }

  /**
    `fmt.Sscanf(field, prefix + "%d", &v)` into an unsigned variable whose values lie
    below `bound`: the field must start with the literal `prefix`, then at least one
    digit; the digits run as far as they go and whatever follows them is not looked at.
    A value at or above `bound` is an overflow error.
   */
  function ScanUnsigned(field: string, prefix: string, bound: nat): (r: Option<nat>)
    ensures r.Some? ==> r.value < bound
    ensures r.Some? ==> |prefix| < |field| && field[..|prefix|] == prefix && IsDigit(field[|prefix|])
    ensures var matched := |prefix| <= |field| && field[..|prefix|] == prefix;
            var rest := if matched then field[|prefix|..] else [];
            var digits := rest[..LeadingDigits(rest)];
            r.Some? <==> matched && digits != [] && DigitsValue(digits) < bound
    ensures r.Some? ==>
              var rest := field[|prefix|..];
              r.value == DigitsValue(rest[..LeadingDigits(rest)])
  {
    if |field| < |prefix| || field[..|prefix|] != prefix then None
    else
      var rest := field[|prefix|..];
      var k := LeadingDigits(rest);
      if k == 0 then None
      else
        var v := DigitsValue(rest[..k]);
        if v < bound then Some(v) else None
  }

  /**
    Scanning what `%d` printed gives the number back, whatever non-digit text follows
    it, as long as the number is in range.
   */
  lemma ScanDecimal(prefix: string, n: nat, tail: string, bound: nat)
    requires n < bound
    requires tail != [] ==> !IsDigit(tail[0])
    ensures ScanUnsigned(prefix + Decimal(n) + tail, prefix, bound) == Some(n)
  {
    var field := prefix + Decimal(n) + tail;
    var rest := field[|prefix|..];
    assert rest == Decimal(n) + tail;
    LeadingDigitsOf(Decimal(n), tail);
    assert rest[..|Decimal(n)|] == Decimal(n);
    DecimalValue(n);
  }

  /**
    A number at or above `bound` is refused rather than wrapped: `%d` into a uint32
    reports an overflow for 4294967296, and into a uint8 for 256.
   */
  lemma ScanOverflow(prefix: string, n: nat, tail: string, bound: nat)
    requires n >= bound
    requires tail != [] ==> !IsDigit(tail[0])
    ensures ScanUnsigned(prefix + Decimal(n) + tail, prefix, bound) == None
  {
    var field := prefix + Decimal(n) + tail;
    var rest := field[|prefix|..];
    assert rest == Decimal(n) + tail;
    LeadingDigitsOf(Decimal(n), tail);
    assert rest[..|Decimal(n)|] == Decimal(n);
    DecimalValue(n);
  }

  /** The leading run of digits of `d + tail` is `d` when `tail` does not start with one. */
  lemma {:induction false} LeadingDigitsOf(d: string, tail: string)
    requires AllDigits(d)
    requires tail != [] ==> !IsDigit(tail[0])
    ensures LeadingDigits(d + tail) == |d|
  {
    if d != [] {
      assert (d + tail)[1..] == d[1..] + tail;
      LeadingDigitsOf(d[1..], tail);
    }
  }

  /**
    `strconv.Atoi` with a 64-bit `int`: an optional '+' or '-', then one or more
    decimal digits and nothing else, with the value inside the int64 range.
   */
  function Atoi(s: string): (r: Option<int>)
    ensures r.Some? ==> MinInt64 <= r.value <= MaxInt64
    ensures r.Some? ==> |s| >= 1 && forall k :: 0 < k < |s| ==> IsDigit(s[k])
    ensures r.Some? ==> IsDigit(s[0]) || (|s| >= 2 && (s[0] == '+' || s[0] == '-'))
    ensures r.Some? && s[0] == '-' ==> r.value <= 0
    ensures r.Some? && s[0] != '-' ==> r.value >= 0
    ensures r.Some? ==>
              var digits := if s[0] == '+' || s[0] == '-' then s[1..] else s;
              AllDigits(digits) && var m: int := DigitsValue(digits); r.value == if s[0] == '-' then -m else m
    ensures s != [] ==>
              var digits := if s[0] == '+' || s[0] == '-' then s[1..] else s;
              (digits != [] && AllDigits(digits)
               && var m: int := DigitsValue(digits); MinInt64 <= (if s[0] == '-' then -m else m) <= MaxInt64)
              ==> r.Some?
  {
    if s == [] then None
    else
      var digits := if s[0] == '+' || s[0] == '-' then s[1..] else s;
      if digits == [] || !AllDigits(digits) then None
      else
        var magnitude: int := DigitsValue(digits);
        var v: int := if s[0] == '-' then -magnitude else magnitude;
        if MinInt64 <= v <= MaxInt64 then Some(v) else None
  }

  /** `strconv.Itoa`: a '-' for a negative number, then the digits of its magnitude. */
  function FormatInt(n: int): string {
    if n < 0 then "-" + Decimal(-n) else Decimal(n)
  }

  /** `Atoi` reads back every 64-bit `int` that `Itoa` prints. */
  lemma AtoiFormatInt(n: int)
    requires MinInt64 <= n <= MaxInt64
    ensures Atoi(FormatInt(n)) == Some(n)
  {
    var s := FormatInt(n);
    if n < 0 {
      assert s[1..] == Decimal(-n);
      DecimalValue(-n);
    } else {
      DecimalValue(n);
    }
  }

  /** A number outside the int64 range is refused with a range error, not wrapped. */
  lemma AtoiOutOfRange(n: int)
    requires n < MinInt64 || n > MaxInt64
    ensures Atoi(FormatInt(n)) == None
  {
    var s := FormatInt(n);
    if n < 0 {
      assert s[1..] == Decimal(-n);
      DecimalValue(-n);
    } else {
      DecimalValue(n);
    }
  }

  /** Any optional sign followed by digits reads, when its value is an int64: leading
      zeros and a '+' included. */
  lemma AtoiSignedDigits(sign: string, digits: string)
    requires sign == "" || sign == "+" || sign == "-"
    requires digits != [] && AllDigits(digits)
    requires sign == "-" ==> DigitsValue(digits) <= -MinInt64
    requires sign != "-" ==> DigitsValue(digits) <= MaxInt64
    ensures var m: int := DigitsValue(digits); Atoi(sign + digits) == Some(if sign == "-" then -m else m)
  {
    var s := sign + digits;
    if sign == "" {
      assert s == digits;
    } else {
      assert s[0] == sign[0] && s[1..] == digits;
    }
  }

  /** Leading zeros and a '+' sign are accepted: "007" and "+7" both read as 7, and
      "0042" as 42. */
  lemma AtoiNonCanonical()
    ensures Atoi("007") == Some(7)
    ensures Atoi("+7") == Some(7)
    ensures Atoi("0042") == Some(42)
  {
    assert "0042"[..3] == "004" && "004"[..2] == "00" && "00"[..1] == "0";
    assert DigitsValue("0042") == 42;
    assert "007"[..2] == "00" && "00"[..1] == "0" && "0"[..0] == "";
    assert DigitsValue("0") == 0 && DigitsValue("00") == 0 && DigitsValue("007") == 7;
    assert "+7"[1..] == "7" && "7"[..0] == "";
  }
}
