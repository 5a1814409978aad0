/** The base-10 conversions of section 7.22.1.4 of ISO C11 (strtol,
    strtoul) and section 7.8.2.3 (strtoumax), and the three checked
    wrappers of src/convert.c that narrow their result to `int`,
    `unsigned int` and `size_t`.

    A C string is modelled as the characters before its terminating NUL;
    NUL is neither white space, a sign nor a digit, so the scan stops
    there as it does in C. The end pointer is modelled as the index of the
    first unconverted character (`endptr - nptr`), 0 when nothing was
    converted. */
module Convert {
  import opened CTypes
  import opened Decimal

  /** isspace() in the "C" locale: space, \t, \n, \v, \f and \r. */
  predicate IsSpace(c: char) {
    c == ' ' || 9 <= c as int <= 13
  }

  predicate AllSpace(s: string) {
    forall i :: 0 <= i < |s| ==> IsSpace(s[i])
  }

  /** Index of the first character at or after i that is not white space. */
  function SkipSpace(s: string, i: nat): (j: nat)
    requires i <= |s|
    ensures i <= j <= |s| && AllSpace(s[i..j])
    ensures j == |s| || !IsSpace(s[j])
    decreases |s| - i
  {
    if i < |s| && IsSpace(s[i]) then SkipSpace(s, i + 1) else i
  }

  /** Index of the first character at or after i that is not a digit. */
  function DigitRunEnd(s: string, i: nat): (j: nat)
    requires i <= |s|
    ensures i <= j <= |s| && AllDigits(s[i..j])
    ensures j == |s| || !IsDigit(s[j])
    decreases |s| - i
  {
    if i < |s| && IsDigit(s[i]) then DigitRunEnd(s, i + 1) else i
  }

  /** The subject sequence: optional white space, an optional sign and a
      non-empty run of decimal digits. NoDigits when the string has no such
      prefix; otherwise the sign, the value of the digits and the index just
      after the last digit. */
  datatype Subject = NoDigits | Digits(negative: bool, magnitude: nat, end: nat)

  function Scan(s: string): (r: Subject)
    ensures r.Digits? ==> 0 < r.end <= |s| && IsDigit(s[r.end - 1])
    ensures r.Digits? ==> r.end == |s| || !IsDigit(s[r.end])
  {
    var i := SkipSpace(s, 0);
    var j := if i < |s| && (s[i] == '+' || s[i] == '-') then i + 1 else i;
    var k := DigitRunEnd(s, j);
    if k == j then NoDigits else Digits(i < |s| && s[i] == '-', DigitsValue(s[j..k]), k)
  }

  /** The mathematical value of the subject sequence. */
  function SignedValue(sub: Subject): int
    requires sub.Digits?
  {
    if sub.negative then -(sub.magnitude as int) else sub.magnitude
  }

  /** What a call of strto* reports: the returned value, the end index and
      whether it set errno to ERANGE. */
  datatype Conversion = Conversion(value: int, end: nat, erange: bool)

  /** strtol(s, &end, 10): the value saturates at LONG_MAX / LONG_MIN with
      ERANGE when out of range; no digits gives 0 with the end at the start. */
  function Strtol(s: string): (r: Conversion)
    ensures LONG_MIN <= r.value <= LONG_MAX
    ensures Scan(s).NoDigits? ==> r == Conversion(0, 0, false)
    ensures Scan(s).Digits? ==> r.end == Scan(s).end
    ensures Scan(s).Digits? ==> (r.erange <==> !(LONG_MIN <= SignedValue(Scan(s)) <= LONG_MAX))
    ensures Scan(s).Digits? && !r.erange ==> r.value == SignedValue(Scan(s))
    ensures Scan(s).Digits? && SignedValue(Scan(s)) > LONG_MAX ==> r.value == LONG_MAX
    ensures Scan(s).Digits? && SignedValue(Scan(s)) < LONG_MIN ==> r.value == LONG_MIN
  {
    match Scan(s)
    case NoDigits => Conversion(0, 0, false)
    case Digits(negative, magnitude, end) =>
      var v: int := if negative then -(magnitude as int) else magnitude;
      if v > LONG_MAX then Conversion(LONG_MAX, end, true)
      else if v < LONG_MIN then Conversion(LONG_MIN, end, true)
      else Conversion(v, end, false)
  }

  /** The value strtoul / strtoumax return for an in-range magnitude: a
      leading minus sign negates "in the return type", i.e. modulo max + 1. */
  function UnsignedValue(sub: Subject, max: nat): (v: nat)
    requires sub.Digits? && sub.magnitude <= max
    ensures v <= max
    ensures v == SignedValue(sub) % (max + 1)
  {
    if sub.negative && sub.magnitude > 0 then
      ModOfNegative(sub.magnitude, max + 1);
      max + 1 - sub.magnitude
    else
      ModOfSmall(sub.magnitude, max + 1);
      sub.magnitude
  }

  /** -m reduced modulo n, for 0 < m < n (Euclidean remainder). */
  lemma ModOfNegative(m: int, n: int)
    requires 0 < m < n
    ensures (-m) % n == n - m
  {
    assert -m == -1 * n + (n - m);
  }

  lemma ModOfSmall(m: int, n: int)
    requires 0 <= m < n
    ensures m % n == m
  {
  }

  /** strtoul / strtoumax with base 10 for a return type whose largest value
      is max: a magnitude above max saturates at max with ERANGE. */
  function Strtoul(s: string, max: nat): (r: Conversion)
    ensures 0 <= r.value <= max
    ensures Scan(s).NoDigits? ==> r == Conversion(0, 0, false)
    ensures Scan(s).Digits? ==> r.end == Scan(s).end && (r.erange <==> Scan(s).magnitude > max)
    ensures Scan(s).Digits? && r.erange ==> r.value == max
    ensures Scan(s).Digits? && !r.erange ==> r.value == SignedValue(Scan(s)) % (max + 1)
  {
    match Scan(s)
    case NoDigits => Conversion(0, 0, false)
    case Digits(negative, magnitude, end) =>
      if magnitude > max then Conversion(max, end, true)
      else Conversion(UnsignedValue(Scan(s), max), end, false)
  }

  /** The conversion `(int)x` of a `long`: GCC reduces modulo 2^32
      (the result is implementation-defined in section 6.3.1.3 of ISO C11). */
  function ToCInt(x: int): (r: int)
    ensures INT_MIN <= r <= INT_MAX
    ensures r == x <==> INT_MIN <= x <= INT_MAX
  {
    var m := x % 0x1_0000_0000;
    if m > INT_MAX then m - 0x1_0000_0000 else m
  }

  /** The conversion `(unsigned int)x`, reduction modulo 2^32. */
  function ToCUnsigned(x: nat): (r: nat)
    ensures r <= UINT_MAX
    ensures r == x <==> x <= UINT_MAX
  {
    x % 0x1_0000_0000
  }

  /** The conversion `(size_t)x` of a `uintmax_t`; both are 64 bits wide. */
  function ToSizeT(x: nat): (r: nat)
    ensures r <= SIZE_MAX
    ensures r == x <==> x <= SIZE_MAX
  {
    x % (SIZE_MAX + 1)
  }

  /** int_convert: stores the value of an `int`-sized decimal prefix; text
      after the digits is ignored. Fails with errno left at 0 when there are
      no digits, and with ERANGE when the value does not fit in `int`. */
  function IntConvert(candidate: string): (r: Result<int>)
    ensures r.Written? <==>
      Scan(candidate).Digits? && INT_MIN <= SignedValue(Scan(candidate)) <= INT_MAX
    ensures r.Written? ==> r.value == SignedValue(Scan(candidate))
    ensures Scan(candidate).NoDigits? ==> r == Failed(NoError)
    ensures Scan(candidate).Digits? && r.Failed? ==> r.errno == ERANGE
  {
    var p := Strtol(candidate);
    if p.erange && (p.value == LONG_MAX || p.value == LONG_MIN) then Failed(ERANGE)
    else if p.end == 0 then Failed(NoError)
    else
      var temp := ToCInt(p.value);
      if temp == p.value then Written(temp) else Failed(ERANGE)
  }

  /** unsigned_convert: as IntConvert, through strtoul and `unsigned int`. A
      leading minus sign is accepted and negates modulo 2^64, as strtoul does. */
  function UnsignedConvert(candidate: string): (r: Result<nat>)
    ensures r.Written? <==>
      Scan(candidate).Digits? && Scan(candidate).magnitude <= ULONG_MAX &&
      UnsignedValue(Scan(candidate), ULONG_MAX) <= UINT_MAX
    ensures r.Written? ==> r.value == UnsignedValue(Scan(candidate), ULONG_MAX)
    ensures Scan(candidate).NoDigits? ==> r == Failed(NoError)
    ensures Scan(candidate).Digits? && r.Failed? ==> r.errno == ERANGE
  {
    var p := Strtoul(candidate, ULONG_MAX);
    if ULONG_MAX == p.value && p.erange then Failed(ERANGE)
    else if p.end == 0 then Failed(NoError)
    else
      var temp := ToCUnsigned(p.value);
      if temp == p.value then Written(temp) else Failed(ERANGE)
  }

  /** sizet_convert: as IntConvert, through strtoumax and `size_t`. On LP64
      the narrowing to `size_t` never fails, so only saturation rejects. */
  function SizetConvert(candidate: string): (r: Result<nat>)
    ensures r.Written? <==>
      Scan(candidate).Digits? && Scan(candidate).magnitude <= UINTMAX_MAX
    ensures r.Written? ==> r.value == UnsignedValue(Scan(candidate), UINTMAX_MAX)
    ensures Scan(candidate).NoDigits? ==> r == Failed(NoError)
    ensures Scan(candidate).Digits? && r.Failed? ==> r.errno == ERANGE
  {
    var p := Strtoul(candidate, UINTMAX_MAX);
    if UINTMAX_MAX == p.value && p.erange then Failed(ERANGE)
    else if p.end == 0 then Failed(NoError)
    else
      var temp := ToSizeT(p.value);
      if temp == p.value then Written(temp) else Failed(ERANGE)
  }

  // ---------------------------------------------------------------------
  // The subject sequence, characterised by how the string is built.

  /** A string made of white space w, a sign sign ("", "+" or "-"), a
      non-empty digit run d and any rest that does not start with a digit
      scans as the value of d, negated by "-", ending after d. */
  lemma {:induction false} ScanComposed(w: string, sign: string, d: string, rest: string)
    requires AllSpace(w) && sign in {"", "+", "-"}
    requires |d| > 0 && AllDigits(d)
    requires rest == [] || !IsDigit(rest[0])
    ensures Scan(w + sign + d + rest) == Digits(sign == "-", DigitsValue(d), |w| + |sign| + |d|)
  {
    var s := w + sign + d + rest;
    var i := |w|;
    var j := i + |sign|;
    var k := j + |d|;
    assert forall x :: 0 <= x < i ==> s[x] == w[x];
    assert forall x :: i <= x < j ==> s[x] == sign[x - i];
    assert forall x :: j <= x < k ==> s[x] == d[x - j];
    assert forall x :: k <= x < |s| ==> s[x] == rest[x - k];
    assert s[..i] == w;
    assert s[j..k] == d;
    assert s[j] == d[0];
    assert sign != "" ==> s[i] == sign[0];
    assert k == |s| || s[k] == rest[0];
    ScanAt(s, i, j, k);
  }

  /** The scan of s when white space runs up to i, the sign (if any) up to
      j and the digits up to k. */
  lemma ScanAt(s: string, i: nat, j: nat, k: nat)
    requires i < j + 1 && j < k <= |s|
    requires AllSpace(s[..i]) && !IsSpace(s[i])
    requires j == (if s[i] == '+' || s[i] == '-' then i + 1 else i)
    requires AllDigits(s[j..k]) && (k == |s| || !IsDigit(s[k]))
    ensures Scan(s) == Digits(s[i] == '-', DigitsValue(s[j..k]), k)
  {
    assert s[0..i] == s[..i];
    SkipSpaceOver(s, 0, i);
    DigitRunOver(s, j, k);
  }

  lemma {:induction false} SkipSpaceOver(s: string, i: nat, j: nat)
    requires i <= j <= |s| && AllSpace(s[i..j]) && (j == |s| || !IsSpace(s[j]))
    ensures SkipSpace(s, i) == j
    decreases j - i
  {
    if i < j {
      assert s[i] == s[i..j][0];
      assert s[i + 1..j] == s[i..j][1..];
      SkipSpaceOver(s, i + 1, j);
    }
  }

  lemma {:induction false} DigitRunOver(s: string, i: nat, j: nat)
    requires i <= j <= |s| && AllDigits(s[i..j]) && (j == |s| || !IsDigit(s[j]))
    ensures DigitRunEnd(s, i) == j
    decreases j - i
  {
    if i < j {
      assert s[i] == s[i..j][0];
      assert s[i + 1..j] == s[i..j][1..];
      DigitRunOver(s, i + 1, j);
    }
  }

  /** White space followed by text that does not start with a digit, a
      sign or more white space, or by a sign and then anything but a digit
      (" + 5" included), has no subject sequence. */
  lemma {:induction false} ScanNoDigits(w: string, sign: string, rest: string)
    requires AllSpace(w) && sign in {"", "+", "-"}
    requires rest == [] || (!IsDigit(rest[0]) && (sign == "" ==> !IsSpace(rest[0]) && rest[0] != '+' && rest[0] != '-'))
    ensures Scan(w + sign + rest) == NoDigits
  {
    var s := w + sign + rest;
    var i := |w|;
    if sign == "" {
      assert s == w + rest;
      SkipSpaceOver(s, 0, i);
    } else {
      SkipSpaceOver(s, 0, i);
      assert s[i] == sign[0];
    }
    var j := i + |sign|;
    assert j == |s| || s[j] == rest[0];
  }

  // ---------------------------------------------------------------------
  // Round trips: every in-range value, spelt in decimal and followed by any
  // text that does not start with a digit, is converted back.

  lemma {:induction false} IntConvertRoundTrip(n: int, rest: string)
    requires INT_MIN <= n <= INT_MAX
    requires rest == [] || !IsDigit(rest[0])
    ensures IntConvert(IntToDecimal(n) + rest) == Written(n)
  {
    ScanIntToDecimal(n, rest);
  }

  /** The spelling of any integer, followed by text that does not start with
      a digit, scans as that integer. */
  lemma {:induction false} ScanIntToDecimal(n: int, rest: string)
    requires rest == [] || !IsDigit(rest[0])
    ensures Scan(IntToDecimal(n) + rest).Digits?
    ensures SignedValue(Scan(IntToDecimal(n) + rest)) == n
  {
    if n < 0 {
      var m := -n;
      assert IntToDecimal(n) == "-" + NatToDecimal(m);
      ScanNatToDecimal("-", m, rest);
    } else {
      assert IntToDecimal(n) == "" + NatToDecimal(n);
      ScanNatToDecimal("", n, rest);
    }
  }

  /** A sign, the spelling of m and text that does not start with a digit
      scan as m with that sign. */
  lemma {:induction false} ScanNatToDecimal(sign: string, m: nat, rest: string)
    requires sign in {"", "+", "-"}
    requires rest == [] || !IsDigit(rest[0])
    ensures Scan(sign + NatToDecimal(m) + rest) == Digits(sign == "-", m, |sign| + |NatToDecimal(m)|)
  {
    assert sign + NatToDecimal(m) + rest == "" + sign + NatToDecimal(m) + rest;
    ScanComposed("", sign, NatToDecimal(m), rest);
    NatToDecimalRoundTrip(m);
  }

  lemma {:induction false} UnsignedConvertRoundTrip(n: nat, rest: string)
    requires n <= UINT_MAX
    requires rest == [] || !IsDigit(rest[0])
    ensures UnsignedConvert(NatToDecimal(n) + rest) == Written(n)
  {
    ScanComposed("", "", NatToDecimal(n), rest);
    NatToDecimalRoundTrip(n);
    assert "" + "" + NatToDecimal(n) + rest == NatToDecimal(n) + rest;
  }

  lemma {:induction false} SizetConvertRoundTrip(n: nat, rest: string)
    requires n <= SIZE_MAX
    requires rest == [] || !IsDigit(rest[0])
    ensures SizetConvert(NatToDecimal(n) + rest) == Written(n)
  {
    ScanComposed("", "", NatToDecimal(n), rest);
    NatToDecimalRoundTrip(n);
    assert "" + "" + NatToDecimal(n) + rest == NatToDecimal(n) + rest;
  }

  /** A value just past the `int` range is a narrowing failure with ERANGE,
      not a strtol saturation. */
  lemma {:induction false} IntConvertNarrowingFails(n: int)
    requires INT_MAX < n <= LONG_MAX
    ensures IntConvert(IntToDecimal(n)) == Failed(ERANGE)
  {
    ScanComposed("", "", NatToDecimal(n), "");
    NatToDecimalRoundTrip(n);
    assert "" + "" + NatToDecimal(n) + "" == IntToDecimal(n);
  }

  /** "-1" is not an `unsigned int`: strtoul gives ULONG_MAX, which does
      not survive the narrowing. */
  lemma {:induction false} UnsignedConvertRejectsMinusOne()
    ensures UnsignedConvert("-1") == Failed(ERANGE)
  {
    ScanComposed("", "-", "1", "");
    assert "" + "-" + "1" + "" == "-1";
  }

  /** "-1" is accepted by sizet_convert and stored as SIZE_MAX: strtoumax
      negates modulo 2^64 and `size_t` is as wide as `uintmax_t`. */
  lemma {:induction false} SizetConvertAcceptsMinusOne()
    ensures SizetConvert("-1") == Written(SIZE_MAX)
  {
    ScanComposed("", "-", "1", "");
    assert "" + "-" + "1" + "" == "-1";
  }
}
