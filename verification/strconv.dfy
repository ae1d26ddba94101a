/** Go's `strconv.Atoi` and the `%d` formatting of `fmt`, for the 64-bit `int`. */
module Strconv {

  const MaxInt: int := 0x7FFF_FFFF_FFFF_FFFF
  const MinInt: int := -0x8000_0000_0000_0000

  predicate IsDigit(c: char) {
    '0' <= c <= '9'
  }

  predicate AllDigits(s: string) {
    forall i :: 0 <= i < |s| ==> IsDigit(s[i])
  }

  /** A decimal numeral without superfluous leading zeros. */
  predicate Canonical(s: string) {
    |s| > 0 && AllDigits(s) && (|s| > 1 ==> s[0] != '0')
  }

  /** The value of a string of decimal digits (leading zeros allowed). */
  function DigitsValue(s: string): nat
    requires AllDigits(s)
    decreases |s|
  {
    if |s| == 0 then 0
    else DigitsValue(s[..|s| - 1]) * 10 + (s[|s| - 1] as int - '0' as int)
  }

  /** The canonical decimal numeral of `n`. */
  function FormatNat(n: nat): (s: string)
    ensures Canonical(s)
    decreases n
  {
    if n < 10 then [('0' as int + n) as char]
    else FormatNat(n / 10) + [('0' as int + n % 10) as char]
  }

  lemma {:induction false} DigitsValueFormatNat(n: nat)
    ensures DigitsValue(FormatNat(n)) == n
    decreases n
  {
    if n >= 10 {
      DigitsValueFormatNat(n / 10);
      var s := FormatNat(n);
      assert s[..|s| - 1] == FormatNat(n / 10);
    }
  }

  /** The largest `uint64`, the range of the digit scanner. */
  const MaxUint: int := 0xFFFF_FFFF_FFFF_FFFF

  /** The smallest accumulator that a further digit would push past `MaxUint`. */
  const UintCutoff: int := MaxUint / 10 + 1

  /** Length of the run of decimal digits at the front of `s`. */
  function LeadingDigits(s: string): (n: nat)
    ensures n <= |s| && AllDigits(s[..n])
    ensures n < |s| ==> !IsDigit(s[n])
    decreases |s|
  {
    if |s| == 0 || !IsDigit(s[0]) then 0
    else
      var n := 1 + LeadingDigits(s[1..]);
      assert forall i :: 1 <= i < n ==> s[..n][i] == s[1..][..n - 1][i - 1];
      n
  }

  /** A digit run that is followed by a non-digit is the leading run. */
  lemma {:induction false} LeadingDigitsAt(s: string, i: nat)
    requires i <= |s| && AllDigits(s[..i]) && (i < |s| ==> !IsDigit(s[i]))
    ensures LeadingDigits(s) == i
    decreases i
  {
    if i > 0 {
      assert s[..i][0] == s[0];
      assert s[1..][..i - 1] == s[..i][1..];
      LeadingDigitsAt(s[1..], i - 1);
    }
  }

  /** The outcome of the unsigned digit scan. */
  datatype Scan = Value(n: nat) | SyntaxError | RangeError

  /** The digit loop of Go's `strconv.ParseUint` in base 10, with the
      accumulator `n`: a non-digit is a syntax error, and a digit that would
      carry the value past `MaxUint` stops the scan with a range error before
      any later character is looked at. */
  function ScanDigits(s: string, n: nat): Scan
    decreases |s|
  {
    if |s| == 0 then Value(n)
    else if !IsDigit(s[0]) then SyntaxError
    else if n >= UintCutoff then RangeError
    else
      var n1 := n * 10 + (s[0] as int - '0' as int);
      if n1 > MaxUint then RangeError else ScanDigits(s[1..], n1)
  }

  /** `strconv.ParseUint(s, 10, 64)`: the empty string is a syntax error. */
  function ParseUint(s: string): Scan {
    if |s| == 0 then SyntaxError else ScanDigits(s, 0)
  }

  /** Reading more digits never lowers the value. */
  lemma {:induction false} DigitsValueMonotone(s: string, i: nat, j: nat)
    requires i <= j <= |s| && AllDigits(s[..j])
    ensures AllDigits(s[..i]) && DigitsValue(s[..i]) <= DigitsValue(s[..j])
    decreases j - i
  {
    assert forall k :: 0 <= k < i ==> s[..i][k] == s[..j][k];
    if i < j {
      assert forall k :: 0 <= k < j - 1 ==> s[..j - 1][k] == s[..j][k];
      DigitsValueMonotone(s, i, j - 1);
      assert s[..j][..j - 1] == s[..j - 1];
    }
  }

  /** The scan from position `i`, with the digits before it already read, gives
      the closed form: a range error exactly when the leading digit run exceeds
      `MaxUint`; otherwise a syntax error when a non-digit follows the run;
      otherwise the value of the whole string. */
  lemma {:induction false} ScanDigitsFrom(s: string, i: nat)
    requires i <= |s| && AllDigits(s[..i]) && DigitsValue(s[..i]) <= MaxUint
    ensures var k := LeadingDigits(s);
      ScanDigits(s[i..], DigitsValue(s[..i]))
        == if DigitsValue(s[..k]) > MaxUint then RangeError
           else if k < |s| then SyntaxError
           else Value(DigitsValue(s))
    decreases |s| - i
  {
    var k := LeadingDigits(s);
    var n := DigitsValue(s[..i]);
    if i == |s| {
      LeadingDigitsAt(s, i);
      assert s[..i] == s;
    } else if !IsDigit(s[i]) {
      LeadingDigitsAt(s, i);
    } else {
      assert s[..i + 1][..i] == s[..i];
      assert forall j :: 0 <= j < i + 1 ==> s[..i + 1][j] == s[j];
      var n1 := DigitsValue(s[..i + 1]);
      assert n1 == n * 10 + (s[i] as int - '0' as int);
      assert s[i..][1..] == s[i + 1..];
      if n >= UintCutoff || n1 > MaxUint {
        DigitsValueMonotone(s, i + 1, k);
      } else {
        ScanDigitsFrom(s, i + 1);
      }
    }
  }

  /** `ParseUint` in closed form. */
  lemma ParseUintValue(s: string)
    ensures var k := LeadingDigits(s);
      ParseUint(s)
        == if DigitsValue(s[..k]) > MaxUint then RangeError
           else if k == 0 || k < |s| then SyntaxError
           else Value(DigitsValue(s))
  {
    if |s| > 0 {
      assert s[..0] == "";
      assert s[0..] == s;
      ScanDigitsFrom(s, 0);
    }
  }

  /** The outcome of `strconv.Atoi`: the integer and whether the error was nil. */
  datatype Parsed = Parsed(value: int, ok: bool)

  /** `strconv.Atoi` on a 64-bit platform, as `strconv.ParseInt(s, 10, 0)` (the
      short-string fast path gives the same results): one optional sign, then
      `ParseUint` on the rest. A syntax error yields 0. A range error of the
      scan, or a value outside the 64-bit range, yields the bound on the side of
      the sign. Overflow is found digit by digit, so a digit run that already
      exceeds `MaxUint` is a range error even when a non-digit follows it. */
  function Atoi(s: string): (p: Parsed)
    ensures p.ok ==> MinInt <= p.value <= MaxInt
    ensures !p.ok ==> p.value == 0 || p.value == MaxInt || p.value == MinInt
    ensures var negative := |s| > 0 && s[0] == '-';
      var body := if |s| > 0 && (s[0] == '+' || s[0] == '-') then s[1..] else s;
      var k := LeadingDigits(body);
      var lead := DigitsValue(body[..k]);
      var bound := if negative then MinInt else MaxInt;
      && (lead > MaxUint ==> p == Parsed(bound, false))
      && (lead <= MaxUint && (k == 0 || k < |body|) ==> p == Parsed(0, false))
      && (0 < k == |body| && lead <= MaxUint ==>
            var v := if negative then 0 - lead as int else lead as int;
            p == if MinInt <= v <= MaxInt then Parsed(v, true) else Parsed(bound, false))
  {
    var negative := |s| > 0 && s[0] == '-';
    var body := if |s| > 0 && (s[0] == '+' || s[0] == '-') then s[1..] else s;
    ParseUintValue(body);
    LeadingDigitsAt(body, LeadingDigits(body));
    match ParseUint(body)
    case SyntaxError => Parsed(0, false)
    case RangeError => Parsed(if negative then MinInt else MaxInt, false)
    case Value(u) =>
      var u: int := u;
      assert body[..|body|] == body;
      if !negative && u > MaxInt then Parsed(MaxInt, false)
      else if negative && u > -MinInt then Parsed(MinInt, false)
      else Parsed(if negative then -u else u, true)
  }

  /** On an unsigned numeral, `Atoi` fails exactly when the value overflows. */
  lemma AtoiDigits(s: string)
    requires |s| > 0 && AllDigits(s)
    ensures Atoi(s) == if DigitsValue(s) <= MaxInt then Parsed(DigitsValue(s), true) else Parsed(MaxInt, false)
  {
    LeadingDigitsAt(s, |s|);
    assert s[..|s|] == s;
  }

  /** A numeral whose digits overflow before a trailing non-digit is read is a
      range error, not a syntax error. */
  lemma AtoiOverflowFirst(digits: string, rest: string)
    requires AllDigits(digits) && DigitsValue(digits) > MaxUint
    requires |rest| > 0 && !IsDigit(rest[0])
    ensures Atoi(digits + rest) == Parsed(MaxInt, false)
    ensures Atoi("-" + digits + rest) == Parsed(MinInt, false)
  {
    var s := digits + rest;
    assert s[..|digits|] == digits;
    assert s[|digits|] == rest[0];
    LeadingDigitsAt(s, |digits|);
    assert ("-" + digits + rest)[1..] == s;
  }

  /** `fmt.Sprintf("%d", i)`: a minus sign exactly for negatives, then the
      canonical digits; `Atoi` reads it back for every 64-bit integer. */
  function Itoa(i: int): (s: string)
    ensures |s| > 0 && (s[0] == '-' <==> i < 0)
    ensures i >= 0 ==> Canonical(s)
    ensures i < 0 ==> Canonical(s[1..])
    ensures MinInt <= i <= MaxInt ==> Atoi(s) == Parsed(i, true)
  {
    if i < 0 then
      var digits := FormatNat(-i);
      DigitsValueFormatNat(-i);
      LeadingDigitsAt(digits, |digits|);
      assert digits[..|digits|] == digits;
      var s := "-" + digits;
      assert s[1..] == digits;
      s
    else
      DigitsValueFormatNat(i);
      LeadingDigitsAt(FormatNat(i), |FormatNat(i)|);
      assert FormatNat(i)[..|FormatNat(i)|] == FormatNat(i);
      FormatNat(i)
  }
}
