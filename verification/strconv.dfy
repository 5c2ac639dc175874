/** `strconv.Atoi` and `strconv.Itoa` for a 64-bit Go `int`: the parser that turns the
    `categoryId` path segment into an id, and the formatter clients use to build that path. */
module Strconv {
  import opened Failures

  /** Bounds of Go's `int` on a 64-bit platform. */
  const MinInt := -0x8000_0000_0000_0000
  const MaxInt := 0x7fff_ffff_ffff_ffff

  predicate IsDigit(c: char) {
    '0' <= c <= '9'
  }

  predicate AllDigits(s: string) {
    forall i :: 0 <= i < |s| ==> IsDigit(s[i])
  }

  function DigitValue(c: char): nat
    requires IsDigit(c)
  {
    (c as int) - ('0' as int)
  }

  /** The number a string of decimal digits denotes, most significant digit first. */
  function DecimalValue(s: string): nat
    requires AllDigits(s)
    decreases |s|
  {
    if |s| == 0 then 0 else DecimalValue(s[..|s| - 1]) * 10 + DigitValue(s[|s| - 1])
  }

  function Digit(d: nat): (c: char)
    requires d < 10
    ensures IsDigit(c) && DigitValue(c) == d
  {
    ('0' as int + d) as char
  }

  /** The shortest decimal spelling of `n`. */
  function Decimal(n: nat): (s: string)
    ensures 1 <= |s| && AllDigits(s)
    ensures DecimalValue(s) == n
    decreases n
  {
    if n < 10 then [Digit(n)]
    else
      var prefix := Decimal(n / 10);
      var s := prefix + [Digit(n % 10)];
      assert s[..|s| - 1] == prefix;
      s
  }

  /** `strconv.Itoa`. */
  function Itoa(n: int): string {
    if n < 0 then "-" + Decimal(-n) else Decimal(n)
  }

  /** The part of `s` after an optional leading sign. */
  function Unsigned(s: string): string {
    if 0 < |s| && (s[0] == '-' || s[0] == '+') then s[1..] else s
  }

  /** An optional sign followed by at least one decimal digit. */
  predicate WellFormed(s: string) {
    0 < |Unsigned(s)| && AllDigits(Unsigned(s))
  }

  /** The integer a well-formed decimal string denotes, before any range check. */
  function SignedValue(s: string): int
    requires WellFormed(s)
  {
    if s[0] == '-' then -(DecimalValue(Unsigned(s)) as int) else DecimalValue(Unsigned(s))
  }

  /** The text of the `*strconv.NumError` that `Atoi` returns. */
  function NumError(s: string, reason: string): Failure {
    Other("strconv.Atoi: parsing \"" + s + "\": " + reason)
  }

  /** The largest value `strconv.ParseUint` accumulates before it reports a range error. */
  const MaxUint64 := 0xffff_ffff_ffff_ffff

  /** The longest run of decimal digits at the start of `s`. */
  function LeadingDigits(s: string): (p: string)
    ensures p <= s && AllDigits(p)
    ensures |p| < |s| ==> !IsDigit(s[|p|])
    ensures AllDigits(s) ==> p == s
  {
    if |s| == 0 || !IsDigit(s[0]) then [] else [s[0]] + LeadingDigits(s[1..])
  }

  /** `strconv.Atoi`. After an optional sign the digits are read left to right, and the
      read stops at the first non-digit (a syntax error) or at the first digit that takes
      the value past 2^64 - 1 (a range error), whichever comes first. The value only grows
      as digits are read, so the range error comes first exactly when the leading run of
      digits already exceeds 2^64 - 1. A complete run of digits is then checked against
      Go's `int`. */
  function Atoi(s: string): (r: Result<int>)
    ensures r.Ok? <==> WellFormed(s) && MinInt <= SignedValue(s) <= MaxInt
    ensures r.Ok? ==> r.value == SignedValue(s)
    ensures r.Err? ==> r == Err(NumError(s, "invalid syntax")) || r == Err(NumError(s, "value out of range"))
    ensures WellFormed(s) && r.Err? ==> r == Err(NumError(s, "value out of range"))
    ensures DecimalValue(LeadingDigits(Unsigned(s))) > MaxUint64 ==> r == Err(NumError(s, "value out of range"))
    ensures !WellFormed(s) && DecimalValue(LeadingDigits(Unsigned(s))) <= MaxUint64
      ==> r == Err(NumError(s, "invalid syntax"))
  {
    var digits := Unsigned(s);
    if |digits| == 0 then Err(NumError(s, "invalid syntax"))
    else if DecimalValue(LeadingDigits(digits)) > MaxUint64 then Err(NumError(s, "value out of range"))
    else if !AllDigits(digits) then Err(NumError(s, "invalid syntax"))
    else
      var v := SignedValue(s);
      if v < MinInt || v > MaxInt then Err(NumError(s, "value out of range")) else Ok(v)
  }

  /** Every Go `int` survives being written by `Itoa` and read back by `Atoi`:
      the path `"/api/categories/" + strconv.Itoa(id)` always names `id`. */
  lemma AtoiItoa(n: int)
    requires MinInt <= n <= MaxInt
    ensures Atoi(Itoa(n)) == Ok(n)
  {
    var s := Itoa(n);
    if n < 0 {
      var d := Decimal(-n);
      assert s == "-" + d;
      assert Unsigned(s) == d;
      assert SignedValue(s) == n;
    } else {
      var d := Decimal(n);
      assert IsDigit(d[0]);
      assert Unsigned(s) == d;
    }
  }

  /** A segment holding anything other than sign-and-digits is rejected, so it never
      reaches the service: "abc", "1.5", "12a". (The empty segment and a bare sign have no
      digits at all; `Atoi`'s own first ensures already rejects them.) */
  lemma NonNumericRejected(s: string, i: nat)
    requires i < |Unsigned(s)| && !IsDigit(Unsigned(s)[i])
    ensures Atoi(s).Err?
  {
  }

  function Pow10(k: nat): nat {
    if k == 0 then 1 else 10 * Pow10(k - 1)
  }

  lemma {:induction false} Pow10Add(a: nat, b: nat)
    ensures Pow10(a + b) == Pow10(a) * Pow10(b)
  {
    if a > 0 {
      Pow10Add(a - 1, b);
    }
  }

  /** A run of `k` nines denotes 10^k - 1. */
  lemma {:induction false} NinesValue(k: nat)
    ensures AllDigits(seq(k, _ => '9'))
    ensures DecimalValue(seq(k, _ => '9')) == Pow10(k) - 1
  {
    var nines := seq(k, _ => '9');
    if k > 0 {
      NinesValue(k - 1);
      assert nines[..k - 1] == seq(k - 1, _ => '9');
    }
  }

  /** Digits followed by a non-digit: the leading run is exactly those digits. */
  lemma {:induction false} LeadingDigitsStopAt(p: string, c: char)
    requires AllDigits(p) && !IsDigit(c)
    ensures LeadingDigits(p + [c]) == p
  {
    if |p| > 0 {
      LeadingDigitsStopAt(p[1..], c);
      assert (p + [c])[1..] == p[1..] + [c];
    }
  }

  /** A run of digits too large for 64 bits, followed by any non-digit, is a range error. */
  lemma OverflowWinsOverTrailingGarbage(p: string, c: char)
    requires 0 < |p| && AllDigits(p) && !IsDigit(c)
    requires DecimalValue(p) > MaxUint64
    ensures Atoi(p + [c]) == Err(NumError(p + [c], "value out of range"))
  {
    var s := p + [c];
    assert s[0] == p[0];
    assert Unsigned(s) == s;
    LeadingDigitsStopAt(p, c);
    assert LeadingDigits(Unsigned(s)) == p;
  }

  /** Twenty nines overflow 2^64 - 1 before the trailing "x" is reached, so the failure
      is a range error, not a syntax error. */
  lemma OverflowBeforeSyntaxError()
    ensures Atoi("99999999999999999999x")
         == Err(NumError("99999999999999999999x", "value out of range"))
  {
    var nines := seq(20, _ => '9');
    NinesValue(20);
    assert Pow10(5) == 100_000;
    Pow10Add(5, 5);
    Pow10Add(10, 10);
    OverflowWinsOverTrailingGarbage(nines, 'x');
    assert "99999999999999999999x" == nines + ['x'];
  }
}
