/** Go's 64-bit `int` and the part of `strconv` the bookstore uses (`Atoi`). */
module GoInt {

  const MinInt: int := -0x8000_0000_0000_0000
  const MaxInt: int := 0x7fff_ffff_ffff_ffff
  const Modulus: int := 0x1_0000_0000_0000_0000

  /** A value of Go's `int` on a 64-bit platform. */
  type Int64 = x: int | MinInt <= x <= MaxInt

  /** Two's-complement wrap-around of an unbounded integer into `int`, as Go's
      arithmetic on `int` does on overflow. */
  function Wrap(x: int): (r: Int64)
    ensures MinInt <= x <= MaxInt ==> r == x
    ensures (r - x) % Modulus == 0
  {
    (x - MinInt) % Modulus + MinInt
  }

  /** `x -= 1` on a Go `int`. */
  function Dec(x: Int64): (r: Int64)
    ensures x > MinInt ==> r == x - 1
    ensures x == MinInt ==> r == MaxInt
  {
    Wrap(x - 1)
  }

  predicate IsDigit(c: char) { '0' <= c <= '9' }

  /** A non-empty run of ASCII decimal digits. */
  predicate IsDigits(s: string) {
    |s| > 0 && forall i :: 0 <= i < |s| ==> IsDigit(s[i])
  }

  /** The value of a run of decimal digits, read most significant first. */
  function DigitsValue(s: string): nat
    requires forall i :: 0 <= i < |s| ==> IsDigit(s[i])
  {
    if |s| == 0 then 0
    else
      assert IsDigit(s[|s| - 1]);
      DigitsValue(s[..|s| - 1]) * 10 + (s[|s| - 1] as int - '0' as int)
  }

  /** What `strconv.Atoi` accepts as base-10 syntax: an optional sign and at
      least one digit, nothing else (no spaces, no underscores). */
  predicate HasIntSyntax(s: string) {
    IsDigits(s) || (|s| >= 2 && (s[0] == '+' || s[0] == '-') && IsDigits(s[1..]))
  }

  /** The mathematical value denoted by a string with integer syntax. */
  function DecimalValue(s: string): int
    requires HasIntSyntax(s)
  {
    if IsDigits(s) then DigitsValue(s)
    else if s[0] == '-' then -(DigitsValue(s[1..]) as int)
    else DigitsValue(s[1..])
  }

  /** The pair `(value, err == nil)` that `strconv.Atoi` returns. */
  datatype Parsed = Parsed(value: Int64, ok: bool)

  /** `strconv.Atoi`: a syntax error yields 0, a value outside `int` yields the
      nearest bound together with a range error. */
  function Atoi(s: string): (r: Parsed)
    ensures r.ok <==> HasIntSyntax(s) && MinInt <= DecimalValue(s) <= MaxInt
    ensures r.ok ==> r.value == DecimalValue(s)
    ensures !HasIntSyntax(s) ==> r.value == 0
    ensures HasIntSyntax(s) && DecimalValue(s) > MaxInt ==> r == Parsed(MaxInt, false)
    ensures HasIntSyntax(s) && DecimalValue(s) < MinInt ==> r == Parsed(MinInt, false)
  {
    if !HasIntSyntax(s) then Parsed(0, false)
    else
      var v := DecimalValue(s);
      if v > MaxInt then Parsed(MaxInt, false)
      else if v < MinInt then Parsed(MinInt, false)
      else Parsed(v, true)
  }

  function DigitChar(d: nat): char
    requires d < 10
  {
    ('0' as int + d) as char
  }

  /** Shortest decimal digits of a natural number. */
  function Digits(n: nat): (s: string)
    ensures IsDigits(s)
    decreases n
  {
    if n < 10 then [DigitChar(n)] else Digits(n / 10) + [DigitChar(n % 10)]
  }

  /** `strconv.Itoa`, the formatting partner of `Atoi`. */
  function Itoa(n: int): string {
    if n < 0 then "-" + Digits(-n) else Digits(n)
  }

  lemma {:induction false} DigitsRoundTrip(n: nat)
    ensures DigitsValue(Digits(n)) == n
  {
    if n >= 10 {
      var s := Digits(n);
      assert s[..|s| - 1] == Digits(n / 10);
      DigitsRoundTrip(n / 10);
    }
  }

  /** Every Go `int` survives formatting and parsing back. */
  lemma AtoiItoa(n: Int64)
    ensures Atoi(Itoa(n)) == Parsed(n, true)
  {
    var s := Itoa(n);
    if n < 0 {
      var m: nat := -(n as int);
      assert s[1..] == Digits(m);
      assert !IsDigit(s[0]);
      DigitsRoundTrip(m);
    } else {
      DigitsRoundTrip(n);
    }
  }
}
