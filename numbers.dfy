/** `tof64` (main.go:103-106): every field of a data line is read with
    `strconv.ParseFloat(v, 64)` and the error is thrown away, so a token that
    is not a number reads as 0.

    `ParseNum` stands in for `strconv.ParseFloat` on decimal literals: an
    optional sign, digits with an optional fractional part (at least one digit
    in all) and an optional exponent. Values are exact reals. */
module Numbers {
  import opened Wrappers

  /** An ASCII decimal digit. */
  predicate IsDigit(c: char) {
    '0' <= c <= '9'
  }

  /** `s` holds only digits. */
  predicate AllDigits(s: string) {
    forall i :: 0 <= i < |s| ==> IsDigit(s[i])
  }

  /** `s` holds at least one digit. */
  predicate HasDigit(s: string) {
    exists i :: 0 <= i < |s| && IsDigit(s[i])
  }

  /** Length of the longest prefix of `s` made of digits. */
  function DigitsEnd(s: string): (n: nat)
    ensures n <= |s| && AllDigits(s[..n])
    ensures n < |s| ==> !IsDigit(s[n])
  {
    if |s| > 0 && IsDigit(s[0]) then
      var m := DigitsEnd(s[1..]);
      assert s[..m + 1] == [s[0]] + s[1..][..m];
      1 + m
    else 0
  }

  /** The number a string of decimal digits denotes. */
  function DecimalValue(d: string): nat
    requires AllDigits(d)
    decreases |d|
  {
    if d == "" then 0
    else 10 * DecimalValue(d[..|d| - 1]) + (d[|d| - 1] as int - '0' as int)
  }

  /** Ten to the power `n`. */
  function Pow10(n: nat): (r: nat)
    ensures r > 0
  {
    if n == 0 then 1 else 10 * Pow10(n - 1)
  }

  /** An unsigned decimal ("12", "12.5", "12.", ".5") at the start of `s`,
      with at least one digit: its value and the unread rest of `s`. */
  function ParseMantissa(s: string): (r: Option<(real, string)>)
    ensures r.Some? ==> HasDigit(s)
  {
    var n := DigitsEnd(s);
    var whole := DecimalValue(s[..n]) as real;
    if n < |s| && s[n] == '.' then
      var f := s[n + 1..];
      var m := DigitsEnd(f);
      if n + m == 0 then None
      else
        assert n == 0 ==> s[n + 1] == f[0] && IsDigit(f[0]);
        assert n > 0 ==> s[..n][0] == s[0];
        Some((whole + DecimalValue(f[..m]) as real / Pow10(m) as real, f[m..]))
    else if n == 0 then None
    else
      assert s[..n][0] == s[0];
      Some((whole, s[n..]))
  }

  /** The exponent part that ends a literal: nothing, or `e`/`E`, an optional
      sign and at least one digit, with nothing after them. */
  function ParseExponent(s: string): Option<int>
  {
    if s == "" then Some(0)
    else if s[0] != 'e' && s[0] != 'E' then None
    else
      var t := s[1..];
      var negative := |t| > 0 && t[0] == '-';
      var digits := if |t| > 0 && (t[0] == '-' || t[0] == '+') then t[1..] else t;
      var n := DigitsEnd(digits);
      if n == 0 || n < |digits| then None
      else
        assert digits[..n] == digits;
        var e: int := DecimalValue(digits);
        Some(if negative then -e else e)
  }

  /** `x` times ten to the power `e`. */
  function Scale(x: real, e: int): real {
    if e >= 0 then x * Pow10(e) as real else x / Pow10(-e) as real
  }

  /** The number a whole token denotes, or `None` when the token is not a
      decimal literal. */
  function ParseNum(s: string): (r: Option<real>)
    ensures r.Some? ==> HasDigit(s)
  {
    var signed := |s| > 0 && (s[0] == '-' || s[0] == '+');
    var body := if signed then s[1..] else s;
    match ParseMantissa(body)
    case None => None
    case Some((m, rest)) =>
      match ParseExponent(rest)
      case None => None
      case Some(e) =>
        var v := Scale(m, e);
        assert HasDigit(body);
        assert signed ==> forall i :: 0 <= i < |body| ==> body[i] == s[i + 1];
        Some(if signed && s[0] == '-' then -v else v)
  }

  /** `tof64`: the value of a token, 0 when it is not a number. */
  function ToF64(s: string): (r: real)
    ensures !HasDigit(s) ==> r == 0.0
  {
    ParseNum(s).GetOr(0.0)
  }

  /** A token without a single digit, the empty token among them, reads as 0. */
  lemma ToF64NoDigit(s: string)
    requires !HasDigit(s)
    ensures ToF64(s) == 0.0
  {
  }

  /** The digit character for `d`. */
  function DigitChar(d: nat): (c: char)
    requires d < 10
    ensures IsDigit(c) && c as int - '0' as int == d
  {
    ('0' as int + d) as char
  }

  /** The decimal numeral of a natural number, as jstat prints counts. */
  function DecimalString(n: nat): (s: string)
    ensures |s| > 0 && AllDigits(s)
    decreases n
  {
    if n < 10 then [DigitChar(n)]
    else DecimalString(n / 10) + [DigitChar(n % 10)]
  }

  /** `DecimalValue` reads back what `DecimalString` prints. */
  lemma {:induction false} DecimalValueOfString(n: nat)
    ensures DecimalValue(DecimalString(n)) == n
    decreases n
  {
    if n >= 10 {
      var s := DecimalString(n);
      DecimalValueOfString(n / 10);
      assert s[..|s| - 1] == DecimalString(n / 10);
    }
  }

  /** A non-empty run of digits is read whole as a mantissa. */
  lemma MantissaOfDigits(s: string)
    requires |s| > 0 && AllDigits(s)
    ensures ParseMantissa(s) == Some((DecimalValue(s) as real, ""))
  {
    assert DigitsEnd(s) == |s|;
    assert s[..|s|] == s;
    assert s[|s|..] == "";
  }

  /** Reading back a printed natural number gives that number. */
  lemma ToF64Decimal(n: nat)
    ensures ParseNum(DecimalString(n)) == Some(n as real)
    ensures ToF64(DecimalString(n)) == n as real
  {
    var s := DecimalString(n);
    DecimalValueOfString(n);
    MantissaOfDigits(s);
    assert IsDigit(s[0]);
    assert ParseExponent("") == Some(0);
    assert Scale(n as real, 0) == n as real;
  }

  /** Reading back a printed negative whole number gives that number. */
  lemma ToF64NegativeDecimal(n: nat)
    ensures ToF64("-" + DecimalString(n)) == -(n as real)
  {
    var d := DecimalString(n);
    var s := "-" + d;
    DecimalValueOfString(n);
    MantissaOfDigits(d);
    assert s[1..] == d;
    assert ParseExponent("") == Some(0);
  }
}
