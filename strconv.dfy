/**
 * Decimal integer text, as Go's `strconv.Atoi` reads it and `strconv.Itoa`
 * writes it, on a 64-bit platform (Go's `int` is 64 bits wide there).
 */
module Strconv {
  import opened Wrappers

  const MIN_INT64: int := -0x8000_0000_0000_0000
  const MAX_INT64: int := 0x7fff_ffff_ffff_ffff

  predicate InInt64(n: int) {
    MIN_INT64 <= n <= MAX_INT64
  }

  predicate IsDigit(c: char) {
    '0' <= c <= '9'
  }

  /** One or more decimal digits and nothing else. */
  predicate IsDecimal(s: string) {
    |s| > 0 && forall i :: 0 <= i < |s| ==> IsDigit(s[i])
  }

  /** The value of a string of decimal digits (leading zeros allowed). */
  function DecimalValue(s: string): nat
    requires forall i :: 0 <= i < |s| ==> IsDigit(s[i])
    decreases |s|
  {
    if s == [] then 0
    else
      assert IsDigit(s[|s| - 1]);
      DecimalValue(s[..|s| - 1]) * 10 + (s[|s| - 1] as int - '0' as int)
  }

  /**
   * `strconv.Atoi`: an optional `+` or `-` sign followed by at least one
   * decimal digit, whose value fits in 64 bits. Anything else (the empty
   * string, a lone sign, spaces, underscores, a value out of range) is a
   * failure.
   */
  function ParseInt(s: string): (r: Option<int>)
    ensures r.Some? ==> InInt64(r.value)
    // accepted text is digits after at most one sign
    ensures r.Some? ==> |s| > 0 && IsDecimal(if s[0] == '+' || s[0] == '-' then s[1..] else s)
    ensures IsDecimal(s) && DecimalValue(s) <= MAX_INT64 ==> r == Some(DecimalValue(s))
    ensures |s| > 0 && s[0] == '-' && IsDecimal(s[1..]) && -(DecimalValue(s[1..]) as int) >= MIN_INT64 ==>
              r == Some(-(DecimalValue(s[1..]) as int))
    ensures |s| > 0 && s[0] == '+' && IsDecimal(s[1..]) && DecimalValue(s[1..]) <= MAX_INT64 ==>
              r == Some(DecimalValue(s[1..]))
  {
    if |s| == 0 then None
    else
      var digits := if s[0] == '+' || s[0] == '-' then s[1..] else s;
      if !IsDecimal(digits) then None
      else
        var v := if s[0] == '-' then -(DecimalValue(digits) as int) else DecimalValue(digits);
        if InInt64(v) then Some(v) else None
  }

  /** Digits whose value does not fit in 64 bits are refused, signed or not. */
  lemma ParseIntRange(s: string)
    ensures IsDecimal(s) && DecimalValue(s) > MAX_INT64 ==> ParseInt(s).None?
    ensures |s| > 0 && s[0] == '+' && IsDecimal(s[1..]) && DecimalValue(s[1..]) > MAX_INT64 ==> ParseInt(s).None?
    ensures |s| > 0 && s[0] == '-' && IsDecimal(s[1..]) && -(DecimalValue(s[1..]) as int) < MIN_INT64 ==> ParseInt(s).None?
  {
  }

  function DigitChar(d: nat): (c: char)
    requires d < 10
    ensures IsDigit(c) && c as int - '0' as int == d
  {
    ('0' as int + d) as char
  }

  /** The shortest decimal text of `n`, without sign or leading zeros. */
  function FormatNat(n: nat): (s: string)
    ensures IsDecimal(s) && DecimalValue(s) == n
    ensures s[0] == '0' ==> s == "0"
    decreases n
  {
    if n < 10 then [DigitChar(n)]
    else
      var prefix := FormatNat(n / 10);
      var s := prefix + [DigitChar(n % 10)];
      assert s[..|s| - 1] == prefix;
      s
  }

  /** `strconv.Itoa`: the decimal text of `n`, which `ParseInt` reads back as `n`. */
  function FormatInt(n: int): (s: string)
    ensures InInt64(n) ==> ParseInt(s) == Some(n)
  {
    if n < 0 then
      var digits := FormatNat(-n);
      assert ("-" + digits)[1..] == digits;
      "-" + digits
    else FormatNat(n)
  }
}
