/**
 Go's `strconv.ParseFloat(s, 64)`, kept abstract: a `Parser` maps a string to
 the number it denotes, or to `None` where ParseFloat returns an error. The
 whole program calls the same parser, so every module takes the same `Parser`.
 `Decimal` is one concrete parser: the plain decimal notation.
 */
module Strconv {
  import opened Results

  type Parser = string -> Option<real>

  /** ParseFloat accepts `s` (returns a nil error). */
  predicate IsNumber(parse: Parser, s: string) {
    parse(s).Some?
  }

  /** ParseFloat rejects the empty string. */
  predicate RejectsEmpty(parse: Parser) {
    !IsNumber(parse, "")
  }

  /** The value of `price, _ := strconv.ParseFloat(s, 64)`: the error is
      ignored, and a string that does not parse counts as 0. */
  function ValueOrZero(parse: Parser, s: string): (v: real)
    ensures IsNumber(parse, s) ==> Some(v) == parse(s)
    ensures !IsNumber(parse, s) ==> v == 0.0
  {
    parse(s).GetOr(0.0)
  }

  predicate IsDigit(c: char) {
    '0' <= c <= '9'
  }

  predicate AllDigits(s: string) {
    forall i :: 0 <= i < |s| ==> IsDigit(s[i])
  }

  /** The characters a plain decimal number is written with. */
  predicate IsDecimalChar(c: char) {
    IsDigit(c) || c == '.' || c == '+' || c == '-'
  }

  /** The natural number a string of decimal digits denotes. */
  function DigitsValue(ds: string): nat
    requires AllDigits(ds)
  {
    if |ds| == 0 then 0
    else DigitsValue(ds[..|ds| - 1]) * 10 + (ds[|ds| - 1] as int - '0' as int)
  }

  function Pow10(n: nat): (p: nat)
    ensures p >= 1
  {
    if n == 0 then 1 else 10 * Pow10(n - 1)
  }

  /** The position of the first '.' in `s`, or |s| when there is none. */
  function IndexOfDot(s: string): (k: nat)
    ensures k <= |s|
    ensures k < |s| ==> s[k] == '.'
    ensures forall j :: 0 <= j < k ==> s[j] != '.'
  {
    if |s| == 0 || s[0] == '.' then 0 else 1 + IndexOfDot(s[1..])
  }

  /** Plain decimal notation: an optional sign, then digits with at most one
      decimal point and at least one digit ("12", "-0.5", "3.", ".25"). */
  function Decimal(s: string): (r: Option<real>)
    ensures r.Some? ==> |s| > 0 && forall i :: 0 <= i < |s| ==> IsDecimalChar(s[i])
  {
    var signed := |s| > 0 && (s[0] == '+' || s[0] == '-');
    var body := if signed then s[1..] else s;
    var dot := IndexOfDot(body);
    var whole := body[..dot];
    var frac := if dot < |body| then body[dot + 1..] else "";
    if AllDigits(whole) && AllDigits(frac) && |whole| + |frac| > 0 then
      assert forall i :: 0 <= i < |body| ==> IsDecimalChar(body[i]) by {
        forall i | 0 <= i < |body|
          ensures IsDecimalChar(body[i])
        {
          if i < dot {
            assert body[i] == whole[i];
          } else if i > dot {
            assert body[i] == frac[i - dot - 1];
          }
        }
      }
      assert signed ==> s == [s[0]] + body;
      var magnitude := DigitsValue(whole) as real + DigitsValue(frac) as real / Pow10(|frac|) as real;
      Some(if |s| > 0 && s[0] == '-' then -magnitude else magnitude)
    else
      None
  }
}
