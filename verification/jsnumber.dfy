/**
  JavaScript's `Number(value)` applied to a string, as far as the query and
  payload validation need it: whether the result is NaN, an integer (and
  which), or some other number (a fraction or an infinity).
 */
module JsNumber {
  import opened Text

  datatype JsNum = NaN | Int(value: int) | NonInteger

  predicate IsDigit(c: char) {
    '0' <= c <= '9'
  }

  predicate AllDigits(s: string) {
    forall i :: 0 <= i < |s| ==> IsDigit(s[i])
  }

  predicate AllZeros(s: string) {
    forall i :: 0 <= i < |s| ==> s[i] == '0'
  }

  /** The value of a string of decimal digits (the empty string is 0). */
  function DigitsValue(s: string): nat
    requires AllDigits(s)
  {
    if |s| == 0 then 0 else DigitsValue(s[..|s| - 1]) * 10 + (s[|s| - 1] as int - '0' as int)
  }

  /** Position of the first occurrence of `c` in `s`. */
  function IndexOf(s: string, c: char): (k: nat)
    requires c in s
    ensures k < |s| && s[k] == c && c !in s[..k]
  {
    if s[0] == c then 0 else 1 + IndexOf(s[1..], c)
  }

  /** `Number` of an unsigned literal: `Infinity`, digits, or digits with one decimal point. */
  function UnsignedNumber(t: string): JsNum {
    if t == "Infinity" then NonInteger
    else if |t| > 0 && AllDigits(t) then Int(DigitsValue(t))
    else if '.' in t then
      var k := IndexOf(t, '.');
      var whole, fraction := t[..k], t[k + 1..];
      if AllDigits(whole) && AllDigits(fraction) && |whole| + |fraction| > 0 then
        if AllZeros(fraction) then Int(DigitsValue(whole)) else NonInteger
      else NaN
    else NaN
  }

  function Negate(n: JsNum): JsNum {
    match n
    case Int(v) => Int(-v)
    case _ => n
  }

  /**
    `Number(s)` for a string `s`: surrounding white space is ignored, the
    empty string is 0, an optional sign precedes the literal, anything else
    is NaN.
   */
  function ToNumber(s: string): JsNum {
    SignedNumber(Trim(s))
  }

  /** `Number` of a string without surrounding white space. */
  function SignedNumber(t: string): JsNum {
    if |t| == 0 then Int(0)
    else if t[0] == '-' then Negate(UnsignedNumber(t[1..]))
    else if t[0] == '+' then UnsignedNumber(t[1..])
    else UnsignedNumber(t)
  }

  /** The decimal digits of a natural number, without leading zeros. */
  function NatDigits(n: nat): (d: string)
    ensures |d| > 0 && AllDigits(d)
    ensures DigitsValue(d) == n
    decreases n
  {
    var last := ['0' + (n % 10) as char];
    if n < 10 then last
    else
      var d := NatDigits(n / 10) + last;
      assert d[..|d| - 1] == NatDigits(n / 10);
      d
  }

  /** `String(n)` for an integer `n`. */
  function IntToString(n: int): (s: string)
    ensures |s| > 0
    ensures ',' !in s
  {
    if n < 0 then "-" + NatDigits(-n) else NatDigits(n)
  }

  lemma DigitsNotInfinity(d: string)
    requires AllDigits(d)
    ensures d != "Infinity"
  {
    var inf := "Infinity";
    assert !IsDigit(inf[0]);
    if |d| == |inf| {
      assert IsDigit(d[0]);
    }
  }

  /** `Number(String(n)) === n` for every integer `n`. */
  lemma ToNumberOfIntToString(n: int)
    ensures ToNumber(IntToString(n)) == Int(n)
  {
    IntToStringTrimmed(n);
    SignedNumberOfIntToString(n);
  }

  /** `String(n)` starts with a sign or a digit and ends with a digit, so trimming keeps it. */
  lemma IntToStringTrimmed(n: int)
    ensures Trim(IntToString(n)) == IntToString(n)
  {
    var s := IntToString(n);
    var d := NatDigits(if n < 0 then -n else n);
    assert IsDigit(d[0]) && IsDigit(d[|d| - 1]);
    assert s[|s| - 1] == d[|d| - 1];
    assert s[0] == '-' || s[0] == d[0];
    assert !IsSpace(s[0]) && !IsSpace(s[|s| - 1]);
    TrimOfTrimmed(s);
  }

  lemma SignedNumberOfIntToString(n: int)
    ensures SignedNumber(IntToString(n)) == Int(n)
  {
    var s := IntToString(n);
    var d := NatDigits(if n < 0 then -n else n);
    DigitsNotInfinity(d);
    assert d[0] != '-' && d[0] != '+';
    if n < 0 {
      assert s[1..] == d;
    } else {
      assert s == d;
    }
  }

  /** White space around a string does not change its `Number`: `Number(x.trim()) === Number(x)`. */
  lemma ToNumberOfTrim(s: string)
    ensures ToNumber(Trim(s)) == ToNumber(s)
  {
    TrimIdempotent(s);
    assert ToNumber(Trim(s)) == SignedNumber(Trim(Trim(s)));
  }

  /** Every number is an integer (`@IsInt({ each: true })`). */
  predicate AllInts(ns: seq<JsNum>) {
    forall i :: 0 <= i < |ns| ==> ns[i].Int?
  }

  function Ints(ns: seq<JsNum>): (r: seq<int>)
    requires AllInts(ns)
    ensures |r| == |ns| && forall i :: 0 <= i < |ns| ==> ns[i] == Int(r[i])
  {
    seq(|ns|, i requires 0 <= i < |ns| => ns[i].value)
  }

  /** `Nums` undoes `Ints`. */
  lemma NumsOfInts(ns: seq<JsNum>)
    requires AllInts(ns)
    ensures Nums(Ints(ns)) == ns
  {
  }

  /** The numbers of a list of integers, the inverse of `Ints`. */
  function Nums(xs: seq<int>): (r: seq<JsNum>)
    ensures |r| == |xs| && forall i :: 0 <= i < |xs| ==> r[i] == Int(xs[i])
  {
    seq(|xs|, i requires 0 <= i < |xs| => Int(xs[i]))
  }
}
