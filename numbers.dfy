/** Decimal text to numbers and back: the part of Python's `int()`, `str()`
    and `float()` the converter relies on. */
module Numbers {
  import opened Results
  import opened Text

  predicate IsDigit(c: char) { '0' <= c <= '9' }

  predicate AllDigits(s: string) {
    forall k :: 0 <= k < |s| ==> IsDigit(s[k])
  }

  /** The value of a digit string read as a decimal numeral ("" reads as 0). */
  function DigitsValue(s: string): nat
    requires AllDigits(s)
  {
    if |s| == 0 then 0
    else 10 * DigitsValue(s[..|s| - 1]) + (s[|s| - 1] as int - '0' as int)
  }

  function DigitChar(d: nat): (c: char)
    requires d < 10
    ensures IsDigit(c) && c as int - '0' as int == d
  {
    ('0' as int + d) as char
  }

  /** `str(n)` for a non-negative integer. */
  function NatToString(n: nat): (s: string)
    ensures |s| >= 1 && AllDigits(s) && DigitsValue(s) == n
  {
    if n < 10 then [DigitChar(n)]
    else
      var s := NatToString(n / 10) + [DigitChar(n % 10)];
      assert s[..|s| - 1] == NatToString(n / 10);
      s
  }

  /** `str(i)` */
  function IntToString(i: int): string {
    if i < 0 then "-" + NatToString(-i) else NatToString(i)
  }

  lemma DigitsHaveNo(s: string, c: char)
    requires AllDigits(s) && !IsDigit(c)
    ensures c !in s
  {
  }

  /** The text `int()` accepts: an optional sign followed by at least one digit. */
  predicate IntText(s: string) {
    || (|s| > 0 && AllDigits(s))
    || (|s| > 1 && (s[0] == '-' || s[0] == '+') && AllDigits(s[1..]))
  }

  /** `int(s)`: an optional sign followed by at least one digit. */
  function ParseInt(s: string): (r: Result<int>)
    ensures r.Ok? <==> IntText(s)
    ensures r.Err? ==> r.error == ParseError(s)
    ensures |s| > 0 && AllDigits(s) ==> r == Ok(DigitsValue(s))
    ensures |s| > 1 && s[0] == '-' && AllDigits(s[1..]) ==> r == Ok(0 - DigitsValue(s[1..]))
    ensures |s| > 1 && s[0] == '+' && AllDigits(s[1..]) ==> r == Ok(DigitsValue(s[1..]))
    ensures |s| == 0 || (!IsDigit(s[0]) && s[0] != '-' && s[0] != '+') ==> r == Err(ParseError(s))
  {
    var signed := |s| > 0 && (s[0] == '-' || s[0] == '+');
    var digits := if signed then s[1..] else s;
    if |digits| == 0 || !AllDigits(digits) then Err(ParseError(s))
    else
      var n: int := DigitsValue(digits);
      Ok(if signed && s[0] == '-' then -n else n)
  }

  /** Rendering an integer and parsing it back gives the integer. */
  lemma ParseIntOfIntToString(i: int)
    ensures ParseInt(IntToString(i)) == Ok(i)
  {
    if i < 0 {
      assert ("-" + NatToString(-i))[1..] == NatToString(-i);
    }
  }

  function Pow10(n: nat): (p: nat)
    ensures p >= 1
  {
    if n == 0 then 1 else 10 * Pow10(n - 1)
  }

  /** The value of the numeral `whole.fraction`. */
  function Magnitude(whole: string, fraction: string): real
    requires AllDigits(whole) && AllDigits(fraction)
  {
    DigitsValue(whole) as real + DigitsValue(fraction) as real / Pow10(|fraction|) as real
  }

  /** Digits around one '.', with at least one digit in all. */
  predicate PointNumeral(b: string) {
    |b| > 1 && exists i :: 0 <= i < |b| && b[i] == '.' && AllDigits(b[..i]) && AllDigits(b[i + 1..])
  }

  /** The text `float()` reads here: an optional sign, then digits with at
      most one '.', and at least one digit in all. */
  predicate DecimalText(s: string) {
    var body := if |s| > 0 && (s[0] == '-' || s[0] == '+') then s[1..] else s;
    (|body| > 0 && AllDigits(body)) || PointNumeral(body)
  }

  /** `float(s)` on plain decimal text: an optional sign, digits, and at most
      one '.', with at least one digit in all. The value is exact. */
  function ParseDecimal(s: string): (r: Result<real>)
    ensures r.Ok? <==> DecimalText(s)
    ensures r.Err? ==> r.error == ParseError(s)
    ensures |s| > 0 && AllDigits(s) ==> r == Ok(DigitsValue(s) as real)
    ensures |s| == 0 ==> r == Err(ParseError(s))
  {
    var signed := |s| > 0 && (s[0] == '-' || s[0] == '+');
    var body := if signed then s[1..] else s;
    DecimalValueAccepts(body);
    match DecimalValue(body)
    case None => Err(ParseError(s))
    case Some(m) => Ok(if signed && s[0] == '-' then -m else m)
  }

  /** The value of unsigned decimal text: the digits before the first '.'
      and the digits after it. */
  function DecimalValue(b: string): (r: Option<real>)
    ensures |b| > 0 && AllDigits(b) ==> r == Some(DigitsValue(b) as real)
  {
    var whole := if '.' in b then b[..FirstIndex(b, '.')] else b;
    var fraction := if '.' in b then b[FirstIndex(b, '.') + 1..] else "";
    if !AllDigits(whole) || !AllDigits(fraction) || |whole| + |fraction| == 0 then None
    else Some(Magnitude(whole, fraction))
  }

  /** `DecimalValue` reads exactly the unsigned decimal texts. */
  lemma DecimalValueAccepts(b: string)
    ensures DecimalValue(b).Some? <==> (|b| > 0 && AllDigits(b)) || PointNumeral(b)
  {
    DecimalShape(b);
  }

  /** Splitting at the first '.' accepts exactly the unsigned decimal texts. */
  lemma DecimalShape(b: string)
    ensures '.' !in b ==> ((|b| > 0 && AllDigits(b)) || PointNumeral(b) <==> |b| > 0 && AllDigits(b))
    ensures '.' in b ==>
              var i := FirstIndex(b, '.');
              (AllDigits(b[..i]) && AllDigits(b[i + 1..]) && |b| > 1) <==> (|b| > 0 && AllDigits(b)) || PointNumeral(b)
  {
    if PointNumeral(b) {
      var j :| 0 <= j < |b| && b[j] == '.' && AllDigits(b[..j]) && AllDigits(b[j + 1..]);
      FirstPoint(b, j);
    }
    if '.' in b {
      assert b[FirstIndex(b, '.')] == '.';
    }
  }

  /** A '.' with only digits before it is the first '.'. */
  lemma FirstPoint(b: string, j: nat)
    requires j < |b| && b[j] == '.' && AllDigits(b[..j])
    ensures '.' in b && FirstIndex(b, '.') == j
  {
    DigitsHaveNo(b[..j], '.');
    FirstIndexAfter(b[..j], '.', b[j + 1..]);
    assert b[..j] + ['.'] + b[j + 1..] == b;
  }

  /** A leading '-' negates what `float()` reads, and a leading '+' changes
      nothing; either way the text reads exactly when the unsigned one does. */
  lemma ParseDecimalSigned(t: string)
    requires |t| > 0 && t[0] != '-' && t[0] != '+'
    ensures ParseDecimal("-" + t).Ok? <==> ParseDecimal(t).Ok?
    ensures ParseDecimal("+" + t).Ok? <==> ParseDecimal(t).Ok?
    ensures ParseDecimal(t).Ok? ==> ParseDecimal("-" + t) == Ok(-ParseDecimal(t).value)
    ensures ParseDecimal(t).Ok? ==> ParseDecimal("+" + t) == ParseDecimal(t)
  {
    SignDropped("-", t);
    SignDropped("+", t);
  }

  /** Reading signed text reads the text after its sign. */
  lemma SignDropped(sign: string, t: string)
    requires sign == "-" || sign == "+"
    requires |t| > 0 && t[0] != '-' && t[0] != '+'
    ensures ParseDecimal(sign + t).Ok? <==> ParseDecimal(t).Ok?
    ensures ParseDecimal(t).Ok? ==> ParseDecimal(sign + t) == Ok(if sign == "-" then -ParseDecimal(t).value else ParseDecimal(t).value)
  {
    assert (sign + t)[1..] == t;
    assert ParseDecimal(t).Ok? <==> DecimalValue(t).Some?;
    assert ParseDecimal(t).Ok? ==> ParseDecimal(t).value == DecimalValue(t).value;
  }

  /** Integer text reads as the same number through either parser. */
  lemma ParseDecimalOfIntToString(i: int)
    ensures ParseDecimal(IntToString(i)) == Ok(i as real)
  {
    var digits := NatToString(if i < 0 then -i else i);
    DigitsHaveNo(digits, '.');
    if i < 0 {
      assert ("-" + digits)[1..] == digits;
    }
  }

  /** Unsigned digits, a point and digits read as the numeral they spell. */
  lemma ParseDecimalPoint(w: string, fraction: string)
    requires |w| > 0 && AllDigits(w) && AllDigits(fraction)
    ensures ParseDecimal(w + "." + fraction) == Ok(Magnitude(w, fraction))
  {
    var s := w + "." + fraction;
    DigitsHaveNo(w, '.');
    assert s[0] == w[0];
    FirstIndexAfter(w, '.', fraction);
    assert s[..|w|] == w;
    assert s[|w| + 1..] == fraction;
    UnsignedDecimal(s, w, fraction);
  }

  /** Text starting with a digit and holding a point reads as the numeral of
      the digits before and after its first point. */
  lemma UnsignedDecimal(s: string, whole: string, fraction: string)
    requires |s| > 0 && IsDigit(s[0]) && '.' in s
    requires whole == s[..FirstIndex(s, '.')] && fraction == s[FirstIndex(s, '.') + 1..]
    requires AllDigits(whole) && AllDigits(fraction)
    ensures ParseDecimal(s) == Ok(Magnitude(whole, fraction))
  {
    assert s[0] != '-' && s[0] != '+' && s[0] != '.';
    assert |whole| > 0;
    assert DecimalValue(s) == Some(Magnitude(whole, fraction));
  }
}
