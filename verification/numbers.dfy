/** JavaScript numbers as the normaliser produces them, and the decimal
    prefix parsers behind `parseInt` and `parseFloat`. Values are exact
    reals: floating-point rounding is not modelled. */
module Numbers {

  /** A JavaScript number: a finite value or NaN. */
  datatype Number = Num(value: real) | NaN

  const Zero: Number := Num(0.0)

  /** JavaScript `+` on numbers: NaN absorbs everything. */
  function Plus(a: Number, b: Number): (r: Number)
    ensures r.NaN? <==> a.NaN? || b.NaN?
    ensures r.Num? ==> r.value == a.value + b.value
  {
    if a.Num? && b.Num? then Num(a.value + b.value) else NaN
  }

  lemma PlusAssociative(a: Number, b: Number, c: Number)
    ensures Plus(Plus(a, b), c) == Plus(a, Plus(b, c))
  {
  }

  lemma PlusCommutative(a: Number, b: Number)
    ensures Plus(a, b) == Plus(b, a)
  {
  }

  /** 0 is the starting value of every running sum: adding it changes nothing, NaN included. */
  lemma PlusZero(a: Number)
    ensures Plus(Zero, a) == a && Plus(a, Zero) == a
  {
  }

  predicate IsDigit(c: char) {
    '0' <= c <= '9'
  }

  predicate AllDigits(d: string) {
    forall i :: 0 <= i < |d| ==> IsDigit(d[i])
  }

  function DigitValue(c: char): (n: nat)
    requires IsDigit(c)
    ensures n < 10
  {
    (c as int) - ('0' as int)
  }

  /** The value of a string of decimal digits, most significant first. */
  function DigitsValue(d: string): nat
    requires AllDigits(d)
  {
    if d == [] then 0 else 10 * DigitsValue(d[..|d| - 1]) + DigitValue(d[|d| - 1])
  }

  /** The length of the longest run of digits at the start of `s`. */
  function DigitRun(s: string): (n: nat)
    ensures n <= |s|
    ensures AllDigits(s[..n])
    ensures n < |s| ==> !IsDigit(s[n])
  {
    if s == [] || !IsDigit(s[0]) then 0
    else
      var k := DigitRun(s[1..]);
      assert s[..k + 1] == [s[0]] + s[1..][..k];
      1 + k
  }

  /** The white-space and line-terminator characters JavaScript's number
      parsers skip: tab, the vertical tab, form feed, the byte-order mark,
      line feed, carriage return, the line and paragraph separators, and
      every character of the Unicode space-separator category. */
  predicate IsSpace(c: char) {
    || c == ' ' || c == '\t' || c == '\n' || c == '\r' || c == '\U{000B}' || c == '\U{000C}'
    || c == '\U{00A0}' || c == '\U{FEFF}' || c == '\U{2028}' || c == '\U{2029}'
    || c == '\U{1680}' || ('\U{2000}' <= c <= '\U{200A}') || c == '\U{202F}' || c == '\U{205F}' || c == '\U{3000}'
  }

  /** `s` without its leading white space. */
  function TrimStart(s: string): (r: string)
    ensures |r| <= |s| && r == s[|s| - |r|..]
    ensures forall i :: 0 <= i < |s| - |r| ==> IsSpace(s[i])
    ensures r == [] || !IsSpace(r[0])
  {
    if s != [] && IsSpace(s[0]) then TrimStart(s[1..]) else s
  }

  /** The text after an optional leading sign, and whether that sign was `-`. */
  function Unsigned(s: string): (string, bool)
  {
    if s != [] && (s[0] == '-' || s[0] == '+') then (s[1..], s[0] == '-') else (s, false)
  }

  function Signed(negative: bool, magnitude: real): Number {
    Num(if negative then -magnitude else magnitude)
  }

  /** `parseInt(s)` in base 10: white space, an optional sign, then the
      longest digit prefix; NaN when there is no digit. */
  function ParseInt(s: string): (r: Number)
    ensures r.NaN? <==> (var u := Unsigned(TrimStart(s)).0; u == [] || !IsDigit(u[0]))
    ensures r.Num? ==> r.value.Floor as real == r.value
  {
    var (u, negative) := Unsigned(TrimStart(s));
    var n := DigitRun(u);
    if n == 0 then NaN
    else
      var m := DigitsValue(u[..n]);
      SignedWhole(negative, m);
      Signed(negative, m as real)
  }

  /** A signed natural number is a whole number. */
  lemma SignedWhole(negative: bool, m: nat)
    ensures Signed(negative, m as real).value.Floor as real == Signed(negative, m as real).value
  {
    var k: int := if negative then -(m as int) else m;
    assert Signed(negative, m as real).value == k as real;
  }

  /** The value of the digits after a decimal point: tenths, hundredths, and so on. */
  function FractionValue(f: string): (v: real)
    requires AllDigits(f)
    ensures f == [] ==> v == 0.0
  {
    if f == [] then 0.0 else (DigitValue(f[0]) as real + FractionValue(f[1..])) / 10.0
  }

  /** The digits `parseFloat` reads from unsigned text: the digit run, and
      the digit run after a `.` that directly follows it (empty when there is
      no such point). */
  function FloatPrefix(u: string): (p: (string, string))
    ensures AllDigits(p.0) && AllDigits(p.1)
    ensures p.0 == u[..DigitRun(u)]
    ensures p.1 != [] ==> |p.0| < |u| && u[|p.0|] == '.'
  {
    var n := DigitRun(u);
    var rest := u[n..];
    var after := if rest != [] && rest[0] == '.' then rest[1..] else [];
    (u[..n], after[..DigitRun(after)])
  }

  /** `parseFloat(s)` without exponents or `Infinity`: white space, an
      optional sign, then the longest prefix of the form digits, optionally
      followed by `.` and more digits; NaN when that prefix has no digit. */
  function ParseFloat(s: string): (r: Number)
    ensures ParseInt(s).Num? ==> r.Num?
  {
    var (u, negative) := Unsigned(TrimStart(s));
    var (whole, fraction) := FloatPrefix(u);
    if whole == [] && fraction == [] then NaN
    else Signed(negative, DigitsValue(whole) as real + FractionValue(fraction))
  }

  /** The shortest decimal numeral of `n`. */
  function Decimal(n: nat): (d: string)
    ensures d != [] && AllDigits(d)
    ensures d[0] == '0' ==> n == 0
  {
    if n < 10 then ['0' + n as char] else Decimal(n / 10) + ['0' + (n % 10) as char]
  }

  /** Reading back a numeral gives the number it was written from. */
  lemma {:induction false} DecimalValue(n: nat)
    ensures DigitsValue(Decimal(n)) == n
  {
    var d := Decimal(n);
    if n >= 10 {
      DecimalValue(n / 10);
      assert d[..|d| - 1] == Decimal(n / 10);
    }
  }

  /** A digit run stops exactly at the first non-digit after the numeral. */
  lemma {:induction false} DigitRunOfNumeral(d: string, tail: string)
    requires AllDigits(d)
    requires tail == [] || !IsDigit(tail[0])
    ensures DigitRun(d + tail) == |d|
    decreases |d|
  {
    var s := d + tail;
    if d != [] {
      assert s[0] == d[0] && IsDigit(s[0]);
      assert s[1..] == d[1..] + tail;
      DigitRunOfNumeral(d[1..], tail);
      assert DigitRun(s) == 1 + DigitRun(s[1..]);
    } else {
      assert s == tail;
    }
  }

  /** The unsigned part of a numeral followed by `tail`, as both parsers see it. */
  lemma NumeralPrefix(d: string, tail: string)
    requires d != [] && AllDigits(d)
    requires tail == [] || !IsDigit(tail[0])
    ensures TrimStart(d + tail) == d + tail
    ensures Unsigned(d + tail) == (d + tail, false)
    ensures DigitRun(d + tail) == |d|
    ensures (d + tail)[..|d|] == d && (d + tail)[|d|..] == tail
  {
    assert (d + tail)[0] == d[0];
    DigitRunOfNumeral(d, tail);
  }

  /** `parseInt` reads the digits of a numeral, ignoring whatever non-digit text
      follows it, unless a lone `0` and an `x` make a hexadecimal prefix. */
  lemma ParseIntDigits(d: string, tail: string)
    requires d != [] && AllDigits(d)
    requires tail == [] || !IsDigit(tail[0])
    requires d == "0" ==> tail == [] || (tail[0] != 'x' && tail[0] != 'X')
    ensures ParseInt(d + tail) == Num(DigitsValue(d) as real)
  {
    NumeralPrefix(d, tail);
  }

  /** `parseInt` reads back a numeral, ignoring whatever non-digit text follows
      it, unless `0` and an `x` make a hexadecimal prefix. */
  lemma ParseIntNumeral(n: nat, tail: string)
    requires tail == [] || !IsDigit(tail[0])
    requires n == 0 ==> tail == [] || (tail[0] != 'x' && tail[0] != 'X')
    ensures ParseInt(Decimal(n) + tail) == Num(n as real)
  {
    DecimalValue(n);
    ParseIntDigits(Decimal(n), tail);
  }

  /** A minus sign directly before a digit negates what `parseInt` reads. */
  lemma ParseIntMinus(u: string)
    requires u != [] && IsDigit(u[0])
    ensures ParseInt(['-'] + u).Num? && ParseInt(u).Num?
    ensures ParseInt(['-'] + u).value == -ParseInt(u).value
  {
    var m := ['-'] + u;
    assert m[1..] == u;
    assert TrimStart(m) == m by {
      assert !IsSpace(m[0]);
    }
    assert TrimStart(u) == u by {
      assert !IsSpace(u[0]);
    }
  }

  /** A leading minus sign negates what `parseInt` reads. */
  lemma ParseIntNegativeNumeral(n: nat, tail: string)
    requires tail == [] || !IsDigit(tail[0])
    requires n == 0 ==> tail == [] || (tail[0] != 'x' && tail[0] != 'X')
    ensures ParseInt("-" + Decimal(n) + tail) == Num(-(n as real))
  {
    var d := Decimal(n);
    var u := d + tail;
    assert "-" + d + tail == ['-'] + u by {
      assert "-" == ['-'];
    }
    ParseIntNumeral(n, tail);
    assert u[0] == d[0];
    ParseIntMinus(u);
  }

  /** `parseFloat` reads the digits of a numeral, ignoring a tail that cannot
      continue it as a fraction or an exponent. */
  lemma ParseFloatDigits(d: string, tail: string)
    requires d != [] && AllDigits(d)
    requires tail == [] || (!IsDigit(tail[0]) && tail[0] != '.' && tail[0] != 'e' && tail[0] != 'E')
    ensures ParseFloat(d + tail) == Num(DigitsValue(d) as real)
  {
    NumeralPrefix(d, tail);
    assert FloatPrefix(d + tail) == (d, []);
  }

  /** `parseFloat` reads back an integer numeral, ignoring a tail that cannot
      continue it as a fraction or an exponent. */
  lemma ParseFloatNumeral(n: nat, tail: string)
    requires tail == [] || (!IsDigit(tail[0]) && tail[0] != '.' && tail[0] != 'e' && tail[0] != 'E')
    ensures ParseFloat(Decimal(n) + tail) == Num(n as real)
  {
    DecimalValue(n);
    ParseFloatDigits(Decimal(n), tail);
  }

  /** How `parseFloat` sees a numeral, a point, more digits and a tail: no
      white space, no sign, and the numeral and the digits after the point. */
  lemma FractionPrefix(d: string, f: string, tail: string)
    requires d != [] && AllDigits(d) && AllDigits(f)
    requires tail == [] || !IsDigit(tail[0])
    ensures var s := d + (['.'] + (f + tail));
      TrimStart(s) == s && Unsigned(s) == (s, false) && FloatPrefix(s) == (d, f)
  {
    var rest := ['.'] + (f + tail);
    NumeralPrefix(d, rest);
    assert (d + rest)[|d|..] == rest && rest[1..] == f + tail;
    DigitRunOfNumeral(f, tail);
    assert (f + tail)[..|f|] == f;
  }

  /** Unsigned text with no leading white space and no exponent mark after
      its numeral parses to the value of the digits `d` before and `f` after
      its point. */
  lemma ParseFloatUnsigned(s: string, d: string, f: string)
    requires (d != [] || f != []) && AllDigits(d) && AllDigits(f)
    requires TrimStart(s) == s && Unsigned(s) == (s, false) && FloatPrefix(s) == (d, f)
    requires var k := if |d| < |s| && s[|d|] == '.' then |d| + 1 + |f| else |d|;
      k < |s| ==> s[k] != 'e' && s[k] != 'E'
    ensures ParseFloat(s) == Num(DigitsValue(d) as real + FractionValue(f))
  {
  }

  /** Writing out a numeral with a point groups to the right. */
  lemma PointedText(d: string, f: string, tail: string)
    ensures d + "." + f + tail == d + (['.'] + (f + tail))
  {
    assert "." == ['.'];
  }

  /** `parseFloat` of a numeral, a point, more digits and a tail. */
  lemma ParseFloatPointed(d: string, f: string, tail: string)
    requires d != [] && AllDigits(d) && AllDigits(f)
    requires tail == [] || (!IsDigit(tail[0]) && tail[0] != 'e' && tail[0] != 'E')
    ensures ParseFloat(d + (['.'] + (f + tail))) == Num(DigitsValue(d) as real + FractionValue(f))
  {
    var s := d + (['.'] + (f + tail));
    FractionPrefix(d, f, tail);
    assert s[|d|] == '.' && s[|d| + 1 + |f|..] == tail;
    ParseFloatUnsigned(s, d, f);
  }

  /** `parseFloat` reads a numeral with a fraction: the digits after the point
      count in tenths, hundredths, and so on, up to a tail that starts with
      neither a digit nor an exponent mark. */
  lemma ParseFloatFraction(d: string, f: string, tail: string)
    requires d != [] && AllDigits(d) && f != [] && AllDigits(f)
    requires tail == [] || (!IsDigit(tail[0]) && tail[0] != 'e' && tail[0] != 'E')
    ensures ParseFloat(d + "." + f + tail) == Num(DigitsValue(d) as real + FractionValue(f))
  {
    PointedText(d, f, tail);
    ParseFloatPointed(d, f, tail);
  }

  /** Text that starts with neither white space, a sign, a point, a digit nor
      the `I` of `Infinity` parses to NaN, never to 0. */
  lemma NonNumericIsNaN(s: string)
    requires s != [] && !IsDigit(s[0]) && !IsSpace(s[0]) && s[0] != '-' && s[0] != '+' && s[0] != '.' && s[0] != 'I'
    ensures ParseInt(s) == NaN
    ensures ParseFloat(s) == NaN
  {
    assert TrimStart(s) == s;
  }
}
