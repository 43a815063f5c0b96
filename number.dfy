/** The numbers the size computation works with: `parseFloat` on a string, the
    product `width * scale`, and what assigning that product to `canvas.width`
    or `canvas.height` stores. Values are exact reals; binary floating-point
    rounding is not modelled. */
module Number {
  import opened Text

  /** A JavaScript number: `NaN`, a finite value, or an infinity. */
  datatype Number = NaN | Finite(value: real) | Infinite(negative: bool)

  function DigitValue(c: char): nat {
    if IsDigit(c) then c as int - '0' as int else 0
  }

  /** The value of a string of decimal digits. */
  function DigitsValue(ds: string): nat
    decreases |ds|
  {
    if ds == [] then 0 else 10 * DigitsValue(ds[..|ds| - 1]) + DigitValue(ds[|ds| - 1])
  }

  function Pow10(n: nat): (r: nat)
    ensures r >= 1
  {
    if n == 0 then 1 else 10 * Pow10(n - 1)
  }

  /** Ten to the power `e`, for a possibly negative exponent. */
  function Scale10(e: int): real {
    if e >= 0 then Pow10(e) as real else 1.0 / Pow10(-e) as real
  }

  /** The exponent of an `ExponentPart` (`e` or `E`, an optional sign, digits) at
      the start of `s`, or 0 when `s` does not start with one; in that case the
      numeral ends before `s`. */
  function Exponent(s: string): int {
    if s != [] && (s[0] == 'e' || s[0] == 'E') then
      var x := s[1..];
      var neg := x != [] && x[0] == '-';
      var y := if x != [] && (x[0] == '+' || x[0] == '-') then x[1..] else x;
      var d := LeadingRun(y, Digit);
      var v: int := DigitsValue(y[..d]);
      if d == 0 then 0 else if neg then -v else v
    else 0
  }

  /** `parseFloat(s)`: skip leading white space, then read the longest prefix
      that is a `StrDecimalLiteral` (an optional sign, then `Infinity`, or digits
      with an optional fraction and exponent); `NaN` when there is none. */
  function ParseFloat(s: string): Number {
    var t := TrimStart(s, Space);
    if t != [] && t[0] == '-' then Negate(ParseUnsigned(t[1..]))
    else if t != [] && t[0] == '+' then ParseUnsigned(t[1..])
    else ParseUnsigned(t)
  }

  /** The longest prefix of `u` that is a `StrUnsignedDecimalLiteral`. */
  function ParseUnsigned(u: string): Number {
    if |u| >= 8 && u[..8] == "Infinity" then Infinite(false)
    else
      var i := LeadingRun(u, Digit);
      var rest := u[i..];
      if rest != [] && rest[0] == '.' then
        var f := LeadingRun(rest[1..], Digit);
        if i == 0 && f == 0 then NaN
        else Finite(Magnitude(u[..i], rest[1..1 + f], Exponent(rest[1 + f..])))
      else if i == 0 then NaN
      else Finite(Magnitude(u[..i], [], Exponent(rest)))
  }

  /** The value of the numeral `whole.fraction` times ten to the `exponent`. */
  function Magnitude(whole: string, fraction: string, exponent: int): real {
    (DigitsValue(whole) as real + DigitsValue(fraction) as real / Pow10(|fraction|) as real)
    * Scale10(exponent)
  }

  /** Unary minus. */
  function Negate(n: Number): Number {
    match n
    case NaN => NaN
    case Finite(x) => Finite(-x)
    case Infinite(neg) => Infinite(!neg)
  }

  /** `parseFloat(undefined)`: `undefined` is first converted to the string
      `"undefined"`. */
  const Undefined: string := "undefined"

  /** The multiplication `a * b` (the IEEE 754 rules for `NaN`, infinities and
      signs, with exact finite products). */
  function Times(a: Number, b: Number): (r: Number)
    ensures r.NaN? <==> a.NaN? || b.NaN? || (a.Infinite? && b == Finite(0.0)) || (b.Infinite? && a == Finite(0.0))
    ensures a.Finite? && b.Finite? ==> r == Finite(a.value * b.value)
  {
    match (a, b)
    case (NaN, _) => NaN
    case (_, NaN) => NaN
    case (Finite(x), Finite(y)) => Finite(x * y)
    case (Infinite(n), Finite(y)) => if y == 0.0 then NaN else Infinite(n != (y < 0.0))
    case (Finite(x), Infinite(n)) => if x == 0.0 then NaN else Infinite(n != (x < 0.0))
    case (Infinite(n), Infinite(m)) => Infinite(n != m)
  }

  /** The largest value the `width` and `height` attributes of a canvas take. */
  const MaxDimension: nat := 2147483647

  /** Assigning `n` to `canvas.width` (default 300) or `canvas.height` (default
      150): the Web IDL `unsigned long` conversion (`NaN` and infinities become 0,
      the value is truncated toward zero and taken modulo 2^32), then the HTML
      rule for reflected unsigned attributes, which stores the default instead of
      a value above 2147483647. */
  function CanvasDimension(n: Number, default: nat): (r: nat)
    requires default <= MaxDimension
    ensures r <= MaxDimension
    ensures !n.Finite? ==> r == 0
    ensures n.Finite? && 0.0 <= n.value < MaxDimension as real + 1.0 ==> r == n.value.Floor
  {
    match n
    case Finite(x) =>
      var t := if x >= 0.0 then x.Floor else -((-x).Floor);
      var w := t % 0x1_0000_0000;
      if w <= MaxDimension then w else default
    case _ => 0
  }

  /** What the conversion does outside the range it keeps: a value between -1
      and 0 is truncated to 0; a negative whole part of at most 2^31 wraps above
      2147483647, as does a value from 2^31 up to 2^32, and both store the
      default; from 2^32 on the value wraps around modulo 2^32. */
  lemma {:induction false} DimensionEdges(x: real, default: nat)
    requires default <= MaxDimension
    ensures -1.0 < x < 0.0 ==> CanvasDimension(Finite(x), default) == 0
    ensures -2147483648.0 < x <= -1.0 ==> CanvasDimension(Finite(x), default) == default
    ensures 2147483648.0 <= x < 4294967296.0 ==> CanvasDimension(Finite(x), default) == default
    ensures 4294967296.0 <= x < 6442450944.0 ==> CanvasDimension(Finite(x), default) == x.Floor - 4294967296
  {
    if x < 0.0 {
      var y := -x;
      var t := -(y.Floor);
      if -2147483648.0 < x <= -1.0 {
        assert (1.0).Floor == 1 && (2147483648.0).Floor == 2147483648;
        assert 1 <= y.Floor <= 2147483647;
        assert t % 0x1_0000_0000 == t + 0x1_0000_0000;
      } else if x > -1.0 {
        assert t == 0;
      }
    } else if x >= 4294967296.0 && x < 6442450944.0 {
      assert 4294967296 <= x.Floor < 6442450944;
      assert x.Floor % 0x1_0000_0000 == x.Floor - 0x1_0000_0000;
    }
  }

  // ---------------------------------------------------------------------------
  // Decimal numerals

  function DigitChar(d: nat): (c: char)
    requires d < 10
    ensures IsDigit(c) && DigitValue(c) == d
  {
    ('0' as int + d) as char
  }

  /** The decimal numeral of `n`, without leading zeros. */
  function NatToString(n: nat): string
    decreases n
  {
    if n < 10 then [DigitChar(n)] else NatToString(n / 10) + [DigitChar(n % 10)]
  }

  /** A numeral is a non-empty run of digits that denotes its number. */
  lemma {:induction false} NatToStringDigits(n: nat)
    ensures NatToString(n) != [] && AllIn(Digit, NatToString(n))
    ensures DigitsValue(NatToString(n)) == n
    decreases n
  {
    if n >= 10 {
      NatToStringDigits(n / 10);
      var s := NatToString(n);
      assert s[..|s| - 1] == NatToString(n / 10);
    }
  }

  /** `parseFloat` reads a non-empty run of digits as the number it denotes, and
      ignores what follows it when that cannot continue a numeral (`"50px"` is
      read as 50). */
  lemma {:induction false} ParseDigits(s: string, rest: string)
    requires s != [] && AllIn(Digit, s)
    requires rest == [] || (!IsDigit(rest[0]) && rest[0] !in ".eE")
    ensures ParseFloat(s + rest) == Finite(DigitsValue(s) as real)
  {
    var u := s + rest;
    assert u[0] == s[0];
    assert LeadingRun(u, Space) == 0;
    assert TrimStart(u, Space) == u;
    UnsignedDigits(s, rest);
    WholeMagnitude(s);
  }

  lemma {:induction false} UnsignedDigits(s: string, rest: string)
    requires s != [] && AllIn(Digit, s)
    requires rest == [] || (!IsDigit(rest[0]) && rest[0] !in ".eE")
    ensures ParseUnsigned(s + rest) == Finite(Magnitude(s, [], 0))
  {
    var u := s + rest;
    assert !(|u| >= 8 && u[..8] == "Infinity") by {
      if |u| >= 8 { assert u[..8][0] == s[0]; }
    }
    assert u[..|s|] == s && u[|s|..] == rest;
    LeadingRunUnique(u, Digit, |s|);
  }

  /** A numeral without fraction or exponent denotes the value of its digits. */
  lemma {:induction false} WholeMagnitude(s: string)
    ensures Magnitude(s, [], 0) == DigitsValue(s) as real
  {
  }

  /** `parseFloat` reads back the numeral of a natural number. */
  lemma {:induction false} ParseNatToString(n: nat)
    ensures ParseFloat(NatToString(n)) == Finite(n as real)
  {
    NatToStringDigits(n);
    ParseDigits(NatToString(n), []);
    assert NatToString(n) + [] == NatToString(n);
  }

  /** `parseFloat(undefined)` is `NaN`. */
  lemma {:induction false} ParseUndefined()
    ensures ParseFloat(Undefined) == NaN
  {
    var u := Undefined;
    assert LeadingRun(u, Space) == 0;
    assert TrimStart(u, Space) == u;
    assert LeadingRun(u, Digit) == 0;
    assert u[..8] != "Infinity" by {
      assert u[..8][0] == 'u';
    }
  }

  /** A string whose first character after white space cannot begin a numeral
      gives `NaN`. */
  lemma {:induction false} ParseNotNumeral(s: string)
    requires var t := TrimStart(s, Space);
      t != [] && !IsDigit(t[0]) && t[0] !in "+-.I"
    ensures ParseFloat(s) == NaN
  {
    var t := TrimStart(s, Space);
    assert LeadingRun(t, Digit) == 0;
    if |t| >= 8 {
      assert t[..8][0] == t[0];
    }
  }
}
