/**
  Decimal text for numbers: Rust's `str::parse::<f64>` and the `{}`
  formatting of an `f64`, both read over exact reals. Only finite decimal
  literals are modelled; see the README for what that leaves out.
*/
module Numerals {
  import opened Wrappers

  predicate IsDigit(c: char) {
    '0' <= c <= '9'
  }

  predicate AllDigits(s: string) {
    forall i :: 0 <= i < |s| ==> IsDigit(s[i])
  }

  /** `s` holds at least one decimal digit. */
  predicate HasDigit(s: string) {
    exists i :: 0 <= i < |s| && IsDigit(s[i])
  }

  /** A character that may appear in a decimal literal. */
  predicate LiteralChar(c: char) {
    IsDigit(c) || c == '.' || c == '+' || c == '-' || c == 'e' || c == 'E'
  }

  /** Text made of literal characters only. */
  predicate LiteralText(s: string) {
    forall i :: 0 <= i < |s| ==> LiteralChar(s[i])
  }

  /** The shape of a non-negative number as the formatter writes it: digits
      with at most one decimal point between two of them, and a leading 0
      only when it is the whole integer part. */
  predicate PlainNumeral(t: string) {
    && |t| >= 1 && IsDigit(t[0]) && IsDigit(t[|t| - 1])
    && (forall i :: 0 <= i < |t| ==> IsDigit(t[i]) || t[i] == '.')
    && (forall i, j :: 0 <= i < j < |t| && t[i] == '.' ==> t[j] != '.')
    && (t[0] == '0' ==> |t| == 1 || t[1] == '.')
  }

  function DigitValue(c: char): nat
    requires IsDigit(c)
  {
    c as int - '0' as int
  }

  function DigitChar(n: nat): (c: char)
    requires n < 10
    ensures IsDigit(c) && DigitValue(c) == n
  {
    ('0' as int + n) as char
  }

  function Pow10(k: nat): (p: nat)
    ensures p >= 1
  {
    if k == 0 then 1 else 10 * Pow10(k - 1)
  }

  /** 10 raised to a possibly negative exponent. */
  function Scale(e: int): (r: real)
    ensures r > 0.0
  {
    if e >= 0 then Pow10(e) as real else 1.0 / Pow10(-e) as real
  }

  /** The value of a string of decimal digits, most significant first. */
  function DigitsValue(s: string): nat
    requires AllDigits(s)
    decreases |s|
  {
    if s == [] then 0 else DigitsValue(s[..|s| - 1]) * 10 + DigitValue(s[|s| - 1])
  }

  /** The shortest decimal numeral of `n`. */
  function NatDigits(n: nat): (s: string)
    ensures 1 <= |s| && AllDigits(s)
    ensures DigitsValue(s) == n
    ensures n < 10 ==> |s| == 1
    ensures s[0] == '0' <==> n == 0
  {
    if n < 10 then
      [DigitChar(n)]
    else
      var s := NatDigits(n / 10) + [DigitChar(n % 10)];
      assert s[..|s| - 1] == NatDigits(n / 10);
      s
  }

  function Zeros(k: nat): (s: string)
    ensures |s| == k && AllDigits(s)
  {
    seq(k, _ => '0')
  }

  /** Position of the first `c` in `s`, or `|s|` when there is none. */
  function IndexOf(s: string, c: char): (i: nat)
    ensures i <= |s|
    ensures i < |s| ==> s[i] == c
    ensures forall j :: 0 <= j < i ==> s[j] != c
  {
    if s == [] then 0 else if s[0] == c then 0 else 1 + IndexOf(s[1..], c)
  }

  // ---------------------------------------------------------------------
  // Parsing: `[+-]? (digits [. digits?] | . digits) ([eE] [+-]? digits)?`

  /** An exponent: an optional sign and at least one digit. */
  function ParseExponent(s: string): (r: Option<int>)
    ensures r.Some? ==> LiteralText(s)
  {
    if |s| > 0 && (s[0] == '+' || s[0] == '-') then
      if |s| > 1 && AllDigits(s[1..]) then
        assert forall i :: 1 <= i < |s| ==> s[i] == s[1..][i - 1];
        Some(if s[0] == '-' then -(DigitsValue(s[1..]) as int) else DigitsValue(s[1..]))
      else None
    else if |s| > 0 && AllDigits(s) then Some(DigitsValue(s))
    else None
  }

  /** Digits with at most one decimal point and at least one digit. */
  function ParseMantissa(s: string): (r: Option<real>)
    ensures r.Some? ==> HasDigit(s) && r.value >= 0.0
    ensures r.Some? ==> forall i :: 0 <= i < |s| ==> IsDigit(s[i]) || s[i] == '.'
  {
    var p := IndexOf(s, '.');
    var whole := s[..p];
    var fraction := if p < |s| then s[p + 1..] else [];
    if |whole| + |fraction| >= 1 && AllDigits(whole) && AllDigits(fraction) then
      assert AllDigits(whole + fraction);
      assert forall i :: 0 <= i < p ==> s[i] == whole[i];
      assert forall i :: p < i < |s| ==> s[i] == fraction[i - p - 1];
      assert if |whole| >= 1 then IsDigit(s[0]) else IsDigit(s[p + 1]);
      Some(DigitsValue(whole + fraction) as real / Pow10(|fraction|) as real)
    else None
  }

  /** A literal without sign: a mantissa and an optional exponent part. */
  function ParseUnsigned(body: string): (r: Option<real>)
    ensures r.Some? ==> HasDigit(body) && r.value >= 0.0
    ensures r.Some? ==> LiteralText(body)
  {
    var e := Min(IndexOf(body, 'e'), IndexOf(body, 'E'));
    match ParseMantissa(body[..e])
    case None => None
    case Some(mantissa) =>
      match (if e < |body| then ParseExponent(body[e + 1..]) else Some(0))
      case None => None
      case Some(exponent) =>
        var scale := Scale(exponent);
        assert body[0..e] == body[..e];
        LiteralJoin(body, e);
        HasDigitWithin(body, 0, e);
        NonNegativeScaled(mantissa, scale);
        Some(mantissa * scale)
  }

  lemma NonNegativeScaled(m: real, p: real)
    requires m >= 0.0 && p > 0.0
    ensures m * p >= 0.0
  {
  }

  /** Rust's `s.parse::<f64>().ok()` on finite decimal literals: a number
      is read only from text with a digit and nothing but literal
      characters, and only a leading '-' makes it negative. */
  function ParseDecimal(s: string): (r: Option<real>)
    ensures r.Some? ==> HasDigit(s)
    ensures r.Some? ==> LiteralText(s)
    ensures r.Some? && r.value < 0.0 ==> |s| > 0 && s[0] == '-'
    ensures r.Some? && |s| > 0 && s[0] == '-' ==> r.value <= 0.0
  {
    if |s| > 0 && (s[0] == '-' || s[0] == '+') then
      var v :- ParseUnsigned(s[1..]);
      assert s[1..|s|] == s[1..];
      assert forall i :: 1 <= i < |s| ==> s[i] == s[1..][i - 1];
      HasDigitWithin(s, 1, |s|);
      Some(if s[0] == '-' then -v else v)
    else ParseUnsigned(s)
  }

  /** A mantissa, then an exponent mark and an exponent when there is one,
      is literal text. */
  lemma LiteralJoin(body: string, e: nat)
    requires e <= |body|
    requires forall i :: 0 <= i < e ==> IsDigit(body[..e][i]) || body[..e][i] == '.'
    requires e < |body| ==> (body[e] == 'e' || body[e] == 'E') && LiteralText(body[e + 1..])
    ensures LiteralText(body)
  {
    forall i | 0 <= i < |body|
      ensures LiteralChar(body[i])
    {
      if i < e {
        assert body[i] == body[..e][i];
      } else if i > e {
        assert body[i] == body[e + 1..][i - e - 1];
      }
    }
  }

  /** A digit in a slice is a digit of the whole. */
  lemma HasDigitWithin(s: string, lo: nat, hi: nat)
    requires lo <= hi <= |s| && HasDigit(s[lo..hi])
    ensures HasDigit(s)
  {
  }

  function Min(a: nat, b: nat): nat {
    if a <= b then a else b
  }

  // ---------------------------------------------------------------------
  // Formatting: the `{}` of a number with a terminating decimal expansion

  /** Fraction digits beyond which the formatter truncates. */
  const MaxFractionDigits: nat := 17

  predicate IsWhole(x: real) {
    x.Floor as real == x
  }

  /** `x` has no more than `k` decimals: `x * 10^k` is a whole number. */
  predicate WholeAt(x: real, k: nat) {
    IsWhole(x * Pow10(k) as real)
  }

  /** The least `j >= k` (at most `MaxFractionDigits`) at which `x * 10^j`
      is a whole number. */
  function FractionDigits(x: real, k: nat): (j: nat)
    requires k <= MaxFractionDigits
    ensures k <= j <= MaxFractionDigits
    decreases MaxFractionDigits - k
  {
    if k == MaxFractionDigits || WholeAt(x, k) then k
    else FractionDigits(x, k + 1)
  }

  /** The numeral of `n`, zero-padded to at least `k + 1` digits. */
  function PaddedDigits(n: nat, k: nat): (s: string)
    ensures |s| >= k + 1 && AllDigits(s)
    ensures DigitsValue(s) == n
    ensures s[0] == '0' ==> |s| == k + 1
  {
    var digits := NatDigits(n);
    var zeros := if |digits| <= k then k + 1 - |digits| else 0;
    LeadingZeros(zeros, digits);
    Zeros(zeros) + digits
  }

  /** The numeral of `n / 10^k`: the digits of `n` with a decimal point
      placed `k` digits from the right. */
  function PointedDigits(n: nat, k: nat): (s: string)
    ensures PlainNumeral(s)
    ensures '.' in s <==> k > 0
    ensures IsDigit(s[|s| - 1]) && DigitValue(s[|s| - 1]) == n % 10
  {
    var digits := PaddedDigits(n, k);
    LastDigit(digits);
    Pointed(digits, k)
  }

  /** `digits` with a decimal point placed `k` digits from the right. */
  function Pointed(digits: string, k: nat): (s: string)
    requires |digits| >= k + 1 && AllDigits(digits)
    ensures |s| >= 1 && s[0] == digits[0]
    ensures '.' in s <==> k > 0
    ensures s[|s| - 1] == digits[|digits| - 1]
    ensures forall i :: 0 <= i < |s| ==> IsDigit(s[i]) || s[i] == '.'
    ensures forall i, j :: 0 <= i < j < |s| && s[i] == '.' ==> s[j] != '.'
    ensures |digits| == k + 1 ==> |s| == 1 || s[1] == '.'
  {
    if k == 0 then
      assert forall i :: 0 <= i < |digits| ==> digits[i] != '.';
      digits
    else
      var m := |digits| - k;
      var s := digits[..m] + "." + digits[m..];
      assert s[m] == '.';
      assert forall i :: 0 <= i < m ==> s[i] == digits[i];
      assert forall i :: m < i < |s| ==> s[i] == digits[i - 1];
      s
  }

  function ShowNonNegative(x: real): (s: string)
    requires x >= 0.0
    ensures PlainNumeral(s)
    ensures '.' in s <==> !IsWhole(x)
  {
    var k := FractionDigits(x, 0);
    WholeAtZero(x);
    PointedDigits(ScaledUp(x, k), k)
  }

  /** `x * 10^k` rounded down: the digits of `x` kept by `k` decimals. */
  function ScaledUp(x: real, k: nat): nat
    requires x >= 0.0
  {
    NonNegativeProduct(x, Pow10(k) as real);
    (x * Pow10(k) as real).Floor
  }

  lemma NonNegativeProduct(x: real, p: real)
    requires x >= 0.0 && p >= 1.0
    ensures x * p >= 0.0
  {
  }

  /** Rust's `format!("{}", x)`: an optional '-' and a plain numeral, so
      no '+', no exponent and no superfluous leading zero; no decimal point
      for whole numbers. */
  function ShowDecimal(x: real): (r: string)
    ensures |r| >= 1
    ensures r[0] == '-' <==> x < 0.0
    ensures x < 0.0 ==> |r| >= 2 && IsDigit(r[1])
    ensures x < 0.0 ==> PlainNumeral(r[1..])
    ensures x >= 0.0 ==> PlainNumeral(r)
    ensures '.' in r <==> !IsWhole(x)
  {
    if x < 0.0 then
      WholeNegated(x);
      var t := ShowNonNegative(-x);
      assert ("-" + t)[1..] == t;
      assert '.' in "-" + t <==> '.' in t by {
        assert forall i :: 0 <= i < |t| ==> ("-" + t)[i + 1] == t[i];
      }
      "-" + t
    else ShowNonNegative(x)
  }

  // ---------------------------------------------------------------------
  // Lemmas

  lemma {:induction false} LeadingZeros(k: nat, s: string)
    requires AllDigits(s)
    ensures AllDigits(Zeros(k) + s)
    ensures DigitsValue(Zeros(k) + s) == DigitsValue(s)
    decreases |s|
  {
    var z := Zeros(k) + s;
    if s == [] {
      assert z == Zeros(k);
      ZerosValue(k);
    } else {
      assert z[..|z| - 1] == Zeros(k) + s[..|s| - 1];
      LeadingZeros(k, s[..|s| - 1]);
    }
  }

  lemma {:induction false} ZerosValue(k: nat)
    ensures DigitsValue(Zeros(k)) == 0
  {
    if k > 0 {
      var z := Zeros(k);
      assert z[..|z| - 1] == Zeros(k - 1);
      ZerosValue(k - 1);
    }
  }

  /** A string of digits parses to the whole number it spells. */
  lemma ParseWhole(s: string)
    requires 1 <= |s| && AllDigits(s)
    ensures ParseDecimal(s) == Some(DigitsValue(s) as real)
  {
    assert IsDigit(s[0]);
    DigitLed(s);
    NoExponent(s);
    WholeMantissa(s);
  }

  lemma WholeMantissa(s: string)
    requires 1 <= |s| && AllDigits(s)
    ensures ParseMantissa(s) == Some(DigitsValue(s) as real)
  {
    assert IndexOf(s, '.') == |s|;
    assert s[..|s|] == s;
    assert s + [] == s;
    assert Pow10(0) == 1;
  }

  /** A numeral with one decimal, `d.f`, reads as d + f / 10. */
  lemma ParseTenths(d: char, f: char)
    requires IsDigit(d) && IsDigit(f)
    ensures ParseDecimal([d, '.', f]) == Some(DigitValue(d) as real + DigitValue(f) as real / 10.0)
  {
    ParsePointed([d], [f]);
    assert [d] + "." + [f] == [d, '.', f];
    assert [d] + [f] == [d, f];
    TwoDigits(d, f);
    assert Pow10(|[f]|) == 10;
    Tenths(DigitValue(d), DigitValue(f));
  }

  lemma TwoDigits(d: char, f: char)
    requires IsDigit(d) && IsDigit(f)
    ensures DigitsValue([d, f]) == DigitValue(d) * 10 + DigitValue(f)
  {
    assert [d, f][..1] == [d];
    assert [d][..0] == [];
    assert DigitsValue([d]) == DigitValue(d);
  }

  lemma Tenths(a: nat, b: nat)
    ensures (a * 10 + b) as real / 10 as real == a as real + b as real / 10.0
  {
  }

  /** Text without an exponent mark is read as a bare mantissa. */
  lemma NoExponent(s: string)
    requires forall i :: 0 <= i < |s| ==> s[i] != 'e' && s[i] != 'E'
    ensures ParseUnsigned(s) == ParseMantissa(s)
  {
    assert IndexOf(s, 'e') == |s| && IndexOf(s, 'E') == |s|;
    assert s[..|s|] == s;
    var m := ParseMantissa(s);
    if m.Some? {
      assert Scale(0) == 1.0;
    }
  }

  /** A whole number's multiple stays whole when negated. */
  lemma NegateWhole(x: real)
    requires IsWhole(x)
    ensures IsWhole(-x)
  {
    var n := x.Floor;
    assert -x == (-n) as real;
  }

  /** A number and its negation are whole together. */
  lemma WholeNegated(x: real)
    ensures IsWhole(-x) <==> IsWhole(x)
  {
    if IsWhole(x) {
      NegateWhole(x);
    }
    if IsWhole(-x) {
      NegateWhole(-x);
    }
  }

  lemma WholeAtZero(x: real)
    ensures WholeAt(x, 0) <==> IsWhole(x)
  {
    assert Pow10(0) == 1;
    assert x * 1 as real == x;
  }

  /** The last digit of a numeral is its value's remainder by ten. */
  lemma LastDigit(s: string)
    requires |s| >= 1 && AllDigits(s)
    ensures DigitValue(s[|s| - 1]) == DigitsValue(s) % 10
  {
    var d := DigitValue(s[|s| - 1]);
    assert DigitsValue(s) == DigitsValue(s[..|s| - 1]) * 10 + d;
    assert d < 10;
  }

  /** Below the scale `FractionDigits` finds, `x` is never whole. */
  lemma {:induction false} FractionDigitsLeast(x: real, k: nat, i: nat)
    requires k <= MaxFractionDigits
    requires k <= i < FractionDigits(x, k)
    ensures !WholeAt(x, i)
    decreases MaxFractionDigits - k
  {
    if i > k {
      FractionDigitsLeast(x, k + 1, i);
    }
  }

  /** When `x` is whole at scale `10^(j+1)` and its scaled-up digits end
      in 0, it is already whole at scale `10^j`. */
  lemma DropZero(x: real, j: nat)
    requires x >= 0.0 && WholeAt(x, j + 1) && ScaledUp(x, j + 1) % 10 == 0
    ensures WholeAt(x, j)
  {
    assert ScaledUp(x, j + 1) as real == x * Pow10(j + 1) as real;
    assert Pow10(j + 1) as real == 10.0 * Pow10(j) as real;
    assert x * Pow10(j + 1) as real == 10.0 * (x * Pow10(j) as real);
    assert x * Pow10(j) as real == (ScaledUp(x, j + 1) / 10) as real;
  }

  /** `FractionDigits` finds a scale at which `x` is whole whenever one exists. */
  lemma {:induction false} FractionDigitsWhole(x: real, k: nat, j: nat)
    requires k <= j <= MaxFractionDigits
    requires WholeAt(x, j)
    ensures WholeAt(x, FractionDigits(x, k))
    decreases MaxFractionDigits - k
  {
    if k < MaxFractionDigits && !WholeAt(x, k) {
      FractionDigitsWhole(x, k + 1, j);
    }
  }

  /** Placing the decimal point `k` digits from the right divides by `10^k`. */
  lemma PointedDigitsParse(n: nat, k: nat)
    ensures ParseDecimal(PointedDigits(n, k)) == Some(n as real / Pow10(k) as real)
  {
    PointedParse(PaddedDigits(n, k), k);
  }

  lemma PointedParse(digits: string, k: nat)
    requires |digits| >= k + 1 && AllDigits(digits)
    ensures ParseDecimal(Pointed(digits, k)) == Some(DigitsValue(digits) as real / Pow10(k) as real)
  {
    if k == 0 {
      UnpointedParse(digits);
    } else {
      SplitParse(digits, k);
    }
  }

  lemma UnpointedParse(digits: string)
    requires |digits| >= 1 && AllDigits(digits)
    ensures ParseDecimal(Pointed(digits, 0)) == Some(DigitsValue(digits) as real / Pow10(0) as real)
  {
    assert Pointed(digits, 0) == digits;
    DivideByOne(DigitsValue(digits) as real, Pow10(0));
    ParseWhole(digits);
  }

  lemma DivideByOne(v: real, p: nat)
    requires p == 1
    ensures v / p as real == v
  {
  }

  lemma SplitParse(digits: string, k: nat)
    requires |digits| >= k + 1 && AllDigits(digits) && k > 0
    ensures ParseDecimal(Pointed(digits, k)) == Some(DigitsValue(digits) as real / Pow10(k) as real)
  {
    var whole := digits[..|digits| - k];
    var fraction := digits[|digits| - k..];
    assert whole + fraction == digits;
    ParsePointed(whole, fraction);
  }

  /** `whole.fraction` is read as the digits of both over `10^|fraction|`. */
  lemma ParsePointed(whole: string, fraction: string)
    requires 1 <= |whole| && AllDigits(whole) && AllDigits(fraction)
    ensures AllDigits(whole + fraction)
    ensures ParseDecimal(whole + "." + fraction)
         == Some(DigitsValue(whole + fraction) as real / Pow10(|fraction|) as real)
  {
    var s := whole + "." + fraction;
    PointedChars(whole, fraction);
    DigitLed(s);
    NoExponent(s);
    PointedMantissa(s, whole, fraction);
  }

  /** `whole.fraction` starts with a digit and has no exponent mark. */
  lemma PointedChars(whole: string, fraction: string)
    requires 1 <= |whole| && AllDigits(whole) && AllDigits(fraction)
    ensures var s := whole + "." + fraction;
      1 <= |s| && IsDigit(s[0]) && forall i :: 0 <= i < |s| ==> s[i] != 'e' && s[i] != 'E'
  {
    var s := whole + "." + fraction;
    forall i | 0 <= i < |s|
      ensures s[i] == '.' || IsDigit(s[i])
    {
      if i < |whole| {
        assert s[i] == whole[i];
      } else if i > |whole| {
        assert s[i] == fraction[i - |whole| - 1];
      }
    }
  }

  /** The mantissa `whole.fraction` splits at its one point. */
  lemma PointedMantissa(s: string, whole: string, fraction: string)
    requires s == whole + "." + fraction
    requires 1 <= |whole| && AllDigits(whole) && AllDigits(fraction)
    ensures AllDigits(whole + fraction)
    ensures ParseMantissa(s) == Some(DigitsValue(whole + fraction) as real / Pow10(|fraction|) as real)
  {
    var p := IndexOf(s, '.');
    assert p == |whole| by {
      assert s[|whole|] == '.';
      assert forall i :: 0 <= i < |whole| ==> s[i] == whole[i];
    }
    assert s[..p] == whole;
    assert s[p + 1..] == fraction;
  }

  /** Text that starts with a digit has no sign to strip. */
  lemma DigitLed(s: string)
    requires 1 <= |s| && IsDigit(s[0])
    ensures ParseDecimal(s) == ParseUnsigned(s)
  {
  }

  /** Scaling a number with at most `k` decimals up to a whole number and
      back down is the identity. */
  lemma ScaleBack(x: real, k: nat)
    requires x >= 0.0 && WholeAt(x, k)
    ensures ScaledUp(x, k) as real / Pow10(k) as real == x
  {
    ScaleBackBy(x, Pow10(k) as real);
  }

  lemma ScaleBackBy(x: real, p: real)
    requires x >= 0.0 && p >= 1.0 && IsWhole(x * p)
    ensures (x * p).Floor >= 0
    ensures (x * p).Floor as real / p == x
  {
    assert x * p >= 0.0;
    assert x * p / p == x;
  }

  /** A number with at most `j` decimals keeps that bound when negated. */
  lemma WholeAtNegated(x: real, j: nat)
    requires WholeAt(x, j)
    ensures WholeAt(-x, j)
  {
    assert -x * Pow10(j) as real == -(x * Pow10(j) as real);
    NegateWhole(x * Pow10(j) as real);
  }

  /** Formatting then parsing gives the number back, for every number with
      at most `MaxFractionDigits` decimals. */
  lemma ShowParseRoundTrip(x: real, j: nat)
    requires j <= MaxFractionDigits && WholeAt(x, j)
    ensures ParseDecimal(ShowDecimal(x)) == Some(x)
  {
    if x < 0.0 {
      WholeAtNegated(x, j);
      NonNegativeRoundTrip(-x, j);
      var t := ShowNonNegative(-x);
      assert ShowDecimal(x) == "-" + t;
      assert ("-" + t)[1..] == t;
    } else {
      NonNegativeRoundTrip(x, j);
    }
  }

  lemma NonNegativeRoundTrip(x: real, j: nat)
    requires x >= 0.0
    requires j <= MaxFractionDigits && WholeAt(x, j)
    ensures ParseUnsigned(ShowNonNegative(x)) == Some(x)
    ensures ParseDecimal(ShowNonNegative(x)) == Some(x)
  {
    FractionDigitsWhole(x, 0, j);
    ShownDigitsParse(x, FractionDigits(x, 0));
  }

  lemma ShownDigitsParse(x: real, k: nat)
    requires x >= 0.0
    requires k == FractionDigits(x, 0) && WholeAt(x, k)
    ensures ParseUnsigned(ShowNonNegative(x)) == Some(x)
    ensures ParseDecimal(ShowNonNegative(x)) == Some(x)
  {
    ScaleBack(x, k);
    var t := PointedDigits(ScaledUp(x, k), k);
    PointedDigitsParse(ScaledUp(x, k), k);
    DigitLed(t);
  }

  /** A number with a fraction and at most `MaxFractionDigits` decimals is
      shown with its shortest fraction: the numeral never ends in '0'. */
  lemma ShowDecimalShortest(x: real, j: nat)
    requires j <= MaxFractionDigits && WholeAt(x, j) && !IsWhole(x)
    ensures '.' in ShowDecimal(x)
    ensures ShowDecimal(x)[|ShowDecimal(x)| - 1] != '0'
  {
    if x < 0.0 {
      WholeAtNegated(x, j);
      WholeNegated(x);
      NonNegativeShortest(-x, j);
      var t := ShowNonNegative(-x);
      assert ShowDecimal(x) == "-" + t;
      assert ("-" + t)[|t|] == t[|t| - 1];
    } else {
      NonNegativeShortest(x, j);
    }
  }

  lemma NonNegativeShortest(x: real, j: nat)
    requires x >= 0.0
    requires j <= MaxFractionDigits && WholeAt(x, j) && !IsWhole(x)
    ensures ShowNonNegative(x)[|ShowNonNegative(x)| - 1] != '0'
  {
    var k := FractionDigits(x, 0);
    var n := ScaledUp(x, k);
    ShortestScale(x, j);
    var s := PointedDigits(n, k);
    assert ShowNonNegative(x) == s;
    assert DigitValue(s[|s| - 1]) != 0;
  }

  /** At the scale `FractionDigits` picks, the scaled-up digits of a number
      with a fraction do not end in 0. */
  lemma ShortestScale(x: real, j: nat)
    requires x >= 0.0
    requires j <= MaxFractionDigits && WholeAt(x, j) && !IsWhole(x)
    ensures ScaledUp(x, FractionDigits(x, 0)) % 10 != 0
  {
    var k := FractionDigits(x, 0);
    WholeAtZero(x);
    FractionDigitsWhole(x, 0, j);
    var n := ScaledUp(x, k);
    ScaledUpExact(x, k);
    assert k > 0;
    if n % 10 == 0 {
      DropZero(x, k - 1);
      FractionDigitsLeast(x, 0, k - 1);
      assert false;
    }
  }

  /** At a scale where `x` is whole, scaling up loses nothing. */
  lemma ScaledUpExact(x: real, k: nat)
    requires x >= 0.0 && WholeAt(x, k)
    ensures ScaledUp(x, k) as real == x * Pow10(k) as real
  {
  }

  /** `3.0` is shown without a decimal point. */
  lemma ShowWholeExample(x: real)
    requires x == 3.0
    ensures ShowDecimal(x) == "3"
  {
    assert WholeAt(3.0, 0);
    assert FractionDigits(3.0, 0) == 0;
    assert ScaledUp(3.0, 0) == 3;
    assert NatDigits(3) == "3";
    assert Zeros(0) == "";
    assert PaddedDigits(3, 0) == "3";
  }

  /** `0.0` is shown as a lone "0". */
  lemma ShowZeroExample(x: real)
    requires x == 0.0
    ensures ShowDecimal(x) == "0"
  {
  }

  /** `7.5` is shown with its one decimal. */
  lemma ShowTenthsExample(x: real)
    requires x == 7.5
    ensures ShowDecimal(x) == "7.5"
  {
    assert !WholeAt(7.5, 0);
    assert Pow10(1) == 10;
    assert WholeAt(7.5, 1);
    assert FractionDigits(7.5, 1) == 1;
    assert FractionDigits(7.5, 0) == 1;
    assert ScaledUp(7.5, 1) == 75;
    assert NatDigits(7) == "7";
    assert NatDigits(75) == "75";
    assert Zeros(0) == "";
    var p := PaddedDigits(75, 1);
    assert p == "75";
    assert p[..1] == "7" && p[1..] == "5";
  }

  /** A lone decimal point is not a number. */
  lemma LonePointRejected()
    ensures ParseDecimal(".") == None
  {
  }

  /** Text holding any character outside the literal alphabet is not a
      number: a unit suffix or stray punctuation makes the whole value
      unusable rather than being skipped. */
  lemma ForeignCharRejected(s: string, i: nat)
    requires i < |s| && !LiteralChar(s[i])
    ensures ParseDecimal(s) == None
  {
  }

  /** "4.5%" is rejected, although "4.5" alone reads as 4.5. */
  lemma PercentSignRejected()
    ensures ParseDecimal("4.5%") == None
    ensures ParseDecimal("4.5") == Some(4.5)
  {
    ForeignCharRejected("4.5%", 3);
    ParseTenths('4', '5');
  }
}
