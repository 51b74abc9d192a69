/** Finite JavaScript numbers and the text `JSON.stringify` writes for them: the shortest digits, in positional notation
    where the decimal point falls within twenty-one places before or six zeros after it, and with an exponent otherwise
    (Number::toString of ECMA-262). The text determines the number, since the digits have no leading and no trailing
    zero. */
module Numerals {
  import opened Texts

  /** Significant digits: no leading and no trailing zero, so that a number has one listing. */
  predicate IsSignificand(d: Text) {
    d != [] && AllDigits(d) && d[0] != ZERO && d[|d| - 1] != ZERO
  }

  /** A finite number: zero (with -0 read as 0), or sign * 0.d1d2...dk * 10^point. */
  datatype Number = Zero | Decimal(negative: bool, digits: Text, point: int) {
    predicate Valid() { Decimal? ==> IsSignificand(digits) }
  }

  type JsNumber = n: Number | n.Valid() witness Zero

  function Zeros(n: nat): (t: Text)
    ensures |t| == n && forall i | 0 <= i < n :: t[i] == ZERO
  {
    seq(n, _ => ZERO)
  }

  /** ECMA-262 section 6.1.6.1.20, Number::toString with radix 10. */
  function NumberText(n: Number): Text {
    match n
    case Zero => [ZERO]
    case Decimal(negative, digits, point) => (if negative then [MINUS] else []) + Magnitude(digits, point)
  }

  function Magnitude(digits: Text, point: int): Text {
    if 0 < point <= 21 then
      if |digits| <= point then digits + Zeros(point - |digits|)
      else digits[..point] + [DOT] + digits[point..]
    else if -6 < point <= 0 then [ZERO] + [DOT] + (Zeros(-point) + digits)
    else Mantissa(digits) + [LETTER_E] + ExponentText(point - 1)
  }

  function Mantissa(digits: Text): Text {
    if |digits| <= 1 then digits else [digits[0]] + [DOT] + digits[1..]
  }

  function ExponentText(e: int): Text {
    if e >= 0 then [PLUS] + NatText(e) else [MINUS] + NatText(-e)
  }

  predicate IsNumberUnit(c: Unit) { IsDigit(c) || c == PLUS || c == MINUS || c == DOT || c == LETTER_E }

  predicate AllNumberUnits(t: Text) { forall i | 0 <= i < |t| :: IsNumberUnit(t[i]) }

  lemma JoinUnits(a: Text, b: Text)
    requires AllNumberUnits(a) && AllNumberUnits(b)
    ensures AllNumberUnits(a + b)
  {
  }

  lemma MagnitudeUnits(d: Text, p: int)
    requires IsSignificand(d)
    ensures AllNumberUnits(Magnitude(d, p))
  {
    assert AllNumberUnits(d);
    if 0 < p <= 21 {
      if |d| <= p {
        JoinUnits(d, Zeros(p - |d|));
      } else {
        JoinUnits(d[..p], [DOT]);
        JoinUnits(d[..p] + [DOT], d[p..]);
      }
    } else if -6 < p <= 0 {
      JoinUnits(Zeros(-p), d);
      JoinUnits([ZERO] + [DOT], Zeros(-p) + d);
    } else {
      JoinUnits(Mantissa(d), [LETTER_E]);
      var e := p - 1;
      JoinUnits(if e >= 0 then [PLUS] else [MINUS], NatText(if e >= 0 then e else -e));
      JoinUnits(Mantissa(d) + [LETTER_E], ExponentText(e));
    }
  }

  lemma MagnitudeStart(d: Text, p: int)
    requires IsSignificand(d)
    ensures Magnitude(d, p) != [] && IsDigit(Magnitude(d, p)[0])
    ensures Magnitude(d, p) != [ZERO]
  {
    if 0 < p <= 21 {
      assert Magnitude(d, p)[0] == d[0];
    } else if !(-6 < p <= 0) {
      assert Magnitude(d, p)[0] == d[0];
    }
  }

  lemma NumberTextUnits(n: Number)
    requires n.Valid()
    ensures NumberText(n) != [] && AllNumberUnits(NumberText(n))
    ensures IsDigit(NumberText(n)[0]) || NumberText(n)[0] == MINUS
  {
    if n.Decimal? {
      MagnitudeUnits(n.digits, n.point);
      MagnitudeStart(n.digits, n.point);
      JoinUnits(if n.negative then [MINUS] else [], Magnitude(n.digits, n.point));
    }
  }

  lemma ExponentialInjective(d: Text, p: int, e: Text, q: int)
    requires IsSignificand(d) && IsSignificand(e) && !(-6 < p <= 21) && !(-6 < q <= 21)
    requires Magnitude(d, p) == Magnitude(e, q)
    ensures d == e && p == q
  {
    CutAt(LETTER_E, Mantissa(d), ExponentText(p - 1), Mantissa(e), ExponentText(q - 1));
    MantissaInjective(d, e);
    ExponentInjective(p - 1, q - 1);
  }

  lemma PointedInjective(d: Text, p: int, e: Text, q: int)
    requires IsSignificand(d) && IsSignificand(e) && -6 < p <= 21 && -6 < q <= 21
    requires p < |d| && q < |e| && Magnitude(d, p) == Magnitude(e, q)
    ensures d == e && p == q
  {
    var a, x := PointParts(d, p);
    var b, y := PointParts(e, q);
    CutAt(DOT, a, x, b, y);
    if 0 < p {
      assert d == a + x && e == b + y;
    } else {
      LeadingZeros(-p, d, -q, e);
    }
  }

  lemma MagnitudeInjective(d: Text, p: int, e: Text, q: int)
    requires IsSignificand(d) && IsSignificand(e)
    requires Magnitude(d, p) == Magnitude(e, q)
    ensures d == e && p == q
  {
    ExponentialHasLetter(d, p);
    ExponentialHasLetter(e, q);
    if !(-6 < p <= 21) {
      ExponentialInjective(d, p, e, q);
    } else {
      PointHasDot(d, p);
      PointHasDot(e, q);
      if p < |d| {
        PointedInjective(d, p, e, q);
      } else {
        TrailingZeros(d, p - |d|, e, q - |e|);
      }
    }
  }

  lemma ExponentialHasLetter(d: Text, p: int)
    requires IsSignificand(d)
    ensures LETTER_E in Magnitude(d, p) <==> !(-6 < p <= 21)
  {
    if !(-6 < p <= 21) { assert Magnitude(d, p)[|Mantissa(d)|] == LETTER_E; }
  }

  lemma PointHasDot(d: Text, p: int)
    requires IsSignificand(d) && -6 < p <= 21
    ensures DOT in Magnitude(d, p) <==> p < |d|
  {
    if 0 < p < |d| { assert Magnitude(d, p)[p] == DOT; }
    if p <= 0 { assert Magnitude(d, p)[1] == DOT; }
  }

  /** The digits before and after the point of a number written with one. */
  lemma PointParts(d: Text, p: int) returns (a: Text, x: Text)
    requires IsSignificand(d) && -6 < p <= 21 && p < |d|
    ensures Magnitude(d, p) == a + [DOT] + x && DOT !in a
    ensures if 0 < p then a == d[..p] && x == d[p..] else a == [ZERO] && x == Zeros(-p) + d
    ensures a == [ZERO] <==> p <= 0
  {
    if 0 < p { a, x := d[..p], d[p..]; } else { a, x := [ZERO], Zeros(-p) + d; }
    assert 0 < p ==> a[0] == d[0];
  }

  lemma LeadingZeros(i: nat, d: Text, j: nat, e: Text)
    requires IsSignificand(d) && IsSignificand(e)
    requires Zeros(i) + d == Zeros(j) + e
    ensures i == j && d == e
  {
    var s := Zeros(i) + d;
    var t := Zeros(j) + e;
    assert s[i] == d[0] && t[j] == e[0];
    assert i == j;
    CancelPrefix(Zeros(i), d, Zeros(j), e);
  }

  lemma TrailingZeros(d: Text, i: nat, e: Text, j: nat)
    requires IsSignificand(d) && IsSignificand(e)
    requires d + Zeros(i) == e + Zeros(j)
    ensures i == j && d == e
  {
    var s := d + Zeros(i);
    var t := e + Zeros(j);
    assert s[|d| - 1] == d[|d| - 1] && t[|e| - 1] == e[|e| - 1];
    assert |d| == |e|;
    CancelPrefix(d, Zeros(i), e, Zeros(j));
  }

  lemma MantissaInjective(d: Text, e: Text)
    requires IsSignificand(d) && IsSignificand(e) && Mantissa(d) == Mantissa(e)
    ensures d == e
  {
    var m := Mantissa(d);
    assert |m| == 1 || (d == [m[0]] + m[2..] && e == [m[0]] + m[2..]);
  }

  lemma ExponentInjective(a: int, b: int)
    requires ExponentText(a) == ExponentText(b)
    ensures a == b
  {
    var t := ExponentText(a);
    assert t[0] == if a >= 0 then PLUS else MINUS;
    assert t[0] == if b >= 0 then PLUS else MINUS;
    assert t[1..] == NatText(if a >= 0 then a else -a);
    assert t[1..] == NatText(if b >= 0 then b else -b);
    NatTextInjective(if a >= 0 then a else -a, if b >= 0 then b else -b);
  }

  /** Two finite numbers are written alike only when they are the same number. */
  lemma NumberTextInjective(m: Number, n: Number)
    requires m.Valid() && n.Valid() && NumberText(m) == NumberText(n)
    ensures m == n
  {
    if m.Decimal? && n.Decimal? {
      MagnitudeStart(m.digits, m.point);
      MagnitudeStart(n.digits, n.point);
      assert m.negative == n.negative by {
        assert NumberText(m)[0] == if m.negative then MINUS else Magnitude(m.digits, m.point)[0];
        assert NumberText(n)[0] == if n.negative then MINUS else Magnitude(n.digits, n.point)[0];
      }
      var sign: Text := if m.negative then [MINUS] else [];
      CancelPrefix(sign, Magnitude(m.digits, m.point), sign, Magnitude(n.digits, n.point));
      MagnitudeInjective(m.digits, m.point, n.digits, n.point);
    } else if m.Decimal? {
      NotZeroText(m);
    } else if n.Decimal? {
      NotZeroText(n);
    }
  }

  lemma NotZeroText(n: Number)
    requires n.Valid() && n.Decimal?
    ensures NumberText(n) != [ZERO]
  {
    MagnitudeStart(n.digits, n.point);
    if !n.negative { assert NumberText(n) == Magnitude(n.digits, n.point); }
  }
}
