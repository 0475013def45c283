// Decimal digit strings and their values, for the numeric keys of sort.

/** Decimal fractions and powers of ten, over the reals. */
module Decimal {
  import opened Order

  type Digit = d: int | 0 <= d < 10

  /** The number written by a string of digits. */
  function Whole(ds: seq<Digit>): nat {
    if ds == [] then 0 else 10 * Whole(ds[..|ds| - 1]) + ds[|ds| - 1]
  }

  /** The fraction 0.d0d1d2... */
  function Frac(ds: seq<Digit>): real {
    if ds == [] then 0.0 else (ds[0] as real + Frac(ds[1..])) / 10.0
  }

  /** x times ten to the e. */
  function Scale(x: real, e: int): real
    decreases if e < 0 then -e else e
  {
    if e == 0 then x else if e > 0 then 10.0 * Scale(x, e - 1) else Scale(x, e + 1) / 10.0
  }

  /** Digits have the values of decimal places: 12 and 0.25, and 12 times ten to the second. */
  lemma {:induction false} PlaceValues()
    ensures Whole([1, 2]) == 12 && Frac([2, 5]) == 0.25 && Scale(12.0, 2) == 1200.0 && Scale(12.0, -1) == 1.2
  {
    var a: seq<Digit>, b: seq<Digit> := [1, 2], [2, 5];
    assert a[..1] == [1] && Whole(a[..1]) == 1 by { assert a[..1][..0] == []; }
    assert b[1..] == [5] && b[1..][1..] == [] && Frac(b[1..]) == 0.5;
    assert Scale(12.0, 1) == 120.0 && Scale(12.0, 0) == 12.0;
  }

  lemma {:induction false} ScaleStep(x: real, e: int)
    ensures Scale(x, e + 1) == 10.0 * Scale(x, e)
  {
  }

  lemma {:induction false} ScaleTen(x: real, e: int)
    ensures Scale(10.0 * x, e) == Scale(x, e + 1)
    decreases if e < 0 then -e else e
  {
    if e > 0 {
      ScaleTen(x, e - 1);
    } else if e < 0 {
      ScaleTen(x, e + 1);
      ScaleStep(x, e + 1);
    }
  }

  lemma {:induction false} ScaleAdd(x: real, d: int, e: int)
    ensures Scale(Scale(x, d), e) == Scale(x, d + e)
    decreases if e < 0 then -e else e
  {
    if e > 0 {
      ScaleAdd(x, d, e - 1);
      ScaleStep(x, d + e - 1);
    } else if e < 0 {
      ScaleAdd(x, d, e + 1);
      ScaleStep(x, d + e);
    }
  }

  lemma {:induction false} ScaleMonotone(x: real, y: real, e: int)
    ensures x < y <==> Scale(x, e) < Scale(y, e)
    ensures Scale(0.0, e) == 0.0
    decreases if e < 0 then -e else e
  {
    if e > 0 {
      ScaleMonotone(x, y, e - 1);
    } else if e < 0 {
      ScaleMonotone(x, y, e + 1);
    }
  }

  lemma {:induction false} ScaleGrows(x: real, d: int, e: int)
    requires x > 0.0 && d <= e
    ensures Scale(x, d) <= Scale(x, e)
    decreases e - d
  {
    if d < e {
      ScaleGrows(x, d, e - 1);
      ScaleStep(x, e - 1);
      ScaleMonotone(0.0, x, e - 1);
    }
  }

  lemma {:induction false} FracBounds(ds: seq<Digit>)
    ensures 0.0 <= Frac(ds) < 1.0
    ensures ds != [] && ds[0] != 0 ==> Frac(ds) >= 0.1
  {
    if ds != [] {
      FracBounds(ds[1..]);
    }
  }

  /** The number of zeros at the front. */
  function LeadZeros(ds: seq<Digit>): (n: nat)
    ensures n <= |ds|
    ensures n < |ds| ==> ds[n] != 0
  {
    if ds == [] || ds[0] != 0 then 0 else 1 + LeadZeros(ds[1..])
  }

  /** The number of zeros at the back. */
  function TrailZeros(ds: seq<Digit>): (n: nat)
    ensures n <= |ds|
    ensures n < |ds| ==> ds[|ds| - 1 - n] != 0
  {
    if ds == [] || ds[|ds| - 1] != 0 then 0 else 1 + TrailZeros(ds[..|ds| - 1])
  }

  function TrimFront(ds: seq<Digit>): seq<Digit> {
    ds[LeadZeros(ds)..]
  }

  function TrimBack(ds: seq<Digit>): seq<Digit> {
    ds[..|ds| - TrailZeros(ds)]
  }

  /** The significant digits of a mantissa. */
  function Significant(ds: seq<Digit>): (r: seq<Digit>)
    ensures r != [] ==> r[0] != 0 && r[|r| - 1] != 0
  {
    TrimBack(TrimFront(ds))
  }

  lemma {:induction false} FracTrimFront(ds: seq<Digit>)
    ensures Frac(ds) == Scale(Frac(TrimFront(ds)), 0 - LeadZeros(ds))
  {
    if ds == [] || ds[0] != 0 {
      assert TrimFront(ds) == ds;
    } else {
      FracTrimFront(ds[1..]);
      assert TrimFront(ds) == TrimFront(ds[1..]);
      var n: int := LeadZeros(ds[1..]);
      ScaleStep(Frac(TrimFront(ds)), 0 - n - 1);
    }
  }

  lemma {:induction false} FracAppendZero(ds: seq<Digit>)
    ensures Frac(ds + [0]) == Frac(ds)
  {
    if ds == [] {
      assert Frac([0]) == (0.0 + Frac([])) / 10.0;
    } else {
      assert (ds + [0])[1..] == ds[1..] + [0];
      FracAppendZero(ds[1..]);
    }
  }

  lemma {:induction false} FracTrimBack(ds: seq<Digit>)
    ensures Frac(TrimBack(ds)) == Frac(ds)
  {
    if ds == [] || ds[|ds| - 1] != 0 {
      assert TrimBack(ds) == ds;
    } else {
      var init := ds[..|ds| - 1];
      FracTrimBack(init);
      FracAppendZero(init);
      assert init + [0] == ds;
      assert TrimBack(ds) == TrimBack(init);
    }
  }

  /** A mantissa with a point is a fraction scaled by the number of digits before the point. */
  lemma {:induction false} WholeIsFrac(whole: seq<Digit>, fract: seq<Digit>)
    ensures Whole(whole) as real + Frac(fract) == Scale(Frac(whole + fract), |whole|)
    decreases |whole|
  {
    if whole == [] {
      assert whole + fract == fract;
    } else {
      var k := |whole| - 1;
      var init, d := whole[..k], whole[k];
      WholeIsFrac(init, [d] + fract);
      assert init + ([d] + fract) == whole + fract;
      assert ([d] + fract)[1..] == fract;
      assert Whole(whole) == 10 * Whole(init) + d;
    }
  }

  /** Fractions without trailing zeros are ordered as their digit strings. */
  lemma {:induction false} FracOrder(a: seq<Digit>, b: seq<Digit>)
    requires a != [] ==> a[|a| - 1] != 0
    requires b != [] ==> b[|b| - 1] != 0
    requires Compare(a, b) < 0
    ensures Frac(a) < Frac(b)
  {
    FracBounds(a);
    FracBounds(b);
    if a == [] {
      FracPositive(b);
    } else if b != [] && a[0] == b[0] {
      var n := Common(a[1..], b[1..]);
      assert a[..n + 1] == [a[0]] + a[1..][..n];
      assert b[..n + 1] == [b[0]] + b[1..][..n];
      CommonIs(a, b, n + 1);
      FracOrder(a[1..], b[1..]);
    } else {
      CommonIs(a, b, 0);
      FracBounds(a[1..]);
      FracBounds(b[1..]);
    }
  }

  lemma {:induction false} FracPositive(ds: seq<Digit>)
    requires ds != [] && ds[|ds| - 1] != 0
    ensures Frac(ds) > 0.0
  {
    FracBounds(ds[1..]);
    if |ds| > 1 {
      FracPositive(ds[1..]);
    }
  }

  /** Numbers 0.d0d1... * 10^e with a significant first digit: the exponent decides, then the digits. */
  lemma {:induction false} ScaledOrder(a: seq<Digit>, d: int, b: seq<Digit>, e: int)
    requires a != [] && a[0] != 0 && a[|a| - 1] != 0
    requires b != [] && b[0] != 0 && b[|b| - 1] != 0
    requires d < e || (d == e && Compare(a, b) < 0)
    ensures Scale(Frac(a), d) < Scale(Frac(b), e)
  {
    FracBounds(a);
    FracBounds(b);
    if d < e {
      ScaleMonotone(Frac(a), 10.0 * Frac(b), d);
      ScaleTen(Frac(b), d);
      ScaleGrows(Frac(b), d + 1, e);
    } else {
      FracOrder(a, b);
      ScaleMonotone(Frac(a), Frac(b), d);
    }
  }
}
