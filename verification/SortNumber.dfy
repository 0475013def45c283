// The numeric keys of sort: what a field means as a number, and the bytes that stand for it.

/** dokey_gn of sort.c against an independent reading of the field as a decimal numeral. */
module SortNumber {
  import opened Basics
  import opened Order
  import opened Decimal
  import opened SortCompare

  const BLANK: Byte := 32
  const TAB: Byte := 9
  const PLUS: Byte := 43
  const MINUS: Byte := 45
  const POINT: Byte := 46
  const ZERO: Byte := 48
  const NINE: Byte := 57
  const UPPER_E: Byte := 69
  const LOWER_E: Byte := 101

  predicate IsBlank(c: Byte) {
    c == BLANK || c == TAB
  }

  predicate IsSign(c: Byte) {
    c == PLUS || c == MINUS
  }

  predicate IsDigit(c: Byte) {
    ZERO <= c <= NINE
  }

  predicate IsE(c: Byte) {
    c == UPPER_E || c == LOWER_E
  }

  // ----- what a field means -----

  /** The end of the longest run of blanks from i. */
  function Blanks(s: seq<Byte>, i: nat): (j: nat)
    requires i <= |s|
    ensures i <= j <= |s|
    ensures forall k :: i <= k < j ==> IsBlank(s[k])
    ensures j < |s| ==> !IsBlank(s[j])
    decreases |s| - i
  {
    if i < |s| && IsBlank(s[i]) then Blanks(s, i + 1) else i
  }

  /** The end of the longest run of digits from i. */
  function Digits(s: seq<Byte>, i: nat): (j: nat)
    requires i <= |s|
    ensures i <= j <= |s|
    ensures forall k :: i <= k < j ==> IsDigit(s[k])
    ensures j < |s| ==> !IsDigit(s[j])
    decreases |s| - i
  {
    if i < |s| && IsDigit(s[i]) then Digits(s, i + 1) else i
  }

  function DigitOf(c: Byte): Digit {
    if IsDigit(c) then c - ZERO else 0
  }

  /** The digits written in s[i..j]. */
  function Read(s: seq<Byte>, i: nat, j: nat): (ds: seq<Digit>)
    requires i <= j <= |s|
    ensures |ds| == j - i
  {
    if i == j then [] else Read(s, i, j - 1) + [DigitOf(s[j - 1])]
  }

  /** Where the parts of a numeral lie in a field. */
  datatype Parts = Parts(
    sign: nat,      // after the leading blanks
    whole: nat,     // first digit of the whole part
    wholeEnd: nat,
    fract: nat,     // first digit of the fraction, after the point if there is one
    fractEnd: nat
  )

  /** Blanks, a sign, blanks, digits, a point, digits: each part as long as possible and possibly absent. */
  function Split(s: seq<Byte>): (p: Parts)
    ensures p.sign <= p.whole <= p.wholeEnd <= p.fract <= p.fractEnd <= |s|
    ensures forall k :: p.whole <= k < p.wholeEnd ==> IsDigit(s[k])
    ensures forall k :: p.fract <= k < p.fractEnd ==> IsDigit(s[k])
  {
    var b := Blanks(s, 0);
    var p := if b < |s| && IsSign(s[b]) then Blanks(s, b + 1) else b;
    var q := Digits(s, p);
    if q < |s| && s[q] == POINT then Parts(b, p, q, q + 1, Digits(s, q + 1)) else Parts(b, p, q, q, q)
  }

  predicate Negative(s: seq<Byte>) {
    var p := Split(s);
    p.sign < |s| && s[p.sign] == MINUS
  }

  function WholePart(s: seq<Byte>): seq<Digit> {
    Read(s, Split(s).whole, Split(s).wholeEnd)
  }

  function FractPart(s: seq<Byte>): seq<Digit> {
    Read(s, Split(s).fract, Split(s).fractEnd)
  }

  /** All the digits before the exponent. */
  function Mantissa(s: seq<Byte>): seq<Digit> {
    WholePart(s) + FractPart(s)
  }

  /** Under -g a nonzero mantissa may be followed by an exponent. */
  predicate HasExponent(s: seq<Byte>, g: bool) {
    var p := Split(s);
    g && p.fractEnd < |s| && IsE(s[p.fractEnd]) && Significant(Mantissa(s)) != []
  }

  function ExponentStart(s: seq<Byte>): (i: nat)
    requires Split(s).fractEnd < |s|
    ensures Split(s).fractEnd < i <= |s|
  {
    var x := Split(s).fractEnd + 1;
    if x < |s| && IsSign(s[x]) then x + 1 else x
  }

  predicate NegativeExponent(s: seq<Byte>)
    requires Split(s).fractEnd < |s|
  {
    var x := Split(s).fractEnd + 1;
    x < |s| && s[x] == MINUS
  }

  function Exponent(s: seq<Byte>, g: bool): int {
    if !HasExponent(s, g) then 0
    else
      var y := ExponentStart(s);
      var e: int := Whole(Read(s, y, Digits(s, y)));
      if NegativeExponent(s) then -e else e
  }

  /** A decimal numeral: sign, digits around the point, exponent. */
  datatype Numeral = Numeral(neg: bool, whole: seq<Digit>, fract: seq<Digit>, exp: int)

  /** The numeral a field starts with; a field that starts with no digits reads as zero. */
  function Parse(s: seq<Byte>, g: bool): Numeral {
    Numeral(Negative(s), WholePart(s), FractPart(s), Exponent(s, g))
  }

  function WithSign(neg: bool, x: real): real {
    if neg then 0.0 - x else x
  }

  function NumeralValue(n: Numeral): real {
    WithSign(n.neg, Scale(Whole(n.whole) as real + Frac(n.fract), n.exp))
  }

  /** The number a field stands for. */
  function Value(s: seq<Byte>, g: bool): real {
    NumeralValue(Parse(s, g))
  }

  // ----- the key -----

  const BIAS := 0x4040

  /** A number in the form the key records: sign, significant digits, biased position of the point. */
  datatype Number = Number(neg: bool, digits: seq<Digit>, dp: int)

  function Normalize(n: Numeral): (r: Number)
    ensures Proper(r)
  {
    var m := n.whole + n.fract;
    Number(n.neg, Significant(m), BIAS + |n.whole| - LeadZeros(m) + n.exp)
  }

  predicate Proper(n: Number) {
    n.digits != [] ==> n.digits[0] != 0 && n.digits[|n.digits| - 1] != 0
  }

  /** The number of a field in the form the key records. */
  function Normal(s: seq<Byte>, g: bool): (r: Number)
    ensures Proper(r)
  {
    Normalize(Parse(s, g))
  }

  /** 0.d0d1... scaled by the position of the point. */
  function Magnitude(n: Number): real {
    Scale(Frac(n.digits), n.dp - BIAS)
  }

  function Signed(n: Number): real {
    WithSign(n.neg, Magnitude(n))
  }

  lemma {:induction false} NormalizeKeepsSize(n: Numeral)
    ensures Magnitude(Normalize(n)) == Scale(Whole(n.whole) as real + Frac(n.fract), n.exp)
  {
    var m := n.whole + n.fract;
    var z, k: int := LeadZeros(m), |n.whole|;
    WholeIsFrac(n.whole, n.fract);
    FracTrimFront(m);
    FracTrimBack(TrimFront(m));
    ScaleAdd(Frac(Significant(m)), 0 - z, k);
    ScaleAdd(Frac(Significant(m)), 0 - z + k, n.exp);
    assert 0 - z + k + n.exp == Normalize(n).dp - BIAS;
  }

  /** Normalising keeps the value. */
  lemma {:induction false} NormalizeKeepsValue(n: Numeral)
    ensures Signed(Normalize(n)) == NumeralValue(n)
  {
    NormalizeKeepsSize(n);
  }

  function DigitBytes(ds: seq<Digit>): (r: Key)
    ensures |r| == |ds|
    ensures forall i :: 0 <= i < |ds| ==> r[i] == ds[i] + ZERO
  {
    seq(|ds|, i requires 0 <= i < |ds| => ds[i] + ZERO)
  }

  /** The low 16 bits of an int, high byte first, as two stores into a uint8_t array leave them. */
  function PointBytes(dp: int): Key {
    [(dp / 256) % 256, dp % 256]
  }

  function Body(digits: seq<Digit>, dp: int): Key {
    PointBytes(dp) + (DigitBytes(digits) + [0])
  }

  /** The bytes that stand for a number: class, point, digits, terminator. */
  function NumberKey(n: Number, r: bool): Key {
    if n.digits == [] then [0x20, 0]
    else if r != n.neg then [0x10] + Invert(Body(n.digits, n.dp))
    else [0x30] + Body(n.digits, n.dp)
  }

  // ----- order -----

  predicate InRange(n: Number) {
    n.digits != [] ==> 0 <= n.dp <= 0xFFFF
  }

  lemma {:induction false} DigitBytesOrder(a: seq<Digit>, b: seq<Digit>)
    ensures Sign(Kcmp(DigitBytes(a) + [0], DigitBytes(b) + [0])) == Compare(a, b)
    ensures PrefixFree(DigitBytes(a) + [0], DigitBytes(b) + [0])
  {
    var x, y, n := DigitBytes(a) + [0], DigitBytes(b) + [0], Common(a, b);
    TerminatedPrefixFree(DigitBytes(a), DigitBytes(b), 0);
    assert forall i | 0 <= i < n :: a[..n][i] == b[..n][i];
    assert x[..n] == y[..n];
    if a == b {
      CommonIs(x, y, |x|);
    } else {
      CommonIs(x, y, n);
    }
  }

  lemma {:induction false} PointBytesOrder(d: int, e: int)
    ensures PrefixFree(PointBytes(d), PointBytes(e))
    ensures PointBytes(d) == PointBytes(e) <==> d % 0x10000 == e % 0x10000
    ensures Sign(Kcmp(PointBytes(d), PointBytes(e))) == Sign(d % 0x10000 - e % 0x10000)
  {
    var x, y := PointBytes(d), PointBytes(e);
    Split16(d);
    Split16(e);
    if x[0] != y[0] {
      CommonIs(x, y, 0);
    } else if x[1] != y[1] {
      CommonIs(x, y, 1);
    }
  }

  lemma {:induction false} Split16(d: int)
    ensures d % 0x10000 == ((d / 256) % 256) * 256 + d % 256
  {
    var q := d / 0x10000;
    assert d / 256 == 256 * q + (d % 0x10000) / 256;
  }

  /** Unsigned keys order by the low 16 bits of the point, then by the digits. */
  lemma {:induction false} BodyOrder(a: seq<Digit>, d: int, b: seq<Digit>, e: int)
    ensures PrefixFree(Body(a, d), Body(b, e))
    ensures Sign(Kcmp(Body(a, d), Body(b, e)))
         == if d % 0x10000 == e % 0x10000 then Compare(a, b) else Sign(d % 0x10000 - e % 0x10000)
  {
    PointBytesOrder(d, e);
    DigitBytesOrder(a, b);
    KcmpConcat(PointBytes(d), PointBytes(e), DigitBytes(a) + [0], DigitBytes(b) + [0]);
  }

  /** Any two numeric keys of one field are prefix-free, whatever their points. */
  lemma {:induction false} NumberKeysPrefixFree(m: Number, n: Number, r: bool)
    ensures PrefixFree(NumberKey(m, r), NumberKey(n, r))
  {
    var x, y := NumberKey(m, r), NumberKey(n, r);
    if x[0] == y[0] && m.digits != [] {
      BodyOrder(m.digits, m.dp, n.digits, n.dp);
      KcmpInvert(Body(m.digits, m.dp), Body(n.digits, n.dp));
      assert IsPrefix(x, y) ==> y[1..][..|x| - 1] == y[..|x|][1..];
      assert IsPrefix(y, x) ==> x[1..][..|y| - 1] == x[..|y|][1..];
    } else {
      assert IsPrefix(x, y) ==> y[..|x|][0] == x[0];
      assert IsPrefix(y, x) ==> x[..|y|][0] == y[0];
    }
  }

  function RealSign(x: real): int {
    if x < 0.0 then -1 else if x > 0.0 then 1 else 0
  }

  /** Magnitudes order by point, then by digits. */
  lemma {:induction false} MagnitudeOrder(m: Number, n: Number)
    requires Proper(m) && Proper(n) && m.digits != [] && n.digits != []
    ensures Magnitude(m) > 0.0
    ensures RealSign(Magnitude(m) - Magnitude(n))
         == if m.dp == n.dp then Compare(m.digits, n.digits) else Sign(m.dp - n.dp)
  {
    FracPositive(m.digits);
    ScaleMonotone(0.0, Frac(m.digits), m.dp - BIAS);
    if m.dp < n.dp || (m.dp == n.dp && Compare(m.digits, n.digits) < 0) {
      ScaledOrder(m.digits, m.dp - BIAS, n.digits, n.dp - BIAS);
    } else if n.dp < m.dp || Compare(m.digits, n.digits) > 0 {
      CompareAntisymmetric(m.digits, n.digits);
      ScaledOrder(n.digits, n.dp - BIAS, m.digits, m.dp - BIAS);
    }
  }

  /** Two keys stand in the order of two values, or in the opposite order under r. */
  predicate Agree(x: Key, y: Key, u: real, v: real, r: bool) {
    Sign(Kcmp(x, y)) == if r then RealSign(v - u) else RealSign(u - v)
  }

  /** The keys of two numbers are in the right order. */
  predicate Faithful(m: Number, n: Number, r: bool) {
    Agree(NumberKey(m, r), NumberKey(n, r), Signed(m), Signed(n), r)
  }

  /** Keys of numbers of one sign compare as the low 16 bits of the point, then as the digits. */
  lemma {:induction false} SameSignKcmp(m: Number, n: Number, r: bool)
    requires m.digits != [] && n.digits != [] && m.neg == n.neg
    ensures var c := if m.dp % 0x10000 == n.dp % 0x10000 then Compare(m.digits, n.digits)
                     else Sign(m.dp % 0x10000 - n.dp % 0x10000);
            Sign(Kcmp(NumberKey(m, r), NumberKey(n, r))) == if r != m.neg then -c else c
  {
    var a, b := Body(m.digits, m.dp), Body(n.digits, n.dp);
    BodyOrder(m.digits, m.dp, n.digits, n.dp);
    KcmpAntisymmetric(a, b);
    KcmpInvert(a, b);
    if r != m.neg {
      KcmpConcat([0x10], [0x10], Invert(a), Invert(b));
    } else {
      KcmpConcat([0x30], [0x30], a, b);
    }
  }

  /** Keys of different classes: reversed-sign numbers, zero, numbers. */
  lemma {:induction false} ClassKcmp(m: Number, n: Number, r: bool)
    requires m.digits == [] || n.digits == [] || m.neg != n.neg
    ensures Kcmp(NumberKey(m, r), NumberKey(n, r)) == NumberKey(m, r)[0] as int - NumberKey(n, r)[0] as int
  {
    var x, y := NumberKey(m, r), NumberKey(n, r);
    if m.digits == [] && n.digits == [] {
      CommonIs(x, y, 2);
    } else {
      CommonIs(x, y, 0);
    }
  }

  lemma {:induction false} SignedOfClass(n: Number)
    requires Proper(n)
    ensures RealSign(Signed(n)) == if n.digits == [] then 0 else if n.neg then -1 else 1
  {
    if n.digits == [] {
      ScaleMonotone(0.0, 1.0, n.dp - BIAS);
    } else {
      MagnitudeOrder(n, n);
    }
  }

  lemma {:induction false} SignedDifference(neg: bool, x: real, y: real)
    ensures RealSign(WithSign(neg, x) - WithSign(neg, y)) == if neg then -RealSign(x - y) else RealSign(x - y)
    ensures RealSign(WithSign(neg, y) - WithSign(neg, x)) == if neg then RealSign(x - y) else -RealSign(x - y)
  {
  }

  lemma {:induction false} Small(d: int)
    requires 0 <= d < 0x10000
    ensures d % 0x10000 == d
  {
  }

  lemma {:induction false} SameSignFaithful(m: Number, n: Number, r: bool)
    requires Proper(m) && Proper(n) && InRange(m) && InRange(n)
    requires m.digits != [] && n.digits != [] && m.neg == n.neg
    ensures Faithful(m, n, r)
  {
    var c := RealSign(Magnitude(m) - Magnitude(n));
    assert Sign(Kcmp(NumberKey(m, r), NumberKey(n, r))) == if r != m.neg then -c else c by {
      SameSignKcmp(m, n, r);
      MagnitudeOrder(m, n);
      Small(m.dp);
      Small(n.dp);
    }
    SignedDifference(m.neg, Magnitude(m), Magnitude(n));
  }

  lemma {:induction false} ClassFaithful(m: Number, n: Number, r: bool)
    requires Proper(m) && Proper(n)
    requires m.digits == [] || n.digits == [] || m.neg != n.neg
    ensures Faithful(m, n, r)
  {
    SignedOfClass(m);
    SignedOfClass(n);
    ClassKcmp(m, n, r);
  }

  /** Numbers whose point fits in 16 bits are compared right. */
  lemma {:induction false} InRangeFaithful(m: Number, n: Number, r: bool)
    requires Proper(m) && Proper(n) && InRange(m) && InRange(n)
    ensures Faithful(m, n, r)
  {
    if m.digits == [] || n.digits == [] || m.neg != n.neg {
      ClassFaithful(m, n, r);
    } else {
      SameSignFaithful(m, n, r);
    }
  }

  // ----- out of range -----

  /** An in-range number that `m` is compared wrongly with, when its point does not fit in 16 bits. */
  function Confused(m: Number): (n: Number)
    requires Proper(m) && !InRange(m)
    ensures Proper(n) && InRange(n) && n.neg == m.neg && n.digits != []
  {
    if m.dp < 0 then Number(m.neg, [1], 0) else Number(m.neg, m.digits + [1], 0xFFFF)
  }

  lemma {:induction false} ConfusedOrder(m: Number)
    requires Proper(m) && !InRange(m)
    ensures var n := Confused(m);
            if m.dp < 0 then m.dp % 0x10000 > 0 || Compare(m.digits, n.digits) >= 0
            else m.dp % 0x10000 < 0xFFFF || Compare(m.digits, n.digits) < 0
  {
    var n := Confused(m);
    if m.dp < 0 {
      if m.digits[0] == 1 {
        CommonIs(m.digits, n.digits, 1);
      } else {
        CommonIs(m.digits, n.digits, 0);
      }
    } else {
      CommonIs(m.digits, n.digits, |m.digits|);
    }
  }

  lemma {:induction false} ConfusedIsConfused(m: Number, r: bool)
    requires Proper(m) && !InRange(m)
    ensures !Faithful(m, Confused(m), r)
  {
    var n := Confused(m);
    var c := RealSign(Magnitude(m) - Magnitude(n));
    var d := Sign(Kcmp(NumberKey(m, r), NumberKey(n, r)));
    assert c == Sign(m.dp - n.dp) && c != 0 by {
      MagnitudeOrder(m, n);
    }
    assert d != if r != m.neg then -c else c by {
      ConfusedOrder(m);
      SameSignKcmp(m, n, r);
      Small(n.dp);
    }
    SignedDifference(m.neg, Magnitude(m), Magnitude(n));
  }

  /** A field with the given sign and digits, the point written. */
  function Written(neg: bool, whole: seq<Digit>, fract: seq<Digit>): seq<Byte> {
    [if neg then MINUS else PLUS] + DigitBytes(whole) + [POINT] + DigitBytes(fract)
  }

  lemma {:induction false} DigitsIs(s: seq<Byte>, i: nat, j: nat)
    requires i <= j <= |s|
    requires forall k :: i <= k < j ==> IsDigit(s[k])
    requires j < |s| ==> !IsDigit(s[j])
    ensures Digits(s, i) == j
    decreases j - i
  {
    if i < j {
      DigitsIs(s, i + 1, j);
    }
  }

  lemma {:induction false} ReadIs(s: seq<Byte>, i: nat, ds: seq<Digit>)
    requires i + |ds| <= |s| && s[i..i + |ds|] == DigitBytes(ds)
    ensures Read(s, i, i + |ds|) == ds
  {
    if ds != [] {
      var n := |ds| - 1;
      LastDigit(s, i, ds, n);
      ReadIs(s, i, ds[..n]);
    }
  }

  lemma {:induction false} LastDigit(s: seq<Byte>, i: nat, ds: seq<Digit>, n: nat)
    requires |ds| == n + 1 && i + n + 1 <= |s| && s[i..i + n + 1] == DigitBytes(ds)
    ensures s[i..i + n] == DigitBytes(ds[..n]) && s[i + n] == DigitBytes(ds)[n]
  {
    var b := s[i..i + n + 1];
    assert s[i..i + n] == b[..n] && s[i + n] == b[n];
    assert DigitBytes(ds)[..n] == DigitBytes(ds[..n]);
  }

  lemma {:induction false} SplitIs(s: seq<Byte>, q: nat)
    requires 1 <= q < |s| && IsSign(s[0]) && s[q] == POINT
    requires forall k :: 1 <= k < q || q < k < |s| ==> IsDigit(s[k])
    ensures Split(s) == Parts(0, 1, q, q + 1, |s|)
  {
    DigitsIs(s, 1, q);
    DigitsIs(s, q + 1, |s|);
  }

  lemma {:induction false} WrittenSplit(neg: bool, whole: seq<Digit>, fract: seq<Digit>)
    ensures var s := Written(neg, whole, fract);
            Split(s) == Parts(0, 1, 1 + |whole|, 2 + |whole|, |s|)
  {
    SplitIs(Written(neg, whole, fract), 1 + |whole|);
  }

  lemma {:induction false} WrittenWhole(neg: bool, whole: seq<Digit>, fract: seq<Digit>)
    ensures WholePart(Written(neg, whole, fract)) == whole
  {
    var s := Written(neg, whole, fract);
    WrittenSplit(neg, whole, fract);
    assert s[1..1 + |whole|] == DigitBytes(whole);
    ReadIs(s, 1, whole);
  }

  lemma {:induction false} WrittenFract(neg: bool, whole: seq<Digit>, fract: seq<Digit>)
    ensures FractPart(Written(neg, whole, fract)) == fract
  {
    var s := Written(neg, whole, fract);
    WrittenSplit(neg, whole, fract);
    assert s[2 + |whole|..2 + |whole| + |fract|] == DigitBytes(fract);
    ReadIs(s, 2 + |whole|, fract);
  }

  lemma {:induction false} WrittenRest(neg: bool, whole: seq<Digit>, fract: seq<Digit>, g: bool)
    ensures var s := Written(neg, whole, fract); Exponent(s, g) == 0 && Negative(s) == neg
  {
    WrittenSplit(neg, whole, fract);
  }

  lemma {:induction false} NumeralWritten(n: Numeral, g: bool) returns (s: seq<Byte>)
    requires n.exp == 0
    ensures Parse(s, g) == n
  {
    WrittenWhole(n.neg, n.whole, n.fract);
    WrittenFract(n.neg, n.whole, n.fract);
    WrittenRest(n.neg, n.whole, n.fract, g);
    s := Written(n.neg, n.whole, n.fract);
  }

  function Zeros(n: nat): seq<Digit> {
    seq<Digit>(n, _ => 0)
  }

  lemma {:induction false} LeadZerosIs(ds: seq<Digit>, n: nat)
    requires n < |ds| && ds[n] != 0 && forall i :: 0 <= i < n ==> ds[i] == 0
    ensures LeadZeros(ds) == n
  {
    if n > 0 {
      LeadZerosIs(ds[1..], n - 1);
    }
  }

  lemma {:induction false} TrimBackIs(ds: seq<Digit>, n: nat)
    requires ds != [] && ds[|ds| - 1] != 0
    ensures TrimBack(ds + Zeros(n)) == ds
  {
    if n == 0 {
      assert ds + Zeros(0) == ds;
    } else {
      var t := ds + Zeros(n);
      assert t[..|t| - 1] == ds + Zeros(n - 1);
      TrimBackIs(ds, n - 1);
    }
  }

  lemma {:induction false} PaddedFront(ds: seq<Digit>, n: nat)
    requires ds != [] && ds[0] != 0 && ds[|ds| - 1] != 0
    ensures Significant(Zeros(n) + ds) == ds && LeadZeros(Zeros(n) + ds) == n
  {
    LeadZerosIs(Zeros(n) + ds, n);
    assert TrimFront(Zeros(n) + ds) == ds;
    TrimBackIs(ds, 0);
    assert ds + Zeros(0) == ds;
  }

  lemma {:induction false} PaddedBack(ds: seq<Digit>, n: nat)
    requires ds != [] && ds[0] != 0 && ds[|ds| - 1] != 0
    ensures Significant(ds + Zeros(n)) == ds && LeadZeros(ds + Zeros(n)) == 0
  {
    LeadZerosIs(ds + Zeros(n), 0);
    assert TrimFront(ds + Zeros(n)) == ds + Zeros(n);
    TrimBackIs(ds, n);
  }

  /** A numeral whose digits, padded with zeros, are m is written by some field. */
  lemma {:induction false} PaddedWritten(n: Number, whole: seq<Digit>, fract: seq<Digit>, m: seq<Digit>, g: bool)
    returns (s: seq<Byte>)
    requires whole + fract == m && Significant(m) == n.digits
    requires n.dp == BIAS + |whole| - LeadZeros(m)
    ensures Normal(s, g) == n
  {
    s := NumeralWritten(Numeral(n.neg, whole, fract, 0), g);
  }

  lemma {:induction false} FrontWritten(n: Number, k: nat, g: bool) returns (s: seq<Byte>)
    requires Proper(n) && n.digits != [] && n.dp == BIAS - k
    ensures Normal(s, g) == n
  {
    PaddedFront(n.digits, k);
    s := PaddedWritten(n, [], Zeros(k) + n.digits, Zeros(k) + n.digits, g);
  }

  lemma {:induction false} BackWritten(n: Number, k: nat, g: bool) returns (s: seq<Byte>)
    requires Proper(n) && n.digits != [] && n.dp == BIAS + k
    ensures Normal(s, g) == n
  {
    var m := n.digits + Zeros(k);
    PaddedBack(n.digits, k);
    s := PaddedWritten(n, m[..k], m[k..], m, g);
  }

  /** Every number with a point in range is written by some field. */
  lemma {:induction false} NumberWritten(n: Number, g: bool) returns (s: seq<Byte>)
    requires Proper(n) && InRange(n) && n.digits != []
    ensures Normal(s, g) == n
  {
    if n.dp <= BIAS {
      s := FrontWritten(n, BIAS - n.dp, g);
    } else {
      s := BackWritten(n, n.dp - BIAS, g);
    }
  }

  // ----- the order of fields -----

  /** The position of the point of a field's number fits in the two bytes the key has for it. */
  predicate PointFits(s: seq<Byte>, g: bool) {
    InRange(Normal(s, g))
  }

  /** Comparing the keys of two fields compares their numbers, in reverse under r. */
  predicate KeysOrder(s: seq<Byte>, t: seq<Byte>, g: bool, r: bool) {
    Agree(FieldKey(s, g, r), FieldKey(t, g, r), Value(s, g), Value(t, g), r)
  }

  /** The key of a numeric field. */
  function FieldKey(s: seq<Byte>, g: bool, r: bool): Key {
    NumberKey(Normal(s, g), r)
  }

  lemma {:induction false} KeysOrderIsFaithful(s: seq<Byte>, t: seq<Byte>, g: bool, r: bool)
    ensures KeysOrder(s, t, g, r) <==> Faithful(Normal(s, g), Normal(t, g), r)
  {
    NormalizeKeepsValue(Parse(s, g));
    NormalizeKeepsValue(Parse(t, g));
  }

  /** Fields whose points fit are sorted by value, and equal values get equal keys. */
  lemma {:induction false} NumericOrder(s: seq<Byte>, t: seq<Byte>, g: bool, r: bool)
    requires PointFits(s, g) && PointFits(t, g)
    ensures KeysOrder(s, t, g, r)
    ensures Value(s, g) == Value(t, g) <==> FieldKey(s, g, r) == FieldKey(t, g, r)
  {
    KeysOrderIsFaithful(s, t, g, r);
    InRangeFaithful(Normal(s, g), Normal(t, g), r);
    NumberKeysPrefixFree(Normal(s, g), Normal(t, g), r);
  }

  // ----- what is read, byte by byte -----

  /** The digits whose characters stand at i to j. */
  function DigitsAt(s: seq<Byte>, i: nat, j: nat): seq<Digit>
    requires i <= j <= |s| && forall k :: i <= k < j ==> 48 <= s[k] <= 57
  {
    seq(j - i, k requires 0 <= k < j - i => s[i + k] - 48)
  }

  lemma {:induction false} ReadDigits(s: seq<Byte>, i: nat, j: nat)
    requires i <= j <= |s| && forall k :: i <= k < j ==> 48 <= s[k] <= 57
    ensures Read(s, i, j) == DigitsAt(s, i, j)
  {
    hide DigitsAt;
    DigitsAtNext(s, i, j);
    if i < j {
      ReadDigits(s, i, j - 1);
    }
  }

  lemma {:induction false} DigitsAtNext(s: seq<Byte>, i: nat, j: nat)
    requires i <= j <= |s| && forall k :: i <= k < j ==> 48 <= s[k] <= 57
    ensures i == j ==> DigitsAt(s, i, j) == []
    ensures i < j ==> DigitsAt(s, i, j) == DigitsAt(s, i, j - 1) + [s[j - 1] - 48]
  {
  }

  lemma {:induction false} BlanksIs(s: seq<Byte>, i: nat, j: nat)
    requires i <= j <= |s| && (forall k :: i <= k < j ==> IsBlank(s[k])) && (j < |s| ==> !IsBlank(s[j]))
    ensures Blanks(s, i) == j
    decreases j - i
  {
    if i < j {
      BlanksIs(s, i + 1, j);
    }
  }

  /** Blanks up to b, a sign there or not, blanks up to p, digits up to a point at q, and digits up to f. */
  ghost predicate AsDecimal(s: seq<Byte>, b: nat, p: nat, q: nat, f: nat) {
    && b <= p <= q < f <= |s| && s[q] == 46
    && (forall k :: 0 <= k < b ==> s[k] == 32 || s[k] == 9)
    && (if s[b] == 43 || s[b] == 45 then b < p && forall k :: b < k < p ==> s[k] == 32 || s[k] == 9 else b == p)
    && (forall k :: p <= k < q || q < k < f ==> 48 <= s[k] <= 57)
    && (f < |s| ==> !(48 <= s[f] <= 57))
  }

  lemma {:induction false} SignRead(s: seq<Byte>, b: nat, p: nat, q: nat, f: nat)
    requires AsDecimal(s, b, p, q, f)
    ensures Blanks(s, 0) == b && (if IsSign(s[b]) then Blanks(s, b + 1) else b) == p
  {
    BlanksIs(s, 0, b);
    if b < p {
      BlanksIs(s, b + 1, p);
    }
  }

  lemma {:induction false} PointRead(s: seq<Byte>, b: nat, p: nat, q: nat, f: nat)
    requires AsDecimal(s, b, p, q, f)
    ensures Digits(s, p) == q && Digits(s, q + 1) == f && DigitsAt(s, p, q) == Read(s, p, q) && DigitsAt(s, q + 1, f) == Read(s, q + 1, f)
  {
    hide Read;
    DigitsIs(s, p, q);
    DigitsIs(s, q + 1, f);
    ReadDigits(s, p, q);
    ReadDigits(s, q + 1, f);
  }

  lemma {:induction false} DecimalSplit(s: seq<Byte>, b: nat, p: nat, q: nat, f: nat)
    requires AsDecimal(s, b, p, q, f)
    ensures Split(s) == Parts(b, p, q, q + 1, f)
  {
    hide Blanks, Digits, Read, DigitsAt, IsSign;
    SignRead(s, b, p, q, f);
    PointRead(s, b, p, q, f);
  }

  lemma {:induction false} DecimalParts(s: seq<Byte>, b: nat, p: nat, q: nat, f: nat)
    requires AsDecimal(s, b, p, q, f)
    ensures Split(s) == Parts(b, p, q, q + 1, f) && (Negative(s) <==> s[b] == 45)
    ensures WholePart(s) == DigitsAt(s, p, q) && FractPart(s) == DigitsAt(s, q + 1, f)
  {
    hide Blanks, Digits, Read, DigitsAt, Split;
    DecimalSplit(s, b, p, q, f);
    PointRead(s, b, p, q, f);
  }

  /** A field that holds a decimal, and no exponent, denotes the number written. */
  lemma {:induction false} DecimalRead(s: seq<Byte>, b: nat, p: nat, q: nat, f: nat, g: bool)
    requires AsDecimal(s, b, p, q, f) && (!g || f == |s| || (s[f] != 69 && s[f] != 101))
    ensures var v := Whole(DigitsAt(s, p, q)) as real + Frac(DigitsAt(s, q + 1, f));
            Value(s, g) == if s[b] == 45 then 0.0 - v else v
  {
    hide Split, Negative, WholePart, FractPart, DigitsAt;
    DecimalParts(s, b, p, q, f);
  }

  lemma {:induction false} ExponentIs(s: seq<Byte>, f: nat, x: nat, y: nat)
    requires f == Split(s).fractEnd < |s| && (s[f] == 69 || s[f] == 101)
    requires f < x <= y <= |s| && (forall k :: x <= k < y ==> 48 <= s[k] <= 57) && (y < |s| ==> !(48 <= s[y] <= 57))
    requires if f + 1 < |s| && (s[f + 1] == 43 || s[f + 1] == 45) then x == f + 2 else x == f + 1
    ensures Significant(Mantissa(s)) == [] ==> Exponent(s, true) == 0
    ensures Significant(Mantissa(s)) != [] ==>
              Exponent(s, true) == if x == f + 2 && s[f + 1] == 45 then -(Whole(DigitsAt(s, x, y)) as int) else Whole(DigitsAt(s, x, y))
  {
    hide Split, Mantissa, Significant, Read, Whole, DigitsAt, Digits;
    DigitsIs(s, x, y);
    ReadDigits(s, x, y);
    assert ExponentStart(s) == x;
  }

  /** Under -g an exponent after it, with a sign or not, from x to y, scales it by a power of ten. */
  lemma {:induction false} ExponentRead(s: seq<Byte>, b: nat, p: nat, q: nat, f: nat, x: nat, y: nat)
    requires AsDecimal(s, b, p, q, f) && f < |s| && (s[f] == 69 || s[f] == 101)
    requires f < x <= y <= |s| && (forall k :: x <= k < y ==> 48 <= s[k] <= 57) && (y < |s| ==> !(48 <= s[y] <= 57))
    requires if f + 1 < |s| && (s[f + 1] == 43 || s[f + 1] == 45) then x == f + 2 else x == f + 1
    ensures var v := Whole(DigitsAt(s, p, q)) as real + Frac(DigitsAt(s, q + 1, f));
            var e := Whole(DigitsAt(s, x, y));
            var z := Scale(v, if x == f + 2 && s[f + 1] == 45 then -(e as int) else e);
            Value(s, true) == if s[b] == 45 then 0.0 - z else z
  {
    hide Split, Negative, WholePart, FractPart, Read, Scale, Whole, Frac, DigitsAt, Exponent, Significant, AsDecimal;
    DecimalParts(s, b, p, q, f);
    ExponentIs(s, f, x, y);
    if Significant(Mantissa(s)) == [] {
      ZeroMantissa(WholePart(s), FractPart(s));
      ScaleZero(0);
      ScaleZero(if x == f + 2 && s[f + 1] == 45 then -(Whole(DigitsAt(s, x, y)) as int) else Whole(DigitsAt(s, x, y)));
    }
  }

  lemma {:induction false} ScaleZero(e: int)
    ensures Scale(0.0, e) == 0.0
  {
    ScaleMonotone(0.0, 0.0, e);
  }

  lemma {:induction false} ZeroMantissa(whole: seq<Digit>, fract: seq<Digit>)
    requires Significant(whole + fract) == []
    ensures Whole(whole) as real + Frac(fract) == 0.0
  {
    hide Significant, LeadZeros;
    var n := Numeral(false, whole, fract, 0);
    NormalizeKeepsSize(n);
    ScaleZero(Normalize(n).dp - BIAS);
    assert Frac([]) == 0.0;
  }

  /** A field is compared right with every field whose point fits exactly when its own point fits. */
  lemma {:induction false} NumericOrderExactly(s: seq<Byte>, g: bool, r: bool)
    ensures (forall t | PointFits(t, g) :: KeysOrder(s, t, g, r)) <==> PointFits(s, g)
  {
    if PointFits(s, g) {
      forall t | PointFits(t, g)
        ensures KeysOrder(s, t, g, r)
      {
        NumericOrder(s, t, g, r);
      }
    } else {
      var n := Confused(Normal(s, g));
      var t := NumberWritten(n, g);
      ConfusedIsConfused(Normal(s, g), r);
      KeysOrderIsFaithful(s, t, g, r);
      assert PointFits(t, g) && !KeysOrder(s, t, g, r);
    }
  }
}
