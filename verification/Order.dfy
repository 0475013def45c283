// Comparison of strings of small numbers, shared by the commands that sort or search.

/** Complemented bytes, and the comparison of byte or rune strings that sort.c, join.c and look.c rely on. */
module Order {
  import opened Basics

  /** One's complement of a byte, C's `~c` stored in a uint8_t. */
  function Inverted(c: Byte): Byte {
    255 - c
  }

  /** The number of leading positions on which two strings agree. */
  function Common(a: seq<int>, b: seq<int>): (n: nat)
    ensures n <= |a| && n <= |b|
    ensures a[..n] == b[..n]
    ensures n < |a| && n < |b| ==> a[n] != b[n]
  {
    if a == [] || b == [] || a[0] != b[0] then 0
    else
      var m := Common(a[1..], b[1..]);
      assert a[..m + 1] == [a[0]] + a[1..][..m];
      assert b[..m + 1] == [b[0]] + b[1..][..m];
      m + 1
  }

  /** Any point that splits off an agreeing part and then differs is the common length. */
  lemma {:induction false} CommonIs(a: seq<int>, b: seq<int>, n: nat)
    requires n <= |a| && n <= |b| && a[..n] == b[..n]
    requires n == |a| || n == |b| || a[n] != b[n]
    ensures Common(a, b) == n
  {
    var m := Common(a, b);
    assert forall k | 0 <= k < n :: a[..n][k] == b[..n][k];
    assert forall k | 0 <= k < m :: a[..m][k] == b[..m][k];
  }

  /** Dictionary order, a proper prefix coming first: negative, zero or positive. */
  function Compare(a: seq<int>, b: seq<int>): (c: int)
    ensures c == 0 <==> a == b
  {
    var n := Common(a, b);
    if n == |a| && n == |b| then
      assert a == a[..n] && b == b[..n];
      0
    else if n == |a| then -1
    else if n == |b| then 1
    else if a[n] < b[n] then -1
    else 1
  }

  /** The order of a dictionary: one string is a proper prefix of the other, or has less where they first differ. */
  lemma {:induction false} CompareMeans(a: seq<int>, b: seq<int>)
    ensures Compare(a, b) < 0 <==>
      exists n :: 0 <= n <= |a| && n < |b| && a[..n] == b[..n] && (n == |a| || a[n] < b[n])
    ensures Compare(a, b) in {-1, 0, 1}
  {
    if n :| 0 <= n <= |a| && n < |b| && a[..n] == b[..n] && (n == |a| || a[n] < b[n]) {
      CommonIs(a, b, n);
    } else {
      var m := Common(a, b);
      assert m < |b| ==> !(m == |a| || a[m] < b[m]);
    }
  }

  lemma {:induction false} CompareAntisymmetric(a: seq<int>, b: seq<int>)
    ensures Compare(a, b) == -Compare(b, a)
  {
    CommonIs(b, a, Common(a, b));
  }

  lemma {:induction false} CompareTransitive(a: seq<int>, b: seq<int>, c: seq<int>)
    requires Compare(a, b) <= 0 && Compare(b, c) <= 0
    ensures Compare(a, c) <= 0
    ensures Compare(a, b) < 0 || Compare(b, c) < 0 ==> Compare(a, c) < 0
  {
    var m, n := Common(a, b), Common(b, c);
    var k := if m <= n then m else n;
    assert a[..k] == a[..m][..k] == b[..m][..k] == b[..k];
    assert c[..k] == c[..n][..k] == b[..n][..k] == b[..k];
    if a != b && b != c {
      CommonIs(a, c, k);
    }
  }

  /** `p` is an initial part of `s`. */
  predicate IsPrefix(p: seq<int>, s: seq<int>) {
    |p| <= |s| && s[..|p|] == p
  }
}
