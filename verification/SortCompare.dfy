// Keys of sort and the order kcmp gives them.

/** Keys of sort.c and their comparison on the common prefix. */
module SortCompare {
  import opened Basics
  import opened Order

  type Key = seq<Byte>

  /** The comparison of `kcmp`: memcmp over the length of the shorter key. */
  function Kcmp(a: Key, b: Key): (c: int)
    ensures c == 0 <==> IsPrefix(a, b) || IsPrefix(b, a)
  {
    var n := Common(a, b);
    KcmpZero(a, b);
    if n == |a| || n == |b| then 0 else (a[n] as int) - (b[n] as int)
  }

  lemma {:induction false} KcmpZero(a: Key, b: Key)
    ensures Common(a, b) == |a| || Common(a, b) == |b| <==> IsPrefix(a, b) || IsPrefix(b, a)
  {
    if IsPrefix(a, b) {
      CommonIs(a, b, |a|);
    }
    if IsPrefix(b, a) {
      CommonIs(a, b, |b|);
    }
  }

  /** Neither key is a proper prefix of the other. */
  predicate PrefixFree(a: Key, b: Key) {
    IsPrefix(a, b) || IsPrefix(b, a) ==> a == b
  }

  /** The sign of an integer. */
  function Sign(c: int): int {
    if c < 0 then -1 else if c > 0 then 1 else 0
  }

  /** `kcmp` is dictionary order exactly on the pairs it cannot confuse. */
  lemma {:induction false} KcmpIsCompare(a: Key, b: Key)
    ensures Sign(Kcmp(a, b)) == Compare(a, b) <==> PrefixFree(a, b)
  {
    KcmpZero(a, b);
  }

  lemma {:induction false} KcmpAntisymmetric(a: Key, b: Key)
    ensures Kcmp(a, b) == -Kcmp(b, a)
  {
    CommonIs(b, a, Common(a, b));
  }

  /** Fields are compared left to right. */
  lemma {:induction false} KcmpConcat(a: Key, b: Key, x: Key, y: Key)
    requires PrefixFree(a, b)
    ensures Kcmp(a + x, b + y) == if a == b then Kcmp(x, y) else Kcmp(a, b)
    ensures PrefixFree(x, y) ==> PrefixFree(a + x, b + y)
  {
    var n := Common(a, b);
    KcmpZero(a, b);
    if a == b {
      CommonIs(a, b, |a|);
      var m := Common(x, y);
      assert (a + x)[..|a| + m] == a + x[..m] == (b + y)[..|a| + m];
      CommonIs(a + x, b + y, |a| + m);
      KcmpZero(x, y);
      KcmpZero(a + x, b + y);
      if PrefixFree(x, y) && (IsPrefix(a + x, b + y) || IsPrefix(b + y, a + x)) {
        assert x == y;
      }
    } else {
      assert n < |a| && n < |b|;
      assert (a + x)[..n] == a[..n] == b[..n] == (b + y)[..n];
      CommonIs(a + x, b + y, n);
      KcmpZero(a + x, b + y);
    }
  }

  /** Strings ended by a byte they do not contain. */
  lemma {:induction false} TerminatedPrefixFree(a: Key, b: Key, t: Byte)
    requires t !in a && t !in b
    ensures PrefixFree(a + [t], b + [t])
  {
    var x, y := a + [t], b + [t];
    assert |a| < |b| ==> y[..|x|][|a|] == b[|a|];
    assert |b| < |a| ==> x[..|y|][|b|] == a[|b|];
  }

  /** The complement of every byte. */
  function Invert(a: Key): (r: Key)
    ensures |r| == |a|
    ensures forall i :: 0 <= i < |a| ==> r[i] == Inverted(a[i])
  {
    seq(|a|, i requires 0 <= i < |a| => Inverted(a[i]))
  }

  lemma {:induction false} InvertConcat(a: Key, b: Key)
    ensures Invert(a + b) == Invert(a) + Invert(b)
  {
  }

  lemma {:induction false} InvertIsPrefix(a: Key, b: Key)
    ensures IsPrefix(Invert(a), Invert(b)) <==> IsPrefix(a, b)
    ensures Invert(a) == Invert(b) <==> a == b
  {
    if IsPrefix(Invert(a), Invert(b)) {
      assert forall i | 0 <= i < |a| :: Invert(b)[..|a|][i] == Invert(a)[i];
    }
    if IsPrefix(a, b) {
      assert forall i | 0 <= i < |a| :: b[..|a|][i] == a[i];
    }
    if Invert(a) == Invert(b) {
      assert forall i | 0 <= i < |a| :: Invert(a)[i] == Invert(b)[i];
    }
  }

  /** Complementing both keys reverses their order. */
  lemma {:induction false} KcmpInvert(a: Key, b: Key)
    ensures Kcmp(Invert(a), Invert(b)) == Kcmp(b, a)
    ensures PrefixFree(a, b) ==> PrefixFree(Invert(a), Invert(b))
  {
    var n := Common(a, b);
    assert forall i | 0 <= i < n :: a[..n][i] == b[..n][i];
    CommonIs(Invert(a), Invert(b), n);
    CommonIs(b, a, n);
    InvertIsPrefix(a, b);
    InvertIsPrefix(b, a);
  }
}
