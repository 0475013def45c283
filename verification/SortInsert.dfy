// The items sort orders, and the insertion sort that finishes small partitions.

/** bsort4 of sort.c, and what it does to items whose keys are not prefix-free. */
module SortInsert {
  import opened Basics
  import opened Order
  import opened SortCompare

  /** A line and its key. */
  datatype Line = Line(key: Key, text: seq<Byte>)

  /** What a pointer in a sorted array leads to: a line, and for a merge the lines still unread in its file. */
  datatype Item = Item(key: Key, text: seq<Byte>, rest: seq<Line>)

  /** Each item is followed by one that `kcmp` does not put before it. */
  ghost predicate Ordered(s: seq<Item>) {
    forall i :: 0 <= i < |s| - 1 ==> Kcmp(s[i].key, s[i + 1].key) <= 0
  }

  /** Every key starts with p. */
  ghost predicate AllUnder(s: seq<Item>, p: Key) {
    forall i :: 0 <= i < |s| ==> IsPrefix(p, s[i].key)
  }

  /** The keys are in dictionary order. */
  ghost predicate Sorted(s: seq<Item>) {
    forall i, j :: 0 <= i < j < |s| ==> Compare(s[i].key, s[j].key) <= 0
  }

  ghost predicate AllPrefixFree(s: seq<Item>) {
    forall i, j :: 0 <= i < |s| && 0 <= j < |s| ==> PrefixFree(s[i].key, s[j].key)
  }

  // ----- comparing from a byte on -----

  /** The comparison in bsort4: no order if a key ends before byte b, else byte b, else the rest. */
  function CmpFrom(x: Key, y: Key, b: nat): int {
    if |x| <= b || |y| <= b then 0
    else if x[b] != y[b] then x[b] as int - y[b] as int
    else Kcmp(x[b..], y[b..])
  }

  /** Keys that agree on the first b bytes are compared as wholes. */
  lemma {:induction false} CmpFromIsKcmp(x: Key, y: Key, p: Key)
    requires IsPrefix(p, x) && IsPrefix(p, y)
    ensures CmpFrom(x, y, |p|) == Kcmp(x, y)
  {
    var b := |p|;
    assert x == p + x[b..] && y == p + y[b..];
    KcmpConcat(p, p, x[b..], y[b..]);
    if |x| > b && |y| > b && x[b] != y[b] {
      CommonIs(x[b..], y[b..], 0);
    }
  }

  // ----- insertion -----

  /** Put x after the last item that does not come after it. */
  function Insert(s: seq<Item>, x: Item): (r: seq<Item>)
    ensures |r| == |s| + 1
  {
    if s == [] || Kcmp(s[|s| - 1].key, x.key) <= 0 then s + [x]
    else Insert(s[..|s| - 1], x) + [s[|s| - 1]]
  }

  function InsertionSort(s: seq<Item>): (r: seq<Item>)
    ensures |r| == |s|
  {
    if s == [] then [] else Insert(InsertionSort(s[..|s| - 1]), s[|s| - 1])
  }

  lemma {:induction false} InsertKeeps(s: seq<Item>, x: Item)
    requires Ordered(s)
    ensures Ordered(Insert(s, x))
    ensures multiset(Insert(s, x)) == multiset(s) + multiset{x}
    ensures s != [] ==> Insert(s, x)[|s|] == x || Insert(s, x)[|s|] == s[|s| - 1]
  {
    hide Kcmp;
    if s == [] || Kcmp(s[|s| - 1].key, x.key) <= 0 {
    } else {
      var init, last := s[..|s| - 1], s[|s| - 1];
      InsertKeeps(init, x);
      assert s == init + [last];
      KcmpAntisymmetric(last.key, x.key);
      var r := Insert(init, x);
      if init != [] {
        assert Kcmp(s[|s| - 2].key, s[|s| - 1].key) <= 0;
      }
    }
  }

  /** Whatever the keys, the result is a permutation that `sort -c` would accept. */
  lemma {:induction false} InsertionSortOrders(s: seq<Item>)
    ensures Ordered(InsertionSort(s))
    ensures multiset(InsertionSort(s)) == multiset(s)
  {
    hide Kcmp, Insert;
    if s != [] {
      var init, x := s[..|s| - 1], s[|s| - 1];
      InsertionSortOrders(init);
      InsertKeeps(InsertionSort(init), x);
      assert s == init + [x];
    }
  }

  /** On prefix-free keys an ordered sequence is sorted. */
  lemma {:induction false} OrderedIsSorted(s: seq<Item>)
    requires Ordered(s) && AllPrefixFree(s)
    ensures Sorted(s)
  {
    hide Kcmp, Compare;
    if |s| > 1 {
      var n := |s| - 1;
      var init := s[..n];
      assert forall i | 0 <= i < |init| :: init[i] == s[i];
      OrderedIsSorted(init);
      KcmpIsCompare(s[n - 1].key, s[n].key);
      forall i | 0 <= i < n
        ensures Compare(s[i].key, s[n].key) <= 0
      {
        if i < n - 1 {
          assert Compare(init[i].key, init[n - 1].key) <= 0;
          CompareTransitive(s[i].key, s[n - 1].key, s[n].key);
        }
      }
    }
  }

  // ----- when insertion sorts -----

  /** One item stands before another. */
  ghost predicate Before(s: seq<Item>, x: Item, y: Item) {
    exists i, j :: 0 <= i < j < |s| && s[i] == x && s[j] == y
  }

  lemma {:induction false} InsertKeepsBefore(s: seq<Item>, z: Item, x: Item, y: Item)
    requires Before(s, x, y)
    ensures Before(Insert(s, z), x, y)
  {
    hide Kcmp;
    var i, j :| 0 <= i < j < |s| && s[i] == x && s[j] == y;
    if Kcmp(s[|s| - 1].key, z.key) <= 0 {
      assert (s + [z])[i] == x && (s + [z])[j] == y;
    } else {
      var init := s[..|s| - 1];
      var r := Insert(init, z);
      if j < |init| {
        assert init[i] == x && init[j] == y;
        InsertKeepsBefore(init, z, x, y);
        var k, l :| 0 <= k < l < |r| && r[k] == x && r[l] == y;
        assert (r + [s[|s| - 1]])[k] == x && (r + [s[|s| - 1]])[l] == y;
      } else {
        InsertMember(init, z, i);
        var k :| 0 <= k < |r| && r[k] == x;
        assert (r + [y])[k] == x && (r + [y])[|r|] == y;
      }
    }
  }

  lemma {:induction false} InsertMember(s: seq<Item>, z: Item, i: nat)
    requires i < |s|
    ensures exists k :: 0 <= k < |Insert(s, z)| && Insert(s, z)[k] == s[i]
  {
    hide Kcmp;
    if Kcmp(s[|s| - 1].key, z.key) <= 0 {
      assert Insert(s, z)[i] == s[i];
    } else {
      var init := s[..|s| - 1];
      if i < |init| {
        InsertMember(init, z, i);
        var k :| 0 <= k < |Insert(init, z)| && Insert(init, z)[k] == init[i];
        assert Insert(s, z)[k] == s[i];
      } else {
        assert Insert(s, z)[|s|] == s[i];
      }
    }
  }

  /** Two items inserted first, in an order `kcmp` does not object to, stay in that order. */
  lemma {:induction false} FirstTwoStay(x: Item, y: Item, rest: seq<Item>)
    requires Kcmp(x.key, y.key) <= 0
    ensures Before(InsertionSort([x, y] + rest), x, y)
  {
    hide Kcmp;
    var s := [x, y] + rest;
    if rest == [] {
      assert s[..1] == [x] && s[..1][..0] == [];
      assert InsertionSort([x]) == [x];
      assert InsertionSort(s) == [x, y];
      assert Before([x, y], x, y) by {
        assert [x, y][0] == x && [x, y][1] == y;
      }
    } else {
      assert s[..|s| - 1] == [x, y] + rest[..|rest| - 1];
      FirstTwoStay(x, y, rest[..|rest| - 1]);
      InsertKeepsBefore(InsertionSort(s[..|s| - 1]), s[|s| - 1], x, y);
    }
  }

  /** bsort4 sorts every arrangement of a set of items exactly when their keys are prefix-free. */
  lemma {:induction false} InsertionSortExactly(s: seq<Item>)
    ensures (forall t: seq<Item> | multiset(t) == multiset(s) :: Sorted(InsertionSort(t))) <==> AllPrefixFree(s)
  {
    if AllPrefixFree(s) {
      forall t: seq<Item> | multiset(t) == multiset(s)
        ensures Sorted(InsertionSort(t))
      {
        InsertionSortOrders(t);
        PrefixFreePermutes(s, InsertionSort(t));
        OrderedIsSorted(InsertionSort(t));
      }
    } else {
      var i, j :| 0 <= i < |s| && 0 <= j < |s| && !PrefixFree(s[i].key, s[j].key);
      if IsPrefix(s[i].key, s[j].key) {
        LongerFirst(s, i, j);
      } else {
        LongerFirst(s, j, i);
      }
    }
  }

  lemma {:induction false} PrefixFreePermutes(s: seq<Item>, t: seq<Item>)
    requires AllPrefixFree(s) && multiset(s) == multiset(t)
    ensures AllPrefixFree(t)
  {
    forall i, j | 0 <= i < |t| && 0 <= j < |t|
      ensures PrefixFree(t[i].key, t[j].key)
    {
      assert t[i] in multiset(s) && t[j] in multiset(s);
    }
  }

  /** Two chosen items can be brought to the front. */
  lemma {:induction false} BringToFront(s: seq<Item>, a: nat, c: nat) returns (rest: seq<Item>)
    requires a < c < |s|
    ensures multiset([s[a], s[c]] + rest) == multiset(s)
    ensures multiset([s[c], s[a]] + rest) == multiset(s)
  {
    rest := s[..a] + s[a + 1..c] + s[c + 1..];
    assert s == s[..a] + [s[a]] + s[a + 1..c] + [s[c]] + s[c + 1..];
  }

  /** The arrangement that puts a longer key first and a proper prefix of it second stays unsorted. */
  lemma {:induction false} LongerFirst(s: seq<Item>, i: nat, j: nat)
    requires i < |s| && j < |s| && IsPrefix(s[i].key, s[j].key) && s[i].key != s[j].key
    ensures exists t: seq<Item> :: multiset(t) == multiset(s) && !Sorted(InsertionSort(t))
  {
    hide Sorted, InsertionSort;
    var x, y := s[j], s[i];
    var rest;
    if i < j {
      rest := BringToFront(s, i, j);
    } else {
      rest := BringToFront(s, j, i);
    }
    StaysUnsorted(x, y, rest);
    assert multiset([x, y] + rest) == multiset(s);
  }

  lemma {:induction false} StaysUnsorted(x: Item, y: Item, rest: seq<Item>)
    requires IsPrefix(y.key, x.key) && x.key != y.key
    ensures !Sorted(InsertionSort([x, y] + rest))
  {
    FirstTwoStay(x, y, rest);
    CommonIs(x.key, y.key, |y.key|);
    assert Compare(x.key, y.key) > 0;
  }

  // ----- in place -----

  /** Where an insertion ends up. */
  lemma {:induction false} InsertAt(u: seq<Item>, x: Item, m: nat)
    requires m <= |u|
    requires m == 0 || Kcmp(u[m - 1].key, x.key) <= 0
    requires forall k :: m <= k < |u| ==> Kcmp(u[k].key, x.key) > 0
    ensures Insert(u, x) == u[..m] + [x] + u[m..]
  {
    hide Kcmp;
    if m < |u| {
      InsertAt(u[..|u| - 1], x, m);
    }
  }

  lemma {:induction false} UnderAfterSort(s: seq<Item>, n: nat, p: Key)
    requires n <= |s| && AllUnder(s, p)
    ensures AllUnder(InsertionSort(s[..n]), p)
  {
    var r := InsertionSort(s[..n]);
    InsertionSortOrders(s[..n]);
    forall i | 0 <= i < |r|
      ensures IsPrefix(p, r[i].key)
    {
      assert r[i] in multiset(r);
      assert r[i] in s[..n];
    }
  }

  /** The item at j has moved down to m, past exactly the items that come after it. */
  ghost predicate Sunk(before: seq<Item>, after: seq<Item>, lo: nat, j: nat, m: nat) {
    && |before| == |after| && lo <= m <= j < |before|
    && (m == lo || Kcmp(before[m - 1].key, before[j].key) <= 0)
    && (forall k :: m <= k < j ==> Kcmp(before[k].key, before[j].key) > 0)
    && (forall k :: 0 <= k < m ==> after[k] == before[k])
    && after[m] == before[j]
    && (forall k :: m < k <= j ==> after[k] == before[k - 1])
  }

  /** Move the item at j down to its place among the ordered items of a[lo..j]. */
  method SinkIn(a: array<Item>, lo: nat, j: nat, b: nat, ghost p: Key) returns (ghost m: nat)
    requires lo < j < a.Length && b == |p|
    requires forall k :: lo <= k <= j ==> IsPrefix(p, a[k].key)
    modifies a
    ensures Sunk(old(a[..]), a[..], lo, j, m)
    ensures forall k :: 0 <= k < lo || j < k < a.Length ==> a[k] == old(a[k])
  {
    hide Kcmp, CmpFrom, IsPrefix, Sunk, Sinking;
    ghost var s := a[..];
    var i := j - 1;
    CmpFromIsKcmp(a[i].key, a[j].key, p);
    m := j;
    SinkingNone(s, j);
    while CmpFrom(a[i].key, a[i + 1].key, b) > 0
      invariant lo <= i < j && m == i + 1
      invariant Sinking(s, a[..], m, j)
      invariant a[i] == s[i] && a[m] == s[j]
      invariant CmpFrom(s[i].key, s[j].key, b) == Kcmp(s[i].key, s[j].key)
      decreases i
    {
      SinkingStep(s, a[..], m, j);
      ghost var v := a[..];
      a[i], a[i + 1] := a[i + 1], a[i];
      assert a[..] == v[m - 1 := v[m]][m := v[m - 1]];
      m := i;
      if i <= lo {
        SinkingDone(s, a[..], lo, m, j);
        return;
      }
      i := i - 1;
      SinkingAt(s, a[..], m, j);
      CmpFromIsKcmp(s[i].key, s[j].key, p);
    }
    SinkingDone(s, a[..], lo, m, j);
  }

  /** The item at j has moved down to m so far. */
  ghost predicate Sinking(s: seq<Item>, v: seq<Item>, m: nat, j: nat) {
    && |v| == |s| && m <= j < |s| && v[m] == s[j]
    && (forall k :: m <= k < j ==> Kcmp(s[k].key, s[j].key) > 0)
    && (forall k :: 0 <= k < m || j < k < |s| ==> v[k] == s[k])
    && (forall k :: m < k <= j ==> v[k] == s[k - 1])
  }

  lemma {:induction false} SinkingNone(s: seq<Item>, j: nat)
    requires j < |s|
    ensures Sinking(s, s, j, j)
  {
  }

  lemma {:induction false} SinkingAt(s: seq<Item>, v: seq<Item>, m: nat, j: nat)
    requires Sinking(s, v, m, j) && 0 < m
    ensures v[m - 1] == s[m - 1] && v[m] == s[j]
  {
  }

  lemma {:induction false} SinkingStep(s: seq<Item>, v: seq<Item>, m: nat, j: nat)
    requires Sinking(s, v, m, j) && 0 < m && Kcmp(s[m - 1].key, s[j].key) > 0
    ensures Sinking(s, v[m - 1 := v[m]][m := v[m - 1]], m - 1, j)
  {
    hide Kcmp;
  }

  lemma {:induction false} SinkingDone(s: seq<Item>, v: seq<Item>, lo: nat, m: nat, j: nat)
    requires Sinking(s, v, m, j) && lo <= m && (m == lo || Kcmp(s[m - 1].key, s[j].key) <= 0)
    ensures Sunk(s, v, lo, j, m) && forall k :: 0 <= k < lo || j < k < |s| ==> v[k] == s[k]
  {
    hide Kcmp;
  }

  /** The items of a partly sorted stretch still start with p. */
  lemma {:induction false} UnderInPlace(s: seq<Item>, n: nat, before: seq<Item>, lo: nat, p: Key)
    requires AllUnder(s, p) && n < |s| && lo + n < |before|
    requires before[lo..lo + n] == InsertionSort(s[..n]) && before[lo + n] == s[n]
    ensures forall k :: lo <= k <= lo + n ==> IsPrefix(p, before[k].key)
  {
    hide InsertionSort, IsPrefix;
    UnderAfterSort(s, n, p);
    forall k | lo <= k <= lo + n
      ensures IsPrefix(p, before[k].key)
    {
      assert k < lo + n ==> before[k] == before[lo..lo + n][k - lo];
    }
  }

  /** One more item inserted. */
  lemma {:induction false} InsertedInPlace(s: seq<Item>, n: nat, before: seq<Item>, after: seq<Item>, lo: nat, m: nat)
    requires n < |s| && Sunk(before, after, lo, lo + n, m)
    requires before[lo..lo + n] == InsertionSort(s[..n]) && before[lo + n] == s[n]
    ensures after[lo..lo + n + 1] == InsertionSort(s[..n + 1])
  {
    hide Kcmp, Insert;
    var u, x, i := before[lo..lo + n], s[n], m - lo;
    InsertAt(u, x, i);
    assert after[lo..lo + n + 1] == u[..i] + [x] + u[i..];
    assert s[..n + 1][..n] == s[..n];
  }

  /** Insertion sort of a[lo..lo + n], whose keys agree on the first b bytes. */
  method Bsort4(a: array<Item>, lo: nat, n: nat, b: nat, ghost p: Key)
    requires lo + n <= a.Length && b == |p| && AllUnder(a[lo..lo + n], p)
    modifies a
    ensures a[lo..lo + n] == InsertionSort(old(a[lo..lo + n]))
    ensures forall k :: 0 <= k < lo || lo + n <= k < a.Length ==> a[k] == old(a[k])
  {
    hide Kcmp, IsPrefix, InsertionSort, Sunk;
    ghost var s := a[lo..lo + n];
    SingletonSort(s);
    if n == 0 {
      return;
    }
    var j := lo;
    while j + 1 < lo + n
      invariant lo <= j < lo + n
      invariant a[..][lo..j + 1] == InsertionSort(s[..j + 1 - lo])
      invariant forall k :: j < k < lo + n ==> a[k] == s[k - lo]
      invariant forall k :: 0 <= k < lo || lo + n <= k < a.Length ==> a[k] == old(a[k])
    {
      j := j + 1;
      ghost var before := a[..];
      UnderInPlace(s, j - lo, before, lo, p);
      ghost var m := SinkIn(a, lo, j, b, p);
      InsertedInPlace(s, j - lo, before, a[..], lo, m);
    }
    assert s[..n] == s;
    assert a[lo..lo + n] == a[..][lo..lo + n];
  }

  lemma {:induction false} SingletonSort(s: seq<Item>)
    ensures s == [] ==> InsertionSort(s) == s
    ensures s != [] ==> InsertionSort(s[..1]) == s[..1] == [s[0]]
  {
    if s != [] {
      assert s[..1] == [s[0]] && s[..1][..0] == [];
    }
  }
}
