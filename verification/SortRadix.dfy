// The radix sort of sort: counting, permuting in cycles, and recursing on each partition.

/** rsort4 and sort4 of sort.c on arrays, with the count array they share across all calls. */
module SortRadix {
  import opened Basics
  import opened Order
  import opened SortCompare
  import opened SortInsert

  const THRESHOLD := 14

  /** The partition of a key at byte b: its byte, or 256 if it ends there. */
  function Bucket(k: Key, b: nat): (c: nat)
    ensures c <= 256
  {
    if b < |k| then k[b] else 256
  }

  /** Partitions stand in this order: 256 first, then the bytes. */
  function Rank(c: nat): nat {
    if c == 256 then 0 else c + 1
  }

  function RankOf(x: Item, b: nat): (r: nat)
    ensures r <= 256
  {
    Rank(Bucket(x.key, b))
  }

  /** How many items belong in a partition. */
  ghost function CountAt(s: seq<Item>, b: nat, r: nat): (n: nat)
    ensures n <= |s|
  {
    if s == [] then 0 else CountAt(s[..|s| - 1], b, r) + if RankOf(s[|s| - 1], b) == r then 1 else 0
  }

  /** How many items belong in the partitions before one: where it starts. */
  ghost function CountBelow(s: seq<Item>, b: nat, r: nat): (n: nat) {
    if r == 0 then 0 else CountBelow(s, b, r - 1) + CountAt(s, b, r - 1)
  }

  // ----- counting -----

  lemma {:induction false} CountConcat(s: seq<Item>, t: seq<Item>, b: nat, r: nat)
    ensures CountAt(s + t, b, r) == CountAt(s, b, r) + CountAt(t, b, r)
  {
    if t == [] {
      assert s + t == s;
    } else {
      assert (s + t)[..|s + t| - 1] == s + t[..|t| - 1];
      CountConcat(s, t[..|t| - 1], b, r);
    }
  }

  lemma {:induction false} CountWithout(t: seq<Item>, i: nat, b: nat, r: nat)
    requires i < |t|
    ensures CountAt(t, b, r) == CountAt(t[..i] + t[i + 1..], b, r) + if RankOf(t[i], b) == r then 1 else 0
  {
    assert t == t[..i] + [t[i]] + t[i + 1..];
    CountConcat(t[..i], [t[i]], b, r);
    CountConcat(t[..i] + [t[i]], t[i + 1..], b, r);
    CountConcat(t[..i], t[i + 1..], b, r);
    assert [t[i]][..0] == [];
  }

  lemma {:induction false} Without<T>(t: seq<T>, i: nat)
    requires i < |t|
    ensures multiset(t[..i] + t[i + 1..]) == multiset(t) - multiset{t[i]}
  {
    assert t == t[..i] + [t[i]] + t[i + 1..];
  }

  /** An item of a sequence stands at some place of any permutation of it. */
  lemma {:induction false} FindIn<T>(s: seq<T>, t: seq<T>) returns (i: nat)
    requires s != [] && multiset(s) == multiset(t)
    ensures i < |t| && t[i] == s[|s| - 1]
    ensures multiset(t[..i] + t[i + 1..]) == multiset(s[..|s| - 1])
  {
    var n := |s| - 1;
    assert s[n] in multiset(t);
    i :| 0 <= i < |t| && t[i] == s[n];
    Without(t, i);
    Without(s, n);
    assert s[..n] + s[n + 1..] == s[..n];
  }

  lemma {:induction false} CountPermutes(s: seq<Item>, t: seq<Item>, b: nat, r: nat)
    requires multiset(s) == multiset(t)
    ensures CountAt(s, b, r) == CountAt(t, b, r)
  {
    if s == [] {
      assert |multiset(t)| == 0;
    } else {
      var i := FindIn(s, t);
      CountPermutes(s[..|s| - 1], t[..i] + t[i + 1..], b, r);
      CountWithout(t, i, b, r);
    }
  }

  lemma {:induction false} CountNone(s: seq<Item>, b: nat)
    ensures forall r :: CountAt(s[..0], b, r) == 0
  {
  }

  lemma {:induction false} CountMore(s: seq<Item>, b: nat, t: nat)
    requires t < |s|
    ensures forall r :: CountAt(s[..t + 1], b, r) == CountAt(s[..t], b, r) + if RankOf(s[t], b) == r then 1 else 0
  {
    assert s[..t + 1][..t] == s[..t];
  }

  lemma {:induction false} CountAll(s: seq<Item>, b: nat, r: nat)
    requires forall i :: 0 <= i < |s| ==> RankOf(s[i], b) == r
    ensures CountAt(s, b, r) == |s|
  {
    if s != [] {
      CountAll(s[..|s| - 1], b, r);
    }
  }

  lemma {:induction false} CountRange(s: seq<Item>, b: nat, r: nat, x: nat, y: nat)
    requires x <= y <= |s|
    requires forall i :: x <= i < y ==> RankOf(s[i], b) == r
    ensures CountAt(s, b, r) == CountAt(s[..x], b, r) + (y - x) + CountAt(s[y..], b, r)
  {
    assert s == s[..x] + s[x..y] + s[y..];
    CountConcat(s[..x] + s[x..y], s[y..], b, r);
    CountConcat(s[..x], s[x..y], b, r);
    CountAll(s[x..y], b, r);
  }

  lemma {:induction false} CountMember(s: seq<Item>, b: nat, i: nat)
    requires i < |s|
    ensures CountAt(s, b, RankOf(s[i], b)) > 0
  {
    if i < |s| - 1 {
      CountMember(s[..|s| - 1], b, i);
    }
  }

  /** A filled stretch of a partition and one more item of it outside the stretch. */
  lemma {:induction false} CountOneMore(s: seq<Item>, b: nat, r: nat, x: nat, y: nat, q: nat)
    requires x <= y <= |s| && q < |s| && !(x <= q < y)
    requires forall i :: x <= i < y ==> RankOf(s[i], b) == r
    requires RankOf(s[q], b) == r
    ensures CountAt(s, b, r) > y - x
  {
    CountRange(s, b, r, x, y);
    if q < x {
      CountMember(s[..x], b, q);
    } else {
      CountMember(s[y..], b, q - y);
    }
  }

  lemma {:induction false} BelowMonotone(s: seq<Item>, b: nat, q: nat, r: nat)
    requires q <= r
    ensures CountBelow(s, b, q) <= CountBelow(s, b, r)
  {
    if q < r {
      BelowMonotone(s, b, q, r - 1);
    }
  }

  /** Every item belongs in one of the 257 partitions. */
  lemma {:induction false} BelowAll(s: seq<Item>, b: nat)
    ensures CountBelow(s, b, 257) == |s|
  {
    if s == [] {
      BelowEmpty(b, 257);
    } else {
      var init := s[..|s| - 1];
      BelowAll(init, b);
      BelowAppend(s, b, 257);
    }
  }

  lemma {:induction false} BelowEmpty(b: nat, r: nat)
    ensures CountBelow([], b, r) == 0
  {
    if r > 0 {
      BelowEmpty(b, r - 1);
    }
  }

  lemma {:induction false} BelowAppend(s: seq<Item>, b: nat, r: nat)
    requires s != []
    ensures CountBelow(s, b, r) == CountBelow(s[..|s| - 1], b, r) + if RankOf(s[|s| - 1], b) < r then 1 else 0
  {
    if r > 0 {
      BelowAppend(s, b, r - 1);
    }
  }

  lemma {:induction false} BelowBound(s: seq<Item>, b: nat, r: nat)
    requires r <= 257
    ensures CountBelow(s, b, r) <= |s|
  {
    BelowAll(s, b);
    BelowMonotone(s, b, r, 257);
  }

  /** The same items in some order. */
  ghost predicate Permutes<T>(v: seq<T>, s: seq<T>) {
    multiset(v) == multiset(s)
  }

  // ----- the state of the permuting pass -----

  /** A partition that some item belongs in. */
  ghost predicate Used(s: seq<Item>, b: nat, c: nat) {
    CountAt(s, b, Rank(c)) > 0
  }

  /** The stretch of partition c, relative to the start of the items. */
  ghost predicate Inside(s: seq<Item>, b: nat, c: nat, i: int) {
    CountBelow(s, b, Rank(c)) <= i < CountBelow(s, b, Rank(c) + 1)
  }

  /**
   * Partition c is filled up to part[c], and count[c] says how many places are left.
   * `v` are the items now, `s` the items at the start, `lo` where they begin in the array.
   */
  ghost predicate Filled(v: seq<Item>, s: seq<Item>, b: nat, lo: nat, c: nat, part: int, count: int) {
    && CountBelow(s, b, Rank(c)) <= part - lo <= CountBelow(s, b, Rank(c) + 1) <= |v|
    && count == CountBelow(s, b, Rank(c) + 1) - (part - lo)
    && forall i :: CountBelow(s, b, Rank(c)) <= i < part - lo ==> RankOf(v[i], b) == Rank(c)
  }

  ghost predicate State(v: seq<Item>, s: seq<Item>, b: nat, lo: nat, part: seq<int>, count: seq<int>) {
    && |v| == |s| && |part| == |count| == 257
    && forall c :: 0 <= c <= 256 ==>
         if Used(s, b, c) then Filled(v, s, b, lo, c, part[c], count[c]) else count[c] == 0
  }

  lemma {:induction false} InsideOnce(s: seq<Item>, b: nat, c: nat, d: nat, i: int)
    requires c <= 256 && d <= 256 && Inside(s, b, c, i) && Inside(s, b, d, i)
    ensures c == d
  {
    if Rank(c) < Rank(d) {
      BelowMonotone(s, b, Rank(c) + 1, Rank(d));
    } else if Rank(d) < Rank(c) {
      BelowMonotone(s, b, Rank(d) + 1, Rank(c));
    }
  }

  /** No partition overfills: an item in hand finds a free place in its partition. */
  lemma {:induction false} RoomLeft(v: seq<Item>, s: seq<Item>, b: nat, lo: nat, part: seq<int>, count: seq<int>, q: nat, x: Item)
    requires State(v, s, b, lo, part, count) && q < |v|
    requires Permutes(v[q := x], s)
    requires part[Bucket(x.key, b)] - lo <= q || !Inside(s, b, Bucket(x.key, b), q)
    ensures var n := Bucket(x.key, b); Used(s, b, n) && Inside(s, b, n, part[n] - lo) && count[n] > 0
  {
    var n, w := Bucket(x.key, b), v[q := x];
    var r := Rank(n);
    CountMember(w, b, q);
    CountPermutes(w, s, b, r);
    var k, y := CountBelow(s, b, r), part[n] - lo;
    assert Filled(v, s, b, lo, n, part[n], count[n]);
    assert !(k <= q < y);
    CountOneMore(w, b, r, k, y, q);
  }

  /** Storing an item at the free place of its partition. */
  lemma {:induction false} StoreKeepsState(v: seq<Item>, s: seq<Item>, b: nat, lo: nat, part: seq<int>, count: seq<int>, x: Item)
    requires State(v, s, b, lo, part, count)
    requires var n := Bucket(x.key, b); Used(s, b, n) && Inside(s, b, n, part[n] - lo)
    ensures var n := Bucket(x.key, b);
            && 0 <= part[n] - lo < |v|
            && State(v[part[n] - lo := x], s, b, lo, part[n := part[n] + 1], count[n := count[n] - 1])
  {
    var n := Bucket(x.key, b);
    var u := part[n] - lo;
    assert Filled(v, s, b, lo, n, part[n], count[n]);
    var v', part', count' := v[u := x], part[n := part[n] + 1], count[n := count[n] - 1];
    forall c | 0 <= c <= 256
      ensures if Used(s, b, c) then Filled(v', s, b, lo, c, part'[c], count'[c]) else count'[c] == 0
    {
      if Used(s, b, c) && c != n {
        assert Filled(v, s, b, lo, c, part[c], count[c]);
        forall i | CountBelow(s, b, Rank(c)) <= i < part[c] - lo
          ensures RankOf(v'[i], b) == Rank(c)
        {
          assert Inside(s, b, c, i);
          if i == u {
            InsideOnce(s, b, c, n, i);
          }
        }
      }
    }
  }

  /** Every item is in its partition. */
  ghost predicate InPlace(v: seq<Item>, s: seq<Item>, b: nat) {
    forall i :: 0 <= i < |v| ==> Inside(s, b, Bucket(v[i].key, b), i)
  }

  /** When only partition 256 may have places left, everything is in place. */
  lemma {:induction false} FullIsInPlace(v: seq<Item>, s: seq<Item>, b: nat, lo: nat, part: seq<int>, count: seq<int>)
    requires State(v, s, b, lo, part, count) && multiset(v) == multiset(s)
    requires forall c :: 0 <= c < 256 ==> count[c] == 0
    ensures InPlace(v, s, b)
  {
    forall i | 0 <= i < |v|
      ensures Inside(s, b, Bucket(v[i].key, b), i)
    {
      var m := Bucket(v[i].key, b);
      CountMember(v, b, i);
      CountPermutes(v, s, b, Rank(m));
      assert Used(s, b, m);
      assert Filled(v, s, b, lo, m, part[m], count[m]);
      var k, y := CountBelow(s, b, Rank(m)), CountBelow(s, b, Rank(m) + 1);
      if m < 256 {
        if !(k <= i < y) {
          CountOneMore(v, b, Rank(m), k, y, i);
        }
      } else if i >= y {
        PlacedByRank(v, s, b, lo, part, count, i);
      }
    }
  }

  /** A place past partition 256 is in the full stretch of some byte's partition. */
  lemma {:induction false} PlacedByRank(v: seq<Item>, s: seq<Item>, b: nat, lo: nat, part: seq<int>, count: seq<int>, i: nat)
    requires State(v, s, b, lo, part, count) && CountBelow(s, b, 1) <= i < |v|
    requires forall c :: 0 <= c < 256 ==> count[c] == 0
    ensures Bucket(v[i].key, b) < 256
  {
    BelowAll(s, b);
    var c := 0;
    while c < 255 && CountBelow(s, b, c + 2) <= i
      invariant c < 256 && CountBelow(s, b, c + 1) <= i
      decreases 256 - c
    {
      c := c + 1;
    }
    assert Used(s, b, c);
    assert Filled(v, s, b, lo, c, part[c], count[c]);
    assert RankOf(v[i], b) == Rank(c);
  }

  // ----- order across partitions -----

  /** Items of different partitions are in order whatever follows byte b. */
  lemma {:induction false} CrossRank(x: Item, y: Item, p: Key)
    requires IsPrefix(p, x.key) && IsPrefix(p, y.key)
    requires RankOf(x, |p|) < RankOf(y, |p|)
    ensures Kcmp(x.key, y.key) <= 0
  {
    CmpFromIsKcmp(x.key, y.key, p);
  }

  /** Items whose keys end at byte b have equal keys. */
  lemma {:induction false} RankZero(x: Item, y: Item, p: Key)
    requires IsPrefix(p, x.key) && IsPrefix(p, y.key)
    requires RankOf(x, |p|) == 0
    ensures Kcmp(x.key, y.key) <= 0
  {
    CmpFromIsKcmp(x.key, y.key, p);
  }

  lemma {:induction false} LongerPrefix(x: Item, p: Key, c: Byte)
    requires IsPrefix(p, x.key) && Bucket(x.key, |p|) == c
    ensures IsPrefix(p + [c], x.key)
  {
  }

  // ----- the list of partitions in use -----

  /** The byte values below n that some item has at byte b, in order. */
  ghost function UsedBytes(s: seq<Item>, b: nat, n: nat): (cs: seq<nat>)
    requires n <= 256
    ensures |cs| <= n
    ensures forall k :: 0 <= k < |cs| ==> cs[k] < n && Used(s, b, cs[k])
  {
    if n == 0 then []
    else if Used(s, b, n - 1) then UsedBytes(s, b, n - 1) + [n - 1]
    else UsedBytes(s, b, n - 1)
  }

  lemma {:induction false} UsedBytesComplete(s: seq<Item>, b: nat, n: nat, c: nat)
    requires c < n <= 256 && Used(s, b, c)
    ensures c in UsedBytes(s, b, n)
  {
    if c < n - 1 {
      UsedBytesComplete(s, b, n - 1, c);
    }
  }

  lemma {:induction false} UsedBytesSkip(s: seq<Item>, b: nat, m: nat, n: nat)
    requires m <= n <= 256
    requires forall c :: m <= c < n ==> !Used(s, b, c)
    ensures UsedBytes(s, b, n) == UsedBytes(s, b, m)
    ensures CountBelow(s, b, n + 1) == CountBelow(s, b, m + 1)
  {
    if m < n {
      UsedBytesSkip(s, b, m, n - 1);
      assert !Used(s, b, n - 1);
    }
  }

  /** Between two neighbours in the list no partition is in use. */
  lemma {:induction false} UsedBytesNext(s: seq<Item>, b: nat, n: nat, k: nat)
    requires n <= 256 && k < |UsedBytes(s, b, n)|
    ensures var cs := UsedBytes(s, b, n);
            && CountBelow(s, b, cs[k] + 2) == CountBelow(s, b, if k + 1 < |cs| then cs[k + 1] + 1 else n + 1)
            && CountBelow(s, b, cs[k] + 2) == CountBelow(s, b, cs[k] + 1) + CountAt(s, b, cs[k] + 1)
            && (k + 1 < |cs| ==> cs[k] < cs[k + 1])
  {
    hide CountAt;
    var cs := UsedBytes(s, b, n);
    if Used(s, b, n - 1) {
      if k < |cs| - 1 {
        UsedBytesNext(s, b, n - 1, k);
      }
    } else {
      UsedBytesNext(s, b, n - 1, k);
      assert CountAt(s, b, Rank(n - 1)) == 0;
    }
  }

  lemma {:induction false} UsedBytesFirst(s: seq<Item>, b: nat)
    ensures var cs := UsedBytes(s, b, 256);
            CountBelow(s, b, 1) == if cs == [] then |s| else CountBelow(s, b, cs[0] + 1)
  {
    var cs := UsedBytes(s, b, 256);
    BelowAll(s, b);
    if cs == [] {
      forall c | 0 <= c < 256
        ensures !Used(s, b, c)
      {
        if Used(s, b, c) {
          UsedBytesComplete(s, b, 256, c);
        }
      }
      UsedBytesSkip(s, b, 0, 256);
    } else {
      forall c | 0 <= c < cs[0]
        ensures !Used(s, b, c)
      {
        if Used(s, b, c) {
          UsedBytesComplete(s, b, 256, c);
          var k :| 0 <= k < |cs| && cs[k] == c;
          UsedBytesIncreasing(s, b, 256, 0, k);
        }
      }
      UsedBytesSkip(s, b, 0, cs[0]);
    }
  }

  lemma {:induction false} UsedBytesIncreasing(s: seq<Item>, b: nat, n: nat, j: nat, k: nat)
    requires n <= 256 && j <= k < |UsedBytes(s, b, n)|
    ensures UsedBytes(s, b, n)[j] <= UsedBytes(s, b, n)[k]
    ensures j < k ==> UsedBytes(s, b, n)[j] < UsedBytes(s, b, n)[k]
  {
    if Used(s, b, n - 1) && k == |UsedBytes(s, b, n)| - 1 {
    } else {
      UsedBytesIncreasing(s, b, n - 1, j, k);
    }
  }

  /** The compacted list of counts and bytes that pass 2 leaves, ended by a zero. */
  ghost predicate Listed(cl: seq<int>, s: seq<Item>, b: nat, cs: seq<nat>) {
    && |cl| == 514 && |cs| <= 256
    && cl[0] == CountAt(s, b, 0)
    && (forall k :: 0 <= k < |cs| ==> cl[1 + 2 * k] == CountAt(s, b, cs[k] + 1) && cl[2 + 2 * k] == cs[k])
  }

  /** The list has no 0 before its end. */
  lemma {:induction false} ListedUntil(cl: seq<int>, s: seq<Item>, b: nat, k: nat)
    requires Listed(cl, s, b, UsedBytes(s, b, 256)) && k <= |UsedBytes(s, b, 256)|
    ensures k < |UsedBytes(s, b, 256)| ==> cl[1 + 2 * k] != 0
  {
    var cs := UsedBytes(s, b, 256);
    if k < |cs| {
      assert Used(s, b, cs[k]);
    }
  }

  ghost function Sum(ns: seq<int>): int {
    if ns == [] then 0 else Sum(ns[..|ns| - 1]) + ns[|ns| - 1]
  }

  lemma {:induction false} SumUpdate(ns: seq<int>, i: nat, x: int)
    requires i < |ns|
    ensures Sum(ns[i := x]) == Sum(ns) - ns[i] + x
  {
    var n := |ns| - 1;
    if i < n {
      assert ns[i := x][..n] == ns[..n][i := x];
      SumUpdate(ns[..n], i, x);
    } else {
      assert ns[i := x][..n] == ns[..n];
    }
  }

  lemma {:induction false} SumNatural(ns: seq<int>)
    requires forall i :: 0 <= i < |ns| ==> ns[i] >= 0
    ensures Sum(ns) >= 0
  {
    if ns != [] {
      SumNatural(ns[..|ns| - 1]);
    }
  }

  /** The hole left by the item in hand moves to where the next one was. */
  lemma {:induction false} MoveHole<T>(v: seq<T>, u: nat, q: nat, x: T, s: seq<T>)
    requires u < |v| && q < |v| && u != q && Permutes(v[q := x], s)
    ensures Permutes(v[u := x][q := v[u]], s)
  {
    var w := v[q := x];
    assert v[u := x][q := v[u]] == w[u := x][q := v[u]];
    Exchange(w, u, q);
  }

  lemma {:induction false} Exchange<T>(w: seq<T>, i: nat, j: nat)
    requires i < |w| && j < |w|
    ensures multiset(w[i := w[j]][j := w[i]]) == multiset(w)
  {
  }

  lemma {:induction false} CountsNatural(v: seq<Item>, s: seq<Item>, b: nat, lo: nat, part: seq<int>, count: seq<int>)
    requires State(v, s, b, lo, part, count)
    ensures forall c :: 0 <= c <= 256 ==> count[c] >= 0
  {
    forall c | 0 <= c <= 256
      ensures count[c] >= 0
    {
      assert Used(s, b, c) ==> Filled(v, s, b, lo, c, part[c], count[c]);
    }
  }

  lemma {:induction false} UnusedIsZero(v: seq<Item>, s: seq<Item>, b: nat, lo: nat, part: seq<int>, count: seq<int>, c: nat)
    requires State(v, s, b, lo, part, count) && c <= 256 && !Used(s, b, c)
    ensures count[c] == 0
  {
  }

  lemma {:induction false} ChaseStart(v: seq<Item>, s: seq<Item>, b: nat, lo: nat, c: nat, part: seq<int>, count: seq<int>)
    requires State(v, s, b, lo, part, count) && c <= 256 && count[c] > 0
    ensures 0 <= part[c] - lo < |v| && Inside(s, b, c, part[c] - lo)
  {
    assert Filled(v, s, b, lo, c, part[c], count[c]);
  }

  lemma {:induction false} StateLengths(v: seq<Item>, s: seq<Item>, b: nat, lo: nat, part: seq<int>, count: seq<int>)
    requires State(v, s, b, lo, part, count)
    ensures |v| == |s| && |part| == |count| == 257
  {
  }

  /** One item stored where it belongs, the item there taken in hand; or the cycle closed. */
  lemma {:induction false} ChaseStep(v: seq<Item>, s: seq<Item>, b: nat, lo: nat, part: seq<int>, count: seq<int>,
                  c: nat, q: nat, x: Item)
    requires State(v, s, b, lo, part, count) && c <= 256 && q < |v|
    requires part[c] - lo == q && Inside(s, b, c, q) && Permutes(v[q := x], s)
    ensures var d := Bucket(x.key, b);
            && 0 <= part[d] - lo < |v| && count[d] > 0
            && var v', count' := v[part[d] - lo := x], count[d := count[d] - 1];
               && State(v', s, b, lo, part[d := part[d] + 1], count')
               && Sum(count') < Sum(count) && Sum(count') >= 0
               && (if d == c then Permutes(v', s)
                   else Permutes(v'[q := v[part[d] - lo]], s))
  {
    hide Permutes, State, Bucket, Inside;
    StateLengths(v, s, b, lo, part, count);
    var d := Bucket(x.key, b);
    if d != c && Inside(s, b, d, q) {
      InsideOnce(s, b, c, d, q);
    }
    RoomLeft(v, s, b, lo, part, count, q, x);
    StoreKeepsState(v, s, b, lo, part, count, x);
    var u := part[d] - lo;
    var v', part', count' := v[u := x], part[d := part[d] + 1], count[d := count[d] - 1];
    CountsNatural(v', s, b, lo, part', count');
    assert forall c | 0 <= c < |count'| :: count'[c] >= 0;
    SumNatural(count');
    SumUpdate(count, d, count[d] - 1);
    if d != c {
      if u == q {
        InsideOnce(s, b, c, d, q);
      }
      MoveHole(v, u, q, x, s);
    }
  }

  lemma {:induction false} LayoutStart(s: seq<Item>, b: nat)
    ensures UsedBytes(s, b, 0) == [] && CountBelow(s, b, 0) == 0 && CountBelow(s, b, 1) == CountAt(s, b, 0)
  {
  }

  lemma {:induction false} UsedBytesStep(s: seq<Item>, b: nat, c: nat)
    requires c < 256
    ensures UsedBytes(s, b, c + 1) == UsedBytes(s, b, c) + if Used(s, b, c) then [c] else []
    ensures CountBelow(s, b, c + 2) == CountBelow(s, b, c + 1) + CountAt(s, b, Rank(c))
  {
  }

  // ----- recursing on the partitions -----

  /** The items start with every count equal to the room in its partition. */
  lemma {:induction false} StateAtStart(s: seq<Item>, b: nat, lo: nat, part: seq<int>, count: seq<int>)
    requires |part| == |count| == 257
    requires forall c :: 0 <= c <= 256 ==> count[c] == CountAt(s, b, Rank(c))
    requires forall c :: 0 <= c <= 256 && Used(s, b, c) ==> part[c] == lo + CountBelow(s, b, Rank(c))
    ensures State(s, s, b, lo, part, count)
  {
    forall c | 0 <= c <= 256
      ensures if Used(s, b, c) then Filled(s, s, b, lo, c, part[c], count[c]) else count[c] == 0
    {
      BelowBound(s, b, Rank(c) + 1);
    }
  }

  /** The first h of the items `w`, which are in place, have been sorted to give `v`. */
  ghost predicate Half(v: seq<Item>, w: seq<Item>, h: nat) {
    h <= |v| == |w| && v[h..] == w[h..] && Permutes(v[..h], w[..h]) && Ordered(v[..h])
  }

  /** The rank of an item in place lies between the ends of the stretch it stands in. */
  lemma {:induction false} RankInPlace(w: seq<Item>, s: seq<Item>, b: nat, j: nat, q: nat)
    requires InPlace(w, s, b) && j < |w|
    ensures j < CountBelow(s, b, q) ==> RankOf(w[j], b) < q
    ensures j >= CountBelow(s, b, q) ==> RankOf(w[j], b) >= q
  {
    assert Inside(s, b, Bucket(w[j].key, b), j);
    var r := RankOf(w[j], b);
    if r >= q {
      BelowMonotone(s, b, q, r);
    } else {
      BelowMonotone(s, b, r + 1, q);
    }
  }

  lemma {:induction false} MemberOf(v: seq<Item>, w: seq<Item>, i: nat) returns (j: nat)
    requires Permutes(v, w) && i < |v|
    ensures j < |w| && w[j] == v[i]
  {
    assert v[i] in multiset(w);
    j :| 0 <= j < |w| && w[j] == v[i];
  }

  lemma {:induction false} HalfStart(w: seq<Item>, s: seq<Item>, p: Key)
    requires InPlace(w, s, |p|) && AllUnder(w, p) && CountBelow(s, |p|, 1) <= |w|
    ensures Half(w, w, CountBelow(s, |p|, 1))
  {
    var h := CountBelow(s, |p|, 1);
    forall i | 0 <= i && i + 1 < h
      ensures Kcmp(w[..h][i].key, w[..h][i + 1].key) <= 0
    {
      RankInPlace(w, s, |p|, i, 1);
      RankZero(w[i], w[i + 1], p);
    }
  }

  /** The items of one partition all start with one more byte. */
  lemma {:induction false} SegmentUnder(v: seq<Item>, w: seq<Item>, s: seq<Item>, p: Key, h: nat, g: nat, c: Byte)
    requires Half(v, w, h) && InPlace(w, s, |p|) && AllUnder(w, p)
    requires h == CountBelow(s, |p|, c + 1) && g == CountBelow(s, |p|, c + 2) && h <= g <= |v|
    ensures AllUnder(v[h..g], p + [c])
  {
    forall i | 0 <= i < g - h
      ensures IsPrefix(p + [c], v[h..g][i].key)
    {
      assert v[h..g][i] == v[h..][i] == w[h + i];
      RankInPlace(w, s, |p|, h + i, c + 1);
      RankInPlace(w, s, |p|, h + i, c + 2);
      LongerPrefix(w[h + i], p, c);
    }
  }

  lemma {:induction false} AcrossBoundary(v: seq<Item>, v': seq<Item>, w: seq<Item>, s: seq<Item>, p: Key, h: nat, g: nat, r: nat)
    requires Half(v, w, h) && InPlace(w, s, |p|) && AllUnder(w, p)
    requires h == CountBelow(s, |p|, r) && 0 < h < g <= |v| == |v'|
    requires v'[..h] == v[..h] && Permutes(v'[h..g], v[h..g])
    ensures Kcmp(v'[h - 1].key, v'[h].key) <= 0
  {
    var i := MemberOf(v[..h], w[..h], h - 1);
    RankInPlace(w, s, |p|, i, r);
    assert v'[h - 1] == v'[..h][h - 1] == v[..h][h - 1] == w[i];
    var j := MemberOf(v'[h..g], v[h..g], 0);
    assert v'[h] == v[h..g][j] == v[h..][j] == w[h + j];
    RankInPlace(w, s, |p|, h + j, r);
    CrossRank(w[i], w[h + j], p);
  }

  lemma {:induction false} OrderedConcat(x: seq<Item>, y: seq<Item>)
    requires Ordered(x) && Ordered(y)
    requires x != [] && y != [] ==> Kcmp(x[|x| - 1].key, y[0].key) <= 0
    ensures Ordered(x + y)
  {
    hide Kcmp;
    var z := x + y;
    forall i | 0 <= i < |z| - 1
      ensures Kcmp(z[i].key, z[i + 1].key) <= 0
    {
      assert i + 1 < |x| || i + 1 == |x| || i + 1 > |x|;
    }
  }

  lemma {:induction false} PermutesConcat(x: seq<Item>, y: seq<Item>, u: seq<Item>, v: seq<Item>)
    requires Permutes(x, u) && Permutes(y, v)
    ensures Permutes(x + y, u + v)
  {
  }

  lemma {:induction false} HalfStep(v: seq<Item>, v': seq<Item>, w: seq<Item>, s: seq<Item>, p: Key, h: nat, g: nat, r: nat)
    requires Half(v, w, h) && InPlace(w, s, |p|) && AllUnder(w, p)
    requires h == CountBelow(s, |p|, r) && h < g <= |v| == |v'|
    requires v'[..h] == v[..h] && v'[g..] == v[g..]
    requires Permutes(v'[h..g], v[h..g]) && Ordered(v'[h..g])
    ensures Half(v', w, g)
  {
    hide Permutes, Ordered, InPlace, AllUnder, CountBelow, Kcmp;
    if h > 0 {
      AcrossBoundary(v, v', w, s, p, h, g, r);
      assert v[..h][h - 1] == v[h - 1] == v'[..h][h - 1] == v'[h - 1];
    }
    OrderedConcat(v'[..h], v'[h..g]);
    SameTail(v, w, h, g);
    PermutesConcat(v'[..h], v'[h..g], w[..h], w[h..g]);
    SplitAt(v', h, g);
    SplitAt(w, h, g);
  }

  lemma {:induction false} SameTail<T>(v: seq<T>, w: seq<T>, h: nat, g: nat)
    requires h <= g <= |v| == |w| && v[h..] == w[h..]
    ensures v[h..g] == w[h..g] && v[g..] == w[g..]
  {
    assert v[h..g] == v[h..][..g - h] && w[h..g] == w[h..][..g - h];
    assert v[g..] == v[h..][g - h..] && w[g..] == w[h..][g - h..];
  }

  lemma {:induction false} SplitAt<T>(v: seq<T>, h: nat, g: nat)
    requires h <= g <= |v|
    ensures v[..g] == v[..h] + v[h..g]
  {
  }

  /** The sorter: `count` outlives every call, as a static array does. */
  class Sorter {
    const count: array<int>

    constructor ()
      ensures Clear() && fresh(count)
    {
      count := new int[257](_ => 0);
    }

    /** All counts are zero, as each call of rsort4 expects. */
    ghost predicate Clear()
      reads count
    {
      count.Length == 257 && forall c :: 0 <= c <= 256 ==> count[c] == 0
    }

    /** Pass 1: count the items of each partition, and find the least and greatest byte. */
    method Tally(a: array<Item>, lo: nat, n: nat, b: nat) returns (lowc: nat, higc: nat)
      requires Clear() && lo + n <= a.Length
      modifies count
      ensures forall c :: 0 <= c <= 256 ==> count[c] == CountAt(a[lo..lo + n], b, Rank(c))
      ensures lowc <= 256 && higc <= 255
      ensures forall c :: 0 <= c < 256 && count[c] > 0 ==> lowc <= c <= higc
    {
      hide CountAt;
      lowc, higc := 256, 0;
      ghost var s := a[lo..lo + n];
      CountNone(s, b);
      for t := 0 to n
        invariant forall c :: 0 <= c <= 256 ==> count[c] == CountAt(s[..t], b, Rank(c))
        invariant lowc <= 256 && higc <= 255
        invariant forall c :: 0 <= c < 256 && count[c] > 0 ==> lowc <= c <= higc
      {
        var k := a[lo + t].key;
        CountMore(s, b, t);
        assert s[t] == a[lo + t];
        if b >= |k| {
          count[256] := count[256] + 1;
        } else {
          var c := k[b];
          if count[c] == 0 {
            if c < lowc {
              lowc := c;
            }
            if c > higc {
              higc := c;
            }
          }
          count[c] := count[c] + 1;
        }
      }
      assert s[..n] == s;
    }

    /** Pass 2: where each partition starts, and the list of partitions in use; 514 entries are enough. */
    method Layout(lo: nat, b: nat, lowc: nat, higc: nat, part: array<int>, clist: array<int>, ghost s: seq<Item>)
      requires count.Length == 257 && part.Length == 257 && clist.Length == 514
      requires part != count && clist != count && part != clist
      requires forall c :: 0 <= c <= 256 ==> count[c] == CountAt(s, b, Rank(c))
      requires lowc <= 256 && higc <= 255
      requires forall c :: 0 <= c < 256 && count[c] > 0 ==> lowc <= c <= higc
      modifies part, clist
      ensures forall c :: 0 <= c <= 256 && Used(s, b, c) ==> part[c] == lo + CountBelow(s, b, Rank(c))
      ensures Listed(clist[..], s, b, UsedBytes(s, b, 256))
      ensures clist[1 + 2 * |UsedBytes(s, b, 256)|] == 0
    {
      hide CountAt, CountBelow, UsedBytes;
      LayoutStart(s, b);
      var t := lo;
      clist[0] := count[256];
      part[256] := t;
      t := t + count[256];
      var cp1 := 1;
      var c := lowc;
      UsedBytesSkip(s, b, 0, lowc);
      while c <= higc
        invariant lowc <= c <= 256
        invariant c > higc + 1 ==> c == lowc
        invariant t == lo + CountBelow(s, b, c + 1)
        invariant cp1 == 1 + 2 * |UsedBytes(s, b, c)|
        invariant Listed(clist[..], s, b, UsedBytes(s, b, c))
        invariant forall d :: (0 <= d < c || d == 256) && Used(s, b, d) ==> part[d] == lo + CountBelow(s, b, Rank(d))
      {
        var n := count[c];
        UsedBytesStep(s, b, c);
        if n > 0 {
          clist[cp1] := n;
          clist[cp1 + 1] := c;
          cp1 := cp1 + 2;
          part[c] := t;
          t := t + n;
        }
        c := c + 1;
      }
      UsedBytesSkip(s, b, c, 256);
      clist[cp1] := 0;
    }

    /** Store an item at the lowest free place of its partition, and take the item that was there. */
    method Store(a: array<Item>, lo: nat, n: nat, b: nat, part: array<int>, x: Item) returns (d: nat, y: Item)
      requires lo + n <= a.Length && part.Length == count.Length == 257 && part != count
      requires 0 <= part[Bucket(x.key, b)] - lo < n
      modifies a, part, count
      ensures d == Bucket(x.key, b) && y == old(a[part[d]])
      ensures a[lo..lo + n] == old(a[lo..lo + n])[old(part[d]) - lo := x]
      ensures part[..] == old(part[..])[d := old(part[d]) + 1]
      ensures count[..] == old(count[..])[d := old(count[d]) - 1]
      ensures forall i :: 0 <= i < lo || lo + n <= i < a.Length ==> a[i] == old(a[i])
    {
      d := Bucket(x.key, b);
      var u := part[d];
      part[d] := u + 1;
      count[d] := count[d] - 1;
      y := a[u];
      a[u] := x;
    }

    /** Chase one displaced item after another until the cycle closes at the partition it started from. */
    method Chase(a: array<Item>, lo: nat, n: nat, b: nat, c: nat, part: array<int>, ghost s: seq<Item>)
      requires lo + n <= a.Length && c < 256 && part.Length == count.Length == 257 && part != count
      requires State(a[lo..lo + n], s, b, lo, part[..], count[..])
      requires Permutes(a[lo..lo + n], s) && count[c] > 0
      modifies a, part, count
      ensures State(a[lo..lo + n], s, b, lo, part[..], count[..])
      ensures Permutes(a[lo..lo + n], s)
      ensures count[c] == old(count[c]) - 1
      ensures forall d :: 0 <= d <= 256 ==> count[d] <= old(count[d])
      ensures forall i :: 0 <= i < lo || lo + n <= i < a.Length ==> a[i] == old(a[i])
    {
      hide State, CountAt, CountBelow, Bucket, Sum, Inside, Permutes;
      ghost var v, pt, ct := a[lo..lo + n], part[..], count[..];
      ghost var ct0 := ct;
      ChaseStart(v, s, b, lo, c, pt, ct);
      ghost var q := part[c] - lo;
      var t1 := a[part[c]];
      assert v[q := t1] == v;
      while true
        invariant v == a[lo..lo + n] && pt == part[..] && ct == count[..]
        invariant |v| == n && State(v, s, b, lo, pt, ct)
        invariant pt[c] - lo == q < n && Inside(s, b, c, q) && ct[c] == ct0[c]
        invariant Permutes(v[q := t1], s)
        invariant forall d :: 0 <= d <= 256 ==> ct[d] <= ct0[d]
        invariant forall i :: 0 <= i < lo || lo + n <= i < a.Length ==> a[i] == old(a[i])
        decreases Sum(ct)
      {
        ChaseStep(v, s, b, lo, pt, ct, c, q, t1);
        var d, u1 := Store(a, lo, n, b, part, t1);
        ghost var u := pt[d] - lo;
        assert u1 == v[u];
        v, pt, ct := v[u := t1], pt[d := pt[d] + 1], ct[d := ct[d] - 1];
        if d == c {
          break;
        }
        t1 := u1;
      }
    }

    /** Pass 3: empty the counts of all the bytes in use. */
    method Permute(a: array<Item>, lo: nat, n: nat, b: nat, part: array<int>, clist: array<int>, ghost s: seq<Item>)
      requires lo + n <= a.Length && part.Length == count.Length == 257 && clist.Length == 514
      requires part != count && clist != count && clist != part
      requires s == a[lo..lo + n] && State(s, s, b, lo, part[..], count[..])
      requires Listed(clist[..], s, b, UsedBytes(s, b, 256))
      requires clist[1 + 2 * |UsedBytes(s, b, 256)|] == 0
      modifies a, part, count
      ensures Permutes(a[lo..lo + n], s) && InPlace(a[lo..lo + n], s, b)
      ensures forall c :: 0 <= c < 256 ==> count[c] == 0
      ensures forall i :: 0 <= i < lo || lo + n <= i < a.Length ==> a[i] == old(a[i])
    {
      hide State, CountAt, CountBelow, InPlace, UsedBytes;
      ghost var cs := UsedBytes(s, b, 256);
      ghost var k := 0;
      var cp1 := 1;
      while clist[cp1] != 0
        invariant k <= |cs| && cp1 == 1 + 2 * k
        invariant State(a[lo..lo + n], s, b, lo, part[..], count[..])
        invariant Permutes(a[lo..lo + n], s)
        invariant forall j :: 0 <= j < k ==> count[cs[j]] == 0
        invariant forall i :: 0 <= i < lo || lo + n <= i < a.Length ==> a[i] == old(a[i])
        decreases |cs| - k
      {
        var c := clist[cp1 + 1];
        assert c == cs[k];
        while count[c] > 0
          invariant State(a[lo..lo + n], s, b, lo, part[..], count[..])
          invariant Permutes(a[lo..lo + n], s)
          invariant forall j :: 0 <= j < k ==> count[cs[j]] == 0
          invariant forall i :: 0 <= i < lo || lo + n <= i < a.Length ==> a[i] == old(a[i])
          decreases count[c]
        {
          Chase(a, lo, n, b, c, part, s);
          CountsNatural(a[lo..lo + n], s, b, lo, part[..], count[..]);
        }
        CountsNatural(a[lo..lo + n], s, b, lo, part[..], count[..]);
        cp1 := cp1 + 2;
        k := k + 1;
      }
      ListedUntil(clist[..], s, b, k);
      forall c | 0 <= c < 256
        ensures count[c] == 0
      {
        if Used(s, b, c) {
          UsedBytesComplete(s, b, 256, c);
          var j :| 0 <= j < |cs| && cs[j] == c;
        } else {
          UnusedIsZero(a[lo..lo + n], s, b, lo, part[..], count[..], c);
        }
      }
      FullIsInPlace(a[lo..lo + n], s, b, lo, part[..], count[..]);
    }

    /** Pass 4: sort each partition on the bytes after b. */
    method SortPartitions(a: array<Item>, lo: nat, n: nat, b: nat, clist: array<int>,
                          ghost s: seq<Item>, ghost p: Key, ghost m: nat)
      requires Clear() && lo + n <= a.Length && b == |p| <= m && clist.Length == 514 && clist != count
      requires |s| == n && InPlace(a[lo..lo + n], s, b) && AllUnder(a[lo..lo + n], p)
      requires forall i :: lo <= i < lo + n ==> |a[i].key| <= m
      requires Listed(clist[..], s, b, UsedBytes(s, b, 256))
      requires clist[1 + 2 * |UsedBytes(s, b, 256)|] == 0
      modifies a, count
      ensures Clear()
      ensures Permutes(a[lo..lo + n], old(a[lo..lo + n])) && Ordered(a[lo..lo + n])
      ensures forall i :: 0 <= i < lo || lo + n <= i < a.Length ==> a[i] == old(a[i])
      decreases m - b, 2
    {
      hide CountAt, CountBelow, InPlace, UsedBytes, Half, AllUnder, Kcmp;
      ghost var cs := UsedBytes(s, b, 256);
      ghost var w := a[lo..lo + n];
      ghost var k := 0;
      BelowBound(s, b, 1);
      PartitionEnds(s, b, 0);
      HalfStart(w, s, p);
      var t := lo + clist[0];
      var cp1 := 1;
      while clist[cp1] != 0
        invariant Clear()
        invariant k <= |cs| && cp1 == 1 + 2 * k
        invariant lo <= t <= lo + n && t - lo == PartitionStart(s, b, k)
        invariant Half(a[lo..lo + n], w, t - lo)
        invariant forall i :: lo <= i < lo + n ==> |a[i].key| <= m
        invariant forall i :: 0 <= i < lo || lo + n <= i < a.Length ==> a[i] == old(a[i])
        decreases |cs| - k
      {
        PartitionEnds(s, b, k);
        SortPartition(a, lo, n, b, t, clist[cp1], cs[k], w, s, p, m);
        t := t + clist[cp1];
        cp1 := cp1 + 2;
        k := k + 1;
      }
      PartitionEnds(s, b, k);
      HalfIsAll(a[lo..lo + n], w);
    }

    /** Sort the k items of partition c, which start at t. */
    method SortPartition(a: array<Item>, lo: nat, n: nat, b: nat, t: nat, k: nat, ghost c: Byte,
                         ghost w: seq<Item>, ghost s: seq<Item>, ghost p: Key, ghost m: nat)
      requires Clear() && lo + n <= a.Length && b == |p| <= m
      requires |s| == n && InPlace(w, s, b) && AllUnder(w, p)
      requires forall i :: lo <= i < lo + n ==> |a[i].key| <= m
      requires lo <= t < t + k <= lo + n
      requires t - lo == CountBelow(s, b, c + 1) && t + k - lo == CountBelow(s, b, c + 2)
      requires Half(a[lo..lo + n], w, t - lo)
      modifies a, count
      ensures Clear()
      ensures Half(a[lo..lo + n], w, t + k - lo)
      ensures forall i :: lo <= i < lo + n ==> |a[i].key| <= m
      ensures forall i :: 0 <= i < lo || lo + n <= i < a.Length ==> a[i] == old(a[i])
      decreases m - b, 1
    {
      hide CountAt, CountBelow, InPlace, Half, AllUnder, Kcmp, Permutes, Ordered, InsertionSort;
      ghost var v, h, g := a[lo..lo + n], t - lo, t + k - lo;
      HalfLength(v, w, h);
      SegmentUnder(v, w, s, p, h, g, c);
      assert a[t..t + k] == v[h..g];
      SortSegment(a, t, k, b + 1, p + [c], m);
      ghost var v' := a[lo..lo + n];
      assert forall i | 0 <= i < n :: v'[i] == a[lo + i];
      assert forall i | 0 <= i < n && (i < h || g <= i) :: v'[i] == v[i];
      assert v'[..h] == v[..h];
      assert v'[g..] == v[g..];
      assert v'[h..g] == a[t..t + k];
      HalfStep(v, v', w, s, p, h, g, c + 1);
    }

    /** Sort a partition with whichever method its size calls for. */
    method SortSegment(a: array<Item>, t: nat, k: nat, b: nat, ghost p: Key, ghost m: nat)
      requires Clear() && 0 < k && t + k <= a.Length && 0 < b == |p| && AllUnder(a[t..t + k], p)
      requires forall i :: t <= i < t + k ==> |a[i].key| <= m
      modifies a, count
      ensures Clear()
      ensures Permutes(a[t..t + k], old(a[t..t + k])) && Ordered(a[t..t + k])
      ensures forall i :: t <= i < t + k ==> |a[i].key| <= m
      ensures forall i :: 0 <= i < t || t + k <= i < a.Length ==> a[i] == old(a[i])
      decreases m + 1 - b, 0
    {
      hide Kcmp, InsertionSort, AllUnder;
      ghost var s := a[t..t + k];
      LongKeys(s, p);
      assert |p| <= |s[0].key| == |a[t].key| <= m;
      if k > THRESHOLD {
        Rsort4(a, t, k, b, p, m);
      } else if k > 1 {
        Bsort4(a, t, k, b, p);
        InsertionSortOrders(s);
      }
      PermutesBound(a[t..t + k], s, m);
      assert forall i | t <= i < t + k :: a[i] == a[t..t + k][i - t];
    }

    /** The radix sort of a[lo..lo + n], whose keys agree on the first b bytes. */
    method Rsort4(a: array<Item>, lo: nat, n: nat, b: nat, ghost p: Key, ghost m: nat)
      requires Clear() && lo + n <= a.Length && b == |p| <= m && AllUnder(a[lo..lo + n], p)
      requires forall i :: lo <= i < lo + n ==> |a[i].key| <= m
      modifies a, count
      ensures Clear()
      ensures Permutes(a[lo..lo + n], old(a[lo..lo + n])) && Ordered(a[lo..lo + n])
      ensures forall i :: 0 <= i < lo || lo + n <= i < a.Length ==> a[i] == old(a[i])
      decreases m - b, 3
    {
      hide CountAt, CountBelow, InPlace, UsedBytes, AllUnder, Kcmp, State;
      ghost var s := a[lo..lo + n];
      var part, clist := new int[257], new int[514];
      var lowc, higc := Tally(a, lo, n, b);
      Layout(lo, b, lowc, higc, part, clist, s);
      StateAtStart(s, b, lo, part[..], count[..]);
      Permute(a, lo, n, b, part, clist, s);
      count[256] := 0;
      PermutesUnder(a[lo..lo + n], s, p);
      PermutesBound(a[lo..lo + n], s, m);
      assert forall i | lo <= i < lo + n :: a[i] == a[lo..lo + n][i - lo];
      SortPartitions(a, lo, n, b, clist, s, p, m);
    }

    /** sort4: sort a[..n] by key, with a threshold below which insertion is used. */
    method Sort4(a: array<Item>, n: nat)
      requires Clear() && n <= a.Length
      modifies a, count
      ensures Clear()
      ensures Permutes(a[..n], old(a[..n])) && Ordered(a[..n])
      ensures forall i :: n <= i < a.Length ==> a[i] == old(a[i])
    {
      hide Kcmp, InsertionSort, LongestKey;
      ghost var s := a[..n];
      assert a[0..n] == s;
      if n > THRESHOLD {
        Rsort4(a, 0, n, 0, [], LongestKey(s));
      } else {
        Bsort4(a, 0, n, 0, []);
        InsertionSortOrders(s);
      }
      assert a[0..n] == a[..n];
    }
  }

  /** Where the k-th partition in use starts; past the last one, the end. */
  ghost function PartitionStart(s: seq<Item>, b: nat, k: nat): nat
    requires k <= |UsedBytes(s, b, 256)|
  {
    var cs := UsedBytes(s, b, 256);
    if k < |cs| then CountBelow(s, b, cs[k] + 1) else |s|
  }

  lemma {:induction false} PartitionEnds(s: seq<Item>, b: nat, k: nat)
    requires k <= |UsedBytes(s, b, 256)|
    ensures var cs := UsedBytes(s, b, 256);
            && (k == 0 ==> PartitionStart(s, b, 0) == CountBelow(s, b, 1) == CountAt(s, b, 0))
            && (k < |cs| ==>
                  && PartitionStart(s, b, k) == CountBelow(s, b, cs[k] + 1)
                  && PartitionStart(s, b, k + 1) == CountBelow(s, b, cs[k] + 2)
                  && CountBelow(s, b, cs[k] + 2) == CountBelow(s, b, cs[k] + 1) + CountAt(s, b, cs[k] + 1) <= |s|
                  && CountAt(s, b, cs[k] + 1) > 0)
            && (k == |cs| ==> PartitionStart(s, b, k) == |s|)
  {
    var cs := UsedBytes(s, b, 256);
    UsedBytesFirst(s, b);
    BelowAll(s, b);
    if k < |cs| {
      UsedBytesNext(s, b, 256, k);
      BelowBound(s, b, cs[k] + 2);
      assert Used(s, b, cs[k]);
    }
  }

  lemma {:induction false} HalfIsAll(v: seq<Item>, w: seq<Item>)
    requires Half(v, w, |v|)
    ensures Permutes(v, w) && Ordered(v)
  {
    assert v[..|v|] == v && w[..|v|] == w;
  }

  lemma {:induction false} LongKeys(v: seq<Item>, p: Key)
    requires AllUnder(v, p)
    ensures forall i :: 0 <= i < |v| ==> |v[i].key| >= |p|
  {
  }

  lemma {:induction false} HalfLength(v: seq<Item>, w: seq<Item>, h: nat)
    requires Half(v, w, h)
    ensures |v| == |w|
  {
  }

  lemma {:induction false} PermutesUnder(v: seq<Item>, s: seq<Item>, p: Key)
    requires Permutes(v, s) && AllUnder(s, p)
    ensures AllUnder(v, p)
  {
    forall i | 0 <= i < |v|
      ensures IsPrefix(p, v[i].key)
    {
      var j := MemberOf(v, s, i);
    }
  }

  lemma {:induction false} PermutesBound(v: seq<Item>, s: seq<Item>, m: nat)
    requires Permutes(v, s) && forall i :: 0 <= i < |s| ==> |s[i].key| <= m
    ensures forall i :: 0 <= i < |v| ==> |v[i].key| <= m
  {
    forall i | 0 <= i < |v|
      ensures |v[i].key| <= m
    {
      var j := MemberOf(v, s, i);
    }
  }

  /** The length of the longest key. */
  ghost function LongestKey(s: seq<Item>): (m: nat)
    ensures forall i :: 0 <= i < |s| ==> |s[i].key| <= m
  {
    if s == [] then 0
    else
      var m := LongestKey(s[..|s| - 1]);
      if |s[|s| - 1].key| > m then |s[|s| - 1].key| else m
  }

  /** What sort4 leaves is sorted whenever no key is a proper prefix of another. */
  lemma {:induction false} SortedWhenPrefixFree(v: seq<Item>, s: seq<Item>)
    requires Permutes(v, s) && Ordered(v) && AllPrefixFree(s)
    ensures Sorted(v)
  {
    PrefixFreePermutes(s, v);
    OrderedIsSorted(v);
  }
}
