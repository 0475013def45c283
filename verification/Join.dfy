// The merge join of two files on a field.

/** join(F2) of join.c, for two files of which the second can be rewound. */
module Join {
  import opened Basics
  import opened Order

  type Key = seq<int>

  /** A line split into fields. */
  datatype Record = Record(fields: seq<Key>)

  /** A line of output, by the numbers of the lines it is made of. */
  datatype Out = Both(i: nat, j: nat) | Left(i: nat) | Right(j: nat)

  /** Every line has the field joined on. */
  ghost predicate HasField(f: seq<Record>, jf: nat) {
    forall i :: 0 <= i < |f| ==> jf < |f[i].fields|
  }

  ghost function Keys(f: seq<Record>, jf: nat): (k: seq<Key>)
    requires HasField(f, jf)
    ensures |k| == |f| && forall i :: 0 <= i < |f| ==> k[i] == f[i].fields[jf]
  {
    seq(|f|, i requires 0 <= i < |f| => f[i].fields[jf])
  }

  ghost predicate Sorted(k: seq<Key>) {
    forall p, q :: 0 <= p < q < |k| ==> Compare(k[p], k[q]) <= 0
  }

  /** The lines among the first n of file 2 that have the key, in order. */
  ghost function Matches(key: Key, k2: seq<Key>, n: nat): seq<nat>
    requires n <= |k2|
  {
    if n == 0 then [] else Matches(key, k2, n - 1) + if k2[n - 1] == key then [n - 1] else []
  }

  ghost function Pairs(i: nat, m: seq<nat>): (r: seq<Out>)
    ensures |r| == |m|
  {
    seq(|m|, x requires 0 <= x < |m| => Both(i, m[x]))
  }

  /** What line i of file 1 contributes: its pairs, or, under -a1, itself if it has none. */
  ghost function Row(k1: seq<Key>, k2: seq<Key>, a1: bool, i: nat): seq<Out>
    requires i < |k1|
  {
    var m := Matches(k1[i], k2, |k2|);
    if m == [] then (if a1 then [Left(i)] else []) else Pairs(i, m)
  }

  /** The nested-loop join of the first n lines of file 1 with file 2. */
  ghost function NestedLoop(k1: seq<Key>, k2: seq<Key>, a1: bool, n: nat): seq<Out>
    requires n <= |k1|
  {
    if n == 0 then [] else NestedLoop(k1, k2, a1, n - 1) + Row(k1, k2, a1, n - 1)
  }

  /** Under -a2, the lines among the first n of file 2 without a partner. */
  ghost function Alone(k1: seq<Key>, k2: seq<Key>, a2: bool, n: nat): seq<Out>
    requires n <= |k2|
  {
    if n == 0 then [] else
    Alone(k1, k2, a2, n - 1) + if a2 && k2[n - 1] !in k1 then [Right(n - 1)] else []
  }

  /** The output lines that hold a line of file 1, and those that do not. */
  ghost function WithLeft(out: seq<Out>): seq<Out> {
    if out == [] then [] else
    var o := out[|out| - 1];
    WithLeft(out[..|out| - 1]) + if o.Right? then [] else [o]
  }

  ghost function OnlyRight(out: seq<Out>): seq<Out> {
    if out == [] then [] else
    var o := out[|out| - 1];
    OnlyRight(out[..|out| - 1]) + if o.Right? then [o] else []
  }

  // ----- what the output is, line by line -----

  /** o comes before p: by the lines of file 1 and then of file 2; lines of file 2 alone among themselves. */
  ghost predicate Precedes(o: Out, p: Out) {
    match (o, p)
    case (Right(j), Right(k)) => j < k
    case (Both(i, j), Both(k, l)) => i < k || (i == k && j < l)
    case (Both(i, _), Left(k)) => i < k
    case (Left(i), Both(k, _)) => i < k
    case (Left(i), Left(k)) => i < k
    case _ => true
  }

  ghost predicate Increasing(s: seq<Out>) {
    forall x, y :: 0 <= x < y < |s| ==> Precedes(s[x], s[y])
  }

  /** The lines owed: all pairs with equal fields, and under -a those that are in no pair. */
  ghost predicate Owed(o: Out, k1: seq<Key>, k2: seq<Key>, a1: bool, a2: bool) {
    match o
    case Both(i, j) => i < |k1| && j < |k2| && k1[i] == k2[j]
    case Left(i) => a1 && i < |k1| && forall j :: 0 <= j < |k2| ==> k2[j] != k1[i]
    case Right(j) => a2 && j < |k2| && forall i :: 0 <= i < |k1| ==> k1[i] != k2[j]
  }

  /** Each line owed is there, once, in order, and nothing else. */
  lemma {:induction false} OutputIs(k1: seq<Key>, k2: seq<Key>, a1: bool, a2: bool, out: seq<Out>)
    requires WithLeft(out) == NestedLoop(k1, k2, a1, |k1|) && OnlyRight(out) == Alone(k1, k2, a2, |k2|)
    ensures forall o :: o in out <==> Owed(o, k1, k2, a1, a2)
    ensures Increasing(out)
  {
    hide Owed, Increasing, Precedes, NestedLoop, Alone, WithLeft, OnlyRight;
    forall o: Out
      ensures o in out <==> Owed(o, k1, k2, a1, a2)
    {
      Members(out, o);
      NestedMembers(k1, k2, a1, |k1|, o);
      AloneMembers(k1, k2, a2, |k2|, o);
      OwedIs(o, k1, k2, a1, a2);
    }
    NestedIncreasing(k1, k2, a1, |k1|);
    AloneIncreasing(k1, k2, a2, |k2|);
    OutIncreasing(out);
  }

  /** A line of output before line n of file 1 is owed. */
  ghost predicate OwedLeft(o: Out, k1: seq<Key>, k2: seq<Key>, a1: bool, n: nat)
    requires n <= |k1|
  {
    match o
    case Both(i, j) => i < n && j < |k2| && k1[i] == k2[j]
    case Left(i) => a1 && i < n && k1[i] !in k2
    case Right(_) => false
  }

  lemma {:induction false} OwedIs(o: Out, k1: seq<Key>, k2: seq<Key>, a1: bool, a2: bool)
    ensures Owed(o, k1, k2, a1, a2) <==>
            OwedLeft(o, k1, k2, a1, |k1|) || (o.Right? && a2 && o.j < |k2| && k2[o.j] !in k1)
  {
  }

  lemma {:induction false} Members(out: seq<Out>, o: Out)
    ensures o in out <==> o in WithLeft(out) || o in OnlyRight(out)
    ensures (o in WithLeft(out) ==> !o.Right?) && (o in OnlyRight(out) ==> o.Right?)
  {
    if out != [] {
      Members(out[..|out| - 1], o);
      assert out == out[..|out| - 1] + [out[|out| - 1]];
    }
  }

  lemma {:induction false} MatchesAre(key: Key, k2: seq<Key>, n: nat)
    requires n <= |k2|
    ensures forall j: nat :: j in Matches(key, k2, n) <==> j < n && k2[j] == key
    ensures forall x, y :: 0 <= x < y < |Matches(key, k2, n)| ==> Matches(key, k2, n)[x] < Matches(key, k2, n)[y]
  {
    if n > 0 {
      MatchesAre(key, k2, n - 1);
      var m := Matches(key, k2, n - 1);
      assert forall x :: 0 <= x < |m| ==> m[x] in m;
    }
  }

  lemma {:induction false} RowIs(k1: seq<Key>, k2: seq<Key>, a1: bool, i: nat, o: Out)
    requires i < |k1|
    ensures o in Row(k1, k2, a1, i) <==> OwedLeft(o, k1, k2, a1, i + 1) && !o.Right? && o.i == i
    ensures Increasing(Row(k1, k2, a1, i))
  {
    hide Matches;
    var m := Matches(k1[i], k2, |k2|);
    MatchesAre(k1[i], k2, |k2|);
    assert m == [] <==> k1[i] !in k2 by {
      if k1[i] in k2 {
        var j: nat :| j < |k2| && k2[j] == k1[i];
        assert j in m;
      }
      assert m != [] ==> m[0] in m;
    }
    if o.Both? && o.j in m {
      var x :| 0 <= x < |m| && m[x] == o.j;
      assert Pairs(i, m)[x] == Both(i, o.j);
    }
  }

  lemma {:induction false} NestedMembers(k1: seq<Key>, k2: seq<Key>, a1: bool, n: nat, o: Out)
    requires n <= |k1|
    ensures o in NestedLoop(k1, k2, a1, n) <==> OwedLeft(o, k1, k2, a1, n)
  {
    hide Row;
    if n > 0 {
      NestedMembers(k1, k2, a1, n - 1, o);
      RowIs(k1, k2, a1, n - 1, o);
    }
  }

  lemma {:induction false} NestedIncreasing(k1: seq<Key>, k2: seq<Key>, a1: bool, n: nat)
    requires n <= |k1|
    ensures Increasing(NestedLoop(k1, k2, a1, n))
  {
    hide Row;
    if n > 0 {
      var s, r := NestedLoop(k1, k2, a1, n - 1), Row(k1, k2, a1, n - 1);
      NestedIncreasing(k1, k2, a1, n - 1);
      RowIs(k1, k2, a1, n - 1, Left(0));
      forall x, y | 0 <= x < |s| && 0 <= y < |r|
        ensures Precedes(s[x], r[y])
      {
        NestedMembers(k1, k2, a1, n - 1, s[x]);
        RowIs(k1, k2, a1, n - 1, r[y]);
      }
    }
  }

  lemma {:induction false} AloneMembers(k1: seq<Key>, k2: seq<Key>, a2: bool, n: nat, o: Out)
    requires n <= |k2|
    ensures o in Alone(k1, k2, a2, n) <==> o.Right? && a2 && o.j < n && k2[o.j] !in k1
  {
    if n > 0 {
      AloneMembers(k1, k2, a2, n - 1, o);
    }
  }

  lemma {:induction false} AloneIncreasing(k1: seq<Key>, k2: seq<Key>, a2: bool, n: nat)
    requires n <= |k2|
    ensures Increasing(Alone(k1, k2, a2, n))
  {
    if n > 0 {
      var s := Alone(k1, k2, a2, n - 1);
      AloneIncreasing(k1, k2, a2, n - 1);
      forall x | 0 <= x < |s|
        ensures Precedes(s[x], Right(n - 1))
      {
        AloneMembers(k1, k2, a2, n - 1, s[x]);
      }
    }
  }

  lemma {:induction false} OutIncreasing(out: seq<Out>)
    requires Increasing(WithLeft(out)) && Increasing(OnlyRight(out))
    ensures Increasing(out)
  {
    if out != [] {
      var s, o := out[..|out| - 1], out[|out| - 1];
      var l, r := WithLeft(s), OnlyRight(s);
      IncreasingInit(l, if o.Right? then [] else [o]);
      IncreasingInit(r, if o.Right? then [o] else []);
      OutIncreasing(s);
      forall x | 0 <= x < |s|
        ensures Precedes(s[x], o)
      {
        Members(s, s[x]);
        assert s[x] in s;
      }
    }
  }

  lemma {:induction false} IncreasingInit(s: seq<Out>, t: seq<Out>)
    requires Increasing(s + t)
    ensures Increasing(s) && forall o, p :: o in s && p in t ==> Precedes(o, p)
  {
    assert forall x :: 0 <= x < |s| ==> (s + t)[x] == s[x];
    assert forall y :: 0 <= y < |t| ==> (s + t)[|s| + y] == t[y];
  }

  lemma {:induction false} OutNext(out: seq<Out>, o: Out)
    ensures WithLeft(out + [o]) == WithLeft(out) + if o.Right? then [] else [o]
    ensures OnlyRight(out + [o]) == OnlyRight(out) + if o.Right? then [o] else []
  {
    assert (out + [o])[..|out|] == out;
  }

  /** The lines before i and j are done: each sorts strictly before the other file's rest. */
  ghost predicate Frontier(k1: seq<Key>, k2: seq<Key>, i: nat, j: nat) {
    && i <= |k1| && j <= |k2|
    && (forall p, q :: 0 <= p < i && j <= q < |k2| ==> Compare(k1[p], k2[q]) < 0)
    && (forall p, q :: i <= p < |k1| && 0 <= q < j ==> Compare(k2[q], k1[p]) < 0)
  }

  ghost predicate InFiles(o: Out, k1: seq<Key>, k2: seq<Key>) {
    (!o.Right? ==> o.i < |k1|) && (!o.Left? ==> o.j < |k2|)
  }

  /** The key of an output line. */
  ghost function KeyOf(o: Out, k1: seq<Key>, k2: seq<Key>): Key
    requires InFiles(o, k1, k2)
  {
    if o.Right? then k2[o.j] else k1[o.i]
  }

  /** The output is in key order, and nothing in it sorts after the rest of the files. */
  ghost predicate InOrder(out: seq<Out>, k1: seq<Key>, k2: seq<Key>, i: nat, j: nat) {
    && (forall x :: 0 <= x < |out| ==> InFiles(out[x], k1, k2))
    && (forall x, y :: 0 <= x < y < |out| ==> Compare(KeyOf(out[x], k1, k2), KeyOf(out[y], k1, k2)) <= 0)
    && (forall x, p :: 0 <= x < |out| && i <= p < |k1| ==> Compare(KeyOf(out[x], k1, k2), k1[p]) <= 0)
    && (forall x, q :: 0 <= x < |out| && j <= q < |k2| ==> Compare(KeyOf(out[x], k1, k2), k2[q]) <= 0)
  }

  /** What is true between two steps of the outer loop, on sorted files. */
  ghost predicate Between(k1: seq<Key>, k2: seq<Key>, a1: bool, a2: bool, i: nat, j: nat, out: seq<Out>) {
    && Frontier(k1, k2, i, j)
    && WithLeft(out) == NestedLoop(k1, k2, a1, i)
    && OnlyRight(out) == Alone(k1, k2, a2, j)
    && InOrder(out, k1, k2, i, j)
  }

  lemma {:induction false} NoMatches(key: Key, k2: seq<Key>, n: nat)
    requires n <= |k2| && forall q :: 0 <= q < n ==> k2[q] != key
    ensures Matches(key, k2, n) == []
  {
    if n > 0 {
      NoMatches(key, k2, n - 1);
    }
  }

  /** The numbers from a up to b. */
  ghost function Upto(a: nat, b: nat): (r: seq<nat>)
    requires a <= b
    ensures |r| == b - a
  {
    seq(b - a, x => a + x)
  }

  /** A key that occurs on the lines from a up to b, and nowhere else before n. */
  lemma {:induction false} MatchesRun(key: Key, k2: seq<Key>, a: nat, b: nat, n: nat)
    requires a <= b <= n <= |k2| && forall q :: 0 <= q < n ==> (k2[q] == key <==> a <= q < b)
    ensures Matches(key, k2, n) == Upto(a, b)
  {
    if n == a {
      NoMatches(key, k2, n);
    } else if n > b {
      MatchesRun(key, k2, a, b, n - 1);
    } else {
      MatchesRun(key, k2, a, b - 1, n - 1);
    }
  }

  lemma {:induction false} OrderNext(out: seq<Out>, o: Out, k1: seq<Key>, k2: seq<Key>, i: nat, j: nat, i': nat, j': nat)
    requires InOrder(out, k1, k2, i, j) && i <= i' && j <= j'
    requires InFiles(o, k1, k2)
    requires o.Right? ==> j <= o.j
    requires !o.Right? ==> i <= o.i
    requires forall p :: i' <= p < |k1| ==> Compare(KeyOf(o, k1, k2), k1[p]) <= 0
    requires forall q :: j' <= q < |k2| ==> Compare(KeyOf(o, k1, k2), k2[q]) <= 0
    ensures InOrder(out + [o], k1, k2, i', j')
  {
    hide Compare;
    var r := out + [o];
    assert forall x :: 0 <= x < |out| ==> r[x] == out[x];
    assert r[|out|] == o;
  }

  lemma {:induction false} OrderKeep(out: seq<Out>, k1: seq<Key>, k2: seq<Key>, i: nat, j: nat, i': nat, j': nat)
    requires InOrder(out, k1, k2, i, j) && i <= i' && j <= j'
    ensures InOrder(out, k1, k2, i', j')
  {
    hide Compare;
  }

  lemma {:induction false} RowWithout(k1: seq<Key>, k2: seq<Key>, a1: bool, i: nat)
    requires i < |k1| && forall q :: 0 <= q < |k2| ==> k2[q] != k1[i]
    ensures Row(k1, k2, a1, i) == if a1 then [Left(i)] else []
  {
    NoMatches(k1[i], k2, |k2|);
  }

  lemma {:induction false} RowWith(k1: seq<Key>, k2: seq<Key>, a1: bool, i: nat, a: nat, b: nat)
    requires i < |k1| && a < b <= |k2| && forall q :: 0 <= q < |k2| ==> (k2[q] == k1[i] <==> a <= q < b)
    ensures Row(k1, k2, a1, i) == Pairs(i, Upto(a, b))
  {
    MatchesRun(k1[i], k2, a, b, |k2|);
  }

  /** The first file's line sorts first: it has no partner. */
  lemma {:induction false} StepLeft(k1: seq<Key>, k2: seq<Key>, a1: bool, a2: bool, i: nat, j: nat, out: seq<Out>)
    requires Sorted(k1) && Sorted(k2) && Between(k1, k2, a1, a2, i, j, out) && i < |k1|
    requires j < |k2| ==> Compare(k1[i], k2[j]) < 0
    ensures Between(k1, k2, a1, a2, i + 1, j, if a1 then out + [Left(i)] else out)
  {
    hide Compare, InOrder, Row, WithLeft, OnlyRight, Alone;
    forall q | 0 <= q < |k2|
      ensures k2[q] != k1[i] && (j <= q ==> Compare(k1[i], k2[q]) < 0)
    {
      if j < q {
        CompareTransitive(k1[i], k2[j], k2[q]);
      }
    }
    RowWithout(k1, k2, a1, i);
    if a1 {
      OutNext(out, Left(i));
      assert KeyOf(Left(i), k1, k2) == k1[i];
      assert Compare(k1[i], k1[i]) == 0;
      OrderNext(out, Left(i), k1, k2, i, j, i + 1, j);
    } else {
      OrderKeep(out, k1, k2, i, j, i + 1, j);
    }
  }

  /** The second file's line sorts first: it has no partner. */
  lemma {:induction false} StepRight(k1: seq<Key>, k2: seq<Key>, a1: bool, a2: bool, i: nat, j: nat, out: seq<Out>)
    requires Sorted(k1) && Sorted(k2) && Between(k1, k2, a1, a2, i, j, out) && j < |k2|
    requires i < |k1| ==> Compare(k1[i], k2[j]) > 0
    ensures Between(k1, k2, a1, a2, i, j + 1, if a2 then out + [Right(j)] else out)
  {
    hide Compare, InOrder, WithLeft, OnlyRight, NestedLoop;
    forall p | 0 <= p < |k1|
      ensures k1[p] != k2[j] && (i <= p ==> Compare(k2[j], k1[p]) < 0)
    {
      if i <= p {
        CompareAntisymmetric(k1[i], k2[j]);
        if i < p {
          CompareTransitive(k2[j], k1[i], k1[p]);
        }
      }
    }
    if a2 {
      OutNext(out, Right(j));
      assert KeyOf(Right(j), k1, k2) == k2[j];
      assert Compare(k2[j], k2[j]) == 0;
      OrderNext(out, Right(j), k1, k2, i, j, i, j + 1);
    } else {
      OrderKeep(out, k1, k2, i, j, i, j + 1);
    }
  }

  /** Line i of file 1 is being paired with the run of equal lines that starts at bot in file 2. */
  ghost predicate Filling(k1: seq<Key>, k2: seq<Key>, a1: bool, a2: bool, i: nat, bot: nat, j: nat, out: seq<Out>) {
    && Frontier(k1, k2, i, bot) && i < |k1| && bot <= j <= |k2|
    && (forall q :: bot <= q < j ==> k2[q] == k1[i])
    && WithLeft(out) == NestedLoop(k1, k2, a1, i) + Pairs(i, Upto(bot, j))
    && OnlyRight(out) == Alone(k1, k2, a2, bot)
    && InOrder(out, k1, k2, i, bot)
  }

  /** Lines bot to top of file 2 are the run of a key; line i of file 1 is not before it, and paired up to j. */
  ghost predicate During(k1: seq<Key>, k2: seq<Key>, a1: bool, a2: bool, key: Key, i: nat, bot: nat, top: nat, j: nat,
                         out: seq<Out>)
  {
    && i <= |k1| && bot < top <= |k2| && bot <= j <= top && key in k1
    && (forall p, q :: 0 <= p < i && top <= q < |k2| ==> Compare(k1[p], k2[q]) < 0)
    && (forall p, q :: i <= p < |k1| && 0 <= q < bot ==> Compare(k2[q], k1[p]) < 0)
    && (forall q :: bot <= q < top ==> k2[q] == key)
    && (forall q :: top <= q < |k2| ==> Compare(key, k2[q]) < 0)
    && (forall p :: i <= p < |k1| ==> Compare(key, k1[p]) <= 0)
    && (j > bot ==> i < |k1| && k1[i] == key)
    && WithLeft(out) == NestedLoop(k1, k2, a1, i) + (if j > bot then Pairs(i, Upto(bot, j)) else [])
    && OnlyRight(out) == Alone(k1, k2, a2, bot)
    && InOrder(out, k1, k2, i, bot)
  }

  lemma {:induction false} FillStart(k1: seq<Key>, k2: seq<Key>, a1: bool, a2: bool, i: nat, j: nat, out: seq<Out>)
    requires Between(k1, k2, a1, a2, i, j, out) && i < |k1|
    ensures Filling(k1, k2, a1, a2, i, j, j, out)
  {
    hide Compare, InOrder;
    assert Pairs(i, Upto(j, j)) == [];
  }

  lemma {:induction false} PairsNext(i: nat, a: nat, b: nat)
    requires a <= b
    ensures Pairs(i, Upto(a, b + 1)) == Pairs(i, Upto(a, b)) + [Both(i, b)]
  {
  }

  lemma {:induction false} FillStep(k1: seq<Key>, k2: seq<Key>, a1: bool, a2: bool, i: nat, bot: nat, j: nat, out: seq<Out>)
    requires Sorted(k1) && Sorted(k2) && Filling(k1, k2, a1, a2, i, bot, j, out) && j < |k2| && k2[j] == k1[i]
    ensures Filling(k1, k2, a1, a2, i, bot, j + 1, out + [Both(i, j)])
  {
    hide Compare, InOrder, WithLeft, OnlyRight, NestedLoop, Alone, Pairs;
    OutNext(out, Both(i, j));
    PairsNext(i, bot, j);
    EqualFirst(k1, k2, i, bot, j);
    OrderNext(out, Both(i, j), k1, k2, i, bot, i, bot);
  }

  /** A line of file 1 equal to a whole run of file 2 is not after the rest of either file. */
  lemma {:induction false} EqualFirst(k1: seq<Key>, k2: seq<Key>, i: nat, bot: nat, j: nat)
    requires Sorted(k1) && Sorted(k2) && i < |k1| && bot <= j < |k2|
    requires k2[bot] == k1[i] == k2[j]
    ensures KeyOf(Both(i, j), k1, k2) == k1[i]
    ensures forall p :: i <= p < |k1| ==> Compare(k1[i], k1[p]) <= 0
    ensures forall q :: bot <= q < |k2| ==> Compare(k1[i], k2[q]) <= 0
  {
    hide Compare;
    assert Compare(k1[i], k1[i]) == 0;
  }

  lemma {:induction false} FillDone(k1: seq<Key>, k2: seq<Key>, a1: bool, a2: bool, i: nat, bot: nat, j: nat, out: seq<Out>)
    requires Sorted(k1) && Sorted(k2) && Filling(k1, k2, a1, a2, i, bot, j, out)
    requires bot < j && (j < |k2| ==> k2[j] != k1[i])
    ensures During(k1, k2, a1, a2, k1[i], i, bot, j, j, out)
  {
    hide Compare, InOrder, WithLeft, OnlyRight, NestedLoop, Alone, Pairs;
    RunBelow(k2, k1[i], bot, j);
    assert Compare(k1[i], k1[i]) == 0;
  }

  lemma {:induction false} RunBelow(k2: seq<Key>, key: Key, bot: nat, j: nat)
    requires Sorted(k2) && bot < j <= |k2| && k2[j - 1] == key && (j < |k2| ==> k2[j] != key)
    ensures forall q :: j <= q < |k2| ==> Compare(key, k2[q]) < 0
  {
    hide Compare;
    forall q | j <= q < |k2|
      ensures Compare(key, k2[q]) < 0
    {
      assert Compare(key, k2[j]) < 0;
      if j < q {
        CompareTransitive(key, k2[j], k2[q]);
      }
    }
  }

  lemma {:induction false} RunPair(k1: seq<Key>, k2: seq<Key>, a1: bool, a2: bool, key: Key, i: nat, bot: nat, top: nat, j: nat,
                out: seq<Out>)
    requires Sorted(k1) && Sorted(k2) && During(k1, k2, a1, a2, key, i, bot, top, j, out)
    requires i < |k1| && j < |k2| && k1[i] == k2[j]
    ensures During(k1, k2, a1, a2, key, i, bot, top, j + 1, out + [Both(i, j)])
  {
    hide Compare, InOrder, WithLeft, OnlyRight, NestedLoop, Alone, Pairs, Upto;
    if j == top {
      assert false;
    }
    OutNext(out, Both(i, j));
    PairsNext(i, bot, j);
    PairsNone(i, bot);
    EqualFirst(k1, k2, i, bot, j);
    OrderNext(out, Both(i, j), k1, k2, i, bot, i, bot);
  }

  lemma {:induction false} PairsNone(i: nat, a: nat)
    ensures Pairs(i, Upto(a, a)) == []
  {
  }

  lemma {:induction false} RunRow(k1: seq<Key>, k2: seq<Key>, a1: bool, a2: bool, key: Key, i: nat, bot: nat, top: nat, j: nat,
               out: seq<Out>)
    requires Sorted(k1) && Sorted(k2) && During(k1, k2, a1, a2, key, i, bot, top, j, out)
    requires j == |k2| || (i < |k1| && Compare(k1[i], k2[j]) < 0)
    ensures i < |k1| && During(k1, k2, a1, a2, key, i + 1, bot, top, bot, out)
  {
    hide Compare, InOrder, WithLeft, OnlyRight, NestedLoop, Alone, Pairs, Upto;
    if j < top {
      CompareAntisymmetric(k1[i], key);
      assert false;
    }
    RowDone(k1, k2, a1, key, i, bot, top);
    OrderKeep(out, k1, k2, i, bot, i + 1, bot);
  }

  lemma {:induction false} RowDone(k1: seq<Key>, k2: seq<Key>, a1: bool, key: Key, i: nat, bot: nat, top: nat)
    requires i < |k1| && bot < top <= |k2| && k1[i] == key
    requires forall q :: 0 <= q < bot ==> Compare(k2[q], k1[i]) < 0
    requires forall q :: bot <= q < top ==> k2[q] == key
    requires forall q :: top <= q < |k2| ==> Compare(key, k2[q]) < 0
    ensures NestedLoop(k1, k2, a1, i + 1) == NestedLoop(k1, k2, a1, i) + Pairs(i, Upto(bot, top))
  {
    hide Compare, Pairs, Upto, Row;
    RowWith(k1, k2, a1, i, bot, top);
  }

  lemma {:induction false} RunEnd(k1: seq<Key>, k2: seq<Key>, a1: bool, a2: bool, key: Key, i: nat, bot: nat, top: nat, j: nat,
               out: seq<Out>)
    requires Sorted(k1) && Sorted(k2) && During(k1, k2, a1, a2, key, i, bot, top, j, out)
    requires j < |k2| && (i == |k1| || Compare(k1[i], k2[j]) > 0)
    ensures Between(k1, k2, a1, a2, i, top, out)
  {
    hide Compare, InOrder, WithLeft, OnlyRight, NestedLoop, Alone, Pairs, Upto;
    if j > bot {
      assert false;
    }
    forall p | i <= p < |k1|
      ensures Compare(key, k1[p]) < 0
    {
      CompareAntisymmetric(k1[i], key);
      if i < p {
        CompareTransitive(key, k1[i], k1[p]);
      }
    }
    AloneRun(k1, k2, a2, key, bot, top);
    OrderKeep(out, k1, k2, i, bot, i, top);
  }

  lemma {:induction false} AloneRun(k1: seq<Key>, k2: seq<Key>, a2: bool, key: Key, bot: nat, top: nat)
    requires bot <= top <= |k2| && key in k1 && forall q :: bot <= q < top ==> k2[q] == key
    ensures Alone(k1, k2, a2, top) == Alone(k1, k2, a2, bot)
  {
    if bot < top {
      AloneRun(k1, k2, a2, key, bot, top - 1);
    }
  }

  /** With neither option the loop stops at the end of either file; the rest of the other adds nothing. */
  lemma {:induction false} Finish(k1: seq<Key>, k2: seq<Key>, i: nat, j: nat, out: seq<Out>)
    requires Sorted(k1) && Sorted(k2) && Between(k1, k2, false, false, i, j, out)
    requires i == |k1| || j == |k2|
    ensures Between(k1, k2, false, false, |k1|, |k2|, out)
    decreases |k1| - i + |k2| - j
  {
    hide Between;
    BetweenBounds(k1, k2, false, false, i, j, out);
    if i < |k1| {
      StepLeft(k1, k2, false, false, i, j, out);
      Finish(k1, k2, i + 1, j, out);
    } else if j < |k2| {
      StepRight(k1, k2, false, false, i, j, out);
      Finish(k1, k2, i, j + 1, out);
    }
  }

  lemma {:induction false} BetweenBounds(k1: seq<Key>, k2: seq<Key>, a1: bool, a2: bool, i: nat, j: nat, out: seq<Out>)
    requires Between(k1, k2, a1, a2, i, j, out)
    ensures i <= |k1| && j <= |k2|
  {
  }

  lemma {:induction false} BetweenNone(k1: seq<Key>, k2: seq<Key>, a1: bool, a2: bool)
    ensures Between(k1, k2, a1, a2, 0, 0, [])
  {
  }

  /** A file being read by lines: whether the last read gave a line, and the number of lines before the next. */
  datatype Reader = Reader(n: bool, next: nat)

  /** input(): at the end of the file nothing is read and the line read last stays in the buffer. */
  function Input(r: Reader, lines: nat): Reader {
    if r.next < lines then Reader(true, r.next + 1) else Reader(false, r.next)
  }

  /** The number of the line in the buffer, or of lines in the file at its end. */
  ghost predicate At(r: Reader, lines: nat, i: nat) {
    if i < lines then r == Reader(true, i + 1) else r == Reader(false, lines) && i == lines
  }

  /** comp(): the join fields of the lines in the two buffers, those read last; None if a buffer was never filled. */
  function Comp(f1: seq<Record>, f2: seq<Record>, jf1: nat, jf2: nat, r1: Reader, r2: Reader): (c: Option<int>)
    requires HasField(f1, jf1) && HasField(f2, jf2)
    requires r1.next <= |f1| && r2.next <= |f2|
    ensures c == if r1.next == 0 || r2.next == 0 then None
                 else Some(Compare(Keys(f1, jf1)[r1.next - 1], Keys(f2, jf2)[r2.next - 1]))
  {
    if r1.next == 0 || r2.next == 0 then None
    else Some(Compare(f1[r1.next - 1].fields[jf1], f2[r2.next - 1].fields[jf2]))
  }

  /** The files are in the order of their join fields. */
  ghost predicate InKeyOrder(f1: seq<Record>, f2: seq<Record>, jf1: nat, jf2: nat)
    requires HasField(f1, jf1) && HasField(f2, jf2)
  {
    Sorted(Keys(f1, jf1)) && Sorted(Keys(f2, jf2))
  }

  /**
   * join(F2). The loop ends whatever the files hold. If they are sorted on the join field, the output is, in
   * key order, that of the nested loop over file 1 and then file 2, with each line that has no partner once
   * under -a. None: a line is compared that was never read, which happens exactly under -a with one empty file.
   */
  method Join(f1: seq<Record>, f2: seq<Record>, jf1: nat, jf2: nat, a1: bool, a2: bool) returns (res: Option<seq<Out>>)
    requires HasField(f1, jf1) && HasField(f2, jf2)
    ensures res == None <==> (a1 || a2) && (f1 == []) != (f2 == [])
    ensures res.Some? && InKeyOrder(f1, f2, jf1, jf2) ==>
              && WithLeft(res.value) == NestedLoop(Keys(f1, jf1), Keys(f2, jf2), a1, |f1|)
              && OnlyRight(res.value) == Alone(Keys(f1, jf1), Keys(f2, jf2), a2, |f2|)
              && InOrder(res.value, Keys(f1, jf1), Keys(f2, jf2), |f1|, |f2|)
    ensures res.Some? && InKeyOrder(f1, f2, jf1, jf2) ==>
              && (forall o :: o in res.value <==> Owed(o, Keys(f1, jf1), Keys(f2, jf2), a1, a2))
              && Increasing(res.value)
  {
    hide Between, InKeyOrder, HasField, Keys, Compare, Owed, Increasing;
    ghost var k1, k2 := Keys(f1, jf1), Keys(f2, jf2);
    ghost var sorted := InKeyOrder(f1, f2, jf1, jf2);
    SortedKeys(f1, f2, jf1, jf2);
    var bot := 0;
    var r1, r2 := Input(Reader(false, 0), |f1|), Input(Reader(false, 0), |f2|);
    ghost var i, j := 0, 0;
    var out := [];
    BetweenNone(k1, k2, a1, a2);
    while (r1.n && r2.n) || ((a1 || a2) && (r1.n || r2.n))
      invariant 0 <= i && 0 <= j && At(r1, |f1|, i) && At(r2, |f2|, j) && bot == j
      invariant i > 0 || j > 0 ==> f1 != [] && f2 != []
      invariant sorted ==> Between(k1, k2, a1, a2, i, j, out)
      decreases |f1| - i, |f2| - j
    {
      var c := Comp(f1, f2, jf1, jf2, r1, r2);
      if c == None {
        return None;
      }
      var cmp := c.value;
      if (r1.n && r2.n && cmp > 0) || !r1.n {
        if sorted {
          StepRight(k1, k2, a1, a2, i, j, out);
        }
        if a2 {
          out := out + [Right(r2.next - 1)];
        }
        bot := r2.next;
        r2, j := Input(r2, |f2|), j + 1;
      } else if (r1.n && r2.n && cmp < 0) || !r2.n {
        if sorted {
          StepLeft(k1, k2, a1, a2, i, j, out);
        }
        if a1 {
          out := out + [Left(r1.next - 1)];
        }
        r1, i := Input(r1, |f1|), i + 1;
      } else {
        ghost var i0 := i;
        out, r1, r2, bot, i := Run(f1, f2, jf1, jf2, a1, a2, out, r1, r2, bot, i);
        j := bot;
      }
    }
    if sorted {
      if !a1 && !a2 {
        Finish(k1, k2, i, j, out);
      }
      Finished(k1, k2, a1, a2, out);
      OutputIs(k1, k2, a1, a2, out);
    }
    res := Some(out);
  }

  /** An empty file 1 under -a2: a line of file 2 alone is owed, and the first comparison has nothing to compare. */
  lemma {:induction false} EmptyFileFails(line: Record, jf: nat)
    requires jf < |line.fields|
    ensures HasField([], jf) && HasField([line], jf)
    ensures Comp([], [line], jf, jf, Input(Reader(false, 0), 0), Input(Reader(false, 0), 1)) == None
    ensures Alone(Keys([], jf), Keys([line], jf), true, 1) == [Right(0)]
  {
    assert Alone(Keys([], jf), Keys([line], jf), true, 0) == [];
  }

  lemma {:induction false} SortedKeys(f1: seq<Record>, f2: seq<Record>, jf1: nat, jf2: nat)
    requires HasField(f1, jf1) && HasField(f2, jf2)
    ensures InKeyOrder(f1, f2, jf1, jf2) ==> Sorted(Keys(f1, jf1)) && Sorted(Keys(f2, jf2))
  {
  }

  lemma {:induction false} Finished(k1: seq<Key>, k2: seq<Key>, a1: bool, a2: bool, out: seq<Out>)
    requires Between(k1, k2, a1, a2, |k1|, |k2|, out)
    ensures WithLeft(out) == NestedLoop(k1, k2, a1, |k1|) && OnlyRight(out) == Alone(k1, k2, a2, |k2|)
    ensures InOrder(out, k1, k2, |k1|, |k2|)
  {
  }

  /**
   * The last branch of join: the line of file 1 is paired with the run of equal lines from bot on in file 2;
   * then file 2 is rewound to bot for each further line of file 1 that is not after the run.
   */
  method Run(f1: seq<Record>, f2: seq<Record>, jf1: nat, jf2: nat, a1: bool, a2: bool, out0: seq<Out>,
             s1: Reader, s2: Reader, bot0: nat, ghost i0: nat)
    returns (out: seq<Out>, r1: Reader, r2: Reader, bot: nat, ghost i: nat)
    requires HasField(f1, jf1) && HasField(f2, jf2)
    requires i0 < |f1| && bot0 < |f2| && At(s1, |f1|, i0) && At(s2, |f2|, bot0)
    requires Comp(f1, f2, jf1, jf2, s1, s2) == Some(0)
    requires InKeyOrder(f1, f2, jf1, jf2) ==> Between(Keys(f1, jf1), Keys(f2, jf2), a1, a2, i0, bot0, out0)
    ensures i0 < i <= |f1| && bot0 < bot <= |f2| && At(r1, |f1|, i) && At(r2, |f2|, bot)
    ensures InKeyOrder(f1, f2, jf1, jf2) ==> Between(Keys(f1, jf1), Keys(f2, jf2), a1, a2, i, bot, out)
  {
    hide Between, InKeyOrder, HasField, Keys, Compare, Filling, During, Sorted;
    ghost var k1, k2 := Keys(f1, jf1), Keys(f2, jf2);
    ghost var sorted := InKeyOrder(f1, f2, jf1, jf2);
    SortedKeys(f1, f2, jf1, jf2);
    ghost var key := k1[i0];
    out, r1, r2, bot, i := out0, s1, s2, bot0, i0;
    var top := 0;
    var cmp := 0;
    ghost var j := bot;
    if sorted {
      FillStart(k1, k2, a1, a2, i, j, out);
    }
    while r2.n && cmp == 0
      invariant bot <= j <= |f2| && At(r2, |f2|, j) && (j > bot ==> top == j)
      invariant j == bot || r2.n ==> cmp == Compare(k1[i], k2[j])
      invariant cmp == 0 || j > bot
      invariant sorted ==> Filling(k1, k2, a1, a2, i, bot, j, out)
      decreases |f2| - j
    {
      if sorted {
        FillStep(k1, k2, a1, a2, i, bot, j, out);
      }
      out := out + [Both(r1.next - 1, r2.next - 1)];
      top := r2.next;
      r2, j := Input(r2, |f2|), j + 1;
      cmp := Comp(f1, f2, jf1, jf2, r1, r2).value;
    }
    if sorted {
      FillDone(k1, k2, a1, a2, i, bot, j, out);
      RunRow(k1, k2, a1, a2, key, i, bot, top, j, out);
    }
    r1, r2 := Input(r1, |f1|), Input(Reader(r2.n, bot), |f2|);
    i, j := i + 1, bot;
    while true
      invariant i0 < i <= |f1| && bot <= j <= |f2| && At(r1, |f1|, i) && At(r2, |f2|, j)
      invariant bot == bot0 < top <= |f2| && (i == |f1| ==> j == bot)
      invariant sorted ==> During(k1, k2, a1, a2, key, i, bot, top, j, out)
      decreases |f1| - i, |f2| - j
    {
      cmp := Comp(f1, f2, jf1, jf2, r1, r2).value;
      if r1.n && r2.n && cmp == 0 {
        if sorted {
          RunPair(k1, k2, a1, a2, key, i, bot, top, j, out);
        }
        out := out + [Both(r1.next - 1, r2.next - 1)];
        r2, j := Input(r2, |f2|), j + 1;
      } else if (r1.n && r2.n && cmp < 0) || !r2.n {
        if sorted {
          RunRow(k1, k2, a1, a2, key, i, bot, top, j, out);
        }
        r1, r2 := Input(r1, |f1|), Input(Reader(r2.n, bot), |f2|);
        i, j := i + 1, bot;
      } else {
        if sorted {
          RunEnd(k1, k2, a1, a2, key, i, bot, top, j, out);
        }
        r2 := Input(Reader(r2.n, top), |f2|);
        bot := top;
        return;
      }
    }
  }
}
