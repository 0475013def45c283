// Sorting more lines than fit in memory: sorted temporary files and ten-way merges.

/** mergefiles, mergeout, printout, tempout and the -c check of sort.c. */
module SortMerge {
  import opened Order
  import opened SortCompare
  import opened SortInsert
  import opened SortRadix

  const NMERGE := 10

  // ----- what a merge must produce -----

  ghost predicate SortedLines(ls: seq<Line>) {
    forall i, j :: 0 <= i < j < |ls| ==> Compare(ls[i].key, ls[j].key) <= 0
  }

  ghost predicate StrictLines(ls: seq<Line>) {
    forall i, j :: 0 <= i < j < |ls| ==> Compare(ls[i].key, ls[j].key) < 0
  }

  /** No key is a proper prefix of another. */
  ghost predicate Free(m: multiset<Line>) {
    forall x, y :: x in m && y in m ==> PrefixFree(x.key, y.key)
  }

  /** Some line of m has this key. */
  ghost predicate HasKey(m: multiset<Line>, k: Key) {
    exists x :: x in m && x.key == k
  }

  /** `m` stands for `total`: the same lines, or under -u at least one of each key and none from elsewhere. */
  ghost predicate StandsFor(m: multiset<Line>, total: multiset<Line>, u: bool) {
    if u then (forall x :: x in m ==> x in total) && (forall x :: x in total ==> HasKey(m, x.key))
    else m == total
  }

  /** The output of a sort: in order, no key twice under -u, standing for the input. */
  ghost predicate Output(out: seq<Line>, total: multiset<Line>, u: bool) {
    SortedLines(out) && (u ==> StrictLines(out)) && StandsFor(multiset(out), total, u)
  }

  /** Lines of `total` and no others; all of them unless -u drops some. */
  ghost predicate Keeps(m: multiset<Line>, total: multiset<Line>, u: bool) {
    if u then m <= total else m == total
  }

  lemma {:induction false} StandsForTransitive(a: multiset<Line>, b: multiset<Line>, c: multiset<Line>, u: bool)
    requires StandsFor(a, b, u) && StandsFor(b, c, u)
    ensures StandsFor(a, c, u)
  {
    if u {
      forall x | x in c
        ensures HasKey(a, x.key)
      {
        var y :| y in b && y.key == x.key;
      }
    }
  }

  lemma {:induction false} StandsForUnion(a: multiset<Line>, b: multiset<Line>, c: multiset<Line>, u: bool)
    requires StandsFor(a, b, u)
    ensures StandsFor(a + c, b + c, u)
  {
    if u {
      forall x | x in b + c
        ensures HasKey(a + c, x.key)
      {
        if x in b {
          var y :| y in a && y.key == x.key;
          assert y in a + c;
        } else {
          assert x in a + c;
        }
      }
    }
  }

  lemma {:induction false} FreeSubset(a: multiset<Line>, b: multiset<Line>)
    requires Free(b) && forall x :: x in a ==> x in b
    ensures Free(a)
  {
  }

  // ----- the heads of the files being merged -----

  function LineOf(h: Item): Line {
    Line(h.key, h.text)
  }

  /** The lines one file still has to give. */
  function Pending(h: Item): seq<Line> {
    [LineOf(h)] + h.rest
  }

  /** The lines all files still have to give. */
  ghost function Left(hs: seq<Item>): multiset<Line> {
    if hs == [] then multiset{} else Left(hs[..|hs| - 1]) + multiset(Pending(hs[|hs| - 1]))
  }

  lemma {:induction false} LeftConcat(a: seq<Item>, b: seq<Item>)
    ensures Left(a + b) == Left(a) + Left(b)
  {
    if b == [] {
      assert a + b == a;
    } else {
      assert (a + b)[..|a + b| - 1] == a + b[..|b| - 1];
      LeftConcat(a, b[..|b| - 1]);
    }
  }

  lemma {:induction false} LeftOne(h: Item)
    ensures Left([h]) == multiset(Pending(h))
  {
    assert [h][..0] == [];
  }

  lemma {:induction false} LeftWithout(hs: seq<Item>, i: nat)
    requires i < |hs|
    ensures Left(hs) == Left(hs[..i] + hs[i + 1..]) + multiset(Pending(hs[i]))
  {
    hide Left, Pending;
    assert hs == hs[..i] + [hs[i]] + hs[i + 1..];
    LeftConcat(hs[..i] + [hs[i]], hs[i + 1..]);
    LeftConcat(hs[..i], [hs[i]]);
    LeftConcat(hs[..i], hs[i + 1..]);
    LeftOne(hs[i]);
  }

  lemma {:induction false} LeftPermutes(a: seq<Item>, b: seq<Item>)
    requires Permutes(a, b)
    ensures Left(a) == Left(b)
  {
    hide Pending;
    if a == [] {
      assert |multiset(b)| == 0;
    } else {
      var i := FindIn(a, b);
      LeftPermutes(a[..|a| - 1], b[..i] + b[i + 1..]);
      LeftWithout(b, i);
    }
  }

  lemma {:induction false} LeftMember(hs: seq<Item>, x: Line) returns (j: nat)
    requires x in Left(hs)
    ensures j < |hs| && x in Pending(hs[j])
  {
    j := |hs| - 1;
    if x !in multiset(Pending(hs[j])) {
      j := LeftMember(hs[..j], x);
    }
  }

  /** Every file gives its lines in order. */
  ghost predicate RunsSorted(hs: seq<Item>) {
    forall j :: 0 <= j < |hs| ==> SortedLines(Pending(hs[j]))
  }

  /** The least head comes before every line still to come. */
  lemma {:induction false} HeadIsLeast(hs: seq<Item>, x: Line)
    requires hs != [] && Sorted(hs) && RunsSorted(hs) && x in Left(hs)
    ensures Compare(hs[0].key, x.key) <= 0
  {
    var j := LeftMember(hs, x);
    var i :| 0 <= i < |Pending(hs[j])| && Pending(hs[j])[i] == x;
    assert Compare(hs[j].key, x.key) <= 0 by {
      if i > 0 {
        assert Compare(Pending(hs[j])[0].key, Pending(hs[j])[i].key) <= 0;
      }
    }
    if j > 0 {
      CompareTransitive(hs[0].key, hs[j].key, x.key);
    }
  }

  // ----- the state between two lines of output -----

  /** Output so far and lines still to come together stand for the input; what is out comes first. */
  ghost predicate Merging(out: seq<Line>, left: multiset<Line>, total: multiset<Line>, u: bool) {
    && Output(out, multiset(out), u)
    && StandsFor(multiset(out) + left, total, u)
    && (out != [] ==> forall x :: x in left ==> Compare(out[|out| - 1].key, x.key) <= 0)
  }

  /** A line that repeats the last key is dropped under -u. */
  lemma {:induction false} DropKeeps(out: seq<Line>, left: multiset<Line>, total: multiset<Line>, l: Line)
    requires Merging(out, left, total, true) && l in left && out != [] && l.key == out[|out| - 1].key
    ensures Merging(out, left - multiset{l}, total, true)
  {
    hide Output;
    var m, m' := multiset(out) + left, multiset(out) + (left - multiset{l});
    forall x | x in total
      ensures HasKey(m', x.key)
    {
      var y :| y in m && y.key == x.key;
      if y == l {
        assert out[|out| - 1] in m';
      } else {
        assert y in m';
      }
    }
  }

  /** The least line still to come is the next line of output. */
  lemma {:induction false} EmitKeeps(out: seq<Line>, left: multiset<Line>, total: multiset<Line>, u: bool, l: Line)
    requires Merging(out, left, total, u) && l in left
    requires forall x :: x in left ==> Compare(l.key, x.key) <= 0
    requires u && out != [] ==> Compare(out[|out| - 1].key, l.key) < 0
    ensures Merging(out + [l], left - multiset{l}, total, u)
  {
    hide Compare, Output, StandsFor;
    assert multiset(out + [l]) + (left - multiset{l}) == multiset(out) + left;
    AppendSorted(out, l, u);
  }

  lemma {:induction false} StandsForItself(m: multiset<Line>, u: bool)
    ensures StandsFor(m, m, u)
  {
  }

  lemma {:induction false} AppendSorted(out: seq<Line>, l: Line, u: bool)
    requires Output(out, multiset(out), u)
    requires out != [] ==> Compare(out[|out| - 1].key, l.key) <= 0
    requires u && out != [] ==> Compare(out[|out| - 1].key, l.key) < 0
    ensures Output(out + [l], multiset(out + [l]), u)
  {
    hide Compare, StandsFor;
    StandsForItself(multiset(out + [l]), u);
    forall i | 0 <= i < |out|
      ensures Compare(out[i].key, l.key) <= 0 && (u ==> Compare(out[i].key, l.key) < 0)
    {
      if i < |out| - 1 {
        CompareTransitive(out[i].key, out[|out| - 1].key, l.key);
      }
    }
  }

  lemma {:induction false} MergingDone(out: seq<Line>, total: multiset<Line>, u: bool)
    requires Merging(out, multiset{}, total, u)
    ensures Output(out, total, u)
  {
    assert multiset(out) + multiset{} == multiset(out);
  }

  // ----- moving on to the next line of a file -----

  function NextOf(h: Item): Item
    requires h.rest != []
  {
    Item(h.rest[0].key, h.rest[0].text, h.rest[1..])
  }

  lemma {:induction false} LeftHead(hs: seq<Item>)
    requires hs != []
    ensures Left(hs) == multiset(Pending(hs[0])) + Left(hs[1..])
  {
    hide Left, Pending;
    assert hs == [hs[0]] + hs[1..];
    LeftConcat([hs[0]], hs[1..]);
    LeftOne(hs[0]);
  }

  lemma {:induction false} PendingSplit(h: Item)
    ensures multiset(Pending(h)) == multiset{LineOf(h)} + multiset(h.rest)
    ensures h.rest != [] ==> Pending(NextOf(h)) == h.rest
    ensures SortedLines(Pending(h)) ==> SortedLines(h.rest)
  {
    var p := Pending(h);
    assert forall i | 0 <= i < |h.rest| :: h.rest[i] == p[i + 1];
    if h.rest != [] {
      assert Pending(NextOf(h)) == h.rest;
    }
  }

  /** The first file moves on to its next line. */
  lemma {:induction false} AdvanceLeft(hs: seq<Item>)
    requires hs != [] && hs[0].rest != []
    ensures var hs' := hs[0 := NextOf(hs[0])];
            Left(hs') == Left(hs) - multiset{LineOf(hs[0])} && (RunsSorted(hs) ==> RunsSorted(hs'))
  {
    hide Left, SortedLines;
    var hs' := hs[0 := NextOf(hs[0])];
    assert hs'[1..] == hs[1..];
    LeftHead(hs);
    LeftHead(hs');
    PendingSplit(hs[0]);
  }

  /** The first file has ended; the last one takes its place. */
  function Dropped(hs: seq<Item>): seq<Item>
    requires hs != []
  {
    var n := |hs| - 1;
    if n == 0 then [] else [hs[n]] + hs[1..n]
  }

  lemma {:induction false} DropRuns(hs: seq<Item>)
    requires hs != []
    ensures RunsSorted(hs) ==> RunsSorted(Dropped(hs))
  {
    hide SortedLines;
  }

  lemma {:induction false} DropLeft(hs: seq<Item>)
    requires hs != [] && hs[0].rest == []
    ensures Left(Dropped(hs)) == Left(hs) - multiset{LineOf(hs[0])}
  {
    hide Pending;
    var n := |hs| - 1;
    PendingSplit(hs[0]);
    LeftHead(hs);
    if n == 0 {
      assert hs[1..] == [];
    } else {
      LeftHead(Dropped(hs));
      assert Dropped(hs)[1..] == hs[1..n];
      assert hs[1..] == hs[1..n] + [hs[n]];
      LeftConcat(hs[1..n], [hs[n]]);
      LeftOne(hs[n]);
    }
  }

  lemma {:induction false} ItemsFree(hs: seq<Item>)
    requires Free(Left(hs))
    ensures AllPrefixFree(hs)
  {
    forall i, j | 0 <= i < |hs| && 0 <= j < |hs|
      ensures PrefixFree(hs[i].key, hs[j].key)
    {
      HeadInLeft(hs, i);
      HeadInLeft(hs, j);
    }
  }

  lemma {:induction false} HeadInLeft(hs: seq<Item>, i: nat)
    requires i < |hs|
    ensures LineOf(hs[i]) in Left(hs)
  {
    if i < |hs| - 1 {
      HeadInLeft(hs[..|hs| - 1], i);
    } else {
      assert Pending(hs[i])[0] == LineOf(hs[i]);
    }
  }

  lemma {:induction false} LeftFree(out: seq<Line>, left: multiset<Line>, total: multiset<Line>, u: bool)
    requires StandsFor(multiset(out) + left, total, u) && Free(total)
    ensures Free(left) && Free(multiset(out))
  {
    assert forall x | x in left :: x in multiset(out) + left;
    assert forall x | x in multiset(out) :: x in multiset(out) + left;
  }

  /** The last key put out, under -u. */
  ghost predicate LastKey(out: seq<Line>, ok: seq<Key>) {
    ok == if out == [] then [] else [out[|out| - 1].key]
  }

  lemma {:induction false} KcmpZeroIsEqual(a: Key, b: Key)
    requires PrefixFree(a, b)
    ensures Kcmp(a, b) == 0 <==> a == b
  {
  }

  /** What one turn of the merge does with the least line. */
  function TurnOut(out: seq<Line>, ok: seq<Key>, u: bool, l: Line): seq<Line> {
    if u && ok != [] && Kcmp(ok[0], l.key) == 0 then out else out + [l]
  }

  lemma {:induction false} TurnLoses(hs: seq<Item>, out: seq<Line>, ok: seq<Key>, total: multiset<Line>, u: bool)
    requires hs != [] && Keeps(multiset(out) + Left(hs), total, u)
    ensures Keeps(multiset(TurnOut(out, ok, u, LineOf(hs[0]))) + (Left(hs) - multiset{LineOf(hs[0])}), total, u)
  {
    hide Kcmp, Left;
    HeadInLeft(hs, 0);
    var l := LineOf(hs[0]);
    assert multiset(out + [l]) == multiset(out) + multiset{l};
  }

  lemma {:induction false} TurnKeeps(hs: seq<Item>, out: seq<Line>, ok: seq<Key>, total: multiset<Line>, u: bool)
    requires hs != [] && Sorted(hs) && RunsSorted(hs) && Free(total)
    requires Merging(out, Left(hs), total, u) && LastKey(out, ok)
    ensures Merging(TurnOut(out, ok, u, LineOf(hs[0])), Left(hs) - multiset{LineOf(hs[0])}, total, u)
  {
    hide Compare, Kcmp, Output, StandsFor, Left, Sorted, RunsSorted;
    var l, left := LineOf(hs[0]), Left(hs);
    HeadInLeft(hs, 0);
    LeftFree(out, left, total, u);
    forall x | x in left
      ensures Compare(l.key, x.key) <= 0
    {
      HeadIsLeast(hs, x);
    }
    if out != [] {
      LastIsFree(out, left, total, u, l);
      KcmpZeroIsEqual(out[|out| - 1].key, l.key);
    }
    if u && ok != [] && Kcmp(ok[0], l.key) == 0 {
      DropKeeps(out, left, total, l);
    } else {
      EmitKeeps(out, left, total, u, l);
    }
  }

  lemma {:induction false} LastIsFree(out: seq<Line>, left: multiset<Line>, total: multiset<Line>, u: bool, l: Line)
    requires StandsFor(multiset(out) + left, total, u) && Free(total) && out != [] && l in left
    ensures PrefixFree(out[|out| - 1].key, l.key)
  {
    assert out[|out| - 1] in multiset(out) + left;
    assert l in multiset(out) + left;
  }

  // ----- merging -----

  /** What is true between two turns of a merge; what is out is in order if the files are and the keys are prefix-free. */
  ghost predicate Going(hs: seq<Item>, out: seq<Line>, ok: seq<Key>, total: multiset<Line>, u: bool, good: bool) {
    && Keeps(multiset(out) + Left(hs), total, u) && LastKey(out, ok)
    && (good ==> Free(total) && RunsSorted(hs) && Merging(out, Left(hs), total, u))
  }

  /** One turn: the line of the first file is put out or dropped, and the file moves on or ends. */
  lemma {:induction false} TurnGoes(hs: seq<Item>, hs': seq<Item>, out: seq<Line>, ok: seq<Key>, total: multiset<Line>, u: bool,
                                    good: bool)
    requires hs != [] && Going(hs, out, ok, total, u, good) && (good ==> Sorted(hs))
    requires hs' == if hs[0].rest == [] then Dropped(hs) else hs[0 := NextOf(hs[0])]
    ensures var out' := TurnOut(out, ok, u, LineOf(hs[0]));
            && Going(hs', out', if out' == out then ok else [hs[0].key], total, u, good)
            && |Left(hs')| < |Left(hs)|
  {
    hide Kcmp, Sorted, RunsSorted, Merging, Left, Compare, Free, Keeps;
    HeadInLeft(hs, 0);
    TurnLoses(hs, out, ok, total, u);
    if good {
      TurnKeeps(hs, out, ok, total, u);
    }
    if hs[0].rest == [] {
      DropLeft(hs);
      DropRuns(hs);
    } else {
      AdvanceLeft(hs);
    }
  }

  /** Put out lines of the least file until it ends or another one becomes least. */
  method Drain(mmp: array<Item>, nn0: nat, out0: seq<Line>, ok0: seq<Key>, u: bool, ghost total: multiset<Line>, ghost good: bool)
    returns (nn: nat, out: seq<Line>, ok: seq<Key>)
    requires 0 < nn0 <= mmp.Length && Going(mmp[..nn0], out0, ok0, total, u, good) && (good ==> Sorted(mmp[..nn0]))
    modifies mmp
    ensures nn <= mmp.Length && Going(mmp[..nn], out, ok, total, u, good)
    ensures |Left(mmp[..nn])| < |Left(old(mmp[..nn0]))|
  {
    hide Kcmp, Sorted, Going, Left, Compare;
    nn, out, ok := nn0, out0, ok0;
    while true
      invariant 0 < nn <= mmp.Length && Going(mmp[..nn], out, ok, total, u, good) && (good ==> Sorted(mmp[..nn]))
      invariant |Left(mmp[..nn])| <= |Left(old(mmp[..nn0]))|
      decreases |Left(mmp[..nn])|
    {
      ghost var hs := mmp[..nn];
      var m := mmp[0];
      var l := LineOf(m);
      TurnGoes(hs, if m.rest == [] then Dropped(hs) else hs[0 := NextOf(m)], out, ok, total, u, good);
      if u && ok != [] && Kcmp(ok[0], l.key) == 0 {
      } else {
        out := out + [l];
        ok := [l.key];
      }
      if m.rest == [] {
        nn := nn - 1;
        mmp[0] := mmp[nn];
        assert mmp[..nn] == Dropped(hs);
        return;
      }
      mmp[0] := NextOf(m);
      assert mmp[..nn] == hs[0 := NextOf(m)];
      if nn > 1 && Kcmp(mmp[0].key, mmp[1].key) > 0 {
        return;
      }
      if good {
        StillSorted(hs, mmp[..nn], out, ok, total, u);
      }
    }
  }

  /** If the first file's next line does not come after the second head, the heads are still in order. */
  lemma {:induction false} StillSorted(hs: seq<Item>, hs': seq<Item>, out: seq<Line>, ok: seq<Key>, total: multiset<Line>, u: bool)
    requires hs != [] && Sorted(hs) && |hs'| == |hs| && hs' == hs[0 := hs'[0]]
    requires |hs| > 1 ==> Kcmp(hs'[0].key, hs'[1].key) <= 0
    requires Going(hs', out, ok, total, u, true)
    ensures Sorted(hs')
  {
    LeftFree(out, Left(hs'), total, u);
    ItemsFree(hs');
    hide Compare, Kcmp, Left, Merging;
    forall j | 0 < j < |hs'|
      ensures Compare(hs'[0].key, hs'[j].key) <= 0
    {
      assert PrefixFree(hs'[0].key, hs'[1].key);
      KcmpIsCompare(hs'[0].key, hs'[1].key);
      if j > 1 {
        assert Compare(hs[1].key, hs[j].key) <= 0;
        CompareTransitive(hs'[0].key, hs'[1].key, hs'[j].key);
      }
    }
  }

  /** All the lines of some files. */
  ghost function AllLines(files: seq<seq<Line>>): multiset<Line> {
    if files == [] then multiset{} else AllLines(files[..|files| - 1]) + multiset(files[|files| - 1])
  }

  ghost predicate AllSorted(files: seq<seq<Line>>) {
    forall i :: 0 <= i < |files| ==> SortedLines(files[i])
  }

  lemma {:induction false} OpenedOne(hs: seq<Item>, files: seq<seq<Line>>, i: nat, h: Item)
    requires i < |files| && Left(hs) == AllLines(files[..i]) && Pending(h) == files[i]
    ensures Left(hs + [h]) == AllLines(files[..i + 1])
    ensures RunsSorted(hs) && SortedLines(files[i]) ==> RunsSorted(hs + [h])
  {
    hide Pending, SortedLines;
    assert (hs + [h])[..|hs|] == hs;
    assert files[..i + 1][..i] == files[..i];
  }

  lemma {:induction false} OpenedEmpty(files: seq<seq<Line>>, i: nat)
    requires i < |files| && files[i] == []
    ensures AllLines(files[..i + 1]) == AllLines(files[..i])
  {
    assert files[..i + 1][..i] == files[..i];
  }

  /** Open the files and read the first line of each that has one. */
  method OpenFiles(mmp: array<Item>, files: seq<seq<Line>>) returns (nn: nat)
    requires mmp.Length == |files|
    modifies mmp
    ensures nn <= mmp.Length && Left(mmp[..nn]) == AllLines(files)
    ensures AllSorted(files) ==> RunsSorted(mmp[..nn])
  {
    hide SortedLines, Left, RunsSorted;
    nn := 0;
    OpenedNone(mmp[..0], files);
    for i := 0 to |files|
      invariant 0 <= nn <= i
      invariant Left(mmp[..nn]) == AllLines(files[..i]) && (AllSorted(files) ==> RunsSorted(mmp[..nn]))
    {
      if files[i] != [] {
        ghost var hs := mmp[..nn];
        var h := Item(files[i][0].key, files[i][0].text, files[i][1..]);
        assert Pending(h) == files[i];
        OpenedOne(hs, files, i, h);
        mmp[nn] := h;
        nn := nn + 1;
        assert mmp[..nn] == hs + [h];
      } else {
        OpenedEmpty(files, i);
      }
    }
    assert files[..|files|] == files;
  }

  lemma {:induction false} OpenedNone(hs: seq<Item>, files: seq<seq<Line>>)
    requires hs == []
    ensures Left(hs) == AllLines(files[..0]) && RunsSorted(hs)
  {
  }

  /**
   * mergefiles: any number of files become one, with no line but theirs and all of them unless -u drops some.
   * If they are in order and their keys prefix-free, it is in order and stands for them.
   */
  method MergeFiles(sorter: Sorter, files: seq<seq<Line>>, u: bool) returns (out: seq<Line>)
    requires sorter.Clear()
    modifies sorter.count
    ensures sorter.Clear() && Keeps(multiset(out), AllLines(files), u)
    ensures AllSorted(files) && Free(AllLines(files)) ==> Output(out, AllLines(files), u)
  {
    hide Kcmp, Sorted, RunsSorted, Going, Left, Output, Ordered, AllPrefixFree, Permutes, Free, AllSorted;
    ghost var total := AllLines(files);
    ghost var good := AllSorted(files) && Free(total);
    var mmp := new Item[|files|];
    var nn := OpenFiles(mmp, files);
    out := [];
    var ok: seq<Key> := [];
    GoingStart(mmp[..nn], total, u, good);
    while true
      invariant 0 <= nn <= mmp.Length && sorter.Clear() && Going(mmp[..nn], out, ok, total, u, good)
      decreases |Left(mmp[..nn])|
    {
      ghost var hs := mmp[..nn];
      sorter.Sort4(mmp, nn);
      HeadsSorted(mmp[..nn], hs, out, ok, total, u, good);
      if nn == 0 {
        break;
      }
      nn, out, ok := Drain(mmp, nn, out, ok, u, total, good);
    }
    GoingDone(mmp[..nn], out, ok, total, u, good);
  }

  lemma {:induction false} GoingStart(hs: seq<Item>, total: multiset<Line>, u: bool, good: bool)
    requires Left(hs) == total && (good ==> Free(total) && RunsSorted(hs))
    ensures Going(hs, [], [], total, u, good)
  {
    assert multiset([]) + total == total;
    MergingStart(total, u);
  }

  lemma {:induction false} GoingDone(hs: seq<Item>, out: seq<Line>, ok: seq<Key>, total: multiset<Line>, u: bool, good: bool)
    requires hs == [] && Going(hs, out, ok, total, u, good)
    ensures Keeps(multiset(out), total, u) && (good ==> Output(out, total, u))
  {
    NothingLeft(hs);
    assert multiset(out) + multiset{} == multiset(out);
    if good {
      MergingDone(out, total, u);
    }
  }

  lemma {:induction false} MergingStart(total: multiset<Line>, u: bool)
    ensures Merging([], total, total, u)
  {
    assert multiset([]) + total == total;
    StandsForItself(total, u);
  }

  lemma {:induction false} NothingLeft(hs: seq<Item>)
    requires hs == []
    ensures Left(hs) == multiset{}
  {
  }

  lemma {:induction false} HeadsSorted(hs': seq<Item>, hs: seq<Item>, out: seq<Line>, ok: seq<Key>, total: multiset<Line>, u: bool,
                                       good: bool)
    requires Permutes(hs', hs) && Ordered(hs') && Going(hs, out, ok, total, u, good)
    ensures Left(hs') == Left(hs) && Going(hs', out, ok, total, u, good) && (good ==> Sorted(hs'))
  {
    hide Ordered, Sorted, Left, SortedLines, AllPrefixFree;
    LeftPermutes(hs', hs);
    if good {
      LeftFree(out, Left(hs), total, u);
      ItemsFree(hs);
      SortedWhenPrefixFree(hs', hs);
      forall j | 0 <= j < |hs'|
        ensures SortedLines(Pending(hs'[j]))
      {
        var i := MemberOf(hs', hs, j);
      }
    }
  }

  lemma {:induction false} AllLinesConcat(a: seq<seq<Line>>, b: seq<seq<Line>>)
    ensures AllLines(a + b) == AllLines(a) + AllLines(b)
  {
    if b == [] {
      assert a + b == a;
    } else {
      assert (a + b)[..|a + b| - 1] == a + b[..|b| - 1];
      AllLinesConcat(a, b[..|b| - 1]);
    }
  }

  lemma {:induction false} AllLinesOne(f: seq<Line>)
    ensures AllLines([f]) == multiset(f)
  {
    assert [f][..0] == [];
  }

  /** Ten files merged into one at the end still stand for the input. */
  lemma {:induction false} RoundKeeps(files: seq<seq<Line>>, out: seq<Line>, total: multiset<Line>, u: bool)
    requires |files| > NMERGE && StandsFor(AllLines(files), total, u) && Free(total)
    requires Output(out, AllLines(files[..NMERGE]), u)
    ensures StandsFor(AllLines(files[NMERGE..] + [out]), total, u)
  {
    hide StandsFor, AllLines;
    var a, b := files[..NMERGE], files[NMERGE..];
    assert files == a + b;
    AllLinesConcat(a, b);
    AllLinesConcat(b, [out]);
    AllLinesOne(out);
    StandsForUnion(multiset(out), AllLines(a), AllLines(b), u);
    StandsForTransitive(multiset(out) + AllLines(b), AllLines(a) + AllLines(b), total, u);
    assert multiset(out) + AllLines(b) == AllLines(b) + multiset(out);
  }

  lemma {:induction false} PartFree(files: seq<seq<Line>>, n: nat, total: multiset<Line>, u: bool)
    requires n <= |files| && StandsFor(AllLines(files), total, u) && Free(total)
    ensures Free(AllLines(files)) && Free(AllLines(files[..n]))
  {
    assert files == files[..n] + files[n..];
    AllLinesConcat(files[..n], files[n..]);
    FreeSubset(AllLines(files), total);
    FreeSubset(AllLines(files[..n]), AllLines(files));
  }

  /** Lines kept through a round. */
  lemma {:induction false} RoundLoses(files: seq<seq<Line>>, n: nat, out: seq<Line>, total: multiset<Line>, u: bool)
    requires n <= |files| && Keeps(AllLines(files), total, u) && Keeps(multiset(out), AllLines(files[..n]), u)
    ensures Keeps(AllLines(files[n..] + [out]), total, u)
    ensures n == |files| ==> Keeps(multiset(out), total, u)
  {
    hide AllLines;
    var a, b := files[..n], files[n..];
    assert files == a + b;
    AllLinesConcat(a, b);
    AllLinesConcat(b, [out]);
    AllLinesOne(out);
    assert n == |files| ==> a == files;
  }

  /** The files still to be merged stand for the input, as far as the input allows. */
  ghost predicate InRounds(files: seq<seq<Line>>, total: multiset<Line>, u: bool, good: bool) {
    Keeps(AllLines(files), total, u) && (good ==> Free(total) && AllSorted(files) && StandsFor(AllLines(files), total, u))
  }

  lemma {:induction false} NextRound(files: seq<seq<Line>>, out: seq<Line>, total: multiset<Line>, u: bool, good: bool)
    requires |files| > NMERGE && InRounds(files, total, u, good) && Keeps(multiset(out), AllLines(files[..NMERGE]), u)
    requires good ==> Output(out, AllLines(files[..NMERGE]), u)
    ensures InRounds(files[NMERGE..] + [out], total, u, good)
  {
    hide Keeps, StandsFor, Output, AllLines, Free, SortedLines;
    RoundLoses(files, NMERGE, out, total, u);
    if good {
      RoundKeeps(files, out, total, u);
      OutputSorted(out, AllLines(files[..NMERGE]), u);
    }
  }

  lemma {:induction false} LastRound(files: seq<seq<Line>>, out: seq<Line>, total: multiset<Line>, u: bool, good: bool)
    requires InRounds(files, total, u, good) && Keeps(multiset(out), AllLines(files), u)
    requires good ==> Output(out, AllLines(files), u)
    ensures Keeps(multiset(out), total, u) && (good ==> Output(out, total, u))
  {
    hide StandsFor, Output, AllLines, Free, SortedLines;
    if good {
      OutputFor(out, AllLines(files), total, u);
    }
  }

  lemma {:induction false} PartGood(files: seq<seq<Line>>, n: nat, total: multiset<Line>, u: bool)
    requires n <= |files| && InRounds(files, total, u, true)
    ensures AllSorted(files[..n]) && Free(AllLines(files[..n]))
  {
    hide StandsFor, AllLines, Free, SortedLines;
    PartFree(files, n, total, u);
  }

  /**
   * mergeout: merge ten files at a time into a new one until ten or fewer are left; merge those. Each round makes
   * one more temporary file and leaves nine fewer to merge: ntemp counts all that were ever made.
   */
  method MergeOut(sorter: Sorter, files: seq<seq<Line>>, u: bool) returns (out: seq<Line>, ntemp: nat)
    requires sorter.Clear() && files != []
    modifies sorter.count
    ensures sorter.Clear() && Keeps(multiset(out), AllLines(files), u)
    ensures AllSorted(files) && Free(AllLines(files)) ==> Output(out, AllLines(files), u)
    ensures ntemp >= |files| && 1 <= |files| - 9 * (ntemp - |files|) <= NMERGE
    ensures |files| > 1 ==> |files| - 9 * (ntemp - |files|) > 1
  {
    hide Output, InRounds, Free, AllLines, SortedLines, Keeps, AllSorted;
    var temps := files;
    var i := 0;
    ghost var total := AllLines(files);
    ghost var good := AllSorted(files) && Free(total);
    FirstRound(files, u, good);
    out := [];
    assert temps[0..] == files;
    ghost var rounds := 0;
    while i < |temps|
      invariant 0 <= i <= |temps| && sorter.Clear() && |temps| == |files| + rounds
      invariant if i < |temps| then InRounds(temps[i..], total, u, good) && |temps| - i == |files| - 9 * rounds
                else Keeps(multiset(out), total, u) && (good ==> Output(out, total, u))
      invariant 1 <= |files| - 9 * rounds && (i == |temps| ==> |files| - 9 * rounds <= NMERGE)
      invariant |files| > 1 ==> |files| - 9 * rounds > 1
      decreases |temps| - i
    {
      var n := |temps| - i;
      ghost var left := temps[i..];
      if n > NMERGE {
        n := NMERGE;
        assert left[..n] == temps[i..i + n];
        if good {
          PartGood(left, n, total, u);
        }
        var merged := MergeFiles(sorter, temps[i..i + n], u);
        NextRound(left, merged, total, u, good);
        temps := temps + [merged];
        assert temps[i + n..] == left[n..] + [merged];
        rounds := rounds + 1;
      } else {
        assert left == temps[i..i + n] && left[..n] == left;
        if good {
          PartGood(left, n, total, u);
        }
        out := MergeFiles(sorter, temps[i..i + n], u);
        LastRound(left, out, total, u, good);
      }
      i := i + n;
    }
    ntemp := |temps|;
  }

  lemma {:induction false} FirstRound(files: seq<seq<Line>>, u: bool, good: bool)
    requires good ==> AllSorted(files) && Free(AllLines(files))
    ensures InRounds(files, AllLines(files), u, good)
  {
    StandsForItself(AllLines(files), u);
  }

  lemma {:induction false} OutputSorted(out: seq<Line>, total: multiset<Line>, u: bool)
    requires Output(out, total, u)
    ensures SortedLines(out)
  {
  }

  lemma {:induction false} OutputFor(out: seq<Line>, part: multiset<Line>, total: multiset<Line>, u: bool)
    requires Output(out, part, u) && StandsFor(part, total, u)
    ensures Output(out, total, u)
  {
    StandsForTransitive(multiset(out), part, total, u);
  }
}
