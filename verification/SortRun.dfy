// One run of sort: reading lines, spilling sorted files, and putting out the result.

/** dofile, tempout, printout and main of sort.c over the sorter and the merger. */
module SortRun {
  import opened Basics
  import opened Order
  import opened SortCompare
  import opened SortInsert
  import opened SortRadix
  import opened SortMerge
  import opened SortKey

  // ----- lines and the items that point to them -----

  function ItemFor(l: Line): Item {
    Item(l.key, l.text, [])
  }

  ghost predicate NoRest(hs: seq<Item>) {
    forall i :: 0 <= i < |hs| ==> hs[i].rest == []
  }

  function LinesOf(hs: seq<Item>): (ls: seq<Line>)
    ensures |ls| == |hs|
    ensures forall i :: 0 <= i < |hs| ==> ls[i] == LineOf(hs[i])
  {
    seq(|hs|, i requires 0 <= i < |hs| => LineOf(hs[i]))
  }

  lemma {:induction false} LeftIsLines(hs: seq<Item>)
    requires NoRest(hs)
    ensures Left(hs) == multiset(LinesOf(hs))
  {
    if hs != [] {
      var n := |hs| - 1;
      LeftIsLines(hs[..n]);
      assert LinesOf(hs) == LinesOf(hs[..n]) + [LineOf(hs[n])];
      assert Pending(hs[n]) == [LineOf(hs[n])];
    }
  }

  lemma {:induction false} LinesSorted(hs: seq<Item>)
    requires Sorted(hs)
    ensures SortedLines(LinesOf(hs))
  {
    hide Compare;
  }

  /** The order `sort -c` asks of two neighbours; under -u they may not be alike. */
  predicate InOrder(x: Line, y: Line, u: bool) {
    Kcmp(x.key, y.key) < 0 || (!u && Kcmp(x.key, y.key) == 0)
  }

  ghost predicate Checks(ls: seq<Line>, u: bool) {
    forall i :: 0 <= i < |ls| - 1 ==> InOrder(ls[i], ls[i + 1], u)
  }

  /** The -c option: compare each line with the one before it. */
  method CheckOrder(ls: seq<Line>, u: bool) returns (ok: bool)
    ensures ok <==> Checks(ls, u)
  {
    hide Kcmp;
    if ls == [] {
      return true;
    }
    var ol := ls[0];
    for i := 1 to |ls|
      invariant ol == ls[i - 1]
      invariant forall j :: 0 <= j < i - 1 ==> InOrder(ls[j], ls[j + 1], u)
    {
      var n := Kcmp(ol.key, ls[i].key);
      if n > 0 || (n == 0 && u) {
        assert !InOrder(ls[i - 1], ls[i - 1 + 1], u);
        return false;
      }
      ol := ls[i];
    }
    return true;
  }

  /** Whatever sort puts out passes the check, with -u and without. */
  lemma {:induction false} OutputChecks(out: seq<Line>, total: multiset<Line>, u: bool)
    requires Output(out, total, u) && Free(total)
    ensures Checks(out, u)
  {
    hide Kcmp, Compare;
    forall i | 0 <= i < |out| - 1
      ensures InOrder(out[i], out[i + 1], u)
    {
      assert out[i] in multiset(out) && out[i + 1] in multiset(out);
      assert out[i] in total && out[i + 1] in total;
      KcmpIsCompare(out[i].key, out[i + 1].key);
    }
  }

  /** The lines a part of an array of pointers leads to. */
  method WriteLines(linep: array<Item>, nline: nat) returns (tf: seq<Line>)
    requires nline <= linep.Length
    ensures tf == LinesOf(linep[..nline])
  {
    tf := [];
    for n := 0 to nline
      invariant tf == LinesOf(linep[..n])
    {
      LinesOfMore(linep[..n], linep[n]);
      assert linep[..n + 1] == linep[..n] + [linep[n]];
      tf := tf + [LineOf(linep[n])];
    }
  }

  lemma {:induction false} PrintedOne(hs: seq<Item>, out: seq<Line>, ok: seq<Key>, total: multiset<Line>, u: bool)
    requires hs != [] && Sorted(hs) && NoRest(hs) && Free(total)
    requires Merging(out, Left(hs), total, u) && LastKey(out, ok)
    ensures Merging(TurnOut(out, ok, u, LineOf(hs[0])), Left(hs[1..]), total, u) && Sorted(hs[1..])
  {
    hide Merging, Compare, Left, TurnOut, Sorted, NoRest, RunsSorted, Free, LastKey;
    NoRestRuns(hs);
    TurnKeeps(hs, out, ok, total, u);
    HeadGone(hs);
    SortedTail(hs);
  }

  lemma {:induction false} HeadGone(hs: seq<Item>)
    requires hs != [] && NoRest(hs)
    ensures Left(hs[1..]) == Left(hs) - multiset{LineOf(hs[0])}
  {
    hide Left;
    LeftHead(hs);
    assert Pending(hs[0]) == [LineOf(hs[0])];
  }

  lemma {:induction false} SortedTail(hs: seq<Item>)
    requires hs != [] && Sorted(hs)
    ensures Sorted(hs[1..])
  {
    hide Compare;
  }

  lemma {:induction false} NoRestRuns(hs: seq<Item>)
    requires NoRest(hs)
    ensures RunsSorted(hs)
  {
    forall j | 0 <= j < |hs|
      ensures SortedLines(Pending(hs[j]))
    {
      assert Pending(hs[j]) == [LineOf(hs[j])];
    }
  }

  /** printout: the sorted lines in memory, each key once under -u. */
  method PrintLines(linep: array<Item>, nline: nat, u: bool, ghost total: multiset<Line>) returns (out: seq<Line>)
    requires nline <= linep.Length && NoRest(linep[..nline])
    requires total == multiset(LinesOf(linep[..nline])) && Free(total) ==> Sorted(linep[..nline])
    ensures total == multiset(LinesOf(linep[..nline])) && Free(total) ==> Output(out, total, u)
    ensures if u then multiset(out) <= multiset(LinesOf(linep[..nline])) else out == LinesOf(linep[..nline])
  {
    hide Kcmp, Sorted, Merging, Left, Output, Free, LinesOf, NoRest;
    ghost var s := linep[..nline];
    ghost var free := total == multiset(LinesOf(s)) && Free(total);
    out := [];
    var ok: seq<Key> := [];
    MergingStart(total, u);
    LeftIsLines(s);
    assert s[0..] == s && s[..0] == [];
    HeldNone(s[..0]);
    for n := 0 to nline
      invariant LastKey(out, ok)
      invariant free ==> Merging(out, Left(s[n..]), total, u) && Sorted(s[n..])
      invariant if u then multiset(out) <= multiset(LinesOf(s[..n])) else out == LinesOf(s[..n])
    {
      var l := LineOf(linep[n]);
      if free {
        NoRestTail(s, n);
        PrintedOne(s[n..], out, ok, total, u);
        assert s[n..][1..] == s[n + 1..];
      }
      LinesOfMore(s[..n], s[n]);
      assert s[..n + 1] == s[..n] + [s[n]];
      if u && ok != [] && Kcmp(ok[0], l.key) == 0 {
        continue;
      }
      out := out + [l];
      ok := [l.key];
    }
    assert s[..nline] == s;
    if free {
      NothingLeft(s[nline..]);
      MergingDone(out, total, u);
    }
  }

  lemma {:induction false} NoRestTail(s: seq<Item>, n: nat)
    requires n <= |s| && NoRest(s)
    ensures NoRest(s[n..])
  {
  }

  lemma {:induction false} OrderedChecks(hs: seq<Item>)
    requires Ordered(hs)
    ensures Checks(LinesOf(hs), false)
  {
    hide Kcmp;
    forall i | 0 <= i < |hs| - 1
      ensures InOrder(LinesOf(hs)[i], LinesOf(hs)[i + 1], false)
    {
      assert Kcmp(hs[i].key, hs[i + 1].key) <= 0;
    }
  }

  // ----- a run -----

  /** The lines in memory and the temporary files written so far. */
  class Run {
    const sorter: Sorter
    const linep: array<Item>
    const uflag: bool
    var nline: nat
    var temps: seq<seq<Line>>

    constructor (mline: nat, u: bool)
      requires mline > 0
      ensures Valid() && Held() == multiset{} && uflag == u
      ensures fresh(linep) && fresh(sorter) && fresh(sorter.count)
    {
      sorter := new Sorter();
      linep := new Item[mline];
      uflag := u;
      nline := 0;
      temps := [];
      new;
      HeldNone(linep[..0]);
    }

    ghost predicate Valid()
      reads this, linep, sorter, sorter.count
    {
      && sorter.Clear() && nline <= linep.Length && linep.Length > 0
      && NoRest(linep[..nline]) && (Free(Held()) ==> AllSorted(temps))
    }

    /** All the lines read so far. */
    ghost function Held(): multiset<Line>
      requires nline <= linep.Length
      reads this, linep
    {
      multiset(LinesOf(linep[..nline])) + AllLines(temps)
    }

    /** tempout: sort the lines in memory into a new temporary file. */
    method TempOut()
      requires Valid()
      modifies this`nline, this`temps, linep, sorter.count
      ensures Valid() && Held() == old(Held()) && nline == 0 && temps != []
    {
      hide Kcmp, Compare, Ordered, Sorted, AllPrefixFree, LinesOf, SortedLines, AllLines, Free;
      ghost var hs, m := linep[..nline], Held();
      sorter.Sort4(linep, nline);
      ghost var hs' := linep[..nline];
      SamePermuted(hs', hs);
      if Free(m) {
        FreeSubset(multiset(LinesOf(hs)), m);
        SortedTemp(hs', hs);
      }
      var tf := WriteLines(linep, nline);
      AllLinesMore(temps, tf);
      temps := temps + [tf];
      nline := 0;
      HeldNone(linep[..0]);
      assert Held() == m;
    }

    /** dofile: take one more line, spilling the lines in memory first if there is no room. */
    method AddLine(l: Line)
      requires Valid()
      modifies this`nline, this`temps, linep, sorter.count
      ensures Valid() && Held() == old(Held()) + multiset{l}
    {
      hide *;
      if nline >= linep.Length {
        TempOut();
        HasRoom();
      }
      Store(l);
    }

    lemma {:induction false} HasRoom()
      requires Valid() && nline == 0
      ensures nline < linep.Length
    {
    }

    method Store(l: Line)
      requires Valid() && nline < linep.Length
      modifies this`nline, linep
      ensures Valid() && Held() == old(Held()) + multiset{l}
    {
      hide LinesOf, AllLines, SortedLines, Free, Sorter.Clear, AllSorted;
      ghost var hs, m := linep[..nline], Held();
      LinesOfMore(hs, ItemFor(l));
      linep[nline] := ItemFor(l);
      nline := nline + 1;
      assert linep[..nline] == hs + [ItemFor(l)];
      assert Held() == m + multiset{l};
      FreePart(m, multiset{l});
    }

    /** The end of a run whose lines all fitted in memory. */
    method PrintOut() returns (out: seq<Line>)
      requires Valid() && temps == []
      modifies linep, sorter.count
      ensures Free(old(Held())) ==> Output(out, old(Held()), uflag)
      ensures Keeps(multiset(out), old(Held()), uflag) && (!uflag ==> Checks(out, false))
    {
      hide Kcmp, Compare, Ordered, Sorted, AllPrefixFree, LinesOf, SortedLines, Output, Free;
      ghost var hs, total := linep[..nline], Held();
      HeldNone(linep[..0]);
      assert total == multiset(LinesOf(hs));
      sorter.Sort4(linep, nline);
      ghost var hs' := linep[..nline];
      SamePermuted(hs', hs);
      if Free(total) {
        SortedTemp(hs', hs);
        ItemsSorted(hs', hs);
      }
      OrderedChecks(hs');
      out := PrintLines(linep, nline, uflag, total);
    }

    /** The end of a run: print, or spill the rest and merge. */
    method Finish() returns (out: seq<Line>)
      requires Valid()
      modifies this`nline, this`temps, linep, sorter.count
      ensures Keeps(multiset(out), old(Held()), uflag)
      ensures Free(old(Held())) ==> Output(out, old(Held()), uflag)
    {
      hide Free, Output, Keeps, SortedLines, Sorter.Clear;
      if temps != [] {
        TempOut();
        HeldNone(linep[..0]);
        assert LinesOf(linep[..nline]) == [];
        assert Held() == AllLines(temps);
        var ntemp;
        out, ntemp := MergeOut(sorter, temps, uflag);
      } else {
        out := PrintOut();
      }
    }
  }

  lemma {:induction false} FreePart(a: multiset<Line>, b: multiset<Line>)
    ensures Free(a + b) ==> Free(a)
  {
    if Free(a + b) {
      FreeSubset(a, a + b);
    }
  }

  lemma {:induction false} HeldNone(hs: seq<Item>)
    requires hs == []
    ensures LinesOf(hs) == [] && AllLines([]) == multiset{}
  {
  }

  lemma {:induction false} LinesOfMore(hs: seq<Item>, x: Item)
    ensures LinesOf(hs + [x]) == LinesOf(hs) + [LineOf(x)]
    ensures multiset(LinesOf(hs + [x])) == multiset(LinesOf(hs)) + multiset{LineOf(x)}
  {
  }

  lemma {:induction false} AllLinesMore(temps: seq<seq<Line>>, tf: seq<Line>)
    ensures AllLines(temps + [tf]) == AllLines(temps) + multiset(tf)
  {
    assert (temps + [tf])[..|temps|] == temps;
  }

  lemma {:induction false} SortedTemp(hs': seq<Item>, hs: seq<Item>)
    requires Permutes(hs', hs) && Ordered(hs') && NoRest(hs) && Free(multiset(LinesOf(hs)))
    ensures NoRest(hs') && multiset(LinesOf(hs')) == multiset(LinesOf(hs)) && SortedLines(LinesOf(hs'))
  {
    hide Ordered, Sorted, SortedLines, AllPrefixFree, LinesOf;
    forall j | 0 <= j < |hs'|
      ensures hs'[j].rest == []
    {
      var i := MemberOf(hs', hs, j);
    }
    LeftIsLines(hs);
    LeftIsLines(hs');
    LeftPermutes(hs', hs);
    ItemsFree(hs);
    SortedWhenPrefixFree(hs', hs);
    LinesSorted(hs');
  }

  lemma {:induction false} SamePermuted(hs': seq<Item>, hs: seq<Item>)
    requires Permutes(hs', hs) && NoRest(hs)
    ensures NoRest(hs') && multiset(LinesOf(hs')) == multiset(LinesOf(hs))
  {
    hide LinesOf;
    forall j | 0 <= j < |hs'|
      ensures hs'[j].rest == []
    {
      var i := MemberOf(hs', hs, j);
    }
    LeftIsLines(hs);
    LeftIsLines(hs');
    LeftPermutes(hs', hs);
  }

  lemma {:induction false} ItemsSorted(hs': seq<Item>, hs: seq<Item>)
    requires Permutes(hs', hs) && Ordered(hs') && NoRest(hs) && Free(multiset(LinesOf(hs)))
    ensures Sorted(hs')
  {
    hide Ordered, Sorted, AllPrefixFree, LinesOf;
    LeftIsLines(hs);
    ItemsFree(hs);
    SortedWhenPrefixFree(hs', hs);
  }

  // ----- the command -----

  /** The lines of a run with the keys its options give them. */
  ghost function Keyed(o: Options, texts: seq<seq<Byte>>): (ls: seq<Line>)
    ensures |ls| == |texts|
    ensures forall i :: 0 <= i < |texts| ==> ls[i] == Line(LineKey(o, texts[i]), texts[i])
  {
    seq(|texts|, i requires 0 <= i < |texts| => Line(LineKey(o, texts[i]), texts[i]))
  }

  lemma {:induction false} KeyedFree(o: Options, texts: seq<seq<Byte>>)
    requires forall i :: 0 <= i < |texts| ==> CleanLine(o, texts[i])
    ensures Free(multiset(Keyed(o, texts)))
  {
    hide LineKey, CleanLine;
    var ls := Keyed(o, texts);
    forall x: Line, y: Line | x in multiset(ls) && y in multiset(ls)
      ensures PrefixFree(x.key, y.key)
    {
      var i :| 0 <= i < |ls| && ls[i] == x;
      var j :| 0 <= j < |ls| && ls[j] == y;
      LineKeysPrefixFree(o, texts[i], texts[j]);
    }
  }

  /**
   * sort: for any options, any lines and any number of lines allowed in memory, the output holds no line but
   * those of the input, and all of them without -u. If the lines are clean, which those without a NUL always
   * are, it is in key order, passes the check, and under -u has one line of each key.
   */
  method Sort(o: Options, texts: seq<seq<Byte>>, mline: nat) returns (out: seq<Line>)
    requires mline > 0
    ensures Keeps(multiset(out), multiset(Keyed(o, texts)), o.uflag)
    ensures (forall i :: 0 <= i < |texts| ==> CleanLine(o, texts[i])) ==>
              Output(out, multiset(Keyed(o, texts)), o.uflag) && Checks(out, o.uflag)
    ensures (forall i :: 0 <= i < |texts| ==> SortableLine(o, texts[i])) ==>
              forall i, j :: 0 <= i < j < |out| ==>
                LinesOrder(o, out[i].text, out[j].text) <= 0 && (o.uflag ==> LinesOrder(o, out[i].text, out[j].text) < 0)
    ensures o.fields == [] && o.global.kind.Plain? && (forall i :: 0 <= i < |texts| ==> NoNul(texts[i])) ==>
              forall i, j :: 0 <= i < j < |out| ==>
                var (x, y) := if o.global.reversed then (out[j].text, out[i].text) else (out[i].text, out[j].text);
                Compare(x, y) <= 0 && (o.uflag ==> x != y)
  {
    hide LineKey, Output, Checks, Keyed, Free, AllLines, LinesOf, NoRest, SortedLines, CleanLine, Run.Held, AllSorted, Sorter.Clear,
      Keeps, SortableLine, LinesOrder, Compare;
    ghost var ls := Keyed(o, texts);
    var run := new Run(mline, o.uflag);
    KeyedLength(o, texts);
    for i := 0 to |texts|
      invariant run.Valid() && run.uflag == o.uflag
      invariant fresh(run) && fresh(run.linep) && fresh(run.sorter) && fresh(run.sorter.count)
      invariant run.Held() == multiset(ls[..i])
    {
      var k := BuildKey(o, texts[i]);
      KeyedAt(o, texts, i);
      assert ls[..i + 1] == ls[..i] + [ls[i]];
      run.AddLine(Line(k, texts[i]));
    }
    assert ls[..|texts|] == ls;
    out := run.Finish();
    if forall i :: 0 <= i < |texts| ==> CleanLine(o, texts[i]) {
      KeyedFree(o, texts);
      OutputChecks(out, multiset(ls), o.uflag);
    }
    TextsInOrder(o, texts, out);
    StringsInOrder(o, texts, out);
  }

  lemma {:induction false} FromInput(o: Options, texts: seq<seq<Byte>>, out: seq<Line>, i: nat)
    requires i < |out| && Keeps(multiset(out), multiset(Keyed(o, texts)), o.uflag)
    ensures out[i].text in texts && out[i].key == LineKey(o, out[i].text)
  {
    hide LineKey;
    assert out[i] in multiset(out);
    assert out[i] in multiset(Keyed(o, texts));
    var j :| 0 <= j < |Keyed(o, texts)| && Keyed(o, texts)[j] == out[i];
    assert texts[j] in texts;
  }

  /** The keys of two lines of the output, the first before the second, as kcmp has them. */
  lemma {:induction false} KeysInOrder(o: Options, texts: seq<seq<Byte>>, out: seq<Line>, i: nat, j: nat)
    requires i < j < |out| && Keeps(multiset(out), multiset(Keyed(o, texts)), o.uflag)
    requires Output(out, multiset(Keyed(o, texts)), o.uflag) && forall t :: t in texts ==> CleanLine(o, t)
    ensures Kcmp(LineKey(o, out[i].text), LineKey(o, out[j].text)) <= 0
    ensures o.uflag ==> Kcmp(LineKey(o, out[i].text), LineKey(o, out[j].text)) < 0
  {
    hide LineKey, CleanLine, Kcmp, Compare, Keyed, StandsFor, Keeps;
    FromInput(o, texts, out, i);
    FromInput(o, texts, out, j);
    LineKeysPrefixFree(o, out[i].text, out[j].text);
    KcmpIsCompare(out[i].key, out[j].key);
    assert Compare(out[i].key, out[j].key) <= 0;
  }

  lemma {:induction false} TextsInOrder(o: Options, texts: seq<seq<Byte>>, out: seq<Line>)
    requires Keeps(multiset(out), multiset(Keyed(o, texts)), o.uflag)
    requires (forall i :: 0 <= i < |texts| ==> CleanLine(o, texts[i])) ==> Output(out, multiset(Keyed(o, texts)), o.uflag)
    ensures (forall i :: 0 <= i < |texts| ==> SortableLine(o, texts[i])) ==>
              forall i, j :: 0 <= i < j < |out| ==>
                LinesOrder(o, out[i].text, out[j].text) <= 0 && (o.uflag ==> LinesOrder(o, out[i].text, out[j].text) < 0)
  {
    hide LineKey, CleanLine, Kcmp, Compare, Keyed, Output, Keeps, SortableLine, LinesOrder;
    if forall i :: 0 <= i < |texts| ==> SortableLine(o, texts[i]) {
      forall t | t in texts
        ensures CleanLine(o, t) && SortableLine(o, t)
      {
        SortableIsClean(o, t);
      }
      forall i, j | 0 <= i < j < |out|
        ensures LinesOrder(o, out[i].text, out[j].text) <= 0 && (o.uflag ==> LinesOrder(o, out[i].text, out[j].text) < 0)
      {
        KeysInOrder(o, texts, out, i, j);
        FromInput(o, texts, out, i);
        FromInput(o, texts, out, j);
        KeysOrderLines(o, out[i].text, out[j].text);
      }
    }
  }

  lemma {:induction false} StringsInOrder(o: Options, texts: seq<seq<Byte>>, out: seq<Line>)
    requires Keeps(multiset(out), multiset(Keyed(o, texts)), o.uflag)
    requires (forall i :: 0 <= i < |texts| ==> CleanLine(o, texts[i])) ==> Output(out, multiset(Keyed(o, texts)), o.uflag)
    ensures o.fields == [] && o.global.kind.Plain? && (forall i :: 0 <= i < |texts| ==> NoNul(texts[i])) ==>
              forall i, j :: 0 <= i < j < |out| ==>
                var (x, y) := if o.global.reversed then (out[j].text, out[i].text) else (out[i].text, out[j].text);
                Compare(x, y) <= 0 && (o.uflag ==> x != y)
  {
    hide LineKey, CleanLine, Kcmp, Compare, Keyed, Output, Keeps, NoNul;
    if o.fields == [] && o.global.kind.Plain? && forall i :: 0 <= i < |texts| ==> NoNul(texts[i]) {
      forall t | t in texts
        ensures CleanLine(o, t) && NoNul(t)
      {
        NoNulIsClean(o, t);
      }
      forall i, j | 0 <= i < j < |out|
        ensures var (x, y) := if o.global.reversed then (out[j].text, out[i].text) else (out[i].text, out[j].text);
                Compare(x, y) <= 0 && (o.uflag ==> x != y)
      {
        KeysInOrder(o, texts, out, i, j);
        FromInput(o, texts, out, i);
        FromInput(o, texts, out, j);
        WholeLinesOrdered(o, out[i].text, out[j].text);
      }
    }
  }

  lemma {:induction false} KeyedLength(o: Options, texts: seq<seq<Byte>>)
    ensures |Keyed(o, texts)| == |texts|
  {
  }

  lemma {:induction false} KeyedAt(o: Options, texts: seq<seq<Byte>>, i: nat)
    requires i < |texts|
    ensures Keyed(o, texts)[i] == Line(LineKey(o, texts[i]), texts[i])
  {
  }
}
