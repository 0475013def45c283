// Reading a directory of ramfs piece by piece.

/** The directory part of rread of ramfs.c. */
module RamfsDir {
  import opened Basics
  import opened RamfsTree

  /** ramstat: the record of an entry, which is longer than its own two length bytes. */
  type Stat = Ram -> seq<Byte>

  ghost predicate GoodStat(stat: Stat) {
    forall r :: |stat(r)| > 2
  }

  /** The entries of a directory among the first n slots, in slot order; the root is not listed in itself. */
  ghost function Children(ram: seq<Ram>, d: nat, n: nat): (c: seq<nat>)
    requires n <= |ram|
    ensures forall k :: 0 <= k < |c| ==> 1 <= c[k] < n
  {
    if n <= 1 then [] else
    Children(ram, d, n - 1) + if IsChild(ram, n - 1, d) then [n - 1] else []
  }

  /** Every entry but the root is listed once, in slot order. */
  lemma {:induction false} ChildrenAre(ram: seq<Ram>, d: nat, n: nat)
    requires n <= |ram|
    ensures forall i :: 1 <= i < n ==> (IsChild(ram, i, d) <==> i in Children(ram, d, n))
    ensures forall j, k :: 0 <= j < k < |Children(ram, d, n)| ==> Children(ram, d, n)[j] < Children(ram, d, n)[k]
  {
    if n > 1 {
      ChildrenAre(ram, d, n - 1);
      assert forall i :: i in Children(ram, d, n) <==> i in Children(ram, d, n - 1) || (i == n - 1 && IsChild(ram, i, d));
    }
  }

  lemma {:induction false} ChildrenPrefix(ram: seq<Ram>, d: nat, m: nat, n: nat)
    requires m <= n <= |ram|
    ensures |Children(ram, d, m)| <= |Children(ram, d, n)|
    ensures Children(ram, d, m) == Children(ram, d, n)[..|Children(ram, d, m)|]
  {
    if m < n && n > 1 {
      ChildrenPrefix(ram, d, m, n - 1);
    }
  }

  /** The next slot, after those of the first j entries. */
  lemma {:induction false} ChildrenNext(ram: seq<Ram>, d: nat, i: nat, nram: nat, j: nat)
    requires 1 <= i < nram <= |ram| && j <= |Children(ram, d, nram)|
    requires Children(ram, d, i) == Children(ram, d, nram)[..j]
    ensures var c := Children(ram, d, nram);
            if IsChild(ram, i, d) then j < |c| && c[j] == i && Children(ram, d, i + 1) == c[..j + 1]
            else Children(ram, d, i + 1) == c[..j]
  {
    ChildrenPrefix(ram, d, i + 1, nram);
    var e := Children(ram, d, i + 1);
    assert IsChild(ram, i, d) ==> e[j] == i;
  }

  /** The records of some entries, one after another. */
  ghost function Records(ram: seq<Ram>, stat: Stat, c: seq<nat>): seq<Byte>
    requires forall k :: 0 <= k < |c| ==> c[k] < |ram|
  {
    if c == [] then [] else Records(ram, stat, c[..|c| - 1]) + stat(ram[c[|c| - 1]])
  }

  lemma {:induction false} RecordsLast(ram: seq<Ram>, stat: Stat, c: seq<nat>, i: nat)
    requires i < |ram| && forall k :: 0 <= k < |c| ==> c[k] < |ram|
    ensures Records(ram, stat, c + [i]) == Records(ram, stat, c) + stat(ram[i])
  {
    assert (c + [i])[..|c|] == c;
  }

  lemma {:induction false} RecordsConcat(ram: seq<Ram>, stat: Stat, a: seq<nat>, b: seq<nat>)
    requires forall k :: 0 <= k < |a| ==> a[k] < |ram|
    requires forall k :: 0 <= k < |b| ==> b[k] < |ram|
    ensures Records(ram, stat, a + b) == Records(ram, stat, a) + Records(ram, stat, b)
  {
    hide Records;
    NoRecords(ram, stat, b);
    if b == [] {
      assert a + b == a && b[..0] == b;
    } else {
      var n := |b| - 1;
      RecordsConcat(ram, stat, a, b[..n]);
      RecordsLast(ram, stat, b[..n], b[n]);
      RecordsLast(ram, stat, a + b[..n], b[n]);
      assert b == b[..n] + [b[n]] && a + b == a + b[..n] + [b[n]];
    }
  }

  /** How many of the records from the k-th on fit in a reply. */
  ghost function Fitting(ram: seq<Ram>, stat: Stat, c: seq<nat>, k: nat, cnt: int): (n: nat)
    requires k <= |c| && forall k :: 0 <= k < |c| ==> c[k] < |ram|
    ensures k + n <= |c|
    decreases |c| - k
  {
    if k == |c| || |stat(ram[c[k]])| > cnt then 0
    else 1 + Fitting(ram, stat, c, k + 1, cnt - |stat(ram[c[k]])|)
  }

  lemma {:induction false} RecordsGrow(ram: seq<Ram>, stat: Stat, c: seq<nat>, j: nat, k: nat)
    requires j <= k <= |c| && GoodStat(stat) && forall k :: 0 <= k < |c| ==> c[k] < |ram|
    ensures |Records(ram, stat, c[..j])| <= |Records(ram, stat, c[..k])|
    ensures j < k ==> |Records(ram, stat, c[..j + 1])| <= |Records(ram, stat, c[..k])|
    ensures j < k ==> Records(ram, stat, c[..j + 1]) == Records(ram, stat, c[..j]) + stat(ram[c[j]])
    ensures j < k ==> |Records(ram, stat, c[..j])| < |Records(ram, stat, c[..k])|
    decreases k - j
  {
    if j < k {
      assert c[..j + 1][..j] == c[..j];
      RecordsGrow(ram, stat, c, j + 1, k);
    }
  }

  lemma {:induction false} NoRecords(ram: seq<Ram>, stat: Stat, c: seq<nat>)
    requires forall k :: 0 <= k < |c| ==> c[k] < |ram|
    ensures Records(ram, stat, c[..0]) == []
  {
  }

  /** The offset is the length of the first k records. */
  ghost predicate Boundary(ram: seq<Ram>, stat: Stat, c: seq<nat>, k: nat, off: nat)
    requires forall k :: 0 <= k < |c| ==> c[k] < |ram|
  {
    k <= |c| && off == |Records(ram, stat, c[..k])|
  }

  /** The number of records passed when an offset is used up, from the k-th on; all if they do not use it up. */
  ghost function Skipped(ram: seq<Ram>, stat: Stat, c: seq<nat>, k: nat, off: int): (n: nat)
    requires k <= |c| && forall k :: 0 <= k < |c| ==> c[k] < |ram|
    ensures k <= n <= |c|
    decreases |c| - k
  {
    if off <= 0 || k == |c| then k else Skipped(ram, stat, c, k + 1, off - |stat(ram[c[k]])|)
  }

  /** An offset that is the sum of earlier counts is used up exactly at the end of a record. */
  lemma {:induction false} SkippedToBoundary(ram: seq<Ram>, stat: Stat, c: seq<nat>, j: nat, k: nat, off: nat)
    requires j <= k && GoodStat(stat) && (forall k :: 0 <= k < |c| ==> c[k] < |ram|) && Boundary(ram, stat, c, k, off)
    ensures Skipped(ram, stat, c, j, off - |Records(ram, stat, c[..j])|) == k
    decreases k - j
  {
    hide Records;
    RecordsGrow(ram, stat, c, j, k);
    if j < k {
      SkippedToBoundary(ram, stat, c, j + 1, k, off);
    }
  }

  /** Where the first loop ends: at a slot, past the last one, or never, off the end of the table. */
  datatype Sought = At(i: nat) | AtEnd | OffTable

  /** The first loop: slots are passed until the offset is used up. It runs off a table that never had an entry. */
  method Seek(ram: array<Ram>, nram: nat, stat: Stat, d: nat, off0: nat) returns (r: Sought)
    requires 1 <= nram <= ram.Length && GoodStat(stat)
    ensures r == OffTable <==> off0 > 0 && nram == 1
    ensures var c := Children(ram[..], d, nram);
            var k := Skipped(ram[..], stat, c, 0, off0);
            match r
            case At(i) => 1 <= i && (nram == 1 || i <= nram) && (i <= nram ==> Children(ram[..], d, i) == c[..k])
            case AtEnd => k == |c|
            case OffTable => true
  {
    hide Children;
    ghost var c := Children(ram[..], d, nram);
    FirstChildren(ram[..], d, nram);
    if off0 > 0 && nram == 1 {
      return OffTable;
    }
    var off: int := off0;
    var i := 1;
    ghost var j := 0;
    while off > 0
      invariant 1 <= i && (off > 0 ==> i < nram) && (nram == 1 || i <= nram) && 0 <= j <= |c|
      invariant i <= nram ==> Children(ram[..], d, i) == c[..j]
      invariant Skipped(ram[..], stat, c, 0, off0) == Skipped(ram[..], stat, c, j, off)
      decreases nram - i
    {
      ChildrenNext(ram[..], d, i, nram, j);
      if ram[i].busy && ram[i].parent == d {
        off := off - |stat(ram[i])|;
        j := j + 1;
      }
      if i == nram - 1 {
        assert c[..j] == c;
        return AtEnd;
      }
      i := i + 1;
    }
    r := At(i);
  }

  lemma {:induction false} FirstChildren(ram: seq<Ram>, d: nat, nram: nat)
    requires 1 <= nram <= |ram|
    ensures Children(ram, d, 1) == Children(ram, d, nram)[..0]
    ensures nram == 1 ==> Children(ram, d, nram) == []
  {
  }

  /** The records that fit, from the k-th on, are those of the next entries. */
  lemma {:induction false} FittingStep(ram: seq<Ram>, stat: Stat, c: seq<nat>, k: nat, j: nat, cnt: nat)
    requires k <= j < |c| && GoodStat(stat) && forall k :: 0 <= k < |c| ==> c[k] < |ram|
    requires |Records(ram, stat, c[k..j])| <= cnt
    requires Fitting(ram, stat, c, k, cnt) == j - k + Fitting(ram, stat, c, j, cnt - |Records(ram, stat, c[k..j])|)
    ensures Records(ram, stat, c[k..j + 1]) == Records(ram, stat, c[k..j]) + stat(ram[c[j]])
    ensures |Records(ram, stat, c[k..j + 1])| > cnt ==> Fitting(ram, stat, c, k, cnt) == j - k
    ensures |Records(ram, stat, c[k..j + 1])| <= cnt ==>
      Fitting(ram, stat, c, k, cnt) == j + 1 - k + Fitting(ram, stat, c, j + 1, cnt - |Records(ram, stat, c[k..j + 1])|)
  {
    assert c[k..j + 1][..j - k] == c[k..j];
  }

  /** The second loop: whole records are given as long as they fit. */
  method Fill(ram: array<Ram>, nram: nat, stat: Stat, d: nat, i0: nat, cnt: nat, ghost k: nat) returns (buf: seq<Byte>)
    requires 1 <= i0 && 1 <= nram <= ram.Length && GoodStat(stat) && (i0 <= nram || nram == 1)
    requires k <= |Children(ram[..], d, nram)|
    requires i0 <= nram ==> Children(ram[..], d, i0) == Children(ram[..], d, nram)[..k]
    requires i0 > nram ==> k == |Children(ram[..], d, nram)|
    ensures var c := Children(ram[..], d, nram);
            buf == Records(ram[..], stat, c[k..k + Fitting(ram[..], stat, c, k, cnt)])
  {
    hide Records, Fitting, Children;
    ghost var c := Children(ram[..], d, nram);
    buf := [];
    var i := i0;
    ghost var j := k;
    assert c[k..k] == c[..0] == [];
    NoRecords(ram[..], stat, c);
    FittingEnd(ram[..], stat, c, k, cnt);
    while i < nram && |buf| < cnt
      invariant 1 <= i && (i <= nram || nram == 1) && k <= j <= |c|
      invariant if i <= nram then Children(ram[..], d, i) == c[..j] else j == |c|
      invariant buf == Records(ram[..], stat, c[k..j]) && |buf| <= cnt
      invariant Fitting(ram[..], stat, c, k, cnt) == j - k + Fitting(ram[..], stat, c, j, cnt - |buf|)
      decreases nram - i
    {
      ChildrenNext(ram[..], d, i, nram, j);
      if ram[i].busy && ram[i].parent == d {
        FittingStep(ram[..], stat, c, k, j, cnt);
        var m := stat(ram[i]);
        if |m| > cnt - |buf| {
          assert k + Fitting(ram[..], stat, c, k, cnt) == j;
          return;
        }
        buf := buf + m;
        j := j + 1;
      }
      i := i + 1;
    }
    FittingEnd(ram[..], stat, c, j, cnt - |buf|);
    if i < nram && j < |c| {
      FittingFull(ram[..], stat, c, j);
    }
    assert Fitting(ram[..], stat, c, j, cnt - |buf|) == 0;
  }

  lemma {:induction false} FittingEnd(ram: seq<Ram>, stat: Stat, c: seq<nat>, k: nat, cnt: int)
    requires k <= |c| && forall k :: 0 <= k < |c| ==> c[k] < |ram|
    ensures k == |c| ==> Fitting(ram, stat, c, k, cnt) == 0
  {
  }

  lemma {:induction false} FittingFull(ram: seq<Ram>, stat: Stat, c: seq<nat>, k: nat)
    requires k <= |c| && GoodStat(stat) && forall k :: 0 <= k < |c| ==> c[k] < |ram|
    ensures Fitting(ram, stat, c, k, 0) == 0
  {
  }

  /**
   * rread, of a directory: the records after those that use up the offset, whole and as many as fit. None: the
   * table is run off, which happens exactly past the start of a directory when the table never had an entry.
   */
  method ReadDir(ram: array<Ram>, nram: nat, stat: Stat, d: nat, off: nat, cnt: nat) returns (r: Option<seq<Byte>>)
    requires 1 <= nram <= ram.Length && GoodStat(stat)
    ensures r == None <==> off > 0 && nram == 1
    ensures var c := Children(ram[..], d, nram);
            var k := Skipped(ram[..], stat, c, 0, off);
            r.Some? ==> r.value == Records(ram[..], stat, c[k..k + Fitting(ram[..], stat, c, k, cnt)])
  {
    hide Records, Fitting, Skipped;
    ghost var c := Children(ram[..], d, nram);
    ghost var k := Skipped(ram[..], stat, c, 0, off);
    var s := Seek(ram, nram, stat, d, off);
    match s {
      case OffTable => return None;
      case AtEnd =>
        FittingEnd(ram[..], stat, c, k, cnt);
        NoRecords(ram[..], stat, c);
        assert c[k..k] == c[..0];
        return Some([]);
      case At(i) =>
        var buf := Fill(ram, nram, stat, d, i, cnt, k);
        return Some(buf);
    }
  }

  /** Each count has room for the record of any entry. */
  ghost predicate Roomy(ram: seq<Ram>, stat: Stat, c: seq<nat>, cnts: seq<nat>)
    requires forall k :: 0 <= k < |c| ==> c[k] < |ram|
  {
    forall x, k :: 0 <= x < |cnts| && 0 <= k < |c| ==> |stat(ram[c[k]])| <= cnts[x]
  }

  /**
   * A client reads an unchanged directory on, each time from where the counts so far add up to, until a read
   * gives nothing. If every count has room for any one record it gets each entry's record once, whole and in
   * slot order, before the empty reply.
   */
  method ReadAll(ram: array<Ram>, nram: nat, stat: Stat, d: nat, cnts: seq<nat>) returns (all: seq<Byte>, ended: bool)
    requires 1 <= nram <= ram.Length && GoodStat(stat)
    ensures var c := Children(ram[..], d, nram);
            Roomy(ram[..], stat, c, cnts) ==>
              && (ended ==> all == Records(ram[..], stat, c))
              && (|cnts| > |c| ==> ended)
  {
    hide Records, Fitting, Children, Skipped, Roomy;
    ghost var c := Children(ram[..], d, nram);
    ghost var roomy := Roomy(ram[..], stat, c, cnts);
    all, ended := [], false;
    ghost var k := 0;
    NoRecords(ram[..], stat, c);
    var x := 0;
    assert c[..0] == [];
    while x < |cnts|
      invariant 0 <= x <= |cnts| && !ended && 0 <= k <= |c|
      invariant all == Records(ram[..], stat, c[..k])
      invariant roomy ==> k >= x
    {
      FewSlots(ram[..], d, nram, k);
      ghost var n := Fitting(ram[..], stat, c, k, cnts[x]);
      ReadOn(ram[..], stat, c, k, cnts[x]);
      var reply := ReadDir(ram, nram, stat, d, |all|, cnts[x]);
      var buf := reply.value;
      if roomy {
        RoomyAt(ram[..], stat, c, cnts, x, k);
      }
      if buf == [] {
        ended := true;
        assert c[..|c|] == c;
        return;
      }
      all := all + buf;
      k := k + n;
      x := x + 1;
    }
  }

  lemma {:induction false} RoomyAt(ram: seq<Ram>, stat: Stat, c: seq<nat>, cnts: seq<nat>, x: nat, k: nat)
    requires k <= |c| && x < |cnts| && (forall k :: 0 <= k < |c| ==> c[k] < |ram|) && Roomy(ram, stat, c, cnts)
    ensures k < |c| ==> |stat(ram[c[k]])| <= cnts[x]
  {
  }

  /** A read at the end of the k-th record gives the n records that follow and fit, and nothing only if n is zero. */
  lemma {:induction false} ReadOn(ram: seq<Ram>, stat: Stat, c: seq<nat>, k: nat, cnt: nat)
    requires k <= |c| && GoodStat(stat) && forall k :: 0 <= k < |c| ==> c[k] < |ram|
    ensures var off, n := |Records(ram, stat, c[..k])|, Fitting(ram, stat, c, k, cnt);
            && Skipped(ram, stat, c, 0, off) == k && (off > 0 ==> k > 0)
            && Records(ram, stat, c[..k + n]) == Records(ram, stat, c[..k]) + Records(ram, stat, c[k..k + n])
            && (n > 0 ==> Records(ram, stat, c[k..k + n]) != [])
            && (k < |c| && |stat(ram[c[k]])| <= cnt ==> n > 0)
  {
    hide Records, Fitting, Skipped;
    var n := Fitting(ram, stat, c, k, cnt);
    NoRecords(ram, stat, c);
    assert k == 0 ==> c[..k] == c[..0];
    SkippedToBoundary(ram, stat, c, 0, k, |Records(ram, stat, c[..k])|);
    RecordsConcat(ram, stat, c[..k], c[k..k + n]);
    assert c[..k] + c[k..k + n] == c[..k + n];
    FittingSome(ram, stat, c, k, cnt);
    RecordsGrow(ram, stat, c, k, k + n);
  }

  lemma {:induction false} FittingSome(ram: seq<Ram>, stat: Stat, c: seq<nat>, k: nat, cnt: nat)
    requires k <= |c| && forall k :: 0 <= k < |c| ==> c[k] < |ram|
    ensures k < |c| && |stat(ram[c[k]])| <= cnt ==> Fitting(ram, stat, c, k, cnt) > 0
  {
  }

  lemma {:induction false} FewSlots(ram: seq<Ram>, d: nat, nram: nat, k: nat)
    requires 1 <= nram <= |ram| && k <= |Children(ram, d, nram)|
    ensures k > 0 ==> nram > 1
  {
  }
}
