// The temporary file of ed: lines stored by token behind an input and an output block.

/** getline, putline, getblock and init of ed.c, refining one flat string of runes. */
module EdTemp {
  import opened Basics

  /** A rune; 0 ends a line in the file and in the line buffer. */
  type Rune = nat

  const NEWLINE: Rune := 10
  const BLOCK := 1024    // runes in a block of 4096 bytes
  const NBLK := 8191     // blocks the file may have
  const LBSIZE := 4096   // runes the line buffer may hold

  /** The part of a line before its first newline. */
  function UpToNewline(s: seq<Rune>): (r: seq<Rune>)
    ensures |r| <= |s| && r == s[..|r|]
    ensures NEWLINE !in r
    ensures |r| < |s| ==> s[|r|] == NEWLINE
  {
    if s == [] || s[0] == NEWLINE then [] else [s[0]] + UpToNewline(s[1..])
  }

  /** C's (n+3) & 077776. */
  function Advance(n: nat): nat {
    ((n + 3) % 0x8000) / 2 * 2
  }

  lemma {:induction false} AdvanceBounds(n: nat)
    requires n < 0x7FFD
    ensures n + 2 <= Advance(n) <= n + 3 && Advance(n) % 2 == 0
  {
  }

  /** The block of a rune of the flat file, and its place there. */
  function Blk(p: nat): nat {
    p / BLOCK
  }

  function Off(p: nat): (o: nat)
    ensures o < BLOCK && o <= p
  {
    p % BLOCK
  }

  lemma {:induction false} BlkNext(p: nat)
    ensures if Off(p) == BLOCK - 1 then Blk(p + 1) == Blk(p) + 1 && Off(p + 1) == 0
            else Blk(p + 1) == Blk(p) && Off(p + 1) == Off(p) + 1
  {
  }

  /** A place lies in the first n blocks when its block does. */
  lemma {:induction false} BlkBelow(p: nat, n: nat)
    ensures Blk(p) < n <==> p < n * BLOCK
    ensures p == Blk(p) * BLOCK + Off(p)
  {
  }

  /** The flat file with one block replaced, or added at the end. */
  ghost function Overlay(f: seq<Rune>, b: nat, block: seq<Rune>): (g: seq<Rune>)
    requires |block| == BLOCK && b * BLOCK <= |f| && |f| % BLOCK == 0
    ensures |g| == if b * BLOCK == |f| then |f| + BLOCK else |f|
    ensures g[..b * BLOCK] == f[..b * BLOCK]
  {
    if b * BLOCK == |f| then f + block else f[..b * BLOCK] + block + f[(b + 1) * BLOCK..]
  }

  lemma {:induction false} OverlayAt(f: seq<Rune>, b: nat, block: seq<Rune>, p: nat)
    requires |block| == BLOCK && b * BLOCK <= |f| && |f| % BLOCK == 0 && p < |Overlay(f, b, block)|
    ensures Overlay(f, b, block)[p] == if Blk(p) == b then block[Off(p)] else if p < |f| then f[p] else 0
    ensures Blk(p) != b ==> p < |f|
  {
    BlkBelow(p, b);
    BlkBelow(p, b + 1);
  }

  class TempFile {
    const ibuff: array<Rune>
    const obuff: array<Rune>
    var iblock: int
    var oblock: int
    var ichanged: bool
    var nleft: nat
    var disk: map<int, seq<Rune>>   // the blocks that have been written
    var tline: nat                  // the token of the next line to be stored
    var linebp: Option<seq<Rune>>   // the rest of a line split by a newline
    ghost var top: nat              // the number of blocks ever started
    ghost var flat: seq<Rune>       // what the blocks and buffers stand for

    /** init. */
    constructor ()
      ensures Valid() && Ready() && tline == 2 && flat == []
      ensures fresh(ibuff) && fresh(obuff)
    {
      ibuff := new Rune[BLOCK];
      obuff := new Rune[BLOCK];
      iblock, oblock, ichanged, nleft := -1, -1, false, 0;
      disk, tline, linebp, top, flat := map[], 2, None, 0, [];
    }

    /** The block a place is read from: the input buffer, the output buffer, or the file. */
    ghost predicate Shows(p: nat)
      requires ibuff.Length == obuff.Length == BLOCK && p < |flat|
      reads this`flat, this`iblock, this`oblock, this`disk, ibuff, obuff
    {
      flat[p] == if Blk(p) == iblock then ibuff[Off(p)]
                 else if Blk(p) == oblock then obuff[Off(p)]
                 else if Blk(p) in disk && |disk[Blk(p)]| == BLOCK then disk[Blk(p)][Off(p)]
                 else 0
    }

    ghost predicate Valid()
      reads this`iblock, this`oblock, this`ichanged, this`disk, this`tline, this`top, this`flat, ibuff, obuff
    {
      && ibuff.Length == obuff.Length == BLOCK && ibuff != obuff
      && -1 <= iblock < top && -1 <= oblock < top <= NBLK
      && (iblock == oblock ==> iblock == -1)
      && (forall b :: b in disk ==> |disk[b]| == BLOCK)
      && (forall b :: 0 <= b < top ==> b == oblock || b in disk)
      && (iblock >= 0 && !ichanged ==> ibuff[..] == disk[iblock])
      && |flat| == top * BLOCK && (forall p: nat :: p < |flat| ==> Shows(p))
      && Blk(tline) <= top && tline % 2 == 0
    }

    /** No block after the one the next line starts in has been started. */
    ghost predicate Ready()
      reads this`oblock, this`top, this`tline
    {
      oblock + 1 == top && Blk(tline) >= oblock
    }

    /** A buffer holds the block. */
    ghost predicate Cached(b: int, inI: bool)
      reads this`iblock, this`oblock
    {
      b == if inI then iblock else oblock
    }

    /** blkio for a block that is to be read: the input buffer's block is written back if it was touched. */
    method ReadIn(bno: nat)
      requires Valid() && bno < top && !Cached(bno, true) && !Cached(bno, false)
      modifies this`iblock, this`ichanged, this`disk, ibuff
      ensures Valid() && Cached(bno, true)
    {
      if ichanged && iblock >= 0 {
        disk := disk[iblock := ibuff[..]];
      }
      ichanged := false;
      iblock := bno;
      forall i | 0 <= i < BLOCK {
        ibuff[i] := disk[bno][i];
      }
      forall p: nat | p < |flat|
        ensures Shows(p)
      {
        assert old(Shows(p));
        BlkBelow(p, top);
      }
    }

    /** blkio for a block that is to be written: the output buffer's block is written back, none is read. */
    method WriteOut(bno: nat)
      requires Valid() && bno <= top && bno < NBLK && !Cached(bno, true) && !Cached(bno, false)
      modifies this`oblock, this`disk, this`top, this`flat
      ensures Valid() && Cached(bno, false)
      ensures top == if bno < old(top) then old(top) else old(top) + 1
      ensures flat == Overlay(old(flat), bno, obuff[..])
    {
      hide Overlay, Blk, Off;
      ghost var f, o := flat, obuff[..];
      if oblock >= 0 {
        disk := disk[oblock := obuff[..]];
      }
      oblock := bno;
      flat := Overlay(flat, bno, obuff[..]);
      if bno == top {
        top := top + 1;
      }
      forall p: nat | p < |flat|
        ensures Shows(p)
      {
        OverlayAt(f, bno, o, p);
        assert Blk(p) != bno ==> old(Shows(p));
      }
    }

    /** The flat file once the block of t is opened to be written. */
    ghost function Opened(t: nat): seq<Rune>
      requires Valid() && Blk(t) <= top
      reads this`iblock, this`oblock, this`ichanged, this`disk, this`tline, this`top, this`flat, ibuff, obuff
    {
      if Blk(t) == iblock || Blk(t) == oblock then flat else Overlay(flat, Blk(t), obuff[..])
    }

    /**
     * getblock: bring the block of a token into a buffer; None is the error that the file is full.
     * A block to be written that is in neither buffer replaces the output block without being read.
     */
    method GetBlock(atl: nat, write: bool) returns (inI: Option<bool>)
      requires Valid() && Blk(atl) <= top && (!write ==> Blk(atl) < top)
      modifies this`iblock, this`oblock, this`ichanged, this`nleft, this`disk, this`top, this`flat, ibuff
      ensures Valid()
      ensures inI.None? <==> Blk(atl) >= NBLK
      ensures inI.None? ==> top == old(top) && flat == old(flat) && oblock == old(oblock) && iblock == old(iblock)
      ensures inI.Some? ==>
        && Cached(Blk(atl), inI.value) && (inI.value && write ==> ichanged)
        && nleft == BLOCK - Off(atl)
        && top == (if Blk(atl) < old(top) then old(top) else old(top) + 1)
        && flat == (if write then old(Opened(atl)) else old(flat))
        && (write ==> iblock == old(iblock))
        && (write ==> oblock == if Blk(atl) == old(iblock) then old(oblock) else Blk(atl))
        && (!write ==> oblock == old(oblock))
    {
      var bno := Blk(atl);
      if bno >= NBLK {
        return None;
      }
      nleft := BLOCK - Off(atl);
      if bno == iblock {
        ichanged := true;   // ichanged |= iof, and neither OREAD nor OWRITE is zero
        return Some(true);
      }
      if bno == oblock {
        return Some(false);
      }
      if !write {
        ReadIn(bno);
        return Some(true);
      }
      WriteOut(bno);
      return Some(false);
    }

    /** Read a rune through a buffer that holds its block. */
    method Peek(p: nat, inI: bool) returns (c: Rune)
      requires Valid() && p < |flat| && Cached(Blk(p), inI)
      ensures c == flat[p]
    {
      assert Shows(p);
      c := if inI then ibuff[Off(p)] else obuff[Off(p)];
    }

    /** Store a rune through a buffer that holds its block. */
    method Poke(p: nat, inI: bool, c: Rune)
      requires Valid() && p < |flat| && Cached(Blk(p), inI) && (inI ==> ichanged)
      modifies ibuff, obuff, this`flat
      ensures Valid() && flat == old(flat)[p := c]
    {
      if inI {
        ibuff[Off(p)] := c;
      } else {
        obuff[Off(p)] := c;
      }
      flat := flat[p := c];
      forall q: nat | q < |flat|
        ensures Shows(q)
      {
        assert old(Shows(q));
        BlkBelow(q, top);
        BlkBelow(p, top);
      }
    }

    /** The next line goes to t. */
    method MoveOn(t: nat)
      requires Valid() && Blk(t) <= top && t % 2 == 0
      modifies this`tline
      ensures Valid() && tline == t
    {
      tline := t;
    }

    /** The line l, ended by a 0, is stored at t. */
    ghost predicate LineAt(t: nat, l: seq<Rune>)
      reads this`flat
    {
      LineIn(flat, t, l)
    }

    /** The oldest started blocks are all before the output block, which is that of p. */
    ghost predicate Last(p: nat)
      reads this`iblock, this`oblock, this`top
    {
      oblock + 1 == top && oblock == Blk(p) && iblock < top
    }

    /** The end of each turn of getline and putline: step to the next rune, and to the next block at the end of one. */
    method Turn(p: nat, write: bool, inI: bool, off: nat, nl: nat) returns (r: Option<bool>, off': nat, nl': nat)
      requires Valid() && p < |flat| && Cached(Blk(p), inI) && off == Off(p) && nl == BLOCK - off
      requires if write then inI ==> ichanged else p + 1 < |flat|
      modifies this`iblock, this`oblock, this`ichanged, this`nleft, this`disk, this`top, this`flat, ibuff
      ensures Valid()
      ensures r.None? <==> write && off == BLOCK - 1 && Blk(p + 1) >= NBLK
      ensures r.None? ==> flat == old(flat) && p + 1 == |flat| == NBLK * BLOCK && oblock == old(oblock)
      ensures |flat| >= p + 1 && flat[..p + 1] == old(flat)[..p + 1]
      ensures write ==> iblock == old(iblock)
      ensures !write ==> flat == old(flat) && top == old(top) && oblock == old(oblock)
      ensures r.Some? ==>
        && p + 1 < |flat| && Cached(Blk(p + 1), r.value) && off' == Off(p + 1) && nl' == BLOCK - off'
        && (write && r.value ==> ichanged)
        && (write && old(Last(p)) ==> Last(p + 1))
    {
      hide TempFile.Valid, TempFile.Opened, Overlay, Blk, Off;
      FlatLength();
      BlkNext(p);
      BlkBelow(p, top);
      BlkBelow(p + 1, top);
      off', nl' := off + 1, nl - 1;
      r := Some(inI);
      if nl' == 0 {
        if write {
          OpenedKeeps(p + 1);
        }
        r := GetBlock(p + 1, write);
        off', nl' := 0, nleft;
        FlatLength();
        BlkBelow(p + 1, top);
      }
    }

    /** getline: the runes from a place up to the next 0. */
    method GetLine(tl: nat, ghost l: seq<Rune>) returns (line: seq<Rune>)
      requires Valid() && LineAt(tl, l)
      modifies this`iblock, this`oblock, this`ichanged, this`nleft, this`disk, this`top, this`flat, ibuff
      ensures Valid() && flat == old(flat) && top == old(top) && oblock == old(oblock)
      ensures line == l
    {
      hide *;
      FlatLength();
      RuneAt(tl, l, 0);
      line := [];
      BlkBelow(tl, top);
      var r := GetBlock(tl, false);
      var off, nl := Off(tl), nleft;
      while true
        invariant Valid() && flat == old(flat) && top == old(top) && oblock == old(oblock)
        invariant |line| <= |l| && line == l[..|line|]
        invariant off == Off(tl + |line|) && nl == BLOCK - off && r.Some? && Cached(Blk(tl + |line|), r.value)
        decreases |l| - |line|
      {
        RuneAt(tl, l, |line|);
        var c := Peek(tl + |line|, r.value);
        if c == 0 {
          return;
        }
        line := line + [c];
        r, off, nl := Turn(tl + |line| - 1, false, r.value, off, nl);
      }
    }

    lemma {:induction false} RuneAt(t: nat, l: seq<Rune>, k: nat)
      requires LineAt(t, l) && k <= |l|
      ensures t + |l| < |flat|
      ensures flat[t + k] == if k < |l| then l[k] else 0
      ensures k < |l| ==> l[k] != 0
    {
      assert flat[t..t + |l| + 1][k] == (l + [0])[k];
      assert k < |l| ==> l[k] in l;
    }

    lemma {:induction false} FlatLength()
      requires Valid()
      ensures |flat| == top * BLOCK && Blk(tline) <= top <= NBLK && tline % 2 == 0
      ensures Ready() ==> iblock < oblock || iblock == -1
    {
    }

    /**
     * putline: store the line buffer up to its first newline at tline and return its token; None is the
     * error that the file is full. What precedes the token is as in the file opened there.
     */
    method PutLine(linebuf: seq<Rune>) returns (tok: Option<nat>)
      requires Valid() && |linebuf| < LBSIZE && 0 !in linebuf
      modifies this, ibuff, obuff
      ensures Valid()
      ensures tok.None? <==> Blk(old(tline) + |UpToNewline(linebuf)|) >= NBLK
      ensures tok.None? ==> tline == old(tline) && linebp == old(linebp)
      ensures tok.Some? ==>
        && tok.value == old(tline) && tline == old(tline) + Advance(|UpToNewline(linebuf)| + 1)
        && LineAt(old(tline), UpToNewline(linebuf))
        && linebp == if UpToNewline(linebuf) == linebuf then old(linebp)
                     else Some(linebuf[|UpToNewline(linebuf)| + 1..])
      ensures if Blk(old(tline)) >= NBLK then flat == old(flat)
              else SameBefore(flat, old(Opened(tline)), old(tline))
      ensures old(Ready()) && tok.Some? ==> Ready()
      ensures iblock == old(iblock)
      ensures tok.None? && Blk(tline) < NBLK ==>
        |flat| == NBLK * BLOCK && StoredToEnd(flat, tline, linebuf) && (old(Ready()) ==> Last(|flat| - 1))
      ensures tok.None? && Blk(tline) >= NBLK - 1 && old(Ready()) ==> Ready()
    {
      hide *;
      FlatLength();
      ghost var w := UpToNewline(linebuf);
      var t0 := tline;
      ghost var base := Opened(t0);
      BlkOrder(t0, t0 + |w|);
      var r := StartLine();
      if r == None {
        StillReady();
        return None;
      }
      WrittenStart(flat, base, t0, linebuf);
      var lp;
      r, lp := StoreRunes(linebuf, r.value, base);
      if r == None {
        StillReady();
        return None;
      }
      StoringParts(linebuf, base, lp, r.value);
      if lp < |linebuf| {
        WrittenPoke(flat, base, t0, linebuf, lp, 0);
        Poke(t0 + lp, r.value, 0);
        linebp := Some(linebuf[lp + 1..]);
      }
      WrittenDone(flat, base, t0, linebuf, w);
      FinishLine(t0, w, lp + 1);
      tok := Some(t0);
    }

    /** A put that failed in the last block, or before it opened any, leaves the buffers ready for the next. */
    twostate lemma StillReady()
      requires tline == old(tline)
      ensures old(Ready()) && top == old(top) && oblock == old(oblock) ==> Ready()
      ensures |flat| == NBLK * BLOCK && Last(|flat| - 1) && Blk(tline) >= NBLK - 1 ==> Ready()
    {
    }

    /** The first n runes of a line buffer are stored at tline, and a buffer holds the place of the next. */
    ghost predicate Storing(linebuf: seq<Rune>, base: seq<Rune>, n: nat, inI: bool)
      reads this`iblock, this`oblock, this`ichanged, this`disk, this`tline, this`top, this`flat, ibuff, obuff
    {
      && Valid() && n <= |UpToNewline(linebuf)| && tline + n < |flat|
      && Cached(Blk(tline + n), inI) && (inI ==> ichanged) && Written(flat, base, tline, linebuf, n)
    }

    lemma {:induction false} StoringParts(linebuf: seq<Rune>, base: seq<Rune>, n: nat, inI: bool)
      requires Storing(linebuf, base, n, inI)
      ensures Valid() && tline + n < |flat| && Cached(Blk(tline + n), inI) && (inI ==> ichanged)
      ensures Written(flat, base, tline, linebuf, n)
    {
    }

    /** putline's loop: runes are stored up to the first newline, or the 0 at the end. */
    method StoreRunes(linebuf: seq<Rune>, inI: bool, ghost base: seq<Rune>) returns (r: Option<bool>, lp: nat)
      requires Valid() && |linebuf| < LBSIZE && 0 !in linebuf
      requires tline < |flat| && Cached(Blk(tline), inI) && (inI ==> ichanged) && nleft == BLOCK - Off(tline)
      requires Written(flat, base, tline, linebuf, 0)
      modifies this`iblock, this`oblock, this`ichanged, this`nleft, this`disk, this`top, this`flat, ibuff, obuff
      ensures Valid() && lp <= |UpToNewline(linebuf)|
      ensures r.None? <==> Blk(tline + |UpToNewline(linebuf)|) >= NBLK
      ensures r.None? ==> |flat| == NBLK * BLOCK
      ensures iblock == old(iblock)
      ensures r.None? ==> SameBefore(flat, base, tline) && StoredToEnd(flat, tline, linebuf) && (old(Last(tline)) ==> Last(|flat| - 1))
      ensures r.Some? ==>
        && lp == |UpToNewline(linebuf)| && Storing(linebuf, base, lp, r.value)
        && flat[tline + lp] == (if lp < |linebuf| then NEWLINE else 0)
        && (old(Last(tline)) ==> Last(tline + lp))
    {
      hide TempFile.Valid, Blk, Off, TempFile.Cached, Overlay, TempFile.Last, Written, SameBefore, StoredToEnd, UpToNewline;
      ghost var w := UpToNewline(linebuf);
      var off, nl := Off(tline), nleft;
      r, lp := Some(inI), 0;
      while true
        invariant r.Some? && Storing(linebuf, base, lp, r.value)
        invariant off == Off(tline + lp) && nl == BLOCK - off
        invariant iblock == old(iblock) && (old(Last(tline)) ==> Last(tline + lp))
        decreases |w| - lp
      {
        var c := if lp < |linebuf| then linebuf[lp] else 0;
        WrittenPoke(flat, base, tline, linebuf, lp, c);
        Poke(tline + lp, r.value, c);
        if c == 0 || c == NEWLINE {
          StoredAll(tline + lp);
          return;
        }
        r, off, nl := NextRune(linebuf, base, lp, r.value, off, nl);
        lp := lp + 1;
        if r == None {
          return;
        }
      }
    }

    /** A place in the file is in one of its blocks. */
    lemma {:induction false} StoredAll(p: nat)
      requires Valid() && p < |flat|
      ensures Blk(p) < NBLK
    {
      BlkBelow(p, NBLK);
    }

    /** The turn after a rune that does not end the line. */
    method NextRune(linebuf: seq<Rune>, ghost base: seq<Rune>, n: nat, inI: bool, off: nat, nl: nat)
      returns (r: Option<bool>, off': nat, nl': nat)
      requires Storing(linebuf, base, n, inI) && n < |UpToNewline(linebuf)| && flat[tline + n] == linebuf[n]
      requires off == Off(tline + n) && nl == BLOCK - off
      modifies this`iblock, this`oblock, this`ichanged, this`nleft, this`disk, this`top, this`flat, ibuff
      ensures Valid() && iblock == old(iblock)
      ensures r.None? ==>
        && |flat| == NBLK * BLOCK && SameBefore(flat, base, tline) && StoredToEnd(flat, tline, linebuf)
        && (old(Last(tline + n)) ==> Last(|flat| - 1)) && Blk(tline + |UpToNewline(linebuf)|) >= NBLK
      ensures r.Some? ==>
        && Storing(linebuf, base, n + 1, r.value) && off' == Off(tline + n + 1) && nl' == BLOCK - off'
        && (old(Last(tline + n)) ==> Last(tline + n + 1))
    {
      hide TempFile.Valid, Blk, Off, TempFile.Cached, Overlay, Written, SameBefore, StoredToEnd, UpToNewline;
      ghost var f := flat;
      FlatLength();
      BlkOrder(tline + n + 1, tline + |UpToNewline(linebuf)|);
      r, off', nl' := Turn(tline + n, true, inI, off, nl);
      FlatLength();
      WrittenTurn(flat, f, base, tline, linebuf, n);
    }

    /** The first block of a line is opened. */
    method StartLine() returns (r: Option<bool>)
      requires Valid()
      modifies this`iblock, this`oblock, this`ichanged, this`nleft, this`disk, this`top, this`flat, ibuff
      ensures Valid()
      ensures r.None? <==> Blk(tline) >= NBLK
      ensures r.None? ==> flat == old(flat) && top == old(top) && oblock == old(oblock)
      ensures r.Some? ==>
        && tline < |flat| && flat == old(Opened(tline)) && nleft == BLOCK - Off(tline)
        && Cached(Blk(tline), r.value) && (r.value ==> ichanged)
        && (old(Ready()) ==> Last(tline))
      ensures iblock == old(iblock)
    {
      FlatLength();
      BlkBelow(tline, top + 1);
      r := GetBlock(tline, true);
      FlatLength();
      BlkBelow(tline, top);
    }

    /** The place of the next line is moved past the line just stored. */
    method FinishLine(t: nat, ghost w: seq<Rune>, n: nat)
      requires Valid() && t == tline && n == |w| + 1 <= LBSIZE && t + |w| < |flat| && 0 !in w
      requires flat[t + |w|] == 0 && Stored(flat, t, w)
      modifies this`tline
      ensures Valid() && tline == t + Advance(n) && LineAt(t, w)
      ensures Last(t + |w|) ==> Ready()
    {
      FlatLength();
      AdvanceBounds(n);
      BlkNear(t + |w|, t + Advance(n), top);
      MoveOn(t + Advance(n));
      assert flat[t..t + |w| + 1] == w + [0];
    }

    /** Every token of m names its line, and all of them lie before the place of the next line. */
    ghost predicate Holds(m: map<nat, seq<Rune>>)
      reads this`flat, this`tline
    {
      forall t :: t in m ==> LineAt(t, m[t]) && t + |m[t]| < tline
    }

    /** What opening the block of the next line does not lose: that block is buffered, or new, or the same. */
    ghost predicate Safe()
      requires Valid() && Blk(tline) < NBLK
      reads this`iblock, this`oblock, this`ichanged, this`disk, this`tline, this`top, this`flat, ibuff, obuff
    {
      || Blk(tline) == iblock || Blk(tline) == oblock || Blk(tline) == top
      || obuff[..Off(tline)] == flat[tline - Off(tline)..tline]
    }

    /** Opening the block of the next line keeps every rune stored before that line exactly when it is safe. */
    lemma {:induction false} OpenedExactly()
      requires Valid() && Blk(tline) < NBLK
      ensures Safe() <==> Kept(flat, Opened(tline), tline)
      ensures Ready() ==> Safe()
    {
    }

    /**
     * putline keeps what is stored: afterwards every earlier token still names its line and the new token
     * names the new one, provided the block of the next line is safe to open. It always is until a put has
     * failed because the file is full.
     */
    method Put(linebuf: seq<Rune>, ghost m: map<nat, seq<Rune>>) returns (tok: Option<nat>)
      requires Valid() && |linebuf| < LBSIZE && 0 !in linebuf
      requires Holds(m) && (Blk(tline) < NBLK ==> Safe())
      modifies this, ibuff, obuff
      ensures Valid()
      ensures tok.None? <==> Blk(old(tline) + |UpToNewline(linebuf)|) >= NBLK
      ensures tok.None? ==> Holds(m) && tline == old(tline) && (old(Ready()) && Blk(tline) >= NBLK - 1 ==> Ready())
      ensures tok.Some? ==>
        && tok.value == old(tline) && tok.value !in m && Holds(m[tok.value := UpToNewline(linebuf)])
        && tline == old(tline) + Advance(|UpToNewline(linebuf)| + 1)
        && (old(Ready()) ==> Ready())
      ensures iblock == old(iblock)
    {
      hide UpToNewline, TempFile.Valid, TempFile.Safe, TempFile.Opened, LineIn, SameBefore, StoredToEnd, TempFile.Last, Kept, Blk;
      FlatLength();
      if Blk(tline) < NBLK {
        OpenedExactly();
      }
      ghost var f, t, w := flat, tline, UpToNewline(linebuf);
      ghost var base := if Blk(t) < NBLK then Opened(t) else f;
      tok := PutLine(linebuf);
      if Blk(t) < NBLK {
        LinesStay(m, f, base, flat, t);
      }
      AdvanceCovers(|w|);
    }

    /** Opening a block leaves what precedes it alone. */
    lemma {:induction false} OpenedKeeps(t: nat)
      requires Valid() && Blk(t) <= top && Off(t) == 0
      ensures |Opened(t)| >= t && |flat| >= t && Opened(t)[..t] == flat[..t]
    {
      BlkBelow(t, top);
    }
  }

  lemma {:induction false} BlkOrder(p: nat, q: nat)
    requires p <= q
    ensures Blk(p) <= Blk(q)
  {
  }

  lemma {:induction false} BlkNear(p: nat, q: nat, n: nat)
    requires p <= q <= p + 4 && p < n * BLOCK
    ensures Blk(p) <= Blk(q) <= n
  {
  }

  /** The line l, ended by a 0, is at t in a flat file. */
  ghost predicate LineIn(f: seq<Rune>, t: nat, l: seq<Rune>) {
    t + |l| < |f| && 0 !in l && f[t..t + |l| + 1] == l + [0]
  }

  /** What f has before t is in g as well. */
  ghost predicate Kept(f: seq<Rune>, g: seq<Rune>, t: nat) {
    var n := if |f| < t then |f| else t;
    n <= |g| && g[..n] == f[..n]
  }

  /** A line that ends before t is in every file that keeps what is before t. */
  lemma {:induction false} LineStays(f: seq<Rune>, base: seq<Rune>, g: seq<Rune>, t: nat, p: nat, l: seq<Rune>)
    requires Kept(f, base, t) && SameBefore(g, base, t) && LineIn(f, p, l) && p + |l| < t
    ensures LineIn(g, p, l)
  {
    var n := if |f| < t then |f| else t;
    assert g[..n] == g[..t][..n] == base[..t][..n] == base[..n] == f[..n];
    assert g[p..p + |l| + 1] == g[..n][p..p + |l| + 1] == f[..n][p..p + |l| + 1];
  }

  lemma {:induction false} LinesStay(m: map<nat, seq<Rune>>, f: seq<Rune>, base: seq<Rune>, g: seq<Rune>, t: nat)
    requires Kept(f, base, t) && SameBefore(g, base, t)
    requires forall p :: p in m ==> LineIn(f, p, m[p]) && p + |m[p]| < t
    ensures forall p :: p in m ==> LineIn(g, p, m[p])
  {
    forall p | p in m
      ensures LineIn(g, p, m[p])
    {
      LineStays(f, base, g, t, p, m[p]);
    }
  }

  /** The place of the next line lies past the line just stored. */
  lemma {:induction false} AdvanceCovers(n: nat)
    requires n < LBSIZE
    ensures Advance(n + 1) > n && Advance(n + 1) % 2 == 0
  {
  }

  /**
   * A token read with its mark bit set names the place one rune further on, for the block arithmetic keeps
   * bit 0: what is read is the line without its first rune. Only an empty line followed by a 0 is read right.
   */
  lemma {:induction false} MarkedTokenSkipsARune(f: seq<Rune>, t: nat, l: seq<Rune>)
    requires LineIn(f, t, l)
    ensures l != [] ==> LineIn(f, t + 1, l[1..])
    ensures LineIn(f, t + 1, l) <==> l == [] && t + 1 < |f| && f[t + 1] == 0
  {
    LineEnd(f, t, l);
    if l != [] {
      assert f[t + 1..t + |l| + 1] == f[t..t + |l| + 1][1..] == (l + [0])[1..] == l[1..] + [0];
      LastRune(f, t + 1, l);
    } else if t + 1 < |f| {
      assert f[t + 1..t + 2] == [f[t + 1]];
    }
  }

  lemma {:induction false} LastRune(f: seq<Rune>, t: nat, l: seq<Rune>)
    ensures LineIn(f, t, l) && l != [] ==> t + |l| <= |f| && f[t + |l| - 1] != 0
  {
    if LineIn(f, t, l) && l != [] {
      assert f[t + |l| - 1] == f[t..t + |l| + 1][|l| - 1] == (l + [0])[|l| - 1];
      assert l[|l| - 1] in l;
    }
  }

  /** Two files agree on what precedes t. */
  ghost predicate SameBefore(f: seq<Rune>, g: seq<Rune>, t: nat) {
    t < |f| && t < |g| && f[..t] == g[..t]
  }

  /** The runes of w are stored at t. */
  ghost predicate Stored(f: seq<Rune>, t: nat, w: seq<Rune>) {
    t + |w| < |f| && forall k :: 0 <= k < |w| ==> f[t + k] == w[k]
  }

  /** The runes of buf are stored at t as far as the file reaches. */
  ghost predicate StoredToEnd(f: seq<Rune>, t: nat, buf: seq<Rune>) {
    t < |f| <= t + |buf| && f[t..] == buf[..|f| - t]
  }

  /** The first n runes of buf are stored at t, and what precedes them is as in base. */
  ghost predicate Written(f: seq<Rune>, base: seq<Rune>, t: nat, buf: seq<Rune>, n: nat) {
    && n <= |buf| && t + n < |f| && t < |base|
    && f[..t] == base[..t] && f[t..t + n] == buf[..n]
  }

  lemma {:induction false} WrittenStart(f: seq<Rune>, base: seq<Rune>, t: nat, buf: seq<Rune>)
    requires t < |f| && f == base
    ensures Written(f, base, t, buf, 0)
  {
  }

  lemma {:induction false} WrittenPoke(f: seq<Rune>, base: seq<Rune>, t: nat, buf: seq<Rune>, n: nat, c: Rune)
    requires Written(f, base, t, buf, n)
    ensures Written(f[t + n := c], base, t, buf, n) && f[t + n := c][t + n] == c
  {
  }

  lemma {:induction false} WrittenTurn(g: seq<Rune>, f: seq<Rune>, base: seq<Rune>, t: nat, buf: seq<Rune>, n: nat)
    requires Written(f, base, t, buf, n) && n < |buf| && f[t + n] == buf[n]
    requires |g| >= t + n + 1 && g[..t + n + 1] == f[..t + n + 1]
    ensures |g| > t + n + 1 ==> Written(g, base, t, buf, n + 1)
    ensures |g| == t + n + 1 ==> StoredToEnd(g, t, buf)
    ensures SameBefore(g, base, t)
  {
    assert g[..t] == g[..t + n + 1][..t] == f[..t + n + 1][..t] == f[..t];
    assert g[t..t + n + 1] == g[..t + n + 1][t..] == f[..t + n + 1][t..] == f[t..t + n] + [f[t + n]];
    assert buf[..n + 1] == buf[..n] + [buf[n]];
  }

  lemma {:induction false} WrittenDone(f: seq<Rune>, base: seq<Rune>, t: nat, buf: seq<Rune>, w: seq<Rune>)
    requires |w| <= |buf| && w == buf[..|w|] && Written(f, base, t, buf, |w|)
    ensures SameBefore(f, base, t) && Stored(f, t, w)
  {
    forall k | 0 <= k < |w|
      ensures f[t + k] == w[k]
    {
      assert f[t..t + |w|][k] == buf[..|w|][k];
    }
  }

  /** A request: store the line buffer, or read back the line of an earlier put. */
  datatype Op = Put(linebuf: seq<Rune>) | Get(k: nat)

  /** The place of the line after n stored runes-with-end, counted as putline counts it. */
  ghost function Place(lines: seq<seq<Rune>>): nat {
    if lines == [] then 2 else Place(lines[..|lines| - 1]) + Advance(|lines[|lines| - 1]| + 1)
  }

  ghost predicate Fits(lines: seq<seq<Rune>>, l: seq<Rune>) {
    Blk(Place(lines) + |l|) < NBLK
  }

  /**
   * The lines stored, and whether a put has failed that left blocks between its place and the end of the file:
   * then the next put may lose lines.
   */
  datatype Listing = Listing(lines: seq<seq<Rune>>, torn: bool)

  /** A put: a line that does not fit is refused and leaves the list as it is. */
  ghost function Next(c: Listing, buf: seq<Rune>): Listing {
    if Fits(c.lines, UpToNewline(buf)) then Listing(c.lines + [UpToNewline(buf)], false)
    else Listing(c.lines, Blk(Place(c.lines)) < NBLK - 1)
  }

  /** The requests are ones ed makes: only tokens it was given are read. */
  ghost predicate Sensible(ops: seq<Op>, c: Listing) {
    ops != [] ==>
      match ops[0]
      case Put(buf) => |buf| < LBSIZE && 0 !in buf && Sensible(ops[1..], Next(c, buf))
      case Get(k) => k < |c.lines| && Sensible(ops[1..], c)
  }

  /** What a request is answered: the line is stored, the file is full, or the line read. */
  datatype Answer = Done | Full | Line(line: seq<Rune>)

  /** What a flat list of lines answers, up to a put after a failure that may lose lines. */
  ghost function Answers(ops: seq<Op>, c: Listing): seq<Answer>
    requires Sensible(ops, c)
  {
    if ops == [] || (ops[0].Put? && c.torn) then [] else
    match ops[0]
    case Put(buf) => [if Fits(c.lines, UpToNewline(buf)) then Done else Full] + Answers(ops[1..], Next(c, buf))
    case Get(k) => [Line(c.lines[k])] + Answers(ops[1..], c)
  }

  lemma {:induction false} PlaceNext(lines: seq<seq<Rune>>, l: seq<Rune>)
    ensures Place(lines + [l]) == Place(lines) + Advance(|l| + 1)
  {
    assert (lines + [l])[..|lines|] == lines;
  }

  /** The tokens stand for the lines. */
  ghost predicate Names(toks: seq<nat>, lines: seq<seq<Rune>>, m: map<nat, seq<Rune>>) {
    |toks| == |lines| && forall k :: 0 <= k < |toks| ==> toks[k] in m && m[toks[k]] == lines[k]
  }

  lemma {:induction false} NamesNext(toks: seq<nat>, lines: seq<seq<Rune>>, m: map<nat, seq<Rune>>, t: nat, l: seq<Rune>)
    requires Names(toks, lines, m) && t !in m
    ensures Names(toks + [t], lines + [l], m[t := l])
  {
  }

  /** The file stands for the list, and the tokens for its lines. */
  ghost predicate Serves(f: TempFile, toks: seq<nat>, c: Listing, m: map<nat, seq<Rune>>)
    reads f, f.ibuff, f.obuff
  {
    f.Valid() && f.Holds(m) && Names(toks, c.lines, m) && (!c.torn ==> f.Ready()) && f.tline == Place(c.lines)
  }

  method ServePut(f: TempFile, buf: seq<Rune>, toks: seq<nat>, ghost c: Listing, ghost m: map<nat, seq<Rune>>)
    returns (a: Answer, toks': seq<nat>, torn: bool, ghost m': map<nat, seq<Rune>>)
    requires Serves(f, toks, c, m) && !c.torn && |buf| < LBSIZE && 0 !in buf
    modifies f, f.ibuff, f.obuff
    ensures Serves(f, toks', Next(c, buf), m') && torn == Next(c, buf).torn
    ensures a == if Fits(c.lines, UpToNewline(buf)) then Done else Full
  {
    hide TempFile.Valid, TempFile.Safe, TempFile.Holds, TempFile.Opened, TempFile.Ready, Names, UpToNewline, Advance, Place, Blk, Next;
    ghost var w := UpToNewline(buf);
    if Blk(f.tline) < NBLK {
      f.OpenedExactly();
    }
    var tok := f.Put(buf, m);
    NextIs(c, buf);
    PlaceNext(c.lines, w);
    if tok == None {
      a, toks', torn, m' := Full, toks, Blk(f.tline) < NBLK - 1, m;
    } else {
      NamesNext(toks, c.lines, m, tok.value, w);
      a, toks', torn, m' := Done, toks + [tok.value], false, m[tok.value := w];
    }
  }

  method ServeGet(f: TempFile, k: nat, toks: seq<nat>, ghost c: Listing, ghost m: map<nat, seq<Rune>>) returns (a: Answer)
    requires Serves(f, toks, c, m) && k < |c.lines|
    modifies f`iblock, f`oblock, f`ichanged, f`nleft, f`disk, f`top, f`flat, f.ibuff
    ensures Serves(f, toks, c, m) && a == Line(c.lines[k])
  {
    hide TempFile.Valid, Names, Place, LineIn, Blk;
    NamesAt(toks, c.lines, m, k);
    var line := f.GetLine(toks[k], c.lines[k]);
    a := Line(line);
  }

  /** Any interleaving of puts and gets on a new file gives exactly the answers of a flat list of lines. */
  method Session(ops: seq<Op>) returns (out: seq<Answer>)
    requires Sensible(ops, Listing([], false))
    ensures out == Answers(ops, Listing([], false))
  {
    hide Serves, Answers, Sensible, Next, Names, Place, Fits, UpToNewline, TempFile.Valid, TempFile.Holds, TempFile.Ready;
    var f := new TempFile();
    var toks: seq<nat> := [];
    var torn := false;
    ghost var c, m: map<nat, seq<Rune>> := Listing([], false), map[];
    ServesNone(f);
    out := [];
    var i := 0;
    assert ops[0..] == ops;
    while i < |ops|
      invariant 0 <= i <= |ops| && Serves(f, toks, c, m) && torn == c.torn
      invariant fresh(f) && fresh(f.ibuff) && fresh(f.obuff) && Sensible(ops[i..], c)
      invariant Answers(ops, Listing([], false)) == out + Answers(ops[i..], c)
      decreases |ops| - i
    {
      AnswersStep(ops, i, c);
      var a: Answer;
      match ops[i] {
        case Put(buf) =>
          if torn {
            return;
          }
          ghost var next := Next(c, buf);
          a, toks, torn, m := ServePut(f, buf, toks, c, m);
          c := next;
        case Get(k) =>
          a := ServeGet(f, k, toks, c, m);
      }
      out := out + [a];
      i := i + 1;
    }
    AnswersEnd(ops, c);
  }

  lemma {:induction false} ServesNone(f: TempFile)
    requires f.Valid() && f.Ready() && f.tline == 2
    ensures Serves(f, [], Listing([], false), map[])
  {
    NamesNone();
  }

  lemma {:induction false} AnswersStep(ops: seq<Op>, i: nat, c: Listing)
    requires i < |ops| && Sensible(ops[i..], c)
    ensures ops[i].Put? && c.torn ==> Answers(ops[i..], c) == []
    ensures ops[i].Put? && !c.torn ==>
      var buf := ops[i].linebuf;
      && |buf| < LBSIZE && 0 !in buf && Sensible(ops[i + 1..], Next(c, buf))
      && Answers(ops[i..], c) == [if Fits(c.lines, UpToNewline(buf)) then Done else Full] + Answers(ops[i + 1..], Next(c, buf))
    ensures ops[i].Get? ==>
      var k := ops[i].k;
      k < |c.lines| && Sensible(ops[i + 1..], c) && Answers(ops[i..], c) == [Line(c.lines[k])] + Answers(ops[i + 1..], c)
  {
    hide Fits, UpToNewline, Next;
    assert ops[i..][0] == ops[i] && ops[i..][1..] == ops[i + 1..];
  }

  lemma {:induction false} AnswersEnd(ops: seq<Op>, c: Listing)
    ensures Sensible(ops[|ops|..], c) && Answers(ops[|ops|..], c) == []
  {
  }

  lemma {:induction false} NextIs(c: Listing, buf: seq<Rune>)
    ensures Fits(c.lines, UpToNewline(buf)) ==> Next(c, buf) == Listing(c.lines + [UpToNewline(buf)], false)
    ensures !Fits(c.lines, UpToNewline(buf)) ==> Next(c, buf) == Listing(c.lines, Blk(Place(c.lines)) < NBLK - 1)
  {
  }

  lemma {:induction false} NamesNone()
    ensures Names([], [], map[]) && Place([]) == 2
  {
  }

  lemma {:induction false} NamesAt(toks: seq<nat>, lines: seq<seq<Rune>>, m: map<nat, seq<Rune>>, k: nat)
    requires Names(toks, lines, m) && k < |lines|
    ensures k < |toks| && toks[k] in m && m[toks[k]] == lines[k]
  {
  }

  /** A line of n runes 'a'. */
  function Long(n: nat): seq<Rune> {
    seq(n, _ => 97)
  }

  lemma {:induction false} LongPlain(n: nat)
    ensures |Long(n)| == n && 0 !in Long(n) && NEWLINE !in Long(n) && UpToNewline(Long(n)) == Long(n)
  {
    assert forall k :: 0 <= k < n ==> Long(n)[k] == 97;
  }

  lemma {:induction false} LineEnd(f: seq<Rune>, t: nat, l: seq<Rune>)
    ensures LineIn(f, t, l) ==> t + |l| < |f| && f[t + |l|] == 0
  {
    if LineIn(f, t, l) {
      assert f[t..t + |l| + 1][|l|] == (l + [0])[|l|];
    }
  }

  /** The last rune before t is no longer the 0 that ended a line there. */
  lemma {:induction false} LineLost(f: seq<Rune>, base: seq<Rune>, t: nat, n: nat)
    requires 4 <= t - n && |base| > t && base[t - 4] == 97 && SameBefore(f, base, t)
    ensures !LineIn(f, t - 4 - n, Long(n))
  {
    assert f[..t][t - 4] == base[..t][t - 4] == 97;
    LineEnd(f, t - 4 - n, Long(n));
  }

  /** Once 5576 lines of 1500 runes are stored one more does not fit: its first block is there, its last is not. */
  lemma {:induction false} LongPlaces(k: nat)
    requires k <= 5576
    ensures Advance(1501) == 1504 && (Blk(2 + 1504 * k + 1500) >= NBLK <==> k == 5576)
    ensures Blk(2 + 1504 * 5576) == NBLK - 2 && Off(2 + 1504 * 5576) == 770
  {
  }

  /** After a put fails for lack of room, a block that is on disk alone is not safe to open. */
  lemma {:induction false} NotSafeAfterFailure(f: TempFile, t: nat)
    requires f.Valid() && f.tline == t && Blk(t) == NBLK - 2 && Off(t) == 770
    requires f.iblock == -1 && |f.flat| == NBLK * BLOCK && f.Last(|f.flat| - 1)
    requires f.LineAt(t - 1504, Long(1500)) && StoredToEnd(f.flat, t, Long(1500))
    ensures |f.Opened(t)| > t && f.Opened(t)[t - 4] == 97 && !f.Safe()
  {
    BlkBelow(t, NBLK);
    var p := t - 4;
    var q := p + BLOCK;
    assert Blk(q) == NBLK - 1 && Off(q) == Off(p) == 766;
    assert f.flat[q] == f.flat[t..][q - t] == 97;
    assert f.Shows(q);
    assert f.obuff[..][Off(p)] == 97;
    LineEnd(f.flat, t - 1504, Long(1500));
    f.OpenedExactly();
    if f.Safe() {
      KeptRune(f.flat, f.Opened(t), t, p);
    }
  }

  lemma {:induction false} KeptRune(f: seq<Rune>, g: seq<Rune>, t: nat, p: nat)
    requires Kept(f, g, t) && p < t && p < |f|
    ensures p < |g| && g[p] == f[p]
  {
    var n := if |f| < t then |f| else t;
    assert g[..n][p] == f[..n][p];
  }

  /** A new file in which 5576 lines of 1500 runes have been put; the token of each names it. */
  method FullFile() returns (f: TempFile, ghost m: map<nat, seq<Rune>>)
    ensures fresh(f) && fresh(f.ibuff) && fresh(f.obuff)
    ensures f.Valid() && f.Ready() && f.iblock == -1 && f.tline == 2 + 1504 * 5576 && f.Holds(m)
    ensures forall k :: 0 <= k < 5576 ==> 2 + 1504 * k in m && m[2 + 1504 * k] == Long(1500)
  {
    hide TempFile.Valid, TempFile.Safe, TempFile.Opened, TempFile.Ready, LineIn, Blk, Off, UpToNewline, Long, Advance;
    f := new TempFile();
    m := map[];
    var a := Long(1500);
    LongPlain(1500);
    var k := 0;
    while k < 5576
      invariant 0 <= k <= 5576 && fresh(f) && fresh(f.ibuff) && fresh(f.obuff)
      invariant f.Valid() && f.Ready() && f.iblock == -1 && f.tline == 2 + 1504 * k && f.Holds(m)
      invariant forall i :: 0 <= i < k ==> 2 + 1504 * i in m && m[2 + 1504 * i] == a
    {
      LongPlaces(k);
      if Blk(f.tline) < NBLK {
        f.OpenedExactly();
      }
      var t := f.Put(a, m);
      m := m[t.value := a];
      k := k + 1;
    }
  }

  /**
   * Why the condition is needed: in such a file the last line reads back, one more such line fails, a short line
   * is then stored, and the last long line no longer reads back.
   */
  method FullFileLosesALine(f: TempFile, ghost m: map<nat, seq<Rune>>) returns (failed: Option<nat>, short: Option<nat>)
    requires f.Valid() && f.Ready() && f.iblock == -1 && f.tline == 2 + 1504 * 5576 && f.Holds(m)
    requires f.tline - 1504 in m && m[f.tline - 1504] == Long(1500)
    modifies f, f.ibuff, f.obuff
    ensures f.Valid() && failed == None && short == Some(old(f.tline))
    ensures old(f.LineAt(f.tline - 1504, Long(1500))) && !f.LineAt(old(f.tline) - 1504, Long(1500))
    ensures f.LineAt(old(f.tline), [98])
  {
    hide TempFile.Valid, TempFile.Safe, TempFile.Opened, TempFile.Ready, TempFile.Last, LineIn, SameBefore, StoredToEnd, Kept,
      Blk, Off, UpToNewline, Long, Advance;
    var a := Long(1500);
    LongPlain(1500);
    LongPlaces(5576);
    ghost var flat, t := f.flat, f.tline;
    f.FlatLength();
    f.OpenedExactly();
    ghost var base := f.Opened(t);
    failed := f.PutLine(a);
    LineStays(flat, base, f.flat, t, t - 1504, a);
    NotSafeAfterFailure(f, t);
    f.FlatLength();
    base := f.Opened(t);
    assert UpToNewline([98]) == [98] && Blk(t + 1) < NBLK by { ShortFits(t); }
    short := f.PutLine([98]);
    LineLost(f.flat, base, t, 1500);
  }

  lemma {:induction false} ShortFits(t: nat)
    requires Blk(t) == NBLK - 2
    ensures UpToNewline([98]) == [98] && Blk(t + 1) < NBLK
  {
    var r: seq<Rune> := [98];
    assert r[1..] == [];
  }
}
