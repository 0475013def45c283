// Tar archives: written and read through a buffer of blocks.

/** The block buffer of tar.c, its writer (addtoar and the end of replace) and its reader (refill to extract). */
module TarFile {
  import opened Basics
  import opened TarHeader

  const ZEROBLOCK := Repeat(0, TBLOCK)

  type Block = b: seq<Byte> | |b| == TBLOCK witness ZEROBLOCK

  /** BYTES2TBLKS */
  function Blocks(n: nat): nat {
    (n + TBLOCK - 1) / TBLOCK
  }

  /** Just as many blocks as hold n bytes. */
  lemma {:induction false} BlocksMeans(n: nat)
    ensures n <= 512 * Blocks(n) < n + 512
  {
  }

  function Join(bs: seq<Block>): (s: seq<Byte>)
    ensures |s| == TBLOCK * |bs|
  {
    if bs == [] then [] else Join(bs[..|bs| - 1]) + bs[|bs| - 1]
  }

  lemma {:induction false} JoinConcat(a: seq<Block>, b: seq<Block>)
    ensures Join(a + b) == Join(a) + Join(b)
  {
    if b == [] {
      assert a + b == a;
    } else {
      JoinConcat(a, b[..|b| - 1]);
      assert (a + b)[..|a + b| - 1] == a + b[..|b| - 1];
    }
  }

  lemma {:induction false} JoinOne(b: Block)
    ensures Join([b]) == b
  {
    var one: seq<Block> := [b];
    assert one[..0] == [];
  }

  /** The bytes of a file are those the blocks begin with; the rest of the last block may be anything. */
  ghost predicate HoldsData(bs: seq<Block>, data: seq<Byte>) {
    |bs| == Blocks(|data|) && |data| <= TBLOCK * |bs| && Join(bs)[..|data|] == data
  }

  /** The blocks begin with the header and the contents of a file. */
  ghost predicate First(bs: seq<Block>, f: File) {
    var n := Blocks(|f.data|);
    1 + n <= |bs| && Storable(f.name) && Header(bs[0], f) && HoldsData(bs[1..1 + n], f.data)
  }

  /** The blocks a file takes, with its header. */
  function Extent(f: File): nat {
    1 + Blocks(|f.data|)
  }

  /** The blocks are the headers and the contents of the files, in order. */
  ghost predicate Holds(bs: seq<Block>, fs: seq<File>) {
    if fs == [] then bs == []
    else First(bs, fs[0]) && Extent(fs[0]) <= |bs| && Holds(bs[Extent(fs[0])..], fs[1..])
  }

  lemma {:induction false} HoldsOne(h: Block, d: seq<Block>, f: File)
    requires Storable(f.name) && Header(h, f) && HoldsData(d, f.data)
    ensures Holds([h] + d, [f])
  {
    hide Header, Storable, Blocks;
    var bs := [h] + d;
    assert bs[1..1 + |d|] == d && bs[1 + |d|..] == [];
    assert First(bs, f);
    HoldsNone();
    HoldsCons(bs, [f]);
  }

  lemma {:induction false} HoldsNone()
    ensures Holds([], [])
  {
  }

  lemma {:induction false} HoldsCons(bs: seq<Block>, fs: seq<File>)
    requires fs != [] && First(bs, fs[0]) && Extent(fs[0]) <= |bs| && Holds(bs[Extent(fs[0])..], fs[1..])
    ensures Holds(bs, fs)
  {
    hide First, Extent;
  }

  lemma {:induction false} FirstMore(a: seq<Block>, b: seq<Block>, f: File)
    requires First(a, f)
    ensures First(a + b, f) && Extent(f) <= |a| && (a + b)[Extent(f)..] == a[Extent(f)..] + b
  {
    hide Header, HoldsData, Storable, Blocks;
    var n := Blocks(|f.data|);
    assert (a + b)[1..1 + n] == a[1..1 + n];
  }

  lemma {:induction false} HoldsConcat(a: seq<Block>, fs: seq<File>, b: seq<Block>, gs: seq<File>)
    requires Holds(a, fs) && Holds(b, gs)
    ensures Holds(a + b, fs + gs)
    decreases |fs|
  {
    hide First, Extent;
    if fs == [] {
      assert a + b == b && fs + gs == gs;
    } else {
      FirstMore(a, b, fs[0]);
      HoldsConcat(a[Extent(fs[0])..], fs[1..], b, gs);
      assert (fs + gs)[1..] == fs[1..] + gs && (fs + gs)[0] == fs[0];
      HoldsCons(a + b, fs + gs);
    }
  }

  function ZeroBlocks(n: nat): (z: seq<Block>)
    ensures |z| == n && forall k :: 0 <= k < n ==> z[k] == ZEROBLOCK
  {
    seq(n, _ => ZEROBLOCK)
  }

  /** An archive: the files, then a block of NULs. */
  ghost predicate Archived(bs: seq<Block>, fs: seq<File>, m: nat) {
    m < |bs| && Holds(bs[..m], fs) && bs[m] == ZEROBLOCK
  }

  /** The files whose names fit are stored, in order. */
  ghost function Stored(fs: seq<File>): seq<File> {
    if fs == [] then [] else
    Stored(fs[..|fs| - 1]) + if Storable(fs[|fs| - 1].name) then [fs[|fs| - 1]] else []
  }

  class Writer {
    const tpblk: array<Block>
    var curblk: nat
    var out: seq<Block>      // the archive, as far as it is written
    ghost var writes: nat    // how often the buffer was written

    ghost predicate Valid()
      reads this`curblk, this`out, this`writes
    {
      0 < tpblk.Length && curblk <= tpblk.Length && |out| == tpblk.Length * writes
    }

    /** What was put so far; a full buffer has been written. */
    ghost function Stream(): seq<Block>
      requires Valid()
      reads this`curblk, this`out, this`writes, tpblk
    {
      out + if curblk == tpblk.Length then [] else tpblk[..curblk]
    }

    constructor (nblock: nat)
      requires nblock > 0
      ensures Valid() && Stream() == [] && fresh(tpblk) && tpblk.Length == nblock
    {
      tpblk := new Block[nblock](_ => ZEROBLOCK);
      curblk, out, writes := nblock, [], 0;
    }

    /** getblke: the next slot of the buffer. */
    method GetBlk() returns (i: nat)
      requires Valid()
      modifies this`curblk
      ensures Valid() && i < tpblk.Length && curblk == i + 1
      ensures out + tpblk[..i] == old(Stream())
    {
      if curblk >= tpblk.Length {
        curblk := 0;
      }
      i := curblk;
      curblk := curblk + 1;
    }

    /** putlastblk: the rest of the buffer is cleared and the buffer written. */
    method PutLastBlk()
      requires Valid()
      modifies this`curblk, this`out, this`writes, tpblk
      ensures Valid() && curblk == tpblk.Length
      ensures out == old(out) + old(tpblk[..curblk]) + ZeroBlocks(tpblk.Length - old(curblk))
    {
      ghost var t, n := tpblk[..curblk], curblk;
      var i := curblk;
      while i < tpblk.Length
        invariant n <= i <= tpblk.Length && tpblk[..i] == t + ZeroBlocks(i - n)
        modifies tpblk
      {
        ghost var u := tpblk[..i];
        tpblk[i] := ZEROBLOCK;
        assert tpblk[..i + 1] == u + [ZEROBLOCK];
        assert ZeroBlocks(i + 1 - n) == ZeroBlocks(i - n) + [ZEROBLOCK];
        i := i + 1;
      }
      assert tpblk[..] == tpblk[..i];
      out := out + tpblk[..];
      curblk := tpblk.Length;
      writes := writes + 1;
    }

    /** putblk: a full buffer is written. */
    method PutBlk()
      requires Valid()
      modifies this`curblk, this`out, this`writes, tpblk
      ensures Valid() && Stream() == old(out + tpblk[..curblk])
    {
      if curblk >= tpblk.Length {
        PutLastBlk();
      }
    }

    /** The header of a file; one whose name does not fit is not stored, and its slot is given back. */
    method AddHeader(f: File) returns (ok: bool, ghost h: Block)
      requires Valid() && Fits(f)
      modifies this`curblk, this`out, this`writes, tpblk
      ensures Valid() && (ok <==> Storable(f.name))
      ensures if ok then Header(h, f) && Stream() == old(Stream()) + [h] else Stream() == old(Stream())
    {
      hide Header, Storable, Fits;
      ghost var s := Stream();
      h := ZEROBLOCK;
      var i := GetBlk();
      var hp := new Byte[TBLOCK](_ => 0);
      assert hp[..] == Repeat(0, TBLOCK);
      ok := MkHdr(hp, f);
      if !ok {
        curblk := curblk - 1;
        return;
      }
      h := hp[..];
      tpblk[i] := hp[..];
      assert tpblk[..i + 1] == tpblk[..i] + [h];
      assert out + tpblk[..i + 1] == s + [h];
      PutBlk();
    }

    /** A piece of a file is read into the buffer; what is past its end keeps what was there, or is cleared. */
    method Fill(i: nat, k: nat, part: seq<Byte>)
      requires i + k <= tpblk.Length && |part| <= TBLOCK * k && |part| > TBLOCK * (k - 1)
      modifies tpblk
      ensures Join(tpblk[i..i + k])[..|part|] == part
      ensures tpblk[..i] == old(tpblk[..i])
    {
      hide Join;
      var j := 0;
      JoinNone();
      assert tpblk[i..i] == [];
      while j < k
        invariant 0 <= j <= k && tpblk[..i] == old(tpblk[..i])
        invariant Join(tpblk[i..i + j])[..Done(part, j)] == part[..Done(part, j)]
      {
        var n := if TBLOCK * (j + 1) <= |part| then TBLOCK else |part| - TBLOCK * j;
        var piece := part[TBLOCK * j..TBLOCK * j + n];
        var rest := if |part| < TBLOCK then Repeat(0, TBLOCK - n) else tpblk[i + j][n..];
        ghost var t := tpblk[i..i + j];
        tpblk[i + j] := piece + rest;
        assert tpblk[i..i + j + 1] == t + [piece + rest];
        FillStep(part, j, t, piece, rest);
        j := j + 1;
      }
    }

    /** As many bytes as j blocks have room for. */
    ghost function Done(part: seq<Byte>, j: nat): (n: nat)
      ensures n <= |part| && n <= TBLOCK * j
    {
      if TBLOCK * j <= |part| then TBLOCK * j else |part|
    }

    lemma {:induction false} FillStep(part: seq<Byte>, j: nat, t: seq<Block>, piece: seq<Byte>, rest: seq<Byte>)
      requires |t| == j && TBLOCK * j <= |part| && |piece| + |rest| == TBLOCK
      requires TBLOCK * j + |piece| == Done(part, j + 1) && piece == part[TBLOCK * j..TBLOCK * j + |piece|]
      requires Join(t)[..Done(part, j)] == part[..Done(part, j)]
      ensures Join(t + [piece + rest])[..Done(part, j + 1)] == part[..Done(part, j + 1)]
    {
      hide Join;
      JoinConcat(t, [piece + rest]);
      JoinOne(piece + rest);
      assert Join(t) == part[..TBLOCK * j];
      assert (Join(t) + (piece + rest))[..TBLOCK * j + |piece|] == Join(t) + piece;
    }

    /** A piece of a file, of as many blocks as the buffer has room for. */
    method AddPiece(data: seq<Byte>, off: nat, blksleft: nat) returns (blksread: nat, n: nat, ghost e: seq<Block>)
      requires Valid() && off <= |data| && blksleft > 0
      requires TBLOCK * (blksleft - 1) < |data| - off <= TBLOCK * blksleft
      modifies this`curblk, this`out, this`writes, tpblk
      ensures Valid() && Stream() == old(Stream()) + e && 0 < blksread <= blksleft && |e| == blksread
      ensures n <= TBLOCK * blksread && off + n <= |data| && Join(e)[..n] == data[off..off + n]
      ensures if blksread < blksleft then n == TBLOCK * blksread else off + n == |data|
    {
      hide Join, Writer.Stream;
      ghost var s := Stream();
      var i := GetBlk();
      blksread := if tpblk.Length - i > blksleft then blksleft else tpblk.Length - i;
      n := if off + TBLOCK * blksread < |data| then TBLOCK * blksread else |data| - off;
      ghost var t := tpblk[..i];
      PieceSize(|data| - off, blksleft, blksread, n);
      Fill(i, blksread, data[off..off + n]);
      e := tpblk[i..i + blksread];
      curblk := curblk + blksread - 1;
      assert tpblk[..i + blksread] == t + e;
      assert out + (t + e) == s + e;
      PutBlk();
    }

    lemma {:induction false} PieceSize(left: nat, blksleft: nat, k: nat, n: nat)
      requires TBLOCK * (blksleft - 1) < left <= TBLOCK * blksleft && 0 < k <= blksleft
      requires n == if TBLOCK * k < left then TBLOCK * k else left
      ensures TBLOCK * (k - 1) < n <= TBLOCK * k
      ensures if k < blksleft then n == TBLOCK * k else n == left
    {
    }

    /** The contents of a file, as many blocks at a time as the buffer has room for. */
    method AddData(data: seq<Byte>) returns (ghost d: seq<Block>)
      requires Valid()
      modifies this`curblk, this`out, this`writes, tpblk
      ensures Valid() && HoldsData(d, data) && Stream() == old(Stream()) + d
    {
      hide Join, Writer.Stream;
      var blksleft, off := Blocks(|data|), 0;
      d := [];
      JoinNone();
      assert Stream() + [] == Stream();
      while blksleft > 0
        invariant Valid() && Stream() == old(Stream()) + d
        invariant 0 <= blksleft && |d| + blksleft == Blocks(|data|)
        invariant off <= |data| && off <= TBLOCK * |d|
        invariant if blksleft > 0 then off == TBLOCK * |d| else off == |data|
        invariant Join(d)[..off] == data[..off]
      {
        var blksread, n, e := AddPiece(data, off, blksleft);
        DataStep(d, e, off, n, data);
        assert old(Stream()) + d + e == old(Stream()) + (d + e);
        d := d + e;
        off := off + n;
        blksleft := blksleft - blksread;
      }
      assert data[..off] == data;
    }

    lemma {:induction false} DataStep(d: seq<Block>, e: seq<Block>, off: nat, n: nat, data: seq<Byte>)
      requires off == TBLOCK * |d| && off + n <= |data| && n <= TBLOCK * |e|
      requires Join(d)[..off] == data[..off] && Join(e)[..n] == data[off..off + n]
      ensures Join(d + e)[..off + n] == data[..off + n]
    {
      hide Join;
      JoinConcat(d, e);
      assert Join(d) == data[..off];
      assert (Join(d) + Join(e))[..off + n] == Join(d) + Join(e)[..n];
      assert data[..off + n] == data[..off] + data[off..off + n];
    }

    lemma {:induction false} JoinNone()
      ensures Join([]) == []
    {
    }

    /** addtoar, of a regular file. */
    method AddToAr(f: File) returns (ghost bs: seq<Block>)
      requires Valid() && Fits(f)
      modifies this`curblk, this`out, this`writes, tpblk
      ensures Valid() && Stream() == old(Stream()) + bs
      ensures Holds(bs, if Storable(f.name) then [f] else [])
    {
      hide Holds, Header, Storable, Fits, HoldsData, Writer.Stream;
      ghost var s := Stream();
      var ok, h := AddHeader(f);
      if !ok {
        bs := [];
        HoldsNone();
        assert s + [] == s;
        return;
      }
      ghost var d := AddData(f.data);
      bs := [h] + d;
      assert s + [h] + d == s + bs;
      HoldsOne(h, d, f);
    }

    /** The end of replace: two blocks of NULs, and the rest of the buffer. */
    method Finish() returns (ghost z: nat)
      requires Valid()
      modifies this`curblk, this`out, this`writes, tpblk
      ensures Valid() && z >= 2 && out == old(Stream()) + ZeroBlocks(z)
    {
      ghost var s := Stream();
      PutZero();
      var i := GetBlk();
      tpblk[i] := ZEROBLOCK;
      assert tpblk[..i + 1] == tpblk[..i] + [ZEROBLOCK];
      z := 2 + (tpblk.Length - curblk);
      ZeroTail(out, tpblk[..i], s, tpblk.Length - curblk);
      PutLastBlk();
    }

    method PutZero()
      requires Valid()
      modifies this`curblk, this`out, this`writes, tpblk
      ensures Valid() && Stream() == old(Stream()) + [ZEROBLOCK]
    {
      var i := GetBlk();
      tpblk[i] := ZEROBLOCK;
      assert tpblk[..i + 1] == tpblk[..i] + [ZEROBLOCK];
      assert out + (tpblk[..i] + [ZEROBLOCK]) == out + tpblk[..i] + [ZEROBLOCK];
      PutBlk();
    }

    lemma {:induction false} ZeroTail(o: seq<Block>, t: seq<Block>, s: seq<Block>, n: nat)
      requires o + t == s + [ZEROBLOCK]
      ensures o + (t + [ZEROBLOCK]) + ZeroBlocks(n) == s + ZeroBlocks(2 + n)
    {
      var z := ZeroBlocks(2 + n);
      assert z == [ZEROBLOCK] + [ZEROBLOCK] + ZeroBlocks(n);
      assert o + (t + [ZEROBLOCK]) == o + t + [ZEROBLOCK];
    }
  }

  /** From block m on there are only NULs, for at least two blocks. */
  ghost predicate Ended(bs: seq<Block>, m: nat) {
    m + 2 <= |bs| && bs[m..] == ZeroBlocks(|bs| - m)
  }

  /**
   * tar c: for any blocking, an archive of the files whose names fit, in order, with its end marked, of a whole
   * number of buffers.
   */
  method Create(fs: seq<File>, nblock: nat) returns (ar: seq<Block>)
    requires nblock > 0 && forall i :: 0 <= i < |fs| ==> Fits(fs[i])
    ensures exists m :: Archived(ar, Stored(fs), m) && Ended(ar, m)
    ensures exists q: nat :: |ar| == nblock * q
  {
    hide Holds, Fits, Storable, Writer.Stream;
    var w := new Writer(nblock);
    ghost var s: seq<Block> := [];
    var i := 0;
    HoldsNone();
    assert fs[..0] == [];
    while i < |fs|
      invariant 0 <= i <= |fs| && w.Valid() && fresh(w) && fresh(w.tpblk) && w.tpblk.Length == nblock
      invariant w.Stream() == s && Holds(s, Stored(fs[..i]))
    {
      ghost var bs := w.AddToAr(fs[i]);
      HoldsConcat(s, Stored(fs[..i]), bs, if Storable(fs[i].name) then [fs[i]] else []);
      assert fs[..i + 1][..i] == fs[..i];
      s := s + bs;
      i := i + 1;
    }
    assert fs[..i] == fs;
    ghost var z := w.Finish();
    ar := w.out;
    assert ar[..|s|] == s && ar[|s|..] == ZeroBlocks(z) && ar[|s|] == ZeroBlocks(z)[0];
    assert Archived(ar, Stored(fs), |s|) && Ended(ar, |s|);
    assert |ar| == nblock * w.writes;
  }

  // ----- reading -----

  /** strtoul, to base 8: leading blanks are skipped. */
  function Strtoul(s: seq<Byte>): nat {
    if s != [] && s[0] == SPACE then Strtoul(s[1..]) else Strtoull(s, 0)
  }

  const LF_LINK: Byte := 49
  const LF_SYMLINK1: Byte := 50
  const LF_SYMLINK2: Byte := 115
  const LF_DIR: Byte := 53

  /** isdir, of a header with a name. */
  predicate IsDir(b: Block) {
    || b[LINKFLAG] == LF_DIR
    || (Name(b) != [] && Name(b)[|Name(b)| - 1] == SLASH)
    || Strtoul(Field(b, MODE, 8)) / 0x1000 % 16 == 4
  }

  predicate IsLink(c: Byte) {
    c == LF_LINK || c == LF_SYMLINK1 || c == LF_SYMLINK2
  }

  /** arsize: directories and links have no contents in the archive. */
  function ArSize(b: Block): nat {
    if IsDir(b) || IsLink(b[LINKFLAG]) then 0 else HdrSize(b)
  }

  lemma {:induction false} StrtoulPadded(n: nat, k: nat, rest: seq<Byte>)
    requires rest == [] || !IsOctal(rest[0])
    ensures Strtoul(Repeat(SPACE, k) + (Oct(n) + rest)) == n
  {
    var t := Repeat(SPACE, k) + (Oct(n) + rest);
    if k == 0 {
      assert t == Oct(n) + rest;
      StrtoullConcat(Oct(n), rest, 0);
      StrtoullOct(n);
      assert IsOctal(t[0]);
    } else {
      StrtoulPadded(n, k - 1, rest);
      assert t[1..] == Repeat(SPACE, k - 1) + (Oct(n) + rest);
    }
  }

  /** The header of a stored file gives back its name and its size, and is not taken for the end or a directory. */
  lemma {:induction false} HeaderRead(b: Block, f: File)
    requires Storable(f.name) && Header(b, f) && Plain(f.name) && Fits(f)
    ensures !Eotar(b) && Checks(b) && Name(b) == ReadName(f.name)
    ensures ArSize(b) == HdrSize(b) == |f.data|
  {
    hide Eotar, Checks, HdrSize, Storable, ReadName, Strtoul, Oct, Padded, Plain, Name, HoldsName;
    NameRoundTrip(b, f.name);
    SizeRoundTrip(b, |f.data|);
    assert b[LINKFLAG] == Field(b, LINKFLAG, 1)[0] == 0;
    ModeRead(b, f);
    PlainEnd(f.name);
  }

  lemma {:induction false} PlainEnd(name: seq<Byte>)
    requires Plain(name)
    ensures name != [] && name[|name| - 1] != SLASH
  {
  }

  lemma {:induction false} ModeRead(b: Block, f: File)
    requires f.mode < 512 && Field(b, MODE, 8) == Strncpy(Padded(f.mode, 6) + [SPACE], 8)
    ensures Strtoul(Field(b, MODE, 8)) == f.mode
  {
    assert Pow8(3) == 512;
    OctFits(f.mode, 3);
    var k := 6 - |Oct(f.mode)|;
    assert Strncpy(Padded(f.mode, 6) + [SPACE], 8) == Repeat(SPACE, k) + (Oct(f.mode) + [SPACE, 0]);
    StrtoulPadded(f.mode, k, [SPACE, 0]);
  }

  /** What the blocks of the archive are, and NULs after its end. */
  function At(ar: seq<Block>, i: nat): Block {
    if i < |ar| then ar[i] else ZEROBLOCK
  }

  class Reader {
    const ar: seq<Block>
    const usefile: bool
    const fixednblock: bool
    const seekable: bool
    const tpblk: array<Block>
    var nblock: nat
    var pos: nat           // the place in the archive, in blocks like blkoff and nexthdr
    var blkoff: nat
    var nexthdr: nat
    var curblk: nat
    var done: bool
    var first: bool
    ghost var genuine: nat   // from this block on the buffer holds what the archive does

    /** The block getblk would give next. */
    function Here(): nat
      reads this`first, this`blkoff, this`curblk
    {
      if first then 0 else blkoff + curblk
    }

    ghost predicate Valid()
      reads this`nblock, this`pos, this`blkoff, this`nexthdr, this`curblk, this`done, this`first, this`genuine, tpblk
    {
      && 0 < nblock <= tpblk.Length && curblk <= nblock
      && (first ==> pos == 0 && curblk == nblock && !done && nexthdr == 0 && genuine == 0)
      && (!first && !done ==> pos == blkoff + nblock)
      && (done ==> !first && |ar| <= blkoff + nblock)
      && (!first ==> forall i :: curblk <= i < nblock && genuine <= blkoff + i ==> tpblk[i] == At(ar, blkoff + i))
    }

    constructor (ar: seq<Block>, nblock: nat, usefile: bool, fixednblock: bool, seekable: bool)
      requires nblock > 0
      ensures Valid() && Here() == 0 && nexthdr == 0 && genuine == 0 && this.ar == ar && fresh(tpblk)
    {
      this.ar, this.usefile, this.fixednblock, this.seekable := ar, usefile, fixednblock, seekable;
      this.nblock := nblock;
      tpblk := new Block[nblock](_ => ZEROBLOCK);
      pos, blkoff, nexthdr, curblk, done, first, genuine := 0, 0, 0, nblock, false, true, 0;
    }

    /**
     * refill: the buffer is read, at first perhaps with the blocking that the archive turns out to have. On a
     * seekable archive a buffer that ends before the next header is passed over if its data are not wanted.
     */
    method Refill(justhdr: bool)
      requires Valid() && curblk == nblock && Here() < |ar|
      requires justhdr ==> Here() < nexthdr
      modifies this`nblock, this`pos, this`blkoff, this`curblk, this`done, this`first, this`genuine, tpblk
      ensures Valid() && !first && curblk == 0 && Here() == old(Here())
      ensures if justhdr then genuine == old(Here()) || genuine == nexthdr else genuine == old(Here())
    {
      blkoff := pos;
      curblk := 0;
      if first && usefile && !fixednblock {
        if |ar| < nblock {
          nblock := |ar|;
        }
        ReadBlocks(nblock);
      } else if justhdr && seekable && nexthdr - blkoff >= nblock {
        pos := pos + nblock;
        genuine := nexthdr;
      } else {
        ReadBlocks(nblock);
      }
      first := false;
    }

    /** ereadn, and what is done about a partial buffer. */
    method ReadBlocks(n: nat)
      requires 0 < n == nblock <= tpblk.Length && curblk == 0 && pos == blkoff < |ar| && !done
      modifies this`pos, this`done, this`genuine, tpblk
      ensures genuine == blkoff && (done ==> |ar| <= blkoff + nblock) && (!done ==> pos == blkoff + nblock)
      ensures forall i :: 0 <= i < nblock ==> tpblk[i] == At(ar, blkoff + i)
    {
      var i := 0;
      while i < n
        invariant 0 <= i <= n && forall k :: 0 <= k < i ==> tpblk[k] == At(ar, blkoff + k)
        modifies tpblk
      {
        tpblk[i] := At(ar, blkoff + i);
        i := i + 1;
      }
      if |ar| - pos < n {
        done := true;
        pos := |ar|;
      } else {
        pos := pos + n;
      }
      genuine := blkoff;
    }

    /** getblkrd: the next block; the same as the archive's unless its buffer was passed over. */
    method GetBlkRd(justhdr: bool) returns (i: nat)
      requires Valid() && Here() < |ar| && genuine <= nexthdr && (justhdr ==> Here() < nexthdr)
      requires !justhdr ==> genuine <= Here() || Here() == nexthdr
      modifies this`nblock, this`pos, this`blkoff, this`curblk, this`done, this`first, this`genuine, tpblk
      ensures Valid() && !first && Here() == old(Here()) + 1
      ensures i + 1 == curblk && blkoff + i == old(Here())
      ensures genuine == old(genuine) || genuine == old(Here()) || (justhdr && genuine == nexthdr)
      ensures genuine <= blkoff + i ==> forall k :: i <= k < nblock ==> tpblk[k] == At(ar, blkoff + k)
    {
      if first || curblk >= nblock {
        Refill(justhdr);
      }
      i := curblk;
      curblk := curblk + 1;
    }

    /** eotar, the checksum test and arsize of readhdr: a header, or None at the end or for a bad checksum. */
    method ReadHdr() returns (hp: Option<Block>)
      requires Valid() && Here() == nexthdr < |ar| && genuine <= nexthdr
      modifies this`nblock, this`pos, this`blkoff, this`nexthdr, this`curblk, this`done, this`first, this`genuine, tpblk
      ensures Valid() && !first && Here() == old(nexthdr) + 1 && genuine <= old(nexthdr)
      ensures var b := ar[old(nexthdr)];
              if Eotar(b) || !Checks(b) then hp == None && nexthdr == old(nexthdr)
              else hp == Some(b) && nexthdr == old(nexthdr) + 1 + Blocks(ArSize(b))
    {
      hide Eotar, Checks, ArSize, Blocks;
      var i := GetBlkRd(false);
      var b := tpblk[i];
      if Eotar(b) || !Checks(b) {
        return None;
      }
      nexthdr := nexthdr + 1 + Blocks(ArSize(b));
      hp := Some(b);
    }

    /** gothowmany and putreadblks: as many of the blocks wanted as the buffer has. */
    method Take(i: nat, blksleft: nat) returns (blksread: nat)
      requires Valid() && !first && curblk == i + 1 <= nblock && blksleft > 0
      modifies this`curblk
      ensures Valid() && 0 < blksread <= blksleft && i + blksread == curblk <= nblock
    {
      blksread := if nblock - i > blksleft then blksleft else nblock - i;
      curblk := curblk + blksread - 1;
    }

    /** skip, and copyfromar with nowhere to copy to: the blocks of a member are passed over. */
    method Skip(n: nat)
      requires Valid() && !first && genuine <= nexthdr && Here() + n == nexthdr < |ar|
      modifies this`nblock, this`pos, this`blkoff, this`curblk, this`done, this`first, this`genuine, tpblk
      ensures Valid() && !first && Here() == nexthdr && genuine <= nexthdr
    {
      var blksleft := n;
      while blksleft > 0
        invariant 0 <= blksleft && Valid() && !first && genuine <= nexthdr && Here() + blksleft == nexthdr
      {
        var i := GetBlkRd(true);
        var blksread := Take(i, blksleft);
        blksleft := blksleft - blksread;
      }
    }

    /** copyfromar: the contents of a member, cut to its size. */
    method CopyFromAr(n: nat, bytes: nat) returns (data: seq<Byte>)
      requires Valid() && !first && genuine <= Here() && Here() + n == nexthdr < |ar| && bytes <= TBLOCK * n
      modifies this`nblock, this`pos, this`blkoff, this`curblk, this`done, this`first, this`genuine, tpblk
      ensures Valid() && !first && Here() == nexthdr && genuine <= nexthdr
      ensures data == Join(ar[old(Here())..old(Here()) + n])[..bytes]
    {
      hide Join, Reader.Valid, At;
      var blksleft := n;
      data := [];
      ghost var h := Here();
      JoinEmpty();
      assert ar[h..h] == [];
      while blksleft > 0
        invariant 0 <= blksleft <= n && Valid() && !first && genuine <= Here() && Here() + blksleft == nexthdr
        invariant |data| == (if bytes < TBLOCK * (n - blksleft) then bytes else TBLOCK * (n - blksleft))
        invariant data == Join(ar[h..h + n - blksleft])[..|data|]
      {
        ghost var at := Here();
        var i := GetBlkRd(false);
        var blksread := Take(i, blksleft);
        var wrbytes := TBLOCK * blksread;
        if wrbytes > bytes - |data| {
          wrbytes := bytes - |data|;
        }
        Genuine(i, blksread, at);
        CopyStep(data, ar[h..at], ar[at..at + blksread], wrbytes);
        assert ar[h..at] + ar[at..at + blksread] == ar[h..at + blksread];
        data := data + Join(tpblk[i..i + blksread])[..wrbytes];
        blksleft := blksleft - blksread;
      }
    }

    lemma {:induction false} Genuine(i: nat, k: nat, at: nat)
      requires i + k <= nblock <= tpblk.Length && at + k <= |ar| && at == blkoff + i
      requires forall x :: i <= x < nblock ==> tpblk[x] == At(ar, blkoff + x)
      ensures tpblk[i..i + k] == ar[at..at + k]
    {
    }
  }

  lemma {:induction false} JoinEmpty()
    ensures Join([]) == []
  {
  }

  lemma {:induction false} CopyStep(data: seq<Byte>, a: seq<Block>, b: seq<Block>, n: nat)
    requires |data| <= TBLOCK * |a| && data == Join(a)[..|data|] && n <= TBLOCK * |b|
    requires |data| < TBLOCK * |a| ==> n == 0
    ensures data + Join(b)[..n] == Join(a + b)[..|data| + n]
  {
    hide Join;
    JoinConcat(a, b);
  }

  /** A member as it was read: its name, and its contents if they were wanted. */
  datatype Entry = Entry(name: seq<Byte>, data: Option<seq<Byte>>)

  ghost function EntryOf(f: File, want: seq<Byte> -> bool): Entry {
    Entry(ReadName(f.name), if want(ReadName(f.name)) then Some(f.data) else None)
  }

  ghost function Entries(fs: seq<File>, want: seq<Byte> -> bool): seq<Entry> {
    if fs == [] then [] else Entries(fs[..|fs| - 1], want) + [EntryOf(fs[|fs| - 1], want)]
  }

  predicate Any(name: seq<Byte>) {
    true
  }

  ghost predicate Readable(fs: seq<File>) {
    forall i :: 0 <= i < |fs| ==> Plain(fs[i].name) && Fits(fs[i])
  }

  /** A block of NULs ends an archive. */
  lemma {:induction false} ZeroIsEnd()
    ensures Eotar(ZEROBLOCK)
  {
    var n := Field(ZEROBLOCK, NAME, NAMSIZ);
    assert n[NAMSIZ - 1] == 0 && n[0] == 0;
    assert Field(ZEROBLOCK, PREFIX, MAXPFX)[0] == 0;
    assert Strlen(n) == 0;
  }

  /** The next member of an archive, at block p. */
  lemma {:induction false} NextMember(ar: seq<Block>, p: nat, m: nat, fs: seq<File>)
    requires p <= m < |ar| && fs != [] && Holds(ar[p..m], fs) && Plain(fs[0].name) && Fits(fs[0])
    ensures var n := Blocks(|fs[0].data|);
            && p + 1 + n <= m && !Eotar(ar[p]) && Checks(ar[p]) && Name(ar[p]) == ReadName(fs[0].name)
            && ArSize(ar[p]) == HdrSize(ar[p]) == |fs[0].data| <= TBLOCK * n
            && Join(ar[p + 1..p + 1 + n])[..|fs[0].data|] == fs[0].data
            && Holds(ar[p + 1 + n..m], fs[1..])
  {
    hide Header, Storable, Plain, Fits, Eotar, Checks, ArSize, HdrSize, Name, ReadName, Join;
    var bs, f, n := ar[p..m], fs[0], Blocks(|fs[0].data|);
    Within(ar, p, m, 1, 1 + n);
    Within(ar, p, m, 1 + n, m - p);
    assert bs[1 + n..] == bs[1 + n..m - p];
    HeaderRead(ar[p], f);
  }

  lemma {:induction false} Within(ar: seq<Block>, p: nat, m: nat, i: nat, j: nat)
    requires p <= m <= |ar| && i <= j <= m - p
    ensures ar[p..m][i..j] == ar[p + i..p + j]
  {
    var a, b := ar[p..m][i..j], ar[p + i..p + j];
    forall k | 0 <= k < j - i
      ensures a[k] == b[k]
    {
      assert a[k] == ar[p..m][i + k] == ar[p + (i + k)];
    }
  }

  /**
   * tar x and tar t: the members of an archive read from its start, with whatever blocking, each copied or
   * passed over as wanted. Every header is met, in order, whether or not buffers before it were passed over.
   */
  method Extract(r: Reader, want: seq<Byte> -> bool, ghost fs: seq<File>, ghost m: nat) returns (es: seq<Entry>)
    requires r.Valid() && r.Here() == r.nexthdr == 0 && r.genuine == 0
    requires Archived(r.ar, fs, m) && Readable(fs)
    modifies r, r.tpblk
    ensures es == Entries(fs, want)
  {
    hide Holds, Plain, Fits, Eotar, Checks, ArSize, HdrSize, Name, ReadName, Join, Blocks, Reader.Valid, Reader.Here, EntryOf;
    es := [];
    ghost var k := 0;
    assert r.ar[0..m] == r.ar[..m] && fs[0..] == fs && fs[..0] == [];
    while true
      invariant 0 <= k <= |fs| && r.Valid() && r.Here() == r.nexthdr <= m && r.genuine <= r.nexthdr
      invariant Holds(r.ar[r.nexthdr..m], fs[k..])
      invariant es == Entries(fs[..k], want)
      decreases |fs| - k
    {
      ghost var p := r.nexthdr;
      if k < |fs| {
        NextMember(r.ar, p, m, fs[k..]);
        assert fs[k..][0] == fs[k] && fs[k..][1..] == fs[k + 1..];
      } else {
        AtEnd(r.ar, p, m, fs[k..]);
      }
      var hp := r.ReadHdr();
      if hp == None {
        assert fs[..k] == fs;
        return;
      }
      var b := hp.value;
      var fname, n := Name(b), Blocks(ArSize(b));
      if want(fname) {
        var data := r.CopyFromAr(n, HdrSize(b));
        es := es + [Entry(fname, Some(data))];
      } else {
        r.Skip(n);
        es := es + [Entry(fname, None)];
      }
      EntriesNext(fs, k, want);
      k := k + 1;
    }
  }

  lemma {:induction false} AtEnd(ar: seq<Block>, p: nat, m: nat, fs: seq<File>)
    requires p <= m < |ar| && fs == [] && Holds(ar[p..m], fs) && ar[m] == ZEROBLOCK
    ensures p == m && Eotar(ar[p])
  {
    ZeroIsEnd();
  }

  lemma {:induction false} EntriesNext(fs: seq<File>, k: nat, want: seq<Byte> -> bool)
    requires k < |fs|
    ensures Entries(fs[..k + 1], want) == Entries(fs[..k], want) +
            [Entry(ReadName(fs[k].name), if want(ReadName(fs[k].name)) then Some(fs[k].data) else None)]
  {
    assert fs[..k + 1][..k] == fs[..k];
  }

  /**
   * The archive round trip: whatever the blocking of the writer and of the reader, the files whose names can
   * be stored come back in order with their contents.
   */
  method RoundTrip(fs: seq<File>, wblock: nat, rblock: nat, usefile: bool, fixednblock: bool, seekable: bool)
    returns (es: seq<Entry>)
    requires wblock > 0 && rblock > 0 && Readable(fs)
    ensures es == Entries(Stored(fs), Any)
    ensures (forall i :: 0 <= i < |fs| ==> Storable(fs[i].name) && !LosesSlash(fs[i].name)) ==>
              |es| == |fs| && forall i :: 0 <= i < |fs| ==> es[i] == Entry(fs[i].name, Some(fs[i].data))
  {
    hide Plain, Fits, Storable, LosesSlash, Reader.Valid, Reader.Here, Archived;
    var ar := Create(fs, wblock);
    ghost var m :| Archived(ar, Stored(fs), m);
    var r := new Reader(ar, rblock, usefile, fixednblock, seekable);
    StoredReadable(fs);
    es := Extract(r, Any, Stored(fs), m);
    if forall i :: 0 <= i < |fs| ==> Storable(fs[i].name) && !LosesSlash(fs[i].name) {
      AllEntries(fs);
    }
  }

  lemma {:induction false} StoredReadable(fs: seq<File>)
    requires Readable(fs)
    ensures Readable(Stored(fs))
  {
    hide Plain, Fits, Storable;
    if fs != [] {
      StoredReadable(fs[..|fs| - 1]);
    }
  }

  lemma {:induction false} AllEntries(fs: seq<File>)
    requires forall i :: 0 <= i < |fs| ==> Storable(fs[i].name) && !LosesSlash(fs[i].name)
    ensures Stored(fs) == fs
    ensures var es := Entries(fs, Any);
            |es| == |fs| && forall i :: 0 <= i < |fs| ==> es[i] == Entry(fs[i].name, Some(fs[i].data))
  {
    hide Storable, LosesSlash;
    if fs != [] {
      var init, f := fs[..|fs| - 1], fs[|fs| - 1];
      AllEntries(init);
      assert fs == init + [f] && !LosesSlash(f.name);
      assert EntryOf(f, Any) == Entry(f.name, Some(f.data));
    }
  }
}
