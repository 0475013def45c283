// Headers of a tar archive, in the ustar interchange format of POSIX.1 (IEEE Std 1003.1).

/** mkhdr, putfullname, name, chksum, putbe, hdrotoull and hdrsize of tar.c. */
module TarHeader {
  import opened Basics

  const TBLOCK := 512
  const NAMSIZ := 100
  const MAXPFX := 155
  const MAXNAME := 256
  const BINSIZE: Byte := 0x80
  const BINNEGSZ: Byte := 0xFF
  const SPACE: Byte := 32
  const ZERO: Byte := 48      // '0'
  const SLASH: Byte := 47

  /** The fields of a header that the program sets or looks at. */
  const NAME := 0
  const MODE := 100
  const UID := 108
  const GID := 116
  const SIZE := 124
  const MTIME := 136
  const CHKSUM := 148
  const LINKFLAG := 156
  const MAGIC := 257
  const VERSION := 263
  const UNAME := 265
  const GNAME := 297
  const PREFIX := 345

  const USTAR: seq<Byte> := [117, 115, 116, 97, 114]

  // ----- numbers -----

  function Repeat(c: Byte, n: nat): (s: seq<Byte>)
    ensures |s| == n && forall k :: 0 <= k < n ==> s[k] == c
  {
    seq(n, _ => c)
  }

  /** The octal digits of a number, without leading zeros. */
  function Oct(n: nat): (s: seq<Byte>)
    ensures |s| > 0 && forall k :: 0 <= k < |s| ==> IsOctal(s[k])
  {
    (if n < 8 then [] else Oct(n / 8)) + [ZERO + n % 8]
  }

  /** The k-th digit from the right is that of eight to the k, and there is no leading zero. */
  lemma {:induction false} OctDigits(n: nat, k: nat)
    requires k < |Oct(n)|
    ensures Oct(n)[|Oct(n)| - 1 - k] == 48 + (n / Pow8(k)) % 8
    ensures n > 0 ==> Oct(n)[0] != 48
    decreases n, k
  {
    if n >= 8 {
      OctDigits(n / 8, if k == 0 then 0 else k - 1);
      if k > 0 {
        DivTwice(n, 8, Pow8(k - 1));
      }
    }
  }

  lemma {:induction false} DivTwice(n: nat, a: nat, b: nat)
    requires a > 0 && b > 0
    ensures a * b > 0 && n / a / b == n / (a * b)
  {
    TwoDivisions(n, a, b, n / a, n % a, n / a / b, n / a % b);
  }

  lemma {:induction false} TwoDivisions(n: nat, a: nat, b: nat, q: nat, r: nat, p: nat, o: nat)
    requires n == a * q + r && r < a && q == b * p + o && o < b
    ensures a * b > 0 && p == n / (a * b)
  {
    Times(a, b, p, o);
    TimesLess(a, o, b);
    assert a * o + r < a * b;
    QuotientIs(n, a * b, p, a * o + r);
  }

  lemma {:induction false} Times(a: nat, b: nat, q: nat, r: nat)
    ensures a * (b * q + r) == (a * b) * q + a * r
  {
    assert a * (b * q) == (a * b) * q;
  }

  lemma {:induction false} TimesLess(d: nat, p: nat, q: nat)
    ensures p < q ==> d * p + d <= d * q
  {
    if p < q {
      assert d * q == d * (p + 1) + d * (q - p - 1);
    }
  }

  lemma {:induction false} QuotientIs(n: nat, d: nat, q: nat, r: nat)
    requires r < d && n == d * q + r
    ensures n / d == q
  {
    TimesLess(d, n / d, q);
    TimesLess(d, q, n / d);
  }

  predicate IsOctal(c: Byte) {
    ZERO <= c < ZERO + 8
  }

  predicate IsDigit(c: Byte) {
    ZERO <= c < ZERO + 10
  }

  function Pow8(w: nat): (p: nat)
    ensures p > 0
  {
    if w == 0 then 1 else 8 * Pow8(w - 1)
  }

  lemma {:induction false} OctFits(n: nat, w: nat)
    requires n < Pow8(w) && w > 0
    ensures |Oct(n)| <= w
  {
    if n >= 8 {
      OctFits(n / 8, w - 1);
    }
  }

  /** %wo: the digits, right-justified with blanks in w places. */
  function Padded(n: nat, w: nat): (s: seq<Byte>)
    ensures |Oct(n)| <= w ==> |s| == w
  {
    Repeat(SPACE, if |Oct(n)| < w then w - |Oct(n)| else 0) + Oct(n)
  }

  /** strtoull, to base 8: the value of the octal digits a string begins with. */
  function Strtoull(s: seq<Byte>, v: nat): nat {
    if s != [] && IsOctal(s[0]) then Strtoull(s[1..], 8 * v + (s[0] - ZERO)) else v
  }

  /** hdrotoull: blanks and NULs are skipped, and a number must follow; None is its error value. */
  function Hdrotoull(s: seq<Byte>): Option<nat> {
    if s == [] then None
    else if s[0] == SPACE || s[0] == 0 then Hdrotoull(s[1..])
    else if IsDigit(s[0]) then Some(Strtoull(s, 0))
    else None
  }

  lemma {:induction false} StrtoullConcat(a: seq<Byte>, b: seq<Byte>, v: nat)
    requires forall k :: 0 <= k < |a| ==> IsOctal(a[k])
    ensures Strtoull(a + b, v) == Strtoull(b, Strtoull(a, v))
  {
    if a == [] {
      assert a + b == b;
    } else {
      StrtoullConcat(a[1..], b, 8 * v + (a[0] - ZERO));
      assert (a + b)[1..] == a[1..] + b;
    }
  }

  lemma {:induction false} StrtoullOct(n: nat)
    ensures Strtoull(Oct(n), 0) == n
  {
    if n >= 8 {
      StrtoullOct(n / 8);
      StrtoullConcat(Oct(n / 8), [ZERO + n % 8], 0);
    }
    assert [ZERO + n % 8][1..] == [];
  }

  lemma {:induction false} SkipBlanks(k: nat, s: seq<Byte>)
    ensures Hdrotoull(Repeat(SPACE, k) + s) == Hdrotoull(s)
  {
    var t := Repeat(SPACE, k) + s;
    if k == 0 {
      assert t == s;
    } else {
      SkipBlanks(k - 1, s);
      assert t[1..] == Repeat(SPACE, k - 1) + s;
    }
  }

  /** A number printed in a field is read back from it, whatever follows its digits. */
  lemma {:induction false} OctalRoundTrip(n: nat, w: nat, rest: seq<Byte>)
    requires rest == [] || !IsOctal(rest[0])
    ensures Hdrotoull(Padded(n, w) + rest) == Some(n)
  {
    var k := if |Oct(n)| < w then w - |Oct(n)| else 0;
    assert Padded(n, w) + rest == Repeat(SPACE, k) + (Oct(n) + rest);
    SkipBlanks(k, Oct(n) + rest);
    StrtoullConcat(Oct(n), rest, 0);
    StrtoullOct(n);
    assert IsOctal((Oct(n) + rest)[0]);
  }

  function Pow256(w: nat): (p: nat)
    ensures p > 0
  {
    if w == 0 then 1 else 256 * Pow256(w - 1)
  }

  /** The last w bytes of a number, most significant first. */
  function Be(v: nat, w: nat): (s: seq<Byte>)
    ensures |s| == w
  {
    if w == 0 then [] else Be(v / 256, w - 1) + [v % 256]
  }

  /** The k-th byte from the right is that of 256 to the k. */
  lemma {:induction false} BeBytes(v: nat, w: nat, k: nat)
    requires k < w
    ensures Be(v, w)[w - 1 - k] == (v / Pow256(k)) % 256
    decreases w
  {
    if k > 0 {
      BeBytes(v / 256, w - 1, k - 1);
      DivTwice(v, 256, Pow256(k - 1));
    }
  }

  function FromBe(s: seq<Byte>): nat {
    if s == [] then 0 else 256 * FromBe(s[..|s| - 1]) + s[|s| - 1]
  }

  lemma {:induction false} BeRoundTrip(v: nat, w: nat)
    requires v < Pow256(w)
    ensures FromBe(Be(v, w)) == v
  {
    if w > 0 {
      BeRoundTrip(v / 256, w - 1);
      assert Be(v, w)[..w - 1] == Be(v / 256, w - 1);
    }
  }

  lemma {:induction false} BeTail(v: nat, w: nat, k: nat)
    requires k <= w
    ensures Be(v, w)[w - k..] == Be(v, k)
  {
    if k > 0 {
      BeTail(v / 256, w - 1, k - 1);
      assert Be(v, w)[w - k..] == Be(v / 256, w - 1)[w - k..] + [v % 256];
    }
  }

  // ----- checksums -----

  function Sum(s: seq<Byte>): (n: nat)
    ensures n <= 255 * |s|
  {
    if s == [] then 0 else Sum(s[..|s| - 1]) + s[|s| - 1]
  }

  /** Every byte counts as it is. */
  lemma {:induction false} SumMeans(c: Byte, a: seq<Byte>, b: seq<Byte>)
    ensures Sum([]) == 0 && Sum([c]) == c && Sum(a + b) == Sum(a) + Sum(b)
  {
    var one := [c];
    assert one[..0] == [] && Sum(one[..0]) == 0;
    if b == [] {
      assert a + b == a;
    } else {
      SumMeans(c, a, b[..|b| - 1]);
      assert (a + b)[..|a + b| - 1] == a + b[..|b| - 1];
    }
  }

  lemma {:induction false} SumUpdate(b: seq<Byte>, k: nat, c: Byte)
    requires k < |b|
    ensures Sum(b[k := c]) == Sum(b) + c - b[k]
  {
    hide Sum;
    assert b == b[..k] + ([b[k]] + b[k + 1..]) && b[k := c] == b[..k] + ([c] + b[k + 1..]);
    SumMeans(c, b[..k], [b[k]] + b[k + 1..]);
    SumMeans(c, b[..k], [c] + b[k + 1..]);
    SumMeans(c, [c], b[k + 1..]);
    SumMeans(b[k], [b[k]], b[k + 1..]);
  }

  lemma {:induction false} SumRepeat(c: Byte, n: nat)
    ensures Sum(Repeat(c, n)) == n * c
  {
    if n > 0 {
      SumRepeat(c, n - 1);
      assert Repeat(c, n)[..n - 1] == Repeat(c, n - 1);
      assert n * c == (n - 1) * c + c;
    }
  }

  /** Some bytes of a block replaced. */
  function Put(b: seq<Byte>, off: nat, s: seq<Byte>): (r: seq<Byte>)
    requires off + |s| <= |b|
    ensures |r| == |b|
  {
    b[..off] + s + b[off + |s|..]
  }

  function Field(b: seq<Byte>, off: nat, n: nat): seq<Byte>
    requires off + n <= |b|
  {
    b[off..off + n]
  }

  /** The bytes put into a field are its first, and the others stay. */
  lemma {:induction false} PutField(b: seq<Byte>, off: nat, s: seq<Byte>, n: nat)
    requires |s| <= n && off + n <= |b|
    ensures Field(Put(b, off, s), off, n) == s + Field(b, off, n)[|s|..]
  {
    var x, y := Field(Put(b, off, s), off, n), s + Field(b, off, n)[|s|..];
    forall k | 0 <= k < n
      ensures x[k] == y[k]
    {
      assert x[k] == Put(b, off, s)[off + k];
    }
  }

  /** A string put into the middle part of three. */
  lemma {:induction false} PutMiddle(a: seq<Byte>, x: seq<Byte>, c: seq<Byte>, y: seq<Byte>)
    requires |y| <= |x|
    ensures Field(a + x + c, |a|, |x|) == x
    ensures Put(a + x + c, |a|, y) == a + (y + x[|y|..]) + c
  {
  }

  lemma {:induction false} PutOneMore(b: seq<Byte>, d: nat, s: seq<Byte>, c: Byte)
    requires 0 < d && d + |s| <= |b|
    ensures Put(b, d, s)[d - 1 := c] == Put(b, d - 1, [c] + s)
  {
  }

  /** The sum of the bytes of a header, with the checksum taken for blanks. */
  function ChkSum(b: seq<Byte>): nat
    requires |b| == TBLOCK
  {
    Sum(Put(b, CHKSUM, Repeat(SPACE, 8)))
  }

  /** A byte outside the checksum field adds what it is to the checksum; the eight of the field count 32 each. */
  lemma {:induction false} ChkSumMeans(b: seq<Byte>, k: nat, c: Byte)
    requires |b| == 512 && k < 512
    ensures ChkSum(b[k := c]) == if 148 <= k < 156 then ChkSum(b) else ChkSum(b) + c - b[k]
    ensures ChkSum(Repeat(0, 512)) == 256
  {
    hide Sum;
    var z := Repeat(SPACE, 8);
    if 148 <= k < 156 {
      assert Put(b[k := c], CHKSUM, z) == Put(b, CHKSUM, z);
    } else {
      assert Put(b[k := c], CHKSUM, z) == Put(b, CHKSUM, z)[k := c];
      SumUpdate(Put(b, CHKSUM, z), k, c);
    }
    BlankChkSum();
  }

  lemma {:induction false} BlankChkSum()
    ensures ChkSum(Repeat(0, 512)) == 256
  {
    hide Sum;
    var z := Repeat(SPACE, 8);
    assert Put(Repeat(0, 512), CHKSUM, z) == Repeat(0, 148) + (z + Repeat(0, 356));
    SumMeans(0, Repeat(0, 148), z + Repeat(0, 356));
    SumMeans(0, z, Repeat(0, 356));
    SumRepeat(0, 148);
    SumRepeat(0, 356);
    SumRepeat(SPACE, 8);
  }

  /** A checksum fits in its six digits. */
  lemma {:induction false} ChkSumFits(b: seq<Byte>)
    requires |b| == TBLOCK
    ensures ChkSum(b) < Pow8(6) && |Padded(ChkSum(b), 6)| == 6
  {
    assert Pow8(6) == 262144 by {
      assert Pow8(3) == 512;
      assert Pow8(6) == 8 * (8 * (8 * Pow8(3)));
    }
    OctFits(ChkSum(b), 6);
  }

  /** The checksum test of readhdr. */
  predicate Checks(b: seq<Byte>)
    requires |b| == TBLOCK
  {
    Hdrotoull(Field(b, CHKSUM, 8)) == Some(ChkSum(b))
  }

  /** A header with its own checksum put in, over a field of NULs, passes the test. */
  lemma {:induction false} SealedChecks(b: seq<Byte>)
    requires |b| == TBLOCK && Field(b, CHKSUM, 8) == Repeat(0, 8)
    ensures |Padded(ChkSum(b), 6)| == 6
    ensures Checks(Put(b, CHKSUM, Padded(ChkSum(b), 6)))
    ensures var s := Put(b, CHKSUM, Padded(ChkSum(b), 6));
            ChkSum(s) == ChkSum(b) && Field(s, CHKSUM, 8) == Padded(ChkSum(s), 6) + [0, 0]
  {
    ChkSumFits(b);
    var d := Padded(ChkSum(b), 6);
    var s := Put(b, CHKSUM, d);
    assert Put(s, CHKSUM, Repeat(SPACE, 8)) == Put(b, CHKSUM, Repeat(SPACE, 8));
    PutField(b, CHKSUM, d, 8);
    assert d + Field(b, CHKSUM, 8)[6..] == d + [0, 0];
    OctalRoundTrip(ChkSum(b), 6, [0, 0]);
  }

  // ----- names -----

  /** strncpy: the string, cut or padded with NULs to n bytes. */
  function Strncpy(s: seq<Byte>, n: nat): (r: seq<Byte>)
    ensures |r| == n
  {
    if |s| >= n then s[..n] else s + Repeat(0, n - |s|)
  }

  function Strlen(s: seq<Byte>): (n: nat)
    ensures n <= |s| && (forall k :: 0 <= k < n ==> s[k] != 0) && (n < |s| ==> s[n] == 0)
  {
    if s == [] || s[0] == 0 then 0 else 1 + Strlen(s[1..])
  }

  /** strnlen: a field is full, or ends at its first NUL. */
  function Strnlen(s: seq<Byte>): (n: nat)
    ensures n <= |s|
  {
    if s == [] || s[|s| - 1] != 0 then |s| else Strlen(s)
  }

  lemma {:induction false} StrnlenOf(s: seq<Byte>, n: nat)
    requires |s| <= n && 0 !in s
    ensures Strnlen(Strncpy(s, n)) == |s| && Strncpy(s, n)[..|s|] == s
  {
    var r := Strncpy(s, n);
    assert r[..|s|] == s;
    forall k | 0 <= k < |s|
      ensures r[k] != 0
    {
      assert s[k] in s;
    }
    StrlenIs(r, |s|);
  }

  lemma {:induction false} StrlenIs(r: seq<Byte>, n: nat)
    requires n <= |r| && (forall k :: 0 <= k < n ==> r[k] != 0) && (n < |r| ==> r[n] == 0)
    ensures Strlen(r) == n
  {
    if n > 0 {
      StrlenIs(r[1..], n - 1);
    }
  }

  /** isustar: strcmp of the magic field. */
  predicate IsUstar(b: seq<Byte>)
    requires |b| == TBLOCK
  {
    Field(b, MAGIC, 6) == USTAR + [0]
  }

  /** name: the full name in a header. */
  function Name(b: seq<Byte>): seq<Byte>
    requires |b| == TBLOCK
  {
    var n := Field(b, NAME, NAMSIZ);
    var p := Field(b, PREFIX, MAXPFX);
    if p[0] == 0 || !IsUstar(b) then n[..Strnlen(n)]
    else p[..Strnlen(p)] + [SLASH] + n[..Strnlen(n)]
  }

  /** eotar: no name, as in a block of NULs. */
  predicate Eotar(b: seq<Byte>)
    requires |b| == TBLOCK
  {
    Name(b) == [] || Name(b)[0] == 0
  }

  /** The rightmost slash before a place. */
  function LastSlash(s: seq<Byte>, n: nat): (k: Option<nat>)
    requires n <= |s|
    ensures k.Some? ==> k.value < n && s[k.value] == SLASH && forall j :: k.value < j < n ==> s[j] != SLASH
    ensures k.None? ==> forall j :: 0 <= j < n ==> s[j] != SLASH
  {
    if n == 0 then None
    else if s[n - 1] == SLASH then Some(n - 1)
    else LastSlash(s, n - 1)
  }

  predicate SplitsAt(name: seq<Byte>, k: nat) {
    k < |name| && name[k] == SLASH && k <= MAXPFX && |name| - 1 - k <= NAMSIZ
  }

  /** The search of putfullname: from the right, the first slash that leaves two parts that fit. */
  function SplitBefore(name: seq<Byte>, n: nat): (k: Option<nat>)
    requires n <= |name|
    ensures k.Some? ==> SplitsAt(name, k.value) && k.value < n
  {
    match LastSlash(name, n)
    case None => None
    case Some(k) => if k <= MAXPFX && |name| - 1 - k <= NAMSIZ then Some(k) else SplitBefore(name, k)
  }

  /** The split found is the rightmost there is. */
  lemma {:induction false} SplitRightmost(name: seq<Byte>, n: nat, j: nat)
    requires n <= |name| && j < n && SplitsAt(name, j)
    ensures SplitBefore(name, n).Some? && j <= SplitBefore(name, n).value
  {
    var k := LastSlash(name, n).value;
    if !SplitsAt(name, k) {
      SplitRightmost(name, k, j);
    }
  }

  /** A name that fits a header. */
  predicate Storable(name: seq<Byte>) {
    |name| <= NAMSIZ || (|name| <= MAXNAME && SplitBefore(name, |name|).Some?)
  }

  /** Which names fit: those of a hundred bytes, and those of up to 256 with a slash that leaves two parts that fit. */
  lemma {:induction false} StorableExactly(name: seq<Byte>)
    ensures Storable(name) <==>
            || |name| <= 100
            || (|name| <= 256 && exists k :: 0 <= k < |name| && name[k] == 47 && k <= 155 && |name| - 1 - k <= 100)
  {
    hide SplitBefore;
    if k: nat :| k < |name| && SplitsAt(name, k) {
      SplitRightmost(name, |name|, k);
    }
    var s := SplitBefore(name, |name|);
    assert s.Some? ==> SplitsAt(name, s.value);
    assert forall k :: 0 <= k < |name| ==>
             (SplitsAt(name, k) <==> name[k] == 47 && k <= 155 && |name| - 1 - k <= 100);
  }

  function NamePart(name: seq<Byte>): seq<Byte>
    requires Storable(name)
  {
    if |name| <= NAMSIZ then name else name[SplitBefore(name, |name|).value + 1..]
  }

  function PrefixPart(name: seq<Byte>): seq<Byte>
    requires Storable(name)
  {
    if |name| <= NAMSIZ then [] else name[..SplitBefore(name, |name|).value]
  }

  /** The names that come back without their slash: 101 bytes, split at the first, the only slash. */
  predicate LosesSlash(name: seq<Byte>) {
    |name| == NAMSIZ + 1 && name[0] == SLASH && SLASH !in name[1..]
  }

  /** The name that comes back. */
  function ReadName(name: seq<Byte>): seq<Byte> {
    if LosesSlash(name) then name[1..] else name
  }

  /** A header holds the parts of a name. */
  ghost predicate HoldsName(b: seq<Byte>, name: seq<Byte>)
    requires |b| == TBLOCK && Storable(name)
  {
    && Field(b, NAME, NAMSIZ) == Strncpy(NamePart(name), NAMSIZ)
    && Field(b, PREFIX, MAXPFX) == Strncpy(PrefixPart(name), MAXPFX)
    && IsUstar(b)
  }

  /** A name can be kept: it is not empty, has no NUL, and is not that of a directory. */
  predicate Plain(name: seq<Byte>) {
    name != [] && 0 !in name && name[|name| - 1] != SLASH
  }

  lemma {:induction false} SplitAtZero(name: seq<Byte>)
    requires |name| > NAMSIZ && SplitBefore(name, |name|).Some?
    ensures SplitBefore(name, |name|).value == 0 <==> LosesSlash(name)
  {
    var k := SplitBefore(name, |name|).value;
    if k == 0 {
      forall j | 1 <= j < |name|
        ensures name[j] != SLASH
      {
        if name[j] == SLASH {
          SplitRightmost(name, |name|, j);
        }
      }
    }
  }

  /** A storable name is read back from its header, exactly unless it is one of those that lose their slash. */
  lemma {:induction false} NameRoundTrip(b: seq<Byte>, name: seq<Byte>)
    requires |b| == TBLOCK && Plain(name) && Storable(name) && HoldsName(b, name)
    ensures Name(b) == name <==> !LosesSlash(name)
    ensures Name(b) == ReadName(name) && !Eotar(b)
    ensures Name(b) != [] && Name(b)[|Name(b)| - 1] == name[|name| - 1]
  {
    var n, p := NamePart(name), PrefixPart(name);
    if |name| <= NAMSIZ {
      StrnlenOf(n, NAMSIZ);
      assert Field(b, PREFIX, MAXPFX)[0] == 0;
    } else {
      var k := SplitBefore(name, |name|).value;
      assert name == p + [SLASH] + n;
      NoNulPart(name, 0, k);
      NoNulPart(name, k + 1, |name|);
      StrnlenOf(n, NAMSIZ);
      StrnlenOf(p, MAXPFX);
      SplitAtZero(name);
      if k == 0 {
        assert Field(b, PREFIX, MAXPFX)[0] == 0;
      } else {
        assert Field(b, PREFIX, MAXPFX)[0] == name[0] && name[0] in name;
      }
      assert n[0] in n;
    }
    assert name[0] in name;
  }

  /** Such a name: a slash and a hundred letters. It is stored, and comes back as the letters alone. */
  lemma {:induction false} SlashLost(b: seq<Byte>)
    requires |b| == TBLOCK
    ensures var name := [SLASH] + Repeat(97, 100);
            Plain(name) && Storable(name) && (HoldsName(b, name) ==> Name(b) == Repeat(97, 100) != name)
  {
    var name := [SLASH] + Repeat(97, 100);
    assert forall k :: 1 <= k < |name| ==> name[k] == 97;
    assert SplitsAt(name, 0);
    SplitRightmost(name, |name|, 0);
    assert name[1..] == Repeat(97, 100) && LosesSlash(name);
    if HoldsName(b, name) {
      NameRoundTrip(b, name);
    }
  }

  lemma {:induction false} NoNulPart(s: seq<Byte>, i: nat, j: nat)
    requires i <= j <= |s| && 0 !in s
    ensures 0 !in s[i..j]
  {
    forall k | 0 <= k < j - i
      ensures s[i..j][k] != 0
    {
      assert s[i + k] in s;
    }
  }

  // ----- sizes -----

  /** hdrsize: the size in a header; a negative one counts as none. */
  function HdrSize(b: seq<Byte>): nat
    requires |b| == TBLOCK
  {
    if b[SIZE] == BINNEGSZ then 0
    else if b[SIZE] == BINSIZE then FromBe(Field(b, SIZE + 12 - 1 - 8, 8))
    else match Hdrotoull(Field(b, SIZE, 12)) case Some(n) => n case None => 0
  }

  /** The size field mkhdr writes: octal digits, or, from 2^32 on, a flag and ten bytes. */
  function SizeField(n: nat): seq<Byte> {
    if n >= 0x1_0000_0000 then [BINSIZE] + Be(n, 10) + [SPACE] else Padded(n, 11) + [SPACE]
  }

  lemma {:induction false} SizeFieldLength(n: nat)
    ensures |SizeField(n)| == 12
  {
    if n < 0x1_0000_0000 {
      assert Pow8(11) == 8589934592 by {
        assert Pow8(4) == 4096;
        assert Pow8(8) == 8 * (8 * (8 * (8 * Pow8(4))));
        assert Pow8(11) == 8 * (8 * (8 * Pow8(8)));
      }
      OctFits(n, 11);
    }
  }

  lemma {:induction false} SubField(b: seq<Byte>, off: nat, n: nat, i: nat, m: nat)
    requires off + n <= |b| && i + m <= n
    ensures Field(b, off + i, m) == Field(b, off, n)[i..i + m]
  {
    var x, y := Field(b, off + i, m), Field(b, off, n)[i..i + m];
    forall k | 0 <= k < m
      ensures x[k] == y[k]
    {
      assert y[k] == Field(b, off, n)[i + k] == b[off + (i + k)];
    }
  }

  /** Both forms of a size are read back. */
  lemma {:induction false} SizeRoundTrip(b: seq<Byte>, n: nat)
    requires |b| == TBLOCK && n < 0x8000_0000_0000_0000
    requires |SizeField(n)| == 12 && Field(b, SIZE, 12) == SizeField(n)
    ensures HdrSize(b) == n
  {
    var f := Field(b, SIZE, 12);
    assert b[SIZE] == f[0];
    if n >= 0x1_0000_0000 {
      SubField(b, SIZE, 12, 3, 8);
      assert f[3..11] == Be(n, 10)[2..];
      BeTail(n, 10, 8);
      assert Pow256(8) == 0x1_0000_0000_0000_0000 by {
        assert Pow256(4) == 0x1_0000_0000;
        assert Pow256(8) == 256 * (256 * (256 * (256 * Pow256(4))));
      }
      BeRoundTrip(n, 8);
    } else {
      OctalRoundTrip(n, 11, [SPACE]);
      assert IsOctal(f[0]) || f[0] == SPACE;
    }
  }

  // ----- making a header -----

  /** A regular file to be stored. */
  datatype File = File(name: seq<Byte>, mode: nat, uid: nat, gid: nat, mtime: nat, owner: seq<Byte>, group: seq<Byte>,
                       data: seq<Byte>)

  /** The numbers of a file fit the fields they are printed in; sizes may take either form. */
  ghost predicate Fits(f: File) {
    && f.mode < 512 && f.uid < Pow8(6) && f.gid < Pow8(6) && f.mtime < Pow8(11)
    && |f.data| < 0x8000_0000_0000_0000 && 0 !in f.name
  }

  /** The fields one after another: their widths, and where each begins. */
  const WIDTHS: seq<nat> := [100, 8, 8, 8, 12, 12, 8, 1, 100, 6, 2, 32, 32, 8, 8, 155, 12]
  const OFFSETS: seq<nat> :=
    [0, 100, 108, 116, 124, 136, 148, 156, 157, 257, 263, 265, 297, 329, 337, 345, 500, 512]

  ghost predicate Shaped(fs: seq<seq<Byte>>) {
    |fs| == 17 && forall i :: 0 <= i < 17 ==> |fs[i]| == WIDTHS[i]
  }

  ghost function Flat(fs: seq<seq<Byte>>): seq<Byte> {
    if fs == [] then [] else Flat(fs[..|fs| - 1]) + fs[|fs| - 1]
  }

  lemma {:induction false} FlatConcat(a: seq<seq<Byte>>, b: seq<seq<Byte>>)
    ensures Flat(a + b) == Flat(a) + Flat(b)
  {
    if b == [] {
      assert a + b == a;
    } else {
      FlatConcat(a, b[..|b| - 1]);
      assert (a + b)[..|a + b| - 1] == a + b[..|b| - 1];
    }
  }

  lemma {:induction false} FlatLength(fs: seq<seq<Byte>>, i: nat)
    requires Shaped(fs) && i <= 17
    ensures |Flat(fs[..i])| == OFFSETS[i]
  {
    if i > 0 {
      FlatLength(fs, i - 1);
      assert fs[..i][..i - 1] == fs[..i - 1];
      assert OFFSETS[i] == OFFSETS[i - 1] + WIDTHS[i - 1];
    }
  }

  /** A field of the flat header, and the header with the field replaced. */
  lemma {:induction false} FlatField(fs: seq<seq<Byte>>, i: nat, y: seq<Byte>)
    requires Shaped(fs) && i < 17 && |y| <= WIDTHS[i]
    ensures |Flat(fs)| == TBLOCK && OFFSETS[i] + WIDTHS[i] <= TBLOCK
    ensures Field(Flat(fs), OFFSETS[i], WIDTHS[i]) == fs[i]
    ensures Put(Flat(fs), OFFSETS[i], y) == Flat(fs[i := y + fs[i][|y|..]])
  {
    hide Flat, Put, Field;
    var z := y + fs[i][|y|..];
    FlatLength(fs, i);
    FlatLength(fs, 17);
    assert fs[..17] == fs;
    assert OFFSETS[i + 1] == OFFSETS[i] + WIDTHS[i];
    FlatSplit(fs, i);
    FlatSplit(fs[i := z], i);
    assert fs[i := z][..i] == fs[..i] && fs[i := z][i + 1..] == fs[i + 1..];
    PutMiddle(Flat(fs[..i]), fs[i], Flat(fs[i + 1..]), y);
    OffsetsFit(i);
  }

  lemma {:induction false} OffsetsFit(i: nat)
    requires i < 17
    ensures OFFSETS[i] + WIDTHS[i] <= TBLOCK
  {
  }

  lemma {:induction false} FlatSplit(fs: seq<seq<Byte>>, i: nat)
    requires i < |fs|
    ensures Flat(fs) == Flat(fs[..i]) + fs[i] + Flat(fs[i + 1..])
  {
    hide Flat;
    FlatConcat(fs[..i] + [fs[i]], fs[i + 1..]);
    FlatConcat(fs[..i], [fs[i]]);
    FlatOne(fs[i]);
    assert fs == fs[..i] + [fs[i]] + fs[i + 1..];
  }

  lemma {:induction false} FlatOne(y: seq<Byte>)
    ensures Flat([y]) == y
  {
    var one: seq<seq<Byte>> := [y];
    assert one[..0] == [];
  }

  /** The bytes of a string stored in a block. */
  method Copy(hp: array<Byte>, off: nat, s: seq<Byte>)
    requires off + |s| <= hp.Length
    modifies hp
    ensures hp[..] == Put(old(hp[..]), off, s)
  {
    hide Put;
    ghost var b := hp[..];
    var i := 0;
    PutNothing(b, off);
    assert s[..0] == [];
    while i < |s|
      invariant 0 <= i <= |s| && hp.Length == |b| && hp[..] == Put(b, off, s[..i])
    {
      ghost var c := hp[..];
      PutNext(b, off, s, i);
      hp[off + i] := s[i];
      assert hp[..] == c[off + i := s[i]];
      i := i + 1;
    }
    assert s[..i] == s;
  }

  lemma {:induction false} PutNext(b: seq<Byte>, off: nat, s: seq<Byte>, i: nat)
    requires i < |s| && off + |s| <= |b|
    ensures Put(b, off, s[..i])[off + i := s[i]] == Put(b, off, s[..i + 1])
  {
  }

  /** sprint: the string and a NUL, here always over a NUL. */
  method Sprint(hp: array<Byte>, off: nat, s: seq<Byte>)
    requires off + |s| < hp.Length && hp[off + |s|] == 0
    modifies hp
    ensures hp[..] == Put(old(hp[..]), off, s)
  {
    ghost var b := hp[..];
    Copy(hp, off, s);
    ghost var c := hp[..];
    assert c[off + |s|] == b[off + |s|];
    hp[off + |s|] := 0;
    assert hp[..] == c[off + |s| := 0] == c;
  }

  /** chksum: the checksum field is blanked for the count and then put back. */
  method ChkSumOf(hp: array<Byte>) returns (i: nat)
    requires hp.Length == TBLOCK
    modifies hp
    ensures hp[..] == old(hp[..]) && i == ChkSum(hp[..])
  {
    ghost var b := hp[..];
    var oldsum := hp[CHKSUM..CHKSUM + 8];
    Copy(hp, CHKSUM, Repeat(SPACE, 8));
    ghost var c := hp[..];
    i := 0;
    var n := 0;
    while n < TBLOCK
      invariant 0 <= n <= TBLOCK && hp[..] == c && i == Sum(c[..n])
    {
      assert c[..n + 1][..n] == c[..n];
      i := i + hp[n];
      n := n + 1;
    }
    assert c[..n] == c;
    Copy(hp, CHKSUM, oldsum);
    assert Put(c, CHKSUM, oldsum) == b;
  }

  /** putbe: the low bytes of a number, the last first. */
  method PutBe(hp: array<Byte>, dest: nat, vl: nat, size: nat)
    requires dest + size <= hp.Length
    modifies hp
    ensures hp[..] == Put(old(hp[..]), dest, Be(vl, size))
  {
    hide Put;
    ghost var b, e := hp[..], Be(vl, size);
    var d, v, n := dest + size, vl, size;
    assert e[n..] == [] && Put(b, d, []) == b by {
      PutNothing(b, d);
    }
    while n > 0
      invariant 0 <= n <= size && d == dest + n && hp.Length == |b|
      invariant e[..n] == Be(v, n)
      invariant hp[..] == Put(b, d, e[n..])
    {
      ghost var c := hp[..];
      PutOneMore(b, d, e[n..], v % 256);
      assert e[n - 1] == e[..n][n - 1] == v % 256;
      assert e[..n - 1] == e[..n][..n - 1] == Be(v / 256, n - 1);
      assert e[n - 1..] == [v % 256] + e[n..];
      d, n := d - 1, n - 1;
      hp[d] := v % 256;
      assert hp[..] == c[d := v % 256];
      v := v / 256;
    }
    assert e[0..] == e;
  }

  lemma {:induction false} PutNothing(b: seq<Byte>, d: nat)
    requires d <= |b|
    ensures Put(b, d, []) == b
  {
  }

  /** putfullname: the name, or the two parts of its split, in their fields. */
  method PutFullName(hp: array<Byte>, name: seq<Byte>, ghost fs: seq<seq<Byte>>) returns (ok: bool)
    requires hp.Length == TBLOCK && Shaped(fs) && hp[..] == Flat(fs) && fs[15] == Repeat(0, MAXPFX)
    modifies hp
    ensures ok <==> Storable(name)
    ensures ok ==> hp[..] == Flat(fs[15 := Strncpy(PrefixPart(name), MAXPFX)][0 := Strncpy(NamePart(name), NAMSIZ)])
  {
    hide Flat, Put;
    if |name| <= NAMSIZ {
      ShapedUpdate(fs, 0, Strncpy(name, NAMSIZ));
      FlatField(fs, 0, Strncpy(name, NAMSIZ));
      Copy(hp, NAME, Strncpy(name, NAMSIZ));
      assert Strncpy([], MAXPFX) == fs[15];
      assert fs[15 := fs[15]] == fs;
      return true;
    }
    if |name| > MAXNAME {
      return false;
    }
    var sl := LastSlash(name, |name|);
    while sl.Some? && !(sl.value <= MAXPFX && |name| - 1 - sl.value <= NAMSIZ)
      invariant sl.Some? ==> sl.value < |name| && name[sl.value] == SLASH
      invariant match sl
                case None => SplitBefore(name, |name|) == None
                case Some(k) => SplitBefore(name, |name|) == if k <= MAXPFX && |name| - 1 - k <= NAMSIZ then Some(k)
                                                             else SplitBefore(name, k)
      decreases if sl.Some? then sl.value + 1 else 0
    {
      sl := LastSlash(name, sl.value);
    }
    if sl == None {
      return false;
    }
    FlatField(fs, 15, Strncpy(name[..sl.value], MAXPFX));
    Copy(hp, PREFIX, Strncpy(name[..sl.value], MAXPFX));
    ghost var gs := fs[15 := Strncpy(PrefixPart(name), MAXPFX)];
    ShapedUpdate(fs, 15, Strncpy(PrefixPart(name), MAXPFX));
    ShapedUpdate(gs, 0, Strncpy(NamePart(name), NAMSIZ));
    FlatField(gs, 0, Strncpy(NamePart(name), NAMSIZ));
    Copy(hp, NAME, Strncpy(name[sl.value + 1..], NAMSIZ));
    ok := true;
  }

  lemma {:induction false} ShapedUpdate(fs: seq<seq<Byte>>, i: nat, y: seq<Byte>)
    requires Shaped(fs) && i < 17 && |y| == WIDTHS[i]
    ensures Shaped(fs[i := y]) && y + fs[i][|y|..] == y
  {
  }

  /** The header of a file. */
  ghost predicate Header(b: seq<Byte>, f: File)
    requires Storable(f.name)
  {
    && |b| == TBLOCK && HoldsName(b, f.name)
    && Field(b, MODE, 8) == Strncpy(Padded(f.mode, 6) + [SPACE], 8)
    && Field(b, UID, 8) == Strncpy(Padded(f.uid, 6) + [SPACE], 8)
    && Field(b, GID, 8) == Strncpy(Padded(f.gid, 6) + [SPACE], 8)
    && |SizeField(|f.data|)| == 12 && Field(b, SIZE, 12) == SizeField(|f.data|)
    && Field(b, MTIME, 12) == Strncpy(Padded(f.mtime, 11) + [SPACE], 12)
    && Field(b, LINKFLAG, 1) == [0] && Field(b, VERSION, 2) == [ZERO, ZERO]
    && Field(b, UNAME, 32) == Strncpy(f.owner, 32) && Field(b, GNAME, 32) == Strncpy(f.group, 32)
    && Checks(b) && Field(b, CHKSUM, 8) == Padded(ChkSum(b), 6) + [0, 0]
  }

  /** Where the parts of a header stand, and what they look like, as the format has it. */
  lemma {:induction false} UstarLayout(b: seq<Byte>, f: File)
    requires Storable(f.name) && Header(b, f) && Fits(f)
    ensures |b| == 512 && b[257..263] == [117, 115, 116, 97, 114, 0] && b[263..265] == [48, 48] && b[156] == 0
    ensures |f.name| <= 100 ==> b[..|f.name|] == f.name && forall k :: |f.name| <= k < 100 || 345 <= k < 500 ==> b[k] == 0
    ensures |f.name| > 100 ==> exists i, n :: TwoParts(b, f.name, i, n)
    ensures Numeral(b[100..106], f.mode) && Numeral(b[108..114], f.uid) && Numeral(b[116..122], f.gid)
    ensures Numeral(b[136..147], f.mtime) && Numeral(b[148..154], ChkSum(b)) && b[154] == b[155] == 0
    ensures b[106] == b[114] == b[122] == b[147] == 32
    ensures |f.data| < 0x1_0000_0000 ==> Numeral(b[124..135], |f.data|) && b[135] == 32
    ensures |f.data| >= 0x1_0000_0000 ==>
              b[124] == 128 && b[135] == 32 && forall k :: 0 <= k < 10 ==> b[134 - k] == |f.data| / Pow256(k) % 256
  {
    hide Oct, Padded, SizeField, NamePart, PrefixPart, Storable, ChkSum, Checks, Fits;
    NameLayout(b, f.name);
    NumbersFit(f);
    ChkSumFits(b);
    NumberLayout(b, 100, f.mode, 6, 8);
    NumberLayout(b, 108, f.uid, 6, 8);
    NumberLayout(b, 116, f.gid, 6, 8);
    NumberLayout(b, 136, f.mtime, 11, 12);
    PaddedNumeral(ChkSum(b), 6);
    assert b[148..154] == Field(b, 148, 8)[..6] && b[154] == Field(b, 148, 8)[6] && b[155] == Field(b, 148, 8)[7];
    assert b[156] == Field(b, 156, 1)[0];
    SizeLayout(b, |f.data|);
  }

  /** A long name: the prefix field, a slash and the name field, each up to its end. */
  ghost predicate TwoParts(b: seq<Byte>, name: seq<Byte>, i: nat, n: nat)
    requires |b| == 512
  {
    i <= 155 && n <= 100 && name == b[345..345 + i] + [47] + b[..n]
  }

  /** The octal digits of n, after blanks. */
  ghost predicate Numeral(s: seq<Byte>, n: nat) {
    |Oct(n)| <= |s| && s[|s| - |Oct(n)|..] == Oct(n) && forall k :: 0 <= k < |s| - |Oct(n)| ==> s[k] == 32
  }

  lemma {:induction false} PaddedNumeral(n: nat, w: nat)
    requires |Padded(n, w)| == w
    ensures Numeral(Padded(n, w), n)
  {
    hide Oct;
  }

  lemma {:induction false} NumberLayout(b: seq<Byte>, off: nat, n: nat, w: nat, m: nat)
    requires w < m && off + m <= |b| && |Padded(n, w)| == w && Field(b, off, m) == Strncpy(Padded(n, w) + [SPACE], m)
    ensures Numeral(b[off..off + w], n) && b[off + w] == 32
  {
    hide Padded;
    assert b[off..off + w] == Field(b, off, m)[..w] == Padded(n, w);
    assert b[off + w] == Field(b, off, m)[w];
    PaddedNumeral(n, w);
  }

  lemma {:induction false} SizeLayout(b: seq<Byte>, n: nat)
    requires |b| == 512 && |SizeField(n)| == 12 && Field(b, 124, 12) == SizeField(n)
    ensures n < 0x1_0000_0000 ==> Numeral(b[124..135], n) && b[135] == 32
    ensures n >= 0x1_0000_0000 ==> b[124] == 128 && b[135] == 32 && forall k :: 0 <= k < 10 ==> b[134 - k] == n / Pow256(k) % 256
  {
    hide Padded, Be;
    var z := Field(b, 124, 12);
    assert forall k :: 0 <= k < 12 ==> b[124 + k] == z[k];
    if n < 0x1_0000_0000 {
      assert b[124..135] == z[..11] == Padded(n, 11);
      PaddedNumeral(n, 11);
    } else {
      forall k | 0 <= k < 10
        ensures b[134 - k] == n / Pow256(k) % 256
      {
        BeBytes(n, 10, k);
        assert b[134 - k] == z[10 - k] == Be(n, 10)[9 - k];
      }
    }
  }

  lemma {:induction false} NameLayout(b: seq<Byte>, name: seq<Byte>)
    requires |b| == 512 && Storable(name) && HoldsName(b, name)
    ensures |name| <= 100 ==> b[..|name|] == name && forall k :: |name| <= k < 100 || 345 <= k < 500 ==> b[k] == 0
    ensures |name| > 100 ==> exists i, n :: TwoParts(b, name, i, n)
    ensures b[257..263] == [117, 115, 116, 97, 114, 0]
  {
    hide SplitBefore;
    if |name| <= 100 {
      ShortLayout(b, name);
    } else {
      var k := SplitBefore(name, |name|).value;
      FieldStart(b, 345, 155, name[..k]);
      FieldStart(b, 0, 100, name[k + 1..]);
      assert name == name[..k] + [47] + name[k + 1..];
      assert TwoParts(b, name, k, |name| - 1 - k);
    }
    assert b[257..263] == Field(b, 257, 6) == USTAR + [0];
  }

  lemma {:induction false} ShortLayout(b: seq<Byte>, name: seq<Byte>)
    requires |b| == 512 && |name| <= 100 && HoldsName(b, name)
    ensures b[..|name|] == name && forall k :: |name| <= k < 100 || 345 <= k < 500 ==> b[k] == 0
  {
    var x, y := Field(b, 0, 100), Field(b, 345, 155);
    FieldStart(b, 0, 100, name);
    forall k | |name| <= k < 100 || 345 <= k < 500
      ensures b[k] == 0
    {
      assert k < 100 ==> b[k] == x[k] == 0;
      assert k >= 345 ==> b[k] == y[k - 345] == 0;
    }
  }

  lemma {:induction false} FieldStart(b: seq<Byte>, off: nat, n: nat, s: seq<Byte>)
    requires off + n <= |b| && |s| <= n && Field(b, off, n) == Strncpy(s, n)
    ensures b[off..off + |s|] == s
  {
    assert b[off..off + |s|] == Field(b, off, n)[..|s|];
  }

  ghost function Blank(): (fs: seq<seq<Byte>>)
    ensures Shaped(fs) && forall i :: 0 <= i < 17 ==> fs[i] == Repeat(0, WIDTHS[i])
  {
    seq(17, i requires 0 <= i < 17 => Repeat(0, WIDTHS[i]))
  }

  lemma {:induction false} FlatBlank(fs: seq<seq<Byte>>)
    requires forall i, k :: 0 <= i < |fs| && 0 <= k < |fs[i]| ==> fs[i][k] == 0
    ensures Flat(fs) == Repeat(0, |Flat(fs)|)
  {
    if fs != [] {
      FlatBlank(fs[..|fs| - 1]);
    }
  }

  /** A string stored at the start of a field that is blank; what sprint adds falls on a NUL. */
  method SetField(hp: array<Byte>, off: nat, s: seq<Byte>, ghost fs: seq<seq<Byte>>, ghost i: nat) returns (ghost gs: seq<seq<Byte>>)
    requires hp.Length == TBLOCK && Shaped(fs) && hp[..] == Flat(fs)
    requires i < 16 && off == OFFSETS[i] && |s| <= WIDTHS[i]
    requires fs[i] == Repeat(0, WIDTHS[i]) && fs[i + 1] == Repeat(0, WIDTHS[i + 1])
    modifies hp
    ensures gs == fs[i := Strncpy(s, WIDTHS[i])] && Shaped(gs) && hp[..] == Flat(gs)
  {
    hide Flat, Put, Shaped, Strncpy;
    NextNul(fs, i, s);
    FieldFilled(fs, i, s);
    Sprint(hp, off, s);
    gs := fs[i := Strncpy(s, WIDTHS[i])];
  }

  lemma {:induction false} NextNul(fs: seq<seq<Byte>>, i: nat, s: seq<Byte>)
    requires Shaped(fs) && i < 16 && |s| <= WIDTHS[i]
    requires fs[i] == Repeat(0, WIDTHS[i]) && fs[i + 1] == Repeat(0, WIDTHS[i + 1])
    ensures OFFSETS[i] + |s| < TBLOCK == |Flat(fs)| && Flat(fs)[OFFSETS[i] + |s|] == 0
  {
    hide Flat, Put, Field, Repeat, Shaped;
    FieldsMeet(i);
    if |s| < WIDTHS[i] {
      FlatField(fs, i, s);
      NulAt(Flat(fs), OFFSETS[i], WIDTHS[i], |s|);
    } else {
      FlatField(fs, i + 1, []);
      NulAt(Flat(fs), OFFSETS[i + 1], WIDTHS[i + 1], 0);
    }
  }

  lemma {:induction false} FieldsMeet(i: nat)
    requires i < 16
    ensures OFFSETS[i + 1] == OFFSETS[i] + WIDTHS[i] && WIDTHS[i + 1] > 0
  {
  }

  lemma {:induction false} NulAt(a: seq<Byte>, off: nat, w: nat, k: nat)
    requires k < w && off + w <= |a| && Field(a, off, w) == Repeat(0, w)
    ensures a[off + k] == 0
  {
    assert a[off + k] == Field(a, off, w)[k];
  }

  lemma {:induction false} FieldFilled(fs: seq<seq<Byte>>, i: nat, s: seq<Byte>)
    requires Shaped(fs) && i < 16 && |s| <= WIDTHS[i] && fs[i] == Repeat(0, WIDTHS[i])
    ensures |fs| == 17 && OFFSETS[i] + |s| <= TBLOCK == |Flat(fs)|
    ensures Put(Flat(fs), OFFSETS[i], s) == Flat(fs[i := Strncpy(s, WIDTHS[i])])
    ensures Shaped(fs[i := Strncpy(s, WIDTHS[i])])
  {
    hide Flat, Put;
    FlatField(fs, i, s);
    assert s + fs[i][|s|..] == Strncpy(s, WIDTHS[i]);
  }

  /** The size, in either form. */
  method SetSize(hp: array<Byte>, n: nat, ghost fs: seq<seq<Byte>>) returns (ghost gs: seq<seq<Byte>>)
    requires hp.Length == TBLOCK && Shaped(fs) && hp[..] == Flat(fs)
    requires fs[4] == Repeat(0, 12) && fs[5] == Repeat(0, 12)
    modifies hp
    ensures |SizeField(n)| == 12 && gs == fs[4 := SizeField(n)] && Shaped(gs) && hp[..] == Flat(gs)
  {
    hide Flat, Put;
    SizeFieldLength(n);
    gs := fs[4 := SizeField(n)];
    ShapedUpdate(fs, 4, SizeField(n));
    if n >= 0x1_0000_0000 {
      ghost var b := hp[..];
      FlatField(fs, 4, SizeField(n));
      hp[SIZE] := BINSIZE;
      PutBe(hp, SIZE + 1, n, 10);
      hp[SIZE + 11] := SPACE;
      SizeBytes(b, Be(n, 10));
    } else {
      var g := SetField(hp, SIZE, Padded(n, 11) + [SPACE], fs, 4);
    }
  }

  lemma {:induction false} SizeBytes(b: seq<Byte>, e: seq<Byte>)
    requires |b| == TBLOCK && |e| == 10
    ensures Put(b[SIZE := BINSIZE], SIZE + 1, e)[SIZE + 11 := SPACE] == Put(b, SIZE, [BINSIZE] + e + [SPACE])
  {
  }

  /** mkhdr, into a block of NULs: it fails for a name that does not fit. */
  method MkHdr(hp: array<Byte>, f: File) returns (ok: bool)
    requires hp.Length == TBLOCK && hp[..] == Repeat(0, TBLOCK) && Fits(f)
    modifies hp
    ensures ok <==> Storable(f.name)
    ensures ok ==> Header(hp[..], f)
  {
    hide Flat, Put, Padded, Strncpy, SizeField, HoldsName, Pow8, Fits, Storable, NamePart, PrefixPart, Header;
    ghost var fs := SetNumbers(hp, f);
    FlatField(fs, 7, []);
    assert hp[LINKFLAG] == Field(hp[..], LINKFLAG, 1)[0] == 0;
    ok := PutFullName(hp, f.name, fs);
    if !ok {
      return;
    }
    fs := fs[15 := Strncpy(PrefixPart(f.name), MAXPFX)][0 := Strncpy(NamePart(f.name), NAMSIZ)];
    fs := SetStrings(hp, f, fs);
    Seal(hp, fs, f);
  }

  /** The magic, the version, the owner and the group. */
  method SetStrings(hp: array<Byte>, f: File, ghost fs: seq<seq<Byte>>) returns (ghost gs: seq<seq<Byte>>)
    requires hp.Length == TBLOCK && Shaped(fs) && hp[..] == Flat(fs)
    requires |fs| == 17 && forall i :: 9 <= i <= 13 ==> fs[i] == Repeat(0, WIDTHS[i])
    modifies hp
    ensures Shaped(gs) && hp[..] == Flat(gs)
    ensures gs == fs[9 := Strncpy(USTAR, 6)][10 := Strncpy([ZERO, ZERO], 2)]
                    [11 := Strncpy(Cut(f.owner, 32), 32)][12 := Strncpy(Cut(f.group, 32), 32)]
  {
    hide Flat, Put, Shaped, Strncpy;
    gs := SetField(hp, MAGIC, USTAR, fs, 9);
    gs := SetField(hp, VERSION, [ZERO, ZERO], gs, 10);
    gs := SetField(hp, UNAME, Cut(f.owner, 32), gs, 11);
    gs := SetField(hp, GNAME, Cut(f.group, 32), gs, 12);
  }

  /** The numbers of a header, formatted from left to right. */
  method SetNumbers(hp: array<Byte>, f: File) returns (ghost fs: seq<seq<Byte>>)
    requires hp.Length == TBLOCK && hp[..] == Repeat(0, TBLOCK) && Fits(f)
    modifies hp
    ensures |SizeField(|f.data|)| == 12 && Shaped(fs) && hp[..] == Flat(fs)
    ensures fs == Blank()[1 := Strncpy(Padded(f.mode, 6) + [SPACE], 8)][2 := Strncpy(Padded(f.uid, 6) + [SPACE], 8)]
                         [3 := Strncpy(Padded(f.gid, 6) + [SPACE], 8)][4 := SizeField(|f.data|)]
                         [5 := Strncpy(Padded(f.mtime, 11) + [SPACE], 12)]
  {
    hide Flat, Put, Padded, Strncpy, SizeField, Pow8, Fits;
    fs := Blank();
    FlatBlank(fs);
    FlatLength(fs, 17);
    assert fs[..17] == fs;
    NumbersFit(f);
    fs := SetField(hp, MODE, Padded(f.mode, 6) + [SPACE], fs, 1);
    fs := SetField(hp, UID, Padded(f.uid, 6) + [SPACE], fs, 2);
    fs := SetField(hp, GID, Padded(f.gid, 6) + [SPACE], fs, 3);
    fs := SetSize(hp, |f.data|, fs);
    fs := SetField(hp, MTIME, Padded(f.mtime, 11) + [SPACE], fs, 5);
  }

  /** Every field but the checksum is filled in. */
  ghost predicate Filled(fs: seq<seq<Byte>>, f: File)
    requires Storable(f.name)
  {
    && Shaped(fs)
    && fs[0] == Strncpy(NamePart(f.name), NAMSIZ) && fs[15] == Strncpy(PrefixPart(f.name), MAXPFX)
    && fs[1] == Strncpy(Padded(f.mode, 6) + [SPACE], 8)
    && fs[2] == Strncpy(Padded(f.uid, 6) + [SPACE], 8)
    && fs[3] == Strncpy(Padded(f.gid, 6) + [SPACE], 8)
    && |SizeField(|f.data|)| == 12 && fs[4] == SizeField(|f.data|)
    && fs[5] == Strncpy(Padded(f.mtime, 11) + [SPACE], 12)
    && fs[7] == [0] && fs[9] == Strncpy(USTAR, 6) && fs[10] == Strncpy([ZERO, ZERO], 2)
    && fs[11] == Strncpy(f.owner, 32) && fs[12] == Strncpy(f.group, 32)
  }

  /** A filled header has the fields of the file. */
  lemma {:induction false} FilledHeader(b: seq<Byte>, fs: seq<seq<Byte>>, f: File)
    requires Storable(f.name) && Filled(fs, f) && b == Flat(fs) && |b| == TBLOCK && Checks(b)
    requires Field(b, CHKSUM, 8) == Padded(ChkSum(b), 6) + [0, 0]
    ensures Header(b, f)
  {
    hide Flat, Put, Field, Padded, SizeField, Checks, NamePart, PrefixPart, Storable, ChkSum;
    forall i | 0 <= i < 16
      ensures OFFSETS[i] + WIDTHS[i] <= TBLOCK && Field(b, OFFSETS[i], WIDTHS[i]) == fs[i]
    {
      FlatField(fs, i, []);
    }
    assert Field(b, OFFSETS[0], WIDTHS[0]) == fs[0] && Field(b, OFFSETS[15], WIDTHS[15]) == fs[15];
    assert Field(b, OFFSETS[1], WIDTHS[1]) == fs[1] && Field(b, OFFSETS[2], WIDTHS[2]) == fs[2];
    assert Field(b, OFFSETS[3], WIDTHS[3]) == fs[3] && Field(b, OFFSETS[4], WIDTHS[4]) == fs[4];
    assert Field(b, OFFSETS[5], WIDTHS[5]) == fs[5] && Field(b, OFFSETS[7], WIDTHS[7]) == fs[7];
    assert Field(b, OFFSETS[9], WIDTHS[9]) == fs[9] && Field(b, OFFSETS[10], WIDTHS[10]) == fs[10];
    assert Field(b, OFFSETS[11], WIDTHS[11]) == fs[11] && Field(b, OFFSETS[12], WIDTHS[12]) == fs[12];
  }

  /** The checksum is put in last. */
  method Seal(hp: array<Byte>, ghost fs: seq<seq<Byte>>, ghost f: File)
    requires hp.Length == TBLOCK && Storable(f.name) && Filled(fs, f) && hp[..] == Flat(fs) && fs[6] == Repeat(0, 8)
    modifies hp
    ensures Header(hp[..], f)
  {
    hide Flat, Put, Filled, Header, Checks, ChkSum, Padded;
    FilledShape(fs, f);
    FlatField(fs, 6, []);
    FlatField(fs, 7, []);
    SealedChecks(hp[..]);
    var sum := ChkSumOf(hp);
    ghost var b := hp[..];
    FlatField(fs, 6, Padded(sum, 6));
    assert hp[CHKSUM + 6] == Field(hp[..], CHKSUM, 8)[6];
    Sprint(hp, CHKSUM, Padded(sum, 6));
    ghost var gs := fs[6 := Padded(sum, 6) + fs[6][6..]];
    FilledSum(fs, Padded(sum, 6) + fs[6][6..], f);
    FilledHeader(hp[..], gs, f);
  }

  lemma {:induction false} FilledShape(fs: seq<seq<Byte>>, f: File)
    requires Storable(f.name) && Filled(fs, f)
    ensures Shaped(fs)
  {
  }

  lemma {:induction false} FilledSum(fs: seq<seq<Byte>>, y: seq<Byte>, f: File)
    requires Storable(f.name) && Filled(fs, f) && |y| == 8
    ensures Filled(fs[6 := y], f)
  {
  }

  function Cut(s: seq<Byte>, n: nat): (r: seq<Byte>)
    ensures |r| <= n && Strncpy(r, n) == Strncpy(s, n)
  {
    if |s| > n then s[..n] else s
  }

  lemma {:induction false} NumbersFit(f: File)
    requires Fits(f)
    ensures |Padded(f.mode, 6)| == |Padded(f.uid, 6)| == |Padded(f.gid, 6)| == 6 && |Padded(f.mtime, 11)| == 11
  {
    assert Pow8(3) == 512;
    OctFits(f.mode, 3);
    OctFits(f.uid, 6);
    OctFits(f.gid, 6);
    OctFits(f.mtime, 11);
  }
}
