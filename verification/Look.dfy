// Looking a word up in a sorted dictionary file.

/** locate, acomp, getword and the printing loop of look.c. */
module Look {
  import opened Basics
  import opened Order

  type Word = seq<int>

  /** What becomes of the text of a line, once decoded and reduced to its canonical form. */
  type Canon = seq<Byte> -> Word

  const NEWLINE: Byte := 10

  // ----- comparison -----

  /** What acomp says: 2 and -2 if neither is a prefix of the other, 1 and -1 if one is, 0 if they are the same. */
  ghost function Acomp(s: Word, t: Word): (c: int)
  {
    if s == t then 0
    else if IsPrefix(s, t) then -1
    else if IsPrefix(t, s) then 1
    else if Compare(s, t) < 0 then -2
    else 2
  }

  /** acomp: the two strings are followed to where they differ or one ends. */
  method AcompLoop(s: Word, t: Word) returns (c: int)
    ensures c == Acomp(s, t)
  {
    var i := 0;
    while i < |s| && i < |t| && s[i] == t[i]
      invariant 0 <= i <= |s| && i <= |t| && s[..i] == t[..i]
    {
      assert s[..i + 1] == s[..i] + [s[i]] && t[..i + 1] == t[..i] + [t[i]];
      i := i + 1;
    }
    CommonIs(s, t, i);
    assert s[..|s|] == s && t[..|t|] == t;
    DifferAt(s, t, i);
    if i == |s| && i == |t| {
      c := 0;
    } else if i == |s| {
      c := -1;
    } else if i == |t| {
      c := 1;
    } else if s[i] < t[i] {
      c := -2;
    } else {
      c := 2;
    }
  }

  lemma {:induction false} PrefixIndex(p: Word, s: Word)
    ensures IsPrefix(p, s) ==> forall k :: 0 <= k < |p| ==> p[k] == s[k]
  {
    if IsPrefix(p, s) {
      forall k | 0 <= k < |p|
        ensures p[k] == s[k]
      {
        assert s[..|p|][k] == p[k];
      }
    }
  }

  /** Strings that differ at i are not prefixes of each other. */
  lemma {:induction false} DifferAt(s: Word, t: Word, i: nat)
    requires i <= |s| && i <= |t| && s[..i] == t[..i]
    requires i < |s| && i < |t| ==> s[i] != t[i]
    ensures i < |s| && i < |t| ==> !IsPrefix(s, t) && !IsPrefix(t, s) && s != t
    ensures i == |s| < |t| ==> IsPrefix(s, t) && s != t
    ensures i == |t| < |s| ==> IsPrefix(t, s) && !IsPrefix(s, t)
    ensures i == |s| == |t| ==> s == t
  {
    PrefixIndex(s, t);
    PrefixIndex(t, s);
    if i < |s| && i < |t| {
    } else if i == |s| {
      assert s[..i] == s;
    } else {
      assert t[..i] == t;
    }
  }

  lemma {:induction false} PrefixCompares(p: Word, s: Word)
    requires IsPrefix(p, s)
    ensures Compare(p, s) <= 0
  {
    CommonIs(p, s, |p|);
  }

  lemma {:induction false} CompareTail(a: Word, b: Word)
    requires a != [] && b != [] && a[0] == b[0]
    ensures Compare(a, b) == Compare(a[1..], b[1..])
  {
    var n := Common(a[1..], b[1..]);
    assert a[..n + 1] == [a[0]] + a[1..][..n];
    assert b[..n + 1] == [b[0]] + b[1..][..n];
    CommonIs(a, b, n + 1);
  }

  lemma {:induction false} CompareHead(a: Word, b: Word)
    requires a != [] && b != [] && a[0] != b[0]
    ensures Compare(a, b) == if a[0] < b[0] then -1 else 1
  {
    CommonIs(a, b, 0);
  }

  lemma {:induction false} CompareEmpty(a: Word)
    ensures a != [] ==> Compare(a, []) == 1
  {
    CommonIs(a, [], 0);
  }

  /** The words with a prefix are together: between it and one of them there are no others. */
  lemma {:induction false} PrefixBetween(key: Word, v: Word, w: Word)
    requires Compare(key, v) <= 0 && Compare(v, w) <= 0 && IsPrefix(key, w)
    ensures IsPrefix(key, v)
    decreases |key|
  {
    hide Compare;
    if key != [] {
      CompareEmpty(key);
      assert w[..|key|][0] == w[0];
      assert v != [];
      if key[0] != v[0] {
        CompareHead(key, v);
        CompareHead(v, w);
      } else {
        CompareTail(key, v);
        CompareTail(v, w);
        assert w[1..][..|key| - 1] == w[..|key|][1..];
        PrefixBetween(key[1..], v[1..], w[1..]);
        assert v[..|key|] == [v[0]] + v[1..][..|key| - 1];
      }
    }
  }

  // ----- lines -----

  /** The first newline from p on. */
  function LineEnd(f: seq<Byte>, p: nat): (e: Option<nat>)
    requires p <= |f|
    ensures e.Some? ==> p <= e.value < |f| && f[e.value] == 10 && forall k :: p <= k < e.value ==> f[k] != 10
    ensures e.None? ==> forall k :: p <= k < |f| ==> f[k] != 10
    decreases |f| - p
  {
    if p == |f| then None else if f[p] == NEWLINE then Some(p) else LineEnd(f, p + 1)
  }

  /** A line begins at p, and a newline ends it. */
  ghost predicate Line(f: seq<Byte>, p: nat) {
    p <= |f| && (p == 0 || f[p - 1] == NEWLINE) && LineEnd(f, p).Some?
  }

  /** The canonical word of a line. */
  ghost function WordAt(f: seq<Byte>, canon: Canon, p: nat): Word
    requires Line(f, p)
  {
    canon(f[p..LineEnd(f, p).value])
  }

  /** The dictionary is in the order of its words. */
  ghost predicate Sorted(f: seq<Byte>, canon: Canon) {
    forall p, q :: 0 <= p < q && Line(f, p) && Line(f, q) ==> Compare(WordAt(f, canon, p), WordAt(f, canon, q)) <= 0
  }

  /** getword: the text of a line and the place after it; None at the end, also of a line with no newline. */
  method GetWord(f: seq<Byte>, pos: nat) returns (line: Option<seq<Byte>>, next: nat)
    requires pos <= |f|
    ensures pos <= next <= |f|
    ensures match LineEnd(f, pos)
            case None => line == None
            case Some(e) => line == Some(f[pos..e]) && next == e + 1
  {
    next := pos;
    while next < |f| && f[next] != NEWLINE
      invariant pos <= next <= |f| && LineEnd(f, pos) == LineEnd(f, next)
    {
      next := next + 1;
    }
    if next == |f| {
      return None, next;
    }
    line, next := Some(f[pos..next]), next + 1;
  }

  /** The resynchronisation of locate: runes are passed up to and with the next newline. */
  method SkipLine(f: seq<Byte>, pos: nat) returns (next: nat)
    requires pos <= |f|
    ensures pos <= next <= |f| && (pos < |f| ==> pos < next)
    ensures match LineEnd(f, pos)
            case None => next == |f|
            case Some(e) => next == e + 1
  {
    next := pos;
    while next < |f| && f[next] != NEWLINE
      invariant pos <= next <= |f| && LineEnd(f, pos) == LineEnd(f, next)
    {
      next := next + 1;
    }
    if next < |f| {
      next := next + 1;
    }
  }

  /** A line looked for: its word begins with the key, or under -x is the key. */
  ghost predicate Hit(f: seq<Byte>, canon: Canon, key: Word, exact: bool, p: nat)
    requires Line(f, p)
  {
    if exact then WordAt(f, canon, p) == key else IsPrefix(key, WordAt(f, canon, p))
  }

  /** Every line before bot sorts before the key. */
  ghost predicate Below(f: seq<Byte>, canon: Canon, key: Word, bot: nat) {
    forall p :: 0 <= p < bot && Line(f, p) ==> Compare(WordAt(f, canon, p), key) < 0
  }

  lemma {:induction false} AcompMeans(key: Word, w: Word)
    ensures Acomp(key, w) > 0 ==> Compare(w, key) < 0
    ensures Acomp(key, w) <= 0 ==> Compare(key, w) <= 0
    ensures Acomp(key, w) == 0 || Acomp(key, w) == -1 <==> IsPrefix(key, w)
    ensures Acomp(key, w) == 0 <==> key == w
    ensures -2 <= Acomp(key, w) <= 2
  {
    CompareAntisymmetric(key, w);
    if IsPrefix(key, w) {
      PrefixCompares(key, w);
    }
    if IsPrefix(w, key) {
      PrefixCompares(w, key);
    }
    assert key[..|key|] == key;
    assert IsPrefix(key, w) && IsPrefix(w, key) ==> w == key by {
      assert w[..|w|] == w;
    }
  }

  /** A line whose word sorts before the key: so do all lines before it. */
  lemma {:induction false} BelowTo(f: seq<Byte>, canon: Canon, key: Word, mid: nat)
    requires Sorted(f, canon) && Line(f, mid) && Compare(WordAt(f, canon, mid), key) < 0
    ensures Below(f, canon, key, mid + 1)
  {
    hide Compare;
    forall p | 0 <= p < mid && Line(f, p)
      ensures Compare(WordAt(f, canon, p), key) < 0
    {
      CompareTransitive(WordAt(f, canon, p), WordAt(f, canon, mid), key);
    }
  }

  /** Lines begin right after the end of another, or not at all in between. */
  lemma {:induction false} NoLineBetween(f: seq<Byte>, p: nat, q: nat)
    requires Line(f, p) && p < q <= LineEnd(f, p).value
    ensures !Line(f, q)
  {
  }

  lemma {:induction false} NoLineAfter(f: seq<Byte>, p: nat, q: nat)
    requires p <= |f| && LineEnd(f, p) == None && p <= q
    ensures !Line(f, q)
  {
    if q <= |f| {
      NoEndAfter(f, p, q);
    }
  }

  lemma {:induction false} NoEndAfter(f: seq<Byte>, p: nat, q: nat)
    requires p <= q <= |f| && LineEnd(f, p) == None
    ensures LineEnd(f, q) == None
    decreases q - p
  {
    if p < q {
      NoEndAfter(f, p + 1, q);
    }
  }

  /**
   * locate. The search ends for any file; on a sorted one it leaves bot such that every line before it sorts
   * before the key, and the scan from there finds the first line that does not.
   */
  method Locate(f: seq<Byte>, canon: Canon, key: Word, exact: bool) returns (found: bool, at: nat, pos: nat)
    ensures Sorted(f, canon) ==> (found <==> exists p :: Line(f, p) && Hit(f, canon, key, exact, p))
    ensures found ==> Line(f, at) && Hit(f, canon, key, exact, at) && pos == LineEnd(f, at).value + 1
    ensures found && Sorted(f, canon) ==> Below(f, canon, key, at)
  {
    hide Acomp, Compare, Sorted, Below, Hit;
    at := 0;
    var bot := BinarySearch(f, canon, key);
    pos := bot;
    while true
      invariant 0 <= pos <= |f| && (pos == 0 || f[pos - 1] == NEWLINE)
      invariant Sorted(f, canon) ==> Below(f, canon, key, pos)
      decreases |f| - pos
    {
      var start := pos;
      var line;
      line, pos := GetWord(f, pos);
      if line == None {
        Exhausted(f, canon, key, exact, start);
        return false, at, pos;
      }
      assert Line(f, start);
      var word := canon(line.value);
      var n := AcompLoop(key, word);
      AcompMeans(key, word);
      if n == -2 || (n == -1 && exact) {
        Missed(f, canon, key, exact, start);
        return false, at, pos;
      }
      if n == -1 || n == 0 {
        assert Hit(f, canon, key, exact, start) by {
          HitNow(f, canon, key, exact, start);
        }
        return true, start, pos;
      }
      BelowNext(f, canon, key, start);
    }
  }

  lemma {:induction false} HitNow(f: seq<Byte>, canon: Canon, key: Word, exact: bool, p: nat)
    requires Line(f, p) && IsPrefix(key, WordAt(f, canon, p)) && (exact ==> key == WordAt(f, canon, p))
    ensures Hit(f, canon, key, exact, p)
  {
  }

  lemma {:induction false} BelowNext(f: seq<Byte>, canon: Canon, key: Word, p: nat)
    requires Line(f, p) && Compare(WordAt(f, canon, p), key) < 0
    ensures Below(f, canon, key, p) ==> Below(f, canon, key, LineEnd(f, p).value + 1)
  {
    hide Compare;
    forall q | p < q <= LineEnd(f, p).value
      ensures !Line(f, q)
    {
      NoLineBetween(f, p, q);
    }
  }

  /** No line is left: none is a hit. */
  lemma {:induction false} Exhausted(f: seq<Byte>, canon: Canon, key: Word, exact: bool, p: nat)
    requires p <= |f| && LineEnd(f, p) == None
    ensures Below(f, canon, key, p) ==> forall q :: 0 <= q && Line(f, q) ==> !Hit(f, canon, key, exact, q)
  {
    forall q: nat | p <= q
      ensures !Line(f, q)
    {
      NoLineAfter(f, p, q);
    }
    if Below(f, canon, key, p) {
      forall q | 0 <= q && Line(f, q)
        ensures !Hit(f, canon, key, exact, q)
      {
        BelowNoHit(f, canon, key, exact, q);
      }
    }
  }

  lemma {:induction false} BelowNoHit(f: seq<Byte>, canon: Canon, key: Word, exact: bool, q: nat)
    requires Line(f, q) && Compare(WordAt(f, canon, q), key) < 0
    ensures !Hit(f, canon, key, exact, q)
  {
    var w := WordAt(f, canon, q);
    CompareAntisymmetric(key, w);
    assert w == key ==> IsPrefix(key, w) by {
      assert key[..|key|] == key;
    }
    if IsPrefix(key, w) {
      PrefixCompares(key, w);
    }
  }

  /** The first line not before the key is no hit: then none is. */
  lemma {:induction false} Missed(f: seq<Byte>, canon: Canon, key: Word, exact: bool, p: nat)
    requires Line(f, p) && Compare(key, WordAt(f, canon, p)) <= 0 && key != WordAt(f, canon, p)
    requires !exact ==> !IsPrefix(key, WordAt(f, canon, p))
    ensures Sorted(f, canon) && Below(f, canon, key, p) ==> forall q :: 0 <= q && Line(f, q) ==> !Hit(f, canon, key, exact, q)
  {
    if Sorted(f, canon) && Below(f, canon, key, p) {
      forall q | 0 <= q && Line(f, q)
        ensures !Hit(f, canon, key, exact, q)
      {
        if q < p {
          BelowNoHit(f, canon, key, exact, q);
        } else {
          MissedAfter(f, canon, key, exact, p, q);
        }
      }
    }
  }

  lemma {:induction false} MissedAfter(f: seq<Byte>, canon: Canon, key: Word, exact: bool, p: nat, q: nat)
    requires Sorted(f, canon) && Line(f, p) && Line(f, q) && p <= q
    requires Compare(key, WordAt(f, canon, p)) <= 0 && key != WordAt(f, canon, p)
    requires !exact ==> !IsPrefix(key, WordAt(f, canon, p))
    ensures !Hit(f, canon, key, exact, q)
  {
    hide Compare, LineEnd;
    var v, w := WordAt(f, canon, p), WordAt(f, canon, q);
    if p < q {
      assert Compare(v, w) <= 0;
      if exact {
        CompareTransitive(key, v, w);
        assert Compare(key, key) == 0;
      } else if IsPrefix(key, w) {
        PrefixBetween(key, v, w);
      }
    }
  }

  /** The first loop of locate; the gap from bot to top shrinks at every turn. */
  method BinarySearch(f: seq<Byte>, canon: Canon, key: Word) returns (bot: nat)
    ensures bot <= |f| && (bot == 0 || f[bot - 1] == NEWLINE)
    ensures Sorted(f, canon) ==> Below(f, canon, key, bot)
  {
    hide Acomp, Compare, Sorted, Below, LineEnd;
    bot := 0;
    var top := |f|;
    BelowNone(f, canon, key);
    while true
      invariant 0 <= bot <= top <= |f| && (bot == 0 || f[bot - 1] == NEWLINE) && (bot == top ==> |f| == 0)
      invariant top < |f| ==> 0 < top && Line(f, top) && Acomp(key, WordAt(f, canon, top)) <= 0
      invariant Sorted(f, canon) ==> Below(f, canon, key, bot)
      decreases top - bot
    {
      var mid := (top + bot) / 2;
      EndBefore(f, mid, top);
      mid := SkipLine(f, mid);
      var line, next := GetWord(f, mid);
      if line == None {
        return;
      }
      assert Line(f, mid);
      var word := canon(line.value);
      var n := AcompLoop(key, word);
      AcompMeans(key, word);
      if n <= 0 {
        if top <= mid {
          return;
        }
        top := mid;
      } else {
        if Sorted(f, canon) {
          BelowTo(f, canon, key, mid);
          BelowLess(f, canon, key, mid);
        }
        bot := mid;
      }
    }
  }

  /** The next newline comes before a line that begins further on. */
  lemma {:induction false} EndBefore(f: seq<Byte>, p: nat, q: nat)
    requires p <= |f|
    ensures p < q && Line(f, q) ==> LineEnd(f, p).Some? && LineEnd(f, p).value < q
  {
  }

  lemma {:induction false} BelowNone(f: seq<Byte>, canon: Canon, key: Word)
    ensures Below(f, canon, key, 0)
  {
  }

  lemma {:induction false} BelowLess(f: seq<Byte>, canon: Canon, key: Word, p: nat)
    requires Below(f, canon, key, p + 1)
    ensures Below(f, canon, key, p)
  {
  }

  // ----- printing -----

  /** The hits from line p on, in order. */
  ghost function Hits(f: seq<Byte>, canon: Canon, key: Word, exact: bool, p: nat): seq<nat>
    requires p <= |f| && (p == 0 || f[p - 1] == NEWLINE)
    decreases |f| - p
  {
    match LineEnd(f, p)
    case None => []
    case Some(e) =>
      assert Line(f, p);
      (if Hit(f, canon, key, exact, p) then [p] else []) + Hits(f, canon, key, exact, e + 1)
  }

  lemma {:induction false} HitsSkip(f: seq<Byte>, canon: Canon, key: Word, exact: bool, p: nat, q: nat)
    requires p <= q <= |f| && (p == 0 || f[p - 1] == NEWLINE) && (q == 0 || f[q - 1] == NEWLINE)
    requires forall x :: p <= x < q && Line(f, x) ==> !Hit(f, canon, key, exact, x)
    ensures Hits(f, canon, key, exact, p) == Hits(f, canon, key, exact, q)
    decreases q - p
  {
    hide Hit;
    if p < q {
      var e := LineEnd(f, p);
      assert e.Some? && e.value < q;
      assert Line(f, p);
      HitsSkip(f, canon, key, exact, e.value + 1, q);
    }
  }

  lemma {:induction false} NoHits(f: seq<Byte>, canon: Canon, key: Word, exact: bool, p: nat)
    requires p <= |f| && (p == 0 || f[p - 1] == NEWLINE)
    requires forall x :: p <= x && Line(f, x) ==> !Hit(f, canon, key, exact, x)
    ensures Hits(f, canon, key, exact, p) == []
    decreases |f| - p
  {
    hide Hit;
    if LineEnd(f, p).Some? {
      assert Line(f, p);
      NoHits(f, canon, key, exact, LineEnd(f, p).value + 1);
    }
  }

  /** After a line that is no hit, but sorts after the key, there are none. */
  lemma {:induction false} HitsOver(f: seq<Byte>, canon: Canon, key: Word, exact: bool, p: nat)
    requires Sorted(f, canon) && Line(f, p) && Compare(key, WordAt(f, canon, p)) <= 0 && key != WordAt(f, canon, p)
    requires !exact ==> !IsPrefix(key, WordAt(f, canon, p))
    ensures Hits(f, canon, key, exact, p) == []
  {
    forall q | p <= q && Line(f, q)
      ensures !Hit(f, canon, key, exact, q)
    {
      MissedAfter(f, canon, key, exact, p, q);
    }
    NoHits(f, canon, key, exact, p);
  }

  /**
   * What look prints for one string: on a sorted dictionary, every line whose word begins with the key, in
   * order. Under -x the first line whose word is the key is printed, and the further ones only if the string
   * given was its own canonical form.
   */
  method Print(f: seq<Byte>, canon: Canon, orig: Word, key: Word, exact: bool) returns (out: seq<nat>)
    ensures Sorted(f, canon) ==>
              var hits := Hits(f, canon, key, exact, 0);
              out == if exact && orig != key && hits != [] then hits[..1] else hits
  {
    hide Hits, Hit, Sorted, Below, Compare, LineEnd, Acomp;
    out := [];
    var found, at, pos := Locate(f, canon, key, exact);
    if !found {
      if Sorted(f, canon) {
        NotFoundHits(f, canon, key, exact);
      }
      return;
    }
    if Sorted(f, canon) {
      FirstHit(f, canon, key, exact, at);
    }
    out := [at];
    while true
      invariant 0 <= pos <= |f| && (pos == 0 || f[pos - 1] == NEWLINE)
      invariant out != [] && out[0] == at && Line(f, at) && Hit(f, canon, key, exact, at) && at < pos
      invariant Sorted(f, canon) ==>
        if exact && orig != key then out == [at] && Hits(f, canon, key, exact, 0) != [] && Hits(f, canon, key, exact, 0)[0] == at
        else Hits(f, canon, key, exact, 0) == out + Hits(f, canon, key, exact, pos)
      decreases |f| - pos
    {
      var start := pos;
      var entry;
      entry, pos := GetWord(f, pos);
      if entry == None {
        EndHits(f, canon, key, exact, start);
        return;
      }
      assert Line(f, start);
      var word := canon(entry.value);
      var n := AcompLoop(key, word);
      AcompMeans(key, word);
      NextHit(f, canon, key, exact, start);
      if Sorted(f, canon) {
        NotLess(f, canon, key, exact, at, start);
      }
      if n == 0 || (n == -1 && !exact) {
        if !exact || word == orig {
          out := out + [start];
        }
        continue;
      }
      if n <= 0 && Sorted(f, canon) {
        HitsOver(f, canon, key, exact, start);
      }
      return;
    }
  }

  lemma {:induction false} NotFoundHits(f: seq<Byte>, canon: Canon, key: Word, exact: bool)
    requires !exists p :: Line(f, p) && Hit(f, canon, key, exact, p)
    ensures Hits(f, canon, key, exact, 0) == []
  {
    hide Hit;
    NoHits(f, canon, key, exact, 0);
  }

  lemma {:induction false} FirstHit(f: seq<Byte>, canon: Canon, key: Word, exact: bool, at: nat)
    requires Line(f, at) && Hit(f, canon, key, exact, at) && Below(f, canon, key, at)
    ensures Hits(f, canon, key, exact, 0) == [at] + Hits(f, canon, key, exact, LineEnd(f, at).value + 1)
  {
    hide Hit, Compare;
    forall x | 0 <= x < at && Line(f, x)
      ensures !Hit(f, canon, key, exact, x)
    {
      BelowNoHit(f, canon, key, exact, x);
    }
    HitsSkip(f, canon, key, exact, 0, at);
  }

  lemma {:induction false} EndHits(f: seq<Byte>, canon: Canon, key: Word, exact: bool, p: nat)
    requires p <= |f| && (p == 0 || f[p - 1] == NEWLINE) && LineEnd(f, p) == None
    ensures Hits(f, canon, key, exact, p) == []
  {
  }

  lemma {:induction false} NextHit(f: seq<Byte>, canon: Canon, key: Word, exact: bool, p: nat)
    requires Line(f, p)
    ensures var w := WordAt(f, canon, p);
            Hits(f, canon, key, exact, p) ==
            (if if exact then w == key else IsPrefix(key, w) then [p] else []) +
            Hits(f, canon, key, exact, LineEnd(f, p).value + 1)
  {
  }

  lemma {:induction false} NotLess(f: seq<Byte>, canon: Canon, key: Word, exact: bool, at: nat, p: nat)
    requires Sorted(f, canon) && Line(f, at) && Line(f, p) && at < p && Hit(f, canon, key, exact, at)
    ensures Acomp(key, WordAt(f, canon, p)) <= 0
  {
    hide Compare, Acomp;
    var v, w := WordAt(f, canon, at), WordAt(f, canon, p);
    assert v == key ==> IsPrefix(key, v) by {
      assert v[..|v|] == v;
    }
    PrefixCompares(key, v);
    CompareTransitive(key, v, w);
    AcompMeans(key, w);
    CompareAntisymmetric(key, w);
  }
}
