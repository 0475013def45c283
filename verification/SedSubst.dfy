// The substitution of sed.

/** substitute, dosub and place of sed.c, for any matcher. */
module SedSubst {
  import opened Basics

  type Rune = nat

  const AMP: Rune := 38          // '&'
  const ONE: Rune := 49          // '1'
  const RUNEMAX: Rune := 0x10FFFF
  const MAXSUB := 10

  /** A stretch of the line. */
  datatype Span = Span(start: nat, end: nat)

  /** A match: the stretch matched, and those matched by groups 1 to 9, as far as they took part. */
  datatype Match = Match(span: Span, groups: seq<Option<Span>>)

  /** match(): the first match in the line at or after a place, if there is one. */
  type Matcher = (seq<Rune>, nat) -> Option<Match>

  ghost predicate InLine(s: Span, from: nat, line: seq<Rune>) {
    from <= s.start <= s.end <= |line|
  }

  /** A match lies in the line, at or after the place asked for, and so do its groups in the line. */
  ghost predicate GoodMatch(m: Option<Match>, line: seq<Rune>, from: nat) {
    m.Some? ==>
      && InLine(m.value.span, from, line) && |m.value.groups| == MAXSUB
      && forall g :: 1 <= g < MAXSUB && m.value.groups[g].Some? ==> InLine(m.value.groups[g].value, 0, line)
  }

  ghost predicate GoodMatcher(m: Matcher) {
    forall line, from :: 0 <= from <= |line| ==> GoodMatch(m(line, from), line, from)
  }

  /** A right-hand side as compsub stores it: every RUNEMAX is followed by the rune it escapes. */
  predicate Escaped(rhs: seq<Rune>) {
    rhs != [] ==>
      if rhs[0] == RUNEMAX then |rhs| > 1 && Escaped(rhs[2..]) else Escaped(rhs[1..])
  }

  function Text(line: seq<Rune>, s: Span): seq<Rune>
    requires s.start <= s.end <= |line|
  {
    line[s.start..s.end]
  }

  /** What the right-hand side stands for; None is an invalid back reference. */
  ghost function Expand(rhs: seq<Rune>, line: seq<Rune>, m: Match): Option<seq<Rune>>
    requires Escaped(rhs) && GoodMatch(Some(m), line, 0)
  {
    if rhs == [] then Some([])
    else if rhs[0] == AMP then Before(Some(Text(line, m.span)), Expand(rhs[1..], line, m))
    else if rhs[0] == RUNEMAX then Before(Reference(rhs[1], line, m), Expand(rhs[2..], line, m))
    else Before(Some([rhs[0]]), Expand(rhs[1..], line, m))
  }

  /** An escaped rune: a digit from 1 stands for its group, any other for itself. */
  ghost function Reference(c: Rune, line: seq<Rune>, m: Match): Option<seq<Rune>>
    requires GoodMatch(Some(m), line, 0)
  {
    if ONE <= c < ONE + MAXSUB - 1 then
      (match m.groups[c - ONE + 1]
       case Some(s) => Some(Text(line, s))
       case None => None)
    else Some([c])
  }

  ghost function Before(a: Option<seq<Rune>>, b: Option<seq<Rune>>): Option<seq<Rune>> {
    if a == None || b == None then None else Some(a.value + b.value)
  }

  lemma {:induction false} BeforeAssociative(a: seq<Rune>, b: Option<seq<Rune>>, c: Option<seq<Rune>>)
    ensures Before(Some(a), Before(b, c)) == Before(Before(Some(a), b), c)
  {
    if b.Some? && c.Some? {
      assert a + (b.value + c.value) == (a + b.value) + c.value;
    }
  }

  lemma {:induction false} BeforeEmpty(a: Option<seq<Rune>>)
    ensures Before(Some([]), a) == a && Before(a, Some([])) == a
  {
    if a.Some? {
      assert [] + a.value == a.value && a.value + [] == a.value;
    }
  }

  /**
   * What a right-hand side stands for is put together from its parts: & for the match, an escaped digit from 1 to 9
   * for its group, any other escaped rune and any plain one for itself.
   */
  lemma {:induction false} PartsFilled(c: Rune, a: seq<Rune>, b: seq<Rune>, line: seq<Rune>, m: Match)
    requires Escaped(a) && Escaped(b) && GoodMatch(Some(m), line, 0)
    ensures Expand([], line, m) == Some([]) && Expand([38], line, m) == Some(line[m.span.start..m.span.end])
    ensures c != 38 && c != 0x10FFFF ==> Escaped([c]) && Expand([c], line, m) == Some([c])
    ensures Escaped([0x10FFFF, c]) && Expand([0x10FFFF, c], line, m) ==
            if c < 49 || c > 57 then Some([c])
            else if m.groups[c - 48].None? then None
            else Some(line[m.groups[c - 48].value.start..m.groups[c - 48].value.end])
    ensures Escaped(a + b)
    ensures Expand(a + b, line, m) ==
            if Expand(a, line, m).None? || Expand(b, line, m).None? then None
            else Some(Expand(a, line, m).value + Expand(b, line, m).value)
  {
    hide Escaped, Expand, Reference;
    OnePart(c, line, m);
    ExpandConcat(a, b, line, m);
  }

  lemma {:induction false} OnePart(c: Rune, line: seq<Rune>, m: Match)
    requires GoodMatch(Some(m), line, 0)
    ensures Escaped([]) && Escaped([38]) && Escaped([0x10FFFF, c]) && (c != 0x10FFFF ==> Escaped([c]))
    ensures Expand([], line, m) == Some([])
    ensures m.span.start <= m.span.end <= |line| && Expand([38], line, m) == Some(line[m.span.start..m.span.end])
    ensures c != 38 && c != 0x10FFFF ==> Expand([c], line, m) == Some([c])
    ensures |m.groups| == 10 && Expand([0x10FFFF, c], line, m) ==
            if c < 49 || c > 57 then Some([c])
            else match m.groups[c - 48]
              case None => None
              case Some(s) => if s.start <= s.end <= |line| then Some(line[s.start..s.end]) else None
  {
    var none, one, two: seq<Rune> := [], [c], [0x10FFFF, c];
    assert one[1..] == none && two[2..] == none && [AMP][1..] == none;
    assert Escaped(none) && Expand(none, line, m) == Some([]);
    BeforeEmpty(Some(Text(line, m.span)));
    BeforeEmpty(Some([c]));
    BeforeEmpty(Reference(c, line, m));
  }

  lemma {:induction false} ExpandConcat(a: seq<Rune>, b: seq<Rune>, line: seq<Rune>, m: Match)
    requires Escaped(a) && Escaped(b) && GoodMatch(Some(m), line, 0)
    ensures Escaped(a + b) && Expand(a + b, line, m) == Before(Expand(a, line, m), Expand(b, line, m))
    decreases |a|
  {
    if a == [] {
      assert a + b == b;
      BeforeEmpty(Expand(b, line, m));
    } else {
      var k := if a[0] == RUNEMAX then 2 else 1;
      ExpandConcat(a[k..], b, line, m);
      assert (a + b)[k..] == a[k..] + b && (a + b)[0] == a[0] && (k == 2 ==> (a + b)[1] == a[1]);
      BeforeThree(if a[0] == AMP then Some(Text(line, m.span)) else if k == 2 then Reference(a[1], line, m) else Some([a[0]]),
                  Expand(a[k..], line, m), Expand(b, line, m));
    }
  }

  lemma {:induction false} BeforeThree(a: Option<seq<Rune>>, b: Option<seq<Rune>>, c: Option<seq<Rune>>)
    ensures Before(a, Before(b, c)) == Before(Before(a, b), c)
  {
    if a.Some? {
      BeforeAssociative(a.value, b, c);
    }
  }

  /** place: a stretch of the line is copied. */
  method Place(sp: seq<Rune>, line: seq<Rune>, s: Span) returns (r: seq<Rune>)
    requires s.start <= s.end <= |line|
    ensures r == sp + Text(line, s)
  {
    r := sp;
    var l1 := s.start;
    while l1 < s.end
      invariant s.start <= l1 <= s.end && r == sp + line[s.start..l1]
    {
      assert line[s.start..l1 + 1] == line[s.start..l1] + [line[l1]];
      r := r + [line[l1]];
      l1 := l1 + 1;
    }
  }

  /** dosub: the line with the match replaced, and the place in it after the replacement. */
  method DoSub(line: seq<Rune>, rhs: seq<Rune>, m: Match) returns (r: Option<(seq<Rune>, nat)>)
    requires Escaped(rhs) && GoodMatch(Some(m), line, 0)
    ensures match Expand(rhs, line, m)
            case None => r == None
            case Some(e) => r == Some((line[..m.span.start] + e + line[m.span.end..], m.span.start + |e|))
  {
    hide Reference, Escaped, GoodMatch;
    GoodSpan(line, m);
    var sp := Place([], line, Span(0, m.span.start));
    ghost var prefix := sp;
    assert prefix == line[..m.span.start];
    var rp := 0;
    ghost var e: seq<Rune> := [];
    assert rhs[0..] == rhs;
    BeforeEmpty(Expand(rhs, line, m));
    while rp < |rhs|
      invariant 0 <= rp <= |rhs| && Escaped(rhs[rp..]) && sp == prefix + e
      invariant Expand(rhs, line, m) == Before(Some(e), Expand(rhs[rp..], line, m))
    {
      var c := rhs[rp];
      ExpandStep(rhs, rp, line, m, e);
      rp := rp + 1;
      if c == AMP {
        sp := Place(sp, line, m.span);
        e := e + Text(line, m.span);
      } else if c == RUNEMAX {
        c := rhs[rp];
        rp := rp + 1;
        ReferenceIs(c, line, m);
        if ONE <= c < ONE + MAXSUB - 1 {
          var g := m.groups[c - ONE + 1];
          if g == None {
            return None;
          }
          sp := Place(sp, line, g.value);
          e := e + Text(line, g.value);
        } else {
          sp := sp + [c];
          e := e + [c];
        }
      } else {
        sp := sp + [c];
        e := e + [c];
      }
    }
    assert rhs[rp..] == [];
    BeforeEmpty(Some(e));
    var loc2 := |sp|;
    sp := Place(sp, line, Span(m.span.end, |line|));
    assert line[m.span.end..|line|] == line[m.span.end..];
    r := Some((sp, loc2));
  }

  lemma {:induction false} GoodSpan(line: seq<Rune>, m: Match)
    requires GoodMatch(Some(m), line, 0)
    ensures m.span.start <= m.span.end <= |line| && |m.groups| == MAXSUB
  {
  }

  lemma {:induction false} ReferenceIs(c: Rune, line: seq<Rune>, m: Match)
    requires GoodMatch(Some(m), line, 0)
    ensures ONE <= c < ONE + MAXSUB - 1 && |m.groups| == MAXSUB ==>
      var g := m.groups[c - ONE + 1];
      if g == None then Reference(c, line, m) == None
      else g.value.start <= g.value.end <= |line| && Reference(c, line, m) == Some(Text(line, g.value))
    ensures !(ONE <= c < ONE + MAXSUB - 1) ==> Reference(c, line, m) == Some([c])
  {
  }

  /** One rune, or one escaped rune, of the right-hand side. */
  lemma {:induction false} ExpandStep(rhs: seq<Rune>, rp: nat, line: seq<Rune>, m: Match, e: seq<Rune>)
    requires rp < |rhs| && Escaped(rhs[rp..]) && GoodMatch(Some(m), line, 0)
    ensures if rhs[rp] == RUNEMAX then
              && rp + 1 < |rhs| && Escaped(rhs[rp + 2..])
              && Before(Some(e), Expand(rhs[rp..], line, m)) ==
                 Before(Before(Some(e), Reference(rhs[rp + 1], line, m)), Expand(rhs[rp + 2..], line, m))
            else
              && Escaped(rhs[rp + 1..])
              && m.span.start <= m.span.end <= |line|
              && Before(Some(e), Expand(rhs[rp..], line, m)) ==
                 Before(Some(e + if rhs[rp] == AMP then Text(line, m.span) else [rhs[rp]]), Expand(rhs[rp + 1..], line, m))
  {
    var t := rhs[rp..];
    assert t[1..] == rhs[rp + 1..];
    if rhs[rp] == RUNEMAX {
      assert t[2..] == rhs[rp + 2..];
      BeforeAssociative(e, Reference(rhs[rp + 1], line, m), Expand(t[2..], line, m));
    } else {
      BeforeAssociative(e, Some(if rhs[rp] == AMP then Text(line, m.span) else [rhs[rp]]), Expand(t[1..], line, m));
    }
  }

  /** What substitute comes to: there is no match, or the new line, or an invalid back reference. */
  datatype Result = Unmatched | Changed(line: seq<Rune>) | BadReference

  /**
   * The reference: done is final, and the rest is searched from its start. Each match is replaced, and after
   * an empty one the next rune is passed over. There is no search at the end of the line.
   */
  ghost function ReplaceAll(m: Matcher, rhs: seq<Rune>, done: seq<Rune>, rest: seq<Rune>): Result
    requires GoodMatcher(m) && Escaped(rhs)
    decreases |rest|
  {
    var line := done + rest;
    match m(line, |done|)
    case None => Changed(line)
    case Some(f) =>
      assert GoodMatch(m(line, |done|), line, |done|);
      match Expand(rhs, line, f)
      case None => BadReference
      case Some(e) =>
        var done1, rest1 := line[..f.span.start] + e, line[f.span.end..];
        if rest1 == [] then Changed(done1)
        else if f.span.start < f.span.end then ReplaceAll(m, rhs, done1, rest1)
        else if |rest1| == 1 then Changed(done1 + rest1)
        else ReplaceAll(m, rhs, done1 + rest1[..1], rest1[1..])
  }

  ghost function ReplaceFirst(m: Matcher, rhs: seq<Rune>, line: seq<Rune>): Result
    requires GoodMatcher(m) && Escaped(rhs)
  {
    match m(line, 0)
    case None => Unmatched
    case Some(f) =>
      assert GoodMatch(m(line, 0), line, 0);
      match Expand(rhs, line, f)
      case None => BadReference
      case Some(e) => Changed(line[..f.span.start] + e + line[f.span.end..])
  }

  /** substitute, with or without its g flag. */
  method Substitute(line0: seq<Rune>, rhs: seq<Rune>, m: Matcher, gfl: bool) returns (r: Result)
    requires GoodMatcher(m) && Escaped(rhs)
    ensures r == if gfl && m(line0, 0).Some? then ReplaceAll(m, rhs, [], line0) else ReplaceFirst(m, rhs, line0)
  {
    hide Expand, Escaped;
    var line := line0;
    var f := m(line, 0);
    GoodAt(m, line, 0);
    if f == None {
      return Unmatched;
    }
    if !gfl {
      var d := DoSub(line, rhs, f.value);
      return if d == None then BadReference else Changed(d.value.0);
    }
    var from := 0;
    assert line[..0] == [] && line[0..] == line;
    while true
      invariant 0 <= from <= |line| && f == m(line, from) && f.Some?
      invariant ReplaceAll(m, rhs, [], line0) == ReplaceAll(m, rhs, line[..from], line[from..])
      decreases |line| - from
    {
      GoodAt(m, line, from);
      assert line[..from] + line[from..] == line;
      var len := f.value.span.end - f.value.span.start;
      var d := DoSub(line, rhs, f.value);
      if d == None {
        return BadReference;
      }
      ghost var s, e := f.value.span, Expand(rhs, line, f.value).value;
      SplitLine(line, s, e);
      ghost var before := line;
      line := d.value.0;
      var loc2 := d.value.1;
      if loc2 == |line| {
        return Changed(line);
      }
      if len == 0 {
        BumpLine(line, loc2);
        loc2 := loc2 + 1;
      }
      if loc2 == |line| {
        return Changed(line);
      }
      from := loc2;
      f := m(line, from);
      if f == None {
        assert line[..from] + line[from..] == line;
        return Changed(line);
      }
    }
  }

  lemma {:induction false} GoodAt(m: Matcher, line: seq<Rune>, from: nat)
    requires GoodMatcher(m) && from <= |line|
    ensures GoodMatch(m(line, from), line, from) && GoodMatch(m(line, from), line, 0)
  {
  }

  lemma {:induction false} SplitLine(line: seq<Rune>, s: Span, e: seq<Rune>)
    requires s.start <= s.end <= |line|
    ensures var l := line[..s.start] + e + line[s.end..];
            && l[..s.start + |e|] == line[..s.start] + e && l[s.start + |e|..] == line[s.end..]
            && |l| - (s.start + |e|) == |line| - s.end
  {
  }

  lemma {:induction false} BumpLine(line: seq<Rune>, k: nat)
    requires k < |line|
    ensures line[..k] + line[k..][..1] == line[..k + 1] && line[k..][1..] == line[k + 1..]
    ensures line[..k + 1] + line[k + 1..] == line == line[..k] + line[k..]
  {
  }

  // ----- what the reference means -----

  /** What follows a replacement. */
  ghost function Going(m: Matcher, rhs: seq<Rune>, done1: seq<Rune>, rest1: seq<Rune>, some: bool): Result
    requires GoodMatcher(m) && Escaped(rhs)
  {
    if rest1 == [] then Changed(done1)
    else if some then ReplaceAll(m, rhs, done1, rest1)
    else if |rest1| == 1 then Changed(done1 + rest1)
    else ReplaceAll(m, rhs, done1 + rest1[..1], rest1[1..])
  }

  lemma {:induction false} ReplaceStep(m: Matcher, rhs: seq<Rune>, done: seq<Rune>, rest: seq<Rune>, f: Match, e: seq<Rune>)
    requires GoodMatcher(m) && Escaped(rhs) && m(done + rest, |done|) == Some(f)
    requires GoodMatch(Some(f), done + rest, 0) && Expand(rhs, done + rest, f) == Some(e)
    ensures f.span.start <= f.span.end <= |done| + |rest|
    ensures ReplaceAll(m, rhs, done, rest) ==
            Going(m, rhs, (done + rest)[..f.span.start] + e, (done + rest)[f.span.end..], f.span.start < f.span.end)
  {
    hide Expand;
    GoodAt(m, done + rest, |done|);
  }

  lemma {:induction false} ReplaceStop(m: Matcher, rhs: seq<Rune>, done: seq<Rune>, rest: seq<Rune>)
    requires GoodMatcher(m) && Escaped(rhs) && m(done + rest, |done|) == None
    ensures ReplaceAll(m, rhs, done, rest) == Changed(done + rest)
  {
  }

  /** Replacing each match by itself, s/re/&/g, leaves the line alone. */
  lemma {:induction false} AmpersandKeeps(m: Matcher, done: seq<Rune>, rest: seq<Rune>)
    requires GoodMatcher(m)
    ensures ReplaceAll(m, [AMP], done, rest) == Changed(done + rest)
    decreases |rest|
  {
    var line := done + rest;
    GoodAt(m, line, |done|);
    if m(line, |done|).Some? {
      var f := m(line, |done|).value;
      ExpandAmpersand(line, f);
      var done1, rest1 := line[..f.span.start] + Text(line, f.span), line[f.span.end..];
      assert done1 + rest1 == line;
      if rest1 != [] {
        if f.span.start < f.span.end {
          AmpersandKeeps(m, done1, rest1);
        } else if |rest1| > 1 {
          assert done1 + rest1[..1] + rest1[1..] == line;
          AmpersandKeeps(m, done1 + rest1[..1], rest1[1..]);
        }
      }
    }
  }

  lemma {:induction false} ExpandAmpersand(line: seq<Rune>, f: Match)
    requires GoodMatch(Some(f), line, 0)
    ensures Expand([AMP], line, f) == Some(Text(line, f.span))
  {
    assert [AMP][1..] == [];
    BeforeEmpty(Some(Text(line, f.span)));
  }

  /** A right-hand side without special runes. */
  predicate PlainRhs(rhs: seq<Rune>) {
    AMP !in rhs && RUNEMAX !in rhs
  }

  lemma {:induction false} ExpandPlain(rhs: seq<Rune>, line: seq<Rune>, f: Match)
    requires PlainRhs(rhs) && GoodMatch(Some(f), line, 0)
    ensures Escaped(rhs) && Expand(rhs, line, f) == Some(rhs)
  {
    if rhs != [] {
      ExpandPlain(rhs[1..], line, f);
      assert [rhs[0]] + rhs[1..] == rhs;
    }
  }

  lemma {:induction false} PlainEscaped(rhs: seq<Rune>)
    requires PlainRhs(rhs)
    ensures Escaped(rhs)
  {
    if rhs != [] {
      PlainEscaped(rhs[1..]);
    }
  }

  function FirstOf(line: seq<Rune>, from: nat, c: Rune): (r: Option<nat>)
    requires from <= |line|
    ensures r.Some? ==> from <= r.value < |line| && line[r.value] == c && c !in line[from..r.value]
    ensures r.None? ==> c !in line[from..]
    decreases |line| - from
  {
    if from == |line| then None
    else if line[from] == c then Some(from)
    else
      var t := FirstOf(line, from + 1, c);
      assert t.Some? ==> line[from..t.value] == [line[from]] + line[from + 1..t.value];
      assert line[from..] == [line[from]] + line[from + 1..];
      t
  }

  function NoGroups(): (g: seq<Option<Span>>)
    ensures |g| == MAXSUB && forall i :: 0 <= i < MAXSUB ==> g[i] == None
  {
    seq(MAXSUB, _ => None)
  }

  /** The matcher of the one rune c. */
  function Literal(c: Rune): Matcher {
    (line: seq<Rune>, from: nat) =>
      if from > |line| then None else
      match FirstOf(line, from, c)
      case Some(i) => Some(Match(Span(i, i + 1), NoGroups()))
      case None => None
  }

  /** Every c in the line replaced. */
  function EachReplaced(line: seq<Rune>, c: Rune, rhs: seq<Rune>): seq<Rune> {
    if line == [] then [] else (if line[0] == c then rhs else [line[0]]) + EachReplaced(line[1..], c, rhs)
  }

  lemma {:induction false} EachConcat(a: seq<Rune>, b: seq<Rune>, c: Rune, rhs: seq<Rune>)
    requires c !in a
    ensures EachReplaced(a + b, c, rhs) == a + EachReplaced(b, c, rhs)
  {
    if a == [] {
      assert a + b == b;
    } else {
      assert (a + b)[1..] == a[1..] + b;
      EachConcat(a[1..], b, c, rhs);
    }
  }

  lemma {:induction false} LiteralGood(c: Rune)
    ensures GoodMatcher(Literal(c))
  {
  }

  /** s/c/rhs/g replaces each c of the line by rhs, also when rhs holds a c or is empty. */
  lemma {:induction false} LiteralReplaced(c: Rune, rhs: seq<Rune>, done: seq<Rune>, rest: seq<Rune>)
    requires PlainRhs(rhs)
    ensures GoodMatcher(Literal(c)) && Escaped(rhs)
    ensures ReplaceAll(Literal(c), rhs, done, rest) == Changed(done + EachReplaced(rest, c, rhs))
    decreases |rest|
  {
    hide ReplaceAll, Expand, Escaped, GoodMatcher;
    LiteralGood(c);
    PlainEscaped(rhs);
    var m := Literal(c);
    var line := done + rest;
    assert line[|done|..] == rest;
    match FirstOf(line, |done|, c) {
      case None =>
        ReplaceStop(m, rhs, done, rest);
        EachConcat(rest, [], c, rhs);
        assert rest + [] == rest;
      case Some(i) =>
        var f := Match(Span(i, i + 1), NoGroups());
        ExpandPlain(rhs, line, f);
        ReplaceStep(m, rhs, done, rest, f, rhs);
        var k := i - |done|;
        LiteralParts(done, rest, k, c, rhs);
        if k + 1 < |rest| {
          LiteralReplaced(c, rhs, line[..i] + rhs, rest[k + 1..]);
        }
    }
  }

  lemma {:induction false} LiteralParts(done: seq<Rune>, rest: seq<Rune>, k: nat, c: Rune, rhs: seq<Rune>)
    requires k < |rest| && rest[k] == c && c !in (done + rest)[|done|..|done| + k]
    ensures (done + rest)[|done| + k + 1..] == rest[k + 1..]
    ensures done + EachReplaced(rest, c, rhs) == (done + rest)[..|done| + k] + rhs + EachReplaced(rest[k + 1..], c, rhs)
  {
    var a, b := rest[..k], rest[k..];
    assert (done + rest)[|done|..|done| + k] == a && (done + rest)[..|done| + k] == done + a;
    EachConcat(a, b, c, rhs);
    assert rest == a + b && b[1..] == rest[k + 1..];
  }

  /** The matcher of the empty expression. */
  function Empty(): Matcher {
    (line: seq<Rune>, from: nat) => if from > |line| then None else Some(Match(Span(from, from), NoGroups()))
  }

  function Interleaved(line: seq<Rune>, rhs: seq<Rune>): seq<Rune> {
    if line == [] then [] else rhs + [line[0]] + Interleaved(line[1..], rhs)
  }

  /** An expression that matches only nothing: rhs comes before every rune and, unless the line is empty, not at its end. */
  lemma {:induction false} EmptyReplaced(rhs: seq<Rune>, done: seq<Rune>, rest: seq<Rune>)
    requires PlainRhs(rhs)
    ensures GoodMatcher(Empty()) && Escaped(rhs)
    ensures ReplaceAll(Empty(), rhs, done, rest) == Changed(done + if rest == [] then rhs else Interleaved(rest, rhs))
    decreases |rest|
  {
    hide ReplaceAll, Expand, Escaped;
    PlainEscaped(rhs);
    var line := done + rest;
    var f := Match(Span(|done|, |done|), NoGroups());
    ExpandPlain(rhs, line, f);
    ReplaceStep(Empty(), rhs, done, rest, f, rhs);
    assert line[..|done|] == done && line[|done|..] == rest;
    if rest != [] {
      var t := rest[1..];
      var done1 := done + rhs + rest[..1];
      if t == [] {
        assert Interleaved(t, rhs) == [] && rest[..1] == [rest[0]];
        assert done + rhs + rest == done + (rhs + [rest[0]] + []);
      } else {
        EmptyReplaced(rhs, done1, t);
        assert done1 + Interleaved(t, rhs) == done + (rhs + [rest[0]] + Interleaved(t, rhs));
      }
    }
  }

  /** A match further along the line. */
  function Shifted(f: Option<Match>, k: nat): Option<Match> {
    match f
    case None => None
    case Some(g) =>
      Some(Match(ShiftedSpan(g.span, k),
                 seq(|g.groups|, i requires 0 <= i < |g.groups| =>
                   if g.groups[i].Some? then Some(ShiftedSpan(g.groups[i].value, k)) else None)))
  }

  function ShiftedSpan(s: Span, k: nat): Span {
    Span(s.start + k, s.end + k)
  }

  /** A matcher that looks at nothing before the place it starts from. */
  ghost predicate LooksAhead(m: Matcher) {
    forall line, k :: 0 <= k <= |line| ==> m(line, k) == Shifted(m(line[k..], 0), k)
  }

  lemma {:induction false} ExpandShifted(rhs: seq<Rune>, line: seq<Rune>, k: nat, f: Match)
    requires Escaped(rhs) && k <= |line| && GoodMatch(Some(f), line[k..], 0)
    ensures GoodMatch(Shifted(Some(f), k), line, k) && GoodMatch(Shifted(Some(f), k), line, 0)
    ensures Expand(rhs, line, Shifted(Some(f), k).value) == Expand(rhs, line[k..], f)
  {
    var g := Shifted(Some(f), k).value;
    assert Text(line, g.span) == Text(line[k..], f.span);
    if rhs != [] {
      if rhs[0] == RUNEMAX {
        ExpandShifted(rhs[2..], line, k, f);
        var c := rhs[1];
        if ONE <= c < ONE + MAXSUB - 1 {
          var h := f.groups[c - ONE + 1];
          if h.Some? {
            assert Text(line, ShiftedSpan(h.value, k)) == Text(line[k..], h.value);
          }
        }
      } else {
        ExpandShifted(rhs[1..], line, k, f);
      }
    }
  }

  function After(done: seq<Rune>, r: Result): Result {
    if r.Changed? then Changed(done + r.line) else r
  }

  /** For a matcher that looks only ahead, g rewrites each suffix on its own: what is done plays no part. */
  lemma {:induction false} SuffixAlone(m: Matcher, rhs: seq<Rune>, done: seq<Rune>, rest: seq<Rune>)
    requires GoodMatcher(m) && LooksAhead(m) && Escaped(rhs)
    ensures ReplaceAll(m, rhs, done, rest) == After(done, ReplaceAll(m, rhs, [], rest))
    decreases |rest|
  {
    hide Expand, Escaped, GoodMatcher, GoodMatch, Going;
    var line := done + rest;
    var k := |done|;
    assert line[k..] == rest && [] + rest == rest;
    GoodAt(m, rest, 0);
    if m(rest, 0).Some? {
      var f := m(rest, 0).value;
      ExpandShifted(rhs, line, k, f);
      var g := Shifted(Some(f), k).value;
      if Expand(rhs, rest, f).Some? {
        var e := Expand(rhs, rest, f).value;
        ReplaceStep(m, rhs, done, rest, g, e);
        ReplaceStep(m, rhs, [], rest, f, e);
        var d1, r1 := rest[..f.span.start] + e, rest[f.span.end..];
        assert line[..g.span.start] + e == done + d1 && line[g.span.end..] == r1;
        SuffixStep(m, rhs, done, d1, r1, f.span.start < f.span.end, |rest|);
      }
    }
  }

  lemma {:induction false} SuffixStep(m: Matcher, rhs: seq<Rune>, done: seq<Rune>, d: seq<Rune>, rest: seq<Rune>, some: bool, n: nat)
    requires GoodMatcher(m) && LooksAhead(m) && Escaped(rhs) && |rest| <= n && (some ==> |rest| < n)
    ensures Going(m, rhs, done + d, rest, some) == After(done, Going(m, rhs, d, rest, some))
    decreases n, 0
  {
    if rest != [] {
      if some {
        SuffixAlone(m, rhs, done + d, rest);
        SuffixAlone(m, rhs, d, rest);
        AfterAfter(done, d, ReplaceAll(m, rhs, [], rest));
      } else if |rest| == 1 {
        assert done + d + rest == done + (d + rest);
      } else {
        SuffixAlone(m, rhs, done + d + rest[..1], rest[1..]);
        SuffixAlone(m, rhs, d + rest[..1], rest[1..]);
        assert done + d + rest[..1] == done + (d + rest[..1]);
        AfterAfter(done, d + rest[..1], ReplaceAll(m, rhs, [], rest[1..]));
      }
    }
  }

  lemma {:induction false} AfterAfter(a: seq<Rune>, b: seq<Rune>, r: Result)
    ensures After(a + b, r) == After(a, After(b, r))
  {
    if r.Changed? {
      assert a + b + r.line == a + (b + r.line);
    }
  }
}
