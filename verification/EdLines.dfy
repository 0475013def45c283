// The line index of ed: tokens in an array, edited in place, with a mark in bit 0.

/** append, rdelete, gdelete, move, reverse, join, the undo of a substitution, and the g loop of ed.c. */
module EdLines {

  /** A token of the temporary file; ed keeps its mark in bit 0, which putline leaves clear. */
  type Token = nat

  predicate Marked(t: Token) {
    t % 2 == 1
  }

  /** t & ~01 */
  function Unmark(t: Token): (u: Token)
    ensures !Marked(u) && u / 2 == t / 2
  {
    t - t % 2
  }

  /** Slots zero to dol, of which the first is not a line, and the current slot. */
  datatype Buf = Buf(slots: seq<Token>, dot: int)

  /** The state a command leaves, and whether it succeeded or ended in error(). */
  datatype Outcome = Outcome(buf: Buf, ok: bool)

  /**
   * What a command does to the index once its addresses and text are known. Tokens in a command come from
   * putline, or, for Undo, from an earlier line.
   */
  datatype Edit =
    | Append(a: int, toks: seq<Token>)
    | Delete(a1: int, a2: int)
    | Change(a1: int, a2: int, toks: seq<Token>)
    | Move(a1: int, a2: int, t: int)
    | Copy(a1: int, a2: int, t: int, toks: seq<Token>)
    | Replace(a: int, tok: Token, toks: seq<Token>)
    | Join(a1: int, a2: int, tok: Token)
    | Undo(a: int, subnewa: Token, subolda: Token)
    | Goto(a: int)
    | Init

  ghost predicate Even(s: seq<Token>) {
    forall k :: 0 <= k < |s| ==> !Marked(s[k])
  }

  /** The tokens a command brings are unmarked, and there is one for each line copied. */
  ghost predicate Plain(e: Edit) {
    match e
    case Append(_, toks) => Even(toks)
    case Change(_, _, toks) => Even(toks)
    case Copy(a1, a2, _, toks) => Even(toks) && (a1 <= a2 ==> |toks| == a2 - a1 + 1)
    case Replace(_, tok, toks) => !Marked(tok) && Even(toks)
    case Join(_, _, tok) => !Marked(tok)
    case Undo(_, _, subolda) => !Marked(subolda)
    case _ => true
  }

  /** squeeze(1) lets the command pass. */
  predicate InRange(b: Buf, a1: int, a2: int) {
    1 <= a1 <= a2 < |b.slots|
  }

  /** The marks of slots a1 to a2 cleared. */
  function Cleared(s: seq<Token>, a1: int, a2: int): (r: seq<Token>)
    ensures |r| == |s|
  {
    seq(|s|, i requires 0 <= i < |s| => if a1 <= i <= a2 then Unmark(s[i]) else s[i])
  }

  function Inserted(s: seq<Token>, a: int, toks: seq<Token>): seq<Token>
    requires 0 <= a < |s|
  {
    s[..a + 1] + toks + s[a + 1..]
  }

  function Without(s: seq<Token>, a1: int, a2: int): seq<Token>
    requires 1 <= a1 <= a2 < |s|
  {
    s[..a1] + s[a2 + 1..]
  }

  function Min(a: int, b: int): int {
    if a < b then a else b
  }

  /** Slots a1 to a2 taken out and put back right after slot t, which is not one of them. */
  function Moved(s: seq<Token>, a1: int, a2: int, t: int): seq<Token>
    requires 1 <= a1 <= a2 < |s| && 0 <= t < |s| && !(a1 <= t <= a2)
  {
    Inserted(Without(s, a1, a2), if t < a1 then t else t - (a2 - a1 + 1), s[a1..a2 + 1])
  }

  /** The specification of a command. Only a move that fails leaves a trace: its marks are gone. */
  function Do(b: Buf, e: Edit): (o: Outcome)
    requires |b.slots| > 0
    ensures |o.buf.slots| > 0
  {
    var s := b.slots;
    match e
    case Append(a, toks) =>
      if 0 <= a < |s| then Outcome(Buf(Inserted(s, a, toks), a + |toks|), true) else Outcome(b, false)
    case Delete(a1, a2) =>
      if InRange(b, a1, a2) then
        Outcome(Buf(Without(s, a1, a2), Min(a1, |s| - 1 - (a2 - a1 + 1))), true)
      else Outcome(b, false)
    case Change(a1, a2, toks) =>
      if InRange(b, a1, a2) then
        Outcome(Buf(s[..a1] + toks + s[a2 + 1..], a1 - 1 + |toks|), true)
      else Outcome(b, false)
    case Move(a1, a2, t) =>
      if !(InRange(b, a1, a2) && 0 <= t < |s|) then Outcome(b, false)
      else if a1 <= t <= a2 then Outcome(b.(slots := Cleared(s, a1, a2)), false)
      else Outcome(Buf(Moved(Cleared(s, a1, a2), a1, a2, t), if t < a1 then t + (a2 - a1 + 1) else t), true)
    case Copy(a1, a2, t, toks) =>
      if InRange(b, a1, a2) && 0 <= t < |s| then
        Outcome(Buf(Inserted(s, t, toks), t + |toks|), true)
      else Outcome(b, false)
    case Replace(a, tok, toks) =>
      if InRange(b, a, a) then
        Outcome(Buf(s[..a] + [tok] + toks + s[a + 1..], a + |toks|), true)
      else Outcome(b, false)
    case Join(a1, a2, tok) =>
      if InRange(b, a1, a2) then Outcome(Buf(s[..a1] + [tok] + s[a2 + 1..], a1), true) else Outcome(b, false)
    case Undo(a, subnewa, subolda) =>
      if InRange(b, a, a) && Unmark(s[a]) == subnewa then Outcome(Buf(s[a := subolda], a), true)
      else Outcome(b, false)
    case Goto(a) =>
      if 0 <= a < |s| then Outcome(b.(dot := a), true) else Outcome(b, false)
    case Init =>
      Outcome(Buf(s[..1], 0), true)
  }

  /** Commands one after another, up to the first error. */
  function DoAll(b: Buf, es: seq<Edit>): Outcome
    requires |b.slots| > 0
    ensures |DoAll(b, es).buf.slots| > 0
    decreases |es|
  {
    if es == [] then Outcome(b, true) else
    var o := Do(b, es[0]);
    if o.ok then DoAll(o.buf, es[1..]) else o
  }

  /** The slots each command leaves, one by one, where dot is after it, and when it is refused. */
  lemma {:induction false} CommandSlots(b: Buf, e: Edit)
    requires |b.slots| > 0
    ensures var s, o := b.slots, Do(b, e);
            var r := o.buf.slots;
            match e
            case Append(a, toks) =>
              (o.ok <==> 0 <= a < |s|) && (o.ok ==> Spliced(s, r, a + 1, 0, toks) && o.buf.dot == a + |toks|)
            case Delete(a1, a2) =>
              && (o.ok <==> 1 <= a1 <= a2 < |s|)
              && (o.ok ==> Spliced(s, r, a1, a2 - a1 + 1, []) && o.buf.dot == if a1 < |r| then a1 else |r| - 1)
            case Change(a1, a2, toks) =>
              && (o.ok <==> 1 <= a1 <= a2 < |s|)
              && (o.ok ==> Spliced(s, r, a1, a2 - a1 + 1, toks) && o.buf.dot == a1 - 1 + |toks|)
            case Copy(a1, a2, t, toks) =>
              && (o.ok <==> 1 <= a1 <= a2 < |s| && 0 <= t < |s|)
              && (o.ok ==> Spliced(s, r, t + 1, 0, toks) && o.buf.dot == t + |toks|)
            case Replace(a, tok, toks) =>
              (o.ok <==> 1 <= a < |s|) && (o.ok ==> Spliced(s, r, a, 1, [tok] + toks) && o.buf.dot == a + |toks|)
            case Join(a1, a2, tok) =>
              (o.ok <==> 1 <= a1 <= a2 < |s|) && (o.ok ==> Spliced(s, r, a1, a2 - a1 + 1, [tok]) && o.buf.dot == a1)
            case Undo(a, subnewa, subolda) =>
              && (o.ok <==> 1 <= a < |s| && s[a] - s[a] % 2 == subnewa)
              && (o.ok ==> Spliced(s, r, a, 1, [subolda]) && o.buf.dot == a)
            case Goto(a) => (o.ok <==> 0 <= a < |s|) && r == s && (o.ok ==> o.buf.dot == a)
            case Init => o.ok && |r| == 1 && r[0] == s[0] && o.buf.dot == 0
            case Move(a1, a2, t) => o.ok <==> 1 <= a1 <= a2 < |s| && 0 <= t < |s| && !(a1 <= t <= a2)
    ensures !Do(b, e).ok && !e.Move? ==> Do(b, e).buf == b
  {
    hide Cleared, Moved, Spliced;
    var s := b.slots;
    match e {
      case Append(a, toks) => SplicedIs(s, a + 1, 0, toks);
      case Delete(a1, a2) => SplicedOut(s, a1, a2 - a1 + 1);
      case Change(a1, a2, toks) => SplicedIs(s, a1, a2 - a1 + 1, toks);
      case Copy(_, _, t, toks) => SplicedIs(s, t + 1, 0, toks);
      case Replace(a, tok, toks) => SplicedTwo(s, a, tok, toks);
      case Join(a1, a2, tok) => SplicedIs(s, a1, a2 - a1 + 1, [tok]);
      case Undo(a, _, subolda) => SplicedOne(s, a, subolda);
      case _ =>
    }
  }

  lemma {:induction false} SplicedIs(s: seq<Token>, i: int, n: int, toks: seq<Token>)
    ensures 0 <= i && 0 <= n && i + n <= |s| ==> Spliced(s, s[..i] + toks + s[i + n..], i, n, toks)
  {
  }

  lemma {:induction false} SplicedOut(s: seq<Token>, i: int, n: int)
    ensures 0 <= i && 0 <= n && i + n <= |s| ==> Spliced(s, s[..i] + s[i + n..], i, n, [])
  {
  }

  lemma {:induction false} SplicedTwo(s: seq<Token>, i: int, tok: Token, toks: seq<Token>)
    ensures 0 <= i < |s| ==> Spliced(s, s[..i] + [tok] + toks + s[i + 1..], i, 1, [tok] + toks)
  {
    if 0 <= i < |s| {
      assert s[..i] + [tok] + toks + s[i + 1..] == s[..i] + ([tok] + toks) + s[i + 1..];
    }
  }

  lemma {:induction false} SplicedOne(s: seq<Token>, i: int, tok: Token)
    ensures 0 <= i < |s| ==> Spliced(s, s[i := tok], i, 1, [tok])
  {
  }

  /** r is s with the n slots from i on replaced by toks. */
  ghost predicate Spliced(s: seq<Token>, r: seq<Token>, i: int, n: int, toks: seq<Token>) {
    && 0 <= i && 0 <= n && i + n <= |s| && |r| == |s| - n + |toks|
    && (forall k :: 0 <= k < i ==> r[k] == s[k])
    && (forall k :: 0 <= k < |toks| ==> r[i + k] == toks[k])
    && (forall k :: i + n <= k < |s| ==> r[k - n + |toks|] == s[k])
  }

  /** How many slots are marked. */
  function Marks(s: seq<Token>): nat {
    if s == [] then 0 else Marks(s[..|s| - 1]) + if Marked(s[|s| - 1]) then 1 else 0
  }

  lemma {:induction false} MarksConcat(s: seq<Token>, t: seq<Token>)
    ensures Marks(s + t) == Marks(s) + Marks(t)
  {
    if t == [] {
      assert s + t == s;
    } else {
      MarksConcat(s, t[..|t| - 1]);
      assert (s + t)[..|s + t| - 1] == s + t[..|t| - 1];
    }
  }

  lemma {:induction false} MarksEven(s: seq<Token>)
    ensures Even(s) <==> Marks(s) == 0
  {
    if s != [] {
      MarksEven(s[..|s| - 1]);
      assert forall k :: 0 <= k < |s| - 1 ==> s[k] == s[..|s| - 1][k];
      assert Even(s) <==> Even(s[..|s| - 1]) && !Marked(s[|s| - 1]);
    }
  }

  lemma {:induction false} MarksSplit(s: seq<Token>, i: int)
    requires 0 <= i <= |s|
    ensures Marks(s) == Marks(s[..i]) + Marks(s[i..])
  {
    MarksConcat(s[..i], s[i..]);
    assert s == s[..i] + s[i..];
  }

  lemma {:induction false} MarksUpdate(s: seq<Token>, i: int, t: Token)
    requires 0 <= i < |s|
    ensures Marks(s[i := t]) == Marks(s) - (if Marked(s[i]) then 1 else 0) + if Marked(t) then 1 else 0
  {
    MarksSplit(s, i + 1);
    MarksSplit(s[i := t], i + 1);
    assert s[i := t][i + 1..] == s[i + 1..];
    assert s[i := t][..i + 1][..i] == s[..i + 1][..i];
  }

  lemma {:induction false} MarksCleared(s: seq<Token>, a1: int, a2: int)
    ensures Marks(Cleared(s, a1, a2)) <= Marks(s)
  {
    if s != [] {
      MarksCleared(s[..|s| - 1], a1, a2);
      assert Cleared(s, a1, a2)[..|s| - 1] == Cleared(s[..|s| - 1], a1, a2);
    }
  }

  lemma {:induction false} MarksInserted(s: seq<Token>, a: int, toks: seq<Token>)
    requires 0 <= a < |s|
    ensures Marks(Inserted(s, a, toks)) == Marks(s) + Marks(toks)
  {
    MarksSplit(s, a + 1);
    MarksConcat(s[..a + 1] + toks, s[a + 1..]);
    MarksConcat(s[..a + 1], toks);
  }

  lemma {:induction false} MarksWithout(s: seq<Token>, a1: int, a2: int)
    requires 1 <= a1 <= a2 < |s|
    ensures Marks(Without(s, a1, a2)) + Marks(s[a1..a2 + 1]) == Marks(s)
  {
    hide Marks;
    MarksSplit(s, a1);
    MarksSplit(s[a1..], a2 + 1 - a1);
    assert s[a1..][..a2 + 1 - a1] == s[a1..a2 + 1] && s[a1..][a2 + 1 - a1..] == s[a2 + 1..];
    MarksConcat(s[..a1], s[a2 + 1..]);
  }

  /** Tokens between two parts of the slots, in place of what was there. */
  lemma {:induction false} MarksReplaced(s: seq<Token>, a1: int, a2: int, toks: seq<Token>)
    requires 1 <= a1 <= a2 < |s| && Even(toks)
    ensures Marks(s[..a1] + toks + s[a2 + 1..]) <= Marks(s)
  {
    MarksEven(toks);
    MarksWithout(s, a1, a2);
    MarksConcat(s[..a1] + toks, s[a2 + 1..]);
    MarksConcat(s[..a1], toks);
    MarksConcat(s[..a1], s[a2 + 1..]);
  }

  /** No command sets a mark. */
  lemma {:induction false} DoSetsNoMark(b: Buf, e: Edit)
    requires |b.slots| > 0 && Plain(e)
    ensures Marks(Do(b, e).buf.slots) <= Marks(b.slots)
  {
    hide Marks;
    var s := b.slots;
    if Do(b, e).ok {
      match e {
        case Append(a, toks) =>
          MarksInserted(s, a, toks);
          MarksEven(toks);
        case Delete(a1, a2) => MarksWithout(s, a1, a2);
        case Change(a1, a2, toks) => MarksReplaced(s, a1, a2, toks);
        case Move(a1, a2, t) => MoveSetsNoMark(s, a1, a2, t);
        case Copy(_, _, t, toks) =>
          MarksInserted(s, t, toks);
          MarksEven(toks);
        case Replace(a, tok, toks) =>
          MarksReplaced(s, a, a, [tok] + toks);
          assert s[..a] + ([tok] + toks) + s[a + 1..] == s[..a] + [tok] + toks + s[a + 1..];
        case Join(a1, a2, tok) => MarksReplaced(s, a1, a2, [tok]);
        case Undo(a, _, subolda) => MarksUpdate(s, a, subolda);
        case Goto(_) =>
        case Init => MarksSplit(s, 1);
      }
    } else if e.Move? {
      MarksCleared(s, e.a1, e.a2);
    }
  }

  lemma {:induction false} MoveSetsNoMark(s: seq<Token>, a1: int, a2: int, t: int)
    requires 1 <= a1 <= a2 < |s| && 0 <= t < |s| && !(a1 <= t <= a2)
    ensures Marks(Moved(Cleared(s, a1, a2), a1, a2, t)) <= Marks(s)
  {
    hide Marks;
    var c := Cleared(s, a1, a2);
    MarksCleared(s, a1, a2);
    MarksWithout(c, a1, a2);
    MarksInserted(Without(c, a1, a2), if t < a1 then t else t - (a2 - a1 + 1), c[a1..a2 + 1]);
  }

  lemma {:induction false} DoAllSetsNoMark(b: Buf, es: seq<Edit>)
    requires |b.slots| > 0 && forall i :: 0 <= i < |es| ==> Plain(es[i])
    ensures Marks(DoAll(b, es).buf.slots) <= Marks(b.slots)
    decreases |es|
  {
    hide Do, Marks, Plain;
    if es != [] {
      DoSetsNoMark(b, es[0]);
      if Do(b, es[0]).ok {
        DoAllSetsNoMark(Do(b, es[0]).buf, es[1..]);
      }
    }
  }

  /** The first marked slot, or the number of slots. */
  function FirstMark(s: seq<Token>): (i: nat)
    ensures i <= |s| && (i < |s| ==> Marked(s[i]))
    ensures forall k :: 0 <= k < i ==> !Marked(s[k])
  {
    if s == [] || Marked(s[0]) then 0 else 1 + FirstMark(s[1..])
  }

  /** What the command list of a g does at its n-th line: any edits, whatever they depend on. */
  type Script = (nat, Buf) -> seq<Edit>

  ghost predicate PlainScript(f: Script) {
    forall n, b, i :: 0 <= i < |f(n, b)| ==> Plain(f(n, b)[i])
  }

  /** The marks of slot j cleared, and j made current: how each turn of the g loop begins. */
  function Visit(b: Buf, j: nat): (c: Buf)
    requires j < |b.slots|
  {
    Buf(b.slots[j := Unmark(b.slots[j])], j)
  }

  /** One turn of the g loop leaves fewer marks. */
  lemma {:induction false} TurnLosesAMark(b: Buf, f: Script, n: nat)
    requires PlainScript(f) && FirstMark(b.slots) < |b.slots|
    ensures Marks(DoAll(Visit(b, FirstMark(b.slots)), f(n, Visit(b, FirstMark(b.slots)))).buf.slots) < Marks(b.slots)
  {
    var j := FirstMark(b.slots);
    var c := Visit(b, j);
    MarksUpdate(b.slots, j, Unmark(b.slots[j]));
    DoAllSetsNoMark(c, f(n, c));
  }

  /** The g loop: as long as a slot is marked, its mark is cleared and the commands are run there. */
  ghost function GLoop(b: Buf, f: Script, n: nat): Outcome
    requires |b.slots| > 0 && PlainScript(f)
    decreases Marks(b.slots)
  {
    var j := FirstMark(b.slots);
    if j == |b.slots| then Outcome(b, true) else
    var c := Visit(b, j);
    var o := DoAll(c, f(n, c));
    TurnLosesAMark(b, f, n);
    if o.ok then GLoop(o.buf, f, n + 1) else o
  }

  lemma {:induction false} ScriptPlain(f: Script, n: nat, b: Buf)
    requires PlainScript(f)
    ensures forall i :: 0 <= i < |f(n, b)| ==> Plain(f(n, b)[i])
  {
  }

  lemma {:induction false} FirstMarkIs(s: seq<Token>, i: nat)
    requires i < |s| && Marked(s[i]) && forall k :: 0 <= k < i ==> !Marked(s[k])
    ensures FirstMark(s) == i
  {
  }

  lemma {:induction false} NoFirstMark(s: seq<Token>)
    requires forall k :: 0 <= k < |s| ==> !Marked(s[k])
    ensures FirstMark(s) == |s|
  {
  }

  /** Commands leave slot zero alone. */
  lemma {:induction false} DoAllKeepsZero(b: Buf, es: seq<Edit>)
    requires |b.slots| > 0
    ensures DoAll(b, es).buf.slots[0] == b.slots[0]
    decreases |es|
  {
    hide Do;
    if es != [] {
      DoKeepsZero(b, es[0]);
      if Do(b, es[0]).ok {
        DoAllKeepsZero(Do(b, es[0]).buf, es[1..]);
      }
    }
  }

  lemma {:induction false} DoKeepsZero(b: Buf, e: Edit)
    requires |b.slots| > 0
    ensures Do(b, e).buf.slots[0] == b.slots[0]
  {
    hide Do, Spliced;
    CommandSlots(b, e);
    var s, r := b.slots, Do(b, e).buf.slots;
    match e {
      case Append(a, toks) => SplicedZero(s, r, a + 1, 0, toks);
      case Delete(a1, a2) => SplicedZero(s, r, a1, a2 - a1 + 1, []);
      case Change(a1, a2, toks) => SplicedZero(s, r, a1, a2 - a1 + 1, toks);
      case Move(a1, a2, t) => MoveKeepsZero(b, a1, a2, t);
      case Copy(_, _, t, toks) => SplicedZero(s, r, t + 1, 0, toks);
      case Replace(a, tok, toks) => SplicedZero(s, r, a, 1, [tok] + toks);
      case Join(a1, a2, tok) => SplicedZero(s, r, a1, a2 - a1 + 1, [tok]);
      case Undo(a, _, subolda) => SplicedZero(s, r, a, 1, [subolda]);
      case Goto(_) =>
      case Init =>
    }
  }

  lemma {:induction false} SplicedZero(s: seq<Token>, r: seq<Token>, i: int, n: int, toks: seq<Token>)
    ensures Spliced(s, r, i, n, toks) && i > 0 ==> r[0] == s[0]
  {
  }

  lemma {:induction false} MoveKeepsZero(b: Buf, a1: int, a2: int, t: int)
    requires |b.slots| > 0
    ensures Do(b, Move(a1, a2, t)).buf.slots[0] == b.slots[0]
  {
  }

  /** A g that does not fail leaves no mark. */
  lemma {:induction false} GLoopClears(b: Buf, f: Script, n: nat)
    requires |b.slots| > 0 && PlainScript(f)
    ensures GLoop(b, f, n).ok ==> Even(GLoop(b, f, n).buf.slots)
    decreases Marks(b.slots)
  {
    var j := FirstMark(b.slots);
    if j < |b.slots| {
      var c := Visit(b, j);
      TurnLosesAMark(b, f, n);
      if DoAll(c, f(n, c)).ok {
        GLoopClears(DoAll(c, f(n, c)).buf, f, n + 1);
      }
    }
  }

  /** The unmarked slots, in order. */
  function Unmarked(s: seq<Token>): (r: seq<Token>)
    ensures |r| <= |s|
  {
    if s == [] then [] else
    Unmarked(s[..|s| - 1]) + if Marked(s[|s| - 1]) then [] else [s[|s| - 1]]
  }

  lemma {:induction false} UnmarkedConcat(s: seq<Token>, t: seq<Token>)
    ensures Unmarked(s + t) == Unmarked(s) + Unmarked(t)
  {
    if t == [] {
      assert s + t == s;
    } else {
      UnmarkedConcat(s, t[..|t| - 1]);
      assert (s + t)[..|s + t| - 1] == s + t[..|t| - 1];
    }
  }

  lemma {:induction false} UnmarkedEven(s: seq<Token>)
    requires Even(s)
    ensures Unmarked(s) == s
  {
    if s != [] {
      UnmarkedEven(s[..|s| - 1]);
    }
  }

  /** The script of g/re/d. */
  function DeleteScript(n: nat, b: Buf): seq<Edit> {
    [Delete(b.dot, b.dot)]
  }

  lemma {:induction false} DeleteTurn(b: Buf, j: nat)
    requires 1 <= j < |b.slots| && Marked(b.slots[j])
    ensures DoAll(Visit(b, j), DeleteScript(0, Visit(b, j))) == Do(Visit(b, j), Delete(j, j))
    ensures Do(Visit(b, j), Delete(j, j)).ok
    ensures Do(Visit(b, j), Delete(j, j)).buf.slots == b.slots[..j] + b.slots[j + 1..]
  {
    var c := Visit(b, j);
    assert c.slots[..j] == b.slots[..j] && c.slots[j + 1..] == b.slots[j + 1..];
    var e := Delete(j, j);
    assert DeleteScript(0, c) == [e] && [e][1..] == [];
    assert DoAll(c, [e]) == Do(c, e);
  }

  lemma {:induction false} UnmarkedDrop(s: seq<Token>, j: nat)
    requires j < |s| && Marked(s[j])
    ensures Unmarked(s[..j] + s[j + 1..]) == Unmarked(s)
  {
    assert s[..j + 1][..j] == s[..j] && s[..j + 1][j] == s[j];
    assert Unmarked(s[..j + 1]) == Unmarked(s[..j]);
    UnmarkedJoin(s, j);
  }

  lemma {:induction false} UnmarkedJoin(s: seq<Token>, j: nat)
    requires j < |s| && Unmarked(s[..j + 1]) == Unmarked(s[..j])
    ensures Unmarked(s[..j] + s[j + 1..]) == Unmarked(s)
  {
    hide Unmarked;
    UnmarkedConcat(s[..j], s[j + 1..]);
    UnmarkedConcat(s[..j + 1], s[j + 1..]);
    assert s[..j + 1] + s[j + 1..] == s;
  }

  /** Running d at each marked line deletes exactly the marked lines. */
  lemma {:induction false} GLoopDelete(b: Buf, n: nat)
    requires |b.slots| > 0 && !Marked(b.slots[0])
    ensures GLoop(b, DeleteScript, n).ok && GLoop(b, DeleteScript, n).buf.slots == Unmarked(b.slots)
    decreases Marks(b.slots)
  {
    var j := FirstMark(b.slots);
    if j == |b.slots| {
      UnmarkedEven(b.slots);
    } else {
      var c := Visit(b, j);
      DeleteTurn(b, j);
      UnmarkedDrop(b.slots, j);
      TurnLosesAMark(b, DeleteScript, n);
      GLoopDelete(DoAll(c, DeleteScript(n, c)).buf, n + 1);
    }
  }

  function Reversed(s: seq<Token>): (r: seq<Token>)
    ensures |r| == |s| && forall k :: 0 <= k < |s| ==> r[k] == s[|s| - 1 - k]
  {
    seq(|s|, k requires 0 <= k < |s| => s[|s| - 1 - k])
  }

  /** The slots with those from a1 up to a2 reversed. */
  function Flip(s: seq<Token>, a1: int, a2: int): (r: seq<Token>)
    requires 0 <= a1 <= a2 <= |s|
    ensures |r| == |s|
  {
    s[..a1] + Reversed(s[a1..a2]) + s[a2..]
  }

  /** Three reversals exchange two neighbouring blocks. */
  lemma {:induction false} ThreeFlipsRotate(s: seq<Token>, p: int, q: int, r: int)
    requires 0 <= p <= q <= r <= |s|
    ensures Flip(Flip(Flip(s, p, q), q, r), p, r) == s[..p] + s[q..r] + s[p..q] + s[r..]
  {
    var f1 := Flip(s, p, q);
    assert f1[..q] == s[..p] + Reversed(s[p..q]) && f1[q..r] == s[q..r] && f1[r..] == s[r..];
    var f2 := Flip(f1, q, r);
    assert f2[..p] == s[..p] && f2[p..r] == Reversed(s[p..q]) + Reversed(s[q..r]) && f2[r..] == s[r..];
    assert Reversed(f2[p..r]) == s[q..r] + s[p..q];
  }

  /** Exchanging the block with the lines between it and the target moves the block to right after the target. */
  lemma {:induction false} RotationMoves(s: seq<Token>, a1: int, a2: int, t: int)
    requires 1 <= a1 <= a2 < |s| && 0 <= t < |s| && !(a1 <= t <= a2)
    ensures t < a1 ==> Moved(s, a1, a2, t) == s[..t + 1] + s[a1..a2 + 1] + s[t + 1..a1] + s[a2 + 1..]
    ensures a2 < t ==> Moved(s, a1, a2, t) == s[..a1] + s[a2 + 1..t + 1] + s[a1..a2 + 1] + s[t + 1..]
  {
    var w := Without(s, a1, a2);
    if t < a1 {
      assert w[..t + 1] == s[..t + 1] && w[t + 1..] == s[t + 1..a1] + s[a2 + 1..];
    } else {
      var t' := t - (a2 - a1 + 1);
      assert w[..t' + 1] == s[..a1] + s[a2 + 1..t + 1] && w[t' + 1..] == s[t + 1..];
    }
  }

  /**
   * After a move the block stands right after the target with its marks gone, and without it the other slots
   * are as they were without it before.
   */
  lemma {:induction false} MoveLands(s: seq<Token>, a1: int, a2: int, t: int)
    requires 1 <= a1 <= a2 < |s| && 0 <= t < |s| && !(a1 <= t <= a2)
    ensures var m := Moved(Cleared(s, a1, a2), a1, a2, t);
            var p := if t < a1 then t + 1 else t - (a2 - a1);
            && |m| == |s| && 1 <= p && m[p - 1] == s[t]
            && (forall i :: a1 <= i <= a2 ==> m[p + (i - a1)] == Unmark(s[i]))
            && Without(m, p, p + (a2 - a1)) == Without(s, a1, a2)
  {
    var c := Cleared(s, a1, a2);
    var p := if t < a1 then t + 1 else t - (a2 - a1);
    MovedParts(c, a1, a2, t);
    assert c[..a1] == s[..a1] && c[a2 + 1..] == s[a2 + 1..];
    var m := Moved(c, a1, a2, t);
    forall i | a1 <= i <= a2
      ensures m[p + (i - a1)] == Unmark(s[i])
    {
      assert m[p..p + (a2 - a1) + 1][i - a1] == c[a1..a2 + 1][i - a1] == c[i];
    }
  }

  lemma {:induction false} InsertedParts(w: seq<Token>, a: int, block: seq<Token>)
    requires 0 <= a < |w| && block != []
    ensures var m := Inserted(w, a, block);
            && |m| == |w| + |block| && m[a] == w[a] && m[a + 1..a + 1 + |block|] == block
            && Without(m, a + 1, a + |block|) == w
  {
    var m := Inserted(w, a, block);
    assert m[..a + 1] == w[..a + 1] && m[a + |block| + 1..] == w[a + 1..];
  }

  lemma {:induction false} MovedParts(s: seq<Token>, a1: int, a2: int, t: int)
    requires 1 <= a1 <= a2 < |s| && 0 <= t < |s| && !(a1 <= t <= a2)
    ensures var m := Moved(s, a1, a2, t);
            var p := if t < a1 then t + 1 else t - (a2 - a1);
            && |m| == |s| && m[p - 1] == s[t] && m[p..p + (a2 - a1) + 1] == s[a1..a2 + 1]
            && Without(m, p, p + (a2 - a1)) == Without(s, a1, a2)
  {
    hide Without, Inserted;
    WithoutAt(s, a1, a2, t);
    InsertedParts(Without(s, a1, a2), if t < a1 then t else t - (a2 - a1 + 1), s[a1..a2 + 1]);
  }

  lemma {:induction false} WithoutAt(s: seq<Token>, a1: int, a2: int, t: int)
    requires 1 <= a1 <= a2 < |s| && 0 <= t < |s| && !(a1 <= t <= a2)
    ensures |Without(s, a1, a2)| == |s| - (a2 - a1 + 1)
    ensures Without(s, a1, a2)[if t < a1 then t else t - (a2 - a1 + 1)] == s[t]
  {
  }

  lemma {:induction false} PutBack(s: seq<Token>, a1: int, a2: int)
    requires 1 <= a1 <= a2 < |s|
    ensures a1 - 1 < |Without(s, a1, a2)| && Inserted(Without(s, a1, a2), a1 - 1, s[a1..a2 + 1]) == s
  {
    var w := Without(s, a1, a2);
    assert w[..a1] == s[..a1] && w[a1..] == s[a2 + 1..];
  }

  /** A block that was moved can be moved back. */
  lemma {:induction false} MoveBack(s: seq<Token>, a1: int, a2: int, t: int)
    requires 1 <= a1 <= a2 < |s| && 0 <= t < |s| && !(a1 - 1 <= t <= a2)
    ensures |Moved(s, a1, a2, t)| == |s|
    ensures t < a1 ==> Moved(Moved(s, a1, a2, t), t + 1, t + 1 + (a2 - a1), a2) == s
    ensures a2 < t ==> Moved(Moved(s, a1, a2, t), t - (a2 - a1), t, a1 - 1) == s
  {
    hide Without, Inserted;
    MovedParts(s, a1, a2, t);
    PutBack(s, a1, a2);
  }

  /** The slots as global marks them: those in range whose line matches, or does not for v. Slot zero never matches. */
  function MarkedFor(s: seq<Token>, a1: int, a2: int, hits: seq<bool>, k: bool): (m: seq<Token>)
    requires |hits| == |s|
    ensures |m| == |s|
  {
    seq(|s|, i requires 0 <= i < |s| =>
      if Chosen(i, a1, a2, hits, k) then Unmark(s[i]) + 1 else Unmark(s[i]))
  }

  /** squeeze(dol > zero) lets the g command pass. */
  predicate GlobalRange(s: seq<Token>, a1: int, a2: int) {
    (if |s| > 1 then 1 else 0) <= a1 <= a2 < |s|
  }

  /**
   * Dropping the marked slots in one pass does what running d at each of them does, unless v is given an
   * empty buffer: there slot zero is marked, d is an error, and the pass drops slot zero itself.
   */
  lemma {:induction false} FastPathExactly(b: Buf, a1: int, a2: int, hits: seq<bool>, k: bool)
    requires |b.slots| == |hits| > 0 && GlobalRange(b.slots, a1, a2)
    ensures var m := Buf(MarkedFor(b.slots, a1, a2, hits, k), b.dot);
            GLoop(m, DeleteScript, 0) == Outcome(GLoop(m, DeleteScript, 0).buf.(slots := Unmarked(m.slots)), true)
            <==> |b.slots| > 1 || k
  {
    var m := Buf(MarkedFor(b.slots, a1, a2, hits, k), b.dot);
    if |b.slots| > 1 || k {
      GLoopDelete(m, 0);
    } else {
      var c := Visit(m, 0);
      var e := Delete(0, 0);
      assert DeleteScript(0, c) == [e] && DoAll(c, [e]) == Do(c, e);
      assert GLoop(m, DeleteScript, 0) == Do(c, e);
    }
  }

  /** How dot comes out of the fast path: the place reached when the last marked slot after the first was dropped. */
  function FastDot(s: seq<Token>, dot: int): int {
    if s == [] then dot else
    var r := s[..|s| - 1];
    if Marked(s[|s| - 1]) && Marks(r) > 0 then |Unmarked(r)| else FastDot(r, dot)
  }

  /** Slots a to d - 1 copied up by one. */
  function Shifted(s: seq<Token>, a: int, d: int): seq<Token>
    requires 0 <= a <= d < |s|
  {
    s[..a + 1] + s[a..d] + s[d + 1..]
  }

  lemma {:induction false} ShiftedNone(s: seq<Token>, d: int)
    requires 0 <= d < |s|
    ensures Shifted(s, d, d) == s
  {
  }

  lemma {:induction false} ShiftedStep(s: seq<Token>, a: int, d: int)
    requires 0 < a <= d < |s|
    ensures |Shifted(s, a, d)| == |s|
    ensures Shifted(s, a, d)[a := Shifted(s, a, d)[a - 1]] == Shifted(s, a - 1, d)
  {
  }

  lemma {:induction false} ShiftedDone(s: seq<Token>, a: int, d: int, tl: Token)
    requires 0 < a <= d < |s|
    ensures |Shifted(s, a, d)| == |s|
    ensures Shifted(s, a, d)[a := tl][..d + 1] == Inserted(s[..d], a - 1, [tl])
  {
  }

  lemma {:induction false} InsertedNext(s: seq<Token>, a: int, toks: seq<Token>, n: nat)
    requires 0 <= a < |s| && n < |toks|
    ensures a + n < |Inserted(s, a, toks[..n])| == |s| + n
    ensures Inserted(Inserted(s, a, toks[..n]), a + n, [toks[n]]) == Inserted(s, a, toks[..n + 1])
  {
    assert toks[..n + 1] == toks[..n] + [toks[n]];
    var i := Inserted(s, a, toks[..n]);
    assert i[..a + n + 1] == s[..a + 1] + toks[..n] && i[a + n + 1..] == s[a + 1..];
  }

  lemma {:induction false} InsertedNone(s: seq<Token>, a: int)
    requires 0 <= a < |s|
    ensures Inserted(s, a, []) == s
  {
  }

  /** n slots from a2 on copied down to a1. */
  function Lowered(s: seq<Token>, a1: int, a2: int, n: nat): seq<Token>
    requires 0 <= a1 < a2 && a2 + n <= |s|
  {
    s[..a1] + s[a2..a2 + n] + s[a1 + n..]
  }

  lemma {:induction false} LoweredStep(s: seq<Token>, a1: int, a2: int, n: nat)
    requires 0 <= a1 < a2 && a2 + n < |s|
    ensures |Lowered(s, a1, a2, n)| == |s| && (n == 0 ==> Lowered(s, a1, a2, n) == s)
    ensures Lowered(s, a1, a2, n)[a1 + n := Lowered(s, a1, a2, n)[a2 + n]] == Lowered(s, a1, a2, n + 1)
  {
  }

  lemma {:induction false} LoweredDone(s: seq<Token>, ad1: int, ad2: int, dol: int, n: nat)
    requires 1 <= ad1 <= ad2 <= dol && ad2 + 1 + n <= |s| && dol < |s|
    requires ad2 + n == dol || (ad2 == dol && n == 1)
    ensures |Lowered(s, ad1, ad2 + 1, n)| == |s|
    ensures Lowered(s, ad1, ad2 + 1, n)[..ad1 + dol - ad2] == Without(s[..dol + 1], ad1, ad2)
  {
  }

  lemma {:induction false} EvenAll(s: seq<Token>)
    requires forall k :: 0 <= k < |s| ==> !Marked(s[k])
    ensures Even(s) && Unmarked(s) == s
  {
    UnmarkedEven(s);
  }

  lemma {:induction false} Front(z: seq<Token>, s: seq<Token>, i: int)
    requires 0 <= i < |s| && z == s[i..]
    ensures z[0] == s[i] && z[1..] == s[i + 1..]
  {
  }

  lemma {:induction false} CopyDown(z: seq<Token>, z': seq<Token>, a1: int, a2: int, n: int)
    requires 0 <= a1 < a2 < n <= |z| == |z'| && z' == z[a1 := z[a2]]
    ensures z'[..a1 + 1] == z[..a1] + [z[a2]] && z'[a2 + 1..n] == z[a2 + 1..n]
  {
  }

  lemma {:induction false} FastStart(s: seq<Token>, i: int, dot: int)
    requires 0 <= i < |s| && Marked(s[i]) && forall k :: 0 <= k < i ==> !Marked(s[k])
    ensures Marks(s[..i + 1]) > 0 && Unmarked(s[..i + 1]) == s[..i] && FastDot(s[..i + 1], dot) == dot
  {
    var r := s[..i];
    assert s[..i + 1][..i] == r && Even(r);
    MarksEven(r);
    UnmarkedEven(r);
    FastDotNone(r, dot);
  }

  lemma {:induction false} FastDotNone(s: seq<Token>, dot: int)
    requires Even(s)
    ensures FastDot(s, dot) == dot
  {
    if s != [] {
      FastDotNone(s[..|s| - 1], dot);
    }
  }

  lemma {:induction false} FastStep(s: seq<Token>, i: int, dot: int)
    requires 0 <= i < |s|
    ensures Marks(s[..i + 1]) >= Marks(s[..i])
    ensures Unmarked(s[..i + 1]) == Unmarked(s[..i]) + if Marked(s[i]) then [] else [s[i]]
    ensures FastDot(s[..i + 1], dot) ==
            if Marked(s[i]) && Marks(s[..i]) > 0 then |Unmarked(s[..i])| else FastDot(s[..i], dot)
  {
    assert s[..i + 1][..i] == s[..i];
  }

  lemma {:induction false} FastDotBounds(s: seq<Token>, dot: int)
    requires 0 <= dot
    ensures 0 <= FastDot(s, dot)
  {
    if s != [] {
      FastDotBounds(s[..|s| - 1], dot);
    }
  }

  lemma {:induction false} ChangeIsBoth(s: seq<Token>, a1: int, a2: int, toks: seq<Token>)
    requires 1 <= a1 <= a2 < |s|
    ensures |Without(s, a1, a2)| == |s| - (a2 - a1 + 1)
    ensures Inserted(Without(s, a1, a2), a1 - 1, toks) == s[..a1] + toks + s[a2 + 1..]
  {
    assert Without(s, a1, a2)[..a1] == s[..a1] && Without(s, a1, a2)[a1..] == s[a2 + 1..];
  }

  lemma {:induction false} ReplaceIsBoth(s: seq<Token>, a: int, tok: Token, toks: seq<Token>)
    requires 1 <= a < |s|
    ensures Inserted(s[a := tok], a, toks) == s[..a] + [tok] + toks + s[a + 1..]
  {
    assert s[a := tok][..a + 1] == s[..a] + [tok];
  }

  lemma {:induction false} JoinIsBoth(s: seq<Token>, a1: int, a2: int, tok: Token)
    requires 1 <= a1 <= a2 < |s|
    ensures a1 == a2 ==> s[a1 := tok] == s[..a1] + [tok] + s[a2 + 1..]
    ensures a1 < a2 ==> Without(s[a1 := tok], a1 + 1, a2) == s[..a1] + [tok] + s[a2 + 1..]
  {
  }

  class Index {
    var zero: array<Token>
    var nlall: nat
    var dol: int
    var dot: int

    ghost predicate Valid()
      reads this
    {
      0 <= dol <= nlall && nlall + 5 <= zero.Length && 0 <= dot <= dol
    }

    ghost function B(): (b: Buf)
      requires 0 <= dol + 1 <= zero.Length
      reads this, zero
      ensures |b.slots| == dol + 1
    {
      Buf(zero[..dol + 1], dot)
    }

    constructor ()
      ensures Valid() && dol == dot == 0 && fresh(zero)
    {
      nlall := 128;
      zero := new Token[133];
      dol, dot := 0, 0;
    }

    /** The growth step of append: a larger array with the same slots. */
    method Grow()
      requires 0 <= dol <= nlall && nlall + 5 <= zero.Length
      modifies this`zero, this`nlall
      ensures nlall == old(nlall) + 512 && nlall + 5 <= zero.Length && fresh(zero)
      ensures zero[..dol + 1] == old(zero[..dol + 1])
    {
      nlall := nlall + 512;
      var z := new Token[nlall + 5];
      forall i | 0 <= i < zero.Length && i < z.Length {
        z[i] := zero[i];
      }
      zero := z;
    }

    /** append, for the tokens putline gives to the lines read: each is put in after dot. */
    method Append(toks: seq<Token>, a: int)
      requires 0 <= dol <= nlall && nlall + 5 <= zero.Length && 0 <= a <= dol
      modifies this, zero
      ensures Valid() && dot == a + |toks| && zero[..dol + 1] == Inserted(old(zero[..dol + 1]), a, toks)
      ensures zero == old(zero) || fresh(zero)
    {
      hide Inserted;
      ghost var s := zero[..dol + 1];
      dot := a;
      var n := 0;
      InsertedNone(s, a);
      assert toks[..0] == [];
      while n < |toks|
        invariant 0 <= n <= |toks| && Valid() && dot == a + n
        invariant zero[..dol + 1] == Inserted(s, a, toks[..n])
        invariant zero == old(zero) || fresh(zero)
      {
        InsertedNext(s, a, toks, n);
        if dol >= nlall {
          Grow();
        }
        InsertOne(toks[n]);
        n := n + 1;
      }
      assert toks[..n] == toks;
    }

    /** The body of append's loop: the slots after dot move up by one and the token is stored there. */
    method InsertOne(tl: Token)
      requires 0 <= dot <= dol && dol + 2 < zero.Length
      modifies this`dol, this`dot, zero
      ensures dot == old(dot) + 1 && dol == old(dol) + 1
      ensures zero[..dol + 1] == Inserted(old(zero[..dol + 1]), old(dot), [tl])
    {
      hide *;
      ghost var s := zero[..];
      dol := dol + 1;
      var a1, a2 := dol, dol + 1;
      dot := dot + 1;
      var rdot := dot;
      ShiftedNone(s, dol);
      while a1 > rdot
        invariant rdot <= a1 <= dol && a2 == a1 + 1
        invariant zero[..] == Shifted(s, a1, dol)
        modifies zero
      {
        ShiftedStep(s, a1, dol);
        a2, a1 := a2 - 1, a1 - 1;
        ghost var z := zero[..];
        zero[a2] := zero[a1];
        assert zero[..] == z[a2 := z[a1]];
      }
      ghost var z := zero[..];
      zero[rdot] := tl;
      assert zero[..] == z[rdot := tl];
      ShiftedDone(s, rdot, dol, tl);
      assert zero[..dol + 1] == zero[..][..dol + 1] && old(zero[..dol + 1]) == s[..dol];
    }

    /** rdelete: the slots after the range move down; one slot past the last is copied when none follows it. */
    method Rdelete(ad1: int, ad2: int)
      requires Valid() && 1 <= ad1 <= ad2 <= dol
      modifies this`dol, this`dot, zero
      ensures Valid() && dol == old(dol) - (ad2 - ad1 + 1) && dot == Min(ad1, dol)
      ensures zero[..dol + 1] == Without(old(zero[..dol + 1]), ad1, ad2)
    {
      hide Lowered, Without;
      ghost var s := zero[..];
      var a1, a2, a3 := ad1, ad2 + 1, dol;
      dol := dol - (a2 - a1);
      LoweredStep(s, ad1, ad2 + 1, 0);
      zero[a1] := zero[a2];
      assert zero[..] == s[ad1 := s[ad2 + 1]];
      a1, a2 := a1 + 1, a2 + 1;
      while a2 <= a3
        invariant ad1 < a1 && a2 - a1 == ad2 + 1 - ad1 && (a2 <= a3 + 1 || (ad2 == a3 && a2 == a3 + 2))
        invariant zero[..] == Lowered(s, ad1, ad2 + 1, a1 - ad1)
        modifies zero
      {
        LoweredStep(s, ad1, ad2 + 1, a1 - ad1);
        ghost var z := zero[..];
        zero[a1] := zero[a2];
        assert zero[..] == z[a1 := z[a2]];
        a1, a2 := a1 + 1, a2 + 1;
      }
      LoweredDone(s, ad1, ad2, a3, a1 - ad1);
      assert zero[..dol + 1] == zero[..][..dol + 1];
      a1 := ad1;
      if a1 > dol {
        a1 := dol;
      }
      dot := a1;
    }

    /** reverse: the slots from a1 up to a2 are exchanged from both ends. */
    method Reverse(a1: int, a2: int)
      requires 1 <= a1 <= a2 <= zero.Length
      modifies zero
      ensures zero[..] == Flip(old(zero[..]), a1, a2)
    {
      hide Flip, Reversed;
      ghost var s := zero[..];
      var i, j := a1, a2;
      FlippedNone(s, a1, a2);
      while true
        invariant a1 <= i && j <= a2 && i - a1 == a2 - j && i <= j + 1
        invariant Flipped(zero[..], s, a1, a2, i, j)
        decreases j - i
      {
        j := j - 1;
        var t := zero[j];
        if j <= i {
          FlippedDone(zero[..], s, a1, a2, i, j + 1);
          return;
        }
        FlippedStep(zero[..], s, a1, a2, i, j);
        ghost var z := zero[..];
        zero[j] := zero[i];
        zero[i] := t;
        assert zero[..] == z[j := z[i]][i := z[j]];
        i := i + 1;
      }
    }

    /** Two neighbouring blocks of slots are exchanged by three reversals. */
    method Rotate(p: int, q: int, r: int)
      requires 1 <= p <= q <= r <= dol + 1 <= zero.Length
      modifies zero
      ensures zero[..dol + 1] ==
              old(zero[..p]) + old(zero[q..r]) + old(zero[p..q]) + old(zero[r..dol + 1])
    {
      hide Flip, Reversed;
      ghost var s := zero[..];
      Reverse(p, q);
      Reverse(q, r);
      Reverse(p, r);
      ThreeFlipsRotate(s, p, q, r);
      RotationPrefix(s, p, q, r, dol + 1);
      assert zero[..dol + 1] == zero[..][..dol + 1];
    }

    /**
     * The second half of move: slots ad1 up to ad2 go right after adt; a target inside the block is an error.
     */
    method Transfer(adt: int, ad1: int, ad2: int) returns (ok: bool)
      requires Valid() && 1 <= ad1 < ad2 <= dol + 1 && 0 <= adt <= dol
      modifies zero, this`dot
      ensures Valid() && ok == !(ad1 <= adt < ad2)
      ensures if ok then zero[..dol + 1] == Moved(old(zero[..dol + 1]), ad1, ad2 - 1, adt)
                         && dot == if adt < ad1 then adt + (ad2 - ad1) else adt
              else zero[..dol + 1] == old(zero[..dol + 1]) && dot == old(dot)
    {
      hide Moved;
      if adt < ad1 {
        dot := adt + (ad2 - ad1);
        TransferBack(adt, ad1, ad2);
        return true;
      }
      if adt >= ad2 {
        dot := adt;
        TransferAhead(adt, ad1, ad2);
        return true;
      }
      return false;
    }

    method TransferBack(adt: int, ad1: int, ad2: int)
      requires 0 <= adt < ad1 < ad2 <= dol + 1 <= zero.Length
      modifies zero
      ensures zero[..dol + 1] == Moved(old(zero[..dol + 1]), ad1, ad2 - 1, adt)
    {
      hide *;
      ghost var s := zero[..dol + 1];
      RotationMoves(s, ad1, ad2 - 1, adt);
      var a := adt + 1;
      if a == ad1 {
        RotationOfNothing(s, a, ad2);
        return;
      }
      Parts(zero, s, a, ad1, ad2);
      Rotate(a, ad1, ad2);
    }

    method TransferAhead(adt: int, ad1: int, ad2: int)
      requires 1 <= ad1 < ad2 <= adt <= dol < zero.Length
      modifies zero
      ensures zero[..dol + 1] == Moved(old(zero[..dol + 1]), ad1, ad2 - 1, adt)
    {
      hide *;
      ghost var s := zero[..dol + 1];
      RotationMoves(s, ad1, ad2 - 1, adt);
      var a := adt + 1;
      Parts(zero, s, ad1, ad2, a);
      ghost var x, y, z, w := s[..ad1], s[ad1..ad2], s[ad2..a], s[a..];
      Rotate(ad1, ad2, a);
      assert zero[..dol + 1] == x + z + y + w;
    }

    /** move, for m: the marks of the block are cleared before the target is looked at. */
    method Move(addr1: int, addr2: int, adt: int) returns (ok: bool)
      requires Valid()
      modifies zero, this`dot
      ensures Valid() && Outcome(B(), ok) == Do(old(B()), Edit.Move(addr1, addr2, adt))
    {
      hide Moved;
      if addr1 < 1 || addr2 > dol || addr1 > addr2 || !(0 <= adt <= dol) {
        return false;
      }
      ghost var s := zero[..dol + 1];
      var ad1, ad2 := addr1, addr2;
      while ad1 <= ad2
        invariant addr1 <= ad1 <= ad2 + 1
        invariant zero[..dol + 1] == Cleared(s, addr1, ad1 - 1)
        modifies zero
      {
        ghost var z := zero[..dol + 1];
        zero[ad1] := Unmark(zero[ad1]);
        assert zero[..dol + 1] == z[ad1 := Unmark(z[ad1])];
        ad1 := ad1 + 1;
      }
      ok := Transfer(adt, addr1, addr2 + 1);
    }

    /** move, for t: the copies are appended after the last line and then moved. */
    method Copy(addr1: int, addr2: int, adt: int, toks: seq<Token>) returns (ok: bool)
      requires Valid() && Plain(Edit.Copy(addr1, addr2, adt, toks))
      modifies this, zero
      ensures Valid() && Outcome(B(), ok) == Do(old(B()), Edit.Copy(addr1, addr2, adt, toks))
      ensures zero == old(zero) || fresh(zero)
    {
      hide Moved, Inserted;
      if addr1 < 1 || addr2 > dol || addr1 > addr2 || !(0 <= adt <= dol) {
        return false;
      }
      ghost var s := zero[..dol + 1];
      var ad1 := dol;
      Append(toks, dol);
      CopiedToEnd(s, adt, toks);
      ad1 := ad1 + 1;
      ok := Transfer(adt, ad1, dol + 1);
    }

    /** gdelete: the marked slots are dropped in one pass. A marked slot zero is dropped with them. */
    method Gdelete()
      requires Valid()
      modifies zero, this`dol, this`dot
      ensures -1 <= dol <= old(dol) && zero[..dol + 1] == Unmarked(old(zero[..dol + 1]))
      ensures dot == if Even(old(zero[..dol + 1])) then old(dot) else Min(FastDot(old(zero[..dol + 1]), old(dot)), dol)
      ensures Valid() <==> dol >= 0
    {
      hide Unmarked, Marks, FastDot, Even;
      ghost var s, dot0 := zero[..dol + 1], dot;
      var a1, a3 := 0, dol;
      while !Marked(zero[a1])
        invariant 0 <= a1 <= a3 && forall k :: 0 <= k < a1 ==> !Marked(s[k])
        decreases a3 - a1
      {
        if a1 >= a3 {
          EvenAll(s);
          return;
        }
        a1 := a1 + 1;
      }
      FastStart(s, a1, dot);
      GdeleteRest(a1, s, dot0);
      assert s[..a3 + 1] == s;
      MarksEven(s);
      FastDotBounds(s, dot0);
      if dot > dol {
        dot := dol;
      }
    }

    /** gdelete's second loop: unmarked slots move down over marked ones. */
    method GdeleteRest(first: int, ghost s: seq<Token>, ghost dot0: int)
      requires 0 <= first <= dol < zero.Length && s == zero[..dol + 1]
      requires Marks(s[..first + 1]) > 0 && Unmarked(s[..first + 1]) == s[..first]
      requires FastDot(s[..first + 1], dot0) == dot
      modifies zero, this`dol, this`dot
      ensures Marks(s[..|s|]) > 0 && -1 <= dol < old(dol) && dot == FastDot(s[..|s|], dot0)
      ensures zero[..dol + 1] == Unmarked(s[..|s|])
    {
      hide *;
      var a1, a2, a3 := first, first + 1, dol;
      while a2 <= a3
        invariant 0 <= a1 < a2 <= a3 + 1 && Marks(s[..a2]) > 0
        invariant zero[..a1] == Unmarked(s[..a2]) && zero[a2..a3 + 1] == s[a2..]
        invariant dot == FastDot(s[..a2], dot0)
        modifies zero, this`dot
      {
        FastStep(s, a2, dot0);
        Front(zero[a2..a3 + 1], s, a2);
        if Marked(zero[a2]) {
          a2 := a2 + 1;
          dot := a1;
        } else {
          ghost var z := zero[..];
          zero[a1] := zero[a2];
          CopyDown(z, zero[..], a1, a2, a3 + 1);
          a1, a2 := a1 + 1, a2 + 1;
        }
      }
      dol := a1 - 1;
    }

    /** a, i and r: the lines read are put in after slot a. */
    method Insert(a: int, toks: seq<Token>) returns (ok: bool)
      requires Valid()
      modifies this, zero
      ensures Valid() && Outcome(B(), ok) == Do(old(B()), Edit.Append(a, toks))
      ensures zero == old(zero) || fresh(zero)
    {
      hide Inserted;
      ok := 0 <= a <= dol;
      if ok {
        Append(toks, a);
      }
    }

    /** d */
    method Delete(a1: int, a2: int) returns (ok: bool)
      requires Valid()
      modifies this, zero
      ensures Valid() && Outcome(B(), ok) == Do(old(B()), Edit.Delete(a1, a2)) && zero == old(zero)
    {
      hide Without;
      ok := 1 <= a1 <= a2 <= dol;
      if ok {
        Rdelete(a1, a2);
      }
    }

    /** c */
    method Change(a1: int, a2: int, toks: seq<Token>) returns (ok: bool)
      requires Valid()
      modifies this, zero
      ensures Valid() && Outcome(B(), ok) == Do(old(B()), Edit.Change(a1, a2, toks))
      ensures zero == old(zero) || fresh(zero)
    {
      hide Inserted, Without;
      ghost var s := zero[..dol + 1];
      ok := 1 <= a1 <= a2 <= dol;
      if ok {
        ChangeIsBoth(s, a1, a2, toks);
        Rdelete(a1, a2);
        Append(toks, a1 - 1);
      }
    }

    /** The end of a substitution: a line takes the place of the old one and further ones follow it. */
    method Replace(a: int, tok: Token, toks: seq<Token>) returns (ok: bool)
      requires Valid()
      modifies this, zero
      ensures Valid() && Outcome(B(), ok) == Do(old(B()), Edit.Replace(a, tok, toks))
      ensures zero == old(zero) || fresh(zero)
    {
      hide Inserted;
      ghost var s := zero[..dol + 1];
      ok := 1 <= a <= dol;
      if ok {
        ReplaceIsBoth(s, a, tok, toks);
        zero[a] := tok;
        assert zero[..dol + 1] == s[a := tok];
        Append(toks, a);
      }
    }

    /** join, once the joined line is stored. */
    method Join(a1: int, a2: int, tok: Token) returns (ok: bool)
      requires Valid()
      modifies this, zero
      ensures Valid() && Outcome(B(), ok) == Do(old(B()), Edit.Join(a1, a2, tok)) && zero == old(zero)
    {
      hide Without;
      ghost var s := zero[..dol + 1];
      ok := 1 <= a1 <= a2 <= dol;
      if ok {
        JoinIsBoth(s, a1, a2, tok);
        zero[a1] := tok;
        assert zero[..dol + 1] == s[a1 := tok];
        if a1 < a2 {
          Rdelete(a1 + 1, a2);
        }
        dot := a1;
      }
    }

    /** u: the token a substitution replaced is put back, if the line is still the one it left. */
    method Undo(a: int, subnewa: Token, subolda: Token) returns (ok: bool)
      requires Valid()
      modifies this`dot, zero
      ensures Valid() && Outcome(B(), ok) == Do(old(B()), Edit.Undo(a, subnewa, subolda))
    {
      ghost var s := zero[..dol + 1];
      ok := 1 <= a <= dol && Unmark(zero[a]) == subnewa;
      if ok {
        zero[a] := subolda;
        assert zero[..dol + 1] == s[a := subolda];
        dot := a;
      }
    }

    /** A command other than the g loop. */
    method Perform(e: Edit) returns (ok: bool)
      requires Valid() && Plain(e)
      modifies this, zero
      ensures Valid() && Outcome(B(), ok) == Do(old(B()), e)
      ensures zero == old(zero) || fresh(zero)
    {
      match e {
        case Goto(a) =>
          ok := 0 <= a <= dol;
          if ok {
            dot := a;
          }
        case Init =>
          assert zero[..1] == zero[..dol + 1][..1];
          dol, dot, ok := 0, 0, true;
        case _ =>
          ok := PerformLines(e);
      }
    }

    method PerformLines(e: Edit) returns (ok: bool)
      requires Valid() && Plain(e) && !e.Goto? && !e.Init?
      modifies this, zero
      ensures Valid() && Outcome(B(), ok) == Do(old(B()), e)
      ensures zero == old(zero) || fresh(zero)
    {
      hide *;
      match e {
        case Append(a, toks) => ok := Insert(a, toks);
        case Delete(a1, a2) => ok := Delete(a1, a2);
        case Change(a1, a2, toks) => ok := Change(a1, a2, toks);
        case Move(a1, a2, t) => ok := Move(a1, a2, t);
        case Copy(a1, a2, t, toks) => ok := Copy(a1, a2, t, toks);
        case Replace(a, tok, toks) => ok := Replace(a, tok, toks);
        case Join(a1, a2, tok) => ok := Join(a1, a2, tok);
        case Undo(a, subnewa, subolda) => ok := Undo(a, subnewa, subolda);
      }
    }

    method PerformAll(es: seq<Edit>) returns (ok: bool)
      requires Valid() && forall i :: 0 <= i < |es| ==> Plain(es[i])
      modifies this, zero
      ensures Valid() && Outcome(B(), ok) == DoAll(old(B()), es)
      ensures zero == old(zero) || fresh(zero)
    {
      hide Do, Plain, Index.B;
      ok := true;
      var i := 0;
      while i < |es|
        invariant 0 <= i <= |es| && Valid() && |B().slots| > 0
        invariant DoAll(old(B()), es) == DoAll(B(), es[i..])
        invariant zero == old(zero) || fresh(zero)
      {
        assert es[i..][0] == es[i] && es[i..][1..] == es[i + 1..];
        ok := Perform(es[i]);
        if !ok {
          return;
        }
        i := i + 1;
      }
    }

    /** The general loop of global: after each run of the commands the scan begins again at the first line. */
    method GlobalLoop(f: Script) returns (ok: bool)
      requires Valid() && PlainScript(f)
      modifies this, zero
      ensures Valid() && Outcome(B(), ok) == GLoop(old(B()), f, 0)
      ensures zero == old(zero) || fresh(zero)
    {
      hide Marks, DoAll, PlainScript;
      var n := 0;
      var a1 := 0;
      ok := true;
      while a1 <= dol
        invariant Valid() && 0 <= a1 <= dol + 1 && 0 <= n
        invariant forall k :: 0 <= k < a1 ==> !Marked(B().slots[k])
        invariant GLoop(old(B()), f, 0) == GLoop(B(), f, n)
        invariant zero == old(zero) || fresh(zero)
        decreases Marks(B().slots), dol - a1
      {
        assert zero[a1] == B().slots[a1];
        if Marked(zero[a1]) {
          ok := Turn(f, n, a1);
          if !ok {
            return;
          }
          n := n + 1;
          a1 := 0;
        }
        a1 := a1 + 1;
      }
      NoFirstMark(B().slots);
    }

    /** The commands are run at the first marked slot. */
    method Turn(f: Script, n: nat, a1: int) returns (ok: bool)
      requires Valid() && PlainScript(f) && 0 <= a1 <= dol
      requires Marked(B().slots[a1]) && forall k :: 0 <= k < a1 ==> !Marked(B().slots[k])
      modifies this, zero
      ensures Valid() && Marks(B().slots) < Marks(old(B()).slots)
      ensures GLoop(old(B()), f, n) == if ok then GLoop(B(), f, n + 1) else Outcome(B(), false)
      ensures ok ==> !Marked(B().slots[0])
      ensures zero == old(zero) || fresh(zero)
    {
      hide Marks, DoAll, PlainScript;
      ghost var b := B();
      FirstMarkIs(b.slots, a1);
      TurnLosesAMark(b, f, n);
      zero[a1] := Unmark(zero[a1]);
      dot := a1;
      assert B() == Visit(b, a1);
      ScriptPlain(f, n, Visit(b, a1));
      DoAllKeepsZero(Visit(b, a1), f(n, Visit(b, a1)));
      ok := PerformAll(f(n, Buf(zero[..dol + 1], dot)));
    }
  }

  /** Slot i is one that g chooses, or v with k false: in range, and its line matches just if k. Slot zero never matches. */
  predicate Chosen(i: int, a1: int, a2: int, hits: seq<bool>, k: bool)
    requires 0 <= i < |hits|
  {
    a1 <= i <= a2 && (i > 0 && hits[i]) == k
  }

  /** m is s with exactly the places marked that are in range and whose line matches just if k; slot zero never matches. */
  ghost predicate MarksChosen(m: seq<Token>, s: seq<Token>, a1: int, a2: int, hits: seq<bool>, k: bool)
    requires |hits| == |s|
  {
    && |m| == |s|
    && forall i :: 0 <= i < |s| ==>
         m[i] == s[i] - s[i] % 2 + if a1 <= i <= a2 && (if i == 0 then !k else hits[i] == k) then 1 else 0
  }

  /** r has the slots of s at the places idx, in order and without marks: all but those that are chosen. */
  ghost predicate LeavesOthers(r: seq<Token>, s: seq<Token>, idx: seq<int>, a1: int, a2: int, hits: seq<bool>, k: bool)
    requires |hits| == |s|
  {
    && |r| == |idx| && (forall j :: 0 <= j < |idx| ==> 0 <= idx[j] < |s| && r[j] == s[idx[j]] - s[idx[j]] % 2)
    && (forall i, j :: 0 <= i < j < |idx| ==> idx[i] < idx[j])
    && (forall i :: 0 <= i < |s| ==> (i in idx <==> !(a1 <= i <= a2 && (if i == 0 then !k else hits[i] == k))))
  }

  lemma {:induction false} MarkedForAt(s: seq<Token>, a1: int, a2: int, hits: seq<bool>, k: bool)
    requires |hits| == |s|
    ensures MarksChosen(MarkedFor(s, a1, a2, hits, k), s, a1, a2, hits, k)
  {
  }

  /** r has the tokens of m at the places idx, in order: all the places with even tokens. */
  ghost predicate EvenPlaces(r: seq<Token>, m: seq<Token>, idx: seq<int>) {
    && |idx| == |r| && (forall j :: 0 <= j < |idx| ==> 0 <= idx[j] < |m| && r[j] == m[idx[j]])
    && (forall i, j :: 0 <= i < j < |idx| ==> idx[i] < idx[j])
    && (forall i :: 0 <= i < |m| ==> (i in idx <==> m[i] % 2 == 0))
  }

  lemma {:induction false} UnmarkedAt(m: seq<Token>) returns (idx: seq<int>)
    ensures EvenPlaces(Unmarked(m), m, idx)
  {
    hide EvenPlaces;
    if m == [] {
      idx := [];
      NoPlaces();
    } else {
      var n := |m| - 1;
      idx := UnmarkedAt(m[..n]);
      if m[n] % 2 == 0 {
        PlaceTaken(Unmarked(m[..n]), m, idx);
        idx := idx + [n];
      } else {
        PlacePassed(Unmarked(m[..n]), m, idx);
        assert Unmarked(m) == Unmarked(m[..n]);
      }
    }
  }

  lemma {:induction false} NoPlaces()
    ensures EvenPlaces([], [], [])
  {
  }

  lemma {:induction false} PlacePassed(r: seq<Token>, m: seq<Token>, idx: seq<int>)
    requires m != [] && m[|m| - 1] % 2 != 0 && EvenPlaces(r, m[..|m| - 1], idx)
    ensures EvenPlaces(r, m, idx)
  {
    var n := |m| - 1;
    assert n !in idx;
    assert forall i :: 0 <= i < n ==> m[..n][i] == m[i];
  }

  lemma {:induction false} PlaceTaken(r: seq<Token>, m: seq<Token>, idx: seq<int>)
    requires m != [] && m[|m| - 1] % 2 == 0 && EvenPlaces(r, m[..|m| - 1], idx)
    ensures EvenPlaces(r + [m[|m| - 1]], m, idx + [|m| - 1])
  {
    var n := |m| - 1;
    assert forall i :: i in idx + [n] <==> i in idx || i == n;
    assert forall i :: 0 <= i < n ==> m[..n][i] == m[i];
  }

  lemma {:induction false} UnmarkedOthers(m: seq<Token>, s: seq<Token>, a1: int, a2: int, hits: seq<bool>, k: bool)
    returns (idx: seq<int>)
    requires |hits| == |s| && MarksChosen(m, s, a1, a2, hits, k)
    ensures LeavesOthers(Unmarked(m), s, idx, a1, a2, hits, k)
  {
    hide Unmarked;
    idx := UnmarkedAt(m);
    forall j | 0 <= j < |idx|
      ensures 0 <= idx[j] < |s| && m[idx[j]] == s[idx[j]] - s[idx[j]] % 2
    {
      assert idx[j] in idx;
    }
  }

  /**
   * What g and v do: hits says which slots match, fast whether the commands are just d. Places in range are marked
   * whose line matches, for v those whose does not. Then, in one pass, exactly the other slots are left, in order
   * and without marks; or the commands are run at each marked line.
   */
  method Global(ix: Index, given: bool, addr1: int, addr2: int, hits: seq<bool>, k: bool, fast: bool, f: Script)
    returns (ok: bool, ghost m: seq<Token>, ghost idx: seq<int>)
    requires ix.Valid() && |hits| == ix.dol + 1 && PlainScript(f)
    modifies ix, ix.zero
    ensures var a1 := if given then addr1 else if old(ix.dol) > 0 then 1 else 0;
            var a2 := if given then addr2 else old(ix.dol);
            var s := old(ix.B()).slots;
            if !((if |s| > 1 then 1 else 0) <= a1 <= a2 < |s|) then !ok && ix.Valid() && ix.B() == old(ix.B())
            else
              && MarksChosen(m, s, a1, a2, hits, k)
              && if fast then
                   && ok && -1 <= ix.dol < ix.zero.Length && LeavesOthers(ix.B().slots, s, idx, a1, a2, hits, k)
                   && ix.dot == if Even(m) then old(ix.dot) else Min(FastDot(m, old(ix.dot)), ix.dol)
                 else ix.Valid() && Outcome(ix.B(), ok) == GLoop(Buf(m, old(ix.dot)), f, 0)
  {
    hide PlainScript, GLoop, MarkedFor, Unmarked, FastDot, Even, MarksChosen, LeavesOthers;
    var a1, a2 := addr1, addr2;
    if !given {
      a1, a2 := if ix.dol > 0 then 1 else 0, ix.dol;
    }
    m, idx := [], [];
    if a1 < (if ix.dol > 0 then 1 else 0) || a2 > ix.dol || a1 > a2 {
      return false, m, idx;
    }
    ghost var s := ix.B().slots;
    Mark(ix, a1, a2, hits, k);
    m := ix.B().slots;
    if fast {
      idx := UnmarkedOthers(m, s, a1, a2, hits, k);
      ix.Gdelete();
      return true, m, idx;
    }
    ok := ix.GlobalLoop(f);
  }

  method Mark(ix: Index, a1: int, a2: int, hits: seq<bool>, k: bool)
    requires ix.Valid() && |hits| == ix.dol + 1
    modifies ix.zero
    ensures ix.Valid() && ix.dot == old(ix.dot) && ix.dol == old(ix.dol)
    ensures ix.B().slots == MarkedFor(old(ix.B()).slots, a1, a2, hits, k)
    ensures MarksChosen(ix.B().slots, old(ix.B()).slots, a1, a2, hits, k)
  {
    hide MarksChosen;
    ghost var s := ix.B().slots;
    ghost var m := MarkedFor(s, a1, a2, hits, k);
    MarkedForAt(s, a1, a2, hits, k);
    var i := 0;
    while i <= ix.dol
      invariant 0 <= i <= ix.dol + 1
      invariant ix.zero[..i] == m[..i] && ix.zero[i..ix.dol + 1] == s[i..]
    {
      ghost var z := ix.zero[..];
      Front(ix.zero[i..ix.dol + 1], s, i);
      ix.zero[i] := Unmark(ix.zero[i]);
      if Chosen(i, a1, a2, hits, k) {
        ix.zero[i] := ix.zero[i] + 1;
      }
      assert ix.zero[..] == z[i := m[i]];
      assert ix.zero[..i + 1] == z[..i] + [m[i]] && ix.zero[i + 1..ix.dol + 1] == z[i..ix.dol + 1][1..];
      i := i + 1;
    }
    assert ix.zero[..ix.dol + 1] == m;
  }

  /** Slots from i up to j are exchanged with their mirror images, those between them are as in s. */
  ghost predicate Flipped(z: seq<Token>, s: seq<Token>, a1: int, a2: int, i: int, j: int)
  {
    && 0 <= a1 <= i && j <= a2 <= |s| == |z| && i - a1 == a2 - j && i <= j + 1
    && (forall k :: a1 <= k < i ==> z[k] == s[a1 + a2 - 1 - k])
    && (forall k :: j <= k < a2 ==> z[k] == s[a1 + a2 - 1 - k])
    && (forall k :: 0 <= k < |s| && !(a1 <= k < i) && !(j <= k < a2) ==> z[k] == s[k])
  }

  lemma {:induction false} FlippedNone(s: seq<Token>, a1: int, a2: int)
    requires 0 <= a1 <= a2 <= |s|
    ensures Flipped(s, s, a1, a2, a1, a2)
  {
  }

  lemma {:induction false} FlippedStep(z: seq<Token>, s: seq<Token>, a1: int, a2: int, i: int, j: int)
    requires Flipped(z, s, a1, a2, i, j + 1) && i < j
    ensures Flipped(z[j := z[i]][i := z[j]], s, a1, a2, i + 1, j)
  {
  }

  lemma {:induction false} FlippedDone(z: seq<Token>, s: seq<Token>, a1: int, a2: int, i: int, j: int)
    requires Flipped(z, s, a1, a2, i, j) && j - 1 <= i && a1 <= a2
    ensures z == Flip(s, a1, a2)
  {
  }

  lemma {:induction false} RotationPrefix(s: seq<Token>, p: int, q: int, r: int, n: int)
    requires 0 <= p <= q <= r <= n <= |s|
    ensures (s[..p] + s[q..r] + s[p..q] + s[r..])[..n] == s[..p] + s[q..r] + s[p..q] + s[r..n]
  {
  }

  lemma {:induction false} RotationOfNothing(s: seq<Token>, p: int, r: int)
    requires 0 <= p <= r <= |s|
    ensures s == s[..p] + s[p..r] + s[p..p] + s[r..]
  {
  }

  /** The parts of the array and those of its slots. */
  lemma {:induction false} Parts(zero: array<Token>, s: seq<Token>, p: int, q: int, r: int)
    requires 0 <= p <= q <= r <= |s| <= zero.Length && s == zero[..|s|]
    ensures zero[..p] == s[..p] && zero[p..q] == s[p..q] && zero[q..r] == s[q..r] && zero[r..|s|] == s[r..]
  {
  }

  /** Copies put after the last line and moved to the target are copies put in at the target. */
  lemma {:induction false} CopiedToEnd(s: seq<Token>, t: int, toks: seq<Token>)
    requires 0 <= t < |s| && toks != []
    ensures |Inserted(s, |s| - 1, toks)| == |s| + |toks|
    ensures Moved(Inserted(s, |s| - 1, toks), |s|, |s| + |toks| - 1, t) == Inserted(s, t, toks)
  {
    var e := Inserted(s, |s| - 1, toks);
    assert e == s + toks;
    assert Without(e, |s|, |s| + |toks| - 1) == s;
    assert e[|s|..|s| + |toks|] == toks;
  }
}
