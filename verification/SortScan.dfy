// The character-by-character scan of a numeric field, and the key it leaves.

/** dokey_gn of sort.c: a ten-state scanner, shown to leave the key of the number the field stands for. */
module SortScan {
  import opened Basics
  import opened Order
  import opened Decimal
  import opened SortCompare
  import opened SortNumber

  datatype State =
    InStart | InSign | InZero | InDigit | InPoint | InFract | InZeroFract | InExp | InExpSign | InExpDigit

  /** What has been stored past the place for sign and exponent, and the position of the point. */
  datatype Stored = Stored(out: Key, nzero: nat, dp: int)

  /** The locals of dokey_gn. */
  datatype Scan = Scan(state: State, st: Stored, exp: int, expsign: bool, rflag: bool)

  function Emit(c: Byte, rflag: bool): Byte {
    if rflag then Inverted(c) else c
  }

  /** Store a digit; one before the point moves the point. */
  function Store(st: Stored, c: Byte, rflag: bool, move: int): Stored {
    Stored(st.out + [Emit(c, rflag)], if c == ZERO then st.nzero + 1 else 0, st.dp + move)
  }

  function OnBlank(sc: Scan): Option<Scan> {
    if sc.state == InStart || sc.state == InSign then Some(sc) else None
  }

  function OnSign(sc: Scan, c: Byte): Option<Scan> {
    match sc.state
    case InStart => Some(sc.(state := InSign, rflag := if c == MINUS then !sc.rflag else sc.rflag))
    case InExp => Some(sc.(state := InExpSign, expsign := c == MINUS || sc.expsign))
    case _ => None
  }

  function OnZero(sc: Scan): Scan {
    match sc.state
    case InDigit => sc.(st := Store(sc.st, ZERO, sc.rflag, 1))
    case InFract => sc.(st := Store(sc.st, ZERO, sc.rflag, 0))
    case InStart | InSign | InZero => sc.(state := InZero)
    case InZeroFract | InPoint => sc.(st := sc.st.(dp := sc.st.dp - 1), state := InZeroFract)
    case InExpSign | InExp | InExpDigit => sc.(exp := sc.exp * 10, state := InExpDigit)
  }

  function OnNonzero(sc: Scan, c: Byte): Scan {
    match sc.state
    case InZero | InStart | InSign | InDigit => sc.(st := Store(sc.st, c, sc.rflag, 1), state := InDigit)
    case InZeroFract | InPoint | InFract => sc.(st := Store(sc.st, c, sc.rflag, 0), state := InFract)
    case InExpSign | InExp | InExpDigit => sc.(exp := sc.exp * 10 + (c - ZERO), state := InExpDigit)
  }

  function OnPoint(sc: Scan): Option<Scan> {
    match sc.state
    case InStart | InSign => Some(sc.(state := InPoint))
    case InZero => Some(sc.(state := InZeroFract))
    case InDigit => Some(sc.(state := InFract))
    case _ => None
  }

  function OnE(sc: Scan): Option<Scan> {
    if sc.state == InDigit || sc.state == InFract then Some(sc.(state := InExp)) else None
  }

  /** One turn of the loop: the next state, or None for the break that ends the number. */
  function Step(sc: Scan, c: Byte, g: bool): Option<Scan> {
    if IsBlank(c) then OnBlank(sc)
    else if IsSign(c) then OnSign(sc, c)
    else if c == ZERO then Some(OnZero(sc))
    else if IsDigit(c) then Some(OnNonzero(sc, c))
    else if c == POINT then OnPoint(sc)
    else if g && IsE(c) then OnE(sc)
    else None
  }

  // ----- what the scanner knows -----

  predicate ZeroState(state: State) {
    state == InStart || state == InSign || state == InZero || state == InPoint || state == InZeroFract
  }

  predicate ExpState(state: State) {
    state == InExp || state == InExpSign || state == InExpDigit
  }

  function Coded(ds: seq<Digit>, rflag: bool): Key {
    if rflag then Invert(DigitBytes(ds)) else DigitBytes(ds)
  }

  /** The stored digits, the zero count and the point stand for the mantissa whole.fract. */
  predicate Holds(st: Stored, rflag: bool, whole: seq<Digit>, fract: seq<Digit>) {
    var t := TrimFront(whole + fract);
    && st.out == Coded(t, rflag)
    && st.nzero == TrailZeros(t)
    && st.dp == BIAS + |whole| - LeadZeros(whole + fract)
  }

  /** The scanner holds a mantissa and knows whether it is zero. */
  predicate Keeps(sc: Scan, whole: seq<Digit>, fract: seq<Digit>) {
    && Holds(sc.st, sc.rflag, whole, fract)
    && (sc.st.out == [] <==> ZeroState(sc.state))
  }

  predicate Plain(sc: Scan) {
    sc.exp == 0 && !sc.expsign
  }

  /** Where the parts of a field lie, with its exponent. */
  datatype Layout = Layout(p: Parts, neg: bool, expo: bool, negExp: bool, expStart: nat, expEnd: nat)

  predicate Bounds(s: seq<Byte>, p: Parts) {
    p.sign <= p.whole <= p.wholeEnd <= p.fract <= p.fractEnd <= |s|
  }

  predicate BlankRun(s: seq<Byte>, i: nat, j: nat) {
    i <= j <= |s| && (forall k :: i <= k < j ==> IsBlank(s[k])) && (j < |s| ==> !IsBlank(s[j]))
  }

  predicate DigitRun(s: seq<Byte>, i: nat, j: nat) {
    i <= j <= |s| && (forall k :: i <= k < j ==> IsDigit(s[k])) && (j < |s| ==> !IsDigit(s[j]))
  }

  predicate SignAt(s: seq<Byte>, i: nat) {
    i < |s| && IsSign(s[i])
  }

  predicate MinusAt(s: seq<Byte>, i: nat) {
    i < |s| && s[i] == MINUS
  }

  function WholeOf(s: seq<Byte>, p: Parts): seq<Digit>
    requires Bounds(s, p)
  {
    Read(s, p.whole, p.wholeEnd)
  }

  function FractOf(s: seq<Byte>, p: Parts): seq<Digit>
    requires Bounds(s, p)
  {
    Read(s, p.fract, p.fractEnd)
  }

  predicate FitsMantissa(s: seq<Byte>, p: Parts, neg: bool) {
    && Bounds(s, p)
    && BlankRun(s, 0, p.sign)
    && (if SignAt(s, p.sign) then BlankRun(s, p.sign + 1, p.whole) else p.whole == p.sign)
    && neg == MinusAt(s, p.sign)
    && DigitRun(s, p.whole, p.wholeEnd)
    && (if p.wholeEnd < |s| && s[p.wholeEnd] == POINT then p.fract == p.wholeEnd + 1
        else p.fract == p.fractEnd == p.wholeEnd)
    && DigitRun(s, p.fract, p.fractEnd)
  }

  /** The layout describes the field: every run is as long as possible. */
  predicate Fits(s: seq<Byte>, g: bool, l: Layout) {
    var p := l.p;
    && FitsMantissa(s, p, l.neg)
    && l.expo == (g && p.fractEnd < |s| && IsE(s[p.fractEnd])
                  && TrimFront(WholeOf(s, p) + FractOf(s, p)) != [])
    && (l.expo ==>
          && l.expStart == (if SignAt(s, p.fractEnd + 1) then p.fractEnd + 2 else p.fractEnd + 1)
          && l.negExp == MinusAt(s, p.fractEnd + 1)
          && DigitRun(s, l.expStart, l.expEnd))
  }

  predicate WholeState(state: State) {
    state == InStart || state == InSign || state == InZero || state == InDigit
  }

  predicate FractState(state: State) {
    state == InPoint || state == InZeroFract || state == InFract
  }

  /** Reading the whole part. */
  predicate AtWhole(sc: Scan, s: seq<Byte>, l: Layout, i: nat)
    requires FitsMantissa(s, l.p, l.neg)
  {
    l.p.whole <= i <= l.p.wholeEnd && Plain(sc) && Keeps(sc, Read(s, l.p.whole, i), [])
  }

  /** Reading the fraction. */
  predicate AtFract(sc: Scan, s: seq<Byte>, l: Layout, i: nat)
    requires FitsMantissa(s, l.p, l.neg)
  {
    && l.p.wholeEnd < l.p.fract <= i <= l.p.fractEnd && Plain(sc)
    && Keeps(sc, WholeOf(s, l.p), Read(s, l.p.fract, i))
  }

  /** Reading the exponent. */
  predicate AtExp(sc: Scan, s: seq<Byte>, g: bool, l: Layout, i: nat)
    requires Fits(s, g, l)
  {
    && l.expo && Keeps(sc, WholeOf(s, l.p), FractOf(s, l.p))
    && match sc.state
       case InExp => i == l.p.fractEnd + 1 && Plain(sc)
       case InExpSign => i == l.expStart == l.p.fractEnd + 2 && sc.exp == 0 && sc.expsign == l.negExp
       case _ => l.expStart < i <= l.expEnd && sc.exp == Whole(Read(s, l.expStart, i)) && sc.expsign == l.negExp
  }

  /** The scanner after i characters of the field s. */
  predicate Tracks(sc: Scan, s: seq<Byte>, g: bool, l: Layout, r: bool, i: nat)
    requires Fits(s, g, l)
  {
    && i <= |s|
    && (if sc.state == InStart then sc.rflag == r else sc.rflag == (r != l.neg))
    && match sc.state
       case InStart => i <= l.p.sign && Plain(sc) && Keeps(sc, [], [])
       case InSign => l.p.sign < i <= l.p.whole && Plain(sc) && Keeps(sc, [], [])
       case InZero | InDigit => AtWhole(sc, s, l, i)
       case InPoint | InZeroFract | InFract => AtFract(sc, s, l, i)
       case InExp | InExpSign | InExpDigit => AtExp(sc, s, g, l, i)
  }

  function SignedExp(sc: Scan): int {
    if !ExpState(sc.state) then 0 else if sc.expsign then -sc.exp else sc.exp
  }

  function LayoutExp(s: seq<Byte>, g: bool, l: Layout): int
    requires Fits(s, g, l)
  {
    if !l.expo then 0
    else
      var e: int := Whole(Read(s, l.expStart, l.expEnd));
      if l.negExp then -e else e
  }

  /** The scanner when the number has ended. */
  predicate Done(sc: Scan, s: seq<Byte>, g: bool, l: Layout, r: bool)
    requires Fits(s, g, l)
  {
    && Keeps(sc, WholeOf(s, l.p), FractOf(s, l.p))
    && (ZeroState(sc.state) || (SignedExp(sc) == LayoutExp(s, g, l) && sc.rflag == (r != l.neg)))
  }

  // ----- one more digit -----

  lemma {:induction false} LeadZerosAppend(m: seq<Digit>, d: Digit)
    ensures LeadZeros(m + [d]) == if TrimFront(m) == [] && d == 0 then |m| + 1 else LeadZeros(m)
  {
    if m == [] {
      assert (m + [d])[1..] == [];
    } else if m[0] == 0 {
      assert (m + [d])[1..] == m[1..] + [d];
      LeadZerosAppend(m[1..], d);
    }
  }

  lemma {:induction false} CodedAppend(ds: seq<Digit>, d: Digit, rflag: bool)
    ensures Coded(ds + [d], rflag) == Coded(ds, rflag) + [Emit(d + ZERO, rflag)]
  {
    assert DigitBytes(ds + [d]) == DigitBytes(ds) + [d + ZERO];
  }

  /** Reading digit d moves the mantissa from m to m + [d]. */
  lemma {:induction false} AppendDigit(m: seq<Digit>, d: Digit)
    ensures TrimFront(m) == [] && d == 0 ==> TrimFront(m + [d]) == [] && LeadZeros(m + [d]) == |m| + 1
    ensures TrimFront(m) != [] || d != 0 ==>
              TrimFront(m + [d]) == TrimFront(m) + [d] && LeadZeros(m + [d]) == LeadZeros(m)
  {
    LeadZerosAppend(m, d);
  }

  lemma {:induction false} TrailZerosAppend(t: seq<Digit>, d: Digit)
    ensures TrailZeros(t + [d]) == if d == 0 then TrailZeros(t) + 1 else 0
  {
    assert (t + [d])[..|t|] == t;
  }

  /** A digit that is stored extends what the scanner holds. */
  lemma {:induction false} StoreDigit(st: Stored, rflag: bool, whole: seq<Digit>, fract: seq<Digit>, d: Digit, inWhole: bool)
    requires Holds(st, rflag, whole, fract)
    requires st.out != [] || d != 0
    requires inWhole ==> fract == []
    ensures var next := Store(st, d + ZERO, rflag, if inWhole then 1 else 0);
            && Holds(next, rflag, if inWhole then whole + [d] else whole, if inWhole then [] else fract + [d])
            && next.out != []
  {
    var m := whole + fract;
    AppendDigit(m, d);
    TrailZerosAppend(TrimFront(m), d);
    CodedAppend(TrimFront(m), d, rflag);
    assert whole + [d] + [] == whole + [d];
    assert whole + (fract + [d]) == m + [d];
    if inWhole {
      assert m == whole;
    }
  }

  /** A zero before the first significant digit is not stored. */
  lemma {:induction false} PassZero(st: Stored, rflag: bool, whole: seq<Digit>, fract: seq<Digit>, inWhole: bool)
    requires Holds(st, rflag, whole, fract) && st.out == []
    requires inWhole ==> fract == []
    ensures var next := if inWhole then st else st.(dp := st.dp - 1);
            Holds(next, rflag, if inWhole then whole + [0] else whole, if inWhole then [] else fract + [0])
  {
    var m := whole + fract;
    AppendDigit(m, 0);
    assert whole + [0] + [] == whole + [0];
    assert whole + (fract + [0]) == m + [0];
    if inWhole {
      assert m == whole;
    }
  }

  /** The scanner after a digit. */
  function OnDigit(sc: Scan, c: Byte): Scan
    requires IsDigit(c)
  {
    if c == ZERO then OnZero(sc) else OnNonzero(sc, c)
  }

  lemma {:induction false} WholeDigit(sc: Scan, m: seq<Digit>, d: Digit)
    requires Keeps(sc, m, []) && WholeState(sc.state)
    ensures var next := OnDigit(sc, d + ZERO);
            && (next.state == InZero || next.state == InDigit) && next.rflag == sc.rflag
            && next.exp == sc.exp && next.expsign == sc.expsign
            && Keeps(next, m + [d], [])
  {
    if d == 0 && ZeroState(sc.state) {
      PassZero(sc.st, sc.rflag, m, [], true);
    } else {
      StoreDigit(sc.st, sc.rflag, m, [], d, true);
    }
  }

  lemma {:induction false} FractDigit(sc: Scan, whole: seq<Digit>, m: seq<Digit>, d: Digit)
    requires Keeps(sc, whole, m) && FractState(sc.state)
    ensures var next := OnDigit(sc, d + ZERO);
            && FractState(next.state) && next.rflag == sc.rflag
            && next.exp == sc.exp && next.expsign == sc.expsign
            && Keeps(next, whole, m + [d])
  {
    if d == 0 && ZeroState(sc.state) {
      PassZero(sc.st, sc.rflag, whole, m, false);
    } else {
      StoreDigit(sc.st, sc.rflag, whole, m, d, false);
    }
  }

  // ----- one turn of the loop -----

  /** What one turn must establish: the invariant after it, or the end of the number. */
  predicate StepOk(sc: Scan, s: seq<Byte>, g: bool, l: Layout, r: bool, i: nat)
    requires i < |s| && Fits(s, g, l)
  {
    match Step(sc, s[i], g)
    case Some(next) => Tracks(next, s, g, l, r, i + 1)
    case None => Done(sc, s, g, l, r)
  }

  lemma {:induction false} StepOnDigit(sc: Scan, c: Byte, g: bool)
    requires IsDigit(c)
    ensures Step(sc, c, g) == Some(OnDigit(sc, c))
  {
  }

  lemma {:induction false} WholeDigitStep(sc: Scan, s: seq<Byte>, g: bool, l: Layout, r: bool, i: nat)
    requires Fits(s, g, l) && AtWhole(sc, s, l, i) && WholeState(sc.state) && sc.rflag == (r != l.neg)
    requires i < l.p.wholeEnd
    ensures StepOk(sc, s, g, l, r, i)
  {
    WholeDigit(sc, Read(s, l.p.whole, i), DigitOf(s[i]));
    StepOnDigit(sc, s[i], g);
    assert AtWhole(OnDigit(sc, s[i]), s, l, i + 1);
  }

  lemma {:induction false} PointKeeps(sc: Scan, m: seq<Digit>)
    requires Keeps(sc, m, []) && WholeState(sc.state)
    ensures var next := OnPoint(sc);
            && next.Some? && FractState(next.value.state) && Keeps(next.value, m, [])
            && next.value.rflag == sc.rflag && next.value.exp == sc.exp && next.value.expsign == sc.expsign
  {
  }

  lemma {:induction false} WholePointStep(sc: Scan, s: seq<Byte>, g: bool, l: Layout, r: bool, i: nat)
    requires Fits(s, g, l) && AtWhole(sc, s, l, i) && WholeState(sc.state) && sc.rflag == (r != l.neg)
    requires i == l.p.wholeEnd < |s| && s[i] == POINT
    ensures StepOk(sc, s, g, l, r, i)
  {
    assert Read(s, l.p.fract, i + 1) == [];
    PointKeeps(sc, Read(s, l.p.whole, i));
    assert AtFract(OnPoint(sc).value, s, l, i + 1);
  }

  /** The character after the digits of the whole part that is not a point. */
  lemma {:induction false} WholeEndStep(sc: Scan, s: seq<Byte>, g: bool, l: Layout, r: bool, i: nat)
    requires Fits(s, g, l) && AtWhole(sc, s, l, i) && WholeState(sc.state) && sc.rflag == (r != l.neg)
    requires i == l.p.wholeEnd < |s| && s[i] != POINT
    requires sc.state == InStart || sc.state == InSign ==> !IsBlank(s[i])
    requires sc.state == InStart ==> !IsSign(s[i])
    ensures StepOk(sc, s, g, l, r, i)
  {
    assert FractOf(s, l.p) == [];
    assert WholeOf(s, l.p) == Read(s, l.p.whole, i);
    assert WholeOf(s, l.p) + [] == WholeOf(s, l.p);
  }

  lemma {:induction false} AnyWholeStep(sc: Scan, s: seq<Byte>, g: bool, l: Layout, r: bool, i: nat)
    requires Fits(s, g, l) && AtWhole(sc, s, l, i) && WholeState(sc.state) && sc.rflag == (r != l.neg)
    requires i < |s|
    requires sc.state == InStart || sc.state == InSign ==> !IsBlank(s[i])
    requires sc.state == InStart ==> !IsSign(s[i])
    ensures StepOk(sc, s, g, l, r, i)
  {
    if i < l.p.wholeEnd {
      WholeDigitStep(sc, s, g, l, r, i);
    } else if s[i] == POINT {
      WholePointStep(sc, s, g, l, r, i);
    } else {
      WholeEndStep(sc, s, g, l, r, i);
    }
  }

  lemma {:induction false} StartStep(sc: Scan, s: seq<Byte>, g: bool, l: Layout, r: bool, i: nat)
    requires Fits(s, g, l) && i < |s| && Tracks(sc, s, g, l, r, i) && sc.state == InStart
    ensures StepOk(sc, s, g, l, r, i)
  {
    if !IsBlank(s[i]) {
      assert i == l.p.sign;
      if !IsSign(s[i]) {
        assert Read(s, l.p.whole, i) == [];
        AnyWholeStep(sc, s, g, l, r, i);
      }
    }
  }

  lemma {:induction false} SignStep(sc: Scan, s: seq<Byte>, g: bool, l: Layout, r: bool, i: nat)
    requires Fits(s, g, l) && i < |s| && Tracks(sc, s, g, l, r, i) && sc.state == InSign
    ensures StepOk(sc, s, g, l, r, i)
  {
    if !IsBlank(s[i]) {
      assert SignAt(s, l.p.sign) ==> i == l.p.whole;
      assert Read(s, l.p.whole, i) == [];
      AnyWholeStep(sc, s, g, l, r, i);
    }
  }

  lemma {:induction false} FractDigitStep(sc: Scan, s: seq<Byte>, g: bool, l: Layout, r: bool, i: nat)
    requires Fits(s, g, l) && AtFract(sc, s, l, i) && FractState(sc.state) && sc.rflag == (r != l.neg)
    requires i < l.p.fractEnd
    ensures StepOk(sc, s, g, l, r, i)
  {
    FractDigit(sc, WholeOf(s, l.p), Read(s, l.p.fract, i), DigitOf(s[i]));
    StepOnDigit(sc, s[i], g);
    assert AtFract(OnDigit(sc, s[i]), s, l, i + 1);
  }

  lemma {:induction false} FractEndStep(sc: Scan, s: seq<Byte>, g: bool, l: Layout, r: bool, i: nat)
    requires Fits(s, g, l) && AtFract(sc, s, l, i) && FractState(sc.state) && sc.rflag == (r != l.neg)
    requires i == l.p.fractEnd < |s|
    ensures StepOk(sc, s, g, l, r, i)
  {
    hide Read;
    assert FractOf(s, l.p) == Read(s, l.p.fract, i);
    assert !IsDigit(s[i]);
  }

  lemma {:induction false} ReadOneMore(s: seq<Byte>, i: nat, j: nat)
    requires i <= j < |s|
    ensures Whole(Read(s, i, j + 1)) == 10 * Whole(Read(s, i, j)) + DigitOf(s[j])
  {
    var ds := Read(s, i, j + 1);
    assert ds[..|ds| - 1] == Read(s, i, j);
  }

  lemma {:induction false} RunGoesOn(s: seq<Byte>, a: nat, i: nat, j: nat)
    requires DigitRun(s, a, j) && a <= i <= j && i < |s| && IsDigit(s[i])
    ensures i < j
  {
  }

  lemma {:induction false} ExpBeforeDigit(sc: Scan, s: seq<Byte>, g: bool, l: Layout, i: nat)
    requires Fits(s, g, l) && i < |s| && AtExp(sc, s, g, l, i) && ExpState(sc.state) && IsDigit(s[i])
    ensures l.expStart <= i < l.expEnd && sc.exp == Whole(Read(s, l.expStart, i)) && sc.expsign == l.negExp
  {
    if sc.state == InExp {
      assert !SignAt(s, i) && !MinusAt(s, i);
    }
    RunGoesOn(s, l.expStart, i, l.expEnd);
  }

  lemma {:induction false} OnExpDigit(sc: Scan, c: Byte)
    requires ExpState(sc.state) && IsDigit(c)
    ensures OnDigit(sc, c) == Scan(InExpDigit, sc.st, 10 * sc.exp + DigitOf(c), sc.expsign, sc.rflag)
  {
  }

  lemma {:induction false} ExpAfterDigit(sc: Scan, s: seq<Byte>, g: bool, l: Layout, i: nat)
    requires Fits(s, g, l) && l.expo && l.expStart <= i < l.expEnd && Keeps(sc, WholeOf(s, l.p), FractOf(s, l.p))
    requires sc.exp == Whole(Read(s, l.expStart, i)) && sc.expsign == l.negExp && ExpState(sc.state)
    ensures AtExp(Scan(InExpDigit, sc.st, 10 * sc.exp + DigitOf(s[i]), sc.expsign, sc.rflag), s, g, l, i + 1)
  {
    ReadOneMore(s, l.expStart, i);
  }

  lemma {:induction false} ExpDigitStep(sc: Scan, s: seq<Byte>, g: bool, l: Layout, r: bool, i: nat)
    requires Fits(s, g, l) && i < |s| && AtExp(sc, s, g, l, i) && ExpState(sc.state)
    requires sc.rflag == (r != l.neg) && IsDigit(s[i])
    ensures StepOk(sc, s, g, l, r, i)
  {
    ExpBeforeDigit(sc, s, g, l, i);
    ExpAfterDigit(sc, s, g, l, i);
    OnExpDigit(sc, s[i]);
    StepOnDigit(sc, s[i], g);
  }

  lemma {:induction false} ExpSignStep(sc: Scan, s: seq<Byte>, g: bool, l: Layout, r: bool, i: nat)
    requires Fits(s, g, l) && i < |s| && AtExp(sc, s, g, l, i) && sc.state == InExp
    requires sc.rflag == (r != l.neg) && IsSign(s[i])
    ensures StepOk(sc, s, g, l, r, i)
  {
  }

  lemma {:induction false} ExpEndStep(sc: Scan, s: seq<Byte>, g: bool, l: Layout, r: bool, i: nat)
    requires Fits(s, g, l) && i < |s| && AtExp(sc, s, g, l, i) && ExpState(sc.state)
    requires sc.rflag == (r != l.neg) && !IsDigit(s[i]) && (IsSign(s[i]) ==> sc.state != InExp)
    ensures StepOk(sc, s, g, l, r, i)
  {
  }

  lemma {:induction false} StepTracks(sc: Scan, s: seq<Byte>, g: bool, l: Layout, r: bool, i: nat)
    requires Fits(s, g, l) && i < |s| && Tracks(sc, s, g, l, r, i)
    ensures StepOk(sc, s, g, l, r, i)
  {
    match sc.state
    case InStart => StartStep(sc, s, g, l, r, i);
    case InSign => SignStep(sc, s, g, l, r, i);
    case InZero | InDigit => AnyWholeStep(sc, s, g, l, r, i);
    case InPoint | InZeroFract | InFract =>
      if i < l.p.fractEnd {
        FractDigitStep(sc, s, g, l, r, i);
      } else {
        FractEndStep(sc, s, g, l, r, i);
      }
    case InExp | InExpSign | InExpDigit =>
      if IsDigit(s[i]) {
        ExpDigitStep(sc, s, g, l, r, i);
      } else if IsSign(s[i]) && sc.state == InExp {
        ExpSignStep(sc, s, g, l, r, i);
      } else {
        ExpEndStep(sc, s, g, l, r, i);
      }
  }

  lemma {:induction false} EndWhole(sc: Scan, s: seq<Byte>, g: bool, l: Layout, r: bool)
    requires Fits(s, g, l) && AtWhole(sc, s, l, |s|) && WholeState(sc.state) && sc.rflag == (r != l.neg)
    ensures Done(sc, s, g, l, r)
  {
    assert WholeOf(s, l.p) + [] == WholeOf(s, l.p);
  }

  lemma {:induction false} EndFract(sc: Scan, s: seq<Byte>, g: bool, l: Layout, r: bool)
    requires Fits(s, g, l) && AtFract(sc, s, l, |s|) && FractState(sc.state) && sc.rflag == (r != l.neg)
    ensures Done(sc, s, g, l, r)
  {
  }

  lemma {:induction false} EndBlank(sc: Scan, s: seq<Byte>, g: bool, l: Layout, r: bool)
    requires Fits(s, g, l) && Tracks(sc, s, g, l, r, |s|) && (sc.state == InStart || sc.state == InSign)
    ensures Done(sc, s, g, l, r)
  {
    assert WholeOf(s, l.p) == [] && FractOf(s, l.p) == [];
  }

  lemma {:induction false} EndExp(sc: Scan, s: seq<Byte>, g: bool, l: Layout, r: bool)
    requires Fits(s, g, l) && AtExp(sc, s, g, l, |s|) && ExpState(sc.state) && sc.rflag == (r != l.neg)
    ensures Done(sc, s, g, l, r)
  {
  }

  /** The end of the field ends the number. */
  lemma {:induction false} EndDone(sc: Scan, s: seq<Byte>, g: bool, l: Layout, r: bool)
    requires Fits(s, g, l) && Tracks(sc, s, g, l, r, |s|)
    ensures Done(sc, s, g, l, r)
  {
    match sc.state
    case InStart | InSign => EndBlank(sc, s, g, l, r);
    case InZero | InDigit => EndWhole(sc, s, g, l, r);
    case InPoint | InZeroFract | InFract =>
      EndFract(sc, s, g, l, r);
    case InExp | InExpSign | InExpDigit => EndExp(sc, s, g, l, r);
  }

  // ----- the whole scan -----

  lemma {:induction false} SignificantIffTrimmed(m: seq<Digit>)
    ensures Significant(m) == [] <==> TrimFront(m) == []
  {
    var t := TrimFront(m);
    if t != [] {
      FirstStops(t);
    }
  }

  lemma {:induction false} FirstStops(t: seq<Digit>)
    requires t != [] && t[0] != 0
    ensures TrailZeros(t) < |t|
  {
    if t[|t| - 1] == 0 {
      FirstStops(t[..|t| - 1]);
    }
  }

  lemma {:induction false} LayMantissa(s: seq<Byte>)
    ensures FitsMantissa(s, Split(s), Negative(s))
  {
  }

  /** The layout of a field, in the terms of its reading as a numeral. */
  lemma {:induction false} Lay(s: seq<Byte>, g: bool) returns (l: Layout)
    ensures Fits(s, g, l)
    ensures l.p == Split(s) && l.neg == Negative(s)
    ensures LayoutExp(s, g, l) == Exponent(s, g)
  {
    var p := Split(s);
    LayMantissa(s);
    SignificantIffTrimmed(Mantissa(s));
    if HasExponent(s, g) {
      var y := ExponentStart(s);
      l := Layout(p, Negative(s), true, NegativeExponent(s), y, Digits(s, y));
    } else {
      l := Layout(p, Negative(s), false, false, 0, 0);
    }
  }

  /** The stored digits without their trailing zeros are the significant digits. */
  lemma {:induction false} StoredSignificant(st: Stored, rflag: bool, whole: seq<Digit>, fract: seq<Digit>)
    requires Holds(st, rflag, whole, fract)
    ensures st.nzero <= |st.out|
    ensures st.out[..|st.out| - st.nzero] == Coded(Significant(whole + fract), rflag)
  {
    var t := TrimFront(whole + fract);
    assert DigitBytes(t)[..|t| - TrailZeros(t)] == DigitBytes(TrimBack(t));
  }

  /** Storing ~dp stores the complements of the bytes of dp. */
  lemma {:induction false} PointBytesInverted(dp: int)
    ensures PointBytes(-dp - 1) == Invert(PointBytes(dp))
  {
    assert (-dp - 1) % 256 == 255 - dp % 256;
    assert (-dp - 1) / 256 == -(dp / 256) - 1;
    assert (-(dp / 256) - 1) % 256 == 255 - (dp / 256) % 256;
  }

  lemma {:induction false} CodedKey(n: Number, r: bool)
    requires n.digits != []
    ensures var rflag := r != n.neg;
            var dp: int := if rflag then -n.dp - 1 else n.dp;
            NumberKey(n, r) == [if rflag then 0x10 else 0x30] + PointBytes(dp)
                               + Coded(n.digits, rflag) + [if rflag then 255 else 0]
  {
    var d := DigitBytes(n.digits) + [0];
    InvertConcat(PointBytes(n.dp), d);
    InvertConcat(DigitBytes(n.digits), [0]);
    PointBytesInverted(n.dp);
  }

  /** The fresh scanner at the start of any field. */
  lemma {:induction false} StartTracks(s: seq<Byte>, g: bool, l: Layout, r: bool)
    requires Fits(s, g, l)
    ensures Tracks(Scan(InStart, Stored([], 0, BIAS), 0, false, r), s, g, l, r, 0)
  {
  }

  /** The key left by the code after the loop: sign and point are stored in front of the digits. */
  function Finished(sc: Scan): Key
    requires sc.st.nzero <= |sc.st.out|
  {
    if ZeroState(sc.state) then [0x20, 0]
    else
      var dp: int := sc.st.dp + SignedExp(sc);
      var shown := if sc.rflag then -dp - 1 else dp;
      [if sc.rflag then 0x10 else 0x30] + PointBytes(shown)
      + sc.st.out[..|sc.st.out| - sc.st.nzero] + [if sc.rflag then 255 else 0]
  }

  lemma {:induction false} FinishedIsNumberKey(sc: Scan, n: Number, r: bool)
    requires !ZeroState(sc.state) && n.digits != [] && sc.rflag == (r != n.neg)
    requires sc.st.nzero <= |sc.st.out| && sc.st.out[..|sc.st.out| - sc.st.nzero] == Coded(n.digits, sc.rflag)
    requires sc.st.dp + SignedExp(sc) == n.dp
    ensures Finished(sc) == NumberKey(n, r)
  {
    CodedKey(n, r);
  }

  lemma {:induction false} DoneKey(sc: Scan, s: seq<Byte>, g: bool, l: Layout, r: bool)
    requires Fits(s, g, l) && Done(sc, s, g, l, r) && !ZeroState(sc.state)
    requires l.p == Split(s) && l.neg == Negative(s) && LayoutExp(s, g, l) == Exponent(s, g)
    ensures sc.st.nzero <= |sc.st.out| && Finished(sc) == FieldKey(s, g, r)
  {
    var w, f := WholePart(s), FractPart(s);
    StoredSignificant(sc.st, sc.rflag, w, f);
    SignificantIffTrimmed(w + f);
    FinishedIsNumberKey(sc, Normal(s, g), r);
  }

  lemma {:induction false} DoneZeroKey(sc: Scan, s: seq<Byte>, g: bool, l: Layout, r: bool)
    requires Fits(s, g, l) && Done(sc, s, g, l, r) && ZeroState(sc.state)
    requires l.p == Split(s)
    ensures sc.st.nzero <= |sc.st.out| && Finished(sc) == FieldKey(s, g, r)
  {
    StoredSignificant(sc.st, sc.rflag, WholePart(s), FractPart(s));
    SignificantIffTrimmed(Mantissa(s));
  }

  /** The loop of dokey_gn: one pass, up to the character that ends the number. */
  method ScanNumber(text: seq<Byte>, g: bool, r: bool, ghost l: Layout) returns (sc: Scan)
    requires Fits(text, g, l)
    ensures Done(sc, text, g, l, r)
  {
    hide Tracks, Done, Fits, Step;
    sc := Scan(InStart, Stored([], 0, BIAS), 0, false, r);
    StartTracks(text, g, l, r);
    for i := 0 to |text|
      invariant Tracks(sc, text, g, l, r, i)
    {
      StepTracks(sc, text, g, l, r, i);
      match Step(sc, text[i], g) {
        case Some(next) => sc := next;
        case None => return;
      }
    }
    EndDone(sc, text, g, l, r);
  }

  /** The code after the loop. */
  method Finish(sc: Scan) returns (t: Key)
    requires sc.st.nzero <= |sc.st.out|
    ensures t == Finished(sc)
  {
    if ZeroState(sc.state) {
      return [0x20, 0];
    }
    var dp := sc.st.dp;
    if ExpState(sc.state) {
      dp := dp + if sc.expsign then -sc.exp else sc.exp;
    }
    var c, terminator := 0x30, 0;
    if sc.rflag {
      c, terminator, dp := 0x10, 255, -dp - 1;
    }
    t := [c] + PointBytes(dp) + sc.st.out[..|sc.st.out| - sc.st.nzero] + [terminator];
  }

  /** Append the key of a numeric field. */
  method DokeyGn(k: Key, text: seq<Byte>, g: bool, r: bool) returns (k': Key)
    ensures k' == k + FieldKey(text, g, r)
  {
    ghost var l := Lay(text, g);
    var sc := ScanNumber(text, g, r, l);
    if ZeroState(sc.state) {
      DoneZeroKey(sc, text, g, l, r);
    } else {
      DoneKey(sc, text, g, l, r);
    }
    var t := Finish(sc);
    k' := k + t;
  }
}
