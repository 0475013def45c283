// How sed runs a compiled program, and the structured script it stands for.

/** execute and executable of sed.c, against a reading of the script that keeps its blocks. */
module SedRun {
  import opened Basics
  import opened SedCompile

  /** A script with its blocks. */
  datatype Stmt =
    | Cmd(id: nat, neg: bool)
    | Block(id: nat, neg: bool, body: seq<Stmt>)
    | Branch(id: nat, neg: bool, cond: bool, to: Option<Name>)
    | Mark(name: Name)

  /** The script as the compiler gets it. */
  function Tokens(ss: seq<Stmt>): (ts: seq<Token>)
  {
    if ss == [] then [] else
    (match ss[0]
     case Cmd(id, neg) => [Plain(id, neg)]
     case Block(id, neg, body) => [Open(id, neg)] + Tokens(body) + [Close]
     case Branch(id, neg, cond, to) => [Jump(id, neg, cond, to)]
     case Mark(n) => [Label(n)]) + Tokens(ss[1..])
  }

  lemma {:induction false} TokensConcat(a: seq<Stmt>, b: seq<Stmt>)
    ensures Tokens(a + b) == Tokens(a) + Tokens(b)
  {
    if a == [] {
      assert a + b == b;
    } else {
      TokensConcat(a[1..], b);
      assert (a + b)[1..] == a[1..] + b;
    }
  }

  /** The number of commands in a list of statements. */
  function Size(ss: seq<Stmt>): nat {
    if ss == [] then 0 else
    (match ss[0]
     case Block(_, _, body) => 1 + Size(body)
     case Mark(_) => 0
     case _ => 1) + Size(ss[1..])
  }

  /** What is left to run after a label: the rest of its list and of the lists around it. */
  function After(ss: seq<Stmt>, n: Name): (r: Option<seq<Stmt>>)
  {
    if ss == [] then None
    else if ss[0] == Mark(n) then Some(ss[1..])
    else if ss[0].Block? then
      (match After(ss[0].body, n)
       case Some(r) => Some(r + ss[1..])
       case None => After(ss[1..], n))
    else After(ss[1..], n)
  }

  lemma {:induction false} AfterConcat(a: seq<Stmt>, b: seq<Stmt>, n: Name)
    ensures After(a + b, n) == if After(a, n).Some? then Some(After(a, n).value + b) else After(b, n)
  {
    if a == [] {
      assert a + b == b;
    } else {
      AfterConcat(a[1..], b, n);
      assert (a + b)[1..] == a[1..] + b;
      if a[0].Block? && After(a[0].body, n).Some? {
        var r := After(a[0].body, n).value;
        assert r + (a[1..] + b) == r + a[1..] + b;
      }
    }
  }

  /** Something follows a label exactly if it is defined somewhere in the statements. */
  lemma {:induction false} AfterDefined(ss: seq<Stmt>, n: Name)
    ensures After(ss, n).Some? <==> Label(n) in Tokens(ss)
  {
    if ss != [] {
      AfterDefined(ss[1..], n);
      if ss[0].Block? {
        AfterDefined(ss[0].body, n);
      }
    }
  }

  /**
   * What the commands do, whatever that is. applies evaluates the addresses of a command without its !, act
   * runs a command that does not branch and says if the cycle ends there, tested tests and clears the flag
   * that t looks at.
   */
  datatype Env<!W> = Env(applies: (nat, W) -> (bool, W), act: (nat, W) -> (W, bool), tested: W -> (bool, W))

  /** A run of the structured script: the statements left, and whether the cycle has ended. */
  datatype Reading<W> = Reading(rest: seq<Stmt>, w: W, done: bool)

  function Strip(ss: seq<Stmt>): seq<Stmt> {
    if ss != [] && ss[0].Mark? then Strip(ss[1..]) else ss
  }

  function Destination(script: seq<Stmt>, to: Option<Name>): seq<Stmt> {
    match to
    case None => []
    case Some(n) => (match After(script, n) case Some(r) => r case None => [])
  }

  /** One step of the structured reading. A block is entered where its addresses apply, and skipped elsewhere. */
  function Read<W>(script: seq<Stmt>, env: Env<W>, c: Reading<W>): Reading<W> {
    var ss := Strip(c.rest);
    if c.done then c
    else if ss == [] then c.(done := true)
    else
      var s, tail := ss[0], ss[1..];
      match s
      case Mark(_) => c
      case Cmd(id, neg) =>
        var a := env.applies(id, c.w);
        if a.0 == neg then Reading(tail, a.1, false) else
        var e := env.act(id, a.1);
        Reading(tail, e.0, e.1)
      case Block(id, neg, body) =>
        var a := env.applies(id, c.w);
        Reading(if a.0 == neg then tail else body + tail, a.1, false)
      case Branch(id, neg, cond, to) =>
        var a := env.applies(id, c.w);
        if a.0 == neg then Reading(tail, a.1, false)
        else if !cond then Reading(Destination(script, to), a.1, false)
        else
          var t := env.tested(a.1);
          Reading(if t.0 then Destination(script, to) else tail, t.1, false)
  }

  function ReadFor<W>(script: seq<Stmt>, env: Env<W>, c: Reading<W>, n: nat): Reading<W> {
    if n == 0 then c else Read(script, env, ReadFor(script, env, c, n - 1))
  }

  /** A run of the flat program. */
  datatype Running<W> = Running(pc: nat, w: W, done: bool)

  function Goto<W>(lb1: Option<nat>, w: W): Running<W> {
    match lb1
    case Some(pc) => Running(pc, w, false)
    case None => Running(0, w, true)
  }

  /** One turn of the loop in execute. */
  function Turn<W>(p: seq<Slot>, env: Env<W>, c: Running<W>): Running<W> {
    if c.done || c.pc >= |p| then c
    else if p[c.pc].op == NoCom then c.(done := true)
    else
      var s := p[c.pc];
      var a := env.applies(s.id, c.w);
      if a.0 == s.negfl then Running(c.pc + 1, a.1, false)
      else
        match s.op
        case BCom => Goto(s.lb1, a.1)
        case TCom =>
          var t := env.tested(a.1);
          if t.0 then Goto(s.lb1, t.1) else Running(c.pc + 1, t.1, false)
        case _ =>
          var e := env.act(s.id, a.1);
          Running(c.pc + 1, e.0, e.1)
  }

  function RunFor<W>(p: seq<Slot>, env: Env<W>, c: Running<W>, n: nat): Running<W> {
    if n == 0 then c else Turn(p, env, RunFor(p, env, c, n - 1))
  }

  // ----- the program laid out as the script -----

  /** Where a branch to a label or to the end must lead. */
  ghost function Place(ts: seq<Token>, to: Option<Name>): Option<nat> {
    if to == None then Some(Slots(ts, |ts|)) else Address(ts, to.value, |ts|)
  }

  /** From slot pc on the program runs these statements. */
  ghost predicate Laid(ts: seq<Token>, p: seq<Slot>, pc: nat, ss: seq<Stmt>)
    decreases |Tokens(ss)|
  {
    if ss == [] then pc == Slots(ts, |ts|) else
    match ss[0]
    case Cmd(id, neg) => pc < |p| && p[pc] == Head(Plain(id, neg), None) && Laid(ts, p, pc + 1, ss[1..])
    case Mark(n) => Address(ts, n, |ts|) == Some(pc) && Laid(ts, p, pc, ss[1..])
    case Branch(id, neg, cond, to) =>
      && pc < |p| && p[pc] == Head(Jump(id, neg, cond, to), Place(ts, to)) && Place(ts, to).Some?
      && Laid(ts, p, pc + 1, ss[1..])
    case Block(id, neg, body) =>
      TokensConcat(body, ss[1..]);
      && pc < |p| && p[pc] == Head(Open(id, neg), Some(pc + 1 + Size(body)))
      && Laid(ts, p, pc + 1, body + ss[1..]) && Laid(ts, p, pc + 1 + Size(body), ss[1..])
  }

  /** A label in the statements laid out at pc: what follows it is laid out at its address. */
  lemma {:induction false} AfterLaid(ts: seq<Token>, p: seq<Slot>, pc: nat, ss: seq<Stmt>, n: Name)
    requires Laid(ts, p, pc, ss) && After(ss, n).Some?
    ensures Address(ts, n, |ts|).Some? && Laid(ts, p, Address(ts, n, |ts|).value, After(ss, n).value)
    decreases |Tokens(ss)|
  {
    if ss[0] != Mark(n) {
      match ss[0] {
        case Block(_, _, body) =>
          TokensConcat(body, ss[1..]);
          AfterConcat(body, ss[1..], n);
          AfterLaid(ts, p, pc + 1, body + ss[1..], n);
        case Mark(_) => AfterLaid(ts, p, pc, ss[1..], n);
        case _ => AfterLaid(ts, p, pc + 1, ss[1..], n);
      }
    }
  }

  /** The tokens of a list of statements that begins with a block. */
  lemma {:induction false} BlockTokens(ts: seq<Token>, k: nat, ss: seq<Stmt>)
    requires k + |Tokens(ss)| <= |ts| && ts[k..k + |Tokens(ss)|] == Tokens(ss) && ss != [] && ss[0].Block?
    ensures var b := |Tokens(ss[0].body)|;
            && |Tokens(ss)| == b + 2 + |Tokens(ss[1..])|
            && ts[k] == Open(ss[0].id, ss[0].neg) && ts[k + 1 + b] == Close
            && ts[k + 1..k + 1 + b] == Tokens(ss[0].body)
            && ts[k + b + 2..k + |Tokens(ss)|] == Tokens(ss[1..])
  {
    Pieces(ts, k, Open(ss[0].id, ss[0].neg), Tokens(ss[0].body), Close, Tokens(ss[1..]));
  }

  lemma {:induction false} Pieces(ts: seq<Token>, k: nat, x: Token, a: seq<Token>, y: Token, b: seq<Token>)
    requires k + |a| + |b| + 2 <= |ts| && ts[k..k + |a| + |b| + 2] == [x] + a + [y] + b
    ensures ts[k] == x && ts[k + 1 + |a|] == y
    ensures ts[k + 1..k + 1 + |a|] == a && ts[k + |a| + 2..k + |a| + |b| + 2] == b
  {
    var all := ts[k..k + |a| + |b| + 2];
    assert all[0] == x && all[1 + |a|] == y;
    Within(ts, k, k + |a| + |b| + 2, 1, 1 + |a|);
    Within(ts, k, k + |a| + |b| + 2, |a| + 2, |a| + |b| + 2);
    var h := [x] + a + [y];
    assert (h + b)[|h|..] == b && (h + b)[1..1 + |a|] == h[1..1 + |a|];
    assert h[1..1 + |a|] == a;
  }

  lemma {:induction false} Within(ts: seq<Token>, k: nat, m: nat, i: nat, j: nat)
    requires k <= m <= |ts| && i <= j <= m - k
    ensures ts[k..m][i..j] == ts[k + i..k + j]
  {
    var a, b := ts[k..m][i..j], ts[k + i..k + j];
    forall n | 0 <= n < j - i
      ensures a[n] == b[n]
    {
      assert a[n] == ts[k..m][i + n] == ts[k + (i + n)] == b[n];
    }
  }

  lemma {:induction false} OneToken(ts: seq<Token>, k: nat, ss: seq<Stmt>)
    requires k + |Tokens(ss)| <= |ts| && ts[k..k + |Tokens(ss)|] == Tokens(ss) && ss != [] && !ss[0].Block?
    ensures |Tokens(ss)| == 1 + |Tokens(ss[1..])| && ts[k] == Tokens(ss)[0]
    ensures ts[k + 1..k + |Tokens(ss)|] == Tokens(ss[1..])
  {
    var all := ts[k..k + |Tokens(ss)|];
    assert all[0] == ts[k] && all[1..] == ts[k + 1..k + |Tokens(ss)|];
  }

  /** Scanning for a brace passes over complete statements. */
  lemma {:induction false} MatchOver(ts: seq<Token>, k: nat, d: nat, ss: seq<Stmt>)
    requires k + |Tokens(ss)| <= |ts| && ts[k..k + |Tokens(ss)|] == Tokens(ss)
    ensures MatchFrom(ts, k, d) == MatchFrom(ts, k + |Tokens(ss)|, d)
    ensures Slots(ts, k + |Tokens(ss)|) == Slots(ts, k) + Size(ss)
    decreases ss
  {
    hide Tokens, MatchFrom, Slots;
    if ss == [] {
      NoTokens();
    } else if ss[0].Block? {
      BlockTokens(ts, k, ss);
      MatchOver(ts, k + 1, d + 1, ss[0].body);
      MatchOver(ts, k + |Tokens(ss[0].body)| + 2, d, ss[1..]);
      OverBrace(ts, k, d);
      OverBrace(ts, k + |Tokens(ss[0].body)| + 1, d + 1);
    } else {
      OneToken(ts, k, ss);
      MatchOver(ts, k + 1, d, ss[1..]);
      OverOne(ts, k, d, ss);
    }
  }

  lemma {:induction false} OverBrace(ts: seq<Token>, k: nat, d: nat)
    requires k < |ts|
    ensures ts[k].Open? ==> MatchFrom(ts, k, d) == MatchFrom(ts, k + 1, d + 1) && Slots(ts, k + 1) == Slots(ts, k) + 1
    ensures ts[k].Close? && d > 0 ==> MatchFrom(ts, k, d) == MatchFrom(ts, k + 1, d - 1) && Slots(ts, k + 1) == Slots(ts, k)
  {
  }

  lemma {:induction false} OverOne(ts: seq<Token>, k: nat, d: nat, ss: seq<Stmt>)
    requires k < |ts| && ss != [] && !ss[0].Block? && ts[k] == Tokens(ss)[0]
    ensures MatchFrom(ts, k, d) == MatchFrom(ts, k + 1, d)
    ensures Slots(ts, k + 1) + Size(ss[1..]) == Slots(ts, k) + Size(ss)
  {
  }

  lemma {:induction false} DefinitionIs(ts: seq<Token>, k: nat, n: Name, j: nat)
    requires k < j <= |ts| && ts[k] == Label(n) && Unique(ts, |ts|)
    ensures Definition(ts, n, j) == Some(k)
  {
    var d := Definition(ts, n, j);
    assert d.Some?;
  }

  /** Statements whose tokens begin at k are laid out from its slot on, with what follows them. */
  lemma {:induction false} LaidFrom(ts: seq<Token>, p: seq<Slot>, k: nat, ss: seq<Stmt>, cont: seq<Stmt>)
    requires Compiled(ts, p) && WellFormed(ts)
    requires k + |Tokens(ss)| <= |ts| && ts[k..k + |Tokens(ss)|] == Tokens(ss)
    requires Laid(ts, p, Slots(ts, k + |Tokens(ss)|), cont)
    ensures Laid(ts, p, Slots(ts, k), ss + cont)
    decreases ss, 1
  {
    hide Tokens, Laid, Compiled, WellFormed, MatchFrom;
    if ss == [] {
      NoTokens();
      assert ss + cont == cont;
    } else if ss[0].Block? {
      BlockTokens(ts, k, ss);
      LaidFrom(ts, p, k + |Tokens(ss[0].body)| + 2, ss[1..], cont);
      LaidBlock(ts, p, k, ss, cont);
    } else {
      OneToken(ts, k, ss);
      LaidFrom(ts, p, k + 1, ss[1..], cont);
      LaidOne(ts, p, k, ss, cont);
    }
  }

  lemma {:induction false} NoTokens()
    ensures Tokens([]) == []
  {
  }

  lemma {:induction false} LaidOne(ts: seq<Token>, p: seq<Slot>, k: nat, ss: seq<Stmt>, cont: seq<Stmt>)
    requires Compiled(ts, p) && WellFormed(ts) && ss != [] && !ss[0].Block?
    requires k < |ts| && ts[k] == Tokens(ss)[0]
    requires Laid(ts, p, Slots(ts, k + 1), ss[1..] + cont)
    ensures Laid(ts, p, Slots(ts, k), ss + cont)
  {
    assert (ss + cont)[1..] == ss[1..] + cont && (ss + cont)[0] == ss[0];
    if ss[0].Mark? {
      DefinitionIs(ts, k, ss[0].name, |ts|);
    } else {
      assert InSlot(ts, p, k, Target(ts, k));
    }
  }

  lemma {:induction false} LaidBlock(ts: seq<Token>, p: seq<Slot>, k: nat, ss: seq<Stmt>, cont: seq<Stmt>)
    requires Compiled(ts, p) && WellFormed(ts) && ss != [] && ss[0].Block?
    requires k + |Tokens(ss)| <= |ts| && ts[k..k + |Tokens(ss)|] == Tokens(ss)
    requires k + |Tokens(ss[0].body)| + 2 <= |ts| && Laid(ts, p, Slots(ts, k + |Tokens(ss[0].body)| + 2), ss[1..] + cont)
    ensures Laid(ts, p, Slots(ts, k), ss + cont)
    decreases ss, 0
  {
    hide Tokens, Compiled, WellFormed, MatchFrom, Slots, Laid;
    var body := ss[0].body;
    var b := |Tokens(body)|;
    BlockTokens(ts, k, ss);
    OverBrace(ts, k, 0);
    OverBrace(ts, k + 1 + b, 1);
    LaidFrom(ts, p, k + 1, body, ss[1..] + cont);
    MatchOver(ts, k + 1, 0, body);
    BraceSlot(ts, p, k, k + 1 + b);
    assert (ss + cont)[1..] == ss[1..] + cont && (ss + cont)[0] == ss[0];
    BlockIsLaid(ts, p, Slots(ts, k), ss + cont);
  }

  lemma {:induction false} BlockIsLaid(ts: seq<Token>, p: seq<Slot>, pc: nat, ss: seq<Stmt>)
    requires ss != [] && ss[0].Block? && pc < |p|
    requires p[pc] == Head(Open(ss[0].id, ss[0].neg), Some(pc + 1 + Size(ss[0].body)))
    requires Laid(ts, p, pc + 1, ss[0].body + ss[1..]) && Laid(ts, p, pc + 1 + Size(ss[0].body), ss[1..])
    ensures Laid(ts, p, pc, ss)
  {
    hide Tokens;
  }

  /** The slot of a brace leads past the brace that closes it. */
  lemma {:induction false} BraceSlot(ts: seq<Token>, p: seq<Slot>, k: nat, c: nat)
    requires Compiled(ts, p) && k < c < |ts| && ts[k].Open? && ts[c] == Close
    requires MatchFrom(ts, k + 1, 0) == MatchFrom(ts, c, 0)
    ensures Slots(ts, k) < |p| && p[Slots(ts, k)] == Head(ts[k], Some(Slots(ts, c)))
  {
    assert InSlot(ts, p, k, Target(ts, k));
  }

  // ----- the two runs -----

  lemma {:induction false} StripLaid(ts: seq<Token>, p: seq<Slot>, pc: nat, ss: seq<Stmt>)
    requires Laid(ts, p, pc, ss)
    ensures Laid(ts, p, pc, Strip(ss))
    ensures Strip(ss) != [] ==> !Strip(ss)[0].Mark?
  {
    if ss != [] && ss[0].Mark? {
      StripLaid(ts, p, pc, ss[1..]);
    }
  }

  /** The flat run and the reading are at the same point. */
  ghost predicate Same<W>(ts: seq<Token>, p: seq<Slot>, c: Running<W>, r: Reading<W>) {
    c.w == r.w && c.done == r.done && (!c.done ==> Laid(ts, p, c.pc, r.rest))
  }

  lemma {:induction false} DestinationLaid(script: seq<Stmt>, ts: seq<Token>, p: seq<Slot>, to: Option<Name>)
    requires ts == Tokens(script) && Laid(ts, p, 0, script) && Place(ts, to).Some?
    ensures Laid(ts, p, Place(ts, to).value, Destination(script, to))
  {
    if to.Some? {
      var d := Definition(ts, to.value, |ts|).value;
      assert ts[d] == Label(to.value);
      AfterDefined(script, to.value);
      AfterLaid(ts, p, 0, script, to.value);
    }
  }

  lemma {:induction false} StepAlike<W>(script: seq<Stmt>, ts: seq<Token>, p: seq<Slot>, env: Env<W>, c: Running<W>, r: Reading<W>)
    requires ts == Tokens(script) && Laid(ts, p, 0, script) && Compiled(ts, p) && Same(ts, p, c, r)
    ensures Same(ts, p, Turn(p, env, c), Read(script, env, r))
  {
    hide Tokens, Compiled, Slots, Destination, Size, Place, Laid;
    if !c.done {
      StripLaid(ts, p, c.pc, r.rest);
      var ss := Strip(r.rest);
      if ss == [] {
        EndSlot(ts, p);
        EndLaid(ts, p, c.pc);
      } else {
        HeadLaid(ts, p, c.pc, ss);
        if ss[0].Branch? {
          DestinationLaid(script, ts, p, ss[0].to);
        }
      }
    }
  }

  lemma {:induction false} EndLaid(ts: seq<Token>, p: seq<Slot>, pc: nat)
    requires Laid(ts, p, pc, [])
    ensures pc == Slots(ts, |ts|)
  {
  }

  /** The slot of the first statement, and what is laid out after it. */
  lemma {:induction false} HeadLaid(ts: seq<Token>, p: seq<Slot>, pc: nat, ss: seq<Stmt>)
    requires Laid(ts, p, pc, ss) && ss != [] && !ss[0].Mark?
    ensures pc < |p|
    ensures match ss[0]
            case Cmd(id, neg) => p[pc] == Slot(OtherCom, id, neg, None) && Laid(ts, p, pc + 1, ss[1..])
            case Branch(id, neg, cond, to) =>
              && p[pc] == Slot(if cond then TCom else BCom, id, neg, Place(ts, to)) && Place(ts, to).Some?
              && Laid(ts, p, pc + 1, ss[1..])
            case Block(id, neg, body) =>
              && p[pc] == Slot(BCom, id, !neg, Some(pc + 1 + Size(body)))
              && Laid(ts, p, pc + 1, body + ss[1..]) && Laid(ts, p, pc + 1 + Size(body), ss[1..])
            case Mark(_) => true
  {
    hide Tokens, Slots, Place;
  }

  lemma {:induction false} EndSlot(ts: seq<Token>, p: seq<Slot>)
    requires Compiled(ts, p)
    ensures Slots(ts, |ts|) < |p| && p[Slots(ts, |ts|)].op == NoCom
  {
  }

  /**
   * After any number of steps, whatever its commands do, the compiled program has had the same effect as its
   * script read with blocks, and has ended if and only if the reading has.
   */
  lemma {:induction false} RunsAlike<W>(script: seq<Stmt>, p: seq<Slot>, env: Env<W>, w: W, n: nat)
    requires Compiled(Tokens(script), p) && WellFormed(Tokens(script))
    ensures var c := RunFor(p, env, Running(0, w, false), n);
            var r := ReadFor(script, env, Reading(script, w, false), n);
            c.w == r.w && c.done == r.done && Same(Tokens(script), p, c, r)
  {
    var ts := Tokens(script);
    if n == 0 {
      assert ts[0..0 + |Tokens(script)|] == Tokens(script);
      assert Laid(ts, p, Slots(ts, |ts|), []);
      LaidFrom(ts, p, 0, script, []);
      assert script + [] == script;
    } else {
      RunsAlike(script, p, env, w, n - 1);
      RunsAlike(script, p, env, w, 0);
      StepAlike(script, ts, p, env, RunFor(p, env, Running(0, w, false), n - 1),
                ReadFor(script, env, Reading(script, w, false), n - 1));
    }
  }

  // ----- every script has its blocks -----

  /** A block still open: its brace, and the statements before it in the list it stands in. */
  datatype Frame = Frame(brace: Token, before: seq<Stmt>)

  /** The tokens of the blocks still open, and of the statements of the innermost one. */
  ghost function Flatten(fs: seq<Frame>, cur: seq<Stmt>): seq<Token> {
    if fs == [] then Tokens(cur) else
    var f := fs[|fs| - 1];
    Flatten(fs[..|fs| - 1], f.before) + [f.brace] + Tokens(cur)
  }

  lemma {:induction false} FlattenMore(fs: seq<Frame>, a: seq<Stmt>, b: seq<Stmt>)
    ensures Flatten(fs, a + b) == Flatten(fs, a) + Tokens(b)
  {
    TokensConcat(a, b);
  }

  lemma {:induction false} TokensOne(s: Stmt)
    ensures Tokens([s]) == match s
                           case Cmd(id, neg) => [Plain(id, neg)]
                           case Block(id, neg, body) => [Open(id, neg)] + Tokens(body) + [Close]
                           case Branch(id, neg, cond, to) => [Jump(id, neg, cond, to)]
                           case Mark(n) => [Label(n)]
  {
    var ss := [s];
    assert ss[1..] == [] && Tokens(ss[1..]) == [];
  }

  /** The first k tokens of a script whose braces match so far are statements, with some blocks still open. */
  lemma {:induction false} Structured(ts: seq<Token>, k: nat) returns (fs: seq<Frame>, cur: seq<Stmt>)
    requires k <= |ts| && Depth(ts, k).Some?
    ensures |fs| == Depth(ts, k).value && Flatten(fs, cur) == ts[..k] && forall i :: 0 <= i < |fs| ==> fs[i].brace.Open?
  {
    hide Tokens, Flatten;
    fs, cur := [], [];
    if k == 0 {
      FlattenNone();
      return;
    }
    var t := ts[k - 1];
    assert ts[..k] == ts[..k - 1] + [t];
    fs, cur := Structured(ts, k - 1);
    match t {
      case Open(_, _) =>
        FlattenOpen(fs, cur, t);
        fs, cur := fs + [Frame(t, cur)], [];
      case Close =>
        FlattenClose(fs, cur);
        var f := fs[|fs| - 1];
        fs, cur := fs[..|fs| - 1], f.before + [Block(f.brace.id, f.brace.neg, cur)];
      case Plain(id, neg) =>
        TokensOne(Cmd(id, neg));
        FlattenMore(fs, cur, [Cmd(id, neg)]);
        cur := cur + [Cmd(id, neg)];
      case Label(n) =>
        TokensOne(Mark(n));
        FlattenMore(fs, cur, [Mark(n)]);
        cur := cur + [Mark(n)];
      case Jump(id, neg, cond, to) =>
        TokensOne(Branch(id, neg, cond, to));
        FlattenMore(fs, cur, [Branch(id, neg, cond, to)]);
        cur := cur + [Branch(id, neg, cond, to)];
    }
  }

  lemma {:induction false} FlattenNone()
    ensures Flatten([], []) == []
  {
  }

  lemma {:induction false} FlattenOpen(fs: seq<Frame>, cur: seq<Stmt>, t: Token)
    ensures Flatten(fs + [Frame(t, cur)], []) == Flatten(fs, cur) + [t]
  {
    var gs := fs + [Frame(t, cur)];
    assert gs[..|gs| - 1] == fs && Tokens([]) == [];
  }

  lemma {:induction false} FlattenClose(fs: seq<Frame>, cur: seq<Stmt>)
    requires fs != [] && fs[|fs| - 1].brace.Open?
    ensures var f := fs[|fs| - 1];
            Flatten(fs[..|fs| - 1], f.before + [Block(f.brace.id, f.brace.neg, cur)]) == Flatten(fs, cur) + [Close]
  {
    var f, init := fs[|fs| - 1], fs[..|fs| - 1];
    var b := Block(f.brace.id, f.brace.neg, cur);
    FlattenMore(init, f.before, [b]);
    TokensOne(b);
    assert Flatten(fs, cur) == Flatten(init, f.before) + [f.brace] + Tokens(cur);
    assert Flatten(init, f.before) + ([f.brace] + Tokens(cur) + [Close]) == Flatten(init, f.before) + [f.brace] + Tokens(cur) + [Close];
  }

  /** Every script that is accepted is one of statements and blocks, so it runs as it is read with its blocks. */
  lemma {:induction false} AcceptedRunsAlike<W>(ts: seq<Token>, p: seq<Slot>, env: Env<W>, w: W, n: nat) returns (script: seq<Stmt>)
    requires Compiled(ts, p) && WellFormed(ts)
    ensures Tokens(script) == ts
    ensures var c := RunFor(p, env, Running(0, w, false), n);
            var r := ReadFor(script, env, Reading(script, w, false), n);
            c.w == r.w && c.done == r.done
  {
    hide Tokens, Compiled, RunFor, ReadFor;
    var fs, cur := Structured(ts, |ts|);
    assert ts[..|ts|] == ts;
    FlattenFlat(cur);
    script := cur;
    RunsAlike(script, p, env, w, n);
  }

  /** Statements leave as many braces open as there were. */
  lemma {:induction false} DepthOver(ts: seq<Token>, k: nat, ss: seq<Stmt>)
    requires k + |Tokens(ss)| <= |ts| && ts[k..k + |Tokens(ss)|] == Tokens(ss) && Depth(ts, k).Some?
    ensures Depth(ts, k + |Tokens(ss)|) == Depth(ts, k)
    decreases ss
  {
    hide Tokens;
    if ss == [] {
      NoTokens();
    } else if ss[0].Block? {
      BlockTokens(ts, k, ss);
      DepthOver(ts, k + 1, ss[0].body);
      DepthOver(ts, k + |Tokens(ss[0].body)| + 2, ss[1..]);
    } else {
      OneToken(ts, k, ss);
      NotABrace(ss);
      DepthOver(ts, k + 1, ss[1..]);
    }
  }

  lemma {:induction false} NotABrace(ss: seq<Stmt>)
    requires ss != [] && !ss[0].Block?
    ensures Tokens(ss) != [] && !Tokens(ss)[0].Open? && !Tokens(ss)[0].Close?
  {
  }

  /** What sed accepts: statements with blocks, in which no label is defined twice and every label branched to is defined. */
  lemma {:induction false} AcceptedExactly(ts: seq<Token>)
    ensures WellFormed(ts) <==>
            && (exists script :: Tokens(script) == ts)
            && (forall i, j :: 0 <= i < j < |ts| && ts[i].Label? && ts[j].Label? ==> ts[i].name != ts[j].name)
            && (forall t, n :: 0 <= t < |ts| && ts[t].Jump? && ts[t].to == Some(n) ==> Label(n) in ts)
  {
    hide Tokens;
    if Depth(ts, |ts|) == Some(0) {
      var fs, cur := Structured(ts, |ts|);
      assert ts[..|ts|] == ts;
      FlattenFlat(cur);
      assert Tokens(cur) == ts;
    }
    forall script | Tokens(script) == ts
      ensures Depth(ts, |ts|) == Some(0)
    {
      assert ts[0..0 + |Tokens(script)|] == ts;
      DepthOver(ts, 0, script);
    }
    forall n
      ensures Address(ts, n, |ts|).Some? <==> Label(n) in ts
    {
      assert Definition(ts, n, |ts|).Some? <==> Label(n) in ts;
    }
  }

  lemma {:induction false} FlattenFlat(cur: seq<Stmt>)
    ensures Flatten([], cur) == Tokens(cur)
  {
  }

  /** The loop of execute over one line, for at most limit commands. */
  method Execute<W>(p: array<Slot>, env: Env<W>, w: W, limit: nat) returns (c: Running<W>)
    ensures c == RunFor(p[..], env, Running(0, w, false), limit)
  {
    c := Running(0, w, false);
    var n := 0;
    while n < limit && !c.done && c.pc < p.Length
      invariant 0 <= n <= limit && c == RunFor(p[..], env, Running(0, w, false), n)
    {
      var s := p[c.pc];
      if s.op == NoCom {
        c := c.(done := true);
      } else {
        var a := env.applies(s.id, c.w);
        if a.0 == s.negfl {
          c := Running(c.pc + 1, a.1, false);
        } else {
          var delflag, jflag, w1 := false, s.op == BCom, a.1;
          if s.op == TCom {
            var t := env.tested(w1);
            jflag, w1 := t.0, t.1;
          } else if !jflag {
            var e := env.act(s.id, w1);
            w1, delflag := e.0, e.1;
          }
          if jflag {
            c := if s.lb1 == None then Running(0, w1, true) else Running(s.lb1.value, w1, false);
          } else {
            c := Running(c.pc + 1, w1, delflag);
          }
        }
      }
      n := n + 1;
    }
    RunStays(p[..], env, Running(0, w, false), n, limit);
  }

  lemma {:induction false} RunStays<W>(p: seq<Slot>, env: Env<W>, c: Running<W>, n: nat, m: nat)
    requires n <= m && (n == m || RunFor(p, env, c, n).done || RunFor(p, env, c, n).pc >= |p|)
    ensures RunFor(p, env, c, m) == RunFor(p, env, c, n)
  {
    if n < m {
      RunStays(p, env, c, n, m - 1);
    }
  }

  // ----- what a run does -----

  /** No command of the script branches. */
  predicate Branchless(ss: seq<Stmt>) {
    ss != [] ==> NoBranch(ss[0]) && Branchless(ss[1..])
  }

  predicate NoBranch(s: Stmt) {
    match s
    case Branch(_, _, _, _) => false
    case Block(_, _, body) => Branchless(body)
    case _ => true
  }

  /** The commands to be run, in order, when the addresses of those in sel apply: with a ! the others. */
  function Selected(ss: seq<Stmt>, sel: nat -> bool): (ids: seq<nat>) {
    if ss == [] then [] else SelectedIn(ss[0], sel) + Selected(ss[1..], sel)
  }

  function SelectedIn(s: Stmt, sel: nat -> bool): (ids: seq<nat>) {
    match s
    case Cmd(id, neg) => if (sel(id) && !neg) || (!sel(id) && neg) then [id] else []
    case Block(id, neg, body) => if (sel(id) && !neg) || (!sel(id) && neg) then Selected(body, sel) else []
    case _ => []
  }

  /** Commands run one after another, until one ends the cycle. */
  function ActAll<W>(ids: seq<nat>, env: Env<W>, w: W): W {
    if ids == [] then w else
    var e := env.act(ids[0], w);
    if e.1 then e.0 else ActAll(ids[1..], env, e.0)
  }

  lemma {:induction false} SelectedConcat(a: seq<Stmt>, b: seq<Stmt>, sel: nat -> bool)
    requires Branchless(a) && Branchless(b)
    ensures Branchless(a + b) && Selected(a + b, sel) == Selected(a, sel) + Selected(b, sel)
  {
    hide SelectedIn, NoBranch;
    if a == [] {
      assert a + b == b;
    } else {
      SelectedConcat(a[1..], b, sel);
      assert (a + b)[1..] == a[1..] + b && (a + b)[0] == a[0];
      assert SelectedIn(a[0], sel) + (Selected(a[1..], sel) + Selected(b, sel)) ==
             SelectedIn(a[0], sel) + Selected(a[1..], sel) + Selected(b, sel);
    }
  }

  lemma {:induction false} ReadFirst<W>(script: seq<Stmt>, env: Env<W>, c: Reading<W>, n: nat)
    ensures ReadFor(script, env, c, n + 1) == ReadFor(script, env, Read(script, env, c), n)
  {
    hide Read;
    if n > 0 {
      ReadFirst(script, env, c, n - 1);
    }
  }

  /** If addresses do not depend on what commands do, exactly the commands selected are run, in order. */
  lemma {:induction false} ReadInOrder<W>(script: seq<Stmt>, env: Env<W>, sel: nat -> bool, ss: seq<Stmt>, w: W) returns (n: nat)
    requires Branchless(ss) && forall id, v :: env.applies(id, v) == (sel(id), v)
    ensures n > 0 && ReadFor(script, env, Reading(ss, w, false), n).done
    ensures ReadFor(script, env, Reading(ss, w, false), n).w == ActAll(Selected(ss, sel), env, w)
    decreases |Tokens(ss)|
  {
    hide ReadFor;
    var c := Reading(ss, w, false);
    if Strip(ss) == [] {
      ReadOnce(script, env, c);
      StripSelected(ss, sel);
      return 1;
    }
    var tail := ss[1..];
    SelectedStep(ss, sel);
    match ss[0] {
      case Mark(_) =>
        n := ReadInOrder(script, env, sel, tail, w);
        ReadFirst(script, env, c, n - 1);
        ReadFirst(script, env, Reading(tail, w, false), n - 1);
        StripHead(ss);
      case Cmd(id, neg) =>
        if sel(id) != neg && env.act(id, w).1 {
          ReadOnce(script, env, c);
          n := 1;
        } else {
          var v := if sel(id) != neg then env.act(id, w).0 else w;
          n := ReadInOrder(script, env, sel, tail, v);
          ReadFirst(script, env, c, n);
          n := n + 1;
        }
      case Block(id, neg, body) =>
        TokensConcat(body, tail);
        SelectedConcat(body, tail, sel);
        n := ReadInOrder(script, env, sel, if sel(id) != neg then body + tail else tail, w);
        ReadFirst(script, env, c, n);
        n := n + 1;
    }
  }

  lemma {:induction false} SelectedStep(ss: seq<Stmt>, sel: nat -> bool)
    requires ss != []
    ensures match ss[0]
            case Cmd(id, neg) =>
              if sel(id) != neg then Selected(ss, sel) != [] && Selected(ss, sel)[0] == id && Selected(ss, sel)[1..] == Selected(ss[1..], sel)
              else Selected(ss, sel) == Selected(ss[1..], sel)
            case Block(id, neg, body) =>
              Selected(ss, sel) == if sel(id) != neg then Selected(body, sel) + Selected(ss[1..], sel) else Selected(ss[1..], sel)
            case _ => Selected(ss, sel) == Selected(ss[1..], sel)
  {
  }

  lemma {:induction false} StripHead(ss: seq<Stmt>)
    ensures Strip(ss) != [] ==> !Strip(ss)[0].Mark?
  {
    if ss != [] {
      StripHead(ss[1..]);
    }
  }

  lemma {:induction false} StripSelected(ss: seq<Stmt>, sel: nat -> bool)
    requires Strip(ss) == []
    ensures Selected(ss, sel) == []
  {
    if ss != [] {
      StripSelected(ss[1..], sel);
    }
  }

  lemma {:induction false} ReadOnce<W>(script: seq<Stmt>, env: Env<W>, c: Reading<W>)
    ensures ReadFor(script, env, c, 1) == Read(script, env, c)
  {
    assert ReadFor(script, env, c, 0) == c;
  }

  /** So does the compiled program: the commands selected are run, and no others, and then the cycle ends. */
  lemma {:induction false} RunsInOrder<W>(script: seq<Stmt>, p: seq<Slot>, env: Env<W>, sel: nat -> bool, w: W) returns (n: nat)
    requires Compiled(Tokens(script), p) && WellFormed(Tokens(script))
    requires Branchless(script) && forall id, v :: env.applies(id, v) == (sel(id), v)
    ensures RunFor(p, env, Running(0, w, false), n).done
    ensures RunFor(p, env, Running(0, w, false), n).w == ActAll(Selected(script, sel), env, w)
  {
    hide Compiled, WellFormed, RunFor, ReadFor, Tokens;
    n := ReadInOrder(script, env, sel, script, w);
    RunsAlike(script, p, env, w, n);
  }

  /**
   * A branch over some statements, where its addresses apply: b always passes over them, t if the flag was set; to no
   * label, nothing is left to run.
   */
  lemma {:induction false} BranchOver<W>(id: nat, cond: bool, to: Option<Name>, n: Name, over: seq<Stmt>, tail: seq<Stmt>, env: Env<W>,
                                         w: W)
    requires env.applies(id, w) == (true, w) && Label(n) !in Tokens(over) && (to == None || to == Some(n))
    ensures var rest := over + [Mark(n)] + tail;
            var v := if cond then env.tested(w).1 else w;
            Read([Branch(id, false, cond, to)] + rest, env, Reading([Branch(id, false, cond, to)] + rest, w, false)) ==
            Reading(if cond && !env.tested(w).0 then rest else if to == None then [] else tail, v, false)
  {
    var b := Branch(id, false, cond, to);
    var rest := over + [Mark(n)] + tail;
    var ss := [b] + rest;
    assert ss[0] == b && ss[1..] == rest;
    AfterDefined(over, n);
    AfterConcat(over, [Mark(n)] + tail, n);
    assert over + ([Mark(n)] + tail) == rest;
    assert ([Mark(n)] + tail)[0] == Mark(n) && ([Mark(n)] + tail)[1..] == tail;
    assert After(ss, n) == Some(tail);
  }

  // ----- addresses -----

  /** A_NONE, A_DOL, A_LINE and A_RE; a last regular expression is replaced when the script is compiled. */
  datatype Addr = NoAddr | Dol | Line(line: nat) | Re(re: nat)

  /** What executable looks at and changes in a command. */
  datatype Guard = Guard(ad1: Addr, ad2: Addr, negfl: bool, active: nat)

  /** The second part of executable: the first address is checked. */
  function First(g: Guard, lnum: nat, last: bool, matches: nat -> bool): (bool, Guard) {
    match g.ad1
    case NoAddr => (!g.negfl, g)
    case Dol => (if last then !g.negfl else g.negfl, g)
    case Line(n) => if n == lnum then (!g.negfl, g.(active := 1)) else (g.negfl, g)
    case Re(r) => if matches(r) then (!g.negfl, g.(active := 1)) else (g.negfl, g)
  }

  /** executable: whether a command is run on the current line. */
  function Executable(g0: Guard, lnum: nat, last: bool, matches: nat -> bool): (bool, Guard) {
    if g0.active == 0 then First(g0, lnum, last, matches) else
    var g := if g0.active == 1 then g0.(active := 2) else g0;
    match g.ad2
    case NoAddr => First(g.(active := 0), lnum, last, matches)
    case Dol => (!g.negfl, g)
    case Line(n) =>
      if lnum <= n then (!g.negfl, if n == lnum then g.(active := 0) else g) else (g.negfl, g.(active := 0))
    case Re(r) => (!g.negfl, if matches(r) then g.(active := 0) else g)
  }

  /** A ! reverses the answer and leaves the range the same: a command's addresses can be judged without it. */
  lemma {:induction false} NegationOnlyReverses(g: Guard, lnum: nat, last: bool, matches: nat -> bool)
    ensures var e := Executable(g, lnum, last, matches);
            var n := Executable(g.(negfl := !g.negfl), lnum, last, matches);
            n.0 != e.0 && n.1 == e.1.(negfl := !g.negfl)
  {
  }

  /** The guard of a command that every one of the lines 1 to l has come to. */
  function GuardAt(g: Guard, l: nat, last: nat -> bool, matches: nat -> (nat -> bool)): Guard {
    if l == 0 then g else Executable(GuardAt(g, l - 1, last, matches), l, last(l), matches(l)).1
  }

  function RunsOn(g: Guard, l: nat, last: nat -> bool, matches: nat -> (nat -> bool)): bool
    requires l > 0
  {
    Executable(GuardAt(g, l - 1, last, matches), l, last(l), matches(l)).0
  }

  // ----- which lines a command is run on -----

  /** A line at which a range may begin: line m, or one that matches. */
  ghost predicate Starts(g: Guard, i: nat, matches: nat -> (nat -> bool)) {
    match g.ad1
    case Line(m) => i == m
    case Re(r) => matches(i)(r)
    case _ => false
  }

  /** A range begun at line o still decides what becomes of line l: the first address is not looked at there. */
  ghost predicate Decides(g: Guard, o: nat, l: nat, matches: nat -> (nat -> bool)) {
    match g.ad2
    case NoAddr => false
    case Dol => true
    case Line(n) => l <= n || l == o + 1
    case Re(r) => forall i :: o < i < l ==> !matches(i)(r)
  }

  /** A range begins at line o: it is a line to start at, and no range begun before decides it. */
  ghost predicate Begins(g: Guard, o: nat, matches: nat -> (nat -> bool))
    decreases o
  {
    Starts(g, o, matches) && !exists e :: 0 < e < o && Begins(g, e, matches) && Decides(g, e, o, matches)
  }

  /** Line l lies in a range begun before it; one to a line number stops there, and one to a match at the match. */
  ghost predicate Covers(g: Guard, o: nat, l: nat, matches: nat -> (nat -> bool)) {
    match g.ad2
    case NoAddr => false
    case Dol => true
    case Line(n) => l <= n
    case Re(r) => forall i :: o < i < l ==> !matches(i)(r)
  }

  /** Line l begins a range or lies in one. */
  ghost predicate InRange(g: Guard, l: nat, matches: nat -> (nat -> bool)) {
    Begins(g, l, matches) || exists o :: 0 < o < l && Begins(g, o, matches) && Covers(g, o, l, matches)
  }

  /** Some range begun before line l decides it. */
  ghost predicate Decided(g: Guard, l: nat, matches: nat -> (nat -> bool)) {
    exists o :: 0 < o < l && Begins(g, o, matches) && Decides(g, o, l, matches)
  }

  lemma {:induction false} BeginsIff(g: Guard, o: nat, matches: nat -> (nat -> bool))
    ensures Begins(g, o, matches) <==> Starts(g, o, matches) && !Decided(g, o, matches)
  {
  }

  /** A range that covers a line decides it. */
  lemma {:induction false} CoversDecides(g: Guard, l: nat, matches: nat -> (nat -> bool))
    ensures InRange(g, l, matches) ==> Begins(g, l, matches) || Decided(g, l, matches)
  {
    hide Begins;
    if o :| 0 < o < l && Begins(g, o, matches) && Covers(g, o, l, matches) {
      assert Decides(g, o, l, matches);
    }
  }

  /** After line l, which a range decides. */
  lemma {:induction false} DecidedNext(g: Guard, l: nat, matches: nat -> (nat -> bool))
    requires l > 0 && Decided(g, l, matches)
    ensures InRange(g, l, matches) <==> match g.ad2 case Line(n) => l <= n case _ => true
    ensures Decided(g, l + 1, matches) <==> match g.ad2
                                            case Line(n) => l < n
                                            case Re(r) => !matches(l)(r)
                                            case _ => true
  {
    BeginsIff(g, l, matches);
    hide Begins;
    var o :| 0 < o < l && Begins(g, o, matches) && Decides(g, o, l, matches);
    match g.ad2 {
      case Line(n) =>
        assert l <= n ==> Covers(g, o, l, matches);
        assert l < n ==> Decides(g, o, l + 1, matches);
      case Re(r) =>
        assert Covers(g, o, l, matches);
        assert !matches(l)(r) ==> Decides(g, o, l + 1, matches);
      case Dol =>
        assert Covers(g, o, l, matches) && Decides(g, o, l + 1, matches);
      case NoAddr =>
    }
  }

  /** After line l, which no range decides: a range may begin there. */
  lemma {:induction false} UndecidedNext(g: Guard, l: nat, matches: nat -> (nat -> bool))
    requires l > 0 && !Decided(g, l, matches)
    ensures InRange(g, l, matches) <==> Starts(g, l, matches)
    ensures g.ad2 != NoAddr ==> (Decided(g, l + 1, matches) <==> Starts(g, l, matches))
  {
    BeginsIff(g, l, matches);
    CoversDecides(g, l, matches);
    hide Begins;
    if Starts(g, l, matches) && g.ad2 != NoAddr {
      assert Begins(g, l, matches) && Decides(g, l, l + 1, matches);
    }
    forall o: nat | o < l
      ensures Decides(g, o, l + 1, matches) ==> Decides(g, o, l, matches)
    {
    }
  }

  /** Every case but a second address alone: what a command without a first address, or with $, is run on. */
  lemma {:induction false} PlainAddress(g: Guard, l: nat, last: nat -> bool, matches: nat -> (nat -> bool))
    requires (g.ad1 == NoAddr || g.ad1 == Dol) && g.active == 0
    ensures GuardAt(g, l, last, matches) == g
    ensures l > 0 ==> RunsOn(g, l, last, matches) == ((g.ad1 == NoAddr || last(l)) != g.negfl)
  {
    if l > 0 {
      PlainAddress(g, l - 1, last, matches);
    }
  }

  /** With a line or an expression first, a command is run on the lines in its ranges, or with ! on the others. */
  lemma {:induction false} RunsOnExactly(g: Guard, l: nat, last: nat -> bool, matches: nat -> (nat -> bool))
    requires (g.ad1.Line? || g.ad1.Re?) && g.active == 0
    ensures GuardAt(g, l, last, matches) == g.(active := GuardAt(g, l, last, matches).active)
    ensures g.ad2 != NoAddr ==> (GuardAt(g, l, last, matches).active > 0 <==> Decided(g, l + 1, matches))
    ensures l > 0 ==> RunsOn(g, l, last, matches) == (InRange(g, l, matches) != g.negfl)
  {
    hide Begins, Decided, InRange;
    if l == 0 {
      NothingDecided(g, matches);
    } else {
      RunsOnExactly(g, l - 1, last, matches);
      if Decided(g, l, matches) {
        DecidedNext(g, l, matches);
        SecondAddress(g, l, matches);
      } else {
        UndecidedNext(g, l, matches);
      }
    }
  }

  lemma {:induction false} NothingDecided(g: Guard, matches: nat -> (nat -> bool))
    ensures !Decided(g, 1, matches)
  {
  }

  lemma {:induction false} SecondAddress(g: Guard, l: nat, matches: nat -> (nat -> bool))
    requires Decided(g, l, matches)
    ensures g.ad2 != NoAddr
  {
  }

  /** One address: the line, or the lines that match. */
  lemma {:induction false} OneAddress(g: Guard, l: nat, last: nat -> bool, matches: nat -> (nat -> bool))
    requires g.ad2 == NoAddr && g.active == 0 && l > 0
    ensures RunsOn(g, l, last, matches) == ((match g.ad1
                                             case NoAddr => true
                                             case Dol => last(l)
                                             case Line(m) => l == m
                                             case Re(r) => matches(l)(r)) != g.negfl)
  {
    if g.ad1.Line? || g.ad1.Re? {
      RunsOnExactly(g, l, last, matches);
      BeginsIff(g, l, matches);
    } else {
      PlainAddress(g, l, last, matches);
    }
  }

  /** m,n selects line m and the lines after it up to n; with n before m just line m. */
  lemma {:induction false} LineRange(g: Guard, m: nat, n: nat, l: nat, last: nat -> bool, matches: nat -> (nat -> bool))
    requires g.ad1 == Line(m) && g.ad2 == Line(n) && g.active == 0 && m > 0
    ensures GuardAt(g, l, last, matches) == g.(active := GuardAt(g, l, last, matches).active)
    ensures GuardAt(g, l, last, matches).active > 0 <==> l == m || m < l < n
    ensures l > 0 ==> RunsOn(g, l, last, matches) == ((l == m || m < l <= n) != g.negfl)
  {
    if l > 0 {
      LineRange(g, m, n, l - 1, last, matches);
    }
  }

  /** m,$ selects line m and all lines after it. */
  lemma {:induction false} ToTheEnd(g: Guard, m: nat, l: nat, last: nat -> bool, matches: nat -> (nat -> bool))
    requires g.ad1 == Line(m) && g.ad2 == Dol && g.active == 0 && m > 0
    ensures GuardAt(g, l, last, matches) == g.(active := GuardAt(g, l, last, matches).active)
    ensures GuardAt(g, l, last, matches).active > 0 <==> m <= l
    ensures l > 0 ==> RunsOn(g, l, last, matches) == ((m <= l) != g.negfl)
  {
    if l > 0 {
      ToTheEnd(g, m, l - 1, last, matches);
    }
  }

  /** /re/,$ selects the first line that matches and all after it. */
  lemma {:induction false} FromMatch(g: Guard, r: nat, l: nat, last: nat -> bool, matches: nat -> (nat -> bool))
    requires g.ad1 == Re(r) && g.ad2 == Dol && g.active == 0 && l > 0
    ensures RunsOn(g, l, last, matches) == ((exists i :: 0 < i <= l && matches(i)(r)) != g.negfl)
  {
    RunsOnExactly(g, l, last, matches);
    SomeBegins(g, r, l, matches);
  }

  lemma {:induction false} SomeBegins(g: Guard, r: nat, l: nat, matches: nat -> (nat -> bool))
    requires g.ad1 == Re(r) && g.ad2 == Dol && l > 0
    ensures InRange(g, l, matches) <==> exists i :: 0 < i <= l && matches(i)(r)
    ensures InRange(g, l, matches) <==> exists o :: 0 < o <= l && Begins(g, o, matches)
  {
    BeginsIff(g, l, matches);
    hide Begins;
    if l > 1 {
      SomeBegins(g, r, l - 1, matches);
    }
    if o :| 0 < o < l && Begins(g, o, matches) {
      assert Covers(g, o, l, matches);
    }
    if i :| 0 < i <= l && matches(i)(r) {
      assert i < l || Starts(g, l, matches);
    }
    if !Begins(g, l, matches) && Starts(g, l, matches) {
      assert Decided(g, l, matches);
    }
  }

  /** m,/re/ selects line m and the lines after it up to the first that matches. */
  lemma {:induction false} ToMatch(g: Guard, m: nat, r: nat, l: nat, last: nat -> bool, matches: nat -> (nat -> bool))
    requires g.ad1 == Line(m) && g.ad2 == Re(r) && g.active == 0 && l > 0 && m > 0
    ensures RunsOn(g, l, last, matches) == ((m <= l && forall i :: m < i < l ==> !matches(i)(r)) != g.negfl)
  {
    hide Begins;
    RunsOnExactly(g, l, last, matches);
    LineBegins(g, m, l, matches);
    assert Begins(g, m, matches);
  }

  lemma {:induction false} LineBegins(g: Guard, m: nat, l: nat, matches: nat -> (nat -> bool))
    requires g.ad1 == Line(m) && m > 0
    ensures forall o :: 0 < o ==> (Begins(g, o, matches) <==> o == m)
  {
    hide Begins;
    forall o: nat | o != m
      ensures !Begins(g, o, matches)
    {
      BeginsIff(g, o, matches);
    }
    BeginsIff(g, m, matches);
  }
}
