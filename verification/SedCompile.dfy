// The compiler of sed: nested blocks and labels turned into branches in a flat program.

/** The blocks, labels and branches of fcomp, with search and dechain, of sed.c. */
module SedCompile {
  import opened Basics

  type Name = seq<int>

  /**
   * A script as its parser delivers it. A command is known by a number, which stands for its addresses and
   * arguments; neg says that at least one ! came before it.
   */
  datatype Token =
    | Plain(id: nat, neg: bool)
    | Open(id: nat, neg: bool)
    | Close
    | Label(name: Name)
    | Jump(id: nat, neg: bool, cond: bool, to: Option<Name>)

  /** Command codes: none, any that does not branch, b (also for a brace), and t. */
  datatype Op = NoCom | OtherCom | BCom | TCom

  datatype Slot = Slot(op: Op, id: nat, negfl: bool, lb1: Option<nat>)

  const EMPTY := Slot(NoCom, 0, false, None)

  datatype LabelEntry = LabelEntry(name: Name, chain: Option<nat>, address: Option<nat>)

  /** Only labels with a name come from the parser. */
  ghost predicate Named(ts: seq<Token>) {
    forall k :: 0 <= k < |ts| ==>
      match ts[k]
      case Label(n) => n != []
      case Jump(_, _, _, to) => to != Some([])
      case _ => true
  }

  predicate IsCmd(t: Token) {
    t.Plain? || t.Open? || t.Jump?
  }

  /** The number of slots the first k tokens take. */
  ghost function Slots(ts: seq<Token>, k: nat): (n: nat)
    requires k <= |ts|
    ensures n <= k
  {
    if k == 0 then 0 else Slots(ts, k - 1) + if IsCmd(ts[k - 1]) then 1 else 0
  }

  /** From token k on, d braces deep: the brace that closes the level. */
  ghost function MatchFrom(ts: seq<Token>, k: nat, d: nat): (c: Option<nat>)
    requires k <= |ts|
    ensures c.Some? ==> k <= c.value < |ts| && ts[c.value] == Close
    decreases |ts| - k
  {
    if k == |ts| then None
    else if ts[k].Open? then MatchFrom(ts, k + 1, d + 1)
    else if ts[k].Close? then (if d == 0 then Some(k) else MatchFrom(ts, k + 1, d - 1))
    else MatchFrom(ts, k + 1, d)
  }

  /** How many braces are open after k tokens; None once there was one } too many. */
  ghost function Depth(ts: seq<Token>, k: nat): Option<nat>
    requires k <= |ts|
  {
    if k == 0 then Some(0) else
    var d := Depth(ts, k - 1);
    if d == None then None
    else if ts[k - 1].Open? then Some(d.value + 1)
    else if ts[k - 1].Close? then (if d.value == 0 then None else Some(d.value - 1))
    else d
  }

  /** The definition of a label among the first k tokens. */
  ghost function Definition(ts: seq<Token>, n: Name, k: nat): (d: Option<nat>)
    requires k <= |ts|
    ensures d.Some? ==> d.value < k && ts[d.value] == Label(n)
    ensures d.None? ==> forall i :: 0 <= i < k ==> ts[i] != Label(n)
  {
    if k == 0 then None
    else if ts[k - 1] == Label(n) then Some(k - 1)
    else Definition(ts, n, k - 1)
  }

  /** The slot of a label defined among the first k tokens. */
  ghost function Address(ts: seq<Token>, n: Name, k: nat): Option<nat>
    requires k <= |ts|
  {
    match Definition(ts, n, k)
    case Some(d) => Some(Slots(ts, d))
    case None => None
  }

  /** No label is defined twice among the first k tokens. */
  ghost predicate Unique(ts: seq<Token>, k: nat)
    requires k <= |ts|
  {
    forall i, j :: 0 <= i < j < k && ts[i].Label? ==> ts[i] != ts[j]
  }

  /** A script sed accepts: braces match, no label is defined twice, and none is missing. */
  ghost predicate WellFormed(ts: seq<Token>) {
    && Depth(ts, |ts|) == Some(0) && Unique(ts, |ts|)
    && forall t :: 0 <= t < |ts| && ts[t].Jump? && ts[t].to.Some? ==> Address(ts, ts[t].to.value, |ts|).Some?
  }

  /** Where the branch of a command leads: past the brace that closes it, to a label, or to the end. */
  ghost function Target(ts: seq<Token>, t: nat): Option<nat>
    requires t < |ts|
  {
    match ts[t]
    case Open(_, _) =>
      (match MatchFrom(ts, t + 1, 0)
       case Some(c) => Some(Slots(ts, c))
       case None => None)
    case Jump(_, _, _, to) => if to == None then Some(Slots(ts, |ts|)) else Address(ts, to.value, |ts|)
    case _ => None
  }

  /** A command's slot but for its branch: a brace is a b that is taken where the command does not apply. */
  function Head(t: Token, lb1: Option<nat>): Slot
    requires IsCmd(t)
  {
    match t
    case Plain(id, neg) => Slot(OtherCom, id, neg, lb1)
    case Open(id, neg) => Slot(BCom, id, !neg, lb1)
    case Jump(id, neg, cond, _) => Slot(if cond then TCom else BCom, id, neg, lb1)
  }

  /** The program the script stands for: every command in its slot, every branch resolved, no command after it. */
  ghost predicate Compiled(ts: seq<Token>, p: seq<Slot>) {
    && Slots(ts, |ts|) < |p| && p[Slots(ts, |ts|)] == EMPTY
    && forall t :: 0 <= t < |ts| && IsCmd(ts[t]) ==> InSlot(ts, p, t, Target(ts, t))
  }

  ghost predicate InSlot(ts: seq<Token>, p: seq<Slot>, t: nat, lb1: Option<nat>)
    requires t < |ts| && IsCmd(ts[t])
  {
    Slots(ts, t) < |p| && p[Slots(ts, t)] == Head(ts[t], lb1)
  }

  lemma {:induction false} SlotsGrow(ts: seq<Token>, t: nat, u: nat)
    requires t <= u <= |ts|
    ensures Slots(ts, t) <= Slots(ts, u)
    ensures t < u && IsCmd(ts[t]) ==> Slots(ts, t) < Slots(ts, u)
  {
    if t < u {
      SlotsGrow(ts, t, u - 1);
    }
  }

  /** Two commands do not share a slot. */
  lemma {:induction false} SlotsApart(ts: seq<Token>, u: nat)
    requires u <= |ts|
    ensures forall t :: 0 <= t < u && IsCmd(ts[t]) ==> Slots(ts, t) < Slots(ts, u)
    ensures u < |ts| && IsCmd(ts[u]) ==>
      forall t :: 0 <= t < |ts| && IsCmd(ts[t]) && t != u ==> Slots(ts, t) != Slots(ts, u)
  {
    forall t | 0 <= t < |ts| && IsCmd(ts[t])
      ensures t < u ==> Slots(ts, t) < Slots(ts, u)
      ensures u < t && IsCmd(ts[u]) ==> Slots(ts, u) < Slots(ts, t)
    {
      if t < u {
        SlotsGrow(ts, t, u);
      } else {
        SlotsGrow(ts, u, t);
      }
    }
  }

  // ----- the state between two tokens -----

  /** Slots hold their commands, and those not yet reached are empty. */
  ghost predicate Shape(ts: seq<Token>, k: nat, p: seq<Slot>)
    requires k <= |ts|
  {
    && Slots(ts, k) < |p|
    && (forall s :: Slots(ts, k) <= s < |p| ==> p[s] == EMPTY)
    && (forall t :: 0 <= t < k && IsCmd(ts[t]) ==> Slots(ts, t) < Slots(ts, k) && HasHead(ts, p, t))
  }

  ghost predicate HasHead(ts: seq<Token>, p: seq<Slot>, t: nat)
    requires t < |ts| && IsCmd(ts[t])
  {
    Slots(ts, t) < |p| && p[Slots(ts, t)] == Head(ts[t], p[Slots(ts, t)].lb1)
  }

  ghost function Lb(ts: seq<Token>, p: seq<Slot>, t: nat): Option<nat>
    requires t <= |ts|
  {
    if Slots(ts, t) < |p| then p[Slots(ts, t)].lb1 else None
  }

  /** Plain commands do not branch. */
  ghost predicate Plains(ts: seq<Token>, k: nat, p: seq<Slot>)
    requires k <= |ts|
  {
    forall t :: 0 <= t < k && ts[t].Plain? ==> Lb(ts, p, t) == None
  }

  /**
   * The stack: opens are the braces still open. Scanning on from token k, each is closed where scanning from it
   * would close it; the braces already closed lead past their }.
   */
  ghost predicate Blocks(ts: seq<Token>, k: nat, p: seq<Slot>, cmpend: seq<nat>, opens: seq<nat>)
    requires k <= |ts|
  {
    && |opens| == |cmpend| && Depth(ts, k) == Some(|opens|)
    && (forall d :: 0 <= d < |opens| ==> OpenAt(ts, k, p, cmpend[d], opens[d], |opens| - 1 - d))
    && (forall d, e :: 0 <= d < e < |opens| ==> opens[d] < opens[e])
    && (forall t :: 0 <= t < k && ts[t].Open? && t !in opens ==> ClosedAt(ts, p, t))
  }

  /** Brace o, in slot s, is open, with lvl braces open inside it. */
  ghost predicate OpenAt(ts: seq<Token>, k: nat, p: seq<Slot>, s: nat, o: nat, lvl: nat)
    requires k <= |ts|
  {
    && o < k && ts[o].Open? && s == Slots(ts, o) && Lb(ts, p, o) == None
    && MatchFrom(ts, o + 1, 0) == MatchFrom(ts, k, lvl)
  }

  ghost predicate ClosedAt(ts: seq<Token>, p: seq<Slot>, t: nat)
    requires t < |ts|
  {
    Target(ts, t).Some? && Lb(ts, p, t) == Target(ts, t)
  }

  /** The commands of a chain are linked through their branch fields, in order. */
  ghost predicate Linked(ts: seq<Token>, p: seq<Slot>, chain: seq<nat>, head: Option<nat>) {
    && (forall i :: 0 <= i < |chain| ==> chain[i] < |ts| && ts[chain[i]].Jump?)
    && head == (if chain == [] then None else Some(Slots(ts, chain[0])))
    && (forall i :: 0 <= i < |chain| ==>
          Lb(ts, p, chain[i]) == if i + 1 < |chain| then Some(Slots(ts, chain[i + 1])) else None)
  }

  /** The label a branch goes to is that of the entry; entry 0 is the end of the script. */
  ghost predicate GoesTo(to: Option<Name>, x: nat, e: LabelEntry) {
    if x == 0 then to == None else to == Some(e.name)
  }

  /** The label table: one entry for each name met, its address once defined, and a chain to link branches. */
  ghost predicate Labels(ts: seq<Token>, k: nat, ltab: seq<LabelEntry>)
    requires k <= |ts|
  {
    && |ltab| > 0 && ltab[0].name == [] && ltab[0].address == None
    && (forall x, y :: 0 <= x < y < |ltab| ==> ltab[x].name != ltab[y].name)
    && (forall x :: 1 <= x < |ltab| ==> ltab[x].address == Address(ts, ltab[x].name, k))
    && (forall i :: 0 <= i < k && ts[i].Label? ==> HasEntry(ltab, ts[i].name))
    && Unique(ts, k)
  }

  ghost predicate HasEntry(ltab: seq<LabelEntry>, n: Name) {
    exists x :: 1 <= x < |ltab| && ltab[x].name == n
  }

  /**
   * Every branch met is in the chain of its label, or already leads to it. The chains of the first x0 entries
   * are used up.
   */
  ghost predicate Chained(ts: seq<Token>, k: nat, p: seq<Slot>, ltab: seq<LabelEntry>, chains: seq<seq<nat>>, x0: nat)
    requires k <= |ts|
  {
    && |chains| == |ltab|
    && (forall x :: x0 <= x < |ltab| ==> Linked(ts, p, chains[x], ltab[x].chain))
    && (forall x :: 0 <= x < x0 && x < |ltab| ==> chains[x] == [])
    && (forall x :: 0 <= x < |ltab| ==> OwnChain(ts, k, x, ltab[x], chains[x]))
    && (forall t :: 0 <= t < k && ts[t].Jump? ==> Placed(ts, p, ltab, chains, t))
  }

  /** A chain holds branches to its label, in the order of the script. */
  ghost predicate OwnChain(ts: seq<Token>, k: nat, x: nat, e: LabelEntry, chain: seq<nat>)
    requires k <= |ts|
  {
    && (forall i :: 0 <= i < |chain| ==> chain[i] < k && ts[chain[i]].Jump? && GoesTo(ts[chain[i]].to, x, e))
    && (forall i, j :: 0 <= i < j < |chain| ==> chain[i] < chain[j])
  }

  ghost predicate Jumps(ts: seq<Token>, k: nat, p: seq<Slot>, ltab: seq<LabelEntry>, chains: seq<seq<nat>>)
    requires k <= |ts|
  {
    && Chained(ts, k, p, ltab, chains, 0)
    && (forall x :: 1 <= x < |ltab| ==> chains[x] != [] || ltab[x].address.Some?)
  }

  ghost predicate Placed(ts: seq<Token>, p: seq<Slot>, ltab: seq<LabelEntry>, chains: seq<seq<nat>>, t: nat)
    requires t < |ts| && ts[t].Jump? && |chains| == |ltab|
  {
    exists x :: 0 <= x < |ltab| && GoesTo(ts[t].to, x, ltab[x]) &&
      (t in chains[x] || (ltab[x].address.Some? && Lb(ts, p, t) == ltab[x].address))
  }

  // ----- what one token does to the state -----

  /** The branch fields of the first k commands are the same in p and q. */
  ghost predicate SameLb(ts: seq<Token>, k: nat, p: seq<Slot>, q: seq<Slot>)
    requires k <= |ts|
  {
    forall t :: 0 <= t < k && IsCmd(ts[t]) ==> Lb(ts, q, t) == Lb(ts, p, t)
  }

  /** A command put into the next slot. */
  lemma {:induction false} AddSlot(ts: seq<Token>, k: nat, p: seq<Slot>)
    requires k < |ts| && IsCmd(ts[k]) && Shape(ts, k, p) && Plains(ts, k, p) && Slots(ts, k + 1) < |p|
    ensures var q := p[Slots(ts, k) := Head(ts[k], p[Slots(ts, k)].lb1)];
            Shape(ts, k + 1, q) && Plains(ts, k + 1, q) && SameLb(ts, k, p, q) && Lb(ts, q, k) == None
  {
    SlotsApart(ts, k);
    SlotsApart(ts, k + 1);
  }

  /** The branch field of a command changed. */
  lemma {:induction false} SetLb(ts: seq<Token>, k: nat, p: seq<Slot>, u: nat, lb1: Option<nat>)
    requires u < k <= |ts| && IsCmd(ts[u]) && !ts[u].Plain? && Shape(ts, k, p) && Plains(ts, k, p)
    ensures var q := p[Slots(ts, u) := p[Slots(ts, u)].(lb1 := lb1)];
            && Shape(ts, k, q) && Plains(ts, k, q) && Lb(ts, q, u) == lb1
            && (forall t :: 0 <= t < k && IsCmd(ts[t]) && t != u ==> Lb(ts, q, t) == Lb(ts, p, t))
  {
    SlotsApart(ts, u);
    SlotsGrow(ts, u, k);
  }

  lemma {:induction false} SkipSlot(ts: seq<Token>, k: nat, p: seq<Slot>)
    requires k < |ts| && !IsCmd(ts[k]) && Shape(ts, k, p) && Plains(ts, k, p)
    ensures Shape(ts, k + 1, p) && Plains(ts, k + 1, p)
  {
  }

  lemma {:induction false} OpenNext(ts: seq<Token>, k: nat, p: seq<Slot>, q: seq<Slot>, s: nat, o: nat, lvl: nat)
    requires k < |ts| && OpenAt(ts, k, p, s, o, lvl) && Lb(ts, q, o) == Lb(ts, p, o)
    ensures ts[k].Open? ==> OpenAt(ts, k + 1, q, s, o, lvl + 1)
    ensures ts[k].Close? && lvl > 0 ==> OpenAt(ts, k + 1, q, s, o, lvl - 1)
    ensures !ts[k].Open? && !ts[k].Close? ==> OpenAt(ts, k + 1, q, s, o, lvl)
  {
    hide Slots, Lb;
  }

  lemma {:induction false} OpenFirst(ts: seq<Token>, k: nat, q: seq<Slot>)
    requires k < |ts| && ts[k].Open? && Lb(ts, q, k) == None
    ensures OpenAt(ts, k + 1, q, Slots(ts, k), k, 0)
  {
  }

  lemma {:induction false} IsOpen(ts: seq<Token>, k: nat, p: seq<Slot>, s: nat, o: nat, lvl: nat)
    requires k <= |ts| && OpenAt(ts, k, p, s, o, lvl)
    ensures o < k && ts[o].Open? && s == Slots(ts, o) && Lb(ts, p, o) == None
  {
  }

  lemma {:induction false} BlocksNext(ts: seq<Token>, k: nat, p: seq<Slot>, q: seq<Slot>, cmpend: seq<nat>, opens: seq<nat>)
    requires k < |ts| && !ts[k].Open? && !ts[k].Close? && Blocks(ts, k, p, cmpend, opens) && SameLb(ts, k, p, q)
    ensures Blocks(ts, k + 1, q, cmpend, opens)
  {
    hide Slots, Lb, Target, MatchFrom, OpenAt;
    forall d | 0 <= d < |opens|
      ensures OpenAt(ts, k + 1, q, cmpend[d], opens[d], |opens| - 1 - d)
    {
      IsOpen(ts, k, p, cmpend[d], opens[d], |opens| - 1 - d);
      OpenNext(ts, k, p, q, cmpend[d], opens[d], |opens| - 1 - d);
    }
  }

  lemma {:induction false} BlocksOpen(ts: seq<Token>, k: nat, p: seq<Slot>, q: seq<Slot>, cmpend: seq<nat>, opens: seq<nat>)
    requires k < |ts| && ts[k].Open? && Blocks(ts, k, p, cmpend, opens) && SameLb(ts, k, p, q) && Lb(ts, q, k) == None
    ensures Blocks(ts, k + 1, q, cmpend + [Slots(ts, k)], opens + [k])
  {
    hide Slots, Lb, Target, MatchFrom, OpenAt;
    var c, o := cmpend + [Slots(ts, k)], opens + [k];
    OpenFirst(ts, k, q);
    forall d | 0 <= d < |o|
      ensures OpenAt(ts, k + 1, q, c[d], o[d], |o| - 1 - d) && (d < |opens| ==> o[d] < k)
    {
      if d < |opens| {
        IsOpen(ts, k, p, cmpend[d], opens[d], |opens| - 1 - d);
        OpenNext(ts, k, p, q, cmpend[d], opens[d], |opens| - 1 - d);
      }
    }
    forall t | 0 <= t < k + 1 && ts[t].Open? && t !in o
      ensures ClosedAt(ts, q, t)
    {
      assert o[|opens|] == k;
      assert t !in opens;
    }
  }

  /** A closing brace: the innermost open brace now leads past it. */
  lemma {:induction false} BlocksClose(ts: seq<Token>, k: nat, p: seq<Slot>, q: seq<Slot>, cmpend: seq<nat>, opens: seq<nat>)
    requires k < |ts| && ts[k].Close? && Blocks(ts, k, p, cmpend, opens) && opens != []
    requires Lb(ts, q, opens[|opens| - 1]) == Some(Slots(ts, k))
    requires forall t :: 0 <= t < k && IsCmd(ts[t]) && t != opens[|opens| - 1] ==> Lb(ts, q, t) == Lb(ts, p, t)
    ensures Blocks(ts, k + 1, q, cmpend[..|opens| - 1], opens[..|opens| - 1])
  {
    hide Slots, Lb, Target, MatchFrom, OpenAt;
    var n := |opens| - 1;
    var o := opens[..n];
    var u := opens[n];
    ClosedTarget(ts, k, p, cmpend[n], u);
    forall d | 0 <= d < n
      ensures OpenAt(ts, k + 1, q, cmpend[d], o[d], n - 1 - d)
    {
      IsOpen(ts, k, p, cmpend[d], opens[d], |opens| - 1 - d);
      OpenNext(ts, k, p, q, cmpend[d], opens[d], |opens| - 1 - d);
    }
    forall t | 0 <= t < k + 1 && ts[t].Open? && t !in o
      ensures ClosedAt(ts, q, t)
    {
      if t != u {
        assert t !in opens;
      }
    }
  }

  lemma {:induction false} ClosedTarget(ts: seq<Token>, k: nat, p: seq<Slot>, s: nat, u: nat)
    requires k < |ts| && ts[k].Close? && OpenAt(ts, k, p, s, u, 0)
    ensures Target(ts, u) == Some(Slots(ts, k))
  {
  }

  lemma {:induction false} LinkedSame(ts: seq<Token>, k: nat, p: seq<Slot>, q: seq<Slot>, chain: seq<nat>, head: Option<nat>)
    requires k <= |ts| && SameLb(ts, k, p, q) && Linked(ts, p, chain, head)
    requires forall i :: 0 <= i < |chain| ==> chain[i] < k
    ensures Linked(ts, q, chain, head)
  {
    hide Lb, Slots;
  }

  lemma {:induction false} PlacedSame(ts: seq<Token>, p: seq<Slot>, q: seq<Slot>, ltab: seq<LabelEntry>, chains: seq<seq<nat>>, t: nat)
    requires t < |ts| && ts[t].Jump? && |chains| == |ltab| && Placed(ts, p, ltab, chains, t) && Lb(ts, q, t) == Lb(ts, p, t)
    ensures Placed(ts, q, ltab, chains, t)
  {
    hide Lb;
    var x :| 0 <= x < |ltab| && GoesTo(ts[t].to, x, ltab[x]) &&
      (t in chains[x] || (ltab[x].address.Some? && Lb(ts, p, t) == ltab[x].address));
    assert t in chains[x] || (ltab[x].address.Some? && Lb(ts, q, t) == ltab[x].address);
  }

  lemma {:induction false} JumpsNext(ts: seq<Token>, k: nat, p: seq<Slot>, q: seq<Slot>, ltab: seq<LabelEntry>, chains: seq<seq<nat>>)
    requires k < |ts| && !ts[k].Jump? && Jumps(ts, k, p, ltab, chains)
    requires forall t :: 0 <= t < k && ts[t].Jump? ==> Lb(ts, q, t) == Lb(ts, p, t)
    ensures Jumps(ts, k + 1, q, ltab, chains)
  {
    hide Lb, Slots, Placed, GoesTo;
    forall t | 0 <= t < k + 1 && ts[t].Jump?
      ensures Placed(ts, q, ltab, chains, t)
    {
      PlacedSame(ts, p, q, ltab, chains, t);
    }
  }

  lemma {:induction false} LabelsNext(ts: seq<Token>, k: nat, ltab: seq<LabelEntry>)
    requires k < |ts| && !ts[k].Label? && Labels(ts, k, ltab)
    ensures Labels(ts, k + 1, ltab)
  {
    hide HasEntry;
  }

  /** The entry of a name, among those before x. */
  ghost predicate NoEntry(ltab: seq<LabelEntry>, n: Name) {
    forall x :: 0 <= x < |ltab| ==> ltab[x].name != n
  }

  /** A chain stays what it is for an entry of the same name. */
  lemma {:induction false} OwnMore(ts: seq<Token>, k: nat, x: nat, e: LabelEntry, e': LabelEntry, chain: seq<nat>)
    requires k < |ts| && OwnChain(ts, k, x, e, chain) && e'.name == e.name
    ensures OwnChain(ts, k + 1, x, e', chain)
  {
  }

  /** A label met before is defined. */
  lemma {:induction false} DefineOld(ts: seq<Token>, k: nat, p: seq<Slot>, ltab: seq<LabelEntry>, chains: seq<seq<nat>>, x: nat)
    requires k < |ts| && ts[k].Label? && Labels(ts, k, ltab) && Jumps(ts, k, p, ltab, chains)
    requires 1 <= x < |ltab| && ltab[x].name == ts[k].name && ltab[x].address == None
    ensures var l := ltab[x := ltab[x].(address := Some(Slots(ts, k)))];
            Labels(ts, k + 1, l) && Jumps(ts, k + 1, p, l, chains)
  {
    hide Lb, Slots, Placed, OwnChain, GoesTo, Linked, Labels;
    var l := ltab[x := ltab[x].(address := Some(Slots(ts, k)))];
    DefineOldLabels(ts, k, ltab, x);
    forall t | 0 <= t < k + 1 && ts[t].Jump?
      ensures Placed(ts, p, l, chains, t)
    {
      DefineOldPlaced(ts, p, ltab, chains, x, Slots(ts, k), t);
    }
    forall y | 0 <= y < |ltab|
      ensures OwnChain(ts, k + 1, y, l[y], chains[y])
    {
      OwnMore(ts, k, y, ltab[y], l[y], chains[y]);
    }
  }

  lemma {:induction false} DefineOldPlaced(ts: seq<Token>, p: seq<Slot>, ltab: seq<LabelEntry>, chains: seq<seq<nat>>, x: nat,
                                           address: nat, t: nat)
    requires t < |ts| && ts[t].Jump? && |chains| == |ltab| && Placed(ts, p, ltab, chains, t)
    requires x < |ltab| && ltab[x].address == None
    ensures Placed(ts, p, ltab[x := ltab[x].(address := Some(address))], chains, t)
  {
    hide Lb;
    var l := ltab[x := ltab[x].(address := Some(address))];
    var y :| 0 <= y < |ltab| && GoesTo(ts[t].to, y, ltab[y]) &&
      (t in chains[y] || (ltab[y].address.Some? && Lb(ts, p, t) == ltab[y].address));
    assert GoesTo(ts[t].to, y, l[y]) && (t in chains[y] || (l[y].address.Some? && Lb(ts, p, t) == l[y].address));
  }

  lemma {:induction false} DefineOldLabels(ts: seq<Token>, k: nat, ltab: seq<LabelEntry>, x: nat)
    requires k < |ts| && ts[k].Label? && Labels(ts, k, ltab)
    requires 1 <= x < |ltab| && ltab[x].name == ts[k].name && ltab[x].address == None
    ensures Labels(ts, k + 1, ltab[x := ltab[x].(address := Some(Slots(ts, k)))])
  {
    hide Slots;
    var l := ltab[x := ltab[x].(address := Some(Slots(ts, k)))];
    assert forall y :: 0 <= y < |ltab| ==> l[y].name == ltab[y].name;
    forall i | 0 <= i < k + 1 && ts[i].Label?
      ensures HasEntry(l, ts[i].name)
    {
      var y :| 1 <= y < |ltab| && (if i == k then y == x else ltab[y].name == ts[i].name);
      assert l[y].name == ts[i].name;
    }
    assert Definition(ts, ts[k].name, k) == None;
  }

  /** A label not met before is defined. */
  lemma {:induction false} DefineNew(ts: seq<Token>, k: nat, p: seq<Slot>, ltab: seq<LabelEntry>, chains: seq<seq<nat>>)
    requires k < |ts| && ts[k].Label? && Labels(ts, k, ltab) && Jumps(ts, k, p, ltab, chains)
    requires NoEntry(ltab, ts[k].name)
    ensures var l := ltab + [LabelEntry(ts[k].name, None, Some(Slots(ts, k)))];
            Labels(ts, k + 1, l) && Jumps(ts, k + 1, p, l, chains + [[]])
  {
    hide Lb, Slots;
    var e := LabelEntry(ts[k].name, None, Some(Slots(ts, k)));
    NewEntry(ts, k, p, ltab, chains, e);
    NewEntryLabels(ts, k, ltab, e);
  }

  /** An entry with an empty chain added to the table. */
  lemma {:induction false} NewEntry(ts: seq<Token>, k: nat, p: seq<Slot>, ltab: seq<LabelEntry>, chains: seq<seq<nat>>, e: LabelEntry)
    requires k < |ts| && !ts[k].Jump? && Jumps(ts, k, p, ltab, chains) && |ltab| > 0 && e.chain == None && e.address.Some?
    ensures Jumps(ts, k + 1, p, ltab + [e], chains + [[]])
  {
    hide Lb, Slots, Placed, OwnChain, GoesTo, Linked;
    var l, c := ltab + [e], chains + [[]];
    forall t | 0 <= t < k + 1 && ts[t].Jump?
      ensures Placed(ts, p, l, c, t)
    {
      PlacedMore(ts, p, ltab, chains, t, e, []);
    }
    NoChain(ts, k + 1, p, |ltab|, e);
    forall x | 0 <= x < |l|
      ensures Linked(ts, p, c[x], l[x].chain) && OwnChain(ts, k + 1, x, l[x], c[x])
    {
      if x < |ltab| {
        OwnMore(ts, k, x, ltab[x], l[x], c[x]);
      }
    }
  }

  lemma {:induction false} NoChain(ts: seq<Token>, k: nat, p: seq<Slot>, x: nat, e: LabelEntry)
    requires k <= |ts| && e.chain == None
    ensures Linked(ts, p, [], e.chain) && OwnChain(ts, k, x, e, [])
  {
  }

  lemma {:induction false} OneChain(ts: seq<Token>, k: nat, p: seq<Slot>, x: nat, e: LabelEntry)
    requires k < |ts| && ts[k].Jump? && GoesTo(ts[k].to, x, e) && e.chain == Some(Slots(ts, k)) && Lb(ts, p, k) == None
    ensures Linked(ts, p, [k], e.chain) && OwnChain(ts, k + 1, x, e, [k])
  {
  }

  lemma {:induction false} PlacedMore(ts: seq<Token>, p: seq<Slot>, ltab: seq<LabelEntry>, chains: seq<seq<nat>>, t: nat,
                   e: LabelEntry, chain: seq<nat>)
    requires t < |ts| && ts[t].Jump? && |chains| == |ltab| && Placed(ts, p, ltab, chains, t)
    ensures Placed(ts, p, ltab + [e], chains + [chain], t)
  {
    hide Lb;
    var x :| 0 <= x < |ltab| && GoesTo(ts[t].to, x, ltab[x]) &&
      (t in chains[x] || (ltab[x].address.Some? && Lb(ts, p, t) == ltab[x].address));
    var l, c := ltab + [e], chains + [chain];
    assert l[x] == ltab[x] && c[x] == chains[x];
  }

  lemma {:induction false} NewEntryLabels(ts: seq<Token>, k: nat, ltab: seq<LabelEntry>, e: LabelEntry)
    requires k < |ts| && Labels(ts, k, ltab) && NoEntry(ltab, e.name)
    requires ts[k].Label? ==> ts[k].name == e.name
    requires e.address == if ts[k].Label? then Some(Slots(ts, k)) else None
    ensures Labels(ts, k + 1, ltab + [e])
  {
    hide Slots;
    var l := ltab + [e];
    assert forall x :: 0 <= x < |ltab| ==> l[x] == ltab[x];
    assert l[|ltab|] == e;
    forall i | 0 <= i < k + 1 && ts[i].Label?
      ensures HasEntry(l, ts[i].name) && (i < k ==> ts[i].name != e.name)
    {
      if i < k {
        assert HasEntry(ltab, ts[i].name);
        var x :| 1 <= x < |ltab| && ltab[x].name == ts[i].name;
        assert l[x].name == ts[i].name;
      } else {
        assert l[|ltab|].name == ts[i].name;
      }
    }
    forall x | 1 <= x < |l|
      ensures l[x].address == Address(ts, l[x].name, k + 1)
    {
      if x == |ltab| && Definition(ts, e.name, k).Some? {
        assert false;
      }
    }
  }

  /** A branch to a label already defined is resolved at once. */
  lemma {:induction false} JumpResolved(ts: seq<Token>, k: nat, p: seq<Slot>, q: seq<Slot>, ltab: seq<LabelEntry>, chains: seq<seq<nat>>, x: nat)
    requires k < |ts| && ts[k].Jump? && Jumps(ts, k, p, ltab, chains) && SameLb(ts, k, p, q)
    requires x < |ltab| && GoesTo(ts[k].to, x, ltab[x]) && ltab[x].address.Some? && Lb(ts, q, k) == ltab[x].address
    ensures Jumps(ts, k + 1, q, ltab, chains)
  {
    hide Lb, Slots, GoesTo, Placed, OwnChain, Linked, SameLb;
    ChainsSame(ts, k, p, q, ltab, chains);
    PlacedAt(ts, k, q, ltab, chains, x);
    forall t | 0 <= t < k + 1 && ts[t].Jump?
      ensures Placed(ts, q, ltab, chains, t)
    {
      if t < k {
        LbKept(ts, k, p, q, t);
        PlacedSame(ts, p, q, ltab, chains, t);
      }
    }
    forall y | 0 <= y < |ltab|
      ensures OwnChain(ts, k + 1, y, ltab[y], chains[y])
    {
      OwnMore(ts, k, y, ltab[y], ltab[y], chains[y]);
    }
  }

  lemma {:induction false} PlacedAt(ts: seq<Token>, k: nat, q: seq<Slot>, ltab: seq<LabelEntry>, chains: seq<seq<nat>>, x: nat)
    requires k < |ts| && ts[k].Jump? && |chains| == |ltab|
    requires x < |ltab| && GoesTo(ts[k].to, x, ltab[x]) && ltab[x].address.Some? && Lb(ts, q, k) == ltab[x].address
    ensures Placed(ts, q, ltab, chains, k)
  {
  }

  lemma {:induction false} ChainsSame(ts: seq<Token>, k: nat, p: seq<Slot>, q: seq<Slot>, ltab: seq<LabelEntry>, chains: seq<seq<nat>>)
    requires k <= |ts| && Chained(ts, k, p, ltab, chains, 0) && SameLb(ts, k, p, q)
    ensures forall x :: 0 <= x < |ltab| ==> Linked(ts, q, chains[x], ltab[x].chain)
  {
    hide Lb, Slots, Placed, GoesTo, SameLb, Linked;
    forall x | 0 <= x < |ltab|
      ensures Linked(ts, q, chains[x], ltab[x].chain)
    {
      LinkedSame(ts, k, p, q, chains[x], ltab[x].chain);
    }
  }

  /** A branch to a name not met before: the new entry's chain is that branch. */
  lemma {:induction false} JumpNew(ts: seq<Token>, k: nat, p: seq<Slot>, q: seq<Slot>, ltab: seq<LabelEntry>, chains: seq<seq<nat>>)
    requires k < |ts| && ts[k].Jump? && ts[k].to.Some? && Labels(ts, k, ltab) && Jumps(ts, k, p, ltab, chains)
    requires SameLb(ts, k, p, q) && Lb(ts, q, k) == None && NoEntry(ltab, ts[k].to.value)
    ensures var e := LabelEntry(ts[k].to.value, Some(Slots(ts, k)), None);
            Labels(ts, k + 1, ltab + [e]) && Jumps(ts, k + 1, q, ltab + [e], chains + [[k]])
  {
    hide Lb, Slots, Placed, OwnChain, Linked, Labels, SameLb;
    var e := LabelEntry(ts[k].to.value, Some(Slots(ts, k)), None);
    NewEntryLabels(ts, k, ltab, e);
    TableNotEmpty(ts, k, ltab);
    ChainsSame(ts, k, p, q, ltab, chains);
    var l, c := ltab + [e], chains + [[k]];
    forall t | 0 <= t < k + 1 && ts[t].Jump?
      ensures Placed(ts, q, l, c, t)
    {
      if t < k {
        LbKept(ts, k, p, q, t);
        PlacedSame(ts, p, q, ltab, chains, t);
        PlacedMore(ts, q, ltab, chains, t, e, [k]);
      } else {
        PlacedLast(ts, k, q, l, c);
      }
    }
    OneChain(ts, k, q, |ltab|, e);
    forall x | 0 <= x < |l|
      ensures Linked(ts, q, c[x], l[x].chain) && OwnChain(ts, k + 1, x, l[x], c[x])
    {
      if x < |ltab| {
        OwnMore(ts, k, x, ltab[x], l[x], c[x]);
      }
    }
  }

  lemma {:induction false} TableNotEmpty(ts: seq<Token>, k: nat, ltab: seq<LabelEntry>)
    requires k <= |ts| && Labels(ts, k, ltab)
    ensures |ltab| > 0
  {
  }

  lemma {:induction false} LbKept(ts: seq<Token>, k: nat, p: seq<Slot>, q: seq<Slot>, t: nat)
    requires t < k <= |ts| && SameLb(ts, k, p, q) && IsCmd(ts[t])
    ensures Lb(ts, q, t) == Lb(ts, p, t)
  {
  }

  /** A branch that begins the chain of the last entry. */
  lemma {:induction false} PlacedLast(ts: seq<Token>, k: nat, q: seq<Slot>, l: seq<LabelEntry>, c: seq<seq<nat>>)
    requires k < |ts| && ts[k].Jump? && |c| == |l| > 0 && c[|l| - 1] == [k] && GoesTo(ts[k].to, |l| - 1, l[|l| - 1])
    ensures Placed(ts, q, l, c, k)
  {
    assert k in c[|l| - 1];
  }

  /** A branch appended to a chain: the last branch of the chain is made to lead to it, or the chain begins with it. */
  lemma {:induction false} JumpAppend(ts: seq<Token>, k: nat, p: seq<Slot>, q: seq<Slot>, ltab: seq<LabelEntry>,
                                      chains: seq<seq<nat>>, x: nat)
    requires k < |ts| && ts[k].Jump? && Labels(ts, k, ltab) && Jumps(ts, k, p, ltab, chains) && Lb(ts, q, k) == None
    requires x < |ltab| && GoesTo(ts[k].to, x, ltab[x]) && ltab[x].address == None
    requires Appended(ts, k, p, q, chains[x])
    ensures var l := if chains[x] == [] then ltab[x := ltab[x].(chain := Some(Slots(ts, k)))] else ltab;
            Jumps(ts, k + 1, q, l, chains[x := chains[x] + [k]])
  {
    hide Lb, Slots, Placed, OwnChain, Linked, Labels, GoesTo, Appended;
    var l := if chains[x] == [] then ltab[x := ltab[x].(chain := Some(Slots(ts, k)))] else ltab;
    var c := chains[x := chains[x] + [k]];
    forall t | 0 <= t < k + 1 && ts[t].Jump?
      ensures Placed(ts, q, l, c, t)
    {
      AppendPlaced(ts, k, p, q, ltab, l, chains, x, t);
    }
    forall y | 0 <= y < |ltab|
      ensures Linked(ts, q, c[y], l[y].chain) && OwnChain(ts, k + 1, y, l[y], c[y])
    {
      NamesApart(ts, k, ltab, x);
      AppendLinked(ts, k, p, q, ltab, chains, x, y);
    }
  }

  lemma {:induction false} NamesApart(ts: seq<Token>, k: nat, ltab: seq<LabelEntry>, x: nat)
    requires k <= |ts| && Labels(ts, k, ltab) && x < |ltab|
    ensures forall z :: 0 <= z < |ltab| && z != x ==> ltab[z].name != ltab[x].name
  {
  }

  /** The last branch of a chain, if there is one, now leads to command k; nothing else has changed. */
  ghost predicate Appended(ts: seq<Token>, k: nat, p: seq<Slot>, q: seq<Slot>, chain: seq<nat>)
    requires k <= |ts|
  {
    && (forall t :: 0 <= t < k && IsCmd(ts[t]) && (chain != [] ==> t != chain[|chain| - 1]) ==>
          Lb(ts, q, t) == Lb(ts, p, t))
    && (chain != [] ==> chain[|chain| - 1] <= |ts| && Lb(ts, q, chain[|chain| - 1]) == Some(Slots(ts, k)))
  }

  lemma {:induction false} AppendPlaced(ts: seq<Token>, k: nat, p: seq<Slot>, q: seq<Slot>, ltab: seq<LabelEntry>,
                                        l: seq<LabelEntry>, chains: seq<seq<nat>>, x: nat, t: nat)
    requires t <= k < |ts| && ts[k].Jump? && ts[t].Jump? && |chains| == |ltab| == |l|
    requires x < |ltab| && GoesTo(ts[k].to, x, ltab[x]) && OwnChain(ts, k, x, ltab[x], chains[x])
    requires t < k ==> Placed(ts, p, ltab, chains, t)
    requires Appended(ts, k, p, q, chains[x])
    requires forall y :: 0 <= y < |l| ==> l[y].name == ltab[y].name && l[y].address == ltab[y].address
    ensures Placed(ts, q, l, chains[x := chains[x] + [k]], t)
  {
    hide Lb;
    var c := chains[x := chains[x] + [k]];
    if t == k {
      assert c[x][|chains[x]|] == k;
      assert GoesTo(ts[t].to, x, l[x]) && t in c[x];
    } else if t in chains[x] {
      assert GoesTo(ts[t].to, x, l[x]) && t in c[x];
    } else {
      var y :| 0 <= y < |ltab| && GoesTo(ts[t].to, y, ltab[y]) &&
        (t in chains[y] || (ltab[y].address.Some? && Lb(ts, p, t) == ltab[y].address));
      assert Lb(ts, q, t) == Lb(ts, p, t);
      assert GoesTo(ts[t].to, y, l[y]) && (t in c[y] || (l[y].address.Some? && Lb(ts, q, t) == l[y].address));
    }
  }

  lemma {:induction false} AppendLinked(ts: seq<Token>, k: nat, p: seq<Slot>, q: seq<Slot>, ltab: seq<LabelEntry>, chains: seq<seq<nat>>,
                     x: nat, y: nat)
    requires k < |ts| && ts[k].Jump? && |chains| == |ltab| && x < |ltab| && y < |ltab| && Lb(ts, q, k) == None
    requires Linked(ts, p, chains[y], ltab[y].chain) && OwnChain(ts, k, y, ltab[y], chains[y])
    requires OwnChain(ts, k, x, ltab[x], chains[x])
    requires GoesTo(ts[k].to, x, ltab[x]) && forall z :: 0 <= z < |ltab| && z != x ==> ltab[z].name != ltab[x].name
    requires Appended(ts, k, p, q, chains[x])
    ensures var l := if chains[x] == [] then ltab[x := ltab[x].(chain := Some(Slots(ts, k)))] else ltab;
            Linked(ts, q, chains[x := chains[x] + [k]][y], l[y].chain) &&
            OwnChain(ts, k + 1, y, l[y], chains[x := chains[x] + [k]][y])
  {
    hide Lb, Slots, Linked, OwnChain, Appended, GoesTo;
    if y != x {
      OthersLinked(ts, k, p, q, x, ltab[x], chains[x], y, ltab[y], chains[y]);
      OwnMore(ts, k, y, ltab[y], ltab[y], chains[y]);
    } else {
      LastOwn(ts, k, x, ltab[x], if chains[x] == [] then ltab[x].(chain := Some(Slots(ts, k))) else ltab[x], chains[x]);
      LastLinked(ts, k, p, q, chains[x], ltab[x].chain);
    }
  }

  /** A chain to another label does not hold the branch that was changed. */
  lemma {:induction false} OthersLinked(ts: seq<Token>, k: nat, p: seq<Slot>, q: seq<Slot>, x: nat, e: LabelEntry, chain: seq<nat>,
                                        y: nat, f: LabelEntry, other: seq<nat>)
    requires k < |ts| && y != x && f.name != e.name && OwnChain(ts, k, x, e, chain) && OwnChain(ts, k, y, f, other)
    requires Linked(ts, p, other, f.chain) && Appended(ts, k, p, q, chain)
    ensures Linked(ts, q, other, f.chain)
  {
    hide Lb, Slots;
    forall i | 0 <= i < |other|
      ensures Lb(ts, q, other[i]) == Lb(ts, p, other[i])
    {
      assert GoesTo(ts[other[i]].to, y, f);
      if chain != [] {
        assert GoesTo(ts[chain[|chain| - 1]].to, x, e);
      }
    }
  }

  /** The chain that the new branch ends. */
  lemma {:induction false} LastLinked(ts: seq<Token>, k: nat, p: seq<Slot>, q: seq<Slot>, chain: seq<nat>, head: Option<nat>)
    requires k < |ts| && ts[k].Jump? && Lb(ts, q, k) == None && Linked(ts, p, chain, head) && Appended(ts, k, p, q, chain)
    requires forall i :: 0 <= i < |chain| ==> chain[i] < k
    requires forall i, j :: 0 <= i < j < |chain| ==> chain[i] < chain[j]
    ensures Linked(ts, q, chain + [k], if chain == [] then Some(Slots(ts, k)) else head)
  {
    hide Lb, Slots;
    var c := chain + [k];
    forall i | 0 <= i < |c|
      ensures Lb(ts, q, c[i]) == if i + 1 < |c| then Some(Slots(ts, c[i + 1])) else None
    {
      if i + 1 < |chain| {
        assert chain[i] < chain[|chain| - 1];
        assert Lb(ts, q, chain[i]) == Lb(ts, p, chain[i]);
      }
    }
  }

  lemma {:induction false} LastOwn(ts: seq<Token>, k: nat, x: nat, e: LabelEntry, e': LabelEntry, chain: seq<nat>)
    requires k < |ts| && ts[k].Jump? && GoesTo(ts[k].to, x, e) && OwnChain(ts, k, x, e, chain) && e'.name == e.name
    ensures forall i :: 0 <= i < |chain| ==> chain[i] < k
    ensures forall i, j :: 0 <= i < j < |chain| ==> chain[i] < chain[j]
    ensures OwnChain(ts, k + 1, x, e', chain + [k])
  {
    var c := chain + [k];
    assert forall i :: 0 <= i < |c| ==> c[i] == if i < |chain| then chain[i] else k;
  }

  // ----- the compiler -----

  /** What makes sed give a script up: it is not well formed, or it has too many commands. */
  ghost predicate Refused(ts: seq<Token>, n: nat) {
    !WellFormed(ts) || Slots(ts, |ts|) >= n
  }

  lemma {:induction false} TooMany(ts: seq<Token>, k: nat, n: nat)
    requires k < |ts| && Slots(ts, k + 1) >= n
    ensures Refused(ts, n)
  {
    SlotsGrow(ts, k + 1, |ts|);
  }

  lemma {:induction false} DepthGone(ts: seq<Token>, k: nat, j: nat)
    requires k <= j <= |ts| && Depth(ts, k) == None
    ensures Depth(ts, j) == None
  {
    if k < j {
      DepthGone(ts, k, j - 1);
    }
  }

  /** A label defined twice. */
  lemma {:induction false} Twice(ts: seq<Token>, k: nat, ltab: seq<LabelEntry>, x: nat)
    requires k < |ts| && ts[k].Label? && Labels(ts, k, ltab)
    requires 1 <= x < |ltab| && ltab[x].name == ts[k].name && ltab[x].address.Some?
    ensures !WellFormed(ts)
  {
    var d := Definition(ts, ts[k].name, k).value;
    assert ts[d] == ts[k] && ts[d].Label?;
  }

  lemma {:induction false} RefusedBy(ts: seq<Token>, n: nat)
    requires !WellFormed(ts)
    ensures Refused(ts, n)
  {
  }

  lemma {:induction false} JumpsNextSame(ts: seq<Token>, k: nat, p: seq<Slot>, q: seq<Slot>, ltab: seq<LabelEntry>,
                                         chains: seq<seq<nat>>)
    requires k < |ts| && !ts[k].Jump? && Jumps(ts, k, p, ltab, chains) && SameLb(ts, k, p, q)
    ensures Jumps(ts, k + 1, q, ltab, chains)
  {
    hide Lb, Jumps;
    JumpsNext(ts, k, p, q, ltab, chains);
  }

  lemma {:induction false} TopBrace(ts: seq<Token>, k: nat, p: seq<Slot>, cmpend: seq<nat>, opens: seq<nat>)
    requires k <= |ts| && Blocks(ts, k, p, cmpend, opens)
    ensures |opens| == |cmpend| && Depth(ts, k) == Some(|cmpend|)
    ensures opens != [] ==> opens[|opens| - 1] < k && ts[opens[|opens| - 1]].Open?
    ensures opens != [] ==> cmpend[|opens| - 1] == Slots(ts, opens[|opens| - 1])
  {
  }

  lemma {:induction false} NoBrace(ts: seq<Token>, k: nat, n: nat)
    requires k < |ts| && ts[k].Close? && Depth(ts, k) == Some(0)
    ensures Refused(ts, n)
  {
    DepthGone(ts, k + 1, |ts|);
  }

  lemma {:induction false} SlotInRange(ts: seq<Token>, k: nat, p: seq<Slot>, t: nat)
    requires t < k <= |ts| && Shape(ts, k, p) && IsCmd(ts[t])
    ensures Slots(ts, t) < Slots(ts, k) < |p|
  {
  }

  lemma {:induction false} EntryZero(ts: seq<Token>, k: nat, ltab: seq<LabelEntry>)
    requires k <= |ts| && Labels(ts, k, ltab)
    ensures |ltab| > 0 && ltab[0].name == [] && ltab[0].address == None
  {
  }

  lemma {:induction false} SameLbSelf(ts: seq<Token>, k: nat, p: seq<Slot>)
    requires k <= |ts|
    ensures SameLb(ts, k, p, p)
  {
  }

  lemma {:induction false} SameLbMore(ts: seq<Token>, k: nat, p: seq<Slot>, q: seq<Slot>, r: seq<Slot>)
    requires k < |ts| && SameLb(ts, k, p, q)
    requires forall t :: 0 <= t < k + 1 && IsCmd(ts[t]) && t != k ==> Lb(ts, r, t) == Lb(ts, q, t)
    ensures SameLb(ts, k, p, r)
  {
    hide Lb;
  }

  lemma {:induction false} BlocksSame(ts: seq<Token>, k: nat, p: seq<Slot>, q: seq<Slot>, cmpend: seq<nat>, opens: seq<nat>)
    requires k <= |ts| && Blocks(ts, k, p, cmpend, opens)
    requires forall t :: 0 <= t < k && ts[t].Open? ==> Lb(ts, q, t) == Lb(ts, p, t)
    ensures Blocks(ts, k, q, cmpend, opens)
  {
    hide Lb, Slots, MatchFrom, Target;
  }

  lemma {:induction false} LinkAt(ts: seq<Token>, p: seq<Slot>, chain: seq<nat>, head: Option<nat>, i: nat)
    requires Linked(ts, p, chain, head) && i < |chain| && Slots(ts, chain[i]) < |p|
    ensures p[Slots(ts, chain[i])].lb1 == if i + 1 < |chain| then Some(Slots(ts, chain[i + 1])) else None
  {
    assert Lb(ts, p, chain[i]) == if i + 1 < |chain| then Some(Slots(ts, chain[i + 1])) else None;
  }

  /** What the chain of an entry is like. */
  lemma {:induction false} ChainOf(ts: seq<Token>, k: nat, p: seq<Slot>, ltab: seq<LabelEntry>, chains: seq<seq<nat>>, x: nat)
    requires k <= |ts| && Jumps(ts, k, p, ltab, chains) && x < |ltab|
    ensures |chains| == |ltab| && Linked(ts, p, chains[x], ltab[x].chain)
    ensures (ltab[x].chain == None) == (chains[x] == [])
    ensures forall i :: 0 <= i < |chains[x]| ==> chains[x][i] < k && ts[chains[x][i]].Jump?
  {
    hide Lb, Slots, Placed;
    assert OwnChain(ts, k, x, ltab[x], chains[x]);
  }

  /** The tail's branch field set in the slots that already hold command k. */
  lemma {:induction false} AppendedBy(ts: seq<Token>, k: nat, p: seq<Slot>, q: seq<Slot>, r: seq<Slot>, chain: seq<nat>)
    requires k < |ts| && SameLb(ts, k, p, q) && chain != [] && chain[|chain| - 1] < k
    requires Lb(ts, r, chain[|chain| - 1]) == Some(Slots(ts, k))
    requires forall t :: 0 <= t < k + 1 && IsCmd(ts[t]) && t != chain[|chain| - 1] ==> Lb(ts, r, t) == Lb(ts, q, t)
    ensures Appended(ts, k, p, r, chain)
  {
    hide Lb;
  }

  lemma {:induction false} AppendedFirst(ts: seq<Token>, k: nat, p: seq<Slot>, q: seq<Slot>)
    requires k < |ts| && SameLb(ts, k, p, q)
    ensures Appended(ts, k, p, q, [])
  {
    hide Lb;
  }

  class Compiler {
    var pspace: array<Slot>
    var rep: nat
    var ltab: seq<LabelEntry>
    var cmpend: seq<nat>
    ghost var chains: seq<seq<nat>>
    ghost var opens: seq<nat>

    /** The first k tokens are compiled. */
    ghost predicate State(ts: seq<Token>, k: nat)
      requires k <= |ts|
      reads this, pspace
    {
      && rep == Slots(ts, k)
      && Shape(ts, k, pspace[..]) && Plains(ts, k, pspace[..]) && Blocks(ts, k, pspace[..], cmpend, opens)
      && Labels(ts, k, ltab) && Jumps(ts, k, pspace[..], ltab, chains)
    }

    constructor (n: nat, ghost ts: seq<Token>)
      requires n > 0
      ensures State(ts, 0) && fresh(pspace) && pspace.Length == n
    {
      pspace := new Slot[n](_ => EMPTY);
      rep, ltab, cmpend := 0, [LabelEntry([], None, None)], [];
      chains, opens := [[]], [];
    }

    /** search: the entry of a name. */
    method Search(n: Name) returns (x: nat)
      ensures x <= |ltab|
      ensures if x < |ltab| then ltab[x].name == n else NoEntry(ltab, n)
    {
      x := 0;
      while x < |ltab|
        invariant x <= |ltab| && forall y :: 0 <= y < x ==> ltab[y].name != n
      {
        if ltab[x].name == n {
          return;
        }
        x := x + 1;
      }
    }

    /** A command is put into the slot at rep; its branch field is as it was. */
    method Emit(t: Token, ghost ts: seq<Token>, ghost k: nat)
      requires k < |ts| && ts[k] == t && IsCmd(t) && State(ts, k) && Slots(ts, k + 1) < pspace.Length
      modifies pspace
      ensures pspace[..] == old(pspace[..])[rep := Head(t, old(pspace[rep].lb1))]
      ensures Shape(ts, k + 1, pspace[..]) && Plains(ts, k + 1, pspace[..])
      ensures SameLb(ts, k, old(pspace[..]), pspace[..]) && Lb(ts, pspace[..], k) == None
    {
      AddSlot(ts, k, pspace[..]);
      pspace[rep] := Head(t, pspace[rep].lb1);
      assert pspace[..] == old(pspace[..])[rep := Head(t, old(pspace[rep].lb1))];
    }

    /** A command that does not branch, and the step to the next slot, which must exist. */
    method DoPlain(ts: seq<Token>, k: nat) returns (ok: bool)
      requires k < |ts| && ts[k].Plain? && State(ts, k)
      modifies this, pspace
      ensures pspace == old(pspace) && (if ok then State(ts, k + 1) else Refused(ts, pspace.Length))
    {
      hide Shape, Plains, Blocks, Labels, Jumps, SameLb, Lb, Refused;
      if rep + 1 >= pspace.Length {
        TooMany(ts, k, pspace.Length);
        return false;
      }
      ghost var p := pspace[..];
      Emit(ts[k], ts, k);
      BlocksNext(ts, k, p, pspace[..], cmpend, opens);
      JumpsNextSame(ts, k, p, pspace[..], ltab, chains);
      LabelsNext(ts, k, ltab);
      rep := rep + 1;
      ok := true;
    }

    /** An opening brace: a branch, taken where the command does not apply, to be filled in at its closing brace. */
    method DoOpen(ts: seq<Token>, k: nat) returns (ok: bool)
      requires k < |ts| && ts[k].Open? && State(ts, k)
      modifies this, pspace
      ensures pspace == old(pspace) && (if ok then State(ts, k + 1) else Refused(ts, pspace.Length))
    {
      hide Shape, Plains, Blocks, Labels, Jumps, SameLb, Lb, Refused;
      if rep + 1 >= pspace.Length {
        TooMany(ts, k, pspace.Length);
        return false;
      }
      ghost var p := pspace[..];
      Emit(ts[k], ts, k);
      BlocksOpen(ts, k, p, pspace[..], cmpend, opens);
      JumpsNextSame(ts, k, p, pspace[..], ltab, chains);
      LabelsNext(ts, k, ltab);
      cmpend := cmpend + [rep];
      opens := opens + [k];
      rep := rep + 1;
      ok := true;
    }

    /** A closing brace: the brace it closes leads to the next slot. */
    method DoClose(ts: seq<Token>, k: nat) returns (ok: bool)
      requires k < |ts| && ts[k].Close? && State(ts, k)
      modifies this, pspace
      ensures pspace == old(pspace) && (if ok then State(ts, k + 1) else Refused(ts, pspace.Length))
    {
      hide Shape, Plains, Blocks, Labels, Jumps, SameLb, Lb, Refused;
      TopBrace(ts, k, pspace[..], cmpend, opens);
      if |cmpend| == 0 {
        NoBrace(ts, k, pspace.Length);
        return false;
      }
      ghost var p := pspace[..];
      var top := cmpend[|cmpend| - 1];
      ghost var u := opens[|opens| - 1];
      SlotInRange(ts, k, p, u);
      SetLb(ts, k, p, u, Some(rep));
      pspace[top] := pspace[top].(lb1 := Some(rep));
      assert pspace[..] == p[top := p[top].(lb1 := Some(rep))];
      SkipSlot(ts, k, pspace[..]);
      BlocksClose(ts, k, p, pspace[..], cmpend, opens);
      JumpsNext(ts, k, p, pspace[..], ltab, chains);
      LabelsNext(ts, k, ltab);
      cmpend := cmpend[..|cmpend| - 1];
      opens := opens[..|opens| - 1];
      ok := true;
    }

    /** A label: its address is the next slot. */
    method DoLabel(ts: seq<Token>, k: nat) returns (ok: bool)
      requires k < |ts| && ts[k].Label? && ts[k].name != [] && State(ts, k)
      modifies this, pspace
      ensures pspace == old(pspace) && (if ok then State(ts, k + 1) else Refused(ts, pspace.Length))
    {
      hide Shape, Plains, Blocks, Labels, Jumps, SameLb, Lb, Refused;
      var n := ts[k].name;
      var x := Search(n);
      EntryZero(ts, k, ltab);
      if x < |ltab| && ltab[x].address.Some? {
        Twice(ts, k, ltab, x);
        RefusedBy(ts, pspace.Length);
        return false;
      }
      SkipSlot(ts, k, pspace[..]);
      SameLbSelf(ts, k, pspace[..]);
      BlocksNext(ts, k, pspace[..], pspace[..], cmpend, opens);
      if x < |ltab| {
        DefineOld(ts, k, pspace[..], ltab, chains, x);
        ltab := ltab[x := ltab[x].(address := Some(rep))];
      } else {
        DefineNew(ts, k, pspace[..], ltab, chains);
        ltab := ltab + [LabelEntry(n, None, Some(rep))];
        chains := chains + [[]];
      }
      ok := true;
    }

    /** The walk along a chain to its last branch. */
    method Tail(head: nat, ghost ts: seq<Token>, ghost k: nat, ghost chain: seq<nat>) returns (pt: nat)
      requires k <= |ts| && Shape(ts, k, pspace[..]) && chain != [] && Linked(ts, pspace[..], chain, Some(head))
      requires forall i :: 0 <= i < |chain| ==> chain[i] < k
      ensures pt < pspace.Length && pt == Slots(ts, chain[|chain| - 1])
    {
      hide Shape, Slots;
      pt := head;
      ghost var i := 0;
      SlotInRange(ts, k, pspace[..], chain[0]);
      while pspace[pt].lb1 != None
        invariant 0 <= i < |chain| && pt == Slots(ts, chain[i]) && pt < pspace.Length
        decreases |chain| - i
      {
        LinkAt(ts, pspace[..], chain, Some(head), i);
        pt := pspace[pt].lb1.value;
        i := i + 1;
        SlotInRange(ts, k, pspace[..], chain[i]);
      }
      LinkAt(ts, pspace[..], chain, Some(head), i);
    }

    /** A b or t: resolved at once if its label has an address, or put at the end of the label's chain. */
    method DoJump(ts: seq<Token>, k: nat) returns (ok: bool)
      requires k < |ts| && ts[k].Jump? && ts[k].to != Some([]) && State(ts, k)
      modifies this, pspace
      ensures pspace == old(pspace) && (if ok then State(ts, k + 1) else Refused(ts, pspace.Length))
    {
      hide Shape, Plains, Blocks, Labels, Jumps, SameLb, Lb, Refused, Appended, Linked, OwnChain;
      if rep + 1 >= pspace.Length {
        TooMany(ts, k, pspace.Length);
        return false;
      }
      ghost var p := pspace[..];
      Emit(ts[k], ts, k);
      ghost var q := pspace[..];
      BlocksNext(ts, k, p, q, cmpend, opens);
      LabelsNext(ts, k, ltab);
      EntryZero(ts, k, ltab);
      var x := 0;
      if ts[k].to.Some? {
        x := Search(ts[k].to.value);
        if x == |ltab| {
          JumpNew(ts, k, p, q, ltab, chains);
          ltab := ltab + [LabelEntry(ts[k].to.value, Some(rep), None)];
          chains := chains + [[k]];
          rep := rep + 1;
          return true;
        }
      }
      ok := true;
      if ltab[x].address.Some? {
        SetLb(ts, k + 1, q, k, ltab[x].address);
        SlotInRange(ts, k + 1, q, k);
        pspace[rep] := pspace[rep].(lb1 := ltab[x].address);
        assert pspace[..] == q[rep := q[rep].(lb1 := ltab[x].address)];
        SameLbMore(ts, k, p, q, pspace[..]);
        BlocksSame(ts, k + 1, q, pspace[..], cmpend, opens);
        JumpResolved(ts, k, p, pspace[..], ltab, chains, x);
      } else {
        Append(ts, k, x, p);
      }
      rep := rep + 1;
    }

    /** A branch is put at the end of the chain of entry x, the slots before it being those of p. */
    method Append(ts: seq<Token>, k: nat, x: nat, ghost p: seq<Slot>)
      requires k < |ts| && ts[k].Jump? && rep == Slots(ts, k)
      requires Labels(ts, k, ltab) && Labels(ts, k + 1, ltab) && Jumps(ts, k, p, ltab, chains)
      requires Shape(ts, k, p) && Shape(ts, k + 1, pspace[..]) && Plains(ts, k + 1, pspace[..])
      requires SameLb(ts, k, p, pspace[..]) && Lb(ts, pspace[..], k) == None
      requires Blocks(ts, k + 1, pspace[..], cmpend, opens)
      requires x < |ltab| && GoesTo(ts[k].to, x, ltab[x]) && ltab[x].address == None
      modifies pspace, this`ltab, this`chains
      ensures Shape(ts, k + 1, pspace[..]) && Plains(ts, k + 1, pspace[..]) && Blocks(ts, k + 1, pspace[..], cmpend, opens)
      ensures Labels(ts, k + 1, ltab) && Jumps(ts, k + 1, pspace[..], ltab, chains)
    {
      hide Shape, Plains, Blocks, Labels, Jumps, SameLb, Lb, Appended, Linked, OwnChain, GoesTo;
      ghost var q := pspace[..];
      ChainOf(ts, k, p, ltab, chains, x);
      ghost var chain := chains[x];
      if ltab[x].chain == None {
        AppendedFirst(ts, k, p, q);
        JumpAppend(ts, k, p, q, ltab, chains, x);
        LabelsChain(ts, k + 1, ltab, x, rep);
        ltab := ltab[x := ltab[x].(chain := Some(rep))];
      } else {
        ghost var u := chain[|chain| - 1];
        LinkedSame(ts, k, p, q, chain, ltab[x].chain);
        HeadOf(ts, q, chain, ltab[x].chain);
        var pt := Tail(ltab[x].chain.value, ts, k + 1, chain);
        SetLb(ts, k + 1, q, u, Some(rep));
        pspace[pt] := pspace[pt].(lb1 := Some(rep));
        assert pspace[..] == q[pt := q[pt].(lb1 := Some(rep))];
        AppendedBy(ts, k, p, q, pspace[..], chain);
        BlocksSame(ts, k + 1, q, pspace[..], cmpend, opens);
        JumpAppend(ts, k, p, pspace[..], ltab, chains, x);
      }
      chains := chains[x := chain + [k]];
    }

    /** dechain for one label: every branch of the chain is given the label's address. */
    method Patch(head: nat, address: nat, ghost ts: seq<Token>, ghost chain: seq<nat>)
      requires Shape(ts, |ts|, pspace[..]) && Plains(ts, |ts|, pspace[..]) && chain != []
      requires Linked(ts, pspace[..], chain, Some(head))
      requires forall i, j :: 0 <= i < j < |chain| ==> chain[i] < chain[j]
      modifies pspace
      ensures Shape(ts, |ts|, pspace[..]) && Plains(ts, |ts|, pspace[..])
      ensures Patched(ts, old(pspace[..]), pspace[..], chain, address)
    {
      hide Shape, Plains, Slots, Patched, Linked, Lb;
      ghost var p := pspace[..];
      var rptr := head;
      ghost var i := 0;
      PatchedNone(ts, p, chain, address);
      HeadOf(ts, p, chain, Some(head));
      InChain(ts, p, chain, Some(head), 0);
      assert chain[..0] == [];
      SlotInRange(ts, |ts|, p, chain[0]);
      while true
        invariant 0 <= i < |chain| && chain[i] < |ts| && rptr == Slots(ts, chain[i]) && rptr < pspace.Length == |p|
        invariant Shape(ts, |ts|, pspace[..]) && Plains(ts, |ts|, pspace[..])
        invariant Patched(ts, p, pspace[..], chain[..i], address)
        decreases |chain| - i
      {
        ghost var q := pspace[..];
        PatchedElse(ts, p, q, chain, i, address, Some(head));
        var trptr := pspace[rptr].lb1;
        SetLb(ts, |ts|, q, chain[i], Some(address));
        pspace[rptr] := pspace[rptr].(lb1 := Some(address));
        assert pspace[..] == q[rptr := q[rptr].(lb1 := Some(address))];
        PatchedMore(ts, p, q, pspace[..], chain, i, address);
        if trptr == None {
          break;
        }
        rptr := trptr.value;
        i := i + 1;
        InChain(ts, p, chain, Some(head), i);
        SlotInRange(ts, |ts|, pspace[..], chain[i]);
      }
      assert chain[..i + 1] == chain;
    }

    /** dechain: None of the labels may be without an address. */
    method Dechain(ghost ts: seq<Token>) returns (ok: bool)
      requires Ready(ts, 0)
      modifies pspace, this`chains
      ensures if ok then Compiled(ts, pspace[..]) else !WellFormed(ts)
      ensures ok ==> forall t :: 0 <= t < |ts| && ts[t].Jump? ==> Target(ts, t).Some?
    {
      hide Shape, Plains, Chained, Linked, OwnChain, Slots, Blocks, Patched, WellFormed, Compiled;
      var x := 0;
      while x < |ltab|
        invariant x <= |ltab| && Ready(ts, x)
        invariant forall y :: 0 <= y < x ==> ltab[y].address.Some?
      {
        ChainAt(ts, pspace[..], ltab, chains, x);
        if ltab[x].address == None {
          Undefined(ts, ltab, chains, x);
          return false;
        }
        ghost var p := pspace[..];
        ghost var chain := chains[x];
        if ltab[x].chain != None {
          Patch(ltab[x].chain.value, ltab[x].address.value, ts, chain);
        } else {
          PatchedNone(ts, p, chain, ltab[x].address.value);
        }
        PatchedChained(ts, p, pspace[..], ltab, chains, x);
        PatchedBlocks(ts, p, pspace[..], chain, ltab[x].address.value);
        chains := chains[x := []];
        x := x + 1;
      }
      AllCompiled(ts, pspace[..], ltab, chains);
      ok := true;
    }

    /** Between two labels of dechain: those before x are done. */
    ghost predicate Ready(ts: seq<Token>, x: nat)
      reads this, pspace
    {
      && Shape(ts, |ts|, pspace[..]) && Plains(ts, |ts|, pspace[..]) && Blocks(ts, |ts|, pspace[..], [], [])
      && Chained(ts, |ts|, pspace[..], ltab, chains, x) && Addresses(ts, ltab) && Unique(ts, |ts|)
      && Apart(ltab)
      && forall y :: x <= y < |ltab| && 1 <= y ==> chains[y] != [] || ltab[y].address.Some?
    }

    /**
     * fcomp and what main does after it: a script is compiled, or refused. It is refused exactly when it is not
     * well formed or has too many commands.
     */
    method Compile(ts: seq<Token>) returns (ok: bool)
      requires State(ts, 0) && Named(ts)
      modifies this, pspace
      ensures pspace == old(pspace)
      ensures ok <==> !Refused(ts, pspace.Length)
      ensures ok ==> Compiled(ts, pspace[..])
    {
      hide Shape, Plains, Chained, Jumps, Blocks, Refused, Labels, Compiled;
      var k := 0;
      while k < |ts|
        invariant 0 <= k <= |ts| && State(ts, k) && pspace == old(pspace)
      {
        match ts[k] {
          case Plain(_, _) => ok := DoPlain(ts, k);
          case Open(_, _) => ok := DoOpen(ts, k);
          case Close => ok := DoClose(ts, k);
          case Label(_) => ok := DoLabel(ts, k);
          case Jump(_, _, _, _) => ok := DoJump(ts, k);
        }
        if !ok {
          return;
        }
        k := k + 1;
      }
      TopBrace(ts, |ts|, pspace[..], cmpend, opens);
      if cmpend != [] {
        RefusedBy(ts, pspace.Length);
        return false;
      }
      EndReady(ts, pspace[..], ltab, chains);
      ltab := ltab[0 := ltab[0].(address := Some(rep))];
      ok := Dechain(ts);
      if ok {
        CompiledAccepted(ts, pspace[..]);
      } else {
        RefusedBy(ts, pspace.Length);
      }
    }
  }

  /** The branches of the chain lead to the address; nothing else differs. */
  ghost predicate Patched(ts: seq<Token>, p: seq<Slot>, q: seq<Slot>, chain: seq<nat>, address: nat) {
    forall t :: 0 <= t < |ts| && IsCmd(ts[t]) ==> Lb(ts, q, t) == if t in chain then Some(address) else Lb(ts, p, t)
  }

  lemma {:induction false} PatchedNone(ts: seq<Token>, p: seq<Slot>, chain: seq<nat>, address: nat)
    ensures Patched(ts, p, p, [], address)
  {
  }

  lemma {:induction false} InChain(ts: seq<Token>, p: seq<Slot>, chain: seq<nat>, head: Option<nat>, i: nat)
    requires Linked(ts, p, chain, head) && i < |chain|
    ensures chain[i] < |ts| && ts[chain[i]].Jump?
    ensures Lb(ts, p, chain[i]) == if i + 1 < |chain| then Some(Slots(ts, chain[i + 1])) else None
  {
    assert Lb(ts, p, chain[i]) == if i + 1 < |chain| then Some(Slots(ts, chain[i + 1])) else None;
  }

  /** A branch of the chain not yet reached still links to the next. */
  lemma {:induction false} PatchedElse(ts: seq<Token>, p: seq<Slot>, q: seq<Slot>, chain: seq<nat>, i: nat, address: nat,
                                       head: Option<nat>)
    requires i < |chain| && Patched(ts, p, q, chain[..i], address) && Linked(ts, p, chain, head)
    requires Slots(ts, chain[i]) < |q|
    requires forall i, j :: 0 <= i < j < |chain| ==> chain[i] < chain[j]
    ensures chain[i] < |ts| && ts[chain[i]].Jump?
    ensures q[Slots(ts, chain[i])].lb1 == if i + 1 < |chain| then Some(Slots(ts, chain[i + 1])) else None
  {
    InChain(ts, p, chain, head, i);
    assert chain[i] !in chain[..i];
    assert Lb(ts, q, chain[i]) == Lb(ts, p, chain[i]);
  }

  lemma {:induction false} PatchedMore(ts: seq<Token>, p: seq<Slot>, q: seq<Slot>, r: seq<Slot>, chain: seq<nat>, i: nat,
                                       address: nat)
    requires i < |chain| && chain[i] < |ts| && Patched(ts, p, q, chain[..i], address)
    requires Lb(ts, r, chain[i]) == Some(address)
    requires forall t :: 0 <= t < |ts| && IsCmd(ts[t]) && t != chain[i] ==> Lb(ts, r, t) == Lb(ts, q, t)
    ensures Patched(ts, p, r, chain[..i + 1], address)
  {
    hide Lb;
    assert chain[..i + 1] == chain[..i] + [chain[i]];
  }

  ghost predicate Addresses(ts: seq<Token>, ltab: seq<LabelEntry>) {
    && |ltab| > 0 && ltab[0].address == Some(Slots(ts, |ts|))
    && forall x :: 1 <= x < |ltab| ==> ltab[x].address == Address(ts, ltab[x].name, |ts|)
  }

  lemma {:induction false} ChainAt(ts: seq<Token>, p: seq<Slot>, ltab: seq<LabelEntry>, chains: seq<seq<nat>>, x: nat)
    requires Chained(ts, |ts|, p, ltab, chains, x) && x < |ltab|
    ensures Linked(ts, p, chains[x], ltab[x].chain) && OwnChain(ts, |ts|, x, ltab[x], chains[x])
    ensures |chains| == |ltab| && (ltab[x].chain == None) == (chains[x] == [])
    ensures forall i, j :: 0 <= i < j < |chains[x]| ==> chains[x][i] < chains[x][j]
    ensures forall i :: 0 <= i < |chains[x]| ==> chains[x][i] < |ts| && ts[chains[x][i]].Jump?
  {
    hide Lb, Slots, Placed;
    assert OwnChain(ts, |ts|, x, ltab[x], chains[x]);
  }

  lemma {:induction false} Undefined(ts: seq<Token>, ltab: seq<LabelEntry>, chains: seq<seq<nat>>, x: nat)
    requires Addresses(ts, ltab) && x < |ltab| == |chains| && ltab[x].address == None
    requires chains[x] != [] && OwnChain(ts, |ts|, x, ltab[x], chains[x])
    ensures !WellFormed(ts)
  {
    var t := chains[x][0];
    assert ts[t].Jump? && ts[t].to == Some(ltab[x].name);
  }

  lemma {:induction false} PatchedChained(ts: seq<Token>, p: seq<Slot>, q: seq<Slot>, ltab: seq<LabelEntry>,
                                          chains: seq<seq<nat>>, x: nat)
    requires Chained(ts, |ts|, p, ltab, chains, x) && x < |ltab| && ltab[x].address.Some?
    requires Patched(ts, p, q, chains[x], ltab[x].address.value)
    requires Apart(ltab)
    ensures Chained(ts, |ts|, q, ltab, chains[x := []], x + 1)
  {
    hide Lb, Slots, Placed, OwnChain, Linked, GoesTo, Patched, SameLabel;
    var c := chains[x := []];
    forall t | 0 <= t < |ts| && ts[t].Jump?
      ensures Placed(ts, q, ltab, c, t)
    {
      PatchedPlaced(ts, p, q, ltab, chains, x, t);
    }
    forall y | 0 <= y < |ltab|
      ensures OwnChain(ts, |ts|, y, ltab[y], c[y]) && (x < y ==> Linked(ts, q, c[y], ltab[y].chain))
    {
      EmptyOwn(ts, y, ltab[y]);
      if x < y {
        PatchedLinked(ts, p, q, chains[x], chains[y], x, y, ltab[x], ltab[y]);
      }
    }
  }

  lemma {:induction false} EmptyOwn(ts: seq<Token>, x: nat, e: LabelEntry)
    ensures OwnChain(ts, |ts|, x, e, [])
  {
  }

  ghost predicate SameLabel(x: nat, e: LabelEntry, y: nat, f: LabelEntry) {
    if x == 0 || y == 0 then x == y else e.name == f.name
  }

  /** No two entries are for the same label. */
  ghost predicate Apart(ltab: seq<LabelEntry>) {
    forall x, y :: 0 <= x < y < |ltab| ==> !SameLabel(x, ltab[x], y, ltab[y])
  }

  lemma {:induction false} PatchedLinked(ts: seq<Token>, p: seq<Slot>, q: seq<Slot>, cx: seq<nat>, cy: seq<nat>,
                                         x: nat, y: nat, e: LabelEntry, f: LabelEntry)
    requires e.address.Some? && Patched(ts, p, q, cx, e.address.value)
    requires OwnChain(ts, |ts|, x, e, cx) && OwnChain(ts, |ts|, y, f, cy) && Linked(ts, p, cy, f.chain)
    requires !SameLabel(x, e, y, f)
    ensures Linked(ts, q, cy, f.chain)
  {
    hide Lb, Slots;
    forall i | 0 <= i < |cy|
      ensures Lb(ts, q, cy[i]) == Lb(ts, p, cy[i])
    {
      assert GoesTo(ts[cy[i]].to, y, f);
      assert cy[i] !in cx;
    }
  }

  lemma {:induction false} PatchedPlaced(ts: seq<Token>, p: seq<Slot>, q: seq<Slot>, ltab: seq<LabelEntry>,
                                         chains: seq<seq<nat>>, x: nat, t: nat)
    requires t < |ts| && ts[t].Jump? && |chains| == |ltab| && Placed(ts, p, ltab, chains, t)
    requires x < |ltab| && ltab[x].address.Some? && Patched(ts, p, q, chains[x], ltab[x].address.value)
    requires OwnChain(ts, |ts|, x, ltab[x], chains[x])
    ensures Placed(ts, q, ltab, chains[x := []], t)
  {
    hide Lb;
    var c := chains[x := []];
    if t in chains[x] {
      assert GoesTo(ts[t].to, x, ltab[x]) && Lb(ts, q, t) == ltab[x].address;
    } else {
      var y :| 0 <= y < |ltab| && GoesTo(ts[t].to, y, ltab[y]) &&
        (t in chains[y] || (ltab[y].address.Some? && Lb(ts, p, t) == ltab[y].address));
      assert Lb(ts, q, t) == Lb(ts, p, t);
      assert GoesTo(ts[t].to, y, ltab[y]) && (t in c[y] || (ltab[y].address.Some? && Lb(ts, q, t) == ltab[y].address));
    }
  }

  lemma {:induction false} PatchedBlocks(ts: seq<Token>, p: seq<Slot>, q: seq<Slot>, chain: seq<nat>, address: nat)
    requires Blocks(ts, |ts|, p, [], []) && Patched(ts, p, q, chain, address)
    requires forall i :: 0 <= i < |chain| ==> chain[i] < |ts| && ts[chain[i]].Jump?
    ensures Blocks(ts, |ts|, q, [], [])
  {
    hide Blocks, Lb;
    BlocksSame(ts, |ts|, p, q, [], []);
  }

  /** With all chains used up every branch is where it should be. */
  lemma {:induction false} AllCompiled(ts: seq<Token>, p: seq<Slot>, ltab: seq<LabelEntry>, chains: seq<seq<nat>>)
    requires Shape(ts, |ts|, p) && Plains(ts, |ts|, p) && Blocks(ts, |ts|, p, [], [])
    requires Chained(ts, |ts|, p, ltab, chains, |ltab|) && Addresses(ts, ltab)
    ensures Compiled(ts, p)
    ensures forall t :: 0 <= t < |ts| && ts[t].Jump? ==> Target(ts, t).Some?
  {
    hide Slots, Placed, Target, MatchFrom;
    forall t | 0 <= t < |ts| && IsCmd(ts[t])
      ensures InSlot(ts, p, t, Target(ts, t)) && (ts[t].Jump? ==> Target(ts, t).Some?)
    {
      SlotInRange(ts, |ts|, p, t);
      assert HasHead(ts, p, t);
      assert Lb(ts, p, t) == Target(ts, t) && (ts[t].Jump? ==> Target(ts, t).Some?) by {
        match ts[t] {
          case Plain(_, _) => PlainTarget(ts, t);
          case Open(_, _) => assert ClosedAt(ts, p, t);
          case Jump(_, _, _, _) =>
            assert Placed(ts, p, ltab, chains, t);
            JumpTarget(ts, p, ltab, chains, t);
        }
      }
    }
  }

  lemma {:induction false} PlainTarget(ts: seq<Token>, t: nat)
    requires t < |ts| && ts[t].Plain?
    ensures Target(ts, t) == None
  {
  }

  lemma {:induction false} JumpTarget(ts: seq<Token>, p: seq<Slot>, ltab: seq<LabelEntry>, chains: seq<seq<nat>>, t: nat)
    requires t < |ts| && ts[t].Jump? && Addresses(ts, ltab) && |chains| == |ltab|
    requires forall x :: 0 <= x < |ltab| ==> chains[x] == []
    requires Placed(ts, p, ltab, chains, t)
    ensures Lb(ts, p, t) == Target(ts, t)
    ensures Target(ts, t).Some?
  {
    hide Lb, Slots;
  }

  /** A compiled script was well formed. */
  lemma {:induction false} CompiledAccepted(ts: seq<Token>, p: seq<Slot>)
    requires Compiled(ts, p) && Depth(ts, |ts|) == Some(0) && Unique(ts, |ts|)
    requires forall t :: 0 <= t < |ts| && ts[t].Jump? ==> Target(ts, t).Some?
    ensures !Refused(ts, |p|)
  {
    hide Slots;
    forall t | 0 <= t < |ts| && ts[t].Jump? && ts[t].to.Some?
      ensures Address(ts, ts[t].to.value, |ts|).Some?
    {
      assert Target(ts, t).Some?;
    }
  }

  /** At the end of a script whose braces match, the chains are as dechain wants them. */
  lemma {:induction false} EndReady(ts: seq<Token>, p: seq<Slot>, ltab: seq<LabelEntry>, chains: seq<seq<nat>>)
    requires Labels(ts, |ts|, ltab) && Jumps(ts, |ts|, p, ltab, chains)
    ensures |ltab| > 0 && Unique(ts, |ts|)
    ensures var l := ltab[0 := ltab[0].(address := Some(Slots(ts, |ts|)))];
            && Chained(ts, |ts|, p, l, chains, 0) && Addresses(ts, l)
            && Apart(l)
            && (forall y :: 1 <= y < |l| ==> chains[y] != [] || l[y].address.Some?)
  {
    hide Slots, Placed, Lb, Linked, OwnChain, GoesTo, HasEntry;
    var l := ltab[0 := ltab[0].(address := Some(Slots(ts, |ts|)))];
    forall t | 0 <= t < |ts| && ts[t].Jump?
      ensures Placed(ts, p, l, chains, t)
    {
      DefineOldPlaced(ts, p, ltab, chains, 0, Slots(ts, |ts|), t);
    }
    forall x | 0 <= x < |l|
      ensures OwnChain(ts, |ts|, x, l[x], chains[x])
    {
      OwnSame(ts, x, ltab[x], l[x], chains[x]);
    }
  }

  lemma {:induction false} OwnSame(ts: seq<Token>, x: nat, e: LabelEntry, e': LabelEntry, chain: seq<nat>)
    requires OwnChain(ts, |ts|, x, e, chain) && e'.name == e.name
    ensures OwnChain(ts, |ts|, x, e', chain)
  {
  }

  lemma {:induction false} HeadOf(ts: seq<Token>, p: seq<Slot>, chain: seq<nat>, head: Option<nat>)
    requires Linked(ts, p, chain, head) && chain != []
    ensures head == Some(Slots(ts, chain[0]))
  {
  }

  lemma {:induction false} LabelsChain(ts: seq<Token>, k: nat, ltab: seq<LabelEntry>, x: nat, head: nat)
    requires k <= |ts| && Labels(ts, k, ltab) && x < |ltab|
    ensures Labels(ts, k, ltab[x := ltab[x].(chain := Some(head))])
  {
    var l := ltab[x := ltab[x].(chain := Some(head))];
    forall i | 0 <= i < k && ts[i].Label?
      ensures HasEntry(l, ts[i].name)
    {
      assert HasEntry(ltab, ts[i].name);
      var y :| 1 <= y < |ltab| && ltab[y].name == ts[i].name;
      assert l[y].name == ts[i].name;
    }
  }
}
