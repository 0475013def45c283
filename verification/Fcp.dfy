// The copy workers of fcp: processes that share one offset.

/** worker and nextoff of fcp.c, as the steps of several workers in any interleaving. */
module Fcp {
  import opened Basics

  /**
   * Where a worker is: about to call nextoff; in it, with the lock, before and after off is read and after it is
   * moved on; before a pread of len bytes at offset o to place bp of the buffer; before the pwrite of the n
   * bytes read; ended, normally or not.
   */
  datatype Phase =
    | Idle
    | Holding
    | Loaded(o: nat)
    | Bumped(o: nat)
    | Reading(o: nat, bp: nat, len: nat)
    | Writing(o: nat, bp: nat, len: nat, n: nat)
    | Exited
    | Failed

  datatype Worker = Worker(phase: Phase, buf: seq<Byte>)

  /** The shared state. claims records which worker was given each chunk, in order. */
  datatype State = State(off: nat, lk: Option<nat>, ws: seq<Worker>, target: map<nat, Byte>, claims: seq<nat>)

  datatype Step =
    | Lock(w: nat)
    | Load(w: nat)
    | Bump(w: nat)
    | Unlock(w: nat)
    | Read(w: nat, n: nat)
    | Write(w: nat)
    | Fail(w: nat)

  function Min(a: nat, b: nat): nat {
    if a < b then a else b
  }

  /** What pread may return: nothing at or past the end, some of what is there before it. */
  predicate CanRead(src: seq<Byte>, o: nat, len: nat, n: nat) {
    if o >= |src| then n == 0 else 0 < n <= Min(len, |src| - o)
  }

  /** A read before the end gives all that is there, as far as there is room. */
  predicate FullRead(src: seq<Byte>, o: nat, len: nat, n: nat) {
    n == if o >= |src| then 0 else Min(len, |src| - o)
  }

  predicate InLock(p: Phase) {
    p.Holding? || p.Loaded? || p.Bumped?
  }

  /** pwrite */
  function Written(target: map<nat, Byte>, o: nat, d: seq<Byte>): (t: map<nat, Byte>)
    ensures forall i :: i in t <==> i in target || o <= i < o + |d|
    ensures forall i :: i in t ==> t[i] == if o <= i < o + |d| then d[i - o] else target[i]
  {
    if d == [] then target else Written(target, o, d[..|d| - 1])[o + |d| - 1 := d[|d| - 1]]
  }

  function Move(s: State, w: nat, p: Phase): State
    requires w < |s.ws|
  {
    s.(ws := s.ws[w := s.ws[w].(phase := p)])
  }

  /** A step can be taken. chunk is the size of the buffer. */
  predicate Enabled(src: seq<Byte>, chunk: nat, s: State, t: Step) {
    t.w < |s.ws| &&
    var p := s.ws[t.w].phase;
    match t
    case Lock(_) => p.Idle? && s.lk == None
    case Load(_) => p.Holding?
    case Bump(_) => p.Loaded?
    case Unlock(_) => p.Bumped?
    case Read(_, n) => p.Reading? && p.bp + p.len <= |s.ws[t.w].buf| && CanRead(src, p.o, p.len, n)
    case Write(_) => p.Writing? && p.n <= p.len && p.n <= |s.ws[t.w].buf|
    case Fail(_) => p.Reading? || p.Writing?
  }

  /** The state after a step; the pwrite takes its bytes from the start of the buffer. */
  function Next(src: seq<Byte>, chunk: nat, s: State, t: Step): State
    requires Enabled(src, chunk, s, t)
  {
    var w, p := t.w, s.ws[t.w].phase;
    match t
    case Lock(_) => Move(s, w, Holding).(lk := Some(w))
    case Load(_) => Move(s, w, Loaded(s.off))
    case Bump(_) => Move(s, w, Bumped(p.o)).(off := s.off + chunk, claims := s.claims + [w])
    case Unlock(_) => Move(s, w, Reading(p.o, 0, chunk)).(lk := None)
    case Read(_, n) =>
      if n == 0 then Move(s, w, Exited) else
      var b := s.ws[w].buf;
      s.(ws := s.ws[w := Worker(Writing(p.o, p.bp, p.len, n), b[..p.bp] + src[p.o..p.o + n] + b[p.bp + n..])])
    case Write(_) =>
      var len := p.len - p.n;
      Move(s, w, if len == 0 then Idle else Reading(p.o + p.n, p.bp + p.n, len))
      .(target := Written(s.target, p.o, s.ws[w].buf[..p.n]))
    case Fail(_) => Move(s, w, Failed)
  }

  /** Before the first step: an empty target and a number of workers. */
  ghost predicate Init(chunk: nat, s: State) {
    && s.off == 0 && s.lk == None && s.claims == [] && s.target == map[]
    && |s.ws| > 0 && forall w :: 0 <= w < |s.ws| ==> s.ws[w].phase == Idle && |s.ws[w].buf| == chunk
  }

  // ----- what every step keeps -----

  /** Exactly the holder of the lock is inside nextoff. */
  ghost predicate Exclusive(s: State) {
    && (s.lk.Some? ==> s.lk.value < |s.ws|)
    && forall w :: 0 <= w < |s.ws| ==> (InLock(s.ws[w].phase) <==> s.lk == Some(w))
  }

  /** A worker has been given a chunk and has not yet written it. */
  predicate Owes(p: Phase, start: nat) {
    match p
    case Bumped(o) => o == start
    case Reading(o, bp, _) => bp == 0 && o == start
    case Writing(o, bp, _, _) => bp == 0 && o == start
    case _ => false
  }

  /** The phase of a worker fits the shared state. */
  ghost predicate Fits(src: seq<Byte>, chunk: nat, s: State, w: nat)
    requires w < |s.ws|
  {
    |s.ws[w].buf| == chunk &&
    match s.ws[w].phase
    case Loaded(o) => o == s.off
    case Bumped(o) => o + chunk == s.off && Owner(s, w, chunk, o)
    case Reading(o, bp, len) => bp <= o && bp + len == chunk && 0 < len && Owner(s, w, chunk, o - bp)
    case Writing(o, bp, len, n) =>
      bp <= o && bp + len == chunk && 0 < n <= len && o + n <= |src| && Owner(s, w, chunk, o - bp)
    case Exited => |src| <= s.off
    case _ => true
  }

  /** The chunk that starts at o was given to the worker. */
  ghost predicate Owner(s: State, w: nat, chunk: nat, o: nat) {
    exists c :: 0 <= c < |s.claims| && s.claims[c] == w && o == c * chunk
  }

  /** Whatever the reads give, the workers keep to the chunks given to them. */
  ghost predicate Orderly(src: seq<Byte>, chunk: nat, s: State) {
    && chunk > 0 && |s.ws| > 0 && s.off == |s.claims| * chunk && Exclusive(s)
    && (forall w :: 0 <= w < |s.ws| ==> Fits(src, chunk, s, w))
    && (forall c :: 0 <= c < |s.claims| ==> s.claims[c] < |s.ws|)
  }

  /** What a worker has in its buffer, if reads before the end are full: a chunk is read and written in one piece. */
  ghost predicate InOnePiece(src: seq<Byte>, s: State, w: nat)
    requires w < |s.ws|
  {
    match s.ws[w].phase
    case Reading(o, bp, _) => bp > 0 ==> o >= |src|
    case Writing(o, bp, len, n) =>
      bp == 0 && o < |src| && n == Min(len, |src| - o) && n <= |s.ws[w].buf| && s.ws[w].buf[..n] == src[o..o + n]
    case _ => true
  }

  /** Every chunk given out is written, failed, or still owed by the worker it was given to. */
  ghost predicate Accounted(src: seq<Byte>, chunk: nat, s: State, c: nat)
    requires c < |s.claims|
  {
    || (s.claims[c] < |s.ws| && (Owes(s.ws[s.claims[c]].phase, c * chunk) || s.ws[s.claims[c]].phase == Failed))
    || forall i :: c * chunk <= i < (c + 1) * chunk && i < |src| ==> i in s.target
  }

  /** The target holds nothing but what the source has in the same place. */
  ghost predicate Faithful(src: seq<Byte>, s: State) {
    forall i :: i in s.target ==> i < |src| && s.target[i] == src[i]
  }

  ghost predicate Inv(src: seq<Byte>, chunk: nat, s: State) {
    && Orderly(src, chunk, s) && Faithful(src, s)
    && (forall w :: 0 <= w < |s.ws| ==> InOnePiece(src, s, w))
    && (forall c :: 0 <= c < |s.claims| ==> Accounted(src, chunk, s, c))
  }

  lemma {:induction false} InitInv(src: seq<Byte>, chunk: nat, s: State)
    requires chunk > 0 && Init(chunk, s)
    ensures Inv(src, chunk, s)
  {
  }

  // ----- what any step keeps -----

  lemma {:induction false} KeepsExclusive(src: seq<Byte>, chunk: nat, s: State, t: Step)
    requires Enabled(src, chunk, s, t) && Exclusive(s)
    ensures Exclusive(Next(src, chunk, s, t))
  {
  }

  /** A chunk given out stays with its worker. */
  lemma {:induction false} OwnerStays(src: seq<Byte>, chunk: nat, s: State, t: Step, w: nat, o: nat)
    requires Enabled(src, chunk, s, t) && Owner(s, w, chunk, o)
    ensures Owner(Next(src, chunk, s, t), w, chunk, o)
  {
    var c :| 0 <= c < |s.claims| && s.claims[c] == w && o == c * chunk;
    var n := Next(src, chunk, s, t);
    assert s.claims <= n.claims;
    assert n.claims[c] == w;
  }

  /** A worker that does not move still fits. */
  lemma {:induction false} OtherFits(src: seq<Byte>, chunk: nat, s: State, t: Step, w: nat)
    requires Orderly(src, chunk, s) && Enabled(src, chunk, s, t) && w < |s.ws| && w != t.w
    ensures Fits(src, chunk, Next(src, chunk, s, t), w)
  {
    hide Owner;
    var n := Next(src, chunk, s, t);
    assert Fits(src, chunk, s, w);
    assert n.ws[w] == s.ws[w];
    match s.ws[w].phase {
      case Bumped(o) => OwnerStays(src, chunk, s, t, w, o);
      case Reading(o, bp, _) => OwnerStays(src, chunk, s, t, w, o - bp);
      case Writing(o, bp, _, _) => OwnerStays(src, chunk, s, t, w, o - bp);
      case _ =>
    }
  }

  /** The worker that moves fits its new phase. */
  lemma {:induction false} MoverFits(src: seq<Byte>, chunk: nat, s: State, t: Step)
    requires Orderly(src, chunk, s) && Enabled(src, chunk, s, t)
    ensures Fits(src, chunk, Next(src, chunk, s, t), t.w)
  {
    hide Exclusive, Written, Owner;
    var n := Next(src, chunk, s, t);
    var w, p := t.w, s.ws[t.w].phase;
    assert Fits(src, chunk, s, w);
    match t {
      case Bump(_) =>
        NewOwner(src, chunk, s, t);
      case Unlock(_) => OwnerStays(src, chunk, s, t, w, p.o);
      case Read(_, k) =>
        OwnerBelow(src, chunk, s, w, p.o - p.bp);
        OwnerStays(src, chunk, s, t, w, p.o - p.bp);
      case Write(_) => OwnerStays(src, chunk, s, t, w, p.o - p.bp);
      case _ =>
    }
  }

  lemma {:induction false} NewOwner(src: seq<Byte>, chunk: nat, s: State, t: Step)
    requires Enabled(src, chunk, s, t) && t.Bump? && s.off == |s.claims| * chunk
    ensures Owner(Next(src, chunk, s, t), t.w, chunk, s.off)
  {
    assert Next(src, chunk, s, t).claims[|s.claims|] == t.w;
  }

  lemma {:induction false} OwnerBelow(src: seq<Byte>, chunk: nat, s: State, w: nat, o: nat)
    requires s.off == |s.claims| * chunk && Owner(s, w, chunk, o)
    ensures o + chunk <= s.off
  {
    var c :| 0 <= c < |s.claims| && s.claims[c] == w && o == c * chunk;
    MulLe(c + 1, |s.claims|, chunk);
  }

  lemma {:induction false} MulLe(a: nat, b: nat, c: nat)
    requires a <= b
    ensures a * c <= b * c && (a + 1) * c == a * c + c
  {
  }

  /** Whatever a read gives, every step keeps the workers orderly. */
  lemma {:induction false} StepOrderly(src: seq<Byte>, chunk: nat, s: State, t: Step)
    requires Orderly(src, chunk, s) && Enabled(src, chunk, s, t)
    ensures Orderly(src, chunk, Next(src, chunk, s, t))
  {
    hide Fits, Exclusive, Owner, Written;
    var n := Next(src, chunk, s, t);
    KeepsExclusive(src, chunk, s, t);
    forall w | 0 <= w < |n.ws|
      ensures Fits(src, chunk, n, w)
    {
      if w == t.w {
        MoverFits(src, chunk, s, t);
      } else {
        OtherFits(src, chunk, s, t, w);
      }
    }
    MulLe(|s.claims|, |s.claims| + 1, chunk);
  }

  /** The start of the chunk a worker is at work on. */
  predicate Working(p: Phase, start: nat) {
    match p
    case Bumped(o) => o == start
    case Reading(o, bp, _) => o == start + bp
    case Writing(o, bp, _, _) => o == start + bp
    case _ => false
  }

  /** Chunks start apart. */
  lemma {:induction false} StartsApart(c: nat, d: nat, chunk: nat)
    requires chunk > 0
    ensures c < d ==> c * chunk + chunk <= d * chunk
    ensures d < c ==> d * chunk + chunk <= c * chunk
  {
    if c < d {
      MulLe(c + 1, d, chunk);
    } else if d < c {
      MulLe(d + 1, c, chunk);
    }
  }

  /** A chunk belongs to one worker, and two chunks do not overlap. */
  lemma {:induction false} OneOwner(s: State, chunk: nat, v: nat, start: nat, w: nat, start': nat)
    requires chunk > 0 && Owner(s, v, chunk, start) && Owner(s, w, chunk, start')
    ensures start == start' ==> v == w
    ensures start != start' ==> start + chunk <= start' || start' + chunk <= start
  {
    var c :| 0 <= c < |s.claims| && s.claims[c] == v && start == c * chunk;
    var d :| 0 <= d < |s.claims| && s.claims[d] == w && start' == d * chunk;
    StartsApart(c, d, chunk);
  }

  lemma {:induction false} WorkingOwner(src: seq<Byte>, chunk: nat, s: State, w: nat, start: nat)
    requires Orderly(src, chunk, s) && w < |s.ws| && Working(s.ws[w].phase, start)
    ensures Owner(s, w, chunk, start)
  {
    hide Owner;
    assert Fits(src, chunk, s, w);
  }

  // ----- what a step keeps if its read is full -----

  /** A step whose read, if it is one, is full. */
  predicate FullStep(src: seq<Byte>, chunk: nat, s: State, t: Step) {
    && Enabled(src, chunk, s, t)
    && (t.Read? ==> FullRead(src, s.ws[t.w].phase.o, s.ws[t.w].phase.len, t.n))
  }

  lemma {:induction false} KeepsPieces(src: seq<Byte>, chunk: nat, s: State, t: Step, w: nat)
    requires Orderly(src, chunk, s) && w < |s.ws| && InOnePiece(src, s, w) && FullStep(src, chunk, s, t)
    ensures InOnePiece(src, Next(src, chunk, s, t), w)
  {
    hide Exclusive, Owner, Written;
    var n := Next(src, chunk, s, t);
    assert Fits(src, chunk, s, w);
    if w == t.w && t.Read? && t.n > 0 {
      var p := s.ws[w].phase;
      assert n.ws[w].buf[..t.n] == src[p.o..p.o + t.n];
    }
  }

  lemma {:induction false} KeepsFaithful(src: seq<Byte>, chunk: nat, s: State, t: Step)
    requires Inv(src, chunk, s) && FullStep(src, chunk, s, t)
    ensures Faithful(src, Next(src, chunk, s, t))
  {
    hide Accounted, Orderly;
    if t.Write? {
      var p, b := s.ws[t.w].phase, s.ws[t.w].buf;
      assert InOnePiece(src, s, t.w);
      assert forall k :: 0 <= k < p.n ==> b[..p.n][k] == src[p.o..p.o + p.n][k];
    }
  }

  lemma {:induction false} KeepsAccounted(src: seq<Byte>, chunk: nat, s: State, t: Step, c: nat)
    requires Inv(src, chunk, s) && FullStep(src, chunk, s, t) && c < |s.claims|
    ensures Accounted(src, chunk, Next(src, chunk, s, t), c)
  {
    hide Faithful, Exclusive, Owner;
    var n := Next(src, chunk, s, t);
    assert s.claims <= n.claims && n.claims[c] == s.claims[c];
    assert Accounted(src, chunk, s, c);
    var w := s.claims[c];
    if t.w == w && Owes(s.ws[w].phase, c * chunk) {
      assert Fits(src, chunk, s, w) && InOnePiece(src, s, w);
      MulLe(c, c + 1, chunk);
    }
  }

  lemma {:induction false} NewClaim(src: seq<Byte>, chunk: nat, s: State, t: Step)
    requires Inv(src, chunk, s) && FullStep(src, chunk, s, t) && t.Bump?
    ensures var n := Next(src, chunk, s, t);
            |n.claims| == |s.claims| + 1 && n.claims[|s.claims|] == t.w && Accounted(src, chunk, n, |s.claims|)
  {
    hide Faithful, Exclusive, Owner;
    assert Fits(src, chunk, s, t.w);
  }

  /** The invariant is kept by every step of any worker whose read, if it is one, is full. */
  lemma {:induction false} StepInv(src: seq<Byte>, chunk: nat, s: State, t: Step)
    requires Inv(src, chunk, s) && FullStep(src, chunk, s, t)
    ensures Inv(src, chunk, Next(src, chunk, s, t))
  {
    hide Orderly, Accounted, Faithful, InOnePiece, Written;
    var n := Next(src, chunk, s, t);
    StepOrderly(src, chunk, s, t);
    KeepsFaithful(src, chunk, s, t);
    forall w | 0 <= w < |n.ws|
      ensures InOnePiece(src, n, w)
    {
      KeepsPieces(src, chunk, s, t, w);
    }
    forall c | 0 <= c < |n.claims|
      ensures Accounted(src, chunk, n, c)
    {
      if c < |s.claims| {
        KeepsAccounted(src, chunk, s, t, c);
      } else {
        NewClaim(src, chunk, s, t);
      }
    }
  }

  // ----- runs -----

  /** A run of any steps, in any interleaving, from one state to another. */
  ghost predicate Reaches(src: seq<Byte>, chunk: nat, s: State, ts: seq<Step>, e: State)
    decreases |ts|
  {
    if ts == [] then s == e
    else Enabled(src, chunk, s, ts[0]) && Reaches(src, chunk, Next(src, chunk, s, ts[0]), ts[1..], e)
  }

  /** Every read of a run gives all that is there. */
  ghost predicate AllFull(src: seq<Byte>, chunk: nat, s: State, ts: seq<Step>)
    decreases |ts|
  {
    ts != [] ==> FullStep(src, chunk, s, ts[0]) && AllFull(src, chunk, Next(src, chunk, s, ts[0]), ts[1..])
  }

  lemma {:induction false} RunOrderly(src: seq<Byte>, chunk: nat, s: State, ts: seq<Step>, e: State)
    requires Orderly(src, chunk, s) && Reaches(src, chunk, s, ts, e)
    ensures Orderly(src, chunk, e)
    decreases |ts|
  {
    hide Orderly, Enabled, Next;
    if ts != [] {
      StepOrderly(src, chunk, s, ts[0]);
      RunOrderly(src, chunk, Next(src, chunk, s, ts[0]), ts[1..], e);
    }
  }

  lemma {:induction false} RunInv(src: seq<Byte>, chunk: nat, s: State, ts: seq<Step>, e: State)
    requires Inv(src, chunk, s) && Reaches(src, chunk, s, ts, e) && AllFull(src, chunk, s, ts)
    ensures Inv(src, chunk, e)
    decreases |ts|
  {
    hide Inv, Enabled, Next, FullStep;
    if ts != [] {
      StepInv(src, chunk, s, ts[0]);
      RunInv(src, chunk, Next(src, chunk, s, ts[0]), ts[1..], e);
    }
  }

  /** At no time are two workers inside nextoff. */
  lemma {:induction false} MutualExclusion(src: seq<Byte>, chunk: nat, s: State, ts: seq<Step>, e: State, v: nat, w: nat)
    requires chunk > 0 && Init(chunk, s) && Reaches(src, chunk, s, ts, e)
    requires v < |e.ws| && w < |e.ws| && InLock(e.ws[v].phase) && InLock(e.ws[w].phase)
    ensures v == w
  {
    hide Reaches;
    InitInv(src, chunk, s);
    RunOrderly(src, chunk, s, ts, e);
  }

  /** No two workers are ever at work on the same chunk, and each is at work on one that was given to it. */
  lemma {:induction false} ChunksApart(src: seq<Byte>, chunk: nat, s: State, ts: seq<Step>, e: State, v: nat, w: nat, start: nat)
    requires chunk > 0 && Init(chunk, s) && Reaches(src, chunk, s, ts, e)
    requires v < |e.ws| && w < |e.ws| && Working(e.ws[v].phase, start) && Working(e.ws[w].phase, start)
    ensures v == w && Owner(e, v, chunk, start)
  {
    hide Reaches, Owner, Fits, Exclusive, Working, Init;
    InitInv(src, chunk, s);
    RunOrderly(src, chunk, s, ts, e);
    WorkingOwner(src, chunk, e, v, start);
    WorkingOwner(src, chunk, e, w, start);
    OneOwner(e, chunk, v, start, w, start);
  }

  /** The target is a copy of the source. */
  ghost predicate Copied(src: seq<Byte>, target: map<nat, Byte>) {
    && (forall i :: i in target <==> 0 <= i < |src|)
    && (forall i :: i in target ==> target[i] == src[i])
  }

  ghost predicate AllExited(s: State) {
    forall w :: 0 <= w < |s.ws| ==> s.ws[w].phase == Exited
  }

  /** When all workers have ended normally the target is a copy of the source, whatever the interleaving. */
  lemma {:induction false} AllCopied(src: seq<Byte>, chunk: nat, s: State, ts: seq<Step>, e: State)
    requires chunk > 0 && Init(chunk, s) && Reaches(src, chunk, s, ts, e) && AllFull(src, chunk, s, ts) && AllExited(e)
    ensures Copied(src, e.target)
  {
    hide Reaches, AllFull, Init, Exclusive, Owner, InOnePiece;
    InitInv(src, chunk, s);
    RunInv(src, chunk, s, ts, e);
    assert Fits(src, chunk, e, 0);
    forall i: nat | i < |src|
      ensures i in e.target
    {
      var c := i / chunk;
      InChunk(i, chunk, |e.claims|);
      assert Accounted(src, chunk, e, c);
    }
  }

  lemma {:induction false} InChunk(i: nat, chunk: nat, n: nat)
    requires chunk > 0 && i < n * chunk
    ensures var c := i / chunk;
            c < n && c * chunk <= i < (c + 1) * chunk
  {
    var c := i / chunk;
    assert i == chunk * c + i % chunk;
    MulLe(c, c + 1, chunk);
    if n <= c {
      MulLe(n, c, chunk);
    }
  }

  /** As long as some worker has not ended, some worker can take a step: the lock never blocks them all. */
  lemma {:induction false} NeverStuck(src: seq<Byte>, chunk: nat, s: State, w: nat)
    requires Orderly(src, chunk, s) && w < |s.ws| && s.ws[w].phase != Exited && s.ws[w].phase != Failed
    ensures exists t :: FullStep(src, chunk, s, t)
  {
    hide Owner;
    var h := if s.lk.Some? then s.lk.value else w;
    assert Fits(src, chunk, s, h);
    var p := s.ws[h].phase;
    var t :=
      if p.Idle? then Lock(h)
      else if p.Holding? then Load(h)
      else if p.Loaded? then Bump(h)
      else if p.Bumped? then Unlock(h)
      else if p.Reading? then Read(h, if p.o >= |src| then 0 else Min(p.len, |src| - p.o))
      else Write(h);
    assert FullStep(src, chunk, s, t);
  }

  // ----- when a schedule copies every source -----

  /** Two states that differ only in bytes. */
  ghost predicate Alike(s: State, s': State) {
    && s.off == s'.off && s.lk == s'.lk && s.claims == s'.claims && |s.ws| == |s'.ws|
    && forall w :: 0 <= w < |s.ws| ==> s.ws[w].phase == s'.ws[w].phase && |s.ws[w].buf| == |s'.ws[w].buf|
  }

  lemma {:induction false} StepAlike(src: seq<Byte>, src': seq<Byte>, chunk: nat, s: State, s': State, t: Step)
    requires |src| == |src'| && Alike(s, s') && Enabled(src, chunk, s, t)
    ensures Enabled(src', chunk, s', t) && Alike(Next(src, chunk, s, t), Next(src', chunk, s', t))
    ensures FullStep(src, chunk, s, t) <==> FullStep(src', chunk, s', t)
  {
    hide Written;
    assert s.ws[t.w].phase == s'.ws[t.w].phase;
  }

  /** The first read of a run that gives less than is there: its offset and what it gives. */
  ghost function ShortRead(src: seq<Byte>, chunk: nat, s: State, ts: seq<Step>): (nat, nat)
    decreases |ts|
  {
    if ts == [] || !Enabled(src, chunk, s, ts[0]) then (0, 0)
    else if FullStep(src, chunk, s, ts[0]) then ShortRead(src, chunk, Next(src, chunk, s, ts[0]), ts[1..])
    else (s.ws[ts[0].w].phase.o, ts[0].n)
  }

  /** A schedule runs on every source of the same length, with the same reads. */
  lemma {:induction false} RunAlike(src: seq<Byte>, src': seq<Byte>, chunk: nat, s: State, s': State, ts: seq<Step>, e: State)
    returns (e': State)
    requires |src| == |src'| && Alike(s, s') && Reaches(src, chunk, s, ts, e)
    ensures Reaches(src', chunk, s', ts, e') && Alike(e, e')
    ensures forall x | Reaches(src', chunk, s', ts, x) :: x == e'
    ensures AllFull(src, chunk, s, ts) <==> AllFull(src', chunk, s', ts)
    ensures ShortRead(src, chunk, s, ts) == ShortRead(src', chunk, s', ts)
    decreases |ts|
  {
    hide Enabled, Next, FullStep, Alike;
    if ts == [] {
      e' := s';
    } else {
      StepAlike(src, src', chunk, s, s', ts[0]);
      e' := RunAlike(src, src', chunk, Next(src, chunk, s, ts[0]), Next(src', chunk, s', ts[0]), ts[1..], e);
      if !FullStep(src, chunk, s, ts[0]) {
        SamePhase(s, s', ts[0].w, src, chunk, ts[0]);
      }
    }
  }

  lemma {:induction false} SamePhase(s: State, s': State, w: nat, src: seq<Byte>, chunk: nat, t: Step)
    requires Alike(s, s') && Enabled(src, chunk, s, t) && w == t.w
    ensures w < |s.ws| && w < |s'.ws| && s.ws[w].phase == s'.ws[w].phase
  {
  }

  /** Worker w has passed place start + n of the chunk, or is not at work on it. */
  predicate Past(p: Phase, start: nat, n: nat) {
    match p
    case Bumped(o) => o != start
    case Reading(o, bp, _) => o == start + bp ==> bp > n
    case Writing(o, bp, _, _) => o == start + bp ==> bp > n
    case _ => true
  }

  /** Between the short read of n bytes and the write of what is read next: the first byte is at the start of the buffer. */
  ghost predicate AtWork(src: seq<Byte>, chunk: nat, x: Worker, start: nat, n: nat)
    requires start < |src|
  {
    && |x.buf| > 0 && x.buf[0] == src[start] && n < chunk
    && (x.phase == Writing(start, 0, chunk, n) || x.phase == Reading(start + n, n, chunk - n)
        || (x.phase.Writing? && x.phase.o == start + n && x.phase.bp == n && x.phase.len == chunk - n))
  }

  /** The first byte of a chunk stands in the place of the one n further on. */
  ghost predicate Misplaced(src: seq<Byte>, s: State, start: nat, n: nat)
    requires start < |src|
  {
    start + n in s.target && s.target[start + n] == src[start]
  }

  /**
   * Worker w has read only n bytes of its chunk: it will write, or has written, the first byte of the chunk in the
   * place of the one n further on.
   */
  ghost predicate Spoiling(src: seq<Byte>, chunk: nat, s: State, w: nat, start: nat, n: nat) {
    && w < |s.ws| && 0 < n < chunk && start + n < |src| && Owner(s, w, chunk, start)
    && (s.ws[w].phase == Failed || AtWork(src, chunk, s.ws[w], start, n)
        || (Misplaced(src, s, start, n) && Past(s.ws[w].phase, start, n)))
  }

  /** A pwrite by another worker, or by the owner past the place or in another chunk, leaves the place alone. */
  lemma {:induction false} WritesElsewhere(src: seq<Byte>, chunk: nat, s: State, v: nat, w: nat, start: nat, n: nat)
    requires Orderly(src, chunk, s) && v < |s.ws| && s.ws[v].phase.Writing? && Owner(s, w, chunk, start) && n < chunk
    requires v != w || Past(s.ws[v].phase, start, n)
    ensures var p := s.ws[v].phase; !(p.o <= start + n < p.o + p.n)
  {
    hide Owner;
    assert Fits(src, chunk, s, v);
    var p := s.ws[v].phase;
    OneOwner(s, chunk, v, p.o - p.bp, w, start);
  }

  /** The owner past the place stays past it. */
  lemma {:induction false} OwnerStaysPast(src: seq<Byte>, chunk: nat, s: State, t: Step, start: nat, n: nat)
    requires Orderly(src, chunk, s) && Enabled(src, chunk, s, t) && Owner(s, t.w, chunk, start) && n < chunk
    requires start + n < |src| && Misplaced(src, s, start, n) && Past(s.ws[t.w].phase, start, n)
    ensures var m := Next(src, chunk, s, t); Misplaced(src, m, start, n) && Past(m.ws[t.w].phase, start, n)
  {
    hide Owner, Exclusive;
    assert Fits(src, chunk, s, t.w);
    OwnerBelow(src, chunk, s, t.w, start);
    if t.Write? {
      WritesElsewhere(src, chunk, s, t.w, t.w, start, n);
    }
  }

  /** The owner reads on, or writes the byte in the wrong place. */
  lemma {:induction false} OwnerWorks(src: seq<Byte>, chunk: nat, s: State, t: Step, start: nat, n: nat)
    requires Enabled(src, chunk, s, t) && Fits(src, chunk, s, t.w) && 0 < n && start + n < |src|
    requires AtWork(src, chunk, s.ws[t.w], start, n)
    ensures var m := Next(src, chunk, s, t);
            || m.ws[t.w].phase == Failed || AtWork(src, chunk, m.ws[t.w], start, n)
            || (Misplaced(src, m, start, n) && Past(m.ws[t.w].phase, start, n))
  {
    hide Owner;
  }

  lemma {:induction false} OwnerSpoils(src: seq<Byte>, chunk: nat, s: State, t: Step, start: nat, n: nat)
    requires Orderly(src, chunk, s) && Enabled(src, chunk, s, t) && Spoiling(src, chunk, s, t.w, start, n)
    ensures Spoiling(src, chunk, Next(src, chunk, s, t), t.w, start, n)
  {
    hide Owner, Exclusive, Past, AtWork, Misplaced, Written;
    var w := t.w;
    assert Fits(src, chunk, s, w);
    OwnerStays(src, chunk, s, t, w, start);
    if AtWork(src, chunk, s.ws[w], start, n) {
      OwnerWorks(src, chunk, s, t, start, n);
    } else if s.ws[w].phase != Failed {
      OwnerStaysPast(src, chunk, s, t, start, n);
    }
  }

  lemma {:induction false} OtherSpoils(src: seq<Byte>, chunk: nat, s: State, t: Step, w: nat, start: nat, n: nat)
    requires Orderly(src, chunk, s) && Enabled(src, chunk, s, t) && t.w != w && Spoiling(src, chunk, s, w, start, n)
    ensures Spoiling(src, chunk, Next(src, chunk, s, t), w, start, n)
  {
    hide Owner, Exclusive, Fits;
    OwnerStays(src, chunk, s, t, w, start);
    if t.Write? {
      WritesElsewhere(src, chunk, s, t.w, w, start, n);
    }
  }

  lemma {:induction false} SpoiledAtEnd(src: seq<Byte>, chunk: nat, s: State, ts: seq<Step>, e: State, w: nat, start: nat, n: nat)
    requires Orderly(src, chunk, s) && Reaches(src, chunk, s, ts, e) && Spoiling(src, chunk, s, w, start, n) && AllExited(e)
    ensures start + n < |src| && start + n in e.target && e.target[start + n] == src[start]
    decreases |ts|
  {
    hide Orderly, Enabled, Next;
    if ts == [] {
      assert e.ws[w].phase == Exited;
    } else {
      hide Spoiling;
      StepOrderly(src, chunk, s, ts[0]);
      if ts[0].w == w {
        OwnerSpoils(src, chunk, s, ts[0], start, n);
      } else {
        OtherSpoils(src, chunk, s, ts[0], w, start, n);
      }
      SpoiledAtEnd(src, chunk, Next(src, chunk, s, ts[0]), ts[1..], e, w, start, n);
    }
  }

  /** The first short read of a run is the first read of its chunk. */
  lemma {:induction false} ShortSpoils(src: seq<Byte>, chunk: nat, s: State, t: Step)
    requires Inv(src, chunk, s) && Enabled(src, chunk, s, t) && !FullStep(src, chunk, s, t)
    ensures t.Read? && Spoiling(src, chunk, Next(src, chunk, s, t), t.w, s.ws[t.w].phase.o, t.n)
  {
    hide Owner, Exclusive, Accounted, Faithful;
    assert Fits(src, chunk, s, t.w) && InOnePiece(src, s, t.w);
    OwnerStays(src, chunk, s, t, t.w, s.ws[t.w].phase.o);
  }

  lemma {:induction false} ShortIsSpoiled(src: seq<Byte>, chunk: nat, s: State, ts: seq<Step>, e: State)
    requires Inv(src, chunk, s) && Reaches(src, chunk, s, ts, e) && !AllFull(src, chunk, s, ts) && AllExited(e)
    ensures var (o, n) := ShortRead(src, chunk, s, ts);
            n > 0 && o + n < |src| && o + n in e.target && e.target[o + n] == src[o]
    decreases |ts|
  {
    hide Inv, Enabled, Next, FullStep, Spoiling, Orderly;
    var m := Next(src, chunk, s, ts[0]);
    if FullStep(src, chunk, s, ts[0]) {
      StepInv(src, chunk, s, ts[0]);
      ShortIsSpoiled(src, chunk, m, ts[1..], e);
    } else {
      ShortSpoils(src, chunk, s, ts[0]);
      ReadsInReading(src, chunk, s, ts[0]);
      InvOrderly(src, chunk, s);
      StepOrderly(src, chunk, s, ts[0]);
      SpoilingSome(src, chunk, m, ts[0].w, s.ws[ts[0].w].phase.o, ts[0].n);
      SpoiledAtEnd(src, chunk, m, ts[1..], e, ts[0].w, s.ws[ts[0].w].phase.o, ts[0].n);
    }
  }

  lemma {:induction false} InvOrderly(src: seq<Byte>, chunk: nat, s: State)
    requires Inv(src, chunk, s)
    ensures Orderly(src, chunk, s)
  {
  }

  lemma {:induction false} SpoilingSome(src: seq<Byte>, chunk: nat, s: State, w: nat, start: nat, n: nat)
    requires Spoiling(src, chunk, s, w, start, n)
    ensures n > 0
  {
  }

  lemma {:induction false} ReadsInReading(src: seq<Byte>, chunk: nat, s: State, t: Step)
    requires Enabled(src, chunk, s, t) && t.Read?
    ensures t.w < |s.ws| && s.ws[t.w].phase.Reading?
  {
  }

  /**
   * Why reads must be full, exactly: a schedule in which all workers end normally copies every source of its length
   * if and only if each of its reads gives all that is there. After a short read the next one is put further on
   * in the buffer but written from its start.
   */
  lemma {:induction false} CopiesExactly(src: seq<Byte>, chunk: nat, s: State, ts: seq<Step>, e: State)
    requires chunk > 0 && Init(chunk, s) && Reaches(src, chunk, s, ts, e) && AllExited(e)
    ensures (forall src', e' | |src'| == |src| && Reaches(src', chunk, s, ts, e') :: Copied(src', e'.target))
       <==> AllFull(src, chunk, s, ts)
  {
    hide Reaches, AllFull, Init, ShortRead, Copied;
    if AllFull(src, chunk, s, ts) {
      forall src', e' | |src'| == |src| && Reaches(src', chunk, s, ts, e')
        ensures Copied(src', e'.target)
      {
        var x := RunAlike(src, src', chunk, s, s, ts, e);
        ExitedAlike(e, e');
        AllCopied(src', chunk, s, ts, e');
      }
    } else {
      InitInv(src, chunk, s);
      ShortIsSpoiled(src, chunk, s, ts, e);
      var (o, n) := ShortRead(src, chunk, s, ts);
      var src': seq<Byte> := seq(|src|, i => if i == o then 0 else 1);
      var e' := RunAlike(src, src', chunk, s, s, ts, e);
      ExitedAlike(e, e');
      InitInv(src', chunk, s);
      ShortIsSpoiled(src', chunk, s, ts, e');
      NotCopied(src', e'.target, o + n);
    }
  }

  lemma {:induction false} ExitedAlike(e: State, e': State)
    requires Alike(e, e') && AllExited(e)
    ensures AllExited(e')
  {
  }

  lemma {:induction false} NotCopied(src: seq<Byte>, target: map<nat, Byte>, i: nat)
    requires i < |src| && i in target && target[i] != src[i]
    ensures !Copied(src, target)
  {
  }

  lemma {:induction false} ReachesMore(src: seq<Byte>, chunk: nat, s: State, ts: seq<Step>, e: State, t: Step)
    requires Reaches(src, chunk, s, ts, e) && Enabled(src, chunk, e, t)
    ensures Reaches(src, chunk, s, ts + [t], Next(src, chunk, e, t))
    decreases |ts|
  {
    hide Enabled, Next;
    if ts == [] {
      assert ([] + [t])[1..] == [];
    } else {
      ReachesMore(src, chunk, Next(src, chunk, s, ts[0]), ts[1..], e, t);
      assert (ts + [t])[1..] == ts[1..] + [t];
    }
  }

  /** nextoff, by the only worker. */
  lemma {:induction false} NextOff(src: seq<Byte>, chunk: nat, s0: State, ts0: seq<Step>, s: State) returns (ts: seq<Step>, e: State)
    requires Reaches(src, chunk, s0, ts0, s) && |s.ws| == 1 && s.ws[0].phase == Idle && s.lk == None
    ensures Reaches(src, chunk, s0, ts, e)
    ensures e == s.(ws := [Worker(Reading(s.off, 0, chunk), s.ws[0].buf)], off := s.off + chunk, claims := s.claims + [0])
  {
    hide Reaches;
    ReachesMore(src, chunk, s0, ts0, s, Lock(0));
    var a := Next(src, chunk, s, Lock(0));
    ReachesMore(src, chunk, s0, ts0 + [Lock(0)], a, Load(0));
    var b := Next(src, chunk, a, Load(0));
    ReachesMore(src, chunk, s0, ts0 + [Lock(0)] + [Load(0)], b, Bump(0));
    var c := Next(src, chunk, b, Bump(0));
    ReachesMore(src, chunk, s0, ts0 + [Lock(0)] + [Load(0)] + [Bump(0)], c, Unlock(0));
    ts, e := ts0 + [Lock(0)] + [Load(0)] + [Bump(0)] + [Unlock(0)], Next(src, chunk, c, Unlock(0));
  }

  /** A read of one byte, and its write. */
  lemma {:induction false} OneByte(src: seq<Byte>, s0: State, ts0: seq<Step>, s: State) returns (ts: seq<Step>, e: State)
    requires Reaches(src, 2, s0, ts0, s) && |s.ws| == 1 && |s.ws[0].buf| == 2 && s.ws[0].phase.Reading?
    requires var p := s.ws[0].phase; p.o < |src| && p.bp < 2 && p.len == 2 - p.bp
    ensures Reaches(src, 2, s0, ts, e)
    ensures var p, buf := s.ws[0].phase, s.ws[0].buf[s.ws[0].phase.bp := src[s.ws[0].phase.o]];
            e == s.(ws := [Worker(if p.len == 1 then Idle else Reading(p.o + 1, p.bp + 1, p.len - 1), buf)],
                    target := s.target[p.o := buf[0]])
  {
    hide Reaches;
    var p, b := s.ws[0].phase, s.ws[0].buf;
    ReachesMore(src, 2, s0, ts0, s, Read(0, 1));
    var a := Next(src, 2, s, Read(0, 1));
    var buf := b[p.bp := src[p.o]];
    assert b[..p.bp] + src[p.o..p.o + 1] + b[p.bp + 1..] == buf;
    ReachesMore(src, 2, s0, ts0 + [Read(0, 1)], a, Write(0));
    ts, e := ts0 + [Read(0, 1)] + [Write(0)], Next(src, 2, a, Write(0));
    WrittenOne(s.target, p.o, buf[..1]);
  }

  lemma {:induction false} WrittenOne(target: map<nat, Byte>, o: nat, d: seq<Byte>)
    requires |d| == 1
    ensures Written(target, o, d) == target[o := d[0]]
  {
    assert d[..0] == [];
  }

  /**
   * Why reads must be full: with a short read the next one is put further on in the buffer, but written from
   * its start. One worker copying two bytes, one at a time, then writes the first of them twice.
   */
  lemma {:induction false} ShortReadSpoils(a: Byte, b: Byte, s0: State) returns (ts: seq<Step>, s: State)
    requires a != b && Init(2, s0) && |s0.ws| == 1
    ensures Reaches([a, b], 2, s0, ts, s)
    ensures |s.ws| == 1 && s.ws[0].phase == Exited
    ensures s.target == map[0 := a, 1 := a] && !Copied([a, b], s.target)
  {
    hide Reaches;
    var src := [a, b];
    ReachesNone(src, 2, s0);
    ts, s := NextOff(src, 2, s0, [], s0);
    ts, s := OneByte(src, s0, ts, s);
    ts, s := OneByte(src, s0, ts, s);
    assert s.target == map[0 := a][1 := a];
    ts, s := NextOff(src, 2, s0, ts, s);
    ReachesMore(src, 2, s0, ts, s, Read(0, 0));
    ts, s := ts + [Read(0, 0)], Next(src, 2, s, Read(0, 0));
    assert s.target[1] == a != src[1];
  }

  lemma {:induction false} ReachesNone(src: seq<Byte>, chunk: nat, s: State)
    ensures Reaches(src, chunk, s, [], s)
  {
  }
}
