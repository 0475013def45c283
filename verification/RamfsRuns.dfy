// What clients of ramfs can rely on: entries, contents and fids after each message, and over whole runs.

/** What io of ramfs.c comes to, message by message. */
module RamfsRuns {
  import opened Basics
  import opened RamfsTree
  import opened Ramfs
  import RamfsDir

  // ----- contents, byte by byte -----

  /** A write puts its bytes at its place; a gap before them is filled with NULs. */
  lemma {:induction false} WrittenAt(data: seq<Byte>, off: nat, d: seq<Byte>)
    ensures var w := Written(data, off, d);
            && |w| == (if off + |d| <= |data| then |data| else off + |d|)
            && forall k :: 0 <= k < |w| ==>
                 w[k] == if off <= k < off + |d| then d[k - off] else if k < |data| then data[k] else 0
  {
  }

  lemma {:induction false} ResizedAt(data: seq<Byte>, n: nat)
    ensures |Resized(data, n)| == n && forall k :: 0 <= k < n ==> Resized(data, n)[k] == if k < |data| then data[k] else 0
  {
  }

  /** A read gives the bytes from the offset on, as many as asked for or as there are. */
  lemma {:induction false} SliceAt(data: seq<Byte>, off: nat, cnt: nat)
    ensures var r := Slice(data, off, cnt);
            && |r| == (if off >= |data| then 0 else if off + cnt <= |data| then cnt else |data| - off)
            && forall k :: 0 <= k < |r| ==> r[k] == data[off + k]
  {
  }

  // ----- entries -----

  /** The fid stands for slot i. */
  ghost predicate On(x: World, f: nat, i: nat) {
    f in x.fids && x.fids[f].ram == i
  }

  /** Slot i is no directory that is the parent of an entry in use. */
  ghost predicate Bare(x: World, i: nat)
    requires i < |x.ram|
  {
    x.ram[i].dir ==> forall j :: 0 <= j < |x.ram| && x.ram[j].busy ==> x.ram[j].parent != i
  }

  /** A fid asks for the removal of slot i when it is clunked. */
  ghost predicate Doomed(x: World, i: nat) {
    exists f :: f in x.fids && x.fids[f].ram == i && x.fids[f].rclose
  }

  /** An open that ends makes no difference to the entries of a directory. */
  lemma {:induction false} BareIs(x: World, i: nat, open: bool)
    requires i < |x.ram|
    ensures !HasEntries(x.ram[i := Closing(x.ram[i], open)], i) <==> Bare(x, i)
  {
    var t := x.ram[i := Closing(x.ram[i], open)];
    assert forall j :: 0 <= j < |t| ==> (IsChild(t, j, i) <==> x.ram[j].busy && x.ram[j].parent == i);
  }

  /**
   * Which entries go: that of a fid that is removed, if its user may write its parent; that of a fid that is clunked,
   * if this was asked for; and no directory with entries.
   */
  lemma {:induction false} EntriesGo(c: Rules, x: World, q: Request, y: World, a: Answer, i: nat)
    requires RamfsDir.GoodStat(c.stat) && Sound(x) && Served(c, x, q, y, a)
    requires i < |x.ram| && x.ram[i].busy
    ensures |y.ram| == |x.ram| && x.ram[i].parent < |x.ram|
    ensures match q
            case TRemove(f) =>
              !y.ram[i].busy <==> On(x, f, i) && i != 0 && c.perm(x.fids[f].user, x.ram[x.ram[i].parent], 2) && Bare(x, i)
            case TClunk(f) => !y.ram[i].busy <==> On(x, f, i) && x.fids[f].rclose && Bare(x, i)
            case TVersion(_) => (!y.ram[i].busy ==> Doomed(x, i)) && (Doomed(x, i) && Bare(x, i) ==> !y.ram[i].busy)
            case _ => y.ram[i].busy
  {
    hide HasEntries, Bare, Sound, Served, Doomed;
    EntryPlace(x, i);
    match q {
      case TRemove(f) => RemoveGoes(c, x, f, y, a, i);
      case TClunk(f) => ClunkGoes(c, x, f, y, a, i);
      case TVersion(v) => ResetGoes(c, x, v, y, a, i);
      case _ => OthersStay(c, x, q, y, a, i);
    }
  }

  lemma {:induction false} RemoveGoes(c: Rules, x: World, f: nat, y: World, a: Answer, i: nat)
    requires RamfsDir.GoodStat(c.stat) && Sound(x) && Served(c, x, TRemove(f), y, a)
    requires i < |x.ram| && x.ram[i].busy && x.ram[i].parent < |x.ram|
    ensures |y.ram| == |x.ram|
    ensures !y.ram[i].busy <==> On(x, f, i) && i != 0 && c.perm(x.fids[f].user, x.ram[x.ram[i].parent], 2) && Bare(x, i)
  {
    hide HasEntries, Bare, Sound;
    EntryPlace(x, i);
    if f in x.fids {
      BareIs(x, i, x.fids[f].open);
    }
  }

  lemma {:induction false} ClunkGoes(c: Rules, x: World, f: nat, y: World, a: Answer, i: nat)
    requires RamfsDir.GoodStat(c.stat) && Sound(x) && Served(c, x, TClunk(f), y, a)
    requires i < |x.ram| && x.ram[i].busy
    ensures |y.ram| == |x.ram|
    ensures !y.ram[i].busy <==> On(x, f, i) && x.fids[f].rclose && Bare(x, i)
  {
    hide HasEntries, Bare, Sound;
    if f in x.fids {
      BareIs(x, i, x.fids[f].open);
    }
  }

  lemma {:induction false} ResetGoes(c: Rules, x: World, v: Name, y: World, a: Answer, i: nat)
    requires RamfsDir.GoodStat(c.stat) && Served(c, x, TVersion(v), y, a)
    requires i < |x.ram| && x.ram[i].busy
    ensures |y.ram| == |x.ram| && (!y.ram[i].busy ==> Doomed(x, i)) && (Doomed(x, i) && Bare(x, i) ==> !y.ram[i].busy)
  {
    assert Still(x.ram, y.ram, i) || Gone(x.ram, y.ram, i);
    BareIs(x, i, false);
    assert x.ram[i := x.ram[i]] == x.ram;
  }

  lemma {:induction false} OthersStay(c: Rules, x: World, q: Request, y: World, a: Answer, i: nat)
    requires RamfsDir.GoodStat(c.stat) && Served(c, x, q, y, a) && !q.TRemove? && !q.TClunk? && !q.TVersion?
    requires i < |x.ram| && x.ram[i].busy
    ensures |y.ram| == |x.ram| && y.ram[i].busy
  {
    hide Written, Reads, Barred, Taken, Trail, Ends;
  }

  /** The parent of an entry other than the root is another entry. */
  lemma {:induction false} EntryPlace(x: World, i: nat)
    requires Sound(x) && i < |x.ram| && x.ram[i].busy
    ensures x.ram[i].parent < |x.ram| && (x.ram[i].path == 0 <==> i == 0) && (i != 0 ==> x.ram[i].parent != i)
  {
    assert i > 0 ==> HasParent(x.ram, i);
  }

  /** An entry comes into use with each create that succeeds, and not otherwise; it is new and empty. */
  lemma {:induction false} EntriesCome(c: Rules, x: World, q: Request, y: World, a: Answer, i: nat)
    requires RamfsDir.GoodStat(c.stat) && Sound(x) && Served(c, x, q, y, a)
    requires i < |x.ram| && !x.ram[i].busy
    ensures |y.ram| == |x.ram|
    ensures y.ram[i].busy ==> q.TCreate? && a == RCreate(Ok(y.ram[i].path))
    ensures y.ram[i].busy ==>
              && q.fid in x.fids && y.fids.Keys == x.fids.Keys && y.fids[q.fid].open && y.fids[q.fid].ram == i
              && y.ram[i].parent == x.fids[q.fid].ram && y.ram[i].name == q.name && y.ram[i].data == []
              && y.ram[i].dir == q.perm.dir && y.ram[i].user == x.fids[q.fid].user && y.ram[i].vers == 0
              && y.ram[i].mode.append == q.perm.append && y.ram[i].mode.excl == q.perm.excl
              && y.ram[i].parent < |x.ram| && y.ram[i].group == x.ram[y.ram[i].parent].group
              && forall j :: 0 <= j < |x.ram| ==> x.ram[j].path < y.ram[i].path
  {
    hide Sound, Served;
    match q {
      case TCreate(f, name, m, rclose) => CreateComes(c, x, q, y, a, i);
      case _ => NoneComes(c, x, q, y, a, i);
    }
  }

  lemma {:induction false} NoneComes(c: Rules, x: World, q: Request, y: World, a: Answer, i: nat)
    requires RamfsDir.GoodStat(c.stat) && Served(c, x, q, y, a) && !q.TCreate? && i < |x.ram| && !x.ram[i].busy
    ensures |y.ram| == |x.ram| && !y.ram[i].busy
  {
    hide HasEntries, Written, Reads, Barred, Taken, Trail, Ends;
    match q {
      case TVersion(_) => assert Still(x.ram, y.ram, i) || Gone(x.ram, y.ram, i);
      case _ =>
    }
  }

  lemma {:induction false} CreateComes(c: Rules, x: World, q: Request, y: World, a: Answer, i: nat)
    requires RamfsDir.GoodStat(c.stat) && Sound(x) && Served(c, x, q, y, a) && q.TCreate? && i < |x.ram| && !x.ram[i].busy
    ensures |y.ram| == |x.ram|
    ensures y.ram[i].busy ==>
              && q.fid in x.fids && a == RCreate(Ok(y.ram[i].path)) && x.fids[q.fid].ram < |x.ram|
              && y.fids.Keys == x.fids.Keys && y.fids[q.fid].open && y.fids[q.fid].ram == i
              && y.ram[i] == Created(c, x.fids[q.fid].ram, x.ram[x.fids[q.fid].ram], y.ram[i].open, y.ram[i].path, q.name,
                                     q.perm, x.fids[q.fid].user)
              && forall j :: 0 <= j < |x.ram| ==> x.ram[j].path < y.ram[i].path
  {
    hide Tree, Counts, Taken;
    PathsBounded(x);
    if q.fid in x.fids {
      var s :| Creates(c, x, q.fid, q.name, q.perm, q.rclose, y, a.create, s);
    }
  }

  lemma {:induction false} PathsBounded(x: World)
    requires Sound(x)
    ensures forall j :: 0 <= j < |x.ram| ==> x.ram[j].path <= x.path
  {
  }

  /** A create that succeeds makes an entry. */
  lemma {:induction false} CreateMakes(c: Rules, x: World, q: Request, y: World, a: Answer) returns (i: nat)
    requires RamfsDir.GoodStat(c.stat) && Sound(x) && Served(c, x, q, y, a) && a.RCreate? && a.create.Ok?
    ensures i < |x.ram| == |y.ram| && !x.ram[i].busy && y.ram[i].busy
  {
    i :| Creates(c, x, q.fid, q.name, q.perm, q.rclose, y, a.create, i);
  }

  // ----- what is allowed -----

  /** The fid's user may do p to slot i: run or search is 1, write 2, read 4. */
  ghost predicate May(c: Rules, x: World, f: nat, i: nat, p: int) {
    f in x.fids && i < |x.ram| && c.perm(x.fids[f].user, x.ram[i], p)
  }

  /** When an open succeeds. */
  lemma {:induction false} OpenAllowed(c: Rules, x: World, f: nat, m: OpenMode, y: World, a: Answer)
    requires RamfsDir.GoodStat(c.stat) && Served(c, x, TOpen(f, m), y, a) && f in x.fids
    ensures var i := x.fids[f].ram;
            i < |x.ram| && a.ROpen? &&
            (a.open.Ok? <==>
              && !x.fids[f].open && x.ram[i].busy && (x.ram[i].mode.excl ==> x.ram[i].open == 0)
              && if x.ram[i].dir then m.access == Read && !m.trunc && !m.rclose
                 else
                   && (m.rclose ==> x.ram[i].path != 0 && May(c, x, f, x.ram[i].parent, 2))
                   && (m.access in {Write, ReadWrite} || m.trunc ==> May(c, x, f, i, 2))
                   && (m.access in {Read, ReadWrite} ==> May(c, x, f, i, 4))
                   && (m.access == Execute ==> May(c, x, f, i, 1)))
    ensures a.open.Ok? ==> a.open.value == x.ram[x.fids[f].ram].path
  {
  }

  /** When a create succeeds. */
  lemma {:induction false} CreateAllowed(c: Rules, x: World, f: nat, name: Name, m: Mode, rclose: bool, y: World, a: Answer)
    requires RamfsDir.GoodStat(c.stat) && Served(c, x, TCreate(f, name, m, rclose), y, a) && f in x.fids
    ensures var d := x.fids[f].ram;
            d < |x.ram| && a.RCreate? &&
            (a.create.Ok? <==>
              && !x.fids[f].open && x.ram[d].busy && x.ram[d].dir && May(c, x, f, d, 2) && name != [46] && name != [46, 46]
              && (forall j :: 0 <= j < |x.ram| && x.ram[j].busy && x.ram[j].parent == d ==> x.ram[j].name != name)
              && exists j :: 0 <= j < |x.ram| && !x.ram[j].busy)
  {
    var i :| Creates(c, x, f, name, m, rclose, y, a.create, i);
    var d := x.fids[f].ram;
    assert forall j :: 0 <= j < |x.ram| ==> (IsChild(x.ram, j, d) <==> x.ram[j].busy && x.ram[j].parent == d);
  }

  /** When a write succeeds: on a server with a limit, it must end before 768 megabytes. */
  lemma {:induction false} WriteAllowed(c: Rules, x: World, f: nat, off: nat, d: seq<Byte>, y: World, a: Answer)
    requires RamfsDir.GoodStat(c.stat) && Served(c, x, TWrite(f, off, d), y, a) && f in x.fids
    ensures var i := x.fids[f].ram;
            i < |x.ram| && a.RWrite? &&
            (a.write.Ok? <==>
              && x.ram[i].busy && !x.ram[i].dir
              && (c.memlim ==> (if x.ram[i].mode.append then |x.ram[i].data| else off) + |d| < 805306368))
  {
    hide Written;
  }

  /** When a wstat succeeds. */
  lemma {:induction false} WStatAllowed(c: Rules, x: World, f: nat, d: Dir, y: World, a: Answer)
    requires RamfsDir.GoodStat(c.stat) && Served(c, x, TWStat(f, d), y, a) && f in x.fids
    ensures var i, u := x.fids[f].ram, x.fids[f].user;
            i < |x.ram| && a.RWStat? &&
            var e := x.ram[i];
            (a.wstat.Ok? <==>
              && e.busy
              && (d.length.Some? && d.length.value != |e.data| ==> May(c, x, f, i, 2))
              && (d.name != [] && d.name != e.name ==>
                    && May(c, x, f, e.parent, 2)
                    && forall j :: 0 <= j < |x.ram| && x.ram[j].busy && x.ram[j].parent == e.parent ==> x.ram[j].name != d.name)
              && (d.mode.Some? && d.mode.value != e.mode ==> u == e.user || u == e.group)
              && (d.gid != [] && d.gid != e.group ==> u == e.user || (u == e.group && u == d.gid)))
  {
    hide Restated;
    var p := x.ram[x.fids[f].ram].parent;
    assert forall j :: 0 <= j < |x.ram| ==> (IsChild(x.ram, j, p) <==> x.ram[j].busy && x.ram[j].parent == p);
  }

  // ----- what becomes of an entry that stays -----

  /**
   * The contents of an entry change by a write that succeeds, by an open that truncates, and by a change of length;
   * no other message touches them. A file that may only grow is written at its end.
   */
  lemma {:induction false} DataAfter(c: Rules, x: World, q: Request, y: World, a: Answer, i: nat)
    requires RamfsDir.GoodStat(c.stat) && Served(c, x, q, y, a)
    requires i < |x.ram| == |y.ram| && x.ram[i].busy && y.ram[i].busy
    ensures var was, now := x.ram[i].data, y.ram[i].data;
            if q.TWrite? && On(x, q.fid, i) && a.RWrite? && a.write.Ok? then
              var off := if x.ram[i].mode.append then |was| else q.offset;
              && a.write.value == |q.data| && |now| == (if off + |q.data| <= |was| then |was| else off + |q.data|)
              && forall k :: 0 <= k < |now| ==>
                   now[k] == if off <= k < off + |q.data| then q.data[k - off] else if k < |was| then was[k] else 0
            else if q.TWStat? && On(x, q.fid, i) && a.RWStat? && a.wstat.Ok? && q.dir.length.Some? then
              && |now| == q.dir.length.value
              && forall k :: 0 <= k < |now| ==> now[k] == if k < |was| then was[k] else 0
            else if q.TOpen? && On(x, q.fid, i) && a.ROpen? && a.open.Ok? && q.mode.trunc && !x.ram[i].mode.append
            then now == []
            else now == was
  {
    hide Served, On;
    match q {
      case TWrite(f, off, d) => DataWritten(c, x, f, off, d, y, a, i);
      case TWStat(f, d) => DataRestated(c, x, f, d, y, a, i);
      case _ => DataElse(c, x, q, y, a, i);
    }
  }

  lemma {:induction false} DataWritten(c: Rules, x: World, f: nat, off: nat, d: seq<Byte>, y: World, a: Answer, i: nat)
    requires RamfsDir.GoodStat(c.stat) && Served(c, x, TWrite(f, off, d), y, a) && i < |x.ram| == |y.ram|
    ensures var was, now := x.ram[i].data, y.ram[i].data;
            if On(x, f, i) && a.RWrite? && a.write.Ok? then
              var o := if x.ram[i].mode.append then |was| else off;
              && a.write.value == |d| && |now| == (if o + |d| <= |was| then |was| else o + |d|)
              && forall k :: 0 <= k < |now| ==>
                   now[k] == if o <= k < o + |d| then d[k - o] else if k < |was| then was[k] else 0
            else now == was
  {
    hide Written;
    WrittenAt(x.ram[i].data, if x.ram[i].mode.append then |x.ram[i].data| else off, d);
  }

  lemma {:induction false} DataRestated(c: Rules, x: World, f: nat, d: Dir, y: World, a: Answer, i: nat)
    requires RamfsDir.GoodStat(c.stat) && Served(c, x, TWStat(f, d), y, a) && i < |x.ram| == |y.ram|
    ensures var was, now := x.ram[i].data, y.ram[i].data;
            if On(x, f, i) && a.RWStat? && a.wstat.Ok? && d.length.Some? then
              && |now| == d.length.value && forall k :: 0 <= k < |now| ==> now[k] == if k < |was| then was[k] else 0
            else now == was
  {
    hide Resized;
    if d.length.Some? {
      ResizedAt(x.ram[i].data, d.length.value);
    }
  }

  lemma {:induction false} DataElse(c: Rules, x: World, q: Request, y: World, a: Answer, i: nat)
    requires RamfsDir.GoodStat(c.stat) && Served(c, x, q, y, a) && !q.TWrite? && !q.TWStat?
    requires i < |x.ram| == |y.ram| && x.ram[i].busy && y.ram[i].busy
    ensures var was, now := x.ram[i].data, y.ram[i].data;
            if q.TOpen? && On(x, q.fid, i) && a.ROpen? && a.open.Ok? && q.mode.trunc && !x.ram[i].mode.append
            then now == [] else now == was
  {
    hide Written, Restated, Reads, Barred, Taken, Trail, Ends;
    match q {
      case TVersion(_) => assert Still(x.ram, y.ram, i) || Gone(x.ram, y.ram, i);
      case _ =>
    }
  }

  /**
   * The attributes of an entry change by a wstat that succeeds, and only those given; whether it is a directory,
   * where it is, who made it and its path stay what they are.
   */
  lemma {:induction false} AttributesAfter(c: Rules, x: World, q: Request, y: World, a: Answer, i: nat)
    requires RamfsDir.GoodStat(c.stat) && Served(c, x, q, y, a)
    requires i < |x.ram| == |y.ram| && x.ram[i].busy && y.ram[i].busy
    ensures var was, now := x.ram[i], y.ram[i];
            && now.parent == was.parent && now.dir == was.dir && now.path == was.path && now.user == was.user
            && now.mode.dir == was.mode.dir
            && if q.TWStat? && On(x, q.fid, i) && a.RWStat? && a.wstat.Ok? then
                 && now.name == (if q.dir.name != [] then q.dir.name else was.name)
                 && now.group == (if q.dir.gid != [] then q.dir.gid else was.group)
                 && (q.dir.mode.Some? ==>
                       && now.mode.append == q.dir.mode.value.append && now.mode.excl == q.dir.mode.value.excl
                       && now.mode.bits == q.dir.mode.value.bits)
                 && (q.dir.mode.None? ==> now.mode == was.mode)
               else now.name == was.name && now.group == was.group && now.mode == was.mode
  {
    hide Written, Resized, Reads, Barred, Taken, Trail, Ends;
    match q {
      case TVersion(_) => assert Still(x.ram, y.ram, i) || Gone(x.ram, y.ram, i);
      case TWStat(_, _) =>
      case _ => OthersKeep(c, x, q, y, a, i);
    }
  }

  lemma {:induction false} OthersKeep(c: Rules, x: World, q: Request, y: World, a: Answer, i: nat)
    requires RamfsDir.GoodStat(c.stat) && Served(c, x, q, y, a) && !q.TVersion? && !q.TWStat?
    requires i < |x.ram| == |y.ram| && x.ram[i].busy && y.ram[i].busy
    ensures y.ram[i] == x.ram[i].(open := y.ram[i].open, data := y.ram[i].data, vers := y.ram[i].vers)
  {
    hide Written, Resized, Reads, Barred, Taken, Trail, Ends, HasEntries, Created;
  }

  // ----- fids -----

  /** A message changes no fid but the one it is about, or the new one of a walk; a version ends them all. */
  lemma {:induction false} OtherFids(c: Rules, x: World, q: Request, y: World, a: Answer, g: nat)
    requires RamfsDir.GoodStat(c.stat) && Served(c, x, q, y, a)
    requires match q
             case TVersion(_) => false
             case TAttach(f, _) => g != f
             case TWalk(_, f, _) => g != f
             case TOpen(f, _) => g != f
             case TCreate(f, _, _, _) => g != f
             case TClunk(f) => g != f
             case TRemove(f) => g != f
             case _ => true
    ensures (g in y.fids <==> g in x.fids) && (g in x.fids ==> y.fids[g] == x.fids[g])
  {
    hide Written, Restated, Reads, Barred, Taken, Trail, Ends, HasEntries;
  }

  /** What becomes of the fid itself. */
  lemma {:induction false} OwnFid(c: Rules, x: World, q: Request, y: World, a: Answer)
    requires RamfsDir.GoodStat(c.stat) && Served(c, x, q, y, a)
    ensures match q
            case TVersion(_) => y.fids == map[]
            case TAttach(f, u) =>
              f in y.fids && y.fids[f].ram == 0 && y.fids[f].user == if u == [] then [110, 111, 110, 101] else u
            case TOpen(f, m) =>
              f in x.fids ==>
                && f in y.fids && y.fids[f].ram == x.fids[f].ram && y.fids[f].user == x.fids[f].user
                && x.fids[f].ram < |x.ram|
                && (y.fids[f].open <==> x.fids[f].open || (a.ROpen? && a.open.Ok? && !x.ram[x.fids[f].ram].dir))
            case TCreate(f, _, _, _) =>
              f in x.fids ==>
                f in y.fids && y.fids[f].user == x.fids[f].user && if a.RCreate? && a.create.Ok? then y.fids[f].open else y == x
            case TClunk(f) => f !in y.fids
            case TRemove(f) => f !in y.fids
            case _ => true
  {
    hide Written, Restated, Reads, Barred, Taken, Trail, Ends, HasEntries;
  }

  // ----- one message and the next -----

  /** What is written to a file that may change anywhere is what the next read of it gives. */
  lemma {:induction false} ReadsWhatWasWritten(c: Rules, x: World, f: nat, off: nat, d: seq<Byte>, y: World, n: nat, z: World, b: Answer)
    requires RamfsDir.GoodStat(c.stat) && Served(c, x, TWrite(f, off, d), y, RWrite(Ok(n)))
    requires Served(c, y, TRead(f, off, |d|), z, b) && !x.ram[x.fids[f].ram].mode.append
    ensures b == RRead(Ok(d))
  {
    hide Written, Slice;
    var i := x.fids[f].ram;
    WrittenAt(x.ram[i].data, off, d);
    SliceAt(y.ram[i].data, off, |d|);
    assert Slice(y.ram[i].data, off, |d|) == d;
  }

  /** A walk by one name from a directory that has it: to that entry, the only one there is. */
  lemma {:induction false} WalkFinds(c: Rules, x: World, f: nat, h: nat, name: Name, y: World, b: Answer, i: nat)
    requires RamfsDir.GoodStat(c.stat) && Sound(x) && Served(c, x, TWalk(f, h, [name]), y, b)
    requires f in x.fids && (h != f ==> !x.fids[f].open) && name != DOT && name != DOTDOT
    requires x.fids[f].ram < |x.ram| && x.ram[x.fids[f].ram].parent < |x.ram|
    requires c.perm(x.fids[f].user, x.ram[x.ram[x.fids[f].ram].parent], 1)
    requires i < |x.ram| && x.ram[i].busy && x.ram[i].parent == x.fids[f].ram && x.ram[i].name == name
    requires i != 0
    ensures b == RWalk(Ok([x.ram[i].path])) && h in y.fids && y.fids[h].ram == i
  {
    hide Counts, Tree;
    var w, e :| Walks(c, x, f, h, [name], y, b.walk, w, e);
    var d := x.fids[f].ram;
    InDirectory(x, i);
    assert IsChild(x.ram, i, d) && Taken(x.ram, d, name);
    if |w| == 2 {
      assert Leads(c, x.ram, x.fids[f].user, d, name, To(w[1]));
      OneOfAName(x, i, w[1]);
      assert b.walk.value == [x.ram[i].path];
    }
  }

  /** "." leads nowhere else, and ".." to the parent. */
  lemma {:induction false} WalkDots(c: Rules, x: World, f: nat, h: nat, up: bool, y: World, b: Answer)
    requires RamfsDir.GoodStat(c.stat) && Served(c, x, TWalk(f, h, [if up then [46, 46] else [46]]), y, b)
    requires f in x.fids && (h != f ==> !x.fids[f].open) && x.fids[f].ram < |x.ram|
    requires x.ram[x.fids[f].ram].busy && x.ram[x.fids[f].ram].dir
    requires up ==> May(c, x, f, x.ram[x.fids[f].ram].parent, 1)
    ensures var i := if up then x.ram[x.fids[f].ram].parent else x.fids[f].ram;
            i < |x.ram| && b == RWalk(Ok([x.ram[i].path])) && h in y.fids && y.fids[h].ram == i
  {
    var names := [if up then [46, 46] else [46]];
    var w, e :| Walks(c, x, f, h, names, y, b.walk, w, e);
    assert names[0] == if up then DOTDOT else DOT;
    assert |w| == 2 ==> Leads(c, x.ram, x.fids[f].user, x.fids[f].ram, names[0], To(w[1]));
    assert |w| == 2 ==> b.walk.value == [x.ram[w[1]].path];
  }

  lemma {:induction false} InDirectory(x: World, i: nat)
    requires Sound(x) && 0 < i < |x.ram| && x.ram[i].busy
    ensures x.ram[i].parent < |x.ram| && x.ram[x.ram[i].parent].busy && x.ram[x.ram[i].parent].dir
  {
    assert HasParent(x.ram, i);
  }

  lemma {:induction false} OneOfAName(x: World, i: nat, j: nat)
    requires Sound(x) && i < |x.ram| && j < |x.ram| && x.ram[i].busy && x.ram[j].busy
    requires x.ram[i].parent == x.ram[j].parent && x.ram[i].name == x.ram[j].name
    ensures i == j
  {
    assert !Twins(x.ram, i, j);
  }

  /** A file that was created is found under its name by a walk from its directory. */
  lemma {:induction false} CreatedIsFound(c: Rules, x: World, f: nat, name: Name, m: Mode, rclose: bool, y: World, p: nat,
                                          g: nat, h: nat, z: World, b: Answer)
    requires RamfsDir.GoodStat(c.stat) && Sound(x) && Sound(y)
    requires Served(c, x, TCreate(f, name, m, rclose), y, RCreate(Ok(p))) && Served(c, y, TWalk(g, h, [name]), z, b)
    requires f in x.fids && g in x.fids && g != f && x.fids[g].ram == x.fids[f].ram && (h != g ==> !x.fids[g].open)
    requires x.fids[g].ram < |y.ram| && y.ram[x.fids[g].ram].parent < |y.ram|
    requires c.perm(x.fids[g].user, y.ram[y.ram[x.fids[g].ram].parent], 1)
    ensures b == RWalk(Ok([p])) && h in z.fids && f in y.fids && z.fids[h].ram == y.fids[f].ram
  {
    hide Counts, Tree, Sound;
    var i :| Creates(c, x, f, name, m, rclose, y, Ok(p), i);
    OtherFids(c, x, TCreate(f, name, m, rclose), y, RCreate(Ok(p)), g);
    RootInUse(x);
    WalkFinds(c, y, g, h, name, z, b, i);
  }

  lemma {:induction false} RootInUse(x: World)
    requires Sound(x)
    ensures |x.ram| > 0 && x.ram[0].busy
  {
  }

  /** A file that was removed is not found under its name any more. */
  lemma {:induction false} RemovedIsNotFound(c: Rules, x: World, f: nat, y: World, g: nat, h: nat, z: World, b: Answer)
    requires RamfsDir.GoodStat(c.stat) && Sound(x) && Served(c, x, TRemove(f), y, RRemove(Ok(()))) && f in x.fids
    requires x.fids[f].ram < |x.ram| && x.ram[x.fids[f].ram].busy
    requires var name := x.ram[x.fids[f].ram].name;
             name != DOT && name != DOTDOT && Served(c, y, TWalk(g, h, [name]), z, b)
    requires g in x.fids && g != f && x.fids[g].ram == x.ram[x.fids[f].ram].parent && (h != g ==> !x.fids[g].open)
    requires x.fids[g].ram < |y.ram| && y.ram[x.fids[g].ram].parent < |y.ram|
    requires c.perm(x.fids[g].user, y.ram[y.ram[x.fids[g].ram].parent], 1)
    ensures b == RWalk(Err(Enotexist))
  {
    hide Counts, Tree, Sound, HasEntries;
    var i := x.fids[f].ram;
    var name := x.ram[i].name;
    EntryPlace(x, i);
    InDirectory(x, i);
    OtherFids(c, x, TRemove(f), y, RRemove(Ok(())), g);
    var w, e :| Walks(c, y, g, h, [name], z, b.walk, w, e);
    forall j | 0 <= j < |y.ram| && IsChild(y.ram, j, x.fids[g].ram)
      ensures y.ram[j].name != name
    {
      if y.ram[j].name == name {
        OneOfAName(x, i, j);
      }
    }
    assert !Taken(y.ram, x.fids[g].ram, name);
    assert |w| == 2 ==> Leads(c, y.ram, y.fids[g].user, x.fids[g].ram, name, To(w[1]));
    assert |w| == 1 ==> Ends(c, y.ram, y.fids[g].user, [name], w, e);
  }

  // ----- whole runs -----

  /** The message neither takes away slot i nor changes its contents. */
  ghost predicate Spares(x: World, q: Request, i: nat) {
    match q
    case TVersion(_) => !Doomed(x, i)
    case TClunk(f) => On(x, f, i) ==> !x.fids[f].rclose
    case TRemove(f) => !On(x, f, i)
    case TOpen(f, m) => On(x, f, i) ==> !m.trunc
    case TWrite(f, _, _) => !On(x, f, i)
    case TWStat(f, d) => On(x, f, i) ==> d.length == None
    case _ => true
  }

  /** Whatever else clients do, in whatever order, a file no message is about keeps its path and its contents. */
  lemma {:induction false} FileStays(c: Rules, ws: seq<World>, qs: seq<Request>, answers: seq<Answer>, i: nat, m: nat, n: nat)
    requires RamfsDir.GoodStat(c.stat) && Run(c, ws, qs, answers) && m <= n <= |qs|
    requires forall k :: m <= k < n ==> Spares(ws[k], qs[k], i)
    requires i < |ws[m].ram| && ws[m].ram[i].busy
    ensures |ws[n].ram| == |ws[m].ram| && ws[n].ram[i].busy && SamePlace(ws[m].ram[i], ws[n].ram[i])
    ensures ws[n].ram[i].data == ws[m].ram[i].data
    decreases n
  {
    hide Sound, Served, Bare, Doomed;
    if m < n {
      FileStays(c, ws, qs, answers, i, m, n - 1);
      assert Sound(ws[n - 1]) && Served(c, ws[n - 1], qs[n - 1], ws[n], answers[n - 1]) && Spares(ws[n - 1], qs[n - 1], i);
      EntriesGo(c, ws[n - 1], qs[n - 1], ws[n], answers[n - 1], i);
      DataAfter(c, ws[n - 1], qs[n - 1], ws[n], answers[n - 1], i);
      AttributesAfter(c, ws[n - 1], qs[n - 1], ws[n], answers[n - 1], i);
    }
  }

  /** What a write left in a file is read from it at the end of any run that spares the file. */
  lemma {:induction false} ReadsMuchLater(c: Rules, ws: seq<World>, qs: seq<Request>, answers: seq<Answer>, i: nat,
                                          off: nat, d: seq<Byte>, f: nat, g: nat)
    requires RamfsDir.GoodStat(c.stat) && Run(c, ws, qs, answers) && |qs| >= 2
    requires qs[0] == TWrite(f, off, d) && answers[0].RWrite? && answers[0].write.Ok? && On(ws[0], f, i)
    requires i < |ws[0].ram| && !ws[0].ram[i].mode.append
    requires forall k :: 1 <= k < |qs| - 1 ==> Spares(ws[k], qs[k], i)
    requires qs[|qs| - 1] == TRead(g, off, |d|) && On(ws[|qs| - 1], g, i)
    ensures answers[|qs| - 1] == RRead(Ok(d))
  {
    hide Sound, Slice, Written;
    var n := |qs| - 1;
    assert Served(c, ws[0], qs[0], ws[1], answers[0]) && Served(c, ws[n], qs[n], ws[n + 1], answers[n]);
    WrittenAt(ws[0].ram[i].data, off, d);
    FileStays(c, ws, qs, answers, i, 1, n);
    SliceAt(ws[n].ram[i].data, off, |d|);
    assert Slice(ws[n].ram[i].data, off, |d|) == d;
  }
}
