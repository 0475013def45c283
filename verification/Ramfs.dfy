// The file server of ramfs, one method for each message of the protocol.

/** rattach, rwalk, ropen, rcreate, rread, rwrite, rclunk, rremove and rwstat of ramfs.c. */
module Ramfs {
  import opened Basics
  import opened RamfsTree
  import RamfsDir

  datatype Error =
    | Eperm | Enotdir | Enotexist | Einuse | Eexist | Eisdir | Enotowner | Eisopen | Excl | Ename | Enotempty
    | NoFreeSlot | TooBig | NotInUse | NoAuth | Eversion

  datatype Reply<T> = Ok(value: T) | Err(error: Error)

  const PEXEC := 1
  const PWRITE := 2
  const PREAD := 4
  const MAXWELEM := 16
  const MAXSIZE := 768 * 1024 * 1024

  datatype Access = Read | Write | ReadWrite | Execute

  /** The mode of an open: the access asked for, and whether to truncate now and to remove at the clunk. */
  datatype OpenMode = OpenMode(access: Access, trunc: bool, rclose: bool)

  /** A wstat: what is None or empty is left alone. */
  datatype Dir = Dir(mode: Option<Mode>, name: Name, gid: Name, length: Option<nat>)

  function Zeros(n: nat): seq<Byte> {
    seq(n, _ => 0)
  }

  /** The contents after a write; a gap before it is filled with zeros. */
  function Written(data: seq<Byte>, off: nat, d: seq<Byte>): seq<Byte> {
    (if off <= |data| then data[..off] else data + Zeros(off - |data|)) + d +
    (if off + |d| <= |data| then data[off + |d|..] else [])
  }

  /** The contents at another length. */
  function Resized(data: seq<Byte>, n: nat): seq<Byte> {
    if n <= |data| then data[..n] else data + Zeros(n - |data|)
  }

  /** What a read gives. */
  function Slice(data: seq<Byte>, off: nat, cnt: nat): seq<Byte> {
    if off >= |data| then [] else data[off..if off + cnt > |data| then |data| else off + cnt]
  }

  /** What was written is read back, and everything else is as it was. */
  lemma {:induction false} ReadBack(data: seq<Byte>, off: nat, d: seq<Byte>)
    requires d != []
    ensures Slice(Written(data, off, d), off, |d|) == d
    ensures forall o, n :: 0 <= o && 0 <= n && o + n <= off && o + n <= |data| ==>
              Slice(Written(data, off, d), o, n) == Slice(data, o, n)
    ensures forall o, n :: 0 <= o && 0 <= n && off + |d| <= o ==>
              Slice(Written(data, off, d), o, n) == Slice(data, o, n)
  {
    var w := Written(data, off, d);
    forall o: nat, n: nat | o + n <= off && o + n <= |data|
      ensures Slice(w, o, n) == Slice(data, o, n)
    {
      assert forall k | 0 <= k < o + n :: w[k] == data[k];
    }
    forall o: nat, n: nat | off + |d| <= o
      ensures Slice(w, o, n) == Slice(data, o, n)
    {
      assert forall k | off + |d| <= k < |data| :: w[k] == data[k];
    }
  }

  lemma {:induction false} WrittenParts(data: seq<Byte>, off: nat, d: seq<Byte>)
    ensures var p := if off > |data| then data + Zeros(off - |data|) else data;
            off <= |p| && Written(data, off, d) == p[..off] + d + if off + |d| <= |p| then p[off + |d|..] else []
  {
  }

  /** A directory with something in it. */
  ghost predicate HasEntries(t: seq<Ram>, i: nat)
    requires i < |t|
  {
    t[i].dir && exists j :: 0 <= j < |t| && IsChild(t, j, i)
  }

  /** Slot i is in u as in t, but for its count of opens. */
  ghost predicate Still(t: seq<Ram>, u: seq<Ram>, i: nat)
    requires i < |t| == |u|
  {
    u[i] == t[i].(open := u[i].open)
  }

  /** The file that slot i has in t is gone in u. */
  ghost predicate Gone(t: seq<Ram>, u: seq<Ram>, i: nat)
    requires i < |t| == |u|
  {
    u[i] == Removed(t[i]).(open := u[i].open)
  }

  /** The table t has become u when of the fids of was those are clunked that are not in now. */
  ghost predicate Clunked(t: seq<Ram>, u: seq<Ram>, was: map<nat, Fid>, now: map<nat, Fid>) {
    && |t| == |u|
    && (forall f :: f in now ==> f in was && now[f] == was[f])
    && (forall f :: f in was ==> was[f].ram < |t|)
    && (forall i :: 0 <= i < |t| ==>
          Still(t, u, i) || (Gone(t, u, i) && exists f :: f in was && f !in now && was[f].ram == i && was[f].rclose))
    && (forall f :: f in was && f !in now && was[f].rclose && !HasEntries(t, was[f].ram) ==> Gone(t, u, was[f].ram))
  }

  lemma {:induction false} NoneClunked(t: seq<Ram>, fids: map<nat, Fid>)
    requires Counts(t, fids)
    ensures Clunked(t, t, fids, fids)
  {
  }

  /** A slot that had no entries has none. */
  lemma {:induction false} NoNewEntries(t: seq<Ram>, u: seq<Ram>, i: nat, e: Ram)
    requires |t| == |u| && i < |t| && !HasEntries(t, i) && forall j :: 0 <= j < |t| ==> Still(t, u, j) || Gone(t, u, j)
    requires e.busy == u[i].busy && e.parent == u[i].parent && e.dir == u[i].dir
    ensures !HasEntries(u[i := e], i)
  {
    var v := u[i := e];
    forall j | 0 <= j < |v| && v[i].dir
      ensures !IsChild(v, j, i)
    {
      assert v[j].busy == u[j].busy && v[j].parent == u[j].parent;
      assert Still(t, u, j) || Gone(t, u, j);
      assert Still(t, u, i) || Gone(t, u, i);
      assert !IsChild(t, j, i);
    }
  }

  lemma {:induction false} RemovedOnce(r: Ram, s: Ram, e: Ram)
    requires s == r.(open := s.open) || s == Removed(r).(open := s.open)
    requires e == s.(open := e.open)
    ensures e == r.(open := e.open) || e == Removed(r).(open := e.open)
    ensures s == Removed(r).(open := s.open) ==> e == Removed(r).(open := e.open)
    ensures Removed(e) == Removed(r).(open := e.open)
  {
  }

  /** A clunk of one more fid. */
  lemma {:induction false} OneClunked(t: seq<Ram>, u: seq<Ram>, v: seq<Ram>, was: map<nat, Fid>, now: map<nat, Fid>, f: nat, e: Ram,
                                      ok: bool)
    requires Clunked(t, u, was, now) && f in now && now[f].ram < |u| && e == u[now[f].ram].(open := e.open)
    requires v == u[now[f].ram := if now[f].rclose && ok then Removed(e) else e]
    requires ok <==> !(now[f].rclose && HasEntries(u[now[f].ram := e], now[f].ram))
    ensures Clunked(t, v, was, now - {f})
  {
    var i := now[f].ram;
    forall j | 0 <= j < |t|
      ensures Still(t, v, j) || (Gone(t, v, j) && exists g :: g in was && g !in now - {f} && was[g].ram == j && was[g].rclose)
      ensures Gone(t, u, j) ==> Gone(t, v, j)
    {
      assert Still(t, u, j) || Gone(t, u, j);
      if j == i {
        RemovedOnce(t[j], u[j], e);
      }
      if j == i && now[f].rclose && ok {
        assert f in was && f !in now - {f} && was[f].ram == j && was[f].rclose;
      } else if !Still(t, u, j) {
        var g :| g in was && g !in now && was[g].ram == j && was[g].rclose;
        assert g !in now - {f};
      }
    }
    if was[f].rclose && !HasEntries(t, i) {
      NoNewEntries(t, u, i, e);
      assert Gone(t, v, i);
    }
  }

  /** One step of a walk. */
  datatype Step = To(i: nat) | Stuck(error: Error) | Missing

  // ----- what each message does -----

  /** What is not part of the table: the permission check, the mode bits of a new file, the record of an entry, the limit. */
  datatype Rules = Rules(perm: (Name, Ram, int) -> bool, bits: (Mode, Mode) -> nat, stat: RamfsDir.Stat, memlim: bool)

  /** The state of the server. */
  datatype World = World(ram: seq<Ram>, nram: nat, path: nat, fids: map<nat, Fid>)

  /** What is true of it between messages. */
  ghost predicate Sound(x: World) {
    Tree(x.ram, x.nram, x.path) && Counts(x.ram, x.fids)
  }

  /** A fid in use stands for a slot, and that has a parent. */
  ghost predicate Stands(x: World, fid: nat) {
    fid in x.fids && x.fids[fid].ram < |x.ram| && x.ram[x.fids[fid].ram].parent < |x.ram|
  }

  /** A directory has an entry of this name. */
  ghost predicate Taken(ram: seq<Ram>, d: nat, name: Name) {
    exists j :: 0 <= j < |ram| && IsChild(ram, j, d) && ram[j].name == name
  }

  /** rattach: the fid stands for the root; one in use keeps its open. */
  ghost predicate Attaches(x: World, fid: nat, uname: Name, y: World, r: nat) {
    && |x.ram| > 0 && r == x.ram[0].path
    && y == x.(fids := x.fids[fid := Fid(fid in x.fids && x.fids[fid].open, false, if uname != [] then uname else NONE, 0)])
  }

  /** Where a name leads from an entry. */
  ghost predicate Leads(c: Rules, ram: seq<Ram>, u: Name, i: nat, name: Name, s: Step)
    requires i < |ram|
  {
    if !ram[i].dir then s == Stuck(Enotdir)
    else if !ram[i].busy then s == Stuck(Enotexist)
    else if name == DOT then s == To(i)
    else if ram[i].parent >= |ram| then false
    else if !c.perm(u, ram[ram[i].parent], PEXEC) then s == Stuck(Eperm)
    else if name == DOTDOT then s == To(ram[i].parent)
    else match s
      case To(j) => j < |ram| && IsChild(ram, j, i) && ram[j].name == name
      case Missing => !Taken(ram, i, name)
      case Stuck(_) => false
  }

  /** A trail of entries, each led to from the one before by the name between them. */
  ghost predicate Trail(c: Rules, ram: seq<Ram>, u: Name, names: seq<Name>, w: seq<nat>) {
    && 0 < |w| <= |names| + 1 && (forall k :: 0 <= k < |w| ==> w[k] < |ram|)
    && forall k :: 0 <= k < |w| - 1 ==> Leads(c, ram, u, w[k], names[k], To(w[k + 1]))
  }

  /** Why a walk ended after the trail w: all names done, or the next one leads nowhere. */
  ghost predicate Ends(c: Rules, ram: seq<Ram>, u: Name, names: seq<Name>, w: seq<nat>, e: Option<Error>)
    requires Trail(c, ram, u, names, w)
  {
    var k := |w| - 1;
    if k == |names| || k == 16 then e == None
    else if e == None then Leads(c, ram, u, w[k], names[k], Missing)
    else Leads(c, ram, u, w[k], names[k], Stuck(e.value))
  }

  /**
   * rwalk. With a new fid, the old one must not be open and its file not gone. If all names lead somewhere, newfid
   * comes to stand for the last entry; if not, a new fid goes out of use. The reply has the qids met; it is an
   * error, that of the first name, if that leads nowhere.
   */
  ghost predicate Walks(c: Rules, x: World, fid: nat, newfid: nat, names: seq<Name>, y: World, r: Reply<seq<nat>>,
                        w: seq<nat>, e: Option<Error>)
  {
    && Stands(x, fid)
    && var f := x.fids[fid];
       if newfid != fid && f.open then r == Err(Eisopen) && y == x
       else if newfid != fid && !x.ram[f.ram].busy then r == Err(Enotexist) && y == x
       else
         && Trail(c, x.ram, f.user, names, w) && w[0] == f.ram && |w| - 1 <= MAXWELEM
         && Ends(c, x.ram, f.user, names, w, e)
         && (if |w| == 1 && names != [] then r == Err(if e.Some? then e.value else Enotexist)
             else r.Ok? && |r.value| == |w| - 1 && forall k :: 0 < k < |w| ==> r.value[k - 1] == x.ram[w[k]].path)
         && y == x.(fids := if |w| - 1 == |names| then
                              x.fids[newfid := if newfid == fid then f.(ram := w[|w| - 1]) else Fid(false, false, f.user, w[|w| - 1])]
                            else if newfid == fid then x.fids else x.fids - {newfid})
  }

  /** A permission that an open of a file needs is missing. */
  ghost predicate Barred(c: Rules, u: Name, e: Ram, m: OpenMode) {
    || ((m.access == Write || m.access == ReadWrite || m.trunc) && !c.perm(u, e, PWRITE))
    || ((m.access == Read || m.access == ReadWrite) && !c.perm(u, e, PREAD))
    || (m.access == Execute && !c.perm(u, e, PEXEC))
  }

  /**
   * ropen. A directory is opened for reading only and the open is not counted; another file is truncated if asked,
   * and its open counted. Once the parent may be written, a failed open still leaves its wish to remove on the fid.
   */
  ghost predicate Opens(c: Rules, x: World, fid: nat, m: OpenMode, y: World, r: Reply<nat>) {
    && Stands(x, fid)
    && var f := x.fids[fid];
       var e := x.ram[f.ram];
       var f' := f.(rclose := f.rclose || m.rclose);
       if f.open then r == Err(Eisopen) && y == x
       else if !e.busy then r == Err(Enotexist) && y == x
       else if e.mode.excl && e.open != 0 then r == Err(Excl) && y == x
       else if e.dir then y == x && r == if m == OpenMode(Read, false, false) then Ok(e.path) else Err(Eperm)
       else if m.rclose && (e.path == 0 || !c.perm(f.user, x.ram[e.parent], PWRITE)) then r == Err(Eperm) && y == x
       else if Barred(c, f.user, e, m) then r == Err(Eperm) && y == x.(fids := x.fids[fid := f'])
       else
         && r == Ok(e.path)
         && var e' := if m.trunc && !e.mode.append then e.(data := [], vers := e.vers + 1) else e;
            y == x.(fids := x.fids[fid := f'.(open := true)], ram := x.ram[f.ram := e'.(open := e.open + 1)])
  }

  /** rcreate: a new file in the first free slot, in the directory the fid stands for, which comes to stand for it, open. */
  ghost predicate Creates(c: Rules, x: World, fid: nat, name: Name, m: Mode, rclose: bool, y: World, r: Reply<nat>, i: nat) {
    && Stands(x, fid)
    && var f := x.fids[fid];
       var e := x.ram[f.ram];
       if f.open then r == Err(Eisopen) && y == x
       else if !e.busy then r == Err(Enotexist) && y == x
       else if !e.dir then r == Err(Enotdir) && y == x
       else if !c.perm(f.user, e, PWRITE) then r == Err(Eperm) && y == x
       else if name == DOT || name == DOTDOT then r == Err(Ename) && y == x
       else if Taken(x.ram, f.ram, name) then r == Err(Einuse) && y == x
       else if forall j :: 0 <= j < |x.ram| ==> x.ram[j].busy then r == Err(NoFreeSlot) && y == x
       else
         && i < |x.ram| && !x.ram[i].busy && (forall j :: 0 <= j < i ==> x.ram[j].busy)
         && r == Ok(x.path + 1)
         && y == World(x.ram[i := Created(c, f.ram, e, x.ram[i].open + 1, x.path + 1, name, m, f.user)],
                       if i < x.nram then x.nram else i + 1, x.path + 1,
                       x.fids[fid := Fid(true, f.rclose || rclose, f.user, i)])
  }

  /** The entry rcreate makes under slot d; a count of opens left in its slot goes on counting. */
  function Created(c: Rules, d: nat, dir: Ram, open: int, path: nat, name: Name, m: Mode, u: Name): Ram {
    Ram(true, open, d, m.dir, path, 0, m.(bits := c.bits(m, dir.mode)), name, u, dir.group, [])
  }

  /** The count of opens, without one that ends. */
  function Closing(e: Ram, open: bool): Ram {
    if open then e.(open := e.open - 1) else e
  }

  /** rclunk: the fid goes out of use; its file too, if that was asked for when it was opened. */
  ghost predicate Clunks(x: World, fid: nat, y: World, r: Reply<()>) {
    && Stands(x, fid)
    && var f := x.fids[fid];
       var e := Closing(x.ram[f.ram], f.open);
       var t := x.ram[f.ram := e];
       && r == (if f.rclose && HasEntries(t, f.ram) then Err(Enotempty) else Ok(()))
       && y == x.(fids := x.fids - {fid}, ram := if f.rclose && r.Ok? then t[f.ram := Removed(e)] else t)
  }

  /** rremove: the fid goes out of use, whether its file can be removed or not; the root cannot. */
  ghost predicate Removes(c: Rules, x: World, fid: nat, y: World, r: Reply<()>) {
    && Stands(x, fid)
    && var f := x.fids[fid];
       var e := Closing(x.ram[f.ram], f.open);
       var t := x.ram[f.ram := e];
       && r == (if e.path == 0 || !c.perm(f.user, t[e.parent], PWRITE) then Err(Eperm)
                else if HasEntries(t, f.ram) then Err(Enotempty) else Ok(()))
       && y == x.(fids := x.fids - {fid}, ram := if r.Ok? then t[f.ram := Removed(e)] else t)
  }

  /** rwrite: at the offset, or at the end of a file that may only grow. */
  ghost predicate Writes(c: Rules, x: World, fid: nat, offset: nat, d: seq<Byte>, y: World, r: Reply<nat>) {
    && Stands(x, fid)
    && var i := x.fids[fid].ram;
       var e := x.ram[i];
       var off := if e.mode.append then |e.data| else offset;
       if !e.busy then r == Err(Enotexist) && y == x
       else if e.dir then r == Err(Eisdir) && y == x
       else if c.memlim && off + |d| >= MAXSIZE then r == Err(TooBig) && y == x
       else r == Ok(|d|) && y == x.(ram := x.ram[i := e.(data := Written(e.data, off, d), vers := e.vers + 1)])
  }

  /** rwstat: every change is checked before any is made; a new name must not be that of a sibling. */
  ghost predicate Restats(c: Rules, x: World, fid: nat, d: Dir, y: World, r: Reply<()>) {
    && Stands(x, fid)
    && var i, u := x.fids[fid].ram, x.fids[fid].user;
       var e := x.ram[i];
       var renames := d.name != [] && d.name != e.name;
       if !e.busy then r == Err(Enotexist) && y == x
       else if d.length.Some? && d.length.value != |e.data| && !c.perm(u, e, PWRITE) then r == Err(Eperm) && y == x
       else if renames && !c.perm(u, x.ram[e.parent], PWRITE) then r == Err(Eperm) && y == x
       else if renames && Taken(x.ram, e.parent, d.name) then r == Err(Eexist) && y == x
       else if d.mode.Some? && d.mode.value != e.mode && u != e.user && u != e.group then r == Err(Enotowner) && y == x
       else if d.gid != [] && d.gid != e.group && u != e.user && !(u == e.group && u == d.gid) then
         r == Err(Enotowner) && y == x
       else r == Ok(()) && y == x.(ram := x.ram[i := Restated(e, d)])
  }

  /** The entry after a wstat. */
  function Restated(e: Ram, d: Dir): Ram {
    e.(mode := if d.mode.Some? then d.mode.value.(dir := e.mode.dir) else e.mode,
       name := if d.name != [] then d.name else e.name,
       group := if d.gid != [] then d.gid else e.group,
       data := if d.length.Some? then Resized(e.data, d.length.value) else e.data)
  }

  /** rversion: every fid in use is clunked. */
  ghost predicate Resets(x: World, y: World) {
    && y == x.(ram := y.ram, fids := map[]) && Clunked(x.ram, y.ram, x.fids, map[])
    && forall i :: 0 <= i < |y.ram| ==> y.ram[i].open == 0
  }

  class Server {
    const rules: Rules
    const user: Name
    var ram: array<Ram>
    var nram: nat
    var path: nat
    var fids: map<nat, Fid>

    ghost function State(): World
      reads this`ram, this`nram, this`path, this`fids, ram
    {
      World(ram[..], nram, path, fids)
    }

    ghost predicate Valid()
      reads this`ram, this`nram, this`path, this`fids, ram
    {
      Sound(State())
    }

    constructor (slots: nat, user: Name, rules: Rules)
      requires slots > 0
      ensures this.rules == rules
      ensures Valid() && fresh(ram)
      ensures State() == World(ram[..], 1, 0, map[]) && ram.Length == slots && ram[0] == Root(user)
      ensures forall i :: 1 <= i < slots ==> ram[i] == FREE
    {
      this.rules, this.user := rules, user;
      ram := new Ram[slots](_ => FREE);
      nram, path, fids := 1, 0, map[];
      new;
      ram[0] := Root(user);
      assert forall i :: 0 <= i < slots ==> OpenOn(fids, i) == {};
    }

    /**
     * rattach. The open that a fid in use keeps spoils the count of opens if and
     * only if it was open on another slot.
     */
    method Attach(fid: nat, uname: Name) returns (r: nat)
      requires Valid()
      modifies this`fids
      ensures Tree(ram[..], nram, path) && Attaches(old(State()), fid, uname, State(), r)
      ensures Valid() <==> !(fid in old(fids) && old(fids)[fid].open && old(fids)[fid].ram != 0)
    {
      hide Tree, Counts;
      TableBounds();
      ghost var was: map<nat, Fid> := fids;
      var open := fid in fids && fids[fid].open;
      fids := fids[fid := Fid(open, false, if uname != [] then uname else NONE, 0)];
      assert fids - {fid} == was - {fid};
      CountsExactly(ram[..], was, fids, fid);
      if open {
        FidWasInTable(was, fid);
        assert IsOpenOn(was, fid, was[fid].ram) && IsOpenOn(fids, fid, 0);
      }
      r := ram[0].path;
    }

    lemma {:induction false} FidWasInTable(was: map<nat, Fid>, fid: nat)
      requires Counts(ram[..], was) && fid in was
      ensures was[fid].ram < ram.Length
    {
    }

    /** The entry of a name in a directory. */
    method Lookup(d: nat, name: Name) returns (i: Option<nat>)
      requires 1 <= nram <= ram.Length
      ensures i.Some? ==> i.value < nram && IsChild(ram[..], i.value, d) && ram[i.value].name == name
      ensures i.None? ==> forall j :: 0 <= j < nram && IsChild(ram[..], j, d) ==> ram[j].name != name
    {
      var r := 0;
      while r < nram
        invariant 0 <= r <= nram && forall j :: 0 <= j < r && IsChild(ram[..], j, d) ==> ram[j].name != name
      {
        if ram[r].busy && ram[r].parent == d && ram[r].name == name {
          return Some(r);
        }
        r := r + 1;
      }
      i := None;
    }

    method WalkOne(u: Name, i: nat, name: Name) returns (s: Step)
      requires Valid() && i < ram.Length
      ensures Leads(rules, ram[..], u, i, name, s) && (s.To? ==> s.i < ram.Length && ram[s.i].busy)
    {
      if !ram[i].dir {
        return Stuck(Enotdir);
      }
      if !ram[i].busy {
        return Stuck(Enotexist);
      }
      if name == DOT {
        return To(i);
      }
      assert i > 0 ==> HasParent(ram[..], i);
      if !rules.perm(u, ram[ram[i].parent], PEXEC) {
        return Stuck(Eperm);
      }
      if name == DOTDOT {
        return To(ram[i].parent);
      }
      var j := Lookup(i, name);
      s := match j case Some(k) => To(k) case None => Missing;
    }

    method Follow(u: Name, i: nat, names: seq<Name>) returns (w: seq<nat>, e: Option<Error>)
      requires Valid() && i < ram.Length
      ensures Trail(rules, ram[..], u, names, w) && w[0] == i && |w| <= MAXWELEM + 1 && Ends(rules, ram[..], u, names, w, e)
    {
      hide Tree, Counts;
      w, e := [i], None;
      while |w| - 1 < |names| && |w| - 1 < MAXWELEM
        invariant Trail(rules, ram[..], u, names, w) && w[0] == i && |w| <= MAXWELEM + 1 && e == None
        decreases |names| - |w|
      {
        var s := WalkOne(u, w[|w| - 1], names[|w| - 1]);
        match s {
          case To(j) => w := w + [j];
          case Stuck(x) =>
            e := Some(x);
            return;
          case Missing => return;
        }
      }
    }

    /** The qids of a trail, without that of its start. */
    static function Qids(ram: seq<Ram>, t: seq<nat>): (q: seq<nat>)
      requires |t| > 0 && forall k :: 0 <= k < |t| ==> t[k] < |ram|
      ensures |q| == |t| - 1 && forall k :: 0 < k < |t| ==> q[k - 1] == ram[t[k]].path
    {
      seq(|t| - 1, k requires 0 <= k < |t| - 1 => ram[t[k + 1]].path)
    }

    /**
     * rwalk. A fid in use may be walked to, and an open one walked in place: that spoils the count of opens if and
     * only if the fid was open, and is now open on another slot or not at all.
     */
    method Walk(fid: nat, newfid: nat, names: seq<Name>)
      returns (r: Reply<seq<nat>>, ghost w: seq<nat>, ghost e: Option<Error>)
      requires Valid() && fid in fids
      modifies this`fids
      ensures Tree(ram[..], nram, path) && Walks(rules, old(State()), fid, newfid, names, State(), r, w, e)
      ensures Valid() <==>
        || fids == old(fids)
        || (if newfid == fid then !old(fids[fid].open) else newfid !in old(fids) || !old(fids)[newfid].open)
    {
      hide Tree, Counts, Leads, Ends, Server.Qids;
      ghost var was: map<nat, Fid> := fids;
      var f := fids[fid];
      w, e := [], None;
      FidInTable(fid);
      if newfid != fid {
        if f.open {
          return Err(Eisopen), w, e;
        }
        if !ram[f.ram].busy {
          return Err(Enotexist), w, e;
        }
      }
      var t, x := Follow(f.user, f.ram, names);
      w, e := t, x;
      var n := |t| - 1;
      r := if n == 0 && names != [] then Err(if x.Some? then x.value else Enotexist) else Ok(Qids(ram[..], t));
      if n == |names| {
        fids := fids[newfid := if newfid == fid then f.(ram := t[n]) else Fid(false, false, f.user, t[n])];
      } else if newfid != fid {
        fids := fids - {newfid};
      }
      OneFidChanged(was, newfid);
    }

    lemma {:induction false} OneFidChanged(was: map<nat, Fid>, f: nat)
      requires Tree(ram[..], nram, path) && Counts(ram[..], was) && fids - {f} == was - {f}
      requires f in fids ==> fids[f].ram < ram.Length
      requires f in fids && fids[f].open ==> f in was && was[f].open
      ensures Valid() <==> fids == was || !(f in was && was[f].open) || (f in fids && fids[f].open && fids[f].ram == was[f].ram)
    {
      hide Tree;
      CountsExactly(ram[..], was, fids, f);
      if f in was && was[f].open {
        assert IsOpenOn(was, f, was[f].ram);
      }
    }

    /** ropen */
    method Open(fid: nat, m: OpenMode) returns (r: Reply<nat>)
      requires Valid() && fid in fids
      modifies this`fids, ram
      ensures Valid() && Opens(rules, old(State()), fid, m, State(), r)
    {
      hide Tree, Counts, Barred;
      FidInTable(fid);
      ghost var was, before := fids, ram[..];
      var f := fids[fid];
      var i := f.ram;
      ParentOf(i);
      if f.open {
        return Err(Eisopen);
      }
      if !ram[i].busy {
        return Err(Enotexist);
      }
      if ram[i].mode.excl && ram[i].open != 0 {
        return Err(Excl);
      }
      if ram[i].dir {
        return if m == OpenMode(Read, false, false) then Ok(ram[i].path) else Err(Eperm);
      }
      if m.rclose {
        if ram[i].path == 0 || !rules.perm(f.user, ram[ram[i].parent], PWRITE) {
          return Err(Eperm);
        }
        fids := fids[fid := f.(rclose := true)];
        assert fids - {fid} == was - {fid};
        CountsClosed(before, was, fids, fid);
      } else {
        assert fids == fids[fid := f];
      }
      var barred := AccessBarred(f.user, ram[i], m);
      if barred {
        return Err(Eperm);
      }
      Truncate(i, m.trunc);
      ghost var t := ram[..];
      CountsOpen(t, fids, fid, i, fids[fid].rclose);
      ram[i] := ram[i].(open := ram[i].open + 1);
      assert ram[..] == t[i := t[i].(open := t[i].open + 1)];
      TreeChange(t, nram, path, i, ram[i]);
      assert fids[fid := fids[fid].(open := true, rclose := fids[fid].rclose, ram := i)] ==
             fids[fid := fids[fid].(open := true)];
      fids := fids[fid := fids[fid].(open := true)];
      r := Ok(ram[i].path);
    }

    /** The permissions an open needs of the file itself. */
    method AccessBarred(u: Name, e: Ram, m: OpenMode) returns (barred: bool)
      ensures barred <==> Barred(rules, u, e, m)
    {
      if m.access == Write || m.access == ReadWrite || m.trunc {
        if !rules.perm(u, e, PWRITE) {
          return true;
        }
      }
      if m.access == Read || m.access == ReadWrite {
        if !rules.perm(u, e, PREAD) {
          return true;
        }
      }
      if m.access == Execute {
        if !rules.perm(u, e, PEXEC) {
          return true;
        }
      }
      barred := false;
    }

    method Truncate(i: nat, trunc: bool)
      requires Valid() && i < ram.Length
      modifies ram
      ensures Valid()
      ensures var e := old(ram[i]);
              ram[..] == old(ram[..])[i := if trunc && !e.mode.append then e.(data := [], vers := e.vers + 1) else e]
    {
      ghost var t := ram[..];
      if trunc && !ram[i].mode.append {
        ram[i] := ram[i].(data := [], vers := ram[i].vers + 1);
        assert ram[..] == t[i := ram[i]];
        TreeChange(t, nram, path, i, ram[i]);
        CountsSame(t, ram[..], fids);
      }
    }

    /** The first free slot of the table. */
    method FreeSlot() returns (i: Option<nat>)
      ensures i.Some? ==> i.value < ram.Length && !ram[i.value].busy && forall j :: 0 <= j < i.value ==> ram[j].busy
      ensures i.None? ==> forall j :: 0 <= j < ram.Length ==> ram[j].busy
    {
      var r := 0;
      while r < ram.Length
        invariant 0 <= r <= ram.Length && forall j :: 0 <= j < r ==> ram[j].busy
      {
        if !ram[r].busy {
          return Some(r);
        }
        r := r + 1;
      }
      i := None;
    }

    /** rcreate. The reply is the new file's path, one no file in use has. */
    method Create(fid: nat, name: Name, m: Mode, rclose: bool) returns (r: Reply<nat>, ghost i: nat)
      requires Valid() && fid in fids
      modifies this`fids, this`nram, this`path, ram
      ensures Valid() && Creates(rules, old(State()), fid, name, m, rclose, State(), r, i)
      ensures r.Ok? ==> forall j :: 0 <= j < ram.Length ==> old(ram[j].path) != r.value
    {
      hide Tree, Counts;
      FidInTable(fid);
      var f := fids[fid];
      var d := f.ram;
      i := 0;
      if f.open {
        return Err(Eisopen), i;
      }
      if !ram[d].busy {
        return Err(Enotexist), i;
      }
      if !ram[d].dir {
        return Err(Enotdir), i;
      }
      if !rules.perm(f.user, ram[d], PWRITE) {
        return Err(Eperm), i;
      }
      if name == DOT || name == DOTDOT {
        return Err(Ename), i;
      }
      TableBounds();
      var s := Lookup(d, name);
      if s.Some? {
        return Err(Einuse), i;
      }
      var free := FreeSlot();
      if free == None {
        return Err(NoFreeSlot), i;
      }
      i := free.value;
      FreshPath();
      Install(fid, d, free.value, name, m, rclose);
      r := Ok(path);
    }

    /** The end of rcreate, once the slot is found. */
    method Install(fid: nat, d: nat, i: nat, name: Name, m: Mode, rclose: bool)
      requires Valid() && fid in fids && !fids[fid].open && fids[fid].ram == d
      requires d < ram.Length && ram[d].busy && ram[d].dir && i < ram.Length && !ram[i].busy
      requires forall j :: 0 <= j < nram && IsChild(ram[..], j, d) ==> ram[j].name != name
      modifies this`fids, this`nram, this`path, ram
      ensures Valid() && path == old(path) + 1 && nram == if i < old(nram) then old(nram) else i + 1
      ensures ram[..] == old(ram[..])[i := old(Created(rules, d, ram[d], ram[i].open + 1, path + 1, name, m, fids[fid].user))]
      ensures fids == old(fids)[fid := Fid(true, old(fids[fid].rclose) || rclose, old(fids[fid].user), i)]
    {
      hide Counts, Tree;
      TableBounds();
      ghost var t := ram[..];
      var f := fids[fid];
      var e := Created(rules, d, ram[d], ram[i].open, path + 1, name, m, f.user);
      TreeCreate(t, nram, path, i, e);
      ghost var t1 := t[i := e];
      CountsSame(t, t1, fids);
      CountsOpen(t1, fids, fid, i, f.rclose || rclose);
      path := path + 1;
      if i >= nram {
        nram := i + 1;
      }
      ram[i] := e.(open := e.open + 1);
      assert ram[..] == t1[i := t1[i].(open := t1[i].open + 1)];
      TreeChange(t1, nram, path, i, ram[i]);
      fids := fids[fid := Fid(true, f.rclose || rclose, f.user, i)];
    }

    lemma {:induction false} TableBounds()
      requires Valid()
      ensures 1 <= nram <= ram.Length && forall j :: nram <= j < ram.Length ==> !ram[j].busy
      ensures ram[0].busy && ram[0].dir && ram[0].path == 0 && ram[0].parent == 0
    {
    }

    lemma {:induction false} FreshPath()
      requires Valid()
      ensures forall j :: 0 <= j < ram.Length ==> ram[j].path <= path
    {
    }

    /** emptydir */
    method EmptyDir(d: nat) returns (empty: bool)
      requires 1 <= nram <= ram.Length && forall j :: nram <= j < ram.Length ==> !ram[j].busy
      ensures empty <==> forall j :: 0 <= j < ram.Length ==> !IsChild(ram[..], j, d)
    {
      var r := 0;
      while r < nram
        invariant 0 <= r <= nram && forall j :: 0 <= j < r ==> !IsChild(ram[..], j, d)
      {
        if ram[r].busy && ram[r].parent == d {
          assert IsChild(ram[..], r, d);
          return false;
        }
        r := r + 1;
      }
      empty := true;
    }

    /** realremove: an entry goes unless it is a directory with entries, as the root always is. */
    method RealRemove(i: nat) returns (r: Reply<()>)
      requires Valid() && i < ram.Length
      modifies ram
      ensures Valid() && (r == Ok(()) || r == Err(Enotempty))
      ensures r.Err? <==> HasEntries(old(ram[..]), i)
      ensures ram[..] == if r.Err? then old(ram[..]) else old(ram[..])[i := Removed(old(ram[i]))]
      ensures i == 0 ==> r.Err?
    {
      hide Counts;
      if ram[i].dir {
        var empty := EmptyDir(i);
        RootNotEmpty(ram[..], nram, path);
        if !empty {
          return Err(Enotempty);
        }
      } else {
        FilesHaveNoChildren(ram[..], nram, path, i);
      }
      ghost var t := ram[..];
      TreeRemove(t, nram, path, i);
      ram[i] := Removed(ram[i]);
      assert ram[..] == t[i := Removed(t[i])];
      CountsSame(t, ram[..], fids);
      r := Ok(());
    }

    /** The fid goes out of use, and with it its open. */
    method Forget(fid: nat)
      requires Valid() && fid in fids
      modifies this`fids, ram
      ensures Valid() && fids == old(fids) - {fid} && old(fids[fid].ram) < ram.Length
      ensures var i := old(fids[fid].ram);
              ram[..] == old(ram[..])[i := Closing(old(ram[i]), old(fids[fid].open))]
    {
      hide Tree, Counts;
      FidInTable(fid);
      ghost var t, was := ram[..], fids;
      var i := fids[fid].ram;
      if fids[fid].open {
        CountsClose(t, fids, fid);
        ram[i] := ram[i].(open := ram[i].open - 1);
        assert ram[..] == t[i := t[i].(open := t[i].open - 1)];
        TreeChange(t, nram, path, i, ram[i]);
        fids := fids - {fid};
      } else {
        assert t == t[i := t[i]];
        fids := fids - {fid};
        assert fids - {fid} == was - {fid};
        CountsClosed(t, was, fids, fid);
      }
    }

    /** rclunk: the fid goes out of use; its file too, if that was asked for when it was opened. */
    method Clunk(fid: nat) returns (r: Reply<()>)
      requires Valid() && fid in fids
      modifies this`fids, ram
      ensures Valid() && Clunks(old(State()), fid, State(), r)
    {
      var f := fids[fid];
      Forget(fid);
      r := Ok(());
      if f.rclose {
        r := RealRemove(f.ram);
      }
    }

    /** rremove: the fid goes out of use, whether its file can be removed or not; the root cannot. */
    method Remove(fid: nat) returns (r: Reply<()>)
      requires Valid() && fid in fids
      modifies this`fids, ram
      ensures Valid() && Removes(rules, old(State()), fid, State(), r)
      ensures r.Ok? ==> old(ram[fids[fid].ram].busy) && old(fids[fid].ram) != 0
    {
      hide Tree, Counts;
      var f := fids[fid];
      FidInTable(fid);
      TableBounds();
      Forget(fid);
      ParentOf(f.ram);
      if ram[f.ram].path == 0 || !rules.perm(f.user, ram[ram[f.ram].parent], PWRITE) {
        return Err(Eperm);
      }
      UnusedHasNoPath(f.ram);
      r := RealRemove(f.ram);
    }

    lemma {:induction false} UnusedHasNoPath(i: nat)
      requires Valid() && i < ram.Length
      ensures ram[i].path != 0 ==> ram[i].busy && i != 0
    {
    }

    /** rread, of a file. */
    method ReadFile(fid: nat, off: nat, cnt: nat) returns (r: Reply<seq<Byte>>)
      requires Valid() && fid in fids
      requires fids[fid].ram < ram.Length && !ram[fids[fid].ram].dir
      ensures r == if !ram[fids[fid].ram].busy then Err(Enotexist) else Ok(Slice(ram[fids[fid].ram].data, off, cnt))
    {
      var e := ram[fids[fid].ram];
      if !e.busy {
        return Err(Enotexist);
      }
      if off >= |e.data| {
        return Ok([]);
      }
      var n := cnt;
      if off + n > |e.data| {
        n := |e.data| - off;
      }
      r := Ok(e.data[off..off + n]);
    }

    /** rread, of a directory: the records after the offset; None: the table is run off. */
    method ReadDirectory(fid: nat, off: nat, cnt: nat) returns (r: Option<seq<Byte>>)
      requires Valid() && fid in fids && RamfsDir.GoodStat(rules.stat)
      requires fids[fid].ram < ram.Length && 1 <= nram <= ram.Length && ram[fids[fid].ram].dir
      ensures r == None <==> off > 0 && nram == 1
      ensures var c := RamfsDir.Children(ram[..], fids[fid].ram, nram);
              var k := RamfsDir.Skipped(ram[..], rules.stat, c, 0, off);
              r.Some? ==> r.value == RamfsDir.Records(ram[..], rules.stat, c[k..k + RamfsDir.Fitting(ram[..], rules.stat, c, k, cnt)])
    {
      hide Tree, Counts;
      r := RamfsDir.ReadDir(ram, nram, rules.stat, fids[fid].ram, off, cnt);
    }

    /** rstat */
    method Stat(fid: nat) returns (r: Reply<seq<Byte>>)
      requires Valid() && fid in fids && fids[fid].ram < ram.Length
      ensures r == if ram[fids[fid].ram].busy then Ok(rules.stat(ram[fids[fid].ram])) else Err(Enotexist)
    {
      if !ram[fids[fid].ram].busy {
        return Err(Enotexist);
      }
      r := Ok(rules.stat(ram[fids[fid].ram]));
    }

    /** rwrite: at the offset, or at the end of a file that may only grow. */
    method WriteFile(fid: nat, offset: nat, d: seq<Byte>) returns (r: Reply<nat>)
      requires Valid() && fid in fids
      modifies ram
      ensures Valid() && Writes(rules, old(State()), fid, offset, d, State(), r)
    {
      hide Tree, Counts;
      FidInTable(fid);
      var i := fids[fid].ram;
      var e := ram[i];
      if !e.busy {
        return Err(Enotexist);
      }
      var off := offset;
      if e.mode.append {
        off := |e.data|;
      }
      if e.dir {
        return Err(Eisdir);
      }
      if rules.memlim && off + |d| >= MAXSIZE {
        return Err(TooBig);
      }
      var data := e.data;
      if off > |data| {
        data := data + Zeros(off - |data|);
      }
      WrittenParts(e.data, off, d);
      data := data[..off] + d + if off + |d| <= |data| then data[off + |d|..] else [];
      Replace(i, e.(data := data, vers := e.vers + 1));
      r := Ok(|d|);
    }

    /** The contents of an entry, or its attributes, change. */
    method Replace(i: nat, e: Ram)
      requires Valid() && i < ram.Length && SamePlace(ram[i], e) && e.open == ram[i].open
      requires e.name != ram[i].name ==>
        forall j :: 0 <= j < ram.Length && IsChild(ram[..], j, e.parent) ==> ram[j].name != e.name
      modifies ram
      ensures Valid() && ram[..] == old(ram[..])[i := e]
    {
      hide Tree, Counts;
      ghost var t := ram[..];
      TreeChange(t, nram, path, i, e);
      CountsSame(t, t[i := e], fids);
      ram[i] := e;
      assert ram[..] == t[i := e];
    }

    /** rwstat: every change is checked before any is made; a new name must not be that of a sibling. */
    method WStat(fid: nat, d: Dir) returns (r: Reply<()>)
      requires Valid() && fid in fids
      modifies ram
      ensures Valid() && Restats(rules, old(State()), fid, d, State(), r)
    {
      hide Tree, Counts;
      FidInTable(fid);
      TableBounds();
      var i, u := fids[fid].ram, fids[fid].user;
      var e := ram[i];
      ParentOf(i);
      if !e.busy {
        return Err(Enotexist);
      }
      if d.length.Some? && d.length.value != |e.data| {
        if !rules.perm(u, e, PWRITE) {
          return Err(Eperm);
        }
      }
      if d.name != [] && d.name != e.name {
        if !rules.perm(u, ram[e.parent], PWRITE) {
          return Err(Eperm);
        }
        var s := Lookup(e.parent, d.name);
        if s.Some? {
          assert IsChild(ram[..], s.value, e.parent);
          return Err(Eexist);
        }
      }
      if d.mode.Some? && d.mode.value != e.mode {
        if u != e.user && u != e.group {
          return Err(Enotowner);
        }
      }
      if d.gid != [] && d.gid != e.group {
        if u != e.user && !(u == e.group && u == d.gid) {
          return Err(Enotowner);
        }
      }
      Replace(i, Restated(e, d));
      r := Ok(());
    }

    /**
     * rversion: every fid in use is clunked. No slot counts an open any more. Only files whose removal was asked for
     * are gone, and all those but the directories that had entries.
     */
    method Version()
      requires Valid()
      modifies this`fids, ram
      ensures Valid() && Resets(old(State()), State())
    {
      hide Tree, Counts, Clunked;
      ghost var t, was := ram[..], fids;
      NoneClunked(t, was);
      while fids != map[]
        invariant Valid() && Clunked(t, ram[..], was, fids)
        decreases |fids|
      {
        var f :| f in fids;
        ghost var u, now := ram[..], fids;
        FidInTable(f);
        var i := fids[f].ram;
        var r := Clunk(f);
        OneClunked(t, u, ram[..], was, now, f, Closing(u[i], now[f].open), r.Ok?);
      }
      AllClosed();
    }

    lemma {:induction false} AllClosed()
      requires Valid() && fids == map[]
      ensures forall i :: 0 <= i < ram.Length ==> ram[i].open == 0
    {
      assert forall i :: OpenOn(fids, i) == {};
    }

    lemma {:induction false} ParentOf(i: nat)
      requires Valid() && i < ram.Length
      ensures ram[i].parent < ram.Length
      ensures ram[i].busy ==> ram[ram[i].parent].busy && ram[ram[i].parent].dir
      ensures ram[i].dir ==> ram[i].busy
    {
      assert ram[i].busy && i > 0 ==> HasParent(ram[..], i);
    }

    lemma {:induction false} FidInTable(fid: nat)
      requires Valid() && fid in fids
      ensures fids[fid].ram < ram.Length && Stands(State(), fid)
    {
      ParentOf(fids[fid].ram);
    }
  }

  const NONE: Name := [110, 111, 110, 101]   // "none"

  /** A message from a client. */
  datatype Request =
    | TVersion(version: Name)
    | TAuth
    | TFlush
    | TAttach(fid: nat, uname: Name)
    | TWalk(fid: nat, newfid: nat, names: seq<Name>)
    | TOpen(fid: nat, mode: OpenMode)
    | TCreate(fid: nat, name: Name, perm: Mode, rclose: bool)
    | TRead(fid: nat, offset: nat, count: nat)
    | TWrite(fid: nat, offset: nat, data: seq<Byte>)
    | TClunk(fid: nat)
    | TRemove(fid: nat)
    | TStat(fid: nat)
    | TWStat(fid: nat, dir: Dir)

  /** needfid: the message is about a fid in use. */
  predicate NeedsFid(q: Request) {
    !q.TVersion? && !q.TAuth? && !q.TFlush? && !q.TAttach?
  }

  /** What the protocol asks of a client: fids given to new uses are free, and no open fid is walked in place. */
  ghost predicate Proper(fids: map<nat, Fid>, q: Request) {
    match q
    case TAttach(fid, _) => fid !in fids
    case TWalk(fid, newfid, _) => fid in fids ==> if newfid == fid then !fids[fid].open else newfid !in fids
    case _ => true
  }

  /** What a client gets back: a reply of its kind of message, or the error that took its place. */
  datatype Answer =
    | FidNotInUse
    | RVersion(version: Reply<()>)
    | RAuth(auth: Reply<()>)
    | RFlush
    | RAttach(root: nat)
    | RWalk(walk: Reply<seq<nat>>)
    | ROpen(open: Reply<nat>)
    | RCreate(create: Reply<nat>)
    | RRead(read: Reply<seq<Byte>>)
    | OffTable
    | RWrite(write: Reply<nat>)
    | RClunk(clunk: Reply<()>)
    | RRemove(remove: Reply<()>)
    | RStat(stat: Reply<seq<Byte>>)
    | RWStat(wstat: Reply<()>)

  const VERSION9P: Name := [57, 80, 50, 48, 48, 48]   // "9P2000"

  /** rread: the bytes of a file, or whole records of a directory; a lone root is run off at any offset but 0. */
  ghost predicate Reads(c: Rules, x: World, fid: nat, off: nat, cnt: nat, a: Answer)
    requires RamfsDir.GoodStat(c.stat)
  {
    && Stands(x, fid)
    && var d := x.fids[fid].ram;
       var e := x.ram[d];
       if !e.busy then a == RRead(Err(Enotexist))
       else if !e.dir then a == RRead(Ok(Slice(e.data, off, cnt)))
       else if off > 0 && x.nram == 1 then a == OffTable
       else
         && x.nram <= |x.ram|
         && var ch := RamfsDir.Children(x.ram, d, x.nram);
            var k := RamfsDir.Skipped(x.ram, c.stat, ch, 0, off);
            a == RRead(Ok(RamfsDir.Records(x.ram, c.stat, ch[k..k + RamfsDir.Fitting(x.ram, c.stat, ch, k, cnt)])))
  }

  /** The message q, met in the state x, has the answer a and leaves y. */
  ghost predicate Served(c: Rules, x: World, q: Request, y: World, a: Answer)
    requires RamfsDir.GoodStat(c.stat)
  {
    if NeedsFid(q) && q.fid !in x.fids then a == FidNotInUse && y == x else
    match q
    case TVersion(v) => Resets(x, y) && a == RVersion(if [57, 80, 50, 48, 48, 48] <= v then Ok(()) else Err(Eversion))
    case TAuth => y == x && a == RAuth(Err(NoAuth))
    case TFlush => y == x && a == RFlush
    case TAttach(fid, uname) => a.RAttach? && Attaches(x, fid, uname, y, a.root)
    case TWalk(fid, newfid, names) => a.RWalk? && exists w, e :: Walks(c, x, fid, newfid, names, y, a.walk, w, e)
    case TOpen(fid, m) => a.ROpen? && Opens(c, x, fid, m, y, a.open)
    case TCreate(fid, name, m, rclose) => a.RCreate? && exists i :: Creates(c, x, fid, name, m, rclose, y, a.create, i)
    case TRead(fid, off, cnt) => y == x && Reads(c, x, fid, off, cnt, a)
    case TWrite(fid, off, d) => a.RWrite? && Writes(c, x, fid, off, d, y, a.write)
    case TClunk(fid) => a.RClunk? && Clunks(x, fid, y, a.clunk)
    case TRemove(fid) => a.RRemove? && Removes(c, x, fid, y, a.remove)
    case TStat(fid) =>
      && y == x && Stands(x, fid)
      && var e := x.ram[x.fids[fid].ram]; a == RStat(if e.busy then Ok(c.stat(e)) else Err(Enotexist))
    case TWStat(fid, d) => a.RWStat? && Restats(c, x, fid, d, y, a.wstat)
  }

  /** io: one message is served. One about a fid not in use is an error and changes nothing. */
  method Serve(s: Server, q: Request) returns (a: Answer)
    requires s.Valid() && Proper(s.fids, q) && RamfsDir.GoodStat(s.rules.stat)
    modifies s`fids, s`nram, s`path, s.ram
    ensures s.Valid() && Served(s.rules, old(s.State()), q, s.State(), a)
  {
    hide Tree, Counts, Walks, Opens, Creates, Writes, Clunks, Removes, Restats, Resets, Slice;
    if NeedsFid(q) && q.fid !in s.fids {
      return FidNotInUse;
    }
    match q {
      case TVersion(v) =>
        s.Version();
        a := RVersion(if VERSION9P <= v then Ok(()) else Err(Eversion));
      case TAuth => a := RAuth(Err(NoAuth));
      case TFlush => a := RFlush;
      case TAttach(fid, uname) =>
        var r := s.Attach(fid, uname);
        a := RAttach(r);
      case TWalk(fid, newfid, names) =>
        var r, w, e := s.Walk(fid, newfid, names);
        a := RWalk(r);
      case TOpen(fid, m) =>
        var r := s.Open(fid, m);
        a := ROpen(r);
      case TCreate(fid, name, m, rclose) =>
        var r, i := s.Create(fid, name, m, rclose);
        a := RCreate(r);
      case TRead(fid, offset, count) => a := ReadAny(s, fid, offset, count);
      case TWrite(fid, offset, d) =>
        var r := s.WriteFile(fid, offset, d);
        a := RWrite(r);
      case TClunk(fid) =>
        var r := s.Clunk(fid);
        a := RClunk(r);
      case TRemove(fid) =>
        var r := s.Remove(fid);
        a := RRemove(r);
      case TStat(fid) =>
        s.FidInTable(fid);
        s.ParentOf(s.fids[fid].ram);
        var r := s.Stat(fid);
        a := RStat(r);
      case TWStat(fid, d) =>
        var r := s.WStat(fid, d);
        a := RWStat(r);
    }
  }

  /** rread */
  method ReadAny(s: Server, fid: nat, offset: nat, count: nat) returns (a: Answer)
    requires s.Valid() && fid in s.fids && RamfsDir.GoodStat(s.rules.stat)
    ensures Reads(s.rules, s.State(), fid, offset, count, a)
  {
    hide Tree, Counts, Slice;
    s.FidInTable(fid);
    s.TableBounds();
    s.ParentOf(s.fids[fid].ram);
    if !s.ram[s.fids[fid].ram].dir {
      var r := s.ReadFile(fid, offset, count);
      return RRead(r);
    }
    var r := s.ReadDirectory(fid, offset, count);
    a := match r case None => OffTable case Some(bytes) => RRead(Ok(bytes));
  }

  /**
   * Why clients must be disciplined: fid 7 is open on file 1. Attached again it counts as open on the root; walked to,
   * it no longer counts; walked in place to the root, it counts there.
   */
  lemma {:induction false} ReuseSpoils(u: Name, e: Ram)
    requires e.busy && !e.dir && e.parent == 0 && e.path == 1 && e.open == 1 && e.name != DOT
    ensures var ram, fids := [Root(u), e], map[7 := Fid(true, false, u, 1)];
            && Tree(ram, 2, 1) && Counts(ram, fids)
            && !Counts(ram, fids[7 := Fid(true, false, NONE, 0)])
            && !Counts(ram, fids[7 := Fid(false, false, u, 1)])
            && !Counts(ram, fids[7 := fids[7].(ram := 0)])
  {
    var ram, fids: map<nat, Fid> := [Root(u), e], map[7 := Fid(true, false, u, 1)];
    assert OpenOn(fids, 1) == {7} && OpenOn(fids, 0) == {};
    assert HasParent(ram, 1);
    assert IsOpenOn(fids, 7, 1);
    forall g: Fid | g.ram < 2 && !(g.open && g.ram == 1)
      ensures !Counts(ram, fids[7 := g])
    {
      assert fids[7 := g] - {7} == fids - {7};
      CountsExactly(ram, fids, fids[7 := g], 7);
      assert !IsOpenOn(fids[7 := g], 7, 1);
    }
  }

  /** Each message is proper in the state it meets. */
  type Client = (seq<Ram>, map<nat, Fid>) -> Request

  ghost predicate Disciplined(c: Client) {
    forall ram, fids :: Proper(fids, c(ram, fids))
  }

  /** A run: in each state a message is served, and what that leaves is the next state. */
  ghost predicate Run(c: Rules, ws: seq<World>, qs: seq<Request>, answers: seq<Answer>)
    requires RamfsDir.GoodStat(c.stat)
  {
    && |ws| == |qs| + 1 && |answers| == |qs|
    && (forall n :: 0 <= n < |ws| ==> Sound(ws[n]))
    && forall n :: 0 <= n < |qs| ==> Served(c, ws[n], qs[n], ws[n + 1], answers[n])
  }

  /**
   * Disciplined clients are served: every message has its answer and effect, and in every state the entries in use
   * form a tree, siblings have different names, no slot in use lies past nram, and each slot counts the fids open on it.
   */
  method Session(slots: nat, user: Name, rules: Rules, clients: nat -> Client, steps: nat)
    returns (s: Server, qs: seq<Request>, answers: seq<Answer>, ghost ws: seq<World>)
    requires slots > 0 && RamfsDir.GoodStat(rules.stat) && forall n :: Disciplined(clients(n))
    ensures Run(rules, ws, qs, answers) && |qs| == steps && s.State() == ws[steps]
    ensures forall n :: 0 <= n < steps ==> qs[n] == clients(n)(ws[n].ram, ws[n].fids)
    ensures ws[0] == World(ws[0].ram, 1, 0, map[]) && |ws[0].ram| == slots && ws[0].ram[0] == Root(user)
    ensures forall i :: 1 <= i < slots ==> ws[0].ram[i] == FREE
  {
    hide Sound, Served;
    s := new Server(slots, user, rules);
    qs, answers, ws := [], [], [s.State()];
    for n := 0 to steps
      invariant s.Valid() && fresh(s) && fresh(s.ram) && s.rules == rules
      invariant Run(rules, ws, qs, answers) && |qs| == n && s.State() == ws[n]
      invariant forall k :: 0 <= k < n ==> qs[k] == clients(k)(ws[k].ram, ws[k].fids)
      invariant ws[0] == World(ws[0].ram, 1, 0, map[]) && |ws[0].ram| == slots && ws[0].ram[0] == Root(user)
      invariant forall i :: 1 <= i < slots ==> ws[0].ram[i] == FREE
    {
      var q := clients(n)(s.ram[..], s.fids);
      assert Disciplined(clients(n));
      var a := Serve(s, q);
      qs, answers, ws := qs + [q], answers + [a], ws + [s.State()];
    }
  }
}
