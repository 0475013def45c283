// The file tree of ramfs, kept in a table of slots.

/** The entries of ramfs.c and what keeps them a tree. */
module RamfsTree {
  import opened Basics

  type Name = seq<int>

  const DOT: Name := [46]
  const DOTDOT: Name := [46, 46]

  /** The mode bits the server acts on; the rest are left to the permission check. */
  datatype Mode = Mode(dir: bool, append: bool, excl: bool, bits: nat)

  /** A slot of the table. Its type and path are those of its qid. */
  datatype Ram = Ram(busy: bool, open: int, parent: nat, dir: bool, path: nat, vers: nat,
                     mode: Mode, name: Name, user: Name, group: Name, data: seq<Byte>)

  /** A slot that was never used. */
  const FREE := Ram(false, 0, 0, false, 0, 0, Mode(false, false, false, 0), [], [], [], [])

  /** The root, its own parent. */
  function Root(user: Name): Ram {
    Ram(true, 0, 0, true, 0, 0, Mode(true, false, false, 0x1FD), DOT, user, user, [])
  }

  /** An entry in use other than the root has a directory in use as its parent, made before it. */
  ghost predicate HasParent(ram: seq<Ram>, i: nat)
    requires i < |ram|
  {
    && ram[i].parent < |ram| && ram[ram[i].parent].busy && ram[ram[i].parent].dir
    && ram[ram[i].parent].path < ram[i].path
  }

  ghost predicate Twins(ram: seq<Ram>, i: nat, j: nat)
    requires i < |ram| && j < |ram|
  {
    ram[i].busy && ram[j].busy && i != j && ram[i].parent == ram[j].parent && ram[i].name == ram[j].name
  }

  /** What is true of the table: nram bounds the slots in use, and path the files made. */
  ghost predicate Tree(ram: seq<Ram>, nram: nat, path: nat) {
    && 1 <= nram <= |ram|
    && ram[0].busy && ram[0].dir && ram[0].path == 0 && ram[0].parent == 0
    && (forall i :: nram <= i < |ram| ==> !ram[i].busy)
    && (forall i :: 1 <= i < |ram| && ram[i].busy ==> HasParent(ram, i))
    && (forall i :: 0 <= i < |ram| && ram[i].busy ==> ram[i].path <= path)
    && (forall i, j :: 0 <= i < |ram| && 0 <= j < |ram| ==> !Twins(ram, i, j))
    && (forall i, j :: 0 <= i < j < |ram| && ram[i].busy && ram[j].busy ==> ram[i].path != ram[j].path)
    && (forall i :: 0 <= i < |ram| && !ram[i].busy ==> !ram[i].dir && ram[i].path == ram[i].parent == 0)
  }

  /** The entries of a directory; the root counts as one of its own. */
  ghost predicate IsChild(ram: seq<Ram>, i: nat, d: nat)
    requires i < |ram|
  {
    ram[i].busy && ram[i].parent == d
  }

  /** The way up from an entry to the root. */
  ghost function WayUp(ram: seq<Ram>, nram: nat, path: nat, i: nat): (w: seq<nat>)
    requires Tree(ram, nram, path) && i < |ram| && ram[i].busy
    ensures |w| > 0 && w[0] == i && w[|w| - 1] == 0
    decreases ram[i].path
  {
    if i == 0 then [0] else
    assert HasParent(ram, i);
    [i] + WayUp(ram, nram, path, ram[i].parent)
  }

  /** Every entry in use hangs from the root: each step of the way up leads to an older directory, its parent. */
  lemma {:induction false} WayUpStep(ram: seq<Ram>, nram: nat, path: nat, i: nat, k: nat)
    requires Tree(ram, nram, path) && i < |ram| && ram[i].busy && k < |WayUp(ram, nram, path, i)|
    ensures var w := WayUp(ram, nram, path, i);
            && w[k] < |ram| && ram[w[k]].busy
            && (k > 0 ==> w[k - 1] < |ram| && w[k] == ram[w[k - 1]].parent && ram[w[k]].dir
                          && ram[w[k]].path < ram[w[k - 1]].path)
    decreases k
  {
    if k > 0 && i != 0 {
      assert HasParent(ram, i);
      WayUpStep(ram, nram, path, ram[i].parent, k - 1);
    }
  }

  /** The way up never comes to the same entry twice. */
  lemma {:induction false} NoCycle(ram: seq<Ram>, nram: nat, path: nat, i: nat, j: nat, k: nat)
    requires Tree(ram, nram, path) && i < |ram| && ram[i].busy
    requires j < k < |WayUp(ram, nram, path, i)|
    ensures var w := WayUp(ram, nram, path, i);
            w[j] < |ram| && w[k] < |ram| && ram[w[k]].path < ram[w[j]].path && w[j] != w[k]
    decreases k
  {
    hide Tree, WayUp;
    WayUpStep(ram, nram, path, i, k);
    if j < k - 1 {
      NoCycle(ram, nram, path, i, j, k - 1);
    }
  }

  /** A new file in slot i, a free one, under the directory d. */
  lemma {:induction false} TreeCreate(ram: seq<Ram>, nram: nat, path: nat, i: nat, r: Ram)
    requires Tree(ram, nram, path) && i < |ram| && !ram[i].busy
    requires r.busy && r.parent < |ram| && ram[r.parent].busy && ram[r.parent].dir && r.path == path + 1
    requires forall j :: 0 <= j < |ram| && IsChild(ram, j, r.parent) ==> ram[j].name != r.name
    ensures Tree(ram[i := r], if i >= nram then i + 1 else nram, path + 1)
  {
    var t := ram[i := r];
    forall j | 1 <= j < |t| && t[j].busy
      ensures HasParent(t, j)
    {
      if j != i {
        assert HasParent(ram, j);
      }
    }
    forall j, k | 0 <= j < |t| && 0 <= k < |t|
      ensures !Twins(t, j, k)
    {
      assert j != i && k != i ==> !Twins(ram, j, k);
      assert j != i && t[j].busy ==> (IsChild(ram, j, r.parent) <==> t[j].parent == r.parent);
      assert k != i && t[k].busy ==> (IsChild(ram, k, r.parent) <==> t[k].parent == r.parent);
    }
  }

  /** An entry without children removed, if it is not the root. */
  function Removed(r: Ram): Ram {
    r.(busy := false, data := [], parent := 0, dir := false, path := 0, vers := 0, name := [])
  }

  lemma {:induction false} TreeRemove(ram: seq<Ram>, nram: nat, path: nat, i: nat)
    requires Tree(ram, nram, path) && 0 < i < |ram|
    requires forall j :: 0 <= j < |ram| ==> !IsChild(ram, j, i)
    ensures Tree(ram[i := Removed(ram[i])], nram, path)
  {
    var t := ram[i := Removed(ram[i])];
    forall j | 1 <= j < |t| && t[j].busy
      ensures HasParent(t, j)
    {
      assert HasParent(ram, j) && !IsChild(ram, j, i);
    }
    forall j, k | 0 <= j < |t| && 0 <= k < |t|
      ensures !Twins(t, j, k)
    {
      assert !Twins(ram, j, k);
    }
  }

  /** Only directories have children. */
  lemma {:induction false} FilesHaveNoChildren(ram: seq<Ram>, nram: nat, path: nat, i: nat)
    requires Tree(ram, nram, path) && 0 < i < |ram| && !ram[i].dir
    ensures forall j :: 0 <= j < |ram| ==> !IsChild(ram, j, i)
  {
    forall j | 0 <= j < |ram|
      ensures !IsChild(ram, j, i)
    {
      if j > 0 && ram[j].busy {
        assert HasParent(ram, j);
      }
    }
  }

  /** An entry changed in what is not part of the tree, or renamed to a name none of its siblings has. */
  ghost predicate SamePlace(r: Ram, s: Ram) {
    r.busy == s.busy && r.parent == s.parent && r.dir == s.dir && r.path == s.path
  }

  lemma {:induction false} TreeChange(ram: seq<Ram>, nram: nat, path: nat, i: nat, r: Ram)
    requires Tree(ram, nram, path) && i < |ram| && SamePlace(ram[i], r)
    requires r.name != ram[i].name ==>
      forall j :: 0 <= j < |ram| && IsChild(ram, j, r.parent) ==> ram[j].name != r.name
    ensures Tree(ram[i := r], nram, path)
  {
    var t := ram[i := r];
    forall j | 1 <= j < |t| && t[j].busy
      ensures HasParent(t, j)
    {
      assert HasParent(ram, j);
    }
    forall j, k | 0 <= j < |t| && 0 <= k < |t|
      ensures !Twins(t, j, k)
    {
      ChangeNoTwins(ram, i, r, j, k);
    }
  }

  lemma {:induction false} ChangeNoTwins(ram: seq<Ram>, i: nat, r: Ram, j: nat, k: nat)
    requires i < |ram| && j < |ram| && k < |ram| && SamePlace(ram[i], r) && !Twins(ram, j, k)
    requires r.name != ram[i].name ==>
      forall j :: 0 <= j < |ram| && IsChild(ram, j, r.parent) ==> ram[j].name != r.name
    ensures !Twins(ram[i := r], j, k)
  {
    assert ram[j].busy && ram[j].parent == r.parent ==> IsChild(ram, j, r.parent);
    assert ram[k].busy && ram[k].parent == r.parent ==> IsChild(ram, k, r.parent);
  }

  /** The root is its own child, so it is never an empty directory. */
  lemma {:induction false} RootNotEmpty(ram: seq<Ram>, nram: nat, path: nat)
    requires Tree(ram, nram, path)
    ensures IsChild(ram, 0, 0)
  {
  }

  // ----- fids -----

  /** A fid in use: the slot it stands for, and whether it is open for I/O. */
  datatype Fid = Fid(open: bool, rclose: bool, user: Name, ram: nat)

  ghost function OpenOn(fids: map<nat, Fid>, i: nat): set<nat> {
    set f | f in fids && fids[f].open && fids[f].ram == i
  }

  /** Each slot counts the fids open on it, whether or not its file is the one they opened. */
  ghost predicate Counts(ram: seq<Ram>, fids: map<nat, Fid>) {
    && (forall f :: f in fids ==> fids[f].ram < |ram|)
    && (forall i :: 0 <= i < |ram| ==> ram[i].open == |OpenOn(fids, i)|)
  }

  lemma {:induction false} CountsSame(ram: seq<Ram>, t: seq<Ram>, fids: map<nat, Fid>)
    requires Counts(ram, fids) && |t| == |ram| && forall i :: 0 <= i < |ram| ==> t[i].open == ram[i].open
    ensures Counts(t, fids)
  {
  }

  /** A fid that is not open may come, go or change. */
  lemma {:induction false} CountsClosed(ram: seq<Ram>, fids: map<nat, Fid>, fids': map<nat, Fid>, f: nat)
    requires Counts(ram, fids) && fids' - {f} == fids - {f}
    requires f in fids ==> !fids[f].open
    requires f in fids' ==> !fids'[f].open && fids'[f].ram < |ram|
    ensures Counts(ram, fids')
  {
    CountsExactly(ram, fids, fids', f);
  }

  lemma {:induction false} SameFid(fids: map<nat, Fid>, fids': map<nat, Fid>, f: nat, g: nat)
    requires fids' - {f} == fids - {f} && g != f
    ensures g in fids <==> g in fids'
    ensures g in fids ==> fids'[g] == fids[g]
  {
    assert g in fids <==> g in fids - {f};
    assert g in fids' <==> g in fids' - {f};
    if g in fids {
      assert (fids - {f})[g] == fids[g] && (fids' - {f})[g] == fids'[g];
    }
  }

  lemma {:induction false} OpenOnOthers(fids: map<nat, Fid>, fids': map<nat, Fid>, f: nat, i: nat)
    requires fids' - {f} == fids - {f}
    ensures OpenOn(fids', i) - {f} == OpenOn(fids, i) - {f}
  {
    forall g: nat
      ensures g in OpenOn(fids', i) - {f} <==> g in OpenOn(fids, i) - {f}
    {
      if g != f {
        SameFid(fids, fids', f, g);
      }
    }
  }

  /** Whether a fid is open on a slot. */
  ghost predicate IsOpenOn(fids: map<nat, Fid>, f: nat, i: nat) {
    f in fids && fids[f].open && fids[f].ram == i
  }

  lemma {:induction false} SizeWithout(a: set<nat>, f: nat)
    ensures |a| == |a - {f}| + if f in a then 1 else 0
  {
    assert f in a ==> a == (a - {f}) + {f};
    assert f !in a ==> a == a - {f};
  }

  lemma {:induction false} InOpenOn(fids: map<nat, Fid>, f: nat, i: nat)
    ensures f in OpenOn(fids, i) <==> IsOpenOn(fids, f, i)
  {
  }

  lemma {:induction false} OpenOnSize(fids: map<nat, Fid>, fids': map<nat, Fid>, f: nat, i: nat)
    requires fids' - {f} == fids - {f}
    ensures |OpenOn(fids', i)| == |OpenOn(fids, i)| <==> IsOpenOn(fids', f, i) == IsOpenOn(fids, f, i)
  {
    hide OpenOn, IsOpenOn;
    OpenOnOthers(fids, fids', f, i);
    InOpenOn(fids, f, i);
    InOpenOn(fids', f, i);
    SizeWithout(OpenOn(fids, i), f);
    SizeWithout(OpenOn(fids', i), f);
  }

  /** Whatever becomes of one fid, the counts stay right if and only if it is open on the same slot as before, or on none. */
  lemma {:induction false} CountsExactly(ram: seq<Ram>, fids: map<nat, Fid>, fids': map<nat, Fid>, f: nat)
    requires Counts(ram, fids) && fids' - {f} == fids - {f} && (f in fids' ==> fids'[f].ram < |ram|)
    ensures Counts(ram, fids') <==> forall i :: 0 <= i < |ram| ==> IsOpenOn(fids', f, i) == IsOpenOn(fids, f, i)
  {
    hide OpenOn;
    forall i | 0 <= i < |ram|
      ensures ram[i].open == |OpenOn(fids', i)| <==> IsOpenOn(fids', f, i) == IsOpenOn(fids, f, i)
    {
      OpenOnSize(fids, fids', f, i);
    }
    forall g | g in fids'
      ensures fids'[g].ram < |ram|
    {
      if g != f {
        SameFid(fids, fids', f, g);
      }
    }
  }

  /** A fid is opened on a slot. */
  lemma {:induction false} CountsOpen(ram: seq<Ram>, fids: map<nat, Fid>, f: nat, i: nat, rclose: bool)
    requires Counts(ram, fids) && f in fids && !fids[f].open && i < |ram|
    ensures Counts(ram[i := ram[i].(open := ram[i].open + 1)],
                   fids[f := fids[f].(open := true, rclose := rclose, ram := i)])
  {
    var t, g := ram[i := ram[i].(open := ram[i].open + 1)], fids[f := fids[f].(open := true, rclose := rclose, ram := i)];
    forall j | 0 <= j < |ram|
      ensures t[j].open == |OpenOn(g, j)|
    {
      if j == i {
        assert OpenOn(g, j) == OpenOn(fids, j) + {f} && f !in OpenOn(fids, j);
      } else {
        assert OpenOn(g, j) == OpenOn(fids, j);
      }
    }
  }

  /** An open fid is given up. */
  lemma {:induction false} CountsClose(ram: seq<Ram>, fids: map<nat, Fid>, f: nat)
    requires Counts(ram, fids) && f in fids && fids[f].open
    ensures var i := fids[f].ram;
            i < |ram| && Counts(ram[i := ram[i].(open := ram[i].open - 1)], fids - {f})
  {
    var i := fids[f].ram;
    var t, g := ram[i := ram[i].(open := ram[i].open - 1)], fids - {f};
    forall j | 0 <= j < |ram|
      ensures t[j].open == |OpenOn(g, j)|
    {
      if j == i {
        assert OpenOn(g, j) == OpenOn(fids, j) - {f} && f in OpenOn(fids, j);
      } else {
        assert OpenOn(g, j) == OpenOn(fids, j);
      }
    }
  }
}
