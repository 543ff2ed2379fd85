/**
 Directory operations (fs.c, sysfile.c): lookup, path walk, create, link and unlink on an inode
 table with reference counts, one system call at a time.
 */
module Namespace {
  import opened Links
  import opened Paths

  // Lookup as a function.

  /** The first used entry called `name` from k on; the length if there is none. */
  function Find(es: seq<Dirent>, name: string, k: nat): (r: nat)
    requires k <= |es|
    ensures k <= r <= |es|
    ensures r < |es| ==> es[r].inum != 0 && es[r].name == name
    ensures forall j :: k <= j < r && es[j].inum != 0 ==> es[j].name != name
    decreases |es| - k
  {
    if k == |es| || (es[k].inum != 0 && es[k].name == name) then k else Find(es, name, k + 1)
  }

  /** The first unused entry from k on. */
  function Unused(es: seq<Dirent>, k: nat): (r: nat)
    requires k <= |es|
    ensures k <= r <= |es| && (r < |es| ==> es[r].inum == 0) && forall j :: k <= j < r ==> es[j].inum != 0
    decreases |es| - k
  {
    if k == |es| || es[k].inum == 0 then k else Unused(es, k + 1)
  }

  /** The inode `name` stands for in directory d; 0 for none. */
  function Lookup(s: seq<Inode>, d: nat, name: string): nat
    requires d < |s|
  {
    var k := Find(s[d].entries, name, 0);
    if k < |s[d].entries| then s[d].entries[k].inum else 0
  }

  /** In directory d, `name` now stands for t, and every other name for what it stood for before. */
  ghost predicate Rebound(s: seq<Inode>, s': seq<Inode>, d: nat, name: string, t: nat) {
    && d < |s| == |s'| && Lookup(s', d, name) == t
    && forall n: string :: n != name ==> Lookup(s', d, n) == Lookup(s, d, n)
  }

  /** Writing slot k, when no other slot has its name, rebinds that name alone. */
  lemma PutRebinds(s: seq<Inode>, s': seq<Inode>, d: nat, k: nat, e: Dirent, name: string)
    requires d < |s| == |s'| && k <= |s[d].entries| && s'[d].entries == Put(s[d].entries, k, e)
    requires e.inum != 0 ==> e.name == name
    requires k < |s[d].entries| && s[d].entries[k].inum != 0 ==> s[d].entries[k].name == name
    requires forall j :: 0 <= j < |s[d].entries| && j != k && s[d].entries[j].inum != 0 ==> s[d].entries[j].name != name
    ensures Rebound(s, s', d, name, e.inum)
  {
    var es, es', c := s[d].entries, s'[d].entries, Find(s'[d].entries, name, 0);
    assert forall j :: 0 <= j < |es'| && j != k ==> es'[j] == es[j];
    assert e.inum != 0 ==> es'[k] == e && c <= k;
    forall n: string | n != name ensures Lookup(s', d, n) == Lookup(s, d, n) {
      var a, b := Find(s[d].entries, n, 0), Find(s'[d].entries, n, 0);
      assert a < |s[d].entries| ==> a != k && s'[d].entries[a] == s[d].entries[a];
      assert b < |s'[d].entries| ==> b != k && s'[d].entries[b] == s[d].entries[b];
    }
  }

  /** The inode a list of names leads to; 0 for none. */
  function Resolve(s: seq<Inode>, i: nat, names: seq<string>): nat
    requires i < |s|
    decreases |names|
  {
    if names == [] then i
    else if s[i].typ != T_DIR then 0
    else
      var t := Lookup(s, i, names[0]);
      if 0 < t < |s| then Resolve(s, t, names[1..]) else 0
  }

  /** The directory that holds, or would hold, the last name. */
  function ResolveParent(s: seq<Inode>, i: nat, names: seq<string>): nat
    requires i < |s|
  {
    if names == [] then 0
    else
      var d := Resolve(s, i, names[..|names| - 1]);
      if 0 < d < |s| && s[d].typ == T_DIR then d else 0
  }

  lemma ResolveParentStep(s: seq<Inode>, i: nat, names: seq<string>)
    requires i < |s| && |names| >= 2
    ensures ResolveParent(s, i, names) ==
            if s[i].typ != T_DIR || !(0 < Lookup(s, i, names[0]) < |s|) then 0
            else ResolveParent(s, Lookup(s, i, names[0]), names[1..])
  {
    assert names[..|names| - 1][0] == names[0];
    assert names[..|names| - 1][1..] == names[1..][..|names[1..]| - 1];
  }

  /** Where namex() ends. */
  function WalkTo(s: seq<Inode>, i: nat, names: seq<string>, parent: bool): nat
    requires i < |s|
  {
    if parent then ResolveParent(s, i, names) else Resolve(s, i, names)
  }

  /** One element of the walk. */
  lemma WalkStep(s: seq<Inode>, i: nat, names: seq<string>, parent: bool)
    requires 0 < i < |s|
    ensures names == [] ==> WalkTo(s, i, names, parent) == if parent then 0 else i
    ensures names != [] && s[i].typ != T_DIR ==> WalkTo(s, i, names, parent) == 0
    ensures |names| == 1 && s[i].typ == T_DIR && parent ==> WalkTo(s, i, names, parent) == i
    ensures names != [] && s[i].typ == T_DIR && (parent ==> |names| >= 2) ==>
              var t := Lookup(s, i, names[0]);
              WalkTo(s, i, names, parent) == if 0 < t < |s| then WalkTo(s, t, names[1..], parent) else 0
  {
    hide Lookup;
    if parent && |names| >= 2 {
      ResolveParentStep(s, i, names);
    }
  }

  /** An inode a path walk may stand on without freeing it when it moves on. */
  ghost predicate Good(s: seq<Inode>, i: nat) {
    0 < i < |s| && s[i].typ != 0 && s[i].nlink != 0 && (s[i].typ == T_DIR ==> s[i].nlink > 0)
  }

  ghost predicate GoodDir(s: seq<Inode>, d: nat)
    requires d < |s|
  {
    forall k :: 0 <= k < |s[d].entries| && s[d].entries[k].inum != 0 ==> Good(s, s[d].entries[k].inum)
  }

  /** Live entries name inodes that are linked: true whenever Inv holds, and while a count is off. */
  ghost predicate WalkOk(s: seq<Inode>) {
    && |s| > ROOTINO && s[0].typ == 0 && Good(s, ROOTINO)
    && forall d: nat :: LinkedDir(s, d) ==> GoodDir(s, d)
  }

  lemma InvWalkOk(s: seq<Inode>)
    requires Inv(s)
    ensures WalkOk(s)
  {
    hide NameSet, Subdirs;
    forall d: nat, k | LinkedDir(s, d) && 0 <= k < |s[d].entries| && s[d].entries[k].inum != 0
      ensures Good(s, s[d].entries[k].inum)
    {
      assert DirOk(s, d);
      if k > 0 {
        NamedIsLinked(s, d, k);
      }
    }
  }

  datatype Answer = Ok | Minus1 | Panicked

  /**
   What create() does for a new name: the first free inode, named in the first unused entry; or it panics
   for want of either.
   */
  ghost predicate MadeNew(s: seq<Inode>, s': seq<Inode>, d: nat, name: string, typ: int, r: Answer, i: nat)
    requires d < |s|
  {
    if r == Ok then
      && 0 < i < |s| && i != d && s[i].typ == 0 && (forall j :: 0 < j < i ==> s[j].typ != 0)
      && s' == Created(s, d, Unused(s[d].entries, 0), i, name, typ)
      && s'[i].typ == typ && Rebound(s, s', d, name, i) && FreeInodes(s') == FreeInodes(s) - {i}
    else
      (forall j :: 0 < j < |s| ==> s[j].typ != 0) || Unused(s[d].entries, 0) == MAXENT
  }

  lemma CreatedIsNew(s: seq<Inode>, d: nat, i: nat, name: string, typ: int)
    requires Inv(s) && d < |s| && FreeSlot(s, d, Unused(s[d].entries, 0), name)
    requires 0 < i < |s| && s[i].typ == 0 && typ != 0
    ensures var s' := Created(s, d, Unused(s[d].entries, 0), i, name, typ);
            && |s'| == |s| && s'[i].typ == typ && Rebound(s, s', d, name, i)
            && FreeInodes(s') == FreeInodes(s) - {i}
  {
    hide NameSet, Subdirs, DirOk, Created, Inv, Find, Lookup, Rebound;
    var k := Unused(s[d].entries, 0);
    CreatedAt(s, d, k, i, name, typ);
    PutRebinds(s, Created(s, d, k, i, name, typ), d, k, Dirent(i, name), name);
    FreeInodesAt(s, Created(s, d, k, i, name, typ), i);
  }

  lemma LinkedRebinds(s: seq<Inode>, i: nat, d: nat, name: string)
    requires Linkable(s, i) && d < |s| && FreeSlot(s, d, Unused(s[d].entries, 0), name)
    ensures Rebound(s, Linked(s, i, d, Unused(s[d].entries, 0), name), d, name, i)
    ensures FreeInodes(Linked(s, i, d, Unused(s[d].entries, 0), name)) == FreeInodes(s)
  {
    hide Find, Lookup, Rebound;
    var k := Unused(s[d].entries, 0);
    PutRebinds(s, Linked(s, i, d, k, name), d, k, Dirent(i, name), name);
  }

  /** The parent between the two halves of create(). */
  lemma FreshDir(s: seq<Inode>, d: nat, i: nat, name: string, typ: int)
    requires Inv(s) && LinkedDir(s, d) && 0 < i < |s| && s[i].typ == 0 && typ != 0
    ensures var s' := Fresh(s, d, i, typ);
            && |s'| == |s| && s'[d].typ == T_DIR && s'[d].entries == s[d].entries && |s[d].entries| <= MAXENT
            && s'[d].nlink > 0 && GoodDir(s', d) && Lookup(s', d, name) == Lookup(s, d, name)
  {
    hide NameSet, Subdirs;
    DirCountBound(s, d);
    assert DirOk(s, d);
    InvWalkOk(s);
    assert GoodDir(s, d);
  }

  /** unlink of a name succeeds: not a dot, present, and a file or an empty directory. */
  ghost predicate CanUnlink(s: seq<Inode>, d: nat, name: string)
    requires d < |s|
  {
    name != "." && name != ".." && Lookup(s, d, name) != 0 && Unlinkable(s, d, Find(s[d].entries, name, 0))
  }

  /** After unlink: the inode is freed with its last name, unless it is in use. */
  function AfterUnlink(s: seq<Inode>, refs: seq<nat>, d: nat, k: nat): seq<Inode>
    requires d < |s| == |refs| && k < |s[d].entries| && s[d].entries[k].inum < |s|
  {
    var t := s[d].entries[k].inum;
    var u := Unlinked(s, d, k);
    if refs[t] == 0 && u[t].nlink == 0 then Freed(u, t) else u
  }

  /** What unlink leaves: the name is gone, and an inode is freed if that was its last name and nobody holds it. */
  ghost predicate NameGone(s: seq<Inode>, s': seq<Inode>, refs: seq<nat>, d: nat, name: string)
    requires d < |s| == |refs| == |s'|
  {
    var t := Lookup(s, d, name);
    && 0 < t < |s| && Rebound(s, s', d, name, 0)
    && var last := refs[t] == 0 && |NameSet(s, t)| == 1;
       FreeInodes(s') == FreeInodes(s) + (if last then {t} else {}) &&
       |FreeInodes(s')| == |FreeInodes(s)| + if last then 1 else 0
  }

  /** A name occurs once, so clearing its slot removes it. */
  lemma ClearedLookup(s: seq<Inode>, d: nat, name: string)
    requires Inv(s) && LinkedDir(s, d) && Lookup(s, d, name) != 0
    ensures var k := Find(s[d].entries, name, 0);
            k < |s[d].entries| && forall j :: 0 <= j < |s[d].entries| && j != k && s[d].entries[j].inum != 0 ==>
                                                s[d].entries[j].name != name
  {
    hide NameSet, Subdirs;
    assert DirOk(s, d);
  }

  lemma NameIsGone(s: seq<Inode>, refs: seq<nat>, d: nat, name: string)
    requires Inv(s) && |refs| == |s| && LinkedDir(s, d) && CanUnlink(s, d, name)
    ensures NameGone(s, AfterUnlink(s, refs, d, Find(s[d].entries, name, 0)), refs, d, name)
  {
    hide NameSet, Subdirs, DirOk, Unlinked, Inv, Unlinkable, Rebound;
    var k, t := Find(s[d].entries, name, 0), Lookup(s, d, name);
    FoundSlot(s, d, name);
    ClearedLookup(s, d, name);
    UnlinkedAt(s, d, k);
    CountAt(s, t);
    var s' := AfterUnlink(s, refs, d, k);
    PutRebinds(s, s', d, k, NONE, name);
    FreeInodesAt(s, s', t);
    assert t !in FreeInodes(s);
  }

  lemma CountAt(s: seq<Inode>, t: nat)
    requires Inv(s) && t < |s| && s[t].typ != 0
    ensures s[t].nlink == |NameSet(s, t)|
  {
    assert CountOk(s, t);
  }

  /** The directory and the last element of a path. */
  function Parent(s: seq<Inode>, path: string, cwd: nat): nat
    requires Start(path, cwd) < |s|
  {
    ResolveParent(s, Start(path, cwd), Elems(path))
  }

  function Last(path: string): string {
    if Elems(path) == [] then "" else Elems(path)[|Elems(path)| - 1]
  }

  /** What a name in a directory stands for, as far as unlink is concerned. */
  lemma FoundSlot(s: seq<Inode>, d: nat, name: string)
    requires Inv(s) && LinkedDir(s, d) && Lookup(s, d, name) != 0 && name != "." && name != ".."
    ensures var k, t := Find(s[d].entries, name, 0), Lookup(s, d, name);
            && 2 <= k < |s[d].entries| && s[d].entries[k].inum == t
            && t < |s| && s[t].typ != 0 && s[t].nlink >= 1 && (s[t].typ == T_DIR ==> |s[t].entries| >= 2)
  {
    hide NameSet, Subdirs;
    assert DirOk(s, d);
    NamedIsLinked(s, d, Find(s[d].entries, name, 0));
    assert EntryOk(s, d, Find(s[d].entries, name, 0));
  }

  lemma CountIsShort(s: seq<Inode>, i: nat)
    requires Inv(s) && Linkable(s, i) && Good(s, i)
    ensures 1 <= s[i].nlink <= SHRT_MAX && Less(More(s, i), i) == s && More(s, i)[i].nlink != 0
  {
    assert CountOk(s, i);
  }

  /** One link more changes nothing for a walk. */
  lemma MoreWalkOk(s: seq<Inode>, i: nat, path: string, cwd: nat)
    requires Inv(s) && Linkable(s, i) && 1 <= s[i].nlink <= SHRT_MAX && Good(s, Start(path, cwd))
    ensures WalkOk(More(s, i)) && Good(More(s, i), Start(path, cwd))
    ensures Parent(More(s, i), path, cwd) == Parent(s, path, cwd)
  {
    hide Inv;
    InvWalkOk(s);
    forall d: nat | LinkedDir(More(s, i), d) ensures GoodDir(More(s, i), d) {
      assert LinkedDir(s, d) && GoodDir(s, d);
    }
    if Elems(path) != [] {
      MoreResolve(s, i, Start(path, cwd), Elems(path)[..|Elems(path)| - 1]);
    }
  }

  lemma {:induction false} MoreResolve(s: seq<Inode>, i: nat, j: nat, names: seq<string>)
    requires i < |s| && j < |s|
    ensures Resolve(More(s, i), j, names) == Resolve(s, j, names)
    decreases |names|
  {
    if names != [] {
      assert Lookup(More(s, i), j, names[0]) == Lookup(s, j, names[0]);
      if 0 < Lookup(s, j, names[0]) < |s| {
        MoreResolve(s, i, Lookup(s, j, names[0]), names[1..]);
      }
    }
  }

  /** The directory dirlink() sees in sys_link(). */
  lemma FreeOrTaken(s: seq<Inode>, i: nat, d: nat, name: string)
    requires Inv(s) && Linkable(s, i) && 1 <= s[i].nlink <= SHRT_MAX && WalkOk(More(s, i))
    requires Good(More(s, i), d) && s[d].typ == T_DIR
    ensures LinkedDir(s, d) && i != d && GoodDir(More(s, i), d) && |s[d].entries| <= MAXENT
    ensures Lookup(More(s, i), d, name) == Lookup(s, d, name)
    ensures Lookup(s, d, name) == 0 && Unused(s[d].entries, 0) < MAXENT ==>
              FreeSlot(s, d, Unused(s[d].entries, 0), name)
  {
    assert LinkedDir(More(s, i), d);
    assert DirOk(s, d);
    if Lookup(s, d, name) == 0 {
      FreeUse(s, d, name);
    }
  }

  lemma RootInv(s: seq<Inode>)
    requires ROOTINO < |s| <= NINUM && s[ROOTINO] == NewDir(ROOTINO, ROOTINO)
    requires forall i :: 0 <= i < |s| && i != ROOTINO ==> s[i].typ == 0
    ensures Inv(s)
  {
    forall d, k ensures Names(s, d, k, ROOTINO) <==> d == ROOTINO && k == 1 {
    }
    assert NameSet(s, ROOTINO) == {Place(ROOTINO, 1)} by {
      InSet(s, ROOTINO, 1, ROOTINO);
    }
    assert Subdirs(s, ROOTINO) == {};
  }

  /** One reference less. */
  function Released(refs: seq<nat>, d: nat): (r: seq<nat>)
    requires d < |refs| && refs[d] > 0
    ensures |r| == |refs|
  {
    refs[d := refs[d] - 1]
  }

  /** The slot dirlink() chooses is free for the name. */
  lemma FreeUse(s: seq<Inode>, d: nat, name: string)
    requires Inv(s) && LinkedDir(s, d) && Lookup(s, d, name) == 0
    ensures Unused(s[d].entries, 0) < MAXENT ==> FreeSlot(s, d, Unused(s[d].entries, 0), name)
    ensures Unused(s[d].entries, 0) <= MAXENT
  {
    assert DirOk(s, d);
    NamedIsLinked(s, d, 1);
  }

  /** Where a path starts: the root, or the current directory. */
  function Start(path: string, cwd: nat): nat {
    if path != "" && path[0] == '/' then ROOTINO else cwd
  }

  lemma {:induction false} ResolveJoin(s: seq<Inode>, i: nat, xs: seq<string>, ys: seq<string>)
    requires 0 < i < |s|
    ensures var d := Resolve(s, i, xs);
            d < |s| && Resolve(s, i, xs + ys) == if d == 0 then 0 else Resolve(s, d, ys)
    decreases |xs|
  {
    if xs == [] {
      assert xs + ys == ys;
    } else {
      assert (xs + ys)[1..] == xs[1..] + ys;
      var t := Lookup(s, i, xs[0]);
      if 0 < t < |s| {
        ResolveJoin(s, t, xs[1..], ys);
      }
    }
  }

  /**
   a/b leads where b leads from what a leads to, /b where b leads from the root, and a path without a slash
   where it leads from cwd.
   */
  lemma PathJoin(s: seq<Inode>, a: string, b: string, cwd: nat)
    requires ROOTINO < |s| && 0 < cwd < |s|
    ensures var d := if a == "" then ROOTINO else Resolve(s, Start(a, cwd), Elems(a));
            && d < |s|
            && Resolve(s, Start(a + "/" + b, cwd), Elems(a + "/" + b)) == if d == 0 then 0 else Resolve(s, d, Elems(b))
    ensures '/' !in a ==> Resolve(s, Start(a, cwd), Elems(a)) == Resolve(s, cwd, Elems(a))
  {
    hide Elems, Resolve;
    ElemsJoin(a, b);
    assert a != "" ==> (a + "/" + b)[0] == a[0];
    if a == "" {
      NoElems();
      assert Elems(a) + Elems(b) == Elems(b);
    } else {
      ResolveJoin(s, Start(a, cwd), Elems(a), Elems(b));
    }
  }

  lemma NoElems()
    ensures Elems("") == []
  {
  }

  class Namespace {
    var inodes: seq<Inode>
    /** In-memory references to each inode, and whether its cached copy has been read. */
    var refs: seq<nat>
    var valid: seq<bool>

    ghost predicate Tables()
      reads this
    {
      |refs| == |valid| == |inodes|
    }

    ghost predicate Valid()
      reads this
    {
      Tables() && Inv(inodes) && NoOrphans(inodes, refs, valid)
    }

    /** A new file system: the root directory alone, both its dots naming itself. */
    constructor (ninodes: nat)
      requires ROOTINO < ninodes <= NINUM
      ensures Valid() && |inodes| == ninodes && inodes[ROOTINO] == NewDir(ROOTINO, ROOTINO)
      ensures forall i :: 0 <= i < ninodes && i != ROOTINO ==> inodes[i].typ == 0
      ensures forall i :: 0 <= i < ninodes ==> refs[i] == 0
    {
      var none := Inode(0, 0, []);
      inodes := seq(ninodes, _ => none)[ROOTINO := NewDir(ROOTINO, ROOTINO)];
      refs, valid := seq(ninodes, _ => 0), seq(ninodes, _ => false);
      new;
      RootInv(inodes);
    }

    method Iget(i: nat)
      requires Tables() && i < |inodes|
      modifies this`refs, this`valid
      ensures Tables() && refs == old(refs)[i := old(refs)[i] + 1]
      ensures valid == if old(refs)[i] == 0 then old(valid)[i := false] else old(valid)
      ensures old(NoOrphans(inodes, refs, valid)) ==> NoOrphans(inodes, refs, valid)
    {
      if refs[i] == 0 {
        valid := valid[i := false];
      }
      refs := refs[i := refs[i] + 1];
    }

    /** ilock(): reads the inode in; a free one is the panic "ilock: no type". */
    method Ilock(i: nat)
      requires Tables() && i < |inodes| && refs[i] > 0 && inodes[i].typ != 0
      modifies this`valid
      ensures Tables() && valid == old(valid)[i := true]
      ensures old(NoOrphans(inodes, refs, valid)) ==> NoOrphans(inodes, refs, valid)
    {
      valid := valid[i := true];
    }

    /** iput(): drops a reference; frees the inode with its last reference if it has no links. */
    method Iput(i: nat)
      requires Tables() && i < |inodes| && refs[i] > 0
      modifies this`inodes, this`refs, this`valid
      ensures Tables() && refs == old(refs)[i := old(refs)[i] - 1]
      ensures forall j :: 0 <= j < |valid| && j != i ==> valid[j] == old(valid)[j]
      ensures inodes ==
              if old(refs)[i] == 1 && old(valid)[i] && old(inodes)[i].nlink == 0 then Freed(old(inodes), i)
              else old(inodes)
      ensures old(NoOrphans(inodes, refs, valid)) ==> NoOrphans(inodes, refs, valid)
    {
      if refs[i] == 1 && valid[i] && inodes[i].nlink == 0 {
        inodes := inodes[i := Inode(0, 0, [])];
        valid := valid[i := false];
      }
      refs := refs[i := refs[i] - 1];
    }

    /** The iput() of a file that is closed, between system calls: it frees nothing that still has a name. */
    method Close(i: nat)
      requires Valid() && i < |inodes| && refs[i] > 0 && inodes[i].typ != 0
      modifies this`inodes, this`refs, this`valid
      ensures Valid() && refs == old(refs)[i := old(refs)[i] - 1]
      ensures var last := old(refs)[i] == 1 && NameSet(old(inodes), i) == {};
              && inodes == (if last then Freed(old(inodes), i) else old(inodes))
              && FreeInodes(inodes) == old(FreeInodes(inodes)) + (if last then {i} else {})
              && |FreeInodes(inodes)| == |old(FreeInodes(inodes))| + if last then 1 else 0
    {
      hide NameSet, Subdirs, DirOk;
      CountAt(inodes, i);
      if inodes[i].nlink == 0 {
        FreedInv(inodes, i);
        FreeInodesAt(inodes, Freed(inodes, i), i);
        assert i !in FreeInodes(inodes);
      }
      Iput(i);
    }

    /** dirlookup(): the first entry of that name, with a reference to its inode. */
    method Dirlookup(d: nat, name: string) returns (ip: nat, k: nat)
      requires Tables() && d < |inodes| && inodes[d].typ == T_DIR
      requires forall j :: 0 <= j < |inodes[d].entries| ==> inodes[d].entries[j].inum < |inodes|
      modifies this`refs, this`valid
      ensures Tables() && k == Find(inodes[d].entries, name, 0) && ip == Lookup(inodes, d, name)
      ensures ip != 0 <==> k < |inodes[d].entries|
      ensures refs == if ip == 0 then old(refs) else old(refs)[ip := old(refs)[ip] + 1]
      ensures old(NoOrphans(inodes, refs, valid)) ==> NoOrphans(inodes, refs, valid)
    {
      k := 0;
      while k < |inodes[d].entries|
        invariant 0 <= k <= |inodes[d].entries| && Find(inodes[d].entries, name, 0) == Find(inodes[d].entries, name, k)
        invariant refs == old(refs) && valid == old(valid)
      {
        if inodes[d].entries[k].inum != 0 && inodes[d].entries[k].name == name {
          ip := inodes[d].entries[k].inum;
          Iget(ip);
          return;
        }
        k := k + 1;
      }
      ip := 0;
    }

    /** dirlink(): the name goes to the first unused entry; a directory of maximal size is a panic. */
    method Dirlink(d: nat, name: string, inum: nat) returns (r: Answer)
      requires Tables() && d < |inodes| && inodes[d].typ == T_DIR && |inodes[d].entries| <= MAXENT && GoodDir(inodes, d)
      modifies this`inodes, this`refs, this`valid
      ensures Tables() && refs == old(refs)
      ensures r == Minus1 <==> Lookup(old(inodes), d, name) != 0
      ensures r == Panicked <==> Lookup(old(inodes), d, name) == 0 && Unused(old(inodes)[d].entries, 0) == MAXENT
      ensures inodes ==
              if r == Ok then WithEntry(old(inodes), d, Unused(old(inodes)[d].entries, 0), Dirent(inum, name))
              else old(inodes)
      ensures old(NoOrphans(inodes, refs, valid)) ==> NoOrphans(inodes, refs, valid)
    {
      var ip, k := Dirlookup(d, name);
      if ip != 0 {
        Iput(ip);
        return Minus1;
      }
      k := 0;
      while k < |inodes[d].entries|
        invariant 0 <= k <= |inodes[d].entries| && Unused(inodes[d].entries, 0) == Unused(inodes[d].entries, k)
        invariant inodes == old(inodes) && refs == old(refs) && Tables()
      {
        if inodes[d].entries[k].inum == 0 {
          break;
        }
        k := k + 1;
      }
      if k == MAXENT {
        return Panicked;
      }
      inodes := WithEntry(inodes, d, k, Dirent(inum, name));
      r := Ok;
    }

    /** isdirempty(): looks behind the two dots. */
    method IsDirEmpty(d: nat) returns (b: bool)
      requires d < |inodes| && |inodes[d].entries| >= 2
      ensures b <==> EmptyDir(inodes, d)
    {
      var k := 2;
      while k < |inodes[d].entries|
        invariant 2 <= k <= |inodes[d].entries|
        invariant forall j :: 2 <= j < k ==> inodes[d].entries[j].inum == 0
      {
        if inodes[d].entries[k].inum != 0 {
          return false;
        }
        k := k + 1;
      }
      b := true;
    }

    /** One turn of namex()'s loop: the reference moves from directory ip to what the name stands for. */
    method Enter(ip: nat, name: string) returns (next: nat)
      requires Tables() && WalkOk(inodes) && LinkedDir(inodes, ip) && refs[ip] > 0
      modifies this`inodes, this`refs, this`valid
      ensures Tables() && inodes == old(inodes)
      ensures next == Lookup(inodes, ip, name) && (next != 0 ==> Good(inodes, next))
      ensures refs ==
              if next == 0 then Released(old(refs), ip)
              else Released(old(refs), ip)[next := Released(old(refs), ip)[next] + 1]
      ensures old(NoOrphans(inodes, refs, valid)) ==> NoOrphans(inodes, refs, valid)
    {
      assert GoodDir(inodes, ip);
      var k;
      next, k := Dirlookup(ip, name);
      Iput(ip);
    }

    /**
     namex(): from a directory that is still linked, the walk frees nothing, changes no inode and
     ends where the path's elements lead, with one more reference to that inode.
     */
    method Namex(path: string, parent: bool, cwd: nat) returns (r: nat, name: string)
      requires Tables() && WalkOk(inodes) && Good(inodes, Start(path, cwd))
      modifies this`inodes, this`refs, this`valid
      ensures Tables() && inodes == old(inodes)
      ensures r == WalkTo(inodes, Start(path, cwd), Elems(path), parent)
      ensures r == WalkTo(inodes, if path != "" && path[0] == '/' then ROOTINO else cwd, Elems(path), parent)
      ensures r != 0 ==> Good(inodes, r) && (parent ==> Elems(path) != [] && name == Elems(path)[|Elems(path)| - 1])
      ensures refs == if r == 0 then old(refs) else old(refs)[r := old(refs)[r] + 1]
      ensures old(NoOrphans(inodes, refs, valid)) ==> NoOrphans(inodes, refs, valid)
    {
      hide Elems, Find, Lookup, WalkOk, Resolve, ResolveParent, WalkTo, NoOrphans;
      var ip, rest := Start(path, cwd), path;
      Iget(ip);
      name := "";
      while true
        invariant Tables() && inodes == old(inodes) && Good(inodes, ip) && refs == old(refs)[ip := old(refs)[ip] + 1]
        invariant WalkTo(inodes, Start(path, cwd), Elems(path), parent) == WalkTo(inodes, ip, Elems(rest), parent)
        invariant Elems(rest) != [] ==>
                    Elems(path) != [] && Elems(path)[|Elems(path)| - 1] == Elems(rest)[|Elems(rest)| - 1]
        invariant parent && rest != path ==> Elems(rest) != []
        invariant old(NoOrphans(inodes, refs, valid)) ==> NoOrphans(inodes, refs, valid)
        decreases |rest|
      {
        var found, elem, after := SkipElem(rest);
        WalkStep(inodes, ip, Elems(rest), parent);
        if !found {
          break;
        }
        name := elem;
        Ilock(ip);
        if inodes[ip].typ != T_DIR {
          Iput(ip);
          return 0, name;
        }
        if parent && after == "" {
          return ip, name;
        }
        var next := Enter(ip, name);
        if next == 0 {
          return 0, name;
        }
        ip, rest := next, after;
      }
      if parent {
        Iput(ip);
        return 0, name;
      }
      r := ip;
    }

    /** ialloc(): the first free inode; 0 where the source panics. */
    method Ialloc(typ: int) returns (i: nat)
      requires Tables() && |inodes| > 0
      modifies this`inodes, this`refs, this`valid
      ensures Tables()
      ensures i == 0 ==> inodes == old(inodes) && refs == old(refs)
      ensures i == 0 ==> forall j :: 0 < j < |inodes| ==> inodes[j].typ != 0
      ensures i != 0 ==>
                && i < |old(inodes)| && old(inodes)[i].typ == 0 && (forall j :: 0 < j < i ==> old(inodes)[j].typ != 0)
                && inodes == old(inodes)[i := Inode(typ, 0, [])] && refs == old(refs)[i := old(refs)[i] + 1]
      ensures old(NoOrphans(inodes, refs, valid)) && i != 0 ==> NoOrphans(inodes, refs, valid[i := true])
    {
      i := 1;
      while i < |inodes|
        invariant 0 < i && inodes == old(inodes) && refs == old(refs) && Tables()
        invariant forall j :: 0 < j < i && j < |inodes| ==> inodes[j].typ != 0
      {
        if inodes[i].typ == 0 {
          inodes := inodes[i := Inode(typ, 0, [])];
          Iget(i);
          return;
        }
        i := i + 1;
      }
      i := 0;
    }

    /**
     create() once the parent is known: a new inode of that type under that name, or the file that
     already has the name.
     */
    method CreateIn(d: nat, name: string, typ: int) returns (r: Answer, i: nat)
      requires Valid() && LinkedDir(inodes, d) && refs[d] > 0 && typ != 0
      modifies this`inodes, this`refs, this`valid
      ensures Lookup(old(inodes), d, name) != 0 ==>
                var t := Lookup(old(inodes), d, name);
                t < |inodes| && inodes == old(inodes) && Valid()
                && r == (if typ == T_FILE && inodes[t].typ == T_FILE then Ok else Minus1) && (r == Ok ==> i == t)
      ensures Lookup(old(inodes), d, name) == 0 ==>
                r != Minus1 && MadeNew(old(inodes), inodes, d, name, typ, r, i) && (r == Ok ==> Valid())
      ensures r == Minus1 ==> refs == Released(old(refs), d)
      ensures r == Ok ==> 0 < i < |old(refs)| && refs == Released(old(refs), d)[i := Released(old(refs), d)[i] + 1]
    {
      hide Find, Unused, NameSet, Subdirs, Created, DirOk, MadeNew;
      InvWalkOk(inodes);
      assert GoodDir(inodes, d);
      Ilock(d);
      var ip, k := Dirlookup(d, name);
      if ip == 0 {
        r, i := MakeNew(d, name, typ);
        return;
      }
      Iput(d);
      Ilock(ip);
      if typ == T_FILE && inodes[ip].typ == T_FILE {
        return Ok, ip;
      }
      Iput(ip);
      r, i := Minus1, 0;
    }

    method MakeNew(d: nat, name: string, typ: int) returns (r: Answer, i: nat)
      requires Valid() && LinkedDir(inodes, d) && refs[d] > 0 && typ != 0 && Lookup(inodes, d, name) == 0
      modifies this`inodes, this`refs, this`valid
      ensures r != Minus1 && MadeNew(old(inodes), inodes, d, name, typ, r, i)
      ensures r == Ok ==>
                Valid() && 0 < i < |old(refs)| && refs == Released(old(refs), d)[i := Released(old(refs), d)[i] + 1]
    {
      hide Find, Unused, NameSet, Subdirs, Created, DirOk, Inv, Rebound, FreeInodes, NoOrphans;
      i := Ialloc(typ);
      if i == 0 {
        return Panicked, 0;
      }
      Ilock(i);
      FillNew(d, i, typ, old(inodes));
      FreeUse(old(inodes), d, name);
      FreshDir(old(inodes), d, i, name, typ);
      r := Dirlink(d, name, i);
      if r == Ok {
        CreatedAt(old(inodes), d, Unused(old(inodes)[d].entries, 0), i, name, typ);
        CreatedInv(old(inodes), d, Unused(old(inodes)[d].entries, 0), i, name, typ);
        CreatedIsNew(old(inodes), d, i, name, typ);
        assert inodes == Created(old(inodes), d, Unused(old(inodes)[d].entries, 0), i, name, typ);
        Iput(d);
      }
    }

    /** The system call's part of create(): from the path to the parent. */
    method Create(path: string, typ: int, cwd: nat) returns (r: Answer, i: nat)
      requires Valid() && Good(inodes, Start(path, cwd)) && typ != 0
      modifies this`inodes, this`refs, this`valid
      ensures r != Panicked ==> Valid()
      ensures var s, d := old(inodes), Parent(old(inodes), path, cwd);
              && (d == 0 ==> r == Minus1)
              && (d != 0 && Lookup(s, d, Last(path)) != 0 ==>
                    && inodes == s && Lookup(s, d, Last(path)) < |s|
                    && r == (if typ == T_FILE && s[Lookup(s, d, Last(path))].typ == T_FILE then Ok else Minus1)
                    && (r == Ok ==> i == Lookup(s, d, Last(path))))
              && (d != 0 && Lookup(s, d, Last(path)) == 0 ==>
                   r != Minus1 && MadeNew(s, inodes, d, Last(path), typ, r, i))
      ensures r == Minus1 ==> inodes == old(inodes) && refs == old(refs)
      ensures r == Ok ==> 0 < i < |old(refs)| && refs == old(refs)[i := old(refs)[i] + 1]
    {
      hide Elems, Find, Lookup, Resolve, Inv, MadeNew;
      InvWalkOk(inodes);
      assert inodes[0].typ == 0;
      var d, name := Namex(path, true, cwd);
      if d == 0 {
        return Minus1, 0;
      }
      r, i := CreateIn(d, name, typ);
    }

    /**
     sys_unlink() once the parent is known: succeeds exactly for a file or an empty directory, never
     panics, and frees the inode exactly when that was its last name and nobody else holds it.
     */
    method UnlinkIn(d: nat, name: string) returns (r: Answer)
      requires Valid() && LinkedDir(inodes, d) && refs[d] > 0
      modifies this`inodes, this`refs, this`valid
      ensures Valid() && refs == Released(old(refs), d)
      ensures r == if CanUnlink(old(inodes), d, name) then Ok else Minus1
      ensures r == Minus1 ==> inodes == old(inodes)
      ensures r == Ok ==>
                inodes == AfterUnlink(old(inodes), Released(old(refs), d), d, Find(old(inodes)[d].entries, name, 0))
      ensures r == Ok ==> NameGone(old(inodes), inodes, refs, d, name)
    {
      hide Find, NameSet, Subdirs, DirOk, Inv, AfterUnlink, NoOrphans, NameGone, FreeInodes;
      ghost var s := inodes;
      InvWalkOk(inodes);
      Ilock(d);
      if name == "." || name == ".." {
        Iput(d);
        return Minus1;
      }
      assert GoodDir(inodes, d);
      var ip, k := Dirlookup(d, name);
      if ip == 0 {
        Iput(d);
        return Minus1;
      }
      FoundSlot(s, d, name);
      Ilock(ip);
      assert inodes[ip].nlink >= 1;
      if inodes[ip].typ == T_DIR {
        var empty := IsDirEmpty(ip);
        if !empty {
          Iput(ip);
          Iput(d);
          return Minus1;
        }
      }
      Remove(d, k, ip);
      NameIsGone(s, refs, d, name);
      r := Ok;
    }

    /** The stores of sys_unlink() and its last puts: the parent's between the stores, the inode's behind them. */
    method Remove(d: nat, k: nat, ip: nat)
      requires Valid() && Unlinkable(inodes, d, k) && inodes[d].entries[k].inum == ip && refs[d] > 0 && refs[ip] > 0
      requires valid[ip]
      modifies this`inodes, this`refs, this`valid
      ensures Valid() && ip != d && refs == Released(Released(old(refs), d), ip)
      ensures inodes == AfterUnlink(old(inodes), refs, d, k)
    {
      hide NameSet, Subdirs, DirOk, Inv;
      UnlinkedAt(inodes, d, k);
      UnlinkedInv(inodes, d, k);
      NamedIsLinked(inodes, d, k);
      inodes := WithEntry(inodes, d, k, NONE);
      if inodes[ip].typ == T_DIR {
        inodes := inodes[d := inodes[d].(nlink := Short(inodes[d].nlink - 1))];
      }
      Iput(d);
      inodes := inodes[ip := inodes[ip].(nlink := Short(inodes[ip].nlink - 1))];
      assert inodes == Unlinked(old(inodes), d, k);
      if inodes[ip].nlink == 0 {
        FreedInv(inodes, ip);
      }
      Iput(ip);
    }

    method Unlink(path: string, cwd: nat) returns (r: Answer)
      requires Valid() && Good(inodes, Start(path, cwd))
      modifies this`inodes, this`refs, this`valid
      ensures Valid() && refs == old(refs)
      ensures var s, d := old(inodes), Parent(old(inodes), path, cwd);
              && r == (if d != 0 && CanUnlink(s, d, Last(path)) then Ok else Minus1)
              && inodes == (if r == Ok then AfterUnlink(s, old(refs), d, Find(s[d].entries, Last(path), 0)) else s)
              && (r == Ok ==> NameGone(s, inodes, refs, d, Last(path)))
    {
      hide Elems, Find, Lookup, Resolve, Inv, CanUnlink, AfterUnlink, NoOrphans, NameGone;
      InvWalkOk(inodes);
      assert inodes[0].typ == 0;
      var d, name := Namex(path, true, cwd);
      if d == 0 {
        return Minus1;
      }
      r := UnlinkIn(d, name);
    }

    /**
     sys_link(): the count goes up before the new name is written and down again if that fails. A
     new name keeps the counts exact if and only if the file has fewer than 32767 names.
     */
    method Link(from: string, to: string, cwd: nat) returns (r: Answer)
      requires Valid() && Good(inodes, Start(from, cwd)) && Good(inodes, Start(to, cwd))
      modifies this`inodes, this`refs, this`valid
      ensures var s, d := old(inodes), Parent(old(inodes), to, cwd);
              var i := Resolve(s, Start(from, cwd), Elems(from));
              && (r == Minus1 <==> !Linkable(s, i) || d == 0 || Lookup(s, d, Last(to)) != 0)
              && (r == Panicked <==>
                  Linkable(s, i) && d != 0 && Lookup(s, d, Last(to)) == 0 && Unused(s[d].entries, 0) == MAXENT)
              && (r == Minus1 ==> inodes == s && Valid())
              && (r == Ok ==>
                    && FreeSlot(s, d, Unused(s[d].entries, 0), Last(to))
                    && inodes == Linked(s, i, d, Unused(s[d].entries, 0), Last(to))
                    && Rebound(s, inodes, d, Last(to), i) && FreeInodes(inodes) == FreeInodes(s)
                    && (Valid() <==> s[i].nlink < SHRT_MAX))
      ensures r != Panicked ==> refs == old(refs)
    {
      hide Elems, Find, Lookup, Resolve, Inv, NameSet, Subdirs, DirOk, Unused, Rebound, FreeInodes;
      ghost var s := inodes;
      InvWalkOk(inodes);
      var i, name := Namex(from, false, cwd);
      if i == 0 {
        return Minus1;
      }
      Ilock(i);
      if inodes[i].typ == T_DIR {
        Iput(i);
        return Minus1;
      }
      r := AddName(i, to, cwd);
    }

    /** sys_link() once the inode is known. */
    method AddName(i: nat, to: string, cwd: nat) returns (r: Answer)
      requires Valid() && Linkable(inodes, i) && Good(inodes, i) && refs[i] > 0 && Good(inodes, Start(to, cwd))
      modifies this`inodes, this`refs, this`valid
      ensures var s, d := old(inodes), Parent(old(inodes), to, cwd);
              && (r == Minus1 <==> d == 0 || Lookup(s, d, Last(to)) != 0)
              && (r == Panicked <==> d != 0 && Lookup(s, d, Last(to)) == 0 && Unused(s[d].entries, 0) == MAXENT)
              && (r == Minus1 ==> inodes == s && Valid())
              && (r == Ok ==>
                    && FreeSlot(s, d, Unused(s[d].entries, 0), Last(to))
                    && inodes == Linked(s, i, d, Unused(s[d].entries, 0), Last(to))
                    && Rebound(s, inodes, d, Last(to), i) && FreeInodes(inodes) == FreeInodes(s)
                    && (Valid() <==> s[i].nlink < SHRT_MAX))
      ensures r != Panicked ==> refs == Released(old(refs), i)
    {
      hide Elems, Find, Lookup, Resolve, Inv, NameSet, Subdirs, DirOk, Unused, Rebound, FreeInodes;
      ghost var s := inodes;
      CountIsShort(s, i);
      MoreWalkOk(s, i, to, cwd);
      inodes := More(inodes, i);
      var d, name := Namex(to, true, cwd);
      if d != 0 {
        FreeOrTaken(s, i, d, name);
        r := Dirlink(d, name, i);
        if r == Panicked {
          return;
        }
        Iput(d);
        if r == Ok {
          LinkedInvIff(s, i, d, Unused(s[d].entries, 0), name);
          LinkedRebinds(s, i, d, name);
          Iput(i);
          return;
        }
      }
      inodes := Less(inodes, i);
      assert inodes == s;
      Iput(i);
      r := Minus1;
    }

    /** The middle of create(): link count, dots; the panic "create dots" is not reachable. */
    method FillNew(d: nat, i: nat, typ: int, ghost s: seq<Inode>)
      requires Tables() && Inv(s) && LinkedDir(s, d) && 0 < i < |s| && s[i].typ == 0 && typ != 0
      requires inodes == s[i := Inode(typ, 0, [])]
      modifies this`inodes, this`refs, this`valid
      ensures Tables() && refs == old(refs) && inodes == Fresh(s, d, i, typ)
      ensures old(NoOrphans(inodes, refs, valid)) ==> NoOrphans(inodes, refs, valid)
    {
      hide Inv, NameSet, Subdirs;
      DirCountBound(s, d);
      inodes := inodes[i := inodes[i].(nlink := 1)];
      if typ == T_DIR {
        inodes := inodes[d := inodes[d].(nlink := Short(inodes[d].nlink + 1))];
        var r := Dirlink(i, ".", i);
        assert r == Ok;
        r := Dirlink(i, "..", d);
        assert r == Ok;
        assert inodes[i] == NewDir(i, d);
      }
      assert inodes == Fresh(s, d, i, typ);
    }
  }
}
