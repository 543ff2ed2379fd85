/**
 Link counts (sysfile.c, fs.c): directories as sequences of entries, and what create, link and
 unlink keep about the number of names an inode has. Values only; Namespace runs the code on them.
 */
module Links {
  const ROOTINO := 1
  const T_DIR := 1
  const T_FILE := 2
  /** Entries that fit in a file of maximal size. */
  const MAXENT := 140 * 512 / 16
  /** Inode numbers fit an unsigned short (fs.h struct dirent). */
  const NINUM := 0x1_0000
  /** Largest value of a short. */
  const SHRT_MAX := 32767

  /** inum 0 marks an unused entry. */
  datatype Dirent = Dirent(inum: nat, name: string)

  datatype Inode = Inode(typ: int, nlink: int, entries: seq<Dirent>)

  /** A place for an entry: slot k of directory d. */
  datatype Place = Place(d: nat, k: nat)

  /** Truncation to a short. */
  function Short(x: int): (r: int)
    ensures -SHRT_MAX - 1 <= r <= SHRT_MAX
    ensures r == x <==> -SHRT_MAX - 1 <= x <= SHRT_MAX
  {
    (x + 0x8000) % 0x1_0000 - 0x8000
  }

  /** A directory that is still linked. */
  predicate LinkedDir(s: seq<Inode>, d: nat) {
    d < |s| && s[d].typ == T_DIR && s[d].nlink > 0
  }

  /** Slot k of the linked directory d names inode t; slot 0 is "." and is not counted. */
  predicate Names(s: seq<Inode>, d: nat, k: nat, t: nat) {
    LinkedDir(s, d) && 1 <= k < |s[d].entries| && s[d].entries[k].inum == t
  }

  /** The names of inode t. */
  ghost function NameSet(s: seq<Inode>, t: nat): set<Place> {
    set d, k | 0 <= d < |s| && 1 <= k < |s[d].entries| && Names(s, d, k, t) :: Place(d, k)
  }

  predicate Subdir(s: seq<Inode>, d: nat, k: nat)
    requires d < |s| && k < |s[d].entries|
  {
    var t := s[d].entries[k].inum;
    0 < t < |s| && s[t].typ == T_DIR
  }

  /** The slots of d that name subdirectories. */
  ghost function Subdirs(s: seq<Inode>, d: nat): set<nat>
    requires d < |s|
  {
    set k | 2 <= k < |s[d].entries| && Subdir(s, d, k)
  }

  /** What slot k >= 2 of directory d may name: any allocated inode but the root; a directory only as its parent. */
  ghost predicate EntryOk(s: seq<Inode>, d: nat, k: nat)
    requires d < |s| && k < |s[d].entries|
  {
    var t := s[d].entries[k].inum;
    t != 0 ==>
      && t < |s| && t != ROOTINO && s[t].typ != 0
      && (s[t].typ == T_DIR ==> |s[t].entries| >= 2 && s[t].entries[1].inum == d)
  }

  ghost predicate DistinctNames(entries: seq<Dirent>) {
    forall k, l :: 0 <= k < l < |entries| && entries[k].inum != 0 && entries[l].inum != 0 ==>
        entries[k].name != entries[l].name
  }

  ghost predicate DirOk(s: seq<Inode>, d: nat)
    requires d < |s|
  {
    && 2 <= |s[d].entries| <= MAXENT
    && s[d].entries[0] == Dirent(d, ".") && s[d].entries[1].name == ".."
    && s[d].entries[1].inum < |s| && s[s[d].entries[1].inum].typ == T_DIR
    && DistinctNames(s[d].entries)
    && (forall k :: 2 <= k < |s[d].entries| ==> EntryOk(s, d, k))
  }

  /** nlink is the number of names. */
  ghost predicate CountOk(s: seq<Inode>, t: nat)
    requires t < |s|
  {
    s[t].typ != 0 ==> s[t].nlink == |NameSet(s, t)| <= SHRT_MAX
  }

  ghost predicate Inv(s: seq<Inode>) {
    && ROOTINO < |s| <= NINUM && s[0].typ == 0
    && LinkedDir(s, ROOTINO) && |s[ROOTINO].entries| >= 2 && s[ROOTINO].entries[1].inum == ROOTINO
    && (forall d: nat :: LinkedDir(s, d) ==> DirOk(s, d) && s[d].nlink == 1 + |Subdirs(s, d)|)
    && (forall t :: 0 <= t < |s| ==> CountOk(s, t))
  }

  // Writing one entry.

  function Put(entries: seq<Dirent>, k: nat, e: Dirent): seq<Dirent>
    requires k <= |entries|
  {
    if k < |entries| then entries[k := e] else entries + [e]
  }

  function WithEntry(s: seq<Inode>, d: nat, k: nat, e: Dirent): seq<Inode>
    requires d < |s| && k <= |s[d].entries|
  {
    s[d := s[d].(entries := Put(s[d].entries, k, e))]
  }

  function WithLinks(s: seq<Inode>, i: nat, n: int): seq<Inode>
    requires i < |s|
  {
    s[i := s[i].(nlink := n)]
  }

  /** An entry written into a linked directory adds or takes away exactly one name. */
  lemma EntryNames(s: seq<Inode>, d: nat, k: nat, e: Dirent, t: nat)
    requires LinkedDir(s, d) && 1 <= k <= |s[d].entries| && t != 0
    ensures NameSet(WithEntry(s, d, k, e), t) ==
            if e.inum == t then NameSet(s, t) + {Place(d, k)} else NameSet(s, t) - {Place(d, k)}
  {
    var s' := WithEntry(s, d, k, e);
    forall d', k' ensures Place(d', k') in NameSet(s', t) <==>
                          if Place(d', k') == Place(d, k) then e.inum == t else Place(d', k') in NameSet(s, t)
    {
      assert Place(d', k') in NameSet(s', t) <==> Names(s', d', k', t);
      assert Place(d', k') in NameSet(s, t) <==> Names(s, d', k', t);
    }
  }

  lemma InSet(s: seq<Inode>, d: nat, k: nat, t: nat)
    ensures Place(d, k) in NameSet(s, t) <==> Names(s, d, k, t)
  {
  }

  /** Changing an inode that is no linked directory, before or after, changes no names. */
  lemma OtherNames(s: seq<Inode>, i: nat, x: Inode, t: nat)
    requires i < |s| && !LinkedDir(s, i) && !LinkedDir(s[i := x], i)
    ensures NameSet(s[i := x], t) == NameSet(s, t)
  {
    forall d, k ensures Place(d, k) in NameSet(s[i := x], t) <==> Place(d, k) in NameSet(s, t) {
      assert Names(s[i := x], d, k, t) <==> Names(s, d, k, t);
    }
  }

  /** So does changing the link count of a directory that stays linked. */
  lemma LinkNames(s: seq<Inode>, i: nat, n: int, t: nat)
    requires i < |s| && (LinkedDir(s, i) <==> LinkedDir(WithLinks(s, i, n), i))
    ensures NameSet(WithLinks(s, i, n), t) == NameSet(s, t)
  {
    forall d, k ensures Place(d, k) in NameSet(WithLinks(s, i, n), t) <==> Place(d, k) in NameSet(s, t) {
      assert Names(WithLinks(s, i, n), d, k, t) <==> Names(s, d, k, t);
    }
  }

  /** An empty directory holds one name: its parent's. */
  ghost predicate EmptyDir(s: seq<Inode>, i: nat) {
    i < |s| && |s[i].entries| >= 2 && forall k :: 2 <= k < |s[i].entries| ==> s[i].entries[k].inum == 0
  }

  lemma DropDirNames(s: seq<Inode>, i: nat, t: nat)
    requires LinkedDir(s, i) && EmptyDir(s, i) && t != 0
    ensures NameSet(WithLinks(s, i, 0), t) ==
            if s[i].entries[1].inum == t then NameSet(s, t) - {Place(i, 1)} else NameSet(s, t)
  {
    var s' := WithLinks(s, i, 0);
    forall d, k ensures Place(d, k) in NameSet(s', t) <==> Place(d, k) in NameSet(s, t) && d != i {
      assert Names(s', d, k, t) <==> Names(s, d, k, t) && d != i;
    }
  }

  lemma NewDirNames(s: seq<Inode>, i: nat, p: nat, t: nat)
    requires i < |s| && !LinkedDir(s, i)
    ensures NameSet(s[i := NewDir(i, p)], t) == if t == p then NameSet(s, t) + {Place(i, 1)} else NameSet(s, t)
  {
    var s' := s[i := NewDir(i, p)];
    forall d, k
      ensures Place(d, k) in NameSet(s', t) <==>
              Place(d, k) in NameSet(s, t) || (Place(d, k) == Place(i, 1) && t == p)
    {
      assert Names(s', d, k, t) <==> Names(s, d, k, t) || (d == i && k == 1 && t == p);
    }
  }

  /** A directory as create() makes it. */
  function NewDir(i: nat, p: nat): Inode {
    Inode(T_DIR, 1, [Dirent(i, "."), Dirent(p, "..")])
  }

  // What freeing, unlinking, linking and creating do, and that they keep the invariant.

  const NONE := Dirent(0, "")

  function Freed(s: seq<Inode>, i: nat): seq<Inode>
    requires i < |s|
  {
    s[i := Inode(0, 0, [])]
  }

  /** The inodes that ialloc() may hand out. */
  function FreeInodes(s: seq<Inode>): set<nat> {
    set i | 0 < i < |s| && s[i].typ == 0
  }

  /** One inode becomes free or is taken. */
  lemma FreeInodesAt(s: seq<Inode>, s': seq<Inode>, i: nat)
    requires 0 < i < |s| == |s'| && forall j :: 0 <= j < |s| && j != i ==> (s'[j].typ == 0 <==> s[j].typ == 0)
    ensures FreeInodes(s') == if s'[i].typ == 0 then FreeInodes(s) + {i} else FreeInodes(s) - {i}
  {
  }

  /**
   Between system calls an inode without a name is held by someone who has read it in, so that the last
   iput() will free it.
   */
  ghost predicate NoOrphans(s: seq<Inode>, refs: seq<nat>, valid: seq<bool>) {
    && |refs| == |valid| == |s|
    && forall i :: 0 <= i < |s| && s[i].typ != 0 && s[i].nlink == 0 ==> refs[i] > 0 && valid[i]
  }

  /** Freeing an inode without links: no live entry names it. */
  lemma FreedInv(s: seq<Inode>, i: nat)
    requires Inv(s) && i < |s| && s[i].typ != 0 && s[i].nlink == 0
    ensures Inv(Freed(s, i)) && NameSet(s, i) == {}
  {
    var s' := Freed(s, i);
    assert CountOk(s, i);
    forall t ensures NameSet(s', t) == NameSet(s, t) {
      OtherNames(s, i, Inode(0, 0, []), t);
    }
    forall d: nat | LinkedDir(s', d) ensures DirOk(s', d) && Subdirs(s', d) == Subdirs(s, d) {
      assert LinkedDir(s, d) && s'[d] == s[d];
      forall k | 1 <= k < |s[d].entries| ensures s[d].entries[k].inum != i {
        InSet(s, d, k, i);
      }
      forall k | 2 <= k < |s[d].entries| ensures EntryOk(s', d, k) {
        assert EntryOk(s, d, k);
      }
    }
    hide NameSet;
    forall t | 0 <= t < |s'| ensures CountOk(s', t) {
      assert CountOk(s, t);
    }
  }

  /** One link less, as a short. */
  function Less(s: seq<Inode>, i: nat): seq<Inode>
    requires i < |s|
  {
    WithLinks(s, i, Short(s[i].nlink - 1))
  }

  function More(s: seq<Inode>, i: nat): seq<Inode>
    requires i < |s|
  {
    WithLinks(s, i, Short(s[i].nlink + 1))
  }

  /** unlink of slot k of d, before its inode is put. */
  function Unlinked(s: seq<Inode>, d: nat, k: nat): seq<Inode>
    requires d < |s| && k < |s[d].entries| && s[d].entries[k].inum < |s|
  {
    var t := s[d].entries[k].inum;
    var s1 := WithEntry(s, d, k, NONE);
    Less(if s[t].typ == T_DIR then Less(s1, d) else s1, t)
  }

  /** Slot k of d can be unlinked: it names a file, or an empty directory. */
  ghost predicate Unlinkable(s: seq<Inode>, d: nat, k: nat) {
    && LinkedDir(s, d) && 2 <= k < |s[d].entries| && 0 < s[d].entries[k].inum < |s|
    && (s[s[d].entries[k].inum].typ == T_DIR ==> EmptyDir(s, s[d].entries[k].inum))
  }

  /** Whatever a live entry names has at least one link: the panic "unlink: nlink < 1" is out of reach. */
  lemma NamedIsLinked(s: seq<Inode>, d: nat, k: nat)
    requires Inv(s) && LinkedDir(s, d) && 1 <= k < |s[d].entries| && s[d].entries[k].inum != 0
    ensures var t := s[d].entries[k].inum;
            t < |s| && s[t].typ != 0 && s[t].nlink >= 1 && Place(d, k) in NameSet(s, t) && (k >= 2 ==> t != ROOTINO)
  {
    var t := s[d].entries[k].inum;
    assert DirOk(s, d) && (k >= 2 ==> EntryOk(s, d, k));
    InSet(s, d, k, t);
    assert CountOk(s, t);
    assert |NameSet(s, t)| >= 1 by {
      assert NameSet(s, t) != {};
    }
  }

  /** An empty linked directory has one name. */
  lemma EmptyDirOnce(s: seq<Inode>, d: nat, k: nat)
    requires Inv(s) && Unlinkable(s, d, k) && s[s[d].entries[k].inum].typ == T_DIR
    ensures var t := s[d].entries[k].inum;
            && LinkedDir(s, t) && s[t].nlink == 1 && t != d && s[t].entries[1].inum == d
            && NameSet(s, t) == {Place(d, k)} && s[d].nlink >= 2
  {
    var t := s[d].entries[k].inum;
    NamedIsLinked(s, d, k);
    assert DirOk(s, d) && EntryOk(s, d, k) && DirOk(s, t);
    assert Subdirs(s, t) == {};
    assert k in Subdirs(s, d);
    assert CountOk(s, t);
    assert NameSet(s, t) == {Place(d, k)} by {
      assert |NameSet(s, t) - {Place(d, k)}| == 0;
    }
  }

  /** Inode by inode. */
  lemma UnlinkedAt(s: seq<Inode>, d: nat, k: nat)
    requires Inv(s) && Unlinkable(s, d, k)
    ensures var s', u := Unlinked(s, d, k), s[d].entries[k].inum;
            && |s'| == |s| && s'[u].nlink == s[u].nlink - 1 && u != d
            && s'[d].nlink == s[d].nlink - (if s[u].typ == T_DIR then 1 else 0)
            && s'[d].entries == s[d].entries[k := NONE]
            && (forall i :: 0 <= i < |s| ==> s'[i].typ == s[i].typ && (i != d ==> s'[i].entries == s[i].entries))
            && (forall i :: 0 <= i < |s| && i != d && i != u ==> s'[i] == s[i])
            && (s[u].typ == T_DIR ==> s'[u].nlink == 0)
            && s'[d].nlink >= 1
  {
    var u := s[d].entries[k].inum;
    NamedIsLinked(s, d, k);
    assert CountOk(s, u) && CountOk(s, d);
    if s[u].typ == T_DIR {
      EmptyDirOnce(s, d, k);
    }
  }

  lemma UnlinkedFileNames(s: seq<Inode>, d: nat, k: nat, t: nat)
    requires Inv(s) && Unlinkable(s, d, k) && 0 < t < |s| && s[s[d].entries[k].inum].typ != T_DIR
    ensures var s' := Unlinked(s, d, k);
            NameSet(s', t) == if t == s[d].entries[k].inum then NameSet(s, t) - {Place(d, k)} else NameSet(s, t)
  {
    var u := s[d].entries[k].inum;
    EntryNames(s, d, k, NONE, t);
    InSet(s, d, k, t);
    LinkNames(WithEntry(s, d, k, NONE), u, Short(s[u].nlink - 1), t);
  }

  lemma UnlinkedDirNames(s: seq<Inode>, d: nat, k: nat, t: nat)
    requires Inv(s) && Unlinkable(s, d, k) && 0 < t < |s| && s[s[d].entries[k].inum].typ == T_DIR
    ensures var s', u := Unlinked(s, d, k), s[d].entries[k].inum;
            NameSet(s', t) ==
            if t == u then NameSet(s, t) - {Place(d, k)}
            else if t == d then NameSet(s, t) - {Place(u, 1)} else NameSet(s, t)
  {
    hide Inv, NameSet;
    var u := s[d].entries[k].inum;
    var s1 := WithEntry(s, d, k, NONE);
    EmptyDirOnce(s, d, k);
    UnlinkedAt(s, d, k);
    EntryNames(s, d, k, NONE, t);
    InSet(s, d, k, t);
    LinkNames(s1, d, Short(s[d].nlink - 1), t);
    DropDirNames(Less(s1, d), u, t);
  }

  lemma UnlinkedCount(s: seq<Inode>, d: nat, k: nat, t: nat)
    requires Inv(s) && Unlinkable(s, d, k) && 0 < t < |s|
    ensures t < |Unlinked(s, d, k)| && CountOk(Unlinked(s, d, k), t)
  {
    hide NameSet, Unlinked, DirOk, Subdirs;
    var u := s[d].entries[k].inum;
    UnlinkedAt(s, d, k);
    assert CountOk(s, t);
    NamedIsLinked(s, d, k);
    if s[u].typ == T_DIR {
      EmptyDirOnce(s, d, k);
      NamedIsLinked(s, u, 1);
      UnlinkedDirNames(s, d, k, t);
    } else {
      UnlinkedFileNames(s, d, k, t);
    }
  }

  /** Every directory stays well formed when a slot is cleared. */
  lemma UnlinkedDirOk(s: seq<Inode>, d: nat, k: nat, i: nat)
    requires Inv(s) && Unlinkable(s, d, k) && LinkedDir(Unlinked(s, d, k), i)
    ensures DirOk(Unlinked(s, d, k), i)
  {
    hide NameSet, Unlinked, Subdirs;
    var s' := Unlinked(s, d, k);
    UnlinkedAt(s, d, k);
    assert LinkedDir(s, i) && DirOk(s, i);
    forall j | 2 <= j < |s'[i].entries| ensures EntryOk(s', i, j) {
      assert EntryOk(s, i, j);
      var t := s[i].entries[j].inum;
      if t == d {
        assert DirOk(s, d);
      }
    }
  }

  lemma UnlinkedSubdirs(s: seq<Inode>, d: nat, k: nat, i: nat)
    requires Inv(s) && Unlinkable(s, d, k) && LinkedDir(Unlinked(s, d, k), i)
    ensures Unlinked(s, d, k)[i].nlink == 1 + |Subdirs(Unlinked(s, d, k), i)|
  {
    hide NameSet, Unlinked, DirOk, EmptyDir;
    var s', u := Unlinked(s, d, k), s[d].entries[k].inum;
    UnlinkedAt(s, d, k);
    assert LinkedDir(s, i);
    if i == d && s[u].typ == T_DIR {
      assert k in Subdirs(s, d);
      assert Subdirs(s', d) == Subdirs(s, d) - {k};
    } else {
      assert Subdirs(s', i) == Subdirs(s, i);
    }
  }

  lemma UnlinkedInv(s: seq<Inode>, d: nat, k: nat)
    requires Inv(s) && Unlinkable(s, d, k)
    ensures Inv(Unlinked(s, d, k))
  {
    hide NameSet, Subdirs, DirOk, Unlinked, CountOk, EmptyDir;
    var s' := Unlinked(s, d, k);
    UnlinkedAt(s, d, k);
    forall i: nat | LinkedDir(s', i) ensures DirOk(s', i) && s'[i].nlink == 1 + |Subdirs(s', i)| {
      UnlinkedDirOk(s, d, k, i);
      UnlinkedSubdirs(s, d, k, i);
    }
    forall t | 0 < t < |s| ensures CountOk(s', t) {
      UnlinkedCount(s, d, k, t);
    }
    assert CountOk(s', 0) by {
      FreeCount(s', 0);
    }
    NamedIsLinked(s, d, k);
  }

  lemma FreeCount(s: seq<Inode>, t: nat)
    requires t < |s| && s[t].typ == 0
    ensures CountOk(s, t)
  {
  }

  // Adding a name.

  /** Slot k of d can take the new name: behind the dots, unused or at the end, and within the largest file. */
  ghost predicate FreeSlot(s: seq<Inode>, d: nat, k: nat, name: string) {
    && LinkedDir(s, d) && 2 <= k <= |s[d].entries| && k < MAXENT
    && (k < |s[d].entries| ==> s[d].entries[k].inum == 0)
    && forall j :: 0 <= j < |s[d].entries| && s[d].entries[j].inum != 0 ==> s[d].entries[j].name != name
  }

  /** link of inode i as `name` in slot k of d. */
  function Linked(s: seq<Inode>, i: nat, d: nat, k: nat, name: string): seq<Inode>
    requires i < |s| && d < |s| && k <= |s[d].entries|
  {
    WithEntry(More(s, i), d, k, Dirent(i, name))
  }

  ghost predicate Linkable(s: seq<Inode>, i: nat) {
    0 < i < |s| && s[i].typ != 0 && s[i].typ != T_DIR
  }

  lemma LinkedNames(s: seq<Inode>, i: nat, d: nat, k: nat, name: string, t: nat)
    requires Linkable(s, i) && FreeSlot(s, d, k, name) && 0 < t < |s|
    ensures NameSet(Linked(s, i, d, k, name), t) == if t == i then NameSet(s, t) + {Place(d, k)} else NameSet(s, t)
    ensures Place(d, k) !in NameSet(s, t)
  {
    LinkNames(s, i, Short(s[i].nlink + 1), t);
    EntryNames(More(s, i), d, k, Dirent(i, name), t);
    InSet(s, d, k, t);
  }

  lemma LinkedDirs(s: seq<Inode>, i: nat, d: nat, k: nat, name: string, j: nat)
    requires Inv(s) && Linkable(s, i) && FreeSlot(s, d, k, name) && LinkedDir(Linked(s, i, d, k, name), j)
    ensures var s' := Linked(s, i, d, k, name);
            DirOk(s', j) && Subdirs(s', j) == Subdirs(s, j) && s'[j].nlink == s[j].nlink && LinkedDir(s, j)
  {
    hide NameSet;
    var s' := Linked(s, i, d, k, name);
    assert LinkedDir(s, j) && DirOk(s, j);
    forall m | 2 <= m < |s'[j].entries| ensures EntryOk(s', j, m) {
      if !(j == d && m == k) {
        assert EntryOk(s, j, m);
      }
      if LinkedDir(s, s'[j].entries[m].inum) {
        assert DirOk(s, s'[j].entries[m].inum);
      }
    }
  }

  /** link() keeps the counts exact if and only if the inode has fewer than 32767 names. */
  lemma LinkedInvIff(s: seq<Inode>, i: nat, d: nat, k: nat, name: string)
    requires Inv(s) && Linkable(s, i) && FreeSlot(s, d, k, name)
    ensures Inv(Linked(s, i, d, k, name)) <==> s[i].nlink < SHRT_MAX
  {
    hide NameSet, Subdirs, DirOk;
    var s' := Linked(s, i, d, k, name);
    assert CountOk(s, i);
    LinkedNames(s, i, d, k, name, i);
    if s[i].nlink < SHRT_MAX {
      forall j: nat | LinkedDir(s', j) ensures DirOk(s', j) && s'[j].nlink == 1 + |Subdirs(s', j)| {
        LinkedDirs(s, i, d, k, name, j);
      }
      forall t | 0 <= t < |s| ensures CountOk(s', t) {
        if t > 0 {
          assert CountOk(s, t);
          LinkedNames(s, i, d, k, name, t);
        }
      }
    } else {
      assert !CountOk(s', i);
    }
  }

  // Creating.

  /** The new inode i, before its name is written. */
  function Fresh(s: seq<Inode>, d: nat, i: nat, typ: int): seq<Inode>
    requires i < |s| && d < |s|
  {
    if typ == T_DIR then More(s[i := NewDir(i, d)], d) else s[i := Inode(typ, 1, [])]
  }

  function Created(s: seq<Inode>, d: nat, k: nat, i: nat, name: string, typ: int): seq<Inode>
    requires i < |s| && d < |s| && d != i && k <= |s[d].entries|
  {
    WithEntry(Fresh(s, d, i, typ), d, k, Dirent(i, name))
  }

  lemma {:induction false} BoundedSize(a: set<nat>, n: nat)
    requires forall x :: x in a ==> x < n
    ensures |a| <= n
  {
    if n == 0 {
      assert a == {};
    } else {
      BoundedSize(a - {n - 1}, n - 1);
      assert a <= (a - {n - 1}) + {n - 1};
    }
  }

  /** A directory's count cannot overflow. */
  lemma DirCountBound(s: seq<Inode>, d: nat)
    requires Inv(s) && LinkedDir(s, d)
    ensures s[d].nlink < MAXENT
  {
    assert DirOk(s, d);
    BoundedSize(Subdirs(s, d) + {0, 1}, |s[d].entries|);
    assert Subdirs(s, d) !! {0, 1};
    assert |Subdirs(s, d) + {0, 1}| == |Subdirs(s, d)| + 2;
  }

  /** A free inode has no names, and is not d. */
  lemma FreeUnnamed(s: seq<Inode>, i: nat)
    requires Inv(s) && 0 < i < |s| && s[i].typ == 0
    ensures NameSet(s, i) == {}
  {
    forall d, k ensures Place(d, k) !in NameSet(s, i) {
      InSet(s, d, k, i);
      if Names(s, d, k, i) {
        NamedIsLinked(s, d, k);
      }
    }
  }

  lemma CreatedNames(s: seq<Inode>, d: nat, k: nat, i: nat, name: string, typ: int, t: nat)
    requires Inv(s) && FreeSlot(s, d, k, name) && 0 < i < |s| && s[i].typ == 0 && typ != 0 && 0 < t < |s|
    ensures NameSet(Created(s, d, k, i, name, typ), t) ==
            if t == i then {Place(d, k)}
            else if t == d && typ == T_DIR then NameSet(s, t) + {Place(i, 1)} else NameSet(s, t)
    ensures Place(i, 1) !in NameSet(s, t)
  {
    hide Inv, NameSet;
    FreeUnnamed(s, i);
    InSet(s, d, k, t);
    InSet(s, i, 1, t);
    var s1 := Fresh(s, d, i, typ);
    if typ == T_DIR {
      DirCountBound(s, d);
      NewDirNames(s, i, d, t);
      LinkNames(s[i := NewDir(i, d)], d, Short(s[d].nlink + 1), t);
    } else {
      OtherNames(s, i, Inode(typ, 1, []), t);
    }
    EntryNames(s1, d, k, Dirent(i, name), t);
  }

  /** Inode by inode. */
  lemma CreatedAt(s: seq<Inode>, d: nat, k: nat, i: nat, name: string, typ: int)
    requires Inv(s) && FreeSlot(s, d, k, name) && 0 < i < |s| && s[i].typ == 0 && typ != 0
    ensures var s' := Created(s, d, k, i, name, typ);
            && |s'| == |s| && s'[i] == (if typ == T_DIR then NewDir(i, d) else Inode(typ, 1, []))
            && s'[d].typ == T_DIR && s'[d].entries == Put(s[d].entries, k, Dirent(i, name))
            && s'[d].nlink == s[d].nlink + (if typ == T_DIR then 1 else 0) <= SHRT_MAX
            && (forall j :: 0 <= j < |s| && j != d && j != i ==> s'[j] == s[j])
  {
    hide NameSet, DirOk, Subdirs;
    DirCountBound(s, d);
  }

  lemma CreatedDirOk(s: seq<Inode>, d: nat, k: nat, i: nat, name: string, typ: int, j: nat)
    requires Inv(s) && FreeSlot(s, d, k, name) && 0 < i < |s| && s[i].typ == 0 && typ != 0
    requires LinkedDir(Created(s, d, k, i, name, typ), j)
    ensures DirOk(Created(s, d, k, i, name, typ), j)
  {
    hide NameSet, Created, Subdirs;
    var s' := Created(s, d, k, i, name, typ);
    CreatedAt(s, d, k, i, name, typ);
    if j != i {
      assert LinkedDir(s, j) && DirOk(s, j);
      forall m | 2 <= m < |s'[j].entries| ensures EntryOk(s', j, m) {
        if !(j == d && m == k) {
          assert EntryOk(s, j, m);
        }
      }
    }
  }

  lemma CreatedSubdir(s: seq<Inode>, d: nat, k: nat, i: nat, name: string, typ: int, j: nat, m: nat)
    requires Inv(s) && FreeSlot(s, d, k, name) && 0 < i < |s| && s[i].typ == 0 && typ != 0
    requires LinkedDir(s, j) && j != i && 2 <= m < |s[j].entries|
    ensures var s' := Created(s, d, k, i, name, typ);
            && j < |s'| && m < |s'[j].entries|
            && (Subdir(s', j, m) <==> Subdir(s, j, m) || (j == d && m == k && typ == T_DIR))
  {
    hide NameSet, Created, Subdirs;
    CreatedAt(s, d, k, i, name, typ);
    assert DirOk(s, j) && EntryOk(s, j, m);
  }

  lemma CreatedSubdirs(s: seq<Inode>, d: nat, k: nat, i: nat, name: string, typ: int, j: nat)
    requires Inv(s) && FreeSlot(s, d, k, name) && 0 < i < |s| && s[i].typ == 0 && typ != 0
    requires LinkedDir(Created(s, d, k, i, name, typ), j)
    ensures Created(s, d, k, i, name, typ)[j].nlink == 1 + |Subdirs(Created(s, d, k, i, name, typ), j)|
  {
    hide NameSet, Created, DirOk, CountOk;
    var s' := Created(s, d, k, i, name, typ);
    CreatedAt(s, d, k, i, name, typ);
    if j == i {
      assert Subdirs(s', i) == {};
    } else {
      assert LinkedDir(s, j);
      forall m | 2 <= m < |s[j].entries|
        ensures m < |s'[j].entries| && (Subdir(s', j, m) <==> Subdir(s, j, m) || (j == d && m == k && typ == T_DIR))
      {
        CreatedSubdir(s, d, k, i, name, typ, j, m);
      }
      if j == d && typ == T_DIR {
        assert Subdirs(s', d) == Subdirs(s, d) + {k};
      } else {
        assert Subdirs(s', j) == Subdirs(s, j);
      }
    }
  }

  lemma CreatedInv(s: seq<Inode>, d: nat, k: nat, i: nat, name: string, typ: int)
    requires Inv(s) && FreeSlot(s, d, k, name) && 0 < i < |s| && s[i].typ == 0 && typ != 0
    ensures Inv(Created(s, d, k, i, name, typ))
  {
    hide NameSet, Subdirs, DirOk, Created;
    var s' := Created(s, d, k, i, name, typ);
    CreatedAt(s, d, k, i, name, typ);
    forall j: nat | LinkedDir(s', j) ensures DirOk(s', j) && s'[j].nlink == 1 + |Subdirs(s', j)| {
      CreatedDirOk(s, d, k, i, name, typ, j);
      CreatedSubdirs(s, d, k, i, name, typ, j);
    }
    forall t | 0 <= t < |s| ensures CountOk(s', t) {
      if t > 0 {
        assert CountOk(s, t);
        CreatedNames(s, d, k, i, name, typ, t);
      }
    }
  }
}
