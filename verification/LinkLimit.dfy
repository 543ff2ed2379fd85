/**
 Runs of create, link, unlink and freeing: when every state of a run counts its links exactly. The
 16-bit link count can be exhausted: from a fresh file system a run leads to a file with 32767 names,
 so that the next link() makes its count negative.
 */
module LinkLimit {
  import opened Links

  datatype Step =
    | Create(d: nat, k: nat, i: nat, name: string, typ: int)
    | Link(d: nat, k: nat, i: nat, name: string)
    | Unlink(d: nat, k: nat)
    | Free(i: nat)

  ghost predicate Enabled(s: seq<Inode>, st: Step) {
    match st
    case Create(d, k, i, name, typ) => FreeSlot(s, d, k, name) && 0 < i < |s| && s[i].typ == 0 && typ != 0
    case Link(d, k, i, name) => FreeSlot(s, d, k, name) && Linkable(s, i)
    case Unlink(d, k) => Unlinkable(s, d, k)
    case Free(i) => i < |s| && s[i].typ != 0 && s[i].nlink == 0
  }

  ghost function Apply(s: seq<Inode>, st: Step): seq<Inode>
    requires Enabled(s, st)
  {
    match st
    case Create(d, k, i, name, typ) => assert d != i; Created(s, d, k, i, name, typ)
    case Link(d, k, i, name) => Linked(s, i, d, k, name)
    case Unlink(d, k) => Unlinked(s, d, k)
    case Free(i) => Freed(s, i)
  }

  /** The steps lead from s to s'. */
  ghost predicate Run(s: seq<Inode>, steps: seq<Step>, s': seq<Inode>)
    decreases |steps|
  {
    if steps == [] then s' == s else Enabled(s, steps[0]) && Run(Apply(s, steps[0]), steps[1..], s')
  }

  /** All states of the run count their links exactly. */
  ghost predicate Exact(s: seq<Inode>, steps: seq<Step>)
    decreases |steps|
  {
    Inv(s) && (steps != [] && Enabled(s, steps[0]) ==> Exact(Apply(s, steps[0]), steps[1..]))
  }

  /** No inode is linked that has 32767 names. */
  ghost predicate WithinLimit(s: seq<Inode>, steps: seq<Step>)
    decreases |steps|
  {
    steps != [] && Enabled(s, steps[0]) ==>
      && (steps[0].Link? ==> s[steps[0].i].nlink < SHRT_MAX)
      && WithinLimit(Apply(s, steps[0]), steps[1..])
  }

  lemma StepInvIff(s: seq<Inode>, st: Step)
    requires Inv(s) && Enabled(s, st)
    ensures Inv(Apply(s, st)) <==> st.Link? ==> s[st.i].nlink < SHRT_MAX
  {
    hide Inv, Created, Linked, Unlinked, Freed, FreeSlot, Linkable, Unlinkable;
    match st
    case Create(d, k, i, name, typ) => CreatedInv(s, d, k, i, name, typ);
    case Link(d, k, i, name) => LinkedInvIff(s, i, d, k, name);
    case Unlink(d, k) => UnlinkedInv(s, d, k);
    case Free(i) => FreedInv(s, i);
  }

  /** Over every run: the counts are exact throughout if and only if no link() is made at the limit. */
  lemma {:induction false} RunExactIff(s: seq<Inode>, steps: seq<Step>, s': seq<Inode>)
    requires Inv(s) && Run(s, steps, s')
    ensures Exact(s, steps) <==> WithinLimit(s, steps)
    ensures Exact(s, steps) ==> Inv(s')
    decreases |steps|
  {
    hide Inv, Enabled, Apply;
    if steps != [] {
      StepInvIff(s, steps[0]);
      var t := Apply(s, steps[0]);
      if Inv(t) {
        RunExactIff(t, steps[1..], s');
      } else {
        assert !Exact(t, steps[1..]);
      }
    }
  }

  lemma {:induction false} RunTrans(s: seq<Inode>, a: seq<Step>, t: seq<Inode>, b: seq<Step>, s': seq<Inode>)
    requires Run(s, a, t) && Run(t, b, s')
    ensures Run(s, a + b, s')
    decreases |a|
  {
    hide Enabled, Apply;
    if a == [] {
      assert a + b == b;
    } else {
      RunTrans(Apply(s, a[0]), a[1..], t, b, s');
      assert (a + b)[1..] == a[1..] + b;
    }
  }

  /** Some run leads from s to s'. */
  ghost predicate Reaches(s: seq<Inode>, s': seq<Inode>) {
    exists steps :: Run(s, steps, s')
  }

  lemma ReachesStep(s: seq<Inode>, t: seq<Inode>, st: Step)
    requires Reaches(s, t) && Enabled(t, st)
    ensures Reaches(s, Apply(t, st))
  {
    hide Enabled, Apply;
    var a :| Run(s, a, t);
    assert Run(t, [st], Apply(t, st)) by {
      assert [st][1..] == [];
    }
    RunTrans(s, a, t, [st], Apply(t, st));
  }

  /** A name of three letters for each slot. */
  function Letter(n: nat): char
    requires n < 50
  {
    'A' + n as char
  }

  function Name(k: nat): string
    requires k < MAXENT
  {
    [Letter(k / 2500), Letter(k / 50 % 50), Letter(k % 50)]
  }

  lemma NamesDiffer(j: nat, k: nat)
    requires j < MAXENT && k < MAXENT
    ensures Name(j) == Name(k) ==> j == k
  {
    if Name(j) == Name(k) {
      assert Name(j)[0] == Name(k)[0] && Name(j)[1] == Name(k)[1] && Name(j)[2] == Name(k)[2];
      assert j % 50 == k % 50 && j / 50 % 50 == k / 50 % 50 && j / 2500 == k / 2500;
      assert j / 50 / 50 == j / 2500 && k / 50 / 50 == k / 2500;
    }
  }

  /** Slots from 2 on hold names in order. */
  ghost predicate Ordered(s: seq<Inode>, d: nat)
    requires d < |s|
  {
    |s[d].entries| <= MAXENT && forall j :: 2 <= j < |s[d].entries| ==> s[d].entries[j].name == Name(j)
  }

  lemma NextSlot(s: seq<Inode>, d: nat)
    requires Inv(s) && LinkedDir(s, d) && Ordered(s, d) && |s[d].entries| < MAXENT
    ensures FreeSlot(s, d, |s[d].entries|, Name(|s[d].entries|))
  {
    var n := |s[d].entries|;
    assert DirOk(s, d);
    forall j | 0 <= j < n ensures s[d].entries[j].name != Name(n) {
      if j < 2 {
        assert |s[d].entries[j].name| < |Name(n)|;
      } else {
        NamesDiffer(j, n);
      }
    }
  }

  /** What one more name for file i changes: its count, and the end of directory d. */
  lemma LinkedAt(s: seq<Inode>, i: nat, d: nat)
    requires Linkable(s, i) && LinkedDir(s, d) && Ordered(s, d) && |s[d].entries| < MAXENT && 0 <= s[i].nlink < SHRT_MAX
    ensures var s' := Linked(s, i, d, |s[d].entries|, Name(|s[d].entries|));
            && |s'| == |s| && Linkable(s', i) && s'[i].nlink == s[i].nlink + 1
            && LinkedDir(s', d) && Ordered(s', d) && |s'[d].entries| == |s[d].entries| + 1
            && forall j :: 0 <= j < |s| && j != i && j != d ==> s'[j] == s[j]
  {
    hide Name;
  }

  /** One more name for file i in directory d. */
  lemma OneMore(o: seq<Inode>, s: seq<Inode>, i: nat, d: nat) returns (s': seq<Inode>)
    requires Reaches(o, s) && Inv(s) && Linkable(s, i) && LinkedDir(s, d) && Ordered(s, d)
    requires |s[d].entries| < MAXENT && s[i].nlink < SHRT_MAX
    ensures Reaches(o, s') && Inv(s') && |s'| == |s| && Linkable(s', i) && s'[i].nlink == s[i].nlink + 1
    ensures LinkedDir(s', d) && Ordered(s', d) && |s'[d].entries| == |s[d].entries| + 1
    ensures forall j :: 0 <= j < |s| && j != i && j != d ==> s'[j] == s[j]
  {
    assert CountOk(s, i);
    hide Inv, Reaches, CountOk, Linked, Name, Ordered;
    var k := |s[d].entries|;
    NextSlot(s, d);
    LinkedAt(s, i, d);
    LinkedInvIff(s, i, d, k, Name(k));
    ReachesStep(o, s, Link(d, k, i, Name(k)));
    s' := Linked(s, i, d, k, Name(k));
  }

  /** n more names. */
  lemma {:induction false} Fill(o: seq<Inode>, s: seq<Inode>, i: nat, d: nat, n: nat) returns (s': seq<Inode>)
    requires Reaches(o, s) && Inv(s) && Linkable(s, i) && LinkedDir(s, d) && Ordered(s, d)
    requires |s[d].entries| + n <= MAXENT && s[i].nlink + n <= SHRT_MAX
    ensures Reaches(o, s') && Inv(s') && |s'| == |s| && Linkable(s', i) && s'[i].nlink == s[i].nlink + n
    ensures forall j :: 0 <= j < |s| && j != i && j != d ==> s'[j] == s[j]
    decreases n
  {
    hide Inv, Reaches, Ordered;
    if n == 0 {
      s' := s;
    } else {
      var t := OneMore(o, s, i, d);
      s' := Fill(o, t, i, d, n - 1);
    }
  }

  /** n empty directories in the root. */
  lemma {:induction false} MakeDirs(s: seq<Inode>, n: nat) returns (s': seq<Inode>)
    requires Inv(s) && Ordered(s, ROOTINO) && |s[ROOTINO].entries| + n <= MAXENT && |s| > n + 2
    requires forall j :: 2 <= j < |s| ==> s[j].typ == 0
    ensures Reaches(s, s') && Inv(s') && |s'| == |s| && forall j :: n + 2 <= j < |s| ==> s'[j].typ == 0
    ensures forall j :: 2 <= j < n + 2 ==> s'[j] == NewDir(j, ROOTINO)
    ensures Ordered(s', ROOTINO) && |s'[ROOTINO].entries| == |s[ROOTINO].entries| + n
    decreases n
  {
    if n == 0 {
      s' := s;
      assert Run(s, [], s');
    } else {
      var t := MakeDirs(s, n - 1);
      hide Inv;
      s' := MakeDir(s, t, n + 1);
    }
  }

  lemma MakeDir(o: seq<Inode>, s: seq<Inode>, i: nat) returns (s': seq<Inode>)
    requires Reaches(o, s) && Inv(s) && Ordered(s, ROOTINO) && |s[ROOTINO].entries| < MAXENT && 2 <= i < |s|
    requires s[i].typ == 0
    ensures Reaches(o, s') && Inv(s') && |s'| == |s| && s'[i] == NewDir(i, ROOTINO)
    ensures Ordered(s', ROOTINO) && |s'[ROOTINO].entries| == |s[ROOTINO].entries| + 1
    ensures forall j :: 0 <= j < |s| && j != i && j != ROOTINO ==> s'[j] == s[j]
  {
    hide Created, DirOk, Subdirs, NameSet;
    var k := |s[ROOTINO].entries|;
    assert LinkedDir(s, ROOTINO);
    hide Inv;
    NextSlot(s, ROOTINO);
    CreatedInv(s, ROOTINO, k, i, Name(k), T_DIR);
    CreatedAt(s, ROOTINO, k, i, Name(k), T_DIR);
    ReachesStep(o, s, Create(ROOTINO, k, i, Name(k), T_DIR));
    s' := Created(s, ROOTINO, k, i, Name(k), T_DIR);
  }

  const PER := MAXENT - 2

  /** All names of the first m directories given to file i. */
  lemma {:induction false} FillDirs(o: seq<Inode>, s: seq<Inode>, i: nat, m: nat) returns (s': seq<Inode>)
    requires Reaches(o, s) && Inv(s) && Linkable(s, i) && s[i].nlink + m * PER <= SHRT_MAX && i > m + 2 && |s| > m + 2
    requires forall j :: 2 <= j < m + 2 ==> s[j] == NewDir(j, ROOTINO)
    ensures Reaches(o, s') && Inv(s') && |s'| == |s| && Linkable(s', i) && s'[i].nlink == s[i].nlink + m * PER
    ensures forall j :: m + 2 <= j < |s| && j != i ==> s'[j] == s[j]
    decreases m
  {
    if m == 0 {
      s' := s;
    } else {
      assert (m - 1) * PER + PER == m * PER;
      hide Inv, Reaches;
      var t := FillDirs(o, s, i, m - 1);
      s' := Fill(o, t, i, m + 1, PER);
    }
  }

  /** From a fresh file system: eight directories, one file, and 32767 names for it. */
  lemma CountExhausted(s: seq<Inode>) returns (s': seq<Inode>)
    requires |s| == 12 && Inv(s) && s[ROOTINO] == NewDir(ROOTINO, ROOTINO) && forall i :: 2 <= i < |s| ==> s[i].typ == 0
    ensures Reaches(s, s') && Inv(s') && Linkable(s', 11) && s'[11].nlink == SHRT_MAX
    ensures exists d, k, name :: FreeSlot(s', d, k, name) && !Inv(Linked(s', 11, d, k, name))
  {
    hide Inv, Reaches, Linked;
    var t := MakeDirs(s, 9);
    var k := |t[10].entries|;
    NextSlot(t, 10);
    CreatedInv(t, 10, k, 11, Name(k), T_FILE);
    CreatedAt(t, 10, k, 11, Name(k), T_FILE);
    ReachesStep(s, t, Create(10, k, 11, Name(k), T_FILE));
    t := Created(t, 10, k, 11, Name(k), T_FILE);
    t := FillDirs(s, t, 11, 7);
    s' := Fill(s, t, 11, 9, SHRT_MAX - 1 - 7 * PER);
    assert Ordered(s', 10) && LinkedDir(s', 10);
    NextSlot(s', 10);
    LinkedInvIff(s', 11, 10, 3, Name(3));
  }
}
