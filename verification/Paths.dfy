/** Path names (fs.c): skipelem() against the elements of a path split at its slashes. */
module Paths {
  const DIRSIZ := 14

  /** The text between slashes. */
  function Fields(p: string): (r: seq<string>)
    ensures |r| >= 1
  {
    if p == "" then [""]
    else if p[0] == '/' then [""] + Fields(p[1..])
    else [[p[0]] + Fields(p[1..])[0]] + Fields(p[1..])[1..]
  }

  /** What a directory entry keeps of a name. */
  function Cut(w: string): string {
    if |w| >= DIRSIZ then w[..DIRSIZ] else w
  }

  function Words(fs: seq<string>): seq<string> {
    if fs == [] then [] else if fs[0] == "" then Words(fs[1..]) else [Cut(fs[0])] + Words(fs[1..])
  }

  /** The elements of a path: its non-empty fields, cut to what a directory entry can hold. */
  function Elems(p: string): seq<string> {
    Words(Fields(p))
  }

  lemma SlashDropped(p: string)
    requires p != "" && p[0] == '/'
    ensures Elems(p) == Elems(p[1..])
  {
    assert Fields(p)[1..] == Fields(p[1..]);
  }

  lemma {:induction false} FieldsSplit(w: string, rest: string)
    requires '/' !in w && (rest == "" || rest[0] == '/')
    ensures Fields(w + rest) == [w] + Fields(rest)[1..]
  {
    if w == "" {
      assert w + rest == rest;
    } else {
      FieldsSplit(w[1..], rest);
      assert (w + rest)[1..] == w[1..] + rest;
      assert [w[0]] + w[1..] == w;
    }
  }

  /** The first element and the rest, wherever the first element ends. */
  lemma ElemsSplit(w: string, rest: string)
    requires w != "" && '/' !in w && (rest == "" || rest[0] == '/')
    ensures Elems(w + rest) == [Cut(w)] + Elems(rest)
  {
    FieldsSplit(w, rest);
    assert Fields(rest)[0] == "";
    assert Fields(w + rest)[1..] == Fields(rest)[1..];
  }

  lemma NonEmpty(p: string)
    requires p != "" && p[0] != '/'
    ensures Elems(p) != []
  {
  }

  /** One more character in front of a path with these fields. */
  function Cons(c: char, fs: seq<string>): seq<string>
    requires |fs| >= 1
  {
    if c == '/' then [""] + fs else [[c] + fs[0]] + fs[1..]
  }

  lemma ConsJoin(c: char, p: string, a: string, b: string)
    requires Fields(p) == Fields(a) + Fields(b)
    ensures Cons(c, Fields(p)) == Cons(c, Fields(a)) + Fields(b)
  {
    hide Fields;
    var f, g := Fields(a), Fields(b);
    assert (f + g)[0] == f[0] && (f + g)[1..] == f[1..] + g;
  }

  lemma {:induction false} FieldsJoin(a: string, b: string)
    ensures Fields(a + "/" + b) == Fields(a) + Fields(b)
  {
    var p := a + "/" + b;
    if a == "" {
      assert p[1..] == b;
    } else {
      assert p[1..] == a[1..] + "/" + b && p[0] == a[0];
      FieldsJoin(a[1..], b);
      ConsJoin(a[0], p[1..], a[1..], b);
      assert Fields(p) == Cons(p[0], Fields(p[1..])) && Fields(a) == Cons(a[0], Fields(a[1..]));
    }
  }

  lemma {:induction false} WordsJoin(fs: seq<string>, gs: seq<string>)
    ensures Words(fs + gs) == Words(fs) + Words(gs)
  {
    if fs == [] {
      assert fs + gs == gs;
    } else {
      assert (fs + gs)[1..] == fs[1..] + gs;
      WordsJoin(fs[1..], gs);
    }
  }

  /** The elements of a path joined from two are those of the first and then those of the second. */
  lemma ElemsJoin(a: string, b: string)
    ensures Elems(a + "/" + b) == Elems(a) + Elems(b)
  {
    FieldsJoin(a, b);
    WordsJoin(Fields(a), Fields(b));
  }

  /** skipelem(): takes the first element off; no result if there is none. */
  method SkipElem(path: string) returns (found: bool, name: string, rest: string)
    ensures found <==> Elems(path) != []
    ensures found ==> Elems(path) == [name] + Elems(rest) && 0 < |name| <= DIRSIZ && |rest| < |path|
    ensures found ==> (rest == "" <==> Elems(rest) == [])
  {
    var p := SkipSlashes(path, 0);
    if p == |path| {
      return false, "", "";
    }
    NonEmpty(path[p..]);
    var s := p;
    while p < |path| && path[p] != '/'
      invariant s <= p <= |path| && '/' !in path[s..p]
    {
      p := p + 1;
    }
    assert path[s..p] + path[p..] == path[s..];
    ElemsSplit(path[s..p], path[p..]);
    name := if p - s >= DIRSIZ then path[s..s + DIRSIZ] else path[s..p];
    assert name == Cut(path[s..p]);
    p := SkipSlashes(path, p);
    found, rest := true, path[p..];
    if rest != "" {
      NonEmpty(rest);
    }
  }

  /** The loops over slashes. */
  method SkipSlashes(path: string, from: nat) returns (p: nat)
    requires from <= |path|
    ensures from <= p <= |path| && (p == |path| || path[p] != '/') && Elems(path[p..]) == Elems(path[from..])
  {
    p := from;
    while p < |path| && path[p] == '/'
      invariant from <= p <= |path| && Elems(path[p..]) == Elems(path[from..])
    {
      SlashDropped(path[p..]);
      assert path[p..][1..] == path[p + 1..];
      p := p + 1;
    }
  }
}
