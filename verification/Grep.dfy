/**
 The regular-expression matcher of grep.c against a declarative meaning: a pattern is a list
 of items, and it matches where the text splits into pieces that fit the items.
 C strings are their characters up to the terminating NUL.
 */
module Grep {

  /** One element of a pattern: a character, `.`, or a starred character or `.`. */
  datatype Item = Lit(c: char) | Any | Star(c: char)

  /** A pattern behind an optional `^`; `atEnd` for a final `$`. */
  datatype Pattern = Pattern(items: seq<Item>, atEnd: bool)

  // Meaning.

  predicate CharFits(c: char, d: char) {
    c == d || c == '.'
  }

  ghost predicate AllFit(c: char, s: string) {
    forall i :: 0 <= i < |s| ==> CharFits(c, s[i])
  }

  ghost predicate Fits(item: Item, piece: string) {
    match item
    case Lit(c) => piece == [c]
    case Any => |piece| == 1
    case Star(c) => AllFit(c, piece)
  }

  ghost function Join(pieces: seq<string>): string {
    if pieces == [] then "" else pieces[0] + Join(pieces[1..])
  }

  ghost predicate Splits(p: Pattern, text: string, pieces: seq<string>)
  {
    && |pieces| == |p.items|
    && (forall i :: 0 <= i < |pieces| ==> Fits(p.items[i], pieces[i]))
    && Join(pieces) <= text
    && (p.atEnd ==> Join(pieces) == text)
  }

  /** The pattern matches at the start of the text. */
  ghost predicate Accepts(p: Pattern, text: string) {
    exists pieces: seq<string> :: Splits(p, text, pieces)
  }

  // Reading a pattern.

  function Prepend(item: Item, p: Pattern): Pattern {
    Pattern([item] + p.items, p.atEnd)
  }

  /** What a pattern without `^` means: a star binds before a final `$` does. */
  function Read(re: string): Pattern {
    if re == "" then Pattern([], false)
    else if |re| > 1 && re[1] == '*' then Prepend(Star(re[0]), Read(re[2..]))
    else if re == "$" then Pattern([], true)
    else Prepend(if re[0] == '.' then Any else Lit(re[0]), Read(re[1..]))
  }

  /** A pattern written down. */
  function Write(p: Pattern): string
    decreases |p.items|
  {
    if p.items == [] then (if p.atEnd then "$" else "")
    else
      (match p.items[0] case Lit(c) => [c] case Any => "." case Star(c) => [c, '*']) +
      Write(Pattern(p.items[1..], p.atEnd))
  }

  /** Reading loses nothing of a pattern. */
  lemma {:induction false} WriteRead(re: string)
    ensures Write(Read(re)) == re
    decreases |re|
  {
    if re != "" && re != "$" {
      var k := if |re| > 1 && re[1] == '*' then 2 else 1;
      WriteRead(re[k..]);
      assert Read(re).items[1..] == Read(re[k..]).items;
      assert re[..k] + re[k..] == re;
    }
  }

  /** What is written reads back: a dot is not a literal, no star follows a single character, a final $ ends. */
  ghost predicate Writable(p: Pattern)
    decreases |p.items|
  {
    p.items != [] ==>
      var rest := Pattern(p.items[1..], p.atEnd);
      && Writable(rest) && p.items[0] != Lit('.')
      && (!p.items[0].Star? ==> Write(rest) == "" || Write(rest)[0] != '*')
      && (p.items[0] == Lit('$') ==> Write(rest) != "")
  }

  lemma {:induction false} ReadWrite(p: Pattern)
    requires Writable(p)
    ensures Read(Write(p)) == p
    decreases |p.items|
  {
    if p.items != [] {
      var rest, w := Pattern(p.items[1..], p.atEnd), Write(p);
      ReadWrite(rest);
      var x := p.items[0];
      assert Prepend(x, rest) == p;
      match x
      case Star(c) =>
        assert w == [c, '*'] + Write(rest) && w[2..] == Write(rest);
        assert Read(w) == Prepend(Star(c), Read(w[2..]));
      case Lit(c) =>
        assert w == [c] + Write(rest) && w[1..] == Write(rest) && w[0] == c;
        assert |w| > 1 ==> w[1] == Write(rest)[0];
        assert Read(w) == Prepend(Lit(c), Read(w[1..]));
      case Any =>
        assert w == ['.'] + Write(rest) && w[1..] == Write(rest) && w[0] == '.';
        assert |w| > 1 ==> w[1] == Write(rest)[0];
        assert Read(w) == Prepend(Any, Read(w[1..]));
    }
  }

  // Acceptance item by item.

  lemma AcceptsEmpty(text: string)
    ensures Accepts(Pattern([], false), text)
    ensures Accepts(Pattern([], true), text) <==> text == ""
  {
    assert Splits(Pattern([], false), text, []);
    if text == "" {
      assert Splits(Pattern([], true), text, []);
    }
  }

  /** Fitting the first item to the first n characters and matching the rest behind them. */
  ghost predicate Continues(item: Item, p: Pattern, text: string, n: nat) {
    n <= |text| && Fits(item, text[..n]) && Accepts(p, text[n..])
  }

  lemma AcceptsWithHead(item: Item, p: Pattern, text: string, n: nat)
    requires Continues(item, p, text, n)
    ensures Accepts(Prepend(item, p), text)
  {
    var pieces :| Splits(p, text[n..], pieces);
    var all := [text[..n]] + pieces;
    assert all[1..] == pieces;
    assert text == text[..n] + text[n..];
    assert Join(all) == text[..n] + Join(pieces);
    assert Splits(Prepend(item, p), text, all);
  }

  lemma HeadOfAccepts(item: Item, p: Pattern, text: string) returns (n: nat)
    requires Accepts(Prepend(item, p), text)
    ensures Continues(item, p, text, n)
  {
    var pieces :| Splits(Prepend(item, p), text, pieces);
    n := |pieces[0]|;
    assert Join(pieces) == pieces[0] + Join(pieces[1..]);
    assert text[..n] == pieces[0] by {
      assert pieces[0] <= Join(pieces) <= text;
    }
    assert Join(pieces[1..]) <= text[n..] by {
      assert Join(pieces)[n..] == Join(pieces[1..]);
    }
    assert Splits(p, text[n..], pieces[1..]);
  }

  lemma AcceptsPrepend(item: Item, p: Pattern, text: string)
    ensures Accepts(Prepend(item, p), text) <==> exists n: nat :: Continues(item, p, text, n)
  {
    if Accepts(Prepend(item, p), text) {
      var n := HeadOfAccepts(item, p, text);
    }
    if n: nat :| Continues(item, p, text, n) {
      AcceptsWithHead(item, p, text, n);
    }
  }

  /** A single-character item takes exactly the first character. */
  lemma AcceptsSingle(item: Item, p: Pattern, text: string)
    requires !item.Star?
    ensures Accepts(Prepend(item, p), text) <==>
            text != "" && Fits(item, text[..1]) && Accepts(p, text[1..])
  {
    AcceptsPrepend(item, p, text);
    if text != "" && Fits(item, text[..1]) && Accepts(p, text[1..]) {
      assert Continues(item, p, text, 1);
    }
    if n: nat :| Continues(item, p, text, n) {
      assert n == 1;
    }
  }

  // The matcher.

  /** matchhere(): the pattern at the beginning of the text. */
  method MatchHere(re: string, text: string) returns (r: bool)
    ensures r <==> Accepts(Read(re), text)
    decreases |re|, 0
  {
    if re == "" {
      AcceptsEmpty(text);
      return true;
    }
    if |re| > 1 && re[1] == '*' {
      var rest := re[2..];
      AcceptsPrepend(Star(re[0]), Read(rest), text);
      r := MatchStar(re[0], rest, text);
      assert Read(re) == Prepend(Star(re[0]), Read(rest));
      return;
    }
    if re == "$" {
      AcceptsEmpty(text);
      return text == "";
    }
    AcceptsSingle(if re[0] == '.' then Any else Lit(re[0]), Read(re[1..]), text);
    if text != "" && (re[0] == '.' || re[0] == text[0]) {
      r := MatchHere(re[1..], text[1..]);
      return;
    }
    return false;
  }

  /** matchstar(): shortest repetition first; no longer one is missed. */
  method MatchStar(c: char, re: string, text: string) returns (r: bool)
    ensures r <==> exists n: nat :: Continues(Star(c), Read(re), text, n)
    decreases |re|, 1
  {
    var i := 0;
    while true
      invariant 0 <= i <= |text| && AllFit(c, text[..i])
      invariant forall n: nat :: n < i ==> !Accepts(Read(re), text[n..])
      decreases |text| - i
    {
      var here := MatchHere(re, text[i..]);
      if here {
        assert Continues(Star(c), Read(re), text, i);
        return true;
      }
      if i == |text| || !(text[i] == c || c == '.') {
        break;
      }
      i := i + 1;
    }
    forall n: nat | Continues(Star(c), Read(re), text, n) ensures n <= i {
      assert i < n ==> CharFits(c, text[..n][i]);
    }
    return false;
  }

  /** Where a whole pattern matches in a text: at the start after `^`, anywhere otherwise. */
  ghost predicate Matches(re: string, text: string) {
    if re != "" && re[0] == '^' then Accepts(Read(re[1..]), text)
    else exists k: nat :: k <= |text| && Accepts(Read(re), text[k..])
  }

  /** match(): sound and complete. */
  method Match(re: string, text: string) returns (r: bool)
    ensures r <==> Matches(re, text)
  {
    if re != "" && re[0] == '^' {
      r := MatchHere(re[1..], text);
      return;
    }
    var k := 0;
    while true
      invariant 0 <= k <= |text|
      invariant forall n: nat :: n < k ==> !Accepts(Read(re), text[n..])
      decreases |text| - k
    {
      var here := MatchHere(re, text[k..]);
      if here {
        return true;
      }
      if k == |text| {
        return false;
      }
      k := k + 1;
    }
  }
}
