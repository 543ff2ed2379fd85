/**
 The grammar that the recursive-descent parser of sh.c implements, over the tokens of a line:

   line  = pipe {"&"} [";" line]
   pipe  = unit ["|" pipe]
   unit  = {redir} {word {redir}}  |  "(" line ")" {redir}
   redir = ("<" | ">" | ">>") word

 with at most nine words to a command. The parser accepts exactly the lines whose tokens are a
 sentence of this grammar, and its tree is the sentence's meaning.
 */
module ShellGrammar {
  import opened Shell

  // Tokens.

  datatype Tok = Word(span: Span) | Sym(c: char)

  function TokOf(t: Token): Tok {
    if t.kind == 'a' then Word(t.span) else Sym(t.kind)
  }

  /** The tokens that gettoken() finds from position i on. */
  function Lex(s: string, i: nat): seq<Tok>
    requires i <= |s|
    decreases |s| - i
  {
    var t := GetToken(s, i);
    if t.kind == NUL then [] else [TokOf(t)] + Lex(s, t.next)
  }

  /** The character that peek() sees in front of these tokens. */
  function Head(ts: seq<Tok>): char {
    if ts == [] then NUL else if ts[0].Word? then 'a' else if ts[0].c == '+' then '>' else ts[0].c
  }

  predicate EndsCommand(ts: seq<Tok>) {
    Head(ts) == NUL || Head(ts) in "|)&;"
  }

  /** The line from i on without its white space. */
  function Squeezed(s: string, i: nat): string
    requires i <= |s|
    decreases |s| - i
  {
    if i == |s| then "" else (if IsSpace(s[i]) then "" else [s[i]]) + Squeezed(s, i + 1)
  }

  function Spelled(s: string, ts: seq<Tok>): string {
    if ts == [] then "" else Spelling(s, ts[0]) + Spelled(s, ts[1..])
  }

  function Spelling(s: string, tok: Tok): string {
    match tok
    case Word(w) => WordText(s, w)
    case Sym(c) => if c == '+' then ">>" else [c]
  }

  /** A token stands between white space, without any inside, and is spelled as the line has it. */
  lemma TokenStands(s: string, i: nat)
    requires i <= |s| && GetToken(s, i).kind != NUL
    ensures var t := GetToken(s, i);
            && t.span.from == SkipSpace(s, i) && t.next == SkipSpace(s, t.span.to)
            && (forall k :: t.span.from <= k < t.span.to ==> !IsSpace(s[k]))
            && Spelling(s, TokOf(t)) == s[t.span.from..t.span.to]
  {
    hide SkipSpace;
  }

  lemma {:induction false} SqueezeSpace(s: string, i: nat)
    requires i <= |s|
    ensures Squeezed(s, SkipSpace(s, i)) == Squeezed(s, i)
    decreases |s| - i
  {
    if i < |s| && IsSpace(s[i]) {
      SqueezeSpace(s, i + 1);
    }
  }

  lemma {:induction false} SqueezeText(s: string, i: nat, j: nat)
    requires i <= j <= |s| && forall k :: i <= k < j ==> !IsSpace(s[k])
    ensures Squeezed(s, i) == s[i..j] + Squeezed(s, j)
    decreases j - i
  {
    hide IsSpace;
    if i < j {
      SqueezeText(s, i + 1, j);
      assert Squeezed(s, i) == [s[i]] + Squeezed(s, i + 1);
      assert [s[i]] + (s[i + 1..j] + Squeezed(s, j)) == s[i..j] + Squeezed(s, j);
    }
  }

  lemma SqueezedEnd(s: string)
    ensures Squeezed(s, |s|) == ""
  {
  }

  lemma AtEnd(s: string, i: nat)
    requires NUL !in s && i <= |s|
    ensures Lex(s, i) == [] <==> SkipSpace(s, i) == |s|
  {
  }

  /** The tokens take up the whole line: spelled out they are the line without its white space. */
  lemma {:induction false} NothingIsSkipped(s: string, i: nat)
    requires NUL !in s && i <= |s|
    ensures Spelled(s, Lex(s, i)) == Squeezed(s, i)
    decreases |s| - i
  {
    hide IsSpace, Spelling, SkipSpace, GetToken, Squeezed;
    var q, t := SkipSpace(s, i), GetToken(s, i);
    SqueezeSpace(s, i);
    if t.kind == NUL {
      AtEnd(s, i);
      SqueezedEnd(s);
    } else {
      TokenStands(s, i);
      SqueezeText(s, q, t.span.to);
      SqueezeSpace(s, t.span.to);
      NothingIsSkipped(s, t.next);
      assert Lex(s, i)[1..] == Lex(s, t.next);
    }
  }

  // Sentences, what they look like and what they mean.

  datatype Target = Target(op: char, file: Span)

  datatype Arg = Arg(word: Span, targets: seq<Target>)

  datatype Unit = Simple(lead: seq<Target>, args: seq<Arg>) | Block(line: Line, targets: seq<Target>)

  datatype Pipe = Last(unit: Unit) | Bar(unit: Unit, rest: Pipe)

  datatype Line = End(pipe: Pipe, amps: nat) | Semi(pipe: Pipe, amps: nat, rest: Line)

  predicate GoodTargets(rs: seq<Target>) {
    forall k :: 0 <= k < |rs| ==> rs[k].op == '<' || rs[k].op == '>' || rs[k].op == '+'
  }

  predicate GoodArgs(args: seq<Arg>) {
    forall k :: 0 <= k < |args| ==> GoodTargets(args[k].targets)
  }

  predicate GoodUnit(u: Unit) {
    match u
    case Simple(lead, args) => GoodTargets(lead) && GoodArgs(args) && |args| < MAXARGS
    case Block(line, rs) => GoodLine(line) && GoodTargets(rs)
  }

  predicate GoodPipe(p: Pipe) {
    GoodUnit(p.unit) && (p.Bar? ==> GoodPipe(p.rest))
  }

  predicate GoodLine(l: Line) {
    GoodPipe(l.pipe) && (l.Semi? ==> GoodLine(l.rest))
  }

  function TargetToks(rs: seq<Target>): seq<Tok> {
    if rs == [] then [] else [Sym(rs[0].op), Word(rs[0].file)] + TargetToks(rs[1..])
  }

  function ArgToks(args: seq<Arg>): seq<Tok> {
    if args == [] then [] else [Word(args[0].word)] + (TargetToks(args[0].targets) + ArgToks(args[1..]))
  }

  function UnitToks(u: Unit): seq<Tok> {
    match u
    case Simple(lead, args) => TargetToks(lead) + ArgToks(args)
    case Block(line, rs) => [Sym('(')] + (LineToks(line) + ([Sym(')')] + TargetToks(rs)))
  }

  function PipeToks(p: Pipe): seq<Tok> {
    match p
    case Last(u) => UnitToks(u)
    case Bar(u, rest) => UnitToks(u) + ([Sym('|')] + PipeToks(rest))
  }

  function AmpToks(n: nat): seq<Tok> {
    if n == 0 then [] else [Sym('&')] + AmpToks(n - 1)
  }

  function LineToks(l: Line): seq<Tok> {
    match l
    case End(p, n) => PipeToks(p) + AmpToks(n)
    case Semi(p, n, rest) => PipeToks(p) + (AmpToks(n) + ([Sym(';')] + LineToks(rest)))
  }

  /** What one redirection asks for: `>` and `>>` are the same to this shell. */
  function Asks(r: Target): Redirection<Span> {
    Redirection(r.file, if r.op == '<' then Input else Output)
  }

  function AllAsked(rs: seq<Target>): seq<Redirection<Span>> {
    if rs == [] then [] else [Asks(rs[0])] + AllAsked(rs[1..])
  }

  function ArgWords(args: seq<Arg>): seq<Span> {
    if args == [] then [] else [args[0].word] + ArgWords(args[1..])
  }

  function ArgTargets(args: seq<Arg>): seq<Target> {
    if args == [] then [] else args[0].targets + ArgTargets(args[1..])
  }

  /** Every redirection wraps what stands before it, whether it comes before, between or behind the words. */
  function UnitMeans(u: Unit): Cmd<Span> {
    match u
    case Simple(lead, args) => Wrap(Exec(ArgWords(args)), AllAsked(lead + ArgTargets(args)))
    case Block(line, rs) => Wrap(LineMeans(line), AllAsked(rs))
  }

  function PipeMeans(p: Pipe): Cmd<Span> {
    match p
    case Last(u) => UnitMeans(u)
    case Bar(u, rest) => Piped(UnitMeans(u), PipeMeans(rest))
  }

  function Backs(c: Cmd<Span>, n: nat): Cmd<Span>
    decreases n
  {
    if n == 0 then c else Backs(Back(c), n - 1)
  }

  function LineMeans(l: Line): Cmd<Span> {
    match l
    case End(p, n) => Backs(PipeMeans(p), n)
    case Semi(p, n, rest) => List(Backs(PipeMeans(p), n), LineMeans(rest))
  }

  lemma {:induction false} AskedJoin(a: seq<Target>, b: seq<Target>)
    ensures AllAsked(a + b) == AllAsked(a) + AllAsked(b)
  {
    if a == [] {
      assert a + b == b;
    } else {
      assert (a + b)[1..] == a[1..] + b;
      AskedJoin(a[1..], b);
    }
  }

  // peek() and gettoken() on tokens.

  lemma Skips(s: string, i: nat)
    requires i <= |s|
    ensures var j := SkipSpace(s, i); SkipSpace(s, j) == j && GetToken(s, j) == GetToken(s, i) && Lex(s, j) == Lex(s, i)
  {
    assert SkipSpace(s, SkipSpace(s, i)) == SkipSpace(s, i);
  }

  lemma Peeks(s: string, i: nat, toks: string)
    requires i <= |s| && forall k :: 0 <= k < |toks| ==> IsSymbol(toks[k])
    ensures Peek(s, i, toks) <==> Head(Lex(s, i)) in toks
  {
    var c := At(s, SkipSpace(s, i));
    var t := GetToken(s, i);
    assert c == NUL <==> t.kind == NUL;
    assert IsSymbol(c) || c == NUL ==> Head(Lex(s, i)) == c;
    assert !IsSymbol(c) && c != NUL ==> Head(Lex(s, i)) == 'a';
  }

  /** What gettoken() returns in front of these tokens. */
  lemma Takes(s: string, i: nat, tok: Tok, rest: seq<Tok>)
    requires i <= |s| && Lex(s, i) == [tok] + rest
    ensures var t := GetToken(s, i); t.kind != NUL && TokOf(t) == tok && i < t.next && Lex(s, t.next) == rest
  {
    var t := GetToken(s, i);
    assert ([tok] + rest)[1..] == rest;
    assert ([TokOf(t)] + Lex(s, t.next))[1..] == Lex(s, t.next);
  }

  /** At the end of the line the position does not move. */
  lemma EndToken(s: string, i: nat)
    requires i <= |s| && SkipSpace(s, i) == i
    ensures GetToken(s, i).kind == NUL ==> GetToken(s, i).next == i && Lex(s, i) == []
  {
  }

  /** A token in front of the others. */
  lemma NextIs(s: string, i: nat)
    requires i <= |s|
    ensures var t := GetToken(s, i); t.kind != NUL ==> Lex(s, i) == [TokOf(t)] + Lex(s, t.next)
    ensures GetToken(s, i).kind == NUL ==> Lex(s, i) == [] && Lex(s, GetToken(s, i).next) == []
  {
    Skips(s, i);
    EndToken(s, SkipSpace(s, i));
  }

  // Sentences parse.

  lemma {:induction false} TargetsParse(s: string, i: nat, rs: seq<Target>, rest: seq<Tok>)
    requires i <= |s| && GoodTargets(rs) && Lex(s, i) == TargetToks(rs) + rest && Head(rest) !in "<>"
    ensures var r := ParseRedirs(s, i); r.Ok? && r.value == AllAsked(rs) && Lex(s, r.next) == rest
    decreases |rs|
  {
    hide GetToken, Lex, SkipSpace, Peek;
    Skips(s, i);
    Peeks(s, i, "<>");
    if rs == [] {
      assert TargetToks(rs) + rest == rest;
    } else {
      var j := SkipSpace(s, i);
      var more := TargetToks(rs[1..]) + rest;
      assert TargetToks(rs) + rest == [Sym(rs[0].op)] + ([Word(rs[0].file)] + more);
      Takes(s, j, Sym(rs[0].op), [Word(rs[0].file)] + more);
      var t := GetToken(s, j);
      Takes(s, t.next, Word(rs[0].file), more);
      TargetsParse(s, GetToken(s, t.next).next, rs[1..], rest);
    }
  }

  lemma {:induction false} ArgsParse(s: string, i: nat, args: seq<Arg>, argc: nat, rest: seq<Tok>)
    requires i <= |s| && GoodArgs(args) && argc + |args| < MAXARGS
    requires Lex(s, i) == ArgToks(args) + rest && EndsCommand(rest)
    ensures var r := ParseArgs(s, i, argc);
            r.Ok? && r.value == Args(ArgWords(args), AllAsked(ArgTargets(args))) && Lex(s, r.next) == rest
    decreases |args|
  {
    hide GetToken, SkipSpace, Peek, ParseRedirs, ParseArgs, Lex, TargetToks;
    Skips(s, i);
    Peeks(s, i, "|)&;");
    ArgsUnfold(s, i, argc);
    var j := SkipSpace(s, i);
    if args == [] {
      assert ArgToks(args) + rest == rest;
      NextIs(s, j);
    } else {
      var a, more := args[0], ArgToks(args[1..]) + rest;
      assert ArgToks(args) + rest == [Word(a.word)] + (TargetToks(a.targets) + more);
      Takes(s, j, Word(a.word), TargetToks(a.targets) + more);
      var t := GetToken(s, j);
      assert Head(more) !in "<>";
      TargetsParse(s, t.next, a.targets, more);
      ArgsParse(s, ParseRedirs(s, t.next).next, args[1..], argc + 1, rest);
      AskedJoin(a.targets, ArgTargets(args[1..]));
    }
  }

  lemma SimpleParses(s: string, i: nat, lead: seq<Target>, args: seq<Arg>, rest: seq<Tok>)
    requires i <= |s| && GoodUnit(Simple(lead, args))
    requires Lex(s, i) == UnitToks(Simple(lead, args)) + rest && EndsCommand(rest)
    ensures var r := ParseExec(s, i); r.Ok? && r.value == UnitMeans(Simple(lead, args)) && Lex(s, r.next) == rest
  {
    hide GetToken, SkipSpace, Peek, ParseRedirs, ParseArgs, Lex, Wrap;
    Skips(s, i);
    Peeks(s, i, "(");
    var j, more := SkipSpace(s, i), ArgToks(args) + rest;
    assert UnitToks(Simple(lead, args)) + rest == TargetToks(lead) + more;
    assert Head(more) !in "<>";
    assert Head(Lex(s, i)) != '(';
    TargetsParse(s, j, lead, more);
    ArgsParse(s, ParseRedirs(s, j).next, args, 0, rest);
    AskedJoin(lead, ArgTargets(args));
  }

  lemma {:induction false} UnitParses(s: string, i: nat, u: Unit, rest: seq<Tok>)
    requires i <= |s| && GoodUnit(u) && Lex(s, i) == UnitToks(u) + rest && EndsCommand(rest)
    ensures var r := ParseExec(s, i); r.Ok? && r.value == UnitMeans(u) && Lex(s, r.next) == rest
    decreases u
  {
    hide GetToken, SkipSpace, Peek, ParseRedirs, ParseArgs, ParseLine, Lex, Wrap, TargetToks, ArgToks;
    if u.Simple? {
      SimpleParses(s, i, u.lead, u.args, rest);
    } else {
      Skips(s, i);
      Peeks(s, i, "(");
      var j := SkipSpace(s, i);
      Peeks(s, j, "(");
      Skips(s, j);
      var behind := TargetToks(u.targets) + rest;
      assert UnitToks(u) + rest == [Sym('(')] + (LineToks(u.line) + ([Sym(')')] + behind));
      Takes(s, j, Sym('('), LineToks(u.line) + ([Sym(')')] + behind));
      var t := GetToken(s, j);
      LineParses(s, t.next, u.line, [Sym(')')] + behind);
      var k := ParseLine(s, t.next).next;
      Skips(s, k);
      Peeks(s, k, ")");
      Takes(s, SkipSpace(s, k), Sym(')'), behind);
      TargetsParse(s, GetToken(s, SkipSpace(s, k)).next, u.targets, rest);
    }
  }

  lemma {:induction false} PipeParses(s: string, i: nat, p: Pipe, rest: seq<Tok>)
    requires i <= |s| && GoodPipe(p) && Lex(s, i) == PipeToks(p) + rest && EndsCommand(rest) && Head(rest) != '|'
    ensures var r := ParsePipe(s, i); r.Ok? && r.value == PipeMeans(p) && Lex(s, r.next) == rest
    decreases p
  {
    hide GetToken, SkipSpace, Peek, ParseExec, Lex;
    if p.Last? {
      UnitParses(s, i, p.unit, rest);
      var k := ParseExec(s, i).next;
      Skips(s, k);
      Peeks(s, k, "|");
    } else {
      var more := PipeToks(p.rest) + rest;
      assert PipeToks(p) + rest == UnitToks(p.unit) + ([Sym('|')] + more);
      UnitParses(s, i, p.unit, [Sym('|')] + more);
      var k := ParseExec(s, i).next;
      Skips(s, k);
      Peeks(s, k, "|");
      Takes(s, SkipSpace(s, k), Sym('|'), more);
      PipeParses(s, GetToken(s, SkipSpace(s, k)).next, p.rest, rest);
    }
  }

  lemma {:induction false} AmpsParse(s: string, i: nat, c: Cmd<Span>, n: nat, rest: seq<Tok>)
    requires i <= |s| && InLine(s, c) && Lex(s, i) == AmpToks(n) + rest && Head(rest) != '&'
    ensures var r := ParseBacks(s, i, c); r.Ok? && r.value == Backs(c, n) && Lex(s, r.next) == rest
    decreases n
  {
    hide GetToken, SkipSpace, Peek, Lex;
    Skips(s, i);
    Peeks(s, i, "&");
    if n == 0 {
      assert AmpToks(n) + rest == rest;
    } else {
      assert AmpToks(n) + rest == [Sym('&')] + (AmpToks(n - 1) + rest);
      Takes(s, SkipSpace(s, i), Sym('&'), AmpToks(n - 1) + rest);
      AmpsParse(s, GetToken(s, SkipSpace(s, i)).next, Back(c), n - 1, rest);
    }
  }

  lemma {:induction false} LineParses(s: string, i: nat, l: Line, rest: seq<Tok>)
    requires i <= |s| && GoodLine(l) && Lex(s, i) == LineToks(l) + rest && (Head(rest) == NUL || Head(rest) == ')')
    ensures var r := ParseLine(s, i); r.Ok? && r.value == LineMeans(l) && Lex(s, r.next) == rest
    decreases l
  {
    hide GetToken, SkipSpace, Peek, ParsePipe, ParseBacks, Lex, PipeToks;
    var behind := if l.End? then rest else [Sym(';')] + (LineToks(l.rest) + rest);
    assert LineToks(l) + rest == PipeToks(l.pipe) + (AmpToks(l.amps) + behind);
    AmpsHead(l.amps, behind);
    PipeParses(s, i, l.pipe, AmpToks(l.amps) + behind);
    var p := ParsePipe(s, i);
    AmpsParse(s, p.next, p.value, l.amps, behind);
    var k := ParseBacks(s, p.next, p.value).next;
    Skips(s, k);
    Peeks(s, k, ";");
    if l.Semi? {
      Takes(s, SkipSpace(s, k), Sym(';'), LineToks(l.rest) + rest);
      LineParses(s, GetToken(s, SkipSpace(s, k)).next, l.rest, rest);
    }
  }

  lemma AmpsHead(n: nat, rest: seq<Tok>)
    ensures Head(AmpToks(n) + rest) == if n == 0 then Head(rest) else '&'
  {
    if n == 0 {
      assert AmpToks(n) + rest == rest;
    }
  }

  // What parses is a sentence.

  lemma {:induction false} TargetsFound(s: string, i: nat) returns (rs: seq<Target>)
    requires i <= |s| && ParseRedirs(s, i).Ok?
    ensures var r := ParseRedirs(s, i);
            GoodTargets(rs) && r.value == AllAsked(rs) && Lex(s, i) == TargetToks(rs) + Lex(s, r.next)
    decreases |s| - i
  {
    hide GetToken, Lex, SkipSpace, Peek;
    Skips(s, i);
    Peeks(s, i, "<>");
    var j := SkipSpace(s, i);
    if !Peek(s, i, "<>") {
      rs := [];
      assert TargetToks(rs) + Lex(s, j) == Lex(s, j);
    } else {
      var t := GetToken(s, j);
      var w := GetToken(s, t.next);
      NextIs(s, j);
      NextIs(s, t.next);
      var more := TargetsFound(s, w.next);
      rs := [Target(t.kind, w.span)] + more;
      assert rs[1..] == more;
      assert TargetToks(rs) + Lex(s, ParseRedirs(s, i).next) ==
             [Sym(t.kind)] + ([Word(w.span)] + (TargetToks(more) + Lex(s, ParseRedirs(s, i).next)));
    }
  }

  lemma {:induction false} ArgsFound(s: string, i: nat, argc: nat) returns (args: seq<Arg>)
    requires i <= |s| && argc < MAXARGS && ParseArgs(s, i, argc).Ok?
    ensures var r := ParseArgs(s, i, argc);
            && GoodArgs(args) && argc + |args| < MAXARGS
            && r.value == Args(ArgWords(args), AllAsked(ArgTargets(args)))
            && Lex(s, i) == ArgToks(args) + Lex(s, r.next)
    decreases |s| - i
  {
    hide GetToken, SkipSpace, Peek, ParseRedirs, ParseArgs, Lex, TargetToks;
    Skips(s, i);
    ArgsUnfold(s, i, argc);
    var j, next := SkipSpace(s, i), ParseArgs(s, i, argc).next;
    var t := GetToken(s, j);
    NextIs(s, j);
    if Peek(s, i, "|)&;") || t.kind == NUL {
      args := [];
      assert ArgToks(args) + Lex(s, next) == Lex(s, next);
    } else {
      var rs := TargetsFound(s, t.next);
      var more := ArgsFound(s, ParseRedirs(s, t.next).next, argc + 1);
      args := [Arg(t.span, rs)] + more;
      assert args[1..] == more;
      AskedJoin(rs, ArgTargets(more));
      assert ArgToks(args) + Lex(s, next) == [Word(t.span)] + (TargetToks(rs) + (ArgToks(more) + Lex(s, next)));
    }
  }

  lemma {:induction false} UnitFound(s: string, i: nat) returns (u: Unit)
    requires i <= |s| && ParseExec(s, i).Ok?
    ensures var r := ParseExec(s, i);
            GoodUnit(u) && r.value == UnitMeans(u) && Lex(s, i) == UnitToks(u) + Lex(s, r.next)
    decreases |s| - i, 1
  {
    hide GetToken, SkipSpace, Peek, ParseRedirs, ParseArgs, ParseBlock, Lex, TargetToks, ArgToks, Wrap;
    Skips(s, i);
    var j := SkipSpace(s, i);
    Peeks(s, i, "(");
    Peeks(s, j, "(");
    if Peek(s, i, "(") {
      u := BlockFound(s, j);
    } else {
      var lead := TargetsFound(s, j);
      var args := ArgsFound(s, ParseRedirs(s, j).next, 0);
      u := Simple(lead, args);
      AskedJoin(lead, ArgTargets(args));
      var rest := Lex(s, ParseExec(s, i).next);
      assert UnitToks(u) + rest == TargetToks(lead) + (ArgToks(args) + rest);
    }
  }

  lemma {:induction false} BlockFound(s: string, i: nat) returns (u: Unit)
    requires i <= |s| && Peek(s, i, "(") && ParseBlock(s, i).Ok?
    ensures var r := ParseBlock(s, i);
            GoodUnit(u) && r.value == UnitMeans(u) && Lex(s, i) == UnitToks(u) + Lex(s, r.next)
    decreases |s| - i, 0
  {
    hide GetToken, SkipSpace, Peek, ParseRedirs, ParseLine, Lex, TargetToks, Wrap;
    Symbol(s, i, '(');
    var t := GetToken(s, i);
    var line := LineFound(s, t.next);
    var k := ParseLine(s, t.next).next;
    Skips(s, k);
    Symbol(s, k, ')');
    var close := GetToken(s, SkipSpace(s, k));
    var rs := TargetsFound(s, close.next);
    u := Block(line, rs);
    var rest := Lex(s, ParseBlock(s, i).next);
    assert UnitToks(u) + rest == [Sym('(')] + (LineToks(line) + ([Sym(')')] + (TargetToks(rs) + rest)));
  }

  /** A symbol, other than a redirection, that peek() announces and gettoken() takes. */
  lemma Symbol(s: string, i: nat, c: char)
    requires i <= |s| && c in "()|&;" && Peek(s, i, [c])
    ensures var t := GetToken(s, i); i < t.next && Lex(s, i) == [Sym(c)] + Lex(s, t.next)
  {
    Peeks(s, i, [c]);
    NextIs(s, i);
  }

  lemma {:induction false} PipeFound(s: string, i: nat) returns (p: Pipe)
    requires i <= |s| && ParsePipe(s, i).Ok?
    ensures var r := ParsePipe(s, i);
            GoodPipe(p) && r.value == PipeMeans(p) && Lex(s, i) == PipeToks(p) + Lex(s, r.next)
    decreases |s| - i, 2
  {
    hide GetToken, SkipSpace, Peek, ParseExec, Lex, UnitToks;
    var u := UnitFound(s, i);
    var k := ParseExec(s, i).next;
    Skips(s, k);
    if Peek(s, k, "|") {
      Symbol(s, k, '|');
      var more := PipeFound(s, GetToken(s, SkipSpace(s, k)).next);
      p := Bar(u, more);
      var rest := Lex(s, ParsePipe(s, i).next);
      assert PipeToks(p) + rest == UnitToks(u) + ([Sym('|')] + (PipeToks(more) + rest));
    } else {
      p := Last(u);
    }
  }

  lemma {:induction false} AmpsFound(s: string, i: nat, c: Cmd<Span>) returns (n: nat)
    requires i <= |s| && InLine(s, c)
    ensures var r := ParseBacks(s, i, c); r.value == Backs(c, n) && Lex(s, i) == AmpToks(n) + Lex(s, r.next)
    decreases |s| - i
  {
    hide GetToken, SkipSpace, Peek, Lex;
    Skips(s, i);
    var j := SkipSpace(s, i);
    if Peek(s, i, "&") {
      Symbol(s, i, '&');
      var m := AmpsFound(s, GetToken(s, j).next, Back(c));
      n := m + 1;
      var rest := Lex(s, ParseBacks(s, i, c).next);
      assert AmpToks(n) + rest == [Sym('&')] + (AmpToks(m) + rest);
    } else {
      n := 0;
      assert AmpToks(n) + Lex(s, j) == Lex(s, j);
    }
  }

  lemma {:induction false} LineFound(s: string, i: nat) returns (l: Line)
    requires i <= |s| && ParseLine(s, i).Ok?
    ensures var r := ParseLine(s, i);
            GoodLine(l) && r.value == LineMeans(l) && Lex(s, i) == LineToks(l) + Lex(s, r.next)
    decreases |s| - i, 3
  {
    hide GetToken, SkipSpace, Peek, ParsePipe, ParseBacks, Lex, PipeToks;
    var pipe := PipeFound(s, i);
    var p := ParsePipe(s, i);
    var amps := AmpsFound(s, p.next, p.value);
    var k := ParseBacks(s, p.next, p.value).next;
    Skips(s, k);
    var rest := Lex(s, ParseLine(s, i).next);
    if Peek(s, k, ";") {
      Symbol(s, k, ';');
      var more := LineFound(s, GetToken(s, SkipSpace(s, k)).next);
      l := Semi(pipe, amps, more);
      assert LineToks(l) + rest == PipeToks(pipe) + (AmpToks(amps) + ([Sym(';')] + (LineToks(more) + rest)));
    } else {
      l := End(pipe, amps);
      assert LineToks(l) + rest == PipeToks(pipe) + (AmpToks(amps) + rest);
    }
  }

  // The whole line.

  /** The tokens of the line are this sentence. */
  ghost predicate Reads(s: string, l: Line) {
    GoodLine(l) && Lex(s, 0) == LineToks(l)
  }

  /** Every sentence is accepted, with its meaning as the tree. */
  lemma SentenceParses(s: string, l: Line)
    requires NUL !in s && Reads(s, l)
    ensures ParseCmd(s).Ok? && ParseCmd(s).value == LineMeans(l)
  {
    hide ParseLine, Lex, SkipSpace;
    assert LineToks(l) + [] == LineToks(l);
    LineParses(s, 0, l, []);
    AtEnd(s, ParseLine(s, 0).next);
  }

  /** A line is accepted exactly if its tokens are a sentence; every other line makes the shell give up. */
  lemma AcceptsExactly(s: string)
    requires NUL !in s
    ensures ParseCmd(s).Ok? <==> exists l :: Reads(s, l)
  {
    hide ParseLine, Lex, SkipSpace;
    if ParseCmd(s).Ok? {
      var l := LineFound(s, 0);
      AtEnd(s, ParseLine(s, 0).next);
      assert LineToks(l) + [] == LineToks(l);
      assert Reads(s, l);
    }
    if l :| Reads(s, l) {
      SentenceParses(s, l);
    }
  }

  /** Two sentences that read the same mean the same. */
  lemma Unambiguous(s: string, l: Line, m: Line)
    requires NUL !in s && Reads(s, l) && Reads(s, m)
    ensures LineMeans(l) == LineMeans(m)
  {
    SentenceParses(s, l);
    SentenceParses(s, m);
  }
}
