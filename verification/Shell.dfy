/**
 The command parser of sh.c. A line is its characters up to the terminating NUL; the parsed
 tree refers to words by their place in the line, as the source's pointer pairs do, until
 nulterminate() cuts them out of the buffer.
 */
module Shell {

  const MAXARGS := 10
  const NUL := '\0'

  /** A word of the line: from `from` up to but not including `to`. */
  datatype Span = Span(from: nat, to: nat)

  /** O_RDONLY on descriptor 0, or O_WRONLY|O_CREATE on descriptor 1. */
  datatype Direction = Input | Output

  datatype Redirection<W> = Redirection(file: W, dir: Direction)

  datatype Cmd<W> =
    | Exec(argv: seq<W>)
    | Redir(cmd: Cmd<W>, redir: Redirection<W>)
    | Piped(left: Cmd<W>, right: Cmd<W>)
    | List(left: Cmd<W>, right: Cmd<W>)
    | Back(cmd: Cmd<W>)

  predicate IsSpace(c: char) {
    c == ' ' || c == '\t' || c == '\r' || c == '\n' || c == '\U{0B}'
  }

  predicate IsSymbol(c: char) {
    c in "<|>&;()"
  }

  predicate IsWordChar(c: char) {
    c != NUL && !IsSpace(c) && !IsSymbol(c)
  }

  /** The character at a position; NUL at the end of the line. */
  function At(s: string, i: nat): char {
    if i < |s| then s[i] else NUL
  }

  // gettoken() and peek().

  function SkipSpace(s: string, i: nat): (r: nat)
    requires i <= |s|
    ensures i <= r <= |s|
    ensures r < |s| ==> !IsSpace(s[r])
    decreases |s| - i
  {
    if i < |s| && IsSpace(s[i]) then SkipSpace(s, i + 1) else i
  }

  /** Where the word starting at i ends. */
  function WordEnd(s: string, i: nat): (r: nat)
    requires i <= |s|
    ensures i <= r <= |s|
    ensures forall k :: i <= k < r ==> !IsSpace(s[k]) && !IsSymbol(s[k])
    ensures r < |s| ==> IsSpace(s[r]) || IsSymbol(s[r])
    decreases |s| - i
  {
    if i < |s| && !IsSpace(s[i]) && !IsSymbol(s[i]) then WordEnd(s, i + 1) else i
  }

  /** A token: 'a' for a word, '+' for >>, NUL at the end, else the symbol itself. */
  datatype Token = Token(kind: char, span: Span, next: nat)

  function GetToken(s: string, i: nat): (t: Token)
    requires i <= |s|
    ensures i <= t.span.from <= t.span.to <= t.next <= |s|
    ensures t.kind != NUL ==> i < t.next
    ensures t.kind == 'a' ==> WordAt(s, t.span)
  {
    var q := SkipSpace(s, i);
    var c := At(s, q);
    if c == NUL then Token(NUL, Span(q, q), SkipSpace(s, q))
    else if c == '>' && At(s, q + 1) == '>' then Token('+', Span(q, q + 2), SkipSpace(s, q + 2))
    else if IsSymbol(c) then Token(c, Span(q, q + 1), SkipSpace(s, q + 1))
    else
      var e := WordEnd(s, q);
      Token('a', Span(q, e), SkipSpace(s, e))
  }

  /** A maximal run of word characters: non-empty and stopped by a delimiter or the end. */
  ghost predicate WordAt(s: string, w: Span)
  {
    && w.from < w.to <= |s|
    && (forall k :: w.from <= k < w.to ==> !IsSpace(s[k]) && !IsSymbol(s[k]))
    && (w.to < |s| ==> IsSpace(s[w.to]) || IsSymbol(s[w.to]))
  }

  /** peek(): moves past white space and tests the next character. */
  predicate Peek(s: string, i: nat, toks: string)
    requires i <= |s|
  {
    var c := At(s, SkipSpace(s, i));
    c != NUL && c in toks
  }

  // The parsers as functions of line and position.

  datatype Error = MissingFile | Syntax | TooManyArgs | MissingParen | Leftovers

  datatype Parsed<T> = Ok(value: T, next: nat) | Err(error: Error)

  ghost predicate Words(s: string, ws: seq<Span>)
  {
    forall i :: 0 <= i < |ws| ==> WordAt(s, ws[i])
  }

  ghost predicate Files(s: string, rs: seq<Redirection<Span>>)
  {
    forall i :: 0 <= i < |rs| ==> WordAt(s, rs[i].file)
  }

  /** Every word and file name in the tree is a whole word of the line. */
  ghost predicate InLine(s: string, c: Cmd<Span>)
  {
    match c
    case Exec(argv) => Words(s, argv)
    case Redir(c1, r) => InLine(s, c1) && WordAt(s, r.file)
    case Piped(l, r) => InLine(s, l) && InLine(s, r)
    case List(l, r) => InLine(s, l) && InLine(s, r)
    case Back(c1) => InLine(s, c1)
  }

  function Wrap<W>(c: Cmd<W>, rs: seq<Redirection<W>>): Cmd<W>
    decreases |rs|
  {
    if rs == [] then c else Wrap(Redir(c, rs[0]), rs[1..])
  }

  lemma {:induction false} WrapInLine(s: string, c: Cmd<Span>, rs: seq<Redirection<Span>>)
    requires InLine(s, c) && Files(s, rs)
    ensures InLine(s, Wrap(c, rs))
    decreases |rs|
  {
    if rs != [] {
      WrapInLine(s, Redir(c, rs[0]), rs[1..]);
    }
  }

  /** parseredirs(): the redirections in order. */
  function ParseRedirs(s: string, i: nat): (r: Parsed<seq<Redirection<Span>>>)
    requires i <= |s|
    ensures r.Ok? ==> i <= r.next <= |s| && Files(s, r.value)
    decreases |s| - i
  {
    var j := SkipSpace(s, i);
    if !Peek(s, i, "<>") then Ok([], j)
    else
      var t := GetToken(s, j);
      var w := GetToken(s, t.next);
      if w.kind != 'a' then Err(MissingFile)
      else
        var rest := ParseRedirs(s, w.next);
        if rest.Err? then rest
        else Ok([Redirection(w.span, if t.kind == '<' then Input else Output)] + rest.value, rest.next)
  }

  datatype Args = Args(argv: seq<Span>, redirs: seq<Redirection<Span>>)

  /** The loop of parseexec() when argc words have been read. */
  function ParseArgs(s: string, i: nat, argc: nat): (r: Parsed<Args>)
    requires i <= |s|
    ensures r.Ok? ==> i <= r.next <= |s| && Words(s, r.value.argv) && Files(s, r.value.redirs)
    decreases |s| - i
  {
    var j := SkipSpace(s, i);
    if Peek(s, i, "|)&;") then Ok(Args([], []), j)
    else
      var t := GetToken(s, j);
      if t.kind == NUL then Ok(Args([], []), t.next)
      else if t.kind != 'a' then Err(Syntax)
      else if argc + 1 >= MAXARGS then Err(TooManyArgs)
      else
        var rd := ParseRedirs(s, t.next);
        if rd.Err? then Err(rd.error)
        else
          var rest := ParseArgs(s, rd.next, argc + 1);
          if rest.Err? then rest
          else Ok(Args([t.span] + rest.value.argv, rd.value + rest.value.redirs), rest.next)
  }

  function ParseExec(s: string, i: nat): (r: Parsed<Cmd<Span>>)
    requires i <= |s|
    ensures r.Ok? ==> i <= r.next <= |s| && InLine(s, r.value)
    decreases |s| - i, 1
  {
    var j := SkipSpace(s, i);
    if Peek(s, i, "(") then ParseBlock(s, j)
    else
      var rd := ParseRedirs(s, j);
      if rd.Err? then Err(rd.error)
      else
        var a := ParseArgs(s, rd.next, 0);
        if a.Err? then Err(a.error)
        else
          WrapInLine(s, Exec(a.value.argv), rd.value + a.value.redirs);
          Ok(Wrap(Exec(a.value.argv), rd.value + a.value.redirs), a.next)
  }

  function ParseBlock(s: string, i: nat): (r: Parsed<Cmd<Span>>)
    requires i <= |s| && Peek(s, i, "(")
    ensures r.Ok? ==> i <= r.next <= |s| && InLine(s, r.value)
    decreases |s| - i, 0
  {
    var t := GetToken(s, i);
    var body := ParseLine(s, t.next);
    if body.Err? then body
    else
      var j := SkipSpace(s, body.next);
      if !Peek(s, body.next, ")") then Err(MissingParen)
      else
        var rd := ParseRedirs(s, GetToken(s, j).next);
        if rd.Err? then Err(rd.error)
        else
          WrapInLine(s, body.value, rd.value);
          Ok(Wrap(body.value, rd.value), rd.next)
  }

  function ParsePipe(s: string, i: nat): (r: Parsed<Cmd<Span>>)
    requires i <= |s|
    ensures r.Ok? ==> i <= r.next <= |s| && InLine(s, r.value)
    decreases |s| - i, 2
  {
    var left := ParseExec(s, i);
    if left.Err? then left
    else
      var j := SkipSpace(s, left.next);
      if !Peek(s, left.next, "|") then Ok(left.value, j)
      else
        var right := ParsePipe(s, GetToken(s, j).next);
        if right.Err? then right else Ok(Piped(left.value, right.value), right.next)
  }

  /** The loop of parseline() over trailing ampersands. */
  function ParseBacks(s: string, i: nat, c: Cmd<Span>): (r: Parsed<Cmd<Span>>)
    requires i <= |s| && InLine(s, c)
    ensures r.Ok? && i <= r.next <= |s| && InLine(s, r.value)
    decreases |s| - i
  {
    var j := SkipSpace(s, i);
    if Peek(s, i, "&") then ParseBacks(s, GetToken(s, j).next, Back(c)) else Ok(c, j)
  }

  function ParseLine(s: string, i: nat): (r: Parsed<Cmd<Span>>)
    requires i <= |s|
    ensures r.Ok? ==> i <= r.next <= |s| && InLine(s, r.value)
    decreases |s| - i, 3
  {
    var p := ParsePipe(s, i);
    if p.Err? then p
    else
      var b := ParseBacks(s, p.next, p.value);
      var j := SkipSpace(s, b.next);
      if !Peek(s, b.next, ";") then Ok(b.value, j)
      else
        var right := ParseLine(s, GetToken(s, j).next);
        if right.Err? then right else Ok(List(b.value, right.value), right.next)
  }

  /** parsecmd() before nulterminate(). */
  function ParseCmd(s: string): (r: Parsed<Cmd<Span>>)
    ensures r.Ok? ==> InLine(s, r.value)
  {
    var r := ParseLine(s, 0);
    if r.Err? then r
    else if SkipSpace(s, r.next) != |s| then Err(Leftovers)
    else r
  }

  // Printing, and parsing what was printed.

  /** The tree with the words themselves in place of their positions. */
  function Text(s: string, c: Cmd<Span>): Cmd<string>
    requires InLine(s, c)
  {
    match c
    case Exec(argv) => Exec(seq(|argv|, i requires 0 <= i < |argv| => WordText(s, argv[i])))
    case Redir(c1, r) => Redir(Text(s, c1), Redirection(WordText(s, r.file), r.dir))
    case Piped(l, r) => Piped(Text(s, l), Text(s, r))
    case List(l, r) => List(Text(s, l), Text(s, r))
    case Back(c1) => Back(Text(s, c1))
  }

  function WordText(s: string, w: Span): string {
    if w.from <= w.to <= |s| then s[w.from..w.to] else ""
  }

  ghost predicate GoodWord(w: string) {
    |w| > 0 && forall i :: 0 <= i < |w| ==> IsWordChar(w[i])
  }

  /** A tree that can be typed: proper words, and at most nine of them to a command. */
  ghost predicate Printable(c: Cmd<string>) {
    match c
    case Exec(argv) => |argv| < MAXARGS && forall i :: 0 <= i < |argv| ==> GoodWord(argv[i])
    case Redir(c1, r) => Printable(c1) && GoodWord(r.file)
    case Piped(l, r) => Printable(l) && Printable(r)
    case List(l, r) => Printable(l) && Printable(r)
    case Back(c1) => Printable(c1)
  }

  function PrintArgs(argv: seq<string>): string {
    if argv == [] then "" else argv[0] + " " + PrintArgs(argv[1..])
  }

  function Paren(body: string): string {
    "(" + body + ")"
  }

  function PrintRedir(r: Redirection<string>): string {
    (if r.dir == Input then "<" else ">") + r.file + " "
  }

  /** The canonical form: every sub-command in parentheses. */
  function Print(c: Cmd<string>): string {
    match c
    case Exec(argv) => PrintArgs(argv)
    case Redir(c1, r) => Paren(Print(c1)) + PrintRedir(r)
    case Piped(l, r) => Paren(Print(l)) + "|" + Paren(Print(r))
    case List(l, r) => Paren(Print(l)) + ";" + Paren(Print(r))
    case Back(c1) => Paren(Print(c1)) + "&"
  }

  /** The text stands in the line from position i on. */
  ghost predicate Stands(s: string, i: nat, text: string) {
    i + |text| <= |s| && s[i..i + |text|] == text
  }

  lemma StandsParts(s: string, i: nat, a: string, b: string)
    requires Stands(s, i, a + b)
    ensures Stands(s, i, a) && Stands(s, i + |a|, b)
  {
    assert s[i..i + |a|] == (a + b)[..|a|];
    assert s[i + |a|..i + |a| + |b|] == (a + b)[|a|..];
  }

  lemma StandsChar(s: string, i: nat, c: char)
    requires Stands(s, i, [c])
    ensures i < |s| && s[i] == c
  {
    assert s[i..i + 1][0] == c;
  }

  /** The line ends at m or closes a parenthesis there. */
  predicate Follows(s: string, m: nat) {
    m == |s| || (m < |s| && s[m] == ')')
  }

  lemma SymbolToken(s: string, i: nat)
    requires i < |s| && IsSymbol(s[i]) && !IsSpace(At(s, i + 1)) && (s[i] == '>' ==> At(s, i + 1) != '>')
    ensures GetToken(s, i) == Token(s[i], Span(i, i + 1), i + 1)
  {
  }

  lemma {:induction false} WordEndsAt(s: string, i: nat, e: nat)
    requires i <= e < |s| && (IsSpace(s[e]) || IsSymbol(s[e]))
    requires forall k :: i <= k < e ==> !IsSpace(s[k]) && !IsSymbol(s[k])
    ensures WordEnd(s, i) == e
    decreases e - i
  {
    if i < e {
      WordEndsAt(s, i + 1, e);
    }
  }

  lemma WordToken(s: string, i: nat, w: string)
    requires GoodWord(w) && Stands(s, i, w + " ") && !IsSpace(At(s, i + |w| + 1))
    ensures GetToken(s, i) == Token('a', Span(i, i + |w|), i + |w| + 1)
    ensures WordText(s, Span(i, i + |w|)) == w
  {
    StandsParts(s, i, w, " ");
    StandsChar(s, i + |w|, ' ');
    assert s[i] == s[i..i + |w|][0] == w[0];
    forall k | i <= k < i + |w| ensures !IsSpace(s[k]) && !IsSymbol(s[k]) {
      assert s[k] == s[i..i + |w|][k - i] == w[k - i];
      assert IsWordChar(w[k - i]);
    }
    WordEndsAt(s, i, i + |w|);
    assert SkipSpace(s, i + |w|) == i + |w| + 1;
  }

  /** What a printed command starts with. */
  lemma PrintStarts(s: string, i: nat, c: Cmd<string>)
    requires Printable(c) && Stands(s, i, Print(c)) && Follows(s, i + |Print(c)|)
    ensures !IsSpace(At(s, i)) && At(s, i) != '>' && At(s, i) != '<'
    ensures c.Exec? ==> At(s, i) != '('
  {
    if c.Exec? {
      if c.argv != [] {
        var w := c.argv[0];
        assert GoodWord(w) && IsWordChar(w[0]);
        StandsParts(s, i, w + " ", PrintArgs(c.argv[1..]));
        StandsParts(s, i, w, " ");
        assert s[i] == s[i..i + |w|][0];
      }
    } else {
      assert s[i] == s[i..i + |Print(c)|][0] == '(';
    }
  }

  lemma {:induction false} ArgsStart(s: string, i: nat, argv: seq<string>)
    requires (forall k :: 0 <= k < |argv| ==> GoodWord(argv[k])) && |argv| < MAXARGS
    requires Stands(s, i, PrintArgs(argv)) && Follows(s, i + |PrintArgs(argv)|)
    ensures !IsSpace(At(s, i)) && At(s, i) != '>' && At(s, i) != '<'
  {
    PrintStarts(s, i, Exec(argv));
  }

  /** The spans hold these words. */
  ghost predicate Spells(s: string, spans: seq<Span>, words: seq<string>)
  {
    |spans| == |words| && forall k :: 0 <= k < |words| ==> WordText(s, spans[k]) == words[k]
  }

  lemma SpellsCons(s: string, first: Span, rest: seq<Span>, words: seq<string>)
    requires words != [] && WordText(s, first) == words[0] && Spells(s, rest, words[1..])
    ensures Spells(s, [first] + rest, words)
  {
    forall k | 1 <= k < |words| ensures WordText(s, ([first] + rest)[k]) == words[k] {
      assert words[k] == words[1..][k - 1];
    }
  }

  lemma ArgsStep(s: string, i: nat, t: Token, argc: nat)
    requires i <= |s| && SkipSpace(s, i) == i && !Peek(s, i, "|)&;")
    requires GetToken(s, i) == t && t.kind == 'a' && argc + 1 < MAXARGS
    requires ParseRedirs(s, t.next) == Ok([], t.next) && ParseArgs(s, t.next, argc + 1).Ok?
    ensures var rest := ParseArgs(s, t.next, argc + 1);
            ParseArgs(s, i, argc) == Ok(Args([t.span] + rest.value.argv, rest.value.redirs), rest.next)
  {
    var rest := ParseArgs(s, t.next, argc + 1);
    assert [] + rest.value.redirs == rest.value.redirs;
  }

  lemma {:induction false} ArgsParsed(s: string, i: nat, argv: seq<string>, argc: nat)
    requires (forall k :: 0 <= k < |argv| ==> GoodWord(argv[k])) && argc + |argv| < MAXARGS
    requires Stands(s, i, PrintArgs(argv)) && Follows(s, i + |PrintArgs(argv)|)
    ensures var r := ParseArgs(s, i, argc);
            r.Ok? && r.next == i + |PrintArgs(argv)| && r.value.redirs == [] && Spells(s, r.value.argv, argv)
    decreases |argv|
  {
    hide ParseArgs, ParseRedirs, GetToken, SkipSpace, WordText, IsWordChar;
    if argv == [] {
      ArgsEnd(s, i, argc);
    } else {
      var t := FirstArg(s, i, argv);
      ArgsParsed(s, t.next, argv[1..], argc + 1);
      ArgsStep(s, i, t, argc);
      SpellsCons(s, t.span, ParseArgs(s, t.next, argc + 1).value.argv, argv);
    }
  }

  lemma ArgsEnd(s: string, i: nat, argc: nat)
    requires i <= |s| && Follows(s, i)
    ensures ParseArgs(s, i, argc) == Ok(Args([], []), i)
  {
    assert SkipSpace(s, i) == i;
  }

  lemma FirstArg(s: string, i: nat, argv: seq<string>) returns (t: Token)
    requires (forall k :: 0 <= k < |argv| ==> GoodWord(argv[k])) && 0 < |argv| < MAXARGS
    requires Stands(s, i, PrintArgs(argv)) && Follows(s, i + |PrintArgs(argv)|)
    ensures SkipSpace(s, i) == i && !Peek(s, i, "|)&;")
    ensures GetToken(s, i) == t && t.kind == 'a' && WordText(s, t.span) == argv[0]
    ensures t.next + |PrintArgs(argv[1..])| == i + |PrintArgs(argv)|
    ensures Stands(s, t.next, PrintArgs(argv[1..])) && ParseRedirs(s, t.next) == Ok([], t.next)
  {
    hide GetToken;
    var w, rest := argv[0], argv[1..];
    assert GoodWord(w);
    ArgsStart(s, i, argv);
    StandsParts(s, i, w + " ", PrintArgs(rest));
    StandsParts(s, i, w, " ");
    ArgsStart(s, i + |w| + 1, rest);
    WordToken(s, i, w);
    assert s[i] == s[i..i + |w|][0] == w[0];
    t := Token('a', Span(i, i + |w|), i + |w| + 1);
  }

  /** Parsing yields the tree c and stops at m. */
  ghost predicate Yields(r: Parsed<Cmd<Span>>, s: string, m: nat, c: Cmd<string>) {
    r.Ok? && r.next == m && InLine(s, r.value) && Text(s, r.value) == c
  }

  lemma NoRedirs(s: string, i: nat)
    requires i <= |s| && !IsSpace(At(s, i)) && At(s, i) != '<' && At(s, i) != '>'
    ensures ParseRedirs(s, i) == Ok([], i)
  {
    assert SkipSpace(s, i) == i;
  }

  // How parseline() goes on behind a command that ends at k.

  lemma ExecAlone(s: string, i: nat, x: Cmd<Span>, k: nat)
    requires i <= |s| && ParseExec(s, i) == Ok(x, k) && Follows(s, k)
    ensures ParsePipe(s, i) == Ok(x, k) && ParseLine(s, i) == Ok(x, k)
  {
    assert SkipSpace(s, k) == k;
  }

  lemma ExecThenPipe(s: string, i: nat, x: Cmd<Span>, k: nat, y: Cmd<Span>, m: nat)
    requires i <= |s| && ParseExec(s, i) == Ok(x, k) && At(s, k) == '|' && !IsSpace(At(s, k + 1))
    requires ParsePipe(s, k + 1) == Ok(y, m) && Follows(s, m)
    ensures ParseLine(s, i) == Ok(Piped(x, y), m)
  {
    hide GetToken, ParseExec;
    SymbolToken(s, k);
    assert SkipSpace(s, k) == k && SkipSpace(s, m) == m;
    assert ParsePipe(s, i) == Ok(Piped(x, y), m);
  }

  lemma ExecThenList(s: string, i: nat, x: Cmd<Span>, k: nat, y: Cmd<Span>, m: nat)
    requires i <= |s| && ParseExec(s, i) == Ok(x, k) && At(s, k) == ';' && !IsSpace(At(s, k + 1))
    requires ParseLine(s, k + 1) == Ok(y, m)
    ensures ParseLine(s, i) == Ok(List(x, y), m)
  {
    hide GetToken, ParseExec;
    SymbolToken(s, k);
    assert SkipSpace(s, k) == k;
    assert ParsePipe(s, i) == Ok(x, k);
    assert ParseBacks(s, k, x) == Ok(x, k);
  }

  lemma ExecThenBack(s: string, i: nat, x: Cmd<Span>, k: nat)
    requires i <= |s| && ParseExec(s, i) == Ok(x, k) && At(s, k) == '&' && Follows(s, k + 1)
    ensures ParseLine(s, i) == Ok(Back(x), k + 1)
  {
    hide GetToken, ParseExec;
    SymbolToken(s, k);
    assert SkipSpace(s, k) == k && SkipSpace(s, k + 1) == k + 1;
    assert ParsePipe(s, i) == Ok(x, k);
    assert ParseBacks(s, k + 1, Back(x)) == Ok(Back(x), k + 1);
    assert ParseBacks(s, k, x) == Ok(Back(x), k + 1);
  }

  /** A parenthesised command, given how its inside parses, up to its redirections. */
  lemma BlockParsed(s: string, i: nat, x: Cmd<Span>, m: nat, rs: seq<Redirection<Span>>, k: nat)
    requires i < |s| && s[i] == '(' && !IsSpace(At(s, i + 1))
    requires ParseLine(s, i + 1) == Ok(x, m) && At(s, m) == ')' && !IsSpace(At(s, m + 1))
    requires ParseRedirs(s, m + 1) == Ok(rs, k)
    ensures ParseExec(s, i) == Ok(Wrap(x, rs), k)
  {
    hide GetToken;
    SymbolToken(s, i);
    SymbolToken(s, m);
    assert SkipSpace(s, i) == i && SkipSpace(s, m) == m;
    assert ParseBlock(s, i) == Ok(Wrap(x, rs), k);
  }

  /** One turn of the loop of parseredirs(). */
  lemma RedirStep(s: string, i: nat, t: Token, w: Token)
    requires i <= |s| && SkipSpace(s, i) == i && Peek(s, i, "<>")
    requires GetToken(s, i) == t && GetToken(s, t.next) == w && w.kind == 'a'
    requires ParseRedirs(s, w.next) == Ok([], w.next)
    ensures ParseRedirs(s, i) == Ok([Redirection(w.span, if t.kind == '<' then Input else Output)], w.next)
  {
    hide GetToken;
    var r := Redirection(w.span, if t.kind == '<' then Input else Output);
    assert [r] + [] == [r];
  }

  lemma RedirStands(s: string, i: nat, r: Redirection<string>)
    requires GoodWord(r.file) && Stands(s, i, PrintRedir(r))
    ensures |PrintRedir(r)| == |r.file| + 2 && i + 1 < |s| && s[i] == (if r.dir == Input then '<' else '>')
    ensures Stands(s, i + 1, r.file + " ") && IsWordChar(s[i + 1])
  {
    var sym := if r.dir == Input then "<" else ">";
    assert PrintRedir(r) == sym + (r.file + " ");
    StandsParts(s, i, sym, r.file + " ");
    StandsChar(s, i, sym[0]);
    StandsParts(s, i + 1, r.file, " ");
    assert s[i + 1] == s[i + 1..i + 1 + |r.file|][0] == r.file[0];
  }

  /** One redirection behind a parenthesis. */
  lemma RedirParsed(s: string, i: nat, r: Redirection<string>)
    requires GoodWord(r.file) && Stands(s, i, PrintRedir(r)) && Follows(s, i + |PrintRedir(r)|)
    ensures var m, w := i + |PrintRedir(r)|, Span(i + 1, i + 1 + |r.file|);
            ParseRedirs(s, i) == Ok([Redirection(w, r.dir)], m) && WordText(s, w) == r.file
  {
    hide GetToken, ParseRedirs, Stands, PrintRedir, WordText;
    RedirStands(s, i, r);
    SymbolToken(s, i);
    WordToken(s, i + 1, r.file);
    NoRedirs(s, i + |PrintRedir(r)|);
    assert SkipSpace(s, i) == i;
    RedirStep(s, i, GetToken(s, i), GetToken(s, i + 1));
  }

  lemma SimpleExec(s: string, i: nat, argv: seq<Span>, m: nat)
    requires i <= |s| && !IsSpace(At(s, i)) && At(s, i) != '('
    requires ParseRedirs(s, i) == Ok([], i) && ParseArgs(s, i, 0) == Ok(Args(argv, []), m)
    ensures ParseExec(s, i) == Ok(Exec(argv), m)
  {
    hide ParseArgs, ParseRedirs;
    assert SkipSpace(s, i) == i;
    var none: seq<Redirection<Span>> := [];
    assert none + none == none;
  }

  lemma ExecPrinted(s: string, i: nat, argv: seq<string>)
    requires Printable(Exec(argv)) && Stands(s, i, PrintArgs(argv)) && Follows(s, i + |PrintArgs(argv)|)
    ensures Yields(ParseLine(s, i), s, i + |PrintArgs(argv)|, Exec(argv))
  {
    hide ParseArgs, ParseRedirs, ParseExec, ParseLine, PrintArgs;
    PrintStarts(s, i, Exec(argv));
    NoRedirs(s, i);
    ArgsParsed(s, i, argv, 0);
    var a := ParseArgs(s, i, 0).value;
    SimpleExec(s, i, a.argv, i + |PrintArgs(argv)|);
    ExecAlone(s, i, Exec(a.argv), i + |PrintArgs(argv)|);
    assert Text(s, Exec(a.argv)).argv == argv;
  }

  /** Inside a printed parenthesis: the body, its end, and the closing character. */
  lemma ParenStands(s: string, i: nat, c: Cmd<string>)
    requires Printable(c) && Stands(s, i, Paren(Print(c)))
    ensures i < |s| && s[i] == '(' && Stands(s, i + 1, Print(c))
    ensures var m := i + 1 + |Print(c)|; m < |s| && s[m] == ')' && Follows(s, m)
    ensures !IsSpace(At(s, i + 1))
  {
    hide Print;
    assert Paren(Print(c)) == "(" + (Print(c) + ")");
    StandsParts(s, i, "(", Print(c) + ")");
    StandsChar(s, i, '(');
    StandsParts(s, i + 1, Print(c), ")");
    StandsChar(s, i + 1 + |Print(c)|, ')');
    PrintStarts(s, i + 1, c);
  }

  /** A parenthesised command followed by the given redirections. */
  lemma ParenParsed(s: string, i: nat, c: Cmd<string>, rs: seq<Redirection<Span>>, k: nat) returns (x: Cmd<Span>)
    requires Printable(c) && Stands(s, i, Paren(Print(c)))
    requires Yields(ParseLine(s, i + 1), s, i + 1 + |Print(c)|, c)
    requires var m := i + |Paren(Print(c))|; !IsSpace(At(s, m)) && m <= |s| && ParseRedirs(s, m) == Ok(rs, k)
    ensures ParseExec(s, i) == Ok(Wrap(x, rs), k) && InLine(s, x) && Text(s, x) == c
  {
    hide ParseLine, ParseExec, ParseRedirs;
    ParenStands(s, i, c);
    x := ParseLine(s, i + 1).value;
    BlockParsed(s, i, x, i + 1 + |Print(c)|, rs, k);
  }

  lemma RedirPrinted(s: string, i: nat, c: Cmd<string>, r: Redirection<string>)
    requires Printable(Redir(c, r)) && Stands(s, i, Print(Redir(c, r))) && Follows(s, i + |Print(Redir(c, r))|)
    requires Yields(ParseLine(s, i + 1), s, i + 1 + |Print(c)|, c)
    ensures Yields(ParseLine(s, i), s, i + |Print(Redir(c, r))|, Redir(c, r))
  {
    hide ParseLine, ParseExec, ParseRedirs;
    var n, m := i + |Paren(Print(c))|, i + |Print(Redir(c, r))|;
    StandsParts(s, i, Paren(Print(c)), PrintRedir(r));
    RedirParsed(s, n, r);
    var rd := Redirection(Span(n + 1, n + 1 + |r.file|), r.dir);
    assert s[n] == s[n..n + |PrintRedir(r)|][0];
    assert Files(s, [rd]);
    var x := ParenParsed(s, i, c, [rd], m);
    assert [rd][1..] == [];
    assert Wrap(x, [rd]) == Redir(x, rd);
    ExecAlone(s, i, Redir(x, rd), m);
    WrapInLine(s, x, [rd]);
  }

  lemma StandsAround(s: string, i: nat, a: string, sep: char, b: string)
    requires Stands(s, i, a + [sep] + b)
    ensures Stands(s, i, a) && i + |a| < |s| && s[i + |a|] == sep && Stands(s, i + |a| + 1, b)
  {
    StandsParts(s, i, a + [sep], b);
    StandsParts(s, i, a, [sep]);
    StandsChar(s, i + |a|, sep);
  }

  /** Two parenthesised commands around a separator. */
  lemma PairStands(s: string, i: nat, l: Cmd<string>, sep: char, r: Cmd<string>)
    requires Printable(l) && Printable(r) && Stands(s, i, Paren(Print(l)) + [sep] + Paren(Print(r)))
    ensures var k := i + |Paren(Print(l))|;
            && Stands(s, i, Paren(Print(l))) && k < |s| && s[k] == sep
            && Stands(s, k + 1, Paren(Print(r))) && At(s, k + 1) == '('
  {
    hide Print, Paren, Stands;
    StandsAround(s, i, Paren(Print(l)), sep, Paren(Print(r)));
    ParenOpens(s, i + |Paren(Print(l))| + 1, Print(r));
  }

  lemma ParenOpens(s: string, i: nat, body: string)
    requires Stands(s, i, Paren(body))
    ensures At(s, i) == '('
  {
    assert s[i] == s[i..i + |Paren(body)|][0];
  }

  /** Parenthesised commands l and r stand around a separator at k and end at m; both parse. */
  ghost predicate PairAt(s: string, i: nat, l: Cmd<string>, k: nat, r: Cmd<string>, m: nat) {
    && Printable(l) && Printable(r)
    && Stands(s, i, Paren(Print(l))) && k == i + |Paren(Print(l))|
    && Stands(s, k + 1, Paren(Print(r))) && m == k + 1 + |Paren(Print(r))|
    && k < |s| && (s[k] == '|' || s[k] == ';') && At(s, k + 1) == '(' && Follows(s, m)
    && InsideParsed(s, i, l) && InsideParsed(s, k + 1, r)
  }

  lemma PairParsed(s: string, i: nat, l: Cmd<string>, k: nat, r: Cmd<string>, m: nat)
    returns (x: Cmd<Span>, y: Cmd<Span>)
    requires PairAt(s, i, l, k, r, m)
    ensures ParseExec(s, i) == Ok(x, k) && InLine(s, x) && Text(s, x) == l
    ensures ParseExec(s, k + 1) == Ok(y, m) && InLine(s, y) && Text(s, y) == r
  {
    hide ParseLine, ParseExec, ParseRedirs, Print, Paren, Text, InLine;
    NoRedirs(s, k);
    NoRedirs(s, m);
    x := ParenParsed(s, i, l, [], k);
    y := ParenParsed(s, k + 1, r, [], m);
  }

  lemma PipePrinted(s: string, i: nat, l: Cmd<string>, k: nat, r: Cmd<string>, m: nat)
    requires PairAt(s, i, l, k, r, m) && s[k] == '|'
    ensures Yields(ParseLine(s, i), s, m, Piped(l, r))
  {
    hide ParseLine, ParseExec, ParsePipe, Print, Paren;
    var x, y := PairParsed(s, i, l, k, r, m);
    ExecAlone(s, k + 1, y, m);
    ExecThenPipe(s, i, x, k, y, m);
  }

  lemma ListPrinted(s: string, i: nat, l: Cmd<string>, k: nat, r: Cmd<string>, m: nat)
    requires PairAt(s, i, l, k, r, m) && s[k] == ';'
    ensures Yields(ParseLine(s, i), s, m, List(l, r))
  {
    hide ParseLine, ParseExec, ParsePipe, Print, Paren;
    var x, y := PairParsed(s, i, l, k, r, m);
    ExecAlone(s, k + 1, y, m);
    ExecThenList(s, i, x, k, y, m);
  }

  lemma BackPrinted(s: string, i: nat, c: Cmd<string>)
    requires Printable(c) && Stands(s, i, Print(Back(c))) && Follows(s, i + |Print(Back(c))|)
    requires InsideParsed(s, i, c)
    ensures Yields(ParseLine(s, i), s, i + |Print(Back(c))|, Back(c))
  {
    hide ParseLine, ParseExec, ParsePipe, ParseRedirs;
    var k := i + |Paren(Print(c))|;
    StandsParts(s, i, Paren(Print(c)), "&");
    StandsChar(s, k, '&');
    NoRedirs(s, k);
    var x := ParenParsed(s, i, c, [], k);
    ExecThenBack(s, i, x, k);
  }

  /** The command printed in parentheses at i parses to c. */
  ghost predicate InsideParsed(s: string, i: nat, c: Cmd<string>) {
    i + 1 <= |s| && Yields(ParseLine(s, i + 1), s, i + 1 + |Print(c)|, c)
  }

  /** Parsing what Print wrote, anywhere in a line where it is followed by `)` or the end. */
  lemma {:induction false} ParsePrinted(s: string, i: nat, c: Cmd<string>)
    requires Printable(c) && Stands(s, i, Print(c)) && Follows(s, i + |Print(c)|)
    ensures Yields(ParseLine(s, i), s, i + |Print(c)|, c)
    decreases c, 1
  {
    hide ParseLine, Text, InLine, Paren;
    match c
    case Exec(argv) => ExecPrinted(s, i, argv);
    case Redir(c1, r) =>
      StandsParts(s, i, Paren(Print(c1)), PrintRedir(r));
      ParseInside(s, i, c1);
      RedirPrinted(s, i, c1, r);
    case Piped(l, r) =>
      var k := ParsePair(s, i, c);
      PipePrinted(s, i, l, k, r, i + |Print(c)|);
    case List(l, r) =>
      var k := ParsePair(s, i, c);
      ListPrinted(s, i, l, k, r, i + |Print(c)|);
    case Back(c1) =>
      StandsParts(s, i, Paren(Print(c1)), "&");
      ParseInside(s, i, c1);
      BackPrinted(s, i, c1);
  }

  lemma {:induction false} ParsePair(s: string, i: nat, c: Cmd<string>) returns (k: nat)
    requires c.Piped? || c.List?
    requires Printable(c) && Stands(s, i, Print(c)) && Follows(s, i + |Print(c)|)
    ensures PairAt(s, i, c.left, k, c.right, i + |Print(c)|) && s[k] == if c.Piped? then '|' else ';'
    decreases c, 0
  {
    hide ParseLine, Text, InLine, Paren;
    PairStands(s, i, c.left, if c.Piped? then '|' else ';', c.right);
    k := i + |Paren(Print(c.left))|;
    ParseInside(s, i, c.left);
    ParseInside(s, k + 1, c.right);
  }

  lemma {:induction false} ParseInside(s: string, i: nat, c: Cmd<string>)
    requires Printable(c) && Stands(s, i, Paren(Print(c)))
    ensures InsideParsed(s, i, c)
    decreases c, 2
  {
    ParenStands(s, i, c);
    ParsePrinted(s, i + 1, c);
  }

  /** Parsing undoes printing, for every tree that can be typed. */
  lemma RoundTrip(c: Cmd<string>)
    requires Printable(c)
    ensures var r := ParseCmd(Print(c)); r.Ok? && Text(Print(c), r.value) == c
  {
    hide ParseLine, Text, InLine, Print;
    var s := Print(c);
    assert s[0..0 + |s|] == s;
    ParsePrinted(s, 0, c);
    assert SkipSpace(s, |s|) == |s|;
  }

  // The parser as it runs, moving one position along the line.

  /** A parser's result: a value, or the message it dies with. */
  datatype Outcome<T> = Value(value: T) | Died(error: Error)

  /** The run ended as the function says: same value and place, or same error. */
  ghost predicate Agrees<T>(spec: Parsed<T>, r: Outcome<T>, pos: nat) {
    if spec.Ok? then r == Value(spec.value) && pos == spec.next else r == Died(spec.error)
  }

  ghost function ArgsPrefixed(acc: Args, r: Parsed<Args>): Parsed<Args> {
    if r.Err? then r else Ok(Args(acc.argv + r.value.argv, acc.redirs + r.value.redirs), r.next)
  }

  lemma ArgsPrefixedStep(acc: Args, x: Args, r: Parsed<Args>)
    ensures ArgsPrefixed(acc, ArgsPrefixed(x, r)) == ArgsPrefixed(Args(acc.argv + x.argv, acc.redirs + x.redirs), r)
  {
    if r.Ok? {
      assert acc.argv + (x.argv + r.value.argv) == acc.argv + x.argv + r.value.argv;
      assert acc.redirs + (x.redirs + r.value.redirs) == acc.redirs + x.redirs + r.value.redirs;
    }
  }

  /** One turn of the loop of parseexec(). */
  lemma ArgsUnfold(s: string, i: nat, argc: nat)
    requires i <= |s|
    ensures ParseArgs(s, SkipSpace(s, i), argc) == ParseArgs(s, i, argc)
    ensures ParseArgs(s, i, argc) == ArgsPrefixed(Args([], []), ParseArgs(s, i, argc))
    ensures SkipSpace(s, SkipSpace(s, i)) == SkipSpace(s, i)
    ensures Peek(s, SkipSpace(s, i), "|)&;") == Peek(s, i, "|)&;")
    ensures Peek(s, i, "|)&;") ==> ParseArgs(s, i, argc) == Ok(Args([], []), SkipSpace(s, i))
    ensures !Peek(s, i, "|)&;") ==>
              var t := GetToken(s, SkipSpace(s, i));
              ParseArgs(s, i, argc) ==
              if t.kind == NUL then Ok(Args([], []), t.next)
              else if t.kind != 'a' then Err(Syntax)
              else if argc + 1 >= MAXARGS then Err(TooManyArgs)
              else
                var rd := ParseRedirs(s, t.next);
                if rd.Err? then Err(rd.error)
                else ArgsPrefixed(Args([t.span], rd.value), ParseArgs(s, rd.next, argc + 1))
  {
    hide GetToken, ParseRedirs;
    if ParseArgs(s, i, argc).Ok? {
      var v := ParseArgs(s, i, argc).value;
      assert [] + v.argv == v.argv && [] + v.redirs == v.redirs;
    }
    assert SkipSpace(s, SkipSpace(s, i)) == SkipSpace(s, i);
  }

  /** One turn of parseredirs(). */
  lemma RedirsUnfold(s: string, i: nat)
    requires i <= |s|
    ensures ParseRedirs(s, SkipSpace(s, i)) == ParseRedirs(s, i) == Prefixed([], ParseRedirs(s, i))
    ensures SkipSpace(s, SkipSpace(s, i)) == SkipSpace(s, i)
    ensures Peek(s, SkipSpace(s, i), "<>") == Peek(s, i, "<>")
    ensures !Peek(s, i, "<>") ==> ParseRedirs(s, i) == Ok([], SkipSpace(s, i))
    ensures Peek(s, i, "<>") ==>
              var t := GetToken(s, SkipSpace(s, i));
              var w := GetToken(s, t.next);
              && SkipSpace(s, i) < t.next
              && ParseRedirs(s, i) == if w.kind != 'a' then Err(MissingFile)
                                      else Prefixed([Redirection(w.span, if t.kind == '<' then Input else Output)],
                                          ParseRedirs(s, w.next))
  {
    hide GetToken;
    if ParseRedirs(s, i).Ok? {
      assert [] + ParseRedirs(s, i).value == ParseRedirs(s, i).value;
    }
    assert SkipSpace(s, SkipSpace(s, i)) == SkipSpace(s, i);
    PeekedToken(s, i, "<>");
  }

  /** A symbol that peek() announces is what gettoken() returns. */
  lemma PeekedToken(s: string, i: nat, toks: string)
    requires i <= |s|
    ensures Peek(s, i, toks) ==> GetToken(s, SkipSpace(s, i)).kind != NUL
  {
    assert SkipSpace(s, SkipSpace(s, i)) == SkipSpace(s, i);
  }

  ghost function Prefixed(acc: seq<Redirection<Span>>, r: Parsed<seq<Redirection<Span>>>)
    : Parsed<seq<Redirection<Span>>>
  {
    if r.Err? then r else Ok(acc + r.value, r.next)
  }

  lemma PrefixedStep(acc: seq<Redirection<Span>>, x: Redirection<Span>, r: Parsed<seq<Redirection<Span>>>)
    ensures Prefixed(acc, Prefixed([x], r)) == Prefixed(acc + [x], r)
  {
    if r.Ok? {
      assert acc + ([x] + r.value) == acc + [x] + r.value;
    }
  }

  class Parser {
    const s: string
    /** *ps, as an offset. */
    var pos: nat

    constructor (s: string)
      ensures this.s == s && pos == 0
    {
      this.s, pos := s, 0;
    }

    method SkipSpaces()
      requires pos <= |s|
      modifies this
      ensures pos == SkipSpace(s, old(pos))
    {
      while pos < |s| && IsSpace(s[pos])
        invariant pos <= |s| && SkipSpace(s, pos) == SkipSpace(s, old(pos))
        decreases |s| - pos
      {
        pos := pos + 1;
      }
    }

    method PeekFor(toks: string) returns (yes: bool)
      requires pos <= |s|
      modifies this
      ensures pos == SkipSpace(s, old(pos)) && yes == Peek(s, old(pos), toks)
    {
      SkipSpaces();
      yes := At(s, pos) != NUL && At(s, pos) in toks;
    }

    method NextToken() returns (kind: char, span: Span)
      requires pos <= |s|
      modifies this
      ensures Token(kind, span, pos) == GetToken(s, old(pos))
    {
      SkipSpaces();
      var q := pos;
      kind := At(s, pos);
      if kind == NUL {
      } else if kind == '>' {
        pos := pos + 1;
        if At(s, pos) == '>' {
          kind := '+';
          pos := pos + 1;
        }
      } else if IsSymbol(kind) {
        pos := pos + 1;
      } else {
        kind := 'a';
        while pos < |s| && !IsSpace(s[pos]) && !IsSymbol(s[pos])
          invariant q <= pos <= |s| && WordEnd(s, pos) == WordEnd(s, q)
          decreases |s| - pos
        {
          pos := pos + 1;
        }
      }
      span := Span(q, pos);
      SkipSpaces();
    }

    /** parseredirs(). */
    method Redirs() returns (r: Outcome<seq<Redirection<Span>>>)
      requires pos <= |s|
      modifies this
      ensures Agrees(ParseRedirs(s, old(pos)), r, pos)
    {
      hide ParseRedirs, GetToken;
      var acc: seq<Redirection<Span>> := [];
      RedirsUnfold(s, pos);
      var more := PeekFor("<>");
      while more
        invariant pos <= |s| && more == Peek(s, pos, "<>") && SkipSpace(s, pos) == pos
        invariant ParseRedirs(s, old(pos)) == Prefixed(acc, ParseRedirs(s, pos))
        decreases |s| - pos
      {
        RedirsUnfold(s, pos);
        var tok, ignored := NextToken();
        var kind, file := NextToken();
        if kind != 'a' {
          return Died(MissingFile);
        }
        var rd := Redirection(file, if tok == '<' then Input else Output);
        PrefixedStep(acc, rd, ParseRedirs(s, pos));
        acc := acc + [rd];
        RedirsUnfold(s, pos);
        more := PeekFor("<>");
      }
      RedirsUnfold(s, pos);
      assert acc + [] == acc;
      r := Value(acc);
    }

    /** parseexec(): the words of a simple command, with redirections anywhere between them. */
    method ExecCmd() returns (r: Outcome<Cmd<Span>>)
      requires pos <= |s|
      modifies this
      ensures Agrees(ParseExec(s, old(pos)), r, pos)
      decreases |s| - pos, 1
    {
      hide ParseRedirs, ParseArgs, ParseLine, GetToken;
      var block := PeekFor("(");
      if block {
        assert SkipSpace(s, pos) == pos;
        r := Block();
        return;
      }
      var redirs := Redirs();
      if redirs.Died? {
        return Died(redirs.error);
      }
      var args := ArgList();
      if args.Died? {
        return Died(args.error);
      }
      r := Value(Wrap(Exec(args.value.argv), redirs.value + args.value.redirs));
    }

    /** The loop of parseexec(). */
    method ArgList() returns (r: Outcome<Args>)
      requires pos <= |s|
      modifies this
      ensures Agrees(ParseArgs(s, old(pos), 0), r, pos)
    {
      hide ParseRedirs, ParseArgs, GetToken;
      var acc := Args([], []);
      var argc := 0;
      ArgsUnfold(s, pos, 0);
      var stop := PeekFor("|)&;");
      while !stop
        invariant pos <= |s| && stop == Peek(s, pos, "|)&;") && SkipSpace(s, pos) == pos && argc < MAXARGS
        invariant ParseArgs(s, old(pos), 0) == ArgsPrefixed(acc, ParseArgs(s, pos, argc))
        decreases |s| - pos
      {
        ArgsUnfold(s, pos, argc);
        var tok, word := NextToken();
        if tok == NUL {
          break;
        }
        if tok != 'a' {
          return Died(Syntax);
        }
        argc := argc + 1;
        if argc >= MAXARGS {
          return Died(TooManyArgs);
        }
        var redirs := Redirs();
        if redirs.Died? {
          return Died(redirs.error);
        }
        ArgsPrefixedStep(acc, Args([word], redirs.value), ParseArgs(s, pos, argc));
        acc := Args(acc.argv + [word], acc.redirs + redirs.value);
        ArgsUnfold(s, pos, argc);
        stop := PeekFor("|)&;");
      }
      ArgsUnfold(s, pos, argc);
      assert acc.argv + [] == acc.argv && acc.redirs + [] == acc.redirs;
      r := Value(acc);
    }

    /** parseblock(). */
    method Block() returns (r: Outcome<Cmd<Span>>)
      requires pos <= |s| && Peek(s, pos, "(") && SkipSpace(s, pos) == pos
      modifies this
      ensures Agrees(ParseBlock(s, old(pos)), r, pos)
      decreases |s| - pos, 0
    {
      hide ParseRedirs, ParseLine, GetToken;
      PeekedToken(s, pos, "(");
      var tok, span := NextToken();
      var body := Line();
      if body.Died? {
        return body;
      }
      var close := PeekFor(")");
      if !close {
        return Died(MissingParen);
      }
      tok, span := NextToken();
      var redirs := Redirs();
      if redirs.Died? {
        return Died(redirs.error);
      }
      r := Value(Wrap(body.value, redirs.value));
    }

    /** parsepipe(). */
    method PipeLine() returns (r: Outcome<Cmd<Span>>)
      requires pos <= |s|
      modifies this
      ensures Agrees(ParsePipe(s, old(pos)), r, pos)
      decreases |s| - pos, 2
    {
      hide ParseExec, GetToken;
      var left := ExecCmd();
      if left.Died? {
        return left;
      }
      PeekedToken(s, pos, "|");
      var bar := PeekFor("|");
      if !bar {
        return left;
      }
      var tok, span := NextToken();
      var right := PipeLine();
      r := if right.Died? then right else Value(Piped(left.value, right.value));
    }

    /** parseline(). */
    method Line() returns (r: Outcome<Cmd<Span>>)
      requires pos <= |s|
      modifies this
      ensures Agrees(ParseLine(s, old(pos)), r, pos)
      decreases |s| - pos, 3
    {
      hide ParsePipe, GetToken;
      r := PipeLine();
      if r.Died? {
        return;
      }
      var cmd := r.value;
      ghost var from, cmd0 := pos, cmd;
      PeekedToken(s, pos, "&");
      var amp := PeekFor("&");
      while amp
        invariant from <= pos <= |s| && amp == Peek(s, pos, "&") && SkipSpace(s, pos) == pos && InLine(s, cmd)
        invariant ParseBacks(s, from, cmd0) == ParseBacks(s, pos, cmd)
        decreases |s| - pos
      {
        PeekedToken(s, pos, "&");
        var tok, span := NextToken();
        cmd := Back(cmd);
        amp := PeekFor("&");
      }
      PeekedToken(s, pos, ";");
      var semi := PeekFor(";");
      if !semi {
        return Value(cmd);
      }
      var tok, span := NextToken();
      var right := Line();
      r := if right.Died? then right else Value(List(cmd, right.value));
    }

    /** parsecmd(), up to nulterminate(). */
    method Command() returns (r: Outcome<Cmd<Span>>)
      requires pos == 0
      modifies this
      ensures if ParseCmd(s).Ok? then r == Value(ParseCmd(s).value) else r == Died(ParseCmd(s).error)
    {
      hide ParseLine;
      r := Line();
      if r.Died? {
        return;
      }
      var ignored := PeekFor("");
      if pos != |s| {
        return Died(Leftovers);
      }
    }
  }

  // nulterminate().

  /** The words of a tree: arguments and file names. */
  ghost function Spans(c: Cmd<Span>): set<Span> {
    match c
    case Exec(argv) => set i | 0 <= i < |argv| :: argv[i]
    case Redir(c1, r) => Spans(c1) + {r.file}
    case Piped(l, r) => Spans(l) + Spans(r)
    case List(l, r) => Spans(l) + Spans(r)
    case Back(c1) => Spans(c1)
  }

  lemma {:induction false} SpansInLine(s: string, c: Cmd<Span>, w: Span)
    requires InLine(s, c) && w in Spans(c)
    ensures WordAt(s, w)
  {
    match c
    case Exec(argv) =>
    case Redir(c1, r) => if w in Spans(c1) { SpansInLine(s, c1, w); }
    case Piped(l, r) => if w in Spans(l) { SpansInLine(s, l, w); } else { SpansInLine(s, r, w); }
    case List(l, r) => if w in Spans(l) { SpansInLine(s, l, w); } else { SpansInLine(s, r, w); }
    case Back(c1) => SpansInLine(s, c1, w);
  }

  /** The buffer differs from `before` by a NUL at the end of each of these words, and nowhere else. */
  ghost predicate CutAt(before: seq<char>, after: seq<char>, ws: set<Span>) {
    && |after| == |before|
    && (forall w :: w in ws ==> w.to < |after| && after[w.to] == NUL)
    && (forall k :: 0 <= k < |after| ==> after[k] == before[k] || (after[k] == NUL && exists w :: w in ws && w.to == k))
  }

  lemma CutBoth(a: seq<char>, b: seq<char>, c: seq<char>, ws: set<Span>, vs: set<Span>)
    requires CutAt(a, b, ws) && CutAt(b, c, vs)
    ensures CutAt(a, c, ws + vs)
  {
    forall w | w in ws + vs ensures w.to < |c| && c[w.to] == NUL {
      if w in ws {
        assert b[w.to] == NUL;
      }
    }
    forall k | 0 <= k < |c| ensures c[k] == a[k] || (c[k] == NUL && exists w :: w in ws + vs && w.to == k) {
      if c[k] != b[k] {
        var w :| w in vs && w.to == k;
        assert w in ws + vs;
      } else if b[k] != a[k] {
        var w :| w in ws && w.to == k;
        assert w in ws + vs;
      }
    }
  }

  /** nulterminate(): writes a NUL behind every word of the tree. */
  method Nulterminate(buf: array<char>, c: Cmd<Span>, ghost s: string)
    requires InLine(s, c) && buf.Length == |s| + 1
    modifies buf
    ensures CutAt(old(buf[..]), buf[..], Spans(c))
    decreases c
  {
    ghost var before := buf[..];
    match c
    case Exec(argv) =>
      var i := 0;
      while i < |argv|
        invariant 0 <= i <= |argv|
        invariant CutAt(before, buf[..], set j | 0 <= j < i :: argv[j])
      {
        assert WordAt(s, argv[i]);
        ghost var mid, done := buf[..], set j | 0 <= j < i :: argv[j];
        buf[argv[i].to] := NUL;
        assert CutAt(mid, buf[..], {argv[i]});
        CutBoth(before, mid, buf[..], done, {argv[i]});
        assert done + {argv[i]} == set j | 0 <= j < i + 1 :: argv[j];
        i := i + 1;
      }
    case Redir(c1, r) =>
      Nulterminate(buf, c1, s);
      ghost var mid := buf[..];
      buf[r.file.to] := NUL;
      assert CutAt(mid, buf[..], {r.file});
      CutBoth(before, mid, buf[..], Spans(c1), {r.file});
    case Piped(l, r) =>
      Nulterminate(buf, l, s);
      ghost var mid := buf[..];
      Nulterminate(buf, r, s);
      CutBoth(before, mid, buf[..], Spans(l), Spans(r));
    case List(l, r) =>
      Nulterminate(buf, l, s);
      ghost var mid := buf[..];
      Nulterminate(buf, r, s);
      CutBoth(before, mid, buf[..], Spans(l), Spans(r));
    case Back(c1) => Nulterminate(buf, c1, s);
  }

  /** The C string that starts at position q of the buffer is `word`. */
  ghost predicate StringAt(buf: seq<char>, q: nat, word: string) {
    && q + |word| < |buf| && buf[q..q + |word|] == word && buf[q + |word|] == NUL
    && NUL !in word
  }

  /** Every argument and every file name of the tree is a string of its own in the buffer. */
  ghost predicate AllCutOut(s: string, buf: seq<char>, c: Cmd<Span>) {
    match c
    case Exec(argv) => forall i :: 0 <= i < |argv| ==> StringAt(buf, argv[i].from, WordText(s, argv[i]))
    case Redir(c1, r) => AllCutOut(s, buf, c1) && StringAt(buf, r.file.from, WordText(s, r.file))
    case Piped(l, r) => AllCutOut(s, buf, l) && AllCutOut(s, buf, r)
    case List(l, r) => AllCutOut(s, buf, l) && AllCutOut(s, buf, r)
    case Back(c1) => AllCutOut(s, buf, c1)
  }

  lemma {:induction false} TreeCutOut(s: string, after: seq<char>, root: Cmd<Span>, c: Cmd<Span>)
    requires NUL !in s && InLine(s, root) && CutAt(s + [NUL], after, Spans(root)) && Spans(c) <= Spans(root)
    ensures AllCutOut(s, after, c)
    decreases c
  {
    hide CutAt, StringAt, InLine;
    match c
    case Exec(argv) =>
      forall i | 0 <= i < |argv| ensures StringAt(after, argv[i].from, WordText(s, argv[i])) {
        assert argv[i] in Spans(c);
        WordCutOut(s, after, root, argv[i]);
      }
    case Redir(c1, r) =>
      TreeCutOut(s, after, root, c1);
      assert r.file in Spans(c);
      WordCutOut(s, after, root, r.file);
    case Piped(l, r) =>
      TreeCutOut(s, after, root, l);
      TreeCutOut(s, after, root, r);
    case List(l, r) =>
      TreeCutOut(s, after, root, l);
      TreeCutOut(s, after, root, r);
    case Back(c1) => TreeCutOut(s, after, root, c1);
  }

  lemma WordCutOut(s: string, after: seq<char>, c: Cmd<Span>, w: Span)
    requires NUL !in s && InLine(s, c) && CutAt(s + [NUL], after, Spans(c)) && w in Spans(c)
    ensures StringAt(after, w.from, WordText(s, w))
  {
    SpansInLine(s, c, w);
    forall k | w.from <= k < w.to ensures after[k] == s[k] {
      if after[k] != s[k] {
        var v :| v in Spans(c) && v.to == k;
        SpansInLine(s, c, v);
      }
    }
  }

  /**
   For every line that parses, exec() and open() are given exactly the words of the line: no
   terminator falls inside a word, because each stands on a delimiter or on the line's end.
   */
  lemma WordsCutOut(s: string, after: seq<char>)
    requires NUL !in s && ParseCmd(s).Ok? && CutAt(s + [NUL], after, Spans(ParseCmd(s).value))
    ensures AllCutOut(s, after, ParseCmd(s).value)
  {
    hide ParseCmd;
    TreeCutOut(s, after, ParseCmd(s).value, ParseCmd(s).value);
  }
}
