/**
 The parser of the shell (user/sh.c). It scans one line with a cursor; words are kept as the places where they start
 and end in the line, and are cut out at the end by storing NULs.
 */
module Shell {
  const MAXARGS := 10
  const NUL := '\0'

  function Whitespace(): string { [' ', '\t', '\r', '\n', 11 as char] }
  function Symbols(): string { "<|>&;()" }

  predicate IsSpace(c: char) { c in Whitespace() }
  predicate IsSymbol(c: char) { c in Symbols() }

  /** A line as C sees it up to its NUL. */
  predicate Line(s: string) { NUL !in s }

  /** *p, where the string ends with a NUL. */
  function At(s: string, i: nat): char {
    if i < |s| then s[i] else NUL
  }

  /** struct cmd. W is how a word is kept. */
  datatype Cmd<W> =
    | Exec(argv: seq<W>)
    | Redir(cmd: Cmd<W>, file: W, out: bool)   // out: O_WRONLY|O_CREATE on descriptor 1, else O_RDONLY on 0
    | Pipe(left: Cmd<W>, right: Cmd<W>)
    | List(left: Cmd<W>, right: Cmd<W>)
    | Back(cmd: Cmd<W>)

  /** q and eq: where a word starts and ends. */
  datatype Span = Span(q: nat, eq: nat)

  /** The ways a parse ends in panic. */
  datatype Failure = Leftovers | MissingParen | BadToken | TooManyArgs | MissingFile

  datatype Parsed = Ok(cmd: Cmd<Span>, next: nat) | Bad(why: Failure)

  /* gettoken and peek */

  function Skip(s: string, i: nat): (r: nat)
    requires i <= |s|
    ensures i <= r <= |s| && (r < |s| ==> !IsSpace(s[r]))
    ensures forall k :: i <= k < r ==> IsSpace(s[k])
    decreases |s| - i
  {
    if i < |s| && IsSpace(s[i]) then Skip(s, i + 1) else i
  }

  predicate InWord(c: char) {
    !IsSpace(c) && !IsSymbol(c)
  }

  function WordEnd(s: string, i: nat): (r: nat)
    requires i <= |s|
    ensures i <= r <= |s| && (r < |s| ==> !InWord(s[r]))
    ensures forall k :: i <= k < r ==> InWord(s[k])
    decreases |s| - i
  {
    if i < |s| && InWord(s[i]) then WordEnd(s, i + 1) else i
  }

  /** What gettoken returns: the kind of token, its place, and the cursor after it. */
  datatype Token = Token(kind: char, span: Span, next: nat)

  function GetToken(s: string, i: nat): (t: Token)
    requires Line(s) && i <= |s|
    ensures i <= t.span.q <= t.span.eq <= t.next <= |s|
    ensures t.kind == NUL <==> t.span.q == |s|
    ensures t.kind != NUL ==> i < t.next
  {
    var q := Skip(s, i);
    var c := At(s, q);
    if c == NUL then Token(c, Span(q, q), q)
    else if c == '>' && At(s, q + 1) == '>' then Token('+', Span(q, q + 2), Skip(s, q + 2))
    else if IsSymbol(c) then Token(c, Span(q, q + 1), Skip(s, q + 1))
    else Token('a', Span(q, WordEnd(s, q)), Skip(s, WordEnd(s, q)))
  }

  predicate Peek(s: string, i: nat, toks: string)
    requires i <= |s|
  {
    Skip(s, i) < |s| && s[Skip(s, i)] in toks
  }

  /* The grammar */

  /** A redirection read from the line: its file, and whether it is for output. */
  datatype Redirection<W> = Redirection(file: W, out: bool)

  datatype Redirs = Redirs(list: seq<Redirection<Span>>, next: nat) | NoFile

  /** parseredirs: on from `list`, first read first. */
  function ParseRedirs(s: string, list: seq<Redirection<Span>>, i: nat): (r: Redirs)
    requires Line(s) && i <= |s|
    ensures r.Redirs? ==> i <= r.next <= |s|
    decreases |s| - i
  {
    if Peek(s, i, "<>") then
      var t := GetToken(s, Skip(s, i));
      var f := GetToken(s, t.next);
      if f.kind != 'a' then NoFile
      else ParseRedirs(s, list + [Redirection(f.span, t.kind != '<')], f.next)
    else Redirs(list, Skip(s, i))
  }

  /** cmd under its redirections, the first one innermost. */
  function Wrap<W>(cmd: Cmd<W>, list: seq<Redirection<W>>): Cmd<W>
    decreases |list|
  {
    if list == [] then cmd
    else Redir(Wrap(cmd, list[..|list| - 1]), list[|list| - 1].file, list[|list| - 1].out)
  }

  /** The loop of parseexec. */
  function ParseArgs(s: string, argv: seq<Span>, list: seq<Redirection<Span>>, i: nat): (r: Parsed)
    requires Line(s) && i <= |s|
    ensures r.Ok? ==> i <= r.next <= |s|
    decreases |s| - i
  {
    if Peek(s, i, "|)&;") then Ok(Wrap(Exec(argv), list), Skip(s, i))
    else
      var t := GetToken(s, Skip(s, i));
      if t.kind == NUL then Ok(Wrap(Exec(argv), list), t.next)
      else if t.kind != 'a' then Bad(BadToken)
      else if |argv| + 1 >= MAXARGS then Bad(TooManyArgs)
      else
        match ParseRedirs(s, list, t.next)
        case NoFile => Bad(MissingFile)
        case Redirs(list', j) => ParseArgs(s, argv + [t.span], list', j)
  }

  function ParseExec(s: string, i: nat): (r: Parsed)
    requires Line(s) && i <= |s|
    ensures r.Ok? ==> i <= r.next <= |s|
    decreases |s| - i, 1
  {
    if Peek(s, i, "(") then ParseBlock(s, Skip(s, i))
    else
      match ParseRedirs(s, [], Skip(s, i))
      case NoFile => Bad(MissingFile)
      case Redirs(list, j) => ParseArgs(s, [], list, j)
  }

  function ParseBlock(s: string, i: nat): (r: Parsed)
    requires Line(s) && i <= |s| && Peek(s, i, "(")
    ensures r.Ok? ==> i <= r.next <= |s|
    decreases |s| - i, 0
  {
    match ParseLine(s, GetToken(s, Skip(s, i)).next)
    case Bad(why) => Bad(why)
    case Ok(cmd, j) =>
      if !Peek(s, j, ")") then Bad(MissingParen)
      else
        match ParseRedirs(s, [], GetToken(s, Skip(s, j)).next)
        case NoFile => Bad(MissingFile)
        case Redirs(list, k) => Ok(Wrap(cmd, list), k)
  }

  function ParsePipe(s: string, i: nat): (r: Parsed)
    requires Line(s) && i <= |s|
    ensures r.Ok? ==> i <= r.next <= |s|
    decreases |s| - i, 2
  {
    match ParseExec(s, i)
    case Bad(why) => Bad(why)
    case Ok(left, j) =>
      if !Peek(s, j, "|") then Ok(left, Skip(s, j))
      else
        match ParsePipe(s, GetToken(s, Skip(s, j)).next)
        case Bad(why) => Bad(why)
        case Ok(right, k) => Ok(Pipe(left, right), k)
  }

  /** The loop of parseline. */
  function ParseBacks(s: string, cmd: Cmd<Span>, i: nat): (r: Parsed)
    requires Line(s) && i <= |s|
    ensures r.Ok? && i <= r.next <= |s|
    decreases |s| - i
  {
    if Peek(s, i, "&") then ParseBacks(s, Back(cmd), GetToken(s, Skip(s, i)).next) else Ok(cmd, Skip(s, i))
  }

  function ParseLine(s: string, i: nat): (r: Parsed)
    requires Line(s) && i <= |s|
    ensures r.Ok? ==> i <= r.next <= |s|
    decreases |s| - i, 3
  {
    match ParsePipe(s, i)
    case Bad(why) => Bad(why)
    case Ok(cmd, j) =>
      var b := ParseBacks(s, cmd, j);
      if !Peek(s, b.next, ";") then Ok(b.cmd, Skip(s, b.next))
      else
        match ParseLine(s, GetToken(s, Skip(s, b.next)).next)
        case Bad(why) => Bad(why)
        case Ok(rest, k) => Ok(List(b.cmd, rest), k)
  }

  function ParseCmd(s: string): Parsed
    requires Line(s)
  {
    match ParseLine(s, 0)
    case Bad(why) => Bad(why)
    case Ok(cmd, j) => if Skip(s, j) != |s| then Bad(Leftovers) else Ok(cmd, |s|)
  }
}
