/** Printing command trees as lines for the shell, and the proof that its parser reads every one of them back. */
module ShellRoundTrip {
  import opened Shell

  /* Words instead of places */

  function Text(s: string, w: Span): string {
    if w.q <= w.eq <= |s| then s[w.q..w.eq] else ""
  }

  function Texts(s: string, argv: seq<Span>): seq<string> {
    seq(|argv|, i requires 0 <= i < |argv| => Text(s, argv[i]))
  }

  /** The tree with its words cut out of the line. */
  function Words(s: string, c: Cmd<Span>): Cmd<string> {
    match c
    case Exec(argv) => Exec(Texts(s, argv))
    case Redir(x, file, out) => Redir(Words(s, x), Text(s, file), out)
    case Pipe(l, r) => Pipe(Words(s, l), Words(s, r))
    case List(l, r) => List(Words(s, l), Words(s, r))
    case Back(x) => Back(Words(s, x))
  }

  function RedirWords(s: string, l: seq<Redirection<Span>>): seq<Redirection<string>> {
    seq(|l|, i requires 0 <= i < |l| => Redirection(Text(s, l[i].file), l[i].out))
  }

  /** A word: not empty, and free of white space, symbols and NULs. */
  predicate GoodWord(w: string) {
    w != "" && forall k :: 0 <= k < |w| ==> InWord(w[k]) && w[k] != NUL
  }

  /** A tree the shell can be told to run: proper words, and fewer than MAXARGS of them in a command. */
  predicate Good(c: Cmd<string>) {
    match c
    case Exec(argv) => |argv| < MAXARGS && forall i :: 0 <= i < |argv| ==> GoodWord(argv[i])
    case Redir(x, file, out) => Good(x) && GoodWord(file)
    case Pipe(l, r) => Good(l) && Good(r)
    case List(l, r) => Good(l) && Good(r)
    case Back(x) => Good(x)
  }

  /* Printing */

  function PrintArgs(argv: seq<string>): string
    decreases |argv|
  {
    if argv == [] then "" else argv[0] + " " + PrintArgs(argv[1..])
  }

  function Sign(out: bool): string {
    if out then ">" else "<"
  }

  function PrintRedirs(l: seq<Redirection<string>>): string
    decreases |l|
  {
    if l == [] then "" else Sign(l[0].out) + l[0].file + PrintRedirs(l[1..])
  }

  /** A command without the redirections around it, and these, innermost first. */
  function Base<W>(c: Cmd<W>): (b: Cmd<W>)
    ensures !b.Redir? && Size(b) <= Size(c) && (c.Redir? ==> Size(b) < Size(c)) && (!c.Redir? ==> b == c)
  {
    if c.Redir? then Base(c.cmd) else c
  }

  function RedirsOf<W>(c: Cmd<W>): seq<Redirection<W>> {
    if c.Redir? then RedirsOf(c.cmd) + [Redirection(c.file, c.out)] else []
  }

  function Size<W>(c: Cmd<W>): nat {
    match c
    case Exec(argv) => 0
    case Redir(x, file, out) => Size(x) + 1
    case Pipe(l, r) => Size(l) + Size(r) + 1
    case List(l, r) => Size(l) + Size(r) + 1
    case Back(x) => Size(x) + 1
  }

  /** a, then the symbol c, then b. */
  function Join(a: string, c: char, b: string): (r: string)
    ensures |r| == |a| + 1 + |b|
  {
    a + [c] + b
  }

  /** As one command of a pipeline: in parentheses unless it is a plain command. */
  function PrintExec(c: Cmd<string>): string
    decreases Size(c), if c.Exec? || c.Redir? then 0 else 4
  {
    (if Base(c).Exec? then PrintArgs(Base(c).argv) else "(" + PrintLine(Base(c)) + ")") + PrintRedirs(RedirsOf(c))
  }

  function PrintPipe(c: Cmd<string>): string
    decreases Size(c), if c.Back? || c.List? then 5 else 1
  {
    if c.Pipe? then Join(PrintExec(c.left), '|', PrintPipe(c.right)) else PrintExec(c)
  }

  function PrintBacks(c: Cmd<string>): string
    decreases Size(c), if c.List? then 6 else 2
  {
    if c.Back? then Join(PrintBacks(c.cmd), '&', "") else PrintPipe(c)
  }

  /** As a whole line. */
  function PrintLine(c: Cmd<string>): string
    decreases Size(c), 3
  {
    if c.List? then Join(PrintBacks(c.left), ';', PrintLine(c.right)) else PrintBacks(c)
  }

  /* Reading it back */

  /** t is in the line at i. */
  predicate Has(s: string, i: nat, t: string) {
    i + |t| <= |s| && s[i..i + |t|] == t
  }

  lemma HasSplit(s: string, i: nat, a: string, b: string)
    requires Has(s, i, a + b)
    ensures Has(s, i, a) && Has(s, i + |a|, b)
  {
    assert s[i..i + |a|] == (a + b)[..|a|];
    assert s[i + |a|..i + |a| + |b|] == (a + b)[|a|..];
  }

  lemma HasFirst(s: string, i: nat, t: string)
    requires Has(s, i, t) && t != ""
    ensures i < |s| && s[i] == t[0]
  {
    assert s[i] == s[i..i + |t|][0];
  }

  /** No printed form starts with white space. */
  predicate Tight(t: string) {
    t != "" ==> !IsSpace(t[0])
  }

  lemma TightArgs(argv: seq<string>)
    requires forall i :: 0 <= i < |argv| ==> GoodWord(argv[i])
    ensures Tight(PrintArgs(argv))
            && (argv != [] ==> PrintArgs(argv) != "" && InWord(PrintArgs(argv)[0]) && PrintArgs(argv)[0] != NUL)
  {
    if argv != [] {
      assert GoodWord(argv[0]) && InWord(argv[0][0]);
    }
  }

  lemma TightRedirs(l: seq<Redirection<string>>)
    ensures Tight(PrintRedirs(l)) && (l != [] ==> PrintRedirs(l) != "" && PrintRedirs(l)[0] in "<>")
  {
  }

  lemma TightExec(c: Cmd<string>)
    requires Good(c)
    ensures Tight(PrintExec(c))
  {
    GoodBase(c);
    TightRedirs(RedirsOf(c));
    if Base(c).Exec? {
      TightArgs(Base(c).argv);
    }
  }

  lemma {:induction false} TightAll(c: Cmd<string>)
    requires Good(c)
    ensures Tight(PrintLine(c)) && Tight(PrintBacks(c)) && Tight(PrintPipe(c)) && Tight(PrintExec(c))
    decreases Size(c)
  {
    TightExec(c);
    hide PrintExec;
    match c
    case Pipe(l, r) =>
      TightAll(l);
      assert PrintBacks(c) == PrintPipe(c) == Join(PrintExec(l), '|', PrintPipe(r));
    case List(l, r) =>
      TightAll(l);
      assert PrintPipe(c) == PrintExec(c) && PrintBacks(c) == PrintPipe(c);
    case Back(x) =>
      TightAll(x);
      assert PrintPipe(c) == PrintExec(c);
    case _ =>
      assert PrintPipe(c) == PrintExec(c) && PrintBacks(c) == PrintPipe(c);
  }

  predicate GoodRedirs(l: seq<Redirection<string>>) {
    forall i :: 0 <= i < |l| ==> GoodWord(l[i].file)
  }

  lemma {:induction false} GoodBase(c: Cmd<string>)
    requires Good(c)
    ensures Good(Base(c)) && GoodRedirs(RedirsOf(c)) && Wrap(Base(c), RedirsOf(c)) == c
  {
    if c.Redir? {
      GoodBase(c.cmd);
      assert RedirsOf(c)[..|RedirsOf(c)| - 1] == RedirsOf(c.cmd);
    }
  }

  /** The cursor is at something to read. */
  predicate Ready(s: string, i: nat) {
    i <= |s| && !IsSpace(At(s, i))
  }

  /** The cursor is at a printed form, and something to read comes after it. */
  lemma ReadyAt(s: string, i: nat, t: string)
    requires Has(s, i, t) && Tight(t) && Ready(s, i + |t|)
    ensures Ready(s, i)
  {
    if t != "" {
      HasFirst(s, i, t);
    }
  }

  lemma SkipReady(s: string, i: nat)
    requires Ready(s, i)
    ensures Skip(s, i) == i
  {
  }

  /** A word, and white space or a symbol after it. */
  lemma TokenWord(s: string, i: nat, w: string)
    requires Line(s) && Has(s, i, w) && GoodWord(w) && !(i + |w| < |s| && InWord(s[i + |w|]))
    ensures GetToken(s, i) == Token('a', Span(i, i + |w|), Skip(s, i + |w|)) && Text(s, Span(i, i + |w|)) == w
  {
    assert forall k :: i <= k < i + |w| ==> s[k] == w[k - i];
    assert InWord(s[i]);
    WordEndIs(s, i, i + |w|);
  }

  lemma {:induction false} WordEndIs(s: string, i: nat, j: nat)
    requires i <= j <= |s| && (forall k :: i <= k < j ==> InWord(s[k])) && !(j < |s| && InWord(s[j]))
    ensures WordEnd(s, i) == j
    decreases j - i
  {
    if i < j {
      WordEndIs(s, i + 1, j);
    }
  }

  /** A symbol, and something to read after it. */
  lemma TokenSymbol(s: string, i: nat)
    requires Line(s) && i < |s| && IsSymbol(s[i]) && Ready(s, i + 1) && !(s[i] == '>' && At(s, i + 1) == '>')
    ensures GetToken(s, i) == Token(s[i], Span(i, i + 1), i + 1)
  {
    SkipReady(s, i);
    SkipReady(s, i + 1);
  }

  /** The line ends at j, or what can come after a command, a pipeline or a line comes there. */
  predicate AfterExec(s: string, j: nat) {
    j <= |s| && (j < |s| ==> s[j] == '|' || s[j] == ')' || s[j] == '&' || s[j] == ';')
  }

  predicate AfterPipe(s: string, j: nat) {
    j <= |s| && (j < |s| ==> s[j] == ')' || s[j] == '&' || s[j] == ';')
  }

  predicate AfterLine(s: string, j: nat) {
    j <= |s| && (j < |s| ==> s[j] == ')')
  }

  predicate Separates(c: char) {
    c == '|' || c == '&' || c == ';'
  }

  /** The separator c is at j, and gettoken takes just it. */
  predicate SepAt(s: string, j: nat, c: char)
    requires Line(s)
  {
    j < |s| && s[j] == c && Ready(s, j) && GetToken(s, j).next == j + 1
  }

  lemma AfterReady(s: string, j: nat)
    requires Line(s) && AfterExec(s, j)
    ensures Ready(s, j) && (j < |s| ==> !InWord(s[j]))
  {
  }

  /** One turn of parseredirs, once the tokens are known. */
  lemma RedirTurn(s: string, list: seq<Redirection<Span>>, i: nat, f: Span, n: nat)
    requires Line(s) && i < |s| && Skip(s, i) == i && s[i] in "<>" && f.q <= f.eq <= n <= |s|
    requires GetToken(s, i) == Token(s[i], Span(i, i + 1), i + 1) && GetToken(s, i + 1) == Token('a', f, n)
    ensures ParseRedirs(s, list, i) == ParseRedirs(s, list + [Redirection(f, s[i] != '<')], n)
  {
    hide GetToken, Skip, Line;
  }

  /** Where the sign and the file are. */
  lemma RedirPlace(s: string, i: nat, x: Redirection<string>)
    requires Line(s) && Has(s, i, Sign(x.out) + x.file) && GoodWord(x.file)
    ensures Has(s, i + 1, x.file) && i + 1 < |s| && s[i] == (if x.out then '>' else '<')
    ensures Skip(s, i) == i && GetToken(s, i) == Token(s[i], Span(i, i + 1), i + 1)
  {
    HasSplit(s, i, Sign(x.out), x.file);
    HasFirst(s, i, Sign(x.out));
    HasFirst(s, i + 1, x.file);
    assert InWord(x.file[0]);
    SkipReady(s, i);
    TokenSymbol(s, i);
  }

  /** One redirection. */
  lemma RedirBack(s: string, list: seq<Redirection<Span>>, i: nat, x: Redirection<string>)
      returns (r: Redirection<Span>)
    requires Line(s) && Has(s, i, Sign(x.out) + x.file) && GoodWord(x.file)
    requires var j := i + 1 + |x.file|; Ready(s, j) && (j < |s| ==> !InWord(s[j]))
    ensures ParseRedirs(s, list, i) == ParseRedirs(s, list + [r], i + 1 + |x.file|)
    ensures Redirection(Text(s, r.file), r.out) == x
  {
    hide ParseRedirs, GetToken, Skip, Ready, InWord, Sign;
    RedirPlace(s, i, x);
    TokenWord(s, i + 1, x.file);
    SkipReady(s, i + 1 + |x.file|);
    r := Redirection(Span(i + 1, i + 1 + |x.file|), x.out);
    RedirTurn(s, list, i, r.file, i + 1 + |x.file|);
  }

  lemma RedirsEnd(s: string, list: seq<Redirection<Span>>, i: nat)
    requires Line(s) && AfterExec(s, i)
    ensures ParseRedirs(s, list, i) == Redirs(list, i)
  {
    AfterReady(s, i);
    SkipReady(s, i);
  }

  lemma {:induction false} RedirsBack(s: string, list: seq<Redirection<Span>>, i: nat, l: seq<Redirection<string>>)
      returns (r: seq<Redirection<Span>>)
    requires Line(s) && Has(s, i, PrintRedirs(l)) && GoodRedirs(l) && AfterExec(s, i + |PrintRedirs(l)|)
    ensures ParseRedirs(s, list, i) == Redirs(list + r, i + |PrintRedirs(l)|) && RedirWords(s, r) == l
    decreases |l|
  {
    hide ParseRedirs, Has, AfterExec, AfterPipe, AfterLine, Ready, InWord, IsSpace, IsSymbol, Line, Text;
    if l == [] {
      RedirsEnd(s, list, i);
      r := [];
      assert list + r == list;
    } else {
      var first := Sign(l[0].out) + l[0].file;
      assert PrintRedirs(l) == first + PrintRedirs(l[1..]);
      HasSplit(s, i, first, PrintRedirs(l[1..]));
      AfterRedir(s, i + |first|, l[1..]);
      var x := RedirBack(s, list, i, l[0]);
      var rest := RedirsBack(s, list + [x], i + |first|, l[1..]);
      r := [x] + rest;
      assert list + r == (list + [x]) + rest;
      assert RedirWords(s, r) == [l[0]] + RedirWords(s, rest);
    }
  }

  lemma AfterRedir(s: string, i: nat, l: seq<Redirection<string>>)
    requires Line(s) && Has(s, i, PrintRedirs(l)) && AfterExec(s, i + |PrintRedirs(l)|)
    ensures Ready(s, i) && (i < |s| ==> !InWord(s[i]))
  {
    AfterReady(s, i + |PrintRedirs(l)|);
    TightRedirs(l);
    if l != [] {
      HasFirst(s, i, PrintRedirs(l));
    }
  }

  lemma NoRedirs(s: string, list: seq<Redirection<Span>>, i: nat)
    requires Line(s) && Ready(s, i) && (i < |s| ==> InWord(s[i]))
    ensures ParseRedirs(s, list, i) == Redirs(list, i)
  {
    SkipReady(s, i);
  }

  /** One turn of parseexec's loop, once the token is known. */
  lemma ArgTurn(s: string, argv: seq<Span>, list: seq<Redirection<Span>>, i: nat, w: Span, j: nat)
    requires Line(s) && i < |s| && Skip(s, i) == i && InWord(s[i]) && |argv| + 1 < MAXARGS
    requires w.q <= w.eq <= j <= |s| && GetToken(s, i) == Token('a', w, j)
    ensures ParseArgs(s, argv, list, i) ==
            match ParseRedirs(s, list, j)
            case NoFile => Bad(MissingFile)
            case Redirs(list', k) => ParseArgs(s, argv + [w], list', k)
  {
    hide GetToken, Skip, ParseRedirs, Line;
  }

  lemma ArgsEnd(s: string, argv: seq<Span>, list: seq<Redirection<Span>>, i: nat)
    requires Line(s) && AfterExec(s, i)
    ensures ParseArgs(s, argv, list, i) == Ok(Wrap(Exec(argv), list), i)
  {
    AfterReady(s, i);
    SkipReady(s, i);
  }

  /** A word and the blank printed after it. */
  lemma ArgPlace(s: string, i: nat, w: string, rest: string) returns (a: Span)
    requires Line(s) && Has(s, i, w + " " + rest) && GoodWord(w) && Ready(s, i + |w| + 1)
    ensures Has(s, i + |w| + 1, rest) && i < |s| && InWord(s[i]) && Skip(s, i) == i
    ensures a == Span(i, i + |w|) && GetToken(s, i) == Token('a', a, i + |w| + 1) && Text(s, a) == w
  {
    HasSplit(s, i, w + " ", rest);
    HasSplit(s, i, w, " ");
    HasFirst(s, i, w);
    HasFirst(s, i + |w|, " ");
    assert InWord(w[0]);
    SkipReady(s, i);
    TokenWord(s, i, w);
    SkipReady(s, i + |w| + 1);
    a := Span(i, i + |w|);
  }

  /** Words come right after words, then the redirections. */
  lemma ArgsReady(s: string, i: nat, argv: seq<string>, l: seq<Redirection<string>>)
    requires Line(s) && Has(s, i, PrintArgs(argv) + PrintRedirs(l)) && forall k :: 0 <= k < |argv| ==> GoodWord(argv[k])
    requires AfterExec(s, i + |PrintArgs(argv) + PrintRedirs(l)|)
    ensures Ready(s, i) && (argv != [] ==> i < |s| && InWord(s[i]))
    ensures Has(s, i, PrintArgs(argv)) && Has(s, i + |PrintArgs(argv)|, PrintRedirs(l))
  {
    HasSplit(s, i, PrintArgs(argv), PrintRedirs(l));
    AfterRedir(s, i + |PrintArgs(argv)|, l);
    TightArgs(argv);
    if argv != [] {
      HasFirst(s, i, PrintArgs(argv));
    }
  }

  lemma {:induction false} ArgsBack(s: string, argv0: seq<Span>, i: nat, argv: seq<string>, l: seq<Redirection<string>>)
    returns (a: seq<Span>, r: seq<Redirection<Span>>)
    requires Line(s) && Has(s, i, PrintArgs(argv) + PrintRedirs(l)) && GoodRedirs(l)
    requires argv != [] && |argv0| + |argv| < MAXARGS && forall k :: 0 <= k < |argv| ==> GoodWord(argv[k])
    requires AfterExec(s, i + |PrintArgs(argv) + PrintRedirs(l)|)
    ensures ParseArgs(s, argv0, [], i) == Ok(Wrap(Exec(argv0 + a), r), i + |PrintArgs(argv) + PrintRedirs(l)|)
    ensures Texts(s, a) == argv && RedirWords(s, r) == l
    decreases |argv|
  {
    hide ParseArgs, ParseRedirs, GetToken, Skip, Has, AfterExec, AfterPipe, AfterLine, Ready, InWord, GoodWord, Line,
         Text, RedirWords, Wrap;
    var w, rest := argv[0], PrintArgs(argv[1..]) + PrintRedirs(l);
    assert PrintArgs(argv) + PrintRedirs(l) == w + " " + rest;
    var j := i + |w| + 1;
    assert Has(s, j, rest) by { HasSplit(s, i, w + " ", rest); }
    ArgsReady(s, j, argv[1..], l);
    var x := ArgPlace(s, i, w, rest);
    ArgTurn(s, argv0, [], i, x, j);
    if argv[1..] == [] {
      r := RedirsBack(s, [], j, l);
      assert [] + r == r;
      ArgsEnd(s, argv0 + [x], r, i + |w + " " + rest|);
      a := [x];
    } else {
      NoRedirs(s, [], j);
      a, r := ArgsBack(s, argv0 + [x], j, argv[1..], l);
      assert (argv0 + [x]) + a == argv0 + ([x] + a);
      a := [x] + a;
    }
  }

  /* Commands, by the level of the grammar they are printed at */

  lemma WordsExec(s: string, a: seq<Span>)
    ensures Words(s, Exec(a)) == Exec(Texts(s, a)) && Texts(s, []) == []
  {
  }

  lemma WordsWrap(s: string, c: Cmd<Span>, r: seq<Redirection<Span>>)
    ensures Words(s, Wrap(c, r)) == Wrap(Words(s, c), RedirWords(s, r))
    decreases |r|
  {
    if r != [] {
      WordsWrap(s, c, r[..|r| - 1]);
      assert RedirWords(s, r)[..|r| - 1] == RedirWords(s, r[..|r| - 1]);
    }
  }

  lemma ExecTurn(s: string, i: nat)
    requires Line(s) && Ready(s, i) && At(s, i) != '('
    ensures ParseExec(s, i) ==
            match ParseRedirs(s, [], i)
            case NoFile => Bad(MissingFile)
            case Redirs(list, j) => ParseArgs(s, [], list, j)
  {
    SkipReady(s, i);
  }

  /** What comes first in a plain command. */
  lemma PlainStart(s: string, i: nat, argv: seq<string>, l: seq<Redirection<string>>)
    requires Line(s) && Has(s, i, PrintArgs(argv) + PrintRedirs(l)) && forall k :: 0 <= k < |argv| ==> GoodWord(argv[k])
    requires AfterExec(s, i + |PrintArgs(argv) + PrintRedirs(l)|)
    ensures Ready(s, i) && At(s, i) != '('
  {
    ArgsReady(s, i, argv, l);
    TightRedirs(l);
    if argv == [] && l != [] {
      HasFirst(s, i, PrintRedirs(l));
    }
  }

  lemma OnlyRedirsBack(s: string, i: nat, l: seq<Redirection<string>>) returns (c: Cmd<Span>)
    requires Line(s) && Has(s, i, PrintRedirs(l)) && GoodRedirs(l) && AfterExec(s, i + |PrintRedirs(l)|)
    requires Ready(s, i) && At(s, i) != '('
    ensures ParseExec(s, i) == Ok(c, i + |PrintRedirs(l)|) && Words(s, c) == Wrap(Exec([]), l)
  {
    hide *;
    ExecTurn(s, i);
    var r := RedirsBack(s, [], i, l);
    assert [] + r == r;
    ArgsEnd(s, [], r, i + |PrintRedirs(l)|);
    WordsExec(s, []);
    c := Wrap(Exec([]), r);
    WordsWrap(s, Exec([]), r);
  }

  /** A command of words and redirections. */
  lemma PlainBack(s: string, i: nat, argv: seq<string>, l: seq<Redirection<string>>) returns (c: Cmd<Span>)
    requires Line(s) && Has(s, i, PrintArgs(argv) + PrintRedirs(l)) && GoodRedirs(l)
    requires |argv| < MAXARGS && forall k :: 0 <= k < |argv| ==> GoodWord(argv[k])
    requires AfterExec(s, i + |PrintArgs(argv) + PrintRedirs(l)|)
    ensures ParseExec(s, i) == Ok(c, i + |PrintArgs(argv) + PrintRedirs(l)|) && Words(s, c) == Wrap(Exec(argv), l)
  {
    PlainStart(s, i, argv, l);
    ArgsReady(s, i, argv, l);
    if argv == [] {
      assert PrintArgs(argv) + PrintRedirs(l) == PrintRedirs(l);
      c := OnlyRedirsBack(s, i, l);
    } else {
      hide *;
      ExecTurn(s, i);
      NoRedirs(s, [], i);
      var a, r := ArgsBack(s, [], i, argv, l);
      assert [] + a == a;
      WordsExec(s, a);
      c := Wrap(Exec(a), r);
      WordsWrap(s, Exec(a), r);
    }
  }

  /** '(' or ')', and something to read after it. */
  lemma ParenPlace(s: string, i: nat, rest: string, c: char)
    requires Line(s) && (Separates(c) || c == '(' || c == ')') && Has(s, i, [c] + rest) && Ready(s, i + 1)
    ensures i < |s| && s[i] == c && Ready(s, i) && Skip(s, i) == i && GetToken(s, i) == Token(c, Span(i, i + 1), i + 1)
    ensures Has(s, i + 1, rest)
  {
    HasSplit(s, i, [c], rest);
    HasFirst(s, i, [c] + rest);
    SkipReady(s, i);
    TokenSymbol(s, i);
  }

  /** parseblock, once the line inside is known to be read back. */
  lemma BlockTurn(s: string, i: nat, c: Cmd<Span>, j: nat, r: seq<Redirection<Span>>, k: nat)
    requires Line(s) && i < j < |s| && s[i] == '(' && Skip(s, i) == i && GetToken(s, i).next == i + 1
    requires ParseLine(s, i + 1) == Ok(c, j) && s[j] == ')' && Skip(s, j) == j && GetToken(s, j).next == j + 1
    requires j + 1 <= |s| && ParseRedirs(s, [], j + 1) == Redirs(r, k)
    ensures ParseExec(s, i) == Ok(Wrap(c, r), k)
  {
    hide GetToken, Skip, Line, ParseLine, ParseRedirs;
    assert ParseBlock(s, i) == Ok(Wrap(c, r), k);
  }

  /* The four levels read back what was printed, and leave the cursor after it */

  lemma PrintedExec(c: Cmd<string>)
    requires Good(c)
    ensures Base(c).Exec? ==> PrintExec(c) == PrintArgs(Base(c).argv) + PrintRedirs(RedirsOf(c))
    ensures !Base(c).Exec? ==> PrintExec(c) == ("(" + PrintLine(Base(c)) + ")") + PrintRedirs(RedirsOf(c))
                               && |PrintExec(c)| == 2 + |PrintLine(Base(c))| + |PrintRedirs(RedirsOf(c))|
  {
  }

  lemma GoodArgs(c: Cmd<string>)
    requires Good(c) && c.Exec?
    ensures |c.argv| < MAXARGS && forall k :: 0 <= k < |c.argv| ==> GoodWord(c.argv[k])
  {
  }

  lemma {:induction false} ExecBack(s: string, i: nat, c: Cmd<string>) returns (r: Cmd<Span>)
    requires Line(s) && Good(c) && Has(s, i, PrintExec(c)) && AfterExec(s, i + |PrintExec(c)|)
    ensures ParseExec(s, i) == Ok(r, i + |PrintExec(c)|) && Words(s, r) == c
    decreases Size(c), if c.Exec? || c.Redir? then 0 else 4
  {
    hide *;
    GoodBase(c);
    PrintedExec(c);
    var b, l := Base(c), RedirsOf(c);
    if b.Exec? {
      GoodArgs(b);
      r := PlainBack(s, i, b.argv, l);
    } else {
      r := BlockBack(s, i, b, l);
    }
  }

  /** Where the parentheses and what is in and after them are. */
  lemma BlockPlace(s: string, i: nat, t: string, l: seq<Redirection<string>>)
    requires Line(s) && Tight(t) && Has(s, i, ("(" + t + ")") + PrintRedirs(l))
    requires AfterExec(s, i + 2 + |t| + |PrintRedirs(l)|)
    ensures var j := i + 1 + |t|;
            && j < |s| && s[i] == '(' && Skip(s, i) == i && GetToken(s, i).next == i + 1
            && s[j] == ')' && Skip(s, j) == j && GetToken(s, j).next == j + 1
            && Has(s, i + 1, t) && Has(s, j + 1, PrintRedirs(l)) && AfterLine(s, j)
  {
    hide *;
    var tail, j := PrintRedirs(l), i + 1 + |t|;
    assert ("(" + t + ")") + tail == ['('] + (t + ([')'] + tail));
    HasSplit(s, i, ['('], t + ([')'] + tail));
    HasSplit(s, i + 1, t, [')'] + tail);
    HasSplit(s, j, [')'], tail);
    AfterRedir(s, j + 1, l);
    ParenPlace(s, j, tail, ')');
    ReadyAt(s, i + 1, t);
    ParenPlace(s, i, t + ([')'] + tail), '(');
    LineEndsAt(s, j);
  }

  lemma LineEndsAt(s: string, j: nat)
    requires j < |s| && s[j] == ')'
    ensures AfterLine(s, j)
  {
  }

  lemma {:induction false} BlockBack(s: string, i: nat, b: Cmd<string>, l: seq<Redirection<string>>)
      returns (r: Cmd<Span>)
    requires Line(s) && Good(b) && GoodRedirs(l)
    requires Has(s, i, ("(" + PrintLine(b) + ")") + PrintRedirs(l))
             && AfterExec(s, i + 2 + |PrintLine(b)| + |PrintRedirs(l)|)
    ensures ParseExec(s, i) == Ok(r, i + 2 + |PrintLine(b)| + |PrintRedirs(l)|) && Words(s, r) == Wrap(b, l)
    decreases Size(b), 3, 1
  {
    hide *;
    var j := i + 1 + |PrintLine(b)|;
    TightAll(b);
    BlockPlace(s, i, PrintLine(b), l);
    var c := LineBack(s, i + 1, b);
    var q := RedirsBack(s, [], j + 1, l);
    assert [] + q == q;
    BlockTurn(s, i, c, j, q, j + 1 + |PrintRedirs(l)|);
    WordsWrap(s, c, q);
    r := Wrap(c, q);
  }

  /** parsepipe, on what comes after the first command. */
  lemma PipeOne(s: string, i: nat, c: Cmd<Span>, j: nat)
    requires Line(s) && i <= |s| && ParseExec(s, i) == Ok(c, j) && AfterPipe(s, j)
    ensures ParsePipe(s, i) == Ok(c, j)
  {
    hide GetToken, Skip, Line, ParseExec;
    AfterReady(s, j);
    SkipReady(s, j);
  }

  lemma PipeTwo(s: string, i: nat, c: Cmd<Span>, j: nat, d: Cmd<Span>, k: nat)
    requires Line(s) && i <= |s| && ParseExec(s, i) == Ok(c, j) && SepAt(s, j, '|') && ParsePipe(s, j + 1) == Ok(d, k)
    ensures ParsePipe(s, i) == Ok(Pipe(c, d), k)
  {
    hide GetToken, Skip, Line, ParseExec;
    SkipReady(s, j);
  }

  /** What is at a separator and after it. */
  lemma SepPlace(s: string, i: nat, t: string, c: char, rest: string)
    requires Line(s) && Separates(c) && Has(s, i, Join(t, c, rest)) && Tight(rest) && AfterExec(s, i + |t| + 1 + |rest|)
    ensures var j := i + |t|;
            && Has(s, i, t) && Has(s, j + 1, rest) && SepAt(s, j, c)
            && AfterExec(s, j) && (c != '|' ==> AfterPipe(s, j))
  {
    var j := i + |t|;
    assert t + [c] + rest == t + ([c] + rest);
    AfterReady(s, j + 1 + |rest|);
    HasSplit(s, i, t, [c] + rest);
    HasSplit(s, j, [c], rest);
    ReadyAt(s, j + 1, rest);
    ParenPlace(s, j, rest, c);
  }

  /** The printed forms, taken apart. */
  lemma PrintedPipe(c: Cmd<string>)
    requires Good(c)
    ensures c.Pipe? ==> Size(c) == Size(c.left) + Size(c.right) + 1
    ensures c.Pipe? ==>
              Good(c.left) && Good(c.right) && PrintPipe(c) == Join(PrintExec(c.left), '|', PrintPipe(c.right))
    ensures !c.Pipe? ==> PrintPipe(c) == PrintExec(c)
  {
  }

  lemma PrintedBacks(c: Cmd<string>)
    requires Good(c)
    ensures c.Back? ==> Size(c) == Size(c.cmd) + 1
    ensures c.Back? ==> Good(c.cmd) && PrintBacks(c) == Join(PrintBacks(c.cmd), '&', "")
    ensures !c.Back? ==> PrintBacks(c) == PrintPipe(c)
  {
  }

  lemma PrintedLine(c: Cmd<string>)
    requires Good(c)
    ensures c.List? ==> Size(c) == Size(c.left) + Size(c.right) + 1
    ensures c.List? ==>
              Good(c.left) && Good(c.right) && PrintLine(c) == Join(PrintBacks(c.left), ';', PrintLine(c.right))
    ensures !c.List? ==> PrintLine(c) == PrintBacks(c)
  {
  }

  lemma WordsOf(s: string, l: Cmd<Span>, r: Cmd<Span>)
    ensures Words(s, Pipe(l, r)) == Pipe(Words(s, l), Words(s, r))
    ensures Words(s, List(l, r)) == List(Words(s, l), Words(s, r))
    ensures Words(s, Back(l)) == Back(Words(s, l))
  {
  }

  lemma {:induction false} PipeBack(s: string, i: nat, c: Cmd<string>) returns (r: Cmd<Span>)
    requires Line(s) && Good(c) && Has(s, i, PrintPipe(c)) && AfterPipe(s, i + |PrintPipe(c)|)
    ensures ParsePipe(s, i) == Ok(r, i + |PrintPipe(c)|) && Words(s, r) == c
    decreases Size(c), if c.Back? || c.List? then 5 else 1, 1
  {
    hide *;
    PrintedPipe(c);
    if c.Pipe? {
      r := PipeBackTwo(s, i, c.left, c.right);
    } else {
      AfterMore(s, i + |PrintPipe(c)|);
      r := ExecBack(s, i, c);
      PipeOne(s, i, r, i + |PrintPipe(c)|);
    }
  }

  lemma {:induction false} PipeBackTwo(s: string, i: nat, a: Cmd<string>, b: Cmd<string>) returns (r: Cmd<Span>)
    requires Line(s) && Good(a) && Good(b) && Has(s, i, Join(PrintExec(a), '|', PrintPipe(b)))
    requires AfterPipe(s, i + |PrintExec(a)| + 1 + |PrintPipe(b)|)
    ensures ParsePipe(s, i) == Ok(r, i + |PrintExec(a)| + 1 + |PrintPipe(b)|) && Words(s, r) == Pipe(a, b)
    decreases Size(a) + Size(b) + 1, 0, 0
  {
    hide *;
    AfterMore(s, i + |PrintExec(a)| + 1 + |PrintPipe(b)|);
    var j := i + |PrintExec(a)|;
    TightAll(b);
    SepPlace(s, i, PrintExec(a), '|', PrintPipe(b));
    var left := ExecBack(s, i, a);
    var right := PipeBack(s, j + 1, b);
    PipeTwo(s, i, left, j, right, j + 1 + |PrintPipe(b)|);
    WordsOf(s, left, right);
    r := Pipe(left, right);
  }

  lemma TightNone()
    ensures Tight("")
  {
  }

  lemma AfterMore(s: string, j: nat)
    ensures AfterLine(s, j) ==> AfterPipe(s, j)
    ensures AfterPipe(s, j) ==> AfterExec(s, j) && j <= |s|
  {
  }

  /** parsepipe and the loop after it. */
  function BacksAt(s: string, i: nat): (r: Parsed)
    requires Line(s) && i <= |s|
    ensures r.Ok? ==> i <= r.next <= |s|
  {
    match ParsePipe(s, i)
    case Bad(why) => Bad(why)
    case Ok(cmd, j) => ParseBacks(s, cmd, j)
  }

  lemma BacksAfter(s: string, i: nat, c: Cmd<Span>, j: nat)
    requires Line(s) && i <= |s| && ParsePipe(s, i) == Ok(c, j)
    ensures j <= |s| && BacksAt(s, i) == ParseBacks(s, c, j)
  {
    hide ParsePipe, ParseBacks, Line;
  }

  /** One turn of the loop of parseline. */
  lemma BacksTurn(s: string, c: Cmd<Span>, j: nat)
    requires Line(s) && SepAt(s, j, '&')
    ensures ParseBacks(s, c, j) == ParseBacks(s, Back(c), j + 1)
  {
    hide GetToken, Skip, Line;
    SkipReady(s, j);
  }

  lemma BacksEnd(s: string, c: Cmd<Span>, j: nat)
    requires Line(s) && Ready(s, j) && At(s, j) != '&'
    ensures ParseBacks(s, c, j) == Ok(c, j)
  {
    hide GetToken, Skip, Line;
    SkipReady(s, j);
  }

  /** parsepipe and the loop of parseline read c, and the loop goes on from there. */
  lemma {:induction false} BacksBack(s: string, i: nat, c: Cmd<string>) returns (r: Cmd<Span>)
    requires Line(s) && Good(c) && Has(s, i, PrintBacks(c)) && AfterPipe(s, i + |PrintBacks(c)|)
    ensures i + |PrintBacks(c)| <= |s| && BacksAt(s, i) == ParseBacks(s, r, i + |PrintBacks(c)|) && Words(s, r) == c
    decreases Size(c), if c.List? then 6 else 2, 1
  {
    hide *;
    PrintedBacks(c);
    if c.Back? {
      r := BacksBackOne(s, i, c.cmd);
    } else {
      r := PipeBack(s, i, c);
      BacksAfter(s, i, r, i + |PrintBacks(c)|);
    }
  }

  lemma {:induction false} BacksBackOne(s: string, i: nat, c: Cmd<string>) returns (r: Cmd<Span>)
    requires Line(s) && Good(c) && Has(s, i, Join(PrintBacks(c), '&', "")) && AfterPipe(s, i + |PrintBacks(c)| + 1)
    ensures i + |PrintBacks(c)| + 1 <= |s| && BacksAt(s, i) == ParseBacks(s, r, i + |PrintBacks(c)| + 1)
            && Words(s, r) == Back(c)
    decreases Size(c) + 1, 0, 0
  {
    hide *;
    var j := i + |PrintBacks(c)|;
    AfterMore(s, j + 1);
    TightNone();
    SepPlace(s, i, PrintBacks(c), '&', "");
    var x := BacksBack(s, i, c);
    BacksTurn(s, x, j);
    WordsOf(s, x, x);
    r := Back(x);
  }

  /** parseline, once its loop is known to come to j with c read. */
  lemma LineOne(s: string, i: nat, c: Cmd<Span>, j: nat)
    requires Line(s) && i <= |s| && AfterLine(s, j) && BacksAt(s, i) == ParseBacks(s, c, j)
    ensures ParseLine(s, i) == Ok(c, j)
  {
    hide GetToken, Skip, Line, ParsePipe, ParseBacks;
    AfterReady(s, j);
    BacksEnd(s, c, j);
    SkipReady(s, j);
  }

  lemma LineTwo(s: string, i: nat, c: Cmd<Span>, j: nat, d: Cmd<Span>, k: nat)
    requires Line(s) && i <= |s| && SepAt(s, j, ';')
    requires BacksAt(s, i) == ParseBacks(s, c, j) && ParseLine(s, j + 1) == Ok(d, k)
    ensures ParseLine(s, i) == Ok(List(c, d), k)
  {
    hide GetToken, Skip, Line, ParsePipe, ParseBacks;
    BacksEnd(s, c, j);
    SkipReady(s, j);
  }

  lemma {:induction false} LineBack(s: string, i: nat, c: Cmd<string>) returns (r: Cmd<Span>)
    requires Line(s) && Good(c) && Has(s, i, PrintLine(c)) && AfterLine(s, i + |PrintLine(c)|)
    ensures ParseLine(s, i) == Ok(r, i + |PrintLine(c)|) && Words(s, r) == c
    decreases Size(c), 3, 0
  {
    hide *;
    PrintedLine(c);
    if c.List? {
      r := LineBackTwo(s, i, c.left, c.right);
    } else {
      var end := i + |PrintLine(c)|;
      AfterMore(s, end);
      r := BacksBack(s, i, c);
      LineOne(s, i, r, end);
    }
  }

  lemma {:induction false} LineBackTwo(s: string, i: nat, a: Cmd<string>, b: Cmd<string>) returns (r: Cmd<Span>)
    requires Line(s) && Good(a) && Good(b) && Has(s, i, Join(PrintBacks(a), ';', PrintLine(b)))
    requires AfterLine(s, i + |PrintBacks(a)| + 1 + |PrintLine(b)|)
    ensures ParseLine(s, i) == Ok(r, i + |PrintBacks(a)| + 1 + |PrintLine(b)|) && Words(s, r) == List(a, b)
    decreases Size(a) + Size(b) + 1, 0, 0
  {
    hide *;
    var j := i + |PrintBacks(a)|;
    AfterMore(s, j + 1 + |PrintLine(b)|);
    TightAll(b);
    SepPlace(s, i, PrintBacks(a), ';', PrintLine(b));
    var left := BacksBack(s, i, a);
    var right := LineBack(s, j + 1, b);
    LineTwo(s, i, left, j, right, j + 1 + |PrintLine(b)|);
    WordsOf(s, left, right);
    r := List(left, right);
  }

  /* Round trips */

  lemma {:induction false} ArgsAreLine(argv: seq<string>)
    requires forall i :: 0 <= i < |argv| ==> GoodWord(argv[i])
    ensures Line(PrintArgs(argv))
    decreases |argv|
  {
    if argv != [] {
      assert GoodWord(argv[0]);
      ArgsAreLine(argv[1..]);
    }
  }

  lemma {:induction false} RedirsAreLine(l: seq<Redirection<string>>)
    requires GoodRedirs(l)
    ensures Line(PrintRedirs(l))
    decreases |l|
  {
    if l != [] {
      assert GoodWord(l[0].file);
      RedirsAreLine(l[1..]);
    }
  }

  lemma EmptyIsLine()
    ensures Line("")
  {
  }

  lemma LineOf(a: string, c: char, b: string)
    requires Line(a) && Line(b) && Separates(c)
    ensures Line(Join(a, c, b))
  {
  }

  lemma {:induction false} PrintedIsLine(c: Cmd<string>)
    requires Good(c)
    ensures Line(PrintLine(c)) && Line(PrintBacks(c)) && Line(PrintPipe(c)) && Line(PrintExec(c))
    decreases Size(c), 1
  {
    hide *;
    GoodBase(c);
    RedirsAreLine(RedirsOf(c));
    LevelsAreLines(c);
    if Base(c).Exec? {
      GoodArgs(Base(c));
      ArgsAreLine(Base(c).argv);
    } else {
      LevelsAreLines(Base(c));
      NoRedirAtBase(c);
    }
    ExecIsLine(c);
    PrintedPipe(c);
    PrintedBacks(c);
    PrintedLine(c);
  }

  lemma NoRedirAtBase(c: Cmd<string>)
    ensures !Base(c).Redir?
  {
  }

  lemma ExecIsLine(c: Cmd<string>)
    requires Good(c) && Line(PrintRedirs(RedirsOf(c)))
    requires if Base(c).Exec? then Line(PrintArgs(Base(c).argv)) else Line(PrintLine(Base(c)))
    ensures Line(PrintExec(c))
  {
    hide Base, PrintExec, PrintLine, PrintArgs, PrintRedirs, RedirsOf;
    PrintedExec(c);
  }

  /** The printed forms that are made of those of smaller commands. */
  lemma {:induction false} LevelsAreLines(c: Cmd<string>)
    requires Good(c)
    ensures c.Pipe? ==> Line(PrintPipe(c))
    ensures c.Back? ==> Line(PrintBacks(c))
    ensures c.List? || c.Pipe? || c.Back? ==> Line(PrintLine(c))
    decreases Size(c), 0
  {
    hide *;
    PrintedPipe(c);
    PrintedBacks(c);
    PrintedLine(c);
    EmptyIsLine();
    match c
    case Pipe(l, r) =>
      PrintedIsLine(l);
      PrintedIsLine(r);
      LineOf(PrintExec(l), '|', PrintPipe(r));
    case List(l, r) =>
      PrintedIsLine(l);
      PrintedIsLine(r);
      LineOf(PrintBacks(l), ';', PrintLine(r));
    case Back(x) =>
      PrintedIsLine(x);
      LineOf(PrintBacks(x), '&', "");
    case _ =>
  }

  /** Every command tree that can be written at all is read back from its printed line. */
  lemma ParsePrint(c: Cmd<string>) returns (r: Cmd<Span>)
    requires Good(c)
    ensures Line(PrintLine(c)) && ParseCmd(PrintLine(c)) == Ok(r, |PrintLine(c)|) && Words(PrintLine(c), r) == c
  {
    var s := PrintLine(c);
    PrintedIsLine(c);
    assert Has(s, 0, s);
    r := LineBack(s, 0, c);
  }

  /** A word as gettoken finds it: as long as it can be. */
  predicate WordAt(s: string, w: Span) {
    && w.q < w.eq <= |s| && (w.eq < |s| ==> !InWord(s[w.eq]))
    && forall k :: w.q <= k < w.eq ==> InWord(s[k])
  }

  /** A tree whose words are words of the line, and fewer than MAXARGS in a command. */
  predicate GoodAt(s: string, c: Cmd<Span>) {
    match c
    case Exec(argv) => |argv| < MAXARGS && forall i :: 0 <= i < |argv| ==> WordAt(s, argv[i])
    case Redir(x, file, out) => GoodAt(s, x) && WordAt(s, file)
    case Pipe(l, r) => GoodAt(s, l) && GoodAt(s, r)
    case List(l, r) => GoodAt(s, l) && GoodAt(s, r)
    case Back(x) => GoodAt(s, x)
  }

  predicate GoodRedirsAt(s: string, l: seq<Redirection<Span>>) {
    forall i :: 0 <= i < |l| ==> WordAt(s, l[i].file)
  }

  lemma WordAtGood(s: string, w: Span)
    requires Line(s) && WordAt(s, w)
    ensures GoodWord(Text(s, w))
  {
    assert forall k :: 0 <= k < |Text(s, w)| ==> Text(s, w)[k] == s[w.q + k];
  }

  lemma {:induction false} GoodAtGood(s: string, c: Cmd<Span>)
    requires Line(s) && GoodAt(s, c)
    ensures Good(Words(s, c))
  {
    match c
    case Exec(argv) =>
      forall i | 0 <= i < |argv|
        ensures GoodWord(Texts(s, argv)[i])
      {
        WordAtGood(s, argv[i]);
      }
    case Redir(x, file, out) =>
      GoodAtGood(s, x);
      WordAtGood(s, file);
    case Pipe(l, r) =>
      GoodAtGood(s, l);
      GoodAtGood(s, r);
    case List(l, r) =>
      GoodAtGood(s, l);
      GoodAtGood(s, r);
    case Back(x) =>
      GoodAtGood(s, x);
  }

  lemma {:induction false} WrapGood(s: string, c: Cmd<Span>, l: seq<Redirection<Span>>)
    requires GoodAt(s, c) && GoodRedirsAt(s, l)
    ensures GoodAt(s, Wrap(c, l))
    decreases |l|
  {
    if l != [] {
      WrapGood(s, c, l[..|l| - 1]);
    }
  }

  lemma TokenGood(s: string, i: nat)
    requires Line(s) && i <= |s| && GetToken(s, i).kind == 'a'
    ensures WordAt(s, GetToken(s, i).span)
  {
    var w := GetToken(s, i).span;
    assert InWord(s[w.q]);
    assert w.eq == WordEnd(s, w.q) && w.q < w.eq;
  }

  lemma {:induction false} RedirsGood(s: string, list: seq<Redirection<Span>>, i: nat)
    requires Line(s) && i <= |s| && GoodRedirsAt(s, list) && ParseRedirs(s, list, i).Redirs?
    ensures GoodRedirsAt(s, ParseRedirs(s, list, i).list)
    decreases |s| - i
  {
    hide GetToken, Skip, Peek, Line, WordAt;
    if Peek(s, i, "<>") {
      PeekMoves(s, i, "<>");
      var t := GetToken(s, Skip(s, i));
      TokenGood(s, t.next);
      var f := GetToken(s, t.next);
      RedirsGood(s, list + [Redirection(f.span, t.kind != '<')], f.next);
    }
  }

  lemma {:induction false} ArgsGood(s: string, argv: seq<Span>, list: seq<Redirection<Span>>, i: nat)
    requires Line(s) && i <= |s| && GoodRedirsAt(s, list) && GoodAt(s, Exec(argv)) && ParseArgs(s, argv, list, i).Ok?
    ensures GoodAt(s, ParseArgs(s, argv, list, i).cmd)
    decreases |s| - i
  {
    hide GetToken, Skip, Peek, Line, GoodRedirsAt, ParseRedirs, WordAt;
    var t := GetToken(s, Skip(s, i));
    if Peek(s, i, "|)&;") || t.kind == NUL {
      WrapGood(s, Exec(argv), list);
    } else {
      TokenGood(s, Skip(s, i));
      RedirsGood(s, list, t.next);
      var r := ParseRedirs(s, list, t.next);
      ArgsGood(s, argv + [t.span], r.list, r.next);
    }
  }

  /** After a peek that says yes, gettoken moves the cursor. */
  lemma PeekMoves(s: string, i: nat, toks: string)
    requires Line(s) && i <= |s| && Peek(s, i, toks)
    ensures i < GetToken(s, Skip(s, i)).next <= |s|
  {
  }

  lemma PeekSkipped(s: string, i: nat, toks: string)
    requires i <= |s| && Peek(s, i, toks)
    ensures Peek(s, Skip(s, i), toks)
  {
  }

  /** What the parser makes of any line is a tree that can be written: real words, and fewer than MAXARGS of them. */
  lemma {:induction false} LineGood(s: string, i: nat)
    requires Line(s) && i <= |s| && ParseLine(s, i).Ok?
    ensures GoodAt(s, ParseLine(s, i).cmd)
    decreases |s| - i, 3
  {
    hide GetToken, Skip, Peek, Line, ParsePipe, ParseBacks;
    PipeGood(s, i);
    var p := ParsePipe(s, i);
    BacksGood(s, p.cmd, p.next);
    var b := ParseBacks(s, p.cmd, p.next);
    if Peek(s, b.next, ";") {
      PeekMoves(s, b.next, ";");
      LineGood(s, GetToken(s, Skip(s, b.next)).next);
    }
  }

  lemma {:induction false} BacksGood(s: string, c: Cmd<Span>, i: nat)
    requires Line(s) && i <= |s| && GoodAt(s, c)
    ensures GoodAt(s, ParseBacks(s, c, i).cmd)
    decreases |s| - i
  {
    hide GetToken, Skip, Peek, Line;
    if Peek(s, i, "&") {
      PeekMoves(s, i, "&");
      BacksGood(s, Back(c), GetToken(s, Skip(s, i)).next);
    }
  }

  lemma {:induction false} PipeGood(s: string, i: nat)
    requires Line(s) && i <= |s| && ParsePipe(s, i).Ok?
    ensures GoodAt(s, ParsePipe(s, i).cmd)
    decreases |s| - i, 2
  {
    hide GetToken, Skip, Peek, Line, ParseExec;
    ExecGood(s, i);
    var e := ParseExec(s, i);
    if Peek(s, e.next, "|") {
      PeekMoves(s, e.next, "|");
      PipeGood(s, GetToken(s, Skip(s, e.next)).next);
    }
  }

  lemma {:induction false} ExecGood(s: string, i: nat)
    requires Line(s) && i <= |s| && ParseExec(s, i).Ok?
    ensures GoodAt(s, ParseExec(s, i).cmd)
    decreases |s| - i, 1
  {
    hide GetToken, Skip, Peek, Line, ParseRedirs, ParseArgs, ParseBlock;
    if Peek(s, i, "(") {
      PeekSkipped(s, i, "(");
      BlockGood(s, Skip(s, i));
    } else {
      RedirsGood(s, [], Skip(s, i));
      var r := ParseRedirs(s, [], Skip(s, i));
      ArgsGood(s, [], r.list, r.next);
    }
  }

  lemma {:induction false} BlockGood(s: string, i: nat)
    requires Line(s) && i <= |s| && Peek(s, i, "(") && ParseBlock(s, i).Ok?
    ensures GoodAt(s, ParseBlock(s, i).cmd)
    decreases |s| - i, 0
  {
    hide GetToken, Skip, Peek, Line, ParseRedirs, ParseLine;
    PeekMoves(s, i, "(");
    var n := GetToken(s, Skip(s, i)).next;
    LineGood(s, n);
    var c := ParseLine(s, n);
    var m := GetToken(s, Skip(s, c.next)).next;
    RedirsGood(s, [], m);
    WrapGood(s, c.cmd, ParseRedirs(s, [], m).list);
  }

  /** Printing what was parsed, and parsing that, changes nothing: whatever blanks, parentheses or >> the line had. */
  lemma PrintParsed(s: string) returns (r: Cmd<Span>)
    requires Line(s) && ParseCmd(s).Ok?
    ensures var t := PrintLine(Words(s, ParseCmd(s).cmd));
            Line(t) && ParseCmd(t).Ok? && ParseCmd(t).cmd == r && Words(t, r) == Words(s, ParseCmd(s).cmd)
  {
    LineGood(s, 0);
    GoodAtGood(s, ParseLine(s, 0).cmd);
    r := ParsePrint(Words(s, ParseCmd(s).cmd));
  }

  /** The trees that parsecmd can return, over all lines. */
  lemma ParsedIff(c: Cmd<string>)
    ensures (exists s :: Line(s) && ParseCmd(s).Ok? && Words(s, ParseCmd(s).cmd) == c) <==> Good(c)
  {
    if Good(c) {
      var r := ParsePrint(c);
      assert ParseCmd(PrintLine(c)).Ok?;
    }
    if s :| Line(s) && ParseCmd(s).Ok? && Words(s, ParseCmd(s).cmd) == c {
      LineGood(s, 0);
      GoodAtGood(s, ParseLine(s, 0).cmd);
    }
  }
}
