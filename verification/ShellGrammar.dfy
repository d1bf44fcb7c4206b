/**
 The language of the shell (user/sh.c), as a grammar over the symbols and words of a line, and the proof that the
 parser accepts exactly the lines of this grammar and gives each the tree that the grammar gives it.
 */
module ShellGrammar {
  import opened Shell
  import opened ShellRoundTrip

  /* The symbols and words of a line */

  /** '+' stands for ">>". */
  datatype Lexeme = Sym(c: char) | Word(w: string)

  function Lex(s: string, t: Token): Lexeme {
    if t.kind == 'a' then Word(Text(s, t.span)) else Sym(t.kind)
  }

  /** The line from i on. */
  function Lexemes(s: string, i: nat): seq<Lexeme>
    requires Line(s) && i <= |s|
    decreases |s| - i
  {
    var t := GetToken(s, i);
    if t.kind == NUL then [] else [Lex(s, t)] + Lexemes(s, t.next)
  }

  function Spelled(x: Lexeme): string {
    match x
    case Sym(c) => if c == '+' then ">>" else [c]
    case Word(w) => w
  }

  function Spelling(u: seq<Lexeme>): string {
    if u == [] then "" else Spelled(u[0]) + Spelling(u[1..])
  }

  function WithoutBlanks(s: string): string {
    if s == "" then "" else (if IsSpace(s[0]) then "" else [s[0]]) + WithoutBlanks(s[1..])
  }

  lemma {:induction false} WithoutBlanksOf(s: string, i: nat, j: nat)
    requires i <= j <= |s|
    ensures (forall k :: i <= k < j ==> IsSpace(s[k])) ==> WithoutBlanks(s[i..]) == WithoutBlanks(s[j..])
    ensures (forall k :: i <= k < j ==> !IsSpace(s[k])) ==> WithoutBlanks(s[i..]) == s[i..j] + WithoutBlanks(s[j..])
    decreases j - i
  {
    if i < j {
      WithoutBlanksOf(s, i + 1, j);
      assert s[i..][1..] == s[i + 1..];
      assert s[i..j] == [s[i]] + s[i + 1..j];
    }
  }

  /** A token, with the blanks around it. */
  lemma TokenSpelled(s: string, i: nat)
    requires Line(s) && i <= |s|
    ensures var t := GetToken(s, i);
            WithoutBlanks(s[i..]) ==
            if t.kind == NUL then "" else Spelled(Lex(s, t)) + WithoutBlanks(s[t.next..])
  {
    var t := GetToken(s, i);
    TokenPlace(s, i);
    hide GetToken, WithoutBlanks, IsSpace, Lex, Spelled;
    WithoutBlanksOf(s, i, t.span.q);
    WithoutBlanksOf(s, t.span.q, t.span.eq);
    WithoutBlanksOf(s, t.span.eq, t.next);
    if t.kind == NUL {
      NothingLeft(s);
    }
  }

  lemma NothingLeft(s: string)
    ensures WithoutBlanks(s[|s|..]) == ""
  {
  }

  lemma TokenPlace(s: string, i: nat)
    requires Line(s) && i <= |s|
    ensures var t := GetToken(s, i);
            && (forall k :: i <= k < t.span.q ==> IsSpace(s[k]))
            && (forall k :: t.span.q <= k < t.span.eq ==> !IsSpace(s[k]))
            && (forall k :: t.span.eq <= k < t.next ==> IsSpace(s[k]))
            && (t.kind != NUL ==> s[t.span.q..t.span.eq] == Spelled(Lex(s, t)))
  {
    hide WithoutBlanks, IsSymbol, IsSpace;
    forall c: char
      ensures IsSymbol(c) || c == '>' ==> !IsSpace(c) && c != 'a' && c != '+'
    {
      SymbolsShow(c);
    }
  }

  lemma SymbolsShow(c: char)
    ensures IsSymbol(c) || c == '>' ==> !IsSpace(c) && c != 'a' && c != '+'
  {
  }

  /** Nothing of a line is lost or added but blanks. */
  lemma {:induction false} LexemesSpell(s: string, i: nat)
    requires Line(s) && i <= |s|
    ensures Spelling(Lexemes(s, i)) == WithoutBlanks(s[i..])
    decreases |s| - i
  {
    var t := GetToken(s, i);
    TokenSpelled(s, i);
    hide GetToken, WithoutBlanks, Lex;
    if t.kind != NUL {
      LexemesSpell(s, t.next);
    }
  }

  /** The first lexeme is a symbol, one of these. */
  predicate Leads(u: seq<Lexeme>, toks: string) {
    u != [] && u[0].Sym? && (if u[0].c == '+' then '>' else u[0].c) in toks
  }

  /* The grammar */

  predicate IsRedir(x: Lexeme) {
    x == Sym('<') || x == Sym('>') || x == Sym('+')
  }

  /** Words and redirections, mixed in any way. */
  predicate Plain(argv: seq<string>, l: seq<Redirection<string>>, u: seq<Lexeme>)
    decreases |u|
  {
    if u == [] then argv == [] && l == []
    else if u[0].Word? then argv != [] && argv[0] == u[0].w && Plain(argv[1..], l, u[1..])
    else
      && IsRedir(u[0]) && |u| >= 2 && u[1].Word?
      && l != [] && l[0] == Redirection(u[1].w, u[0] != Sym('<')) && Plain(argv, l[1..], u[2..])
  }

  /** ( line ) and redirections; b is the tree of the line, which ends at n. */
  ghost predicate Block(c: Cmd<string>, b: Cmd<string>, l: seq<Redirection<string>>, u: seq<Lexeme>, n: nat)
    decreases |u|, 0
  {
    && 1 <= n < |u| && u[0] == Sym('(') && u[n] == Sym(')')
    && InLine(b, u[1..n]) && Plain([], l, u[n + 1..]) && c == Wrap(b, l)
  }

  ghost predicate InExec(c: Cmd<string>, u: seq<Lexeme>)
    decreases |u|, 1
  {
    || (exists argv, l :: |argv| < MAXARGS && Plain(argv, l, u) && c == Wrap(Exec(argv), l))
    || (exists b, l, n: nat :: Block(c, b, l, u, n))
  }

  ghost predicate InPipe(c: Cmd<string>, u: seq<Lexeme>)
    decreases |u|, 2
  {
    || InExec(c, u)
    || (c.Pipe? &&
        exists n :: 0 <= n < |u| && u[n] == Sym('|') && InExec(c.left, u[..n]) && InPipe(c.right, u[n + 1..]))
  }

  ghost predicate InBacks(c: Cmd<string>, u: seq<Lexeme>)
    decreases |u|, 3
  {
    || InPipe(c, u)
    || (u != [] && u[|u| - 1] == Sym('&') && c.Back? && InBacks(c.cmd, u[..|u| - 1]))
  }

  ghost predicate InLine(c: Cmd<string>, u: seq<Lexeme>)
    decreases |u|, 4
  {
    || InBacks(c, u)
    || (c.List? &&
        exists n :: 0 <= n < |u| && u[n] == Sym(';') && InBacks(c.left, u[..n]) && InLine(c.right, u[n + 1..]))
  }

  /* What gettoken and peek do to the rest of the line */

  lemma First(s: string, i: nat)
    requires Line(s) && i <= |s|
    ensures var t := GetToken(s, Skip(s, i));
            && Lexemes(s, i) == Lexemes(s, Skip(s, i))
            && Lexemes(s, i) == (if t.kind == NUL then [] else [Lex(s, t)] + Lexemes(s, t.next))
            && (t.kind == 'a' || t.kind == NUL || t.kind == '+' || IsSymbol(t.kind))
            && (t.kind == NUL ==> Lexemes(s, t.next) == [])
  {
    assert GetToken(s, Skip(s, i)) == GetToken(s, i);
  }

  lemma PeekLeads(s: string, i: nat, toks: string)
    requires Line(s) && i <= |s| && forall c :: c in toks ==> IsSymbol(c)
    ensures Peek(s, i, toks) <==> Leads(Lexemes(s, i), toks)
  {
    First(s, i);
    var q := Skip(s, i);
    assert Skip(s, q) == q;
    if q < |s| {
      assert At(s, q) != NUL;
    }
  }

  /** After a peek that says yes. */
  lemma Taken(s: string, i: nat, toks: string)
    requires Line(s) && i <= |s| && Peek(s, i, toks) && forall c :: c in toks ==> IsSymbol(c)
    ensures var t := GetToken(s, Skip(s, i));
            i < t.next <= |s| && t.kind != NUL && t.kind != 'a' && Lexemes(s, i) == [Sym(t.kind)] + Lexemes(s, t.next)
            && (if t.kind == '+' then '>' else t.kind) in toks
  {
    First(s, i);
    PeekLeads(s, i, toks);
  }

  /* What the parser accepts is in the grammar */

  lemma PlainWord(w: string, argv: seq<string>, l: seq<Redirection<string>>, u: seq<Lexeme>)
    ensures Plain([w] + argv, l, [Word(w)] + u) <==> Plain(argv, l, u)
  {
    assert ([w] + argv)[1..] == argv && ([Word(w)] + u)[1..] == u;
  }

  lemma PlainRedir(c: char, file: string, argv: seq<string>, l: seq<Redirection<string>>, u: seq<Lexeme>)
    requires IsRedir(Sym(c))
    ensures Plain(argv, [Redirection(file, c != '<')] + l, [Sym(c), Word(file)] + u) <==> Plain(argv, l, u)
  {
    assert ([Sym(c), Word(file)] + u)[2..] == u && ([Redirection(file, c != '<')] + l)[1..] == l;
  }

  lemma FirstIsWord(argv: seq<string>, l: seq<Redirection<string>>, u: seq<Lexeme>)
    requires Plain(argv, l, u) && u != [] && u[0].Word?
    ensures argv != [] && argv == [u[0].w] + argv[1..] && u == [Word(u[0].w)] + u[1..] && Plain(argv[1..], l, u[1..])
  {
  }

  lemma FirstIsRedir(argv: seq<string>, l: seq<Redirection<string>>, u: seq<Lexeme>)
    requires Plain(argv, l, u) && u != [] && !u[0].Word?
    ensures IsRedir(u[0]) && |u| >= 2 && u[1].Word? && l != [] && Plain(argv, l[1..], u[2..])
    ensures l == [Redirection(u[1].w, u[0].c != '<')] + l[1..]
    ensures u == [Sym(u[0].c), Word(u[1].w)] + u[2..]
  {
    hide IsRedir;
  }

  lemma NothingThere(argv: seq<string>, l: seq<Redirection<string>>)
    ensures Plain(argv, l, []) <==> argv == [] && l == []
  {
  }

  lemma {:induction false} PlainThen(a1: seq<string>, l1: seq<Redirection<string>>, u1: seq<Lexeme>,
      a2: seq<string>, l2: seq<Redirection<string>>, u2: seq<Lexeme>)
    requires Plain(a1, l1, u1) && Plain(a2, l2, u2)
    ensures Plain(a1 + a2, l1 + l2, u1 + u2)
    decreases |u1|
  {
    hide Plain, IsRedir;
    if u1 == [] {
      NothingThere(a1, l1);
      assert a1 + a2 == a2 && l1 + l2 == l2 && u1 + u2 == u2;
    } else if u1[0].Word? {
      FirstIsWord(a1, l1, u1);
      PlainThen(a1[1..], l1, u1[1..], a2, l2, u2);
      PlainWord(u1[0].w, a1[1..] + a2, l1 + l2, u1[1..] + u2);
      assert a1 + a2 == [u1[0].w] + (a1[1..] + a2);
      assert u1 + u2 == [Word(u1[0].w)] + (u1[1..] + u2);
    } else {
      FirstIsRedir(a1, l1, u1);
      PlainThen(a1, l1[1..], u1[2..], a2, l2, u2);
      PlainRedir(u1[0].c, u1[1].w, a1 + a2, l1[1..] + l2, u1[2..] + u2);
      assert l1 + l2 == [l1[0]] + (l1[1..] + l2);
      assert u1 + u2 == [Sym(u1[0].c), Word(u1[1].w)] + (u1[2..] + u2);
    }
  }

  lemma {:induction false} RedirsIn(s: string, list: seq<Redirection<Span>>, i: nat)
      returns (l: seq<Redirection<Span>>, u: seq<Lexeme>)
    requires Line(s) && i <= |s| && ParseRedirs(s, list, i).Redirs?
    ensures var r := ParseRedirs(s, list, i);
            && r.list == list + l && Lexemes(s, i) == u + Lexemes(s, r.next)
            && Plain([], RedirWords(s, l), u) && !Leads(Lexemes(s, r.next), "<>")
    decreases |s| - i
  {
    hide GetToken, Skip, Peek, Line, Leads, Plain, RedirWords, Text;
    First(s, i);
    PeekLeads(s, i, "<>");
    if Peek(s, i, "<>") {
      Taken(s, i, "<>");
      var t := GetToken(s, Skip(s, i));
      var f := GetToken(s, t.next);
      var x := Redirection(f.span, t.kind != '<');
      var l', u' := RedirsIn(s, list + [x], f.next);
      l, u := [x] + l', [Sym(t.kind), Lex(s, f)] + u';
      PlainRedir(t.kind, Text(s, f.span), [], RedirWords(s, l'), u');
      RedirWordsThen(s, [x], l');
      assert Lexemes(s, t.next) == [Lex(s, f)] + Lexemes(s, f.next);
      assert list + [x] + l' == list + l;
    } else {
      l, u := [], [];
      RedirWordsNone(s);
    }
  }

  lemma RedirWordsThen(s: string, a: seq<Redirection<Span>>, b: seq<Redirection<Span>>)
    ensures RedirWords(s, a + b) == RedirWords(s, a) + RedirWords(s, b)
    ensures |a| == 1 ==> RedirWords(s, a) == [Redirection(Text(s, a[0].file), a[0].out)]
  {
  }

  lemma RedirWordsNone(s: string)
    ensures RedirWords(s, []) == [] && Plain([], [], [])
  {
  }

  lemma TextsThen(s: string, a: seq<Span>, b: seq<Span>)
    ensures Texts(s, a + b) == Texts(s, a) + Texts(s, b) && Texts(s, []) == []
    ensures |a| == 1 ==> Texts(s, a) == [Text(s, a[0])]
  {
  }

  lemma {:induction false} ArgsIn(s: string, argv: seq<Span>, list: seq<Redirection<Span>>, i: nat)
      returns (a: seq<Span>, l: seq<Redirection<Span>>, u: seq<Lexeme>)
    requires Line(s) && i <= |s| && ParseArgs(s, argv, list, i).Ok? && |argv| < MAXARGS
    ensures var r := ParseArgs(s, argv, list, i);
            && r.cmd == Wrap(Exec(argv + a), list + l) && |argv + a| < MAXARGS
            && Lexemes(s, i) == u + Lexemes(s, r.next)
            && Plain(Texts(s, a), RedirWords(s, l), u)
    decreases |s| - i
  {
    hide GetToken, Skip, Peek, Line, Leads, Plain, RedirWords, Text, Texts, ParseRedirs, Wrap, IsSymbol, Lexemes, Words;
    First(s, i);
    var t := GetToken(s, Skip(s, i));
    if Peek(s, i, "|)&;") || t.kind == NUL {
      a, l, u := [], [], [];
      RedirWordsNone(s);
      TextsThen(s, [], []);
      assert argv + [] == argv && list + [] == list;
    } else {
      var r := ParseRedirs(s, list, t.next);
      var l1, u1 := RedirsIn(s, list, t.next);
      var a2, l2, u2 := ArgsIn(s, argv + [t.span], r.list, r.next);
      a, l, u := [t.span] + a2, l1 + l2, [Lex(s, t)] + (u1 + u2);
      assert argv + [t.span] + a2 == argv + a && list + l1 + l2 == list + l;
      assert Lexemes(s, i) == u + Lexemes(s, ParseArgs(s, argv + [t.span], r.list, r.next).next);
      ArgThen(s, t, l1, u1, a2, l2, u2);
    }
  }

  /** A word, the redirections after it, and the rest of a command. */
  lemma ArgThen(s: string, t: Token, l1: seq<Redirection<Span>>, u1: seq<Lexeme>,
      a2: seq<Span>, l2: seq<Redirection<Span>>, u2: seq<Lexeme>)
    requires t.kind == 'a' && Plain([], RedirWords(s, l1), u1) && Plain(Texts(s, a2), RedirWords(s, l2), u2)
    ensures Plain(Texts(s, [t.span] + a2), RedirWords(s, l1 + l2), [Lex(s, t)] + (u1 + u2))
  {
    hide Plain, RedirWords, Text, Texts;
    TextsThen(s, [t.span], a2);
    RedirWordsThen(s, l1, l2);
    PlainThen([], RedirWords(s, l1), u1, Texts(s, a2), RedirWords(s, l2), u2);
    assert [] + Texts(s, a2) == Texts(s, a2);
    PlainWord(Text(s, t.span), Texts(s, a2), RedirWords(s, l1 + l2), u1 + u2);
  }

  lemma {:induction false} ExecIn(s: string, i: nat) returns (u: seq<Lexeme>)
    requires Line(s) && i <= |s| && ParseExec(s, i).Ok?
    ensures var r := ParseExec(s, i); InExec(Words(s, r.cmd), u) && Lexemes(s, i) == u + Lexemes(s, r.next)
    decreases |s| - i, 1
  {
    hide GetToken, Skip, Peek, Line, ParseRedirs, ParseArgs, ParseBlock, InExec, Lexemes, Plain;
    First(s, i);
    if Peek(s, i, "(") {
      PeekSkipped(s, i, "(");
      u := BlockIn(s, Skip(s, i));
    } else {
      var r := ParseRedirs(s, [], Skip(s, i));
      var l1, u1 := RedirsIn(s, [], Skip(s, i));
      var a, l2, u2 := ArgsIn(s, [], r.list, r.next);
      u := u1 + u2;
      RedirWordsThen(s, l1, l2);
      PlainThen([], RedirWords(s, l1), u1, Texts(s, a), RedirWords(s, l2), u2);
      assert [] + a == a && [] + l1 == l1 && [] + Texts(s, a) == Texts(s, a);
      PlainInExec(s, a, l1 + l2, u);
    }
  }

  lemma PlainInExec(s: string, a: seq<Span>, l: seq<Redirection<Span>>, u: seq<Lexeme>)
    requires |a| < MAXARGS && Plain(Texts(s, a), RedirWords(s, l), u)
    ensures InExec(Words(s, Wrap(Exec(a), l)), u)
  {
    hide Plain;
    WordsWrap(s, Exec(a), l);
  }

  lemma {:induction false} BlockIn(s: string, i: nat) returns (u: seq<Lexeme>)
    requires Line(s) && i <= |s| && Peek(s, i, "(") && ParseBlock(s, i).Ok?
    ensures var r := ParseBlock(s, i); InExec(Words(s, r.cmd), u) && Lexemes(s, i) == u + Lexemes(s, r.next)
    decreases |s| - i, 0
  {
    hide GetToken, Skip, Peek, Line, ParseRedirs, ParseLine, InExec, Lexemes, Plain, InLine;
    Taken(s, i, "(");
    var t := GetToken(s, Skip(s, i));
    var v := LineIn(s, t.next);
    var c := ParseLine(s, t.next);
    Taken(s, c.next, ")");
    var m := GetToken(s, Skip(s, c.next)).next;
    var l, w := RedirsIn(s, [], m);
    assert [] + l == l;
    u := [Sym('(')] + v + [Sym(')')] + w;
    BlockInExec(s, c.cmd, l, v, w);
  }

  lemma BlockInExec(s: string, b: Cmd<Span>, l: seq<Redirection<Span>>, v: seq<Lexeme>, w: seq<Lexeme>)
    requires InLine(Words(s, b), v) && Plain([], RedirWords(s, l), w)
    ensures InExec(Words(s, Wrap(b, l)), [Sym('(')] + v + [Sym(')')] + w)
  {
    hide Plain, InLine, Words, RedirWords;
    WordsWrap(s, b, l);
    var u := [Sym('(')] + v + [Sym(')')] + w;
    assert u[1..|v| + 1] == v && u[|v| + 2..] == w;
    assert Block(Words(s, Wrap(b, l)), Words(s, b), RedirWords(s, l), u, |v| + 1);
  }

  lemma {:induction false} PipeIn(s: string, i: nat) returns (u: seq<Lexeme>)
    requires Line(s) && i <= |s| && ParsePipe(s, i).Ok?
    ensures var r := ParsePipe(s, i); InPipe(Words(s, r.cmd), u) && Lexemes(s, i) == u + Lexemes(s, r.next)
    decreases |s| - i, 2
  {
    hide GetToken, Skip, Peek, Line, ParseExec, InExec, InPipe, Lexemes;
    var e := ParseExec(s, i);
    var v := ExecIn(s, i);
    First(s, e.next);
    if Peek(s, e.next, "|") {
      Taken(s, e.next, "|");
      var n := GetToken(s, Skip(s, e.next)).next;
      var w := PipeIn(s, n);
      PipeTwoIn(Words(s, e.cmd), Words(s, ParsePipe(s, n).cmd), v, w);
      u := v + [Sym('|')] + w;
    } else {
      PipeOneIn(Words(s, e.cmd), v);
      u := v;
    }
  }

  lemma PipeOneIn(c: Cmd<string>, u: seq<Lexeme>)
    ensures InExec(c, u) ==> InPipe(c, u)
    ensures InPipe(c, u) ==> InBacks(c, u)
    ensures InBacks(c, u) ==> InLine(c, u)
  {
    hide InExec;
  }

  lemma PipeTwoIn(c: Cmd<string>, d: Cmd<string>, v: seq<Lexeme>, w: seq<Lexeme>)
    requires InExec(c, v) && InPipe(d, w)
    ensures InPipe(Pipe(c, d), v + [Sym('|')] + w)
  {
    var u := v + [Sym('|')] + w;
    assert u[..|v|] == v && u[|v| + 1..] == w && u[|v|] == Sym('|');
    hide InExec;
  }

  lemma LineTwoIn(c: Cmd<string>, d: Cmd<string>, v: seq<Lexeme>, w: seq<Lexeme>)
    requires InBacks(c, v) && InLine(d, w)
    ensures InLine(List(c, d), v + [Sym(';')] + w)
  {
    var u := v + [Sym(';')] + w;
    assert u[..|v|] == v && u[|v| + 1..] == w && u[|v|] == Sym(';');
    hide InBacks;
  }

  lemma BackIn(c: Cmd<string>, v: seq<Lexeme>)
    requires InBacks(c, v)
    ensures InBacks(Back(c), v + [Sym('&')])
  {
    var u := v + [Sym('&')];
    assert u[..|u| - 1] == v;
    hide InPipe;
  }

  /** On from a command that is in the lexemes v. */
  lemma {:induction false} BacksIn(s: string, c: Cmd<Span>, i: nat, v: seq<Lexeme>) returns (u: seq<Lexeme>)
    requires Line(s) && i <= |s| && InBacks(Words(s, c), v)
    ensures var r := ParseBacks(s, c, i); InBacks(Words(s, r.cmd), v + u) && Lexemes(s, i) == u + Lexemes(s, r.next)
    decreases |s| - i
  {
    hide GetToken, Skip, Peek, Line, InBacks, Lexemes;
    First(s, i);
    if Peek(s, i, "&") {
      Taken(s, i, "&");
      BackIn(Words(s, c), v);
      var w := BacksIn(s, Back(c), GetToken(s, Skip(s, i)).next, v + [Sym('&')]);
      u := [Sym('&')] + w;
      assert v + [Sym('&')] + w == v + u;
    } else {
      u := [];
      assert v + u == v;
    }
  }

  lemma {:induction false} LineIn(s: string, i: nat) returns (u: seq<Lexeme>)
    requires Line(s) && i <= |s| && ParseLine(s, i).Ok?
    ensures var r := ParseLine(s, i); InLine(Words(s, r.cmd), u) && Lexemes(s, i) == u + Lexemes(s, r.next)
    decreases |s| - i, 3
  {
    hide GetToken, Skip, Peek, Line, ParsePipe, ParseBacks, InPipe, InBacks, InLine, Lexemes;
    var p := ParsePipe(s, i);
    var v := PipeIn(s, i);
    PipeOneIn(Words(s, p.cmd), v);
    var b := ParseBacks(s, p.cmd, p.next);
    var v' := BacksIn(s, p.cmd, p.next, v);
    First(s, b.next);
    if Peek(s, b.next, ";") {
      Taken(s, b.next, ";");
      var n := GetToken(s, Skip(s, b.next)).next;
      var w := LineIn(s, n);
      LineTwoIn(Words(s, b.cmd), Words(s, ParseLine(s, n).cmd), v + v', w);
      u := v + v' + [Sym(';')] + w;
    } else {
      PipeOneIn(Words(s, b.cmd), v + v');
      u := v + v';
    }
  }

  /* What is in the grammar, the parser accepts */

  /** What parseexec leaves. */
  predicate Ends(u: seq<Lexeme>) {
    u == [] || Leads(u, "|)&;")
  }

  /** What parsepipe leaves, and what parseline leaves. */
  predicate PipeEnds(u: seq<Lexeme>) {
    u == [] || Leads(u, ")&;")
  }

  predicate LineEnds(u: seq<Lexeme>) {
    u == [] || Leads(u, ")")
  }

  /** A peek that says yes, and the gettoken after it, take the first lexeme off. */
  lemma Consumed(s: string, i: nat, toks: string, x: Lexeme, v: seq<Lexeme>)
    requires Line(s) && i <= |s| && Peek(s, i, toks) && forall c :: c in toks ==> IsSymbol(c)
    requires Lexemes(s, i) == [x] + v
    ensures var t := GetToken(s, Skip(s, i)); t.next <= |s| && Lexemes(s, t.next) == v && x == Sym(t.kind)
  {
    hide Lexemes, GetToken, Peek, IsSymbol;
    Taken(s, i, toks);
    assert ([x] + v)[1..] == v;
  }

  lemma WordTaken(s: string, i: nat, w: string, v: seq<Lexeme>)
    requires Line(s) && i <= |s| && Lexemes(s, i) == [Word(w)] + v
    ensures var t := GetToken(s, i); t.kind == 'a' && Text(s, t.span) == w && Lexemes(s, t.next) == v
  {
    hide GetToken, Text;
    assert ([Word(w)] + v)[1..] == v;
  }

  lemma Split(u: seq<Lexeme>, n: nat, rest: seq<Lexeme>)
    requires n < |u|
    ensures u + rest == u[..n] + ([u[n]] + (u[n + 1..] + rest))
    ensures 1 <= n ==> u + rest == [u[0]] + (u[1..n] + ([u[n]] + (u[n + 1..] + rest)))
  {
  }

  lemma Rest(u: seq<Lexeme>, rest: seq<Lexeme>, v: seq<Lexeme>)
    requires u != [] && |u + rest| == 1 + |v| && (u + rest)[1..] == v
    ensures v == u[1..] + rest
  {
  }

  lemma NoRedirsHere(s: string, list: seq<Redirection<Span>>, i: nat, u: seq<Lexeme>, rest: seq<Lexeme>)
    requires Line(s) && i <= |s| && Lexemes(s, i) == u + rest && (u == [] || u[0].Word?) && !Leads(rest, "<>")
    ensures ParseRedirs(s, list, i) == Redirs(list, Skip(s, i)) && Lexemes(s, Skip(s, i)) == u + rest
  {
    hide GetToken, Skip, Peek, Line, Lexemes;
    First(s, i);
    PeekLeads(s, i, "<>");
  }

  lemma RedirHere(s: string, i: nat, u: seq<Lexeme>)
    requires Line(s) && i <= |s| && Lexemes(s, i) == u && u != [] && IsRedir(u[0])
    ensures Peek(s, i, "<>") && i < GetToken(s, Skip(s, i)).next <= |s|
  {
    hide GetToken, Skip, Peek, Line, Lexemes;
    PeekLeads(s, i, "<>");
    Taken(s, i, "<>");
  }

  lemma {:induction false} RedirsFrom(s: string, list: seq<Redirection<Span>>, i: nat, argv: seq<string>,
      l: seq<Redirection<string>>, u: seq<Lexeme>, rest: seq<Lexeme>)
      returns (l1: seq<Redirection<Span>>, l2: seq<Redirection<string>>, u2: seq<Lexeme>, j: nat)
    requires Line(s) && i <= |s| && Lexemes(s, i) == u + rest && Plain(argv, l, u) && !Leads(rest, "<>")
    ensures j <= |s| && ParseRedirs(s, list, i) == Redirs(list + l1, j) && Lexemes(s, j) == u2 + rest
    ensures l == RedirWords(s, l1) + l2 && Plain(argv, l2, u2) && |u2| <= |u| && (u2 == [] || u2[0].Word?)
    decreases |u|
  {
    hide GetToken, Skip, Peek, Line, Plain, RedirWords, Text, IsRedir, Leads, Lexemes, Lex, Words;
    if u == [] || u[0].Word? {
      l1, l2, u2, j := [], l, u, Skip(s, i);
      NoRedirsHere(s, list, i, u, rest);
      RedirWordsNone(s);
      assert list + [] == list && [] + l == l;
    } else {
      FirstIsRedir(argv, l, u);
      RedirHere(s, i, u + rest);
      assert u + rest == [u[0]] + ([u[1]] + (u[2..] + rest));
      Consumed(s, i, "<>", u[0], [u[1]] + (u[2..] + rest));
      var t := GetToken(s, Skip(s, i));
      WordTaken(s, t.next, u[1].w, u[2..] + rest);
      var f := GetToken(s, t.next);
      var x := Redirection(f.span, t.kind != '<');
      var m;
      m, l2, u2, j := RedirsFrom(s, list + [x], f.next, argv, l[1..], u[2..], rest);
      l1 := [x] + m;
      RedirWordsThen(s, [x], m);
      assert list + [x] + m == list + l1;
      assert l == [Redirection(u[1].w, x.out)] + (RedirWords(s, m) + l2);
      assert l == RedirWords(s, l1) + l2;
    }
  }

  lemma {:induction false} ArgsFrom(s: string, argv0: seq<Span>, list: seq<Redirection<Span>>, i: nat,
      argv: seq<string>, l: seq<Redirection<string>>, u: seq<Lexeme>, rest: seq<Lexeme>)
      returns (a: seq<Span>, r: seq<Redirection<Span>>, j: nat)
    requires Line(s) && i <= |s| && Lexemes(s, i) == u + rest && Plain(argv, l, u) && Ends(rest)
    requires |argv0| + |argv| < MAXARGS && (u == [] || u[0].Word?)
    ensures j <= |s| && ParseArgs(s, argv0, list, i) == Ok(Wrap(Exec(argv0 + a), list + r), j) && Lexemes(s, j) == rest
    ensures Texts(s, a) == argv && RedirWords(s, r) == l
    decreases |u|
  {
    hide GetToken, Skip, Peek, Line, Plain, RedirWords, Text, Texts, ParseRedirs, Wrap, Words;
    First(s, i);
    PeekLeads(s, i, "|)&;");
    var t := GetToken(s, Skip(s, i));
    hide Lexemes;
    if u == [] {
      NothingThere(argv, l);
      RedirWordsNone(s);
      TextsThen(s, [], []);
      a, r, j := [], [], if Peek(s, i, "|)&;") then Skip(s, i) else t.next;
      assert argv0 + a == argv0 && list + r == list;
    } else {
      FirstIsWord(argv, l, u);
      Rest(u, rest, Lexemes(s, t.next));
      var l1, l2, u2, k := RedirsFrom(s, list, t.next, argv[1..], l, u[1..], rest);
      var b, m;
      b, m, j := ArgsFrom(s, argv0 + [t.span], list + l1, k, argv[1..], l2, u2, rest);
      a, r := [t.span] + b, l1 + m;
      assert argv0 + [t.span] + b == argv0 + a && list + l1 + m == list + r;
      TextsThen(s, [t.span], b);
      RedirWordsThen(s, l1, m);
    }
  }

  lemma {:induction false} ExecFrom(s: string, i: nat, c: Cmd<string>, u: seq<Lexeme>, rest: seq<Lexeme>)
      returns (r: Cmd<Span>, j: nat)
    requires Line(s) && i <= |s| && Lexemes(s, i) == u + rest && InExec(c, u) && Ends(rest)
    ensures j <= |s| && ParseExec(s, i) == Ok(r, j) && Words(s, r) == c && Lexemes(s, j) == rest
    decreases |u|, 1
  {
    hide GetToken, Skip, Peek, Line, Plain, Words, ParseExec, Block, Lexemes;
    if argv, l :| |argv| < MAXARGS && Plain(argv, l, u) && c == Wrap(Exec(argv), l) {
      r, j := PlainFrom(s, i, argv, l, u, rest);
    } else {
      var b, l, n: nat :| Block(c, b, l, u, n);
      r, j := BlockFrom(s, i, c, b, l, u, n, rest);
    }
  }

  lemma PlainFrom(s: string, i: nat, argv: seq<string>, l: seq<Redirection<string>>, u: seq<Lexeme>, rest: seq<Lexeme>)
      returns (r: Cmd<Span>, j: nat)
    requires Line(s) && i <= |s| && Lexemes(s, i) == u + rest && |argv| < MAXARGS && Plain(argv, l, u) && Ends(rest)
    ensures j <= |s| && ParseExec(s, i) == Ok(r, j) && Words(s, r) == Wrap(Exec(argv), l) && Lexemes(s, j) == rest
  {
    hide GetToken, Skip, Peek, Line, Plain, RedirWords, ParseRedirs, ParseArgs, ParseBlock, Wrap, Words;
    First(s, i);
    PeekLeads(s, i, "(");
    if u != [] && !u[0].Word? {
      FirstIsRedir(argv, l, u);
    }
    assert !Peek(s, i, "(");
    var l1, l2, u2, k := RedirsFrom(s, [], Skip(s, i), argv, l, u, rest);
    assert [] + l1 == l1;
    var a, m;
    a, m, j := ArgsFrom(s, [], l1, k, argv, l2, u2, rest);
    assert [] + a == a;
    r := Wrap(Exec(a), l1 + m);
    WordsExec(s, a);
    WordsWrap(s, Exec(a), l1 + m);
    RedirWordsThen(s, l1, m);
  }

  lemma {:induction false} BlockFrom(s: string, i: nat, c: Cmd<string>, b: Cmd<string>, l: seq<Redirection<string>>,
      u: seq<Lexeme>, n: nat, rest: seq<Lexeme>) returns (r: Cmd<Span>, j: nat)
    requires Line(s) && i <= |s| && Lexemes(s, i) == u + rest && Block(c, b, l, u, n) && Ends(rest)
    ensures j <= |s| && ParseExec(s, i) == Ok(r, j) && Words(s, r) == c && Lexemes(s, j) == rest
    decreases |u|, 0
  {
    hide GetToken, Skip, Peek, Line, Plain, InLine, RedirWords, ParseRedirs, ParseArgs, ParseLine, Wrap, Words, Lexemes;
    First(s, i);
    PeekLeads(s, i, "(");
    PeekSkipped(s, i, "(");
    var w := u[n + 1..];
    var rest' := [Sym(')')] + (w + rest);
    Split(u, n, rest);
    Taken(s, Skip(s, i), "(");
    Consumed(s, Skip(s, i), "(", Sym('('), u[1..n] + rest');
    var t := GetToken(s, Skip(s, Skip(s, i)));
    var q, k := LineFrom(s, t.next, b, u[1..n], rest');
    PeekLeads(s, k, ")");
    Consumed(s, k, ")", Sym(')'), w + rest);
    var m := GetToken(s, Skip(s, k)).next;
    var l1, l2, u2, o := RedirsFrom(s, [], m, [], l, w, rest);
    if u2 != [] {
      FirstIsWord([], l2, u2);
    }
    NothingThere([], l2);
    assert [] + l1 == l1 && RedirWords(s, l1) + [] == RedirWords(s, l1) && [] + rest == rest;
    r, j := Wrap(q, l1), o;
    WordsWrap(s, q, l1);
  }

  lemma {:induction false} PipeFrom(s: string, i: nat, c: Cmd<string>, u: seq<Lexeme>, rest: seq<Lexeme>)
      returns (r: Cmd<Span>, j: nat)
    requires Line(s) && i <= |s| && Lexemes(s, i) == u + rest && InPipe(c, u) && PipeEnds(rest)
    ensures j <= |s| && ParsePipe(s, i) == Ok(r, j) && Words(s, r) == c && Lexemes(s, j) == rest
    decreases |u|, 2
  {
    hide GetToken, Skip, Peek, Line, InExec, ParseExec, Lexemes;
    if InExec(c, u) {
      var k;
      r, k := ExecFrom(s, i, c, u, rest);
      PeekLeads(s, k, "|");
      First(s, k);
      j := Skip(s, k);
    } else {
      var n :| 0 <= n < |u| && u[n] == Sym('|') && InExec(c.left, u[..n]) && InPipe(c.right, u[n + 1..]);
      Split(u, n, rest);
      var left, k := ExecFrom(s, i, c.left, u[..n], [Sym('|')] + (u[n + 1..] + rest));
      PeekLeads(s, k, "|");
      Consumed(s, k, "|", Sym('|'), u[n + 1..] + rest);
      var right;
      right, j := PipeFrom(s, GetToken(s, Skip(s, k)).next, c.right, u[n + 1..], rest);
      r := Pipe(left, right);
    }
  }

  /** parseline up to its peek at ';': it comes to where the command c has been read. */
  lemma {:induction false} BacksFrom(s: string, i: nat, c: Cmd<string>, u: seq<Lexeme>, rest: seq<Lexeme>)
      returns (p: Cmd<Span>, k: nat, r: Cmd<Span>, j: nat)
    requires Line(s) && i <= |s| && Lexemes(s, i) == u + rest && InBacks(c, u) && PipeEnds(rest)
    ensures k <= |s| && j <= |s| && ParsePipe(s, i) == Ok(p, k) && ParseBacks(s, p, k) == ParseBacks(s, r, j)
    ensures Words(s, r) == c && Lexemes(s, j) == rest
    decreases |u|, 3
  {
    hide GetToken, Skip, Peek, Line, InPipe, ParsePipe, Lexemes;
    if InPipe(c, u) {
      p, k := PipeFrom(s, i, c, u, rest);
      r, j := p, k;
    } else {
      var n := |u| - 1;
      Split(u, n, rest);
      assert u[n + 1..] + rest == rest;
      var x, m;
      p, k, x, m := BacksFrom(s, i, c.cmd, u[..n], [Sym('&')] + rest);
      PeekLeads(s, m, "&");
      Consumed(s, m, "&", Sym('&'), rest);
      r, j := Back(x), GetToken(s, Skip(s, m)).next;
    }
  }

  lemma BacksEnded(s: string, c: Cmd<Span>, i: nat)
    requires Line(s) && i <= |s| && !Leads(Lexemes(s, i), "&")
    ensures ParseBacks(s, c, i) == Ok(c, Skip(s, i)) && Lexemes(s, Skip(s, i)) == Lexemes(s, i)
  {
    hide GetToken, Skip, Peek, Line, Lexemes;
    PeekLeads(s, i, "&");
    First(s, i);
  }

  lemma {:induction false} LineFrom(s: string, i: nat, c: Cmd<string>, u: seq<Lexeme>, rest: seq<Lexeme>)
      returns (r: Cmd<Span>, j: nat)
    requires Line(s) && i <= |s| && Lexemes(s, i) == u + rest && InLine(c, u) && LineEnds(rest)
    ensures j <= |s| && ParseLine(s, i) == Ok(r, j) && Words(s, r) == c && Lexemes(s, j) == rest
    decreases |u|, 4
  {
    hide GetToken, Skip, Peek, Line, InBacks, ParsePipe, ParseBacks, Lexemes;
    if InBacks(c, u) {
      var p, k, m;
      p, k, r, m := BacksFrom(s, i, c, u, rest);
      BacksEnded(s, r, m);
      PeekLeads(s, Skip(s, m), ";");
      First(s, Skip(s, m));
      j := Skip(s, Skip(s, m));
    } else {
      var n :| 0 <= n < |u| && u[n] == Sym(';') && InBacks(c.left, u[..n]) && InLine(c.right, u[n + 1..]);
      var rest' := [Sym(';')] + (u[n + 1..] + rest);
      Split(u, n, rest);
      var p, k, left, m := BacksFrom(s, i, c.left, u[..n], rest');
      BacksEnded(s, left, m);
      PeekLeads(s, Skip(s, m), ";");
      Consumed(s, Skip(s, m), ";", Sym(';'), u[n + 1..] + rest);
      var t := GetToken(s, Skip(s, Skip(s, m)));
      var right;
      right, j := LineFrom(s, t.next, c.right, u[n + 1..], rest);
      r := List(left, right);
    }
  }

  /* The parser and the grammar */

  /** parsecmd gives a line the tree c if and only if the grammar does. */
  lemma ParseIff(s: string, c: Cmd<string>)
    requires Line(s)
    ensures ParseCmd(s).Ok? && Words(s, ParseCmd(s).cmd) == c <==> InLine(c, Lexemes(s, 0))
  {
    hide GetToken, Line, InLine, ParseLine, Words;
    if ParseCmd(s).Ok? {
      var p := ParseLine(s, 0);
      var u := LineIn(s, 0);
      First(s, p.next);
      AtEnd(s);
      assert u + [] == u;
    }
    if InLine(c, Lexemes(s, 0)) {
      assert Lexemes(s, 0) + [] == Lexemes(s, 0);
      var r, j := LineFrom(s, 0, c, Lexemes(s, 0), []);
      First(s, j);
      NoneLeft(s, Skip(s, j));
    }
  }

  lemma AtEnd(s: string)
    requires Line(s)
    ensures Lexemes(s, |s|) == []
  {
  }

  lemma NoneLeft(s: string, i: nat)
    requires Line(s) && i <= |s| && Lexemes(s, i) == [] && Skip(s, i) == i
    ensures i == |s|
  {
  }

  /** It panics on all other lines. */
  lemma RejectIff(s: string)
    requires Line(s)
    ensures ParseCmd(s).Bad? <==> forall c: Cmd<string> :: !InLine(c, Lexemes(s, 0))
  {
    hide InLine, ParseCmd;
    forall c: Cmd<string> | InLine(c, Lexemes(s, 0))
      ensures ParseCmd(s).Ok?
    {
      ParseIff(s, c);
    }
    if ParseCmd(s).Ok? {
      ParseIff(s, Words(s, ParseCmd(s).cmd));
    }
  }

  /** The grammar gives no line two trees. */
  lemma OneTree(s: string, c: Cmd<string>, d: Cmd<string>)
    requires Line(s) && InLine(c, Lexemes(s, 0)) && InLine(d, Lexemes(s, 0))
    ensures c == d
  {
    ParseIff(s, c);
    ParseIff(s, d);
  }
}
