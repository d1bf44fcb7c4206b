/** The parser of the shell as it runs (user/sh.c): one line buffer, one cursor that all the routines move. */
module ShellParser {
  import opened Shell
  import opened ShellRoundTrip

  /** What a routine that may call panic comes to. */
  datatype Result<T> = Done(value: T) | Panic(why: Failure)

  lemma SymbolsAre(c: char)
    ensures IsSymbol(c) <==> c == '<' || c == '|' || c == '>' || c == '&' || c == ';' || c == '(' || c == ')'
  {
  }

  lemma LineChars(s: string)
    requires Line(s)
    ensures forall i :: 0 <= i < |s| ==> s[i] != NUL
  {
  }

  /** A pointer into the line. */
  datatype Pointer = Null | To(at: nat)

  function Place(p: Pointer): nat {
    if p.To? then p.at else 0
  }

  /** The words of argv and eargv. */
  function Spans(argv: seq<Pointer>, eargv: seq<Pointer>): (r: seq<Span>)
    requires |argv| == |eargv|
    ensures |r| == |argv|
  {
    seq(|argv|, i requires 0 <= i < |argv| => Span(Place(argv[i]), Place(eargv[i])))
  }

  lemma SpansMore(argv: seq<Pointer>, eargv: seq<Pointer>, w: Span)
    requires |argv| == |eargv|
    ensures Spans(argv + [To(w.q)], eargv + [To(w.eq)]) == Spans(argv, eargv) + [w] && Spans([], []) == []
  {
  }

  lemma SkipTwice(s: string, i: nat, toks: string)
    requires i <= |s|
    ensures Skip(s, Skip(s, i)) == Skip(s, i) && Shell.Peek(s, Skip(s, i), toks) == Shell.Peek(s, i, toks)
  {
  }

  /** Leading white space makes no difference. */
  lemma ArgsSkip(s: string, argv: seq<Span>, l: seq<Redirection<Span>>, i: nat)
    requires Line(s) && i <= |s|
    ensures ParseArgs(s, argv, l, i) == ParseArgs(s, argv, l, Skip(s, i))
  {
    hide Shell.GetToken, Skip, Shell.Peek, ParseRedirs, Wrap, Line;
    SkipTwice(s, i, "|)&;");
  }

  /** One turn of parseexec's loop, with the cursor past the white space. */
  lemma ArgsTurn(s: string, argv: seq<Span>, l: seq<Redirection<Span>>, i: nat)
    requires Line(s) && i <= |s| && Skip(s, i) == i
    ensures ParseArgs(s, argv, l, i) ==
            if Shell.Peek(s, i, "|)&;") then Ok(Wrap(Exec(argv), l), i)
            else
              var t := GetToken(s, i);
              if t.kind == NUL then Ok(Wrap(Exec(argv), l), t.next)
              else if t.kind != 'a' then Bad(BadToken)
              else if |argv| + 1 >= MAXARGS then Bad(TooManyArgs)
              else
                match ParseRedirs(s, l, t.next)
                case NoFile => Bad(MissingFile)
                case Redirs(l', j) => ParseArgs(s, argv + [t.span], l', j)
  {
    hide Shell.GetToken, Skip, Shell.Peek, ParseRedirs, Wrap, Line;
  }

  /** The places where words of the tree end. */
  function Ends(c: Cmd<Span>): set<nat> {
    match c
    case Exec(argv) => set w | w in argv :: w.eq
    case Redir(x, file, out) => Ends(x) + {file.eq}
    case Pipe(l, r) => Ends(l) + Ends(r)
    case List(l, r) => Ends(l) + Ends(r)
    case Back(x) => Ends(x)
  }

  /** The C string at q in the buffer b is the word that stood there in the line a. */
  ghost predicate Cut(a: seq<char>, b: seq<char>, w: Span) {
    w.q <= w.eq < |b| == |a| && b[w.eq] == NUL && b[w.q..w.eq] == a[w.q..w.eq] && NUL !in b[w.q..w.eq]
  }

  ghost predicate WordsCut(a: seq<char>, b: seq<char>, c: Cmd<Span>) {
    match c
    case Exec(argv) => forall i :: 0 <= i < |argv| ==> Cut(a, b, argv[i])
    case Redir(x, file, out) => WordsCut(a, b, x) && Cut(a, b, file)
    case Pipe(l, r) => WordsCut(a, b, l) && WordsCut(a, b, r)
    case List(l, r) => WordsCut(a, b, l) && WordsCut(a, b, r)
    case Back(x) => WordsCut(a, b, x)
  }

  /** Ends of words, which are not inside any word. */
  ghost predicate Outside(s: string, ends: set<nat>) {
    forall e :: e in ends ==> e <= |s| && (e < |s| ==> !InWord(s[e]))
  }

  lemma {:induction false} EndsOutside(s: string, c: Cmd<Span>)
    requires GoodAt(s, c)
    ensures Outside(s, Ends(c))
  {
    match c
    case Exec(argv) =>
    case Redir(x, file, out) => EndsOutside(s, x);
    case Pipe(l, r) => EndsOutside(s, l); EndsOutside(s, r);
    case List(l, r) => EndsOutside(s, l); EndsOutside(s, r);
    case Back(x) => EndsOutside(s, x);
  }

  ghost predicate InBuffer(ends: set<nat>, n: nat) {
    forall e :: e in ends ==> e < n
  }

  /** The buffer with NULs stored at the ends. */
  ghost predicate Stored(a: seq<char>, b: seq<char>, ends: set<nat>) {
    |a| == |b| && forall k :: 0 <= k < |a| ==> b[k] == if k in ends then NUL else a[k]
  }

  /** Storing NULs at the ends of all words spoils none. */
  lemma WordCut(a: seq<char>, b: seq<char>, es: nat, w: Span, ends: set<nat>)
    requires es < |a| && Line(a[..es]) && WordAt(a[..es], w) && Outside(a[..es], ends) && w.eq in ends
             && Stored(a, b, ends)
    ensures Cut(a, b, w)
  {
    var s := a[..es];
    forall k | w.q <= k < w.eq
      ensures b[k] == a[k] && a[k] != NUL
    {
      assert s[k] == a[k] && InWord(s[k]);
    }
  }

  lemma {:induction false} CutsApart(a: seq<char>, b: seq<char>, es: nat, c: Cmd<Span>, ends: set<nat>)
    requires es < |a| && Line(a[..es]) && GoodAt(a[..es], c) && Outside(a[..es], ends) && Ends(c) <= ends
             && Stored(a, b, ends)
    ensures WordsCut(a, b, c)
  {
    match c
    case Exec(argv) =>
      forall i | 0 <= i < |argv|
        ensures Cut(a, b, argv[i])
      {
        assert argv[i] in argv && argv[i].eq in Ends(c);
        WordCut(a, b, es, argv[i], ends);
      }
    case Redir(x, file, out) =>
      CutsApart(a, b, es, x, ends);
      WordCut(a, b, es, file, ends);
    case Pipe(l, r) =>
      CutsApart(a, b, es, l, ends);
      CutsApart(a, b, es, r, ends);
    case List(l, r) =>
      CutsApart(a, b, es, l, ends);
      CutsApart(a, b, es, r, ends);
    case Back(x) =>
      CutsApart(a, b, es, x, ends);
  }

  /** struct execcmd while it is being filled. argv always has room for the NULL at its end. */
  class ExecCmd {
    const argv: array<Pointer>
    const eargv: array<Pointer>
    var argc: nat

    ghost predicate Valid()
      reads this, argv, eargv
    {
      && argv.Length == eargv.Length == MAXARGS && argv != eargv && argc < MAXARGS
      && forall k :: 0 <= k < argc ==> argv[k].To? && eargv[k].To?
    }

    function Words(): seq<Span>
      reads this, argv, eargv
      requires Valid()
    {
      Spans(argv[..argc], eargv[..argc])
    }

    constructor ()
      ensures Valid() && Words() == [] && fresh(argv) && fresh(eargv)
    {
      argv := new Pointer[MAXARGS](_ => Null);
      eargv := new Pointer[MAXARGS](_ => Null);
      argc := 0;
    }

    /** One word more; false when there are too many. */
    method Add(w: Span) returns (ok: bool)
      requires Valid()
      modifies this`argc, argv, eargv
      ensures ok <==> |old(Words())| + 1 < MAXARGS
      ensures ok ==> Valid() && Words() == old(Words()) + [w]
    {
      SpansMore(argv[..argc], eargv[..argc], w);
      argv[argc], eargv[argc] := To(w.q), To(w.eq);
      argc := argc + 1;
      assert argv[..argc] == old(argv[..argc]) + [To(w.q)];
      assert eargv[..argc] == old(eargv[..argc]) + [To(w.eq)];
      return argc < MAXARGS;
    }

    /** Whoever goes through argv up to the first NULL, as nulterminate and exec do, meets the words and no more. */
    method End() returns (words: seq<Span>)
      requires Valid()
      modifies argv, eargv
      ensures Valid() && words == Words() == old(Words())
      ensures argv[argc].Null? && eargv[argc].Null? && forall k :: 0 <= k < argc ==> !argv[k].Null?
    {
      argv[argc], eargv[argc] := Null, Null;
      assert argv[..argc] == old(argv[..argc]) && eargv[..argc] == old(eargv[..argc]);
      return Words();
    }
  }

  class Parser {
    const buf: array<char>
    const es: nat        // the end of the line, where its NUL is
    var ps: nat          // the cursor

    ghost function Text(): string
      reads this, buf
      requires es < buf.Length
    {
      buf[..es]
    }

    ghost predicate Valid()
      reads this, buf
    {
      es < buf.Length && buf[es] == NUL && Line(Text()) && ps <= es
    }

    /** parsecmd's es = s + strlen(s). */
    constructor (line: array<char>)
      requires exists k :: 0 <= k < line.Length && line[k] == NUL
      ensures Valid() && ps == 0 && buf == line
    {
      var n := 0;
      while line[n] != NUL
        invariant 0 <= n < line.Length && NUL !in line[..n]
        decreases line.Length - n
      {
        n := n + 1;
      }
      buf := line;
      es := n;
      ps := 0;
    }

    /** The loops over white space. */
    method SkipFrom(i: nat) returns (s: nat)
      requires Valid() && i <= es
      ensures s == Skip(Text(), i)
    {
      s := i;
      while s < es && IsSpace(buf[s])
        invariant i <= s <= es && Skip(Text(), i) == Skip(Text(), s)
      {
        s := s + 1;
      }
    }

    method WordFrom(i: nat) returns (s: nat)
      requires Valid() && i <= es
      ensures s == WordEnd(Text(), i)
    {
      s := i;
      while s < es && !IsSpace(buf[s]) && !IsSymbol(buf[s])
        invariant i <= s <= es && WordEnd(Text(), i) == WordEnd(Text(), s)
      {
        s := s + 1;
      }
    }

    method GetToken() returns (ret: char, w: Span)
      requires Valid()
      modifies this`ps
      ensures Valid() && Token(ret, w, ps) == Shell.GetToken(Text(), old(ps))
    {
      hide Skip, WordEnd, IsSpace, IsSymbol, Line;
      var s := SkipFrom(ps);
      var q := s;
      ret := buf[s];
      LineChars(Text());
      SymbolsAre(ret);
      if ret == NUL {
      } else if ret == '|' || ret == '(' || ret == ')' || ret == ';' || ret == '&' || ret == '<' {
        s := s + 1;
      } else if ret == '>' {
        s := s + 1;
        if buf[s] == '>' {
          ret := '+';
          s := s + 1;
        }
      } else {
        ret := 'a';
        s := WordFrom(s);
      }
      w := Span(q, s);
      ps := SkipFrom(s);
    }

    method Peek(toks: string) returns (yes: bool)
      requires Valid()
      modifies this`ps
      ensures Valid() && ps == Skip(Text(), old(ps)) && yes == Shell.Peek(Text(), old(ps), toks)
      ensures Skip(Text(), ps) == ps && yes == Shell.Peek(Text(), ps, toks)
    {
      SkipTwice(Text(), ps, toks);
      ps := SkipFrom(ps);
      yes := buf[ps] != NUL && buf[ps] in toks;
    }
  
    method ParseRedirs(l0: seq<Redirection<Span>>) returns (r: Result<seq<Redirection<Span>>>)
      requires Valid()
      modifies this`ps
      ensures Valid() && old(ps) <= ps
      ensures match r
              case Done(l) => Shell.ParseRedirs(Text(), l0, old(ps)) == Redirs(l, ps)
              case Panic(why) => why == MissingFile && Shell.ParseRedirs(Text(), l0, old(ps)).NoFile?
    {
      var l := l0;
      var more := Peek("<>");
      while more
        invariant Valid() && old(ps) <= ps && Shell.ParseRedirs(Text(), l0, old(ps)) == Shell.ParseRedirs(Text(), l, ps)
        invariant Skip(Text(), ps) == ps && more == Shell.Peek(Text(), ps, "<>")
        decreases es - ps, more
      {
        var tok, _ := GetToken();
        var kind, w := GetToken();
        if kind != 'a' {
          return Panic(MissingFile);
        }
        l := l + [Redirection(w, tok != '<')];
        more := Peek("<>");
      }
      return Done(l);
    }
  
    method ParseExec() returns (r: Result<Cmd<Span>>)
      requires Valid()
      modifies this`ps
      ensures Valid() && Agrees(r, Shell.ParseExec(Text(), old(ps)), old(ps))
      decreases es - ps, 1
    {
      var block := Peek("(");
      if block {
        r := ParseBlock();
        return;
      }
      var redirs := ParseRedirs([]);
      if redirs.Panic? {
        return Panic(MissingFile);
      }
      r := ParseArgs(redirs.value);
    }

    /** The loop of parseexec. */
    method ParseArgs(l0: seq<Redirection<Span>>) returns (r: Result<Cmd<Span>>)
      requires Valid()
      modifies this`ps
      ensures Valid() && Agrees(r, Shell.ParseArgs(Text(), [], l0, old(ps)), old(ps))
    {
      hide Shell.ParseArgs, Shell.ParseRedirs, Shell.GetToken, Skip, Shell.Peek, Wrap, Line, Spans;
      var cmd := new ExecCmd();
      var l := l0;
      ArgsSkip(Text(), [], l, ps);
      var stop := Peek("|)&;");
      while !stop
        invariant Valid() && old(ps) <= ps && cmd.Valid() && fresh(cmd) && fresh(cmd.argv) && fresh(cmd.eargv)
        invariant Shell.ParseArgs(Text(), [], l0, old(ps)) == Shell.ParseArgs(Text(), cmd.Words(), l, ps)
        invariant Skip(Text(), ps) == ps && stop == Shell.Peek(Text(), ps, "|)&;")
        decreases es - ps, !stop
      {
        ArgsTurn(Text(), cmd.Words(), l, ps);
        var tok, w := GetToken();
        if tok == NUL {
          break;
        }
        if tok != 'a' {
          return Panic(BadToken);
        }
        var room := cmd.Add(w);
        if !room {
          return Panic(TooManyArgs);
        }
        var redirs := ParseRedirs(l);
        if redirs.Panic? {
          return Panic(MissingFile);
        }
        l := redirs.value;
        ArgsSkip(Text(), cmd.Words(), l, ps);
        stop := Peek("|)&;");
      }
      var argv := cmd.End();
      if stop {
        ArgsTurn(Text(), argv, l, ps);
      }
      return Done(Wrap(Exec(argv), l));
    }

    /** The routine returned what the grammar says, with the cursor after it. */
    ghost predicate Agrees(r: Result<Cmd<Span>>, p: Parsed, from: nat)
      reads this
    {
      && from <= ps
      && match r
         case Done(c) => p == Ok(c, ps)
         case Panic(why) => p == Bad(why)
    }

    method ParseBlock() returns (r: Result<Cmd<Span>>)
      requires Valid() && Skip(Text(), ps) == ps && Shell.Peek(Text(), ps, "(")
      modifies this`ps
      ensures Valid() && Agrees(r, Shell.ParseBlock(Text(), old(ps)), old(ps))
      decreases es - ps, 0
    {
      var _, _ := GetToken();
      r := ParseLine();
      if r.Panic? {
        return;
      }
      var close := Peek(")");
      if !close {
        return Panic(MissingParen);
      }
      var _, _ := GetToken();
      var l := ParseRedirs([]);
      if l.Panic? {
        return Panic(MissingFile);
      }
      return Done(Wrap(r.value, l.value));
    }

    method ParseLine() returns (r: Result<Cmd<Span>>)
      requires Valid()
      modifies this`ps
      ensures Valid() && Agrees(r, Shell.ParseLine(Text(), old(ps)), old(ps))
      decreases es - ps, 3
    {
      r := ParsePipe();
      if r.Panic? {
        return;
      }
      var cmd := r.value;
      ghost var b := ParseBacks(Text(), cmd, ps);
      var more := Peek("&");
      while more
        invariant Valid() && old(ps) <= ps && ParseBacks(Text(), cmd, ps) == b
        invariant Skip(Text(), ps) == ps && more == Shell.Peek(Text(), ps, "&")
        decreases es - ps, more
      {
        var _, _ := GetToken();
        cmd := Back(cmd);
        more := Peek("&");
      }
      var list := Peek(";");
      if list {
        var _, _ := GetToken();
        r := ParseLine();
        return if r.Panic? then r else Done(List(cmd, r.value));
      }
      return Done(cmd);
    }

    method ParsePipe() returns (r: Result<Cmd<Span>>)
      requires Valid()
      modifies this`ps
      ensures Valid() && Agrees(r, Shell.ParsePipe(Text(), old(ps)), old(ps))
      decreases es - ps, 2
    {
      r := ParseExec();
      if r.Panic? {
        return;
      }
      var left := r.value;
      var more := Peek("|");
      if more {
        var _, _ := GetToken();
        r := ParsePipe();
        return if r.Panic? then r else Done(Pipe(left, r.value));
      }
    }
  
    /** parsecmd, with the line's words cut out at the end. */
    method ParseCmd() returns (r: Result<Cmd<Span>>)
      requires Valid() && ps == 0
      modifies this`ps, buf
      ensures match r
              case Panic(why) => Shell.ParseCmd(old(Text())) == Bad(why)
              case Done(c) => Shell.ParseCmd(old(Text())) == Ok(c, es) && WordsCut(old(buf[..]), buf[..], c)
    {
      r := ParseLine();
      if r.Panic? {
        return;
      }
      ghost var j := ps;
      var _ := Peek("");
      if ps != es {
        return Panic(Leftovers);
      }
      LineGood(Text(), 0);
      EndsOutside(Text(), r.value);
      Nulterminate(r.value);
      CutsApart(old(buf[..]), buf[..], es, r.value, Ends(r.value));
    }

    /** nulterminate. */
    method Nulterminate(c: Cmd<Span>)
      requires InBuffer(Ends(c), buf.Length)
      modifies buf
      ensures Stored(old(buf[..]), buf[..], Ends(c))
    {
      match c
      case Exec(argv) =>
        var i := 0;
        while i < |argv|
          invariant 0 <= i <= |argv|
          invariant forall k :: 0 <= k < buf.Length ==>
                    buf[k] == if (exists j :: 0 <= j < i && argv[j].eq == k) then NUL else old(buf[k])
        {
          assert argv[i] in argv && argv[i].eq in Ends(c);
          buf[argv[i].eq] := NUL;
          i := i + 1;
        }
      case Redir(x, file, out) =>
        assert Ends(c) == Ends(x) + {file.eq};
        Nulterminate(x);
        buf[file.eq] := NUL;
      case Pipe(l, r) =>
        assert Ends(c) == Ends(l) + Ends(r);
        Nulterminate(l);
        Nulterminate(r);
      case List(l, r) =>
        assert Ends(c) == Ends(l) + Ends(r);
        Nulterminate(l);
        Nulterminate(r);
      case Back(x) =>
        assert Ends(c) == Ends(x);
        Nulterminate(x);
    }
  }
}
