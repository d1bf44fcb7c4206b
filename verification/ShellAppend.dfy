/**
 ">>" in a line for the shell (user/sh.c): gettoken makes one token of it, and parseredirs treats it as it treats ">".
 Said of all lines: with the second '>' replaced by a blank, a line parses to the same tree, its words in the same
 places, or fails in the same way.
 */
module ShellAppend {
  import opened Shell

  /** A pair of '>' starts at a, and is one token wherever the parser comes to it. */
  predicate Pair(s: string, a: nat) {
    Line(s) && a + 1 < |s| && s[a] == '>' && s[a + 1] == '>' && (a > 0 ==> s[a - 1] != '>')
  }

  function Blanked(s: string, a: nat): (t: string)
    requires Pair(s, a)
    ensures |t| == |s| && Line(t)
  {
    s[a + 1 := ' ']
  }

  /** A cursor that is not in the middle of the pair. */
  predicate Outside(s: string, a: nat, i: nat) {
    i <= |s| && i != a + 1
  }

  lemma {:induction false} SameSkip(s: string, a: nat, i: nat)
    requires Pair(s, a) && Outside(s, a, i)
    ensures Skip(Blanked(s, a), i) == Skip(s, i) && Outside(s, a, Skip(s, i))
    decreases |s| - i
  {
    if i < |s| && IsSpace(s[i]) {
      SameSkip(s, a, i + 1);
    }
  }

  lemma {:induction false} SameWordEnd(s: string, a: nat, i: nat)
    requires Pair(s, a) && Outside(s, a, i)
    ensures WordEnd(Blanked(s, a), i) == WordEnd(s, i) && Outside(s, a, WordEnd(s, i))
    decreases |s| - i
  {
    if i < |s| && InWord(s[i]) {
      SameWordEnd(s, a, i + 1);
    }
  }

  lemma SamePeek(s: string, a: nat, i: nat, toks: string)
    requires Pair(s, a) && Outside(s, a, i)
    ensures Peek(Blanked(s, a), i, toks) == Peek(s, i, toks)
    ensures Skip(Blanked(s, a), i) == Skip(s, i) && Outside(s, a, Skip(s, i))
  {
    SameSkip(s, a, i);
  }

  /** The tokens are the same, but for the pair, which is '+' in one line and '>' in the other. */
  lemma SameToken(s: string, a: nat, i: nat)
    requires Pair(s, a) && Outside(s, a, i)
    ensures var t, t' := GetToken(s, i), GetToken(Blanked(s, a), i);
            && t'.next == t.next && Outside(s, a, t.next)
            && (t' == t || (t.kind == '+' && t'.kind == '>'))
  {
    hide Skip, WordEnd, Whitespace, InWord;
    var q := Skip(s, i);
    SameSkip(s, a, i);
    var c := At(s, q);
    assert q != a ==> At(Blanked(s, a), q) == c;
    assert q != a && c == '>' ==> At(Blanked(s, a), q + 1) == At(s, q + 1);
    if q == a {
      SameSkip(s, a, a + 2);
      BlankSkipped(s, a);
    } else if c == '>' && At(s, q + 1) == '>' {
      SameSkip(s, a, q + 2);
    } else if c != NUL && IsSymbol(c) {
      SameSkip(s, a, q + 1);
    } else if c != NUL {
      SameWordEnd(s, a, q);
      SameSkip(s, a, WordEnd(s, q));
    }
  }

  lemma BlankSkipped(s: string, a: nat)
    requires Pair(s, a)
    ensures Skip(Blanked(s, a), a + 1) == Skip(Blanked(s, a), a + 2)
  {
  }

  /* The grammar, routine by routine */

  lemma {:induction false} SameRedirs(s: string, a: nat, list: seq<Redirection<Span>>, i: nat)
    requires Pair(s, a) && Outside(s, a, i)
    ensures ParseRedirs(Blanked(s, a), list, i) == ParseRedirs(s, list, i)
    ensures ParseRedirs(s, list, i).Redirs? ==> Outside(s, a, ParseRedirs(s, list, i).next)
    decreases |s| - i
  {
    SamePeek(s, a, i, "<>");
    var k := Skip(s, i);
    if Peek(s, i, "<>") {
      SameToken(s, a, k);
      var t := GetToken(s, k);
      SameToken(s, a, t.next);
      var f := GetToken(s, t.next);
      hide GetToken, Skip, Blanked, Pair, Line;
      if f.kind == 'a' {
        SameRedirs(s, a, list + [Redirection(f.span, t.kind != '<')], f.next);
      }
    }
  }

  lemma {:induction false} SameArgs(s: string, a: nat, argv: seq<Span>, list: seq<Redirection<Span>>, i: nat)
    requires Pair(s, a) && Outside(s, a, i)
    ensures ParseArgs(Blanked(s, a), argv, list, i) == ParseArgs(s, argv, list, i)
    ensures ParseArgs(s, argv, list, i).Ok? ==> Outside(s, a, ParseArgs(s, argv, list, i).next)
    decreases |s| - i
  {
    SamePeek(s, a, i, "|)&;");
    var k := Skip(s, i);
    SameToken(s, a, k);
    var t := GetToken(s, k);
    SameRedirs(s, a, list, t.next);
    hide GetToken, Skip, ParseRedirs, Blanked, Pair, Line;
    if !Peek(s, i, "|)&;") && t.kind == 'a' && |argv| + 1 < MAXARGS {
      var r := ParseRedirs(s, list, t.next);
      if r.Redirs? {
        SameArgs(s, a, argv + [t.span], r.list, r.next);
      }
    }
  }

  lemma {:induction false} SameExec(s: string, a: nat, i: nat)
    requires Pair(s, a) && Outside(s, a, i)
    ensures ParseExec(Blanked(s, a), i) == ParseExec(s, i)
    ensures ParseExec(s, i).Ok? ==> Outside(s, a, ParseExec(s, i).next)
    decreases |s| - i, 1
  {
    SamePeek(s, a, i, "(");
    var k := Skip(s, i);
    SameRedirs(s, a, [], k);
    if Peek(s, i, "(") {
      SameBlock(s, a, k);
    } else {
      var r := ParseRedirs(s, [], k);
      if r.Redirs? {
        SameArgs(s, a, [], r.list, r.next);
      }
    }
  }

  lemma {:induction false} SameBlock(s: string, a: nat, i: nat)
    requires Pair(s, a) && Outside(s, a, i) && Peek(s, i, "(") && Peek(Blanked(s, a), i, "(")
    ensures ParseBlock(Blanked(s, a), i) == ParseBlock(s, i)
    ensures ParseBlock(s, i).Ok? ==> Outside(s, a, ParseBlock(s, i).next)
    decreases |s| - i, 0
  {
    SameSkip(s, a, i);
    SameToken(s, a, Skip(s, i));
    var t := GetToken(s, Skip(s, i));
    SameLine(s, a, t.next);
    var l := ParseLine(s, t.next);
    if l.Ok? {
      SamePeek(s, a, l.next, ")");
      if Peek(s, l.next, ")") {
        SameToken(s, a, Skip(s, l.next));
        SameRedirs(s, a, [], GetToken(s, Skip(s, l.next)).next);
      }
    }
  }

  lemma {:induction false} SamePipe(s: string, a: nat, i: nat)
    requires Pair(s, a) && Outside(s, a, i)
    ensures ParsePipe(Blanked(s, a), i) == ParsePipe(s, i)
    ensures ParsePipe(s, i).Ok? ==> Outside(s, a, ParsePipe(s, i).next)
    decreases |s| - i, 2
  {
    SameExec(s, a, i);
    var l := ParseExec(s, i);
    if l.Ok? {
      SamePeek(s, a, l.next, "|");
      if Peek(s, l.next, "|") {
        SameToken(s, a, Skip(s, l.next));
        SamePipe(s, a, GetToken(s, Skip(s, l.next)).next);
      }
    }
  }

  lemma {:induction false} SameBacks(s: string, a: nat, cmd: Cmd<Span>, i: nat)
    requires Pair(s, a) && Outside(s, a, i)
    ensures ParseBacks(Blanked(s, a), cmd, i) == ParseBacks(s, cmd, i)
    ensures Outside(s, a, ParseBacks(s, cmd, i).next)
    decreases |s| - i
  {
    SamePeek(s, a, i, "&");
    if Peek(s, i, "&") {
      SameToken(s, a, Skip(s, i));
      SameBacks(s, a, Back(cmd), GetToken(s, Skip(s, i)).next);
    }
  }

  lemma {:induction false} SameLine(s: string, a: nat, i: nat)
    requires Pair(s, a) && Outside(s, a, i)
    ensures ParseLine(Blanked(s, a), i) == ParseLine(s, i)
    ensures ParseLine(s, i).Ok? ==> Outside(s, a, ParseLine(s, i).next)
    decreases |s| - i, 3
  {
    SamePipe(s, a, i);
    var l := ParsePipe(s, i);
    if l.Ok? {
      SameBacks(s, a, l.cmd, l.next);
      var b := ParseBacks(s, l.cmd, l.next);
      SamePeek(s, a, b.next, ";");
      if Peek(s, b.next, ";") {
        SameToken(s, a, Skip(s, b.next));
        SameLine(s, a, GetToken(s, Skip(s, b.next)).next);
      }
    }
  }

  /** ">>" means what ">" means, in every line. */
  lemma AppendIsOutput(s: string, a: nat)
    requires Pair(s, a)
    ensures ParseCmd(Blanked(s, a)) == ParseCmd(s)
  {
    SameLine(s, a, 0);
    var l := ParseLine(s, 0);
    if l.Ok? {
      SameSkip(s, a, l.next);
    }
  }
}
