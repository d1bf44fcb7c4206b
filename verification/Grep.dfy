/**
 The pattern matcher of grep (user/grep.c), from Kernighan and Pike, "The Practice of Programming", chapter 9, and what
 it is a matcher for: a pattern denotes a set of strings, and a line matches if it holds one of them where the
 pattern's anchors allow.
 */
module Grep {
  /** What a pattern is made of: a character or '.', perhaps starred. */
  datatype Item = One(c: char) | Many(c: char)

  /** One character as a pattern: '.' stands for any. */
  predicate Fits(c: char, x: char) {
    c == '.' || c == x
  }

  /** A pattern without its '^': its items, and whether it ends in an anchoring '$'. */
  datatype Pattern = Pattern(items: seq<Item>, atEnd: bool)

  function PatternOf(re: string): Pattern
    decreases |re|
  {
    if re == "" then Pattern([], false)
    else if |re| >= 2 && re[1] == '*' then
      var p := PatternOf(re[2..]);
      Pattern([Many(re[0])] + p.items, p.atEnd)
    else if re == "$" then Pattern([], true)
    else
      var p := PatternOf(re[1..]);
      Pattern([One(re[0])] + p.items, p.atEnd)
  }

  /** u is one of the strings that the items denote, one after another. */
  ghost predicate Denotes(items: seq<Item>, u: string)
    decreases |items|
  {
    if items == [] then u == ""
    else if items[0].One? then u != "" && Fits(items[0].c, u[0]) && Denotes(items[1..], u[1..])
    else exists n :: 0 <= n <= |u| && AllFit(items[0].c, u[..n]) && Denotes(items[1..], u[n..])
  }

  predicate AllFit(c: char, u: string) {
    forall k :: 0 <= k < |u| ==> Fits(c, u[k])
  }

  /** The text starts with a string of the pattern, and ends with it if the pattern is anchored there. */
  ghost predicate Starts(p: Pattern, text: string) {
    exists n :: 0 <= n <= |text| && Denotes(p.items, text[..n]) && (p.atEnd ==> n == |text|)
  }

  /** What grep is documented to find. */
  ghost predicate Found(re: string, text: string) {
    if re != "" && re[0] == '^' then Starts(PatternOf(re[1..]), text)
    else exists i :: 0 <= i <= |text| && Starts(PatternOf(re), text[i..])
  }

  /* The matcher */

  function MatchHere(re: string, text: string): bool
    decreases |re|, 0, |text|
  {
    if re == "" then true
    else if |re| >= 2 && re[1] == '*' then MatchStar(re[0], re[2..], text)
    else if re == "$" then text == ""
    else text != "" && Fits(re[0], text[0]) && MatchHere(re[1..], text[1..])
  }

  function MatchStar(c: char, re: string, text: string): bool
    decreases |re|, 1, |text|
  {
    MatchHere(re, text) || (text != "" && Fits(c, text[0]) && MatchStar(c, re, text[1..]))
  }

  /** matchhere. */
  method RunHere(re: string, text: string) returns (yes: bool)
    ensures yes == MatchHere(re, text)
    decreases |re|, 0
  {
    if re == "" {
      return true;
    }
    if |re| >= 2 && re[1] == '*' {
      yes := RunStar(re[0], re[2..], text);
      return;
    }
    if re == "$" {
      return text == "";
    }
    if text != "" && (re[0] == '.' || re[0] == text[0]) {
      yes := RunHere(re[1..], text[1..]);
      return;
    }
    return false;
  }

  /** matchstar: no longer text is tried once a shorter one will do. */
  method RunStar(c: char, re: string, text0: string) returns (yes: bool)
    ensures yes == MatchStar(c, re, text0)
    decreases |re|, 1
  {
    var text := text0;
    while true
      invariant MatchStar(c, re, text0) == MatchStar(c, re, text)
      decreases |text|
    {
      var here := RunHere(re, text);
      if here {
        return true;
      }
      if !(text != "" && (text[0] == c || c == '.')) {
        return false;
      }
      text := text[1..];
    }
  }

  /** match. */
  method Match(re: string, text0: string) returns (yes: bool)
    ensures yes <==> Found(re, text0)
  {
    if re != "" && re[0] == '^' {
      yes := RunHere(re[1..], text0);
      HereIff(re[1..], text0);
      return;
    }
    var i := 0;
    while true
      invariant 0 <= i <= |text0|
      invariant forall k :: 0 <= k < i ==> !Starts(PatternOf(re), text0[k..])
      decreases |text0| - i
    {
      var here := RunHere(re, text0[i..]);
      HereIff(re, text0[i..]);
      if here {
        return true;
      }
      if i == |text0| {
        return false;
      }
      i := i + 1;
    }
  }

  /* What it matches */

  lemma {:induction false} HereIff(re: string, text: string)
    ensures MatchHere(re, text) <==> Starts(PatternOf(re), text)
    decreases |re|, 0
  {
    if re == "" {
      assert Denotes([], text[..0]);
    } else if |re| >= 2 && re[1] == '*' {
      StarIff(re[0], re[2..], text);
      ManyStarts(re[0], PatternOf(re[2..]), text);
    } else if re == "$" {
      assert Denotes([], text[..0]);
    } else {
      OneStarts(re[0], PatternOf(re[1..]), text);
      if text != "" {
        HereIff(re[1..], text[1..]);
      }
    }
  }

  /** matchstar tries every number of repetitions there is. */
  lemma {:induction false} StarIff(c: char, re: string, text: string)
    ensures MatchStar(c, re, text) <==>
            exists n :: 0 <= n <= |text| && AllFit(c, text[..n]) && Starts(PatternOf(re), text[n..])
    decreases |re|, 1, |text|
  {
    var p := PatternOf(re);
    HereIff(re, text);
    assert text[0..] == text;
    if text != "" {
      StarIff(c, re, text[1..]);
      if n :| 0 <= n <= |text[1..]| && AllFit(c, text[1..][..n]) && Starts(p, text[1..][n..]) {
        assert text[..n + 1] == [text[0]] + text[1..][..n];
        assert text[n + 1..] == text[1..][n..];
        assert Fits(c, text[0]) ==> AllFit(c, text[..n + 1]);
      }
      if n :| 0 < n <= |text| && AllFit(c, text[..n]) && Starts(p, text[n..]) {
        assert text[1..][..n - 1] == text[..n][1..];
        assert text[n..] == text[1..][n - 1..];
        assert Fits(c, text[..n][0]);
      }
    }
  }

  lemma OneStarts(c: char, p: Pattern, text: string)
    ensures Starts(Pattern([One(c)] + p.items, p.atEnd), text) <==>
            text != "" && Fits(c, text[0]) && Starts(p, text[1..])
  {
    var items := [One(c)] + p.items;
    assert items[1..] == p.items;
    if n :| 0 <= n <= |text| && Denotes(items, text[..n]) && (p.atEnd ==> n == |text|) {
      assert text[..n][1..] == text[1..][..n - 1];
    }
    if text != "" && Fits(c, text[0]) {
      if n :| 0 <= n <= |text[1..]| && Denotes(p.items, text[1..][..n]) && (p.atEnd ==> n == |text[1..]|) {
        assert text[..n + 1][1..] == text[1..][..n];
        assert Denotes(items, text[..n + 1]);
      }
    }
  }

  lemma ManyStarts(c: char, p: Pattern, text: string)
    ensures Starts(Pattern([Many(c)] + p.items, p.atEnd), text)
            <==> exists n :: 0 <= n <= |text| && AllFit(c, text[..n]) && Starts(p, text[n..])
  {
    var items := [Many(c)] + p.items;
    assert items[1..] == p.items;
    if m :| 0 <= m <= |text| && Denotes(items, text[..m]) && (p.atEnd ==> m == |text|) {
      var u := text[..m];
      var n :| 0 <= n <= |u| && AllFit(c, u[..n]) && Denotes(p.items, u[n..]);
      assert u[..n] == text[..n] && u[n..] == text[n..][..m - n];
    }
    if n :| 0 <= n <= |text| && AllFit(c, text[..n]) && Starts(p, text[n..]) {
      var k :| 0 <= k <= |text[n..]| && Denotes(p.items, text[n..][..k]) && (p.atEnd ==> k == |text[n..]|);
      var u := text[..n + k];
      assert u[..n] == text[..n] && u[n..] == text[n..][..k];
      assert Denotes(items, u);
    }
  }
}
