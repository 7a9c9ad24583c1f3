/** The text that needs no quotes: a grammar over the text alone, and its equivalence with the scanner's copying. */
module BareText {
  import opened Strings
  import opened Scanner
  import opened ScannerLaws
  import opened Verbatims

  /** One bracket group: the bracket that opens g is closed by its last character and not before. */
  ghost predicate BalancedGroup(g: string) {
    && |g| >= 2 && (g[0] == '[' || g[0] == '{') && g[|g| - 1] == Closing(g[0])
    && StaysOpen(g[0], 1, g[1..|g| - 1]) && Nesting(g[0], g[1..|g| - 1]) == 0
  }

  /** Bracket groups, blocks up to their first ">>", and other characters, without a space or quote among them. */
  ghost predicate Bare(s: string)
    decreases |s|
  {
    if s == "" then true
    else if s[0] == '[' || s[0] == '{' then
      exists n :: 2 <= n <= |s| && BalancedGroup(s[..n]) && Bare(s[n..])
    else if |s| > 1 && s[0] == '<' && s[1] == '<' then
      var close := FindPair(s, '>', 2);
      close < |s| && Bare(s[close + 2..])
    else
      s[0] != ' ' && s[0] != '"' && s[0] != '\'' && Bare(s[1..])
  }

  /** The scanner copies s into one token and is back in plain mode exactly for the texts of the grammar. */
  lemma {:induction false} BareIsVerbatim(s: string)
    ensures Bare(s) <==> Verbatim(s)
    decreases |s|
  {
    if s != "" {
      if s[0] == '[' || s[0] == '{' {
        if Bare(s) {
          var n :| 2 <= n <= |s| && BalancedGroup(s[..n]) && Bare(s[n..]);
          GroupThenRest(s, n);
          BareIsVerbatim(s[n..]);
        } else if Verbatim(s) {
          var n := GroupEnd(s);
          GroupThenRest(s, n);
          BareIsVerbatim(s[n..]);
        }
      } else if |s| > 1 && s[0] == '<' && s[1] == '<' {
        var close := FindPair(s, '>', 2);
        if close < |s| {
          BlockThenRest(s, close);
          BareIsVerbatim(s[close + 2..]);
        } else {
          UnclosedBlock(s);
        }
      } else {
        PlainThenRest(s);
        BareIsVerbatim(s[1..]);
      }
    }
  }

  lemma GroupThenRest(s: string, n: nat)
    requires 2 <= n <= |s| && BalancedGroup(s[..n])
    ensures Verbatim(s) <==> Verbatim(s[n..])
  {
    var g := s[..n];
    BalancedGroupVerbatim(START, g[0], g[1..n - 1], LookOther);
    assert [g[0]] + g[1..n - 1] + [Closing(g[0])] == g;
    assert g + s[n..] == s;
    VerbatimAfter(g, s[n..]);
  }

  lemma BlockThenRest(s: string, close: nat)
    requires |s| > 1 && s[0] == '<' && s[1] == '<' && close == FindPair(s, '>', 2) < |s|
    ensures Verbatim(s) <==> Verbatim(s[close + 2..])
  {
    var body := s[2..close];
    assert PairAt(s, '>', close);
    forall i ensures !PairAt(body, '>', i) {
      assert PairAt(body, '>', i) ==> PairAt(s, '>', i + 2);
    }
    assert body != "" ==> !PairAt(s, '>', close - 1);
    BlockVerbatim(body);
    assert "<<" + body + ">>" + s[close + 2..] == s;
    VerbatimAfter("<<" + body + ">>", s[close + 2..]);
  }

  lemma UnclosedBlock(s: string)
    requires |s| > 1 && s[0] == '<' && s[1] == '<' && FindPair(s, '>', 2) == |s|
    ensures !Verbatim(s)
  {
    var body := s[2..];
    assert s == "<<" + body;
    RunSplit(START, "<<", body, LookOther);
    RunOpens(START, Peek(body, LookOther));
    forall i ensures !PairAt(body, '>', i) {
      assert PairAt(body, '>', i) ==> PairAt(s, '>', i + 2);
    }
    RunInBlock(START.(mode := Block, value := START.value + "<<"), body, LookOther);
    RunConserves(START, s, LookOther);
  }

  lemma PlainThenRest(s: string)
    requires s != "" && s[0] != '[' && s[0] != '{' && !(|s| > 1 && s[0] == '<' && s[1] == '<')
    ensures Verbatim(s) <==> s[0] != ' ' && s[0] != '"' && s[0] != '\'' && Verbatim(s[1..])
  {
    var c, look := s[0], Peek(s[1..], LookOther);
    if Verbatim(s) {
      KeptHead(Plain, s, LookOther);
    } else if Keeps(Plain, c) && Verbatim(s[1..]) {
      assert NextMode(Plain, c, look) == Plain;
      assert Kept(Plain, s, LookOther) == [c] + s[1..];
    }
  }

  /** Text that opens a bracket and scans back to plain mode begins with a group. */
  lemma GroupEnd(s: string) returns (n: nat)
    requires s != "" && (s[0] == '[' || s[0] == '{') && EndMode(Plain, s, LookOther).Plain?
    ensures 2 <= n <= |s| && BalancedGroup(s[..n])
  {
    var open, rest := s[0], s[1..];
    assert s == [open] + rest;
    n := 0;
    while n < |rest| && 1 + Nesting(open, rest[..n + 1]) >= 1
      invariant n <= |rest|
      invariant StaysOpen(open, 1, rest[..n])
    {
      TakeNext(rest, n);
      StaysOpenAppend(open, rest[..n], rest[n]);
      n := n + 1;
    }
    assert rest[..|rest|] == rest;
    if n == |rest| {
      NeverClosed(open, rest);
    }
    TakeNext(rest, n);
    NestingAppend(open, rest[..n], rest[n]);
    assert rest[..n][..n] == rest[..n];
    n := n + 2;
    assert s[..n][1..n - 1] == rest[..n - 2];
  }

  lemma NeverClosed(open: char, rest: string)
    requires (open == '[' || open == '{') && StaysOpen(open, 1, rest)
    ensures EndMode(Plain, [open] + rest, LookOther).Bracket?
  {
    RunHead(START, open, rest, LookOther);
    RunStaysOpen(Step(START, open, Peek(rest, LookOther)), rest, LookOther);
    RunConserves(START, [open] + rest, LookOther);
  }

  lemma TakeNext(s: string, n: nat)
    requires n < |s|
    ensures s[..n + 1] == s[..n] + [s[n]]
  {
  }

  /** Text without spaces, quotes, brackets or '<' is bare. */
  lemma PlainBare(s: string)
    requires forall i :: 0 <= i < |s| ==> Ordinary(s[i])
    ensures Bare(s)
  {
    PlainVerbatim(s);
    BareIsVerbatim(s);
  }
}
