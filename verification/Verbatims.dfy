/** Brackets, blocks and quotes: which text the scanner copies into one token unchanged. */
module Verbatims {
  import opened Strings
  import opened Scanner
  import opened ScannerLaws

  lemma EndModeSplit(mode: Mode, a: string, b: string, look: Look)
    ensures EndMode(mode, a + b, look) == EndMode(EndMode(mode, a, Peek(b, look)), b, look)
  {
    var st := Scan(mode, "", Word, []);
    RunSplit(st, a, b, look);
    RunConserves(st, a + b, look);
    RunConserves(st, a, Peek(b, look));
    RunConserves(Run(st, a, Peek(b, look)), b, look);
  }

  lemma {:induction false} KeptSplit(mode: Mode, a: string, b: string, look: Look)
    ensures Kept(mode, a + b, look) == Kept(mode, a, Peek(b, look)) + Kept(EndMode(mode, a, Peek(b, look)), b, look)
    decreases |a|
  {
    if a == "" {
      assert a + b == b;
    } else {
      assert (a + b)[1..] == a[1..] + b;
      var next := NextMode(mode, a[0], Peek(a[1..], Peek(b, look)));
      var head := if Keeps(mode, a[0]) then [a[0]] else "";
      KeptSplit(next, a[1..], b, look);
      Assoc(head, Kept(next, a[1..], Peek(b, look)), Kept(EndMode(next, a[1..], Peek(b, look)), b, look));
    }
  }

  lemma {:induction false} KeptLength(mode: Mode, s: string, look: Look)
    ensures |Kept(mode, s, look)| <= |s|
    decreases |s|
  {
    if s != "" {
      KeptLength(NextMode(mode, s[0], Peek(s[1..], look)), s[1..], look);
    }
  }

  lemma {:induction false} KeptFull(mode: Mode, s: string, look: Look)
    requires |Kept(mode, s, look)| == |s|
    ensures Kept(mode, s, look) == s
    decreases |s|
  {
    if s != "" {
      var next := NextMode(mode, s[0], Peek(s[1..], look));
      KeptLength(next, s[1..], look);
      KeptFull(next, s[1..], look);
      assert s == [s[0]] + s[1..];
    }
  }

  /** Only spaces and quotes are ever left out. */
  lemma {:induction false} CountKept(mode: Mode, s: string, look: Look, c: char)
    ensures Count(Kept(mode, s, look), c) <= Count(s, c)
    ensures c != ' ' && c != '"' && c != '\'' ==> Count(Kept(mode, s, look), c) == Count(s, c)
    decreases |s|
  {
    if s != "" {
      var next := NextMode(mode, s[0], Peek(s[1..], look));
      var rest := Kept(next, s[1..], look);
      CountKept(next, s[1..], look, c);
      assert "" + rest == rest && ([s[0]] + rest)[1..] == rest;
    }
  }

  // ---- Verbatim text ----

  /** Read in plain mode, s is kept whole and leaves nothing open. */
  predicate Verbatim(s: string) {
    EndMode(Plain, s, LookOther).Plain? && Kept(Plain, s, LookOther) == s
  }

  lemma KeptHead(mode: Mode, s: string, look: Look)
    requires s != "" && Kept(mode, s, look) == s
    ensures Keeps(mode, s[0])
    ensures Kept(NextMode(mode, s[0], Peek(s[1..], look)), s[1..], look) == s[1..]
  {
    var rest := Kept(NextMode(mode, s[0], Peek(s[1..], look)), s[1..], look);
    KeptLength(NextMode(mode, s[0], Peek(s[1..], look)), s[1..], look);
    assert Kept(mode, s, look) == (if Keeps(mode, s[0]) then [s[0]] else "") + rest;
    assert ([s[0]] + rest)[1..] == rest;
  }

  lemma StepVerbatim(st: Scan, c: char, look: Look)
    requires Keeps(st.mode, c)
    requires st.value == "" ==> !st.mode.Plain? || c != '~'
    requires st.kind == Arg || c != '='
    ensures Step(st, c, look) == st.(mode := NextMode(st.mode, c, look), value := st.value + [c])
  {
  }

  lemma {:induction false} RunVerbatim(st: Scan, s: string, look: Look)
    requires Kept(st.mode, s, look) == s
    requires st.value == "" && s != "" ==> !st.mode.Plain? || s[0] != '~'
    requires st.kind == Arg || Lacks(s, '=')
    ensures Run(st, s, look) == st.(mode := EndMode(st.mode, s, look), value := st.value + s)
    decreases |s|
  {
    if s == "" {
      assert st.value + "" == st.value;
    } else {
      var c, rest := s[0], s[1..];
      var look' := Peek(rest, look);
      KeptHead(st.mode, s, look);
      StepVerbatim(st, c, look');
      RunVerbatim(st.(mode := NextMode(st.mode, c, look'), value := st.value + [c]), rest, look);
      Assoc(st.value, [c], rest);
      assert [c] + rest == s;
    }
  }

  /** Text kept whole goes into the current token, whatever it says of the token's kind. */
  lemma {:induction false} RunKeepsAll(st: Scan, s: string, look: Look)
    requires Kept(st.mode, s, look) == s
    ensures var r := Run(st, s, look);
            r == st.(mode := EndMode(st.mode, s, look), value := st.value + s, kind := r.kind)
    decreases |s|
  {
    if s == "" {
      assert st.value + "" == st.value;
    } else {
      KeptHead(st.mode, s, look);
      RunKeepsAll(Step(st, s[0], Peek(s[1..], look)), s[1..], look);
      assert st.value + [s[0]] + s[1..] == st.value + s;
    }
  }

  lemma VerbatimConcat(a: string, b: string)
    requires Verbatim(a) && Verbatim(b)
    requires a == "" || a[|a| - 1] != '<' || b == "" || b[0] != '<'
    ensures Verbatim(a + b)
  {
    LookMatters(Plain, a, Peek(b, LookOther));
    EndModeSplit(Plain, a, b, LookOther);
    KeptSplit(Plain, a, b, LookOther);
  }

  /** After verbatim text that does not end in '<', the whole is verbatim exactly when the rest is. */
  lemma VerbatimAfter(text: string, rest: string)
    requires Verbatim(text) && text != "" && text[|text| - 1] != '<'
    ensures Verbatim(text + rest) <==> Verbatim(rest)
  {
    LookMatters(Plain, text, Peek(rest, LookOther));
    EndModeSplit(Plain, text, rest, LookOther);
    KeptSplit(Plain, text, rest, LookOther);
    var kept := Kept(Plain, rest, LookOther);
    assert (text + kept)[|text|..] == kept && (text + rest)[|text|..] == rest;
  }

  /** Only a final '<' or '>' can tell what comes next apart from the end of input. */
  lemma {:induction false} LookMatters(mode: Mode, s: string, look: Look)
    requires s == "" || s[|s| - 1] != '<' || !look.LookOpen?
    requires look.LookClose? ==> EndMode(mode, s, LookOther).Plain?
    ensures EndMode(mode, s, look) == EndMode(mode, s, LookOther)
    ensures Kept(mode, s, look) == Kept(mode, s, LookOther)
    decreases |s|
  {
    if |s| > 1 {
      LookMatters(NextMode(mode, s[0], LookOf(s[1])), s[1..], look);
    }
  }

  /** Reading the last character with another lookahead keeps the same text. */
  lemma {:induction false} KeptAnyLook(mode: Mode, s: string, a: Look, b: Look)
    ensures Kept(mode, s, a) == Kept(mode, s, b)
    decreases |s|
  {
    if |s| > 1 {
      KeptAnyLook(NextMode(mode, s[0], LookOf(s[1])), s[1..], a, b);
    } else if |s| == 1 {
      assert s[1..] == "";
    }
  }

  lemma {:induction false} BlockEitherLook(mode: Mode, s: string)
    requires EndMode(mode, s, LookOther).Block? || EndMode(mode, s, LookOther).Plain?
    ensures EndMode(mode, s, LookClose).Block? || EndMode(mode, s, LookClose).Plain?
    decreases |s|
  {
    if |s| > 1 {
      BlockEitherLook(NextMode(mode, s[0], LookOf(s[1])), s[1..]);
    }
  }

  lemma AfterText(mode: Mode)
    requires BracketsKnown(mode)
    ensures EndMode(mode, "\n>>", LookOther).Plain? ==> mode.Plain? || mode.Block?
    ensures mode.Plain? || mode.Block? ==> EndMode(mode, ">>", LookOther).Plain? && Kept(mode, ">>", LookOther) == ">>"
  {
    assert "\n>>"[1..] == ">>" && ">>"[1..] == ">" && ">"[1..] == "";
    var next := NextMode(mode, '>', LookClose);
    assert Kept(next, ">", LookOther) == ">" + "";
    assert Kept(mode, ">>", LookOther) == ">" + ">";
  }

  /** Text that closes on a line of its own may as well close at the end of the line before. */
  lemma CloseSooner(r: string)
    requires Verbatim(r + "\n>>")
    ensures Verbatim(r + ">>")
  {
    var later, sooner := "\n>>", ">>";
    var mode, mode' := EndMode(Plain, r, LookOther), EndMode(Plain, r, LookClose);
    EndModeSplit(Plain, r, later, LookOther);
    KeptSplit(Plain, r, later, LookOther);
    EndModeSplit(Plain, r, sooner, LookOther);
    KeptSplit(Plain, r, sooner, LookOther);
    KeptAnyLook(Plain, r, LookOther, LookClose);
    ModesKnown(r, LookOther);
    ModesKnown(r, LookClose);
    AfterText(mode);
    BlockEitherLook(Plain, r);
    AfterText(mode');
    KeptLength(Plain, r, LookOther);
    KeptLength(mode, later, LookOther);
    KeptWhole(r, Kept(Plain, r, LookOther), later, Kept(mode, later, LookOther));
  }

  lemma ModesKnown(s: string, look: Look)
    ensures BracketsKnown(EndMode(Plain, s, look))
  {
    RunSound(START, s, look);
    RunConserves(START, s, look);
  }

  lemma KeptWhole(a: string, a': string, b: string, b': string)
    requires a' + b' == a + b && |a'| <= |a| && |b'| <= |b|
    ensures a' == a
  {
    assert a == (a + b)[..|a|] && a' == (a' + b')[..|a'|];
  }

  predicate Ordinary(c: char) {
    c != ' ' && c != '"' && c != '\'' && c != '[' && c != '{' && c != '<'
  }

  /** Text without spaces, quotes, brackets or '<' is verbatim. */
  lemma {:induction false} PlainVerbatim(s: string)
    requires forall i :: 0 <= i < |s| ==> Ordinary(s[i])
    ensures Verbatim(s)
    decreases |s|
  {
    if s != "" {
      PlainVerbatim(s[1..]);
    }
  }

  // ---- Brackets ----

  /** Opens minus closes of one bracket type. */
  function Nesting(open: char, s: string): int {
    if s == "" then 0
    else (if s[0] == open then 1 else if s[0] == Closing(open) then -1 else 0) + Nesting(open, s[1..])
  }

  lemma {:induction false} NestingAppend(open: char, s: string, c: char)
    ensures Nesting(open, s + [c]) == Nesting(open, s) + Nesting(open, [c])
  {
    if s != "" {
      assert (s + [c])[1..] == s[1..] + [c];
      NestingAppend(open, s[1..], c);
    }
  }

  /** Starting at depth d, no prefix of s closes the bracket. */
  ghost predicate StaysOpen(open: char, d: Depth, s: string) {
    forall n :: 0 <= n <= |s| ==> d + Nesting(open, s[..n]) >= 1
  }

  lemma {:induction false} RunStaysOpen(st: Scan, s: string, look: Look)
    requires st.mode.Bracket? && StaysOpen(st.mode.open, st.mode.depth, s)
    requires st.mode.open != Closing(st.mode.open)
    ensures st.mode.depth + Nesting(st.mode.open, s) >= 1
    ensures Run(st, s, look)
         == st.(mode := Bracket(st.mode.open, st.mode.depth + Nesting(st.mode.open, s)), value := st.value + s)
    decreases |s|
  {
    var open, d := st.mode.open, st.mode.depth;
    assert s[..|s|] == s;
    if s == "" {
      assert st.value + "" == st.value;
    } else {
      assert s[..1][1..] == "" && d + Nesting(open, s[..1]) >= 1;
      var next := Step(st, s[0], Peek(s[1..], look));
      assert next.mode.Bracket? && next.mode.depth as int == d + Nesting(open, s[..1]);
      forall n | 0 <= n <= |s[1..]| ensures next.mode.depth + Nesting(open, s[1..][..n]) >= 1 {
        assert s[..n + 1][1..] == s[1..][..n];
        assert d + Nesting(open, s[..n + 1]) >= 1;
      }
      RunStaysOpen(next, s[1..], look);
      assert st.value + [s[0]] + s[1..] == st.value + s;
    }
  }

  /** A balanced group is copied unchanged, whatever it holds: spaces, quotes, '=' or other brackets. */
  lemma BalancedGroupVerbatim(st: Scan, open: char, body: string, look: Look)
    requires st.mode.Plain? && (open == '[' || open == '{')
    requires StaysOpen(open, 1, body) && Nesting(open, body) == 0
    ensures Run(st, [open] + body + [Closing(open)], look) == st.(value := st.value + ([open] + body + [Closing(open)]))
    ensures Verbatim([open] + body + [Closing(open)])
  {
    var close := [Closing(open)];
    GroupRun(st, open, body, look);
    var st0 := Scan(Plain, "", Word, []);
    GroupRun(st0, open, body, LookOther);
    RunConserves(st0, [open] + body + close, LookOther);
    assert "" + Kept(Plain, [open] + body + close, LookOther) == Kept(Plain, [open] + body + close, LookOther);
  }

  lemma GroupRun(st: Scan, open: char, body: string, look: Look)
    requires st.mode.Plain? && (open == '[' || open == '{')
    requires StaysOpen(open, 1, body) && Nesting(open, body) == 0
    ensures Run(st, [open] + body + [Closing(open)], look) == st.(value := st.value + ([open] + body + [Closing(open)]))
  {
    var close := [Closing(open)];
    var inside := st.(mode := Bracket(open, 1), value := st.value + [open]);
    var full := inside.(value := inside.value + body);
    Assoc([open], body, close);
    RunHead(st, open, body + close, look);
    RunSplit(inside, body, close, look);
    RunStaysOpen(inside, body, Peek(close, look));
    RunHead(full, Closing(open), "", look);
    Assoc(st.value, [open], body);
    Assoc(st.value, [open] + body, close);
  }

  /** The bracket that s leaves open was entered at `entry`, and has not been closed since. */
  ghost predicate EnteredAt(s: string, look: Look, entry: nat) {
    && entry < |s| && (s[entry] == '[' || s[entry] == '{')
    && EndMode(Plain, s[..entry], LookOf(s[entry])).Plain?
    && StaysOpen(s[entry], 1, s[entry + 1..])
    && var mode := EndMode(Plain, s, look);
       mode.Bracket? && mode.open == s[entry] && mode.depth as int == 1 + Nesting(s[entry], s[entry + 1..])
  }

  lemma JustEntered(init: string, c: char, look: Look)
    requires EndMode(Plain, init, LookOf(c)).Plain? && EndMode(Plain, init + [c], look).Bracket?
    ensures EnteredAt(init + [c], look, |init|)
  {
    var s := init + [c];
    LastMode(init, c, look);
    assert s[..|init|] == init && s[|init| + 1..] == "";
  }

  lemma StillInside(init: string, c: char, entry: nat)
    requires entry < |init|
    ensures (init + [c])[..entry] == init[..entry] && (init + [c])[entry] == init[entry]
    ensures (init + [c])[entry + 1..] == init[entry + 1..] + [c]
  {
  }

  lemma StillEntered(init: string, c: char, look: Look, entry: nat)
    requires EnteredAt(init, LookOf(c), entry) && EndMode(Plain, init + [c], look).Bracket?
    ensures EnteredAt(init + [c], look, entry)
  {
    LastMode(init, c, look);
    StillInside(init, c, entry);
    NestingAppend(init[entry], init[entry + 1..], c);
    StaysOpenAppend(init[entry], init[entry + 1..], c);
  }

  /** Inside brackets, the depth is opens minus closes since the bracket was entered, and never reached zero since. */
  lemma {:induction false} DepthSinceEntry(s: string, look: Look) returns (entry: nat)
    requires EndMode(Plain, s, look).Bracket?
    ensures EnteredAt(s, look, entry)
    decreases |s|
  {
    var init, c := s[..|s| - 1], s[|s| - 1];
    assert s == init + [c];
    LastMode(init, c, look);
    if EndMode(Plain, init, LookOf(c)).Plain? {
      entry := |init|;
      JustEntered(init, c, look);
    } else {
      entry := DepthSinceEntry(init, LookOf(c));
      StillEntered(init, c, look, entry);
    }
  }

  lemma LastMode(init: string, c: char, look: Look)
    ensures EndMode(Plain, init + [c], look) == NextMode(EndMode(Plain, init, LookOf(c)), c, look)
  {
    EndModeSplit(Plain, init, [c], look);
    assert [c][1..] == "";
  }

  lemma StaysOpenAppend(open: char, s: string, c: char)
    requires StaysOpen(open, 1, s)
    ensures StaysOpen(open, 1, s + [c]) <==> 1 + Nesting(open, s + [c]) >= 1
  {
    var longer := s + [c];
    assert longer[..|longer|] == longer;
    assert forall n :: 0 <= n <= |s| ==> longer[..n] == s[..n];
  }

  // ---- Blocks and quotes ----

  lemma {:induction false} RunInBlock(st: Scan, s: string, look: Look)
    requires st.mode.Block? && !HasPair(s, '>')
    requires s == "" || s[|s| - 1] != '>' || !look.LookClose?
    ensures Run(st, s, look) == st.(value := st.value + s)
    decreases |s|
  {
    if s == "" {
      assert st.value + "" == st.value;
    } else {
      assert !PairAt(s, '>', 0);
      assert s == [s[0]] + s[1..];
      NoPairPart([s[0]], s[1..], '>');
      RunInBlock(Step(st, s[0], Peek(s[1..], look)), s[1..], look);
      assert st.value + [s[0]] + s[1..] == st.value + s;
    }
  }

  lemma RunOpens(st: Scan, look: Look)
    requires st.mode.Plain?
    ensures Run(st, "<<", look) == st.(mode := Block, value := st.value + "<<")
  {
    RunPair(st, '<', '<', look);
    assert st.value + ['<'] + ['<'] == st.value + "<<";
  }

  /** A block whose body holds no ">>" (nor ends in '>') is copied whole, delimiters included. */
  lemma RunBlock(st: Scan, body: string, look: Look)
    requires st.mode.Plain? && !HasPair(body, '>') && (body == "" || body[|body| - 1] != '>')
    ensures Run(st, "<<" + body + ">>", look) == st.(value := st.value + ("<<" + body + ">>"))
  {
    var open, close := "<<", ">>";
    Assoc(open, body, close);
    RunSplit(st, open, body + close, look);
    RunOpens(st, Peek(body + close, look));
    var inside := Run(st, open, Peek(body + close, look));
    RunSplit(inside, body, close, look);
    RunInBlock(inside, body, Peek(close, look));
    RunEndsBlock(inside.(value := inside.value + body), look);
    Assoc(st.value, open, body);
    Assoc(st.value, open + body, close);
  }

  lemma BlockVerbatim(body: string)
    requires !HasPair(body, '>') && (body == "" || body[|body| - 1] != '>')
    ensures Verbatim("<<" + body + ">>")
  {
    RunBlock(START, body, LookOther);
    KeptFromRun("<<" + body + ">>");
  }

  lemma KeptFromRun(text: string)
    requires Run(START, text, LookOther) == START.(value := START.value + text)
    ensures Verbatim(text)
  {
    RunConserves(START, text, LookOther);
    var kept := Kept(Plain, text, LookOther);
    assert "" + text == text && Written(START) == "" && "" + kept == kept;
  }

  lemma {:induction false} RunInQuotes(st: Scan, quote: char, s: string, look: Look)
    requires st.mode == (if quote == '"' then Double else Single) && (quote == '"' || quote == '\'')
    requires Lacks(s, quote)
    ensures Run(st, s, look) == st.(value := st.value + s)
    decreases |s|
  {
    if s == "" {
      assert st.value + "" == st.value;
    } else {
      RunInQuotes(Step(st, s[0], Peek(s[1..], look)), quote, s[1..], look);
      Assoc(st.value, [s[0]], s[1..]);
      assert [s[0]] + s[1..] == s;
    }
  }

  /** Quoted text without its own quote is copied without the delimiters. */
  lemma RunQuoted(st: Scan, quote: char, s: string, look: Look)
    requires st.mode.Plain? && (quote == '"' || quote == '\'') && Lacks(s, quote)
    ensures Run(st, [quote] + s + [quote], look) == st.(value := st.value + s)
  {
    var inside := st.(mode := if quote == '"' then Double else Single);
    Assoc([quote], s, [quote]);
    RunHead(st, quote, s + [quote], look);
    RunSplit(inside, s, [quote], look);
    RunInQuotes(inside, quote, s, LookOf(quote));
    RunHead(inside.(value := st.value + s), quote, "", look);
  }
}
