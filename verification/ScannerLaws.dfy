/** What every scan obeys: composition, completion, conservation, typing, brackets. */
module ScannerLaws {
  import opened Strings
  import opened Scanner

  // ---- Composition ----

  lemma {:induction false} RunSplit(st: Scan, a: string, b: string, look: Look)
    ensures Run(st, a + b, look) == Run(Run(st, a, Peek(b, look)), b, look)
    decreases |a|
  {
    if a == "" {
      assert a + b == b;
    } else {
      assert (a + b)[1..] == a[1..] + b;
      RunSplit(Step(st, a[0], Peek(a[1..], Peek(b, look))), a[1..], b, look);
    }
  }

  lemma {:induction false} RunKeepsEarlier(st: Scan, earlier: seq<Token>, s: string, look: Look)
    ensures Run(st.(tokens := earlier + st.tokens), s, look)
         == (var r := Run(st, s, look); r.(tokens := earlier + r.tokens))
    decreases |s|
  {
    if s != "" {
      var next := Step(st, s[0], Peek(s[1..], look));
      Assoc(earlier, st.tokens, [Token(st.value, st.kind)]);
      assert Step(st.(tokens := earlier + st.tokens), s[0], Peek(s[1..], look))
          == next.(tokens := earlier + next.tokens);
      RunKeepsEarlier(next, earlier, s[1..], look);
    }
  }

  /** What holds of the token under construction and of every finished one. */
  predicate WellTyped(t: Token) {
    match t.kind
    case Word => true
    case Arg => '=' in t.value
    case Handle => t.value != "" && t.value[0] == '~'
  }

  predicate BracketsKnown(mode: Mode) {
    mode.Bracket? ==> mode.open == '[' || mode.open == '{'
  }

  ghost predicate Sound(st: Scan) {
    && WellTyped(Token(st.value, st.kind)) && BracketsKnown(st.mode)
    && (forall t :: t in st.tokens ==> t.value != "" && WellTyped(t))
  }

  lemma {:induction false} RunSound(st: Scan, s: string, look: Look)
    requires Sound(st)
    ensures Sound(Run(st, s, look))
    decreases |s|
  {
    if s != "" {
      RunSound(Step(st, s[0], Peek(s[1..], look)), s[1..], look);
    }
  }

  /** Every token is non-empty; handle tokens start with '~' and argument tokens contain '='. */
  lemma TokensWellTyped(message: string)
    ensures forall t :: t in Tokens(message) ==> t.value != "" && WellTyped(t)
  {
    RunSound(START, message, LookOther);
  }

  /** A space met in plain mode cuts the scan in two, whatever follows it. */
  lemma TokensCompose(a: string, b: string)
    requires Run(START, a, LookOther).mode.Plain?
    ensures Tokens(a + " " + b) == Tokens(a) + Tokens(b)
  {
    var st := Run(START, a, LookOther);
    RunSound(START, a, LookOther);
    assert a + " " + b == a + (" " + b);
    RunSplit(START, a, " " + b, LookOther);
    assert (" " + b)[1..] == b;
    var cut := Step(st, ' ', Peek(b, LookOther));
    assert Run(st, " " + b, LookOther) == Run(cut, b, LookOther);
    assert cut == Scan(Plain, "", Word, Tokens(a)) by {
      assert st.value + "" == st.value;
      assert st.value == "" ==> st.kind == Word;
    }
    assert Tokens(a) + START.tokens == Tokens(a);
    RunKeepsEarlier(START, Tokens(a), b, LookOther);
    var r := Run(START, b, LookOther);
    assert Tokens(a) + (r.tokens + [Token(r.value + AutoClose(r.mode), r.kind)])
        == Tokens(a) + r.tokens + [Token(r.value + AutoClose(r.mode), r.kind)];
  }

  /** Extra spaces before, after or between plain-mode parts change nothing. */
  lemma ExtraSpaces(a: string, b: string)
    requires Run(START, a, LookOther).mode.Plain?
    ensures Tokens(" " + b) == Tokens(b)
    ensures Tokens(a + " ") == Tokens(a)
    ensures Tokens(a + " " + (" " + b)) == Tokens(a + " " + b)
  {
    assert "" + " " + b == " " + b && a + " " + "" == a + " ";
    TokensCompose("", b);
    TokensCompose(a, "");
    TokensCompose(a, b);
    TokensCompose(a, " " + b);
  }

  // ---- Completion ----

  /** What the sender would have had to add for nothing to be left open. */
  function Completion(mode: Mode): string {
    match mode
    case Double => "\""
    case Single => "'"
    case _ => AutoClose(mode)
  }

  lemma {:induction false} RunCloses(st: Scan)
    requires st.mode.Bracket? && (st.mode.open == '[' || st.mode.open == '{')
    ensures Run(st, AutoClose(st.mode), LookOther) == st.(mode := Plain, value := st.value + AutoClose(st.mode))
    decreases if st.mode.Bracket? then st.mode.depth else 0
  {
    var c, d: nat := Closing(st.mode.open), st.mode.depth;
    var next := Step(st, c, Peek(Repeat(c, d - 1), LookOther));
    assert Repeat(c, d)[1..] == Repeat(c, d - 1);
    assert st.value + [c] + Repeat(c, d - 1) == st.value + Repeat(c, d);
    if d > 1 {
      RunCloses(next);
    } else {
      assert next.value + Repeat(c, 0) == next.value;
    }
  }

  lemma RunHead(st: Scan, c: char, s: string, look: Look)
    ensures Run(st, [c] + s, look) == Run(Step(st, c, Peek(s, look)), s, look)
  {
    assert ([c] + s)[1..] == s;
  }

  lemma RunPair(st: Scan, a: char, b: char, look: Look)
    ensures Run(st, [a, b], look) == Step(Step(st, a, LookOf(b)), b, look)
  {
    assert [a, b][1..] == [b] && [b][1..] == "";
    assert Run(Step(st, a, LookOf(b)), [b], look) == Step(Step(st, a, LookOf(b)), b, look);
  }

  lemma RunEndsBlock(st: Scan, look: Look)
    requires st.mode.Block?
    ensures Run(st, ">>", look) == st.(mode := Plain, value := st.value + ">>")
  {
    RunPair(st, '>', '>', look);
    assert st.value + ['>'] + ['>'] == st.value + ">>";
  }

  /** In a block, a character before the closing pair is read as it is read last. */
  lemma StepBeforeClose(st: Scan, c: char)
    requires Step(st, c, LookOther).mode.Block?
    ensures var r, after := Step(st, c, LookClose), Step(st, c, LookOther);
            Run(r, ">>", LookOther) == after.(mode := Plain, value := after.value + ">>")
  {
    var r := Step(st, c, LookClose);
    RunPair(r, '>', '>', LookOther);
    Assoc(r.value, ">", ">");
  }

  /** A block left open at the end of s is closed by ">>", even when s ends in a lone '>'. */
  lemma RunClosesBlock(s: string)
    requires Run(START, s, LookOther).mode.Block?
    ensures Run(START, s + ">>", LookOther)
         == (var st := Run(START, s, LookOther); st.(mode := Plain, value := st.value + ">>"))
  {
    var init, c := s[..|s| - 1], s[|s| - 1];
    assert s == init + [c];
    RunLastChar(init, c, LookOther);
    RunLastChar(init, c, LookClose);
    RunSplit(START, s, ">>", LookOther);
    StepBeforeClose(Run(START, init, LookOf(c)), c);
  }

  lemma RunLastChar(init: string, c: char, look: Look)
    ensures Run(START, init + [c], look) == Step(Run(START, init, LookOf(c)), c, look)
  {
    RunSplit(START, init, [c], look);
    RunHead(Run(START, init, LookOf(c)), c, "", look);
  }

  /** Best-effort closing at end of input is what writing the closers out would have given. */
  lemma BestEffortIsCompletion(message: string)
    ensures var full := message + Completion(Run(START, message, LookOther).mode);
            Tokens(full) == Tokens(message) && Run(START, full, LookOther).mode.Plain?
  {
    var st := Run(START, message, LookOther);
    var tail := Completion(st.mode);
    RunSound(START, message, LookOther);
    match st.mode
    case Plain => assert message + "" == message;
    case Block =>
      RunClosesBlock(message);
      assert st.value + ">>" + "" == st.value + ">>";
    case Bracket(open, depth) =>
      RunSplit(START, message, tail, LookOther);
      RunCloses(st);
      assert st.value + tail + "" == st.value + tail;
    case _ =>
      RunSplit(START, message, tail, LookOther);
      assert Run(st, tail, LookOther) == Step(st, tail[0], LookOther);
  }

  // ---- Conservation ----

  function EndMode(mode: Mode, s: string, look: Look): Mode
    decreases |s|
  {
    if s == "" then mode else EndMode(NextMode(mode, s[0], Peek(s[1..], look)), s[1..], look)
  }

  /** s without its plain-mode spaces and its quote delimiters. */
  function Kept(mode: Mode, s: string, look: Look): string
    decreases |s|
  {
    if s == "" then ""
    else (if Keeps(mode, s[0]) then [s[0]] else "") + Kept(NextMode(mode, s[0], Peek(s[1..], look)), s[1..], look)
  }

  function Values(tokens: seq<Token>): string {
    if tokens == [] then "" else Values(tokens[..|tokens| - 1]) + tokens[|tokens| - 1].value
  }

  function Written(st: Scan): string {
    Values(st.tokens) + st.value
  }

  lemma StepConserves(st: Scan, c: char, look: Look)
    ensures Step(st, c, look).mode == NextMode(st.mode, c, look)
    ensures Written(Step(st, c, look)) == Written(st) + (if Keeps(st.mode, c) then [c] else "")
  {
    if st.mode.Plain? && c == ' ' && st.value != "" {
      assert (st.tokens + [Token(st.value, st.kind)])[..|st.tokens|] == st.tokens;
    }
  }

  lemma {:induction false} RunConserves(st: Scan, s: string, look: Look)
    ensures Run(st, s, look).mode == EndMode(st.mode, s, look)
    ensures Written(Run(st, s, look)) == Written(st) + Kept(st.mode, s, look)
    decreases |s|
  {
    if s != "" {
      StepConserves(st, s[0], Peek(s[1..], look));
      RunConserves(Step(st, s[0], Peek(s[1..], look)), s[1..], look);
    }
  }

  lemma FinishConserves(st: Scan)
    ensures Values(Finish(st)) == Written(st) + AutoClose(st.mode)
  {
    var last := st.value + AutoClose(st.mode);
    if last == "" {
      assert Written(st) + AutoClose(st.mode) == Values(st.tokens);
    } else {
      assert Finish(st)[..|st.tokens|] == st.tokens;
      assert Written(st) + AutoClose(st.mode) == Values(st.tokens) + last;
    }
  }

  /** The tokens hold the input minus plain spaces and quote delimiters, plus the closers, in order. */
  lemma TokensConserve(message: string)
    ensures Values(Tokens(message)) == Kept(Plain, message, LookOther) + AutoClose(EndMode(Plain, message, LookOther))
  {
    var kept := Kept(Plain, message, LookOther);
    RunConserves(START, message, LookOther);
    FinishConserves(Run(START, message, LookOther));
    assert Written(START) == "" && "" + kept == kept;
  }
}
