/** Text that must have been read whole, because what was read of it has as many spaces, quotes and delimiters. */
module ForcedReads {
  import opened Strings
  import opened Scanner
  import opened ScannerLaws
  import opened Verbatims
  import opened BareText
  import opened Parsing
  import opened Canonical
  import opened Forms
  import opened Items
  import opened LostNewlines
  import opened TokenReads
  import opened IntactItems
  import opened ParseWeights

  // ---- The token under construction only grows ----

  /** The token t continues a token with the value and kind of st. */
  ghost predicate Continues(st: Scan, t: Token) {
    && |st.value| <= |t.value| && t.value[..|st.value|] == st.value
    && (st.kind == Arg ==> t.kind == Arg)
  }

  lemma {:induction false} TokensGrow(st: Scan, s: string, look: Look)
    ensures |Run(st, s, look).tokens| >= |st.tokens| && Run(st, s, look).tokens[..|st.tokens|] == st.tokens
    decreases |s|
  {
    if s != "" {
      TokensGrow(Step(st, s[0], Peek(s[1..], look)), s[1..], look);
    }
  }

  /** Until a plain space ends it, the token keeps every space; a token ended is one space short of the text. */
  lemma {:induction false} TokenGrows(st: Scan, s: string, look: Look)
    requires st.value != "" && st.tokens == []
    ensures var r := Run(st, s, look);
            if r.tokens == [] then
              && Continues(st, Token(r.value, r.kind)) && r.value != ""
              && Count(r.value, ' ') == Count(st.value, ' ') + Count(s, ' ')
            else
              && Continues(st, r.tokens[0])
              && Count(r.tokens[0].value, ' ') < Count(st.value, ' ') + Count(s, ' ')
    decreases |s|
  {
    if s == "" {
      assert st.value[..|st.value|] == st.value;
    } else {
      var next := Step(st, s[0], Peek(s[1..], look));
      CountConcat(st.value, [s[0]], ' ');
      assert [s[0]][1..] == "";
      if next.tokens == [] {
        TokenGrows(next, s[1..], look);
        StepContinues(st, s[0], Peek(s[1..], look));
      } else {
        TokensGrow(next, s[1..], look);
        assert st.value[..|st.value|] == st.value;
      }
    }
  }

  lemma StepContinues(st: Scan, c: char, look: Look)
    requires Step(st, c, look).tokens == st.tokens && st.value != ""
    ensures var next := Step(st, c, look); Continues(st, Token(next.value, next.kind))
    ensures var next := Step(st, c, look);
            forall t | Continues(next, t) :: Continues(st, t)
  {
    var next := Step(st, c, look);
    forall t | Continues(next, t) ensures Continues(st, t) {
      assert t.value[..|next.value|][..|st.value|] == t.value[..|st.value|];
    }
  }

  predicate Separated(z: string) {
    z == "" || z[0] == ' '
  }

  /** If the first token has as many spaces as s, then it is all of s, closed by nothing but the end of input. */
  lemma FirstToken(s: string, z: string)
    requires s != "" && Keeps(Plain, s[0]) && Separated(z)
    requires var toks := Tokens(s + z); toks != [] && Count(toks[0].value, ' ') == Count(s, ' ')
    ensures var st := Run(START, s, LookOther);
            && st.tokens == [] && (st.mode.Plain? || z == "")
            && Tokens(s + z)[0] == Token(st.value + if st.mode.Plain? then "" else AutoClose(st.mode), st.kind)
  {
    var st := Run(START, s, LookOther);
    RunSplit(START, s, z, LookOther);
    SpacesOf(s);
    TokensGrow(st, z, LookOther);
    assert st.value + "" == st.value;
    if st.tokens == [] && z != "" {
      SpaceAfter(st, z);
    }
  }

  lemma SpacesOf(s: string)
    requires s != "" && Keeps(Plain, s[0])
    ensures var st := Run(START, s, LookOther);
            if st.tokens == [] then st.value != "" && Count(st.value, ' ') == Count(s, ' ')
            else Count(st.tokens[0].value, ' ') < Count(s, ' ')
  {
    var first := Step(START, s[0], Peek(s[1..], LookOther));
    assert first.value == [s[0]] && [s[0]][1..] == "";
    TokenGrows(first, s[1..], LookOther);
  }

  lemma SpaceAfter(st: Scan, z: string)
    requires st.tokens == [] && st.value != "" && z != "" && z[0] == ' '
    ensures var toks := Finish(Run(st, z, LookOther));
            && toks != []
            && if st.mode.Plain? then toks[0] == Token(st.value, st.kind)
               else Count(toks[0].value, ' ') > Count(st.value, ' ')
  {
    var next := Step(st, ' ', Peek(z[1..], LookOther));
    if st.mode.Plain? {
      TokensGrow(next, z[1..], LookOther);
    } else {
      CountConcat(st.value, " ", ' ');
      assert " "[1..] == "";
      TokenGrows(next, z[1..], LookOther);
      var r := Run(next, z[1..], LookOther);
      PrefixCount(next.value, if r.tokens == [] then r.value else r.tokens[0].value);
      CountConcat(r.value, AutoClose(r.mode), ' ');
    }
  }

  lemma SplitPrefix(a: string, s: string)
    requires |a| <= |s| && s[..|a|] == a
    ensures s == a + s[|a|..]
  {
  }

  lemma PrefixCount(a: string, s: string)
    requires |a| <= |s| && s[..|a|] == a
    ensures Count(a, ' ') <= Count(s, ' ')
  {
    SplitPrefix(a, s);
    CountConcat(a, s[|a|..], ' ');
  }

  // ---- Read whole ----

  /** The same characters, newlines apart. */
  ghost predicate SameCounts(x: string, y: string) {
    forall c :: c != '\n' ==> Count(x, c) == Count(y, c)
  }

  /** How many spaces and quotes s holds. */
  function Blanks(s: string): nat {
    Count(s, ' ') + Count(s, '"') + Count(s, '\'')
  }

  lemma BlanksCons(c: char, s: string)
    ensures Blanks([c] + s) == Blanks(s) + if c == ' ' || c == '"' || c == '\'' then 1 else 0
  {
    assert ([c] + s)[1..] == s;
  }

  lemma {:induction false} KeptDeficit(mode: Mode, s: string, look: Look)
    ensures var kept := Kept(mode, s, look); |s| - |kept| == Blanks(s) - Blanks(kept)
    decreases |s|
  {
    if s != "" {
      var next := NextMode(mode, s[0], Peek(s[1..], look));
      var rest := Kept(next, s[1..], look);
      KeptDeficit(next, s[1..], look);
      assert "" + rest == rest && s == [s[0]] + s[1..];
      BlanksCons(s[0], s[1..]);
      BlanksCons(s[0], rest);
    }
  }

  lemma {:induction false} NoQuoteMode(mode: Mode, s: string, look: Look)
    requires Kept(mode, s, look) == s && !mode.Double? && !mode.Single?
    ensures !EndMode(mode, s, look).Double? && !EndMode(mode, s, look).Single?
    decreases |s|
  {
    if s != "" {
      KeptHead(mode, s, look);
      NoQuoteMode(NextMode(mode, s[0], Peek(s[1..], look)), s[1..], look);
    }
  }

  lemma CountAdds(x: string, mode: Mode)
    requires BracketsKnown(mode) && (mode.Bracket? || mode.Block?)
    ensures exists c :: c != '\n' && c != ' ' && c != '"' && c != '\'' && Count(x + AutoClose(mode), c) > Count(x, c)
  {
    var close := AutoClose(mode);
    var c := close[0];
    CountConcat(x, close, c);
    assert Count(close, c) == 1 + Count(close[1..], c);
  }

  lemma KeptAll(s: string, value: string, mode: Mode)
    requires value == Kept(Plain, s, LookOther) && BracketsKnown(mode)
    requires SameCounts(value + AutoClose(mode), s)
    ensures value == s
  {
    forall c | c == ' ' || c == '"' || c == '\'' ensures Count(value, c) == Count(s, c) {
      NoClosers(mode, c);
      CountConcat(value, AutoClose(mode), c);
    }
    KeptDeficit(Plain, s, LookOther);
    KeptFull(Plain, s, LookOther);
  }

  lemma ScanKept(s: string)
    ensures var st := Run(START, s, LookOther);
            && BracketsKnown(st.mode)
            && st.mode == EndMode(Plain, s, LookOther)
            && (st.tokens == [] ==> st.value == Kept(Plain, s, LookOther))
  {
    var st := Run(START, s, LookOther);
    RunConserves(START, s, LookOther);
    RunSound(START, s, LookOther);
    var kept := Kept(Plain, s, LookOther);
    assert "" + "" + kept == kept && "" + st.value == st.value;
  }

  /** Text kept whole with nothing appended to close it ends in plain mode. */
  lemma ClosedItself(s: string, mode: Mode)
    requires mode == EndMode(Plain, s, LookOther) && BracketsKnown(mode) && Kept(Plain, s, LookOther) == s
    requires SameCounts(s + AutoClose(mode), s)
    ensures mode.Plain?
  {
    NoQuoteMode(Plain, s, LookOther);
    if !mode.Plain? {
      CountAdds(s, mode);
    }
  }

  /** If the first token has besides all the characters of s, newlines apart, then s is kept whole and closed. */
  lemma WholeToken(s: string, z: string)
    requires s != "" && Keeps(Plain, s[0]) && Separated(z)
    requires Tokens(s + z) != [] && SameCounts(Tokens(s + z)[0].value, s)
    ensures Run(START, s, LookOther) == Scan(Plain, s, Tokens(s + z)[0].kind, [])
    ensures Tokens(s + z)[0].value == s
  {
    var st := Run(START, s, LookOther);
    FirstToken(s, z);
    ScanKept(s);
    assert st.value + "" == st.value;
    KeptAll(s, st.value, st.mode);
    ClosedItself(s, st.mode);
  }

  /** After text scanned to one token, the scan starts afresh. */
  lemma Advance(s: string, z: string, t: Token)
    requires Run(START, s, LookOther) == Scan(Plain, t.value, t.kind, []) && t.value != "" && Separated(z)
    ensures Tokens(s + z) == [t] + Tokens(z)
  {
    assert t.value + "" == t.value && [] + [t] == [t];
    if z == "" {
      assert s + z == s;
      assert [t] + [] == [t];
    } else {
      var rest := z[1..];
      assert z == " " + rest && s + z == s + " " + rest;
      TokensCompose(s, rest);
      ExtraSpaces("", rest);
    }
  }

  // ---- Arguments that must be read as they were ----

  /** Every argument among the tokens is one of A. */
  ghost predicate Only(a: seq<(string, string)>, toks: seq<Token>) {
    AllWellTyped(toks) && forall i :: 0 <= i < |ArgsOf(toks)| ==> ArgsOf(toks)[i] in a
  }

  lemma {:induction false} ThinAfter(a: string, b: string, y: string)
    requires Thin(a + b, y) && Lacks(a, '\n')
    ensures |y| >= |a| && y == a + y[|a|..] && Thin(b, y[|a|..])
    decreases |a|
  {
    if a == "" {
      assert a + b == b && y[0..] == y && "" + y == y;
    } else {
      assert (a + b)[1..] == a[1..] + b && (a + b)[0] == a[0];
      ThinAfter(a[1..], b, y[1..]);
      assert y == [y[0]] + y[1..] && a == [a[0]] + a[1..];
    }
  }

  /** Text that begins with a key and '=' gives an argument with that key first. */
  lemma KeyedFirst(key: string, rest: string, z: string) returns (x: string)
    requires Bare(key) && Lacks(key, '=') && Separated(z)
    ensures var toks := Tokens(key + "=" + rest + z);
            && toks != [] && toks[0].kind == Arg && toks[0].value == key + "=" + x
            && '=' in toks[0].value && ReadArg(toks[0].value) == (key, StripBlock(x))
  {
    var lead, more := key + "=", rest + z;
    Assoc(lead, rest, z);
    RunSplit(START, lead, more, LookOther);
    RunKey(key);
    LookMattersNot(key);
    var st := Scan(Plain, lead, Arg, []);
    TokenGrows(st, more, LookOther);
    var r := Run(st, more, LookOther);
    GrownFinish(st, r);
    var t := Finish(r)[0];
    x := t.value[|lead|..];
    SplitPrefix(lead, t.value);
    ReadArgAt(key, x);
  }

  lemma GrownFinish(st: Scan, r: Scan)
    requires if r.tokens == [] then Continues(st, Token(r.value, r.kind)) && r.value != ""
             else Continues(st, r.tokens[0])
    ensures Finish(r) != [] && Continues(st, Finish(r)[0])
  {
    if r.tokens == [] {
      var full := r.value + AutoClose(r.mode);
      assert full[..|st.value|] == r.value[..|st.value|];
    } else {
      assert Finish(r)[0] == r.tokens[0];
    }
  }

  lemma OnlyReading(a: seq<(string, string)>, toks: seq<Token>, key: string, v: string)
    requires Only(a, toks) && DistinctKeys(a) && (key, v) in a
    requires toks != [] && toks[0].kind == Arg && '=' in toks[0].value && ReadArg(toks[0].value).0 == key
    ensures ReadArg(toks[0].value) == (key, v)
  {
    assert ArgsOf(toks)[0] == ReadArg(toks[0].value);
  }

  /** The text s is one whole token, which reads as the item does. */
  ghost predicate Taken(it: Item, s: string, t: Token) {
    && Intact(it, s) && SameRead(it.Tok(), t)
    && t.value != "" && Run(START, s, LookOther) == Scan(Plain, t.value, t.kind, [])
  }

  /** How often c occurs in the ends of a block form. */
  function BlockEnds(c: char): nat {
    if c == '<' || c == '>' then 2 else 0
  }

  lemma BlockCounts(body: string, c: char)
    requires c != '\n'
    ensures Count("<<\n" + body + "\n>>", c) == Count(body, c) + BlockEnds(c)
  {
    var form := "<<\n" + body + "\n>>";
    assert form == ['<', '<'] + ("\n" + body + "\n") + ['>', '>'];
    CountAround(['<', '<'], "\n" + body + "\n", ['>', '>'], c);
    CountAround("\n", body, "\n", c);
    assert "\n"[1..] == "";
    CountPair('<', c);
    CountPair('>', c);
  }

  lemma KeyKept(key: string)
    requires Bare(key)
    ensures Keeps(Plain, (key + "=")[0])
  {
    if key != "" {
      BareIsVerbatim(key);
      KeptHead(Plain, key, LookOther);
      assert (key + "=")[0] == key[0];
    }
  }

  /** The counts of a text that begins with a given lead, in terms of what follows it. */
  lemma AfterLead(lead: string, rest: string, text: string)
    requires text == lead + rest
    ensures forall c :: Count(text, c) == Count(lead, c) + Count(rest, c)
  {
    forall c ensures Count(text, c) == Count(lead, c) + Count(rest, c) {
      CountConcat(lead, rest, c);
    }
  }

  lemma BlockRestCounts(body: string, rest: string)
    requires Thin("<<\n" + body + "\n>>", rest)
    ensures forall c :: c != '\n' ==> Count(rest, c) == Count(body, c) + BlockEnds(c)
  {
    forall c | c != '\n' ensures Count(rest, c) == Count(body, c) + BlockEnds(c) {
      ThinKeeps("<<\n" + body + "\n>>", rest, c);
      BlockCounts(body, c);
    }
  }

  lemma StripCounts(x: string)
    ensures forall c :: c != '\n' ==> Count(x, c) == Count(StripBlock(x), c) + if Wrapped(x) then BlockEnds(c) else 0
  {
    forall c | c != '\n'
      ensures Count(x, c) == Count(StripBlock(x), c) + if Wrapped(x) then BlockEnds(c) else 0
    {
      StripCount(x, c);
    }
  }

  /** Text that begins as a block argument, and what is read of it as that argument: the characters are the same. */
  lemma BlockSameCounts(lead: string, body: string, s: string, z: string, x: string)
    requires s != "" && Keeps(Plain, s[0]) && Separated(z)
    requires |s| >= |lead| && s == lead + s[|lead|..] && Thin("<<\n" + body + "\n>>", s[|lead|..])
    requires Tokens(s + z) != [] && Tokens(s + z)[0].value == lead + x && StripBlock(x) == body
    ensures SameCounts(Tokens(s + z)[0].value, s)
  {
    AfterLead(lead, s[|lead|..], s);
    AfterLead(lead, x, Tokens(s + z)[0].value);
    BlockRestCounts(body, s[|lead|..]);
    StripCounts(x);
    OpensCount(s, z);
  }

  /** A block argument with a key on one line: what reads as it can only be its block, short of boundary newlines. */
  lemma BlockForced(key: string, body: string, s: string, z: string, a: seq<(string, string)>)
    requires Fit(BlockArg(key, body)) && Lacks(key, '\n') && Thin(BlockArg(key, body).Text(), s) && Separated(z)
    requires DistinctKeys(a) && (key, body) in a && Only(a, Tokens(s + z))
    ensures Taken(BlockArg(key, body), s, Token(s, Arg))
  {
    var value, lead := "<<\n" + body + "\n>>", key + "=";
    Assoc(key, "=", value);
    ThinAfter(lead, value, s);
    var x := KeyedFirst(key, s[|lead|..], z);
    OnlyReading(a, Tokens(s + z), key, body);
    KeyKept(key);
    assert s[0] == lead[0];
    BlockSameCounts(lead, body, s, z, x);
    WholeToken(s, z);
    ReadsIntact(key, body, s);
    BlockReads(key, body);
  }

  /** An uncut first token has every '<' of the text. */
  lemma OpensCount(s: string, z: string)
    requires s != "" && Keeps(Plain, s[0]) && Separated(z)
    requires Tokens(s + z) != [] && Count(Tokens(s + z)[0].value, ' ') == Count(s, ' ')
    ensures Count(Tokens(s + z)[0].value, '<') == Count(s, '<')
  {
    var st := Run(START, s, LookOther);
    FirstToken(s, z);
    ScanKept(s);
    assert st.value + "" == st.value;
    CountKept(Plain, s, LookOther, '<');
    NoClosers(st.mode, '<');
    CountConcat(st.value, AutoClose(st.mode), '<');
  }

  lemma BareSameValue(lead: string, v: string, s: string, z: string, x: string)
    requires s != "" && Keeps(Plain, s[0]) && Separated(z)
    requires |s| >= |lead| && s == lead + s[|lead|..] && Thin(v, s[|lead|..])
    requires Tokens(s + z) != [] && Tokens(s + z)[0].value == lead + x && StripBlock(x) == v
    ensures x == v && SameCounts(lead + v, s)
  {
    var rest := s[|lead|..];
    AfterLead(lead, rest, s);
    AfterLead(lead, x, Tokens(s + z)[0].value);
    forall c | c != '\n' ensures Count(rest, c) == Count(v, c) {
      ThinKeeps(v, rest, c);
    }
    StripCounts(x);
    OpensCount(s, z);
  }

  /** A bare value: what reads as it can only be the text as written. */
  lemma BareForced(name: string, v: string, s: string, z: string, a: seq<(string, string)>)
    requires Bare(name) && Lacks(name, '=') && Lacks(name, '\n') && !Wrapped(v)
    requires Thin(name + "=" + v, s) && Separated(z)
    requires DistinctKeys(a) && (name, v) in a && Only(a, Tokens(s + z))
    ensures s == name + "=" + v && Run(START, s, LookOther) == Scan(Plain, s, Arg, [])
  {
    var lead := name + "=";
    ThinAfter(lead, v, s);
    var x := KeyedFirst(name, s[|lead|..], z);
    OnlyReading(a, Tokens(s + z), name, v);
    KeyKept(name);
    assert s[0] == lead[0];
    BareSameValue(lead, v, s, z, x);
    WholeToken(s, z);
  }

  /** A value in double quotes: what reads as it can only be the text as written. */
  lemma QuotedForced(name: string, v: string, s: string, z: string, a: seq<(string, string)>)
    requires Bare(name) && Lacks(name, '=') && Lacks(name, '\n') && !Wrapped(v) && Lacks(v, '"')
    requires Thin(name + "=" + (['"'] + v + ['"']), s) && Separated(z)
    requires DistinctKeys(a) && (name, v) in a && Only(a, Tokens(s + z))
    ensures s == name + "=" + (['"'] + v + ['"'])
    ensures Run(START, s, LookOther) == Scan(Plain, name + "=" + v, Arg, [])
  {
    var lead := name + "=";
    var v' := ThinQuoted(lead, v, s);
    var text := ['"'] + v' + ['"'];
    var t := Token(lead + v', Arg);
    RunKey(name);
    LookMattersNot(name);
    RunSplit(START, lead, text, LookOther);
    NoQuoteThin(v, v');
    RunQuoted(Scan(Plain, lead, Arg, []), '"', v', LookOther);
    Advance(s, z, t);
    ReadArgAt(name, v');
    OnlyReading(a, Tokens(s + z), name, v);
    StripCount(v', '<');
    ThinKeeps(v, v', '<');
  }

  lemma ThinQuoted(lead: string, v: string, s: string) returns (v': string)
    requires Thin(lead + (['"'] + v + ['"']), s) && Lacks(lead, '\n')
    ensures s == lead + (['"'] + v' + ['"']) && Thin(v, v')
  {
    Assoc(['"'], v, ['"']);
    ThinAfter(lead, ['"'] + (v + ['"']), s);
    var rest := s[|lead|..];
    ThinAfter(['"'], v + ['"'], rest);
    var more := rest[1..];
    ThinLast(v + ['"'], more);
    assert (v + ['"'])[..|v|] == v;
    v' := more[..|more| - 1];
    assert more == v' + ['"'];
  }

  lemma {:induction false} NoQuoteThin(v: string, v': string)
    requires Thin(v, v') && Lacks(v, '"')
    ensures Lacks(v', '"')
    decreases |v|
  {
    if v != "" {
      if v' != "" && v'[0] == v[0] && Thin(v[1..], v'[1..]) {
        NoQuoteThin(v[1..], v'[1..]);
      } else {
        NoQuoteThin(v[1..], v');
      }
    }
  }
}
