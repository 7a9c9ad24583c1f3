/** Exactly which messages read back from their own text. */
module OneShotExact {
  import opened Strings
  import opened Ordered
  import opened Scanner
  import opened ScannerLaws
  import opened Verbatims
  import opened BareText
  import opened Parsing
  import opened Wire
  import opened Items
  import opened Forms
  import opened Rendering
  import opened PacketParse
  import opened RoundTrip
  import opened Canonical
  import opened StreamMessages
  import opened TokenReads
  import opened MessageTokens
  import opened ParseWeights
  import opened MessageWeights
  import opened ForcedReads
  import opened ForcedArrivals

  // ---- No carriage return is dropped ----

  lemma {:induction false} DropCrCount(s: string)
    ensures Count(DropCr(s), '\r') <= Count(s, '\r')
    ensures Count(DropCr(s), '\r') == Count(s, '\r') ==> NoCrLf(s)
  {
    if s != "" {
      var rest := DropCr(s[1..]);
      DropCrCount(s[1..]);
      assert "" + rest == rest && ([s[0]] + rest)[1..] == rest;
      forall i ensures CrLfAt(s, i) ==> i == 0 || CrLfAt(s[1..], i - 1) {
      }
    }
  }

  lemma NormaliseCount(text: string)
    ensures Count(Normalise(text), '\r') <= Count(text, '\r')
    ensures Count(Normalise(text), '\r') == Count(text, '\r') ==> NoCrLf(text)
  {
    var s := DropCr(text);
    DropCrCount(text);
    if s != "" && s[|s| - 1] == '\n' {
      assert s == s[..|s| - 1] + "\n";
      CountConcat(s[..|s| - 1], "\n", '\r');
      OneChar('\n', '\r');
    }
  }

  lemma FlagsReturnsCovered(flags: seq<string>, flags': seq<string>)
    requires FlagsFound(flags, flags')
    ensures Covers(Returns, flags, flags')
  {
    forall i, j | 0 <= i < j < |flags| && Returns(flags[i]) > 0 ensures flags[i] != flags[j] {
      if flags[i] == flags[j] {
        NoneCounted(flags[i], '\r');
      }
    }
    forall i | 0 <= i < |flags| ensures flags[i] in flags' {
      assert flags[i] in Elements(flags);
    }
  }

  /** What is read back weighs as much in its placed fields. */
  lemma PlacedReadBack(p: Packet, q: Parsed, f: string -> nat, m: ((string, string)) -> nat, c: char)
    requires Weighed(c) && Weighs(m, f, c) && OfKind(p, q) == Received(p)
    ensures var k := ParsedAs(p, p.content.args);
            f(k.capability) + f(k.handle) <= f(q.capability) + f(q.handle)
  {
    FixedFirst(c);
  }

  /** If a message reads back, its text has no carriage return at the end of a line. */
  lemma ReturnsKept(p: Packet, q: Parsed)
    requires Proper(p) && q == Parse(Normalise(Serialized(p))) && OfKind(p, q) == Received(p)
    ensures NoCrLf(Serialized(p))
  {
    var k := ParsedAs(p, p.content.args);
    TextWeight(p, ArgReturns, Returns, '\r');
    ParseWeight(ArgReturns, Returns, '\r', Normalise(Serialized(p)));
    ArgsArrive(p, q);
    FoundCovers(ArgReturns, k.args, q.args);
    CoverSum(ArgReturns, k.args, q.args);
    FlagsArrive(p, q);
    FlagsReturnsCovered(k.flags, q.flags);
    CoverSum(Returns, k.flags, q.flags);
    PlacedReadBack(p, q, Returns, ArgReturns, '\r');
    SerializedIsLine(p);
    CountConcat(MessageText(p), "\n", '\r');
    OneChar('\n', '\r');
    NormaliseCount(Serialized(p));
  }

  // ---- No other argument is read ----

  lemma OnlyItsArgs(p: Packet, q: Parsed)
    requires Proper(p) && q == Parse(MessageText(p)) && OfKind(p, q) == Received(p)
    ensures var a := ParsedAs(p, p.content.args).args;
            DistinctKeys(a) && forall i :: 0 <= i < |q.args| ==> q.args[i] in a
  {
    var k := ParsedAs(p, p.content.args);
    TextWeight(p, ArgEquals, TextEquals, '=');
    ParseWeight(ArgEquals, TextEquals, '=', MessageText(p));
    PlacedReadBack(p, q, TextEquals, ArgEquals, '=');
    FlagsLack(p);
    ArgsArrive(p, q);
    FoundCovers(ArgEquals, k.args, q.args);
    CoverAll(ArgEquals, k.args, q.args);
  }

  // ---- Values that must suit their form ----

  lemma TailBlanks(quote: char, b: string, mode: Mode, c: char)
    requires BracketsKnown(mode) && (c == ' ' || c == '"' || c == '\'')
    requires Kept(Plain, b + [quote], LookOther) + AutoClose(mode) == [quote] + b
    ensures Count(Kept(Plain, b + [quote], LookOther), c) == Count(b + [quote], c)
  {
    NoClosers(mode, c);
    CountConcat(Kept(Plain, b + [quote], LookOther), AutoClose(mode), c);
    CountConcat([quote], b, c);
    CountConcat(b, [quote], c);
  }

  /** A text that ends in a quote is not read as the same text with that quote in front. */
  lemma TailBreaks(quote: char, b: string, mode: Mode)
    requires BracketsKnown(mode) && (quote == '"' || quote == '\'')
    ensures Kept(Plain, b + [quote], LookOther) + AutoClose(mode) != [quote] + b
  {
    if Kept(Plain, b + [quote], LookOther) + AutoClose(mode) == [quote] + b {
      var tail := b + [quote];
      TailBlanks(quote, b, mode, ' ');
      TailBlanks(quote, b, mode, '"');
      TailBlanks(quote, b, mode, '\'');
      KeptDeficit(Plain, tail, LookOther);
      KeptFull(Plain, tail, LookOther);
      assert (tail + AutoClose(mode))[0] == tail[0];
      KeptHead(Plain, tail, LookOther);
    }
  }

  /** Quotes around text that holds the same quote: the scan cannot give the text back. */
  lemma QuoteBreaks(lead: string, quote: char, v: string, z: string)
    requires (quote == '"' || quote == '\'') && Separated(z)
    requires Run(START, lead, LookOther) == Scan(Plain, lead, Arg, []) && lead != "" && Keeps(Plain, lead[0])
    requires var s := lead + ([quote] + v + [quote]);
             Tokens(s + z) != [] && Tokens(s + z)[0].value == lead + v
    ensures Lacks(v, quote)
  {
    if !Lacks(v, quote) {
      var at := IndexOf(v, quote);
      assert v[..|v|] == v;
      var a, b := v[..at], v[at + 1..];
      SplitAt(v, quote, at);
      QuoteTail(lead, quote, v, a, b, z);
      var s := lead + ([quote] + v + [quote]);
      TailBreaks(quote, b, EndMode(Plain, s, LookOther));
    }
  }

  lemma QuoteTail(lead: string, quote: char, v: string, a: string, b: string, z: string)
    requires (quote == '"' || quote == '\'') && Lacks(a, quote) && v == a + [quote] + b && Separated(z)
    requires Run(START, lead, LookOther) == Scan(Plain, lead, Arg, []) && lead != "" && Keeps(Plain, lead[0])
    requires var s := lead + ([quote] + v + [quote]);
             Tokens(s + z) != [] && Tokens(s + z)[0].value == lead + v
    ensures var s := lead + ([quote] + v + [quote]);
            && BracketsKnown(EndMode(Plain, s, LookOther))
            && Kept(Plain, b + [quote], LookOther) + AutoClose(EndMode(Plain, s, LookOther)) == [quote] + b
  {
    var head, tail, s := lead + ([quote] + a + [quote]), b + [quote], lead + ([quote] + v + [quote]);
    QuoteSplit(lead, quote, a, b);
    QuoteCount(lead, quote, v, ' ');
    CountConcat(lead, v, ' ');
    FirstToken(s, z);
    ScanKept(s);
    HeadScan(lead, quote, a, Peek(tail, LookOther));
    TailKept(s, head, tail, lead + a);
    ClosedValue(s, EndMode(Plain, s, LookOther), lead + a, Kept(Plain, tail, LookOther), lead + v);
    Assoc(lead, a, [quote] + b);
    Assoc(a, [quote], b);
    SamePrefix(lead + a, Kept(Plain, tail, LookOther) + AutoClose(EndMode(Plain, s, LookOther)), [quote] + b);
  }

  lemma ClosedValue(s: string, mode: Mode, a: string, b: string, value: string)
    requires Kept(Plain, s, LookOther) == a + b
    requires value == Kept(Plain, s, LookOther) + if mode.Plain? then "" else AutoClose(mode)
    ensures value == a + (b + AutoClose(mode))
  {
    Assoc(a, b, AutoClose(mode));
    assert b + "" == b && a + b + "" == a + b;
  }

  lemma SamePrefix(a: string, x: string, y: string)
    requires a + x == a + y
    ensures x == y
  {
    assert x == (a + x)[|a|..] && y == (a + y)[|a|..];
  }

  lemma QuoteSplit(lead: string, quote: char, a: string, b: string)
    ensures lead + ([quote] + (a + [quote] + b) + [quote]) == lead + ([quote] + a + [quote]) + (b + [quote])
  {
  }

  lemma QuoteCount(lead: string, quote: char, v: string, c: char)
    requires c != quote
    ensures Count(lead + ([quote] + v + [quote]), c) == Count(lead, c) + Count(v, c)
  {
    CountConcat(lead, [quote] + v + [quote], c);
    CountAround([quote], v, [quote], c);
    OneChar(quote, c);
  }

  lemma HeadScan(lead: string, quote: char, a: string, look: Look)
    requires (quote == '"' || quote == '\'') && Lacks(a, quote)
    requires Run(START, lead, LookOther) == Scan(Plain, lead, Arg, [])
    ensures var head := lead + ([quote] + a + [quote]);
            && EndMode(Plain, head, look) == Plain
            && Kept(Plain, head, look) == lead + a
  {
    var text := [quote] + a + [quote];
    var head := lead + text;
    RunSplit(START, lead, text, look);
    RunQuoted(Scan(Plain, lead, Arg, []), quote, a, look);
    RunConserves(START, head, look);
    var kept := Kept(Plain, head, look);
    assert "" + "" + kept == kept && "" + (lead + a) == lead + a;
  }

  /** Once the first quotes are closed, the rest is read from plain mode. */
  lemma TailKept(s: string, head: string, tail: string, kept: string)
    requires s == head + tail
    requires EndMode(Plain, head, Peek(tail, LookOther)) == Plain && Kept(Plain, head, Peek(tail, LookOther)) == kept
    ensures Kept(Plain, s, LookOther) == kept + Kept(Plain, tail, LookOther)
  {
    KeptSplit(Plain, head, tail, LookOther);
    EndModeSplit(Plain, head, tail, LookOther);
  }

  // ---- Each value suits its form if it is read back ----

  lemma FieldFacts(name: string, e: string, v: string, z: string, a: seq<(string, string)>) returns (x: string)
    requires Bare(name) && Lacks(name, '=') && Separated(z)
    requires DistinctKeys(a) && (name, v) in a && Only(a, Tokens(name + "=" + e + z))
    ensures var toks := Tokens(name + "=" + e + z);
            toks != [] && toks[0].kind == Arg && toks[0].value == name + "=" + x && StripBlock(x) == v
    ensures Run(START, name + "=", LookOther) == Scan(Plain, name + "=", Arg, [])
    ensures Keeps(Plain, (name + "=")[0])
    ensures (name + "=" + e)[0] == (name + "=")[0]
  {
    x := KeyedFirst(name, e, z);
    OnlyReading(a, Tokens(name + "=" + e + z), name, v);
    RunKey(name);
    KeyKept(name);
  }

  /** Read back with as many spaces and '<' as written, a value was not stripped of a block that was not written. */
  lemma Unstripped(lead: string, e: string, x: string, z: string)
    requires lead != "" && Keeps(Plain, lead[0]) && Separated(z)
    requires Tokens(lead + e + z) != [] && Tokens(lead + e + z)[0].value == lead + x
    requires Count(e, ' ') == Count(StripBlock(x), ' ')
    ensures Count(x, '<') == Count(e, '<')
  {
    var s := lead + e;
    StripCount(x, ' ');
    CountConcat(lead, e, ' ');
    CountConcat(lead, x, ' ');
    OpensCount(s, z);
    CountConcat(lead, e, '<');
    CountConcat(lead, x, '<');
  }

  /** A value written bare is read back only if it is bare and no block. */
  lemma BareFieldFits(name: string, v: string, z: string, a: seq<(string, string)>)
    requires Bare(name) && Lacks(name, '=') && Separated(z)
    requires DistinctKeys(a) && (name, v) in a && Only(a, Tokens(name + "=" + v + z))
    ensures SafeBare(v)
  {
    var lead := name + "=";
    var x := FieldFacts(name, v, v, z, a);
    Unstripped(lead, v, x, z);
    StripCount(x, '<');
    assert x == v;
    WholeToken(lead + v, z);
    ScanKept(lead + v);
    KeptArg(name, v);
    SamePrefix(lead, Kept(Plain, v, LookOther), v);
    BareIsVerbatim(v);
  }

  /** A value written in double quotes is read back only if it holds none and is no block. */
  lemma QuotedFieldFits(name: string, v: string, z: string, a: seq<(string, string)>)
    requires Bare(name) && Lacks(name, '=') && Separated(z)
    requires DistinctKeys(a) && (name, v) in a && Only(a, Tokens(name + "=" + (['"'] + v + ['"']) + z))
    ensures SafeQuoted(v)
  {
    var lead, e := name + "=", ['"'] + v + ['"'];
    var x := FieldFacts(name, e, v, z, a);
    CountAround(['"'], v, ['"'], ' ');
    CountAround(['"'], v, ['"'], '<');
    OneChar('"', ' ');
    OneChar('"', '<');
    Unstripped(lead, e, x, z);
    StripCount(x, '<');
    assert x == v;
    QuoteBreaks(lead, '"', v, z);
  }

  /** An uncut text that has kept its quotes is closed. */
  lemma ClosedForm(lead: string, e: string, x: string, z: string)
    requires lead != "" && Keeps(Plain, lead[0]) && Separated(z)
    requires Tokens(lead + e + z) != [] && Tokens(lead + e + z)[0].value == lead + x && SameCounts(x, e)
    ensures Run(START, lead + e, LookOther).mode.Plain? && Run(START, lead + e, LookOther).tokens == []
  {
    AfterLead(lead, e, lead + e);
    AfterLead(lead, x, lead + x);
    WholeToken(lead + e, z);
  }

  lemma BlockFits(k: string, v: string, z: string, a: seq<(string, string)>)
    requires Bare(k) && Lacks(k, '=') && Separated(z) && '\n' in v
    requires DistinctKeys(a) && (k, v) in a && Only(a, Tokens(k + "=" + Encode(v) + z))
    ensures Run(START, k + "=" + Encode(v), LookOther).mode.Plain?
    ensures Run(START, k + "=" + Encode(v), LookOther).tokens == []
  {
    var lead, e := k + "=", Encode(v);
    var x := FieldFacts(k, e, v, z, a);
    BlockCounts(v, ' ');
    BlockCounts(v, '<');
    Unstripped(lead, e, x, z);
    StripCount(x, '<');
    assert Wrapped(x);
    forall c | c != '\n' ensures Count(x, c) == Count(e, c) {
      BlockCounts(v, c);
      StripCount(x, c);
    }
    ClosedForm(lead, e, x, z);
  }

  /** A value on one line is read back only if it is representable. */
  lemma LineFits(k: string, v: string, z: string, a: seq<(string, string)>)
    requires Bare(k) && Lacks(k, '=') && Separated(z) && '\n' !in v
    requires DistinctKeys(a) && (k, v) in a && Only(a, Tokens(k + "=" + Encode(v) + z))
    ensures Representable(v)
  {
    if '"' in v {
      SingleFits(k, v, z, a);
    } else if ' ' in v || '\t' in v {
      assert Encode(v) == ['"'] + v + ['"'];
      QuotedFieldFits(k, v, z, a);
    } else {
      BareFieldFits(k, v, z, a);
    }
  }

  lemma SingleFits(k: string, v: string, z: string, a: seq<(string, string)>)
    requires Bare(k) && Lacks(k, '=') && Separated(z)
    requires DistinctKeys(a) && (k, v) in a && Only(a, Tokens(k + "=" + ("'" + v + "'") + z))
    ensures Lacks(v, '\'') && !Wrapped(v)
  {
    var lead, e := k + "=", "'" + v + "'";
    assert e == ['\''] + v + ['\''];
    var x := FieldFacts(k, e, v, z, a);
    CountAround(['\''], v, ['\''], ' ');
    CountAround(['\''], v, ['\''], '<');
    OneChar('\'', ' ');
    OneChar('\'', '<');
    Unstripped(lead, e, x, z);
    StripCount(x, '<');
    assert x == v;
    QuoteBreaks(lead, '\'', v, z);
  }

  /** A value is read back only if it is representable. */
  lemma ValueFits(k: string, v: string, z: string, a: seq<(string, string)>)
    requires Bare(k) && Lacks(k, '=') && Separated(z)
    requires DistinctKeys(a) && (k, v) in a && Only(a, Tokens(k + "=" + Encode(v) + z))
    ensures Representable(v)
  {
    if '\n' in v {
      var x := FieldFacts(k, Encode(v), v, z, a);
      BlockFits(k, v, z, a);
      BlockRepresentable(k, v, z, x);
    } else {
      LineFits(k, v, z, a);
    }
  }

  lemma BlockRepresentable(k: string, v: string, z: string, x: string)
    requires Bare(k) && Lacks(k, '=') && Separated(z) && '\n' in v
    requires var s := k + "=" + Encode(v);
             && Run(START, s, LookOther).mode.Plain? && Run(START, s, LookOther).tokens == []
             && Tokens(s + z) != [] && Tokens(s + z)[0].value == k + "=" + x && StripBlock(x) == v
    ensures Representable(v)
  {
    var s := k + "=" + Encode(v);
    ScanKept(s);
    KeptArg(k, Encode(v));
    KeyKept(k);
    WholeStart(s, z);
    SamePrefix(k + "=", x, Kept(Plain, Encode(v), LookOther));
    FormConverse(v);
  }

  lemma WholeStart(s: string, z: string)
    requires s != "" && Keeps(Plain, s[0]) && Separated(z)
    requires Run(START, s, LookOther).mode.Plain? && Run(START, s, LookOther).tokens == []
    ensures Tokens(s + z) != [] && Tokens(s + z)[0].value == Run(START, s, LookOther).value
  {
    var st := Run(START, s, LookOther);
    SpacesOf(s);
    Advance(s, z, Token(st.value, st.kind));
  }

  // ---- Item after item ----

  lemma GoodAdvance(it: Item, z: string, a: seq<(string, string)>)
    requires it.Good() && Separated(z) && Only(a, Tokens(it.Text() + z))
    ensures Tokens(it.Text() + z) == [it.Tok()] + Tokens(z) && Only(a, Tokens(z))
  {
    Advance(it.Text(), z, it.Tok());
    OnlyAfter(a, it.Tok(), Tokens(z));
  }

  lemma TailSeparated(items: seq<Item>, z: string)
    requires Separated(z)
    ensures Separated(Tail(items) + z)
  {
    if items == [] {
      assert "" + z == z;
    } else {
      assert Tail(items)[0] == ' ';
    }
  }

  lemma TailHead(it: Item, rest: seq<Item>, z: string)
    ensures Tail([it] + rest) + z == " " + (it.Text() + (Tail(rest) + z))
    ensures Tokens(Tail([it] + rest) + z) == Tokens(it.Text() + (Tail(rest) + z))
  {
    assert ([it] + rest)[1..] == rest;
    Assoc(" " + it.Text(), Tail(rest), z);
    Assoc(" ", it.Text(), Tail(rest) + z);
    ExtraSpaces("", it.Text() + (Tail(rest) + z));
  }

  /** Past good items the arguments read are still the message's. */
  lemma {:induction false} PastGood(items: seq<Item>, z: string, a: seq<(string, string)>)
    requires AllGood(items) && Separated(z) && Only(a, Tokens(Tail(items) + z))
    ensures Only(a, Tokens(z))
  {
    if items == [] {
      assert "" + z == z;
    } else {
      var it, rest := items[0], items[1..];
      assert it.Good() && items == [it] + rest;
      TailHead(it, rest, z);
      TailSeparated(rest, z);
      GoodAdvance(it, Tail(rest) + z, a);
      PastGood(rest, z, a);
    }
  }

  /** Every argument of a list that is read back is representable. */
  lemma {:induction false} ArgsFit(args: Args, z: string, a: seq<(string, string)>)
    requires forall i :: 0 <= i < |args| ==> Atom(args[i].0) && args[i] in a
    requires Separated(z) && DistinctKeys(a) && Only(a, Tokens(Tail(ArgItems(args)) + z))
    ensures forall i :: 0 <= i < |args| ==> Representable(args[i].1)
  {
    if args != [] {
      var (k, v) := args[0];
      var it, rest := ArgItem(k, v), ArgItems(args[1..]);
      assert args[0] in a && Atom(args[0].0);
      ArgItemToken(k, v);
      TailHead(it, rest, z);
      TailSeparated(rest, z);
      ValueFits(k, v, Tail(rest) + z, a);
      ArgItemGood(k, v);
      GoodAdvance(it, Tail(rest) + z, a);
      ArgsFit(args[1..], z, a);
    }
  }

  lemma CodeFits(code: string, z: string, a: seq<(string, string)>)
    requires Separated(z) && DistinctKeys(a) && (code != "" ==> ("code", code) in a)
    requires Only(a, Tokens(Tail(OptItem(code, BareItem("code", code))) + z))
    ensures SafeBare(code) && Only(a, Tokens(z))
  {
    if code != "" {
      PlainBare("code");
      NamesLack();
      TailHead(BareItem("code", code), [], z);
      assert [BareItem("code", code)] + [] == [BareItem("code", code)] && "" + z == z;
      BareFieldFits("code", code, z, a);
      BareItemGood("code", code);
      GoodAdvance(BareItem("code", code), z, a);
    } else {
      assert "" + z == z;
    }
  }

  lemma QuotedFits(name: string, value: string, z: string, a: seq<(string, string)>)
    requires Bare(name) && Lacks(name, '=')
    requires Separated(z) && DistinctKeys(a) && (value != "" ==> (name, value) in a)
    requires Only(a, Tokens(Tail(OptItem(value, QuotedItem(name, value))) + z))
    ensures SafeQuoted(value) && Only(a, Tokens(z))
  {
    if value != "" {
      var it := QuotedItem(name, value);
      TailHead(it, [], z);
      assert [it] + [] == [it] && "" + z == z;
      QuotedText(name, value);
      QuotedFieldFits(name, value, z, a);
      QuotedItemGood(name, value);
      GoodAdvance(it, z, a);
    } else {
      assert "" + z == z;
    }
  }

  // ---- A whole message ----

  /** What stands after the first item, cut before the arguments. */
  lemma TextAfterFirst(p: Packet)
    ensures MessageText(p)
         == FirstItem(p).Text() + (Tail(NextItems(p)) + (Tail(ArgItems(p.content.args)) + FlagsText(TailFlags(p))))
    ensures Separated(Tail(NextItems(p)) + (Tail(ArgItems(p.content.args)) + FlagsText(TailFlags(p))))
    ensures Separated(Tail(ArgItems(p.content.args)) + FlagsText(TailFlags(p))) && Separated(FlagsText(TailFlags(p)))
  {
    var args, flags := ArgItems(p.content.args), FlagItems(TailFlags(p));
    TextOfItems(p);
    TailAppend(NextItems(p), args + flags);
    TailAppend(args, flags);
    FlagItemsText(TailFlags(p));
    TailSeparated(flags, "");
    assert Tail(flags) + "" == Tail(flags);
    TailSeparated(args, Tail(flags));
    TailSeparated(NextItems(p), Tail(args) + Tail(flags));
  }

  lemma InPrefix<T>(before: seq<T>, a: seq<T>, x: T)
    requires x in before && forall i :: 0 <= i < |before| ==> before[i] in a
    ensures x in a
  {
  }

  lemma NamedIn(name: string, value: string, rest: seq<(string, string)>, a: seq<(string, string)>)
    requires value != "" && (forall i :: 0 <= i < |Named(name, value) + rest| ==> (Named(name, value) + rest)[i] in a)
    ensures (name, value) in a
  {
    assert (Named(name, value) + rest)[0] == (name, value);
  }

  lemma OwnIn(p: Packet)
    ensures var a := ParsedAs(p, p.content.args).args;
            && (p.ErrorPacket? ==> (p.code != "" ==> ("code", p.code) in a) && (p.what != "" ==> ("what", p.what) in a))
            && (p.WitnessPacket? ==> (p.body != "" ==> ("body", p.body) in a))
  {
    InNamed(p);
    match p
    case ErrorPacket(_, code, what) =>
      if code != "" {
        NamedIn("code", code, Named("what", what), ParsedAs(p, p.content.args).args);
      }
      if what != "" {
        InAppend(Named("code", code), Named("what", what));
        assert Named("what", what)[0] == ("what", what);
        InPrefix(AfterNext(p).args, ParsedAs(p, p.content.args).args, ("what", what));
      }
    case WitnessPacket(_, body) =>
      if body != "" {
        InPrefix(AfterNext(p).args, ParsedAs(p, p.content.args).args, ("body", body));
      }
    case _ =>
  }

  lemma RequestNextGood(handle: string)
    requires Atom(handle)
    ensures AllGood(OptItem(handle, HandleWord(handle)))
  {
    HandleItem(handle);
  }

  lemma ErrorNextFits(code: string, what: string, z: string, a: seq<(string, string)>)
    requires Separated(z) && DistinctKeys(a)
    requires (code != "" ==> ("code", code) in a) && (what != "" ==> ("what", what) in a)
    requires var next := [FlagItem("error")]
                         + (OptItem(code, BareItem("code", code)) + OptItem(what, QuotedItem("what", what)));
             Only(a, Tokens(Tail(next) + z))
    ensures SafeBare(code) && SafeQuoted(what) && Only(a, Tokens(z))
  {
    var c, w := OptItem(code, BareItem("code", code)), OptItem(what, QuotedItem("what", what));
    SimpleWord("error");
    WordItem("error");
    TailHead(FlagItem("error"), c + w, z);
    TailSeparated(c + w, z);
    GoodAdvance(FlagItem("error"), Tail(c + w) + z, a);
    TailAppend(c, w);
    Assoc(Tail(c), Tail(w), z);
    TailSeparated(w, z);
    CodeFits(code, Tail(w) + z, a);
    WhatFits(what, z, a);
  }

  lemma WhatFits(what: string, z: string, a: seq<(string, string)>)
    requires Separated(z) && DistinctKeys(a) && (what != "" ==> ("what", what) in a)
    requires Only(a, Tokens(Tail(OptItem(what, QuotedItem("what", what))) + z))
    ensures SafeQuoted(what) && Only(a, Tokens(z))
  {
    PlainBare("what");
    NamesLack();
    QuotedFits("what", what, z, a);
  }

  lemma BodyFits(body: string, z: string, a: seq<(string, string)>)
    requires Separated(z) && DistinctKeys(a) && (body != "" ==> ("body", body) in a)
    requires Only(a, Tokens(Tail(OptItem(body, QuotedItem("body", body))) + z))
    ensures SafeQuoted(body) && Only(a, Tokens(z))
  {
    PlainBare("body");
    NamesLack();
    QuotedFits("body", body, z, a);
  }

  /** The fields written before the arguments suit their forms if they are read back. */
  lemma NextFits(p: Packet, z: string)
    requires Proper(p) && !p.PublishPacket? && Separated(z)
    requires var a := ParsedAs(p, p.content.args).args; DistinctKeys(a) && Only(a, Tokens(Tail(NextItems(p)) + z))
    ensures Only(ParsedAs(p, p.content.args).args, Tokens(z))
    ensures p.ErrorPacket? ==> SafeBare(p.code) && SafeQuoted(p.what)
    ensures p.WitnessPacket? ==> SafeQuoted(p.body)
  {
    var a := ParsedAs(p, p.content.args).args;
    OwnIn(p);
    match p
    case RequestPacket(c) =>
      RequestNextGood(c.handle);
      PastGood(NextItems(p), z, a);
    case ResponsePacket(c) =>
      ResponseNextGood(c.flags);
      PastGood(NextItems(p), z, a);
    case ErrorPacket(_, code, what) => ErrorNextFits(code, what, z, a);
    case WitnessPacket(_, body) => BodyFits(body, z, a);
  }

  /** The message's arguments and flags as written. */
  function Closing(p: Packet): string {
    Tail(ArgItems(p.content.args)) + FlagsText(TailFlags(p))
  }

  lemma FirstRead(p: Packet)
    requires Proper(p)
    ensures Tokens(MessageText(p)) == [FirstItem(p).Tok()] + Tokens(Tail(NextItems(p)) + Closing(p))
  {
    TextAfterFirst(p);
    FirstItemGood(p);
    Advance(FirstItem(p).Text(), Tail(NextItems(p)) + Closing(p), FirstItem(p).Tok());
  }

  lemma ArgumentsFit(p: Packet)
    requires Proper(p)
    requires var a := ParsedAs(p, p.content.args).args; DistinctKeys(a) && Only(a, Tokens(Closing(p)))
    ensures forall i :: 0 <= i < |p.content.args| ==> Representable(p.content.args[i].1)
  {
    InNamed(p);
    TextAfterFirst(p);
    ArgsFit(p.content.args, FlagsText(TailFlags(p)), ParsedAs(p, p.content.args).args);
  }

  lemma PlainFits(p: Packet, q: Parsed)
    requires Proper(p) && !p.PublishPacket? && q == Parse(MessageText(p))
    requires q.kind == KindOf(p) && OfKind(p, q) == Received(p)
    ensures ValuesFit(p)
  {
    var toks := Tokens(MessageText(p));
    TokensWellTyped(MessageText(p));
    FirstRead(p);
    assert toks[1..] == Tokens(Tail(NextItems(p)) + Closing(p));
    PlainParts(toks);
    OnlyItsArgs(p, q);
    TextAfterFirst(p);
    NextFits(p, Closing(p));
    ArgumentsFit(p);
  }

  lemma TopicRead(p: Packet)
    requires Proper(p) && p.PublishPacket? && p.topic != ""
    ensures Tokens(MessageText(p)) == [FirstItem(p).Tok()] + ([PlacedItem(p.topic).Tok()] + Tokens(Closing(p)))
  {
    var it := PlacedItem(p.topic);
    FirstRead(p);
    TextAfterFirst(p);
    TailHead(it, [], Closing(p));
    assert [it] + [] == [it] && "" + Closing(p) == Closing(p);
    PlacedItemGood(p.topic);
    Advance(it.Text(), Closing(p), it.Tok());
  }

  lemma PublishFits(p: Packet, q: Parsed)
    requires Proper(p) && p.PublishPacket? && q == Parse(MessageText(p))
    requires q.kind == KindOf(p) && OfKind(p, q) == Received(p)
    ensures ValuesFit(p)
  {
    if p.topic != "" {
      TopicArgs(p, q);
      OnlyItsArgs(p, q);
      ArgumentsFit(p);
    }
  }

  lemma TopicArgs(p: Packet, q: Parsed)
    requires Proper(p) && p.PublishPacket? && p.topic != "" && q == Parse(MessageText(p))
    requires q.kind == Publish && q.capability == p.topic
    ensures AllWellTyped(Tokens(Closing(p))) && q.args == ArgsOf(Tokens(Closing(p)))
  {
    var toks := Tokens(MessageText(p));
    TokensWellTyped(MessageText(p));
    TokensWellTyped(Closing(p));
    TopicRead(p);
    DropTwo(FirstItem(p).Tok(), PlacedItem(p.topic).Tok(), Tokens(Closing(p)));
    TopicParts(toks);
  }

  lemma DropTwo<T>(x: T, y: T, xs: seq<T>)
    ensures ([x] + ([y] + xs))[2..] == xs
  {
  }

  /** A message with proper names reads back from its own text, with only the flags its kind always carries added, if
      and only if every value suits the form in which it is written and no line ends in a carriage return. */
  lemma OneShotIff(p: Packet)
    requires Proper(p)
    ensures FromRaw(p, Serialized(p)) == Some(Received(p)) <==> ValuesFit(p) && NoCrLf(Serialized(p))
  {
    if ValuesFit(p) && NoCrLf(Serialized(p)) {
      OneShotRoundTrip(p);
    } else if FromRaw(p, Serialized(p)) == Some(Received(p)) {
      var q := Parse(Normalise(Serialized(p)));
      ReadKind(p, q);
      ReturnsKept(p, q);
      SerializedIsLine(p);
      NormaliseLine(MessageText(p));
      if p.PublishPacket? {
        PublishFits(p, q);
      } else {
        PlainFits(p, q);
      }
    }
  }

  lemma ReadKind(p: Packet, q: Parsed)
    requires q == Parse(Normalise(Serialized(p))) && FromRaw(p, Serialized(p)) == Some(Received(p))
    ensures q.kind == KindOf(p) && OfKind(p, q) == Received(p)
  {
  }
}
