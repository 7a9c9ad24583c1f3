/** A message's text weighs what its fields do, whatever its values are. */
module MessageWeights {
  import opened Strings
  import opened Ordered
  import opened Wire
  import opened Rendering
  import opened PacketParse
  import opened StreamMessages
  import opened TokenReads
  import opened ParseWeights
  import opened ForcedReads

  /** No value breaks lines. */
  ghost predicate NoBlocks(p: Packet) {
    forall i :: 0 <= i < |p.content.args| ==> '\n' !in p.content.args[i].1
  }

  lemma TildeCount(s: string, c: char)
    requires Weighed(c)
    ensures Count("~" + s, c) == Count(s, c)
  {
    CountConcat("~", s, c);
    assert "~"[1..] == "";
  }

  lemma AddressCount(handle: string, command: string, c: char)
    requires Weighed(c)
    ensures Count("~" + (handle + ":" + command), c) == Count(handle, c) + Count(command, c)
  {
    TildeCount(handle + ":" + command, c);
    CountAround(handle, ":", command, c);
    assert ":"[1..] == "";
  }

  lemma FixedCounts(c: char)
    requires Weighed(c)
    ensures Count("witness", c) == 0 && Count("publish", c) == 0
  {
    NoneCounted("witness", c);
    NoneCounted("publish", c);
  }

  lemma {:induction false} NoneCounted(s: string, c: char)
    requires Lacks(s, c)
    ensures Count(s, c) == 0
    decreases |s|
  {
    if s != "" {
      NoneCounted(s[1..], c);
    }
  }

  // ---- The parts of the text ----

  lemma OneChar(d: char, c: char)
    ensures Count([d], c) == if c == d then 1 else 0
  {
    assert [d][1..] == "";
  }

  lemma EncodeCount(v: string, c: char)
    requires Weighed(c) && (c == '\n' ==> '\n' !in v)
    ensures Count(Encode(v), c) == Count(v, c)
  {
    if '\n' in v {
      BlockCounts(v, c);
    } else {
      OneChar('"', c);
      OneChar('\'', c);
      CountAround("'", v, "'", c);
      CountAround("\"", v, "\"", c);
    }
  }

  lemma ArgCount(m: ((string, string)) -> nat, f: string -> nat, c: char, k: string, v: string)
    requires Weighed(c) && Weighs(m, f, c) && (c == '\n' ==> '\n' !in v)
    ensures Count(ArgText(k, v), c) == m((k, v))
  {
    EncodeCount(v, c);
    CountConcat(" " + k + "=", Encode(v), c);
    CountAround(" ", k, "=", c);
    OneChar(' ', c);
    OneChar('=', c);
  }

  lemma {:induction false} ArgsCount(m: ((string, string)) -> nat, f: string -> nat, c: char, args: Args)
    requires Weighed(c) && Weighs(m, f, c)
    requires c == '\n' ==> forall i :: 0 <= i < |args| ==> '\n' !in args[i].1
    ensures Count(ArgsText(args), c) == SumOf(m, args)
  {
    if args != [] {
      ArgCount(m, f, c, args[0].0, args[0].1);
      ArgsCount(m, f, c, args[1..]);
      CountConcat(ArgText(args[0].0, args[0].1), ArgsText(args[1..]), c);
    }
  }

  lemma {:induction false} FlagsCount(m: ((string, string)) -> nat, f: string -> nat, c: char, flags: seq<string>)
    requires Weighed(c) && Weighs(m, f, c)
    ensures Count(FlagsText(flags), c) == SumOf(f, flags)
  {
    if flags != [] {
      FlagsCount(m, f, c, flags[1..]);
      CountAround(" ", flags[0], FlagsText(flags[1..]), c);
      OneChar(' ', c);
    }
  }

  lemma FixedTexts(c: char)
    requires Weighed(c)
    ensures Count(" ok", c) == 0 && Count(" error", c) == 0 && Count("ok", c) == 0 && Count("error", c) == 0
    ensures Count("\"", c) == 0
  {
    NoneCounted(" ok", c);
    NoneCounted(" error", c);
    NoneCounted("ok", c);
    NoneCounted("error", c);
    NoneCounted("\"", c);
  }

  lemma FieldTexts(c: char)
    requires Weighed(c)
    ensures var n := if c == '=' then 1 else 0;
            Count(" code=", c) == n && Count(" what=\"", c) == n && Count(" body=\"", c) == n
  {
    NamesLackAll(c);
    NamedTexts("code", "", c);
    NamedTexts("what", "\"", c);
    NamedTexts("body", "\"", c);
    assert " " + "code" + "=" + "" == " code=";
    assert " " + "what" + "=" + "\"" == " what=\"";
    assert " " + "body" + "=" + "\"" == " body=\"";
  }

  lemma NamedTexts(name: string, quote: string, c: char)
    requires Weighed(c) && Lacks(name, c) && (quote == "" || quote == "\"")
    ensures Count(" " + name + "=" + quote, c) == if c == '=' then 1 else 0
  {
    CountConcat(" " + name + "=", quote, c);
    CountAround(" ", name, "=", c);
    OneChar(' ', c);
    OneChar('=', c);
    OneChar('"', c);
    NoneCounted(name, c);
  }

  lemma OptCount(name: string, before: string, after: string, c: char)
    ensures Count(Optional(name, before + name + after), c)
         == if name == "" then 0 else Count(before, c) + Count(name, c) + Count(after, c)
    ensures Count(Optional(name, before + name), c) == if name == "" then 0 else Count(before, c) + Count(name, c)
  {
    CountAround(before, name, after, c);
    CountConcat(before, name, c);
  }

  lemma NamedSum(m: ((string, string)) -> nat, f: string -> nat, c: char, name: string, value: string)
    requires Weighed(c) && Weighs(m, f, c) && Lacks(name, c)
    ensures SumOf(m, Named(name, value)) == if value == "" then 0 else Count(value, c) + if c == '=' then 1 else 0
  {
    NoneCounted(name, c);
    if value != "" {
      assert Named(name, value)[1..] == [];
    }
  }

  lemma NamesLackAll(c: char)
    requires Weighed(c)
    ensures Lacks("code", c) && Lacks("what", c) && Lacks("body", c)
  {
  }

  lemma CodeCount(m: ((string, string)) -> nat, f: string -> nat, c: char, code: string)
    requires Weighed(c) && Weighs(m, f, c)
    ensures Count(Optional(code, " code=" + code), c) == SumOf(m, Named("code", code))
  {
    FixedTexts(c);
    FieldTexts(c);
    NamesLackAll(c);
    OptCount(code, " code=", "", c);
    NamedSum(m, f, c, "code", code);
  }

  lemma WhatCount(m: ((string, string)) -> nat, f: string -> nat, c: char, what: string)
    requires Weighed(c) && Weighs(m, f, c)
    ensures Count(Optional(what, " what=\"" + what + "\""), c) == SumOf(m, Named("what", what))
  {
    FixedTexts(c);
    FieldTexts(c);
    NamesLackAll(c);
    OptCount(what, " what=\"", "\"", c);
    NamedSum(m, f, c, "what", what);
  }

  lemma ErrorWordCount(m: ((string, string)) -> nat, f: string -> nat, c: char)
    requires Weighed(c) && Weighs(m, f, c)
    ensures Count(" error", c) == 0 && SumOf(f, ["error"]) == 0
  {
    FixedTexts(c);
    assert ["error"][1..] == [];
  }

  lemma ErrorNextCount(m: ((string, string)) -> nat, f: string -> nat, c: char, code: string, what: string)
    requires Weighed(c) && Weighs(m, f, c)
    ensures Count(" error" + (Optional(code, " code=" + code) + Optional(what, " what=\"" + what + "\"")), c)
         == SumOf(m, Named("code", code) + Named("what", what)) + SumOf(f, ["error"])
  {
    var a, b := Optional(code, " code=" + code), Optional(what, " what=\"" + what + "\"");
    ErrorWordCount(m, f, c);
    CodeCount(m, f, c, code);
    WhatCount(m, f, c, what);
    CountConcat(" error", a + b, c);
    CountConcat(a, b, c);
    SumAppend(m, Named("code", code), Named("what", what));
  }

  lemma ResponseNextCount(m: ((string, string)) -> nat, f: string -> nat, c: char, flags: seq<string>)
    requires Weighed(c) && Weighs(m, f, c)
    ensures Count(" ok" + FlagsText(flags), c) == SumOf(f, ["ok"] + flags)
  {
    FixedTexts(c);
    CountConcat(" ok", FlagsText(flags), c);
    FlagsCount(m, f, c, flags);
    SumAppend(f, ["ok"], flags);
    assert ["ok"][1..] == [];
  }

  lemma BodyCount(m: ((string, string)) -> nat, f: string -> nat, c: char, body: string)
    requires Weighed(c) && Weighs(m, f, c)
    ensures Count(Optional(body, " body=\"" + body + "\""), c) == SumOf(m, Named("body", body))
  {
    FixedTexts(c);
    FieldTexts(c);
    NamesLackAll(c);
    OptCount(body, " body=\"", "\"", c);
    NamedSum(m, f, c, "body", body);
  }

  lemma FixedFirst(c: char)
    requires Weighed(c)
    ensures Count("witness", c) == 0 && Count("publish", c) == 0
  {
    FixedCounts(c);
  }

  lemma RequestCount(m: ((string, string)) -> nat, f: string -> nat, c: char, p: Packet)
    requires Weighed(c) && Weighs(m, f, c) && p.RequestPacket?
    ensures Count(FirstItem(p).Text(), c) + Count(NextText(p), c) == Weight(m, f, AfterNext(p))
  {
    TildeText(c);
    OptCount(p.content.handle, " ~", "", c);
  }

  lemma TildeText(c: char)
    requires Weighed(c)
    ensures Count(" ~", c) == 0
  {
    NoneCounted(" ~", c);
  }

  lemma PublishCount(m: ((string, string)) -> nat, f: string -> nat, c: char, p: Packet)
    requires Weighed(c) && Weighs(m, f, c) && p.PublishPacket?
    ensures Count(FirstItem(p).Text(), c) + Count(NextText(p), c) == Weight(m, f, AfterNext(p))
  {
    FixedFirst(c);
    OneChar(' ', c);
    OptCount(p.topic, " ", "", c);
  }

  lemma WitnessCount(m: ((string, string)) -> nat, f: string -> nat, c: char, p: Packet)
    requires Weighed(c) && Weighs(m, f, c) && p.WitnessPacket?
    ensures Count(FirstItem(p).Text(), c) + Count(NextText(p), c) == Weight(m, f, AfterNext(p))
  {
    FixedFirst(c);
    BodyCount(m, f, c, p.body);
  }

  /** What stands before the arguments weighs what it is read as. */
  lemma HeadCount(p: Packet, m: ((string, string)) -> nat, f: string -> nat, c: char)
    requires Weighed(c) && Weighs(m, f, c)
    ensures Count(FirstItem(p).Text(), c) + Count(NextText(p), c) == Weight(m, f, AfterNext(p))
  {
    match p
    case RequestPacket(_) => RequestCount(m, f, c, p);
    case ResponsePacket(k) =>
      AddressCount(k.handle, k.command, c);
      ResponseNextCount(m, f, c, Without(k.flags, "ok"));
    case ErrorPacket(k, code, what) =>
      AddressCount(k.handle, k.command, c);
      ErrorNextCount(m, f, c, code, what);
    case WitnessPacket(_, _) => WitnessCount(m, f, c, p);
    case PublishPacket(_, _) => PublishCount(m, f, c, p);
  }

  /** A message's text weighs what its fields do, whatever the values are; in newlines, if it has no block. */
  lemma TextWeight(p: Packet, m: ((string, string)) -> nat, f: string -> nat, c: char)
    requires Weighed(c) && Weighs(m, f, c) && (c == '\n' ==> NoBlocks(p))
    ensures Count(MessageText(p), c) == Weight(m, f, ParsedAs(p, p.content.args))
  {
    var first, next, args, flags := FirstItem(p).Text(), NextText(p), ArgsText(p.content.args), FlagsText(TailFlags(p));
    PacketItemsLine(p, ArgItems(p.content.args));
    ArgItemsText(p.content.args);
    CountConcat(first + next + args, flags, c);
    CountAround(first, next, args, c);
    HeadCount(p, m, f, c);
    ArgsCount(m, f, c, p.content.args);
    FlagsCount(m, f, c, TailFlags(p));
    SumAppend(m, AfterNext(p).args, p.content.args);
    SumAppend(f, AfterNext(p).flags, TailFlags(p));
  }

  // ---- Flags hold no '=' ----

  lemma {:induction false} NoneWeighed(flags: seq<string>)
    requires forall i :: 0 <= i < |flags| ==> Lacks(flags[i], '=')
    ensures SumOf(TextEquals, flags) == 0
  {
    if flags != [] {
      NoneCounted(flags[0], '=');
      NoneWeighed(flags[1..]);
    }
  }

  lemma FlagsLack(p: Packet)
    requires Proper(p)
    ensures SumOf(TextEquals, ParsedAs(p, p.content.args).flags) == 0
  {
    TailFlagsSafe(p);
    NoneWeighed(TailFlags(p));
    BeforeLack(p);
    SumAppend(TextEquals, AfterNext(p).flags, TailFlags(p));
  }

  lemma BeforeLack(p: Packet)
    requires Proper(p)
    ensures SumOf(TextEquals, AfterNext(p).flags) == 0
  {
    match p
    case ResponsePacket(c) =>
      WithoutSafe(c.flags, "ok");
      NoneWeighed(["ok"] + Without(c.flags, "ok"));
    case ErrorPacket(_, _, _) => NoneWeighed(["error"]);
    case _ =>
  }
}
