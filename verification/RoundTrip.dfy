/** Writing a message and reading it back in one shot: what comes back, for every kind. */
module RoundTrip {
  import opened Strings
  import opened Ordered
  import opened Parsing
  import opened ParsingLaws
  import opened Wire
  import opened Items
  import opened Forms
  import opened Rendering
  import opened PacketParse

  // ---- From parsed fields back to a packet ----

  lemma {:induction false} OthersAppend(a: seq<(string, string)>, b: seq<(string, string)>, names: set<string>)
    ensures Others(a + b, names) == Others(a, names) + Others(b, names)
  {
    if a == [] {
      assert a + b == b;
    } else {
      assert (a + b)[1..] == a[1..] + b;
      OthersAppend(a[1..], b, names);
    }
  }

  lemma {:induction false} OthersAll(args: seq<(string, string)>, names: set<string>)
    requires forall i :: 0 <= i < |args| ==> args[i].0 !in names
    ensures Others(args, names) == args
  {
    if args != [] {
      OthersAll(args[1..], names);
    }
  }

  lemma {:induction false} LastValueSkips(a: seq<(string, string)>, b: seq<(string, string)>, key: string)
    requires !HasKey(b, key)
    ensures LastValue(a + b, key) == LastValue(a, key)
  {
    if b == [] {
      assert a + b == a;
    } else {
      var last := |b| - 1;
      assert b[last].0 != key;
      assert (a + b)[..|a + b| - 1] == a + b[..last];
      assert forall i :: 0 <= i < last ==> b[..last][i] == b[i];
      LastValueSkips(a, b[..last], key);
    }
  }

  lemma InsertAllRebuilds(flags: Flags)
    requires Sorted(flags)
    ensures InsertAll([], flags) == flags
  {
    InsertAllSorted([], flags);
    FlagsCanonical(InsertAll([], flags), flags);
  }

  lemma OkFlags(flags: Flags)
    requires Sorted(flags)
    ensures InsertAll([], ["ok"] + Without(flags, "ok") + []) == Insert(flags, "ok")
  {
    var fs := ["ok"] + Without(flags, "ok") + [];
    InsertAllSorted([], fs);
    InsertSorted(flags, "ok");
    WithoutElements(flags, "ok");
    assert Elements(fs) == {"ok"} + Elements(Without(flags, "ok"));
    FlagsCanonical(InsertAll([], fs), Insert(flags, "ok"));
  }

  lemma {:induction false} WithoutElements(flags: Flags, f: string)
    ensures Elements(Without(flags, f)) == Elements(flags) - {f}
  {
    if flags != [] {
      WithoutElements(flags[1..], f);
      assert Elements(flags) == {flags[0]} + Elements(flags[1..]);
      var rest := Without(flags[1..], f);
      assert Elements([flags[0]] + rest) == {flags[0]} + Elements(rest);
    }
  }

  lemma ElementsAround(f: string, flags: seq<string>, g: string)
    ensures Elements([f] + (flags + [g])) == Elements(flags) + {f} + {g}
  {
  }

  lemma ErrorFlags(flags: Flags)
    requires Sorted(flags)
    ensures InsertAll([], ["error"] + (flags + ["node_error"])) == Insert(Insert(flags, "error"), "node_error")
  {
    var fs := ["error"] + (flags + ["node_error"]);
    InsertAllSorted([], fs);
    InsertSorted(flags, "error");
    InsertSorted(Insert(flags, "error"), "node_error");
    ElementsAround("error", flags, "node_error");
    FlagsCanonical(InsertAll([], fs), Insert(Insert(flags, "error"), "node_error"));
  }

  /** The packet of p's kind made from parsed fields. */
  function OfKind(p: Packet, q: Parsed): Packet {
    match p
    case RequestPacket(_) => RequestOf(q)
    case ResponsePacket(_) => ResponseOf(q)
    case ErrorPacket(_, _, _) => ErrorOf(q)
    case WitnessPacket(_, _) => WitnessOf(q)
    case PublishPacket(_, _) => PublishOf(q)
  }

  function KindOf(p: Packet): Kind {
    match p
    case RequestPacket(_) => Request
    case ResponsePacket(_) => Response
    case ErrorPacket(_, _, _) => Response
    case WitnessPacket(_, _) => Witness
    case PublishPacket(_, _) => Publish
  }

  function WithArgs(p: Packet, args: Args): Packet {
    p.(content := p.content.(args := args))
  }

  /** The kind's own fields are not also arguments. */
  ghost predicate OwnFieldsApart(p: Packet, args: Args) {
    match p
    case ErrorPacket(_, _, _) => !HasKey(args, "code") && !HasKey(args, "what")
    case WitnessPacket(_, _) => !HasKey(args, "body")
    case _ => true
  }

  lemma OthersNamed(name: string, value: string, names: set<string>)
    requires name in names
    ensures Others(Named(name, value), names) == []
  {
    assert Named(name, value)[..] == Named(name, value);
  }

  lemma ErrorArgsReadBack(code: string, what: string, args: Args)
    requires SortedKeys(args) && !HasKey(args, "code") && !HasKey(args, "what")
    ensures PutAll([], Others(Named("code", code) + Named("what", what) + args, {"code", "what"})) == args
  {
    var names := {"code", "what"};
    var c, w := Named("code", code), Named("what", what);
    OthersAppend(c + w, args, names);
    OthersAppend(c, w, names);
    OthersAll(args, names);
    OthersNamed("code", code, names);
    OthersNamed("what", what, names);
    assert [] + [] + args == args;
    PutAllRebuilds([], args);
  }

  lemma LastOfNamed(before: seq<(string, string)>, name: string, value: string)
    requires !HasKey(before, name)
    ensures LastValue(before + Named(name, value), name) == value
  {
    if value == "" {
      LastValueSkips([], before, name);
      assert before + [] == before == [] + before;
    } else {
      assert (before + [(name, value)])[..|before|] == before;
    }
  }

  lemma ErrorReadsBack(code: string, what: string, args: Args)
    requires SortedKeys(args) && !HasKey(args, "code") && !HasKey(args, "what")
    ensures var all := Named("code", code) + Named("what", what) + args;
            && PutAll([], Others(all, {"code", "what"})) == args
            && LastValue(all, "code") == code && LastValue(all, "what") == what
  {
    var c, w := Named("code", code), Named("what", what);
    ErrorArgsReadBack(code, what, args);
    LastValueSkips(c + w, args, "code");
    LastValueSkips(c, w, "code");
    LastOfNamed([], "code", code);
    assert [] + c == c;
    LastValueSkips(c + w, args, "what");
    LastOfNamed(c, "what", what);
  }

  lemma WitnessReadsBack(body: string, args: Args)
    requires SortedKeys(args) && !HasKey(args, "body")
    ensures var all := Named("body", body) + args;
            && PutAll([], Others(all, {"body"})) == args && LastValue(all, "body") == body
  {
    var b := Named("body", body);
    OthersAppend(b, args, {"body"});
    OthersAll(args, {"body"});
    assert Others(b, {"body"}) == [] && [] + args == args;
    PutAllRebuilds([], args);
    LastValueSkips(b, args, "body");
  }

  lemma PlainReadsBack(args: Args)
    requires SortedKeys(args)
    ensures PutAll([], Others([] + args, {})) == args
  {
    OthersAll(args, {});
    assert [] + args == args;
    PutAllRebuilds([], args);
  }

  lemma FieldsReadBack(p: Packet, args: Args)
    requires SortedKeys(args) && Sorted(p.content.flags) && OwnFieldsApart(p, args)
    ensures OfKind(p, ParsedAs(p, args)) == Received(WithArgs(p, args))
  {
    var flags := p.content.flags;
    match p
    case ResponsePacket(_) =>
      PlainReadsBack(args);
      OkFlags(flags);
    case ErrorPacket(_, code, what) =>
      ErrorReadsBack(code, what, args);
      ErrorFlags(flags);
    case WitnessPacket(_, body) =>
      WitnessReadsBack(body, args);
      InsertAllRebuilds(flags);
      assert [] + flags == flags;
    case _ =>
      PlainReadsBack(args);
      InsertAllRebuilds(flags);
      assert [] + flags == flags;
  }

  lemma PropsDoNotMatter(p: Packet, q: Parsed)
    ensures OfKind(p, q) == OfKind(p, SansProps(q)) && q.kind == SansProps(q).kind
  {
  }

  // ---- Line endings ----

  lemma MessageCrClean(line: string)
    requires NoCrLf(line + "\n")
    ensures CrClean(line)
  {
    var text := line + "\n";
    assert line != "" ==> !CrLfAt(text, |line| - 1);
    forall i ensures !CrLfAt(line, i) {
      assert CrLfAt(line, i) ==> CrLfAt(text, i);
    }
  }

  /** No field holds a carriage return. */
  ghost predicate ReturnFree(p: Packet) {
    var c := p.content;
    && Lacks(c.command, '\r') && Lacks(c.handle, '\r')
    && (forall i :: 0 <= i < |c.args| ==> Lacks(c.args[i].0, '\r') && Lacks(c.args[i].1, '\r'))
    && (forall i :: 0 <= i < |c.flags| ==> Lacks(c.flags[i], '\r'))
    && match p
       case ErrorPacket(_, code, what) => Lacks(code, '\r') && Lacks(what, '\r')
       case WitnessPacket(_, body) => Lacks(body, '\r')
       case PublishPacket(_, topic) => Lacks(topic, '\r')
       case _ => true
  }

  lemma EncodeReturnFree(v: string)
    requires Lacks(v, '\r')
    ensures Lacks(Encode(v), '\r')
  {
  }

  lemma {:induction false} ArgsReturnFree(args: Args)
    requires forall i :: 0 <= i < |args| ==> Lacks(args[i].0, '\r') && Lacks(args[i].1, '\r')
    ensures Lacks(ArgsText(args), '\r')
  {
    if args != [] {
      EncodeReturnFree(args[0].1);
      ArgsReturnFree(args[1..]);
    }
  }

  lemma {:induction false} FlagsReturnFree(flags: seq<string>)
    requires forall i :: 0 <= i < |flags| ==> Lacks(flags[i], '\r')
    ensures Lacks(FlagsText(flags), '\r')
  {
    if flags != [] {
      FlagsReturnFree(flags[1..]);
    }
  }

  lemma {:induction false} WithoutReturnFree(flags: Flags, f: string)
    requires forall i :: 0 <= i < |flags| ==> Lacks(flags[i], '\r')
    ensures forall i :: 0 <= i < |Without(flags, f)| ==> Lacks(Without(flags, f)[i], '\r')
  {
    if flags != [] {
      WithoutReturnFree(flags[1..], f);
    }
  }

  lemma Free(a: string, b: string)
    requires Lacks(a, '\r') && Lacks(b, '\r')
    ensures Lacks(a + b, '\r')
  {
  }

  lemma OptFree(name: string, before: string, after: string)
    requires Lacks(name, '\r') && Lacks(before, '\r') && Lacks(after, '\r')
    ensures Lacks(Optional(name, before + name + after), '\r') && Lacks(Optional(name, before + name), '\r')
  {
  }

  lemma FixedFree()
    ensures Lacks(" code=", '\r') && Lacks(" what=\"", '\r') && Lacks(" body=\"", '\r') && Lacks("\"", '\r')
    ensures Lacks(" error", '\r') && Lacks(" ok", '\r') && Lacks(" ~", '\r') && Lacks(" ", '\r')
    ensures Lacks("witness", '\r') && Lacks("publish", '\r') && Lacks("node_error", '\r')
  {
  }

  lemma ErrorFree(code: string, what: string)
    requires Lacks(code, '\r') && Lacks(what, '\r')
    ensures Lacks(" error" + (Optional(code, " code=" + code) + Optional(what, " what=\"" + what + "\"")), '\r')
  {
    FixedFree();
    OptFree(code, " code=", "");
    OptFree(what, " what=\"", "\"");
    Free(Optional(code, " code=" + code), Optional(what, " what=\"" + what + "\""));
    Free(" error", Optional(code, " code=" + code) + Optional(what, " what=\"" + what + "\""));
  }

  lemma NextReturnFree(p: Packet)
    requires ReturnFree(p)
    ensures Lacks(NextText(p), '\r')
  {
    FixedFree();
    match p
    case RequestPacket(c) => OptFree(c.handle, " ~", "");
    case ResponsePacket(c) =>
      WithoutReturnFree(c.flags, "ok");
      FlagsReturnFree(Without(c.flags, "ok"));
      Free(" ok", FlagsText(Without(c.flags, "ok")));
    case ErrorPacket(_, code, what) => ErrorFree(code, what);
    case WitnessPacket(_, body) => OptFree(body, " body=\"", "\"");
    case PublishPacket(_, topic) => OptFree(topic, " ", "");
  }

  lemma FirstReturnFree(p: Packet)
    requires ReturnFree(p)
    ensures Lacks(FirstItem(p).Text(), '\r')
  {
    FixedFree();
  }

  lemma TailReturnFree(p: Packet)
    requires ReturnFree(p)
    ensures Lacks(FlagsText(TailFlags(p)), '\r')
  {
    FixedFree();
    FlagsReturnFree(TailFlags(p));
  }

  /** Then the text has no line ending but its newlines. */
  lemma ReturnFreeText(p: Packet)
    requires ReturnFree(p) && (p.ResponsePacket? || p.ErrorPacket? ==> p.content.handle != "")
    ensures NoCrLf(Serialized(p))
  {
    var first, next, args := FirstItem(p).Text(), NextText(p), ArgsText(p.content.args);
    SerializedParts(p);
    FirstReturnFree(p);
    NextReturnFree(p);
    ArgsReturnFree(p.content.args);
    TailReturnFree(p);
    Free(first, next);
    Free(first + next, args);
    Free(first + next + args, FlagsText(TailFlags(p)));
    Free(first + next + args + FlagsText(TailFlags(p)), "\n");
    NoReturn(Serialized(p));
  }

  lemma NoReturn(s: string)
    requires Lacks(s, '\r')
    ensures NoCrLf(s)
  {
  }

  lemma NormaliseLine(line: string)
    requires NoCrLf(line + "\n")
    ensures Normalise(line + "\n") == line
  {
    DropCrClean(line + "\n");
  }

  // ---- The one-shot round trip ----

  lemma SendableApart(p: Packet)
    requires Proper(p)
    ensures OwnFieldsApart(p, p.content.args) && SortedKeys(p.content.args) && Sorted(p.content.flags)
    ensures p.ResponsePacket? || p.ErrorPacket? ==> p.content.handle != ""
  {
  }

  /** Reading back what was written gives the message, plus only the flags its kind always carries. */
  lemma OneShotRoundTrip(p: Packet)
    requires Sendable(p)
    ensures FromRaw(p, Serialized(p)) == Some(Received(p))
  {
    var args := p.content.args;
    var line := Line(PacketItems(p, ArgItems(args)));
    SendableApart(p);
    SerializedIsLine(p);
    NormaliseLine(line);
    assert forall i :: 0 <= i < |args| ==> SafeArg(args[i]);
    ArgItemsRead(args);
    PacketParses(p, ArgItems(args), args);
    PropsDoNotMatter(p, Parse(line));
    FieldsReadBack(p, args);
    assert WithArgs(p, args) == p;
    KindParsed(p, args);
  }

  lemma KindParsed(p: Packet, args: seq<(string, string)>)
    ensures ParsedAs(p, args).kind == KindOf(p)
  {
  }
}
