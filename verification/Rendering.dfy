/** A message of each kind as a line of items, and the messages the format can carry. */
module Rendering {
  import opened Strings
  import opened Ordered
  import opened Scanner
  import opened BareText
  import opened Parsing
  import opened ParsingLaws
  import opened Wire
  import opened Items
  import opened Forms

  // ---- The messages the format can carry ----

  ghost predicate SafeArg(arg: (string, string)) {
    Atom(arg.0) && Representable(arg.1)
  }

  ghost predicate SafeFlags(flags: Flags) {
    Sorted(flags) && forall i :: 0 <= i < |flags| ==> PlainWord(flags[i])
  }

  /** A value written in double quotes whatever it is. */
  ghost predicate SafeQuoted(v: string) {
    Lacks(v, '"') && !Wrapped(v)
  }

  /** A value written bare whatever it is. */
  ghost predicate SafeBare(v: string) {
    Bare(v) && !Wrapped(v)
  }

  /** Everything but the values is fit to be written: names, flags, address or topic. */
  ghost predicate Proper(p: Packet) {
    var c := p.content;
    && SortedKeys(c.args) && (forall i :: 0 <= i < |c.args| ==> Atom(c.args[i].0)) && SafeFlags(c.flags)
    && match p
       case RequestPacket(_) =>
         && Bare(c.command) && c.command != "" && c.command[0] != '~'
         && c.command != "witness" && c.command != "publish" && Atom(c.handle)
       case ResponsePacket(_) =>
         Atom(c.command) && Atom(c.handle) && c.handle != "" && Lacks(c.handle, ':')
       case ErrorPacket(_, _, _) =>
         && Atom(c.command) && Atom(c.handle) && c.handle != "" && Lacks(c.handle, ':')
         && !HasKey(c.args, "code") && !HasKey(c.args, "what")
       case WitnessPacket(_, _) =>
         !HasKey(c.args, "body")
       case PublishPacket(_, topic) =>
         Bare(topic) && (topic == "" ==> c.args == [] && c.flags == [])
  }

  /** Every value suits the form in which it is written. */
  ghost predicate ValuesFit(p: Packet) {
    && (forall i :: 0 <= i < |p.content.args| ==> Representable(p.content.args[i].1))
    && match p
       case ErrorPacket(_, code, what) => SafeBare(code) && SafeQuoted(what)
       case WitnessPacket(_, body) => SafeQuoted(body)
       case _ => true
  }

  /** The messages that read back: their text has no carriage return at the end of a line either. */
  ghost predicate Sendable(p: Packet) {
    Proper(p) && ValuesFit(p) && NoCrLf(Serialized(p))
  }

  /** What arrives: the message plus the flags the writer adds, minus the fields the kind does not carry. */
  function Received(p: Packet): Packet {
    var c := p.content;
    match p
    case RequestPacket(_) => p
    case ResponsePacket(_) => ResponsePacket(c.(flags := Insert(c.flags, "ok")))
    case ErrorPacket(_, code, what) =>
      ErrorPacket(c.(flags := Insert(Insert(c.flags, "error"), "node_error")), code, what)
    case WitnessPacket(_, body) => WitnessPacket(c.(command := "", handle := ""), body)
    case PublishPacket(_, topic) => PublishPacket(c.(command := "", handle := ""), topic)
  }

  // ---- A message as items ----

  function Named(name: string, value: string): seq<(string, string)> {
    if value == "" then [] else [(name, value)]
  }

  function AddressItem(c: Content): Item {
    var text := "~" + (c.handle + ":" + c.command);
    Flat(text, Token(text, Handle))
  }

  function OptItem(name: string, it: Item): seq<Item> {
    if name == "" then [] else [it]
  }

  function HandleWord(handle: string): Item {
    Flat("~" + handle, Token("~" + handle, Handle))
  }

  /** name=value, with the value bare. */
  function BareItem(name: string, value: string): Item {
    Flat(name + "=" + value, Token(name + "=" + value, Arg))
  }

  /** name="value": the scanner drops the quotes. */
  function QuotedItem(name: string, value: string): Item {
    Flat(name + "=\"" + value + "\"", Token(name + "=" + value, Arg))
  }

  /** A token that the builder takes by its place, whatever its type. */
  function PlacedItem(text: string): Item {
    Flat(text, Token(text, Run(START, text, LookOther).kind))
  }

  function FirstItem(p: Packet): Item {
    match p
    case RequestPacket(c) => PlacedItem(c.command)
    case ResponsePacket(c) => AddressItem(c)
    case ErrorPacket(c, _, _) => AddressItem(c)
    case WitnessPacket(_, _) => FlagItem("witness")
    case PublishPacket(_, _) => FlagItem("publish")
  }

  /** The items between the first one and the arguments. */
  function NextItems(p: Packet): seq<Item> {
    match p
    case RequestPacket(c) => OptItem(c.handle, HandleWord(c.handle))
    case ResponsePacket(c) => [FlagItem("ok")] + FlagItems(Without(c.flags, "ok"))
    case ErrorPacket(_, code, what) =>
      [FlagItem("error")] + (OptItem(code, BareItem("code", code)) + OptItem(what, QuotedItem("what", what)))
    case WitnessPacket(_, body) => OptItem(body, QuotedItem("body", body))
    case PublishPacket(_, topic) => OptItem(topic, PlacedItem(topic))
  }

  function TailFlags(p: Packet): seq<string> {
    match p
    case ResponsePacket(_) => []
    case ErrorPacket(_, _, _) => p.content.flags + ["node_error"]
    case _ => p.content.flags
  }

  /** The items of a message whose arguments are rendered by argItems. */
  function PacketItems(p: Packet, argItems: seq<Item>): seq<Item> {
    [FirstItem(p)] + (NextItems(p) + (argItems + FlagItems(TailFlags(p))))
  }

  function ArgItems(args: Args): seq<Item> {
    if args == [] then [] else [ArgItem(args[0].0, args[0].1)] + ArgItems(args[1..])
  }

  lemma GoodCons(it: Item, items: seq<Item>)
    requires it.Good() && AllGood(items)
    ensures AllGood([it] + items)
  {
  }

  lemma ReadCons(t: Token, arg: (string, string), tokens: seq<Token>, args: seq<(string, string)>)
    requires ReadsAs(t, arg) && AllReadAs(tokens, args)
    ensures AllReadAs([t] + tokens, [arg] + args)
  {
  }

  lemma {:induction false} ArgItemsText(args: Args)
    ensures Tail(ArgItems(args)) == ArgsText(args)
  {
    if args != [] {
      var (k, v) := args[0];
      ArgItemToken(k, v);
      ArgItemsText(args[1..]);
      ConsText(ArgItem(k, v), ArgItems(args[1..]));
      Assoc(" ", k + "=", Encode(v));
      assert " " + (k + "=") == " " + k + "=";
    }
  }

  lemma {:induction false} ArgItemsRead(args: Args)
    requires forall i :: 0 <= i < |args| ==> SafeArg(args[i])
    ensures AllGood(ArgItems(args)) && AllReadAs(Toks(ArgItems(args)), args)
  {
    if args != [] {
      var (k, v) := args[0];
      var rest := ArgItems(args[1..]);
      assert SafeArg(args[0]);
      ArgItemGood(k, v);
      ArgItemsRead(args[1..]);
      GoodCons(ArgItem(k, v), rest);
      ReadCons(ArgItem(k, v).Tok(), (k, v), Toks(rest), args[1..]);
      ConsText(ArgItem(k, v), rest);
      assert args == [(k, v)] + args[1..];
    }
  }

  lemma ConsText(it: Item, items: seq<Item>)
    ensures Tail([it] + items) == " " + it.Text() + Tail(items)
    ensures Toks([it] + items) == [it.Tok()] + Toks(items)
  {
    assert ([it] + items)[1..] == items;
  }

  lemma {:induction false} FlagItemsText(flags: seq<string>)
    ensures Tail(FlagItems(flags)) == FlagsText(flags)
  {
    if flags != [] {
      FlagItemsText(flags[1..]);
      assert FlagItems(flags)[1..] == FlagItems(flags[1..]);
    }
  }

  lemma {:induction false} FlagItemsGood(flags: seq<string>)
    requires forall i :: 0 <= i < |flags| ==> PlainWord(flags[i])
    ensures AllGood(FlagItems(flags))
  {
    if flags != [] {
      WordItem(flags[0]);
      FlagItemsGood(flags[1..]);
    }
  }

  lemma {:induction false} FlagsTextLast(flags: seq<string>, f: string)
    ensures FlagsText(flags + [f]) == FlagsText(flags) + (" " + f)
  {
    if flags == [] {
      assert flags + [f] == [f] && " " + f + "" == "" + (" " + f);
    } else {
      assert (flags + [f])[1..] == flags[1..] + [f];
      FlagsTextLast(flags[1..], f);
    }
  }

  lemma {:induction false} WithoutSafe(flags: Flags, f: string)
    requires forall i :: 0 <= i < |flags| ==> PlainWord(flags[i])
    ensures forall i :: 0 <= i < |Without(flags, f)| ==> PlainWord(Without(flags, f)[i])
  {
    if flags != [] {
      WithoutSafe(flags[1..], f);
    }
  }

  lemma TailOne(it: Item)
    ensures Tail([it]) == " " + it.Text()
  {
    assert [it][1..] == [];
  }

  lemma TailOpt(name: string, it: Item)
    ensures Tail(OptItem(name, it)) == Optional(name, " " + it.Text())
  {
    TailOne(it);
  }

  /** The text between the first item and the arguments, as the writer appends it. */
  function NextText(p: Packet): string {
    match p
    case RequestPacket(c) => Optional(c.handle, " ~" + c.handle)
    case ResponsePacket(c) => " ok" + FlagsText(Without(c.flags, "ok"))
    case ErrorPacket(_, code, what) =>
      " error" + (Optional(code, " code=" + code) + Optional(what, " what=\"" + what + "\""))
    case WitnessPacket(_, body) => Optional(body, " body=\"" + body + "\"")
    case PublishPacket(_, topic) => Optional(topic, " " + topic)
  }

  lemma ErrorNextText(code: string, what: string)
    ensures Tail(OptItem(code, BareItem("code", code)) + OptItem(what, QuotedItem("what", what)))
         == Optional(code, " code=" + code) + Optional(what, " what=\"" + what + "\"")
  {
    var a, b := OptItem(code, BareItem("code", code)), OptItem(what, QuotedItem("what", what));
    TailAppend(a, b);
    TailOpt(code, BareItem("code", code));
    TailOpt(what, QuotedItem("what", what));
    BareItemText("code", code);
    assert " " + "code" + "=" == " code=";
    QuotedItemText("what", what);
    assert " " + "what" + "=\"" == " what=\"";
  }

  lemma BareItemText(name: string, value: string)
    ensures " " + BareItem(name, value).Text() == (" " + name + "=") + value
  {
  }

  lemma QuotedItemText(name: string, value: string)
    ensures " " + QuotedItem(name, value).Text() == (" " + name + "=\"") + value + "\""
  {
  }

  lemma BodyText(body: string)
    ensures Tail(OptItem(body, QuotedItem("body", body))) == Optional(body, " body=\"" + body + "\"")
  {
    TailOpt(body, QuotedItem("body", body));
    QuotedItemText("body", body);
    assert " " + "body" + "=\"" == " body=\"";
  }

  lemma ResponseNextText(flags: seq<string>)
    ensures Tail([FlagItem("ok")] + FlagItems(flags)) == " ok" + FlagsText(flags)
  {
    ConsText(FlagItem("ok"), FlagItems(flags));
    FlagItemsText(flags);
    assert " " + "ok" == " ok";
  }

  lemma NextItemsText(p: Packet)
    ensures Tail(NextItems(p)) == NextText(p)
  {
    match p
    case RequestPacket(c) =>
      TailOpt(c.handle, HandleWord(c.handle));
      assert " " + ("~" + c.handle) == " ~" + c.handle;
    case ResponsePacket(c) =>
      ResponseNextText(Without(c.flags, "ok"));
    case ErrorPacket(_, code, what) =>
      ErrorNextText(code, what);
      ConsText(FlagItem("error"), OptItem(code, BareItem("code", code)) + OptItem(what, QuotedItem("what", what)));
      assert " " + "error" == " error";
    case WitnessPacket(_, body) =>
      BodyText(body);
    case PublishPacket(_, topic) =>
      TailOpt(topic, PlacedItem(topic));
  }

  lemma PacketItemsLine(p: Packet, argItems: seq<Item>)
    ensures Line(PacketItems(p, argItems))
         == FirstItem(p).Text() + NextText(p) + Tail(argItems) + FlagsText(TailFlags(p))
  {
    NextItemsText(p);
    FlagItemsText(TailFlags(p));
    LineParts(FirstItem(p), NextItems(p), argItems, FlagItems(TailFlags(p)));
  }

  lemma LineParts(first: Item, a: seq<Item>, b: seq<Item>, c: seq<Item>)
    ensures Line([first] + (a + (b + c))) == first.Text() + Tail(a) + Tail(b) + Tail(c)
  {
    assert ([first] + (a + (b + c)))[1..] == a + (b + c);
    TailAppend(a, b + c);
    TailAppend(b, c);
  }

  lemma SerializedIsLine(p: Packet)
    requires p.ResponsePacket? || p.ErrorPacket? ==> p.content.handle != ""
    ensures Serialized(p) == Line(PacketItems(p, ArgItems(p.content.args))) + "\n"
  {
    ArgItemsText(p.content.args);
    PacketItemsLine(p, ArgItems(p.content.args));
    SerializedParts(p);
  }

  lemma SerializedParts(p: Packet)
    requires p.ResponsePacket? || p.ErrorPacket? ==> p.content.handle != ""
    ensures Serialized(p)
         == FirstItem(p).Text() + NextText(p) + ArgsText(p.content.args) + FlagsText(TailFlags(p)) + "\n"
  {
    AddressText(p.content);
    match p
    case ResponsePacket(c) => ResponseText(c);
    case ErrorPacket(_, _, _) => ErrorText(p);
    case _ =>
  }

  lemma ResponseText(c: Content)
    ensures var p := ResponsePacket(c);
            Serialized(p) == Address(c) + NextText(p) + ArgsText(c.args) + FlagsText(TailFlags(p)) + "\n"
  {
    var flags := FlagsText(Without(c.flags, "ok"));
    Assoc(Address(c), " ok", flags);
    var a := Address(c) + " ok" + flags + ArgsText(c.args);
    assert a + "" == a;
  }

  lemma AddressText(c: Content)
    ensures c.handle != "" ==> AddressItem(c).Text() == Address(c)
  {
    assert "~" + (c.handle + ":" + c.command) == "~" + c.handle + ":" + c.command;
  }

  lemma ErrorText(p: Packet)
    requires p.ErrorPacket?
    ensures Serialized(p)
         == Address(p.content) + NextText(p) + ArgsText(p.content.args) + FlagsText(TailFlags(p)) + "\n"
  {
    var c := p.content;
    var a := Address(c) + " error";
    var code, what := Optional(p.code, " code=" + p.code), Optional(p.what, " what=\"" + p.what + "\"");
    FlagsTextLast(c.flags, "node_error");
    assert " " + "node_error" + "\n" == " node_error\n";
    Assoc(Address(c), " error", code + what);
    Assoc(a, code, what);
    var all := a + code + what + ArgsText(c.args);
    Assoc(all, FlagsText(c.flags), " " + "node_error");
    Assoc(all + FlagsText(c.flags), " " + "node_error", "\n");
  }
}
