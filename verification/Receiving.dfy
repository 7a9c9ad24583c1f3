/** Building message objects out of parsed ones: the one-shot constructors and the listener's own. */
module Receiving {
  import opened Strings
  import opened Ordered
  import P = Parsing
  import opened Scanner
  import opened Wire
  import opened ParserObjects
  import opened Messages

  /** The message object shows the parsed fields of p. */
  ghost predicate Holds(m: ParsedMessage, p: P.Parsed)
    reads m
  {
    m.capability == p.capability && m.handle == p.handle && m.args == p.args && m.flags == p.flags
  }

  lemma OthersAt(args: seq<(string, string)>, i: nat, names: set<string>)
    requires i < |args|
    ensures Others(args[i..], names) == (if args[i].0 in names then [] else [args[i]]) + Others(args[i + 1..], names)
    ensures args[i].0 in names ==> Others(args[i..], names) == Others(args[i + 1..], names)
  {
    assert args[i..][1..] == args[i + 1..];
  }

  lemma LastValueAt(args: seq<(string, string)>, i: nat, key: string)
    requires i < |args|
    ensures LastValue(args[..i + 1], key) == if args[i].0 == key then args[i].1 else LastValue(args[..i], key)
  {
    assert args[..i + 1][..i] == args[..i];
  }

  lemma PutAllFirst(args: Args, first: (string, string), rest: seq<(string, string)>)
    ensures PutAll(args, [first] + rest) == PutAll(Put(args, first.0, first.1), rest)
  {
    assert ([first] + rest)[1..] == rest;
  }

  method AddArgs(target: Message, m: ParsedMessage, names: set<string>)
    modifies target`args
    ensures target.args == PutAll(old(target.args), Others(m.args, names))
  {
    for i := 0 to |m.args|
      invariant PutAll(target.args, Others(m.args[i..], names)) == PutAll(old(target.args), Others(m.args, names))
    {
      var key, value := m.args[i].0, m.args[i].1;
      OthersAt(m.args, i, names);
      if key !in names {
        PutAllFirst(target.args, m.args[i], Others(m.args[i + 1..], names));
        target.AddArg(key, value);
      }
    }
  }

  method AddFlags(target: Message, m: ParsedMessage)
    modifies target`flags
    ensures target.flags == InsertAll(old(target.flags), m.flags)
  {
    for i := 0 to |m.flags|
      invariant InsertAll(target.flags, m.flags[i..]) == InsertAll(old(target.flags), m.flags)
    {
      assert m.flags[i..][1..] == m.flags[i + 1..];
      target.AddFlag(m.flags[i]);
    }
  }

  method PopulateMessage(target: Message, m: ParsedMessage, skipErrorFields: bool)
    modifies target`command, target`handle, target`args, target`flags
    ensures target.command == m.capability && target.handle == m.handle
    ensures target.args == PutAll(old(target.args), Others(m.args, if skipErrorFields then {"code", "what"} else {}))
    ensures target.flags == InsertAll(old(target.flags), m.flags)
  {
    target.SetCommand(m.capability);
    target.SetHandle(m.handle);
    AddArgs(target, m, if skipErrorFields then {"code", "what"} else {});
    AddFlags(target, m);
  }

  method MakeError(m: ParsedMessage, raw: string, ghost p: P.Parsed) returns (r: ResponseError)
    requires Holds(m, p)
    ensures fresh(r) && fresh(r.base) && r.base.raw == raw && r.Packet() == ErrorOf(p)
  {
    r := new ResponseError();
    PopulateMessage(r.base, m, true);
    r.base.SetRaw(raw);
    // the last code and what, wherever they stand
    for i := 0 to |m.args|
      invariant r.code == LastValue(m.args[..i], "code") && r.what == LastValue(m.args[..i], "what")
      invariant r.base.Snapshot() == ContentOf(p, {"code", "what"}) && r.base.raw == raw
    {
      LastValueAt(m.args, i, "code");
      LastValueAt(m.args, i, "what");
      if m.args[i].0 == "code" {
        r.SetCode(m.args[i].1);
      } else if m.args[i].0 == "what" {
        r.SetWhat(m.args[i].1);
      }
    }
    assert m.args[..|m.args|] == m.args;
  }

  /** The last body goes to its own field, every other argument to the map. */
  method AddWitnessArgs(r: Witness, m: ParsedMessage)
    requires r.body == ""
    modifies r`body, r.base`args
    ensures r.body == LastValue(m.args, "body")
    ensures r.base.args == PutAll(old(r.base.args), Others(m.args, {"body"}))
  {
    ghost var names, goal := {"body"}, PutAll(r.base.args, Others(m.args, {"body"}));
    for i := 0 to |m.args|
      invariant r.body == LastValue(m.args[..i], "body")
      invariant PutAll(r.base.args, Others(m.args[i..], names)) == goal
    {
      var key, value := m.args[i].0, m.args[i].1;
      LastValueAt(m.args, i, "body");
      OthersAt(m.args, i, names);
      if key == "body" {
        r.SetBody(value);
      } else {
        PutAllFirst(r.base.args, m.args[i], Others(m.args[i + 1..], names));
        r.base.AddArg(key, value);
      }
    }
    assert m.args[..|m.args|] == m.args;
  }

  method MakeWitness(m: ParsedMessage, raw: string, ghost p: P.Parsed) returns (r: Witness)
    requires Holds(m, p)
    ensures fresh(r) && fresh(r.base) && r.base.raw == raw && r.Packet() == WitnessOf(p)
  {
    r := new Witness();
    r.base.SetRaw(raw);
    AddWitnessArgs(r, m);
    AddFlags(r.base, m);
  }

  method MakePublish(m: ParsedMessage, raw: string, ghost p: P.Parsed) returns (r: Publish)
    requires Holds(m, p)
    ensures fresh(r) && fresh(r.base) && r.base.raw == raw && r.Packet() == PublishOf(p)
  {
    r := new Publish();
    r.base.SetRaw(raw);
    r.SetTopic(m.capability);
    AddArgs(r.base, m, {});
    AddFlags(r.base, m);
  }

  method MakeRequest(m: ParsedMessage, raw: string, ghost p: P.Parsed) returns (r: Request)
    requires Holds(m, p)
    ensures fresh(r) && fresh(r.base) && r.base.raw == raw && r.Packet() == RequestOf(p)
  {
    r := new Request();
    PopulateMessage(r.base, m, false);
    r.base.SetRaw(raw);
  }

  method MakeResponse(m: ParsedMessage, raw: string, ghost p: P.Parsed) returns (r: Response)
    requires Holds(m, p)
    ensures fresh(r) && fresh(r.base) && r.base.raw == raw && r.Packet() == ResponseOf(p)
  {
    r := new Response();
    PopulateMessage(r.base, m, false);
    r.base.SetRaw(raw);
  }

  // ---- One-shot constructors ----

  method ParseRaw(parser: Parser, raw: string, m: ParsedMessage)
    modifies parser, m
    ensures P.AllWellTyped(Tokens(Normalise(raw)))
    ensures parser.State(m)
         == P.Build(old(parser.State(m)).(props := P.NO_PROPS), 0, Tokens(Normalise(raw)))
  {
    var input := "";
    for i := 0 to |raw|
      invariant input + DropCr(raw[i..]) == DropCr(raw)
      invariant parser.State(m) == old(parser.State(m))
    {
      assert raw[i..][1..] == raw[i + 1..];
      if raw[i] == '\r' && i + 1 < |raw| && raw[i + 1] == '\n' {
        assert "" + DropCr(raw[i + 1..]) == DropCr(raw[i + 1..]);
        continue;
      }
      Assoc(input, [raw[i]], DropCr(raw[i + 1..]));
      input := input + [raw[i]];
    }
    assert raw[|raw|..] == "" && input + "" == input;
    if input != "" && input[|input| - 1] == '\n' {
      input := input[..|input| - 1];
    }
    parser.Parse(input, m);
  }

  method RequestCreateFromRaw(raw: string) returns (r: Request?)
    ensures r == null <==> RequestFromRaw(raw).None?
    ensures r != null ==> fresh(r) && fresh(r.base) && r.base.raw == raw && Some(r.Packet()) == RequestFromRaw(raw)
  {
    var parser := new Parser();
    var m := new ParsedMessage();
    ParseRaw(parser, raw, m);
    r := null;
    if parser.kind == P.Request {
      r := MakeRequest(m, raw, parser.State(m));
    }
  }

  method ResponseCreateFromRaw(raw: string) returns (r: Response?)
    ensures r == null <==> ResponseFromRaw(raw).None?
    ensures r != null ==> fresh(r) && fresh(r.base) && r.base.raw == raw && Some(r.Packet()) == ResponseFromRaw(raw)
  {
    var parser := new Parser();
    var m := new ParsedMessage();
    ParseRaw(parser, raw, m);
    r := null;
    if parser.kind == P.Response {
      r := MakeResponse(m, raw, parser.State(m));
    }
  }

  method ResponseErrorCreateFromRaw(raw: string) returns (r: ResponseError?)
    ensures r == null <==> ErrorFromRaw(raw).None?
    ensures r != null ==> fresh(r) && fresh(r.base) && r.base.raw == raw && Some(r.Packet()) == ErrorFromRaw(raw)
  {
    var parser := new Parser();
    var m := new ParsedMessage();
    ParseRaw(parser, raw, m);
    r := null;
    if parser.kind == P.Response {
      r := MakeError(m, raw, parser.State(m));
    }
  }

  method WitnessCreateFromRaw(raw: string) returns (r: Witness?)
    ensures r == null <==> WitnessFromRaw(raw).None?
    ensures r != null ==> fresh(r) && fresh(r.base) && r.base.raw == raw && Some(r.Packet()) == WitnessFromRaw(raw)
  {
    var parser := new Parser();
    var m := new ParsedMessage();
    ParseRaw(parser, raw, m);
    r := null;
    if parser.kind == P.Witness {
      r := MakeWitness(m, raw, parser.State(m));
    }
  }

  method PublishCreateFromRaw(raw: string) returns (r: Publish?)
    ensures r == null <==> PublishFromRaw(raw).None?
    ensures r != null ==> fresh(r) && fresh(r.base) && r.base.raw == raw && Some(r.Packet()) == PublishFromRaw(raw)
  {
    var parser := new Parser();
    var m := new ParsedMessage();
    ParseRaw(parser, raw, m);
    r := null;
    if parser.kind == P.Publish {
      r := MakePublish(m, raw, parser.State(m));
    }
  }
}
