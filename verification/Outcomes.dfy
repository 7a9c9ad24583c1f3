/** What a parsed message is delivered as, field by field, in terms of what was parsed. */
module Outcomes {
  import opened Ordered
  import opened Parsing
  import opened ParsingLaws
  import opened Wire
  import opened RoundTrip
  import opened Framing
  import opened Dispatch

  // ---- The last value given for a key ----

  predicate LastAt(args: seq<(string, string)>, key: string, i: int) {
    0 <= i < |args| && args[i].0 == key && forall j :: i < j < |args| ==> args[j].0 != key
  }

  /** value is the one given last for key. */
  ghost predicate IsLast(args: seq<(string, string)>, key: string, value: string) {
    exists i :: LastAt(args, key, i) && args[i].1 == value
  }

  lemma HasKeyCons(first: (string, string), rest: seq<(string, string)>, key: string)
    ensures HasKey([first] + rest, key) <==> first.0 == key || HasKey(rest, key)
  {
    var all := [first] + rest;
    assert all[0] == first && forall i :: 0 <= i < |rest| ==> all[i + 1] == rest[i];
    assert forall i :: 0 < i < |all| ==> all[i] == rest[i - 1];
  }

  lemma LastCons(first: (string, string), rest: seq<(string, string)>, key: string, value: string)
    ensures IsLast([first] + rest, key, value)
       <==> if HasKey(rest, key) then IsLast(rest, key, value) else first == (key, value)
  {
    var all := [first] + rest;
    forall i | 0 <= i < |rest| ensures LastAt(all, key, i + 1) <==> LastAt(rest, key, i) {
      assert all[i + 1] == rest[i];
      assert forall j :: i < j < |rest| ==> all[j + 1] == rest[j];
      assert forall j :: i + 1 < j < |all| ==> all[j] == rest[j - 1];
    }
    assert LastAt(all, key, 0) <==> first.0 == key && !HasKey(rest, key) by {
      assert forall j :: 0 < j < |all| ==> all[j] == rest[j - 1];
      assert forall j :: 0 <= j < |rest| ==> rest[j] == all[j + 1];
    }
    if i :| LastAt(all, key, i) && all[i].1 == value {
      assert i > 0 ==> LastAt(rest, key, i - 1);
    }
    if i :| LastAt(rest, key, i) && rest[i].1 == value {
      assert LastAt(all, key, i + 1);
    }
  }

  lemma LastHasKey(args: seq<(string, string)>, key: string, value: string)
    requires IsLast(args, key, value)
    ensures HasKey(args, key)
  {
  }

  lemma LastKept(args: seq<(string, string)>, key: string, value: string)
    requires args != [] && args[|args| - 1].0 != key
    ensures HasKey(args, key) <==> HasKey(args[..|args| - 1], key)
    ensures IsLast(args[..|args| - 1], key, value) ==> IsLast(args, key, value)
  {
    var init := args[..|args| - 1];
    assert forall i :: 0 <= i < |init| ==> init[i] == args[i];
    if i :| LastAt(init, key, i) && init[i].1 == value {
      assert LastAt(args, key, i);
    }
  }

  lemma {:induction false} LastValueIsLast(args: seq<(string, string)>, key: string)
    ensures if HasKey(args, key) then IsLast(args, key, LastValue(args, key)) else LastValue(args, key) == ""
  {
    if args != [] {
      var last := |args| - 1;
      if args[last].0 == key {
        assert LastAt(args, key, last);
      } else {
        LastValueIsLast(args[..last], key);
        LastKept(args, key, LastValue(args[..last], key));
      }
    }
  }

  lemma {:induction false} OthersLast(args: seq<(string, string)>, names: set<string>, key: string, value: string)
    ensures HasKey(Others(args, names), key) <==> key !in names && HasKey(args, key)
    ensures IsLast(Others(args, names), key, value) <==> key !in names && IsLast(args, key, value)
  {
    if args != [] {
      var first, rest := args[0], args[1..];
      assert args == [first] + rest;
      OthersLast(rest, names, key, value);
      HasKeyCons(first, rest, key);
      LastCons(first, rest, key, value);
      HasKeyCons(first, Others(rest, names), key);
      LastCons(first, Others(rest, names), key, value);
      assert [] + Others(rest, names) == Others(rest, names);
      if IsLast(rest, key, value) {
        LastHasKey(rest, key, value);
      }
    }
  }

  predicate Maps(m: map<string, string>, key: string, value: string) {
    key in m && m[key] == value
  }

  lemma {:induction false} PutAllLast(args: Args, more: seq<(string, string)>, key: string, value: string)
    requires SortedKeys(args)
    ensures SortedKeys(PutAll(args, more))
    ensures Maps(ToMap(PutAll(args, more)), key, value)
       <==> if HasKey(more, key) then IsLast(more, key, value) else Maps(ToMap(args), key, value)
    decreases more
  {
    if more != [] {
      var first, rest := more[0], more[1..];
      assert more == [first] + rest;
      PutSorted(args, first.0, first.1);
      PutAllLast(Put(args, first.0, first.1), rest, key, value);
      HasKeyCons(first, rest, key);
      LastCons(first, rest, key, value);
    }
  }

  lemma {:induction false} MemberIsMapped(args: Args, key: string, value: string)
    requires SortedKeys(args)
    ensures (key, value) in args <==> Maps(ToMap(args), key, value)
  {
    if args != [] {
      MemberIsMapped(args[1..], key, value);
      FirstKeyFresh(args);
      assert args == [args[0]] + args[1..];
    }
  }

  // ---- The fields of a packet ----

  /** The arguments not kept apart, each key with its last value, and the flags. */
  ghost predicate FieldsOf(c: Content, p: Parsed, apart: set<string>) {
    && SortedKeys(c.args) && Sorted(c.flags)
    && (forall key, value :: (key, value) in c.args <==> key !in apart && IsLast(p.args, key, value))
    && (forall f :: f in c.flags <==> f in p.flags)
  }

  /** The last value of an argument with a field of its own; empty if there is none. */
  ghost predicate OwnField(p: Parsed, name: string, value: string) {
    if HasKey(p.args, name) then IsLast(p.args, name, value) else value == ""
  }

  ghost predicate Addressed(c: Content, command: string, handle: string) {
    c.command == command && c.handle == handle
  }

  ghost predicate TellsRequest(q: Packet, p: Parsed) {
    q.RequestPacket? && Addressed(q.content, p.capability, p.handle) && FieldsOf(q.content, p, {})
  }

  ghost predicate TellsResponse(q: Packet, p: Parsed) {
    q.ResponsePacket? && Addressed(q.content, p.capability, p.handle) && FieldsOf(q.content, p, {})
  }

  ghost predicate TellsError(q: Packet, p: Parsed) {
    && q.ErrorPacket? && Addressed(q.content, p.capability, p.handle) && FieldsOf(q.content, p, {"code", "what"})
    && OwnField(p, "code", q.code) && OwnField(p, "what", q.what)
  }

  /** A witness and a publish keep neither command nor handle. */
  ghost predicate TellsWitness(q: Packet, p: Parsed) {
    q.WitnessPacket? && Addressed(q.content, "", "") && FieldsOf(q.content, p, {"body"}) && OwnField(p, "body", q.body)
  }

  ghost predicate TellsPublish(q: Packet, p: Parsed) {
    q.PublishPacket? && Addressed(q.content, "", "") && FieldsOf(q.content, p, {}) && q.topic == p.capability
  }

  lemma ContentFields(p: Parsed, apart: set<string>)
    ensures FieldsOf(ContentOf(p, apart), p, apart)
  {
    var c := ContentOf(p, apart);
    InsertAllSorted([], p.flags);
    assert forall f :: f in c.flags <==> f in Elements(c.flags);
    assert forall f :: f in p.flags <==> f in Elements(p.flags);
    PutAllSorted([], Others(p.args, apart));
    forall key, value ensures (key, value) in c.args <==> key !in apart && IsLast(p.args, key, value) {
      PutAllLast([], Others(p.args, apart), key, value);
      OthersLast(p.args, apart, key, value);
      MemberIsMapped(c.args, key, value);
      if IsLast(p.args, key, value) {
        LastHasKey(p.args, key, value);
      }
    }
  }

  /** What the constructors make of any parsed message. */
  lemma PacketsTell(p: Parsed)
    ensures TellsRequest(RequestOf(p), p) && TellsResponse(ResponseOf(p), p) && TellsError(ErrorOf(p), p)
    ensures TellsWitness(WitnessOf(p), p) && TellsPublish(PublishOf(p), p)
  {
    ContentFields(p, {});
    ContentFields(p, {"code", "what"});
    ContentFields(p, {"body"});
    LastValueIsLast(p.args, "code");
    LastValueIsLast(p.args, "what");
    LastValueIsLast(p.args, "body");
  }

  /** The packet tells p as a message of p's kind; a response without "ok" is an error. */
  ghost predicate Tells(q: Packet, p: Parsed) {
    match p.kind
    case Request => TellsRequest(q, p)
    case Response => if "ok" in p.flags then TellsResponse(q, p) else TellsError(q, p)
    case Witness => TellsWitness(q, p)
    case Publish => TellsPublish(q, p)
    case Unknown => false
  }

  /** An empty frame is dropped, any other delivered if its text is well formed and otherwise rejected. */
  lemma OutcomeKinds(frame: Frame)
    ensures OutcomeOf(frame).Blank? <==> frame.line == ""
    ensures OutcomeOf(frame).Delivered? <==> frame.line != "" && WellFormed(Parse(frame.line))
    ensures OutcomeOf(frame).Rejected? <==> frame.line != "" && !WellFormed(Parse(frame.line))
  {
    ValidateIsGrammar(frame.line);
  }

  /** What is delivered is of the parsed kind, an error exactly if "ok" is not among the flags of a response, and has
      the fields that were parsed, the last value of every argument winning. */
  lemma DeliveredTells(frame: Frame)
    requires frame.line != "" && WellFormed(Parse(frame.line))
    ensures var p, outcome := Parse(frame.line), OutcomeOf(frame);
            && outcome.Delivered? && outcome.raw == frame.raw && Tells(outcome.packet, p)
            && (outcome.packet.ErrorPacket? <==> p.kind == Response && "ok" !in p.flags)
            && (outcome.packet.ResponsePacket? <==> p.kind == Response && "ok" in p.flags)
            && (outcome.packet.RequestPacket? <==> p.kind == Request)
            && (outcome.packet.WitnessPacket? <==> p.kind == Witness)
            && (outcome.packet.PublishPacket? <==> p.kind == Publish)
  {
    OutcomeKinds(frame);
    PacketsTell(Parse(frame.line));
  }

  /** A rejection reports the code, the text of the first rule broken and the frame's text. */
  lemma RejectedNamesRule(frame: Frame, text: string)
    requires frame.line != ""
    ensures OutcomeOf(frame) == Rejected("Malformed", text, frame.line) <==> Breaks(Parse(frame.line), text)
    ensures OutcomeOf(frame).Rejected? ==>
              OutcomeOf(frame).code == "Malformed" && OutcomeOf(frame).line == frame.line
              && Breaks(Parse(frame.line), OutcomeOf(frame).what)
  {
    RejectionNamesRule(frame.line, text);
    if OutcomeOf(frame).Rejected? {
      RejectionNamesRule(frame.line, OutcomeOf(frame).what);
    }
  }

  /** An accepted error response has both its code and its text, the last of each. */
  lemma DeliveredError(frame: Frame)
    requires OutcomeOf(frame).Delivered? && OutcomeOf(frame).packet.ErrorPacket?
    ensures var p, q := Parse(frame.line), OutcomeOf(frame).packet;
            && IsLast(p.args, "code", q.code) && IsLast(p.args, "what", q.what)
            && "error" in p.flags && "ok" !in p.flags
  {
    OutcomeKinds(frame);
    DeliveredTells(frame);
  }

  /** The one-shot constructors refuse exactly the messages of another kind, and tell the others the same way. */
  lemma FromRawTells(like: Packet, raw: string)
    ensures var p, r := Parse(Normalise(raw)), FromRaw(like, raw);
            && (r.Some? <==> p.kind == KindOf(like))
            && (r.Some? ==>
                  match like
                  case RequestPacket(_) => TellsRequest(r.value, p)
                  case ResponsePacket(_) => TellsResponse(r.value, p)
                  case ErrorPacket(_, _, _) => TellsError(r.value, p)
                  case WitnessPacket(_, _) => TellsWitness(r.value, p)
                  case PublishPacket(_, _) => TellsPublish(r.value, p))
  {
    PacketsTell(Parse(Normalise(raw)));
  }
}
