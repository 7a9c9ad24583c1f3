/** What becomes of a completed frame: nothing, an error report, or one delivered packet. */
module Dispatch {
  import opened Strings
  import opened Parsing
  import opened ParsingLaws
  import opened Wire
  import opened Framing
  import opened FramingLaws
  import opened FrameGrammar

  datatype Outcome =
    | Blank
    | Rejected(code: string, what: string, line: string)
    | Delivered(packet: Packet, raw: string)

  /** The packet built from an accepted message; a response is an error by its flag. */
  function Interpret(p: Parsed): Packet {
    match p.kind
    case Response => if "error" in p.flags then ErrorOf(p) else ResponseOf(p)
    case Witness => WitnessOf(p)
    case Publish => PublishOf(p)
    case _ => RequestOf(p)
  }

  ghost function OutcomeOf(frame: Frame): Outcome {
    if frame.line == "" then Blank
    else
      var p := Parse(frame.line);
      match Validate(p)
      case Malformed(what) => Rejected("Malformed", what, frame.line)
      case Accepted => Delivered(Interpret(p), frame.raw)
  }

  /** An accepted message has a kind and is taken for a packet of it; a response is an error exactly when it lacks
      "ok". */
  lemma AcceptedIsDispatchable(message: string)
    requires Validate(Parse(message)).Accepted?
    ensures var p := Parse(message);
            && p.kind != Unknown
            && (p.kind == Response ==>
                  && ("error" in p.flags <==> "ok" !in p.flags)
                  && p.capability != "" && p.handle != ""
                  && ("error" in p.flags ==> HasKey(p.args, "code") && HasKey(p.args, "what")))
            && (p.kind == Witness ==> HasKey(p.args, "body"))
            && (p.kind == Publish ==> p.capability != "")
            && (Interpret(p).ErrorPacket? <==> p.kind == Response && "ok" !in p.flags)
            && (Interpret(p).ResponsePacket? <==> p.kind == Response && "ok" in p.flags)
            && (Interpret(p).RequestPacket? <==> p.kind == Request)
            && (Interpret(p).WitnessPacket? <==> p.kind == Witness)
            && (Interpret(p).PublishPacket? <==> p.kind == Publish)
  {
    ValidateIsGrammar(message);
  }

  // ---- Agreement with one-shot reading ----

  lemma {:induction false} DropCrLine(l: string, more: string)
    requires Lacks(l, '\n')
    ensures DropCr(l + "\n" + more) == StripCr(l) + "\n" + DropCr(more)
    decreases |l|
  {
    var all := l + "\n" + more;
    if l == "" {
      assert all[1..] == more;
    } else {
      assert all[1..] == l[1..] + "\n" + more;
      DropCrLine(l[1..], more);
      if |l| == 1 {
        assert all[1] == '\n' && l[1..] == "";
      } else {
        assert all[1] == l[1];
        assert StripCr(l) == [l[0]] + StripCr(l[1..]);
        Assoc([l[0]], StripCr(l[1..]), "\n");
        Assoc([l[0]], StripCr(l[1..]) + "\n", DropCr(more));
      }
    }
  }

  /** The lines of a frame, joined with every newline kept. */
  function JoinAll(lines: seq<string>): string
    requires lines != []
  {
    if |lines| == 1 then StripCr(lines[0]) else StripCr(lines[0]) + "\n" + JoinAll(lines[1..])
  }

  lemma {:induction false} DropCrLines(lines: seq<string>)
    requires lines != [] && OneLiners(lines)
    ensures DropCr(Unlines(lines)) == JoinAll(lines) + "\n"
  {
    DropCrLine(lines[0], Unlines(lines[1..]));
    if |lines| == 1 {
      assert StripCr(lines[0]) + "\n" + "" == StripCr(lines[0]) + "\n";
    } else {
      DropCrLines(lines[1..]);
      Assoc(StripCr(lines[0]) + "\n", JoinAll(lines[1..]), "\n");
    }
  }

  /** One-shot reading of a frame's bytes keeps every newline between its lines. */
  lemma NormaliseFrame(lines: seq<string>)
    requires lines != [] && OneLiners(lines)
    ensures Normalise(Unlines(lines)) == JoinAll(lines)
  {
    DropCrLines(lines);
    assert (JoinAll(lines) + "\n")[..|JoinAll(lines)|] == JoinAll(lines);
  }

  ghost predicate NoneReopens(lines: seq<string>) {
    forall i :: 0 <= i < |lines| ==> !Reopens(StripCr(lines[i]))
  }

  lemma {:induction false} JoinRestLosesNewlines(lines: seq<string>)
    requires lines != [] && !Reopens(StripCr(lines[|lines| - 1]))
    ensures if NoneReopens(lines) then JoinRest(lines) == JoinAll(lines) else |JoinRest(lines)| < |JoinAll(lines)|
  {
    if |lines| > 1 {
      var rest := lines[1..];
      JoinRestLosesNewlines(rest);
      assert NoneReopens(lines) <==> NoneReopens(rest) && !Reopens(StripCr(lines[0])) by {
        assert forall i :: 0 < i < |lines| ==> lines[i] == rest[i - 1];
        assert forall i :: 0 <= i < |rest| ==> rest[i] == lines[i + 1];
      }
    }
  }

  /** The listener's text of a frame is what one-shot reading makes of its bytes iff no close line reopens a block. */
  lemma FrameTextAgrees(lines: seq<string>)
    requires IsFrame(lines) && OneLiners(lines)
    ensures FrameOf(lines).line == Normalise(FrameOf(lines).raw) <==> NoneReopens(lines[1..])
  {
    NormaliseFrame(lines);
    if |lines| > 1 {
      assert lines[1..][|lines| - 2] == lines[|lines| - 1];
      JoinRestLosesNewlines(lines[1..]);
    }
  }

  /** What the listener delivers is what the kind's one-shot constructor makes of the delivered bytes. */
  lemma DeliveredAgreesWithRaw(lines: seq<string>)
    requires IsFrame(lines) && OneLiners(lines) && NoneReopens(lines[1..])
    requires OutcomeOf(FrameOf(lines)).Delivered?
    ensures var outcome := OutcomeOf(FrameOf(lines));
            outcome.raw == Unlines(lines) && FromRaw(outcome.packet, outcome.raw) == Some(outcome.packet)
  {
    FrameTextAgrees(lines);
    var p := Parse(FrameOf(lines).line);
    AcceptedIsDispatchable(FrameOf(lines).line);
    InterpretIsFromRaw(FrameOf(lines).raw);
  }

  lemma InterpretIsFromRaw(raw: string)
    requires Parse(Normalise(raw)).kind != Unknown
    ensures var packet := Interpret(Parse(Normalise(raw))); FromRaw(packet, raw) == Some(packet)
  {
  }

  /** A completed frame and the lines it came from. */
  ghost predicate FromLines(frame: Frame, lines: seq<string>) {
    IsFrame(lines) && OneLiners(lines) && frame == FrameOf(lines)
  }

  /** Every frame completed from a stream, however it is cut, comes from whole lines of it; its text is what one-shot
      reading makes of its bytes iff none of them reopens a block, and then so is the message delivered. */
  lemma StreamAgreesWithRaw(chunks: seq<string>, frame: Frame) returns (lines: seq<string>)
    requires frame in ReceiveAll(Stream(IDLE, ""), chunks).assembly.frames
    ensures FromLines(frame, lines)
    ensures frame.line == Normalise(frame.raw) <==> NoneReopens(lines[1..])
    ensures frame.line == Normalise(frame.raw) && OutcomeOf(frame).Delivered? ==>
              FromRaw(OutcomeOf(frame).packet, frame.raw) == Some(OutcomeOf(frame).packet)
  {
    var groups, tail := StreamIsGrouped(chunks);
    lines := FrameGroup(groups, frame);
    FrameTextAgrees(lines);
    if NoneReopens(lines[1..]) && OutcomeOf(frame).Delivered? {
      DeliveredAgreesWithRaw(lines);
    }
  }
}
