/** The parser object and the message object it fills. */
module ParserObjects {
  import opened Strings
  import opened Scanner
  import opened ScannerLaws
  import opened Parsing

  class ParsedMessage {
    var capability: string
    var handle: string
    var args: seq<(string, string)>
    var flags: seq<string>

    constructor ()
      ensures capability == "" && handle == "" && args == [] && flags == []
    {
      capability, handle, args, flags := "", "", [], [];
    }

    method SetCapability(c: string)
      modifies this`capability
      ensures capability == c
    {
      capability := c;
    }

    method SetHandle(h: string)
      modifies this`handle
      ensures handle == h
    {
      handle := h;
    }

    method AddArg(key: string, value: string)
      modifies this`args
      ensures args == old(args) + [(key, value)]
    {
      args := args + [(key, value)];
    }

    method AddFlag(flag: string)
      modifies this`flags
      ensures flags == old(flags) + [flag]
    {
      flags := flags + [flag];
    }
  }

  datatype Where = None | Quotes | SQuotes | Brackets | Triangles

  class Parser {
    var raw: string
    var kind: Kind
    var errorCode: string
    var errorWhat: string
    var props: Props

    constructor ()
      ensures kind == Unknown && props == NO_PROPS && errorCode == ""
    {
      raw, kind, errorCode, errorWhat, props := "", Unknown, "", "", NO_PROPS;
    }

    predicate HasError()
      reads this
    {
      errorCode != ""
    }

    ghost function State(m: ParsedMessage): Parsed
      reads this, m
    {
      Parsed(kind, m.capability, m.handle, m.args, m.flags, props)
    }

    method Error(code: string, what: string)
      modifies this`errorCode, this`errorWhat
      ensures errorCode == code && errorWhat == what
    {
      errorCode, errorWhat := code, what;
    }

    static ghost predicate Shows(where: Where, bracket: char, depth: nat, mode: Mode) {
      match where
      case None => mode.Plain?
      case Quotes => mode.Double?
      case SQuotes => mode.Single?
      case Brackets => depth >= 1 && (bracket == '[' || bracket == '{') && mode == Bracket(bracket, depth)
      case Triangles => mode.Block?
    }

    method Tokenize(message: string) returns (tokens: seq<Token>)
      ensures tokens == Tokens(message)
    {
      tokens := [];
      var value, type_, where, bracket, depth: nat := "", Word, Where.None, ' ', 0;
      ghost var st := START;
      var next := 0;
      for i := 0 to |message|
        invariant next == i
        invariant st.value == value && st.kind == type_ && st.tokens == tokens
        invariant Shows(where, bracket, depth, st.mode)
        invariant Run(st, message[i..], LookOther) == Run(START, message, LookOther)
      {
        var c := message[i];
        next := next + 1;
        assert message[i..][0] == c && message[i..][1..] == message[next..];
        ghost var look := Peek(message[next..], LookOther);
        st := Step(st, c, look);
        match where {
          case None =>
            match c {
              case ' ' =>
                if value != "" {
                  tokens := tokens + [Token(value, type_)];
                  value, type_ := "", Word;
                }
              case '"' => where := Quotes;
              case '\'' => where := SQuotes;
              case '[' =>
                value := value + [c];
                bracket, depth, where := c, 1, Brackets;
              case '{' =>
                value := value + [c];
                bracket, depth, where := c, 1, Brackets;
              case '=' =>
                value := value + [c];
                type_ := Arg;
              case '~' =>
                if value == "" {
                  value := value + [c];
                  type_ := Handle;
                } else {
                  value := value + [c];
                }
              case '<' =>
                value := value + [c];
                if |message| > next && message[next] == '<' {
                  where := Triangles;
                }
              case _ => value := value + [c];
            }
          case SQuotes =>
            if c == '\'' {
              where := Where.None;
            } else {
              value := value + [c];
            }
          case Quotes =>
            if c == '"' {
              where := Where.None;
            } else {
              value := value + [c];
            }
          case Brackets =>
            var close := if bracket == '[' then ']' else '}';
            value := value + [c];
            if c == bracket {
              depth := depth + 1;
            } else if c == close {
              depth := depth - 1;
              if depth == 0 {
                where := Where.None;
              }
            }
          case Triangles =>
            value := value + [c];
            if c == '>' && |message| > next && message[next] == '>' {
              where := Where.None;
            }
        }
      }
      assert message[|message|..] == "";
      ghost var open := value;
      match where {
        case Brackets =>
          ghost var close := Closing(bracket);
          var i := 0;
          while i < depth
            invariant 0 <= i <= depth
            invariant value == open + Repeat(close, i)
          {
            RepeatLast(close, i);
            assert open + Repeat(close, i + 1) == open + Repeat(close, i) + [close];
            value := value + [if bracket == '[' then ']' else '}'];
            i := i + 1;
          }
        case Triangles =>
          assert open + ['>'] + ['>'] == open + ">>";
          value := value + ['>'];
          value := value + ['>'];
        case _ =>
          assert open + "" == open;
      }
      assert value == st.value + AutoClose(st.mode);
      if value != "" {
        tokens := tokens + [Token(value, type_)];
      }
    }

    method BuildFirstToken(m: ParsedMessage, t: Token)
      requires WellTyped(t)
      modifies this`kind, m`capability, m`handle
      ensures State(m) == BuildFirst(old(State(m)), t)
    {
      match t.kind {
        case Arg =>
          kind := Request;
          m.SetCapability(t.value);
        case Handle =>
          kind := Response;
          var handle := t.value[1..];
          var pos := IndexOf(handle, ':');
          if pos == |handle| {
            m.SetHandle(handle);
          } else {
            m.SetHandle(handle[..pos]);
            m.SetCapability(handle[pos + 1..]);
          }
        case Word =>
          if t.value == "witness" {
            kind := Witness;
            m.SetCapability(t.value);
          } else if t.value == "publish" {
            kind := Publish;
          } else {
            kind := Request;
            m.SetCapability(t.value);
          }
      }
    }

    method SplitArg(text: string) returns (key: string, value: string)
      requires '=' in text
      ensures (key, value) == ReadArg(text)
    {
      var pos := IndexOf(text, '=');
      assert text[..|text|] == text;
      key, value := text[..pos], text[pos + 1..];
      // a wrapped value loses its delimiters and the newlines next to them
      ghost var written := value;
      if |value| >= 4 && value[0] == '<' && value[1] == '<' &&
         value[|value| - 2] == '>' && value[|value| - 1] == '>'
      {
        value := value[2..|value| - 2];
        ghost var inner := value;
        if value != "" && value[0] == '\n' {
          value := value[1..];
        }
        assert value == TrimFront(inner);
        if value != "" && value[|value| - 1] == '\n' {
          value := value[..|value| - 1];
        }
      }
      assert value == StripBlock(written);
    }

    method BuildOtherToken(m: ParsedMessage, t: Token)
      requires WellTyped(t)
      modifies this`props, m`args, m`handle, m`flags
      ensures State(m) == BuildOther(old(State(m)), t)
    {
      match t.kind {
        case Arg =>
          var key, value := SplitArg(t.value);
          if key == "code" {
            props := props.(argCode := true);
          } else if key == "what" {
            props := props.(argWhat := true);
          } else if key == "body" {
            props := props.(argBody := true);
          }
          m.AddArg(key, value);
        case Handle =>
          m.SetHandle(t.value[1..]);
        case Word =>
          if t.value == "ok" {
            props := props.(flagOk := true);
          } else if t.value == "error" {
            props := props.(flagError := true);
          }
          m.AddFlag(t.value);
      }
    }

    method BuildMessage(m: ParsedMessage, tokens: seq<Token>)
      requires AllWellTyped(tokens)
      modifies this`kind, this`props, m
      ensures State(m) == Build(old(State(m)), 0, tokens)
    {
      for i := 0 to |tokens|
        invariant Build(State(m), i, tokens[i..]) == Build(old(State(m)), 0, tokens)
      {
        var t := tokens[i];
        assert tokens[i..][1..] == tokens[i + 1..];
        if i == 0 {
          BuildFirstToken(m, t);
        } else if kind == Publish && i == 1 {
          m.SetCapability(t.value);
        } else {
          BuildOtherToken(m, t);
        }
      }
    }

    method Parse(message: string, m: ParsedMessage?)
      modifies this, m
      ensures raw == message && errorCode == "" && errorWhat == ""
      ensures m == null ==> kind == old(kind) && props == NO_PROPS
      ensures AllWellTyped(Tokens(message))
      ensures m != null ==> State(m) == Build(old(State(m)).(props := NO_PROPS), 0, Tokens(message))
    {
      TokensWellTyped(message);
      raw := message;
      errorCode, errorWhat := "", "";
      props := NO_PROPS;
      if m == null {
        return;
      }
      var tokens := Tokenize(message);
      BuildMessage(m, tokens);
    }

    method ValidateMessage(m: ParsedMessage?)
      modifies this`errorCode, this`errorWhat
      ensures m == null ==> errorCode == "Missing" && errorWhat == "message handle is null"
      ensures m != null && Validate(State(m)).Accepted? ==> errorCode == "" && errorWhat == ""
      ensures m != null && Validate(State(m)).Malformed? ==>
                errorCode == "Malformed" && errorWhat == Validate(State(m)).what
    {
      errorCode, errorWhat := "", "";
      if m == null {
        Error("Missing", "message handle is null");
        return;
      }
      match kind {
        case Request =>
          if m.capability == "" {
            Error("Malformed", "request missing command");
          } else if '=' in m.capability {
            Error("Malformed", "first token cannot be argument");
          } else if m.handle == "" {
            Error("Malformed", "request missing handle");
          }
        case Response =>
          if m.capability == "" {
            Error("Malformed", "response missing command; [ ~h ] should be [ ~h:c ]");
          } else if m.handle == "" {
            Error("Malformed", "response missing handle");
          } else if !props.flagOk && !props.flagError {
            Error("Malformed", "response missing ok or error flag");
          } else if props.flagOk && props.flagError {
            Error("Malformed", "response has both ok and error flags");
          } else if props.flagError && !props.argCode {
            Error("Malformed", "error response missing code");
          } else if props.flagError && !props.argWhat {
            Error("Malformed", "error response missing what");
          }
        case Witness =>
          if !props.argBody {
            Error("Malformed", "witness missing body");
          }
        case Publish =>
          if m.capability == "" {
            Error("Malformed", "publish missing topic");
          } else if '=' in m.capability {
            Error("Malformed", "publish missing topic; cannot be argument; [ k=v ] should be [ t ]");
          } else if m.capability[0] == '~' {
            Error("Malformed", "publish missing topic; cannot be handle; [ ~h ] should be [ t ]");
          }
        case Unknown =>
          Error("Malformed", "unknown message type");
      }
    }
  }

  lemma {:induction false} RepeatLast(c: char, n: nat)
    ensures Repeat(c, n + 1) == Repeat(c, n) + [c]
  {
    if n > 0 {
      RepeatLast(c, n - 1);
    }
  }
}
