/** The tokenizer as a five-mode machine with one character of lookahead. */
module Scanner {
  import opened Strings

  type Depth = d: nat | d >= 1 witness 1

  datatype Mode =
    | Plain
    | Double
    | Single
    | Bracket(open: char, depth: Depth)
    | Block

  datatype TokenKind = Word | Arg | Handle

  datatype Token = Token(value: string, kind: TokenKind)

  /** All that the scanner ever asks of the next character. */
  datatype Look = LookOpen | LookClose | LookOther

  function LookOf(c: char): Look {
    if c == '<' then LookOpen else if c == '>' then LookClose else LookOther
  }

  /** What the text s, followed by text that answers `look`, answers itself. */
  function Peek(s: string, look: Look): Look {
    if s == "" then look else LookOf(s[0])
  }

  function Closing(open: char): char {
    if open == '[' then ']' else '}'
  }

  function NextMode(mode: Mode, c: char, look: Look): Mode {
    match mode
    case Plain =>
      if c == '"' then Double
      else if c == '\'' then Single
      else if c == '[' || c == '{' then Bracket(c, 1)
      else if c == '<' && look.LookOpen? then Block
      else Plain
    case Double => if c == '"' then Plain else Double
    case Single => if c == '\'' then Plain else Single
    case Bracket(open, depth) =>
      if c == open then Bracket(open, depth + 1)
      else if c != Closing(open) then mode
      else if depth == 1 then Plain
      else Bracket(open, depth - 1)
    case Block => if c == '>' && look.LookClose? then Plain else Block
  }

  /** Whether c becomes part of a token: everything but plain spaces and quote delimiters. */
  predicate Keeps(mode: Mode, c: char) {
    match mode
    case Plain => c != ' ' && c != '"' && c != '\''
    case Double => c != '"'
    case Single => c != '\''
    case _ => true
  }

  datatype Scan = Scan(mode: Mode, value: string, kind: TokenKind, tokens: seq<Token>)

  const START := Scan(Plain, "", Word, [])

  function KindAfter(st: Scan, c: char): TokenKind {
    if !st.mode.Plain? then st.kind
    else if c == '=' then Arg
    else if c == '~' && st.value == "" then Handle
    else st.kind
  }

  function Step(st: Scan, c: char, look: Look): Scan {
    if st.mode.Plain? && c == ' ' then
      if st.value == "" then st else Scan(Plain, "", Word, st.tokens + [Token(st.value, st.kind)])
    else if !Keeps(st.mode, c) then
      st.(mode := NextMode(st.mode, c, look))
    else
      st.(mode := NextMode(st.mode, c, look), value := st.value + [c], kind := KindAfter(st, c))
  }

  /** Scans s, with `look` answering for the text after it. */
  function Run(st: Scan, s: string, look: Look): Scan
    decreases |s|
  {
    if s == "" then st else Run(Step(st, s[0], Peek(s[1..], look)), s[1..], look)
  }

  /** What the end of input appends for a mode left open. */
  function AutoClose(mode: Mode): string {
    match mode
    case Bracket(open, depth) => Repeat(Closing(open), depth)
    case Block => ">>"
    case _ => ""
  }

  function Finish(st: Scan): seq<Token> {
    var value := st.value + AutoClose(st.mode);
    if value == "" then st.tokens else st.tokens + [Token(value, st.kind)]
  }

  function Tokens(message: string): seq<Token> {
    Finish(Run(START, message, LookOther))
  }
}
