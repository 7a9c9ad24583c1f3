/** The listen loop's reassembly of frames from a byte stream, as a function of the bytes. */
module Framing {
  import opened Strings

  /** A completed frame: the text handed to the parser and the bytes it came from. */
  datatype Frame = Frame(line: string, raw: string)

  datatype Assembly = Assembly(line: string, raw: string, multiline: bool, frames: seq<Frame>)

  function StripCr(l: string): string {
    if l != "" && l[|l| - 1] == '\r' then l[..|l| - 1] else l
  }

  /** The line opens a block that it does not close itself. */
  predicate Opens(l: string) {
    var open := FindPair(l, '<', 0);
    open < |l| && FindPair(l, '>', open + 2) == |l|
  }

  /** ">>" is the first thing on the line. */
  predicate IsClose(l: string) {
    l == ">>" || (|l| >= 3 && l[..3] == ">> ")
  }

  predicate Reopens(l: string) {
    IsClose(l) && FindPair(l, '<', 0) < |l|
  }

  function Complete(a: Assembly, line: string, raw: string): Assembly {
    Assembly(line, "", false, a.frames + [Frame(line, raw)])
  }

  /** One line l of the stream, without its newline. */
  function TakeLine(a: Assembly, l: string): Assembly {
    var raw, current := a.raw + (l + "\n"), StripCr(l);
    if !a.multiline then
      if Opens(current) then Assembly(current + "\n", raw, true, a.frames)
      else Complete(a, current, raw)
    else if !IsClose(current) then Assembly(a.line + (current + "\n"), raw, true, a.frames)
    else if Reopens(current) then Assembly(a.line + current, raw, true, a.frames)
    else Complete(a, a.line + current, raw)
  }

  function TakeLines(a: Assembly, lines: seq<string>): Assembly
    decreases lines
  {
    if lines == [] then a else TakeLines(TakeLine(a, lines[0]), lines[1..])
  }

  /** The complete lines of s, without their newlines. */
  function Lines(s: string): seq<string> {
    var pos := IndexOf(s, '\n');
    if pos == |s| then [] else [s[..pos]] + Lines(s[pos + 1..])
  }

  /** What follows the last newline of s. */
  function Rest(s: string): string {
    var pos := IndexOf(s, '\n');
    if pos == |s| then s else Rest(s[pos + 1..])
  }

  /** The loop's state between reads. */
  datatype Stream = Stream(assembly: Assembly, buf: string)

  const IDLE := Assembly("", "", false, [])

  function Receive(st: Stream, bytes: string): Stream {
    Stream(TakeLines(st.assembly, Lines(st.buf + bytes)), Rest(st.buf + bytes))
  }

  function ReceiveAll(st: Stream, chunks: seq<string>): Stream
    decreases chunks
  {
    if chunks == [] then st else ReceiveAll(Receive(st, chunks[0]), chunks[1..])
  }
}
