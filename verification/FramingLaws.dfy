/** Framing does not depend on how the stream was cut, loses no byte, and follows a grammar of lines. */
module FramingLaws {
  import opened Strings
  import opened Framing

  // ---- Lines ----

  function Unlines(lines: seq<string>): string {
    if lines == [] then "" else lines[0] + "\n" + Unlines(lines[1..])
  }

  ghost predicate OneLiners(lines: seq<string>) {
    forall i :: 0 <= i < |lines| ==> Lacks(lines[i], '\n')
  }

  lemma UnlinesCons(l: string, lines: seq<string>)
    ensures Unlines([l] + lines) == l + "\n" + Unlines(lines)
  {
    assert ([l] + lines)[1..] == lines;
  }

  lemma LinesNone(s: string)
    requires Lacks(s, '\n')
    ensures Lines(s) == [] && Rest(s) == s
  {
  }

  lemma LinesCons(l: string, s: string)
    requires Lacks(l, '\n')
    ensures Lines(l + "\n" + s) == [l] + Lines(s)
    ensures Rest(l + "\n" + s) == Rest(s)
  {
    var full := l + "\n" + s;
    assert full[..|l|] == l && full[|l| + 1..] == s;
    IndexOfUnique(full, '\n', |l|);
  }

  /** Cutting s at its newlines loses nothing. */
  lemma {:induction false} LinesConserve(s: string)
    ensures Unlines(Lines(s)) + Rest(s) == s
    ensures OneLiners(Lines(s)) && Lacks(Rest(s), '\n')
    decreases |s|
  {
    var pos := IndexOf(s, '\n');
    if pos < |s| {
      var l, more := s[..pos], s[pos + 1..];
      SplitAt(s, '\n', pos);
      LinesConserve(more);
      UnlinesCons(l, Lines(more));
      Assoc(l + "\n", Unlines(Lines(more)), Rest(more));
    }
  }

  lemma {:induction false} LinesSplit(x: string, y: string)
    ensures Lines(x + y) == Lines(x) + Lines(Rest(x) + y)
    ensures Rest(x + y) == Rest(Rest(x) + y)
    decreases |x|
  {
    var pos := IndexOf(x, '\n');
    if pos < |x| {
      var l, more := x[..pos], x[pos + 1..];
      SplitAt(x, '\n', pos);
      Assoc(l + "\n", more, y);
      LinesCons(l, more + y);
      LinesSplit(more, y);
      Assoc([l], Lines(more), Lines(Rest(more) + y));
    } else {
      assert [] + Lines(x + y) == Lines(x + y);
    }
  }

  lemma {:induction false} LinesOfUnlines(lines: seq<string>, rest: string)
    requires OneLiners(lines) && Lacks(rest, '\n')
    ensures Lines(Unlines(lines) + rest) == lines && Rest(Unlines(lines) + rest) == rest
  {
    if lines == [] {
      assert "" + rest == rest;
    } else {
      var more := Unlines(lines[1..]) + rest;
      LinesOfUnlines(lines[1..], rest);
      LinesCons(lines[0], more);
      Assoc(lines[0] + "\n", Unlines(lines[1..]), rest);
      assert lines == [lines[0]] + lines[1..];
    }
  }

  lemma {:induction false} TakeLinesSplit(a: Assembly, x: seq<string>, y: seq<string>)
    ensures TakeLines(a, x + y) == TakeLines(TakeLines(a, x), y)
    decreases x
  {
    if x == [] {
      assert x + y == y;
    } else {
      assert (x + y)[0] == x[0] && (x + y)[1..] == x[1..] + y;
      TakeLinesSplit(TakeLine(a, x[0]), x[1..], y);
    }
  }

  // ---- Chunking ----

  /** Two reads do what one read of both would have done. */
  lemma ReceiveSplit(st: Stream, x: string, y: string)
    ensures Receive(st, x + y) == Receive(Receive(st, x), y)
  {
    assert st.buf + (x + y) == st.buf + x + y;
    LinesSplit(st.buf + x, y);
    TakeLinesSplit(st.assembly, Lines(st.buf + x), Lines(Rest(st.buf + x) + y));
  }

  /** Any cut of any stream leaves the same state and completes the same frames. */
  lemma {:induction false} ChunkingIndependent(st: Stream, chunks: seq<string>)
    requires Lacks(st.buf, '\n')
    ensures ReceiveAll(st, chunks) == Receive(st, Concat(chunks))
    ensures Lacks(ReceiveAll(st, chunks).buf, '\n')
    decreases chunks
  {
    if chunks == [] {
      assert st.buf + "" == st.buf;
    } else {
      LinesConserve(st.buf + chunks[0]);
      ChunkingIndependent(Receive(st, chunks[0]), chunks[1..]);
      ReceiveSplit(st, chunks[0], Concat(chunks[1..]));
    }
  }

  lemma ReceiveText(st: Stream, l: string)
    requires Lacks(st.buf, '\n') && Lacks(l, '\n')
    ensures Receive(st, l) == st.(buf := st.buf + l)
  {
    LinesNone(st.buf + l);
  }

  // ---- Conservation ----

  function Raws(frames: seq<Frame>): string {
    if frames == [] then "" else Raws(frames[..|frames| - 1]) + frames[|frames| - 1].raw
  }

  /** Every byte in a completed frame or in the frame in progress, in order. */
  function Taken(a: Assembly): string {
    Raws(a.frames) + a.raw
  }

  lemma RawsLast(frames: seq<Frame>, frame: Frame)
    ensures Raws(frames + [frame]) == Raws(frames) + frame.raw
  {
    assert (frames + [frame])[..|frames|] == frames;
  }

  lemma TakeLineConserves(a: Assembly, l: string)
    ensures Taken(TakeLine(a, l)) == Taken(a) + (l + "\n")
  {
    var raw := a.raw + (l + "\n");
    RawsLast(a.frames, Frame(StripCr(l), raw));
    RawsLast(a.frames, Frame(a.line + StripCr(l), raw));
    assert Raws(a.frames) + raw + "" == Raws(a.frames) + raw;
    Assoc(Raws(a.frames), a.raw, l + "\n");
  }

  lemma {:induction false} TakeLinesConserve(a: Assembly, lines: seq<string>)
    ensures Taken(TakeLines(a, lines)) == Taken(a) + Unlines(lines)
    decreases lines
  {
    if lines == [] {
      assert Taken(a) + "" == Taken(a);
    } else {
      TakeLineConserves(a, lines[0]);
      TakeLinesConserve(TakeLine(a, lines[0]), lines[1..]);
      Assoc(Taken(a), lines[0] + "\n", Unlines(lines[1..]));
    }
  }

  /** Completed frames, the frame in progress and the buffer hold exactly the bytes received. */
  lemma RawConservation(st: Stream, chunks: seq<string>)
    requires Lacks(st.buf, '\n')
    ensures var r := ReceiveAll(st, chunks);
            Taken(r.assembly) + r.buf == Taken(st.assembly) + st.buf + Concat(chunks)
  {
    ChunkingIndependent(st, chunks);
    var all := st.buf + Concat(chunks);
    TakeLinesConserve(st.assembly, Lines(all));
    LinesConserve(all);
    Assoc(Taken(st.assembly), Unlines(Lines(all)), Rest(all));
    Assoc(Taken(st.assembly), st.buf, Concat(chunks));
  }
}
