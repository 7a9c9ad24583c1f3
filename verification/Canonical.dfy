/** The wire text depends on what a message holds, not on how it was put together or how often it was sent. */
module Canonical {
  import opened Strings
  import opened Ordered
  import opened ParsingLaws
  import opened Wire
  import opened Forms
  import opened Rendering
  import opened PacketParse
  import opened RoundTrip

  // ---- Order of additions ----

  ghost predicate DistinctKeys(args: seq<(string, string)>) {
    forall i, j :: 0 <= i < j < |args| ==> args[i].0 != args[j].0
  }

  ghost predicate SamePairs(xs: seq<(string, string)>, ys: seq<(string, string)>) {
    forall x :: x in xs <==> x in ys
  }

  /** What is found under k once all of `more` is put: its entry in `more` if it has one, else what was there. */
  lemma {:induction false} PutAllAt(args: Args, more: seq<(string, string)>, k: string)
    requires SortedKeys(args) && DistinctKeys(more)
    ensures SortedKeys(PutAll(args, more))
    ensures var m := ToMap(PutAll(args, more));
            if HasKey(more, k) then k in m && (k, m[k]) in more
            else (k in m <==> k in ToMap(args)) && (k in m ==> m[k] == ToMap(args)[k])
    decreases more
  {
    if more != [] {
      var (k0, v0) := more[0];
      var rest := more[1..];
      PutSorted(args, k0, v0);
      assert more == [(k0, v0)] + rest;
      assert forall i :: 0 <= i < |rest| ==> rest[i] == more[i + 1];
      PutAllAt(Put(args, k0, v0), rest, k);
      assert HasKey(more, k) <==> k == k0 || HasKey(rest, k);
      assert k == k0 ==> !HasKey(rest, k);
    }
  }

  lemma OneValue(xs: seq<(string, string)>, k: string, v: string, w: string)
    requires DistinctKeys(xs) && (k, v) in xs && (k, w) in xs
    ensures v == w
  {
  }

  lemma SameKeys(xs: seq<(string, string)>, ys: seq<(string, string)>, k: string)
    requires SamePairs(xs, ys) && HasKey(xs, k)
    ensures HasKey(ys, k)
  {
    var i :| 0 <= i < |xs| && xs[i].0 == k;
    assert xs[i] in xs && xs[i] in ys;
  }

  /** Arguments with distinct keys and flags may be added in any order. */
  lemma AdditionOrderIrrelevant(
    xs: seq<(string, string)>, ys: seq<(string, string)>, fs: seq<string>, gs: seq<string>)
    requires DistinctKeys(xs) && DistinctKeys(ys) && SamePairs(xs, ys)
    requires Elements(fs) == Elements(gs)
    ensures PutAll([], xs) == PutAll([], ys) && InsertAll([], fs) == InsertAll([], gs)
  {
    var a, b := ToMap(PutAll([], xs)), ToMap(PutAll([], ys));
    forall k ensures k in a <==> k in b
             ensures k in a ==> a[k] == b[k]
    {
      PutAllAt([], xs, k);
      PutAllAt([], ys, k);
      if HasKey(xs, k) {
        SameKeys(xs, ys, k);
        OneValue(xs, k, a[k], b[k]);
      } else if HasKey(ys, k) {
        SameKeys(ys, xs, k);
      }
    }
    assert a == b;
    PutAllSorted([], xs);
    PutAllSorted([], ys);
    ArgsCanonical(PutAll([], xs), PutAll([], ys));
    InsertAllSorted([], fs);
    InsertAllSorted([], gs);
    FlagsCanonical(InsertAll([], fs), InsertAll([], gs));
  }

  /** Messages that hold the same map and set under the same fields are the same text. */
  lemma SerializedCanonical(p: Packet, q: Packet)
    requires SortedKeys(p.content.args) && SortedKeys(q.content.args)
    requires Sorted(p.content.flags) && Sorted(q.content.flags)
    requires ToMap(p.content.args) == ToMap(q.content.args)
    requires Elements(p.content.flags) == Elements(q.content.flags)
    requires p.(content := EMPTY_CONTENT) == q.(content := EMPTY_CONTENT)
    requires p.content.command == q.content.command && p.content.handle == q.content.handle
    ensures Serialized(p) == Serialized(q)
  {
    ArgsCanonical(p.content.args, q.content.args);
    FlagsCanonical(p.content.flags, q.content.flags);
    assert p.content == q.content;
  }

  // ---- Reading and writing again ----

  lemma {:induction false} WithoutSorted(flags: Flags, f: string)
    requires Sorted(flags)
    ensures Sorted(Without(flags, f))
  {
    if flags != [] {
      var rest := Without(flags[1..], f);
      WithoutSorted(flags[1..], f);
      WithoutElements(flags[1..], f);
      forall j | 0 <= j < |rest| ensures Before(flags[0], rest[j]) {
        assert rest[j] in Elements(rest);
      }
    }
  }

  lemma OkIsNotKept(flags: Flags)
    requires Sorted(flags)
    ensures Without(Insert(flags, "ok"), "ok") == Without(flags, "ok")
  {
    InsertSorted(flags, "ok");
    WithoutSorted(flags, "ok");
    WithoutSorted(Insert(flags, "ok"), "ok");
    WithoutElements(flags, "ok");
    WithoutElements(Insert(flags, "ok"), "ok");
    FlagsCanonical(Without(Insert(flags, "ok"), "ok"), Without(flags, "ok"));
  }

  lemma InsertKnown(flags: Flags, f: string)
    requires Sorted(flags) && f in flags
    ensures Insert(flags, f) == flags
  {
    InsertSorted(flags, f);
    assert f in Elements(flags);
    FlagsCanonical(Insert(flags, f), flags);
  }

  lemma {:induction false} InsertLengthens(flags: Flags, f: string)
    requires Sorted(flags)
    ensures |FlagsText(Insert(flags, f))| == |FlagsText(flags)| + (if f in flags then 0 else 1 + |f|)
  {
    if f in flags {
      InsertKnown(flags, f);
    } else if flags == [] {
      assert FlagsText([f]) == " " + f + "";
    } else if Before(f, flags[0]) {
      assert ([f] + flags)[1..] == flags;
    } else {
      InsertLengthens(flags[1..], f);
      assert ([flags[0]] + Insert(flags[1..], f))[1..] == Insert(flags[1..], f);
    }
  }

  /** Sending on what was received gives identical bytes, for every kind but the error response. */
  lemma ResendIsIdentical(p: Packet)
    requires Sendable(p) && !p.ErrorPacket?
    ensures FromRaw(p, Serialized(p)) == Some(Received(p))
    ensures Serialized(Received(p)) == Serialized(p)
  {
    OneShotRoundTrip(p);
    OkIsNotKept(p.content.flags);
  }

  lemma ErrorFlagsSettle(flags: Flags)
    requires Sorted(flags)
    ensures var once := Insert(Insert(flags, "error"), "node_error");
            Sorted(once) && Insert(Insert(once, "error"), "node_error") == once
  {
    InsertSorted(flags, "error");
    InsertSorted(Insert(flags, "error"), "node_error");
    var once := Insert(Insert(flags, "error"), "node_error");
    assert "error" in Elements(once) && "node_error" in Elements(once);
    InsertKnown(once, "error");
    InsertKnown(once, "node_error");
  }

  lemma InsertSafe(flags: Flags, f: string)
    requires SafeFlags(flags) && PlainWord(f)
    ensures SafeFlags(Insert(flags, f))
  {
    InsertSorted(flags, f);
    var more := Insert(flags, f);
    forall i | 0 <= i < |more| ensures PlainWord(more[i]) {
      assert more[i] in Elements(more);
      assert more[i] in flags || more[i] == f;
    }
  }

  lemma {:induction false} FlagsCrLf(flags: seq<string>)
    ensures NoCrLf(FlagsText(flags)) <==> forall i :: 0 <= i < |flags| ==> NoCrLf(flags[i])
  {
    if flags != [] {
      var rest := FlagsText(flags[1..]);
      FlagsCrLf(flags[1..]);
      CrLfParts(" " + flags[0], rest);
      CrLfParts(" ", flags[0]);
      assert NoCrLf(" ");
      assert rest != "" ==> rest[0] == ' ';
      assert forall i :: 0 < i < |flags| ==> flags[i] == flags[1..][i - 1];
    }
  }

  /** Line endings of a text are those of its parts, unless the second begins with a newline. */
  lemma CrLfParts(a: string, b: string)
    requires b == "" || b[0] != '\n' || a == "" || a[|a| - 1] != '\r'
    ensures NoCrLf(a + b) <==> NoCrLf(a) && NoCrLf(b)
  {
    if NoCrLf(a + b) {
      forall i ensures !CrLfAt(a, i) && !CrLfAt(b, i) {
        assert CrLfAt(a, i) ==> CrLfAt(a + b, i);
        assert CrLfAt(b, i) ==> CrLfAt(a + b, i + |a|);
      }
    } else {
      var i :| CrLfAt(a + b, i);
      assert CrLfAt(a, i) || CrLfAt(b, i - |a|);
    }
  }

  /** What an error response writes before its own flags. */
  function BeforeFlags(p: Packet): string {
    FirstItem(p).Text() + NextText(p) + ArgsText(p.content.args)
  }

  lemma ErrorTextCrLf(p: Packet)
    requires p.ErrorPacket? && p.content.handle != ""
    ensures NoCrLf(Serialized(p)) <==>
              NoCrLf(BeforeFlags(p)) && forall i :: 0 <= i < |p.content.flags| ==> NoCrLf(p.content.flags[i])
  {
    var flags, end := p.content.flags, " " + "node_error";
    SerializedParts(p);
    FlagsTextLast(flags, "node_error");
    FlagsCrLf(flags);
    Assoc(BeforeFlags(p), FlagsText(flags), end);
    CrLfParts(BeforeFlags(p), FlagsText(flags));
    assert FlagsText(flags) != "" ==> FlagsText(flags)[0] == ' ';
    CrLfParts(BeforeFlags(p) + FlagsText(flags), end);
    CrLfParts(BeforeFlags(p) + FlagsText(flags) + end, "\n");
    FixedFree();
    NoReturn(end);
    NoReturn("\n");
  }

  lemma InsertCrLf(flags: Flags, f: string)
    requires Sorted(flags) && Lacks(f, '\r') && forall i :: 0 <= i < |flags| ==> NoCrLf(flags[i])
    ensures forall i :: 0 <= i < |Insert(flags, f)| ==> NoCrLf(Insert(flags, f)[i])
  {
    InsertSorted(flags, f);
    NoReturn(f);
    forall i | 0 <= i < |Insert(flags, f)| ensures NoCrLf(Insert(flags, f)[i]) {
      assert Insert(flags, f)[i] in Elements(Insert(flags, f));
    }
  }

  lemma ReceivedErrorCrLf(p: Packet)
    requires Sendable(p) && p.ErrorPacket?
    ensures NoCrLf(Serialized(Received(p)))
  {
    ErrorTextCrLf(p);
    ErrorFlagsCrLf(p.content.flags);
    ReceivedBefore(p);
    ErrorTextCrLf(Received(p));
  }

  lemma ReceivedBefore(p: Packet)
    requires p.ErrorPacket?
    ensures BeforeFlags(Received(p)) == BeforeFlags(p)
    ensures Received(p).content.flags == Insert(Insert(p.content.flags, "error"), "node_error")
  {
  }

  lemma ErrorFlagsCrLf(flags: Flags)
    requires Sorted(flags) && forall i :: 0 <= i < |flags| ==> NoCrLf(flags[i])
    ensures var more := Insert(Insert(flags, "error"), "node_error"); forall i :: 0 <= i < |more| ==> NoCrLf(more[i])
  {
    InsertCrLf(flags, "error");
    InsertSorted(flags, "error");
    InsertCrLf(Insert(flags, "error"), "node_error");
  }

  /** What arrives as an error response can itself be sent. */
  lemma ReceivedErrorSendable(p: Packet)
    requires Sendable(p) && p.ErrorPacket?
    ensures Sendable(Received(p)) && Received(p).ErrorPacket?
  {
    SimpleWord("error");
    NodeErrorWord();
    InsertSafe(p.content.flags, "error");
    InsertSafe(Insert(p.content.flags, "error"), "node_error");
    ReceivedErrorCrLf(p);
  }

  /** An error response grows by the flags its text adds, and is a fixed point from the second sending on. */
  lemma ErrorResendSettles(p: Packet)
    requires Sendable(p) && p.ErrorPacket?
    ensures var q := Received(p);
            && FromRaw(p, Serialized(p)) == Some(q)
            && FromRaw(q, Serialized(q)) == Some(q)
            && (Serialized(q) == Serialized(p) <==> "error" in p.content.flags && "node_error" in p.content.flags)
  {
    var q, flags := Received(p), p.content.flags;
    OneShotRoundTrip(p);
    ReceivedErrorSendable(p);
    OneShotRoundTrip(q);
    ErrorFlagsSettle(flags);
    assert Received(q) == q;
    ErrorLengthens(p);
    if "error" in flags && "node_error" in flags {
      InsertKnown(flags, "error");
      InsertKnown(flags, "node_error");
      assert q == p;
    }
  }

  lemma ErrorLengthens(p: Packet)
    requires p.ErrorPacket? && Sorted(p.content.flags)
    ensures "error" !in p.content.flags || "node_error" !in p.content.flags ==>
              |Serialized(Received(p))| > |Serialized(p)|
  {
    var flags := p.content.flags;
    InsertLengthens(flags, "error");
    InsertSorted(flags, "error");
    InsertLengthens(Insert(flags, "error"), "node_error");
    assert "node_error" in Elements(Insert(flags, "error")) <==> "node_error" in Elements(flags);
  }

  /** The plainest error response. */
  const PLAIN_ERROR := ErrorPacket(Content("c", "h", [], []), "e", "w")

  /** Sent on as received, it is not the text that came in: it now carries both its flags twice. */
  lemma ErrorResendDiffers()
    ensures Sendable(PLAIN_ERROR)
    ensures FromRaw(PLAIN_ERROR, Serialized(PLAIN_ERROR)) == Some(Received(PLAIN_ERROR))
    ensures Serialized(Received(PLAIN_ERROR)) != Serialized(PLAIN_ERROR)
  {
    SimpleWord("c");
    SimpleWord("h");
    SimpleWord("e");
    ReturnFreeText(PLAIN_ERROR);
    ErrorResendSettles(PLAIN_ERROR);
  }
}
