/** Text that has lost some newlines, and why the scanner reads it as the same tokens with those newlines missing. */
module LostNewlines {
  import opened Strings
  import opened Parsing
  import opened Forms

  // ---- Text short of some newlines ----

  /** y is x with some newlines left out. */
  ghost predicate Thin(x: string, y: string)
    decreases |x|
  {
    if x == "" then y == ""
    else (y != "" && y[0] == x[0] && Thin(x[1..], y[1..])) || (x[0] == '\n' && Thin(x[1..], y))
  }

  lemma {:induction false} ThinSame(x: string)
    ensures Thin(x, x)
    decreases |x|
  {
    if x != "" {
      ThinSame(x[1..]);
    }
  }

  lemma {:induction false} ThinAppend(a: string, a': string, b: string, b': string)
    requires Thin(a, a') && Thin(b, b')
    ensures Thin(a + b, a' + b')
    decreases |a|
  {
    if a == "" {
      assert a + b == b && a' + b' == b';
    } else {
      assert (a + b)[1..] == a[1..] + b;
      if a' != "" && a'[0] == a[0] && Thin(a[1..], a'[1..]) {
        assert (a' + b')[1..] == a'[1..] + b';
        ThinAppend(a[1..], a'[1..], b, b');
      } else {
        ThinAppend(a[1..], a', b, b');
      }
    }
  }

  /** Exactly the missing newlines make the difference. */
  lemma {:induction false} ThinCount(x: string, y: string)
    requires Thin(x, y)
    ensures |x| - |y| == Newlines(x) - Newlines(y) >= 0
    ensures Newlines(x) == Newlines(y) ==> x == y
    decreases |x|
  {
    if x != "" {
      if y != "" && y[0] == x[0] && Thin(x[1..], y[1..]) {
        ThinCount(x[1..], y[1..]);
        assert x == [x[0]] + x[1..] && y == [y[0]] + y[1..];
      } else {
        ThinCount(x[1..], y);
      }
    }
  }

  lemma {:induction false} ThinKeeps(x: string, y: string, c: char)
    requires Thin(x, y) && c != '\n'
    ensures Count(y, c) == Count(x, c)
    decreases |x|
  {
    if x != "" {
      if y != "" && y[0] == x[0] && Thin(x[1..], y[1..]) {
        ThinKeeps(x[1..], y[1..], c);
      } else {
        ThinKeeps(x[1..], y, c);
      }
    }
  }

  lemma IndexAfter(x: string, c: char)
    requires x != "" && x[0] != c
    ensures var i := IndexOf(x, c);
            && i == 1 + IndexOf(x[1..], c) && x[..i] == [x[0]] + x[1..][..i - 1] && x[..i][1..] == x[1..][..i - 1]
            && (i < |x| ==> x[i + 1..] == x[1..][i..])
  {
  }

  /** Both parts around the first c, if c is not a newline. */
  lemma {:induction false} ThinSplit(x: string, y: string, c: char)
    requires Thin(x, y) && c != '\n'
    ensures var i, j := IndexOf(x, c), IndexOf(y, c);
            && (i == |x| <==> j == |y|)
            && Thin(x[..i], y[..j])
            && (i < |x| ==> Thin(x[i + 1..], y[j + 1..]))
    decreases |x|
  {
    if x != "" {
      if y != "" && y[0] == x[0] && Thin(x[1..], y[1..]) {
        if x[0] != c {
          IndexAfter(x, c);
          IndexAfter(y, c);
          ThinSplit(x[1..], y[1..], c);
        }
      } else {
        IndexAfter(x, c);
        ThinSplit(x[1..], y, c);
      }
    }
  }

  /** The same relation, from the other end. */
  lemma {:induction false} ThinLast(x: string, y: string)
    requires Thin(x, y) && x != ""
    ensures || (y != "" && y[|y| - 1] == x[|x| - 1] && Thin(x[..|x| - 1], y[..|y| - 1]))
            || (x[|x| - 1] == '\n' && Thin(x[..|x| - 1], y))
    decreases |x|
  {
    if |x| > 1 {
      var rest := x[1..];
      assert x[..|x| - 1] == [x[0]] + rest[..|rest| - 1];
      if y != "" && y[0] == x[0] && Thin(rest, y[1..]) {
        ThinLast(rest, y[1..]);
        assert y == [y[0]] + y[1..];
        ThinCons(x[0], rest[..|rest| - 1], y[1..]);
        if |y| > 1 {
          assert y[..|y| - 1] == [y[0]] + y[1..][..|y| - 2];
          ThinCons(x[0], rest[..|rest| - 1], y[1..][..|y| - 2]);
        }
      } else {
        ThinLast(rest, y);
        ThinCons(x[0], rest[..|rest| - 1], y);
        if y != "" {
          ThinCons(x[0], rest[..|rest| - 1], y[..|y| - 1]);
        }
      }
    }
  }

  lemma ThinCons(c: char, x: string, y: string)
    ensures Thin(x, y) ==> Thin([c] + x, [c] + y)
    ensures Thin(x, y) && c == '\n' ==> Thin([c] + x, y)
  {
    assert ([c] + x)[1..] == x && ([c] + y)[1..] == y;
  }

  lemma {:induction false} ThinDropFirst(x: string, y: string)
    requires Thin(x, y) && y != "" && y[0] == '\n'
    ensures Thin(x, y[1..])
    decreases |x|
  {
    if !(y[0] == x[0] && Thin(x[1..], y[1..])) {
      ThinDropFirst(x[1..], y);
    }
  }

  lemma {:induction false} ThinDropLast(x: string, y: string)
    requires Thin(x, y) && y != "" && y[|y| - 1] == '\n'
    ensures Thin(x, y[..|y| - 1])
    decreases |x|
  {
    ThinLast(x, y);
    var init, c := x[..|x| - 1], x[|x| - 1];
    assert x == init + [c];
    if c == '\n' && Thin(init, y) {
      ThinDropLast(init, y);
    }
    var kept := y[..|y| - 1];
    ThinAppend(init, kept, [c], "");
    assert kept + "" == kept;
  }

  lemma ThinTrimFront(x: string, y: string)
    requires Thin(x, y)
    ensures Thin(TrimFront(x), TrimFront(y))
  {
    if x != "" && x[0] == '\n' && y != "" && y[0] == '\n' && Thin(x[1..], y) {
      ThinDropFirst(x[1..], y);
    }
  }

  lemma ThinTrimBack(x: string, y: string)
    requires Thin(x, y)
    ensures Thin(TrimBack(x), TrimBack(y))
  {
    if x != "" {
      ThinLast(x, y);
      var init := x[..|x| - 1];
      if y != "" && y[|y| - 1] == '\n' && Thin(init, y) {
        ThinDropLast(init, y);
      }
    }
  }

  lemma ThinHead(x: string, y: string)
    requires Thin(x, y) && x != "" && x[0] != '\n'
    ensures y != "" && y[0] == x[0] && Thin(x[1..], y[1..])
  {
  }

  lemma ThinInside(x: string, y: string)
    requires Thin(x, y) && Wrapped(x)
    ensures Wrapped(y) && Thin(x[2..|x| - 2], y[2..|y| - 2])
  {
    ThinTwo(x, y);
    ThinEnd(x[2..], y[2..]);
    Middle(x);
    Middle(y);
  }

  lemma ThinTwo(x: string, y: string)
    requires Thin(x, y) && |x| >= 2 && x[0] == '<' && x[1] == '<'
    ensures |y| >= 2 && y[0] == '<' && y[1] == '<' && Thin(x[2..], y[2..])
  {
    ThinHead(x, y);
    ThinHead(x[1..], y[1..]);
    assert x[1..][1..] == x[2..] && y[1..][1..] == y[2..];
  }

  lemma Middle(s: string)
    requires |s| >= 4
    ensures s[2..][..|s| - 4] == s[2..|s| - 2]
  {
  }

  lemma ThinEnd(a: string, b: string)
    requires Thin(a, b) && |a| >= 2 && a[|a| - 1] == '>' && a[|a| - 2] == '>'
    ensures |b| >= 2 && b[|b| - 1] == '>' && b[|b| - 2] == '>' && Thin(a[..|a| - 2], b[..|b| - 2])
  {
    ThinLast(a, b);
    var a1, b1 := a[..|a| - 1], b[..|b| - 1];
    ThinLast(a1, b1);
    assert a1[..|a1| - 1] == a[..|a| - 2] && b1[..|b1| - 1] == b[..|b| - 2];
  }

  /** A stripped value loses no more than the text did, unless the loss itself made it a block. */
  lemma ThinStrip(x: string, y: string)
    requires Thin(x, y)
    ensures Thin(StripBlock(x), StripBlock(y)) || Newlines(StripBlock(y)) < Newlines(StripBlock(x))
  {
    ThinCount(x, y);
    if Wrapped(x) {
      ThinInside(x, y);
      ThinTrimFront(x[2..|x| - 2], y[2..|y| - 2]);
      ThinTrimBack(TrimFront(x[2..|x| - 2]), TrimFront(y[2..|y| - 2]));
    } else if Wrapped(y) {
      assert y != x;
      StripNewlines(y);
    }
  }

  lemma {:induction false} NewlinesPart(s: string, i: nat, j: nat)
    requires i <= j <= |s|
    ensures Newlines(s[i..j]) <= Newlines(s)
  {
    CountConcat(s[..i], s[i..j], '\n');
    CountConcat(s[..i] + s[i..j], s[j..], '\n');
    assert s == s[..i] + s[i..j] + s[j..];
  }

  lemma StripNewlines(y: string)
    ensures Newlines(StripBlock(y)) <= Newlines(y)
  {
    if Wrapped(y) {
      var inner := y[2..|y| - 2];
      var front := TrimFront(inner);
      NewlinesPart(y, 2, |y| - 2);
      NewlinesPart(inner, |inner| - |front|, |inner|);
      NewlinesPart(front, 0, |TrimBack(front)|);
    }
  }

  /** An argument read from thin text: a thin key, and a value that is thin or has lost newlines for good. */
  ghost predicate ThinArg(arg: (string, string), arg': (string, string)) {
    && Thin(arg.0, arg'.0)
    && (Thin(arg.1, arg'.1) || Newlines(arg'.1) < Newlines(arg.1))
  }

  lemma ThinRead(x: string, y: string)
    requires Thin(x, y) && '=' in x
    ensures '=' in y && ThinArg(ReadArg(x), ReadArg(y))
  {
    ThinSplit(x, y, '=');
    var i, j := IndexOf(x, '='), IndexOf(y, '=');
    assert x[..|x|] == x;
    ThinStrip(x[i + 1..], y[j + 1..]);
  }
}
