/** String searches shared by every layer. A `char` stands for one byte of a message. */
module Strings {

  lemma Assoc<T>(a: seq<T>, b: seq<T>, c: seq<T>)
    ensures a + b + c == a + (b + c)
  {
  }

  /** c does not occur in s. */
  predicate Lacks(s: string, c: char) {
    forall i :: 0 <= i < |s| ==> s[i] != c
  }

  /** First index of c in s; |s| plays the part of npos. */
  function IndexOf(s: string, c: char): (i: nat)
    ensures i <= |s|
    ensures forall j :: 0 <= j < i ==> s[j] != c
    ensures i < |s| ==> s[i] == c
  {
    if s == "" || s[0] == c then 0 else 1 + IndexOf(s[1..], c)
  }

  lemma SplitAt(s: string, c: char, at: nat)
    requires at < |s| && s[at] == c
    ensures s == s[..at] + [c] + s[at + 1..]
  {
  }

  lemma IndexOfUnique(s: string, c: char, i: nat)
    requires i <= |s| && (forall j :: 0 <= j < i ==> s[j] != c) && (i < |s| ==> s[i] == c)
    ensures IndexOf(s, c) == i
  {
  }

  /** The two characters at i and i + 1 are both c: "<<" or ">>" at i. */
  predicate PairAt(s: string, c: char, i: int) {
    0 <= i < |s| - 1 && s[i] == c && s[i + 1] == c
  }

  ghost predicate HasPair(s: string, c: char) {
    exists i :: PairAt(s, c, i)
  }

  /** First index at or after `from` of the pair cc; |s| plays the part of npos. */
  function FindPair(s: string, c: char, from: nat): (i: nat)
    requires from <= |s|
    ensures from <= i <= |s|
    ensures forall j :: from <= j < i ==> !PairAt(s, c, j)
    ensures i < |s| ==> PairAt(s, c, i)
    decreases |s| - from
  {
    if from == |s| || PairAt(s, c, from) then from else FindPair(s, c, from + 1)
  }

  lemma FindPairUnique(s: string, c: char, from: nat, i: nat)
    requires from <= i <= |s|
    requires forall j :: from <= j < i ==> !PairAt(s, c, j)
    requires i < |s| ==> PairAt(s, c, i)
    ensures FindPair(s, c, from) == i
  {
    var j := FindPair(s, c, from);
    assert j < |s| ==> PairAt(s, c, j);
    assert i < |s| ==> PairAt(s, c, i);
  }

  /** No pair straddles the seam of a + b unless a ends and b begins with c. */
  lemma NoPairConcat(a: string, b: string, c: char)
    requires !HasPair(a, c) && !HasPair(b, c)
    requires a == "" || b == "" || a[|a| - 1] != c || b[0] != c
    ensures !HasPair(a + b, c)
  {
    forall i ensures !PairAt(a + b, c, i) {
      assert PairAt(a + b, c, i) ==> PairAt(a, c, i) || PairAt(b, c, i - |a|) || i == |a| - 1;
    }
  }

  lemma NoPairPart(a: string, b: string, c: char)
    requires !HasPair(a + b, c)
    ensures !HasPair(a, c) && !HasPair(b, c)
  {
    forall i ensures !PairAt(a, c, i) && !PairAt(b, c, i) {
      assert PairAt(a, c, i) ==> PairAt(a + b, c, i);
      assert PairAt(b, c, i) ==> PairAt(a + b, c, i + |a|);
    }
  }

  lemma NoCharNoPair(s: string, c: char)
    requires Lacks(s, c)
    ensures !HasPair(s, c)
  {
  }

  function Concat(parts: seq<string>): string {
    if parts == [] then "" else parts[0] + Concat(parts[1..])
  }

  function Count(s: string, c: char): nat {
    if s == "" then 0 else (if s[0] == c then 1 else 0) + Count(s[1..], c)
  }

  lemma {:induction false} CountConcat(a: string, b: string, c: char)
    ensures Count(a + b, c) == Count(a, c) + Count(b, c)
  {
    if a == "" {
      assert a + b == b;
    } else {
      assert (a + b)[1..] == a[1..] + b;
      CountConcat(a[1..], b, c);
    }
  }

  function Repeat(c: char, n: nat): (s: string)
    ensures |s| == n
    ensures forall i :: 0 <= i < n ==> s[i] == c
  {
    if n == 0 then "" else [c] + Repeat(c, n - 1)
  }
}
