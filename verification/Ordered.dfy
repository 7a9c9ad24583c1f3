/** The ordered map and set of a message: strictly sorted sequences, as std::map and std::set iterate. */
module Ordered {

  type Args = seq<(string, string)>
  type Flags = seq<string>

  /** Byte-lexicographic order. */
  predicate Before(a: string, b: string) {
    if b == "" then false
    else if a == "" then true
    else a[0] < b[0] || (a[0] == b[0] && Before(a[1..], b[1..]))
  }

  lemma {:induction false} BeforeTotal(a: string, b: string)
    ensures !Before(a, a)
    ensures a == b || Before(a, b) || Before(b, a)
  {
    if a != "" && b != "" {
      BeforeTotal(a[1..], b[1..]);
      assert a == [a[0]] + a[1..] && b == [b[0]] + b[1..];
    } else if a != "" {
      BeforeTotal(a[1..], b);
    }
  }

  lemma {:induction false} BeforeTransitive(a: string, b: string, c: string)
    requires Before(a, b) && Before(b, c)
    ensures Before(a, c)
  {
    if a != "" && a[0] == b[0] && b[0] == c[0] {
      BeforeTransitive(a[1..], b[1..], c[1..]);
    }
  }

  /** a is the beginning of b, or has the smaller character where they first differ. */
  ghost predicate DiffersAt(a: string, b: string, n: nat) {
    && n <= |a| && n < |b| && a[..n] == b[..n]
    && (n < |a| ==> a[n] < b[n])
  }

  lemma {:induction false} BeforeIff(a: string, b: string)
    ensures Before(a, b) <==> exists n: nat :: DiffersAt(a, b, n)
  {
    if a == "" && b != "" {
      assert DiffersAt(a, b, 0);
    } else if a != "" && b != "" {
      BeforeIff(a[1..], b[1..]);
      if a[0] < b[0] {
        assert DiffersAt(a, b, 0);
      } else if a[0] == b[0] {
        if n: nat :| DiffersAt(a[1..], b[1..], n) {
          assert a[..n + 1] == [a[0]] + a[1..][..n] && b[..n + 1] == [b[0]] + b[1..][..n];
          assert DiffersAt(a, b, n + 1);
        }
      }
      if n: nat :| DiffersAt(a, b, n) {
        assert n > 0 ==> a[..n][0] == a[0] && b[..n][0] == b[0];
        assert n > 0 ==> a[1..][..n - 1] == a[..n][1..] && b[1..][..n - 1] == b[..n][1..];
        assert n > 0 ==> DiffersAt(a[1..], b[1..], n - 1);
      }
    }
  }

  // ---- Flags: a set ----

  ghost predicate Sorted(flags: Flags) {
    forall i, j :: 0 <= i < j < |flags| ==> Before(flags[i], flags[j])
  }

  function Insert(flags: Flags, f: string): Flags {
    if flags == [] then [f]
    else if f == flags[0] then flags
    else if Before(f, flags[0]) then [f] + flags
    else [flags[0]] + Insert(flags[1..], f)
  }

  function InsertAll(flags: Flags, fs: seq<string>): Flags
    decreases fs
  {
    if fs == [] then flags else InsertAll(Insert(flags, fs[0]), fs[1..])
  }

  function Elements(flags: seq<string>): set<string> {
    set f | f in flags
  }

  lemma {:induction false} InsertSorted(flags: Flags, f: string)
    requires Sorted(flags)
    ensures Sorted(Insert(flags, f))
    ensures Elements(Insert(flags, f)) == Elements(flags) + {f}
  {
    if flags == [] {
    } else if f == flags[0] {
    } else if Before(f, flags[0]) {
      forall j | 0 <= j < |flags| ensures Before(f, flags[j]) {
        if j > 0 {
          BeforeTransitive(f, flags[0], flags[j]);
        }
      }
    } else {
      BeforeTotal(f, flags[0]);
      InsertSorted(flags[1..], f);
      var rest := Insert(flags[1..], f);
      forall j | 0 <= j < |rest| ensures Before(flags[0], rest[j]) {
        assert rest[j] in Elements(rest);
      }
      assert Elements(flags) == {flags[0]} + Elements(flags[1..]);
      assert Elements([flags[0]] + rest) == {flags[0]} + Elements(rest);
    }
  }

  lemma {:induction false} InsertAllSorted(flags: Flags, fs: seq<string>)
    requires Sorted(flags)
    ensures Sorted(InsertAll(flags, fs))
    ensures Elements(InsertAll(flags, fs)) == Elements(flags) + Elements(fs)
    decreases fs
  {
    if fs == [] {
    } else {
      InsertSorted(flags, fs[0]);
      InsertAllSorted(Insert(flags, fs[0]), fs[1..]);
      assert Elements(fs) == {fs[0]} + Elements(fs[1..]);
    }
  }

  lemma ElementsEmpty(flags: Flags)
    ensures flags == [] <==> Elements(flags) == {}
  {
    if flags != [] {
      assert flags[0] in Elements(flags);
    }
  }

  /** A set has one sorted listing. */
  lemma {:induction false} FlagsCanonical(a: Flags, b: Flags)
    requires Sorted(a) && Sorted(b) && Elements(a) == Elements(b)
    ensures a == b
  {
    ElementsEmpty(a);
    ElementsEmpty(b);
    if a != [] {
      assert a[0] in Elements(b) && b[0] in Elements(a);
      var i :| 0 <= i < |a| && a[i] == b[0];
      var j :| 0 <= j < |b| && b[j] == a[0];
      if i > 0 && j > 0 {
        BeforeTransitive(a[0], b[0], a[0]);
        BeforeTotal(a[0], a[0]);
      }
      assert a[0] == b[0];
      forall f ensures f in Elements(a[1..]) <==> f in Elements(b[1..]) {
        BeforeTotal(a[0], a[0]);
        assert f in Elements(a[1..]) <==> f in Elements(a) && f != a[0];
        assert f in Elements(b[1..]) <==> f in Elements(b) && f != b[0];
      }
      FlagsCanonical(a[1..], b[1..]);
      assert a == [a[0]] + a[1..] && b == [b[0]] + b[1..];
    }
  }

  // ---- Arguments: a map ----

  ghost predicate SortedKeys(args: Args) {
    forall i, j :: 0 <= i < j < |args| ==> Before(args[i].0, args[j].0)
  }

  function Put(args: Args, k: string, v: string): Args {
    if args == [] then [(k, v)]
    else if k == args[0].0 then [(k, v)] + args[1..]
    else if Before(k, args[0].0) then [(k, v)] + args
    else [args[0]] + Put(args[1..], k, v)
  }

  /** Later entries overwrite earlier ones with the same key. */
  function PutAll(args: Args, more: seq<(string, string)>): Args
    decreases more
  {
    if more == [] then args else PutAll(Put(args, more[0].0, more[0].1), more[1..])
  }

  function Find(args: Args, k: string): string {
    if args == [] then "" else if args[0].0 == k then args[0].1 else Find(args[1..], k)
  }

  function ToMap(args: Args): map<string, string> {
    if args == [] then map[] else ToMap(args[1..])[args[0].0 := args[0].1]
  }

  lemma {:induction false} ToMapKeys(args: Args, k: string)
    ensures k in ToMap(args) <==> exists i :: 0 <= i < |args| && args[i].0 == k
  {
    if args != [] {
      ToMapKeys(args[1..], k);
      if k in ToMap(args[1..]) {
        var i :| 0 <= i < |args| - 1 && args[1..][i].0 == k;
        assert args[i + 1].0 == k;
      }
      if i :| 0 <= i < |args| && args[i].0 == k {
        assert i > 0 ==> args[1..][i - 1].0 == k;
      }
    }
  }

  lemma FirstKeyFresh(args: Args)
    requires args != [] && SortedKeys(args)
    ensures args[0].0 !in ToMap(args[1..])
  {
    ToMapKeys(args[1..], args[0].0);
    BeforeTotal(args[0].0, args[0].0);
  }

  lemma {:induction false} PutSorted(args: Args, k: string, v: string)
    requires SortedKeys(args)
    ensures SortedKeys(Put(args, k, v))
    ensures ToMap(Put(args, k, v)) == ToMap(args)[k := v]
  {
    if args == [] {
    } else if k == args[0].0 {
      assert ([(k, v)] + args[1..])[1..] == args[1..];
    } else if Before(k, args[0].0) {
      assert ([(k, v)] + args)[1..] == args;
      forall j | 0 <= j < |args| ensures Before(k, args[j].0) {
        if j > 0 {
          BeforeTransitive(k, args[0].0, args[j].0);
        }
      }
    } else {
      BeforeTotal(k, args[0].0);
      PutSorted(args[1..], k, v);
      var rest := Put(args[1..], k, v);
      forall j | 0 <= j < |rest| ensures Before(args[0].0, rest[j].0) {
        ToMapKeys(rest, rest[j].0);
        ToMapKeys(args[1..], rest[j].0);
      }
      assert ([args[0]] + rest)[1..] == rest;
    }
  }

  lemma {:induction false} PutAllSorted(args: Args, more: seq<(string, string)>)
    requires SortedKeys(args)
    ensures SortedKeys(PutAll(args, more))
    decreases more
  {
    if more != [] {
      PutSorted(args, more[0].0, more[0].1);
      PutAllSorted(Put(args, more[0].0, more[0].1), more[1..]);
    }
  }

  /** Lookup by key is lookup in the map. */
  lemma {:induction false} FindIsLookup(args: Args, k: string)
    ensures Find(args, k) == if k in ToMap(args) then ToMap(args)[k] else ""
  {
    if args != [] {
      FindIsLookup(args[1..], k);
    }
  }

  lemma ToMapEmpty(args: Args)
    ensures args == [] <==> ToMap(args) == map[]
  {
    if args != [] {
      assert args[0].0 in ToMap(args);
    }
  }

  /** A map has one sorted listing. */
  lemma {:induction false} ArgsCanonical(a: Args, b: Args)
    requires SortedKeys(a) && SortedKeys(b) && ToMap(a) == ToMap(b)
    ensures a == b
  {
    ToMapEmpty(a);
    ToMapEmpty(b);
    if a != [] {
      var x, y := a[0].0, b[0].0;
      assert x in ToMap(a) && y in ToMap(b);
      ToMapKeys(b, x);
      ToMapKeys(a, y);
      var i :| 0 <= i < |a| && a[i].0 == y;
      var j :| 0 <= j < |b| && b[j].0 == x;
      if i > 0 && j > 0 {
        BeforeTransitive(x, y, x);
        BeforeTotal(x, x);
      }
      assert x == y;
      FirstKeyFresh(a);
      FirstKeyFresh(b);
      assert ToMap(a[1..]) == ToMap(a) - {x} && ToMap(b[1..]) == ToMap(b) - {x};
      assert a[0].1 == ToMap(a)[x] == ToMap(b)[x] == b[0].1;
      ArgsCanonical(a[1..], b[1..]);
      assert a == [a[0]] + a[1..] && b == [b[0]] + b[1..];
    }
  }

  /** A sorted listing is rebuilt by putting its entries in order. */
  lemma {:induction false} PutAllRebuilds(done: Args, rest: Args)
    requires SortedKeys(done + rest)
    ensures PutAll(done, rest) == done + rest
    decreases rest
  {
    if rest == [] {
      assert done + rest == done;
    } else {
      forall i | 0 <= i < |done| ensures Before(done[i].0, rest[0].0) {
        assert (done + rest)[i] == done[i] && (done + rest)[|done|] == rest[0];
      }
      PutLast(done, rest[0].0, rest[0].1);
      assert done + [rest[0]] + rest[1..] == done + rest;
      PutAllRebuilds(done + [rest[0]], rest[1..]);
    }
  }

  lemma {:induction false} PutLast(args: Args, k: string, v: string)
    requires forall i :: 0 <= i < |args| ==> Before(args[i].0, k)
    ensures Put(args, k, v) == args + [(k, v)]
  {
    if args != [] {
      BeforeTotal(k, k);
      if Before(k, args[0].0) {
        BeforeTransitive(k, args[0].0, k);
      }
      PutLast(args[1..], k, v);
      assert args == [args[0]] + args[1..];
    }
  }
}
