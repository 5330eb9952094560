/** Byte strings, path components and sorted name lists. */
module Paths {
  import opened Words

  const SLASH: byte := 47
  const DOT: byte := 46

  /** A directory entry name: not empty, no slash, no NUL. */
  predicate IsName(n: Str) { n != [] && SLASH !in n && 0 !in n }

  /** std::string::find: the first c at or after position i, or the length. */
  function Find(s: Str, c: byte, i: nat): (r: nat)
    requires i <= |s|
    ensures i <= r <= |s| && (r < |s| ==> s[r] == c) && forall k | i <= k < r :: s[k] != c
    decreases |s| - i
  {
    if i == |s| || s[i] == c then i else Find(s, c, i + 1)
  }

  /** The non-empty pieces between slashes. */
  function Split(s: Str): seq<Str> { Pieces([], s) }

  /** The pieces of `piece + s`, where `piece` has no slash. */
  function Pieces(piece: Str, s: Str): seq<Str>
    decreases |s|
  {
    if s == [] then Flush(piece)
    else if s[0] == SLASH then Flush(piece) + Pieces([], s[1..])
    else Pieces(piece + [s[0]], s[1..])
  }

  function Flush(piece: Str): seq<Str> { if piece == [] then [] else [piece] }

  lemma {:induction false} PiecesRun(piece: Str, run: Str, s: Str)
    requires SLASH !in run
    ensures Pieces(piece, run + s) == Pieces(piece + run, s)
    decreases |run|
  {
    if run == [] {
      assert run + s == s && piece + run == piece;
    } else {
      assert (run + s)[1..] == run[1..] + s;
      PiecesRun(piece + [run[0]], run[1..], s);
      assert piece + [run[0]] + run[1..] == piece + run;
    }
  }

  /** The pieces from position i on. */
  function SplitAfter(s: Str, i: nat): seq<Str> { if i < |s| then Split(s[i..]) else [] }

  /** The first piece from position i ends at e. */
  lemma {:induction false} SplitFrom(s: Str, i: nat, e: nat)
    requires i < |s| && e == Find(s, SLASH, i)
    ensures SplitAfter(s, i) == Flush(s[i..e]) + SplitAfter(s, e + 1)
  {
    assert s[i..] == s[i..e] + s[e..];
    PiecesRun([], s[i..e], s[e..]);
    assert [] + s[i..e] == s[i..e];
    if e < |s| { assert s[e..][1..] == s[e + 1..]; }
  }

  lemma {:induction false} SplitMore(parts: seq<Str>, s: Str, i: nat, e: nat)
    requires i < |s| && e == Find(s, SLASH, i)
    ensures parts + SplitAfter(s, i) == parts + Flush(s[i..e]) + SplitAfter(s, e + 1)
  {
    SplitFrom(s, i, e);
  }

  /** The splitting loop shared by the resolvers and insert_entry, past the leading slash. */
  method SplitPath(path: Str) returns (parts: seq<Str>)
    ensures parts == SplitAfter(path, 1)
  {
    parts := [];
    var start := 1;
    while start < |path|
      invariant 1 <= start && parts + SplitAfter(path, start) == SplitAfter(path, 1)
    {
      var end := Find(path, SLASH, start);
      SplitMore(parts, path, start, end);
      if end > start { parts := parts + [path[start..end]]; }
      start := end + 1;
    }
  }

  /** Splitting around a slash. */
  lemma {:induction false} SplitAppend(piece: Str, a: Str, b: Str)
    ensures Pieces(piece, a + [SLASH] + b) == Pieces(piece, a) + Split(b)
    decreases |a|
  {
    var s := a + [SLASH] + b;
    if a == [] {
      assert s[1..] == b;
    } else {
      assert s[1..] == a[1..] + [SLASH] + b;
      SplitAppend(if a[0] == SLASH then [] else piece + [a[0]], a[1..], b);
    }
  }

  lemma {:induction false} SplitName(n: Str)
    requires n != [] && SLASH !in n
    ensures Split(n) == [n]
  {
    PiecesRun([], n, []);
    assert n + [] == n && [] + n == n;
  }

  predicate AreNames(comps: seq<Str>) { forall k | 0 <= k < |comps| :: IsName(comps[k]) }

  /** Components joined with slashes. */
  function Join(comps: seq<Str>): Str {
    if comps == [] then []
    else if |comps| == 1 then comps[0]
    else Join(comps[..|comps| - 1]) + [SLASH] + comps[|comps| - 1]
  }

  /** Splitting undoes joining. */
  lemma {:induction false} SplitJoin(comps: seq<Str>)
    requires AreNames(comps)
    ensures Split(Join(comps)) == comps
    decreases |comps|
  {
    if |comps| == 1 {
      SplitName(comps[0]);
    } else if |comps| > 1 {
      var front, last := comps[..|comps| - 1], comps[|comps| - 1];
      SplitJoin(front);
      SplitAppend([], Join(front), last);
      SplitName(last);
    }
  }

  /** Also with a slash before, and one after. */
  lemma {:induction false} SplitSlashes(comps: seq<Str>)
    requires AreNames(comps)
    ensures Split([SLASH] + Join(comps)) == comps
    ensures Split([SLASH] + Join(comps) + [SLASH]) == comps
  {
    SplitJoin(comps);
    SplitAppend([], [], Join(comps));
    assert [] + [SLASH] + Join(comps) == [SLASH] + Join(comps);
    SplitAppend([], [SLASH] + Join(comps), []);
    assert [SLASH] + Join(comps) + [SLASH] + [] == [SLASH] + Join(comps) + [SLASH];
  }

  lemma {:induction false} JoinNonEmpty(comps: seq<Str>)
    requires AreNames(comps) && comps != []
    ensures Join(comps) != [] && Join(comps)[0] == comps[0][0]
    ensures Join(comps)[|Join(comps)| - 1] != SLASH && 0 !in Join(comps)
    ensures |comps[0]| <= |Join(comps)| && Join(comps)[..|comps[0]|] == comps[0]
    decreases |comps|
  {
    var last := comps[|comps| - 1];
    assert last[|last| - 1] in last;
    if |comps| > 1 { JoinNonEmpty(comps[..|comps| - 1]); }
  }

  // ---- order ----

  /** Byte-wise lexicographic order. */
  predicate Le(a: Str, b: Str) {
    a == [] || (b != [] && (a[0] < b[0] || (a[0] == b[0] && Le(a[1..], b[1..]))))
  }

  lemma {:induction false} LeTotal(a: Str, b: Str)
    ensures Le(a, b) || Le(b, a)
    ensures Le(a, b) && Le(b, a) ==> a == b
  {
    if a != [] && b != [] {
      LeTotal(a[1..], b[1..]);
      assert a == [a[0]] + a[1..] && b == [b[0]] + b[1..];
    }
  }

  lemma {:induction false} LeTrans(a: Str, b: Str, c: Str)
    requires Le(a, b) && Le(b, c)
    ensures Le(a, c)
  {
    if a != [] && a[0] == b[0] == c[0] { LeTrans(a[1..], b[1..], c[1..]); }
  }

  lemma {:induction false} InhabitedNames(s: set<Str>)
    ensures s == {} || exists a :: a in s
  {
    assert (forall a :: a !in s) ==> s == {};
  }

  lemma {:induction false} LeastName(s: set<Str>) returns (m: Str)
    requires s != {}
    ensures m in s && forall x | x in s :: Le(m, x)
  {
    InhabitedNames(s);
    m :| m in s;
    var rest := s - {m};
    LeTotal(m, m);
    assert forall x | x in s :: x == m || x in rest;
    if rest != {} {
      var n := LeastName(rest);
      LeTotal(m, n);
      if Le(n, m) {
        m := n;
      } else {
        forall x | x in rest ensures Le(m, x) { LeTrans(m, n, x); }
      }
    }
  }

  /** The names of a set in order. */
  ghost function Sorted(s: set<Str>): (r: seq<Str>)
    ensures forall n :: n in r <==> n in s
  {
    if s == {} then []
    else
      LeastNameExists(s);
      var m :| m in s && forall x | x in s :: Le(m, x);
      [m] + Sorted(s - {m})
  }

  lemma {:induction false} LeastNameExists(s: set<Str>)
    requires s != {}
    ensures exists m :: m in s && forall x | x in s :: Le(m, x)
  {
    var m := LeastName(s);
  }

  /** Strictly increasing: in order and without repeats. */
  ghost predicate Ordered(r: seq<Str>) {
    forall j, k | 0 <= j < k < |r| :: Le(r[j], r[k]) && r[j] != r[k]
  }

  lemma {:induction false} SortedOrdered(s: set<Str>)
    ensures Ordered(Sorted(s)) && |Sorted(s)| == |s|
    decreases s
  {
    if s != {} {
      var r := Sorted(s);
      var rest := s - {r[0]};
      assert r == [r[0]] + Sorted(rest);
      SortedOrdered(rest);
      forall k | 0 < k < |r| ensures r[k] in rest { assert r[k] == Sorted(rest)[k - 1]; }
    }
  }

  /** std::sort on the keys of a directory. */
  method SortNames(s: set<Str>) returns (r: seq<Str>)
    ensures r == Sorted(s)
  {
    r := [];
    var rest := s;
    while rest != {}
      invariant r + Sorted(rest) == Sorted(s)
    {
      LeastNameExists(rest);
      var m :| m in rest && forall x | x in rest :: Le(m, x);
      SortStep(r, rest, m);
      r, rest := r + [m], rest - {m};
    }
  }

  lemma {:induction false} SortStep(r: seq<Str>, rest: set<Str>, m: Str)
    requires m in rest && forall x | x in rest :: Le(m, x)
    ensures r + Sorted(rest) == r + [m] + Sorted(rest - {m})
  {
    UniqueLeast(rest, m);
  }

  lemma {:induction false} UniqueLeast(s: set<Str>, m: Str)
    requires m in s && forall x | x in s :: Le(m, x)
    ensures Sorted(s) == [m] + Sorted(s - {m})
  {
    var n := Sorted(s)[0];
    assert n in s && forall x | x in s :: Le(n, x);
    LeTotal(m, n);
  }
}
