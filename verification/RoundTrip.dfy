/** Loading a saved archive rebuilds the tree. */
module RoundTrip {
  import opened Words
  import opened Paths
  import opened Tree
  import opened Octal
  import opened TarHeader
  import opened Tar
  import opened TarProof

  /** What the archive can hold below e, whose own path is `prefix`. */
  ghost predicate Savable(e: Entry, prefix: Str)
    decreases e, 0
  {
    forall n | n in e.children :: SavableChild(e.children[n], n, ChildPath(prefix, n))
  }

  ghost predicate SavableChild(c: Entry, n: Str, path: Str)
    decreases c, 1
  {
    && IsName(n) && c.name == n && LeafFits(c) && (!c.kind.Directory? ==> c.children == map[])
    && |path| + 2 < Pow8(11) && Savable(c, path)
  }

  // ---- one entry ----

  /** A component list that does not begin with ".". */
  ghost predicate Proper(comps: seq<Str>) { AreNames(comps) && comps != [] && comps[0] != [DOT] }

  lemma {:induction false} NotDotSlash(comps: seq<Str>)
    requires Proper(comps)
    ensures var p := Join(comps);
            p != [] && 0 !in p && p[|p| - 1] != SLASH && DropDot(p) == p && DropDot(p + [SLASH]) == p + [SLASH]
  {
    var p, first := Join(comps), comps[0];
    JoinNonEmpty(comps);
    if |first| == 1 {
      assert first == [first[0]];
    } else {
      assert p[1] == first[1] && first[1] in first;
    }
    Undotted(p);
    Undotted(p + [SLASH]);
  }

  lemma {:induction false} Undotted(q: Str)
    requires q != [] && (q[0] != DOT || (|q| > 1 && q[1] != SLASH))
    ensures DropDot(q) == q
  {
    if |q| > 1 { assert q[..2] == [q[0], q[1]]; }
  }

  /** The path of c does not begin with "./", which load_tar skips. */
  ghost predicate Placeable(comps: seq<Str>, c: Entry) { Proper(comps) || (comps == [[DOT]] && !c.kind.Directory?) }

  lemma {:induction false} PathIsPlain(comps: seq<Str>, c: Entry)
    requires Placeable(comps, c) && |Join(comps)| + 2 < Pow8(11)
    ensures PlainPath(TarPath(Join(comps), c))
    ensures Split([SLASH] + TarPath(Join(comps), c)) == comps
  {
    if Proper(comps) {
      NotDotSlash(comps);
    } else {
      assert Join([[DOT]]) == [DOT];
    }
    SplitSlashes(comps);
    assert [SLASH] + (Join(comps) + [SLASH]) == [SLASH] + Join(comps) + [SLASH];
  }

  lemma {:induction false} LoadFound(d: Str, rest: Str, t: Entry, name: Str, e: Entry)
    requires |d| >= 512 && ParseRecord(d + rest) == Found(|d|, name, e)
    ensures Load(ParseRecord, d + rest, t) == Load(ParseRecord, rest, Insert(t, [SLASH] + name, e))
  {
    LoadNext(ParseRecord, d, rest, t, name, e);
  }

  lemma {:induction false} LoadNext(parse: Str -> Parsed, d: Str, rest: Str, t: Entry, name: Str, e: Entry)
    requires |d| >= 512 && parse(d + rest) == Found(|d|, name, e)
    ensures Load(parse, d + rest, t) == Load(parse, rest, Insert(t, [SLASH] + name, e))
  {
    assert Drop(d + rest, |d|) == rest;
  }

  lemma {:induction false} InsertIsPut(t: Entry, path: Str, comps: seq<Str>, e: Entry, name: Str)
    requires Split(path) == comps && comps != [] && name == comps[|comps| - 1]
    ensures Insert(t, path, e.(name := [])) == Put(t, comps, e.(name := name))
  {
  }

  /** Loading one record stores its entry. */
  lemma {:induction false} LoadRecord(comps: seq<Str>, c: Entry, rest: Str, t: Entry)
    requires Placeable(comps, c) && |Join(comps)| + 2 < Pow8(11) && LeafFits(c) && c.name == comps[|comps| - 1]
    ensures Load(ParseRecord, Record(Join(comps), c) + rest, t) == Load(ParseRecord, rest, Put(t, comps, Bare(c)))
  {
    var path := Join(comps);
    PathIsPlain(comps, c);
    ParseRecordOf(path, c, rest);
    InsertIsPut(t, [SLASH] + TarPath(path, c), comps, Bare(c), c.name);
    LoadFound(Record(path, c), rest, t, TarPath(path, c), Bare(c).(name := []));
  }

  // ---- all entries ----

  lemma {:induction false} UnderUnder(p: seq<Str>, n: Str, evs: seq<Event>)
    ensures Under(p, Under([n], evs)) == Under(p + [n], evs)
  {
    assert forall k | 0 <= k < |evs| :: p + ([n] + evs[k].path) == p + [n] + evs[k].path;
  }

  lemma {:induction false} UnderAppend(p: seq<Str>, a: seq<Event>, b: seq<Event>)
    ensures Under(p, a + b) == Under(p, a) + Under(p, b)
  {
  }

  lemma {:induction false} UnderRooted(p: seq<Str>, evs: seq<Event>)
    requires Rooted(evs)
    ensures Rooted(Under(p, evs))
  {
  }

  /** Storing one child, what is below it, and the children after it. */
  lemma {:induction false} ReplayParts(t: Entry, p: seq<Str>, n: Str, c: Entry, below: seq<Event>, after: seq<Event>)
    requires Rooted(below) && Rooted(after)
    ensures var evs := [Event([n], Bare(c))] + Under([n], below) + after;
            Rooted(evs) && Rooted(Under(p, evs)) && Rooted(Under(p + [n], below)) && Rooted(Under(p, after))
            && Replay(t, Under(p, evs))
               == Replay(Replay(Put(t, p + [n], Bare(c)), Under(p + [n], below)), Under(p, after))
  {
    var first := [Event([n], Bare(c))];
    var first' := [Event(p + [n], Bare(c))];
    UnderAppend(p, first, Under([n], below));
    UnderAppend(p, first + Under([n], below), after);
    UnderUnder(p, n, below);
    assert Under(p, first) == first';
    assert first'[1..] == [] && Replay(t, first') == Put(t, p + [n], Bare(c));
    UnderRooted(p + [n], below);
    UnderRooted(p, after);
    ReplayAppend(t, first', Under(p + [n], below));
    ReplayAppend(t, first' + Under(p + [n], below), Under(p, after));
  }

  /** The path of a child. */
  lemma {:induction false} JoinChild(comps: seq<Str>, n: Str)
    requires AreNames(comps)
    ensures ChildPath(Join(comps), n) == Join(comps + [n])
  {
    assert (comps + [n])[..|comps|] == comps;
    if comps != [] { JoinNonEmpty(comps); }
  }

  /** Records of e below the path comps: loading them replays its entries there. */
  ghost predicate Within(e: Entry, names: seq<Str>, comps: seq<Str>) {
    && (forall n | n in names :: n in e.children) && Savable(e, Join(comps)) && AreNames(comps)
    && (comps == [] && [DOT] in names ==> !e.children[[DOT]].kind.Directory?)
    && (comps != [] && names != [] ==> comps[0] != [DOT])
  }

  lemma {:induction false} WithinChild(e: Entry, names: seq<Str>, comps: seq<Str>)
    requires Within(e, names, comps) && names != []
    ensures var n, c := names[0], e.children[names[0]];
            && Within(c, Names(c), comps + [n]) && Placeable(comps + [n], c) && |Join(comps + [n])| + 2 < Pow8(11)
            && LeafFits(c) && c.name == n && ChildPath(Join(comps), n) == Join(comps + [n])
    ensures Within(e, names[1..], comps)
  {
    var n := names[0];
    JoinChild(comps, n);
    assert n in names && SavableChild(e.children[n], n, ChildPath(Join(comps), n));
  }

  lemma {:induction false} LoadRecords(e: Entry, names: seq<Str>, comps: seq<Str>, rest: Str, t: Entry)
    requires Within(e, names, comps)
    ensures Rooted(Under(comps, Events(e, names)))
    ensures Load(ParseRecord, Records(e, names, Join(comps)) + rest, t)
         == Load(ParseRecord, rest, Replay(t, Under(comps, Events(e, names))))
    decreases e, |names|
  {
    if names == [] {
      assert Records(e, names, Join(comps)) + rest == rest;
    } else {
      WithinChild(e, names, comps);
      var n, c := names[0], e.children[names[0]];
      var path, after := Join(comps + [n]), Records(e, names[1..], Join(comps));
      EventsRooted(c, Names(c));
      EventsRooted(e, names[1..]);
      ReplayParts(t, comps, n, c, Events(c, Names(c)), Events(e, names[1..]));
      RecordsShape(e, names, Join(comps), rest);
      var t1 := Put(t, comps + [n], Bare(c));
      LoadRecord(comps + [n], c, Records(c, Names(c), path) + (after + rest), t);
      LoadRecords(c, Names(c), comps + [n], after + rest, t1);
      LoadRecords(e, names[1..], comps, rest, Replay(t1, Under(comps + [n], Events(c, Names(c)))));
    }
  }

  lemma {:induction false} RecordsShape(e: Entry, names: seq<Str>, prefix: Str, rest: Str)
    requires names != [] && forall n | n in names :: n in e.children
    ensures var c, path := e.children[names[0]], ChildPath(prefix, names[0]);
            Records(e, names, prefix) + rest
            == Record(path, c) + (Records(c, Names(c), path) + (Records(e, names[1..], prefix) + rest))
  {
    var c, path := e.children[names[0]], ChildPath(prefix, names[0]);
    Assoc(Record(path, c), Records(c, Names(c), path), Records(e, names[1..], prefix), rest);
  }

  lemma {:induction false} LoadEnd(t: Entry)
    ensures Load(ParseRecord, Zeros(1024), t) == t
  {
    assert Zeros(1024)[..512] == Zeros(512);
    assert ParseRecord(Zeros(1024)) == Stop;
  }

  lemma {:induction false} SavableClosed(e: Entry, prefix: Str)
    requires Savable(e, prefix) && e.kind.Directory?
    ensures Closed(e)
    decreases e
  {
    forall n | n in e.children ensures Closed(e.children[n]) {
      assert SavableChild(e.children[n], n, ChildPath(prefix, n));
      if e.children[n].kind.Directory? { SavableClosed(e.children[n], ChildPath(prefix, n)); }
    }
  }

  /** A directory named "." at the root, whose tar path "./" load_tar skips. */
  predicate HasDot(root: Entry) { [DOT] in root.children && root.children[[DOT]].kind.Directory? }

  /** Loading a saved tree into an empty file system gives the same files. */
  lemma {:induction false} SaveLoad(root: Entry)
    requires root.kind.Directory? && Savable(root, []) && !HasDot(root)
    ensures Load(ParseRecord, Archive(root), NewDir([])) == NewDir([]).(children := root.children)
  {
    var names := Names(root);
    SortedOrdered(root.children.Keys);
    SavableClosed(root, []);
    LoadRecords(root, names, [], Zeros(1024), NewDir([]));
    EventsRooted(root, names);
    UnderNothing(Events(root, names));
    Rebuild(root, NewDir([]), names);
    PickAll(root, names);
    LoadEnd(NewDir([]).(children := root.children));
  }

  lemma {:induction false} UnderNothing(evs: seq<Event>)
    ensures Under([], evs) == evs
  {
    assert forall k | 0 <= k < |evs| :: [] + evs[k].path == evs[k].path;
  }
}
