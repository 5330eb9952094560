/** The file tree, insertion by path, and rebuilding a tree from its entries. */
module Tree {
  import opened Words
  import opened Paths

  datatype FileType = Regular | Directory | Symlink | CharDev | BlockDev | Fifo | Socket

  datatype Entry = Entry(
    name: Str, kind: FileType, mode: nat, uid: nat, gid: nat, size: nat, mtime: nat,
    link: Str, content: seq<byte>, children: map<Str, Entry>)

  function NewDir(name: Str): Entry { Entry(name, Directory, 0x1ED, 0, 0, 0, 0, [], [], map[]) }

  /** Stores e at a path, making missing directories on the way. */
  function Put(t: Entry, path: seq<Str>, e: Entry): Entry
    requires path != []
    decreases |path|
  {
    if |path| == 1 then t.(children := t.children[path[0] := e])
    else
      var child := if path[0] in t.children then t.children[path[0]] else NewDir(path[0]);
      t.(children := t.children[path[0] := Put(child, path[1..], e)])
  }

  /** What insert_entry does to the root. */
  function Insert(root: Entry, path: Str, e: Entry): Entry {
    var comps := Split(path);
    if comps == [] then root else Put(root, comps, e.(name := comps[|comps| - 1]))
  }

  /** std::string::rfind('/'). */
  function RFind(s: Str): (r: nat)
    requires SLASH in s
    ensures r < |s| && s[r] == SLASH && SLASH !in s[r + 1..]
  {
    if s[|s| - 1] == SLASH then |s| - 1
    else
      assert SLASH in s[..|s| - 1];
      RFind(s[..|s| - 1])
  }

  lemma {:induction false} SplitTrailing(s: Str)
    ensures Split(s + [SLASH]) == Split(s)
  {
    SplitAppend([], s, []);
    assert s + [SLASH] + [] == s + [SLASH];
  }

  lemma {:induction false} SplitLast(s: Str, r: nat)
    requires SLASH in s && r == RFind(s)
    ensures Split(s) == Split(s[..r]) + Flush(s[r + 1..])
  {
    assert s == s[..r] + [SLASH] + s[r + 1..];
    SplitAppend([], s[..r], s[r + 1..]);
    if s[r + 1..] != [] { SplitName(s[r + 1..]); }
  }

  lemma {:induction false} SplitLeading(s: Str)
    requires s == [] || s[0] == SLASH
    ensures Split(s) == SplitAfter(s, 1)
  {
    if s != [] {
      assert Split(s) == Flush([]) + Pieces([], s[1..]);
      if |s| == 1 { assert s[1..] == [] && Pieces([], []) == []; }
    }
  }

  class VirtualFS {
    var root: Entry
    var cwd: Str

    /** An empty file system. */
    constructor ()
      ensures root == NewDir([]) && cwd == [SLASH]
    {
      root, cwd := NewDir([]), [SLASH];
    }

    /** insert_entry. */
    method InsertEntry(path: Str, entry: Entry)
      modifies `root
      ensures root == Insert(old(root), if path != [] && path[0] == SLASH then path else [SLASH] + path, entry)
    {
      var abs := if path != [] && path[0] == SLASH then path else [SLASH] + path;
      ghost var full := abs;
      while |abs| > 1 && abs[|abs| - 1] == SLASH
        invariant root == old(root) && abs != [] && abs[0] == SLASH && Split(abs) == Split(full)
      {
        SplitTrailing(abs[..|abs| - 1]);
        assert abs[..|abs| - 1] + [SLASH] == abs;
        abs := abs[..|abs| - 1];
      }
      var lastSlash := RFind(abs);
      var parentPath, name := abs[..lastSlash], abs[lastSlash + 1..];
      SplitLast(abs, lastSlash);
      SplitLeading(parentPath);
      if parentPath == [] { parentPath := [SLASH]; }
      if name == [] {
        SplitLeading(abs);
        assert Split(full) == [];
        return;
      }
      var parts := SplitPath(parentPath);
      assert parts + [name] == Split(full);
      root := Put(root, parts + [name], entry.(name := name));
    }
  }

  // ---- a tree as a list of entries ----

  datatype Event = Event(path: seq<Str>, entry: Entry)

  function Bare(e: Entry): Entry { e.(children := map[]) }

  ghost function Names(e: Entry): (r: seq<Str>)
    ensures forall n | n in r :: n in e.children
  {
    if e.kind.Directory? then Sorted(e.children.Keys) else []
  }

  /** The entries below e in the order save_tar visits them: parents first. */
  ghost function Events(e: Entry, names: seq<Str>): seq<Event>
    requires forall n | n in names :: n in e.children
    decreases e, |names|
  {
    if names == [] then []
    else
      var n := names[0];
      var c := e.children[n];
      [Event([n], Bare(c))] + Under([n], Events(c, Names(c))) + Events(e, names[1..])
  }

  function Under(p: seq<Str>, evs: seq<Event>): (r: seq<Event>)
    ensures |r| == |evs| && forall k | 0 <= k < |evs| :: r[k] == Event(p + evs[k].path, evs[k].entry)
  {
    seq(|evs|, k requires 0 <= k < |evs| => Event(p + evs[k].path, evs[k].entry))
  }

  ghost predicate Rooted(evs: seq<Event>) { forall k | 0 <= k < |evs| :: evs[k].path != [] }

  lemma {:induction false} EventsRooted(e: Entry, names: seq<Str>)
    requires forall n | n in names :: n in e.children
    ensures Rooted(Events(e, names))
    decreases |names|
  {
    if names != [] { EventsRooted(e, names[1..]); }
  }

  /** Storing the entries one after the other. */
  ghost function Replay(t: Entry, evs: seq<Event>): Entry
    requires Rooted(evs)
    decreases |evs|
  {
    if evs == [] then t else Replay(Put(t, evs[0].path, evs[0].entry), evs[1..])
  }

  lemma {:induction false} ReplayAppend(t: Entry, a: seq<Event>, b: seq<Event>)
    requires Rooted(a) && Rooted(b)
    ensures Rooted(a + b) && Replay(t, a + b) == Replay(Replay(t, a), b)
    decreases |a|
  {
    if a == [] {
      assert a + b == b;
    } else {
      assert (a + b)[1..] == a[1..] + b;
      ReplayAppend(Put(t, a[0].path, a[0].entry), a[1..], b);
    }
  }

  /** Entries below one child change only that child. */
  lemma {:induction false} ReplayUnder(t: Entry, n: Str, evs: seq<Event>)
    requires n in t.children && Rooted(evs)
    ensures Replay(t, Under([n], evs)) == t.(children := t.children[n := Replay(t.children[n], evs)])
    decreases |evs|
  {
    if evs != [] {
      var p := evs[0].path;
      assert ([n] + p)[1..] == p;
      var t1 := Put(t, [n] + p, evs[0].entry);
      assert t1 == t.(children := t.children[n := Put(t.children[n], p, evs[0].entry)]);
      assert Under([n], evs)[1..] == Under([n], evs[1..]);
      ReplayUnder(t1, n, evs[1..]);
    } else {
      assert t.children[n := t.children[n]] == t.children;
    }
  }

  /** Only directories have children. */
  ghost predicate Closed(e: Entry) {
    (!e.kind.Directory? ==> e.children == map[]) && forall n | n in e.children :: Closed(e.children[n])
  }

  function Pick(e: Entry, names: seq<Str>): map<Str, Entry>
    requires forall n | n in names :: n in e.children
  {
    map n | n in names :: e.children[n]
  }

  /** Storing one child and then what is below it. */
  lemma {:induction false} ReplayChild(t: Entry, n: Str, c: Entry, evs: seq<Event>)
    requires Rooted(evs) && Replay(Bare(c), evs) == c
    ensures Rooted([Event([n], Bare(c))] + Under([n], evs))
    ensures Replay(t, [Event([n], Bare(c))] + Under([n], evs)) == t.(children := t.children[n := c])
  {
    var t1 := t.(children := t.children[n := Bare(c)]);
    var first := [Event([n], Bare(c))];
    assert first[1..] == [] && Replay(t, first) == t1;
    ReplayUnder(t1, n, evs);
    ReplayAppend(t, first, Under([n], evs));
    assert t1.children[n := c] == t.children[n := c];
  }

  lemma {:induction false} RebuildChild(c: Entry)
    requires Closed(c)
    ensures Rooted(Events(c, Names(c))) && Replay(Bare(c), Events(c, Names(c))) == c
    decreases c, |Names(c)| + 1
  {
    var names := Names(c);
    EventsRooted(c, names);
    if c.kind.Directory? {
      SortedOrdered(c.children.Keys);
      Rebuild(c, Bare(c), names);
      PickAll(c, names);
    } else {
      assert names == [] && Events(c, names) == [];
    }
  }

  lemma {:induction false} PickAll(c: Entry, names: seq<Str>)
    requires forall n :: n in names <==> n in c.children
    ensures map[] + Pick(c, names) == c.children
  {
  }

  lemma {:induction false} PickNext(e: Entry, m: map<Str, Entry>, names: seq<Str>)
    requires names != [] && (forall n | n in names :: n in e.children) && Ordered(names)
    ensures m[names[0] := e.children[names[0]]] + Pick(e, names[1..]) == m + Pick(e, names)
  {
    assert forall n | n in names :: n == names[0] || n in names[1..];
  }

  /** Storing the entries of e into t gives t the children of e. */
  lemma {:induction false} Rebuild(e: Entry, t: Entry, names: seq<Str>)
    requires Closed(e) && (forall n | n in names :: n in e.children) && Ordered(names)
    ensures Rooted(Events(e, names)) && Replay(t, Events(e, names)) == t.(children := t.children + Pick(e, names))
    decreases e, |names|
  {
    EventsRooted(e, names);
    if names == [] {
      assert t.children + Pick(e, names) == t.children;
    } else {
      var n := names[0];
      var c := e.children[n];
      RebuildChild(c);
      ReplayChild(t, n, c, Events(c, Names(c)));
      var head := [Event([n], Bare(c))] + Under([n], Events(c, Names(c)));
      EventsRooted(e, names[1..]);
      ReplayAppend(t, head, Events(e, names[1..]));
      Rebuild(e, t.(children := t.children[n := c]), names[1..]);
      PickNext(e, t.children, names);
    }
  }
}
