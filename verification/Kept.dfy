/** What an archive keeps of any tree, and which trees come back from one. */
module Kept {
  import opened Words
  import opened Paths
  import opened Tree
  import opened Octal
  import opened TarHeader
  import opened Tar
  import opened TarProof
  import opened RoundTrip

  /** A tree with names and links that are C strings, directories as its only inner entries, and
      paths and files whose lengths fit their field. */
  ghost predicate Storable(e: Entry, prefix: Str)
    decreases e, 0
  {
    forall n | n in e.children :: StorableChild(e.children[n], n, ChildPath(prefix, n))
  }

  ghost predicate StorableChild(c: Entry, n: Str, path: Str)
    decreases c, 1
  {
    && IsName(n) && c.name == n && |path| + 2 < Pow8(11) && StorableLeaf(c) && Storable(c, path)
  }

  predicate StorableLeaf(c: Entry) {
    && (!c.kind.Directory? ==> c.children == map[]) && (c.kind.Regular? ==> |c.content| < Pow8(11))
    && (c.kind.Symlink? ==> 0 !in c.link)
  }

  /** What the archive keeps of one entry: sockets become empty files, numbers lose their high
      digits, links what is past 100 bytes. */
  function Kept(c: Entry): Entry {
    c.(kind := KindOf(FlagOf(c.kind)), mode := Low(7, c.mode), uid := Low(7, c.uid), gid := Low(7, c.gid),
       mtime := Low(11, c.mtime), size := if c.kind.Regular? then |c.content| else 0,
       content := if c.kind.Regular? then c.content else [], link := if c.kind.Symlink? then Take(c.link, 100) else [])
  }

  function KeptTree(e: Entry): Entry { Kept(e).(children := map n | n in e.children :: KeptTree(e.children[n])) }

  lemma {:induction false} KeptFits(c: Entry)
    requires StorableLeaf(c)
    ensures LeafFits(Kept(c)) && (Bare(Kept(c)) == Bare(c) <==> LeafFits(c))
  {
    var seven, eleven := 7, 11;
    LowExact(seven, c.mode);
    LowExact(seven, c.uid);
    LowExact(seven, c.gid);
    LowExact(eleven, c.mtime);
  }

  // ---- the same bytes ----

  lemma {:induction false} LowField(len: nat, v: nat)
    requires len > 0
    ensures Field(len, Low(len - 1, v)) == Field(len, v)
  {
    LowDigits(len - 1, v);
  }

  lemma {:induction false} SameFields(h: Header, g: Header, ck: Str)
    requires Fits(h) && |ck| == 8
    requires g == h.(mode := Low(7, h.mode), uid := Low(7, h.uid), gid := Low(7, h.gid), mtime := Low(11, h.mtime))
    ensures Fits(g) && Fields(g, ck) == Fields(h, ck)
  {
    var eight, twelve := 8, 12;
    LowField(eight, h.mode);
    LowField(eight, h.uid);
    LowField(eight, h.gid);
    LowField(twelve, h.mtime);
  }

  lemma {:induction false} SameHeader(h: Header, g: Header)
    requires Fits(h)
    requires g == h.(mode := Low(7, h.mode), uid := Low(7, h.uid), gid := Low(7, h.gid), mtime := Low(11, h.mtime))
    ensures Fits(g) && Render(g) == Render(h)
  {
    SameFields(h, g, Zeros(8));
    SameFields(h, g, ChecksumField(SumFrom(Cat(Fields(h, Zeros(8))), 0)));
  }

  /** An entry and what is kept of it have the same record. */
  lemma {:induction false} SameRecord(path: Str, c: Entry, k: Entry)
    requires Bare(k) == Bare(Kept(c))
    ensures Record(path, k) == Record(path, c)
  {
    var tar := TarPath(path, c);
    assert TarPath(path, k) == tar;
    SameHeader(FileHeader(tar, c), FileHeader(tar, k));
    assert ContentOf(k) == ContentOf(c);
  }

  lemma {:induction false} SameNames(e: Entry)
    ensures KeptTree(e).children.Keys == e.children.Keys && Names(KeptTree(e)) == Names(e)
  {
    assert KeptTree(e).children.Keys == e.children.Keys;
  }

  lemma {:induction false} SameRecords(e: Entry, names: seq<Str>, prefix: Str)
    requires forall n | n in names :: n in e.children
    ensures (forall n | n in names :: n in KeptTree(e).children)
            && Records(KeptTree(e), names, prefix) == Records(e, names, prefix)
    decreases e, |names|
  {
    if names != [] {
      var c, path := e.children[names[0]], ChildPath(prefix, names[0]);
      SameNames(c);
      SameRecord(path, c, KeptTree(c));
      SameRecords(c, Names(c), path);
      SameRecords(e, names[1..], prefix);
    }
  }

  /** A tree and what is kept of it have the same archive. */
  lemma {:induction false} SameArchive(root: Entry)
    ensures Archive(KeptTree(root)) == Archive(root)
  {
    SameNames(root);
    SameRecords(root, Names(root), []);
  }

  // ---- what comes back ----

  lemma {:induction false} KeptSavable(e: Entry, prefix: Str)
    requires Storable(e, prefix)
    ensures Savable(KeptTree(e), prefix)
    decreases e
  {
    forall n | n in e.children ensures SavableChild(KeptTree(e.children[n]), n, ChildPath(prefix, n)) {
      assert StorableChild(e.children[n], n, ChildPath(prefix, n));
      KeptSavable(e.children[n], ChildPath(prefix, n));
      KeptFits(e.children[n]);
      SameLeaf(KeptTree(e.children[n]), Kept(e.children[n]));
    }
  }

  lemma {:induction false} SameLeaf(a: Entry, b: Entry)
    requires Bare(a) == Bare(b)
    ensures LeafFits(a) <==> LeafFits(b)
  {
  }

  lemma {:induction false} KeptSame(c: Entry)
    ensures KeptTree(c) == c <==> Bare(Kept(c)) == Bare(c) && KeptTree(c).children == c.children
  {
    if Bare(Kept(c)) == Bare(c) && KeptTree(c).children == c.children {
      assert KeptTree(c) == c;
    }
  }

  /** What is kept of the children is the children if and only if they are savable. */
  lemma {:induction false} KeptExact(e: Entry, prefix: Str)
    requires Storable(e, prefix)
    ensures KeptTree(e).children == e.children <==> Savable(e, prefix)
    decreases e
  {
    forall n | n in e.children
      ensures KeptTree(e.children[n]) == e.children[n] <==> SavableChild(e.children[n], n, ChildPath(prefix, n))
    {
      assert StorableChild(e.children[n], n, ChildPath(prefix, n));
      KeptExact(e.children[n], ChildPath(prefix, n));
      KeptFits(e.children[n]);
      KeptSame(e.children[n]);
    }
    assert KeptTree(e).children.Keys == e.children.Keys;
    if KeptTree(e).children == e.children {
      forall n | n in e.children ensures SavableChild(e.children[n], n, ChildPath(prefix, n)) {
        assert KeptTree(e.children[n]) == KeptTree(e).children[n];
      }
    }
  }

  /** Saving any storable tree and loading the archive into an empty file system gives what is
      kept of it. */
  lemma {:induction false} LoadKept(root: Entry)
    requires root.kind.Directory? && Storable(root, []) && !HasDot(root)
    ensures Load(ParseRecord, Archive(root), NewDir([])) == NewDir([]).(children := KeptTree(root).children)
  {
    KeptSavable(root, []);
    SameArchive(root);
    SaveLoad(KeptTree(root));
  }

  /** The same files come back if and only if the tree is savable. */
  lemma {:induction false} SaveLoadExact(root: Entry)
    requires root.kind.Directory? && Storable(root, []) && !HasDot(root)
    ensures Load(ParseRecord, Archive(root), NewDir([])) == NewDir([]).(children := root.children)
            <==> Savable(root, [])
  {
    LoadKept(root);
    KeptExact(root, []);
  }

  // ---- a directory named "." at the root ----

  const DOT_SLASH: Str := [DOT, SLASH]

  lemma {:induction false} SkipsDot(c: Entry, rest: Str)
    requires c.kind.Directory?
    ensures ParseRecord(Record([DOT], c) + rest) == Skip(512) && |Record([DOT], c)| == 512
  {
    var h := FileHeader(DOT_SLASH, c);
    assert TarPath([DOT], c) == DOT_SLASH && Record([DOT], c) == Render(h);
    RenderReads(h, rest);
    ShortHandsOn(DOT_SLASH, c, rest);
    NoPrefix(Render(h) + rest, h, DOT_SLASH);
    assert DOT_SLASH[..2] == DOT_SLASH && DropDot(DOT_SLASH) == [];
  }

  lemma {:induction false} LoadSkips(d: Str, rest: Str, t: Entry)
    requires |d| == 512 && ParseRecord(d + rest) == Skip(512)
    ensures Load(ParseRecord, d + rest, t) == Load(ParseRecord, rest, t)
  {
    assert Drop(d + rest, 512) == rest;
  }

  /** A root that holds nothing but an empty directory named "." comes back empty. */
  lemma {:induction false} DotIsLost(root: Entry, c: Entry)
    requires root.kind.Directory? && root.children == map[[DOT] := c]
    requires c.kind.Directory? && c.children == map[] && c.name == [DOT] && LeafFits(c)
    ensures Storable(root, []) && Load(ParseRecord, Archive(root), NewDir([])) == NewDir([])
  {
    var names := Names(root);
    SortedOrdered(root.children.Keys);
    assert root.children.Keys == {[DOT]};
    assert names == [[DOT]] by { OneName(names, root.children.Keys); }
    assert Names(c) == [] && Records(c, [], [DOT]) == [] && Records(root, [], []) == [];
    assert names[1..] == [] && Records(root, names, []) == Record([DOT], c);
    SkipsDot(c, Zeros(1024));
    LoadSkips(Record([DOT], c), Zeros(1024), NewDir([]));
    LoadEnd(NewDir([]));
    assert IsName([DOT]);
  }

  lemma {:induction false} OneName(names: seq<Str>, keys: set<Str>)
    requires names == Sorted(keys) && keys == {[DOT]}
    ensures names == [[DOT]]
  {
    SortedOrdered(keys);
    assert names[0] in keys;
  }
}
