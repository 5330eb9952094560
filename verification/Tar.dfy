/** Saving a file tree to a tar archive and loading one. */
module Tar {
  import opened Words
  import opened Paths
  import opened Tree
  import opened Octal
  import opened TarHeader

  const USTAR: Str := [117, 115, 116, 97, 114]
  const ROOT: Str := [114, 111, 111, 116]
  /** "././@LongLink" */
  const LONG_LINK: Str := [46, 47, 46, 47, 64, 76, 111, 110, 103, 76, 105, 110, 107]

  function FlagOf(kind: FileType): byte {
    match kind
    case Regular => 48 case Directory => 53 case Symlink => 50 case CharDev => 51
    case BlockDev => 52 case Fifo => 54 case Socket => 48
  }

  function KindOf(flag: byte): FileType {
    if flag == 50 then Symlink else if flag == 51 then CharDev else if flag == 52 then BlockDev
    else if flag == 53 then Directory else if flag == 54 then Fifo else Regular
  }

  // ---- saving ----

  function RoundUp(n: nat): (r: nat)
    ensures n <= r
  {
    (n + 511) / 512 * 512
  }

  /** Padded to whole blocks. */
  function Blocked(s: Str): Str { Pad(s, RoundUp(|s|)) }

  /** Directories get a trailing slash. */
  function TarPath(path: Str, e: Entry): Str {
    if e.kind.Directory? && path != [] && path[|path| - 1] != SLASH then path + [SLASH] else path
  }

  function Take(s: Str, n: nat): Str { if |s| <= n then s else s[..n] }

  function FileHeader(tar: Str, e: Entry): (h: Header)
    ensures Fits(h)
  {
    Header(Take(tar, 100), e.mode, e.uid, e.gid, if e.kind.Regular? then |e.content| else 0, e.mtime, FlagOf(e.kind),
           if e.kind.Symlink? then Take(e.link, 100) else [], USTAR + [0, 48, 48] + Pad(ROOT, 32) + ROOT)
  }

  function LongHeader(size: nat): (h: Header)
    ensures Fits(h)
  {
    Header(LONG_LINK, 0, 0, 0, size, 0, 76, [], USTAR + [32, 32])
  }

  function LongName(tar: Str): Str {
    if |tar| > 100 then Render(LongHeader(|tar| + 1)) + Blocked(tar + [0]) else []
  }

  /** One entry of the archive. */
  function Record(path: Str, e: Entry): Str {
    var tar := TarPath(path, e);
    LongName(tar) + Render(FileHeader(tar, e)) + ContentOf(e)
  }

  function ChildPath(prefix: Str, n: Str): Str { if prefix == [] then n else prefix + [SLASH] + n }

  /** The entries of e for these names, each followed by what is below it. */
  ghost function Records(e: Entry, names: seq<Str>, prefix: Str): Str
    requires forall n | n in names :: n in e.children
    decreases e, |names|
  {
    if names == [] then []
    else Subtree(ChildPath(prefix, names[0]), e.children[names[0]]) + Records(e, names[1..], prefix)
  }

  /** An entry and what is below it. */
  ghost function Subtree(path: Str, c: Entry): Str
    decreases c, |Names(c)| + 1
  {
    Record(path, c) + Records(c, Names(c), path)
  }

  method EmitLongName(out: Str, tar: Str) returns (r: Str)
    requires |tar| > 100
    ensures r == out + LongName(tar)
  {
    var header := BuildHeader(LongHeader(|tar| + 1));
    var padded := (|tar| + 1 + 511) / 512 * 512;
    r := out + header[..] + (tar + [0] + Zeros(padded - (|tar| + 1)));
  }

  /** Content padded to a block boundary. */
  method EmitContent(out: Str, content: Str) returns (r: Str)
    ensures r == out + Blocked(content)
  {
    r := out + content;
    var remainder := |content| % 512;
    if remainder != 0 { r := r + Zeros(512 - remainder); }
    Remainder(|content|);
    assert Blocked(content) == content + Zeros(if remainder == 0 then 0 else 512 - remainder);
  }

  lemma {:induction false} Remainder(n: nat)
    ensures RoundUp(n) == n + (if n % 512 == 0 then 0 else 512 - n % 512)
  {
  }

  function ContentOf(e: Entry): Str { if e.kind.Regular? then Blocked(e.content) else [] }

  /** emit_tar_header. */
  method EmitTarHeader(out: Str, path: Str, e: Entry) returns (r: Str)
    ensures r == out + Record(path, e)
  {
    var tar := path;
    if e.kind.Directory? && tar != [] && tar[|tar| - 1] != SLASH { tar := tar + [SLASH]; }
    r := out;
    if |tar| > 100 { r := EmitLongName(r, tar); }
    var header := BuildHeader(FileHeader(tar, e));
    r := r + header[..];
    if e.kind.Regular? && |e.content| > 0 {
      r := EmitContent(r, e.content);
    }
    Assoc(out, LongName(tar), Render(FileHeader(tar, e)), ContentOf(e));
  }

  lemma {:induction false} RecordsStep(out: Str, e: Entry, names: seq<Str>, k: nat, prefix: Str)
    requires k < |names| && forall n | n in names :: n in e.children
    ensures out + Records(e, names[k..], prefix)
         == out + Subtree(ChildPath(prefix, names[k]), e.children[names[k]]) + Records(e, names[k + 1..], prefix)
  {
    assert names[k..][1..] == names[k + 1..];
    assert Records(e, names[k..], prefix)
        == Subtree(ChildPath(prefix, names[k]), e.children[names[k]]) + Records(e, names[k + 1..], prefix);
  }

  /** The loop of save_tar_recursive. */
  method SaveNames(out: Str, node: Entry, names: seq<Str>, prefix: Str) returns (r: Str)
    requires forall n | n in names :: n in node.children
    ensures r == out + Records(node, names, prefix)
    decreases node, 0
  {
    r := out;
    assert names[0..] == names;
    for k := 0 to |names|
      invariant r + Records(node, names[k..], prefix) == out + Records(node, names, prefix)
    {
      RecordsStep(r, node, names, k, prefix);
      var path := if prefix == [] then names[k] else prefix + [SLASH] + names[k];
      r := SaveChild(r, path, node.children[names[k]]);
    }
    assert names[|names|..] == [];
  }

  method SaveChild(out: Str, path: Str, child: Entry) returns (r: Str)
    ensures r == out + Subtree(path, child)
    decreases child, 2
  {
    r := EmitTarHeader(out, path, child);
    if child.kind.Directory? { r := SaveRecursive(r, child, path); } else { LeafRecords(r, path, child); }
    SubtreeParts(out, path, child);
  }

  lemma {:induction false} SubtreeParts(out: Str, path: Str, c: Entry)
    ensures out + Subtree(path, c) == out + Record(path, c) + Records(c, Names(c), path)
  {
    Assoc(out, Record(path, c), Records(c, Names(c), path), []);
  }

  lemma {:induction false} LeafRecords(out: Str, path: Str, c: Entry)
    requires !c.kind.Directory?
    ensures out + Records(c, Names(c), path) == out
  {
    assert Records(c, [], path) == [];
  }

  /** save_tar_recursive. */
  method SaveRecursive(out: Str, node: Entry, prefix: Str) returns (r: Str)
    requires node.kind.Directory?
    ensures r == out + Records(node, Names(node), prefix)
    decreases node, 1
  {
    var names := SortNames(node.children.Keys);
    r := SaveNames(out, node, names, prefix);
  }

  ghost function Archive(root: Entry): Str { Records(root, Names(root), []) + Zeros(1024) }

  /** save_tar. */
  method SaveTar(fs: VirtualFS) returns (out: Str)
    requires fs.root.kind.Directory?
    ensures out == Archive(fs.root)
  {
    out := SaveRecursive([], fs.root, []);
    ghost var records := Records(fs.root, Names(fs.root), []);
    assert [] + records == records;
    out := out + Zeros(1024);
  }

  // ---- loading ----

  /** A C string: up to the first NUL. */
  function Trim(s: Str): Str { s[..Find(s, 0, 0)] }

  /** Bytes consumed: at least the header. */
  type Used = n: nat | n >= 512 witness 512

  datatype Parsed = Stop | Skip(used: Used) | Found(used: Used, name: Str, entry: Entry)

  /** One round of load_tar, on what is left of the archive. A long name whose data or
      header is cut off ends the load. */
  function ParseRecord(d: Str): Parsed {
    if |d| < 512 || d[..512] == Zeros(512) then Stop
    else
      var first := Trim(d[..100]);
      if first == LONG_LINK then ParseLinked(d) else ParseHeader(d, first, 0)
  }

  /** A LongLink entry and the header after its name. */
  function ParseLinked(d: Str): Parsed
    requires |d| >= 512
  {
    var len := Parse(0, d[124..136]);
    var skip := 512 + RoundUp(len);
    if skip + 512 > |d| then Stop else ParseHeader(d[skip..], Trim(d[512..512 + len]), skip)
  }

  function WithPrefix(d: Str, name: Str): Str
    requires |d| >= 512
  {
    var prefix := Trim(d[345..500]);
    if d[257..262] == USTAR && prefix != [] then prefix + [SLASH] + name else name
  }

  function DropDot(name: Str): Str { if |name| >= 2 && name[..2] == [DOT, SLASH] then name[2..] else name }

  function ParseHeader(d: Str, name0: Str, skip: nat): Parsed
    requires |d| >= 512
  {
    var name := DropDot(WithPrefix(d, name0));
    if name == [] then Skip(skip + 512)
    else
      var kind, size := KindOf(d[156]), Parse(0, d[124..136]);
      if kind.Regular? && size > 0 then
        if 512 + size > |d| then Stop
        else Found(skip + 512 + RoundUp(size), name, ParseEntry(d, kind, size, d[512..512 + size]))
      else Found(skip + 512, name, ParseEntry(d, kind, size, []))
  }

  function ParseEntry(d: Str, kind: FileType, size: nat, content: Str): Entry
    requires |d| >= 512
  {
    Entry([], kind, Parse(0, d[100..108]), Parse(0, d[108..116]), Parse(0, d[116..124]), size, Parse(0, d[136..148]),
          Trim(d[157..257]), content, map[])
  }

  function Drop(d: Str, n: nat): Str { if n <= |d| then d[n..] else [] }

  /** What loading the archive d makes of the tree, given how records are read. */
  function Load(parse: Str -> Parsed, d: Str, root: Entry): Entry
    decreases |d|
  {
    if |d| < 512 then root
    else
      match parse(d)
      case Stop => root
      case Skip(n) => Load(parse, Drop(d, n), root)
      case Found(n, name, e) => Load(parse, Drop(d, n), Insert(root, [SLASH] + name, e))
  }

  /** The loop of load_tar. */
  method LoadRecords(fs: VirtualFS, data: Str, parse: Str -> Parsed)
    modifies fs`root
    ensures fs.root == Load(parse, data, old(fs.root))
  {
    var offset := 0;
    ghost var goal := Load(parse, data, fs.root);
    assert Drop(data, 0) == data;
    while offset + 512 <= |data|
      invariant Load(parse, Drop(data, offset), fs.root) == goal
    {
      var p := parse(data[offset..]);
      if p.Stop? { return; }
      if p.Found? { Store(fs, p.name, p.entry); }
      offset := offset + p.used;
    }
    LoadDone(parse, data, offset, fs.root);
  }

  method Store(fs: VirtualFS, name: Str, e: Entry)
    modifies fs`root
    ensures fs.root == Insert(old(fs.root), [SLASH] + name, e)
  {
    fs.InsertEntry([SLASH] + name, e);
  }

  lemma {:induction false} LoadDone(parse: Str -> Parsed, data: Str, offset: nat, root: Entry)
    requires offset + 512 > |data|
    ensures Load(parse, Drop(data, offset), root) == root
  {
  }

  /** load_tar. */
  method LoadTar(fs: VirtualFS, data: Str)
    modifies fs`root
    ensures fs.root == Load(ParseRecord, data, old(fs.root))
  {
    LoadRecords(fs, data, ParseRecord);
  }
}
