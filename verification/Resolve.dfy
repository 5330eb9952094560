/** The two path resolvers. */
module Resolve {
  import opened Words
  import opened Paths
  import opened Tree

  const DOT_DOT: Str := [46, 46]

  /** make_absolute. */
  function Absolute(cwd: Str, path: Str): Str {
    if path == [] then cwd
    else if path[0] == SLASH then path
    else if cwd == [SLASH] then [SLASH] + path
    else cwd + [SLASH] + path
  }

  /** The names lead from the root through existing entries. */
  predicate Exists(root: Entry, at: seq<Str>) {
    at != [] ==> at[0] in root.children && Exists(root.children[at[0]], at[1..])
  }

  function At(root: Entry, at: seq<Str>): Entry
    requires Exists(root, at)
  {
    if at == [] then root else At(root.children[at[0]], at[1..])
  }

  lemma {:induction false} AtAppend(root: Entry, at: seq<Str>, n: Str)
    requires Exists(root, at)
    ensures Exists(root, at + [n]) <==> n in At(root, at).children
    ensures n in At(root, at).children ==> At(root, at + [n]) == At(root, at).children[n]
    decreases |at|
  {
    if at != [] {
      assert (at + [n])[0] == at[0] && (at + [n])[1..] == at[1..] + [n];
      AtAppend(root.children[at[0]], at[1..], n);
    } else {
      assert (at + [n])[1..] == [];
    }
  }

  lemma {:induction false} ExistsPrefix(root: Entry, at: seq<Str>, k: nat)
    requires Exists(root, at) && k <= |at|
    ensures Exists(root, at[..k])
    decreases |at|
  {
    if k > 0 {
      assert at[..k][1..] == at[1..][..k - 1];
      ExistsPrefix(root.children[at[0]], at[1..], k - 1);
    }
  }

  function Up(at: seq<Str>): seq<Str> { if at == [] then [] else at[..|at| - 1] }

  /** Walking components from the directory `at`, links not followed. */
  ghost function Follow(root: Entry, at: seq<Str>, parts: seq<Str>): Option<Entry>
    requires Exists(root, at)
    decreases |parts|
  {
    var e := At(root, at);
    if parts == [] then Some(e)
    else if !e.kind.Directory? then None
    else if parts[0] == [DOT] then Follow(root, at, parts[1..])
    else if parts[0] == DOT_DOT then
      ExistsPrefix(root, at, |Up(at)|);
      Follow(root, Up(at), parts[1..])
    else if parts[0] !in e.children then None
    else
      AtAppend(root, at, parts[0]);
      Follow(root, at + [parts[0]], parts[1..])
  }

  /** "/" before every component. */
  function PathString(at: seq<Str>): Str {
    if at == [] then [] else PathString(at[..|at| - 1]) + [SLASH] + at[|at| - 1]
  }

  /** The path a link found in `at` continues with. */
  function LinkPath(at: seq<Str>, link: Str, rest: seq<Str>): Str {
    (if link != [] && link[0] == SLASH then link else PathString(at) + [SLASH] + link) + PathString(rest)
  }

  /** Walking components, following at most `depth` links. */
  ghost function FollowLinks(root: Entry, cwd: Str, at: seq<Str>, parts: seq<Str>, depth: nat): Option<Entry>
    requires Exists(root, at)
    decreases depth, |parts|
  {
    var e := At(root, at);
    if parts == [] then Some(e)
    else if !e.kind.Directory? then None
    else if parts[0] == [DOT] then FollowLinks(root, cwd, at, parts[1..], depth)
    else if parts[0] == DOT_DOT then
      ExistsPrefix(root, at, |Up(at)|);
      FollowLinks(root, cwd, Up(at), parts[1..], depth)
    else if parts[0] !in e.children then None
    else if e.children[parts[0]].kind.Symlink? && depth > 0 then
      var target := LinkPath(at, e.children[parts[0]].link, parts[1..]);
      FollowLinks(root, cwd, [], SplitAfter(Absolute(cwd, target), 1), depth - 1)
    else
      AtAppend(root, at, parts[0]);
      FollowLinks(root, cwd, at + [parts[0]], parts[1..], depth)
  }

  /** No symbolic link anywhere below. */
  ghost predicate LinkFree(e: Entry) {
    forall n | n in e.children :: !e.children[n].kind.Symlink? && LinkFree(e.children[n])
  }

  lemma {:induction false} LinkFreeAt(root: Entry, at: seq<Str>)
    requires LinkFree(root) && Exists(root, at)
    ensures LinkFree(At(root, at))
    decreases |at|
  {
    if at != [] { LinkFreeAt(root.children[at[0]], at[1..]); }
  }

  /** Without links, or with no depth left, both resolvers walk alike. */
  lemma {:induction false} WalksAgree(root: Entry, cwd: Str, at: seq<Str>, parts: seq<Str>, depth: nat)
    requires Exists(root, at) && (LinkFree(root) || depth == 0)
    ensures FollowLinks(root, cwd, at, parts, depth) == Follow(root, at, parts)
    decreases |parts|
  {
    var e := At(root, at);
    if depth > 0 { LinkFreeAt(root, at); }
    if parts != [] && e.kind.Directory? {
      if parts[0] == [DOT] {
        WalksAgree(root, cwd, at, parts[1..], depth);
      } else if parts[0] == DOT_DOT {
        ExistsPrefix(root, at, |Up(at)|);
        WalksAgree(root, cwd, Up(at), parts[1..], depth);
      } else if parts[0] in e.children {
        AtAppend(root, at, parts[0]);
        WalksAgree(root, cwd, at + [parts[0]], parts[1..], depth);
      }
    }
  }

  // ---- the stack-based resolver ----

  /** stack[k] is the entry at the first k components. */
  ghost predicate StackAt(root: Entry, stack: seq<Entry>, at: seq<Str>) {
    |stack| == |at| + 1 && Exists(root, at)
    && forall k | 0 <= k <= |at| :: Exists(root, at[..k]) && stack[k] == At(root, at[..k])
  }

  lemma {:induction false} StackPop(root: Entry, stack: seq<Entry>, at: seq<Str>)
    requires StackAt(root, stack, at) && at != []
    ensures StackAt(root, stack[..|at|], Up(at))
  {
    ExistsPrefix(root, at, |at| - 1);
    assert forall k | 0 <= k <= |at| - 1 :: at[..k] == Up(at)[..k];
  }

  lemma {:induction false} StackPush(root: Entry, stack: seq<Entry>, at: seq<Str>, n: Str)
    requires StackAt(root, stack, at) && n in At(root, at).children
    ensures StackAt(root, stack + [At(root, at).children[n]], at + [n])
  {
    AtAppend(root, at, n);
    assert at[..|at|] == at && (at + [n])[..|at| + 1] == at + [n];
    assert forall k | 0 <= k <= |at| :: at[..k] == (at + [n])[..k];
  }

  /** resolve_no_symlink: a stack of the entries walked through. */
  method ResolveNoSymlink(fs: VirtualFS, path: Str) returns (r: Option<Entry>)
    ensures r == Follow(fs.root, [], SplitAfter(Absolute(fs.cwd, path), 1))
  {
    var abs := Absolute(fs.cwd, path);
    if abs == [SLASH] { return Some(fs.root); }
    var parts := SplitPath(abs);
    var current, stack := fs.root, [fs.root];
    ghost var at: seq<Str> := [];
    for k := 0 to |parts|
      invariant StackAt(fs.root, stack, at) && current == stack[|at|] && at == at[..|at|]
      invariant Follow(fs.root, at, parts[k..]) == Follow(fs.root, [], parts)
    {
      var part := parts[k];
      assert parts[k..][0] == part && parts[k..][1..] == parts[k + 1..];
      if !current.kind.Directory? { return None; }
      if part == [DOT] { continue; }
      if part == DOT_DOT {
        if |stack| > 1 {
          StackPop(fs.root, stack, at);
          stack := stack[..|stack| - 1];
        }
        at := Up(at);
        current := stack[|stack| - 1];
        continue;
      }
      if part !in current.children { return None; }
      StackPush(fs.root, stack, at, part);
      current := current.children[part];
      stack := stack + [current];
      at := at + [part];
    }
    return Some(current);
  }

  // ---- the string-based resolver ----

  /** Component names as splitting gives them. */
  predicate Component(n: Str) { n != [] && SLASH !in n }

  predicate Components(at: seq<Str>) { forall k | 0 <= k < |at| :: Component(at[k]) }

  lemma {:induction false} PiecesComponents(piece: Str, s: Str)
    requires SLASH !in piece
    ensures Components(Pieces(piece, s))
    decreases |s|
  {
    if s != [] { PiecesComponents(if s[0] == SLASH then [] else piece + [s[0]], s[1..]); }
  }

  lemma {:induction false} SplitPathString(at: seq<Str>)
    requires Components(at)
    ensures Split(PathString(at)) == at && (at != [] ==> PathString(at) != [] && PathString(at)[0] == SLASH)
    decreases |at|
  {
    if at != [] {
      var front, last := at[..|at| - 1], at[|at| - 1];
      SplitPathString(front);
      SplitAppend([], PathString(front), last);
      SplitName(last);
    }
  }

  lemma {:induction false} ParentString(at: seq<Str>)
    requires Components(at) && at != []
    ensures SLASH in PathString(at) && PathString(at)[..RFind(PathString(at))] == PathString(Up(at))
  {
    var front := PathString(Up(at));
    RFindLast(front, at[|at| - 1]);
    assert PathString(at)[|front|] == SLASH;
  }

  lemma {:induction false} RFindLast(front: Str, last: Str)
    requires SLASH !in last
    ensures var s := front + [SLASH] + last; SLASH in s && RFind(s) == |front| && s[..|front|] == front
    decreases |last|
  {
    var s := front + [SLASH] + last;
    assert s[|front|] == SLASH;
    if last != [] {
      assert s[..|s| - 1] == front + [SLASH] + last[..|last| - 1];
      RFindLast(front, last[..|last| - 1]);
    }
  }

  /** Plain names, as they are walked. */
  predicate PlainNames(at: seq<Str>) {
    forall k | 0 <= k < |at| :: Component(at[k]) && at[k] != [DOT] && at[k] != DOT_DOT
  }

  /** Resolving the names walked so far from the root leads back to the same place. */
  lemma {:induction false} FollowPlain(root: Entry, at: seq<Str>, parts: seq<Str>)
    requires Exists(root, at + parts) && PlainNames(parts) && Exists(root, at)
    requires forall k | |at| <= k < |at + parts| ::
               Exists(root, (at + parts)[..k]) && At(root, (at + parts)[..k]).kind.Directory?
    ensures Follow(root, at, parts) == Some(At(root, at + parts))
    decreases |parts|
  {
    if parts == [] {
      assert at + parts == at;
    } else {
      var next := at + [parts[0]];
      assert next + parts[1..] == at + parts;
      assert (at + parts)[..|at|] == at && (at + parts)[..|at| + 1] == next;
      ExistsPrefix(root, at + parts, |at| + 1);
      AtAppend(root, at, parts[0]);
      FollowPlain(root, next, parts[1..]);
    }
  }

  /** Every entry strictly above `at` is a directory. */
  ghost predicate Through(root: Entry, at: seq<Str>) {
    && Exists(root, at) && PlainNames(at)
    && forall k | 0 <= k < |at| :: Exists(root, at[..k]) && At(root, at[..k]).kind.Directory?
  }

  lemma {:induction false} ThroughUp(root: Entry, at: seq<Str>)
    requires Through(root, at)
    ensures Through(root, Up(at))
  {
    ExistsPrefix(root, at, |Up(at)|);
    assert forall k | 0 <= k < |Up(at)| :: Up(at)[..k] == at[..k];
  }

  lemma {:induction false} ThroughDown(root: Entry, at: seq<Str>, n: Str)
    requires Through(root, at) && At(root, at).kind.Directory? && n in At(root, at).children
    requires Component(n) && n != [DOT] && n != DOT_DOT
    ensures Through(root, at + [n]) && At(root, at + [n]) == At(root, at).children[n]
  {
    AtAppend(root, at, n);
    assert at[..|at|] == at;
    assert forall k | 0 <= k <= |at| :: (at + [n])[..k] == at[..k];
  }

  /** Re-resolving the string of the walk gives the entry it stands at. */
  lemma {:induction false} FollowString(root: Entry, cwd: Str, at: seq<Str>)
    requires Through(root, at)
    ensures var p := if PathString(at) == [] then [SLASH] else PathString(at);
            Follow(root, [], SplitAfter(Absolute(cwd, p), 1)) == Some(At(root, at))
  {
    SplitPathString(at);
    SplitLeading(PathString(at));
    assert [] + at == at;
    FollowPlain(root, [], at);
  }

  /** The remaining components as a path. */
  method Remaining(parts: seq<Str>, i: nat) returns (s: Str)
    requires i <= |parts|
    ensures s == PathString(parts[i..])
  {
    s := [];
    for j := i to |parts|
      invariant s == PathString(parts[i..j])
    {
      assert parts[i..j + 1][..j - i] == parts[i..j];
      s := s + [SLASH] + parts[j];
    }
    assert parts[i..|parts|] == parts[i..];
  }

  /** The parent of the walk, by cutting its string and resolving what is left. */
  method GoUp(fs: VirtualFS, currentPath: Str, current: Entry, ghost at: seq<Str>) returns (path: Str, parent: Entry)
    requires Through(fs.root, at) && currentPath == PathString(at) && current == At(fs.root, at)
    ensures Through(fs.root, Up(at)) && path == PathString(Up(at)) && parent == At(fs.root, Up(at))
  {
    ThroughUp(fs.root, at);
    if SLASH in currentPath {
      ParentStringUp(at);
      path := currentPath[..RFind(currentPath)];
      FollowString(fs.root, fs.cwd, Up(at));
      var p := ResolveNoSymlink(fs, if path == [] then [SLASH] else path);
      parent := p.value;
    } else {
      path, parent := currentPath, current;
    }
  }

  /** The path to resolve instead, for a link just walked to. */
  method Retarget(currentPath: Str, link: Str, parts: seq<Str>, k: nat, ghost dir: seq<Str>) returns (target: Str)
    requires k < |parts| && PlainNames(dir + [parts[k]]) && currentPath == PathString(dir + [parts[k]])
    ensures target == LinkPath(dir, link, parts[k + 1..])
  {
    target := link;
    if target == [] || target[0] != SLASH {
      ParentString(dir + [parts[k]]);
      assert Up(dir + [parts[k]]) == dir;
      target := currentPath[..RFind(currentPath)] + [SLASH] + target;
    }
    var rest := Remaining(parts, k + 1);
    target := target + rest;
  }

  /** One component of the walk. */
  lemma {:induction false} WalkStep(root: Entry, cwd: Str, at: seq<Str>, parts: seq<Str>, k: nat, depth: nat)
    requires Exists(root, at) && k < |parts| && At(root, at).kind.Directory?
    ensures var e, n := At(root, at), parts[k];
            Exists(root, Up(at)) && (n in e.children ==> Exists(root, at + [n]))
            && FollowLinks(root, cwd, at, parts[k..], depth)
               == if n == [DOT] then FollowLinks(root, cwd, at, parts[k + 1..], depth)
                  else if n == DOT_DOT then FollowLinks(root, cwd, Up(at), parts[k + 1..], depth)
                  else if n !in e.children then None
                  else if e.children[n].kind.Symlink? && depth > 0 then
                    FollowLinks(root, cwd, [],
                                SplitAfter(Absolute(cwd, LinkPath(at, e.children[n].link, parts[k + 1..])), 1),
                                depth - 1)
                  else FollowLinks(root, cwd, at + [n], parts[k + 1..], depth)
  {
    ExistsPrefix(root, at, |Up(at)|);
    AtAppend(root, at, parts[k]);
    assert parts[k..][0] == parts[k] && parts[k..][1..] == parts[k + 1..];
  }

  /** resolve: keeps the walk as a string, re-resolves it for "..", and restarts on a link. */
  method Resolve(fs: VirtualFS, path: Str, maxDepth: nat) returns (r: Option<Entry>)
    ensures r == FollowLinks(fs.root, fs.cwd, [], SplitAfter(Absolute(fs.cwd, path), 1), maxDepth)
    decreases maxDepth
  {
    var root, cwd := fs.root, fs.cwd;
    var parts := SplitPath(Absolute(cwd, path));
    AfterComponents(Absolute(cwd, path));
    var current, currentPath := root, [];
    ghost var at: seq<Str> := [];
    assert parts[0..] == parts;
    for k := 0 to |parts|
      invariant Through(root, at) && current == At(root, at) && currentPath == PathString(at)
      invariant FollowLinks(root, cwd, at, parts[k..], maxDepth) == FollowLinks(root, cwd, [], parts, maxDepth)
    {
      if !current.kind.Directory? { return None; }
      WalkStep(root, cwd, at, parts, k, maxDepth);
      var part := parts[k];
      if part == [DOT] { continue; }
      if part == DOT_DOT {
        currentPath, current := GoUp(fs, currentPath, current, at);
        at := Up(at);
        continue;
      }
      if part !in current.children { return None; }
      ThroughDown(root, at, part);
      current := current.children[part];
      currentPath := currentPath + [SLASH] + part;
      assert PathString(at + [part]) == currentPath by { assert (at + [part])[..|at|] == at; }
      if current.kind.Symlink? && maxDepth > 0 {
        var target := Retarget(currentPath, current.link, parts, k, at);
        r := Resolve(fs, target, maxDepth - 1);
        return;
      }
      at := at + [part];
    }
    assert parts[|parts|..] == [];
    return Some(current);
  }

  /** On a tree without links both resolvers give the same entry for every path. */
  lemma {:induction false} ResolversAgree(root: Entry, cwd: Str, path: Str, depth: nat)
    requires LinkFree(root) || depth == 0
    ensures var parts := SplitAfter(Absolute(cwd, path), 1);
            FollowLinks(root, cwd, [], parts, depth) == Follow(root, [], parts)
  {
    WalksAgree(root, cwd, [], SplitAfter(Absolute(cwd, path), 1), depth);
  }

  lemma {:induction false} AfterComponents(s: Str)
    ensures Components(SplitAfter(s, 1))
  {
    if |s| > 1 { PiecesComponents([], s[1..]); }
  }

  lemma {:induction false} ParentStringUp(at: seq<Str>)
    requires PlainNames(at) && SLASH in PathString(at)
    ensures at != [] && PathString(at)[..RFind(PathString(at))] == PathString(Up(at))
  {
    ParentString(at);
  }

  /** A link to itself resolves to the link at every depth: a cycle neither loops nor fails. */
  lemma {:induction false} SelfLink(root: Entry, cwd: Str, n: Str, depth: nat)
    requires root.kind.Directory? && Component(n) && n != [DOT] && n != DOT_DOT
    requires n in root.children && root.children[n].kind.Symlink? && root.children[n].link == n
    ensures FollowLinks(root, cwd, [], [n], depth) == Some(root.children[n])
    decreases depth
  {
    if depth == 0 {
      AtAppend(root, [], n);
      assert [] + [n] == [n] && [n][1..] == [];
    } else {
      var target := LinkPath([], n, [n][1..]);
      assert target == [SLASH] + n;
      assert target[1..] == n;
      SplitName(n);
      SelfLink(root, cwd, n, depth - 1);
    }
  }

  // ---- paths and entries ----

  /** A path names the working directory's components and its own, or only its own when it starts
      with a slash. */
  lemma {:induction false} PathMeans(cwd: Str, path: Str)
    requires cwd != [] && cwd[0] == 47
    ensures SplitAfter(Absolute(cwd, path), 1)
            == if path != [] && path[0] == 47 then Split(path) else Split(cwd) + Split(path)
  {
    SplitLeading(Absolute(cwd, path));
    if path != [] && path[0] != 47 {
      SplitAppend([], cwd, path);
      if cwd == [SLASH] {
        assert ([SLASH] + path)[1..] == path;
        assert Split([SLASH]) == [];
      }
    }
  }

  /** "." stays in a directory, ".." leads back from one, and stays at the root. */
  lemma {:induction false} DotSteps(root: Entry, at: seq<Str>, n: Str, rest: seq<Str>)
    requires Exists(root, at) && At(root, at).kind.Directory?
    requires n in At(root, at).children && At(root, at).children[n].kind.Directory? && n != [46] && n != [46, 46]
    ensures Follow(root, at, [[46]] + rest) == Follow(root, at, rest)
    ensures Follow(root, at, [n, [46, 46]] + rest) == Follow(root, at, rest)
    ensures at == [] ==> Follow(root, at, [[46, 46]] + rest) == Follow(root, at, rest)
  {
    AtAppend(root, at, n);
    assert ([[46]] + rest)[1..] == rest && ([[46, 46]] + rest)[1..] == rest;
    assert ([n, [46, 46]] + rest)[1..] == [[46, 46]] + rest && Up(at + [n]) == at;
  }

  /** What is stored at a path is found there. */
  lemma {:induction false} PutFound(t: Entry, path: seq<Str>, e: Entry)
    requires path != []
    ensures Exists(Put(t, path, e), path) && At(Put(t, path, e), path) == e
    decreases |path|
  {
    if |path| == 1 {
      assert path[1..] == [];
    } else {
      PutFound(if path[0] in t.children then t.children[path[0]] else NewDir(path[0]), path[1..], e);
    }
  }

  /** A directory that was missing on the way is made with mode 0755, owner root and nothing in it
      but the next name of the path. */
  lemma {:induction false} PutMakes(t: Entry, path: seq<Str>, e: Entry, k: nat)
    requires 0 < k < |path| && !Exists(t, path[..k])
    ensures Exists(Put(t, path, e), path[..k])
    ensures var d := At(Put(t, path, e), path[..k]);
            && d == Entry(path[k - 1], Directory, 0x1ED, 0, 0, 0, 0, [], [], d.children)
            && d.children.Keys == {path[k]}
    decreases k
  {
    var child := if path[0] in t.children then t.children[path[0]] else NewDir(path[0]);
    assert path[..k][1..] == path[1..][..k - 1];
    if k == 1 {
      assert path[..k][1..] == [];
      assert path[0] !in t.children;
    } else {
      PutMakes(child, path[1..], e, k - 1);
    }
  }

  /** Every path that does not begin with the path stored to leads where it led. */
  lemma {:induction false} PutElsewhere(t: Entry, path: seq<Str>, e: Entry, at: seq<Str>)
    requires path != [] && Exists(t, at) && !(path <= at)
    ensures Exists(Put(t, path, e), at)
    ensures var f, g := At(t, at), At(Put(t, path, e), at); g == f.(children := g.children)
    decreases |path|
  {
    if at != [] && at[0] == path[0] && |path| > 1 { PutElsewhere(t.children[path[0]], path[1..], e, at[1..]); }
  }

  // ---- links ----

  /** Text before a path string is split on its own. */
  lemma {:induction false} SplitBefore(s: Str, parts: seq<Str>)
    requires Components(parts)
    ensures Split(s + PathString(parts)) == Split(s) + parts
    decreases |parts|
  {
    if parts == [] {
      assert s + PathString(parts) == s;
    } else {
      var front, last := parts[..|parts| - 1], parts[|parts| - 1];
      SplitBefore(s, front);
      SplitAppend([], s + PathString(front), last);
      assert s + PathString(parts) == s + PathString(front) + [SLASH] + last;
      SplitName(last);
    }
  }

  /** The components a link continues with: its own from the root, or after the directory it is
      in, and then what was left of the path. */
  lemma {:induction false} LinkParts(cwd: Str, at: seq<Str>, link: Str, rest: seq<Str>)
    requires Components(at) && Components(rest)
    ensures SplitAfter(Absolute(cwd, LinkPath(at, link, rest)), 1)
         == (if link != [] && link[0] == SLASH then [] else at) + Split(link) + rest
  {
    var absolute := link != [] && link[0] == SLASH;
    var head := if absolute then link else PathString(at) + [SLASH] + link;
    var s := LinkPath(at, link, rest);
    StartsWithSlash(at, link, rest);
    SplitLeading(s);
    SplitBefore(head, rest);
    if !absolute {
      SplitAppend([], PathString(at), link);
      SplitPathString(at);
    }
  }

  lemma {:induction false} StartsWithSlash(at: seq<Str>, link: Str, rest: seq<Str>)
    requires Components(at)
    ensures var s := LinkPath(at, link, rest); s != [] && s[0] == SLASH
  {
    SplitPathString(at);
  }

  /** A link in the middle of a path: resolving goes on from the root with the directory of the
      link, the link's components and the rest of the path, or without the directory for an
      absolute link, and with one link less to follow. */
  lemma {:induction false} LinkFollowed(root: Entry, cwd: Str, at: seq<Str>, n: Str, rest: seq<Str>, depth: nat)
    requires Exists(root, at) && At(root, at).kind.Directory? && Components(at) && Components(rest) && depth > 0
    requires n != [DOT] && n != DOT_DOT && n in At(root, at).children && At(root, at).children[n].kind.Symlink?
    ensures var link := At(root, at).children[n].link;
            FollowLinks(root, cwd, at, [n] + rest, depth)
            == FollowLinks(root, cwd, [],
                           (if link != [] && link[0] == SLASH then [] else at) + Split(link) + rest, depth - 1)
  {
    var parts := [n] + rest;
    assert parts[0] == n && parts[1..] == rest;
    LinkParts(cwd, at, At(root, at).children[n].link, rest);
  }
}
