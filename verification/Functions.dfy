/** Grouping the blocks of a control flow graph into functions. */
module Functions {
  import opened Words
  import opened Translate
  import opened Cfg

  type Blocks = map<int, BasicBlock>

  datatype Function = Function(entry: int, blocks: seq<int>)

  /** Block a continues to b inside the function at `entry`: call targets are not entered,
      except the entry itself. */
  ghost predicate Edge(blocks: Blocks, targets: set<int>, entry: int, a: int, b: int) {
    a in blocks && b in blocks[a].successors && (b !in targets || b == entry)
  }

  ghost predicate Path(blocks: Blocks, targets: set<int>, entry: int, p: seq<int>) {
    p != [] && p[0] == entry && forall k | 0 < k < |p| :: Edge(blocks, targets, entry, p[k - 1], p[k])
  }

  ghost predicate Reachable(blocks: Blocks, targets: set<int>, entry: int, a: int) {
    exists p :: Path(blocks, targets, entry, p) && p[|p| - 1] == a
  }

  lemma {:induction false} ReachEntry(blocks: Blocks, targets: set<int>, entry: int)
    ensures Reachable(blocks, targets, entry, entry)
  {
    assert Path(blocks, targets, entry, [entry]) && [entry][|[entry]| - 1] == entry;
  }

  lemma {:induction false} ReachStep(blocks: Blocks, targets: set<int>, entry: int, a: int, b: int)
    requires Reachable(blocks, targets, entry, a) && Edge(blocks, targets, entry, a, b)
    ensures Reachable(blocks, targets, entry, b)
  {
    var p :| Path(blocks, targets, entry, p) && p[|p| - 1] == a;
    var q := p + [b];
    assert forall k | 0 < k < |q| :: Edge(blocks, targets, entry, q[k - 1], q[k]);
    assert Path(blocks, targets, entry, q) && q[|q| - 1] == b;
  }

  /** A set that holds the entry and is closed under edges holds every reachable address. */
  lemma {:induction false} ClosedHolds(blocks: Blocks, targets: set<int>, entry: int, v: set<int>, p: seq<int>)
    requires entry in v && forall a, b | a in v && Edge(blocks, targets, entry, a, b) :: b in v
    requires Path(blocks, targets, entry, p)
    ensures p[|p| - 1] in v
    decreases |p|
  {
    if |p| > 1 {
      var q := p[..|p| - 1];
      assert forall k | 0 < k < |q| :: Edge(blocks, targets, entry, q[k - 1], q[k]);
      ClosedHolds(blocks, targets, entry, v, q);
      assert Edge(blocks, targets, entry, p[|p| - 2], p[|p| - 1]);
    }
  }

  ghost function Successors(blocks: Blocks): set<int> { set a, b | a in blocks && b in blocks[a].successors :: b }

  /** The block list of the function at `entry`: no repeats, exactly the reachable blocks. */
  ghost predicate IsFunction(f: Function, blocks: Blocks, targets: set<int>) {
    && (forall j, k | 0 <= j < k < |f.blocks| :: f.blocks[j] != f.blocks[k])
    && (forall a :: a in f.blocks <==> a in blocks && Reachable(blocks, targets, f.entry, a))
  }

  /** Pushing the successors to follow. */
  method PushSuccessors(work: seq<int>, succs: seq<int>, targets: set<int>, entry: int) returns (r: seq<int>)
    ensures forall b :: b in r <==> b in work || (b in succs && (b !in targets || b == entry))
  {
    r := work;
    for k := 0 to |succs|
      invariant forall b :: b in r <==> b in work || (b in succs[..k] && (b !in targets || b == entry))
    {
      assert succs[..k + 1] == succs[..k] + [succs[k]];
      if succs[k] !in targets || succs[k] == entry { r := r + [succs[k]]; }
    }
    assert succs[..|succs|] == succs;
  }

  /** Mid-search: everything found is reachable, and every edge out of a visited block
      leads to a visited or a pending address. */
  ghost predicate Search(blocks: Blocks, targets: set<int>, entry: int, work: seq<int>, visited: set<int>) {
    && (entry in visited || entry in work)
    && (forall a | a in work || a in visited ::
          Reachable(blocks, targets, entry, a) && a in Successors(blocks) + {entry})
    && (forall a, b | a in visited && Edge(blocks, targets, entry, a, b) :: b in visited || b in work)
  }

  lemma {:induction false} SearchVisit(blocks: Blocks, targets: set<int>, entry: int, work: seq<int>, work': seq<int>,
                                       visited: set<int>)
    requires work != [] && Search(blocks, targets, entry, work, visited)
    requires var addr := work[|work| - 1];
             forall b :: b in work' <==> b in work[..|work| - 1] || Edge(blocks, targets, entry, addr, b)
    ensures Search(blocks, targets, entry, work', visited + {work[|work| - 1]})
  {
    var addr := work[|work| - 1];
    assert addr in work && forall a | a in work :: a == addr || a in work[..|work| - 1];
    forall b | Edge(blocks, targets, entry, addr, b) ensures Reachable(blocks, targets, entry, b) {
      ReachStep(blocks, targets, entry, addr, b);
    }
  }

  lemma {:induction false} SearchSkip(blocks: Blocks, targets: set<int>, entry: int, work: seq<int>, visited: set<int>)
    requires work != [] && Search(blocks, targets, entry, work, visited) && work[|work| - 1] in visited
    ensures Search(blocks, targets, entry, work[..|work| - 1], visited)
  {
    assert forall a | a in work :: a == work[|work| - 1] || a in work[..|work| - 1];
  }

  lemma {:induction false} SearchDone(blocks: Blocks, targets: set<int>, entry: int, visited: set<int>)
    requires Search(blocks, targets, entry, [], visited)
    ensures forall a :: a in visited <==> Reachable(blocks, targets, entry, a)
  {
    forall a | Reachable(blocks, targets, entry, a) ensures a in visited {
      var p :| Path(blocks, targets, entry, p) && p[|p| - 1] == a;
      ClosedHolds(blocks, targets, entry, visited, p);
    }
  }

  /** The worklist search of identify_functions for one entry. */
  method CollectFunction(blocks: Blocks, targets: set<int>, entry: int) returns (f: Function, visited: set<int>)
    ensures f.entry == entry && IsFunction(f, blocks, targets)
    ensures visited * targets <= {entry}
  {
    var funcBlocks: seq<int> := [];
    var work := [entry];
    visited := {};
    ReachEntry(blocks, targets, entry);
    while work != []
      invariant Search(blocks, targets, entry, work, visited)
      invariant forall a :: a in funcBlocks <==> a in visited && a in blocks
      invariant forall j, k | 0 <= j < k < |funcBlocks| :: funcBlocks[j] != funcBlocks[k]
      decreases |Successors(blocks) + {entry} - visited|, |work|
    {
      ghost var before := work;
      var addr := work[|work| - 1];
      work := work[..|work| - 1];
      if addr in visited {
        SearchSkip(blocks, targets, entry, before, visited);
        continue;
      }
      assert addr in before;
      Shrinks(Successors(blocks) + {entry}, visited, visited + {addr}, addr);
      if addr in blocks {
        funcBlocks := funcBlocks + [addr];
        work := PushSuccessors(work, blocks[addr].successors, targets, entry);
      }
      SearchVisit(blocks, targets, entry, before, work, visited);
      visited := visited + {addr};
    }
    SearchDone(blocks, targets, entry, visited);
    forall t | t in visited && t in targets ensures t == entry { TargetsApart(blocks, targets, entry, t); }
    f := Function(entry, funcBlocks);
  }

  lemma {:induction false} Shrinks(all: set<int>, v: set<int>, v': set<int>, a: int)
    requires a in all && a !in v && v' == v + {a}
    ensures |all - v'| < |all - v|
  {
    assert all - v == (all - v') + {a};
  }

  // ---- all functions ----

  /** A block holds a direct call or jump of JAL form to address t. */
  ghost predicate Calls(b: BasicBlock, t: int) {
    exists k :: 0 <= k < |b.instructions| && JalTo(b.instructions[k], t)
  }

  predicate JalTo(i: Inst, t: int) { (i.op.JAL? || i.op.C_JAL?) && i.imm.Some? && i.Target() == t }

  method BlockTargets(b: BasicBlock, targets0: set<int>) returns (targets: set<int>)
    ensures forall t :: t in targets <==> t in targets0 || Calls(b, t)
  {
    targets := targets0;
    for k := 0 to |b.instructions|
      invariant forall t :: t in targets <==> t in targets0 || exists j :: 0 <= j < k && JalTo(b.instructions[j], t)
    {
      var i := b.instructions[k];
      ghost var before := targets;
      if (i.op.JAL? || i.op.C_JAL?) && i.imm.Some? { targets := targets + {i.Target()}; }
      assert forall t :: t in targets <==> t in before || JalTo(i, t);
    }
  }

  ghost predicate CallTargets(targets: set<int>, blocks: Blocks, entry: int) {
    forall t :: t in targets <==> t == entry || exists a :: a in blocks && Calls(blocks[a], t)
  }

  method FindCallTargets(blocks: Blocks, entry: int) returns (targets: set<int>)
    ensures CallTargets(targets, blocks, entry)
  {
    targets := {entry};
    var todo: set<int> := blocks.Keys;
    while todo != {}
      invariant todo <= blocks.Keys
      invariant forall t :: t in targets <==> t == entry || exists a :: a in blocks.Keys - todo && Calls(blocks[a], t)
    {
      Inhabited(todo);
      var addr :| addr in todo;
      ghost var done := blocks.Keys - todo;
      ghost var before := targets;
      targets := BlockTargets(blocks[addr], targets);
      todo := todo - {addr};
      assert blocks.Keys - todo == done + {addr};
      forall t ensures t in targets <==> t == entry || exists a :: a in blocks.Keys - todo && Calls(blocks[a], t) {
        if Calls(blocks[addr], t) { assert addr in blocks.Keys - todo && Calls(blocks[addr], t); }
      }
    }
  }

  lemma {:induction false} Least(s: set<int>) returns (m: int)
    requires s != {}
    ensures m in s && forall x | x in s :: m <= x
  {
    Inhabited(s);
    m :| m in s;
    var rest := s - {m};
    assert forall x | x in s :: x == m || x in rest;
    if rest != {} {
      var n := Least(rest);
      if n < m { m := n; }
    }
  }

  /** Other call targets are never reachable inside a function. */
  lemma {:induction false} TargetsApart(blocks: Blocks, targets: set<int>, entry: int, t: int)
    requires Reachable(blocks, targets, entry, t) && t in targets
    ensures t == entry
  {
    var p :| Path(blocks, targets, entry, p) && p[|p| - 1] == t;
    if |p| > 1 { assert Edge(blocks, targets, entry, p[|p| - 2], p[|p| - 1]); }
  }

  ghost predicate AllFunctions(functions: seq<Function>, blocks: Blocks, targets: set<int>) {
    forall k | 0 <= k < |functions| :: IsFunction(functions[k], blocks, targets)
  }

  ghost function Entries(functions: seq<Function>): set<int> {
    set k | 0 <= k < |functions| :: functions[k].entry
  }

  lemma {:induction false} EntriesAppend(functions: seq<Function>, f: Function)
    ensures Entries(functions + [f]) == Entries(functions) + {f.entry}
    ensures forall k | 0 <= k < |functions| :: functions[k].entry in Entries(functions)
  {
    var r := functions + [f];
    assert r[|functions|].entry in Entries(r);
    forall k | 0 <= k < |functions| ensures functions[k].entry in Entries(r) { assert r[k] == functions[k]; }
  }

  /** Part way through the call targets in address order: `todo` is left. */
  ghost predicate Progress(functions: seq<Function>, blocks: Blocks, targets: set<int>, todo: set<int>,
                           seen: set<int>) {
    && todo <= targets && seen !! todo && AllFunctions(functions, blocks, targets)
    && Entries(functions) == (targets - todo) * blocks.Keys
    && (forall t, u | t in Entries(functions) && u in todo :: t < u)
    && (forall j, k | 0 <= j < k < |functions| :: functions[j].entry < functions[k].entry)
  }

  lemma {:induction false} ProgressSkip(functions: seq<Function>, blocks: Blocks, targets: set<int>,
                                        todo: set<int>, seen: set<int>, e: int)
    requires Progress(functions, blocks, targets, todo, seen) && e in todo && e !in blocks
    ensures Progress(functions, blocks, targets, todo - {e}, seen)
  {
    assert (targets - (todo - {e})) * blocks.Keys == (targets - todo) * blocks.Keys;
  }

  lemma {:induction false} ProgressAdd(functions: seq<Function>, blocks: Blocks, targets: set<int>,
                                       todo: set<int>, seen: set<int>, f: Function, visited: set<int>)
    requires Progress(functions, blocks, targets, todo, seen) && f.entry in todo && f.entry in blocks
    requires (forall x | x in todo :: f.entry <= x) && visited * targets <= {f.entry} && IsFunction(f, blocks, targets)
    ensures Progress(functions + [f], blocks, targets, todo - {f.entry}, seen + visited)
  {
    EntriesAppend(functions, f);
    TakeTarget(targets, todo, blocks.Keys, f.entry);
    RisingAppend(functions, f);
    AllAppend(functions, f, blocks, targets);
  }

  lemma {:induction false} TakeTarget(targets: set<int>, todo: set<int>, keys: set<int>, e: int)
    requires e in todo && todo <= targets && e in keys
    ensures (targets - (todo - {e})) * keys == (targets - todo) * keys + {e}
  {
  }

  lemma {:induction false} AllAppend(functions: seq<Function>, f: Function, blocks: Blocks, targets: set<int>)
    requires AllFunctions(functions, blocks, targets) && IsFunction(f, blocks, targets)
    ensures AllFunctions(functions + [f], blocks, targets)
  {
  }

  lemma {:induction false} RisingAppend(functions: seq<Function>, f: Function)
    requires forall j, k | 0 <= j < k < |functions| :: functions[j].entry < functions[k].entry
    requires forall t | t in Entries(functions) :: t < f.entry
    ensures forall j, k | 0 <= j < k < |functions + [f]| :: (functions + [f])[j].entry < (functions + [f])[k].entry
  {
    EntriesAppend(functions, f);
  }

  /** identify_functions: one function per call target that is a block, in address order. */
  method IdentifyFunctions(blocks: Blocks, entry: int) returns (functions: seq<Function>, ghost targets: set<int>)
    ensures CallTargets(targets, blocks, entry)
    ensures AllFunctions(functions, blocks, targets)
    ensures Entries(functions) == targets * blocks.Keys
    ensures forall j, k | 0 <= j < k < |functions| :: functions[j].entry < functions[k].entry
  {
    functions := [];
    var callTargets := FindCallTargets(blocks, entry);
    targets := callTargets;
    var todo, seen: set<int> := callTargets, {};
    while todo != {}
      invariant Progress(functions, blocks, targets, todo, seen)
    {
      ghost var least := Least(todo);
      var e :| e in todo && forall x | x in todo :: e <= x;
      if e !in seen && e in blocks {
        var f, visited := CollectFunction(blocks, callTargets, e);
        ProgressAdd(functions, blocks, targets, todo, seen, f, visited);
        seen := seen + visited;
        functions := functions + [f];
      } else {
        ProgressSkip(functions, blocks, targets, todo, seen, e);
      }
      todo := todo - {e};
    }
  }
}
