/** The WebAssembly instructions the translator and the dispatch builder emit, with
    the semantics of section 4.4 of the WebAssembly Core Specification 1.0. Code is
    flat, as in the binary format: Block, If and Loop open a construct, End closes
    it. Locals carry a typed value but have no declared type. */
module Wasm {
  import opened Words
  import opened Memory

  datatype Val = I32(v: u32) | I64(w: u64)

  datatype Bin = Add | Sub | Mul | DivS | DivU | RemS | RemU | Logic(op: BitOp) | Shl | ShrS | ShrU

  datatype Rel = Eq | Ne | LtS | LtU | GeS | GeU

  datatype Inst =
    | Block | If | Loop | End
    | Br(target: nat) | BrIf(target: nat) | BrTable(labels: seq<nat>, default: nat)
    | Return | Call(func: nat) | CallIndirect
    | LocalGet(idx: nat) | LocalSet(idx: nat)
    | I32Const(c32: u32) | I64Const(c64: u64)
    | I64Load(width: nat, signed: bool, offset: nat)  // width in bytes: I64Load, I64Load8S, ...
    | I64Store(width: nat, offset: nat)
    | I64Bin(op: Bin) | I64Rel(rel: Rel) | I64Eqz
    | I32Bin(op: Bin) | I32Rel(rel: Rel)
    | I32WrapI64 | I64ExtendI32S | I64ExtendI32U
    | Select | Comment

  datatype Stack = Empty | Push(top: Val, rest: Stack)

  /** `labels` holds, innermost last, the operand height at which each open construct
      was entered. */
  datatype State = State(locals: seq<Val>, stack: Stack, mem: Mem, labels: seq<nat>)

  datatype Outcome =
    | Next(st: State)                     // ran off the end of the code
    | Branch(depth: nat, st: State)       // branch to a construct around the code
    | Returned(value: Val, mem: Mem)
    | Trap

  datatype Size = W32 | W64

  function Bits(n: Size): nat { if n.W32? then 32 else 64 }

  function Modulus(n: Size): nat { if n.W32? then TWO32 else TWO64 }

  /** Section 4.3.2; None is a trap. `sa` and `sb` are the signed readings of the
      operands `a` and `b`. */
  function EvalBin(op: Bin, n: Size, a: nat, sa: int, b: nat, sb: int): Option<int>
    requires (b == 0) == (sb == 0)
  {
    match op
    case Add => Some((a + b) % Modulus(n))
    case Sub => Some((a - b) % Modulus(n))
    case Mul => Some(Times(a, b) % Modulus(n))
    case DivU => if b == 0 then None else Some(Quot(a, b))
    case RemU => if b == 0 then None else Some(Rem(a, b))
    case DivS =>
      if b == 0 || TruncDiv(sa, sb) == Modulus(n) / 2 then None else Some(TruncDiv(sa, sb) % Modulus(n))
    case RemS => if b == 0 then None else Some(TruncRem(sa, sb) % Modulus(n))
    case Logic(l) => Some(Bitwise(l, a, b, Bits(n)))
    case Shl => Some(ShiftLeft(a, b % Bits(n)) % Modulus(n))
    case ShrU => Some(ShiftRight(a, b % Bits(n)))
    case ShrS => Some(ShiftRight(sa, b % Bits(n)) % Modulus(n))
  }

  function Bin32(op: Bin, a: u32, b: u32): Option<u32> {
    match EvalBin(op, W32, a, Signed32(a), b, Signed32(b))
    case None => None
    case Some(v) => Some(Wrap32(v))
  }

  function Bin64(op: Bin, a: u64, b: u64): Option<u64> {
    match EvalBin(op, W64, a, Signed64(a), b, Signed64(b))
    case None => None
    case Some(v) => Some(Wrap64(v))
  }

  predicate Compare(rel: Rel, a: nat, sa: int, b: nat, sb: int) {
    match rel
    case Eq => a == b
    case Ne => a != b
    case LtS => sa < sb
    case LtU => a < b
    case GeS => sa >= sb
    case GeU => a >= b
  }

  function Flag(b: bool): Val { if b then I32(1) else I32(0) }

  /** The value a load of `width` bytes yields in an i64. */
  function Extend(raw: nat, width: nat, signed: bool): u64
    requires raw < Pow2(8 * width) && width > 0
  {
    if signed && raw >= Pow2(8 * width - 1) then Wrap64(raw - Pow2(8 * width)) else Wrap64(raw)
  }

  /** Instructions that neither branch, call nor return. */
  predicate Straight(i: Inst) {
    !(i.Block? || i.If? || i.Loop? || i.End? || i.Br? || i.BrIf? || i.BrTable? || i.Return? || i.Call?
      || i.CallIndirect?)
  }

  ghost function Step(i: Inst, st: State): (r: Option<State>)
    requires Straight(i)
    ensures r.Some? ==> r.value.labels == st.labels
  {
    match i
    case LocalGet(k) =>
      if k < |st.locals| then Some(st.(stack := Push(st.locals[k], st.stack))) else None
    case LocalSet(k) =>
      if k < |st.locals| && st.stack.Push?
      then Some(st.(locals := st.locals[k := st.stack.top], stack := st.stack.rest)) else None
    case I32Const(c) => Some(st.(stack := Push(I32(c), st.stack)))
    case I64Const(c) => Some(st.(stack := Push(I64(c), st.stack)))
    case I64Load(width, signed, offset) =>
      (match st.stack
       case Push(I32(a), rest) =>
         if width > 0 && Mapped(st.mem, a + offset, width)
         then Some(st.(stack := Push(I64(Extend(Load(st.mem, a + offset, width), width, signed)), rest)))
         else None
       case _ => None)
    case I64Store(width, offset) =>
      (match st.stack
       case Push(I64(v), Push(I32(a), rest)) =>
         if Mapped(st.mem, a + offset, width)
         then Some(st.(stack := rest, mem := Store(st.mem, a + offset, width, v)))
         else None
       case _ => None)
    case I64Bin(op) =>
      (match st.stack
       case Push(I64(b), Push(I64(a), rest)) =>
         (match Bin64(op, a, b)
          case None => None
          case Some(v) => Some(st.(stack := Push(I64(v), rest))))
       case _ => None)
    case I32Bin(op) =>
      (match st.stack
       case Push(I32(b), Push(I32(a), rest)) =>
         (match Bin32(op, a, b)
          case None => None
          case Some(v) => Some(st.(stack := Push(I32(v), rest))))
       case _ => None)
    case I64Rel(rel) =>
      (match st.stack
       case Push(I64(b), Push(I64(a), rest)) =>
         Some(st.(stack := Push(Flag(Compare(rel, a, Signed64(a), b, Signed64(b))), rest)))
       case _ => None)
    case I32Rel(rel) =>
      (match st.stack
       case Push(I32(b), Push(I32(a), rest)) =>
         Some(st.(stack := Push(Flag(Compare(rel, a, Signed32(a), b, Signed32(b))), rest)))
       case _ => None)
    case I64Eqz =>
      (match st.stack
       case Push(I64(a), rest) => Some(st.(stack := Push(Flag(a == 0), rest)))
       case _ => None)
    case I32WrapI64 =>
      (match st.stack
       case Push(I64(a), rest) => Some(st.(stack := Push(I32(Wrap32(a)), rest)))
       case _ => None)
    case I64ExtendI32S =>
      (match st.stack
       case Push(I32(a), rest) => Some(st.(stack := Push(I64(Wrap64(Signed32(a))), rest)))
       case _ => None)
    case I64ExtendI32U =>
      (match st.stack
       case Push(I32(a), rest) => Some(st.(stack := Push(I64(a), rest)))
       case _ => None)
    case Select =>
      (match st.stack
       case Push(I32(c), Push(v2, Push(v1, rest))) =>
         Some(st.(stack := Push(if c != 0 then v1 else v2, rest)))
       case _ => None)
    case Comment => Some(st)
  }

  predicate AllStraight(code: seq<Inst>) { forall k | 0 <= k < |code| :: Straight(code[k]) }

  /** Straight-line code. */
  ghost function Steps(code: seq<Inst>, st: State): (r: Option<State>)
    requires AllStraight(code)
    ensures r.Some? ==> r.value.labels == st.labels
  {
    if code == [] then Some(st) else
      match Step(code[0], st)
      case None => None
      case Some(st1) => Steps(code[1..], st1)
  }

  /** The code after the End that closes the construct `depth` levels out. */
  function SkipOut(code: seq<Inst>, depth: nat): (r: seq<Inst>)
    ensures |r| <= |code|
  {
    if code == [] then []
    else if code[0].Block? || code[0].If? || code[0].Loop? then SkipOut(code[1..], depth + 1)
    else if !code[0].End? then SkipOut(code[1..], depth)
    else if depth == 0 then code[1..]
    else SkipOut(code[1..], depth - 1)
  }

  function Height(s: Stack): nat { if s.Empty? then 0 else 1 + Height(s.rest) }

  /** Drops operands until `h` remain. */
  function Unwind(s: Stack, h: nat): Stack
    decreases s
  {
    if Height(s) <= h then s else Unwind(s.rest, h)
  }

  /** Any operands on top of s. */
  function Above(vs: seq<Val>, s: Stack): Stack { if vs == [] then s else Push(vs[0], Above(vs[1..], s)) }

  lemma {:induction false} HeightAbove(vs: seq<Val>, s: Stack)
    ensures Height(Above(vs, s)) == |vs| + Height(s)
  {
    if vs != [] { HeightAbove(vs[1..], s); }
  }

  /** A branch drops exactly the operands pushed since its construct was entered. */
  lemma {:induction false} UnwindTo(vs: seq<Val>, s: Stack)
    ensures Unwind(Above(vs, s), Height(s)) == s
  {
    HeightAbove(vs, s);
    if vs != [] { UnwindTo(vs[1..], s); }
  }

  /** What code can call: the function table of block bodies and the imported syscall
      handler. Block bodies themselves run in `Leaf`. */
  datatype Env = Leaf | Top(table: seq<seq<Inst>>, syscall: (Mem, u32, u32) -> (u32, Mem))

  const NUM_LOCALS := 4

  /** The frame of a block function: parameter $m and four zeroed locals. */
  function Frame(m: u32, mem: Mem): State {
    State([I32(m), I64(0), I64(0), I64(0), I64(0)], Empty, mem, [])
  }

  /** Runs `code`. A branch continues after the End of its target; a branch past the
      outermost label is handed to the caller, which is how the body of a Loop is run
      one iteration at a time. A Loop inside `code` has no meaning here. */
  ghost function Exec(env: Env, code: seq<Inst>, st: State): Outcome
    decreases env.Top?, |code|, 0
  {
    if code == [] then Next(st)
    else if Straight(code[0]) then
      match Step(code[0], st)
      case None => Trap
      case Some(st1) => Exec(env, code[1..], st1)
    else match code[0]
      case Loop => Trap
      case Block => Exec(env, code[1..], st.(labels := st.labels + [Height(st.stack)]))
      case End =>
        if st.labels == [] then Trap
        else Exec(env, code[1..], st.(labels := st.labels[..|st.labels| - 1]))
      case If =>
        (match st.stack
         case Push(I32(c), rest) =>
           if c != 0
           then Exec(env, code[1..], st.(stack := rest, labels := st.labels + [Height(rest)]))
           else Exec(env, SkipOut(code[1..], 0), st.(stack := rest))
         case _ => Trap)
      case Br(l) => Jump(env, code[1..], st, l)
      case BrIf(l) =>
        (match st.stack
         case Push(I32(c), rest) =>
           if c != 0 then Jump(env, code[1..], st.(stack := rest), l)
           else Exec(env, code[1..], st.(stack := rest))
         case _ => Trap)
      case BrTable(ls, d) =>
        (match st.stack
         case Push(I32(c), rest) =>
           Jump(env, code[1..], st.(stack := rest), if c < |ls| then ls[c] else d)
         case _ => Trap)
      case Return => if st.stack.Push? then Returned(st.stack.top, st.mem) else Trap
      case CallIndirect =>
        (match st.stack
         case Push(I32(f), Push(I32(m), rest)) =>
           if env.Top? && f < |env.table| then
             (match Exec(Leaf, env.table[f], Frame(m, st.mem))
              case Returned(v, mem') => Exec(env, code[1..], st.(stack := Push(v, rest), mem := mem'))
              case _ => Trap)
           else Trap
         case _ => Trap)
      case Call(f) =>
        (match st.stack
         case Push(I32(b), Push(I32(a), rest)) =>
           if env.Top? && f == 0 then
             var (v, mem') := (env.syscall)(st.mem, a, b);
             Exec(env, code[1..], st.(stack := Push(I32(v), rest), mem := mem'))
           else Trap
         case _ => Trap)
  }

  /** Branch to the label `l` levels out, with `rest` the code after the branch. */
  ghost function Jump(env: Env, rest: seq<Inst>, st: State, l: nat): Outcome
    decreases env.Top?, |rest|, 1
  {
    if l < |st.labels| then
      var keep := |st.labels| - 1 - l;
      Exec(env, SkipOut(rest, l), st.(stack := Unwind(st.stack, st.labels[keep]), labels := st.labels[..keep]))
    else Branch(l - |st.labels|, st.(labels := []))
  }

  ghost function Then(r: Option<State>, code: seq<Inst>): Option<State>
    requires AllStraight(code)
  {
    match r case None => None case Some(s) => Steps(code, s)
  }

  lemma {:induction false} StepsAppend(a: seq<Inst>, b: seq<Inst>, st: State)
    requires AllStraight(a) && AllStraight(b)
    ensures AllStraight(a + b) && Steps(a + b, st) == Then(Steps(a, st), b)
    decreases |a|
  {
    if a == [] {
      assert a + b == b;
    } else {
      assert (a + b)[1..] == a[1..] + b;
      match Step(a[0], st)
      case None =>
      case Some(s) => StepsAppend(a[1..], b, s);
    }
  }

  /** Code in two pieces, with the state between them. */
  lemma {:induction false} Compose(a: seq<Inst>, b: seq<Inst>, st: State, mid: State, r: Option<State>)
    requires AllStraight(a) && AllStraight(b) && Steps(a, st) == Some(mid) && Steps(b, mid) == r
    ensures AllStraight(a + b) && Steps(a + b, st) == r
  {
    StepsAppend(a, b, st);
  }

  /** Code that runs in one step, and in two. */
  lemma {:induction false} StepsOne(i: Inst, st: State)
    requires Straight(i)
    ensures Steps([i], st) == Step(i, st)
  {
    assert [i][1..] == [];
  }

  lemma {:induction false} StepsTwo(i: Inst, j: Inst, st: State)
    requires Straight(i) && Straight(j)
    ensures Steps([i, j], st) == match Step(i, st) { case None => None case Some(s) => Step(j, s) }
  {
    assert [i, j][1..] == [j];
    match Step(i, st)
    case None =>
    case Some(s) => StepsOne(j, s);
  }

  /** Straight code in front of any other code. */
  lemma {:induction false} ExecStraight(env: Env, a: seq<Inst>, b: seq<Inst>, st: State)
    requires AllStraight(a)
    ensures Exec(env, a + b, st) == match Steps(a, st) { case None => Trap case Some(s) => Exec(env, b, s) }
    decreases |a|
  {
    if a == [] {
      assert a + b == b;
    } else {
      assert (a + b)[1..] == a[1..] + b;
      match Step(a[0], st)
      case None =>
      case Some(s) => ExecStraight(env, a[1..], b, s);
    }
  }
}
