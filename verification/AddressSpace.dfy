/** One arena shared by mmap, brk and execve, in 64-bit arithmetic. */
module AddressSpace {
  import opened Words

  /** The encompassing arena: 2^31 bytes. */
  const ARENA := TWO31
  const PAGE := 4096
  const BRK_MAX := 0x100_0000
  const STACK_SIZE := 0x2_0000
  const LARGE_HINT := 0x200_0000
  const EINVAL := -22
  const ENOMEM := -12
  const EBADF := -9

  /** `(n + 4095) & ~4095` on 64-bit words. */
  function AlignUp(n: u64): u64 { Wrap64(n + 4095) - Wrap64(n + 4095) % PAGE }

  /** The handler's own bump pointer and libriscv's mmap address, and the break. Before the first
      execve the base is libriscv's heap address, and a break of 0 has not been set yet. */
  datatype Space = Space(bump: u64, next: u64, brkBase: u64, brkCurrent: u64, overridden: bool)

  function CurrentBreak(s: Space): u64 { if !s.overridden && s.brkCurrent == 0 then s.brkBase else s.brkCurrent }

  /** The break is in its window, and the window is below the frontier. */
  predicate Windowed(s: Space) { s.brkBase <= CurrentBreak(s) <= s.brkBase + BRK_MAX <= s.next }

  /** The handler's pointer never passes libriscv's; both are on page boundaries. */
  predicate InStep(s: Space) {
    s.bump <= s.next <= ARENA + BRK_MAX && s.next % PAGE == 0 && s.bump % PAGE == 0
  }

  lemma {:induction false} AlignExact(next: u64, length: u64)
    requires next % PAGE == 0 && next + length <= TWO64 - PAGE
    ensures length <= AlignUp(length) < length + PAGE && AlignUp(length) % PAGE == 0
    ensures Wrap64(next + AlignUp(length)) == next + AlignUp(length) && (next + AlignUp(length)) % PAGE == 0
  {
    var q := (length + 4095) / PAGE;
    assert AlignUp(length) == q * PAGE && next == next / PAGE * PAGE;
    assert next + AlignUp(length) == (next / PAGE + q) * PAGE;
  }

  // ---- execve and brk ----

  /** A loaded file: the range of its segments, and whether it may be moved (ET_DYN). */
  datatype Elf = Elf(lo: u64, hi: u64, pie: bool)

  /** What execve loads: the program and, if it is dynamic, the interpreter. The base of the
      interpreter is kept from the first program: 0x18000000, or 0 when that was static. */
  datatype Image = Image(program: Elf, dynamic: bool, interpBase: u64, interpreter: Elf)

  const EXEC_BASE := 0x4_0000

  /** The end execve computes for every program, also for one that cannot be moved. */
  function LoadEnd(i: Image): u64 { Wrap64(EXEC_BASE + i.program.hi - i.program.lo) }

  lemma {:induction false} LoadEndExact(i: Image)
    requires i.program.lo <= i.program.hi && EXEC_BASE + i.program.hi - i.program.lo < TWO64
    ensures LoadEnd(i) == EXEC_BASE + i.program.hi - i.program.lo
  {
  }

  /** The files have segments that do not wrap, and the interpreter's length fits the arena
      from its base. */
  predicate WellFormed(i: Image) {
    && i.program.lo <= i.program.hi
    && (i.dynamic ==> i.interpreter.lo <= i.interpreter.hi
                      && i.interpBase + i.interpreter.hi - i.interpreter.lo <= ARENA)
  }

  /** The kept base is on a page of the arena, as 0 and 0x18000000 are. */
  predicate BaseOnPage(i: Image) { i.interpBase % PAGE == 0 && i.interpBase <= ARENA }

  /** A program whose computed end reaches the end of the arena is refused. */
  predicate Accepted(i: Image) { LoadEnd(i) < ARENA }

  function InterpEnd(i: Image): u64 { Wrap64(i.interpBase + i.interpreter.hi - i.interpreter.lo) }

  function MaxEnd(i: Image): u64 { if i.dynamic then Max(LoadEnd(i), InterpEnd(i)) else LoadEnd(i) }

  function BrkBase(i: Image): u64 { AlignUp(MaxEnd(i)) }

  /** The stack top: above the mappings, or below the interpreter when that leaves the arena. */
  function StackTop(s: Space, i: Image): u64 {
    var top := Wrap64(Max(s.next, Wrap64(BrkBase(i) + BRK_MAX)) + STACK_SIZE);
    if top >= ARENA then Wrap64(i.interpBase - 0x1000) else top
  }

  /** The layout part of sys_execve. */
  function ExecLayout(s: Space, i: Image): Space {
    s.(brkBase := BrkBase(i), brkCurrent := BrkBase(i), overridden := true,
       next := Max(Max(s.next, Wrap64(BrkBase(i) + BRK_MAX)), Wrap64(StackTop(s, i) + 0x1000)))
  }

  /** sys_brk: a request past the window is refused before the first execve, and cut to the
      window's end after it. */
  function Brk(s: Space, request: u64): Space {
    var limit := Wrap64(s.brkBase + BRK_MAX);
    s.(brkCurrent := if request == 0 || request < s.brkBase then CurrentBreak(s)
                     else if request <= limit then request
                     else if s.overridden then limit else CurrentBreak(s))
  }

  lemma {:induction false} BrkBaseExact(i: Image)
    requires WellFormed(i) && Accepted(i)
    ensures MaxEnd(i) <= BrkBase(i) < MaxEnd(i) + PAGE && BrkBase(i) <= ARENA && BrkBase(i) % PAGE == 0
    ensures i.dynamic ==> InterpEnd(i) == i.interpBase + i.interpreter.hi - i.interpreter.lo
  {
    AlignExact(0, MaxEnd(i));
  }

  /** Where the frontier is before the stack is placed. */
  function BeforeStack(s: Space, i: Image): int { Max(s.next, BrkBase(i) + BRK_MAX) }

  /** The stack fits above the break window. */
  predicate StackFits(s: Space, i: Image) { BeforeStack(s, i) + STACK_SIZE < ARENA }

  /** The values execve computes when the stack fits, without wrap-around. */
  lemma {:induction false} FitsValues(s: Space, i: Image)
    requires WellFormed(i) && Accepted(i) && InStep(s) && StackFits(s, i)
    ensures StackTop(s, i) == BeforeStack(s, i) + STACK_SIZE
    ensures ExecLayout(s, i) == s.(brkBase := BrkBase(i), brkCurrent := BrkBase(i), overridden := true,
                                   next := BeforeStack(s, i) + STACK_SIZE + 0x1000)
  {
    BrkBaseExact(i);
    NoWrap(BrkBase(i) + BRK_MAX);
    NoWrap(BeforeStack(s, i) + STACK_SIZE);
    NoWrap(BeforeStack(s, i) + STACK_SIZE + 0x1000);
  }

  lemma {:induction false} NoWrap(n: int)
    requires 0 <= n < TWO64
    ensures Wrap64(n) == n
  {
  }

  lemma {:induction false} WrapBelow(a: u64, d: u64)
    ensures Wrap64(a - d) == if a >= d then a - d else a - d + TWO64
  {
  }

  /** The values execve computes when it does not. */
  lemma {:induction false} FallbackValues(s: Space, i: Image)
    requires WellFormed(i) && Accepted(i) && InStep(s) && !StackFits(s, i)
    ensures StackTop(s, i) == Wrap64(i.interpBase - 0x1000)
    ensures ExecLayout(s, i) == s.(brkBase := BrkBase(i), brkCurrent := BrkBase(i), overridden := true,
                                   next := Max(BeforeStack(s, i), i.interpBase))
  {
    BrkBaseExact(i);
    var top: int := Wrap64(i.interpBase - 0x1000);
    assert StackTop(s, i) == top;
    WrapBelow(i.interpBase, 0x1000);
    assert Wrap64(top + 0x1000) == i.interpBase;
  }

  lemma {:induction false} BeforeOnPage(s: Space, i: Image)
    requires WellFormed(i) && Accepted(i) && InStep(s)
    ensures BeforeStack(s, i) % PAGE == 0 && (BeforeStack(s, i) + STACK_SIZE + 0x1000) % PAGE == 0
  {
    BrkBaseExact(i);
  }

  /** A page boundary less than a page past the arena's end is not past it. */
  lemma {:induction false} BelowOnPage(n: int)
    requires n % PAGE == 0 && n < ARENA + PAGE
    ensures n <= ARENA
  {
  }

  /** execve keeps the pointers in step, and the break starts in a window below the frontier. */
  lemma {:induction false} LayoutInStep(s: Space, i: Image)
    requires WellFormed(i) && BaseOnPage(i) && Accepted(i) && InStep(s)
    ensures var s' := ExecLayout(s, i); InStep(s') && s.next <= s'.next && Windowed(s')
  {
    BrkBaseExact(i);
    BeforeOnPage(s, i);
    if StackFits(s, i) {
      FitsValues(s, i);
      BelowOnPage(BeforeStack(s, i) + STACK_SIZE + 0x1000);
    } else {
      FallbackValues(s, i);
    }
  }

  // ---- mmap ----

  datatype Request =
    | Anonymous(hint: u64, length: u64, fixed: bool)
    | File(length: u64, isFile: bool)
    | Unmap(addr: u64, length: u64)
    | Break(addr: u64)
    | Exec(image: Image)

  /** The handler's bump pointer after catching up with libriscv's. */
  function Synced(s: Space): u64 { if s.bump == 0 || s.bump < s.next then s.next else s.bump }

  /** The new space and the syscall result. */
  function MapAnonymous(s: Space, hint: u64, length: u64, fixed: bool): (Space, int) {
    if length == 0 then (s, EINVAL)
    else
      var s1, len := s.(bump := Synced(s)), AlignUp(length);
      if fixed then
        if Wrap64(hint + len) > ARENA then (s1, ENOMEM) else (s1.(next := Max(s.next, s1.bump)), hint)
      else if hint >= ARENA && len >= LARGE_HINT then (s1, ENOMEM)
      else if Wrap64(s1.bump + len) > ARENA then (s1, ENOMEM)
      else (s1.(bump := Wrap64(s1.bump + len), next := Max(s.next, Wrap64(s1.bump + len))), s1.bump)
  }

  /** A file mapping without a preferred address. */
  function MapFile(s: Space, length: u64, isFile: bool): (Space, int) {
    var len := AlignUp(length);
    if !isFile then (s, EBADF)
    else if Wrap64(s.next + len) > ARENA - 1 then (s, ENOMEM)
    else (s.(next := Wrap64(s.next + len)), s.next)
  }

  function Serve(s: Space, r: Request): (Space, int) {
    match r
    case Anonymous(hint, length, fixed) => MapAnonymous(s, hint, length, fixed)
    case File(length, isFile) => MapFile(s, length, isFile)
    case Unmap(addr, length) => (s, 0)
    case Break(addr) => (Brk(s, addr), Brk(s, addr).brkCurrent)
    case Exec(image) => if Accepted(image) then (ExecLayout(s, image), 0) else (s, ENOMEM)
  }

  datatype Range = Range(start: int, size: nat)

  /** The request is given a range of its own: a mapping without error that is not fixed. */
  predicate Served(s: Space, r: Request) {
    Serve(s, r).1 >= 0 && (r.File? || (r.Anonymous? && !r.fixed))
  }

  function After(s: Space, rs: seq<Request>): Space
    decreases |rs|
  {
    if rs == [] then s else After(Serve(s, rs[0]).0, rs[1..])
  }

  /** The ranges given out over a run, as long as they were asked for, in order. */
  function Ranges(s: Space, rs: seq<Request>): seq<Range>
    decreases |rs|
  {
    if rs == [] then []
    else
      (if Served(s, rs[0]) then [Range(Serve(s, rs[0]).1, rs[0].length)] else [])
      + Ranges(Serve(s, rs[0]).0, rs[1..])
  }

  /** From the frontier, the length does not run past the last page of the address space. */
  predicate Unwrapped(s: Space, length: u64) { s.next + length <= TWO64 - PAGE }

  /** A length below 2^63 never does. */
  lemma {:induction false} ShortUnwrapped(s: Space, length: u64)
    requires InStep(s) && length < TWO63
    ensures Unwrapped(s, length)
  {
  }

  /** A request that does not wrap keeps the pointers in step, and a range it is given starts
      at the frontier and ends at the new one. */
  lemma {:induction false} ServeKeeps(s: Space, r: Request)
    requires InStep(s) && (Served(s, r) ==> Unwrapped(s, r.length))
    requires r.Exec? ==> WellFormed(r.image) && BaseOnPage(r.image)
    ensures var s' := Serve(s, r).0;
            && InStep(s') && s.next <= s'.next && (Windowed(s) ==> Windowed(s'))
            && (Served(s, r) ==> Serve(s, r).1 == s.next && s.next + r.length <= s'.next <= ARENA)
  {
    if r.Exec? && Accepted(r.image) { LayoutInStep(s, r.image); }
    if Served(s, r) { AlignExact(s.next, r.length); }
  }

  /** One after the other, on pages, inside the arena. */
  ghost predicate Laid(gs: seq<Range>) {
    && (forall k | 0 <= k < |gs| :: 0 <= gs[k].start && gs[k].start + gs[k].size <= ARENA && gs[k].start % PAGE == 0)
    && (forall j, k | 0 <= j < k < |gs| :: gs[j].start + gs[j].size <= gs[k].start)
  }

  /** Every image of the run is well-formed, with its base on a page. */
  ghost predicate Loadable(rs: seq<Request>) {
    forall k | 0 <= k < |rs| && rs[k].Exec? :: WellFormed(rs[k].image) && BaseOnPage(rs[k].image)
  }

  /** No request served in the run wraps. */
  predicate NoneWraps(s: Space, rs: seq<Request>)
    decreases |rs|
  {
    rs != [] ==> (Served(s, rs[0]) ==> Unwrapped(s, rs[0].length)) && NoneWraps(Serve(s, rs[0]).0, rs[1..])
  }

  /** Over any run of mmap, munmap, brk and execve without wrap-around the frontier only rises,
      every range lies between its old and its new value, the ranges are on pages, inside the
      arena and pairwise disjoint, and the break stays in its window below the frontier. */
  lemma {:induction false} RunLaid(s: Space, rs: seq<Request>)
    requires InStep(s) && Loadable(rs) && NoneWraps(s, rs)
    ensures InStep(After(s, rs)) && s.next <= After(s, rs).next && Laid(Ranges(s, rs))
    ensures Windowed(s) ==> Windowed(After(s, rs))
    ensures forall g | g in Ranges(s, rs) :: s.next <= g.start && g.start + g.size <= After(s, rs).next
    decreases |rs|
  {
    if rs != [] {
      ServeKeeps(s, rs[0]);
      RunLaid(Serve(s, rs[0]).0, rs[1..]);
      if Served(s, rs[0]) {
        LaidCons(Range(s.next, rs[0].length), Ranges(Serve(s, rs[0]).0, rs[1..]), Serve(s, rs[0]).0.next);
      } else {
        assert Ranges(s, rs) == Ranges(Serve(s, rs[0]).0, rs[1..]);
      }
    }
  }

  lemma {:induction false} LaidCons(g: Range, gs: seq<Range>, mid: int)
    requires 0 <= g.start && g.start + g.size <= mid <= ARENA && g.start % PAGE == 0
    requires Laid(gs) && forall h | h in gs :: mid <= h.start
    ensures Laid([g] + gs)
  {
    assert forall k | 0 <= k < |gs| :: gs[k] in gs;
  }

  lemma {:induction false} LaidTail(gs: seq<Range>, head: seq<Range>, tail: seq<Range>)
    requires Laid(gs) && gs == head + tail
    ensures Laid(tail)
  {
    assert forall k | 0 <= k < |tail| :: tail[k] == gs[|head| + k];
  }

  /** The ranges of a run are pairwise disjoint, on pages and inside the arena if and only if
      none of its requests wraps. */
  lemma {:induction false} RunLaidExact(s: Space, rs: seq<Request>)
    requires InStep(s) && Loadable(rs)
    ensures Laid(Ranges(s, rs)) <==> NoneWraps(s, rs)
    decreases |rs|
  {
    if NoneWraps(s, rs) { RunLaid(s, rs); }
    if rs != [] && Laid(Ranges(s, rs)) {
      var s1, more := Serve(s, rs[0]).0, Ranges(Serve(s, rs[0]).0, rs[1..]);
      if Served(s, rs[0]) {
        ServedAt(s, rs[0]);
        assert Ranges(s, rs)[0] == Range(s.next, rs[0].length);
        LaidTail(Ranges(s, rs), [Range(s.next, rs[0].length)], more);
      } else {
        LaidTail(Ranges(s, rs), [], more);
      }
      ServeKeeps(s, rs[0]);
      RunLaidExact(s1, rs[1..]);
    }
  }

  lemma {:induction false} ServedAt(s: Space, r: Request)
    requires InStep(s) && Served(s, r)
    ensures Serve(s, r).1 == s.next
  {
  }

  /** Every run whose lengths are below 2^63. */
  lemma {:induction false} ShortRunLaid(s: Space, rs: seq<Request>)
    requires InStep(s) && Loadable(rs)
    requires forall k | 0 <= k < |rs| && (rs[k].Anonymous? || rs[k].File?) :: rs[k].length < TWO63
    ensures NoneWraps(s, rs) && Laid(Ranges(s, rs)) && s.next <= After(s, rs).next
    decreases |rs|
  {
    if rs != [] {
      if Served(s, rs[0]) { ShortUnwrapped(s, rs[0].length); }
      ServeKeeps(s, rs[0]);
      ShortRunLaid(Serve(s, rs[0]).0, rs[1..]);
    }
    RunLaid(s, rs);
  }

  /** A free anonymous request is served, at the frontier, if and only if it has a length, is
      not a large one hinted past the arena, and its 64-bit end is inside the arena. It then
      moves both pointers to its end if and only if it does not wrap. */
  lemma {:induction false} AnonymousExact(s: Space, hint: u64, length: u64)
    requires InStep(s)
    ensures var (s', v) := MapAnonymous(s, hint, length, false);
            && (v >= 0 <==> length > 0 && !(hint >= 0x8000_0000 && AlignUp(length) >= 0x200_0000)
                            && Wrap64(s.next + AlignUp(length)) <= 0x8000_0000)
            && (v >= 0 ==> v == s.next
                           && (s.next + length <= s'.next == s'.bump <= 0x8000_0000 <==> Unwrapped(s, length)))
            && (v < 0 ==> s'.next == s.next && v == if length == 0 then -22 else -12)
  {
    if Unwrapped(s, length) { AlignExact(s.next, length); }
  }

  /** A fixed anonymous request gets the address it asks for if and only if it has a length and
      its 64-bit end is in the 2^31-byte arena; it never moves the frontier. Without a length it
      fails with -EINVAL, past the arena with -ENOMEM. */
  lemma {:induction false} FixedMapped(s: Space, hint: u64, length: u64)
    requires InStep(s)
    ensures var (s', v) := MapAnonymous(s, hint, length, true);
            && s'.next == s.next && s'.brkBase == s.brkBase && s'.brkCurrent == s.brkCurrent
            && v == if length == 0 then -22 else if Wrap64(hint + AlignUp(length)) > 0x8000_0000 then -12 else hint
  {
  }

  /** A file mapping without an address starts at the frontier and moves it past its last page,
      if it ends before the last byte of the arena; on something else than a file it fails. */
  lemma {:induction false} FileMapped(s: Space, length: u64, isFile: bool)
    ensures var (s', v) := MapFile(s, length, isFile); var end := (s.next + AlignUp(length)) % 0x1_0000_0000_0000_0000;
            && (!isFile ==> s' == s && v == -9)
            && (isFile && end >= 0x8000_0000 ==> s' == s && v == -12)
            && (isFile && end < 0x8000_0000 ==> v == s.next && s' == s.(next := end))
    ensures InStep(s) && Unwrapped(s, length) ==>
              && length <= AlignUp(length) < length + 4096 && AlignUp(length) % 4096 == 0
              && (s.next + AlignUp(length)) % 0x1_0000_0000_0000_0000 == s.next + AlignUp(length)
  {
    if InStep(s) && Unwrapped(s, length) { AlignExact(s.next, length); }
  }

  /** The handler's pointer catches up to the higher of the two. */
  lemma {:induction false} SyncedIsMax(s: Space)
    ensures Synced(s) == Max(s.bump, s.next)
  {
  }

  /** munmap does nothing. execve fails exactly for a program whose end, computed from 0x40000
      on, is not below 2^31, and then changes nothing. */
  lemma {:induction false} OtherRequests(s: Space, i: Image, addr: u64, length: u64)
    ensures Serve(s, Unmap(addr, length)) == (s, 0)
    ensures var end := (0x4_0000 + i.program.hi - i.program.lo) % 0x1_0000_0000_0000_0000;
            Serve(s, Exec(i)) == if end >= 0x8000_0000 then (s, -12) else (ExecLayout(s, i), 0)
  {
  }

  /** A request for 2^64 - 1 bytes is served with nothing: the frontier stays, and the next
      request gets the same address. */
  lemma {:induction false} LongestServedTwice(s: Space)
    requires InStep(s) && s.next + PAGE <= ARENA
    ensures var (s', v) := MapAnonymous(s, 0, TWO64 - 1, false);
            v == s.next && s'.next == s.next && MapAnonymous(s', 0, 1, false).1 == s.next
  {
  }

  /** With the frontier at 0x30000000 a request for 2^64 - 8192 bytes is served, and the
      handler's pointer goes down. */
  lemma {:induction false} BumpGoesDown(s: Space)
    requires s.bump == s.next == 0x3000_0000
    ensures var (s', v) := MapAnonymous(s, 0, TWO64 - 8192, false);
            v == 0x3000_0000 && s'.bump == 0x2FFF_E000 && s'.next == s.next
  {
  }

  // ---- runs of brk ----

  function Brks(s: Space, requests: seq<u64>): Space
    decreases |requests|
  {
    if requests == [] then s else Brks(Brk(s, requests[0]), requests[1..])
  }

  /** The window of the break is below 2^64; execve puts it in the arena. */
  predicate HasWindow(s: Space) { s.brkBase + BRK_MAX < TWO64 }

  /** The break stays in its window, and moves nothing else. */
  lemma {:induction false} BreakInWindow(s: Space, requests: seq<u64>)
    requires HasWindow(s) && s.brkBase <= CurrentBreak(s) <= s.brkBase + BRK_MAX
    ensures s.brkBase <= CurrentBreak(Brks(s, requests)) <= s.brkBase + BRK_MAX
    ensures Brks(s, requests) == s.(brkCurrent := Brks(s, requests).brkCurrent)
    decreases |requests|
  {
    if requests != [] { BreakInWindow(Brk(s, requests[0]), requests[1..]); }
  }

  /** After any calls, a request inside the window is the new break, zero or one below it changes
      nothing, and one above it is cut to its end, or changes nothing before the first execve. */
  lemma {:induction false} BreakFollows(s: Space, requests: seq<u64>, last: u64)
    requires HasWindow(s)
    ensures var before, after := Brks(s, requests), Brks(s, requests + [last]);
            after.brkCurrent == if s.brkBase <= last <= s.brkBase + 0x100_0000 && last != 0 then last
                                else if last > s.brkBase + 0x100_0000 && s.overridden then s.brkBase + 0x100_0000
                                else if before.brkCurrent == 0 && !s.overridden then s.brkBase
                                else before.brkCurrent
    decreases |requests|
  {
    if requests == [] {
      assert requests + [last] == [last] && [last][1..] == [];
    } else {
      assert (requests + [last])[1..] == requests[1..] + [last];
      BreakFollows(Brk(s, requests[0]), requests[1..], last);
    }
  }

  // ---- what execve lays out ----

  predicate Apart(a: Range, b: Range) { a.start + a.size <= b.start || b.start + b.size <= a.start }

  function BrkWindow(s: Space): Range { Range(s.brkBase, BRK_MAX) }

  function StackRange(s: Space, i: Image): Range { Range(Wrap64(StackTop(s, i) - STACK_SIZE), STACK_SIZE) }

  /** Where load_elf_segments puts a file that is to be at `base`. */
  function Placed(e: Elf, base: u64): Range
    requires e.lo <= e.hi
  {
    Range(if e.pie && base != 0 then base else e.lo, e.hi - e.lo)
  }

  function Program(i: Image): Range
    requires WellFormed(i)
  {
    Placed(i.program, EXEC_BASE)
  }

  function Interpreter(i: Image): Range
    requires WellFormed(i) && i.dynamic
  {
    Placed(i.interpreter, i.interpBase)
  }

  /** The range overlaps neither the break window nor the stack, and mappings start above it. */
  predicate Undisturbed(s: Space, i: Image, r: Range) {
    var s' := ExecLayout(s, i);
    Apart(r, BrkWindow(s')) && Apart(r, StackRange(s, i)) && r.start + r.size <= s'.next
  }

  /** The stack is in the arena and not in the break window, mappings start above both,
      neither disturbs the program or the interpreter, and these two do not overlap. */
  predicate Separate(s: Space, i: Image)
    requires WellFormed(i)
  {
    var s', stack := ExecLayout(s, i), StackRange(s, i);
    && stack.start + STACK_SIZE <= ARENA && stack.start + STACK_SIZE <= s'.next
    && Apart(BrkWindow(s'), stack) && BrkWindow(s').start + BRK_MAX <= s'.next
    && Undisturbed(s, i, Program(i))
    && (i.dynamic ==> Undisturbed(s, i, Interpreter(i)) && Apart(Program(i), Interpreter(i)))
  }

  /** Where the stack begins, in unbounded arithmetic. */
  function StackLow(s: Space, i: Image): int {
    if StackFits(s, i) then BeforeStack(s, i) else i.interpBase - 0x2_1000
  }

  /** The stack fits above the break window, or there is room for it below the interpreter that
      is clear of the window. */
  predicate Room(s: Space, i: Image) {
    StackFits(s, i)
    || (0x2_1000 <= i.interpBase <= ARENA + 0x1000
        && (i.interpBase - 0x1000 <= BrkBase(i) || BrkBase(i) + BRK_MAX <= i.interpBase - 0x2_1000))
  }

  /** The addresses from `lo` to `hi` are below the break or past its window, below or above the
      stack, and below the frontier. */
  predicate Clear(s: Space, i: Image, lo: int, hi: int) {
    var low := StackLow(s, i);
    && (hi <= BrkBase(i) || BrkBase(i) + BRK_MAX <= lo)
    && (hi <= low || low + STACK_SIZE <= lo)
    && hi <= Max(BeforeStack(s, i), low + STACK_SIZE + 0x1000)
  }

  lemma {:induction false} StackPlace(s: Space, i: Image)
    requires WellFormed(i) && Accepted(i) && InStep(s)
    ensures StackRange(s, i).start == if StackLow(s, i) >= 0 then StackLow(s, i) else StackLow(s, i) + TWO64
    ensures var s' := ExecLayout(s, i);
            s'.brkBase == BrkBase(i) && s'.next == Max(BeforeStack(s, i), StackLow(s, i) + STACK_SIZE + 0x1000)
  {
    BrkBaseExact(i);
    if StackFits(s, i) {
      FitsValues(s, i);
      NoWrap(BeforeStack(s, i));
    } else {
      FallbackValues(s, i);
      WrapBelow(i.interpBase, 0x1000);
      WrapBelow(StackTop(s, i), STACK_SIZE);
    }
  }

  lemma {:induction false} UndisturbedExact(s: Space, i: Image, r: Range)
    requires WellFormed(i) && Accepted(i) && InStep(s) && Room(s, i)
    ensures Undisturbed(s, i, r) <==> Clear(s, i, r.start, r.start + r.size)
  {
    StackPlace(s, i);
  }

  lemma {:induction false} RoomExact(s: Space, i: Image)
    requires WellFormed(i) && Accepted(i) && InStep(s)
    ensures var s', stack := ExecLayout(s, i), StackRange(s, i);
            Room(s, i) <==> stack.start + STACK_SIZE <= ARENA && stack.start + STACK_SIZE <= s'.next
                            && Apart(BrkWindow(s'), stack) && BrkWindow(s').start + BRK_MAX <= s'.next
  {
    BrkBaseExact(i);
    StackPlace(s, i);
  }

  /** The regions are separate if and only if there is room for the stack, the addresses of the
      program and of the interpreter are clear, and those do not overlap. */
  lemma {:induction false} LayoutExact(s: Space, i: Image)
    requires WellFormed(i) && Accepted(i) && InStep(s)
    ensures Separate(s, i) <==>
            && Room(s, i) && Clear(s, i, Program(i).start, Program(i).start + Program(i).size)
            && (i.dynamic ==> Clear(s, i, Interpreter(i).start, Interpreter(i).start + Interpreter(i).size)
                              && Apart(Program(i), Interpreter(i)))
  {
    RoomExact(s, i);
    if Room(s, i) {
      UndisturbedExact(s, i, Program(i));
      if i.dynamic { UndisturbedExact(s, i, Interpreter(i)); }
    }
  }

  /** The interpreter can be moved and has a base to be moved to. */
  predicate InterpreterMoves(i: Image) { i.dynamic ==> i.interpreter.pie && i.interpBase != 0 }

  /** An interpreter at its base ends below the break and starts above the fallback stack. */
  lemma {:induction false} MovedInterpreterClear(s: Space, i: Image)
    requires WellFormed(i) && Accepted(i) && InStep(s) && i.dynamic && InterpreterMoves(i)
    ensures Interpreter(i).start + Interpreter(i).size == InterpEnd(i)
    ensures Clear(s, i, i.interpBase, InterpEnd(i))
  {
    BrkBaseExact(i);
  }

  /** The fallback stack has room and is clear of a program at its base. */
  predicate FallbackClear(s: Space, i: Image) {
    Room(s, i) && (LoadEnd(i) <= i.interpBase - 0x2_1000 || i.interpBase - 0x1000 <= EXEC_BASE)
  }

  /** With a program and an interpreter that can be moved, the regions are separate if and only
      if the two do not overlap and the stack fits or its fallback place is clear. */
  lemma {:induction false} MovedExact(s: Space, i: Image)
    requires WellFormed(i) && InStep(s) && i.program.pie && InterpreterMoves(i)
    requires EXEC_BASE + i.program.hi - i.program.lo < ARENA
    ensures Separate(s, i) <==>
            && (i.dynamic ==> LoadEnd(i) <= i.interpBase || InterpEnd(i) <= EXEC_BASE)
            && (StackFits(s, i) || FallbackClear(s, i))
  {
    LayoutExact(s, i);
    BrkBaseExact(i);
    if i.dynamic { MovedInterpreterClear(s, i); }
    assert Program(i) == Range(EXEC_BASE, LoadEnd(i) - EXEC_BASE);
  }

  /** A program that cannot be moved stays at its own addresses while the break follows the end
      it would have at the base. When the stack fits, and interpreter and program are apart, it
      is separate if and only if it ends below that break, or starts past the break's window
      and ends below the stack or in the page above it. */
  lemma {:induction false} FixedExact(s: Space, i: Image)
    requires WellFormed(i) && Accepted(i) && InStep(s) && !i.program.pie && InterpreterMoves(i)
    requires StackFits(s, i) && (i.dynamic ==> Apart(Program(i), Interpreter(i)))
    ensures var lo, hi, stack := i.program.lo, i.program.hi, BeforeStack(s, i);
            Separate(s, i) <==>
            || hi <= BrkBase(i)
            || (BrkBase(i) + BRK_MAX <= lo && hi <= stack)
            || (stack + STACK_SIZE <= lo && hi <= stack + STACK_SIZE + 0x1000)
  {
    LayoutExact(s, i);
    if i.dynamic { MovedInterpreterClear(s, i); }
  }

  /** For a static program: linked at 0x40000 or below it is separate, linked from 0x41000 up to
      the end of the break's window it is not. */
  lemma {:induction false} FixedStatic(s: Space, i: Image)
    requires WellFormed(i) && Accepted(i) && InStep(s) && !i.program.pie && !i.dynamic && StackFits(s, i)
    ensures i.program.lo <= EXEC_BASE && i.program.hi <= ARENA ==> Separate(s, i)
    ensures EXEC_BASE + PAGE <= i.program.lo < BrkBase(i) + BRK_MAX ==> !Separate(s, i)
  {
    FixedExact(s, i);
    BrkBaseExact(i);
    if i.program.hi - i.program.lo < TWO64 - EXEC_BASE { LoadEndExact(i); }
  }

  /** A static program linked at 0x400000, the usual address, lies in its own break window. */
  lemma {:induction false} FixedOverlaps(s: Space, i: Image)
    requires InStep(s) && s.next == 0x200_0000
    requires i.program == Elf(0x40_0000, 0x50_0000, false) && !i.dynamic && i.interpBase == 0
    ensures WellFormed(i) && Accepted(i) && StackFits(s, i)
    ensures BrkWindow(ExecLayout(s, i)) == Range(0x14_0000, 0x100_0000) && Program(i) == Range(0x40_0000, 0x10_0000)
    ensures !Separate(s, i)
  {
    FixedStatic(s, i);
  }

  /** After a static first program an interpreter is not moved: one linked at 0 and longer than
      0x40000 bytes is loaded over a program at its base. */
  lemma {:induction false} InterpreterOverlaps(s: Space, i: Image)
    requires WellFormed(i) && i.dynamic && i.interpBase == 0 && i.interpreter.lo == 0
    requires i.program.pie && i.program.lo < i.program.hi && i.interpreter.hi > EXEC_BASE
    ensures !Apart(Program(i), Interpreter(i)) && !Separate(s, i)
  {
  }

  /** After an execve that keeps the regions separate, every later mapping, also after further
      brk and execve calls, is clear of the program, the interpreter, the break window and the
      stack. */
  lemma {:induction false} LaterMappings(s: Space, i: Image, rs: seq<Request>, k: nat)
    requires WellFormed(i) && BaseOnPage(i) && Accepted(i) && InStep(s) && Separate(s, i)
    requires Loadable(rs) && NoneWraps(ExecLayout(s, i), rs) && k < |Ranges(ExecLayout(s, i), rs)|
    ensures var s', g := ExecLayout(s, i), Ranges(ExecLayout(s, i), rs)[k];
            Apart(BrkWindow(s'), g) && Apart(StackRange(s, i), g) && Apart(Program(i), g)
            && (i.dynamic ==> Apart(Interpreter(i), g))
  {
    LayoutInStep(s, i);
    RunLaid(ExecLayout(s, i), rs);
    assert Ranges(ExecLayout(s, i), rs)[k] in Ranges(ExecLayout(s, i), rs);
  }

  /** A 384 MB program below the interpreter's place, with the arena nearly used up, gets its
      stack on top of itself. */
  lemma {:induction false} FallbackOverlaps(s: Space, i: Image)
    requires InStep(s) && s.next == 0x7FFF_0000
    requires i == Image(Elf(0, 0x17FB_0000, true), true, 0x1800_0000, Elf(0, 0x10_0000, true))
    ensures WellFormed(i) && Accepted(i) && !StackFits(s, i) && !Separate(s, i)
  {
    MovedExact(s, i);
  }

  /** After a static first program, whose interpreter base is 0, a stack that does not fit is
      put 4096 bytes below 2^64. */
  lemma {:induction false} FallbackWraps(s: Space, i: Image)
    requires WellFormed(i) && Accepted(i) && InStep(s) && i.interpBase == 0 && !StackFits(s, i)
    ensures StackTop(s, i) == TWO64 - 0x1000 && !Separate(s, i)
  {
    FallbackValues(s, i);
    LayoutExact(s, i);
  }

  // ---- in place ----

  class Arena {
    var bump: u64
    var next: u64
    var brkBase: u64
    var brkCurrent: u64
    var overridden: bool
    var stackTop: u64

    function View(): Space
      reads this
    {
      Space(bump, next, brkBase, brkCurrent, overridden)
    }

    /** The anonymous half of sys_mmap. */
    method MmapAnonymous(hint: u64, length: u64, fixed: bool) returns (result: int)
      modifies this
      ensures (View(), result) == MapAnonymous(old(View()), hint, length, fixed)
    {
      if length == 0 { return EINVAL; }
      if bump == 0 || bump < next { bump := next; }
      var len := AlignUp(length);
      if fixed {
        if Wrap64(hint + len) > ARENA { return ENOMEM; }
        result := hint;
      } else if hint != 0 && hint >= ARENA && len >= LARGE_HINT {
        return ENOMEM;
      } else {
        if Wrap64(bump + len) > ARENA { return ENOMEM; }
        result := bump;
        bump := Wrap64(bump + len);
      }
      if bump > next { next := bump; }
    }

    /** The file half of sys_mmap, without a preferred address. */
    method MmapFile(length: u64, isFile: bool) returns (result: int)
      modifies this
      ensures (View(), result) == MapFile(old(View()), length, isFile)
    {
      var len := AlignUp(length);
      if !isFile { return EBADF; }
      if Wrap64(next + len) > ARENA - 1 { return ENOMEM; }
      result := next;
      next := Wrap64(next + len);
    }

    /** sys_brk. */
    method SysBrk(request: u64) returns (result: u64)
      modifies this
      ensures View() == Brk(old(View()), request) && result == brkCurrent
    {
      if !overridden {
        if brkCurrent == 0 { brkCurrent := brkBase; }
        if request != 0 && brkBase <= request <= Wrap64(brkBase + BRK_MAX) { brkCurrent := request; }
        return brkCurrent;
      }
      var end := request;
      if end == 0 || end < brkBase {
        end := brkCurrent;
      } else if end > Wrap64(brkBase + BRK_MAX) {
        end := Wrap64(brkBase + BRK_MAX);
      }
      brkCurrent := end;
      result := end;
    }

    /** sys_execve up to the new layout: a program that does not fit is refused. */
    method ResetLayout(i: Image) returns (result: int)
      modifies this
      ensures (View(), result) == Serve(old(View()), Exec(i))
      ensures stackTop == if Accepted(i) then StackTop(old(View()), i) else old(stackTop)
    {
      var loadEnd := Wrap64(EXEC_BASE + i.program.hi - i.program.lo);
      if loadEnd >= ARENA { return ENOMEM; }
      var maxEnd := loadEnd;
      if i.dynamic {
        var interpEnd := Wrap64(i.interpBase + i.interpreter.hi - i.interpreter.lo);
        if interpEnd > maxEnd { maxEnd := interpEnd; }
      }
      brkBase := AlignUp(maxEnd);
      brkCurrent, overridden := brkBase, true;
      if next < Wrap64(brkBase + BRK_MAX) { next := Wrap64(brkBase + BRK_MAX); }
      stackTop := Wrap64(next + STACK_SIZE);
      if stackTop >= ARENA { stackTop := Wrap64(i.interpBase - 0x1000); }
      if next < Wrap64(stackTop + 0x1000) { next := Wrap64(stackTop + 0x1000); }
      result := 0;
    }
  }
}
