/** The initial process stack: strings, then argc, argv, envp and the auxiliary vector. */
module InitialStack {
  import opened Words
  import opened Ram

  /** What the auxiliary vector says about the program. */
  datatype ElfInfo = ElfInfo(phdr: u64, phent: u64, phnum: u64, entry: u64)

  /** "riscv64" and "/bin/program" */
  const PLATFORM: Str := [114, 105, 115, 99, 118, 54, 52]
  const DEFAULT_NAME: Str := [47, 98, 105, 110, 47, 112, 114, 111, 103, 114, 97, 109]

  function RandomByte(i: nat): byte { (i * 17 + 42) % 256 }

  function Random(): (r: Str)
    ensures |r| == 16 && forall i | 0 <= i < 16 :: r[i] == RandomByte(i)
  {
    seq<byte>(16, i requires 0 <= i < 16 => RandomByte(i))
  }

  function Align8(a: int): (r: int)
    ensures r <= a < r + 8
  {
    a - a % 8
  }

  function Align16(a: int): (r: int)
    ensures r <= a < r + 16 && r % 16 == 0
  {
    a - a % 16
  }

  // ---- strings ----

  /** The addresses of strings pushed one below the other from `top`. */
  function Pointers(top: int, strs: seq<Str>): (r: seq<int>)
    ensures |r| == |strs|
    decreases |strs|
  {
    if strs == [] then [] else [top - |strs[0]| - 1] + Pointers(top - |strs[0]| - 1, strs[1..])
  }

  function Bottom(top: int, strs: seq<Str>): (r: int)
    ensures r <= top - |strs|
    decreases |strs|
  {
    if strs == [] then top else Bottom(top - |strs[0]| - 1, strs[1..])
  }

  function PushAll(ram: Ram, top: int, strs: seq<Str>): Ram
    decreases |strs|
  {
    if strs == [] then ram
    else PushAll(CopyIn(ram, top - |strs[0]| - 1, strs[0] + [0]), top - |strs[0]| - 1, strs[1..])
  }

  /** A terminated string at an address. */
  ghost predicate StringAt(ram: Ram, p: int, s: Str) { CopyOut(ram, p, |s| + 1) == s + [0] }

  lemma {:induction false} PushFrame(ram: Ram, top: int, strs: seq<Str>, a: int)
    requires a >= top || a < Bottom(top, strs)
    ensures ByteAt(PushAll(ram, top, strs), a) == ByteAt(ram, a)
    decreases |strs|
  {
    if strs != [] {
      var p := top - |strs[0]| - 1;
      CopiedByte(ram, p, strs[0] + [0], a);
      PushFrame(CopyIn(ram, p, strs[0] + [0]), p, strs[1..], a);
    }
  }

  /** Copying out a range that two memories agree on. */
  lemma {:induction false} CopySame(a: Ram, b: Ram, p: int, n: nat)
    requires forall k | p <= k < p + n :: ByteAt(a, k) == ByteAt(b, k)
    ensures CopyOut(a, p, n) == CopyOut(b, p, n)
  {
  }

  lemma {:induction false} PointerRange(top: int, strs: seq<Str>, k: nat)
    requires k < |strs|
    ensures Bottom(top, strs) <= Pointers(top, strs)[k] && Pointers(top, strs)[k] + |strs[k]| + 1 <= top
    ensures k > 0 ==> Pointers(top, strs)[k] + |strs[k]| + 1 == Pointers(top, strs)[k - 1]
    decreases |strs|
  {
    var p := top - |strs[0]| - 1;
    if k > 0 {
      PointerRange(p, strs[1..], k - 1);
      if k == 1 { assert Pointers(p, strs[1..])[0] == p - |strs[1..][0]| - 1; }
    }
  }

  lemma {:induction false} PushedAt(ram: Ram, top: int, strs: seq<Str>, k: nat)
    requires k < |strs|
    ensures StringAt(PushAll(ram, top, strs), Pointers(top, strs)[k], strs[k])
    decreases |strs|
  {
    var p := top - |strs[0]| - 1;
    var ram1 := CopyIn(ram, p, strs[0] + [0]);
    if k == 0 {
      CopyInOut(ram, p, strs[0] + [0]);
      forall a | p <= a < p + |strs[0]| + 1 ensures ByteAt(PushAll(ram1, p, strs[1..]), a) == ByteAt(ram1, a) {
        PushFrame(ram1, p, strs[1..], a);
      }
      CopySame(PushAll(ram1, p, strs[1..]), ram1, p, |strs[0]| + 1);
    } else {
      PushedAt(ram1, p, strs[1..], k - 1);
    }
  }

  // ---- words ----

  function Encode(ws: seq<nat>): (r: Str)
    ensures |r| == 8 * |ws|
  {
    if ws == [] then [] else Little(8, ws[0]) + Encode(ws[1..])
  }

  lemma {:induction false} EncodedAt(ws: seq<nat>, k: nat)
    requires k < |ws|
    ensures Encode(ws)[8 * k..8 * k + 8] == Little(8, ws[k])
    decreases |ws|
  {
    if k > 0 {
      EncodedAt(ws[1..], k - 1);
      var e := Encode(ws[1..]);
      assert Encode(ws)[8 * k..8 * k + 8] == e[8 * (k - 1)..8 * (k - 1) + 8];
    }
  }

  lemma {:induction false} WordWritten(ram: Ram, p: int, ws: seq<nat>, k: nat)
    requires k < |ws| && ws[k] < TWO64
    ensures Word(CopyIn(ram, p, Encode(ws)), p + 8 * k) == ws[k]
  {
    var ram1 := CopyIn(ram, p, Encode(ws));
    CopyInOut(ram, p, Encode(ws));
    var all := CopyOut(ram1, p, 8 * |ws|);
    assert CopyOut(ram1, p + 8 * k, 8) == all[8 * k..8 * k + 8];
    EncodedAt(ws, k);
    LittleRoundTrip(8, ws[k]);
    assert Pow256(4) == TWO32 && Pow256(8) == TWO64;
  }

  // ---- building ----

  datatype Aux = Aux(tag: u64, value: u64)

  /** The auxiliary vector without its terminator. */
  function AuxVector(info: ElfInfo, base: u64, random: u64, execfn: u64, platform: u64): (r: seq<Aux>)
    ensures forall k | 0 <= k < |r| :: r[k].tag != 0
  {
    [Aux(11, 0), Aux(12, 0), Aux(13, 0), Aux(14, 0), Aux(23, 0),
     Aux(3, info.phdr), Aux(4, info.phent), Aux(5, info.phnum), Aux(6, 4096), Aux(9, info.entry), Aux(7, base),
     Aux(16, 0x112D), Aux(17, 100), Aux(25, random), Aux(31, execfn), Aux(15, platform)]
  }

  function AuxWords(aux: seq<Aux>): (r: seq<nat>)
    ensures |r| == 2 * |aux|
  {
    if aux == [] then [] else [aux[0].tag, aux[0].value] + AuxWords(aux[1..])
  }

  /** argc, argv, NULL, envp, NULL, auxiliary pairs, AT_NULL. */
  function Table(args: seq<nat>, env: seq<nat>, aux: seq<Aux>): (r: seq<nat>)
    ensures |r| == 5 + |args| + |env| + 2 * |aux|
  {
    [|args|] + args + [0] + env + [0] + AuxWords(aux) + [0, 0]
  }

  function ExecName(args: seq<Str>): Str { if args == [] then DEFAULT_NAME else args[0] }

  /** Where everything goes, from the top down. */
  datatype Places = Places(platform: int, random: int, execfn: int, envBottom: int, argBottom: int, sp: int)

  function PlacesFor(args: seq<Str>, env: seq<Str>, top: int): Places {
    var platform := Align8(top - 8);
    var random := platform - 16;
    var execfn := Align8(random - (|ExecName(args)| + 1));
    var envBottom := Bottom(execfn, env);
    var argBottom := Bottom(envBottom, args);
    var table := 8 * (5 + |args| + |env| + 2 * 16);
    Places(platform, random, execfn, envBottom, argBottom, Align16(Align16(argBottom) - table))
  }

  /** The strings and tables fit below the stack top. */
  predicate FitsStack(args: seq<Str>, env: seq<Str>, top: u64) { PlacesFor(args, env, top).sp >= 0 }

  lemma {:induction false} PlacesOrdered(args: seq<Str>, env: seq<Str>, top: int)
    ensures var p := PlacesFor(args, env, top);
            && p.sp % 16 == 0 && p.sp + 8 * (5 + |args| + |env| + 2 * 16) <= p.argBottom
            && p.argBottom <= p.envBottom - |args| && p.envBottom <= p.execfn - |env|
            && p.execfn + |ExecName(args)| + 1 <= p.random == p.platform - 16 && p.platform + 8 <= top
  {
  }

  /** Platform, random bytes and executable name. */
  function WithNames(ram: Ram, args: seq<Str>, env: seq<Str>, top: int): Ram {
    var p := PlacesFor(args, env, top);
    CopyIn(CopyIn(CopyIn(ram, p.platform, PLATFORM + [0]), p.random, Random()), p.execfn, ExecName(args) + [0])
  }

  /** Memory once all strings are in place. */
  function WithStrings(ram: Ram, args: seq<Str>, env: seq<Str>, top: int): Ram {
    var p := PlacesFor(args, env, top);
    PushAll(PushAll(WithNames(ram, args, env, top), p.execfn, env), p.envBottom, args)
  }

  function Vector(info: ElfInfo, base: u64, args: seq<Str>, env: seq<Str>, top: u64): seq<Aux>
    requires FitsStack(args, env, top)
  {
    var p := PlacesFor(args, env, top);
    PlacesOrdered(args, env, top);
    AuxVector(info, base, p.random, p.execfn, p.platform)
  }

  function WordList(info: ElfInfo, base: u64, args: seq<Str>, env: seq<Str>, top: u64): seq<nat>
    requires FitsStack(args, env, top)
  {
    var p := PlacesFor(args, env, top);
    PointersPositive(p.envBottom, args);
    PointersPositive(p.execfn, env);
    PlacesOrdered(args, env, top);
    Table(Pointers(p.envBottom, args), Pointers(p.execfn, env), Vector(info, base, args, env, top))
  }

  lemma {:induction false} PointersPositive(top: int, strs: seq<Str>)
    ensures forall k | 0 <= k < |strs| :: Bottom(top, strs) <= Pointers(top, strs)[k] < top
  {
    forall k | 0 <= k < |strs| ensures Bottom(top, strs) <= Pointers(top, strs)[k] < top { PointerRange(top, strs, k); }
  }

  /** The finished memory. */
  function Built(ram: Ram, info: ElfInfo, base: u64, args: seq<Str>, env: seq<Str>, top: u64): Ram
    requires FitsStack(args, env, top)
  {
    CopyIn(WithStrings(ram, args, env, top), PlacesFor(args, env, top).sp, Encode(WordList(info, base, args, env, top)))
  }

  // ---- in 64-bit addresses ----

  function Pointers64(top: u64, strs: seq<Str>): (r: seq<u64>)
    ensures |r| == |strs|
    decreases |strs|
  {
    if strs == [] then []
    else
      var p := Down(top, |strs[0]| + 1);
      [p] + Pointers64(p, strs[1..])
  }

  function Bottom64(top: u64, strs: seq<Str>): u64
    decreases |strs|
  {
    if strs == [] then top else Bottom64(Down(top, |strs[0]| + 1), strs[1..])
  }

  function PushAll64(ram: Ram, top: u64, strs: seq<Str>): Ram
    decreases |strs|
  {
    if strs == [] then ram
    else
      var p := Down(top, |strs[0]| + 1);
      PushAll64(CopyIn64(ram, p, strs[0] + [0]), p, strs[1..])
  }

  datatype Places64 = Places64(platform: u64, random: u64, execfn: u64, envBottom: u64, argBottom: u64, sp: u64)

  function Down(a: u64, n: nat): u64 { Wrap64(a - n) }

  function Down8(a: u64): u64 { Align8(a) }

  function Down16(a: u64): u64 { Align16(a) }

  function PlacesIn64(args: seq<Str>, env: seq<Str>, top: u64): Places64 {
    var platform := Down8(Down(top, 8));
    var random := Down(platform, 16);
    var execfn := Down8(Down(random, |ExecName(args)| + 1));
    var envBottom := Bottom64(execfn, env);
    var argBottom := Bottom64(envBottom, args);
    var table := 8 * (5 + |args| + |env| + 2 * 16);
    Places64(platform, random, execfn, envBottom, argBottom, Down16(Down(Down16(argBottom), table)))
  }

  function WithNames64(ram: Ram, args: seq<Str>, p: Places64): Ram {
    CopyIn64(CopyIn64(CopyIn64(ram, p.platform, PLATFORM + [0]), p.random, Random()), p.execfn, ExecName(args) + [0])
  }

  function WithStrings64(ram: Ram, args: seq<Str>, env: seq<Str>, p: Places64): Ram {
    PushAll64(PushAll64(WithNames64(ram, args, p), p.execfn, env), p.envBottom, args)
  }

  function WordList64(info: ElfInfo, base: u64, args: seq<Str>, env: seq<Str>, p: Places64): seq<nat> {
    Table(Pointers64(p.envBottom, args), Pointers64(p.execfn, env),
          AuxVector(info, base, p.random, p.execfn, p.platform))
  }

  /** The memory setup_dynamic_stack leaves. */
  function Built64(ram: Ram, info: ElfInfo, base: u64, args: seq<Str>, env: seq<Str>, top: u64): Ram {
    var p := PlacesIn64(args, env, top);
    CopyIn64(WithStrings64(ram, args, env, p), p.sp, Encode(WordList64(info, base, args, env, p)))
  }

  lemma {:induction false} PointersUnwrapped(top: u64, strs: seq<Str>)
    requires Bottom(top, strs) >= 0
    ensures Bottom64(top, strs) == Bottom(top, strs) && Pointers64(top, strs) == Pointers(top, strs)
    decreases |strs|
  {
    if strs != [] {
      DownUnwrapped(top, |strs[0]| + 1);
      PointersUnwrapped(top - |strs[0]| - 1, strs[1..]);
    }
  }

  lemma {:induction false} PushUnwrapped(ram: Ram, top: u64, strs: seq<Str>)
    requires Bottom(top, strs) >= 0
    ensures PushAll64(ram, top, strs) == PushAll(ram, top, strs)
    decreases |strs|
  {
    if strs != [] {
      var p := top - |strs[0]| - 1;
      DownUnwrapped(top, |strs[0]| + 1);
      CopyUnwrapped(ram, p, strs[0] + [0]);
      PushUnwrapped(CopyIn(ram, p, strs[0] + [0]), p, strs[1..]);
    }
  }

  lemma {:induction false} NamePlaces(n: nat, top: u64)
    requires Align8(Align8(top - 8) - 16 - (n + 1)) >= 0
    ensures Down8(Down(top, 8)) == Align8(top - 8) && Down(Down8(Down(top, 8)), 16) == Align8(top - 8) - 16
    ensures Down8(Down(Down(Down8(Down(top, 8)), 16), n + 1)) == Align8(Align8(top - 8) - 16 - (n + 1))
  {
    DownUnwrapped(top, 8);
    DownUnwrapped(Align8(top - 8), 16);
    DownUnwrapped(Align8(top - 8) - 16, n + 1);
  }

  lemma {:induction false} TablePlace(bottom: u64, n: nat)
    requires Align16(Align16(bottom) - n) >= 0
    ensures Down16(Down(Down16(bottom), n)) == Align16(Align16(bottom) - n)
  {
    DownUnwrapped(Align16(bottom), n);
  }

  lemma {:induction false} PlacesUnwrapped(args: seq<Str>, env: seq<Str>, top: u64)
    requires FitsStack(args, env, top)
    ensures var p, q := PlacesFor(args, env, top), PlacesIn64(args, env, top);
            q.platform == p.platform && q.random == p.random && q.execfn == p.execfn
            && q.envBottom == p.envBottom && q.argBottom == p.argBottom && q.sp == p.sp
  {
    var p := PlacesFor(args, env, top);
    PlacesOrdered(args, env, top);
    NamePlaces(|ExecName(args)|, top);
    PointersUnwrapped(p.execfn, env);
    PointersUnwrapped(p.envBottom, args);
    TablePlace(p.argBottom, 8 * (5 + |args| + |env| + 2 * 16));
  }

  lemma {:induction false} DownUnwrapped(a: u64, n: nat)
    requires n <= a
    ensures Down(a, n) == a - n
  {
  }

  lemma {:induction false} NamesUnwrapped(ram: Ram, args: seq<Str>, env: seq<Str>, top: u64)
    requires FitsStack(args, env, top)
    ensures WithNames64(ram, args, PlacesIn64(args, env, top)) == WithNames(ram, args, env, top)
  {
    var p := PlacesFor(args, env, top);
    PlacesUnwrapped(args, env, top);
    PlacesOrdered(args, env, top);
    var r1 := CopyIn(ram, p.platform, PLATFORM + [0]);
    CopyUnwrapped(ram, p.platform, PLATFORM + [0]);
    CopyUnwrapped(r1, p.random, Random());
    CopyUnwrapped(CopyIn(r1, p.random, Random()), p.execfn, ExecName(args) + [0]);
  }

  lemma {:induction false} AllUnwrapped(ram: Ram, args: seq<Str>, env: seq<Str>, top: u64)
    requires FitsStack(args, env, top)
    ensures WithStrings64(ram, args, env, PlacesIn64(args, env, top)) == WithStrings(ram, args, env, top)
  {
    var p := PlacesFor(args, env, top);
    PlacesUnwrapped(args, env, top);
    PlacesOrdered(args, env, top);
    NamesUnwrapped(ram, args, env, top);
    var named := WithNames(ram, args, env, top);
    PushUnwrapped(named, p.execfn, env);
    PushUnwrapped(PushAll(named, p.execfn, env), p.envBottom, args);
  }

  lemma {:induction false} WordsUnwrapped(info: ElfInfo, base: u64, args: seq<Str>, env: seq<Str>, top: u64)
    requires FitsStack(args, env, top)
    ensures WordList64(info, base, args, env, PlacesIn64(args, env, top)) == WordList(info, base, args, env, top)
  {
    var p := PlacesFor(args, env, top);
    PlacesUnwrapped(args, env, top);
    PlacesOrdered(args, env, top);
    PointersUnwrapped(p.execfn, env);
    PointersUnwrapped(p.envBottom, args);
  }

  /** The 64-bit stack pointer is the unbounded one, and so is the memory, if and only if
      everything fits below the stack top. */
  lemma {:induction false} FitsExact(ram: Ram, info: ElfInfo, base: u64, args: seq<Str>, env: seq<Str>, top: u64)
    ensures PlacesIn64(args, env, top).sp == PlacesFor(args, env, top).sp <==> FitsStack(args, env, top)
    ensures FitsStack(args, env, top)
            ==> Built64(ram, info, base, args, env, top) == Built(ram, info, base, args, env, top)
  {
    if FitsStack(args, env, top) {
      var p := PlacesFor(args, env, top);
      PlacesUnwrapped(args, env, top);
      PlacesOrdered(args, env, top);
      AllUnwrapped(ram, args, env, top);
      WordsUnwrapped(info, base, args, env, top);
      CopyUnwrapped(WithStrings(ram, args, env, top), p.sp, Encode(WordList(info, base, args, env, top)));
    }
  }

  // ---- in place ----

  class Guest {
    var ram: Ram
    var sp: u64

    /** One string below the stack pointer. */
    method PushString(s: Str)
      modifies this
      ensures sp == Down(old(sp), |s| + 1) && ram == CopyIn64(old(ram), sp, s + [0])
    {
      sp := Down(sp, |s| + 1);
      ram := CopyIn64(ram, sp, s + [0]);
    }

    /** The loops over the environment and the arguments. */
    method PushStrings(strs: seq<Str>) returns (ptrs: seq<u64>)
      modifies this
      ensures ptrs == Pointers64(old(sp), strs) && sp == Bottom64(old(sp), strs)
              && ram == PushAll64(old(ram), old(sp), strs)
    {
      ptrs := [];
      assert strs[0..] == strs;
      for k := 0 to |strs|
        invariant ptrs + Pointers64(sp, strs[k..]) == Pointers64(old(sp), strs)
        invariant Bottom64(sp, strs[k..]) == Bottom64(old(sp), strs)
        invariant PushAll64(ram, sp, strs[k..]) == PushAll64(old(ram), old(sp), strs)
      {
        PushStep(ram, sp, strs, k, ptrs);
        PushString(strs[k]);
        ptrs := ptrs + [sp];
      }
      assert strs[|strs|..] == [];
    }

    /** Sixteen bytes for AT_RANDOM. */
    method WriteRandom(n: nat, ghost bytes: Str)
      requires |bytes| == n && forall i | 0 <= i < n :: bytes[i] == RandomByte(i)
      modifies `ram
      ensures ram == CopyIn64(old(ram), sp, bytes)
    {
      assert bytes[0..] == bytes;
      for i := 0 to n
        invariant CopyIn64(ram, Wrap64(sp + i), bytes[i..]) == CopyIn64(old(ram), sp, bytes)
      {
        CopyByte(ram, sp, bytes, i);
        ram := ram[Wrap64(sp + i) := RandomByte(i)];
      }
      assert bytes[n..] == [];
    }

    /** 64-bit writes from an address upwards. */
    method WriteWords(at: u64, ws: seq<nat>)
      modifies `ram
      ensures ram == CopyIn64(old(ram), at, Encode(ws))
    {
      var end: u64 := at;
      assert ws[0..] == ws;
      for k := 0 to |ws|
        invariant CopyIn64(ram, end, Encode(ws[k..])) == CopyIn64(old(ram), at, Encode(ws))
      {
        assert ws[k..][1..] == ws[k + 1..];
        CopyMore64(ram, end, Little(8, ws[k]), Encode(ws[k + 1..]));
        ram := CopyIn64(ram, end, Little(8, ws[k]));
        end := Wrap64(end + 8);
      }
      assert ws[|ws|..] == [];
    }

    /** The words of the table, in the order the source writes them. */
    method WriteTable(argp: seq<nat>, envp: seq<nat>, aux: seq<Aux>)
      modifies `ram
      ensures ram == CopyIn64(old(ram), sp, Encode(Table(argp, envp, aux)))
    {
      var words: seq<nat> := [|argp|] + argp + [0] + envp + [0];
      ghost var head := words;
      for k := 0 to |aux|
        invariant ram == old(ram) && words + AuxWords(aux[k..]) == head + AuxWords(aux)
      {
        AuxStep(words, aux, k);
        words := words + [aux[k].tag, aux[k].value];
      }
      assert AuxWords(aux[|aux|..]) == [] && words + [] == words;
      words := words + [0, 0];
      WriteWords(sp, words);
    }

    /** Platform, random bytes and executable name. */
    method PlaceNames(args: seq<Str>, env: seq<Str>, top: u64) returns (platform: u64, random: u64, execfn: u64)
      modifies this
      ensures var p := PlacesIn64(args, env, top);
              platform == p.platform && random == p.random && execfn == p.execfn == sp
              && ram == WithNames64(old(ram), args, p)
    {
      sp := Down8(Down(top, 8));
      platform := sp;
      ram := CopyIn64(ram, sp, PLATFORM + [0]);
      sp := Down(sp, 16);
      random := sp;
      WriteRandom(16, Random());
      var name := if args == [] then DEFAULT_NAME else args[0];
      sp := Down8(Down(sp, |name| + 1));
      execfn := sp;
      ram := CopyIn64(ram, sp, name + [0]);
    }

    /** All strings, from the top down. */
    method PlaceStrings(args: seq<Str>, env: seq<Str>, top: u64)
      returns (platform: u64, random: u64, execfn: u64, argp: seq<u64>, envp: seq<u64>)
      modifies this
      ensures var p := PlacesIn64(args, env, top);
              && platform == p.platform && random == p.random && execfn == p.execfn && sp == p.argBottom
              && argp == Pointers64(p.envBottom, args) && envp == Pointers64(p.execfn, env)
              && ram == WithStrings64(old(ram), args, env, p)
    {
      platform, random, execfn := PlaceNames(args, env, top);
      envp := PushStrings(env);
      argp := PushStrings(args);
    }

    /** setup_dynamic_stack. */
    method SetupDynamicStack(info: ElfInfo, base: u64, args: seq<Str>, env: seq<Str>, top: u64)
      modifies this
      ensures sp == PlacesIn64(args, env, top).sp && ram == Built64(old(ram), info, base, args, env, top)
    {
      var platform, random, execfn, argp, envp := PlaceStrings(args, env, top);
      sp := Down16(sp);
      var aux := AuxVector(info, base, random, execfn, platform);
      sp := Down16(Down(sp, 8 * (5 + |argp| + |envp| + 2 * |aux|)));
      WriteTable(argp, envp, aux);
    }
  }

  lemma {:induction false} PushStep(ram: Ram, sp: u64, strs: seq<Str>, k: nat, ptrs: seq<u64>)
    requires k < |strs|
    ensures var p := Down(sp, |strs[k]| + 1);
            && ptrs + Pointers64(sp, strs[k..]) == ptrs + [p] + Pointers64(p, strs[k + 1..])
            && Bottom64(sp, strs[k..]) == Bottom64(p, strs[k + 1..])
            && PushAll64(ram, sp, strs[k..]) == PushAll64(CopyIn64(ram, p, strs[k] + [0]), p, strs[k + 1..])
  {
    assert strs[k..][1..] == strs[k + 1..];
  }

  lemma {:induction false} CopyByte(ram: Ram, at: u64, data: Str, i: nat)
    requires i < |data|
    ensures CopyIn64(ram, Wrap64(at + i), data[i..])
            == CopyIn64(ram[Wrap64(at + i) := data[i]], Wrap64(at + (i + 1)), data[i + 1..])
  {
    assert data[i..][1..] == data[i + 1..];
    assert Wrap64(Wrap64(at + i) + 1) == Wrap64(at + (i + 1));
  }

  lemma {:induction false} AuxStep(words: seq<nat>, aux: seq<Aux>, k: nat)
    requires k < |aux|
    ensures words + AuxWords(aux[k..]) == words + [aux[k].tag, aux[k].value] + AuxWords(aux[k + 1..])
  {
    assert aux[k..][1..] == aux[k + 1..];
  }
}
