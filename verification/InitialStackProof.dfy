/** Walking the initial stack recovers what was put on it. */
module InitialStackProof {
  import opened Words
  import opened Ram
  import opened InitialStack

  // ---- a reader's view ----

  /** The C string at p, looked for below `top`. */
  ghost function CString(ram: Ram, p: int, top: int): Str
    decreases top - p
  {
    if p >= top || ByteAt(ram, p) == 0 then [] else [ByteAt(ram, p)] + CString(ram, p + 1, top)
  }

  /** How many words before a zero word. */
  ghost function ZeroAfter(ram: Ram, p: int, limit: nat): nat
    decreases limit
  {
    if limit == 0 || Word(ram, p) == 0 then 0 else 1 + ZeroAfter(ram, p + 8, limit - 1)
  }

  /** Pairs up to AT_NULL. */
  ghost function Pairs(ram: Ram, p: int, limit: nat): seq<(nat, nat)>
    decreases limit
  {
    if limit == 0 || Word(ram, p) == 0 then [] else [(Word(ram, p), Word(ram, p + 8))] + Pairs(ram, p + 16, limit - 1)
  }

  ghost function Strings(ram: Ram, p: int, n: nat, top: int): (r: seq<Str>)
    ensures |r| == n
  {
    seq(n, k requires 0 <= k < n => CString(ram, Word(ram, p + 8 * k), top))
  }

  datatype Seen = Seen(args: seq<Str>, env: seq<Str>, aux: seq<(nat, nat)>)

  /** argc and argv, then envp up to NULL, then pairs up to AT_NULL. */
  ghost function Decode(ram: Ram, sp: int, top: int, limit: nat): Seen {
    var argc := Word(ram, sp);
    var envp := sp + 8 * (argc + 2);
    var n := ZeroAfter(ram, envp, limit);
    Seen(Strings(ram, sp + 8, argc, top), Strings(ram, envp, n, top), Pairs(ram, envp + 8 * (n + 1), limit))
  }

  // ---- strings ----

  lemma {:induction false} ReadString(ram: Ram, p: int, s: Str, top: int)
    requires StringAt(ram, p, s) && 0 !in s && p + |s| < top
    ensures CString(ram, p, top) == s
    decreases |s|
  {
    var c := CopyOut(ram, p, |s| + 1);
    assert c[0] == ByteAt(ram, p);
    if s != [] {
      assert s[0] in s;
      assert CopyOut(ram, p + 1, |s|) == c[1..];
      assert (s + [0])[1..] == s[1..] + [0];
      ReadString(ram, p + 1, s[1..], top);
    }
  }

  /** A write that ends below a string leaves it. */
  lemma {:induction false} KeptAbove(ram: Ram, at: int, data: Str, p: int, s: Str)
    requires StringAt(ram, p, s) && at + |data| <= p
    ensures StringAt(CopyIn(ram, at, data), p, s)
  {
    forall a | p <= a <= p + |s| ensures ByteAt(CopyIn(ram, at, data), a) == ByteAt(ram, a) {
      CopiedByte(ram, at, data, a);
    }
  }

  lemma {:induction false} KeptByPush(ram: Ram, top: int, strs: seq<Str>, p: int, s: Str)
    requires StringAt(ram, p, s) && top <= p
    ensures StringAt(PushAll(ram, top, strs), p, s)
  {
    forall a | p <= a <= p + |s| ensures ByteAt(PushAll(ram, top, strs), a) == ByteAt(ram, a) {
      PushFrame(ram, top, strs, a);
    }
  }

  lemma {:induction false} ArgStored(ram: Ram, args: seq<Str>, env: seq<Str>, top: int, k: nat)
    requires k < |args|
    ensures var p := PlacesFor(args, env, top);
            StringAt(WithStrings(ram, args, env, top), Pointers(p.envBottom, args)[k], args[k])
  {
    var p := PlacesFor(args, env, top);
    var named := WithNames(ram, args, env, top);
    PushedAt(PushAll(named, p.execfn, env), p.envBottom, args, k);
  }

  lemma {:induction false} EnvStored(ram: Ram, args: seq<Str>, env: seq<Str>, top: int, k: nat)
    requires k < |env|
    ensures var p := PlacesFor(args, env, top);
            StringAt(WithStrings(ram, args, env, top), Pointers(p.execfn, env)[k], env[k])
  {
    var p := PlacesFor(args, env, top);
    var named := WithNames(ram, args, env, top);
    PushedAt(named, p.execfn, env, k);
    PointerRange(p.execfn, env, k);
    KeptByPush(PushAll(named, p.execfn, env), p.envBottom, args, Pointers(p.execfn, env)[k], env[k]);
  }

  /** The executable name and the platform string. */
  lemma {:induction false} NamesStored(ram: Ram, args: seq<Str>, env: seq<Str>, top: int)
    ensures var p, w := PlacesFor(args, env, top), WithStrings(ram, args, env, top);
            StringAt(w, p.execfn, ExecName(args)) && StringAt(w, p.platform, PLATFORM)
  {
    var p := PlacesFor(args, env, top);
    PlacesOrdered(args, env, top);
    var r1 := CopyIn(ram, p.platform, PLATFORM + [0]);
    var r2 := CopyIn(r1, p.random, Random());
    var r3 := CopyIn(r2, p.execfn, ExecName(args) + [0]);
    CopyInOut(ram, p.platform, PLATFORM + [0]);
    KeptAbove(r1, p.random, Random(), p.platform, PLATFORM);
    KeptAbove(r2, p.execfn, ExecName(args) + [0], p.platform, PLATFORM);
    CopyInOut(r2, p.execfn, ExecName(args) + [0]);
    KeptByPush(r3, p.execfn, env, p.platform, PLATFORM);
    KeptByPush(r3, p.execfn, env, p.execfn, ExecName(args));
    KeptByPush(PushAll(r3, p.execfn, env), p.envBottom, args, p.platform, PLATFORM);
    KeptByPush(PushAll(r3, p.execfn, env), p.envBottom, args, p.execfn, ExecName(args));
  }

  // ---- the table ----

  ghost predicate WordsAt(ram: Ram, sp: int, t: seq<nat>) { forall k | 0 <= k < |t| :: Word(ram, sp + 8 * k) == t[k] }

  /** argc, then argv, envp and the pairs, each with its terminator. */
  ghost predicate TableAt(ram: Ram, sp: int, args: seq<nat>, env: seq<nat>, aux: seq<Aux>) {
    && Word(ram, sp) == |args|
    && WordsAt(ram, sp + 8, args + [0])
    && WordsAt(ram, sp + 8 * (2 + |args|), env + [0])
    && WordsAt(ram, sp + 8 * (3 + |args| + |env|), AuxWords(aux) + [0, 0])
  }

  lemma {:induction false} WordsSlice(ram: Ram, sp: int, t: seq<nat>, lo: nat, part: seq<nat>)
    requires WordsAt(ram, sp, t) && lo + |part| <= |t| && t[lo..lo + |part|] == part
    ensures WordsAt(ram, sp + 8 * lo, part)
  {
    forall k | 0 <= k < |part| ensures Word(ram, sp + 8 * lo + 8 * k) == part[k] {
      assert part[k] == t[lo..lo + |part|][k] == t[lo + k];
      assert sp + 8 * lo + 8 * k == sp + 8 * (lo + k);
    }
  }

  predicate Small(t: seq<nat>) { forall k | 0 <= k < |t| :: t[k] < TWO64 }

  lemma {:induction false} WordsWritten(ram: Ram, sp: int, t: seq<nat>)
    requires Small(t)
    ensures WordsAt(CopyIn(ram, sp, Encode(t)), sp, t)
  {
    forall k | 0 <= k < |t| ensures Word(CopyIn(ram, sp, Encode(t)), sp + 8 * k) == t[k] { WordWritten(ram, sp, t, k); }
  }

  lemma {:induction false} AuxSmall(aux: seq<Aux>)
    ensures Small(AuxWords(aux))
    decreases |aux|
  {
    if aux != [] { AuxSmall(aux[1..]); }
  }

  lemma {:induction false} TableSmall(args: seq<nat>, env: seq<nat>, aux: seq<Aux>)
    requires |args| < TWO64 && Small(args) && Small(env)
    ensures Small(Table(args, env, aux))
  {
    AuxSmall(aux);
  }

  lemma {:induction false} TableRead(ram: Ram, sp: int, args: seq<nat>, env: seq<nat>, aux: seq<Aux>)
    requires WordsAt(ram, sp, Table(args, env, aux))
    ensures TableAt(ram, sp, args, env, aux)
  {
    var t := Table(args, env, aux);
    WordsSlice(ram, sp, t, 0, t[0..1]);
    assert t[0..1][0] == |args|;
    WordsSlice(ram, sp, t, 1, args + [0]);
    WordsSlice(ram, sp, t, 2 + |args|, env + [0]);
    WordsSlice(ram, sp, t, 3 + (|args| + |env|), AuxWords(aux) + [0, 0]);
  }

  // ---- decoding ----

  lemma {:induction false} CountEnv(ram: Ram, p: int, env: seq<nat>, limit: nat)
    requires WordsAt(ram, p, env + [0]) && (forall k | 0 <= k < |env| :: env[k] != 0) && |env| < limit
    ensures ZeroAfter(ram, p, limit) == |env|
    decreases |env|
  {
    assert Word(ram, p + 8 * 0) == (env + [0])[0];
    if env != [] {
      WordsSlice(ram, p, env + [0], 1, env[1..] + [0]);
      CountEnv(ram, p + 8, env[1..], limit - 1);
    }
  }

  function AsPairs(aux: seq<Aux>): (r: seq<(nat, nat)>)
    ensures |r| == |aux|
  {
    if aux == [] then [] else [(aux[0].tag as nat, aux[0].value as nat)] + AsPairs(aux[1..])
  }

  lemma {:induction false} ReadPairs(ram: Ram, p: int, aux: seq<Aux>, limit: nat)
    requires WordsAt(ram, p, AuxWords(aux) + [0, 0]) && (forall k | 0 <= k < |aux| :: aux[k].tag != 0) && |aux| < limit
    ensures Pairs(ram, p, limit) == AsPairs(aux)
    decreases |aux|
  {
    var t := AuxWords(aux) + [0, 0];
    assert Word(ram, p + 8 * 0) == t[0] && Word(ram, p + 8 * 1) == t[1];
    if aux != [] {
      WordsSlice(ram, p, t, 2, AuxWords(aux[1..]) + [0, 0]);
      ReadPairs(ram, p + 16, aux[1..], limit - 1);
    }
  }

  /** Pointers to strings that are all in place. */
  ghost predicate Point(ram: Ram, ptrs: seq<nat>, strs: seq<Str>, top: int) {
    |ptrs| == |strs| && forall k | 0 <= k < |strs| ::
      StringAt(ram, ptrs[k], strs[k]) && 0 !in strs[k] && ptrs[k] + |strs[k]| < top && 0 < ptrs[k] < TWO64
  }

  lemma {:induction false} ReadStrings(ram: Ram, p: int, ptrs: seq<nat>, strs: seq<Str>, top: int)
    requires Point(ram, ptrs, strs, top) && WordsAt(ram, p, ptrs + [0])
    ensures Strings(ram, p, |strs|, top) == strs
  {
    forall k | 0 <= k < |strs| ensures Strings(ram, p, |strs|, top)[k] == strs[k] {
      assert (ptrs + [0])[k] == ptrs[k];
      ReadString(ram, ptrs[k], strs[k], top);
    }
  }

  lemma {:induction false} DecodeTable(ram: Ram, sp: int, argp: seq<nat>, envp: seq<nat>, aux: seq<Aux>,
                                       args: seq<Str>, env: seq<Str>, top: int, limit: nat)
    requires TableAt(ram, sp, argp, envp, aux) && Point(ram, argp, args, top) && Point(ram, envp, env, top)
    requires limit > |env| && limit > |aux| && forall k | 0 <= k < |aux| :: aux[k].tag != 0
    ensures Decode(ram, sp, top, limit) == Seen(args, env, AsPairs(aux))
  {
    var e := sp + 8 * (|argp| + 2);
    ReadStrings(ram, sp + 8, argp, args, top);
    CountEnv(ram, e, envp, limit);
    ReadStrings(ram, e, envp, env, top);
    ReadPairs(ram, e + 8 * (|envp| + 1), aux, limit);
  }

  // ---- the whole stack ----

  predicate Terminable(strs: seq<Str>) { forall k | 0 <= k < |strs| :: 0 !in strs[k] }

  lemma {:induction false} ArgsPoint(ram: Ram, info: ElfInfo, base: u64, args: seq<Str>, env: seq<Str>, top: u64)
    requires FitsStack(args, env, top) && Terminable(args)
    ensures PlacesFor(args, env, top).envBottom <= top
    ensures (forall k | 0 <= k < |args| :: 0 < Pointers(PlacesFor(args, env, top).envBottom, args)[k])
    ensures Point(Built(ram, info, base, args, env, top),
                  Pointers(PlacesFor(args, env, top).envBottom, args), args, top)
  {
    var p := PlacesFor(args, env, top);
    PlacesOrdered(args, env, top);
    var ptrs := Pointers(p.envBottom, args);
    forall k | 0 <= k < |args|
      ensures StringAt(Built(ram, info, base, args, env, top), ptrs[k], args[k])
      ensures ptrs[k] + |args[k]| < top && 0 < ptrs[k] < TWO64
    {
      ArgStored(ram, args, env, top, k);
      PointerRange(p.envBottom, args, k);
      KeptAbove(WithStrings(ram, args, env, top), p.sp, Encode(WordList(info, base, args, env, top)), ptrs[k], args[k]);
    }
  }

  lemma {:induction false} EnvPoint(ram: Ram, info: ElfInfo, base: u64, args: seq<Str>, env: seq<Str>, top: u64)
    requires FitsStack(args, env, top) && Terminable(env)
    ensures (forall k | 0 <= k < |env| :: 0 < Pointers(PlacesFor(args, env, top).execfn, env)[k])
    ensures Point(Built(ram, info, base, args, env, top), Pointers(PlacesFor(args, env, top).execfn, env), env, top)
  {
    var p := PlacesFor(args, env, top);
    PlacesOrdered(args, env, top);
    var ptrs := Pointers(p.execfn, env);
    forall k | 0 <= k < |env|
      ensures StringAt(Built(ram, info, base, args, env, top), ptrs[k], env[k])
      ensures ptrs[k] + |env[k]| < top && 0 < ptrs[k] < TWO64
    {
      EnvStored(ram, args, env, top, k);
      PointerRange(p.execfn, env, k);
      KeptAbove(WithStrings(ram, args, env, top), p.sp, Encode(WordList(info, base, args, env, top)), ptrs[k], env[k]);
    }
  }

  /** Walking memory from the stack pointer gives back the arguments, the environment and the
      auxiliary vector, and the stack pointer is 16-byte aligned. */
  lemma {:induction false} DecodesBack(ram: Ram, info: ElfInfo, base: u64, args: seq<Str>, env: seq<Str>, top: u64,
                                       limit: nat)
    requires FitsStack(args, env, top) && Terminable(args) && Terminable(env) && limit > |env| && limit > 16
    ensures var p := PlacesFor(args, env, top);
            && p.sp % 16 == 0
            && Decode(Built(ram, info, base, args, env, top), p.sp, top, limit)
               == Seen(args, env, AsPairs(Vector(info, base, args, env, top)))
  {
    var p := PlacesFor(args, env, top);
    PlacesOrdered(args, env, top);
    ArgsPoint(ram, info, base, args, env, top);
    EnvPoint(ram, info, base, args, env, top);
    var argp: seq<nat>, envp: seq<nat> := Pointers(p.envBottom, args), Pointers(p.execfn, env);
    var aux := Vector(info, base, args, env, top);
    TableSmall(argp, envp, aux);
    WordsWritten(WithStrings(ram, args, env, top), p.sp, Table(argp, envp, aux));
    TableRead(Built(ram, info, base, args, env, top), p.sp, argp, envp, aux);
    DecodeTable(Built(ram, info, base, args, env, top), p.sp, argp, envp, aux, args, env, top, limit);
  }

  lemma {:induction false} AuxEntries(info: ElfInfo, base: u64, args: seq<Str>, env: seq<Str>, top: u64)
    requires FitsStack(args, env, top)
    ensures var p, v := PlacesFor(args, env, top), Vector(info, base, args, env, top);
            && 0 <= p.execfn < TWO64 && 0 <= p.platform < TWO64
            && Aux(31, p.execfn) in v && Aux(15, p.platform) in v
  {
    var p, v := PlacesFor(args, env, top), Vector(info, base, args, env, top);
    PlacesOrdered(args, env, top);
    assert v[14] == Aux(31, p.execfn) && v[15] == Aux(15, p.platform);
  }

  /** The strings the auxiliary vector points to are in place too. */
  lemma {:induction false} AuxStrings(ram: Ram, info: ElfInfo, base: u64, args: seq<Str>, env: seq<Str>, top: u64)
    requires FitsStack(args, env, top) && Terminable(args)
    ensures var p, b := PlacesFor(args, env, top), Built(ram, info, base, args, env, top);
            CString(b, p.execfn, top) == ExecName(args) && CString(b, p.platform, top) == PLATFORM
  {
    var p := PlacesFor(args, env, top);
    NamesStored(ram, args, env, top);
    NamesAbove(info, base, args, env, top);
    BuiltRead(ram, info, base, args, env, top, p.execfn, ExecName(args));
    BuiltRead(ram, info, base, args, env, top, p.platform, PLATFORM);
  }

  lemma {:induction false} NamesAbove(info: ElfInfo, base: u64, args: seq<Str>, env: seq<Str>, top: u64)
    requires FitsStack(args, env, top) && Terminable(args)
    ensures var p := PlacesFor(args, env, top);
            var end := PlacesFor(args, env, top).sp + |Encode(WordList(info, base, args, env, top))|;
            && end <= p.execfn && end <= p.platform && 0 !in ExecName(args) && 0 !in PLATFORM
            && p.execfn + |ExecName(args)| < top && p.platform + |PLATFORM| < top
  {
    PlacesOrdered(args, env, top);
  }

  lemma {:induction false} BuiltRead(ram: Ram, info: ElfInfo, base: u64, args: seq<Str>, env: seq<Str>, top: u64,
                                     at: int, s: Str)
    requires FitsStack(args, env, top) && StringAt(WithStrings(ram, args, env, top), at, s) && 0 !in s
    requires PlacesFor(args, env, top).sp + |Encode(WordList(info, base, args, env, top))| <= at && at + |s| < top
    ensures CString(Built(ram, info, base, args, env, top), at, top) == s
  {
    StringRead(WithStrings(ram, args, env, top), PlacesFor(args, env, top).sp,
               Encode(WordList(info, base, args, env, top)), at, s, top);
  }

  lemma {:induction false} StringRead(ram: Ram, sp: int, words: Str, at: int, s: Str, top: int)
    requires StringAt(ram, at, s) && 0 !in s && sp + |words| <= at && at + |s| < top
    ensures CString(CopyIn(ram, sp, words), at, top) == s
  {
    KeptAbove(ram, sp, words, at, s);
    ReadString(CopyIn(ram, sp, words), at, s, top);
  }

  /** The value the guest finds for a tag. */
  function ValueOf(v: seq<Aux>, tag: int): Option<u64> {
    if v == [] then None else if v[0].tag == tag then Some(v[0].value) else ValueOf(v[1..], tag)
  }

  lemma {:induction false} ValueAt(v: seq<Aux>, k: nat)
    requires k < |v| && forall j | 0 <= j < k :: v[j].tag != v[k].tag
    ensures ValueOf(v, v[k].tag) == Some(v[k].value)
    decreases k
  {
    if k > 0 {
      assert v[1..][k - 1] == v[k] && forall j | 0 <= j < k - 1 :: v[1..][j] == v[j + 1];
      ValueAt(v[1..], k - 1);
    }
  }

  lemma {:induction false} NoValue(v: seq<Aux>, tag: int)
    requires forall j | 0 <= j < |v| :: v[j].tag != tag
    ensures ValueOf(v, tag) == None
  {
    if v != [] { NoValue(v[1..], tag); }
  }

  /** What the dynamic linker finds: program headers (AT_PHDR 3, AT_PHENT 4, AT_PHNUM 5), page
      size (6), interpreter base (7), entry (9), ids (11 to 14), platform (15), capabilities (16),
      clock ticks (17), secure mode (23), random bytes (25) and file name (31), and no others. */
  lemma {:induction false} AuxValues(info: ElfInfo, base: u64, random: u64, execfn: u64, platform: u64, tag: int)
    ensures ValueOf(AuxVector(info, base, random, execfn, platform), tag)
            == if tag == 3 then Some(info.phdr) else if tag == 4 then Some(info.phent)
               else if tag == 5 then Some(info.phnum) else if tag == 6 then Some(4096) else if tag == 7 then Some(base)
               else if tag == 9 then Some(info.entry) else if tag in {11, 12, 13, 14, 23} then Some(0)
               else if tag == 15 then Some(platform) else if tag == 16 then Some(0x112D)
               else if tag == 17 then Some(100) else if tag == 25 then Some(random)
               else if tag == 31 then Some(execfn) else None
  {
    var v := AuxVector(info, base, random, execfn, platform);
    var k := if tag in {11, 12, 13, 14} then tag - 11 else if tag == 23 then 4 else if 3 <= tag <= 6 then tag + 2
             else if tag == 9 then 9 else if tag == 7 then 10 else if tag == 16 then 11 else if tag == 17 then 12
             else if tag == 25 then 13 else if tag == 31 then 14 else 15;
    if v[k].tag == tag { ValueAt(v, k); } else { NoValue(v, tag); }
  }
}
