/** Guest memory as bytes, with block copies and little-endian words. */
module Ram {
  import opened Words

  type Ram = map<int, byte>

  function ByteAt(ram: Ram, a: int): byte { if a in ram then ram[a] else 0 }

  predicate InRange(addr: int, size: nat, a: int) { addr <= a < addr + size }

  /** memcpy_out and memcpy. */
  function CopyOut(ram: Ram, addr: int, size: nat): (r: seq<byte>)
    ensures |r| == size
  {
    seq<byte>(size, i requires 0 <= i => ByteAt(ram, addr + i))
  }

  function CopyIn(ram: Ram, addr: int, data: seq<byte>): Ram {
    ram + (map a: int | addr <= a < addr + |data| && InRange(addr, |data|, a) :: data[a - addr])
  }

  lemma {:induction false} CopiedByte(ram: Ram, addr: int, data: seq<byte>, a: int)
    ensures ByteAt(CopyIn(ram, addr, data), a) == if InRange(addr, |data|, a) then data[a - addr] else ByteAt(ram, a)
  {
  }

  lemma {:induction false} CopyInOut(ram: Ram, addr: int, data: seq<byte>)
    ensures CopyOut(CopyIn(ram, addr, data), addr, |data|) == data
  {
    forall i | 0 <= i < |data| ensures CopyOut(CopyIn(ram, addr, data), addr, |data|)[i] == data[i] {
      CopiedByte(ram, addr, data, addr + i);
    }
  }

  /** The same copy in 64-bit addresses, which wrap around. */
  function CopyIn64(ram: Ram, addr: u64, data: seq<byte>): Ram
    decreases |data|
  {
    if data == [] then ram else CopyIn64(ram[addr := data[0]], Wrap64(addr + 1), data[1..])
  }

  lemma {:induction false} CopyFirst(ram: Ram, addr: int, data: seq<byte>)
    requires data != []
    ensures CopyIn(ram[addr := data[0]], addr + 1, data[1..]) == CopyIn(ram, addr, data)
  {
  }

  /** A range that does not wrap is copied as it stands. */
  lemma {:induction false} CopyUnwrapped(ram: Ram, addr: u64, data: seq<byte>)
    requires addr + |data| <= TWO64
    ensures CopyIn64(ram, addr, data) == CopyIn(ram, addr, data)
    decreases |data|
  {
    if data == [] {
      assert CopyIn(ram, addr, data) == ram;
    } else if |data| > 1 {
      CopyUnwrapped(ram[addr := data[0]], addr + 1, data[1..]);
      CopyFirst(ram, addr, data);
    } else {
      CopyLast(ram, addr, data);
    }
  }

  lemma {:induction false} CopyLast(ram: Ram, addr: u64, data: seq<byte>)
    requires |data| == 1
    ensures CopyIn64(ram, addr, data) == CopyIn(ram, addr, data)
  {
    assert data[1..] == [];
    CopyFirst(ram, addr, data);
    assert CopyIn(ram[addr := data[0]], addr + 1, []) == ram[addr := data[0]];
  }

  lemma {:induction false} CopyMore64(ram: Ram, addr: u64, a: seq<byte>, b: seq<byte>)
    ensures CopyIn64(CopyIn64(ram, addr, a), Wrap64(addr + |a|), b) == CopyIn64(ram, addr, a + b)
    decreases |a|
  {
    if a == [] {
      assert a + b == b;
    } else {
      CopyMore64(ram[addr := a[0]], Wrap64(addr + 1), a[1..], b);
      assert (a + b)[1..] == a[1..] + b;
      assert Wrap64(Wrap64(addr + 1) + |a[1..]|) == Wrap64(addr + |a|);
    }
  }

  // ---- little-endian numbers ----

  /** n bytes of v, low byte first. */
  function Little(n: nat, v: nat): (r: seq<byte>)
    ensures |r| == n
  {
    if n == 0 then [] else [v % 256] + Little(n - 1, v / 256)
  }

  function FromLittle(s: seq<byte>): nat { if s == [] then 0 else s[0] + 256 * FromLittle(s[1..]) }

  function Pow256(n: nat): nat { if n == 0 then 1 else 256 * Pow256(n - 1) }

  lemma {:induction false} LittleRoundTrip(n: nat, v: nat)
    ensures FromLittle(Little(n, v)) == v <==> v < Pow256(n)
    ensures FromLittle(Little(n, v)) < Pow256(n)
  {
    if n > 0 { LittleRoundTrip(n - 1, v / 256); }
  }

  /** The 64-bit word at an address. */
  function Word(ram: Ram, a: int): nat { FromLittle(CopyOut(ram, a, 8)) }
}
