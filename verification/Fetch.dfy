/** The bits the sweep decodes, against the guest's memory. */
module Fetch {
  import opened Words
  import opened Memory
  import opened Cfg

  /** The decoded bits are the halfword or word that a load from the address would read. */
  lemma {:induction false} FetchedBits(data: seq<byte>, p: nat, mem: Mem, a: int, n: nat)
    requires (n == 2 || n == 4) && p + n <= |data| && Mapped(mem, a, n)
    requires forall k | p <= k < p + n :: mem[a - p + k] == data[k]
    ensures n == 2 ==> ShortAt(data, p) == Load(mem, a, n)
    ensures n == 4 ==> LongAt(data, p) == Load(mem, a, n)
  {
    assert mem[a] == data[p] && mem[a + 1] == data[p + 1];
    assert Load(mem, a, n) == data[p] + 256 * (data[p + 1] + 256 * Load(mem, a + 2, n - 2));
    if n == 4 {
      assert mem[a + 2] == data[p + 2] && mem[a + 3] == data[p + 3];
      assert Load(mem, a + 2, n - 2) == data[p + 2] + 256 * (data[p + 3] + 256 * Load(mem, a + 4, n - 4));
    }
  }
}
