/** Little-endian access to a byte memory. A linear memory of n bytes is the map
    whose keys are 0..n-1; nothing here needs the keys to be contiguous. */
module Memory {
  import opened Words

  type Mem = map<int, byte>

  ghost predicate Mapped(mem: Mem, a: int, n: nat) {
    forall k :: a <= k < a + n ==> k in mem
  }

  ghost function Load(mem: Mem, a: int, n: nat): (v: nat)
    requires Mapped(mem, a, n)
    ensures v < Pow2(8 * n)
    decreases n, mem
  {
    if n == 0 then 0 else
      Pow2Step(n);
      mem[a] + 256 * Load(mem, a + 1, n - 1)
  }

  ghost function Store(mem: Mem, a: int, n: nat, v: nat): (r: Mem)
    requires Mapped(mem, a, n)
    ensures r.Keys == mem.Keys
    ensures forall k :: k in mem && !(a <= k < a + n) ==> r[k] == mem[k]
    decreases n, mem
  {
    if n == 0 then mem else Store(mem[a := v % 256], a + 1, n - 1, v / 256)
  }

  lemma {:induction false} Pow2Step(n: nat)
    requires n > 0
    ensures Pow2(8 * n) == 256 * Pow2(8 * (n - 1))
  {
    EightDoublings(8 * (n - 1), 8 * n);
  }

  lemma {:induction false} EightDoublings(k: nat, l: nat)
    requires l == k + 8
    ensures Pow2(l) == 256 * Pow2(k)
  {
    var v := Pow2(k);
    assert Pow2(k + 2) == 4 * v;
    assert Pow2(k + 4) == 16 * v;
    assert Pow2(k + 6) == 64 * v;
  }

  /** A load sees only the bytes of its range. */
  lemma {:induction false} LoadSame(m1: Mem, m2: Mem, a: int, n: nat)
    requires Mapped(m1, a, n) && Mapped(m2, a, n)
    requires forall k :: a <= k < a + n ==> m1[k] == m2[k]
    ensures Load(m1, a, n) == Load(m2, a, n)
    decreases n
  {
    if n > 0 { LoadSame(m1, m2, a + 1, n - 1); }
  }

  /** Storing n bytes and loading them back gives the value modulo 2^(8n). */
  lemma {:induction false} LoadStore(mem: Mem, a: int, n: nat, v: nat)
    requires Mapped(mem, a, n)
    ensures Load(Store(mem, a, n, v), a, n) == v % Pow2(8 * n)
    decreases n
  {
    if n == 0 {
      assert Pow2(0) == 1;
    } else {
      var m1 := mem[a := v % 256];
      LoadStore(m1, a + 1, n - 1, v / 256);
      Pow2Step(n);
      ByteMod(v, Pow2(8 * (n - 1)));
    }
  }

  lemma {:induction false} LoadStoreFits(mem: Mem, a: int, n: nat, v: nat)
    requires Mapped(mem, a, n) && v < Pow2(8 * n)
    ensures Load(Store(mem, a, n, v), a, n) == v
  {
    LoadStore(mem, a, n, v);
    DivModUnique(v, Pow2(8 * n), 0, v);
  }

  lemma {:induction false} Pow2At(n: nat)
    requires n == 64
    ensures Pow2(n) == TWO64
  {
    Pow2Values();
  }

  lemma {:induction false} LoadStore64(mem: Mem, a: int, v: u64)
    requires Mapped(mem, a, 8)
    ensures Load(Store(mem, a, 8, v), a, 8) == v
  {
    var n := 8;
    Pow2At(8 * n);
    LoadStoreFits(mem, a, n, v);
  }

  lemma {:induction false} ByteMod(v: nat, p: nat)
    requires p >= 1
    ensures v % (256 * p) == v % 256 + 256 * ((v / 256) % p)
  {
    var q, r := (v / 256) / p, (v / 256) % p;
    assert v / 256 == p * q + r;
    assert 256 * (p * q) == (256 * p) * q;
    DivModUnique(v, 256 * p, q, v % 256 + 256 * r);
  }

  /** Two memories that agree off [a, a+n) agree everywhere once the same value
      is stored there. */
  lemma {:induction false} StoreAgrees(m1: Mem, m2: Mem, a: int, n: nat, v: nat)
    requires Mapped(m1, a, n) && Mapped(m2, a, n)
    ensures forall k :: a <= k < a + n ==> Store(m1, a, n, v)[k] == Store(m2, a, n, v)[k]
    decreases n
  {
    if n > 0 { StoreAgrees(m1[a := v % 256], m2[a := v % 256], a + 1, n - 1, v / 256); }
  }
}
