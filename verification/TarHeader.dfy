/** 512-byte tar header blocks. */
module TarHeader {
  import opened Words
  import opened Octal

  function Zeros(n: nat): (r: Str)
    ensures |r| == n
  {
    seq(n, _ => 0)
  }

  function Pad(s: Str, n: nat): (r: Str)
    requires |s| <= n
    ensures |r| == n
  {
    s + Zeros(n - |s|)
  }

  /** The fields that vary; `tail` is everything from the magic on. */
  datatype Header = Header(
    name: Str, mode: nat, uid: nat, gid: nat, size: nat, mtime: nat, flag: byte, link: Str, tail: Str)

  predicate Fits(h: Header) { |h.name| <= 100 && |h.link| <= 100 && |h.tail| <= 255 }

  /** The fields in order, with the given checksum field. */
  function Fields(h: Header, ck: Str): (fs: seq<Str>)
    requires Fits(h) && |ck| == 8
  {
    [Pad(h.name, 100), Field(8, h.mode), Field(8, h.uid), Field(8, h.gid), Field(12, h.size), Field(12, h.mtime),
     ck, [h.flag], Pad(h.link, 100), Pad(h.tail, 255)]
  }

  function Cat(fs: seq<Str>): Str { if fs == [] then [] else Cat(fs[..|fs| - 1]) + fs[|fs| - 1] }

  lemma {:induction false} CatNext(fs: seq<Str>, k: nat)
    requires k < |fs|
    ensures Cat(fs[..k + 1]) == Cat(fs[..k]) + fs[k]
  {
    assert fs[..k + 1][..k] == fs[..k];
  }

  lemma {:induction false} CatSplit(fs: seq<Str>, k: nat)
    requires k < |fs|
    ensures Cat(fs) == Cat(fs[..k]) + fs[k] + Cat(fs[k + 1..])
    decreases |fs|
  {
    var n := |fs| - 1;
    if k == n {
      assert fs[n + 1..] == [];
    } else {
      var front := fs[..n];
      CatSplit(front, k);
      assert front[..k] == fs[..k] && front[k + 1..] == fs[k + 1..n];
      assert fs[k + 1..][..n - k - 1] == fs[k + 1..n];
    }
  }

  /** Where the fields start. */
  predicate Offsets(fs: seq<Str>) {
    && |fs| == 10 && |Cat(fs[..1])| == 100 && |Cat(fs[..2])| == 108 && |Cat(fs[..3])| == 116 && |Cat(fs[..4])| == 124
    && |Cat(fs[..5])| == 136 && |Cat(fs[..6])| == 148 && |Cat(fs[..7])| == 156 && |Cat(fs[..8])| == 157
    && |Cat(fs[..9])| == 257 && |Cat(fs)| == 512
  }

  lemma {:induction false} FieldOffsets(h: Header, ck: Str)
    requires Fits(h) && |ck| == 8
    ensures Offsets(Fields(h, ck))
  {
    var fs := Fields(h, ck);
    CatNext(fs, 0); CatNext(fs, 1); CatNext(fs, 2); CatNext(fs, 3); CatNext(fs, 4);
    CatNext(fs, 5); CatNext(fs, 6); CatNext(fs, 7); CatNext(fs, 8); CatNext(fs, 9);
    assert fs[..10] == fs && fs[..0] == [];
  }

  /** Reading a field back by its position. */
  lemma {:induction false} FieldAt(fs: seq<Str>, k: nat, lo: nat)
    requires k < |fs| && lo == |Cat(fs[..k])|
    ensures lo + |fs[k]| <= |Cat(fs)| && Cat(fs)[lo..lo + |fs[k]|] == fs[k]
  {
    CatSplit(fs, k);
  }

  // ---- checksum ----

  /** The sum of the bytes from i on, the checksum field counted as spaces. */
  function SumFrom(s: Str, i: nat): nat
    requires i <= |s|
    decreases |s| - i
  {
    if i == |s| then 0 else (if 148 <= i < 156 then 32 else s[i]) + SumFrom(s, i + 1)
  }

  method ComputeChecksum(a: array<byte>) returns (sum: nat)
    requires a.Length == 512
    ensures sum == SumFrom(a[..], 0)
  {
    sum := 0;
    for i := 0 to 512
      invariant sum + SumFrom(a[..], i) == SumFrom(a[..], 0)
    {
      sum := sum + if 148 <= i < 156 then 32 else a[i];
    }
  }

  lemma {:induction false} SumBound(s: Str, i: nat)
    requires i <= |s|
    ensures SumFrom(s, i) <= 255 * (|s| - i)
    decreases |s| - i
  {
    if i < |s| { SumBound(s, i + 1); }
  }

  lemma {:induction false} SumAgrees(s: Str, t: Str, i: nat)
    requires i <= |s| == |t| && forall k | 0 <= k < |s| && !(148 <= k < 156) :: s[k] == t[k]
    ensures SumFrom(s, i) == SumFrom(t, i)
    decreases |s| - i
  {
    if i < |s| { SumAgrees(s, t, i + 1); }
  }

  function ChecksumField(v: nat): (r: Str)
    ensures |r| == 8
  {
    Field(7, v) + [32]
  }

  /** The finished block. */
  function Render(h: Header): (r: Str)
    requires Fits(h)
  {
    Cat(Fields(h, ChecksumField(SumFrom(Cat(Fields(h, Zeros(8))), 0))))
  }

  lemma {:induction false} OnlyChecksum(h: Header, c1: Str, c2: Str)
    requires Fits(h) && |c1| == 8 && |c2| == 8
    ensures Offsets(Fields(h, c1)) && Cat(Fields(h, c2)) == Overwrite(Cat(Fields(h, c1)), 148, c2)
  {
    var f1, f2 := Fields(h, c1), Fields(h, c2);
    FieldOffsets(h, c1);
    CatSplit(f1, 6);
    CatSplit(f2, 6);
    assert f1[..6] == f2[..6] && f1[7..] == f2[7..];
  }

  /** The stored checksum is the checksum of the finished block. */
  lemma {:induction false} ChecksumStored(h: Header)
    requires Fits(h)
    ensures |Render(h)| == 512 && Parse(0, Render(h)[148..155]) == SumFrom(Render(h), 0)
    ensures Render(h)[148..156] == ChecksumField(SumFrom(Render(h), 0))
  {
    var blank := Cat(Fields(h, Zeros(8)));
    var sum := SumFrom(blank, 0);
    var fs := Fields(h, ChecksumField(sum));
    FieldOffsets(h, ChecksumField(sum));
    FieldAt(fs, 6, 148);
    OnlyChecksum(h, Zeros(8), ChecksumField(sum));
    SumAgrees(blank, Render(h), 0);
    SumBound(blank, 0);
    assert Render(h)[148..155] == Render(h)[148..156][..7] == Field(7, sum);
    FieldRoundTrip(7, sum);
    assert Pow8(3) == 512 && Pow8(6) == 262144;
  }

  // ---- building in place ----

  /** memcpy into a buffer. */
  method Copy(a: array<byte>, off: nat, src: Str)
    requires off + |src| <= a.Length
    modifies a
    ensures a[..] == Overwrite(old(a[..]), off, src)
  {
    ghost var was := a[..];
    for i := 0 to |src|
      invariant a[..off + i] == was[..off] + src[..i] && a[off + i..] == was[off + i..]
    {
      a[off + i] := src[i];
      assert a[..off + i + 1] == a[..off + i] + [src[i]];
      assert src[..i + 1] == src[..i] + [src[i]];
      assert a[off + i + 1..] == was[off + i + 1..];
    }
    assert a[..] == a[..off + |src|] + a[off + |src|..];
    assert src[..|src|] == src;
  }

  /** Fields up to k are in place and the rest is zero. */
  ghost predicate Placed(s: Str, fs: seq<Str>, k: nat) {
    k <= |fs| && |Cat(fs[..k])| <= 512 && s == Cat(fs[..k]) + Zeros(512 - |Cat(fs[..k])|)
  }

  lemma {:induction false} PlaceNext(s: Str, fs: seq<Str>, k: nat, b: Str)
    requires k < |fs| && Placed(s, fs, k) && |Cat(fs[..k])| + |fs[k]| <= 512
    requires |b| <= |fs[k]| && fs[k] == Pad(b, |fs[k]|)
    ensures Placed(Overwrite(s, |Cat(fs[..k])|, b), fs, k + 1)
  {
    CatNext(fs, k);
    var p := Cat(fs[..k]);
    assert Overwrite(p + Zeros(512 - |p|), |p|, b) == p + b + Zeros(512 - |p| - |b|);
    assert b + Zeros(512 - |p| - |b|) == Pad(b, |fs[k]|) + Zeros(512 - |p| - |fs[k]|);
  }

  lemma {:induction false} PadExact(b: Str)
    ensures Pad(b, |b|) == b
  {
  }

  /** The octal fields of a header. */
  method WriteNumbers(a: array<byte>, h: Header)
    requires a.Length == 512 && Fits(h) && Placed(a[..], Fields(h, Zeros(8)), 1)
    modifies a
    ensures Placed(a[..], Fields(h, Zeros(8)), 6)
  {
    WriteOwner(a, h);
    ghost var fs := Fields(h, Zeros(8));
    FieldOffsets(h, Zeros(8));
    PadExact(fs[4]); PadExact(fs[5]);
    PlaceNext(a[..], fs, 4, fs[4]);
    WriteOctal(a, 124, 12, h.size);
    PlaceNext(a[..], fs, 5, fs[5]);
    WriteOctal(a, 136, 12, h.mtime);
  }

  method WriteOwner(a: array<byte>, h: Header)
    requires a.Length == 512 && Fits(h) && Placed(a[..], Fields(h, Zeros(8)), 1)
    modifies a
    ensures Placed(a[..], Fields(h, Zeros(8)), 4)
  {
    ghost var fs := Fields(h, Zeros(8));
    FieldOffsets(h, Zeros(8));
    PadExact(fs[1]); PadExact(fs[2]); PadExact(fs[3]);
    PlaceNext(a[..], fs, 1, fs[1]);
    WriteOctal(a, 100, 8, h.mode);
    PlaceNext(a[..], fs, 2, fs[2]);
    WriteOctal(a, 108, 8, h.uid);
    PlaceNext(a[..], fs, 3, fs[3]);
    WriteOctal(a, 116, 8, h.gid);
  }

  /** Everything but the checksum. */
  method FillHeader(a: array<byte>, h: Header)
    requires a.Length == 512 && Fits(h) && a[..] == Zeros(512)
    modifies a
    ensures a[..] == Cat(Fields(h, Zeros(8)))
  {
    ghost var fs := Fields(h, Zeros(8));
    FieldOffsets(h, Zeros(8));
    assert fs[..0] == [] && Placed(a[..], fs, 0);
    PlaceNext(a[..], fs, 0, h.name);
    Copy(a, 0, h.name);
    WriteNumbers(a, h);
    PlaceNext(a[..], fs, 6, []);
    assert Overwrite(a[..], 148, []) == a[..];
    PadExact(fs[7]);
    PlaceNext(a[..], fs, 7, fs[7]);
    Copy(a, 156, [h.flag]);
    PlaceNext(a[..], fs, 8, h.link);
    Copy(a, 157, h.link);
    PlaceNext(a[..], fs, 9, h.tail);
    Copy(a, 257, h.tail);
    assert fs[..10] == fs;
  }

  /** A header block: fields, then the checksum over them. */
  method BuildHeader(h: Header) returns (a: array<byte>)
    requires Fits(h)
    ensures fresh(a) && a[..] == Render(h)
  {
    a := new byte[512](_ => 0);
    assert a[..] == Zeros(512);
    FillHeader(a, h);
    var sum := ComputeChecksum(a);
    OnlyChecksum(h, Zeros(8), ChecksumField(sum));
    ghost var blank := a[..];
    WriteOctal(a, 148, 7, sum);
    Copy(a, 155, [32]);
    assert Overwrite(Overwrite(blank, 148, Field(7, sum)), 155, [32]) == Overwrite(blank, 148, ChecksumField(sum));
  }
}
