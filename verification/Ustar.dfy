/** The bytes of the archive's headers, and what bytes load_tar reads them as. */
module Ustar {
  import opened Words
  import opened Paths
  import opened Tree
  import opened Octal
  import opened TarHeader
  import opened Tar
  import opened TarProof

  // ---- octal digits ----

  /** Digit k from the right, as a character. */
  function DigitChar(v: nat, k: nat): int { 48 + v / Pow8(k) % 8 }

  lemma {:induction false} DivPow(v: nat, k: nat)
    ensures v / 8 / Pow8(k) == v / Pow8(k + 1)
  {
    DivTwice(v, Pow8(k));
  }

  lemma {:induction false} DivTwice(v: nat, p: nat)
    requires p > 0
    ensures v / 8 / p == v / (8 * p)
  {
    var q, r := v / 8 / p, v / 8 % p;
    assert v / 8 == p * q + r;
    assert 8 * (p * q) == 8 * p * q;
    DivModUnique(v, 8 * p, q, 8 * r + v % 8);
  }

  /** An octal number is its digits from the highest to the lowest. */
  lemma {:induction false} DigitsAre(n: nat, v: nat, k: nat)
    requires k < n
    ensures Digits(n, v)[k] == DigitChar(v, n - 1 - k)
    decreases n
  {
    if k < n - 1 {
      DigitsAre(n - 1, v / 8, k);
      DivPow(v, n - 2 - k);
    }
  }

  /** A field of n digits and a NUL. */
  ghost predicate OctalAt(r: Str, at: nat, n: nat, v: nat) {
    && at + n < |r| && r[at + n] == 0
    && forall k | at <= k < at + n :: r[k] == DigitChar(v, at + n - 1 - k)
  }

  lemma {:induction false} FieldIsOctal(r: Str, at: nat, n: nat, v: nat)
    requires at + n + 1 <= |r| && r[at..at + n + 1] == Field(n + 1, v)
    ensures OctalAt(r, at, n, v)
  {
    var f := r[at..at + n + 1];
    forall k | at <= k < at + n ensures r[k] == DigitChar(v, at + n - 1 - k) {
      DigitsAre(n, v, k - at);
      assert f[k - at] == r[k] == Digits(n, v)[k - at];
    }
    assert f[n] == r[at + n];
  }

  // ---- what is written ----

  /** A string at a place of a given length, padded with NULs. */
  ghost predicate TextAt(r: Str, at: nat, n: nat, s: Str) {
    && |s| <= n && at + n <= |r|
    && forall k | at <= k < at + n :: r[k] == if k - at < |s| then s[k - at] else 0
  }

  lemma {:induction false} PadIsText(r: Str, at: nat, n: nat, s: Str)
    requires |s| <= n && at + n <= |r| && r[at..at + n] == Pad(s, n)
    ensures TextAt(r, at, n, s)
  {
    forall k | at <= k < at + n ensures r[k] == if k - at < |s| then s[k - at] else 0 {
      assert r[k] == r[at..at + n][k - at];
    }
  }

  /** The type flag of an entry. */
  function TypeFlag(kind: FileType): char {
    match kind
    case Directory => '5' case Symlink => '2' case CharDev => '3' case BlockDev => '4' case Fifo => '6'
    case Regular | Socket => '0'
  }

  /** The octal fields. */
  ghost predicate HasNumbers(r: Str, mode: nat, uid: nat, gid: nat, size: nat, mtime: nat) {
    && OctalAt(r, 100, 7, mode) && OctalAt(r, 108, 7, uid) && OctalAt(r, 116, 7, gid)
    && OctalAt(r, 124, 11, size) && OctalAt(r, 136, 11, mtime)
  }

  /** "ustar", NUL, version 00, and root as owner and group. */
  ghost predicate HasMagic(r: Str) {
    && TextAt(r, 257, 8, [0x75, 0x73, 0x74, 0x61, 0x72, 0, 0x30, 0x30])
    && TextAt(r, 265, 32, [0x72, 0x6F, 0x6F, 0x74]) && TextAt(r, 297, 215, [0x72, 0x6F, 0x6F, 0x74])
  }

  /** A header block as the ustar format has it. */
  ghost predicate IsUstar(r: Str, name: Str, e: Entry) {
    && |r| == 512 && TextAt(r, 0, 100, Take(name, 100)) && r[156] == TypeFlag(e.kind) as int
    && HasNumbers(r, e.mode, e.uid, e.gid, if e.kind.Regular? then |e.content| else 0, e.mtime)
    && TextAt(r, 157, 100, if e.kind.Symlink? then Take(e.link, 100) else []) && HasMagic(r)
  }

  lemma {:induction false} NumbersWritten(r: Str, h: Header)
    requires |r| == 512 && Reads(r, h)
    ensures HasNumbers(r, h.mode, h.uid, h.gid, h.size, h.mtime)
  {
    var seven, eleven := 7, 11;
    FieldIsOctal(r, 100, seven, h.mode);
    FieldIsOctal(r, 108, seven, h.uid);
    FieldIsOctal(r, 116, seven, h.gid);
    FieldIsOctal(r, 124, eleven, h.size);
    FieldIsOctal(r, 136, eleven, h.mtime);
  }

  lemma {:induction false} TailWritten(r: Str, h: Header)
    requires |r| == 512 && Reads(r, h) && h.tail == USTAR + [0, 48, 48] + Pad(ROOT, 32) + ROOT
    ensures HasMagic(r)
  {
    PadIsText(r, 257, 255, h.tail);
    assert h.tail[..8] == [0x75, 0x73, 0x74, 0x61, 0x72, 0, 0x30, 0x30];
    forall k | 257 <= k < 265 ensures r[k] == [0x75, 0x73, 0x74, 0x61, 0x72, 0, 0x30, 0x30][k - 257] {
      assert r[k] == h.tail[k - 257] == h.tail[..8][k - 257];
    }
    forall k | 265 <= k < 297 ensures r[k] == Pad(ROOT, 32)[k - 265] {
      assert r[k] == h.tail[k - 257];
    }
    forall k | 297 <= k < 512 ensures r[k] == if k < 301 then ROOT[k - 297] else 0 {
      assert k < 301 ==> r[k] == h.tail[k - 257];
    }
  }

  lemma {:induction false} Rendered(h: Header)
    requires Fits(h)
    ensures |Render(h)| == 512 && Reads(Render(h), h)
  {
    RenderReads(h, []);
    assert Render(h) + [] == Render(h);
  }

  lemma {:induction false} EntryWritten(r: Str, h: Header, tar: Str, e: Entry)
    requires |r| == 512 && Reads(r, h) && h == FileHeader(tar, e)
    ensures IsUstar(r, tar, e)
  {
    assert HasNumbers(r, h.mode, h.uid, h.gid, h.size, h.mtime) by { NumbersWritten(r, h); }
    assert HasMagic(r) by { TailWritten(r, h); }
    assert TextAt(r, 0, 100, h.name) by { PadIsText(r, 0, 100, h.name); }
    assert TextAt(r, 157, 100, h.link) by { PadIsText(r, 157, 100, h.link); }
  }

  /** The header save_tar writes for an entry, byte by byte. */
  lemma {:induction false} HeaderWritten(tar: Str, e: Entry)
    ensures IsUstar(Render(FileHeader(tar, e)), tar, e)
  {
    Rendered(FileHeader(tar, e));
    EntryWritten(Render(FileHeader(tar, e)), FileHeader(tar, e), tar, e);
  }

  // ---- the checksum ----

  /** The sum of bytes. */
  function Total(s: Str): nat { if s == [] then 0 else Total(s[..|s| - 1]) + s[|s| - 1] }

  lemma {:induction false} SumBytes(s: Str, i: nat, j: nat)
    requires i <= j <= |s| && (j <= 148 || 156 <= i)
    ensures SumFrom(s, i) == Total(s[i..j]) + SumFrom(s, j)
    decreases j - i
  {
    if i < j {
      SumBytes(s, i, j - 1);
      assert s[i..j][..j - i - 1] == s[i..j - 1];
    }
  }

  lemma {:induction false} SumSpaces(s: Str, i: nat, j: nat)
    requires 148 <= i <= j <= 156 <= |s|
    ensures SumFrom(s, i) == 32 * (j - i) + SumFrom(s, j)
    decreases j - i
  {
    if i < j { SumSpaces(s, i, j - 1); }
  }

  /** Every header carries, as six octal digits, a NUL and a space, the sum of its bytes with the
      eight of this field counted as spaces. */
  lemma {:induction false} ChecksumWritten(h: Header, six: nat)
    requires Fits(h) && six == 6
    ensures var r := Render(h);
            |r| == 512 && OctalAt(r, 148, six, Total(r[..148]) + 256 + Total(r[156..])) && r[155] == 32
  {
    var r := Render(h);
    ChecksumStored(h);
    SumBytes(r, 0, 148);
    SumSpaces(r, 148, 156);
    SumBytes(r, 156, 512);
    assert r[0..148] == r[..148] && r[156..512] == r[156..];
    var sum := SumFrom(r, 0);
    assert r[148..155] == r[148..156][..7] == Field(six + 1, sum);
    assert r[155] == r[148..156][7];
    FieldIsOctal(r, 148, six, sum);
  }

  /** The header of a long name: "././@LongLink", the length with its NUL, and type 'L'. */
  ghost predicate IsLongLink(r: Str, size: nat) {
    && |r| == 512 && HasNumbers(r, 0, 0, 0, size, 0) && r[156] == 'L' as int
    && TextAt(r, 0, 100, [0x2E, 0x2F, 0x2E, 0x2F, 0x40, 0x4C, 0x6F, 0x6E, 0x67, 0x4C, 0x69, 0x6E, 0x6B])
    && TextAt(r, 257, 255, [0x75, 0x73, 0x74, 0x61, 0x72, 0x20, 0x20])
  }

  lemma {:induction false} LongWritten(r: Str, h: Header, size: nat)
    requires |r| == 512 && Reads(r, h) && h == LongHeader(size)
    ensures IsLongLink(r, size)
  {
    assert HasNumbers(r, 0, 0, 0, size, 0) by { NumbersWritten(r, h); }
    assert TextAt(r, 0, 100, LONG_LINK) by { PadIsText(r, 0, 100, h.name); }
    assert TextAt(r, 257, 255, USTAR + [32, 32]) by { PadIsText(r, 257, 255, h.tail); }
    assert USTAR + [32, 32] == [0x75, 0x73, 0x74, 0x61, 0x72, 0x20, 0x20];
  }

  lemma {:induction false} LongHeaderWritten(size: nat)
    ensures IsLongLink(Render(LongHeader(size)), size)
  {
    Rendered(LongHeader(size));
    LongWritten(Render(LongHeader(size)), LongHeader(size), size);
  }

  // ---- a record ----

  /** Whole blocks for n bytes. */
  function Whole(n: nat): nat { (n + 511) / 512 * 512 }

  lemma {:induction false} WholeFits(n: nat)
    ensures n <= Whole(n) < n + 512 && Whole(n) == RoundUp(n)
  {
  }

  /** A long name, in its own header and blocks, ended by a NUL. */
  lemma {:induction false} LongPart(name: Str, r: Str)
    requires |name| > 100 && r == LongName(name)
    ensures |r| == 512 + Whole(|name| + 1) && IsLongLink(r[..512], |name| + 1)
    ensures TextAt(r, 512, Whole(|name| + 1), name + [0])
  {
    LongHeaderWritten(|name| + 1);
    WholeFits(|name| + 1);
    var header, text := Render(LongHeader(|name| + 1)), Blocked(name + [0]);
    assert r == header + text && r[..512] == header && r[512..512 + Whole(|name| + 1)] == text;
    PadIsText(r, 512, Whole(|name| + 1), name + [0]);
  }

  lemma {:induction false} ContentPart(e: Entry, r: Str, at: nat)
    requires e.kind.Regular? && at + Whole(|e.content|) == |r| && r[at..] == ContentOf(e)
    ensures TextAt(r, at, Whole(|e.content|), e.content)
  {
    WholeFits(|e.content|);
    assert r[at..at + Whole(|e.content|)] == r[at..];
    PadIsText(r, at, Whole(|e.content|), e.content);
  }

  /** The record of an entry: for a name over 100 bytes the LongLink part, then the header, then
      the content of a regular file, in whole blocks. The name of a directory ends in a slash. */
  lemma {:induction false} RecordLaid(path: Str, e: Entry, name: Str, long: nat, r: Str)
    requires path != [] && path[|path| - 1] != 47 && name == (if e.kind.Directory? then path + [47] else path)
    requires long == (if |name| > 100 then 512 + Whole(|name| + 1) else 0) && r == Record(path, e)
    ensures |r| == long + 512 + if e.kind.Regular? then Whole(|e.content|) else 0
    ensures |name| > 100 ==> IsLongLink(r[..512], |name| + 1) && TextAt(r, 512, long - 512, name + [0])
    ensures IsUstar(r[long..long + 512], name, e)
    ensures e.kind.Regular? ==> TextAt(r, long + 512, Whole(|e.content|), e.content)
  {
    assert TarPath(path, e) == name;
    var first, header := LongName(name), Render(FileHeader(name, e));
    assert |first| == long by { if |name| > 100 { LongPart(name, first); } }
    HeaderWritten(name, e);
    WholeFits(|e.content|);
    assert r == first + header + ContentOf(e);
    assert r[long..long + 512] == header && r[long + 512..] == ContentOf(e);
    if |name| > 100 { LongFirst(name, first, r); }
    if e.kind.Regular? { ContentPart(e, r, long + 512); }
  }

  lemma {:induction false} LongFirst(name: Str, first: Str, r: Str)
    requires |name| > 100 && first == LongName(name) && first <= r
    ensures |first| == 512 + Whole(|name| + 1) && IsLongLink(r[..512], |name| + 1)
    ensures TextAt(r, 512, Whole(|name| + 1), name + [0])
  {
    LongPart(name, first);
    assert r[..512] == first[..512];
    forall k | 512 <= k < |first| ensures r[k] == first[k] { assert r[..|first|][k] == first[k]; }
  }

  // ---- what is read ----

  /** The type load_tar gives an entry, by the flag in byte 156. */
  lemma {:induction false} KindRead(d: Str, name: Str, skip: nat)
    requires |d| >= 512 && ParseHeader(d, name, skip).Found?
    ensures ParseHeader(d, name, skip).entry.kind
            == if d[156] == '5' as int then Directory else if d[156] == '2' as int then Symlink
               else if d[156] == '3' as int then CharDev else if d[156] == '4' as int then BlockDev
               else if d[156] == '6' as int then Fifo else Regular
  {
  }

  /** A ustar header with a name prefix is read under prefix, slash and name. */
  lemma {:induction false} PrefixRead(d: Str, name: Str)
    requires |d| >= 512 && d[257..262] == [0x75, 0x73, 0x74, 0x61, 0x72]
    ensures WithPrefix(d, name) == if d[345] == 0 then name else Trim(d[345..500]) + [0x2F] + name
  {
    assert d[345..500][0] == d[345];
  }

  /** A block that starts with "././@LongLink" names the entry in the block after its data. */
  lemma {:induction false} LongLinkRead(d: Str, len: nat, skip: nat)
    requires |d| >= 512 && d[..14] == [0x2E, 0x2F, 0x2E, 0x2F, 0x40, 0x4C, 0x6F, 0x6E, 0x67, 0x4C, 0x69, 0x6E, 0x6B, 0]
    requires len == Parse(0, d[124..136]) && skip == 512 + (len + 511) / 512 * 512 && skip + 512 <= |d|
    ensures ParseRecord(d) == ParseHeader(d[skip..], Trim(d[512..512 + len]), skip)
  {
    var t := d[..100];
    assert t[..13] == d[..14][..13] == LONG_LINK && t[13] == d[..14][13];
    FindNul(LONG_LINK, t);
    assert d[..512][0] == d[..14][0];
    LongParse(d, len, Trim(d[512..512 + len]), skip);
  }

  /** An ordinary archive: the directory etc/ is loaded as a directory. */
  lemma {:induction false} DirectoryLoads(d: Str, name: Str, skip: nat)
    requires |d| >= 512 && d[156] == '5' as int && name == [0x65, 0x74, 0x63, 0x2F] && d[257] == 0
    ensures ParseHeader(d, name, skip).Found? && ParseHeader(d, name, skip).name == name
            && ParseHeader(d, name, skip).entry.kind == Directory
  {
    assert d[257..262][0] == d[257];
    assert name[..2] == [0x65, 0x74];
  }
}
