/** Reading back one record of a saved archive. */
module TarProof {
  import opened Words
  import opened Tree
  import opened Octal
  import opened TarHeader
  import opened Tar

  /** What the archive can hold of one entry. */
  predicate LeafFits(e: Entry) {
    && !e.kind.Socket?
    && e.mode < Pow8(7) && e.uid < Pow8(7) && e.gid < Pow8(7) && e.mtime < Pow8(11)
    && (e.kind.Regular? ==> e.size == |e.content| < Pow8(11))
    && (!e.kind.Regular? ==> e.content == [] && e.size == 0)
    && (e.kind.Symlink? ==> |e.link| <= 100 && 0 !in e.link)
    && (!e.kind.Symlink? ==> e.link == [])
  }

  // ---- reading a rendered header ----

  lemma {:induction false} TrimPad(s: Str, n: nat)
    requires 0 !in s && |s| <= n
    ensures Trim(Pad(s, n)) == s
  {
    FindNul(s, Pad(s, n));
  }

  lemma {:induction false} FindNul(s: Str, t: Str)
    requires 0 !in s && |s| <= |t| && t[..|s|] == s && (|s| < |t| ==> t[|s|] == 0)
    ensures Trim(t) == s
  {
    assert forall k | 0 <= k < |s| :: t[..|s|][k] == t[k] && s[k] in s;
  }

  /** The slices load_tar reads. */
  ghost predicate Reads(d: Str, h: Header) {
    && Fits(h) && |d| >= 512
    && d[..100] == Pad(h.name, 100) && d[100..108] == Field(8, h.mode) && d[108..116] == Field(8, h.uid)
    && d[116..124] == Field(8, h.gid) && d[124..136] == Field(12, h.size) && d[136..148] == Field(12, h.mtime)
    && d[156] == h.flag && d[157..257] == Pad(h.link, 100) && d[257..512] == Pad(h.tail, 255)
  }

  lemma {:induction false} SliceOf(a: Str, b: Str, lo: nat, hi: nat)
    requires lo <= hi <= |a|
    ensures (a + b)[lo..hi] == a[lo..hi]
  {
  }

  lemma {:induction false} ReadField(fs: seq<Str>, k: nat, lo: nat, hi: nat, rest: Str)
    requires k < |fs| && lo == |Cat(fs[..k])| && hi == lo + |fs[k]|
    ensures hi <= |Cat(fs)| && (Cat(fs) + rest)[lo..hi] == fs[k]
  {
    FieldAt(fs, k, lo);
    SliceOf(Cat(fs), rest, lo, hi);
  }

  lemma {:induction false} RenderReads(h: Header, rest: Str)
    requires Fits(h)
    ensures |Render(h)| == 512 && Reads(Render(h) + rest, h)
  {
    var ck := ChecksumField(SumFrom(Cat(Fields(h, Zeros(8))), 0));
    FieldsRead(h, ck, Fields(h, ck), Cat(Fields(h, ck)) + rest, rest);
  }

  lemma {:induction false} FieldsRead(h: Header, ck: Str, fs: seq<Str>, d: Str, rest: Str)
    requires Fits(h) && |ck| == 8 && fs == Fields(h, ck) && d == Cat(fs) + rest
    ensures |Cat(fs)| == 512 && Reads(d, h)
  {
    FieldOffsets(h, ck);
    assert fs[..0] == [];
    ReadField(fs, 0, 0, 100, rest);
    ReadField(fs, 1, 100, 108, rest);
    ReadField(fs, 2, 108, 116, rest);
    ReadField(fs, 3, 116, 124, rest);
    ReadField(fs, 4, 124, 136, rest);
    ReadField(fs, 5, 136, 148, rest);
    ReadField(fs, 7, 156, 157, rest);
    ReadField(fs, 8, 157, 257, rest);
    ReadField(fs, 9, 257, 512, rest);
    assert d[156] == d[156..157][0];
  }

  lemma {:induction false} SubSlice(d: Str, a: nat, b: nat, lo: nat, hi: nat)
    requires a <= b <= |d| && lo <= hi <= b - a
    ensures d[a..b][lo..hi] == d[a + lo..a + hi]
  {
    assert forall k | 0 <= k < hi - lo :: d[a..b][lo..hi][k] == d[a + lo + k] == d[a + lo..a + hi][k];
  }

  lemma {:induction false} NoPrefix(d: Str, h: Header, name: Str)
    requires Reads(d, h) && |h.tail| <= 88
    ensures WithPrefix(d, name) == name
  {
    SubSlice(d, 257, 512, 88, 243);
    assert Pad(h.tail, 255)[88..243] == Zeros(155);
    FindNul([], d[345..500]);
  }

  lemma {:induction false} NotZeroBlock(d: Str, h: Header)
    requires Reads(d, h)
    ensures d[..512] != Zeros(512)
  {
    assert d[..512][100] == d[100..108][0];
    assert Field(8, h.mode)[0] != 0 by { FirstDigit(7, h.mode); }
  }

  lemma {:induction false} FirstDigit(n: nat, v: nat)
    requires n > 0
    ensures Digits(n, v)[0] != 0
  {
    if n > 1 { FirstDigit(n - 1, v / 8); }
  }

  // ---- one record ----

  lemma {:induction false} FieldParses(field: Str, len: nat, v: nat)
    requires len > 0 && field == Field(len, v) && v < Pow8(len - 1)
    ensures Parse(0, field) == v
  {
    FieldRoundTrip(len, v);
  }

  lemma {:induction false} HeaderNumbers(d: Str, h: Header, e: Entry)
    requires Reads(d, h) && LeafFits(e)
    requires h.mode == e.mode && h.uid == e.uid && h.gid == e.gid && h.size == e.size && h.mtime == e.mtime
    ensures Parse(0, d[100..108]) == e.mode && Parse(0, d[108..116]) == e.uid && Parse(0, d[116..124]) == e.gid
    ensures Parse(0, d[124..136]) == e.size && Parse(0, d[136..148]) == e.mtime
  {
    var seven, eleven := 7, 11;
    FieldParses(d[100..108], seven + 1, e.mode);
    FieldParses(d[108..116], seven + 1, e.uid);
    FieldParses(d[116..124], seven + 1, e.gid);
    FieldParses(d[124..136], eleven + 1, e.size);
    FieldParses(d[136..148], eleven + 1, e.mtime);
  }

  lemma {:induction false} HeaderEntry(d: Str, tar: Str, e: Entry)
    requires Reads(d, FileHeader(tar, e)) && LeafFits(e)
    ensures KindOf(d[156]) == e.kind && Parse(0, d[124..136]) == e.size
    ensures ParseEntry(d, e.kind, e.size, e.content) == Bare(e).(name := [])
  {
    HeaderNumbers(d, FileHeader(tar, e), e);
    TrimPad(e.link, 100);
  }

  /** A tar path that load_tar takes as it is. */
  predicate PlainPath(tar: Str) { tar != [] && 0 !in tar && DropDot(tar) == tar && |tar| + 1 < Pow8(11) }

  lemma {:induction false} ParseFile(tar: Str, e: Entry, rest: Str, skip: nat)
    requires LeafFits(e) && PlainPath(tar)
    ensures |Render(FileHeader(tar, e))| == 512
    ensures ParseHeader(Render(FileHeader(tar, e)) + (ContentOf(e) + rest), tar, skip)
         == Found(skip + 512 + |ContentOf(e)|, tar, Bare(e).(name := []))
  {
    var header := Render(FileHeader(tar, e));
    var d := header + (ContentOf(e) + rest);
    RenderReads(FileHeader(tar, e), ContentOf(e) + rest);
    NoPrefix(d, FileHeader(tar, e), tar);
    HeaderEntry(d, tar, e);
    ParseAs(d, tar, e, skip);
  }

  lemma {:induction false} ParseAs(d: Str, tar: Str, e: Entry, skip: nat)
    requires |d| >= 512 && tar != [] && DropDot(tar) == tar && WithPrefix(d, tar) == tar
    requires KindOf(d[156]) == e.kind && Parse(0, d[124..136]) == e.size && 512 + e.size <= |d|
    requires e.kind.Regular? || e.content == []
    requires d[512..512 + e.size] == e.content && ParseEntry(d, e.kind, e.size, e.content) == Bare(e).(name := [])
    ensures ParseHeader(d, tar, skip)
         == Found(skip + 512 + (if e.kind.Regular? && e.size > 0 then RoundUp(e.size) else 0), tar,
                  Bare(e).(name := []))
  {
    assert e.size == 0 ==> e.content == [];
  }

  lemma {:induction false} NotLongLink(tar: Str)
    requires DropDot(tar) == tar
    ensures tar != LONG_LINK
  {
  }

  /** A header with a short name is read under that name. */
  lemma {:induction false} ShortHandsOn(tar: Str, e: Entry, rest: Str)
    requires 0 !in tar && |tar| <= 100 && tar != LONG_LINK
    ensures var d := Render(FileHeader(tar, e)) + rest; |d| >= 512 && ParseRecord(d) == ParseHeader(d, tar, 0)
  {
    var h := FileHeader(tar, e);
    RenderReads(h, rest);
    NotZeroBlock(Render(h) + rest, h);
    TrimPad(tar, 100);
  }

  /** A record with a short name. */
  lemma {:induction false} ParseShort(tar: Str, e: Entry, rest: Str)
    requires LeafFits(e) && PlainPath(tar) && |tar| <= 100
    ensures ParseRecord(Render(FileHeader(tar, e)) + (ContentOf(e) + rest))
         == Found(512 + |ContentOf(e)|, tar, Bare(e).(name := []))
  {
    NotLongLink(tar);
    ShortHandsOn(tar, e, ContentOf(e) + rest);
    ParseFile(tar, e, rest, 0);
  }

  lemma {:induction false} LongHeaderRead(d: Str, size: nat)
    requires Reads(d, LongHeader(size)) && size < Pow8(11)
    ensures Trim(d[..100]) == LONG_LINK && Parse(0, d[124..136]) == size
  {
    TrimPad(LONG_LINK, 100);
    FieldRoundTrip(12, size);
  }

  lemma {:induction false} LongDataRead(header: Str, tar: Str, rest: Str, d: Str, skip: nat)
    requires |header| == 512 && 0 !in tar && d == header + (Blocked(tar + [0]) + rest)
             && skip == 512 + RoundUp(|tar| + 1)
    ensures skip <= |d| && d[skip..] == rest && Trim(d[512..512 + (|tar| + 1)]) == tar
  {
    assert d[512..512 + (|tar| + 1)] == tar + [0];
    FindNul(tar, tar + [0]);
  }

  lemma {:induction false} LongParse(d: Str, len: nat, tar: Str, skip: nat)
    requires |d| >= 512 && d[..512] != Zeros(512) && Trim(d[..100]) == LONG_LINK && Parse(0, d[124..136]) == len
    requires skip == 512 + RoundUp(len) && skip + 512 <= |d| && Trim(d[512..512 + len]) == tar
    ensures ParseRecord(d) == ParseHeader(d[skip..], tar, skip)
  {
    assert ParseRecord(d) == ParseLinked(d);
  }

  /** A LongLink entry hands its name on to what follows. */
  lemma {:induction false} LongHandsOn(tar: Str, body: Str, skip: nat)
    requires 0 !in tar && |tar| + 1 < Pow8(11) && |body| >= 512 && skip == 512 + |Blocked(tar + [0])|
    ensures ParseRecord(Render(LongHeader(|tar| + 1)) + (Blocked(tar + [0]) + body)) == ParseHeader(body, tar, skip)
  {
    var h, data := LongHeader(|tar| + 1), Blocked(tar + [0]);
    var d := Render(h) + (data + body);
    RenderReads(h, data + body);
    NotZeroBlock(d, h);
    LongHeaderRead(d, |tar| + 1);
    LongDataRead(Render(h), tar, body, d, skip);
    LongParse(d, |tar| + 1, tar, skip);
  }

  /** A record whose name goes through a LongLink entry. */
  lemma {:induction false} ParseLong(tar: Str, e: Entry, rest: Str)
    requires LeafFits(e) && PlainPath(tar)
    ensures var header, data := Render(LongHeader(|tar| + 1)), Blocked(tar + [0]);
            ParseRecord(header + (data + (Render(FileHeader(tar, e)) + (ContentOf(e) + rest))))
            == Found(512 + |data| + 512 + |ContentOf(e)|, tar, Bare(e).(name := []))
  {
    var skip := 512 + |Blocked(tar + [0])|;
    ParseFile(tar, e, rest, skip);
    LongHandsOn(tar, Render(FileHeader(tar, e)) + (ContentOf(e) + rest), skip);
  }

  lemma {:induction false} Assoc5(a: Str, b: Str, c: Str, d: Str, e: Str)
    ensures a + b + c + d + e == a + (b + (c + (d + e)))
    ensures [] + c + d + e == c + (d + e)
  {
  }

  /** Any record. */
  lemma {:induction false} ParseRecordOf(path: Str, e: Entry, rest: Str)
    requires LeafFits(e) && PlainPath(TarPath(path, e))
    ensures |Record(path, e)| >= 512
    ensures ParseRecord(Record(path, e) + rest) == Found(|Record(path, e)|, TarPath(path, e), Bare(e).(name := []))
  {
    var tar := TarPath(path, e);
    RenderReads(FileHeader(tar, e), []);
    RenderReads(LongHeader(|tar| + 1), []);
    Assoc5(Render(LongHeader(|tar| + 1)), Blocked(tar + [0]), Render(FileHeader(tar, e)), ContentOf(e), rest);
    if |tar| > 100 {
      ParseLong(tar, e, rest);
    } else {
      ParseShort(tar, e, rest);
    }
  }

  // ---- what does not come back ----

  lemma {:induction false} NumberBack(field: Str, len: nat, v: nat)
    requires len > 0 && field == Field(len, v) && Parse(0, field) == v
    ensures v < Pow8(len - 1)
  {
    FieldRoundTrip(len, v);
  }

  /** A link that is read back as it was fits its field and has no NUL. */
  lemma {:induction false} LinkBack(link: Str)
    requires Trim(Pad(Take(link, 100), 100)) == link
    ensures |link| <= 100 && 0 !in link
  {
  }

  lemma {:induction false} NumbersBack(d: Str, h: Header)
    requires Reads(d, h) && Parse(0, d[100..108]) == h.mode && Parse(0, d[108..116]) == h.uid
    requires Parse(0, d[116..124]) == h.gid && Parse(0, d[136..148]) == h.mtime && Parse(0, d[124..136]) == h.size
    ensures h.mode < Pow8(7) && h.uid < Pow8(7) && h.gid < Pow8(7) && h.mtime < Pow8(11) && h.size < Pow8(11)
  {
    var seven, eleven := 7, 11;
    NumberBack(d[100..108], seven + 1, h.mode);
    NumberBack(d[108..116], seven + 1, h.uid);
    NumberBack(d[116..124], seven + 1, h.gid);
    NumberBack(d[124..136], eleven + 1, h.size);
    NumberBack(d[136..148], eleven + 1, h.mtime);
  }

  /** An entry that is read back from its header fits it. */
  lemma {:induction false} EntryBack(d: Str, tar: Str, e: Entry, content: Str)
    requires Reads(d, FileHeader(tar, e))
    requires ParseEntry(d, KindOf(d[156]), Parse(0, d[124..136]), content) == Bare(e).(name := [])
    requires |content| == if KindOf(d[156]).Regular? then Parse(0, d[124..136]) else 0
    ensures LeafFits(e)
  {
    assert !e.kind.Socket? && (e.kind.Regular? ==> e.size == |e.content|);
    if !e.kind.Regular? { FieldParses(d[124..136], 12, 0); }
    NumbersBack(d, FileHeader(tar, e));
    if e.kind.Symlink? { LinkBack(e.link); } else { FindNul([], d[157..257]); }
  }

  lemma {:induction false} EntryFound(d: Str, name: Str, skip: nat) returns (content: Str)
    requires |d| >= 512 && ParseHeader(d, name, skip).Found?
    ensures var kind, size := KindOf(d[156]), Parse(0, d[124..136]);
            && ParseHeader(d, name, skip).entry == ParseEntry(d, kind, size, content)
            && |content| == if kind.Regular? then size else 0
  {
    var size := Parse(0, d[124..136]);
    content := if KindOf(d[156]).Regular? && size > 0 then d[512..512 + size] else [];
  }

  lemma {:induction false} HeaderBack(d: Str, tar: Str, e: Entry, name: Str, skip: nat)
    requires Reads(d, FileHeader(tar, e))
    requires ParseHeader(d, name, skip).Found? && ParseHeader(d, name, skip).entry == Bare(e).(name := [])
    ensures LeafFits(e)
  {
    var content := EntryFound(d, name, skip);
    EntryBack(d, tar, e, content);
  }

  /** The record of an entry, under a path that load_tar takes as it is, is read back as that
      entry if and only if the entry fits: sockets, long links and wide numbers do not. */
  lemma {:induction false} RecordExact(path: Str, e: Entry, rest: Str)
    requires PlainPath(TarPath(path, e))
    ensures var p := ParseRecord(Record(path, e) + rest);
            p.Found? && p.entry == Bare(e).(name := []) <==> LeafFits(e)
  {
    var tar, body := TarPath(path, e), ContentOf(e) + rest;
    var header, long := Render(FileHeader(tar, e)), Render(LongHeader(|tar| + 1));
    Assoc5(long, Blocked(tar + [0]), header, ContentOf(e), rest);
    RenderReads(FileHeader(tar, e), body);
    var p := ParseRecord(Record(path, e) + rest);
    if LeafFits(e) {
      ParseRecordOf(path, e, rest);
    } else if p.Found? && p.entry == Bare(e).(name := []) {
      if |tar| > 100 {
        LongHandsOn(tar, header + body, 512 + |Blocked(tar + [0])|);
        HeaderBack(header + body, tar, e, tar, 512 + |Blocked(tar + [0])|);
      } else {
        NotLongLink(tar);
        ShortHandsOn(tar, e, body);
        HeaderBack(header + body, tar, e, tar, 0);
      }
    }
  }
}
