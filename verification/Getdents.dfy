/** Paged directory listing in the linux_dirent64 record format. */
module Getdents {
  import opened Words
  import opened Ram
  import opened Paths
  import opened Tree
  import opened Octal
  import opened TarHeader
  import opened Tar
  import opened TarProof

  function TypeCode(kind: FileType): byte {
    match kind
    case Regular => 8 case Directory => 4 case Symlink => 10 case CharDev => 2
    case BlockDev => 6 case Fifo => 1 case Socket => 12
  }

  /** Record length, a multiple of eight. */
  function RecLen(name: Str): (r: nat)
    ensures 20 + |name| <= r < 28 + |name|
  {
    (20 + |name| + 7) / 8 * 8
  }

  lemma {:induction false} Multiple(p: nat, q: nat, r: nat)
    requires r == q * 8
    ensures (p + r) % 8 == p % 8 && r % 8 == 0
  {
  }

  /** Every record is a multiple of eight bytes long. */
  lemma {:induction false} ListingAligned(b: Str, p: nat, names: seq<Str>, kinds: seq<FileType>, i: nat, j: nat)
    requires |kinds| == |names| && Listing(b, p, names, kinds, i, j)
    ensures |b| % 8 == p % 8
    decreases j - i
  {
    if i < j {
      ListingAligned(b, p + RecLen(names[i]), names, kinds, i + 1, j);
      Multiple(p, (20 + |names[i]| + 7) / 8, RecLen(names[i]));
    }
  }

  /** Record k, for this name, at position p. */
  ghost predicate RecordAt(b: Str, p: nat, k: nat, name: Str, kind: FileType) {
    && p + RecLen(name) <= |b|
    && b[p..p + 8] == Little(8, k + 1) && b[p + 8..p + 16] == Little(8, k + 1)
    && b[p + 16..p + 18] == Little(2, RecLen(name)) && b[p + 18] == TypeCode(kind)
    && b[p + 19..p + 20 + |name|] == name + [0]
  }

  /** Records i to j, one after the other, filling b from p. */
  ghost predicate Listing(b: Str, p: nat, names: seq<Str>, kinds: seq<FileType>, i: nat, j: nat)
    requires |kinds| == |names|
    decreases j - i
  {
    && i <= j <= |names|
    && if i == j then p == |b|
       else RecordAt(b, p, i, names[i], kinds[i]) && Listing(b, p + RecLen(names[i]), names, kinds, i + 1, j)
  }

  lemma {:induction false} RecordKept(b: Str, b': Str, p: nat, k: nat, name: Str, kind: FileType)
    requires RecordAt(b, p, k, name, kind) && |b| <= |b'| && b'[..|b|] == b
    ensures RecordAt(b', p, k, name, kind)
  {
    Kept(b, b', p, p + 8);
    Kept(b, b', p + 8, p + 16);
    Kept(b, b', p + 16, p + 18);
    Kept(b, b', p + 18, p + 19);
    assert b[p + 18..p + 19][0] == b[p + 18] && b'[p + 18..p + 19][0] == b'[p + 18];
    Kept(b, b', p + 19, p + 20 + |name|);
  }

  lemma {:induction false} Kept(b: Str, b': Str, lo: nat, hi: nat)
    requires lo <= hi <= |b| <= |b'| && b'[..|b|] == b
    ensures b'[lo..hi] == b[lo..hi]
  {
    assert forall k | lo <= k < hi :: b'[k] == b'[..|b|][k];
  }

  lemma {:induction false} ListingExtends(b: Str, b': Str, p: nat, names: seq<Str>, kinds: seq<FileType>, i: nat,
                                          j: nat)
    requires |kinds| == |names| && j < |names|
    requires Listing(b, p, names, kinds, i, j) && |b| <= |b'| && b'[..|b|] == b
    requires RecordAt(b', |b|, j, names[j], kinds[j]) && |b'| == |b| + RecLen(names[j])
    ensures Listing(b', p, names, kinds, i, j + 1)
    decreases j - i
  {
    if i < j {
      RecordKept(b, b', p, i, names[i], kinds[i]);
      ListingExtends(b, b', p + RecLen(names[i]), names, kinds, i + 1, j);
    }
  }

  // ---- decoding ----

  /** The names a reader finds, following the record lengths. */
  ghost function DecodeNames(b: Str, p: nat): seq<Str>
    decreases |b| - p
  {
    if p + 19 > |b| then []
    else
      var len := FromLittle(b[p + 16..p + 18]);
      if len < 19 || p + len > |b| then [] else [Trim(b[p + 19..p + len])] + DecodeNames(b, p + len)
  }

  /** Names without NUL whose record length fits its 16-bit field. */
  predicate Readable(names: seq<Str>) {
    forall k | 0 <= k < |names| :: 0 !in names[k] && RecLen(names[k]) < 0x1_0000
  }

  lemma {:induction false} DecodeRecord(b: Str, p: nat, k: nat, name: Str, kind: FileType)
    requires RecordAt(b, p, k, name, kind) && 0 !in name && RecLen(name) < 0x1_0000
    ensures FromLittle(b[p + 16..p + 18]) == RecLen(name) && Trim(b[p + 19..p + RecLen(name)]) == name
  {
    LittleRoundTrip(2, RecLen(name));
    assert Pow256(2) == 0x1_0000;
    TrimRecord(b, p + 19, p + RecLen(name), name);
  }

  lemma {:induction false} TrimRecord(b: Str, lo: nat, hi: nat, name: Str)
    requires lo + |name| < hi <= |b| && b[lo..lo + |name| + 1] == name + [0] && 0 !in name
    ensures Trim(b[lo..hi]) == name
  {
    var t := b[lo..hi];
    assert forall k | 0 <= k <= |name| :: t[k] == b[lo..lo + |name| + 1][k];
    assert t[..|name|] == name;
    FindNul(name, t);
  }

  lemma {:induction false} DecodeStep(b: Str, p: nat, len: nat, name: Str)
    requires 19 <= len && p + len <= |b| && FromLittle(b[p + 16..p + 18]) == len && Trim(b[p + 19..p + len]) == name
    ensures DecodeNames(b, p) == [name] + DecodeNames(b, p + len)
  {
  }

  lemma {:induction false} DecodeFirst(b: Str, p: nat, k: nat, name: Str, kind: FileType)
    requires RecordAt(b, p, k, name, kind) && 0 !in name && RecLen(name) < 0x1_0000
    ensures DecodeNames(b, p) == [name] + DecodeNames(b, p + RecLen(name))
  {
    DecodeRecord(b, p, k, name, kind);
    DecodeStep(b, p, RecLen(name), name);
  }

  lemma {:induction false} DecodeEnd(b: Str)
    ensures DecodeNames(b, |b|) == []
  {
  }

  lemma {:induction false} SliceFirst(names: seq<Str>, i: nat, j: nat)
    requires i < j <= |names|
    ensures names[i..j] == [names[i]] + names[i + 1..j]
  {
  }

  lemma {:induction false} ReadableFirst(names: seq<Str>, i: nat, j: nat)
    requires i < j <= |names|
    ensures Readable(names[i..j]) <==> 0 !in names[i] && RecLen(names[i]) < 0x1_0000 && Readable(names[i + 1..j])
  {
    var all, rest := names[i..j], names[i + 1..j];
    assert all[0] == names[i];
    assert forall k | 0 <= k < |rest| :: rest[k] == all[k + 1];
    assert forall k | 0 < k < |all| :: all[k] == rest[k - 1];
  }

  /** A listing of readable names decodes to them. */
  lemma {:induction false} DecodeReadable(b: Str, p: nat, names: seq<Str>, kinds: seq<FileType>, i: nat, j: nat)
    requires |kinds| == |names| && Listing(b, p, names, kinds, i, j) && Readable(names[i..j])
    ensures DecodeNames(b, p) == names[i..j]
    decreases j - i
  {
    if i < j {
      var q := p + RecLen(names[i]);
      ReadableFirst(names, i, j);
      DecodeFirst(b, p, i, names[i], kinds[i]);
      assert DecodeNames(b, q) == names[i + 1..j] by { DecodeReadable(b, q, names, kinds, i + 1, j); }
      SliceFirst(names, i, j);
    } else {
      DecodeEnd(b);
    }
  }

  /** What a 16-bit record length leaves for a name. */
  const LONGEST := 0xFFFF - 19

  /** A decoded name has no NUL and is not longer than LONGEST. */
  predicate Decodable(name: Str) { 0 !in name && |name| <= LONGEST }

  lemma {:induction false} DecodedDecodable(b: Str, p: nat)
    ensures forall x | x in DecodeNames(b, p) :: Decodable(x)
    decreases |b| - p
  {
    if p + 19 <= |b| {
      var len := FromLittle(b[p + 16..p + 18]);
      FieldBelow(b[p + 16..p + 18]);
      if 19 <= len && p + len <= |b| {
        assert Decodable(Trim(b[p + 19..p + len]));
        DecodedDecodable(b, p + len);
      }
    }
  }

  lemma {:induction false} FieldBelow(s: Str)
    requires |s| == 2
    ensures FromLittle(s) < 0x1_0000
  {
    assert s[1..][1..] == [] && FromLittle(s[1..]) == s[1];
  }

  /** The decoder stops at a decodable name whose record is too long: its length is stored as 0. */
  lemma {:induction false} DecodeStops(b: Str, p: nat, k: nat, name: Str, kind: FileType)
    requires RecordAt(b, p, k, name, kind) && |name| <= LONGEST && RecLen(name) >= 0x1_0000
    ensures RecLen(name) == 0x1_0000 && DecodeNames(b, p) == []
  {
    assert Little(2, 0x1_0000) == [0, 0] && [0, 0][1..] == [0] && [0][1..] == [];
    assert FromLittle([0, 0]) == 0;
  }

  /** From decodable names the decoder gives as many as were listed, or fewer if a record is too
      long. */
  lemma {:induction false} DecodeCount(b: Str, p: nat, names: seq<Str>, kinds: seq<FileType>, i: nat, j: nat)
    requires |kinds| == |names| && Listing(b, p, names, kinds, i, j)
    requires forall k | i <= k < j :: Decodable(names[k])
    ensures |DecodeNames(b, p)| <= j - i
    ensures |DecodeNames(b, p)| == j - i ==> Readable(names[i..j])
    decreases j - i
  {
    if i == j {
      DecodeEnd(b);
    } else if RecLen(names[i]) < 0x1_0000 {
      var rest := DecodeNames(b, p + RecLen(names[i]));
      assert |DecodeNames(b, p)| == 1 + |rest| by { DecodeFirst(b, p, i, names[i], kinds[i]); }
      assert |rest| <= j - i - 1 && (|rest| == j - i - 1 ==> Readable(names[i + 1..j])) by {
        DecodeCount(b, p + RecLen(names[i]), names, kinds, i + 1, j);
      }
      ReadableFirst(names, i, j);
    } else {
      DecodeStops(b, p, i, names[i], kinds[i]);
    }
  }

  /** A sequence of decodable names is one of decodable names at every index. */
  lemma {:induction false} SliceDecodable(names: seq<Str>, i: nat, j: nat, decoded: seq<Str>)
    requires i <= j <= |names| && decoded == names[i..j] && forall x | x in decoded :: Decodable(x)
    ensures forall k | i <= k < j :: Decodable(names[k])
  {
    forall k | i <= k < j ensures Decodable(names[k]) {
      assert names[k] == decoded[k - i];
    }
  }

  /** A listing decodes to the names it was made from if and only if they are readable. */
  lemma {:induction false} DecodeListing(b: Str, p: nat, names: seq<Str>, kinds: seq<FileType>, i: nat, j: nat)
    requires |kinds| == |names| && Listing(b, p, names, kinds, i, j)
    ensures DecodeNames(b, p) == names[i..j] <==> Readable(names[i..j])
  {
    if Readable(names[i..j]) {
      DecodeReadable(b, p, names, kinds, i, j);
    } else if DecodeNames(b, p) == names[i..j] {
      DecodedDecodable(b, p);
      SliceDecodable(names, i, j, DecodeNames(b, p));
      DecodeCount(b, p, names, kinds, i, j);
    }
  }

  /** A name of 65516 bytes hides itself and every name after it in its page. */
  lemma {:induction false} LongNameHides(b: Str, names: seq<Str>, kinds: seq<FileType>, i: nat, j: nat)
    requires |kinds| == |names| && Listing(b, 0, names, kinds, i, j) && i < j && |names[i]| == 65516
    ensures DecodeNames(b, 0) == []
  {
    DecodeStops(b, 0, i, names[i], kinds[i]);
  }

  // ---- paging ----

  /** Where a call with `room` bytes left stops. */
  function Advance(names: seq<Str>, i: nat, room: nat): (j: nat)
    requires i <= |names|
    ensures i <= j <= |names|
    decreases |names| - i
  {
    if i < |names| && RecLen(names[i]) <= room then Advance(names, i + 1, room - RecLen(names[i])) else i
  }

  lemma {:induction false} AdvanceStep(names: seq<Str>, i: nat, room: int)
    requires i < |names| && RecLen(names[i]) <= room
    ensures Advance(names, i, room) == Advance(names, i + 1, room - RecLen(names[i]))
  {
  }

  class DirHandle {
    const dir: Entry
    const names: seq<Str>
    var index: nat

    constructor (e: Entry)
      ensures dir == e && names == Sorted(e.children.Keys) && index == 0
    {
      dir := e;
      var sorted := SortNames(e.children.Keys);
      names, index := sorted, 0;
    }

    predicate Valid()
      reads this
    {
      index <= |names| && Listed()
    }

    /** The names are entries of the directory. */
    predicate Listed() { forall n | n in names :: n in dir.children }

    ghost function Kinds(): (r: seq<FileType>)
      requires Listed()
      ensures |r| == |names| && forall k | 0 <= k < |r| :: r[k] == dir.children[names[k]].kind
    {
      seq(|names|, k requires 0 <= k < |names| => dir.children[names[k]].kind)
    }

    /** One record, written at an offset of the caller's buffer. */
    method WriteRecord(out: array<byte>, written: nat)
      requires Valid() && index < |names| && written + RecLen(names[index]) <= out.Length
      modifies out
      ensures out[..written] == old(out[..written])
      ensures out[written + RecLen(names[index])..] == old(out[written + RecLen(names[index])..])
      ensures RecordAt(out[..], written, index, names[index], Kinds()[index])
    {
      var name := names[index];
      ghost var was := out[..];
      var fields := Little(8, index + 1) + Little(8, index + 1) + Little(2, RecLen(name))
                    + [TypeCode(dir.children[name].kind)] + (name + [0]);
      Copy(out, written, fields);
      FieldsAt(was, out[..], written, index, name, dir.children[name].kind);
    }

    /** The next record, if the caller's buffer has room for it. */
    method EmitNext(out: array<byte>, written: nat, count: nat, ghost was: Str, ghost start: nat)
      requires Valid() && index < |names| && written + RecLen(names[index]) <= count <= out.Length
      requires Page(was, out[..], written, names, Kinds(), start, index)
      modifies this`index, out
      ensures Valid() && index == old(index) + 1
      ensures Advance(names, index, count - written - RecLen(names[old(index)]))
              == Advance(names, old(index), count - written)
      ensures Page(was, out[..], written + RecLen(names[old(index)]), names, Kinds(), start, index)
    {
      ghost var before, kinds := out[..], Kinds();
      WriteRecord(out, written);
      PageStep(was, before, out[..], written, names, kinds, start, index);
      AdvanceStep(names, index, count - written);
      index := index + 1;
    }

    /** getdents64 on an open directory. */
    method Getdents64(out: array<byte>, count: nat) returns (written: nat)
      requires Valid() && count <= out.Length
      modifies this`index, out
      ensures Valid() && index == Advance(names, old(index), count)
      ensures written <= count && Page(old(out[..]), out[..], written, names, Kinds(), old(index), index)
    {
      written := 0;
      while index < |names| && written + RecLen(names[index]) <= count
        invariant Valid() && written <= count
        invariant Page(old(out[..]), out[..], written, names, Kinds(), old(index), index)
        invariant Advance(names, index, count - written) == Advance(names, old(index), count)
      {
        var reclen := RecLen(names[index]);
        EmitNext(out, written, count, old(out[..]), old(index));
        written := written + reclen;
      }
    }

    /** A reader's calls, each with a buffer of its own. */
    method ReadPages(counts: seq<nat>) returns (pages: seq<Str>)
      requires Valid()
      modifies this`index
      ensures Valid() && index == Position(names, old(index), counts)
      ensures Pages(pages, names, Kinds(), old(index), counts)
      decreases |counts|
    {
      pages := [];
      if counts != [] {
        var out := new byte[counts[0]];
        var written := Getdents64(out, counts[0]);
        var page := out[..written];
        var rest := ReadPages(counts[1..]);
        pages := [page] + rest;
        assert pages[1..] == rest;
      }
    }
  }

  lemma {:induction false} RecordPrefix(b: Str, n: nat, p: nat, k: nat, name: Str, kind: FileType)
    requires RecordAt(b, p, k, name, kind) && p + RecLen(name) <= n <= |b|
    ensures RecordAt(b[..n], p, k, name, kind)
  {
    assert forall lo, hi | 0 <= lo <= hi <= n :: b[..n][lo..hi] == b[lo..hi];
  }

  /** The buffer after records i to j were written to its first p bytes. */
  ghost predicate Page(was: Str, b: Str, p: nat, names: seq<Str>, kinds: seq<FileType>, i: nat, j: nat)
    requires |kinds| == |names|
  {
    p <= |b| == |was| && b[p..] == was[p..] && Listing(b[..p], 0, names, kinds, i, j)
  }

  lemma {:induction false} PageStep(was: Str, before: Str, after: Str, p: nat, names: seq<Str>, kinds: seq<FileType>,
                                    i: nat, j: nat)
    requires |kinds| == |names| && j < |names|
    requires Page(was, before, p, names, kinds, i, j) && |before| == |after| && before[..p] == after[..p]
    requires RecordAt(after, p, j, names[j], kinds[j])
    requires after[p + RecLen(names[j])..] == before[p + RecLen(names[j])..]
    ensures Page(was, after, p + RecLen(names[j]), names, kinds, i, j + 1)
  {
    var n := p + RecLen(names[j]);
    RecordPrefix(after, n, p, j, names[j], kinds[j]);
    assert after[..n][..p] == before[..p];
    ListingExtends(before[..p], after[..n], 0, names, kinds, i, j);
    assert before[n..] == before[p..][n - p..] && was[n..] == was[p..][n - p..];
  }

  /** The fields written in a row make a record. */
  lemma {:induction false} FieldsAt(was: Str, b: Str, p: nat, k: nat, name: Str, kind: FileType)
    requires var fields := Little(8, k + 1) + Little(8, k + 1) + Little(2, RecLen(name)) + [TypeCode(kind)]
             + (name + [0]);
             p + RecLen(name) <= |was| && b == Overwrite(was, p, fields)
    ensures RecordAt(b, p, k, name, kind)
    ensures b[..p] == was[..p] && b[p + RecLen(name)..] == was[p + RecLen(name)..]
  {
    var fields := Little(8, k + 1) + Little(8, k + 1) + Little(2, RecLen(name)) + [TypeCode(kind)] + (name + [0]);
    assert b[p..p + |fields|] == fields;
    assert forall lo, hi | 0 <= lo <= hi <= |fields| :: b[p + lo..p + hi] == fields[lo..hi];
    assert fields[0..8] == Little(8, k + 1) && fields[8..16] == Little(8, k + 1);
    assert fields[16..18] == Little(2, RecLen(name)) && fields[18] == TypeCode(kind) && fields[19..] == name + [0];
  }

  // ---- several calls ----

  /** The pages of calls with these buffer sizes, from position i on. */
  ghost predicate Pages(pages: seq<Str>, names: seq<Str>, kinds: seq<FileType>, i: nat, counts: seq<nat>)
    requires |kinds| == |names| && i <= |names|
    decreases |counts|
  {
    && |pages| == |counts|
    && (counts != [] ==>
          var j := Advance(names, i, counts[0]);
          && |pages[0]| <= counts[0] && Listing(pages[0], 0, names, kinds, i, j)
          && Pages(pages[1..], names, kinds, j, counts[1..]))
  }

  /** What a reader finds in the pages. */
  ghost function DecodePages(pages: seq<Str>): seq<Str> {
    if pages == [] then [] else DecodeNames(pages[0], 0) + DecodePages(pages[1..])
  }

  ghost function Position(names: seq<Str>, i: nat, counts: seq<nat>): (j: nat)
    requires i <= |names|
    ensures i <= j <= |names|
    decreases |counts|
  {
    if counts == [] then i else Position(names, Advance(names, i, counts[0]), counts[1..])
  }

  /** Every buffer holds the record that comes next, as long as there is one. */
  ghost predicate Roomy(names: seq<Str>, i: nat, counts: seq<nat>)
    requires i <= |names|
    decreases |counts|
  {
    counts != [] ==>
      && (i < |names| ==> RecLen(names[i]) <= counts[0])
      && Roomy(names, Advance(names, i, counts[0]), counts[1..])
  }

  lemma {:induction false} PagesAligned(pages: seq<Str>, names: seq<Str>, kinds: seq<FileType>, i: nat,
                                        counts: seq<nat>)
    requires |kinds| == |names| && i <= |names| && Pages(pages, names, kinds, i, counts)
    ensures forall k | 0 <= k < |pages| :: |pages[k]| % 8 == 0
    decreases |counts|
  {
    if counts != [] {
      var j := Advance(names, i, counts[0]);
      ListingAligned(pages[0], 0, names, kinds, i, j);
      PagesAligned(pages[1..], names, kinds, j, counts[1..]);
      assert forall k | 0 < k < |pages| :: pages[k] == pages[1..][k - 1];
    }
  }

  lemma {:induction false} ReadableSplit(names: seq<Str>, i: nat, j: nat, m: nat)
    requires i <= j <= m <= |names|
    ensures names[i..m] == names[i..j] + names[j..m]
    ensures Readable(names[i..m]) <==> Readable(names[i..j]) && Readable(names[j..m])
  {
    var all, first, second := names[i..m], names[i..j], names[j..m];
    assert all == first + second;
    assert forall k | 0 <= k < |first| :: first[k] == all[k];
    assert forall k | 0 <= k < |second| :: second[k] == all[|first| + k];
  }

  lemma {:induction false} PagesReadable(pages: seq<Str>, names: seq<Str>, kinds: seq<FileType>, i: nat,
                                         counts: seq<nat>)
    requires |kinds| == |names| && i <= |names| && Pages(pages, names, kinds, i, counts)
    requires Readable(names[i..Position(names, i, counts)])
    ensures DecodePages(pages) == names[i..Position(names, i, counts)]
    decreases |counts|
  {
    if counts != [] {
      var j := Advance(names, i, counts[0]);
      ReadableSplit(names, i, j, Position(names, i, counts));
      DecodeReadable(pages[0], 0, names, kinds, i, j);
      PagesReadable(pages[1..], names, kinds, j, counts[1..]);
    }
  }

  lemma {:induction false} PagesDecodable(pages: seq<Str>)
    ensures forall x | x in DecodePages(pages) :: Decodable(x)
  {
    if pages != [] {
      DecodedDecodable(pages[0], 0);
      PagesDecodable(pages[1..]);
    }
  }

  lemma {:induction false} PagesCount(pages: seq<Str>, names: seq<Str>, kinds: seq<FileType>, i: nat, counts: seq<nat>)
    requires |kinds| == |names| && i <= |names| && Pages(pages, names, kinds, i, counts)
    requires forall k | i <= k < Position(names, i, counts) :: Decodable(names[k])
    ensures |DecodePages(pages)| <= Position(names, i, counts) - i
    ensures |DecodePages(pages)| == Position(names, i, counts) - i ==> Readable(names[i..Position(names, i, counts)])
    decreases |counts|
  {
    if counts != [] {
      var j := Advance(names, i, counts[0]);
      DecodeCount(pages[0], 0, names, kinds, i, j);
      PagesCount(pages[1..], names, kinds, j, counts[1..]);
      ReadableSplit(names, i, j, Position(names, i, counts));
    }
  }

  /** Whatever the buffer sizes, decoding the pages one after the other gives the names in
      order, without gap or repeat, if and only if those that were written are readable. Every
      page is a whole number of eight-byte units. */
  lemma {:induction false} PagesDecode(pages: seq<Str>, names: seq<Str>, kinds: seq<FileType>, i: nat, counts: seq<nat>)
    requires |kinds| == |names| && i <= |names| && Pages(pages, names, kinds, i, counts)
    ensures DecodePages(pages) == names[i..Position(names, i, counts)]
            <==> Readable(names[i..Position(names, i, counts)])
    ensures forall k | 0 <= k < |pages| :: |pages[k]| % 8 == 0
  {
    PagesAligned(pages, names, kinds, i, counts);
    var end := Position(names, i, counts);
    if Readable(names[i..end]) {
      PagesReadable(pages, names, kinds, i, counts);
    } else if DecodePages(pages) == names[i..end] {
      PagesDecodable(pages);
      SliceDecodable(names, i, end, DecodePages(pages));
      PagesCount(pages, names, kinds, i, counts);
    }
  }

  /** With room for each next record, the pages from the start give the whole directory if and
      only if its names are readable. */
  lemma {:induction false} PagesComplete(pages: seq<Str>, names: seq<Str>, kinds: seq<FileType>, counts: seq<nat>)
    requires |kinds| == |names| && Pages(pages, names, kinds, 0, counts)
    requires Roomy(names, 0, counts) && |counts| >= |names|
    ensures DecodePages(pages) == names <==> Readable(names)
  {
    PagesDecode(pages, names, kinds, 0, counts);
    ReadsAll(names, 0, counts);
    assert names[0..|names|] == names;
  }

  /** With room for each next record they reach the end. */
  lemma {:induction false} ReadsAll(names: seq<Str>, i: nat, counts: seq<nat>)
    requires i <= |names| && Roomy(names, i, counts) && |counts| >= |names| - i
    ensures Position(names, i, counts) == |names|
    decreases |counts|
  {
    if counts != [] {
      AdvanceOne(names, i, counts[0]);
      ReadsAll(names, Advance(names, i, counts[0]), counts[1..]);
    }
  }

  lemma {:induction false} AdvanceOne(names: seq<Str>, i: nat, room: nat)
    requires i <= |names|
    ensures i < |names| && RecLen(names[i]) <= room ==> Advance(names, i, room) > i
  {
  }

  /** The type byte of a record: 8 for files, 4 for directories, 10 for links, 2 and 6 for
      devices, 1 for fifos and 12 for sockets. */
  lemma {:induction false} TypeByte(b: Str, p: nat, k: nat, name: Str, kind: FileType)
    requires RecordAt(b, p, k, name, kind)
    ensures b[p + 18] == if kind.Regular? then 8 else if kind.Directory? then 4 else if kind.Symlink? then 10
                         else if kind.CharDev? then 2 else if kind.BlockDev? then 6 else if kind.Fifo? then 1 else 12
  {
  }

  /** The inode and offset words of a record are its position in the directory, from 1. */
  lemma {:induction false} RecordNumbers(b: Str, p: nat, k: nat, name: Str, kind: FileType)
    requires RecordAt(b, p, k, name, kind)
    ensures FromLittle(b[p..p + 8]) == k + 1 == FromLittle(b[p + 8..p + 16]) <==> k + 1 < TWO64
  {
    LittleRoundTrip(8, k + 1);
    assert Pow256(4) == TWO32;
    assert Pow256(8) == TWO64;
  }
}
