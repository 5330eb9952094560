/** The stdout ring between the worker and the main thread: one writer, one reader, no lock,
    one shared-memory access at a time. */
module StdoutRing {
  import opened Words

  const RING_SIZE := 65528

  /** The writer has loaded its head, or stores `data` from position `pos` on; the reader has
      loaded the head, or has read `buf` of `available` bytes. */
  datatype Writer = Idle | Loaded(data: Str, head: int) | Storing(data: Str, i: nat, pos: int)

  datatype Reader = Waiting | Seen(head: int) | Draining(available: int, buf: Str, pos: int)

  /** `sent` is what the writer has published, `received` what the reader has taken. */
  datatype Ring = Ring(cells: Str, head: int, tail: int, writer: Writer, reader: Reader, sent: Str, received: Str)

  datatype Event = Write(data: Str) | WriterStep | ReaderStep

  predicate Shape(s: Ring) {
    && |s.cells| == RING_SIZE && 0 <= s.head < RING_SIZE && 0 <= s.tail < RING_SIZE
    && (s.writer.Storing? ==> 0 <= s.writer.pos < RING_SIZE && s.writer.i <= |s.writer.data|)
    && (s.reader.Draining? ==> 0 <= s.reader.pos < RING_SIZE)
  }

  function Space(head: int, tail: int): int {
    if head >= tail then RING_SIZE - (head - tail) - 1 else tail - head - 1
  }

  function Filled(head: int, tail: int): int { if head >= tail then head - tail else RING_SIZE - tail + head }

  /** writeStdoutRing, after its call. */
  function WriterNext(s: Ring): Ring
    requires Shape(s)
  {
    match s.writer
    case Idle => s
    case Loaded(data, head) =>
      var len := Min(|data|, Space(head, s.tail));
      if len <= 0 then s.(writer := Idle) else s.(writer := Storing(data[..len], 0, head))
    case Storing(data, i, pos) =>
      if i < |data| then s.(cells := s.cells[pos := data[i]], writer := Storing(data, i + 1, (pos + 1) % RING_SIZE))
      else s.(head := pos, writer := Idle, sent := s.sent + data)
  }

  /** drainStdout. */
  function ReaderNext(s: Ring): Ring
    requires Shape(s)
  {
    match s.reader
    case Waiting => s.(reader := Seen(s.head))
    case Seen(head) =>
      if head == s.tail then s.(reader := Waiting) else s.(reader := Draining(Filled(head, s.tail), [], s.tail))
    case Draining(available, buf, pos) =>
      if |buf| < available then s.(reader := Draining(available, buf + [s.cells[pos]], (pos + 1) % RING_SIZE))
      else s.(tail := pos, reader := Waiting, received := s.received + buf)
  }

  /** A write starts when the writer is not in one. */
  predicate Enabled(s: Ring, e: Event) { Shape(s) && (e.Write? ==> s.writer.Idle?) }

  function Step(s: Ring, e: Event): Ring
    requires Enabled(s, e)
  {
    match e
    case Write(data) => s.(writer := Loaded(data, s.head))
    case WriterStep => WriterNext(s)
    case ReaderStep => ReaderNext(s)
  }

  // ---- the invariant ----

  /** The cell of the n-th byte ever published. */
  function Cell(n: nat): nat { n % RING_SIZE }

  lemma {:induction false} CellNext(n: nat)
    ensures Cell(n + 1) == (Cell(n) + 1) % RING_SIZE
  {
  }

  /** Bytes less than a ring apart are in different cells. */
  lemma {:induction false} CellsApart(a: nat, b: nat)
    requires a < b < a + RING_SIZE
    ensures Cell(a) != Cell(b)
  {
  }

  /** Positions give back how many bytes lie between them. */
  lemma {:induction false} Distance(r: nat, w: nat)
    requires r <= w < r + RING_SIZE
    ensures Filled(Cell(w), Cell(r)) == w - r && Space(Cell(w), Cell(r)) == RING_SIZE - 1 - (w - r)
    ensures Cell(w) == Cell(r) <==> w == r
  {
  }

  /** The ring holds these bytes from the n-th on. */
  ghost predicate Stored(cells: Str, n: nat, data: Str) {
    |cells| == RING_SIZE && forall j | 0 <= j < |data| :: cells[Cell(n + j)] == data[j]
  }

  ghost predicate WriterInv(s: Ring) {
    match s.writer
    case Idle => true
    case Loaded(data, head) => head == s.head
    case Storing(data, i, pos) =>
      && i <= |data| && pos == Cell(|s.sent| + i) && Stored(s.cells, |s.sent|, data[..i])
      && |s.sent| + |data| - |s.received| < RING_SIZE
  }

  ghost predicate ReaderInv(s: Ring) {
    match s.reader
    case Waiting => true
    case Seen(head) => exists w: nat :: |s.received| <= w <= |s.sent| && head == Cell(w)
    case Draining(available, buf, pos) =>
      && |buf| <= available && |s.received| + available <= |s.sent| && pos == Cell(|s.received| + |buf|)
      && buf == s.sent[|s.received|..|s.received| + |buf|]
  }

  /** The reader has a prefix of what was published and the ring holds the rest. */
  ghost predicate Inv(s: Ring) {
    && Shape(s) && s.head == Cell(|s.sent|) && s.tail == Cell(|s.received|)
    && |s.received| <= |s.sent| < |s.received| + RING_SIZE
    && s.sent[..|s.received|] == s.received && Stored(s.cells, |s.received|, s.sent[|s.received|..])
    && WriterInv(s) && ReaderInv(s)
  }

  /** Storing a byte past the published ones touches none of them. */
  lemma {:induction false} StoreFree(cells: Str, r: nat, data: Str, n: nat, c: byte)
    requires Stored(cells, r, data) && r + |data| <= n < r + RING_SIZE
    ensures Stored(cells[Cell(n) := c], r, data)
  {
    forall j | 0 <= j < |data| ensures cells[Cell(n) := c][Cell(r + j)] == data[j] {
      CellsApart(r + j, n);
    }
  }

  lemma {:induction false} StoreNext(cells: Str, n: nat, data: Str, c: byte)
    requires Stored(cells, n, data) && |data| < RING_SIZE
    ensures Stored(cells[Cell(n + |data|) := c], n, data + [c])
  {
    StoreFree(cells, n, data, n + |data|, c);
  }

  lemma {:induction false} StoredAppend(cells: Str, n: nat, a: Str, b: Str)
    requires Stored(cells, n, a) && Stored(cells, n + |a|, b)
    ensures Stored(cells, n, a + b)
  {
    forall j | 0 <= j < |a + b| ensures cells[Cell(n + j)] == (a + b)[j] {
      if j >= |a| { assert cells[Cell(n + |a| + (j - |a|))] == b[j - |a|]; }
    }
  }

  lemma {:induction false} StoredTail(cells: Str, n: nat, data: Str, k: nat)
    requires Stored(cells, n, data) && k <= |data|
    ensures Stored(cells, n + k, data[k..])
  {
    forall j | 0 <= j < |data| - k ensures cells[Cell(n + k + j)] == data[k..][j] {
      assert cells[Cell(n + (k + j))] == data[k + j];
    }
  }

  // ---- steps of the writer ----

  lemma {:induction false} LoadedInv(s: Ring, data: Str, head: int)
    requires Inv(s) && s.writer == Loaded(data, head)
    ensures Inv(WriterNext(s))
  {
    Distance(|s.received|, |s.sent|);
  }

  lemma {:induction false} StoringInv(s: Ring, data: Str, i: nat, pos: int)
    requires Inv(s) && s.writer == Storing(data, i, pos) && i < |data|
    ensures Inv(WriterNext(s))
  {
    var n := |s.sent| + i;
    CellNext(n);
    StoreFree(s.cells, |s.received|, s.sent[|s.received|..], n, data[i]);
    StoreNext(s.cells, |s.sent|, data[..i], data[i]);
    assert data[..i] + [data[i]] == data[..i + 1];
  }

  lemma {:induction false} PublishInv(s: Ring, data: Str, pos: int)
    requires Inv(s) && s.writer == Storing(data, |data|, pos)
    ensures Inv(WriterNext(s))
  {
    var r, sent := |s.received|, s.sent;
    assert data[..|data|] == data;
    StoredAppend(s.cells, r, sent[r..], data);
    assert (sent + data)[r..] == sent[r..] + data && (sent + data)[..r] == sent[..r];
    PublishedStill(s, WriterNext(s));
  }

  /** What the reader knows stays true when more is published. */
  lemma {:induction false} PublishedStill(s: Ring, s': Ring)
    requires ReaderInv(s) && s'.reader == s.reader && s'.received == s.received && |s.received| <= |s.sent|
    requires |s.sent| <= |s'.sent| && s'.sent[..|s.sent|] == s.sent
    ensures ReaderInv(s')
  {
    match s.reader
    case Waiting =>
    case Seen(head) =>
      var w: nat :| |s.received| <= w <= |s.sent| && head == Cell(w);
      assert |s'.received| <= w <= |s'.sent| && head == Cell(w);
    case Draining(available, buf, pos) =>
      assert s'.sent[..|s.sent|][|s.received|..|s.received| + |buf|] == s'.sent[|s.received|..|s.received| + |buf|];
  }

  lemma {:induction false} WriterStepInv(s: Ring)
    requires Inv(s)
    ensures Inv(WriterNext(s))
  {
    match s.writer
    case Idle =>
    case Loaded(data, head) => LoadedInv(s, data, head);
    case Storing(data, i, pos) => if i < |data| { StoringInv(s, data, i, pos); } else { PublishInv(s, data, pos); }
  }

  // ---- steps of the reader ----

  lemma {:induction false} SeenInv(s: Ring, head: int)
    requires Inv(s) && s.reader == Seen(head)
    ensures Inv(ReaderNext(s))
  {
    var w: nat :| |s.received| <= w <= |s.sent| && head == Cell(w);
    Distance(|s.received|, w);
  }

  lemma {:induction false} DrainInv(s: Ring, available: int, buf: Str, pos: int)
    requires Inv(s) && s.reader == Draining(available, buf, pos) && |buf| < available
    ensures Inv(ReaderNext(s))
  {
    var r, k, sent := |s.received|, |buf|, s.sent;
    CellNext(r + k);
    assert s.cells[pos] == sent[r..][k] == sent[r + k];
    assert sent[r..r + k + 1] == sent[r..r + k] + [sent[r + k]];
  }

  lemma {:induction false} TakeInv(s: Ring, buf: Str, pos: int)
    requires Inv(s) && s.reader == Draining(|buf|, buf, pos)
    ensures Inv(ReaderNext(s))
  {
    var r, k, sent := |s.received|, |buf|, s.sent;
    StoredTail(s.cells, r, sent[r..], k);
    assert sent[r..][k..] == sent[r + k..] && sent[..r + k] == sent[..r] + sent[r..r + k];
  }

  lemma {:induction false} ReaderStepInv(s: Ring)
    requires Inv(s)
    ensures Inv(ReaderNext(s))
  {
    match s.reader
    case Waiting => assert |s.received| <= |s.sent| <= |s.sent| && s.head == Cell(|s.sent|);
    case Seen(head) => SeenInv(s, head);
    case Draining(available, buf, pos) =>
      if |buf| < available { DrainInv(s, available, buf, pos); } else { TakeInv(s, buf, pos); }
  }

  /** Every access of either side keeps the invariant. */
  lemma {:induction false} StepInv(s: Ring, e: Event)
    requires Inv(s) && Enabled(s, e)
    ensures Inv(Step(s, e))
  {
    match e
    case Write(data) =>
    case WriterStep => WriterStepInv(s);
    case ReaderStep => ReaderStepInv(s);
  }

  // ---- runs ----

  ghost predicate IsRun(s: Ring, es: seq<Event>)
    decreases |es|
  {
    es != [] ==> Enabled(s, es[0]) && IsRun(Step(s, es[0]), es[1..])
  }

  ghost function After(s: Ring, es: seq<Event>): Ring
    requires IsRun(s, es)
    decreases |es|
  {
    if es == [] then s else After(Step(s, es[0]), es[1..])
  }

  ghost predicate Initial(s: Ring) {
    && |s.cells| == RING_SIZE && s.head == s.tail == 0 && s.writer.Idle? && s.reader.Waiting?
    && s.sent == [] && s.received == []
  }

  lemma {:induction false} RunInv(s: Ring, es: seq<Event>)
    requires Inv(s) && IsRun(s, es)
    ensures Inv(After(s, es))
    decreases |es|
  {
    if es != [] {
      StepInv(s, es[0]);
      RunInv(Step(s, es[0]), es[1..]);
    }
  }

  /** Under every interleaving what the terminal gets is a prefix of what was published, and the
      bytes between are in the ring, in order, never more than one less than its size. */
  lemma {:induction false} Fifo(s: Ring, es: seq<Event>)
    requires Initial(s) && IsRun(s, es)
    ensures var t := After(s, es);
            && t.received <= t.sent && |t.sent| - |t.received| <= 65527
            && Stored(t.cells, |t.received|, t.sent[|t.received|..])
  {
    RunInv(s, es);
  }

  /** How much of a write is published: as much as the ring has room for when the writer looks
      at the tail. Nothing is dropped if and only if it fits then. */
  lemma {:induction false} AcceptsExactly(s: Ring, es: seq<Event>, data: Str, head: int)
    requires Initial(s) && IsRun(s, es) && After(s, es).writer == Loaded(data, head)
    ensures var t := After(s, es);
            && Shape(t)
            && var n := Min(|data|, 65527 - (|t.sent| - |t.received|));
               && n >= 0 && WriterNext(t).writer == (if n == 0 then Idle else Storing(data[..n], 0, head))
               && (n == |data| <==> |t.sent| + |data| - |t.received| <= 65527)
  {
    RunInv(s, es);
    Distance(|After(s, es).received|, |After(s, es).sent|);
  }

  /** The writer going on, without the reader between its accesses. */
  function Written(s: Ring, n: nat): Ring
    requires Inv(s)
    decreases n
  {
    if n == 0 then s else
      WriterStepInv(s);
      Written(WriterNext(s), n - 1)
  }

  /** A write that is not disturbed publishes as much of its data as there is room for, and no more. */
  lemma {:induction false} WritePublishes(s: Ring, data: Str, n: nat)
    requires Inv(s) && s.writer.Idle? && n == Min(|data|, 65527 - (|s.sent| - |s.received|))
    ensures Enabled(s, Write(data)) && Inv(Step(s, Write(data)))
    ensures var t := Written(Step(s, Write(data)), n + 2);
            t.sent == s.sent + data[..n] && t.received == s.received && t.writer.Idle?
  {
    var s1 := Step(s, Write(data));
    StepInv(s, Write(data));
    Distance(|s.received|, |s.sent|);
    WriterStepInv(s1);
    var s2 := WriterNext(s1);
    if n == 0 {
      assert s2 == s && WriterNext(s2) == s2;
      assert Written(s2, 1) == Written(s2, 0) == s2;
      assert s.sent + data[..0] == s.sent;
    } else {
      assert s2.writer == Storing(data[..n], 0, s.head);
      WriteRest(s2, data[..n], n);
    }
  }

  lemma {:induction false} WriteRest(s: Ring, data: Str, n: nat)
    requires Inv(s) && s.writer.Storing? && s.writer.data == data && n == |data| - s.writer.i
    ensures var t := Written(s, n + 1);
            t.sent == s.sent + data && t.received == s.received && t.writer.Idle?
    decreases n
  {
    WriterStepInv(s);
    var s1 := WriterNext(s);
    if n > 0 { WriteRest(s1, data, n - 1); } else { assert Written(s1, 0) == s1; }
  }

  /** Reading everything, without the writer between its accesses. */
  function Drained(s: Ring, n: nat): Ring
    requires Inv(s)
    decreases n
  {
    if n == 0 then s else
      ReaderStepInv(s);
      Drained(ReaderNext(s), n - 1)
  }

  /** A drain that is not disturbed takes everything published. */
  lemma {:induction false} DrainTakesAll(s: Ring)
    requires Inv(s) && s.reader.Waiting? && s.sent != s.received
    ensures var t := Drained(s, |s.sent| - |s.received| + 3);
            t.received == s.sent && t.sent == s.sent && t.reader.Waiting?
  {
    var n := |s.sent| - |s.received|;
    ReaderStepInv(s);
    var s1 := ReaderNext(s);
    ReaderStepInv(s1);
    Distance(|s.received|, |s.sent|);
    var s2 := ReaderNext(s1);
    assert s2.reader == Draining(n, [], s.tail);
    DrainRest(s2, n);
  }

  lemma {:induction false} DrainRest(s: Ring, n: nat)
    requires Inv(s) && s.reader.Draining? && s.reader.available == |s.sent| - |s.received|
             && n == s.reader.available - |s.reader.buf|
    ensures var t := Drained(s, n + 1);
            t.received == s.sent && t.sent == s.sent && t.reader.Waiting?
    decreases n
  {
    ReaderStepInv(s);
    var s1 := ReaderNext(s);
    if n > 0 {
      DrainRest(s1, n - 1);
    } else {
      assert s.sent == s.sent[..|s.received|] + s.sent[|s.received|..];
      assert Drained(s1, 0) == s1;
    }
  }
}
