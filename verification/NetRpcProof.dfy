/** Every interleaving: one owner at a time, one answer per request, no byte lost. */
module NetRpcProof {
  import opened Words
  import opened NetRpc

  // ---- reading and writing messages ----

  lemma {:induction false} WriteRequestCell(cells: Cells, m: Message, k: nat)
    requires HoldsRequest(cells, m, k) && k < |m|
    ensures RequestCell(k) < |cells| && HoldsRequest(cells[RequestCell(k) := m[k]], m, k + 1)
    ensures cells[RequestCell(k) := m[k]][LOCK] == cells[LOCK]
  {
  }

  lemma {:induction false} ReadRequestCell(cells: Cells, m: Message, got: Message)
    requires HoldsRequest(cells, m, |m|) && Prefix(got, m)
    ensures RequestRead(got) <==> got == m
    ensures got != m ==> RequestCell(|got|) < |cells| && Prefix(got + [cells[RequestCell(|got|)]], m)
  {
    if |got| == |m| { assert m[..|m|] == m; }
    if |got| >= 5 { assert got[4] == m[..|got|][4]; }
    if |got| < |m| { assert m[..|got| + 1] == m[..|got|] + [m[|got|]]; }
  }

  lemma {:induction false} ReadResponseCell(cells: Cells, m: Message, got: Message)
    requires HoldsResponse(cells, m, |m|) && Prefix(got, m)
    ensures ResponseRead(got) <==> got == m
    ensures got != m ==> ResponseCell(|got|) < |cells| && Prefix(got + [cells[ResponseCell(|got|)]], m)
  {
    if |got| == |m| { assert m[..|m|] == m; }
    if |got| >= 2 { assert got[1] == m[..|got|][1]; }
    if |got| < |m| { assert m[..|got| + 1] == m[..|got|] + [m[|got|]]; }
  }

  lemma {:induction false} LockKeepsRequest(cells: Cells, m: Message, n: nat, v: int)
    requires HoldsRequest(cells, m, n)
    ensures HoldsRequest(cells[LOCK := v], m, n)
  {
  }

  // ---- steps ----

  lemma {:induction false} WorkerInv(s: System)
    requires Inv(s)
    ensures Inv(WorkerNext(s))
  {
    match s.worker
    case Idle =>
    case Writing(r, k) =>
      if k < |r| { WriteRequestCell(s.cells, r, k); } else { LockKeepsRequest(s.cells, r, k, 1); }
    case Waiting(r) =>
      if s.cells[LOCK] == 2 {
        var m :| Owing(s, r, m) && HoldsResponse(s.cells, m, |m|);
        var s' := WorkerNext(s);
        assert Owing(s', r, m) && HoldsResponse(s'.cells, m, |m|) && Prefix([], m);
      }
    case Reading(r, got) => ReadingInv(s, r, got);
  }

  lemma {:induction false} ReadingInv(s: System, r: Message, got: Message)
    requires Inv(s) && s.worker == Reading(r, got)
    ensures Inv(WorkerNext(s))
  {
    var m :| Owing(s, r, m) && HoldsResponse(s.cells, m, |m|) && Prefix(got, m);
    ReadResponseCell(s.cells, m, got);
    var s' := WorkerNext(s);
    if got != m {
      var more := got + [s.cells[ResponseCell(|got|)]];
      assert s'.worker == Reading(r, more);
      assert Owing(s', r, m) && HoldsResponse(s'.cells, m, |m|) && Prefix(more, m);
    }
  }

  lemma {:induction false} HandleAnswers(ss: Sockets, m: Message, result: int, data: seq<int>)
    requires IsRequest(m)
    ensures IsResponse(Handle(ss, m, result, data).1)
  {
  }

  lemma {:induction false} HostInv(s: System, result: int, data: seq<int>)
    requires Inv(s)
    ensures Inv(HostNext(s, result, data))
  {
    match s.host
    case Polling =>
      if s.cells[LOCK] == 1 { assert Prefix([], s.worker.request); }
    case Fetching(got) => FetchingInv(s, got, result, data);
    case Answering(m, k) =>
      if k < |m| {
      } else {
        var s' := HostNext(s, result, data);
        assert Owing(s', s.worker.request, m) && HoldsResponse(s'.cells, m, |m|);
      }
  }

  lemma {:induction false} FetchingInv(s: System, got: Message, result: int, data: seq<int>)
    requires Inv(s) && s.host == Fetching(got)
    ensures Inv(HostNext(s, result, data))
  {
    var r := s.worker.request;
    ReadRequestCell(s.cells, r, got);
    if got == r { HandleAnswers(s.sockets, r, result, data); }
  }

  /** Every step of either side, and every delivery, keeps the invariant. */
  lemma {:induction false} StepInv(s: System, e: Event)
    requires Inv(s) && Enabled(s, e)
    ensures Inv(Step(s, e))
  {
    match e
    case Call(op, fd, arg1, arg2, data) =>
    case WorkerStep => WorkerInv(s);
    case HostStep(result, data) => HostInv(s, result, data);
    case _ => SocketsInv(s, Step(s, e));
  }

  /** The sockets are not shared. */
  lemma {:induction false} SocketsInv(s: System, s': System)
    requires Inv(s) && s' == s.(sockets := s'.sockets)
    ensures Inv(s')
  {
    assert forall r, m :: Owing(s, r, m) <==> Owing(s', r, m);
  }

  // ---- runs ----

  ghost predicate IsRun(s: System, es: seq<Event>)
    decreases |es|
  {
    es != [] ==> Enabled(s, es[0]) && IsRun(Step(s, es[0]), es[1..])
  }

  ghost function After(s: System, es: seq<Event>): System
    requires IsRun(s, es)
    decreases |es|
  {
    if es == [] then s else After(Step(s, es[0]), es[1..])
  }

  /** The shared buffer zeroed, nobody busy. */
  ghost predicate Initial(s: System) {
    && |s.cells| == PAYLOAD + DATA_SIZE && s.cells[LOCK] == 0 && s.worker.Idle? && s.host.Polling?
    && s.sockets == map[] && s.handled == [] && s.completed == []
  }

  lemma {:induction false} RunInv(s: System, es: seq<Event>)
    requires Inv(s) && IsRun(s, es)
    ensures Inv(After(s, es))
    decreases |es|
  {
    if es != [] {
      StepInv(s, es[0]);
      RunInv(Step(s, es[0]), es[1..]);
    }
  }

  /** In every reachable state the cells have one owner: while the worker writes a request or
      reads a response the host is polling and finds no request, and while the host reads or
      writes the worker only waits. */
  lemma {:induction false} OneOwner(s: System, es: seq<Event>)
    requires Initial(s) && IsRun(s, es)
    ensures var t := After(s, es);
            && |t.cells| == PAYLOAD + DATA_SIZE
            && ((t.worker.Writing? || t.worker.Reading?) ==> t.host.Polling? && t.cells[LOCK] != 1)
            && (!t.host.Polling? ==> t.worker.Waiting? && t.cells[LOCK] == 1)
  {
    RunInv(s, es);
  }

  /** Each request is answered exactly once and each answer read belongs to the request just
      sent: what the worker completed is what the host handled, but for at most the one
      exchange in progress. */
  lemma {:induction false} AnsweredOnce(s: System, es: seq<Event>)
    requires Initial(s) && IsRun(s, es)
    ensures var t := After(s, es);
            && (t.worker.Idle? || t.worker.Writing? ==> t.completed == t.handled)
            && (t.completed == t.handled || (!t.worker.Idle? && exists m :: Owing(t, t.worker.request, m)))
  {
    RunInv(s, es);
    var t := After(s, es);
    if t.completed != t.handled { InProgress(t); }
  }

  lemma {:induction false} InProgress(t: System)
    requires Inv(t) && t.completed != t.handled
    ensures !t.worker.Idle? && exists m :: Owing(t, t.worker.request, m)
  {
    if t.host.Answering? {
      assert Owing(t, t.worker.request, t.host.response);
    }
  }

  /** A request the host handles is the one the worker is waiting on, unchanged. */
  lemma {:induction false} HandlesWhatWasSent(s: System, e: Event)
    requires Inv(s) && Enabled(s, e) && Step(s, e).handled != s.handled
    ensures s.worker.Waiting? && exists m :: Step(s, e).handled == s.handled + [Exchange(s.worker.request, m)]
  {
    if e.HostStep? && s.host.Fetching? {
      ReadRequestCell(s.cells, s.worker.request, s.host.got);
    }
  }

  // ---- the byte stream ----

  /** What was handed out and what is left is what was delivered, in order. */
  ghost predicate Conserved(t: Socket) { t.returned + t.buffer == t.delivered }

  ghost predicate AllConserved(ss: Sockets) { forall fd | fd in ss :: Conserved(ss[fd]) }

  /** A read conserves the stream exactly when what it takes fits the payload. */
  lemma {:induction false} RecvExact(ss: Sockets, fd: int, max: int)
    requires fd in ss && Conserved(ss[fd])
    ensures Conserved(Recv(ss, fd, max).0[fd]) <==> Min(max, |ss[fd].buffer|) <= DATA_SIZE
  {
    var s := ss[fd];
    if s.buffer != [] {
      var n := Max0(Min(max, |s.buffer|));
      var taken, left := s.buffer[..n], s.buffer[n..];
      assert taken + left == s.buffer;
      assert s.returned + (taken + left) == s.returned + taken + left;
      if n > DATA_SIZE { assert |s.returned + Truncated(taken) + left| < |s.delivered|; }
    }
  }

  /** A read returns at most what was asked for, from the front of the buffer. */
  lemma {:induction false} RecvFront(ss: Sockets, fd: int, max: int)
    requires fd in ss && 0 <= max <= DATA_SIZE
    ensures var (ss', m) := Recv(ss, fd, max);
            var n := Min(max, |ss[fd].buffer|);
            && m == [n, n] + ss[fd].buffer[..n] && ss'[fd].buffer == ss[fd].buffer[n..]
            && ss'[fd].returned == ss[fd].returned + ss[fd].buffer[..n]
  {
    assert ss[fd].buffer == [] ==> ss[fd].returned + [] == ss[fd].returned;
  }

  lemma {:induction false} HandleConserves(ss: Sockets, m: Message, result: int, data: seq<int>)
    requires IsRequest(m) && AllConserved(ss) && (m[0] == RECV ==> m[2] <= DATA_SIZE)
    ensures AllConserved(Handle(ss, m, result, data).0)
  {
    if m[0] == RECV && m[1] in ss { RecvExact(ss, m[1], m[2]); }
  }

  /** Every call in the run asks for at most the payload size. */
  ghost predicate FittingReads(es: seq<Event>) {
    forall k | 0 <= k < |es| :: es[k].Call? && es[k].op == RECV ==> es[k].arg1 <= DATA_SIZE
  }

  predicate FittingMessage(m: Message) { |m| > 2 && m[0] == RECV ==> m[2] <= DATA_SIZE }

  ghost predicate FittingRequest(s: System) { !s.worker.Idle? ==> FittingMessage(s.worker.request) }

  lemma {:induction false} RequestFits(s: System, e: Event)
    requires Enabled(s, e) && FittingRequest(s) && (e.Call? && e.op == RECV ==> e.arg1 <= DATA_SIZE)
    ensures FittingRequest(Step(s, e))
  {
  }

  lemma {:induction false} HostConserves(s: System, result: int, data: seq<int>)
    requires Inv(s) && AllConserved(s.sockets) && FittingRequest(s)
    ensures AllConserved(HostNext(s, result, data).sockets)
  {
    if s.host.Fetching? {
      ReadRequestCell(s.cells, s.worker.request, s.host.got);
      if s.host.got == s.worker.request { HandleConserves(s.sockets, s.host.got, result, data); }
    }
  }

  lemma {:induction false} DeliverConserves(s: System, fd: int, bytes: seq<int>)
    requires Enabled(s, Deliver(fd, bytes)) && AllConserved(s.sockets)
    ensures AllConserved(Step(s, Deliver(fd, bytes)).sockets)
  {
    if fd in s.sockets {
      var t := s.sockets[fd];
      assert t.returned + (t.buffer + bytes) == t.returned + t.buffer + bytes;
    }
  }

  lemma {:induction false} StepConserves(s: System, e: Event)
    requires Inv(s) && Enabled(s, e) && AllConserved(s.sockets) && FittingRequest(s)
    ensures AllConserved(Step(s, e).sockets)
  {
    match e
    case Call(op, fd, arg1, arg2, data) =>
    case WorkerStep =>
    case HostStep(result, data) => HostConserves(s, result, data);
    case Deliver(fd, bytes) => DeliverConserves(s, fd, bytes);
    case Accept =>
  }

  lemma {:induction false} RunConserves(s: System, es: seq<Event>)
    requires Inv(s) && IsRun(s, es) && AllConserved(s.sockets) && FittingRequest(s) && FittingReads(es)
    ensures AllConserved(After(s, es).sockets)
    decreases |es|
  {
    if es != [] {
      StepConserves(s, es[0]);
      RequestFits(s, es[0]);
      StepInv(s, es[0]);
      RunConserves(Step(s, es[0]), es[1..]);
    }
  }

  // ---- what the worker reads ----

  /** The bytes an exchange log hands out on a descriptor since it was last opened or closed. */
  function ReadOn(log: seq<Exchange>, fd: int): seq<int> {
    if log == [] then []
    else
      var before, e := ReadOn(log[..|log| - 1], fd), log[|log| - 1];
      if |e.request| < 2 || |e.response| < 2 || e.request[1] != fd then before
      else if e.request[0] in {SOCKET_CREATE, CLOSE, SHUTDOWN} then []
      else if e.request[0] == RECV then before + e.response[2..]
      else before
  }

  /** The log accounts for everything the sockets have handed out. */
  ghost predicate Logged(s: System) {
    forall fd :: ReadOn(s.handled, fd) == if fd in s.sockets then s.sockets[fd].returned else []
  }

  lemma {:induction false} ReadOnLast(log: seq<Exchange>, e: Exchange, fd: int)
    ensures ReadOn(log + [e], fd)
         == var before := ReadOn(log, fd);
            if |e.request| < 2 || |e.response| < 2 || e.request[1] != fd then before
            else if e.request[0] in {SOCKET_CREATE, CLOSE, SHUTDOWN} then []
            else if e.request[0] == RECV then before + e.response[2..] else before
  {
    assert (log + [e])[..|log|] == log;
  }

  lemma {:induction false} HandleLogs(ss: Sockets, m: Message, result: int, data: seq<int>, log: seq<Exchange>, fd: int)
    requires IsRequest(m) && ReadOn(log, fd) == if fd in ss then ss[fd].returned else []
    ensures var (ss', r) := Handle(ss, m, result, data);
            ReadOn(log + [Exchange(m, r)], fd) == if fd in ss' then ss'[fd].returned else []
  {
    var (ss', r) := Handle(ss, m, result, data);
    ReadOnLast(log, Exchange(m, r), fd);
    if m[0] == RECV && m[1] == fd { RecvLogs(ss, fd, m[2]); }
  }

  /** What a read adds to the record of a socket is the data of its response. */
  lemma {:induction false} RecvLogs(ss: Sockets, fd: int, max: int)
    ensures var (ss', r) := Recv(ss, fd, max);
            && |r| >= 2 && (fd in ss <==> fd in ss')
            && (if fd in ss then ss'[fd].returned == ss[fd].returned + r[2..] else r[2..] == [])
  {
    if fd in ss && ss[fd].buffer == [] { assert ss[fd].returned + [] == ss[fd].returned; }
  }

  lemma {:induction false} StepLogs(s: System, e: Event)
    requires Enabled(s, e) && Logged(s)
    ensures Logged(Step(s, e))
  {
    var s' := Step(s, e);
    if e.HostStep? && s'.handled != s.handled {
      forall fd ensures ReadOn(s'.handled, fd) == if fd in s'.sockets then s'.sockets[fd].returned else [] {
        HandleLogs(s.sockets, s.host.got, e.result, e.data, s.handled, fd);
      }
    } else {
      SocketsLog(s, s');
    }
  }

  lemma {:induction false} SocketsLog(s: System, s': System)
    requires Logged(s) && s'.handled == s.handled
    requires forall fd | fd in s.sockets :: fd in s'.sockets && s'.sockets[fd].returned == s.sockets[fd].returned
    requires forall fd | fd in s'.sockets && fd !in s.sockets :: s'.sockets[fd].returned == []
    ensures Logged(s')
  {
  }

  lemma {:induction false} RunLogs(s: System, es: seq<Event>)
    requires IsRun(s, es) && Logged(s)
    ensures Logged(After(s, es))
    decreases |es|
  {
    if es != [] {
      StepLogs(s, es[0]);
      RunLogs(Step(s, es[0]), es[1..]);
    }
  }

  /** Over every run from the start whose reads ask for at most 65472 bytes, the data of the
      responses on an open descriptor, followed by its buffer, is what was delivered to it,
      in order; and between calls those responses are the ones the worker has read. */
  lemma {:induction false} StreamConserved(s: System, es: seq<Event>)
    requires Initial(s) && IsRun(s, es) && FittingReads(es)
    ensures var t := After(s, es);
            forall fd | fd in t.sockets ::
              && ReadOn(t.handled, fd) + t.sockets[fd].buffer == t.sockets[fd].delivered
              && (t.worker.Idle? || t.worker.Writing?
                  ==> ReadOn(t.completed, fd) + t.sockets[fd].buffer == t.sockets[fd].delivered)
  {
    RunConserves(s, es);
    RunLogs(s, es);
    AnsweredOnce(s, es);
    assert forall fd | fd in After(s, es).sockets :: Conserved(After(s, es).sockets[fd]);
  }

  // ---- what is in the shared cells, and what is answered ----

  /** When the host finds a request, the shared words hold the operation, the descriptor, the two
      arguments and the length of the data, in words 1 to 4 and 6, and the data follow. */
  lemma {:induction false} RequestLaid(s: System, es: seq<Event>)
    requires Initial(s) && IsRun(s, es)
    ensures var t := After(s, es);
            |t.cells| == 65479 && (t.worker.Waiting? && t.host.Polling? && t.cells[0] == 1 ==>
              var r := t.worker.request;
              && |r| >= 5 && r[4] == |r| - 5 <= 65472 && t.cells[1..5] == r[..4] && t.cells[6] == r[4]
              && t.cells[7..7 + r[4]] == r[5..])
  {
    RunInv(s, es);
    var t := After(s, es);
    if t.worker.Waiting? && t.host.Polling? && t.cells[0] == 1 {
      var r := t.worker.request;
      forall k | 1 <= k < 5 ensures t.cells[k] == r[k - 1] { assert t.cells[RequestCell(k - 1)] == r[k - 1]; }
      assert t.cells[RequestCell(4)] == r[4];
      forall k | 5 <= k < |r| ensures t.cells[k + 2] == r[k] { assert t.cells[RequestCell(k)] == r[k]; }
      forall j | 0 <= j < r[4] ensures t.cells[7..7 + r[4]][j] == r[5..][j] { assert t.cells[(j + 5) + 2] == r[j + 5]; }
    }
  }

  /** When the worker finds a response, word 5 holds the result and word 6 the length of the
      data that follow, of the answer to its own request. */
  lemma {:induction false} ResponseLaid(s: System, es: seq<Event>)
    requires Initial(s) && IsRun(s, es)
    ensures var t := After(s, es);
            t.worker.Waiting? && |t.cells| > 0 && t.cells[0] == 2 ==>
              |t.handled| > 0 && var m := t.handled[|t.handled| - 1].response;
              && t.handled[|t.handled| - 1].request == t.worker.request
              && |m| >= 2 && m[1] == |m| - 2 <= 65472 && |t.cells| == 65479
              && t.cells[5] == m[0] && t.cells[6] == m[1] && t.cells[7..7 + m[1]] == m[2..]
  {
    RunInv(s, es);
    var t := After(s, es);
    if t.worker.Waiting? && t.cells[0] == 2 {
      var m :| Owing(t, t.worker.request, m) && HoldsResponse(t.cells, m, |m|);
      assert t.handled[|t.handled| - 1] == Exchange(t.worker.request, m);
      ResponseCells(t.cells, m);
    }
  }

  lemma {:induction false} ResponseCells(cells: Cells, m: Message)
    requires HoldsResponse(cells, m, |m|)
    ensures |m| >= 2 && m[1] == |m| - 2 <= 65472 && |cells| == 65479
    ensures cells[5] == m[0] && cells[6] == m[1] && cells[7..7 + m[1]] == m[2..]
  {
    assert cells[ResponseCell(0)] == m[0] && cells[ResponseCell(1)] == m[1];
    forall k | 2 <= k < |m| ensures cells[k + 5] == m[k] { assert cells[ResponseCell(k)] == m[k]; }
    forall j | 0 <= j < m[1] ensures cells[7..7 + m[1]][j] == m[2..][j] { assert cells[(j + 2) + 5] == m[j + 2]; }
  }

  /** What the host answers, by operation: 1 opens an empty socket, 7 reads, 9 says whether there
      are data, 8 and 13 close, 11 and 12 succeed, other numbers fail with -ENOSYS. */
  lemma {:induction false} HandleExact(ss: Sockets, m: Message, result: int, data: seq<int>)
    requires IsRequest(m)
    ensures var (ss', r) := Handle(ss, m, result, data);
            && (m[0] == 1 ==> ss' == ss[m[1] := Socket([], [], [])] && r == [0, 0])
            && (m[0] == 7 && (m[1] !in ss || ss[m[1]].buffer == []) ==> ss' == ss && r == [0, 0])
            && (m[0] == 7 && m[1] in ss && 0 <= m[2] <= 65472 ==>
                  var n := Min(m[2], |ss[m[1]].buffer|);
                  r == [n, n] + ss[m[1]].buffer[..n] && ss'.Keys == ss.Keys && ss'[m[1]].buffer == ss[m[1]].buffer[n..])
            && (m[0] == 7 && m[1] in ss && ss[m[1]].buffer != [] && m[2] < 0 ==> ss' == ss && r == [m[2], 0])
            && (m[0] == 9 ==> ss' == ss && r == [if m[1] in ss && |ss[m[1]].buffer| > 0 then 1 else 0, 0])
            && (m[0] == 8 || m[0] == 13 ==> ss' == ss - {m[1]} && r == [result, 0])
            && (m[0] == 11 || m[0] == 12 ==> ss' == ss && r == [0, 0])
            && (m[0] < 1 || m[0] > 13 ==> ss' == ss && r == [-38, 0])
            && (2 <= m[0] <= 6 || m[0] == 10 ==> ss' == ss && r[0] == result && r[2..] == Truncated(data))
  {
    if m[0] == 7 && m[1] in ss && 0 <= m[2] <= 65472 { RecvFront(ss, m[1], m[2]); }
    if m[0] == 7 && m[1] in ss && ss[m[1]].buffer != [] && m[2] < 0 {
      var t := ss[m[1]];
      assert t.buffer[..0] == [] && t.buffer[0..] == t.buffer && t.returned + [] == t.returned;
      assert ss[m[1] := t] == ss;
    }
  }

  /** An accepted connection gets the first free descriptor from 100 on, and an empty socket. */
  lemma {:induction false} AcceptExact(s: System, fd: int)
    requires Enabled(s, Accept) && fd >= 100 && fd !in s.sockets && forall k | 100 <= k < fd :: k in s.sockets
    ensures Step(s, Accept) == s.(sockets := s.sockets[fd := Socket([], [], [])])
  {
  }
}
