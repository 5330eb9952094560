/** The network RPC between the worker and the main thread, one shared-memory access at a
    time. */
module NetRpc {
  import opened Words

  const DATA_SIZE := 65472

  const SOCKET_CREATE := 1
  const RECV := 7
  const CLOSE := 8
  const HAS_DATA := 9
  const SETSOCKOPT := 11
  const GETSOCKOPT := 12
  const SHUTDOWN := 13
  const ENOSYS := -38

  /** Shared cells: the lock and six header words, then the payload bytes. */
  type Cells = seq<int>

  const LOCK := 0
  const PAYLOAD := 7

  /** A message as the list of values stored: a request is op, fd, arg1, arg2, length and
      data; a response is result, length and data. */
  type Message = seq<int>

  predicate IsRequest(m: Message) { |m| >= 5 && m[4] == |m| - 5 && m[4] <= DATA_SIZE }

  predicate IsResponse(m: Message) { |m| >= 2 && m[1] == |m| - 2 && m[1] <= DATA_SIZE }

  /** The cell of the k-th value: both sides go through a message in this order. */
  function RequestCell(k: nat): nat { if k < 4 then k + 1 else if k == 4 then 6 else PAYLOAD + (k - 5) }

  function ResponseCell(k: nat): nat { if k == 0 then 5 else if k == 1 then 6 else PAYLOAD + (k - 2) }

  // ---- the host's sockets ----

  /** Received and not yet read bytes per socket, with everything delivered to it and
      everything handed to the worker since its creation. */
  datatype Socket = Socket(buffer: seq<int>, delivered: seq<int>, returned: seq<int>)

  type Sockets = map<int, Socket>

  function Max0(a: int): nat { if a < 0 then 0 else a }

  function Truncated(data: seq<int>): seq<int> { if |data| <= DATA_SIZE then data else data[..DATA_SIZE] }

  function Response(result: int, data: seq<int>): Message { [result, |Truncated(data)|] + Truncated(data) }

  /** The RECV arm: take up to `max` bytes off the buffer. */
  function Recv(ss: Sockets, fd: int, max: int): (Sockets, Message) {
    if fd !in ss || ss[fd].buffer == [] then (ss, Response(0, []))
    else
      var s := ss[fd];
      var len := Min(max, |s.buffer|);
      var taken := s.buffer[..Max0(len)];
      (ss[fd := Socket(s.buffer[Max0(len)..], s.delivered, s.returned + Truncated(taken))], Response(len, taken))
  }

  /** _handleRPC. What the bridge answers to the other operations is a parameter. */
  function Handle(ss: Sockets, m: Message, result: int, data: seq<int>): (Sockets, Message)
    requires IsRequest(m)
  {
    var op, fd := m[0], m[1];
    if op == SOCKET_CREATE then (ss[fd := Socket([], [], [])], Response(0, []))
    else if op == RECV then Recv(ss, fd, m[2])
    else if op == HAS_DATA then (ss, Response(if fd in ss && ss[fd].buffer != [] then 1 else 0, []))
    else if op == CLOSE || op == SHUTDOWN then (ss - {fd}, Response(result, []))
    else if op == SETSOCKOPT || op == GETSOCKOPT then (ss, Response(0, []))
    else if op < SOCKET_CREATE || op > SHUTDOWN then (ss, Response(ENOSYS, []))
    else (ss, Response(result, data))
  }

  function KeysFrom(ss: Sockets, fd: int): set<int> { set k | k in ss && k >= fd }

  lemma {:induction false} FewerKeys(ss: Sockets, fd: int)
    requires fd in ss
    ensures |KeysFrom(ss, fd + 1)| < |KeysFrom(ss, fd)|
  {
    assert KeysFrom(ss, fd) == KeysFrom(ss, fd + 1) + {fd};
  }

  /** allocateFd: the first descriptor from `fd` on that is not in use. */
  function FreeFd(ss: Sockets, fd: int): (r: int)
    ensures r !in ss && fd <= r && forall k | fd <= k < r :: k in ss
    decreases |KeysFrom(ss, fd)|
  {
    if fd !in ss then fd else
      FewerKeys(ss, fd);
      FreeFd(ss, fd + 1)
  }

  // ---- the two programs ----

  datatype Worker =
    | Idle
    | Writing(request: Message, k: nat)
    | Waiting(request: Message)
    | Reading(request: Message, got: Message)

  datatype Host = Polling | Fetching(got: Message) | Answering(response: Message, k: nat)

  datatype Exchange = Exchange(request: Message, response: Message)

  /** `handled` lists what the host answered, `completed` what the worker got back. */
  datatype System = System(
    cells: Cells, worker: Worker, host: Host, sockets: Sockets, handled: seq<Exchange>, completed: seq<Exchange>)

  datatype Event =
    | Call(op: int, fd: int, arg1: int, arg2: int, data: seq<int>)
    | WorkerStep
    | HostStep(result: int, data: seq<int>)
    | Deliver(fd: int, bytes: seq<int>)
    | Accept

  function Request(op: int, fd: int, arg1: int, arg2: int, data: seq<int>): (m: Message)
    ensures IsRequest(m)
  {
    [op, fd, arg1, arg2, |Truncated(data)|] + Truncated(data)
  }

  /** A call starts when the worker is not in one; data and connections arrive between host
      tasks. */
  predicate Enabled(s: System, e: Event) {
    && |s.cells| == PAYLOAD + DATA_SIZE
    && (e.Call? ==> s.worker.Idle?)
    && (e.Deliver? || e.Accept? ==> s.host.Polling?)
  }

  predicate RequestRead(got: Message) { |got| >= 5 && |got| - 5 >= got[4] }

  predicate ResponseRead(got: Message) { |got| >= 2 && |got| - 2 >= got[1] }

  function WorkerNext(s: System): System
    requires |s.cells| == PAYLOAD + DATA_SIZE
  {
    match s.worker
    case Idle => s
    case Writing(r, k) =>
      if k < |r| && RequestCell(k) < |s.cells|
      then s.(cells := s.cells[RequestCell(k) := r[k]], worker := Writing(r, k + 1))
      else s.(cells := s.cells[LOCK := 1], worker := Waiting(r))
    case Waiting(r) => if s.cells[LOCK] == 2 then s.(worker := Reading(r, [])) else s
    case Reading(r, got) =>
      if !ResponseRead(got) && ResponseCell(|got|) < |s.cells|
      then s.(worker := Reading(r, got + [s.cells[ResponseCell(|got|)]]))
      else s.(cells := s.cells[LOCK := 0], worker := Idle, completed := s.completed + [Exchange(r, got)])
  }

  function HostNext(s: System, result: int, data: seq<int>): System
    requires |s.cells| == PAYLOAD + DATA_SIZE
  {
    match s.host
    case Polling => if s.cells[LOCK] == 1 then s.(host := Fetching([])) else s
    case Fetching(got) =>
      if !RequestRead(got) && RequestCell(|got|) < |s.cells|
      then s.(host := Fetching(got + [s.cells[RequestCell(|got|)]]))
      else if IsRequest(got) then
        var (sockets, response) := Handle(s.sockets, got, result, data);
        s.(host := Answering(response, 0), sockets := sockets, handled := s.handled + [Exchange(got, response)])
      else s
    case Answering(m, k) =>
      if k < |m| && ResponseCell(k) < |s.cells|
      then s.(cells := s.cells[ResponseCell(k) := m[k]], host := Answering(m, k + 1))
      else s.(cells := s.cells[LOCK := 2], host := Polling)
  }

  function Step(s: System, e: Event): System
    requires Enabled(s, e)
  {
    match e
    case Call(op, fd, arg1, arg2, data) => s.(worker := Writing(Request(op, fd, arg1, arg2, data), 0))
    case WorkerStep => WorkerNext(s)
    case HostStep(result, data) => HostNext(s, result, data)
    case Deliver(fd, bytes) =>
      if fd in s.sockets then
        var t := s.sockets[fd];
        s.(sockets := s.sockets[fd := t.(buffer := t.buffer + bytes, delivered := t.delivered + bytes)])
      else s
    case Accept => s.(sockets := s.sockets[FreeFd(s.sockets, 100) := Socket([], [], [])])
  }

  // ---- the invariant ----

  ghost predicate HoldsRequest(cells: Cells, m: Message, n: nat) {
    |cells| == PAYLOAD + DATA_SIZE && n <= |m| && IsRequest(m) && forall k | 0 <= k < n :: cells[RequestCell(k)] == m[k]
  }

  ghost predicate HoldsResponse(cells: Cells, m: Message, n: nat) {
    |cells| == PAYLOAD + DATA_SIZE && n <= |m| && IsResponse(m)
    && forall k | 0 <= k < n :: cells[ResponseCell(k)] == m[k]
  }

  predicate Prefix(got: Message, m: Message) { |got| <= |m| && m[..|got|] == got }

  /** The last exchange is answered and not yet read back. */
  ghost predicate Owing(s: System, request: Message, response: Message) {
    s.handled == s.completed + [Exchange(request, response)]
  }

  /** Who owns the cells: the worker while the lock is 0 or it reads under 2, the host from
      its poll under 1 until it sets 2. */
  ghost predicate Inv(s: System) {
    && |s.cells| == PAYLOAD + DATA_SIZE
    && match s.worker
       case Idle => s.cells[LOCK] == 0 && s.host.Polling? && s.handled == s.completed
       case Writing(r, k) =>
         s.cells[LOCK] == 0 && s.host.Polling? && s.handled == s.completed && HoldsRequest(s.cells, r, k)
       case Waiting(r) =>
         (match s.host
          case Polling =>
            if s.cells[LOCK] == 1 then s.handled == s.completed && HoldsRequest(s.cells, r, |r|)
            else s.cells[LOCK] == 2 && exists m :: Owing(s, r, m) && HoldsResponse(s.cells, m, |m|)
          case Fetching(got) =>
            s.cells[LOCK] == 1 && s.handled == s.completed && HoldsRequest(s.cells, r, |r|) && Prefix(got, r)
          case Answering(m, k) => s.cells[LOCK] == 1 && Owing(s, r, m) && HoldsResponse(s.cells, m, k))
       case Reading(r, got) =>
         s.cells[LOCK] == 2 && s.host.Polling?
         && exists m :: Owing(s, r, m) && HoldsResponse(s.cells, m, |m|) && Prefix(got, m)
  }
}
