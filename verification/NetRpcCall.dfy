/** A whole call, from the worker's request to the result it reads back: the protocol of shared
    cells does what calling the handler directly would. */
module NetRpcCall {
  import opened Words
  import opened NetRpc
  import P = NetRpcProof

  /** n accesses of the worker, and n of the host. */
  function Works(s: System, n: nat): (t: System)
    requires |s.cells| == PAYLOAD + DATA_SIZE
    ensures |t.cells| == PAYLOAD + DATA_SIZE
    decreases n
  {
    if n == 0 then s else Works(WorkerNext(s), n - 1)
  }

  function Hosts(s: System, result: int, data: seq<int>, n: nat): (t: System)
    requires |s.cells| == PAYLOAD + DATA_SIZE
    ensures |t.cells| == PAYLOAD + DATA_SIZE
    decreases n
  {
    if n == 0 then s else Hosts(HostNext(s, result, data), result, data, n - 1)
  }

  lemma {:induction false} HostsSplit(s: System, result: int, data: seq<int>, a: nat, b: nat)
    requires |s.cells| == PAYLOAD + DATA_SIZE
    ensures Hosts(s, result, data, a + b) == Hosts(Hosts(s, result, data, a), result, data, b)
    decreases a
  {
    if a > 0 { HostsSplit(HostNext(s, result, data), result, data, a - 1, b); }
  }

  /** Three stretches of the host one after the other. */
  lemma {:induction false} HostsChain(s: System, s1: System, s2: System, s3: System, result: int, data: seq<int>,
                                      a: nat, b: nat, c: nat)
    requires |s.cells| == |s1.cells| == |s2.cells| == PAYLOAD + DATA_SIZE
    requires Hosts(s, result, data, a) == s1 && Hosts(s1, result, data, b) == s2 && Hosts(s2, result, data, c) == s3
    ensures Hosts(s, result, data, a + b + c) == s3
  {
    HostsSplit(s, result, data, a + b, c);
    HostsSplit(s, result, data, a, b);
  }

  /** The worker writes its request and hands the cells over. */
  lemma {:induction false} WriteAll(s: System, r: Message, k: nat, n: nat)
    requires s.worker == Writing(r, k) && n == |r| - k && HoldsRequest(s.cells, r, k)
    ensures var t := Works(s, n + 1);
            t == s.(cells := t.cells, worker := Waiting(r)) && t.cells[LOCK] == 1 && HoldsRequest(t.cells, r, |r|)
    decreases n
  {
    var s1 := WorkerNext(s);
    if n > 0 {
      P.WriteRequestCell(s.cells, r, k);
      WriteAll(s1, r, k + 1, n - 1);
    } else {
      P.LockKeepsRequest(s.cells, r, k, 1);
      assert Works(s1, 0) == s1;
    }
  }

  /** The host fetches it and handles it. */
  lemma {:induction false} FetchAll(s: System, r: Message, got: Message, result: int, data: seq<int>, n: nat)
    requires s.host == Fetching(got) && HoldsRequest(s.cells, r, |r|) && Prefix(got, r) && n == |r| - |got|
    ensures var (ss, m) := Handle(s.sockets, r, result, data);
            Hosts(s, result, data, n + 1)
            == s.(host := Answering(m, 0), sockets := ss, handled := s.handled + [Exchange(r, m)])
    decreases n
  {
    P.ReadRequestCell(s.cells, r, got);
    var s1 := HostNext(s, result, data);
    if n > 0 { FetchAll(s1, r, s1.host.got, result, data, n - 1); } else { assert Hosts(s1, result, data, 0) == s1; }
  }

  /** The host writes its answer and hands the cells back. */
  lemma {:induction false} AnswerAll(s: System, m: Message, k: nat, result: int, data: seq<int>, n: nat)
    requires s.host == Answering(m, k) && n == |m| - k && HoldsResponse(s.cells, m, k)
    ensures var t := Hosts(s, result, data, n + 1);
            t == s.(cells := t.cells, host := Polling) && t.cells[LOCK] == 2 && HoldsResponse(t.cells, m, |m|)
    decreases n
  {
    var s1 := HostNext(s, result, data);
    if n > 0 { AnswerAll(s1, m, k + 1, result, data, n - 1); } else { assert Hosts(s1, result, data, 0) == s1; }
  }

  /** The worker reads it. */
  lemma {:induction false} ReadAll(s: System, r: Message, m: Message, got: Message, n: nat)
    requires s.worker == Reading(r, got) && HoldsResponse(s.cells, m, |m|) && Prefix(got, m) && n == |m| - |got|
    ensures var t := Works(s, n + 1);
            t == s.(cells := t.cells, worker := Idle, completed := s.completed + [Exchange(r, m)])
    decreases n
  {
    P.ReadResponseCell(s.cells, m, got);
    var s1 := WorkerNext(s);
    if n > 0 { ReadAll(s1, r, m, s1.worker.got, n - 1); } else { assert Works(s1, 0) == s1; }
  }

  // ---- the three parts ----

  lemma {:induction false} Polled(s: System, result: int, data: seq<int>, n: nat)
    requires |s.cells| == PAYLOAD + DATA_SIZE && s.host.Polling? && s.cells[LOCK] == 1 && n == 1
    ensures Hosts(s, result, data, n) == s.(host := Fetching([]))
  {
    assert Hosts(HostNext(s, result, data), result, data, n - 1) == HostNext(s, result, data);
  }

  /** From the poll that finds the request to the poll after the answer. */
  lemma {:induction false} HostAnswers(s: System, r: Message, ss: Sockets, m: Message, result: int, data: seq<int>)
    returns (t: System)
    requires s.host.Polling? && HoldsRequest(s.cells, r, |r|) && s.cells[LOCK] == 1
    requires Handle(s.sockets, r, result, data) == (ss, m)
    ensures Hosts(s, result, data, 1 + (|r| + 1) + (|m| + 1)) == t
    ensures t == s.(cells := t.cells, sockets := ss, handled := s.handled + [Exchange(r, m)])
    ensures t.cells[LOCK] == 2 && HoldsResponse(t.cells, m, |m|)
  {
    var one := 1;
    Polled(s, result, data, one);
    var s1 := s.(host := Fetching([]));
    FetchAll(s1, r, [], result, data, |r|);
    var s2 := s1.(host := Answering(m, 0), sockets := ss, handled := s.handled + [Exchange(r, m)]);
    P.HandleAnswers(s.sockets, r, result, data);
    AnswerAll(s2, m, 0, result, data, |m|);
    t := Hosts(s2, result, data, |m| + 1);
    HostsChain(s, s1, s2, t, result, data, one, |r| + 1, |m| + 1);
  }

  /** From the answer to the next call. */
  lemma {:induction false} WorkerGets(s: System, r: Message, m: Message)
    requires s.worker == Waiting(r) && HoldsResponse(s.cells, m, |m|) && s.cells[LOCK] == 2
    ensures var t := Works(s, |m| + 2);
            t == s.(cells := t.cells, worker := Idle, completed := s.completed + [Exchange(r, m)])
  {
    var s1 := s.(worker := Reading(r, []));
    assert WorkerNext(s) == s1;
    ReadAll(s1, r, m, [], |m|);
  }

  /** The worker writes, the host answers, the worker reads. */
  function Called(s: System, a: nat, result: int, data: seq<int>, b: nat, c: nat): System
    requires |s.cells| == PAYLOAD + DATA_SIZE
  {
    Works(Hosts(Works(s, a), result, data, b), c)
  }

  lemma {:induction false} CalledIs(s: System, s1: System, s2: System, result: int, data: seq<int>,
                                    a: nat, b: nat, c: nat)
    requires |s.cells| == |s1.cells| == |s2.cells| == PAYLOAD + DATA_SIZE
    requires Works(s, a) == s1 && Hosts(s1, result, data, b) == s2
    ensures Called(s, a, result, data, b, c) == Works(s2, c)
  {
  }

  /** A call that is not disturbed gives the worker the handler's answer to its request, with the
      sockets as the handler leaves them, and everything is ready for the next call. */
  lemma {:induction false} CallCompletes(s: System, e: Event, result: int, data: seq<int>, r: Message, ss: Sockets,
                                         m: Message)
    requires Enabled(s, e) && e.Call? && s.host.Polling?
    requires r == [e.op, e.fd, e.arg1, e.arg2, Min(|e.data|, 65472)] + e.data[..Min(|e.data|, 65472)]
    requires Handle(s.sockets, r, result, data) == (ss, m)
    ensures var t := Called(Step(s, e), |r| + 1, result, data, 1 + (|r| + 1) + (|m| + 1), |m| + 2);
            t == s.(cells := t.cells, sockets := ss, handled := s.handled + [Exchange(r, m)],
                    completed := s.completed + [Exchange(r, m)])
  {
    assert r == Request(e.op, e.fd, e.arg1, e.arg2, e.data) by { assert e.data[..|e.data|] == e.data; }
    var s0 := s.(worker := Writing(r, 0));
    assert Step(s, e) == s0;
    Completes(s0, result, data, r, ss, m);
  }

  lemma {:induction false} Completes(s: System, result: int, data: seq<int>, r: Message, ss: Sockets, m: Message)
    requires s.worker == Writing(r, 0) && s.host.Polling? && HoldsRequest(s.cells, r, 0)
    requires Handle(s.sockets, r, result, data) == (ss, m)
    ensures var t := Called(s, |r| + 1, result, data, 1 + (|r| + 1) + (|m| + 1), |m| + 2);
            t == s.(cells := t.cells, worker := Idle, sockets := ss, handled := s.handled + [Exchange(r, m)],
                    completed := s.completed + [Exchange(r, m)])
  {
    WriteAll(s, r, 0, |r|);
    var s1 := Works(s, |r| + 1);
    var s2 := HostAnswers(s1, r, ss, m, result, data);
    WorkerGets(s2, r, m);
    CalledIs(s, s1, s2, result, data, |r| + 1, 1 + (|r| + 1) + (|m| + 1), |m| + 2);
  }
}
