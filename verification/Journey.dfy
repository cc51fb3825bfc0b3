/** A request of the second service on its way through an idle fleet: the whole
    path, step by step. */
module Journey {
  import opened Text
  import opened IntOrder
  import opened CmdObj
  import opened Bags
  import opened MsgQueue
  import opened Service
  import opened Dispatcher
  import opened Container
  import opened Answers
  import opened Protocol

  /** Nothing waits for a container, and both services are there. */
  ghost predicate Idle(s: Sys, p1: int, p2: int) {
    && FleetOk(s) && p1 in s.fleet && p2 in s.fleet && s.fleet[p1] == 1 && s.fleet[p2] == 2
    && s.qs.c1 == [] && s.qs.c2 == []
  }

  /** An event of a process that finds one message, of a type that it takes. */
  lemma EventOf(kind: int, pid: int, pool: Pool, qs: Queues, m: Msg)
    requires Own(kind, qs) == [m] && m.lType in {REQUEST, pid * 10 + APP}
    ensures Fire(kind, pid, pool, qs, BOTH, true, true) ==
            Process(kind, pid, pool, SetOwn(kind, qs, []), Read(m), true, true)
  {
    hide Process, Parsed;
    assert Removed([m], 0) == [];
    assert Own(kind, qs)[1..] == [];
  }

  /** The second service takes the request and sends its nested one. */
  lemma Taken(s: Sys, p2: int, qs: Queues, c: Cmd) returns (k: int32)
    requires FleetOk(s) && p2 in s.fleet && s.fleet[p2] == 2 && ClientRequest(c, 2) && qs.c1 == []
    requires s.pools[p2].stateless != map[]
    ensures k in s.pools[p2].stateless && IsIndex(p2, k)
    ensures var pool := s.pools[p2];
            Process(2, p2, pool, qs, c, true, true) ==
            Ran(Pool(pool.stateless - {k}, pool.stateful[k := Suspended(c)]), qs.(c1 := [NestedRequest(k)]), [])
  {
    hide Dispatch, NestedRequest;
    k := Min(s.pools[p2].stateless.Keys);
    DispatchRequest(p2, 2, s.pools[p2], c);
    assert [] + [NestedRequest(k)] == [NestedRequest(k)];
  }

  /** The first service answers the nested request to the process that asked. */
  lemma Called(s: Sys, p1: int, p2: int, qs: Queues, k: int32) returns (m: Msg)
    requires FleetOk(s) && p1 in s.fleet && s.fleet[p1] == 1 && PidOk(p2) && IsIndex(p2, k) && qs.c2 == []
    ensures Process(1, p1, s.pools[p1], qs, Read(NestedRequest(k)), true, true) == Ran(s.pools[p1], qs.(c2 := [m]), [])
    ensures m.lType == p2 * 10 + APP
    ensures Read(m) == DEFAULT_CMD.(iSvcSerialNo := k, iCmd := 2, sData := "resp1=r1", iType := RESPONSE)
  {
    hide Dispatch, Parsed, Printed;
    ReadNestedRequest(k);
    var c := DEFAULT_CMD.(iSvcSerialNo := k, iCmd := 2);
    DispatchRequest(p1, 1, s.pools[p1], c);
    NoFreeHandler(p1, 1, s.pools[p1], c);
    var d := c.(sData := "resp1=r1", iType := RESPONSE);
    ReadAppAnswer(d);
    m := AppAnswer(d);
    assert [] + [m] == [m];
    CalledSteps(s, p1, qs, c, d);
  }

  lemma CalledSteps(s: Sys, p1: int, qs: Queues, c: Cmd, d: Cmd)
    requires p1 in s.pools && Dispatch(1, s.pools[p1], c) == Back(s.pools[p1], d, 0, [])
    requires d.iSvcSerialNo != 0 && d.iCmd == 2 && qs.c2 == []
    ensures Process(1, p1, s.pools[p1], qs, c, true, true) == Ran(s.pools[p1], qs.(c2 := [AppAnswer(d)]), [])
  {
    hide AppAnswer;
    ProcessBranches(1, p1, s.pools[p1], qs, c, true, true);
    assert [] + [AppAnswer(d)] == [AppAnswer(d)];
  }

  /** The answer wakes the handler up, which sends the final answer. */
  lemma Woken(p2: int, pool: Pool, qs: Queues, c: Cmd, a: Cmd) returns (m: Msg)
    requires PidOk(p2) && PoolOk(p2, 2, pool) && ClientRequest(c, 2)
    requires a.iType == RESPONSE && a.sData == "resp1=r1"
    requires a.iSvcSerialNo in pool.stateful && pool.stateful[a.iSvcSerialNo] == Suspended(c)
    ensures var k := a.iSvcSerialNo;
            Process(2, p2, pool, qs, a, true, true) ==
            Ran(Pool(pool.stateless[k := Fresh], pool.stateful - {k}), qs.(back := qs.back + [m]), [])
    ensures m.lType == RESPONSE && Read(m).iRet == 0
    ensures Read(m) == c.(sData := ByPid("resp1=r1&resp2=r2", p2), iType := RESPONSE)
  {
    hide Dispatch, Parsed, Printed;
    DispatchResponse(p2, 2, pool, a);
    var d := Finished(c, a);
    assert d.sData == "resp1=r1&resp2=r2" by { assert "resp1=r1" + "&resp2=r2" == "resp1=r1&resp2=r2"; }
    ReadFinalAnswer(d, p2);
    m := FinalAnswer(d, p2);
    ProcessBranches(2, p2, pool, qs, a, true, true);
  }

  function Serve(p1: int, p2: int, request: Step): seq<Step> {
    [request, Step.Container(p2, BOTH, true, true), Step.Container(p1, BOTH, true, true),
     Step.Container(p2, BOTH, true, true)]
  }

  /** The event of process p, when its queue holds one message that it takes. */
  lemma ContainerStep(s: Sys, p: int, m: Msg, pool: Pool, qs: Queues)
    requires p in s.fleet && p in s.pools && Own(s.fleet[p], s.qs) == [m] && m.lType in {REQUEST, p * 10 + APP}
    requires Process(s.fleet[p], p, s.pools[p], SetOwn(s.fleet[p], s.qs, []), Read(m), true, true) == Ran(pool, qs, [])
    ensures var st := Step.Container(p, BOTH, true, true);
            Enabled(s, st) && Next(s, st) == s.(pools := s.pools[p := pool], qs := qs)
  {
    hide Process, Parsed, Fire, Own, SetOwn;
    EventOf(s.fleet[p], p, s.pools[p], s.qs, m);
    assert s.lost + [] == s.lost;
  }

  lemma RequestStep(s: Sys, request: Step) returns (m: Msg)
    requires request.Request? && request.room && Enabled(s, request) && s.qs.c2 == []
    requires Forwarded(request.fd, request.family, request.ip, request.port, request.buf).iCmd == 2
    ensures var s1 := Next(s, request); s1 == s.(qs := s.qs.(c2 := [m]), accepted := s1.accepted)
    ensures m.lType == REQUEST && ClientRequest(Read(m), 2)
    ensures var c := Forwarded(request.fd, request.family, request.ip, request.port, request.buf);
            Read(m) == c.(sData := Read(m).sData)
  {
    hide Parsed, Printed;
    var c := Forwarded(request.fd, request.family, request.ip, request.port, request.buf);
    ReadForwarded(c);
    m := Msg(REQUEST, Printed(c, BUF_SIZE));
    Appended(s, m);
  }

  /** Main result: in an idle fleet with a free handler, every request of the
      second service is answered after one event each of the second, the first
      and again the second container; the answer carries the client and the
      combined body, and all pools are as they were. */
  lemma IdleFleetServes(s: Sys, p1: int, p2: int, request: Step) returns (tr: seq<Sys>, m: Msg)
    requires Idle(s, p1, p2) && s.pools[p2].stateless != map[]
    requires request.Request? && request.room && Enabled(s, request)
    requires Forwarded(request.fd, request.family, request.ip, request.port, request.buf).iCmd == 2
    ensures Path(tr, Serve(p1, p2, request)) && tr[0] == s
    ensures var c := Forwarded(request.fd, request.family, request.ip, request.port, request.buf);
            && Read(m) == c.(sData := ByPid("resp1=r1&resp2=r2", p2), iType := RESPONSE) && Read(m).iRet == 0
            && tr[4].qs == s.qs.(back := s.qs.back + [m]) && tr[4].pools == s.pools && tr[4].lost == s.lost
            && tr[4].crashed == s.crashed
  {
    hide Parsed, Process, NestedRequest, PoolOk, SavedOk, Enabled, Next, ClientRequest, Forwarded, ByPid, IsIndex;
    var m1 := RequestStep(s, request);
    var s1 := Next(s, request);
    var c1, pool := Read(m1), s.pools[p2];

    var k := Taken(s, p2, s.qs, c1);
    PoolFacts(s, p2, k);
    var pool2 := Pool(pool.stateless - {k}, pool.stateful[k := Suspended(c1)]);
    assert SetOwn(2, s1.qs, []) == s.qs;
    ContainerStep(s1, p2, m1, pool2, s.qs.(c1 := [NestedRequest(k)]));
    var s2 := Next(s1, Step.Container(p2, BOTH, true, true));

    NestedType(k);
    OthersPool(s.pools, p2, pool2, p1);
    var a := Called(s, p1, p2, s.qs, k);
    assert SetOwn(1, s2.qs, []) == s.qs;
    ContainerStep(s2, p1, NestedRequest(k), s.pools[p1], s.qs.(c2 := [a]));
    var s3 := Next(s2, Step.Container(p1, BOTH, true, true));
    SamePools(s2.pools, p1);

    PoolAfterTaking(p2, pool, k, c1);
    m := Woken(p2, pool2, s.qs, c1, Read(a));
    assert SetOwn(2, s3.qs, []) == s.qs;
    Restored(s.pools, p2, pool, k, Suspended(c1));
    ContainerStep(s3, p2, a, pool, s.qs.(back := s.qs.back + [m]));
    var s4 := Next(s3, Step.Container(p2, BOTH, true, true));
    tr := [s, s1, s2, s3, s4];
  }

  lemma PoolFacts(s: Sys, p: int, k: int32)
    requires FleetOk(s) && p in s.fleet && k in s.pools[p].stateless
    ensures PidOk(p) && PoolOk(p, s.fleet[p], s.pools[p])
    ensures s.pools[p].stateless[k] == Fresh && k !in s.pools[p].stateful
  {
    hide SavedOk;
  }

  lemma OthersPool(pools: map<int, Pool>, p: int, pool: Pool, q: int)
    requires p != q && q in pools
    ensures q in pools[p := pool] && pools[p := pool][q] == pools[q]
  {
  }

  lemma Appended(s: Sys, m: Msg)
    ensures [] + [m] == [m] && s.lost + [] == s.lost
  {
  }

  lemma NestedType(k: int32)
    ensures NestedRequest(k).lType == REQUEST
  {
  }

  lemma SamePools(pools: map<int, Pool>, p: int)
    requires p in pools
    ensures pools[p := pools[p]] == pools
  {
  }

  lemma PoolAfterTaking(pid: int, pool: Pool, k: int32, c: Cmd)
    requires PoolOk(pid, 2, pool) && k in pool.stateless
    ensures PoolOk(pid, 2, Pool(pool.stateless - {k}, pool.stateful[k := Suspended(c)]))
  {
  }

  lemma Restored(pools: map<int, Pool>, p: int, pool: Pool, k: int32, c: Context)
    requires p in pools && pools[p] == pool && k in pool.stateless && pool.stateless[k] == Fresh && k !in pool.stateful
    ensures Pool((pool.stateless - {k})[k := Fresh], pool.stateful[k := c] - {k}) == pool
    ensures pools[p := Pool(pool.stateless - {k}, pool.stateful[k := c])][p := pool] == pools
  {
    assert (pool.stateless - {k})[k := Fresh] == pool.stateless;
    assert pool.stateful[k := c] - {k} == pool.stateful;
  }

  /** A process of the first service answers a request at once. */
  lemma FirstServes(pid: int, pool: Pool, qs: Queues, c: Cmd) returns (m: Msg)
    requires PidOk(pid) && PoolOk(pid, 1, pool) && ClientRequest(c, 1)
    ensures Process(1, pid, pool, qs, c, true, true) == Ran(pool, qs.(back := qs.back + [m]), [])
    ensures m.lType == RESPONSE && Read(m) == c.(sData := ByPid("resp1=r1", pid), iType := RESPONSE)
  {
    hide Dispatch, PoolOk, Printed, Parsed;
    DispatchRequest(pid, 1, pool, c);
    NoFreeHandler(pid, 1, pool, c);
    ProcessBranches(1, pid, pool, qs, c, true, true);
    var d := c.(sData := "resp1=r1", iType := RESPONSE);
    ReadFinalAnswer(d, pid);
    m := FinalAnswer(d, pid);
    assert [] + Unput(m, true) == [];
  }

  /** A request of the first service and the event of a process that answers it,
      when all queues are empty. */
  lemma FirstAnswers(s: Sys, p: int, request: Step) returns (m: Msg)
    requires FleetOk(s) && p in s.fleet && s.fleet[p] == 1 && s.qs == Queues([], [], [])
    requires request.Request? && request.room && Enabled(s, request)
    requires Forwarded(request.fd, request.family, request.ip, request.port, request.buf).iCmd == 1
    ensures var s1, st := Next(s, request), Step.Container(p, BOTH, true, true);
            Enabled(s1, st) && Next(s1, st).qs == Queues([m], [], [])
    ensures m.lType == RESPONSE && Read(m).sData == ByPid("resp1=r1", p) && FirstOf([m], RESPONSE) == 0
    ensures ClientOf(Read(m)) == ClientOf(Forwarded(request.fd, request.family, request.ip, request.port, request.buf))
  {
    hide Parsed, Printed, Process, PoolOk, SavedOk, IpOk;
    var c := Forwarded(request.fd, request.family, request.ip, request.port, request.buf);
    ReadForwarded(c);
    var r := Msg(REQUEST, Printed(c, BUF_SIZE));
    Appended(s, r);
    var s1 := Next(s, request);
    assert s1.qs == Queues([], [r], []) && s1.pools == s.pools && s1.fleet == s.fleet;
    hide Forwarded, Next, Enabled;
    assert FleetOk(s1);
    assert PoolOk(p, 1, s.pools[p]) && PidOk(p);
    m := FirstServes(p, s.pools[p], Queues([], [], []), Read(r));
    assert [] + [m] == [m];
    ContainerStep(s1, p, r, s.pools[p], Queues([m], [], []));
  }

  /** A fleet that has just started is idle; with IdleFleetServes, this gives a
      run on which a request is answered. */
  lemma StartIsIdle(s: Sys, p1: int, p2: int)
    requires Init(s) && s.qs.c1 == [] && s.qs.c2 == []
    requires p1 in s.fleet && p2 in s.fleet && s.fleet[p1] == 1 && s.fleet[p2] == 2
    ensures Idle(s, p1, p2) && s.pools[p2].stateless != map[]
  {
    forall p | p in s.fleet ensures PoolOk(p, s.fleet[p], s.pools[p]) { FullPoolOk(p, s.fleet[p]); }
    var k: int32 := p2 * 100;
    assert IsIndex(p2, k) && k in s.pools[p2].stateless;
  }

  /** Every fleet of processes with usable ids has a start. */
  lemma StartOf(fleet: map<int, int>) returns (s: Sys)
    requires forall p | p in fleet :: PidOk(p) && fleet[p] in {1, 2}
    ensures Init(s) && s.fleet == fleet && s.qs == Queues([], [], [])
  {
    s := Sys(fleet, map p | p in fleet :: FullPool(p), Queues([], [], []), multiset{}, [], [], false, multiset{});
  }

  /** There are runs that answer: every fleet with both services has one on which
      a given well-formed request of the second service gets the combined answer. */
  lemma SomeRunAnswers(fleet: map<int, int>, p1: int, p2: int, request: Step) returns (tr: seq<Sys>, m: Msg)
    requires forall p | p in fleet :: PidOk(p) && fleet[p] in {1, 2}
    requires p1 in fleet && p2 in fleet && fleet[p1] == 1 && fleet[p2] == 2
    requires request.Request? && request.room && IpOk(request.ip) && WellFormed(request.buf)
    requires Forwarded(request.fd, request.family, request.ip, request.port, request.buf).iCmd == 2
    ensures Run(tr, Serve(p1, p2, request)) && tr[0].fleet == fleet
    ensures var c := Forwarded(request.fd, request.family, request.ip, request.port, request.buf);
            && tr[4].qs == Queues([m], [], []) && tr[4].lost == []
            && Read(m) == c.(sData := ByPid("resp1=r1&resp2=r2", p2), iType := RESPONSE) && Read(m).iRet == 0
  {
    hide Idle, Parsed, WellFormed, Path;
    var s := StartOf(fleet);
    StartIsIdle(s, p1, p2);
    tr, m := IdleFleetServes(s, p1, p2, request);
    assert [] + [m] == [m];
  }
}
