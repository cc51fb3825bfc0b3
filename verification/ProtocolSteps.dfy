/** Every step keeps the invariant of the protocol. */
module ProtocolSteps {
  import opened Text
  import opened StrMap
  import opened IntOrder
  import opened CmdObj
  import opened Bags
  import opened MsgQueue
  import opened Service
  import opened Dispatcher
  import opened Container
  import opened Answers
  import opened Protocol

  // ---------------------------------------------------------------- the two ends

  lemma {:induction false} InitInv(s: Sys)
    requires Init(s)
    ensures Inv(s)
  {
    forall p | p in s.fleet ensures PoolOk(p, s.fleet[p], s.pools[p]) { FullPoolOk(p, s.fleet[p]); }
    MapBagEmpty(s.pools, AsleepIn);
    MapBagEmpty(s.pools, SavedBy);
  }

  /** What a container reads of a client's text: the connection it came from, the
      numbers that the text gives, and all its other pairs as data, unless the
      message buffer cuts them; a text of up to 790 characters is never cut. */
  lemma RequestArrives(fd: int32, family: int32, ip: string, port: int32, buf: string)
    requires IpOk(ip)
    ensures var f, p := Forwarded(fd, family, ip, port, buf), Parsed(DEFAULT_CMD, buf);
            var c := Read(Msg(REQUEST, Printed(f, BUF_SIZE)));
            && c.iFd == fd && c.ifamily == family && c.sClientIp == ip && c.iPort == port && c.iType == REQUEST
            && c.iCmd == p.iCmd && c.iRet == p.iRet && c.iSvcSerialNo == p.iSvcSerialNo && c.iIndex == p.iIndex
            && (|ToString(f)| < BUF_SIZE ==> c.sData == p.sData && PairMap(c.sData) == PairMap(buf) - RESERVED)
            && (|buf| <= 790 ==> |ToString(f)| < BUF_SIZE)
  {
    var f := Forwarded(fd, family, ip, port, buf);
    RoundTrip(DEFAULT_CMD, f);
    DataOfText(DEFAULT_CMD, buf);
    CanonMeaning(buf);
    HeaderShort(f);
    hide Parsed, Printed, Header, Canon, PairMap;
  }

  // ---------------------------------------------------------------- sums over all queues

  /** The queue an outgoing message is put on. */
  datatype Dest = ToBack | ToC1 | ToC2

  function PutTo(d: Dest, qs: Queues, m: Msg, room: bool): Queues {
    match d
    case ToBack => qs.(back := Put(qs.back, m, room))
    case ToC1 => qs.(c1 := Put(qs.c1, m, room))
    case ToC2 => qs.(c2 := Put(qs.c2, m, room))
  }

  ghost function Everywhere<U>(qs: Queues, lost: seq<Msg>, f: Msg -> multiset<U>): multiset<U> {
    Bag(qs.back, f) + Bag(qs.c1, f) + Bag(qs.c2, f) + Bag(lost, f)
  }

  /** A message put on a queue is on the queue or among the lost ones. */
  lemma PutBalance<U>(q: seq<Msg>, m: Msg, room: bool, lost: seq<Msg>, f: Msg -> multiset<U>)
    ensures Bag(Put(q, m, room), f) + Bag(lost + Unput(m, room), f) == Bag(q, f) + Bag(lost, f) + f(m)
    ensures forall x | x in Put(q, m, room) :: x in q || x == m
  {
    BagAppend(q, m, f);
    BagAppend(lost, m, f);
    assert lost + [] == lost;
  }

  lemma Exchange<U>(a: multiset<U>, b: multiset<U>, c: multiset<U>, l: multiset<U>,
                    a': multiset<U>, l': multiset<U>, x: multiset<U>)
    requires a' + l' == a + l + x
    ensures a' + b + c + l' == a + b + c + l + x
    ensures b + a' + c + l' == b + a + c + l + x
    ensures b + c + a' + l' == b + c + a + l + x
  {
    forall e ensures a'[e] + l'[e] == a[e] + l[e] + x[e] {
      assert (a' + l')[e] == (a + l + x)[e];
    }
  }

  lemma PutToEverywhere<U>(d: Dest, qs: Queues, m: Msg, room: bool, lost: seq<Msg>, f: Msg -> multiset<U>)
    ensures Everywhere(PutTo(d, qs, m, room), lost + Unput(m, room), f) == Everywhere(qs, lost, f) + f(m)
  {
    var b, c1, c2, l := Bag(qs.back, f), Bag(qs.c1, f), Bag(qs.c2, f), Bag(lost, f);
    var l' := Bag(lost + Unput(m, room), f);
    match d
    case ToBack =>
      PutBalance(qs.back, m, room, lost, f);
      Exchange(b, c1, c2, l, Bag(Put(qs.back, m, room), f), l', f(m));
    case ToC1 =>
      PutBalance(qs.c1, m, room, lost, f);
      Exchange(c1, b, c2, l, Bag(Put(qs.c1, m, room), f), l', f(m));
    case ToC2 =>
      PutBalance(qs.c2, m, room, lost, f);
      Exchange(c2, b, c1, l, Bag(Put(qs.c2, m, room), f), l', f(m));
  }

  lemma TakeEverywhere<U>(kind: int, qs: Queues, i: nat, lost: seq<Msg>, f: Msg -> multiset<U>)
    requires i < |Own(kind, qs)|
    ensures var q := Own(kind, qs);
            Everywhere(SetOwn(kind, qs, Removed(q, i)), lost, f) + f(q[i]) == Everywhere(qs, lost, f)
  {
    BagRemoved(Own(kind, qs), i, f);
  }

  lemma {:induction false} NoSerials(q: seq<Msg>)
    requires forall m | m in q :: SerialIn(m) == multiset{}
    ensures Bag(q, SerialIn) == multiset{}
  {
    if q != [] { NoSerials(q[1..]); }
  }

  /** The two balances, said of all queues at once. */
  lemma Balances(s: Sys)
    requires MessagesOk(s)
    ensures CallsBalance(s) <==> Everywhere(s.qs, s.lost, SerialIn) == Asleep(s) + s.stray
    ensures ClientsBalance(s) <==>
              Everywhere(s.qs, s.lost, ClientIn) + Saved(s) + Bag(s.delivered, ClientIn) == s.accepted
  {
    hide Parsed;
    NoSerials(s.qs.back);
    assert Calls(s) + LostCalls(s) == Everywhere(s.qs, s.lost, SerialIn);
    assert Queued(s) + Saved(s) + Answered(s) + LostClients(s) ==
           Everywhere(s.qs, s.lost, ClientIn) + Saved(s) + Bag(s.delivered, ClientIn);
  }

  /** A well-formed client request joins the queue of its command, or is lost. */
  lemma RequestJoins(s: Sys, kind: int, m: Msg, room: bool, s': Sys)
    requires Inv(s) && kind in {1, 2} && m.lType == REQUEST && ClientRequest(Read(m), kind)
    requires s' == s.(qs := SetOwn(kind, s.qs, Put(Own(kind, s.qs), m, room)),
                      accepted := s.accepted + multiset{ClientOf(Read(m))}, lost := s.lost + Unput(m, room))
    ensures Inv(s')
  {
    hide Parsed, Bag, Everywhere, CallsBalance, ClientsBalance;
    var d := if kind == 1 then ToC1 else ToC2;
    assert s'.qs == PutTo(d, s.qs, m, room);
    PutToEverywhere(d, s.qs, m, room, s.lost, SerialIn);
    PutToEverywhere(d, s.qs, m, room, s.lost, ClientIn);
    assert MessagesOk(s');
    Balances(s);
    Balances(s');
  }

  lemma RequestKeepsInv(s: Sys, st: Step)
    requires Inv(s) && st.Request? && Enabled(s, st)
    ensures Inv(Next(s, st))
  {
    hide Parsed, Printed, Inv;
    var c := Forwarded(st.fd, st.family, st.ip, st.port, st.buf);
    ReadForwarded(c);
    RequestJoins(s, c.iCmd, Msg(REQUEST, Printed(c, BUF_SIZE)), st.room, Next(s, st));
  }

  lemma DeliverKeepsInv(s: Sys, st: Step)
    requires Inv(s) && st.Deliver? && Enabled(s, st)
    ensures Inv(Next(s, st))
  {
    var i := FirstOf(s.qs.back, RESPONSE);
    var s' := Next(s, st);
    BagRemoved(s.qs.back, i, ClientIn);
    BagAppend(s.delivered, s.qs.back[i], ClientIn);
    assert Answered(s') == Answered(s);
  }

  // ---------------------------------------------------------------- container events

  ghost predicate GoodTo(d: Dest, fleet: map<int, int>, m: Msg) {
    match d
    case ToBack => GoodBack(fleet, m)
    case ToC1 => GoodC1(m)
    case ToC2 => GoodC2(m)
  }

  /** What an event that took a message does: exactly one message goes out, and
      what came in (a serial number, a client) is what went out or was saved. */
  datatype Move = Move(pool: Pool, how: How, dest: Dest, out: Msg, room: bool)

  /** What happens to the handlers: nothing, one falls asleep, or one wakes up and finishes. */
  datatype How = Stays | Starts(k: int32) | Wakes(k: int32)

  /** The answer of a command is the command itself, but for its type, data and
      return value. */
  ghost predicate IsAnswerOf(m: Msg, c: Cmd) {
    Read(m) == c.(iType := RESPONSE, iRet := Read(m).iRet, sData := Read(m).sData)
  }

  /** A handler falls asleep with the request it was entered with; one that wakes
      up sends the request that it saved back as the answer; otherwise the command
      itself is sent back. */
  ghost predicate PoolMoves(pid: int, pool: Pool, c: Cmd, v: Move) {
    match v.how
    case Stays => v.pool == pool && IsAnswerOf(v.out, c)
    case Starts(k) =>
      && ClientRequest(c, 2) && k !in pool.stateful
      && v.pool == Pool(pool.stateless - {k}, pool.stateful[k := Suspended(c)])
    case Wakes(k) =>
      && k in pool.stateful && pool.stateful[k].Suspended?
      && v.pool == Pool(pool.stateless[k := Fresh], pool.stateful - {k})
      && v.dest == ToBack && IsAnswerOf(v.out, pool.stateful[k].obj3)
      && Read(v.out).iRet == 0 && Read(v.out).sData == ByPid("resp1=r1&resp2=r2", pid)
  }

  /** m is the error answer of a process of the second service whose handlers are
      all suspended. */
  ghost predicate Refuses(s: Sys, pid: int, m: Msg) {
    && pid in s.fleet && pid in s.pools && s.fleet[pid] == 2 && s.pools[pid].stateless == map[]
    && Read(m).iCmd == 2 && Read(m).iRet == NO_FREE_SVC_HANDLER
    && Read(m).sData == ByPid(ErrText(NO_FREE_SVC_HANDLER), pid)
  }

  ghost predicate IsMove(s: Sys, pid: int, m: Msg, qs: Queues, fired: Fired, v: Move)
    requires pid in s.pools && pid in s.fleet
  {
    && fired == Ran(v.pool, PutTo(v.dest, qs, v.out, v.room), Unput(v.out, v.room))
    && GoodTo(v.dest, s.fleet, v.out)
    && PoolMoves(pid, s.pools[pid], Read(m), v)
    && (Read(v.out).iRet != 0 ==> Refuses(s, pid, v.out))
    && PoolOk(pid, s.fleet[pid], v.pool) && SavedOk(v.pool)
    && AsleepIn(pid, v.pool) + SerialIn(m) == AsleepIn(pid, s.pools[pid]) + SerialIn(v.out)
    && SavedBy(pid, v.pool) + ClientIn(v.out) == SavedBy(pid, s.pools[pid]) + ClientIn(m)
  }

  /** The first service answers a client. */
  lemma FirstAnswersClient(s: Sys, pid: int, m: Msg, qs: Queues, r1: bool, r2: bool) returns (v: Move)
    requires FleetOk(s) && pid in s.fleet && s.fleet[pid] == 1 && ClientRequest(Read(m), 1)
    ensures IsMove(s, pid, m, qs, Process(1, pid, s.pools[pid], qs, Read(m), r1, r2), v)
  {
    hide Parsed, Printed;
    var pool, c := s.pools[pid], Read(m);
    NoFreeHandler(pid, 1, pool, c);
    DispatchRequest(pid, 1, pool, c);
    var d := c.(sData := "resp1=r1", iType := RESPONSE);
    ReadFinalAnswer(d, pid);
    v := Move(pool, Stays, ToBack, FinalAnswer(d, pid), r2);
    assert [] + Unput(v.out, r2) == Unput(v.out, r2);
    assert GoodBody(s.fleet, Read(v.out));
  }

  /** The first service answers a nested request of the second. */
  lemma FirstAnswersCall(s: Sys, pid: int, n: int32, qs: Queues, r1: bool, r2: bool) returns (v: Move)
    requires FleetOk(s) && pid in s.fleet && s.fleet[pid] == 1 && n != 0
    ensures var m := NestedRequest(n); IsMove(s, pid, m, qs, Process(1, pid, s.pools[pid], qs, Read(m), r1, r2), v)
  {
    var m := NestedRequest(n);
    ReadNestedRequest(n);
    var pool, c := s.pools[pid], Read(m);
    NoFreeHandler(pid, 1, pool, c);
    DispatchRequest(pid, 1, pool, c);
    var d := c.(sData := "resp1=r1", iType := RESPONSE);
    ReadAppAnswer(d);
    v := Move(pool, Stays, ToC2, AppAnswer(d), r2);
    assert [] + Unput(v.out, r2) == Unput(v.out, r2);
  }

  /** A handler that starts to sleep accounts for its client and its serial number. */
  lemma SleepBalance(pid: int, pool: Pool, k: int32, c: Cmd, pool': Pool)
    requires k in pool.stateless && k !in pool.stateful
    requires pool' == Pool(pool.stateless - {k}, pool.stateful[k := Suspended(c)])
    ensures AsleepIn(pid, pool') == AsleepIn(pid, pool) + multiset{k}
    ensures SavedBy(pid, pool') == SavedBy(pid, pool) + multiset{ClientOf(c)}
  {
    hide MapBag;
    MapBagSet(pool.stateful, k, Suspended(c), SavedIn);
    assert pool'.stateful.Keys == pool.stateful.Keys + {k};
    assert multiset(pool.stateful.Keys + {k}) == multiset(pool.stateful.Keys) + multiset{k};
  }

  /** A handler that wakes up gives both back. */
  lemma WakeBalance(pid: int, pool: Pool, k: int32, pool': Pool)
    requires k in pool.stateful && pool.stateful[k].Suspended?
    requires pool' == Pool(pool.stateless[k := Fresh], pool.stateful - {k})
    ensures AsleepIn(pid, pool) == AsleepIn(pid, pool') + multiset{k}
    ensures SavedBy(pid, pool) == SavedBy(pid, pool') + multiset{ClientOf(pool.stateful[k].obj3)}
  {
    hide MapBag;
    MapBagTake(pool.stateful, k, SavedIn);
    assert pool.stateful.Keys == pool'.stateful.Keys + {k};
    assert multiset(pool'.stateful.Keys + {k}) == multiset(pool'.stateful.Keys) + multiset{k};
  }

  /** The second service has no free handler. */
  lemma SecondRefusesClient(s: Sys, pid: int, m: Msg, qs: Queues, r1: bool, r2: bool) returns (v: Move)
    requires FleetOk(s) && pid in s.fleet && s.fleet[pid] == 2 && ClientRequest(Read(m), 2)
    requires s.pools[pid].stateless == map[]
    ensures IsMove(s, pid, m, qs, Process(2, pid, s.pools[pid], qs, Read(m), r1, r2), v)
  {
    hide Parsed, Printed;
    var pool, c := s.pools[pid], Read(m);
    DispatchRequest(pid, 2, pool, c);
    var d := c.(iRet := NO_FREE_SVC_HANDLER, sData := ErrText(NO_FREE_SVC_HANDLER));
    ReadFinalAnswer(d, pid);
    v := Move(pool, Stays, ToBack, FinalAnswer(d, pid), r2);
    assert [] + Unput(v.out, r2) == Unput(v.out, r2);
    assert GoodBody(s.fleet, Read(v.out));
  }

  /** The second service starts on a client request and sends its nested one. */
  lemma SecondTakesClient(s: Sys, pid: int, m: Msg, qs: Queues, r1: bool, r2: bool) returns (v: Move)
    requires FleetOk(s) && pid in s.fleet && s.fleet[pid] == 2 && ClientRequest(Read(m), 2)
    requires s.pools[pid].stateless != map[]
    ensures IsMove(s, pid, m, qs, Process(2, pid, s.pools[pid], qs, Read(m), r1, r2), v)
  {
    hide Parsed, Printed, MapBag;
    var pool, c := s.pools[pid], Read(m);
    DispatchRequest(pid, 2, pool, c);
    DispatchKeepsPool(pid, 2, pool, c);
    var k := Min(pool.stateless.Keys);
    assert IsIndex(pid, k);
    var pool' := Pool(pool.stateless - {k}, pool.stateful[k := Suspended(c)]);
    ReadNestedRequest(k);
    SleepBalance(pid, pool, k, c, pool');
    v := Move(pool', Starts(k), ToC1, NestedRequest(k), r1);
    assert GoodC1(v.out);
    assert SerialIn(m) == multiset{} && SerialIn(v.out) == multiset{k};
    assert ClientIn(m) == multiset{ClientOf(c)} && ClientIn(v.out) == multiset{};
    assert SavedOk(pool');
    assert Process(2, pid, pool, qs, c, r1, r2) == Ran(pool', PutTo(ToC1, qs, v.out, r1), Unput(v.out, r1));
  }

  /** The event that finishes a sleeping request, and what it prints. */
  lemma FinishRuns(pid: int, pool: Pool, qs: Queues, c: Cmd, r1: bool, r2: bool)
    requires PidOk(pid) && PoolOk(pid, 2, pool) && SavedOk(pool) && c.iType == RESPONSE && c.sData == "resp1=r1"
    requires c.iSvcSerialNo in pool.stateful
    ensures var k, obj3 := c.iSvcSerialNo, pool.stateful[c.iSvcSerialNo].obj3;
            var pool' := Pool(pool.stateless[k := Fresh], pool.stateful - {k});
            var out := FinalAnswer(Finished(obj3, c), pid);
            && Process(2, pid, pool, qs, c, r1, r2) == Ran(pool', PutTo(ToBack, qs, out, r2), Unput(out, r2))
            && Read(out) == Finished(obj3, c).(sData := ByPid("resp1=r1&resp2=r2", pid), iType := RESPONSE)
            && out.lType == RESPONSE
  {
    hide Dispatch, Printed, Parsed, PoolOk, ByPid;
    DispatchResponse(pid, 2, pool, c);
    ProcessBranches(2, pid, pool, qs, c, r1, r2);
    var d := Finished(pool.stateful[c.iSvcSerialNo].obj3, c);
    assert d.sData == "resp1=r1&resp2=r2" by { assert "resp1=r1" + "&resp2=r2" == "resp1=r1&resp2=r2"; }
    ReadFinalAnswer(d, pid);
    assert [] + Unput(FinalAnswer(d, pid), r2) == Unput(FinalAnswer(d, pid), r2);
    hide Process;
  }

  /** The second service finishes a client request with the answer it waited for. */
  lemma SecondFinishesClient(s: Sys, pid: int, m: Msg, qs: Queues, r1: bool, r2: bool) returns (v: Move)
    requires FleetOk(s) && pid in s.fleet && s.fleet[pid] == 2
    requires Read(m).iType == RESPONSE && Read(m).sData == "resp1=r1"
    requires Read(m).iSvcSerialNo != 0 && Read(m).iSvcSerialNo in s.pools[pid].stateful
    ensures IsMove(s, pid, m, qs, Process(2, pid, s.pools[pid], qs, Read(m), r1, r2), v)
  {
    hide Parsed, Process, Dispatch, FinalAnswer, MapBag, ByPid, PutTo, Unput;
    var pool, c := s.pools[pid], Read(m);
    var k := c.iSvcSerialNo;
    var obj3 := pool.stateful[k].obj3;
    FinishRuns(pid, pool, qs, c, r1, r2);
    DispatchResponse(pid, 2, pool, c);
    DispatchKeepsPool(pid, 2, pool, c);
    var pool' := Pool(pool.stateless[k := Fresh], pool.stateful - {k});
    v := Move(pool', Wakes(k), ToBack, FinalAnswer(Finished(obj3, c), pid), r2);
    WakeBalance(pid, pool, k, pool');
    assert GoodBody(s.fleet, Read(v.out));
    assert SerialIn(m) == multiset{k} && SerialIn(v.out) == multiset{};
    assert ClientIn(m) == multiset{} && ClientIn(v.out) == multiset{ClientOf(obj3)};
    assert SavedOk(pool') && PoolOk(pid, 2, pool') && GoodTo(v.dest, s.fleet, v.out) && PoolMoves(pid, pool, c, v);
    hide SavedOk, PoolOk, GoodTo, PoolMoves, SerialIn, ClientIn;
  }

  // ---------------------------------------------------------------- one event keeps everything

  /** An outstanding serial number that is not left over names a sleeping handler
      of the process it encodes. */
  lemma SerialIsAsleep(s: Sys, n: int32)
    requires FleetOk(s) && CallsBalance(s) && n in Calls(s) && n !in s.stray
    ensures exists p :: p in s.fleet && IsIndex(p, n) && n in s.pools[p].stateful && TruncDiv(n, 100) == p
  {
    hide Calls, LostCalls, SavedOk;
    assert n in Asleep(s) by { assert (Calls(s) + LostCalls(s))[n] == (Asleep(s) + s.stray)[n]; }
    MapBagMember(s.pools, n, AsleepIn);
    var p :| p in s.pools && n in AsleepIn(p, s.pools[p]);
    assert PoolOk(p, s.fleet[p], s.pools[p]);
    assert n in s.pools[p].stateful && IsIndex(p, n);
  }

  lemma AnswerFindsItsHandler(s: Sys, pid: int, m: Msg)
    requires Inv(s) && pid in s.fleet && m in s.qs.c2 && m.lType == pid * 10 + APP
    ensures Read(m).iSvcSerialNo != 0 && Read(m).iType == RESPONSE && Read(m).sData == "resp1=r1"
    ensures Read(m).iSvcSerialNo in s.pools[pid].stateful
  {
    hide Parsed;
    var n := Read(m).iSvcSerialNo;
    BagHolds(s.qs.c2, m, SerialIn);
    assert n in Calls(s) by { assert Bag(s.qs.c2, SerialIn)[n] >= SerialIn(m)[n]; }
    SerialIsAsleep(s, n);
  }

  /** The event of a process finds nothing, or makes a move. */
  lemma EventMoves(s: Sys, pid: int, sees: Sees, r1: bool, r2: bool) returns (v: Move)
    requires Inv(s) && pid in s.fleet
    ensures var kind := s.fleet[pid];
            var q, i := Own(kind, s.qs), Chosen(kind, pid, s.qs, sees);
            var fired := Fire(kind, pid, s.pools[pid], s.qs, sees, r1, r2);
            if i == |q| then fired == Ran(s.pools[pid], s.qs, [])
            else IsMove(s, pid, q[i], SetOwn(kind, s.qs, Removed(q, i)), fired, v)
  {
    hide Parsed, IsMove, Process, MessagesOk, CallsBalance, ClientsBalance;
    var kind := s.fleet[pid];
    var q, i := Own(kind, s.qs), Chosen(kind, pid, s.qs, sees);
    v := Move(s.pools[pid], Stays, ToBack, Msg(0, ""), false);
    if i < |q| {
      var m, qs := q[i], SetOwn(kind, s.qs, Removed(q, i));
      assert m in q;
      if kind == 1 {
        FirstQueue(s, m);
        if ClientRequest(Read(m), 1) {
          v := FirstAnswersClient(s, pid, m, qs, r1, r2);
        } else {
          var n: int32 :| n != 0 && m == NestedRequest(n);
          v := FirstAnswersCall(s, pid, n, qs, r1, r2);
        }
      } else if m.lType == REQUEST {
        SecondQueue(s, m);
        if s.pools[pid].stateless == map[] {
          v := SecondRefusesClient(s, pid, m, qs, r1, r2);
        } else {
          v := SecondTakesClient(s, pid, m, qs, r1, r2);
        }
      } else {
        AnswerFindsItsHandler(s, pid, m);
        v := SecondFinishesClient(s, pid, m, qs, r1, r2);
      }
    }
  }

  lemma FirstQueue(s: Sys, m: Msg)
    requires Inv(s) && m in s.qs.c1
    ensures ClientRequest(Read(m), 1) || exists n: int32 :: n != 0 && m == NestedRequest(n)
  {
    hide Parsed, NestedRequest;
    assert GoodC1(m);
  }

  lemma SecondQueue(s: Sys, m: Msg)
    requires Inv(s) && m in s.qs.c2 && m.lType == REQUEST
    ensures ClientRequest(Read(m), 2)
  {
    hide Parsed, TruncDiv;
    assert GoodC2(m);
  }

  lemma Conserve<U>(e: multiset<U>, e': multiset<U>, p: multiset<U>, p': multiset<U>, a: multiset<U>, a': multiset<U>,
                    fm: multiset<U>, fo: multiset<U>, k: multiset<U>, d: multiset<U>, total: multiset<U>)
    requires e' + fm == e + fo && p' + a == p + a'
    ensures a' + fm == a + fo && e == p + k ==> e' == p' + k
    ensures a' + fo == a + fm && e + p + d == total ==> e' + p' + d == total
  {
    forall x ensures e'[x] + fm[x] == e[x] + fo[x] && p'[x] + a[x] == p[x] + a'[x] {
      assert (e' + fm)[x] == (e + fo)[x] && (p' + a)[x] == (p + a')[x];
    }
    if a' + fm == a + fo && e == p + k {
      forall x ensures e'[x] == (p' + k)[x] {
        assert (a' + fm)[x] == (a + fo)[x] && e[x] == (p + k)[x];
      }
    }
    if a' + fo == a + fm && e + p + d == total {
      forall x ensures (e' + p' + d)[x] == total[x] {
        assert (a' + fo)[x] == (a + fm)[x] && (e + p + d)[x] == total[x];
      }
    }
  }

  /** The queues after a move: what came in is gone, what goes out is there or lost. */
  lemma MoveEverywhere<U>(s: Sys, kind: int, i: nat, v: Move, f: Msg -> multiset<U>)
    requires i < |Own(kind, s.qs)|
    ensures var q := Own(kind, s.qs);
            Everywhere(PutTo(v.dest, SetOwn(kind, s.qs, Removed(q, i)), v.out, v.room),
                       s.lost + Unput(v.out, v.room), f) + f(q[i])
            == Everywhere(s.qs, s.lost, f) + f(v.out)
  {
    hide Everywhere, Bag;
    var q := Own(kind, s.qs);
    var qs := SetOwn(kind, s.qs, Removed(q, i));
    TakeEverywhere(kind, s.qs, i, s.lost, f);
    PutToEverywhere(v.dest, qs, v.out, v.room, s.lost, f);
  }

  lemma MoveMessages(s: Sys, kind: int, i: nat, v: Move, s': Sys)
    requires MessagesOk(s) && i < |Own(kind, s.qs)| && GoodTo(v.dest, s.fleet, v.out)
    requires s'.fleet == s.fleet && s'.delivered == s.delivered
    requires s'.qs == PutTo(v.dest, SetOwn(kind, s.qs, Removed(Own(kind, s.qs), i)), v.out, v.room)
    ensures MessagesOk(s')
  {
    hide GoodBack, GoodC1, GoodC2, Bag, SerialIn;
    var q := Own(kind, s.qs);
    var q' := Removed(q, i);
    BagRemoved(q, i, SerialIn);
    if kind == 1 {
      assert s'.qs == PutTo(v.dest, s.qs.(c1 := q'), v.out, v.room);
    } else {
      assert s'.qs == PutTo(v.dest, s.qs.(c2 := q'), v.out, v.room);
    }
  }

  lemma MoveKeepsInv(s: Sys, pid: int, sees: Sees, v: Move, s': Sys)
    requires Inv(s) && pid in s.fleet
    requires var kind := s.fleet[pid];
             var q, i := Own(kind, s.qs), Chosen(kind, pid, s.qs, sees);
             i < |q| && var qs := SetOwn(kind, s.qs, Removed(q, i));
             IsMove(s, pid, q[i], qs, Ran(v.pool, PutTo(v.dest, qs, v.out, v.room), Unput(v.out, v.room)), v)
             && s' == s.(pools := s.pools[pid := v.pool], qs := PutTo(v.dest, qs, v.out, v.room),
                         lost := s.lost + Unput(v.out, v.room))
    ensures Inv(s')
  {
    hide Parsed, Everywhere, MessagesOk, CallsBalance, ClientsBalance, GoodBack, GoodC1, GoodC2, SerialIn, ClientIn;
    hide PoolOk, PoolMoves, SavedOk, AsleepIn, SavedBy, PutTo, Put, Unput;
    var kind := s.fleet[pid];
    var q, i := Own(kind, s.qs), Chosen(kind, pid, s.qs, sees);
    MoveMessages(s, kind, i, v, s');
    Balances(s);
    Balances(s');
    MoveEverywhere(s, kind, i, v, SerialIn);
    MoveEverywhere(s, kind, i, v, ClientIn);
    MapBagSet(s.pools, pid, v.pool, AsleepIn);
    MapBagSet(s.pools, pid, v.pool, SavedBy);
    Conserve(Everywhere(s.qs, s.lost, SerialIn), Everywhere(s'.qs, s'.lost, SerialIn), Asleep(s), Asleep(s'),
             AsleepIn(pid, s.pools[pid]), AsleepIn(pid, v.pool), SerialIn(q[i]), SerialIn(v.out),
             s.stray, multiset{}, multiset{});
    Conserve(Everywhere(s.qs, s.lost, ClientIn), Everywhere(s'.qs, s'.lost, ClientIn), Saved(s), Saved(s'),
             SavedBy(pid, s.pools[pid]), SavedBy(pid, v.pool), ClientIn(q[i]), ClientIn(v.out), multiset{},
             Bag(s.delivered, ClientIn), s.accepted);
  }

  lemma ContainerKeepsInv(s: Sys, st: Step)
    requires Inv(s) && st.Container? && Enabled(s, st)
    ensures Inv(Next(s, st))
  {
    hide Inv, Fire, Chosen, GoodTo, PoolOk, PoolMoves, SavedOk, AsleepIn;
    hide SavedBy, SerialIn, ClientIn, PutTo, Put, Unput;
    var kind := s.fleet[st.pid];
    var q, i := Own(kind, s.qs), Chosen(kind, st.pid, s.qs, st.sees);
    var v := EventMoves(s, st.pid, st.sees, st.roomNested, st.roomAnswer);
    if i == |q| {
      assert s.pools[st.pid := s.pools[st.pid]] == s.pools && s.lost + [] == s.lost;
      assert Next(s, st) == s;
    } else {
      MoveKeepsInv(s, st.pid, st.sees, v, Next(s, st));
    }
  }

  lemma NextKeepsFleet(s: Sys, st: Step)
    requires Enabled(s, st)
    ensures Next(s, st).fleet == s.fleet && Next(s, st).stray == s.stray
  {
    hide Fire, Parsed, Printed;
  }

  lemma NextKeepsInv(s: Sys, st: Step)
    requires Inv(s) && Enabled(s, st)
    ensures Inv(Next(s, st)) && Next(s, st).fleet == s.fleet && Next(s, st).stray == s.stray
  {
    hide Inv, Enabled, Next;
    NextKeepsFleet(s, st);
    match st
    case Request(_, _, _, _, _, _) => RequestKeepsInv(s, st);
    case Container(_, _, _, _) => ContainerKeepsInv(s, st);
    case Deliver => DeliverKeepsInv(s, st);
  }
}
