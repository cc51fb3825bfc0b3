/** What the run theorems ask of requests and leftovers, and that they have to:
    the exact condition under which an event ends the process, and the inputs
    outside the conditions that meet it. */
module Guards {
  import opened Text
  import opened StrMap
  import opened CmdObj
  import opened Bags
  import opened MsgQueue
  import opened Service
  import opened Dispatcher
  import opened Container
  import opened Answers
  import opened Protocol
  import opened Journey

  /** The command is answered at once, to a serial number, but its command number
      selects no queue. */
  predicate NoQueueFor(kind: int, pool: Pool, c: Cmd) {
    && c.iSvcSerialNo != 0 && c.iCmd !in {1, 2}
    && (if kind == 1 then c.iRet != UNFINISH_TASK_RET_FLAG else pool.stateless == map[])
  }

  /** ProcessMsg ends the process exactly if an answer names no sleeping handler, or
      if anything else has to be answered to a service that does not exist. */
  lemma ProcessCrashes(kind: int, pid: int, pool: Pool, qs: Queues, c: Cmd, r1: bool, r2: bool)
    requires PidOk(pid) && PoolOk(pid, kind, pool) && kind in {1, 2}
    ensures Process(kind, pid, pool, qs, c, r1, r2) == Crash <==>
              if c.iType == RESPONSE then c.iSvcSerialNo !in pool.stateful else NoQueueFor(kind, pool, c)
  {
    hide Dispatch, Printed, PutNested, LostNested, ByPid, ErrText, PoolOk;
    ProcessBranches(kind, pid, pool, qs, c, r1, r2);
    if c.iType == RESPONSE {
      DispatchResponse(pid, kind, pool, c);
    } else {
      DispatchRequest(pid, kind, pool, c);
      NoFreeHandler(pid, kind, pool, c);
    }
  }

  /** An event that takes an answer for nobody ends the process; so a leftover
      answer that names a process id in use must be shut out from the start. */
  lemma AnswerForNobody(s: Sys, pid: int, m: Msg, sees: Sees, r1: bool, r2: bool)
    requires sees.answer && FleetOk(s) && pid in s.fleet && Own(s.fleet[pid], s.qs) == [m] && m.lType == pid * 10 + APP
    requires Read(m).iType == RESPONSE && Read(m).iSvcSerialNo !in s.pools[pid].stateful
    ensures Enabled(s, Step.Container(pid, sees, r1, r2)) && Next(s, Step.Container(pid, sees, r1, r2)).crashed
  {
    hide Process, Parsed, PoolOk, SavedOk;
    var kind := s.fleet[pid];
    assert Own(kind, s.qs)[1..] == [];
    ProcessCrashes(kind, pid, s.pools[pid], SetOwn(kind, s.qs, Removed([m], 0)), Read(m), r1, r2);
  }

  /** A request of the first service that arrives with a serial number is answered
      to that number, and the process of the first service which the number names
      ends; so a request must carry none. */
  lemma RequestWithSerial(s: Sys, p1: int, p: int, m: Msg)
    requires FleetOk(s) && p1 in s.fleet && p in s.fleet && s.fleet[p1] == 1 && s.fleet[p] == 1
    requires s.qs.c1 == [m] && m.lType == REQUEST
    requires var c := Read(m);
             && c.iCmd == 1 && c.iType == REQUEST && c.iRet == 0 && IpOk(c.sClientIp)
             && c.iSvcSerialNo != 0 && TruncDiv(c.iSvcSerialNo, 100) == p
    ensures var one := Step.Container(p1, BOTH, true, true); var two := Step.Container(p, BOTH, true, true);
            && Enabled(s, one) && !(Next(s, one).crashed && !s.crashed)
            && Enabled(Next(s, one), two) && Next(Next(s, one), two).crashed
  {
    hide Parsed, Printed, Process, PoolOk, SavedOk, Enabled, Next;
    var c, qs := Read(m), s.qs.(c1 := []);
    var d := c.(sData := "resp1=r1", iType := RESPONSE);
    var a := AppAnswer(d);
    PoolFacts(s, p1);
    AnsweredToSerial(p1, s.pools[p1], qs, c);
    ReadAppAnswer(d);
    assert SetOwn(1, s.qs, []) == qs;
    ContainerStep(s, p1, m, s.pools[p1], qs.(c1 := [a]));
    var s1 := Next(s, Step.Container(p1, BOTH, true, true));
    SamePools(s.pools, p1);
    FirstNeverSleeps(s, p);
    AnswerForNobody(s1, p, a, BOTH, true, true);
  }

  lemma PoolFacts(s: Sys, p: int)
    requires FleetOk(s) && p in s.fleet
    ensures PidOk(p) && PoolOk(p, s.fleet[p], s.pools[p])
  {
    hide SavedOk, PoolOk;
  }

  lemma FirstNeverSleeps(s: Sys, p: int)
    requires FleetOk(s) && p in s.fleet && s.fleet[p] == 1
    ensures s.pools[p].stateful == map[]
  {
    hide SavedOk;
    assert PoolOk(p, 1, s.pools[p]);
  }

  lemma AnsweredToSerial(pid: int, pool: Pool, qs: Queues, c: Cmd)
    requires PidOk(pid) && PoolOk(pid, 1, pool) && c.iType != RESPONSE && c.iRet == 0
    requires c.iSvcSerialNo != 0 && c.iCmd == 1 && qs.c1 == []
    ensures var d := c.(sData := "resp1=r1", iType := RESPONSE);
            Process(1, pid, pool, qs, c, true, true) == Ran(pool, qs.(c1 := [AppAnswer(d)]), [])
  {
    hide Dispatch, AppAnswer, PoolOk;
    DispatchRequest(pid, 1, pool, c);
    NoFreeHandler(pid, 1, pool, c);
    ProcessBranches(1, pid, pool, qs, c, true, true);
    var a := AppAnswer(c.(sData := "resp1=r1", iType := RESPONSE));
    assert [] + [a] == [a];
  }

  /** A request of the first service that arrives with the unfinished mark is never
      answered, and leaves a pool that no longer serves: its handler is filed as
      sleeping but has returned. */
  lemma RequestWithUnfinishedMark(pid: int, pool: Pool, qs: Queues, c: Cmd, r1: bool, r2: bool)
    requires PidOk(pid) && PoolOk(pid, 1, pool) && c.iType != RESPONSE && c.iRet == UNFINISH_TASK_RET_FLAG
    ensures var fired := Process(1, pid, pool, qs, c, r1, r2);
            fired.Ran? && fired.qs == qs && fired.lost == [] && !PoolOk(pid, 1, fired.pool)
  {
    hide Dispatch;
    DispatchRequest(pid, 1, pool, c);
    DispatchKeepsPool(pid, 1, pool, c);
    NoFreeHandler(pid, 1, pool, c);
    ProcessBranches(1, pid, pool, qs, c, r1, r2);
  }

  // ---------------------------------------------------------------- from the client's text

  /** A text that a client may send: any command without data. */
  function TextOf(serial: int32, ret: int32): string {
    Header(DEFAULT_CMD.(iCmd := 1, iSvcSerialNo := serial, iRet := ret))
  }

  /** What CTcpNetHandler::DoRecv puts into the queue for a text. */
  function InQueue(fd: int32, family: int32, ip: string, port: int32, buf: string): Msg {
    Msg(REQUEST, Printed(Forwarded(fd, family, ip, port, buf), BUF_SIZE))
  }

  lemma TextIsForwarded(fd: int32, family: int32, ip: string, port: int32, serial: int32, ret: int32)
    requires IpOk(ip)
    ensures var c := Read(InQueue(fd, family, ip, port, TextOf(serial, ret)));
            c.iCmd == 1 && c.iType == REQUEST && c.iRet == ret && c.iSvcSerialNo == serial && IpOk(c.sClientIp)
  {
    hide Parsed, Printed, Header, IpOk;
    ReadHeader(DEFAULT_CMD.(iCmd := 1, iSvcSerialNo := serial, iRet := ret));
    ReadForwarded(Forwarded(fd, family, ip, port, TextOf(serial, ret)));
  }

  /** A client's text with a serial number ends the process of the first service
      that the number names, two events after netio has forwarded it. */
  lemma TextWithSerial(s: Sys, p1: int, p: int, fd: int32, family: int32, ip: string, port: int32, n: int32)
    requires FleetOk(s) && p1 in s.fleet && p in s.fleet && s.fleet[p1] == 1 && s.fleet[p] == 1 && s.qs.c1 == []
    requires IpOk(ip) && n != 0 && TruncDiv(n, 100) == p
    ensures var m := InQueue(fd, family, ip, port, TextOf(n, 0));
            var s0 := s.(qs := s.qs.(c1 := [m]));
            var one, two := Step.Container(p1, BOTH, true, true), Step.Container(p, BOTH, true, true);
            Enabled(s0, one) && Enabled(Next(s0, one), two) && Next(Next(s0, one), two).crashed
  {
    hide Parsed, Printed, InQueue, TextOf, IpOk, Next, PoolOk, SavedOk, TruncDiv;
    var m := InQueue(fd, family, ip, port, TextOf(n, 0));
    TextIsForwarded(fd, family, ip, port, n, 0);
    QueuedType(fd, family, ip, port, TextOf(n, 0));
    RequestWithSerial(s.(qs := s.qs.(c1 := [m])), p1, p, m);
  }

  lemma QueuedType(fd: int32, family: int32, ip: string, port: int32, buf: string)
    ensures InQueue(fd, family, ip, port, buf).lType == REQUEST
  {
  }

  /** A client's text with the unfinished mark takes a handler of the first service
      away, with the first event that takes it. */
  lemma TextWithUnfinishedMark(pid: int, pool: Pool, qs: Queues, fd: int32, family: int32, ip: string, port: int32,
                               r1: bool, r2: bool)
    requires PidOk(pid) && PoolOk(pid, 1, pool) && IpOk(ip)
    ensures var c := Read(InQueue(fd, family, ip, port, TextOf(0, UNFINISH_TASK_RET_FLAG)));
            var fired := Process(1, pid, pool, qs, c, r1, r2);
            fired.Ran? && fired.qs == qs && fired.lost == [] && !PoolOk(pid, 1, fired.pool)
  {
    hide Parsed, Printed, InQueue, TextOf, Process, PoolOk, IpOk;
    TextIsForwarded(fd, family, ip, port, 0, UNFINISH_TASK_RET_FLAG);
    var c := Read(InQueue(fd, family, ip, port, TextOf(0, UNFINISH_TASK_RET_FLAG)));
    RequestWithUnfinishedMark(pid, pool, qs, c, r1, r2);
  }

  /** A client's text without a command reads as command 0, at which netio stops;
      so a request must have one. */
  lemma TextWithoutCommand(buf: string)
    requires NoPair(Split(buf, '&'), "cmd")
    ensures Parsed(DEFAULT_CMD, buf).iCmd == 0 && !WellFormed(buf)
  {
    hide Parsed, NoPair, FirstPair;
    FieldsOfText(DEFAULT_CMD, buf);
  }

  /** The PHP client's requests are well formed. */
  lemma ClientTextIsWellFormed(n: int32, pid: int, i: int)
    ensures WellFormed(Entry("cmd", Itoa(n)) + "&" + (Entry("pid", Itoa(pid)) + "&" + Entry("i", Itoa(i)))) <==>
            n in {1, 2}
  {
    hide Parsed;
    ReadClientText(n, pid, i);
  }
}
