/** The request protocol between netio and any number of container processes,
    over whole runs. Messages are the printed texts themselves: every process
    parses what another process printed. */
module Protocol {
  import opened Text
  import opened CmdObj
  import opened Bags
  import opened MsgQueue
  import opened Service
  import opened Dispatcher
  import opened Container

  // ---------------------------------------------------------------- states and steps

  /** Who asked, and what: the connection a request was read from and its command. */
  datatype Client = Client(fd: int32, family: int32, ip: string, port: int32, cmd: int32)

  function ClientOf(c: Cmd): Client { Client(c.iFd, c.ifamily, c.sClientIp, c.iPort, c.iCmd) }

  function Read(m: Msg): Cmd { Parsed(DEFAULT_CMD, m.sBuf) }

  /** The fleet gives each process id the service it runs. The last five fields
      are history: requests that netio read, answers that netio took, messages
      whose put failed, whether some process has crashed, and the serial numbers
      of calls that an earlier fleet left in the queues. */
  datatype Sys = Sys(fleet: map<int, int>, pools: map<int, Pool>, qs: Queues,
                     accepted: multiset<Client>, delivered: seq<Msg>, lost: seq<Msg>, crashed: bool,
                     stray: multiset<int32>)

  datatype Step =
    | Request(fd: int32, family: int32, ip: string, port: int32, buf: string, room: bool)
    | Container(pid: int, sees: Sees, roomNested: bool, roomAnswer: bool)
    | Deliver

  /** What CTcpNetHandler::DoRecv makes of the text read from a connection. */
  function Forwarded(fd: int32, family: int32, ip: string, port: int32, buf: string): Cmd {
    Parsed(DEFAULT_CMD, buf).(iFd := fd, ifamily := family, sClientIp := ip, iPort := port, iType := REQUEST)
  }

  /** A client request carries one of the two commands and neither a return
      value nor a serial number. */
  predicate WellFormed(buf: string) {
    var c := Parsed(DEFAULT_CMD, buf);
    c.iCmd in {1, 2} && c.iRet == 0 && c.iSvcSerialNo == 0
  }

  predicate Enabled(s: Sys, st: Step) {
    match st
    case Request(fd, family, ip, port, buf, room) => IpOk(ip) && WellFormed(buf)
    case Container(pid, sees, roomNested, roomAnswer) => pid in s.fleet && pid in s.pools
    case Deliver => FirstOf(s.qs.back, RESPONSE) < |s.qs.back|
  }

  function Next(s: Sys, st: Step): Sys
    requires Enabled(s, st)
  {
    match st
    case Request(fd, family, ip, port, buf, room) =>
      var c := Forwarded(fd, family, ip, port, buf);
      var m := Msg(REQUEST, Printed(c, BUF_SIZE));
      var q := Put(Own(c.iCmd, s.qs), m, room);
      s.(qs := SetOwn(c.iCmd, s.qs, q), accepted := s.accepted + multiset{ClientOf(c)}, lost := s.lost + Unput(m, room))
    case Container(pid, sees, roomNested, roomAnswer) =>
      (match Fire(s.fleet[pid], pid, s.pools[pid], s.qs, sees, roomNested, roomAnswer)
       case Crash => s.(crashed := true)
       case Ran(pool, qs, lost) => s.(pools := s.pools[pid := pool], qs := qs, lost := s.lost + lost))
    case Deliver =>
      var i := FirstOf(s.qs.back, RESPONSE);
      s.(qs := s.qs.(back := Removed(s.qs.back, i)), delivered := s.delivered + [s.qs.back[i]])
  }

  ghost predicate Init(s: Sys) {
    && s.pools.Keys == s.fleet.Keys
    && (forall p | p in s.fleet :: PidOk(p) && s.fleet[p] in {1, 2} && s.pools[p] == FullPool(p))
    && s.delivered == [] && s.lost == [] && !s.crashed && Leftovers(s)
  }

  /** The queues outlive the processes. What an earlier fleet left in the two
      request queues may be there at the start: client requests, and calls and
      their answers, if these name no process of this fleet. */
  ghost predicate Leftovers(s: Sys) {
    && s.qs.back == [] && (forall m | m in s.qs.c1 :: GoodC1(m)) && (forall m | m in s.qs.c2 :: GoodC2(m))
    && s.stray == Calls(s) && s.accepted == Queued(s) && StrayOk(s)
  }

  ghost predicate StrayOk(s: Sys) { forall n, p | n in s.stray && p in s.fleet :: TruncDiv(n, 100) != p }

  ghost predicate StepAt(tr: seq<Sys>, steps: seq<Step>, i: int) {
    0 <= i < |steps| && i + 1 < |tr| && Enabled(tr[i], steps[i]) && tr[i + 1] == Next(tr[i], steps[i])
  }

  /** States, and the steps between them. */
  ghost predicate Path(tr: seq<Sys>, steps: seq<Step>) {
    |tr| == |steps| + 1 && forall i | 0 <= i < |steps| :: StepAt(tr, steps, i)
  }

  /** A run is a path from a start. */
  ghost predicate Run(tr: seq<Sys>, steps: seq<Step>) { Path(tr, steps) && Init(tr[0]) }

  // ---------------------------------------------------------------- the invariant

  /** The serial number a message carries, if it belongs to a nested request. */
  function SerialIn(m: Msg): multiset<int32> {
    if Read(m).iSvcSerialNo == 0 then multiset{} else multiset{Read(m).iSvcSerialNo}
  }

  /** The client a message belongs to, if it belongs to none of the nested requests. */
  function ClientIn(m: Msg): multiset<Client> {
    if Read(m).iSvcSerialNo == 0 then multiset{ClientOf(Read(m))} else multiset{}
  }

  function SavedIn(k: int32, ctx: Context): multiset<Client> {
    if ctx.Suspended? then multiset{ClientOf(ctx.obj3)} else multiset{}
  }

  ghost function SavedBy(pid: int, pool: Pool): multiset<Client> { MapBag(pool.stateful, SavedIn) }

  function AsleepIn(pid: int, pool: Pool): multiset<int32> { multiset(pool.stateful.Keys) }

  /** Serial numbers of all suspended handlers. */
  ghost function Asleep(s: Sys): multiset<int32> { MapBag(s.pools, AsleepIn) }

  /** Serial numbers of all nested requests on their way, and of their answers. */
  ghost function Calls(s: Sys): multiset<int32> { Bag(s.qs.c1, SerialIn) + Bag(s.qs.c2, SerialIn) }

  ghost function LostCalls(s: Sys): multiset<int32> { Bag(s.lost, SerialIn) }

  /** Clients still waiting in a request queue. */
  ghost function Queued(s: Sys): multiset<Client> { Bag(s.qs.c1, ClientIn) + Bag(s.qs.c2, ClientIn) }

  /** Clients saved in suspended handlers. */
  ghost function Saved(s: Sys): multiset<Client> { MapBag(s.pools, SavedBy) }

  /** Clients whose answer is on the back queue or was taken from it. */
  ghost function Answered(s: Sys): multiset<Client> { Bag(s.qs.back, ClientIn) + Bag(s.delivered, ClientIn) }

  ghost function LostClients(s: Sys): multiset<Client> { Bag(s.lost, ClientIn) }

  ghost predicate ClientRequest(c: Cmd, cmd: int) {
    c.iSvcSerialNo == 0 && c.iCmd == cmd && c.iType == REQUEST && c.iRet == 0 && IpOk(c.sClientIp)
  }

  ghost predicate GoodC1(m: Msg) {
    var c := Read(m);
    m.lType == REQUEST && (ClientRequest(c, 1) || exists n: int32 :: n != 0 && m == NestedRequest(n))
  }

  ghost predicate GoodC2(m: Msg) {
    var c := Read(m);
    || (m.lType == REQUEST && ClientRequest(c, 2))
    || (m.lType == TruncDiv(c.iSvcSerialNo, 100) * 10 + APP && c.iSvcSerialNo != 0 && c.iType == RESPONSE
        && c.sData == "resp1=r1")
  }

  /** The three bodies a client can get: from a process of the first service,
      or from one of the second, which answers in full or has no free handler. */
  ghost predicate GoodBody(fleet: map<int, int>, c: Cmd) {
    exists p | p in fleet ::
      || (c.iCmd == 1 && fleet[p] == 1 && c.iRet == 0 && c.sData == ByPid("resp1=r1", p))
      || (c.iCmd == 2 && fleet[p] == 2 && c.iRet == 0 && c.sData == ByPid("resp1=r1&resp2=r2", p))
      || (c.iCmd == 2 && fleet[p] == 2 && c.iRet == NO_FREE_SVC_HANDLER
          && c.sData == ByPid(ErrText(NO_FREE_SVC_HANDLER), p))
  }

  ghost predicate GoodBack(fleet: map<int, int>, m: Msg) {
    m.lType == RESPONSE && Read(m).iSvcSerialNo == 0 && Read(m).iType == RESPONSE && GoodBody(fleet, Read(m))
  }

  ghost predicate SavedOk(pool: Pool) {
    forall k | k in pool.stateful :: pool.stateful[k].Suspended? && ClientRequest(pool.stateful[k].obj3, 2)
  }

  ghost predicate FleetOk(s: Sys) {
    && s.pools.Keys == s.fleet.Keys
    && forall p | p in s.fleet ::
         PidOk(p) && s.fleet[p] in {1, 2} && PoolOk(p, s.fleet[p], s.pools[p]) && SavedOk(s.pools[p])
  }

  ghost predicate MessagesOk(s: Sys) {
    && (forall m | m in s.qs.c1 :: GoodC1(m))
    && (forall m | m in s.qs.c2 :: GoodC2(m))
    && (forall m | m in s.qs.back || m in s.delivered :: GoodBack(s.fleet, m))
  }

  /** Every suspended handler has one nested call on its way or lost, and the
      only other calls are those left over. */
  ghost predicate CallsBalance(s: Sys) { Calls(s) + LostCalls(s) == Asleep(s) + s.stray }

  /** Every request is in exactly one place. */
  ghost predicate ClientsBalance(s: Sys) {
    Queued(s) + Saved(s) + Answered(s) + LostClients(s) == s.accepted
  }

  ghost predicate Inv(s: Sys) {
    !s.crashed && FleetOk(s) && MessagesOk(s) && CallsBalance(s) && ClientsBalance(s) && StrayOk(s)
  }
}
