/** The objects of the netio process. Every method is proved to do what the
    functions of Reactor say, so that the results of WatchList and DeliveryRuns
    are about these objects. */
module NetioProcess {
  import opened Common
  import opened Text
  import opened CmdObj
  import opened Bags
  import opened MsgQueue
  import opened Service
  import opened WatchList
  import opened Delivery
  import opened DeliverySteps
  import DeliveryRuns
  import C = Container
  import P = Protocol
  import R = Reactor

  datatype EpollOp = EPOLL_CTL_ADD | EPOLL_CTL_MOD | EPOLL_CTL_DEL

  /** What the kernel keeps for this process: the epoll set, and the open descriptors. */
  class Kernel {
    var epoll: map<int, R.Interest>
    var open: set<int>

    method EpollCtl(op: EpollOp, fd: int, i: R.Interest) returns (iRet: int)
      modifies this`epoll
      ensures op == EPOLL_CTL_ADD ==> (iRet == 0 <==> fd in open && fd !in old(epoll))
      ensures op != EPOLL_CTL_ADD ==> (iRet == 0 <==> fd in old(epoll))
      ensures iRet != 0 ==> iRet == -1 && epoll == old(epoll)
      ensures iRet == 0 ==> epoll == if op == EPOLL_CTL_DEL then old(epoll) - {fd} else old(epoll)[fd := i]
    {
      if (if op == EPOLL_CTL_ADD then fd in open && fd !in epoll else fd in epoll) {
        epoll := if op == EPOLL_CTL_DEL then epoll - {fd} else epoll[fd := i];
        return 0;
      }
      return -1;
    }

    /** Closing a descriptor takes it out of the epoll set. */
    method Close(fd: int)
      modifies this
      ensures open == old(open) - {fd} && epoll == old(epoll) - {fd}
    {
      open, epoll := open - {fd}, epoll - {fd};
    }

    method Accept(fd: int)
      modifies this`open
      ensures open == old(open) + {fd}
    {
      open := open + {fd};
    }
  }

  /** epoll_ctl fails for a descriptor on the list that is not watched, and for one
      not on the list that is not open, or watched. */
  predicate EpollFails(n: R.Net, fd: int) {
    if fd in n.vec then fd !in n.epoll else fd !in n.open || fd in n.epoll
  }

  // ---------------------------------------------------------------- reactor

  class CReactor {
    var m_vecFds: seq<int>
    var m_iEvents: int
    const m_iSvrFd: int
    const m_arrTcpSock: array<R.Item>
    const m_arrMsg: array<string>
    const kernel: Kernel

    ghost predicate Valid()
      reads this
    {
      m_arrTcpSock.Length == R.MAX_EPOLL_EVENT_NUM && m_arrMsg.Length == MAX_MSG_SIZE
    }

    ghost function N(): R.Net
      reads this, m_arrTcpSock, m_arrMsg, kernel
    {
      R.Net(m_arrTcpSock[..], m_arrMsg[..], m_vecFds, m_iEvents, m_iSvrFd, kernel.epoll, kernel.open)
    }

    constructor (svr: int, k: Kernel)
      ensures Valid() && m_iSvrFd == svr && kernel == k && fresh(m_arrTcpSock) && fresh(m_arrMsg)
      ensures m_vecFds == [] && m_iEvents == 0
      ensures forall i | 0 <= i < m_arrTcpSock.Length :: m_arrTcpSock[i].fd == 0 && m_arrTcpSock[i].flag == R.NONE_FLAG
    {
      m_vecFds, m_iEvents, m_iSvrFd, kernel := [], 0, svr, k;
      m_arrTcpSock := new R.Item[R.MAX_EPOLL_EVENT_NUM](_ => R.Item(0, R.NONE_FLAG, R.Addr(0, "", 0)));
      m_arrMsg := new string[MAX_MSG_SIZE](_ => "");
    }

    /** The search that AddToWatchList makes twice. */
    method InWatchList(iFd: int) returns (inWatchList: bool)
      ensures inWatchList <==> iFd in m_vecFds
    {
      for it := 0 to |m_vecFds|
        invariant iFd !in m_vecFds[..it]
      {
        if m_vecFds[it] == iFd { return true; }
      }
      return false;
    }

    /** The check that AddToWatchList makes first. */
    method CheckSock(iFd: int, pData: Option<R.Item>) returns (iSockValid: bool)
      requires Valid() && 0 <= iFd < m_arrTcpSock.Length
      ensures iSockValid <==> R.SockValid(N(), iFd, pData)
    {
      iSockValid := false;
      var inWatchList := InWatchList(iFd);
      if inWatchList {
        if m_arrTcpSock[iFd].flag == R.NONE_FLAG {
          iSockValid := false;
        } else if pData.Some? {
          var temp := pData.value.addr;
          iSockValid := temp.port == m_arrTcpSock[iFd].addr.port && temp.family == m_arrTcpSock[iFd].addr.family;
        }
      } else {
        if m_arrTcpSock[iFd].flag == R.NONE_FLAG {
          iSockValid := false;
        } else if pData.Some? {
          var temp := pData.value.addr;
          iSockValid := temp.port == m_arrTcpSock[iFd].addr.port && temp.family == m_arrTcpSock[iFd].addr.family;
        } else {
          iSockValid := true;
        }
      }
    }

    /** pData is a temporary item, or None for the slot of iFd itself. */
    method AddToWatchList(iFd: int, emTodoOp: R.Flag, pData: Option<R.Item>, bCheckSock: bool) returns (iRet: int)
      requires Valid() && 0 <= iFd < m_arrTcpSock.Length
      modifies this`m_vecFds, this`m_iEvents, m_arrTcpSock, kernel`epoll
      ensures N() == R.AddToWatchList(old(N()), iFd, emTodoOp, pData, bCheckSock)
      ensures iRet == if (bCheckSock ==> R.SockValid(old(N()), iFd, pData)) && EpollFails(old(N()), iFd) then 15 else 0
    {
      hide R.SockValid, R.EpollMod, R.EpollAdd;
      if bCheckSock {
        var iSockValid := CheckSock(iFd, pData);
        if !iSockValid { return 0; }
      }
      ghost var before := N();
      var events := if emTodoOp == R.TCP_SERVER_SEND || emTodoOp == R.UDP_SEND then R.Out else R.In;
      if pData.Some? {
        m_arrTcpSock[iFd] := R.Item(iFd, pData.value.flag, pData.value.addr);
      }
      assert N() == R.StoreItem(before, iFd, pData);
      iRet := Watch(iFd, events);
    }

    /** The search and the epoll call that AddToWatchList ends with. */
    method Watch(iFd: int, events: R.Interest) returns (iRet: int)
      modifies this`m_vecFds, this`m_iEvents, kernel`epoll
      ensures N() == if iFd in old(m_vecFds) then R.EpollMod(old(N()), iFd, events)
                     else R.EpollAdd(old(N()), iFd, events)
      ensures iRet == if EpollFails(old(N()), iFd) then 15 else 0
    {
      var inWatchList := InWatchList(iFd);
      var op := if inWatchList then EPOLL_CTL_MOD else EPOLL_CTL_ADD;
      iRet := kernel.EpollCtl(op, iFd, events);
      if iRet < 0 { return R.EPOLL_CNTL_FAILED; }
      if op != EPOLL_CTL_MOD {
        m_iEvents := m_iEvents + 1;
        m_vecFds := m_vecFds + [iFd];
      }
      return 0;
    }

    /** The beginning of RunEventLoop: both channels are watched without a check. */
    method WatchChannels(m_iUSockFd: int)
      requires Valid() && R.FdOk(m_iSvrFd) && R.FdOk(m_iUSockFd)
      modifies this`m_vecFds, this`m_iEvents, m_arrTcpSock, kernel`epoll
      ensures N() == Watched(old(N()), m_iUSockFd)
    {
      hide R.AddToWatchList;
      if m_iSvrFd != 0 { var _ := AddToWatchList(m_iSvrFd, R.TCP_SERVER_ACCEPT, None, false); }
      if m_iUSockFd != 0 { var _ := AddToWatchList(m_iUSockFd, R.UDP_READ, None, false); }
    }

    method RemoveFromWatchList(iFd: int) returns (iRet: int)
      modifies this`m_vecFds, this`m_iEvents, kernel`epoll
      ensures N() == R.RemoveFromWatchList(old(N()), iFd)
      ensures iRet == if iFd in old(kernel.epoll) then 0 else R.EPOLL_CNTL_FAILED
    {
      iRet := kernel.EpollCtl(EPOLL_CTL_DEL, iFd, R.In);
      if iRet < 0 { return R.EPOLL_CNTL_FAILED; }
      ghost var vec, count := m_vecFds, m_iEvents;
      var it := 0;
      while it < |m_vecFds|
        invariant 0 <= it <= |vec| && m_vecFds == vec && m_iEvents == count && iFd !in vec[..it]
      {
        if m_vecFds[it] == iFd {
          FirstIs(vec, iFd, it);
          m_vecFds := m_vecFds[..it] + m_vecFds[it + 1..];
          m_iEvents := m_iEvents - 1;
          break;
        }
        it := it + 1;
      }
      return 0;
    }
  }

  lemma FirstIs(vec: seq<int>, fd: int, i: nat)
    requires i < |vec| && vec[i] == fd && fd !in vec[..i]
    ensures R.IndexOf(vec, fd) == i
  {
    forall k | 0 <= k < i ensures vec[k] != fd { assert vec[k] == vec[..i][k]; }
  }

  // ---------------------------------------------------------------- connections

  /** How the accept loop ends: accept would block, or fails; or a connection
      cannot be made non-blocking and is closed again. */
  datatype AcceptEnd = WouldBlock | AcceptFails | FcntlFails(fd: int)

  const FCNTL_SOCKET_FAILED := 13

  /** The kernel gives a new connection a descriptor that was not open, so closing
      it again changes nothing. */
  lemma DroppedConnection(n: R.Net, fd: int)
    requires fd !in n.open && n.epoll.Keys <= n.open
    ensures R.KernelClose(n, fd) == n
  {
    assert n.open - {fd} == n.open && n.epoll - {fd} == n.epoll;
  }

  /** What the end of the accept loop adds to an action. */
  function Ended(n: R.Net, a: R.Action, end: AcceptEnd): R.Net {
    if a.Accepts? && end.FcntlFails? then R.KernelClose(n, end.fd) else n
  }

  class CTcpNetHandler {
    const m_pReactor: CReactor
    const m_pMQManager: CMsgQManager
    ghost const c1: CMsgQueue
    ghost const c2: CMsgQueue

    constructor (pReactor: CReactor, pMQManager: CMsgQManager)
      requires pReactor.Valid() && {C1_KEY, C2_KEY} <= pMQManager.m_mapGroupMsgqs.Keys
      requires pMQManager.m_mapGroupMsgqs[C1_KEY] != pMQManager.m_mapGroupMsgqs[C2_KEY]
      ensures Valid() && m_pReactor == pReactor && m_pMQManager == pMQManager
    {
      m_pReactor, m_pMQManager := pReactor, pMQManager;
      c1, c2 := pMQManager.m_mapGroupMsgqs[C1_KEY], pMQManager.m_mapGroupMsgqs[C2_KEY];
    }

    ghost predicate Valid()
      reads m_pReactor, m_pMQManager
    {
      && m_pReactor.Valid()
      && {C1_KEY, C2_KEY} <= m_pMQManager.m_mapGroupMsgqs.Keys && c1 != c2
      && c1 == m_pMQManager.m_mapGroupMsgqs[C1_KEY] && c2 == m_pMQManager.m_mapGroupMsgqs[C2_KEY]
    }

    /** The accept loop; conns is what accept gives and what is made non-blocking,
        and `end` is how the loop ends behind them. */
    method DoConn(conns: seq<R.Conn>, end: AcceptEnd) returns (iRet: int)
      requires Valid() && forall c | c in conns :: 0 <= c.fd < MAX_MSG_SIZE
      modifies m_pReactor`m_vecFds, m_pReactor`m_iEvents, m_pReactor.m_arrTcpSock, m_pReactor.kernel
      ensures var n := R.DoConn(old(m_pReactor.N()), conns);
              m_pReactor.N() == if end.FcntlFails? then R.KernelClose(n, end.fd) else n
      ensures iRet == (match end case WouldBlock => 0 case AcceptFails => -1 case FcntlFails(_) => FCNTL_SOCKET_FAILED)
    {
      hide R.AddToWatchList;
      ghost var n := m_pReactor.N();
      for i := 0 to |conns|
        invariant |m_pReactor.N().items| == |n.items|
        invariant R.DoConn(m_pReactor.N(), conns[i..]) == R.DoConn(n, conns)
      {
        ghost var before := m_pReactor.N();
        var c := conns[i];
        assert conns[i..][0] == c && conns[i..][1..] == conns[i + 1..];
        AcceptOne(c);
        assert m_pReactor.N() == R.AcceptOne(before, c);
      }
      match end
      case WouldBlock => return 0;
      case AcceptFails => return -1;
      case FcntlFails(fd) =>
        m_pReactor.kernel.Accept(fd);
        m_pReactor.kernel.Close(fd);
        return FCNTL_SOCKET_FAILED;
    }

    method AcceptOne(c: R.Conn)
      requires Valid() && R.FdOk(c.fd)
      modifies m_pReactor`m_vecFds, m_pReactor`m_iEvents, m_pReactor.m_arrTcpSock, m_pReactor.kernel
      ensures m_pReactor.N() == R.AcceptOne(old(m_pReactor.N()), c)
    {
      hide R.AddToWatchList;
      ghost var n := m_pReactor.N();
      m_pReactor.kernel.Accept(c.fd);
      m_pReactor.m_arrTcpSock[c.fd] := R.Item(c.fd, R.TCP_SERVER_READ, c.addr);
      assert m_pReactor.N() ==
             n.(open := n.open + {c.fd}, items := n.items[c.fd := R.Item(c.fd, R.TCP_SERVER_READ, c.addr)]);
      var _ := m_pReactor.AddToWatchList(c.fd, R.TCP_SERVER_READ, None, true);
    }

    /** `reading` is what read gives; `ok` is false where the process would stop:
        at the assert on the command number, or at an unset queue pointer. */
    method DoRecv(iConn: int, reading: R.Reading, room: bool) returns (ok: bool)
      requires Valid() && R.FdOk(iConn)
      modifies m_pReactor.m_arrTcpSock, m_pReactor.kernel, c1, c2
      ensures ok <==> reading.Gone? || Parsed(DEFAULT_CMD, reading.buf).iCmd in {1, 2}
      ensures ok ==> m_pReactor.N() == R.DoRecv(old(m_pReactor.N()), iConn, reading)
      ensures reading.Gone? ==> c1.contents == old(c1.contents) && c2.contents == old(c2.contents)
      ensures ok && reading.Got? ==>
                var c := R.Requested(old(m_pReactor.N()), iConn, reading.buf);
                var m := Msg(REQUEST, Printed(c, BUF_SIZE));
                && c1.contents == (if c.iCmd == 1 then C.Put(old(c1.contents), m, room) else old(c1.contents))
                && c2.contents == (if c.iCmd == 2 then C.Put(old(c2.contents), m, room) else old(c2.contents))
    {
      hide Parsed, Printed, CCmd.Val;
      if reading.Gone? {
        m_pReactor.kernel.Close(iConn);
        return true;
      }
      ghost var n := m_pReactor.N();
      var oCmd := ReadCmd(iConn, reading.buf);
      if oCmd.iCmd == 0 { return false; }
      var rpMsgq := QueueOfCmd(m_pMQManager, oCmd.iCmd);
      if rpMsgq == null { return false; }
      PrintedFits(oCmd);
      var _ := rpMsgq.PutMsg(Msg(REQUEST, Printed(oCmd, BUF_SIZE)), room);
      m_pReactor.m_arrTcpSock[iConn] := m_pReactor.m_arrTcpSock[iConn].(flag := R.TCP_SERVER_SEND);
      assert m_pReactor.N() == n.(items := n.items[iConn := n.items[iConn].(flag := R.TCP_SERVER_SEND)]);
      ok := true;
    }

    /** The command in the text, with the connection it came from. */
    method ReadCmd(iConn: int, buf: string) returns (c: Cmd)
      requires Valid() && R.FdOk(iConn)
      ensures c == R.Requested(m_pReactor.N(), iConn, buf)
      ensures c.iCmd == Parsed(DEFAULT_CMD, buf).iCmd
    {
      hide Parsed;
      var oCmd := new CCmd();
      oCmd.InitCCmd(buf);
      ghost var parsed := oCmd.Val();
      var addr := m_pReactor.m_arrTcpSock[iConn].addr;
      oCmd.iFd := ToInt32(iConn);
      oCmd.ifamily := ToInt32(addr.family);
      oCmd.sClientIp := addr.ip;
      oCmd.iPort := ToInt32(addr.port);
      oCmd.iType := REQUEST;
      c := oCmd.Copy();
    }

    method DoSend(iConn: int) returns (written: string)
      requires Valid() && R.FdOk(iConn)
      modifies m_pReactor`m_vecFds, m_pReactor`m_iEvents, m_pReactor.m_arrTcpSock, m_pReactor.kernel
      ensures written == old(m_pReactor.m_arrMsg[iConn])
      ensures m_pReactor.N() == R.DoClose(old(m_pReactor.N()), iConn)
    {
      written := m_pReactor.m_arrMsg[iConn];
      DoClose(iConn);
    }

    method DoClose(iConn: int)
      requires Valid() && R.FdOk(iConn)
      modifies m_pReactor`m_vecFds, m_pReactor`m_iEvents, m_pReactor.m_arrTcpSock, m_pReactor.kernel
      ensures m_pReactor.N() == R.DoClose(old(m_pReactor.N()), iConn)
    {
      hide R.RemoveFromWatchList;
      ghost var n := m_pReactor.N();
      m_pReactor.m_arrTcpSock[iConn] := m_pReactor.m_arrTcpSock[iConn].(fd := 0, flag := R.NONE_FLAG);
      assert m_pReactor.N() == n.(items := n.items[iConn := n.items[iConn].(fd := 0, flag := R.NONE_FLAG)]);
      var _ := m_pReactor.RemoveFromWatchList(iConn);
      m_pReactor.kernel.Close(iConn);
    }

    /** The dispatch of ProcessEvent and HandleEvent for one ready event; `end` is
        how an accept loop ends. */
    method HandleEvent(e: R.Event, room: bool, end: AcceptEnd) returns (ok: bool, written: string)
      requires Valid() && R.EventOk(m_pReactor.N(), e)
      modifies m_pReactor`m_vecFds, m_pReactor`m_iEvents, m_pReactor.m_arrTcpSock, m_pReactor.kernel, c1, c2
      ensures ok ==>
                var n, a := old(m_pReactor.N()), R.ActionOf(old(m_pReactor.N()), e);
                m_pReactor.N() == Ended(R.Handled(n, a, e), a, end)
      ensures var a := R.ActionOf(old(m_pReactor.N()), e);
              && (a.Writes? ==> ok && written == a.text)
              && (ok ==>
                    (c1.contents, c2.contents) ==
                    QueuesAfter(old(m_pReactor.N()), a, e, room, old(c1.contents), old(c2.contents)))
              && (!ok ==> a.Reads? && e.reading.Got? && Parsed(DEFAULT_CMD, e.reading.buf).iCmd !in {1, 2})
    {
      hide Parsed, Printed, R.DoClose, R.DoConn, R.DoRecv;
      ok, written := true, "";
      var stItem := m_pReactor.m_arrTcpSock[e.slot];
      assert m_pReactor.N().items[e.slot] == stItem;
      if e.rdhup {
        DoClose(stItem.fd);
      } else if stItem.fd == m_pReactor.m_iSvrFd || stItem.flag in {R.TCP_SERVER_READ, R.TCP_SERVER_SEND} {
        match stItem.flag
        case TCP_SERVER_ACCEPT => var _ := DoConn(e.conns, end);
        case TCP_SERVER_READ => ok := DoRecv(stItem.fd, e.reading, room);
        case TCP_SERVER_SEND => written := DoSend(stItem.fd);
        case TCP_SERVER_CLOSE => DoClose(stItem.fd);
        case _ =>
      }
    }
  }

  /** The two request queues after an action: a request that was read is put
      into the queue of its command. */
  ghost function QueuesAfter(n: R.Net, a: R.Action, e: R.Event, room: bool,
                             q1: seq<Msg>, q2: seq<Msg>): (seq<Msg>, seq<Msg>)
    requires a.Reads? ==> 0 <= a.fd < |n.items|
  {
    if a.Reads? && e.reading.Got? then
      var c := R.Requested(n, a.fd, e.reading.buf);
      var m := Msg(REQUEST, Printed(c, BUF_SIZE));
      (if c.iCmd == 1 then C.Put(q1, m, room) else q1, if c.iCmd == 2 then C.Put(q2, m, room) else q2)
    else (q1, q2)
  }

  // ---------------------------------------------------------------- answers

  class CNetIOUserEventHandler {
    const m_pReactor: CReactor
    const m_pMQManager: CMsgQManager
    ghost const back: CMsgQueue

    constructor (pReactor: CReactor, pMQManager: CMsgQManager)
      requires pReactor.Valid() && NET_IO_BACK_MSQ_KEY in pMQManager.m_mapGroupMsgqs
      ensures Valid() && m_pReactor == pReactor && m_pMQManager == pMQManager
    {
      m_pReactor, m_pMQManager := pReactor, pMQManager;
      back := pMQManager.m_mapGroupMsgqs[NET_IO_BACK_MSQ_KEY];
    }

    ghost predicate Valid()
      reads m_pReactor, m_pMQManager
    {
      && m_pReactor.Valid()
      && NET_IO_BACK_MSQ_KEY in m_pMQManager.m_mapGroupMsgqs
      && back == m_pMQManager.m_mapGroupMsgqs[NET_IO_BACK_MSQ_KEY]
    }

    /** One answer, if there is one, is stored for its descriptor, which is then
        watched for writing if it still has the connection. When msgrcv fails, the
        empty text is taken for an answer. */
    method OnEventFire(fails: bool)
      requires Valid()
      requires forall m | m in back.contents :: m.sBuf != "" && 0 <= P.Read(m).iFd < MAX_MSG_SIZE
      modifies m_pReactor`m_vecFds, m_pReactor`m_iEvents, m_pReactor.m_arrTcpSock, m_pReactor.m_arrMsg,
               m_pReactor.kernel`epoll, back
      ensures var q := old(back.contents);
              var i := FirstOf(q, RESPONSE);
              if fails then back.contents == q && m_pReactor.N() == R.Reply(old(m_pReactor.N()), EmptyAnswer())
              else if i == |q| then back.contents == q && m_pReactor.N() == old(m_pReactor.N())
              else back.contents == Removed(q, i) && m_pReactor.N() == R.Reply(old(m_pReactor.N()), P.Read(q[i]))
    {
      hide Parsed;
      var _, rpMsgq := m_pMQManager.GetMsgQueue(NET_IO_BACK_MSQ_KEY);
      var iRet, sBuf, Len := rpMsgq.GetMsg(RESPONSE, 0, fails);
      if iRet == 0 && Len == 0 { return; }
      var oCmd := new CCmd();
      oCmd.InitCCmd(sBuf);
      var c := oCmd.Copy();
      if fails { assert c == EmptyAnswer(); }
      Store(c);
    }

    method Store(oCmd: Cmd)
      requires Valid() && R.FdOk(oCmd.iFd)
      modifies m_pReactor`m_vecFds, m_pReactor`m_iEvents, m_pReactor.m_arrTcpSock, m_pReactor.m_arrMsg,
               m_pReactor.kernel`epoll
      ensures m_pReactor.N() == R.Reply(old(m_pReactor.N()), oCmd)
    {
      hide R.AddToWatchList;
      ghost var n := m_pReactor.N();
      m_pReactor.m_arrMsg[oCmd.iFd] := R.CutToBuf(oCmd.sData);
      assert m_pReactor.N() == n.(msgs := n.msgs[oCmd.iFd := R.CutToBuf(oCmd.sData)]);
      var stSock := R.Item(oCmd.iFd, R.TCP_SERVER_SEND,
                           R.Addr(R.Uint16(oCmd.ifamily), oCmd.sClientIp, R.Uint16(oCmd.iPort)));
      var _ := m_pReactor.AddToWatchList(oCmd.iFd, R.TCP_SERVER_SEND, Some(stSock), true);
    }
  }

  // ---------------------------------------------------------------- turns of the loop

  /** In every reachable state, the process takes the next answer, or meets a
      failing msgrcv, as the joint run does; without an answer nothing changes. */
  method TakeAnswer(h: CNetIOUserEventHandler, fails: bool, ghost j: Joint)
    requires Link(j) && h.Valid() && h.m_pReactor.N() == j.net && h.back.contents == j.sys.qs.back
    modifies h.m_pReactor`m_vecFds, h.m_pReactor`m_iEvents, h.m_pReactor.m_arrTcpSock, h.m_pReactor.m_arrMsg,
             h.m_pReactor.kernel`epoll, h.back
    ensures fails ==>
              && JointEnabled(j, PollFails)
              && h.m_pReactor.N() == JointNext(j, PollFails).net && h.back.contents == j.sys.qs.back
    ensures !fails && P.Enabled(j.sys, P.Deliver) ==>
              && JointEnabled(j, Arrives)
              && h.m_pReactor.N() == JointNext(j, Arrives).net && h.back.contents == JointNext(j, Arrives).sys.qs.back
    ensures !fails && !P.Enabled(j.sys, P.Deliver) ==> h.m_pReactor.N() == j.net && h.back.contents == j.sys.qs.back
  {
    hide Link, Parsed, R.Reply, EmptyAnswer;
    forall m | m in h.back.contents ensures m.sBuf != "" && 0 <= P.Read(m).iFd < MAX_MSG_SIZE {
      var _ := AnswerIsAwaited(j, m);
      AnswerHasText(j.sys.fleet, m);
    }
    LinkSized(j);
    if P.Enabled(j.sys, P.Deliver) { NextIsThere(j); }
    h.OnEventFire(fails);
  }

  lemma LinkSized(j: Joint)
    requires Link(j)
    ensures R.Sized(j.net)
  {
    hide P.Inv, Counts, SentOk;
  }

  lemma AnswerHasText(fleet: map<int, int>, m: Msg)
    requires P.GoodBack(fleet, m)
    ensures m.sBuf != ""
  {
    if m.sBuf == "" { TypeOfEmpty(); }
  }

  lemma TypeOfEmpty()
    ensures Parsed(DEFAULT_CMD, "").iType == 0
  {
  }

  /** In every reachable state, an event that the kernel may report is handled as
      the joint run does: the request goes to the queue, the answer to the client. */
  method HandleReported(h: CTcpNetHandler, e: R.Event, room: bool, end: AcceptEnd, ghost j: Joint)
    returns (ok: bool, written: string)
    requires Link(j) && JointEnabled(j, Happens(e, room)) && h.Valid() && h.m_pReactor.N() == j.net
    requires h.c1.contents == j.sys.qs.c1 && h.c2.contents == j.sys.qs.c2
    requires end.FcntlFails? ==> end.fd !in JointNext(j, Happens(e, room)).net.open
    modifies h.m_pReactor`m_vecFds, h.m_pReactor`m_iEvents, h.m_pReactor.m_arrTcpSock, h.m_pReactor.kernel, h.c1, h.c2
    ensures ok
    ensures var j' := JointNext(j, Happens(e, room));
            && h.m_pReactor.N() == j'.net && h.c1.contents == j'.sys.qs.c1 && h.c2.contents == j'.sys.qs.c2
            && (j'.sent != j.sent ==> |j'.sent| == |j.sent| + 1 && j'.sent[|j.sent|].text == written)
  {
    hide Parsed, Printed, R.Handled, P.Inv, Counts, SentOk, Reported;
    EventQueues(j, e, room);
    NothingDropped(j, Happens(e, room), end);
    ok, written := h.HandleEvent(e, room, end);
  }

  lemma NothingDropped(j: Joint, st: JointStep, end: AcceptEnd)
    requires Link(j) && JointEnabled(j, st) && (end.FcntlFails? ==> end.fd !in JointNext(j, st).net.open)
    ensures end.FcntlFails? ==> R.KernelClose(JointNext(j, st).net, end.fd) == JointNext(j, st).net
  {
    hide P.Inv, Counts, SentOk, JointNext, JointEnabled, HolderOk, RestOk;
    StepKeepsLink(j, st);
    if end.FcntlFails? { DroppedConnection(JointNext(j, st).net, end.fd); }
  }

  lemma EventQueues(j: Joint, e: R.Event, room: bool)
    requires Link(j) && JointEnabled(j, Happens(e, room))
    ensures R.EventOk(j.net, e) && var a := R.ActionOf(j.net, e); a.Reads? ==> 0 <= a.fd < |j.net.items|
    ensures var j', a := JointNext(j, Happens(e, room)), R.ActionOf(j.net, e);
            && (j'.sys.qs.c1, j'.sys.qs.c2) == QueuesAfter(j.net, a, e, room, j.sys.qs.c1, j.sys.qs.c2)
            && (a.Reads? && e.reading.Got? ==> P.WellFormed(e.reading.buf))
  {
    hide P.Inv, Counts, SentOk, NetOk, JointNext, JointEnabled, AnswerTo, R.ActionOf, R.DoRecv, R.DoClose;
    hide QueuesAfter, FreshConns, P.WellFormed, P.Enabled, P.Next, StaleRead;
    EventCases(j, e, room);
    if e.slot == j.net.svr && FreshConns(j.net.open, e.conns) {
      DeliveryRuns.AcceptStep(j, e, room);
      NothingQueued(j.net, R.Accepts, e, room, j.sys);
    } else if e.slot in j.held && j.held[e.slot].asked.None? && e.conns == [] && e.reading.Got? {
      ReadsRequest(j, e, room);
      RequestQueued(j, e, room);
    } else if e.slot in j.held && j.held[e.slot].asked.None? && e.reading.Gone? {
      JointIsDefined(j, Happens(e, room));
      ReadsNothing(j, e, room);
      NothingQueued(j.net, R.Reads(e.slot), e, room, j.sys);
    } else {
      WritesAnswer(j, e, room);
      NothingQueued(j.net, R.Writes(e.slot, j.net.msgs[e.slot]), e, room, j.sys);
    }
  }

  lemma EventCases(j: Joint, e: R.Event, room: bool)
    requires JointEnabled(j, Happens(e, room))
    ensures R.EventOk(j.net, e) && Reported(j, e)
    ensures var a := R.ActionOf(j.net, e); a.Reads? ==> 0 <= a.fd < |j.net.items|
  {
    hide P.Enabled, FreshConns, P.WellFormed;
  }

  lemma NothingQueued(n: R.Net, a: R.Action, e: R.Event, room: bool, s: P.Sys)
    requires a.Reads? ==> 0 <= a.fd < |n.items| && e.reading.Gone?
    ensures QueuesAfter(n, a, e, room, s.qs.c1, s.qs.c2) == (s.qs.c1, s.qs.c2)
  {
  }

  lemma RequestQueued(j: Joint, e: R.Event, room: bool)
    requires e.slot < |j.net.items| && e.reading.Got?
             && P.Enabled(j.sys, RequestStep(j.net, e.slot, e.reading.buf, room))
    ensures var qs := P.Next(j.sys, RequestStep(j.net, e.slot, e.reading.buf, room)).qs;
            (qs.c1, qs.c2) == QueuesAfter(j.net, R.Reads(e.slot), e, room, j.sys.qs.c1, j.sys.qs.c2)
    ensures P.WellFormed(e.reading.buf)
  {
    hide Parsed, Printed;
    ForwardedIs(j.net, e.slot, e.reading.buf, room);
  }
}
