/** netio/src/reactor.cpp and netio/src/tcp_net_handler.cpp: the watch list, and
    what the events of a connection do to it and to the kernel's epoll set. */
module Reactor {
  import opened Common
  import opened Text
  import opened CmdObj
  import opened MsgQueue

  // ---------------------------------------------------------------- state

  datatype Flag =
    | NONE_FLAG | TCP_CLIENT | TCP_SERVER_ACCEPT | TCP_SERVER_READ | TCP_SERVER_SEND | TCP_SERVER_CLOSE
    | UDP_READ | UDP_SEND

  /** sockaddr_in: two 16-bit numbers and the address, as inet_ntoa writes it. */
  datatype Addr = Addr(family: int, ip: string, port: int)

  datatype Item = Item(fd: int, flag: Flag, addr: Addr)

  datatype Interest = In | Out

  const MAX_EPOLL_EVENT_NUM := 4096
  const EPOLL_CNTL_FAILED := 15

  /** The fields of CReactor, and of the kernel: which descriptors it watches for
      what, and which are open. */
  datatype Net = Net(items: seq<Item>, msgs: seq<string>, vec: seq<int>, iEvents: int, svr: int,
                     epoll: map<int, Interest>, open: set<int>)

  /** Descriptors are below 1024, because m_arrMsg has that size. */
  ghost predicate Sized(n: Net) {
    && |n.items| == MAX_EPOLL_EVENT_NUM && |n.msgs| == MAX_MSG_SIZE
    && 0 <= n.svr < MAX_MSG_SIZE
    && forall k | 0 <= k < |n.items| :: 0 <= n.items[k].fd < MAX_MSG_SIZE
  }

  predicate FdOk(fd: int) { 0 <= fd < MAX_MSG_SIZE }

  // ---------------------------------------------------------------- the kernel

  function KernelClose(n: Net, fd: int): Net { n.(open := n.open - {fd}, epoll := n.epoll - {fd}) }

  // ---------------------------------------------------------------- AddToWatchList

  function InterestOf(op: Flag): Interest { if op in {TCP_SERVER_SEND, UDP_SEND} then Out else In }

  /** Whether the socket information is still right. pData is a temporary item, or
      the slot of the descriptor itself (None); of a temporary item only port and
      family are compared, since both inet_ntoa calls return the same buffer. */
  predicate SockValid(n: Net, fd: int, pData: Option<Item>)
    requires 0 <= fd < |n.items|
  {
    var slot := n.items[fd];
    && slot.flag != NONE_FLAG
    && match pData
       case Some(temp) => temp.addr.port == slot.addr.port && temp.addr.family == slot.addr.family
       case None => fd !in n.vec
  }

  /** A closed slot is never valid; the slot itself is, unless its descriptor is
      listed; a temporary item is, whether listed or not, if port and family agree. */
  lemma SockValidCases(n: Net, fd: int, temp: Item)
    requires 0 <= fd < |n.items|
    ensures SockValid(n, fd, None) <==> n.items[fd].flag != NONE_FLAG && fd !in n.vec
    ensures SockValid(n, fd, Some(temp)) <==>
            n.items[fd].flag != NONE_FLAG
            && (temp.addr.port, temp.addr.family) == (n.items[fd].addr.port, n.items[fd].addr.family)
  {
  }

  function EpollAdd(n: Net, fd: int, i: Interest): Net {
    if fd !in n.open || fd in n.epoll then n
    else n.(epoll := n.epoll[fd := i], vec := n.vec + [fd], iEvents := n.iEvents + 1)
  }

  function EpollMod(n: Net, fd: int, i: Interest): Net {
    if fd in n.epoll then n.(epoll := n.epoll[fd := i]) else n
  }

  function StoreItem(n: Net, fd: int, pData: Option<Item>): Net
    requires 0 <= fd < |n.items|
  {
    match pData
    case Some(temp) => n.(items := n.items[fd := Item(fd, temp.flag, temp.addr)])
    case None => n
  }

  function AddToWatchList(n: Net, fd: int, op: Flag, pData: Option<Item>, bCheckSock: bool): Net
    requires 0 <= fd < |n.items|
  {
    if bCheckSock && !SockValid(n, fd, pData) then n
    else if fd in n.vec then EpollMod(StoreItem(n, fd, pData), fd, InterestOf(op))
    else EpollAdd(StoreItem(n, fd, pData), fd, InterestOf(op))
  }

  // ---------------------------------------------------------------- RemoveFromWatchList

  function IndexOf(vec: seq<int>, fd: int): (i: nat)
    ensures i <= |vec| && (i < |vec| ==> vec[i] == fd) && (i == |vec| <==> fd !in vec)
    ensures forall k | 0 <= k < i :: vec[k] != fd
  {
    if vec == [] || vec[0] == fd then 0 else 1 + IndexOf(vec[1..], fd)
  }

  function Erased(vec: seq<int>, fd: int): seq<int> {
    var i := IndexOf(vec, fd);
    if i == |vec| then vec else vec[..i] + vec[i + 1..]
  }

  /** A failing epoll_ctl leaves the list as it is. */
  function RemoveFromWatchList(n: Net, fd: int): Net {
    if fd !in n.epoll then n
    else n.(epoll := n.epoll - {fd}, vec := Erased(n.vec, fd),
            iEvents := if fd in n.vec then n.iEvents - 1 else n.iEvents)
  }

  // ---------------------------------------------------------------- connection handlers

  function DoClose(n: Net, fd: int): Net
    requires 0 <= fd < |n.items|
  {
    KernelClose(RemoveFromWatchList(n.(items := n.items[fd := n.items[fd].(fd := 0, flag := NONE_FLAG)]), fd), fd)
  }

  /** A connection that accept returned: its descriptor and the client's address. */
  datatype Conn = Conn(fd: int, addr: Addr)

  function AcceptOne(n: Net, c: Conn): Net
    requires 0 <= c.fd < |n.items|
  {
    var n1 := n.(open := n.open + {c.fd}, items := n.items[c.fd := Item(c.fd, TCP_SERVER_READ, c.addr)]);
    AddToWatchList(n1, c.fd, TCP_SERVER_READ, None, true)
  }

  /** The accept loop, until accept would block. */
  function DoConn(n: Net, conns: seq<Conn>): Net
    requires forall c | c in conns :: 0 <= c.fd < |n.items|
    decreases |conns|
  {
    if conns == [] then n else DoConn(AcceptOne(n, conns[0]), conns[1..])
  }

  /** What read gives: nothing more to read or an error, or a text. */
  datatype Reading = Gone | Got(buf: string)

  /** The command that DoRecv puts into a request queue. */
  function Requested(n: Net, fd: int, buf: string): Cmd
    requires 0 <= fd < |n.items|
  {
    var a := n.items[fd].addr;
    Parsed(DEFAULT_CMD, buf).(iFd := ToInt32(fd), ifamily := ToInt32(a.family), sClientIp := a.ip,
                              iPort := ToInt32(a.port), iType := REQUEST)
  }

  /** A failed read closes the descriptor and leaves everything else alone. */
  function DoRecv(n: Net, fd: int, r: Reading): Net
    requires 0 <= fd < |n.items|
  {
    match r
    case Gone => KernelClose(n, fd)
    case Got(_) => n.(items := n.items[fd := n.items[fd].(flag := TCP_SERVER_SEND)])
  }

  /** snprintf into a message buffer. */
  function CutToBuf(s: string): string { if |s| < BUF_SIZE then s else s[..BUF_SIZE - 1] }

  /** The first 1015 characters, or all. */
  lemma CutIs(s: string)
    ensures CutToBuf(s) <= s && |CutToBuf(s)| == if |s| <= 1015 then |s| else 1015
  {
  }

  /** Assignment to an unsigned field of 16 bits. */
  function Uint16(n: int): int { n % 0x1_0000 }

  lemma Uint16Meaning(n: int)
    ensures 0 <= Uint16(n) < 65536 && (n - Uint16(n)) % 65536 == 0
  {
  }

  /** CNetIOUserEventHandler::OnEventFire for a parsed answer. */
  function Reply(n: Net, c: Cmd): Net
    requires 0 <= c.iFd < |n.msgs| <= |n.items|
  {
    var temp := Item(c.iFd, TCP_SERVER_SEND, Addr(Uint16(c.ifamily), c.sClientIp, Uint16(c.iPort)));
    AddToWatchList(n.(msgs := n.msgs[c.iFd := CutToBuf(c.sData)]), c.iFd, TCP_SERVER_SEND, Some(temp), true)
  }

  // ---------------------------------------------------------------- events

  /** One ready event: the slot it points to, whether the peer has closed, and
      what accept and read will give if they are called. */
  datatype Event = Event(slot: nat, rdhup: bool, conns: seq<Conn>, reading: Reading)

  /** What an event makes the process do: nothing, read a request or fail to,
      write an answer, or accept. */
  datatype Action = Idle | Accepts | Reads(fd: int) | Writes(fd: int, text: string) | Closes(fd: int)

  function ActionFor(n: Net, fd: int, flag: Flag): Action
    requires 0 <= fd < |n.msgs|
  {
    match flag
    case TCP_SERVER_ACCEPT => Accepts
    case TCP_SERVER_READ => Reads(fd)
    case TCP_SERVER_SEND => Writes(fd, n.msgs[fd])
    case TCP_SERVER_CLOSE => Closes(fd)
    case _ => Idle
  }

  /** The dispatch of ProcessEvent. */
  function ActionOf(n: Net, e: Event): Action
    requires e.slot < |n.items| && 0 <= n.items[e.slot].fd < |n.msgs|
  {
    var it := n.items[e.slot];
    if e.rdhup then Closes(it.fd)
    else if it.fd == n.svr || it.flag in {TCP_SERVER_READ, TCP_SERVER_SEND} then ActionFor(n, it.fd, it.flag)
    else Idle
  }

  /** What each event leads to, by hang-up, flag and descriptor of its slot. */
  lemma ActionCases(n: Net, e: Event)
    requires e.slot < |n.items| && 0 <= n.items[e.slot].fd < |n.msgs|
    ensures var it, a := n.items[e.slot], ActionOf(n, e);
            && (a == Accepts <==> !e.rdhup && it.flag == TCP_SERVER_ACCEPT && it.fd == n.svr)
            && (a.Reads? <==> !e.rdhup && it.flag == TCP_SERVER_READ) && (a.Reads? ==> a.fd == it.fd)
            && (a.Writes? <==> !e.rdhup && it.flag == TCP_SERVER_SEND)
            && (a.Writes? ==> a == Writes(it.fd, n.msgs[it.fd]))
            && (a.Closes? <==> e.rdhup || (it.flag == TCP_SERVER_CLOSE && it.fd == n.svr))
            && (a.Closes? ==> a.fd == it.fd)
  {
  }

  /** What holds of every event: its slot exists, and accept gives descriptors
      below 1024. */
  ghost predicate EventFits(e: Event) {
    e.slot < MAX_EPOLL_EVENT_NUM && forall c | c in e.conns :: 0 <= c.fd < MAX_MSG_SIZE
  }

  ghost predicate EventOk(n: Net, e: Event) { Sized(n) && EventFits(e) }

  function Handled(n: Net, a: Action, e: Event): Net
    requires a.Reads? || a.Writes? || a.Closes? ==> 0 <= a.fd < |n.items|
    requires forall c | c in e.conns :: 0 <= c.fd < |n.items|
  {
    match a
    case Idle => n
    case Accepts => DoConn(n, e.conns)
    case Reads(fd) => DoRecv(n, fd, e.reading)
    case Writes(fd, _) => DoClose(n, fd)
    case Closes(fd) => DoClose(n, fd)
  }

  // ---------------------------------------------------------------- the watch list law

  /** The list has no duplicates and the counter is its length; what it holds is
      what the kernel watches, and the stale descriptors. */
  ghost predicate Listed(n: Net, stale: set<int>) {
    && NoRepeats(n.vec) && n.iEvents == |n.vec|
    && (forall fd :: fd in n.vec <==> fd in n.epoll || fd in stale)
    && n.epoll.Keys !! stale
    && n.epoll.Keys <= n.open
  }

  lemma ErasedList(vec: seq<int>, fd: int)
    requires NoRepeats(vec)
    ensures NoRepeats(Erased(vec, fd))
    ensures forall x :: x in Erased(vec, fd) <==> x in vec && x != fd
    ensures |Erased(vec, fd)| == if fd in vec then |vec| - 1 else |vec|
  {
    var i, e := IndexOf(vec, fd), Erased(vec, fd);
    if i < |vec| {
      assert forall k | 0 <= k < |e| :: e[k] == if k < i then vec[k] else vec[k + 1];
      forall x | x in vec && x != fd ensures x in e {
        var k :| 0 <= k < |vec| && vec[k] == x;
        assert x == e[if k < i then k else k - 1];
      }
    }
  }

  lemma AddKeepsListed(n: Net, fd: int, op: Flag, pData: Option<Item>, bCheckSock: bool, stale: set<int>)
    requires 0 <= fd < |n.items| && Listed(n, stale)
    ensures Listed(AddToWatchList(n, fd, op, pData, bCheckSock), stale)
  {
  }

  lemma RemoveKeepsListed(n: Net, fd: int, stale: set<int>)
    requires Listed(n, stale)
    ensures Listed(RemoveFromWatchList(n, fd), stale) && fd !in RemoveFromWatchList(n, fd).epoll
  {
    ErasedList(n.vec, fd);
  }

  /** After a close the slot is reset, but for the old address, and the descriptor is
      neither open nor watched nor, if it was watched, on the list. */
  lemma CloseIs(n: Net, fd: int)
    requires 0 <= fd < |n.items| && NoRepeats(n.vec)
    ensures var n' := DoClose(n, fd);
            && n'.items[fd] == Item(0, NONE_FLAG, n.items[fd].addr)
            && n' == n.(items := n.items[fd := n'.items[fd]], epoll := n.epoll - {fd}, open := n.open - {fd},
                        vec := n'.vec, iEvents := n'.iEvents)
            && (fd in n.epoll ==> forall x :: x in n'.vec <==> x in n.vec && x != fd)
            && (fd !in n.epoll ==> n'.vec == n.vec)
            && n'.iEvents - |n'.vec| == n.iEvents - |n.vec|
  {
    ErasedList(n.vec, fd);
    assert n.epoll - {fd} - {fd} == n.epoll - {fd};
  }

  lemma CloseKeepsListed(n: Net, fd: int, stale: set<int>)
    requires 0 <= fd < |n.items| && Listed(n, stale)
    ensures Listed(DoClose(n, fd), stale)
  {
    var n1 := n.(items := n.items[fd := n.items[fd].(fd := 0, flag := NONE_FLAG)]);
    RemoveKeepsListed(n1, fd, stale);
    var n2 := RemoveFromWatchList(n1, fd);
    assert n2.epoll - {fd} == n2.epoll;
  }

  lemma {:induction false} ConnKeepsListed(n: Net, conns: seq<Conn>, stale: set<int>)
    requires (forall c | c in conns :: 0 <= c.fd < |n.items|) && Listed(n, stale)
    ensures Listed(DoConn(n, conns), stale)
    decreases |conns|
  {
    if conns != [] {
      var c := conns[0];
      var n1 := n.(open := n.open + {c.fd}, items := n.items[c.fd := Item(c.fd, TCP_SERVER_READ, c.addr)]);
      AddKeepsListed(n1, c.fd, TCP_SERVER_READ, None, true, stale);
      ConnKeepsListed(AcceptOne(n, c), conns[1..], stale);
    }
  }

  /** The descriptors that became stale: watched, and closed by a failed read. */
  function StaleBy(n: Net, a: Action, r: Reading): set<int> {
    if a.Reads? && r.Gone? && a.fd in n.vec then {a.fd} else {}
  }

  lemma EventKeepsListed(n: Net, e: Event, stale: set<int>)
    requires EventOk(n, e) && Listed(n, stale)
    ensures var a := ActionOf(n, e); Listed(Handled(n, a, e), stale + StaleBy(n, a, e.reading))
  {
    var a := ActionOf(n, e);
    assert stale + {} == stale;
    match a
    case Idle =>
    case Accepts => ConnKeepsListed(n, e.conns, stale);
    case Reads(fd) =>
    case Writes(fd, _) => CloseKeepsListed(n, fd, stale);
    case Closes(fd) => CloseKeepsListed(n, fd, stale);
  }

  lemma ReplyKeepsListed(n: Net, c: Cmd, stale: set<int>)
    requires Sized(n) && FdOk(c.iFd) && Listed(n, stale)
    ensures Listed(Reply(n, c), stale)
  {
    var temp := Item(c.iFd, TCP_SERVER_SEND, Addr(Uint16(c.ifamily), c.sClientIp, Uint16(c.iPort)));
    AddKeepsListed(n.(msgs := n.msgs[c.iFd := CutToBuf(c.sData)]), c.iFd, TCP_SERVER_SEND, Some(temp), true, stale);
  }
}
