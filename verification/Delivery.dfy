/** netio and the container processes together: which answer is written to which
    connection. The runs are those on which every connection has one readable
    event, with its request or a failing read, and no client closes before its answer. */
module Delivery {
  import opened Common
  import opened CmdObj
  import opened Bags
  import opened MsgQueue
  import opened Container
  import opened Protocol
  import opened Reactor
  import opened WatchList

  // ---------------------------------------------------------------- states and steps

  /** The connection that a descriptor holds now: the client's address, and who
      asked what once its request was read. */
  datatype Holder = Holder(addr: Addr, asked: Option<Client>)

  /** An answer written to a connection. */
  datatype Answered = Answered(fd: int, asked: Option<Client>, text: string)

  /** Descriptors that hold no served connection: the wake-up channel, and those
      whose read has failed, on which a later connection is never watched. */
  datatype Aside = Aside(usock: int, stale: set<int>)

  /** `held`, `sent` and the stale descriptors are history; `held` has the
      connections that netio watches. */
  datatype Joint = Joint(net: Net, aside: Aside, sys: Sys, held: map<int, Holder>, sent: seq<Answered>)

  datatype JointStep =
    | Happens(e: Event, room: bool)
    | Arrives
    | PollFails
    | Turn(pid: int, sees: Sees, roomNested: bool, roomAnswer: bool)

  predicate AddrOk(a: Addr) { 0 <= a.family < 0x1_0000 && 0 <= a.port < 0x1_0000 && IpOk(a.ip) }

  /** accept gives descriptors that were not open. */
  predicate FreshConns(open: set<int>, conns: seq<Conn>)
    decreases |conns|
  {
    conns == [] || (FdOk(conns[0].fd) && conns[0].fd !in open && AddrOk(conns[0].addr)
                    && FreshConns(open + {conns[0].fd}, conns[1..]))
  }

  /** What the kernel may report, of what it watches: new connections; the request of a connection
      that is watched for reading, or that reading it fails; or that one watched
      for writing is writable. */
  ghost predicate Reported(j: Joint, e: Event) {
    && !e.rdhup && e.slot in j.net.epoll
    && ((e.slot == j.net.svr && FreshConns(j.net.open, e.conns))
        || (e.slot in j.held && j.held[e.slot].asked.None? && e.conns == []
            && (e.reading.Got? ==> WellFormed(e.reading.buf)))
        || (j.net.epoll[e.slot] == Out && e.conns == []))
  }

  function RequestStep(n: Net, fd: int, buf: string, room: bool): Step
    requires 0 <= fd < |n.items|
  {
    var c := Requested(n, fd, buf);
    Request(c.iFd, c.ifamily, c.sClientIp, c.iPort, buf, room)
  }

  /** What a step needs to be taken at all, whatever the kernel reports. */
  ghost predicate Defined(j: Joint, st: JointStep) {
    match st
    case Happens(e, room) =>
      && EventOk(j.net, e)
      && var a := ActionOf(j.net, e);
         a.Reads? && e.reading.Got? ==> Enabled(j.sys, RequestStep(j.net, a.fd, e.reading.buf, room))
    case Arrives => Sized(j.net) && Enabled(j.sys, Deliver) && FdOk(Read(NextAnswer(j)).iFd)
    case PollFails => Sized(j.net)
    case Turn(pid, sees, r1, r2) => Enabled(j.sys, Step.Container(pid, sees, r1, r2))
  }

  ghost predicate JointEnabled(j: Joint, st: JointStep) {
    Defined(j, st) && (st.Happens? ==> Reported(j, st.e))
  }

  function NextAnswer(j: Joint): Msg
    requires Enabled(j.sys, Deliver)
  {
    j.sys.qs.back[FirstOf(j.sys.qs.back, RESPONSE)]
  }

  /** What netio goes on with when msgrcv fails: the empty text, read as a command. */
  function EmptyAnswer(): (c: Cmd)
    ensures c.iFd == 0
  {
    Parsed(DEFAULT_CMD, "")
  }

  /** A connection on a stale descriptor is accepted but not watched. */
  function HeldWith(held: map<int, Holder>, stale: set<int>, c: Conn): map<int, Holder> {
    if c.fd in stale then held else held[c.fd := Holder(c.addr, None)]
  }

  function HeldAfter(held: map<int, Holder>, stale: set<int>, conns: seq<Conn>): map<int, Holder>
    decreases |conns|
  {
    if conns == [] then held else HeldAfter(HeldWith(held, stale, conns[0]), stale, conns[1..])
  }

  /** The history that an action adds. */
  function Noted(j: Joint, a: Action, e: Event, room: bool): Joint
    requires a.Reads? ==> 0 <= a.fd < |j.net.items|
    requires a.Reads? && e.reading.Got? ==> Enabled(j.sys, RequestStep(j.net, a.fd, e.reading.buf, room))
  {
    match a
    case Accepts => j.(held := HeldAfter(j.held, j.aside.stale, e.conns))
    case Reads(fd) =>
      if e.reading.Got? && fd in j.held then
        var c := Requested(j.net, fd, e.reading.buf);
        j.(sys := Next(j.sys, RequestStep(j.net, fd, e.reading.buf, room)),
           held := j.held[fd := Holder(j.held[fd].addr, Some(ClientOf(c)))])
      else if e.reading.Gone? then
        j.(held := j.held - {fd}, aside := j.aside.(stale := j.aside.stale + StaleBy(j.net, a, e.reading)))
      else j
    case Writes(fd, text) =>
      j.(held := j.held - {fd}, sent := j.sent + [Answered(fd, if fd in j.held then j.held[fd].asked else None, text)])
    case Closes(fd) => j.(held := j.held - {fd})
    case Idle => j
  }

  function Moved(j: Joint, st: JointStep): Joint
    requires Defined(j, st)
  {
    match st
    case Happens(e, room) =>
      var a := ActionOf(j.net, e);
      Noted(j, a, e, room).(net := Handled(j.net, a, e))
    case Arrives => j.(net := Reply(j.net, Read(NextAnswer(j))), sys := Next(j.sys, Deliver))
    case PollFails => j.(net := Reply(j.net, EmptyAnswer()))
    case Turn(pid, sees, r1, r2) => j.(sys := Next(j.sys, Step.Container(pid, sees, r1, r2)))
  }

  function JointNext(j: Joint, st: JointStep): Joint
    requires JointEnabled(j, st)
  {
    Moved(j, st)
  }

  /** Both channels are open, standard input still is, and no other slot is in use. */
  ghost predicate ChannelsOpen(n: Net, usock: int) {
    && Constructed(n, usock)
    && n.svr != 0 && n.svr != usock && {0, n.svr, usock} <= n.open
    && n.items[n.svr].fd == n.svr && n.items[n.svr].flag == TCP_SERVER_ACCEPT
    && forall k | 0 <= k < |n.items| && k != n.svr && (k != usock || k == 0) :: n.items[k].flag == NONE_FLAG
  }

  ghost predicate JointInit(j: Joint) {
    && Init(j.sys) && j.sys.qs == Queues([], [], []) && j.held == map[] && j.sent == [] && j.aside.stale == {}
    && exists n0: Net :: ChannelsOpen(n0, j.aside.usock) && j.net == Watched(n0, j.aside.usock)
  }

  ghost predicate JointStepAt(tr: seq<Joint>, steps: seq<JointStep>, i: int) {
    0 <= i < |steps| && i + 1 < |tr| && JointEnabled(tr[i], steps[i]) && tr[i + 1] == JointNext(tr[i], steps[i])
  }

  ghost predicate JointRun(tr: seq<Joint>, steps: seq<JointStep>) {
    |tr| == |steps| + 1 && JointInit(tr[0]) && forall i | 0 <= i < |steps| :: JointStepAt(tr, steps, i)
  }

  // ---------------------------------------------------------------- the invariant

  /** Connections whose request was read and that are watched for i: In while
      the answer is missing, Out once it is there. */
  ghost function Asking(held: map<int, Holder>, epoll: map<int, Interest>, i: Interest): map<int, Client> {
    map fd | fd in held && held[fd].asked.Some? && fd in epoll && epoll[fd] == i :: held[fd].asked.value
  }

  function One(fd: int, c: Client): multiset<Client> { multiset{c} }

  function SentTo(a: Answered): multiset<Client> { if a.asked.Some? then multiset{a.asked.value} else multiset{} }

  ghost function Waiting(j: Joint): multiset<Client> { MapBag(Asking(j.held, j.net.epoll, In), One) }

  ghost function Armed(j: Joint): multiset<Client> { MapBag(Asking(j.held, j.net.epoll, Out), One) }

  ghost predicate AnswerTo(delivered: seq<Msg>, c: Client, text: string) {
    exists m :: m in delivered && ClientOf(Read(m)) == c && Read(m).sData == text
  }

  ghost predicate HolderOk(n: Net, delivered: seq<Msg>, fd: int, h: Holder) {
    && FdOk(fd) && fd != n.svr && fd < |n.items| && fd < |n.msgs| && fd in n.open && fd in n.epoll
    && n.items[fd].fd == fd && n.items[fd].addr == h.addr && AddrOk(h.addr)
    && match h.asked
       case None => n.items[fd].flag == TCP_SERVER_READ && n.epoll[fd] == In
       case Some(c) =>
         && n.items[fd].flag == TCP_SERVER_SEND
         && c.fd == fd && c.family == h.addr.family && c.ip == h.addr.ip && c.port == h.addr.port
         && (n.epoll[fd] == Out ==> AnswerTo(delivered, c, n.msgs[fd]))
  }

  /** Everything else: the channels, and slots of descriptors without connection. */
  ghost predicate RestOk(n: Net, aside: Aside, held: map<int, Holder>) {
    && n.svr != 0 && n.svr != aside.usock && {0, n.svr, aside.usock} <= n.open
    && (forall fd | fd in {0, n.svr, aside.usock} :: fd !in held && fd !in aside.stale)
    && n.svr in n.epoll && (aside.usock != 0 ==> aside.usock in n.epoll)
    && held.Keys !! aside.stale
    && 0 <= n.svr < |n.items| && n.items[n.svr].fd == n.svr && n.items[n.svr].flag == TCP_SERVER_ACCEPT
    && (forall fd | fd in n.epoll && fd !in held :: n.epoll[fd] == In)
    && (forall k | 0 <= k < |n.items| && k != n.svr && (k != aside.usock || k == 0)
                   && k !in held && k !in aside.stale :: n.items[k].flag == NONE_FLAG)
  }

  ghost predicate NetOk(n: Net, aside: Aside, delivered: seq<Msg>, held: map<int, Holder>) {
    && Sized(n) && Listed(n, aside.stale) && RestOk(n, aside, held)
    && forall fd | fd in held :: HolderOk(n, delivered, fd, held[fd])
  }

  ghost predicate Counts(j: Joint) {
    && Bag(j.sys.delivered, ClientIn) == Armed(j) + Bag(j.sent, SentTo)
    && j.sys.accepted == Waiting(j) + Armed(j) + Bag(j.sent, SentTo)
  }

  ghost predicate SentOk(j: Joint) {
    forall a | a in j.sent :: a.asked.Some? && AnswerTo(j.sys.delivered, a.asked.value, a.text)
  }

  /** The slot of a stale descriptor stays as the failed read, or a later accept, left it. */
  ghost predicate StaleRead(n: Net, stale: set<int>) {
    forall fd | fd in stale :: 0 <= fd < |n.items| && n.items[fd].flag == TCP_SERVER_READ
  }

  ghost predicate Link(j: Joint) {
    && Inv(j.sys) && NetOk(j.net, j.aside, j.sys.delivered, j.held) && Counts(j) && SentOk(j)
    && StaleRead(j.net, j.aside.stale)
  }
}
