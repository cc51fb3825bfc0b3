/** Every step of netio and the container processes keeps the link between them. */
module DeliverySteps {
  import opened Common
  import opened Text
  import opened CmdObj
  import opened Bags
  import opened MsgQueue
  import opened Service
  import opened Dispatcher
  import opened Container
  import opened Protocol
  import opened ProtocolSteps
  import opened Answers
  import opened Reactor
  import opened WatchList
  import opened Delivery

  // ---------------------------------------------------------------- who is asking

  /** Asking, when one connection is added, asks, is answered, or is closed. */
  lemma AskingAfter(held: map<int, Holder>, epoll: map<int, Interest>, fd: int, a: Addr, c: Client)
    ensures fd !in epoll ==> forall i ::
              Asking(held[fd := Holder(a, None)], epoll[fd := In], i) == Asking(held, epoll, i)
    ensures fd in epoll && epoll[fd] == In && fd in held && held[fd].asked.None? ==>
              var h := held[fd := Holder(a, Some(c))];
              fd !in Asking(held, epoll, In) && Asking(h, epoll, In) == Asking(held, epoll, In)[fd := c]
              && Asking(h, epoll, Out) == Asking(held, epoll, Out)
    ensures fd in Asking(held, epoll, In) ==>
              var e, w := epoll[fd := Out], Asking(held, epoll, In);
              Asking(held, e, In) == w - {fd} && Asking(held, e, Out) == Asking(held, epoll, Out)[fd := w[fd]]
    ensures fd in Asking(held, epoll, Out) ==>
              Asking(held - {fd}, epoll - {fd}, In) == Asking(held, epoll, In)
              && Asking(held - {fd}, epoll - {fd}, Out) == Asking(held, epoll, Out) - {fd}
  {
  }

  // ---------------------------------------------------------------- start

  lemma StartLink(j: Joint)
    requires JointInit(j)
    ensures Link(j)
  {
    hide Inv, NetOk;
    InitInv(j.sys);
    StartNet(j);
    assert Asking(j.held, j.net.epoll, In) == map[];
    assert Asking(j.held, j.net.epoll, Out) == map[];
  }

  lemma StartNet(j: Joint)
    requires JointInit(j)
    ensures NetOk(j.net, j.aside, j.sys.delivered, j.held)
  {
    hide Init, HolderOk, Listed, Watched;
    var n0: Net :| ChannelsOpen(n0, j.aside.usock) && j.net == Watched(n0, j.aside.usock);
    assert Constructed(n0, j.aside.usock);
    assert NetStart(j.net);
    StartListed(j.net);
    WatchesChannels(n0, j.aside.usock);
  }

  // ---------------------------------------------------------------- new connections

  /** A new connection has its slot, and is watched unless its descriptor is stale. */
  lemma AcceptIs(n: Net, stale: set<int>, c: Conn)
    requires Listed(n, stale) && 0 <= c.fd < |n.items| && c.fd !in n.open
    ensures var n', slot := AcceptOne(n, c), Item(c.fd, TCP_SERVER_READ, c.addr);
            var n1 := n.(open := n.open + {c.fd}, items := n.items[c.fd := slot]);
            && c.fd !in n.epoll && Listed(n', stale)
            && n' == if c.fd in stale then n1
                     else n1.(epoll := n.epoll[c.fd := In], vec := n.vec + [c.fd], iEvents := n.iEvents + 1)
  {
    hide NoRepeats;
    var n1 := n.(open := n.open + {c.fd}, items := n.items[c.fd := Item(c.fd, TCP_SERVER_READ, c.addr)]);
    AddKeepsListed(n1, c.fd, TCP_SERVER_READ, None, true, stale);
  }

  lemma AcceptKeeps(n: Net, aside: Aside, delivered: seq<Msg>, held: map<int, Holder>, c: Conn)
    requires NetOk(n, aside, delivered, held) && FdOk(c.fd) && c.fd !in n.open && AddrOk(c.addr)
    ensures var n', held' := AcceptOne(n, c), HeldWith(held, aside.stale, c);
            && NetOk(n', aside, delivered, held')
            && n'.open == n.open + {c.fd} && c.fd !in n.epoll && n'.msgs == n.msgs && |n'.items| == |n.items|
            && n'.epoll == (if c.fd in aside.stale then n.epoll else n.epoll[c.fd := In])
    ensures StaleRead(n, aside.stale) ==> StaleRead(AcceptOne(n, c), aside.stale)
  {
    hide AnswerTo, AcceptOne, Listed;
    AcceptIs(n, aside.stale, c);
    var n', held' := AcceptOne(n, c), HeldWith(held, aside.stale, c);
    forall fd | fd in held' ensures HolderOk(n', delivered, fd, held'[fd]) {
      if fd in held {
        assert HolderOk(n, delivered, fd, held[fd]);
        assert fd != c.fd;
      }
    }
  }

  lemma {:induction false} AcceptsKeep(n: Net, aside: Aside, delivered: seq<Msg>, held: map<int, Holder>,
                                       conns: seq<Conn>)
    requires NetOk(n, aside, delivered, held) && FreshConns(n.open, conns)
    requires forall c | c in conns :: 0 <= c.fd < |n.items|
    ensures var n', held' := DoConn(n, conns), HeldAfter(held, aside.stale, conns);
            && NetOk(n', aside, delivered, held')
            && Asking(held', n'.epoll, In) == Asking(held, n.epoll, In)
            && Asking(held', n'.epoll, Out) == Asking(held, n.epoll, Out)
    ensures StaleRead(n, aside.stale) ==> StaleRead(DoConn(n, conns), aside.stale)
    decreases |conns|
  {
    if conns != [] {
      hide NetOk, Asking, AcceptOne, StaleRead;
      var c := conns[0];
      AcceptKeeps(n, aside, delivered, held, c);
      AskingAfter(held, n.epoll, c.fd, c.addr, Client(0, 0, "", 0, 0));
      AcceptsKeep(AcceptOne(n, c), aside, delivered, HeldWith(held, aside.stale, c), conns[1..]);
    }
  }

  // ---------------------------------------------------------------- a request is read

  /** What a readable event does, when it belongs to a connection that has not asked yet. */
  lemma ReadsRequest(j: Joint, e: Event, room: bool)
    requires NetOk(j.net, j.aside, j.sys.delivered, j.held) && e.slot in j.held && j.held[e.slot].asked.None?
    requires JointEnabled(j, Happens(e, room)) && e.reading.Got? && e.conns == []
    ensures e.slot < |j.net.items|
    ensures ActionOf(j.net, e) == Reads(e.slot)
    ensures var fd := e.slot; Enabled(j.sys, RequestStep(j.net, fd, e.reading.buf, room))
    ensures var fd, j' := e.slot, JointNext(j, Happens(e, room));
            var c := Requested(j.net, fd, e.reading.buf);
            && j'.net == DoRecv(j.net, fd, e.reading) && j'.sent == j.sent && j'.aside == j.aside
            && j'.sys == Next(j.sys, RequestStep(j.net, fd, e.reading.buf, room))
            && j'.held == j.held[fd := Holder(j.held[fd].addr, Some(ClientOf(c)))]
  {
    hide AnswerTo, Listed, Parsed, Next, WellFormed, Enabled;
    assert HolderOk(j.net, j.sys.delivered, e.slot, j.held[e.slot]);
  }

  lemma ReadKeepsNet(n: Net, aside: Aside, delivered: seq<Msg>, held: map<int, Holder>, fd: int, buf: string)
    requires NetOk(n, aside, delivered, held) && fd in held && held[fd].asked.None? && 0 <= fd < |n.items|
    ensures var c := ClientOf(Requested(n, fd, buf));
            var n', held' := DoRecv(n, fd, Got(buf)), held[fd := Holder(held[fd].addr, Some(c))];
            NetOk(n', aside, delivered, held') && n'.epoll == n.epoll && fd in n.epoll && n.epoll[fd] == In
  {
    hide AnswerTo, Parsed, Listed;
    DoRecvListed(n, fd, buf, aside.stale);
    assert HolderOk(n, delivered, fd, held[fd]);
    var c := ClientOf(Requested(n, fd, buf));
    var n', held' := DoRecv(n, fd, Got(buf)), held[fd := Holder(held[fd].addr, Some(c))];
    forall k | k in held' ensures HolderOk(n', delivered, k, held'[k]) {
      if k != fd { assert HolderOk(n, delivered, k, held[k]); }
    }
  }

  lemma DoRecvListed(n: Net, fd: int, buf: string, stale: set<int>)
    requires 0 <= fd < |n.items| && Listed(n, stale)
    ensures Listed(DoRecv(n, fd, Got(buf)), stale)
  {
  }

  lemma ReadKeeps(j: Joint, e: Event, room: bool)
    requires Link(j) && JointEnabled(j, Happens(e, room))
    requires e.slot in j.held && j.held[e.slot].asked.None? && e.reading.Got? && e.conns == []
    ensures Link(JointNext(j, Happens(e, room)))
  {
    hide NetOk, Inv, Parsed, Asking, SentOk, JointEnabled, JointNext;
    hide AnswerTo, Enabled, Counts, Next, DoRecv, Requested, StaleRead;
    var fd, j' := e.slot, JointNext(j, Happens(e, room));
    ReadsRequest(j, e, room);
    ReadKeepsNet(j.net, j.aside, j.sys.delivered, j.held, fd, e.reading.buf);
    AskingAfter(j.held, j.net.epoll, fd, j.held[fd].addr, ClientOf(Requested(j.net, fd, e.reading.buf)));
    var st := RequestStep(j.net, fd, e.reading.buf, room);
    NextKeepsInv(j.sys, st);
    RequestCounts(j.sys, st);
    ForwardedIs(j.net, fd, e.reading.buf, room);
    ReadCounts(j, j', fd, ClientOf(Requested(j.net, fd, e.reading.buf)));
    SentSame(j, j');
    HeldNotStale(j, fd);
    StaleSame(j.net, j'.net, j.aside.stale, fd) by { SlotsAfter(j.net, fd, e.reading); }
  }

  lemma HeldNotStale(j: Joint, fd: int)
    requires NetOk(j.net, j.aside, j.sys.delivered, j.held) && fd in j.held
    ensures fd !in j.aside.stale && fd != 0 && FdOk(fd) && fd < |j.net.items| && fd in j.net.vec && fd in j.net.epoll
  {
    hide AnswerTo;
    assert HolderOk(j.net, j.sys.delivered, fd, j.held[fd]);
  }

  /** A step that changes no slot of a stale descriptor. */
  lemma StaleSame(n: Net, n': Net, stale: set<int>, fd: int)
    requires StaleRead(n, stale) && fd !in stale && |n'.items| == |n.items|
    requires forall k | 0 <= k < |n.items| && k != fd :: n'.items[k] == n.items[k]
    ensures StaleRead(n', stale)
  {
  }

  lemma SlotsAfter(n: Net, fd: int, r: Reading)
    requires 0 <= fd < |n.items|
    ensures forall n' | n' == DoRecv(n, fd, r) || n' == DoClose(n, fd) ::
              |n'.items| == |n.items| && forall k | 0 <= k < |n.items| && k != fd :: n'.items[k] == n.items[k]
  {
  }

  // ---------------------------------------------------------------- a read fails

  lemma ReadsNothing(j: Joint, e: Event, room: bool)
    requires NetOk(j.net, j.aside, j.sys.delivered, j.held) && e.slot in j.held && j.held[e.slot].asked.None?
    requires Defined(j, Happens(e, room)) && e.reading.Gone? && !e.rdhup
    ensures ActionOf(j.net, e) == Reads(e.slot)
    ensures Moved(j, Happens(e, room)) ==
            j.(net := KernelClose(j.net, e.slot), held := j.held - {e.slot},
               aside := j.aside.(stale := j.aside.stale + {e.slot}))
  {
    hide AnswerTo, Listed, Parsed, Next, Enabled, HolderOk;
    HeldNotStale(j, e.slot);
    HeldFlag(j, e.slot);
  }

  lemma HeldFlag(j: Joint, fd: int)
    requires NetOk(j.net, j.aside, j.sys.delivered, j.held) && fd in j.held
    ensures FdOk(fd) && fd < |j.net.items| && j.net.items[fd].fd == fd && fd != j.net.svr
    ensures j.net.items[fd].flag == if j.held[fd].asked.None? then TCP_SERVER_READ else TCP_SERVER_SEND
  {
    hide AnswerTo, Listed;
    assert HolderOk(j.net, j.sys.delivered, fd, j.held[fd]);
  }

  /** The connection is gone and its descriptor stale; nobody else notices. */
  lemma FailKeepsNet(n: Net, aside: Aside, delivered: seq<Msg>, held: map<int, Holder>, fd: int)
    requires NetOk(n, aside, delivered, held) && fd in held && held[fd].asked.None? && 0 <= fd < |n.items|
    ensures NetOk(KernelClose(n, fd), aside.(stale := aside.stale + {fd}), delivered, held - {fd})
    ensures StaleRead(n, aside.stale) ==> StaleRead(KernelClose(n, fd), aside.stale + {fd})
  {
    hide AnswerTo;
    assert HolderOk(n, delivered, fd, held[fd]);
    var n', held' := KernelClose(n, fd), held - {fd};
    assert Listed(n', aside.stale + {fd});
    hide Listed;
    forall k | k in held' ensures HolderOk(n', delivered, k, held'[k]) {
      assert HolderOk(n, delivered, k, held[k]);
    }
  }

  lemma FailKeeps(j: Joint, e: Event, room: bool)
    requires Link(j) && JointEnabled(j, Happens(e, room))
    requires e.slot in j.held && j.held[e.slot].asked.None? && e.reading.Gone? && !e.rdhup
    ensures Link(JointNext(j, Happens(e, room)))
  {
    hide NetOk, Inv, Asking, SentOk, JointEnabled, Moved, AnswerTo, Counts, StaleRead, KernelClose;
    JointIsDefined(j, Happens(e, room));
    var fd, j' := e.slot, JointNext(j, Happens(e, room));
    ReadsNothing(j, e, room);
    HeldNotStale(j, fd);
    FailKeepsNet(j.net, j.aside, j.sys.delivered, j.held, fd);
    FailCounts(j, j', fd);
    SentSame(j, j');
  }

  lemma JointIsDefined(j: Joint, st: JointStep)
    requires JointEnabled(j, st)
    ensures Defined(j, st) && JointNext(j, st) == Moved(j, st)
  {
  }

  lemma FailCounts(j: Joint, j': Joint, fd: int)
    requires Counts(j) && fd in j.held && j.held[fd].asked.None? && j'.held == j.held - {fd}
    requires j'.net == KernelClose(j.net, fd) && j'.sys == j.sys && j'.sent == j.sent
    ensures Counts(j')
  {
    hide MapBag, Bag;
    assert Asking(j'.held, j'.net.epoll, In) == Asking(j.held, j.net.epoll, In);
    assert Asking(j'.held, j'.net.epoll, Out) == Asking(j.held, j.net.epoll, Out);
  }

  // ---------------------------------------------------------------- a poll fails

  lemma EmptyIs()
    ensures EmptyAnswer() == DEFAULT_CMD
  {
    CanonEmpty();
    assert Split("", '&') == [];
  }

  /** Only the buffer of descriptor 0 changes, which holds no connection. */
  lemma PollMoves(n: Net, aside: Aside, held: map<int, Holder>)
    requires Sized(n) && Listed(n, aside.stale) && RestOk(n, aside, held)
    ensures Reply(n, EmptyAnswer()) == n.(msgs := n.msgs[0 := ""])
  {
    EmptyIs();
  }

  lemma PollKeepsNet(n: Net, aside: Aside, delivered: seq<Msg>, held: map<int, Holder>)
    requires NetOk(n, aside, delivered, held)
    ensures NetOk(Reply(n, EmptyAnswer()), aside, delivered, held)
  {
    hide AnswerTo, EmptyAnswer, Reply;
    PollMoves(n, aside, held);
    var n' := Reply(n, EmptyAnswer());
    ListedSame(n, n', aside.stale);
    hide Listed;
    forall k | k in held ensures HolderOk(n', delivered, k, held[k]) { assert HolderOk(n, delivered, k, held[k]); }
  }

  lemma ListedSame(n: Net, n': Net, stale: set<int>)
    requires Listed(n, stale) && n'.vec == n.vec && n'.iEvents == n.iEvents && n'.epoll.Keys == n.epoll.Keys
    requires n'.open == n.open
    ensures Listed(n', stale)
  {
  }

  lemma PollKeeps(j: Joint)
    requires Link(j) && JointEnabled(j, PollFails)
    ensures Link(JointNext(j, PollFails))
  {
    hide Inv, Listed, HolderOk, SentOk, Counts, EmptyAnswer, Reply, Asking;
    var j' := JointNext(j, PollFails);
    PollMoves(j.net, j.aside, j.held);
    PollKeepsNet(j.net, j.aside, j.sys.delivered, j.held);
    SentSame(j, j');
    SameCounts(j, j');
  }

  lemma ForwardedIs(n: Net, fd: int, buf: string, room: bool)
    requires 0 <= fd < |n.items|
    ensures var st := RequestStep(n, fd, buf, room);
            Forwarded(st.fd, st.family, st.ip, st.port, st.buf) == Requested(n, fd, buf)
  {
    hide Parsed;
  }

  lemma ReadCounts(j: Joint, j': Joint, fd: int, c: Client)
    requires Counts(j) && j'.sys.delivered == j.sys.delivered && j'.sent == j.sent
    requires j'.sys.accepted == j.sys.accepted + multiset{c}
    requires var w := Asking(j.held, j.net.epoll, In); fd !in w && Asking(j'.held, j'.net.epoll, In) == w[fd := c]
    requires Asking(j'.held, j'.net.epoll, Out) == Asking(j.held, j.net.epoll, Out)
    ensures Counts(j')
  {
    hide Asking, MapBag, Bag;
    MapBagSet(Asking(j.held, j.net.epoll, In), fd, c, One);
    Moves(multiset{c}, Waiting(j), Armed(j), Bag(j.sent, SentTo));
  }

  /** A client is counted at one place after another. */
  lemma Moves<U>(x: multiset<U>, w: multiset<U>, a: multiset<U>, s: multiset<U>)
    ensures w + x + a + s == w + a + s + x
    ensures x + w + a + s == w + (a + x) + s
    ensures w + (x + a) + s == w + a + (s + x)
    ensures x + a + s == a + (s + x)
    ensures a + s + x == a + x + s
  {
  }

  lemma RequestCounts(s: Sys, st: Step)
    requires st.Request? && Enabled(s, st)
    ensures Next(s, st).delivered == s.delivered
    ensures Next(s, st).accepted == s.accepted + multiset{ClientOf(Forwarded(st.fd, st.family, st.ip, st.port, st.buf))}
  {
    hide Parsed, Printed;
  }

  lemma SentSame(j: Joint, j': Joint)
    requires SentOk(j) && j'.sent == j.sent && j'.sys.delivered == j.sys.delivered
    ensures SentOk(j')
  {
    hide AnswerTo;
  }

  // ---------------------------------------------------------------- an answer is written

  lemma WritesAnswer(j: Joint, e: Event, room: bool)
    requires NetOk(j.net, j.aside, j.sys.delivered, j.held)
    requires JointEnabled(j, Happens(e, room)) && e.slot in j.net.epoll && j.net.epoll[e.slot] == Out
    ensures e.slot in j.held && j.held[e.slot].asked.Some? && e.slot < |j.net.msgs| && e.slot < |j.net.items|
    ensures AnswerTo(j.sys.delivered, j.held[e.slot].asked.value, j.net.msgs[e.slot])
    ensures ActionOf(j.net, e) == Writes(e.slot, j.net.msgs[e.slot])
    ensures JointNext(j, Happens(e, room)) ==
            j.(net := DoClose(j.net, e.slot), held := j.held - {e.slot},
               sent := j.sent + [Answered(e.slot, j.held[e.slot].asked, j.net.msgs[e.slot])])
  {
    hide AnswerTo, Listed, WellFormed, Enabled, DoClose;
    assert HolderOk(j.net, j.sys.delivered, e.slot, j.held[e.slot]);
  }

  lemma WriteKeepsNet(n: Net, aside: Aside, delivered: seq<Msg>, held: map<int, Holder>, fd: int)
    requires NetOk(n, aside, delivered, held) && fd in held && 0 <= fd < |n.items|
    ensures var n', held' := DoClose(n, fd), held - {fd};
            NetOk(n', aside, delivered, held') && n'.epoll == n.epoll - {fd}
  {
    hide AnswerTo, Listed, Erased;
    assert HolderOk(n, delivered, fd, held[fd]);
    CloseKeepsListed(n, fd, aside.stale);
    var n', held' := DoClose(n, fd), held - {fd};
    forall k | k in held' ensures HolderOk(n', delivered, k, held'[k]) {
      assert HolderOk(n, delivered, k, held[k]);
    }
  }

  lemma WriteKeeps(j: Joint, e: Event, room: bool)
    requires Link(j) && JointEnabled(j, Happens(e, room)) && e.slot in j.net.epoll && j.net.epoll[e.slot] == Out
    ensures Link(JointNext(j, Happens(e, room)))
  {
    hide Inv, JointEnabled, JointNext, AnswerTo, NetOk, DoClose, Counts, StaleRead;
    WritesAnswer(j, e, room);
    var fd, j' := e.slot, JointNext(j, Happens(e, room));
    WriteKeepsNet(j.net, j.aside, j.sys.delivered, j.held, fd);
    assert fd in Asking(j.held, j.net.epoll, Out);
    hide Asking;
    AskingAfter(j.held, j.net.epoll, fd, j.held[fd].addr, j.held[fd].asked.value);
    WriteCounts(j, j', fd, j.net.msgs[fd]);
    HeldNotStale(j, fd);
    StaleSame(j.net, j'.net, j.aside.stale, fd) by { SlotsAfter(j.net, fd, e.reading); }
  }

  lemma WriteCounts(j: Joint, j': Joint, fd: int, text: string)
    requires Counts(j) && j'.sys == j.sys && fd in j.held && fd in Asking(j.held, j.net.epoll, Out)
    requires j'.sent == j.sent + [Answered(fd, j.held[fd].asked, text)]
    requires Asking(j'.held, j'.net.epoll, In) == Asking(j.held, j.net.epoll, In)
    requires Asking(j'.held, j'.net.epoll, Out) == Asking(j.held, j.net.epoll, Out) - {fd}
    ensures Counts(j')
  {
    var armed, c := Asking(j.held, j.net.epoll, Out), j.held[fd].asked.value;
    assert armed[fd] == c;
    hide Asking, MapBag, Bag;
    MapBagTake(armed, fd, One);
    BagAppend(j.sent, Answered(fd, j.held[fd].asked, text), SentTo);
    Moves(multiset{c}, Waiting(j), Armed(j'), Bag(j.sent, SentTo));
  }

  // ---------------------------------------------------------------- an answer arrives

  lemma AnswerIsCounted(j: Joint, m: Msg)
    requires Link(j) && m in j.sys.qs.back
    ensures GoodBack(j.sys.fleet, m) && ClientIn(m) == multiset{ClientOf(Read(m))}
    ensures ClientOf(Read(m)) in Waiting(j)
  {
    hide Parsed, NetOk, FleetOk, CallsBalance, GoodBody, SentOk, Queued, Saved, LostClients, Waiting, Armed, MapBag;
    var s := j.sys;
    assert GoodBack(s.fleet, m);
    BagHolds(s.qs.back, m, ClientIn);
    AwaitedCount(Queued(s) + Saved(s) + LostClients(s), Bag(s.qs.back, ClientIn), Bag(s.delivered, ClientIn),
                 s.accepted, Waiting(j), Armed(j) + Bag(j.sent, SentTo), ClientOf(Read(m)));
  }

  /** Every answer on its way belongs to a connection that waits for it. */
  lemma AnswerIsAwaited(j: Joint, m: Msg) returns (fd: int)
    requires Link(j) && m in j.sys.qs.back
    ensures GoodBack(j.sys.fleet, m) && ClientIn(m) == multiset{ClientOf(Read(m))}
    ensures var waiting := Asking(j.held, j.net.epoll, In); fd in waiting && waiting[fd] == ClientOf(Read(m))
    ensures Read(m).iFd == fd && FdOk(fd)
  {
    hide Parsed, Listed, Inv, GoodBack, SentOk, Counts, AnswerTo, RestOk, MapBag, ClientIn;
    AnswerIsCounted(j, m);
    var waiting := Asking(j.held, j.net.epoll, In);
    var client := ClientOf(Read(m));
    MapBagMember(waiting, client, One);
    fd :| fd in waiting && client in One(fd, waiting[fd]);
    assert HolderOk(j.net, j.sys.delivered, fd, j.held[fd]);
  }

  lemma AwaitedCount<U>(rest: multiset<U>, back: multiset<U>, delivered: multiset<U>, accepted: multiset<U>,
                        waiting: multiset<U>, others: multiset<U>, x: U)
    requires rest + (back + delivered) == accepted && accepted == waiting + others && delivered == others
    requires x in back
    ensures x in waiting
  {
    assert (rest + (back + delivered))[x] == (waiting + others)[x];
  }

  /** The answer of a waiting connection is stored in its buffer, and the
      connection is watched for writing. */
  lemma ReplyKeepsNet(n: Net, aside: Aside, delivered: seq<Msg>, held: map<int, Holder>, fd: int, m: Msg)
    requires NetOk(n, aside, delivered, held) && fd in Asking(held, n.epoll, In) && FdOk(fd)
    requires var c := Read(m); c.iFd == fd && ClientOf(c) == Asking(held, n.epoll, In)[fd] && |c.sData| < BUF_SIZE
    requires |n.msgs| <= |n.items|
    ensures Read(m).iFd < |n.msgs|
    ensures var n' := Reply(n, Read(m));
            && NetOk(n', aside, delivered + [m], held) && n'.epoll == n.epoll[fd := Out]
            && (StaleRead(n, aside.stale) ==> StaleRead(n', aside.stale))
  {
    hide Parsed;
    var c, h := Read(m), held[fd];
    assert HolderOk(n, delivered, fd, h);
    ReplyKeepsListed(n, c, aside.stale);
    var n' := Reply(n, c);
    assert n' == n.(msgs := n.msgs[fd := c.sData], items := n.items[fd := Item(fd, TCP_SERVER_SEND, h.addr)],
                    epoll := n.epoll[fd := Out]);
    hide Reply, Listed;
    assert AnswerTo(delivered + [m], ClientOf(c), c.sData);
    hide AnswerTo;
    forall k | k in held ensures HolderOk(n', delivered + [m], k, held[k]) {
      assert HolderOk(n, delivered, k, held[k]);
      if held[k].asked.Some? { AnswerStays(delivered, held[k].asked.value, n.msgs[k], m); }
    }
  }

  lemma AnswerStays(delivered: seq<Msg>, c: Client, text: string, m: Msg)
    ensures AnswerTo(delivered, c, text) ==> AnswerTo(delivered + [m], c, text)
  {
    hide Parsed;
  }

  /** The bodies that reach netio are short. */
  lemma BodyShort(fleet: map<int, int>, m: Msg)
    requires GoodBack(fleet, m) && forall p | p in fleet :: PidOk(p)
    ensures |Read(m).sData| < BUF_SIZE
  {
    hide Parsed, ByPid, ErrText;
    var s := Read(m).sData;
    var e := ErrText(NO_FREE_SVC_HANDLER);
    var p :| p in fleet && (s == ByPid("resp1=r1", p) || s == ByPid("resp1=r1&resp2=r2", p) || s == ByPid(e, p));
    ByPidShort("resp1=r1", p);
    ByPidShort("resp1=r1&resp2=r2", p);
    ErrTextShort();
    ByPidShort(ErrText(NO_FREE_SVC_HANDLER), p);
  }

  lemma ByPidShort(t: string, pid: int)
    requires PidOk(pid) && |t| <= 100
    ensures |ByPid(t, pid)| < BUF_SIZE
  {
    ItoaPlain(pid);
  }

  lemma ErrTextShort()
    ensures |ErrText(NO_FREE_SVC_HANDLER)| <= 100
  {
    ItoaPlain(NO_FREE_SVC_HANDLER);
  }

  lemma NextIsThere(j: Joint)
    requires Enabled(j.sys, Deliver)
    ensures NextAnswer(j) in j.sys.qs.back
  {
  }

  lemma AnswerKeeps(j: Joint)
    requires Link(j) && JointEnabled(j, Arrives)
    ensures Link(JointNext(j, Arrives))
  {
    hide Inv, Enabled, Next, Parsed, Reply, NetOk, Asking, Counts, GoodBack, AnswerTo, StaleRead;
    var m, j' := NextAnswer(j), JointNext(j, Arrives);
    NextIsThere(j);
    var fd := AnswerIsAwaited(j, m);
    NextKeepsInv(j.sys, Deliver);
    PidsOk(j.sys);
    BodyShort(j.sys.fleet, m);
    DeliverCounts(j.sys);
    ReplyKeepsNet(j.net, j.aside, j.sys.delivered, j.held, fd, m);
    AskingAfter(j.held, j.net.epoll, fd, Addr(0, "", 0), Client(0, 0, "", 0, 0));
    ReplyCounts(j, j', fd, m);
    forall a | a in j'.sent ensures a.asked.Some? && AnswerTo(j'.sys.delivered, a.asked.value, a.text) {
      AnswerStays(j.sys.delivered, a.asked.value, a.text, m);
    }
  }

  lemma PidsOk(s: Sys)
    requires Inv(s)
    ensures forall p | p in s.fleet :: PidOk(p)
  {
    hide MessagesOk, CallsBalance, ClientsBalance, PoolOk, SavedOk;
  }

  lemma DeliverCounts(s: Sys)
    requires Enabled(s, Deliver)
    ensures var i := FirstOf(s.qs.back, RESPONSE);
            Next(s, Deliver).delivered == s.delivered + [s.qs.back[i]] && Next(s, Deliver).accepted == s.accepted
  {
  }

  lemma ReplyCounts(j: Joint, j': Joint, fd: int, m: Msg)
    requires Counts(j) && j'.sys.delivered == j.sys.delivered + [m] && j'.sys.accepted == j.sys.accepted
    requires j'.sent == j.sent
    requires var w, a := Asking(j.held, j.net.epoll, In), Asking(j.held, j.net.epoll, Out);
             && fd in w && ClientIn(m) == multiset{w[fd]}
             && Asking(j'.held, j'.net.epoll, In) == w - {fd} && Asking(j'.held, j'.net.epoll, Out) == a[fd := w[fd]]
    ensures Counts(j')
  {
    var w, a := Asking(j.held, j.net.epoll, In), Asking(j.held, j.net.epoll, Out);
    assert fd !in a;
    hide Asking, MapBag, Bag, ClientIn;
    MapBagTake(w, fd, One);
    MapBagSet(a, fd, w[fd], One);
    BagAppend(j.sys.delivered, m, ClientIn);
    Moves(multiset{w[fd]}, Waiting(j'), Armed(j), Bag(j.sent, SentTo));
  }

  // ---------------------------------------------------------------- all steps

  lemma TurnKeeps(j: Joint, st: JointStep)
    requires Link(j) && st.Turn? && JointEnabled(j, st)
    ensures Link(JointNext(j, st))
  {
    hide Inv, NetOk, SentOk, Counts, Next, Enabled, StaleRead;
    var j', step := JointNext(j, st), Step.Container(st.pid, st.sees, st.roomNested, st.roomAnswer);
    NextKeepsInv(j.sys, step);
    TurnCounts(j.sys, step);
    SentSame(j, j');
    SameCounts(j, j');
  }

  lemma TurnCounts(s: Sys, st: Step)
    requires st.Container? && Enabled(s, st)
    ensures Next(s, st).delivered == s.delivered && Next(s, st).accepted == s.accepted
  {
    hide Fire;
  }

  lemma SameCounts(j: Joint, j': Joint)
    requires Counts(j) && j'.net.epoll == j.net.epoll && j'.held == j.held && j'.sent == j.sent
    requires j'.sys.delivered == j.sys.delivered && j'.sys.accepted == j.sys.accepted
    ensures Counts(j')
  {
  }

  lemma ConnectsKeep(j: Joint, e: Event, room: bool)
    requires Link(j) && JointEnabled(j, Happens(e, room)) && e.slot == j.net.svr
    requires FreshConns(j.net.open, e.conns)
    ensures Link(JointNext(j, Happens(e, room)))
  {
    hide Inv, Parsed, AnswerTo, Listed, Enabled, DoConn, HeldAfter, FreshConns, StaleRead;
    AcceptsKeep(j.net, j.aside, j.sys.delivered, j.held, e.conns);
    assert ActionOf(j.net, e) == Accepts;
    hide Asking, NetOk;
  }

  lemma StepKeepsLink(j: Joint, st: JointStep)
    requires Link(j) && JointEnabled(j, st)
    ensures Link(JointNext(j, st))
  {
    match st
    case Happens(e, room) =>
      hide Link, JointNext, WellFormed, FreshConns, Enabled;
      if e.slot == j.net.svr && FreshConns(j.net.open, e.conns) {
        ConnectsKeep(j, e, room);
      } else if e.slot in j.held && j.held[e.slot].asked.None? && e.conns == [] && e.reading.Got? {
        ReadKeeps(j, e, room);
      } else if e.slot in j.held && j.held[e.slot].asked.None? && e.reading.Gone? {
        FailKeeps(j, e, room);
      } else {
        WriteKeeps(j, e, room);
      }
    case Arrives => AnswerKeeps(j);
    case PollFails => PollKeeps(j);
    case Turn(_, _, _, _) => TurnKeeps(j, st);
  }
}
