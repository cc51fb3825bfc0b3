/** netio and the containers when clients may hang up before their answer, and
    send in more than one piece: which late answers are harmless, and which
    writes are right. */
module HangUps {
  import opened Common
  import opened CmdObj
  import opened Bags
  import opened MsgQueue
  import opened Protocol
  import opened ProtocolSteps
  import opened Reactor
  import opened Delivery
  import opened DeliverySteps
  import opened DeliveryRuns

  // ---------------------------------------------------------------- states and steps

  /** `stored` is history: whose answer the buffer of a descriptor holds, if one
      has come since the connection that holds the descriptor was accepted. */
  datatype Wide = Wide(j: Joint, stored: map<int, Client>)

  /** New connections; and for a connection, at any time, that it is readable or
      writable, or that its client has hung up. The first thing it sends is its request,
      unless reading it fails. */
  ghost predicate WideReported(j: Joint, e: Event) {
    || (e.slot == j.net.svr && e.slot in j.net.epoll && !e.rdhup && FreshConns(j.net.open, e.conns))
    || (e.slot in j.held && e.slot in j.net.epoll && e.conns == []
        && (e.rdhup || j.held[e.slot].asked.Some? || (e.reading.Got? ==> WellFormed(e.reading.buf))))
  }

  ghost predicate WideEnabled(w: Wide, st: JointStep) {
    Defined(w.j, st) && (st.Happens? ==> WideReported(w.j, st.e))
  }

  function WideNext(w: Wide, st: JointStep): Wide
    requires WideEnabled(w, st)
  {
    var j' := Moved(w.j, st);
    match st
    case Happens(e, _) => Wide(j', w.stored - (set c | c in e.conns :: c.fd))
    case Arrives => var c := Read(NextAnswer(w.j)); Wide(j', w.stored[c.iFd as int := ClientOf(c)])
    case PollFails => Wide(j', w.stored - {0})
    case Turn(_, _, _, _) => Wide(j', w.stored)
  }

  // ---------------------------------------------------------------- the invariant

  /** A descriptor watched for writing holds the answer for the client that asked
      through it; one watched for reading holds at most an answer that the endpoint
      check has turned away. */
  ghost predicate StoredOk(held: map<int, Holder>, epoll: map<int, Interest>, stored: map<int, Client>) {
    forall fd | fd in held && fd in epoll ::
      StoredAt(held[fd], epoll[fd], fd in stored, if fd in stored then stored[fd] else NOBODY)
  }

  const NOBODY := Client(0, 0, "", 0, 0)

  ghost predicate StoredAt(h: Holder, i: Interest, any: bool, c: Client) {
    if i == Out then any && h.asked == Some(c) else any ==> !SameEnd(h.addr, c)
  }

  /** What the endpoint check compares. */
  predicate SameEnd(a: Addr, c: Client) { c.port == a.port && c.family == a.family }

  ghost predicate TextsOk(msgs: seq<string>, delivered: seq<Msg>, stored: map<int, Client>) {
    forall fd | fd in stored :: 0 <= fd < |msgs| && AnswerTo(delivered, stored[fd], msgs[fd])
  }

  /** Every request came through a descriptor of a connection. */
  ghost predicate ClientFits(n: Net, aside: Aside, c: Client) {
    && FdOk(c.fd) && c.fd != 0 && c.fd != n.svr && c.fd != aside.usock
    && 0 <= c.port < 0x1_0000 && 0 <= c.family < 0x1_0000
  }

  ghost predicate WideInv(w: Wide) {
    && Inv(w.j.sys) && NetOk(w.j.net, w.j.aside, w.j.sys.delivered, w.j.held)
    && StoredOk(w.j.held, w.j.net.epoll, w.stored)
    && TextsOk(w.j.net.msgs, w.j.sys.delivered, w.stored)
    && forall c | c in w.j.sys.accepted :: ClientFits(w.j.net, w.j.aside, c)
  }

  lemma StartWide(j: Joint)
    requires JointInit(j)
    ensures WideInv(Wide(j, map[]))
  {
    hide Inv, NetOk, AnswerTo;
    StartNet(j);
    InitInv(j.sys);
    assert j.sys.accepted == multiset{};
  }

  // ---------------------------------------------------------------- events

  lemma SameTexts(n: Net, n': Net, d: seq<Msg>, stored: map<int, Client>, gone: set<int>)
    requires TextsOk(n.msgs, d, stored) && n'.msgs == n.msgs
    ensures TextsOk(n'.msgs, d, stored - gone)
  {
    hide AnswerTo;
  }

  lemma {:induction false} AcceptsStored(n: Net, aside: Aside, delivered: seq<Msg>, held: map<int, Holder>,
                                         conns: seq<Conn>, stored: map<int, Client>)
    requires NetOk(n, aside, delivered, held) && FreshConns(n.open, conns)
    requires forall c | c in conns :: 0 <= c.fd < |n.items|
    requires StoredOk(held, n.epoll, stored) && forall c | c in conns :: c.fd !in stored
    ensures StoredOk(HeldAfter(held, aside.stale, conns), DoConn(n, conns).epoll, stored)
    ensures DoConn(n, conns).msgs == n.msgs
    decreases |conns|
  {
    if conns != [] {
      var c := conns[0];
      assert c in conns;
      AcceptKeeps(n, aside, delivered, held, c);
      AcceptedMsgs(n, c);
      hide NetOk, AcceptOne;
      var held' := HeldWith(held, aside.stale, c);
      assert StoredOk(held', AcceptOne(n, c).epoll, stored);
      AcceptsStored(AcceptOne(n, c), aside, delivered, held', conns[1..], stored);
    }
  }

  lemma AcceptedMsgs(n: Net, c: Conn)
    requires 0 <= c.fd < |n.items|
    ensures AcceptOne(n, c).msgs == n.msgs && |AcceptOne(n, c).items| == |n.items|
  {
  }

  lemma LessStored(held: map<int, Holder>, epoll: map<int, Interest>, stored: map<int, Client>, gone: set<int>)
    requires StoredOk(held, epoll, stored) && forall fd | fd in held :: fd !in gone
    ensures StoredOk(held, epoll, stored - gone)
  {
  }

  lemma {:induction false} FreshNotHeld(open: set<int>, conns: seq<Conn>, fd: int)
    requires FreshConns(open, conns) && fd in open
    ensures forall c | c in conns :: c.fd != fd
    decreases |conns|
  {
    if conns != [] {
      FreshNotHeld(open + {conns[0].fd}, conns[1..], fd);
      assert forall c | c in conns :: c == conns[0] || c in conns[1..];
    }
  }

  lemma ConnectsKeepWide(w: Wide, e: Event, room: bool)
    requires WideInv(w) && WideEnabled(w, Happens(e, room)) && e.slot == w.j.net.svr
    ensures WideInv(WideNext(w, Happens(e, room)))
  {
    hide Inv, AnswerTo, Listed, Enabled, HolderOk, StoredAt, WellFormed;
    var j, gone := w.j, set c | c in e.conns :: c.fd;
    AcceptStep(j, e, room);
    AcceptsKeep(j.net, j.aside, j.sys.delivered, j.held, e.conns);
    forall fd | fd in j.held ensures fd !in gone { FreshNotHeld(j.net.open, e.conns, fd); }
    LessStored(j.held, j.net.epoll, w.stored, gone);
    AcceptsStored(j.net, j.aside, j.sys.delivered, j.held, e.conns, w.stored - gone);
    SameTexts(j.net, DoConn(j.net, e.conns), j.sys.delivered, w.stored, gone);
    ConnsKeepSvr(j.net, e.conns);
  }

  lemma ReadKeepsWide(w: Wide, e: Event, room: bool)
    requires WideInv(w) && WideEnabled(w, Happens(e, room)) && e.slot in w.j.held && !e.rdhup
    requires w.j.held[e.slot].asked.None? && e.reading.Got?
    ensures WideInv(WideNext(w, Happens(e, room)))
  {
    hide Inv, AnswerTo, Enabled, Next, Parsed, NetOk, StoredAt, WellFormed, Moved, FreshConns;
    var j, fd := w.j, e.slot;
    HeldIsNoChannel(j, fd);
    ReadsRequest(j, e, room);
    ReadKeepsNet(j.net, j.aside, j.sys.delivered, j.held, fd, e.reading.buf);
    var st := RequestStep(j.net, fd, e.reading.buf, room);
    NextKeepsInv(j.sys, st);
    RequestCounts(j.sys, st);
    ForwardedIs(j.net, fd, e.reading.buf, room);
    HolderFits(j, fd, e.reading.buf);
    assert w.stored - (set c | c in e.conns :: c.fd) == w.stored;
    ReadStored(w, fd, ClientOf(Requested(j.net, fd, e.reading.buf)));
  }

  lemma HeldIsNoChannel(j: Joint, fd: int)
    requires NetOk(j.net, j.aside, j.sys.delivered, j.held) && fd in j.held
    ensures fd != 0 && fd != j.net.svr && fd != j.aside.usock && FdOk(fd) && fd < |j.net.items| && fd < |j.net.msgs|
    ensures fd in j.net.epoll && j.net.items[fd].fd == fd && j.net.items[fd].addr == j.held[fd].addr
    ensures j.held[fd].asked.None? ==> j.net.items[fd].flag == TCP_SERVER_READ && j.net.epoll[fd] == In
    ensures j.held[fd].asked.Some? ==>
              && j.net.items[fd].flag == TCP_SERVER_SEND && j.held[fd].asked.value.fd == fd
              && SameEnd(j.held[fd].addr, j.held[fd].asked.value)
  {
    hide AnswerTo, Listed;
    assert HolderOk(j.net, j.sys.delivered, fd, j.held[fd]);
  }

  lemma HolderFits(j: Joint, fd: int, buf: string)
    requires NetOk(j.net, j.aside, j.sys.delivered, j.held) && fd in j.held && 0 <= fd < |j.net.items|
    ensures ClientFits(j.net, j.aside, ClientOf(Requested(j.net, fd, buf)))
  {
    hide AnswerTo, Listed, Parsed;
    assert HolderOk(j.net, j.sys.delivered, fd, j.held[fd]);
  }

  lemma ReadStored(w: Wide, fd: int, c: Client)
    requires StoredOk(w.j.held, w.j.net.epoll, w.stored)
    requires fd in w.j.held && fd in w.j.net.epoll && w.j.net.epoll[fd] == In
    ensures StoredOk(w.j.held[fd := Holder(w.j.held[fd].addr, Some(c))], w.j.net.epoll, w.stored)
  {
  }

  /** A hang-up, and a write: the connection is closed. */
  lemma CloseKeepsWide(w: Wide, e: Event, room: bool)
    requires WideInv(w) && WideEnabled(w, Happens(e, room)) && e.slot in w.j.held
    requires e.rdhup || w.j.held[e.slot].asked.Some?
    ensures WideInv(WideNext(w, Happens(e, room)))
    ensures ActionOf(w.j.net, e) == if e.rdhup then Closes(e.slot) else Writes(e.slot, w.j.net.msgs[e.slot])
  {
    hide Inv, AnswerTo, Enabled, Listed, HolderOk, StoredAt, WellFormed, FreshConns, RestOk, DoClose;
    var j, fd := w.j, e.slot;
    HeldIsNoChannel(j, fd);
    WriteKeepsNet(j.net, j.aside, j.sys.delivered, j.held, fd);
    ClosedMsgs(j.net, fd);
    SameTexts(j.net, DoClose(j.net, fd), j.sys.delivered, w.stored, {});
    assert w.stored - (set c | c in e.conns :: c.fd) == w.stored == w.stored - {};
    ClosedStored(j.held, j.net.epoll, w.stored, fd);
  }

  lemma ClosedMsgs(n: Net, fd: int)
    requires 0 <= fd < |n.items|
    ensures DoClose(n, fd).msgs == n.msgs && DoClose(n, fd).svr == n.svr
  {
  }

  lemma ClosedStored(held: map<int, Holder>, epoll: map<int, Interest>, stored: map<int, Client>, fd: int)
    requires StoredOk(held, epoll, stored)
    ensures StoredOk(held - {fd}, epoll - {fd}, stored)
  {
  }

  /** A failed read: the connection is gone, and its descriptor stale. */
  lemma FailKeepsWide(w: Wide, e: Event, room: bool)
    requires WideInv(w) && WideEnabled(w, Happens(e, room)) && e.slot in w.j.held && !e.rdhup
    requires w.j.held[e.slot].asked.None? && e.reading.Gone?
    ensures WideInv(WideNext(w, Happens(e, room)))
  {
    hide Inv, AnswerTo, Enabled, NetOk, StoredAt, WellFormed, FreshConns, Moved, StaleRead, HolderOk;
    var j, fd := w.j, e.slot;
    HeldIsNoChannel(j, fd);
    NotNew(j, e);
    ReadsNothing(j, e, room);
    FailKeepsNet(j.net, j.aside, j.sys.delivered, j.held, fd);
    ClosedStored(j.held, j.net.epoll, w.stored, fd);
    assert w.stored - (set c | c in e.conns :: c.fd) == w.stored;
  }

  lemma NotNew(j: Joint, e: Event)
    requires WideReported(j, e) && e.slot != j.net.svr
    ensures e.conns == []
  {
  }

  /** A failing poll stores a text for a descriptor that no connection has. */
  lemma PollKeepsWide(w: Wide)
    requires WideInv(w) && WideEnabled(w, PollFails)
    ensures WideInv(WideNext(w, PollFails))
  {
    hide Inv, AnswerTo, HolderOk, EmptyAnswer, Reply, StoredAt;
    PollMoves(w.j.net, w.j.aside, w.j.held);
    PollKeepsNet(w.j.net, w.j.aside, w.j.sys.delivered, w.j.held);
    assert 0 !in w.j.held;
    hide NetOk;
    LessStored(w.j.held, w.j.net.epoll, w.stored, {0});
  }

  lemma TurnKeepsWide(w: Wide, st: JointStep)
    requires WideInv(w) && WideEnabled(w, st) && st.Turn?
    ensures WideInv(WideNext(w, st))
  {
    hide Inv, NetOk, StoredOk, TextsOk, Enabled, Next;
    var step := Step.Container(st.pid, st.sees, st.roomNested, st.roomAnswer);
    NextKeepsInv(w.j.sys, step);
    TurnCounts(w.j.sys, step);
  }

  // ---------------------------------------------------------------- late answers

  /** An answer is harmless if nobody holds its descriptor, if it is for the client
      that asked through it, or if it meets a connection that is not yet watched
      for writing and the endpoint check turns it away. */
  ghost predicate Harmless(j: Joint, c: Client) {
    || c.fd !in j.held || j.held[c.fd].asked == Some(c)
    || (c.fd in j.net.epoll && j.net.epoll[c.fd] == In && !SameEnd(j.held[c.fd].addr, c))
  }

  /** Answers come only for clients that had asked. */
  lemma AnswerFits(w: Wide)
    requires WideInv(w) && Enabled(w.j.sys, Deliver)
    ensures var m := NextAnswer(w.j);
            && GoodBack(w.j.sys.fleet, m) && ClientFits(w.j.net, w.j.aside, ClientOf(Read(m)))
            && |Read(m).sData| < BUF_SIZE
  {
    hide Parsed, NetOk, FleetOk, CallsBalance, GoodBody, StoredOk, TextsOk, ClientFits, Queued, Saved, LostClients;
    var m, s := NextAnswer(w.j), w.j.sys;
    NextIsThere(w.j);
    assert GoodBack(s.fleet, m);
    BagHolds(s.qs.back, m, ClientIn);
    PartOf(ClientOf(Read(m)), Bag(s.qs.back, ClientIn), Bag(s.delivered, ClientIn), Queued(s) + Saved(s),
           LostClients(s), s.accepted);
    PidsOk(s);
    BodyShort(s.fleet, m);
  }

  lemma PartOf<U>(x: U, back: multiset<U>, delivered: multiset<U>, a: multiset<U>, b: multiset<U>, total: multiset<U>)
    requires x in back && a + (back + delivered) + b == total
    ensures x in total
  {
    assert (a + (back + delivered) + b)[x] == total[x];
  }

  function ReplySlot(c: Cmd): Item { Item(c.iFd, TCP_SERVER_SEND, Addr(c.ifamily, c.sClientIp, c.iPort)) }

  /** The check turns the answer away; or the buffer and the slot are set, and the
      watch of a descriptor that is watched. */
  lemma ReplyCases(n: Net, c: Cmd)
    requires Sized(n) && FdOk(c.iFd) && 0 <= c.iPort < 0x1_0000 && 0 <= c.ifamily < 0x1_0000
    requires |c.sData| < BUF_SIZE && (c.iFd in n.epoll ==> c.iFd in n.vec)
    ensures var slot, n1 := n.items[c.iFd], n.(msgs := n.msgs[c.iFd := c.sData]);
            var n2 := n1.(items := n.items[c.iFd := ReplySlot(c)]);
            && (slot.flag == NONE_FLAG || !SameEnd(slot.addr, ClientOf(c)) ==> Reply(n, c) == n1)
            && (slot.flag != NONE_FLAG && SameEnd(slot.addr, ClientOf(c)) && c.iFd in n.vec ==>
                  Reply(n, c) == if c.iFd in n.epoll then n2.(epoll := n.epoll[c.iFd := Out]) else n2)
  {
  }

  /** Storing a text changes no connection that is not watched for writing through
      this descriptor; nor does a changed slot of a stale descriptor. */
  lemma StoreKeepsNet(n: Net, aside: Aside, delivered: seq<Msg>, held: map<int, Holder>, fd: int, slot: Item, m: Msg)
    requires NetOk(n, aside, delivered, held) && 0 <= fd < |n.msgs| && fd < |n.items|
    requires fd in held && fd in n.epoll ==> n.epoll[fd] == In
    requires slot == n.items[fd] || (fd in aside.stale && slot.fd == fd && FdOk(fd))
    ensures NetOk(n.(msgs := n.msgs[fd := Read(m).sData], items := n.items[fd := slot]), aside, delivered + [m], held)
  {
    hide AnswerTo, Parsed;
    var n' := n.(msgs := n.msgs[fd := Read(m).sData], items := n.items[fd := slot]);
    ListedSame(n, n', aside.stale);
    hide Listed;
    forall k | k in held ensures HolderOk(n', delivered + [m], k, held[k]) {
      assert HolderOk(n, delivered, k, held[k]);
      if held[k].asked.Some? { AnswerStays(delivered, held[k].asked.value, n.msgs[k], m); }
    }
  }

  /** The client's own answer arms the connection. */
  lemma OwnAnswerKeepsNet(n: Net, aside: Aside, delivered: seq<Msg>, held: map<int, Holder>, fd: int, m: Msg)
    requires NetOk(n, aside, delivered, held) && fd in held && held[fd].asked == Some(ClientOf(Read(m)))
             && Read(m).iFd == fd
    requires fd < |n.items| && fd < |n.msgs| && 0 <= fd
    ensures var c := Read(m);
            NetOk(n.(msgs := n.msgs[fd := c.sData],
                     items := n.items[fd := ReplySlot(c)], epoll := n.epoll[fd := Out]), aside, delivered + [m], held)
  {
    hide Parsed;
    var c, h := Read(m), held[fd];
    assert HolderOk(n, delivered, fd, h);
    assert AnswerTo(delivered + [m], ClientOf(c), c.sData);
    hide AnswerTo;
    var n' := n.(msgs := n.msgs[fd := c.sData], items := n.items[fd := Item(fd, TCP_SERVER_SEND, h.addr)],
                 epoll := n.epoll[fd := Out]);
    ListedSame(n, n', aside.stale);
    hide Listed;
    forall k | k in held ensures HolderOk(n', delivered + [m], k, held[k]) {
      assert HolderOk(n, delivered, k, held[k]);
      if held[k].asked.Some? { AnswerStays(delivered, held[k].asked.value, n.msgs[k], m); }
    }
  }

  lemma TextsAfter(msgs: seq<string>, d: seq<Msg>, stored: map<int, Client>, fd: int, m: Msg)
    requires TextsOk(msgs, d, stored) && 0 <= fd < |msgs|
    ensures TextsOk(msgs[fd := Read(m).sData], d + [m], stored[fd := ClientOf(Read(m))])
  {
    hide AnswerTo, Parsed;
    var stored' := stored[fd := ClientOf(Read(m))];
    AnswerLast(d, m);
    forall k | k in stored && k != fd ensures AnswerTo(d + [m], stored[k], msgs[k]) {
      AnswerStays(d, stored[k], msgs[k], m);
    }
  }

  lemma StoredAfter(held: map<int, Holder>, epoll: map<int, Interest>, stored: map<int, Client>, c: Client, i: Interest)
    requires StoredOk(held, epoll, stored) && (c.fd in epoll || i == In)
    ensures var epoll' := if c.fd in epoll then epoll[c.fd := i] else epoll;
            StoredOk(held, epoll', stored[c.fd := c]) <==>
            || c.fd !in held || c.fd !in epoll
            || (if i == Out then held[c.fd].asked == Some(c) else !SameEnd(held[c.fd].addr, c))
  {
    var epoll' := if c.fd in epoll then epoll[c.fd := i] else epoll;
    var stored' := stored[c.fd := c];
    if c.fd in held && c.fd in epoll {
      assert StoredOk(held, epoll', stored') ==> StoredAt(held[c.fd], i, true, c);
    }
    forall fd | fd in held && fd in epoll' && fd != c.fd
      ensures StoredAt(held[fd], epoll'[fd], fd in stored', if fd in stored' then stored'[fd] else NOBODY)
    {
      assert StoredAt(held[fd], epoll[fd], fd in stored, if fd in stored then stored[fd] else NOBODY);
    }
  }

  /** What an arriving answer does to the watch: nothing, if nobody holds the
      descriptor or the check turns it away; else the descriptor is watched for writing. */
  lemma AnswerActs(w: Wide) returns (i: Interest, slot: Item)
    requires WideInv(w) && WideEnabled(w, Arrives)
    ensures var j, j', m := w.j, WideNext(w, Arrives).j, NextAnswer(w.j);
            var fd, c := ClientOf(Read(m)).fd, ClientOf(Read(m));
            && FdOk(fd) && fd != 0 && fd < |j.net.msgs| && fd < |j.net.items|
            && j'.sys == Next(j.sys, Deliver) && j'.held == j.held && j'.aside == j.aside
            && j'.net == j.net.(msgs := j.net.msgs[fd := Read(m).sData], items := j.net.items[fd := slot],
                                epoll := if fd in j.net.epoll then j.net.epoll[fd := i] else j.net.epoll)
            && (fd in j.held ==> fd in j.net.epoll)
            && (fd in j.net.epoll || i == In)
            && (if fd in j.held && SameEnd(j.held[fd].addr, c) then i == Out && slot == ReplySlot(Read(m))
                else (fd in j.net.epoll ==> i == j.net.epoll[fd])
                     && (slot == j.net.items[fd] || (fd !in j.held && fd in j.aside.stale && slot.fd == fd)))
  {
    hide Inv, AnswerTo, Next, Parsed, StoredOk, TextsOk, GoodBack, HolderOk;
    var j, c := w.j, Read(NextAnswer(w.j));
    AnswerFits(w);
    var fd: int := c.iFd;
    ReplyCases(j.net, c);
    hide Reply, NoRepeats;
    i, slot := In, j.net.items[fd];
    if fd in j.held {
      HeldIsNoChannel(j, fd);
      i := j.net.epoll[fd];
      if SameEnd(j.held[fd].addr, ClientOf(c)) { i, slot := Out, ReplySlot(c); }
    } else if fd in j.aside.stale && slot.flag != NONE_FLAG && SameEnd(slot.addr, ClientOf(c)) {
      slot := ReplySlot(c);
    }
    assert j.net.items[fd := j.net.items[fd]] == j.net.items;
    if fd in j.net.epoll && i == j.net.epoll[fd] { assert j.net.epoll[fd := i] == j.net.epoll; }
  }

  lemma AnswerKeepsNet(w: Wide)
    requires WideInv(w) && WideEnabled(w, Arrives) && Harmless(w.j, ClientOf(Read(NextAnswer(w.j))))
    ensures var j' := WideNext(w, Arrives).j; NetOk(j'.net, j'.aside, j'.sys.delivered, j'.held)
  {
    hide Inv, AnswerTo, Next, Parsed, NetOk, StoredOk, TextsOk, WideNext, WideEnabled;
    var i, slot := AnswerActs(w);
    AnswerDelivered(w);
    var j, m := w.j, NextAnswer(w.j);
    var fd := ClientOf(Read(m)).fd;
    OwnEnd(j, ClientOf(Read(m)));
    if fd in j.held && SameEnd(j.held[fd].addr, ClientOf(Read(m))) {
      OwnAnswerKeepsNet(j.net, j.aside, j.sys.delivered, j.held, fd, m);
    } else {
      if fd in j.net.epoll { assert j.net.epoll[fd := i] == j.net.epoll; }
      StoreKeepsNet(j.net, j.aside, j.sys.delivered, j.held, fd, slot, m);
    }
  }

  lemma AnswerDelivered(w: Wide)
    requires WideEnabled(w, Arrives)
    ensures Enabled(w.j.sys, Deliver)
    ensures Next(w.j.sys, Deliver).delivered == w.j.sys.delivered + [NextAnswer(w.j)]
    ensures Next(w.j.sys, Deliver).accepted == w.j.sys.accepted
    ensures WideNext(w, Arrives).stored ==
            w.stored[ClientOf(Read(NextAnswer(w.j))).fd as int := ClientOf(Read(NextAnswer(w.j)))]
  {
    hide Parsed, Next, Reply;
    DeliverCounts(w.j.sys);
  }

  /** Main result: an answer that arrives keeps every stored text right exactly if
      it is harmless. */
  lemma LateAnswers(w: Wide)
    requires WideInv(w) && WideEnabled(w, Arrives)
    ensures WideInv(WideNext(w, Arrives)) <==> Harmless(w.j, ClientOf(Read(NextAnswer(w.j))))
  {
    hide Inv, AnswerTo, Next, Parsed, NetOk, StoredOk, TextsOk, WideNext, WideEnabled, Enabled, ClientFits;
    var i, slot := AnswerActs(w);
    AnswerDelivered(w);
    var j, m := w.j, NextAnswer(w.j);
    NextKeepsInv(j.sys, Deliver);
    TextsAfter(j.net.msgs, j.sys.delivered, w.stored, ClientOf(Read(m)).fd, m);
    StoredAfter(j.held, j.net.epoll, w.stored, ClientOf(Read(m)), i);
    FitsSame(w);
    if Harmless(j, ClientOf(Read(m))) { AnswerKeepsNet(w); }
    OwnEnd(j, ClientOf(Read(m)));
  }

  lemma OwnEnd(j: Joint, c: Client)
    requires NetOk(j.net, j.aside, j.sys.delivered, j.held)
    ensures c.fd in j.held && j.held[c.fd].asked == Some(c) ==> SameEnd(j.held[c.fd].addr, c)
  {
    hide NetOk;
    if c.fd in j.held && j.held[c.fd].asked == Some(c) { HeldIsNoChannel(j, c.fd); }
  }

  lemma FitsSame(w: Wide)
    requires WideInv(w) && WideEnabled(w, Arrives)
    ensures var j' := WideNext(w, Arrives).j; forall c | c in j'.sys.accepted :: ClientFits(j'.net, j'.aside, c)
  {
    hide Inv, AnswerTo, Next, Parsed, NetOk, StoredOk, TextsOk, WideNext, WideEnabled;
    var _, _ := AnswerActs(w);
    AnswerDelivered(w);
  }

  /** A step is possible as soon as the kernel allows it. */
  lemma WideNeedsNothingElse(w: Wide, e: Event, room: bool)
    requires WideInv(w)
    ensures WideEnabled(w, Arrives) <==> Enabled(w.j.sys, Deliver)
    ensures WideEnabled(w, PollFails)
    ensures WideEnabled(w, Happens(e, room)) <==> EventFits(e) && WideReported(w.j, e)
  {
    hide Inv, AnswerTo, Listed, Parsed, FreshConns, HolderOk, StoredOk, TextsOk;
    if Enabled(w.j.sys, Deliver) { AnswerFits(w); }
    if EventFits(e) && WideReported(w.j, e) && e.slot in w.j.held {
      HeldIsNoChannel(w.j, e.slot);
      HolderIp(w.j, e.slot);
    }
  }

  lemma HolderIp(j: Joint, fd: int)
    requires NetOk(j.net, j.aside, j.sys.delivered, j.held) && fd in j.held
    ensures IpOk(j.held[fd].addr.ip)
  {
    hide AnswerTo, Listed;
    assert HolderOk(j.net, j.sys.delivered, fd, j.held[fd]);
  }

  /** The condition of a step: an arriving answer must be harmless. */
  ghost predicate StepHarmless(w: Wide, st: JointStep)
    requires WideEnabled(w, st)
  {
    st.Arrives? ==> Harmless(w.j, ClientOf(Read(NextAnswer(w.j))))
  }

  /** Hang-ups, repeated readable events and early writes keep every stored text
      right, and so does an arriving answer exactly if it is harmless. */
  lemma WideSteps(w: Wide, st: JointStep)
    requires WideInv(w) && WideEnabled(w, st)
    ensures WideInv(WideNext(w, st)) <==> StepHarmless(w, st)
  {
    hide WideInv, WideNext, WellFormed, FreshConns, Enabled, Harmless, Moved;
    match st
    case Happens(e, room) =>
      if e.slot == w.j.net.svr && !e.rdhup {
        ConnectsKeepWide(w, e, room);
      } else if !e.rdhup && w.j.held[e.slot].asked.None? && e.reading.Got? {
        ReadKeepsWide(w, e, room);
      } else if !e.rdhup && w.j.held[e.slot].asked.None? {
        FailKeepsWide(w, e, room);
      } else {
        CloseKeepsWide(w, e, room);
      }
    case Arrives => LateAnswers(w);
    case PollFails => PollKeepsWide(w);
    case Turn(_, _, _, _) => TurnKeepsWide(w, st);
  }

  /** An answer that is not harmless is what the next writable event writes, to a
      connection that did not ask for it. */
  lemma HarmfulAnswer(w: Wide)
    requires WideInv(w) && WideEnabled(w, Arrives) && !Harmless(w.j, ClientOf(Read(NextAnswer(w.j))))
    ensures var j', m := WideNext(w, Arrives).j, NextAnswer(w.j);
            var fd := ClientOf(Read(m)).fd;
            && fd in j'.held && j'.held[fd].asked != Some(ClientOf(Read(m)))
            && fd in j'.net.epoll && j'.net.epoll[fd] == Out
            && 0 <= fd < |j'.net.items| && 0 <= j'.net.items[fd].fd < |j'.net.msgs|
            && ActionOf(j'.net, Event(fd, false, [], Gone)) == Writes(fd, Read(m).sData)
  {
    hide Inv, AnswerTo, Next, Parsed, NetOk, StoredOk, TextsOk, WideNext, WideEnabled, ClientFits;
    var i, slot := AnswerActs(w);
    AnswerDelivered(w);
    var fd: int := ClientOf(Read(NextAnswer(w.j))).fd;
    HeldIsNoChannel(w.j, fd);
  }

  /** Without hang-ups and repeated events no answer ever does harm. */
  lemma NoHangUpsNoHarm(j: Joint, m: Msg)
    requires Link(j) && m in j.sys.qs.back
    ensures Harmless(j, ClientOf(Read(m)))
  {
    hide Link, GoodBack, Parsed;
    var fd := AnswerIsAwaited(j, m);
  }
}
