/** What clients get, on every run of netio with any number of container processes. */
module DeliveryRuns {
  import opened Common
  import opened Text
  import opened CmdObj
  import opened Bags
  import opened MsgQueue
  import opened Service
  import opened Container
  import opened Protocol
  import opened Reactor
  import opened WatchList
  import opened Delivery
  import opened DeliverySteps
  import Runs

  lemma {:induction false} RunKeepsLink(tr: seq<Joint>, steps: seq<JointStep>, i: nat)
    requires JointRun(tr, steps) && i < |tr|
    ensures Link(tr[i])
  {
    hide Link, JointEnabled, JointNext, JointInit;
    if i == 0 {
      StartLink(tr[0]);
    } else {
      assert JointStepAt(tr, steps, i - 1);
      RunKeepsLink(tr, steps, i - 1);
      StepKeepsLink(tr[i - 1], steps[i - 1]);
    }
  }

  /** In a reachable state a step is possible as soon as the kernel allows it: an
      answer can be taken whenever one is waiting, an event handled whenever it
      is reported. */
  lemma NothingElseIsAssumed(j: Joint, e: Event, room: bool)
    requires Link(j)
    ensures JointEnabled(j, Arrives) <==> Enabled(j.sys, Deliver)
    ensures JointEnabled(j, PollFails)
    ensures JointEnabled(j, Happens(e, room)) <==> EventFits(e) && Reported(j, e)
  {
    hide Inv, Counts, SentOk, Listed, Parsed, AnswerTo, FreshConns;
    if Enabled(j.sys, Deliver) {
      NextIsThere(j);
      var _ := AnswerIsAwaited(j, NextAnswer(j));
    }
    if EventFits(e) && Reported(j, e) && e.slot in j.held {
      assert HolderOk(j.net, j.sys.delivered, e.slot, j.held[e.slot]);
    }
  }

  // ---------------------------------------------------------------- what is written

  /** The three bodies, by the command that was asked for. */
  ghost predicate RightBody(fleet: map<int, int>, cmd: int, text: string) {
    exists p | p in fleet ::
      || (cmd == 1 && fleet[p] == 1 && text == "resp1=r1 by pid:" + Itoa(p))
      || (cmd == 2 && fleet[p] == 2 && text == "resp1=r1&resp2=r2 by pid:" + Itoa(p))
      || (cmd == 2 && fleet[p] == 2 && text == "errCode=21&resp=Err happend! by pid:" + Itoa(p))
  }

  lemma GoodIsRight(s: Sys, c: Client, text: string)
    requires Inv(s) && AnswerTo(s.delivered, c, text)
    ensures RightBody(s.fleet, c.cmd, text)
  {
    hide Parsed, FleetOk, CallsBalance, ClientsBalance, GoodC1, GoodC2;
    var m :| m in s.delivered && ClientOf(Read(m)) == c && Read(m).sData == text;
    assert GoodBody(s.fleet, Read(m));
    var p :| p in s.fleet &&
      (  (c.cmd == 1 && s.fleet[p] == 1 && text == ByPid("resp1=r1", p))
      || (c.cmd == 2 && s.fleet[p] == 2 && text == ByPid("resp1=r1&resp2=r2", p))
      || (c.cmd == 2 && s.fleet[p] == 2 && text == ByPid(ErrText(NO_FREE_SVC_HANDLER), p)));
    hide ByPid, ErrText, Itoa;
    Runs.BodyTexts(p);
  }

  /** Every request that was read is waiting, has its answer ready to be written,
      or was answered: once. And every answer that netio took was written, or is
      ready to be. */
  lemma AnsweredOnce(tr: seq<Joint>, steps: seq<JointStep>, i: nat)
    requires JointRun(tr, steps) && i < |tr|
    ensures var j := tr[i];
            && j.sys.accepted == Waiting(j) + Armed(j) + Bag(j.sent, SentTo)
            && Bag(j.sys.delivered, ClientIn) == Armed(j) + Bag(j.sent, SentTo)
            && Bag(j.sent, SentTo) <= j.sys.accepted
  {
    hide Inv, NetOk, SentOk, Waiting, Armed, Bag;
    RunKeepsLink(tr, steps, i);
  }

  // ---------------------------------------------------------------- which request it was

  /** Step k reads the request of client c from descriptor fd. */
  ghost predicate ReadsAt(tr: seq<Joint>, steps: seq<JointStep>, k: nat, fd: int, c: Client)
    requires JointRun(tr, steps) && k < |steps|
  {
    && JointStepAt(tr, steps, k) && steps[k].Happens? && 0 <= fd < |tr[k].net.items|
    && var e := steps[k].e;
       && e.slot == fd && e.reading.Got? && ActionOf(tr[k].net, e) == Reads(fd)
       && c == ClientOf(Requested(tr[k].net, fd, e.reading.buf))
  }

  /** What one step does to the connection of one descriptor. */
  lemma HolderChanges(tr: seq<Joint>, steps: seq<JointStep>, k: nat, fd: int)
    requires JointRun(tr, steps) && k < |steps|
    ensures var h, h' := tr[k].held, tr[k + 1].held;
            || (fd in h && fd in h' && h'[fd] == h[fd])
            || (fd !in h && fd !in h')
            || (fd !in h && fd in h' && h'[fd].asked.None?)
            || (fd in h && fd in h' && h[fd].asked.None? && h'[fd].addr == h[fd].addr && h'[fd].asked.Some?
                && ReadsAt(tr, steps, k, fd, h'[fd].asked.value))
            || (fd in h && fd !in h' && h[fd].asked.Some?)
            || (fd in h && fd !in h' && h[fd].asked.None? && fd in tr[k + 1].aside.stale)
    ensures tr[k].aside.stale <= tr[k + 1].aside.stale
    ensures fd in tr[k + 1].aside.stale ==>
              fd in tr[k].aside.stale || (fd in tr[k].held && tr[k].held[fd].asked.None?)
  {
    hide Inv, Counts, SentOk, Listed, AnswerTo, JointNext, Enabled, Parsed, FreshConns, WellFormed, Next;
    assert JointStepAt(tr, steps, k);
    RunKeepsLink(tr, steps, k);
    var j, st := tr[k], steps[k];
    if st.Happens? {
      var e := st.e;
      if e.slot == j.net.svr && FreshConns(j.net.open, e.conns) {
        AcceptStep(j, e, st.room);
        HeldGrows(j.held, j.aside.stale, j.net.open, e.conns, fd);
      } else if e.slot in j.held && j.held[e.slot].asked.None? && e.conns == [] && e.reading.Got? {
        ReadsRequest(j, e, st.room);
      } else if e.slot in j.held && j.held[e.slot].asked.None? && e.reading.Gone? {
        JointIsDefined(j, st);
        ReadsNothing(j, e, st.room);
      } else {
        WritesAnswer(j, e, st.room);
      }
    } else {
      OtherStep(j, st);
    }
  }

  lemma OtherStep(j: Joint, st: JointStep)
    requires JointEnabled(j, st) && !st.Happens?
    ensures JointNext(j, st).held == j.held && JointNext(j, st).aside == j.aside
  {
    hide Next, Parsed, Reply;
  }

  lemma AcceptStep(j: Joint, e: Event, room: bool)
    requires NetOk(j.net, j.aside, j.sys.delivered, j.held) && JointEnabled(j, Happens(e, room)) && e.slot == j.net.svr
    ensures ActionOf(j.net, e) == Accepts
    ensures JointNext(j, Happens(e, room)).held == HeldAfter(j.held, j.aside.stale, e.conns)
    ensures JointNext(j, Happens(e, room)).sys == j.sys && JointNext(j, Happens(e, room)).aside == j.aside
    ensures forall fd | fd in j.held :: fd in j.net.open
  {
    hide Listed, AnswerTo, Enabled, Parsed, FreshConns, DoConn;
    forall fd | fd in j.held ensures fd in j.net.open { assert HolderOk(j.net, j.sys.delivered, fd, j.held[fd]); }
  }

  /** accept never gives a descriptor that is held. */
  lemma {:induction false} HeldGrows(held: map<int, Holder>, stale: set<int>, open: set<int>, conns: seq<Conn>, fd: int)
    requires FreshConns(open, conns) && forall k | k in held :: k in open
    ensures var h := HeldAfter(held, stale, conns);
            && (fd in held ==> fd in h && h[fd] == held[fd])
            && (fd !in held && fd in h ==> h[fd].asked.None?)
    decreases |conns|
  {
    if conns != [] {
      var held' := HeldWith(held, stale, conns[0]);
      HeldGrows(held', stale, open + {conns[0].fd}, conns[1..], fd);
      if fd in held' { HeldStays(held', stale, conns[1..], open + {conns[0].fd}, fd); }
    }
  }

  lemma {:induction false} HeldStays(held: map<int, Holder>, stale: set<int>, conns: seq<Conn>, open: set<int>, fd: int)
    requires FreshConns(open, conns) && fd in open && fd in held
    ensures fd in HeldAfter(held, stale, conns) && HeldAfter(held, stale, conns)[fd] == held[fd]
    decreases |conns|
  {
    if conns != [] {
      HeldStays(HeldWith(held, stale, conns[0]), stale, conns[1..], open + {conns[0].fd}, fd);
    }
  }

  /** From step k on until moment i, one connection has held the descriptor. */
  ghost predicate SameConnection(tr: seq<Joint>, k: nat, i: nat, fd: int)
    requires k <= i < |tr|
  {
    forall t | k <= t <= i :: HeldLike(tr, t, i, fd)
  }

  ghost predicate HeldLike(tr: seq<Joint>, t: int, i: int, fd: int) {
    && 0 <= t < |tr| && 0 <= i < |tr|
    && fd in tr[t].held && fd in tr[i].held && tr[t].held[fd].addr == tr[i].held[fd].addr
  }

  lemma SameLonger(tr: seq<Joint>, k: nat, i: nat, fd: int)
    requires k < i < |tr| && SameConnection(tr, k, i - 1, fd) && HeldLike(tr, i - 1, i, fd)
    ensures SameConnection(tr, k, i, fd)
  {
    forall t | k <= t <= i ensures HeldLike(tr, t, i, fd) {
      if t < i { assert HeldLike(tr, t, i - 1, fd); }
    }
  }

  lemma SameTwo(tr: seq<Joint>, k: nat, fd: int)
    requires k + 1 < |tr| && HeldLike(tr, k, k + 1, fd)
    ensures SameConnection(tr, k, k + 1, fd)
  {
  }

  // ---------------------------------------------------------------- which answer it is

  /** accept changes neither stored texts nor what is watched already. */
  lemma {:induction false} ConnsKeepStored(n: Net, conns: seq<Conn>, fd: int)
    requires (forall c | c in conns :: 0 <= c.fd < |n.items|) && FreshConns(n.open, conns) && fd in n.open
    ensures var n' := DoConn(n, conns);
            n'.msgs == n.msgs && (fd in n'.epoll <==> fd in n.epoll) && (fd in n.epoll ==> n'.epoll[fd] == n.epoll[fd])
    decreases |conns|
  {
    if conns != [] {
      assert conns[0] in conns;
      assert AcceptOne(n, conns[0]).open == n.open + {conns[0].fd};
      ConnsKeepStored(AcceptOne(n, conns[0]), conns[1..], fd);
    }
  }

  /** Descriptor fd is watched for writing with a text that was watched for
      writing before, or that this step has just taken for this client. */
  ghost predicate StoredBy(j: Joint, st: JointStep, fd: int, c: Client)
    requires JointEnabled(j, st)
  {
    var j' := JointNext(j, st);
    fd in j'.net.epoll && j'.net.epoll[fd] == Out && 0 <= fd < |j'.net.msgs| ==>
      || (fd in j.net.epoll && j.net.epoll[fd] == Out && fd < |j.net.msgs| && j'.net.msgs[fd] == j.net.msgs[fd])
      || (st.Arrives? && ClientOf(Read(NextAnswer(j))) == c && j'.net.msgs[fd] == Read(NextAnswer(j)).sData)
  }

  lemma EventStores(j: Joint, e: Event, room: bool, fd: int)
    requires Link(j) && JointEnabled(j, Happens(e, room)) && fd in j.held && j.held[fd].asked.Some?
    requires var h := JointNext(j, Happens(e, room)).held; fd in h && h[fd] == j.held[fd]
    ensures StoredBy(j, Happens(e, room), fd, j.held[fd].asked.value)
    ensures JointNext(j, Happens(e, room)).sys.delivered == j.sys.delivered
  {
    hide Inv, Counts, SentOk, Listed, AnswerTo, Enabled, Parsed, WellFormed, Next, FreshConns, DoConn, RestOk;
    assert HolderOk(j.net, j.sys.delivered, fd, j.held[fd]);
    if e.slot == j.net.svr && FreshConns(j.net.open, e.conns) {
      AcceptStep(j, e, room);
      ConnsKeepStored(j.net, e.conns, fd);
    } else if e.slot in j.held && j.held[e.slot].asked.None? && e.conns == [] && e.reading.Got? {
      ReadsRequest(j, e, room);
      RequestCounts(j.sys, RequestStep(j.net, e.slot, e.reading.buf, room));
    } else if e.slot in j.held && j.held[e.slot].asked.None? && e.reading.Gone? {
      JointIsDefined(j, Happens(e, room));
      ReadsNothing(j, e, room);
    } else {
      WritesAnswer(j, e, room);
    }
  }

  lemma PollStores(j: Joint, fd: int)
    requires Link(j) && JointEnabled(j, PollFails) && fd in j.held && j.held[fd].asked.Some?
    ensures StoredBy(j, PollFails, fd, j.held[fd].asked.value)
    ensures JointNext(j, PollFails).sys.delivered == j.sys.delivered
  {
    hide Inv, Counts, SentOk, Listed, AnswerTo, EmptyAnswer, Reply, HolderOk;
    HeldNotStale(j, fd);
    PollMoves(j.net, j.aside, j.held);
  }

  lemma AnswerStores(j: Joint, fd: int)
    requires Link(j) && JointEnabled(j, Arrives) && fd in j.held && j.held[fd].asked.Some?
    ensures Enabled(j.sys, Deliver) && StoredBy(j, Arrives, fd, j.held[fd].asked.value)
    ensures JointNext(j, Arrives).sys.delivered == j.sys.delivered + [NextAnswer(j)]
  {
    hide Inv, Counts, SentOk, Listed, AnswerTo, Enabled, Parsed, Next, GoodBack;
    var m := NextAnswer(j);
    NextIsThere(j);
    var at := AnswerIsAwaited(j, m);
    PidsOk(j.sys);
    BodyShort(j.sys.fleet, m);
    DeliverCounts(j.sys);
  }

  lemma TurnStores(j: Joint, st: JointStep)
    requires JointEnabled(j, st) && st.Turn?
    ensures JointNext(j, st).net == j.net && JointNext(j, st).sys.delivered == j.sys.delivered
  {
    hide Enabled, Next;
    TurnCounts(j.sys, Step.Container(st.pid, st.sees, st.roomNested, st.roomAnswer));
  }

  /** A text that is ready to be written answers a message that netio took after
      moment n. */
  ghost predicate ReadySince(j: Joint, n: nat, fd: int, c: Client) {
    n <= |j.sys.delivered| &&
    (fd in j.net.epoll && j.net.epoll[fd] == Out && 0 <= fd < |j.net.msgs| ==>
     AnswerTo(j.sys.delivered[n..], c, j.net.msgs[fd]))
  }

  lemma StepKeepsReady(j: Joint, st: JointStep, n: nat, fd: int)
    requires Link(j) && JointEnabled(j, st) && fd in j.held && j.held[fd].asked.Some?
    requires var h := JointNext(j, st).held; fd in h && h[fd] == j.held[fd]
    requires ReadySince(j, n, fd, j.held[fd].asked.value)
    ensures ReadySince(JointNext(j, st), n, fd, j.held[fd].asked.value)
  {
    hide Link, JointEnabled, JointNext, AnswerTo, Parsed, NextAnswer;
    var c, d := j.held[fd].asked.value, j.sys.delivered;
    match st
    case Happens(e, room) => EventStores(j, e, room, fd);
    case Arrives =>
      AnswerStores(j, fd);
      var m := NextAnswer(j);
      assert (d + [m])[n..] == d[n..] + [m];
      AnswerLast(d[n..], m);
      if fd in j.net.epoll && 0 <= fd < |j.net.msgs| { AnswerStays(d[n..], c, j.net.msgs[fd], m); }
    case PollFails => PollStores(j, fd);
    case Turn(_, _, _, _) => TurnStores(j, st);
  }

  lemma AnswerLast(d: seq<Msg>, m: Msg)
    ensures AnswerTo(d + [m], ClientOf(Read(m)), Read(m).sData)
  {
    hide Parsed;
    assert m in d + [m];
  }

  lemma AnswerInSuffix(d: seq<Msg>, n: nat, c: Client, text: string)
    requires n <= |d| && AnswerTo(d[n..], c, text)
    ensures AnswerTo(d, c, text)
  {
    hide Parsed;
  }

  /** A request that has just been read has no answer ready. */
  lemma JustRead(tr: seq<Joint>, steps: seq<JointStep>, k: nat, fd: int, c: Client)
    requires JointRun(tr, steps) && k < |steps| && ReadsAt(tr, steps, k, fd, c)
    requires fd in tr[k].held && tr[k].held[fd].asked.None?
    ensures ReadySince(tr[k + 1], |tr[k].sys.delivered|, fd, c)
  {
    hide Inv, Counts, SentOk, Listed, AnswerTo, JointNext, Enabled, Parsed, FreshConns, WellFormed, Next, RestOk;
    RunKeepsLink(tr, steps, k);
    var j, e := tr[k], steps[k].e;
    assert HolderOk(j.net, j.sys.delivered, fd, j.held[fd]);
    ReadHasNoConns(j, e, steps[k].room);
    ReadsRequest(j, e, steps[k].room);
    RequestCounts(j.sys, RequestStep(j.net, e.slot, e.reading.buf, steps[k].room));
  }

  lemma ReadHasNoConns(j: Joint, e: Event, room: bool)
    requires NetOk(j.net, j.aside, j.sys.delivered, j.held) && JointEnabled(j, Happens(e, room)) && e.slot in j.held
    ensures e.conns == []
  {
    hide Enabled, Listed, HolderOk, WellFormed, FreshConns;
  }

  /** Who asks through a descriptor, asked in a step k that read the request; one
      connection has held it since, and a text that is ready for it is that of an
      answer which netio took after step k. */
  lemma {:induction false} AskedWasRead(tr: seq<Joint>, steps: seq<JointStep>, i: nat, fd: int) returns (k: nat)
    requires JointRun(tr, steps) && i < |tr| && fd in tr[i].held && tr[i].held[fd].asked.Some?
    ensures k < i && ReadsAt(tr, steps, k, fd, tr[i].held[fd].asked.value) && SameConnection(tr, k, i, fd)
    ensures ReadySince(tr[i], |tr[k].sys.delivered|, fd, tr[i].held[fd].asked.value)
  {
    hide JointInit, JointEnabled, JointNext, ReadsAt, ReadySince, SameConnection;
    if i == 0 {
      StartHoldsNone(tr, steps);
    } else {
      HolderChanges(tr, steps, i - 1, fd);
      if fd in tr[i - 1].held && tr[i - 1].held[fd].asked.Some? {
        k := AskedWasRead(tr, steps, i - 1, fd);
        SameLonger(tr, k, i, fd);
        assert JointStepAt(tr, steps, i - 1);
        RunKeepsLink(tr, steps, i - 1);
        StepKeepsReady(tr[i - 1], steps[i - 1], |tr[k].sys.delivered|, fd);
      } else {
        k := i - 1;
        SameTwo(tr, k, fd);
        JustRead(tr, steps, k, fd, tr[i].held[fd].asked.value);
      }
    }
  }

  lemma StartHoldsNone(tr: seq<Joint>, steps: seq<JointStep>)
    requires JointRun(tr, steps)
    ensures tr[0].held == map[]
  {
  }

  lemma WritesWhenArmed(j: Joint, e: Event, room: bool)
    requires NetOk(j.net, j.aside, j.sys.delivered, j.held) && JointEnabled(j, Happens(e, room))
    requires ActionOf(j.net, e).Writes?
    ensures e.slot in j.net.epoll && j.net.epoll[e.slot] == Out
  {
    hide NetOk, ActionOf, JointNext, Enabled, FreshConns, WellFormed;
    if e.slot == j.net.svr {
      AcceptStep(j, e, room);
    } else if e.slot in j.held && j.held[e.slot].asked.None? && e.reading.Got? && e.conns == [] {
      ReadsRequest(j, e, room);
    } else if e.slot in j.held && j.held[e.slot].asked.None? && e.reading.Gone? {
      JointIsDefined(j, Happens(e, room));
      ReadsNothing(j, e, room);
    }
  }

  /** Step i writes a text to a descriptor: step k read a request of client c from
      it, one connection has held it since, and the text is the body of an answer
      to c that netio took after step k and before step i. */
  ghost predicate WritesAnswerTo(tr: seq<Joint>, steps: seq<JointStep>, k: nat, i: nat, fd: int, c: Client,
                                 text: string)
    requires JointRun(tr, steps)
  {
    && k < i && JointStepAt(tr, steps, i) && steps[i].Happens? && ActionOf(tr[i].net, steps[i].e) == Writes(fd, text)
    && ReadsAt(tr, steps, k, fd, c) && SameConnection(tr, k, i, fd)
    && |tr[k].sys.delivered| <= |tr[i].sys.delivered|
    && AnswerTo(tr[i].sys.delivered[|tr[k].sys.delivered|..], c, text)
    && RightBody(tr[i].sys.fleet, c.cmd, text)
  }

  /** Main result: whatever is written to a descriptor is the body of an answer
      that came in after the request was read from the connection which holds the
      descriptor now, and is right for its command. */
  lemma DeliveryIsRight(tr: seq<Joint>, steps: seq<JointStep>, i: nat) returns (k: nat, c: Client)
    requires JointRun(tr, steps) && JointStepAt(tr, steps, i)
    requires steps[i].Happens? && ActionOf(tr[i].net, steps[i].e).Writes?
    ensures var a := ActionOf(tr[i].net, steps[i].e);
            && WritesAnswerTo(tr, steps, k, i, a.fd, c, a.text)
            && a.fd in tr[i].held && tr[i].held[a.fd].asked == Some(c)
  {
    hide Inv, Counts, SentOk, NetOk, AnswerTo, JointNext, Enabled, Parsed, FreshConns;
    hide ReadsAt, RightBody, SameConnection, ActionOf;
    RunKeepsLink(tr, steps, i);
    var j, e := tr[i], steps[i].e;
    WritesWhenArmed(j, e, steps[i].room);
    WritesAnswer(j, e, steps[i].room);
    c := j.held[e.slot].asked.value;
    k := AskedWasRead(tr, steps, i, e.slot);
    AnswerInSuffix(j.sys.delivered, |tr[k].sys.delivered|, c, j.net.msgs[e.slot]);
    GoodIsRight(j.sys, c, j.net.msgs[e.slot]);
  }

  /** What a step adds to the record of answers: one entry if it writes, else none. */
  lemma SentBy(j: Joint, st: JointStep)
    requires JointEnabled(j, st)
    ensures var s, s' := j.sent, JointNext(j, st).sent;
            if st.Happens? && ActionOf(j.net, st.e).Writes? then
              var a := ActionOf(j.net, st.e);
              s' == s + [Answered(a.fd, if a.fd in j.held then j.held[a.fd].asked else None, a.text)]
            else s' == s
  {
    hide Enabled, Next, Handled, Parsed, Reply;
  }

  /** Every entry of the record was written by a step as DeliveryIsRight says, for
      the client it names. */
  lemma {:induction false} AnswersGoHome(tr: seq<Joint>, steps: seq<JointStep>, i: nat, x: nat) returns (k: nat, t: nat)
    requires JointRun(tr, steps) && i < |tr| && x < |tr[i].sent|
    ensures var a := tr[i].sent[x];
            a.asked.Some? && t < i && WritesAnswerTo(tr, steps, k, t, a.fd, a.asked.value, a.text)
  {
    hide JointInit, JointEnabled, JointNext, WritesAnswerTo, ActionOf;
    if i == 0 {
      StartSentNone(tr, steps);
    } else {
      assert JointStepAt(tr, steps, i - 1);
      SentBy(tr[i - 1], steps[i - 1]);
      if x < |tr[i - 1].sent| {
        k, t := AnswersGoHome(tr, steps, i - 1, x);
      } else {
        var c;
        k, c := DeliveryIsRight(tr, steps, i - 1);
        t := i - 1;
      }
    }
  }

  lemma StartSentNone(tr: seq<Joint>, steps: seq<JointStep>)
    requires JointRun(tr, steps)
    ensures tr[0].sent == []
  {
  }

  // ---------------------------------------------------------------- the life of a slot

  /** Flags of a connection's slot change only from none to reading, to sending,
      to none. */
  predicate FlagOrder(a: Flag, b: Flag) {
    a == b || (a == NONE_FLAG && b == TCP_SERVER_READ) || (a == TCP_SERVER_READ && b == TCP_SERVER_SEND)
    || (a == TCP_SERVER_SEND && b == NONE_FLAG)
  }

  lemma FlagOf(j: Joint, fd: int)
    requires Link(j) && FdOk(fd) && fd != j.net.svr && fd != j.aside.usock
    ensures fd < |j.net.items|
    ensures j.net.items[fd].flag ==
            if fd in j.aside.stale then TCP_SERVER_READ
            else if fd !in j.held then NONE_FLAG
            else if j.held[fd].asked.None? then TCP_SERVER_READ else TCP_SERVER_SEND
  {
    hide Inv, Counts, SentOk, Listed, AnswerTo;
    if fd in j.held { assert HolderOk(j.net, j.sys.delivered, fd, j.held[fd]); }
  }

  lemma SlotOrder(tr: seq<Joint>, steps: seq<JointStep>, i: nat, fd: int)
    requires JointRun(tr, steps) && i < |steps| && FdOk(fd) && fd != tr[0].net.svr && fd != tr[0].aside.usock
    ensures fd < |tr[i].net.items| && fd < |tr[i + 1].net.items|
    ensures FlagOrder(tr[i].net.items[fd].flag, tr[i + 1].net.items[fd].flag)
  {
    hide Link, JointEnabled, JointNext, ReadsAt;
    RunKeepsLink(tr, steps, i);
    RunKeepsLink(tr, steps, i + 1);
    ChannelsStay(tr, steps, i);
    ChannelsStay(tr, steps, i + 1);
    FlagOf(tr[i], fd);
    FlagOf(tr[i + 1], fd);
    HolderChanges(tr, steps, i, fd);
  }

  lemma {:induction false} ChannelsStay(tr: seq<Joint>, steps: seq<JointStep>, i: nat)
    requires JointRun(tr, steps) && i < |tr|
    ensures tr[i].net.svr == tr[0].net.svr && tr[i].aside.usock == tr[0].aside.usock
  {
    if i > 0 {
      hide JointEnabled, JointNext, JointInit;
      assert JointStepAt(tr, steps, i - 1);
      ChannelsStay(tr, steps, i - 1);
      StepKeepsChannels(tr[i - 1], steps[i - 1]);
    }
  }

  lemma StepKeepsChannels(j: Joint, st: JointStep)
    requires JointEnabled(j, st)
    ensures JointNext(j, st).net.svr == j.net.svr && JointNext(j, st).aside.usock == j.aside.usock
  {
    hide Next, Parsed, Enabled, Reported, WellFormed;
    if st.Happens? && ActionOf(j.net, st.e).Accepts? { ConnsKeepSvr(j.net, st.e.conns); }
  }

  lemma {:induction false} ConnsKeepSvr(n: Net, conns: seq<Conn>)
    requires forall c | c in conns :: 0 <= c.fd < |n.items|
    ensures DoConn(n, conns).svr == n.svr
    decreases |conns|
  {
    if conns != [] { ConnsKeepSvr(AcceptOne(n, conns[0]), conns[1..]); }
  }

  // ---------------------------------------------------------------- failed reads

  lemma {:induction false} StaleGrows(tr: seq<Joint>, steps: seq<JointStep>, i: nat, k: nat)
    requires JointRun(tr, steps) && i <= k < |tr|
    ensures tr[i].aside.stale <= tr[k].aside.stale
  {
    if i < k {
      hide JointEnabled, JointNext, JointInit, ReadsAt;
      StaleGrows(tr, steps, i, k - 1);
      HolderChanges(tr, steps, k - 1, 0);
    }
  }

  /** A descriptor whose read has failed is never watched or served again, while
      DeliveryIsRight and AnsweredOnce hold for all others as before. */
  lemma StaleIsNeverServed(tr: seq<Joint>, steps: seq<JointStep>, i: nat, k: nat, fd: int)
    requires JointRun(tr, steps) && i <= k < |tr| && fd in tr[i].aside.stale
    ensures fd in tr[k].net.vec && fd !in tr[k].net.epoll && fd !in tr[k].held
  {
    hide Inv, Counts, SentOk, JointEnabled, JointNext, JointInit, HolderOk, StaleRead;
    StaleGrows(tr, steps, i, k);
    RunKeepsLink(tr, steps, k);
  }

  // ---------------------------------------------------------------- the listening socket

  /** At every moment of every run both channels are watched for reading, so a client
      can connect, and its connection is then watched for reading too, unless its
      descriptor is stale. */
  lemma AlwaysListening(tr: seq<Joint>, steps: seq<JointStep>, i: nat, c: Conn)
    requires JointRun(tr, steps) && i < |tr| && FdOk(c.fd) && c.fd !in tr[i].net.open && AddrOk(c.addr)
    ensures var n := tr[i].net;
            && n.svr == tr[0].net.svr && n.svr in n.epoll && n.epoll[n.svr] == In && 0 <= n.svr
            && (tr[i].aside.usock != 0 ==> tr[i].aside.usock in n.epoll && n.epoll[tr[i].aside.usock] == In)
    ensures var j, st := tr[i], Happens(Event(tr[i].net.svr, false, [c], Gone), true);
            JointEnabled(j, st) && var j' := JointNext(j, st);
            if c.fd in j.aside.stale then j'.held == j.held && j'.net.epoll == j.net.epoll
            else j'.held == j.held[c.fd := Holder(c.addr, None)] && j'.net.epoll == j.net.epoll[c.fd := In]
  {
    hide Inv, Counts, SentOk, Listed, AnswerTo, JointNext, Enabled, Parsed, HolderOk;
    RunKeepsLink(tr, steps, i);
    ChannelsStay(tr, steps, i);
    var j, e := tr[i], Event(tr[i].net.svr, false, [c], Gone);
    assert e.conns[1..] == [];
    assert FreshConns(j.net.open, e.conns);
    NothingElseIsAssumed(j, e, true);
    AcceptStep(j, e, true);
    AcceptKeeps(j.net, j.aside, j.sys.delivered, j.held, c);
    AcceptNet(j, e, true);
    assert DoConn(j.net, e.conns) == AcceptOne(j.net, c);
  }

  lemma AcceptNet(j: Joint, e: Event, room: bool)
    requires JointEnabled(j, Happens(e, room)) && ActionOf(j.net, e) == Accepts
    ensures JointNext(j, Happens(e, room)).net == DoConn(j.net, e.conns)
  {
    hide Enabled, Reported, DoConn, HeldAfter, ActionOf;
  }

  // ---------------------------------------------------------------- there are such runs

  lemma StartOfAll(s: Sys, svr: int, usock: int) returns (j: Joint)
    requires Init(s) && s.qs == Queues([], [], []) && FdOk(svr) && FdOk(usock) && svr != 0 && svr != usock
    ensures JointInit(j) && j.sys == s && j.net.svr == svr && j.aside == Aside(usock, {})
    ensures j.net.open == {0, svr, usock} && j.held == map[]
  {
    hide Init;
    var none := Item(0, NONE_FLAG, Addr(0, "", 0));
    var items := seq(MAX_EPOLL_EVENT_NUM, k => none)[svr := Item(svr, TCP_SERVER_ACCEPT, Addr(2, "0.0.0.0", 0))];
    var n0 := Net(items, seq(MAX_MSG_SIZE, k => ""), [], 0, svr, map[], {0, svr, usock});
    assert ChannelsOpen(n0, usock);
    j := Joint(Watched(n0, usock), Aside(usock, {}), s, map[], []);
  }
}
