/** A run on which a late answer does harm: a client asks and hangs up, another one
    is given its descriptor, and is written the answer that it never asked for. */
module LateAnswer {
  import opened Common
  import opened Text
  import opened CmdObj
  import opened MsgQueue
  import opened Container
  import opened Protocol
  import opened Answers
  import opened Reactor
  import opened WatchList
  import opened Delivery
  import opened DeliverySteps
  import opened DeliveryRuns
  import opened HangUps
  import opened HangUpRuns
  import Journey

  // ---------------------------------------------------------------- the events of one descriptor

  function Connects(svr: nat, fd: int, a: Addr): JointStep { Happens(Event(svr, false, [Conn(fd, a)], Gone), true) }

  function Sends(fd: nat, buf: string): JointStep { Happens(Event(fd, false, [], Got(buf)), true) }

  function HangsUp(fd: nat): JointStep { Happens(Event(fd, true, [], Gone), true) }

  function Writable(fd: nat): JointStep { Happens(Event(fd, false, [], Gone), true) }

  /** A client connects on a descriptor that is not open. */
  lemma Connected(w: Wide, fd: int, a: Addr)
    requires WideInv(w) && FdOk(fd) && fd !in w.j.net.open && fd !in w.j.aside.stale && AddrOk(a)
    ensures var st := Connects(w.j.net.svr, fd, a);
            && WideEnabled(w, st) && StepHarmless(w, st) && WideInv(WideNext(w, st))
            && var j' := WideNext(w, st).j;
               && j'.held == w.j.held[fd := Holder(a, None)] && j'.sys == w.j.sys && j'.aside == w.j.aside
               && j'.net.svr == w.j.net.svr && j'.net.open == w.j.net.open + {fd}
               && fd in j'.net.epoll && j'.net.epoll[fd] == In
  {
    hide Inv, Listed, AnswerTo, HolderOk, StoredOk, TextsOk, Enabled, Parsed;
    var e := Event(w.j.net.svr, false, [Conn(fd, a)], Gone);
    assert e.conns[1..] == [];
    assert FreshConns(w.j.net.open, e.conns);
    WideNeedsNothingElse(w, e, true);
    WideSteps(w, Happens(e, true));
    AcceptStep(w.j, e, true);
    AcceptKeeps(w.j.net, w.j.aside, w.j.sys.delivered, w.j.held, e.conns[0]);
    WideAcceptNet(w, e, true);
    ConnsKeepSvr(w.j.net, e.conns);
    assert DoConn(w.j.net, e.conns) == AcceptOne(w.j.net, e.conns[0]);
  }

  /** A client sends its request. */
  lemma Asks(w: Wide, fd: int, buf: string)
    requires WideInv(w) && fd in w.j.held && w.j.held[fd].asked.None? && WellFormed(buf)
    ensures FdOk(fd) && fd < |w.j.net.items| && Enabled(w.j.sys, RequestStep(w.j.net, fd, buf, true))
    ensures var st := Sends(fd, buf);
            && WideEnabled(w, st) && StepHarmless(w, st) && WideInv(WideNext(w, st))
            && var j' := WideNext(w, st).j;
               && fd in j'.held && j'.sys == Next(w.j.sys, RequestStep(w.j.net, fd, buf, true))
               && j'.aside == w.j.aside && j'.net.svr == w.j.net.svr && j'.net.open == w.j.net.open
  {
    hide Inv, Listed, AnswerTo, StoredOk, TextsOk, Enabled, Parsed, WellFormed, Next, HolderOk, FreshConns;
    HeldIsNoChannel(w.j, fd);
    var e := Event(fd, false, [], Got(buf));
    WideNeedsNothingElse(w, e, true);
    WideSteps(w, Happens(e, true));
    ReadsRequest(w.j, e, true);
  }

  /** The request names the connection it was read from. */
  lemma AsksFor(j: Joint, fd: int, buf: string)
    requires NetOk(j.net, j.aside, j.sys.delivered, j.held) && fd in j.held && 0 <= fd < |j.net.items|
    ensures var c := ClientOf(Requested(j.net, fd, buf));
            c.fd == fd && SameEnd(j.held[fd].addr, c) && c.ip == j.held[fd].addr.ip
            && c.cmd == Parsed(DEFAULT_CMD, buf).iCmd
  {
    hide AnswerTo, Listed, Parsed;
    assert HolderOk(j.net, j.sys.delivered, fd, j.held[fd]);
  }

  lemma NetFits(w: Wide)
    requires WideInv(w)
    ensures NetOk(w.j.net, w.j.aside, w.j.sys.delivered, w.j.held)
  {
    hide Inv, NetOk, StoredOk, TextsOk;
  }

  lemma Leaves(w: Wide, fd: int)
    requires WideInv(w) && fd in w.j.held
    ensures FdOk(fd)
    ensures var st := HangsUp(fd);
            && WideEnabled(w, st) && StepHarmless(w, st) && WideInv(WideNext(w, st))
            && var j' := WideNext(w, st).j;
               && j'.held == w.j.held - {fd} && j'.sys == w.j.sys && j'.aside == w.j.aside
               && j'.net.svr == w.j.net.svr && j'.net.open == w.j.net.open - {fd}
  {
    hide Inv, Listed, AnswerTo, StoredOk, TextsOk, Enabled, HolderOk, FreshConns;
    HeldIsNoChannel(w.j, fd);
    var e := Event(fd, true, [], Gone);
    WideNeedsNothingElse(w, e, true);
    WideSteps(w, Happens(e, true));
  }

  lemma Turns(w: Wide, pid: int)
    requires WideInv(w) && Enabled(w.j.sys, Step.Container(pid, BOTH, true, true))
    ensures var st := Turn(pid, BOTH, true, true);
            && WideEnabled(w, st) && StepHarmless(w, st) && WideInv(WideNext(w, st))
            && WideNext(w, st).j == w.j.(sys := Next(w.j.sys, Step.Container(pid, BOTH, true, true)))
  {
    hide WideInv, Enabled, Next;
    WideSteps(w, Turn(pid, BOTH, true, true));
  }

  /** An answer arrives for a connection of the same endpoint that has not asked. */
  lemma Misses(w: Wide, fd: int, m: Msg)
    requires WideInv(w) && w.j.sys.qs.back == [m] && FirstOf([m], RESPONSE) == 0 && fd in w.j.held
    requires w.j.held[fd].asked.None? && Read(m).iFd == fd && SameEnd(w.j.held[fd].addr, ClientOf(Read(m)))
    ensures WideEnabled(w, Arrives) && !StepHarmless(w, Arrives)
    ensures var w' := WideNext(w, Arrives);
            && FdOk(fd) && w'.j.held == w.j.held && WideEnabled(w', Writable(fd))
            && fd < |w'.j.net.items| && 0 <= w'.j.net.items[fd].fd < |w'.j.net.msgs|
            && ActionOf(w'.j.net, Event(fd, false, [], Gone)) == Writes(fd, Read(m).sData)
  {
    hide Inv, Listed, AnswerTo, StoredOk, TextsOk, HolderOk, Parsed, Next, Reply;
    HeldIsNoChannel(w.j, fd);
    WideNeedsNothingElse(w, Event(fd, false, [], Gone), true);
    assert NextAnswer(w.j) == m;
    HarmfulAnswer(w);
    ReplySized(w.j.net, Read(m));
  }

  lemma ReplySized(n: Net, c: Cmd)
    requires Sized(n) && FdOk(c.iFd)
    ensures Sized(Reply(n, c))
  {
    SizedKept(n, Answer(c));
  }

  // ---------------------------------------------------------------- the run

  /** A client asks, a process of the first service answers, and before netio has
      taken the answer the client has hung up. */
  lemma AskedAndGone(w: Wide, p: int, fd: int, a: Addr, buf: string)
    returns (tr: seq<Wide>, steps: seq<JointStep>, m: Msg)
    requires WideInv(w) && p in w.j.sys.fleet && w.j.sys.fleet[p] == 1 && w.j.sys.qs == Queues([], [], [])
    requires FdOk(fd) && fd !in w.j.net.open && fd !in w.j.aside.stale && AddrOk(a)
    requires WellFormed(buf) && Parsed(DEFAULT_CMD, buf).iCmd == 1
    ensures |tr| == 5 && tr[0] == w && WideInv(tr[4]) && w.j.net.svr >= 0
    ensures steps == [Connects(w.j.net.svr, fd, a), Sends(fd, buf), Turn(p, BOTH, true, true), HangsUp(fd)]
    ensures forall i | 0 <= i < 4 :: HarmlessAt(tr, steps, i)
    ensures var j := tr[4].j;
            && j.net.svr == w.j.net.svr && j.aside == w.j.aside && fd !in j.net.open && fd !in j.held
            && j.sys.qs == Queues([m], [], []) && FirstOf([m], RESPONSE) == 0
            && Read(m).sData == ByPid("resp1=r1", p)
            && var c := ClientOf(Read(m)); c.fd == fd && SameEnd(a, c) && c.ip == a.ip
  {
    hide WideInv, WideEnabled, WideNext, StepHarmless, Enabled, Next, Parsed, WellFormed, AddrOk, Process, NetOk;
    SvrFits(w);
    var s1 := Connects(w.j.net.svr, fd, a);
    Connected(w, fd, a);
    var w1 := WideNext(w, s1);
    Asks(w1, fd, buf);
    NetFits(w1);
    AsksFor(w1.j, fd, buf);
    var w2 := WideNext(w1, Sends(fd, buf));
    var st := RequestStep(w1.j.net, fd, buf, true);
    FleetFits(w);
    ForwardedIs(w1.j.net, fd, buf, true);
    m := Journey.FirstAnswers(w.j.sys, p, st);
    Turns(w2, p);
    var w3 := WideNext(w2, Turn(p, BOTH, true, true));
    Leaves(w3, fd);
    var w4 := WideNext(w3, HangsUp(fd));
    tr, steps := [w, w1, w2, w3, w4], [s1, Sends(fd, buf), Turn(p, BOTH, true, true), HangsUp(fd)];
  }

  lemma SvrFits(w: Wide)
    requires WideInv(w)
    ensures w.j.net.svr >= 0
  {
    hide Inv, Listed, HolderOk, StoredOk, TextsOk;
  }

  lemma FleetFits(w: Wide)
    requires WideInv(w)
    ensures FleetOk(w.j.sys)
  {
    hide FleetOk, NetOk, StoredOk, TextsOk, MessagesOk, CallsBalance, ClientsBalance;
  }

  /** Main result: with any process of the first service, any usable descriptors and
      any two clients of equal port and family there is a run of seven steps on
      which the first client asks and hangs up, the second is given its descriptor
      and, without having asked, is written the first one's answer. */
  lemma LateAnswerDoesHarm(s: Sys, p: int, svr: int, usock: int, fd: int, a: Addr, b: Addr)
    returns (tr: seq<Wide>, steps: seq<JointStep>)
    requires Init(s) && s.qs == Queues([], [], []) && p in s.fleet && s.fleet[p] == 1
    requires FdOk(svr) && FdOk(usock) && FdOk(fd) && svr != 0 && svr != usock && fd !in {0, svr, usock}
    requires AddrOk(a) && AddrOk(b) && a.port == b.port && a.family == b.family
    ensures WideRun(tr, steps) && tr[0].j.sys == s
    ensures steps == [Connects(svr, fd, a), Sends(fd, FirstRequest()), Turn(p, BOTH, true, true), HangsUp(fd),
                      Connects(svr, fd, b), Arrives, Writable(fd)]
    ensures HarmlessUntil(tr, steps, 5) && !HarmlessAt(tr, steps, 5)
    ensures fd in tr[6].j.held && tr[6].j.held[fd] == Holder(b, None)
    ensures WideStepAt(tr, steps, 6) && ActionOf(tr[6].j.net, steps[6].e) == Writes(fd, "resp1=r1 by pid:" + Itoa(p))
  {
    hide WideInv, WideEnabled, WideNext, StepHarmless, Init, Parsed, WellFormed, JointInit;
    hide AddrOk, ActionOf, WideStepAt, ByPid, FirstRequest, Itoa;
    Runs.BodyTexts(p);
    var j := StartOfAll(s, svr, usock);
    StartWide(j);
    FirstText();
    var tr4, steps4, m := AskedAndGone(Wide(j, map[]), p, fd, a, FirstRequest());
    var tr3, steps3 := Wronged(tr4[4], fd, m, b);
    tr, steps := tr4 + tr3[1..], steps4 + steps3;
    forall i | 0 <= i < 7 ensures WideStepAt(tr, steps, i) && (i < 5 ==> HarmlessAt(tr, steps, i)) {
      Glued(tr4, steps4, tr3, steps3, i);
      if i < 4 { assert HarmlessAt(tr4, steps4, i); }
    }
    Glued(tr4, steps4, tr3, steps3, 5);
  }

  /** Steps of two paths, one behind the other. */
  lemma Glued(tr: seq<Wide>, steps: seq<JointStep>, tr': seq<Wide>, steps': seq<JointStep>, i: nat)
    requires |tr| == |steps| + 1 && |tr'| == |steps'| + 1 && tr[|steps|] == tr'[0] && i < |steps| + |steps'|
    ensures var t, s, n := tr + tr'[1..], steps + steps', |steps|;
            && (WideStepAt(t, s, i) <==> if i < n then WideStepAt(tr, steps, i) else WideStepAt(tr', steps', i - n))
            && (HarmlessAt(t, s, i) <==> if i < n then HarmlessAt(tr, steps, i) else HarmlessAt(tr', steps', i - n))
  {
    hide WideEnabled, WideNext, StepHarmless;
  }

  /** Another client of the same port and family is given the descriptor. */
  lemma Wronged(w: Wide, fd: int, m: Msg, b: Addr) returns (tr: seq<Wide>, steps: seq<JointStep>)
    requires WideInv(w) && FdOk(fd) && fd !in w.j.net.open && fd !in w.j.aside.stale && AddrOk(b)
    requires w.j.sys.qs.back == [m] && FirstOf([m], RESPONSE) == 0
    requires var c := ClientOf(Read(m)); c.fd == fd && SameEnd(b, c)
    ensures w.j.net.svr >= 0
    ensures |tr| == 4 && tr[0] == w && steps == [Connects(w.j.net.svr, fd, b), Arrives, Writable(fd)]
    ensures forall i | 0 <= i < 3 :: WideStepAt(tr, steps, i)
    ensures HarmlessAt(tr, steps, 0) && !HarmlessAt(tr, steps, 1)
    ensures fd in tr[2].j.held && tr[2].j.held[fd] == Holder(b, None)
    ensures var n := tr[2].j.net;
            && fd < |n.items| && 0 <= n.items[fd].fd < |n.msgs|
            && ActionOf(n, Event(fd, false, [], Gone)) == Writes(fd, Read(m).sData)
  {
    hide WideInv, WideEnabled, WideNext, StepHarmless, Parsed, AddrOk, ActionOf;
    SvrFits(w);
    Connected(w, fd, b);
    var w1 := WideNext(w, Connects(w.j.net.svr, fd, b));
    Misses(w1, fd, m);
    var w2 := WideNext(w1, Arrives);
    tr := [w, w1, w2, WideNext(w2, Writable(fd))];
    steps := [Connects(w.j.net.svr, fd, b), Arrives, Writable(fd)];
  }

  /** A text that asks the first service. */
  function FirstRequest(): string { Header(DEFAULT_CMD.(iCmd := 1)) }

  lemma FirstText()
    ensures WellFormed(FirstRequest()) && Parsed(DEFAULT_CMD, FirstRequest()).iCmd == 1
  {
    ReadHeader(DEFAULT_CMD.(iCmd := 1));
  }
}
