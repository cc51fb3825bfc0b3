/** Whole runs on which clients hang up: as long as the late answers are harmless,
    every text is an answer to the request that was read last; and a run of five
    steps to one that is not. */
module HangUpRuns {
  import opened Common
  import opened CmdObj
  import opened MsgQueue
  import opened Protocol
  import opened Reactor
  import opened Delivery
  import opened DeliverySteps
  import opened DeliveryRuns
  import opened HangUps

  ghost predicate WideStepAt(tr: seq<Wide>, steps: seq<JointStep>, i: int) {
    0 <= i < |steps| && i + 1 < |tr| && WideEnabled(tr[i], steps[i]) && tr[i + 1] == WideNext(tr[i], steps[i])
  }

  ghost predicate WideRun(tr: seq<Wide>, steps: seq<JointStep>) {
    && |tr| == |steps| + 1 && JointInit(tr[0].j) && tr[0].stored == map[]
    && forall i | 0 <= i < |steps| :: WideStepAt(tr, steps, i)
  }

  ghost predicate HarmlessAt(tr: seq<Wide>, steps: seq<JointStep>, i: int) {
    WideStepAt(tr, steps, i) && StepHarmless(tr[i], steps[i])
  }

  /** The answers that arrived before moment i were harmless. */
  ghost predicate HarmlessUntil(tr: seq<Wide>, steps: seq<JointStep>, i: int) {
    forall k | 0 <= k < i :: HarmlessAt(tr, steps, k)
  }

  /** On every run, with any hang-ups, repeated events and failed reads, every text
      that is ready is the right one at all moments up to i, exactly if the answers
      that arrived until then were harmless. */
  lemma {:induction false} WideRunsAreRight(tr: seq<Wide>, steps: seq<JointStep>, i: nat)
    requires WideRun(tr, steps) && i < |tr|
    ensures HarmlessUntil(tr, steps, i) <==> forall k | 0 <= k <= i :: WideInv(tr[k])
  {
    hide WideInv, WideEnabled, WideNext, JointInit, StepHarmless;
    if i == 0 {
      StartWide(tr[0].j);
    } else {
      WideRunsAreRight(tr, steps, i - 1);
      assert WideStepAt(tr, steps, i - 1);
      if WideInv(tr[i - 1]) { WideSteps(tr[i - 1], steps[i - 1]); }
      assert HarmlessUntil(tr, steps, i) <==> HarmlessUntil(tr, steps, i - 1) && HarmlessAt(tr, steps, i - 1);
    }
  }

  // ---------------------------------------------------------------- what a step does to one connection

  ghost function Joints(tr: seq<Wide>): (js: seq<Joint>)
    ensures |js| == |tr| && forall i | 0 <= i < |tr| :: js[i] == tr[i].j
  {
    seq(|tr|, i requires 0 <= i < |tr| => tr[i].j)
  }

  /** The step reads the request of client c from descriptor fd. */
  ghost predicate ReadsFrom(w: Wide, st: JointStep, fd: int, c: Client) {
    && st.Happens? && 0 <= fd < |w.j.net.items| && WideEnabled(w, st)
    && st.e.slot == fd && st.e.reading.Got? && ActionOf(w.j.net, st.e) == Reads(fd)
    && c == ClientOf(Requested(w.j.net, fd, st.e.reading.buf))
  }

  lemma ClosesHolder(w: Wide, e: Event, room: bool)
    requires WideInv(w) && WideEnabled(w, Happens(e, room)) && e.slot in w.j.held
    requires e.rdhup || w.j.held[e.slot].asked.Some?
    ensures var j, j' := w.j, WideNext(w, Happens(e, room)).j;
            && j'.held == j.held - {e.slot} && j'.sys == j.sys && j'.net.msgs == j.net.msgs
            && j'.net.epoll == j.net.epoll - {e.slot}
  {
    hide Inv, AnswerTo, Enabled, Listed, HolderOk, StoredAt, WellFormed, FreshConns, RestOk, DoClose;
    HeldIsNoChannel(w.j, e.slot);
    WriteKeepsNet(w.j.net, w.j.aside, w.j.sys.delivered, w.j.held, e.slot);
    ClosedMsgs(w.j.net, e.slot);
  }

  /** A connection is new without a request, stays as it is, has its request read,
      or is gone. */
  lemma WideHolder(w: Wide, st: JointStep, fd: int)
    requires WideInv(w) && WideEnabled(w, st) && fd in WideNext(w, st).j.held
    ensures var h, h' := w.j.held, WideNext(w, st).j.held;
            || (fd in h && h'[fd] == h[fd])
            || (fd !in h && h'[fd].asked.None?)
            || (fd in h && h[fd].asked.None? && h'[fd].addr == h[fd].addr && h'[fd].asked.Some?
                && ReadsFrom(w, st, fd, h'[fd].asked.value) && WideNext(w, st).j.net.epoll == w.j.net.epoll
                && fd in w.j.net.epoll && w.j.net.epoll[fd] == In
                && WideNext(w, st).j.sys.delivered == w.j.sys.delivered)
  {
    hide Inv, Listed, AnswerTo, Enabled, Parsed, FreshConns, WellFormed, Next, TextsOk, StoredOk, Moved, HolderOk;
    hide ActionOf;
    if st.Happens? {
      var e, j := st.e, w.j;
      if e.slot == j.net.svr && !e.rdhup {
        AcceptStep(j, e, st.room);
        HeldGrows(j.held, j.aside.stale, j.net.open, e.conns, fd);
      } else {
        HeldIsNoChannel(j, e.slot);
        if e.rdhup || j.held[e.slot].asked.Some? {
          ClosesHolder(w, e, st.room);
        } else if e.reading.Got? {
          ReadsRequest(j, e, st.room);
          RequestCounts(j.sys, RequestStep(j.net, e.slot, e.reading.buf, st.room));
        } else {
          ReadsNothing(j, e, st.room);
        }
      }
    } else {
      WideOtherStep(w, st);
    }
  }

  lemma WideOtherStep(w: Wide, st: JointStep)
    requires WideEnabled(w, st) && !st.Happens?
    ensures WideNext(w, st).j.held == w.j.held
  {
    hide Next, Parsed, Reply;
  }

  // ---------------------------------------------------------------- which answer it is

  ghost predicate CameFor(d: seq<Msg>, c: Client) { exists m :: m in d && ClientOf(Read(m)) == c }

  /** Of the answers that netio took after moment n, one was for c if the descriptor
      is watched for writing, and its text is the stored one; none was if not. */
  ghost predicate Settled(j: Joint, n: nat, fd: int, c: Client) {
    ReadySince(j, n, fd, c) && (fd in j.net.epoll && j.net.epoll[fd] == In ==> !CameFor(j.sys.delivered[n..], c))
  }

  lemma SameReady(j: Joint, j': Joint, n: nat, fd: int, c: Client)
    requires Settled(j, n, fd, c) && 0 <= fd < |j.net.msgs| && 0 <= fd < |j'.net.msgs|
    requires j'.sys.delivered == j.sys.delivered && j'.net.msgs[fd] == j.net.msgs[fd]
    requires fd in j'.net.epoll ==> fd in j.net.epoll && j'.net.epoll[fd] == j.net.epoll[fd]
    ensures Settled(j', n, fd, c)
  {
    hide AnswerTo, CameFor;
  }

  /** An event that leaves the connection as it is leaves its text and its watch. */
  lemma EventKeepsReady(w: Wide, e: Event, room: bool, n: nat, fd: int)
    requires WideInv(w) && WideEnabled(w, Happens(e, room)) && fd in w.j.held && w.j.held[fd].asked.Some?
    requires var h := WideNext(w, Happens(e, room)).j.held; fd in h && h[fd] == w.j.held[fd]
    requires Settled(w.j, n, fd, w.j.held[fd].asked.value)
    ensures Settled(WideNext(w, Happens(e, room)).j, n, fd, w.j.held[fd].asked.value)
  {
    hide Inv, Listed, AnswerTo, Enabled, Parsed, FreshConns, WellFormed, Next, TextsOk, StoredOk, Moved, HolderOk;
    hide ActionOf, Settled, DoConn;
    var j, j' := w.j, WideNext(w, Happens(e, room)).j;
    HeldIsNoChannel(j, fd);
    if e.slot == j.net.svr && !e.rdhup {
      AcceptStep(j, e, room);
      WideAcceptNet(w, e, room);
      ConnsKeepStored(j.net, e.conns, fd);
    } else {
      HeldIsNoChannel(j, e.slot);
      if e.rdhup || j.held[e.slot].asked.Some? {
        ClosesHolder(w, e, room);
      } else if e.reading.Got? {
        ReadsRequest(j, e, room);
        RequestCounts(j.sys, RequestStep(j.net, e.slot, e.reading.buf, room));
      } else {
        ReadsNothing(j, e, room);
      }
    }
    SameReady(j, j', n, fd, j.held[fd].asked.value);
  }

  lemma WideAcceptNet(w: Wide, e: Event, room: bool)
    requires WideEnabled(w, Happens(e, room)) && ActionOf(w.j.net, e) == Accepts
    ensures WideNext(w, Happens(e, room)).j.net == DoConn(w.j.net, e.conns)
  {
    hide Enabled, WideReported, DoConn, HeldAfter, ActionOf;
  }

  /** A harmless answer leaves the text of a connection that asked, or is its own. */
  lemma ArrivalKeepsReady(w: Wide, n: nat, fd: int)
    requires WideInv(w) && WideEnabled(w, Arrives) && StepHarmless(w, Arrives)
    requires fd in w.j.held && w.j.held[fd].asked.Some? && Settled(w.j, n, fd, w.j.held[fd].asked.value)
    ensures Settled(WideNext(w, Arrives).j, n, fd, w.j.held[fd].asked.value)
  {
    hide Inv, AnswerTo, Next, Parsed, NetOk, StoredOk, TextsOk, WideNext, WideEnabled;
    var i, slot := AnswerActs(w);
    AnswerDelivered(w);
    var d, c, m := w.j.sys.delivered, w.j.held[fd].asked.value, NextAnswer(w.j);
    HeldIsNoChannel(w.j, fd);
    OwnEnd(w.j, ClientOf(Read(m)));
    assert (d + [m])[n..] == d[n..] + [m];
    AnswerLast(d[n..], m);
    AnswerStays(d[n..], c, w.j.net.msgs[fd], m);
    CameNext(d[n..], c, m);
    hide CameFor;
  }

  lemma CameNext(d: seq<Msg>, c: Client, m: Msg)
    ensures CameFor(d + [m], c) <==> CameFor(d, c) || ClientOf(Read(m)) == c
  {
    hide Parsed;
    if ClientOf(Read(m)) == c { assert m in d + [m]; }
    if x :| x in d && ClientOf(Read(x)) == c { assert x in d + [m]; }
  }

  lemma OtherKeepsReady(w: Wide, st: JointStep, n: nat, fd: int)
    requires WideInv(w) && WideEnabled(w, st) && (st.PollFails? || st.Turn?)
    requires fd in w.j.held && w.j.held[fd].asked.Some? && Settled(w.j, n, fd, w.j.held[fd].asked.value)
    ensures Settled(WideNext(w, st).j, n, fd, w.j.held[fd].asked.value)
  {
    hide Inv, AnswerTo, StoredOk, TextsOk, HolderOk, EmptyAnswer, Reply, Next, Enabled;
    HeldIsNoChannel(w.j, fd);
    if st.PollFails? {
      PollMoves(w.j.net, w.j.aside, w.j.held);
    } else {
      TurnCounts(w.j.sys, Step.Container(st.pid, st.sees, st.roomNested, st.roomAnswer));
    }
    hide NetOk, Settled;
    SameReady(w.j, WideNext(w, st).j, n, fd, w.j.held[fd].asked.value);
  }

  lemma StepKeepsReadiness(w: Wide, st: JointStep, n: nat, fd: int)
    requires WideInv(w) && WideEnabled(w, st) && StepHarmless(w, st) && fd in w.j.held && w.j.held[fd].asked.Some?
    requires var h := WideNext(w, st).j.held; fd in h && h[fd] == w.j.held[fd]
    requires Settled(w.j, n, fd, w.j.held[fd].asked.value)
    ensures Settled(WideNext(w, st).j, n, fd, w.j.held[fd].asked.value)
  {
    hide WideInv, WideEnabled, WideNext, Settled, StepHarmless;
    match st
    case Happens(e, room) => EventKeepsReady(w, e, room, n, fd);
    case Arrives => ArrivalKeepsReady(w, n, fd);
    case PollFails => OtherKeepsReady(w, st, n, fd);
    case Turn(_, _, _, _) => OtherKeepsReady(w, st, n, fd);
  }

  /** As AskedWasRead, on runs with hang-ups and harmless answers. */
  lemma {:induction false} WideAskedWasRead(tr: seq<Wide>, steps: seq<JointStep>, i: nat, fd: int) returns (k: nat)
    requires WideRun(tr, steps) && i < |tr| && HarmlessUntil(tr, steps, i)
    requires fd in tr[i].j.held && tr[i].j.held[fd].asked.Some?
    ensures var c := tr[i].j.held[fd].asked.value;
            && k < i && WideStepAt(tr, steps, k) && ReadsFrom(tr[k], steps[k], fd, c)
            && SameConnection(Joints(tr), k, i, fd) && Settled(tr[i].j, |tr[k].j.sys.delivered|, fd, c)
  {
    hide JointInit, WideEnabled, WideNext, WideInv, ReadsFrom, Settled, SameConnection, StepHarmless;
    if i == 0 {
      WideStartHoldsNone(tr[0]);
    } else {
      assert HarmlessAt(tr, steps, i - 1);
      WideRunsAreRight(tr, steps, i - 1);
      WideHolder(tr[i - 1], steps[i - 1], fd);
      var js := Joints(tr);
      assert HeldLike(js, i - 1, i, fd);
      if tr[i - 1].j.held[fd].asked.Some? {
        k := WideAskedWasRead(tr, steps, i - 1, fd);
        SameLonger(js, k, i, fd);
        StepKeepsReadiness(tr[i - 1], steps[i - 1], |tr[k].j.sys.delivered|, fd);
      } else {
        k := i - 1;
        SameTwo(js, k, fd);
        JustAsked(tr[k].j, tr[i].j, fd, tr[i].j.held[fd].asked.value);
      }
    }
  }

  lemma WideStartHoldsNone(w: Wide)
    requires JointInit(w.j)
    ensures w.j.held == map[]
  {
  }

  lemma JustAsked(j: Joint, j': Joint, fd: int, c: Client)
    requires j'.net.epoll == j.net.epoll && fd in j.net.epoll && j.net.epoll[fd] == In
    requires j'.sys.delivered == j.sys.delivered
    ensures Settled(j', |j.sys.delivered|, fd, c)
  {
  }

  // ---------------------------------------------------------------- writes

  /** Main result: what is written to a connection is an answer that came for the
      client that asked through it, exactly if the descriptor was watched for
      writing; the other case is a second readable event before the answer. */
  lemma WritesAreRight(w: Wide, e: Event, room: bool)
    requires WideInv(w) && WideEnabled(w, Happens(e, room)) && ActionOf(w.j.net, e).Writes?
    ensures var fd, j := e.slot, w.j;
            && fd in j.held && j.held[fd].asked.Some? && fd in j.net.epoll && fd < |j.net.msgs|
            && ActionOf(j.net, e) == Writes(fd, j.net.msgs[fd])
            && (j.net.epoll[fd] == Out <==> fd in w.stored && j.held[fd].asked == Some(w.stored[fd]))
            && (j.net.epoll[fd] == Out ==>
                  && AnswerTo(j.sys.delivered, j.held[fd].asked.value, j.net.msgs[fd])
                  && RightBody(j.sys.fleet, j.held[fd].asked.value.cmd, j.net.msgs[fd]))
  {
    hide Inv, AnswerTo, NetOk, WellFormed, FreshConns, Enabled, RightBody;
    WriteHasHolder(w, e, room);
    var fd, j := e.slot, w.j;
    HeldIsNoChannel(j, fd);
    assert StoredAt(j.held[fd], j.net.epoll[fd], fd in w.stored, if fd in w.stored then w.stored[fd] else NOBODY);
    if j.net.epoll[fd] == Out { GoodIsRight(j.sys, j.held[fd].asked.value, j.net.msgs[fd]); }
  }

  lemma WriteHasHolder(w: Wide, e: Event, room: bool)
    requires WideInv(w) && WideEnabled(w, Happens(e, room)) && ActionOf(w.j.net, e).Writes?
    ensures e.slot in w.j.held && w.j.held[e.slot].asked.Some?
    ensures ActionOf(w.j.net, e) == Writes(e.slot, w.j.net.msgs[e.slot])
  {
    hide Inv, AnswerTo, WellFormed, FreshConns, Enabled, Listed, HolderOk, StoredOk, TextsOk;
    if e.slot in w.j.held { HeldIsNoChannel(w.j, e.slot); }
  }

  /** Main result: a write of a run with hang-ups and harmless answers goes to a
      connection whose request some step k read; the text is that of an answer to
      this request which came after step k, exactly if the descriptor was watched
      for writing, and then it is right for the command. */
  lemma WideDeliveryIsRight(tr: seq<Wide>, steps: seq<JointStep>, i: nat) returns (k: nat, c: Client)
    requires WideRun(tr, steps) && WideStepAt(tr, steps, i) && HarmlessUntil(tr, steps, i)
    requires steps[i].Happens? && ActionOf(tr[i].j.net, steps[i].e).Writes?
    ensures var j, fd, a := tr[i].j, steps[i].e.slot as int, ActionOf(tr[i].j.net, steps[i].e);
            && k < i && WideStepAt(tr, steps, k) && ReadsFrom(tr[k], steps[k], fd, c)
            && SameConnection(Joints(tr), k, i, fd) && fd in j.held && j.held[fd].asked == Some(c)
            && a == Writes(fd, a.text) && fd in j.net.epoll && |tr[k].j.sys.delivered| <= |j.sys.delivered|
            && (AnswerTo(j.sys.delivered[|tr[k].j.sys.delivered|..], c, a.text) <==> j.net.epoll[fd] == Out)
            && (j.net.epoll[fd] == Out ==> RightBody(j.sys.fleet, c.cmd, a.text))
  {
    hide WideInv, WideEnabled, WideNext, JointInit, ReadsFrom, SameConnection, RightBody, AnswerTo, StepHarmless;
    hide ActionOf;
    WideRunsAreRight(tr, steps, i);
    var w, e := tr[i], steps[i].e;
    WritesAreRight(w, e, steps[i].room);
    WriteHasHolder(w, e, steps[i].room);
    k := WideAskedWasRead(tr, steps, i, e.slot);
    c := w.j.held[e.slot].asked.value;
    var since := w.j.sys.delivered[|tr[k].j.sys.delivered|..];
    if AnswerTo(since, c, w.j.net.msgs[e.slot]) { ForItCame(since, c, w.j.net.msgs[e.slot]); }
  }

  lemma ForItCame(d: seq<Msg>, c: Client, text: string)
    requires AnswerTo(d, c, text)
    ensures CameFor(d, c)
  {
    hide Parsed;
  }
}
