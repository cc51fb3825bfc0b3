/** What holds on every run of the protocol, with any number of processes and in
    every interleaving. */
module Runs {
  import opened Text
  import opened CmdObj
  import opened Bags
  import opened MsgQueue
  import opened Service
  import opened Dispatcher
  import opened Container
  import opened Answers
  import opened Protocol
  import opened ProtocolSteps

  /** Handler k of process pid is suspended. */
  predicate IsAsleep(s: Sys, pid: int, k: int32) { pid in s.pools && k in s.pools[pid].stateful }

  lemma RunLength(tr: seq<Sys>, steps: seq<Step>)
    requires Run(tr, steps)
    ensures |tr| == |steps| + 1
  {
  }

  lemma RunStep(tr: seq<Sys>, steps: seq<Step>, i: nat)
    requires Run(tr, steps) && i < |steps|
    ensures |tr| == |steps| + 1 && Enabled(tr[i], steps[i]) && tr[i + 1] == Next(tr[i], steps[i])
  {
    assert StepAt(tr, steps, i);
    hide Enabled, Next, Init;
  }

  lemma {:induction false} RunKeepsInv(tr: seq<Sys>, steps: seq<Step>, i: nat)
    requires Run(tr, steps) && i < |tr|
    ensures Inv(tr[i]) && tr[i].fleet == tr[0].fleet && tr[i].stray == tr[0].stray
  {
    hide Inv, Next, Enabled, Init;
    if i == 0 {
      InitInv(tr[0]);
    } else {
      RunKeepsInv(tr, steps, i - 1);
      RunStep(tr, steps, i - 1);
      NextKeepsInv(tr[i - 1], steps[i - 1]);
    }
  }

  // ---------------------------------------------------------------- safety

  /** The assert of Dispatch never fires, no event goes to a returned context or
      to an unset queue: in every state of every run, whatever process moves next. */
  lemma NoAssertFires(tr: seq<Sys>, steps: seq<Step>, i: nat, pid: int, sees: Sees,
                      roomNested: bool, roomAnswer: bool)
    requires Run(tr, steps) && i < |tr| && pid in tr[i].fleet
    ensures !tr[i].crashed && pid in tr[i].pools
    ensures Fire(tr[i].fleet[pid], pid, tr[i].pools[pid], tr[i].qs, sees, roomNested, roomAnswer) != Crash
  {
    hide Fire, Chosen, PoolMoves, GoodTo;
    RunKeepsInv(tr, steps, i);
    var _ := EventMoves(tr[i], pid, sees, roomNested, roomAnswer);
  }

  /** Every serial number on its way is there once, and belongs to exactly one
      suspended handler, of the process that it encodes; unless it was left over
      from before the start, and then it belongs to none. */
  lemma SerialsAreExclusive(tr: seq<Sys>, steps: seq<Step>, i: nat, n: int32)
    requires Run(tr, steps) && i < |tr| && n in Calls(tr[i])
    ensures n !in tr[0].stray ==> Calls(tr[i])[n] == 1 && IsAsleep(tr[i], TruncDiv(n, 100), n)
    ensures forall q :: IsAsleep(tr[i], q, n) ==> q == TruncDiv(n, 100) && n !in tr[0].stray
  {
    hide Calls, LostCalls, SavedOk, MessagesOk, ClientsBalance, Run;
    RunKeepsInv(tr, steps, i);
    SerialIsExclusive(tr[i], n);
  }

  lemma SerialIsExclusive(s: Sys, n: int32)
    requires FleetOk(s) && CallsBalance(s) && StrayOk(s) && n in Calls(s)
    ensures n !in s.stray ==> Calls(s)[n] == 1 && IsAsleep(s, TruncDiv(n, 100), n)
    ensures forall q :: IsAsleep(s, q, n) ==> q == TruncDiv(n, 100) && n !in s.stray
  {
    hide Calls, LostCalls, SavedOk;
    forall q | IsAsleep(s, q, n) ensures q == TruncDiv(n, 100) && n !in s.stray {
      assert PoolOk(q, s.fleet[q], s.pools[q]);
      assert IsIndex(q, n);
    }
    if n !in s.stray {
      SerialIsAsleep(s, n);
      var p :| p in s.fleet && IsIndex(p, n) && n in s.pools[p].stateful && TruncDiv(n, 100) == p;
      forall q | q in s.pools && q != p ensures n !in AsleepIn(q, s.pools[q]) {
        assert !IsAsleep(s, q, n);
      }
      MapBagOnce(s.pools, p, n, AsleepIn);
      assert (Calls(s) + LostCalls(s))[n] == (Asleep(s) + s.stray)[n];
    }
  }

  /** The handler pool of every process, at every moment between two events:
      two disjoint maps that together hold the 25 handlers the process started
      with, waiting ones at their start, the others asleep. */
  lemma PoolsStayInOrder(tr: seq<Sys>, steps: seq<Step>, i: nat, pid: int)
    requires Run(tr, steps) && i < |tr| && pid in tr[i].fleet
    ensures pid in tr[i].pools && PoolOk(pid, tr[i].fleet[pid], tr[i].pools[pid])
    ensures pid in tr[0].pools && forall k: int32 ::
              k in tr[i].pools[pid].stateless || k in tr[i].pools[pid].stateful <==> k in tr[0].pools[pid].stateless
  {
    hide MessagesOk, CallsBalance, ClientsBalance;
    RunKeepsInv(tr, steps, i);
  }

  /** A text without a command number is no request and no answer; so a length
      of 0 from GetMsg always means that nothing was waiting. */
  lemma MessagesHaveText(tr: seq<Sys>, steps: seq<Step>, i: nat, m: Msg)
    requires Run(tr, steps) && i < |tr| && (m in tr[i].qs.c1 || m in tr[i].qs.c2)
    ensures m.sBuf != ""
  {
    hide FleetOk, CallsBalance, ClientsBalance, ToString;
    RunKeepsInv(tr, steps, i);
    assert GoodC1(m) || GoodC2(m);
    if m.sBuf == "" {
      ReadEmpty();
      var n: int32 :| n != 0 && m == NestedRequest(n);
      PrintedIsHeaderAndCut(DEFAULT_CMD.(iSvcSerialNo := n, iCmd := 2));
    }
  }

  lemma ReadEmpty()
    ensures var c := Parsed(DEFAULT_CMD, ""); c.iCmd == 0 && c.iSvcSerialNo == 0
  {
  }

  // ---------------------------------------------------------------- conservation

  predicate AllRoom(st: Step) {
    match st
    case Request(_, _, _, _, _, room) => room
    case Container(_, _, roomNested, roomAnswer) => roomNested && roomAnswer
    case Deliver => true
  }

  /** Nothing is lost by a step whose puts all find room. */
  lemma RoomMeansNoLoss(s: Sys, st: Step)
    requires Inv(s) && Enabled(s, st) && AllRoom(st)
    ensures Next(s, st).lost == s.lost && Next(s, st).fleet == s.fleet
  {
    hide Parsed, Printed, MessagesOk, CallsBalance, ClientsBalance, FleetOk, PoolMoves, Dispatch;
    if st.Container? {
      assert s.lost + [] == s.lost;
    }
  }

  lemma {:induction false} NothingLost(tr: seq<Sys>, steps: seq<Step>, i: nat)
    requires Run(tr, steps) && i < |tr| && forall st | st in steps :: AllRoom(st)
    ensures tr[i].lost == []
  {
    hide Inv, Next, Enabled, AllRoom, Leftovers;
    if i > 0 {
      NothingLost(tr, steps, i - 1);
      RunKeepsInv(tr, steps, i - 1);
      RunStep(tr, steps, i - 1);
      assert steps[i - 1] in steps;
      RoomMeansNoLoss(tr[i - 1], steps[i - 1]);
    }
  }

  /** Every request that netio accepted is in exactly one place: in a request
      queue, saved in a suspended handler, answered, or lost by a failed put. So
      none is answered twice, and without failed puts none disappears. */
  lemma RequestsAreConserved(tr: seq<Sys>, steps: seq<Step>, i: nat)
    requires Run(tr, steps) && i < |tr|
    ensures var s := tr[i]; Queued(s) + Saved(s) + Answered(s) + LostClients(s) == s.accepted
    ensures var s := tr[i]; Queued(s) + Saved(s) + Answered(s) <= s.accepted
    ensures (forall st | st in steps :: AllRoom(st)) ==>
              var s := tr[i]; Queued(s) + Saved(s) + Answered(s) == s.accepted
  {
    hide Queued, Saved, Answered;
    RunKeepsInv(tr, steps, i);
    if forall st | st in steps :: AllRoom(st) {
      NothingLost(tr, steps, i);
    }
  }

  /** Every suspended handler waits for exactly one call that is on its way or
      lost, and all other calls were left over; without failed puts and leftovers,
      calls and suspended handlers match one to one. */
  lemma CallsAreConserved(tr: seq<Sys>, steps: seq<Step>, i: nat)
    requires Run(tr, steps) && i < |tr|
    ensures Calls(tr[i]) + LostCalls(tr[i]) == Asleep(tr[i]) + tr[0].stray
    ensures (forall st | st in steps :: AllRoom(st)) ==> Calls(tr[i]) == Asleep(tr[i]) + tr[0].stray
  {
    hide Calls, Asleep;
    RunKeepsInv(tr, steps, i);
    if forall st | st in steps :: AllRoom(st) {
      NothingLost(tr, steps, i);
    }
  }

  // ---------------------------------------------------------------- results

  lemma BodyTexts(p: int)
    ensures ByPid("resp1=r1", p) == "resp1=r1 by pid:" + Itoa(p)
    ensures ByPid("resp1=r1&resp2=r2", p) == "resp1=r1&resp2=r2 by pid:" + Itoa(p)
    ensures ByPid(ErrText(NO_FREE_SVC_HANDLER), p) == "errCode=21&resp=Err happend! by pid:" + Itoa(p)
  {
    ConcatLiteral("resp1=r1", " by pid:", "resp1=r1 by pid:", Itoa(p));
    ConcatLiteral("resp1=r1&resp2=r2", " by pid:", "resp1=r1&resp2=r2 by pid:", Itoa(p));
    ErrorText();
    ConcatLiteral(ErrText(NO_FREE_SVC_HANDLER), " by pid:", "errCode=21&resp=Err happend! by pid:", Itoa(p));
  }

  lemma ErrorText()
    ensures ErrText(NO_FREE_SVC_HANDLER) == "errCode=21&resp=Err happend!"
  {
    assert Itoa(21) == "21" by { assert Digits(21) == Digits(2) + [Digit(1)]; }
  }

  lemma ConcatLiteral(a: string, b: string, ab: string, t: string)
    requires a + b == ab
    ensures a + b + t == ab + t
  {
  }

  // ---------------------------------------------------------------- non-interference

  /** The message that the event of a process takes. */
  function Taken(s: Sys, pid: int, sees: Sees): Msg
    requires pid in s.fleet && Chosen(s.fleet[pid], pid, s.qs, sees) < |Own(s.fleet[pid], s.qs)|
  {
    Own(s.fleet[pid], s.qs)[Chosen(s.fleet[pid], pid, s.qs, sees)]
  }

  /** A step puts m on the way to netio. */
  ghost predicate SendsBack(s: Sys, s': Sys, m: Msg) {
    || (s'.qs.back == s.qs.back + [m] && s'.lost == s.lost)
    || (s'.qs.back == s.qs.back && s'.lost == s.lost + [m])
  }

  lemma LastIs<T>(q: seq<T>, a: T, b: T)
    ensures q + [a] != q && (q + [a] == q + [b] ==> a == b)
  {
    if q + [a] == q + [b] { assert (q + [a])[|q|] == (q + [b])[|q|]; }
    assert |q + [a]| != |q|;
  }

  /** What the event of a container adds for netio, or loses, is the message of its move. */
  lemma MoveSends(s: Sys, st: Step, v: Move)
    requires Inv(s) && st.Container? && Enabled(s, st)
    requires var kind := s.fleet[st.pid];
             var q, i := Own(kind, s.qs), Chosen(kind, st.pid, s.qs, st.sees);
             i < |q| && IsMove(s, st.pid, q[i], SetOwn(kind, s.qs, Removed(q, i)),
                               Fire(kind, st.pid, s.pools[st.pid], s.qs, st.sees, st.roomNested, st.roomAnswer), v)
    ensures forall m | SendsBack(s, Next(s, st), m) :: m == v.out
    ensures forall m | m in Next(s, st).qs.back && m !in s.qs.back :: SendsBack(s, Next(s, st), m)
    ensures Next(s, st).delivered == s.delivered
  {
    hide Parsed, Printed, Fire, Chosen, Inv, PoolMoves, GoodTo, PoolOk;
    hide SavedOk, AsleepIn, SavedBy, SerialIn, ClientIn, Refuses;
    assert s.lost + [] == s.lost;
    forall m | SendsBack(s, Next(s, st), m) ensures m == v.out {
      LastIs(s.qs.back, m, v.out);
      LastIs(s.lost, m, v.out);
    }
  }

  lemma RequestSends(s: Sys, st: Step, m: Msg)
    requires st.Request? && Enabled(s, st) && SendsBack(s, Next(s, st), m)
    ensures Read(m).iRet == 0
  {
    hide Parsed, Printed;
    var c := Forwarded(st.fd, st.family, st.ip, st.port, st.buf);
    var sent := Msg(REQUEST, Printed(c, BUF_SIZE));
    ReadForwarded(c);
    assert s.lost + [] == s.lost;
    LastIs(s.qs.back, m, sent);
    LastIs(s.lost, m, sent);
  }

  lemma DeliverSends(s: Sys, st: Step, m: Msg)
    requires st.Deliver? && Enabled(s, st)
    ensures !SendsBack(s, Next(s, st), m)
  {
    LastIs(s.lost, m, m);
    assert |Next(s, st).qs.back| < |s.qs.back|;
  }

  /** A step that sends or loses a message with an error is the event of a process
      of the second service without a free handler, and the message says so. */
  lemma ErrorsNeedAFullPool(s: Sys, st: Step, m: Msg)
    requires Inv(s) && Enabled(s, st) && SendsBack(s, Next(s, st), m) && Read(m).iRet != 0
    ensures st.Container? && Refuses(s, st.pid, m)
  {
    hide Parsed, Inv, Fire, Chosen, PoolMoves, GoodTo, PoolOk, SavedOk;
    hide AsleepIn, SavedBy, SerialIn, ClientIn, Refuses, Next, SendsBack;
    match st
    case Request(_, _, _, _, _, _) => RequestSends(s, st, m);
    case Deliver => DeliverSends(s, st, m);
    case Container(pid, sees, r1, r2) =>
      InFleet(s, pid);
      var v := EventMoves(s, pid, sees, r1, r2);
      if Chosen(s.fleet[pid], pid, s.qs, sees) < |Own(s.fleet[pid], s.qs)| {
        MoveSends(s, st, v);
      } else {
        IdleSends(s, st, m);
      }
  }

  lemma InFleet(s: Sys, pid: int)
    requires Inv(s) && pid in s.pools
    ensures pid in s.fleet
  {
    hide MessagesOk, CallsBalance, ClientsBalance;
  }

  lemma IdleSends(s: Sys, st: Step, m: Msg)
    requires Inv(s) && st.Container? && Enabled(s, st)
    requires Chosen(s.fleet[st.pid], st.pid, s.qs, st.sees) == |Own(s.fleet[st.pid], s.qs)|
    ensures !SendsBack(s, Next(s, st), m) && Next(s, st).qs == s.qs && Next(s, st).delivered == s.delivered
  {
    hide Inv, Chosen, Process, Own;
    assert s.lost + [] == s.lost;
    LastIs(s.lost, m, m);
    LastIs(s.qs.back, m, m);
  }

  lemma NewAnswer(s: Sys, st: Step, m: Msg)
    requires Inv(s) && Enabled(s, st) && m !in s.qs.back && m !in s.delivered
    requires m in Next(s, st).qs.back || m in Next(s, st).delivered
    ensures SendsBack(s, Next(s, st), m)
  {
    hide Parsed, Printed, Inv, Fire, Chosen, PoolMoves, GoodTo, PoolOk;
    hide SavedOk, AsleepIn, SavedBy, SerialIn, ClientIn, Refuses;
    match st
    case Request(_, _, _, _, _, _) =>
    case Deliver => BagRemoved(s.qs.back, FirstOf(s.qs.back, RESPONSE), ClientIn);
    case Container(pid, sees, r1, r2) =>
      InFleet(s, pid);
      var v := EventMoves(s, pid, sees, r1, r2);
      if Chosen(s.fleet[pid], pid, s.qs, sees) < |Own(s.fleet[pid], s.qs)| {
        MoveSends(s, st, v);
      } else {
        IdleSends(s, st, m);
      }
  }

  /** Every answer with an error that reaches netio was sent by a process of the
      second service at a moment when all its handlers were suspended. */
  lemma {:induction false} ErrorsAreRefusals(tr: seq<Sys>, steps: seq<Step>, i: nat, m: Msg) returns (t: nat)
    requires Run(tr, steps) && i < |tr| && (m in tr[i].qs.back || m in tr[i].delivered) && Read(m).iRet != 0
    ensures t < i && t + 1 < |tr| && t < |steps| && steps[t].Container?
    ensures Refuses(tr[t], steps[t].pid, m) && SendsBack(tr[t], tr[t + 1], m)
  {
    hide Inv, Enabled, Next, Parsed, Refuses, SendsBack, Run;
    RunLength(tr, steps);
    if i == 0 {
      StartsEmpty(tr, steps);
    } else {
      RunStep(tr, steps, i - 1);
      RunKeepsInv(tr, steps, i - 1);
      if m in tr[i - 1].qs.back || m in tr[i - 1].delivered {
        t := ErrorsAreRefusals(tr, steps, i - 1, m);
      } else {
        t := i - 1;
        NewAnswer(tr[t], steps[t], m);
        ErrorsNeedAFullPool(tr[t], steps[t], m);
      }
    }
  }

  lemma StartsEmpty(tr: seq<Sys>, steps: seq<Step>)
    requires Run(tr, steps)
    ensures tr[0].qs.back == [] && tr[0].delivered == []
  {
  }

  /** A process that m can come from: one of the first service, with its result;
      one of the second, with the combined result; or one of the second that had
      no free handler at some earlier moment, with the error text. */
  ghost predicate CameFrom(tr: seq<Sys>, i: nat, m: Msg, p: int)
    requires 0 < |tr| && i <= |tr|
  {
    var c := Read(m);
    p in tr[0].fleet &&
    (  (c.iCmd == 1 && tr[0].fleet[p] == 1 && c.iRet == 0 && c.sData == "resp1=r1 by pid:" + Itoa(p))
    || (c.iCmd == 2 && tr[0].fleet[p] == 2 && c.iRet == 0 && c.sData == "resp1=r1&resp2=r2 by pid:" + Itoa(p))
    || (c.iCmd == 2 && tr[0].fleet[p] == 2 && c.iRet == NO_FREE_SVC_HANDLER
        && c.sData == "errCode=21&resp=Err happend! by pid:" + Itoa(p)
        && exists t :: 0 <= t < i && Refuses(tr[t], p, m)))
  }

  /** Every answer that reaches netio, on every interleaving: cmd 1 always gets
      its result, for the first service never runs out of handlers; cmd 2 gets
      the combined result, or the error text of a process that had no free handler. */
  lemma AnswersAreRight(tr: seq<Sys>, steps: seq<Step>, i: nat, m: Msg)
    requires Run(tr, steps) && i < |tr| && (m in tr[i].qs.back || m in tr[i].delivered)
    ensures exists p :: CameFrom(tr, i, m, p)
  {
    hide Parsed, CallsBalance, ClientsBalance, FleetOk, Run;
    RunKeepsInv(tr, steps, i);
    assert GoodBack(tr[i].fleet, m);
    var c := Read(m);
    if c.iRet == 0 {
      var p :| p in tr[0].fleet &&
        (  (c.iCmd == 1 && tr[0].fleet[p] == 1 && c.sData == ByPid("resp1=r1", p))
        || (c.iCmd == 2 && tr[0].fleet[p] == 2 && c.sData == ByPid("resp1=r1&resp2=r2", p)));
      BodyTexts(p);
      assert CameFrom(tr, i, m, p);
    } else {
      var t := ErrorsAreRefusals(tr, steps, i, m);
      RunKeepsInv(tr, steps, t);
      var p := steps[t].pid;
      BodyTexts(p);
      assert CameFrom(tr, i, m, p);
    }
  }

  /** What one step does to one handler: it stays as it is; or it falls asleep
      with the request its process has just taken; or it wakes up and its
      process sends the answer for the client it had saved. */
  lemma OneHandler(s: Sys, st: Step, pid: int, k: int32)
    requires Inv(s) && Enabled(s, st)
    ensures var s' := Next(s, st);
            && (IsAsleep(s, pid, k) && IsAsleep(s', pid, k) ==> s'.pools[pid].stateful[k] == s.pools[pid].stateful[k])
            && (!IsAsleep(s, pid, k) && IsAsleep(s', pid, k) ==>
                  && st.Container? && st.pid == pid && pid in s.fleet
                  && Chosen(s.fleet[pid], pid, s.qs, st.sees) < |Own(s.fleet[pid], s.qs)|
                  && ClientRequest(Read(Taken(s, pid, st.sees)), 2)
                  && s'.pools[pid].stateful[k] == Suspended(Read(Taken(s, pid, st.sees))))
            && (IsAsleep(s, pid, k) && !IsAsleep(s', pid, k) ==>
                  && s.pools[pid].stateful[k].Suspended?
                  && exists m :: SendsBack(s, s', m) && AnswersFor(m, s.pools[pid].stateful[k].obj3, pid))
  {
    hide Parsed, Printed, Fire, Chosen, MessagesOk, CallsBalance, ClientsBalance;
    hide GoodTo, PoolOk, SavedOk, SerialIn, ClientIn;
    if st.Container? {
      var v := EventMoves(s, st.pid, st.sees, st.roomNested, st.roomAnswer);
      if st.pid == pid && Chosen(s.fleet[pid], pid, s.qs, st.sees) < |Own(s.fleet[pid], s.qs)| {
        MoveOneHandler(s, st, v, k);
      }
    }
  }

  ghost predicate AnswersFor(m: Msg, c: Cmd, pid: int) {
    && Read(m) == c.(iType := RESPONSE, iRet := 0, sData := "resp1=r1&resp2=r2 by pid:" + Itoa(pid))
    && ClientOf(Read(m)) == ClientOf(c)
  }

  lemma MoveOneHandler(s: Sys, st: Step, v: Move, k: int32)
    requires Inv(s) && st.Container? && Enabled(s, st)
    requires Chosen(s.fleet[st.pid], st.pid, s.qs, st.sees) < |Own(s.fleet[st.pid], s.qs)|
    requires var kind := s.fleet[st.pid];
             var q, i := Own(kind, s.qs), Chosen(kind, st.pid, s.qs, st.sees);
             IsMove(s, st.pid, q[i], SetOwn(kind, s.qs, Removed(q, i)),
                    Fire(kind, st.pid, s.pools[st.pid], s.qs, st.sees, st.roomNested, st.roomAnswer), v)
    ensures var s', pid := Next(s, st), st.pid;
            && (IsAsleep(s, pid, k) && IsAsleep(s', pid, k) ==> s'.pools[pid].stateful[k] == s.pools[pid].stateful[k])
            && (!IsAsleep(s, pid, k) && IsAsleep(s', pid, k) ==>
                  && ClientRequest(Read(Taken(s, pid, st.sees)), 2)
                  && s'.pools[pid].stateful[k] == Suspended(Read(Taken(s, pid, st.sees))))
            && (IsAsleep(s, pid, k) && !IsAsleep(s', pid, k) ==>
                  && s.pools[pid].stateful[k].Suspended?
                  && SendsBack(s, s', v.out) && AnswersFor(v.out, s.pools[pid].stateful[k].obj3, pid))
  {
    hide Parsed, Printed, Fire, Chosen, MessagesOk, CallsBalance, ClientsBalance;
    hide GoodTo, PoolOk, SavedOk, SerialIn, ClientIn;
    hide SavedBy, AsleepIn;
    var s' := Next(s, st);
    assert s'.pools[st.pid] == v.pool;
    assert s.lost + [] == s.lost;
    BodyTexts(st.pid);
    hide ByPid;
  }

  lemma SleeperStays(s: Sys, st: Step, pid: int, k: int32)
    requires Inv(s) && Enabled(s, st) && IsAsleep(s, pid, k) && IsAsleep(Next(s, st), pid, k)
    ensures Next(s, st).pools[pid].stateful[k] == s.pools[pid].stateful[k]
  {
    hide Inv, Enabled, Next, Taken, ClientRequest, AnswersFor, SendsBack;
    OneHandler(s, st, pid, k);
  }

  lemma {:induction false} SleepsUnchanged(tr: seq<Sys>, steps: seq<Step>, i: nat, j: nat, pid: int, k: int32)
    requires Run(tr, steps) && i <= j < |tr|
    requires forall t | i <= t <= j :: IsAsleep(tr[t], pid, k)
    ensures IsAsleep(tr[i], pid, k) && IsAsleep(tr[j], pid, k)
    ensures tr[j].pools[pid].stateful[k] == tr[i].pools[pid].stateful[k]
  {
    hide Run, Inv, Enabled, Next;
    RunLength(tr, steps);
    if i < j {
      SleepsUnchanged(tr, steps, i, j - 1, pid, k);
      RunKeepsInv(tr, steps, j - 1);
      RunStep(tr, steps, j - 1);
      SleeperStays(tr[j - 1], steps[j - 1], pid, k);
    }
  }

  /** Non-interference: a handler that falls asleep in step i and wakes up in
      step j sends, whatever all other processes, handlers and clients did in
      between, the answer for the client whose request it took in step i. */
  lemma NonInterference(tr: seq<Sys>, steps: seq<Step>, i: nat, j: nat, pid: int, k: int32)
    requires Run(tr, steps) && i < j < |steps|
    requires !IsAsleep(tr[i], pid, k) && !IsAsleep(tr[j + 1], pid, k)
    requires forall t | i < t <= j :: IsAsleep(tr[t], pid, k)
    ensures steps[i].Container? && steps[i].pid == pid && pid in tr[i].fleet
    ensures Chosen(tr[i].fleet[pid], pid, tr[i].qs, steps[i].sees) < |Own(tr[i].fleet[pid], tr[i].qs)|
    ensures ClientRequest(Read(Taken(tr[i], pid, steps[i].sees)), 2)
    ensures exists m :: SendsBack(tr[j], tr[j + 1], m) && AnswersFor(m, Read(Taken(tr[i], pid, steps[i].sees)), pid)
  {
    hide Run, Inv, Enabled, Next, Taken, ClientRequest, AnswersFor, SendsBack, Chosen, Own;
    RunLength(tr, steps);
    RunStep(tr, steps, i);
    RunStep(tr, steps, j);
    RunKeepsInv(tr, steps, i);
    RunKeepsInv(tr, steps, j);
    SleepsUnchanged(tr, steps, i + 1, j, pid, k);
    OneHandler(tr[i], steps[i], pid, k);
    OneHandler(tr[j], steps[j], pid, k);
  }
}
