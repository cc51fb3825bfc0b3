/** netio/src/container_user_event_handler.cpp: one event of one container process. */
module Container {
  import opened Text
  import opened CmdObj
  import opened Bags
  import opened MsgQueue
  import opened Service
  import opened Dispatcher

  /** The three kernel queues: answers for netio, and the requests for the
      first and the second service. */
  datatype Queues = Queues(back: seq<Msg>, c1: seq<Msg>, c2: seq<Msg>)

  /** Crash: an assert, or a queue pointer that was never set. Otherwise the
      pool and the queues after the event, and the messages whose put failed. */
  datatype Fired = Crash | Ran(pool: Pool, qs: Queues, lost: seq<Msg>)

  function Put(q: seq<Msg>, m: Msg, room: bool): seq<Msg> { if room then q + [m] else q }

  function Unput(m: Msg, room: bool): seq<Msg> { if room then [] else [m] }

  function Own(kind: int, qs: Queues): seq<Msg> { if kind == 1 then qs.c1 else qs.c2 }

  function SetOwn(kind: int, qs: Queues, q: seq<Msg>): Queues {
    if kind == 1 then qs.(c1 := q) else qs.(c2 := q)
  }

  /** C division: truncation towards zero. */
  function TruncDiv(a: int, b: int): int
    requires b > 0
  {
    if a >= 0 then a / b else -((-a) / b)
  }

  function ErrText(iRet: int32): string { "errCode=" + Itoa(iRet) + "&resp=Err happend!" }

  function ByPid(sData: string, pid: int): string { sData + " by pid:" + Itoa(pid) }

  /** The answer to a nested request, for the process that holds the serial number. */
  function AppAnswer(c: Cmd): Msg {
    Msg(TruncDiv(c.iSvcSerialNo, 100) * 10 + APP, Printed(c.(iType := RESPONSE), BUF_SIZE))
  }

  /** The final answer, for netio. */
  function FinalAnswer(c: Cmd, pid: int): Msg {
    Msg(RESPONSE, Printed(c.(sData := ByPid(c.sData, pid), iType := RESPONSE), BUF_SIZE))
  }

  /** Routing of a finished command: by the serial number back to the asking
      service, whose command number selects the queue, or to netio. */
  function Answer(pid: int, pool: Pool, qs: Queues, lost: seq<Msg>, c: Cmd, room: bool): Fired {
    if c.iSvcSerialNo != 0 then
      var m := AppAnswer(c);
      if c.iCmd == 1 then Ran(pool, qs.(c1 := Put(qs.c1, m, room)), lost + Unput(m, room))
      else if c.iCmd == 2 then Ran(pool, qs.(c2 := Put(qs.c2, m, room)), lost + Unput(m, room))
      else Crash
    else
      var m := FinalAnswer(c, pid);
      Ran(pool, qs.(back := Put(qs.back, m, room)), lost + Unput(m, room))
  }

  /** A nonzero result of Dispatch replaces the command's own. */
  function WithError(cmd: Cmd, iRet: int32): Cmd {
    if iRet == 0 then cmd else cmd.(iRet := iRet, sData := ErrText(iRet))
  }

  function PutNested(qs: Queues, nested: seq<int32>, room: bool): Queues {
    if nested == [] then qs else qs.(c1 := Put(qs.c1, NestedRequest(nested[0]), room))
  }

  function LostNested(nested: seq<int32>, room: bool): seq<Msg> {
    if nested == [] then [] else Unput(NestedRequest(nested[0]), room)
  }

  /** ProcessMsg: dispatch, let the service send its nested request, and answer
      unless the task is unfinished. The two flags say whether the two puts find room. */
  function Process(kind: int, pid: int, pool: Pool, qs: Queues, oCmd: Cmd, roomNested: bool, roomAnswer: bool): Fired {
    match Dispatch(kind, pool, oCmd)
    case Aborted => Crash
    case Back(pool', cmd, iRet, nested) =>
      var qs' := PutNested(qs, nested, roomNested);
      var lost := LostNested(nested, roomNested);
      if iRet == UNFINISH_TASK_RET_FLAG then Ran(pool', qs', lost)
      else Answer(pid, pool', qs', lost, WithError(cmd, iRet), roomAnswer)
  }

  lemma ProcessBranches(kind: int, pid: int, pool: Pool, qs: Queues, oCmd: Cmd, roomNested: bool, roomAnswer: bool)
    ensures var r, d := Process(kind, pid, pool, qs, oCmd, roomNested, roomAnswer), Dispatch(kind, pool, oCmd);
            match d
            case Aborted => r == Crash
            case Back(pool', cmd, iRet, nested) =>
              var qs', lost := PutNested(qs, nested, roomNested), LostNested(nested, roomNested);
              r == if iRet == UNFINISH_TASK_RET_FLAG then Ran(pool', qs', lost)
                   else Answer(pid, pool', qs', lost, WithError(cmd, iRet), roomAnswer)
  {
    hide Dispatch, PutNested, LostNested, Answer, WithError;
  }

  /** What the two polls of an event see. A poll misses a message that comes after
      it, and all messages when msgrcv fails. */
  datatype Sees = Sees(request: bool, answer: bool)

  const BOTH := Sees(true, true)

  /** Which message OnEventFire takes: a request if the first poll sees one, else an
      answer addressed to this process if the second does. */
  function Chosen(kind: int, pid: int, qs: Queues, sees: Sees): (i: nat)
    ensures i <= |Own(kind, qs)|
  {
    var q := Own(kind, qs);
    var i := FirstOf(q, REQUEST);
    if sees.request && i < |q| then i
    else if sees.answer then FirstOf(q, pid * 10 + APP)
    else |q|
  }

  /** Message k is the first of its type. */
  ghost predicate FirstWith(q: seq<Msg>, lType: int, k: int) {
    0 <= k < |q| && q[k].lType == lType && forall j | 0 <= j < k :: q[j].lType != lType
  }

  ghost predicate NoneWith(q: seq<Msg>, lType: int) { forall j | 0 <= j < |q| :: q[j].lType != lType }

  /** A waiting request goes before a waiting answer: the first request, if the first
      poll sees one; else the first answer for this process, if the second sees one;
      else nothing. */
  lemma RequestsComeFirst(kind: int, pid: int, qs: Queues, sees: Sees)
    ensures var q, i := Own(kind, qs), Chosen(kind, pid, qs, sees);
            var requestSeen := sees.request && !NoneWith(q, REQUEST);
            var answerSeen := sees.answer && !NoneWith(q, pid * 10 + APP);
            && (requestSeen ==> FirstWith(q, REQUEST, i))
            && (!requestSeen && answerSeen ==> FirstWith(q, pid * 10 + APP, i))
            && (!requestSeen && !answerSeen ==> i == |q|)
  {
  }

  /** C division rounds towards zero. */
  lemma TruncDivMeaning(a: int, b: int)
    requires b > 0
    ensures var q := TruncDiv(a, b);
            (a >= 0 ==> 0 <= q && b * q <= a < b * q + b) && (a <= 0 ==> q <= 0 && b * q - b < a <= b * q)
  {
  }

  function Fire(kind: int, pid: int, pool: Pool, qs: Queues, sees: Sees, roomNested: bool, roomAnswer: bool): Fired {
    var q := Own(kind, qs);
    var i := Chosen(kind, pid, qs, sees);
    if i == |q| then Ran(pool, qs, [])
    else Process(kind, pid, pool, SetOwn(kind, qs, Removed(q, i)), Parsed(DEFAULT_CMD, q[i].sBuf),
                 roomNested, roomAnswer)
  }

  lemma FireBranches(kind: int, pid: int, pool: Pool, qs: Queues, sees: Sees, roomNested: bool, roomAnswer: bool)
    ensures var q, i := Own(kind, qs), Chosen(kind, pid, qs, sees);
            Fire(kind, pid, pool, qs, sees, roomNested, roomAnswer) ==
            if i == |q| then Ran(pool, qs, [])
            else Process(kind, pid, pool, SetOwn(kind, qs, Removed(q, i)), Parsed(DEFAULT_CMD, q[i].sBuf),
                         roomNested, roomAnswer)
  {
    hide Process, Parsed, Own, SetOwn, Chosen;
  }
}
