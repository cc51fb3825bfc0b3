/** netio/src/msgq_manager.cpp: System V message queues. */
module MsgQueue {
  import opened Text
  import opened IntOrder

  const REQUEST := 1
  const RESPONSE := 2
  const APP := 3

  const MAX_MSG_SIZE := 1024
  const MSG_TOO_LONG := 4
  const SEND_MSG_FAILED := 5
  const RECV_MSG_FAILED := 6
  const MSGQ_NO_EXIST := 3

  const NET_IO_BACK_MSQ_KEY := 0xccccc
  const C1_KEY := 0xccccd
  const C2_KEY := 0xcccce

  datatype Msg = Msg(lType: int, sBuf: string)

  /** Index of the message that msgrcv takes for a positive type: the first of
      that type, or |q| when there is none. */
  function FirstOf(q: seq<Msg>, lType: int): (i: nat)
    ensures i <= |q| && (i < |q| ==> q[i].lType == lType)
    ensures forall k | 0 <= k < i :: q[k].lType != lType
  {
    if q == [] || q[0].lType == lType then 0 else 1 + FirstOf(q[1..], lType)
  }

  /** How Init ends: with the kernel's queue of the key, its identifier and whatever
      it holds; or at a failing msgget or msgctl. */
  datatype InitEnd = Attached(iMsgId: int, found: seq<Msg>) | GetFails | CntlFails

  /** A kernel queue. Whether there is room for one more message is decided by
      the processes and limits around it, so `room` comes from outside. */
  class CMsgQueue {
    var contents: seq<Msg>
    const m_iMsgQId: int
    const m_iKey: int

    /** The constructor and Init. After a failing Init the object stands for
        identifier 0; `zero` is what the queue of that identifier holds. */
    constructor (iKey: int, zero: seq<Msg>, end: InitEnd)
      ensures end.Attached? ==> contents == end.found && m_iMsgQId == end.iMsgId && m_iKey == iKey
      ensures !end.Attached? ==> contents == zero && m_iMsgQId == 0 && m_iKey == 0
    {
      contents := if end.Attached? then end.found else zero;
      m_iMsgQId := if end.Attached? then end.iMsgId else 0;
      m_iKey := if end.Attached? then iKey else 0;
    }

    method PutMsg(m: Msg, room: bool) returns (iRet: int)
      modifies this
      ensures contents == if |m.sBuf| <= MAX_MSG_SIZE && room then old(contents) + [m] else old(contents)
      ensures iRet == if |m.sBuf| > MAX_MSG_SIZE then MSG_TOO_LONG else if room then 0 else SEND_MSG_FAILED
    {
      if |m.sBuf| > MAX_MSG_SIZE { return MSG_TOO_LONG; }
      if !room { return SEND_MSG_FAILED; }
      contents := contents + [m];
      return 0;
    }

    /** Length 0 and an empty text when no message of the type is waiting; `fails`
        says that msgrcv fails for another reason, which leaves the length alone. */
    method GetMsg(lType: int, dwOldLen: nat, fails: bool) returns (iRet: int, sBuf: string, dwBufLen: nat)
      requires lType > 0
      modifies this
      ensures fails ==> iRet == RECV_MSG_FAILED && sBuf == "" && dwBufLen == dwOldLen && contents == old(contents)
      ensures !fails ==>
                iRet == 0 && var i := FirstOf(old(contents), lType);
                if i < |old(contents)| then
                  sBuf == old(contents)[i].sBuf && dwBufLen == |sBuf|
                  && contents == old(contents)[..i] + old(contents)[i + 1..]
                else sBuf == "" && dwBufLen == 0 && contents == old(contents)
    {
      if fails { return RECV_MSG_FAILED, "", dwOldLen; }
      var i := FirstOf(contents, lType);
      if i == |contents| { return 0, "", 0; }
      sBuf := contents[i].sBuf;
      contents := contents[..i] + contents[i + 1..];
      iRet, dwBufLen := 0, |sBuf|;
    }
  }

  class CMsgQManager {
    var m_mapGroupMsgqs: map<int32, CMsgQueue>

    constructor ()
      ensures m_mapGroupMsgqs == map[]
    {
      m_mapGroupMsgqs := map[];
    }

    /** A key that is known already keeps its queue. A new one gets an object, also
        when its Init fails; then the object still stands for identifier 0. */
    method AddMsgQueue(dwGroupId: int32, zero: seq<Msg>, end: InitEnd) returns (iRet: int)
      modifies this
      ensures iRet == 0
      ensures dwGroupId in old(m_mapGroupMsgqs) ==> m_mapGroupMsgqs == old(m_mapGroupMsgqs)
      ensures dwGroupId !in old(m_mapGroupMsgqs) ==>
                && dwGroupId in m_mapGroupMsgqs && fresh(m_mapGroupMsgqs[dwGroupId])
                && m_mapGroupMsgqs - {dwGroupId} == old(m_mapGroupMsgqs)
                && var q := m_mapGroupMsgqs[dwGroupId];
                   if end.Attached? then q.contents == end.found && q.m_iMsgQId == end.iMsgId && q.m_iKey == dwGroupId
                   else q.contents == zero && q.m_iMsgQId == 0 && q.m_iKey == 0
    {
      if dwGroupId !in m_mapGroupMsgqs {
        var pMsgQueue := new CMsgQueue(dwGroupId, zero, end);
        m_mapGroupMsgqs := m_mapGroupMsgqs[dwGroupId := pMsgQueue];
      }
      return 0;
    }

    /** The search loop over the table. */
    method GetMsgQueue(dwGroupId: int32) returns (iRet: int, rpMsgq: CMsgQueue?)
      ensures iRet == 0 <==> dwGroupId in m_mapGroupMsgqs
      ensures iRet == 0 ==> rpMsgq == m_mapGroupMsgqs[dwGroupId]
      ensures iRet != 0 ==> iRet == MSGQ_NO_EXIST && rpMsgq == null
    {
      var keys := Sorted(m_mapGroupMsgqs.Keys);
      for it := 0 to |keys|
        invariant dwGroupId !in keys[..it]
      {
        if keys[it] == dwGroupId { return 0, m_mapGroupMsgqs[dwGroupId]; }
      }
      return MSGQ_NO_EXIST, null;
    }
  }

  /** The counting loop over g_mapCmdDLL, which DoRecv and ProcessMsg both make;
      without a match the queue pointer stays unset. */
  method QueueOfCmd(pMQManager: CMsgQManager, iCmd: int32) returns (rpMsgq: CMsgQueue?)
    requires {C1_KEY, C2_KEY} <= pMQManager.m_mapGroupMsgqs.Keys
    ensures var m := pMQManager.m_mapGroupMsgqs;
            rpMsgq == if iCmd == 1 then m[C1_KEY] else if iCmd == 2 then m[C2_KEY] else null
  {
    var keys: seq<int32> := [C1_KEY, C2_KEY];
    var iCount := 1;
    for it := 0 to |keys|
      invariant iCount == it + 1 && (iCmd == 1 ==> it == 0) && (iCmd == 2 ==> it <= 1)
    {
      if iCmd == iCount {
        var _, q := pMQManager.GetMsgQueue(keys[it]);
        return q;
      }
      iCount := iCount + 1;
    }
    return null;
  }
}
