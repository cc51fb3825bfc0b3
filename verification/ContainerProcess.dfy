/** The objects of one container process, as netio/src/container.cpp puts them
    together: services, their dispatcher, and the event handler. Every method is
    proved to do what the functions of Service, Dispatcher and Container say,
    so that the results of Runs are about these objects. */
module ContainerProcess {
  import opened Text
  import opened IntOrder
  import opened CmdObj
  import opened Bags
  import opened MsgQueue
  import opened Service
  import D = Dispatcher
  import C = Container
  import P = Protocol
  import Runs

  // ---------------------------------------------------------------- services

  /** IService with its two implementations, told apart by m_iCmd. A switch into
      a context runs the service up to its next switch back; the continuation of
      a suspended service is its saved copy obj3. */
  class IService {
    const m_iIndex: int32
    const m_iCmd: int
    var m_uctx: Context

    /** Construction followed by SetIndex. */
    constructor (iIndex: int32, iCmd: int)
      ensures m_iIndex == iIndex && m_iCmd == iCmd && m_uctx == Fresh
    {
      m_iIndex, m_iCmd, m_uctx := iIndex, iCmd, Fresh;
    }

    method ResetUCTX()
      modifies this
      ensures m_uctx == Fresh
    {
      m_uctx := Fresh;
    }

    /** pth_uctx_switch into this service; oCmd is the dispatcher's command object. */
    method SwitchTo(oCmd: CCmd, c1: CMsgQueue, room: bool)
      requires m_iCmd in {1, 2} && m_uctx != Returned
      modifies this, oCmd, c1
      ensures old(m_uctx) == Fresh ==> (oCmd.Val(), m_uctx) == Entered(m_iCmd, old(oCmd.Val()))
      ensures old(m_uctx) == Fresh && m_iCmd == 2 ==>
                c1.contents == C.Put(old(c1.contents), NestedRequest(m_iIndex), room)
      ensures old(m_uctx) == Fresh && m_iCmd == 1 ==> c1.contents == old(c1.contents)
      ensures old(m_uctx).Suspended? ==> oCmd.Val() == Finished(old(m_uctx).obj3, old(oCmd.Val())) && m_uctx == Returned
      ensures old(m_uctx).Suspended? ==> c1.contents == old(c1.contents)
    {
      if m_uctx.Suspended? {
        ExecuteAfterSchedule(oCmd);
      } else if m_iCmd == 1 {
        ExecuteFirst(oCmd);
      } else {
        ExecuteToSchedule(oCmd, c1, room);
      }
    }

    /** CSvcTest::Execute. */
    method ExecuteFirst(oCmd: CCmd)
      modifies this, oCmd
      ensures (oCmd.Val(), m_uctx) == Entered(1, old(oCmd.Val()))
    {
      oCmd.sData := "resp1=r1";
      oCmd.iType := RESPONSE;
      m_uctx := Returned;
    }

    /** CSvcTest2::SendRequest. */
    method SendRequest(oCmd: CCmd, c1: CMsgQueue, room: bool)
      requires m_iCmd == 2 && oCmd.Val() == DEFAULT_CMD
      modifies oCmd, c1
      ensures c1.contents == C.Put(old(c1.contents), NestedRequest(m_iIndex), room)
    {
      oCmd.iSvcSerialNo := m_iIndex;
      oCmd.iCmd := 2;
      var c := oCmd.Copy();
      PrintedFits(c);
      var stMsg := Msg(REQUEST, Printed(c, BUF_SIZE));
      var _ := c1.PutMsg(stMsg, room);
    }

    /** CSvcTest2::Execute up to Schedule(): oCmd is shared with the dispatcher,
        so its value is kept in obj3 before control is given up. */
    method ExecuteToSchedule(oCmd: CCmd, c1: CMsgQueue, room: bool)
      requires m_iCmd == 2
      modifies this, oCmd, c1
      ensures (oCmd.Val(), m_uctx) == Entered(2, old(oCmd.Val()))
      ensures c1.contents == C.Put(old(c1.contents), NestedRequest(m_iIndex), room)
    {
      var obj3 := oCmd.Copy();
      oCmd.iRet := UNFINISH_TASK_RET_FLAG;
      var oCmd2 := new CCmd();
      SendRequest(oCmd2, c1, room);
      m_uctx := Suspended(obj3);
    }

    /** CSvcTest2::Execute from Schedule() on: oCmd now holds the answer. */
    method ExecuteAfterSchedule(oCmd: CCmd)
      requires m_uctx.Suspended?
      modifies this, oCmd
      ensures oCmd.Val() == Finished(old(m_uctx).obj3, old(oCmd.Val())) && m_uctx == Returned
    {
      var oCmd2 := oCmd.Copy();
      var obj3 := m_uctx.obj3;
      obj3 := obj3.(iRet := 0, iSvcSerialNo := 0, iType := RESPONSE);
      obj3 := obj3.(sData := oCmd2.sData + "&resp2=r2");
      oCmd.Assign(obj3);
      m_uctx := Returned;
    }
  }

  // ---------------------------------------------------------------- dispatcher

  ghost function Ctxs(m: map<int32, IService>): map<int32, Context>
    reads m.Values
  {
    map k | k in m :: m[k].m_uctx
  }

  lemma CtxAt(m: map<int32, IService>)
    ensures Ctxs(m).Keys == m.Keys && forall k | k in m :: Ctxs(m)[k] == m[k].m_uctx
  {
  }

  lemma CtxsEdits(m: map<int32, IService>, k: int32, h: IService)
    ensures Ctxs(m - {k}) == Ctxs(m) - {k}
    ensures Ctxs(m[k := h]) == Ctxs(m)[k := h.m_uctx]
  {
  }

  /** When only the context of handler k differs from what it was before. */
  lemma OneCtxChanges(m: map<int32, IService>, k: int32, before: map<int32, Context>)
    requires k in m && m.Keys == before.Keys && forall j | j in m && j != k :: m[j].m_uctx == before[j]
    ensures Ctxs(m) == before[k := m[k].m_uctx]
  {
  }

  lemma NoCtxChanges(m: map<int32, IService>, before: map<int32, Context>)
    requires m.Keys == before.Keys && forall j | j in m :: m[j].m_uctx == before[j]
    ensures Ctxs(m) == before
  {
  }

  class CServiceDispatcher {
    var m_count: nat
    const m_oCurCmdObj: CCmd
    var m_mapStatefulSvcQueue: map<int32, IService>
    var m_mapStatelessSvcQueue: map<int32, IService>

    /** Every handler is filed under its own index; this alone makes the objects
        of different keys different. */
    ghost predicate Valid(kind: int)
      reads this, m_mapStatefulSvcQueue.Values, m_mapStatelessSvcQueue.Values
    {
      && kind in {1, 2}
      && (forall k | k in m_mapStatefulSvcQueue ::
            m_mapStatefulSvcQueue[k].m_iIndex == k && m_mapStatefulSvcQueue[k].m_iCmd == kind)
      && (forall k | k in m_mapStatelessSvcQueue ::
            m_mapStatelessSvcQueue[k].m_iIndex == k && m_mapStatelessSvcQueue[k].m_iCmd == kind)
      && m_mapStatefulSvcQueue.Keys !! m_mapStatelessSvcQueue.Keys
    }

    ghost function Pool(): D.Pool
      reads this, m_mapStatefulSvcQueue.Values, m_mapStatelessSvcQueue.Values
    {
      D.Pool(Ctxs(m_mapStatelessSvcQueue), Ctxs(m_mapStatefulSvcQueue))
    }

    constructor ()
      ensures fresh(m_oCurCmdObj)
      ensures m_mapStatefulSvcQueue == map[] && m_mapStatelessSvcQueue == map[]
    {
      m_count := 0;
      m_oCurCmdObj := new CCmd();
      m_mapStatefulSvcQueue, m_mapStatelessSvcQueue := map[], map[];
    }

    method AddSvcHandler(pSvcHandler: IService)
      modifies this
      ensures m_mapStatelessSvcQueue == old(m_mapStatelessSvcQueue)[pSvcHandler.m_iIndex := pSvcHandler]
      ensures m_mapStatefulSvcQueue == old(m_mapStatefulSvcQueue) && m_count == old(m_count) + 1
    {
      m_mapStatelessSvcQueue := m_mapStatelessSvcQueue[pSvcHandler.m_iIndex := pSvcHandler];
      m_count := m_count + 1;
    }

    /** pth_uctx_switch from the dispatcher into stateful handler k. */
    method SwitchInto(kind: int, k: int32, c1: CMsgQueue, room: bool)
      requires Valid(kind) && k in m_mapStatefulSvcQueue && m_mapStatefulSvcQueue[k].m_uctx != Returned
      modifies m_oCurCmdObj, m_mapStatefulSvcQueue[k], c1
      ensures Valid(kind)
      ensures Ctxs(m_mapStatelessSvcQueue) == old(Ctxs(m_mapStatelessSvcQueue))
      ensures var ctx := old(m_mapStatefulSvcQueue[k].m_uctx);
              ctx.Suspended? ==>
                && Ctxs(m_mapStatefulSvcQueue) == old(Ctxs(m_mapStatefulSvcQueue))[k := Returned]
                && m_oCurCmdObj.Val() == Finished(ctx.obj3, old(m_oCurCmdObj.Val()))
                && c1.contents == old(c1.contents)
      ensures old(m_mapStatefulSvcQueue[k].m_uctx) == Fresh ==>
                && Ctxs(m_mapStatefulSvcQueue) ==
                   old(Ctxs(m_mapStatefulSvcQueue))[k := Entered(kind, old(m_oCurCmdObj.Val())).1]
                && m_oCurCmdObj.Val() == Entered(kind, old(m_oCurCmdObj.Val())).0
                && c1.contents == if kind == 1 then old(c1.contents)
                                  else C.Put(old(c1.contents), NestedRequest(k), room)
    {
      hide Finished, Entered, C.Put, NestedRequest;
      var pSvcHandler := m_mapStatefulSvcQueue[k];
      ghost var stateful, stateless := Ctxs(m_mapStatefulSvcQueue), Ctxs(m_mapStatelessSvcQueue);
      pSvcHandler.SwitchTo(m_oCurCmdObj, c1, room);
      OneCtxChanges(m_mapStatefulSvcQueue, k, stateful);
      NoCtxChanges(m_mapStatelessSvcQueue, stateless);
    }

    /** The body of the search loop, for the entry of k. `ok` is false where the
        process would enter a context that has returned. */
    method Visit(kind: int, k: int32, c1: CMsgQueue) returns (ok: bool, hit: bool)
      requires Valid(kind) && k in m_mapStatefulSvcQueue && k in Ctxs(m_mapStatefulSvcQueue)
      modifies m_oCurCmdObj, m_mapStatefulSvcQueue[k], c1
      ensures Valid(kind)
      ensures Ctxs(m_mapStatelessSvcQueue) == old(Ctxs(m_mapStatelessSvcQueue)) && c1.contents == old(c1.contents)
      ensures var ctxs, cur := old(Ctxs(m_mapStatefulSvcQueue)), old(m_oCurCmdObj.Val());
              if cur.iSvcSerialNo != k then
                ok && !hit && Ctxs(m_mapStatefulSvcQueue) == ctxs && m_oCurCmdObj.Val() == cur
              else if !ctxs[k].Suspended? then !ok
              else ok && hit && Ctxs(m_mapStatefulSvcQueue) == ctxs[k := Returned]
                   && m_oCurCmdObj.Val() == Finished(ctxs[k].obj3, cur)
    {
      hide Finished, Entered, C.Put, NestedRequest, Valid, Ctxs;
      CtxAt(m_mapStatefulSvcQueue);
      if m_oCurCmdObj.iSvcSerialNo == k {
        if !m_mapStatefulSvcQueue[k].m_uctx.Suspended? { return false, false; }
        SwitchInto(kind, k, c1, true);
        return true, true;
      }
      return true, false;
    }

    /** The search loop for a response. `ok` is false where the process would
        enter a context that has returned. */
    method ResumeBySerial(kind: int, c1: CMsgQueue) returns (ok: bool, hits: seq<int32>)
      requires Valid(kind)
      modifies m_oCurCmdObj, m_mapStatefulSvcQueue.Values, c1
      ensures var keys := Sorted(m_mapStatefulSvcQueue.Keys);
              var r := D.ScanFrom(keys, old(Ctxs(m_mapStatefulSvcQueue)), old(m_oCurCmdObj.Val()), []);
              r == if ok then D.Scanned(Ctxs(m_mapStatefulSvcQueue), m_oCurCmdObj.Val(), hits) else D.Wild
      ensures forall k | k in hits :: k in m_mapStatefulSvcQueue
      ensures Ctxs(m_mapStatelessSvcQueue) == old(Ctxs(m_mapStatelessSvcQueue))
      ensures c1.contents == old(c1.contents)
    {
      hide Finished, Entered, C.Put, NestedRequest, D.ScanFrom, Sorted, CCmd.Val, Valid, Ctxs;
      hits := [];
      var keys := Sorted(m_mapStatefulSvcQueue.Keys);
      CtxAt(m_mapStatefulSvcQueue);
      ghost var r := D.ScanFrom(keys, Ctxs(m_mapStatefulSvcQueue), m_oCurCmdObj.Val(), []);
      for it := 0 to |keys|
        invariant forall k | k in keys :: k in Ctxs(m_mapStatefulSvcQueue)
        invariant D.ScanFrom(keys[it..], Ctxs(m_mapStatefulSvcQueue), m_oCurCmdObj.Val(), hits) == r
        invariant forall k | k in hits :: k in m_mapStatefulSvcQueue
        invariant Ctxs(m_mapStatelessSvcQueue) == old(Ctxs(m_mapStatelessSvcQueue))
        invariant c1.contents == old(c1.contents)
        invariant Valid(kind)
      {
        var k := keys[it];
        assert keys[it..][0] == k && keys[it..][1..] == keys[it + 1..];
        D.ScanStep(keys[it..], Ctxs(m_mapStatefulSvcQueue), m_oCurCmdObj.Val(), hits);
        var hit;
        ok, hit := Visit(kind, k, c1);
        if !ok { return false, hits; }
        if hit { hits := hits + [k]; }
      }
      D.ScanStep(keys[|keys|..], Ctxs(m_mapStatefulSvcQueue), m_oCurCmdObj.Val(), hits);
      ok := true;
    }

    /** A request takes the first free handler, which moves to the stateful map. */
    method TakeFirstFree(kind: int) returns (k: int32)
      requires Valid(kind) && m_mapStatelessSvcQueue != map[]
      modifies this
      ensures Valid(kind)
      ensures m_mapStatefulSvcQueue.Values + m_mapStatelessSvcQueue.Values
              <= old(m_mapStatefulSvcQueue.Values + m_mapStatelessSvcQueue.Values)
      ensures k == Min(old(m_mapStatelessSvcQueue).Keys) && k in m_mapStatefulSvcQueue
      ensures m_mapStatefulSvcQueue[k] == old(m_mapStatelessSvcQueue)[k]
      ensures var p := old(Pool()); Pool() == D.Pool(p.stateless - {k}, p.stateful[k := p.stateless[k]])
    {
      k := Min(m_mapStatelessSvcQueue.Keys);
      var pSvcHandler := m_mapStatelessSvcQueue[k];
      CtxsEdits(m_mapStatelessSvcQueue, k, pSvcHandler);
      CtxsEdits(m_mapStatefulSvcQueue, k, pSvcHandler);
      m_mapStatelessSvcQueue := m_mapStatelessSvcQueue - {k};
      m_mapStatefulSvcQueue := m_mapStatefulSvcQueue[pSvcHandler.m_iIndex := pSvcHandler];
    }

    /** Handler k leaves the stateful map, and its context is made again. */
    method Unfile(kind: int, k: int32) returns (pSvcHandler: IService)
      requires Valid(kind) && k in m_mapStatefulSvcQueue
      modifies this`m_mapStatefulSvcQueue, m_mapStatefulSvcQueue[k]
      ensures Valid(kind) && k !in m_mapStatelessSvcQueue
      ensures pSvcHandler == old(m_mapStatefulSvcQueue[k]) && pSvcHandler.m_uctx == Fresh
      ensures pSvcHandler.m_iIndex == k && pSvcHandler.m_iCmd == kind
      ensures m_mapStatefulSvcQueue == old(m_mapStatefulSvcQueue) - {k}
      ensures Ctxs(m_mapStatefulSvcQueue) == old(Ctxs(m_mapStatefulSvcQueue)) - {k}
      ensures Ctxs(m_mapStatelessSvcQueue) == old(Ctxs(m_mapStatelessSvcQueue))
    {
      pSvcHandler := m_mapStatefulSvcQueue[k];
      ghost var stateful, stateless := Ctxs(m_mapStatefulSvcQueue) - {k}, Ctxs(m_mapStatelessSvcQueue);
      CtxsEdits(m_mapStatefulSvcQueue, k, pSvcHandler);
      m_mapStatefulSvcQueue := m_mapStatefulSvcQueue - {pSvcHandler.m_iIndex};
      pSvcHandler.ResetUCTX();
      NoCtxChanges(m_mapStatefulSvcQueue, stateful);
      NoCtxChanges(m_mapStatelessSvcQueue, stateless);
    }

    /** The end of Dispatch: a handler whose task is not unfinished is made again
        and goes back to the stateless map. */
    method PutBack(kind: int, k: int32)
      requires Valid(kind) && k in m_mapStatefulSvcQueue
      modifies this, m_mapStatefulSvcQueue[k]
      ensures Valid(kind)
      ensures m_mapStatefulSvcQueue.Values + m_mapStatelessSvcQueue.Values
              <= old(m_mapStatefulSvcQueue.Values + m_mapStatelessSvcQueue.Values)
      ensures Pool() == D.Pool(old(Pool()).stateless[k := Fresh], old(Pool()).stateful - {k})
    {
      hide Ctxs;
      var pSvcHandler := Unfile(kind, k);
      CtxsEdits(m_mapStatelessSvcQueue, k, pSvcHandler);
      m_mapStatelessSvcQueue := m_mapStatelessSvcQueue[pSvcHandler.m_iIndex := pSvcHandler];
    }

    /** Dispatch of a response up to the switch back; k is the handler. */
    method SelectStateful(kind: int, c1: CMsgQueue) returns (ok: bool, k: int32)
      requires Valid(kind) && m_oCurCmdObj.Val().iType == RESPONSE
      modifies m_oCurCmdObj, m_mapStatefulSvcQueue.Values, c1
      ensures ok ==> Valid(kind) && k in m_mapStatefulSvcQueue
      ensures D.Dispatch(kind, old(Pool()), old(m_oCurCmdObj.Val())) ==
              if ok then D.Settle(Pool(), k, m_oCurCmdObj.Val(), []) else D.Aborted
      ensures c1.contents == old(c1.contents)
    {
      hide Finished, Entered, C.Put, NestedRequest, D.ScanFrom, D.Settle, D.Dispatch, Sorted, CCmd.Val;
      ghost var p := Pool();
      D.DispatchBranches(kind, p, m_oCurCmdObj.Val());
      assert p.stateful.Keys == m_mapStatefulSvcQueue.Keys;
      var hits;
      ok, hits := ResumeBySerial(kind, c1);
      if !ok || hits == [] { return false, 0; }
      k := hits[|hits| - 1];
    }

    /** Dispatch of anything else, when a handler is free, up to the switch back. */
    method SelectStateless(kind: int, c1: CMsgQueue, room: bool) returns (ok: bool, k: int32)
      requires Valid(kind) && m_oCurCmdObj.Val().iType != RESPONSE && m_mapStatelessSvcQueue != map[]
      modifies this, m_oCurCmdObj, m_mapStatelessSvcQueue.Values, c1
      ensures ok ==> Valid(kind) && k in m_mapStatefulSvcQueue
      ensures m_mapStatefulSvcQueue.Values + m_mapStatelessSvcQueue.Values
              <= old(m_mapStatefulSvcQueue.Values + m_mapStatelessSvcQueue.Values)
      ensures D.Dispatch(kind, old(Pool()), old(m_oCurCmdObj.Val())) ==
              if ok then D.Settle(Pool(), k, m_oCurCmdObj.Val(), if kind == 1 then [] else [k]) else D.Aborted
      ensures ok ==>
                c1.contents == if kind == 1 then old(c1.contents)
                               else C.Put(old(c1.contents), NestedRequest(k), room)
    {
      hide Finished, Entered, C.Put, NestedRequest, D.ScanFrom, D.Settle, D.Dispatch, CCmd.Val;
      ghost var p, cur := Pool(), m_oCurCmdObj.Val();
      D.DispatchBranches(kind, p, cur);
      assert p.stateless.Keys == m_mapStatelessSvcQueue.Keys;
      k := TakeFirstFree(kind);
      if m_mapStatefulSvcQueue[k].m_uctx != Fresh { return false, k; }
      ghost var ctx := Entered(kind, cur).1;
      SwitchInto(kind, k, c1, room);
      assert p.stateful[k := p.stateless[k]][k := ctx] == p.stateful[k := ctx];
      assert Pool() == D.Pool(p.stateless - {k}, p.stateful[k := ctx]);
      ok := true;
    }

    /** CServiceDispatcher::Dispatch; `ok` is false where the process would abort. */
    method Dispatch(kind: int, oCmd: CCmd, c1: CMsgQueue, room: bool)
      returns (ok: bool, iRet: int32, ghost nested: seq<int32>)
      requires Valid(kind) && oCmd != m_oCurCmdObj
      modifies this, m_oCurCmdObj, oCmd, m_mapStatefulSvcQueue.Values, m_mapStatelessSvcQueue.Values, c1
      ensures ok ==> Valid(kind)
      ensures m_mapStatefulSvcQueue.Values + m_mapStatelessSvcQueue.Values
              <= old(m_mapStatefulSvcQueue.Values + m_mapStatelessSvcQueue.Values)
      ensures D.Dispatch(kind, old(Pool()), old(oCmd.Val())) ==
              if ok then D.Back(Pool(), oCmd.Val(), iRet, nested) else D.Aborted
      ensures ok ==>
                c1.contents == if nested == [] then old(c1.contents)
                               else C.Put(old(c1.contents), NestedRequest(nested[0]), room)
    {
      hide Finished, Entered, C.Put, NestedRequest, D.ScanFrom, D.Settle, D.Dispatch, CCmd.Val;
      var cur := oCmd.Copy();
      m_oCurCmdObj.Assign(cur);
      var k;
      nested := [];
      if cur.iType == RESPONSE {
        ok, k := SelectStateful(kind, c1);
      } else if m_mapStatelessSvcQueue == map[] {
        D.DispatchBranches(kind, Pool(), cur);
        assert Pool().stateless == map[];
        return true, NO_FREE_SVC_HANDLER, [];
      } else {
        ok, k := SelectStateless(kind, c1, room);
        nested := if kind == 1 then [] else [k];
      }
      if !ok { return false, 0, []; }
      iRet := Settle(kind, k, oCmd, nested);
    }

    /** The end of Dispatch. */
    method Settle(kind: int, k: int32, oCmd: CCmd, ghost nested: seq<int32>) returns (iRet: int32)
      requires Valid(kind) && k in m_mapStatefulSvcQueue && oCmd != m_oCurCmdObj
      modifies this, oCmd, m_mapStatefulSvcQueue[k]
      ensures Valid(kind)
      ensures m_mapStatefulSvcQueue.Values + m_mapStatelessSvcQueue.Values
              <= old(m_mapStatefulSvcQueue.Values + m_mapStatelessSvcQueue.Values)
      ensures D.Settle(old(Pool()), k, old(m_oCurCmdObj.Val()), nested) == D.Back(Pool(), oCmd.Val(), iRet, nested)
    {
      hide D.Settle, CCmd.Val;
      var cur := m_oCurCmdObj.Copy();
      D.SettleBranches(Pool(), k, cur, nested);
      if cur.iRet != UNFINISH_TASK_RET_FLAG {
        PutBack(kind, k);
      }
      oCmd.Assign(cur);
      iRet := cur.iRet;
    }
  }

  // ---------------------------------------------------------------- event handler

  lemma PutNestedQueues(qs: C.Queues, nested: seq<int32>, room: bool, qs': C.Queues)
    requires qs'.back == qs.back && qs'.c2 == qs.c2
    requires qs'.c1 == if nested == [] then qs.c1 else C.Put(qs.c1, NestedRequest(nested[0]), room)
    ensures qs' == C.PutNested(qs, nested, room)
  {
    hide C.Put, NestedRequest;
  }

  class CContainerEventHandler {
    const m_pMQManager: CMsgQManager
    const m_iMqKey: int32
    const pDispatcher: CServiceDispatcher
    const iPid: int
    ghost const back: CMsgQueue
    ghost const c1: CMsgQueue
    ghost const c2: CMsgQueue

    constructor (pMQManager: CMsgQManager, iMqKey: int32, pSvcDispatcher: CServiceDispatcher, pid: int)
      requires iMqKey in {C1_KEY, C2_KEY} && pid > 0
      requires {NET_IO_BACK_MSQ_KEY, C1_KEY, C2_KEY} <= pMQManager.m_mapGroupMsgqs.Keys
      requires var m := pMQManager.m_mapGroupMsgqs;
               m[NET_IO_BACK_MSQ_KEY] != m[C1_KEY] && m[C1_KEY] != m[C2_KEY] && m[C2_KEY] != m[NET_IO_BACK_MSQ_KEY]
      requires pSvcDispatcher.Valid(if iMqKey == C1_KEY then 1 else 2)
      ensures Valid() && pDispatcher == pSvcDispatcher && iPid == pid && m_iMqKey == iMqKey
    {
      m_pMQManager, m_iMqKey, pDispatcher, iPid := pMQManager, iMqKey, pSvcDispatcher, pid;
      back := pMQManager.m_mapGroupMsgqs[NET_IO_BACK_MSQ_KEY];
      c1 := pMQManager.m_mapGroupMsgqs[C1_KEY];
      c2 := pMQManager.m_mapGroupMsgqs[C2_KEY];
    }

    function Kind(): int { if m_iMqKey == C1_KEY then 1 else 2 }

    ghost predicate Valid()
      reads m_pMQManager, pDispatcher, pDispatcher.m_mapStatefulSvcQueue.Values,
            pDispatcher.m_mapStatelessSvcQueue.Values
    {
      && m_iMqKey in {C1_KEY, C2_KEY} && iPid > 0
      && back != c1 && c1 != c2 && c2 != back
      && {NET_IO_BACK_MSQ_KEY, C1_KEY, C2_KEY} <= m_pMQManager.m_mapGroupMsgqs.Keys
      && back == m_pMQManager.m_mapGroupMsgqs[NET_IO_BACK_MSQ_KEY]
      && c1 == m_pMQManager.m_mapGroupMsgqs[C1_KEY]
      && c2 == m_pMQManager.m_mapGroupMsgqs[C2_KEY]
      && pDispatcher.Valid(Kind())
    }

    ghost function Qs(): C.Queues
      reads back, c1, c2
    {
      C.Queues(back.contents, c1.contents, c2.contents)
    }

    /** The part of ProcessMsg behind Dispatch; `ok` is false where it would use
        an unset queue pointer. */
    method Answer(oCmd: CCmd, room: bool, ghost before: seq<Msg>) returns (ok: bool, ghost lost: seq<Msg>)
      requires Valid()
      modifies oCmd, back, c1, c2
      ensures Valid()
      ensures C.Answer(iPid, pDispatcher.Pool(), old(Qs()), before, old(oCmd.Val()), room) ==
              if ok then C.Ran(pDispatcher.Pool(), Qs(), lost) else C.Crash
    {
      hide CServiceDispatcher.Valid, CServiceDispatcher.Pool, Printed;
      lost := before;
      ok := true;
      if oCmd.iSvcSerialNo != 0 {
        var rpMsgq := QueueOfCmd(m_pMQManager, oCmd.iCmd);
        var iPidOf := C.TruncDiv(oCmd.iSvcSerialNo, 100);
        oCmd.iType := RESPONSE;
        var c := oCmd.Copy();
        PrintedFits(c);
        var stMsg2 := Msg(iPidOf * 10 + APP, Printed(c, BUF_SIZE));
        if rpMsgq == null { return false, []; }
        var _ := rpMsgq.PutMsg(stMsg2, room);
        lost := before + C.Unput(stMsg2, room);
      } else {
        oCmd.sData := C.ByPid(oCmd.sData, iPid);
        var _, rpMsgq := m_pMQManager.GetMsgQueue(NET_IO_BACK_MSQ_KEY);
        oCmd.iType := RESPONSE;
        var c := oCmd.Copy();
        PrintedFits(c);
        var stMsg2 := Msg(RESPONSE, Printed(c, BUF_SIZE));
        var _ := rpMsgq.PutMsg(stMsg2, room);
        lost := before + C.Unput(stMsg2, room);
      }
    }

    ghost function Handlers(): set<IService>
      reads pDispatcher
    {
      pDispatcher.m_mapStatefulSvcQueue.Values + pDispatcher.m_mapStatelessSvcQueue.Values
    }

    method SetError(oCmd: CCmd, iRet: int32)
      modifies oCmd
      ensures oCmd.Val() == C.WithError(old(oCmd.Val()), iRet)
    {
      if iRet != 0 {
        oCmd.iRet := iRet;
        oCmd.sData := C.ErrText(iRet);
      }
    }

    /** The call of Dispatch, during which a service may use the queue of the first. */
    method DispatchMsg(oCmd: CCmd, room: bool) returns (ok: bool, iRet: int32, ghost nested: seq<int32>)
      requires Valid() && oCmd != pDispatcher.m_oCurCmdObj
      modifies oCmd, pDispatcher, pDispatcher.m_oCurCmdObj, Handlers(), c1
      ensures ok ==> Valid()
      ensures Handlers() <= old(Handlers())
      ensures D.Dispatch(Kind(), old(pDispatcher.Pool()), old(oCmd.Val())) ==
              if ok then D.Back(pDispatcher.Pool(), oCmd.Val(), iRet, nested) else D.Aborted
      ensures ok ==> Qs() == C.PutNested(old(Qs()), nested, room)
    {
      hide D.Dispatch, NestedRequest, C.Put, C.PutNested, CCmd.Val;
      ghost var qs := Qs();
      var _, nestedQueue := m_pMQManager.GetMsgQueue(C1_KEY);
      ok, iRet, nested := pDispatcher.Dispatch(Kind(), oCmd, nestedQueue, room);
      if ok { PutNestedQueues(qs, nested, room, Qs()); }
    }

    /** CContainerEventHandler::ProcessMsg; `ok` is false where the process would abort. */
    method ProcessMsg(oCmd: CCmd, roomNested: bool, roomAnswer: bool) returns (ok: bool, ghost lost: seq<Msg>)
      requires Valid() && oCmd != pDispatcher.m_oCurCmdObj
      modifies oCmd, pDispatcher, pDispatcher.m_oCurCmdObj, Handlers(), back, c1, c2
      ensures ok ==> Valid()
      ensures Handlers() <= old(Handlers())
      ensures C.Process(Kind(), iPid, old(pDispatcher.Pool()), old(Qs()), old(oCmd.Val()), roomNested, roomAnswer) ==
              if ok then C.Ran(pDispatcher.Pool(), Qs(), lost) else C.Crash
    {
      hide C.Answer, D.Dispatch, NestedRequest, C.Put, C.WithError, C.PutNested, C.LostNested, C.Process, CCmd.Val;
      hide CServiceDispatcher.Valid, CServiceDispatcher.Pool;
      ghost var r := C.Process(Kind(), iPid, pDispatcher.Pool(), Qs(), oCmd.Val(), roomNested, roomAnswer);
      C.ProcessBranches(Kind(), iPid, pDispatcher.Pool(), Qs(), oCmd.Val(), roomNested, roomAnswer);
      var iRet;
      ghost var nested;
      ok, iRet, nested := DispatchMsg(oCmd, roomNested);
      if !ok { return false, []; }
      lost := C.LostNested(nested, roomNested);
      if iRet == UNFINISH_TASK_RET_FLAG { return true, lost; }
      assert r == C.Answer(iPid, pDispatcher.Pool(), Qs(), lost, C.WithError(oCmd.Val(), iRet), roomAnswer);
      SetError(oCmd, iRet);
      ok, lost := Answer(oCmd, roomAnswer, lost);
    }

    /** The two GetMsg calls: a request first, else an answer addressed to this process.
        The result code is not looked at, so a failing call is one that sees nothing. */
    method TakeMsg(sees: C.Sees) returns (sBuf: string, Len: nat)
      requires Valid()
      requires forall m | m in c1.contents || m in c2.contents :: m.sBuf != ""
      modifies c1, c2
      ensures var kind, qs := Kind(), old(Qs());
              var q, i := C.Own(kind, qs), C.Chosen(kind, iPid, qs, sees);
              if i == |q| then Len == 0 && Qs() == qs
              else Len > 0 && sBuf == q[i].sBuf && Qs() == C.SetOwn(kind, qs, Removed(q, i))
    {
      hide CServiceDispatcher.Valid, FirstOf;
      var _, rpMsgq := m_pMQManager.GetMsgQueue(m_iMqKey);
      var iret;
      iret, sBuf, Len := rpMsgq.GetMsg(REQUEST, 0, !sees.request);
      if Len == 0 {
        iret, sBuf, Len := rpMsgq.GetMsg(iPid * 10 + APP, Len, !sees.answer);
      }
    }

    /** CContainerEventHandler::OnEventFire; without a message nothing changes. */
    method OnEventFire(sees: C.Sees, roomNested: bool, roomAnswer: bool) returns (ok: bool, ghost lost: seq<Msg>)
      requires Valid()
      requires forall m | m in c1.contents || m in c2.contents :: m.sBuf != ""
      modifies pDispatcher, pDispatcher.m_oCurCmdObj, Handlers(), back, c1, c2
      ensures ok ==> Valid()
      ensures C.Fire(Kind(), iPid, old(pDispatcher.Pool()), old(Qs()), sees, roomNested, roomAnswer) ==
              if ok then C.Ran(pDispatcher.Pool(), Qs(), lost) else C.Crash
    {
      hide C.Process, C.Fire, Parsed, CCmd.Val, C.Own, C.SetOwn, C.Chosen;
      hide CServiceDispatcher.Valid, CServiceDispatcher.Pool;
      ghost var r := C.Fire(Kind(), iPid, pDispatcher.Pool(), Qs(), sees, roomNested, roomAnswer);
      C.FireBranches(Kind(), iPid, pDispatcher.Pool(), Qs(), sees, roomNested, roomAnswer);
      var sBuf, Len := TakeMsg(sees);
      if Len == 0 { return true, []; }
      var oCmd := new CCmd();
      oCmd.InitCCmd(sBuf);
      assert r == C.Process(Kind(), iPid, pDispatcher.Pool(), Qs(), oCmd.Val(), roomNested, roomAnswer);
      ok, lost := ProcessMsg(oCmd, roomNested, roomAnswer);
    }
  }

  // ---------------------------------------------------------------- start-up

  lemma CtxsOfFresh(m: map<int32, IService>)
    requires forall k | k in m :: m[k].m_uctx == Fresh
    ensures Ctxs(m).Keys == m.Keys && forall k | k in m :: Ctxs(m)[k] == Fresh
  {
  }

  /** The loop of container.cpp that fills the dispatcher of process pid. */
  method RegisterHandlers(pid: int, inputIndex: int, pServiceDispatcher: CServiceDispatcher)
    requires D.PidOk(pid) && inputIndex in {1, 2}
    requires pServiceDispatcher.m_mapStatefulSvcQueue == map[] && pServiceDispatcher.m_mapStatelessSvcQueue == map[]
    modifies pServiceDispatcher
    ensures pServiceDispatcher.Valid(inputIndex)
    ensures pServiceDispatcher.Pool() == D.FullPool(pid)
  {
    for i := 0 to D.POOL_SIZE
      invariant pServiceDispatcher.Valid(inputIndex)
      invariant pServiceDispatcher.m_mapStatefulSvcQueue == map[]
      invariant forall k: int32 :: k in pServiceDispatcher.m_mapStatelessSvcQueue <==> pid * 100 <= k < pid * 100 + i
      invariant var m := pServiceDispatcher.m_mapStatelessSvcQueue; forall k | k in m :: m[k].m_uctx == Fresh
    {
      var pSvc := new IService(pid * 100 + i, inputIndex);
      pServiceDispatcher.AddSvcHandler(pSvc);
    }
    CtxsOfFresh(pServiceDispatcher.m_mapStatelessSvcQueue);
    assert pServiceDispatcher.Pool().stateful == D.FullPool(pid).stateful;
    assert pServiceDispatcher.Pool().stateless == D.FullPool(pid).stateless;
  }

  // ---------------------------------------------------------------- a turn of the loop

  /** The state of a run, as the objects of one process hold it. */
  ghost predicate IsStateOf(h: CContainerEventHandler, s: P.Sys)
    reads h.m_pMQManager, h.pDispatcher, h.pDispatcher.m_mapStatefulSvcQueue.Values,
          h.pDispatcher.m_mapStatelessSvcQueue.Values, h.back, h.c1, h.c2
  {
    && h.Valid() && h.iPid in s.fleet && s.fleet[h.iPid] == h.Kind()
    && h.iPid in s.pools && s.pools[h.iPid] == h.pDispatcher.Pool() && s.qs == h.Qs()
  }

  /** What RunEventLoop does in a container: after any run, the event goes through,
      and leaves the objects in the next state of the run. */
  method ProcessEvent(h: CContainerEventHandler, sees: C.Sees, roomNested: bool, roomAnswer: bool,
                      ghost tr: seq<P.Sys>, ghost steps: seq<P.Step>)
    returns (ok: bool)
    requires P.Run(tr, steps) && IsStateOf(h, tr[|steps|])
    modifies h.pDispatcher, h.pDispatcher.m_oCurCmdObj, h.Handlers(), h.back, h.c1, h.c2
    ensures ok
    ensures P.Enabled(tr[|steps|], P.Container(h.iPid, sees, roomNested, roomAnswer))
    ensures IsStateOf(h, P.Next(tr[|steps|], P.Container(h.iPid, sees, roomNested, roomAnswer)))
  {
    hide P.Run, C.Fire;
    Runs.RunLength(tr, steps);
    ghost var s := tr[|steps|];
    Runs.NoAssertFires(tr, steps, |steps|, h.iPid, sees, roomNested, roomAnswer);
    forall m | m in h.c1.contents || m in h.c2.contents ensures m.sBuf != "" {
      Runs.MessagesHaveText(tr, steps, |steps|, m);
    }
    ghost var lost;
    ok, lost := h.OnEventFire(sees, roomNested, roomAnswer);
  }
}
