/** netio/src/service_dispatcher.cpp: the pool of service handlers of one process. */
module Dispatcher {
  import opened Text
  import opened IntOrder
  import opened CmdObj
  import opened MsgQueue
  import opened Service

  /** The two handler maps, by handler index. */
  datatype Pool = Pool(stateless: map<int32, Context>, stateful: map<int32, Context>)

  /** Aborted: the assert of Dispatch failed, or control went to a context that
      had returned. `nested` is the handler that sent a request on the way. */
  datatype Dispatched =
    | Aborted
    | Back(pool: Pool, cmd: Cmd, iRet: int32, nested: seq<int32>)

  // ---------------------------------------------------------------- Dispatch

  /** The search loop: every handler whose index equals the serial number of the
      current command, which each resumed service overwrites, is resumed. */
  datatype Scan = Wild | Scanned(ctxs: map<int32, Context>, cur: Cmd, hits: seq<int32>)

  function ScanFrom(keys: seq<int32>, ctxs: map<int32, Context>, cur: Cmd, hits: seq<int32>): Scan
    requires forall k | k in keys :: k in ctxs
  {
    if keys == [] then Scanned(ctxs, cur, hits)
    else if cur.iSvcSerialNo != keys[0] then ScanFrom(keys[1..], ctxs, cur, hits)
    else if !ctxs[keys[0]].Suspended? then Wild
    else ScanFrom(keys[1..], ctxs[keys[0] := Returned], Finished(ctxs[keys[0]].obj3, cur), hits + [keys[0]])
  }

  /** Handler k goes back to the stateless map, its context made again, unless
      the task is unfinished. */
  function Settle(pool: Pool, k: int32, cmd: Cmd, nested: seq<int32>): Dispatched {
    Back(if cmd.iRet == UNFINISH_TASK_RET_FLAG then pool
         else Pool(pool.stateless[k := Fresh], pool.stateful - {k}),
         cmd, cmd.iRet, nested)
  }

  function Dispatch(kind: int, pool: Pool, oCmd: Cmd): Dispatched {
    if oCmd.iType == RESPONSE then
      match ScanFrom(Sorted(pool.stateful.Keys), pool.stateful, oCmd, [])
      case Wild => Aborted
      case Scanned(ctxs, cur, hits) =>
        if hits == [] then Aborted
        else Settle(Pool(pool.stateless, ctxs), hits[|hits| - 1], cur, [])
    else if pool.stateless == map[] then
      Back(pool, oCmd, NO_FREE_SVC_HANDLER, [])
    else
      var k := Min(pool.stateless.Keys);
      if !pool.stateless[k].Fresh? then Aborted
      else
        var (cur, ctx) := Entered(kind, oCmd);
        Settle(Pool(pool.stateless - {k}, pool.stateful[k := ctx]), k, cur, if kind == 1 then [] else [k])
  }

  /** ScanFrom, one key at a time. */
  lemma ScanStep(keys: seq<int32>, ctxs: map<int32, Context>, cur: Cmd, hits: seq<int32>)
    requires forall k | k in keys :: k in ctxs
    ensures keys == [] ==> ScanFrom(keys, ctxs, cur, hits) == Scanned(ctxs, cur, hits)
    ensures keys != [] ==>
            var k, rest := keys[0], keys[1..];
            ScanFrom(keys, ctxs, cur, hits) ==
            if cur.iSvcSerialNo != k then ScanFrom(rest, ctxs, cur, hits)
            else if !ctxs[k].Suspended? then Wild
            else ScanFrom(rest, ctxs[k := Returned], Finished(ctxs[k].obj3, cur), hits + [k])
  {
  }

  lemma SettleBranches(pool: Pool, k: int32, cmd: Cmd, nested: seq<int32>)
    ensures cmd.iRet == UNFINISH_TASK_RET_FLAG ==> Settle(pool, k, cmd, nested) == Back(pool, cmd, cmd.iRet, nested)
    ensures cmd.iRet != UNFINISH_TASK_RET_FLAG ==>
            Settle(pool, k, cmd, nested) ==
            Back(Pool(pool.stateless[k := Fresh], pool.stateful - {k}), cmd, cmd.iRet, nested)
  {
  }

  /** Dispatch, branch by branch. */
  lemma DispatchBranches(kind: int, pool: Pool, oCmd: Cmd)
    ensures oCmd.iType == RESPONSE ==>
              var r := ScanFrom(Sorted(pool.stateful.Keys), pool.stateful, oCmd, []);
              Dispatch(kind, pool, oCmd) == if r.Wild? || r.hits == [] then Aborted
                else Settle(Pool(pool.stateless, r.ctxs), r.hits[|r.hits| - 1], r.cur, [])
    ensures oCmd.iType != RESPONSE && pool.stateless == map[] ==>
              Dispatch(kind, pool, oCmd) == Back(pool, oCmd, NO_FREE_SVC_HANDLER, [])
    ensures oCmd.iType != RESPONSE && pool.stateless != map[] ==>
              var k := Min(pool.stateless.Keys);
              Dispatch(kind, pool, oCmd) == if !pool.stateless[k].Fresh? then Aborted
                else Settle(Pool(pool.stateless - {k}, pool.stateful[k := Entered(kind, oCmd).1]), k,
                            Entered(kind, oCmd).0,
                            if kind == 1 then [] else [k])
  {
    hide Settle, Entered, ScanFrom;
  }

  // ---------------------------------------------------------------- what Dispatch keeps

  const POOL_SIZE := 25

  /** The indices that container.cpp gives the handlers of process pid. */
  predicate IsIndex(pid: int, k: int) { pid * 100 <= k < pid * 100 + POOL_SIZE }

  predicate PidOk(pid: int) { 0 < pid && pid * 100 + POOL_SIZE <= 0x8000_0000 }

  /** Every handler is in exactly one map; a stateless one waits at its start, a
      stateful one sleeps, and only the second service ever sleeps. */
  ghost predicate PoolOk(pid: int, kind: int, pool: Pool) {
    && pool.stateless.Keys !! pool.stateful.Keys
    && (forall k: int32 :: k in pool.stateless || k in pool.stateful <==> IsIndex(pid, k))
    && (forall k | k in pool.stateless :: pool.stateless[k] == Fresh)
    && (forall k | k in pool.stateful :: pool.stateful[k].Suspended?)
    && (kind == 1 ==> pool.stateful == map[])
  }

  function FullPool(pid: int): Pool
    requires PidOk(pid)
  {
    Pool(map i: int32 | pid * 100 <= i < pid * 100 + POOL_SIZE && IsIndex(pid, i) :: Fresh, map[])
  }

  /** The n numbers from lo. */
  function Range(lo: int, n: nat): set<int32>
    requires 0 <= lo && lo + n <= 0x8000_0000
  {
    if n == 0 then {} else Range(lo, n - 1) + {lo + n - 1}
  }

  lemma {:induction false} RangeSize(lo: int, n: nat)
    requires 0 <= lo && lo + n <= 0x8000_0000
    ensures |Range(lo, n)| == n && forall k: int32 :: k in Range(lo, n) <==> lo <= k < lo + n
  {
    if n > 0 { RangeSize(lo, n - 1); }
  }

  /** A process starts with 25 handlers, numbered from a hundred times its id. */
  lemma FullPoolSize(pid: int)
    requires PidOk(pid)
    ensures |FullPool(pid).stateless| == 25 && FullPool(pid).stateful == map[]
    ensures forall k: int32 :: k in FullPool(pid).stateless <==> pid * 100 <= k < pid * 100 + 25
  {
    RangeSize(pid * 100, 25);
    assert FullPool(pid).stateless.Keys == Range(pid * 100, 25);
  }

  lemma FullPoolOk(pid: int, kind: int)
    requires PidOk(pid)
    ensures PoolOk(pid, kind, FullPool(pid))
  {
  }

  lemma {:induction false} ScanMisses(keys: seq<int32>, ctxs: map<int32, Context>, cur: Cmd, hits: seq<int32>)
    requires forall k | k in keys :: k in ctxs && k != cur.iSvcSerialNo
    ensures ScanFrom(keys, ctxs, cur, hits) == Scanned(ctxs, cur, hits)
  {
    if keys != [] { ScanMisses(keys[1..], ctxs, cur, hits); }
  }

  /** One resume per response: although the loop goes on after a hit with a
      current command that the resumed service has overwritten, it never hits
      again, because a finished service leaves serial number 0. */
  lemma {:induction false} ScanHitsOnce(keys: seq<int32>, ctxs: map<int32, Context>, cur: Cmd)
    requires forall k | k in keys :: k > 0 && k in ctxs && ctxs[k].Suspended?
    ensures var n := cur.iSvcSerialNo;
            ScanFrom(keys, ctxs, cur, []) ==
            if n in keys then Scanned(ctxs[n := Returned], Finished(ctxs[n].obj3, cur), [n])
            else Scanned(ctxs, cur, [])
  {
    if keys != [] {
      var n := cur.iSvcSerialNo;
      assert forall k | k in keys[1..] :: k in keys;
      if keys[0] == n {
        assert [] + [n] == [n];
        ScanMisses(keys[1..], ctxs[n := Returned], Finished(ctxs[n].obj3, cur), [n]);
      } else {
        ScanHitsOnce(keys[1..], ctxs, cur);
        assert n in keys <==> n in keys[1..];
      }
    }
  }

  /** Dispatch of a response, in a pool as every run keeps it: the assert holds
      exactly when the serial number names a sleeping handler, and then that
      handler finishes with what it saved and is free again. */
  lemma DispatchResponse(pid: int, kind: int, pool: Pool, oCmd: Cmd)
    requires PidOk(pid) && PoolOk(pid, kind, pool) && oCmd.iType == RESPONSE
    ensures oCmd.iSvcSerialNo !in pool.stateful ==> Dispatch(kind, pool, oCmd) == Aborted
    ensures var n := oCmd.iSvcSerialNo;
            n in pool.stateful ==>
              Dispatch(kind, pool, oCmd) ==
              Back(Pool(pool.stateless[n := Fresh], pool.stateful - {n}), Finished(pool.stateful[n].obj3, oCmd), 0, [])
  {
    hide Dispatch, ScanFrom, Finished, Settle, PoolOk;
    var n := oCmd.iSvcSerialNo;
    var keys := Sorted(pool.stateful.Keys);
    DispatchBranches(kind, pool, oCmd);
    AllAsleep(pid, kind, pool);
    ScanHitsOnce(keys, pool.stateful, oCmd);
    if n in pool.stateful {
      var ctxs, cur := pool.stateful[n := Returned], Finished(pool.stateful[n].obj3, oCmd);
      assert ScanFrom(keys, pool.stateful, oCmd, []) == Scanned(ctxs, cur, [n]);
      SettleBranches(Pool(pool.stateless, ctxs), n, cur, []);
      FinishedIsDone(pool.stateful[n].obj3, oCmd);
      Unset(pool.stateful, n, Returned);
    } else {
      assert ScanFrom(keys, pool.stateful, oCmd, []) == Scanned(pool.stateful, oCmd, []);
    }
  }

  lemma Unset(m: map<int32, Context>, k: int32, c: Context)
    ensures m[k := c] - {k} == m - {k}
  {
  }

  lemma FinishedIsDone(obj3: Cmd, cur: Cmd)
    ensures Finished(obj3, cur).iRet == 0 && 0 != UNFINISH_TASK_RET_FLAG
  {
  }

  lemma AllAsleep(pid: int, kind: int, pool: Pool)
    requires PidOk(pid) && PoolOk(pid, kind, pool)
    ensures forall k | k in pool.stateful :: k > 0 && pool.stateful[k].Suspended?
  {
    forall k | k in pool.stateful ensures k > 0 { assert IsIndex(pid, k); }
  }

  /** Dispatch of anything else: the first free handler is entered; without one
      the command comes back as it was, with NO_FREE_SVC_HANDLER. The first service
      leaves the return value alone, so a request that arrives with the unfinished
      mark keeps its handler from going back. */
  lemma DispatchRequest(pid: int, kind: int, pool: Pool, oCmd: Cmd)
    requires PidOk(pid) && PoolOk(pid, kind, pool) && oCmd.iType != RESPONSE && kind in {1, 2}
    ensures pool.stateless == map[] ==> Dispatch(kind, pool, oCmd) == Back(pool, oCmd, NO_FREE_SVC_HANDLER, [])
    ensures pool.stateless != map[] && kind == 1 && oCmd.iRet != UNFINISH_TASK_RET_FLAG ==>
              Dispatch(kind, pool, oCmd) == Back(pool, oCmd.(sData := "resp1=r1", iType := RESPONSE), oCmd.iRet, [])
    ensures pool.stateless != map[] && kind == 1 && oCmd.iRet == UNFINISH_TASK_RET_FLAG ==>
              var k := Min(pool.stateless.Keys);
              Dispatch(kind, pool, oCmd) ==
              Back(Pool(pool.stateless - {k}, pool.stateful[k := Returned]),
                   oCmd.(sData := "resp1=r1", iType := RESPONSE), UNFINISH_TASK_RET_FLAG, [])
    ensures pool.stateless != map[] && kind == 2 ==>
              var k := Min(pool.stateless.Keys);
              Dispatch(kind, pool, oCmd) ==
              Back(Pool(pool.stateless - {k}, pool.stateful[k := Suspended(oCmd)]),
                   oCmd.(iRet := UNFINISH_TASK_RET_FLAG), UNFINISH_TASK_RET_FLAG, [k])
  {
    if pool.stateless != map[] {
      var k := Min(pool.stateless.Keys);
      if kind == 1 {
        assert (pool.stateless - {k})[k := Fresh] == pool.stateless;
        assert pool.stateful[k := Returned] - {k} == pool.stateful;
      }
    }
  }

  /** NO_FREE_SVC_HANDLER is returned exactly when every handler is suspended, or
      when the first service hands back a request that arrived with it. A request
      without a return value never gets it from the first service, whose handlers
      never sleep. */
  lemma NoFreeHandler(pid: int, kind: int, pool: Pool, oCmd: Cmd)
    requires PidOk(pid) && PoolOk(pid, kind, pool) && oCmd.iType != RESPONSE && kind in {1, 2}
    ensures var d := Dispatch(kind, pool, oCmd);
            && d.Back?
            && (d.iRet == NO_FREE_SVC_HANDLER <==>
                  || (forall k: int32 | IsIndex(pid, k) :: k in pool.stateful)
                  || (kind == 1 && oCmd.iRet == NO_FREE_SVC_HANDLER))
    ensures kind == 1 ==> pool.stateless != map[] && Dispatch(kind, pool, oCmd).iRet == oCmd.iRet
  {
    hide Dispatch;
    DispatchRequest(pid, kind, pool, oCmd);
    if forall k: int32 | IsIndex(pid, k) :: k in pool.stateful {
      assert forall k | k in pool.stateless :: IsIndex(pid, k);
      assert pool.stateless.Keys == {};
    }
    var k: int32 := pid * 100;
    assert IsIndex(pid, k);
  }

  /** A Dispatch that comes back leaves the pool in order again, exactly unless the
      first service was given a request with the unfinished mark. */
  lemma DispatchKeepsPool(pid: int, kind: int, pool: Pool, oCmd: Cmd)
    requires PidOk(pid) && PoolOk(pid, kind, pool) && kind in {1, 2}
    ensures var d := Dispatch(kind, pool, oCmd);
            d.Back? ==>
              (PoolOk(pid, kind, d.pool) <==>
                 oCmd.iType == RESPONSE || kind == 2 || oCmd.iRet != UNFINISH_TASK_RET_FLAG)
  {
    hide Dispatch;
    if oCmd.iType == RESPONSE {
      DispatchResponse(pid, kind, pool, oCmd);
    } else {
      DispatchRequest(pid, kind, pool, oCmd);
      NoFreeHandler(pid, kind, pool, oCmd);
      if pool.stateless != map[] { assert IsIndex(pid, Min(pool.stateless.Keys)); }
    }
  }
}
