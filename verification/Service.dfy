/** The two service coroutines, netio/src/svc_test.cpp and svc_test2.cpp, on
    the contexts of netio/src/intf_service.cpp. */
module Service {
  import opened Text
  import opened CmdObj
  import opened MsgQueue

  const UNFINISH_TASK_RET_FLAG: int32 := 2000000000
  const NO_FREE_SVC_HANDLER: int32 := 21

  /** Where a user context stands: made and not yet entered; asleep in
      Schedule() with the local copy obj3 on its stack; or past the end of its
      start function, where it must be made again before it can be entered. */
  datatype Context = Fresh | Suspended(obj3: Cmd) | Returned

  /** What SendRequest prints: a fresh command with the serial number of the
      handler and the command number of its service. */
  function NestedRequest(iIndex: int32): Msg {
    Msg(REQUEST, Printed(DEFAULT_CMD.(iSvcSerialNo := iIndex, iCmd := 2), BUF_SIZE))
  }

  /** The current command, and the context, when a service that was entered
      from the start gives control back for the first time. */
  function Entered(kind: int, cur: Cmd): (Cmd, Context) {
    if kind == 1 then (cur.(sData := "resp1=r1", iType := RESPONSE), Returned)
    else (cur.(iRet := UNFINISH_TASK_RET_FLAG), Suspended(cur))
  }

  /** The current command after a service that slept with obj3 has finished. */
  function Finished(obj3: Cmd, cur: Cmd): Cmd {
    obj3.(iRet := 0, iSvcSerialNo := 0, iType := RESPONSE, sData := cur.sData + "&resp2=r2")
  }

  /** A printed command is never too long to be put. */
  lemma PrintedFits(c: Cmd)
    ensures |Printed(c, BUF_SIZE)| < BUF_SIZE <= MAX_MSG_SIZE
  {
  }
}
