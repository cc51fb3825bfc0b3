/** The messages that container processes print, read back: every body they
    print is already in canonical form and fits its buffer. */
module Answers {
  import opened Text
  import opened StrMap
  import opened CmdObj
  import opened MsgQueue
  import opened Service
  import opened Dispatcher
  import opened Container

  lemma CanonEmpty()
    ensures Canon("") == ""
  {
    var m: map<string, string> := map[];
    assert m - RESERVED == m;
  }

  lemma CanonOne(k: string, v: string)
    requires CleanPart(k) && CleanPart(v) && k !in RESERVED
    ensures Canon(k + "=" + v) == k + "=" + v
  {
    var m := map[k := v];
    SortedPair(k, k + "x") by { LessLonger(k, 'x'); }
    assert m.Keys == {k};
    assert Serialise(m) == k + "=" + v;
    CanonOfEntries(m);
  }

  lemma {:induction false} LessLonger(k: string, c: char)
    ensures Less(k, k + [c])
  {
    if k != "" {
      assert (k + [c])[1..] == k[1..] + [c];
      LessLonger(k[1..], c);
    }
  }

  lemma CanonTwo(k: string, v: string, j: string, w: string)
    requires CleanPart(k) && CleanPart(v) && CleanPart(j) && CleanPart(w)
    requires Less(k, j) && k !in RESERVED && j !in RESERVED
    ensures var s := Entry(k, v) + "&" + j + "=" + w; Canon(s) == s
  {
    LessTotal(k, j);
    var m := map[k := v, j := w];
    SortedPair(k, j);
    assert m.Keys == {k, j};
    assert [k, j][1..] == [j] && [j][1..] == [];
    var es := [Entry(k, v), Entry(j, w)];
    assert Entries([k, j], m) == es;
    JoinTwo(Entry(k, v), j, w);
    CanonOfEntries(m);
  }

  lemma JoinTwo(e: string, j: string, w: string)
    ensures Join([e, Entry(j, w)], '&') == e + "&" + j + "=" + w
  {
    assert [e, Entry(j, w)][1..] == [Entry(j, w)];
    assert e + "&" + (j + "=" + w) == e + "&" + j + "=" + w;
  }

  lemma NotReserved(k: string)
    requires (|k| in {4, 5} && k[0] == 'r') || (|k| == 7 && k[0] == 'e')
    ensures k !in RESERVED
  {
    var ks := HEADER_KEYS;
    assert |ks[0]| == 3 && |ks[1]| == 4 && |ks[2]| == 5 && |ks[3]| == 8 && |ks[4]| == 3 && |ks[5]| == 2;
    assert |ks[6]| == 6 && |ks[7]| == 5 && |ks[8]| == 7;
    assert ks[1][0] == 't' && ks[2][0] == 'i' && ks[7][0] == 'c' && ks[8][0] == 'c';
  }

  lemma ByPidClean(v: string, pid: int)
    requires CleanPart(v) && v != ""
    ensures CleanPart(ByPid(v, pid))
  {
    ItoaPlain(pid);
    var t := " by pid:";
    assert Free('&', t) && Free('=', t);
  }

  /** The pid is appended to the last value. */
  lemma ByPidOfLast(head: string, v: string, pid: int)
    ensures ByPid(head + v, pid) == head + ByPid(v, pid)
  {
  }

  /** The four bodies. */
  lemma PlainBody()
    ensures Canon("resp1=r1") == "resp1=r1"
  {
    NotReserved("resp1");
    CanonOne("resp1", "r1");
    assert "resp1" + "=" + "r1" == "resp1=r1";
  }

  lemma FirstBody(pid: int)
    ensures Canon(ByPid("resp1=r1", pid)) == ByPid("resp1=r1", pid)
  {
    NotReserved("resp1");
    ByPidClean("r1", pid);
    CanonOne("resp1", ByPid("r1", pid));
    assert "resp1" + "=" == "resp1=" && "resp1=" + "r1" == "resp1=r1";
    ByPidOfLast("resp1=", "r1", pid);
  }

  lemma SecondBody(pid: int)
    ensures Canon(ByPid("resp1=r1&resp2=r2", pid)) == ByPid("resp1=r1&resp2=r2", pid)
  {
    NotReserved("resp1");
    NotReserved("resp2");
    ByPidClean("r2", pid);
    LessResp();
    CanonTwo("resp1", "r1", "resp2", ByPid("r2", pid));
    var head := Entry("resp1", "r1") + "&" + "resp2" + "=";
    ByPidOfLast(head, "r2", pid);
    SecondShape();
  }

  lemma ErrorBody(pid: int)
    ensures Canon(ByPid(ErrText(NO_FREE_SVC_HANDLER), pid)) == ByPid(ErrText(NO_FREE_SVC_HANDLER), pid)
  {
    hide Canon, CleanPart, ByPid, Less, Itoa;
    ErrParts();
    ByPidClean("Err happend!", pid);
    var n := Itoa(NO_FREE_SVC_HANDLER);
    CanonTwo("errCode", n, "resp", ByPid("Err happend!", pid));
    var head := Entry("errCode", n) + "&" + "resp" + "=";
    ByPidOfLast(head, "Err happend!", pid);
    ErrShape(n);
  }

  lemma ErrParts()
    ensures CleanPart("errCode") && CleanPart("resp") && CleanPart("Err happend!") && Less("errCode", "resp")
    ensures "errCode" !in RESERVED && "resp" !in RESERVED && CleanPart(Itoa(NO_FREE_SVC_HANDLER))
  {
    NotReserved("resp");
    NotReserved("errCode");
    ItoaPlain(NO_FREE_SVC_HANDLER);
  }

  lemma SecondShape()
    ensures Entry("resp1", "r1") + "&" + "resp2" + "=" + "r2" == "resp1=r1&resp2=r2"
  {
  }

  lemma ErrShape(n: string)
    ensures Entry("errCode", n) + "&" + "resp" + "=" + "Err happend!" == "errCode=" + n + "&resp=Err happend!"
  {
    var a, b := "errCode=" + n, "&resp=Err happend!";
    assert Entry("errCode", n) == a by { assert "errCode" + "=" == "errCode="; }
    assert "&" + "resp" + "=" + "Err happend!" == b;
    assert a + "&" + "resp" + "=" + "Err happend!" == a + ("&" + "resp" + "=" + "Err happend!");
  }

  lemma LessResp()
    ensures Less("resp1", "resp2")
  {
    assert "resp1"[1..] == "esp1" && "resp2"[1..] == "esp2";
    assert "esp1"[1..] == "sp1" && "esp2"[1..] == "sp2";
    assert "sp1"[1..] == "p1" && "sp2"[1..] == "p2";
    assert "p1"[1..] == "1" && "p2"[1..] == "2";
  }

  /** Short canonical data comes back exactly. */
  lemma ExactRoundTrip(c: Cmd)
    requires IpOk(c.sClientIp) && |c.sData| <= 700 && Canon(c.sData) == c.sData
    ensures Parsed(DEFAULT_CMD, Printed(c, BUF_SIZE)) == c
    ensures 0 < |Printed(c, BUF_SIZE)| < BUF_SIZE
  {
    HeaderShort(c);
    RoundTrip(DEFAULT_CMD, c);
    PrintedIsHeaderAndCut(c);
  }

  /** Whatever the data, only the data of a forwarded request can change. */
  lemma ReadForwarded(c: Cmd)
    requires IpOk(c.sClientIp)
    ensures var d := Parsed(DEFAULT_CMD, Printed(c, BUF_SIZE)); d == c.(sData := d.sData)
  {
    RoundTrip(DEFAULT_CMD, c);
  }

  /** A text that reads as a given command without data, as a client may send it. */
  lemma ReadHeader(c: Cmd)
    requires CleanPart(c.sClientIp) && c.sData == ""
    ensures Parsed(DEFAULT_CMD, Header(c)) == c
  {
    CanonEmpty();
    ParseBehindHeader(DEFAULT_CMD, c, "");
    assert Header(c) + "" == Header(c);
  }

  /** A text of the form that the PHP client sends: the command is the number it
      names, the other two pairs are the data, in key order, and nothing else is set. */
  lemma ReadClientText(n: int32, pid: int, i: int)
    ensures Parsed(DEFAULT_CMD, Entry("cmd", Itoa(n)) + "&" + (Entry("pid", Itoa(pid)) + "&" + Entry("i", Itoa(i)))) ==
            DEFAULT_CMD.(iCmd := n, sData := Entry("i", Itoa(i)) + "&" + Entry("pid", Itoa(pid)))
  {
    hide Itoa, Atoi, Serialise, CleanPart, PairMap, Entry;
    var m := map["cmd" := Itoa(n), "pid" := Itoa(pid), "i" := Itoa(i)];
    ClientMap(n, pid, i);
    OtherKeys();
    AtoiItoa(n);
    assert m - RESERVED == map["i" := Itoa(i), "pid" := Itoa(pid)];
    assert "ret" !in m && "type" !in m && "index" !in m && "serialno" !in m && "fd" !in m;
    assert "family" !in m && "cliIp" !in m && "cliPort" !in m;
    DataInOrder(Itoa(i), Itoa(pid));
  }

  lemma OtherKeys()
    ensures "cmd" in RESERVED && "pid" !in RESERVED && "i" !in RESERVED
  {
    var hs := HEADER_KEYS;
    assert hs[4] == "cmd";
    assert hs[0] != "pid" && hs[4] != "pid" && |hs[1]| == 4 && |hs[2]| == 5 && |hs[3]| == 8;
    assert |hs[5]| == 2 && |hs[6]| == 6 && |hs[7]| == 5 && |hs[8]| == 7 && |hs[0]| == 3 && |hs[4]| == 3;
  }

  lemma DataInOrder(v: string, w: string)
    ensures Serialise(map["i" := v, "pid" := w]) == Entry("i", v) + "&" + Entry("pid", w)
  {
    var m := map["i" := v, "pid" := w];
    assert Less("i", "pid");
    SortedPair("i", "pid");
    assert m.Keys == {"i", "pid"};
    assert ["i", "pid"][1..] == ["pid"] && ["pid"][1..] == [];
    assert Entries(["i", "pid"], m) == [Entry("i", v), Entry("pid", w)];
    JoinTwo(Entry("i", v), "pid", w);
  }

  lemma NumberClean(n: int)
    ensures CleanPart(Itoa(n))
  {
    ItoaPlain(n);
  }

  lemma ClientKeysClean()
    ensures CleanPart("cmd") && CleanPart("pid") && CleanPart("i")
  {
  }

  lemma ClientMap(n: int32, pid: int, i: int)
    ensures PairMap(Entry("cmd", Itoa(n)) + "&" + (Entry("pid", Itoa(pid)) + "&" + Entry("i", Itoa(i)))) ==
            map["cmd" := Itoa(n), "pid" := Itoa(pid), "i" := Itoa(i)]
  {
    var m := map["cmd" := Itoa(n), "pid" := Itoa(pid), "i" := Itoa(i)];
    var ks := ["cmd", "pid", "i"];
    hide CleanPart, Itoa;
    NumberClean(n);
    NumberClean(pid);
    NumberClean(i);
    ClientKeysClean();
    assert CleanMap(m);
    var es := Entries(ks, m);
    EntryAt(ks, m, 0);
    EntryAt(ks, m, 1);
    EntryAt(ks, m, 2);
    assert es == [Entry("cmd", m["cmd"]), Entry("pid", m["pid"]), Entry("i", m["i"])];
    assert es[1..] == [es[1], es[2]] && [es[1], es[2]][1..] == [es[2]];
    CollectAll(ks, m);
    EntriesFree(ks, m);
    SplitJoin(es, '&');
    assert Join([es[1], es[2]], '&') == es[1] + "&" + es[2];
  }

  lemma ReadNestedRequest(n: int32)
    ensures Parsed(DEFAULT_CMD, NestedRequest(n).sBuf) == DEFAULT_CMD.(iSvcSerialNo := n, iCmd := 2)
  {
    CanonEmpty();
    ExactRoundTrip(DEFAULT_CMD.(iSvcSerialNo := n, iCmd := 2));
  }

  lemma ReadAppAnswer(c: Cmd)
    requires IpOk(c.sClientIp) && c.sData == "resp1=r1"
    ensures Parsed(DEFAULT_CMD, AppAnswer(c).sBuf) == c.(iType := RESPONSE)
  {
    PlainBody();
    ExactRoundTrip(c.(iType := RESPONSE));
  }

  lemma ReadFinalAnswer(c: Cmd, pid: int)
    requires IpOk(c.sClientIp) && PidOk(pid)
    requires c.sData in {"resp1=r1", "resp1=r1&resp2=r2", ErrText(NO_FREE_SVC_HANDLER)}
    ensures Parsed(DEFAULT_CMD, FinalAnswer(c, pid).sBuf) == c.(sData := ByPid(c.sData, pid), iType := RESPONSE)
  {
    FirstBody(pid);
    SecondBody(pid);
    ErrorBody(pid);
    ItoaPlain(pid);
    ItoaPlain(NO_FREE_SVC_HANDLER);
    ExactRoundTrip(c.(sData := ByPid(c.sData, pid), iType := RESPONSE));
  }
}
