/** netio/include/cmd_obj.h: the command, its printer and its parser. */
module CmdObj {
  import opened Common
  import opened Text
  import opened StrMap

  /** The values a CCmd object can hold. */
  datatype Cmd = Cmd(iIndex: int32, iSvcSerialNo: int32, iFd: int32, iCmd: int32, ifamily: int32,
                     sClientIp: string, iPort: int32, sData: string, iRet: int32, iType: int32)

  const DEFAULT_CMD := Cmd(0, 0, 0, 0, 0, "", 0, "", 0, 0)

  /** sizeof(MsgBuf_T::sBuf), that is MAX_MSG_SIZE - 8. */
  const BUF_SIZE := 1016

  const HEADER_KEYS := ["ret", "type", "index", "serialno", "cmd", "fd", "family", "cliIp", "cliPort"]
  const RESERVED := set k | k in HEADER_KEYS

  // ---------------------------------------------------------------- printing

  /** The nine field texts, in the order of HEADER_KEYS. */
  function FieldTexts(c: Cmd): (r: seq<string>)
    ensures |r| == |HEADER_KEYS|
  {
    [Itoa(c.iRet), Itoa(c.iType), Itoa(c.iIndex), Itoa(c.iSvcSerialNo), Itoa(c.iCmd), Itoa(c.iFd),
     Itoa(c.ifamily), c.sClientIp, Itoa(c.iPort)]
  }

  /** "key=value&" for every field. */
  function Fields(ks: seq<string>, vs: seq<string>): string
    requires |ks| == |vs|
  {
    if ks == [] then "" else Entry(ks[0], vs[0]) + "&" + Fields(ks[1..], vs[1..])
  }

  /** Everything ToString prints before the data. */
  function Header(c: Cmd): string { Fields(HEADER_KEYS, FieldTexts(c)) }

  function ToString(c: Cmd): string { Header(c) + c.sData }

  /** What ToString(pBuf, iLen) leaves in the buffer: snprintf cuts the text so
      that the terminator still fits. */
  function Printed(c: Cmd, iLen: nat): string
    requires iLen > 0
  {
    var s := ToString(c);
    if |s| < iLen then s else s[..iLen - 1]
  }

  // ---------------------------------------------------------------- parsing

  function IntField(m: map<string, string>, k: string, old_: int32): int32 {
    if k in m then Atoi(m[k]) else old_
  }

  /** The fields that InitCCmd finds in a map, and the rest of the map as data. */
  function FromMap(c: Cmd, m: map<string, string>): Cmd {
    Cmd(iRet := IntField(m, "ret", c.iRet), iType := IntField(m, "type", c.iType),
        iIndex := IntField(m, "index", c.iIndex), iSvcSerialNo := IntField(m, "serialno", c.iSvcSerialNo),
        iCmd := IntField(m, "cmd", c.iCmd), iFd := IntField(m, "fd", c.iFd),
        ifamily := IntField(m, "family", c.ifamily), iPort := IntField(m, "cliPort", c.iPort),
        sClientIp := if "cliIp" in m then m["cliIp"] else c.sClientIp,
        sData := Serialise(m - RESERVED))
  }

  /** What InitCCmd makes of a command and a text. */
  function Parsed(c: Cmd, text: string): Cmd { FromMap(c, PairMap(text)) }

  /** The form in which data comes out of a parse: trimmed, the first value of a
      key, no reserved key, in key order. */
  function Canon(s: string): string { Serialise(PairMap(s) - RESERVED) }

  /** An IP text as inet_ntoa gives it; in particular the header fits the buffer. */
  predicate IpOk(ip: string) { |ip| <= 15 && CleanPart(ip) }

  /** The part of the data that fits behind the header. */
  function Cut(c: Cmd, iLen: nat): string
    requires |Header(c)| < iLen
  {
    var room := iLen - 1 - |Header(c)|;
    if |c.sData| <= room then c.sData else c.sData[..room]
  }

  // ---------------------------------------------------------------- what a text says

  /** Token i is the first that is a pair with key k. */
  ghost predicate FirstPair(ts: seq<string>, k: string, i: int) {
    0 <= i < |ts| && IsPairOf(ts[i], k) && forall j | 0 <= j < i :: !IsPairOf(ts[j], k)
  }

  ghost predicate NoPair(ts: seq<string>, k: string) { forall j | 0 <= j < |ts| :: !IsPairOf(ts[j], k) }

  /** The value that a token gives, as text. */
  function ValueText(token: string): string
    requires |Split(token, '=')| == 2
  {
    Trim(Split(token, '=')[1])
  }

  /** A number comes from the first pair with its key, or stays as it was. */
  ghost predicate NumberFrom(ts: seq<string>, k: string, was: int32, is_: int32) {
    && (forall i | FirstPair(ts, k, i) :: |Split(ts[i], '=')| == 2 && is_ == Atoi(ValueText(ts[i])))
    && (NoPair(ts, k) ==> is_ == was)
  }

  ghost predicate TextFrom(ts: seq<string>, k: string, was: string, is_: string) {
    && (forall i | FirstPair(ts, k, i) :: |Split(ts[i], '=')| == 2 && is_ == ValueText(ts[i]))
    && (NoPair(ts, k) ==> is_ == was)
  }

  lemma PairMapAt(text: string, k: string)
    ensures var ts, m := Split(text, '&'), PairMap(text);
            && (k in m <==> !NoPair(ts, k))
            && forall i | FirstPair(ts, k, i) :: |Split(ts[i], '=')| == 2 && k in m && m[k] == ValueText(ts[i])
  {
    hide IsPairOf, Split, Trim;
    FirstWins(Split(text, '&'), map[], k);
  }

  lemma NumberIs(text: string, k: string, was: int32)
    ensures NumberFrom(Split(text, '&'), k, was, IntField(PairMap(text), k, was))
  {
    hide PairMap, IsPairOf, Split, ValueText, FirstPair, NoPair;
    PairMapAt(text, k);
    assert forall i | FirstPair(Split(text, '&'), k, i) :: k in PairMap(text);
  }

  /** Main result: every field of every text, complete or not. Each number is read
      from the first token that is a pair with its key, the address is that text
      itself, and a field without such a token stays as it was. */
  lemma FieldsOfText(c: Cmd, text: string)
    ensures var ts, p := Split(text, '&'), Parsed(c, text);
            && NumberFrom(ts, "ret", c.iRet, p.iRet) && NumberFrom(ts, "type", c.iType, p.iType)
            && NumberFrom(ts, "cmd", c.iCmd, p.iCmd) && NumberFrom(ts, "fd", c.iFd, p.iFd)
            && NumberFrom(ts, "index", c.iIndex, p.iIndex) && NumberFrom(ts, "serialno", c.iSvcSerialNo, p.iSvcSerialNo)
            && NumberFrom(ts, "family", c.ifamily, p.ifamily) && NumberFrom(ts, "cliPort", c.iPort, p.iPort)
            && TextFrom(ts, "cliIp", c.sClientIp, p.sClientIp)
  {
    hide PairMap, Split, NumberFrom, FirstPair, NoPair, IntField, Serialise, ValueText;
    NumberIs(text, "ret", c.iRet);
    NumberIs(text, "type", c.iType);
    NumberIs(text, "cmd", c.iCmd);
    NumberIs(text, "fd", c.iFd);
    NumberIs(text, "index", c.iIndex);
    NumberIs(text, "serialno", c.iSvcSerialNo);
    NumberIs(text, "family", c.ifamily);
    NumberIs(text, "cliPort", c.iPort);
    PairMapAt(text, "cliIp");
  }

  /** The rest of every text becomes the data: all pairs but those of the nine keys. */
  lemma DataOfText(c: Cmd, text: string)
    ensures PairMap(Parsed(c, text).sData) ==
            PairMap(text) - {"ret", "type", "index", "serialno", "cmd", "fd", "family", "cliIp", "cliPort"}
    ensures Parsed(c, text).sData == Canon(text)
  {
    CanonMeaning(text);
    ReservedKeys();
    hide PairMap, RESERVED;
  }

  lemma ReservedKeys()
    ensures RESERVED == {"ret", "type", "index", "serialno", "cmd", "fd", "family", "cliIp", "cliPort"}
  {
    var hs := HEADER_KEYS;
    assert forall k :: k in hs <==> k == hs[0] || k == hs[1] || k == hs[2] || k == hs[3] || k == hs[4]
                                    || k == hs[5] || k == hs[6] || k == hs[7] || k == hs[8];
  }

  lemma {:induction false} FieldsJoin(ks: seq<string>, vs: seq<string>, es: seq<string>, tail: string)
    requires |ks| == |vs| == |es| && forall i | 0 <= i < |ks| :: es[i] == Entry(ks[i], vs[i])
    ensures Fields(ks, vs) + tail == Join(es + [tail], '&')
  {
    if ks != [] {
      FieldsJoin(ks[1..], vs[1..], es[1..], tail);
      assert (es + [tail])[1..] == es[1..] + [tail];
      assert Fields(ks, vs) + tail == es[0] + "&" + (Fields(ks[1..], vs[1..]) + tail);
    }
  }

  /** What ToString prints: the nine entries in this order, and the data. */
  lemma PrintedText(c: Cmd)
    ensures ToString(c) ==
            Join([Entry("ret", Itoa(c.iRet)), Entry("type", Itoa(c.iType)), Entry("index", Itoa(c.iIndex)),
                  Entry("serialno", Itoa(c.iSvcSerialNo)), Entry("cmd", Itoa(c.iCmd)), Entry("fd", Itoa(c.iFd)),
                  Entry("family", Itoa(c.ifamily)), Entry("cliIp", c.sClientIp), Entry("cliPort", Itoa(c.iPort)),
                  c.sData], '&')
  {
    hide Fields, Itoa, Join, Entry;
    var ks, vs := HEADER_KEYS, FieldTexts(c);
    var es := [Entry("ret", vs[0]), Entry("type", vs[1]), Entry("index", vs[2]), Entry("serialno", vs[3]),
               Entry("cmd", vs[4]), Entry("fd", vs[5]), Entry("family", vs[6]), Entry("cliIp", vs[7]),
               Entry("cliPort", vs[8])];
    FieldsJoin(ks, vs, es, c.sData);
    assert es + [c.sData] == [es[0], es[1], es[2], es[3], es[4], es[5], es[6], es[7], es[8], c.sData];
  }

  // ---------------------------------------------------------------- round trip

  function HeaderMap(c: Cmd): map<string, string> { Zip(HEADER_KEYS, FieldTexts(c)) }

  /** Length and first character tell the nine keys apart. */
  lemma KeysDiffer()
    ensures NoRepeats(HEADER_KEYS)
  {
    var ks := HEADER_KEYS;
    assert |ks[0]| == 3 && ks[0][0] == 'r';
    assert |ks[1]| == 4;
    assert |ks[2]| == 5 && ks[2][0] == 'i';
    assert |ks[3]| == 8;
    assert |ks[4]| == 3 && ks[4][0] == 'c';
    assert |ks[5]| == 2;
    assert |ks[6]| == 6;
    assert |ks[7]| == 5 && ks[7][0] == 'c';
    assert |ks[8]| == 7;
  }

  lemma KeysClean()
    ensures forall k | k in HEADER_KEYS :: CleanPart(k)
  {
  }

  lemma FieldTextsClean(c: Cmd)
    requires CleanPart(c.sClientIp)
    ensures forall v | v in FieldTexts(c) :: CleanPart(v)
  {
    forall n ensures CleanPart(Itoa(n)) { ItoaPlain(n); }
  }

  lemma HeaderMapClean(c: Cmd)
    requires CleanPart(c.sClientIp)
    ensures CleanMap(HeaderMap(c)) && HeaderMap(c).Keys == RESERVED
  {
    KeysClean();
    FieldTextsClean(c);
    ZipKeys(HEADER_KEYS, FieldTexts(c));
  }

  lemma {:induction false} FieldsAreEntries(ks: seq<string>, vs: seq<string>, m: map<string, string>)
    requires |ks| == |vs| && ks != []
    requires forall i | 0 <= i < |ks| :: ks[i] in m && m[ks[i]] == vs[i]
    ensures Fields(ks, vs) == Join(Entries(ks, m), '&') + "&"
  {
    var es := Entries(ks, m);
    assert es[1..] == Entries(ks[1..], m);
    if |ks| > 1 {
      FieldsAreEntries(ks[1..], vs[1..], m);
    }
  }

  lemma {:induction false} FieldsLength(ks: seq<string>, vs: seq<string>)
    requires |ks| == |vs|
    requires forall k | k in ks :: |k| <= 8
    requires forall v | v in vs :: |v| <= 15
    ensures |Fields(ks, vs)| <= |ks| * 25
  {
    if ks != [] { FieldsLength(ks[1..], vs[1..]); }
  }

  lemma KeysShort()
    ensures forall k | k in HEADER_KEYS :: |k| <= 8
  {
  }

  lemma FieldTextsShort(c: Cmd)
    requires |c.sClientIp| <= 15
    ensures forall v | v in FieldTexts(c) :: |v| <= 15
  {
    forall n: int32 ensures |Itoa(n)| <= 11 { ItoaPlain(n); }
  }

  lemma HeaderShort(c: Cmd)
    requires |c.sClientIp| <= 15
    ensures |Header(c)| <= 225
  {
    KeysShort();
    FieldTextsShort(c);
    FieldsLength(HEADER_KEYS, FieldTexts(c));
  }

  /** Behind a header any text is tokenised on its own, and cannot touch the
      nine keys of the header. */
  lemma HeaderFirst(c: Cmd, tail: string)
    requires CleanPart(c.sClientIp)
    ensures var m := PairMap(Header(c) + tail);
            (forall i | 0 <= i < |HEADER_KEYS| :: HEADER_KEYS[i] in m && m[HEADER_KEYS[i]] == FieldTexts(c)[i])
            && m - RESERVED == PairMap(tail) - RESERVED
  {
    var ks, vs := HEADER_KEYS, FieldTexts(c);
    var h := Zip(ks, vs);
    KeysDiffer();
    HeaderMapClean(c);
    forall i | 0 <= i < |ks| ensures ks[i] in h && h[ks[i]] == vs[i] { ZipAt(ks, vs, i); }
    FieldsAreEntries(ks, vs, h);
    BehindEntries(ks, h, tail);
  }

  lemma FromMapBack(d: Cmd, c: Cmd, m: map<string, string>)
    requires forall i | 0 <= i < |HEADER_KEYS| :: HEADER_KEYS[i] in m && m[HEADER_KEYS[i]] == FieldTexts(c)[i]
    ensures FromMap(d, m) == c.(sData := Serialise(m - RESERVED))
  {
    forall n: int32 ensures Atoi(Itoa(n)) == n { AtoiItoa(n); }
    var ks := HEADER_KEYS;
    assert ks[0] in m && ks[1] in m && ks[2] in m && ks[3] in m && ks[4] in m && ks[5] in m && ks[6] in m
        && ks[7] in m && ks[8] in m;
  }

  /** The nine header fields of every command come back, whatever follows. */
  lemma ParseBehindHeader(d: Cmd, c: Cmd, tail: string)
    requires CleanPart(c.sClientIp)
    ensures Parsed(d, Header(c) + tail) == c.(sData := Canon(tail))
  {
    HeaderFirst(c, tail);
    FromMapBack(d, c, PairMap(Header(c) + tail));
  }

  /** The printed text always holds the whole header and as much data as fits. */
  lemma PrintedIsHeaderAndCut(c: Cmd)
    requires |c.sClientIp| <= 15
    ensures |Header(c)| < BUF_SIZE
    ensures Printed(c, BUF_SIZE) == Header(c) + Cut(c, BUF_SIZE)
    ensures 0 < |Printed(c, BUF_SIZE)| < BUF_SIZE
  {
    HeaderShort(c);
  }

  /** snprintf cuts the text at 1015 characters. */
  lemma PrintedLength(c: Cmd)
    ensures Printed(c, BUF_SIZE) <= ToString(c)
    ensures |Printed(c, BUF_SIZE)| == if |ToString(c)| <= 1015 then |ToString(c)| else 1015
  {
  }

  /** Main result: printing into a message buffer and parsing into any command
      restores all nine header fields of every command, even when the data
      repeats reserved keys and even when the buffer cuts it; the data comes
      back in canonical form. */
  lemma RoundTrip(d: Cmd, c: Cmd)
    requires IpOk(c.sClientIp)
    ensures |Header(c)| < BUF_SIZE
    ensures Parsed(d, Printed(c, BUF_SIZE)) == c.(sData := Canon(Cut(c, BUF_SIZE)))
    ensures |ToString(c)| < BUF_SIZE ==> Parsed(d, Printed(c, BUF_SIZE)) == c.(sData := Canon(c.sData))
  {
    PrintedIsHeaderAndCut(c);
    ParseBehindHeader(d, c, Cut(c, BUF_SIZE));
  }

  /** Canonical data means what the data meant, without the reserved keys. */
  lemma CanonMeaning(s: string)
    ensures PairMap(Canon(s)) == PairMap(s) - RESERVED
    ensures Canon(Canon(s)) == Canon(s)
    ensures |Canon(s)| <= |s|
  {
    PairMapClean(s);
    PairMapSerialise(PairMap(s) - RESERVED);
    assert PairMap(s) - RESERVED - RESERVED == PairMap(s) - RESERVED;
    SerialiseShorter(s, RESERVED);
  }

  /** Printing and parsing a second time changes nothing, for every command. */
  lemma RoundTripTwice(d: Cmd, e: Cmd, c: Cmd)
    requires IpOk(c.sClientIp)
    ensures var once := Parsed(d, Printed(c, BUF_SIZE));
            Parsed(e, Printed(once, BUF_SIZE)) == once
  {
    RoundTrip(d, c);
    var once := Parsed(d, Printed(c, BUF_SIZE));
    CanonMeaning(Cut(c, BUF_SIZE));
    assert Header(once) == Header(c);
    RoundTrip(e, once);
  }

  /** A text of exactly these entries is canonical. */
  lemma CanonOfEntries(m: map<string, string>)
    requires CleanMap(m) && m.Keys !! RESERVED
    ensures Canon(Serialise(m)) == Serialise(m)
  {
    PairMapSerialise(m);
    assert m - RESERVED == m;
  }

  // ---------------------------------------------------------------- the object

  class CCmd {
    var iIndex: int32
    var iSvcSerialNo: int32
    var iFd: int32
    var iCmd: int32
    var ifamily: int32
    var sClientIp: string
    var iPort: int32
    var sData: string
    var iRet: int32
    var iType: int32

    ghost function Val(): Cmd
      reads this
    {
      Cmd(iIndex, iSvcSerialNo, iFd, iCmd, ifamily, sClientIp, iPort, sData, iRet, iType)
    }

    constructor ()
      ensures Val() == DEFAULT_CMD
    {
      iIndex, iSvcSerialNo, iFd, iCmd, ifamily := 0, 0, 0, 0, 0;
      sClientIp, sData := "", "";
      iPort, iRet, iType := 0, 0, 0;
    }

    /** Member-wise copy, `*this = c`. */
    method Assign(c: Cmd)
      modifies this
      ensures Val() == c
    {
      iIndex, iSvcSerialNo, iFd, iCmd, ifamily := c.iIndex, c.iSvcSerialNo, c.iFd, c.iCmd, c.ifamily;
      sClientIp, sData := c.sClientIp, c.sData;
      iPort, iRet, iType := c.iPort, c.iRet, c.iType;
    }

    method Copy() returns (c: Cmd)
      ensures c == Val()
    {
      c := Cmd(iIndex, iSvcSerialNo, iFd, iCmd, ifamily, sClientIp, iPort, sData, iRet, iType);
    }

    method InitCCmd(pBuf: string)
      modifies this
      ensures Val() == Parsed(old(Val()), pBuf)
    {
      var mapPara := StrPairAppendToMap(pBuf, map[]);
      ghost var m := mapPara;
      ghost var ks := EraseOrder();
      mapPara := InitNumbers(mapPara, ks);
      WithoutStep(m, ks, 8);
      if "cliIp" in mapPara {
        sClientIp := mapPara["cliIp"];
        mapPara := mapPara - {"cliIp"};
      }
      assert mapPara == m - RESERVED;
      sData := PrintMap(mapPara);
    }

    /** The eight blocks of InitCCmd that read numbers. */
    method InitNumbers(m: map<string, string>, ghost ks: seq<string>) returns (mapPara: map<string, string>)
      requires IsEraseOrder(ks)
      modifies this`iRet, this`iType, this`iCmd, this`iFd, this`iIndex, this`iSvcSerialNo, this`ifamily, this`iPort
      ensures iRet == IntField(m, "ret", old(iRet)) && iType == IntField(m, "type", old(iType))
      ensures iCmd == IntField(m, "cmd", old(iCmd)) && iFd == IntField(m, "fd", old(iFd))
      ensures iIndex == IntField(m, "index", old(iIndex)) && iSvcSerialNo == IntField(m, "serialno", old(iSvcSerialNo))
      ensures ifamily == IntField(m, "family", old(ifamily)) && iPort == IntField(m, "cliPort", old(iPort))
      ensures mapPara == Without(m, ks, 8)
    {
      assert m == Without(m, ks, 0);
      iRet, mapPara := TakeInt(m, "ret", iRet, m, ks, 0);
      iType, mapPara := TakeInt(mapPara, "type", iType, m, ks, 1);
      iCmd, mapPara := TakeInt(mapPara, "cmd", iCmd, m, ks, 2);
      iFd, mapPara := TakeInt(mapPara, "fd", iFd, m, ks, 3);
      iIndex, mapPara := TakeInt(mapPara, "index", iIndex, m, ks, 4);
      iSvcSerialNo, mapPara := TakeInt(mapPara, "serialno", iSvcSerialNo, m, ks, 5);
      ifamily, mapPara := TakeInt(mapPara, "family", ifamily, m, ks, 6);
      iPort, mapPara := TakeInt(mapPara, "cliPort", iPort, m, ks, 7);
    }
  }

  /** The order in which InitCCmd looks the nine keys up and erases them. */
  ghost predicate IsEraseOrder(ks: seq<string>) {
    && |ks| == 9 && NoRepeats(ks)
    && ks[0] == "ret" && ks[1] == "type" && ks[2] == "cmd" && ks[3] == "fd" && ks[4] == "index"
    && ks[5] == "serialno" && ks[6] == "family" && ks[7] == "cliPort" && ks[8] == "cliIp"
    && (set k | k in ks) == RESERVED
  }

  lemma EraseOrder() returns (ks: seq<string>)
    ensures IsEraseOrder(ks)
  {
    var hs := HEADER_KEYS;
    KeysDiffer();
    ks := [hs[0], hs[1], hs[4], hs[5], hs[2], hs[3], hs[6], hs[8], hs[7]];
    assert forall k :: k in ks <==> k in hs;
  }

  /** What is left of m when the first n of those keys are erased. */
  ghost function Without(m: map<string, string>, ks: seq<string>, n: nat): map<string, string>
    requires n <= |ks|
  {
    m - (set k | k in ks[..n])
  }

  lemma WithoutStep(m: map<string, string>, ks: seq<string>, n: nat)
    requires NoRepeats(ks) && n < |ks|
    ensures var k := ks[n];
            (k in Without(m, ks, n) <==> k in m) && (k in m ==> Without(m, ks, n)[k] == m[k])
            && Without(m, ks, n + 1) == Without(m, ks, n) - {k}
  {
    assert forall j :: j in ks[..n + 1] <==> j in ks[..n] || j == ks[n];
    assert ks[n] !in ks[..n];
  }

  /** The step that InitCCmd repeats for every number: read the entry, if there
      is one, and erase it. */
  method TakeInt(mapPara: map<string, string>, key: string, iOld: int32,
                 ghost m: map<string, string>, ghost ks: seq<string>, ghost n: nat)
    returns (iData: int32, rest: map<string, string>)
    requires NoRepeats(ks) && n < |ks| && key == ks[n] && mapPara == Without(m, ks, n)
    ensures iData == IntField(m, key, iOld)
    ensures rest == Without(m, ks, n + 1)
  {
    WithoutStep(m, ks, n);
    iData, rest := iOld, mapPara;
    if key in mapPara {
      iData := Atoi(mapPara[key]);
      rest := mapPara - {key};
    }
  }

  /** The loop at the end of InitCCmd: '&' before every entry but the first. */
  method PrintMap(mapPara: map<string, string>) returns (ss: string)
    ensures ss == Serialise(mapPara)
  {
    ss := "";
    var ks := SortedKeys(mapPara.Keys);
    for it := 0 to |ks|
      invariant ss == Join(Entries(ks[..it], mapPara), '&')
    {
      if it > 0 {
        ss := ss + "&";
      }
      ss := ss + (ks[it] + "=" + mapPara[ks[it]]);
      EntriesSnoc(ks[..it], ks[it], mapPara);
      assert ks[..it + 1] == ks[..it] + [ks[it]];
    }
    assert ks[..|ks|] == ks;
  }

  lemma {:induction false} EntriesAppend(ks: seq<string>, k: string, m: map<string, string>)
    requires k in m && forall j | j in ks :: j in m
    ensures Entries(ks + [k], m) == Entries(ks, m) + [Entry(k, m[k])]
  {
    if ks != [] {
      assert (ks + [k])[1..] == ks[1..] + [k];
      EntriesAppend(ks[1..], k, m);
    }
  }

  lemma EntriesSnoc(ks: seq<string>, k: string, m: map<string, string>)
    requires k in m && forall j | j in ks :: j in m
    ensures Join(Entries(ks + [k], m), '&') ==
            (if ks == [] then "" else Join(Entries(ks, m), '&') + "&") + Entry(k, m[k])
  {
    EntriesAppend(ks, k, m);
    if ks != [] { JoinConcat(Entries(ks, m), [Entry(k, m[k])], '&'); }
  }
}
