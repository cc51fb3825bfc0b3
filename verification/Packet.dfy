/** structQzoneCmmPrtcl and parseQzoneCmmPrtcl of netio/testClient/NetUtil.php. */
module Packet {
  import opened Text
  import opened Checksum

  const HEAD_LEN := 25

  // ---------------------------------------------------------------- numbers on the wire

  /** chr. */
  function Chr(n: int): byte { n % 256 }

  /** pack('N', n). */
  function PackN(n: int): (r: seq<byte>)
    ensures |r| == 4
  {
    var m := n % 0x1_0000_0000;
    [m / 256 / 256 / 256, m / 256 / 256 % 256, m / 256 % 256, m % 256]
  }

  /** pack('s', n) on a little-endian machine. */
  function PackS(n: int): (r: seq<byte>)
    ensures |r| == 2
  {
    var m := n % 0x1_0000;
    [m % 256, m / 256]
  }

  /** hexdec(bin2hex(s)): a big-endian number of any length. */
  function HexDec(s: seq<byte>): nat {
    if s == [] then 0 else HexDec(s[..|s| - 1]) * 256 + s[|s| - 1]
  }

  lemma HexDecOne(a: byte)
    ensures HexDec([a]) == a
  {
    assert [a][..0] == [];
  }

  lemma HexDecTwo(a: byte, b: byte)
    ensures HexDec([a, b]) == a * 256 + b
  {
    assert [a, b][..1] == [a];
    HexDecOne(a);
  }

  lemma HexDecFour(a: byte, b: byte, c: byte, d: byte)
    ensures HexDec([a, b, c, d]) == ((a * 256 + b) * 256 + c) * 256 + d
  {
    assert [a, b, c, d][..3] == [a, b, c] && [a, b, c][..2] == [a, b];
    HexDecTwo(a, b);
  }

  lemma LowByte(q: nat, b: byte)
    ensures (q * 256 + b) % 256 == b && (q * 256 + b) / 256 == q
  {
  }

  lemma HexDecPackN(n: int)
    ensures HexDec(PackN(n)) == n % 0x1_0000_0000
  {
    var r := PackN(n);
    HexDecFour(r[0], r[1], r[2], r[3]);
    hide HexDec;
    var m: nat := n % 0x1_0000_0000;
    assert r == [r[0], r[1], r[2], r[3]];
    var a: nat, b: nat, c: nat := r[0], r[1], r[2];
    assert a * 256 + b == m / 256 / 256;
    assert m / 256 / 256 * 256 + c == m / 256;
  }

  lemma PackNOf(n: nat, ab: nat, abc: nat, a: byte, b: byte, c: byte, d: byte)
    requires ab == a * 256 + b && abc == ab * 256 + c && n == abc * 256 + d
    ensures PackN(n) == [a, b, c, d] && n < 0x1_0000_0000
  {
    LowByte(a, b);
    LowByte(ab, c);
    LowByte(abc, d);
    assert n % 0x1_0000_0000 == n;
  }

  lemma PackNHexDec(s: seq<byte>)
    requires |s| == 4
    ensures PackN(HexDec(s)) == s && HexDec(s) < 0x1_0000_0000
  {
    hide PackN;
    var a: nat, b: nat, c: nat := s[0], s[1], s[2];
    HexDecFour(s[0], s[1], s[2], s[3]);
    PackNOf(HexDec([s[0], s[1], s[2], s[3]]), a * 256 + b, (a * 256 + b) * 256 + c, s[0], s[1], s[2], s[3]);
    assert s == [s[0], s[1], s[2], s[3]];
  }

  // ---------------------------------------------------------------- building

  /** The packet with a given checksum field. */
  function Layout(ver: byte, cmd: seq<byte>, checksum: seq<byte>, sn: seq<byte>, color: seq<byte>,
                  body: seq<byte>): seq<byte>
  {
    [4, ver] + cmd + checksum + sn + color + [100, 0, 0, 0] + PackN(HEAD_LEN + |body|) + body + [5]
  }

  function Unsealed(ver: int, cmd: int, body: seq<byte>, sn: int, color: int): (p: seq<byte>)
    ensures |p| == HEAD_LEN + |body|
  {
    Layout(Chr(ver), PackN(cmd), [0, 0], PackN(sn), PackN(color), body)
  }

  function Packet(ver: int, cmd: int, body: seq<byte>, chk: bool, sn: int, color: int): (p: seq<byte>)
    ensures |p| == HEAD_LEN + |body|
  {
    if chk then
      Layout(Chr(ver), PackN(cmd), PackS(65535 - OnesSum(Unsealed(ver, cmd, body, sn, color))), PackN(sn),
             PackN(color), body)
    else Unsealed(ver, cmd, body, sn, color)
  }

  method StructQzoneCmmPrtcl(ver: int32, cmd: int32, body: seq<byte>, chk: bool, sn: int32, color: int32)
    returns (pack_str: seq<byte>)
    requires chk ==> HEAD_LEN + |body| <= MAX_LEN
    ensures pack_str == Packet(ver, cmd, body, chk, sn, color)
  {
    hide OnesSum, PackN, PackS;
    var pack_str_1, pack_str_2 := [], [];
    pack_str_1 := pack_str_1 + [4];
    pack_str_1 := pack_str_1 + [Chr(ver)];
    pack_str_1 := pack_str_1 + PackN(cmd);
    pack_str_2 := pack_str_2 + PackN(sn);
    pack_str_2 := pack_str_2 + PackN(color);
    pack_str_2 := pack_str_2 + [100];
    pack_str_2 := pack_str_2 + [0, 0];
    pack_str_2 := pack_str_2 + [0];
    pack_str_2 := pack_str_2 + PackN(HEAD_LEN + |body|);
    pack_str_2 := pack_str_2 + body;
    pack_str_2 := pack_str_2 + [5];
    pack_str := pack_str_1 + [0, 0] + pack_str_2;
    LayoutOf(Chr(ver), PackN(cmd), [0, 0], PackN(sn), PackN(color), body);
    if chk {
      var sum := CheckSum(pack_str);
      pack_str := pack_str_1 + PackS(sum) + pack_str_2;
      LayoutOf(Chr(ver), PackN(cmd), PackS(sum), PackN(sn), PackN(color), body);
    }
  }

  lemma LayoutOf(ver: byte, cmd: seq<byte>, checksum: seq<byte>, sn: seq<byte>, color: seq<byte>, body: seq<byte>)
    ensures Layout(ver, cmd, checksum, sn, color, body) ==
            ([] + [4] + [ver] + cmd) + checksum
            + ([] + sn + color + [100] + [0, 0] + [0] + PackN(HEAD_LEN + |body|) + body + [5])
  {
    hide PackN;
    assert [100] + [0, 0] + [0] == [100, 0, 0, 0];
  }

  // ---------------------------------------------------------------- parsing

  datatype Fields = Fields(ver: nat, cmd: nat, checksum: nat, sn: nat, color: nat, respflag: nat, respinfo: nat,
                           packlen: nat, body: seq<byte>)

  datatype Result = Ok(pack: Fields) | Err(errCode: int)

  const EMPTY_PACKAGE := 10612
  const CHECKSUM_FAILED := 10613
  const LENGTH_MISMATCH := 10614

  /** substr, which gives what there is of the wanted range. */
  function Substr(s: seq<byte>, start: nat, len: nat): seq<byte> {
    if |s| <= start then [] else if |s| < start + len then s[start..] else s[start..start + len]
  }

  /** substr(pack_str, 24, -1). */
  function BodyOf(s: seq<byte>): seq<byte> { if |s| < HEAD_LEN then [] else s[24..|s| - 1] }

  function FieldsOf(s: seq<byte>): Fields {
    Fields(HexDec(Substr(s, 1, 1)), HexDec(Substr(s, 2, 4)), HexDec(Substr(s, 6, 2)), HexDec(Substr(s, 8, 4)),
           HexDec(Substr(s, 12, 4)), HexDec(Substr(s, 16, 1)), HexDec(Substr(s, 17, 2)), HexDec(Substr(s, 20, 4)),
           BodyOf(s))
  }

  /** A packet is taken exactly when it is not empty, its checksum is right, if
      that is asked for, and its length field is its length. */
  predicate Accepts(s: seq<byte>, chk: bool) {
    s != [] && (chk ==> Passes(s)) && HexDec(Substr(s, 20, 4)) == |s|
  }

  method ParseQzoneCmmPrtcl(pack_str: seq<byte>, chk: bool) returns (r: Result)
    requires chk ==> |pack_str| <= MAX_LEN
    ensures r.Ok? <==> Accepts(pack_str, chk)
    ensures r.Ok? ==> r.pack == FieldsOf(pack_str)
    ensures r.Err? ==> r.errCode == (if pack_str == [] then 10612
                                     else if chk && !Passes(pack_str) then 10613 else 10614)
  {
    hide OnesSum, HexDec, Substr, BodyOf;
    var pack_len := |pack_str|;
    if pack_len == 0 { return Err(EMPTY_PACKAGE); }
    if chk {
      var chksum := CheckSum(pack_str);
      if chksum != 0 && chksum != 0xffff { return Err(CHECKSUM_FAILED); }
    }
    var packlen := HexDec(Substr(pack_str, 20, 4));
    if packlen != pack_len { return Err(LENGTH_MISMATCH); }
    r := Ok(Fields(HexDec(Substr(pack_str, 1, 1)), HexDec(Substr(pack_str, 2, 4)), HexDec(Substr(pack_str, 6, 2)),
                   HexDec(Substr(pack_str, 8, 4)), HexDec(Substr(pack_str, 12, 4)), HexDec(Substr(pack_str, 16, 1)),
                   HexDec(Substr(pack_str, 17, 2)), packlen, BodyOf(pack_str)));
  }

  // ---------------------------------------------------------------- any packet

  /** Every field of every packet that is long enough, by its bytes: all numbers
      are big-endian, whoever built the packet. */
  lemma FieldBytes(s: seq<byte>)
    requires |s| >= HEAD_LEN
    ensures var f := FieldsOf(s);
            && f.ver == s[1] && f.cmd == ((s[2] as int * 256 + s[3]) * 256 + s[4]) * 256 + s[5]
            && f.checksum == s[6] as int * 256 + s[7]
            && f.sn == ((s[8] as int * 256 + s[9]) * 256 + s[10]) * 256 + s[11]
            && f.color == ((s[12] as int * 256 + s[13]) * 256 + s[14]) * 256 + s[15]
            && f.respflag == s[16] && f.respinfo == s[17] as int * 256 + s[18]
            && f.packlen == ((s[20] as int * 256 + s[21]) * 256 + s[22]) * 256 + s[23]
            && |f.body| == |s| - 25 && f.body == s[24..|s| - 1]
  {
    hide HexDec;
    OneByte(s, 1);
    FourBytes(s, 2);
    TwoBytes(s, 6);
    FourBytes(s, 8);
    FourBytes(s, 12);
    OneByte(s, 16);
    TwoBytes(s, 17);
    FourBytes(s, 20);
    hide Substr;
  }

  lemma OneByte(s: seq<byte>, i: nat)
    requires i + 1 <= |s|
    ensures HexDec(Substr(s, i, 1)) == s[i]
  {
    HexDecOne(s[i]);
    assert Substr(s, i, 1) == [s[i]];
  }

  lemma TwoBytes(s: seq<byte>, i: nat)
    requires i + 2 <= |s|
    ensures HexDec(Substr(s, i, 2)) == s[i] as int * 256 + s[i + 1]
  {
    HexDecTwo(s[i], s[i + 1]);
    assert Substr(s, i, 2) == [s[i], s[i + 1]];
  }

  lemma FourBytes(s: seq<byte>, i: nat)
    requires i + 4 <= |s|
    ensures HexDec(Substr(s, i, 4)) == ((s[i] as int * 256 + s[i + 1]) * 256 + s[i + 2]) * 256 + s[i + 3]
  {
    HexDecFour(s[i], s[i + 1], s[i + 2], s[i + 3]);
    assert Substr(s, i, 4) == [s[i], s[i + 1], s[i + 2], s[i + 3]];
  }

  /** pack('n', n), as a server packs its response information. */
  function PackShort(n: nat): (r: seq<byte>)
    requires n < 0x1_0000
  {
    [n / 256, n % 256]
  }

  /** A server's answer, with any response flag, information and reserve byte. */
  function ServerPacket(ver: byte, cmd: nat, checksum: nat, sn: nat, color: nat, flag: byte, info: nat, reserve: byte,
                        body: seq<byte>): (s: seq<byte>)
    requires checksum < 0x1_0000 && info < 0x1_0000
    ensures |s| == 25 + |body|
  {
    [4, ver] + PackN(cmd) + PackShort(checksum) + PackN(sn) + PackN(color) + [flag] + PackShort(info) + [reserve]
    + PackN(25 + |body|) + body + [5]
  }

  /** The parser takes every server's answer whose length fits its field, and finds
      each number in it. */
  lemma ServerPacketParses(ver: byte, cmd: nat, checksum: nat, sn: nat, color: nat, flag: byte, info: nat,
                           reserve: byte, body: seq<byte>, chk: bool)
    requires cmd < 0x1_0000_0000 && sn < 0x1_0000_0000 && color < 0x1_0000_0000
    requires checksum < 0x1_0000 && info < 0x1_0000
    ensures var s := ServerPacket(ver, cmd, checksum, sn, color, flag, info, reserve, body);
            && (Accepts(s, chk) <==> (chk ==> Passes(s)) && 25 + |body| < 0x1_0000_0000)
            && FieldsOf(s) == Fields(ver, cmd, checksum, sn, color, flag, info, (25 + |body|) % 0x1_0000_0000, body)
  {
    hide PackN, PackShort, HexDec, Substr, BodyOf, Passes;
    var s := ServerPacket(ver, cmd, checksum, sn, color, flag, info, reserve, body);
    HexDecShort(checksum);
    HexDecShort(info);
    ServerPlaces(ver, PackN(cmd), PackShort(checksum), PackN(sn), PackN(color), flag, PackShort(info), reserve,
                 PackN(25 + |body|), body);
    HexDecOne(ver);
    HexDecOne(flag);
    HexDecPackN(cmd);
    HexDecPackN(sn);
    HexDecPackN(color);
    HexDecPackN(25 + |body|);
  }

  /** The only packets shorter than a head that are taken have 21 to 24 bytes, the
      last of which is that number. */
  lemma ShortPackets(s: seq<byte>)
    requires |s| < 25
    ensures Accepts(s, false) <==> |s| > 20 && s[|s| - 1] == |s| && forall i | 20 <= i < |s| - 1 :: s[i] == 0
  {
    var t := Substr(s, 20, 4);
    if |s| <= 20 {
      assert t == [];
    } else {
      assert t == s[20..];
      ShortNumber(t, |s|);
    }
  }

  lemma ShortNumber(t: seq<byte>, n: nat)
    requires 0 < |t| < 5 && 20 < n < 25
    ensures HexDec(t) == n <==> t[|t| - 1] == n && forall i | 0 <= i < |t| - 1 :: t[i] == 0
  {
    if |t| == 1 {
      HexDecOne(t[0]);
      assert t == [t[0]];
    } else if |t| == 2 {
      HexDecTwo(t[0], t[1]);
      assert t == [t[0], t[1]];
    } else if |t| == 3 {
      HexDecTwo(t[0], t[1]);
      assert t[..2] == [t[0], t[1]];
    } else {
      HexDecFour(t[0], t[1], t[2], t[3]);
      assert t == [t[0], t[1], t[2], t[3]];
    }
  }

  lemma HexDecShort(n: nat)
    requires n < 0x1_0000
    ensures |PackShort(n)| == 2 && HexDec(PackShort(n)) == n
  {
    HexDecTwo(n / 256, n % 256);
  }

  lemma ServerPlaces(ver: byte, cmd: seq<byte>, checksum: seq<byte>, sn: seq<byte>, color: seq<byte>, flag: byte,
                     info: seq<byte>, reserve: byte, length: seq<byte>, body: seq<byte>)
    requires |cmd| == 4 && |checksum| == 2 && |sn| == 4 && |color| == 4 && |info| == 2 && |length| == 4
    ensures var s := [4, ver] + cmd + checksum + sn + color + [flag] + info + [reserve] + length + body + [5];
            && Substr(s, 1, 1) == [ver] && Substr(s, 2, 4) == cmd && Substr(s, 6, 2) == checksum
            && Substr(s, 8, 4) == sn && Substr(s, 12, 4) == color && Substr(s, 16, 1) == [flag]
            && Substr(s, 17, 2) == info && Substr(s, 20, 4) == length && BodyOf(s) == body
  {
  }

  // ---------------------------------------------------------------- there and back

  /** Every field of a packet stands where the parser looks for it. */
  lemma LayoutPlaces(ver: byte, cmd: seq<byte>, checksum: seq<byte>, sn: seq<byte>, color: seq<byte>, body: seq<byte>)
    requires |cmd| == 4 && |checksum| == 2 && |sn| == 4 && |color| == 4
    ensures var p := Layout(ver, cmd, checksum, sn, color, body);
            && |p| == HEAD_LEN + |body|
            && Substr(p, 1, 1) == [ver] && Substr(p, 2, 4) == cmd && Substr(p, 6, 2) == checksum
            && Substr(p, 8, 4) == sn
            && Substr(p, 12, 4) == color && Substr(p, 16, 1) == [100] && Substr(p, 17, 2) == [0, 0]
            && Substr(p, 20, 4) == PackN(HEAD_LEN + |body|) && BodyOf(p) == body
  {
    hide PackN;
  }

  /** Sealing a packet is writing the complement into its two zero bytes. */
  lemma SealedPasses(ver: int, cmd: int, body: seq<byte>, sn: int, color: int)
    ensures OnesSum(Packet(ver, cmd, body, true, sn, color)) == 65535
  {
    hide OnesSum, PackN;
    var p: seq<byte> := Unsealed(ver, cmd, body, sn, color);
    var c := 65535 - OnesSum(p);
    var lo: byte, hi: byte := c % 256, c / 256;
    assert Packet(ver, cmd, body, true, sn, color) == p[6 := lo][6 + 1 := hi];
    SealedSumsToZero(p, 6);
  }

  /** What the builder built, the parser takes, with or without checksum: the
      body comes back as it was and every number as the unsigned number that its
      field holds; the checksum with its bytes in the order of the wire. The one
      condition is that the length fits its field. With chk and more than MAX_LEN
      bytes this speaks of the exact sum; the methods compute it, and so connect to
      this lemma, only up to MAX_LEN. */
  lemma StructThenParse(ver: int, cmd: int, body: seq<byte>, chk: bool, sn: int, color: int)
    ensures var p := Packet(ver, cmd, body, chk, sn, color);
            && (Accepts(p, chk) <==> HEAD_LEN + |body| < 0x1_0000_0000)
            && var sum := if chk then Swap(65535 - OnesSum(Unsealed(ver, cmd, body, sn, color))) else 0;
               FieldsOf(p) == Fields(ver % 256, cmd % 0x1_0000_0000, sum, sn % 0x1_0000_0000,
                                     color % 0x1_0000_0000, 100, 0, (HEAD_LEN + |body|) % 0x1_0000_0000, body)
  {
    hide OnesSum, PackN, PackS, HexDec, Substr, BodyOf;
    var p := Packet(ver, cmd, body, chk, sn, color);
    var sum := if chk then PackS(65535 - OnesSum(Unsealed(ver, cmd, body, sn, color))) else [0, 0];
    LayoutPlaces(Chr(ver), PackN(cmd), sum, PackN(sn), PackN(color), body);
    if chk { SealedPasses(ver, cmd, body, sn, color); }
    HexDecOne(Chr(ver));
    HexDecOne(100);
    HexDecTwo(0, 0);
    if chk { HexDecPackS(65535 - OnesSum(Unsealed(ver, cmd, body, sn, color))); }
    HexDecPackN(cmd);
    HexDecPackN(sn);
    HexDecPackN(color);
    HexDecPackN(HEAD_LEN + |body|);
  }

  lemma HexDecPackS(n: nat)
    requires n < 0x1_0000
    ensures HexDec(PackS(n)) == Swap(n)
  {
    hide HexDec;
    assert n % 0x1_0000 == n;
    HexDecTwo(n % 256, n / 256);
  }

  /** The given numbers themselves come back exactly when they are in range. */
  lemma ExactFields(ver: int, cmd: int, body: seq<byte>, chk: bool, sn: int, color: int)
    ensures var f := FieldsOf(Packet(ver, cmd, body, chk, sn, color));
            (f.ver == ver && f.cmd == cmd && f.sn == sn && f.color == color <==>
               0 <= ver < 256 && 0 <= cmd < 0x1_0000_0000 && 0 <= sn < 0x1_0000_0000 && 0 <= color < 0x1_0000_0000)
  {
    hide Packet, FieldsOf;
    StructThenParse(ver, cmd, body, chk, sn, color);
  }

  /** The bytes that every packet has in the same place. */
  predicate Framed(s: seq<byte>) {
    |s| >= HEAD_LEN && s[0] == 4 && s[16] == 100 && s[17] == 0 && s[18] == 0 && s[19] == 0 && s[|s| - 1] == 5
  }

  lemma LayoutOfFields(s: seq<byte>)
    requires Framed(s) && HexDec(Substr(s, 20, 4)) == |s|
    ensures s == Layout(s[1], s[2..6], s[6..8], s[8..12], s[12..16], s[24..|s| - 1])
  {
    PackNHexDec(s[20..24]);
    hide PackN, HexDec;
    assert s[16..20] == [100, 0, 0, 0];
  }

  /** The packet with its checksum field cleared. */
  function Zeroed(s: seq<byte>): seq<byte>
    requires |s| >= 8
  {
    var zero: byte := 0;
    s[6 := zero][7 := zero]
  }

  lemma FieldsBack(s: seq<byte>)
    requires Framed(s) && HexDec(Substr(s, 20, 4)) == |s|
    ensures var f := FieldsOf(s);
            && Unsealed(f.ver, f.cmd, f.body, f.sn, f.color) == Zeroed(s)
            && f.checksum == s[6] as int * 256 + s[7]
            && Layout(Chr(f.ver), PackN(f.cmd), s[6..8], PackN(f.sn), PackN(f.color), f.body) == s
  {
    hide PackN, HexDec;
    var f := FieldsOf(s);
    LayoutOfFields(s);
    PackNHexDec(s[2..6]);
    PackNHexDec(s[8..12]);
    PackNHexDec(s[12..16]);
    HexDecOne(s[1]);
    assert Substr(s, 1, 1) == [s[1]];
    HexDecTwo(s[6], s[7]);
    assert s[6..8] == [s[6], s[7]];
  }

  lemma PacketIsFramed(ver: int, cmd: int, body: seq<byte>, chk: bool, sn: int, color: int)
    ensures Framed(Packet(ver, cmd, body, chk, sn, color))
  {
    hide OnesSum, PackN;
  }

  /** Parsing and building again gives an accepted packet back exactly if its six
      fixed bytes are those that the builder writes, and its checksum field is
      not 0xffff, which the builder never writes, and 0 when no checksum is asked for. */
  lemma ParseThenStruct(s: seq<byte>, chk: bool)
    requires Accepts(s, chk)
    ensures var f := FieldsOf(s);
            Packet(f.ver, f.cmd, f.body, chk, f.sn, f.color) == s <==>
            Framed(s) && f.checksum != 0xffff && (chk || f.checksum == 0)
  {
    hide Accepts, FieldsOf, Packet;
    var f := FieldsOf(s);
    PacketIsFramed(f.ver, f.cmd, f.body, chk, f.sn, f.color);
    if Framed(s) { ParseFramedThenStruct(s, chk); }
  }

  lemma ParseFramedThenStruct(s: seq<byte>, chk: bool)
    requires Framed(s) && Accepts(s, chk)
    ensures var f := FieldsOf(s);
            Packet(f.ver, f.cmd, f.body, chk, f.sn, f.color) == s <==> f.checksum != 0xffff && (chk || f.checksum == 0)
  {
    hide OnesSum, PackN, PackS, HexDec, Passes, FieldsOf, Substr, Layout;
    FieldsBack(s);
    var f, p := FieldsOf(s), Zeroed(s);
    var c := if chk then PackS(65535 - OnesSum(p)) else [0, 0];
    LayoutPlaces(Chr(f.ver), PackN(f.cmd), c, PackN(f.sn), PackN(f.color), f.body);
    LayoutPlaces(Chr(f.ver), PackN(f.cmd), s[6..8], PackN(f.sn), PackN(f.color), f.body);
    if chk { SealIsUnique(s); }
    assert s[6..8] == [s[6], s[7]];
  }

  lemma PackSWord(c: nat, lo: byte, hi: byte)
    requires c < 65536
    ensures PackS(c) == [lo, hi] <==> Word(lo, hi) == c
  {
    LowByte(hi, lo);
    assert PackS(c) == [c % 256, c / 256] && c == c / 256 * 256 + c % 256;
  }

  /** The field of a packet that passes is what the builder would write, or 0xffff. */
  lemma SealIsUnique(s: seq<byte>)
    requires |s| >= 8 && s[0] == 4 && Passes(s)
    ensures var c := 65535 - OnesSum(Zeroed(s));
            s[6..8] == PackS(c) <==> !(s[6] == 255 && s[7] == 255)
  {
    var p := Zeroed(s);
    WordReplaced(s, 6, 0, 0);
    PassesMeans(s);
    OnesSumIsResidue(p);
    assert WordSum(p) > 0 by { assert p[0] == 4; }
    hide OnesSum, WordSum, Residue, Passes, PackS;
    SealArithmetic(WordSum(s), Word(s[6], s[7]), WordSum(p), Residue(WordSum(p)));
    PackSWord(65535 - OnesSum(p), s[6], s[7]);
    assert s[6..8] == [s[6], s[7]];
  }

  lemma SealArithmetic(total: nat, v: nat, rest: nat, r: nat)
    requires total % 65535 == 0 && total == rest + v && v < 65536
    requires 0 < r < 65536 && (rest - r) % 65535 == 0
    ensures v == 65535 - r || v == 65535
    ensures v == 65535 ==> r == 65535
  {
    var k, j := total / 65535, (rest - r) / 65535;
    assert total == 65535 * k && rest == r + 65535 * j;
    assert v == 65535 * (k - j) - r;
  }
}
