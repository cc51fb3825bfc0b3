/** tcpSocketWrite and tcpSocketRead of netio/testClient/NetUtil.php: messages
    behind an 8-byte length, over a stream that is cut anywhere. */
module Framing {
  import opened Common
  import opened Text

  const READ_FAILED := 10102
  const WRITE_FAILED := 10103
  const BAD_BAG := 10104
  const BAG_TOO_BIG := 10105

  // ---------------------------------------------------------------- the header

  /** The characters that PHP's trim removes. */
  predicate IsTrimmed(c: char) {
    c == ' ' || c == '\t' || c == '\n' || c == '\r' || c == '\0' || c == '\U{0B}'
  }

  function Rtrim(s: string): string {
    if s != "" && IsTrimmed(s[|s| - 1]) then Rtrim(s[..|s| - 1]) else s
  }

  function Ltrim(s: string): string {
    if s != "" && IsTrimmed(s[0]) then Ltrim(s[1..]) else s
  }

  function PhpTrim(s: string): string { Ltrim(Rtrim(s)) }

  /** str_pad(s, 8, ' ', STR_PAD_RIGHT): a longer text stays as it is. */
  function Pad(s: string): (r: string)
    ensures |r| >= 8
    decreases 8 - |s|
  {
    if |s| >= 8 then s else Pad(s + " ")
  }

  /** is_numeric and the value of a numeric string, as far as the reader relies
      on them: other spellings than plain decimals may have any value or none. */
  ghost predicate ReadsDecimals(num: string -> Option<real>) {
    forall n: nat :: num(Digits(n)) == Some(n as real)
  }

  lemma {:induction false} RtrimPad(s: string)
    ensures Rtrim(Pad(s)) == Rtrim(s)
    decreases 8 - |s|
  {
    if |s| < 8 {
      RtrimPad(s + " ");
      assert (s + " ")[..|s|] == s;
    }
  }

  lemma TrimDigits(n: nat)
    ensures PhpTrim(Digits(n)) == Digits(n)
    ensures PhpTrim(Pad(Digits(n))) == Digits(n)
  {
    DigitsValue(n);
    var ds := Digits(n);
    assert IsDigit(ds[0]) && IsDigit(ds[|ds| - 1]);
    RtrimPad(ds);
  }

  /** A number of more than eight digits is misread as a smaller one. */
  lemma {:induction false} FirstEightDigits(n: nat) returns (k: nat)
    requires |Digits(n)| > 8
    ensures Digits(n)[..8] == Digits(k) && k < n
  {
    if |Digits(n / 10)| == 8 {
      k := n / 10;
    } else {
      k := FirstEightDigits(n / 10);
    }
  }

  /** The six characters that PHP's trim takes off, by their codes. */
  lemma PhpWhiteSpace(c: char)
    ensures PhpTrim([c]) == "" <==> c as int in {0, 9, 10, 11, 13, 32}
  {
    assert [c][..0] == "" && [c][1..] == "" && |[c]| == 1;
    assert Rtrim("") == "" && Ltrim("") == "";
    assert Rtrim([c]) == if IsTrimmed(c) then "" else [c];
    assert Ltrim([c]) == if IsTrimmed(c) then "" else [c];
  }

  /** trim takes such characters off both ends and nothing else. */
  lemma {:induction false} PhpTrimMeaning(a: string, t: string, b: string)
    requires forall c | c in a || c in b :: IsTrimmed(c)
    requires t != "" ==> !IsTrimmed(t[0]) && !IsTrimmed(t[|t| - 1])
    ensures PhpTrim(a + t + b) == t
  {
    RtrimTakes(a + t, b);
    assert a + t + b == (a + t) + b;
    if t != "" {
      assert (a + t)[|a + t| - 1] == t[|t| - 1];
      LtrimTakes(a, t);
      assert Ltrim(t) == t;
    } else {
      assert a + t == a && "" + a == a;
      RtrimTakes("", a);
    }
  }

  lemma {:induction false} RtrimTakes(s: string, b: string)
    requires forall c | c in b :: IsTrimmed(c)
    ensures Rtrim(s + b) == Rtrim(s)
  {
    if b == "" {
      assert s + b == s;
    } else {
      assert (s + b)[|s + b| - 1] == b[|b| - 1];
      assert (s + b)[..|s + b| - 1] == s + b[..|b| - 1];
      RtrimTakes(s, b[..|b| - 1]);
    }
  }

  lemma {:induction false} LtrimTakes(a: string, t: string)
    requires forall c | c in a :: IsTrimmed(c)
    ensures Ltrim(a + t) == Ltrim(t)
  {
    if a == "" {
      assert a + t == t;
    } else {
      assert (a + t)[1..] == a[1..] + t;
      LtrimTakes(a[1..], t);
    }
  }

  /** Blanks are added on the right. */
  lemma {:induction false} PadShape(s: string)
    requires |s| <= 8
    ensures |Pad(s)| == 8 && s <= Pad(s) && forall i | |s| <= i < 8 :: Pad(s)[i] == ' '
    decreases 8 - |s|
  {
    if |s| < 8 { PadShape(s + " "); }
  }

  lemma {:induction false} PadLong(s: string)
    requires |s| > 8
    ensures Pad(s) == s
  {
  }

  lemma EightDigits(n: nat)
    ensures |Digits(n)| <= 8 <==> n < 100000000
  {
    DigitsLength(n, 8);
    assert Pow10(4) == 10000;
    assert Pow10(8) == 100000000;
  }

  // ---------------------------------------------------------------- the socket

  /** What the kernel does with one write, and with one read; a script that has
      ended stands for a call that fails. */
  datatype Outcome = WriteFails | Takes(k: nat)
  datatype Chunk = ReadFails | Data(s: string)

  class Socket {
    var accepted: string
    var outcomes: seq<Outcome>
    var chunks: seq<Chunk>

    /** At most len characters of buf are taken. */
    method Write(buf: string, len: nat) returns (n: Option<nat>)
      requires len <= |buf|
      modifies this`accepted, this`outcomes
      ensures var os := old(outcomes);
              if os == [] || os[0].WriteFails? then n == None && accepted == old(accepted)
              else n == Some(if os[0].k < len then os[0].k else len) && accepted == old(accepted) + buf[..n.value]
      ensures old(outcomes) != [] ==> outcomes == old(outcomes)[1..]
      ensures old(outcomes) == [] ==> outcomes == []
    {
      if outcomes == [] { return None; }
      var o := outcomes[0];
      outcomes := outcomes[1..];
      if o.WriteFails? { return None; }
      var k := if o.k < len then o.k else len;
      accepted := accepted + buf[..k];
      n := Some(k);
    }

    method Read() returns (c: Chunk)
      modifies this`chunks
      ensures c == if old(chunks) == [] then ReadFails else old(chunks)[0]
      ensures chunks == if old(chunks) == [] then [] else old(chunks)[1..]
    {
      if chunks == [] { return ReadFails; }
      c := chunks[0];
      chunks := chunks[1..];
    }
  }

  // ---------------------------------------------------------------- writing

  /** The stream of one message: as many characters as the message has, and eight. */
  function Sent(message: string): (r: string)
    ensures |r| == |message| + 8
  {
    (Pad(Itoa(|message|)) + message)[..|message| + 8]
  }

  /** Whether the kernel takes `todo` characters before a write fails. */
  predicate Enough(os: seq<Outcome>, todo: nat) {
    || todo == 0
    || (os != [] && os[0].Takes? && Enough(os[1..], if os[0].k < todo then todo - os[0].k else 0))
  }

  method TcpSocketWrite(socket: Socket, message: string) returns (r: bool, errCode: int)
    modifies socket`accepted, socket`outcomes
    ensures r <==> Enough(old(socket.outcomes), |message| + 8)
    ensures r ==> socket.accepted == old(socket.accepted) + Sent(message) && errCode == 0
    ensures !r ==> errCode == WRITE_FAILED
    ensures !r ==> exists n: nat :: n < |message| + 8 && socket.accepted == old(socket.accepted) + Sent(message)[..n]
  {
    hide Itoa, Enough;
    errCode := 0;
    var len := |message|;
    var padStr := Pad(Itoa(len));
    var text := padStr + message;
    len := len + 8;
    ghost var before, os, stream := socket.accepted, socket.outcomes, Sent(message);
    assert |text| >= len && stream == text[..len];
    EnoughStep(os, len);
    var first := socket.Write(text, len);
    if first == None {
      assert socket.accepted == before + stream[..0];
      return false, WRITE_FAILED;
    }
    var n: nat := first.value;
    assert n <= len && text[..n] == stream[..n];
    while n < len
      invariant n <= len <= |text|
      invariant socket.accepted == before + stream[..n]
      invariant Enough(os, len) <==> Enough(socket.outcomes, len - n)
      decreases |socket.outcomes| + (if n < len then 1 else 0)
    {
      var tmp := text[n..];
      EnoughStep(socket.outcomes, len - n);
      var tmp_n := socket.Write(tmp, len - n);
      if tmp_n == None { return false, WRITE_FAILED; }
      assert stream[..n] + tmp[..tmp_n.value] == stream[..n + tmp_n.value];
      n := n + tmp_n.value;
    }
    EnoughStep(socket.outcomes, 0);
    assert stream[..len] == stream;
    return n == len, errCode;
  }

  lemma EnoughStep(os: seq<Outcome>, todo: nat)
    ensures todo == 0 ==> Enough(os, todo)
    ensures todo > 0 ==>
              (Enough(os, todo) <==>
               os != [] && os[0].Takes? && Enough(os[1..], todo - (if os[0].k < todo then os[0].k else todo)))
  {
  }

  predicate AllTake(os: seq<Outcome>) { forall o | o in os :: o.Takes? }

  function Taken(os: seq<Outcome>): nat
    requires AllTake(os)
  {
    if os == [] then 0
    else
      assert os[0].Takes?;
      os[0].k + Taken(os[1..])
  }

  /** Some writes from the front all succeed and can take as much as there is. */
  ghost predicate TakesBy(os: seq<Outcome>, todo: nat, k: nat) {
    k <= |os| && AllTake(os[..k]) && Taken(os[..k]) >= todo
  }

  lemma {:induction false} EnoughMeaning(os: seq<Outcome>, todo: nat)
    ensures Enough(os, todo) <==> exists k: nat :: TakesBy(os, todo, k)
  {
    if todo == 0 {
      assert TakesBy(os, 0, 0);
    } else if os != [] && os[0].Takes? {
      var less := if os[0].k < todo then todo - os[0].k else 0;
      EnoughMeaning(os[1..], less);
      forall k: nat | k < |os| ensures TakesBy(os, todo, k + 1) <==> TakesBy(os[1..], less, k) {
        TakesStep(os, todo, k);
      }
      if k: nat :| TakesBy(os, todo, k) { assert k > 0 && TakesBy(os[1..], less, k - 1); }
      if k: nat :| TakesBy(os[1..], less, k) { assert TakesBy(os, todo, k + 1); }
    } else {
      assert forall k: nat | 0 < k <= |os| :: os[..k][0] in os[..k] && os[..k][0] == os[0];
    }
  }

  lemma TakesStep(os: seq<Outcome>, todo: nat, k: nat)
    requires os != [] && os[0].Takes? && k < |os|
    ensures TakesBy(os, todo, k + 1) <==> TakesBy(os[1..], if os[0].k < todo then todo - os[0].k else 0, k)
  {
    var front := os[..k + 1];
    assert front[1..] == os[1..][..k];
    assert forall o :: o in front <==> o == os[0] || o in front[1..];
  }

  /** A kernel that takes something each time lets the writer finish. */
  lemma {:induction false} ProgressIsEnough(os: seq<Outcome>, todo: nat)
    requires |os| >= todo && forall o | o in os :: o.Takes? && o.k > 0
    ensures Enough(os, todo)
  {
    if todo > 0 {
      assert os[0] in os;
      ProgressIsEnough(os[1..], if os[0].k < todo then todo - os[0].k else 0);
    }
  }

  // ---------------------------------------------------------------- reading

  datatype ReadResult = Message(s: string) | Failed(errCode: int)

  /** The loop, with `message` so far and `len` wanted. */
  function Gather(message: string, len: real, chunks: seq<Chunk>): ReadResult
    decreases |chunks|
  {
    if |message| as real >= len then
      if |message| as real != len then Failed(BAG_TOO_BIG) else Message(message)
    else if chunks == [] || chunks[0].ReadFails? then Failed(READ_FAILED)
    else Gather(message + chunks[0].s, len, chunks[1..])
  }

  /** What the reader makes of a first piece of at least eight characters. In
      PHP 5, substr of an exactly eight characters long string from 8 is false. */
  function FromHeader(str: string, chunks: seq<Chunk>, maxLength: int, num: string -> Option<real>): ReadResult
    requires |str| >= 8
  {
    var len := num(PhpTrim(str[..8]));
    if len == None then Failed(BAD_BAG)
    else if len.value > maxLength as real then Failed(BAG_TOO_BIG)
    else
      var message := str[8..];
      if |message| as real == len.value then (if message == "" then Failed(0) else Message(message))
      else if |message| as real > len.value then Failed(BAD_BAG)
      else Gather(message, len.value, chunks)
  }

  function Received(chunks: seq<Chunk>, maxLength: int, num: string -> Option<real>): ReadResult {
    if chunks == [] || chunks[0].ReadFails? || |chunks[0].s| < 8 then Failed(READ_FAILED)
    else FromHeader(chunks[0].s, chunks[1..], maxLength, num)
  }

  method TcpSocketRead(socket: Socket, maxLength: int, num: string -> Option<real>) returns (r: ReadResult)
    modifies socket`chunks
    ensures r == Received(old(socket.chunks), maxLength, num)
    ensures exists k: nat :: k <= |old(socket.chunks)| && socket.chunks == old(socket.chunks)[k..]
  {
    hide PhpTrim;
    ghost var all := socket.chunks;
    var c := socket.Read();
    ghost var used: nat := if all == [] then 0 else 1;
    assert socket.chunks == all[used..];
    if c.ReadFails? { return Failed(READ_FAILED); }
    var str := c.s;
    if |str| < 8 { return Failed(READ_FAILED); }
    var len := num(PhpTrim(str[..8]));
    if len == None { return Failed(BAD_BAG); }
    if len.value > maxLength as real { return Failed(BAG_TOO_BIG); }
    var message := str[8..];
    var n := |message|;
    if n as real == len.value { return if message == "" then Failed(0) else Message(message); }
    if n as real > len.value { return Failed(BAD_BAG); }
    ghost var result := Gather(message, len.value, socket.chunks);
    while len.value > n as real
      invariant n == |message|
      invariant Gather(message, len.value, socket.chunks) == result
      invariant used <= |all| && socket.chunks == all[used..]
      decreases |socket.chunks| + (if len.value > n as real then 1 else 0)
    {
      var tmp := socket.Read();
      if tmp.ReadFails? { return Failed(READ_FAILED); }
      used := used + 1;
      message := message + tmp.s;
      n := |message|;
    }
    if n as real != len.value { return Failed(BAG_TOO_BIG); }
    return Message(message);
  }

  // ---------------------------------------------------------------- how reading ends

  predicate AllData(chunks: seq<Chunk>) { forall c | c in chunks :: c.Data? }

  function Concat(chunks: seq<Chunk>): string
    requires AllData(chunks)
  {
    if chunks == [] then ""
    else
      assert chunks[0].Data?;
      chunks[0].s + Concat(chunks[1..])
  }

  /** What has arrived in the first k pieces behind a beginning. */
  function Arrived(message: string, chunks: seq<Chunk>, k: nat): string
    requires k <= |chunks| && AllData(chunks[..k])
  {
    message + Concat(chunks[..k])
  }

  /** The loop ends with the first k pieces that bring enough, or before the end of
      the pieces, or a failing read. */
  ghost predicate EndsAt(message: string, len: real, chunks: seq<Chunk>, k: nat) {
    && k <= |chunks| && AllData(chunks[..k])
    && (forall j: nat | j < k :: AllData(chunks[..j]) && |Arrived(message, chunks, j)| as real < len)
    && (|Arrived(message, chunks, k)| as real < len ==> k == |chunks| || chunks[k].ReadFails?)
  }

  /** The three ends of the loop: a message of just the wanted length; error 10105
      when more has come; error 10102 when no more comes. */
  lemma {:induction false} GatherEnds(message: string, len: real, chunks: seq<Chunk>) returns (k: nat)
    ensures EndsAt(message, len, chunks, k)
    ensures var s := Arrived(message, chunks, k);
            Gather(message, len, chunks) ==
            if |s| as real == len then Message(s) else if |s| as real > len then Failed(10105) else Failed(10102)
    decreases |chunks|
  {
    if |message| as real >= len || chunks == [] || chunks[0].ReadFails? {
      k := 0;
      assert Arrived(message, chunks, 0) == message;
    } else {
      var rest := chunks[1..];
      var m := GatherEnds(message + chunks[0].s, len, rest);
      k := m + 1;
      forall j: nat | j <= m ensures AllData(chunks[..j + 1])
                                     && Arrived(message, chunks, j + 1) == Arrived(message + chunks[0].s, rest, j) {
        ArrivedStep(message, chunks, j);
      }
      assert AllData(chunks[..0]) && Arrived(message, chunks, 0) == message;
      forall j: nat | j < k ensures AllData(chunks[..j]) && |Arrived(message, chunks, j)| as real < len {
        if j > 0 { ArrivedStep(message, chunks, j - 1); }
      }
    }
  }

  lemma ArrivedStep(message: string, chunks: seq<Chunk>, j: nat)
    requires chunks != [] && chunks[0].Data? && j < |chunks| && AllData(chunks[1..][..j])
    ensures AllData(chunks[..j + 1])
    ensures Arrived(message, chunks, j + 1) == Arrived(message + chunks[0].s, chunks[1..], j)
  {
    var front := chunks[..j + 1];
    assert front[1..] == chunks[1..][..j];
    assert AllData(front) by {
      forall c | c in front ensures c.Data? { assert c == chunks[0] || c in chunks[1..][..j]; }
    }
  }

  /** Every outcome of the reader, by what arrives. */
  lemma ReadOutcome(chunks: seq<Chunk>, maxLength: int, num: string -> Option<real>) returns (k: nat)
    ensures var r := Received(chunks, maxLength, num);
            if chunks == [] || chunks[0].ReadFails? || |chunks[0].s| < 8 then r == Failed(10102)
            else
              var len, body, rest := num(PhpTrim(chunks[0].s[..8])), chunks[0].s[8..], chunks[1..];
              if len == None then r == Failed(10104)
              else if len.value > maxLength as real then r == Failed(10105)
              else if |body| as real > len.value then r == Failed(10104)
              else if body == "" && len.value == 0.0 then r == Failed(0)
              else
                && EndsAt(body, len.value, rest, k)
                && var s := Arrived(body, rest, k);
                   r == if |s| as real == len.value then Message(s)
                        else if |s| as real > len.value then Failed(10105) else Failed(10102)
  {
    hide PhpTrim, EndsAt;
    k := 0;
    if chunks != [] && chunks[0].Data? && |chunks[0].s| >= 8 {
      var len := num(PhpTrim(chunks[0].s[..8]));
      if len.Some? { k := GatherEnds(chunks[0].s[8..], len.value, chunks[1..]); }
    }
  }

  // ---------------------------------------------------------------- both ends together

  /** However the rest of a message is cut, the loop puts it together. */
  lemma {:induction false} GatherAll(message: string, len: nat, chunks: seq<Chunk>)
    requires AllData(chunks) && |message| + |Concat(chunks)| == len
    ensures Gather(message, len as real, chunks) == Message(message + Concat(chunks))
    decreases |chunks|
  {
    if |message| < len {
      assert (message + chunks[0].s) + Concat(chunks[1..]) == message + Concat(chunks);
      assert chunks[0].Data?;
      GatherAll(message + chunks[0].s, len, chunks[1..]);
    } else {
      assert message + Concat(chunks) == message;
    }
  }

  /** Whatever comes out of the loop has the wanted length, and is what came in. */
  lemma {:induction false} GatherSound(message: string, len: real, chunks: seq<Chunk>) returns (k: nat)
    requires Gather(message, len, chunks).Message?
    ensures k <= |chunks| && AllData(chunks[..k])
    ensures var s := Gather(message, len, chunks).s; s == message + Concat(chunks[..k]) && |s| as real == len
    decreases |chunks|
  {
    if |message| as real >= len {
      k := 0;
    } else {
      var k' := GatherSound(message + chunks[0].s, len, chunks[1..]);
      k := k' + 1;
      assert chunks[..k][1..] == chunks[1..][..k'];
      assert AllData(chunks[..k]) by {
        forall c | c in chunks[..k] ensures c.Data? {
          assert c == chunks[0] || c in chunks[1..][..k'];
        }
      }
    }
  }

  /** Soundness: a message that the reader returns is what arrived behind eight
      characters that spell its length, and is not longer than allowed. */
  lemma ReadSound(chunks: seq<Chunk>, maxLength: int, num: string -> Option<real>) returns (k: nat)
    requires Received(chunks, maxLength, num).Message?
    ensures k <= |chunks| && AllData(chunks[..k])
    ensures var s, all := Received(chunks, maxLength, num).s, Concat(chunks[..k]);
            && |all| >= 8 && s == all[8..] && num(PhpTrim(all[..8])) == Some(|s| as real)
            && 0 < |s| <= maxLength
  {
    hide PhpTrim;
    var str := chunks[0].s;
    var len := num(PhpTrim(str[..8])).value;
    if |str| - 8 == 0 || (|str| - 8) as real != len {
      var k' := GatherSound(str[8..], len, chunks[1..]);
      k := k' + 1;
      assert chunks[..k][1..] == chunks[1..][..k'];
      assert AllData(chunks[..k]) by {
        forall c | c in chunks[..k] ensures c.Data? {
          assert c == chunks[0] || c in chunks[1..][..k'];
        }
      }
      var more := Concat(chunks[1..][..k']);
      assert Concat(chunks[..k]) == str + more;
      assert (str + more)[8..] == str[8..] + more && (str + more)[..8] == str[..8];
    } else {
      k := 1;
      assert chunks[..1][1..] == [];
      assert Concat(chunks[..1]) == str;
    }
  }

  lemma SentShort(message: string)
    requires |message| < 100000000
    ensures Sent(message) == Pad(Digits(|message|)) + message && |Pad(Digits(|message|))| == 8
  {
    EightDigits(|message|);
    PadShape(Digits(|message|));
  }

  lemma SentLong(message: string) returns (k: nat)
    requires |message| >= 100000000
    ensures Sent(message)[..8] == Digits(k) && k < |message|
  {
    var n := |message|;
    EightDigits(n);
    PadLong(Digits(n));
    k := FirstEightDigits(n);
    assert Sent(message)[..8] == Digits(n)[..8];
  }

  /** Main result: over any cutting of what the writer sent into pieces, the
      first with at least the header, the reader returns the message exactly
      when it is not empty, fits the reader's limit, and its length has at most
      eight digits. */
  lemma WriteThenRead(message: string, chunks: seq<Chunk>, maxLength: int, num: string -> Option<real>)
    requires ReadsDecimals(num)
    requires AllData(chunks) && Concat(chunks) == Sent(message) && |chunks[0].s| >= 8
    ensures Received(chunks, maxLength, num) == Message(message) <==>
              message != "" && |message| <= maxLength && |message| < 100000000
  {
    hide PhpTrim, Sent, Pad;
    var n := |message|;
    var str, rest := chunks[0].s, chunks[1..];
    assert Sent(message) == str + Concat(rest);
    assert str[..8] == Sent(message)[..8];
    if n >= 100000000 {
      var k := SentLong(message);
      TrimDigits(k);
      if Received(chunks, maxLength, num).Message? {
        var j := ReadSound(chunks, maxLength, num);
        assert chunks[..j][0] == chunks[0];
        assert Concat(chunks[..j])[..8] == str[..8];
      }
    } else {
      SentShort(message);
      TrimDigits(n);
      assert str[..8] == Pad(Digits(n));
      assert message == str[8..] + Concat(rest);
      if |str| - 8 < n <= maxLength { GatherAll(str[8..], n, rest); }
      if |str| - 8 == n { assert str[8..] == message; }
    }
  }
}
