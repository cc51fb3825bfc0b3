/** checkSum of netio/testClient/NetUtil.php, on 32-bit PHP integers and a
    little-endian machine, against the Internet checksum of RFC 1071. */
module Checksum {

  type byte = x: int | 0 <= x < 256

  const MAX_LEN := 65536

  // ---------------------------------------------------------------- the sums

  /** unpack('S', chunk). */
  function Word(lo: byte, hi: byte): (w: nat)
    ensures w < 65536
  {
    lo + 256 * hi
  }

  /** Plain sum of the 16-bit words; an odd last byte counts as it is. */
  function WordSum(bytes: seq<byte>): nat {
    if bytes == [] then 0
    else if |bytes| == 1 then bytes[0]
    else Word(bytes[0], bytes[1]) + WordSum(bytes[2..])
  }

  /** One's complement addition of RFC 1071, section 1: a carry out of the
      sixteen bits is added back in at the low end. */
  function OnesAdd(a: nat, b: nat): nat {
    if a + b < 65536 then a + b else a + b - 65536 + 1
  }

  /** The one's complement sum of RFC 1071, section 4.1; an odd last byte is
      padded with a zero byte. */
  function OnesSum(bytes: seq<byte>): (r: nat)
    ensures r < 65536
  {
    if bytes == [] then 0
    else if |bytes| == 1 then Word(bytes[0], 0)
    else OnesAdd(Word(bytes[0], bytes[1]), OnesSum(bytes[2..]))
  }

  /** The same sum on a machine of the other byte order. */
  function OnesSumSwapped(bytes: seq<byte>): (r: nat)
    ensures r < 65536
  {
    if bytes == [] then 0
    else if |bytes| == 1 then Word(0, bytes[0])
    else OnesAdd(Word(bytes[1], bytes[0]), OnesSumSwapped(bytes[2..]))
  }

  // ---------------------------------------------------------------- dechex, substr, hexdec

  /** Digits of dechex, most significant first. */
  function HexDigits(n: nat): seq<nat> {
    if n < 16 then [n] else HexDigits(n / 16) + [n % 16]
  }

  function HexValue(ds: seq<nat>): nat {
    if ds == [] then 0 else HexValue(ds[..|ds| - 1]) * 16 + ds[|ds| - 1]
  }

  function Pow16(k: nat): (p: nat)
    ensures p > 0
  {
    if k == 0 then 1 else 16 * Pow16(k - 1)
  }

  lemma {:induction false} HexLength(n: nat, k: nat)
    requires 0 < k && (k == 1 || Pow16(k - 1) <= n) && n < Pow16(k)
    ensures |HexDigits(n)| == k
  {
    if k > 1 { HexLength(n / 16, k - 1); }
  }

  lemma HexValueStep(ds: seq<nat>, d: nat)
    ensures HexValue(ds + [d]) == HexValue(ds) * 16 + d
  {
    assert (ds + [d])[..|ds|] == ds;
  }

  /** The number that the last k digits make. */
  function LowDigits(n: nat, k: nat): nat {
    if k == 0 then 0 else LowDigits(n / 16, k - 1) * 16 + n % 16
  }

  lemma {:induction false} HexTail(n: nat, k: nat)
    requires k < |HexDigits(n)|
    ensures HexValue(HexDigits(n)[|HexDigits(n)| - k..]) == LowDigits(n, k)
  {
    var ds := HexDigits(n);
    if k > 0 {
      var es := HexDigits(n / 16);
      HexTail(n / 16, k - 1);
      HexValueStep(es[|es| - (k - 1)..], n % 16);
      assert ds[|ds| - k..] == es[|es| - (k - 1)..] + [n % 16];
    }
  }

  lemma LowFour(n: nat)
    ensures LowDigits(n, 4) == n % 65536
  {
    var n1 := n / 16;
    var n2 := n1 / 16;
    var n3 := n2 / 16;
    assert LowDigits(n3, 1) == n3 % 16;
    assert LowDigits(n2, 2) == n3 % 16 * 16 + n2 % 16;
    assert LowDigits(n1, 3) == (n3 % 16 * 16 + n2 % 16) * 16 + n1 % 16;
    assert n == 65536 * (n3 / 16) + LowDigits(n, 4);
  }

  /** Between 2^28 and 2^32 there are eight digits, and the last four are the
      low sixteen bits. */
  lemma LowHexDigits(n: nat)
    requires 0x1000_0000 <= n < 0x1_0000_0000
    ensures |HexDigits(n)| == 8 && HexValue(HexDigits(n)[4..]) == n % 65536
  {
    assert Pow16(4) == 65536;
    LowFour(n);
    assert Pow16(8) == 0x1_0000_0000 && Pow16(7) == 0x1000_0000;
    HexLength(n, 8);
    HexTail(n, 4);
  }

  // ---------------------------------------------------------------- the program

  /** The sum stays a PHP integer. */
  lemma {:induction false} WordSumBound(bytes: seq<byte>)
    ensures WordSum(bytes) <= (|bytes| / 2) * 65535 + (|bytes| % 2) * 255
  {
    if |bytes| > 1 { WordSumBound(bytes[2..]); }
  }

  lemma {:induction false} WordSumConcat(a: seq<byte>, b: seq<byte>)
    requires |a| % 2 == 0
    ensures WordSum(a + b) == WordSum(a) + WordSum(b)
  {
    if a == [] {
      assert a + b == b;
    } else {
      assert (a + b)[2..] == a[2..] + b;
      WordSumConcat(a[2..], b);
    }
  }

  /** The representative of s modulo 65535 that end-around carry ends in: zero
      only for zero. */
  function Residue(s: nat): (r: nat)
    ensures r < 65536 && (r == 0 <==> s == 0) && (s - r) % 65535 == 0 && r <= s
  {
    if s == 0 then 0 else (s - 1) % 65535 + 1
  }

  lemma ResidueUnique(s: nat, r: nat, k: nat)
    requires r < 65536 && (r == 0 <==> s == 0) && s == r + 65535 * k
    ensures Residue(s) == r
  {
  }

  lemma {:induction false} OnesSumIsResidue(bytes: seq<byte>)
    ensures OnesSum(bytes) == Residue(WordSum(bytes))
  {
    if |bytes| > 1 {
      OnesSumIsResidue(bytes[2..]);
      var w, s := Word(bytes[0], bytes[1]), WordSum(bytes[2..]);
      var k := (s - Residue(s)) / 65535;
      assert s == Residue(s) + 65535 * k;
      ResidueUnique(w + s, OnesSum(bytes), if w + Residue(s) < 65536 then k else k + 1);
    }
  }

  /** Two folds are enough, and the carry they leave above bit 16 is harmless. */
  lemma TwoFolds(s: nat)
    requires s < 0x8000_0000
    ensures var f := s / 65536 + s % 65536;
            f <= 0x1_fffe && (f + f / 65536) % 65536 == Residue(s) && f + f / 65536 < 0x1000_0000
  {
    var f := s / 65536 + s % 65536;
    ResidueUnique(s, (f + f / 65536) % 65536, s / 65536 + f / 65536);
  }

  lemma WordSumStep(bytes: seq<byte>, i: nat)
    requires (i + 1) * 2 <= |bytes|
    ensures WordSum(bytes[..(i + 1) * 2]) == WordSum(bytes[..i * 2]) + Word(bytes[i * 2], bytes[i * 2 + 1])
  {
    var chunk := bytes[i * 2..i * 2 + 2];
    WordSumConcat(bytes[..i * 2], chunk);
    assert bytes[..i * 2] + chunk == bytes[..(i + 1) * 2];
    assert chunk[2..] == [];
  }

  lemma WordSumEnd(bytes: seq<byte>, n: nat)
    requires n % 2 == 0 && n <= |bytes| <= n + 1
    ensures WordSum(bytes) == WordSum(bytes[..n]) + if n < |bytes| then bytes[n] else 0
  {
    if n < |bytes| {
      var tail := [bytes[n]];
      assert WordSum(tail) == bytes[n];
      assert bytes == bytes[..n] + tail;
      hide WordSum;
      WordSumConcat(bytes[..n], tail);
    } else {
      assert bytes[..n] == bytes;
    }
  }

  /** hexdec(substr(dechex(~sum), 4)). */
  function Complement(sum: nat): nat
    requires sum < 0x1000_0000
  {
    LowHexDigits(0xffff_ffff - sum);
    HexValue(HexDigits(0xffff_ffff - sum)[4..])
  }

  lemma ModIs(n: nat, q: int, r: nat)
    requires n == 65536 * q + r && r < 65536
    ensures n % 65536 == r
  {
  }

  lemma ComplementIs(sum: nat)
    requires sum < 0x1000_0000
    ensures Complement(sum) == 65535 - sum % 65536
  {
    LowHexDigits(0xffff_ffff - sum);
    hide HexDigits, HexValue;
    ModIs(0xffff_ffff - sum, 65535 - sum / 65536, 65535 - sum % 65536);
  }

  /** checkSum is the complement of the one's complement sum. */
  method CheckSum(bytes: seq<byte>) returns (r: nat)
    requires |bytes| <= MAX_LEN
    ensures r == 65535 - OnesSum(bytes)
  {
    hide OnesSum, Residue, Word, Complement;
    var len := |bytes|;
    var sum, tail := 0, 0;
    if len % 2 != 0 {
      tail := bytes[len - 1];
    }
    len := len / 2;
    for i := 0 to len
      invariant sum == WordSum(bytes[..i * 2])
    {
      var chunk := bytes[i * 2..i * 2 + 2];
      WordSumStep(bytes, i);
      sum := sum + Word(chunk[0], chunk[1]);
    }
    sum := sum + tail;
    WordSumEnd(bytes, len * 2);
    WordSumBound(bytes);
    TwoFolds(sum);
    OnesSumIsResidue(bytes);
    sum := sum / 65536 + sum % 65536;
    sum := sum + sum / 65536;
    ComplementIs(sum);
    return Complement(sum);
  }

  // ---------------------------------------------------------------- what it is for

  /** A packet whose checkSum is 0 or 0xffff passes. */
  predicate Passes(bytes: seq<byte>) { OnesSum(bytes) in {0, 65535} }

  lemma PassesMeans(bytes: seq<byte>)
    ensures Passes(bytes) <==> WordSum(bytes) % 65535 == 0
  {
    OnesSumIsResidue(bytes);
  }

  /** The sum of a text with the word at an even place replaced. */
  lemma WordReplaced(bytes: seq<byte>, at: nat, lo: byte, hi: byte)
    requires at % 2 == 0 && at + 2 <= |bytes|
    ensures WordSum(bytes[at := lo][at + 1 := hi]) ==
            WordSum(bytes) - Word(bytes[at], bytes[at + 1]) + Word(lo, hi)
  {
    var a, w, b := bytes[..at], bytes[at..at + 2], bytes[at + 2..];
    var w' := [lo, hi];
    assert bytes == a + (w + b) && bytes[at := lo][at + 1 := hi] == a + (w' + b);
    WordSumConcat(a, w + b);
    WordSumConcat(a, w' + b);
    WordSumConcat(w, b);
    WordSumConcat(w', b);
    assert w[2..] == [] && w'[2..] == [];
  }

  /** The complement of the sum, written into a zero word at an even place,
      makes checkSum of the whole exactly 0. */
  lemma SealedSumsToZero(bytes: seq<byte>, at: nat)
    requires at % 2 == 0 && at + 2 <= |bytes| && bytes[at] == 0 && bytes[at + 1] == 0
    ensures var c := 65535 - OnesSum(bytes);
            OnesSum(bytes[at := c % 256][at + 1 := c / 256]) == 65535
  {
    var c := 65535 - OnesSum(bytes);
    var s := WordSum(bytes);
    WordReplaced(bytes, at, c % 256, c / 256);
    OnesSumIsResidue(bytes);
    OnesSumIsResidue(bytes[at := c % 256][at + 1 := c / 256]);
    ResidueUnique(s + c, 65535, (s - Residue(s)) / 65535);
  }

  lemma Multiples(s: nat, v: nat, w: nat)
    requires s % 65535 == 0 && v < 65536 && w < 65536 && s - v + w >= 0
    ensures (s - v + w) % 65535 == 0 <==> v == w || v - w in {65535, -65535}
  {
    var k := s / 65535;
    assert s == 65535 * k;
  }

  /** Damage to one aligned word goes unnoticed exactly when it turns 0 into
      0xffff or back. */
  lemma DamagedWord(bytes: seq<byte>, at: nat, lo: byte, hi: byte)
    requires at % 2 == 0 && at + 2 <= |bytes| && Passes(bytes)
    ensures var v, w := Word(bytes[at], bytes[at + 1]), Word(lo, hi);
            Passes(bytes[at := lo][at + 1 := hi]) <==> v == w || (v == 0 && w == 0xffff) || (v == 0xffff && w == 0)
  {
    hide WordSum, OnesSum, Passes, Word;
    WordReplaced(bytes, at, lo, hi);
    PassesMeans(bytes);
    PassesMeans(bytes[at := lo][at + 1 := hi]);
    Multiples(WordSum(bytes), Word(bytes[at], bytes[at + 1]), Word(lo, hi));
  }

  /** Damage to one byte never goes unnoticed, also in the odd last byte. */
  lemma DamagedByte(bytes: seq<byte>, at: nat, b: byte)
    requires at < |bytes| && Passes(bytes) && b != bytes[at]
    ensures !Passes(bytes[at := b])
  {
    hide WordSum, OnesSum, Passes;
    var i := at - at % 2;
    if i + 1 == |bytes| {
      DamagedTail(bytes, b);
    } else if at == i {
      assert bytes[at := b] == bytes[i := b][i + 1 := bytes[i + 1]];
      DamagedWord(bytes, i, b, bytes[i + 1]);
    } else {
      assert bytes[at := b] == bytes[i := bytes[i]][i + 1 := b];
      DamagedWord(bytes, i, bytes[i], b);
    }
  }

  lemma DamagedTail(bytes: seq<byte>, b: byte)
    requires |bytes| % 2 == 1 && Passes(bytes) && b != bytes[|bytes| - 1]
    ensures !Passes(bytes[|bytes| - 1 := b])
  {
    hide WordSum, OnesSum, Passes;
    var n := |bytes| - 1;
    WordSumEnd(bytes, n);
    WordSumEnd(bytes[n := b], n);
    assert bytes[n := b][..n] == bytes[..n];
    PassesMeans(bytes);
    PassesMeans(bytes[n := b]);
    Multiples(WordSum(bytes), bytes[n], b);
  }

  function Swap(w: nat): nat { 256 * (w % 256) + w / 256 }

  /** Byte order does not matter (RFC 1071, section 2, B): a machine of the other
      order finds the same two checksum bytes. */
  lemma {:induction false} ByteOrder(bytes: seq<byte>)
    ensures OnesSumSwapped(bytes) == Swap(OnesSum(bytes))
  {
    if |bytes| == 1 {
      SwapWord(bytes[0], 0);
    } else if |bytes| > 1 {
      hide OnesAdd, Swap, Word;
      ByteOrder(bytes[2..]);
      SwapAdds(Word(bytes[0], bytes[1]), OnesSum(bytes[2..]));
      SwapWord(bytes[0], bytes[1]);
    }
  }

  lemma SwapWord(lo: byte, hi: byte)
    ensures Swap(Word(lo, hi)) == Word(hi, lo)
  {
  }

  lemma SwapOf(lo: nat, hi: nat)
    requires lo < 256
    ensures Swap(lo + 256 * hi) == 256 * lo + hi
  {
  }

  lemma SwapAdds(a: nat, b: nat)
    requires a < 65536 && b < 65536
    ensures Swap(OnesAdd(a, b)) == OnesAdd(Swap(a), Swap(b))
  {
    hide Swap;
    var al, ah, bl, bh := a % 256, a / 256, b % 256, b / 256;
    SwapOf(al, ah);
    SwapOf(bl, bh);
    var l, h := al + bl, ah + bh;
    var c := if a + b < 65536 then 0 else 1;
    if l + c < 256 {
      SwapOf(l + c, h - 256 * c);
    } else if l + c < 512 {
      SwapOf(l + c - 256, h + 1 - 256 * c);
    }
  }
}
