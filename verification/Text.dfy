/** Text helpers of netio/include/string_helper.h, and the decimal printing and
    reading that the command codec rests on. A `char` stands for one byte of a
    C string, so no text holds a NUL. */
module Text {

  // ---------------------------------------------------------------- Trim

  predicate IsSpace(c: char) {
    c == ' ' || c == '\U{0C}' || c == '\n' || c == '\r' || c == '\t' || c == '\U{0B}'
  }

  /** Index of the first character that is no white space, or |s|. */
  function FirstNotSpace(s: string): (i: nat)
    ensures i <= |s| && (i < |s| ==> !IsSpace(s[i]))
    ensures forall k | 0 <= k < i :: IsSpace(s[k])
  {
    if s == "" || !IsSpace(s[0]) then 0 else 1 + FirstNotSpace(s[1..])
  }

  /** Index of the last character that is no white space, or -1. */
  function LastNotSpace(s: string): (i: int)
    ensures -1 <= i < |s| && (i >= 0 ==> !IsSpace(s[i]))
    ensures forall k | i < k < |s| :: IsSpace(s[k])
  {
    if s == "" || !IsSpace(s[|s| - 1]) then |s| - 1 else LastNotSpace(s[..|s| - 1])
  }

  function Trim(s: string): string {
    if |s| == 0 then s
    else
      var iBeg := FirstNotSpace(s);
      var iEnd := LastNotSpace(s);
      if iBeg == |s| || iEnd == -1 || iEnd < iBeg then "" else s[iBeg..iEnd + 1]
  }

  predicate Trimmed(s: string) {
    s != "" ==> !IsSpace(s[0]) && !IsSpace(s[|s| - 1])
  }

  predicate Blank(s: string) { forall c | c in s :: IsSpace(c) }

  /** Trim removes white space from the two ends and nothing else ... */
  lemma TrimMeaning(s: string) returns (a: string, b: string)
    ensures Trimmed(Trim(s))
    ensures s == a + Trim(s) + b && Blank(a) && Blank(b)
  {
    var iBeg, iEnd := FirstNotSpace(s), LastNotSpace(s);
    if iBeg < |s| {
      assert iBeg <= iEnd;
      a, b := s[..iBeg], s[iEnd + 1..];
    } else {
      a, b := s, "";
    }
  }

  /** ... and that determines its result. */
  lemma TrimUnique(a: string, t: string, b: string)
    requires Blank(a) && Blank(b) && Trimmed(t)
    ensures Trim(a + t + b) == t
  {
    var s := a + t + b;
    assert forall k | 0 <= k < |a| :: s[k] in a;
    assert forall k | |a| + |t| <= k < |s| :: s[k] in b;
    if t != "" {
      assert s[|a|] == t[0] && s[|a| + |t| - 1] == t[|t| - 1];
    }
  }

  lemma TrimFixes(s: string)
    ensures Trim(s) == s <==> Trimmed(s)
  {
    var _, _ := TrimMeaning(s);
    if Trimmed(s) {
      TrimUnique("", s, "");
      assert "" + s + "" == s;
    }
  }

  /** Characters of a trimmed text come from the text. */
  lemma TrimKeepsOut(s: string, c: char)
    requires c !in s
    ensures c !in Trim(s)
  {
  }

  /** The six characters that Trim takes off, by their codes. */
  lemma WhiteSpace(c: char)
    ensures Trim([c]) == "" <==> c as int in {9, 10, 11, 12, 13, 32}
  {
    assert Trim([c]) == if IsSpace(c) then "" else [c];
  }

  // ---------------------------------------------------------------- Split and Join

  predicate Free(sep: char, s: string) { sep !in s }

  /** The texts between the separators: always one more than there are separators. */
  function Pieces(s: string, sep: char): (r: seq<string>)
    ensures |r| > 0
  {
    if s == "" then [""]
    else
      var rest := Pieces(s[1..], sep);
      if s[0] == sep then [""] + rest else [[s[0]] + rest[0]] + rest[1..]
  }

  /** What SplitString leaves in its output vector. */
  function Split(s: string, sep: char): seq<string> {
    if s == "" then [] else Pieces(s, sep)
  }

  function Join(parts: seq<string>, sep: char): string {
    if |parts| == 0 then ""
    else if |parts| == 1 then parts[0]
    else parts[0] + [sep] + Join(parts[1..], sep)
  }

  lemma {:induction false} PiecesFree(s: string, sep: char)
    ensures forall p | p in Pieces(s, sep) :: Free(sep, p)
  {
    if s != "" {
      PiecesFree(s[1..], sep);
      var rest := Pieces(s[1..], sep);
      assert Free(sep, rest[0]);
    }
  }

  lemma {:induction false} PiecesConcat(a: string, sep: char, b: string)
    ensures Pieces(a + [sep] + b, sep) == Pieces(a, sep) + Pieces(b, sep)
  {
    var s := a + [sep] + b;
    if a == "" {
      assert s[1..] == b;
    } else {
      assert s[1..] == a[1..] + [sep] + b;
      PiecesConcat(a[1..], sep, b);
    }
  }

  lemma {:induction false} PiecesOfFree(a: string, sep: char)
    requires Free(sep, a)
    ensures Pieces(a, sep) == [a]
  {
    if a != "" {
      assert Free(sep, a[1..]);
      PiecesOfFree(a[1..], sep);
      assert a == [a[0]] + a[1..];
    }
  }

  lemma {:induction false} JoinPieces(s: string, sep: char)
    ensures Join(Pieces(s, sep), sep) == s
  {
    if s != "" {
      JoinPieces(s[1..], sep);
      var rest := Pieces(s[1..], sep);
      var all := Pieces(s, sep);
      if s[0] == sep {
        assert all[1..] == rest;
      } else {
        assert all[1..] == rest[1..];
        assert s == [s[0]] + s[1..];
      }
    }
  }

  lemma {:induction false} PiecesJoin(parts: seq<string>, sep: char)
    requires |parts| > 0 && forall p | p in parts :: Free(sep, p)
    ensures Pieces(Join(parts, sep), sep) == parts
  {
    PiecesOfFree(parts[0], sep);
    if |parts| == 1 {
      assert parts == [parts[0]];
    } else {
      PiecesJoin(parts[1..], sep);
      PiecesConcat(parts[0], sep, Join(parts[1..], sep));
      assert parts == [parts[0]] + parts[1..];
    }
  }

  lemma {:induction false} JoinConcat(a: seq<string>, b: seq<string>, sep: char)
    requires |a| > 0 && |b| > 0
    ensures Join(a + b, sep) == Join(a, sep) + [sep] + Join(b, sep)
  {
    if |a| == 1 {
      assert (a + b)[1..] == b;
    } else {
      assert (a + b)[1..] == a[1..] + b;
      JoinConcat(a[1..], b, sep);
      assert Join(a + b, sep) == a[0] + [sep] + (Join(a[1..], sep) + [sep] + Join(b, sep));
    }
  }

  /** Tokenising loses nothing: joining the tokens gives every input text back. */
  lemma JoinSplit(s: string, sep: char)
    ensures Join(Split(s, sep), sep) == s
    ensures forall p | p in Split(s, sep) :: Free(sep, p)
  {
    JoinPieces(s, sep);
    PiecesFree(s, sep);
  }

  /** The other direction holds for every list of separator-free parts but one. */
  lemma SplitJoin(parts: seq<string>, sep: char)
    requires forall p | p in parts :: Free(sep, p)
    ensures Split(Join(parts, sep), sep) == parts <==> parts != [""]
  {
    if |parts| > 0 {
      PiecesJoin(parts, sep);
      if Join(parts, sep) == "" {
        assert |parts| == 1;
      }
    }
  }

  /** SplitString: cut at the first separator until none is left. */
  method SplitString(sSrc: string, cSep: char) returns (vecString: seq<string>)
    ensures vecString == Split(sSrc, cSep)
  {
    vecString := [];
    if sSrc == "" { return; }
    var sTmp := sSrc;
    while sTmp != ""
      invariant vecString + Pieces(sTmp, cSep) == Pieces(sSrc, cSep)
      decreases |sTmp|
    {
      var nPos := Find(sTmp, cSep);
      if nPos == |sTmp| { break; }
      ghost var a, b := sTmp[..nPos], sTmp[nPos + 1..];
      assert sTmp == a + [cSep] + b;
      PiecesConcat(a, cSep, b);
      PiecesOfFree(a, cSep);
      vecString := vecString + [sTmp[..nPos]];
      sTmp := sTmp[nPos + 1..];
    }
    PiecesOfFree(sTmp, cSep);
    vecString := vecString + [sTmp];
  }

  /** std::string::find, with |s| for npos. */
  function Find(s: string, c: char): (i: nat)
    ensures i <= |s| && (i < |s| ==> s[i] == c)
    ensures forall k | 0 <= k < i :: s[k] != c
  {
    if s == "" || s[0] == c then 0 else 1 + Find(s[1..], c)
  }

  // ---------------------------------------------------------------- decimal numbers

  type int32 = x: int | -0x8000_0000 <= x < 0x8000_0000

  predicate IsDigit(c: char) { '0' <= c <= '9' }

  function Digit(d: nat): (c: char)
    requires d < 10
    ensures IsDigit(c) && c as int - '0' as int == d
  {
    '0' + d as char
  }

  function Digits(n: nat): string {
    if n < 10 then [Digit(n)] else Digits(n / 10) + [Digit(n % 10)]
  }

  /** "%d" */
  function Itoa(n: int): string {
    if n < 0 then "-" + Digits(-n) else Digits(n)
  }

  function DigitPrefix(s: string): (p: string)
    ensures forall c | c in p :: IsDigit(c)
  {
    if s == "" || !IsDigit(s[0]) then "" else [s[0]] + DigitPrefix(s[1..])
  }

  function Value(s: string): nat
    requires forall c | c in s :: IsDigit(c)
  {
    if s == "" then 0
    else assert IsDigit(s[|s| - 1]); Value(s[..|s| - 1]) * 10 + (s[|s| - 1] as nat - '0' as nat)
  }

  function Clamp64(n: int): int {
    if n < -0x8000_0000_0000_0000 then -0x8000_0000_0000_0000
    else if n > 0x7fff_ffff_ffff_ffff then 0x7fff_ffff_ffff_ffff
    else n
  }

  /** atoll: white space, an optional sign, then the longest run of digits. */
  function Atoll(s: string): int {
    var t := s[FirstNotSpace(s)..];
    if t != "" && t[0] == '-' then Clamp64(0 - Value(DigitPrefix(t[1..])))
    else if t != "" && t[0] == '+' then Clamp64(Value(DigitPrefix(t[1..])))
    else Clamp64(Value(DigitPrefix(t)))
  }

  /** static_cast<int> of a long long. */
  function ToInt32(n: int): int32 {
    (n + 0x8000_0000) % 0x1_0000_0000 - 0x8000_0000
  }

  function Atoi(s: string): int32 { ToInt32(Atoll(s)) }

  lemma {:induction false} DigitsValue(n: nat)
    ensures forall c | c in Digits(n) :: IsDigit(c)
    ensures |Digits(n)| > 0 && Value(Digits(n)) == n
  {
    if n >= 10 {
      DigitsValue(n / 10);
      var ds := Digits(n);
      assert ds[..|ds| - 1] == Digits(n / 10);
    }
  }

  lemma {:induction false} DigitPrefixAll(s: string)
    requires forall c | c in s :: IsDigit(c)
    ensures DigitPrefix(s) == s
  {
    if s != "" {
      DigitPrefixAll(s[1..]);
    }
  }

  lemma TenTimes(x: int, p: int, v: int)
    ensures (x * p + v) * 10 == x * (10 * p) + v * 10
  {
  }

  /** Digits count by their places, from the front. */
  lemma {:induction false} ValueOf(c: char, s: string)
    requires IsDigit(c) && forall d | d in s :: IsDigit(d)
    ensures Value([c] + s) == (c as int - '0' as int) * Pow10(|s|) + Value(s)
  {
    var t := [c] + s;
    if s != "" {
      var front := s[..|s| - 1];
      ValueOf(c, front);
      assert t[..|t| - 1] == [c] + front;
      TenTimes(c as int - '0' as int, Pow10(|front|), Value(front));
    } else {
      assert t[..0] == "";
    }
  }

  lemma {:induction false} DigitPrefixOf(d: string, rest: string)
    requires (forall c | c in d :: IsDigit(c)) && (rest == "" || !IsDigit(rest[0]))
    ensures DigitPrefix(d + rest) == d
  {
    if d == "" {
      assert d + rest == rest;
    } else {
      assert (d + rest)[1..] == d[1..] + rest;
      DigitPrefixOf(d[1..], rest);
    }
  }

  lemma {:induction false} SkipsBlank(a: string, t: string)
    requires Blank(a) && (t == "" || !IsSpace(t[0]))
    ensures (a + t)[FirstNotSpace(a + t)..] == t
  {
    var s := a + t;
    assert forall k | 0 <= k < |a| :: s[k] in a;
    if t != "" {
      assert s[|a|] == t[0];
    }
    assert FirstNotSpace(s) == |a|;
  }

  lemma Starts(sign: string, d: string, rest: string)
    requires (sign == "" || sign == "-" || sign == "+") && forall c | c in d :: IsDigit(c)
    requires rest != "" ==> !IsDigit(rest[0]) && (d == "" ==> !IsSpace(rest[0]) && rest[0] !in {'-', '+'})
    ensures var t := sign + d + rest;
            && (t != "" ==> !IsSpace(t[0]))
            && (sign == "" && t != "" ==> t[0] != '-' && t[0] != '+')
            && (sign != "" ==> t != "" && t[0] == sign[0] && t[1..] == d + rest)
  {
    var t := sign + d + rest;
    if sign == "" {
      assert t == d + rest;
      if d != "" { assert t[0] == d[0] && d[0] in d; } else { assert t == rest; }
    }
  }

  /** What atoll reads: behind white space and at most one sign the digits up to
      the first other character, held at the ends of 64 bits; nothing reads as 0. */
  lemma AtollMeaning(a: string, sign: string, d: string, rest: string)
    requires Blank(a) && (sign == "" || sign == "-" || sign == "+") && (forall c | c in d :: IsDigit(c))
    requires rest != "" ==> !IsDigit(rest[0]) && (d == "" ==> !IsSpace(rest[0]) && rest[0] !in {'-', '+'})
    ensures var v: int := if sign == "-" then 0 - Value(d) else Value(d);
            Atoll(a + sign + d + rest) == if v < -0x8000_0000_0000_0000 then -0x8000_0000_0000_0000
                                          else if v >= 0x8000_0000_0000_0000 then 0x7fff_ffff_ffff_ffff else v
  {
    hide DigitPrefix, FirstNotSpace, Value, Blank, IsSpace, IsDigit;
    var t := sign + d + rest;
    assert a + sign + d + rest == a + t;
    Starts(sign, d, rest);
    SkipsBlank(a, t);
    DigitPrefixOf(d, rest);
    if sign == "" { assert t == d + rest; }
  }

  /** The cast keeps the low 32 bits. */
  lemma ToInt32Meaning(n: int)
    ensures (n - ToInt32(n)) % 0x1_0000_0000 == 0
    ensures -0x8000_0000 <= n < 0x8000_0000 ==> ToInt32(n) == n
  {
  }

  /** A printed number reads back as itself. */
  lemma AtoiItoa(n: int32)
    ensures Atoi(Itoa(n)) == n
  {
    var s := Itoa(n);
    ItoaPlain(n);
    assert s[FirstNotSpace(s)..] == s;
    var m: int := n;
    m := if m < 0 then -m else m;
    var d := Digits(m);
    DigitsValue(m);
    DigitPrefixAll(d);
    if n < 0 {
      assert s[1..] == d;
    } else {
      assert IsDigit(s[0]);
    }
  }

  function Pow10(k: nat): nat { if k == 0 then 1 else 10 * Pow10(k - 1) }

  lemma {:induction false} DigitsLength(n: nat, k: nat)
    requires k > 0
    ensures |Digits(n)| <= k <==> n < Pow10(k)
  {
    if n >= 10 && k > 1 {
      DigitsLength(n / 10, k - 1);
    } else if n >= 10 {
      DigitsValue(n / 10);
      assert Pow10(1) == 10;
    } else {
      Pow10AtLeast(k);
    }
  }

  lemma {:induction false} Pow10AtLeast(k: nat)
    requires k > 0
    ensures Pow10(k) >= 10
  {
    if k > 1 { Pow10AtLeast(k - 1); }
  }

  /** What a printed number looks like to the tokeniser. */
  lemma ItoaPlain(n: int)
    ensures Itoa(n) != ""
    ensures forall c | c in Itoa(n) :: IsDigit(c) || c == '-'
    ensures Trimmed(Itoa(n))
    ensures -0x8000_0000 <= n < 0x8000_0000 ==> |Itoa(n)| <= 11
  {
    var m := if n < 0 then -n else n;
    DigitsValue(m);
    DigitsLength(m, 10);
    assert IsDigit(Digits(m)[|Digits(m)| - 1]) && IsDigit(Digits(m)[0]);
    assert Pow10(5) == 100000;
    assert Pow10(10) == 10000000000;
  }
}
