/** std::map<string,string> as strPairAppendToMap fills it and as InitCCmd
    prints it: entries in key order, the first entry of a key wins. */
module StrMap {
  import opened Common
  import opened Text

  // ---------------------------------------------------------------- key order

  /** std::string::operator<, byte by byte. */
  predicate Less(a: string, b: string) {
    b != "" && (a == "" || a[0] < b[0] || (a[0] == b[0] && Less(a[1..], b[1..])))
  }

  lemma {:induction false} LessTotal(a: string, b: string)
    ensures a != b <==> Less(a, b) || Less(b, a)
    ensures !(Less(a, b) && Less(b, a))
  {
    if a != "" && b != "" && a[0] == b[0] {
      LessTotal(a[1..], b[1..]);
      assert a == [a[0]] + a[1..] && b == [b[0]] + b[1..];
    }
  }

  lemma {:induction false} LessTransitive(a: string, b: string, c: string)
    requires Less(a, b) && Less(b, c)
    ensures Less(a, c)
  {
    if a != "" && a[0] == b[0] == c[0] {
      LessTransitive(a[1..], b[1..], c[1..]);
    }
  }

  /** The texts agree up to some place, where a ends or has the smaller byte. */
  ghost predicate LessAt(a: string, b: string, i: nat) {
    i <= |a| && i < |b| && a[..i] == b[..i] && (i == |a| || a[i] < b[i])
  }

  lemma {:induction false} LessMeaning(a: string, b: string)
    ensures Less(a, b) <==> exists i: nat :: LessAt(a, b, i)
  {
    if a == "" || b == "" || a[0] != b[0] {
      if Less(a, b) { assert LessAt(a, b, 0); }
    } else {
      LessMeaning(a[1..], b[1..]);
      if Less(a, b) {
        var i: nat :| LessAt(a[1..], b[1..], i);
        assert a[..i + 1] == [a[0]] + a[1..][..i] && b[..i + 1] == [b[0]] + b[1..][..i];
        assert LessAt(a, b, i + 1);
      }
      if i: nat :| LessAt(a, b, i) {
        assert a[1..][..i - 1] == a[..i][1..] && b[1..][..i - 1] == b[..i][1..];
        assert LessAt(a[1..], b[1..], i - 1);
      }
    }
  }

  predicate IsLeast(k: string, s: set<string>) {
    k in s && forall j | j in s :: j == k || Less(k, j)
  }

  lemma {:induction false} LeastExists(s: set<string>)
    requires s != {}
    ensures exists k :: IsLeast(k, s)
    ensures forall k, j | IsLeast(k, s) && IsLeast(j, s) :: k == j
  {
    var x :| x in s;
    var rest := s - {x};
    if rest == {} {
      assert forall j | j in s :: j == x || j in rest;
      assert IsLeast(x, s);
    } else {
      LeastExists(rest);
      var k :| IsLeast(k, rest);
      LessTotal(x, k);
      if Less(x, k) {
        forall j | j in s ensures j == x || Less(x, j) {
          if j != x && j != k { LessTransitive(x, k, j); }
        }
        assert IsLeast(x, s);
      } else {
        assert IsLeast(k, s);
      }
    }
    forall k, j | IsLeast(k, s) && IsLeast(j, s) ensures k == j {
      LessTotal(k, j);
    }
  }

  function Least(s: set<string>): (k: string)
    requires s != {}
    ensures IsLeast(k, s)
  {
    LeastExists(s);
    var k :| IsLeast(k, s);
    k
  }

  predicate Ascending(ks: seq<string>) {
    forall i, j | 0 <= i < j < |ks| :: Less(ks[i], ks[j])
  }

  /** The order in which an iterator visits the map. */
  function SortedKeys(s: set<string>): (ks: seq<string>)
    ensures forall k :: k in ks <==> k in s
    ensures Ascending(ks)
  {
    if s == {} then []
    else
      var k := Least(s);
      [k] + SortedKeys(s - {k})
  }

  // ---------------------------------------------------------------- filling a map

  /** One "key=value" token: a token with another number of '=' is skipped, and
      map::insert leaves a key that is already there alone. */
  function Enter(m: map<string, string>, token: string): map<string, string> {
    var kv := Split(token, '=');
    if |kv| == 2 && Trim(kv[0]) !in m then m[Trim(kv[0]) := Trim(kv[1])] else m
  }

  function Collect(tokens: seq<string>, m: map<string, string>): map<string, string> {
    if tokens == [] then m else Collect(tokens[1..], Enter(m, tokens[0]))
  }

  /** The map that strPairAppendToMap makes of a text. */
  function PairMap(s: string): map<string, string> {
    Collect(Split(s, '&'), map[])
  }

  lemma {:induction false} CollectConcat(a: seq<string>, b: seq<string>, m: map<string, string>)
    ensures Collect(a + b, m) == Collect(b, Collect(a, m))
  {
    if a == [] {
      assert a + b == b;
    } else {
      assert (a + b)[1..] == a[1..] + b;
      CollectConcat(a[1..], b, Enter(m, a[0]));
    }
  }

  /** First key wins: what is in the map already is never changed. */
  lemma {:induction false} CollectKeeps(tokens: seq<string>, m: map<string, string>)
    ensures forall k | k in m :: k in Collect(tokens, m) && Collect(tokens, m)[k] == m[k]
  {
    if tokens != [] { CollectKeeps(tokens[1..], Enter(m, tokens[0])); }
  }

  /** A token that is a pair with key k. */
  predicate IsPairOf(token: string, k: string) {
    var kv := Split(token, '='); |kv| == 2 && Trim(kv[0]) == k
  }

  /** A token with one '=' is a pair, its key and value being the two sides, trimmed;
      and no other token is one. */
  lemma PairMeaning(a: string, b: string, k: string)
    requires Free('=', a) && Free('=', b)
    ensures IsPairOf(a + "=" + b, k) <==> Trim(a) == k
    ensures Split(a + "=" + b, '=') == [a, b]
  {
    PiecesConcat(a, '=', b);
    PiecesOfFree(a, '=');
    PiecesOfFree(b, '=');
    assert a + ['='] + b == a + "=" + b;
  }

  lemma PairShape(token: string, k: string)
    requires IsPairOf(token, k)
    ensures exists a, b :: Free('=', a) && Free('=', b) && token == a + "=" + b
  {
    var kv := Split(token, '=');
    JoinSplit(token, '=');
    assert kv == [kv[0], kv[1]] && kv[1..] == [kv[1]];
    assert Free('=', kv[0]) && Free('=', kv[1]) && token == kv[0] + "=" + kv[1];
  }

  lemma EnterPair(m: map<string, string>, token: string, k: string)
    requires k !in m
    ensures k in Enter(m, token) <==> IsPairOf(token, k)
    ensures IsPairOf(token, k) ==> |Split(token, '=')| == 2 && Enter(m, token)[k] == Trim(Split(token, '=')[1])
  {
  }

  /** The value of a key is that of the first token that is a pair with it; a key
      without such a token stays out. */
  lemma {:induction false} FirstWins(tokens: seq<string>, m: map<string, string>, k: string)
    requires k !in m
    ensures k in Collect(tokens, m) <==> exists i :: 0 <= i < |tokens| && IsPairOf(tokens[i], k)
    ensures forall i | 0 <= i < |tokens| && IsPairOf(tokens[i], k)
            && (forall j | 0 <= j < i :: !IsPairOf(tokens[j], k)) ::
              && |Split(tokens[i], '=')| == 2 && k in Collect(tokens, m)
              && Collect(tokens, m)[k] == Trim(Split(tokens[i], '=')[1])
  {
    hide Enter, IsPairOf, Split, Trim;
    if tokens != [] {
      var rest := tokens[1..];
      var m' := Enter(m, tokens[0]);
      EnterPair(m, tokens[0], k);
      if IsPairOf(tokens[0], k) {
        CollectKeeps(rest, m');
      } else {
        FirstWins(rest, m', k);
        assert forall i | 0 <= i < |rest| :: rest[i] == tokens[i + 1];
        assert forall i | 0 < i < |tokens| :: tokens[i] == rest[i - 1];
      }
    }
  }

  /** Keys outside K are collected independently of what is known about K. */
  lemma {:induction false} CollectOutside(tokens: seq<string>, m: map<string, string>, n: map<string, string>,
                                          K: set<string>)
    requires m - K == n - K
    ensures Collect(tokens, m) - K == Collect(tokens, n) - K
  {
    if tokens != [] {
      var m', n' := Enter(m, tokens[0]), Enter(n, tokens[0]);
      forall k | k !in K ensures (k in m' <==> k in n') && (k in m' ==> m'[k] == n'[k]) {
        assert k in m <==> k in m - K;
        assert k in n <==> k in n - K;
        assert k in m ==> m[k] == (m - K)[k] == n[k];
      }
      assert m' - K == n' - K;
      CollectOutside(tokens[1..], m', n', K);
    }
  }

  /** strPairAppendToMap, on a map that may hold entries already. */
  method StrPairAppendToMap(sSrc: string, mpStr: map<string, string>) returns (r: map<string, string>)
    ensures r == Collect(Split(sSrc, '&'), mpStr)
    ensures mpStr == map[] ==> r == PairMap(sSrc)
  {
    r := mpStr;
    var vStr := SplitString(sSrc, '&');
    for p := 0 to |vStr|
      invariant Collect(vStr[p..], r) == Collect(vStr, mpStr)
    {
      var vTmp := SplitString(vStr[p], '=');
      assert vStr[p..][1..] == vStr[p + 1..];
      if |vTmp| == 2 {
        var sKey := Trim(vTmp[0]);
        var sVal := Trim(vTmp[1]);
        if sKey !in r { r := r[sKey := sVal]; }
      }
    }
  }

  // ---------------------------------------------------------------- printing a map

  /** A text that survives tokenising and trimming. */
  predicate CleanPart(s: string) {
    Free('&', s) && Free('=', s) && Trimmed(s)
  }

  predicate CleanMap(m: map<string, string>) {
    forall k | k in m :: CleanPart(k) && CleanPart(m[k])
  }

  function Entry(k: string, v: string): string { k + "=" + v }

  function Entries(ks: seq<string>, m: map<string, string>): (r: seq<string>)
    requires forall k | k in ks :: k in m
    ensures |r| == |ks|
  {
    if ks == [] then [] else [Entry(ks[0], m[ks[0]])] + Entries(ks[1..], m)
  }

  /** All entries in key order, '&' between them. */
  function Serialise(m: map<string, string>): string {
    Join(Entries(SortedKeys(m.Keys), m), '&')
  }

  lemma EnterEntry(m: map<string, string>, k: string, v: string)
    requires CleanPart(k) && CleanPart(v)
    ensures Enter(m, Entry(k, v)) == if k in m then m else m[k := v]
    ensures Free('&', Entry(k, v))
  {
    PiecesConcat(k, '=', v);
    PiecesOfFree(k, '=');
    PiecesOfFree(v, '=');
    assert Entry(k, v) == k + ['='] + v;
    assert Split(Entry(k, v), '=') == [k, v];
    TrimFixes(k);
    TrimFixes(v);
  }

  lemma {:induction false} EntriesFree(ks: seq<string>, m: map<string, string>)
    requires CleanMap(m) && forall k | k in ks :: k in m
    ensures forall e | e in Entries(ks, m) :: Free('&', e)
  {
    if ks != [] {
      EnterEntry(m, ks[0], m[ks[0]]);
      EntriesFree(ks[1..], m);
    }
  }

  lemma RestrictStep(ks: seq<string>, m: map<string, string>, n: map<string, string>)
    requires ks != [] && forall k | k in ks :: k in m
    ensures n[ks[0] := m[ks[0]]] + (map k | k in ks[1..] :: m[k]) == n + (map k | k in ks :: m[k])
  {
    assert forall k :: k in ks <==> k == ks[0] || k in ks[1..];
  }

  /** Printed entries with different keys collect to the map they were printed from. */
  lemma {:induction false} CollectEntries(ks: seq<string>, m: map<string, string>, n: map<string, string>)
    requires CleanMap(m) && NoRepeats(ks)
    requires forall k | k in ks :: k in m && k !in n
    ensures Collect(Entries(ks, m), n) == n + (map k | k in ks :: m[k])
  {
    if ks == [] {
      assert n == n + (map k | k in ks :: m[k]);
    } else {
      var k0 := ks[0];
      EnterEntry(n, k0, m[k0]);
      var n' := n[k0 := m[k0]];
      assert NoRepeats(ks[1..]) && forall k | k in ks[1..] :: k in m && k !in n';
      CollectEntries(ks[1..], m, n');
      assert Entries(ks, m)[1..] == Entries(ks[1..], m);
      RestrictStep(ks, m, n);
    }
  }

  lemma SortedKeysOnce(s: set<string>)
    ensures NoRepeats(SortedKeys(s))
  {
    var ks := SortedKeys(s);
    forall i, j | 0 <= i < j < |ks| ensures ks[i] != ks[j] {
      LessTotal(ks[i], ks[j]);
    }
  }

  lemma CollectAll(ks: seq<string>, m: map<string, string>)
    requires CleanMap(m) && NoRepeats(ks) && forall k :: k in ks <==> k in m
    ensures Collect(Entries(ks, m), map[]) == m
  {
    CollectEntries(ks, m, map[]);
    assert map[] + (map k | k in ks :: m[k]) == m;
  }

  /** A clean map printed and tokenised again is the same map. */
  lemma PairMapSerialise(m: map<string, string>)
    requires CleanMap(m)
    ensures PairMap(Serialise(m)) == m
  {
    var ks := SortedKeys(m.Keys);
    var es := Entries(ks, m);
    SortedKeysOnce(m.Keys);
    CollectAll(ks, m);
    EntriesFree(ks, m);
    assert es != [""] by {
      if ks != [] { assert es[0] == Entry(ks[0], m[ks[0]]); }
    }
    SplitJoin(es, '&');
  }

  lemma {:induction false} EntryAt(ks: seq<string>, m: map<string, string>, i: nat)
    requires i < |ks| && forall k | k in ks :: k in m
    ensures Entries(ks, m)[i] == ks[i] + "=" + m[ks[i]]
  {
    if i > 0 { EntryAt(ks[1..], m, i - 1); }
  }

  /** What is printed: the tokens are the entries, each key once, in byte order. */
  lemma PrintedInOrder(m: map<string, string>) returns (ks: seq<string>)
    requires CleanMap(m)
    ensures Ascending(ks) && forall k :: k in ks <==> k in m
    ensures |Split(Serialise(m), '&')| == |ks|
    ensures forall i | 0 <= i < |ks| :: Split(Serialise(m), '&')[i] == ks[i] + "=" + m[ks[i]]
  {
    ks := SortedKeys(m.Keys);
    var es := Entries(ks, m);
    EntriesFree(ks, m);
    forall i | 0 <= i < |ks| ensures es[i] == ks[i] + "=" + m[ks[i]] { EntryAt(ks, m, i); }
    assert es != [""] by {
      if ks != [] { assert es[0] == Entry(ks[0], m[ks[0]]); }
    }
    SplitJoin(es, '&');
  }

  lemma TrimClean(s: string)
    requires Free('&', s) && Free('=', s)
    ensures CleanPart(Trim(s))
  {
    TrimKeepsOut(s, '&');
    TrimKeepsOut(s, '=');
    var _, _ := TrimMeaning(s);
  }

  lemma EnterClean(m: map<string, string>, token: string)
    requires CleanMap(m) && Free('&', token)
    ensures CleanMap(Enter(m, token))
  {
    var kv := Split(token, '=');
    if |kv| == 2 {
      PiecesFree(token, '=');
      JoinPieces(token, '=');
      assert token == kv[0] + ['='] + kv[1] by { assert kv[1..] == [kv[1]]; }
      assert forall c | c in kv[0] || c in kv[1] :: c in token;
      assert kv[0] in kv && kv[1] in kv;
      TrimClean(kv[0]);
      TrimClean(kv[1]);
    }
  }

  lemma {:induction false} CollectClean(tokens: seq<string>, m: map<string, string>)
    requires CleanMap(m) && forall t | t in tokens :: Free('&', t)
    ensures CleanMap(Collect(tokens, m))
  {
    if tokens != [] {
      EnterClean(m, tokens[0]);
      CollectClean(tokens[1..], Enter(m, tokens[0]));
    }
  }

  lemma PairMapClean(s: string)
    ensures CleanMap(PairMap(s))
  {
    PiecesFree(s, '&');
    CollectClean(Split(s, '&'), map[]);
  }

  /** Splitting off the empty text changes no map. */
  lemma PairMapPieces(s: string)
    ensures PairMap(s) == Collect(Pieces(s, '&'), map[])
  {
    if s == "" {
      assert Enter(map[], "") == map[];
      assert Pieces(s, '&')[1..] == [];
    }
  }

  /** The map that gives ks[i] the value vs[i]. */
  function Zip(ks: seq<string>, vs: seq<string>): map<string, string>
    requires |ks| == |vs|
  {
    if ks == [] then map[] else Zip(ks[1..], vs[1..])[ks[0] := vs[0]]
  }

  lemma {:induction false} ZipAt(ks: seq<string>, vs: seq<string>, i: nat)
    requires |ks| == |vs| && NoRepeats(ks) && i < |ks|
    ensures ks[i] in Zip(ks, vs) && Zip(ks, vs)[ks[i]] == vs[i]
  {
    if i > 0 {
      assert ks[1..][i - 1] == ks[i];
      ZipAt(ks[1..], vs[1..], i - 1);
    }
  }

  lemma {:induction false} ZipKeys(ks: seq<string>, vs: seq<string>)
    requires |ks| == |vs|
    ensures forall k :: k in Zip(ks, vs) <==> k in ks
    ensures (forall k | k in ks :: CleanPart(k)) && (forall v | v in vs :: CleanPart(v)) ==> CleanMap(Zip(ks, vs))
  {
    if ks != [] {
      ZipKeys(ks[1..], vs[1..]);
      assert forall k :: k in ks <==> k == ks[0] || k in ks[1..];
    }
  }

  /** Behind printed entries any text is tokenised on its own, and cannot touch
      the keys of those entries. */
  lemma BehindEntries(ks: seq<string>, m: map<string, string>, tail: string)
    requires ks != [] && CleanMap(m) && NoRepeats(ks) && forall k :: k in ks <==> k in m
    ensures var all := PairMap(Join(Entries(ks, m), '&') + "&" + tail);
            (forall k | k in m :: k in all && all[k] == m[k]) && all - m.Keys == PairMap(tail) - m.Keys
  {
    var es := Entries(ks, m);
    var joined := Join(es, '&');
    EntriesFree(ks, m);
    assert joined + "&" + tail == joined + ['&'] + tail;
    PiecesConcat(joined, '&', tail);
    PiecesJoin(es, '&');
    PairMapPieces(joined + "&" + tail);
    PairMapPieces(tail);
    CollectConcat(es, Pieces(tail, '&'), map[]);
    CollectAll(ks, m);
    CollectKeeps(Pieces(tail, '&'), m);
    CollectOutside(Pieces(tail, '&'), m, map[], m.Keys);
  }

  lemma SortedPair(a: string, b: string)
    requires Less(a, b)
    ensures SortedKeys({a}) == [a] && SortedKeys({a, b}) == [a, b]
  {
    LessTotal(a, b);
    var s := {a, b};
    LeastExists(s);
    assert IsLeast(a, s) && Least(s) == a;
    assert s - {a} == {b};
    assert {b} - {b} == {} && {a} - {a} == {};
    assert Least({b}) == b && Least({a}) == a;
  }

  // ---------------------------------------------------------------- lengths

  /** Characters needed to print the entries of a map, each with one separator. */
  ghost function Weight(m: map<string, string>): nat {
    if m == map[] then 0
    else
      var k :| k in m;
      |m[k]| + |k| + 2 + Weight(m - {k})
  }

  lemma {:induction false} WeightTake(m: map<string, string>, k: string)
    requires k in m
    ensures Weight(m) == |m[k]| + |k| + 2 + Weight(m - {k})
    decreases |m|
  {
    var j :| j in m && Weight(m) == |m[j]| + |j| + 2 + Weight(m - {j});
    if j != k {
      WeightTake(m - {j}, k);
      WeightTake(m - {k}, j);
      assert m - {j} - {k} == m - {k} - {j};
    }
  }

  lemma {:induction false} EntriesWeight(ks: seq<string>, m: map<string, string>)
    requires NoRepeats(ks) && forall k :: k in ks <==> k in m
    ensures ks != [] ==> |Join(Entries(ks, m), '&')| + 1 == Weight(m)
    ensures ks == [] ==> Weight(m) == 0
  {
    if ks != [] {
      var k := ks[0];
      WeightTake(m, k);
      var rest := m - {k};
      EntriesWeight(ks[1..], rest);
      EntriesSame(ks[1..], m, rest);
      assert Entries(ks, m)[1..] == Entries(ks[1..], m);
    } else {
      assert m == map[];
    }
  }

  lemma {:induction false} EntriesSame(ks: seq<string>, m: map<string, string>, n: map<string, string>)
    requires forall k | k in ks :: k in m && k in n && m[k] == n[k]
    ensures Entries(ks, m) == Entries(ks, n)
  {
    if ks != [] { EntriesSame(ks[1..], m, n); }
  }

  lemma {:induction false} CollectWeight(tokens: seq<string>, m: map<string, string>)
    requires tokens != []
    ensures Weight(Collect(tokens, m)) <= Weight(m) + |Join(tokens, '&')| + 1
  {
    EnterWeight(m, tokens[0]);
    if |tokens| > 1 {
      CollectWeight(tokens[1..], Enter(m, tokens[0]));
    }
  }

  lemma EnterWeight(m: map<string, string>, token: string)
    ensures Weight(Enter(m, token)) <= Weight(m) + |token| + 1
  {
    var kv := Split(token, '=');
    if |kv| == 2 && Trim(kv[0]) !in m {
      JoinPieces(token, '=');
      assert kv[1..] == [kv[1]];
      var k := Trim(kv[0]);
      WeightTake(Enter(m, token), k);
      assert Enter(m, token) - {k} == m;
    }
  }

  lemma {:induction false} WeightMonotone(m: map<string, string>, K: set<string>)
    ensures Weight(m - K) <= Weight(m)
    decreases K
  {
    if K != {} {
      var k :| k in K;
      WeightMonotone(m - {k}, K - {k});
      assert m - {k} - (K - {k}) == m - K;
      if k in m { WeightTake(m, k); } else { assert m - {k} == m; }
    } else {
      assert m - K == m;
    }
  }

  /** Tokenising, dropping keys and printing again never makes a text longer. */
  lemma SerialiseShorter(s: string, K: set<string>)
    ensures |Serialise(PairMap(s) - K)| <= |s|
  {
    var m := PairMap(s) - K;
    var ks := SortedKeys(m.Keys);
    SortedKeysOnce(m.Keys);
    EntriesWeight(ks, m);
    if s != "" {
      CollectWeight(Split(s, '&'), map[]);
      JoinPieces(s, '&');
    }
    WeightMonotone(PairMap(s), K);
  }
}
