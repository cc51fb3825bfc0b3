/** netio/include/mod_hash_v1.h and netio/src/cache_manager.cpp: three lossy hash
    tables of counters, one after the other in a shared memory area. Sizes and
    places are counted in words of four bytes. */
module Cache {
  import opened Common
  import opened Text

  // ---------------------------------------------------------------- layout

  const HEAD_WORDS := 16
  const BUCKET_WORDS := 9
  const HAS_SET := 2
  const INVALID := 3
  const NODE := 8

  const CACHE_WORDS := 10240
  const SPECIFIER: int32 := 17607181
  const SUCCESS := 0
  const KEY_NOT_FOUND := 1003
  const INVALID_KEY := -1

  /** A table: its head begins at word `start`, its buckets follow. */
  datatype Region = Region(start: nat, nodes: nat)

  function TotalWords(r: Region): nat { HEAD_WORDS + r.nodes * BUCKET_WORDS }

  function End(r: Region): nat { r.start + TotalWords(r) }

  function Bucket(r: Region, i: nat): nat { r.start + HEAD_WORDS + i * BUCKET_WORDS }

  predicate Holds(r: Region, w: int) { r.start <= w < End(r) }

  datatype Layout = Layout(netio: Region, c1: Region, c2: Region)

  /** Word 0 is the mark that the area was initialised; then the tables. */
  function LayoutOf(netio: nat, c1: nat, c2: nat): Layout {
    var r0 := Region(1, netio);
    var r1 := Region(End(r0), c1);
    var r2 := Region(End(r1), c2);
    Layout(r0, r1, r2)
  }

  const LAYOUT := LayoutOf(1, 100, 100)

  /** The tables share no word with each other or with the mark, and every bucket
      is inside its table and apart from every other; for all node counts. */
  lemma LayoutIsSound(netio: nat, c1: nat, c2: nat, w: int)
    ensures var l := LayoutOf(netio, c1, c2);
            && !(Holds(l.netio, w) && Holds(l.c1, w))
            && !(Holds(l.c1, w) && Holds(l.c2, w))
            && !(Holds(l.netio, w) && Holds(l.c2, w))
            && (Holds(l.netio, w) || Holds(l.c1, w) || Holds(l.c2, w) <==> 1 <= w < End(l.c2))
            && End(l.c2) == 1 + 3 * 16 + (netio + c1 + c2) * 9
  {
  }

  lemma BucketsApart(r: Region, i: nat, j: nat, a: nat, b: nat)
    requires i < r.nodes && j < r.nodes && a < BUCKET_WORDS && b < BUCKET_WORDS
    ensures Holds(r, Bucket(r, i) + a)
    ensures Bucket(r, i) + a == Bucket(r, j) + b <==> i == j && a == b
  {
  }

  // ---------------------------------------------------------------- tables

  /** What a bucket holds, as Find sees it. */
  function Cell(area: seq<int32>, r: Region, i: nat): Option<int32>
    requires End(r) <= |area| && i < r.nodes
  {
    BucketsApart(r, i, i, 0, NODE);
    var b := Bucket(r, i);
    if area[b + HAS_SET] != 0 && area[b + INVALID] == 0 then Some(area[b + NODE]) else None
  }

  function Cells(area: seq<int32>, r: Region): (cs: seq<Option<int32>>)
    requires End(r) <= |area|
    ensures |cs| == r.nodes
  {
    seq(r.nodes, i requires 0 <= i < r.nodes => Cell(area, r, i))
  }

  /** A table whose words did not change holds what it held. */
  lemma CellsSame(a: seq<int32>, b: seq<int32>, r: Region)
    requires End(r) <= |a| == |b|
    requires forall w | r.start + HEAD_WORDS <= w < End(r) :: a[w] == b[w]
    ensures Cells(a, r) == Cells(b, r)
  {
    forall i | 0 <= i < r.nodes ensures Cell(a, r, i) == Cell(b, r, i) {
      BucketsApart(r, i, i, HAS_SET, INVALID);
      BucketsApart(r, i, i, NODE, NODE);
    }
  }

  // ---------------------------------------------------------------- the cache

  /** The three tables, by what their buckets hold. */
  datatype Counters = Counters(netio: seq<Option<int32>>, c1: seq<Option<int32>>, c2: seq<Option<int32>>)

  function View(area: seq<int32>): (v: Counters)
    requires |area| == CACHE_WORDS
    ensures |v.netio| == 1 && |v.c1| == 100 && |v.c2| == 100
  {
    Counters(Cells(area, LAYOUT.netio), Cells(area, LAYOUT.c1), Cells(area, LAYOUT.c2))
  }

  datatype Stat = NetIoStat | ContainerOneStat | ContainerTwoStat

  /** The prefix of a key selects the table. */
  function StatOf(sKey: string): Option<Stat> {
    if "c1_" <= sKey then Some(ContainerOneStat)
    else if "c2_" <= sKey then Some(ContainerTwoStat)
    else if "netio_" <= sKey then Some(NetIoStat)
    else None
  }

  function RegionOf(s: Stat): Region {
    match s
    case NetIoStat => LAYOUT.netio
    case ContainerOneStat => LAYOUT.c1
    case ContainerTwoStat => LAYOUT.c2
  }

  function CellsOf(c: Counters, s: Stat): seq<Option<int32>> {
    match s
    case NetIoStat => c.netio
    case ContainerOneStat => c.c1
    case ContainerTwoStat => c.c2
  }

  function WithCells(c: Counters, s: Stat, cells: seq<Option<int32>>): Counters {
    match s
    case NetIoStat => c.(netio := cells)
    case ContainerOneStat => c.(c1 := cells)
    case ContainerTwoStat => c.(c2 := cells)
  }

  predicate Sized(c: Counters) { forall s :: |CellsOf(c, s)| == RegionOf(s).nodes }

  /** The place of a key: its table and its bucket there. */
  datatype Place = Place(stat: Stat, bucket: nat)

  function PlaceOf(sKey: string, hash: string -> nat): (p: Option<Place>)
    ensures p.Some? ==> p.value.bucket < RegionOf(p.value.stat).nodes
  {
    match StatOf(sKey)
    case None => None
    case Some(s) => Some(Place(s, hash(sKey) % RegionOf(s).nodes))
  }

  lemma CellsWrite(a: seq<int32>, b: seq<int32>, r: Region, i: nat)
    requires End(r) <= |a| == |b| && i < r.nodes
    requires forall w | 0 <= w < |a| && !(Bucket(r, i) <= w < Bucket(r, i) + BUCKET_WORDS) :: a[w] == b[w]
    ensures Cells(b, r) == Cells(a, r)[i := Cell(b, r, i)]
  {
    forall j | 0 <= j < r.nodes && j != i ensures Cell(a, r, j) == Cell(b, r, j) {
      BucketsApart(r, j, j, HAS_SET, NODE);
      BucketsApart(r, j, j, INVALID, NODE);
      OutsideBucket(r, i, j, HAS_SET);
      OutsideBucket(r, i, j, INVALID);
      OutsideBucket(r, i, j, NODE);
    }
  }

  lemma OutsideBucket(r: Region, i: nat, j: nat, k: nat)
    requires i < r.nodes && j < r.nodes && i != j && k < BUCKET_WORDS
    ensures !(Bucket(r, i) <= Bucket(r, j) + k < Bucket(r, i) + BUCKET_WORDS)
  {
  }

  /** Writing into one bucket changes one cell of one table. */
  lemma ViewWrite(a: seq<int32>, b: seq<int32>, s: Stat, i: nat)
    requires |a| == |b| == CACHE_WORDS && i < RegionOf(s).nodes
    requires var at := Bucket(RegionOf(s), i);
             forall w | 0 <= w < |a| && !(at <= w < at + BUCKET_WORDS) :: a[w] == b[w]
    ensures Sized(View(a)) && Sized(View(b))
    ensures View(b) == WithCells(View(a), s, CellsOf(View(a), s)[i := Cell(b, RegionOf(s), i)])
  {
    hide Cells, Cell;
    CellsWrite(a, b, RegionOf(s), i);
    var at := Bucket(RegionOf(s), i);
    BucketsApart(RegionOf(s), i, i, 0, BUCKET_WORDS - 1);
    if s != NetIoStat { CellsSame(a, b, LAYOUT.netio); }
    if s != ContainerOneStat { CellsSame(a, b, LAYOUT.c1); }
    if s != ContainerTwoStat { CellsSame(a, b, LAYOUT.c2); }
  }

  // ---------------------------------------------------------------- operations

  datatype Op = Set(sKey: string, iValue: int32) | Incr(sKey: string, iValue: int32) | Delete(sKey: string)

  /** What an operation leaves in the bucket of its key; int addition wraps around. */
  function Change(op: Op, cell: Option<int32>): Option<int32> {
    match op
    case Set(_, v) => Some(v)
    case Incr(_, v) => if cell.Some? then Some(ToInt32(cell.value + v)) else Some(v)
    case Delete(_) => None
  }

  function At(c: Counters, p: Place): Option<int32>
    requires Sized(c) && p.bucket < RegionOf(p.stat).nodes
  {
    CellsOf(c, p.stat)[p.bucket]
  }

  function Apply(c: Counters, op: Op, hash: string -> nat): (r: Counters)
    requires Sized(c)
    ensures Sized(r)
  {
    match PlaceOf(op.sKey, hash)
    case None => c
    case Some(p) => WithCells(c, p.stat, CellsOf(c, p.stat)[p.bucket := Change(op, At(c, p))])
  }

  function ApplyAll(c: Counters, ops: seq<Op>, hash: string -> nat): (r: Counters)
    requires Sized(c)
    ensures Sized(r)
  {
    if ops == [] then c else Apply(ApplyAll(c, ops[..|ops| - 1], hash), ops[|ops| - 1], hash)
  }

  function Get(c: Counters, sKey: string, hash: string -> nat): Option<int32>
    requires Sized(c)
  {
    match PlaceOf(sKey, hash)
    case None => None
    case Some(p) => At(c, p)
  }

  // ---------------------------------------------------------------- what Get means

  /** The operations that concern a place, in order. */
  function Concerning(ops: seq<Op>, p: Place, hash: string -> nat): seq<Op> {
    if ops == [] then []
    else
      var rest := Concerning(ops[..|ops| - 1], p, hash);
      if PlaceOf(ops[|ops| - 1].sKey, hash) == Some(p) then rest + [ops[|ops| - 1]] else rest
  }

  /** Those behind the last Delete, and whether there is one. */
  function SinceDelete(ops: seq<Op>): seq<Op> {
    if ops == [] || ops[|ops| - 1].Delete? then [] else SinceDelete(ops[..|ops| - 1]) + [ops[|ops| - 1]]
  }

  /** The value that sets and increments leave in a cell. */
  function Total(cell: Option<int32>, ops: seq<Op>): Option<int32> {
    if ops == [] then cell else Change(ops[|ops| - 1], Total(cell, ops[..|ops| - 1]))
  }

  lemma AtAfter(c: Counters, op: Op, p: Place, hash: string -> nat)
    requires Sized(c) && p.bucket < RegionOf(p.stat).nodes
    ensures At(Apply(c, op, hash), p) == if PlaceOf(op.sKey, hash) == Some(p) then Change(op, At(c, p)) else At(c, p)
  {
  }

  lemma {:induction false} PlaceFolds(c: Counters, ops: seq<Op>, p: Place, hash: string -> nat)
    requires Sized(c) && p.bucket < RegionOf(p.stat).nodes
    ensures At(ApplyAll(c, ops, hash), p) == Total(At(c, p), Concerning(ops, p, hash))
  {
    if ops != [] {
      hide Apply, At, Change, PlaceOf;
      AtAfter(ApplyAll(c, ops[..|ops| - 1], hash), ops[|ops| - 1], p, hash);
      PlaceFolds(c, ops[..|ops| - 1], p, hash);
      var rest := Concerning(ops[..|ops| - 1], p, hash);
      var last := ops[|ops| - 1];
      assert (rest + [last])[..|rest|] == rest;
    }
  }

  lemma {:induction false} TotalSinceDelete(cell: Option<int32>, ops: seq<Op>)
    ensures Total(cell, ops) ==
            Total(if exists op :: op in ops && op.Delete? then None else cell, SinceDelete(ops))
  {
    if ops != [] && !ops[|ops| - 1].Delete? {
      var front := ops[..|ops| - 1];
      TotalSinceDelete(cell, front);
      assert (SinceDelete(front) + [ops[|ops| - 1]])[..|SinceDelete(front)|] == SinceDelete(front);
      assert ops == front + [ops[|ops| - 1]];
    } else if ops != [] {
      assert ops[|ops| - 1] in ops;
    }
  }

  /** Main result: after any operations, Get of a key is the total of the sets
      and increments on its table and bucket since the last Delete there; and a
      key without a valid prefix is never found. */
  lemma GetIsTotal(c: Counters, ops: seq<Op>, sKey: string, hash: string -> nat)
    requires Sized(c)
    ensures StatOf(sKey) == None ==> Get(ApplyAll(c, ops, hash), sKey, hash) == None
    ensures StatOf(sKey).Some? ==>
              var p := PlaceOf(sKey, hash).value;
              var here := Concerning(ops, p, hash);
              Get(ApplyAll(c, ops, hash), sKey, hash) ==
              Total(if exists op :: op in here && op.Delete? then None else At(c, p), SinceDelete(here))
  {
    if StatOf(sKey).Some? {
      var p := PlaceOf(sKey, hash).value;
      PlaceFolds(c, ops, p, hash);
      TotalSinceDelete(At(c, p), Concerning(ops, p, hash));
    }
  }

  /** Operations on other prefixes, or on keys without one, change no Get. */
  lemma {:induction false} PrefixesAreApart(c: Counters, ops: seq<Op>, sKey: string, hash: string -> nat)
    requires Sized(c) && forall op | op in ops :: StatOf(op.sKey) != StatOf(sKey)
    ensures Get(ApplyAll(c, ops, hash), sKey, hash) == Get(c, sKey, hash)
  {
    if ops != [] {
      assert ops[|ops| - 1] in ops;
      PrefixesAreApart(c, ops[..|ops| - 1], sKey, hash);
    }
  }

  // ---------------------------------------------------------------- keys

  /** The three prefixes that the statistics calls use. */
  const PREFIXES := ["netio_", "c1_", "c2_"]

  /** Keys of different prefixes are in different tables, whatever the hash. */
  lemma PrefixesHaveTables(s: string, t: string, hash: string -> nat)
    ensures StatOf("netio_" + s) == Some(NetIoStat)
    ensures StatOf("c1_" + s) == Some(ContainerOneStat)
    ensures StatOf("c2_" + s) == Some(ContainerTwoStat)
    ensures PlaceOf("netio_" + s, hash) != PlaceOf("c1_" + t, hash)
    ensures PlaceOf("netio_" + s, hash) != PlaceOf("c2_" + t, hash)
    ensures PlaceOf("c1_" + s, hash) != PlaceOf("c2_" + t, hash)
  {
    assert ("netio_" + s)[0] == 'n' && ("c1_" + s)[1] == '1' && ("c2_" + s)[1] == '2';
  }

  lemma PrefixIsValid(i: nat, s: string)
    requires i < 3
    ensures StatOf(PREFIXES[i] + s).Some?
  {
    PrefixesHaveTables(s, s, _ => 0);
  }

  /** Every key with one of the prefixes is kept: a Set is found, an Incr adds to
      what is there or starts with its value, a Delete is forgotten. */
  lemma PrefixedKeysAreKept(c: Counters, i: nat, s: string, v: int32, hash: string -> nat)
    requires Sized(c) && i < 3
    ensures var k := PREFIXES[i] + s;
            && Get(Apply(c, Set(k, v), hash), k, hash) == Some(v)
            && Get(Apply(c, Delete(k), hash), k, hash) == None
            && (Get(c, k, hash) == None ==> Get(Apply(c, Incr(k, v), hash), k, hash) == Some(v))
            && (Get(c, k, hash).Some? ==>
                  Get(Apply(c, Incr(k, v), hash), k, hash) == Some(ToInt32(Get(c, k, hash).value + v)))
  {
    var k := PREFIXES[i] + s;
    PrefixIsValid(i, s);
    hide Apply, Get, StatOf, PlaceOf, Sized;
    GetAfter(c, Set(k, v), k, hash);
    GetAfter(c, Delete(k), k, hash);
    GetAfter(c, Incr(k, v), k, hash);
  }

  /** A key with none of them is refused: it changes nothing and is never found. */
  lemma OtherKeysAreRefused(c: Counters, op: Op, hash: string -> nat)
    requires Sized(c) && forall i | 0 <= i < 3 :: !(PREFIXES[i] <= op.sKey)
    ensures StatOf(op.sKey) == None && Apply(c, op, hash) == c && Get(c, op.sKey, hash) == None
  {
    assert !(PREFIXES[0] <= op.sKey) && !(PREFIXES[1] <= op.sKey) && !(PREFIXES[2] <= op.sKey);
  }

  /** A zero area, as the kernel hands it out, holds no counter. */
  lemma ZeroIsEmpty(area: seq<int32>)
    requires |area| == CACHE_WORDS && forall w | 0 <= w < |area| :: area[w] == 0
    ensures Empty(View(area))
  {
    ZeroCells(area, LAYOUT.netio);
    ZeroCells(area, LAYOUT.c1);
    ZeroCells(area, LAYOUT.c2);
    hide Cells;
  }

  lemma ZeroCells(area: seq<int32>, r: Region)
    requires End(r) <= |area| && forall w | 0 <= w < |area| :: area[w] == 0
    ensures forall i | 0 <= i < r.nodes :: Cells(area, r)[i] == None
  {
    forall i | 0 <= i < r.nodes ensures Cell(area, r, i) == None {
      BucketsApart(r, i, i, HAS_SET, HAS_SET);
    }
  }

  // ---------------------------------------------------------------- against a plain map

  /** A plain map of counters. */
  function Plain(m: map<string, int32>, op: Op): map<string, int32> {
    match op
    case Set(k, v) => m[k := v]
    case Incr(k, v) => if k in m then m[k := ToInt32(m[k] + v)] else m[k := v]
    case Delete(k) => m - {k}
  }

  function PlainAll(ops: seq<Op>): map<string, int32> {
    if ops == [] then map[] else Plain(PlainAll(ops[..|ops| - 1]), ops[|ops| - 1])
  }

  function PlainGet(m: map<string, int32>, k: string): Option<int32> { if k in m then Some(m[k]) else None }

  ghost predicate Empty(c: Counters) { Sized(c) && forall s, i | 0 <= i < |CellsOf(c, s)| :: CellsOf(c, s)[i] == None }

  /** As long as no other key in use shares the place of a key, the cache is a
      plain map for it. */
  lemma {:induction false} PlainUnlessShared(c: Counters, ops: seq<Op>, sKey: string, hash: string -> nat)
    requires Empty(c) && StatOf(sKey).Some?
    requires forall op | op in ops && PlaceOf(op.sKey, hash) == PlaceOf(sKey, hash) :: op.sKey == sKey
    ensures Get(ApplyAll(c, ops, hash), sKey, hash) == PlainGet(PlainAll(ops), sKey)
  {
    if ops != [] {
      hide PlaceOf, StatOf, Apply, Get, Empty, Plain, PlainGet, Change;
      var front, op := ops[..|ops| - 1], ops[|ops| - 1];
      assert op in ops;
      assert forall o | o in front :: o in ops;
      PlainUnlessShared(c, front, sKey, hash);
      PlainAfter(PlainAll(front), op, sKey);
      EmptySized(c);
      GetAfter(ApplyAll(c, front, hash), op, sKey, hash);
    } else {
      EmptyGet(c, sKey, hash);
    }
  }

  lemma PlainAfter(m: map<string, int32>, op: Op, sKey: string)
    ensures PlainGet(Plain(m, op), sKey) == if op.sKey == sKey then Change(op, PlainGet(m, sKey)) else PlainGet(m, sKey)
  {
  }

  lemma EmptySized(c: Counters)
    requires Empty(c)
    ensures Sized(c)
  {
  }

  lemma EmptyGet(c: Counters, sKey: string, hash: string -> nat)
    requires Empty(c)
    ensures Sized(c) && Get(c, sKey, hash) == None
  {
  }

  lemma GetAfter(c: Counters, op: Op, sKey: string, hash: string -> nat)
    requires Sized(c) && StatOf(sKey).Some?
    ensures Get(Apply(c, op, hash), sKey, hash) ==
            if PlaceOf(op.sKey, hash) == PlaceOf(sKey, hash) then Change(op, Get(c, sKey, hash)) else Get(c, sKey, hash)
  {
  }

  /** And only then: a Set of another key at the same place shows through. */
  lemma SharedShows(c: Counters, sKey: string, other: string, v: int32, hash: string -> nat)
    requires Empty(c) && StatOf(sKey).Some? && sKey != other && PlaceOf(other, hash) == PlaceOf(sKey, hash)
    ensures Get(ApplyAll(c, [Set(other, v)], hash), sKey, hash) == Some(v)
    ensures PlainGet(PlainAll([Set(other, v)]), sKey) == None
  {
    var ops := [Set(other, v)];
    assert ops[..0] == [];
    assert ApplyAll(c, ops[..0], hash) == c;
    assert PlainAll(ops[..0]) == map[];
  }
}
