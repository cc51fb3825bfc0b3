/** The hash table and the cache manager as objects on a shared area. */
module CacheProcess {
  import opened Common
  import opened Text
  import opened Cache

  /** CModHashV1<string,int>. Pointers are word offsets into the area. */
  class CModHashV1 {
    const area: array<int32>
    const hash: string -> nat
    var iInited: bool
    var iBuckNums: nat
    var iTotalSize: nat
    var pCache: nat
    var pPucketsStart: nat
    var pPBucketsEnd: int

    constructor (a: array<int32>, h: string -> nat)
      ensures area == a && hash == h
    {
      area, hash := a, h;
      iInited, iBuckNums, iTotalSize, pCache, pPucketsStart, pPBucketsEnd := false, 0, 0, 0, 0, 0;
    }

    ghost function Place(): Region
      reads this
    {
      Region(pCache, iBuckNums)
    }

    ghost predicate Valid()
      reads this
    {
      && iInited && iBuckNums > 0 && End(Place()) <= area.Length
      && iTotalSize == TotalWords(Place())
      && pPucketsStart == Bucket(Place(), 0) && pPBucketsEnd == Bucket(Place(), iBuckNums - 1)
    }

    /** Only the sixteen words of the head are written. */
    method InitalizeByNodeCount(pCache: nat, dwNodeCount: nat, now: int32)
      requires dwNodeCount > 0 && End(Region(pCache, dwNodeCount)) <= area.Length <= 0x1000_0000
      modifies this, area
      ensures Valid() && Place() == Region(pCache, dwNodeCount)
      ensures forall w | 0 <= w < area.Length && !(pCache <= w < pCache + HEAD_WORDS) :: area[w] == old(area[w])
      ensures area[pCache..pCache + 16] ==
              [SPECIFIER, 1, dwNodeCount, 0, 0, 0, now, now, (16 + 9 * dwNodeCount) * 4, dwNodeCount,
               pCache, 0, pCache + 16, 0, pCache + 16 + 9 * (dwNodeCount - 1), 0]
    {
      iBuckNums := dwNodeCount;
      var iBucksSize := iBuckNums * BUCKET_WORDS;
      iTotalSize := iBucksSize + HEAD_WORDS;
      this.pCache := pCache;
      pPucketsStart := pCache + HEAD_WORDS;
      pPBucketsEnd := pCache + HEAD_WORDS + iBucksSize - BUCKET_WORDS;
      iInited := true;
      StoreHead(now);
    }

    /** memcpy of the head; the three pointers take two words each. */
    method StoreHead(now: int32)
      requires Valid() && area.Length <= 0x1000_0000
      modifies area
      ensures forall w | 0 <= w < area.Length && !(pCache <= w < pCache + HEAD_WORDS) :: area[w] == old(area[w])
      ensures area[pCache..pCache + HEAD_WORDS] ==
              [SPECIFIER, 1, iBuckNums, 0, 0, 0, now, now, iTotalSize * 4, iBuckNums,
               pCache, 0, pPucketsStart, 0, pPBucketsEnd, 0]
    {
      var head: seq<int32> := [SPECIFIER, 1, iBuckNums, 0, 0, 0, now, now, iTotalSize * 4, iBuckNums,
                               pCache, 0, pPucketsStart, 0, pPBucketsEnd, 0];
      assert |head| == HEAD_WORDS;
      for i := 0 to HEAD_WORDS
        invariant forall w | 0 <= w < area.Length && !(pCache <= w < pCache + i) :: area[w] == old(area[w])
        invariant forall k | 0 <= k < i :: area[pCache + k] == head[k]
      {
        area[pCache + i] := head[i];
      }
      assert area[pCache..pCache + HEAD_WORDS] == head;
    }

    function ModToUint(nodeKey: string): (i: nat)
      requires iBuckNums > 0
      reads this
      ensures i < iBuckNums
    {
      hash(nodeKey) % iBuckNums
    }

    method Find(sIndexkey: string) returns (iRet: int, indexNode: int32)
      requires Valid()
      ensures var c := Cell(area[..], Place(), ModToUint(sIndexkey));
              if c.Some? then iRet == SUCCESS && indexNode == c.value else iRet == KEY_NOT_FOUND
    {
      var iBuckIndex := ModToUint(sIndexkey);
      var pBuck := pPucketsStart + iBuckIndex * BUCKET_WORDS;
      BucketsApart(Place(), iBuckIndex, iBuckIndex, 0, NODE);
      if area[pBuck + HAS_SET] != 0 && area[pBuck + INVALID] == 0 { return SUCCESS, area[pBuck + NODE]; }
      return KEY_NOT_FOUND, 0;
    }

    /** Only the bucket of the key is written. */
    method Add(sIndexkey: string, indexNode: int32) returns (iRet: int)
      requires Valid()
      modifies area
      ensures iRet == SUCCESS
      ensures var i := ModToUint(sIndexkey);
              && Cell(area[..], Place(), i) == Some(indexNode)
              && forall w | 0 <= w < area.Length && !(Bucket(Place(), i) <= w < Bucket(Place(), i) + BUCKET_WORDS) ::
                   area[w] == old(area[..])[w]
    {
      var iBuckIndex := ModToUint(sIndexkey);
      var pBuck := pPucketsStart + iBuckIndex * BUCKET_WORDS;
      BucketsApart(Place(), iBuckIndex, iBuckIndex, 0, NODE);
      area[pBuck + NODE] := indexNode;
      area[pBuck + HAS_SET] := 1;
      area[pBuck + INVALID] := 0;
      return SUCCESS;
    }

    method Delete(sIndexkey: string) returns (iRet: int)
      requires Valid()
      modifies area
      ensures iRet == SUCCESS
      ensures var i := ModToUint(sIndexkey);
              && Cell(area[..], Place(), i) == None
              && forall w | 0 <= w < area.Length && !(Bucket(Place(), i) <= w < Bucket(Place(), i) + BUCKET_WORDS) ::
                   area[w] == old(area[..])[w]
    {
      var iBuckIndex := ModToUint(sIndexkey);
      var pBuck := pPucketsStart + iBuckIndex * BUCKET_WORDS;
      BucketsApart(Place(), iBuckIndex, iBuckIndex, 0, NODE);
      area[pBuck + INVALID] := 1;
      return SUCCESS;
    }

    /** The loop from the first bucket to the last: no key is found afterwards. */
    method Reset() returns (iRet: int)
      requires Valid()
      modifies area
      ensures iRet == SUCCESS
      ensures forall i | 0 <= i < iBuckNums :: Cell(area[..], Place(), i) == None
      ensures forall w | 0 <= w < area.Length && !(pPucketsStart <= w < End(Place())) :: area[w] == old(area[w])
    {
      var pBuck := pPucketsStart;
      ghost var n := 0;
      while pBuck <= pPBucketsEnd
        invariant n <= iBuckNums && pBuck == Bucket(Place(), n)
        invariant forall i | 0 <= i < n :: area[Bucket(Place(), i) + INVALID] == 1
        invariant forall w | 0 <= w < area.Length && !(pPucketsStart <= w < End(Place())) :: area[w] == old(area[w])
      {
        BucketsApart(Place(), n, n, INVALID, INVALID);
        area[pBuck + INVALID] := 1;
        pBuck := pBuck + BUCKET_WORDS;
        n := n + 1;
      }
      forall i | 0 <= i < iBuckNums ensures Cell(area[..], Place(), i) == None {
        BucketsApart(Place(), i, i, INVALID, INVALID);
      }
      return SUCCESS;
    }
  }

  class CCacheManager {
    const m_pStart: array<int32>
    const NetIoStat: CModHashV1
    const ContainerOneStat: CModHashV1
    const ContainerTwoStat: CModHashV1

    ghost predicate Attached()
      reads this
    {
      && m_pStart.Length == CACHE_WORDS
      && NetIoStat.area == m_pStart && ContainerOneStat.area == m_pStart && ContainerTwoStat.area == m_pStart
      && NetIoStat.hash == ContainerOneStat.hash == ContainerTwoStat.hash
      && NetIoStat != ContainerOneStat && ContainerOneStat != ContainerTwoStat && NetIoStat != ContainerTwoStat
    }

    ghost predicate Valid()
      reads this, NetIoStat, ContainerOneStat, ContainerTwoStat
    {
      && Attached()
      && NetIoStat.Valid() && NetIoStat.Place() == LAYOUT.netio
      && ContainerOneStat.Valid() && ContainerOneStat.Place() == LAYOUT.c1
      && ContainerTwoStat.Valid() && ContainerTwoStat.Place() == LAYOUT.c2
    }

    ghost function Contents(): Counters
      requires Valid()
      reads this, NetIoStat, ContainerOneStat, ContainerTwoStat, m_pStart
    {
      View(m_pStart[..])
    }

    ghost function Hash(): string -> nat { NetIoStat.hash }

    /** Attaching to an area, which may be new or hold the counters of an
        earlier process. */
    constructor (area: array<int32>, h: string -> nat, now: int32)
      requires area.Length == CACHE_WORDS
      modifies area
      ensures Valid() && m_pStart == area && Hash() == h
      ensures View(area[..]) == View(old(area[..])) && area[0] != 0
    {
      m_pStart := area;
      NetIoStat := new CModHashV1(area, h);
      ContainerOneStat := new CModHashV1(area, h);
      ContainerTwoStat := new CModHashV1(area, h);
      new;
      Initalize(now);
    }

    /** Both branches lay out the heads again and leave every bucket alone, so no
        Get changes, at the first start as at every restart. */
    method Initalize(now: int32)
      requires Attached()
      modifies NetIoStat, ContainerOneStat, ContainerTwoStat, m_pStart
      ensures Valid() && View(m_pStart[..]) == View(old(m_pStart[..])) && m_pStart[0] != 0
    {
      hide View;
      var iInit := m_pStart[0];
      if iInit == 0 {
        LayTables(now);
        ghost var laid := m_pStart[..];
        m_pStart[0] := 1;
        ViewOfBuckets(laid, m_pStart[..]);
      } else {
        LayTables(now);
      }
    }

    method LayTables(now: int32)
      requires Attached()
      modifies NetIoStat, ContainerOneStat, ContainerTwoStat, m_pStart
      ensures Valid() && View(m_pStart[..]) == View(old(m_pStart[..])) && m_pStart[0] == old(m_pStart[0])
    {
      hide View;
      var pNetIoCacheStart := 1;
      NetIoStat.InitalizeByNodeCount(pNetIoCacheStart, 1, now);
      var pContainerOneCacheStart := pNetIoCacheStart + NetIoStat.iTotalSize;
      ContainerOneStat.InitalizeByNodeCount(pContainerOneCacheStart, 100, now);
      var pContainerTwoCacheStart := pContainerOneCacheStart + ContainerOneStat.iTotalSize;
      ContainerTwoStat.InitalizeByNodeCount(pContainerTwoCacheStart, 100, now);
      ViewOfBuckets(old(m_pStart[..]), m_pStart[..]);
    }

    method Table(sKey: string) returns (hashObj: CModHashV1?, ghost s: Stat)
      requires Valid()
      ensures StatOf(sKey) == None <==> hashObj == null
      ensures hashObj != null ==> StatOf(sKey) == Some(s) && hashObj.Valid() && hashObj.Place() == RegionOf(s)
      ensures hashObj != null ==> hashObj.area == m_pStart && hashObj.hash == Hash()
    {
      s := Stat.NetIoStat;
      if "c1_" <= sKey {
        hashObj, s := ContainerOneStat, Stat.ContainerOneStat;
      } else if "c2_" <= sKey {
        hashObj, s := ContainerTwoStat, Stat.ContainerTwoStat;
      } else if "netio_" <= sKey {
        hashObj := NetIoStat;
      } else {
        hashObj := null;
      }
    }

    method Set(sKey: string, iValue: int32) returns (iRet: int)
      requires Valid()
      modifies m_pStart
      ensures Valid() && Sized(old(Contents())) && Contents() == Apply(old(Contents()), Op.Set(sKey, iValue), Hash())
      ensures iRet == if StatOf(sKey) == None then INVALID_KEY else SUCCESS
    {
      hide View, Cell;
      ghost var before := m_pStart[..];
      ViewSized(before);
      var hashObj, s := Table(sKey);
      if hashObj == null { return INVALID_KEY; }
      iRet := hashObj.Add(sKey, iValue);
      ViewWrite(before, m_pStart[..], s, hashObj.ModToUint(sKey));
    }

    method Get(sKey: string) returns (iRet: int, iValue: int32)
      requires Valid()
      ensures Sized(Contents())
      ensures var r := Cache.Get(Contents(), sKey, Hash());
              && (iRet == SUCCESS <==> r.Some?) && (r.Some? ==> iValue == r.value)
              && (r.None? ==> iRet == if StatOf(sKey) == None then INVALID_KEY else KEY_NOT_FOUND)
    {
      ViewSized(m_pStart[..]);
      var hashObj, s := Table(sKey);
      if hashObj == null { return INVALID_KEY, 0; }
      iRet, iValue := hashObj.Find(sKey);
      ViewCell(m_pStart[..], s, hashObj.ModToUint(sKey));
    }

    method Delete(sKey: string) returns (iRet: int)
      requires Valid()
      modifies m_pStart
      ensures Valid() && Sized(old(Contents())) && Contents() == Apply(old(Contents()), Op.Delete(sKey), Hash())
      ensures iRet == if StatOf(sKey) == None then INVALID_KEY else SUCCESS
    {
      hide View, Cell;
      ghost var before := m_pStart[..];
      ViewSized(before);
      var hashObj, s := Table(sKey);
      if hashObj == null { return INVALID_KEY; }
      iRet := hashObj.Delete(sKey);
      ViewWrite(before, m_pStart[..], s, hashObj.ModToUint(sKey));
    }

    method Incr(sKey: string, iValue: int32) returns (iRet: int)
      requires Valid()
      modifies m_pStart
      ensures Valid() && Sized(old(Contents())) && Contents() == Apply(old(Contents()), Op.Incr(sKey, iValue), Hash())
      ensures iRet == if StatOf(sKey) == None then INVALID_KEY else SUCCESS
    {
      hide View, Cell;
      ghost var before := m_pStart[..];
      ViewSized(before);
      var hashObj, s := Table(sKey);
      if hashObj == null { return INVALID_KEY; }
      var i, iTemp := hashObj.Find(sKey);
      ViewCell(before, s, hashObj.ModToUint(sKey));
      if i == 0 {
        iRet := hashObj.Add(sKey, ToInt32(iTemp + iValue));
      } else {
        iRet := hashObj.Add(sKey, iValue);
      }
      ViewWrite(before, m_pStart[..], s, hashObj.ModToUint(sKey));
    }
  }

  lemma ViewSized(a: seq<int32>)
    requires |a| == CACHE_WORDS
    ensures Sized(View(a))
  {
  }

  lemma ViewCell(a: seq<int32>, s: Stat, i: nat)
    requires |a| == CACHE_WORDS && i < RegionOf(s).nodes
    ensures Sized(View(a)) && CellsOf(View(a), s)[i] == Cell(a, RegionOf(s), i)
  {
  }

  predicate HeadWord(r: Region, w: int) { r.start <= w < r.start + HEAD_WORDS }

  /** The counters depend on the buckets only. */
  lemma ViewOfBuckets(a: seq<int32>, b: seq<int32>)
    requires |a| == |b| == CACHE_WORDS
    requires forall w | 0 <= w < |a| && a[w] != b[w] ::
               w == 0 || HeadWord(LAYOUT.netio, w) || HeadWord(LAYOUT.c1, w) || HeadWord(LAYOUT.c2, w)
    ensures View(a) == View(b)
  {
    CellsSame(a, b, LAYOUT.netio);
    CellsSame(a, b, LAYOUT.c1);
    CellsSame(a, b, LAYOUT.c2);
  }
}
