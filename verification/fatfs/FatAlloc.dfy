/** Allocation of clusters (`remove_chain`, `create_chain`) and the free-cluster count (`f_getfree`). */
module FatAlloc {
  import opened Arith
  import opened FatTypes
  import opened FatCodec
  import opened FatWindow
  import opened FatTable
  import opened ChainSpec

  const END_MARK: nat := 0xFFFF_FFFF

  /** A cached count that is in range is the number of free entries. */
  ghost predicate FreeCountOk(fs: FatFs)
    reads fs`freeClst, fs`disk, fs`wflag, fs`winsect, fs.win
    requires fs.Shaped()
  {
    fs.freeClst <= fs.geo.nFatEnt - 2 ==> fs.freeClst == CountFree(Table(fs))
  }

  function EndOf(g: Geometry): (r: nat) {
    Masked(g, END_MARK)
  }

  /** The mark that ends a chain, by width. */
  lemma EndMarks(g: Geometry)
    ensures EndOf(g) == match g.fsType case Fat12 => 0xFFF case Fat16 => 0xFFFF case Fat32 => 0xFFF_FFFF
  {
    hide WellFormed;
  }

  lemma EndOfIsEnd(g: Geometry)
    ensures g.nFatEnt <= EndOf(g)
  {
    hide PowerOfTwo, Times, TableBytes;
  }

  lemma FreeingCounts(fat: seq<nat>, c: nat)
    requires 2 <= c < |fat| && fat[c] != 0
    ensures CountFree(fat[c := 0]) == CountFree(fat) + 1
    ensures CountFree(fat) < |fat| - 2
  {
    InUseUpdate(fat, c, 0, |fat|);
    InUseBound(fat, |fat|);
  }

  /** The table after `remove_chain(clst, pclst)` and whether it met no reserved entry. */
  function Removed(fat: seq<nat>, mark: nat, clst: nat, pclst: nat): (seq<nat>, bool)
    requires 2 <= clst < |fat| && pclst < |fat|
  {
    FreeFrom(if pclst != 0 then fat[pclst := mark] else fat, clst)
  }

  lemma MarkingKeepsCount(fat: seq<nat>, c: nat, mark: nat)
    requires 2 <= c < |fat|
    ensures fat[c] != 0 && mark != 0 ==> CountFree(fat[c := mark]) == CountFree(fat)
  {
    InUseUpdate(fat, c, mark, |fat|);
  }

  /** The loop of `remove_chain`. */
  method FreeLoop(fs: FatFs, clst: nat) returns (res: FResult)
    requires fs.Valid() && 2 <= clst < fs.geo.nFatEnt
    modifies fs`disk, fs`wflag, fs`winsect, fs.win, fs`freeClst, fs`fsiFlag
    ensures fs.Valid()
    ensures SameOutsideFat(fs.geo, old(fs.Logical()), fs.Logical())
    ensures (Table(fs), res == OK) == FreeFrom(old(Table(fs)), clst)
    ensures res == OK || res == IntErr
    ensures fs.Noted()
    ensures old(FreeCountOk(fs)) ==> FreeCountOk(fs)
  {
    hide WellFormed, Fat, Stores, IsEntry, FatFs.Logical, InFatArea, CountFree;
    var c := clst;
    while true
      invariant fs.Valid() && 2 <= c < fs.geo.nFatEnt
      invariant SameOutsideFat(fs.geo, old(fs.Logical()), fs.Logical())
      invariant FreeFrom(Table(fs), c) == FreeFrom(old(Table(fs)), clst)
      invariant fs.Noted()
      invariant old(FreeCountOk(fs)) ==> FreeCountOk(fs)
      decreases InUse(Table(fs), fs.geo.nFatEnt)
    {
      ghost var fat := Table(fs);
      var nxt := GetFat(fs, c);
      if nxt == 0 {
        return OK;
      }
      if nxt == 1 {
        return IntErr;
      }
      res := PutFat(fs, c, 0);
      FreeingCounts(fat, c);
      InUseUpdate(fat, c, 0, |fat|);
      if fs.freeClst < fs.geo.nFatEnt - 2 {
        fs.SetFree(fs.freeClst + 1);
      }
      c := nxt;
      if c >= fs.geo.nFatEnt {
        return OK;
      }
    }
  }

  /** Frees a chain from `clst` on, ending it at `pclst` first when that is not 0. */
  method RemoveChain(fs: FatFs, clst: nat, pclst: nat) returns (res: FResult)
    requires fs.Valid()
    modifies fs`disk, fs`wflag, fs`winsect, fs.win, fs`freeClst, fs`fsiFlag
    ensures fs.Valid()
    ensures SameOutsideFat(fs.geo, old(fs.Logical()), fs.Logical())
    ensures if 2 <= clst < fs.geo.nFatEnt && (pclst == 0 || 2 <= pclst < fs.geo.nFatEnt)
            then (Table(fs), res == OK) == Removed(old(Table(fs)), EndOf(fs.geo), clst, pclst) && (res == OK || res == IntErr)
            else res == IntErr && fs.Logical() == old(fs.Logical())
    ensures fs.Noted()
    ensures old(FreeCountOk(fs)) && (2 <= pclst < fs.geo.nFatEnt ==> old(Table(fs))[pclst] != 0) ==> FreeCountOk(fs)
  {
    if clst < 2 || clst >= fs.geo.nFatEnt {
      return IntErr;
    }
    ghost var d0 := fs.Logical();
    if pclst != 0 {
      res := PutFat(fs, pclst, END_MARK);
      if res != OK {
        return;
      }
      MarkingKeepsCount(old(Table(fs)), pclst, EndOf(fs.geo));
      EndOfIsEnd(fs.geo);
    }
    ghost var fat1 := Table(fs);
    res := FreeLoop(fs, clst);
  }

  /** The entries met after `scl`, in the wrapping order of the scan, up to and with `c`. */
  predicate Between(n: nat, scl: nat, k: nat, c: nat) {
    2 <= k < n && if scl <= c then scl < k <= c else scl < k || k <= c
  }

  /** Every entry met after `scl` up to `c` is in use. */
  ghost predicate Scanned(fat: seq<nat>, scl: nat, c: nat) {
    forall k: nat :: Between(|fat|, scl, k, c) ==> fat[k] != 0
  }

  /** `c` is the first free entry after `scl` in the wrapping order. */
  ghost predicate NextFit(fat: seq<nat>, scl: nat, c: nat) {
    && 2 <= c < |fat| && fat[c] == 0
    && forall k: nat :: Between(|fat|, scl, k, c) && k != c ==> fat[k] != 0
  }

  ghost predicate Full(fat: seq<nat>) {
    forall k: nat :: 2 <= k < |fat| ==> fat[k] != 0
  }

  /** An entry of a cluster holds the reserved value 1. */
  ghost predicate HasReserved(fat: seq<nat>, k: nat)
    requires k <= |fat|
  {
    exists c :: 2 <= c < k && fat[c] == 1
  }

  function Neighbour(n: nat, clst: nat): nat {
    if clst + 1 >= n then 2 else clst + 1
  }

  lemma ScanStep(fat: seq<nat>, scl: nat, prev: nat, c: nat)
    requires 3 <= |fat| && 1 <= scl < |fat| && 1 <= prev < |fat| && c == Neighbour(|fat|, prev)
    requires Scanned(fat, scl, prev)
    requires c == prev + 1 || c <= scl
    requires scl <= prev || c <= scl
    ensures fat[c] == 0 ==> NextFit(fat, scl, c)
    ensures fat[c] != 0 && c != scl ==> Scanned(fat, scl, c)
    ensures fat[c] != 0 && c == scl ==> Full(fat)
  {
    forall k: nat | Between(|fat|, scl, k, c) && k != c
      ensures fat[k] != 0
    {
      assert Between(|fat|, scl, k, prev);
    }
    if fat[c] != 0 && c == scl {
      forall k: nat | 2 <= k < |fat| && k != c
        ensures fat[k] != 0
      {
        assert Between(|fat|, scl, k, prev);
      }
    }
  }

  lemma ScanWrapped(fat: seq<nat>, prev: nat)
    requires 3 <= |fat| && prev + 1 == |fat| && Scanned(fat, 1, prev)
    ensures Full(fat)
  {
    assert forall k: nat :: 2 <= k < |fat| ==> Between(|fat|, 1, k, prev);
  }

  lemma NeighbourIs(n: nat, c: nat)
    ensures Neighbour(n, c) == if c + 1 >= n then 2 else c + 1
  {
  }

  lemma ReservedAt(fat: seq<nat>, c: nat)
    requires 2 <= c < |fat| && fat[c] == 1
    ensures HasReserved(fat, |fat|)
  {
  }

  lemma NothingScanned(fat: seq<nat>, scl: nat)
    ensures Scanned(fat, scl, scl)
  {
  }

  /** The wrapping scan of `create_chain` for a free entry after `scl`: 0 when there is
      none, 1 when it meets the reserved value. */
  method ScanFree(fs: FatFs, scl: nat) returns (ncl: nat)
    requires fs.Valid() && 1 <= scl < fs.geo.nFatEnt
    modifies fs`disk, fs`wflag, fs`winsect, fs.win
    ensures fs.Valid() && fs.Logical() == old(fs.Logical()) && Table(fs) == old(Table(fs))
    ensures ncl == 0 ==> Full(Table(fs))
    ensures ncl == 1 ==> HasReserved(Table(fs), fs.geo.nFatEnt)
    ensures ncl >= 2 ==> NextFit(Table(fs), scl, ncl)
  {
    hide *;
    var n := fs.geo.nFatEnt;
    ncl := scl;
    NothingScanned(Table(fs), scl);
    while true
      invariant fs.Valid() && fs.Logical() == old(fs.Logical()) && Table(fs) == old(Table(fs))
      invariant 1 <= ncl < n && (ncl == scl || 2 <= ncl)
      invariant Scanned(Table(fs), scl, ncl)
      decreases if scl <= ncl then n + scl - ncl else scl - ncl
    {
      ghost var prev := ncl;
      NeighbourIs(n, ncl);
      ncl := ncl + 1;
      if ncl >= n {
        ncl := 2;
        if ncl > scl {
          ScanWrapped(Table(fs), prev);
          return 0;
        }
      }
      var cs := GetFat(fs, ncl);
      ScanStep(Table(fs), scl, prev, ncl);
      if cs == 0 {
        return;
      }
      if cs == 1 {
        ReservedAt(Table(fs), ncl);
        return 1;
      }
      if ncl == scl {
        return 0;
      }
    }
  }

  /** The table after `c` was marked the end of a chain and linked from `clst` if that is not 0. */
  function Linked(fat: seq<nat>, mark: nat, clst: nat, c: nat): seq<nat>
    requires clst < |fat| && c < |fat|
  {
    if clst == 0 then fat[c := mark] else fat[c := mark][clst := c]
  }

  /** Where the scan of `create_chain` starts when the neighbour of `clst` is not taken. */
  function ScanStart(n: nat, last: nat, clst: nat): nat {
    if clst == 0 then (if last == 0 || last >= n then 1 else last)
    else if 2 <= last < n then last else clst
  }

  /** The cluster taken: the neighbour of the stretched one when it is free, or else the
      first free one after the start of the scan. */
  ghost predicate Chosen(fat: seq<nat>, last: nat, clst: nat, c: nat)
    requires |fat| >= 3
  {
    if clst != 0 && fat[Neighbour(|fat|, clst)] == 0
    then c == Neighbour(|fat|, clst)
    else NextFit(fat, ScanStart(|fat|, last, clst), c)
  }

  /** What `create_chain(clst)` returns and the table it leaves, for every table. */
  ghost predicate Created(fat: seq<nat>, mark: nat, last: nat, free: nat, clst: nat, fat': seq<nat>, r: nat)
    requires |fat| >= 3
  {
    if clst != 0 && (clst < 2 || clst >= |fat| || fat[clst] < 2) then
      r == 1 && fat' == fat
    else if clst != 0 && fat[clst] < |fat| then
      r == fat[clst] && fat' == fat
    else
      || (r == 0 && (free == 0 || Full(fat)) && fat' == fat)
      || (r == 1 && free != 0 && HasReserved(fat, |fat|) && fat' == fat)
      || (2 <= r < |fat| && free != 0 && fat[r] == 0 && Chosen(fat, last, clst, r) && fat' == Linked(fat, mark, clst, r))
  }

  lemma StartOfScan(n: nat, last: nat, clst: nat)
    ensures ScanStart(n, last, clst) ==
            if clst == 0 then (if last == 0 || last >= n then 1 else last)
            else if 2 <= last < n then last else clst
  {
  }

  lemma ChosenNeighbour(fat: seq<nat>, last: nat, clst: nat)
    requires |fat| >= 3 && clst != 0 && fat[Neighbour(|fat|, clst)] == 0
    ensures Chosen(fat, last, clst, Neighbour(|fat|, clst))
  {
  }

  lemma ChosenScan(fat: seq<nat>, last: nat, clst: nat, c: nat)
    requires |fat| >= 3 && (clst == 0 || fat[Neighbour(|fat|, clst)] != 0)
    requires NextFit(fat, ScanStart(|fat|, last, clst), c)
    ensures 2 <= c < |fat| && fat[c] == 0 && Chosen(fat, last, clst, c)
  {
  }

  /** The search of `create_chain` for a free cluster, the neighbour of `clst` first. */
  method PickCluster(fs: FatFs, clst: nat) returns (ncl: nat)
    requires fs.Valid() && clst < fs.geo.nFatEnt && clst != 1
    modifies fs`disk, fs`wflag, fs`winsect, fs.win
    ensures fs.Valid() && fs.Logical() == old(fs.Logical()) && Table(fs) == old(Table(fs))
    ensures ncl == 0 ==> Full(Table(fs))
    ensures ncl == 1 ==> HasReserved(Table(fs), fs.geo.nFatEnt)
    ensures ncl >= 2 ==> Chosen(Table(fs), fs.lastClst, clst, ncl)
  {
    hide *;
    var scl := clst;
    ncl := 0;
    Regions(fs.geo);
    StartOfScan(fs.geo.nFatEnt, fs.lastClst, clst);
    if clst == 0 {
      scl := fs.lastClst;
      if scl == 0 || scl >= fs.geo.nFatEnt {
        scl := 1;
      }
    } else {
      NeighbourIs(fs.geo.nFatEnt, clst);
      ncl := scl + 1;
      if ncl >= fs.geo.nFatEnt {
        ncl := 2;
      }
      var cs := GetFat(fs, ncl);
      if cs == 1 {
        ReservedAt(Table(fs), ncl);
        return 1;
      }
      if cs == 0 {
        ChosenNeighbour(Table(fs), fs.lastClst, clst);
      } else {
        cs := fs.lastClst;
        if cs >= 2 && cs < fs.geo.nFatEnt {
          scl := cs;
        }
        ncl := 0;
      }
    }
    if ncl == 0 {
      ncl := ScanFree(fs, scl);
      if ncl >= 2 {
        ChosenScan(Table(fs), fs.lastClst, clst, ncl);
      }
    }
  }

  lemma ChosenIsFree(fat: seq<nat>, last: nat, clst: nat, c: nat)
    requires |fat| >= 3 && Chosen(fat, last, clst, c)
    ensures 2 <= c < |fat| && fat[c] == 0
  {
  }

  lemma MaskedCluster(g: Geometry, c: nat)
    requires c < g.nFatEnt
    ensures Masked(g, c) == c
  {
  }

  method LinkEntries(fs: FatFs, clst: nat, ncl: nat)
    requires fs.Valid() && 2 <= ncl < fs.geo.nFatEnt && (clst == 0 || 2 <= clst < fs.geo.nFatEnt)
    modifies fs`disk, fs`wflag, fs`winsect, fs.win
    ensures fs.Valid()
    ensures SameOutsideFat(fs.geo, old(fs.Logical()), fs.Logical())
    ensures Table(fs) == Linked(old(Table(fs)), EndOf(fs.geo), clst, ncl)
  {
    MaskedCluster(fs.geo, ncl);
    hide WellFormed, Fat;
    var res := PutFat(fs, ncl, END_MARK);
    if clst != 0 {
      res := PutFat(fs, clst, ncl);
    }
  }

  lemma LinkingCounts(fat: seq<nat>, mark: nat, clst: nat, c: nat)
    requires 2 <= c < |fat| && fat[c] == 0 && mark != 0
    requires clst == 0 || (2 <= clst < |fat| && fat[clst] != 0)
    ensures CountFree(Linked(fat, mark, clst, c)) == CountFree(fat) - 1
    ensures Linked(fat, mark, clst, c) != fat
  {
    InUseUpdate(fat, c, mark, |fat|);
    if clst != 0 {
      InUseUpdate(fat[c := mark], clst, c, |fat|);
    }
    assert Linked(fat, mark, clst, c)[c] != 0;
  }

  /** The new cluster is marked the end of a chain, linked if needed, and counted. */
  method Link(fs: FatFs, clst: nat, ncl: nat)
    requires fs.Valid() && 2 <= ncl < fs.geo.nFatEnt && Table(fs)[ncl] == 0 && fs.freeClst != 0
    requires clst == 0 || (2 <= clst < fs.geo.nFatEnt && Table(fs)[clst] != 0)
    modifies fs`disk, fs`wflag, fs`winsect, fs.win, fs`freeClst, fs`lastClst, fs`fsiFlag
    ensures fs.Valid()
    ensures SameOutsideFat(fs.geo, old(fs.Logical()), fs.Logical())
    ensures Table(fs) == Linked(old(Table(fs)), EndOf(fs.geo), clst, ncl)
    ensures Table(fs) != old(Table(fs))
    ensures fs.fsiFlag == old(fs.fsiFlag) | 1
    ensures fs.lastClst == ncl && (old(FreeCountOk(fs)) ==> FreeCountOk(fs))
  {
    hide WellFormed, Fat, InUse, CountFree, EndOf, Linked;
    EndOfIsEnd(fs.geo);
    LinkingCounts(Table(fs), EndOf(fs.geo), clst, ncl);
    LinkEntries(fs, clst, ncl);
    fs.lastClst := ncl;
    fs.SetFree(if fs.freeClst <= fs.geo.nFatEnt - 2 then fs.freeClst - 1 else fs.freeClst);
  }

  /** Follows the chain behind `clst`, stretching it when `clst` is its last cluster;
      starts a new chain for `clst` 0. */
  method CreateChain(fs: FatFs, clst: nat) returns (ncl: nat)
    requires fs.Valid()
    modifies fs`disk, fs`wflag, fs`winsect, fs.win, fs`freeClst, fs`lastClst, fs`fsiFlag
    ensures fs.Valid()
    ensures SameOutsideFat(fs.geo, old(fs.Logical()), fs.Logical())
    ensures Created(old(Table(fs)), EndOf(fs.geo), old(fs.lastClst), old(fs.freeClst), clst, Table(fs), ncl)
    ensures if Table(fs) == old(Table(fs))
            then fs.Logical() == old(fs.Logical()) && fs.lastClst == old(fs.lastClst) && fs.freeClst == old(fs.freeClst)
            else fs.lastClst == ncl
    ensures fs.Noted()
    ensures old(FreeCountOk(fs)) ==> FreeCountOk(fs)
  {
    ghost var fat := Table(fs);
    hide WellFormed, Fat, EndOf, NextFit, Full, CountFree, Chosen, Linked;
    if clst != 0 {
      var cs := GetFat(fs, clst);
      if cs < 2 {
        return 1;
      }
      if cs < fs.geo.nFatEnt {
        return cs;
      }
    }
    if fs.freeClst == 0 {
      return 0;
    }
    ncl := PickCluster(fs, clst);
    if ncl < 2 {
      return;
    }
    ChosenIsFree(fat, fs.lastClst, clst, ncl);
    Link(fs, clst, ncl);
  }

  /** A count of 0 means a full table, so under a correct cached count `create_chain`
      finds a cluster exactly when one is free and no reserved entry is met. */
  lemma CountZeroIsFull(fat: seq<nat>)
    requires 3 <= |fat|
    ensures CountFree(fat) == 0 <==> Full(fat)
  {
    InUseBound(fat, |fat|);
  }

  /** Number of zero entries among the first `k`. */
  function Zeros(fat: seq<nat>, k: nat): nat
    requires k <= |fat|
  {
    if k == 0 then 0 else Zeros(fat, k - 1) + if fat[k - 1] == 0 then 1 else 0
  }

  /** Zero entries among the two that belong to no cluster. */
  function ReservedZeros(fat: seq<nat>): nat
    requires 2 <= |fat|
  {
    (if fat[0] == 0 then 1 else 0) + if fat[1] == 0 then 1 else 0
  }

  lemma {:induction false} ZerosCountFree(fat: seq<nat>, k: nat)
    requires 2 <= k <= |fat|
    ensures Zeros(fat, k) == ReservedZeros(fat) + (k - 2 - InUse(fat, k))
  {
    if k == 2 {
      assert Zeros(fat, 1) == Zeros(fat, 0) + (if fat[0] == 0 then 1 else 0);
      assert Zeros(fat, 2) == Zeros(fat, 1) + (if fat[1] == 0 then 1 else 0);
    } else {
      ZerosCountFree(fat, k - 1);
      assert InUse(fat, k) == InUse(fat, k - 1) + (if fat[k - 1] == 0 then 0 else 1);
    }
  }

  /** Where the FAT12 scan from entry `c` on stops: at the first reserved entry or at the end. */
  function StopAt(fat: seq<nat>, c: nat): (r: nat)
    requires c <= |fat|
    ensures c <= r <= |fat|
    decreases |fat| - c
  {
    if c == |fat| || fat[c] == 1 then c else StopAt(fat, c + 1)
  }

  /** The number the scans of `f_getfree` arrive at, right or wrong. */
  function Counted(t: FatType, fat: seq<nat>): (r: nat)
    requires 2 <= |fat|
  {
    if t.Fat12? then StopAt(fat, 2) - 2 - InUse(fat, StopAt(fat, 2)) else CountFree(fat) + ReservedZeros(fat)
  }

  /** The number is that of the free clusters, or out of the range in which it would be used again: for
      FAT12 no free entry lies behind a reserved one; for FAT16 and FAT32 entries 0 and 1 are not zero, or
      there are fewer clusters in use than zeros among the two. */
  ghost predicate CountsRight(t: FatType, fat: seq<nat>)
    requires 2 <= |fat|
  {
    if t.Fat12? then forall c :: StopAt(fat, 2) < c < |fat| ==> fat[c] != 0
    else ReservedZeros(fat) == 0 || InUse(fat, |fat|) < ReservedZeros(fat)
  }

  lemma {:induction false} InUseTail(fat: seq<nat>, k: nat, n: nat)
    requires 2 <= k <= n <= |fat|
    ensures InUse(fat, n) - InUse(fat, k) <= n - k
    ensures InUse(fat, n) - InUse(fat, k) == n - k <==> forall c :: k <= c < n ==> fat[c] != 0
  {
    if k == n {
    } else {
      InUseTail(fat, k, n - 1);
    }
  }

  lemma {:induction false} StopFacts(fat: seq<nat>, c: nat)
    requires c <= |fat|
    ensures StopAt(fat, c) < |fat| ==> fat[StopAt(fat, c)] == 1
    ensures forall j :: c <= j < StopAt(fat, c) ==> fat[j] != 1
    decreases |fat| - c
  {
    if c == |fat| || fat[c] == 1 {
    } else {
      StopFacts(fat, c + 1);
    }
  }

  /** Exactly on such a table the count may be kept. */
  lemma CountsRightIff(t: FatType, fat: seq<nat>)
    requires 3 <= |fat|
    ensures (Counted(t, fat) <= |fat| - 2 ==> Counted(t, fat) == CountFree(fat)) <==> CountsRight(t, fat)
  {
    var k := StopAt(fat, 2);
    StopFacts(fat, 2);
    InUseTail(fat, k, |fat|);
    InUseTail(fat, 2, |fat|);
    hide InUse, StopAt;
  }

  /** Without a reserved entry the scan goes to the end. */
  lemma {:induction false} NoStop(fat: seq<nat>, c: nat)
    requires 2 <= c <= |fat| && !HasReserved(fat, |fat|)
    ensures StopAt(fat, c) == |fat|
    decreases |fat| - c
  {
    if c == |fat| {
    } else {
      NoStop(fat, c + 1);
    }
  }

  /** A FAT12 table on which the scan stops at once and the free clusters behind are not counted, and a
      FAT16 table whose entry 1 is counted as a cluster. */
  lemma CountsWrong()
    ensures Counted(Fat12, [0xFF8, 0xFFF, 1, 0, 0]) == 0 && CountFree([0xFF8, 0xFFF, 1, 0, 0]) == 2
    ensures Counted(Fat16, [0xFFF8, 0, 0xFFFF, 0]) == 2 && CountFree([0xFFF8, 0, 0xFFFF, 0]) == 1
  {
    var a: seq<nat>, b: seq<nat> := [0xFF8, 0xFFF, 1, 0, 0], [0xFFF8, 0, 0xFFFF, 0];
    assert StopAt(a, 2) == 2 && InUse(a, 2) == 0;
    assert InUse(a, 5) == InUse(a, 4) == InUse(a, 3) == InUse(a, 2) + 1;
    assert InUse(b, 4) == InUse(b, 3) == InUse(b, 2) + 1;
  }

  lemma StopEnds(fat: seq<nat>)
    ensures StopAt(fat, |fat|) == |fat|
  {
  }

  lemma ScanNothing(fat: seq<nat>)
    requires 2 <= |fat|
    ensures InUse(fat, 2) == 0 && !HasReserved(fat, 2)
  {
  }

  lemma ScanOne(fat: seq<nat>, c: nat)
    requires 2 <= c < |fat|
    ensures InUse(fat, c + 1) == InUse(fat, c) + if fat[c] != 0 then 1 else 0
    ensures HasReserved(fat, c + 1) <==> HasReserved(fat, c) || fat[c] == 1
    ensures fat[c] == 1 ==> HasReserved(fat, |fat|)
    ensures StopAt(fat, c) == if fat[c] == 1 then c else StopAt(fat, c + 1)
  {
  }

  /** The FAT12 scan of `f_getfree`: entry by entry from 2 on, up to a reserved entry. */
  method ScanEntries(fs: FatFs) returns (nfree: nat, res: FResult)
    requires fs.Valid() && fs.geo.fsType.Fat12?
    modifies fs`disk, fs`wflag, fs`winsect, fs.win
    ensures fs.Valid() && fs.Logical() == old(fs.Logical())
    ensures res == if HasReserved(Table(fs), fs.geo.nFatEnt) then IntErr else OK
    ensures res == OK ==> nfree == CountFree(Table(fs))
    ensures nfree == Counted(Fat12, Table(fs))
  {
    hide Fat, InUse, HasReserved, StopAt, IsEntry, WellFormed, FatFs.Logical;
    nfree, res := 0, OK;
    var clst := 2;
    ScanNothing(Table(fs));
    while clst < fs.geo.nFatEnt
      invariant fs.Valid() && fs.Logical() == old(fs.Logical())
      invariant 2 <= clst <= fs.geo.nFatEnt
      invariant nfree == clst - 2 - InUse(Table(fs), clst)
      invariant !HasReserved(Table(fs), clst) && StopAt(Table(fs), 2) == StopAt(Table(fs), clst)
    {
      var stat := GetFat(fs, clst);
      ScanOne(Table(fs), clst);
      if stat == 1 {
        res := IntErr;
        return;
      }
      if stat == 0 {
        nfree := nfree + 1;
      }
      clst := clst + 1;
    }
    StopEnds(Table(fs));
  }

  lemma SliceLoads(a: seq<byte>, i: nat, b: seq<byte>, j: nat, n: nat)
    requires i + n <= |a| && j + n <= |b| && (n == 2 || n == 4) && a[i..i + n] == b[j..j + n]
    ensures n == 2 ==> LdWord(a, i) == LdWord(b, j)
    ensures n == 4 ==> LdDword(a, i) == LdDword(b, j)
  {
    assert forall k :: i <= k < i + n ==> a[k] == a[i..i + n][k - i];
    assert forall k :: j <= k < j + n ==> b[k] == b[j..j + n][k - j];
  }

  /** The window at the sector of entry `c` shows that entry. */
  lemma EntryInWindow(g: Geometry, d: Disk, c: nat)
    requires |d| == g.total && c < g.nFatEnt && !g.fsType.Fat12?
    ensures var o := EntryOffset(g.fsType, c);
            && g.fatBase + o / 512 < g.total
            && (g.fsType.Fat16? ==> o % 512 + 2 <= 512 && Fat(g, d)[c] == LdWord(d[g.fatBase + o / 512], o % 512))
            && (g.fsType.Fat32? ==> o % 512 + 4 <= 512 && Fat(g, d)[c] == LdDword(d[g.fatBase + o / 512], o % 512) % 0x1000_0000)
  {
    EntryFits(g, c);
    var o, n := EntryOffset(g.fsType, c), if g.fsType.Fat16? then 2 else 4;
    AreaSlice(g, d, o, n);
    hide WellFormed, FatArea, LdDword, LdWord;
    SliceLoads(FatArea(g, d), o, d[g.fatBase + o / 512], o % 512, n);
  }

  lemma NextOffset(t: FatType, c: nat)
    requires !t.Fat12?
    ensures var (o, p, z) := (EntryOffset(t, c), EntryOffset(t, c + 1), if t.Fat16? then 2 else 4);
            && p == o + z && o % 512 + z <= 512
            && p % 512 == (o % 512 + z) % 512
            && (p + 511) / 512 == o / 512 + 1
            && (o + 511) / 512 == if o % 512 == 0 then o / 512 else o / 512 + 1
  {
  }

  lemma TableEntry(fs: FatFs, c: nat)
    requires fs.Shaped() && c < fs.geo.nFatEnt
    ensures Table(fs)[c] == Fat(fs.geo, fs.Logical())[c]
  {
  }

  lemma ZerosStep(fat: seq<nat>, k: nat)
    requires k < |fat|
    ensures Zeros(fat, 0) == 0 && Zeros(fat, k + 1) == Zeros(fat, k) + if fat[k] == 0 then 1 else 0
  {
  }

  lemma OffsetZero(t: FatType)
    ensures EntryOffset(t, 0) == 0
  {
  }

  /** Whether the entry at offset `i` of the window is zero. */
  method EntryFree(fs: FatFs, i: nat) returns (r: bool)
    requires fs.Shaped() && !fs.geo.fsType.Fat12? && i + (if fs.geo.fsType.Fat16? then 2 else 4) <= 512
    ensures fs.geo.fsType.Fat16? ==> r == (LdWord(fs.win[..], i) == 0)
    ensures fs.geo.fsType.Fat32? ==> r == (LdDword(fs.win[..], i) % 0x1000_0000 == 0)
  {
    if fs.geo.fsType.Fat16? {
      r := LdWord(fs.win[..], i) == 0;
    } else {
      r := LdDword(fs.win[..], i) % 0x1000_0000 == 0;
    }
  }

  /** The FAT16/FAT32 scan of `f_getfree`: sector by sector over all entries. */
  method ScanSectors(fs: FatFs) returns (nfree: nat)
    requires fs.Valid() && !fs.geo.fsType.Fat12?
    modifies fs`disk, fs`wflag, fs`winsect, fs.win
    ensures fs.Valid() && fs.Logical() == old(fs.Logical())
    ensures nfree == Zeros(Table(fs), fs.geo.nFatEnt)
  {
    hide *;
    var clst, sect, i := fs.geo.nFatEnt, fs.geo.fatBase, 0;
    ghost var done := 0;
    nfree := 0;
    OffsetZero(fs.geo.fsType);
    ZerosStep(Table(fs), 0);
    while clst > 0
      invariant fs.Valid() && fs.Logical() == old(fs.Logical()) && Table(fs) == old(Table(fs))
      invariant clst + done == fs.geo.nFatEnt
      invariant i == EntryOffset(fs.geo.fsType, done) % 512
      invariant sect == fs.geo.fatBase + (EntryOffset(fs.geo.fsType, done) + 511) / 512
      invariant i != 0 ==> fs.geo.fatBase < sect <= fs.geo.total && fs.win[..] == fs.Logical()[sect - 1]
      invariant nfree == Zeros(Table(fs), done)
    {
      EntryInWindow(fs.geo, fs.Logical(), done);
      NextOffset(fs.geo.fsType, done);
      TableEntry(fs, done);
      if i == 0 {
        fs.MoveWindow(sect);
        SameTable(fs);
        sect := sect + 1;
      }
      var free := EntryFree(fs, i);
      ZerosStep(Table(fs), done);
      if free {
        nfree := nfree + 1;
      }
      i := if fs.geo.fsType.Fat16? then i + 2 else i + 4;
      i := i % 512;
      clst, done := clst - 1, done + 1;
    }
  }

  /** Number of free clusters: the cached one, or a scan of the whole table. The FAT16/FAT32 scan also
      counts entries 0 and 1 when they are zero, and a FAT12 scan that stops with an error caches what it
      has counted so far; a count that may be kept is cached exactly on the tables of CountsRight. */
  method GetFree(fs: FatFs) returns (nclst: nat, res: FResult)
    requires fs.Valid()
    modifies fs`disk, fs`wflag, fs`winsect, fs.win, fs`freeClst, fs`fsiFlag
    ensures fs.Valid() && fs.Logical() == old(fs.Logical())
    ensures fs.Noted()
    ensures nclst == fs.freeClst
    ensures old(fs.freeClst) <= fs.geo.nFatEnt - 2 ==>
      res == OK && nclst == old(fs.freeClst) && FreeCountOk(fs) == old(FreeCountOk(fs))
    ensures old(fs.freeClst) > fs.geo.nFatEnt - 2 ==>
      && nclst == Counted(fs.geo.fsType, Table(fs))
      && res == (if fs.geo.fsType.Fat12? && HasReserved(Table(fs), fs.geo.nFatEnt) then IntErr else OK)
      && (FreeCountOk(fs) <==> CountsRight(fs.geo.fsType, Table(fs)))
    ensures old(fs.freeClst) > fs.geo.nFatEnt - 2 && res == OK ==>
      nclst == CountFree(Table(fs)) + if fs.geo.fsType.Fat12? then 0 else ReservedZeros(Table(fs))
  {
    res := OK;
    if fs.freeClst <= fs.geo.nFatEnt - 2 {
      nclst := fs.freeClst;
    } else {
      ZerosCountFree(Table(fs), fs.geo.nFatEnt);
      CountsRightIff(fs.geo.fsType, Table(fs));
      hide WellFormed, Fat, InUse, Zeros, StopAt, CountsRight, HasReserved;
      if fs.geo.fsType.Fat12? {
        nclst, res := ScanEntries(fs);
      } else {
        nclst := ScanSectors(fs);
      }
      fs.SetFree(nclst);
    }
  }
}
