/** Allocation on a volume whose table is a partition into chains. The volume keeps the chains
    as a ghost map from first clusters. */
module FatVolume {
  import opened Arith
  import opened FatTypes
  import opened FatWindow
  import opened FatTable
  import opened ChainSpec
  import opened FatAlloc

  /** The volume is in order: its window, its chains and its free count. */
  ghost predicate VolumeOk(fs: FatFs)
    reads fs`disk, fs`wflag, fs`winsect, fs`freeClst, fs`chains, fs.win
    ensures VolumeOk(fs) ==> fs.Valid()
  {
    fs.Valid() && Partition(Table(fs), fs.chains) && FreeCountOk(fs)
  }

  /** No entry of a partitioned table holds the reserved value. */
  lemma NoReserved(fat: seq<nat>, chains: map<nat, seq<nat>>)
    requires Partition(fat, chains)
    ensures !HasReserved(fat, |fat|)
  {
    forall c | 2 <= c < |fat| && fat[c] == 1
      ensures false
    {
      assert Owned(chains, c);
      var h :| h in chains && c in chains[h];
      InChain(fat, chains[h], c);
    }
  }

  /** On a chain `create_chain` follows the link. */
  lemma CreatedFollows(fat: seq<nat>, mark: nat, last: nat, free: nat, ch: seq<nat>, i: nat, fat': seq<nat>, r: nat)
    requires |fat| >= 3 && IsChain(fat, ch) && i + 1 < |ch|
    requires Created(fat, mark, last, free, ch[i], fat', r)
    ensures r == ch[i + 1] && fat' == fat
  {
    assert fat[ch[i]] == ch[i + 1];
  }

  /** At the end of a chain, or with none, `create_chain` links a free cluster or finds the
      table full. */
  lemma CreatedAllots(fat: seq<nat>, chains: map<nat, seq<nat>>, mark: nat, last: nat, free: nat, clst: nat, fat': seq<nat>, r: nat)
    requires |fat| >= 3 && Partition(fat, chains) && (free == 0 ==> Full(fat))
    requires clst == 0 || (2 <= clst < |fat| && fat[clst] >= |fat|)
    requires Created(fat, mark, last, free, clst, fat', r)
    ensures r == 0 ==> Full(fat) && fat' == fat
    ensures r != 0 ==> 2 <= r < |fat| && fat[r] == 0 && fat' == Linked(fat, mark, clst, r)
  {
    NoReserved(fat, chains);
  }

  lemma VolumeParts(fs: FatFs)
    requires fs.Shaped()
    ensures VolumeOk(fs) <==> fs.Valid() && Partition(Table(fs), fs.chains) && FreeCountOk(fs)
  {
  }

  lemma FullByCount(fs: FatFs)
    requires VolumeOk(fs) && fs.freeClst == 0
    ensures Full(Table(fs))
  {
    CountZeroIsFull(Table(fs));
  }

  /** The chains after `r` was linked behind `clst`, the last cluster of the chain from `h`. */
  ghost function Allotted(chains: map<nat, seq<nat>>, clst: nat, h: nat, r: nat): map<nat, seq<nat>>
    requires clst == 0 || h in chains
  {
    if clst == 0 then chains[r := [r]] else chains[h := chains[h] + [r]]
  }

  lemma AllottedPartition(fat: seq<nat>, chains: map<nat, seq<nat>>, mark: nat, clst: nat, h: nat, r: nat)
    requires Partition(fat, chains) && 2 <= r < |fat| && fat[r] == 0 && mark >= |fat|
    requires clst != 0 ==> h in chains && chains[h] != [] && clst == chains[h][|chains[h]| - 1] && clst < |fat|
    ensures Partition(Linked(fat, mark, clst, r), Allotted(chains, clst, h, r))
    ensures clst == 0 ==> r !in chains
  {
    if clst == 0 {
      NewPartition(fat, chains, r, mark);
    } else {
      StretchPartition(fat, chains, h, r, mark);
    }
  }

  /** `clst` is the `i`-th cluster of the chain from `h`. */
  ghost predicate OnChain(chains: map<nat, seq<nat>>, h: nat, i: nat, clst: nat) {
    h in chains && i < |chains[h]| && chains[h][i] == clst
  }

  lemma OnChainFacts(fs: FatFs, h: nat, i: nat, clst: nat)
    requires VolumeOk(fs) && OnChain(fs.chains, h, i, clst)
    ensures h in fs.chains && IsChain(Table(fs), fs.chains[h]) && 2 <= clst < fs.geo.nFatEnt
    ensures i < |fs.chains[h]| && fs.chains[h][i] == clst
    ensures i + 1 == |fs.chains[h]| ==> Table(fs)[clst] >= fs.geo.nFatEnt
  {
  }

  /** `create_chain` behind cluster `clst`, the `i`-th of the chain from `h`, or for a new chain
      when `clst` is 0: the next cluster of the chain, or a newly linked one, or 0 when no
      cluster is free. */
  method Allocate(fs: FatFs, clst: nat, ghost h: nat, ghost i: nat) returns (ncl: nat)
    requires VolumeOk(fs) && (clst == 0 || OnChain(fs.chains, h, i, clst))
    modifies fs`disk, fs`wflag, fs`winsect, fs.win, fs`freeClst, fs`lastClst, fs`fsiFlag, fs`chains
    ensures VolumeOk(fs) && SameOutsideFat(fs.geo, old(fs.Logical()), fs.Logical())
    ensures fs.Noted()
    ensures ncl == 0 ==> Full(Table(fs)) && fs.chains == old(fs.chains) && fs.Logical() == old(fs.Logical())
    ensures ncl != 0 ==> 2 <= ncl < fs.geo.nFatEnt
    ensures clst != 0 && i + 1 < |old(fs.chains)[h]| ==>
      ncl == old(fs.chains)[h][i + 1] && fs.chains == old(fs.chains) && fs.Logical() == old(fs.Logical())
    ensures ncl != 0 && (clst == 0 || i + 1 == |old(fs.chains)[h]|) ==>
      old(Table(fs))[ncl] == 0 && fs.chains == Allotted(old(fs.chains), clst, h, ncl) && (clst == 0 ==> ncl !in old(fs.chains))
  {
    hide *;
    EndOfIsEnd(fs.geo);
    VolumeParts(fs);
    if fs.freeClst == 0 {
      FullByCount(fs);
    }
    if clst != 0 {
      OnChainFacts(fs, h, i, clst);
    }
    ncl := CreateChain(fs, clst);
    if clst != 0 && i + 1 < |fs.chains[h]| {
      CreatedFollows(old(Table(fs)), EndOf(fs.geo), old(fs.lastClst), old(fs.freeClst), fs.chains[h], i, Table(fs), ncl);
    } else {
      CreatedAllots(old(Table(fs)), fs.chains, EndOf(fs.geo), old(fs.lastClst), old(fs.freeClst), clst, Table(fs), ncl);
      if ncl != 0 {
        AllottedPartition(old(Table(fs)), fs.chains, EndOf(fs.geo), clst, h, ncl);
        fs.chains := Allotted(fs.chains, clst, h, ncl);
      }
    }
    VolumeParts(fs);
  }

  /** The chains after the chain from `h` was cut to its first `k` clusters. */
  ghost function Cut(chains: map<nat, seq<nat>>, h: nat, k: nat): map<nat, seq<nat>>
    requires h in chains && k <= |chains[h]|
  {
    if k == 0 then chains - {h} else chains[h := chains[h][..k]]
  }

  /** The cluster before the `k`-th, 0 when there is none. */
  function Before(ch: seq<nat>, k: nat): nat
    requires k <= |ch|
  {
    if k == 0 then 0 else ch[k - 1]
  }

  lemma CutClusters(fat: seq<nat>, ch: seq<nat>, k: nat)
    requires IsChain(fat, ch) && k < |ch|
    ensures 2 <= ch[k] < |fat| && Before(ch, k) < |fat|
    ensures if k == 0 then Before(ch, k) == 0 else 2 <= Before(ch, k) && fat[Before(ch, k)] != 0
  {
    if k > 0 {
      NextLink(fat, ch, k - 1);
    }
  }

  /** What `remove_chain` leaves of a partition: exactly the clusters from the `k`-th on are
      freed, and the chain ends before them. */
  lemma RemovedCuts(fat: seq<nat>, chains: map<nat, seq<nat>>, mark: nat, h: nat, k: nat)
    requires Partition(fat, chains) && h in chains && k < |chains[h]| && mark >= |fat| >= 3
    ensures 2 <= chains[h][k] < |fat| && Before(chains[h], k) < |fat|
    ensures Removed(fat, mark, chains[h][k], Before(chains[h], k)).1
    ensures Partition(Removed(fat, mark, chains[h][k], Before(chains[h], k)).0, Cut(chains, h, k))
    ensures forall c :: 2 <= c < |fat| ==>
      (Removed(fat, mark, chains[h][k], Before(chains[h], k)).0[c] == 0 <==> fat[c] == 0 || c in chains[h][k..])
  {
    HeadOf(fat, chains, h);
    CutClusters(fat, chains[h], k);
    hide Partition, IsChain, FreeFrom;
    if k == 0 {
      RemovePartition(fat, chains, h);
      assert chains[h][0..] == chains[h];
    } else {
      CutPartition(fat, chains, h, k, mark);
    }
  }

  /** `remove_chain` on the clusters of a chain from the `k`-th on. */
  method Release(fs: FatFs, clst: nat, pclst: nat, ghost h: nat, ghost k: nat) returns (res: FResult)
    requires VolumeOk(fs) && h in fs.chains && k < |fs.chains[h]|
    requires clst == fs.chains[h][k] && pclst == Before(fs.chains[h], k)
    modifies fs`disk, fs`wflag, fs`winsect, fs.win, fs`freeClst, fs`fsiFlag, fs`chains
    ensures res == OK && VolumeOk(fs) && SameOutsideFat(fs.geo, old(fs.Logical()), fs.Logical())
    ensures fs.Noted()
    ensures fs.chains == Cut(old(fs.chains), h, k)
    ensures forall c :: 2 <= c < fs.geo.nFatEnt ==>
      (Table(fs)[c] == 0 <==> old(Table(fs))[c] == 0 || c in old(fs.chains)[h][k..])
  {
    hide *;
    EndOfIsEnd(fs.geo);
    VolumeParts(fs);
    HeadOf(Table(fs), fs.chains, h);
    CutClusters(Table(fs), fs.chains[h], k);
    RemovedCuts(Table(fs), fs.chains, EndOf(fs.geo), h, k);
    res := RemoveChain(fs, clst, pclst);
    fs.chains := Cut(fs.chains, h, k);
    VolumeParts(fs);
  }

  /** f_getfree on a volume in order. The volume stays in order exactly if the count was cached or may be
      kept; entries 0 and 1 that are not zero, as formatting leaves them, are enough for that, and then the
      count is that of the free clusters. */
  method FreeClusters(fs: FatFs) returns (nclst: nat, res: FResult)
    requires VolumeOk(fs)
    modifies fs`disk, fs`wflag, fs`winsect, fs.win, fs`freeClst, fs`fsiFlag
    ensures fs.Valid() && fs.Logical() == old(fs.Logical()) && res == OK
    ensures fs.Noted()
    ensures VolumeOk(fs) <==>
      || old(fs.freeClst) <= fs.geo.nFatEnt - 2 || fs.geo.fsType.Fat12?
      || ReservedZeros(Table(fs)) == 0 || InUse(Table(fs), fs.geo.nFatEnt) < ReservedZeros(Table(fs))
    ensures fs.geo.fsType.Fat12? || ReservedZeros(Table(fs)) == 0 ==> VolumeOk(fs) && nclst == CountFree(Table(fs))
  {
    hide Partition, Fat, WellFormed, InUse, StopAt, HasReserved, FatFs.Valid, FatFs.Logical, ReservedZeros;
    NoReserved(Table(fs), fs.chains);
    NoStop(Table(fs), 2);
    nclst, res := GetFree(fs);
  }
}
