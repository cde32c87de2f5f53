/** Cutting an open file at its cursor (`f_truncate`). */
module FatTruncate {
  import opened Arith
  import opened FatTypes
  import opened FatWindow
  import opened FatTable
  import opened ChainSpec
  import opened FatAlloc
  import opened FatVolume
  import opened FileSpec
  import opened FatFile

  /** Clusters needed for `size` bytes. */
  function ClustersFor(g: Geometry, size: nat): nat {
    if size == 0 then 0 else Quot((size - 1) / 512, g.csize) + 1
  }

  lemma ClustersForFits(g: Geometry, ch: seq<nat>, size: nat)
    requires size <= 512 * Sectors(g, ch)
    ensures ClustersFor(g, size) <= |ch| && size <= 512 * Times(g.csize, ClustersFor(g, size))
  {
    Regions(g);
    hide WellFormed;
    if size > 0 {
      QuotBound((size - 1) / 512, g.csize, |ch|);
      QuotBound((size - 1) / 512, g.csize, ClustersFor(g, size));
    }
  }

  lemma SymmetricOutside(g: Geometry, d: Disk, d': Disk)
    requires SameOutsideFat(g, d, d')
    ensures SameOutsideFat(g, d', d)
  {
  }

  /** A file cut to the clusters its first bytes need keeps those bytes. */
  lemma CutContent(g: Geometry, ch: seq<nat>, d: Disk, d': Disk, size: nat, size': nat)
    requires |d| == g.total && SameOutsideFat(g, d, d') && Clusters(g, ch) && size' <= size <= 512 * Sectors(g, ch)
    ensures var k := ClustersFor(g, size');
            && k <= |ch| && Clusters(g, ch[..k]) && size' <= 512 * Sectors(g, ch[..k])
            && Content(g, d', ch[..k], size') == Content(g, d, ch, size)[..size']
  {
    ClustersForFits(g, ch, size');
    SymmetricOutside(g, d, d');
    hide WellFormed, SameOutsideFat, FileByte, ClustersFor;
    PrefixContent(g, ch[..ClustersFor(g, size')], ch, d', d, size');
    ContentPrefix(g, d, ch, size', size);
  }

  /** The cursor at the cut stays placed. */
  lemma CutPlaced(g: Geometry, ch: seq<nat>, fptr: nat, clust: nat, sect: nat)
    requires Clusters(g, ch) && fptr <= 512 * Sectors(g, ch)
    requires AtCluster(g, ch, fptr, clust) && AtSector(g, ch, fptr, sect)
    ensures var k := ClustersFor(g, fptr);
            && k <= |ch| && Clusters(g, ch[..k]) && (fptr > 0 ==> k > 0 && ch[k - 1] == clust)
            && AtCluster(g, ch[..k], fptr, clust) && AtSector(g, ch[..k], fptr, sect)
  {
    Regions(g);
    ClustersForFits(g, ch, fptr);
    hide WellFormed, FileSector;
    if fptr > 0 {
      var k := ClustersFor(g, fptr);
      QuotBound((fptr - 1) / 512, g.csize, k);
      PrefixSectors(g, ch[..k], ch, (fptr - 1) / 512);
      if fptr % 512 != 0 {
        assert fptr / 512 == (fptr - 1) / 512;
      }
    }
  }

  /** What the file's chain is cut to. */
  ghost predicate CutTo(fs: FatFs, chains: map<nat, seq<nat>>, s: nat, fptr: nat, s': nat)
    reads fs`chains
  {
    && s in chains && ClustersFor(fs.geo, fptr) <= |chains[s]|
    && fs.chains == Cut(chains, s, ClustersFor(fs.geo, fptr))
    && s' == if fptr == 0 then 0 else s
  }

  /** Where a file is cut: its chain, and the place of the current cluster on it. */
  lemma CutFacts(fp: Fil)
    requires fp.Valid() && fp.fptr < fp.objsize
    ensures VolumeOk(fp.fs) && fp.sclust in fp.fs.chains && fp.Chain() == fp.fs.chains[fp.sclust] && fp.Chain() != []
    ensures fp.Chain()[0] == fp.sclust && IsChain(Table(fp.fs), fp.Chain())
    ensures ClustersFor(fp.fs.geo, fp.fptr) <= |fp.Chain()|
    ensures fp.fptr > 0 ==> ClustersFor(fp.fs.geo, fp.fptr) > 0 && fp.Chain()[ClustersFor(fp.fs.geo, fp.fptr) - 1] == fp.clust
    ensures fp.fptr == 0 ==> ClustersFor(fp.fs.geo, fp.fptr) == 0
  {
    hide Partition, IsChain, Fat, WellFormed, Clusters, Sectors, FileSector;
    if fp.sclust == 0 {
      NoChain(fp);
    }
    HeadOf(Table(fp.fs), fp.fs.chains, fp.sclust);
    CutPlaced(fp.fs.geo, fp.Chain(), fp.fptr, fp.clust, fp.sect);
  }

  lemma LastLink(fat: seq<nat>, ch: seq<nat>, k: nat)
    requires IsChain(fat, ch) && 0 < k <= |ch|
    ensures 2 <= ch[k - 1] < |fat| && fat[ch[k - 1]] != 1
    ensures k < |ch| ==> fat[ch[k - 1]] == ch[k] && 2 <= ch[k] < |fat|
    ensures k == |ch| ==> fat[ch[k - 1]] >= |fat|
  {
    if k < |ch| {
      NextLink(fat, ch, k - 1);
    }
  }

  lemma CutToIs(fs: FatFs, chains: map<nat, seq<nat>>, s: nat, fptr: nat, s': nat)
    requires s in chains && ClustersFor(fs.geo, fptr) <= |chains[s]| && s' == if fptr == 0 then 0 else s
    requires fs.chains == Cut(chains, s, ClustersFor(fs.geo, fptr))
      || (fs.chains == chains && ClustersFor(fs.geo, fptr) == |chains[s]| > 0)
    ensures CutTo(fs, chains, s, fptr, s')
  {
    assert chains[s][..|chains[s]|] == chains[s];
  }

  lemma BeforeIs(ch: seq<nat>, k: nat)
    requires k <= |ch|
    ensures Before(ch, k) == if k == 0 then 0 else ch[k - 1]
  {
  }

  /** The clusters behind the cursor given back. */
  method TruncateChain(fp: Fil) returns (res: FResult)
    requires fp.Valid() && fp.fptr < fp.objsize
    modifies fp`sclust, fp.fs`disk, fp.fs`wflag, fp.fs`winsect, fp.fs.win, fp.fs`freeClst, fp.fs`fsiFlag, fp.fs`chains
    ensures res == OK && VolumeOk(fp.fs) && SameOutsideFat(fp.fs.geo, old(fp.fs.Logical()), fp.fs.Logical())
    ensures CutTo(fp.fs, old(fp.fs.chains), old(fp.sclust), fp.fptr, fp.sclust)
  {
    hide *;
    CutFacts(fp);
    NothingChanged(fp.fs.geo, fp.fs.Logical());
    ghost var k := ClustersFor(fp.fs.geo, fp.fptr);
    ghost var s := fp.sclust;
    BeforeIs(fp.Chain(), k);
    if fp.fptr == 0 {
      res := Release(fp.fs, fp.sclust, 0, s, 0);
      fp.sclust := 0;
    } else {
      LastLink(Table(fp.fs), fp.Chain(), k);
      var ncl := GetFat(fp.fs, fp.clust);
      StillHeld(fp);
      HeldParts(fp);
      res := OK;
      if ncl == 1 {
        res := IntErr;
      }
      if res == OK && ncl < fp.fs.geo.nFatEnt {
        res := Release(fp.fs, ncl, fp.clust, s, k);
      }
    }
    CutToIs(fp.fs, old(fp.fs.chains), s, fp.fptr, fp.sclust);
  }

  lemma CutChainIs(fs: FatFs, chains: map<nat, seq<nat>>, s: nat, fptr: nat, s': nat)
    requires CutTo(fs, chains, s, fptr, s') && s != 0
    ensures s in chains && ClustersFor(fs.geo, fptr) <= |chains[s]|
    ensures ChainOf(fs.chains, s') == chains[s][..ClustersFor(fs.geo, fptr)]
    ensures s' == 0 || s' in fs.chains
  {
    assert chains[s][..0] == [];
  }

  /** The cut file is in order and shows the bytes before the cursor. */
  twostate lemma CutFile(fp: Fil)
    requires old(fp.Valid()) && VolumeOk(fp.fs) && SameOutsideFat(fp.fs.geo, old(fp.fs.Logical()), fp.fs.Logical())
    requires old(fp.fptr) < old(fp.objsize)
    requires CutTo(fp.fs, old(fp.fs.chains), old(fp.sclust), fp.fptr, fp.sclust)
    requires fp.objsize == fp.fptr == old(fp.fptr) && fp.clust == old(fp.clust) && fp.sect == old(fp.sect)
    requires fp.err == old(fp.err)
    ensures fp.Valid() && fp.Bytes() == old(fp.Bytes())[..fp.fptr]
    ensures fp.Chain() == old(fp.Chain())[..ClustersFor(fp.fs.geo, fp.fptr)]
  {
    hide Partition, Fat, FreeCountOk, FatFs.Valid, FatFs.Logical, WellFormed, Clusters, Sectors, FileSector, ClusterAt;
    hide SameOutsideFat, ClustersFor, CutTo, VolumeOk, AtCluster, AtSector;
    if old(fp.sclust) == 0 {
      assert old(fp.Chain()) == [];
      SectorsAre(fp.fs.geo, []);
      TimesSucc(fp.fs.geo.csize, 0);
    }
    CutChainIs(fp.fs, old(fp.fs.chains), old(fp.sclust), fp.fptr, fp.sclust);
    CutPlaced(fp.fs.geo, old(fp.Chain()), fp.fptr, fp.clust, fp.sect);
    CutContent(fp.fs.geo, old(fp.Chain()), old(fp.fs.Logical()), fp.fs.Logical(), old(fp.objsize), fp.fptr);
  }

  /** f_truncate: the bytes from the cursor on go, and with them exactly the clusters that
      the others do not need. */
  method Truncate(fp: Fil) returns (res: FResult)
    requires fp.err == OK ==> fp.Valid()
    modifies fp`sclust, fp`objsize, fp`modified, fp`err
    modifies fp.fs`disk, fp.fs`wflag, fp.fs`winsect, fp.fs.win, fp.fs`freeClst, fp.fs`fsiFlag, fp.fs`chains
    ensures old(fp.err) != OK ==> res == old(fp.err) == fp.err
    ensures old(fp.err) == OK ==> fp.Valid() && res == if fp.canWrite then OK else Denied
    ensures old(fp.err) == OK && fp.canWrite ==> fp.Bytes() == old(fp.Bytes())[..fp.fptr]
    ensures old(fp.err) == OK && fp.canWrite && fp.fptr < old(fp.objsize) ==>
      && SameOutsideFat(fp.fs.geo, old(fp.fs.Logical()), fp.fs.Logical())
      && CutTo(fp.fs, old(fp.fs.chains), old(fp.sclust), fp.fptr, fp.sclust)
      && fp.Chain() == old(fp.Chain())[..ClustersFor(fp.fs.geo, fp.fptr)]
    ensures old(fp.err) == OK && !(fp.canWrite && fp.fptr < old(fp.objsize)) ==>
      && fp.fs.Logical() == old(fp.fs.Logical()) && fp.fs.chains == old(fp.fs.chains)
      && fp.sclust == old(fp.sclust) && fp.Bytes() == old(fp.Bytes())
  {
    hide *;
    res := fp.err;
    if res != OK {
      return;
    }
    if !fp.canWrite {
      res := Denied;
      return;
    }
    if fp.fptr < fp.objsize {
      res := TruncateChain(fp);
      fp.objsize := fp.fptr;
      fp.modified := true;
      fp.err := res;
      CutFile(fp);
    }
  }
}
