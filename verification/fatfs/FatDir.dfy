/** Directory objects: `dir_sdi`, `dir_next`, `dir_alloc`, `dir_find`, `dir_register` and `dir_remove`. */
module FatDir {
  import opened Arith
  import opened FatTypes
  import opened FatWindow
  import opened FatTable
  import opened ChainSpec
  import opened FatAlloc
  import opened FatVolume
  import opened FileSpec
  import opened DirSpec
  import opened DirTable

  /** First cluster of a table, 0 for the static root table. */
  function StartCluster(g: Geometry, sclust: nat): nat {
    if sclust == 0 && g.fsType.Fat32? then g.dirBase else sclust
  }

  /** A cursor on a slot of a table. */
  ghost predicate At(g: Geometry, a: Area, dptr: nat, clust: nat, sect: nat)
    requires AreaOk(g, a)
  {
    && dptr % 32 == 0 && dptr / 32 < Reach(g, a)
    && sect == AreaSector(g, a, dptr / 512)
    && clust == match a case Static => 0 case Dynamic(ch) => ClusterAt(g, ch, dptr / 512)
  }

  /** DIR: an open directory of a volume. */
  class DirObj {
    const fs: FatFs
    const sclust: nat   // first cluster of the table, 0 for the root directory
    var dptr: nat       // offset of the current entry
    var clust: nat      // current cluster, 0 in the static table
    var sect: nat       // current sector, 0 behind the end of the table
    var fn: Name        // the name to find or register

    constructor (fs: FatFs, sclust: nat, fn: Name)
      ensures this.fs == fs && this.sclust == sclust && this.fn == fn && dptr == clust == sect == 0
    {
      this.fs, this.sclust, this.fn := fs, sclust, fn;
      dptr, clust, sect := 0, 0, 0;
    }

    ghost function Start(): nat {
      StartCluster(fs.geo, sclust)
    }

    /** Where the table lies. */
    ghost function Place(): Area
      reads fs`chains
    {
      if Start() == 0 then Static else Dynamic(ChainOf(fs.chains, Start()))
    }

    /** The volume is in order and holds a directory in order here. */
    ghost predicate Held()
      reads fs`disk, fs`wflag, fs`winsect, fs`freeClst, fs`chains, fs.win
      ensures Held() ==> fs.Valid() && AreaOk(fs.geo, Place())
    {
      && VolumeOk(fs) && (Start() != 0 ==> Start() in fs.chains)
      && AreaOk(fs.geo, Place()) && DirOk(Slots(fs.geo, fs.Logical(), Place()))
    }

    /** The slots of the directory. */
    ghost function Table(): (r: seq<Slot>)
      reads fs`disk, fs`wflag, fs`winsect, fs`freeClst, fs`chains, fs.win
      requires Held()
      ensures DirOk(r) && Unique(r) && |r| == Reach(fs.geo, Place())
    {
      Slots(fs.geo, fs.Logical(), Place())
    }

    /** The cursor is on a slot of the table. */
    ghost predicate Placed()
      reads this`dptr, this`clust, this`sect
      reads fs`disk, fs`wflag, fs`winsect, fs`freeClst, fs`chains, fs.win
      ensures Placed() ==> Held() && dptr / 32 < |Table()|
    {
      Held() && At(fs.geo, Place(), dptr, clust, sect)
    }
  }

  /** What a directory on a volume in order means. */
  lemma DirFacts(dp: DirObj)
    requires dp.Held()
    ensures VolumeOk(dp.fs) && AreaOk(dp.fs.geo, dp.Place())
    ensures dp.Start() == 0 <==> dp.Place() == Static
    ensures dp.Start() == 0 ==> !dp.fs.geo.fsType.Fat32? && dp.sclust == 0
    ensures dp.Start() != 0 ==>
      && dp.Start() in dp.fs.chains && dp.fs.chains[dp.Start()] != [] && dp.Place() == Dynamic(dp.fs.chains[dp.Start()])
      && IsChain(FatTable.Table(dp.fs), dp.fs.chains[dp.Start()]) && dp.fs.chains[dp.Start()][0] == dp.Start()
      && Clusters(dp.fs.geo, dp.fs.chains[dp.Start()])
    ensures dp.Table() == Slots(dp.fs.geo, dp.fs.Logical(), dp.Place())
  {
    hide Partition, IsChain, Fat, Slots;
    if dp.Start() != 0 {
      HeadOf(FatTable.Table(dp.fs), dp.fs.chains, dp.Start());
    }
  }

  /** The table may have got more clusters at its end. */
  predicate AreaGrew(a: Area, a': Area) {
    a' == a || (a.Dynamic? && a'.Dynamic? && a.ch <= a'.ch)
  }

  /** What the volume keeps under an operation on the directory that starts at `h`: the chains
      of all others, and outside the FATs and the table every sector. */
  ghost predicate TableStays(g: Geometry, h: nat, chains: map<nat, seq<nat>>, d: Disk, a: Area,
                             chains': map<nat, seq<nat>>, d': Disk, a': Area)
    requires AreaOk(g, a')
  {
    && AreaGrew(a, a') && chains'.Keys == chains.Keys
    && (forall k :: k in chains && k != h ==> chains'[k] == chains[k])
    && TableOnly(g, a', d, d')
  }

  twostate predicate DirStays(dp: DirObj)
    reads dp.fs`chains, dp.fs`disk, dp.fs`wflag, dp.fs`winsect, dp.fs`freeClst, dp.fs.win
    requires old(dp.fs.Shaped()) && dp.Held()
  {
    TableStays(dp.fs.geo, dp.Start(), old(dp.fs.chains), old(dp.fs.Logical()), old(dp.Place()),
               dp.fs.chains, dp.fs.Logical(), dp.Place())
  }

  /** Nothing but the window moved. */
  twostate predicate DirSame(dp: DirObj)
    reads dp.fs`chains, dp.fs`disk, dp.fs`wflag, dp.fs`winsect, dp.fs`freeClst, dp.fs.win
    requires old(dp.Held()) && dp.Held()
  {
    dp.fs.Logical() == old(dp.fs.Logical()) && dp.fs.chains == old(dp.fs.chains) && dp.Table() == old(dp.Table())
  }

  twostate lemma DirStaysIs(dp: DirObj)
    requires old(dp.fs.Shaped()) && dp.Held()
    ensures DirStays(dp) <==>
      TableStays(dp.fs.geo, dp.Start(), old(dp.fs.chains), old(dp.fs.Logical()), old(dp.Place()),
                 dp.fs.chains, dp.fs.Logical(), dp.Place())
  {
  }

  twostate lemma DirSameIs(dp: DirObj)
    requires old(dp.Held()) && dp.Held()
    ensures DirSame(dp) <==>
      (dp.fs.Logical() == old(dp.fs.Logical()) && dp.fs.chains == old(dp.fs.chains) && dp.Table() == old(dp.Table()))
  {
  }

  /** Moving the window leaves the directory as it is. */
  twostate lemma StillDir(dp: DirObj)
    requires old(dp.Held()) && dp.fs.Valid() && dp.fs.Logical() == old(dp.fs.Logical())
    requires dp.fs.chains == old(dp.fs.chains) && dp.fs.freeClst == old(dp.fs.freeClst)
    ensures dp.Held() && dp.Table() == old(dp.Table()) && dp.Place() == old(dp.Place())
    ensures DirSame(dp) && DirStays(dp)
  {
    hide Partition, Fat, CountFree, WellFormed, Slots, InTable;
  }

  /** The entry of a chain's `q`-th cluster: the next cluster, or an end mark at the last. */
  lemma LinkOf(fat: seq<nat>, ch: seq<nat>, q: nat)
    requires IsChain(fat, ch) && q < |ch|
    ensures 2 <= ch[q] < |fat|
    ensures q + 1 < |ch| ==> fat[ch[q]] == ch[q + 1] && 2 <= ch[q + 1] < |fat|
    ensures q + 1 == |ch| ==> fat[ch[q]] >= |fat|
  {
  }

  lemma ChainSectors(g: Geometry, ch: seq<nat>)
    ensures AreaSectors(g, Dynamic(ch)) == Sectors(g, ch) == Times(g.csize, |ch|)
  {
  }

  /** The loop of `dir_sdi`: the cluster that holds the offset, if the chain is long enough. */
  method FollowTo(dp: DirObj, clst0: nat, ofs0: nat) returns (res: FResult, clst: nat, ofs: nat)
    requires dp.Held() && dp.Start() == clst0 != 0
    modifies dp.fs`disk, dp.fs`wflag, dp.fs`winsect, dp.fs.win
    ensures dp.fs.Valid() && dp.fs.Logical() == old(dp.fs.Logical())
    ensures res == OK || res == IntErr
    ensures res == OK <==> ofs0 / 512 < AreaSectors(dp.fs.geo, dp.Place())
    ensures res == OK ==>
      && ofs0 % 512 == ofs % 512
      && 2 <= clst && clst == ClusterAt(dp.fs.geo, dp.fs.chains[clst0], ofs0 / 512)
      && ClusterToSector(dp.fs.geo, clst) > 0
      && ClusterToSector(dp.fs.geo, clst) + ofs / 512 == FileSector(dp.fs.geo, dp.fs.chains[clst0], ofs0 / 512)
  {
    hide *;
    DirFacts(dp);
    PowerOfTwoSize(dp.fs.geo);
    res, clst, ofs := OK, clst0, ofs0;
    var csz := dp.fs.geo.csize * 512;
    ghost var q: nat := 0;
    TimesSucc(dp.fs.geo.csize, 0);
    ChainSectors(dp.fs.geo, dp.fs.chains[clst0]);
    while ofs >= csz
      invariant dp.fs.Valid() && dp.fs.Logical() == old(dp.fs.Logical())
      invariant FatTable.Table(dp.fs) == old(FatTable.Table(dp.fs))
      invariant q < |dp.fs.chains[clst0]| && dp.fs.chains[clst0][q] == clst
      invariant ofs0 == ofs + 512 * Times(dp.fs.geo.csize, q)
    {
      TimesSucc(dp.fs.geo.csize, q);
      clst := GetFat(dp.fs, clst);
      LinkOf(FatTable.Table(dp.fs), dp.fs.chains[clst0], q);
      if clst < 2 || clst >= dp.fs.geo.nFatEnt {
        res := IntErr;
        return;
      }
      ofs := ofs - csz;
      q := q + 1;
    }
    SectorOfCluster(dp.fs.geo, dp.fs.chains[clst0], q, ofs / 512);
    ChainCluster(dp.fs.geo, dp.fs.chains[clst0], q);
  }

  /** The cursor range of a table in terms of the checks of the source. */
  lemma SlotRange(g: Geometry, a: Area, ofs: nat)
    requires AreaOk(g, a) && ofs % 32 == 0
    ensures ofs / 32 < Reach(g, a) <==> ofs < MAX_DIR && ofs / 512 < AreaSectors(g, a)
    ensures a == Static ==>
      && g.dirBase > 0 && (ofs / 512 < AreaSectors(g, a) <==> ofs / 32 < g.nRootDir)
      && (ofs / 512 < AreaSectors(g, a) ==> AreaSector(g, a, ofs / 512) == g.dirBase + ofs / 512)
  {
    Regions(g);
  }

  lemma AtIs(g: Geometry, a: Area, dptr: nat, clust: nat, sect: nat)
    requires AreaOk(g, a) && dptr % 32 == 0 && dptr / 32 < Reach(g, a) && dptr / 512 < AreaSectors(g, a)
    requires sect == AreaSector(g, a, dptr / 512)
    requires a.Static? ==> clust == 0
    requires a.Dynamic? ==> Clusters(g, a.ch) && dptr / 512 < Sectors(g, a.ch) && clust == ClusterAt(g, a.ch, dptr / 512)
    ensures At(g, a, dptr, clust, sect)
  {
  }

  lemma DynamicSector(g: Geometry, ch: seq<nat>, n: nat)
    requires AreaOk(g, Dynamic(ch)) && n < AreaSectors(g, Dynamic(ch))
    ensures Clusters(g, ch) && n < Sectors(g, ch) && AreaSector(g, Dynamic(ch), n) == FileSector(g, ch, n)
  {
  }

  lemma PlacedIs(dp: DirObj)
    requires dp.Held()
    ensures dp.Placed() <==> At(dp.fs.geo, dp.Place(), dp.dptr, dp.clust, dp.sect)
    ensures dp.Start() == StartCluster(dp.fs.geo, dp.sclust)
    ensures StartCluster(dp.fs.geo, dp.sclust) == if dp.sclust == 0 && dp.fs.geo.fsType.Fat32? then dp.fs.geo.dirBase else dp.sclust
  {
  }

  /** dir_sdi: sets the cursor to an offset of the table. */
  method Sdi(dp: DirObj, ofs: nat) returns (res: FResult)
    requires dp.Held()
    modifies dp`dptr, dp`clust, dp`sect, dp.fs`disk, dp.fs`wflag, dp.fs`winsect, dp.fs.win
    ensures dp.Held() && dp.fs.Logical() == old(dp.fs.Logical()) && dp.Table() == old(dp.Table())
    ensures res == if ofs % 32 == 0 && ofs / 32 < |dp.Table()| then OK else IntErr
    ensures res == OK ==> dp.Placed() && dp.dptr == ofs
  {
    hide *;
    DirFacts(dp);
    PlacedIs(dp);
    if ofs >= MAX_DIR || ofs % 32 != 0 {
      if ofs % 32 == 0 {
        SlotRange(dp.fs.geo, dp.Place(), ofs);
      }
      return IntErr;
    }
    SlotRange(dp.fs.geo, dp.Place(), ofs);
    dp.dptr := ofs;
    var clst := dp.sclust;
    if clst == 0 && dp.fs.geo.fsType.Fat32? {
      clst := dp.fs.geo.dirBase;
    }
    var rest := ofs;
    if clst == 0 {
      if ofs / 32 >= dp.fs.geo.nRootDir {
        return IntErr;
      }
      dp.sect := dp.fs.geo.dirBase;
    } else {
      ghost var ch := dp.fs.chains[clst];
      res, clst, rest := FollowTo(dp, clst, ofs);
      StillDir(dp);
      if res != OK {
        return;
      }
      DynamicSector(dp.fs.geo, ch, ofs / 512);
      dp.sect := ClusterToSector(dp.fs.geo, clst);
    }
    dp.clust := clst;
    if dp.sect == 0 {
      return IntErr;
    }
    dp.sect := dp.sect + rest / 512;
    res := OK;
    AtIs(dp.fs.geo, dp.Place(), dp.dptr, dp.clust, dp.sect);
    PlacedIs(dp);
  }

  /** The table was stretched by blank slots. */
  ghost predicate Stretched(t: seq<Slot>, t': seq<Slot>) {
    |t| < |t'| && Extends(t, t')
  }

  /** A volume whose table and chains are as before stays in order. */
  twostate lemma StillVolume(fs: FatFs)
    requires old(VolumeOk(fs)) && fs.Valid() && Fat(fs.geo, fs.Logical()) == Fat(fs.geo, old(fs.Logical()))
    requires fs.chains == old(fs.chains) && fs.freeClst == old(fs.freeClst)
    ensures VolumeOk(fs)
  {
    hide Partition, Fat, CountFree, WellFormed, FatFs.Logical, FatFs.Valid;
  }

  lemma StretchedOk(t: seq<Slot>, t': seq<Slot>)
    requires DirOk(t) && Stretched(t, t')
    ensures DirOk(t') && Entries(t') == Entries(t)
  {
    hide Blank, DirOk, Entries;
    ExtendsOk(t, t');
  }

  /** The last cluster of a chain. */
  ghost function Last(chains: map<nat, seq<nat>>, h: nat): nat
    requires h in chains && chains[h] != []
  {
    chains[h][|chains[h]| - 1]
  }

  lemma EndOfChain(chains: map<nat, seq<nat>>, h: nat)
    requires h in chains && chains[h] != []
    ensures OnChain(chains, h, |chains[h]| - 1, Last(chains, h))
  {
  }

  lemma AllottedAtEnd(chains: map<nat, seq<nat>>, clst: nat, h: nat, c: nat)
    requires h in chains && clst != 0
    ensures Allotted(chains, clst, h, c) == chains[h := chains[h] + [c]]
    ensures Last(chains[h := chains[h] + [c]], h) == c
  {
  }

  twostate lemma SameDir(dp: DirObj)
    requires old(dp.Held()) && VolumeOk(dp.fs)
    requires dp.fs.Logical() == old(dp.fs.Logical()) && dp.fs.chains == old(dp.fs.chains)
    ensures dp.Held() && DirSame(dp) && DirStays(dp) && dp.Place() == old(dp.Place())
  {
    hide Partition, Fat, FreeCountOk, WellFormed, Slots, InTable;
  }

  lemma NotEmpty(fat: seq<nat>, ch: seq<nat>)
    requires IsChain(fat, ch)
    ensures ch != []
  {
  }

  /** The clusters of a chain in the volume's order. */
  lemma ChainAt(fs: FatFs, h: nat)
    requires VolumeOk(fs) && h in fs.chains
    ensures Clusters(fs.geo, fs.chains[h]) && fs.chains[h] != []
  {
    hide Partition, IsChain, Fat, FreeCountOk;
    HeadOf(FatTable.Table(fs), fs.chains, h);
    ChainClusters(fs.geo, FatTable.Table(fs), fs.chains[h]);
    NotEmpty(FatTable.Table(fs), fs.chains[h]);
  }

  lemma DynamicOk(g: Geometry, ch: seq<nat>)
    requires Clusters(g, ch) && ch != []
    ensures AreaOk(g, Dynamic(ch))
  {
  }

  twostate lemma BeforeDir(dp: DirObj)
    requires old(dp.Held()) && dp.Start() != 0
    ensures dp.Start() in old(dp.fs.chains) && old(dp.Place()) == Dynamic(old(dp.fs.chains)[dp.Start()])
    ensures Clusters(dp.fs.geo, old(dp.fs.chains)[dp.Start()]) && old(dp.fs.chains)[dp.Start()] != []
    ensures AreaOk(dp.fs.geo, Dynamic(old(dp.fs.chains)[dp.Start()]))
    ensures old(dp.Table()) == Slots(dp.fs.geo, old(dp.fs.Logical()), Dynamic(old(dp.fs.chains)[dp.Start()]))
    ensures DirOk(Slots(dp.fs.geo, old(dp.fs.Logical()), Dynamic(old(dp.fs.chains)[dp.Start()])))
  {
    hide DirOk, Slots, Partition, FreeCountOk;
  }

  lemma StretchedIs(t: seq<Slot>, t': seq<Slot>)
    requires |t| < |t'| && t' == t + t'[|t|..] && Blank(t'[|t|..])
    ensures Stretched(t, t')
  {
  }

  lemma StretchReach(g: Geometry, ch: seq<nat>, c: nat)
    requires Clusters(g, ch + [c]) && Reach(g, Dynamic(ch)) == 16 * AreaSectors(g, Dynamic(ch)) < MAX_DIR / 32
    ensures Reach(g, Dynamic(ch)) == 16 * Sectors(g, ch) < Reach(g, Dynamic(ch + [c]))
    ensures ClusterToSector(g, c) > 0
  {
    RoomAtEnd(g, ch, c);
    assert (ch + [c])[|ch|] == c;
  }

  /** A directory whose chain got one more, cleared, cluster. */
  twostate lemma StretchedDir(dp: DirObj)
    requires old(dp.Held()) && dp.Start() != 0 && VolumeOk(dp.fs)
    requires old(Reach(dp.fs.geo, dp.Place()) == 16 * AreaSectors(dp.fs.geo, dp.Place()) < MAX_DIR / 32)
    requires dp.Start() in old(dp.fs.chains) && dp.Start() in dp.fs.chains && dp.fs.chains[dp.Start()] != []
    requires dp.fs.chains[dp.Start()] == old(dp.fs.chains)[dp.Start()] + [Last(dp.fs.chains, dp.Start())]
    requires dp.fs.chains == old(dp.fs.chains)[dp.Start() := dp.fs.chains[dp.Start()]]
    requires Cleared(dp.fs.geo, Last(dp.fs.chains, dp.Start()), old(dp.fs.Logical()), dp.fs.Logical())
    ensures dp.Held() && Stretched(old(dp.Table()), dp.Table()) && DirStays(dp)
  {
    hide Partition, Fat, FreeCountOk, WellFormed, Slots, InTable, Clusters, Cleared, FatFs.Logical, FatFs.Valid, VolumeOk;
    hide AreaOk, Sectors, TableOnly, Stretched, Blank, IsChain, DirOk;
    var g, h := dp.fs.geo, dp.Start();
    var ch, ch' := old(dp.fs.chains)[h], dp.fs.chains[h];
    BeforeDir(dp);
    ChainAt(dp.fs, h);
    DynamicOk(g, ch');
    StretchReach(g, ch, Last(dp.fs.chains, h));
    StretchedSlots(g, old(dp.fs.Logical()), dp.fs.Logical(), ch, Last(dp.fs.chains, h));
    StretchedIs(Slots(g, old(dp.fs.Logical()), Dynamic(ch)), Slots(g, dp.fs.Logical(), Dynamic(ch')));
    StretchedOk(Slots(g, old(dp.fs.Logical()), Dynamic(ch)), Slots(g, dp.fs.Logical(), Dynamic(ch')));
    ClearedTableOnly(g, old(dp.fs.Logical()), dp.fs.Logical(), ch, Last(dp.fs.chains, h));
  }

  lemma ClusterFirst(g: Geometry, c: nat)
    requires 2 <= c < g.nFatEnt
    ensures ClusterToSector(g, c) > 0
  {
  }

  /** The table of a directory at the end of its chain, stretched by a cleared cluster. */
  method Stretch(dp: DirObj) returns (res: FResult, clst: nat)
    requires dp.Held() && dp.Start() != 0 && dp.clust == Last(dp.fs.chains, dp.Start())
    requires Reach(dp.fs.geo, dp.Place()) == 16 * AreaSectors(dp.fs.geo, dp.Place()) < MAX_DIR / 32
    modifies dp.fs`disk, dp.fs`wflag, dp.fs`winsect, dp.fs.win, dp.fs`freeClst, dp.fs`lastClst, dp.fs`fsiFlag, dp.fs`chains
    ensures dp.Held() && (res == OK || res == Denied)
    ensures res == Denied ==> DirSame(dp) && Full(FatTable.Table(dp.fs))
    ensures res == OK ==>
      && 2 <= clst && ClusterToSector(dp.fs.geo, clst) > 0 && Stretched(old(dp.Table()), dp.Table()) && DirStays(dp)
      && dp.Start() in old(dp.fs.chains)
      && dp.fs.chains == old(dp.fs.chains)[dp.Start() := old(dp.fs.chains)[dp.Start()] + [clst]]
  {
    hide *;
    DirFacts(dp);
    ghost var h := dp.Start();
    EndOfChain(dp.fs.chains, h);
    OnChainFacts(dp.fs, h, |dp.fs.chains[h]| - 1, dp.clust);
    clst := Allocate(dp.fs, dp.clust, h, |dp.fs.chains[h]| - 1);
    if clst == 0 {
      res := Denied;
      SameDir(dp);
      return;
    }
    AllottedAtEnd(old(dp.fs.chains), dp.clust, h, clst);
    label linked:
    res := DirClear(dp.fs, clst);
    StillVolume@linked(dp.fs);
    ClearedAfter(dp.fs.geo, clst, old(dp.fs.Logical()), old@linked(dp.fs.Logical()), dp.fs.Logical());
    StretchedDir(dp);
    ClusterFirst(dp.fs.geo, clst);
  }

  /** The sector behind one inside the same cluster. */
  lemma NextInCluster(g: Geometry, ch: seq<nat>, n: nat)
    requires Clusters(g, ch) && n < Sectors(g, ch) && Rem(n + 1, g.csize) != 0
    ensures n + 1 < Sectors(g, ch) && FileSector(g, ch, n + 1) == FileSector(g, ch, n) + 1
    ensures ClusterAt(g, ch, n + 1) == ClusterAt(g, ch, n)
  {
    Regions(g);
    RemPrev(n + 1, g.csize);
    hide WellFormed, ClusterAt, FileSector, Rem;
    FileSectorRun(g, ch, n, 1);
  }

  /** Where the slot behind a placed cursor lies. */
  lemma NextPlace(g: Geometry, a: Area, dptr: nat, clust: nat, sect: nat)
    requires AreaOk(g, a) && At(g, a, dptr, clust, sect)
    ensures var ofs := dptr + 32;
            && sect > 0 && dptr / 512 < AreaSectors(g, a) && (clust == 0 <==> a == Static)
            && (ofs % 512 != 0 && ofs < MAX_DIR ==> At(g, a, ofs, clust, sect))
            && (ofs >= MAX_DIR ==> Reach(g, a) == MAX_DIR / 32 && ofs / 32 == Reach(g, a))
            && (ofs % 512 == 0 && a == Static && ofs < MAX_DIR ==>
                if ofs / 32 >= g.nRootDir then ofs / 32 == Reach(g, a) else At(g, a, ofs, clust, sect + 1))
            && (ofs % 512 == 0 && ofs < MAX_DIR && a.Dynamic? && Rem(ofs / 512, g.csize) != 0 ==>
                At(g, a, ofs, clust, sect + 1))
  {
    AreaSectorFacts(g, a, dptr / 512);
    var ofs := dptr + 32;
    if ofs % 512 != 0 {
      assert ofs / 512 == dptr / 512;
    } else {
      assert ofs / 512 == dptr / 512 + 1;
      match a {
        case Static =>
        case Dynamic(ch) =>
          if Rem(ofs / 512, g.csize) != 0 {
            NextInCluster(g, ch, dptr / 512);
          }
      }
    }
  }

  /** The slot behind the last one of a cluster: in the next cluster, or behind the table. */
  lemma NextClusterPlace(g: Geometry, ch: seq<nat>, dptr: nat, clust: nat, sect: nat)
    requires AreaOk(g, Dynamic(ch)) && At(g, Dynamic(ch), dptr, clust, sect)
    requires (dptr + 32) % 512 == 0 && dptr + 32 < MAX_DIR && Rem((dptr + 32) / 512, g.csize) == 0
    ensures var ofs := dptr + 32; var q := Quot(ofs / 512, g.csize);
            && 1 <= q <= |ch| && ch[q - 1] == clust
            && (q < |ch| ==> At(g, Dynamic(ch), ofs, ch[q], ClusterToSector(g, ch[q])) && ofs / 32 < Reach(g, Dynamic(ch)))
            && (q == |ch| ==>
                ofs / 32 == Reach(g, Dynamic(ch)) == 16 * AreaSectors(g, Dynamic(ch)) < MAX_DIR / 32
                && ofs / 512 == Sectors(g, ch))
  {
    Regions(g);
    var ofs := dptr + 32;
    assert (ofs - 1) / 512 == dptr / 512;
    hide WellFormed, ClusterAt, Quot, Rem, FileSector, ClusterToSector;
    BoundaryPlace(g, ch, ofs, clust);
    if Quot(ofs / 512, g.csize) < |ch| {
      FileSectorSplits(g, ch, ofs / 512);
    }
  }

  lemma DynamicAt(g: Geometry, ch: seq<nat>, ofs: nat)
    requires AreaOk(g, Dynamic(ch)) && ofs % 32 == 0 && ofs < MAX_DIR && ofs / 512 < Sectors(g, ch)
    ensures At(g, Dynamic(ch), ofs, ClusterAt(g, ch, ofs / 512), FileSector(g, ch, ofs / 512))
  {
    ChainSectors(g, ch);
    SlotRange(g, Dynamic(ch), ofs);
    hide Clusters, ClusterAt, FileSector, Times, Sectors;
  }

  /** The first sector of a new cluster at the end of a chain. */
  lemma NewClusterSector(g: Geometry, ch: seq<nat>, c: nat)
    requires Clusters(g, ch + [c])
    ensures var n := Sectors(g, ch);
            && n < Sectors(g, ch + [c]) && ClusterAt(g, ch + [c], n) == c
            && FileSector(g, ch + [c], n) == ClusterToSector(g, c)
  {
    Regions(g);
    RoomAtEnd(g, ch, c);
    FileSectorSplits(g, ch + [c], Sectors(g, ch));
    QuotTimes(g.csize, |ch|, 0);
    hide WellFormed, ClusterAt, Quot, Rem, FileSector, ClusterToSector, Times;
  }

  /** The first slot of a table's new cluster. */
  lemma NewClusterPlace(g: Geometry, ch: seq<nat>, c: nat, ofs: nat)
    requires AreaOk(g, Dynamic(ch + [c])) && ofs % 512 == 0 && ofs / 512 == Sectors(g, ch) && ofs < MAX_DIR
    ensures At(g, Dynamic(ch + [c]), ofs, c, ClusterToSector(g, c))
  {
    hide WellFormed, Clusters, ClusterAt, FileSector, ClusterToSector, Sectors, At;
    NewClusterSector(g, ch, c);
    assert ofs % 32 == 0;
    DynamicAt(g, ch + [c], ofs);
  }

  lemma LastIs(chains: map<nat, seq<nat>>, h: nat)
    requires h in chains && chains[h] != []
    ensures Last(chains, h) == chains[h][|chains[h]| - 1]
  {
  }

  /** The next cluster of a table, or a new one. */
  method NextCluster(dp: DirObj, stretch: bool, ghost sect: nat) returns (res: FResult, clst: nat)
    requires dp.Held() && dp.Start() != 0 && At(dp.fs.geo, dp.Place(), dp.dptr, dp.clust, sect)
    requires (dp.dptr + 32) % 512 == 0 && dp.dptr + 32 < MAX_DIR && Rem((dp.dptr + 32) / 512, dp.fs.geo.csize) == 0
    modifies dp.fs`disk, dp.fs`wflag, dp.fs`winsect, dp.fs.win, dp.fs`freeClst, dp.fs`lastClst, dp.fs`fsiFlag, dp.fs`chains
    ensures dp.Held()
    ensures res == OK ==> At(dp.fs.geo, dp.Place(), dp.dptr + 32, clst, ClusterToSector(dp.fs.geo, clst))
    ensures dp.dptr / 32 + 1 < |old(dp.Table())| ==> res == OK && DirSame(dp)
    ensures dp.dptr / 32 + 1 == |old(dp.Table())| && !stretch ==> res == NoFile && DirSame(dp)
    ensures dp.dptr / 32 + 1 == |old(dp.Table())| && stretch ==>
      || (res == Denied && DirSame(dp) && Full(FatTable.Table(dp.fs)))
      || (res == OK && Stretched(old(dp.Table()), dp.Table()) && DirStays(dp))
  {
    hide *;
    DirFacts(dp);
    ghost var ch := dp.fs.chains[dp.Start()];
    ghost var q := Quot((dp.dptr + 32) / 512, dp.fs.geo.csize);
    NextClusterPlace(dp.fs.geo, ch, dp.dptr, dp.clust, sect);
    LinkOf(FatTable.Table(dp.fs), ch, q - 1);
    res := OK;
    clst := GetFat(dp.fs, dp.clust);
    StillDir(dp);
    if clst <= 1 {
      res := IntErr;
      return;
    }
    if clst >= dp.fs.geo.nFatEnt {
      if !stretch {
        res := NoFile;
        return;
      }
      LastIs(dp.fs.chains, dp.Start());
      label found:
      res, clst := Stretch(dp);
      DirSameIs@found(dp);
      DirSameIs(dp);
      DirStaysIs@found(dp);
      DirStaysIs(dp);
      if res == OK {
        DirFacts(dp);
        NewClusterPlace(dp.fs.geo, ch, clst, dp.dptr + 32);
      }
    }
  }

  /** dir_next: moves the cursor to the next slot, stretching the table at its end if asked to. */
  method Next(dp: DirObj, stretch: bool) returns (res: FResult)
    requires dp.Placed()
    modifies dp`dptr, dp`clust, dp`sect, dp.fs`disk, dp.fs`wflag, dp.fs`winsect, dp.fs.win
    modifies dp.fs`freeClst, dp.fs`lastClst, dp.fs`fsiFlag, dp.fs`chains
    ensures dp.Held()
    ensures res == OK ==> dp.Placed() && dp.dptr == old(dp.dptr) + 32
    ensures old(dp.dptr) / 32 + 1 < |old(dp.Table())| ==> res == OK && DirSame(dp)
    ensures old(dp.dptr) / 32 + 1 == |old(dp.Table())| && !stretch ==> res == NoFile && DirSame(dp)
    ensures old(dp.dptr) / 32 + 1 == |old(dp.Table())| && stretch ==>
      || (res == NoFile && DirSame(dp) && (dp.Place() == Static || |dp.Table()| == MAX_DIR / 32))
      || (res == Denied && DirSame(dp) && Full(FatTable.Table(dp.fs)))
      || (res == OK && Stretched(old(dp.Table()), dp.Table()) && DirStays(dp))
  {
    hide *;
    PowerOfTwoSize(dp.fs.geo);
    DirFacts(dp);
    PlacedIs(dp);
    DirSameIs(dp);
    NextPlace(dp.fs.geo, dp.Place(), dp.dptr, dp.clust, dp.sect);
    ghost var sect := dp.sect;
    var ofs := dp.dptr + 32;
    if ofs >= MAX_DIR {
      dp.sect := 0;
    }
    if dp.sect == 0 {
      return NoFile;
    }
    if ofs % 512 == 0 {
      dp.sect := dp.sect + 1;
      if dp.clust == 0 {
        if ofs / 32 >= dp.fs.geo.nRootDir {
          dp.sect := 0;
          return NoFile;
        }
      } else {
        AndIsRem(ofs / 512, dp.fs.geo.csize);
        if And(ofs / 512, dp.fs.geo.csize - 1) == 0 {
          var clst: nat;
          label change:
          res, clst := NextCluster(dp, stretch, sect);
          DirSameIs@change(dp);
          DirSameIs(dp);
          DirStaysIs@change(dp);
          DirStaysIs(dp);
          if res != OK {
            if res == NoFile {
              dp.sect := 0;
            }
            return;
          }
          dp.clust := clst;
          dp.sect := ClusterToSector(dp.fs.geo, clst);
        }
      }
    }
    dp.dptr := ofs;
    PlacedIs(dp);
    res := OK;
  }

  lemma CursorSlot(g: Geometry, d: Disk, a: Area, dptr: nat, clust: nat, sect: nat)
    requires |d| == g.total && AreaOk(g, a) && At(g, a, dptr, clust, sect)
    ensures sect < g.total && !InFatArea(g, sect) && !InSecondFat(g, sect) && dptr % 512 + 32 <= 512 && dptr / 32 < Reach(g, a)
    ensures sect == AreaSector(g, a, dptr / 32 / 16) && dptr % 512 == dptr / 32 % 16 * 32
    ensures Slots(g, d, a)[dptr / 32] == d[sect][dptr % 512..dptr % 512 + 32]
  {
    AreaSectorFacts(g, a, dptr / 512);
    assert dptr / 32 / 16 == dptr / 512;
  }

  /** `move_window` to the cursor's sector, then the entry at `dp->dir`. */
  method LoadEntry(dp: DirObj) returns (e: Slot)
    requires dp.Placed()
    modifies dp.fs`disk, dp.fs`wflag, dp.fs`winsect, dp.fs.win
    ensures dp.Placed() && DirSame(dp)
    ensures e == dp.Table()[dp.dptr / 32] && dp.fs.winsect == dp.sect
  {
    hide *;
    DirFacts(dp);
    PlacedIs(dp);
    CursorSlot(dp.fs.geo, dp.fs.Logical(), dp.Place(), dp.dptr, dp.clust, dp.sect);
    dp.fs.MoveWindow(dp.sect);
    StillDir(dp);
    PlacedIs(dp);
    e := dp.fs.win[..][dp.dptr % 512..dp.dptr % 512 + 32];
  }

  lemma TableNotEmpty(dp: DirObj)
    requires dp.Held()
    ensures |dp.Table()| > 0 && |dp.Table()| <= MAX_DIR / 32
  {
    hide Slots, WellFormed;
    AreaNotEmpty(dp.fs.geo, dp.Place());
  }

  lemma SearchStarts(t: seq<Slot>, name: Name, nent: nat)
    requires nent > 0
    ensures NoneBefore(t, name, 0) && RunUpTo(t, 0, 0) && NoRun(t, 0, nent)
  {
  }

  /** dir_find: finds the name exactly when it is bound, and then its entry. */
  method Find(dp: DirObj) returns (res: FResult)
    requires dp.Held() && Proper(dp.fn)
    modifies dp`dptr, dp`clust, dp`sect, dp.fs`disk, dp.fs`wflag, dp.fs`winsect, dp.fs.win
    modifies dp.fs`freeClst, dp.fs`lastClst, dp.fs`fsiFlag, dp.fs`chains
    ensures dp.Held() && DirSame(dp)
    ensures res == if dp.fn in Entries(dp.Table()) then OK else NoFile
    ensures res == OK ==>
      && dp.Placed() && Live(dp.Table()[dp.dptr / 32]) && NameOf(dp.Table()[dp.dptr / 32]) == dp.fn
      && Names(dp.Table()[dp.dptr / 32], dp.fn)
    ensures res == NoFile ==> forall i :: 0 <= i < |dp.Table()| ==> !Names(dp.Table()[i], dp.fn)
  {
    hide *;
    EntriesInBytes(dp.Table(), dp.fn);
    TableNotEmpty(dp);
    SearchStarts(dp.Table(), dp.fn, 1);
    res := Sdi(dp, 0);
    DirSameIs(dp);
    if res != OK {
      return;
    }
    while true
      invariant dp.Placed() && DirSame(dp) && NoneBefore(dp.Table(), dp.fn, dp.dptr / 32)
      decreases |old(dp.Table())| - dp.dptr / 32
    {
      DirSameIs(dp);
      label slot:
      var e := LoadEntry(dp);
      DirSameIs@slot(dp);
      DirSameIs(dp);
      FindStep(dp.Table(), dp.fn, dp.dptr / 32);
      if e[0] == 0 {
        res := NoFile;
        return;
      }
      if e[11] / 8 % 2 == 0 && e[..11] == dp.fn {
        NamesIs(dp.Table(), dp.fn, dp.dptr / 32);
        res := OK;
        return;
      }
      label next:
      res := Next(dp, false);
      DirSameIs@next(dp);
      DirSameIs(dp);
      if res != OK {
        return;
      }
    }
  }

  /** A grown table contains the sectors it had. */
  lemma GrownContains(g: Geometry, a: Area, a': Area)
    requires AreaOk(g, a) && AreaOk(g, a') && AreaGrew(a, a')
    ensures forall s: nat :: InTable(g, a, s) ==> InTable(g, a', s)
  {
    hide WellFormed, ClusterAt, FileSector, Sectors;
    if a' != a {
      forall n: nat | n < AreaSectors(g, a)
        ensures n < AreaSectors(g, a') && AreaSector(g, a', n) == AreaSector(g, a, n)
      {
        PrefixSectors(g, a.ch, a'.ch, n);
      }
    }
  }

  /** Two steps on a directory one after the other. */
  lemma StaysTrans(g: Geometry, h: nat, c0: map<nat, seq<nat>>, d0: Disk, a0: Area,
                   c1: map<nat, seq<nat>>, d1: Disk, a1: Area, c2: map<nat, seq<nat>>, d2: Disk, a2: Area)
    requires AreaOk(g, a1) && AreaOk(g, a2)
    requires TableStays(g, h, c0, d0, a0, c1, d1, a1) && TableStays(g, h, c1, d1, a1, c2, d2, a2)
    ensures TableStays(g, h, c0, d0, a0, c2, d2, a2)
  {
    GrownContains(g, a1, a2);
    hide WellFormed, InTable, AreaOk;
  }

  twostate lemma SameStays(dp: DirObj)
    requires old(dp.Held()) && dp.Held() && DirSame(dp)
    ensures DirStays(dp) && Extends(old(dp.Table()), dp.Table())
  {
    hide Slots, AreaOk, InTable, FatFs.Logical, FatFs.Valid, VolumeOk, DirOk;
  }

  /** The table can not get another slot. */
  ghost predicate Exhausted(dp: DirObj)
    reads dp.fs`disk, dp.fs`wflag, dp.fs`winsect, dp.fs`freeClst, dp.fs`chains, dp.fs.win
    requires dp.Held()
  {
    Full(FatTable.Table(dp.fs)) || dp.Place() == Static || |dp.Table()| == MAX_DIR / 32
  }

  lemma ExhaustedIs(dp: DirObj)
    requires dp.Held()
    ensures Exhausted(dp) <==> Full(FatTable.Table(dp.fs)) || dp.Place() == Static || |dp.Table()| == MAX_DIR / 32
  {
    hide Full, Slots, Fat;
  }

  lemma StretchedExtends(t: seq<Slot>, t': seq<Slot>)
    ensures Stretched(t, t') ==> Extends(t, t')
  {
  }

  /** `dir_next` with stretching. */
  method NextStretched(dp: DirObj) returns (res: FResult)
    requires dp.Placed()
    modifies dp`dptr, dp`clust, dp`sect, dp.fs`disk, dp.fs`wflag, dp.fs`winsect, dp.fs.win
    modifies dp.fs`freeClst, dp.fs`lastClst, dp.fs`fsiFlag, dp.fs`chains
    ensures dp.Held() && DirStays(dp) && Extends(old(dp.Table()), dp.Table())
    ensures res == OK ==> dp.Placed() && dp.dptr == old(dp.dptr) + 32
    ensures res != OK ==>
      && (res == NoFile || res == Denied) && Exhausted(dp)
      && dp.Table() == old(dp.Table()) && old(dp.dptr) / 32 + 1 == |dp.Table()|
  {
    hide *;
    res := Next(dp, true);
    DirSameIs(dp);
    StretchedExtends(old(dp.Table()), dp.Table());
    ExhaustedIs(dp);
    if old(dp.dptr) / 32 + 1 < |old(dp.Table())| || res != OK {
      SameStays(dp);
    }
  }

  /** The search of `dir_alloc` is at the cursor with `n` unused slots behind it. */
  ghost predicate Searching(dp: DirObj, n: nat, nent: nat)
    reads dp`dptr, dp`clust, dp`sect, dp.fs`disk, dp.fs`wflag, dp.fs`winsect, dp.fs`freeClst, dp.fs`chains, dp.fs.win
  {
    dp.Placed() && n < nent && RunUpTo(dp.Table(), dp.dptr / 32, n) && NoRun(dp.Table(), dp.dptr / 32, nent)
  }

  lemma SearchingIs(dp: DirObj, n: nat, nent: nat)
    ensures Searching(dp, n, nent) <==>
      dp.Placed() && n < nent && RunUpTo(dp.Table(), dp.dptr / 32, n) && NoRun(dp.Table(), dp.dptr / 32, nent)
  {
  }

  lemma UnusedIs(s: Slot)
    ensures Unused(s) <==> s[0] == DELETED || s[0] == 0
  {
  }

  /** A step of the search of `dir_alloc` from a slot that does not end it. */
  method NextSearched(dp: DirObj, ghost n: nat, ghost nent: nat) returns (res: FResult)
    requires dp.Placed() && n < nent
    requires RunUpTo(dp.Table(), dp.dptr / 32 + 1, n) && NoRun(dp.Table(), dp.dptr / 32 + 1, nent)
    modifies dp`dptr, dp`clust, dp`sect, dp.fs`disk, dp.fs`wflag, dp.fs`winsect, dp.fs.win
    modifies dp.fs`freeClst, dp.fs`lastClst, dp.fs`fsiFlag, dp.fs`chains
    ensures dp.Held() && DirStays(dp) && Extends(old(dp.Table()), dp.Table())
    ensures res == OK ==> dp.Placed() && Searching(dp, n, nent) && dp.dptr == old(dp.dptr) + 32
    ensures res != OK ==> (res == NoFile || res == Denied) && Exhausted(dp) && NoRun(dp.Table(), |dp.Table()|, nent)
  {
    hide *;
    res := NextStretched(dp);
    if res == OK {
      ExtendsSearch(old(dp.Table()), dp.Table(), old(dp.dptr) / 32 + 1, n, nent);
      SearchingIs(dp, n, nent);
    }
  }

  /** dir_alloc: puts the cursor on the last slot of the first row of `nent` unused slots,
      stretching the table as needed. */
  method Alloc(dp: DirObj, nent: nat) returns (res: FResult)
    requires dp.Held() && nent > 0
    modifies dp`dptr, dp`clust, dp`sect, dp.fs`disk, dp.fs`wflag, dp.fs`winsect, dp.fs.win
    modifies dp.fs`freeClst, dp.fs`lastClst, dp.fs`fsiFlag, dp.fs`chains
    ensures dp.Held() && DirStays(dp) && Extends(old(dp.Table()), dp.Table())
    ensures res == OK || res == Denied
    ensures res == OK ==>
      && dp.Placed() && FreeRun(dp.Table(), dp.dptr / 32 + 1 - nent, nent) && NoRun(dp.Table(), dp.dptr / 32, nent)
    ensures res == Denied ==> Exhausted(dp) && NoRun(dp.Table(), |dp.Table()|, nent)
    ensures res == OK ==>
      && 0 <= dp.dptr / 32 + 1 - nent
      && forall i :: dp.dptr / 32 + 1 - nent <= i <= dp.dptr / 32 ==> FreeByte(dp.Table()[i][0])
    ensures res == Denied ==> NoFreeRow(dp.Table(), nent)
  {
    hide *;
    TableNotEmpty(dp);
    SearchStarts(dp.Table(), dp.fn, nent);
    res := Sdi(dp, 0);
    DirSameIs(dp);
    SameStays(dp);
    if res == OK {
      var n: nat := 0;
      SearchingIs(dp, 0, nent);
      while true
        invariant res == OK && dp.Placed() && Searching(dp, n, nent) && DirStays(dp) && Extends(old(dp.Table()), dp.Table())
        decreases MAX_DIR / 32 - dp.dptr / 32
      {
        SearchingIs(dp, n, nent);
        TableNotEmpty(dp);
        DirStaysIs(dp);
        label slot:
        var e := LoadEntry(dp);
        DirSameIs@slot(dp);
        DirStaysIs(dp);
        UnusedIs(e);
        AllocStep(dp.Table(), dp.dptr / 32, n, nent);
        if e[0] == DELETED || e[0] == 0 {
          n := n + 1;
          if n == nent {
            break;
          }
        } else {
          n := 0;
        }
        label next:
        res := NextSearched(dp, n, nent);
        DirStaysIs@next(dp);
        DirFacts(dp);
        StaysTrans(dp.fs.geo, dp.Start(), old(dp.fs.chains), old(dp.fs.Logical()), old(dp.Place()),
                   old@next(dp.fs.chains), old@next(dp.fs.Logical()), old@next(dp.Place()),
                   dp.fs.chains, dp.fs.Logical(), dp.Place());
        ExtendsTrans(old(dp.Table()), old@next(dp.Table()), dp.Table());
        DirStaysIs(dp);
        if res != OK {
          break;
        }
      }
    }
    if res == NoFile {
      res := Denied;
    }
    if res == OK {
      FreeRunInBytes(dp.Table(), dp.dptr / 32 + 1 - nent, nent);
    } else {
      NoRunInBytes(dp.Table(), nent);
    }
  }

  /** A directory whose table was written through the window. */
  twostate lemma WrittenDir(dp: DirObj)
    requires old(dp.Held()) && dp.fs.Valid() && Fat(dp.fs.geo, dp.fs.Logical()) == Fat(dp.fs.geo, old(dp.fs.Logical()))
    requires dp.fs.chains == old(dp.fs.chains) && dp.fs.freeClst == old(dp.fs.freeClst)
    requires AreaOk(dp.fs.geo, dp.Place()) && DirOk(Slots(dp.fs.geo, dp.fs.Logical(), dp.Place()))
    requires TableOnly(dp.fs.geo, dp.Place(), old(dp.fs.Logical()), dp.fs.Logical())
    ensures dp.Held() && DirStays(dp) && dp.Table() == Slots(dp.fs.geo, dp.fs.Logical(), dp.Place())
  {
    hide Slots, DirOk, AreaOk, Fat, VolumeOk, FatFs.Valid, FatFs.Logical, TableOnly, IsChain;
    StillVolume(dp.fs);
  }

  lemma TableAt(g: Geometry, d: Disk, a: Area, n: nat)
    requires |d| == g.total && AreaOk(g, a) && n < Reach(g, a)
    ensures Slots(g, d, a)[n] == SlotAt(g, d, a, n)
  {
  }

  /** `move_window` to the cursor's sector and a store to the start of the entry there. */
  method StoreSlot(dp: DirObj, data: seq<byte>)
    requires dp.Placed() && |data| <= 32
    requires DirOk(dp.Table()[dp.dptr / 32 := Splice(dp.Table()[dp.dptr / 32], 0, data)])
    modifies dp.fs`disk, dp.fs`wflag, dp.fs`winsect, dp.fs.win
    ensures dp.Placed() && DirStays(dp)
    ensures dp.Table() == old(dp.Table())[dp.dptr / 32 := Splice(old(dp.Table())[dp.dptr / 32], 0, data)]
  {
    hide *;
    DirFacts(dp);
    PlacedIs(dp);
    CursorSlot(dp.fs.geo, dp.fs.Logical(), dp.Place(), dp.dptr, dp.clust, dp.sect);
    PutInSlot(dp.fs.geo, dp.fs.Logical(), dp.Place(), dp.dptr / 32, 0, data);
    TableAt(dp.fs.geo, dp.fs.Logical(), dp.Place(), dp.dptr / 32);
    dp.fs.MoveWindow(dp.sect);
    dp.fs.Poke(dp.dptr % 512, data);
    WrittenDir(dp);
    PlacedIs(dp);
  }

  lemma WholeSlot(s: Slot, data: Slot)
    ensures Splice(s, 0, data) == data
  {
  }

  lemma FirstUnused(t: seq<Slot>, k: nat)
    requires k < |t| && FreeRun(t, k + 1 - 1, 1)
    ensures Unused(t[k])
  {
  }

  /** Slot `k`, free before or in clusters added blank behind the table, holds a new entry now: the name
      and 21 zeros. All other slots of the table are as before. */
  ghost predicate Filled(t: seq<Slot>, t': seq<Slot>, k: nat, name: Name) {
    && |t| <= |t'| && k < |t'|
    && (k < |t| ==> FreeByte(t[k][0]))
    && (forall j :: 0 <= j < 32 ==> t'[k][j] == if j < 11 then name[j] else 0)
    && (forall i :: 0 <= i < |t| && i != k ==> t'[i] == t[i])
    && forall i :: |t| <= i < |t'| && i != k ==> t'[i][0] == 0
  }

  lemma FilledSlot(t: seq<Slot>, t1: seq<Slot>, k: nat, name: Name)
    requires Extends(t, t1) && k < |t1| && FreeByte(t1[k][0])
    ensures Filled(t, t1[k := NewEntry(name)], k, name)
  {
    hide FreeByte, NewEntry;
    forall j: nat | j < 32
      ensures NewEntry(name)[j] == if j < 11 then name[j] else 0
    {
      NewEntryBytes(name, j);
    }
    forall i | |t| <= i < |t1|
      ensures t1[i][0] == 0
    {
      assert t1[|t|..][i - |t|] == t1[i];
    }
    forall i | 0 <= i < |t|
      ensures t1[i] == t[i]
    {
      assert (t + t1[|t|..])[i] == t[i];
    }
  }

  lemma AllUsed(t: seq<Slot>)
    requires NoFreeRow(t, 1)
    ensures forall i :: 0 <= i < |t| ==> !FreeByte(t[i][0])
  {
    hide FreeByte;
    forall i | 0 <= i < |t|
      ensures !FreeByte(t[i][0])
    {
      assert HasUsed(t, i, 1);
    }
  }

  /** dir_register: adds the one binding, or finds no slot for it. */
  method Register(dp: DirObj) returns (res: FResult)
    requires dp.Held() && Proper(dp.fn) && dp.fn !in Entries(dp.Table())
    modifies dp`dptr, dp`clust, dp`sect, dp.fs`disk, dp.fs`wflag, dp.fs`winsect, dp.fs.win
    modifies dp.fs`freeClst, dp.fs`lastClst, dp.fs`fsiFlag, dp.fs`chains
    ensures dp.Held() && DirStays(dp) && (res == OK || res == Denied)
    ensures res == OK ==>
      && Entries(dp.Table()) == old(Entries(dp.Table()))[dp.fn := NewEntry(dp.fn)]
      && dp.Placed() && dp.Table()[dp.dptr / 32] == NewEntry(dp.fn)
      && Filled(old(dp.Table()), dp.Table(), dp.dptr / 32, dp.fn)
    ensures res == Denied ==>
      && Entries(dp.Table()) == old(Entries(dp.Table()))
      && Exhausted(dp) && NoRun(dp.Table(), |dp.Table()|, 1)
      && forall i :: 0 <= i < |dp.Table()| ==> !FreeByte(dp.Table()[i][0])
  {
    hide *;
    res := Alloc(dp, 1);
    ExtendsOk(old(dp.Table()), dp.Table());
    if res == OK {
      FirstUnused(dp.Table(), dp.dptr / 32);
      UnusedBytes(dp.Table()[dp.dptr / 32]);
      Registered(dp.Table(), dp.dptr / 32, dp.fn);
      WholeSlot(dp.Table()[dp.dptr / 32], NewEntry(dp.fn));
      DirStaysIs(dp);
      label found:
      FilledSlot(old(dp.Table()), dp.Table(), dp.dptr / 32, dp.fn);
      StoreSlot(dp, NewEntry(dp.fn));
      DirStaysIs@found(dp);
      DirFacts(dp);
      StaysTrans(dp.fs.geo, dp.Start(), old(dp.fs.chains), old(dp.fs.Logical()), old(dp.Place()),
                 old@found(dp.fs.chains), old@found(dp.fs.Logical()), old@found(dp.Place()),
                 dp.fs.chains, dp.fs.Logical(), dp.Place());
      DirStaysIs(dp);
    } else {
      AllUsed(dp.Table());
    }
  }

  lemma MarkedDeleted(s: Slot)
    ensures Splice(s, 0, [DELETED])[0] == DELETED
  {
  }

  /** The first byte of slot `k` is 0xE5 now, the rest of it and all other slots are as before. */
  predicate Marked(t: seq<Slot>, t': seq<Slot>, k: nat) {
    k < |t| && t' == t[k := [0xE5] + t[k][1..]]
  }

  lemma MarkedSlot(t: seq<Slot>, k: nat)
    requires k < |t|
    ensures Marked(t, t[k := Splice(t[k], 0, [DELETED])], k)
  {
    assert Splice(t[k], 0, [DELETED]) == [0xE5] + t[k][1..];
  }

  /** dir_remove: deletes the one binding of the entry at the cursor. */
  method Remove(dp: DirObj) returns (res: FResult)
    requires dp.Placed() && Live(dp.Table()[dp.dptr / 32])
    modifies dp.fs`disk, dp.fs`wflag, dp.fs`winsect, dp.fs.win
    ensures res == OK && dp.Placed() && DirStays(dp)
    ensures old(NameOf(dp.Table()[dp.dptr / 32])) in old(Entries(dp.Table()))
    ensures Entries(dp.Table()) == old(Entries(dp.Table())) - {old(NameOf(dp.Table()[dp.dptr / 32]))}
    ensures Marked(old(dp.Table()), dp.Table(), dp.dptr / 32)
  {
    hide *;
    ghost var k := dp.dptr / 32;
    MarkedDeleted(dp.Table()[k]);
    DropEntry(dp.Table(), k, Splice(dp.Table()[k], 0, [DELETED]));
    MarkedSlot(dp.Table(), k);
    StoreSlot(dp, [DELETED]);
    res := OK;
  }
}
