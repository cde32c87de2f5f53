/** Where the slots of a directory table lie on the volume. */
module DirTable {
  import opened Arith
  import opened FatTypes
  import opened FatWindow
  import opened FatTable
  import opened ChainSpec
  import opened FileSpec
  import opened DirSpec

  /** The static root table of FAT12/16, or a table on a chain of clusters. */
  datatype Area = Static | Dynamic(ch: seq<nat>)

  ghost predicate AreaOk(g: Geometry, a: Area) {
    match a
    case Static => !g.fsType.Fat32?
    case Dynamic(ch) => Clusters(g, ch) && ch != []
  }

  function AreaSectors(g: Geometry, a: Area): nat {
    match a
    case Static => g.nRootDir / 16
    case Dynamic(ch) => Sectors(g, ch)
  }

  function AreaSector(g: Geometry, a: Area, n: nat): nat
    requires AreaOk(g, a) && n < AreaSectors(g, a)
  {
    match a
    case Static => g.dirBase + n
    case Dynamic(ch) => FileSector(g, ch, n)
  }

  lemma AreaSectorFacts(g: Geometry, a: Area, n: nat)
    requires AreaOk(g, a) && n < AreaSectors(g, a)
    ensures 0 < AreaSector(g, a, n) < g.total && !InFatArea(g, AreaSector(g, a, n))
  {
    Regions(g);
    match a
    case Static =>
    case Dynamic(ch) => FileSectorInData(g, ch, n);
  }

  lemma AreaInjective(g: Geometry, a: Area, m: nat, n: nat)
    requires AreaOk(g, a) && m < AreaSectors(g, a) && n < AreaSectors(g, a)
    requires AreaSector(g, a, m) == AreaSector(g, a, n)
    ensures m == n
  {
    match a
    case Static =>
    case Dynamic(ch) => FileSectorInjective(g, ch, m, n);
  }

  lemma AreaNotEmpty(g: Geometry, a: Area)
    requires AreaOk(g, a)
    ensures 0 < AreaSectors(g, a)
  {
    match a
    case Static =>
    case Dynamic(ch) => FirstCluster(g, ch);
  }

  /** Number of slots within the size limit of a directory. */
  function Reach(g: Geometry, a: Area): nat {
    if 16 * AreaSectors(g, a) < MAX_DIR / 32 then 16 * AreaSectors(g, a) else MAX_DIR / 32
  }

  function SlotAt(g: Geometry, d: Disk, a: Area, n: nat): Slot
    requires |d| == g.total && AreaOk(g, a) && n < Reach(g, a)
  {
    AreaSectorFacts(g, a, n / 16);
    d[AreaSector(g, a, n / 16)][n % 16 * 32..n % 16 * 32 + 32]
  }

  /** The slots of the table in order. */
  function Slots(g: Geometry, d: Disk, a: Area): (r: seq<Slot>)
    requires |d| == g.total && AreaOk(g, a)
    ensures |r| == Reach(g, a)
  {
    seq(Reach(g, a), n requires 0 <= n < Reach(g, a) => SlotAt(g, d, a, n))
  }

  lemma SlotOffset(n: nat, b: nat)
    requires b < 32
    ensures (32 * n + b) / 512 == n / 16 && (32 * n + b) % 512 == n % 16 * 32 + b
  {
  }

  /** Where the bytes of a slot are on the drive: the static table begins at its own sector, another one
      is stored like a file. A table has at most 65536 slots. */
  lemma SlotOnDrive(g: Geometry, d: Disk, a: Area, n: nat, b: nat)
    requires |d| == g.total && AreaOk(g, a) && n < Reach(g, a) && b < 32
    ensures a.Static? ==> g.dirBase + n / 16 < |d| && Slots(g, d, a)[n][b] == d[g.dirBase + n / 16][n % 16 * 32 + b]
    ensures a.Dynamic? ==> IsByte(d, g.dataBase, g.csize, a.ch, 32 * n + b, Slots(g, d, a)[n][b])
    ensures |Slots(g, d, a)| == Reach(g, a) <= 0x1_0000
  {
    hide WellFormed, FileSector, Sectors, Clusters, IsByte;
    AreaSectorFacts(g, a, n / 16);
    SlotOffset(n, b);
    if a.Dynamic? {
      SectorOnDrive(g, a.ch, n / 16);
      ByteOnDrive(d, g.dataBase, g.csize, a.ch, 32 * n + b, FileSector(g, a.ch, n / 16));
    }
  }

  lemma SlotCount(g: Geometry, a: Area)
    ensures Reach(g, a) == if 16 * AreaSectors(g, a) < 0x1_0000 then 16 * AreaSectors(g, a) else 0x1_0000
    ensures a.Static? ==> AreaSectors(g, a) * 16 == g.nRootDir
    ensures a.Dynamic? ==> AreaSectors(g, a) == |a.ch| * g.csize
  {
    if a.Dynamic? {
      hide WellFormed, Times;
      TimesCommutes(g.csize, |a.ch|);
    }
  }

  /** A sector of the table. */
  ghost predicate InTable(g: Geometry, a: Area, s: nat)
    requires AreaOk(g, a)
  {
    exists n: nat :: n < AreaSectors(g, a) && AreaSector(g, a, n) == s
  }

  /** Outside the FATs and the table the volume is as before. */
  ghost predicate TableOnly(g: Geometry, a: Area, d: Disk, d': Disk)
    requires AreaOk(g, a)
  {
    |d'| == |d| && forall s: nat {:trigger d'[s]} {:trigger InTable(g, a, s)} ::
      s < |d| && !InFatArea(g, s) && !InTable(g, a, s) ==> d'[s] == d[s]
  }

  lemma SlotIs(g: Geometry, d: Disk, a: Area, k: nat)
    requires |d| == g.total && AreaOk(g, a) && k < Reach(g, a)
    ensures k / 16 < AreaSectors(g, a) && AreaSector(g, a, k / 16) < g.total
    ensures SlotAt(g, d, a, k) == d[AreaSector(g, a, k / 16)][k % 16 * 32..k % 16 * 32 + 32]
  {
    AreaSectorFacts(g, a, k / 16);
  }

  /** The `j`-th slot of sector `t` after a store into the `i`-th slot of sector `s`. */
  lemma StoreSlotAt(g: Geometry, d: Disk, s: nat, t: nat, i: nat, j: nat, o: nat, data: seq<byte>)
    requires |d| == g.total && s < g.total && t < g.total && i < 16 && j < 16 && o + |data| <= 32
    requires !InFatArea(g, s) && !InFatArea(g, t)
    ensures Put(g, d, s, i * 32 + o, data)[t][j * 32..j * 32 + 32]
         == if s == t && i == j then Splice(d[s][i * 32..i * 32 + 32], o, data) else d[t][j * 32..j * 32 + 32]
  {
    hide WellFormed;
  }

  lemma SlotOfPut(g: Geometry, d: Disk, a: Area, n: nat, o: nat, data: seq<byte>, k: nat)
    requires |d| == g.total && AreaOk(g, a) && n < Reach(g, a) && k < Reach(g, a) && o + |data| <= 32
    requires AreaSector(g, a, n / 16) < g.total
    ensures var d' := Put(g, d, AreaSector(g, a, n / 16), n % 16 * 32 + o, data);
            SlotAt(g, d', a, k) == if k == n then Splice(SlotAt(g, d, a, n), o, data) else SlotAt(g, d, a, k)
  {
    hide *;
    SlotIs(g, d, a, k);
    SlotIs(g, d, a, n);
    var s, t := AreaSector(g, a, n / 16), AreaSector(g, a, k / 16);
    AreaSectorFacts(g, a, n / 16);
    AreaSectorFacts(g, a, k / 16);
    if s == t {
      AreaInjective(g, a, n / 16, k / 16);
    }
    StoreSlotAt(g, d, s, t, n % 16, k % 16, o, data);
    SlotIs(g, Put(g, d, s, n % 16 * 32 + o, data), a, k);
  }

  /** Bytes stored into a slot through the window. */
  lemma PutInSlot(g: Geometry, d: Disk, a: Area, n: nat, o: nat, data: seq<byte>)
    requires |d| == g.total && AreaOk(g, a) && n < Reach(g, a) && o + |data| <= 32
    requires AreaSector(g, a, n / 16) < g.total
    ensures var d' := Put(g, d, AreaSector(g, a, n / 16), n % 16 * 32 + o, data);
            && Slots(g, d', a) == Slots(g, d, a)[n := Splice(SlotAt(g, d, a, n), o, data)]
            && TableOnly(g, a, d, d') && Fat(g, d') == Fat(g, d)
  {
    var s := AreaSector(g, a, n / 16);
    AreaSectorFacts(g, a, n / 16);
    assert InTable(g, a, s);
    var d' := Put(g, d, s, n % 16 * 32 + o, data);
    hide WellFormed, AreaSector, AreaSectors, Fat;
    TableFrame(g, d, d');
    forall k: nat | k < Reach(g, a)
      ensures SlotAt(g, d', a, k) == Slots(g, d, a)[n := Splice(SlotAt(g, d, a, n), o, data)][k]
    {
      SlotOfPut(g, d, a, n, o, data, k);
    }
  }

  /** Cluster `c` was filled with zeros; outside it and the FATs the volume is as before. */
  ghost predicate Cleared(g: Geometry, c: nat, d: Disk, d': Disk) {
    && |d| == |d'| == g.total
    && (forall s: nat {:trigger d'[s]} {:trigger InCluster(g, c, s)} ::
          s < |d| && !InFatArea(g, s) && !InCluster(g, c, s) ==> d'[s] == d[s])
    && (forall s: nat {:trigger d'[s]} {:trigger InCluster(g, c, s)} ::
          s < |d| && InCluster(g, c, s) ==> d'[s] == seq(512, i => 0))
  }

  /** Old slots stay where they are. */
  lemma OldSlotStays(g: Geometry, d: Disk, d': Disk, ch: seq<nat>, c: nat, n: nat)
    requires Clusters(g, ch + [c]) && ch != [] && Clusters(g, ch) && Cleared(g, c, d, d') && n < Reach(g, Dynamic(ch))
    ensures n < Reach(g, Dynamic(ch + [c]))
    ensures SlotAt(g, d', Dynamic(ch + [c]), n) == SlotAt(g, d, Dynamic(ch), n)
  {
    PrefixCapacity(g, ch, ch + [c]);
    PrefixSectors(g, ch, ch + [c], n / 16);
    FileSectorInData(g, ch, n / 16);
    assert (ch + [c])[|ch|] == c && forall i :: 0 <= i < |ch| ==> (ch + [c])[i] == ch[i];
    NotInOtherFile(g, [c], ch, n / 16);
    hide WellFormed, FileSector, Sectors;
    assert c in [c];
    assert !InCluster(g, c, FileSector(g, ch, n / 16));
  }

  /** The slots of the new cluster are blank. */
  lemma NewSlotBlank(g: Geometry, d: Disk, d': Disk, ch: seq<nat>, c: nat, n: nat)
    requires Clusters(g, ch + [c]) && Cleared(g, c, d, d')
    requires 16 * Sectors(g, ch) <= n < Reach(g, Dynamic(ch + [c]))
    ensures SlotAt(g, d', Dynamic(ch + [c]), n)[0] == 0
  {
    Regions(g);
    var ch' := ch + [c];
    FileSectorInData(g, ch', n / 16);
    QuotBound(n / 16, g.csize, |ch|);
    QuotBound(n / 16, g.csize, |ch'|);
    hide WellFormed, Quot, Times;
    assert ClusterAt(g, ch', n / 16) == c;
    assert InCluster(g, c, FileSector(g, ch', n / 16));
  }

  lemma StretchOf(g: Geometry, d: Disk, d': Disk, a: Area, b: Area)
    requires |d| == |d'| == g.total && AreaOk(g, a) && AreaOk(g, b) && Reach(g, a) < Reach(g, b)
    requires forall n: nat :: n < Reach(g, a) ==> SlotAt(g, d', b, n) == SlotAt(g, d, a, n)
    requires forall n: nat :: Reach(g, a) <= n < Reach(g, b) ==> SlotAt(g, d', b, n)[0] == 0
    ensures var before, after := Slots(g, d, a), Slots(g, d', b);
            |before| < |after| && after == before + after[|before|..] && Blank(after[|before|..])
  {
    hide SlotAt, Reach, AreaOk, WellFormed;
  }

  /** A table stretched by a cleared cluster. */
  lemma StretchedSlots(g: Geometry, d: Disk, d': Disk, ch: seq<nat>, c: nat)
    requires Clusters(g, ch + [c]) && Clusters(g, ch) && ch != [] && Cleared(g, c, d, d')
    requires Reach(g, Dynamic(ch)) == 16 * Sectors(g, ch) < Reach(g, Dynamic(ch + [c]))
    ensures var before, after := Slots(g, d, Dynamic(ch)), Slots(g, d', Dynamic(ch + [c]));
            && |before| < |after| && after == before + after[|before|..] && Blank(after[|before|..])
  {
    assert AreaOk(g, Dynamic(ch)) && AreaOk(g, Dynamic(ch + [c])) && |d| == |d'| == g.total;
    hide *;
    forall n: nat | n < Reach(g, Dynamic(ch))
      ensures SlotAt(g, d', Dynamic(ch + [c]), n) == SlotAt(g, d, Dynamic(ch), n)
    {
      OldSlotStays(g, d, d', ch, c, n);
    }
    forall n: nat | Reach(g, Dynamic(ch)) <= n < Reach(g, Dynamic(ch + [c]))
      ensures SlotAt(g, d', Dynamic(ch + [c]), n)[0] == 0
    {
      NewSlotBlank(g, d, d', ch, c, n);
    }
    StretchOf(g, d, d', Dynamic(ch), Dynamic(ch + [c]));
  }

  lemma ClearedTableOnly(g: Geometry, d: Disk, d': Disk, ch: seq<nat>, c: nat)
    requires Clusters(g, ch + [c]) && Cleared(g, c, d, d')
    ensures TableOnly(g, Dynamic(ch + [c]), d, d')
  {
    Regions(g);
    var a := Dynamic(ch + [c]);
    forall s: nat | s < |d| && InCluster(g, c, s)
      ensures InTable(g, a, s)
    {
      SectorOfCluster(g, ch + [c], |ch|, s - ClusterToSector(g, c));
      assert AreaSector(g, a, Times(g.csize, |ch|) + (s - ClusterToSector(g, c))) == s;
    }
  }

  lemma ClearedAfter(g: Geometry, c: nat, d0: Disk, d1: Disk, d2: Disk)
    requires |d0| == g.total && SameOutsideFat(g, d0, d1) && Cleared(g, c, d1, d2)
    ensures Cleared(g, c, d0, d2)
  {
    hide WellFormed, InCluster, InFatArea;
  }

  /** A run of sectors filled with zeros. */
  ghost predicate Zeroed(d: Disk, d': Disk, sect: nat, n: nat) {
    && |d'| == |d|
    && (forall s: nat {:trigger d'[s]} :: s < |d| && !(sect <= s < sect + n) ==> d'[s] == d[s])
    && (forall s: nat {:trigger d'[s]} :: s < |d| && sect <= s < sect + n ==> d'[s] == seq(512, i => 0))
  }

  lemma ZeroedNext(d: Disk, d': Disk, sect: nat, n: nat, w: Sector)
    requires Zeroed(d, d', sect, n) && sect + n < |d| && w == seq(512, i => 0)
    ensures Zeroed(d, d'[sect + n := w], sect, n + 1)
  {
  }

  lemma ZeroedCluster(g: Geometry, d: Disk, d': Disk, c: nat)
    requires |d| == g.total && 2 <= c < g.nFatEnt && Zeroed(d, d', ClusterToSector(g, c), g.csize)
    requires Mirrored(g, d)
    ensures Cleared(g, c, d, d') && Fat(g, d') == Fat(g, d) && Mirrored(g, d')
  {
    Regions(g);
    ClusterSectors(g, c, 0);
    hide WellFormed, Fat;
    TableFrame(g, d, d');
    if g.nFats == 2 {
      forall s: nat {:trigger InFirstFat(g, s)} | InFirstFat(g, s)
        ensures d'[s + g.fsize] == d'[s]
      {
        assert d[s + g.fsize] == d[s];
      }
    }
  }

  lemma NothingZeroed(d: Disk, sect: nat)
    ensures Zeroed(d, d, sect, 0)
  {
  }

  lemma ZeroedFirst(d: Disk, d': Disk, sect: nat, n: nat)
    requires Zeroed(d, d', sect, n) && 0 < n && sect < |d|
    ensures d'[sect] == seq(512, i => 0)
  {
  }

  /** `mem_set` of the window. */
  method ZeroBytes(fs: FatFs)
    requires fs.win.Length == 512
    modifies fs.win
    ensures fs.win[..] == seq(512, i => 0)
  {
    forall i | 0 <= i < 512 {
      fs.win[i] := 0;
    }
  }

  /** dir_clear: fills a cluster with zeros, leaving the window on its first sector. */
  method DirClear(fs: FatFs, clst: nat) returns (res: FResult)
    requires fs.Valid() && 2 <= clst < fs.geo.nFatEnt
    modifies fs`disk, fs`wflag, fs`winsect, fs.win
    ensures res == OK && fs.Valid() && Cleared(fs.geo, clst, old(fs.Logical()), fs.Logical())
    ensures Fat(fs.geo, fs.Logical()) == Fat(fs.geo, old(fs.Logical()))
  {
    Regions(fs.geo);
    ClusterSectors(fs.geo, clst, 0);
    ClusterSectors(fs.geo, clst, fs.geo.csize - 1);
    hide WellFormed, Fat, Cleared, Mirrored, Zeroed, ClusterToSector;
    fs.SyncWindow();
    var sect := ClusterToSector(fs.geo, clst);
    fs.winsect := sect;
    ZeroBytes(fs);
    label synced:
    var n := 0;
    NothingZeroed(fs.disk, sect);
    while n < fs.geo.csize
      invariant n <= fs.geo.csize && !fs.wflag && fs.winsect == sect
      invariant Zeroed(old@synced(fs.disk), fs.disk, sect, n) && |fs.disk| == fs.geo.total
      invariant fs.win[..] == seq(512, i => 0)
    {
      ZeroedNext(old@synced(fs.disk), fs.disk, sect, n, fs.win[..]);
      fs.DiskWrite(fs.win[..], sect + n);
      n := n + 1;
    }
    ZeroedFirst(old@synced(fs.disk), fs.disk, sect, n);
    ZeroedCluster(fs.geo, old@synced(fs.disk), fs.disk, clst);
    res := OK;
  }
}
