/** A directory under any sequence of look-ups, creations and deletions is a map from names to
    entries, and directories and files do not disturb each other. */
module FatNames {
  import opened Arith
  import opened FatTypes
  import opened FatWindow
  import opened FatTable
  import opened ChainSpec
  import opened FatVolume
  import opened FileSpec
  import opened DirSpec
  import opened DirTable
  import opened FatDir

  /** The clusters of a table. */
  function TableClusters(a: Area): seq<nat> {
    if a.Dynamic? then a.ch else []
  }

  lemma StaticBelow(g: Geometry, m: nat)
    requires AreaOk(g, Static) && m < AreaSectors(g, Static)
    ensures AreaSector(g, Static, m) < g.dataBase
  {
  }

  /** Tables and files that share a sector share a cluster. */
  lemma SharedSector(g: Geometry, a: seq<nat>, m: nat, b: seq<nat>, n: nat)
    requires Clusters(g, a) && Clusters(g, b) && m < Sectors(g, a) && n < Sectors(g, b)
    requires FileSector(g, a, m) == FileSector(g, b, n)
    ensures ClusterAt(g, a, m) in a && ClusterAt(g, a, m) in b
  {
    ClustersDisjoint(g, ClusterAt(g, a, m), Rem(m, g.csize), ClusterAt(g, b, n), Rem(n, g.csize));
  }

  lemma TableSectorNotInFile(g: Geometry, a: Area, ch: seq<nat>, n: nat)
    requires AreaOk(g, a) && Clusters(g, ch) && n < Sectors(g, ch)
    requires forall c :: c in ch ==> c !in TableClusters(a)
    ensures !InTable(g, a, FileSector(g, ch, n))
  {
    Regions(g);
    FileSectorInData(g, ch, n);
    var s := FileSector(g, ch, n);
    hide WellFormed, FileSector, ClusterAt, Sectors;
    forall m: nat | m < AreaSectors(g, a)
      ensures AreaSector(g, a, m) != s
    {
      match a {
        case Static => StaticBelow(g, m);
        case Dynamic(t) =>
          if FileSector(g, t, m) == FileSector(g, ch, n) {
            SharedSector(g, t, m, ch, n);
          }
      }
    }
  }

  /** An operation on a directory leaves the bytes of every file on other clusters. */
  lemma DirectoryKeepsFile(g: Geometry, a: Area, d: Disk, d': Disk, ch: seq<nat>, size: nat)
    requires |d| == g.total && AreaOk(g, a) && TableOnly(g, a, d, d')
    requires Clusters(g, ch) && size <= 512 * Sectors(g, ch)
    requires forall c :: c in ch ==> c !in TableClusters(a)
    ensures Content(g, d', ch, size) == Content(g, d, ch, size)
  {
    forall o | 0 <= o < size
      ensures FileByte(g, d', ch, o) == FileByte(g, d, ch, o)
    {
      FileSectorInData(g, ch, o / 512);
      TableSectorNotInFile(g, a, ch, o / 512);
    }
  }

  lemma FileSectorNotInTable(g: Geometry, ch: seq<nat>, a: Area, n: nat)
    requires AreaOk(g, a) && Clusters(g, ch) && n < AreaSectors(g, a)
    requires forall c :: c in ch ==> c !in TableClusters(a)
    ensures !InFile(g, ch, AreaSector(g, a, n))
  {
    Regions(g);
    match a {
      case Static =>
        StaticBelow(g, n);
        forall c | c in ch
          ensures !InCluster(g, c, AreaSector(g, a, n))
        {
          ClusterSectors(g, c, 0);
        }
      case Dynamic(t) => NotInOtherFile(g, ch, t, n);
    }
  }

  /** Writing a file leaves every directory on other clusters. */
  lemma FileKeepsDirectory(g: Geometry, ch: seq<nat>, a: Area, d: Disk, d': Disk)
    requires |d| == g.total && AreaOk(g, a) && TouchesOnly(g, ch, d, d') && Clusters(g, ch)
    requires forall c :: c in ch ==> c !in TableClusters(a)
    ensures Slots(g, d', a) == Slots(g, d, a)
  {
    forall n: nat | n < Reach(g, a)
      ensures SlotAt(g, d', a, n) == SlotAt(g, d, a, n)
    {
      AreaSectorFacts(g, a, n / 16);
      FileSectorNotInTable(g, ch, a, n / 16);
    }
  }

  type Proper11 = name: Name | Proper(name) witness seq(11, i => 1)

  /** What callers do with a directory: look a name up, create it as new, delete it. */
  datatype NameOp = Lookup(name: Proper11) | Create(name: Proper11) | Delete(name: Proper11)

  /** The same on a map. A creation fails for a bound name, and may find no room. */
  ghost predicate MapStep(op: NameOp, m: map<Name, Slot>, m': map<Name, Slot>, res: FResult) {
    match op
    case Lookup(name) => m' == m && res == if name in m then OK else NoFile
    case Create(name) =>
      if name in m then res == Exist && m' == m
      else (res == OK && m' == m[name := NewEntry(name)]) || (res == Denied && m' == m)
    case Delete(name) => m' == m - {name} && res == if name in m then OK else NoFile
  }

  lemma MapStepIs(op: NameOp, m: map<Name, Slot>, m': map<Name, Slot>, res: FResult)
    ensures MapStep(op, m, m', res) <==> match op
            case Lookup(name) => m' == m && res == if name in m then OK else NoFile
            case Create(name) =>
              if name in m then res == Exist && m' == m
              else (res == OK && m' == m[name := NewEntry(name)]) || (res == Denied && m' == m)
            case Delete(name) => m' == m - {name} && res == if name in m then OK else NoFile
  {
  }

  /** As f_open does for FA_CREATE_NEW: `dir_find`, then `dir_register` for a new name. */
  method CreateNew(dp: DirObj) returns (res: FResult)
    requires dp.Held() && Proper(dp.fn)
    modifies dp`dptr, dp`clust, dp`sect, dp.fs`disk, dp.fs`wflag, dp.fs`winsect, dp.fs.win
    modifies dp.fs`freeClst, dp.fs`lastClst, dp.fs`fsiFlag, dp.fs`chains
    ensures dp.Held() && DirStays(dp)
    ensures dp.fn in old(Entries(dp.Table())) ==> res == Exist && Entries(dp.Table()) == old(Entries(dp.Table()))
    ensures dp.fn !in old(Entries(dp.Table())) ==>
      || (res == OK && Entries(dp.Table()) == old(Entries(dp.Table()))[dp.fn := NewEntry(dp.fn)])
      || (res == Denied && Entries(dp.Table()) == old(Entries(dp.Table()))
          && Exhausted(dp) && NoRun(dp.Table(), |dp.Table()|, 1))
  {
    hide *;
    res := Find(dp);
    DirSameIs(dp);
    SameStays(dp);
    if res == OK {
      res := Exist;
    } else {
      label found:
      DirStaysIs(dp);
      res := Register(dp);
      DirStaysIs@found(dp);
      DirFacts(dp);
      StaysTrans(dp.fs.geo, dp.Start(), old(dp.fs.chains), old(dp.fs.Logical()), old(dp.Place()),
                 old@found(dp.fs.chains), old@found(dp.fs.Logical()), old@found(dp.Place()),
                 dp.fs.chains, dp.fs.Logical(), dp.Place());
      DirStaysIs(dp);
    }
  }

  /** As f_unlink does: `dir_find`, then `dir_remove`. */
  method DeleteFound(dp: DirObj) returns (res: FResult)
    requires dp.Held() && Proper(dp.fn)
    modifies dp`dptr, dp`clust, dp`sect, dp.fs`disk, dp.fs`wflag, dp.fs`winsect, dp.fs.win
    modifies dp.fs`freeClst, dp.fs`lastClst, dp.fs`fsiFlag, dp.fs`chains
    ensures dp.Held() && DirStays(dp)
    ensures res == if dp.fn in old(Entries(dp.Table())) then OK else NoFile
    ensures Entries(dp.Table()) == old(Entries(dp.Table())) - {dp.fn}
  {
    hide *;
    res := Find(dp);
    DirSameIs(dp);
    SameStays(dp);
    if res == OK {
      label found:
      DirStaysIs(dp);
      res := Remove(dp);
      DirStaysIs@found(dp);
      DirFacts(dp);
      StaysTrans(dp.fs.geo, dp.Start(), old(dp.fs.chains), old(dp.fs.Logical()), old(dp.Place()),
                 old@found(dp.fs.chains), old@found(dp.fs.Logical()), old@found(dp.Place()),
                 dp.fs.chains, dp.fs.Logical(), dp.Place());
      DirStaysIs(dp);
    }
  }

  /** One operation on a directory. */
  method Operate(dp: DirObj, op: NameOp) returns (res: FResult)
    requires dp.Held()
    modifies dp, dp.fs`disk, dp.fs`wflag, dp.fs`winsect, dp.fs.win
    modifies dp.fs`freeClst, dp.fs`lastClst, dp.fs`fsiFlag, dp.fs`chains
    ensures dp.Held() && DirStays(dp)
    ensures MapStep(op, old(Entries(dp.Table())), Entries(dp.Table()), res)
    ensures res == Denied ==> Exhausted(dp) && NoRun(dp.Table(), |dp.Table()|, 1)
  {
    hide *;
    dp.fn := op.name;
    label start:
    match op {
      case Lookup(name) =>
        res := Find(dp);
        DirSameIs@start(dp);
        SameStays@start(dp);
      case Create(name) => res := CreateNew(dp);
      case Delete(name) => res := DeleteFound(dp);
    }
    DirStaysIs@start(dp);
    DirStaysIs(dp);
    MapStepIs(op, old(Entries(dp.Table())), Entries(dp.Table()), res);
  }

  /** Any sequence of operations on a directory acts on its map; the other chains of the volume
      and all sectors outside the table stay. */
  method Operations(dp: DirObj, ops: seq<NameOp>) returns (results: seq<FResult>, ghost trace: seq<map<Name, Slot>>)
    requires dp.Held()
    modifies dp, dp.fs`disk, dp.fs`wflag, dp.fs`winsect, dp.fs.win
    modifies dp.fs`freeClst, dp.fs`lastClst, dp.fs`fsiFlag, dp.fs`chains
    ensures dp.Held() && DirStays(dp)
    ensures |results| == |ops| == |trace| - 1
    ensures trace[0] == old(Entries(dp.Table())) && trace[|ops|] == Entries(dp.Table())
    ensures forall k :: 0 <= k < |ops| ==> MapStep(ops[k], trace[k], trace[k + 1], results[k])
  {
    hide *;
    results, trace := [], [Entries(dp.Table())];
    var k: nat := 0;
    DirSameIs(dp);
    SameStays(dp);
    while k < |ops|
      invariant k <= |ops| && |results| == k == |trace| - 1
      invariant dp.Held() && DirStays(dp)
      invariant trace[0] == old(Entries(dp.Table())) && trace[k] == Entries(dp.Table())
      invariant forall i :: 0 <= i < k ==> MapStep(ops[i], trace[i], trace[i + 1], results[i])
    {
      DirStaysIs(dp);
      label next:
      var res := Operate(dp, ops[k]);
      DirStaysIs@next(dp);
      DirFacts(dp);
      StaysTrans(dp.fs.geo, dp.Start(), old(dp.fs.chains), old(dp.fs.Logical()), old(dp.Place()),
                 old@next(dp.fs.chains), old@next(dp.fs.Logical()), old@next(dp.Place()),
                 dp.fs.chains, dp.fs.Logical(), dp.Place());
      DirStaysIs(dp);
      results, trace := results + [res], trace + [Entries(dp.Table())];
      k := k + 1;
    }
  }
}
