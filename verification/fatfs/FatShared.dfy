/** Open files and directories of one volume at work together: calls on files and operations on
    directories in any order. */
module FatShared {
  import opened Arith
  import opened FatTypes
  import opened FatWindow
  import opened FatTable
  import opened ChainSpec
  import opened FatAlloc
  import opened FatVolume
  import opened FileSpec
  import opened FatFile
  import opened FatSession
  import opened DirSpec
  import opened DirTable
  import opened FatDir
  import opened FatNames

  /** Where the directory that starts at `h` lies. */
  function PlaceOf(chains: map<nat, seq<nat>>, h: nat): Area {
    if h == 0 then Static else Dynamic(ChainOf(chains, h))
  }

  /** Chains that start at different clusters have no cluster in common. */
  lemma ChainsApart(fat: seq<nat>, chains: map<nat, seq<nat>>, s: nat, o: nat)
    requires Partition(fat, chains) && s != o
    ensures forall c :: c in ChainOf(chains, s) ==> c !in ChainOf(chains, o)
  {
    hide AllChains, Covers;
  }

  /** A directory under a call on a file that starts elsewhere. */
  lemma FileSparesTable(g: Geometry, fat': seq<nat>, chains: map<nat, seq<nat>>, s: nat, d: Disk,
                        chains': map<nat, seq<nat>>, s': nat, d': Disk, h: nat)
    requires |d| == g.total && Partition(fat', chains') && OthersStay(g, chains, s, d, chains', s', d')
    requires (h == 0 || h in chains) && Apart(s, h)
    requires Clusters(g, ChainOf(chains', s')) && AreaOk(g, PlaceOf(chains, h))
    ensures PlaceOf(chains', h) == PlaceOf(chains, h) && (h == 0 || h in chains') && Apart(s', h)
    ensures |d'| == g.total && Slots(g, d', PlaceOf(chains, h)) == Slots(g, d, PlaceOf(chains, h))
  {
    if h != 0 && s' != 0 {
      ChainsApart(fat', chains', s', h);
    }
    hide TouchesOnly, Clusters, Partition, Slots;
    FileKeepsDirectory(g, ChainOf(chains', s'), PlaceOf(chains, h), d, d');
  }

  /** A file under an operation on a directory that starts elsewhere. */
  lemma TableSparesFile(g: Geometry, fat': seq<nat>, h: nat, chains: map<nat, seq<nat>>, d: Disk,
                        chains': map<nat, seq<nat>>, d': Disk, s: nat, size: nat)
    requires |d| == g.total && Partition(fat', chains') && AreaOk(g, PlaceOf(chains', h))
    requires TableStays(g, h, chains, d, PlaceOf(chains, h), chains', d', PlaceOf(chains', h))
    requires (s == 0 || s in chains) && Apart(s, h)
    requires Clusters(g, ChainOf(chains, s)) && size <= 512 * Sectors(g, ChainOf(chains, s))
    ensures ChainOf(chains', s) == ChainOf(chains, s) && (s == 0 || s in chains')
    ensures Content(g, d', ChainOf(chains, s), size) == Content(g, d, ChainOf(chains, s), size)
  {
    if s != 0 {
      ChainsApart(fat', chains', s, h);
    }
    hide TableOnly, Clusters, Partition, Content, Sectors;
    DirectoryKeepsFile(g, PlaceOf(chains', h), d, d', ChainOf(chains, s), size);
  }

  lemma TableSectorNotInTable(g: Geometry, a: Area, b: Area, n: nat)
    requires AreaOk(g, a) && AreaOk(g, b) && n < AreaSectors(g, b)
    requires a.Dynamic? || b.Dynamic?
    requires forall c :: c in TableClusters(a) ==> c !in TableClusters(b)
    ensures !InTable(g, a, AreaSector(g, b, n))
  {
    match b {
      case Dynamic(t) => TableSectorNotInFile(g, a, t, n);
      case Static =>
        StaticBelow(g, n);
        forall m: nat | m < AreaSectors(g, a)
          ensures AreaSector(g, a, m) != AreaSector(g, b, n)
        {
          FileSectorInData(g, a.ch, m);
        }
    }
  }

  /** Operations on a directory leave every directory on other clusters. */
  lemma DirectoryKeepsDirectory(g: Geometry, a: Area, d: Disk, d': Disk, b: Area)
    requires |d| == g.total && AreaOk(g, a) && AreaOk(g, b) && TableOnly(g, a, d, d')
    requires a.Dynamic? || b.Dynamic?
    requires forall c :: c in TableClusters(a) ==> c !in TableClusters(b)
    ensures Slots(g, d', b) == Slots(g, d, b)
  {
    forall n: nat | n < Reach(g, b)
      ensures SlotAt(g, d', b, n) == SlotAt(g, d, b, n)
    {
      AreaSectorFacts(g, b, n / 16);
      TableSectorNotInTable(g, a, b, n / 16);
    }
  }

  /** A directory under an operation on one that starts elsewhere. */
  lemma TableSparesTable(g: Geometry, fat': seq<nat>, h: nat, chains: map<nat, seq<nat>>, d: Disk,
                         chains': map<nat, seq<nat>>, d': Disk, o: nat)
    requires |d| == g.total && Partition(fat', chains') && AreaOk(g, PlaceOf(chains', h))
    requires TableStays(g, h, chains, d, PlaceOf(chains, h), chains', d', PlaceOf(chains', h))
    requires (o == 0 || o in chains) && o != h && AreaOk(g, PlaceOf(chains, o))
    ensures PlaceOf(chains', o) == PlaceOf(chains, o) && (o == 0 || o in chains')
    ensures |d'| == g.total && Slots(g, d', PlaceOf(chains, o)) == Slots(g, d, PlaceOf(chains, o))
  {
    ChainsApart(fat', chains', h, o);
    hide TableOnly, Clusters, Partition, Slots;
    DirectoryKeepsDirectory(g, PlaceOf(chains', h), d, d', PlaceOf(chains, o));
  }

  /** A file and a directory. */
  datatype Mixed = Mixed(f: Fil, d: DirObj)

  /** Two directories. */
  datatype Twin = Twin(a: DirObj, b: DirObj)

  lemma PlaceIs(dp: DirObj)
    ensures dp.Place() == PlaceOf(dp.fs.chains, dp.Start())
  {
  }

  lemma HeldDir(dp: DirObj)
    requires dp.Held()
    ensures VolumeOk(dp.fs) && Partition(FatTable.Table(dp.fs), dp.fs.chains) && |dp.fs.Logical()| == dp.fs.geo.total
    ensures dp.Start() == 0 || dp.Start() in dp.fs.chains
    ensures AreaOk(dp.fs.geo, dp.Place()) && DirOk(Slots(dp.fs.geo, dp.fs.Logical(), dp.Place()))
    ensures dp.Table() == Slots(dp.fs.geo, dp.fs.Logical(), dp.Place())
  {
    hide Partition, Fat, FreeCountOk, Slots, DirOk, AreaOk, FatFs.Logical, DirObj.Place;
  }

  twostate lemma HeldBefore(dp: DirObj)
    requires old(dp.Held())
    ensures |old(dp.fs.Logical())| == dp.fs.geo.total && old(dp.fs.Shaped())
    ensures dp.Start() == 0 || dp.Start() in old(dp.fs.chains)
    ensures old(dp.Place()) == PlaceOf(old(dp.fs.chains), dp.Start())
    ensures AreaOk(dp.fs.geo, old(dp.Place())) && DirOk(Slots(dp.fs.geo, old(dp.fs.Logical()), old(dp.Place())))
    ensures old(dp.Table()) == Slots(dp.fs.geo, old(dp.fs.Logical()), old(dp.Place()))
  {
    hide Partition, Fat, FreeCountOk, Slots, DirOk, AreaOk, FatFs.Logical;
  }

  lemma HeldIs(dp: DirObj)
    requires VolumeOk(dp.fs) && (dp.Start() == 0 || dp.Start() in dp.fs.chains)
    requires AreaOk(dp.fs.geo, dp.Place()) && DirOk(Slots(dp.fs.geo, dp.fs.Logical(), dp.Place()))
    ensures dp.Held()
  {
    hide Partition, Fat, FreeCountOk, Slots, DirOk, AreaOk, FatFs.Logical, DirObj.Place;
  }

  twostate lemma StaysIs(fp: Fil)
    requires old(fp.fs.Shaped()) && fp.fs.Shaped()
    ensures Stays(fp) <==>
      OthersStay(fp.fs.geo, old(fp.fs.chains), old(fp.sclust), old(fp.fs.Logical()), fp.fs.chains, fp.sclust, fp.fs.Logical())
  {
  }

  /** A call on a file spares a directory. */
  twostate lemma DirSpared(p: Mixed)
    requires p.f.fs == p.d.fs && old(p.d.Held()) && p.f.Valid() && old(p.f.fs.Shaped()) && p.f.fs.Shaped() && Stays(p.f)
    requires old(Apart(p.f.sclust, p.d.Start()))
    ensures p.d.Held() && p.d.Table() == old(p.d.Table()) && Apart(p.f.sclust, p.d.Start())
  {
    hide *;
    var fs := p.d.fs;
    HeldChain(p.f);
    HeldBefore(p.d);
    StaysIs(p.f);
    ChainIs(p.f);
    FileSparesTable(fs.geo, FatTable.Table(fs), old(fs.chains), old(p.f.sclust), old(fs.Logical()),
                    fs.chains, p.f.sclust, fs.Logical(), p.d.Start());
    PlaceIs(p.d);
    HeldIs(p.d);
    HeldDir(p.d);
  }

  twostate lemma UntouchedIs(fp: Fil)
    ensures Untouched(fp) ==>
      && fp.sclust == old(fp.sclust) && fp.objsize == old(fp.objsize) && fp.err == old(fp.err)
      && fp.fptr == old(fp.fptr) && fp.clust == old(fp.clust) && fp.sect == old(fp.sect)
      && fp.canRead == old(fp.canRead) && fp.canWrite == old(fp.canWrite)
  {
  }

  /** An operation on a directory spares a file. */
  twostate lemma FileSpared(p: Mixed)
    requires p.f.fs == p.d.fs && old(p.f.Valid()) && old(p.d.Held()) && p.d.Held() && DirStays(p.d)
    requires old(Apart(p.f.sclust, p.d.Start())) && Untouched(p.f)
    ensures p.f.Valid() && ViewOf(p.f) == old(ViewOf(p.f))
  {
    hide *;
    var fs := p.d.fs;
    HeldDir(p.d);
    HeldBefore(p.d);
    BeforeFacts(p.f);
    DirStaysIs(p.d);
    PlaceIs(p.d);
    UntouchedIs(p.f);
    TableSparesFile(fs.geo, FatTable.Table(fs), p.d.Start(), old(fs.chains), old(fs.Logical()),
                    fs.chains, fs.Logical(), p.f.sclust, p.f.objsize);
    ChainIs(p.f);
    RemainsValid(p.f);
    HeldChain(p.f);
    SameView(p.f);
  }

  /** An operation on a directory spares another. */
  twostate lemma TwinSpared(p: Twin)
    requires p.a.fs == p.b.fs && old(p.a.Held()) && old(p.b.Held()) && p.a.Held() && DirStays(p.a)
    requires p.a.Start() != p.b.Start()
    ensures p.b.Held() && p.b.Table() == old(p.b.Table())
  {
    hide *;
    var fs := p.a.fs;
    HeldDir(p.a);
    HeldBefore(p.a);
    HeldBefore(p.b);
    DirStaysIs(p.a);
    PlaceIs(p.a);
    TableSparesTable(fs.geo, FatTable.Table(fs), p.a.Start(), old(fs.chains), old(fs.Logical()),
                     fs.chains, fs.Logical(), p.b.Start());
    PlaceIs(p.b);
    HeldIs(p.b);
    HeldDir(p.b);
  }

  /** What the users of a volume see: the open files and the maps of the directories. */
  datatype World = World(views: seq<View>, maps: seq<map<Name, Slot>>)

  /** The directories are held, at different places, and bind what `maps` says. */
  ghost predicate AllHeld(fs: FatFs, dirs: seq<DirObj>, maps: seq<map<Name, Slot>>)
    reads fs, fs.win
  {
    && |maps| == |dirs|
    && (forall i :: 0 <= i < |dirs| ==> dirs[i].fs == fs)
    && (forall i :: 0 <= i < |dirs| ==> dirs[i].Held() && Entries(dirs[i].Table()) == maps[i])
    && (forall i, j {:trigger dirs[i], dirs[j]} :: 0 <= i < |dirs| && 0 <= j < |dirs| && i != j ==>
        dirs[i] != dirs[j] && dirs[i].Start() != dirs[j].Start())
  }

  /** No file starts where a directory does. */
  ghost predicate Separate(files: seq<Fil>, dirs: seq<DirObj>)
    reads files
  {
    forall i, j {:trigger files[i], dirs[j]} :: 0 <= i < |files| && 0 <= j < |dirs| ==> Apart(files[i].sclust, dirs[j].Start())
  }

  ghost predicate Working(fs: FatFs, files: seq<Fil>, dirs: seq<DirObj>, w: World)
    reads fs, fs.win, files
  {
    AllOpen(fs, files, w.views) && AllHeld(fs, dirs, w.maps) && Separate(files, dirs)
  }

  /** A call on an open file, or an operation on a directory. */
  datatype Action = OnFile(call: Call) | OnDir(dir: nat, op: NameOp)

  datatype Answer = FromFile(reply: Reply) | FromDir(res: FResult)

  /** There is a file or a directory with this number. */
  predicate Aims(act: Action, files: nat, dirs: nat) {
    match act
    case OnFile(c) => c.file < files
    case OnDir(d, _) => d < dirs
  }

  /** One action: a call changes its file only, an operation its directory only. `full` says that the
      volume has no free cluster, or for an operation that the table has no unused slot and can get none. */
  ghost predicate WorldStep(act: Action, w: World, w': World, ans: Answer, full: bool) {
    match act
    case OnFile(c) => ans.FromFile? && SessionStep(c, w.views, w'.views, ans.reply, full) && w'.maps == w.maps
    case OnDir(d, op) =>
      && ans.FromDir? && d < |w.maps| == |w'.maps| && MapStep(op, w.maps[d], w'.maps[d], ans.res)
      && (ans.res == Denied ==> full)
      && w'.views == w.views && forall i :: 0 <= i < |w.maps| && i != d ==> w'.maps[i] == w.maps[i]
  }

  /** The table has no unused slot and can get none. */
  ghost predicate NoRoom(dp: DirObj)
    reads dp.fs`disk, dp.fs`wflag, dp.fs`winsect, dp.fs`freeClst, dp.fs`chains, dp.fs.win
    requires dp.Held()
  {
    Exhausted(dp) && NoRun(dp.Table(), |dp.Table()|, 1)
  }

  /** The objects of a session and the one worked on. */
  datatype Desk = Desk(fs: FatFs, files: seq<Fil>, dirs: seq<DirObj>, at: nat, w: World)

  twostate lemma DirsSpared(k: Desk)
    requires old(Working(k.fs, k.files, k.dirs, k.w)) && k.at < |k.files|
    requires k.files[k.at].Valid() && old(k.fs.Shaped()) && k.fs.Shaped() && Stays(k.files[k.at])
    requires forall j :: 0 <= j < |k.files| && j != k.at ==> Untouched(k.files[j])
    ensures AllHeld(k.fs, k.dirs, k.w.maps) && Separate(k.files, k.dirs)
  {
    hide Fil.Valid, ViewOf, Apart, Stays, FatFs.Shaped, Untouched, DirObj.Held, DirObj.Table, DirObj.Start, Entries;
    var fp := k.files[k.at];
    forall j | 0 <= j < |k.dirs|
      ensures k.dirs[j].Held() && k.dirs[j].Table() == old(k.dirs[j].Table()) && Apart(fp.sclust, k.dirs[j].Start())
    {
      assert old(Apart(fp.sclust, k.dirs[j].Start()));
      DirSpared(Mixed(fp, k.dirs[j]));
    }
    forall i, j | 0 <= i < |k.files| && 0 <= j < |k.dirs|
      ensures Apart(k.files[i].sclust, k.dirs[j].Start())
    {
      if i != k.at {
        UntouchedIs(k.files[i]);
      }
    }
  }

  twostate lemma RestSpared(k: Desk)
    requires old(Working(k.fs, k.files, k.dirs, k.w)) && k.at < |k.dirs|
    requires k.dirs[k.at].Held() && old(k.fs.Shaped()) && DirStays(k.dirs[k.at])
    requires forall j :: 0 <= j < |k.files| ==> Untouched(k.files[j])
    ensures AllOpen(k.fs, k.files, k.w.views) && Separate(k.files, k.dirs)
    ensures forall j :: 0 <= j < |k.dirs| && j != k.at ==> k.dirs[j].Held() && k.dirs[j].Table() == old(k.dirs[j].Table())
  {
    hide Fil.Valid, ViewOf, Apart, DirStays, FatFs.Shaped, Untouched, DirObj.Held, DirObj.Table, DirObj.Start, Entries;
    var dp := k.dirs[k.at];
    forall j | 0 <= j < |k.dirs| && j != k.at
      ensures k.dirs[j].Held() && k.dirs[j].Table() == old(k.dirs[j].Table())
    {
      TwinSpared(Twin(dp, k.dirs[j]));
    }
    forall i | 0 <= i < |k.files|
      ensures k.files[i].Valid() && ViewOf(k.files[i]) == k.w.views[i] && k.files[i].sclust == old(k.files[i].sclust)
    {
      UntouchedIs(k.files[i]);
      FileSpared(Mixed(k.files[i], dp));
    }
  }

  lemma WorkingOpen(fs: FatFs, files: seq<Fil>, dirs: seq<DirObj>, w: World)
    requires Working(fs, files, dirs, w)
    ensures AllOpen(fs, files, w.views) && |w.views| == |files|
  {
    hide Fil.Valid, ViewOf, Apart, AllHeld, Separate;
  }

  method FileAction(fs: FatFs, files: seq<Fil>, dirs: seq<DirObj>, c: Call, ghost w: World) returns (r: Reply, ghost w': World)
    requires Working(fs, files, dirs, w) && c.file < |files|
    modifies files, fs`disk, fs`wflag, fs`winsect, fs.win, fs`freeClst, fs`lastClst, fs`fsiFlag, fs`chains
    ensures Working(fs, files, dirs, w') && WorldStep(OnFile(c), w, w', FromFile(r), IsFull(fs, files, w'.views))
  {
    hide AllHeld, Separate, SessionStep, IsFull, Fil.Valid, Stays, FatFs.Shaped;
    ghost var views: seq<View>;
    r, views := SessionCall(fs, files, c, w.views);
    w' := World(views, w.maps);
    DirsSpared(Desk(fs, files, dirs, c.file, w));
  }

  method DirAction(fs: FatFs, files: seq<Fil>, dirs: seq<DirObj>, d: nat, op: NameOp, ghost w: World)
    returns (res: FResult, ghost w': World)
    requires Working(fs, files, dirs, w) && d < |dirs|
    modifies dirs, fs`disk, fs`wflag, fs`winsect, fs.win, fs`freeClst, fs`lastClst, fs`fsiFlag, fs`chains
    ensures Working(fs, files, dirs, w') && WorldStep(OnDir(d, op), w, w', FromDir(res), NoRoom(dirs[d]))
  {
    hide AllOpen, Separate, MapStep, DirObj.Held, DirObj.Table, DirStays, Exhausted, NoRun, Entries, FatFs.Shaped, DirObj.Start;
    var dp := dirs[d];
    res := Operate(dp, op);
    w' := World(w.views, w.maps[d := Entries(dp.Table())]);
    RestSpared(Desk(fs, files, dirs, d, w));
  }

  /** The volume, or the table of the directory worked on, is full. */
  ghost predicate NoneLeft(fs: FatFs, files: seq<Fil>, dirs: seq<DirObj>, w: World, act: Action)
    reads fs, fs.win, files
    requires Working(fs, files, dirs, w) && Aims(act, |files|, |dirs|)
  {
    match act
    case OnFile(_) => IsFull(fs, files, w.views)
    case OnDir(d, _) => NoRoom(dirs[d])
  }

  method Act(fs: FatFs, files: seq<Fil>, dirs: seq<DirObj>, act: Action, ghost w: World)
    returns (ans: Answer, ghost w': World)
    requires Working(fs, files, dirs, w) && Aims(act, |files|, |dirs|)
    modifies files, dirs, fs`disk, fs`wflag, fs`winsect, fs.win, fs`freeClst, fs`lastClst, fs`fsiFlag, fs`chains
    ensures Working(fs, files, dirs, w') && WorldStep(act, w, w', ans, NoneLeft(fs, files, dirs, w', act))
  {
    hide Working, WorldStep, IsFull, NoRoom;
    match act {
      case OnFile(c) =>
        var r;
        r, w' := FileAction(fs, files, dirs, c, w);
        ans := FromFile(r);
      case OnDir(d, op) =>
        var res;
        res, w' := DirAction(fs, files, dirs, d, op, w);
        ans := FromDir(res);
    }
  }

  /** Calls on files and operations on directories of one volume, in any order: each acts on its own file
      as on a byte array with a cursor, or on its own directory as on a map of names, and on nothing else. */
  method Work(fs: FatFs, files: seq<Fil>, dirs: seq<DirObj>, acts: seq<Action>, ghost w: World)
    returns (answers: seq<Answer>, ghost trace: seq<World>, ghost fulls: seq<bool>)
    requires Working(fs, files, dirs, w) && forall k :: 0 <= k < |acts| ==> Aims(acts[k], |files|, |dirs|)
    modifies files, dirs, fs`disk, fs`wflag, fs`winsect, fs.win, fs`freeClst, fs`lastClst, fs`fsiFlag, fs`chains
    ensures |answers| == |fulls| == |acts| == |trace| - 1 && trace[0] == w
    ensures forall k :: 0 <= k < |acts| ==> WorldStep(acts[k], trace[k], trace[k + 1], answers[k], fulls[k])
    ensures Working(fs, files, dirs, trace[|acts|])
    ensures |trace[|acts|].views| == |files| && forall i :: 0 <= i < |files| ==> Shown(files[i], trace[|acts|].views[i])
  {
    hide *;
    answers, trace, fulls := [], [w], [];
    var k: nat := 0;
    while k < |acts|
      invariant k <= |acts| && |answers| == |fulls| == k == |trace| - 1 && trace[0] == w
      invariant Working(fs, files, dirs, trace[k])
      invariant forall i :: 0 <= i < k ==> WorldStep(acts[i], trace[i], trace[i + 1], answers[i], fulls[i])
    {
      var ans: Answer;
      ghost var now: World;
      ans, now := Act(fs, files, dirs, acts[k], trace[k]);
      answers, trace, fulls := answers + [ans], trace + [now], fulls + [NoneLeft(fs, files, dirs, now, acts[k])];
      k := k + 1;
    }
    WorkingOpen(fs, files, dirs, trace[k]);
    AllShown(fs, files, trace[k].views);
  }
}
