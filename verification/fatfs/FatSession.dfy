/** Several open files of one volume under any sequence of calls: each behaves as a flat byte
    array with a cursor, and no call changes another file. */
module FatSession {
  import opened Arith
  import opened FatTypes
  import opened FatWindow
  import opened FatTable
  import opened ChainSpec
  import opened FatAlloc
  import opened FatVolume
  import opened FileSpec
  import opened FatFile
  import opened FatTruncate

  /** Only the file that starts at `s` may have changed: the other chains stay, and outside the
      tables and the file's clusters so does the volume. */
  ghost predicate OthersStay(g: Geometry, chains: map<nat, seq<nat>>, s: nat, d: Disk,
                             chains': map<nat, seq<nat>>, s': nat, d': Disk)
  {
    && (forall h :: h in chains && h != s ==> h in chains' && chains'[h] == chains[h])
    && (s' == s || s' == 0 || s' !in chains)
    && TouchesOnly(g, ChainOf(chains', s'), d, d')
  }

  lemma GrewOthers(g: Geometry, chains: map<nat, seq<nat>>, s: nat, d: Disk, chains': map<nat, seq<nat>>, s': nat, d': Disk)
    requires Grew(g, chains, s, d, chains', s', d')
    ensures OthersStay(g, chains, s, d, chains', s', d')
  {
    hide TouchesOnly;
  }

  lemma CutOthers(fs: FatFs, chains: map<nat, seq<nat>>, s: nat, d: Disk, fptr: nat, s': nat)
    requires fs.Shaped() && CutTo(fs, chains, s, fptr, s') && SameOutsideFat(fs.geo, d, fs.Logical())
    ensures OthersStay(fs.geo, chains, s, d, fs.chains, s', fs.Logical())
  {
    FatOnlyTouches(fs.geo, ChainOf(fs.chains, s'), d, fs.Logical());
    hide TouchesOnly, SameOutsideFat;
  }

  /** Another file under a call that lets the others stay. */
  lemma OtherFile(g: Geometry, fat': seq<nat>, chains: map<nat, seq<nat>>, s: nat, d: Disk,
                  chains': map<nat, seq<nat>>, s': nat, d': Disk, o: nat, size: nat)
    requires |d| == g.total && Partition(fat', chains') && OthersStay(g, chains, s, d, chains', s', d')
    requires (o == 0 || o in chains) && (s == 0 || s != o) && (s' == 0 || s' in chains')
    requires Clusters(g, ChainOf(chains, o)) && size <= 512 * Sectors(g, ChainOf(chains, o))
    requires Clusters(g, ChainOf(chains', s'))
    ensures ChainOf(chains', o) == ChainOf(chains, o) && (o == 0 || o in chains') && (s' == 0 || s' != o)
    ensures Content(g, d', ChainOf(chains, o), size) == Content(g, d, ChainOf(chains, o), size)
  {
    hide TouchesOnly, Clusters, Sectors, AllChains, Covers, Content;
    OtherFileKept(g, ChainOf(chains', s'), ChainOf(chains, o), size, d, d');
  }

  type word = x: int | 0 <= x < 0x1_0000_0000

  type Chunk = s: seq<byte> | |s| < 0x1_0000_0000

  /** The calls on an open file: f_read, f_write, f_lseek and f_truncate. */
  datatype Op = DoRead(n: word) | DoWrite(data: Chunk) | DoSeek(ofs: word) | DoTruncate

  /** What a call returns: its result, the bytes read, and the number of bytes transferred. */
  datatype Reply = Reply(res: FResult, data: seq<byte>, count: nat)

  /** A file as its users see it: bytes and a cursor, how it was opened, and the bytes that its clusters
      can hold, of which each has `unit`. */
  datatype View = View(bytes: seq<byte>, pos: nat, readable: bool, writable: bool, room: nat, unit: nat)

  /** The room only grows, and by no cluster that ends before the cursor. */
  predicate Grows(v: View, v': View) {
    v.room <= v'.room && (v'.room == v.room || v'.room < v'.pos + v.unit)
  }

  /** The behaviour of a flat byte array with a cursor. `full` says that the volume has no free
      cluster after the call: only then a write or a seek falls short, and it uses up the room of the
      file. Bytes exposed by a seek beyond the end are left open. */
  ghost predicate Behaves(op: Op, v: View, v': View, r: Reply, full: bool) {
    && v.pos <= |v.bytes|
    && match op
       case DoRead(n) =>
         && r.res == (if v.readable then OK else Denied)
         && r.count == (if !v.readable then 0 else if n > |v.bytes| - v.pos then |v.bytes| - v.pos else n)
         && r.data == v.bytes[v.pos..v.pos + r.count]
         && v' == v.(pos := v.pos + r.count)
       case DoWrite(data) =>
         if !v.writable then r == Reply(Denied, [], 0) && v' == v
         else
           && r.res == OK
           && r.count <= WriteLimit(v.pos, |data|) <= |data|
           && (r.count < WriteLimit(v.pos, |data|) ==> full && v'.pos == v'.room)
           && Grows(v, v')
           && v' == v.(bytes := Overlay(v.bytes, v.pos, data[..r.count]), pos := v.pos + r.count, room := v'.room)
       case DoSeek(ofs) =>
         && r.res == OK
         && (v'.pos == SeekTarget(|v.bytes|, v.writable, ofs) || (v.writable && full && v'.pos == v'.room < ofs))
         && |v'.bytes| == SizeAfter(|v.bytes|, v'.pos)
         && v'.bytes[..|v.bytes|] == v.bytes
         && Grows(v, v')
         && v' == v.(bytes := v'.bytes, pos := v'.pos, room := v'.room)
       case DoTruncate =>
         if !v.writable then r.res == Denied && v' == v
         else
           && r.res == OK
           && (if v.pos < |v.bytes| then v.pos <= v'.room < v.pos + v.unit else v'.room == v.room)
           && v' == v.(bytes := v.bytes[..v.pos], room := v'.room)
  }

  ghost function ViewOf(fp: Fil): View
    reads fp`sclust, fp`objsize, fp`err, fp`fptr, fp`canRead, fp`canWrite
    reads fp.fs`disk, fp.fs`wflag, fp.fs`winsect, fp.fs`freeClst, fp.fs`chains, fp.fs.win
    requires fp.Held()
  {
    View(fp.Bytes(), fp.fptr, fp.canRead, fp.canWrite, 512 * Sectors(fp.fs.geo, fp.Chain()), 512 * fp.fs.geo.csize)
  }

  lemma ViewIs(fp: Fil)
    requires fp.Valid()
    ensures ViewOf(fp) == View(fp.Bytes(), fp.fptr, fp.canRead, fp.canWrite,
                               512 * Sectors(fp.fs.geo, fp.Chain()), 512 * fp.fs.geo.csize)
    ensures fp.err == OK && fp.fptr <= fp.objsize && fp.objsize == |fp.Bytes()| && fp.fs.Shaped()
  {
    hide Sectors;
  }

  /** What frugal growth means for the room of a file. */
  twostate lemma RoomGrows(fp: Fil)
    requires old(fp.fs.Shaped()) && fp.fs.Shaped() && KeepsOthers(fp) && Frugal(fp)
    ensures var r, r' := 512 * Sectors(fp.fs.geo, old(fp.Chain())), 512 * Sectors(fp.fs.geo, fp.Chain());
            r <= r' && (r' == r || r' < fp.fptr + 512 * fp.fs.geo.csize)
  {
    ChainGrew(fp);
    FrugalIs(fp);
    hide FatFs.Shaped, KeepsOthers, Frugal, Fil.Chain, Times;
    var n, n' := |old(fp.Chain())|, |fp.Chain()|;
    if n < n' {
      TimesStep(fp.fs.geo.csize, n, n');
      TimesSucc(fp.fs.geo.csize, n' - 1);
    }
  }

  lemma EndOfRoom(fp: Fil)
    requires AtEnd(fp)
    ensures fp.fptr == 512 * Sectors(fp.fs.geo, fp.Chain())
  {
  }

  /** What a cut leaves of the room of a file. */
  lemma CutRoom(g: Geometry, fptr: nat, k: nat)
    requires WellFormed(g) && k == ClustersFor(g, fptr)
    ensures fptr <= 512 * Times(g.csize, k) < fptr + 512 * g.csize
  {
    Regions(g);
    hide WellFormed;
    if fptr > 0 {
      var n := (fptr - 1) / 512;
      DivMod(n, g.csize);
      TimesSucc(g.csize, k - 1);
      hide Times, Quot, Rem;
    }
  }

  /** Only the file itself may have changed. */
  twostate predicate Stays(fp: Fil)
    reads fp`sclust, fp.fs`chains, fp.fs`disk, fp.fs`wflag, fp.fs`winsect, fp.fs.win
    requires old(fp.fs.Shaped()) && fp.fs.Shaped()
  {
    OthersStay(fp.fs.geo, old(fp.fs.chains), old(fp.sclust), old(fp.fs.Logical()), fp.fs.chains, fp.sclust, fp.fs.Logical())
  }

  twostate lemma StaysByKeeping(fp: Fil)
    requires old(fp.fs.Shaped()) && fp.fs.Shaped() && KeepsOthers(fp)
    ensures Stays(fp)
  {
    hide Grew, OthersStay;
    GrewOthers(fp.fs.geo, old(fp.fs.chains), old(fp.sclust), old(fp.fs.Logical()), fp.fs.chains, fp.sclust, fp.fs.Logical());
  }

  twostate lemma StaysByCutting(fp: Fil)
    requires old(fp.fs.Shaped()) && fp.fs.Shaped()
    requires CutTo(fp.fs, old(fp.fs.chains), old(fp.sclust), fp.fptr, fp.sclust)
    requires SameOutsideFat(fp.fs.geo, old(fp.fs.Logical()), fp.fs.Logical())
    ensures Stays(fp)
  {
    hide OthersStay;
    CutOthers(fp.fs, old(fp.fs.chains), old(fp.sclust), old(fp.fs.Logical()), fp.fptr, fp.sclust);
  }

  lemma ReadBehaves(n: word, v: View, v': View, r: Reply, full: bool)
    requires v.pos <= |v.bytes| && r.res == (if v.readable then OK else Denied)
    requires r.count == if !v.readable then 0 else if n > |v.bytes| - v.pos then |v.bytes| - v.pos else n
    requires r.data == v.bytes[v.pos..v.pos + r.count] && v' == v.(pos := v.pos + r.count)
    ensures Behaves(DoRead(n), v, v', r, full)
  {
  }

  method PerformRead(fp: Fil, n: word) returns (r: Reply)
    requires fp.Valid()
    modifies fp`fptr, fp`clust, fp`sect, fp`err, fp.fs`disk, fp.fs`wflag, fp.fs`winsect, fp.fs.win
    ensures fp.Valid() && Stays(fp) && Behaves(DoRead(n), old(ViewOf(fp)), ViewOf(fp), r, Full(Table(fp.fs)))
  {
    hide *;
    ViewIs(fp);
    var buff := new byte[n];
    var res, br := Read(fp, buff, n);
    r := Reply(res, buff[..br], br);
    KeepsAll(fp);
    StaysByKeeping(fp);
    ViewIs(fp);
    ReadBehaves(n, old(ViewOf(fp)), ViewOf(fp), r, Full(Table(fp.fs)));
  }

  lemma WriteBehaves(data: Chunk, v: View, v': View, r: Reply, full: bool)
    requires v.pos <= |v.bytes|
    requires !v.writable ==> r == Reply(Denied, [], 0) && v' == v
    requires v.writable ==>
      && r.res == OK && r.count <= WriteLimit(v.pos, |data|) <= |data|
      && (r.count < WriteLimit(v.pos, |data|) ==> full && v'.pos == v'.room) && Grows(v, v')
      && v' == v.(bytes := Overlay(v.bytes, v.pos, data[..r.count]), pos := v.pos + r.count, room := v'.room)
    ensures Behaves(DoWrite(data), v, v', r, full)
  {
  }

  lemma GrowsIs(v: View, v': View)
    requires v.room <= v'.room && (v'.room == v.room || v'.room < v'.pos + v.unit)
    ensures Grows(v, v')
  {
  }

  method PerformWrite(fp: Fil, data: Chunk) returns (r: Reply)
    requires fp.Valid()
    modifies fp`sclust, fp`clust, fp`sect, fp`fptr, fp`objsize, fp`modified, fp`err
    modifies fp.fs`disk, fp.fs`wflag, fp.fs`winsect, fp.fs.win
    modifies fp.fs`freeClst, fp.fs`lastClst, fp.fs`fsiFlag, fp.fs`chains
    ensures fp.Valid() && Stays(fp) && Behaves(DoWrite(data), old(ViewOf(fp)), ViewOf(fp), r, Full(Table(fp.fs)))
  {
    hide *;
    ViewIs(fp);
    var res, bw := Write(fp, data);
    r := Reply(res, [], bw);
    StaysByKeeping(fp);
    ViewIs(fp);
    RoomGrows(fp);
    GrowsIs(old(ViewOf(fp)), ViewOf(fp));
    if bw < WriteLimit(old(fp.fptr), |data|) && fp.canWrite {
      EndOfRoom(fp);
    }
    WriteBehaves(data, old(ViewOf(fp)), ViewOf(fp), r, Full(Table(fp.fs)));
  }

  lemma SeekBehaves(ofs: word, v: View, v': View, r: Reply, full: bool)
    requires v.pos <= |v.bytes| && r.res == OK
    requires v'.pos == SeekTarget(|v.bytes|, v.writable, ofs) || (v.writable && full && v'.pos == v'.room < ofs)
    requires |v'.bytes| == SizeAfter(|v.bytes|, v'.pos)
    requires |v.bytes| <= |v'.bytes| && v'.bytes[..|v.bytes|] == v.bytes
    requires v'.readable == v.readable && v'.writable == v.writable && v'.unit == v.unit && Grows(v, v')
    ensures Behaves(DoSeek(ofs), v, v', r, full)
  {
  }

  method PerformSeek(fp: Fil, ofs: word) returns (r: Reply)
    requires fp.Valid()
    modifies fp`sclust, fp`clust, fp`sect, fp`fptr, fp`objsize, fp`modified, fp`err
    modifies fp.fs`disk, fp.fs`wflag, fp.fs`winsect, fp.fs.win
    modifies fp.fs`freeClst, fp.fs`lastClst, fp.fs`fsiFlag, fp.fs`chains
    ensures fp.Valid() && Stays(fp) && Behaves(DoSeek(ofs), old(ViewOf(fp)), ViewOf(fp), r, Full(Table(fp.fs)))
  {
    hide *;
    ViewIs(fp);
    var res := Seek(fp, ofs);
    r := Reply(res, [], 0);
    StaysByKeeping(fp);
    ViewIs(fp);
    SeekEndedFullIs(fp, ofs);
    SeekTargetIs(old(fp.objsize), fp.canWrite, ofs);
    RoomGrows(fp);
    GrowsIs(old(ViewOf(fp)), ViewOf(fp));
    SeekBehaves(ofs, old(ViewOf(fp)), ViewOf(fp), r, Full(Table(fp.fs)));
  }

  lemma TruncateBehaves(v: View, v': View, r: Reply, full: bool)
    requires v.pos <= |v.bytes|
    requires !v.writable ==> r.res == Denied && v' == v
    requires v.writable ==>
      && r.res == OK && v' == v.(bytes := v.bytes[..v.pos], room := v'.room)
      && if v.pos < |v.bytes| then v.pos <= v'.room < v.pos + v.unit else v'.room == v.room
    ensures Behaves(DoTruncate, v, v', r, full)
  {
  }

  lemma HeldRoom(fp: Fil)
    requires fp.Valid()
    ensures WellFormed(fp.fs.geo) && Sectors(fp.fs.geo, fp.Chain()) == Times(fp.fs.geo.csize, |fp.Chain()|)
    ensures fp.objsize <= 512 * Sectors(fp.fs.geo, fp.Chain())
  {
  }

  method PerformTruncate(fp: Fil) returns (r: Reply)
    requires fp.Valid()
    modifies fp`sclust, fp`objsize, fp`modified, fp`err
    modifies fp.fs`disk, fp.fs`wflag, fp.fs`winsect, fp.fs.win, fp.fs`freeClst, fp.fs`fsiFlag, fp.fs`chains
    ensures fp.Valid() && Stays(fp) && Behaves(DoTruncate, old(ViewOf(fp)), ViewOf(fp), r, Full(Table(fp.fs)))
  {
    hide *;
    ViewIs(fp);
    var res := Truncate(fp);
    r := Reply(res, [], 0);
    if fp.canWrite && fp.fptr < old(fp.objsize) {
      StaysByCutting(fp);
      HeldRoom(fp);
      CutRoom(fp.fs.geo, fp.fptr, ClustersFor(fp.fs.geo, fp.fptr));
      ClustersForFits(fp.fs.geo, old(fp.Chain()), fp.fptr);
    } else {
      KeepsAll(fp);
      StaysByKeeping(fp);
    }
    ViewIs(fp);
    TruncateBehaves(old(ViewOf(fp)), ViewOf(fp), r, Full(Table(fp.fs)));
  }

  /** One call on an open file. */
  method Perform(fp: Fil, op: Op) returns (r: Reply)
    requires fp.Valid()
    modifies fp`sclust, fp`clust, fp`sect, fp`fptr, fp`objsize, fp`modified, fp`err
    modifies fp.fs`disk, fp.fs`wflag, fp.fs`winsect, fp.fs.win
    modifies fp.fs`freeClst, fp.fs`lastClst, fp.fs`fsiFlag, fp.fs`chains
    ensures fp.Valid() && Stays(fp) && Behaves(op, old(ViewOf(fp)), ViewOf(fp), r, Full(Table(fp.fs)))
  {
    hide *;
    match op {
      case DoRead(n) => r := PerformRead(fp, n);
      case DoWrite(data) => r := PerformWrite(fp, data);
      case DoSeek(ofs) => r := PerformSeek(fp, ofs);
      case DoTruncate => r := PerformTruncate(fp);
    }
  }

  /** The file worked on and another file of the volume. */
  datatype Pair = Pair(a: Fil, b: Fil)

  ghost predicate Apart(s: nat, o: nat) {
    s == 0 || s != o
  }

  lemma HeldChain(fp: Fil)
    requires fp.Valid()
    ensures fp.Chain() == ChainOf(fp.fs.chains, fp.sclust) && VolumeOk(fp.fs)
    ensures fp.sclust == 0 || fp.sclust in fp.fs.chains
    ensures Clusters(fp.fs.geo, fp.Chain()) && fp.objsize <= 512 * Sectors(fp.fs.geo, fp.Chain())
    ensures Partition(Table(fp.fs), fp.fs.chains)
    ensures fp.Bytes() == Content(fp.fs.geo, fp.fs.Logical(), fp.Chain(), fp.objsize)
  {
  }

  /** A file on a volume in order, with its chain and fields as before. */
  twostate lemma RemainsValid(fp: Fil)
    requires old(fp.Valid()) && VolumeOk(fp.fs) && fp.Chain() == old(fp.Chain())
    requires fp.sclust == 0 || fp.sclust in fp.fs.chains
    requires fp.sclust == old(fp.sclust) && fp.objsize == old(fp.objsize) && fp.err == old(fp.err)
    requires fp.fptr == old(fp.fptr) && fp.clust == old(fp.clust) && fp.sect == old(fp.sect)
    ensures fp.Valid()
  {
    hide Partition, Fat, FreeCountOk, FatFs.Valid, FatFs.Logical, WellFormed, Clusters, Sectors, FileSector, ClusterAt;
    hide VolumeOk, AtCluster, AtSector;
  }

  twostate lemma BeforeFacts(fp: Fil)
    requires old(fp.Valid())
    ensures old(fp.Chain()) == ChainOf(old(fp.fs.chains), old(fp.sclust))
    ensures old(fp.sclust) == 0 || old(fp.sclust) in old(fp.fs.chains)
    ensures Clusters(fp.fs.geo, old(fp.Chain())) && old(fp.objsize) <= 512 * Sectors(fp.fs.geo, old(fp.Chain()))
    ensures old(fp.Bytes()) == Content(fp.fs.geo, old(fp.fs.Logical()), old(fp.Chain()), old(fp.objsize))
  {
  }

  twostate lemma OtherKept(p: Pair)
    requires old(p.b.Valid()) && p.a.Valid() && p.b.fs == p.a.fs && old(p.a.fs.Shaped()) && Stays(p.a)
    requires old(Apart(p.a.sclust, p.b.sclust))
    requires p.b.sclust == old(p.b.sclust) && p.b.objsize == old(p.b.objsize) && p.b.err == old(p.b.err)
    requires p.b.fptr == old(p.b.fptr) && p.b.clust == old(p.b.clust) && p.b.sect == old(p.b.sect)
    ensures p.b.Valid() && p.b.Bytes() == old(p.b.Bytes()) && p.b.Chain() == old(p.b.Chain())
    ensures Apart(p.a.sclust, p.b.sclust)
  {
    hide Partition, Fat, Fil.Valid, FatFs.Valid, FatFs.Logical, WellFormed, Clusters, Sectors;
    hide VolumeOk, OthersStay, Content, ChainOf, Fil.Bytes, Fil.Chain;
    var fs := p.a.fs;
    HeldChain(p.a);
    BeforeFacts(p.b);
    OtherFile(fs.geo, Table(fs), old(fs.chains), old(p.a.sclust), old(fs.Logical()),
              fs.chains, p.a.sclust, fs.Logical(), p.b.sclust, p.b.objsize);
    ChainIs(p.b);
    RemainsValid(p.b);
    HeldChain(p.b);
  }

  /** The files are open on the volume, valid, on different chains, and look as `views` says. */
  ghost predicate AllOpen(fs: FatFs, files: seq<Fil>, views: seq<View>)
    reads fs, fs.win, files
  {
    && |views| == |files|
    && (forall i :: 0 <= i < |files| ==> files[i].fs == fs)
    && (forall i :: 0 <= i < |files| ==> files[i].Valid() && ViewOf(files[i]) == views[i])
    && (forall i, j {:trigger files[i], files[j]} :: 0 <= i < |files| && 0 <= j < |files| && i != j ==>
        files[i] != files[j] && Apart(files[i].sclust, files[j].sclust))
  }

  lemma OpenFacts(fp: Fil)
    requires fp.Valid()
    ensures fp.fs.Shaped()
  {
  }

  /** No cluster of the volume is free. */
  ghost predicate IsFull(fs: FatFs, files: seq<Fil>, views: seq<View>)
    reads fs, fs.win, files
    requires AllOpen(fs, files, views) && files != []
  {
    OpenFacts(files[0]);
    Full(Table(fs))
  }

  /** The bytes of a view are those at their places on the drive, in the clusters that the table links up
      from the first one on. */
  ghost predicate Shown(fp: Fil, v: View)
    reads fp`sclust, fp.fs`chains, fp.fs`disk, fp.fs`wflag, fp.fs`winsect, fp.fs.win
  {
    && fp.fs.Shaped()
    && OnDrive(fp.fs.geo, fp.fs.Logical(), fp.Chain(), 0, v.bytes)
    && if fp.sclust == 0 then fp.Chain() == []
       else IsChain(Table(fp.fs), fp.Chain()) && fp.Chain()[0] == fp.sclust
  }

  lemma ViewShown(fp: Fil)
    requires fp.Valid()
    ensures Shown(fp, ViewOf(fp))
  {
    hide OnDrive, Content, Sectors, Clusters, WellFormed, Fat, FatFs.Logical, FreeCountOk, Covers, Disjoint;
    BytesOnDrive(fp, 0, fp.Bytes());
    if fp.sclust != 0 {
      HeadOf(Table(fp.fs), fp.fs.chains, fp.sclust);
    }
  }

  lemma AllShown(fs: FatFs, files: seq<Fil>, views: seq<View>)
    requires AllOpen(fs, files, views)
    ensures forall i :: 0 <= i < |files| ==> Shown(files[i], views[i])
  {
    hide Fil.Valid, ViewOf, Apart, Shown;
    forall i | 0 <= i < |files|
      ensures Shown(files[i], views[i])
    {
      ViewShown(files[i]);
    }
  }

  datatype Call = Call(file: nat, op: Op)

  /** One call of a session as a step between views: only the called file's view changes. */
  ghost predicate SessionStep(c: Call, vs: seq<View>, vs': seq<View>, r: Reply, full: bool) {
    && c.file < |vs| == |vs'|
    && Behaves(c.op, vs[c.file], vs'[c.file], r, full)
    && forall i :: 0 <= i < |vs| && i != c.file ==> vs'[i] == vs[i]
  }

  /** The open files and the one worked on. */
  datatype Group = Group(fs: FatFs, files: seq<Fil>, at: nat, views: seq<View>)

  /** The fields of a file are as before. */
  twostate predicate Untouched(fp: Fil)
    reads fp
  {
    && fp.sclust == old(fp.sclust) && fp.objsize == old(fp.objsize) && fp.err == old(fp.err)
    && fp.fptr == old(fp.fptr) && fp.clust == old(fp.clust) && fp.sect == old(fp.sect)
    && fp.canRead == old(fp.canRead) && fp.canWrite == old(fp.canWrite)
  }

  lemma ApartSymmetric(s: nat, o: nat)
    ensures Apart(s, o) ==> Apart(o, s)
  {
  }

  twostate lemma SameView(fp: Fil)
    requires old(fp.Valid()) && fp.Valid() && fp.Bytes() == old(fp.Bytes()) && fp.fptr == old(fp.fptr)
    requires fp.canRead == old(fp.canRead) && fp.canWrite == old(fp.canWrite) && fp.Chain() == old(fp.Chain())
    ensures ViewOf(fp) == old(ViewOf(fp))
  {
  }

  twostate lemma OtherView(p: Pair)
    requires old(p.b.Valid()) && p.a.Valid() && p.b.fs == p.a.fs && old(p.a.fs.Shaped()) && Stays(p.a)
    requires old(Apart(p.a.sclust, p.b.sclust)) && Untouched(p.b)
    ensures p.b.Valid() && ViewOf(p.b) == old(ViewOf(p.b))
    ensures Apart(p.a.sclust, p.b.sclust) && Apart(p.b.sclust, p.a.sclust)
  {
    hide Fil.Valid, ViewOf, Apart, Stays, FatFs.Shaped;
    OtherKept(p);
    SameView(p.b);
    ApartSymmetric(p.a.sclust, p.b.sclust);
  }

  twostate lemma OthersView(g: Group)
    requires old(AllOpen(g.fs, g.files, g.views)) && g.at < |g.files|
    requires g.files[g.at].Valid() && Stays(g.files[g.at])
    requires forall j :: 0 <= j < |g.files| && j != g.at ==> Untouched(g.files[j])
    ensures forall j :: 0 <= j < |g.files| && j != g.at ==> g.files[j].Valid() && ViewOf(g.files[j]) == g.views[j]
    ensures forall j :: 0 <= j < |g.files| && j != g.at ==>
      Apart(g.files[g.at].sclust, g.files[j].sclust) && Apart(g.files[j].sclust, g.files[g.at].sclust)
  {
    hide Fil.Valid, ViewOf, Apart, Stays, FatFs.Shaped, Untouched;
    var fp := g.files[g.at];
    forall j | 0 <= j < |g.files| && j != g.at
      ensures g.files[j].Valid() && ViewOf(g.files[j]) == g.views[j]
      ensures Apart(fp.sclust, g.files[j].sclust) && Apart(g.files[j].sclust, fp.sclust)
    {
      assert old(Apart(fp.sclust, g.files[j].sclust));
      OtherView(Pair(fp, g.files[j]));
    }
  }

  lemma AllOpenCounts(fs: FatFs, files: seq<Fil>, views: seq<View>)
    requires AllOpen(fs, files, views)
    ensures |views| == |files|
  {
    hide Fil.Valid, ViewOf, Apart;
  }

  method SessionCall(fs: FatFs, files: seq<Fil>, c: Call, ghost views: seq<View>) returns (r: Reply, ghost views': seq<View>)
    requires AllOpen(fs, files, views) && c.file < |files|
    modifies files, fs`disk, fs`wflag, fs`winsect, fs.win, fs`freeClst, fs`lastClst, fs`fsiFlag, fs`chains
    ensures AllOpen(fs, files, views') && SessionStep(c, views, views', r, IsFull(fs, files, views'))
    ensures old(fs.Shaped()) && fs.Shaped() && Stays(files[c.file])
    ensures forall j :: 0 <= j < |files| && j != c.file ==> Untouched(files[j])
  {
    hide Fil.Valid, ViewOf, Apart, Behaves, Stays, Full, Table, FatFs.Shaped;
    var fp := files[c.file];
    OpenFacts(fp);
    r := Perform(fp, c.op);
    OpenFacts(fp);
    views' := views[c.file := ViewOf(fp)];
    OthersView(Group(fs, files, c.file, views));
  }

  /** Any sequence of calls on open files of a volume: each call does to its file what it would
      do to a flat byte array with a cursor, and nothing to the others. */
  method Session(fs: FatFs, files: seq<Fil>, calls: seq<Call>, ghost views: seq<View>)
    returns (replies: seq<Reply>, ghost trace: seq<seq<View>>, ghost fulls: seq<bool>)
    requires AllOpen(fs, files, views) && forall k :: 0 <= k < |calls| ==> calls[k].file < |files|
    modifies files, fs`disk, fs`wflag, fs`winsect, fs.win, fs`freeClst, fs`lastClst, fs`fsiFlag, fs`chains
    ensures |replies| == |fulls| == |calls| == |trace| - 1 && trace[0] == views
    ensures forall k :: 0 <= k < |calls| ==> SessionStep(calls[k], trace[k], trace[k + 1], replies[k], fulls[k])
    ensures AllOpen(fs, files, trace[|calls|])
    ensures forall i :: 0 <= i < |files| ==> Shown(files[i], trace[|calls|][i])
  {
    hide *;
    replies, trace, fulls := [], [views], [];
    var k: nat := 0;
    while k < |calls|
      invariant k <= |calls| && |replies| == |fulls| == k == |trace| - 1 && trace[0] == views
      invariant AllOpen(fs, files, trace[k])
      invariant forall i :: 0 <= i < k ==> SessionStep(calls[i], trace[i], trace[i + 1], replies[i], fulls[i])
    {
      var r: Reply;
      ghost var now: seq<View>;
      r, now := SessionCall(fs, files, calls[k], trace[k]);
      replies, trace, fulls := replies + [r], trace + [now], fulls + [IsFull(fs, files, now)];
      k := k + 1;
    }
    AllShown(fs, files, trace[k]);
    AllOpenCounts(fs, files, trace[k]);
  }
}
