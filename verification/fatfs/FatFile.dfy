/** Open files: `f_read`, `f_write`, `f_lseek` and `f_truncate`. */
module FatFile {
  import opened Arith
  import opened FatTypes
  import opened FatWindow
  import opened FatTable
  import opened ChainSpec
  import opened FatAlloc
  import opened FatVolume
  import opened FileSpec

  /** FIL: an open file of a volume. */
  class Fil {
    const fs: FatFs
    var canRead: bool      // FA_READ
    var canWrite: bool     // FA_WRITE
    var modified: bool     // FA_MODIFIED
    var err: FResult       // OK, or the error that aborted the file
    var sclust: nat        // first cluster, 0 for none
    var objsize: nat       // file size
    var fptr: nat          // read/write pointer
    var clust: nat         // current cluster, meaningless while fptr is 0
    var sect: nat          // current sector, meaningful while fptr is inside a sector

    /** A file as f_open leaves it. */
    constructor (fs: FatFs, read: bool, write: bool, start: nat, size: nat)
      ensures this.fs == fs && canRead == read && canWrite == write
      ensures sclust == start && objsize == size && fptr == 0 && err == OK && !modified
    {
      this.fs := fs;
      canRead, canWrite, modified, err := read, write, false, OK;
      sclust, objsize, fptr, clust, sect := start, size, 0, 0, 0;
    }

    /** The clusters of the file in order. */
    ghost function Chain(): seq<nat>
      reads this`sclust, fs`chains
    {
      ChainOf(fs.chains, sclust)
    }

    /** The file is held and the cursor is inside it. */
    ghost predicate Ready()
      reads this`sclust, this`objsize, this`fptr, this`err
      reads fs`disk, fs`wflag, fs`winsect, fs`freeClst, fs`chains, fs.win
      ensures Ready() ==> Held() && fptr <= objsize
    {
      Held() && fptr <= objsize
    }

    ghost predicate Valid()
      reads this`sclust, this`objsize, this`fptr, this`err, this`clust, this`sect
      reads fs`disk, fs`wflag, fs`winsect, fs`freeClst, fs`chains, fs.win
      ensures Valid() ==> Ready()
    {
      Ready() && AtCluster(fs.geo, Chain(), fptr, clust) && AtSector(fs.geo, Chain(), fptr, sect)
    }

    /** The volume is in order and the file's chain holds its bytes. */
    ghost predicate Held()
      reads this`sclust, this`objsize, this`err
      reads fs`disk, fs`wflag, fs`winsect, fs`freeClst, fs`chains, fs.win
      ensures Held() ==> fs.Valid() && Clusters(fs.geo, Chain()) && err == OK
      ensures Held() ==> objsize <= 512 * Sectors(fs.geo, Chain()) && (sclust == 0 || sclust in fs.chains)
    {
      && VolumeOk(fs) && err == OK
      && (sclust == 0 || sclust in fs.chains)
      && Clusters(fs.geo, Chain())
      && objsize < 0x1_0000_0000
      && objsize <= 512 * Sectors(fs.geo, Chain())
    }

    /** The bytes of the file. */
    ghost function Bytes(): (r: seq<byte>)
      reads this`sclust, this`objsize, this`err
      reads fs`disk, fs`wflag, fs`winsect, fs`freeClst, fs`chains, fs.win
      requires Held()
      ensures |r| == objsize
    {
      Content(fs.geo, fs.Logical(), Chain(), objsize)
    }
  }

  /** What a valid file's cursor means when there is a byte under it. */
  lemma CursorFacts(fp: Fil)
    requires fp.Valid() && fp.fptr < fp.objsize
    ensures IsChain(Table(fp.fs), fp.Chain()) && fp.Chain()[0] == fp.sclust && 2 <= fp.sclust
    ensures Clusters(fp.fs.geo, fp.Chain()) && fp.fptr / 512 < Sectors(fp.fs.geo, fp.Chain())
    ensures AtCluster(fp.fs.geo, fp.Chain(), fp.fptr, fp.clust) && AtSector(fp.fs.geo, fp.Chain(), fp.fptr, fp.sect)
  {
  }

  /** Moving the window leaves the volume in order and the file ready. */
  twostate lemma StillReady(fp: Fil)
    requires old(fp.Ready()) && fp.fs.Valid() && fp.fs.Logical() == old(fp.fs.Logical())
    requires fp.fs.chains == old(fp.fs.chains) && fp.fs.freeClst == old(fp.fs.freeClst)
    requires fp.sclust == old(fp.sclust) && fp.objsize == old(fp.objsize) && fp.err == old(fp.err) && fp.fptr <= fp.objsize
    ensures fp.Ready()
  {
    hide Partition, Fat, CountFree, WellFormed, Clusters, Sectors;
  }

  lemma FollowingCluster(fp: Fil)
    requires fp.Valid() && fp.fptr % 512 == 0 && 0 < fp.fptr < fp.objsize && Rem(fp.fptr / 512, fp.fs.geo.csize) == 0
    ensures 2 <= fp.clust < fp.fs.geo.nFatEnt && fp.fptr / 512 < Sectors(fp.fs.geo, fp.Chain())
    ensures Table(fp.fs)[fp.clust] == ClusterAt(fp.fs.geo, fp.Chain(), fp.fptr / 512)
  {
    CursorFacts(fp);
    hide *;
    ClusterBehind(fp.fs.geo, Table(fp.fs), fp.Chain(), fp.fptr, fp.clust);
  }

  /** The cluster under a cursor that is at the start of a cluster, found for reading. */
  method ReadCluster(fp: Fil) returns (clst: nat)
    requires fp.Valid() && fp.fptr % 512 == 0 && fp.fptr < fp.objsize && Rem(fp.fptr / 512, fp.fs.geo.csize) == 0
    modifies fp.fs`disk, fp.fs`wflag, fp.fs`winsect, fp.fs.win
    ensures fp.Ready() && fp.fs.Logical() == old(fp.fs.Logical())
    ensures fp.fptr / 512 < Sectors(fp.fs.geo, fp.Chain()) && clst == ClusterAt(fp.fs.geo, fp.Chain(), fp.fptr / 512)
  {
    hide *;
    CursorFacts(fp);
    if fp.fptr == 0 {
      FirstCluster(fp.fs.geo, fp.Chain());
      clst := fp.sclust;
    } else {
      FollowingCluster(fp);
      clst := GetFat(fp.fs, fp.clust);
      StillReady(fp);
    }
  }

  /** The sector at the cursor of a file, found for reading. */
  method ReadPosition(fp: Fil) returns (res: FResult, csect: nat, s: nat)
    requires fp.Valid() && fp.fptr % 512 == 0 && fp.fptr < fp.objsize
    modifies fp`clust, fp.fs`disk, fp.fs`wflag, fp.fs`winsect, fp.fs.win
    ensures fp.Ready() && fp.fs.Logical() == old(fp.fs.Logical())
    ensures res == OK && csect == Rem(fp.fptr / 512, fp.fs.geo.csize)
    ensures fp.fptr / 512 < Sectors(fp.fs.geo, fp.Chain()) && fp.clust == ClusterAt(fp.fs.geo, fp.Chain(), fp.fptr / 512)
    ensures s == FileSector(fp.fs.geo, fp.Chain(), fp.fptr / 512)
  {
    hide *;
    PowerOfTwoSize(fp.fs.geo);
    CursorFacts(fp);
    res, s := OK, 0;
    csect := And(fp.fptr / 512, fp.fs.geo.csize - 1);
    AndIsRem(fp.fptr / 512, fp.fs.geo.csize);
    if csect == 0 {
      var clst := ReadCluster(fp);
      ClusterRange(fp.fs.geo, fp.Chain(), fp.fptr / 512);
      if clst < 2 {
        res := IntErr;
        return;
      }
      fp.clust := clst;
    } else {
      ClusterUnder(fp.fs.geo, fp.Chain(), fp.fptr, fp.clust);
    }
    FileSectorSplits(fp.fs.geo, fp.Chain(), fp.fptr / 512);
    s := ClusterToSector(fp.fs.geo, fp.clust);
    if s == 0 {
      res := IntErr;
      return;
    }
    s := s + csect;
  }

  /** `disk_read` of `cc` sectors: the driver's block loop. */
  method DiskRead(fs: FatFs, buff: array<byte>, off: nat, sect: nat, cc: nat)
    requires sect + cc <= |fs.disk| && off + 512 * cc <= buff.Length
    modifies buff
    ensures HoldsSectors(buff[..], off, fs.disk, sect, cc)
    ensures forall k :: 0 <= k < off || off + 512 * cc <= k < buff.Length ==> buff[k] == old(buff[k])
  {
    var block := 0;
    while block < cc
      invariant block <= cc
      invariant forall k :: off <= k < off + 512 * block ==> buff[k] == fs.disk[sect + (k - off) / 512][(k - off) % 512]
      invariant forall k :: 0 <= k < off || off + 512 * cc <= k < buff.Length ==> buff[k] == old(buff[k])
    {
      forall i | 0 <= i < 512 {
        buff[off + 512 * block + i] := fs.disk[sect + block][i];
      }
      block := block + 1;
    }
  }

  /** A direct transfer to the reader: the sectors of the drive, with the window's content
      in place of its sector when that is dirty. The result is what the file system sees. */
  method DirectRead(fs: FatFs, buff: array<byte>, off: nat, sect: nat, cc: nat)
    requires fs.Valid() && fs.geo.dataBase <= sect && sect + cc <= fs.geo.total
    requires off + 512 * cc <= buff.Length && buff != fs.win
    modifies buff
    ensures HoldsSectors(buff[..], off, fs.Logical(), sect, cc)
    ensures forall k :: 0 <= k < off || off + 512 * cc <= k < buff.Length ==> buff[k] == old(buff[k])
  {
    Regions(fs.geo);
    DiskRead(fs, buff, off, sect, cc);
    if fs.wflag {
      Sub32IsInterval(fs.winsect, sect, cc);
      if Sub32(fs.winsect, sect) < cc {
        var o := off + Sub32(fs.winsect, sect) * 512;
        forall i | 0 <= i < 512 {
          buff[o + i] := fs.win[i];
        }
      }
    }
  }

  /** Reads whole sectors at the cursor straight into the buffer, up to the end of the cluster. */
  method ReadSectors(fp: Fil, buff: array<byte>, off: nat, csect: nat, s: nat, n: nat) returns (rcnt: nat)
    requires fp.Ready() && fp.fptr % 512 == 0 && fp.fptr / 512 < Sectors(fp.fs.geo, fp.Chain()) && 512 <= n
    requires csect == Rem(fp.fptr / 512, fp.fs.geo.csize) && s == FileSector(fp.fs.geo, fp.Chain(), fp.fptr / 512)
    requires off + n <= buff.Length && buff != fp.fs.win
    modifies buff
    ensures 0 < rcnt <= n && rcnt % 512 == 0 && csect + rcnt / 512 <= fp.fs.geo.csize
    ensures Copied(buff[..], off, fp.fs.geo, fp.fs.Logical(), fp.Chain(), fp.fptr, rcnt)
    ensures forall k :: 0 <= k < off || off + rcnt <= k < buff.Length ==> buff[k] == old(buff[k])
  {
    hide *;
    var cc := n / 512;
    if csect + cc > fp.fs.geo.csize {
      cc := fp.fs.geo.csize - csect;
    }
    RunBytes(fp.fs.geo, fp.fs.Logical(), fp.Chain(), fp.fptr, cc);
    FileSectorInData(fp.fs.geo, fp.Chain(), fp.fptr / 512);
    DirectRead(fp.fs, buff, off, s, cc);
    SectorsAreBytes(buff[..], off, fp.fs.geo, fp.fs.Logical(), fp.Chain(), fp.fptr, cc);
    rcnt := 512 * cc;
  }

  /** `mem_cpy` from the window. */
  method CopyFromWindow(fs: FatFs, o: nat, buff: array<byte>, off: nat, n: nat)
    requires fs.Valid() && o + n <= 512 && off + n <= buff.Length && buff != fs.win
    modifies buff
    ensures fs.Valid() && fs.Logical() == old(fs.Logical())
    ensures buff[..][off..off + n] == fs.win[..][o..o + n]
    ensures forall k :: 0 <= k < off || off + n <= k < buff.Length ==> buff[k] == old(buff[k])
  {
    forall i | 0 <= i < n {
      buff[off + i] := fs.win[o + i];
    }
  }

  /** Reads the bytes at the cursor that lie in the current sector, through the window. */
  method ReadPartial(fp: Fil, buff: array<byte>, off: nat, n: nat) returns (rcnt: nat)
    requires fp.Ready() && fp.fptr / 512 < Sectors(fp.fs.geo, fp.Chain()) && 0 < n
    requires fp.sect == FileSector(fp.fs.geo, fp.Chain(), fp.fptr / 512)
    requires off + n <= buff.Length && buff != fp.fs.win
    modifies buff, fp.fs`disk, fp.fs`wflag, fp.fs`winsect, fp.fs.win
    ensures fp.Ready() && fp.fs.Logical() == old(fp.fs.Logical())
    ensures rcnt == if 512 - fp.fptr % 512 > n then n else 512 - fp.fptr % 512
    ensures Copied(buff[..], off, fp.fs.geo, fp.fs.Logical(), fp.Chain(), fp.fptr, rcnt)
    ensures forall k :: 0 <= k < off || off + rcnt <= k < buff.Length ==> buff[k] == old(buff[k])
  {
    hide *;
    rcnt := 512 - fp.fptr % 512;
    if rcnt > n {
      rcnt := n;
    }
    FileSectorInData(fp.fs.geo, fp.Chain(), fp.fptr / 512);
    fp.fs.MoveWindow(fp.sect);
    CopyFromWindow(fp.fs, fp.fptr % 512, buff, off, rcnt);
    StillReady(fp);
    PartIsBytes(buff[..], off, fp.fs.geo, fp.fs.Logical(), fp.Chain(), fp.fptr, rcnt);
  }

  /** A cursor inside a sector is in the current cluster and sector. */
  lemma InsideSector(fp: Fil)
    requires fp.Valid() && fp.fptr % 512 != 0
    ensures Clusters(fp.fs.geo, fp.Chain()) && fp.fptr / 512 < Sectors(fp.fs.geo, fp.Chain())
    ensures fp.clust == ClusterAt(fp.fs.geo, fp.Chain(), fp.fptr / 512)
    ensures fp.sect == FileSector(fp.fs.geo, fp.Chain(), fp.fptr / 512)
  {
    assert (fp.fptr - 1) / 512 == fp.fptr / 512;
  }

  lemma Placed(fp: Fil)
    requires fp.Ready() && AtCluster(fp.fs.geo, fp.Chain(), fp.fptr, fp.clust) && AtSector(fp.fs.geo, fp.Chain(), fp.fptr, fp.sect)
    ensures fp.Valid()
  {
  }

  /** The cursor moves on over bytes it stood on. */
  method Advance(fp: Fil, len: nat)
    requires fp.Ready() && fp.fptr / 512 < Sectors(fp.fs.geo, fp.Chain()) && 0 < len && fp.fptr + len <= fp.objsize
    requires fp.clust == ClusterAt(fp.fs.geo, fp.Chain(), fp.fptr / 512)
    requires Rem(fp.fptr / 512, fp.fs.geo.csize) + ((fp.fptr + len - 1) / 512 - fp.fptr / 512) < fp.fs.geo.csize
    requires (fp.fptr + len) % 512 != 0 ==>
      (fp.fptr + len) / 512 == fp.fptr / 512 && fp.sect == FileSector(fp.fs.geo, fp.Chain(), fp.fptr / 512)
    modifies fp`fptr
    ensures fp.Valid() && fp.fptr == old(fp.fptr) + len
  {
    hide *;
    CursorMoves(fp.fs.geo, fp.Chain(), fp.fptr, len, fp.clust, fp.sect);
    fp.fptr := fp.fptr + len;
    StillReady(fp);
    Placed(fp);
  }

  /** One round of the loop of `f_read`. */
  method ReadChunk(fp: Fil, buff: array<byte>, off: nat, n: nat) returns (res: FResult, rcnt: nat)
    requires fp.Valid() && 0 < n <= fp.objsize - fp.fptr
    requires off + n <= buff.Length && buff != fp.fs.win
    modifies fp`fptr, fp`clust, fp`sect, fp.fs`disk, fp.fs`wflag, fp.fs`winsect, fp.fs.win, buff
    ensures fp.Valid() && fp.fs.Logical() == old(fp.fs.Logical()) && res == OK
    ensures 0 < rcnt <= n && fp.fptr == old(fp.fptr) + rcnt
    ensures Copied(buff[..], off, fp.fs.geo, fp.fs.Logical(), fp.Chain(), old(fp.fptr), rcnt)
    ensures forall k :: 0 <= k < off || off + rcnt <= k < buff.Length ==> buff[k] == old(buff[k])
  {
    hide *;
    res, rcnt := OK, 0;
    if fp.fptr % 512 == 0 {
      var csect: nat, s: nat;
      res, csect, s := ReadPosition(fp);
      if res != OK {
        return;
      }
      if n / 512 > 0 {
        rcnt := ReadSectors(fp, buff, off, csect, s, n);
        Advance(fp, rcnt);
        return;
      }
      fp.sect := s;
    } else {
      InsideSector(fp);
    }
    rcnt := ReadPartial(fp, buff, off, n);
    Advance(fp, rcnt);
  }

  lemma NothingCopied(fp: Fil, buff: array<byte>)
    requires fp.Ready()
    ensures Copied(buff[..], 0, fp.fs.geo, fp.fs.Logical(), fp.Chain(), fp.fptr, 0)
  {
  }

  /** The transfer loop of `f_read`. */
  method ReadLoop(fp: Fil, buff: array<byte>, btr: nat) returns (res: FResult, br: nat)
    requires fp.Valid() && btr <= fp.objsize - fp.fptr && btr <= buff.Length && buff != fp.fs.win
    modifies fp`fptr, fp`clust, fp`sect, fp.fs`disk, fp.fs`wflag, fp.fs`winsect, fp.fs.win, buff
    ensures fp.Valid() && fp.fs.Logical() == old(fp.fs.Logical())
    ensures res == OK && br == btr && fp.fptr == old(fp.fptr) + br
    ensures Copied(buff[..], 0, fp.fs.geo, fp.fs.Logical(), fp.Chain(), old(fp.fptr), br)
    ensures forall k :: br <= k < buff.Length ==> buff[k] == old(buff[k])
  {
    hide *;
    res, br := OK, 0;
    var n: nat := btr;
    NothingCopied(fp, buff);
    while n > 0
      invariant fp.Valid() && fp.fs.Logical() == old(fp.fs.Logical())
      invariant res == OK && n + br == btr && btr - br <= fp.objsize - fp.fptr && fp.fptr == old(fp.fptr) + br
      invariant Copied(buff[..], 0, fp.fs.geo, fp.fs.Logical(), fp.Chain(), old(fp.fptr), br)
      invariant forall k :: br <= k < buff.Length ==> buff[k] == old(buff[k])
    {
      label before:
      var rcnt: nat;
      res, rcnt := ReadChunk(fp, buff, br, n);
      if res != OK {
        return;
      }
      CopiedJoin(old@before(buff[..]), buff[..], fp.fs.geo, fp.fs.Logical(), fp.Chain(), old(fp.fptr), br, rcnt);
      n, br := n - rcnt, br + rcnt;
    }
  }

  twostate lemma SameBytes(fp: Fil)
    requires old(fp.Held()) && fp.Held() && fp.fs.Logical() == old(fp.fs.Logical())
    requires fp.Chain() == old(fp.Chain()) && fp.objsize == old(fp.objsize)
    ensures fp.Bytes() == old(fp.Bytes())
  {
  }

  lemma DeliveredBytes(fp: Fil, buff: array<byte>, o: nat, len: nat)
    requires fp.Ready() && o + len <= fp.objsize
    requires Copied(buff[..], 0, fp.fs.geo, fp.fs.Logical(), fp.Chain(), o, len)
    ensures len <= buff.Length && buff[..len] == fp.Bytes()[o..o + len]
  {
    CopiedIsContent(buff[..], fp.fs.geo, fp.fs.Logical(), fp.Chain(), fp.objsize, o, len);
  }

  lemma NothingOnDrive(g: Geometry, d: Disk, ch: seq<nat>, from: nat, data: seq<byte>)
    requires data == []
    ensures OnDrive(g, d, ch, from, data)
  {
    hide IsByte, WellFormed;
  }

  /** The bytes of a file at their places on the drive. */
  lemma BytesOnDrive(fp: Fil, from: nat, data: seq<byte>)
    requires fp.Held() && from + |data| <= |fp.Bytes()| && fp.Bytes()[from..from + |data|] == data
    ensures OnDrive(fp.fs.geo, fp.fs.Logical(), fp.Chain(), from, data)
  {
    hide Partition, Fat, FreeCountOk, WellFormed, Content, OnDrive, Sectors, Clusters;
    ContentOnDrive(fp.fs.geo, fp.fs.Logical(), fp.Chain(), fp.objsize);
    StretchOnDrive(fp.fs.geo, fp.fs.Logical(), fp.Chain(), fp.Bytes(), from, data);
  }

  /** f_read: copies the bytes at the cursor, as many as are asked for and there are. */
  method Read(fp: Fil, buff: array<byte>, btr: nat) returns (res: FResult, br: nat)
    requires fp.err == OK ==> fp.Valid()
    requires btr <= buff.Length && buff != fp.fs.win
    modifies fp`fptr, fp`clust, fp`sect, fp`err, fp.fs`disk, fp.fs`wflag, fp.fs`winsect, fp.fs.win, buff
    ensures old(fp.err) != OK ==> res == old(fp.err) == fp.err && br == 0 && buff[..] == old(buff[..])
    ensures old(fp.err) == OK ==>
      && fp.Valid() && fp.fs.Logical() == old(fp.fs.Logical()) && fp.Bytes() == old(fp.Bytes())
      && res == (if fp.canRead then OK else Denied)
      && br == (if !fp.canRead then 0 else if btr > fp.objsize - old(fp.fptr) then fp.objsize - old(fp.fptr) else btr)
      && fp.fptr == old(fp.fptr) + br
      && buff[..br] == fp.Bytes()[old(fp.fptr)..fp.fptr]
      && OnDrive(fp.fs.geo, fp.fs.Logical(), fp.Chain(), old(fp.fptr), buff[..br])
    ensures forall k :: br <= k < buff.Length ==> buff[k] == old(buff[k])
  {
    hide *;
    br := 0;
    res := fp.err;
    if res != OK {
      return;
    }
    if !fp.canRead {
      res := Denied;
      NothingOnDrive(fp.fs.geo, fp.fs.Logical(), fp.Chain(), fp.fptr, buff[..0]);
      return;
    }
    var n := btr;
    var remain := fp.objsize - fp.fptr;
    if n > remain {
      n := remain;
    }
    res, br := ReadLoop(fp, buff, n);
    fp.err := res;
    StillReady(fp);
    SameBytes(fp);
    DeliveredBytes(fp, buff, old(fp.fptr), br);
    BytesOnDrive(fp, old(fp.fptr), buff[..br]);
  }

  /** The clusters of a ready file form a chain of the table, and where a cursor at a
      cluster start stands on it. */
  lemma BoundaryFacts(fp: Fil)
    requires fp.Valid() && fp.fptr % 512 == 0 && Rem(fp.fptr / 512, fp.fs.geo.csize) == 0
    ensures VolumeOk(fp.fs) && fp.Chain() == ChainOf(fp.fs.chains, fp.sclust)
    ensures fp.sclust != 0 ==> fp.sclust in fp.fs.chains && fp.Chain() == fp.fs.chains[fp.sclust]
    ensures fp.sclust != 0 ==> IsChain(Table(fp.fs), fp.Chain()) && fp.Chain()[0] == fp.sclust
    ensures fp.sclust == 0 ==> fp.Chain() == [] && fp.fptr == 0 && fp.objsize == 0
    ensures fp.fptr / 512 <= Sectors(fp.fs.geo, fp.Chain())
  {
    hide Partition, IsChain;
    if fp.sclust != 0 {
      HeadOf(Table(fp.fs), fp.fs.chains, fp.sclust);
    } else {
      assert Sectors(fp.fs.geo, []) == 0;
    }
  }

  /** What a round of writing keeps: the file's chain only grows, other chains and their
      clusters stay. */
  twostate predicate KeepsOthers(fp: Fil)
    reads fp`sclust, fp.fs`chains, fp.fs`disk, fp.fs`wflag, fp.fs`winsect, fp.fs.win
    requires old(fp.fs.Shaped()) && fp.fs.Shaped()
  {
    Grew(fp.fs.geo, old(fp.fs.chains), old(fp.sclust), old(fp.fs.Logical()), fp.fs.chains, fp.sclust, fp.fs.Logical())
  }

  /** The chain of a file on a volume in order. */
  lemma ChainFacts(fp: Fil)
    requires VolumeOk(fp.fs) && fp.sclust != 0 && fp.sclust in fp.fs.chains
    ensures Clusters(fp.fs.geo, fp.Chain()) && fp.Chain() != [] && fp.Chain()[0] == fp.sclust >= 2
    ensures OnChain(fp.fs.chains, fp.sclust, 0, fp.sclust)
  {
    hide Partition, IsChain, Fat, FreeCountOk;
    HeadOf(Table(fp.fs), fp.fs.chains, fp.sclust);
    ChainClusters(fp.fs.geo, Table(fp.fs), fp.Chain());
  }

  lemma NothingChanged(g: Geometry, d: Disk)
    ensures SameOutsideFat(g, d, d)
  {
  }

  /** The first cluster of a file, allocated when it has none. */
  method WriteFirst(fp: Fil) returns (clst: nat)
    requires VolumeOk(fp.fs) && (fp.sclust == 0 || fp.sclust in fp.fs.chains)
    modifies fp`sclust, fp.fs`disk, fp.fs`wflag, fp.fs`winsect, fp.fs.win
    modifies fp.fs`freeClst, fp.fs`lastClst, fp.fs`fsiFlag, fp.fs`chains
    ensures VolumeOk(fp.fs) && SameOutsideFat(fp.fs.geo, old(fp.fs.Logical()), fp.fs.Logical()) && KeepsOthers(fp)
    ensures clst == fp.sclust && (clst != 0 ==> clst in fp.fs.chains)
    ensures clst == 0 ==> Full(Table(fp.fs))
    ensures clst == 0 || old(fp.sclust) != 0 ==>
      (fp.fs.chains == old(fp.fs.chains) && fp.fs.Logical() == old(fp.fs.Logical()) && fp.sclust == old(fp.sclust))
    ensures fp.Chain() == if clst == 0 || old(fp.sclust) != 0 then old(fp.Chain()) else [clst]
  {
    hide Partition, FreeCountOk, Fat, Table, Grew, FatFs.Valid, FatFs.Logical, VolumeOk, Full, WellFormed, SameOutsideFat;
    UnchangedGrew(fp.fs.geo, fp.fs.chains, fp.sclust, fp.fs.Logical());
    NothingChanged(fp.fs.geo, fp.fs.Logical());
    clst := fp.sclust;
    if clst == 0 {
      clst := Allocate(fp.fs, 0, 0, 0);
      if clst != 0 {
        fp.sclust := clst;
        AllottedGrew(fp.fs.geo, old(fp.fs.chains), 0, old(fp.fs.Logical()), clst, clst, fp.fs.Logical());
        assert ChainOf(old(fp.fs.chains), 0) + [clst] == [clst];
      }
    }
  }

  lemma ClusterIndex(g: Geometry, ch: seq<nat>, q: nat)
    requires Clusters(g, ch) && q < |ch|
    ensures 2 <= ch[q] < g.nFatEnt
  {
  }

  /** The file's chain is as before, or has one cluster more behind a cursor that stood at its end. */
  twostate predicate OneMore(fp: Fil)
    reads fp`sclust, fp`fptr, fp.fs`chains
  {
    || fp.Chain() == old(fp.Chain())
    || (|fp.Chain()| == |old(fp.Chain())| + 1 && old(fp.fptr) / 512 == Sectors(fp.fs.geo, old(fp.Chain())))
  }

  lemma ValidFacts(fp: Fil)
    requires fp.Valid()
    ensures AtCluster(fp.fs.geo, fp.Chain(), fp.fptr, fp.clust) && AtSector(fp.fs.geo, fp.Chain(), fp.fptr, fp.sect)
  {
  }

  /** The cluster behind the current one of a file, linked when the chain ends there. */
  method WriteNext(fp: Fil) returns (clst: nat)
    requires fp.Valid() && 0 < fp.fptr && fp.fptr % 512 == 0 && Rem(fp.fptr / 512, fp.fs.geo.csize) == 0
    modifies fp.fs`disk, fp.fs`wflag, fp.fs`winsect, fp.fs.win
    modifies fp.fs`freeClst, fp.fs`lastClst, fp.fs`fsiFlag, fp.fs`chains
    ensures VolumeOk(fp.fs) && SameOutsideFat(fp.fs.geo, old(fp.fs.Logical()), fp.fs.Logical()) && KeepsOthers(fp)
    ensures clst == 0 ==>
      (Full(Table(fp.fs)) && fp.fs.chains == old(fp.fs.chains) && fp.fs.Logical() == old(fp.fs.Logical())
       && fp.fptr / 512 == Sectors(fp.fs.geo, fp.Chain()))
    ensures fp.sclust != 0 && fp.sclust in fp.fs.chains
    ensures clst != 0 ==>
      (Clusters(fp.fs.geo, fp.Chain()) && fp.fptr / 512 < Sectors(fp.fs.geo, fp.Chain())
       && clst == ClusterAt(fp.fs.geo, fp.Chain(), fp.fptr / 512))
    ensures OneMore(fp)
  {
    BoundaryFacts(fp);
    hide Partition, FreeCountOk, Fat, Table, Grew, FatFs.Valid, FatFs.Logical, VolumeOk, Full, WellFormed, SameOutsideFat;
    hide Fil.Valid, Fil.Ready, Clusters, ClusterAt, Sectors, AtCluster, AtSector, Quot, Rem, IsChain;
    ValidFacts(fp);
    UnchangedGrew(fp.fs.geo, fp.fs.chains, fp.sclust, fp.fs.Logical());
    BoundaryPlace(fp.fs.geo, fp.Chain(), fp.fptr, fp.clust);
    ghost var q := Quot(fp.fptr / 512, fp.fs.geo.csize);
    if q < |fp.Chain()| {
      ClusterIndex(fp.fs.geo, fp.Chain(), q);
    }
    clst := Allocate(fp.fs, fp.clust, fp.sclust, q - 1);
    ChainFacts(fp);
    if clst != 0 && q == |old(fp.Chain())| {
      AllottedGrew(fp.fs.geo, old(fp.fs.chains), fp.sclust, old(fp.fs.Logical()), fp.sclust, clst, fp.fs.Logical());
      RoomAtEnd(fp.fs.geo, old(fp.Chain()), clst);
    }
  }

  twostate lemma OneMoreFirst(fp: Fil)
    requires fp.Chain() == old(fp.Chain()) || (old(fp.sclust) == 0 && |fp.Chain()| == 1)
    requires old(fp.fptr) == 0
    ensures OneMore(fp)
  {
  }

  lemma NoClusters(fp: Fil)
    requires fp.sclust == 0
    ensures fp.Chain() == [] && Sectors(fp.fs.geo, fp.Chain()) == 0
  {
  }

  /** The cluster under a cursor at a cluster start, found or allocated for writing;
      0 when the volume is full and the chain ends there. */
  method WriteCluster(fp: Fil) returns (clst: nat)
    requires fp.Valid() && fp.fptr % 512 == 0 && Rem(fp.fptr / 512, fp.fs.geo.csize) == 0
    modifies fp`sclust, fp.fs`disk, fp.fs`wflag, fp.fs`winsect, fp.fs.win
    modifies fp.fs`freeClst, fp.fs`lastClst, fp.fs`fsiFlag, fp.fs`chains
    ensures VolumeOk(fp.fs) && SameOutsideFat(fp.fs.geo, old(fp.fs.Logical()), fp.fs.Logical()) && KeepsOthers(fp)
    ensures clst == 0 ==>
      (Full(Table(fp.fs)) && fp.fs.chains == old(fp.fs.chains) && fp.fs.Logical() == old(fp.fs.Logical())
       && fp.sclust == old(fp.sclust) && fp.fptr / 512 == Sectors(fp.fs.geo, fp.Chain()))
    ensures OneMore(fp)
    ensures clst != 0 ==>
      (2 <= clst && fp.sclust != 0 && fp.sclust in fp.fs.chains && Clusters(fp.fs.geo, fp.Chain())
       && fp.fptr / 512 < Sectors(fp.fs.geo, fp.Chain()) && clst == ClusterAt(fp.fs.geo, fp.Chain(), fp.fptr / 512))
  {
    hide *;
    BoundaryFacts(fp);
    if fp.fptr == 0 {
      clst := WriteFirst(fp);
      OneMoreFirst(fp);
      if clst != 0 {
        ChainFacts(fp);
        FirstCluster(fp.fs.geo, fp.Chain());
      } else {
        NoClusters(fp);
      }
    } else {
      clst := WriteNext(fp);
      if clst != 0 {
        ClusterRange(fp.fs.geo, fp.Chain(), fp.fptr / 512);
      }
    }
  }

  /** After an allocation for it the file is held and shows the same bytes. */
  twostate lemma GrownHeld(fp: Fil)
    requires old(fp.Held()) && VolumeOk(fp.fs) && KeepsOthers(fp)
    requires SameOutsideFat(fp.fs.geo, old(fp.fs.Logical()), fp.fs.Logical())
    requires fp.sclust == 0 || fp.sclust in fp.fs.chains
    requires fp.objsize == old(fp.objsize) && fp.err == old(fp.err)
    ensures fp.Held() && fp.Bytes() == old(fp.Bytes())
  {
    hide Partition, FreeCountOk, Fat, Table, FatFs.Valid, FatFs.Logical, VolumeOk, WellFormed, SameOutsideFat, TouchesOnly;
    hide Clusters, Sectors;
    if fp.sclust != 0 {
      ChainFacts(fp);
    } else {
      assert fp.Chain() == [] && old(fp.Chain()) == [];
    }
    PrefixContent(fp.fs.geo, old(fp.Chain()), fp.Chain(), old(fp.fs.Logical()), fp.fs.Logical(), fp.objsize);
  }

  lemma InsideIsReady(fp: Fil)
    ensures fp.Ready() <==> fp.Held() && fp.fptr <= fp.objsize
  {
  }

  twostate lemma GrownReady(fp: Fil)
    requires old(fp.Ready()) && VolumeOk(fp.fs) && KeepsOthers(fp)
    requires SameOutsideFat(fp.fs.geo, old(fp.fs.Logical()), fp.fs.Logical())
    requires fp.sclust == 0 || fp.sclust in fp.fs.chains
    requires fp.objsize == old(fp.objsize) && fp.fptr == old(fp.fptr) && fp.err == old(fp.err)
    ensures fp.Ready() && fp.Bytes() == old(fp.Bytes())
  {
    hide *;
    GrownHeld(fp);
    InsideIsReady(fp);
  }

  lemma ChainIs(fp: Fil)
    ensures fp.Chain() == ChainOf(fp.fs.chains, fp.sclust)
  {
  }

  /** The cursor stands at the end of the file's last cluster. */
  ghost predicate AtEnd(fp: Fil)
    reads fp`sclust, fp`fptr, fp.fs`chains
  {
    fp.fptr == 512 * Sectors(fp.fs.geo, fp.Chain())
  }

  lemma AtEndIs(fp: Fil)
    requires fp.fptr % 512 == 0 && fp.fptr / 512 == Sectors(fp.fs.geo, fp.Chain())
    ensures AtEnd(fp)
  {
    hide Sectors;
  }

  twostate lemma OneMoreSame(fp: Fil)
    requires fp.Chain() == old(fp.Chain())
    ensures OneMore(fp)
  {
  }

  twostate lemma OneMoreIs(fp: Fil)
    requires OneMore(fp)
    ensures |fp.Chain()| == |old(fp.Chain())|
            || (|fp.Chain()| == |old(fp.Chain())| + 1 && old(fp.fptr) / 512 == Sectors(fp.fs.geo, old(fp.Chain())))
  {
    hide Sectors;
  }

  /** The file got no cluster that ends before the cursor came into it. */
  twostate predicate Frugal(fp: Fil)
    reads fp`sclust, fp`fptr, fp.fs`chains
  {
    |fp.Chain()| == |old(fp.Chain())| || (fp.Chain() != [] && 512 * Times(fp.fs.geo.csize, |fp.Chain()| - 1) < fp.fptr)
  }

  twostate lemma FrugalIs(fp: Fil)
    ensures Frugal(fp) <==> |fp.Chain()| == |old(fp.Chain())|
                            || (|fp.Chain()| > 0 && 512 * Times(fp.fs.geo.csize, |fp.Chain()| - 1) < fp.fptr)
  {
    hide Times, Fil.Chain;
  }

  twostate lemma FrugalSame(fp: Fil)
    requires |fp.Chain()| == |old(fp.Chain())|
    ensures Frugal(fp)
  {
  }

  /** A file that got one cluster at its end and wrote something into it. */
  twostate lemma FrugalOne(fp: Fil)
    requires |fp.Chain()| == |old(fp.Chain())|
             || (|fp.Chain()| == |old(fp.Chain())| + 1 && old(fp.fptr) / 512 == Sectors(fp.fs.geo, old(fp.Chain())))
    requires old(fp.fptr) % 512 == 0 && old(fp.fptr) < fp.fptr
    ensures Frugal(fp)
  {
    hide Times, Fil.Chain;
  }

  twostate lemma KeepsAll(fp: Fil)
    requires old(fp.fs.Shaped()) && fp.fs.Shaped() && fp.fs.Logical() == old(fp.fs.Logical())
    requires fp.fs.chains == old(fp.fs.chains) && fp.sclust == old(fp.sclust)
    ensures KeepsOthers(fp)
  {
    UnchangedGrew(fp.fs.geo, fp.fs.chains, fp.sclust, fp.fs.Logical());
  }

  twostate lemma StillValid(fp: Fil)
    requires old(fp.Valid()) && fp.Ready() && fp.Chain() == old(fp.Chain())
    requires fp.fptr == old(fp.fptr) && fp.clust == old(fp.clust) && fp.sect == old(fp.sect)
    ensures fp.Valid()
  {
  }

  /** The sector at a cursor on a sector boundary, found or allocated for writing;
      `full` when no cluster is free for it. */
  method WritePosition(fp: Fil) returns (res: FResult, full: bool, csect: nat, s: nat)
    requires fp.Valid() && fp.fptr % 512 == 0
    requires fp.fptr / 512 < Sectors(fp.fs.geo, fp.Chain()) || Rem(fp.fptr / 512, fp.fs.geo.csize) == 0
    modifies fp`sclust, fp`clust, fp.fs`disk, fp.fs`wflag, fp.fs`winsect, fp.fs.win
    modifies fp.fs`freeClst, fp.fs`lastClst, fp.fs`fsiFlag, fp.fs`chains
    ensures res == OK && fp.Ready() && fp.Bytes() == old(fp.Bytes()) && KeepsOthers(fp)
    ensures full ==>
      (Full(Table(fp.fs)) && fp.fs.chains == old(fp.fs.chains) && fp.fs.Logical() == old(fp.fs.Logical()) && fp.Valid()
       && AtEnd(fp) && fp.Chain() == old(fp.Chain()))
    ensures OneMore(fp)
    ensures !full ==>
      (fp.fptr / 512 < Sectors(fp.fs.geo, fp.Chain()) && fp.clust == ClusterAt(fp.fs.geo, fp.Chain(), fp.fptr / 512)
       && s == FileSector(fp.fs.geo, fp.Chain(), fp.fptr / 512) && csect == Rem(fp.fptr / 512, fp.fs.geo.csize))
  {
    hide *;
    PowerOfTwoSize(fp.fs.geo);
    ValidFacts(fp);
    res, full, s := OK, false, 0;
    csect := And(fp.fptr / 512, fp.fs.geo.csize - 1);
    AndIsRem(fp.fptr / 512, fp.fs.geo.csize);
    if csect == 0 {
      var clst := WriteCluster(fp);
      GrownReady(fp);
      if clst == 0 {
        full := true;
        StillValid(fp);
        AtEndIs(fp);
        return;
      }
      if clst == 1 {
        res := IntErr;
        return;
      }
      fp.clust := clst;
    } else {
      KeepsAll(fp);
      OneMoreSame(fp);
      ClusterUnder(fp.fs.geo, fp.Chain(), fp.fptr, fp.clust);
    }
    FileSectorSplits(fp.fs.geo, fp.Chain(), fp.fptr / 512);
    s := ClusterToSector(fp.fs.geo, fp.clust);
    if s == 0 {
      res := IntErr;
      return;
    }
    s := s + csect;
  }

  /** `disk_write` of `cc` sectors of `data`: the driver's block loop. */
  method DiskWriteRun(fs: FatFs, data: seq<byte>, off: nat, sect: nat, cc: nat)
    requires sect + cc <= |fs.disk| && off + 512 * cc <= |data|
    modifies fs`disk
    ensures ChangedRun(fs.geo, old(fs.disk), fs.disk, sect, cc)
    ensures HoldsSectors(data, off, fs.disk, sect, cc)
  {
    var block := 0;
    while block < cc
      invariant block <= cc && ChangedRun(fs.geo, old(fs.disk), fs.disk, sect, cc)
      invariant forall k :: off <= k < off + 512 * block ==> data[k] == fs.disk[sect + (k - off) / 512][(k - off) % 512]
    {
      fs.DiskWrite(data[off + 512 * block..off + 512 * block + 512], sect + block);
      block := block + 1;
    }
  }

  lemma RunHeld(data: seq<byte>, off: nat, d: Disk, d': Disk, sect: nat, cc: nat)
    requires HoldsSectors(data, off, d, sect, cc) && |d'| == |d|
    requires forall k: nat :: sect <= k < sect + cc ==> d'[k] == d[k]
    ensures HoldsSectors(data, off, d', sect, cc)
  {
  }

  lemma RunSector(data: seq<byte>, off: nat, d: Disk, sect: nat, cc: nat, i: nat)
    requires HoldsSectors(data, off, d, sect, cc) && i < cc
    ensures off + 512 * i + 512 <= |data| && data[off + i * 512..off + i * 512 + 512] == d[sect + i]
  {
    var part := data[off + i * 512..off + i * 512 + 512];
    forall k | 0 <= k < 512
      ensures part[k] == d[sect + i][k]
    {
      assert part[k] == data[off + i * 512 + k];
      assert (512 * i + k) / 512 == i && (512 * i + k) % 512 == k;
    }
  }

  /** A direct transfer from the writer. A window holding one of the sectors takes the new
      content and is clean again. */
  method DirectWrite(fs: FatFs, data: seq<byte>, off: nat, sect: nat, cc: nat)
    requires fs.Valid() && fs.geo.dataBase <= sect && sect + cc <= fs.geo.total && off + 512 * cc <= |data|
    modifies fs`disk, fs`wflag, fs.win
    ensures fs.Valid() && ChangedRun(fs.geo, old(fs.Logical()), fs.Logical(), sect, cc)
    ensures HoldsSectors(data, off, fs.Logical(), sect, cc)
  {
    Regions(fs.geo);
    Sub32IsInterval(fs.winsect, sect, cc);
    hide WellFormed, PowerOfTwo, Times, Sub32, HoldsSectors;
    DiskWriteRun(fs, data, off, sect, cc);
    ghost var written := fs.disk;
    if Sub32(fs.winsect, sect) < cc {
      var o := off + Sub32(fs.winsect, sect) * 512;
      RunSector(data, off, fs.disk, sect, cc, Sub32(fs.winsect, sect));
      fs.CopyToWindow(data[o..o + 512]);
      fs.wflag := false;
    }
    RunHeld(data, off, written, fs.Logical(), sect, cc);
  }

  twostate lemma KeepsIntro(fp: Fil)
    requires old(fp.fs.Shaped()) && fp.fs.Shaped()
    requires Grew(fp.fs.geo, old(fp.fs.chains), old(fp.sclust), old(fp.fs.Logical()), fp.fs.chains, fp.sclust, fp.fs.Logical())
    ensures KeepsOthers(fp)
  {
  }

  /** Writing data sectors leaves the volume in order and the file ready. */
  twostate lemma ReadyWithTable(fp: Fil)
    requires old(fp.Ready()) && fp.fs.Valid() && Fat(fp.fs.geo, fp.fs.Logical()) == Fat(fp.fs.geo, old(fp.fs.Logical()))
    requires fp.fs.chains == old(fp.fs.chains) && fp.fs.freeClst == old(fp.fs.freeClst)
    requires fp.sclust == old(fp.sclust) && fp.objsize == old(fp.objsize) && fp.fptr == old(fp.fptr) && fp.err == old(fp.err)
    ensures fp.Ready()
  {
    hide Partition, Fat, CountFree, WellFormed, Clusters, Sectors, FatFs.Logical, FatFs.Valid;
  }

  lemma BytesAre(fp: Fil)
    requires fp.Held()
    ensures fp.Chain() == ChainOf(fp.fs.chains, fp.sclust)
    ensures fp.Bytes() == Content(fp.fs.geo, fp.fs.Logical(), fp.Chain(), fp.objsize)
  {
  }

  /** Writes whole sectors at the cursor straight from the data, up to the end of the cluster. */
  method WriteSectors(fp: Fil, data: seq<byte>, off: nat, csect: nat, s: nat, n: nat) returns (wcnt: nat)
    requires fp.Ready() && fp.fptr % 512 == 0 && fp.fptr / 512 < Sectors(fp.fs.geo, fp.Chain()) && 512 <= n
    requires csect == Rem(fp.fptr / 512, fp.fs.geo.csize) && s == FileSector(fp.fs.geo, fp.Chain(), fp.fptr / 512)
    requires off + n <= |data|
    modifies fp.fs`disk, fp.fs`wflag, fp.fs.win
    ensures 0 < wcnt <= n && wcnt % 512 == 0 && csect + wcnt / 512 <= fp.fs.geo.csize
    ensures fp.Ready() && TouchesOnly(fp.fs.geo, fp.Chain(), old(fp.fs.Logical()), fp.fs.Logical())
    ensures Transferred(old(fp.Bytes()), fp.fs.geo, fp.fs.Logical(), fp.Chain(), fp.fptr, data, off, wcnt)
  {
    hide *;
    BytesAre(fp);
    var cc := n / 512;
    if csect + cc > fp.fs.geo.csize {
      cc := fp.fs.geo.csize - csect;
    }
    RunBytes(fp.fs.geo, fp.fs.Logical(), fp.Chain(), fp.fptr, cc);
    FileSectorInData(fp.fs.geo, fp.Chain(), fp.fptr / 512);
    DirectWrite(fp.fs, data, off, s, cc);
    WroteTouches(fp.fs.geo, fp.fs.chains, fp.sclust, old(fp.fs.Logical()), fp.fs.Logical(), fp.fptr / 512, cc);
    ReadyWithTable(fp);
    TransferSectors(fp.fs.geo, old(fp.fs.Logical()), fp.fs.Logical(), fp.Chain(), fp.objsize, fp.fptr, data, off, cc);
    wcnt := 512 * cc;
  }

  lemma DataNotFat(g: Geometry, s: nat)
    ensures g.csize > 0
    ensures g.dataBase <= s ==> !InSecondFat(g, s) && !InFirstFat(g, s)
  {
  }

  /** Writes the bytes of the data that fall in the current sector, through the window. A
      sector at the growing edge of the file is not loaded first. */
  method WritePartial(fp: Fil, data: seq<byte>, off: nat, n: nat, growing: bool) returns (wcnt: nat)
    requires fp.Ready() && fp.fptr / 512 < Sectors(fp.fs.geo, fp.Chain()) && 0 < n && off + n <= |data|
    requires fp.sect == FileSector(fp.fs.geo, fp.Chain(), fp.fptr / 512)
    requires growing ==> fp.fptr % 512 == 0 && fp.fptr >= fp.objsize
    modifies fp.fs`disk, fp.fs`wflag, fp.fs`winsect, fp.fs.win
    ensures wcnt == if 512 - fp.fptr % 512 > n then n else 512 - fp.fptr % 512
    ensures fp.Ready() && TouchesOnly(fp.fs.geo, fp.Chain(), old(fp.fs.Logical()), fp.fs.Logical())
    ensures Transferred(old(fp.Bytes()), fp.fs.geo, fp.fs.Logical(), fp.Chain(), fp.fptr, data, off, wcnt)
  {
    hide *;
    BytesAre(fp);
    FileSectorInData(fp.fs.geo, fp.Chain(), fp.fptr / 512);
    DataNotFat(fp.fs.geo, fp.sect);
    wcnt := 512 - fp.fptr % 512;
    if wcnt > n {
      wcnt := n;
    }
    if growing {
      fp.fs.ClaimWindow(fp.sect);
    }
    fp.fs.MoveWindow(fp.sect);
    ghost var w := fp.fs.win[..];
    fp.fs.Poke(fp.fptr % 512, data[off..off + wcnt]);
    StoredPart(fp.fs.geo, old(fp.fs.Logical()), fp.fs.Logical(), w, fp.sect, fp.fptr % 512, data[off..off + wcnt]);
    RemSmall(fp.fptr / 512, fp.fs.geo.csize);
    WroteTouches(fp.fs.geo, fp.fs.chains, fp.sclust, old(fp.fs.Logical()), fp.fs.Logical(), fp.fptr / 512, 1);
    ReadyWithTable(fp);
    TransferPart(fp.fs.geo, old(fp.fs.Logical()), fp.fs.Logical(), fp.Chain(), fp.objsize, fp.fptr, data, off, wcnt);
  }

  twostate lemma KeepsElim(fp: Fil)
    requires old(fp.fs.Shaped()) && fp.fs.Shaped() && KeepsOthers(fp)
    ensures Grew(fp.fs.geo, old(fp.fs.chains), old(fp.sclust), old(fp.fs.Logical()), fp.fs.chains, fp.sclust, fp.fs.Logical())
  {
  }

  lemma EndIsBoundary(g: Geometry, ch: seq<nat>)
    ensures g.csize > 0 && Rem(Sectors(g, ch), g.csize) == 0
  {
    Regions(g);
    QuotTimes(g.csize, |ch|, 0);
  }

  lemma HeldParts(fp: Fil)
    requires fp.Held()
    ensures VolumeOk(fp.fs) && (fp.sclust == 0 || fp.sclust in fp.fs.chains)
    ensures fp.objsize < 0x1_0000_0000 && fp.objsize <= 512 * Sectors(fp.fs.geo, fp.Chain())
  {
  }

  /** A cursor at a sector boundary has a sector under it, or stands at the end of the
      last cluster. */
  lemma BoundaryOrSector(fp: Fil)
    requires fp.Ready() && fp.fptr % 512 == 0
    ensures fp.fptr / 512 < Sectors(fp.fs.geo, fp.Chain()) || Rem(fp.fptr / 512, fp.fs.geo.csize) == 0
  {
    hide *;
    HeldParts(fp);
    EndIsBoundary(fp.fs.geo, fp.Chain());
  }

  lemma SizeBound(fp: Fil)
    requires fp.Ready()
    ensures fp.objsize < 0x1_0000_0000
  {
  }

  /** A new size that the chain can hold and the cursor is inside of leaves the file ready. */
  twostate lemma SizedReady(fp: Fil)
    requires old(fp.Held()) && fp.fs.Valid() && fp.fs.Logical() == old(fp.fs.Logical())
    requires fp.fs.chains == old(fp.fs.chains) && fp.fs.freeClst == old(fp.fs.freeClst)
    requires fp.sclust == old(fp.sclust) && fp.err == old(fp.err)
    requires fp.fptr <= fp.objsize < 0x1_0000_0000 && fp.objsize <= 512 * Sectors(fp.fs.geo, fp.Chain())
    ensures fp.Ready()
  {
    hide Partition, Fat, CountFree, WellFormed, Clusters, Sectors;
  }

  /** The end of a round of `f_write`: the cursor moves on and the size follows it. */
  method Finish(fp: Fil, len: nat, ghost b: seq<byte>, ghost data: seq<byte>, ghost off: nat)
    requires fp.Ready() && 0 < len && fp.fptr + len < 0x1_0000_0000 && |b| == fp.objsize
    requires Transferred(b, fp.fs.geo, fp.fs.Logical(), fp.Chain(), fp.fptr, data, off, len)
    requires fp.fptr / 512 < Sectors(fp.fs.geo, fp.Chain())
    requires fp.clust == ClusterAt(fp.fs.geo, fp.Chain(), fp.fptr / 512)
    requires Rem(fp.fptr / 512, fp.fs.geo.csize) + ((fp.fptr + len - 1) / 512 - fp.fptr / 512) < fp.fs.geo.csize
    requires (fp.fptr + len) % 512 != 0 ==>
      (fp.fptr + len) / 512 == fp.fptr / 512 && fp.sect == FileSector(fp.fs.geo, fp.Chain(), fp.fptr / 512)
    modifies fp`fptr, fp`objsize
    ensures fp.Valid() && fp.fptr == old(fp.fptr) + len
    ensures off + len <= |data| && fp.Bytes() == Overlay(b, old(fp.fptr), data[off..off + len])
  {
    hide *;
    CursorMoves(fp.fs.geo, fp.Chain(), fp.fptr, len, fp.clust, fp.sect);
    TransferredFacts(b, fp.fs.geo, fp.fs.Logical(), fp.Chain(), fp.fptr, data, off, len);
    SizeBound(fp);
    fp.fptr := fp.fptr + len;
    fp.objsize := if fp.fptr > fp.objsize then fp.fptr else fp.objsize;
    SizedReady(fp);
    Placed(fp);
    BytesAre(fp);
  }

  /** Flushes the window when it holds the sector the file worked on last. */
  method SyncIfCached(fp: Fil)
    requires fp.Ready()
    modifies fp.fs`disk, fp.fs`wflag
    ensures fp.Ready() && fp.fs.Logical() == old(fp.fs.Logical()) && fp.Bytes() == old(fp.Bytes())
  {
    hide *;
    if fp.fs.winsect == fp.sect {
      fp.fs.SyncWindow();
      StillReady(fp);
      SameBytes(fp);
    }
  }

  /** The transfer of a round of `f_write` on a sector boundary: whole sectors directly, or part of one
      through the window. */
  method TransferBoundary(fp: Fil, data: seq<byte>, off: nat, n: nat, csect: nat, s: nat) returns (wcnt: nat)
    requires fp.Ready() && fp.fptr % 512 == 0 && fp.fptr / 512 < Sectors(fp.fs.geo, fp.Chain())
    requires csect == Rem(fp.fptr / 512, fp.fs.geo.csize) && s == FileSector(fp.fs.geo, fp.Chain(), fp.fptr / 512)
    requires 0 < n && off + n <= |data| && fp.fs.geo.csize > 0
    modifies fp`sect, fp.fs`disk, fp.fs`wflag, fp.fs`winsect, fp.fs.win
    ensures 0 < wcnt <= n && fp.Ready()
    ensures TouchesOnly(fp.fs.geo, fp.Chain(), old(fp.fs.Logical()), fp.fs.Logical())
    ensures Transferred(old(fp.Bytes()), fp.fs.geo, fp.fs.Logical(), fp.Chain(), fp.fptr, data, off, wcnt)
    ensures Rem(fp.fptr / 512, fp.fs.geo.csize) + ((fp.fptr + wcnt - 1) / 512 - fp.fptr / 512) < fp.fs.geo.csize
    ensures (fp.fptr + wcnt) % 512 != 0 ==>
      (fp.fptr + wcnt) / 512 == fp.fptr / 512 && fp.sect == FileSector(fp.fs.geo, fp.Chain(), fp.fptr / 512)
  {
    hide *;
    RemSmall(fp.fptr / 512, fp.fs.geo.csize);
    SyncIfCached(fp);
    if n / 512 > 0 {
      wcnt := WriteSectors(fp, data, off, csect, s, n);
    } else {
      var growing := fp.fptr >= fp.objsize;
      fp.sect := s;
      wcnt := WritePartial(fp, data, off, n, growing);
    }
  }

  /** A round of `f_write` with the cursor on a sector boundary. */
  method WriteBoundary(fp: Fil, data: seq<byte>, off: nat, n: nat) returns (res: FResult, wcnt: nat)
    requires fp.Valid() && fp.fptr % 512 == 0 && 0 < n && off + n <= |data| && fp.fptr + n < 0x1_0000_0000
    modifies fp`sclust, fp`clust, fp`sect, fp`fptr, fp`objsize, fp.fs`disk, fp.fs`wflag, fp.fs`winsect, fp.fs.win
    modifies fp.fs`freeClst, fp.fs`lastClst, fp.fs`fsiFlag, fp.fs`chains
    ensures res == OK && fp.Valid() && KeepsOthers(fp)
    ensures wcnt <= n && fp.fptr == old(fp.fptr) + wcnt
    ensures wcnt == 0 ==> Full(Table(fp.fs)) && AtEnd(fp) && fp.Bytes() == old(fp.Bytes())
    ensures wcnt > 0 ==> fp.Bytes() == Overlay(old(fp.Bytes()), old(fp.fptr), data[off..off + wcnt])
    ensures Frugal(fp)
  {
    hide *;
    wcnt := 0;
    BoundaryOrSector(fp);
    var full: bool, csect: nat, s: nat;
    res, full, csect, s := WritePosition(fp);
    if res != OK || full {
      FrugalSame(fp);
      return;
    }
    OneMoreIs(fp);
    KeepsElim(fp);
    label placed:
    PowerOfTwoSize(fp.fs.geo);
    BytesAre(fp);
    wcnt := TransferBoundary(fp, data, off, n, csect, s);
    BytesAre(fp);
    GrewThenWrote(fp.fs.geo, old(fp.fs.chains), old(fp.sclust), old(fp.fs.Logical()),
                  fp.fs.chains, fp.sclust, old@placed(fp.fs.Logical()), fp.fs.Logical());
    KeepsIntro(fp);
    Finish(fp, wcnt, old(fp.Bytes()), data, off);
    FrugalOne(fp);
  }

  /** A round of `f_write` with the cursor inside a sector. */
  method WriteInside(fp: Fil, data: seq<byte>, off: nat, n: nat) returns (wcnt: nat)
    requires fp.Valid() && fp.fptr % 512 != 0 && 0 < n && off + n <= |data| && fp.fptr + n < 0x1_0000_0000
    modifies fp`fptr, fp`objsize, fp.fs`disk, fp.fs`wflag, fp.fs`winsect, fp.fs.win
    ensures fp.Valid() && KeepsOthers(fp) && Frugal(fp)
    ensures 0 < wcnt <= n && fp.fptr == old(fp.fptr) + wcnt
    ensures fp.Bytes() == Overlay(old(fp.Bytes()), old(fp.fptr), data[off..off + wcnt])
  {
    hide *;
    InsideSector(fp);
    BytesAre(fp);
    PowerOfTwoSize(fp.fs.geo);
    RemSmall(fp.fptr / 512, fp.fs.geo.csize);
    UnchangedGrew(fp.fs.geo, fp.fs.chains, fp.sclust, fp.fs.Logical());
    wcnt := WritePartial(fp, data, off, n, false);
    GrewThenWrote(fp.fs.geo, old(fp.fs.chains), old(fp.sclust), old(fp.fs.Logical()),
                  fp.fs.chains, fp.sclust, old(fp.fs.Logical()), fp.fs.Logical());
    KeepsIntro(fp);
    Finish(fp, wcnt, old(fp.Bytes()), data, off);
    FrugalSame(fp);
  }

  /** One round of the loop of `f_write`. Nothing is written only when the volume is full and the cursor
      at the end of the last cluster. */
  method WriteChunk(fp: Fil, data: seq<byte>, off: nat, n: nat) returns (res: FResult, wcnt: nat)
    requires fp.Valid() && 0 < n && off + n <= |data| && fp.fptr + n < 0x1_0000_0000
    modifies fp`sclust, fp`clust, fp`sect, fp`fptr, fp`objsize, fp.fs`disk, fp.fs`wflag, fp.fs`winsect, fp.fs.win
    modifies fp.fs`freeClst, fp.fs`lastClst, fp.fs`fsiFlag, fp.fs`chains
    ensures res == OK && fp.Valid() && KeepsOthers(fp)
    ensures wcnt <= n && fp.fptr == old(fp.fptr) + wcnt
    ensures wcnt == 0 ==> Full(Table(fp.fs)) && AtEnd(fp) && fp.Bytes() == old(fp.Bytes())
    ensures wcnt > 0 ==> fp.Bytes() == Overlay(old(fp.Bytes()), old(fp.fptr), data[off..off + wcnt])
    ensures Frugal(fp)
  {
    hide *;
    if fp.fptr % 512 == 0 {
      res, wcnt := WriteBoundary(fp, data, off, n);
    } else {
      res := OK;
      wcnt := WriteInside(fp, data, off, n);
    }
  }

  /** The transfer loop of `f_write`: it ends early only when the volume is full and the cursor
      at the end of the last cluster. */
  method WriteLoop(fp: Fil, data: seq<byte>, btw: nat) returns (res: FResult, bw: nat)
    requires fp.Valid() && btw <= |data| && fp.fptr + btw < 0x1_0000_0000
    modifies fp`sclust, fp`clust, fp`sect, fp`fptr, fp`objsize, fp.fs`disk, fp.fs`wflag, fp.fs`winsect, fp.fs.win
    modifies fp.fs`freeClst, fp.fs`lastClst, fp.fs`fsiFlag, fp.fs`chains
    ensures res == OK && fp.Valid() && KeepsOthers(fp) && Frugal(fp)
    ensures bw <= btw && fp.fptr == old(fp.fptr) + bw
    ensures bw < btw ==> Full(Table(fp.fs)) && AtEnd(fp)
    ensures fp.Bytes() == Overlay(old(fp.Bytes()), old(fp.fptr), data[..bw])
  {
    hide *;
    res, bw := OK, 0;
    var n: nat := btw;
    KeepsAll(fp);
    FrugalSame(fp);
    OverlayNothing(fp.Bytes(), fp.fptr);
    assert data[..0] == [];
    while n > 0
      invariant res == OK && fp.Valid() && KeepsOthers(fp) && Frugal(fp)
      invariant n + bw == btw && fp.fptr == old(fp.fptr) + bw
      invariant fp.Bytes() == Overlay(old(fp.Bytes()), old(fp.fptr), data[..bw])
    {
      KeepsElim(fp);
      FrugalIs(fp);
      label round:
      var wcnt: nat;
      res, wcnt := WriteChunk(fp, data, bw, n);
      KeepsElim@round(fp);
      FrugalIs@round(fp);
      GrewTrans(fp.fs.geo, old(fp.fs.chains), old(fp.sclust), old(fp.fs.Logical()),
                old@round(fp.fs.chains), old@round(fp.sclust), old@round(fp.fs.Logical()),
                fp.fs.chains, fp.sclust, fp.fs.Logical());
      KeepsIntro(fp);
      FrugalIs(fp);
      if res != OK || wcnt == 0 {
        return;
      }
      OverlayJoin(old(fp.Bytes()), old(fp.fptr), data, bw, bw + wcnt);
      n, bw := n - wcnt, bw + wcnt;
    }
  }

  /** How much of a request fits before the file size limit of 4 GiB - 1. */
  function WriteLimit(fptr: nat, btw: nat): nat {
    if (fptr + btw) % 0x1_0000_0000 < fptr && fptr <= 0xFFFF_FFFF then 0xFFFF_FFFF - fptr else btw
  }

  lemma LimitFits(fptr: nat, btw: nat)
    requires fptr < 0x1_0000_0000 && btw < 0x1_0000_0000
    ensures WriteLimit(fptr, btw) == if (fptr + btw) % 0x1_0000_0000 < fptr then 0xFFFF_FFFF - fptr else btw
    ensures WriteLimit(fptr, btw) <= btw && fptr + WriteLimit(fptr, btw) < 0x1_0000_0000
  {
  }

  lemma OverlaidStretch(b: seq<byte>, at: nat, data: seq<byte>)
    requires at <= |b|
    ensures at + |data| <= |Overlay(b, at, data)| && Overlay(b, at, data)[at..at + |data|] == data
  {
  }

  /** f_write: lays the data over the bytes at the cursor; a full volume takes exactly the prefix that
      fits the file's clusters. The file gets no cluster it does not write to. */
  method Write(fp: Fil, data: seq<byte>) returns (res: FResult, bw: nat)
    requires (fp.err == OK ==> fp.Valid()) && |data| < 0x1_0000_0000
    modifies fp`sclust, fp`clust, fp`sect, fp`fptr, fp`objsize, fp`modified, fp`err
    modifies fp.fs`disk, fp.fs`wflag, fp.fs`winsect, fp.fs.win
    modifies fp.fs`freeClst, fp.fs`lastClst, fp.fs`fsiFlag, fp.fs`chains
    ensures old(fp.err) != OK ==> res == old(fp.err) == fp.err && bw == 0
    ensures old(fp.err) == OK ==> fp.Valid() && KeepsOthers(fp) && Frugal(fp)
    ensures old(fp.err) == OK && !fp.canWrite ==>
      res == Denied && bw == 0 && fp.fptr == old(fp.fptr) && fp.Bytes() == old(fp.Bytes()) && fp.Chain() == old(fp.Chain())
    ensures old(fp.err) == OK && fp.canWrite ==>
      && res == OK && fp.modified
      && bw <= WriteLimit(old(fp.fptr), |data|) <= |data|
      && (bw < WriteLimit(old(fp.fptr), |data|) ==> Full(Table(fp.fs)) && AtEnd(fp))
      && fp.fptr == old(fp.fptr) + bw
      && fp.Bytes() == Overlay(old(fp.Bytes()), old(fp.fptr), data[..bw])
      && OnDrive(fp.fs.geo, fp.fs.Logical(), fp.Chain(), old(fp.fptr), data[..bw])
  {
    hide *;
    bw := 0;
    res := fp.err;
    if res != OK {
      return;
    }
    KeepsAll(fp);
    FrugalSame(fp);
    if !fp.canWrite {
      res := Denied;
      return;
    }
    SizeBound(fp);
    LimitFits(fp.fptr, |data|);
    var btw := |data|;
    if (fp.fptr + btw) % 0x1_0000_0000 < fp.fptr {
      btw := 0xFFFF_FFFF - fp.fptr;
    }
    res, bw := WriteLoop(fp, data, btw);
    FrugalIs(fp);
    fp.err := res;
    fp.modified := true;
    FrugalIs(fp);
    OverlaidStretch(old(fp.Bytes()), old(fp.fptr), data[..bw]);
    BytesOnDrive(fp, old(fp.fptr), data[..bw]);
  }

  lemma HeldFacts(fp: Fil)
    requires fp.Held() && fp.Chain() != []
    ensures VolumeOk(fp.fs) && fp.sclust != 0 && fp.sclust in fp.fs.chains && fp.Chain() == fp.fs.chains[fp.sclust]
    ensures IsChain(Table(fp.fs), fp.Chain())
  {
    hide Partition, IsChain;
    HeadOf(Table(fp.fs), fp.fs.chains, fp.sclust);
  }

  /** The cluster behind the `q`-th of a file, linked when the chain ends there. */
  method ExtendChain(fp: Fil, clst: nat, ghost q: nat) returns (ncl: nat)
    requires fp.Held() && q < |fp.Chain()| && fp.Chain()[q] == clst
    modifies fp.fs`disk, fp.fs`wflag, fp.fs`winsect, fp.fs.win
    modifies fp.fs`freeClst, fp.fs`lastClst, fp.fs`fsiFlag, fp.fs`chains
    ensures VolumeOk(fp.fs) && SameOutsideFat(fp.fs.geo, old(fp.fs.Logical()), fp.fs.Logical()) && KeepsOthers(fp)
    ensures fp.sclust in fp.fs.chains
    ensures |fp.Chain()| == |old(fp.Chain())| || q + 2 == |fp.Chain()|
    ensures ncl == 0 ==> Full(Table(fp.fs)) && q + 1 == |fp.Chain()|
    ensures ncl != 0 ==> 2 <= ncl < fp.fs.geo.nFatEnt && q + 1 < |fp.Chain()| && fp.Chain()[q + 1] == ncl
  {
    HeldFacts(fp);
    hide Partition, FreeCountOk, Fat, Table, Grew, FatFs.Valid, FatFs.Logical, VolumeOk, Full, WellFormed, SameOutsideFat;
    hide Fil.Held, Fil.Bytes, Clusters, IsChain;
    UnchangedGrew(fp.fs.geo, fp.fs.chains, fp.sclust, fp.fs.Logical());
    NothingChanged(fp.fs.geo, fp.fs.Logical());
    ncl := Allocate(fp.fs, clst, fp.sclust, q);
    if ncl != 0 && q + 1 == |old(fp.Chain())| {
      AllottedGrew(fp.fs.geo, old(fp.fs.chains), fp.sclust, old(fp.fs.Logical()), fp.sclust, ncl, fp.fs.Logical());
    }
  }

  twostate lemma StillHeld(fp: Fil)
    requires old(fp.Held()) && fp.fs.Valid() && fp.fs.Logical() == old(fp.fs.Logical())
    requires fp.fs.chains == old(fp.fs.chains) && fp.fs.freeClst == old(fp.fs.freeClst)
    requires fp.sclust == old(fp.sclust) && fp.objsize == old(fp.objsize) && fp.err == old(fp.err)
    ensures fp.Held()
  {
    hide Partition, Fat, CountFree, WellFormed, Clusters, Sectors;
  }

  /** One step of the cluster-following loop of `f_lseek`: the cluster behind the `q`-th. */
  method SeekStep(fp: Fil, clst: nat, ghost q: nat) returns (ncl: nat)
    requires fp.Held() && q < |fp.Chain()| && fp.Chain()[q] == clst
    requires !fp.canWrite ==> q + 1 < |fp.Chain()|
    modifies fp.fs`disk, fp.fs`wflag, fp.fs`winsect, fp.fs.win
    modifies fp.fs`freeClst, fp.fs`lastClst, fp.fs`fsiFlag, fp.fs`chains
    ensures fp.Held() && KeepsOthers(fp) && fp.Bytes() == old(fp.Bytes())
    ensures |fp.Chain()| == |old(fp.Chain())| || q + 2 == |fp.Chain()|
    ensures ncl == 0 ==> fp.canWrite && Full(Table(fp.fs)) && q + 1 == |fp.Chain()|
    ensures ncl != 0 ==> 2 <= ncl < fp.fs.geo.nFatEnt && q + 1 < |fp.Chain()| && fp.Chain()[q + 1] == ncl
  {
    hide *;
    HeldFacts(fp);
    if fp.canWrite {
      ncl := ExtendChain(fp, clst, q);
      GrownHeld(fp);
    } else {
      NextLink(Table(fp.fs), fp.Chain(), q);
      ncl := GetFat(fp.fs, clst);
      StillHeld(fp);
      SameBytes(fp);
      KeepsAll(fp);
    }
  }

  /** The cluster index a walk stands on. */
  ghost predicate OnCluster(fp: Fil, clst: nat, q: nat)
    reads fp`sclust, fp`clust, fp`fptr, fp.fs`chains
  {
    q < |fp.Chain()| && fp.Chain()[q] == clst == fp.clust && fp.fptr == 512 * Times(fp.fs.geo.csize, q)
  }

  twostate lemma ChainGrew(fp: Fil)
    requires old(fp.fs.Shaped()) && fp.fs.Shaped() && KeepsOthers(fp)
    ensures old(fp.Chain()) <= fp.Chain()
  {
    hide TouchesOnly;
  }

  lemma OnClusterIs(fp: Fil, clst: nat, q: nat)
    ensures OnCluster(fp, clst, q) <==>
      (q < |fp.Chain()| && fp.Chain()[q] == clst == fp.clust && fp.fptr == 512 * Times(fp.fs.geo.csize, q))
  {
  }

  /** The cluster-following loop of `f_lseek`. It stops at the cluster that holds the
      target, or behind the last cluster when the volume is full. */
  method SeekWalk(fp: Fil, clst0: nat, ofs0: nat, ghost q0: nat) returns (res: FResult, clst: nat, ofs: nat, ghost q: nat)
    requires fp.Held() && OnCluster(fp, clst0, q0) && 0 < ofs0
    requires !fp.canWrite ==> fp.fptr + ofs0 <= fp.objsize
    modifies fp`fptr, fp`clust, fp.fs`disk, fp.fs`wflag, fp.fs`winsect, fp.fs.win
    modifies fp.fs`freeClst, fp.fs`lastClst, fp.fs`fsiFlag, fp.fs`chains
    ensures res == OK && fp.Held() && KeepsOthers(fp) && fp.Bytes() == old(fp.Bytes())
    ensures |fp.Chain()| == |old(fp.Chain())| || q + 1 == |fp.Chain()|
    ensures ofs > 0 ==>
      OnCluster(fp, clst, q) && ofs <= 512 * fp.fs.geo.csize && fp.fptr + ofs == old(fp.fptr) + ofs0
    ensures ofs == 0 ==>
      (fp.canWrite && Full(Table(fp.fs)) && q + 1 == |fp.Chain()| && fp.clust == fp.Chain()[q]
       && fp.fptr == 512 * Times(fp.fs.geo.csize, q + 1) < old(fp.fptr) + ofs0)
  {
    hide *;
    res, clst, ofs, q := OK, clst0, ofs0, q0;
    var bcs := fp.fs.geo.csize * 512;
    PowerOfTwoSize(fp.fs.geo);
    KeepsAll(fp);
    while ofs > bcs
      invariant res == OK && fp.Held() && KeepsOthers(fp) && fp.Bytes() == old(fp.Bytes())
      invariant |fp.Chain()| == |old(fp.Chain())| || q + 1 == |fp.Chain()|
      invariant OnCluster(fp, clst, q) && 0 < ofs && fp.fptr + ofs == old(fp.fptr) + ofs0
    {
      OnClusterIs(fp, clst, q);
      TimesSucc(fp.fs.geo.csize, q);
      if !fp.canWrite {
        ClusterBeyond(fp.fs.geo, fp.Chain(), q, fp.fptr + ofs);
      }
      KeepsElim(fp);
      ofs := ofs - bcs;
      fp.fptr := fp.fptr + bcs;
      label step:
      clst := SeekStep(fp, clst, q);
      KeepsElim@step(fp);
      ChainGrew@step(fp);
      GrewTrans(fp.fs.geo, old(fp.fs.chains), old(fp.sclust), old(fp.fs.Logical()),
                old@step(fp.fs.chains), old@step(fp.sclust), old@step(fp.fs.Logical()),
                fp.fs.chains, fp.sclust, fp.fs.Logical());
      KeepsIntro(fp);
      if clst == 0 {
        ofs := 0;
        return;
      }
      if clst <= 1 || clst >= fp.fs.geo.nFatEnt {
        res := IntErr;
        return;
      }
      fp.clust := clst;
      q := q + 1;
      OnClusterIs(fp, clst, q);
    }
  }

  /** The cluster a seek to a position in the same or a later cluster starts from, and the
      offset of its first byte as the source computes it. */
  lemma ResumeSeek(g: Geometry, ch: seq<nat>, ifptr: nat, clust: nat, ofs: nat)
    requires Clusters(g, ch) && AtCluster(g, ch, ifptr, clust) && 0 < ifptr < 0x1_0000_0000 && 0 < ofs
    requires g.csize > 0 && (ofs - 1) / (g.csize * 512) >= (ifptr - 1) / (g.csize * 512)
    ensures var q, f := Quot(ifptr - 1, g.csize * 512), And(ifptr - 1, 0xFFFF_FFFF - (g.csize * 512 - 1));
            q < |ch| && 2 <= clust == ch[q] && f == 512 * Times(g.csize, q) && f < ofs
  {
    Regions(g);
    PowerOfTwoSize(g);
    hide *;
    DivMod(ofs - 1, 512 * g.csize);
    DivMod(ifptr - 1, 512 * g.csize);
    ResumePlace(g, ch, ifptr, clust);
    ChainCluster(g, ch, Quot(ifptr - 1, 512 * g.csize));
    BlockStartBelow(ofs - 1, ifptr - 1, 512 * g.csize);
    PowerOfTwoBytes(g.csize);
    AndNotMask(ifptr - 1, 512 * g.csize);
  }

  lemma NoChain(fp: Fil)
    requires fp.Held() && fp.sclust == 0
    ensures Sectors(fp.fs.geo, fp.Chain()) == 0 && fp.objsize == 0
  {
  }

  /** Where `f_lseek` starts its walk: at the current cluster when the target is in it or
      behind it, or else at the first cluster, allocated when the file has none. */
  method SeekStart(fp: Fil, ifptr: nat, ofs: nat) returns (res: FResult, clst: nat, rest: nat, ghost q: nat)
    requires fp.Held() && fp.fptr == 0 && AtCluster(fp.fs.geo, fp.Chain(), ifptr, fp.clust)
    requires ifptr < 0x1_0000_0000 && 0 < ofs && (!fp.canWrite ==> ofs <= fp.objsize)
    modifies fp`sclust, fp`fptr, fp`clust, fp.fs`disk, fp.fs`wflag, fp.fs`winsect, fp.fs.win
    modifies fp.fs`freeClst, fp.fs`lastClst, fp.fs`fsiFlag, fp.fs`chains
    ensures res == OK && fp.Held() && KeepsOthers(fp) && fp.Bytes() == old(fp.Bytes())
    ensures |fp.Chain()| == |old(fp.Chain())| || (q == 0 && |fp.Chain()| == 1 && clst != 0)
    ensures clst == 0 ==> fp.canWrite && Full(Table(fp.fs)) && fp.fptr == 0 == Sectors(fp.fs.geo, fp.Chain())
    ensures clst != 0 ==> OnCluster(fp, clst, q) && 0 < rest && fp.fptr + rest == ofs
  {
    hide *;
    res, rest, q := OK, ofs, 0;
    var bcs := fp.fs.geo.csize * 512;
    PowerOfTwoSize(fp.fs.geo);
    KeepsAll(fp);
    if ifptr > 0 && (ofs - 1) / bcs >= (ifptr - 1) / bcs {
      ResumeSeek(fp.fs.geo, fp.Chain(), ifptr, fp.clust, ofs);
      fp.fptr := And(ifptr - 1, 0xFFFF_FFFF - (bcs - 1));
      rest := ofs - fp.fptr;
      clst := fp.clust;
      q := Quot(ifptr - 1, bcs);
      OnClusterIs(fp, clst, q);
    } else {
      HeldParts(fp);
      clst := WriteFirst(fp);
      GrownHeld(fp);
      if clst == 0 {
        NoChain(fp);
      } else {
        ChainFacts(fp);
        TimesSucc(fp.fs.geo.csize, 0);
      }
      if clst == 1 {
        res := IntErr;
        return;
      }
      fp.clust := clst;
      OnClusterIs(fp, clst, q);
    }
  }

  /** A seek that found the volume full ends behind the last cluster. */
  ghost predicate SeekEndedFull(fp: Fil, ofs: nat)
    reads fp`canWrite, fp`fptr, fp`sclust, fp.fs`chains, fp.fs`disk, fp.fs`wflag, fp.fs`winsect, fp.fs.win
    requires fp.fs.Shaped()
  {
    && fp.canWrite && fp.fptr < ofs && Full(Table(fp.fs))
    && fp.fptr == 512 * Sectors(fp.fs.geo, fp.Chain())
  }

  lemma SeekEndedFullIs(fp: Fil, ofs: nat)
    requires fp.fs.Shaped()
    ensures SeekEndedFull(fp, ofs) <==>
      (fp.canWrite && fp.fptr < ofs && Full(Table(fp.fs)) && fp.fptr == 512 * Sectors(fp.fs.geo, fp.Chain()))
  {
    hide Full, Fat, Sectors;
  }

  /** The end of the movement inside the cluster that holds the target. */
  method SeekInside(fp: Fil, clst: nat, rest: nat, ghost q: nat) returns (res: FResult, nsect: nat)
    requires fp.Held() && OnCluster(fp, clst, q) && 0 < rest <= 512 * fp.fs.geo.csize
    modifies fp`fptr
    ensures res == OK && fp.Held() && fp.Bytes() == old(fp.Bytes()) && fp.fptr == old(fp.fptr) + rest
    ensures AtCluster(fp.fs.geo, fp.Chain(), fp.fptr, fp.clust) && AtSector(fp.fs.geo, fp.Chain(), fp.fptr, nsect)
    ensures fp.fptr <= 512 * Sectors(fp.fs.geo, fp.Chain())
  {
    hide *;
    PowerOfTwoSize(fp.fs.geo);
    HeldParts(fp);
    OnClusterIs(fp, clst, q);
    res, nsect := OK, 0;
    fp.fptr := fp.fptr + rest;
    if rest % 512 != 0 {
      ChainCluster(fp.fs.geo, fp.Chain(), q);
      nsect := ClusterToSector(fp.fs.geo, clst);
      if nsect == 0 {
        res := IntErr;
        return;
      }
      nsect := nsect + rest / 512;
    }
    SeekPlace(fp.fs.geo, fp.Chain(), q, rest, nsect);
  }

  /** The part of `f_lseek` for an offset other than 0. The cursor ends at the offset, or at
      the end of the chain when the volume is full. */
  method SeekTo(fp: Fil, ifptr: nat, ofs: nat) returns (res: FResult, nsect: nat)
    requires fp.Held() && fp.fptr == 0 && AtCluster(fp.fs.geo, fp.Chain(), ifptr, fp.clust)
    requires ifptr < 0x1_0000_0000 && 0 < ofs && (!fp.canWrite ==> ofs <= fp.objsize)
    modifies fp`sclust, fp`fptr, fp`clust, fp.fs`disk, fp.fs`wflag, fp.fs`winsect, fp.fs.win
    modifies fp.fs`freeClst, fp.fs`lastClst, fp.fs`fsiFlag, fp.fs`chains
    ensures res == OK && fp.Held() && KeepsOthers(fp) && fp.Bytes() == old(fp.Bytes()) && Frugal(fp)
    ensures AtCluster(fp.fs.geo, fp.Chain(), fp.fptr, fp.clust) && AtSector(fp.fs.geo, fp.Chain(), fp.fptr, nsect)
    ensures fp.fptr == ofs || SeekEndedFull(fp, ofs)
    ensures fp.fptr <= ofs && fp.fptr <= 512 * Sectors(fp.fs.geo, fp.Chain())
  {
    hide *;
    PowerOfTwoSize(fp.fs.geo);
    nsect := 0;
    var clst: nat, rest: nat;
    ghost var q: nat;
    res, clst, rest, q := SeekStart(fp, ifptr, ofs);
    if res != OK {
      return;
    }
    if clst == 0 {
      CursorAtStart(fp.fs.geo, fp.Chain(), fp.clust, nsect);
      SeekEndedFullIs(fp, ofs);
      FrugalIs(fp);
      return;
    }
    KeepsElim(fp);
    label started:
    res, clst, rest, q := SeekWalk(fp, clst, rest, q);
    KeepsElim@started(fp);
    ChainGrew@started(fp);
    GrewTrans(fp.fs.geo, old(fp.fs.chains), old(fp.sclust), old(fp.fs.Logical()),
              old@started(fp.fs.chains), old@started(fp.sclust), old@started(fp.fs.Logical()),
              fp.fs.chains, fp.sclust, fp.fs.Logical());
    KeepsIntro(fp);
    if res != OK {
      return;
    }
    if rest == 0 {
      TimesSucc(fp.fs.geo.csize, q);
      SectorsAre(fp.fs.geo, fp.Chain());
      SeekPlace(fp.fs.geo, fp.Chain(), q, 512 * fp.fs.geo.csize, nsect);
      SeekEndedFullIs(fp, ofs);
      FrugalIs(fp);
      return;
    }
    OnClusterIs(fp, clst, q);
    res, nsect := SeekInside(fp, clst, rest, q);
    FrugalIs(fp);
  }

  /** The cursor movement of `f_lseek`, before the size follows it. */
  method SeekMove(fp: Fil, ofs: nat) returns (res: FResult, nsect: nat)
    requires fp.Valid() && (!fp.canWrite ==> ofs <= fp.objsize)
    modifies fp`sclust, fp`fptr, fp`clust, fp.fs`disk, fp.fs`wflag, fp.fs`winsect, fp.fs.win
    modifies fp.fs`freeClst, fp.fs`lastClst, fp.fs`fsiFlag, fp.fs`chains
    ensures res == OK && fp.Held() && KeepsOthers(fp) && fp.Bytes() == old(fp.Bytes()) && Frugal(fp)
    ensures AtCluster(fp.fs.geo, fp.Chain(), fp.fptr, fp.clust) && AtSector(fp.fs.geo, fp.Chain(), fp.fptr, nsect)
    ensures fp.fptr == ofs || SeekEndedFull(fp, ofs)
    ensures fp.fptr <= ofs && fp.fptr <= 512 * Sectors(fp.fs.geo, fp.Chain())
  {
    hide *;
    ValidFacts(fp);
    HeldParts(fp);
    KeepsAll(fp);
    res, nsect := OK, 0;
    var ifptr := fp.fptr;
    fp.fptr := 0;
    if ofs > 0 {
      label moving:
      res, nsect := SeekTo(fp, ifptr, ofs);
      KeepsElim@moving(fp);
      KeepsIntro(fp);
      FrugalIs@moving(fp);
      FrugalIs(fp);
    } else {
      FrugalSame(fp);
      CursorAtStart(fp.fs.geo, fp.Chain(), fp.clust, nsect);
    }
  }

  /** The end of `f_lseek`: the size follows a cursor that went beyond it. */
  method SeekGrows(fp: Fil)
    requires fp.Held() && fp.fptr < 0x1_0000_0000 && fp.fptr <= 512 * Sectors(fp.fs.geo, fp.Chain())
    modifies fp`objsize, fp`modified
    ensures fp.Ready() && fp.objsize == SizeAfter(old(fp.objsize), fp.fptr)
    ensures fp.Bytes()[..old(fp.objsize)] == old(fp.Bytes())
    ensures fp.modified == (old(fp.modified) || fp.fptr > old(fp.objsize))
  {
    hide *;
    HeldParts(fp);
    SeekTargetIs(fp.objsize, true, 0);
    BytesAre(fp);
    ContentPrefix(fp.fs.geo, fp.fs.Logical(), fp.Chain(), fp.objsize, SizeAfter(fp.objsize, fp.fptr));
    if fp.fptr > fp.objsize {
      fp.objsize := fp.fptr;
      fp.modified := true;
    }
    SizedReady(fp);
    BytesAre(fp);
  }

  /** The rest of `f_lseek` once the cursor is moved. */
  method SeekEnd(fp: Fil, nsect: nat)
    requires fp.Held() && fp.fptr < 0x1_0000_0000 && fp.fptr <= 512 * Sectors(fp.fs.geo, fp.Chain())
    requires AtCluster(fp.fs.geo, fp.Chain(), fp.fptr, fp.clust) && AtSector(fp.fs.geo, fp.Chain(), fp.fptr, nsect)
    modifies fp`objsize, fp`modified, fp`sect
    ensures fp.Valid() && fp.objsize == SizeAfter(old(fp.objsize), fp.fptr)
    ensures fp.Bytes()[..old(fp.objsize)] == old(fp.Bytes())
    ensures fp.modified == (old(fp.modified) || fp.fptr > old(fp.objsize))
  {
    hide *;
    SeekGrows(fp);
    if fp.fptr % 512 != 0 && nsect != fp.sect {
      fp.sect := nsect;
    }
    SectorPlaced(fp.fs.geo, fp.Chain(), fp.fptr, nsect, fp.sect);
    Placed(fp);
  }

  /** f_lseek: the cursor moves to the offset, cut to the size of a file that is not open for
      writing. A file open for writing is stretched to the offset, or to the end of its chain
      when the volume is full; its old bytes stay. */
  method Seek(fp: Fil, ofs: nat) returns (res: FResult)
    requires (fp.err == OK ==> fp.Valid()) && ofs < 0x1_0000_0000
    modifies fp`sclust, fp`clust, fp`sect, fp`fptr, fp`objsize, fp`modified, fp`err
    modifies fp.fs`disk, fp.fs`wflag, fp.fs`winsect, fp.fs.win
    modifies fp.fs`freeClst, fp.fs`lastClst, fp.fs`fsiFlag, fp.fs`chains
    ensures old(fp.err) != OK ==> res == old(fp.err) == fp.err
    ensures old(fp.err) == OK ==>
      && res == OK && fp.Valid() && KeepsOthers(fp) && Frugal(fp)
      && (fp.fptr == SeekTarget(old(fp.objsize), fp.canWrite, ofs) || SeekEndedFull(fp, ofs))
      && fp.objsize == SizeAfter(old(fp.objsize), fp.fptr)
      && fp.Bytes()[..old(fp.objsize)] == old(fp.Bytes())
      && fp.modified == (old(fp.modified) || fp.fptr > old(fp.objsize))
  {
    hide *;
    res := fp.err;
    if res != OK {
      return;
    }
    HeldParts(fp);
    SeekTargetIs(fp.objsize, fp.canWrite, ofs);
    var t := ofs;
    if t > fp.objsize && !fp.canWrite {
      t := fp.objsize;
    }
    var nsect: nat;
    res, nsect := SeekMove(fp, t);
    FrugalIs(fp);
    fp.err := res;
    FrugalIs(fp);
    if res != OK {
      return;
    }
    SeekEndedFullIs(fp, t);
    SeekEndedFullIs(fp, ofs);
    SeekEnd(fp, nsect);
    FrugalIs(fp);
  }

  /** Whatever path led there, the current cluster of a file is the one its cursor's last byte
      lies in: `f_lseek` from the current cluster ends where a walk from the first would. */
  lemma CursorCluster(fp: Fil)
    requires fp.Valid() && fp.fptr > 0 && fp.fs.geo.csize > 0
    ensures Quot(fp.fptr - 1, 512 * fp.fs.geo.csize) < |fp.Chain()|
    ensures fp.clust == fp.Chain()[Quot(fp.fptr - 1, 512 * fp.fs.geo.csize)]
  {
    hide *;
    ValidFacts(fp);
    ResumePlace(fp.fs.geo, fp.Chain(), fp.fptr, fp.clust);
  }
}
