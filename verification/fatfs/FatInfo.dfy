/** Flushing the volume (`sync_fs`) and the FSInfo sector of FAT32 that carries the free count
    to the next mount. */
module FatInfo {
  import opened FatTypes
  import opened FatCodec
  import opened FatWindow
  import opened FatTable
  import opened ChainSpec
  import opened FatAlloc
  import opened FatVolume
  import opened DirTable

  const LEAD_SIG: nat := 0x41615252
  const STRUC_SIG: nat := 0x61417272

  /** The FSInfo sector for a free count and a last allocated cluster. */
  function InfoSector(free: nat, last: nat): Sector {
    var z: Sector := seq(512, i => 0);
    var a: Sector := Splice(z, 510, StWord(0xAA55));
    var b: Sector := Splice(a, 0, StDword(LEAD_SIG));
    var c: Sector := Splice(b, 484, StDword(STRUC_SIG));
    var d: Sector := Splice(c, 488, StDword(free));
    Splice(d, 492, StDword(last))
  }

  /** What mounting takes from a sector: the two numbers if the three signatures are there. */
  function ReadInfo(w: Sector): Option<(nat, nat)> {
    if LdWord(w, 510) == 0xAA55 && LdDword(w, 0) == LEAD_SIG && LdDword(w, 484) == STRUC_SIG
    then Some((LdDword(w, 488), LdDword(w, 492))) else None
  }

  lemma SpliceElsewhere(b: seq<byte>, i: nat, v: seq<byte>, j: nat)
    requires i + |v| <= |b| && j + 4 <= |b| && (j + 4 <= i || i + |v| <= j)
    ensures LdDword(Splice(b, i, v), j) == LdDword(b, j)
  {
    var r := Splice(b, i, v);
    assert r[j] == b[j] && r[j + 1] == b[j + 1] && r[j + 2] == b[j + 2] && r[j + 3] == b[j + 3];
  }

  lemma WordElsewhere(b: seq<byte>, i: nat, v: seq<byte>, j: nat)
    requires i + |v| <= |b| && j + 2 <= |b| && (j + 2 <= i || i + |v| <= j)
    ensures LdWord(Splice(b, i, v), j) == LdWord(b, j)
  {
    var r := Splice(b, i, v);
    assert r[j] == b[j] && r[j + 1] == b[j + 1];
  }

  /** Mounting reads back what was flushed. */
  lemma InfoRoundTrip(free: nat, last: nat)
    requires free < 0x1_0000_0000 && last < 0x1_0000_0000
    ensures ReadInfo(InfoSector(free, last)) == Some((free, last))
  {
    var z: Sector := seq(512, i => 0);
    var a: Sector := Splice(z, 510, StWord(0xAA55));
    var b: Sector := Splice(a, 0, StDword(LEAD_SIG));
    var c: Sector := Splice(b, 484, StDword(STRUC_SIG));
    var d: Sector := Splice(c, 488, StDword(free));
    var e: Sector := Splice(d, 492, StDword(last));
    assert LdWord(a, 510) == 0xAA55 by {
      assert a[510] == StWord(0xAA55)[0] && a[511] == StWord(0xAA55)[1];
    }
    hide LdDword, LdWord, StDword, StWord, Splice;
    WordElsewhere(a, 0, StDword(LEAD_SIG), 510);
    WordElsewhere(b, 484, StDword(STRUC_SIG), 510);
    WordElsewhere(c, 488, StDword(free), 510);
    WordElsewhere(d, 492, StDword(last), 510);
    LoadStoreDword(a, 0, LEAD_SIG);
    SpliceElsewhere(b, 484, StDword(STRUC_SIG), 0);
    SpliceElsewhere(c, 488, StDword(free), 0);
    SpliceElsewhere(d, 492, StDword(last), 0);
    LoadStoreDword(b, 484, STRUC_SIG);
    SpliceElsewhere(c, 488, StDword(free), 484);
    SpliceElsewhere(d, 492, StDword(last), 484);
    LoadStoreDword(c, 488, free);
    SpliceElsewhere(d, 492, StDword(last), 488);
    LoadStoreDword(d, 492, last);
  }

  /** A sector in front of the tables takes no part in them. */
  lemma ReservedSector(g: Geometry, d: Disk, w: Sector)
    requires |d| == g.total && Mirrored(g, d) && g.fsType.Fat32?
    ensures 0 <= g.volBase + 1 < g.total && !InFatArea(g, g.volBase + 1)
    ensures Mirrored(g, d[g.volBase + 1 := w]) && Fat(g, d[g.volBase + 1 := w]) == Fat(g, d)
  {
    Regions(g);
    var s, d' := g.volBase + 1, d[g.volBase + 1 := w];
    assert s < g.fatBase;
    hide WellFormed, Fat;
    TableFrame(g, d, d');
    if g.nFats == 2 {
      forall k: nat {:trigger InFirstFat(g, k)} | InFirstFat(g, k)
        ensures d'[k + g.fsize] == d'[k]
      {
        assert d[k + g.fsize] == d[k];
      }
    }
  }

  /** The flushed sector byte by byte: the signatures "RRaA" at 0, "rrAa" at 484 and 55 AA at 510, the free
      count at 488 and the last allocated cluster at 492, zeros elsewhere. */
  lemma InfoBytes(free: nat, last: nat, i: nat)
    requires i < 512
    ensures InfoSector(free, last)[i] as int ==
            if i == 0 || i == 1 then 0x52
            else if i == 2 then 0x61
            else if i == 3 then 0x41
            else if i == 484 || i == 485 then 0x72
            else if i == 486 then 0x41
            else if i == 487 then 0x61
            else if i == 488 then free % 0x100
            else if i == 489 then free / 0x100 % 0x100
            else if i == 490 then free / 0x1_0000 % 0x100
            else if i == 491 then free / 0x100_0000 % 0x100
            else if i == 492 then last % 0x100
            else if i == 493 then last / 0x100 % 0x100
            else if i == 494 then last / 0x1_0000 % 0x100
            else if i == 495 then last / 0x100_0000 % 0x100
            else if i == 510 then 0x55
            else if i == 511 then 0xAA
            else 0
  {
    StoreDigits(free);
    StoreDigits(last);
    hide LdWord, LdDword;
  }

  lemma SignatureDigits(w: Sector, i: nat)
    requires i + 4 <= 512
    ensures LdDword(w, i) == 0x41615252 <==> w[i] == 0x52 && w[i + 1] == 0x52 && w[i + 2] == 0x61 && w[i + 3] == 0x41
    ensures LdDword(w, i) == 0x61417272 <==> w[i] == 0x72 && w[i + 1] == 0x72 && w[i + 2] == 0x41 && w[i + 3] == 0x61
  {
    LoadDigits(w, i);
  }

  /** What mounting makes of an FSInfo sector. */
  function Loaded(w: Sector): (nat, nat) {
    match ReadInfo(w)
    case Some(p) => p
    case None => (UNKNOWN, UNKNOWN)
  }

  /** Mounting takes the numbers from these places if the signatures are there, else none are known. */
  lemma LoadedBytes(w: Sector)
    ensures var signed := && w[0] == 0x52 && w[1] == 0x52 && w[2] == 0x61 && w[3] == 0x41
                          && w[484] == 0x72 && w[485] == 0x72 && w[486] == 0x41 && w[487] == 0x61
                          && w[510] == 0x55 && w[511] == 0xAA;
            Loaded(w) == if signed then (DwordAt(w, 488), DwordAt(w, 492)) else (0xFFFF_FFFF, 0xFFFF_FFFF)
  {
    LoadDigits(w, 0);
    LoadDigits(w, 484);
    LoadDigits(w, 510);
    SignatureDigits(w, 0);
    SignatureDigits(w, 484);
    hide LdDword;
    LoadsAre(w, 488);
    LoadsAre(w, 492);
  }

  /** The boot sector says that the volume has an FSInfo sector (BPB_FSInfo32). */
  ghost predicate HasInfo(fs: FatFs)
    reads fs`disk, fs`wflag, fs`winsect, fs.win
    requires fs.Shaped()
  {
    fs.geo.fsType.Fat32? && LdWord(fs.Logical()[fs.geo.volBase], 48) == 1
  }

  /** BPB_FSInfo32 is the word at 48 of the boot sector. */
  lemma HasInfoBytes(fs: FatFs)
    requires fs.Shaped()
    ensures fs.geo.volBase < |fs.Logical()|
    ensures HasInfo(fs) <==>
      fs.geo.fsType.Fat32? && fs.Logical()[fs.geo.volBase][48] == 1 && fs.Logical()[fs.geo.volBase][49] == 0
  {
    Regions(fs.geo);
    hide WellFormed, FatFs.Shaped, FatFs.Logical;
  }

  /** The FSInfo sector made in the window and written. */
  method WriteInfo(fs: FatFs)
    requires fs.Valid() && !fs.wflag && fs.geo.fsType.Fat32?
    modifies fs`disk, fs`winsect, fs.win
    ensures fs.Valid() && !fs.wflag
    ensures fs.geo.volBase + 1 < fs.geo.total
    ensures fs.disk == old(fs.disk)[fs.geo.volBase + 1 := InfoSector(fs.freeClst, fs.lastClst)]
    ensures Fat(fs.geo, fs.Logical()) == Fat(fs.geo, old(fs.Logical()))
  {
    ReservedSector(fs.geo, fs.disk, InfoSector(fs.freeClst, fs.lastClst));
    hide WellFormed, Fat, InfoSector, Mirrored;
    fs.CopyToWindow(InfoSector(fs.freeClst, fs.lastClst));
    fs.winsect := fs.geo.volBase + 1;
    fs.DiskWrite(fs.win[..], fs.winsect);
  }

  lemma CleanIsDisk(fs: FatFs)
    requires fs.Shaped() && !fs.wflag
    ensures fs.Logical() == fs.disk && Mirrored(fs.geo, fs.disk)
  {
  }

  twostate lemma VolumeStays(fs: FatFs)
    requires old(VolumeOk(fs)) && fs.Valid() && Fat(fs.geo, fs.Logical()) == Fat(fs.geo, old(fs.Logical()))
    requires fs.chains == old(fs.chains) && fs.freeClst == old(fs.freeClst)
    ensures VolumeOk(fs)
  {
    hide Partition, Fat, CountFree, WellFormed, FatFs.Logical, FatFs.Valid;
  }

  /** sync_fs: afterwards the drive itself is what the file system sees, and FSInfo is current. */
  method SyncFs(fs: FatFs) returns (res: FResult)
    requires VolumeOk(fs)
    modifies fs`disk, fs`wflag, fs`winsect, fs.win, fs`fsiFlag
    ensures res == OK && VolumeOk(fs) && !fs.wflag && fs.disk == fs.Logical()
    ensures Fat(fs.geo, fs.Logical()) == Fat(fs.geo, old(fs.Logical()))
    ensures if old(fs.fsiFlag) == 1 && fs.geo.fsType.Fat32?
            then fs.fsiFlag == 0 && fs.geo.volBase + 1 < fs.geo.total
                 && fs.disk == old(fs.Logical())[fs.geo.volBase + 1 := InfoSector(fs.freeClst, fs.lastClst)]
            else fs.disk == old(fs.Logical()) && fs.fsiFlag == old(fs.fsiFlag)
  {
    hide *;
    fs.SyncWindow();
    if fs.geo.fsType.Fat32? && fs.fsiFlag == 1 {
      CleanIsDisk(fs);
      WriteInfo(fs);
      fs.fsiFlag := 0;
    }
    CleanIsDisk(fs);
    VolumeStays(fs);
    res := OK;
  }

  /** The cached numbers and FSInfo: without the sector they stay with the mount; with it, unless it is to be
      written, the sector holds them. */
  ghost predicate InfoOk(fs: FatFs)
    reads fs`disk, fs`wflag, fs`winsect, fs.win, fs`freeClst, fs`lastClst, fs`fsiFlag
    requires fs.Shaped()
  {
    if !HasInfo(fs) then fs.fsiFlag == 0x80 || fs.fsiFlag == 0x81
    else
      && (fs.fsiFlag == 0 || fs.fsiFlag == 1) && fs.geo.volBase + 1 < fs.geo.total
      && (fs.fsiFlag == 0 ==> (fs.freeClst, fs.lastClst) == Loaded(fs.Logical()[fs.geo.volBase + 1]))
  }

  lemma BootSector(g: Geometry)
    ensures g.volBase < g.total && !InFatArea(g, g.volBase)
    ensures g.fsType.Fat32? ==> g.volBase + 1 < g.total && !InFatArea(g, g.volBase + 1)
  {
    Regions(g);
  }

  /** Allocating, freeing and counting keep it. */
  twostate lemma NotedKeeps(fs: FatFs)
    requires old(fs.Shaped()) && fs.Shaped() && old(InfoOk(fs)) && fs.Noted()
    requires SameOutsideFat(fs.geo, old(fs.Logical()), fs.Logical())
    ensures InfoOk(fs)
  {
    BootSector(fs.geo);
    hide WellFormed, Loaded, LdWord, FatFs.Shaped, FatFs.Logical, InFatArea;
  }

  /** The numbers of the FSInfo sector, if it has its signatures. */
  method TakeInfo(fs: FatFs)
    requires fs.Valid() && fs.geo.fsType.Fat32? && fs.freeClst == fs.lastClst == UNKNOWN
    modifies fs`disk, fs`wflag, fs`winsect, fs.win, fs`freeClst, fs`lastClst, fs`fsiFlag
    ensures fs.Valid() && fs.Logical() == old(fs.Logical()) && fs.fsiFlag == 0 && fs.geo.volBase + 1 < fs.geo.total
    ensures (fs.freeClst, fs.lastClst) == Loaded(fs.Logical()[fs.geo.volBase + 1])
  {
    BootSector(fs.geo);
    hide WellFormed, LdWord, LdDword, InFatArea;
    fs.MoveWindow(fs.geo.volBase + 1);
    fs.fsiFlag := 0;
    var w := fs.win[..];
    if LdWord(w, 510) == 0xAA55 && LdDword(w, 0) == LEAD_SIG && LdDword(w, 484) == STRUC_SIG {
      fs.freeClst := LdDword(w, 488);
      fs.lastClst := LdDword(w, 492);
    }
  }

  /** The part of mounting that takes the cached numbers from FSInfo. */
  method LoadInfo(fs: FatFs)
    requires fs.Valid()
    modifies fs`disk, fs`wflag, fs`winsect, fs.win, fs`freeClst, fs`lastClst, fs`fsiFlag
    ensures fs.Valid() && fs.Logical() == old(fs.Logical()) && fs.geo.volBase + 1 <= fs.geo.total
    ensures HasInfo(fs) ==>
      && fs.fsiFlag == 0 && fs.geo.volBase + 1 < fs.geo.total
      && (fs.freeClst, fs.lastClst) == Loaded(fs.Logical()[fs.geo.volBase + 1])
    ensures !HasInfo(fs) ==> fs.fsiFlag == 0x80 && fs.freeClst == fs.lastClst == UNKNOWN
    ensures InfoOk(fs)
  {
    BootSector(fs.geo);
    hide WellFormed, LdWord, Loaded, InFatArea;
    fs.freeClst, fs.lastClst := UNKNOWN, UNKNOWN;
    fs.fsiFlag := 0x80;
    fs.MoveWindow(fs.geo.volBase);
    if fs.geo.fsType.Fat32? && LdWord(fs.win[..], 48) == 1 {
      TakeInfo(fs);
    }
  }

  lemma SameCount(fs: FatFs, again: FatFs)
    requires VolumeOk(fs) && again.Shaped() && again.geo == fs.geo && again.Logical() == fs.Logical()
    requires again.freeClst == fs.freeClst || again.freeClst == UNKNOWN
    ensures Table(again) == Table(fs) && FreeCountOk(again)
  {
    hide Fat, CountFree, Partition;
  }

  twostate lemma TableIs(fs: FatFs)
    requires old(fs.Shaped()) && fs.Shaped() && Fat(fs.geo, fs.Logical()) == Fat(fs.geo, old(fs.Logical()))
    ensures Table(fs) == old(Table(fs))
  {
    hide Fat;
  }

  /** The boot sector under the write of FSInfo. */
  lemma BootStays(g: Geometry, d: Disk, w: Sector)
    requires |d| == g.total && g.fsType.Fat32? && g.volBase + 1 < g.total
    ensures d[g.volBase + 1 := w][g.volBase] == d[g.volBase] && d[g.volBase + 1 := w][g.volBase + 1] == w
  {
  }

  lemma LoadedInfo(free: nat, last: nat)
    requires free < 0x1_0000_0000 && last < 0x1_0000_0000
    ensures Loaded(InfoSector(free, last)) == (free, last)
  {
    InfoRoundTrip(free, last);
    hide InfoSector, ReadInfo;
  }

  /** The flush leaves the boot sector, and FSInfo with the cached numbers. */
  method Flush(fs: FatFs) returns (res: FResult)
    requires VolumeOk(fs) && InfoOk(fs) && fs.freeClst < 0x1_0000_0000 && fs.lastClst < 0x1_0000_0000
    modifies fs`disk, fs`wflag, fs`winsect, fs.win, fs`fsiFlag
    ensures res == OK && VolumeOk(fs) && !fs.wflag && fs.disk == fs.Logical() && InfoOk(fs)
    ensures Fat(fs.geo, fs.Logical()) == Fat(fs.geo, old(fs.Logical())) && HasInfo(fs) == old(HasInfo(fs))
    ensures HasInfo(fs) ==> fs.fsiFlag == 0
  {
    BootSector(fs.geo);
    LoadedInfo(fs.freeClst, fs.lastClst);
    if fs.geo.fsType.Fat32? {
      BootStays(fs.geo, fs.Logical(), InfoSector(fs.freeClst, fs.lastClst));
    }
    hide WellFormed, Loaded, LdWord, FatFs.Logical, InFatArea, InfoSector, Fat, VolumeOk;
    res := SyncFs(fs);
  }

  lemma SameInfo(fs: FatFs, again: FatFs)
    requires fs.Shaped() && again.Shaped() && again.geo == fs.geo && again.Logical() == fs.Logical() && InfoOk(fs)
    requires InfoOk(again) && (HasInfo(fs) ==> fs.fsiFlag == 0) && (HasInfo(again) ==> again.fsiFlag == 0)
    ensures HasInfo(again) == HasInfo(fs)
    ensures HasInfo(fs) ==> again.freeClst == fs.freeClst && again.lastClst == fs.lastClst
  {
    hide WellFormed, Loaded, LdWord, FatFs.Logical, FatFs.Shaped;
  }

  /** A flushed volume mounted again, whatever was due: the cached numbers are the same if the volume has an
      FSInfo sector, and unknown if not. Either way a cached count is still the number of free clusters, so
      allocation and `f_getfree` may go on using it. */
  method FlushAndMount(fs: FatFs) returns (again: FatFs)
    requires VolumeOk(fs) && InfoOk(fs) && fs.freeClst < 0x1_0000_0000 && fs.lastClst < 0x1_0000_0000
    modifies fs`disk, fs`wflag, fs`winsect, fs.win, fs`fsiFlag
    ensures VolumeOk(fs) && again.Valid() && again.geo == fs.geo && again.Logical() == fs.disk
    ensures HasInfo(again) == old(HasInfo(fs)) && InfoOk(again)
    ensures (again.freeClst, again.lastClst) ==
            if HasInfo(again) then (old(fs.freeClst), old(fs.lastClst)) else (UNKNOWN, UNKNOWN)
    ensures Table(again) == old(Table(fs)) && FreeCountOk(again)
  {
    hide *;
    var res := Flush(fs);
    CleanIsDisk(fs);
    again := new FatFs(fs.geo, fs.disk);
    LoadInfo(again);
    SameInfo(fs, again);
    SameCount(fs, again);
    TableIs(fs);
  }
}
