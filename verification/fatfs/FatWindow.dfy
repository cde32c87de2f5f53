/** The one-sector write-back window over the drive (`sync_window`, `move_window`, `sync_fs`). */
module FatWindow {
  import opened Arith
  import opened FatTypes

  const INVALID_SECTOR: nat := 0xFFFF_FFFF
  const UNKNOWN: nat := 0xFFFF_FFFF

  /** A sector stored through the window: a sector of the first FAT also reaches its copy. */
  function Store(g: Geometry, d: Disk, s: nat, w: Sector): (r: Disk)
    requires |d| == g.total && s < g.total
    ensures |r| == |d|
    ensures forall k :: 0 <= k < |d| ==>
      r[k] == if k == s || (g.nFats == 2 && InFirstFat(g, s) && k == s + g.fsize) then w else d[k]
  {
    if g.nFats == 2 && InFirstFat(g, s) then d[s := w][s + g.fsize := w] else d[s := w]
  }

  /** Part of a sector stored through the window. */
  function Put(g: Geometry, d: Disk, s: nat, off: nat, data: seq<byte>): (r: Disk)
    requires |d| == g.total && s < g.total && off + |data| <= 512
    ensures |r| == |d|
  {
    Store(g, d, s, Splice(d[s], off, data))
  }

  /** The two copies of the table agree. */
  ghost predicate Mirrored(g: Geometry, d: Disk)
    requires |d| == g.total
  {
    g.nFats == 2 ==> forall s: nat {:trigger InFirstFat(g, s)} :: InFirstFat(g, s) ==> d[s + g.fsize] == d[s]
  }

  lemma StoreKeepsMirror(g: Geometry, d: Disk, s: nat, w: Sector)
    requires |d| == g.total && s < g.total && !InSecondFat(g, s)
    requires Mirrored(g, d)
    ensures Mirrored(g, Store(g, d, s, w))
  {
    hide Store, PowerOfTwo, TableBytes, MaxEntries;
    var r := Store(g, d, s, w);
    if g.nFats == 2 {
      forall k: nat | InFirstFat(g, k)
        ensures r[k + g.fsize] == r[k]
      {
        assert d[k + g.fsize] == d[k];
      }
    }
  }

  class FatFs {
    const geo: Geometry
    const win: array<byte>
    var disk: Disk           // the drive behind disk_read and disk_write
    var wflag: bool          // the window is dirty
    var winsect: nat         // sector appearing in the window
    var freeClst: nat        // cached number of free clusters; above nFatEnt - 2 when unknown
    var lastClst: nat        // last allocated cluster
    var fsiFlag: bv8         // b7: FSInfo disabled, b0: FSInfo to be written
    ghost var chains: map<nat, seq<nat>>  // the live cluster chains by their first cluster

    /** Everything but the window's content being that of its sector. */
    ghost predicate Shaped()
      reads this`disk, this`wflag, this`winsect
      ensures Shaped() ==> |disk| == geo.total
    {
      && win.Length == 512
      && |disk| == geo.total
      && winsect < 0x1_0000_0000
      && Mirrored(geo, disk)
      && (wflag ==> winsect < geo.total && !InSecondFat(geo, winsect))
    }

    ghost predicate Valid()
      reads this`disk, this`wflag, this`winsect, win
      ensures Valid() ==> Shaped()
    {
      && Shaped()
      && (!wflag && winsect < geo.total ==> win[..] == disk[winsect])
    }

    /** The drive as the file system sees it: the window on top when it is dirty. */
    ghost function Logical(): (d: Disk)
      reads this`disk, this`wflag, this`winsect, win
      requires Shaped()
      ensures |d| == geo.total
    {
      if wflag then Store(geo, disk, winsect, win[..]) else disk
    }

    constructor (g: Geometry, d: Disk)
      requires |d| == g.total && Mirrored(g, d)
      ensures Valid() && geo == g && Logical() == d && fresh(win)
      ensures !wflag && winsect == INVALID_SECTOR
      ensures freeClst == UNKNOWN && lastClst == UNKNOWN && chains == map[]
    {
      geo := g;
      win := new byte[512](i => 0);
      disk := d;
      wflag, winsect := false, INVALID_SECTOR;
      freeClst, lastClst := UNKNOWN, UNKNOWN;
      fsiFlag := 0x80;
      chains := map[];
    }

    /** One sector written by the driver. */
    method DiskWrite(buff: Sector, sect: nat)
      requires sect < |disk|
      modifies this`disk
      ensures disk == old(disk)[sect := buff]
    {
      disk := disk[sect := buff];
    }

    method SyncWindow()
      requires Shaped()
      modifies this`disk, this`wflag
      ensures Shaped() && !wflag
      ensures old(Valid()) || old(wflag) ==> Valid()
      ensures Logical() == old(Logical()) == disk
    {
      if wflag {
        StoreKeepsMirror(geo, disk, winsect, win[..]);
        DiskWrite(win[..], winsect);
        wflag := false;
        Sub32IsInterval(winsect, geo.fatBase, geo.fsize);
        if Sub32(winsect, geo.fatBase) < geo.fsize {
          if geo.nFats == 2 {
            DiskWrite(win[..], winsect + geo.fsize);
          }
        }
      }
    }

    method CopyToWindow(data: Sector)
      requires win.Length == 512
      modifies win
      ensures win[..] == data
    {
      forall i | 0 <= i < 512 {
        win[i] := data[i];
      }
    }

    /** Brings a sector into the window; does nothing when it is there already. */
    method MoveWindow(sect: nat)
      requires Shaped() && sect < geo.total && (sect == winsect || Valid())
      modifies this`disk, this`wflag, this`winsect, win
      ensures Shaped() && winsect == sect
      ensures Logical() == old(Logical())
      ensures old(Valid()) ==> Valid() && win[..] == Logical()[sect]
      ensures sect == old(winsect) ==> wflag == old(wflag) && win[..] == old(win[..])
    {
      if sect != winsect {
        SyncWindow();
        CopyToWindow(disk[sect]);
        winsect := sect;
      }
    }

    /** The window taken for a sector without loading it, for a writer that will fill it. The
        window is then neither dirty nor a copy of its sector. */
    method ClaimWindow(sect: nat)
      requires Valid() && sect < geo.total
      modifies this`disk, this`wflag, this`winsect
      ensures Shaped() && winsect == sect && !wflag
      ensures Logical() == old(Logical())
    {
      SyncWindow();
      winsect := sect;
    }

    /** The cached numbers are as before, or FSInfo is to be updated. */
    twostate predicate Noted()
      reads this`freeClst, this`lastClst, this`fsiFlag
    {
      || fsiFlag == old(fsiFlag) | 1
      || (fsiFlag == old(fsiFlag) && freeClst == old(freeClst) && lastClst == old(lastClst))
    }

    /** A new cached free-cluster count; FSInfo is to be updated. */
    method SetFree(n: nat)
      requires Valid()
      modifies this`freeClst, this`fsiFlag
      ensures Valid() && Logical() == old(Logical())
      ensures freeClst == n && fsiFlag == old(fsiFlag) | 1
    {
      freeClst := n;
      fsiFlag := fsiFlag | 1;
    }

    /** A store into the window that marks it dirty: the byte, word, dword and block
        stores of the source, each followed by setting `wflag`. */
    method Poke(off: nat, data: seq<byte>)
      requires Shaped() && winsect < geo.total && !InSecondFat(geo, winsect)
      requires off + |data| <= 512
      modifies this`wflag, win
      ensures Valid() && wflag
      ensures win[..] == Splice(old(win[..]), off, data)
      ensures Logical() == Store(geo, old(Logical()), winsect, win[..])
      ensures old(Valid()) ==> Logical() == Put(geo, old(Logical()), winsect, off, data)
    {
      forall i | 0 <= i < |data| {
        win[off + i] := data[i];
      }
      wflag := true;
    }
  }
}
