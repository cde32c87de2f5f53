/** The file allocation table as a sequence of entries (`get_fat`, `put_fat`). */
module FatTable {
  import opened Arith
  import opened FatTypes
  import opened FatCodec
  import opened FatWindow

  datatype FResult = OK | IntErr | Denied | NoFile | Exist

  /** The first table as bytes. */
  function FatArea(g: Geometry, d: Disk): (r: seq<byte>)
    requires |d| == g.total
    ensures |r| == g.fsize * 512
  {
    seq(g.fsize * 512, i requires 0 <= i < g.fsize * 512 => d[g.fatBase + i / 512][i % 512])
  }

  lemma Fits12(c: nat, n: nat, fsize: nat)
    requires c < n && n * 3 / 2 + n % 2 <= fsize * 512
    ensures c + c / 2 + 2 <= fsize * 512
  {
  }

  lemma Fits16(c: nat, n: nat, fsize: nat)
    requires c < n && n * 2 <= fsize * 512
    ensures c * 2 + 2 <= fsize * 512 && c * 2 % 512 + 2 <= 512
  {
  }

  lemma Fits32(c: nat, n: nat, fsize: nat)
    requires c < n && n * 4 <= fsize * 512
    ensures c * 4 + 4 <= fsize * 512 && c * 4 % 512 + 4 <= 512
  {
  }

  /** The bytes of an entry lie in the table, and those of FAT16 and FAT32 in one sector. */
  lemma EntryFits(g: Geometry, c: nat)
    requires c < g.nFatEnt
    ensures EntryOffset(g.fsType, c) + (if g.fsType.Fat32? then 4 else 2) <= g.fsize * 512
    ensures !g.fsType.Fat12? ==> EntryOffset(g.fsType, c) % 512 + (if g.fsType.Fat32? then 4 else 2) <= 512
  {
    match g.fsType
    case Fat12 => Fits12(c, g.nFatEnt, g.fsize);
    case Fat16 => Fits16(c, g.nFatEnt, g.fsize);
    case Fat32 => Fits32(c, g.nFatEnt, g.fsize);
  }

  /** The value of a table entry. */
  function Entry(g: Geometry, d: Disk, c: nat): (r: nat)
    requires |d| == g.total && c < g.nFatEnt
    ensures r < EntryRange(g.fsType)
  {
    EntryFits(g, c);
    GetEntry(g.fsType, FatArea(g, d), c)
  }

  /** The table: one value per entry. */
  function Fat(g: Geometry, d: Disk): (r: seq<nat>)
    requires |d| == g.total
    ensures |r| == g.nFatEnt
  {
    seq(g.nFatEnt, c requires 0 <= c < g.nFatEnt => Entry(g, d, c))
  }

  /** The volume's table as the file system sees it. */
  ghost function Table(fs: FatFs): (r: seq<nat>)
    reads fs`disk, fs`wflag, fs`winsect, fs.win
    requires fs.Shaped()
    ensures |r| == fs.geo.nFatEnt >= 3
  {
    Fat(fs.geo, fs.Logical())
  }

  /** The table depends on the sectors of the first FAT only. */
  lemma TableFrame(g: Geometry, d: Disk, d': Disk)
    requires |d| == |d'| == g.total && forall s: nat :: InFirstFat(g, s) && s < g.total ==> d'[s] == d[s]
    ensures Fat(g, d') == Fat(g, d)
  {
    Regions(g);
    hide WellFormed, GetEntry;
    assert FatArea(g, d') == FatArea(g, d) by {
      forall i | 0 <= i < g.fsize * 512
        ensures FatArea(g, d')[i] == FatArea(g, d)[i]
      {
        assert InFirstFat(g, g.fatBase + i / 512);
      }
    }
  }

  twostate lemma SameTable(fs: FatFs)
    requires old(fs.Shaped()) && fs.Shaped() && fs.Logical() == old(fs.Logical())
    ensures Table(fs) == old(Table(fs))
  {
  }

  /** All sectors outside the tables are as before. */
  ghost predicate SameOutsideFat(g: Geometry, d: Disk, d': Disk) {
    |d| == |d'| && forall s: nat :: s < |d| && !InFatArea(g, s) ==> d'[s] == d[s]
  }

  lemma SameSector(i: nat, n: nat, k: nat)
    requires i % 512 + n <= 512
    ensures k / 512 == i / 512 ==> (i <= k < i + n <==> i % 512 <= k % 512 < i % 512 + n) && k - i == k % 512 - i % 512
    ensures k / 512 != i / 512 ==> !(i <= k < i + n)
  {
  }

  lemma PutByteInArea(g: Geometry, d: Disk, i: nat, data: seq<byte>, k: nat)
    requires |d| == g.total
    requires i + |data| <= g.fsize * 512 && i % 512 + |data| <= 512 && k < g.fsize * 512
    requires g.fatBase + i / 512 < g.total
    ensures FatArea(g, Put(g, d, g.fatBase + i / 512, i % 512, data))[k] == Splice(FatArea(g, d), i, data)[k]
  {
    Regions(g);
    SameSector(i, |data|, k);
    hide WellFormed;
    var s := g.fatBase + i / 512;
    var w := Splice(d[s], i % 512, data);
    var d' := Put(g, d, s, i % 512, data);
    assert d'[g.fatBase + k / 512] == if k / 512 == i / 512 then w else d[g.fatBase + k / 512];
    assert FatArea(g, d')[k] == d'[g.fatBase + k / 512][k % 512] && FatArea(g, d)[k] == d[g.fatBase + k / 512][k % 512];
    hide FatArea, Put, Store;
  }

  lemma PutOutside(g: Geometry, d: Disk, s: nat, off: nat, data: seq<byte>)
    requires |d| == g.total && s < g.total && off + |data| <= 512
    requires InFirstFat(g, s)
    ensures SameOutsideFat(g, d, Put(g, d, s, off, data))
  {
    hide WellFormed, Splice;
  }

  /** A byte range stored through the window at table offset `i` lands in the table area at `i`. */
  lemma PutInArea(g: Geometry, d: Disk, i: nat, data: seq<byte>)
    requires |d| == g.total
    requires i + |data| <= g.fsize * 512 && i % 512 + |data| <= 512 && 0 < |data|
    ensures g.fatBase + i / 512 < g.total && InFirstFat(g, g.fatBase + i / 512)
    ensures var d' := Put(g, d, g.fatBase + i / 512, i % 512, data);
            && FatArea(g, d') == Splice(FatArea(g, d), i, data)
            && SameOutsideFat(g, d, d')
  {
    Regions(g);
    hide WellFormed;
    var s := g.fatBase + i / 512;
    forall k | 0 <= k < g.fsize * 512
      ensures FatArea(g, Put(g, d, s, i % 512, data))[k] == Splice(FatArea(g, d), i, data)[k]
    {
      PutByteInArea(g, d, i, data, k);
    }
    PutOutside(g, d, s, i % 512, data);
  }

  /** A table range inside one sector reads as that stretch of the sector. */
  lemma AreaSlice(g: Geometry, d: Disk, i: nat, n: nat)
    requires |d| == g.total
    requires i + n <= g.fsize * 512 && i % 512 + n <= 512 && 0 < n
    ensures g.fatBase + i / 512 < g.total && InFirstFat(g, g.fatBase + i / 512)
    ensures d[g.fatBase + i / 512][i % 512..i % 512 + n] == FatArea(g, d)[i..i + n]
  {
    Regions(g);
    hide WellFormed;
    var o := i - i % 512;
    forall k | i <= k < i + n
      ensures FatArea(g, d)[k] == d[g.fatBase + i / 512][k - o]
    {
      assert k / 512 == i / 512;
    }
  }

  /** `move_window` to the table sector holding byte `i`, then a load of one byte. */
  method LoadByte(fs: FatFs, i: nat) returns (v: byte)
    requires fs.Valid() && i < fs.geo.fsize * 512
    modifies fs`disk, fs`wflag, fs`winsect, fs.win
    ensures fs.Valid() && fs.Logical() == old(fs.Logical())
    ensures fs.winsect == fs.geo.fatBase + i / 512 < fs.geo.total
    ensures v == fs.win[i % 512] == FatArea(fs.geo, fs.Logical())[i]
  {
    AreaSlice(fs.geo, fs.Logical(), i, 1);
    hide WellFormed;
    fs.MoveWindow(fs.geo.fatBase + i / 512);
    v := fs.win[..][i % 512];
  }

  method LoadWord(fs: FatFs, i: nat) returns (v: nat)
    requires fs.Valid() && i + 2 <= fs.geo.fsize * 512 && i % 512 + 2 <= 512
    modifies fs`disk, fs`wflag, fs`winsect, fs.win
    ensures fs.Valid() && fs.Logical() == old(fs.Logical())
    ensures fs.winsect == fs.geo.fatBase + i / 512 < fs.geo.total
    ensures v == LdWord(FatArea(fs.geo, fs.Logical()), i)
  {
    ghost var area := FatArea(fs.geo, fs.Logical());
    AreaSlice(fs.geo, fs.Logical(), i, 2);
    hide WellFormed, FatArea;
    fs.MoveWindow(fs.geo.fatBase + i / 512);
    assert fs.win[..][i % 512..i % 512 + 2] == area[i..i + 2];
    v := LdWord(fs.win[i % 512..i % 512 + 2], 0);
  }

  method LoadDword(fs: FatFs, i: nat) returns (v: nat)
    requires fs.Valid() && i + 4 <= fs.geo.fsize * 512 && i % 512 + 4 <= 512
    modifies fs`disk, fs`wflag, fs`winsect, fs.win
    ensures fs.Valid() && fs.Logical() == old(fs.Logical())
    ensures fs.winsect == fs.geo.fatBase + i / 512 < fs.geo.total
    ensures v == LdDword(FatArea(fs.geo, fs.Logical()), i)
  {
    ghost var area := FatArea(fs.geo, fs.Logical());
    AreaSlice(fs.geo, fs.Logical(), i, 4);
    hide WellFormed, FatArea;
    fs.MoveWindow(fs.geo.fatBase + i / 512);
    assert fs.win[..][i % 512..i % 512 + 4] == area[i..i + 4];
    v := LdDword(fs.win[i % 512..i % 512 + 4], 0);
  }

  /** What the bytes of the table say about an entry. */
  lemma EntryLoads(fs: FatFs, c: nat)
    requires fs.Shaped() && c < fs.geo.nFatEnt
    ensures var (a, v) := (FatArea(fs.geo, fs.Logical()), Table(fs)[c]);
            match fs.geo.fsType
            case Fat12 =>
              && c + c / 2 + 2 <= fs.geo.fsize * 512 == |a|
              && v == var w := (a[c + c / 2] as int) + 0x100 * (a[c + c / 2 + 1] as int);
                      if c % 2 == 1 then w / 16 else w % 0x1000
            case Fat16 => c * 2 + 2 <= fs.geo.fsize * 512 == |a| && c * 2 % 512 + 2 <= 512 && v == (a[c * 2] as int) + 0x100 * (a[c * 2 + 1] as int) == LdWord(a, c * 2)
            case Fat32 =>
              && c * 4 + 4 <= fs.geo.fsize * 512 == |a| && c * 4 % 512 + 4 <= 512
              && v == LdDword(a, c * 4) % 0x1000_0000
  {
    EntryFits(fs.geo, c);
    hide WellFormed, FatArea, LdDword, FatFs.Logical, FatFs.Shaped;
  }

  /** Byte `i` of the table that starts at sector `base`; -1 behind the end of the drive. */
  function ByteAt(d: Disk, base: nat, i: nat): int {
    if base + i / 512 < |d| then d[base + i / 512][i % 512] else -1
  }

  /** Entry `c` of the table on the drive, from its bytes, the least significant first. FAT12 packs two
      entries into three bytes; the upper four bits of a FAT32 entry do not count. */
  predicate IsEntry(t: FatType, d: Disk, base: nat, c: nat, v: nat) {
    match t
    case Fat12 =>
      var b0, b1 := ByteAt(d, base, c * 3 / 2), ByteAt(d, base, c * 3 / 2 + 1);
      b0 >= 0 && b1 >= 0 && v == if c % 2 == 1 then b0 / 16 + 16 * b1 else b0 + 0x100 * (b1 % 16)
    case Fat16 =>
      var b0, b1 := ByteAt(d, base, c * 2), ByteAt(d, base, c * 2 + 1);
      b0 >= 0 && b1 >= 0 && v == b0 + 0x100 * b1
    case Fat32 =>
      var b0, b1, b2, b3 := ByteAt(d, base, c * 4), ByteAt(d, base, c * 4 + 1), ByteAt(d, base, c * 4 + 2), ByteAt(d, base, c * 4 + 3);
      b0 >= 0 && b1 >= 0 && b2 >= 0 && b3 >= 0 && v == b0 + 0x100 * b1 + 0x1_0000 * b2 + 0x100_0000 * (b3 % 16)
  }

  /** What storing `v` in entry `c` makes of its bytes: a FAT12 entry leaves the nibble of its neighbour,
      a FAT32 entry its own upper four bits. */
  predicate EntryStored(t: FatType, d: Disk, d': Disk, base: nat, c: nat, v: nat) {
    match t
    case Fat12 =>
      var i := c * 3 / 2;
      if c % 2 == 1 then
        ByteAt(d', base, i) == ByteAt(d, base, i) % 16 + 16 * (v % 16) && ByteAt(d', base, i + 1) == v / 16 % 0x100
      else
        ByteAt(d', base, i) == v % 0x100 && ByteAt(d', base, i + 1) == ByteAt(d, base, i + 1) / 16 * 16 + v / 0x100 % 16
    case Fat16 => ByteAt(d', base, c * 2) == v % 0x100 && ByteAt(d', base, c * 2 + 1) == v / 0x100 % 0x100
    case Fat32 =>
      && ByteAt(d', base, c * 4) == v % 0x100 && ByteAt(d', base, c * 4 + 1) == v / 0x100 % 0x100
      && ByteAt(d', base, c * 4 + 2) == v / 0x1_0000 % 0x100
      && ByteAt(d', base, c * 4 + 3) == ByteAt(d, base, c * 4 + 3) / 16 * 16 + v / 0x100_0000 % 16
  }

  /** The bytes of entry `c`. */
  predicate InEntry(t: FatType, c: nat, i: nat) {
    match t
    case Fat12 => c * 3 / 2 <= i <= c * 3 / 2 + 1
    case Fat16 => c * 2 <= i <= c * 2 + 1
    case Fat32 => c * 4 <= i <= c * 4 + 3
  }

  /** Storing `v` in entry `c` changes its bytes and no other byte of the table. */
  ghost predicate Stores(g: Geometry, d: Disk, d': Disk, c: nat, v: nat) {
    && EntryStored(g.fsType, d, d', g.fatBase, c, v)
    && forall i: nat :: i < g.fsize * 512 && !InEntry(g.fsType, c, i) ==> ByteAt(d', g.fatBase, i) == ByteAt(d, g.fatBase, i)
  }

  lemma AreaByte(g: Geometry, d: Disk, i: nat)
    requires |d| == g.total && i < g.fsize * 512
    ensures ByteAt(d, g.fatBase, i) == FatArea(g, d)[i]
  {
    Regions(g);
    hide WellFormed;
  }

  lemma Dword28(b: seq<byte>, i: nat)
    requires i + 4 <= |b|
    ensures LdDword(b, i) % 0x1000_0000 ==
            b[i] + 0x100 * (b[i + 1] as int) + 0x1_0000 * (b[i + 2] as int) + 0x100_0000 * (b[i + 3] as int % 16)
  {
  }

  lemma WordIs(b: seq<byte>, i: nat)
    requires i + 2 <= |b|
    ensures LdWord(b, i) == b[i] + 0x100 * (b[i + 1] as int)
  {
  }

  lemma Word12(b: seq<byte>, i: nat)
    requires i + 2 <= |b|
    ensures LdWord(b, i) / 16 == b[i] / 16 + 16 * (b[i + 1] as int)
    ensures LdWord(b, i) % 0x1000 == b[i] + 0x100 * (b[i + 1] as int % 16)
  {
    Nibbles(b[i], b[i + 1]);
  }

  /** The table is what its bytes on the drive say. */
  lemma TableOnDrive(g: Geometry, d: Disk, c: nat)
    requires |d| == g.total && c < g.nFatEnt
    ensures IsEntry(g.fsType, d, g.fatBase, c, Fat(g, d)[c])
  {
    hide WellFormed, FatArea, ByteAt, LdWord, LdDword;
    var a, o := FatArea(g, d), EntryOffset(g.fsType, c);
    EntryFits(g, c);
    AreaByte(g, d, o);
    AreaByte(g, d, o + 1);
    match g.fsType {
      case Fat12 =>
        assert o == c * 3 / 2;
        Word12(a, o);
      case Fat16 =>
        WordIs(a, o);
      case Fat32 =>
        AreaByte(g, d, o + 2);
        AreaByte(g, d, o + 3);
        Dword28(a, o);
    }
  }

  lemma EntryShown(fs: FatFs, c: nat)
    requires fs.Shaped() && c < fs.geo.nFatEnt
    ensures IsEntry(fs.geo.fsType, fs.Logical(), fs.geo.fatBase, c, Table(fs)[c])
  {
    hide WellFormed, IsEntry, FatFs.Logical, FatFs.Shaped, Fat;
    TableOnDrive(fs.geo, fs.Logical(), c);
  }

  /** Reads an entry; 1 for a number outside the table, as the source returns. */
  method GetFat(fs: FatFs, clst: nat) returns (val: nat)
    requires fs.Valid()
    modifies fs`disk, fs`wflag, fs`winsect, fs.win
    ensures fs.Valid() && fs.Logical() == old(fs.Logical())
    ensures Table(fs) == old(Table(fs))
    ensures val == if 2 <= clst < fs.geo.nFatEnt then Table(fs)[clst] else 1
    ensures 2 <= clst < fs.geo.nFatEnt ==> IsEntry(fs.geo.fsType, fs.Logical(), fs.geo.fatBase, clst, val)
  {
    hide *;
    if clst < 2 || clst >= fs.geo.nFatEnt {
      return 1;
    }
    EntryLoads(fs, clst);
    match fs.geo.fsType {
      case Fat12 =>
        var bc := clst + clst / 2;
        var b0 := LoadByte(fs, bc);
        bc := bc + 1;
        var b1 := LoadByte(fs, bc);
        var wc := (b0 as int) + 0x100 * (b1 as int);
        val := if clst % 2 == 1 then wc / 16 else wc % 0x1000;
      case Fat16 =>
        val := LoadWord(fs, clst * 2);
      case Fat32 =>
        val := LoadDword(fs, clst * 4);
        val := val % 0x1000_0000;
    }
    SameTable(fs);
    EntryShown(fs, clst);
  }

  /** A store to the table range held by the window. */
  method StoreTable(fs: FatFs, i: nat, data: seq<byte>)
    requires fs.Valid() && i + |data| <= fs.geo.fsize * 512 && i % 512 + |data| <= 512 && 0 < |data|
    requires fs.winsect == fs.geo.fatBase + i / 512 < fs.geo.total
    modifies fs`wflag, fs.win
    ensures fs.Valid()
    ensures FatArea(fs.geo, fs.Logical()) == Splice(FatArea(fs.geo, old(fs.Logical())), i, data)
    ensures SameOutsideFat(fs.geo, old(fs.Logical()), fs.Logical())
  {
    PutInArea(fs.geo, fs.Logical(), i, data);
    hide WellFormed, FatArea;
    fs.Poke(i % 512, data);
  }

  /** The value an entry holds after `val` is stored in it. */
  function Masked(g: Geometry, val: nat): nat {
    val % EntryRange(g.fsType)
  }

  /** In terms of entries: the one entry takes the masked value, the others stay. */
  lemma PutUpdatesTable(g: Geometry, d: Disk, d': Disk, c: nat, val: nat)
    requires |d| == |d'| == g.total && c < g.nFatEnt
    requires Holds(g.fsType, FatArea(g, d), c)
    requires FatArea(g, d') == PutEntry(g.fsType, FatArea(g, d), c, val)
    ensures Fat(g, d') == Fat(g, d)[c := Masked(g, val)]
  {
    hide WellFormed, FatArea, PutEntry;
    forall e: nat | e < g.nFatEnt
      ensures Fat(g, d')[e] == Fat(g, d)[c := Masked(g, val)][e]
    {
      EntryFits(g, e);
      if e == c {
        PutGetSame(g.fsType, FatArea(g, d), c, val);
      } else {
        PutGetOther(g.fsType, FatArea(g, d), c, val, e);
      }
    }
  }

  /** The width-specific part of `put_fat`. */
  method StoreEntry(fs: FatFs, clst: nat, val: nat)
    requires fs.Valid() && clst < fs.geo.nFatEnt
    modifies fs`disk, fs`wflag, fs`winsect, fs.win
    ensures fs.Valid()
    ensures SameOutsideFat(fs.geo, old(fs.Logical()), fs.Logical())
    ensures Holds(fs.geo.fsType, FatArea(fs.geo, old(fs.Logical())), clst)
    ensures FatArea(fs.geo, fs.Logical()) == PutEntry(fs.geo.fsType, FatArea(fs.geo, old(fs.Logical())), clst, val)
  {
    EntryFits(fs.geo, clst);
    hide WellFormed, FatArea, LdDword, StDword, StWord, Low12, High12, Merge32;
    match fs.geo.fsType {
      case Fat12 =>
        var bc := clst + clst / 2;
        var p := LoadByte(fs, bc);
        StoreTable(fs, bc, [Low12(clst, p, val)]);
        bc := bc + 1;
        p := LoadByte(fs, bc);
        StoreTable(fs, bc, [High12(clst, p, val)]);
      case Fat16 =>
        var v := LoadWord(fs, clst * 2);
        StoreTable(fs, clst * 2, StWord(val));
      case Fat32 =>
        var v := LoadDword(fs, clst * 4);
        StoreTable(fs, clst * 4, StDword(Merge32(v, val)));
    }
  }

  lemma DigitsOf(a: byte, b: byte, c: byte, x: byte)
    ensures var m := a + 0x100 * (b as int) + 0x1_0000 * (c as int) + 0x100_0000 * (x as int);
            && 0 <= m < 0x1_0000_0000 && m % 0x100 == a && m / 0x100 % 0x100 == b
            && m / 0x1_0000 % 0x100 == c && m / 0x100_0000 % 0x100 == x
  {
    var m := a + 0x100 * (b as int) + 0x1_0000 * (c as int) + 0x100_0000 * (x as int);
    assert m / 0x100 == b + 0x100 * (c as int) + 0x1_0000 * (x as int);
    assert m / 0x1_0000 == c + 0x100 * (x as int);
  }

  lemma Low28(v: nat)
    ensures v % 0x1000_0000 ==
            v % 0x100 + 0x100 * (v / 0x100 % 0x100) + 0x1_0000 * (v / 0x1_0000 % 0x100) + 0x100_0000 * (v / 0x100_0000 % 16)
  {
    var q := v / 0x100_0000;
    assert v / 0x100 / 0x100 == v / 0x1_0000 && v / 0x1_0000 / 0x100 == q && v / 0x1000_0000 == q / 16;
  }

  lemma TopHalf(x: nat)
    ensures x / 0x1000_0000 == x / 0x100_0000 / 16
  {
  }

  lemma MergedDigits(old32: nat, v: nat)
    requires old32 < 0x1_0000_0000
    ensures StDword(Merge32(old32, v)) ==
            [v % 0x100, v / 0x100 % 0x100, v / 0x1_0000 % 0x100, old32 / 0x100_0000 / 16 * 16 + v / 0x100_0000 % 16]
  {
    Low28(v);
    TopHalf(old32);
    DigitsOf(v % 0x100, v / 0x100 % 0x100, v / 0x1_0000 % 0x100, old32 / 0x100_0000 / 16 * 16 + v / 0x100_0000 % 16);
  }

  lemma Bytes12(g: Geometry, d: Disk, d': Disk, c: nat, v: nat)
    requires |d| == |d'| == g.total && c < g.nFatEnt && g.fsType.Fat12? && Holds(Fat12, FatArea(g, d), c)
    requires FatArea(g, d') == PutEntry(Fat12, FatArea(g, d), c, v)
    ensures EntryStored(Fat12, d, d', g.fatBase, c, v)
  {
    var o := c * 3 / 2;
    hide WellFormed, FatArea, ByteAt;
    assert o == c + c / 2;
    AreaByte(g, d, o);
    AreaByte(g, d', o);
    AreaByte(g, d, o + 1);
    AreaByte(g, d', o + 1);
  }

  lemma Bytes16(g: Geometry, d: Disk, d': Disk, c: nat, v: nat)
    requires |d| == |d'| == g.total && c < g.nFatEnt && g.fsType.Fat16? && Holds(Fat16, FatArea(g, d), c)
    requires FatArea(g, d') == PutEntry(Fat16, FatArea(g, d), c, v)
    ensures EntryStored(Fat16, d, d', g.fatBase, c, v)
  {
    hide WellFormed, FatArea, ByteAt;
    AreaByte(g, d', c * 2);
    AreaByte(g, d', c * 2 + 1);
  }

  lemma Bytes32(g: Geometry, d: Disk, d': Disk, c: nat, v: nat)
    requires |d| == |d'| == g.total && c < g.nFatEnt && g.fsType.Fat32? && Holds(Fat32, FatArea(g, d), c)
    requires FatArea(g, d') == PutEntry(Fat32, FatArea(g, d), c, v)
    ensures EntryStored(Fat32, d, d', g.fatBase, c, v)
  {
    hide WellFormed, FatArea, ByteAt, LdDword, Merge32, StDword;
    LoadDigits(FatArea(g, d), c * 4);
    MergedDigits(LdDword(FatArea(g, d), c * 4), v);
    AreaByte(g, d', c * 4);
    AreaByte(g, d', c * 4 + 1);
    AreaByte(g, d', c * 4 + 2);
    AreaByte(g, d, c * 4 + 3);
    AreaByte(g, d', c * 4 + 3);
  }

  /** The bytes that an updated entry has. */
  lemma EntryBytes(g: Geometry, d: Disk, d': Disk, c: nat, v: nat)
    requires |d| == |d'| == g.total && c < g.nFatEnt && Holds(g.fsType, FatArea(g, d), c)
    requires FatArea(g, d') == PutEntry(g.fsType, FatArea(g, d), c, v)
    ensures Stores(g, d, d', c, v)
  {
    hide WellFormed, FatArea, ByteAt, PutEntry, EntryStored;
    match g.fsType {
      case Fat12 => Bytes12(g, d, d', c, v);
      case Fat16 => Bytes16(g, d, d', c, v);
      case Fat32 => Bytes32(g, d, d', c, v);
    }
    forall i: nat | i < g.fsize * 512 && !InEntry(g.fsType, c, i)
      ensures ByteAt(d', g.fatBase, i) == ByteAt(d, g.fatBase, i)
    {
      AreaByte(g, d, i);
      AreaByte(g, d', i);
      PutTouches(g.fsType, FatArea(g, d), c, v, i);
    }
  }

  /** Changes an entry. A number outside the table is an internal error and changes nothing. */
  method PutFat(fs: FatFs, clst: nat, val: nat) returns (res: FResult)
    requires fs.Valid()
    modifies fs`disk, fs`wflag, fs`winsect, fs.win
    ensures fs.Valid()
    ensures SameOutsideFat(fs.geo, old(fs.Logical()), fs.Logical())
    ensures if 2 <= clst < fs.geo.nFatEnt
            then res == OK && Table(fs) == old(Table(fs))[clst := Masked(fs.geo, val)]
            else res == IntErr && fs.Logical() == old(fs.Logical())
    ensures res == OK ==> Stores(fs.geo, old(fs.Logical()), fs.Logical(), clst, val)
  {
    if clst < 2 || clst >= fs.geo.nFatEnt {
      return IntErr;
    }
    StoreEntry(fs, clst, val);
    PutUpdatesTable(fs.geo, old(fs.Logical()), fs.Logical(), clst, val);
    EntryBytes(fs.geo, old(fs.Logical()), fs.Logical(), clst, val);
    hide *;
    res := OK;
  }
}
