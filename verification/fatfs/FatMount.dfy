/** Mounting: the layout that `mount_volume` computes from a boot sector, which boot sectors it takes, and
    when the layout is in order. */
module FatMount {
  import opened Arith
  import opened FatTypes
  import opened FatCodec

  const MAX_FAT12: nat := 0xFF5
  const MAX_FAT16: nat := 0xFFF5
  const MAX_FAT32: nat := 0x0FFF_FFF5

  /** The result of unsigned arithmetic in 32 bits. */
  function U32(x: int): nat {
    x % 0x1_0000_0000
  }

  /** Sectors of one table: the word at 22, or the dword at 36 if it is 0. */
  function FatSize(w: Sector): nat {
    if WordAt(w, 22) != 0 then WordAt(w, 22) else DwordAt(w, 36)
  }

  /** Sectors of the volume: the word at 19, or the dword at 32 if it is 0. */
  function VolumeSize(w: Sector): nat {
    if WordAt(w, 19) != 0 then WordAt(w, 19) else DwordAt(w, 32)
  }

  /** Sectors before the data region: reserved ones (14), the tables (number at 16) and the static root
      directory (entries at 17). */
  function Before(w: Sector): nat {
    WordAt(w, 14) + (if w[16] == 2 then 2 * FatSize(w) else FatSize(w)) + WordAt(w, 17) / 16
  }

  /** The width of the entries for a number of clusters. */
  predicate Width(t: FatType, clusters: nat) {
    match t
    case Fat12 => clusters <= 0xFF5
    case Fat16 => 0xFF5 < clusters <= 0xFFF5
    case Fat32 => 0xFFF5 < clusters <= 0x0FFF_FFF5
  }

  /** The layout belongs to the boot sector, computed in 32 bits. */
  ghost predicate Describes(w: Sector, bsect: nat, total: nat, g: Layout) {
    && g.csize == w[13] as int && g.nFats == w[16] as int && g.nRootDir == WordAt(w, 17) && g.fsize == FatSize(w)
    && g.volBase == bsect && g.fatBase == U32(bsect + WordAt(w, 14)) && g.dataBase == U32(bsect + U32(Before(w)))
    && g.total == total
    && g.nFatEnt >= 3 && Width(g.fsType, g.nFatEnt - 2)
    && g.dirBase == (if g.fsType.Fat32? then DwordAt(w, 44) else U32(g.fatBase + U32(Before(w) - WordAt(w, 14) - WordAt(w, 17) / 16)))
  }

  /** What the source demands of a boot sector whose volume has so many clusters: sectors of 512 bytes, one or
      two tables, a power of two of sectors to a cluster, a root directory that fills its sectors, reserved
      sectors, a known number of clusters, tables long enough; no static root directory and version 0 for
      FAT32, a static root directory otherwise. */
  ghost predicate Acceptable(w: Sector, t: FatType, clusters: nat) {
    && WordAt(w, 11) == 512 && (w[16] == 1 || w[16] == 2) && w[13] > 0 && PowerOfTwo(w[13] as int)
    && WordAt(w, 17) % 16 == 0 && WordAt(w, 14) > 0
    && U32(Before(w)) <= VolumeSize(w)
    && clusters == Quot(VolumeSize(w) - U32(Before(w)), w[13] as int) && clusters > 0 && Width(t, clusters)
    && TableBytes(t, clusters + 2) <= FatSize(w) * 512
    && (if t.Fat32? then WordAt(w, 42) == 0 && WordAt(w, 17) == 0 else WordAt(w, 17) > 0)
  }

  /** The condition that mounting does not check: tables, root directory and clusters end on the drive,
      and on FAT32 the root directory begins at a cluster and FSInfo has a sector before the tables. */
  predicate Fits(w: Sector, bsect: nat, total: nat, g: Layout)
    requires g.nFatEnt >= 2
  {
    && bsect + Before(w) + Times(g.csize, g.nFatEnt - 2) <= total < 0xFFFF_FFFF
    && (g.fsType.Fat32? ==> 2 <= DwordAt(w, 44) < g.nFatEnt && WordAt(w, 14) >= 2)
  }

  lemma TablesAre(w: Sector)
    requires w[16] == 1 || w[16] == 2
    ensures FatSize(w) * w[16] as int == if w[16] == 2 then 2 * FatSize(w) else FatSize(w)
    ensures U32(WordAt(w, 14) + U32(FatSize(w) * w[16] as int) + WordAt(w, 17) / 16) == U32(Before(w))
    ensures Before(w) - WordAt(w, 14) - WordAt(w, 17) / 16 == FatSize(w) * w[16] as int
  {
    hide WordAt, DwordAt, FatSize;
  }

  lemma SizeTest(bytes: nat, size: nat)
    ensures size < (bytes + 511) / 512 <==> size * 512 < bytes
  {
  }

  lemma {:induction false} AndSelf(x: nat)
    ensures And(x, x) == x
  {
    if x == 0 {
    } else {
      AndSelf(x / 2);
    }
  }

  /** The test `x & (x - 1)` for a power of two. */
  lemma {:induction false} PowerTest(x: nat)
    requires x > 0
    ensures And(x, x - 1) == 0 <==> PowerOfTwo(x)
  {
    if x == 1 {
    } else if x % 2 == 0 {
      PowerTest(x / 2);
      assert (x - 1) / 2 == x / 2 - 1;
    } else {
      AndSelf(x / 2);
      assert (x - 1) / 2 == x / 2;
    }
  }

  lemma {:induction false} PowerBound(x: nat, k: nat)
    requires PowerOfTwo(x) && x < 2 * Pow2(k)
    ensures x <= Pow2(k)
  {
    if k == 0 || x == 1 {
    } else {
      PowerBound(x / 2, k - 1);
    }
  }

  /** A power of two in a byte. */
  lemma BytePower(x: nat)
    requires PowerOfTwo(x) && x < 0x100
    ensures x <= 128
  {
    PowerBound(x, 7);
  }

  lemma U32Is(x: nat)
    ensures U32(x) < 0x1_0000_0000 && (x < 0x1_0000_0000 ==> U32(x) == x)
    ensures 0x1_0000_0000 <= x < 0x2_0000_0000 ==> U32(x) == x - 0x1_0000_0000
  {
  }

  /** Sums that end below 2^32 did not wrap around. */
  lemma NoWrap(bsect: nat, rsv: nat, tables: nat, root: nat)
    requires 0 < rsv < 0x1_0000
    ensures var fatBase, dataBase := U32(bsect + rsv), U32(bsect + U32(rsv + tables + root));
            && (bsect + 1 <= fatBase && fatBase + tables + root == dataBase ==>
                fatBase == bsect + rsv && dataBase == bsect + rsv + tables + root)
            && (bsect + rsv + tables + root < 0x1_0000_0000 ==>
                && fatBase == bsect + rsv && dataBase == fatBase + tables + root
                && U32(fatBase + U32(tables)) == fatBase + tables)
  {
    var fatBase := U32(bsect + rsv);
    U32Is(bsect + rsv);
    U32Is(rsv + tables + root);
    U32Is(bsect + U32(rsv + tables + root));
    U32Is(tables);
    U32Is(fatBase + U32(tables));
    hide U32;
  }

  lemma BeforeIs(w: Sector)
    requires w[16] == 1 || w[16] == 2
    ensures Before(w) == WordAt(w, 14) + (if w[16] == 2 then 2 * FatSize(w) else FatSize(w)) + WordAt(w, 17) / 16
    ensures WordAt(w, 14) < 0x1_0000 && WordAt(w, 17) < 0x1_0000
  {
    hide FatSize;
  }

  /** A mounted layout is in order exactly if its regions fit. */
  lemma MountedInOrder(w: Sector, bsect: nat, total: nat, g: Layout)
    requires Describes(w, bsect, total, g) && Acceptable(w, g.fsType, g.nFatEnt - 2)
    ensures WellFormed(g) <==> Fits(w, bsect, total, g)
  {
    hide WordAt, DwordAt, FatSize, Before, Times, PowerOfTwo, U32, Quot;
    BeforeIs(w);
    NoWrap(bsect, WordAt(w, 14), TablesSize(g), WordAt(w, 17) / 16);
    BytePower(g.csize);
  }

  /** The checks and computations of the source for a volume at sector `bsect` of a drive of `total` sectors:
      it takes exactly the acceptable boot sectors, and computes the layout they describe. */
  method Mount(w: Sector, bsect: nat, total: nat) returns (r: Option<Layout>)
    ensures r.Some? <==> exists t: FatType, clusters: nat :: Acceptable(w, t, clusters)
    ensures r.Some? ==> Describes(w, bsect, total, r.value) && Acceptable(w, r.value.fsType, r.value.nFatEnt - 2)
    ensures r.Some? ==> (WellFormed(r.value) <==> Fits(w, bsect, total, r.value))
  {
    hide LdWord, LdDword, WordAt, DwordAt, PowerOfTwo, Quot, U32, And, WellFormed, Fits;
    r := None;
    LoadsAre(w, 11);
    LoadsAre(w, 14);
    LoadsAre(w, 17);
    LoadsAre(w, 19);
    LoadsAre(w, 22);
    LoadsAre(w, 32);
    LoadsAre(w, 36);
    LoadsAre(w, 42);
    LoadsAre(w, 44);
    if LdWord(w, 11) != 512 {
      return;
    }
    var fasize := LdWord(w, 22);
    if fasize == 0 {
      fasize := LdDword(w, 36);
    }
    var fsize, nFats := fasize, w[16] as int;
    if nFats != 1 && nFats != 2 {
      return;
    }
    TablesAre(w);
    fasize := U32(fasize * nFats);
    var csize := w[13] as int;
    if csize == 0 {
      return;
    }
    PowerTest(csize);
    if And(csize, csize - 1) != 0 {
      return;
    }
    var nRootDir := LdWord(w, 17);
    if nRootDir % 16 != 0 {
      return;
    }
    var tsect := LdWord(w, 19);
    if tsect == 0 {
      tsect := LdDword(w, 32);
    }
    var nrsv := LdWord(w, 14);
    if nrsv == 0 {
      return;
    }
    var sysect := U32(nrsv + fasize + nRootDir / 16);
    if tsect < sysect {
      return;
    }
    var nclst := Quot(tsect - sysect, csize);
    if nclst == 0 {
      return;
    }
    var fmt: Option<FatType> := None;
    if nclst <= MAX_FAT32 {
      fmt := Some(Fat32);
    }
    if nclst <= MAX_FAT16 {
      fmt := Some(Fat16);
    }
    if nclst <= MAX_FAT12 {
      fmt := Some(Fat12);
    }
    if fmt == None {
      return;
    }
    var t := fmt.value;
    var fatBase := U32(bsect + nrsv);
    var dirBase, szbfat: nat;
    if t.Fat32? {
      if LdWord(w, 42) != 0 || nRootDir != 0 {
        return;
      }
      dirBase, szbfat := LdDword(w, 44), (nclst + 2) * 4;
    } else {
      if nRootDir == 0 {
        return;
      }
      dirBase := U32(fatBase + fasize);
      szbfat := if t.Fat16? then (nclst + 2) * 2 else (nclst + 2) * 3 / 2 + (nclst + 2) % 2;
    }
    SizeTest(szbfat, fsize);
    if fsize < (szbfat + 511) / 512 {
      return;
    }
    assert Acceptable(w, t, nclst);
    r := Some(Layout(t, csize, nFats, nRootDir, nclst + 2, fsize, bsect, fatBase, dirBase, U32(bsect + sysect), total));
    MountedInOrder(w, bsect, total, r.value);
  }

  /** A boot sector of a FAT32 volume of 70001 sectors with a single reserved one. */
  const ONE_RESERVED: Sector :=
    seq(512, i =>
      if i == 12 || i == 44 then 2                                              // 512 bytes, root at cluster 2
      else if i == 13 || i == 14 || i == 16 then 1                              // one sector, one reserved, one table
      else if i == 32 then 0x71 else if i == 33 then 0x11 else if i == 34 then 0x01
      else if i == 36 then 0xE8 else if i == 37 then 0x03                       // 1000 sectors of table
      else 0)

  lemma WordFields(w: Sector)
    requires w == ONE_RESERVED
    ensures WordAt(w, 11) == 512 && WordAt(w, 14) == 1 && WordAt(w, 17) == WordAt(w, 19) == WordAt(w, 22) == WordAt(w, 42) == 0
    ensures w[13] == w[16] == 1
  {
  }

  lemma DwordFields(w: Sector)
    requires w == ONE_RESERVED
    ensures DwordAt(w, 32) == 70001 && DwordAt(w, 36) == 1000
  {
  }

  lemma FirstSector(w: Sector, g: Layout)
    requires Describes(w, 0, 100000, g) && WordAt(w, 14) == 1
    ensures g.volBase + 1 == g.fatBase && !(g.fsType.Fat32? && WellFormed(g))
  {
    U32Is(1);
    hide WordAt, DwordAt, FatSize, Before, U32, PowerOfTwo, Times;
  }

  /** It is taken, but sector 1, where FSInfo goes, is the first sector of its table. */
  lemma FsInfoInTable()
    ensures Acceptable(ONE_RESERVED, Fat32, 69000)
    ensures forall g: Layout :: Describes(ONE_RESERVED, 0, 100000, g) ==> g.volBase + 1 == g.fatBase && !(g.fsType.Fat32? && WellFormed(g))
  {
    hide ONE_RESERVED, WordAt, DwordAt, Describes, WellFormed;
    var w := ONE_RESERVED;
    WordFields(w);
    DwordFields(w);
    U32Is(1001);
    DivMod(69000, 1);
    hide Quot, U32;
    forall g: Layout | Describes(w, 0, 100000, g)
      ensures g.volBase + 1 == g.fatBase && !(g.fsType.Fat32? && WellFormed(g))
    {
      FirstSector(w, g);
    }
  }
}
