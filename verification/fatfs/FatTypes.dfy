/** The on-disk vocabulary of the FAT volume: sectors, the mounted geometry, and
    the regions of the volume. */
module FatTypes {
  import opened Arith

  datatype Option<T> = None | Some(value: T)

  type byte = x: int | 0 <= x < 256

  // The only sector size of this build is 512 bytes.
  type Sector = s: seq<byte> | |s| == 512 witness seq(512, i => 0)

  type Disk = seq<Sector>

  datatype FatType = Fat12 | Fat16 | Fat32

  /** The FATFS fields that mounting fixes. `total` is the number of sectors of the drive. */
  datatype Layout = Layout(
    fsType: FatType,
    csize: nat,      // sectors per cluster
    nFats: nat,      // 1 or 2
    nRootDir: nat,   // entries of the static root directory (FAT12/16)
    nFatEnt: nat,    // number of clusters + 2
    fsize: nat,      // sectors per FAT
    volBase: nat,
    fatBase: nat,
    dirBase: nat,    // first sector (FAT12/16) or first cluster (FAT32) of the root directory
    dataBase: nat,
    total: nat)

  /** 32-bit unsigned subtraction, as used by the region tests. */
  function Sub32(a: nat, b: nat): nat {
    (a - b) % 0x1_0000_0000
  }

  /** Bytes the table of a volume with `n` entries occupies. */
  function TableBytes(t: FatType, n: nat): nat {
    match t
    case Fat12 => n * 3 / 2 + n % 2
    case Fat16 => n * 2
    case Fat32 => n * 4
  }

  function MaxEntries(t: FatType): nat {
    match t
    case Fat12 => 0xFF7
    case Fat16 => 0xFFF7
    case Fat32 => 0x0FFFFFF7
  }

  /** Sectors of all copies of the table: `n_fats * fsize`. */
  function TablesSize(g: Layout): nat {
    if g.nFats == 2 then 2 * g.fsize else g.fsize
  }

  /** What mounting establishes about the geometry, plus the assumption that the regions
      fit on the drive without 32-bit wrap-around. */
  predicate WellFormed(g: Layout) {
    && PowerOfTwo(g.csize) && g.csize <= 128
    && (g.nFats == 1 || g.nFats == 2)
    && 3 <= g.nFatEnt <= MaxEntries(g.fsType)
    && TableBytes(g.fsType, g.nFatEnt) <= g.fsize * 512
    && g.volBase + 1 <= g.fatBase
    && g.fatBase + TablesSize(g) + g.nRootDir / 16 == g.dataBase
    && g.nRootDir % 16 == 0
    && g.nRootDir < 0x1_0000
    && g.dataBase + Times(g.csize, g.nFatEnt - 2) <= g.total < 0xFFFF_FFFF
    && match g.fsType {
         case Fat32 => g.nRootDir == 0 && 2 <= g.dirBase < g.nFatEnt && g.volBase + 1 < g.fatBase
         case _ => 0 < g.nRootDir && g.dirBase == g.fatBase + TablesSize(g)
       }
  }

  type Geometry = g: Layout | WellFormed(g)
    witness Layout(Fat12, 1, 1, 16, 3, 1, 0, 1, 2, 3, 4)

  predicate InFirstFat(g: Geometry, s: nat) {
    g.fatBase <= s < g.fatBase + g.fsize
  }

  predicate InSecondFat(g: Geometry, s: nat) {
    g.nFats == 2 && g.fatBase + g.fsize <= s < g.fatBase + 2 * g.fsize
  }

  predicate InFatArea(g: Geometry, s: nat) {
    InFirstFat(g, s) || InSecondFat(g, s)
  }

  lemma Regions(g: Geometry)
    ensures (g.nFats == 1 || g.nFats == 2) && g.volBase < g.fatBase
    ensures g.fatBase + TablesSize(g) <= g.dataBase <= g.total < 0xFFFF_FFFF
    ensures 1 <= g.fsize && 3 <= g.nFatEnt <= 0x0FFF_FFF7 && 1 <= g.csize <= 128
  {
  }

  /** The first sector of a cluster; 0 for a number that is no cluster (`clst2sect`). */
  function ClusterToSector(g: Geometry, c: nat): nat
  {
    if 2 <= c < g.nFatEnt then g.dataBase + Times(g.csize, c - 2) else 0
  }

  /** The clusters lie one behind the other from the start of the data region on, numbered from 2. */
  lemma ClusterAddress(g: Geometry, c: nat)
    ensures 2 <= c < g.nFatEnt ==> ClusterToSector(g, c) == g.dataBase + (c - 2) * g.csize
    ensures !(2 <= c < g.nFatEnt) ==> ClusterToSector(g, c) == 0
  {
    hide WellFormed, Times;
    if 2 <= c {
      TimesCommutes(g.csize, c - 2);
    }
  }

  /** `data` written over `s` at `off`. */
  function Splice<T>(s: seq<T>, off: nat, data: seq<T>): (r: seq<T>)
    requires off + |data| <= |s|
    ensures |r| == |s|
    ensures forall i :: 0 <= i < |s| ==>
      r[i] == if off <= i < off + |data| then data[i - off] else s[i]
  {
    s[..off] + data + s[off + |data|..]
  }

  /** The region test of the source, `sect - base < size` on 32-bit words, is the interval test. */
  lemma Sub32IsInterval(a: nat, b: nat, size: nat)
    requires a < 0x1_0000_0000 && b + size < 0x1_0000_0000
    ensures Sub32(a, b) < size <==> b <= a < b + size
    ensures b <= a ==> Sub32(a, b) == a - b
  {
  }

  /** Every sector of a cluster lies in the data region, outside both tables. */
  lemma ClusterSectors(g: Geometry, c: nat, i: nat)
    requires 2 <= c < g.nFatEnt && i < g.csize
    ensures g.dataBase <= ClusterToSector(g, c) + i < g.total
    ensures !InFatArea(g, ClusterToSector(g, c) + i)
  {
    TimesStep(g.csize, c - 2, g.nFatEnt - 2);
  }

  /** Distinct clusters occupy disjoint sectors. */
  lemma ClustersDisjoint(g: Geometry, c: nat, i: nat, d: nat, j: nat)
    requires 2 <= c < g.nFatEnt && 2 <= d < g.nFatEnt && i < g.csize && j < g.csize
    requires ClusterToSector(g, c) + i == ClusterToSector(g, d) + j
    ensures c == d && i == j
  {
    if c < d {
      TimesStep(g.csize, c - 2, d - 2);
    } else if d < c {
      TimesStep(g.csize, d - 2, c - 2);
    }
  }
}
