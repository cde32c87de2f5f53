/** A file as bytes: how offsets map to clusters, sectors and bytes of the volume. */
module FileSpec {
  import opened Arith
  import opened FatTypes
  import opened FatTable
  import opened FatWindow
  import opened ChainSpec

  /** The clusters are cluster numbers and pairwise different. */
  ghost predicate Clusters(g: Geometry, ch: seq<nat>) {
    && (forall i :: 0 <= i < |ch| ==> 2 <= ch[i] < g.nFatEnt)
    && (forall i, j :: 0 <= i < j < |ch| ==> ch[i] != ch[j])
  }

  /** Sectors a chain can hold. */
  function Sectors(g: Geometry, ch: seq<nat>): nat {
    Times(g.csize, |ch|)
  }

  /** The cluster of the n-th sector of a file. */
  function ClusterAt(g: Geometry, ch: seq<nat>, n: nat): (c: nat)
    requires Clusters(g, ch) && n < Sectors(g, ch)
    ensures 2 <= c < g.nFatEnt && c in ch
  {
    QuotBound(n, g.csize, |ch|);
    ch[Quot(n, g.csize)]
  }

  /** The n-th sector of a file. */
  function FileSector(g: Geometry, ch: seq<nat>, n: nat): (s: nat)
    requires Clusters(g, ch) && n < Sectors(g, ch)
  {
    ClusterToSector(g, ClusterAt(g, ch, n)) + Rem(n, g.csize)
  }

  lemma ClusterRange(g: Geometry, ch: seq<nat>, n: nat)
    requires Clusters(g, ch) && n < Sectors(g, ch)
    ensures 2 <= ClusterAt(g, ch, n) < g.nFatEnt
  {
  }

  lemma PowerOfTwoSize(g: Geometry)
    ensures PowerOfTwo(g.csize) && 0 < g.csize <= 128
  {
  }

  lemma FileSectorSplits(g: Geometry, ch: seq<nat>, n: nat)
    requires Clusters(g, ch) && n < Sectors(g, ch)
    ensures FileSector(g, ch, n) == ClusterToSector(g, ClusterAt(g, ch, n)) + Rem(n, g.csize)
    ensures ClusterToSector(g, ClusterAt(g, ch, n)) > 0
  {
  }

  lemma FileSectorInData(g: Geometry, ch: seq<nat>, n: nat)
    requires Clusters(g, ch) && n < Sectors(g, ch)
    ensures g.dataBase <= FileSector(g, ch, n) < g.total && !InFatArea(g, FileSector(g, ch, n))
  {
    ClusterSectors(g, ClusterAt(g, ch, n), Rem(n, g.csize));
  }

  /** The byte of a file at an offset. */
  function FileByte(g: Geometry, d: Disk, ch: seq<nat>, o: nat): byte
    requires |d| == g.total && Clusters(g, ch) && o < 512 * Sectors(g, ch)
  {
    FileSectorInData(g, ch, o / 512);
    d[FileSector(g, ch, o / 512)][o % 512]
  }

  /** The bytes of a file of the given size. */
  function Content(g: Geometry, d: Disk, ch: seq<nat>, size: nat): (r: seq<byte>)
    requires |d| == g.total && Clusters(g, ch) && size <= 512 * Sectors(g, ch)
    ensures |r| == size
  {
    seq(size, o requires 0 <= o < size => FileByte(g, d, ch, o))
  }

  /** Byte `o` of a file with the clusters `ch`, by the numbers of the drive: it is in cluster
      `o / (512 * csize)` of the chain, in sector `o / 512 % csize` of the cluster; cluster 2 is the first
      of the data region. */
  predicate IsByte(d: Disk, dataBase: nat, csize: nat, ch: seq<nat>, o: nat, b: byte) {
    && csize > 0
    && var q := o / (512 * csize);
       && 0 <= q < |ch|
       && var s := dataBase + (ch[q] - 2) * csize + o / 512 % csize;
          0 <= s < |d| && d[s][o % 512] == b
  }

  /** From offset `from` on the file holds `data`. */
  ghost predicate OnDrive(g: Geometry, d: Disk, ch: seq<nat>, from: nat, data: seq<byte>) {
    forall k :: 0 <= k < |data| ==> IsByte(d, g.dataBase, g.csize, ch, from + k, data[k])
  }

  lemma SectorOnDrive(g: Geometry, ch: seq<nat>, n: nat)
    requires Clusters(g, ch) && n < Sectors(g, ch)
    ensures g.csize > 0 && 0 <= n / g.csize < |ch| && 2 <= ch[n / g.csize] < g.nFatEnt
    ensures FileSector(g, ch, n) == g.dataBase + (ch[n / g.csize] - 2) * g.csize + n % g.csize
  {
    PowerOfTwoSize(g);
    hide WellFormed, ClusterToSector, Times, Quot, Rem;
    DivMod(n, g.csize);
    QuotBound(n, g.csize, |ch|);
    ClusterAddress(g, ch[Quot(n, g.csize)]);
  }

  lemma ByteOnDrive(d: Disk, dataBase: nat, csize: nat, ch: seq<nat>, o: nat, s: nat)
    requires csize > 0 && 0 <= o / 512 / csize < |ch| && s < |d|
    requires s == dataBase + (ch[o / 512 / csize] - 2) * csize + o / 512 % csize
    ensures IsByte(d, dataBase, csize, ch, o, d[s][o % 512])
  {
    NestedQuotient(o, 512, csize);
  }

  /** The content of a file, read off the drive. */
  lemma ContentOnDrive(g: Geometry, d: Disk, ch: seq<nat>, size: nat)
    requires |d| == g.total && Clusters(g, ch) && size <= 512 * Sectors(g, ch)
    ensures OnDrive(g, d, ch, 0, Content(g, d, ch, size))
  {
    hide WellFormed, FileSector, Sectors, Clusters, IsByte;
    forall k: nat | k < size
      ensures IsByte(d, g.dataBase, g.csize, ch, 0 + k, Content(g, d, ch, size)[k])
    {
      SectorOnDrive(g, ch, k / 512);
      FileSectorInData(g, ch, k / 512);
      ByteOnDrive(d, g.dataBase, g.csize, ch, k, FileSector(g, ch, k / 512));
      assert Content(g, d, ch, size)[k] == FileByte(g, d, ch, k);
    }
  }

  /** A stretch of bytes that are on the drive. */
  lemma StretchOnDrive(g: Geometry, d: Disk, ch: seq<nat>, b: seq<byte>, from: nat, data: seq<byte>)
    requires OnDrive(g, d, ch, 0, b) && from + |data| <= |b| && b[from..from + |data|] == data
    ensures OnDrive(g, d, ch, from, data)
  {
    hide WellFormed, IsByte;
    forall k | 0 <= k < |data|
      ensures IsByte(d, g.dataBase, g.csize, ch, from + k, data[k])
    {
      assert b[from + k] == b[from..from + |data|][k];
      assert IsByte(d, g.dataBase, g.csize, ch, 0 + (from + k), b[from + k]);
    }
  }

  lemma FileSectorInjective(g: Geometry, ch: seq<nat>, m: nat, n: nat)
    requires Clusters(g, ch) && m < Sectors(g, ch) && n < Sectors(g, ch)
    requires FileSector(g, ch, m) == FileSector(g, ch, n)
    ensures m == n
  {
    DivMod(m, g.csize);
    DivMod(n, g.csize);
    ClustersDisjoint(g, ClusterAt(g, ch, m), Rem(m, g.csize), ClusterAt(g, ch, n), Rem(n, g.csize));
    QuotBound(m, g.csize, |ch|);
    QuotBound(n, g.csize, |ch|);
  }

  /** Inside one cluster consecutive file sectors are consecutive on the drive. */
  lemma FileSectorRun(g: Geometry, ch: seq<nat>, n: nat, k: nat)
    requires Clusters(g, ch) && n < Sectors(g, ch) && Rem(n, g.csize) + k < g.csize
    ensures n + k < Sectors(g, ch) && FileSector(g, ch, n + k) == FileSector(g, ch, n) + k
    ensures ClusterAt(g, ch, n + k) == ClusterAt(g, ch, n)
  {
    Regions(g);
    hide WellFormed;
    QuotAdd(n, k, g.csize);
    QuotBound(n, g.csize, |ch|);
    QuotBound(n + k, g.csize, |ch|);
  }

  ghost predicate InCluster(g: Geometry, c: nat, s: nat)
  {
    ClusterToSector(g, c) <= s < ClusterToSector(g, c) + g.csize
  }

  ghost predicate InFile(g: Geometry, ch: seq<nat>, s: nat)
  {
    exists c :: c in ch && InCluster(g, c, s)
  }

  /** Outside the tables and the clusters of `ch` the volume is as before. */
  ghost predicate TouchesOnly(g: Geometry, ch: seq<nat>, d: Disk, d': Disk)
  {
    |d'| == |d| && forall s: nat {:trigger d'[s]} {:trigger InFile(g, ch, s)} ::
      s < |d| && !InFatArea(g, s) && !InFile(g, ch, s) ==> d'[s] == d[s]
  }

  lemma TouchesChain(g: Geometry, a: seq<nat>, b: seq<nat>, d0: Disk, d1: Disk, d2: Disk)
    requires TouchesOnly(g, a, d0, d1) && TouchesOnly(g, b, d1, d2)
    requires forall c :: c in a ==> c in b
    ensures TouchesOnly(g, b, d0, d2)
  {
    hide WellFormed, InCluster;
  }

  lemma FatOnlyTouches(g: Geometry, ch: seq<nat>, d: Disk, d': Disk)
    requires SameOutsideFat(g, d, d')
    ensures TouchesOnly(g, ch, d, d')
  {
  }

  lemma NotInOtherFile(g: Geometry, ch: seq<nat>, other: seq<nat>, n: nat)
    requires Clusters(g, ch) && Clusters(g, other) && n < Sectors(g, other)
    requires forall c :: c in ch ==> c !in other
    ensures !InFile(g, ch, FileSector(g, other, n))
  {
    var s := FileSector(g, other, n);
    forall c | c in ch
      ensures !InCluster(g, c, s)
    {
      if InCluster(g, c, s) {
        ClustersDisjoint(g, c, s - ClusterToSector(g, c), ClusterAt(g, other, n), Rem(n, g.csize));
      }
    }
  }

  /** Files on disjoint chains do not see each other's writes. */
  lemma OtherFileKept(g: Geometry, ch: seq<nat>, other: seq<nat>, size: nat, d: Disk, d': Disk)
    requires |d| == g.total && TouchesOnly(g, ch, d, d')
    requires Clusters(g, ch) && Clusters(g, other) && size <= 512 * Sectors(g, other)
    requires forall c :: c in ch ==> c !in other
    ensures Content(g, d', other, size) == Content(g, d, other, size)
  {
    forall o | 0 <= o < size
      ensures FileByte(g, d', other, o) == FileByte(g, d, other, o)
    {
      FileSectorInData(g, other, o / 512);
      NotInOtherFile(g, ch, other, o / 512);
    }
  }

  /** A change confined to `cc` sectors of the file within one cluster. */
  ghost predicate ChangedRun(g: Geometry, d: Disk, d': Disk, sect: nat, cc: nat) {
    |d'| == |d| && forall s: nat {:trigger d'[s]} :: s < |d| && !(sect <= s < sect + cc) ==> d'[s] == d[s]
  }

  lemma RunTouches(g: Geometry, ch: seq<nat>, d: Disk, d': Disk, n: nat, cc: nat)
    requires Clusters(g, ch) && n < Sectors(g, ch)
    requires Rem(n, g.csize) + cc <= g.csize && ChangedRun(g, d, d', FileSector(g, ch, n), cc)
    ensures TouchesOnly(g, ch, d, d')
  {
    var c := ClusterAt(g, ch, n);
    forall s: nat | s < |d| && !InFile(g, ch, s)
      ensures d'[s] == d[s]
    {
      assert !InCluster(g, c, s);
    }
  }

  /** A sector of the file outside a run of its sectors lies outside the run on the drive. */
  lemma OutsideRun(g: Geometry, ch: seq<nat>, n: nat, cc: nat, m: nat)
    requires Clusters(g, ch) && n < Sectors(g, ch) && m < Sectors(g, ch)
    requires Rem(n, g.csize) + cc <= g.csize && !(n <= m < n + cc)
    ensures !(FileSector(g, ch, n) <= FileSector(g, ch, m) < FileSector(g, ch, n) + cc)
  {
    hide *;
    var s, t := FileSector(g, ch, n), FileSector(g, ch, m);
    if s <= t < s + cc {
      FileSectorRun(g, ch, n, t - s);
      FileSectorInjective(g, ch, n + (t - s), m);
    }
  }

  /** Where file bytes outside the run stay. */
  lemma RunKeepsByte(g: Geometry, ch: seq<nat>, d: Disk, d': Disk, n: nat, cc: nat, o: nat)
    requires |d| == g.total && Clusters(g, ch) && n < Sectors(g, ch) && o < 512 * Sectors(g, ch)
    requires Rem(n, g.csize) + cc <= g.csize && ChangedRun(g, d, d', FileSector(g, ch, n), cc)
    requires !(n <= o / 512 < n + cc)
    ensures FileByte(g, d', ch, o) == FileByte(g, d, ch, o)
  {
    hide WellFormed, FileSector, Sectors, Clusters, Rem;
    FileSectorInData(g, ch, o / 512);
    OutsideRun(g, ch, n, cc, o / 512);
  }

  /** Where file bytes inside the run lie. */
  lemma RunByte(g: Geometry, ch: seq<nat>, d: Disk, n: nat, o: nat)
    requires |d| == g.total && Clusters(g, ch) && n < Sectors(g, ch)
    requires n <= o / 512 && Rem(n, g.csize) + (o / 512 - n) < g.csize
    ensures o < 512 * Sectors(g, ch) && FileSector(g, ch, n) + (o / 512 - n) < g.total
    ensures FileByte(g, d, ch, o) == d[FileSector(g, ch, n) + (o / 512 - n)][o % 512]
  {
    FileSectorRun(g, ch, n, o / 512 - n);
    FileSectorInData(g, ch, o / 512);
  }

  /** The current cluster is the one holding the byte before the cursor. */
  ghost predicate AtCluster(g: Geometry, ch: seq<nat>, fptr: nat, clust: nat)
    requires Clusters(g, ch)
  {
    fptr > 0 ==> (fptr - 1) / 512 < Sectors(g, ch) && clust == ClusterAt(g, ch, (fptr - 1) / 512)
  }

  /** Inside a sector the current sector is the one under the cursor. */
  ghost predicate AtSector(g: Geometry, ch: seq<nat>, fptr: nat, sect: nat)
    requires Clusters(g, ch)
  {
    fptr % 512 != 0 ==> fptr / 512 < Sectors(g, ch) && sect == FileSector(g, ch, fptr / 512)
  }

  /** Neighbouring sectors of a file: in one cluster, or the second in the next cluster. */
  lemma SectorBefore(g: Geometry, ch: seq<nat>, n: nat)
    requires Clusters(g, ch) && 0 < n < Sectors(g, ch)
    ensures n - 1 < Sectors(g, ch)
    ensures Rem(n, g.csize) != 0 ==> ClusterAt(g, ch, n) == ClusterAt(g, ch, n - 1)
    ensures Rem(n, g.csize) == 0 ==>
      exists i :: 0 <= i < |ch| - 1 && ch[i] == ClusterAt(g, ch, n - 1) && ch[i + 1] == ClusterAt(g, ch, n)
  {
    Regions(g);
    hide WellFormed;
    QuotBound(n, g.csize, |ch|);
    QuotBound(n - 1, g.csize, |ch|);
    if Rem(n, g.csize) != 0 {
      RemPrev(n, g.csize);
    } else {
      QuotPrev(n, g.csize);
      var i := Quot(n - 1, g.csize);
      assert ch[i] == ClusterAt(g, ch, n - 1) && ch[i + 1] == ClusterAt(g, ch, n);
    }
  }

  /** At the start of a cluster the next cluster of the chain is behind the current one. */
  lemma NextCluster(g: Geometry, fat: seq<nat>, ch: seq<nat>, n: nat)
    requires Clusters(g, ch) && IsChain(fat, ch) && 0 < n < Sectors(g, ch) && Rem(n, g.csize) == 0
    ensures n - 1 < Sectors(g, ch) && ClusterAt(g, ch, n - 1) < |fat|
    ensures fat[ClusterAt(g, ch, n - 1)] == ClusterAt(g, ch, n)
  {
    hide WellFormed, Clusters, ClusterAt;
    SectorBefore(g, ch, n);
  }

  /** The entry of the current cluster names the cluster under a cursor at a cluster start. */
  lemma ClusterBehind(g: Geometry, fat: seq<nat>, ch: seq<nat>, fptr: nat, clust: nat)
    requires Clusters(g, ch) && IsChain(fat, ch) && AtCluster(g, ch, fptr, clust)
    requires fptr % 512 == 0 && 0 < fptr < 512 * Sectors(g, ch) && Rem(fptr / 512, g.csize) == 0
    ensures 2 <= clust < g.nFatEnt && clust < |fat| && fat[clust] == ClusterAt(g, ch, fptr / 512)
  {
    hide WellFormed, IsChain, Clusters, ClusterAt, Sectors;
    assert (fptr - 1) / 512 == fptr / 512 - 1;
    NextCluster(g, fat, ch, fptr / 512);
  }

  /** The current cluster is the one under a cursor inside a cluster. */
  lemma ClusterUnder(g: Geometry, ch: seq<nat>, fptr: nat, clust: nat)
    requires Clusters(g, ch) && AtCluster(g, ch, fptr, clust)
    requires fptr % 512 == 0 && fptr < 512 * Sectors(g, ch) && Rem(fptr / 512, g.csize) != 0
    ensures clust == ClusterAt(g, ch, fptr / 512)
  {
    hide WellFormed, Clusters, ClusterAt, Sectors;
    RemPrevPositive(fptr / 512, g.csize);
    assert (fptr - 1) / 512 == fptr / 512 - 1;
    SectorBefore(g, ch, fptr / 512);
  }

  lemma FirstCluster(g: Geometry, ch: seq<nat>)
    requires Clusters(g, ch) && 0 < |ch|
    ensures 0 < Sectors(g, ch) && ch[0] == ClusterAt(g, ch, 0)
  {
    TimesStep(g.csize, 0, |ch|);
  }

  /** Moving the cursor over a run of bytes within one cluster keeps it placed. */
  lemma CursorMoves(g: Geometry, ch: seq<nat>, fptr: nat, len: nat, clust: nat, sect: nat)
    requires Clusters(g, ch) && fptr / 512 < Sectors(g, ch) && 0 < len
    requires clust == ClusterAt(g, ch, fptr / 512)
    requires Rem(fptr / 512, g.csize) + ((fptr + len - 1) / 512 - fptr / 512) < g.csize
    requires (fptr + len) % 512 != 0 ==> (fptr + len) / 512 == fptr / 512 && sect == FileSector(g, ch, fptr / 512)
    ensures AtCluster(g, ch, fptr + len, clust) && AtSector(g, ch, fptr + len, sect)
  {
    Regions(g);
    hide WellFormed;
    FileSectorRun(g, ch, fptr / 512, (fptr + len - 1) / 512 - fptr / 512);
  }

  /** The bytes of a run of sectors, starting at the sector boundary `fptr`. */
  lemma RunBytes(g: Geometry, d: Disk, ch: seq<nat>, fptr: nat, cc: nat)
    requires |d| == g.total && Clusters(g, ch) && fptr % 512 == 0 && fptr / 512 < Sectors(g, ch)
    requires Rem(fptr / 512, g.csize) + cc <= g.csize
    ensures FileSector(g, ch, fptr / 512) + cc <= g.total && fptr + 512 * cc <= 512 * Sectors(g, ch)
    ensures forall o :: fptr <= o < fptr + 512 * cc ==>
      FileByte(g, d, ch, o) == d[FileSector(g, ch, fptr / 512) + (o - fptr) / 512][o % 512]
  {
    var n := fptr / 512;
    FileSectorInData(g, ch, n);
    if cc > 0 {
      FileSectorRun(g, ch, n, cc - 1);
      FileSectorInData(g, ch, n + (cc - 1));
    }
    hide WellFormed;
    forall o: nat | fptr <= o < fptr + 512 * cc
      ensures FileByte(g, d, ch, o) == d[FileSector(g, ch, n) + (o - fptr) / 512][o % 512]
    {
      assert o / 512 == n + (o - fptr) / 512;
      RunByte(g, ch, d, n, o);
    }
  }

  /** `b` holds at `off` the `len` bytes of the file from `o` on. */
  ghost predicate Copied(b: seq<byte>, off: nat, g: Geometry, d: Disk, ch: seq<nat>, o: nat, len: nat)
    requires |d| == g.total && Clusters(g, ch)
  {
    && off + len <= |b| && o + len <= 512 * Sectors(g, ch)
    && forall k :: off <= k < off + len ==> b[k] == FileByte(g, d, ch, o + (k - off))
  }

  /** `b` holds at `off` the sectors from `sect` on. */
  ghost predicate HoldsSectors(b: seq<byte>, off: nat, d: Disk, sect: nat, cc: nat) {
    && off + 512 * cc <= |b| && sect + cc <= |d|
    && forall k :: off <= k < off + 512 * cc ==> b[k] == d[sect + (k - off) / 512][(k - off) % 512]
  }

  lemma SectorsAreBytes(b: seq<byte>, off: nat, g: Geometry, d: Disk, ch: seq<nat>, fptr: nat, cc: nat)
    requires |d| == g.total && Clusters(g, ch) && fptr % 512 == 0 && fptr / 512 < Sectors(g, ch)
    requires Rem(fptr / 512, g.csize) + cc <= g.csize
    requires HoldsSectors(b, off, d, FileSector(g, ch, fptr / 512), cc)
    ensures Copied(b, off, g, d, ch, fptr, 512 * cc)
  {
    RunBytes(g, d, ch, fptr, cc);
    hide WellFormed, Clusters, Sectors, FileByte, FileSector, Rem;
    forall k | off <= k < off + 512 * cc
      ensures b[k] == FileByte(g, d, ch, fptr + (k - off))
    {
      assert (fptr + (k - off)) % 512 == (k - off) % 512;
    }
  }

  /** A stretch of the sector under the cursor. */
  lemma PartIsBytes(b: seq<byte>, off: nat, g: Geometry, d: Disk, ch: seq<nat>, fptr: nat, len: nat)
    requires |d| == g.total && Clusters(g, ch) && fptr / 512 < Sectors(g, ch)
    requires off + len <= |b| && fptr % 512 + len <= 512
    requires FileSector(g, ch, fptr / 512) < g.total
    requires b[off..off + len] == d[FileSector(g, ch, fptr / 512)][fptr % 512..fptr % 512 + len]
    ensures Copied(b, off, g, d, ch, fptr, len)
  {
    hide WellFormed, Clusters, Sectors;
    forall k | off <= k < off + len
      ensures b[k] == FileByte(g, d, ch, fptr + (k - off))
    {
      assert b[k] == b[off..off + len][k - off];
      assert (fptr + (k - off)) / 512 == fptr / 512;
    }
  }

  lemma CopiedJoin(b: seq<byte>, b': seq<byte>, g: Geometry, d: Disk, ch: seq<nat>, o: nat, len: nat, more: nat)
    requires |d| == g.total && Clusters(g, ch) && |b| == |b'|
    requires Copied(b, 0, g, d, ch, o, len) && Copied(b', len, g, d, ch, o + len, more)
    requires forall k :: 0 <= k < len ==> b'[k] == b[k]
    ensures Copied(b', 0, g, d, ch, o, len + more)
  {
    hide FileByte, Clusters, Sectors;
  }

  lemma CopiedIsContent(b: seq<byte>, g: Geometry, d: Disk, ch: seq<nat>, size: nat, o: nat, len: nat)
    requires |d| == g.total && Clusters(g, ch) && size <= 512 * Sectors(g, ch)
    requires Copied(b, 0, g, d, ch, o, len) && o + len <= size
    ensures b[..len] == Content(g, d, ch, size)[o..o + len]
  {
    hide FileByte, Clusters, Sectors;
  }

  /** The clusters of the file whose first cluster is `s`. */
  function ChainOf(chains: map<nat, seq<nat>>, s: nat): seq<nat> {
    if s != 0 && s in chains then chains[s] else []
  }

  /** A file's chain may have grown at its end, every other chain is as it was, and outside
      the tables and the file's clusters so is the volume. */
  ghost predicate Grew(g: Geometry, chains: map<nat, seq<nat>>, s: nat, d: Disk,
                       chains': map<nat, seq<nat>>, s': nat, d': Disk)
  {
    && ChainOf(chains, s) <= ChainOf(chains', s')
    && (s != 0 ==> s' == s)
    && (s' == 0 ==> chains' == chains)
    && (s == 0 && s' != 0 ==> s' !in chains)
    && (forall h :: h in chains && h != s' ==> h in chains' && chains'[h] == chains[h])
    && (forall h :: h in chains' && h != s' ==> h in chains)
    && TouchesOnly(g, ChainOf(chains', s'), d, d')
  }

  lemma GrewTrans(g: Geometry, c0: map<nat, seq<nat>>, s0: nat, d0: Disk,
                  c1: map<nat, seq<nat>>, s1: nat, d1: Disk, c2: map<nat, seq<nat>>, s2: nat, d2: Disk)
    requires Grew(g, c0, s0, d0, c1, s1, d1) && Grew(g, c1, s1, d1, c2, s2, d2)
    ensures Grew(g, c0, s0, d0, c2, s2, d2)
  {
    TouchesChain(g, ChainOf(c1, s1), ChainOf(c2, s2), d0, d1, d2);
    hide TouchesOnly, WellFormed;
  }

  /** Growing a chain keeps its sectors. */
  lemma PrefixSectors(g: Geometry, ch: seq<nat>, ch': seq<nat>, n: nat)
    requires Clusters(g, ch) && Clusters(g, ch') && ch <= ch' && n < Sectors(g, ch)
    ensures n < Sectors(g, ch') && FileSector(g, ch', n) == FileSector(g, ch, n)
    ensures ClusterAt(g, ch', n) == ClusterAt(g, ch, n)
  {
    Regions(g);
    hide WellFormed;
    QuotBound(n, g.csize, |ch|);
    QuotBound(n, g.csize, |ch'|);
  }

  lemma PrefixCapacity(g: Geometry, ch: seq<nat>, ch': seq<nat>)
    requires ch <= ch'
    ensures Sectors(g, ch) <= Sectors(g, ch')
  {
    if |ch| < |ch'| {
      TimesStep(g.csize, |ch|, |ch'|);
    }
  }

  /** A chain grown by the allocator still shows the same bytes. */
  lemma PrefixContent(g: Geometry, ch: seq<nat>, ch': seq<nat>, d: Disk, d': Disk, size: nat)
    requires |d| == g.total && SameOutsideFat(g, d, d')
    requires Clusters(g, ch) && Clusters(g, ch') && ch <= ch' && size <= 512 * Sectors(g, ch)
    ensures size <= 512 * Sectors(g, ch')
    ensures Content(g, d', ch', size) == Content(g, d, ch, size)
  {
    PrefixCapacity(g, ch, ch');
    forall o | 0 <= o < size
      ensures FileByte(g, d', ch', o) == FileByte(g, d, ch, o)
    {
      PrefixSectors(g, ch, ch', o / 512);
      FileSectorInData(g, ch, o / 512);
    }
  }

  /** A chain of a partition is made of different clusters. */
  lemma ChainClusters(g: Geometry, fat: seq<nat>, ch: seq<nat>)
    requires |fat| == g.nFatEnt && (ch == [] || IsChain(fat, ch))
    ensures Clusters(g, ch)
  {
  }

  /** One cluster more makes room at the old end. */
  lemma RoomAtEnd(g: Geometry, ch: seq<nat>, c: nat)
    requires Clusters(g, ch + [c])
    ensures Sectors(g, ch) < Sectors(g, ch + [c]) && ClusterAt(g, ch + [c], Sectors(g, ch)) == c
  {
    Regions(g);
    hide WellFormed;
    TimesStep(g.csize, |ch|, |ch| + 1);
    QuotTimes(g.csize, |ch|, 0);
  }

  /** Where a cursor at the start of a cluster stands: `clust` is the cluster before, and
      the next one is on the chain exactly when the chain has a sector under the cursor. */
  lemma BoundaryPlace(g: Geometry, ch: seq<nat>, fptr: nat, clust: nat)
    requires Clusters(g, ch) && AtCluster(g, ch, fptr, clust)
    requires 0 < fptr && fptr % 512 == 0 && Rem(fptr / 512, g.csize) == 0 && fptr / 512 <= Sectors(g, ch)
    ensures var q := Quot(fptr / 512, g.csize);
            && 1 <= q <= |ch| && ch[q - 1] == clust
            && (q < |ch| ==> fptr / 512 < Sectors(g, ch) && ch[q] == ClusterAt(g, ch, fptr / 512))
            && (q == |ch| ==> fptr / 512 == Sectors(g, ch))
  {
    Regions(g);
    hide WellFormed;
    var n := fptr / 512;
    assert (fptr - 1) / 512 == n - 1;
    QuotPrev(n, g.csize);
    QuotBound(n, g.csize, |ch|);
    QuotBound(n - 1, g.csize, |ch|);
  }

  /** A file grown by one allocated cluster. */
  lemma AllottedGrew(g: Geometry, chains: map<nat, seq<nat>>, s: nat, d: Disk, s': nat, c: nat, d': Disk)
    requires SameOutsideFat(g, d, d')
    requires s' == (if s == 0 then c else s) && c != 0
    requires s == 0 ==> c !in chains
    requires s != 0 ==> s in chains
    ensures Grew(g, chains, s, d, chains[s' := ChainOf(chains, s) + [c]], s', d')
  {
    FatOnlyTouches(g, ChainOf(chains, s) + [c], d, d');
    hide TouchesOnly, WellFormed, SameOutsideFat;
  }

  lemma UnchangedGrew(g: Geometry, chains: map<nat, seq<nat>>, s: nat, d: Disk)
    ensures Grew(g, chains, s, d, chains, s, d)
  {
  }

  /** `data` written over `b` at `at`, past its end if need be. */
  function Overlay(b: seq<byte>, at: nat, data: seq<byte>): (r: seq<byte>)
    requires at <= |b|
    ensures |r| == if at + |data| > |b| then at + |data| else |b|
  {
    b[..at] + data + (if at + |data| < |b| then b[at + |data|..] else [])
  }

  /** The file's bytes up to `size` but for `len` bytes at `at` are as before. */
  ghost predicate KeptBytes(g: Geometry, d: Disk, d': Disk, ch: seq<nat>, size: nat, at: nat, len: nat)
    requires |d| == |d'| == g.total && Clusters(g, ch) && size <= 512 * Sectors(g, ch)
  {
    forall o: nat :: o < size && (o < at || at + len <= o) ==> FileByte(g, d', ch, o) == FileByte(g, d, ch, o)
  }

  /** The file after a run of its bytes was replaced. */
  lemma OverlayContent(g: Geometry, d: Disk, d': Disk, ch: seq<nat>, size: nat, size': nat, fptr: nat,
                       data: seq<byte>, off: nat, len: nat)
    requires |d| == |d'| == g.total && Clusters(g, ch) && fptr <= size <= 512 * Sectors(g, ch)
    requires off + len <= |data| && Copied(data, off, g, d', ch, fptr, len)
    requires KeptBytes(g, d, d', ch, size, fptr, len)
    requires size' == if fptr + len > size then fptr + len else size
    ensures size' <= 512 * Sectors(g, ch)
    ensures Content(g, d', ch, size') == Overlay(Content(g, d, ch, size), fptr, data[off..off + len])
  {
    hide WellFormed, Clusters, Sectors, FileByte;
    var r := Overlay(Content(g, d, ch, size), fptr, data[off..off + len]);
    forall o: nat | o < size'
      ensures Content(g, d', ch, size')[o] == r[o]
    {
      assert fptr <= o < fptr + len ==> data[off..off + len][o - fptr] == data[off + (o - fptr)];
    }
  }

  /** Whole sectors replaced at a sector boundary leave the other bytes of the file. */
  lemma RunKeepsOthers(g: Geometry, ch: seq<nat>, d: Disk, d': Disk, fptr: nat, cc: nat, size: nat)
    requires |d| == |d'| == g.total && Clusters(g, ch) && fptr % 512 == 0 && fptr / 512 < Sectors(g, ch)
    requires Rem(fptr / 512, g.csize) + cc <= g.csize && ChangedRun(g, d, d', FileSector(g, ch, fptr / 512), cc)
    requires size <= 512 * Sectors(g, ch)
    ensures KeptBytes(g, d, d', ch, size, fptr, 512 * cc)
  {
    hide WellFormed, Clusters, Sectors, FileByte, FileSector, ChangedRun, Rem;
    forall o: nat | o < size && (o < fptr || fptr + 512 * cc <= o)
      ensures FileByte(g, d', ch, o) == FileByte(g, d, ch, o)
    {
      RunKeepsByte(g, ch, d, d', fptr / 512, cc, o);
    }
  }

  /** Outside the `len` bytes at `o` the sector is as before. */
  ghost predicate Patched(w: seq<byte>, w': seq<byte>, o: nat, len: nat) {
    |w| == |w'| && forall j: nat :: j < |w| && (j < o || o + len <= j) ==> w'[j] == w[j]
  }

  /** Part of a sector replaced: the rest of the sector stays, or lies past the end of the file. */
  lemma PartKeepsOthers(g: Geometry, ch: seq<nat>, d: Disk, d': Disk, fptr: nat, len: nat, size: nat)
    requires |d| == |d'| == g.total && Clusters(g, ch) && fptr / 512 < Sectors(g, ch) && fptr % 512 + len <= 512
    requires ChangedRun(g, d, d', FileSector(g, ch, fptr / 512), 1) && FileSector(g, ch, fptr / 512) < g.total
    requires size <= 512 * Sectors(g, ch)
    requires Patched(d[FileSector(g, ch, fptr / 512)], d'[FileSector(g, ch, fptr / 512)], fptr % 512, len)
          || (fptr % 512 == 0 && fptr >= size)
    ensures KeptBytes(g, d, d', ch, size, fptr, len)
  {
    Regions(g);
    hide WellFormed, Clusters, Sectors, FileSector, ChangedRun, Rem;
    forall o: nat | o < size && (o < fptr || fptr + len <= o)
      ensures FileByte(g, d', ch, o) == FileByte(g, d, ch, o)
    {
      if o / 512 != fptr / 512 {
        RemSmall(fptr / 512, g.csize);
        RunKeepsByte(g, ch, d, d', fptr / 512, 1, o);
      }
    }
  }

  /** The size of a file whose size follows the cursor. */
  function SizeAfter(size: nat, fptr: nat): nat {
    if fptr > size then fptr else size
  }

  /** What a transfer of a write has done before the cursor moves: the bytes of the file up to
      the size it is about to have are the old ones, `b`, with the data laid over. */
  ghost predicate Transferred(b: seq<byte>, g: Geometry, d: Disk, ch: seq<nat>, fptr: nat, data: seq<byte>, off: nat, len: nat)
    requires |d| == g.total && Clusters(g, ch)
  {
    && fptr <= |b| && off + len <= |data| && SizeAfter(|b|, fptr + len) <= 512 * Sectors(g, ch)
    && Content(g, d, ch, SizeAfter(|b|, fptr + len)) == Overlay(b, fptr, data[off..off + len])
  }

  lemma TransferSectors(g: Geometry, d: Disk, d': Disk, ch: seq<nat>, size: nat, fptr: nat, data: seq<byte>, off: nat, cc: nat)
    requires |d| == |d'| == g.total && Clusters(g, ch) && fptr <= size <= 512 * Sectors(g, ch)
    requires fptr % 512 == 0 && fptr / 512 < Sectors(g, ch) && Rem(fptr / 512, g.csize) + cc <= g.csize
    requires off + 512 * cc <= |data|
    requires ChangedRun(g, d, d', FileSector(g, ch, fptr / 512), cc)
    requires HoldsSectors(data, off, d', FileSector(g, ch, fptr / 512), cc)
    ensures Transferred(Content(g, d, ch, size), g, d', ch, fptr, data, off, 512 * cc)
  {
    hide Clusters, Sectors, FileByte, Content, Copied, KeptBytes, Overlay, WellFormed, FileSector, ChangedRun, HoldsSectors, Rem;
    SectorsAreBytes(data, off, g, d', ch, fptr, cc);
    RunKeepsOthers(g, ch, d, d', fptr, cc, size);
    OverlayContent(g, d, d', ch, size, SizeAfter(size, fptr + 512 * cc), fptr, data, off, 512 * cc);
  }

  /** A write within a file's clusters lets nothing else change. */
  lemma WroteTouches(g: Geometry, chains: map<nat, seq<nat>>, s: nat, d: Disk, d': Disk, n: nat, cc: nat)
    requires Clusters(g, ChainOf(chains, s)) && n < Sectors(g, ChainOf(chains, s)) && Rem(n, g.csize) + cc <= g.csize
    requires |d| == g.total && ChangedRun(g, d, d', FileSector(g, ChainOf(chains, s), n), cc)
    ensures TouchesOnly(g, ChainOf(chains, s), d, d')
    ensures Fat(g, d') == Fat(g, d)
  {
    Regions(g);
    FileSectorInData(g, ChainOf(chains, s), n);
    RunTouches(g, ChainOf(chains, s), d, d', n, cc);
    hide WellFormed, Clusters, Sectors, FileSector, TouchesOnly, Fat;
    TableFrame(g, d, d');
  }

  lemma TransferPart(g: Geometry, d: Disk, d': Disk, ch: seq<nat>, size: nat, fptr: nat, data: seq<byte>, off: nat, len: nat)
    requires |d| == |d'| == g.total && Clusters(g, ch) && fptr <= size <= 512 * Sectors(g, ch)
    requires fptr / 512 < Sectors(g, ch) && fptr % 512 + len <= 512 && off + len <= |data|
    requires FileSector(g, ch, fptr / 512) < g.total && ChangedRun(g, d, d', FileSector(g, ch, fptr / 512), 1)
    requires data[off..off + len] == d'[FileSector(g, ch, fptr / 512)][fptr % 512..fptr % 512 + len]
    requires Patched(d[FileSector(g, ch, fptr / 512)], d'[FileSector(g, ch, fptr / 512)], fptr % 512, len)
          || (fptr % 512 == 0 && fptr >= size)
    ensures Transferred(Content(g, d, ch, size), g, d', ch, fptr, data, off, len)
  {
    hide Clusters, Sectors, FileByte, Content, Copied, KeptBytes, Overlay, WellFormed, FileSector, ChangedRun, Patched;
    PartIsBytes(data, off, g, d', ch, fptr, len);
    PartKeepsOthers(g, ch, d, d', fptr, len, size);
    OverlayContent(g, d, d', ch, size, SizeAfter(size, fptr + len), fptr, data, off, len);
  }

  /** A store to a data sector through the window. */
  lemma StoredPart(g: Geometry, d: Disk, d': Disk, w: Sector, sect: nat, o: nat, data: seq<byte>)
    requires |d| == g.total && g.dataBase <= sect < g.total && o + |data| <= 512
    requires d' == Store(g, d, sect, Splice(w, o, data))
    ensures ChangedRun(g, d, d', sect, 1) && d'[sect] == Splice(w, o, data)
    ensures d'[sect][o..o + |data|] == data
    ensures w == d[sect] ==> Patched(d[sect], d'[sect], o, |data|)
  {
    Regions(g);
    hide WellFormed;
  }

  lemma TransferredFacts(b: seq<byte>, g: Geometry, d: Disk, ch: seq<nat>, fptr: nat, data: seq<byte>, off: nat, len: nat)
    requires |d| == g.total && Clusters(g, ch) && Transferred(b, g, d, ch, fptr, data, off, len)
    ensures fptr <= |b| && off + len <= |data|
    ensures var size := if fptr + len > |b| then fptr + len else |b|;
            size <= 512 * Sectors(g, ch) && Content(g, d, ch, size) == Overlay(b, fptr, data[off..off + len])
  {
    hide Clusters, Sectors, Content, Overlay;
  }

  lemma GrewThenWrote(g: Geometry, c0: map<nat, seq<nat>>, s0: nat, d0: Disk, c1: map<nat, seq<nat>>, s1: nat, d1: Disk, d2: Disk)
    requires Grew(g, c0, s0, d0, c1, s1, d1) && TouchesOnly(g, ChainOf(c1, s1), d1, d2)
    ensures Grew(g, c0, s0, d0, c1, s1, d2)
  {
    TouchesChain(g, ChainOf(c1, s1), ChainOf(c1, s1), d0, d1, d2);
    hide TouchesOnly, WellFormed;
  }

  /** Two writes in a row are one write of the joined data. */
  lemma OverlayJoin(b: seq<byte>, at: nat, data: seq<byte>, m: nat, n: nat)
    requires at <= |b| && m <= n <= |data|
    ensures Overlay(Overlay(b, at, data[..m]), at + m, data[m..n]) == Overlay(b, at, data[..n])
  {
  }

  lemma OverlayNothing(b: seq<byte>, at: nat)
    requires at <= |b|
    ensures Overlay(b, at, []) == b
  {
  }

  /** Quotients by a block of `512 * k` bytes are quotients of the sector number by `k`. */
  lemma {:induction false} QuotBytes(o: nat, k: nat)
    requires k > 0
    ensures Quot(o, 512 * k) == Quot(o / 512, k) && Rem(o, 512 * k) == 512 * Rem(o / 512, k) + o % 512
  {
    if o < 512 * k {
    } else {
      QuotBytes(o - 512 * k, k);
    }
  }

  lemma {:induction false} TimesBytes(k: nat, n: nat)
    ensures Times(512 * k, n) == 512 * Times(k, n)
  {
    if n == 0 {
    } else {
      TimesBytes(k, n - 1);
    }
  }

  /** The r-th sector of the q-th cluster. */
  lemma SectorOfCluster(g: Geometry, ch: seq<nat>, q: nat, r: nat)
    requires Clusters(g, ch) && q < |ch| && r < g.csize
    ensures Times(g.csize, q) + r < Sectors(g, ch)
    ensures ClusterAt(g, ch, Times(g.csize, q) + r) == ch[q]
    ensures FileSector(g, ch, Times(g.csize, q) + r) == ClusterToSector(g, ch[q]) + r
  {
    hide WellFormed, Quot, Rem, Times, ClusterToSector;
    QuotTimes(g.csize, q, r);
    QuotBound(Times(g.csize, q) + r, g.csize, |ch|);
  }

  /** Where a seek ends: `ofs` bytes from the start of the q-th cluster, or at its end. */
  lemma SeekPlace(g: Geometry, ch: seq<nat>, q: nat, ofs: nat, sect: nat)
    requires Clusters(g, ch) && q < |ch| && 0 < ofs <= 512 * g.csize
    requires ofs % 512 != 0 ==> sect == ClusterToSector(g, ch[q]) + ofs / 512
    ensures var fptr := 512 * Times(g.csize, q) + ofs;
            AtCluster(g, ch, fptr, ch[q]) && AtSector(g, ch, fptr, sect) && fptr <= 512 * Sectors(g, ch)
  {
    Regions(g);
    hide WellFormed, Clusters, ClusterAt, FileSector, Sectors, Times, ClusterToSector;
    var t := Times(g.csize, q);
    var fptr := 512 * t + ofs;
    assert (fptr - 1) / 512 == t + (ofs - 1) / 512;
    SectorOfCluster(g, ch, q, (ofs - 1) / 512);
    if ofs % 512 != 0 {
      assert fptr / 512 == t + ofs / 512;
      SectorOfCluster(g, ch, q, ofs / 512);
    }
  }

  /** Where a seek starts again: the cluster index of the cursor and its first byte. */
  lemma ResumePlace(g: Geometry, ch: seq<nat>, fptr: nat, clust: nat)
    requires Clusters(g, ch) && AtCluster(g, ch, fptr, clust) && 0 < fptr
    ensures var q := Quot(fptr - 1, 512 * g.csize);
            && q < |ch| && clust == ch[q]
            && (fptr - 1) - Rem(fptr - 1, 512 * g.csize) == 512 * Times(g.csize, q)
  {
    Regions(g);
    hide WellFormed;
    QuotBytes(fptr - 1, g.csize);
    QuotBound((fptr - 1) / 512, g.csize, |ch|);
    DivMod((fptr - 1) / 512, g.csize);
  }

  /** An offset on the chain beyond the first `q + 1` clusters has one more cluster. */
  lemma ClusterBeyond(g: Geometry, ch: seq<nat>, q: nat, o: nat)
    requires 512 * Times(g.csize, q + 1) < o <= 512 * Sectors(g, ch)
    ensures q + 1 < |ch|
  {
    if |ch| <= q {
      TimesStep(g.csize, |ch|, q + 1);
    }
  }

  /** Where a seek aims: a file that is not written is not stretched. */
  function SeekTarget(size: nat, canWrite: bool, ofs: nat): nat {
    if ofs > size && !canWrite then size else ofs
  }

  lemma SeekTargetIs(size: nat, canWrite: bool, ofs: nat)
    ensures SeekTarget(size, canWrite, ofs) == if ofs > size && !canWrite then size else ofs
    ensures forall fptr: nat :: SizeAfter(size, fptr) == if fptr > size then fptr else size
  {
  }

  lemma CursorAtStart(g: Geometry, ch: seq<nat>, clust: nat, sect: nat)
    requires Clusters(g, ch)
    ensures AtCluster(g, ch, 0, clust) && AtSector(g, ch, 0, sect)
  {
  }

  lemma SectorPlaced(g: Geometry, ch: seq<nat>, fptr: nat, nsect: nat, sect: nat)
    requires Clusters(g, ch) && AtSector(g, ch, fptr, nsect) && (fptr % 512 != 0 ==> sect == nsect)
    ensures AtSector(g, ch, fptr, sect)
  {
  }

  lemma ChainCluster(g: Geometry, ch: seq<nat>, q: nat)
    requires Clusters(g, ch) && q < |ch|
    ensures ClusterToSector(g, ch[q]) > 0 && 2 <= ch[q] < g.nFatEnt
  {
  }

  lemma SectorsAre(g: Geometry, ch: seq<nat>)
    ensures Sectors(g, ch) == Times(g.csize, |ch|)
  {
  }

  lemma ContentPrefix(g: Geometry, d: Disk, ch: seq<nat>, size: nat, size': nat)
    requires |d| == g.total && Clusters(g, ch) && size <= size' <= 512 * Sectors(g, ch)
    ensures Content(g, d, ch, size')[..size] == Content(g, d, ch, size)
  {
    hide WellFormed, Clusters, Sectors, FileByte;
  }
}
