/** The packed table of FAT12, FAT16 and FAT32 as a codec between bytes and entries,
    and the little-endian loads and stores it uses. */
module FatCodec {
  import opened FatTypes

  function LdWord(b: seq<byte>, i: nat): (r: nat)
    requires i + 2 <= |b|
    ensures r < 0x1_0000
  {
    (b[i] as int) + 0x100 * (b[i + 1] as int)
  }

  function LdDword(b: seq<byte>, i: nat): (r: nat)
    requires i + 4 <= |b|
    ensures r < 0x1_0000_0000
  {
    (b[i] as int) + 0x100 * (b[i + 1] as int) + 0x1_0000 * (b[i + 2] as int) + 0x100_0000 * (b[i + 3] as int)
  }

  function StWord(v: nat): (r: seq<byte>)
    ensures |r| == 2
  {
    [v % 0x100, v / 0x100 % 0x100]
  }

  function StDword(v: nat): (r: seq<byte>)
    ensures |r| == 4
  {
    [v % 0x100, v / 0x100 % 0x100, v / 0x1_0000 % 0x100, v / 0x100_0000 % 0x100]
  }

  /** The byte order: the least significant byte first. */
  lemma LoadDigits(b: seq<byte>, i: nat)
    ensures i + 2 <= |b| ==> LdWord(b, i) % 0x100 == b[i] && LdWord(b, i) / 0x100 == b[i + 1]
    ensures i + 4 <= |b| ==>
      && LdDword(b, i) % 0x100 == b[i] && LdDword(b, i) / 0x100 % 0x100 == b[i + 1]
      && LdDword(b, i) / 0x1_0000 % 0x100 == b[i + 2] && LdDword(b, i) / 0x100_0000 == b[i + 3]
  {
    if i + 4 <= |b| {
      var v := LdDword(b, i);
      assert v / 0x100 == b[i + 1] + 0x100 * (b[i + 2] as int) + 0x1_0000 * (b[i + 3] as int);
      assert v / 0x1_0000 == b[i + 2] + 0x100 * (b[i + 3] as int);
    }
  }

  /** Two and four bytes as numbers. */
  function WordAt(b: seq<byte>, i: nat): nat
    requires i + 2 <= |b|
  {
    b[i] as int + b[i + 1] as int * 0x100
  }

  function DwordAt(b: seq<byte>, i: nat): nat
    requires i + 4 <= |b|
  {
    WordAt(b, i) + WordAt(b, i + 2) * 0x1_0000
  }

  lemma LoadsAre(b: seq<byte>, i: nat)
    ensures i + 2 <= |b| ==> LdWord(b, i) == WordAt(b, i)
    ensures i + 4 <= |b| ==> LdDword(b, i) == DwordAt(b, i)
  {
  }

  lemma StoreDigits(v: nat)
    ensures StWord(v) == [v % 0x100, v / 0x100 % 0x100]
    ensures StDword(v) == [v % 0x100, v / 0x100 % 0x100, v / 0x1_0000 % 0x100, v / 0x100_0000 % 0x100]
  {
  }

  /** Values an entry can hold. */
  function EntryRange(t: FatType): nat {
    match t
    case Fat12 => 0x1000
    case Fat16 => 0x1_0000
    case Fat32 => 0x1000_0000
  }

  /** Byte offset of an entry. */
  function EntryOffset(t: FatType, c: nat): nat {
    match t
    case Fat12 => c + c / 2
    case Fat16 => c * 2
    case Fat32 => c * 4
  }

  predicate Holds(t: FatType, b: seq<byte>, c: nat) {
    EntryOffset(t, c) + (if t.Fat32? then 4 else 2) <= |b|
  }

  function GetEntry(t: FatType, b: seq<byte>, c: nat): (r: nat)
    requires Holds(t, b, c)
    ensures r < EntryRange(t)
  {
    var o := EntryOffset(t, c);
    match t
    case Fat12 => if c % 2 == 1 then LdWord(b, o) / 16 else LdWord(b, o) % 0x1000
    case Fat16 => LdWord(b, o)
    case Fat32 => LdDword(b, o) % 0x1000_0000
  }

  /** First byte of a FAT12 entry after storing `v`, given the byte there now. */
  function Low12(c: nat, old8: byte, v: nat): byte {
    if c % 2 == 1 then old8 % 16 + v % 16 * 16 else v % 0x100
  }

  function High12(c: nat, old8: byte, v: nat): byte {
    if c % 2 == 1 then v / 16 % 0x100 else old8 / 16 * 16 + v / 0x100 % 16
  }

  /** The dword stored for a FAT32 entry: the upper four bits stay. */
  function Merge32(old32: nat, v: nat): nat {
    v % 0x1000_0000 + old32 / 0x1000_0000 * 0x1000_0000
  }

  function PutEntry(t: FatType, b: seq<byte>, c: nat, v: nat): (r: seq<byte>)
    requires Holds(t, b, c)
    ensures |r| == |b|
  {
    var o := EntryOffset(t, c);
    match t
    case Fat12 => Splice(Splice(b, o, [Low12(c, b[o], v)]), o + 1, [High12(c, b[o + 1], v)])
    case Fat16 => Splice(b, o, StWord(v))
    case Fat32 => Splice(b, o, StDword(Merge32(LdDword(b, o), v)))
  }

  lemma Split32(v: nat)
    requires v < 0x1_0000_0000
    ensures v % 0x100 + 0x100 * (v / 0x100 % 0x100) + 0x1_0000 * (v / 0x1_0000 % 0x100)
            + 0x100_0000 * (v / 0x100_0000 % 0x100) == v
  {
    assert v / 0x1_0000 == v / 0x100 / 0x100 && v / 0x100_0000 == v / 0x100 / 0x100 / 0x100;
  }

  lemma LoadStoreDword(b: seq<byte>, i: nat, v: nat)
    requires i + 4 <= |b| && v < 0x1_0000_0000
    ensures LdDword(Splice(b, i, StDword(v)), i) == v
  {
    Split32(v);
    var r := Splice(b, i, StDword(v));
    assert r[i] == StDword(v)[0] && r[i + 1] == StDword(v)[1] && r[i + 2] == StDword(v)[2] && r[i + 3] == StDword(v)[3];
  }

  lemma Merge32Fits(old32: nat, v: nat)
    requires old32 < 0x1_0000_0000
    ensures Merge32(old32, v) < 0x1_0000_0000
    ensures Merge32(old32, v) % 0x1000_0000 == v % 0x1000_0000
    ensures Merge32(old32, v) / 0x1000_0000 == old32 / 0x1000_0000
  {
  }

  lemma PackOdd(b0: byte, v: nat)
    ensures ((b0 % 16 + v % 16 * 16) + 0x100 * (v / 16 % 0x100)) / 16 == v % 0x1000
  {
    assert v % 0x1000 == v / 16 % 0x100 * 16 + v % 16;
  }

  lemma PackEven(b1: byte, v: nat)
    ensures (v % 0x100 + 0x100 * (b1 / 16 * 16 + v / 0x100 % 16)) % 0x1000 == v % 0x1000
  {
    assert v % 0x1000 == v / 0x100 % 16 * 0x100 + v % 0x100;
  }

  lemma Pack12(c: nat, b0: byte, b1: byte, v: nat)
    ensures var w := (Low12(c, b0, v) as int) + 0x100 * (High12(c, b1, v) as int);
            (if c % 2 == 1 then w / 16 else w % 0x1000) == v % 0x1000
  {
    PackOdd(b0, v);
    PackEven(b1, v);
  }

  /** A stored entry reads back as its value cut to the entry width. */
  lemma PutGetSame(t: FatType, b: seq<byte>, c: nat, v: nat)
    requires Holds(t, b, c)
    ensures GetEntry(t, PutEntry(t, b, c, v), c) == v % EntryRange(t)
  {
    var o := EntryOffset(t, c);
    match t
    case Fat12 =>
      Pack12(c, b[o], b[o + 1], v);
    case Fat16 =>
      var r := Splice(b, o, StWord(v));
      assert r[o] == StWord(v)[0] && r[o + 1] == StWord(v)[1];
    case Fat32 =>
      var m := Merge32(LdDword(b, o), v);
      Merge32Fits(LdDword(b, o), v);
      LoadStoreDword(b, o, m);
  }

  lemma Nibbles(x: byte, y: byte)
    ensures ((x as int) + 0x100 * (y as int)) / 16 == x / 16 + 16 * (y as int)
    ensures ((x as int) + 0x100 * (y as int)) % 0x1000 == (x as int) + 0x100 * (y % 16)
  {
    assert (x as int) + 0x100 * (y as int) == (x as int) + 0x100 * (y % 16) + 0x1000 * (y / 16);
  }

  /** A FAT12 entry depends on one whole byte and one nibble only. */
  lemma Shared12(b: seq<byte>, r: seq<byte>, p: nat, d: nat)
    requires Holds(Fat12, b, d) && |r| == |b| && p == EntryOffset(Fat12, d)
    requires if d % 2 == 1 then r[p] / 16 == b[p] / 16 && r[p + 1] == b[p + 1]
                           else r[p] == b[p] && r[p + 1] % 16 == b[p + 1] % 16
    ensures GetEntry(Fat12, r, d) == GetEntry(Fat12, b, d)
  {
    Nibbles(b[p], b[p + 1]);
    Nibbles(r[p], r[p + 1]);
  }

  lemma PutGetOther12(b: seq<byte>, c: nat, v: nat, d: nat)
    requires Holds(Fat12, b, c) && Holds(Fat12, b, d) && c != d
    ensures GetEntry(Fat12, PutEntry(Fat12, b, c, v), d) == GetEntry(Fat12, b, d)
  {
    hide GetEntry, LdWord;
    var o, p := EntryOffset(Fat12, c), EntryOffset(Fat12, d);
    var r := PutEntry(Fat12, b, c, v);
    if c % 2 == 0 && d == c + 1 {
      Shared12(b, r, p, d);
    } else if c % 2 == 1 && d + 1 == c {
      Shared12(b, r, p, d);
    } else {
      Shared12(b, r, p, d);
    }
  }

  /** Every other entry reads as before, even where FAT12 entries share a byte. */
  lemma PutGetOther(t: FatType, b: seq<byte>, c: nat, v: nat, d: nat)
    requires Holds(t, b, c) && Holds(t, b, d) && c != d
    ensures GetEntry(t, PutEntry(t, b, c, v), d) == GetEntry(t, b, d)
  {
    if t.Fat12? {
      PutGetOther12(b, c, v, d);
    }
  }

  lemma TopNibble(b: seq<byte>, i: nat)
    requires i + 4 <= |b|
    ensures LdDword(b, i) / 0x1000_0000 == b[i + 3] / 16
  {
  }

  /** Storing touches only the entry's own bytes. */
  lemma PutTouches(t: FatType, b: seq<byte>, c: nat, v: nat, i: nat)
    requires Holds(t, b, c) && i < |b|
    requires !(EntryOffset(t, c) <= i < EntryOffset(t, c) + (if t.Fat32? then 4 else 2))
    ensures PutEntry(t, b, c, v)[i] == b[i]
  {
    hide LdDword, StDword, StWord, Merge32, Low12, High12;
  }

  /** A FAT32 entry keeps its four reserved bits. */
  lemma PutKeepsReserved(b: seq<byte>, c: nat, v: nat)
    requires Holds(Fat32, b, c)
    ensures PutEntry(Fat32, b, c, v)[4 * c + 3] / 16 == b[4 * c + 3] / 16
  {
    hide LdDword, StDword, Merge32;
    var m := Merge32(LdDword(b, 4 * c), v);
    Merge32Fits(LdDword(b, 4 * c), v);
    LoadStoreDword(b, 4 * c, m);
    TopNibble(b, 4 * c);
    TopNibble(PutEntry(Fat32, b, c, v), 4 * c);
  }

  /** The end mark 0xFFFFFFFF reads back as no cluster number of any volume of the type. */
  lemma EndMarkReadsBack(t: FatType, b: seq<byte>, c: nat)
    requires Holds(t, b, c)
    ensures GetEntry(t, PutEntry(t, b, c, 0xFFFF_FFFF), c) >= MaxEntries(t)
  {
    PutGetSame(t, b, c, 0xFFFF_FFFF);
  }
}
