/** A directory table as slots, and as a map from names to entries. */
module DirSpec {
  import opened FatTypes
  import opened FatWindow
  import opened FatTable
  import opened FileSpec

  const MAX_DIR: nat := 0x20_0000
  const DELETED: byte := 0xE5

  /** A directory entry of 32 bytes: name at 0, attributes at 11. */
  type Slot = s: seq<byte> | |s| == 32 witness seq(32, i => 0)

  type Name = s: seq<byte> | |s| == 11 witness seq(11, i => 0)

  function NameOf(s: Slot): Name {
    s[..11]
  }

  predicate Unused(s: Slot) {
    s[0] == 0 || s[0] == DELETED
  }

  /** An entry that names an object: in use, and no volume label (AM_VOL). */
  predicate Live(s: Slot) {
    !Unused(s) && s[11] / 8 % 2 == 0
  }

  /** A name that create_name can produce for an object. */
  predicate Proper(name: Name) {
    name[0] != 0 && name[0] != DELETED
  }

  /** No entry lies behind an end mark. */
  ghost predicate Packed(slots: seq<Slot>) {
    forall i, j :: 0 <= i < j < |slots| && slots[i][0] == 0 ==> slots[j][0] == 0
  }

  ghost predicate Unique(slots: seq<Slot>) {
    forall i, j :: 0 <= i < j < |slots| && Live(slots[i]) && Live(slots[j]) ==> NameOf(slots[i]) != NameOf(slots[j])
  }

  ghost predicate DirOk(slots: seq<Slot>) {
    Packed(slots) && Unique(slots)
  }

  /** The directory: its live entries by name. */
  ghost function Entries(slots: seq<Slot>): map<Name, Slot>
    requires Unique(slots)
  {
    map i | 0 <= i < |slots| && Live(slots[i]) :: NameOf(slots[i]) := slots[i]
  }

  /** Slot `i` is the live entry of the name. */
  ghost predicate Binds(slots: seq<Slot>, name: Name, i: int) {
    0 <= i < |slots| && Live(slots[i]) && NameOf(slots[i]) == name
  }

  /** The name is bound exactly when some slot is its live entry, and to that entry. */
  lemma EntriesBind(slots: seq<Slot>, name: Name)
    requires Unique(slots)
    ensures name in Entries(slots) <==> exists i :: Binds(slots, name, i)
    ensures forall i :: Binds(slots, name, i) ==> name in Entries(slots) && Entries(slots)[name] == slots[i]
  {
    if name in Entries(slots) {
      var i :| 0 <= i < |slots| && Live(slots[i]) && NameOf(slots[i]) == name;
      assert Binds(slots, name, i);
    }
  }

  /** The bindings of one name after a slot was replaced. */
  lemma SlotUpdate(slots: seq<Slot>, k: nat, s: Slot, name: Name)
    requires k < |slots| && Unique(slots) && Unique(slots[k := s])
    ensures Live(s) && NameOf(s) == name ==> name in Entries(slots[k := s]) && Entries(slots[k := s])[name] == s
    ensures !(Live(s) && NameOf(s) == name) && !(Live(slots[k]) && NameOf(slots[k]) == name) ==>
      && (name in Entries(slots[k := s]) <==> name in Entries(slots))
      && (name in Entries(slots) ==> Entries(slots[k := s])[name] == Entries(slots)[name])
    ensures !(Live(s) && NameOf(s) == name) && Live(slots[k]) && NameOf(slots[k]) == name ==>
      name !in Entries(slots[k := s])
  {
    var slots' := slots[k := s];
    EntriesBind(slots', name);
    EntriesBind(slots, name);
    assert Live(s) && NameOf(s) == name ==> Binds(slots', name, k);
    if i :| Binds(slots', name, i) {
      assert i != k ==> Binds(slots, name, i);
    }
    if i :| Binds(slots, name, i) {
      assert i != k ==> Binds(slots', name, i);
    }
  }

  lemma AddKeepsOk(slots: seq<Slot>, k: nat, s: Slot)
    requires DirOk(slots) && k < |slots| && Live(s)
    requires forall i :: !Binds(slots, NameOf(s), i)
    requires forall i :: 0 <= i < k ==> slots[i][0] != 0
    ensures DirOk(slots[k := s])
  {
    var slots' := slots[k := s];
    forall i, j | 0 <= i < j < |slots'| && Live(slots'[i]) && Live(slots'[j])
      ensures NameOf(slots'[i]) != NameOf(slots'[j])
    {
      assert !Binds(slots, NameOf(s), i) && !Binds(slots, NameOf(s), j);
    }
  }

  /** A new entry in an unused slot adds one binding. */
  lemma AddEntry(slots: seq<Slot>, k: nat, s: Slot)
    requires DirOk(slots) && k < |slots| && Unused(slots[k]) && Live(s) && NameOf(s) !in Entries(slots)
    requires forall i :: 0 <= i < k ==> slots[i][0] != 0
    ensures DirOk(slots[k := s]) && Entries(slots[k := s]) == Entries(slots)[NameOf(s) := s]
  {
    EntriesBind(slots, NameOf(s));
    AddKeepsOk(slots, k, s);
    hide Entries, Packed, Unique, NameOf;
    forall name: Name
      ensures name in Entries(slots[k := s]) <==> name == NameOf(s) || name in Entries(slots)
      ensures name in Entries(slots[k := s]) ==>
        Entries(slots[k := s])[name] == if name == NameOf(s) then s else Entries(slots)[name]
    {
      SlotUpdate(slots, k, s, name);
    }
  }

  lemma LiveIsBound(slots: seq<Slot>, k: nat)
    requires Unique(slots) && k < |slots| && Live(slots[k])
    ensures NameOf(slots[k]) in Entries(slots) && Entries(slots)[NameOf(slots[k])] == slots[k]
  {
    EntriesBind(slots, NameOf(slots[k]));
    assert Binds(slots, NameOf(slots[k]), k);
  }

  lemma DropKeepsOk(slots: seq<Slot>, k: nat, s: Slot)
    requires DirOk(slots) && k < |slots| && Live(slots[k]) && s[0] == DELETED
    ensures DirOk(slots[k := s])
  {
  }

  lemma WithoutKey(m: map<Name, Slot>, m': map<Name, Slot>, key: Name)
    requires forall name :: name in m' <==> name in m && name != key
    requires forall name :: name in m' ==> m'[name] == m[name]
    ensures m' == m - {key}
  {
  }

  lemma DroppedSlot(slots: seq<Slot>, k: nat, s: Slot, name: Name)
    requires k < |slots| && Unique(slots) && Unique(slots[k := s]) && Live(slots[k]) && s[0] == DELETED
    ensures name in Entries(slots[k := s]) <==> name in Entries(slots) && name != NameOf(slots[k])
    ensures name in Entries(slots[k := s]) ==> Entries(slots[k := s])[name] == Entries(slots)[name]
  {
    hide Entries, NameOf;
    SlotUpdate(slots, k, s, name);
  }

  /** Marking a live entry deleted removes its binding. */
  lemma DropEntry(slots: seq<Slot>, k: nat, s: Slot)
    requires DirOk(slots) && k < |slots| && Live(slots[k]) && s[0] == DELETED
    ensures DirOk(slots[k := s]) && NameOf(slots[k]) in Entries(slots)
    ensures Entries(slots[k := s]) == Entries(slots) - {NameOf(slots[k])}
  {
    DropKeepsOk(slots, k, s);
    LiveIsBound(slots, k);
    hide Entries, Packed, Unique, NameOf, Live;
    var m, m' := Entries(slots), Entries(slots[k := s]);
    forall name: Name
      ensures name in m' <==> name in m && name != NameOf(slots[k])
      ensures name in m' ==> m'[name] == m[name]
    {
      DroppedSlot(slots, k, s, name);
    }
    WithoutKey(m, m', NameOf(slots[k]));
  }

  predicate Blank(slots: seq<Slot>) {
    forall i :: 0 <= i < |slots| ==> slots[i][0] == 0
  }

  /** A table stretched by blank slots is the same directory. */
  lemma StretchTable(slots: seq<Slot>, more: seq<Slot>)
    requires DirOk(slots) && Blank(more)
    ensures DirOk(slots + more) && Entries(slots + more) == Entries(slots)
  {
    forall name: Name
      ensures name in Entries(slots + more) <==> name in Entries(slots)
      ensures name in Entries(slots) ==> Entries(slots + more)[name] == Entries(slots)[name]
    {
      EntriesBind(slots + more, name);
      EntriesBind(slots, name);
      if i :| Binds(slots, name, i) {
        assert Binds(slots + more, name, i);
      }
      if i :| Binds(slots + more, name, i) {
        assert Binds(slots, name, i);
      }
    }
  }

  /** A search that stops at an end mark has seen every live entry. */
  lemma NothingBehind(slots: seq<Slot>, k: nat, name: Name)
    requires DirOk(slots) && k <= |slots| && (k < |slots| ==> slots[k][0] == 0)
    requires forall i :: 0 <= i < k ==> !Binds(slots, name, i)
    ensures name !in Entries(slots)
  {
    EntriesBind(slots, name);
    forall i | k <= i < |slots|
      ensures !Binds(slots, name, i)
    {
      assert slots[k][0] == 0;
    }
  }

  /** None of the first `k` slots is the live entry of the name. */
  ghost predicate NoneBefore(slots: seq<Slot>, name: Name, k: nat) {
    forall i :: 0 <= i < k ==> !Binds(slots, name, i)
  }

  /** One slot of the search of `dir_find`. */
  lemma FindStep(slots: seq<Slot>, name: Name, k: nat)
    requires DirOk(slots) && Proper(name) && k < |slots| && NoneBefore(slots, name, k)
    ensures slots[k][0] == 0 ==> name !in Entries(slots)
    ensures slots[k][11] / 8 % 2 == 0 && slots[k][..11] == name ==> Live(slots[k]) && NameOf(slots[k]) == name && name in Entries(slots)
    ensures slots[k][0] != 0 && !(slots[k][11] / 8 % 2 == 0 && slots[k][..11] == name) ==> NoneBefore(slots, name, k + 1)
    ensures slots[k][0] != 0 && !(slots[k][11] / 8 % 2 == 0 && slots[k][..11] == name) && k + 1 == |slots| ==> name !in Entries(slots)
  {
    if slots[k][0] == 0 {
      NothingBehind(slots, k, name);
    } else if slots[k][11] / 8 % 2 == 0 && slots[k][..11] == name {
      assert slots[k][0] == slots[k][..11][0];
      LiveIsBound(slots, k);
    } else if k + 1 == |slots| {
      NothingBehind(slots, k + 1, name);
    }
  }

  /** The slots from `i` on are `n` unused ones. */
  ghost predicate FreeRun(slots: seq<Slot>, i: int, n: nat) {
    0 <= i && i + n <= |slots| && forall j :: i <= j < i + n ==> Unused(slots[j])
  }

  /** No `n` unused slots in a row among the first `k`. */
  ghost predicate NoRun(slots: seq<Slot>, k: nat, n: nat) {
    forall i {:trigger FreeRun(slots, i, n)} :: 0 <= i && i + n <= k ==> !FreeRun(slots, i, n)
  }

  /** Exactly the last `n` of the first `k` slots form a row of unused ones. */
  ghost predicate RunUpTo(slots: seq<Slot>, k: nat, n: nat) {
    n <= k <= |slots| && FreeRun(slots, k - n, n) && (n < k ==> !Unused(slots[k - n - 1]))
  }

  /** One slot of the search of `dir_alloc`. */
  lemma AllocStep(slots: seq<Slot>, k: nat, n: nat, nent: nat)
    requires k < |slots| && n < nent && RunUpTo(slots, k, n) && NoRun(slots, k, nent)
    ensures Unused(slots[k]) && n + 1 == nent ==> FreeRun(slots, k + 1 - nent, nent)
    ensures Unused(slots[k]) && n + 1 < nent ==> RunUpTo(slots, k + 1, n + 1) && NoRun(slots, k + 1, nent)
    ensures !Unused(slots[k]) ==> RunUpTo(slots, k + 1, 0) && NoRun(slots, k + 1, nent)
  {
    if !Unused(slots[k]) || n + 1 < nent {
      forall i {:trigger FreeRun(slots, i, nent)} | 0 <= i && i + nent <= k + 1
        ensures !FreeRun(slots, i, nent)
      {
        if i + nent == k + 1 && Unused(slots[k]) {
          assert i <= k - n - 1 < i + nent;
        }
      }
    }
  }

  /** Slots appended, all blank. */
  ghost predicate Extends(t: seq<Slot>, t': seq<Slot>) {
    |t| <= |t'| && t' == t + t'[|t|..] && Blank(t'[|t|..])
  }

  lemma ExtendsTrans(t: seq<Slot>, t1: seq<Slot>, t2: seq<Slot>)
    requires Extends(t, t1) && Extends(t1, t2)
    ensures Extends(t, t2)
  {
    var more := t2[|t|..];
    forall i | 0 <= i < |more|
      ensures more[i][0] == 0
    {
      assert i + |t| < |t1| ==> more[i] == t1[i + |t|] == t1[|t|..][i];
      assert i + |t| >= |t1| ==> more[i] == t2[|t1|..][i + |t| - |t1|];
    }
    forall i | 0 <= i < |t|
      ensures t2[i] == t[i]
    {
      assert t2[i] == t1[i];
    }
  }

  lemma ExtendsSearch(t: seq<Slot>, t': seq<Slot>, k: nat, n: nat, nent: nat)
    requires Extends(t, t') && RunUpTo(t, k, n) && NoRun(t, k, nent)
    ensures RunUpTo(t', k, n) && NoRun(t', k, nent)
  {
    assert forall i :: 0 <= i < |t| ==> t'[i] == t[i];
    forall i | 0 <= i && i + nent <= k
      ensures !FreeRun(t', i, nent)
    {
      assert !FreeRun(t, i, nent);
      var j :| i <= j < i + nent && !Unused(t[j]);
      assert t'[j] == t[j];
    }
  }

  lemma ExtendsOk(t: seq<Slot>, t': seq<Slot>)
    requires DirOk(t) && Extends(t, t')
    ensures DirOk(t') && Entries(t') == Entries(t)
  {
    StretchTable(t, t'[|t|..]);
  }

  /** A freshly written entry: the name and zeros. */
  function NewEntry(name: Name): (s: Slot)
    ensures NameOf(s) == name
  {
    name + seq(21, i => 0)
  }

  /** `dir_register` in the first unused slot of a directory without the name. */
  lemma Registered(t: seq<Slot>, k: nat, name: Name)
    requires DirOk(t) && k < |t| && Proper(name) && name !in Entries(t) && Unused(t[k]) && NoRun(t, k, 1)
    ensures DirOk(t[k := NewEntry(name)]) && Entries(t[k := NewEntry(name)]) == Entries(t)[name := NewEntry(name)]
  {
    forall i | 0 <= i < k
      ensures t[i][0] != 0
    {
      assert !FreeRun(t, i, 1);
    }
    assert Live(NewEntry(name)) by {
      assert NewEntry(name)[0] == name[0] && NewEntry(name)[11] == 0;
    }
    AddEntry(t, k, NewEntry(name));
  }

  /** A slot whose first byte says that it is free: never used or deleted. */
  predicate FreeByte(b: byte) {
    b == 0x00 || b == 0xE5
  }

  /** The slot holds the entry of an object with this name, by its bytes: in use, no volume label (bit 3
      of the attributes at offset 11), and the name in the first eleven bytes. */
  predicate Names(s: Slot, name: seq<byte>) {
    !FreeByte(s[0]) && s[11] as int / 8 % 2 == 0 && s[..11] == name
  }

  lemma NamesIs(slots: seq<Slot>, name: Name, i: int)
    ensures Binds(slots, name, i) <==> 0 <= i < |slots| && Names(slots[i], name)
    ensures Binds(slots, name, i) <==> 0 <= i < |slots| && Live(slots[i]) && NameOf(slots[i]) == name
  {
  }

  /** The map, read off the bytes of the slots. */
  lemma EntriesInBytes(slots: seq<Slot>, name: Name)
    requires Unique(slots)
    ensures name in Entries(slots) <==> exists i :: 0 <= i < |slots| && Names(slots[i], name)
    ensures forall i :: 0 <= i < |slots| && Names(slots[i], name) ==> name in Entries(slots) && Entries(slots)[name] == slots[i]
  {
    hide Names, Live, Unused, NameOf;
    forall i | 0 <= i < |slots|
      ensures Names(slots[i], name) <==> Binds(slots, name, i)
    {
      NamesIs(slots, name, i);
    }
    EntriesBind(slots, name);
    hide Entries, Binds;
  }

  lemma UnusedBytes(s: Slot)
    ensures Unused(s) <==> FreeByte(s[0])
  {
  }

  ghost predicate HasUsed(slots: seq<Slot>, i: int, n: nat)
    requires 0 <= i && i + n <= |slots|
  {
    exists j :: i <= j < i + n && !FreeByte(slots[j][0])
  }

  /** Every row of `n` slots has one in use. */
  ghost predicate NoFreeRow(slots: seq<Slot>, n: nat) {
    forall i {:trigger HasUsed(slots, i, n)} :: 0 <= i && i + n <= |slots| ==> HasUsed(slots, i, n)
  }

  lemma NoRunInBytes(slots: seq<Slot>, n: nat)
    requires NoRun(slots, |slots|, n)
    ensures NoFreeRow(slots, n)
  {
    forall i | 0 <= i && i + n <= |slots|
      ensures HasUsed(slots, i, n)
    {
      assert !FreeRun(slots, i, n);
    }
  }

  lemma FreeRunInBytes(slots: seq<Slot>, i: int, n: nat)
    requires FreeRun(slots, i, n)
    ensures 0 <= i && i + n <= |slots| && forall j :: i <= j < i + n ==> FreeByte(slots[j][0])
  {
  }

  /** A new entry: the name, and zeros behind it. */
  lemma NewEntryBytes(name: Name, j: nat)
    requires j < 32
    ensures NewEntry(name)[j] == if j < 11 then name[j] else 0
  {
  }
}
