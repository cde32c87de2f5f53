/** Cluster chains in a table of entries, as values: what a partition into chains is and
    what freeing and stretching do to one. */
module ChainSpec {
  import opened Arith

  /** `ch` is linked in `fat`, acyclic, inside the cluster range and ended by an end mark. */
  ghost predicate IsChain(fat: seq<nat>, ch: seq<nat>) {
    && |ch| > 0
    && (forall i :: 0 <= i < |ch| ==> 2 <= ch[i] < |fat|)
    && (forall i :: 0 <= i < |ch| - 1 ==> fat[ch[i]] == ch[i + 1])
    && fat[ch[|ch| - 1]] >= |fat|
    && (forall i, j :: 0 <= i < j < |ch| ==> ch[i] != ch[j])
  }

  ghost predicate Owned(chains: map<nat, seq<nat>>, c: nat) {
    exists h :: h in chains && c in chains[h]
  }

  ghost predicate AllChains(fat: seq<nat>, chains: map<nat, seq<nat>>) {
    forall h :: h in chains ==> IsChain(fat, chains[h]) && chains[h][0] == h
  }

  ghost predicate Disjoint(chains: map<nat, seq<nat>>) {
    forall h, k, c :: h in chains && k in chains && c in chains[h] && c in chains[k] ==> h == k
  }

  ghost predicate Covers(fat: seq<nat>, chains: map<nat, seq<nat>>) {
    forall c {:trigger Owned(chains, c)} :: 2 <= c < |fat| ==> (fat[c] != 0 <==> Owned(chains, c))
  }

  /** The chains, listed by first cluster, are disjoint, and with the free entries they are all entries. */
  ghost predicate Partition(fat: seq<nat>, chains: map<nat, seq<nat>>) {
    AllChains(fat, chains) && Disjoint(chains) && Covers(fat, chains)
  }

  lemma HeadOf(fat: seq<nat>, chains: map<nat, seq<nat>>, h: nat)
    requires Partition(fat, chains) && h in chains
    ensures IsChain(fat, chains[h]) && chains[h][0] == h
  {
  }

  lemma NextLink(fat: seq<nat>, ch: seq<nat>, i: nat)
    requires IsChain(fat, ch) && i + 1 < |ch|
    ensures 2 <= ch[i] < |fat| && fat[ch[i]] == ch[i + 1] && 2 <= ch[i + 1] < |fat|
  {
  }

  /** The entry of a chain's first cluster tells whether the chain goes on, and where. */
  lemma FirstLink(fat: seq<nat>, ch: seq<nat>)
    requires IsChain(fat, ch)
    ensures |ch| > 0 && ch[0] < |fat| && (|ch| == 1 <==> fat[ch[0]] >= |fat|)
    ensures |ch| > 1 ==> fat[ch[0]] == ch[1]
  {
    if |ch| > 1 {
      NextLink(fat, ch, 0);
    }
  }

  lemma SuffixIsChain(fat: seq<nat>, ch: seq<nat>, k: nat)
    requires IsChain(fat, ch) && k < |ch|
    ensures IsChain(fat, ch[k..])
  {
    var s := ch[k..];
    forall i | 0 <= i < |s| - 1
      ensures fat[s[i]] == s[i + 1]
    {
      assert fat[ch[k + i]] == ch[k + i + 1];
    }
  }

  /** The table determines a chain from any of its clusters on. */
  lemma {:induction false} ChainUnique(fat: seq<nat>, a: seq<nat>, b: seq<nat>)
    requires IsChain(fat, a) && IsChain(fat, b) && a[0] == b[0]
    ensures a == b
    decreases |a|
  {
    FirstLink(fat, a);
    FirstLink(fat, b);
    hide IsChain;
    if |a| == 1 {
      assert a == [a[0]] && b == [b[0]];
    } else {
      var a', b' := a[1..], b[1..];
      SuffixIsChain(fat, a, 1);
      SuffixIsChain(fat, b, 1);
      assert a'[0] == b'[0];
      ChainUnique(fat, a', b');
      assert a == [a[0]] + a' && b == [b[0]] + b';
    }
  }

  /** A chain is untouched by changes to entries it does not contain. */
  lemma ChainFrame(fat: seq<nat>, fat': seq<nat>, ch: seq<nat>)
    requires IsChain(fat, ch) && |fat'| == |fat|
    requires forall c :: c in ch ==> fat'[c] == fat[c]
    ensures IsChain(fat', ch)
  {
    forall i | 0 <= i < |ch| - 1
      ensures fat'[ch[i]] == ch[i + 1]
    {
      assert ch[i] in ch && fat[ch[i]] == ch[i + 1];
    }
  }

  lemma InChain(fat: seq<nat>, ch: seq<nat>, c: nat)
    requires IsChain(fat, ch) && c in ch
    ensures 2 <= c < |fat| && fat[c] >= 2
  {
    var i :| 0 <= i < |ch| && ch[i] == c;
    assert i < |ch| - 1 ==> fat[ch[i]] == ch[i + 1];
  }

  lemma StretchChain(fat: seq<nat>, ch: seq<nat>, c: nat, mark: nat)
    requires IsChain(fat, ch) && 2 <= c < |fat| && fat[c] == 0 && mark >= |fat|
    ensures IsChain(fat[c := mark][ch[|ch| - 1] := c], ch + [c])
  {
    if c in ch {
      InChain(fat, ch, c);
    }
    var fat', ch' := fat[c := mark][ch[|ch| - 1] := c], ch + [c];
    forall i | 0 <= i < |ch'| - 1
      ensures fat'[ch'[i]] == ch'[i + 1]
    {
      assert i < |ch| - 1 ==> fat[ch[i]] == ch[i + 1];
    }
  }

  lemma StretchOwned(chains: map<nat, seq<nat>>, h: nat, c: nat, x: nat)
    requires h in chains
    ensures Owned(chains[h := chains[h] + [c]], x) <==> Owned(chains, x) || x == c
  {
    var chains' := chains[h := chains[h] + [c]];
    if Owned(chains, x) {
      var k :| k in chains && x in chains[k];
      assert k in chains' && x in chains'[k];
    }
    assert c in chains'[h];
  }

  /** `create_chain` at a tail: the chain grows by the one free cluster. */
  lemma StretchPartition(fat: seq<nat>, chains: map<nat, seq<nat>>, h: nat, c: nat, mark: nat)
    requires Partition(fat, chains) && h in chains
    requires 2 <= c < |fat| && fat[c] == 0 && mark >= |fat|
    ensures var ch := chains[h];
            IsChain(fat, ch) && Partition(fat[c := mark][ch[|ch| - 1] := c], chains[h := ch + [c]])
  {
    var ch := chains[h];
    assert IsChain(fat, ch);
    var t := ch[|ch| - 1];
    var fat' := fat[c := mark][t := c];
    var chains' := chains[h := ch + [c]];
    assert !Owned(chains, c) && t in chains[h] && Owned(chains, t);
    assert AllChains(fat', chains') by {
      StretchChain(fat, ch, c, mark);
      forall k | k in chains && k != h
        ensures IsChain(fat', chains[k])
      {
        assert forall x :: x in chains[k] ==> Owned(chains, x) && x != c && x != t;
        hide *;
        ChainFrame(fat, fat', chains[k]);
      }
    }
    assert Disjoint(chains') by {
      assert forall k :: k in chains ==> c !in chains[k];
      hide Covers, IsChain, AllChains;
    }
    assert Covers(fat', chains') by {
      forall x | 2 <= x < |fat'|
        ensures fat'[x] != 0 <==> Owned(chains', x)
      {
        StretchOwned(chains, h, c, x);
      }
    }
  }

  /** `create_chain` without a cluster to stretch: a new one-cluster chain. */
  lemma NewPartition(fat: seq<nat>, chains: map<nat, seq<nat>>, c: nat, mark: nat)
    requires Partition(fat, chains)
    requires 2 <= c < |fat| && fat[c] == 0 && mark >= |fat|
    ensures c !in chains && Partition(fat[c := mark], chains[c := [c]])
  {
    assert !Owned(chains, c);
    forall h | h in chains
      ensures h != c && c !in chains[h]
    {
      assert chains[h][0] in chains[h] && Owned(chains, chains[h][0]);
    }
    var fat', chains' := fat[c := mark], chains[c := [c]];
    forall k | k in chains
      ensures IsChain(fat', chains[k])
    {
      ChainFrame(fat, fat', chains[k]);
    }
    forall x | 2 <= x < |fat'|
      ensures fat'[x] != 0 <==> Owned(chains', x)
    {
      if Owned(chains, x) {
        var k :| k in chains && x in chains[k];
        assert k in chains' && x in chains'[k];
      }
      assert c in chains'[c];
    }
  }

  /** `fat` with the entries of `s` marked free. */
  function Freed(fat: seq<nat>, s: seq<nat>): (r: seq<nat>)
    ensures |r| == |fat|
    ensures forall c :: 0 <= c < |fat| ==> r[c] == if c in s then 0 else fat[c]
  {
    seq(|fat|, c requires 0 <= c < |fat| => if c in s then 0 else fat[c])
  }

  /** Number of entries in [2, k) that are not free. */
  function InUse(fat: seq<nat>, k: nat): (r: nat)
    requires k <= |fat|
    ensures r == 0 || r <= k - 2
  {
    if k <= 2 then 0 else InUse(fat, k - 1) + if fat[k - 1] != 0 then 1 else 0
  }

  lemma {:induction false} InUseUpdate(fat: seq<nat>, c: nat, v: nat, k: nat)
    requires 2 <= c < |fat| && k <= |fat|
    ensures InUse(fat[c := v], k) == InUse(fat, k)
      + if c < k then (if v != 0 then 1 else 0) - (if fat[c] != 0 then 1 else 0) else 0
  {
    if k <= 2 {
    } else {
      InUseUpdate(fat, c, v, k - 1);
    }
  }

  /** What `remove_chain` does from a cluster on: the table it leaves and whether it met
      the reserved value 1. Every round frees an entry, so it ends even on a cyclic table. */
  function FreeFrom(fat: seq<nat>, c: nat): (r: (seq<nat>, bool))
    requires 2 <= c < |fat|
    ensures |r.0| == |fat|
    decreases InUse(fat, |fat|)
  {
    if fat[c] == 0 then (fat, true)
    else if fat[c] == 1 then (fat, false)
    else
      var fat' := fat[c := 0];
      InUseUpdate(fat, c, 0, |fat|);
      if fat[c] < |fat| then FreeFrom(fat', fat[c]) else (fat', true)
  }

  lemma {:induction false} InUseBound(fat: seq<nat>, k: nat)
    requires 2 <= k <= |fat|
    ensures InUse(fat, k) <= k - 2
    ensures InUse(fat, k) == 0 <==> forall c :: 2 <= c < k ==> fat[c] == 0
    ensures InUse(fat, k) == k - 2 <==> forall c :: 2 <= c < k ==> fat[c] != 0
  {
    if k <= 2 {
    } else {
      InUseBound(fat, k - 1);
    }
  }

  /** Number of free clusters. */
  function CountFree(fat: seq<nat>): (r: nat)
    requires 2 <= |fat|
  {
    |fat| - 2 - InUse(fat, |fat|)
  }

  /** The entries of clusters that are zero. */
  function ZeroEntries(fat: seq<nat>): set<nat> {
    set c: nat | 2 <= c < |fat| && fat[c] == 0
  }

  lemma {:induction false} InUseCounts(fat: seq<nat>, k: nat)
    requires 2 <= k <= |fat|
    ensures InUse(fat, k) + |set c: nat | 2 <= c < k && fat[c] == 0| == k - 2
  {
    var s := set c: nat | 2 <= c < k && fat[c] == 0;
    if k == 2 {
      assert s == {};
    } else {
      var r := set c: nat | 2 <= c < k - 1 && fat[c] == 0;
      InUseCounts(fat, k - 1);
      assert s == if fat[k - 1] == 0 then r + {k - 1} else r;
    }
  }

  /** The count is that of the entries from 2 on that are zero. */
  lemma CountsClusters(fat: seq<nat>)
    requires 2 <= |fat|
    ensures CountFree(fat) == |ZeroEntries(fat)|
  {
    InUseCounts(fat, |fat|);
  }

  /** On a chain, freeing from its first cluster frees exactly its clusters. */
  lemma {:induction false} FreeWholeChain(fat: seq<nat>, ch: seq<nat>)
    requires IsChain(fat, ch)
    ensures FreeFrom(fat, ch[0]) == (Freed(fat, ch), true)
    decreases |ch|
  {
    InChain(fat, ch, ch[0]);
    var fat' := fat[ch[0] := 0];
    if |ch| == 1 {
      assert fat' == Freed(fat, ch);
    } else {
      assert fat[ch[0]] == ch[1];
      SuffixIsChain(fat, ch, 1);
      ChainFrame(fat, fat', ch[1..]);
      FreeWholeChain(fat', ch[1..]);
      assert Freed(fat', ch[1..]) == Freed(fat, ch) by {
        assert forall c :: c in ch <==> c == ch[0] || c in ch[1..];
      }
    }
  }

  lemma ChainFrameFreed(fat: seq<nat>, s: seq<nat>, ch: seq<nat>)
    requires IsChain(fat, ch) && forall x :: x in ch ==> x !in s
    ensures IsChain(Freed(fat, s), ch)
  {
    ChainFrame(fat, Freed(fat, s), ch);
  }

  lemma OwnedElsewhere(chains: map<nat, seq<nat>>, h: nat, x: nat)
    requires Disjoint(chains) && h in chains
    ensures Owned(chains - {h}, x) <==> Owned(chains, x) && x !in chains[h]
  {
    if Owned(chains - {h}, x) {
      var k :| k in chains - {h} && x in (chains - {h})[k];
      assert k in chains && x in chains[k];
    }
    if Owned(chains, x) && x !in chains[h] {
      var k :| k in chains && x in chains[k];
      assert k in chains - {h} && x in (chains - {h})[k];
    }
  }

  /** `remove_chain` on a whole chain of a partition: its clusters become free, the rest stays. */
  lemma RemovePartition(fat: seq<nat>, chains: map<nat, seq<nat>>, h: nat)
    requires Partition(fat, chains) && h in chains
    ensures 2 <= h < |fat| && FreeFrom(fat, h) == (Freed(fat, chains[h]), true)
    ensures Partition(Freed(fat, chains[h]), chains - {h})
  {
    var ch := chains[h];
    assert IsChain(fat, ch) && ch[0] == h;
    FreeWholeChain(fat, ch);
    var fat', chains' := Freed(fat, ch), chains - {h};
    forall k | k in chains'
      ensures IsChain(fat', chains[k])
    {
      assert forall x :: x in chains[k] ==> x !in ch;
      ChainFrameFreed(fat, ch, chains[k]);
    }
    forall x {:trigger Owned(chains', x)} | 2 <= x < |fat'|
      ensures fat'[x] != 0 <==> Owned(chains', x)
    {
      assert fat[x] != 0 <==> Owned(chains, x);
      OwnedElsewhere(chains, h, x);
    }
  }

  /** A chain cut after its first `k` clusters, with the rest freed. */
  lemma CutChain(fat: seq<nat>, ch: seq<nat>, k: nat, mark: nat)
    requires IsChain(fat, ch) && 0 < k < |ch| && mark >= |fat|
    ensures var fat1 := fat[ch[k - 1] := mark];
            && IsChain(fat1, ch[k..])
            && FreeFrom(fat1, ch[k]) == (Freed(fat1, ch[k..]), true)
            && IsChain(Freed(fat1, ch[k..]), ch[..k])
  {
    var fat1 := fat[ch[k - 1] := mark];
    SuffixIsChain(fat, ch, k);
    ChainFrame(fat, fat1, ch[k..]);
    FreeWholeChain(fat1, ch[k..]);
    var fat2, pre := Freed(fat1, ch[k..]), ch[..k];
    forall i | 0 <= i < |pre| - 1
      ensures fat2[pre[i]] == pre[i + 1]
    {
      assert fat[ch[i]] == ch[i + 1];
    }
  }

  lemma CutOwned(fat: seq<nat>, chains: map<nat, seq<nat>>, h: nat, k: nat, x: nat)
    requires Disjoint(chains) && h in chains && 0 < k < |chains[h]| && IsChain(fat, chains[h])
    ensures Owned(chains[h := chains[h][..k]], x) <==> Owned(chains, x) && x !in chains[h][k..]
    ensures x in chains[h][..k] ==> Owned(chains, x)
  {
    var ch := chains[h];
    var chains' := chains[h := ch[..k]];
    assert x in ch <==> x in ch[..k] || x in ch[k..];
    if Owned(chains', x) {
      var j :| j in chains' && x in chains'[j];
      assert j in chains && x in chains[j];
    }
    if Owned(chains, x) && x !in ch[k..] {
      var j :| j in chains && x in chains[j];
      assert j in chains' && x in chains'[j];
    }
  }

  /** `remove_chain` on the tail of a chain of a partition: exactly the clusters from place
      `k` on become free and the chain ends before them. */
  lemma CutPartition(fat: seq<nat>, chains: map<nat, seq<nat>>, h: nat, k: nat, mark: nat)
    requires Partition(fat, chains) && h in chains && 0 < k < |chains[h]| && mark >= |fat|
    ensures var ch := chains[h];
            && IsChain(fat, ch)
            && FreeFrom(fat[ch[k - 1] := mark], ch[k]) == (Freed(fat[ch[k - 1] := mark], ch[k..]), true)
            && Partition(Freed(fat[ch[k - 1] := mark], ch[k..]), chains[h := ch[..k]])
  {
    var ch := chains[h];
    assert IsChain(fat, ch) && ch[0] == h;
    var p := ch[k - 1];
    CutChain(fat, ch, k, mark);
    var fat1 := fat[p := mark];
    var fat2, chains' := Freed(fat1, ch[k..]), chains[h := ch[..k]];
    assert AllChains(fat2, chains') by {
      forall j | j in chains && j != h
        ensures IsChain(fat2, chains[j])
      {
        assert forall x :: x in chains[j] ==> x !in ch;
        assert p in ch;
        ChainFrame(fat, fat1, chains[j]);
        ChainFrameFreed(fat1, ch[k..], chains[j]);
      }
    }
    forall x {:trigger Owned(chains', x)} | 2 <= x < |fat2|
      ensures fat2[x] != 0 <==> Owned(chains', x)
    {
      CutOwned(fat, chains, h, k, x);
      assert p in ch[..k];
    }
  }
}
