/** Wildcard matching of names (`pattern_matching` and `get_achar`). */
module PatternMatch {
  import opened FatTypes

  /** The contents of a C string. */
  type CString = s: seq<byte> | 0 !in s

  const ANY_ONE: byte := 0x3F   // '?'
  const ANY_RUN: byte := 0x2A   // '*'

  /** Upper case of the characters 0x80 to 0xA5 of code page 437; the others are their own. */
  const EX_CVT: seq<byte> := [
    0x80, 0x9A, 0x45, 0x41, 0x8E, 0x41, 0x8F, 0x80, 0x45, 0x45, 0x45, 0x49, 0x49, 0x49, 0x8E, 0x8F,
    0x90, 0x92, 0x92, 0x4F, 0x99, 0x4F, 0x55, 0x55, 0x59, 0x99, 0x9A, 0x9B, 0x9C, 0x9D, 0x9E, 0x9F,
    0x41, 0x49, 0x4F, 0x55, 0xA5, 0xA5]

  /** A character in upper case. Only the terminator becomes 0. */
  function Upper(c: byte): (r: byte)
    ensures r == 0 <==> c == 0
  {
    if 0x61 <= c <= 0x7A then c - 0x20
    else if 0x80 <= c <= 0xA5 then EX_CVT[c - 0x80]
    else c
  }

  /** The letter a character stands for: capitals for the letters of ASCII and, without their accents
      where code page 437 has no capital with it, for those from 0x80 on. */
  function Letter(c: byte): byte {
    if 0x61 <= c <= 0x7A then c - 0x20
    else if c == 0x83 || c == 0x85 || c == 0xA0 then 0x41                              // A
    else if c == 0x82 || c == 0x88 || c == 0x89 || c == 0x8A then 0x45                 // E
    else if c == 0x8B || c == 0x8C || c == 0x8D || c == 0xA1 then 0x49                 // I
    else if c == 0x93 || c == 0x95 || c == 0xA2 then 0x4F                              // O
    else if c == 0x96 || c == 0x97 || c == 0xA3 then 0x55                              // U
    else if c == 0x98 then 0x59                                                        // Y
    else if c == 0x87 then 0x80                                                        // C with cedilla
    else if c == 0x81 then 0x9A                                                        // U with diaeresis
    else if c == 0x84 then 0x8E                                                        // A with diaeresis
    else if c == 0x94 then 0x99                                                        // O with diaeresis
    else if c == 0x86 then 0x8F                                                        // A with ring
    else if c == 0x91 then 0x92                                                        // AE
    else if c == 0xA4 then 0xA5                                                        // N with tilde
    else c
  }

  lemma UpperRow(i: nat)
    requires i < 0x26
    ensures EX_CVT[i] == Letter(0x80 + i)
  {
    assert forall k :: 0 <= k < 0x26 ==> EX_CVT[k] == Letter(0x80 + k);
  }

  /** The conversion of `get_achar` by its table. */
  lemma UpperIsLetter(c: byte)
    ensures Upper(c) == Letter(c)
  {
    if 0x80 <= c < 0x90 {
      UpperRow(c - 0x80);
    } else if 0x90 <= c < 0xA0 {
      UpperRow(c - 0x80);
    } else if 0xA0 <= c < 0xA6 {
      UpperRow(c - 0x80);
    }
  }

  /** The character `get_achar` reads at a place of a string. */
  function CharAt(s: CString, i: nat): (r: byte)
    requires i <= |s|
    ensures r == 0 <==> i == |s|
  {
    if i < |s| then Upper(s[i]) else 0
  }

  predicate IsWild(s: CString, i: nat) {
    i < |s| && (s[i] == ANY_ONE || s[i] == ANY_RUN)
  }

  /** What the wildcards mean: `*` (0x2A) is any run of characters, `?` (0x3F) any one character, and
      any other character itself up to case. */
  ghost predicate Matches(pat: CString, i: nat, nam: CString, j: nat)
    requires i <= |pat| && j <= |nam|
    decreases |pat| - i, 0
  {
    if i == |pat| then j == |nam|
    else if pat[i] == 0x2A then RunMatches(pat, i + 1, nam, j)
    else if pat[i] == 0x3F then j < |nam| && Matches(pat, i + 1, nam, j + 1)
    else j < |nam| && Letter(pat[i]) == Letter(nam[j]) && Matches(pat, i + 1, nam, j + 1)
  }

  /** The rest of the pattern matches some rest of the name. */
  ghost predicate RunMatches(pat: CString, i: nat, nam: CString, j: nat)
    requires i <= |pat| && j <= |nam|
    decreases |pat| - i, 1
  {
    exists k :: j <= k <= |nam| && Matches(pat, i, nam, k)
  }

  /** `skip` single wildcards, and a run if `inf`, before the rest of a pattern. */
  ghost predicate MatchesAfter(pat: CString, i: nat, nam: CString, j: nat, skip: nat, inf: bool)
    requires i <= |pat| && j <= |nam|
  {
    j + skip <= |nam| && if inf then RunMatches(pat, i, nam, j + skip) else Matches(pat, i, nam, j + skip)
  }

  ghost predicate RunIn(pat: CString, i: nat, nam: CString, j: nat)
    requires i <= |pat|
  {
    j <= |nam| && RunMatches(pat, i, nam, j)
  }

  lemma RunElim(pat: CString, i: nat, nam: CString, j: nat) returns (k: nat)
    requires i <= |pat| && j <= |nam| && RunMatches(pat, i, nam, j)
    ensures j <= k <= |nam| && Matches(pat, i, nam, k)
  {
    k :| j <= k <= |nam| && Matches(pat, i, nam, k);
  }

  lemma RunIntro(pat: CString, i: nat, nam: CString, j: nat, k: nat)
    requires i <= |pat| && j <= k <= |nam| && Matches(pat, i, nam, k)
    ensures RunMatches(pat, i, nam, j)
  {
  }

  lemma RunInRun(pat: CString, i: nat, nam: CString, j: nat)
    requires i < |pat| && pat[i] == ANY_RUN && j <= |nam|
    ensures RunMatches(pat, i, nam, j) <==> RunMatches(pat, i + 1, nam, j)
  {
    if RunMatches(pat, i, nam, j) {
      var k := RunElim(pat, i, nam, j);
      var m := RunElim(pat, i + 1, nam, k);
      RunIntro(pat, i + 1, nam, j, m);
    }
    if RunMatches(pat, i + 1, nam, j) {
      RunIntro(pat, i, nam, j, j);
    }
  }

  /** A block of wildcards amounts to the number of its `?` and whether it holds a `*`. */
  lemma {:induction false} BlockStep(pat: CString, i: nat, nam: CString, j: nat, skip: nat, inf: bool)
    requires IsWild(pat, i) && j <= |nam|
    ensures pat[i] == ANY_ONE ==> (MatchesAfter(pat, i, nam, j, skip, inf) <==> MatchesAfter(pat, i + 1, nam, j, skip + 1, inf))
    ensures pat[i] == ANY_RUN ==> (MatchesAfter(pat, i, nam, j, skip, inf) <==> MatchesAfter(pat, i + 1, nam, j, skip, true))
  {
    if pat[i] == ANY_ONE {
      if inf && RunIn(pat, i, nam, j + skip) {
        var k := RunElim(pat, i, nam, j + skip);
        RunIntro(pat, i + 1, nam, j + (skip + 1), k + 1);
      }
      if inf && RunIn(pat, i + 1, nam, j + (skip + 1)) {
        var k := RunElim(pat, i + 1, nam, j + (skip + 1));
        RunIntro(pat, i, nam, j + skip, k - 1);
      }
    } else if inf && j + skip <= |nam| {
      RunInRun(pat, i, nam, j + skip);
    }
  }

  /** The literals in front of the first wildcard, counted from `i`. */
  function Literals(pat: CString, i: nat): nat
    requires i <= |pat|
    decreases |pat| - i
  {
    if i == |pat| || IsWild(pat, i) then 0 else 1 + Literals(pat, i + 1)
  }

  /** A name shorter than the leading literals does not match. */
  lemma {:induction false} TooShort(pat: CString, i: nat, nam: CString, j: nat)
    requires i <= |pat| && j <= |nam| && Matches(pat, i, nam, j)
    ensures |nam| - j >= Literals(pat, i)
    decreases |pat| - i
  {
    if i >= |pat| || IsWild(pat, i) {
    } else {
      TooShort(pat, i + 1, nam, j + 1);
    }
  }

  /** The comparison of one start place is at `pp` and `np`: only literals were passed, all equal. */
  ghost predicate Passed(pat: CString, i: nat, nam: CString, j: nat, pp: nat, np: nat)
    requires i <= |pat| && j <= |nam|
  {
    && i <= pp <= |pat| && j <= np <= |nam| && pp - i == np - j
    && Literals(pat, i) == (pp - i) + Literals(pat, pp)
    && (Matches(pat, i, nam, j) <==> Matches(pat, pp, nam, np))
  }

  lemma SkipFirst(pat: CString, i: nat, nam: CString, j: nat, skip: nat, start: nat, inf: bool)
    requires i <= |pat| && j <= start <= |nam| && start == j + skip
    ensures MatchesAfter(pat, i, nam, j, skip, inf) <==> MatchesAfter(pat, i, nam, start, 0, inf)
    ensures MatchesAfter(pat, i, nam, start, 0, true) <==> RunMatches(pat, i, nam, start)
  {
  }

  /** A comparison that failed at the end of the name fails at every later place. */
  lemma NoLater(pat: CString, i: nat, nam: CString, j: nat, pp: nat, np: nat)
    requires i <= |pat| && j <= |nam| && Passed(pat, i, nam, j, pp, np) && !Matches(pat, i, nam, j)
    ensures np == |nam| ==> forall k :: j <= k <= |nam| ==> !Matches(pat, i, nam, k)
  {
    if np == |nam| {
      forall k | j < k <= |nam|
        ensures !Matches(pat, i, nam, k)
      {
        if Matches(pat, i, nam, k) {
          TooShort(pat, i, nam, k);
        }
      }
    }
  }

  /** One round of the comparison. */
  lemma CompareStep(pat: CString, pp: nat, nam: CString, np: nat)
    requires pp <= |pat| && np <= |nam| && !IsWild(pat, pp)
    ensures CharAt(pat, pp) != CharAt(nam, np) ==> !Matches(pat, pp, nam, np)
    ensures CharAt(pat, pp) == CharAt(nam, np) == 0 ==> Matches(pat, pp, nam, np)
    ensures CharAt(pat, pp) == CharAt(nam, np) != 0 ==>
      pp < |pat| && np < |nam| && (Matches(pat, pp, nam, np) <==> Matches(pat, pp + 1, nam, np + 1))
  {
    if pp < |pat| {
      UpperIsLetter(pat[pp]);
    }
    if np < |nam| {
      UpperIsLetter(nam[np]);
    }
    hide Upper, Letter;
  }

  /** The comparison at one start place. When it fails with 0 the name was too short, and no
      later place can match either. */
  method MatchAt(pat: CString, pat0: nat, nam: CString, start: nat) returns (r: bool, nc: byte)
    requires pat0 <= |pat| && start <= |nam|
    ensures r <==> Matches(pat, pat0, nam, start)
    ensures !r && nc != 0 ==> start < |nam|
    ensures !r && nc == 0 ==> forall k :: start <= k <= |nam| ==> !Matches(pat, pat0, nam, k)
    decreases |pat| - pat0, 0
  {
    hide Upper, Letter;
    var pp, np: nat := pat0, start;
    while true
      invariant Passed(pat, pat0, nam, start, pp, np)
      decreases |pat| - pp
    {
      if IsWild(pat, pp) {
        var nm, nx: bool := 0, false;
        ghost var top := pp;
        while true
          invariant IsWild(pat, pp) && top <= pp
          invariant MatchesAfter(pat, top, nam, np, 0, false) <==> MatchesAfter(pat, pp, nam, np, nm, nx)
          decreases |pat| - pp
        {
          BlockStep(pat, pp, nam, np, nm, nx);
          if pat[pp] == ANY_ONE {
            nm := nm + 1;
          } else {
            nx := true;
          }
          pp := pp + 1;
          if !IsWild(pat, pp) {
            break;
          }
        }
        r := Match(pat, pp, nam, np, nm, nx);
        nc := CharAt(nam, np);
        if r {
          return;
        }
        NoLater(pat, pat0, nam, start, top, np);
        return;
      }
      CompareStep(pat, pp, nam, np);
      var pc := CharAt(pat, pp);
      nc := CharAt(nam, np);
      if pc != nc {
        NoLater(pat, pat0, nam, start, pp, np);
        return false, nc;
      }
      if pc == 0 {
        return true, nc;
      }
      pp, np := pp + 1, np + 1;
    }
  }

  /** The loop over start places. */
  method MatchFrom(pat: CString, pat0: nat, nam: CString, nam0: nat, inf: bool) returns (r: bool)
    requires pat0 <= |pat| && nam0 <= |nam|
    ensures r <==> MatchesAfter(pat, pat0, nam, nam0, 0, inf)
    decreases |pat| - pat0, 1
  {
    var start: nat := nam0;
    while true
      invariant nam0 <= start <= |nam| && (!inf ==> start == nam0)
      invariant forall k :: nam0 <= k < start ==> !Matches(pat, pat0, nam, k)
      decreases |nam| - start
    {
      var nc: byte;
      r, nc := MatchAt(pat, pat0, nam, start);
      if r {
        RunIntro(pat, pat0, nam, nam0, start);
        return;
      }
      if !(inf && nc != 0) {
        if inf && RunMatches(pat, pat0, nam, nam0) {
          ghost var k := RunElim(pat, pat0, nam, nam0);
        }
        return;
      }
      start := start + 1;
    }
  }

  /** One call of `pattern_matching` on the rest of the pattern from `pat0` and of the name
      from `nam0`: skips characters, then tries the places from there on. */
  method Match(pat: CString, pat0: nat, nam: CString, nam0: nat, skip0: nat, inf: bool) returns (r: bool)
    requires pat0 <= |pat| && nam0 <= |nam|
    ensures r <==> MatchesAfter(pat, pat0, nam, nam0, skip0, inf)
    decreases |pat| - pat0
  {
    var skip: nat, start: nat := skip0, nam0;
    while skip > 0
      invariant skip <= skip0 && nam0 <= start <= |nam| && start + skip == nam0 + skip0
    {
      skip := skip - 1;
      if CharAt(nam, start) == 0 {
        return false;
      }
      start := start + 1;
    }
    SkipFirst(pat, pat0, nam, nam0, skip0, start, inf);
    if pat0 == |pat| && inf {
      RunIntro(pat, pat0, nam, start, |nam|);
      return true;
    }
    r := MatchFrom(pat, pat0, nam, start, inf);
  }

  /** pattern_matching as its callers use it: 1 exactly when the name matches the pattern. */
  method PatternMatching(pat: CString, nam: CString) returns (r: bool)
    ensures r <==> Matches(pat, 0, nam, 0)
  {
    r := Match(pat, 0, nam, 0, 0, false);
  }

  /** Strings that differ in the case of ASCII letters only. */
  predicate SameUpToCase(s: seq<byte>, t: seq<byte>) {
    |s| == |t| && forall i :: 0 <= i < |s| ==>
      || t[i] == s[i]
      || (0x41 <= s[i] <= 0x5A && t[i] == s[i] + 0x20)
      || (0x61 <= s[i] <= 0x7A && t[i] == s[i] - 0x20)
  }

  lemma SameLetters(s: seq<byte>, t: seq<byte>, i: nat)
    requires SameUpToCase(s, t) && i < |s|
    ensures Letter(s[i]) == Letter(t[i]) && (s[i] == 0x2A <==> t[i] == 0x2A) && (s[i] == 0x3F <==> t[i] == 0x3F)
  {
  }

  /** The answer does not depend on the case of ASCII letters. */
  lemma {:induction false} CaseBlind(pat: CString, pat': CString, i: nat, nam: CString, nam': CString, j: nat)
    requires SameUpToCase(pat, pat') && SameUpToCase(nam, nam') && i <= |pat| && j <= |nam|
    requires |pat'| == |pat| && |nam'| == |nam|
    ensures Matches(pat, i, nam, j) <==> Matches(pat', i, nam', j)
    decreases |pat| - i
  {
    if i == |pat| {
    } else {
      var n := i + 1;
      forall k | j <= k <= |nam|
        ensures Matches(pat, n, nam, k) <==> Matches(pat', n, nam', k)
      {
        CaseBlind(pat, pat', n, nam, nam', k);
      }
      SameLetters(pat, pat', i);
      if j < |nam| {
        SameLetters(nam, nam', j);
        assert Matches(pat, n, nam, j + 1) <==> Matches(pat', n, nam', j + 1);
      }
      if RunMatches(pat, n, nam, j) {
        var k := RunElim(pat, n, nam, j);
        RunIntro(pat', n, nam', j, k);
      }
      if RunMatches(pat', n, nam', j) {
        var k := RunElim(pat', n, nam', j);
        RunIntro(pat, n, nam, j, k);
      }
      hide Letter, SameUpToCase, RunMatches;
    }
  }
}
