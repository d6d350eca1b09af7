/** From symbol counts to a canonical code: what the encoder writes and the decoder rebuilds. */
module CodeBuilder {
  import opened Bits
  import opened Canonical
  import opened RadixSort
  import opened CodeCost
  import MinRedundancy
  import LimitCost
  import LimitLengths

  // ---- The used symbols ----

  /** The symbols with a non-zero count among the first `n`, with their counts, in symbol order. */
  ghost function UsedSyms(counts: seq<nat>, n: nat): (s: seq<SymFreq>)
    requires n <= |counts|
  {
    if n == 0 then []
    else if counts[n - 1] > 0 then UsedSyms(counts, n - 1) + [SymFreq(counts[n - 1], n - 1)]
    else UsedSyms(counts, n - 1)
  }

  ghost predicate Distinct(s: seq<SymFreq>) {
    forall j, k :: 0 <= j < k < |s| ==> s[j].index != s[k].index
  }

  lemma {:induction false} UsedSymsOk(counts: seq<nat>, n: nat)
    requires n <= |counts|
    ensures Distinct(UsedSyms(counts, n)) && |UsedSyms(counts, n)| <= n
    ensures forall x :: x in UsedSyms(counts, n) ==> x.index < n && 0 < x.key == counts[x.index]
    ensures forall i :: 0 <= i < n && counts[i] > 0 ==> SymFreq(counts[i], i) in UsedSyms(counts, n)
  {
    if n > 0 { UsedSymsOk(counts, n - 1); }
  }

  lemma {:induction false} OnceEach(s: seq<SymFreq>, x: SymFreq)
    requires Distinct(s)
    ensures multiset(s)[x] <= 1
  {
    if |s| > 0 {
      var t := s[..|s| - 1];
      assert s == t + [s[|s| - 1]];
      OnceEach(t, x);
      if x == s[|s| - 1] { assert x !in t; }
    }
  }

  lemma {:induction false} TwiceIn(t: seq<SymFreq>, j: nat, k: nat)
    requires j < k < |t| && t[j] == t[k]
    ensures multiset(t)[t[j]] >= 2
  {
    assert t == t[..k] + ([t[k]] + t[k + 1..]);
    assert t[..k][j] == t[j];
  }

  lemma {:induction false} SameElement(s: seq<SymFreq>, x: SymFreq, y: SymFreq)
    requires Distinct(s) && x in s && y in s && x.index == y.index
    ensures x == y
  {
    var i :| 0 <= i < |s| && s[i] == x;
    var j :| 0 <= j < |s| && s[j] == y;
  }

  /** A permutation of distinct symbols is distinct. */
  lemma {:induction false} DistinctPermuted(s: seq<SymFreq>, t: seq<SymFreq>)
    requires Distinct(s) && multiset(s) == multiset(t)
    ensures Distinct(t)
  {
    forall j, k | 0 <= j < k < |t| ensures t[j].index != t[k].index {
      if t[j].index == t[k].index {
        assert t[j] in multiset(t) && t[k] in multiset(t);
        SameElement(s, t[j], t[k]);
        TwiceIn(t, j, k);
        OnceEach(s, t[j]);
      }
    }
  }

  /** The used symbols of `counts` in ascending order of count. */
  ghost predicate Ranked(t: seq<SymFreq>, counts: seq<nat>) {
    && Distinct(t) && |t| <= |counts|
    && (forall k :: 0 <= k < |t| ==> t[k].index < |counts| && 0 < t[k].key == counts[t[k].index])
    && (forall j, k :: 0 <= j <= k < |t| ==> t[j].key <= t[k].key)
    && (forall i :: 0 <= i < |counts| && counts[i] > 0 ==> SymFreq(counts[i], i) in t)
  }

  lemma {:induction false} SortedRanked(t: seq<SymFreq>, counts: seq<nat>)
    requires multiset(t) == multiset(UsedSyms(counts, |counts|))
    requires forall j, k :: 0 <= j <= k < |t| ==> t[j].key <= t[k].key
    ensures Ranked(t, counts)
  {
    var s := UsedSyms(counts, |counts|);
    UsedSymsOk(counts, |counts|);
    DistinctPermuted(s, t);
    assert |t| == |multiset(t)| == |s|;
    forall k | 0 <= k < |t| ensures t[k].index < |counts| && 0 < t[k].key == counts[t[k].index] {
      assert t[k] in multiset(t);
    }
    forall i | 0 <= i < |counts| && counts[i] > 0 ensures SymFreq(counts[i], i) in t {
      assert SymFreq(counts[i], i) in multiset(s);
    }
  }

  function KeysOf(t: seq<SymFreq>): (w: seq<nat>)
    ensures |w| == |t| && forall k :: 0 <= k < |t| ==> w[k] == t[k].key
  {
    seq(|t|, k requires 0 <= k < |t| => t[k].key)
  }

  ghost function IndicesOf(t: seq<SymFreq>): (idx: seq<nat>)
    ensures |idx| == |t| && forall k :: 0 <= k < |t| ==> idx[k] == t[k].index
  {
    seq(|t|, k requires 0 <= k < |t| => t[k].index)
  }

  lemma {:induction false} RankedRanks(t: seq<SymFreq>, counts: seq<nat>)
    requires Ranked(t, counts)
    ensures Ranks(counts, KeysOf(t), IndicesOf(t))
  {
    var idx := IndicesOf(t);
    forall s: nat | s < |counts| && counts[s] > 0 ensures s in idx {
      var k :| 0 <= k < |t| && t[k] == SymFreq(counts[s], s);
      assert idx[k] == s;
    }
  }

  lemma {:induction false} RankedInput(t: seq<SymFreq>, counts: seq<nat>)
    requires Ranked(t, counts) && Total(counts, |counts|) < 65536
    ensures MinRedundancy.Input(KeysOf(t))
  {
    RankedRanks(t, counts);
    SumByRank(counts, KeysOf(t), IndicesOf(t));
  }

  // ---- Lengths to histogram ----

  lemma {:induction false} AddCode(num: seq<int>, l: nat, m: nat)
    requires 1 <= l < |num| && m < |num|
    ensures LimitLengths.Taken(num[l := num[l] + 1], m)
      == LimitLengths.Taken(num, m) + (if l <= m then Pow2(m - l) else 0)
    ensures LimitLengths.Codes(num[l := num[l] + 1], m) == LimitLengths.Codes(num, m) + B(l <= m)
  {
    if m > 0 { AddCode(num, l, m - 1); }
  }

  lemma {:induction false} NoCodes(num: seq<int>, m: nat)
    requires m < |num| && forall k :: 0 <= k < |num| ==> num[k] == 0
    ensures LimitLengths.Taken(num, m) == 0 && LimitLengths.Codes(num, m) == 0
  {
    if m > 0 { NoCodes(num, m - 1); }
  }

  /** `num` counts the first `i` lengths. */
  ghost predicate Tallied(num: seq<int>, a: seq<int>, i: nat) {
    && LimitLengths.Histogram(num) && num[0] == 0 && i <= |a| && (forall j :: 0 <= j < |a| ==> 1 <= a[j] <= 32)
    && LimitLengths.Codes(num, 32) == i && (forall j :: 0 <= j < i ==> num[a[j]] >= 1)
    && LimitLengths.Taken(num, 32) + MinRedundancy.KraftFrom(a, i) == MinRedundancy.KraftFrom(a, 0)
  }

  lemma {:induction false} TallyOne(num: seq<int>, a: seq<int>, i: nat)
    requires Tallied(num, a, i) && i < |a|
    ensures 0 < a[i] < |num| && Tallied(num[a[i] := num[a[i]] + 1], a, i + 1)
  {
    hide LimitLengths.Taken, LimitLengths.Codes;
    AddCode(num, a[i], 32);
  }

  ghost predicate Falling(a: seq<int>) {
    forall j, k :: 0 <= j <= k < |a| ==> a[j] >= a[k]
  }

  lemma {:induction false} NoneInOrder(a: seq<int>, num: seq<int>)
    requires |num| == 33
    ensures LimitCost.InOrder(a[..0], num, 32)
  {
  }

  lemma {:induction false} CodesWithin(num: seq<int>, l: nat)
    requires LimitLengths.Histogram(num) && l <= 32
    ensures 0 <= LimitLengths.Codes(num, l) <= LimitLengths.Codes(num, 32)
  {
    LimitLengths.CodesMono(num, l, 32);
  }

  /** A shorter length goes in front: none of those before it can be as short as a bound it is above. */
  lemma {:induction false} TallyInOrder(num: seq<int>, a: seq<int>, i: nat)
    requires Tallied(num, a, i) && i < |a| && Falling(a) && LimitCost.InOrder(a[..i], num, 32)
    ensures 0 < a[i] < |num| && LimitCost.InOrder(a[..i + 1], num[a[i] := num[a[i]] + 1], 32)
  {
    hide LimitLengths.Codes, LimitLengths.Taken, MinRedundancy.KraftFrom;
    var b, v, p := num[a[i] := num[a[i]] + 1], a[i], a[..i + 1];
    forall l: nat, k: nat | l <= 32 && k < i + 1 ensures p[k] <= l <==> k >= i + 1 - LimitLengths.Codes(b, l) {
      AddCode(num, v, l);
      CodesWithin(num, l);
      assert k < i ==> a[..i][k] == a[k];
      if v > l && i > 0 { assert a[..i][i - 1] > l; }
    }
  }

  /** Counts the lengths; the space they take is their Kraft sum. */
  method LengthHistogram(a: array<int>, n: nat) returns (num: array<int>)
    requires a.Length == n && Falling(a[..]) && forall j :: 0 <= j < n ==> 1 <= a[j] <= 32
    ensures fresh(num) && num.Length == 33 && Tallied(num[..], a[..], n) && LimitCost.InOrder(a[..], num[..], 32)
  {
    hide LimitCost.InOrder, Falling;
    num := new int[33](_ => 0);
    NoCodes(num[..], 32);
    NoneInOrder(a[..], num[..]);
    var i := 0;
    while i < n
      invariant 0 <= i <= n && num.Length == 33 && Tallied(num[..], a[..], i)
        && LimitCost.InOrder(a[..][..i], num[..], 32)
    {
      hide Tallied;
      ghost var was := num[..];
      TallyInOrder(was, a[..], i);
      TallyOne(was, a[..], i);
      num[a[i]] := num[a[i]] + 1;
      assert num[..] == was[a[i] := was[a[i]] + 1];
      i := i + 1;
    }
    assert a[..][..n] == a[..];
  }

  // ---- Lengths to symbols ----

  lemma {:induction false} CountUpdate(L: seq<nat>, p: nat, v: nat, n: nat, i: nat)
    requires p < |L| && n <= |L|
    ensures Count(L[p := v], n, i) == Count(L, n, i) + (if p < n then B(v == i) - B(L[p] == i) else 0)
  {
    if n > 0 { CountUpdate(L, p, v, n - 1, i); }
  }

  lemma {:induction false} CountNone(L: seq<nat>, n: nat, i: nat)
    requires n <= |L| && i > 0 && forall s :: 0 <= s < |L| ==> L[s] == 0
    ensures Count(L, n, i) == 0
  {
    if n > 0 { CountNone(L, n - 1, i); }
  }

  ghost predicate Listed(t: seq<SymFreq>, s: nat) {
    exists k :: 0 <= k < |t| && t[k].index == s
  }

  /** The symbols from rank `j` up have their lengths, none above `i`, the rarer the longer; the others have none. */
  ghost predicate Handed(L: seq<nat>, t: seq<SymFreq>, j: nat, i: nat) {
    && j <= |t| && i >= 1
    && (forall k :: 0 <= k < |t| ==> t[k].index < |L|)
    && (forall k :: 0 <= k < j ==> L[t[k].index] == 0)
    && (forall k :: j <= k < |t| ==> 0 < L[t[k].index] <= i)
    && (forall k, m :: j <= k <= m < |t| ==> L[t[k].index] >= L[t[m].index])
    && (forall s: nat :: s < |L| && L[s] > 0 ==> Listed(t, s))
  }

  /**
   * Lengths below `i` are handed out as often as `num` says; of length `i` there are `l` left; longer ones are not
   * used.
   */
  ghost predicate Given(L: seq<nat>, num: seq<int>, i: nat, l: int) {
    && 1 <= i < |num|
    && (forall c :: 1 <= c < i ==> Count(L, |L|, c) == num[c])
    && Count(L, |L|, i) == num[i] - l
    && (forall c :: i < c < |num| ==> Count(L, |L|, c) == 0)
  }

  lemma {:induction false} HandSym(L: seq<nat>, t: seq<SymFreq>, j: nat, i: nat)
    requires Handed(L, t, j, i) && Distinct(t) && j > 0
    ensures t[j - 1].index < |L| && L[t[j - 1].index] == 0 && Handed(L[t[j - 1].index := i], t, j - 1, i)
  {
    assert Listed(t, t[j - 1].index);
  }

  lemma {:induction false} GiveOne(L: seq<nat>, num: seq<int>, i: nat, l: int, p: nat)
    requires Given(L, num, i, l) && p < |L| && L[p] == 0
    ensures Given(L[p := i], num, i, l - 1)
  {
    hide Count;
    var M := L[p := i];
    assert |M| == |L|;
    forall c | 1 <= c < |num| ensures Count(M, |M|, c) == Count(L, |L|, c) + B(c == i) {
      CountUpdate(L, p, i, |L|, c);
    }
  }

  /** From rank `j` up, the lengths below `i` are where the histogram puts them. */
  ghost predicate Sorted(L: seq<nat>, t: seq<SymFreq>, num: seq<int>, j: nat, i: nat) {
    && i <= |num| && (forall k :: 0 <= k < |t| ==> t[k].index < |L|)
    && forall l: nat, k: nat :: l < i && j <= k < |t| ==>
      (L[t[k].index] <= l <==> k >= |t| - LimitLengths.Codes(num, l))
  }

  lemma {:induction false} SortSym(L: seq<nat>, t: seq<SymFreq>, num: seq<int>, j: nat, i: nat)
    requires Sorted(L, t, num, j, i) && Distinct(t) && 0 < j <= |t| && LimitLengths.Histogram(num) && 1 <= i <= 32
    requires j <= |t| - LimitLengths.Codes(num, i - 1)
    ensures Sorted(L[t[j - 1].index := i], t, num, j - 1, i)
  {
    hide LimitLengths.Codes;
    var M := L[t[j - 1].index := i];
    forall l: nat, k: nat | l < i && j - 1 <= k < |t| ensures M[t[k].index] <= l <==>
      k >= |t| - LimitLengths.Codes(num, l) {
      LimitLengths.CodesMono(num, l, i - 1);
    }
  }

  lemma {:induction false} SortNext(L: seq<nat>, t: seq<SymFreq>, num: seq<int>, i: nat)
    requires i < |num| && 0 <= |t| - LimitLengths.Codes(num, i)
    requires Handed(L, t, |t| - LimitLengths.Codes(num, i), i) && Sorted(L, t, num, |t| - LimitLengths.Codes(num, i), i)
    ensures Sorted(L, t, num, |t| - LimitLengths.Codes(num, i), i + 1)
  {
    hide LimitLengths.Codes, Listed;
  }

  /** All ranks have their lengths. */
  lemma {:induction false} SortDone(L: seq<nat>, t: seq<SymFreq>, num: seq<int>, limit: nat)
    requires Sorted(L, t, num, 0, limit + 1)
    ensures forall k :: 0 <= k < |t| ==> t[k].index < |L|
    ensures LimitCost.InOrder(Pick(L, IndicesOf(t)), num, limit)
  {
    hide LimitLengths.Codes;
  }

  /** Gives length `i` to the next `l` symbols from rank `j` down. */
  method HandLength(sizes: array<nat>, cur: array<SymFreq>, ghost t: seq<SymFreq>, ghost num: seq<int>, j: nat, i: nat,
      l: nat)
    requires t <= cur[..] && sizes as object != cur && l <= j <= |t| && Distinct(t)
    requires Handed(sizes[..], t, j, i) && Given(sizes[..], num, i, l) && Sorted(sizes[..], t, num, j, i)
    requires LimitLengths.Histogram(num) && 1 <= i <= 32 && j <= |t| - LimitLengths.Codes(num, i - 1)
    modifies sizes
    ensures Handed(sizes[..], t, j - l, i) && Given(sizes[..], num, i, 0) && Sorted(sizes[..], t, num, j - l, i)
  {
    hide Handed, Given, Distinct, Sorted, LimitLengths.Codes;
    var k: nat := 0;
    while k < l
      invariant k <= l && t <= cur[..]
      invariant Handed(sizes[..], t, j - k, i) && Given(sizes[..], num, i, l - k) && Sorted(sizes[..], t, num, j - k, i)
    {
      HandSym(sizes[..], t, j - k, i);
      SortSym(sizes[..], t, num, j - k, i);
      k := k + 1;
      var p := cur[j - k].index;
      GiveOne(sizes[..], num, i, l - k + 1, p);
      ghost var was := sizes[..];
      sizes[p] := i;
      assert sizes[..] == was[p := i];
    }
  }

  /** Hands out the lengths: the most frequent symbols get the shortest. */
  method HandOut(sizes: array<nat>, cur: array<SymFreq>, n: nat, num: array<int>, limit: nat)
    requires n <= cur.Length && num.Length == 33 && 1 <= limit <= 32 && LimitLengths.Histogram(num[..])
    requires sizes as object != cur && sizes as object != num
    requires LimitLengths.Codes(num[..], limit) == n && Distinct(cur[..n])
    requires forall k :: 0 <= k < n ==> cur[k].index < sizes.Length
    requires forall s :: 0 <= s < sizes.Length ==> sizes[s] == 0
    modifies sizes
    ensures Handed(sizes[..], cur[..n], 0, limit) && Given(sizes[..], num[..], limit, 0)
    ensures Sorted(sizes[..], cur[..n], num[..], 0, limit + 1)
  {
    hide Handed, Given, Distinct, Sorted, LimitLengths.Codes, LimitLengths.Histogram;
    ghost var t, N := cur[..n], num[..];
    var j := n;
    var i: nat := 1;
    StartHanding(sizes[..], t, N);
    while i <= limit
      invariant 1 <= i <= limit + 1 && 0 <= j <= n && t <= cur[..] && num[..] == N
      invariant j == n - LimitLengths.Codes(N, i - 1)
      invariant Sorted(sizes[..], t, N, j, i)
      invariant i <= limit ==> Handed(sizes[..], t, j, i) && Given(sizes[..], N, i, N[i])
      invariant i > limit ==> Handed(sizes[..], t, j, limit) && Given(sizes[..], N, limit, 0)
    {
      CodesStep(N, i, limit);
      HandLength(sizes, cur, t, N, j, i, num[i]);
      j := j - num[i];
      SortNext(sizes[..], t, N, i);
      if i < limit { NextLength(sizes[..], t, N, j, i); }
      i := i + 1;
    }
  }

  lemma {:induction false} CodesStep(num: seq<int>, i: nat, limit: nat)
    requires LimitLengths.Histogram(num) && 1 <= i <= limit < |num|
    ensures LimitLengths.Codes(num, i) == LimitLengths.Codes(num, i - 1) + num[i] <= LimitLengths.Codes(num, limit)
    ensures num[i] >= 0
  {
    LimitLengths.CodesMono(num, i, limit);
  }

  lemma {:induction false} StartHanding(L: seq<nat>, t: seq<SymFreq>, num: seq<int>)
    requires forall s :: 0 <= s < |L| ==> L[s] == 0
    requires |num| == 33 && forall k :: 0 <= k < |t| ==> t[k].index < |L|
    ensures Handed(L, t, |t|, 1) && Given(L, num, 1, num[1]) && LimitLengths.Codes(num, 0) == 0
      && Sorted(L, t, num, |t|, 1)
  {
    forall c | 1 <= c < |num| ensures Count(L, |L|, c) == 0 { CountNone(L, |L|, c); }
  }

  lemma {:induction false} NextLength(L: seq<nat>, t: seq<SymFreq>, num: seq<int>, j: nat, i: nat)
    requires Handed(L, t, j, i) && Given(L, num, i, 0) && i + 1 < |num|
    ensures Handed(L, t, j, i + 1) && Given(L, num, i + 1, num[i + 1])
  {
    hide Listed, Count;
  }

  // ---- The code the lengths define ----

  /** The lengths handed out take the space the histogram says. */
  lemma {:induction false} SpaceTaken(L: seq<nat>, num: seq<int>, limit: nat, i: nat)
    requires Given(L, num, limit, 0) && i <= limit
    ensures EndCode(L, i) == LimitLengths.Taken(num, i) && UsedUpTo(L, |L|, i) == LimitLengths.Codes(num, i)
  {
    hide Count;
    if i > 0 { SpaceTaken(L, num, limit, i - 1); }
  }

  /** Without longer codes a full level stays full. */
  lemma {:induction false} FullBelow(L: seq<nat>, limit: nat, i: nat)
    requires 1 <= limit <= i && EndCode(L, limit) == Pow2(limit) && forall c :: limit < c <= i ==> Count(L, |L|, c) == 0
    ensures EndCode(L, i) == Pow2(i)
  {
    hide Count;
    if i > limit { FullBelow(L, limit, i - 1); }
  }

  lemma {:induction false} NoneLonger(L: seq<nat>, n: nat, limit: nat, c: nat)
    requires n <= |L| && limit < c && forall s :: 0 <= s < |L| ==> L[s] <= limit
    ensures Count(L, n, c) == 0
  {
    if n > 0 { NoneLonger(L, n - 1, limit, c); }
  }

  /** A full histogram of lengths makes a complete code, and a single length a code of one symbol. */
  lemma {:induction false} HandedAccepted(L: seq<nat>, num: seq<int>, limit: nat, n: nat)
    requires Given(L, num, limit, 0) && limit <= 15 && LimitLengths.Codes(num, limit) == n
    requires forall s :: 0 <= s < |L| ==> L[s] <= limit
    requires n >= 2 ==> LimitLengths.Taken(num, limit) == Pow2(limit)
    ensures Accepted(L) && Used(L, |L|) == n && (n >= 2 ==> Complete(L))
  {
    SpaceTaken(L, num, limit, limit);
    UsedUpToAll(L, |L|, limit);
    if n >= 2 {
      forall c | limit < c <= 15 ensures Count(L, |L|, c) == 0 { NoneLonger(L, |L|, limit, c); }
      FullBelow(L, limit, 15);
    }
  }

  lemma {:induction false} FirstCode(L: seq<nat>)
    ensures NextCode(L, 1) == 0
  {
  }

  lemma {:induction false} FirstCodeStep(L: seq<nat>, num: seq<int>, limit: nat, i: nat)
    requires Given(L, num, limit, 0) && 2 <= i <= limit
    ensures num[i - 1] >= 0 && NextCode(L, i) == 2 * (NextCode(L, i - 1) + num[i - 1])
  {
    hide Count;
  }

  /** The first code of each length, from the histogram. */
  method FirstCodes(num: array<int>, limit: nat, ghost L: seq<nat>) returns (next: array<nat>)
    requires num.Length == 33 && 1 <= limit <= 15 && Given(L, num[..], limit, 0)
    ensures fresh(next) && next.Length == 33 && forall i :: 1 <= i <= limit ==> next[i] == NextCode(L, i)
  {
    hide Count, NextCode, Given;
    next := new nat[33](_ => 0);
    var i, j: nat := 2, 0;
    FirstCode(L);
    while i <= limit
      invariant 2 <= i && (i <= limit + 1 || limit == 1) && j == NextCode(L, i - 1)
      invariant forall k :: 1 <= k < i && k <= limit ==> next[k] == NextCode(L, k)
    {
      FirstCodeStep(L, num[..], limit, i);
      j := 2 * (j + num[i - 1]);
      next[i] := j;
      i := i + 1;
    }
  }

  /** Symbols below `n` have their reversed codes; `next` holds the code of the next symbol of each length. */
  ghost predicate Coded(L: seq<nat>, codes: seq<nat>, next: seq<nat>, limit: nat, n: nat) {
    && |codes| == |L| && limit < |next| && n <= |L|
    && (forall s :: 0 <= s < n ==> codes[s] == if L[s] == 0 then 0 else Rev(Code(L, s), L[s]))
    && (forall s :: n <= s < |L| ==> codes[s] == 0)
    && (forall i :: 1 <= i <= limit ==> next[i] == NextCode(L, i) + Count(L, n, i))
  }

  lemma {:induction false} SkipUnused(L: seq<nat>, codes: seq<nat>, next: seq<nat>, limit: nat, n: nat)
    requires Coded(L, codes, next, limit, n) && n < |L| && L[n] == 0
    ensures Coded(L, codes, next, limit, n + 1)
  {
    hide Rev, NextCode, Code;
  }

  lemma {:induction false} CodeNext(L: seq<nat>, codes: seq<nat>, next: seq<nat>, limit: nat, n: nat)
    requires Coded(L, codes, next, limit, n) && n < |L| && 1 <= L[n] <= limit
    ensures next[L[n]] == Code(L, n)
    ensures Coded(L, codes[n := Rev(Code(L, n), L[n])], next[L[n] := next[L[n]] + 1], limit, n + 1)
  {
    hide Rev, NextCode;
  }

  lemma {:induction false} StartCoded(L: seq<nat>, codes: seq<nat>, next: seq<nat>, limit: nat)
    requires |codes| == |L| && limit < |next| && forall s :: 0 <= s < |L| ==> codes[s] == 0
    requires forall i :: 1 <= i <= limit ==> next[i] == NextCode(L, i)
    ensures Coded(L, codes, next, limit, 0)
  {
  }

  method AssignOne(size: nat, codes: array<nat>, next: array<nat>, limit: nat, s: nat, ghost L: seq<nat>)
    requires next != codes && next.Length == 33 && limit <= 15 && Fits(L) && s < |L| == codes.Length
    requires 1 <= size == L[s] <= limit && Coded(L, codes[..], next[..], limit, s)
    modifies codes, next
    ensures Coded(L, codes[..], next[..], limit, s + 1)
  {
    hide Fits, NextCode, Rev, Code, Coded;
    CodeNext(L, codes[..], next[..], limit, s);
    CodeBound(L, s);
    ghost var c, x := codes[..], next[..];
    var code := next[size];
    next[size] := code + 1;
    var rev := ReverseCode(code, size);
    codes[s] := rev;
    assert codes[..] == c[s := rev];
    assert next[..] == x[size := x[size] + 1];
  }

  /** Numbers the symbols of each length in turn and stores each code reversed. */
  method AssignCodes(sizes: array<nat>, codes: array<nat>, next: array<nat>, limit: nat)
    requires codes.Length == sizes.Length && codes != sizes && next != sizes && next != codes && next.Length == 33
      && limit <= 15
    requires Fits(sizes[..]) && forall s :: 0 <= s < sizes.Length ==> sizes[s] <= limit
    requires forall s :: 0 <= s < sizes.Length ==> codes[s] == 0
    requires forall i :: 1 <= i <= limit ==> next[i] == NextCode(sizes[..], i)
    modifies codes, next
    ensures Coded(sizes[..], codes[..], next[..], limit, sizes.Length)
  {
    hide Fits, NextCode, Coded;
    ghost var L := sizes[..];
    StartCoded(L, codes[..], next[..], limit);
    var s := 0;
    while s < sizes.Length
      invariant 0 <= s <= sizes.Length && L == sizes[..] && Coded(L, codes[..], next[..], limit, s)
    {
      if sizes[s] == 0 {
        SkipUnused(L, codes[..], next[..], limit, s);
      } else {
        AssignOne(sizes[s], codes, next, limit, s, L);
      }
      s := s + 1;
    }
  }

  // ---- The whole table ----

  /** Collects the used symbols. */
  method Collect(counts: array<nat>) returns (syms: array<SymFreq>, n: nat)
    requires counts.Length <= 288
    ensures fresh(syms) && syms.Length == 288 && n <= counts.Length && syms[..n] == UsedSyms(counts[..], counts.Length)
  {
    syms := new SymFreq[288](_ => SymFreq(0, 0));
    n := 0;
    var i := 0;
    while i < counts.Length
      invariant 0 <= i <= counts.Length && n <= i && syms[..n] == UsedSyms(counts[..], i)
    {
      if counts[i] != 0 {
        syms[n] := SymFreq(counts[i], i);
        n := n + 1;
        assert syms[..n] == syms[..n - 1] + [SymFreq(counts[i], i)];
      }
      i := i + 1;
    }
  }

  lemma {:induction false} CollectedKeys(counts: seq<nat>, n: nat)
    requires n <= |counts| && Total(counts, n) < 65536
    ensures Keys16(UsedSyms(counts, n))
  {
    if n > 0 { CollectedKeys(counts, n - 1); }
  }

  /** The used symbols ranked by count. */
  method Rank(counts: array<nat>) returns (cur: array<SymFreq>, n: nat)
    requires counts.Length <= 288 && Total(counts[..], counts.Length) < 65536
    ensures fresh(cur) && n <= cur.Length && Ranked(cur[..n], counts[..])
  {
    hide Ranked, UsedSyms, Total;
    var syms0;
    syms0, n := Collect(counts);
    var syms1 := new SymFreq[288](_ => SymFreq(0, 0));
    ghost var c := counts[..];
    CollectedKeys(c, |c|);
    cur := Sort(syms0, syms1, n);
    assert counts[..] == c;
    SortedRanked(cur[..n], c);
  }

  /** The counts of the ranked symbols, to be replaced by code lengths. */
  method KeyColumn(cur: array<SymFreq>, n: nat) returns (a: array<int>)
    requires n <= cur.Length
    ensures fresh(a) && a.Length == n && a[..] == KeysOf(cur[..n])
  {
    a := new int[n];
    var i := 0;
    while i < n
      invariant 0 <= i <= n && forall k :: 0 <= k < i ==> a[k] == cur[k].key
    {
      a[i] := cur[i].key;
      i := i + 1;
    }
  }

  lemma {:induction false} LeavesShort(a: seq<int>)
    requires MinRedundancy.Leaves(a, -1, 30)
    ensures Falling(a) && forall j :: 0 <= j < |a| ==> 1 <= a[j] <= 32
  {
  }

  lemma {:induction false} NoneFalling(a: seq<int>)
    requires a == []
    ensures Falling(a)
  {
  }

  /** Code lengths for ranked symbols, as a histogram no longer than `limit`. */
  method LengthsFor(cur: array<SymFreq>, n: nat, limit: nat, ghost counts: seq<nat>) returns (num: array<int>)
    requires n <= cur.Length && Ranked(cur[..n], counts) && Total(counts, |counts|) < 65536
    requires 1 <= limit <= 15 && n <= Pow2(limit)
    ensures fresh(num) && num.Length == 33 && LimitLengths.Histogram(num[..]) && LimitLengths.Codes(num[..], limit) == n
    ensures n >= 2 ==> LimitLengths.Taken(num[..], limit) == Pow2(limit)
    ensures n <= 1 ==> LimitLengths.Codes(num[..], 1) == n
    ensures n >= 2 && limit == LimitCost.LIMIT ==> LimitedFrom(KeysOf(cur[..n]), num[..])
  {
    hide Ranked, LimitLengths.Codes, LimitLengths.Taken, LimitLengths.Histogram, MinRedundancy.KraftFrom,
      MinRedundancy.Input, MinRedundancy.Leaves, MinRedundancy.Minimal, MinRedundancy.Light, Tallied, KeysOf, Total,
      Pow2, Falling, LimitCost.InOrder, LimitLengths.Repaid, LimitLengths.Cut;
    ghost var t := cur[..n];
    RankedInput(t, counts);
    var a := KeyColumn(cur, n);
    MinRedundancy.CodeLengths(a, n, KeysOf(t));
    if n >= 1 { LeavesShort(a[..]); } else { NoneFalling(a[..]); }
    num := LengthHistogram(a, n);
    ghost var was := num[..];
    AllTallied(was, a[..]);
    ghost var at := LimitLengths.EnforceMaxCodeSize(num, n, limit);
    if n <= 1 { FewCodes(was, a[..], n, limit); }
    if n >= 2 && limit == LimitCost.LIMIT { assert From(KeysOf(t), a[..], was, num[..], at); }
  }

  lemma {:induction false} AllTallied(num: seq<int>, a: seq<int>)
    requires Tallied(num, a, |a|)
    ensures LimitLengths.Histogram(num) && LimitLengths.Codes(num, 32) == |a|
    ensures LimitLengths.Taken(num, 32) == MinRedundancy.KraftFrom(a, 0)
  {
    hide LimitLengths.Codes, LimitLengths.Taken;
  }

  lemma {:induction false} FewCodes(num: seq<int>, a: seq<int>, n: nat, limit: nat)
    requires Tallied(num, a, n) && |a| == n <= 1 && 1 <= limit <= 15 && (n == 1 ==> a[0] == 1)
    ensures LimitLengths.Codes(num, limit) == n == LimitLengths.Codes(num, 1)
  {
    LimitLengths.CodesMono(num, limit, 32);
    LimitLengths.CodesMono(num, 1, limit);
    assert LimitLengths.Codes(num, 1) == num[1];
  }

  /** What the encoder's table holds for `counts`. */
  ghost predicate CodeFor(counts: seq<nat>, limit: nat, L: seq<nat>, codes: seq<nat>) {
    && |L| == |codes| == |counts| && Accepted(L)
    && (forall s :: 0 <= s < |L| ==> (L[s] > 0 <==> counts[s] > 0) && L[s] <= limit)
    && (forall s, t :: 0 <= s < |L| && 0 <= t < |L| && counts[s] > counts[t] > 0 ==> L[s] <= L[t])
    && (forall s :: 0 <= s < |L| ==> codes[s] == if L[s] == 0 then 0 else Rev(Code(L, s), L[s]))
  }

  lemma {:induction false} RankedCode(counts: seq<nat>, t: seq<SymFreq>, L: seq<nat>, limit: nat)
    requires Ranked(t, counts) && Handed(L, t, 0, limit) && |L| == |counts|
    ensures forall s :: 0 <= s < |L| ==> (L[s] > 0 <==> counts[s] > 0) && L[s] <= limit
    ensures forall s, u :: 0 <= s < |L| && 0 <= u < |L| && counts[s] > counts[u] > 0 ==> L[s] <= L[u]
  {
    forall s: nat | s < |L| ensures (L[s] > 0 <==> counts[s] > 0) && L[s] <= limit { InTable(counts, t, L, limit, s); }
    forall s, u | 0 <= s < |L| && 0 <= u < |L| && counts[s] > counts[u] > 0 ensures L[s] <= L[u] {
      var j :| 0 <= j < |t| && t[j] == SymFreq(counts[s], s);
      var k :| 0 <= k < |t| && t[k] == SymFreq(counts[u], u);
      assert t[j].key > t[k].key;
      assert k <= j;
    }
  }

  lemma {:induction false} InTable(counts: seq<nat>, t: seq<SymFreq>, L: seq<nat>, limit: nat, s: nat)
    requires Ranked(t, counts) && Handed(L, t, 0, limit) && |L| == |counts| && s < |L|
    ensures (L[s] > 0 <==> counts[s] > 0) && L[s] <= limit
  {
    if counts[s] > 0 {
      var j :| 0 <= j < |t| && t[j] == SymFreq(counts[s], s);
    } else {
      assert L[s] > 0 ==> Listed(t, s);
    }
  }

  /** Hands out code lengths for `counts`; the number of codes of each length is returned. */
  method ChooseSizes(counts: array<nat>, sizes: array<nat>, limit: nat) returns (num: array<int>)
    requires counts.Length == sizes.Length <= 288 && counts != sizes
    requires 1 <= limit <= 15 && counts.Length <= Pow2(limit) && Total(counts[..], counts.Length) < 65536
    modifies sizes
    ensures fresh(num) && num.Length == 33 && Given(sizes[..], num[..], limit, 0) && Accepted(sizes[..])
    ensures forall s :: 0 <= s < sizes.Length ==> (sizes[s] > 0 <==> counts[s] > 0) && sizes[s] <= limit
    ensures forall s, u :: 0 <= s < sizes.Length && 0 <= u < sizes.Length && counts[s] > counts[u] > 0 ==>
      sizes[s] <= sizes[u]
    ensures limit == LimitCost.LIMIT ==> NearlyMinimal(counts[..], sizes[..])
  {
    hide Ranked, LimitLengths.Codes, LimitLengths.Taken, LimitLengths.Histogram, Accepted, Handed, Given, Distinct,
      Sorted, Total, Pow2, NearlyMinimal, LimitedFrom;
    ghost var C := counts[..];
    var cur, n := Rank(counts);
    ghost var t := cur[..n];
    RankedBounds(t, C);
    num := LengthsFor(cur, n, limit, C);
    ghost var N := num[..];
    forall s | 0 <= s < sizes.Length { sizes[s] := 0; }
    assert cur[..n] == t && num[..] == N;
    HandOut(sizes, cur, n, num, limit);
    assert num[..] == N;
    RankedCode(C, t, sizes[..], limit);
    HandedAccepted(sizes[..], N, limit, n);
    if limit == LimitCost.LIMIT { HandedNearly(C, t, sizes[..], N); }
    assert counts[..] == C;
  }

  /** The lengths handed out by rank are nearly the cheapest there are. */
  lemma {:induction false} HandedNearly(counts: seq<nat>, t: seq<SymFreq>, L: seq<nat>, num: seq<int>)
    requires Ranked(t, counts) && |L| == |counts| && Sorted(L, t, num, 0, LimitCost.LIMIT + 1)
    requires forall s :: 0 <= s < |L| ==> L[s] <= LimitCost.LIMIT
    requires LimitLengths.Histogram(num) && LimitLengths.Codes(num, LimitCost.LIMIT) == |t|
    requires |t| <= 1 ==> LimitLengths.Codes(num, 1) == |t|
    requires |t| >= 2 ==> LimitedFrom(KeysOf(t), num)
    ensures NearlyMinimal(counts, L)
  {
    hide Ranked, LimitLengths.Codes, NearlyMinimal, LimitedFrom;
    RankedRanks(t, counts);
    SortDone(L, t, num, LimitCost.LIMIT);
    if |t| >= 2 {
      LimitedNearly(counts, KeysOf(t), IndicesOf(t), L, num);
    } else {
      FewNearly(counts, KeysOf(t), IndicesOf(t), L);
    }
  }

  /** Numbers the symbols of each length and stores the codes reversed, zero for unused symbols. */
  method NumberCodes(sizes: array<nat>, codes: array<nat>, num: array<int>, limit: nat)
    requires codes.Length == sizes.Length && codes != sizes && num.Length == 33 && 1 <= limit <= 15
    requires codes as object != num && Fits(sizes[..]) && Given(sizes[..], num[..], limit, 0)
    requires forall s :: 0 <= s < sizes.Length ==> sizes[s] <= limit
    modifies codes
    ensures |codes[..]| == |sizes[..]|
    ensures forall s :: 0 <= s < sizes.Length ==> codes[s] == if sizes[s] == 0 then 0
      else Rev(Code(sizes[..], s), sizes[s])
  {
    hide Fits, Given, NextCode, Coded, Rev, Code;
    ghost var L, N := sizes[..], num[..];
    forall s | 0 <= s < codes.Length { codes[s] := 0; }
    assert sizes[..] == L && num[..] == N;
    var next := FirstCodes(num, limit, L);
    AssignCodes(sizes, codes, next, limit);
    AllCoded(L, codes[..], next[..], limit);
  }

  /**
   * Builds the code for `counts`: exactly the used symbols get codes, none longer than `limit`, a rarer symbol never a
   * shorter one than a more frequent one, and the lengths are ones the decoder accepts. With a limit of 15 bits no code
   * the decoder accepts is cheaper by more than one bit for every 270 occurrences of each symbol.
   */
  method OptimizeTable(counts: array<nat>, sizes: array<nat>, codes: array<nat>, limit: nat)
    requires counts.Length == sizes.Length == codes.Length <= 288
    requires counts != sizes && counts != codes && sizes != codes
    requires 1 <= limit <= 15 && counts.Length <= Pow2(limit) && Total(counts[..], counts.Length) < 65536
    modifies sizes, codes
    ensures CodeFor(counts[..], limit, sizes[..], codes[..])
    ensures limit == LimitCost.LIMIT ==> NearlyMinimal(counts[..], sizes[..])
  {
    hide Accepted, Given, Fits, Rev, Code, Total, Pow2, NearlyMinimal;
    var num := ChooseSizes(counts, sizes, limit);
    AcceptedFits(sizes[..]);
    NumberCodes(sizes, codes, num, limit);
  }

  lemma {:induction false} RankedBounds(t: seq<SymFreq>, counts: seq<nat>)
    requires Ranked(t, counts)
    ensures |t| <= |counts| && Distinct(t) && forall k :: 0 <= k < |t| ==> t[k].index < |counts|
  {
  }

  lemma {:induction false} AllCoded(L: seq<nat>, codes: seq<nat>, next: seq<nat>, limit: nat)
    requires Coded(L, codes, next, limit, |L|)
    ensures forall s :: 0 <= s < |L| ==> codes[s] == if L[s] == 0 then 0 else Rev(Code(L, s), L[s])
  {
  }

  // ---- Codes for given lengths ----

  /** `num` counts the lengths of the first `n` symbols. */
  ghost predicate SizesCounted(L: seq<nat>, num: seq<int>, n: nat) {
    |num| == 33 && n <= |L| && forall c: nat :: c < 33 ==> num[c] == Count(L, n, c)
  }

  lemma {:induction false} CountSize(L: seq<nat>, num: seq<int>, n: nat)
    requires SizesCounted(L, num, n) && n < |L| && L[n] < 33
    ensures SizesCounted(L, num[L[n] := num[L[n]] + 1], n + 1)
  {
  }

  lemma {:induction false} CountedGiven(L: seq<nat>, num: seq<int>)
    requires SizesCounted(L, num, |L|) && ValidLens(L)
    ensures Given(L, num, 15, 0)
  {
    forall c: nat | 15 < c < 33 ensures Count(L, |L|, c) == 0 { NoneLonger(L, |L|, 15, c); }
    hide Count;
  }

  /** Codes for lengths that are given, as a static block's are. */
  method StaticTable(sizes: array<nat>, codes: array<nat>)
    requires codes.Length == sizes.Length && codes != sizes && Fits(sizes[..])
    modifies codes
    ensures |codes[..]| == |sizes[..]| && forall s :: 0 <= s < sizes.Length ==>
      codes[s] == if sizes[s] == 0 then 0 else Rev(Code(sizes[..], s), sizes[s])
  {
    ghost var L := sizes[..];
    FitsLens(L);
    hide Fits, ValidLens, SizesCounted, Given, Rev, Code;
    var num := new int[33](_ => 0);
    NothingCounted(L, num[..]);
    var i := 0;
    while i < sizes.Length
      invariant 0 <= i <= sizes.Length && sizes[..] == L && SizesCounted(L, num[..], i)
    {
      ghost var was := num[..];
      CountSize(L, was, i);
      num[sizes[i]] := num[sizes[i]] + 1;
      assert num[..] == was[L[i] := was[L[i]] + 1];
      i := i + 1;
    }
    CountedGiven(L, num[..]);
    NumberCodes(sizes, codes, num, 15);
  }

  lemma {:induction false} FitsLens(L: seq<nat>)
    requires Fits(L)
    ensures ValidLens(L) && forall s :: 0 <= s < |L| ==> L[s] <= 15
  {
  }

  lemma {:induction false} NothingCounted(L: seq<nat>, num: seq<int>)
    requires |num| == 33 && forall c :: 0 <= c < 33 ==> num[c] == 0
    ensures SizesCounted(L, num, 0)
  {
  }
}
