/** What a code costs for given symbol counts, and how it compares with every other code the decoder accepts. */
module CodeCost {
  import opened Bits
  import opened Canonical
  import opened HuffmanBound
  import MinRedundancy
  import LimitCost
  import LimitLengths

  ghost function Total(counts: seq<nat>, n: nat): (v: nat)
    requires n <= |counts|
  {
    if n == 0 then 0 else Total(counts, n - 1) + counts[n - 1]
  }

  lemma {:induction false} TotalInc(c: seq<nat>, p: nat, n: nat, x: nat)
    requires p < |c| && n <= |c|
    ensures Total(c[p := c[p] + x], n) == Total(c, n) + (if p < n then x else 0)
  {
    if n > 0 { TotalInc(c, p, n - 1, x); }
  }

  lemma {:induction false} TotalNone(c: seq<nat>, n: nat)
    requires n <= |c| && forall s :: 0 <= s < |c| ==> c[s] == 0
    ensures Total(c, n) == 0
  {
    if n > 0 { TotalNone(c, n - 1); }
  }

  // ---- Sums over some symbols ----

  ghost predicate Different(idx: seq<nat>, m: nat) {
    (forall j, k :: 0 <= j < k < |idx| ==> idx[j] != idx[k]) && forall k :: 0 <= k < |idx| ==> idx[k] < m
  }

  ghost function PickTo(v: seq<nat>, idx: seq<nat>, k: nat): (r: nat)
    requires k <= |idx| && forall j :: 0 <= j < |idx| ==> idx[j] < |v|
  {
    if k == 0 then 0 else PickTo(v, idx, k - 1) + v[idx[k - 1]]
  }

  lemma {:induction false} PickSame(v: seq<nat>, p: nat, x: nat, idx: seq<nat>, k: nat)
    requires k <= |idx| && p < |v| && (forall j :: 0 <= j < |idx| ==> idx[j] < |v|) && forall j :: 0 <= j < k ==>
      idx[j] != p
    ensures PickTo(v[p := x], idx, k) == PickTo(v, idx, k)
  {
    if k > 0 { PickSame(v, p, x, idx, k - 1); }
  }

  /** Different symbols add up to no more than all of them, and to all if only they count. */
  lemma {:induction false} PickTotal(v: seq<nat>, idx: seq<nat>, k: nat)
    requires Different(idx, |v|) && k <= |idx|
    ensures PickTo(v, idx, k) <= Total(v, |v|)
    ensures (forall s :: 0 <= s < |v| && v[s] > 0 ==> s in idx[..k]) ==> PickTo(v, idx, k) == Total(v, |v|)
    decreases k
  {
    if k == 0 {
      if forall s :: 0 <= s < |v| && v[s] > 0 ==> s in idx[..k] { TotalNone(v, |v|); }
    } else {
      var p := idx[k - 1];
      var u := v[p := 0];
      PickTotal(u, idx, k - 1);
      PickSame(v, p, 0, idx, k - 1);
      assert u[p := u[p] + v[p]] == v;
      TotalInc(u, p, |v|, v[p]);
      assert idx[..k] == idx[..k - 1] + [p];
    }
  }

  // ---- Costs ----

  ghost function Products(counts: seq<nat>, L: seq<nat>): (v: seq<nat>)
    requires |L| == |counts|
    ensures |v| == |L| && forall s :: 0 <= s < |L| ==> v[s] == Weighted(counts[s], L[s])
  {
    seq(|L|, s requires 0 <= s < |L| => Weighted(counts[s], L[s]))
  }

  /** The bits that all symbols take together. */
  ghost function CostOf(counts: seq<nat>, L: seq<nat>): (c: nat)
    requires |L| == |counts|
  {
    Total(Products(counts, L), |L|)
  }

  ghost function Pick(v: seq<nat>, idx: seq<nat>): (r: seq<int>)
    requires forall k :: 0 <= k < |idx| ==> idx[k] < |v|
    ensures |r| == |idx| && forall k :: 0 <= k < |r| ==> r[k] == v[idx[k]]
  {
    seq(|idx|, k requires 0 <= k < |idx| => v[idx[k]])
  }

  /** `w0` are the counts of the symbols `idx`, which are all that occur. */
  ghost predicate Ranks(counts: seq<nat>, w0: seq<nat>, idx: seq<nat>) {
    && Different(idx, |counts|) && |w0| == |idx| <= |counts|
      && (forall k :: 0 <= k < |idx| ==> w0[k] == counts[idx[k]] > 0)
    && forall s: nat :: s < |counts| && counts[s] > 0 ==> s in idx
  }

  lemma {:induction false} CostPicked(counts: seq<nat>, w0: seq<nat>, idx: seq<nat>, L: seq<nat>, k: nat)
    requires Ranks(counts, w0, idx) && |L| == |counts| && k <= |idx|
    ensures MinRedundancy.CostTo(w0, Pick(L, idx), k) == PickTo(Products(counts, L), idx, k)
  {
    hide Weighted;
    if k > 0 { CostPicked(counts, w0, idx, L, k - 1); }
  }

  lemma {:induction false} CostByRank(counts: seq<nat>, w0: seq<nat>, idx: seq<nat>, L: seq<nat>)
    requires Ranks(counts, w0, idx) && |L| == |counts|
    ensures MinRedundancy.CostTo(w0, Pick(L, idx), |idx|) == CostOf(counts, L)
  {
    CostPicked(counts, w0, idx, L, |idx|);
    var v := Products(counts, L);
    PickTotal(v, idx, |idx|);
    assert idx[..|idx|] == idx;
    forall s | 0 <= s < |v| && v[s] > 0 ensures s in idx { assert Weighted(counts[s], L[s]) > 0 ==> counts[s] > 0; }
  }

  lemma {:induction false} SumPicked(counts: seq<nat>, w0: seq<nat>, idx: seq<nat>, k: nat)
    requires Ranks(counts, w0, idx) && k <= |idx|
    ensures MinRedundancy.SumFrom(w0, k) + PickTo(counts, idx, k) == PickTo(counts, idx, |idx|)
    decreases |idx| - k
  {
    if k < |idx| { SumPicked(counts, w0, idx, k + 1); }
  }

  lemma {:induction false} SumByRank(counts: seq<nat>, w0: seq<nat>, idx: seq<nat>)
    requires Ranks(counts, w0, idx)
    ensures MinRedundancy.SumFrom(w0, 0) == Total(counts, |counts|)
  {
    SumPicked(counts, w0, idx, 0);
    PickTotal(counts, idx, |idx|);
    assert idx[..|idx|] == idx;
  }

  // ---- The space a code takes ----

  function ShareAt(l: nat, i: nat): (v: nat) {
    if 1 <= l <= i then Pow2(i - l) else 0
  }

  ghost function Shares(X: seq<nat>, i: nat): (v: seq<nat>)
    ensures |v| == |X| && forall s :: 0 <= s < |X| ==> v[s] == ShareAt(X[s], i)
  {
    seq(|X|, s requires 0 <= s < |X| => ShareAt(X[s], i))
  }

  lemma {:induction false} SharesStep(X: seq<nat>, i: nat, n: nat)
    requires 1 <= i && n <= |X|
    ensures Total(Shares(X, i), n) == 2 * Total(Shares(X, i - 1), n) + Count(X, n, i)
  {
    if n > 0 {
      SharesStep(X, i, n - 1);
      ShareStep(X[n - 1], i);
      hide ShareAt;
    }
  }

  lemma {:induction false} ShareStep(l: nat, i: nat)
    requires 1 <= i
    ensures ShareAt(l, i) == 2 * ShareAt(l, i - 1) + B(l == i)
  {
  }

  /** The code space up to length `i`, symbol by symbol. */
  lemma {:induction false} EndCodeShares(X: seq<nat>, i: nat)
    ensures EndCode(X, i) == Total(Shares(X, i), |X|)
  {
    if i == 0 {
      TotalNone(Shares(X, 0), |X|);
    } else {
      EndCodeShares(X, i - 1);
      SharesStep(X, i, |X|);
      hide Shares, Count;
      if i == 1 { EndCodeShares(X, 0); }
    }
  }

  lemma {:induction false} SpacePicked(w0: seq<nat>, X: seq<nat>, idx: seq<nat>, k: nat)
    requires Different(idx, |X|) && |w0| == |idx| && k <= |idx| && forall j :: 0 <= j < |idx| ==> 1 <= X[idx[j]] <= 15
    ensures Space(MinRedundancy.Items(w0, Pick(X, idx))[..k], 15) == PickTo(Shares(X, 15), idx, k)
  {
    hide Space, Part, Ws;
    var s := MinRedundancy.Items(w0, Pick(X, idx));
    if k == 0 {
      assert s[..0] == [];
      NoSpace();
    } else {
      SpacePicked(w0, X, idx, k - 1);
      assert s[..k] == s[..k - 1] + [s[k - 1]];
      SpaceConcat(s[..k - 1], [s[k - 1]], 15);
      One(s[k - 1], 15);
      PartIs(X[idx[k - 1]]);
    }
  }

  lemma {:induction false} NoSpace()
    ensures Space([], 15) == 0
  {
  }

  lemma {:induction false} PartIs(l: nat)
    requires 1 <= l <= 15
    ensures Part(l, 15) == ShareAt(l, 15)
  {
  }

  /** Lengths that fit the decoder's code space satisfy the inequality of Kraft and McMillan on any of the symbols. */
  lemma {:induction false} FitsDecodable(w0: seq<nat>, X: seq<nat>, idx: seq<nat>)
    requires Fits(X) && Different(idx, |X|) && |w0| == |idx| && forall j :: 0 <= j < |idx| ==> 1 <= X[idx[j]]
    ensures Decodable(MinRedundancy.Items(w0, Pick(X, idx)), 15)
  {
    hide Space, Shares, Different, EndCode, NextCode, Pow2;
    DifferentIn(idx, |X|);
    var s := MinRedundancy.Items(w0, Pick(X, idx));
    EndFits(X, 15);
    EndCodeShares(X, 15);
    SpacePicked(w0, X, idx, |idx|);
    assert s[..|idx|] == s;
    PickTotal(Shares(X, 15), idx, |idx|);
  }

  lemma {:induction false} DifferentIn(idx: seq<nat>, m: nat)
    requires Different(idx, m)
    ensures forall k :: 0 <= k < |idx| ==> idx[k] < m
  {
  }

  // ---- Against every other code ----

  /** Another code for the symbols that occur. */
  ghost predicate Alternative(counts: seq<nat>, X: seq<nat>) {
    |X| == |counts| && Fits(X) && forall s :: 0 <= s < |X| && counts[s] > 0 ==> X[s] > 0
  }

  /** No code the decoder accepts beats `L` by more than one bit for every 270 occurrences of each symbol. */
  ghost predicate NearlyMinimal(counts: seq<nat>, L: seq<nat>) {
    && |L| == |counts|
    && forall X: seq<nat> :: Alternative(counts, X) ==>
      270 * CostOf(counts, L) <= 270 * CostOf(counts, X) + |counts| * Total(counts, |counts|)
  }

  /** A minimum-redundancy code costs no more than another code. */
  lemma {:induction false} CheapestByRank(counts: seq<nat>, w0: seq<nat>, idx: seq<nat>, a: seq<int>, X: seq<nat>)
    requires Ranks(counts, w0, idx) && MinRedundancy.Minimal(w0, a) && Alternative(counts, X)
    ensures MinRedundancy.CostTo(w0, a, |idx|) <= CostOf(counts, X)
  {
    hide Fits, Space, Cost, Decodable, MinRedundancy.CostTo, CostOf;
    var s := MinRedundancy.Items(w0, Pick(X, idx));
    FitsDecodable(w0, X, idx);
    assert Weights(s) == w0;
    MinRedundancy.CostOfItems(w0, Pick(X, idx), |idx|);
    assert s[..|idx|] == s;
    CostByRank(counts, w0, idx, X);
    MinRedundancy.CostOfItems(w0, a, |idx|);
    assert MinRedundancy.Items(w0, a)[..|idx|] == MinRedundancy.Items(w0, a);
  }

  /** The histogram comes from a minimum-redundancy code for `w0`. */
  ghost predicate From(w0: seq<nat>, a: seq<int>, num0: seq<int>, num: seq<int>, at: nat) {
    && MinRedundancy.Minimal(w0, a) && MinRedundancy.Light(w0, a) && (forall k :: 0 <= k < |a| ==> a[k] >= 1)
    && LimitCost.InOrder(a, num0, 32) && LimitLengths.Histogram(num0) && LimitLengths.Codes(num0, 32) == |a|
    && LimitLengths.Repaid(LimitLengths.Cut(num0, LimitCost.LIMIT), num, LimitCost.LIMIT, |a|, at)
  }

  ghost predicate LimitedFrom(w0: seq<nat>, num: seq<int>) {
    exists a: seq<int>, num0: seq<int>, at: nat :: From(w0, a, num0, num, at)
  }

  lemma {:induction false} LimitedCost(w0: seq<nat>, num: seq<int>, m: seq<int>, a: seq<int>, num0: seq<int>, at: nat)
    requires From(w0, a, num0, num, at) && LimitLengths.Histogram(num)
      && LimitLengths.Codes(num, LimitCost.LIMIT) == |w0| == |m|
    requires LimitCost.InOrder(m, num, LimitCost.LIMIT) && forall k :: 0 <= k < |m| ==> 0 <= m[k] <= LimitCost.LIMIT
    ensures 270 * MinRedundancy.CostTo(w0, m, |w0|) <= 270 * MinRedundancy.CostTo(w0, a,
      |w0|) + |w0| * MinRedundancy.SumFrom(w0, 0)
  {
    hide MinRedundancy.CostTo, MinRedundancy.SumFrom, LimitCost.InOrder, LimitLengths.Codes, LimitLengths.Repaid,
      LimitLengths.Cut;
    MinimalSize(w0, a);
    hide MinRedundancy.Minimal, MinRedundancy.Light;
    LimitCost.LimitingCost(w0, a, m, num0, num, at);
  }

  lemma {:induction false} MinimalSize(w0: seq<nat>, a: seq<int>)
    requires MinRedundancy.Minimal(w0, a)
    ensures |a| == |w0|
  {
  }

  /** Limited lengths, handed out by rank. */
  lemma {:induction false} LimitedNearly(counts: seq<nat>, w0: seq<nat>, idx: seq<nat>, L: seq<nat>, num: seq<int>)
    requires Ranks(counts, w0, idx) && |L| == |counts| && LimitedFrom(w0, num)
    requires LimitLengths.Histogram(num) && LimitLengths.Codes(num, LimitCost.LIMIT) == |w0|
    requires LimitCost.InOrder(Pick(L, idx), num, LimitCost.LIMIT) && forall k :: 0 <= k < |idx| ==>
      L[idx[k]] <= LimitCost.LIMIT
    ensures NearlyMinimal(counts, L)
  {
    hide MinRedundancy.CostTo, MinRedundancy.SumFrom, LimitCost.InOrder, LimitLengths.Codes, From, Total, CostOf, Fits;
    var a: seq<int>, num0: seq<int>, at: nat :| From(w0, a, num0, num, at);
    LimitedCost(w0, num, Pick(L, idx), a, num0, at);
    CostByRank(counts, w0, idx, L);
    SumByRank(counts, w0, idx);
    FromMinimal(w0, a, num0, num, at);
    var all := Total(counts, |counts|);
    MoreSymbols(|idx|, |counts|, all);
    forall X: seq<nat> | Alternative(counts, X) ensures 270 * CostOf(counts, L)
      <= 270 * CostOf(counts, X) + |counts| * all {
      CheapestByRank(counts, w0, idx, a, X);
    }
  }

  lemma {:induction false} FromMinimal(w0: seq<nat>, a: seq<int>, num0: seq<int>, num: seq<int>, at: nat)
    requires From(w0, a, num0, num, at)
    ensures MinRedundancy.Minimal(w0, a)
  {
  }

  lemma {:induction false} MoreSymbols(n: nat, m: nat, all: nat)
    requires n <= m
    ensures n * all <= m * all
  {
  }

  /** With one symbol there is nothing to save. */
  lemma {:induction false} FewNearly(counts: seq<nat>, w0: seq<nat>, idx: seq<nat>, L: seq<nat>)
    requires Ranks(counts, w0, idx) && |L| == |counts| && |idx| <= 1 && forall k :: 0 <= k < |idx| ==> L[idx[k]] <= 1
    ensures NearlyMinimal(counts, L)
  {
    hide Total, CostOf, Weighted;
    CostByRank(counts, w0, idx, L);
    MoreSymbols(0, |counts|, Total(counts, |counts|));
    forall X: seq<nat> | Alternative(counts, X) ensures CostOf(counts, L) <= CostOf(counts, X) {
      CostByRank(counts, w0, idx, X);
      if |idx| == 1 { Cheaper(w0[0], X[idx[0]], L[idx[0]]); }
    }
  }
}
