/** Huffman code lengths computed in place: the two-queue algorithm of Moffat and Katajainen. */
module MinRedundancy {
  import opened Bits
  import HuffmanBound

  function SumFrom(s: seq<nat>, i: nat): (r: nat)
    decreases |s| - i
  {
    if i >= |s| then 0 else s[i] + SumFrom(s, i + 1)
  }

  lemma {:induction false} SumPush(s: seq<nat>, i: nat, w: nat)
    requires i <= |s|
    ensures SumFrom(s + [w], i) == SumFrom(s, i) + w
    decreases |s| - i
  {
    if i < |s| { SumPush(s, i + 1, w); }
  }

  ghost predicate Ascending(s: seq<nat>) {
    forall i, j :: 0 <= i <= j < |s| ==> s[i] <= s[j]
  }

  /** The tree under construction. Inner node `k` has weight `w[k]`, the sum of the two weights `lo[k] <= hi[k]` merged
      into it; inner node `i < |parent|` has been merged into inner node `parent[i]`. */
  datatype Forest = Forest(parent: seq<nat>, w: seq<nat>, lo: seq<nat>, hi: seq<nat>)

  ghost predicate Parents(parent: seq<nat>, next: nat) {
    && (forall i :: 0 <= i < |parent| ==> i < parent[i] < next)
    && (forall i :: 0 <= i && i + 1 < |parent| ==> parent[i] <= parent[i + 1])
    && (forall i :: 0 <= i && i + 2 < |parent| ==> parent[i] < parent[i + 2])
  }

  ghost predicate Weights(w: seq<nat>, lo: seq<nat>, hi: seq<nat>) {
    && |w| == |lo| == |hi|
    && (forall k :: 0 <= k < |w| ==> 0 < lo[k] <= hi[k] && w[k] == lo[k] + hi[k])
    && (forall k, l :: 0 <= k < l < |w| ==> hi[k] <= lo[l])
  }

  /** A merged node weighs no more than the heavier side of its parent. */
  ghost predicate Linked(parent: seq<nat>, w: seq<nat>, hi: seq<nat>) {
    && |parent| <= |w| == |hi|
    && forall i :: 0 <= i < |parent| && parent[i] < |w| ==> w[i] <= hi[parent[i]]
  }

  /** Inner node `next` is being made: at most the last merged inner node went into it, with weight `x`. */
  ghost predicate OnlyLast(parent: seq<nat>, w: seq<nat>, next: nat, x: nat) {
    |parent| <= |w| && forall i :: 0 <= i < |parent| && parent[i] == next ==> i == |parent| - 1 && w[i] == x
  }

  /** What is left to merge weighs at least `h`, and everything weighs what the leaves did. */
  ghost predicate Left(w0: seq<nat>, leaf: nat, w: seq<nat>, root: nat, h: nat, x: nat) {
    && (root < |w| ==> h <= w[root]) && (leaf < |w0| ==> h <= w0[leaf])
    && x + SumFrom(w, root) + SumFrom(w0, leaf) == SumFrom(w0, 0)
  }

  /** After `next` merges: `root` inner nodes and `leaf` leaves have been used up. */
  ghost predicate Built(w0: seq<nat>, leaf: nat, f: Forest) {
    var root, next := |f.parent|, |f.w|;
    && 1 <= next < |w0| && root < next && root + leaf == 2 * next && leaf <= |w0| && |f.hi| == next
    && Parents(f.parent, next) && Weights(f.w, f.lo, f.hi) && Linked(f.parent, f.w, f.hi)
    && Left(w0, leaf, f.w, root, f.hi[next - 1], 0)
  }

  /** Half way through a merge: one weight `x` has been picked for inner node `|f.w|`. */
  ghost predicate Half(w0: seq<nat>, leaf: nat, f: Forest, x: nat) {
    var root, next := |f.parent|, |f.w|;
    && 1 <= next < |w0| - 1 && root <= next && root + leaf == 2 * next + 1 && leaf <= |w0| && |f.hi| == next
    && Parents(f.parent, next + 1) && Weights(f.w, f.lo, f.hi) && Linked(f.parent, f.w, f.hi)
    && OnlyLast(f.parent, f.w, next, x) && 0 < x && f.hi[next - 1] <= x
    && Left(w0, leaf, f.w, root, x, x)
  }

  lemma {:induction false} LeftPickRoot(w0: seq<nat>, leaf: nat, w: seq<nat>, root: nat, h: nat)
    requires Ascending(w) && root < |w| && Left(w0, leaf, w, root, h, 0) && (leaf >= |w0| || w[root] < w0[leaf])
    ensures h <= w[root] && Left(w0, leaf, w, root + 1, w[root], w[root])
  {
  }

  lemma {:induction false} LeftPickLeaf(w0: seq<nat>, leaf: nat, w: seq<nat>, root: nat, h: nat)
    requires Ascending(w0) && leaf < |w0| && Left(w0, leaf, w, root, h, 0) && (root < |w| ==> w[root] >= w0[leaf])
    ensures h <= w0[leaf] && Left(w0, leaf + 1, w, root, w0[leaf], w0[leaf])
  {
  }

  lemma {:induction false} LeftMergeRoot(w0: seq<nat>, leaf: nat, w: seq<nat>, root: nat, x: nat)
    requires Ascending(w) && root < |w| && Left(w0, leaf, w, root, x, x) && (leaf >= |w0| || w[root] < w0[leaf])
    ensures x <= w[root] && x + w[root] <= SumFrom(w0, 0) && Left(w0, leaf, w + [x + w[root]], root + 1, w[root], 0)
  {
    SumPush(w, root + 1, x + w[root]);
  }

  lemma {:induction false} LeftMergeLeaf(w0: seq<nat>, leaf: nat, w: seq<nat>, root: nat, x: nat)
    requires Ascending(w0) && leaf < |w0| && root <= |w| && Left(w0, leaf, w, root, x, x)
      && (root < |w| ==> w[root] >= w0[leaf])
    ensures x <= w0[leaf] && x + w0[leaf] <= SumFrom(w0, 0)
    ensures Left(w0, leaf + 1, w + [x + w0[leaf]], root, w0[leaf], 0)
  {
    SumPush(w, root, x + w0[leaf]);
  }

  lemma {:induction false} WeightsAscend(w: seq<nat>, lo: seq<nat>, hi: seq<nat>)
    requires Weights(w, lo, hi)
    ensures Ascending(w) && forall k :: 0 <= k < |w| ==> 0 < hi[k] <= w[k]
  {
    forall i, j | 0 <= i <= j < |w| ensures w[i] <= w[j] {
      if i < j { assert hi[i] <= lo[j]; }
    }
  }

  lemma {:induction false} WeightsPush(w: seq<nat>, lo: seq<nat>, hi: seq<nat>, x: nat, y: nat)
    requires Weights(w, lo, hi) && |w| > 0 && |hi| == |w| && hi[|w| - 1] <= x <= y && 0 < x
    ensures Weights(w + [x + y], lo + [x], hi + [y])
  {
    forall k | 0 <= k < |w| ensures hi[k] <= x {
      if k < |w| - 1 { assert hi[k] <= lo[|w| - 1]; }
    }
  }

  /** Merging one more inner node into inner node `next`. */
  lemma {:induction false} ParentsPush(parent: seq<nat>, w: seq<nat>, next: nat, x: nat)
    requires Parents(parent, next + 1) && |parent| < next && OnlyLast(parent, w, next, x)
    ensures Parents(parent + [next], next + 1)
  {
  }

  lemma {:induction false} ParentsWiden(parent: seq<nat>, w: seq<nat>, next: nat, x: nat)
    requires Parents(parent, next) && |parent| <= |w|
    ensures Parents(parent, next + 1) && OnlyLast(parent, w, next, x)
    ensures |parent| < |w| ==> OnlyLast(parent + [next], w, next, w[|parent|])
  {
  }

  lemma {:induction false} LinkedPush(parent: seq<nat>, w: seq<nat>, hi: seq<nat>, x: nat, y: nat)
    requires Linked(parent, w, hi) && OnlyLast(parent, w, |w|, x) && x <= y
    ensures Linked(parent, w + [x + y], hi + [y])
    ensures |parent| < |w| && w[|parent|] <= y ==> Linked(parent + [|w|], w + [x + y], hi + [y])
  {
  }

  lemma {:induction false} LinkedOpen(parent: seq<nat>, w: seq<nat>, hi: seq<nat>)
    requires Linked(parent, w, hi) && |parent| < |w|
    ensures Linked(parent + [|w|], w, hi)
  {
  }

  /** Picking the lighter inner node first. */
  lemma {:induction false} PickRoot(w0: seq<nat>, leaf: nat, f: Forest)
    requires Built(w0, leaf, f) && |f.w| < |w0| - 1
    requires leaf >= |w0| || f.w[|f.parent|] < w0[leaf]
    ensures Half(w0, leaf, Taken(f), f.w[|f.parent|])
  {
    hide Parents, Weights, Linked, Left, OnlyLast;
    WeightsAscend(f.w, f.lo, f.hi);
    ParentsWiden(f.parent, f.w, |f.w|, 0);
    ParentsPush(f.parent, f.w, |f.w|, 0);
    LinkedOpen(f.parent, f.w, f.hi);
    LeftPickRoot(w0, leaf, f.w, |f.parent|, f.hi[|f.w| - 1]);
  }

  lemma {:induction false} PickLeaf(w0: seq<nat>, leaf: nat, f: Forest)
    requires Ascending(w0) && Built(w0, leaf, f) && |f.w| < |w0| - 1
    requires leaf < |w0| && f.w[|f.parent|] >= w0[leaf] > 0
    ensures Half(w0, leaf + 1, f, w0[leaf])
  {
    hide Parents, Weights, Linked, Left, OnlyLast, Ascending;
    ParentsWiden(f.parent, f.w, |f.w|, w0[leaf]);
    LeftPickLeaf(w0, leaf, f.w, |f.parent|, f.hi[|f.w| - 1]);
  }

  /** The next inner node goes into the one being made. */
  function Taken(f: Forest): (g: Forest) {
    f.(parent := f.parent + [|f.w|])
  }

  function Push(f: Forest, x: nat, y: nat): (g: Forest)
  {
    f.(w := f.w + [x + y], lo := f.lo + [x], hi := f.hi + [y])
  }

  lemma {:induction false} MergeRoot(w0: seq<nat>, leaf: nat, f: Forest, x: nat)
    requires Half(w0, leaf, f, x) && |f.parent| < |f.w|
    requires leaf >= |w0| || f.w[|f.parent|] < w0[leaf]
    ensures var y := f.w[|f.parent|];
      x + y <= SumFrom(w0, 0) && Built(w0, leaf, Push(Taken(f), x, y))
  {
    hide Parents, Weights, Linked, Left, OnlyLast, Ascending;
    var y := f.w[|f.parent|];
    WeightsAscend(f.w, f.lo, f.hi);
    ParentsPush(f.parent, f.w, |f.w|, x);
    LeftMergeRoot(w0, leaf, f.w, |f.parent|, x);
    WeightsPush(f.w, f.lo, f.hi, x, y);
    LinkedPush(f.parent, f.w, f.hi, x, y);
  }

  lemma {:induction false} MergeLeaf(w0: seq<nat>, leaf: nat, f: Forest, x: nat)
    requires Ascending(w0) && Half(w0, leaf, f, x) && leaf < |w0|
    requires |f.parent| < |f.w| ==> f.w[|f.parent|] >= w0[leaf]
    ensures x + w0[leaf] <= SumFrom(w0, 0) && Built(w0, leaf + 1, Push(f, x, w0[leaf]))
  {
    hide Parents, Weights, Linked, Left, OnlyLast, Ascending;
    LeftMergeLeaf(w0, leaf, f.w, |f.parent|, x);
    WeightsPush(f.w, f.lo, f.hi, x, w0[leaf]);
    LinkedPush(f.parent, f.w, f.hi, x, w0[leaf]);
  }

  // ---- What was merged, when ----

  function SumTo(s: seq<nat>, i: nat): (r: nat)
    requires i <= |s|
  {
    if i == 0 then 0 else SumTo(s, i - 1) + s[i - 1]
  }

  lemma {:induction false} SumToAppend(s: seq<nat>, x: nat, i: nat)
    requires i <= |s|
    ensures SumTo(s + [x], i) == SumTo(s, i)
  {
    if i > 0 { SumToAppend(s, x, i - 1); }
  }

  /** How many inner nodes went into inner nodes below `k`. */
  function Eaten(parent: seq<nat>, k: nat): (e: nat)
    ensures e <= |parent|
  {
    if parent == [] || parent[|parent| - 1] < k then |parent| else Eaten(parent[..|parent| - 1], k)
  }

  /** Inner nodes are merged in order. */
  lemma {:induction false} EatenIff(parent: seq<nat>, k: nat, i: nat)
    requires (forall a, b :: 0 <= a <= b < |parent| ==> parent[a] <= parent[b]) && i < |parent|
    ensures parent[i] < k <==> i < Eaten(parent, k)
  {
    if parent[|parent| - 1] >= k && i < |parent| - 1 { EatenIff(parent[..|parent| - 1], k, i); }
  }

  lemma {:induction false} EatenAppend(parent: seq<nat>, next: nat, k: nat)
    requires k <= next
    ensures Eaten(parent + [next], k) == Eaten(parent, k)
  {
    assert (parent + [next])[..|parent|] == parent;
  }

  /** The first leaf that goes into inner node `k`: each takes two nodes. */
  function LeafLo(parent: seq<nat>, k: nat): (i: int) {
    2 * k - Eaten(parent, k)
  }

  /** Inner node `k` weighs what the leaves and inner nodes merged into it do. */
  ghost predicate Adds(w0: seq<nat>, parent: seq<nat>, w: seq<nat>, k: nat) {
    && Eaten(parent, k) <= Eaten(parent, k + 1) <= |w| && 0 <= LeafLo(parent, k) <= LeafLo(parent, k + 1) <= |w0|
      && k < |w|
    && w[k] == SumTo(w0, LeafLo(parent, k + 1)) - SumTo(w0, LeafLo(parent, k)) + SumTo(w,
      Eaten(parent, k + 1)) - SumTo(w, Eaten(parent, k))
  }

  ghost predicate Fed(w0: seq<nat>, parent: seq<nat>, w: seq<nat>, n: nat) {
    forall k: nat :: k < n ==> Adds(w0, parent, w, k)
  }

  /** Of inner node `|w|`, the part with weight `x` has been merged: leaves up to `leaf` and all of `parent`. */
  ghost predicate Partly(w0: seq<nat>, leaf: nat, parent: seq<nat>, w: seq<nat>, x: nat) {
    var e := Eaten(parent, |w|);
    && |parent| <= |w| && leaf <= |w0| && 0 <= 2 * |w| - e <= leaf && e + (2 * |w| - e) == 2 * |w|
    && x == SumTo(w0, leaf) - SumTo(w0, 2 * |w| - e) + SumTo(w, |parent|) - SumTo(w, e)
  }

  lemma {:induction false} AddsParent(w0: seq<nat>, parent: seq<nat>, w: seq<nat>, k: nat)
    requires Adds(w0, parent, w, k) && k < |w|
    ensures Adds(w0, parent + [|w|], w, k)
  {
    EatenAppend(parent, |w|, k);
    EatenAppend(parent, |w|, k + 1);
  }

  lemma {:induction false} FedParent(w0: seq<nat>, parent: seq<nat>, w: seq<nat>)
    requires Fed(w0, parent, w, |w|)
    ensures Fed(w0, parent + [|w|], w, |w|)
  {
    hide Adds;
    forall k: nat | k < |w| ensures Adds(w0, parent + [|w|], w, k) { AddsParent(w0, parent, w, k); }
  }

  lemma {:induction false} AddsWeight(w0: seq<nat>, parent: seq<nat>, w: seq<nat>, x: nat, k: nat)
    requires Adds(w0, parent, w, k)
    ensures Adds(w0, parent, w + [x], k)
  {
    SumToAppend(w, x, Eaten(parent, k));
    SumToAppend(w, x, Eaten(parent, k + 1));
  }

  lemma {:induction false} PartlyRoot(w0: seq<nat>, leaf: nat, parent: seq<nat>, w: seq<nat>, x: nat)
    requires Partly(w0, leaf, parent, w, x) && |parent| < |w|
    ensures Partly(w0, leaf, parent + [|w|], w, x + w[|parent|])
  {
    EatenAppend(parent, |w|, |w|);
  }

  lemma {:induction false} PartlyLeaf(w0: seq<nat>, leaf: nat, parent: seq<nat>, w: seq<nat>, x: nat)
    requires Partly(w0, leaf, parent, w, x) && leaf < |w0|
    ensures Partly(w0, leaf + 1, parent, w, x + w0[leaf])
  {
  }

  lemma {:induction false} AllEaten(parent: seq<nat>, k: nat)
    requires forall i :: 0 <= i < |parent| ==> parent[i] < k
    ensures Eaten(parent, k) == |parent|
  {
  }

  lemma {:induction false} PartlyNone(w0: seq<nat>, leaf: nat, parent: seq<nat>, w: seq<nat>)
    requires (forall i :: 0 <= i < |parent| ==> parent[i] < |w|) && |parent| + leaf == 2 * |w| && leaf <= |w0|
      && |parent| <= |w|
    ensures Partly(w0, leaf, parent, w, 0)
  {
    AllEaten(parent, |w|);
  }

  /** A finished merge. */
  lemma {:induction false} FedMore(w0: seq<nat>, leaf: nat, parent: seq<nat>, w: seq<nat>, x: nat)
    requires Fed(w0, parent, w, |w|) && Partly(w0, leaf, parent, w, x) && |parent| + leaf == 2 * |w| + 2
    requires forall i :: 0 <= i < |parent| ==> parent[i] <= |w|
    ensures Fed(w0, parent, w + [x], |w| + 1)
  {
    hide Adds;
    forall k: nat | k < |w| + 1 ensures Adds(w0, parent, w + [x], k) {
      if k < |w| { AddsWeight(w0, parent, w, x, k); } else { AddsLast(w0, leaf, parent, w, x); }
    }
  }

  lemma {:induction false} AddsLast(w0: seq<nat>, leaf: nat, parent: seq<nat>, w: seq<nat>, x: nat)
    requires Partly(w0, leaf, parent, w, x) && |parent| + leaf == 2 * |w| + 2
    requires forall i :: 0 <= i < |parent| ==> parent[i] <= |w|
    ensures Adds(w0, parent, w + [x], |w|)
  {
    AllEaten(parent, |w| + 1);
    SumToAppend(w, x, Eaten(parent, |w|));
    SumToAppend(w, x, |parent|);
  }

  // ---- Every merge takes the two lightest ----

  /** The weights not yet merged are those in the two queues, and `x`. */
  ghost predicate Pooled(w0: seq<nat>, leaf: nat, f: Forest, x: multiset<nat>) {
    && |f.lo| == |f.hi| && |f.parent| <= |f.w| && leaf <= |w0| && HuffmanBound.Greedy(multiset(w0), f.lo, f.hi)
    && HuffmanBound.Pool(multiset(w0), f.lo, f.hi, |f.lo|) == x + multiset(f.w[|f.parent|..]) + multiset(w0[leaf..])
  }

  lemma {:induction false} PooledRoot(w0: seq<nat>, leaf: nat, f: Forest, x: multiset<nat>)
    requires Pooled(w0, leaf, f, x) && |f.parent| < |f.w|
    ensures Pooled(w0, leaf, Taken(f), x + multiset{f.w[|f.parent|]})
  {
    hide HuffmanBound.Greedy, HuffmanBound.Pool;
    var r := |f.parent|;
    assert f.w[r..] == [f.w[r]] + f.w[r + 1..];
  }

  lemma {:induction false} PooledLeaf(w0: seq<nat>, leaf: nat, f: Forest, x: multiset<nat>)
    requires Pooled(w0, leaf, f, x) && leaf < |w0|
    ensures Pooled(w0, leaf + 1, f, x + multiset{w0[leaf]})
  {
    hide HuffmanBound.Greedy, HuffmanBound.Pool;
    assert w0[leaf..] == [w0[leaf]] + w0[leaf + 1..];
  }

  lemma {:induction false} PoolPrefix(m: multiset<nat>, lo: seq<nat>, hi: seq<nat>, x: nat, y: nat, k: nat)
    requires k <= |lo| == |hi|
    ensures HuffmanBound.Pool(m, lo + [x], hi + [y], k) == HuffmanBound.Pool(m, lo, hi, k)
  {
    hide HuffmanBound.MergeIn;
    if k > 0 { PoolPrefix(m, lo, hi, x, y, k - 1); }
  }

  lemma {:induction false} GreedyMore(m: multiset<nat>, lo: seq<nat>, hi: seq<nat>, x: nat, y: nat)
    requires HuffmanBound.Greedy(m, lo, hi) && |lo| == |hi|
      && HuffmanBound.Lightest(HuffmanBound.Pool(m, lo, hi, |lo|), x, y)
    ensures HuffmanBound.Greedy(m, lo + [x], hi + [y])
  {
    hide HuffmanBound.Pool, HuffmanBound.Lightest;
    forall k: nat | k < |lo| + 1 ensures HuffmanBound.Lightest(HuffmanBound.Pool(m, lo + [x], hi + [y], k),
      (lo + [x])[k], (hi + [y])[k]) {
      PoolPrefix(m, lo, hi, x, y, k);
    }
  }

  lemma {:induction false} PoolMore(m: multiset<nat>, lo: seq<nat>, hi: seq<nat>, x: nat, y: nat)
    requires |lo| == |hi|
    ensures HuffmanBound.Pool(m, lo + [x], hi + [y], |lo| + 1)
      == HuffmanBound.MergeIn(HuffmanBound.Pool(m, lo, hi, |lo|), x, y)
  {
    hide HuffmanBound.MergeIn;
    PoolPrefix(m, lo, hi, x, y, |lo|);
  }

  lemma {:induction false} TailHeavy(s: seq<nat>, i: nat, y: nat, z: nat)
    requires Ascending(s) && i <= |s| && (i < |s| ==> y <= s[i]) && z in multiset(s[i..])
    ensures y <= z
  {
    assert z in s[i..];
    var j :| 0 <= j < |s[i..]| && s[i..][j] == z;
    assert s[i] <= s[i + j];
  }

  lemma {:induction false} Others(x: nat, y: nat, a: multiset<nat>, b: multiset<nat>)
    ensures multiset{x, y} <= multiset{x} + multiset{y} + a + b
    ensures multiset{x} + multiset{y} + a + b - multiset{x, y} == a + b
  {
    assert multiset{x, y} == multiset{x} + multiset{y};
  }

  /** What the queues still hold is no lighter than the last weight taken. */
  lemma {:induction false} LastIsLightest(w0: seq<nat>, leaf: nat, w: seq<nat>, root: nat, x: nat, y: nat)
    requires Ascending(w0) && Ascending(w) && x <= y && root <= |w| && leaf <= |w0|
    requires (root < |w| ==> y <= w[root]) && (leaf < |w0| ==> y <= w0[leaf])
    ensures HuffmanBound.Lightest(multiset{x} + multiset{y} + multiset(w[root..]) + multiset(w0[leaf..]), x, y)
  {
    hide Ascending, HuffmanBound.Lightest;
    var a, b := multiset(w[root..]), multiset(w0[leaf..]);
    forall z | z in a ensures y <= z { TailHeavy(w, root, y, z); }
    forall z | z in b ensures y <= z { TailHeavy(w0, leaf, y, z); }
    HuffmanBound.IsLightest(x, y, a, b);
  }

  /** A finished merge: `g` is `f` with the two picked weights pushed. */
  lemma {:induction false} PooledMore(w0: seq<nat>, leaf: nat, f: Forest, x: nat, y: nat)
    requires Pooled(w0, leaf, f, multiset{x} + multiset{y}) && Ascending(w0) && Ascending(f.w) && x <= y
    requires (|f.parent| < |f.w| ==> y <= f.w[|f.parent|]) && (leaf < |w0| ==> y <= w0[leaf])
    ensures Pooled(w0, leaf, Push(f, x, y), multiset{})
  {
    hide HuffmanBound.Greedy, HuffmanBound.Pool, HuffmanBound.Lightest, HuffmanBound.MergeIn, Ascending;
    LastIsLightest(w0, leaf, f.w, |f.parent|, x, y);
    GreedyMore(multiset(w0), f.lo, f.hi, x, y);
    PoolMore(multiset(w0), f.lo, f.hi, x, y);
    PoolStep(f.w, |f.parent|, x, y, multiset(w0[leaf..]));
  }

  lemma {:induction false} PoolStep(w: seq<nat>, root: nat, x: nat, y: nat, rest: multiset<nat>)
    requires root <= |w|
    ensures HuffmanBound.MergeIn(multiset{x} + multiset{y} + multiset(w[root..]) + rest, x, y)
      == multiset{} + multiset((w + [x + y])[root..]) + rest
  {
    Others(x, y, multiset(w[root..]), rest);
    assert (w + [x + y])[root..] == w[root..] + [x + y];
  }

  // ---- No leaf is heavier than the heavier side of its merge ----

  /** The last leaf used weighs at most `h`. */
  ghost predicate Topped(w0: seq<nat>, leaf: int, h: nat) {
    0 < leaf <= |w0| && w0[leaf - 1] <= h
  }

  ghost predicate Capped(w0: seq<nat>, parent: seq<nat>, hi: seq<nat>) {
    forall k: nat :: k < |hi| ==> Topped(w0, LeafLo(parent, k + 1), hi[k])
  }

  lemma {:induction false} CappedParent(w0: seq<nat>, parent: seq<nat>, hi: seq<nat>)
    requires Capped(w0, parent, hi)
    ensures Capped(w0, parent + [|hi|], hi)
  {
    hide Topped, Eaten;
    forall k: nat | k < |hi| ensures Topped(w0, LeafLo(parent + [|hi|], k + 1), hi[k]) {
      EatenAppend(parent, |hi|, k + 1);
    }
  }

  lemma {:induction false} CappedMore(w0: seq<nat>, leaf: nat, parent: seq<nat>, hi: seq<nat>, y: nat)
    requires Capped(w0, parent, hi) && Topped(w0, leaf, y) && |parent| + leaf == 2 * |hi| + 2
    requires forall i :: 0 <= i < |parent| ==> parent[i] <= |hi|
    ensures Capped(w0, parent, hi + [y])
  {
    hide Topped, Eaten;
    AllEaten(parent, |hi| + 1);
  }

  lemma {:induction false} BuiltTopped(w0: seq<nat>, leaf: nat, f: Forest)
    requires Built(w0, leaf, f) && Capped(w0, f.parent, f.hi)
    ensures |f.w| == |f.hi| && Topped(w0, leaf, f.hi[|f.w| - 1])
    ensures |f.parent| < |f.w| ==> Topped(w0, leaf, f.w[|f.parent|])
  {
    hide Eaten, Linked, Weights;
    AllEaten(f.parent, |f.w|);
    assert Topped(w0, LeafLo(f.parent, |f.w| - 1 + 1), f.hi[|f.w| - 1]);
  }

  // ---- All accounts together ----

  /** Between two merges. */
  ghost predicate Audited(w0: seq<nat>, leaf: nat, f: Forest) {
    Pooled(w0, leaf, f, multiset{}) && Fed(w0, f.parent, f.w, |f.w|) && Capped(w0, f.parent, f.hi)
  }

  /** After the first pick, of weight `x`. */
  ghost predicate HalfAudited(w0: seq<nat>, leaf: nat, f: Forest, x: nat) {
    && Pooled(w0, leaf, f, multiset{x}) && Fed(w0, f.parent, f.w, |f.w|) && Partly(w0, leaf, f.parent, f.w, x)
    && Capped(w0, f.parent, f.hi) && Topped(w0, leaf, x)
  }

  lemma {:induction false} NoneSum(x: nat)
    ensures multiset{} + multiset{x} == multiset{x}
  {
  }

  lemma {:induction false} BuiltPartly(w0: seq<nat>, leaf: nat, f: Forest)
    requires Built(w0, leaf, f)
    ensures Partly(w0, leaf, f.parent, f.w, 0) && |f.parent| < |f.w|
  {
    hide Partly, Weights, Linked, Left;
    PartlyNone(w0, leaf, f.parent, f.w);
  }

  lemma {:induction false} AuditRoot(w0: seq<nat>, leaf: nat, f: Forest, x: nat)
    requires |f.parent| < |f.w| && x == f.w[|f.parent|]
    requires Built(w0, leaf, f) && Audited(w0, leaf, f)
    ensures HalfAudited(w0, leaf, Taken(f), x)
  {
    hide Built, Pooled, Fed, Partly, Capped, Topped;
    BuiltPartly(w0, leaf, f);
    BuiltTopped(w0, leaf, f);
    CappedParent(w0, f.parent, f.hi);
    PooledRoot(w0, leaf, f, multiset{});
    NoneSum(f.w[|f.parent|]);
    FedParent(w0, f.parent, f.w);
    PartlyRoot(w0, leaf, f.parent, f.w, 0);
  }

  lemma {:induction false} AuditLeaf(w0: seq<nat>, leaf: nat, f: Forest)
    requires Built(w0, leaf, f) && Audited(w0, leaf, f) && leaf < |w0|
    ensures HalfAudited(w0, leaf + 1, f, w0[leaf])
  {
    hide Built, Pooled, Fed, Partly, Capped;
    BuiltPartly(w0, leaf, f);
    PooledLeaf(w0, leaf, f, multiset{});
    NoneSum(w0[leaf]);
    PartlyLeaf(w0, leaf, f.parent, f.w, 0);
  }

  /** What the finished merge tells about the queues. */
  lemma {:induction false} Behind(w0: seq<nat>, leaf: nat, f: Forest, x: nat, y: nat)
    requires Built(w0, leaf, Push(f, x, y)) && |f.w| == |f.lo| == |f.hi|
    ensures Ascending(f.w) && x <= y && |f.parent| + leaf == 2 * |f.w| + 2 && forall i :: 0 <= i < |f.parent| ==>
      f.parent[i] <= |f.w|
    ensures (|f.parent| < |f.w| ==> y <= f.w[|f.parent|]) && (leaf < |w0| ==> y <= w0[leaf])
  {
    hide Linked, SumFrom;
    var g := Push(f, x, y);
    WeightsAscend(g.w, g.lo, g.hi);
    assert forall i :: 0 <= i < |f.w| ==> f.w[i] == g.w[i];
    assert g.hi[|f.w|] == y && g.lo[|f.w|] == x;
  }

  lemma {:induction false} AuditMerge(w0: seq<nat>, leaf: nat, f: Forest, x: nat, y: nat)
    requires Ascending(w0) && Built(w0, leaf, Push(f, x, y)) && |f.w| == |f.lo| == |f.hi|
    requires Pooled(w0, leaf, f, multiset{x} + multiset{y}) && Fed(w0, f.parent, f.w, |f.w|)
      && Partly(w0, leaf, f.parent, f.w, x + y)
    requires Capped(w0, f.parent, f.hi) && Topped(w0, leaf, y)
    ensures Audited(w0, leaf, Push(f, x, y))
  {
    hide Built, Pooled, Fed, Partly, Ascending, Capped, Topped;
    Behind(w0, leaf, f, x, y);
    CappedMore(w0, leaf, f.parent, f.hi, y);
    PooledMore(w0, leaf, f, x, y);
    FedMore(w0, leaf, f.parent, f.w, x + y);
  }

  lemma {:induction false} HalfSizes(w0: seq<nat>, leaf: nat, f: Forest, x: nat)
    requires Half(w0, leaf, f, x)
    ensures |f.w| == |f.lo| == |f.hi|
  {
  }

  lemma {:induction false} PushedOrder(w0: seq<nat>, leaf: nat, f: Forest, x: nat, y: nat)
    requires Built(w0, leaf, Push(f, x, y)) && |f.w| == |f.lo| == |f.hi|
    ensures x <= y
  {
    hide Built, Ascending;
    Behind(w0, leaf, f, x, y);
  }

  lemma {:induction false} AuditMergeRoot(w0: seq<nat>, leaf: nat, f: Forest, x: nat, y: nat)
    requires |f.parent| < |f.w| && y == f.w[|f.parent|] && Built(w0, leaf, Push(Taken(f), x, y))
    requires Ascending(w0) && Half(w0, leaf, f, x) && HalfAudited(w0, leaf, f, x)
    ensures Audited(w0, leaf, Push(Taken(f), x, y))
  {
    hide Built, Half, Pooled, Fed, Partly, Ascending, Capped;
    HalfSizes(w0, leaf, f, x);
    CappedParent(w0, f.parent, f.hi);
    PushedOrder(w0, leaf, Taken(f), x, y);
    PooledRoot(w0, leaf, f, multiset{x});
    FedParent(w0, f.parent, f.w);
    PartlyRoot(w0, leaf, f.parent, f.w, x);
    AuditMerge(w0, leaf, Taken(f), x, y);
  }

  lemma {:induction false} AuditMergeLeaf(w0: seq<nat>, leaf: nat, f: Forest, x: nat)
    requires leaf < |w0| && Built(w0, leaf + 1, Push(f, x, w0[leaf]))
    requires Ascending(w0) && Half(w0, leaf, f, x) && HalfAudited(w0, leaf, f, x)
    ensures Audited(w0, leaf + 1, Push(f, x, w0[leaf]))
  {
    hide Built, Half, Pooled, Fed, Partly, Ascending, Capped;
    HalfSizes(w0, leaf, f, x);
    PooledLeaf(w0, leaf, f, multiset{x});
    PartlyLeaf(w0, leaf, f.parent, f.w, x);
    AuditMerge(w0, leaf + 1, f, x, w0[leaf]);
  }

  lemma {:induction false} FirstTwo(w0: seq<nat>)
    requires |w0| >= 2
    ensures multiset(w0) == multiset{w0[0]} + multiset{w0[1]} + multiset([]) + multiset(w0[2..])
  {
    assert w0 == [w0[0]] + ([w0[1]] + w0[2..]);
  }

  lemma {:induction false} GreedyFirst(m: multiset<nat>, x: nat, y: nat)
    requires HuffmanBound.Lightest(m, x, y)
    ensures HuffmanBound.Greedy(m, [x], [y]) && HuffmanBound.Pool(m, [x], [y], 1) == HuffmanBound.MergeIn(m, x, y)
  {
    hide HuffmanBound.Lightest, HuffmanBound.MergeIn;
    assert HuffmanBound.Pool(m, [x], [y], 0) == m;
  }

  lemma {:induction false} FedFirst(w0: seq<nat>)
    requires |w0| >= 2
    ensures Fed(w0, [], [w0[0] + w0[1]], 1)
  {
    assert SumTo(w0, 2) == SumTo(w0, 1) + w0[1] && SumTo(w0, 1) == SumTo(w0, 0) + w0[0];
    assert Eaten([], 0) == 0 && Eaten([], 1) == 0;
    assert Adds(w0, [], [w0[0] + w0[1]], 0);
  }

  lemma {:induction false} LightFirst(w0: seq<nat>)
    requires |w0| >= 2 && Ascending(w0)
    ensures HuffmanBound.Lightest(multiset(w0), w0[0], w0[1])
  {
    hide HuffmanBound.Lightest;
    var none: seq<nat> := [];
    assert none[0..] == none;
    FirstTwo(w0);
    LastIsLightest(w0, 2, none, 0, w0[0], w0[1]);
  }

  lemma {:induction false} PoolFirst(w0: seq<nat>)
    requires |w0| >= 2
    ensures var x, y := w0[0], w0[1];
      HuffmanBound.MergeIn(multiset(w0), x, y) == multiset{} + multiset([x + y][0..]) + multiset(w0[2..])
  {
    var none: seq<nat> := [];
    assert none[0..] == none && none + [w0[0] + w0[1]] == [w0[0] + w0[1]];
    hide HuffmanBound.MergeIn;
    FirstTwo(w0);
    PoolStep(none, 0, w0[0], w0[1], multiset(w0[2..]));
  }

  lemma {:induction false} CappedFirst(w0: seq<nat>)
    requires |w0| >= 2
    ensures Capped(w0, [], [w0[1]])
  {
    AllEaten([], 1);
  }

  lemma {:induction false} AuditFirst(w0: seq<nat>)
    requires |w0| >= 2 && Ascending(w0)
    ensures Audited(w0, 2, Forest([], [w0[0] + w0[1]], [w0[0]], [w0[1]]))
  {
    hide Fed, HuffmanBound.Greedy, HuffmanBound.Pool, HuffmanBound.Lightest, HuffmanBound.MergeIn, Ascending, Capped;
    LightFirst(w0);
    CappedFirst(w0);
    GreedyFirst(multiset(w0), w0[0], w0[1]);
    PoolFirst(w0);
    FedFirst(w0);
  }

  // ---- First pass: merging in place ----

  /**
   * The array holds parents, then the weights of unmerged inner nodes, then (from `leaf`) the weights of unused leaves.
   */
  ghost predicate Stored(a: seq<int>, w0: seq<nat>, leaf: nat, f: Forest) {
    && |a| == |w0| && |f.parent| <= |f.w| <= |a| && leaf <= |w0|
    && (forall i :: 0 <= i < |f.parent| ==> a[i] == f.parent[i])
    && (forall i :: |f.parent| <= i < |f.w| ==> a[i] == f.w[i])
    && (forall i :: leaf <= i < |w0| ==> a[i] == w0[i])
  }

  ghost predicate Input(w0: seq<nat>) {
    Ascending(w0) && SumFrom(w0, 0) < 65536 && forall i :: 0 <= i < |w0| ==> w0[i] > 0
  }

  lemma {:induction false} InputAscends(w0: seq<nat>)
    requires Input(w0)
    ensures Ascending(w0)
  {
  }

  /** The first of the two picks that make inner node `next`. */
  method PickFirst(a: array<int>, n: nat, next: nat, root: nat, leaf: nat, ghost w0: seq<nat>, ghost f: Forest)
    returns (root': nat, leaf': nat, ghost g: Forest)
    requires a.Length == n == |w0| && Input(w0) && Built(w0, leaf, f) && Audited(w0, leaf, f)
      && Stored(a[..], w0, leaf, f)
    requires root == |f.parent| && next == |f.w| < n - 1
    modifies a
    ensures root' == |g.parent| && g.w == f.w && next < n && Stored(a[..], w0, leaf', g) && a[next] >= 0
      && Half(w0, leaf', g, a[next])
    ensures HalfAudited(w0, leaf', g, a[next])
  {
    hide Parents, Weights, Linked, Left, OnlyLast, Ascending, Half, SumFrom, Audited, HalfAudited;
    if leaf >= n || a[root] < a[leaf] {
      PickRoot(w0, leaf, f);
      AuditRoot(w0, leaf, f, f.w[root]);
      a[next] := a[root];
      a[root] := next;
      root', leaf', g := root + 1, leaf, Taken(f);
    } else {
      PickLeaf(w0, leaf, f);
      AuditLeaf(w0, leaf, f);
      a[next] := a[leaf];
      root', leaf', g := root, leaf + 1, f;
    }
  }

  lemma {:induction false} HalfFacts(w0: seq<nat>, leaf: nat, f: Forest, x: nat)
    requires Half(w0, leaf, f, x)
    ensures |f.parent| <= |f.w| < |w0| - 1 && leaf <= |w0| && |f.parent| + leaf == 2 * |f.w| + 1
  {
  }

  lemma {:induction false} StoredRoot(a: seq<int>, w0: seq<nat>, leaf: nat, f: Forest, x: nat, y: nat)
    requires Stored(a, w0, leaf, f) && |f.parent| < |f.w| < leaf <= |a| && y == f.w[|f.parent|]
    ensures Stored(a[|f.w| := x + y][|f.parent| := |f.w|], w0, leaf, Push(Taken(f), x, y)) && a[|f.parent|] == y
  {
  }

  lemma {:induction false} StoredLeaf(a: seq<int>, w0: seq<nat>, leaf: nat, f: Forest, x: nat)
    requires Stored(a, w0, leaf, f) && |f.parent| <= |f.w| <= leaf < |a|
    ensures Stored(a[|f.w| := x + w0[leaf]], w0, leaf + 1, Push(f, x, w0[leaf])) && a[leaf] == w0[leaf]
  {
  }

  /** The second pick: the weights add up to less than 65536, so the 16-bit cast loses nothing. */
  method PickSecond(a: array<int>, n: nat, next: nat, root: nat, leaf: nat, ghost w0: seq<nat>, ghost f: Forest)
    returns (root': nat, leaf': nat, ghost g: Forest)
    requires a.Length == n == |w0| && Input(w0) && next < n && a[next] >= 0 && Half(w0, leaf, f, a[next])
      && Stored(a[..], w0, leaf, f)
    requires HalfAudited(w0, leaf, f, a[next]) && root == |f.parent| && next == |f.w|
    modifies a
    ensures root' == |g.parent| && |g.w| == next + 1 && Built(w0, leaf', g) && Stored(a[..], w0, leaf', g)
      && Audited(w0, leaf', g)
  {
    hide Parents, Weights, Linked, Left, OnlyLast, Ascending, Built, SumFrom, Audited, HalfAudited, Half, Stored, Input;
    InputAscends(w0);
    TotalBound(w0);
    ghost var x, was := a[next], a[..];
    HalfFacts(w0, leaf, f, x);
    if root < next { StoredRoot(was, w0, leaf, f, x, f.w[root]); }
    if leaf < n { StoredLeaf(was, w0, leaf, f, x); }
    if leaf >= n || (root < next && a[root] < a[leaf]) {
      MergeRoot(w0, leaf, f, x);
      AuditMergeRoot(w0, leaf, f, x, f.w[root]);
      a[next] := (a[next] + a[root]) % 65536;
      g := Push(Taken(f), x, f.w[root]);
      a[root] := next;
      assert a[..] == was[next := x + f.w[root]][root := next];
      root', leaf' := root + 1, leaf;
    } else {
      MergeLeaf(w0, leaf, f, x);
      AuditMergeLeaf(w0, leaf, f, x);
      a[next] := (a[next] + a[leaf]) % 65536;
      assert a[..] == was[next := x + w0[leaf]];
      g := Push(f, x, w0[leaf]);
      root', leaf' := root, leaf + 1;
    }
  }

  /** The finished tree: `n - 1` inner nodes, the last one the root; every other one has its parent recorded. */
  ghost predicate Tree(n: nat, total: nat, f: Forest) {
    && |f.w| == |f.lo| == |f.hi| == n - 1 && |f.parent| == n - 2
    && Parents(f.parent, n - 1) && Weights(f.w, f.lo, f.hi) && Linked(f.parent, f.w, f.hi)
    && f.w[n - 2] == total
  }

  lemma {:induction false} TreeDone(w0: seq<nat>, leaf: nat, f: Forest)
    requires Built(w0, leaf, f) && |f.w| == |w0| - 1
    ensures Tree(|w0|, SumFrom(w0, 0), f) && leaf == |w0|
  {
    hide Parents, Linked;
    assert SumFrom(f.w, |w0| - 2) == f.w[|w0| - 2];
  }

  lemma {:induction false} FirstMerge(w0: seq<nat>)
    requires Input(w0) && |w0| >= 2
    ensures w0[0] + w0[1] < 65536
    ensures Built(w0, 2, Forest([], [w0[0] + w0[1]], [w0[0]], [w0[1]]))
  {
    assert SumFrom(w0, 0) == w0[0] + SumFrom(w0, 1);
    assert SumFrom(w0, 1) == w0[1] + SumFrom(w0, 2);
  }

  lemma {:induction false} StoredFirst(w0: seq<nat>, a: seq<int>)
    requires |w0| >= 2 && a == w0[0 := w0[0] + w0[1]]
    ensures Stored(a, w0, 2, Forest([], [w0[0] + w0[1]], [w0[0]], [w0[1]]))
  {
  }

  lemma {:induction false} StoredParents(a: seq<int>, w0: seq<nat>, leaf: nat, f: Forest)
    requires Stored(a, w0, leaf, f)
    ensures |f.parent| <= |a| && forall i :: 0 <= i < |f.parent| ==> a[i] == f.parent[i]
  {
  }

  /**
   * Merges in place: the array ends with the parents of the inner nodes, and every merge took the two lightest weights.
   */
  method BuildParents(a: array<int>, n: nat, ghost w0: seq<nat>) returns (ghost f: Forest)
    requires a.Length == n == |w0| >= 2 && a[..] == w0 && Input(w0)
    modifies a
    ensures Tree(n, SumFrom(w0, 0), f) && Audited(w0, n, f)
    ensures |f.parent| == n - 2 && forall i :: 0 <= i < n - 2 ==> a[i] == f.parent[i]
  {
    hide Built, Half, SumFrom, Input, Tree, Audited, HalfAudited, Stored, Ascending;
    InputAscends(w0);
    FirstMerge(w0);
    AuditFirst(w0);
    f := Forest([], [w0[0] + w0[1]], [w0[0]], [w0[1]]);
    assert a[0] == w0[0] && a[1] == w0[1];
    a[0] := (a[0] + a[1]) % 65536;
    assert a[..] == w0[0 := w0[0] + w0[1]];
    StoredFirst(w0, a[..]);
    var root, leaf: nat := 0, 2;
    var next: nat := 1;
    while next < n - 1
      invariant 1 <= next <= n - 1 && root == |f.parent| && next == |f.w|
      invariant Built(w0, leaf, f) && Stored(a[..], w0, leaf, f) && Audited(w0, leaf, f)
    {
      root, leaf, f := PickFirst(a, n, next, root, leaf, w0, f);
      root, leaf, f := PickSecond(a, n, next, root, leaf, w0, f);
      next := next + 1;
    }
    TreeDone(w0, leaf, f);
    TreeParents(n, SumFrom(w0, 0), f);
    StoredParents(a[..], w0, leaf, f);
  }

  lemma {:induction false} TreeParents(n: nat, total: nat, f: Forest)
    requires Tree(n, total, f)
    ensures |f.parent| == n - 2
  {
  }

  // ---- Second pass: from parents to depths ----

  function Depth(parent: seq<nat>, i: nat): (d: nat)
    requires Parents(parent, |parent| + 1) && i <= |parent|
    decreases |parent| - i
  {
    if i == |parent| then 0 else 1 + Depth(parent, parent[i])
  }

  method ParentsToDepths(a: array<int>, n: nat, ghost parent: seq<nat>)
    requires a.Length == n == |parent| + 2 && Parents(parent, |parent| + 1)
    requires forall i :: 0 <= i < n - 2 ==> a[i] == parent[i]
    modifies a
    ensures forall i :: 0 <= i <= n - 2 ==> a[i] == Depth(parent, i)
  {
    a[n - 2] := 0;
    var next := n - 3;
    while next >= 0
      invariant -1 <= next <= n - 3
      invariant forall i :: 0 <= i <= next ==> a[i] == parent[i]
      invariant forall i :: next < i <= n - 2 ==> a[i] == Depth(parent, i)
    {
      a[next] := a[a[next]] + 1;
      next := next - 1;
    }
  }

  lemma {:induction false} ParentsMono(parent: seq<nat>, i: nat, j: nat)
    requires Parents(parent, |parent| + 1) && i <= j < |parent|
    ensures parent[i] <= parent[j]
    decreases j - i
  {
    if i < j { ParentsMono(parent, i, j - 1); }
  }

  /** Later inner nodes are no deeper. */
  lemma {:induction false} DepthMono(parent: seq<nat>, i: nat, j: nat)
    requires Parents(parent, |parent| + 1) && i <= j <= |parent|
    ensures Depth(parent, i) >= Depth(parent, j)
    decreases |parent| - i
  {
    if j < |parent| {
      ParentsMono(parent, i, j);
      DepthMono(parent, parent[i], parent[j]);
    }
  }

  /** Weight at least doubles every two levels up. */
  lemma {:induction false} GrandparentDoubles(n: nat, total: nat, f: Forest, i: nat)
    requires Tree(n, total, f) && i < n - 2 && f.parent[i] < n - 2
    ensures f.w[f.parent[f.parent[i]]] >= 2 * f.w[i]
  {
    var p := f.parent[i];
    var g := f.parent[p];
    assert f.w[i] <= f.hi[p] && f.hi[p] <= f.lo[g] && f.lo[g] <= f.hi[g];
  }

  lemma {:induction false} Below(parent: seq<nat>, i: int)
    requires Parents(parent, |parent| + 1)
    ensures 0 <= i < |parent| ==> Depth(parent, i) == 1 + Depth(parent, parent[i])
  {
  }

  lemma {:induction false} TwoUp(parent: seq<nat>, i: nat)
    requires Parents(parent, |parent| + 1) && i <= |parent| && Depth(parent, i) >= 2
    ensures i < parent[i] < |parent| && parent[i] < parent[parent[i]] <= |parent|
    ensures Depth(parent, i) / 2 == Depth(parent, parent[parent[i]]) / 2 + 1
  {
    Below(parent, i);
    Below(parent, parent[i]);
  }

  lemma {:induction false} DepthWeight(n: nat, total: nat, f: Forest, i: nat)
    requires Tree(n, total, f) && n >= 2 && i <= n - 2
    ensures Shl(f.w[i], Depth(f.parent, i) / 2) <= total
    decreases n - i
  {
    hide Weights, Linked, Parents;
    if Depth(f.parent, i) < 2 {
      WeightsAscend(f.w, f.lo, f.hi);
      assert Shl(f.w[i], 0) == f.w[i];
    } else {
      hide Depth;
      TwoUp(f.parent, i);
      var g := f.parent[f.parent[i]];
      GrandparentDoubles(n, total, f, i);
      DepthWeight(n, total, f, g);
      var k := Depth(f.parent, g) / 2;
      ShlDouble(f.w[i], k);
      ShlMono(2 * f.w[i], f.w[g], k);
    }
  }

  /** With fewer than 65536 counts no inner node is deeper than 29. */
  lemma {:induction false} DepthBound(n: nat, total: nat, f: Forest, i: nat)
    requires Tree(n, total, f) && n >= 2 && i <= n - 2 && total < 65536
    ensures Depth(f.parent, i) <= 29
  {
    DepthWeight(n, total, f, i);
    var k := Depth(f.parent, i) / 2;
    assert f.w[i] >= 2;
    hide Weights, Linked, Parents;
    ShlMono(2, f.w[i], k);
    ShlPow2(1, k);
    Pow2Values();
    if k >= 15 { Pow2Mono(16, k + 1); }
  }

  // ---- Third pass: from inner depths to leaf depths ----

  /** What one code of length `l` takes of a code space of 2^32. */
  function Share(l: int): (v: nat) {
    if 0 <= l <= 32 then Pow2(32 - l) else 0
  }

  function KraftFrom(a: seq<int>, i: nat): (v: nat)
    decreases |a| - i
  {
    if i >= |a| then 0 else Share(a[i]) + KraftFrom(a, i + 1)
  }

  lemma {:induction false} KraftSame(a: seq<int>, b: seq<int>, i: nat)
    requires |a| == |b| && forall j :: i <= j < |a| ==> a[j] == b[j]
    ensures KraftFrom(a, i) == KraftFrom(b, i)
    decreases |a| - i
  {
    if i < |a| { KraftSame(a, b, i + 1); }
  }

  /** Every second inner node has a new parent. */
  lemma {:induction false} Stride(parent: seq<nat>, i: nat, k: nat)
    requires Parents(parent, |parent| + 1) && i + 2 * k < |parent|
    ensures parent[i + 2 * k] >= parent[i] + k
  {
    if k > 0 {
      Stride(parent, i, k - 1);
      var j := i + 2 * (k - 1);
      assert parent[j] < parent[j + 2];
    }
  }

  /** The inner nodes `(lo, mid]` whose parents lie in `(mid, hi]` number at most two for each parent. */
  lemma {:induction false} LevelBound(parent: seq<nat>, lo: int, mid: int, hi: int)
    requires Parents(parent, |parent| + 1) && -1 <= lo <= mid < |parent| && mid <= hi
    requires forall i :: lo < i <= mid ==> mid < parent[i] <= hi
    ensures mid - lo <= 2 * (hi - mid)
  {
    if lo < mid {
      var k := (mid - lo - 1) / 2;
      Stride(parent, lo + 1, k);
      var j := lo + 1 + 2 * k;
      assert mid < parent[lo + 1] && parent[j] <= hi;
    }
  }

  /** `(root, prev]` are the inner nodes of depth `dpth - 1`; later ones are shallower, earlier ones deeper. */
  ghost predicate Level(parent: seq<nat>, root: int, prev: int, dpth: nat)
    requires Parents(parent, |parent| + 1)
  {
    && -1 <= root <= prev <= |parent|
    && (forall i :: 0 <= i <= root ==> Depth(parent, i) >= dpth)
    && (forall i :: root < i <= prev ==> Depth(parent, i) == dpth - 1)
    && (forall i :: prev < i <= |parent| ==> Depth(parent, i) < dpth - 1)
  }

  /** One level down: the next block is at most twice as long. */
  lemma {:induction false} NextLevel(parent: seq<nat>, lo: int, root: int, prev: int, dpth: nat)
    requires Parents(parent, |parent| + 1) && Level(parent, root, prev, dpth) && -1 <= lo <= root < |parent|
      && dpth >= 1
    requires forall i :: lo < i <= root ==> Depth(parent, i) == dpth
    requires lo >= 0 ==> Depth(parent, lo) != dpth
    ensures Level(parent, lo, root, dpth + 1)
    ensures root - lo <= 2 * (prev - root)
  {
    forall i | 0 <= i <= lo ensures Depth(parent, i) >= dpth + 1 { DepthMono(parent, i, lo); }
    forall i | lo < i <= root ensures root < parent[i] <= prev {
      Below(parent, i);
    }
    LevelBound(parent, lo, root, prev);
  }

  lemma {:induction false} FirstLevel(parent: seq<nat>, lo: int)
    requires Parents(parent, |parent| + 1) && -1 <= lo <= |parent|
    requires forall i :: lo < i <= |parent| ==> Depth(parent, i) == 0
    requires lo >= 0 ==> Depth(parent, lo) != 0
    ensures Level(parent, lo, |parent|, 1) && lo == |parent| - 1
  {
    assert forall i :: 0 <= i < |parent| ==> Depth(parent, i) >= 1;
    Below(parent, lo + 1);
  }

  /** Counts the block of inner nodes at depth `dpth`. */
  method CountLevel(a: array<int>, ghost parent: seq<nat>, root: int, dpth: nat) returns (lo: int, used: nat)
    requires Parents(parent, |parent| + 1) && -1 <= root <= |parent| < a.Length
    requires forall i :: 0 <= i <= root ==> a[i] == Depth(parent, i)
    ensures -1 <= lo <= root && used == root - lo
    ensures forall i :: lo < i <= root ==> Depth(parent, i) == dpth
    ensures lo >= 0 ==> Depth(parent, lo) != dpth
  {
    lo, used := root, 0;
    while lo >= 0 && a[lo] == dpth
      invariant -1 <= lo <= root && used == root - lo
      invariant forall i :: lo < i <= root ==> Depth(parent, i) == dpth
    {
      used := used + 1;
      lo := lo - 1;
    }
  }

  /** The leaves written so far, at `(next, n)`: non-increasing lengths between 1 and `limit`. */
  ghost predicate Leaves(a: seq<int>, next: int, limit: int) {
    && -1 <= next < |a|
    && (forall j :: next < j < |a| ==> 1 <= a[j] <= limit)
    && (forall j, k :: next < j <= k < |a| ==> a[j] >= a[k])
  }

  lemma {:induction false} PushLeaf(a: seq<int>, next: int, dpth: nat)
    requires Leaves(a, next, dpth) && 1 <= dpth <= 32 && next >= 0
    ensures Leaves(a[next := dpth], next - 1, dpth)
    ensures KraftFrom(a[next := dpth], next) == Pow2(32 - dpth) + KraftFrom(a, next + 1)
  {
    KraftSame(a, a[next := dpth], next + 1);
  }

  /** Writes `count` leaves of length `dpth` downwards from `next`. */
  method WriteLeaves(a: array<int>, next: int, count: nat, dpth: nat)
    requires -1 <= next - count && next < a.Length && (count > 0 ==> 1 <= dpth <= 32)
    requires Leaves(a[..], next, dpth)
    modifies a
    ensures Leaves(a[..], next - count, dpth)
    ensures forall i :: 0 <= i <= next - count || next < i < a.Length ==> a[i] == old(a[i])
    ensures forall i :: next - count < i <= next ==> a[i] == dpth
    ensures KraftFrom(a[..], next - count + 1) == count * Share(dpth) + old(KraftFrom(a[..], next + 1))
  {
    hide Leaves, KraftFrom;
    var i := 0;
    while i < count
      invariant 0 <= i <= count && Leaves(a[..], next - i, dpth)
      invariant forall j :: 0 <= j <= next - i || next < j < a.Length ==> a[j] == old(a[j])
      invariant forall j :: next - i < j <= next ==> a[j] == dpth
      invariant KraftFrom(a[..], next - i + 1) == i * Share(dpth) + old(KraftFrom(a[..], next + 1))
    {
      PushLeaf(a[..], next - i, dpth);
      ghost var was := a[..];
      a[next - i] := dpth;
      assert a[..] == was[next - i := dpth];
      OneMore(i, Share(dpth));
      i := i + 1;
    }
  }

  lemma {:induction false} OneMore(i: nat, p: nat)
    ensures (i + 1) * p == i * p + p
  {
  }

  lemma {:induction false} SplitSpace(avbl: nat, used: nat, dpth: nat)
    requires used <= avbl && dpth < 32
    ensures (avbl - used) * Pow2(32 - dpth) + (2 * used) * Pow2(32 - (dpth + 1)) == avbl * Pow2(32 - dpth)
  {
    var p := Pow2(31 - dpth);
    assert Pow2(32 - dpth) == 2 * p;
    assert (avbl - used) * (2 * p) == avbl * (2 * p) - used * (2 * p);
    assert (2 * used) * p == used * (2 * p);
  }

  // ---- Each leaf gets one bit more than the inner node it went into ----

  lemma {:induction false} Sorted(parent: seq<nat>)
    requires Parents(parent, |parent| + 1)
    ensures forall a, b :: 0 <= a <= b < |parent| ==> parent[a] <= parent[b]
  {
    forall a, b | 0 <= a <= b < |parent| ensures parent[a] <= parent[b] { ParentsMono(parent, a, b); }
  }

  /** At most two inner nodes go into the same one, so every inner node takes up to two leaves, in order. */
  lemma {:induction false} LeafStep(parent: seq<nat>, k: nat)
    requires Parents(parent, |parent| + 1)
    ensures Eaten(parent, k) <= Eaten(parent, k + 1) <= Eaten(parent, k) + 2
      && LeafLo(parent, k) <= LeafLo(parent, k + 1)
  {
    hide Eaten;
    Sorted(parent);
    var e, f := Eaten(parent, k), Eaten(parent, k + 1);
    if e < |parent| {
      EatenIff(parent, k, e);
      if f > e + 2 {
        EatenIff(parent, k + 1, e + 2);
      }
    }
    if 0 < e { EatenIff(parent, k, e - 1); EatenIff(parent, k + 1, e - 1); }
  }

  lemma {:induction false} LeafLoMono(parent: seq<nat>, j: nat, k: nat)
    requires Parents(parent, |parent| + 1) && j <= k
    ensures LeafLo(parent, j) <= LeafLo(parent, k)
    decreases k - j
  {
    hide LeafLo, Parents;
    if j < k {
      LeafLoMono(parent, j, k - 1);
      LeafStep(parent, k - 1);
    }
  }

  /** The inner nodes up to `root` are those that went into the inner nodes up to `prev`. */
  lemma {:induction false} LevelEaten(parent: seq<nat>, root: int, prev: int, dpth: nat)
    requires Parents(parent, |parent| + 1) && Level(parent, root, prev, dpth) && dpth >= 1 && 0 <= prev
      && root < |parent|
    ensures Eaten(parent, prev + 1) == root + 1
  {
    hide Eaten;
    Sorted(parent);
    if root >= 0 {
      Below(parent, root);
      EatenIff(parent, prev + 1, root);
    }
    if root + 1 < |parent| {
      Below(parent, root + 1);
      EatenIff(parent, prev + 1, root + 1);
    }
  }

  /** Leaf `i` went into inner node `k`. */
  ghost predicate LeafOf(parent: seq<nat>, k: nat, i: int) {
    LeafLo(parent, k) <= i < LeafLo(parent, k + 1)
  }

  /** The leaves behind `next` have their lengths. */
  ghost predicate Placed(a: seq<int>, parent: seq<nat>, next: int)
    requires Parents(parent, |parent| + 1)
  {
    forall k: nat, i: nat :: k <= |parent| && LeafOf(parent, k, i) && next < i < |a| ==> a[i] == Depth(parent, k) + 1
  }

  /** The leaves between two ends went into the inner nodes between two levels. */
  lemma {:induction false} LeafBlock(parent: seq<nat>, k: nat, i: int, lo: nat, hi: nat)
    requires Parents(parent, |parent| + 1) && LeafOf(parent, k, i) && LeafLo(parent, lo) <= i < LeafLo(parent, hi)
    ensures lo <= k < hi
  {
    hide LeafLo, Parents;
    if k < lo { LeafLoMono(parent, k + 1, lo); }
    if hi <= k { LeafLoMono(parent, hi, k); }
  }

  lemma {:induction false} PlacedMore(a: seq<int>, b: seq<int>, parent: seq<nat>, lo: int, root: int, prev: int,
      dpth: nat)
    requires Parents(parent, |parent| + 1) && dpth >= 1 && -1 <= lo <= root < |parent| && 0 <= root + 1 && 0 <= prev
    requires Level(parent, root, prev, dpth) && Level(parent, lo, root, dpth + 1) && Placed(a, parent, 2 * prev - root)
    requires |a| == |b| && 2 * prev - root < |a| && 2 * root - lo <= 2 * prev - root
    requires forall i :: 2 * prev - root < i < |a| ==> b[i] == a[i]
    requires forall i :: 2 * root - lo < i <= 2 * prev - root && 0 <= i ==> b[i] == dpth
    ensures Placed(b, parent, 2 * root - lo)
  {
    hide LeafLo, Parents, Eaten, LeafOf;
    if root >= 0 { LevelEaten(parent, lo, root, dpth + 1); }
    LevelEaten(parent, root, prev, dpth);
    forall k: nat, i: nat | k <= |parent| && LeafOf(parent, k, i) && 2 * root - lo < i < |b|
      ensures b[i] == Depth(parent, k) + 1 {
      if i <= 2 * prev - root {
        LeafLoIs(parent, root + 1);
        LeafLoIs(parent, prev + 1);
        LeafBlock(parent, k, i, root + 1, prev + 1);
      }
    }
  }

  lemma {:induction false} LeafLoIs(parent: seq<nat>, k: nat)
    ensures LeafLo(parent, k) == 2 * k - Eaten(parent, k) && LeafLo(parent, 0) == 0 - Eaten(parent, 0)
  {
  }

  /** State of the third pass between two levels. */
  ghost predicate Between(a: seq<int>, parent: seq<nat>, root: int, prev: int, next: int, avbl: nat, dpth: nat)
    requires Parents(parent, |parent| + 1)
  {
    && |a| == |parent| + 2 && 1 <= dpth <= 31
    && Level(parent, root, prev, dpth) && root < |parent|
    && avbl == 2 * (prev - root) && next == root + avbl
    && (forall i :: 0 <= i <= root ==> a[i] == Depth(parent, i))
    && Leaves(a, next, dpth - 1)
    && KraftFrom(a, next + 1) + avbl * Pow2(32 - dpth) == Pow2(32)
  }

  ghost predicate Start(a: seq<int>, parent: seq<nat>, root: int, next: int, avbl: nat)
    requires Parents(parent, |parent| + 1)
  {
    && |a| == |parent| + 2 && root == |parent| && next == |parent| + 1 && avbl == 1
    && (forall i :: 0 <= i <= root ==> a[i] == Depth(parent, i))
  }

  lemma {:induction false} LeaveStart(a: seq<int>, parent: seq<nat>, root: int, next: int, avbl: nat, lo: int)
    requires Parents(parent, |parent| + 1) && Start(a, parent, root, next, avbl)
    requires -1 <= lo <= root && forall i :: lo < i <= root ==> Depth(parent, i) == 0
    requires lo >= 0 ==> Depth(parent, lo) != 0
    ensures lo == root - 1 && Between(a, parent, lo, root, next, 2, 1)
  {
    FirstLevel(parent, lo);
    assert KraftFrom(a, next + 1) == 0;
    assert Pow2(32) == 2 * Pow2(31);
  }

  /** What the level above leaves room for. */
  lemma {:induction false} Room(a: seq<int>, parent: seq<nat>, root: int, prev: int, next: int, avbl: nat, dpth: nat,
      lo: int)
    requires Parents(parent, |parent| + 1) && Between(a, parent, root, prev, next, avbl, dpth) && avbl > 0
    requires forall i :: 0 <= i <= |parent| ==> Depth(parent, i) <= 29
    requires -1 <= lo <= root && forall i :: lo < i <= root ==> Depth(parent, i) == dpth
    requires lo >= 0 ==> Depth(parent, lo) != dpth
    ensures root - lo <= avbl && dpth <= 30 && Leaves(a, next, dpth) && Level(parent, lo, root, dpth + 1)
  {
    NextLevel(parent, lo, root, prev, dpth);
    assert Depth(parent, prev) == dpth - 1;
  }

  /** Writing the unused part of a level leads to the state before the next. */
  lemma {:induction false} Descend(a: seq<int>, b: seq<int>, parent: seq<nat>, root: int, prev: int, next: int,
      avbl: nat, dpth: nat, lo: int)
    requires Parents(parent, |parent| + 1) && Between(a, parent, root, prev, next, avbl, dpth) && -1 <= lo <= root
    requires root + (root - lo) < |a|
    requires root - lo <= avbl && dpth <= 30 && Level(parent, lo, root, dpth + 1)
    requires |b| == |a| && Leaves(b, root + (root - lo), dpth)
    requires forall i :: 0 <= i <= root + (root - lo) ==> b[i] == a[i]
    requires KraftFrom(b, root + (root - lo) + 1) == (avbl - (root - lo)) * Share(dpth) + KraftFrom(a, next + 1)
    ensures Between(b, parent, lo, root, root + (root - lo), 2 * (root - lo), dpth + 1)
  {
    hide Leaves, KraftFrom, Level, Parents, Depth;
    SplitSpace(avbl, root - lo, dpth);
  }

  lemma {:induction false} LastLevel(a: seq<int>, parent: seq<nat>, root: int, prev: int, next: int, dpth: nat)
    requires Parents(parent, |parent| + 1) && Between(a, parent, root, prev, next, 0, dpth)
    ensures next == -1
  {
    Below(parent, root);
  }

  lemma {:induction false} StartOk(a: seq<int>, parent: seq<nat>)
    requires Parents(parent, |parent| + 1) && |a| == |parent| + 2
    requires forall i :: 0 <= i <= |parent| ==> a[i] == Depth(parent, i)
    ensures Start(a, parent, |parent|, |parent| + 1, 1)
  {
  }

  ghost predicate Pass(a: seq<int>, parent: seq<nat>, root: int, prev: int, next: int, avbl: nat, dpth: nat)
    requires Parents(parent, |parent| + 1)
  {
    if dpth == 0 then Start(a, parent, root, next, avbl) else Between(a, parent, root, prev, next, avbl, dpth)
  }

  lemma {:induction false} Unread(a: seq<int>, parent: seq<nat>, root: int, prev: int, next: int, avbl: nat, dpth: nat)
    requires Parents(parent, |parent| + 1) && Pass(a, parent, root, prev, next, avbl, dpth)
    ensures -1 <= root <= |parent| == |a| - 2 && forall i :: 0 <= i <= root ==> a[i] == Depth(parent, i)
  {
  }

  /** A level writes as many leaves as the slots its inner nodes leave over. */
  lemma {:induction false} ToWrite(a: seq<int>, parent: seq<nat>, root: int, prev: int, next: int, avbl: nat, dpth: nat,
      lo: int)
    requires Parents(parent, |parent| + 1) && Pass(a, parent, root, prev, next, avbl, dpth) && avbl > 0
    requires forall i :: 0 <= i <= |parent| ==> Depth(parent, i) <= 29
    requires -1 <= lo <= root && forall i :: lo < i <= root ==> Depth(parent, i) == dpth
    requires lo >= 0 ==> Depth(parent, lo) != dpth
    ensures root - lo <= avbl && next - (avbl - (root - lo)) == root + (root - lo) && next < |a|
    ensures (avbl > root - lo ==> 1 <= dpth <= 32) && Leaves(a, next, dpth)
  {
    if dpth == 0 { LeaveStart(a, parent, root, next, avbl, lo); }
      else { Room(a, parent, root, prev, next, avbl, dpth, lo); }
  }

  lemma {:induction false} Written(a: seq<int>, b: seq<int>, parent: seq<nat>, root: int, prev: int, next: int,
      avbl: nat, dpth: nat, lo: int)
    requires Parents(parent, |parent| + 1) && Pass(a, parent, root, prev, next, avbl, dpth) && avbl > 0
    requires forall i :: 0 <= i <= |parent| ==> Depth(parent, i) <= 29
    requires -1 <= lo <= root && forall i :: lo < i <= root ==> Depth(parent, i) == dpth
    requires lo >= 0 ==> Depth(parent, lo) != dpth
    requires root - lo <= avbl && |b| == |a| && Leaves(b, root + (root - lo), dpth)
    requires forall i :: 0 <= i <= root + (root - lo) && i < |a| ==> b[i] == a[i]
    requires KraftFrom(b, root + (root - lo) + 1) == (avbl - (root - lo)) * Share(dpth) + KraftFrom(a, next + 1)
    ensures Pass(b, parent, lo, root, root + (root - lo), 2 * (root - lo), dpth + 1)
  {
    if dpth == 0 {
      LeaveStart(a, parent, root, next, avbl, lo);
      assert b == a;
    } else {
      Room(a, parent, root, prev, next, avbl, dpth, lo);
      Descend(a, b, parent, root, prev, next, avbl, dpth, lo);
    }
  }

  lemma {:induction false} Finish(a: seq<int>, parent: seq<nat>, root: int, prev: int, next: int, dpth: nat)
    requires Parents(parent, |parent| + 1) && Pass(a, parent, root, prev, next, 0, dpth)
    ensures Leaves(a, -1, 30) && KraftFrom(a, 0) == Pow2(32) && next == -1
  {
    LastLevel(a, parent, root, prev, next, dpth);
  }

  /** One level: its inner nodes are counted and the slots they leave over become leaves. */
  method OneLevel(a: array<int>, ghost parent: seq<nat>, root: int, ghost prev: int, next: int, avbl: nat, dpth: nat)
      returns (lo: int, used: nat)
    requires a.Length == |parent| + 2 && Parents(parent, |parent| + 1) && avbl > 0 && -1 <= root <= |parent|
    requires forall i :: 0 <= i <= |parent| ==> Depth(parent, i) <= 29
    requires Pass(a[..], parent, root, prev, next, avbl, dpth) && Placed(a[..], parent, next)
    modifies a
    ensures -1 <= lo <= root && used == root - lo <= avbl
    ensures Pass(a[..], parent, lo, root, next - (avbl - used), 2 * used, dpth + 1)
      && Placed(a[..], parent, next - (avbl - used))
  {
    hide Leaves, KraftFrom, Between, Start, Pass, Level, Share, Parents, Placed;
    Unread(a[..], parent, root, prev, next, avbl, dpth);
    lo, used := CountLevel(a, parent, root, dpth);
    ToWrite(a[..], parent, root, prev, next, avbl, dpth, lo);
    ghost var was := a[..];
    WriteLeaves(a, next, avbl - used, dpth);
    Written(was, a[..], parent, root, prev, next, avbl, dpth, lo);
    PlacedNext(was, a[..], parent, root, prev, next, avbl, dpth, lo);
  }

  method DepthsToLeaves(a: array<int>, n: nat, ghost parent: seq<nat>)
    requires a.Length == n == |parent| + 2 && Parents(parent, |parent| + 1)
    requires forall i :: 0 <= i <= |parent| ==> a[i] == Depth(parent, i) <= 29
    modifies a
    ensures Leaves(a[..], -1, 30) && KraftFrom(a[..], 0) == Pow2(32) && Placed(a[..], parent, -1)
  {
    hide Leaves, KraftFrom, Between, Start, Pass, Level, Share, Parents, Placed;
    var avbl: nat, dpth: nat := 1, 0;
    var root, next := n - 2, n - 1;
    ghost var prev := root;
    StartOk(a[..], parent);
    PassStart(a[..], parent, root, prev, next, avbl);
    PlacedNone(a[..], parent);
    while avbl > 0
      invariant -1 <= root <= |parent|
      invariant Pass(a[..], parent, root, prev, next, avbl, dpth) && Placed(a[..], parent, next)
      decreases root, avbl
    {
      var lo, used := OneLevel(a, parent, root, prev, next, avbl, dpth);
      next := next - (avbl - used);
      avbl := 2 * used;
      dpth := dpth + 1;
      prev, root := root, lo;
    }
    Finish(a[..], parent, root, prev, next, dpth);
  }

  lemma {:induction false} PlacedNone(a: seq<int>, parent: seq<nat>)
    requires Parents(parent, |parent| + 1)
    ensures Placed(a, parent, |a| - 1)
  {
  }

  lemma {:induction false} PlacedNext(a: seq<int>, b: seq<int>, parent: seq<nat>, root: int, prev: int, next: int,
      avbl: nat, dpth: nat, lo: int)
    requires Parents(parent, |parent| + 1) && Pass(a, parent, root, prev, next, avbl, dpth) && avbl > 0
      && Placed(a, parent, next)
    requires forall i :: 0 <= i <= |parent| ==> Depth(parent, i) <= 29
    requires -1 <= lo <= root && forall i :: lo < i <= root ==> Depth(parent, i) == dpth
    requires lo >= 0 ==> Depth(parent, lo) != dpth
    requires root - lo <= avbl && |b| == |a| && next < |a|
    requires forall i :: next < i < |a| ==> b[i] == a[i]
    requires forall i :: next - (avbl - (root - lo)) < i <= next && 0 <= i ==> b[i] == dpth
    ensures Placed(b, parent, next - (avbl - (root - lo)))
  {
    hide Placed, Leaves, KraftFrom;
    if dpth == 0 {
      LeaveStart(a, parent, root, next, avbl, lo);
      PlacedSame(a, b, parent, next);
    } else {
      Room(a, parent, root, prev, next, avbl, dpth, lo);
      PlacedMore(a, b, parent, lo, root, prev, dpth);
    }
  }

  lemma {:induction false} PlacedSame(a: seq<int>, b: seq<int>, parent: seq<nat>, next: int)
    requires Parents(parent, |parent| + 1) && Placed(a, parent, next) && |a| == |b| && -1 <= next
      && forall i :: next < i < |a| ==> b[i] == a[i]
    ensures Placed(b, parent, next)
  {
  }

  lemma {:induction false} PassStart(a: seq<int>, parent: seq<nat>, root: int, prev: int, next: int, avbl: nat)
    requires Parents(parent, |parent| + 1) && Start(a, parent, root, next, avbl)
    ensures Pass(a, parent, root, prev, next, avbl, 0)
  {
  }

  lemma {:induction false} TreeDepths(n: nat, total: nat, f: Forest)
    requires Tree(n, total, f) && n >= 2 && total < 65536
    ensures |f.parent| == n - 2 && Parents(f.parent, |f.parent| + 1)
    ensures forall i :: 0 <= i <= |f.parent| ==> Depth(f.parent, i) <= 29
  {
    forall i | 0 <= i <= |f.parent| ensures Depth(f.parent, i) <= 29 { DepthBound(n, total, f, i); }
  }

  // ---- The cost of the code is the sum of all merged weights ----

  function Len(x: int): (l: nat) {
    if x < 0 then 0 else x
  }

  /** The weights with their code lengths. */
  function Items(w0: seq<nat>, a: seq<int>): (s: seq<HuffmanBound.Item>)
    requires |a| == |w0|
    ensures |s| == |w0| && forall i :: 0 <= i < |s| ==> s[i] == HuffmanBound.Item(w0[i], Len(a[i]))
  {
    seq(|w0|, i requires 0 <= i < |w0| => HuffmanBound.Item(w0[i], Len(a[i])))
  }

  function CostTo(w0: seq<nat>, a: seq<int>, i: nat): (c: nat)
    requires i <= |a| == |w0|
  {
    if i == 0 then 0 else CostTo(w0, a, i - 1) + HuffmanBound.Weighted(w0[i - 1], Len(a[i - 1]))
  }

  lemma {:induction false} CostOfItems(w0: seq<nat>, a: seq<int>, i: nat)
    requires i <= |a| == |w0|
    ensures HuffmanBound.Cost(Items(w0, a)[..i]) == CostTo(w0, a, i)
  {
    hide HuffmanBound.Weighted, Items, Len, HuffmanBound.Cost;
    var s := Items(w0, a);
    if i == 0 {
      assert s[..0] == [];
      NoCost();
    } else {
      CostOfItems(w0, a, i - 1);
      assert s[..i] == s[..i - 1] + [s[i - 1]];
      HuffmanBound.CostConcat(s[..i - 1], [s[i - 1]]);
      HuffmanBound.One(s[i - 1], 0);
    }
  }

  lemma {:induction false} NoCost()
    ensures HuffmanBound.Cost([]) == 0
  {
  }

  /** The inner nodes below `k`, each weighted with its depth. */
  function DepthTo(w: seq<nat>, parent: seq<nat>, k: nat): (c: nat)
    requires Parents(parent, |parent| + 1) && k <= |w| <= |parent| + 1
  {
    if k == 0 then 0 else DepthTo(w, parent, k - 1) + HuffmanBound.Weighted(w[k - 1], Depth(parent, k - 1))
  }

  /** The same with the depth of their children. */
  function BelowTo(w: seq<nat>, parent: seq<nat>, k: nat): (c: nat)
    requires Parents(parent, |parent| + 1) && k <= |w| <= |parent| + 1
  {
    if k == 0 then 0 else BelowTo(w, parent, k - 1) + HuffmanBound.Weighted(w[k - 1], Depth(parent, k - 1) + 1)
  }

  lemma {:induction false} Distribute(x: nat, y: nat, d: nat)
    ensures HuffmanBound.Weighted(x + y, d) == HuffmanBound.Weighted(x, d) + HuffmanBound.Weighted(y, d)
    ensures HuffmanBound.Weighted(x, d + 1) == HuffmanBound.Weighted(x, d) + x && HuffmanBound.Weighted(x, 0) == 0
  {
  }

  lemma {:induction false} BelowIs(w: seq<nat>, parent: seq<nat>, k: nat)
    requires Parents(parent, |parent| + 1) && k <= |w| <= |parent| + 1
    ensures BelowTo(w, parent, k) == DepthTo(w, parent, k) + SumTo(w, k)
  {
    hide HuffmanBound.Weighted, Parents, Depth;
    if k > 0 {
      BelowIs(w, parent, k - 1);
      Distribute(w[k - 1], 0, Depth(parent, k - 1));
    }
  }

  /** The leaves of inner node `k` are one level below it. */
  lemma {:induction false} LeafRange(w0: seq<nat>, a: seq<int>, parent: seq<nat>, k: nat, i: nat, j: nat)
    requires Parents(parent, |parent| + 1) && |a| == |w0| && Placed(a, parent, -1) && k <= |parent|
    requires LeafLo(parent, k) <= i <= j <= LeafLo(parent, k + 1) && j <= |w0|
    ensures var d := Depth(parent, k) + 1;
      CostTo(w0, a, j) + HuffmanBound.Weighted(SumTo(w0, i), d)
        == CostTo(w0, a, i) + HuffmanBound.Weighted(SumTo(w0, j), d)
    decreases j - i
  {
    hide HuffmanBound.Weighted, Parents, Depth, LeafLo;
    if i < j {
      LeafRange(w0, a, parent, k, i, j - 1);
      assert LeafOf(parent, k, j - 1);
      Distribute(SumTo(w0, j - 1), w0[j - 1], Depth(parent, k) + 1);
    }
  }

  /** So are the inner nodes that went into it. */
  lemma {:induction false} NodeRange(w: seq<nat>, parent: seq<nat>, k: nat, i: nat, j: nat)
    requires Parents(parent, |parent| + 1) && |w| <= |parent| + 1 && k <= |parent|
    requires Eaten(parent, k) <= i <= j <= Eaten(parent, k + 1) && j <= |w|
    ensures var d := Depth(parent, k) + 1;
      DepthTo(w, parent, j) + HuffmanBound.Weighted(SumTo(w, i), d)
        == DepthTo(w, parent, i) + HuffmanBound.Weighted(SumTo(w, j), d)
    decreases j - i
  {
    if i < j {
      NodeRange(w, parent, k, i, j - 1);
      Sorted(parent);
      EatenIff(parent, k, j - 1);
      EatenIff(parent, k + 1, j - 1);
      Below(parent, j - 1);
      hide HuffmanBound.Weighted, Parents, Depth, Eaten;
      Distribute(SumTo(w, j - 1), w[j - 1], Depth(parent, k) + 1);
    }
  }

  lemma {:induction false} Exchange(x: nat, a: nat, b: nat, c: nat, e: nat, d: nat)
    requires x + a + b == c + e
    ensures HuffmanBound.Weighted(x, d) + HuffmanBound.Weighted(a, d) + HuffmanBound.Weighted(b, d)
      == HuffmanBound.Weighted(c, d) + HuffmanBound.Weighted(e, d)
  {
    hide HuffmanBound.Weighted;
    Distribute(x, a, d);
    Distribute(x + a, b, d);
    Distribute(c, e, d);
  }

  lemma {:induction false} NoneEaten(parent: seq<nat>)
    ensures Eaten(parent, 0) == 0 && LeafLo(parent, 0) == 0
  {
    if parent != [] { NoneEaten(parent[..|parent| - 1]); }
  }

  /** Leaves and inner nodes merged so far, weighted with their depths, against the merges. */
  lemma {:induction false} Telescope(w0: seq<nat>, a: seq<int>, parent: seq<nat>, w: seq<nat>, k: nat)
    requires Parents(parent, |parent| + 1) && |a| == |w0| && Placed(a, parent, -1) && Fed(w0, parent, w, |w|)
      && k <= |w| <= |parent| + 1
    ensures 0 <= LeafLo(parent, k) <= |w0| && Eaten(parent, k) <= |w|
    ensures CostTo(w0, a, LeafLo(parent, k)) + DepthTo(w, parent, Eaten(parent, k)) == BelowTo(w, parent, k)
  {
    hide HuffmanBound.Weighted, Parents, Depth, LeafLo, Eaten, SumTo, Placed;
    if k == 0 {
      NoneEaten(parent);
    } else {
      Telescope(w0, a, parent, w, k - 1);
      assert Adds(w0, parent, w, k - 1);
      var l, l', e, e', d := LeafLo(parent, k - 1), LeafLo(parent, k), Eaten(parent, k - 1), Eaten(parent, k),
        Depth(parent, k - 1) + 1;
      LeafRange(w0, a, parent, k - 1, l, l');
      NodeRange(w, parent, k - 1, e, e');
      Exchange(w[k - 1], SumTo(w0, l), SumTo(w, e), SumTo(w0, l'), SumTo(w, e'), d);
    }
  }

  lemma {:induction false} CostIsMerges(w0: seq<nat>, a: seq<int>, total: nat, f: Forest)
    requires Tree(|w0|, total, f) && |w0| >= 2 && Parents(f.parent, |f.parent| + 1) && |a| == |w0|
      && Placed(a, f.parent, -1)
    requires Fed(w0, f.parent, f.w, |f.w|)
    ensures CostTo(w0, a, |w0|) == SumTo(f.w, |f.w|)
  {
    hide HuffmanBound.Weighted, Fed, Placed, Weights, Linked, Parents, Depth, Eaten, LeafLo, CostTo, DepthTo, BelowTo,
      SumTo;
    var n := |w0|;
    LastEaten(f.parent);
    LeafLoIs(f.parent, n - 1);
    Telescope(w0, a, f.parent, f.w, n - 1);
    BelowIs(f.w, f.parent, n - 1);
    RootFree(f.w, f.parent);
  }

  lemma {:induction false} LastEaten(parent: seq<nat>)
    requires Parents(parent, |parent| + 1)
    ensures Eaten(parent, |parent| + 1) == |parent|
  {
    AllEaten(parent, |parent| + 1);
  }

  /** The root is at depth zero. */
  lemma {:induction false} RootFree(w: seq<nat>, parent: seq<nat>)
    requires Parents(parent, |parent| + 1) && |w| == |parent| + 1
    ensures DepthTo(w, parent, |w|) == DepthTo(w, parent, |parent|)
  {
    assert Depth(parent, |parent|) == 0;
    hide HuffmanBound.Weighted, Parents, Depth;
    Distribute(w[|parent|], 0, 0);
  }

  lemma {:induction false} MergesSum(w: seq<nat>, lo: seq<nat>, hi: seq<nat>, k: nat)
    requires |w| == |lo| == |hi| && k <= |w| && forall j :: 0 <= j < |w| ==> w[j] == lo[j] + hi[j]
    ensures HuffmanBound.MergeCost(lo, hi, k) + SumTo(w, k) == SumTo(w, |w|)
    decreases |w| - k
  {
    if k < |w| { MergesSum(w, lo, hi, k + 1); }
  }

  /** No prefix code for these weights is cheaper. */
  ghost predicate Minimal(w0: seq<nat>, a: seq<int>) {
    && |a| == |w0|
    && forall s: seq<HuffmanBound.Item>, K: nat ::
      HuffmanBound.Ws(s) == multiset(w0) && HuffmanBound.Decodable(s, K) ==>
      HuffmanBound.Cost(Items(w0, a)) <= HuffmanBound.Cost(s)
  }

  lemma {:induction false} LengthsMinimal(w0: seq<nat>, a: seq<int>, total: nat, f: Forest)
    requires Tree(|w0|, total, f) && |w0| >= 2 && Parents(f.parent, |f.parent| + 1) && |a| == |w0|
      && Placed(a, f.parent, -1)
    requires Audited(w0, |w0|, f)
    ensures Minimal(w0, a)
  {
    hide HuffmanBound.Cost, HuffmanBound.Ws, HuffmanBound.Decodable, HuffmanBound.Greedy, Placed, Fed, Parents,
      Linked, Items, SumTo;
    CostIsMerges(w0, a, total, f);
    CostOfItems(w0, a, |w0|);
    assert Items(w0, a)[..|w0|] == Items(w0, a);
    MergesSum(f.w, f.lo, f.hi, 0);
    assert SumTo(f.w, 0) == 0 by { SumToNone(f.w); }
    forall s: seq<HuffmanBound.Item>, K: nat | HuffmanBound.Ws(s) == multiset(w0) && HuffmanBound.Decodable(s, K)
      ensures HuffmanBound.Cost(Items(w0, a)) <= HuffmanBound.Cost(s)
    {
      HuffmanBound.LowerBound(multiset(w0), f.lo, f.hi, 0, s, K);
    }
  }

  // ---- Weights grow like the Fibonacci numbers on the way up ----

  function Fib(n: nat): (v: nat) {
    if n < 2 then n else Fib(n - 1) + Fib(n - 2)
  }

  lemma {:induction false} FibUp(wp: nat, hp: nat, w: nat, h: nat, x: nat, y: nat)
    requires wp >= w + h && hp >= w
    ensures HuffmanBound.Weighted(w, x + y) + HuffmanBound.Weighted(h, x)
      <= HuffmanBound.Weighted(wp, x) + HuffmanBound.Weighted(hp, y)
  {
    assert wp * x >= (w + h) * x && hp * y >= w * y;
    assert (w + h) * x + w * y == w * (x + y) + h * x;
  }

  /** A node and the heavier of its two sides, against the root. */
  lemma {:induction false} NodeFib(n: nat, total: nat, f: Forest, i: nat)
    requires Tree(n, total, f) && n >= 2 && i <= n - 2
    ensures var d := Depth(f.parent, i);
      HuffmanBound.Weighted(f.w[i], Fib(d + 1)) + HuffmanBound.Weighted(f.hi[i], Fib(d)) <= total
    decreases n - i
  {
    hide Parents, Weights, Linked, Depth, HuffmanBound.Weighted, Fib;
    if i < n - 2 {
      ParentHolds(n, total, f, i);
      var p := f.parent[i];
      NodeFib(n, total, f, p);
      var d := Depth(f.parent, p);
      FibNext(d);
      FibUp(f.w[p], f.hi[p], f.w[i], f.hi[i], Fib(d + 1), Fib(d));
    } else {
      RootDepth(f.parent);
      Distribute(f.w[i], 0, 0);
      Distribute(f.hi[i], 0, 0);
    }
  }

  lemma {:induction false} RootDepth(parent: seq<nat>)
    requires Parents(parent, |parent| + 1)
    ensures Depth(parent, |parent|) == 0 && Fib(0) == 0 && Fib(1) == 1
  {
  }

  /** A parent holds the node and something no lighter than the node's heavier side. */
  lemma {:induction false} ParentHolds(n: nat, total: nat, f: Forest, i: nat)
    requires Tree(n, total, f) && n >= 2 && i < n - 2
    ensures var p := f.parent[i];
      i < p <= n - 2 && Depth(f.parent, i) == 1 + Depth(f.parent, p) && f.w[p] >= f.w[i] + f.hi[i] && f.hi[p] >= f.w[i]
  {
    Below(f.parent, i);
    var p := f.parent[i];
    assert f.w[p] == f.lo[p] + f.hi[p] && f.hi[i] <= f.lo[p] && f.w[i] <= f.hi[p];
  }

  /** Every leaf went into some inner node. */
  lemma {:induction false} FindNode(parent: seq<nat>, i: nat, k: nat) returns (q: nat)
    requires Parents(parent, |parent| + 1) && i < LeafLo(parent, k)
    ensures q < k && LeafOf(parent, q, i)
    decreases k
  {
    NoneEaten(parent);
    hide LeafLo, Parents;
    if LeafLo(parent, k - 1) <= i { q := k - 1; } else { q := FindNode(parent, i, k - 1); }
  }

  /** A symbol with a code of `l` bits has at most one part in Fib(l + 1) of all occurrences. */
  ghost predicate Light(w0: seq<nat>, a: seq<int>) {
    |a| == |w0| && forall i :: 0 <= i < |w0| ==> HuffmanBound.Weighted(w0[i], Fib(Len(a[i]) + 1)) <= SumFrom(w0, 0)
  }

  lemma {:induction false} LeafWeight(w0: seq<nat>, parent: seq<nat>, hi: seq<nat>, q: nat, i: nat)
    requires Ascending(w0) && Capped(w0, parent, hi) && q < |hi| && LeafOf(parent, q, i)
    ensures i < |w0| && w0[i] <= hi[q]
  {
    hide LeafLo;
    assert Topped(w0, LeafLo(parent, q + 1), hi[q]);
  }

  lemma {:induction false} LeafFib(w0: seq<nat>, a: seq<int>, total: nat, f: Forest, i: nat)
    requires Ascending(w0) && Tree(|w0|, total, f) && |w0| >= 2 && Parents(f.parent, |f.parent| + 1) && |a| == |w0|
    requires Placed(a, f.parent, -1) && Capped(w0, f.parent, f.hi) && i < |w0|
    ensures HuffmanBound.Weighted(w0[i], Fib(Len(a[i]) + 1)) <= total
  {
    hide HuffmanBound.Weighted, Parents, Linked, Capped, Eaten, LeafOf, Ascending, Depth, Fib;
    LastEaten(f.parent);
    var q := FindNode(f.parent, i, |w0| - 1);
    LeafWeight(w0, f.parent, f.hi, q, i);
    NodeFib(|w0|, total, f, q);
    var d := Depth(f.parent, q);
    assert a[i] == d + 1;
    FibNext(d);
    FibUp(f.w[q], f.hi[q], w0[i], 0, Fib(d + 1), Fib(d));
  }

  lemma {:induction false} FibNext(d: nat)
    ensures Fib(d + 2) == Fib(d + 1) + Fib(d)
  {
  }

  lemma {:induction false} LeavesLight(w0: seq<nat>, a: seq<int>, f: Forest)
    requires Ascending(w0) && Tree(|w0|, SumFrom(w0, 0), f) && |w0| >= 2 && Parents(f.parent, |f.parent| + 1)
      && |a| == |w0|
    requires Placed(a, f.parent, -1) && Audited(w0, |w0|, f)
    ensures Light(w0, a)
  {
    hide HuffmanBound.Weighted, Parents, Tree, Capped, Pooled, Fed, Ascending, Placed, Fib, SumFrom, Len;
    forall i | 0 <= i < |w0| ensures HuffmanBound.Weighted(w0[i], Fib(Len(a[i]) + 1)) <= SumFrom(w0, 0) {
      LeafFib(w0, a, SumFrom(w0, 0), f, i);
    }
  }

  lemma {:induction false} SumToNone(s: seq<nat>)
    ensures SumTo(s, 0) == 0
  {
  }

  /**
   * Replaces ascending counts by code lengths, in place: the rarer a symbol the longer its code, no code is longer
   * than 30 bits, the lengths use up the code space exactly, no prefix code is cheaper, and long codes are for light
   * symbols only. A single symbol gets one bit.
   */
  method CodeLengths(a: array<int>, n: nat, ghost w0: seq<nat>)
    requires a.Length == n == |w0| && a[..] == w0 && Input(w0)
    modifies a
    ensures n >= 1 ==> Leaves(a[..], -1, 30)
    ensures n == 1 ==> a[0] == 1
    ensures n >= 2 ==> KraftFrom(a[..], 0) == Pow2(32) && Minimal(w0, a[..]) && Light(w0, a[..])
  {
    hide Leaves, KraftFrom, Tree, Parents, Audited, Input, SumFrom, Placed, Minimal, Light, Ascending;
    if n == 0 { return; }
    if n == 1 {
      a[0] := 1;
      OneLeaf(a[..]);
      return;
    }
    ghost var f := BuildParents(a, n, w0);
    TotalBound(w0);
    TreeDepths(n, SumFrom(w0, 0), f);
    ParentsToDepths(a, n, f.parent);
    DepthsToLeaves(a, n, f.parent);
    LengthsMinimal(w0, a[..], SumFrom(w0, 0), f);
    InputAscends(w0);
    LeavesLight(w0, a[..], f);
  }

  lemma {:induction false} OneLeaf(a: seq<int>)
    requires a == [1]
    ensures Leaves(a, -1, 30)
  {
  }

  lemma {:induction false} TotalBound(w0: seq<nat>)
    requires Input(w0)
    ensures SumFrom(w0, 0) < 65536
  {
  }
}
