/** The inflater's decoding table: a 10-bit lookup array whose negative entries lead into an overflow tree
    stored as pairs of array slots. */
module HuffTable {
  import opened Bits
  import opened Canonical

  const FAST_BITS: nat := 10
  const FAST_SIZE: nat := 1024
  const TREE_SIZE: nat := 576
  const MAX_SYMS: nat := 288

  /** The symbol among the first `m` with a long code ending at path `q`, or -1. */
  function SymAt(L: seq<nat>, m: nat, q: nat): (r: int)
    requires m <= |L|
    ensures -1 <= r < m
    ensures r >= 0 ==> L[r] > FAST_BITS && SymId(L, r) == q
  {
    if m == 0 then -1
    else if L[m - 1] > FAST_BITS && SymId(L, m - 1) == q then m - 1
    else SymAt(L, m - 1, q)
  }

  /** The symbol among the first `m` whose short code the bits of `v` start with, or -1. */
  ghost function Cover(L: seq<nat>, m: nat, v: nat): (r: int)
    requires m <= |L|
    ensures -1 <= r < m
    ensures r >= 0 ==> L[r] <= FAST_BITS && Starts(L, r, v)
  {
    if m == 0 then -1
    else if L[m - 1] <= FAST_BITS && Starts(L, m - 1, v) then m - 1
    else Cover(L, m - 1, v)
  }

  /** The paths of the overflow tree's inner nodes: node `k` owns tree slots `2k` and `2k + 1`. */
  type Nodes = seq<nat>

  function Find(nodes: Nodes, p: nat): (k: int)
    ensures -1 <= k < |nodes|
    ensures k >= 0 ==> nodes[k] == p
    ensures k < 0 ==> p !in nodes
  {
    if |nodes| == 0 then -1
    else if nodes[|nodes| - 1] == p then |nodes| - 1
    else Find(nodes[..|nodes| - 1], p)
  }

  /** How a slot refers to node `k`. */
  function Link(k: nat): (r: int) { -(2 * k + 1) }

  function Slot(k: nat, b: nat): (r: nat) { 2 * k + b }

  function Child(p: nat, b: nat): (r: nat) { 2 * p + b }

  /** What the lookup array holds for bits `v`. */
  ghost function LkSlot(L: seq<nat>, m: nat, nodes: Nodes, v: nat): (r: int)
    requires m <= |L|
  {
    var k := Find(nodes, Path(v, FAST_BITS));
    if k >= 0 then Link(k)
    else
      var c := Cover(L, m, v);
      if c >= 0 then L[c] * 512 + c else 0
  }

  /** What the tree holds for path `q`. */
  function TrSlot(L: seq<nat>, m: nat, nodes: Nodes, q: nat): (r: int)
    requires m <= |L|
  {
    var k := Find(nodes, q);
    if k >= 0 then Link(k)
    else
      var c := SymAt(L, m, q);
      if c >= 0 then c else 0
  }

  /** A code that uses no symbol. */
  ghost predicate NoSymbols(L: seq<nat>) {
    forall s :: 0 <= s < |L| ==> L[s] == 0
  }

  lemma {:induction false} NoCover(L: seq<nat>, m: nat, v: nat)
    requires m <= |L| && NoSymbols(L)
    ensures Cover(L, m, v) < 0
  {
    if m > 0 { NoCover(L, m - 1, v); }
  }

  /** Its table has no nodes, and every lookup entry is empty. */
  lemma {:induction false} NoSlot(L: seq<nat>, nodes: Nodes, v: nat)
    requires NodesOk(L, |L|, |L|, nodes) && NoSymbols(L)
    ensures LkSlot(L, |L|, nodes, v) == 0
  {
    NoCover(L, |L|, v);
    if |nodes| > 0 {
      NodeUnder(L, nodes, 0);
      assert false;
    }
  }

  lemma {:induction false} NodeUnder(L: seq<nat>, nodes: Nodes, k: nat)
    requires NodesOk(L, |L|, |L|, nodes) && k < |nodes|
    ensures exists s: nat :: s < |L| && L[s] > 0
  {
    assert Under(L, |L|, nodes[k]);
    var s: nat, d: nat :| s < |L| && Above(L, s, d, nodes[k]);
    assert L[s] > 0;
  }

  predicate HasParent(nodes: Nodes, q: nat) {
    q >= 2048 ==> Find(nodes, q / 2) >= 0
  }

  /** `p` is the first `d` bits, ten or more but not all, of the code of symbol `s`. */
  predicate Above(L: seq<nat>, s: nat, d: nat, p: nat)
  {
    s < |L| && FAST_BITS <= d < L[s] && Anc(L, s, d) == p
  }

  ghost predicate Under(L: seq<nat>, n: nat, p: nat) {
    exists s: nat, d: nat :: s < n && Above(L, s, d, p)
  }

  /**
   * The inner nodes: distinct prefixes of the first `n` codes, closed upwards, holding all prefixes of the first `m`.
   */
  ghost predicate NodesOk(L: seq<nat>, m: nat, n: nat, nodes: Nodes) {
    && m <= n <= |L|
    && (forall k: nat :: k < |nodes| ==> Under(L, n, nodes[k]))
    && (forall k: nat, l: nat :: k < l < |nodes| ==> nodes[k] != nodes[l])
    && (forall q: nat {:trigger HasParent(nodes, q)} :: Find(nodes, q) >= 0 ==> HasParent(nodes, q))
    && (forall s: nat, d: nat, p: nat :: s < m && Above(L, s, d, p) ==> Find(nodes, p) >= 0)
  }

  ghost predicate LkOk(L: seq<nat>, m: nat, nodes: Nodes, lk: seq<int>) {
    m <= |L| && |lk| == FAST_SIZE && forall r: nat :: r < FAST_SIZE ==> lk[r] == LkSlot(L, m, nodes, r)
  }

  ghost predicate TrOk(L: seq<nat>, m: nat, nodes: Nodes, tr: seq<int>) {
    && m <= |L| && |tr| == TREE_SIZE && |nodes| <= MAX_SYMS
    && (forall k: nat, b: nat {:trigger Slot(k, b)} :: k < |nodes| && b < 2 ==>
      tr[Slot(k, b)] == TrSlot(L, m, nodes, Child(nodes[k], b)))
    && (forall i: nat :: 2 * |nodes| <= i < TREE_SIZE ==> tr[i] == 0)
  }

  /** The table holds the codes of the first `m` symbols; its inner nodes all lie above codes of the first `n`. */
  ghost predicate Inv(L: seq<nat>, m: nat, n: nat, nodes: Nodes, lk: seq<int>, tr: seq<int>) {
    Fits(L) && |L| <= MAX_SYMS && NodesOk(L, m, n, nodes) && LkOk(L, m, nodes, lk) && TrOk(L, m, nodes, tr)
  }

  lemma {:induction false} AboveDepth(L: seq<nat>, s: nat, d: nat, p: nat)
    requires Fits(L) && Above(L, s, d, p)
    ensures Pow2(d) <= p < Pow2(d + 1) && 1024 <= p < 32768
  {
    hide Anc;
    AncDepth(L, s, d);
    Pow2Values();
    Pow2Mono(10, d);
    Pow2Mono(d + 1, 15);
  }

  /** An inner path is never itself a code. */
  lemma {:induction false} AboveNotLeaf(L: seq<nat>, s: nat, d: nat, p: nat, t: nat)
    requires Fits(L) && Above(L, s, d, p) && t < |L| && L[t] > 0
    ensures SymId(L, t) != p
  {
    hide Anc;
    hide SymId;
    if SymId(L, t) == p {
      AboveDepth(L, s, d, p);
      CodeBound(L, t);
      DepthUnique(p, d, L[t]);
      PrefixFree(L, t, s);
    }
  }

  lemma {:induction false} FindPush(nodes: Nodes, p: nat, q: nat)
    requires Find(nodes, p) < 0
    ensures Find(nodes + [p], q) == if q == p then |nodes| else Find(nodes, q)
  {
    assert (nodes + [p])[..|nodes|] == nodes;
  }

  lemma {:induction false} LkSlotPush(L: seq<nat>, m: nat, nodes: Nodes, p: nat, v: nat)
    requires m <= |L| && Find(nodes, p) < 0
    ensures LkSlot(L, m, nodes + [p], v) == if Path(v, FAST_BITS) == p then Link(|nodes|) else LkSlot(L, m, nodes, v)
  {
    FindPush(nodes, p, Path(v, FAST_BITS));
  }

  lemma {:induction false} TrSlotPush(L: seq<nat>, m: nat, nodes: Nodes, p: nat, q: nat)
    requires m <= |L| && Find(nodes, p) < 0
    ensures TrSlot(L, m, nodes + [p], q) == if q == p then Link(|nodes|) else TrSlot(L, m, nodes, q)
  {
    FindPush(nodes, p, q);
  }

  /** A path that is not a node has neither nodes nor codes right below it. */
  lemma {:induction false} ChildFree(L: seq<nat>, m: nat, n: nat, nodes: Nodes, p: nat, b: nat)
    requires Fits(L) && NodesOk(L, m, n, nodes)
    requires 1024 <= p && Find(nodes, p) < 0 && b < 2
    ensures TrSlot(L, m, nodes, Child(p, b)) == 0
  {
    hide Anc;
    hide SymId;
    var q := Child(p, b);
    assert Find(nodes, q) >= 0 ==> HasParent(nodes, q);
    var s := SymAt(L, m, q);
    if s >= 0 { LeafParent(L, s, p, b); }
  }

  lemma {:induction false} LeafParent(L: seq<nat>, s: nat, p: nat, b: nat)
    requires s < |L| && L[s] > FAST_BITS && SymId(L, s) == Child(p, b) && b < 2
    ensures Above(L, s, L[s] - 1, p)
  {
    hide SymId;
    AncStep(L, s, L[s] - 1);
  }

  lemma {:induction false} ChildrenFree(L: seq<nat>, m: nat, n: nat, nodes: Nodes, p: nat)
    requires Fits(L) && m <= |L| && NodesOk(L, m, n, nodes) && 1024 <= p && Find(nodes, p) < 0
    ensures forall b: nat :: b < 2 ==> TrSlot(L, m, nodes, Child(p, b)) == 0
  {
    hide NodesOk;
    hide TrSlot;
    forall b: nat | b < 2 ensures TrSlot(L, m, nodes, Child(p, b)) == 0 { ChildFree(L, m, n, nodes, p, b); }
  }

  /** Adding node `p`, about to be entered for symbol `m`. */
  lemma {:induction false} AddNode(L: seq<nat>, m: nat, nodes: Nodes, d: nat, p: nat)
    requires Fits(L) && m < |L| && NodesOk(L, m, m + 1, nodes)
    requires Above(L, m, d, p) && Find(nodes, p) < 0 && HasParent(nodes, p)
    ensures NodesOk(L, m, m + 1, nodes + [p])
  {
    hide Anc;
    var nodes' := nodes + [p];
    assert Under(L, m + 1, p);
    forall q: nat ensures Find(nodes', q) == if q == p then |nodes| else Find(nodes, q) { FindPush(nodes, p, q); }
    forall q: nat | Find(nodes', q) >= 0 ensures HasParent(nodes', q) {
      assert q != p ==> HasParent(nodes, q);
    }
  }

  /** Adding a node changes only the lookup entry that leads to it. */
  lemma {:induction false} AllocLookup(L: seq<nat>, m: nat, nodes: Nodes, lk: seq<int>, p: nat, lk': seq<int>)
    requires LkOk(L, m, nodes, lk) && Find(nodes, p) < 0 && |lk'| == FAST_SIZE
    requires forall r: nat :: r < FAST_SIZE ==> lk'[r] == if Path(r, FAST_BITS) == p then Link(|nodes|) else lk[r]
    ensures LkOk(L, m, nodes + [p], lk')
  {
    forall r: nat | r < FAST_SIZE ensures lk'[r] == LkSlot(L, m, nodes + [p], r) {
      LkSlotPush(L, m, nodes, p, r);
      assert lk[r] == LkSlot(L, m, nodes, r);
    }
  }

  /** Adding a node changes only the tree slot that leads to it. */
  lemma {:induction false} AllocTree(L: seq<nat>, m: nat, nodes: Nodes, tr: seq<int>, p: nat, tr': seq<int>)
    requires TrOk(L, m, nodes, tr) && |nodes| < MAX_SYMS && p > 0 && Find(nodes, p) < 0 && |tr'| == TREE_SIZE
    requires forall b: nat :: b < 2 ==> TrSlot(L, m, nodes, Child(p, b)) == 0
    requires forall i: nat :: 2 * |nodes| <= i < TREE_SIZE ==> tr'[i] == 0
    requires forall k: nat, b: nat {:trigger Slot(k, b)} :: k < |nodes| && b < 2 ==>
      tr'[Slot(k, b)] == if Child(nodes[k], b) == p then Link(|nodes|) else tr[Slot(k, b)]
    ensures TrOk(L, m, nodes + [p], tr')
  {
    hide TrSlot;
    forall k: nat, b: nat | k < |nodes + [p]| && b < 2
      ensures tr'[Slot(k, b)] == TrSlot(L, m, nodes + [p], Child((nodes + [p])[k], b))
    {
      var q := (nodes + [p])[k];
      TrSlotPush(L, m, nodes, p, Child(q, b));
      if k < |nodes| {
        assert q == nodes[k];
      } else {
        assert q == p && tr'[Slot(k, b)] == 0;
      }
    }
  }

  lemma {:induction false} NodeDepth(L: seq<nat>, m: nat, n: nat, nodes: Nodes, k: nat)
    requires Fits(L) && NodesOk(L, m, n, nodes) && k < |nodes|
    ensures 1024 <= nodes[k] < 32768
  {
    hide Above;
    assert Under(L, n, nodes[k]);
    var s: nat, d: nat :| s < n && Above(L, s, d, nodes[k]);
    AboveDepth(L, s, d, nodes[k]);
  }

  /** A new node below node `k` is entered through `k`'s slot only. */
  lemma {:induction false} OneSlot(L: seq<nat>, m: nat, n: nat, nodes: Nodes, tr: seq<int>, k: nat, b: nat)
    requires NodesOk(L, m, n, nodes) && k < |nodes| && b < 2 && 2 * |nodes| <= |tr|
    ensures forall l: nat, c: nat {:trigger Slot(l, c)} :: l < |nodes| && c < 2 ==>
      tr[Slot(k, b) := Link(|nodes|)][Slot(l, c)] == if Child(nodes[l], c) == Child(nodes[k], b) then Link(|nodes|)
        else tr[Slot(l, c)]
  {
    hide Find;
    hide Above;
    forall l: nat, c: nat | l < |nodes| && c < 2
      ensures tr[Slot(k, b) := Link(|nodes|)][Slot(l, c)] ==
        if Child(nodes[l], c) == Child(nodes[k], b) then Link(|nodes|) else tr[Slot(l, c)]
    {
      assert l < k ==> nodes[l] != nodes[k];
      assert k < l ==> nodes[k] != nodes[l];
    }
  }

  lemma {:induction false} TrSlotNext(L: seq<nat>, m: nat, nodes: Nodes, q: nat)
    requires m < |L|
    ensures TrSlot(L, m + 1, nodes, q) ==
      if L[m] > FAST_BITS && q == SymId(L, m) && Find(nodes, q) < 0 then m else TrSlot(L, m, nodes, q)
  {
    hide SymId;
  }

  /** Storing a symbol in the slot its code ends at. */
  lemma {:induction false} StoreLeaf(L: seq<nat>, m: nat, nodes: Nodes, tr: seq<int>, k: nat, b: nat)
    requires m < |L| && NodesOk(L, m, m + 1, nodes) && TrOk(L, m, nodes, tr) && FAST_BITS < L[m]
    requires k < |nodes| && b < 2 && Child(nodes[k], b) == SymId(L, m) && Find(nodes, SymId(L, m)) < 0
    ensures TrOk(L, m + 1, nodes, tr[Slot(k, b) := m])
  {
    hide SymId;
    hide Above;
    hide TrSlot;
    hide Find;
    var tr' := tr[Slot(k, b) := m];
    forall l: nat, c: nat | l < |nodes| && c < 2
      ensures tr'[Slot(l, c)] == TrSlot(L, m + 1, nodes, Child(nodes[l], c))
    {
      assert l < k ==> nodes[l] != nodes[k];
      assert k < l ==> nodes[k] != nodes[l];
      TrSlotNext(L, m, nodes, Child(nodes[l], c));
    }
  }

  lemma {:induction false} NotInner(L: seq<nat>, m: nat, n: nat, nodes: Nodes, s: nat)
    requires Fits(L) && s < |L| && L[s] > 0 && NodesOk(L, m, n, nodes)
    ensures Find(nodes, SymId(L, s)) < 0
  {
    hide Above;
    hide SymId;
    var k := Find(nodes, SymId(L, s));
    if k >= 0 {
      assert Under(L, n, nodes[k]);
      var t: nat, d: nat :| t < n && Above(L, t, d, nodes[k]);
      AboveNotLeaf(L, t, d, nodes[k], s);
    }
  }

  /** Once a symbol's parent path is a node, so are all its prefixes. */
  lemma {:induction false} StoreNodes(L: seq<nat>, m: nat, nodes: Nodes)
    requires Fits(L) && m < |L| && NodesOk(L, m, m + 1, nodes)
    requires FAST_BITS < L[m] && Find(nodes, Anc(L, m, L[m] - 1)) >= 0
    ensures NodesOk(L, m + 1, m + 1, nodes)
  {
    hide Anc;
    forall s: nat, d: nat, p: nat | s < m + 1 && Above(L, s, d, p)
      ensures Find(nodes, p) >= 0
    {
      if s == m { ParentsIn(L, m, m + 1, nodes, m, d, L[m] - 1); }
    }
  }

  /** Every prefix of an inner node, ten bits or longer, is an inner node. */
  lemma {:induction false} ParentsIn(L: seq<nat>, m: nat, n: nat, nodes: Nodes, s: nat, d: nat, e: nat)
    requires Fits(L) && s < |L| && NodesOk(L, m, n, nodes)
    requires FAST_BITS <= d <= e < L[s] && Find(nodes, Anc(L, s, e)) >= 0
    ensures Find(nodes, Anc(L, s, d)) >= 0
    decreases e
  {
    if d < e {
      hide Anc;
      var q := Anc(L, s, e);
      AncStep(L, s, e - 1);
      AncDepth(L, s, e);
      Pow2Mono(11, e);
      Pow2Values();
      assert HasParent(nodes, q);
      ParentsIn(L, m, n, nodes, s, d, e - 1);
    }
  }

  // ---- The overflow tree never outgrows its array ----

  /** Paths of length `d` with longer codes below them, in a complete code. */
  function Inner(L: seq<nat>, d: nat): (r: int) { Pow2(d) - EndCode(L, d) }

  function InnerFrom(L: seq<nat>, d: nat): (r: int)
    decreases MAX_LEN - d
  {
    if d >= MAX_LEN then 0 else Inner(L, d) + InnerFrom(L, d + 1)
  }

  function CountFrom(L: seq<nat>, n: nat, d: nat): (r: nat)
    requires n <= |L|
    decreases MAX_LEN - d
  {
    if d > MAX_LEN then 0 else Count(L, n, d) + CountFrom(L, n, d + 1)
  }

  lemma {:induction false} CountFromBound(L: seq<nat>, n: nat, d: nat)
    requires n <= |L|
    ensures CountFrom(L, n, d) <= n
  {
    CountFromStep(L, n, d);
    if n > 0 { CountFromBound(L, n - 1, d); }
  }

  lemma {:induction false} CountFromStep(L: seq<nat>, n: nat, d: nat)
    requires n <= |L|
    ensures n == 0 ==> CountFrom(L, n, d) == 0
    ensures n > 0 ==> CountFrom(L, n, d) == CountFrom(L, n - 1, d) + B(d <= L[n - 1] <= MAX_LEN)
    decreases MAX_LEN - d
  {
    if d <= MAX_LEN { CountFromStep(L, n, d + 1); }
  }

  /** A binary tree has fewer inner nodes than leaves. */
  lemma {:induction false} InnerFromBound(L: seq<nat>, d: nat)
    requires Complete(L) && d < MAX_LEN
    ensures InnerFrom(L, d) + Inner(L, d) <= CountFrom(L, |L|, d + 1)
    decreases MAX_LEN - d
  {
    if d + 1 < MAX_LEN { InnerFromBound(L, d + 1); }
  }

  function Range(a: nat, n: nat): (r: set<nat>)
    ensures |r| <= n
    ensures forall x :: a <= x < a + n ==> x in r
  {
    if n == 0 then {} else Range(a, n - 1) + {a + n - 1}
  }

  ghost function InnerSet(L: seq<nat>, d: nat): (r: set<nat>)
    decreases MAX_LEN - d
  {
    if d >= MAX_LEN || Inner(L, d) < 0 then {} else Range(Pow2(d) + EndCode(L, d), Inner(L, d)) + InnerSet(L, d + 1)
  }

  lemma {:induction false} InnerSetSize(L: seq<nat>, d: nat)
    requires Complete(L)
    ensures |InnerSet(L, d)| <= InnerFrom(L, d)
    decreases MAX_LEN - d
  {
    if d < MAX_LEN {
      InnerSetSize(L, d + 1);
      EndFits(L, d);
    }
  }

  lemma {:induction false} InnerSetHas(L: seq<nat>, d: nat, e: nat, p: nat)
    requires Fits(L) && d <= e < MAX_LEN && Pow2(e) + EndCode(L, e) <= p < Pow2(e + 1)
    ensures p in InnerSet(L, d)
    decreases MAX_LEN - d
  {
    hide EndCode;
    hide Fits;
    EndFits(L, d);
    if d < e { InnerSetHas(L, d + 1, e, p); }
  }

  lemma {:induction false} Pigeonhole(xs: seq<nat>, S: set<nat>)
    requires forall k: nat :: k < |xs| ==> xs[k] in S
    requires forall k: nat, l: nat :: k < l < |xs| ==> xs[k] != xs[l]
    ensures |xs| <= |S|
  {
    if |xs| > 0 {
      var n := |xs| - 1;
      Pigeonhole(xs[..n], S - {xs[n]});
    }
  }

  lemma {:induction false} UsedUnique(L: seq<nat>, n: nat, s: nat, t: nat)
    requires n <= |L| && s < t < n && L[s] != 0 && L[t] != 0
    ensures Used(L, n) >= 2
  {
    if t + 1 < n {
      UsedUnique(L, n - 1, s, t);
    } else {
      UsedOne(L, n - 1, s);
    }
  }

  lemma {:induction false} UsedOne(L: seq<nat>, n: nat, s: nat)
    requires s < n <= |L| && L[s] != 0
    ensures Used(L, n) >= 1
  {
    if s + 1 < n { UsedOne(L, n - 1, s); }
  }

  lemma {:induction false} NodeBound(L: seq<nat>, m: nat, n: nat, nodes: Nodes)
    requires Fits(L) && Accepted(L) && |L| <= MAX_SYMS && NodesOk(L, m, n, nodes)
    ensures |nodes| <= MAX_SYMS
  {
    if Complete(L) {
      forall k: nat | k < |nodes| ensures nodes[k] in InnerSet(L, FAST_BITS) { NodeInner(L, m, n, nodes, k); }
      Pigeonhole(nodes, InnerSet(L, FAST_BITS));
      CompleteBound(L);
    } else if |nodes| > 0 {
      assert Under(L, n, nodes[0]);
      var s: nat, d: nat :| s < n && Above(L, s, d, nodes[0]);
      OneCodeNodes(L, m, n, nodes, s);
    }
  }

  lemma {:induction false} NodeInner(L: seq<nat>, m: nat, n: nat, nodes: Nodes, k: nat)
    requires Complete(L) && NodesOk(L, m, n, nodes) && k < |nodes|
    ensures nodes[k] in InnerSet(L, FAST_BITS)
  {
    assert Under(L, n, nodes[k]);
    var s: nat, d: nat :| s < n && Above(L, s, d, nodes[k]);
    AboveDepth(L, s, d, nodes[k]);
    CodeBound(L, s);
    AncestorAbove(L, SymId(L, s), d, L[s] - d);
    InnerSetHas(L, FAST_BITS, d, nodes[k]);
  }

  lemma {:induction false} CompleteBound(L: seq<nat>)
    requires Complete(L)
    ensures |InnerSet(L, FAST_BITS)| <= |L|
  {
    InnerSetSize(L, FAST_BITS);
    InnerFromBound(L, FAST_BITS);
    EndFits(L, FAST_BITS);
    CountFromBound(L, |L|, FAST_BITS + 1);
  }

  lemma {:induction false} OneCodeNodes(L: seq<nat>, m: nat, n: nat, nodes: Nodes, s: nat)
    requires Fits(L) && Used(L, |L|) <= 1 && NodesOk(L, m, n, nodes) && s < |L| && L[s] > 0
    ensures |nodes| <= 16
  {
    hide SymId;
    forall k: nat | k < |nodes| ensures nodes[k] in Ancestors(SymId(L, s), 16) {
      assert Under(L, n, nodes[k]);
      var t: nat, d: nat :| t < n && Above(L, t, d, nodes[k]);
      if s < t { UsedUnique(L, |L|, s, t); }
      if t < s { UsedUnique(L, |L|, t, s); }
    }
    Pigeonhole(nodes, Ancestors(SymId(L, s), 16));
  }

  function Ancestors(id: nat, n: nat): (r: set<nat>)
    ensures |r| <= n
    ensures forall j: nat :: j < n ==> Shr(id, j) in r
  {
    if n == 0 then {} else Ancestors(id, n - 1) + {Shr(id, n - 1)}
  }
}
