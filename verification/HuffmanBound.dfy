/** No prefix code is cheaper than merging the two lightest weights until one is left. */
module HuffmanBound {
  import opened Bits

  /** A weight and the length of its code. */
  datatype Item = Item(w: nat, l: nat)

  function Weighted(w: nat, l: nat): (c: nat) {
    w * l
  }

  /** The weighted length of a code. */
  function Cost(s: seq<Item>): (c: nat) {
    if s == [] then 0 else Weighted(s[0].w, s[0].l) + Cost(s[1..])
  }

  /** The part of a code space of 2^K that a code of length `l` takes. */
  function Part(l: nat, K: nat): (v: nat) {
    if l <= K then Pow2(K - l) else 0
  }

  function Space(s: seq<Item>, K: nat): (v: nat) {
    if s == [] then 0 else Part(s[0].l, K) + Space(s[1..], K)
  }

  function Weights(s: seq<Item>): (ws: seq<nat>)
    ensures |ws| == |s| && forall i :: 0 <= i < |s| ==> ws[i] == s[i].w
  {
    seq(|s|, i requires 0 <= i < |s| => s[i].w)
  }

  function Ws(s: seq<Item>): (m: multiset<nat>) {
    multiset(Weights(s))
  }

  predicate Within(s: seq<Item>, K: nat) {
    forall i :: 0 <= i < |s| ==> s[i].l <= K
  }

  /** Lengths that a prefix code can have: the inequality of Kraft and McMillan. */
  predicate Decodable(s: seq<Item>, K: nat) {
    Within(s, K) && Space(s, K) <= Pow2(K)
  }

  lemma {:induction false} CostConcat(a: seq<Item>, b: seq<Item>)
    ensures Cost(a + b) == Cost(a) + Cost(b)
  {
    hide Weighted;
    if a == [] {
      assert a + b == b;
    } else {
      CostConcat(a[1..], b);
      assert (a + b)[1..] == a[1..] + b;
    }
  }

  lemma {:induction false} SpaceConcat(a: seq<Item>, b: seq<Item>, K: nat)
    ensures Space(a + b, K) == Space(a, K) + Space(b, K)
  {
    hide Part;
    if a == [] {
      assert a + b == b;
    } else {
      SpaceConcat(a[1..], b, K);
      assert (a + b)[1..] == a[1..] + b;
    }
  }

  lemma {:induction false} WsConcat(a: seq<Item>, b: seq<Item>)
    ensures Ws(a + b) == Ws(a) + Ws(b)
  {
    assert Weights(a + b) == Weights(a) + Weights(b);
  }

  lemma {:induction false} Concat(a: seq<Item>, b: seq<Item>, K: nat)
    ensures Cost(a + b) == Cost(a) + Cost(b) && Space(a + b, K) == Space(a, K) + Space(b, K)
      && Ws(a + b) == Ws(a) + Ws(b)
  {
    hide Cost, Space, Ws;
    CostConcat(a, b);
    SpaceConcat(a, b, K);
    WsConcat(a, b);
  }

  function Drop(s: seq<Item>, i: nat): (t: seq<Item>)
    requires i < |s|
  {
    s[..i] + s[i + 1..]
  }

  lemma {:induction false} One(x: Item, K: nat)
    ensures Cost([x]) == Weighted(x.w, x.l) && Space([x], K) == Part(x.l, K) && Ws([x]) == multiset{x.w}
  {
    assert [x][1..] == [];
    assert Weights([x]) == [x.w];
  }

  /** Taking one item out. */
  lemma {:induction false} TakeOut(s: seq<Item>, i: nat, K: nat)
    requires i < |s|
    ensures Cost(s) == Weighted(s[i].w, s[i].l) + Cost(Drop(s, i))
    ensures Space(s, K) == Part(s[i].l, K) + Space(Drop(s, i), K)
    ensures Ws(s) == multiset{s[i].w} + Ws(Drop(s, i))
  {
    hide Cost, Space, Ws, Weighted, Part;
    var a, b, c := s[..i], [s[i]], s[i + 1..];
    assert s == a + (b + c);
    One(s[i], K);
    Concat(b, c, K);
    Concat(a, b + c, K);
    Concat(a, c, K);
  }

  lemma {:induction false} InWs(s: seq<Item>, w: nat)
    requires w in Ws(s)
    ensures exists i :: 0 <= i < |s| && s[i].w == w
  {
    assert w in Weights(s);
  }

  lemma {:induction false} WsHas(s: seq<Item>, i: nat)
    requires i < |s|
    ensures s[i].w in Ws(s)
  {
    assert Weights(s)[i] == s[i].w;
  }

  // ---- Exchanging lengths ----

  lemma {:induction false} Longest(s: seq<Item>) returns (t: nat)
    requires s != []
    ensures t < |s| && forall i :: 0 <= i < |s| ==> s[i].l <= s[t].l
  {
    if |s| == 1 {
      t := 0;
    } else {
      var u := Longest(s[1..]);
      t := if s[0].l >= s[1..][u].l then 0 else u + 1;
      forall i | 0 <= i < |s| ensures s[i].l <= s[t].l {
        if i > 0 { assert s[i] == s[1..][i - 1]; }
      }
    }
  }

  /** Giving the lighter weight the longer code costs no more. */
  lemma {:induction false} SwapCost(w: nat, z: nat, p: nat, r: nat)
    requires w <= z && p <= r
    ensures Weighted(w, r) + Weighted(z, p) <= Weighted(w, p) + Weighted(z, r)
  {
    assert (z - w) * (r - p) >= 0;
    assert (z - w) * (r - p) == z * r - z * p - w * r + w * p;
  }

  /** Replacing the length of one item. */
  lemma {:induction false} Replace(s: seq<Item>, i: nat, l: nat, K: nat)
    requires i < |s|
    ensures var t := s[i := Item(s[i].w, l)];
      && Cost(t) + Weighted(s[i].w, s[i].l) == Cost(s) + Weighted(s[i].w, l)
      && Space(t, K) + Part(s[i].l, K) == Space(s, K) + Part(l, K) && Ws(t) == Ws(s)
  {
    hide Cost, Space, Ws, Weighted, Part;
    var t := s[i := Item(s[i].w, l)];
    TakeOut(s, i, K);
    TakeOut(t, i, K);
    assert Drop(t, i) == Drop(s, i);
  }

  ghost predicate Heavier(r: seq<Item>, w: nat) {
    forall i :: 0 <= i < |r| ==> w <= r[i].w
  }

  /** A weight no heavier than any in `r` can be given a length no shorter than any in `r`, at no cost. */
  lemma {:induction false} Deepen(r: seq<Item>, w: nat, p: nat, bound: nat, K: nat) returns (t: seq<Item>, q: nat)
    requires Within(r, bound) && Heavier(r, w)
    ensures Within(t, bound) && Within(t, q) && p <= q && (q <= p || q <= bound) && Ws(t) == Ws(r)
    ensures Cost(t) + Weighted(w, q) <= Cost(r) + Weighted(w, p)
    ensures Space(t, K) + Part(q, K) == Space(r, K) + Part(p, K)
    ensures |t| == |r| && forall i :: 0 <= i < |t| ==> t[i].w == r[i].w
  {
    hide Cost, Space, Ws, Weighted, Part;
    t, q := r, p;
    if r != [] {
      var i := Longest(r);
      if r[i].l > p {
        q := r[i].l;
        t := r[i := Item(r[i].w, p)];
        Replace(r, i, p, K);
        SwapCost(w, r[i].w, p, q);
      }
    }
  }

  // ---- Merging ----

  /** Codes no longer than `m` take a whole number of shares of size 2^(K - m). */
  lemma {:induction false} SpaceShift(s: seq<Item>, m: nat, K: nat)
    requires Within(s, m) && m <= K
    ensures Space(s, K) == Shl(Space(s, m), K - m)
  {
    if s == [] {
      ShlZero(K - m);
    } else {
      SpaceShift(s[1..], m, K);
      ShlAdd(Part(s[0].l, m), Space(s[1..], m), K - m);
      ShlPow2(m - s[0].l, K - m);
    }
  }

  /** When the two longest codes differ in length, the longer can be cut down to the other: there is room for it. */
  lemma {:induction false} Level(r: seq<Item>, m: nat, longer: nat, K: nat)
    requires Within(r, m) && m <= longer <= K && Space(r, K) + Part(m, K) + Part(longer, K) <= Pow2(K)
    ensures m >= 1 && Space(r, K) + Part(m, K) + Part(m, K) <= Pow2(K)
  {
    var d, v := K - m, Space(r, m);
    SpaceShift(r, m, K);
    ShlPow2(m, d);
    ShlPow2(0, d);
    ShlAdd(v, 1, d);
    ShlAdd(v + 1, 1, d);
    hide Space;
    if v + 1 >= Pow2(m) { ShlMono(Pow2(m), v + 1, d); }
    ShlMono(v + 2, Pow2(m), d);
  }

  /** The two lightest weights of `m`. */
  ghost predicate Lightest(m: multiset<nat>, x: nat, y: nat) {
    x <= y && multiset{x, y} <= m && forall z :: z in m - multiset{x, y} ==> y <= z
  }

  lemma {:induction false} IsLightest(x: nat, y: nat, a: multiset<nat>, b: multiset<nat>)
    requires x <= y && (forall z :: z in a ==> y <= z) && (forall z :: z in b ==> y <= z)
    ensures Lightest(multiset{x} + multiset{y} + a + b, x, y)
  {
    var m := multiset{x} + multiset{y} + a + b;
    assert multiset{x, y} == multiset{x} + multiset{y};
    assert m - multiset{x, y} == a + b;
  }

  /** Finds two items by their weights. */
  lemma {:induction false} TakeTwo(s: seq<Item>, x: nat, y: nat, K: nat) returns (p: nat, q: nat, r: seq<Item>)
    requires Lightest(Ws(s), x, y) && Within(s, K)
    ensures Within(r, K) && p <= K && q <= K && Heavier(r, y) && Ws(r) == Ws(s) - multiset{x, y}
    ensures Cost(s) == Weighted(x, p) + Weighted(y, q) + Cost(r) && Space(s, K) == Part(p, K) + Part(q, K) + Space(r, K)
  {
    hide Cost, Space, Weighted, Part, Ws;
    assert x in multiset{x, y};
    InWs(s, x);
    var i :| 0 <= i < |s| && s[i].w == x;
    TakeOut(s, i, K);
    var s1 := Drop(s, i);
    Second(Ws(s), x, y, Ws(s1));
    InWs(s1, y);
    var j :| 0 <= j < |s1| && s1[j].w == y;
    TakeOut(s1, j, K);
    r, p, q := Drop(s1, j), s[i].l, s1[j].l;
    BothOut(Ws(s), x, y, Ws(r));
    forall k | 0 <= k < |r| ensures y <= r[k].w { WsHas(r, k); }
  }

  lemma {:induction false} Second(a: multiset<nat>, x: nat, y: nat, b: multiset<nat>)
    requires a == multiset{x} + b && multiset{x, y} <= a
    ensures y in b
  {
    assert multiset{x, y} == multiset{x} + multiset{y};
  }

  lemma {:induction false} BothOut(a: multiset<nat>, x: nat, y: nat, c: multiset<nat>)
    requires a == multiset{x} + (multiset{y} + c)
    ensures c == a - multiset{x, y}
  {
    assert multiset{x, y} == multiset{x} + multiset{y};
  }

  lemma {:induction false} OneUp(x: nat, y: nat, m: nat)
    requires m >= 1
    ensures Weighted(x, m) + Weighted(y, m) == Weighted(x + y, m - 1) + x + y
  {
    assert (x + y) * (m - 1) == x * m + y * m - x - y;
  }

  lemma {:induction false} Cheaper(x: nat, p: nat, m: nat)
    requires m <= p
    ensures Weighted(x, m) <= Weighted(x, p)
  {
    assert x * (p - m) >= 0;
  }

  ghost function MergeIn(m: multiset<nat>, x: nat, y: nat): (r: multiset<nat>) {
    m - multiset{x, y} + multiset{x + y}
  }

  /** The two lightest weights can be given the same length, with no others longer, at no cost. */
  lemma {:induction false} Balance(s: seq<Item>, x: nat, y: nat, K: nat) returns (r: seq<Item>, m: nat)
    requires Decodable(s, K) && Lightest(Ws(s), x, y)
    ensures Within(r, K) && 1 <= m <= K && Space(r, K) + Part(m, K) + Part(m, K) <= Pow2(K)
      && Ws(r) == Ws(s) - multiset{x, y}
    ensures Cost(r) + Weighted(x, m) + Weighted(y, m) <= Cost(s)
  {
    hide Cost, Space, Weighted, Part, Ws;
    var p, q, r0 := TakeTwo(s, x, y, K);
    var r1, p1 := Deepen(r0, x, p, K, K);
    var q1;
    r, q1 := Deepen(r1, y, q, p1, K);
    m := if p1 <= q1 then p1 else q1;
    Level(r, m, if p1 <= q1 then q1 else p1, K);
    Cheaper(x, p1, m);
    Cheaper(y, q1, m);
  }

  /** From a code for all weights, a code with the two lightest merged that is cheaper by their sum. */
  lemma {:induction false} Merge(s: seq<Item>, x: nat, y: nat, K: nat) returns (t: seq<Item>)
    requires Decodable(s, K) && Lightest(Ws(s), x, y)
    ensures Decodable(t, K) && Ws(t) == MergeIn(Ws(s), x, y) && Cost(t) + x + y <= Cost(s)
  {
    hide Cost, Space, Weighted, Part, Ws, Lightest;
    var r, m := Balance(s, x, y, K);
    OneUp(x, y, m);
    var z := Item(x + y, m - 1);
    t := r + [z];
    Concat(r, [z], K);
    One(z, K);
    PartUp(m, K);
  }

  lemma {:induction false} PartUp(m: nat, K: nat)
    requires 1 <= m <= K
    ensures Part(m - 1, K) == Part(m, K) + Part(m, K)
  {
  }

  // ---- The bound ----

  /** What is left after `k` merges. */
  ghost function Pool(m: multiset<nat>, lo: seq<nat>, hi: seq<nat>, k: nat): (r: multiset<nat>)
    requires k <= |lo| == |hi|
  {
    if k == 0 then m
    else MergeIn(Pool(m, lo, hi, k - 1), lo[k - 1], hi[k - 1])
  }

  /** Every merge takes the two lightest weights there are. */
  ghost predicate Greedy(m: multiset<nat>, lo: seq<nat>, hi: seq<nat>) {
    |lo| == |hi| && forall k: nat :: k < |lo| ==> Lightest(Pool(m, lo, hi, k), lo[k], hi[k])
  }

  /** The sum of all merged weights from merge `k` on. */
  function MergeCost(lo: seq<nat>, hi: seq<nat>, k: nat): (c: nat)
    requires |lo| == |hi|
    decreases |lo| - k
  {
    if k >= |lo| then 0 else lo[k] + hi[k] + MergeCost(lo, hi, k + 1)
  }

  lemma {:induction false} MergeStep(m: multiset<nat>, lo: seq<nat>, hi: seq<nat>, k: nat)
    requires Greedy(m, lo, hi) && k < |lo|
    ensures Lightest(Pool(m, lo, hi, k), lo[k], hi[k])
    ensures Pool(m, lo, hi, k + 1) == MergeIn(Pool(m, lo, hi, k), lo[k], hi[k])
  {
    hide Lightest, MergeIn;
  }

  /** A code for what is left after `k` merges costs at least what the remaining merges add up to. */
  lemma {:induction false} LowerBound(m: multiset<nat>, lo: seq<nat>, hi: seq<nat>, k: nat, s: seq<Item>, K: nat)
    requires Greedy(m, lo, hi) && k <= |lo| == |hi| && Ws(s) == Pool(m, lo, hi, k) && Decodable(s, K)
    ensures MergeCost(lo, hi, k) <= Cost(s)
    decreases |lo| - k
  {
    hide Cost, Ws, Decodable, Lightest, Pool, Greedy;
    if k < |lo| {
      MergeStep(m, lo, hi, k);
      var t := Merge(s, lo[k], hi[k], K);
      LowerBound(m, lo, hi, k + 1, t, K);
    }
  }
}
