/** What limiting code lengths to 15 bits costs: never more than one bit for every 270 occurrences of each symbol. */
module LimitCost {
  import opened Bits
  import opened LimitLengths
  import HuffmanBound
  import MinRedundancy

  const LIMIT: nat := 15

  /** Lengths by rank, the rarest symbol first, as the histogram hands them out. */
  ghost predicate InOrder(len: seq<int>, num: seq<int>, max: nat) {
    max < |num| && forall l: nat, k: nat :: l <= max && k < |len| ==> (len[k] <= l <==> k >= |len| - Codes(num, l))
  }

  /** Every length at most 15. */
  function Clamp(a: seq<int>): (b: seq<int>)
    ensures |b| == |a| && forall k :: 0 <= k < |a| ==> b[k] == if a[k] < LIMIT then a[k] else LIMIT
  {
    seq(|a|, k requires 0 <= k < |a| => if a[k] < LIMIT then a[k] else LIMIT)
  }

  lemma {:induction false} CutCodes(num: seq<int>, l: nat)
    requires |num| == 33 && l <= LIMIT
    ensures Codes(Cut(num, LIMIT), l) == if l < LIMIT then Codes(num, l) else Codes(num, 32)
  {
    if l < LIMIT { SameTaken(num, Cut(num, LIMIT), l); } else { CutTaken(num, LIMIT); }
  }

  lemma {:induction false} ClampInOrder(a: seq<int>, num: seq<int>)
    requires InOrder(a, num, 32) && |num| == 33 && Codes(num, 32) == |a|
    ensures InOrder(Clamp(a), Cut(num, LIMIT), LIMIT)
  {
    hide Codes, Cut;
    var b, c := Clamp(a), Cut(num, LIMIT);
    CutSize(num);
    forall l: nat, k: nat | l <= LIMIT && k < |b| ensures b[k] <= l <==> k >= |b| - Codes(c, l) {
      CutCodes(num, l);
    }
  }

  lemma {:induction false} CutSize(num: seq<int>)
    requires |num| == 33
    ensures |Cut(num, LIMIT)| == 33
  {
  }

  // ---- The space the touched codes could free ----

  ghost function Freed(l: int): (v: int) {
    if 0 <= l < LIMIT then Pow2(LIMIT - l) - 1 else 0
  }

  /** What the first `k` ranks would free at the full length. */
  ghost function FreedTo(b: seq<int>, k: nat): (v: int)
    requires k <= |b|
  {
    if k == 0 then 0 else FreedTo(b, k - 1) + Freed(b[k - 1])
  }

  lemma {:induction false} FreedBlock(b: seq<int>, x: nat, y: nat, l: nat)
    requires x <= y <= |b| && forall k :: x <= k < y ==> b[k] == l
    ensures FreedTo(b, y) == FreedTo(b, x) + (y - x) * Freed(l)
    decreases y
  {
    hide Freed;
    if x < y {
      FreedBlock(b, x, y - 1, l);
      assert (y - x) * Freed(l) == (y - 1 - x) * Freed(l) + Freed(l);
    }
  }

  /** Space by the codes of length `i` only. */
  lemma {:induction false} WideTop(c: seq<int>, num: seq<int>, i: nat, m: nat)
    requires 1 <= i <= m && i < |c| == |num| && forall k :: 1 <= k < i ==> num[k] == c[k]
    ensures Wide(c, i, m) == Wide(num, i, m) + (c[i] - num[i]) * Pow2(m - i)
      && Codes(c, i) == Codes(num, i) + c[i] - num[i]
    decreases m
  {
    if i < m {
      WideTop(c, num, i, m - 1);
      Doubled(c[i] - num[i], Pow2(m - 1 - i));
    } else {
      SameTaken(c, num, i - 1);
    }
  }

  lemma {:induction false} Doubled(x: int, p: int)
    ensures 2 * (x * p) == x * (2 * p)
  {
  }

  lemma {:induction false} WideStep(c: seq<int>, i: nat, m: nat)
    requires 1 <= i <= m && i < |c|
    ensures Wide(c, i, m) == Wide(c, i - 1, m) + c[i] * Pow2(m - i)
    decreases m
  {
    if i < m {
      WideStep(c, i, m - 1);
      Doubled(c[i], Pow2(m - 1 - i));
    }
  }

  lemma {:induction false} FreedIs(x: int, l: nat)
    requires l <= LIMIT
    ensures x * Freed(l) == x * Pow2(LIMIT - l) - x
  {
    assert l == LIMIT ==> Pow2(LIMIT - l) == 1;
    var p := Pow2(LIMIT - l);
    hide Pow2;
    assert Freed(l) == p - 1;
    assert x * (p - 1) == x * p - x;
  }

  /** In ranks: the codes longer than `l`. */
  lemma {:induction false} FreedAbove(b: seq<int>, c: seq<int>, l: nat)
    requires Histogram(c) && InOrder(b, c, LIMIT) && Codes(c, LIMIT) == |b| && l <= LIMIT
    ensures 0 <= |b| - Codes(c, l) <= |b| && FreedTo(b, |b| - Codes(c, l)) == Spare(c, c, LIMIT, |b|, l)
    decreases LIMIT - l
  {
    hide Freed, Wide, FreedTo;
    CodesMono(c, l, LIMIT);
    if l == LIMIT {
      NoneFreed(b);
      WideSelf(c);
    } else {
      FreedAbove(b, c, l + 1);
      CodesMono(c, l, l + 1);
      var x, y := |b| - Codes(c, l + 1), |b| - Codes(c, l);
      FreedBlock(b, x, y, l + 1);
      WideStep(c, l + 1, LIMIT);
      FreedIs(c[l + 1], l + 1);
      assert y - x == c[l + 1];
    }
  }

  lemma {:induction false} NoneFreed(b: seq<int>)
    ensures FreedTo(b, 0) == 0
  {
  }

  lemma {:induction false} WideSelf(c: seq<int>)
    requires |c| == 33
    ensures Wide(c, LIMIT, LIMIT) == Taken(c, LIMIT)
  {
  }

  /** The ranks whose codes have been touched could together not free more than two slots for each code. */
  lemma {:induction false} FreedTouched(b: seq<int>, c: seq<int>, num: seq<int>, at: nat)
    requires Histogram(c) && Histogram(num) && InOrder(b, c, LIMIT) && Codes(c, LIMIT) == |b| == Codes(num, LIMIT)
    requires Repaid(c, num, LIMIT, |b|, at)
    ensures 0 <= |b| - Codes(num, at) <= |b| && FreedTo(b, |b| - Codes(num, at)) <= 2 * |b|
  {
    hide Freed, Wide, FreedTo, Codes, Taken;
    CodesMono(num, at, LIMIT);
    CodesMono(c, at, LIMIT);
    FreedAbove(b, c, at);
    WideTop(c, num, at, LIMIT);
    CodesAt(c, at);
    CodesAt(num, at);
    SameTaken(c, num, at - 1);
    var x, y := |b| - Codes(c, at), |b| - Codes(num, at);
    FreedBlock(b, x, y, at);
    FreedIs(c[at] - num[at], at);
  }

  lemma {:induction false} CodesAt(num: seq<int>, i: nat)
    requires 1 <= i < |num|
    ensures Codes(num, i) == Codes(num, i - 1) + num[i]
  {
  }

  // ---- What the touched symbols weigh ----

  lemma {:induction false} FibTable()
    ensures MinRedundancy.Fib(2) == 1 && MinRedundancy.Fib(3) == 2 && MinRedundancy.Fib(4) == 3
      && MinRedundancy.Fib(5) == 5
    ensures MinRedundancy.Fib(6) == 8 && MinRedundancy.Fib(7) == 13 && MinRedundancy.Fib(8) == 21
      && MinRedundancy.Fib(9) == 34
    ensures MinRedundancy.Fib(10) == 55 && MinRedundancy.Fib(11) == 89 && MinRedundancy.Fib(12) == 144
    ensures MinRedundancy.Fib(13) == 233 && MinRedundancy.Fib(14) == 377 && MinRedundancy.Fib(15) == 610
  {
  }

  lemma {:induction false} Pow2Table()
    ensures Pow2(1) == 2 && Pow2(2) == 4 && Pow2(3) == 8 && Pow2(4) == 16 && Pow2(5) == 32 && Pow2(6) == 64
      && Pow2(7) == 128
    ensures Pow2(8) == 256 && Pow2(9) == 512 && Pow2(10) == 1024 && Pow2(11) == 2048 && Pow2(12) == 4096
      && Pow2(13) == 8192
    ensures Pow2(14) == 16384
  {
  }

  /** The bits a code of length `l` can grow by, against the space that frees and the share its symbol can have. */
  lemma {:induction false} GrowthRate(l: nat)
    requires 1 <= l < LIMIT
    ensures 540 * (LIMIT - l) <= MinRedundancy.Fib(l + 1) * Freed(l)
  {
    FibTable();
    Pow2Table();
    hide MinRedundancy.Fib, Pow2;
  }

  lemma {:induction false} Scale(w: nat, f: nat, total: nat, g: nat, r: nat)
    requires w * f <= total && 540 * g <= f * r
    ensures 540 * (w * g) <= total * r
  {
    assert w * (540 * g) <= w * (f * r);
    assert w * (f * r) == (w * f) * r <= total * r;
    assert w * (540 * g) == 540 * (w * g);
  }

  /** Giving a symbol the full length costs its share of the space freed. */
  lemma {:induction false} FullLength(w: nat, l: nat, m: nat, total: nat)
    requires 1 <= l <= LIMIT && m <= LIMIT && (l < LIMIT ==>
      HuffmanBound.Weighted(w, MinRedundancy.Fib(l + 1)) <= total)
    ensures Freed(l) >= 0 && 540 * HuffmanBound.Weighted(w, m) <= 540 * HuffmanBound.Weighted(w, l) + total * Freed(l)
  {
    hide MinRedundancy.Fib;
    HuffmanBound.Cheaper(w, LIMIT, m);
    if l < LIMIT {
      assert Pow2(LIMIT - l) >= 1;
      GrowthRate(l);
      Scale(w, MinRedundancy.Fib(l + 1), total, LIMIT - l, Freed(l));
      assert w * LIMIT == w * l + w * (LIMIT - l);
    }
  }

  // ---- The cost ----

  /** Ranks from `p` on got no longer, the others have at most the full length. */
  ghost predicate Grown(b: seq<int>, m: seq<int>, p: nat) {
    && |m| == |b| && p <= |b| && (forall k :: 0 <= k < |b| ==> 1 <= b[k] <= LIMIT && 0 <= m[k] <= LIMIT)
    && forall k :: p <= k < |b| ==> m[k] <= b[k]
  }

  ghost predicate LightBelow(w0: seq<nat>, b: seq<int>, total: nat) {
    |b| == |w0| && forall k :: 0 <= k < |b| && 0 <= b[k] < LIMIT ==>
      HuffmanBound.Weighted(w0[k], MinRedundancy.Fib(b[k] + 1)) <= total
  }

  lemma {:induction false} CostGrown(w0: seq<nat>, b: seq<int>, m: seq<int>, p: nat, total: nat, k: nat)
    requires Grown(b, m, p) && LightBelow(w0, b, total) && k <= |b|
    ensures 540 * MinRedundancy.CostTo(w0, m, k) <=
      540 * MinRedundancy.CostTo(w0, b, k) + total * FreedTo(b, if k < p then k else p)
  {
    hide HuffmanBound.Weighted, Freed, MinRedundancy.Fib;
    if k > 0 {
      CostGrown(w0, b, m, p, total, k - 1);
      if k <= p {
        FullLength(w0[k - 1], b[k - 1], m[k - 1], total);
        assert total * (FreedTo(b, k - 1) + Freed(b[k - 1])) == total * FreedTo(b, k - 1) + total * Freed(b[k - 1]);
      } else {
        HuffmanBound.Cheaper(w0[k - 1], b[k - 1], m[k - 1]);
      }
    }
  }

  lemma {:induction false} ClampCheaper(w0: seq<nat>, a: seq<int>, k: nat)
    requires |a| == |w0| && k <= |a| && forall j :: 0 <= j < |a| ==> a[j] >= 0
    ensures MinRedundancy.CostTo(w0, Clamp(a), k) <= MinRedundancy.CostTo(w0, a, k)
  {
    hide HuffmanBound.Weighted;
    if k > 0 {
      ClampCheaper(w0, a, k - 1);
      HuffmanBound.Cheaper(w0[k - 1], a[k - 1], Clamp(a)[k - 1]);
    }
  }

  /** Codes that were not touched keep their ranks. */
  lemma {:induction false} Untouched(b: seq<int>, m: seq<int>, c: seq<int>, num: seq<int>, at: nat, k: nat)
    requires InOrder(b, c, LIMIT) && InOrder(m, num, LIMIT) && |m| == |b| && Repaid(c, num, LIMIT, |b|, at)
    requires k < |b| && k >= |b| - Codes(num, at) && 1 <= b[k]
    ensures m[k] <= b[k]
  {
    hide Codes, Spare;
    assert m[k] <= at;
    if b[k] < at { SameTaken(c, num, b[k]); }
  }

  lemma {:induction false} ClampLight(w0: seq<nat>, a: seq<int>)
    requires MinRedundancy.Light(w0, a)
    ensures |a| == |w0| && LightBelow(w0, Clamp(a), MinRedundancy.SumFrom(w0, 0))
  {
    hide HuffmanBound.Weighted, MinRedundancy.Fib, MinRedundancy.SumFrom;
  }

  /** Limiting a minimum-redundancy code of `n` symbols lengthens it by at most `n` / 270 bits per occurrence. */
  lemma {:induction false} LimitingCost(w0: seq<nat>, a: seq<int>, m: seq<int>, num0: seq<int>, num: seq<int>, at: nat)
    requires MinRedundancy.Light(w0, a) && (forall k :: 0 <= k < |a| ==> a[k] >= 1) && InOrder(a, num0, 32)
    requires Histogram(num0) && Codes(num0, 32) == |a| && Histogram(num) && Codes(num, LIMIT) == |a|
    requires |m| == |a| && (forall k :: 0 <= k < |m| ==> 0 <= m[k] <= LIMIT) && InOrder(m, num, LIMIT)
    requires Repaid(Cut(num0, LIMIT), num, LIMIT, |a|, at)
    ensures 270 * MinRedundancy.CostTo(w0, m, |a|) <= 270 * MinRedundancy.CostTo(w0, a,
      |a|) + |a| * MinRedundancy.SumFrom(w0, 0)
  {
    hide MinRedundancy.SumFrom, MinRedundancy.CostTo, MinRedundancy.Light, Codes, Cut, Spare, InOrder, LightBelow,
      FreedTo;
    var b, c, total, n := Clamp(a), Cut(num0, LIMIT), MinRedundancy.SumFrom(w0, 0), |a|;
    ClampInOrder(a, num0);
    CutHistogram(num0);
    CutCodes(num0, LIMIT);
    FreedTouched(b, c, num, at);
    var p := n - Codes(num, at);
    forall k | p <= k < n ensures m[k] <= b[k] { Untouched(b, m, c, num, at, k); }
    ClampLight(w0, a);
    CostGrown(w0, b, m, p, total, n);
    ClampCheaper(w0, a, n);
    assert total * FreedTo(b, p) <= total * (2 * n);
    assert total * (2 * n) == 2 * (n * total);
  }

  lemma {:induction false} CutHistogram(num: seq<int>)
    requires Histogram(num)
    ensures Histogram(Cut(num, LIMIT))
  {
    CodesMono(num, LIMIT, 32);
  }
}
