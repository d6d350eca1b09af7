/** The two-pass byte-wise sort of symbol counts that feeds the code-length computation. */
module RadixSort {

  datatype SymFreq = SymFreq(key: nat, index: nat)

  predicate Keys16(s: seq<SymFreq>) {
    forall i :: 0 <= i < |s| ==> s[i].key < 65536
  }

  function Digit(x: SymFreq, pass: nat): (d: nat)
    ensures d < 256
  {
    if pass == 0 then x.key % 256 else (x.key / 256) % 256
  }

  /** The part of a key that passes before `pass` have looked at. */
  function Seen(x: SymFreq, pass: nat): (v: nat) {
    if pass == 0 then 0 else if pass == 1 then x.key % 256 else x.key
  }

  ghost predicate Ordered(s: seq<SymFreq>, pass: nat) {
    forall i, j :: 0 <= i <= j < |s| ==> Seen(s[i], pass) <= Seen(s[j], pass)
  }

  /** The elements with digit `c` among the first `n`, in their order. */
  ghost function Bucket(s: seq<SymFreq>, n: nat, pass: nat, c: nat): (b: seq<SymFreq>)
    requires n <= |s|
  {
    if n == 0 then []
    else if Digit(s[n - 1], pass) == c then Bucket(s, n - 1, pass, c) + [s[n - 1]]
    else Bucket(s, n - 1, pass, c)
  }

  /** The buckets `0` to `c - 1`, one after the other. */
  ghost function Buckets(s: seq<SymFreq>, pass: nat, c: nat): (b: seq<SymFreq>)
  {
    if c == 0 then [] else Buckets(s, pass, c - 1) + Bucket(s, |s|, pass, c - 1)
  }

  ghost function Start(s: seq<SymFreq>, pass: nat, c: nat): (v: nat)
  {
    |Buckets(s, pass, c)|
  }

  // ---- A pass sorts by one more digit and loses nothing ----

  lemma {:induction false} BucketSorted(s: seq<SymFreq>, n: nat, pass: nat, c: nat)
    requires n <= |s| && Ordered(s, pass)
    ensures Ordered(Bucket(s, n, pass, c), pass)
    ensures forall x :: x in Bucket(s, n, pass, c) ==> Digit(x, pass) == c && x in s[..n]
    ensures n > 0 ==> forall x :: x in Bucket(s, n, pass, c) ==> Seen(x, pass) <= Seen(s[n - 1], pass)
  {
    if n > 0 {
      BucketSorted(s, n - 1, pass, c);
      var b := Bucket(s, n - 1, pass, c);
      assert s[..n] == s[..n - 1] + [s[n - 1]];
      forall x | x in b ensures Seen(x, pass) <= Seen(s[n - 1], pass) {
        if n > 1 { assert Seen(s[n - 2], pass) <= Seen(s[n - 1], pass); }
      }
    }
  }

  lemma {:induction false} SeenStep(x: SymFreq, y: SymFreq, pass: nat)
    requires pass < 2 && x.key < 65536 && y.key < 65536
    ensures Digit(x, pass) < Digit(y, pass) ==> Seen(x, pass + 1) <= Seen(y, pass + 1)
    ensures Digit(x, pass) == Digit(y, pass) && Seen(x, pass) <= Seen(y, pass) ==>
      Seen(x, pass + 1) <= Seen(y, pass + 1)
  {
  }

  lemma {:induction false} BucketOrdered(b: seq<SymFreq>, pass: nat, c: nat)
    requires pass < 2 && Keys16(b) && Ordered(b, pass) && forall x :: x in b ==> Digit(x, pass) == c
    ensures Ordered(b, pass + 1)
  {
    forall i, j | 0 <= i <= j < |b| ensures Seen(b[i], pass + 1) <= Seen(b[j], pass + 1) {
      SeenStep(b[i], b[j], pass);
    }
  }

  lemma {:induction false} AppendOrdered(a: seq<SymFreq>, b: seq<SymFreq>, pass: nat, c: nat)
    requires pass < 2 && Keys16(a) && Keys16(b) && Ordered(a, pass + 1) && Ordered(b, pass + 1)
    requires (forall x :: x in a ==> Digit(x, pass) < c) && (forall x :: x in b ==> Digit(x, pass) == c)
    ensures Ordered(a + b, pass + 1)
  {
    forall i, j | 0 <= i <= j < |a + b| ensures Seen((a + b)[i], pass + 1) <= Seen((a + b)[j], pass + 1) {
      if i < |a| <= j {
        SeenStep(a[i], b[j - |a|], pass);
      }
    }
  }

  lemma {:induction false} PassSorts(s: seq<SymFreq>, pass: nat, c: nat)
    requires pass < 2 && Keys16(s) && Ordered(s, pass) && c <= 256
    ensures Ordered(Buckets(s, pass, c), pass + 1)
    ensures forall x :: x in Buckets(s, pass, c) ==> Digit(x, pass) < c && x in s
  {
    if c > 0 {
      PassSorts(s, pass, c - 1);
      BucketSorted(s, |s|, pass, c - 1);
      assert s[..|s|] == s;
      var a, b := Buckets(s, pass, c - 1), Bucket(s, |s|, pass, c - 1);
      assert Keys16(a) by { assert forall i :: 0 <= i < |a| ==> a[i] in s; }
      assert Keys16(b) by { assert forall i :: 0 <= i < |b| ==> b[i] in s; }
      BucketOrdered(b, pass, c - 1);
      AppendOrdered(a, b, pass, c - 1);
    }
  }

  /** The elements with digit below `c` among the first `n`. */
  ghost function Smaller(s: seq<SymFreq>, n: nat, pass: nat, c: nat): (m: multiset<SymFreq>)
    requires n <= |s|
  {
    if n == 0 then multiset{}
    else if Digit(s[n - 1], pass) < c then Smaller(s, n - 1, pass, c) + multiset{s[n - 1]}
    else Smaller(s, n - 1, pass, c)
  }

  lemma {:induction false} SmallerStep(s: seq<SymFreq>, n: nat, pass: nat, c: nat)
    requires n <= |s|
    ensures Smaller(s, n, pass, c + 1) == Smaller(s, n, pass, c) + multiset(Bucket(s, n, pass, c))
  {
    if n > 0 {
      SmallerStep(s, n - 1, pass, c);
    }
  }

  lemma {:induction false} SmallerNone(s: seq<SymFreq>, n: nat, pass: nat)
    requires n <= |s|
    ensures Smaller(s, n, pass, 0) == multiset{}
    ensures Smaller(s, n, pass, 256) == multiset(s[..n])
  {
    if n > 0 {
      SmallerNone(s, n - 1, pass);
      assert s[..n] == s[..n - 1] + [s[n - 1]];
    }
  }

  lemma {:induction false} PassKeeps(s: seq<SymFreq>, pass: nat, c: nat)
    ensures multiset(Buckets(s, pass, c)) == Smaller(s, |s|, pass, c)
  {
    hide Bucket, Smaller, Digit;
    if c == 0 {
      SmallerNone(s, |s|, pass);
    } else {
      PassKeeps(s, pass, c - 1);
      SmallerStep(s, |s|, pass, c - 1);
    }
  }

  lemma {:induction false} PassPermutes(s: seq<SymFreq>, pass: nat)
    ensures multiset(Buckets(s, pass, 256)) == multiset(s) && |Buckets(s, pass, 256)| == |s|
  {
    PassKeeps(s, pass, 256);
    SmallerNone(s, |s|, pass);
    assert s[..|s|] == s;
    assert |multiset(Buckets(s, pass, 256))| == |multiset(s)|;
  }

  // ---- A pass keeps the order of equal keys ----

  /** The elements with the given key, in their order. */
  ghost function WithKey(s: seq<SymFreq>, key: nat): (r: seq<SymFreq>) {
    if s == [] then []
    else WithKey(s[..|s| - 1], key) + (if s[|s| - 1].key == key then [s[|s| - 1]] else [])
  }

  lemma {:induction false} WithKeyConcat(a: seq<SymFreq>, b: seq<SymFreq>, key: nat)
    ensures WithKey(a + b, key) == WithKey(a, key) + WithKey(b, key)
  {
    if b == [] {
      assert a + b == a;
    } else {
      assert (a + b)[..|a + b| - 1] == a + b[..|b| - 1];
      WithKeyConcat(a, b[..|b| - 1], key);
    }
  }

  lemma {:induction false} BucketStable(s: seq<SymFreq>, n: nat, pass: nat, c: nat, key: nat)
    requires n <= |s|
    ensures WithKey(Bucket(s, n, pass, c), key) == if Digit(SymFreq(key, 0), pass) == c then WithKey(s[..n], key)
      else []
  {
    if n > 0 {
      BucketStable(s, n - 1, pass, c, key);
      var b := Bucket(s, n - 1, pass, c);
      assert s[..n][..n - 1] == s[..n - 1];
      assert (b + [s[n - 1]])[..|b|] == b;
    }
  }

  lemma {:induction false} PassStable(s: seq<SymFreq>, pass: nat, c: nat, key: nat)
    ensures WithKey(Buckets(s, pass, c), key) == if Digit(SymFreq(key, 0), pass) < c then WithKey(s, key) else []
  {
    assert WithKey([], key) == [];
    hide WithKey, Bucket, Digit;
    if c > 0 {
      PassStable(s, pass, c - 1, key);
      BucketStable(s, |s|, pass, c - 1, key);
      WithKeyConcat(Buckets(s, pass, c - 1), Bucket(s, |s|, pass, c - 1), key);
      assert s[..|s|] == s;
      var w, none: seq<SymFreq> := WithKey(s, key), [];
      assert w + none == w && none + w == w && none + none == none;
    }
  }

  /** Elements with equal keys are in the same order in both. */
  ghost predicate Stable(t: seq<SymFreq>, s: seq<SymFreq>) {
    forall key: nat :: WithKey(t, key) == WithKey(s, key)
  }

  lemma {:induction false} StablePass(t: seq<SymFreq>, s: seq<SymFreq>, pass: nat)
    requires Stable(t, s)
    ensures Stable(Buckets(t, pass, 256), s)
  {
    hide WithKey, Buckets;
    forall key: nat ensures WithKey(Buckets(t, pass, 256), key) == WithKey(s, key) { PassStable(t, pass, 256, key); }
  }

  // ---- Histograms depend on the elements only ----

  lemma {:induction false} BucketConcat(a: seq<SymFreq>, b: seq<SymFreq>, n: nat, pass: nat, c: nat)
    requires n <= |b|
    ensures Bucket(a + b, |a| + n, pass, c) == Bucket(a, |a|, pass, c) + Bucket(b, n, pass, c)
  {
    if n == 0 {
      BucketPrefix(a, b, |a|, pass, c);
    } else {
      BucketConcat(a, b, n - 1, pass, c);
      assert (a + b)[|a| + n - 1] == b[n - 1];
    }
  }

  lemma {:induction false} BucketPrefix(a: seq<SymFreq>, b: seq<SymFreq>, n: nat, pass: nat, c: nat)
    requires n <= |a|
    ensures Bucket(a + b, n, pass, c) == Bucket(a, n, pass, c)
  {
    if n > 0 { BucketPrefix(a, b, n - 1, pass, c); }
  }

  ghost function One(x: SymFreq, pass: nat, c: nat): (v: nat) {
    if Digit(x, pass) == c then 1 else 0
  }

  ghost function Without(b: seq<SymFreq>, k: nat): (r: seq<SymFreq>)
    requires k < |b|
  {
    b[..k] + b[k + 1..]
  }

  lemma {:induction false} CountSplit(b0: seq<SymFreq>, x: SymFreq, b1: seq<SymFreq>, pass: nat, c: nat)
    ensures var b := b0 + ([x] + b1);
      |Bucket(b, |b|, pass, c)| == |Bucket(b0 + b1, |b0 + b1|, pass, c)| + One(x, pass, c)
  {
    BucketConcat(b0, [x] + b1, 1 + |b1|, pass, c);
    BucketConcat([x], b1, |b1|, pass, c);
    BucketConcat(b0, b1, |b1|, pass, c);
    assert Bucket([x], 0, pass, c) == [];
  }

  lemma {:induction false} WithoutCount(b: seq<SymFreq>, k: nat, pass: nat, c: nat)
    requires k < |b|
    ensures |Bucket(b, |b|, pass, c)| == |Bucket(Without(b, k), |Without(b, k)|, pass, c)| + One(b[k], pass, c)
  {
    hide Bucket, One;
    assert b == b[..k] + ([b[k]] + b[k + 1..]);
    CountSplit(b[..k], b[k], b[k + 1..], pass, c);
  }

  lemma {:induction false} WithoutElements(b: seq<SymFreq>, k: nat)
    requires k < |b|
    ensures multiset(Without(b, k)) == multiset(b) - multiset{b[k]}
  {
    assert b == b[..k] + ([b[k]] + b[k + 1..]);
  }

  lemma {:induction false} SameCount(a: seq<SymFreq>, b: seq<SymFreq>, pass: nat, c: nat)
    requires multiset(a) == multiset(b)
    ensures |Bucket(a, |a|, pass, c)| == |Bucket(b, |b|, pass, c)|
    decreases |a|
  {
    if a == [] {
      assert |multiset(b)| == 0;
    } else {
      hide Bucket, One;
      assert a[0] in multiset(b);
      var k :| 0 <= k < |b| && b[k] == a[0];
      WithoutCount(a, 0, pass, c);
      WithoutCount(b, k, pass, c);
      WithoutElements(a, 0);
      WithoutElements(b, k);
      SameCount(Without(a, 0), Without(b, k), pass, c);
    }
  }

  // ---- The sort itself ----

  function Cell(pass: nat, c: nat): (i: nat) {
    pass * 256 + c
  }

  /** Both histograms of the first `n` elements, one after the other. */
  ghost predicate Counts(hist: seq<int>, s: seq<SymFreq>, n: nat)
    requires n <= |s|
  {
    |hist| == 512 && forall pass: nat, c: nat :: pass < 2 && c < 256 ==> hist[Cell(pass, c)] == |Bucket(s, n, pass, c)|
  }

  lemma {:induction false} CountOne(hist: seq<int>, s: seq<SymFreq>, i: nat)
    requires i < |s| && Counts(hist, s, i)
    ensures var lo, hi := Cell(0, Digit(s[i], 0)), Cell(1, Digit(s[i], 1));
      Counts(hist[lo := hist[lo] + 1][hi := hist[hi] + 1], s, i + 1)
  {
    hide Digit;
  }

  method Tally(a: array<SymFreq>, n: nat) returns (hist: array<int>)
    requires n <= a.Length
    ensures fresh(hist) && Counts(hist[..], a[..n], n)
  {
    hist := new int[512](i => 0);
    ghost var s := a[..n];
    var i := 0;
    while i < n
      invariant 0 <= i <= n && hist.Length == 512 && Counts(hist[..], s, i) && s == a[..n]
    {
      hide Counts, Digit;
      var lo, hi := Digit(a[i], 0), Cell(1, Digit(a[i], 1));
      CountOne(hist[..], s, i);
      ghost var h := hist[..];
      assert s[i] == a[i];
      hist[lo] := hist[lo] + 1;
      hist[hi] := hist[hi] + 1;
      assert hist[..] == h[lo := h[lo] + 1][hi := h[hi] + 1];
      i := i + 1;
    }
  }

  lemma {:induction false} StartStep(s: seq<SymFreq>, pass: nat, c: nat)
    ensures Start(s, pass, c + 1) == Start(s, pass, c) + |Bucket(s, |s|, pass, c)|
  {
  }

  /** Where each bucket begins. */
  method Offsets(hist: array<int>, pass: nat, ghost s: seq<SymFreq>) returns (offsets: array<int>)
    requires hist.Length == 512 && pass < 2
    requires forall c: nat :: c < 256 ==> hist[Cell(pass, c)] == |Bucket(s, |s|, pass, c)|
    ensures fresh(offsets) && offsets.Length == 256
    ensures forall c :: 0 <= c < 256 ==> offsets[c] == Start(s, pass, c)
  {
    offsets := new int[256];
    var cur := 0;
    var i := 0;
    while i < 256
      invariant 0 <= i <= 256 && cur == Start(s, pass, i)
      invariant forall c :: 0 <= c < i ==> offsets[c] == Start(s, pass, c)
    {
      StartStep(s, pass, i);
      offsets[i] := cur;
      cur := cur + hist[Cell(pass, i)];
      i := i + 1;
    }
  }

  lemma {:induction false} BucketGrows(s: seq<SymFreq>, i: nat, j: nat, pass: nat, c: nat)
    requires i <= j <= |s|
    ensures Bucket(s, i, pass, c) <= Bucket(s, j, pass, c)
    decreases j
  {
    if i < j { BucketGrows(s, i, j - 1, pass, c); }
  }

  lemma {:induction false} StartMono(s: seq<SymFreq>, pass: nat, c: nat, d: nat)
    requires c <= d
    ensures Buckets(s, pass, c) <= Buckets(s, pass, d)
    decreases d
  {
    if c < d { StartMono(s, pass, c, d - 1); }
  }

  /** Position `k` of bucket `c`. */
  ghost function Pos(s: seq<SymFreq>, pass: nat, c: nat, k: nat): (p: nat) {
    Start(s, pass, c) + k
  }

  /** The first `i` elements are in their buckets. */
  ghost predicate Placed(t: seq<SymFreq>, s: seq<SymFreq>, i: nat, pass: nat)
    requires i <= |s|
  {
    forall c: nat, k: nat :: c < 256 && k < |Bucket(s, i, pass, c)| ==>
      Pos(s, pass, c, k) < |t| && t[Pos(s, pass, c, k)] == Bucket(s, i, pass, c)[k]
  }

  /** The slot of the next element lies in its own bucket and holds nothing yet. */
  lemma {:induction false} Slot(s: seq<SymFreq>, i: nat, pass: nat, c: nat, d: nat, k: nat)
    requires i < |s| && Digit(s[i], pass) == c && d < 256 && k < |Bucket(s, i, pass, d)|
    ensures Pos(s, pass, d, k) != Pos(s, pass, c, |Bucket(s, i, pass, c)|)
  {
    BucketGrows(s, i + 1, |s|, pass, c);
    BucketGrows(s, i, |s|, pass, d);
    if d < c {
      StartMono(s, pass, d + 1, c);
    } else if c < d {
      StartMono(s, pass, c + 1, d);
    }
  }

  lemma {:induction false} SlotBound(s: seq<SymFreq>, i: nat, pass: nat, c: nat)
    requires i < |s| && Digit(s[i], pass) == c
    ensures Pos(s, pass, c, |Bucket(s, i, pass, c)|) < |s|
  {
    BucketGrows(s, i + 1, |s|, pass, c);
    StartMono(s, pass, c + 1, 256);
    PassPermutes(s, pass);
  }

  lemma {:induction false} PlaceOne(t: seq<SymFreq>, s: seq<SymFreq>, i: nat, pass: nat, p: nat, d: nat, k: nat)
    requires i < |s| == |t| && Placed(t, s, i, pass)
    requires p == Pos(s, pass, Digit(s[i], pass), |Bucket(s, i, pass, Digit(s[i], pass))|) < |t|
    requires d < 256 && k < |Bucket(s, i + 1, pass, d)|
    ensures Pos(s, pass, d, k) < |t| && t[p := s[i]][Pos(s, pass, d, k)] == Bucket(s, i + 1, pass, d)[k]
  {
    hide Pos;
    if k < |Bucket(s, i, pass, d)| { Slot(s, i, pass, Digit(s[i], pass), d, k); }
  }

  lemma {:induction false} Place(t: seq<SymFreq>, s: seq<SymFreq>, i: nat, pass: nat, p: nat)
    requires i < |s| == |t| && Placed(t, s, i, pass)
    requires p == Pos(s, pass, Digit(s[i], pass), |Bucket(s, i, pass, Digit(s[i], pass))|)
    ensures p < |t| && Placed(t[p := s[i]], s, i + 1, pass)
  {
    hide Pos, Bucket;
    SlotBound(s, i, pass, Digit(s[i], pass));
    forall d: nat, k: nat | d < 256 && k < |Bucket(s, i + 1, pass, d)|
      ensures Pos(s, pass, d, k) < |t| && t[p := s[i]][Pos(s, pass, d, k)] == Bucket(s, i + 1, pass, d)[k]
    {
      PlaceOne(t, s, i, pass, p, d, k);
    }
  }

  lemma {:induction false} BucketPlaced(t: seq<SymFreq>, s: seq<SymFreq>, pass: nat, c: nat, k: nat)
    requires Placed(t, s, |s|, pass) && c < 256 && k < |Bucket(s, |s|, pass, c)|
    ensures Start(s, pass, c) + k < |t| && t[Start(s, pass, c) + k] == Bucket(s, |s|, pass, c)[k]
  {
    assert Pos(s, pass, c, k) == Start(s, pass, c) + k;
  }

  lemma {:induction false} AllPlaced(t: seq<SymFreq>, s: seq<SymFreq>, pass: nat, c: nat)
    requires Placed(t, s, |s|, pass) && c <= 256 && |t| == |s|
    ensures Buckets(s, pass, c) <= t
  {
    hide Placed, Bucket;
    if c > 0 {
      AllPlaced(t, s, pass, c - 1);
      StartMono(s, pass, c, 256);
      PassPermutes(s, pass);
      var a, b := Buckets(s, pass, c - 1), Bucket(s, |s|, pass, c - 1);
      forall k | 0 <= k < |b| ensures t[|a| + k] == b[k] {
        BucketPlaced(t, s, pass, c - 1, k);
      }
    }
  }

  lemma {:induction false} PlacedNone(t: seq<SymFreq>, s: seq<SymFreq>, pass: nat)
    ensures Placed(t, s, 0, pass)
  {
  }

  /** One pass: distributes `cur` into `dst` by the digit, keeping the order within a digit. */
  method Distribute(cur: array<SymFreq>, dst: array<SymFreq>, n: nat, pass: nat, offsets: array<int>)
    requires n <= cur.Length && n <= dst.Length && cur != dst && offsets.Length == 256 && pass < 2
    requires forall c :: 0 <= c < 256 ==> offsets[c] == Start(cur[..n], pass, c)
    modifies dst, offsets
    ensures dst[..n] == Buckets(cur[..n], pass, 256)
  {
    hide Buckets, Placed, Start;
    ghost var s := cur[..n];
    var i := 0;
    PlacedNone(dst[..n], s, pass);
    while i < n
      invariant 0 <= i <= n && cur[..n] == s
      invariant Placed(dst[..n], s, i, pass)
      invariant forall c :: 0 <= c < 256 ==> offsets[c] == Pos(s, pass, c, |Bucket(s, i, pass, c)|)
    {
      var c := Digit(cur[i], pass);
      assert cur[i] == s[i];
      Place(dst[..n], s, i, pass, offsets[c]);
      ghost var was := dst[..n];
      dst[offsets[c]] := cur[i];
      assert dst[..n] == was[offsets[c] := s[i]];
      offsets[c] := offsets[c] + 1;
      i := i + 1;
    }
    AllPlaced(dst[..n], s, pass, 256);
    PassPermutes(s, pass);
  }

  /** If every key is below 256 the order by the low byte is the order by key. */
  lemma {:induction false} NoHighBytes(s: seq<SymFreq>, n: nat)
    requires n <= |s| && Keys16(s)
    ensures |Bucket(s, n, 1, 0)| <= n
    ensures |Bucket(s, n, 1, 0)| == n ==> forall i :: 0 <= i < n ==> s[i].key < 256
  {
    if n > 0 { NoHighBytes(s, n - 1); }
  }

  /** After `pass` passes: the same elements, ordered by the digits seen so far, equal keys as they were. */
  ghost predicate Sorting(t: seq<SymFreq>, s: seq<SymFreq>, pass: nat) {
    |t| == |s| && multiset(t) == multiset(s) && Keys16(t) && Ordered(t, pass) && Stable(t, s)
  }

  lemma {:induction false} SortPass(t: seq<SymFreq>, s: seq<SymFreq>, pass: nat)
    requires Sorting(t, s, pass) && pass < 2
    ensures Sorting(Buckets(t, pass, 256), s, pass + 1)
  {
    hide Stable;
    PassSorts(t, pass, 256);
    PassPermutes(t, pass);
    StablePass(t, s, pass);
    var b := Buckets(t, pass, 256);
    forall i | 0 <= i < |b| ensures b[i].key < 65536 { assert b[i] in t; }
  }

  lemma {:induction false} SmallKeys(t: seq<SymFreq>, s: seq<SymFreq>)
    requires Sorting(t, s, 1) && forall i :: 0 <= i < |s| ==> s[i].key < 256
    ensures Sorting(t, s, 2)
  {
    hide Stable;
    forall i | 0 <= i < |t| ensures t[i].key < 256 {
      assert t[i] in multiset(t);
      assert t[i] in s;
    }
  }

  /**
   * Sorts the first `n` elements by key, using the second array as scratch; returns the array that holds the result.
   */
  method Sort(a0: array<SymFreq>, a1: array<SymFreq>, n: nat) returns (cur: array<SymFreq>)
    requires a0 != a1 && n <= a0.Length && n <= a1.Length && Keys16(a0[..n])
    modifies a0, a1
    ensures cur == a0 || cur == a1
    ensures multiset(cur[..n]) == multiset(old(a0[..n]))
    ensures forall i, j :: 0 <= i <= j < n ==> cur[i].key <= cur[j].key
    ensures Stable(cur[..n], old(a0[..n]))
  {
    hide Stable, Counts, Bucket, Buckets, Start, Sorting, Digit, Keys16;
    ghost var s := a0[..n];
    var hist := Tally(a0, n);
    ghost var tally := hist[..];
    FirstCell(tally, s);
    var total := if hist[256] == n then 1 else 2;
    cur := a0;
    var dst := a1;
    var pass := 0;
    StartSorting(s);
    while pass < total
      invariant 0 <= pass <= total && {cur, dst} == {a0, a1} && cur != dst
      invariant Sorting(cur[..n], s, pass) && hist[..] == tally
    {
      CountsKept(cur[..n], s, pass, tally);
      var offsets := Offsets(hist, pass, cur[..n]);
      SortPass(cur[..n], s, pass);
      Distribute(cur, dst, n, pass, offsets);
      cur, dst := dst, cur;
      pass := pass + 1;
    }
    if total == 1 { SmallKeys(cur[..n], s); }
    SortedKeys(cur[..n], s);
  }

  lemma {:induction false} StartSorting(s: seq<SymFreq>)
    requires Keys16(s)
    ensures Sorting(s, s, 0)
  {
  }

  lemma {:induction false} SortedKeys(t: seq<SymFreq>, s: seq<SymFreq>)
    requires Sorting(t, s, 2)
    ensures multiset(t) == multiset(s) && Stable(t, s) && forall i, j :: 0 <= i <= j < |t| ==> t[i].key <= t[j].key
  {
    hide Stable;
    forall i, j | 0 <= i <= j < |t| ensures t[i].key <= t[j].key {
      assert Seen(t[i], 2) <= Seen(t[j], 2);
    }
  }

  lemma {:induction false} CountsKept(t: seq<SymFreq>, s: seq<SymFreq>, pass: nat, hist: seq<int>)
    requires Sorting(t, s, pass) && pass < 2 && Counts(hist, s, |s|)
    ensures |hist| == 512 && forall c: nat :: c < 256 ==> hist[Cell(pass, c)] == |Bucket(t, |t|, pass, c)|
  {
    hide Bucket, Stable;
    forall c: nat | c < 256 ensures hist[Cell(pass, c)] == |Bucket(t, |t|, pass, c)| { SameCount(t, s, pass, c); }
  }

  lemma {:induction false} FirstCell(hist: seq<int>, s: seq<SymFreq>)
    requires Counts(hist, s, |s|) && Keys16(s)
    ensures |hist| == 512
    ensures hist[256] == |s| ==> forall i :: 0 <= i < |s| ==> s[i].key < 256
  {
    hide Bucket;
    NoHighBytes(s, |s|);
    assert hist[Cell(1, 0)] == |Bucket(s, |s|, 1, 0)|;
  }
}
