/**
 * Forcing a complete prefix code under a longest length: codes that are too long are cut to the limit, and the
 * excess code space is then paid back by lengthening short codes one at a time.
 */
module LimitLengths {
  import opened Bits

  const MAX_SUPPORTED := 32

  /** A histogram: `num[k]` codes of length `k`, for lengths 1 to 32. */
  ghost predicate Histogram(num: seq<int>) {
    |num| == MAX_SUPPORTED + 1 && forall k :: 0 <= k < |num| ==> num[k] >= 0
  }

  /** Code space taken by the codes of length at most `i`, in units of one code of length `i`. */
  ghost function Taken(num: seq<int>, i: nat): (v: int)
    requires i < |num|
  {
    if i == 0 then 0 else 2 * Taken(num, i - 1) + num[i]
  }

  /** Number of codes of length at most `i`. */
  ghost function Codes(num: seq<int>, i: nat): (v: int)
    requires i < |num|
  {
    if i == 0 then 0 else Codes(num, i - 1) + num[i]
  }

  lemma {:induction false} SameTaken(a: seq<int>, b: seq<int>, i: nat)
    requires i < |a| == |b| && forall k :: 1 <= k <= i ==> a[k] == b[k]
    ensures Taken(a, i) == Taken(b, i) && Codes(a, i) == Codes(b, i)
  {
    if i > 0 { SameTaken(a, b, i - 1); }
  }

  lemma {:induction false} CodesMono(num: seq<int>, i: nat, j: nat)
    requires Histogram(num) && i <= j < |num|
    ensures 0 <= Codes(num, i) <= Codes(num, j) && Taken(num, i) >= 0
    decreases j
  {
    if j == 0 { } else if i < j { CodesMono(num, i, j - 1); } else { CodesMono(num, i - 1, j - 1); }
  }

  /**
   * In a complete code the space above length `i` is exactly what the longer codes fill: there are at least as many
   * of them as free slots of length `i`, and a free slot if there is any of them.
   */
  lemma {:induction false} LongerFill(num: seq<int>, i: nat)
    requires Histogram(num) && i <= 32 && Taken(num, 32) == Pow2(32)
    ensures 0 <= Pow2(i) - Taken(num, i) <= Codes(num, 32) - Codes(num, i)
    ensures Codes(num, 32) > Codes(num, i) ==> Pow2(i) > Taken(num, i)
    decreases 32 - i
  {
    if i < 32 {
      LongerFill(num, i + 1);
      assert Taken(num, i + 1) == 2 * Taken(num, i) + num[i + 1];
      assert Codes(num, i + 1) == Codes(num, i) + num[i + 1];
      assert Pow2(i + 1) == 2 * Pow2(i);
    }
  }

  /** One code of length `i` becomes two of length `i + 1`. */
  ghost function Split(num: seq<int>, i: nat): (b: seq<int>)
    requires 1 <= i < |num| - 1
  {
    num[i := num[i] - 1][i + 1 := num[i + 1] + 2]
  }

  ghost function Drop(num: seq<int>, m: nat): (b: seq<int>)
    requires 1 <= m < |num|
  {
    num[m := num[m] - 1]
  }

  ghost function Cut(num: seq<int>, max: nat): (b: seq<int>)
    requires |num| == 33 && max <= 32
  {
    num[max := num[max] + (Codes(num, 32) - Codes(num, max))]
  }

  lemma {:induction false} SplitCode(num: seq<int>, i: nat, m: nat)
    requires 1 <= i < m < |num|
    ensures Taken(Split(num, i), m) == Taken(num, m) && Codes(Split(num, i), m) == Codes(num, m) + 1
    decreases m
  {
    var b := Split(num, i);
    if i + 1 < m {
      SplitCode(num, i, m - 1);
    } else {
      SameTaken(num, b, i - 1);
      assert Taken(b, i) == Taken(num, i) - 1 && Codes(b, i) == Codes(num, i) - 1;
    }
  }

  lemma {:induction false} DropCode(num: seq<int>, m: nat)
    requires 1 <= m < |num|
    ensures Taken(Drop(num, m), m) == Taken(num, m) - 1 && Codes(Drop(num, m), m) == Codes(num, m) - 1
  {
    SameTaken(num, Drop(num, m), m - 1);
  }

  /** Between two rounds: the count is kept, and there are more longest codes than excess slots. */
  ghost predicate Paying(num: seq<int>, max: nat, n: nat, total: int) {
    && Histogram(num) && 1 <= max <= 32
    && Codes(num, max) == n && Taken(num, max) == total && total >= Pow2(max)
    && (total > Pow2(max) ==> num[max] > total - Pow2(max))
  }

  lemma {:induction false} CutTaken(num: seq<int>, max: nat)
    requires |num| == 33 && 1 <= max <= 32
    ensures Taken(Cut(num, max), max) == Taken(num, max) + (Codes(num, 32) - Codes(num, max))
    ensures Codes(Cut(num, max), max) == Codes(num, 32)
  {
    SameTaken(num, Cut(num, max), max - 1);
  }

  /** Cutting all longer codes to `max` keeps the count and never frees more space than is paid back below. */
  lemma {:induction false} Fold(num: seq<int>, max: nat, n: nat)
    requires Histogram(num) && 1 <= max <= 32 && Codes(num, 32) == n && Taken(num, 32) == Pow2(32)
    ensures Paying(Cut(num, max), max, n, Taken(Cut(num, max), max))
  {
    hide Taken, Codes, Pow2;
    CodesMono(num, max, 32);
    LongerFill(num, max);
    CutTaken(num, max);
  }

  lemma {:induction false} CutExcess(num: seq<int>, max: nat, n: nat)
    requires Histogram(num) && 1 <= max <= 32 && Codes(num, 32) == n && Taken(num, 32) == Pow2(32)
    ensures Taken(Cut(num, max), max) <= Pow2(max) + n
  {
    hide Taken, Codes, Pow2, Cut;
    CodesMono(num, max, max);
    LongerFill(num, max);
    CutTaken(num, max);
  }

  /** While space is owed some code is shorter than the limit. */
  lemma {:induction false} ShortLeft(num: seq<int>, max: nat, n: nat, total: int)
    requires Paying(num, max, n, total) && n <= Pow2(max) && total > Pow2(max)
    ensures exists k :: 1 <= k < max && num[k] > 0
  {
    if forall k :: 1 <= k < max ==> num[k] == 0 { AllLongest(num, max - 1); }
  }

  lemma {:induction false} AllLongest(num: seq<int>, i: nat)
    requires i < |num| && forall k :: 1 <= k <= i ==> num[k] == 0
    ensures Taken(num, i) == 0 && Codes(num, i) == 0
  {
    if i > 0 { AllLongest(num, i - 1); }
  }

  /** A round pays one slot back. */
  lemma {:induction false} Pay(num: seq<int>, max: nat, n: nat, total: int, i: nat)
    requires Paying(num, max, n, total) && total > Pow2(max) && 1 <= i < max && num[i] > 0
    ensures Paying(Split(Drop(num, max), i), max, n, total - 1)
  {
    hide Taken, Codes, Pow2;
    DropCode(num, max);
    SplitCode(Drop(num, max), i, max);
  }

  // ---- Which codes pay ----

  /** Code space taken by the codes of length at most `i`, in units of one code of length `m`. */
  ghost function Wide(num: seq<int>, i: nat, m: nat): (v: int)
    requires i <= m && i < |num|
    decreases m
  {
    if m == i then Taken(num, i) else 2 * Wide(num, i, m - 1)
  }

  ghost predicate NoneBetween(num: seq<int>, i: nat, m: nat) {
    forall j :: i < j < m && j < |num| ==> num[j] == 0
  }

  lemma {:induction false} NothingBetween(num: seq<int>, i: nat, m: nat)
    requires i < m < |num| && NoneBetween(num, i, m)
    ensures Taken(num, m) == Wide(num, i, m) + num[m] && Codes(num, m) == Codes(num, i) + num[m]
    decreases m
  {
    if i + 1 < m { NothingBetween(num, i, m - 1); }
  }

  /** What the codes of length at most `i` leave free is a whole number of codes of length `i`. */
  lemma {:induction false} WideGap(num: seq<int>, i: nat, m: nat)
    requires i <= m && i < |num| && Wide(num, i, m) < Pow2(m)
    ensures Pow2(m - i) <= Pow2(m) - Wide(num, i, m)
    decreases m
  {
    if i < m { WideGap(num, i, m - 1); }
  }

  lemma {:induction false} WideLess(num: seq<int>, b: seq<int>, i: nat, m: nat)
    requires 1 <= i <= m && i < |num| == |b| && b[i] == num[i] - 1 && forall k :: 1 <= k < i ==> b[k] == num[k]
    ensures Wide(b, i, m) == Wide(num, i, m) - Pow2(m - i) && Codes(b, i) == Codes(num, i) - 1
    decreases m
  {
    if i < m { WideLess(num, b, i, m - 1); } else { SameTaken(num, b, i - 1); }
  }

  lemma {:induction false} WideSame(num: seq<int>, b: seq<int>, i: nat, m: nat)
    requires i <= m && i < |num| == |b| && forall k :: 1 <= k <= i ==> b[k] == num[k]
    ensures Wide(b, i, m) == Wide(num, i, m) && Codes(b, i) == Codes(num, i)
    decreases m
  {
    if i < m { WideSame(num, b, i, m - 1); } else { SameTaken(num, b, i); }
  }

  /** The space set free if all but the codes of length at most `i` left in `num` had the full length. */
  ghost function Spare(c: seq<int>, num: seq<int>, max: nat, n: nat, i: nat): (v: int)
    requires i <= max < |num| == |c|
  {
    Taken(c, max) - n - (Wide(num, i, max) - Codes(num, i))
  }

  /** From `c` to `num` no code shorter than `i` was touched, of length `i` there are not more than before, and all of
      the touched codes together could not free more than two slots for each code there is. */
  ghost predicate Repaid(c: seq<int>, num: seq<int>, max: nat, n: nat, i: nat) {
    && |c| == |num| && 1 <= i <= max < |num| && (forall k :: 1 <= k < i ==> num[k] == c[k]) && num[i] <= c[i]
    && Spare(c, num, max, n, i) <= 2 * n
  }

  lemma {:induction false} RepaidNone(c: seq<int>, max: nat, n: nat)
    requires 1 <= max < |c| && Codes(c, max) == n
    ensures Repaid(c, c, max, n, max)
  {
  }

  /** The deepest code left is split: its length becomes the new bound. */
  lemma {:induction false} RepaidAt(c: seq<int>, num: seq<int>, max: nat, n: nat, total: int, i: nat)
    requires Paying(num, max, n, total) && Pow2(max) < total && |c| == |num| && Taken(c, max) <= Pow2(max) + n
    requires 1 <= i < max && NoneBetween(num, i, max) && (forall k :: 1 <= k <= i ==> num[k] <= c[k])
    requires forall k :: 1 <= k < i ==> num[k] == c[k]
    ensures Repaid(c, Split(Drop(num, max), i), max, n, i)
  {
    hide Taken, Codes, Wide, Pow2;
    var b := Split(Drop(num, max), i);
    NothingBetween(num, i, max);
    CodesPositive(num, i);
    WideGap(num, i, max);
    WideLess(num, b, i, max);
  }

  lemma {:induction false} CodesPositive(num: seq<int>, i: nat)
    requires Histogram(num) && i < |num|
    ensures Codes(num, i) >= 0
  {
    CodesMono(num, i, i);
  }

  /** A round keeps the account, at the length just split if that is shorter. */
  lemma {:induction false} RepaidRound(c: seq<int>, num: seq<int>, max: nat, n: nat, total: int, i: nat, at: nat)
    requires Paying(num, max, n, total) && Pow2(max) < total && 1 <= i < max && NoneBetween(num, i, max)
    requires Repaid(c, num, max, n, at) && Taken(c, max) <= Pow2(max) + n
    ensures Repaid(c, Split(Drop(num, max), i), max, n, if i < at then i else at)
  {
    hide Taken, Codes, Wide, Pow2;
    if i <= at {
      RepaidAt(c, num, max, n, total, i);
    } else {
      WideSame(num, Split(Drop(num, max), i), at, max);
    }
  }

  /** Lengthens the longest code that is shorter than `max`. */
  method Lengthen(num: array<int>, max: nat) returns (ghost i: nat)
    requires num.Length == 33 && 1 <= max <= 32 && exists k :: 1 <= k < max && num[k] > 0
    modifies num
    ensures 1 <= i < max && old(num[i]) != 0 && num[..] == Split(old(num[..]), i)
    ensures NoneBetween(old(num[..]), i, max)
  {
    var k := max - 1;
    while k > 0
      invariant 0 <= k < max && forall j :: k < j < max ==> num[j] == 0
      invariant num[..] == old(num[..])
    {
      if num[k] != 0 {
        num[k] := num[k] - 1;
        num[k + 1] := num[k + 1] + 2;
        return k;
      }
      k := k - 1;
    }
  }

  /** One round of paying back: drops a longest code and splits a shorter one. */
  method Round(num: array<int>, max: nat, ghost n: nat, ghost total: int, ghost c: seq<int>, ghost at: nat)
      returns (ghost at': nat)
    requires num.Length == 33 && Paying(num[..], max, n, total) && n <= Pow2(max) && total > Pow2(max)
    requires Repaid(c, num[..], max, n, at) && Taken(c, max) <= Pow2(max) + n
    modifies num
    ensures Paying(num[..], max, n, total - 1) && Repaid(c, num[..], max, n, at')
  {
    hide Taken, Codes, Pow2, Split, Repaid;
    ghost var was := num[..];
    ShortLeft(was, max, n, total);
    ghost var k :| 1 <= k < max && was[k] > 0;
    num[max] := num[max] - 1;
    ghost var mid := num[..];
    assert mid == Drop(was, max);
    assert num[k] > 0;
    ghost var i := Lengthen(num, max);
    Pay(was, max, n, total, i);
    assert forall j :: 0 <= j < max ==> mid[j] == was[j];
    RepaidRound(c, was, max, n, total, i, at);
    at' := if i < at then i else at;
  }

  /** Adds up the codes longer than `max` onto `max`. */
  method CutLong(num: array<int>, max: nat)
    requires num.Length == 33 && Histogram(num[..]) && 1 <= max <= 32
    modifies num
    ensures num[..] == Cut(old(num[..]), max)
  {
    ghost var was := num[..];
    var i := max + 1;
    while i <= MAX_SUPPORTED
      invariant max < i <= 33
      invariant num[..] == was[max := was[max] + (Codes(was, i - 1) - Codes(was, max))]
    {
      num[max] := num[max] + num[i];
      i := i + 1;
    }
  }

  /** The space taken, added up from the longest codes with shifts. */
  method Total(num: array<int>, max: nat) returns (total: nat)
    requires num.Length == 33 && Histogram(num[..]) && 1 <= max <= 32
    ensures total == Taken(num[..], max)
  {
    total := 0;
    var i := max;
    CodesMono(num[..], max, max);
    while i > 0
      invariant 0 <= i <= max
      invariant total + Shl(Space(num[..], i), max - i) == Taken(num[..], max)
    {
      CodesMono(num[..], i - 1, i - 1);
      ShlAdd(2 * Space(num[..], i - 1), num[i], max - i);
      ShlDouble(Space(num[..], i - 1), max - i);
      total := total + Shl(num[i], max - i);
      i := i - 1;
    }
    ShlZero(max);
  }

  ghost function Space(num: seq<int>, i: nat): (v: nat)
    requires Histogram(num) && i < |num|
    ensures v == Taken(num, i)
  {
    CodesMono(num, i, i);
    Taken(num, i)
  }

  /**
   * A complete code of `n` lengths up to 32 becomes a complete code of `n` lengths up to `max`, for every `max` with
   * room for `n` codes. Only codes of some length and above are touched, and those take little of the code space. A
   * list of one code or none is left alone.
   */
  method EnforceMaxCodeSize(num: array<int>, n: nat, max: nat) returns (ghost at: nat)
    requires num.Length == 33 && Histogram(num[..]) && 1 <= max <= 32 && Codes(num[..], 32) == n <= Pow2(max)
    requires n >= 2 ==> Taken(num[..], 32) == Pow2(32)
    modifies num
    ensures n <= 1 ==> num[..] == old(num[..])
    ensures n >= 2 ==> Histogram(num[..]) && Codes(num[..], max) == n && Taken(num[..], max) == Pow2(max)
    ensures n >= 2 ==> Repaid(Cut(old(num[..]), max), num[..], max, n, at)
  {
    at := max;
    if n <= 1 { return; }
    hide Taken, Codes, Pow2, Cut, Repaid;
    Fold(num[..], max, n);
    CutLong(num, max);
    ghost var c := num[..];
    RepaidNone(c, max, n);
    CutExcess(old(num[..]), max, n);
    var total := Total(num, max);
    while total != Pow2(max)
      invariant Paying(num[..], max, n, total) && Repaid(c, num[..], max, n, at)
      decreases total
    {
      at := Round(num, max, n, total, c, at);
      total := total - 1;
    }
  }
}
