/**
 * How long blocks get: whatever the code buffer holds, its block fits the output buffer with what a flush adds to it.
 */
module BlockSize {
  import opened Bits
  import opened Canonical
  import opened LzTokens
  import opened Blocks
  import opened CodeCost
  import opened DynamicHeader
  import HuffmanBound
  import CodeLens
  import LzBuffer

  // ---- What the code buffer has room for ----

  /** Eighths of a byte a token takes in the code buffer, with its flag. */
  function Eighths(t: Token): (n: nat) {
    if t.Match? then 25 else 9
  }

  ghost function EighthsOf(ts: seq<Token>, i: nat, j: nat): (n: nat)
    requires i <= j <= |ts|
    decreases j
  {
    if i == j then 0 else EighthsOf(ts, i, j - 1) + Eighths(ts[j - 1])
  }

  lemma {:induction false} EighthsSplit(ts: seq<Token>, i: nat, j: nat, k: nat)
    requires i <= j <= k <= |ts|
    ensures EighthsOf(ts, i, k) == EighthsOf(ts, i, j) + EighthsOf(ts, j, k)
    decreases k
  {
    if j < k { EighthsSplit(ts, i, j, k - 1); }
  }

  lemma {:induction false} PayloadsSize(ts: seq<Token>, i: nat, j: nat)
    requires i <= j <= |ts| && LzBuffer.AllOk(ts)
    ensures 8 * |LzBuffer.Payloads(ts, i, j)| + (j - i) == EighthsOf(ts, i, j)
    decreases j
  {
    hide LzBuffer.Payload;
    if i < j { PayloadsSize(ts, i, j - 1); LzBuffer.PayloadSize(ts[j - 1]); }
  }

  lemma {:induction false} GroupsSize(ts: seq<Token>, g: nat)
    requires LzBuffer.AllOk(ts) && 8 * g <= |ts|
    ensures 8 * |LzBuffer.Groups(ts, g)| == EighthsOf(ts, 0, 8 * g)
  {
    hide LzBuffer.Payloads, LzBuffer.Flags;
    if g > 0 {
      GroupsSize(ts, g - 1);
      PayloadsSize(ts, 8 * (g - 1), 8 * g);
      EighthsSplit(ts, 0, 8 * (g - 1), 8 * g);
    }
  }

  lemma {:induction false} SealedSize(buf: seq<Byte>, ts: seq<Token>, g: nat, code: nat)
    requires LzBuffer.Sealed(buf, ts, g, code)
    ensures EighthsOf(ts, 0, |ts|) <= 8 * LzBuffer.SIZE
  {
    hide LzBuffer.Groups, LzBuffer.Payloads, LzBuffer.Flags;
    GroupsSize(ts, g);
    PayloadsSize(ts, 8 * g, |ts|);
    EighthsSplit(ts, 0, 8 * g, |ts|);
    assert |buf[..code]| == code;
  }

  // ---- A fixed body ----

  /**
   * In a fixed block a literal takes at most 9 bits and a match at most 31, which is 1.24 bits for every eighth of a
   * byte in the code buffer. The 320 are for what limiting the lengths of a code of its own may add.
   */
  lemma {:induction false} FixedToken(t: Token)
    requires Writable(FixedLit(), FixedDist(), t)
    ensures |TokenBits(FixedLit(), FixedDist(), t)| <= if t.Match? then 31 else 9
    ensures 25 * (270 * |TokenBits(FixedLit(), FixedDist(), t)| + 320) <= 8690 * Eighths(t)
  {
    hide FixedLit, FixedDist, TokenBits, LenSym, DistSym, LenExtra, DistExtra;
    TokenCost(FixedLit(), FixedDist(), t);
    if t.Match? {
      LenRoundTrip(t.len - 3);
      DistRoundTrip(t.dist - 1);
    }
  }

  lemma {:induction false} FixedBody(ts: seq<Token>, i: nat)
    requires AllWritable(FixedLit(), FixedDist(), ts) && i <= |ts|
    ensures 25 * (270 * |BlockBits(FixedLit(), FixedDist(), ts, i)| + 320 * (|ts| - i))
      <= 8690 * EighthsOf(ts, i, |ts|) + 60750
    decreases |ts| - i
  {
    hide FixedLit, FixedDist, TokenBits, Writable;
    if i < |ts| {
      FixedBody(ts, i + 1);
      FixedToken(ts[i]);
      EighthsSplit(ts, i, i + 1, |ts|);
      assert EighthsOf(ts, i, i + 1) == EighthsOf(ts, i, i) + Eighths(ts[i]);
    }
  }

  /** All tokens can be written with the fixed codes. */
  lemma {:induction false} FixedWrites(ts: seq<Token>)
    requires LzBuffer.AllOk(ts)
    ensures AllWritable(FixedLit(), FixedDist(), ts)
  {
    hide FixedLit, FixedDist;
    forall i | 0 <= i < |ts| ensures Writable(FixedLit(), FixedDist(), ts[i]) {
      if ts[i].Match? {
        LenRoundTrip(ts[i].len - 3);
        DistRoundTrip(ts[i].dist - 1);
      }
      hide LenSym, DistSym;
    }
  }

  // ---- A body is the cost of its codes, and the extra bits ----

  function Extra(t: Token): (n: nat) {
    if t.Match? && t.len >= 3 && t.dist >= 1 then LenExtra(t.len - 3) + DistExtra(t.dist - 1) else 0
  }

  ghost function ExtraTo(ts: seq<Token>, n: nat): (v: nat)
    requires n <= |ts|
  {
    if n == 0 then 0 else ExtraTo(ts, n - 1) + Extra(ts[n - 1])
  }

  ghost function BitsTo(L0: seq<nat>, L1: seq<nat>, ts: seq<Token>, n: nat): (v: nat)
    requires AllWritable(L0, L1, ts) && n <= |ts|
  {
    if n == 0 then 0 else BitsTo(L0, L1, ts, n - 1) + |TokenBits(L0, L1, ts[n - 1])|
  }

  lemma {:induction false} BodyBits(L0: seq<nat>, L1: seq<nat>, ts: seq<Token>, i: nat)
    requires AllWritable(L0, L1, ts) && i <= |ts|
    ensures |BlockBits(L0, L1, ts, i)| + BitsTo(L0, L1, ts, i) == BitsTo(L0, L1, ts, |ts|) + L0[END_OF_BLOCK]
    decreases |ts| - i
  {
    hide TokenBits, Writable;
    if i < |ts| { BodyBits(L0, L1, ts, i + 1); }
  }

  /** One more occurrence costs one more code. */
  lemma {:induction false} CostInc(c: seq<nat>, L: seq<nat>, p: nat)
    requires |L| == |c| && p < |c|
    ensures CostOf(c[p := c[p] + 1], L) == CostOf(c, L) + L[p]
  {
    var v, u := Products(c, L), Products(c[p := c[p] + 1], L);
    OneMoreTime(c[p], L[p]);
    hide HuffmanBound.Weighted, Total;
    assert u == v[p := v[p] + L[p]];
    TotalInc(v, p, |L|, L[p]);
  }

  lemma {:induction false} OneMoreTime(n: nat, l: nat)
    ensures HuffmanBound.Weighted(n + 1, l) == HuffmanBound.Weighted(n, l) + l && HuffmanBound.Weighted(0, l) == 0
  {
  }

  lemma {:induction false} NoCost(c: seq<nat>, L: seq<nat>)
    requires |L| == |c| && forall s :: 0 <= s < |c| ==> c[s] == 0
    ensures CostOf(c, L) == 0
  {
    forall s | 0 <= s < |L| ensures Products(c, L)[s] == 0 { OneMoreTime(c[s], L[s]); }
    TotalNone(Products(c, L), |L|);
  }

  lemma {:induction false} TokenCost(L0: seq<nat>, L1: seq<nat>, t: Token)
    requires Writable(L0, L1, t)
    ensures LzBuffer.Sym0(t) < 288
    ensures |TokenBits(L0, L1, t)| == L0[LzBuffer.Sym0(t)] + (if t.Match? then L1[DistSym(t.dist - 1)]
      else 0) + Extra(t)
  {
    hide LenSym, DistSym, LenExtra, DistExtra, Low;
  }

  lemma {:induction false} CountsNext(ts: seq<Token>, n: nat)
    requires LzBuffer.AllOk(ts) && n < |ts|
    ensures var p := LzBuffer.Sym0(ts[n]); Counts0(ts, n + 1) == Counts0(ts, n)[p := Counts0(ts, n)[p] + 1]
    ensures !ts[n].Match? ==> Counts1(ts, n + 1) == Counts1(ts, n)
    ensures ts[n].Match? ==> DistSym(ts[n].dist - 1) < 32
    ensures ts[n].Match? ==>
      var p := DistSym(ts[n].dist - 1);
      Counts1(ts, n + 1) == Counts1(ts, n)[p := Counts1(ts, n)[p] + 1]
  {
    hide Counts0, Counts1, LzBuffer.Sym0;
    if ts[n].Match? { DistRoundTrip(ts[n].dist - 1); }
    hide DistSym;
  }

  /** What one more token adds to the cost of both codes. */
  lemma {:induction false} CostNext(L0: seq<nat>, L1: seq<nat>, ts: seq<Token>, n: nat)
    requires |L0| == 288 && |L1| == 32 && LzBuffer.AllOk(ts) && n < |ts| && Writable(L0, L1, ts[n])
    ensures CostOf(Counts0(ts, n + 1), L0) + CostOf(Counts1(ts, n + 1), L1) + Extra(ts[n])
      == CostOf(Counts0(ts, n), L0) + CostOf(Counts1(ts, n), L1) + |TokenBits(L0, L1, ts[n])|
  {
    hide CostOf, Counts0, Counts1, LzBuffer.Sym0, Extra, TokenBits, DistSym, Writable;
    CountsNext(ts, n);
    TokenCost(L0, L1, ts[n]);
    CostInc(Counts0(ts, n), L0, LzBuffer.Sym0(ts[n]));
    if ts[n].Match? { CostInc(Counts1(ts, n), L1, DistSym(ts[n].dist - 1)); }
  }

  lemma {:induction false} CostNone(L0: seq<nat>, L1: seq<nat>, ts: seq<Token>)
    requires |L0| == 288 && |L1| == 32 && LzBuffer.AllOk(ts)
    ensures CostOf(Counts0(ts, 0), L0) + CostOf(Counts1(ts, 0), L1) == 0
  {
    hide CostOf;
    NoCost(Counts0(ts, 0), L0);
    NoCost(Counts1(ts, 0), L1);
  }

  lemma {:induction false} BitsAreCost(L0: seq<nat>, L1: seq<nat>, ts: seq<Token>, n: nat)
    requires AllWritable(L0, L1, ts) && LzBuffer.AllOk(ts) && n <= |ts|
    ensures BitsTo(L0, L1, ts, n) == CostOf(Counts0(ts, n), L0) + CostOf(Counts1(ts, n), L1) + ExtraTo(ts, n)
  {
    hide CostOf, Counts0, Counts1, Extra, TokenBits, Writable;
    if n == 0 {
      CostNone(L0, L1, ts);
    } else {
      BitsAreCost(L0, L1, ts, n - 1);
      CostNext(L0, L1, ts, n - 1);
    }
  }

  lemma {:induction false} CountsAre(ts: seq<Token>, C0: seq<nat>, C1: seq<nat>)
    requires LzBuffer.Counted(C0, C1, ts)
    ensures LzBuffer.AllOk(ts) && C0 == Counts0(ts, |ts|) && C1 == Counts1(ts, |ts|) && C0[256] == 0
  {
    hide LzBuffer.Uses0, LzBuffer.Uses1;
    UsesNone(ts, |ts|, 256);
  }

  /** The bits of a body: what the two codes cost for the counts, and the extra bits, which no code changes. */
  lemma {:induction false} BodyCost(L0: seq<nat>, L1: seq<nat>, ts: seq<Token>, C0: seq<nat>, C1: seq<nat>)
    requires AllWritable(L0, L1, ts) && LzBuffer.Counted(C0, C1, ts)
    ensures |BlockBits(L0, L1, ts, 0)| == CostOf(C0[256 := 1], L0) + CostOf(C1, L1) + ExtraTo(ts, |ts|)
  {
    hide CostOf, BlockBits, Counts0, Counts1, LzBuffer.Counted, Writable, ExtraTo;
    CountsAre(ts, C0, C1);
    BodyBits(L0, L1, ts, 0);
    BitsAreCost(L0, L1, ts, |ts|);
    CostInc(C0, L0, 256);
  }

  // ---- A body with codes of its own ----

  /** The fixed codes are codes for whatever occurs. */
  lemma {:induction false} FixedAlternative(C0: seq<nat>, C1: seq<nat>)
    requires |C0| == 288 && |C1| == 32
    ensures Alternative(C0, FixedLit()) && Alternative(C1, FixedDist())
  {
    FixedComplete();
    hide FixedLit, FixedDist, NextCode;
  }

  /** Nearly minimal codes are not much worse than the fixed ones. */
  lemma {:induction false} NotMuchWorse(L0: seq<nat>, L1: seq<nat>, ts: seq<Token>, C0: seq<nat>, C1: seq<nat>)
    requires AllWritable(L0, L1, ts) && AllWritable(FixedLit(), FixedDist(), ts) && LzBuffer.Counted(C0, C1, ts)
      && |ts| <= 58255
    requires NearlyMinimal(C0[256 := 1], L0) && NearlyMinimal(C1, L1)
    ensures 270 * |BlockBits(L0, L1, ts, 0)| <= 270 * |BlockBits(FixedLit(), FixedDist(), ts, 0)| + 320 * |ts| + 288
  {
    CountedLengths(C0, C1, ts);
    hide CostOf, BlockBits, AllWritable, LzBuffer.Counted, FixedLit, FixedDist, Total, Alternative, ExtraTo;
    CountTotals(C0, C1, ts);
    FixedAlternative(C0[256 := 1], C1);
    BodyCost(L0, L1, ts, C0, C1);
    BodyCost(FixedLit(), FixedDist(), ts, C0, C1);
  }

  lemma {:induction false} CountedLengths(C0: seq<nat>, C1: seq<nat>, ts: seq<Token>)
    requires LzBuffer.Counted(C0, C1, ts)
    ensures |C0| == 288 && |C1| == 32
  {
  }

  /** Whatever the code buffer held, its body takes less than 675000 bits, with the fixed codes or with its own. */
  lemma {:induction false} BodySize(buf: seq<Byte>, ts: seq<Token>, g: nat, code: nat)
    requires LzBuffer.Sealed(buf, ts, g, code)
    ensures AllWritable(FixedLit(), FixedDist(), ts) && |BlockBits(FixedLit(), FixedDist(), ts, 0)| < 675000
  {
    hide BlockBits, AllWritable, FixedLit, FixedDist, LzBuffer.Sealed, EighthsOf;
    SealedOk(buf, ts, g, code);
    FixedWrites(ts);
    SealedSize(buf, ts, g, code);
    FixedBody(ts, 0);
  }

  lemma {:induction false} OwnBodySize(buf: seq<Byte>, ts: seq<Token>, g: nat, code: nat, L0: seq<nat>, L1: seq<nat>,
      C0: seq<nat>, C1: seq<nat>)
    requires LzBuffer.Sealed(buf, ts, g, code) && AllWritable(L0, L1, ts) && LzBuffer.Counted(C0, C1, ts)
    requires |C0| == 288 && NearlyMinimal(C0[256 := 1], L0) && NearlyMinimal(C1, L1)
    ensures |BlockBits(L0, L1, ts, 0)| < 675000
  {
    hide BlockBits, AllWritable, FixedLit, FixedDist, LzBuffer.Sealed, LzBuffer.Counted, NearlyMinimal, EighthsOf;
    SealedOk(buf, ts, g, code);
    FixedWrites(ts);
    TokensFit(buf, ts, g, code);
    SealedSize(buf, ts, g, code);
    FixedBody(ts, 0);
    NotMuchWorse(L0, L1, ts, C0, C1);
  }

  lemma {:induction false} SealedOk(buf: seq<Byte>, ts: seq<Token>, g: nat, code: nat)
    requires LzBuffer.Sealed(buf, ts, g, code)
    ensures LzBuffer.AllOk(ts)
  {
  }

  // ---- A header ----

  lemma {:induction false} SizesLength(L2: seq<nat>, n: nat, i: nat)
    requires |L2| == 19 && i <= n <= 19
    ensures |SizesBits(L2, n, i)| == 3 * (n - i)
    decreases n - i
  {
    hide Swizzle;
    if i < n { SizesLength(L2, n, i + 1); }
  }

  lemma {:induction false} ItemLength(L2: seq<nat>, x: CodeLens.Item)
    requires |L2| == 19 && CodeLens.Symbol(x) < 19 && L2[CodeLens.Symbol(x)] <= 7
    ensures |CodeLens.ItemBits(L2, x)| <= 14
  {
  }

  lemma {:induction false} ItemsLength(L2: seq<nat>, items: seq<CodeLens.Item>, k: nat)
    requires |L2| == 19 && k <= |items| && forall i :: 0 <= i < |items| ==> CodeLens.Symbol(items[i]) < 19
    requires forall c :: 0 <= c < 19 ==> L2[c] <= 7
    ensures |CodeLens.ItemsBits(L2, items, k)| <= 14 * (|items| - k)
    decreases |items| - k
  {
    hide CodeLens.ItemBits;
    if k < |items| { ItemsLength(L2, items, k + 1); ItemLength(L2, items[k]); }
  }

  lemma {:induction false} ItemsExpand(items: seq<CodeLens.Item>, k: nat)
    requires CodeLens.Sound(items) && k <= |items|
    ensures |CodeLens.Expand(items[..k])| >= k
  {
    hide CodeLens.Expand, CodeLens.Sound, CodeLens.Run;
    if k > 0 { ItemsExpand(items, k - 1); CodeLens.ExpandGrows(items, k - 1); }
  }

  /** A header takes less than 4500 bits. */
  lemma {:induction false} HeaderLength(x: Header)
    requires HeaderOk(x)
    ensures |HeaderBits(x)| <= 4500
  {
    hide CodeLens.Expand, CodeLens.ItemsBits, SizesBits, Swizzle, Accepted, Fits;
    SizesLength(x.L2, x.nb, 0);
    ItemsLength(x.L2, x.items, 0);
    ItemsExpand(x.items, |x.items|);
    assert x.items[..|x.items|] == x.items;
  }
}
