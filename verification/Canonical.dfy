/** Canonical Huffman codes (section 3.2.2 of RFC 1951), seen as paths in a binary tree.
    A path of `d` bits is numbered like a heap node: the root is 1 and the child of `p` along
    bit `b` is `2 * p + b`, so the paths of length `d` are `Pow2(d) .. Pow2(d + 1) - 1`. */
module Canonical {
  import opened Bits

  const MAX_LEN: nat := 15

  ghost predicate ValidLens(L: seq<nat>) {
    forall s :: 0 <= s < |L| ==> L[s] <= MAX_LEN
  }

  /** How many of the first `n` symbols have length `i`. */
  function Count(L: seq<nat>, n: nat, i: nat): (r: nat)
    requires n <= |L|
    ensures r <= n
  {
    if n == 0 then 0 else Count(L, n - 1, i) + B(L[n - 1] == i)
  }

  /** The first code of length `i`. */
  function NextCode(L: seq<nat>, i: nat): (r: nat)
  {
    if i <= 1 then 0 else 2 * (NextCode(L, i - 1) + Count(L, |L|, i - 1))
  }

  /** One past the last code of length `i`. */
  function EndCode(L: seq<nat>, i: nat): (r: nat)
  {
    NextCode(L, i) + (if i == 0 then 0 else Count(L, |L|, i))
  }

  function Code(L: seq<nat>, s: nat): (r: nat)
    requires s < |L|
  {
    NextCode(L, L[s]) + Count(L, s, L[s])
  }

  /** The path a symbol's code spells. */
  function SymId(L: seq<nat>, s: nat): (r: nat)
    requires s < |L|
  {
    Pow2(L[s]) + Code(L, s)
  }

  /** No more codes than the tree has room for. */
  ghost predicate Fits(L: seq<nat>) {
    ValidLens(L) && NextCode(L, MAX_LEN + 1) <= Pow2(MAX_LEN + 1)
  }

  /** The codes fill the tree: the decoder's test `total == 65536`. */
  ghost predicate Complete(L: seq<nat>) {
    ValidLens(L) && NextCode(L, MAX_LEN + 1) == Pow2(MAX_LEN + 1)
  }

  function Used(L: seq<nat>, n: nat): (r: nat)
    requires n <= |L|
    ensures r <= n
  {
    if n == 0 then 0 else Used(L, n - 1) + B(L[n - 1] != 0)
  }

  /** The decoder accepts these codes and no others. */
  ghost predicate Accepted(L: seq<nat>) {
    Complete(L) || (ValidLens(L) && Used(L, |L|) <= 1)
  }

  function UsedUpTo(L: seq<nat>, n: nat, i: nat): (r: nat)
    requires n <= |L|
  {
    if i == 0 then 0 else UsedUpTo(L, n, i - 1) + Count(L, n, i)
  }

  lemma {:induction false} UsedUpToStep(L: seq<nat>, n: nat, i: nat)
    requires n <= |L|
    ensures n == 0 ==> UsedUpTo(L, n, i) == 0
    ensures n > 0 ==> UsedUpTo(L, n, i) == UsedUpTo(L, n - 1, i) + B(1 <= L[n - 1] <= i)
  {
    if i > 0 { UsedUpToStep(L, n, i - 1); }
  }

  lemma {:induction false} UsedUpToAll(L: seq<nat>, n: nat, i: nat)
    requires n <= |L| && forall s :: 0 <= s < |L| ==> L[s] <= i
    ensures UsedUpTo(L, n, i) == Used(L, n)
  {
    UsedUpToStep(L, n, i);
    if n > 0 { UsedUpToAll(L, n - 1, i); }
  }

  /** A code of at most one symbol fits whatever its length. */
  lemma {:induction false} AcceptedFits(L: seq<nat>)
    requires Accepted(L)
    ensures Fits(L)
  {
    if !Complete(L) {
      UsedUpToAll(L, |L|, MAX_LEN);
      OneFits(L, MAX_LEN + 1);
    }
  }

  lemma {:induction false} OneFits(L: seq<nat>, i: nat)
    requires 1 <= i && UsedUpTo(L, |L|, i - 1) <= 1
    ensures NextCode(L, i) <= if UsedUpTo(L, |L|, i - 1) == 0 then 0 else Pow2(i)
  {
    if i > 1 { OneFits(L, i - 1); }
  }

  /** The path reached by reading the first `n` bits of `b` from the root. */
  function PathOf(b: seq<bool>, n: nat): (r: nat)
    requires n <= |b|
    ensures Pow2(n) <= r < Pow2(n + 1)
  {
    if n == 0 then 1 else 2 * PathOf(b, n - 1) + B(b[n - 1])
  }

  /** Symbol `s` is the one whose code starts `b`. */
  predicate Match(L: seq<nat>, s: nat, b: seq<bool>) {
    s < |L| && 0 < L[s] <= |b| && PathOf(b, L[s]) == SymId(L, s)
  }

  lemma {:induction false} CountMono(L: seq<nat>, m: nat, n: nat, i: nat)
    requires m <= n <= |L|
    ensures Count(L, m, i) <= Count(L, n, i)
  {
    if m < n { CountMono(L, m, n - 1, i); }
  }

  /** A symbol's rank is below the count of its length. */
  lemma {:induction false} RankBelow(L: seq<nat>, s: nat, n: nat)
    requires s < n <= |L|
    ensures Count(L, s, L[s]) < Count(L, n, L[s])
  {
    CountMono(L, s + 1, n, L[s]);
  }

  lemma {:induction false} EndFits(L: seq<nat>, i: nat)
    requires Fits(L) && i <= MAX_LEN
    ensures EndCode(L, i) <= Pow2(i)
    decreases MAX_LEN - i
  {
    if i < MAX_LEN { EndFits(L, i + 1); }
  }

  lemma {:induction false} CodeBound(L: seq<nat>, s: nat)
    requires Fits(L) && s < |L| && L[s] > 0
    ensures NextCode(L, L[s]) <= Code(L, s) < EndCode(L, L[s]) <= Pow2(L[s])
    ensures Pow2(L[s]) <= SymId(L, s) < Pow2(L[s] + 1)
    ensures Pow2(L[s]) + NextCode(L, L[s]) <= SymId(L, s) < Pow2(L[s]) + EndCode(L, L[s])
  {
    RankBelow(L, s, |L|);
    EndFits(L, L[s]);
  }

  /** Anything at or after the first code of length `d + k` lies below a path after every code of length `d`. */
  lemma {:induction false} AncestorAbove(L: seq<nat>, id: nat, d: nat, k: nat)
    requires k > 0 && id >= Pow2(d + k) + NextCode(L, d + k)
    ensures Shr(id, k) >= Pow2(d) + EndCode(L, d)
  {
    assert id / 2 >= Pow2(d + k - 1) + EndCode(L, d + k - 1);
    if k > 1 { AncestorAbove(L, id / 2, d, k - 1); }
  }

  /** The first `d` bits of a symbol's code. */
  function Anc(L: seq<nat>, s: nat, d: nat): (r: nat)
    requires s < |L| && d <= L[s]
  {
    Shr(SymId(L, s), L[s] - d)
  }

  lemma {:induction false} ShrDepth(id: nat, n: nat, j: nat)
    requires Pow2(n + j) <= id < Pow2(n + j + 1)
    ensures Pow2(n) <= Shr(id, j) < Pow2(n + 1)
  {
    if j > 0 { ShrDepth(id / 2, n, j - 1); }
  }

  lemma {:induction false} AncDepth(L: seq<nat>, s: nat, d: nat)
    requires Fits(L) && s < |L| && 0 < d <= L[s]
    ensures Pow2(d) <= Anc(L, s, d) < Pow2(d + 1)
  {
    CodeBound(L, s);
    hide SymId;
    ShrDepth(SymId(L, s), d, L[s] - d);
  }

  lemma {:induction false} AncStep(L: seq<nat>, s: nat, d: nat)
    requires s < |L| && d < L[s]
    ensures Anc(L, s, d) == Anc(L, s, d + 1) / 2
  {
    hide SymId;
    ShrStep(SymId(L, s), L[s] - (d + 1));
  }

  lemma {:induction false} AncAnc(L: seq<nat>, s: nat, d: nat, e: nat)
    requires s < |L| && d <= e <= L[s]
    ensures Anc(L, s, d) == Shr(Anc(L, s, e), e - d)
  {
    hide SymId;
    ShrAdd(SymId(L, s), L[s] - e, e - d);
  }

  lemma {:induction false} DepthUnique(x: nat, a: nat, b: nat)
    requires Pow2(a) <= x < Pow2(a + 1) && Pow2(b) <= x < Pow2(b + 1)
    ensures a == b
  {
    if a < b { Pow2Mono(a + 1, b); }
    if b < a { Pow2Mono(b + 1, a); }
  }

  /** Distinct symbols have distinct codes, and no code starts another. */
  lemma {:induction false} PrefixFree(L: seq<nat>, s: nat, t: nat)
    requires Fits(L) && s < |L| && t < |L| && s != t
    requires 0 < L[s] <= L[t]
    ensures Anc(L, t, L[s]) != SymId(L, s)
  {
    if L[s] == L[t] {
      CodesDiffer(L, s, t);
    } else {
      LongerAbove(L, s, t);
    }
  }

  lemma {:induction false} LongerAbove(L: seq<nat>, s: nat, t: nat)
    requires Fits(L) && s < |L| && t < |L| && 0 < L[s] < L[t]
    ensures Anc(L, t, L[s]) > SymId(L, s)
  {
    hide SymId;
    CodeBound(L, s);
    CodeBound(L, t);
    AncestorAbove(L, SymId(L, t), L[s], L[t] - L[s]);
  }

  lemma {:induction false} CodesDiffer(L: seq<nat>, s: nat, t: nat)
    requires s < |L| && t < |L| && s != t && L[s] == L[t]
    ensures SymId(L, s) != SymId(L, t)
  {
    if s < t { RankBelow(L, s, t); } else { RankBelow(L, t, s); }
  }

  /** The path spelt by the low `d` bits of `v`. */
  function Path(v: nat, d: nat): (r: nat)
    ensures Pow2(d) <= r < Pow2(d + 1)
  {
    if d == 0 then 1 else 2 * Path(v, d - 1) + Shr(v, d - 1) % 2
  }

  lemma {:induction false} PathOfBits(v: nat, n: nat, d: nat)
    requires d <= n
    ensures PathOf(ToBits(v, n), d) == Path(v, d)
  {
    if d > 0 {
      PathOfBits(v, n, d - 1);
      ToBitsAt(v, n, d - 1);
    }
  }

  lemma {:induction false} PathOfPrefix(b: seq<bool>, c: seq<bool>, d: nat)
    requires d <= |b|
    ensures PathOf(b + c, d) == PathOf(b, d)
  {
    if d > 0 { PathOfPrefix(b, c, d - 1); }
  }

  /** Dropping the last bits of a path climbs to an ancestor. */
  lemma {:induction false} PathAnc(v: nat, d: nat, k: nat)
    ensures Path(v, d) == Shr(Path(v, d + k), k)
  {
    if k > 0 {
      PathAnc(v, d, k - 1);
      assert Path(v, d + k) / 2 == Path(v, d + k - 1);
    }
  }

  /** Equal paths come from equal bits. */
  lemma {:induction false} PathInj(v: nat, w: nat, d: nat)
    ensures Path(v, d) == Path(w, d) <==> ToBits(v, d) == ToBits(w, d)
  {
    if d > 0 {
      PathInj(v, w, d - 1);
      ToBitsLast(v, d - 1);
      ToBitsLast(w, d - 1);
      LastInj(ToBits(v, d - 1), Shr(v, d - 1) % 2 == 1, ToBits(w, d - 1), Shr(w, d - 1) % 2 == 1);
    }
  }

  lemma {:induction false} LastInj<T>(a: seq<T>, x: T, b: seq<T>, y: T)
    requires |a| == |b|
    ensures a + [x] == b + [y] <==> a == b && x == y
  {
    assert (a + [x])[..|a|] == a && (b + [y])[..|b|] == b;
    assert (a + [x])[|a|] == x && (b + [y])[|b|] == y;
  }

  /** The code of `s` starts the bit stream whose next bits are those of `v`. */
  ghost predicate Starts(L: seq<nat>, s: nat, v: nat) {
    s < |L| && L[s] > 0 && Path(v, L[s]) == SymId(L, s)
  }

  lemma {:induction false} StartsMatch(L: seq<nat>, s: nat, v: nat, n: nat)
    requires s < |L| && L[s] <= n
    ensures Starts(L, s, v) <==> Match(L, s, ToBits(v, n))
  {
    PathOfBits(v, n, L[s]);
  }

  lemma {:induction false} StartsPath(L: seq<nat>, s: nat, v: nat, d: nat)
    requires Starts(L, s, v) && d <= L[s]
    ensures Path(v, d) == Anc(L, s, d)
  {
    hide SymId;
    PathAnc(v, d, L[s] - d);
  }

  /** If a code starts `v` and so does a prefix of a code at least as long, the codes are one. */
  lemma {:induction false} StartsAbove(L: seq<nat>, s: nat, t: nat, d: nat, v: nat)
    requires Fits(L) && Starts(L, s, v) && t < |L| && L[s] <= d <= L[t] && Path(v, d) == Anc(L, t, d)
    ensures s == t
  {
    hide SymId;
    if s != t {
      PathAnc(v, L[s], d - L[s]);
      AncAnc(L, t, L[s], d);
      PrefixFree(L, s, t);
    }
  }

  lemma {:induction false} StartsUnique(L: seq<nat>, s: nat, t: nat, v: nat)
    requires Fits(L) && Starts(L, s, v) && Starts(L, t, v)
    ensures s == t
  {
    hide SymId;
    if L[s] <= L[t] {
      StartsAbove(L, s, t, L[t], v);
    } else {
      StartsAbove(L, t, s, L[s], v);
    }
  }

  /** At most one symbol's code starts a bit string. */
  lemma {:induction false} MatchUnique(L: seq<nat>, s: nat, t: nat, b: seq<bool>)
    requires Fits(L) && Match(L, s, b) && Match(L, t, b)
    ensures s == t
  {
    ToBitsVal(b);
    StartsMatch(L, s, Val(b), |b|);
    StartsMatch(L, t, Val(b), |b|);
    StartsUnique(L, s, t, Val(b));
  }

  /** Every rank below the count belongs to a symbol. */
  lemma {:induction false} SymbolOfRank(L: seq<nat>, n: nat, i: nat, r: nat) returns (s: nat)
    requires n <= |L| && r < Count(L, n, i)
    ensures s < n && L[s] == i && Count(L, s, i) == r
  {
    if L[n - 1] == i && Count(L, n - 1, i) == r {
      s := n - 1;
    } else {
      s := SymbolOfRank(L, n - 1, i, r);
    }
  }

  /** In a complete code some symbol starts every string of 15 bits. */
  lemma {:induction false} MatchExists(L: seq<nat>, b: seq<bool>) returns (s: nat)
    requires Complete(L) && |b| >= MAX_LEN
    ensures Match(L, s, b)
  {
    s := MatchFrom(L, b, 1);
  }

  lemma {:induction false} MatchFrom(L: seq<nat>, b: seq<bool>, d: nat) returns (s: nat)
    requires Complete(L) && |b| >= MAX_LEN && 1 <= d <= MAX_LEN
    requires PathOf(b, d) >= Pow2(d) + NextCode(L, d)
    ensures Match(L, s, b)
    decreases MAX_LEN - d
  {
    var id := PathOf(b, d);
    if id < Pow2(d) + EndCode(L, d) {
      s := SymbolOfRank(L, |L|, d, id - Pow2(d) - NextCode(L, d));
    } else {
      EndFull(L);
      s := MatchFrom(L, b, d + 1);
    }
  }

  lemma {:induction false} EndFull(L: seq<nat>)
    requires Complete(L)
    ensures EndCode(L, MAX_LEN) == Pow2(MAX_LEN)
  {
  }

  /**
   * Ways to leave the format that the inflater does not look for: bits that no code word of `lens` continues, a symbol
   * that stands for nothing, and a match that reaches before the output.
   */
  datatype Way = NoCode(lens: seq<nat>) | NoMeaning | TooFar

  /**
   * The result of reading something off the front of a bit string, and what is left. `Failed` is what a decoder is to
   * notice, too few bits among it.
   */
  datatype Decoded<T> = Done(value: T, rest: seq<bool>) | Failed | Departed(way: Way)

  function Stop<T, U>(d: Decoded<T>): (r: Decoded<U>)
    requires !d.Done?
    ensures !r.Done? && (r.Departed? <==> d.Departed?) && (r.Departed? ==> r.way == d.way)
  {
    if d.Departed? then Departed(d.way) else Failed
  }

  /** However the bits go on, they start with no symbol's code. */
  ghost predicate NoSymbolAhead(L: seq<nat>, b: seq<bool>) {
    forall s: nat, tail: seq<bool> :: !Match(L, s, b + tail)
  }

  /** This happens only with the codes that are accepted although they are not complete, those of one symbol or none. */
  lemma {:induction false} AheadIncomplete(L: seq<nat>, b: seq<bool>)
    requires NoSymbolAhead(L, b) && Accepted(L)
    ensures !Complete(L) && Used(L, |L|) <= 1
  {
    if Complete(L) {
      var pad := seq(MAX_LEN, _ => false);
      var s := MatchExists(L, b + pad);
      assert false;
    }
  }

  /** What it is to find no symbol: more bits may be missing, or they cannot help. */
  ghost function NoSymbol<T>(L: seq<nat>, b: seq<bool>): (r: Decoded<T>)
    ensures !r.Done? && (r.Departed? <==> NoSymbolAhead(L, b)) && (r.Departed? ==> r.way == NoCode(L))
  {
    if NoSymbolAhead(L, b) then Departed(NoCode(L)) else Failed
  }

  /** The symbol a decoder must return on `b`. */
  ghost function DecodeSym(L: seq<nat>, b: seq<bool>): (r: int)
    ensures r >= 0 ==> Match(L, r, b)
    ensures r < 0 ==> forall s: nat :: !Match(L, s, b)
  {
    if exists s: nat :: Match(L, s, b) then
      var s: nat :| Match(L, s, b); s
    else -1
  }

  /** A code of length `n` reversed, so that its most significant bit is written first. */
  function Rev(c: nat, n: nat): (r: nat)
    ensures r < Pow2(n)
  {
    if n == 0 then 0 else
      AppendBound(Rev(c / 2, n - 1), n - 1, c % 2, 1);
      Rev(c / 2, n - 1) + Shl(c % 2, n - 1)
  }

  /** Written least significant bit first, a reversed code spells the code's path. */
  lemma {:induction false} RevPath(c: nat, n: nat)
    requires c < Pow2(n)
    ensures Path(Rev(c, n), n) == Pow2(n) + c
  {
    if n > 0 {
      RevPath(c / 2, n - 1);
      HighBit(Rev(c / 2, n - 1), n - 1, c % 2);
    }
  }

  /** A bit placed above `n` others is the last step of the path. */
  lemma {:induction false} HighBit(w: nat, n: nat, bit: nat)
    requires w < Pow2(n) && bit < 2
    ensures Path(w + Shl(bit, n), n + 1) == 2 * Path(w, n) + bit
  {
    ToBitsAppend(w, n, bit, 0);
    PathInj(w + Shl(bit, n), w, n);
    ShrAppend(w, n, bit);
  }

  /** The loop that reverses a code: both the encoder and the decoder run it. */
  method ReverseCode(code: nat, size: nat) returns (rev: nat)
    requires code < Pow2(size)
    ensures rev == Rev(code, size)
    ensures Path(rev, size) == Pow2(size) + code
  {
    rev := 0;
    var cur, l: nat := code, size;
    ShlZero(l);
    while l > 0
      invariant l <= size
      invariant Rev(code, size) == Shl(rev, l) + Rev(cur, l)
    {
      ShlStep(rev, cur % 2, l);
      rev, cur, l := 2 * rev + cur % 2, cur / 2, l - 1;
    }
    RevPath(code, size);
  }

  lemma {:induction false} ShlStep(rev: nat, bit: nat, l: nat)
    requires l > 0
    ensures Shl(2 * rev + bit, l - 1) == Shl(rev, l) + Shl(bit, l - 1)
  {
    ShlAdd(2 * rev, bit, l - 1);
    ShlDouble(rev, l - 1);
  }

  /** The bits written for a symbol. */
  function SymBits(L: seq<nat>, s: nat): (r: seq<bool>)
    requires s < |L|
    ensures |r| == L[s]
  {
    ToBits(Rev(Code(L, s), L[s]), L[s])
  }

  /** Whatever follows, the bits written for a symbol decode to that symbol. */
  lemma {:induction false} SymRoundTrip(L: seq<nat>, s: nat, rest: seq<bool>)
    requires Fits(L) && s < |L| && L[s] > 0
    ensures DecodeSym(L, SymBits(L, s) + rest) == s
  {
    CodeBound(L, s);
    RevPath(Code(L, s), L[s]);
    var b := SymBits(L, s) + rest;
    PathOfBits(Rev(Code(L, s), L[s]), L[s], L[s]);
    PathOfPrefix(SymBits(L, s), rest, L[s]);
    assert Match(L, s, b);
    MatchUnique(L, s, DecodeSym(L, b), b);
  }

  // ---- Unused symbols at the end of an alphabet do not matter ----

  ghost predicate Trims(M: seq<nat>, L: seq<nat>) {
    |M| <= |L| && M == L[..|M|] && forall s :: |M| <= s < |L| ==> L[s] == 0
  }

  lemma {:induction false} TrimCount(M: seq<nat>, L: seq<nat>, n: nat, i: nat)
    requires Trims(M, L) && i > 0 && n <= |L|
    ensures Count(L, n, i) == Count(M, if n <= |M| then n else |M|, i)
  {
    if n > 0 { TrimCount(M, L, n - 1, i); }
  }

  lemma {:induction false} TrimNext(M: seq<nat>, L: seq<nat>, i: nat)
    requires Trims(M, L)
    ensures NextCode(M, i) == NextCode(L, i)
  {
    hide Count, Trims;
    if i > 1 {
      TrimNext(M, L, i - 1);
      TrimSize(M, L);
      TrimCount(M, L, |L|, i - 1);
    }
  }

  lemma {:induction false} TrimSize(M: seq<nat>, L: seq<nat>)
    requires Trims(M, L)
    ensures |M| <= |L|
  {
  }

  lemma {:induction false} TrimUsed(M: seq<nat>, L: seq<nat>, n: nat)
    requires Trims(M, L) && n <= |L|
    ensures Used(L, n) == Used(M, if n <= |M| then n else |M|)
  {
    if n > 0 { TrimUsed(M, L, n - 1); }
  }

  /** Both alphabets make the same code. */
  lemma {:induction false} TrimMatch(M: seq<nat>, L: seq<nat>, s: nat, b: seq<bool>)
    requires Trims(M, L)
    ensures Match(M, s, b) <==> Match(L, s, b)
    ensures s < |M| ==> M[s] == L[s]
  {
    if s < |M| && L[s] > 0 {
      TrimNext(M, L, L[s]);
      TrimCount(M, L, s, L[s]);
    }
    hide Count, NextCode, PathOf;
  }

  lemma {:induction false} TrimAccepted(M: seq<nat>, L: seq<nat>)
    requires Trims(M, L)
    ensures Accepted(M) <==> Accepted(L)
  {
    TrimNext(M, L, MAX_LEN + 1);
    TrimUsed(M, L, |L|);
    hide NextCode, Used;
    assert ValidLens(M) <==> ValidLens(L) by {
      if ValidLens(M) { forall s | 0 <= s < |L| ensures L[s] <= MAX_LEN { if s < |M| { assert M[s] <= MAX_LEN; } } }
      if ValidLens(L) { forall s | 0 <= s < |M| ensures M[s] <= MAX_LEN { assert L[s] <= MAX_LEN; } }
    }
  }
}
