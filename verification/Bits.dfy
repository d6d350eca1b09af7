/** Bit strings, least significant bit first, as DEFLATE writes them (section 3.1.1 of RFC 1951). */
module Bits {

  type Byte = x: int | 0 <= x < 256

  function Min(a: nat, b: nat): (m: nat)
    ensures m <= a && m <= b && (m == a || m == b)
  {
    if a < b then a else b
  }

  /** The bits from the next byte boundary on, when a whole number of bytes follows. */
  function Skip(b: seq<bool>): (r: seq<bool>)
    ensures |b| < |r| + 8 && |r| <= |b| && Aligned(|r|)
  {
    b[|b| % 8..]
  }

  /** A whole number of bytes. */
  predicate Aligned(n: nat) {
    n % 8 == 0
  }

  function Pow2(n: nat): (r: nat)
    ensures 0 < r
  {
    if n == 0 then 1 else 2 * Pow2(n - 1)
  }

  lemma {:induction false} Pow2Mono(a: nat, b: nat)
    requires a <= b
    ensures Pow2(a) <= Pow2(b)
  {
    if a < b { Pow2Mono(a, b - 1); }
  }

  lemma {:induction false} Pow2Values()
    ensures Pow2(8) == 256 && Pow2(10) == 1024 && Pow2(11) == 2048 && Pow2(15) == 32768 && Pow2(16) == 65536
  {
  }

  function B(b: bool): (r: nat) { if b then 1 else 0 }

  /** The low `n` bits of `v`. */
  function ToBits(v: nat, n: nat): (r: seq<bool>)
    ensures |r| == n
  {
    if n == 0 then [] else [v % 2 == 1] + ToBits(v / 2, n - 1)
  }

  /** The number a bit string stands for. */
  function Val(b: seq<bool>): (r: nat)
    ensures r < Pow2(|b|)
  {
    if b == [] then 0 else B(b[0]) + 2 * Val(b[1..])
  }

  lemma {:induction false} ValToBits(v: nat, n: nat)
    requires v < Pow2(n)
    ensures Val(ToBits(v, n)) == v
  {
    if n > 0 {
      ValToBits(v / 2, n - 1);
      assert ToBits(v, n)[1..] == ToBits(v / 2, n - 1);
    }
  }

  lemma {:induction false} ToBitsVal(b: seq<bool>)
    ensures ToBits(Val(b), |b|) == b
  {
    if b != [] { ToBitsVal(b[1..]); }
  }

  /** `v >> k` */
  function Shr(v: nat, k: nat): (r: nat)
  {
    if k == 0 then v else Shr(v / 2, k - 1)
  }

  /** `v << k` */
  function Shl(v: nat, k: nat): (r: nat)
  {
    if k == 0 then v else 2 * Shl(v, k - 1)
  }

  lemma {:induction false} ShlZero(n: nat)
    ensures Shl(0, n) == 0
  {
    if n > 0 { ShlZero(n - 1); }
  }

  lemma {:induction false} ShlAdd(a: nat, b: nat, n: nat)
    ensures Shl(a + b, n) == Shl(a, n) + Shl(b, n)
  {
    if n > 0 { ShlAdd(a, b, n - 1); }
  }

  lemma {:induction false} ShlMono(v: nat, w: nat, k: nat)
    requires v <= w
    ensures Shl(v, k) <= Shl(w, k)
  {
    if k > 0 { ShlMono(v, w, k - 1); }
  }

  lemma {:induction false} ShlDouble(a: nat, n: nat)
    ensures Shl(2 * a, n) == 2 * Shl(a, n)
  {
    if n > 0 { ShlDouble(a, n - 1); }
  }

  lemma {:induction false} ShlPow2(a: nat, n: nat)
    ensures Shl(Pow2(a), n) == Pow2(a + n)
  {
    if n > 0 { ShlPow2(a, n - 1); }
  }

  lemma {:induction false} ShlEight(v: nat)
    ensures Shl(v, 8) == 256 * v
  {
    assert Shl(v, 1) == 2 * v && Shl(v, 2) == 4 * v;
    assert Shl(v, 4) == 16 * v;
    assert Shl(v, 6) == 64 * v;
  }

  /** `v & ((1 << n) - 1)` */
  function Low(v: nat, n: nat): (r: nat)
    ensures r < Pow2(n)
  {
    if n == 0 then 0 else v % 2 + 2 * Low(v / 2, n - 1)
  }

  lemma {:induction false} LowBitsOf(v: nat, n: nat)
    ensures ToBits(Low(v, n), n) == ToBits(v, n)
  {
    if n > 0 { LowBitsOf(v / 2, n - 1); }
  }

  lemma {:induction false} ShrAdd(v: nat, a: nat, b: nat)
    ensures Shr(v, a + b) == Shr(Shr(v, a), b)
  {
    if a > 0 { ShrAdd(v / 2, a - 1, b); }
  }

  /** `k` more bits need one bit more at the bottom of the quotient. */
  lemma {:induction false} ShrStep(v: nat, k: nat)
    ensures Shr(v, k + 1) == Shr(v, k) / 2
  {
    ShrAdd(v, k, 1);
  }

  /** Shifting an `n + k` bit number right by `k` leaves an `n` bit number. */
  lemma {:induction false} ShrBound(v: nat, n: nat, k: nat)
    requires v < Pow2(n + k)
    ensures Shr(v, k) < Pow2(n)
  {
    if k > 0 { ShrBound(v / 2, n, k - 1); }
  }

  lemma {:induction false} ShrZero(v: nat, k: nat)
    requires v < Pow2(k)
    ensures Shr(v, k) == 0
  {
    ShrBound(v, 0, k);
  }

  /** The first `k` of `n` bits are the low `k` bits. */
  lemma {:induction false} ToBitsTake(v: nat, n: nat, k: nat)
    requires k <= n
    ensures ToBits(v, n)[..k] == ToBits(v, k)
  {
    if k > 0 {
      ToBitsTake(v / 2, n - 1, k - 1);
      assert ToBits(v, n)[..k] == [v % 2 == 1] + ToBits(v / 2, n - 1)[..k - 1];
    }
  }

  /** Bits above the first `k` are those of the number shifted right by `k`. */
  lemma {:induction false} ToBitsDrop(v: nat, n: nat, k: nat)
    requires k <= n
    ensures ToBits(v, n)[k..] == ToBits(Shr(v, k), n - k)
  {
    if k > 0 {
      ToBitsDrop(v / 2, n - 1, k - 1);
      assert ToBits(v, n)[k..] == ToBits(v / 2, n - 1)[k - 1..];
    }
  }

  lemma {:induction false} ToBitsAt(v: nat, n: nat, i: nat)
    requires i < n
    ensures ToBits(v, n)[i] == (Shr(v, i) % 2 == 1)
  {
    if i > 0 { ToBitsAt(v / 2, n - 1, i - 1); }
  }

  lemma {:induction false} ToBitsLast(v: nat, n: nat)
    ensures ToBits(v, n + 1) == ToBits(v, n) + [Shr(v, n) % 2 == 1]
  {
    ToBitsTake(v, n + 1, n);
    ToBitsAt(v, n + 1, n);
  }

  lemma {:induction false} ToBitsSplit(v: nat, a: nat, b: nat)
    ensures ToBits(v, a + b) == ToBits(v, a) + ToBits(Shr(v, a), b)
  {
    ToBitsTake(v, a + b, a);
    ToBitsDrop(v, a + b, a);
  }

  /** Placing `w` above an `n`-bit number `v` appends its bits: this is what `buf |= w << n` does. */
  lemma {:induction false} ToBitsAppend(v: nat, n: nat, w: nat, m: nat)
    requires v < Pow2(n)
    ensures ToBits(v + Shl(w, n), n + m) == ToBits(v, n) + ToBits(w, m)
  {
    if n > 0 { ToBitsAppend(v / 2, n - 1, w, m); }
  }

  lemma {:induction false} ShrAppend(v: nat, n: nat, w: nat)
    requires v < Pow2(n)
    ensures Shr(v + Shl(w, n), n) == w
  {
    if n > 0 { ShrAppend(v / 2, n - 1, w); }
  }

  lemma {:induction false} AppendBound(v: nat, n: nat, w: nat, m: nat)
    requires v < Pow2(n) && w < Pow2(m)
    ensures v + Shl(w, n) < Pow2(n + m)
  {
    if n > 0 { AppendBound(v / 2, n - 1, w, m); }
  }

  lemma {:induction false} Assoc<T>(a: seq<T>, b: seq<T>, c: seq<T>)
    ensures a + (b + c) == a + b + c
  {
  }

  /** Bytes as a bit stream. */
  function BytesToBits(s: seq<Byte>): (r: seq<bool>)
    ensures |r| == 8 * |s|
  {
    if s == [] then [] else ToBits(s[0], 8) + BytesToBits(s[1..])
  }

  lemma {:induction false} BytesToBitsConcat(a: seq<Byte>, b: seq<Byte>)
    ensures BytesToBits(a + b) == BytesToBits(a) + BytesToBits(b)
  {
    hide ToBits;
    if a == [] {
      assert a + b == b;
    } else {
      BytesToBitsConcat(a[1..], b);
      assert (a + b)[0] == a[0] && (a + b)[1..] == a[1..] + b;
      Assoc(ToBits(a[0], 8), BytesToBits(a[1..]), BytesToBits(b));
    }
  }

  /** Bitwise or of two naturals. */
  function Or(a: nat, b: nat): (r: nat)
  {
    if a == 0 then b
    else if b == 0 then a
    else 2 * Or(a / 2, b / 2) + (if a % 2 == 1 || b % 2 == 1 then 1 else 0)
  }

  lemma {:induction false} OrHalf(a: nat, b: nat)
    ensures Or(a, b) / 2 == Or(a / 2, b / 2)
    ensures Or(a, b) % 2 == (if a % 2 == 1 || b % 2 == 1 then 1 else 0)
  {
  }

  lemma {:induction false} OrAssoc(a: nat, b: nat, c: nat)
    ensures Or(a, Or(b, c)) == Or(Or(a, b), c)
  {
    if a != 0 && b != 0 && c != 0 {
      OrAssoc(a / 2, b / 2, c / 2);
      OrHalf(a, b);
      OrHalf(b, c);
    }
  }

  /** `a | b << n` is an addition when `a` has at most `n` bits. */
  lemma {:induction false} OrDisjoint(a: nat, n: nat, b: nat)
    requires a < Pow2(n)
    ensures Or(a, Shl(b, n)) == a + Shl(b, n)
  {
    if n > 0 { OrDisjoint(a / 2, n - 1, b); }
  }
}
