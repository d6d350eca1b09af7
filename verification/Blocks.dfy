/** Deflate blocks as bits, and what they decode to (section 3.2 of RFC 1951). */
module Blocks {
  import opened Bits
  import opened Canonical
  import opened CodeLens
  import opened LzTokens

  // ---- Fields ----

  /** An `n`-bit number off the front of `b`. */
  function Take(b: seq<bool>, n: nat): (r: Decoded<nat>)
    ensures r.Done? ==> |r.rest| + n == |b| && r.value < Pow2(n)
  {
    if |b| < n then Failed else Done(Val(b[..n]), b[n..])
  }

  lemma {:induction false} TakeBack(v: nat, n: nat, rest: seq<bool>)
    requires v < Pow2(n)
    ensures Take(ToBits(v, n) + rest, n) == Done(v, rest)
  {
    var b := ToBits(v, n) + rest;
    assert b[..n] == ToBits(v, n) && b[n..] == rest;
    ValToBits(v, n);
  }

  /** The order in which the lengths of the code-length code are sent. */
  function Swizzle(i: nat): (c: nat)
    requires i < 19
    ensures c < 19
  {
    if i < 3 then 16 + i else if i == 3 then 0 else if i % 2 == 0 then 6 + i / 2 else 9 - i / 2
  }

  function Unswizzle(c: nat): (i: nat)
    requires c < 19
    ensures i < 19 && Swizzle(i) == c
  {
    if c >= 16 then c - 16 else if c == 0 then 3 else if c >= 8 then 2 * c - 12 else 19 - 2 * c
  }

  lemma {:induction false} SwizzleTable()
    ensures [Swizzle(0), Swizzle(1), Swizzle(2), Swizzle(3), Swizzle(4), Swizzle(5), Swizzle(6), Swizzle(7), Swizzle(8),
      Swizzle(9)]
      == [16, 17, 18, 0, 8, 7, 9, 6, 10, 5]
    ensures [Swizzle(10), Swizzle(11), Swizzle(12), Swizzle(13), Swizzle(14), Swizzle(15), Swizzle(16), Swizzle(17),
      Swizzle(18)]
      == [11, 4, 12, 3, 13, 2, 14, 1, 15]
  {
  }

  /** The first `n` lengths sent, from the `i`-th. */
  function SizesBits(L2: seq<nat>, n: nat, i: nat): (b: seq<bool>)
    requires |L2| == 19 && i <= n <= 19
    decreases n - i
  {
    if i == n then [] else ToBits(L2[Swizzle(i)], 3) + SizesBits(L2, n, i + 1)
  }

  function ReadSizes(b: seq<bool>, n: nat, i: nat, acc: seq<nat>): (r: Decoded<seq<nat>>)
    requires |acc| == 19 && i <= n <= 19
    ensures r.Done? ==> |r.value| == 19 && |r.rest| <= |b|
    decreases n - i
  {
    if i == n then Done(acc, b) else
      var v := Take(b, 3);
      if !v.Done? then Stop(v) else ReadSizes(v.rest, n, i + 1, acc[Swizzle(i) := v.value])
  }

  /** `acc` agrees with `L2` on what has been sent and is zero elsewhere. */
  ghost predicate SentTo(L2: seq<nat>, acc: seq<nat>, i: nat) {
    |L2| == |acc| == 19 && forall k: nat :: k < 19 ==> acc[Swizzle(k)] == if k < i then L2[Swizzle(k)] else 0
  }

  lemma {:induction false} SendOne(L2: seq<nat>, acc: seq<nat>, i: nat)
    requires SentTo(L2, acc, i) && i < 19
    ensures SentTo(L2, acc[Swizzle(i) := L2[Swizzle(i)]], i + 1)
  {
  }

  lemma {:induction false} SentAll(L2: seq<nat>, acc: seq<nat>, n: nat)
    requires SentTo(L2, acc, n) && forall k: nat :: n <= k < 19 ==> L2[Swizzle(k)] == 0
    ensures acc == L2
  {
    forall c: nat | c < 19 ensures acc[c] == L2[c] {
      assert acc[Swizzle(Unswizzle(c))] == L2[Swizzle(Unswizzle(c))];
    }
  }

  lemma {:induction false} SizesRoundTrip(L2: seq<nat>, n: nat, i: nat, acc: seq<nat>, rest: seq<bool>)
    requires SentTo(L2, acc, i) && i <= n <= 19 && forall c :: 0 <= c < 19 ==> L2[c] <= 7
    requires forall k: nat :: n <= k < 19 ==> L2[Swizzle(k)] == 0
    ensures ReadSizes(SizesBits(L2, n, i) + rest, n, i, acc) == Done(L2, rest)
    decreases n - i
  {
    hide Swizzle, Take, ToBits, SentTo;
    SentSizes(L2, acc, i);
    if i == n {
      SentAll(L2, acc, n);
      assert [] + rest == rest;
    } else {
      assert Pow2(3) == 8;
      Assoc(ToBits(L2[Swizzle(i)], 3), SizesBits(L2, n, i + 1), rest);
      TakeBack(L2[Swizzle(i)], 3, SizesBits(L2, n, i + 1) + rest);
      SendOne(L2, acc, i);
      SizesRoundTrip(L2, n, i + 1, acc[Swizzle(i) := L2[Swizzle(i)]], rest);
    }
  }

  lemma {:induction false} SentSizes(L2: seq<nat>, acc: seq<nat>, i: nat)
    requires SentTo(L2, acc, i)
    ensures |L2| == |acc| == 19
  {
  }

  // ---- The header of a dynamic block ----

  datatype Book = Book(lit: seq<nat>, dist: seq<nat>)

  function Pad(s: seq<nat>, n: nat): (r: seq<nat>)
    requires |s| <= n
    ensures |r| == n && r[..|s|] == s && forall i :: |s| <= i < n ==> r[i] == 0
  {
    s + Times(0, n - |s|)
  }

  lemma {:induction false} PadUnique(s: seq<nat>, n: nat, r: seq<nat>)
    requires |s| <= n == |r| && r[..|s|] == s && forall i :: |s| <= i < n ==> r[i] == 0
    ensures Pad(s, n) == r
  {
    forall i | 0 <= i < n ensures Pad(s, n)[i] == r[i] {
      if i < |s| { assert Pad(s, n)[..|s|][i] == r[..|s|][i]; }
    }
  }

  function BookOf(lens: seq<nat>, nl: nat): (book: Book)
    requires nl <= 288 && nl <= |lens| <= nl + 32
    ensures |book.lit| == 288 && |book.dist| == 32
  {
    Book(Pad(lens[..nl], 288), Pad(lens[nl..], 32))
  }

  lemma {:induction false} BookOfLens(book: Book, nl: nat, nd: nat)
    requires |book.lit| == 288 && |book.dist| == 32 && nl <= 288 && nd <= 32
    requires (forall s :: nl <= s < 288 ==> book.lit[s] == 0) && (forall s :: nd <= s < 32 ==> book.dist[s] == 0)
    ensures BookOf(book.lit[..nl] + book.dist[..nd], nl) == book
  {
    hide Pad;
    var lens := book.lit[..nl] + book.dist[..nd];
    assert lens[..nl] == book.lit[..nl] && lens[nl..] == book.dist[..nd];
    PadUnique(book.lit[..nl], 288, book.lit);
    PadUnique(book.dist[..nd], 32, book.dist);
  }

  /** What the header of a dynamic block says: the two codes. */
  ghost function DecodeHeader(b: seq<bool>): (r: Decoded<Book>)
    ensures r.Done? ==> |r.value.lit| == 288 && |r.value.dist| == 32 && |r.rest| <= |b|
  {
    var nl := Take(b, 5);
    if !nl.Done? then Stop(nl) else
    var nd := Take(nl.rest, 5);
    if !nd.Done? then Stop(nd) else
    var nb := Take(nd.rest, 4);
    if !nb.Done? then Stop(nb) else
    assert Pow2(5) == 32 && Pow2(4) == 16;
    var L2 := ReadSizes(nb.rest, nb.value + 4, 0, Times(0, 19));
    if !L2.Done? then Stop(L2) else
    if !Accepted(L2.value) then Failed else
    DecodeBook(L2.value, L2.rest, nl.value + 257, nd.value + 1)
  }

  ghost function DecodeBook(L2: seq<nat>, b: seq<bool>, nl: nat, nd: nat): (r: Decoded<Book>)
    requires |L2| == 19 && nl <= 288 && nd <= 32
    ensures r.Done? ==> |r.value.lit| == 288 && |r.value.dist| == 32 && |r.rest| <= |b|
  {
    var lens := DecodeLens(L2, b, nl + nd, []);
    if !lens.Done? then Stop(lens) else
    var book := BookOf(lens.value, nl);
    if !Accepted(book.lit) || !Accepted(book.dist) then Failed else Done(book, lens.rest)
  }

  /** The encoder's choices for a dynamic block: the two codes, the code for their lengths and the packed lengths. */
  datatype Header = Header(book: Book, L2: seq<nat>, items: seq<Item>, nl: nat, nd: nat, nb: nat)

  ghost predicate HeaderOk(x: Header) {
    && |x.book.lit| == 288 && |x.book.dist| == 32 && Accepted(x.book.lit) && Accepted(x.book.dist)
    && 257 <= x.nl <= 286 && 1 <= x.nd <= 30 && 4 <= x.nb <= 19
    && (forall s :: x.nl <= s < 288 ==> x.book.lit[s] == 0) && (forall s :: x.nd <= s < 32 ==> x.book.dist[s] == 0)
    && |x.L2| == 19 && Accepted(x.L2) && (forall c :: 0 <= c < 19 ==> x.L2[c] <= 7)
    && (forall k: nat :: x.nb <= k < 19 ==> x.L2[Swizzle(k)] == 0)
    && Encodable(x.L2, x.items) && Expand(x.items) == x.book.lit[..x.nl] + x.book.dist[..x.nd]
  }

  ghost function HeaderTail(x: Header): (b: seq<bool>)
    requires HeaderOk(x)
  {
    SizesBits(x.L2, x.nb, 0) + ItemsBits(x.L2, x.items, 0)
  }

  ghost function HeaderBits(x: Header): (b: seq<bool>)
    requires HeaderOk(x)
  {
    ToBits(x.nl - 257, 5) + (ToBits(x.nd - 1, 5) + (ToBits(x.nb - 4, 4) + HeaderTail(x)))
  }

  lemma {:induction false} HeaderFacts(x: Header)
    requires HeaderOk(x)
    ensures 257 <= x.nl <= 286 && 1 <= x.nd <= 30 && 4 <= x.nb <= 19 && |x.L2| == 19 && Encodable(x.L2, x.items)
    ensures |x.book.lit| == 288 && |x.book.dist| == 32 && Accepted(x.book.lit) && Accepted(x.book.dist)
      && Accepted(x.L2)
    ensures Expand(x.items) == x.book.lit[..x.nl] + x.book.dist[..x.nd]
    ensures (forall s :: x.nl <= s < 288 ==> x.book.lit[s] == 0) && (forall s :: x.nd <= s < 32 ==> x.book.dist[s] == 0)
  {
  }

  lemma {:induction false} BookRoundTrip(x: Header, rest: seq<bool>)
    requires HeaderOk(x)
    ensures |x.L2| == 19 && x.nl <= 288 && x.nd <= 32
    ensures forall i :: 0 <= i < |x.items| ==> Symbol(x.items[i]) < |x.L2|
    ensures DecodeBook(x.L2, ItemsBits(x.L2, x.items, 0) + rest, x.nl, x.nd) == Done(x.book, rest)
  {
    hide HeaderOk, Accepted, Expand, ItemsBits, BookOf, DecodeLens;
    HeaderFacts(x);
    LensRoundTrip(x.L2, x.items, 0, rest);
    assert x.items[..0] == [];
    ExpandNothing();
    BookOfLens(x.book, x.nl, x.nd);
  }

  lemma {:induction false} ExpandNothing()
    ensures Expand([]) == []
  {
  }

  lemma {:induction false} NothingSent(L2: seq<nat>)
    requires |L2| == 19
    ensures SentTo(L2, Times(0, 19), 0)
  {
  }

  lemma {:induction false} TailRoundTrip(x: Header, rest: seq<bool>)
    requires HeaderOk(x)
    ensures ReadSizes(HeaderTail(x) + rest, x.nb, 0, Times(0, 19)) == Done(x.L2, ItemsBits(x.L2, x.items, 0) + rest)
  {
    hide Accepted, Expand, ItemsBits, Swizzle, SizesBits, ReadSizes, Times;
    NothingSent(x.L2);
    Assoc(SizesBits(x.L2, x.nb, 0), ItemsBits(x.L2, x.items, 0), rest);
    SizesRoundTrip(x.L2, x.nb, 0, Times(0, 19), ItemsBits(x.L2, x.items, 0) + rest);
  }

  lemma {:induction false} DecodeHeaderStep(b: seq<bool>, nl: nat, t2: seq<bool>, nd: nat, t1: seq<bool>, nb: nat,
      t0: seq<bool>, L2: seq<nat>, t: seq<bool>)
    requires Take(b, 5) == Done(nl, t2) && Take(t2, 5) == Done(nd, t1) && Take(t1, 4) == Done(nb, t0)
    requires nb <= 15 && ReadSizes(t0, nb + 4, 0, Times(0, 19)) == Done(L2, t) && Accepted(L2) && nl <= 31 && nd <= 31
    ensures DecodeHeader(b) == DecodeBook(L2, t, nl + 257, nd + 1)
  {
    hide Take, ReadSizes, DecodeBook, Accepted, Times;
  }

  lemma {:induction false} HeaderShape(x: Header, rest: seq<bool>)
    requires HeaderOk(x)
    ensures HeaderBits(x) + rest == ToBits(x.nl - 257,
      5) + (ToBits(x.nd - 1, 5) + (ToBits(x.nb - 4, 4) + (HeaderTail(x) + rest)))
  {
    hide ToBits, HeaderTail;
    Assoc(ToBits(x.nb - 4, 4), HeaderTail(x), rest);
    Assoc(ToBits(x.nd - 1, 5), ToBits(x.nb - 4, 4) + HeaderTail(x), rest);
    Assoc(ToBits(x.nl - 257, 5), ToBits(x.nd - 1, 5) + (ToBits(x.nb - 4, 4) + HeaderTail(x)), rest);
  }

  /** A header read back gives the two codes. */
  lemma {:induction false} HeaderRoundTrip(x: Header, rest: seq<bool>)
    requires HeaderOk(x)
    ensures DecodeHeader(HeaderBits(x) + rest) == Done(x.book, rest)
  {
    hide HeaderOk, HeaderBits, HeaderTail, Take, DecodeBook, DecodeHeader, ReadSizes, ToBits, ItemsBits, Times,
      Accepted;
    assert Pow2(5) == 32 && Pow2(4) == 16;
    HeaderFacts(x);
    var t0 := HeaderTail(x) + rest;
    var t1 := ToBits(x.nb - 4, 4) + t0;
    var t2 := ToBits(x.nd - 1, 5) + t1;
    HeaderShape(x, rest);
    TakeBack(x.nl - 257, 5, t2);
    TakeBack(x.nd - 1, 5, t1);
    TakeBack(x.nb - 4, 4, t0);
    TailRoundTrip(x, rest);
    BookRoundTrip(x, rest);
    DecodeHeaderStep(HeaderBits(x) + rest, x.nl - 257, t2, x.nd - 1, t1, x.nb - 4, t0, x.L2,
      ItemsBits(x.L2, x.items, 0) + rest);
  }

  // ---- The fixed codes ----

  function FixedLit(): (L: seq<nat>)
    ensures |L| == 288
    ensures forall i :: 0 <= i < 288 ==> L[i] == if i < 144 then 8 else if i < 256 then 9 else if i < 280 then 7 else 8
  {
    seq(288, i => if i < 144 then 8 else if i < 256 then 9 else if i < 280 then 7 else 8)
  }

  function FixedDist(): (L: seq<nat>)
    ensures |L| == 32 && forall i :: 0 <= i < 32 ==> L[i] == 5
  {
    seq(32, _ => 5)
  }

  function Clamp(n: nat, lo: nat, hi: nat): (r: nat)
    requires lo <= hi
  {
    if n < lo then 0 else if n < hi then n - lo else hi - lo
  }

  lemma {:induction false} FixedLitCount(n: nat, i: nat)
    requires n <= 288
    ensures Count(FixedLit(), n, i) ==
      if i == 7 then Clamp(n, 256, 280)
      else if i == 8 then Clamp(n, 0, 144) + Clamp(n, 280, 288)
      else if i == 9 then Clamp(n, 144, 256) else 0
  {
    hide FixedLit;
    if n > 0 { FixedLitCount(n - 1, i); }
  }

  lemma {:induction false} FixedDistCount(n: nat, i: nat)
    requires n <= 32
    ensures Count(FixedDist(), n, i) == if i == 5 then n else 0
  {
    hide FixedDist;
    if n > 0 { FixedDistCount(n - 1, i); }
  }

  /** Without codes of length `i` to `j - 1` the code space only doubles. */
  lemma {:induction false} NoCodesBetween(L: seq<nat>, i: nat, j: nat)
    requires 1 <= i <= j && forall k :: i <= k < j ==> Count(L, |L|, k) == 0
    ensures NextCode(L, j) == Shl(NextCode(L, i), j - i)
  {
    hide Count;
    if i < j { NoCodesBetween(L, i, j - 1); }
  }

  lemma {:induction false} CodesAfter(L: seq<nat>, i: nat)
    requires i >= 1
    ensures NextCode(L, i + 1) == 2 * (NextCode(L, i) + Count(L, |L|, i)) && NextCode(L, 1) == 0
  {
  }

  lemma {:induction false} FixedLitComplete()
    ensures Complete(FixedLit())
  {
    hide FixedLit, Count, NextCode, Shl;
    var L := FixedLit();
    forall i ensures Count(L, 288, i) == if i == 7 then 24 else if i == 8 then 152 else if i == 9 then 112
      else 0 { FixedLitCount(288, i); }
    NoCodesBetween(L, 1, 7);
    ShlZero(6);
    CodesAfter(L, 7);
    CodesAfter(L, 8);
    CodesAfter(L, 9);
    NoCodesBetween(L, 10, 16);
    ShlValues();
  }

  lemma {:induction false} FixedDistComplete()
    ensures Complete(FixedDist())
  {
    hide FixedDist, Count, NextCode, Shl;
    var D := FixedDist();
    forall i ensures Count(D, 32, i) == if i == 5 then 32 else 0 { FixedDistCount(32, i); }
    NoCodesBetween(D, 1, 5);
    ShlZero(4);
    CodesAfter(D, 5);
    NoCodesBetween(D, 6, 16);
    ShlValues();
  }

  lemma {:induction false} ShlValues()
    ensures Shl(1024, 6) == 65536 && Shl(64, 10) == 65536 && Pow2(16) == 65536
  {
    Pow2Values();
    ShlPow2(10, 6);
    ShlPow2(6, 10);
    assert Pow2(6) == 64;
  }

  /** Both fixed codes fill their trees. */
  lemma {:induction false} FixedComplete()
    ensures Complete(FixedLit()) && Complete(FixedDist())
  {
    FixedLitComplete();
    FixedDistComplete();
  }

  // ---- Stored blocks ----

  function BytesOf(b: seq<bool>, n: nat): (s: seq<Byte>)
    requires 8 * n <= |b|
    ensures |s| == n
  {
    if n == 0 then [] else
      Pow2Values();
      [Val(b[..8])] + BytesOf(b[8..], n - 1)
  }

  lemma {:induction false} FirstByte(s: seq<Byte>, rest: seq<bool>)
    requires s != []
    ensures var b := BytesToBits(s) + rest; b[..8] == ToBits(s[0], 8) && b[8..] == BytesToBits(s[1..]) + rest
  {
    hide ToBits;
    Assoc(ToBits(s[0], 8), BytesToBits(s[1..]), rest);
  }

  lemma {:induction false} BytesBack(s: seq<Byte>, rest: seq<bool>)
    ensures BytesOf(BytesToBits(s) + rest, |s|) == s
  {
    hide ToBits, Val, BytesToBits;
    if s != [] {
      Pow2Values();
      FirstByte(s, rest);
      ValToBits(s[0], 8);
      BytesBack(s[1..], rest);
    }
  }

  /** A stored block's length, its complement and its bytes, from the next byte boundary on. */
  ghost function DecodeStored(b: seq<bool>, h: seq<Byte>): (r: Decoded<seq<Byte>>)
    ensures r.Done? ==> |r.rest| <= |b| && h <= r.value
  {
    var len := Take(Skip(b), 16);
    if !len.Done? then Stop(len) else
    var inv := Take(len.rest, 16);
    if !inv.Done? || len.value != 65535 - inv.value || 8 * len.value > |inv.rest| then Failed
    else Done(h + BytesOf(inv.rest, len.value), inv.rest[8 * len.value..])
  }

  /** Padding to the byte boundary, length, complement, bytes. */
  function StoredBits(pad: nat, s: seq<Byte>): (b: seq<bool>)
    requires |s| <= 65535
  {
    ToBits(0, pad) + (ToBits(|s|, 16) + (ToBits(65535 - |s|, 16) + BytesToBits(s)))
  }

  lemma {:induction false} StoredRoundTrip(pad: nat, s: seq<Byte>, h: seq<Byte>, rest: seq<bool>)
    requires |s| <= 65535 && pad < 8 && (pad + |rest|) % 8 == pad
    ensures DecodeStored(StoredBits(pad, s) + rest, h) == Done(h + s, rest)
  {
    Pow2Values();
    hide ToBits, BytesToBits, BytesOf, Take;
    var t0 := BytesToBits(s) + rest;
    var t1 := ToBits(65535 - |s|, 16) + t0;
    var t2 := ToBits(|s|, 16) + t1;
    Assoc(ToBits(65535 - |s|, 16), BytesToBits(s), rest);
    Assoc(ToBits(|s|, 16), ToBits(65535 - |s|, 16) + BytesToBits(s), rest);
    Assoc(ToBits(0, pad), ToBits(|s|, 16) + (ToBits(65535 - |s|, 16) + BytesToBits(s)), rest);
    var b := StoredBits(pad, s) + rest;
    assert b == ToBits(0, pad) + t2;
    assert |b| % 8 == pad;
    assert b[pad..] == t2;
    TakeBack(|s|, 16, t1);
    TakeBack(65535 - |s|, 16, t0);
    BytesBack(s, rest);
    assert t0[8 * |s|..] == rest;
  }

  // ---- Whole blocks ----

  /** What follows the three header bits of a block of the given type, played on `h`. */
  ghost function DecodeType(kind: nat, b: seq<bool>, h: seq<Byte>): (r: Decoded<seq<Byte>>)
    ensures r.Done? ==> |r.rest| <= |b| && h <= r.value
  {
    if kind == 0 then DecodeStored(b, h)
    else if kind == 1 then DecodeBody(FixedLit(), FixedDist(), b, h)
    else if kind == 2 then
      var x := DecodeHeader(b);
      if !x.Done? then Stop(x) else DecodeBody(x.value.lit, x.value.dist, x.rest, h)
    else Failed
  }

  datatype Block = Block(last: bool, data: seq<Byte>)

  ghost function DecodeBlock(b: seq<bool>, h: seq<Byte>): (r: Decoded<Block>)
    ensures r.Done? ==> |r.rest| < |b| && h <= r.value.data
  {
    var t := Take(b, 3);
    if !t.Done? then Stop(t) else
    var d := DecodeType(t.value / 2, t.rest, h);
    if !d.Done? then Stop(d) else Done(Block(t.value % 2 == 1, d.value), d.rest)
  }

  /** The final flag and the block type. */
  function KindBits(last: bool, kind: nat): (b: seq<bool>) {
    ToBits(B(last), 1) + ToBits(kind, 2)
  }

  lemma {:induction false} KindValue(last: bool, kind: nat)
    requires kind < 4
    ensures var v := B(last) + 2 * kind;
      v < Pow2(3) && KindBits(last, kind) == ToBits(v, 3) && v % 2 == B(last) && v / 2 == kind
  {
    assert Pow2(1) == 2 && Pow2(3) == 8;
    ToBitsAppend(B(last), 1, kind, 2);
    assert Shl(kind, 1) == 2 * kind by { assert Shl(kind, 0) == kind; }
  }

  lemma {:induction false} KindRoundTrip(last: bool, kind: nat, x: seq<bool>, h: seq<Byte>, data: seq<Byte>,
      rest: seq<bool>)
    requires kind < 3 && DecodeType(kind, x + rest, h) == Done(data, rest)
    ensures DecodeBlock(KindBits(last, kind) + x + rest, h) == Done(Block(last, data), rest)
  {
    hide ToBits, DecodeType, Take, KindBits, Pow2;
    KindValue(last, kind);
    Assoc(KindBits(last, kind), x, rest);
    TakeBack(B(last) + 2 * kind, 3, x + rest);
  }

  lemma {:induction false} StoredBlock(last: bool, pad: nat, s: seq<Byte>, h: seq<Byte>, rest: seq<bool>)
    requires |s| <= 65535 && pad < 8 && (pad + |rest|) % 8 == pad
    ensures DecodeBlock(KindBits(last, 0) + StoredBits(pad, s) + rest, h) == Done(Block(last, h + s), rest)
  {
    hide DecodeStored, StoredBits, DecodeBlock;
    StoredRoundTrip(pad, s, h, rest);
    KindRoundTrip(last, 0, StoredBits(pad, s), h, h + s, rest);
  }

  lemma {:induction false} FixedBlock(last: bool, ts: seq<Token>, h: seq<Byte>, rest: seq<bool>)
    requires AllWritable(FixedLit(), FixedDist(), ts) && PlayableFrom(h, ts, 0)
    ensures DecodeBlock(KindBits(last, 1) + BlockBits(FixedLit(), FixedDist(), ts, 0) + rest, h)
      == Done(Block(last, PlayFrom(h, ts, 0)), rest)
  {
    hide DecodeBody, BlockBits, PlayFrom, PlayableFrom, DecodeBlock, NextCode, FixedLit, FixedDist, AllWritable;
    FixedComplete();
    BodyRoundTrip(FixedLit(), FixedDist(), ts, 0, h, rest);
    KindRoundTrip(last, 1, BlockBits(FixedLit(), FixedDist(), ts, 0), h, PlayFrom(h, ts, 0), rest);
  }

  lemma {:induction false} DynamicBlock(last: bool, x: Header, ts: seq<Token>, h: seq<Byte>, rest: seq<bool>)
    requires HeaderOk(x) && AllWritable(x.book.lit, x.book.dist, ts) && PlayableFrom(h, ts, 0)
    ensures DecodeBlock(KindBits(last, 2) + (HeaderBits(x) + BlockBits(x.book.lit, x.book.dist, ts, 0)) + rest, h)
      == Done(Block(last, PlayFrom(h, ts, 0)), rest)
  {
    hide HeaderOk, HeaderBits, DecodeHeader, DecodeBody, BlockBits, PlayFrom, PlayableFrom, DecodeBlock, AllWritable,
      Accepted, Fits;
    HeaderFacts(x);
    AcceptedFits(x.book.lit);
    AcceptedFits(x.book.dist);
    var body := BlockBits(x.book.lit, x.book.dist, ts, 0);
    Assoc(HeaderBits(x), body, rest);
    HeaderRoundTrip(x, body + rest);
    BodyRoundTrip(x.book.lit, x.book.dist, ts, 0, h, rest);
    KindRoundTrip(last, 2, HeaderBits(x) + body, h, PlayFrom(h, ts, 0), rest);
  }
}
