/**
 * Runs of the inflater on inputs that are no streams. The first it accepts: a last block whose header names a complete
 * literal code and a distance code without symbols, with a literal and then a match in its body. In the second, a
 * complete code spells a symbol that stands for nothing.
 */
module OutsideRuns {
  import opened Bits
  import opened Canonical
  import opened HuffTable
  import opened LzTokens
  import opened Blocks
  import opened Streams
  import opened CodeLens
  import opened BitReader
  import opened BitSource
  import opened OutWindow
  import opened Departures
  import opened Lenient
  import Spells
  import Inflater

  // ---- The header ----

  /** Four symbols of two bits each: the bytes 0 and 1, the end of the block, and the length 3. */
  function Lits(): (L: seq<nat>)
    ensures |L| == 288 && forall s :: 0 <= s < 288 ==> L[s] == if s < 2 || 256 <= s < 258 then 2 else 0
  {
    seq(288, s => if s < 2 || 256 <= s < 258 then 2 else 0)
  }

  function Dists(): (L: seq<nat>)
    ensures |L| == 32 && forall s :: 0 <= s < 32 ==> L[s] == 0
  {
    seq(32, s => 0)
  }

  /** Four symbols of two bits each: the lengths 0 and 2, and both kinds of runs of zeros. */
  function Sizes(): (L: seq<nat>)
    ensures |L| == 19 && forall s :: 0 <= s < 19 ==> L[s] == if s == 0 || s == 2 || s >= 17 then 2 else 0
  {
    seq(19, s => if s == 0 || s == 2 || s >= 17 then 2 else 0)
  }

  function Items(): (s: seq<Item>) {
    [Length(2), Length(2), ManyZeros(127), ManyZeros(105), Length(2), Length(2), Length(0)]
  }

  lemma {:induction false} LitsCount(n: nat, i: nat)
    requires n <= 288 && i >= 1
    ensures Count(Lits(), n, i) == if i == 2 then Blocks.Clamp(n, 0, 2) + Blocks.Clamp(n, 256, 258) else 0
  {
    hide Lits;
    if n > 0 { LitsCount(n - 1, i); }
  }

  lemma {:induction false} SizesCount(n: nat, i: nat)
    requires n <= 19 && i >= 1
    ensures Count(Sizes(), n, i) ==
      if i == 2 then Blocks.Clamp(n, 0, 1) + Blocks.Clamp(n, 2, 3) + Blocks.Clamp(n, 17, 19) else 0
  {
    hide Sizes;
    if n > 0 { SizesCount(n - 1, i); }
  }

  /** Four symbols of two bits fill the tree. */
  lemma {:induction false} FourComplete(L: seq<nat>)
    requires ValidLens(L) && forall i :: i >= 1 ==> Count(L, |L|, i) == if i == 2 then 4 else 0
    ensures Complete(L) && Accepted(L) && Fits(L)
  {
    hide Count, NextCode, Shl;
    NoCodesBetween(L, 1, 2);
    ShlZero(1);
    CodesAfter(L, 2);
    NoCodesBetween(L, 3, 16);
    ShlPow2(3, 13);
    Pow2Values();
  }

  lemma {:induction false} BothComplete()
    ensures Accepted(Lits()) && Fits(Lits()) && Accepted(Sizes()) && Fits(Sizes())
  {
    hide Lits, Sizes, Accepted, Fits;
    forall i | i >= 1 ensures Count(Lits(), 288, i) == if i == 2 then 4 else 0 { LitsCount(288, i); }
    FourComplete(Lits());
    forall i | i >= 1 ensures Count(Sizes(), 19, i) == if i == 2 then 4 else 0 { SizesCount(19, i); }
    FourComplete(Sizes());
  }

  lemma {:induction false} NoneUsed(n: nat)
    requires n <= 32
    ensures Used(Dists(), n) == 0
  {
    hide Dists;
    if n > 0 { NoneUsed(n - 1); }
  }

  /** Accepted without being complete. */
  lemma {:induction false} DistsBare()
    ensures NoSymbols(Dists()) && Accepted(Dists())
  {
    hide Dists, Complete;
    NoneUsed(32);
  }

  lemma {:induction false} ItemsBegin()
    ensures Expand([Length(2), Length(2), ManyZeros(127), ManyZeros(105)]) == [2, 2] + Times(0, 138) + Times(0, 116)
  {
    hide Expand, Times;
    ExpandNothing();
    var a, x, y := [Length(2)], ManyZeros(127), ManyZeros(105);
    Push([], Length(2));
    assert [] + a == a;
    Push(a, Length(2));
    Push(a + a, x);
    Push(a + a + [x], y);
    assert a + a + [x] + [y] == [Length(2), Length(2), x, y];
    assert Expand(a + a) == [2, 2];
  }

  lemma {:induction false} ItemsExpand()
    ensures Expand(Items()) == Lits()[..258] + Dists()[..1]
  {
    hide Expand, Lits, Dists, Times;
    var b := [Length(2), Length(2), ManyZeros(127), ManyZeros(105)];
    ItemsBegin();
    Push(b, Length(2));
    Push(b + [Length(2)], Length(2));
    Push(b + [Length(2)] + [Length(2)], Length(0));
    assert Items() == b + [Length(2)] + [Length(2)] + [Length(0)];
  }

  ghost function TheHeader(): (x: Header) {
    Header(Book(Lits(), Dists()), Sizes(), Items(), 258, 1, 16)
  }

  lemma {:induction false} HeaderIsOk()
    ensures HeaderOk(TheHeader())
  {
    hide Accepted, Fits, Expand, Lits, Dists, Sizes;
    BothComplete();
    DistsBare();
    ItemsExpand();
  }

  // ---- The input ----

  /** The header's fields. */
  function HeadBits(): (b: seq<bool>) {
    ToBits(1, 5) + (ToBits(0, 5) + (ToBits(12, 4) + (SizesBits(Sizes(), 16, 0) + ItemsBits(Sizes(), Items(), 0))))
  }

  /** The byte 0, the length 3, the end of the block. */
  function BodyBits(rest: seq<bool>): (b: seq<bool>) {
    SymBits(Lits(), 0) + (SymBits(Lits(), 257) + (SymBits(Lits(), 256) + rest))
  }

  function BlockBits(rest: seq<bool>): (b: seq<bool>) {
    KindBits(true, 2) + (HeadBits() + BodyBits(rest))
  }

  /** Zero bits up to a whole number of bytes. */
  function Filler(n: nat): (b: seq<bool>) {
    ToBits(0, (8 - n % 8) % 8)
  }

  function Packed(b: seq<bool>): (s: seq<Byte>) {
    var all := b + Filler(|b|);
    BytesOf(all, |all| / 8)
  }

  lemma {:induction false} BytesThere(b: seq<bool>, n: nat)
    requires |b| == 8 * n
    ensures BytesToBits(BytesOf(b, n)) == b
  {
    if n > 0 {
      hide Val, ToBits;
      Pow2Values();
      BytesThere(b[8..], n - 1);
      ToBitsVal(b[..8]);
      var s := BytesOf(b, n);
      assert s[1..] == BytesOf(b[8..], n - 1);
      assert b == b[..8] + b[8..];
    }
  }

  lemma {:induction false} PackedBits(b: seq<bool>)
    ensures BytesToBits(Packed(b)) == b + Filler(|b|)
  {
    hide BytesToBits, BytesOf, ToBits;
    BytesThere(b + Filler(|b|), |b + Filler(|b|)| / 8);
  }

  function Input(): (s: seq<Byte>) {
    Packed(BlockBits([]))
  }

  /** What fills up the last byte. */
  function Fill(): (b: seq<bool>) {
    Filler(|BlockBits([])|)
  }

  lemma {:induction false} InputBits()
    ensures BytesToBits(Input()) == BlockBits(Fill())
  {
    hide BlockBits, BytesToBits, Packed, Filler;
    PackedBits(BlockBits([]));
    BlockThen([], Fill());
    assert [] + Fill() == Fill();
  }

  // ---- What it decodes to, and what is read ----

  /** The bits of a symbol stand for it. */
  lemma {:induction false} Plain(s: nat, t: seq<bool>)
    requires s in {0, 256, 257}
    ensures DecodeSym(Lits(), SymBits(Lits(), s) + t) == s && (SymBits(Lits(), s) + t)[2..] == t
  {
    hide Lits, Fits, Accepted, DecodeSym;
    BothComplete();
    SymRoundTrip(Lits(), s, t);
  }

  lemma {:induction false} NoDistance(b: seq<bool>)
    ensures DecodeDist(Dists(), b) == Departed(NoCode(Dists())) && ReadDist(Dists(), b) == Done(1, b)
  {
    hide Dists, PathOf, SymId;
    DistsBare();
    assert NoSymbolAhead(Dists(), b);
  }

  lemma {:induction false} Tokens(rest: seq<bool>)
    ensures var t3 := SymBits(Lits(), 256) + rest; var t2 := SymBits(Lits(), 257) + t3; var t1 := SymBits(Lits(),
      0) + t2;
      && DecodeToken(Lits(), Dists(), t1) == Done(Tok(Lit(0)), t2) == ReadToken(Lits(), Dists(), t1)
      && DecodeToken(Lits(), Dists(), t2) == Departed(NoCode(Dists()))
      && ReadToken(Lits(), Dists(), t2) == Done(Tok(Match(3, 1)), t3)
      && ReadToken(Lits(), Dists(), t3) == Done(End, rest)
  {
    hide Lits, Dists, DecodeSym, SymBits, DecodeDist, ReadDist;
    var t3 := SymBits(Lits(), 256) + rest;
    var t2 := SymBits(Lits(), 257) + t3;
    Plain(256, rest);
    Plain(257, t3);
    Plain(0, t2);
    NoDistance(t3);
    assert LengthBase(0) == 3 && LengthExtra(0) == 0;
    assert t2[2..2] == [] && t2[2 + 0..] == t3;
  }

  lemma {:induction false} Bodies(rest: seq<bool>)
    ensures DecodeBody(Lits(), Dists(), BodyBits(rest), []) == Departed(NoCode(Dists()))
    ensures ReadBody(Lits(), Dists(), BodyBits(rest), []) == Done([0, 0, 0, 0], rest)
  {
    hide Lits, Dists, DecodeToken, ReadToken, SymBits, Play;
    Tokens(rest);
    Played();
    var t3 := SymBits(Lits(), 256) + rest;
    var t2 := SymBits(Lits(), 257) + t3;
    assert ReadBody(Lits(), Dists(), t3, [0, 0, 0, 0]) == Done([0, 0, 0, 0], rest);
    assert ReadBody(Lits(), Dists(), t2, [0]) == Done([0, 0, 0, 0], rest);
  }

  lemma {:induction false} Played()
    ensures Playable([], Lit(0)) && Play([], Lit(0)) == [0]
    ensures Playable([0], Match(3, 1)) && Play([0], Match(3, 1)) == [0, 0, 0, 0]
  {
    Spells.PlayLit([], 0);
    assert Copy([0], 1, 1) == [0, 0];
    assert Copy([0], 2, 1) == [0, 0, 0];
  }

  lemma {:induction false} HeadIsHeader()
    ensures HeaderOk(TheHeader()) && HeaderBits(TheHeader()) == HeadBits()
  {
    hide HeaderOk, ToBits, SizesBits, ItemsBits, Sizes, Items, Lits, Dists;
    HeaderIsOk();
  }

  /** By the format, the block leaves it; the inflater reads four zero bytes. */
  lemma {:induction false} BlockReads(rest: seq<bool>)
    ensures DecodeBlock(BlockBits(rest), []) == Departed(NoCode(Dists()))
    ensures ReadBlock(BlockBits(rest), []) == Done(Block(true, [0, 0, 0, 0]), rest)
  {
    hide HeaderOk, HeadBits, HeaderBits, BodyBits, DecodeBody, ReadBody, DecodeHeader, Lits, Dists, KindBits, Take;
    var t := HeadBits() + BodyBits(rest);
    KindValue(true, 2);
    TakeBack(5, 3, t);
    HeadIsHeader();
    HeaderRoundTrip(TheHeader(), BodyBits(rest));
    Bodies(rest);
  }

  lemma {:induction false} StreamReads(rest: seq<bool>)
    ensures DecodeStream(BlockBits(rest), []) == Departed(NoCode(Dists()))
    ensures ReadStream(BlockBits(rest), []) == Done([0, 0, 0, 0], rest)
  {
    hide DecodeBlock, ReadBlock, BlockBits, Dists;
    BlockReads(rest);
  }

  lemma {:induction false} BlockThen(a: seq<bool>, b: seq<bool>)
    ensures BlockBits(a) + b == BlockBits(a + b)
  {
    hide SymBits, HeadBits, KindBits, Lits;
    var x, y, z := SymBits(Lits(), 0), SymBits(Lits(), 257), SymBits(Lits(), 256);
    assert BodyBits(a) + b == BodyBits(a + b);
  }

  /** The input leaves the format: its only block has a match but no distance code. */
  lemma {:induction false} InputEscapes()
    ensures Departs(Input(), [], [], NoCode(Dists())) && Escapes(Input(), [], [])
  {
    hide Input, BlockBits, Dists, DecodeStream, BytesToBits;
    InputBits();
    var b := BytesToBits(Input());
    assert Input() + [] == Input() && Ahead([], Input()) == b;
    forall tail: seq<bool> | Aligned(|tail|) ensures DecodeStream(Ahead([], Input()) + tail, [])
      == Departed(NoCode(Dists())) {
      BlockThen(Fill(), tail);
      StreamReads(Fill() + tail);
    }
    assert StreamLeft([], Input() + [], [], NoCode(Dists()));
    assert AllZero([]);
  }

  /**
   * The inflater accepts the input and puts out four bytes, although no part of the input is a stream, for these bytes
   * or for any others.
   */
  method AcceptNoStream() returns (e: Ending, output: seq<Byte>)
    ensures e.Good? && output == [0, 0, 0, 0]
    ensures DecodeStream(BytesToBits(Input()), []) == Departed(NoCode(Dists()))
    ensures forall n: nat, data: seq<Byte> :: n <= 8 * |Input()| ==>
      !Spells.StreamDone([], BytesToBits(Input())[..n], [], data)
  {
    hide Input, BlockBits, Dists, DecodeStream, ReadStream, BytesToBits, Spells.StreamDone, Departs, Supplied, Ring,
      Place;
    InputBits();
    StreamReads(Fill());
    InputEscapes();
    NoPart();
    var s := new Source([Input()]);
    assert Flatten([Input()]) == Input() + Flatten([]) == Input();
    var k := new Sink(WINDOW);
    e := Inflater.Inflate(s, k, 8 * |Input()| + 1);
    k.Take();
    output := k.taken;
  }

  lemma {:induction false} NoPart()
    ensures forall n: nat, data: seq<Byte> :: n <= 8 * |Input()| ==>
      !Spells.StreamDone([], BytesToBits(Input())[..n], [], data)
  {
    hide Input, Dists, BytesToBits, Spells.StreamDone, Departs;
    InputEscapes();
    assert Input() + [] == Input() && AllZero([]);
    forall n: nat, data: seq<Byte> | n <= 8 * |Input()|
      ensures !Spells.StreamDone([], BytesToBits(Input())[..n], [], data)
    {
      DepartedIsNone(Input(), [], [], BytesToBits(Input())[..n], [], data, NoCode(Dists()));
    }
  }

  // ---- A symbol that stands for nothing ----

  /** A fixed block: the byte 0, symbol 286, the first distance symbol, the end of the block. */
  function FixedBits(rest: seq<bool>): (b: seq<bool>) {
    KindBits(true, 1) + (SymBits(FixedLit(), 0) + (SymBits(FixedLit(), 286) + (SymBits(FixedDist(), 0)
      + (SymBits(FixedLit(), 256) + rest))))
  }

  lemma {:induction false} FixedSymbol(s: nat, t: seq<bool>)
    requires s < 288
    ensures DecodeSym(FixedLit(), SymBits(FixedLit(), s) + t) == s
    ensures (SymBits(FixedLit(), s) + t)[FixedLit()[s]..] == t
  {
    hide FixedLit, DecodeSym, Complete, Fits;
    FixedComplete();
    CompleteFits(FixedLit());
    SymRoundTrip(FixedLit(), s, t);
  }

  lemma {:induction false} CompleteFits(L: seq<nat>)
    requires Complete(L)
    ensures Fits(L)
  {
  }

  lemma {:induction false} FixedTokens(t: seq<bool>)
    ensures var b := SymBits(FixedLit(), 0) + (SymBits(FixedLit(), 286) + t);
      && DecodeBody(FixedLit(), FixedDist(), b, []) == Departed(NoMeaning)
      && ReadBody(FixedLit(), FixedDist(), b, []) == Departed(NoMeaning)
  {
    hide FixedLit, FixedDist, DecodeSym, SymBits, Play, DecodeDist, ReadDist;
    var u := SymBits(FixedLit(), 286) + t;
    FixedSymbol(286, t);
    FixedSymbol(0, u);
    assert DecodeToken(FixedLit(), FixedDist(), SymBits(FixedLit(), 0) + u) == Done(Tok(Lit(0)), u);
    Played();
  }

  lemma {:induction false} FixedReads(rest: seq<bool>)
    ensures DecodeStream(FixedBits(rest), []) == Departed(NoMeaning)
    ensures ReadStream(FixedBits(rest), []) == Departed(NoMeaning)
  {
    hide FixedLit, FixedDist, SymBits, KindBits, DecodeBody, ReadBody, Take;
    var t := SymBits(FixedDist(), 0) + (SymBits(FixedLit(), 256) + rest);
    KindValue(true, 1);
    TakeBack(3, 3, SymBits(FixedLit(), 0) + (SymBits(FixedLit(), 286) + t));
    FixedTokens(t);
  }

  lemma {:induction false} FixedThen(a: seq<bool>)
    ensures FixedBits([]) + a == FixedBits(a)
  {
    hide FixedLit, FixedDist, SymBits, KindBits;
  }

  /** The inflater stops at the symbol, outside the format, although both codes are complete. */
  method StopAtNoMeaning() returns (e: Ending, input: seq<Byte>)
    ensures e.Outside? && input == Packed(FixedBits([]))
    ensures DecodeStream(BytesToBits(input), []) == Departed(NoMeaning)
  {
    hide Packed, FixedBits, DecodeStream, ReadStream, BytesToBits, Supplied, Ring, Place, Filler, Departs, Escapes,
      Spells.StreamDone;
    input := Packed(FixedBits([]));
    PackedBits(FixedBits([]));
    FixedThen(Filler(|FixedBits([])|));
    FixedReads(Filler(|FixedBits([])|));
    var s := new Source([input]);
    assert Flatten([input]) == input + Flatten([]) == input;
    var k := new Sink(WINDOW);
    e := Inflater.Inflate(s, k, 8 * |input| + 1);
  }
}
