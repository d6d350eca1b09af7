/**
 * How the inflater leaves the format without noticing: bits that no code continues, symbols that do not exist, and
 * matches that reach before the output. What is ahead of the reader then has no decoding, however it goes on.
 */
module Departures {
  import opened Bits
  import opened Canonical
  import opened LzTokens
  import opened Blocks
  import opened Streams
  import opened BitReader
  import opened BitSource
  import opened Spells
  import CodeLens

  // ---- What is ahead ----

  lemma {:induction false} AheadSplit(c0: seq<bool>, c1: seq<bool>, fed: seq<Byte>, tail: seq<bool>)
    requires c0 <= c1 <= BytesToBits(fed)
    ensures c0 <= BytesToBits(fed) && Ahead(c0, fed) + tail == Taken(c0, c1) + (Ahead(c1, fed) + tail)
  {
    hide BytesToBits;
    Assoc(Taken(c0, c1), Ahead(c1, fed), tail);
  }

  /** More input behind it. */
  ghost function Behind(fed: seq<Byte>, fed': seq<Byte>): (b: seq<bool>) {
    if fed <= fed' then BytesToBits(fed'[|fed|..]) else []
  }

  lemma {:induction false} AheadGrows(c: seq<bool>, fed: seq<Byte>, fed': seq<Byte>, tail: seq<bool>)
    requires c <= BytesToBits(fed) && fed <= fed'
    ensures c <= BytesToBits(fed') && Ahead(c, fed') + tail == Ahead(c, fed) + (Behind(fed, fed') + tail)
    ensures Aligned(|tail|) ==> Aligned(|Behind(fed, fed') + tail|)
  {
    hide BytesToBits, Aligned;
    BytesPrefix(fed, fed');
    BehindSize(fed, fed', tail);
    Assoc(Ahead(c, fed), Behind(fed, fed'), tail);
  }

  lemma {:induction false} BehindSize(fed: seq<Byte>, fed': seq<Byte>, tail: seq<bool>)
    ensures Aligned(|tail|) ==> Aligned(|Behind(fed, fed') + tail|)
  {
    hide BytesToBits;
    var b := Behind(fed, fed');
    assert |b + tail| == (if fed <= fed' then 8 * (|fed'| - |fed|) else 0) + |tail|;
  }

  /** No symbol's code continues the bits ahead. */
  ghost predicate SymLeft(L: seq<nat>, c: seq<bool>, fed: seq<Byte>) {
    c <= BytesToBits(fed) && NoSymbolAhead(L, Ahead(c, fed))
  }

  lemma {:induction false} StillAhead(L: seq<nat>, b: seq<bool>, tail: seq<bool>)
    requires NoSymbolAhead(L, b)
    ensures NoSymbolAhead(L, b + tail) && DecodeSym(L, b + tail) < 0
  {
    hide Canonical.Match;
    forall s: nat, t: seq<bool> ensures !Canonical.Match(L, s, b + tail + t) { Assoc(b, tail, t); }
    assert b + tail + [] == b + tail;
    forall s: nat ensures !Canonical.Match(L, s, b + tail) {}
  }

  lemma {:induction false} SymGrows(L: seq<nat>, c: seq<bool>, fed: seq<Byte>, fed': seq<Byte>)
    requires SymLeft(L, c, fed) && fed <= fed'
    ensures SymLeft(L, c, fed')
  {
    hide Ahead, NoSymbolAhead, BytesToBits;
    AheadGrows(c, fed, fed', []);
    assert Ahead(c, fed') + [] == Ahead(c, fed') && Behind(fed, fed') + [] == Behind(fed, fed');
    StillAhead(L, Ahead(c, fed), Behind(fed, fed'));
  }

  /** The full alphabet has no symbol ahead where the trimmed one has none. */
  lemma {:induction false} PadAhead(M: seq<nat>, n: nat, b: seq<bool>)
    requires |M| <= n && NoSymbolAhead(M, b)
    ensures NoSymbolAhead(Pad(M, n), b)
  {
    PadIsTrim(M, n);
    forall s: nat, t: seq<bool> ensures !Canonical.Match(Pad(M, n), s, b + t) {
      hide PathOf, SymId;
      assert !Canonical.Match(M, s, b + t);
      TrimMatch(M, Pad(M, n), s, b + t);
    }
  }

  // ---- Headers ----

  ghost predicate LensLeft(L2: seq<nat>, total: nat, c: seq<bool>, fed: seq<Byte>, way: Way)
    requires |L2| == 19
  {
    && c <= BytesToBits(fed)
    && forall tail: seq<bool> :: CodeLens.DecodeLens(L2, Ahead(c, fed) + tail, total, []) == Departed(way)
  }

  lemma {:induction false} LensGrows(L2: seq<nat>, total: nat, c: seq<bool>, fed: seq<Byte>, fed': seq<Byte>, way: Way)
    requires |L2| == 19 && LensLeft(L2, total, c, fed, way) && fed <= fed'
    ensures LensLeft(L2, total, c, fed', way)
  {
    hide Ahead, CodeLens.DecodeLens, BytesToBits, Behind;
    AheadGrows(c, fed, fed', []);
    forall tail: seq<bool> ensures CodeLens.DecodeLens(L2, Ahead(c, fed') + tail, total, []) == Departed(way) {
      AheadGrows(c, fed, fed', tail);
    }
  }

  lemma {:induction false} ItemLeaves(L2: seq<nat>, b: seq<bool>, total: nat, acc: seq<nat>)
    requires |L2| == 19 && NoSymbolAhead(L2, b) && DecodeSym(L2, b) < 0 && |acc| < total
    ensures CodeLens.DecodeLens(L2, b, total, acc) == Departed(NoCode(L2))
  {
  }

  lemma {:induction false} LensLeaves(c0: seq<bool>, c1: seq<bool>, L2: seq<nat>, total: nat, acc: seq<nat>,
      fed: seq<Byte>)
    requires |L2| == 19 && LensRead(c0, c1, L2, total, acc) && |acc| < total && SymLeft(L2, c1, fed)
    ensures LensLeft(L2, total, c0, fed, NoCode(L2))
  {
    hide Ahead, Taken, NoSymbolAhead, CodeLens.DecodeLens, BytesToBits;
    AheadSplit(c0, c1, fed, []);
    forall tail: seq<bool> ensures CodeLens.DecodeLens(L2, Ahead(c0, fed) + tail, total, []) == Departed(NoCode(L2)) {
      AheadSplit(c0, c1, fed, tail);
      StillAhead(L2, Ahead(c1, fed), tail);
      ItemLeaves(L2, Ahead(c1, fed) + tail, total, acc);
    }
  }

  ghost predicate HeaderLeft(c: seq<bool>, fed: seq<Byte>, way: Way) {
    c <= BytesToBits(fed) && forall tail: seq<bool> :: DecodeHeader(Ahead(c, fed) + tail) == Departed(way)
  }

  lemma {:induction false} BookLeaves(L2: seq<nat>, b: seq<bool>, nl: nat, nd: nat, way: Way)
    requires |L2| == 19 && nl <= 288 && nd <= 32 && CodeLens.DecodeLens(L2, b, nl + nd, []) == Departed(way)
    ensures DecodeBook(L2, b, nl, nd) == Departed(way)
  {
    hide CodeLens.DecodeLens, Accepted;
  }

  lemma {:induction false} HeaderLeaves(c0: seq<bool>, nl: nat, nd: nat, nb: nat, c3: seq<bool>, c4: seq<bool>,
      L2: seq<nat>,
      fed: seq<Byte>, way: Way)
    requires nl < 32 && nd < 32 && nb < 16 && c3 == c0 + ToBits(nl, 5) + ToBits(nd, 5) + ToBits(nb, 4)
    requires |L2| == 19 && SizesRead(c3, c4, nb + 4, nb + 4, L2) && Accepted(L2)
    requires LensLeft(L2, nl + 257 + (nd + 1), c4, fed, way)
    ensures HeaderLeft(c0, fed, way)
  {
    hide Ahead, Taken, Accepted, ToBits, ReadSizes, DecodeBook, DecodeHeader, CodeLens.Times, CodeLens.DecodeLens,
      BytesToBits;
    HeaderStart(c0, nl, nd, nb, []);
    TakenJoin(c0, c3, c4, []);
    AheadSplit(c0, c4, fed, []);
    forall tail: seq<bool> ensures DecodeHeader(Ahead(c0, fed) + tail) == Departed(way) {
      AheadSplit(c0, c4, fed, tail);
      var t := Ahead(c4, fed) + tail;
      HeaderTo(c0, nl, nd, nb, c3, c4, L2, t);
      BookLeaves(L2, t, nl + 257, nd + 1, way);
    }
  }

  // ---- Bodies ----

  ghost predicate DistLeft(L1: seq<nat>, c: seq<bool>, fed: seq<Byte>, way: Way)
    requires |L1| == 32
  {
    c <= BytesToBits(fed) && forall tail: seq<bool> :: DecodeDist(L1, Ahead(c, fed) + tail) == Departed(way)
  }

  lemma {:induction false} DistGrows(L1: seq<nat>, c: seq<bool>, fed: seq<Byte>, fed': seq<Byte>, way: Way)
    requires |L1| == 32 && DistLeft(L1, c, fed, way) && fed <= fed'
    ensures DistLeft(L1, c, fed', way)
  {
    hide Ahead, DecodeDist, BytesToBits, Behind;
    AheadGrows(c, fed, fed', []);
    forall tail: seq<bool> ensures DecodeDist(L1, Ahead(c, fed') + tail)
      == Departed(way) { AheadGrows(c, fed, fed', tail); }
  }

  lemma {:induction false} DistStray(M1: seq<nat>, c: seq<bool>, fed: seq<Byte>)
    requires |M1| <= 32 && SymLeft(M1, c, fed)
    ensures DistLeft(Pad(M1, 32), c, fed, NoCode(Pad(M1, 32)))
  {
    hide Ahead, NoSymbolAhead, Pad, BytesToBits, DecodeField;
    PadAhead(M1, 32, Ahead(c, fed));
    forall tail: seq<bool> ensures DecodeDist(Pad(M1, 32), Ahead(c, fed) + tail) == Departed(NoCode(Pad(M1, 32))) {
      StillAhead(Pad(M1, 32), Ahead(c, fed), tail);
    }
  }

  /** Distance symbols 30 and 31. */
  lemma {:induction false} DistWrong(M1: seq<nat>, c0: seq<bool>, c1: seq<bool>, sym: nat, fed: seq<Byte>)
    requires |M1| <= 32 && Fits(M1) && Fits(Pad(M1, 32)) && sym >= 30 && Spelled(M1, sym, c0, c1)
      && c1 <= BytesToBits(fed)
    ensures DistLeft(Pad(M1, 32), c0, fed, NoMeaning)
  {
    hide Ahead, Taken, Pad, BytesToBits, DecodeField, DecodeSym, Fits, SymBits;
    var y := SymBits(M1, sym);
    TakenNone(c0, []);
    TakenMore(c0, c0, y, []);
    AheadSplit(c0, c1, fed, []);
    forall tail: seq<bool> ensures DecodeDist(Pad(M1, 32), Ahead(c0, fed) + tail) == Departed(NoMeaning) {
      var t := Ahead(c1, fed) + tail;
      AheadSplit(c0, c1, fed, tail);
      TakenMore(c0, c0, y, t);
      TakenNone(c0, y + t);
      SymSpelled(M1, 32, sym, t);
    }
  }

  ghost predicate TokenLeft(L0: seq<nat>, L1: seq<nat>, c: seq<bool>, fed: seq<Byte>, way: Way)
    requires |L0| == 288 && |L1| == 32
  {
    c <= BytesToBits(fed) && forall tail: seq<bool> :: DecodeToken(L0, L1, Ahead(c, fed) + tail) == Departed(way)
  }

  lemma {:induction false} TokenStray(M0: seq<nat>, L1: seq<nat>, c: seq<bool>, fed: seq<Byte>)
    requires |M0| <= 288 && |L1| == 32 && SymLeft(M0, c, fed)
    ensures TokenLeft(Pad(M0, 288), L1, c, fed, NoCode(Pad(M0, 288)))
  {
    hide Ahead, NoSymbolAhead, Pad, BytesToBits, DecodeField, DecodeDist;
    PadAhead(M0, 288, Ahead(c, fed));
    forall tail: seq<bool> ensures DecodeToken(Pad(M0, 288), L1, Ahead(c, fed) + tail)
      == Departed(NoCode(Pad(M0, 288))) {
      StillAhead(Pad(M0, 288), Ahead(c, fed), tail);
    }
  }

  /** Length symbols 286 and 287. */
  lemma {:induction false} TokenWrong(M0: seq<nat>, L1: seq<nat>, c0: seq<bool>, c1: seq<bool>, sym: nat,
      fed: seq<Byte>)
    requires |M0| <= 288 && |L1| == 32 && Fits(M0) && Fits(Pad(M0, 288)) && sym > 285 && Spelled(M0, sym, c0, c1)
    requires c1 <= BytesToBits(fed)
    ensures TokenLeft(Pad(M0, 288), L1, c0, fed, NoMeaning)
  {
    hide Ahead, Taken, Pad, BytesToBits, DecodeField, DecodeDist, DecodeSym, Fits, SymBits;
    var y := SymBits(M0, sym);
    TakenNone(c0, []);
    TakenMore(c0, c0, y, []);
    AheadSplit(c0, c1, fed, []);
    forall tail: seq<bool> ensures DecodeToken(Pad(M0, 288), L1, Ahead(c0, fed) + tail) == Departed(NoMeaning) {
      var t := Ahead(c1, fed) + tail;
      AheadSplit(c0, c1, fed, tail);
      TakenMore(c0, c0, y, t);
      TakenNone(c0, y + t);
      SymSpelled(M0, 288, sym, t);
    }
  }

  /** A length, and then no distance. */
  lemma {:induction false} TokenNoDist(M0: seq<nat>, L1: seq<nat>, c0: seq<bool>, sym: nat, v: nat, c1: seq<bool>,
      fed: seq<Byte>, way: Way)
    requires |M0| <= 288 && |L1| == 32 && Fits(M0) && Fits(Pad(M0, 288)) && 256 < sym <= 285 && sym < |M0|
      && M0[sym] > 0
    requires v < Pow2(LengthExtra(sym - 257)) && c1 == c0 + SymBits(M0, sym) + ToBits(v, LengthExtra(sym - 257))
    requires DistLeft(L1, c1, fed, way)
    ensures TokenLeft(Pad(M0, 288), L1, c0, fed, way)
  {
    hide Ahead, Taken, Pad, BytesToBits, DecodeField, DecodeDist, DecodeSym, Fits, SymBits, ToBits, LengthBase,
      LengthExtra, Pow2;
    var y, z := SymBits(M0, sym), ToBits(v, LengthExtra(sym - 257));
    TakenNone(c0, []);
    TakenMore(c0, c0, y, []);
    TakenMore(c0, c0 + y, z, []);
    AheadSplit(c0, c1, fed, []);
    forall tail: seq<bool> ensures DecodeToken(Pad(M0, 288), L1, Ahead(c0, fed) + tail) == Departed(way) {
      var t := Ahead(c1, fed) + tail;
      AheadSplit(c0, c1, fed, tail);
      TakenMore(c0, c0 + y, z, t);
      TakenMore(c0, c0, y, z + t);
      TakenNone(c0, y + (z + t));
      SymSpelled(M0, 288, sym, z + t);
      FieldSpelled(Pad(M0, 288), y, sym, LengthBase(sym - 257), LengthExtra(sym - 257), v, t);
    }
  }

  ghost predicate BodyLeft(L0: seq<nat>, L1: seq<nat>, c: seq<bool>, fed: seq<Byte>, h: seq<Byte>, way: Way)
    requires |L0| == 288 && |L1| == 32
  {
    c <= BytesToBits(fed) && forall tail: seq<bool> :: DecodeBody(L0, L1, Ahead(c, fed) + tail, h) == Departed(way)
  }

  lemma {:induction false} BodyGrows(L0: seq<nat>, L1: seq<nat>, c: seq<bool>, fed: seq<Byte>, fed': seq<Byte>,
      h: seq<Byte>, way: Way)
    requires |L0| == 288 && |L1| == 32 && BodyLeft(L0, L1, c, fed, h, way) && fed <= fed'
    ensures BodyLeft(L0, L1, c, fed', h, way)
  {
    hide Ahead, DecodeBody, BytesToBits, Behind;
    AheadGrows(c, fed, fed', []);
    forall tail: seq<bool> ensures DecodeBody(L0, L1, Ahead(c, fed') + tail, h)
      == Departed(way) { AheadGrows(c, fed, fed', tail); }
  }

  lemma {:induction false} BodyDeparts(L0: seq<nat>, L1: seq<nat>, b: seq<bool>, h: seq<Byte>, way: Way)
    requires |L0| == 288 && |L1| == 32 && DecodeToken(L0, L1, b) == Departed(way)
    ensures DecodeBody(L0, L1, b, h) == Departed(way)
  {
    hide DecodeToken, Play, Playable;
  }

  lemma {:induction false} BodyLeaves(L0: seq<nat>, L1: seq<nat>, c0: seq<bool>, c1: seq<bool>, fed: seq<Byte>,
      h0: seq<Byte>,
      h: seq<Byte>, way: Way)
    requires |L0| == 288 && |L1| == 32 && BodyRead(L0, L1, c0, c1, h0, h) && TokenLeft(L0, L1, c1, fed, way)
    ensures BodyLeft(L0, L1, c0, fed, h0, way)
  {
    hide Ahead, Taken, DecodeBody, DecodeToken, BytesToBits;
    AheadSplit(c0, c1, fed, []);
    forall tail: seq<bool> ensures DecodeBody(L0, L1, Ahead(c0, fed) + tail, h0) == Departed(way) {
      AheadSplit(c0, c1, fed, tail);
      BodyDeparts(L0, L1, Ahead(c1, fed) + tail, h, way);
    }
  }

  lemma {:induction false} BodyTooFar(L0: seq<nat>, L1: seq<nat>, b: seq<bool>, h: seq<Byte>, t: Token, rest: seq<bool>)
    requires |L0| == 288 && |L1| == 32 && DecodeToken(L0, L1, b) == Done(Tok(t), rest) && !Playable(h, t)
    ensures DecodeBody(L0, L1, b, h) == Departed(TooFar)
  {
    hide DecodeToken, Play, Playable;
  }

  /** A match that reaches before the output. */
  lemma {:induction false} BodyFar(L0: seq<nat>, L1: seq<nat>, c0: seq<bool>, c1: seq<bool>, c2: seq<bool>,
      fed: seq<Byte>,
      h0: seq<Byte>, h: seq<Byte>, t: Token)
    requires |L0| == 288 && |L1| == 32 && BodyRead(L0, L1, c0, c1, h0, h) && TokenRead(L0, L1, c1, c2, Tok(t))
    requires !Playable(h, t) && c2 <= BytesToBits(fed)
    ensures BodyLeft(L0, L1, c0, fed, h0, TooFar)
  {
    hide Ahead, Taken, DecodeBody, DecodeToken, BytesToBits, Playable;
    TakenJoin(c0, c1, c2, []);
    AheadSplit(c0, c2, fed, []);
    forall tail: seq<bool> ensures DecodeBody(L0, L1, Ahead(c0, fed) + tail, h0) == Departed(TooFar) {
      var r := Ahead(c2, fed) + tail;
      AheadSplit(c0, c2, fed, tail);
      TakenJoin(c0, c1, c2, r);
      BodyTooFar(L0, L1, Taken(c1, c2) + r, h, t, r);
    }
  }

  lemma {:induction false} BodyJoinLeft(L0: seq<nat>, L1: seq<nat>, c0: seq<bool>, c1: seq<bool>, fed: seq<Byte>,
      h0: seq<Byte>,
      h: seq<Byte>, way: Way)
    requires |L0| == 288 && |L1| == 32 && BodyRead(L0, L1, c0, c1, h0, h) && BodyLeft(L0, L1, c1, fed, h, way)
    ensures BodyLeft(L0, L1, c0, fed, h0, way)
  {
    hide Ahead, Taken, DecodeBody, BytesToBits;
    AheadSplit(c0, c1, fed, []);
    forall tail: seq<bool> ensures DecodeBody(L0, L1, Ahead(c0, fed) + tail, h0)
      == Departed(way) { AheadSplit(c0, c1, fed, tail); }
  }

  // ---- Blocks and streams ----

  ghost predicate TypeLeft(kind: nat, c: seq<bool>, fed: seq<Byte>, h: seq<Byte>, way: Way) {
    c <= BytesToBits(fed) && forall tail: seq<bool> :: DecodeType(kind, Ahead(c, fed) + tail, h) == Departed(way)
  }

  lemma {:induction false} TypeGrows(kind: nat, c: seq<bool>, fed: seq<Byte>, fed': seq<Byte>, h: seq<Byte>, way: Way)
    requires TypeLeft(kind, c, fed, h, way) && fed <= fed'
    ensures TypeLeft(kind, c, fed', h, way)
  {
    hide Ahead, DecodeType, BytesToBits, Behind;
    AheadGrows(c, fed, fed', []);
    forall tail: seq<bool> ensures DecodeType(kind, Ahead(c, fed') + tail, h)
      == Departed(way) { AheadGrows(c, fed, fed', tail); }
  }

  lemma {:induction false} FixedLeaves(c: seq<bool>, fed: seq<Byte>, h: seq<Byte>, way: Way)
    requires BodyLeft(FixedLit(), FixedDist(), c, fed, h, way)
    ensures TypeLeft(1, c, fed, h, way)
  {
    hide Ahead, DecodeBody, BytesToBits, FixedLit, FixedDist;
  }

  lemma {:induction false} DynamicLeaves(c: seq<bool>, fed: seq<Byte>, h: seq<Byte>, way: Way)
    requires HeaderLeft(c, fed, way)
    ensures TypeLeft(2, c, fed, h, way)
  {
    hide Ahead, DecodeBody, DecodeHeader, BytesToBits;
  }

  lemma {:induction false} DynamicBodyLeaves(c0: seq<bool>, c1: seq<bool>, fed: seq<Byte>, M0: seq<nat>, M1: seq<nat>,
      h: seq<Byte>, way: Way)
    requires HeaderRead(c0, c1, M0, M1) && Accepted(Pad(M0, 288)) && Accepted(Pad(M1, 32))
    requires BodyLeft(Pad(M0, 288), Pad(M1, 32), c1, fed, h, way)
    ensures TypeLeft(2, c0, fed, h, way)
  {
    hide Ahead, Taken, DecodeBody, DecodeHeader, BytesToBits, Pad, Accepted;
    AheadSplit(c0, c1, fed, []);
    forall tail: seq<bool> ensures DecodeType(2, Ahead(c0, fed) + tail, h)
      == Departed(way) { AheadSplit(c0, c1, fed, tail); }
  }

  ghost predicate BlockLeft(c: seq<bool>, fed: seq<Byte>, h: seq<Byte>, way: Way) {
    c <= BytesToBits(fed) && forall tail: seq<bool> :: DecodeBlock(Ahead(c, fed) + tail, h) == Departed(way)
  }

  lemma {:induction false} BlockLeaves(c: seq<bool>, v: nat, fed: seq<Byte>, h: seq<Byte>, way: Way)
    requires v < 8 && TypeLeft(v / 2, c + ToBits(v, 3), fed, h, way)
    ensures BlockLeft(c, fed, h, way)
  {
    hide Ahead, Taken, DecodeType, BytesToBits, ToBits, Take;
    assert Pow2(3) == 8;
    var y := ToBits(v, 3);
    TakenNone(c, []);
    TakenMore(c, c, y, []);
    AheadSplit(c, c + y, fed, []);
    forall tail: seq<bool> ensures DecodeBlock(Ahead(c, fed) + tail, h) == Departed(way) {
      var t := Ahead(c + y, fed) + tail;
      AheadSplit(c, c + y, fed, tail);
      TakenMore(c, c, y, t);
      TakenNone(c, y + t);
      TakeBack(v, 3, t);
    }
  }

  ghost predicate StreamLeft(c: seq<bool>, fed: seq<Byte>, h: seq<Byte>, way: Way) {
    && c <= BytesToBits(fed)
    && forall tail: seq<bool> :: Aligned(|tail|) ==> DecodeStream(Ahead(c, fed) + tail, h) == Departed(way)
  }

  lemma {:induction false} StreamGrows(c: seq<bool>, fed: seq<Byte>, fed': seq<Byte>, h: seq<Byte>, way: Way)
    requires StreamLeft(c, fed, h, way) && fed <= fed'
    ensures StreamLeft(c, fed', h, way)
  {
    hide Ahead, DecodeStream, BytesToBits, Behind, Aligned;
    AheadGrows(c, fed, fed', []);
    forall tail: seq<bool> | Aligned(|tail|) ensures DecodeStream(Ahead(c, fed') + tail, h) == Departed(way) {
      AheadGrows(c, fed, fed', tail);
    }
  }

  lemma {:induction false} StreamDeparts(b: seq<bool>, h: seq<Byte>, way: Way)
    requires DecodeBlock(b, h) == Departed(way)
    ensures DecodeStream(b, h) == Departed(way)
  {
    hide DecodeBlock;
  }

  lemma {:induction false} AheadSize(c: seq<bool>, fed: seq<Byte>, tail: seq<bool>)
    requires c <= BytesToBits(fed) && Aligned(|tail|)
    ensures Aligned(|c| + |Ahead(c, fed) + tail|)
  {
    hide BytesToBits;
    assert |c| + |Ahead(c, fed) + tail| == 8 * |fed| + |tail|;
  }

  lemma {:induction false} StreamLeaves(c0: seq<bool>, c1: seq<bool>, fed: seq<Byte>, h0: seq<Byte>, h: seq<Byte>,
      way: Way)
    requires StreamRead(c0, c1, h0, h) && BlockLeft(c1, fed, h, way)
    ensures StreamLeft(c0, fed, h0, way)
  {
    hide Ahead, Taken, DecodeStream, DecodeBlock, BytesToBits, Aligned;
    AheadSplit(c0, c1, fed, []);
    forall tail: seq<bool> | Aligned(|tail|) ensures DecodeStream(Ahead(c0, fed) + tail, h0) == Departed(way) {
      AheadSplit(c0, c1, fed, tail);
      AheadSize(c1, fed, tail);
      StreamDeparts(Ahead(c1, fed) + tail, h, way);
    }
  }

  // ---- Of the input alone ----

  /** Followed by some zero bytes, the input from `c` on leaves the format, and nothing behind them can change that. */
  ghost predicate Departs(whole: seq<Byte>, c: seq<bool>, h: seq<Byte>, way: Way) {
    exists pad: seq<Byte> :: AllZero(pad) && StreamLeft(c, whole + pad, h, way)
  }

  /** It leaves the format in some way. */
  ghost predicate Escapes(whole: seq<Byte>, c: seq<bool>, h: seq<Byte>) {
    exists way: Way :: Departs(whole, c, h, way)
  }

  lemma {:induction false} InputDeparts(fed: seq<Byte>, more: bool, chunks: seq<seq<Byte>>, whole: seq<Byte>,
      c: seq<bool>, h: seq<Byte>, way: Way)
    requires Supplied(fed, more, chunks, whole) && StreamLeft(c, fed, h, way)
    ensures Departs(whole, c, h, way)
  {
    hide StreamLeft, AllZero;
    var pad := Padding(fed, more, chunks, whole);
    StreamGrows(c, fed, whole + pad, h, way);
  }

  lemma {:induction false} ZeroOrder(whole: seq<Byte>, a: seq<Byte>, b: seq<Byte>)
    requires AllZero(a) && AllZero(b) && |a| <= |b|
    ensures whole + a <= whole + b
  {
    assert b[..|a|] == a;
  }

  lemma {:induction false} LeftHere(fed: seq<Byte>, c: seq<bool>, h: seq<Byte>, way: Way)
    requires StreamLeft(c, fed, h, way)
    ensures c <= BytesToBits(fed) && DecodeStream(Ahead(c, fed), h) == Departed(way)
  {
    hide Ahead, DecodeStream, BytesToBits;
    assert Ahead(c, fed) + [] == Ahead(c, fed);
  }

  lemma {:induction false} DoneHere(fed: seq<Byte>, c0: seq<bool>, c1: seq<bool>, h0: seq<Byte>, h: seq<Byte>)
    requires StreamDone(c0, c1, h0, h) && c1 <= BytesToBits(fed)
    ensures DecodeStream(Ahead(c0, fed), h0).Done?
  {
    hide Ahead, Taken, DecodeStream, BytesToBits, Aligned;
    AheadSplit(c0, c1, fed, []);
    assert Ahead(c0, fed) + [] == Ahead(c0, fed);
    assert Aligned(0) by { AlignedNone(); }
    AheadSize(c1, fed, []);
  }

  lemma {:induction false} AlignedNone()
    ensures Aligned(0)
  {
  }

  /** However many zero bytes have been supplied, with some more the input is seen to depart. */
  lemma {:induction false} DepartsHere(whole: seq<Byte>, pad: seq<Byte>, c: seq<bool>, h: seq<Byte>, way: Way)
    returns (f: seq<Byte>)
    requires Departs(whole, c, h, way) && AllZero(pad)
    ensures whole + pad <= f && c <= BytesToBits(f) && DecodeStream(Ahead(c, f), h) == Departed(way)
  {
    hide StreamLeft, AllZero, BytesToBits, DecodeStream, Ahead;
    var q: seq<Byte> :| AllZero(q) && StreamLeft(c, whole + q, h, way);
    f := if |q| <= |pad| then whole + pad else whole + q;
    if |q| <= |pad| {
      ZeroOrder(whole, q, pad);
      StreamGrows(c, whole + q, f, h, way);
    } else {
      ZeroOrder(whole, pad, q);
    }
    LeftHere(f, c, h, way);
  }

  /** What departs is no stream: no bits taken from it are. */
  lemma {:induction false} DepartedIsNone(whole: seq<Byte>, pad: seq<Byte>, c0: seq<bool>, c1: seq<bool>, h0: seq<Byte>,
      h: seq<Byte>, way: Way)
    requires Departs(whole, c0, h0, way) && AllZero(pad) && c1 <= BytesToBits(whole + pad)
    ensures !StreamDone(c0, c1, h0, h)
  {
    hide Departs, StreamDone, AllZero, BytesToBits, DecodeStream, Ahead;
    var f := DepartsHere(whole, pad, c0, h0, way);
    BytesPrefix(whole + pad, f);
    if StreamDone(c0, c1, h0, h) {
      DoneHere(f, c0, c1, h0, h);
      assert false;
    }
  }

  // ---- Codes that run out ----

  /** A code that runs out is not complete, and the only such codes that are accepted have one symbol or none. */
  ghost predicate Bare(L: seq<nat>) {
    Accepted(L) && !Complete(L) && Used(L, |L|) <= 1
  }

  lemma {:induction false} BareSymbol(L: seq<nat>, b: seq<bool>)
    requires NoSymbolAhead(L, b) && Accepted(L)
    ensures Bare(L)
  {
    AheadIncomplete(L, b);
  }

  lemma {:induction false} BareLens(L2: seq<nat>, b: seq<bool>, total: nat, acc: seq<nat>, L: seq<nat>)
    requires |L2| == 19 && Accepted(L2) && CodeLens.DecodeLens(L2, b, total, acc) == Departed(NoCode(L))
    ensures Bare(L)
    decreases |b|, total - |acc|
  {
    hide Accepted, Bare, NoSymbolAhead, CodeLens.Run;
    var d := CodeLens.DecodeItem(L2, b);
    if d.Done? {
      BareLens(L2, d.rest, total, acc + CodeLens.Run(d.value, acc), L);
    } else {
      BareSymbol(L2, b);
    }
  }

  lemma {:induction false} SizesStay(b: seq<bool>, n: nat, i: nat, acc: seq<nat>)
    requires i <= n <= 19 && |acc| == 19
    ensures !ReadSizes(b, n, i, acc).Departed?
    decreases n - i
  {
    hide Swizzle;
    if i < n && Take(b, 3).Done? { SizesStay(Take(b, 3).rest, n, i + 1, acc[Swizzle(i) := Take(b, 3).value]); }
  }

  lemma {:induction false} BareBook(L2: seq<nat>, b: seq<bool>, nl: nat, nd: nat, L: seq<nat>)
    requires |L2| == 19 && nl <= 288 && nd <= 32 && Accepted(L2) && DecodeBook(L2, b, nl, nd) == Departed(NoCode(L))
    ensures Bare(L)
  {
    hide Accepted, Bare, CodeLens.DecodeLens;
    BareLens(L2, b, nl + nd, [], L);
  }

  lemma {:induction false} BareHeader(b: seq<bool>, L: seq<nat>)
    requires DecodeHeader(b) == Departed(NoCode(L))
    ensures Bare(L)
  {
    hide Accepted, Bare, DecodeBook, CodeLens.Times, ReadSizes, Val;
    assert Pow2(5) == 32 && Pow2(4) == 16;
    var nl := Take(b, 5);
    var nd := Take(nl.rest, 5);
    var nb := Take(nd.rest, 4);
    SizesStay(nb.rest, nb.value + 4, 0, CodeLens.Times(0, 19));
    var L2 := ReadSizes(nb.rest, nb.value + 4, 0, CodeLens.Times(0, 19));
    BareBook(L2.value, L2.rest, nl.value + 257, nd.value + 1, L);
  }

  lemma {:induction false} HeaderAccepts(b: seq<bool>)
    requires DecodeHeader(b).Done?
    ensures Accepted(DecodeHeader(b).value.lit) && Accepted(DecodeHeader(b).value.dist)
  {
    hide Accepted, CodeLens.Times, ReadSizes, Val, CodeLens.DecodeLens, BookOf;
  }

  lemma {:induction false} BareToken(L0: seq<nat>, L1: seq<nat>, b: seq<bool>, L: seq<nat>)
    requires |L0| == 288 && |L1| == 32 && Accepted(L0) && Accepted(L1) && DecodeToken(L0, L1, b) == Departed(NoCode(L))
    ensures Bare(L) && (L == L0 || L == L1)
  {
    hide Accepted, Bare, NoSymbolAhead, LengthBase, LengthExtra, DistBase, DistExtraBits;
    var s := DecodeSym(L0, b);
    if s < 0 {
      BareSymbol(L0, b);
    } else {
      BareSymbol(L1, DecodeField(L0, s, LengthBase(s - 257), LengthExtra(s - 257), b).rest);
    }
  }

  lemma {:induction false} BareBody(L0: seq<nat>, L1: seq<nat>, b: seq<bool>, h: seq<Byte>, L: seq<nat>)
    requires |L0| == 288 && |L1| == 32 && Accepted(L0) && Accepted(L1)
    requires DecodeBody(L0, L1, b, h) == Departed(NoCode(L))
    ensures Bare(L) && (L == L0 || L == L1)
    decreases |b|
  {
    hide Accepted, Bare, DecodeToken, Play, Playable;
    var d := DecodeToken(L0, L1, b);
    if d.Done? {
      BareBody(L0, L1, d.rest, Play(h, d.value.t), L);
    } else {
      BareToken(L0, L1, b, L);
    }
  }

  lemma {:induction false} StoredStays(b: seq<bool>, h: seq<Byte>)
    ensures !DecodeStored(b, h).Departed?
  {
    hide Val, BytesOf, Skip;
  }

  lemma {:induction false} FixedWhole()
    ensures Accepted(FixedLit()) && Accepted(FixedDist()) && !Bare(FixedLit()) && !Bare(FixedDist())
  {
    hide Complete, FixedLit, FixedDist;
    FixedComplete();
  }

  /** Stored and fixed blocks cannot run out of code: it takes a header whose code has one symbol or none. */
  lemma {:induction false} BareType(kind: nat, b: seq<bool>, h: seq<Byte>, L: seq<nat>)
    requires DecodeType(kind, b, h) == Departed(NoCode(L))
    ensures kind == 2 && Bare(L)
  {
    hide Accepted, Bare, DecodeHeader, DecodeBody, DecodeStored, FixedLit, FixedDist;
    StoredStays(b, h);
    FixedWhole();
    if kind == 1 {
      BareBody(FixedLit(), FixedDist(), b, h, L);
      assert false;
    }
    var x := DecodeHeader(b);
    if x.Done? {
      HeaderAccepts(b);
      BareBody(x.value.lit, x.value.dist, x.rest, h, L);
    } else {
      BareHeader(b, L);
    }
  }

  lemma {:induction false} BareBlock(b: seq<bool>, h: seq<Byte>, L: seq<nat>)
    requires DecodeBlock(b, h) == Departed(NoCode(L))
    ensures Bare(L)
  {
    hide Bare, DecodeType, Val;
    BareType(Take(b, 3).value / 2, Take(b, 3).rest, h, L);
  }

  /** So does a stream only with such a code in the header of one of its blocks. */
  lemma {:induction false} BareStream(b: seq<bool>, h: seq<Byte>, L: seq<nat>)
    requires DecodeStream(b, h) == Departed(NoCode(L))
    ensures Bare(L)
    decreases |b|
  {
    hide Bare, DecodeBlock;
    var d := DecodeBlock(b, h);
    if d.Done? {
      BareStream(d.rest, d.value.data, L);
    } else {
      BareBlock(b, h, L);
    }
  }

  lemma {:induction false} BareDeparts(whole: seq<Byte>, c: seq<bool>, h: seq<Byte>, L: seq<nat>)
    requires Departs(whole, c, h, NoCode(L))
    ensures Bare(L)
  {
    hide Bare, DecodeStream, StreamLeft, AllZero, Ahead;
    var q: seq<Byte> :| AllZero(q) && StreamLeft(c, whole + q, h, NoCode(L));
    LeftHere(whole + q, c, h, NoCode(L));
    BareStream(Ahead(c, whole + q), h, L);
  }

  /** An input leaves the format in one way at most. */
  lemma {:induction false} DepartsOnce(whole: seq<Byte>, c: seq<bool>, h: seq<Byte>, v: Way, w: Way)
    requires Departs(whole, c, h, v) && Departs(whole, c, h, w)
    ensures v == w
  {
    hide DecodeStream, StreamLeft, AllZero, Ahead;
    var p: seq<Byte> :| AllZero(p) && StreamLeft(c, whole + p, h, v);
    var q: seq<Byte> :| AllZero(q) && StreamLeft(c, whole + q, h, w);
    var f := if |p| <= |q| then whole + q else whole + p;
    if |p| <= |q| {
      ZeroOrder(whole, p, q);
      StreamGrows(c, whole + p, f, h, v);
    } else {
      ZeroOrder(whole, q, p);
      StreamGrows(c, whole + q, f, h, w);
    }
    LeftHere(f, c, h, v);
    LeftHere(f, c, h, w);
  }
}
