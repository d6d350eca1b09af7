/**
 * What the bits taken from the input spell: the reference decoder, given them, gets what was read, whatever follows.
 */
module Spells {
  import opened Bits
  import opened Canonical
  import opened LzTokens
  import opened Blocks
  import opened Streams
  import opened BitSource
  import CodeLens

  /** The bits taken between two states of the reader. */
  ghost function Taken(was: seq<bool>, now: seq<bool>): (x: seq<bool>) {
    if was <= now then now[|was|..] else []
  }

  lemma {:induction false} TakenNone(c: seq<bool>, rest: seq<bool>)
    ensures c <= c && Taken(c, c) + rest == rest
  {
  }

  lemma {:induction false} TakenMore(was: seq<bool>, now: seq<bool>, y: seq<bool>, rest: seq<bool>)
    requires was <= now
    ensures was <= now + y && Taken(was, now + y) + rest == Taken(was, now) + (y + rest)
  {
    Assoc(Taken(was, now), y, rest);
  }

  lemma {:induction false} TakenJoin(a: seq<bool>, b: seq<bool>, c: seq<bool>, rest: seq<bool>)
    requires a <= b && b <= c
    ensures a <= c && Taken(a, c) + rest == Taken(a, b) + (Taken(b, c) + rest)
  {
    assert c == b + Taken(b, c);
    TakenMore(a, b, Taken(b, c), rest);
  }

  // ---- Headers ----

  ghost predicate SizesRead(was: seq<bool>, now: seq<bool>, nb: nat, i: nat, acc: seq<nat>)
    requires |acc| == 19 && i <= nb <= 19
  {
    && was <= now
    && forall rest: seq<bool> ::
      ReadSizes(Taken(was, now) + rest, nb, 0, CodeLens.Times(0, 19)) == ReadSizes(rest, nb, i, acc)
  }

  lemma {:induction false} SizesStart(c: seq<bool>, nb: nat)
    requires nb <= 19
    ensures SizesRead(c, c, nb, 0, CodeLens.Times(0, 19))
  {
    hide Taken, ReadSizes, CodeLens.Times;
    forall rest: seq<bool> ensures Taken(c, c) + rest == rest { TakenNone(c, rest); }
  }

  lemma {:induction false} SizesMore(was: seq<bool>, now: seq<bool>, nb: nat, i: nat, acc: seq<nat>, v: nat)
    requires |acc| == 19 && i < nb <= 19 && SizesRead(was, now, nb, i, acc) && v < Pow2(3)
    ensures SizesRead(was, now + ToBits(v, 3), nb, i + 1, acc[Swizzle(i) := v])
  {
    hide Taken, Take, ToBits, Swizzle, CodeLens.Times, Pow2;
    var y := ToBits(v, 3);
    TakenMore(was, now, y, []);
    forall rest: seq<bool>
      ensures ReadSizes(Taken(was, now + y) + rest, nb, 0, CodeLens.Times(0, 19))
        == ReadSizes(rest, nb, i + 1, acc[Swizzle(i) := v])
    {
      TakenMore(was, now, y, rest);
      TakeBack(v, 3, rest);
    }
  }

  ghost predicate LensRead(was: seq<bool>, now: seq<bool>, L2: seq<nat>, total: nat, acc: seq<nat>)
    requires |L2| == 19
  {
    && was <= now
    && forall rest: seq<bool> ::
      CodeLens.DecodeLens(L2, Taken(was, now) + rest, total, []) == CodeLens.DecodeLens(L2, rest, total, acc)
  }

  lemma {:induction false} LensStart(c: seq<bool>, L2: seq<nat>, total: nat)
    requires |L2| == 19
    ensures LensRead(c, c, L2, total, [])
  {
    hide Taken, CodeLens.DecodeLens;
    forall rest: seq<bool> ensures Taken(c, c) + rest == rest { TakenNone(c, rest); }
  }

  lemma {:induction false} ItemSpelled(L2: seq<nat>, sym: nat, extra: nat, rest: seq<bool>)
    requires |L2| == 19 && Fits(L2) && sym < 19 && L2[sym] > 0 && extra < Pow2(CodeLens.ExtraBits(sym))
    ensures CodeLens.DecodeItem(L2, SymBits(L2, sym) + (ToBits(extra, CodeLens.ExtraBits(sym)) + rest))
      == Done(CodeLens.ItemOf(sym, extra), rest)
  {
    hide Fits, SymBits, CodeLens.DecodeItem, ToBits;
    assert Pow2(0) == 1 && Pow2(2) == 4 && Pow2(3) == 8 && Pow2(7) == 128;
    var x := CodeLens.ItemOf(sym, extra);
    assert CodeLens.Fine(x) && CodeLens.Symbol(x) == sym && CodeLens.Extra(x) == extra;
    CodeLens.ItemRoundTrip(L2, x, rest);
    Assoc(SymBits(L2, sym), ToBits(extra, CodeLens.ExtraBits(sym)), rest);
  }

  lemma {:induction false} LensNext(L2: seq<nat>, b: seq<bool>, total: nat, acc: seq<nat>, sym: nat, extra: nat,
      rest: seq<bool>)
    requires |L2| == 19 && |acc| < total && sym < 19 && !(sym == 16 && acc == [])
    requires CodeLens.DecodeItem(L2, b) == Done(CodeLens.ItemOf(sym, extra), rest)
    ensures CodeLens.DecodeLens(L2, b, total, acc)
      == CodeLens.DecodeLens(L2, rest, total, acc + CodeLens.Run(CodeLens.ItemOf(sym, extra), acc))
  {
    hide CodeLens.DecodeItem, CodeLens.Run;
  }

  lemma {:induction false} LensMore(was: seq<bool>, now: seq<bool>, L2: seq<nat>, total: nat, acc: seq<nat>, sym: nat,
      extra: nat)
    requires |L2| == 19 && Fits(L2) && LensRead(was, now, L2, total, acc) && |acc| < total && sym < 19 && L2[sym] > 0
    requires !(sym == 16 && acc == []) && extra < Pow2(CodeLens.ExtraBits(sym))
    ensures LensRead(was, now + SymBits(L2, sym) + ToBits(extra, CodeLens.ExtraBits(sym)), L2, total,
      acc + CodeLens.Run(CodeLens.ItemOf(sym, extra), acc))
  {
    hide Taken, Fits, SymBits, CodeLens.DecodeLens, CodeLens.DecodeItem, ToBits, CodeLens.Run, CodeLens.ItemOf, Pow2;
    var y, z := SymBits(L2, sym), ToBits(extra, CodeLens.ExtraBits(sym));
    TakenMore(was, now, y, []);
    TakenMore(was, now + y, z, []);
    forall rest: seq<bool>
      ensures CodeLens.DecodeLens(L2, Taken(was, now + y + z) + rest, total, [])
        == CodeLens.DecodeLens(L2, rest, total, acc + CodeLens.Run(CodeLens.ItemOf(sym, extra), acc))
    {
      TakenMore(was, now + y, z, rest);
      TakenMore(was, now, y, z + rest);
      ItemSpelled(L2, sym, extra, rest);
      LensNext(L2, y + (z + rest), total, acc, sym, extra, rest);
    }
  }

  /** The lengths of both codes, from their packed form. */
  ghost predicate BookRead(was: seq<bool>, now: seq<bool>, L2: seq<nat>, nl: nat, nd: nat, M0: seq<nat>, M1: seq<nat>)
    requires |L2| == 19 && nl <= 288 && nd <= 32
  {
    && was <= now && |M0| <= 288 && |M1| <= 32
    && (Accepted(Pad(M0, 288)) && Accepted(Pad(M1, 32)) ==> forall rest: seq<bool> ::
      DecodeBook(L2, Taken(was, now) + rest, nl, nd) == Done(Book(Pad(M0, 288), Pad(M1, 32)), rest))
  }

  lemma {:induction false} LensEnd(L2: seq<nat>, b: seq<bool>, acc: seq<nat>)
    requires |L2| == 19
    ensures CodeLens.DecodeLens(L2, b, |acc|, acc) == Done(acc, b)
  {
  }

  lemma {:induction false} BookSpelled(was: seq<bool>, now: seq<bool>, L2: seq<nat>, nl: nat, nd: nat, lens: seq<nat>)
    requires |L2| == 19 && nl <= 288 && nd <= 32 && |lens| == nl + nd && LensRead(was, now, L2, nl + nd, lens)
    ensures BookRead(was, now, L2, nl, nd, lens[..nl], lens[nl..])
  {
    hide Taken, CodeLens.DecodeLens, Accepted, Pad;
    forall rest: seq<bool> ensures CodeLens.DecodeLens(L2, Taken(was, now) + rest, nl + nd, []) == Done(lens, rest) {
      LensEnd(L2, rest, lens);
    }
  }

  ghost predicate HeaderRead(was: seq<bool>, now: seq<bool>, M0: seq<nat>, M1: seq<nat>) {
    && was <= now && |M0| <= 288 && |M1| <= 32
    && (Accepted(Pad(M0, 288)) && Accepted(Pad(M1, 32)) ==> forall rest: seq<bool> ::
      DecodeHeader(Taken(was, now) + rest) == Done(Book(Pad(M0, 288), Pad(M1, 32)), rest))
  }

  lemma {:induction false} SizesEnd(b: seq<bool>, nb: nat, acc: seq<nat>)
    requires |acc| == 19 && nb <= 19
    ensures ReadSizes(b, nb, nb, acc) == Done(acc, b)
  {
  }

  lemma {:induction false} HeaderStart(c0: seq<bool>, nl: nat, nd: nat, nb: nat, rest: seq<bool>)
    ensures var c3 := c0 + ToBits(nl, 5) + ToBits(nd, 5) + ToBits(nb, 4);
      c0 <= c3 && Taken(c0, c3) + rest == ToBits(nl, 5) + (ToBits(nd, 5) + (ToBits(nb, 4) + rest))
  {
    hide Taken, ToBits;
    var x0, x1, x2 := ToBits(nl, 5), ToBits(nd, 5), ToBits(nb, 4);
    TakenNone(c0, x0 + (x1 + (x2 + rest)));
    TakenMore(c0, c0, x0, x1 + (x2 + rest));
    TakenMore(c0, c0 + x0, x1, x2 + rest);
    TakenMore(c0, c0 + x0 + x1, x2, rest);
  }

  /** Three sizes and the lengths of the code-length code lead to the book. */
  lemma {:induction false} HeaderTo(c0: seq<bool>, nl: nat, nd: nat, nb: nat, c3: seq<bool>, c4: seq<bool>,
      L2: seq<nat>,
      t: seq<bool>)
    requires nl < 32 && nd < 32 && nb < 16 && c3 == c0 + ToBits(nl, 5) + ToBits(nd, 5) + ToBits(nb, 4)
    requires |L2| == 19 && SizesRead(c3, c4, nb + 4, nb + 4, L2) && Accepted(L2)
    ensures c0 <= c4 && DecodeHeader(Taken(c0, c4) + t) == DecodeBook(L2, t, nl + 257, nd + 1)
  {
    hide Taken, Accepted, ToBits, ReadSizes, DecodeBook, DecodeHeader, CodeLens.Times, Take;
    assert Pow2(5) == 32 && Pow2(4) == 16;
    var t0 := Taken(c3, c4) + t;
    HeaderStart(c0, nl, nd, nb, t0);
    TakenJoin(c0, c3, c4, t);
    SizesEnd(t, nb + 4, L2);
    var x0, x1, x2 := ToBits(nl, 5), ToBits(nd, 5), ToBits(nb, 4);
    TakeBack(nl, 5, x1 + (x2 + t0));
    TakeBack(nd, 5, x2 + t0);
    TakeBack(nb, 4, t0);
    DecodeHeaderStep(x0 + (x1 + (x2 + t0)), nl, x1 + (x2 + t0), nd, x2 + t0, nb, t0, L2, t);
  }

  /** Three sizes, the lengths of the code-length code, and the book. */
  lemma {:induction false} HeaderSpelled(c0: seq<bool>, nl: nat, nd: nat, nb: nat, c3: seq<bool>, c4: seq<bool>,
      L2: seq<nat>, c5: seq<bool>, M0: seq<nat>, M1: seq<nat>)
    requires nl < 32 && nd < 32 && nb < 16 && c3 == c0 + ToBits(nl, 5) + ToBits(nd, 5) + ToBits(nb, 4)
    requires |L2| == 19 && SizesRead(c3, c4, nb + 4, nb + 4, L2) && Accepted(L2)
    requires BookRead(c4, c5, L2, nl + 257, nd + 1, M0, M1)
    ensures HeaderRead(c0, c5, M0, M1)
  {
    hide Taken, Accepted, Pad, ToBits, SizesRead, DecodeBook, DecodeHeader;
    HeaderTo(c0, nl, nd, nb, c3, c4, L2, []);
    TakenJoin(c0, c4, c5, []);
    if Accepted(Pad(M0, 288)) && Accepted(Pad(M1, 32)) {
      forall rest: seq<bool> ensures DecodeHeader(Taken(c0, c5) + rest) == Done(Book(Pad(M0, 288), Pad(M1, 32)), rest) {
        TakenJoin(c0, c4, c5, rest);
        HeaderTo(c0, nl, nd, nb, c3, c4, L2, Taken(c4, c5) + rest);
      }
    }
  }

  // ---- Bodies ----

  /** A symbol spelled with the trimmed alphabet is the symbol of the full one. */
  lemma {:induction false} SymSpelled(M: seq<nat>, n: nat, sym: nat, rest: seq<bool>)
    requires |M| <= n && Fits(M) && Fits(Pad(M, n)) && sym < |M| && M[sym] > 0
    ensures Pad(M, n)[sym] == M[sym] && DecodeSym(Pad(M, n), SymBits(M, sym) + rest) == sym
  {
    var b := SymBits(M, sym) + rest;
    SymRoundTrip(M, sym, rest);
    SymMatches(M, sym, b);
    PadIsTrim(M, n);
    hide Pad, SymBits, DecodeSym, PathOf, SymId, Fits, Canonical.Match;
    TrimMatch(M, Pad(M, n), sym, b);
    MatchIsSym(Pad(M, n), sym, b);
  }

  lemma {:induction false} PadIsTrim(M: seq<nat>, n: nat)
    requires |M| <= n
    ensures Trims(M, Pad(M, n)) && forall s :: 0 <= s < |M| ==> Pad(M, n)[s] == M[s]
  {
    assert forall s :: 0 <= s < |M| ==> Pad(M, n)[..|M|][s] == M[s];
  }

  lemma {:induction false} SymMatches(M: seq<nat>, sym: nat, b: seq<bool>)
    requires sym < |M| && DecodeSym(M, b) == sym
    ensures Canonical.Match(M, sym, b)
  {
  }

  lemma {:induction false} MatchIsSym(L: seq<nat>, sym: nat, b: seq<bool>)
    requires Fits(L) && Canonical.Match(L, sym, b)
    ensures DecodeSym(L, b) == sym
  {
    MatchUnique(L, sym, DecodeSym(L, b), b);
  }

  ghost predicate TokenRead(L0: seq<nat>, L1: seq<nat>, was: seq<bool>, now: seq<bool>, step: Step)
    requires |L0| == 288 && |L1| == 32
  {
    was <= now && forall rest: seq<bool> :: DecodeToken(L0, L1, Taken(was, now) + rest) == Done(step, rest)
  }

  ghost predicate DistRead(L1: seq<nat>, was: seq<bool>, now: seq<bool>, dist: nat)
    requires |L1| == 32
  {
    was <= now && forall rest: seq<bool> :: DecodeDist(L1, Taken(was, now) + rest) == Done(dist, rest)
  }

  lemma {:induction false} FieldSpelled(L: seq<nat>, x: seq<bool>, s: nat, base: nat, extra: nat, v: nat,
      rest: seq<bool>)
    requires s < |L| && L[s] == |x| && v < Pow2(extra)
    ensures DecodeField(L, s, base, extra, x + (ToBits(v, extra) + rest)) == Done(base + v, rest)
  {
    ValToBits(v, extra);
    var b := x + (ToBits(v, extra) + rest);
    assert b[|x|..|x| + extra] == ToBits(v, extra) && b[|x| + extra..] == rest;
  }

  lemma {:induction false} DistSpelled(M1: seq<nat>, was: seq<bool>, sym: nat, v: nat)
    requires |M1| <= 32 && Fits(M1) && Fits(Pad(M1, 32)) && sym < 30 && sym < |M1| && M1[sym] > 0
    requires v < Pow2(DistExtraBits(sym))
    ensures DistRead(Pad(M1, 32), was, was + SymBits(M1, sym) + ToBits(v, DistExtraBits(sym)), DistBase(sym) + v)
  {
    hide Taken, Fits, SymBits, DecodeField, DecodeSym, ToBits, Pad, DistBase, DistExtraBits, Pow2;
    var y, z := SymBits(M1, sym), ToBits(v, DistExtraBits(sym));
    TakenNone(was, []);
    TakenMore(was, was, y, []);
    TakenMore(was, was + y, z, []);
    forall rest: seq<bool> ensures DecodeDist(Pad(M1, 32), Taken(was, was + y + z) + rest)
      == Done(DistBase(sym) + v, rest) {
      TakenMore(was, was + y, z, rest);
      TakenMore(was, was, y, z + rest);
      TakenNone(was, y + (z + rest));
      SymSpelled(M1, 32, sym, z + rest);
      FieldSpelled(Pad(M1, 32), y, sym, DistBase(sym), DistExtraBits(sym), v, rest);
    }
  }

  lemma {:induction false} PlainSpelled(M0: seq<nat>, L1: seq<nat>, was: seq<bool>, sym: nat)
    requires |M0| <= 288 && |L1| == 32 && Fits(M0) && Fits(Pad(M0, 288)) && sym <= 256 && sym < |M0| && M0[sym] > 0
    ensures TokenRead(Pad(M0, 288), L1, was, was + SymBits(M0, sym), if sym < 256 then Tok(Lit(sym)) else End)
  {
    hide Taken, Fits, SymBits, DecodeSym, Pad;
    var y := SymBits(M0, sym);
    TakenNone(was, []);
    TakenMore(was, was, y, []);
    forall rest: seq<bool>
      ensures DecodeToken(Pad(M0, 288), L1, Taken(was, was + y) + rest)
        == Done(if sym < 256 then Tok(Lit(sym)) else End, rest)
    {
      TakenMore(was, was, y, rest);
      TakenNone(was, y + rest);
      SymSpelled(M0, 288, sym, rest);
      assert (y + rest)[|y|..] == rest;
    }
  }

  lemma {:induction false} MatchSpelled(M0: seq<nat>, L1: seq<nat>, was: seq<bool>, sym: nat, v: nat, now: seq<bool>,
      dist: nat)
    requires |M0| <= 288 && |L1| == 32 && Fits(M0) && Fits(Pad(M0, 288)) && 256 < sym <= 285 && sym < |M0|
      && M0[sym] > 0
    requires v < Pow2(LengthExtra(sym - 257))
    requires DistRead(L1, was + SymBits(M0, sym) + ToBits(v, LengthExtra(sym - 257)), now, dist)
    ensures TokenRead(Pad(M0, 288), L1, was, now, Tok(Match(LengthBase(sym - 257) + v, dist)))
  {
    hide Taken, Fits, SymBits, DecodeField, DecodeDist, DecodeSym, ToBits, Pad, LengthBase, LengthExtra, Pow2;
    var y, z := SymBits(M0, sym), ToBits(v, LengthExtra(sym - 257));
    TakenNone(was, []);
    TakenMore(was, was, y, []);
    TakenMore(was, was + y, z, []);
    TakenJoin(was, was + y + z, now, []);
    forall rest: seq<bool>
      ensures DecodeToken(Pad(M0, 288), L1, Taken(was, now) + rest)
        == Done(Tok(Match(LengthBase(sym - 257) + v, dist)), rest)
    {
      var t := Taken(was + y + z, now) + rest;
      TakenJoin(was, was + y + z, now, rest);
      TakenMore(was, was + y, z, t);
      TakenMore(was, was, y, z + t);
      TakenNone(was, y + (z + t));
      SymSpelled(M0, 288, sym, z + t);
      FieldSpelled(Pad(M0, 288), y, sym, LengthBase(sym - 257), LengthExtra(sym - 257), v, t);
    }
  }

  /** After the bits taken, decoding goes on with what follows them, on top of `h`. */
  ghost predicate BodyRead(L0: seq<nat>, L1: seq<nat>, was: seq<bool>, now: seq<bool>, h0: seq<Byte>, h: seq<Byte>)
    requires |L0| == 288 && |L1| == 32
  {
    && was <= now
    && forall rest: seq<bool> :: DecodeBody(L0, L1, Taken(was, now) + rest, h0) == DecodeBody(L0, L1, rest, h)
  }

  ghost predicate BodyDone(L0: seq<nat>, L1: seq<nat>, was: seq<bool>, now: seq<bool>, h0: seq<Byte>, h: seq<Byte>)
    requires |L0| == 288 && |L1| == 32
  {
    was <= now && forall rest: seq<bool> :: DecodeBody(L0, L1, Taken(was, now) + rest, h0) == Done(h, rest)
  }

  lemma {:induction false} BodyStart(L0: seq<nat>, L1: seq<nat>, c: seq<bool>, h: seq<Byte>)
    requires |L0| == 288 && |L1| == 32
    ensures BodyRead(L0, L1, c, c, h, h)
  {
    hide Taken, DecodeBody;
    forall rest: seq<bool> ensures Taken(c, c) + rest == rest { TakenNone(c, rest); }
  }

  lemma {:induction false} BodyNext(L0: seq<nat>, L1: seq<nat>, b: seq<bool>, h: seq<Byte>, step: Step, rest: seq<bool>)
    requires |L0| == 288 && |L1| == 32 && DecodeToken(L0, L1, b) == Done(step, rest)
      && (step.Tok? ==> Playable(h, step.t))
    ensures step.Tok? ==> DecodeBody(L0, L1, b, h) == DecodeBody(L0, L1, rest, Play(h, step.t))
    ensures step.End? ==> DecodeBody(L0, L1, b, h) == Done(h, rest)
  {
    hide DecodeToken, Play, Playable;
  }

  /** One more token. */
  lemma {:induction false} BodyMore(L0: seq<nat>, L1: seq<nat>, c0: seq<bool>, c1: seq<bool>, c2: seq<bool>,
      h0: seq<Byte>,
      h: seq<Byte>, t: Token)
    requires |L0| == 288 && |L1| == 32 && BodyRead(L0, L1, c0, c1, h0, h) && TokenRead(L0, L1, c1, c2, Tok(t))
      && Playable(h, t)
    ensures BodyRead(L0, L1, c0, c2, h0, Play(h, t))
  {
    hide Taken, DecodeBody, DecodeToken, Play, Playable;
    TakenJoin(c0, c1, c2, []);
    forall rest: seq<bool> ensures DecodeBody(L0, L1, Taken(c0, c2) + rest, h0)
      == DecodeBody(L0, L1, rest, Play(h, t)) {
      TakenJoin(c0, c1, c2, rest);
      BodyNext(L0, L1, Taken(c1, c2) + rest, h, Tok(t), rest);
    }
  }

  /** The end of the block. */
  lemma {:induction false} BodyEnd(L0: seq<nat>, L1: seq<nat>, c0: seq<bool>, c1: seq<bool>, c2: seq<bool>,
      h0: seq<Byte>, h: seq<Byte>)
    requires |L0| == 288 && |L1| == 32 && BodyRead(L0, L1, c0, c1, h0, h) && TokenRead(L0, L1, c1, c2, End)
    ensures BodyDone(L0, L1, c0, c2, h0, h)
  {
    hide Taken, DecodeBody, DecodeToken;
    TakenJoin(c0, c1, c2, []);
    forall rest: seq<bool> ensures DecodeBody(L0, L1, Taken(c0, c2) + rest, h0) == Done(h, rest) {
      TakenJoin(c0, c1, c2, rest);
      BodyNext(L0, L1, Taken(c1, c2) + rest, h, End, rest);
    }
  }

  lemma {:induction false} BodyJoin(L0: seq<nat>, L1: seq<nat>, c0: seq<bool>, c1: seq<bool>, c2: seq<bool>,
      h0: seq<Byte>,
      h1: seq<Byte>, h2: seq<Byte>)
    requires |L0| == 288 && |L1| == 32 && BodyRead(L0, L1, c0, c1, h0, h1)
    ensures BodyRead(L0, L1, c1, c2, h1, h2) ==> BodyRead(L0, L1, c0, c2, h0, h2)
    ensures BodyDone(L0, L1, c1, c2, h1, h2) ==> BodyDone(L0, L1, c0, c2, h0, h2)
  {
    hide Taken, DecodeBody;
    if c1 <= c2 {
      TakenJoin(c0, c1, c2, []);
      forall rest: seq<bool> ensures Taken(c0, c2) + rest == Taken(c0, c1) + (Taken(c1, c2) + rest) {
        TakenJoin(c0, c1, c2, rest);
      }
    }
  }

  lemma {:induction false} PlayLit(h: seq<Byte>, c: Byte)
    ensures Playable(h, Lit(c)) && Play(h, Lit(c)) == h + [c]
  {
  }

  /** One more literal. */
  lemma {:induction false} BodyLiteral(M0: seq<nat>, L1: seq<nat>, c0: seq<bool>, c1: seq<bool>, c2: seq<bool>,
      h0: seq<Byte>,
      h: seq<Byte>, sym: nat)
    requires |M0| <= 288 && |L1| == 32 && Fits(M0) && Fits(Pad(M0, 288)) && sym < 256 && Spelled(M0, sym, c1, c2)
    requires BodyRead(Pad(M0, 288), L1, c0, c1, h0, h)
    ensures BodyRead(Pad(M0, 288), L1, c0, c2, h0, h + [sym])
  {
    hide Fits, Pad, BodyRead, TokenRead, Play, Playable, SymBits;
    PlainSpelled(M0, L1, c1, sym);
    PlayLit(h, sym);
    BodyMore(Pad(M0, 288), L1, c0, c1, c2, h0, h, Lit(sym));
  }

  // ---- Stored blocks ----

  /** Bits skipped to the byte boundary, then length, complement and bytes. */
  ghost predicate StoredRead(was: seq<bool>, now: seq<bool>, h0: seq<Byte>, h: seq<Byte>) {
    && was <= now
    && forall rest: seq<bool> :: Aligned(|now| + |rest|) ==> DecodeStored(Taken(was, now) + rest, h0) == Done(h, rest)
  }

  lemma {:induction false} SkipBack(skip: seq<bool>, z: seq<bool>)
    requires |skip| < 8 && Aligned(|z|)
    ensures Skip(skip + z) == z
  {
    assert |skip + z| % 8 == |skip|;
  }

  lemma {:induction false} StoredBack(skip: seq<bool>, s: seq<Byte>, h: seq<Byte>, rest: seq<bool>)
    requires |skip| < 8 && |s| <= 65535 && Aligned(|rest|)
    ensures DecodeStored(skip + (ToBits(|s|, 16) + (ToBits(65535 - |s|, 16) + (BytesToBits(s) + rest))), h)
      == Done(h + s, rest)
  {
    hide ToBits, BytesToBits, BytesOf, Take, Aligned, Pow2, DecodeStored;
    var t0 := BytesToBits(s) + rest;
    var t1 := ToBits(65535 - |s|, 16) + t0;
    var t2 := ToBits(|s|, 16) + t1;
    AlignedTail(|s|, |rest|);
    SkipBack(skip, t2);
    Pow2Values();
    TakeBack(|s|, 16, t1);
    TakeBack(65535 - |s|, 16, t0);
    BytesBack(s, rest);
    assert t0[8 * |s|..] == rest;
    StoredParts(skip + t2, t2, |s|, t1, t0, h);
  }

  lemma {:induction false} StoredParts(b: seq<bool>, t2: seq<bool>, n: nat, t1: seq<bool>, t0: seq<bool>, h: seq<Byte>)
    requires Skip(b) == t2 && Take(t2, 16) == Done(n, t1) && n <= 65535 && Take(t1, 16) == Done(65535 - n, t0)
    requires 8 * n <= |t0|
    ensures DecodeStored(b, h) == Done(h + BytesOf(t0, n), t0[8 * n..])
  {
    hide Take, BytesOf;
  }

  lemma {:induction false} AlignedTail(bytes: nat, rest: nat)
    requires Aligned(rest)
    ensures Aligned(16 + (16 + (8 * bytes + rest)))
  {
  }

  lemma {:induction false} StoredSpelled(c0: seq<bool>, c1: seq<bool>, s: seq<Byte>, c2: seq<bool>, h: seq<Byte>)
    requires c0 <= c1 && |c1| < |c0| + 8 && Aligned(|c1|) && |s| <= 65535
    requires c2 == c1 + ToBits(|s|, 16) + ToBits(65535 - |s|, 16) + BytesToBits(s)
    ensures StoredRead(c0, c2, h, h + s)
  {
    hide ToBits, BytesToBits, DecodeStored, Aligned, Taken;
    var x0, x1, x2 := ToBits(|s|, 16), ToBits(65535 - |s|, 16), BytesToBits(s);
    TakenSize(c0, c1);
    TakenMore(c0, c1, x0, []);
    TakenMore(c0, c1 + x0, x1, []);
    TakenMore(c0, c1 + x0 + x1, x2, []);
    forall rest: seq<bool> | Aligned(|c2| + |rest|) ensures DecodeStored(Taken(c0, c2) + rest, h) == Done(h + s, rest) {
      TakenMore(c0, c1, x0, x1 + (x2 + rest));
      TakenMore(c0, c1 + x0, x1, x2 + rest);
      TakenMore(c0, c1 + x0 + x1, x2, rest);
      WholeRest(|c1|, |s|, |rest|);
      StoredBack(Taken(c0, c1), s, h, rest);
    }
  }

  lemma {:induction false} TakenSize(was: seq<bool>, now: seq<bool>)
    requires was <= now
    ensures |Taken(was, now)| == |now| - |was|
  {
  }

  lemma {:induction false} WholeRest(n: nat, bytes: nat, rest: nat)
    requires Aligned(n) && Aligned(n + 16 + 16 + 8 * bytes + rest)
    ensures Aligned(rest)
  {
  }

  // ---- Blocks and streams ----

  ghost predicate TypeRead(kind: nat, was: seq<bool>, now: seq<bool>, h0: seq<Byte>, h: seq<Byte>) {
    && was <= now
    && forall rest: seq<bool> :: Aligned(|now| + |rest|) ==>
      DecodeType(kind, Taken(was, now) + rest, h0) == Done(h, rest)
  }

  lemma {:induction false} TypeStored(was: seq<bool>, now: seq<bool>, h0: seq<Byte>, h: seq<Byte>)
    requires StoredRead(was, now, h0, h)
    ensures TypeRead(0, was, now, h0, h)
  {
    hide Taken, DecodeStored, Aligned;
  }

  lemma {:induction false} TypeFixed(was: seq<bool>, now: seq<bool>, h0: seq<Byte>, h: seq<Byte>)
    requires BodyDone(FixedLit(), FixedDist(), was, now, h0, h)
    ensures TypeRead(1, was, now, h0, h)
  {
    hide Taken, DecodeBody, Aligned, FixedLit, FixedDist;
  }

  lemma {:induction false} TypeDynamic(c0: seq<bool>, c1: seq<bool>, c2: seq<bool>, M0: seq<nat>, M1: seq<nat>,
      h0: seq<Byte>, h: seq<Byte>)
    requires HeaderRead(c0, c1, M0, M1) && Accepted(Pad(M0, 288)) && Accepted(Pad(M1, 32))
    requires BodyDone(Pad(M0, 288), Pad(M1, 32), c1, c2, h0, h)
    ensures TypeRead(2, c0, c2, h0, h)
  {
    hide Taken, DecodeBody, DecodeHeader, Aligned, Accepted, Pad;
    TakenJoin(c0, c1, c2, []);
    forall rest: seq<bool> ensures DecodeType(2, Taken(c0, c2) + rest, h0) == Done(h, rest) {
      TakenJoin(c0, c1, c2, rest);
    }
  }

  ghost predicate BlockRead(was: seq<bool>, now: seq<bool>, last: bool, h0: seq<Byte>, h: seq<Byte>) {
    && was <= now
    && forall rest: seq<bool> :: Aligned(|now| + |rest|) ==>
      DecodeBlock(Taken(was, now) + rest, h0) == Done(Block(last, h), rest)
  }

  lemma {:induction false} BlockSpelled(was: seq<bool>, v: nat, now: seq<bool>, h0: seq<Byte>, h: seq<Byte>)
    requires v < 8 && TypeRead(v / 2, was + ToBits(v, 3), now, h0, h)
    ensures BlockRead(was, now, v % 2 == 1, h0, h)
  {
    hide Taken, DecodeType, Aligned, ToBits, Take;
    assert Pow2(3) == 8;
    var y := ToBits(v, 3);
    TakenNone(was, []);
    TakenMore(was, was, y, []);
    TakenJoin(was, was + y, now, []);
    forall rest: seq<bool> | Aligned(|now| + |rest|) ensures DecodeBlock(Taken(was, now) + rest, h0)
      == Done(Block(v % 2 == 1, h), rest) {
      var t := Taken(was + y, now) + rest;
      TakenJoin(was, was + y, now, rest);
      TakenMore(was, was, y, t);
      TakenNone(was, y + t);
      TakeBack(v, 3, t);
    }
  }

  /** After the blocks taken, decoding goes on with what follows them, on top of `h`. */
  ghost predicate StreamRead(was: seq<bool>, now: seq<bool>, h0: seq<Byte>, h: seq<Byte>) {
    && was <= now
    && forall rest: seq<bool> :: Aligned(|now| + |rest|) ==>
      DecodeStream(Taken(was, now) + rest, h0) == DecodeStream(rest, h)
  }

  /** The bits taken are a whole stream for `h`. */
  ghost predicate StreamDone(was: seq<bool>, now: seq<bool>, h0: seq<Byte>, h: seq<Byte>) {
    && was <= now
    && forall rest: seq<bool> :: Aligned(|now| + |rest|) ==> DecodeStream(Taken(was, now) + rest, h0) == Done(h, rest)
  }

  lemma {:induction false} StreamStart(c: seq<bool>, h: seq<Byte>)
    ensures StreamRead(c, c, h, h)
  {
    hide Taken, DecodeStream, Aligned;
    forall rest: seq<bool> ensures Taken(c, c) + rest == rest { TakenNone(c, rest); }
  }

  lemma {:induction false} StreamNext(b: seq<bool>, h: seq<Byte>, last: bool, data: seq<Byte>, rest: seq<bool>)
    requires DecodeBlock(b, h) == Done(Block(last, data), rest)
    ensures DecodeStream(b, h) == if last then Done(data, rest) else DecodeStream(rest, data)
  {
    hide DecodeBlock;
  }

  lemma {:induction false} SameEnd(c1: seq<bool>, c2: seq<bool>, rest: seq<bool>)
    requires c1 <= c2
    ensures |c1| + |Taken(c1, c2) + rest| == |c2| + |rest|
  {
  }

  lemma {:induction false} StreamMore(c0: seq<bool>, c1: seq<bool>, c2: seq<bool>, last: bool, h0: seq<Byte>,
      h1: seq<Byte>, h2: seq<Byte>)
    requires StreamRead(c0, c1, h0, h1) && BlockRead(c1, c2, last, h1, h2)
    ensures last ==> StreamDone(c0, c2, h0, h2)
    ensures !last ==> StreamRead(c0, c2, h0, h2)
  {
    hide Taken, DecodeStream, DecodeBlock, Aligned;
    TakenJoin(c0, c1, c2, []);
    forall rest: seq<bool> | Aligned(|c2| + |rest|)
      ensures DecodeStream(Taken(c0, c2) + rest, h0) == if last then Done(h2, rest) else DecodeStream(rest, h2)
    {
      TakenJoin(c0, c1, c2, rest);
      SameEnd(c1, c2, rest);
      StreamNext(Taken(c1, c2) + rest, h1, last, h2, rest);
    }
  }
}
