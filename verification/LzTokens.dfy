/** LZ77 tokens, what they stand for, and their bits (section 3.2.5 of RFC 1951). */
module LzTokens {
  import opened Bits
  import opened Canonical

  const MIN_MATCH := 3
  const MAX_MATCH := 258
  const WINDOW := 32768
  const END_OF_BLOCK := 256

  datatype Token = Lit(b: Byte) | Match(len: nat, dist: nat)

  predicate TokenOk(t: Token) {
    t.Match? ==> MIN_MATCH <= t.len <= MAX_MATCH && 1 <= t.dist <= WINDOW
  }

  // ---- What tokens stand for ----

  /** Appends `len` bytes, each copied from `dist` back. */
  function Copy(h: seq<Byte>, len: nat, dist: nat): (r: seq<Byte>)
    requires 1 <= dist <= |h|
    ensures |r| == |h| + len && h <= r
    ensures forall i :: |h| <= i < |r| ==> r[i] == r[i - dist]
    decreases len
  {
    if len == 0 then h else Copy(h + [h[|h| - dist]], len - 1, dist)
  }

  /** A token can be played on a history that reaches back far enough. */
  predicate Playable(h: seq<Byte>, t: Token) {
    TokenOk(t) && (t.Match? ==> t.dist <= |h|)
  }

  function Play(h: seq<Byte>, t: Token): (r: seq<Byte>)
    requires Playable(h, t)
    ensures h <= r && |h| < |r|
  {
    match t
    case Lit(b) => h + [b]
    case Match(len, dist) => Copy(h, len, dist)
  }

  /** Tokens `i` onwards, played one after the other. */
  ghost predicate PlayableFrom(h: seq<Byte>, ts: seq<Token>, i: nat)
    requires i <= |ts|
    decreases |ts| - i
  {
    i == |ts| || (Playable(h, ts[i]) && PlayableFrom(Play(h, ts[i]), ts, i + 1))
  }

  ghost function PlayFrom(h: seq<Byte>, ts: seq<Token>, i: nat): (r: seq<Byte>)
    requires i <= |ts| && PlayableFrom(h, ts, i)
    ensures h <= r
    decreases |ts| - i
  {
    if i == |ts| then h else PlayFrom(Play(h, ts[i]), ts, i + 1)
  }

  /** The copy is decided by the bytes it is made of. */
  lemma {:induction false} CopyUnique(h: seq<Byte>, len: nat, dist: nat, r: seq<Byte>)
    requires 1 <= dist <= |h| && |r| == |h| + len && h <= r
    requires forall i :: |h| <= i < |r| ==> r[i] == r[i - dist]
    ensures Copy(h, len, dist) == r
    decreases len
  {
    if len > 0 {
      assert r[|h|] == r[|h| - dist] == h[|h| - dist];
      CopyUnique(h + [h[|h| - dist]], len - 1, dist, r);
    } else {
      assert h == r;
    }
  }

  // ---- Length and distance symbols ----

  /** Code index of a match length less three, and its extra bits: pairs of indices halve the value. */
  function LenIndex(l: nat): (s: nat) {
    if l < 8 then l else 4 + LenIndex(l / 2)
  }

  function LenWidth(l: nat): (e: nat) {
    if l < 8 then 0 else 1 + LenWidth(l / 2)
  }

  /** Symbol for match length `l + 3`; the longest match has its own. */
  function LenSym(l: nat): (s: nat) {
    if l == 255 then 285 else 257 + LenIndex(l)
  }

  function LenExtra(l: nat): (e: nat) {
    if l == 255 then 0 else LenWidth(l)
  }

  function DistSym(d: nat): (s: nat) {
    if d < 4 then d else 2 + DistSym(d / 2)
  }

  function DistExtra(d: nat): (e: nat) {
    if d < 4 then 0 else 1 + DistExtra(d / 2)
  }

  /** The two tables the encoder looks a distance less one up in. */
  function SmallDistSym(d: nat): (s: nat)
    requires d < 512
  {
    DistSym(d)
  }

  function LargeDistSym(h: nat): (s: nat)
    requires 2 <= h < 128
  {
    16 + DistSym(h)
  }

  function LargeDistExtra(h: nat): (e: nat)
    requires 2 <= h < 128
  {
    8 + DistExtra(h)
  }

  /** Above 511 the symbol depends on the high byte only. */
  lemma {:induction false} LargeDist(d: nat)
    requires 512 <= d < WINDOW
    ensures DistSym(d) == LargeDistSym(d / 256) && DistExtra(d) == LargeDistExtra(d / 256)
  {
    hide DistSym, DistExtra, Shr;
    ShrTwo(d, 6);
    ShrTwo(d / 4, 4);
    ShrTwo(d / 16, 2);
    ShrTwo(d / 64, 0);
    ShrNone(d / 256);
    Halvings(d, 8);
  }

  lemma {:induction false} ShrNone(v: nat)
    ensures Shr(v, 0) == v
  {
  }

  lemma {:induction false} ShrTwo(v: nat, k: nat)
    ensures Shr(v, k + 2) == Shr(v / 4, k)
  {
    assert Shr(v, k + 2) == Shr(v / 2, k + 1);
  }

  lemma {:induction false} Halvings(d: nat, k: nat)
    requires Shr(d, k) >= 2
    ensures DistSym(d) == 2 * k + DistSym(Shr(d, k)) && DistExtra(d) == k + DistExtra(Shr(d, k))
  {
    if k > 0 {
      Halvings(d / 2, k - 1);
      ShrSmall(d, k);
    }
  }

  lemma {:induction false} ShrSmall(d: nat, k: nat)
    requires k > 0 && Shr(d, k) >= 2
    ensures d >= 4
  {
    if k > 1 { ShrSmall(d / 2, k - 1); }
  }

  function LenStart(i: nat): (v: nat) {
    if i < 8 then i else 2 * LenStart(i - 4)
  }

  function DistStart(s: nat): (v: nat) {
    if s < 4 then s else 2 * DistStart(s - 2)
  }

  /** The decoder's tables. */
  function LengthBase(i: nat): (v: nat) {
    if i < 28 then LenStart(i) + 3 else if i == 28 then 258 else 0
  }

  function LengthExtra(i: nat): (e: nat) {
    if i < 8 || i >= 28 then 0 else i / 4 - 1
  }

  function DistBase(s: nat): (v: nat) {
    if s < 30 then DistStart(s) + 1 else 0
  }

  function DistExtraBits(s: nat): (e: nat) {
    if s < 4 || s >= 30 then 0 else s / 2 - 1
  }

  // Entry by entry, the tables the decoder holds.

  lemma {:induction false} LengthBaseTable()
    ensures [LengthBase(0), LengthBase(1), LengthBase(2), LengthBase(3), LengthBase(4), LengthBase(5), LengthBase(6),
      LengthBase(7)] == [3, 4, 5, 6, 7, 8, 9, 10]
    ensures [LengthBase(8), LengthBase(9), LengthBase(10), LengthBase(11), LengthBase(12), LengthBase(13),
      LengthBase(14), LengthBase(15)] == [11, 13, 15, 17, 19, 23, 27, 31]
    ensures [LengthBase(16), LengthBase(17), LengthBase(18), LengthBase(19), LengthBase(20), LengthBase(21),
      LengthBase(22), LengthBase(23)] == [35, 43, 51, 59, 67, 83, 99, 115]
    ensures [LengthBase(24), LengthBase(25), LengthBase(26), LengthBase(27), LengthBase(28), LengthBase(29),
      LengthBase(30)] == [131, 163, 195, 227, 258, 0, 0]
  {
  }

  lemma {:induction false} LengthExtraTable()
    ensures [LengthExtra(0), LengthExtra(1), LengthExtra(2), LengthExtra(3), LengthExtra(4), LengthExtra(5),
      LengthExtra(6), LengthExtra(7)] == [0, 0, 0, 0, 0, 0, 0, 0]
    ensures [LengthExtra(8), LengthExtra(9), LengthExtra(10), LengthExtra(11), LengthExtra(12), LengthExtra(13),
      LengthExtra(14), LengthExtra(15)] == [1, 1, 1, 1, 2, 2, 2, 2]
    ensures [LengthExtra(16), LengthExtra(17), LengthExtra(18), LengthExtra(19), LengthExtra(20), LengthExtra(21),
      LengthExtra(22), LengthExtra(23)] == [3, 3, 3, 3, 4, 4, 4, 4]
    ensures [LengthExtra(24), LengthExtra(25), LengthExtra(26), LengthExtra(27), LengthExtra(28), LengthExtra(29),
      LengthExtra(30)] == [5, 5, 5, 5, 0, 0, 0]
  {
  }

  lemma {:induction false} DistBaseTable()
    ensures [DistBase(0), DistBase(1), DistBase(2), DistBase(3), DistBase(4), DistBase(5), DistBase(6), DistBase(7)]
      == [1, 2, 3, 4, 5, 7, 9, 13]
    ensures [DistBase(8), DistBase(9), DistBase(10), DistBase(11), DistBase(12), DistBase(13), DistBase(14),
      DistBase(15)] == [17, 25, 33, 49, 65, 97, 129, 193]
    ensures [DistBase(16), DistBase(17), DistBase(18), DistBase(19), DistBase(20), DistBase(21), DistBase(22),
      DistBase(23)] == [257, 385, 513, 769, 1025, 1537, 2049, 3073]
    ensures [DistBase(24), DistBase(25), DistBase(26), DistBase(27), DistBase(28), DistBase(29), DistBase(30),
      DistBase(31)] == [4097, 6145, 8193, 12289, 16385, 24577, 0, 0]
  {
  }

  lemma {:induction false} DistExtraTable()
    ensures [DistExtraBits(0), DistExtraBits(1), DistExtraBits(2), DistExtraBits(3), DistExtraBits(4), DistExtraBits(5),
      DistExtraBits(6), DistExtraBits(7)] == [0, 0, 0, 0, 1, 1, 2, 2]
    ensures [DistExtraBits(8), DistExtraBits(9), DistExtraBits(10), DistExtraBits(11), DistExtraBits(12),
      DistExtraBits(13), DistExtraBits(14), DistExtraBits(15)] == [3, 3, 4, 4, 5, 5, 6, 6]
    ensures [DistExtraBits(16), DistExtraBits(17), DistExtraBits(18), DistExtraBits(19), DistExtraBits(20),
      DistExtraBits(21), DistExtraBits(22), DistExtraBits(23)] == [7, 7, 8, 8, 9, 9, 10, 10]
    ensures [DistExtraBits(24), DistExtraBits(25), DistExtraBits(26), DistExtraBits(27), DistExtraBits(28),
      DistExtraBits(29), DistExtraBits(30), DistExtraBits(31)] == [11, 11, 12, 12, 13, 13, 0, 0]
  {
  }

  lemma {:induction false} LenSplit(l: nat)
    ensures LenStart(LenIndex(l)) + Low(l, LenWidth(l)) == l
    ensures LenWidth(l) == (if LenIndex(l) < 8 then 0 else LenIndex(l) / 4 - 1) && (l >= 4 ==> LenIndex(l) >= 4)
  {
    if l >= 8 { LenSplit(l / 2); }
  }

  lemma {:induction false} DistSplit(d: nat)
    ensures DistStart(DistSym(d)) + Low(d, DistExtra(d)) == d
    ensures DistExtra(d) == (if DistSym(d) < 4 then 0 else DistSym(d) / 2 - 1) && (d >= 2 ==> DistSym(d) >= 2)
  {
    if d >= 4 { DistSplit(d / 2); }
  }

  lemma {:induction false} LenIndexMono(l: nat, m: nat)
    requires l <= m
    ensures LenIndex(l) <= LenIndex(m)
    decreases m
  {
    if l >= 8 { LenIndexMono(l / 2, m / 2); } else if m >= 8 { LenIndexMono(4, m / 2); assert LenIndex(4) == 4; }
  }

  lemma {:induction false} DistSymMono(d: nat, m: nat)
    requires d <= m
    ensures DistSym(d) <= DistSym(m)
    decreases m
  {
    if d >= 4 { DistSymMono(d / 2, m / 2); } else if m >= 4 { DistSymMono(2, m / 2); assert DistSym(2) == 2; }
  }

  /** The symbol and extra bits of a length give it back through the decoder's tables. */
  lemma {:induction false} LenRoundTrip(l: nat)
    requires l <= 255
    ensures 257 <= LenSym(l) <= 285 && LenExtra(l) == LengthExtra(LenSym(l) - 257) <= 5
    ensures LengthBase(LenSym(l) - 257) + Low(l, LenExtra(l)) == l + 3
  {
    if l < 255 {
      LenIndexMono(l, 254);
      assert LenIndex(254) == 27;
      LenSplit(l);
    }
  }

  lemma {:induction false} DistRoundTrip(d: nat)
    requires d < WINDOW
    ensures DistSym(d) < 30 && DistExtra(d) == DistExtraBits(DistSym(d)) <= 13
    ensures DistBase(DistSym(d)) + Low(d, DistExtra(d)) == d + 1
  {
    DistSymMono(d, 32767);
    DistTop();
    DistSplit(d);
  }

  lemma {:induction false} DistTop()
    ensures DistSym(32767) == 29
  {
  }

  // ---- Bits ----

  /** The literal/length and the distance code can write the token. */
  ghost predicate Writable(L0: seq<nat>, L1: seq<nat>, t: Token) {
    && TokenOk(t) && |L0| == 288 && |L1| == 32
    && (t.Lit? ==> L0[t.b] > 0)
    && (t.Match? ==> LenSym(t.len - 3) < 288 && L0[LenSym(t.len - 3)] > 0)
    && (t.Match? ==> DistSym(t.dist - 1) < 32 && L1[DistSym(t.dist - 1)] > 0)
  }

  function LenBits(L0: seq<nat>, l: nat): (b: seq<bool>)
    requires LenSym(l) < |L0|
  {
    SymBits(L0, LenSym(l)) + ToBits(Low(l, LenExtra(l)), LenExtra(l))
  }

  function DistBits(L1: seq<nat>, d: nat): (b: seq<bool>)
    requires DistSym(d) < |L1|
  {
    SymBits(L1, DistSym(d)) + ToBits(Low(d, DistExtra(d)), DistExtra(d))
  }

  ghost function TokenBits(L0: seq<nat>, L1: seq<nat>, t: Token): (b: seq<bool>)
    requires Writable(L0, L1, t)
  {
    match t
    case Lit(b) => SymBits(L0, b)
    case Match(len, dist) => LenBits(L0, len - 3) + DistBits(L1, dist - 1)
  }

  datatype Step = Tok(t: Token) | End

  /** A symbol with base and extra bits from the tables. */
  ghost function DecodeField(L: seq<nat>, s: nat, base: nat, extra: nat, b: seq<bool>): (r: Decoded<nat>)
    requires s < |L| && L[s] <= |b|
    ensures r.Done? ==> |r.rest| + L[s] <= |b|
  {
    if L[s] + extra > |b| then Failed else Done(base + Val(b[L[s]..L[s] + extra]), b[L[s] + extra..])
  }

  /** A distance off the front of `b`. */
  ghost function DecodeDist(L1: seq<nat>, b: seq<bool>): (r: Decoded<nat>)
    requires |L1| == 32
    ensures r.Done? ==> |r.rest| <= |b|
  {
    var s := DecodeSym(L1, b);
    if s < 0 then NoSymbol(L1, b) else if s >= 30 then Departed(NoMeaning)
    else DecodeField(L1, s, DistBase(s), DistExtraBits(s), b)
  }

  /** One token, or the end of the block, off the front of `b`. */
  ghost function DecodeToken(L0: seq<nat>, L1: seq<nat>, b: seq<bool>): (r: Decoded<Step>)
    requires |L0| == 288 && |L1| == 32
    ensures r.Done? ==> |r.rest| < |b|
  {
    var s := DecodeSym(L0, b);
    if s < 0 then NoSymbol(L0, b)
    else if s > 285 then Departed(NoMeaning)
    else if s < 256 then Done(Tok(Lit(s)), b[L0[s]..])
    else if s == 256 then Done(End, b[L0[s]..])
    else
      var len := DecodeField(L0, s, LengthBase(s - 257), LengthExtra(s - 257), b);
      if !len.Done? then Stop(len) else
      var dist := DecodeDist(L1, len.rest);
      if !dist.Done? then Stop(dist) else Done(Tok(Match(len.value, dist.value)), dist.rest)
  }

  /** A symbol and its extra bits, read back through the decoder's tables. */
  lemma {:induction false} FieldRoundTrip(L: seq<nat>, s: nat, v: nat, extra: nat, base: nat, rest: seq<bool>)
    requires Fits(L) && s < |L| && L[s] > 0
    ensures var b := SymBits(L, s) + ToBits(Low(v, extra), extra) + rest;
      DecodeSym(L, b) == s && L[s] <= |b| && DecodeField(L, s, base, extra, b) == Done(base + Low(v, extra), rest)
  {
    hide Fits, SymBits, DecodeSym, ToBits, Low, Val;
    var e := ToBits(Low(v, extra), extra);
    Assoc(SymBits(L, s), e, rest);
    SymRoundTrip(L, s, e + rest);
    Middle(SymBits(L, s), e, rest);
    ValToBits(Low(v, extra), extra);
  }

  lemma {:induction false} Middle(x: seq<bool>, e: seq<bool>, rest: seq<bool>)
    ensures (x + e + rest)[|x|..|x| + |e|] == e && (x + e + rest)[|x| + |e|..] == rest
  {
  }

  lemma {:induction false} DistDecodes(L1: seq<nat>, d: nat, rest: seq<bool>)
    requires Fits(L1) && |L1| == 32 && d < WINDOW && DistSym(d) < 32 && L1[DistSym(d)] > 0
    ensures DecodeDist(L1, DistBits(L1, d) + rest) == Done(d + 1, rest)
  {
    hide Fits, SymBits, DecodeField, DecodeSym, DistSym, DistExtra, Low, ToBits, DistBase, DistExtraBits;
    DistRoundTrip(d);
    FieldRoundTrip(L1, DistSym(d), d, DistExtra(d), DistBase(DistSym(d)), rest);
  }

  lemma {:induction false} MatchDecodes(L0: seq<nat>, L1: seq<nat>, l: nat, d: nat, rest: seq<bool>)
    requires Fits(L0) && Fits(L1) && |L0| == 288 && |L1| == 32 && l <= 255 && d < WINDOW
    requires LenSym(l) < 288 && L0[LenSym(l)] > 0 && DistSym(d) < 32 && L1[DistSym(d)] > 0
    ensures DecodeToken(L0, L1, LenBits(L0, l) + (DistBits(L1, d) + rest)) == Done(Tok(Match(l + 3, d + 1)), rest)
  {
    hide Fits, SymBits, DecodeField, DecodeSym, DecodeDist, DistBits, LenSym, LenExtra, DistSym, Low, ToBits,
      LengthBase, LengthExtra;
    LenRoundTrip(l);
    var tail := DistBits(L1, d) + rest;
    FieldRoundTrip(L0, LenSym(l), l, LenExtra(l), LengthBase(LenSym(l) - 257), tail);
    DistDecodes(L1, d, rest);
  }

  lemma {:induction false} LitDecodes(L0: seq<nat>, L1: seq<nat>, s: nat, rest: seq<bool>)
    requires Fits(L0) && |L0| == 288 && |L1| == 32 && s <= END_OF_BLOCK && L0[s] > 0
    ensures DecodeToken(L0, L1, SymBits(L0, s) + rest) == Done(if s < 256 then Tok(Lit(s)) else End, rest)
  {
    hide Fits, SymBits, DecodeSym;
    SymRoundTrip(L0, s, rest);
    assert (SymBits(L0, s) + rest)[L0[s]..] == rest;
  }

  /** A token's bits decode to the token, whatever follows. */
  lemma {:induction false} TokenRoundTrip(L0: seq<nat>, L1: seq<nat>, t: Token, rest: seq<bool>)
    requires Fits(L0) && Fits(L1) && Writable(L0, L1, t)
    ensures DecodeToken(L0, L1, TokenBits(L0, L1, t) + rest) == Done(Tok(t), rest)
  {
    hide Fits, SymBits, DecodeToken, LenBits, DistBits, LenSym, DistSym;
    match t
    case Lit(c) => LitDecodes(L0, L1, c, rest);
    case Match(len, dist) =>
      Assoc(LenBits(L0, len - 3), DistBits(L1, dist - 1), rest);
      MatchDecodes(L0, L1, len - 3, dist - 1, rest);
  }

  // ---- A block's tokens ----

  ghost predicate AllWritable(L0: seq<nat>, L1: seq<nat>, ts: seq<Token>) {
    |L0| == 288 && |L1| == 32 && L0[END_OF_BLOCK] > 0 && forall i :: 0 <= i < |ts| ==> Writable(L0, L1, ts[i])
  }

  /** Tokens `i` onwards and the end-of-block symbol. */
  ghost function BlockBits(L0: seq<nat>, L1: seq<nat>, ts: seq<Token>, i: nat): (b: seq<bool>)
    requires i <= |ts| && AllWritable(L0, L1, ts)
    decreases |ts| - i
  {
    if i == |ts| then SymBits(L0, END_OF_BLOCK) else TokenBits(L0, L1, ts[i]) + BlockBits(L0, L1, ts, i + 1)
  }

  /** Tokens up to the end-of-block symbol, played on `h`. */
  ghost function DecodeBody(L0: seq<nat>, L1: seq<nat>, b: seq<bool>, h: seq<Byte>): (r: Decoded<seq<Byte>>)
    requires |L0| == 288 && |L1| == 32
    ensures r.Done? ==> |r.rest| <= |b| && h <= r.value
    decreases |b|
  {
    var d := DecodeToken(L0, L1, b);
    if !d.Done? then Stop(d)
    else if d.value.End? then Done(h, d.rest)
    else if !Playable(h, d.value.t) then Departed(TooFar)
    else DecodeBody(L0, L1, d.rest, Play(h, d.value.t))
  }

  lemma {:induction false} DecodeBodyStep(L0: seq<nat>, L1: seq<nat>, b: seq<bool>, h: seq<Byte>, t: Token,
      rest: seq<bool>)
    requires |L0| == 288 && |L1| == 32 && DecodeToken(L0, L1, b) == Done(Tok(t), rest) && Playable(h, t)
    ensures DecodeBody(L0, L1, b, h) == DecodeBody(L0, L1, rest, Play(h, t))
  {
  }

  /** A block body decodes to what its tokens play, whatever follows. */
  lemma {:induction false} BodyRoundTrip(L0: seq<nat>, L1: seq<nat>, ts: seq<Token>, i: nat, h: seq<Byte>,
      rest: seq<bool>)
    requires Fits(L0) && Fits(L1) && AllWritable(L0, L1, ts) && i <= |ts| && PlayableFrom(h, ts, i)
    ensures DecodeBody(L0, L1, BlockBits(L0, L1, ts, i) + rest, h) == Done(PlayFrom(h, ts, i), rest)
    decreases |ts| - i
  {
    hide Fits, SymBits, DecodeToken, TokenBits, Play, Playable, Writable;
    if i == |ts| {
      LitDecodes(L0, L1, END_OF_BLOCK, rest);
    } else {
      hide DecodeBody;
      var tail := BlockBits(L0, L1, ts, i + 1) + rest;
      Assoc(TokenBits(L0, L1, ts[i]), BlockBits(L0, L1, ts, i + 1), rest);
      TokenRoundTrip(L0, L1, ts[i], tail);
      DecodeBodyStep(L0, L1, TokenBits(L0, L1, ts[i]) + tail, h, ts[i], tail);
      BodyRoundTrip(L0, L1, ts, i + 1, Play(h, ts[i]), rest);
    }
  }
}
