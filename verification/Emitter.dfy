/** Writing a block's LZ codes: the portable loop and the 64-bit one. */
module Emitter {
  import opened Bits
  import opened Canonical
  import opened LzTokens
  import opened LzBuffer
  import opened BitWriter

  /** `codes` are the reversed canonical codes of the lengths `L`. */
  ghost predicate CodesOf(L: seq<nat>, codes: seq<nat>) {
    Fits(L) && |codes| == |L| && forall s :: 0 <= s < |L| && L[s] > 0 ==> codes[s] == Rev(Code(L, s), L[s])
  }

  /** Everything the emitters read: both codes, the sealed buffer and the tokens in it. */
  ghost predicate Ready(buf: seq<Byte>, code: nat, ts: seq<Token>, g: nat, L0: seq<nat>, c0: seq<nat>, L1: seq<nat>,
      c1: seq<nat>) {
    Sealed(buf, ts, g, code) && AllWritable(L0, L1, ts) && CodesOf(L0, c0) && CodesOf(L1, c1)
  }

  lemma {:induction false} SymCode(L: seq<nat>, codes: seq<nat>, s: nat)
    requires CodesOf(L, codes) && s < |L| && L[s] > 0
    ensures L[s] <= 15 && s < |codes| && codes[s] < Pow2(L[s]) && ToBits(codes[s], L[s]) == SymBits(L, s)
  {
  }

  method PutSym(w: Writer, L: seq<nat>, codes: seq<nat>, s: nat)
    requires w.Valid() && CodesOf(L, codes) && s < |L| && L[s] > 0
    modifies w`pos, w`bitBuf, w`bitsIn, w`bits, w.out
    ensures w.Valid() && w.bits == old(w.bits) + SymBits(L, s)
    ensures w.pos >= old(w.pos) && w.out[..old(w.pos)] == old(w.out[..w.pos])
  {
    hide CodesOf, SymBits, Kept;
    SymCode(L, codes, s);
    w.PutBits(codes[s], L[s]);
  }

  /** A symbol and its extra bits. */
  method PutField(w: Writer, L: seq<nat>, codes: seq<nat>, s: nat, v: nat, extra: nat)
    requires w.Valid() && CodesOf(L, codes) && s < |L| && L[s] > 0 && extra <= 13
    modifies w`pos, w`bitBuf, w`bitsIn, w`bits, w.out
    ensures w.Valid() && w.bits == old(w.bits) + (SymBits(L, s) + ToBits(Low(v, extra), extra))
    ensures w.pos >= old(w.pos) && w.out[..old(w.pos)] == old(w.out[..w.pos])
  {
    hide CodesOf, SymBits, Kept, ToBits, Low;
    ghost var b0 := w.bits;
    PutSym(w, L, codes, s);
    ghost var p1, o1 := w.pos, w.out[..w.pos];
    w.PutBits(Low(v, extra), extra);
    assert w.out[..old(w.pos)] == o1[..old(w.pos)];
    Assoc(b0, SymBits(L, s), ToBits(Low(v, extra), extra));
  }

  lemma {:induction false} TokenSyms(L0: seq<nat>, L1: seq<nat>, t: Token)
    requires Writable(L0, L1, t)
    ensures t.Lit? ==> t.b < |L0| && L0[t.b] > 0 && TokenBits(L0, L1, t) == SymBits(L0, t.b)
    ensures t.Match? ==> LenSym(t.len - 3) < |L0| && L0[LenSym(t.len - 3)] > 0 && DistSym(t.dist - 1) < |L1|
    ensures t.Match? ==> L1[DistSym(t.dist - 1)] > 0 && LenExtra(t.len - 3) <= 5 && DistExtra(t.dist - 1) <= 13
    ensures t.Match? ==> TokenBits(L0, L1, t) == LenBits(L0, t.len - 3) + DistBits(L1, t.dist - 1)
    ensures t.Match? ==> t.len - 3 <= 255 && t.dist - 1 < WINDOW
  {
    if t.Match? {
      LenRoundTrip(t.len - 3);
      DistRoundTrip(t.dist - 1);
    }
  }

  /** Extra bits of a distance through the small or the large table. */
  function DistWidth(d: nat): (e: nat)
    requires d < WINDOW
    ensures e == DistExtra(d)
  {
    if d < 512 then DistExtra(d) else LargeDist(d); LargeDistExtra(d / 256)
  }

  method PutMatch(w: Writer, L0: seq<nat>, c0: seq<nat>, L1: seq<nat>, c1: seq<nat>, l: nat, d: nat, ghost t: Token)
    requires w.Valid() && CodesOf(L0, c0) && CodesOf(L1, c1) && Writable(L0, L1, t) && t == Match(l + 3, d + 1)
    modifies w`pos, w`bitBuf, w`bitsIn, w`bits, w.out
    ensures w.Valid() && w.bits == old(w.bits) + TokenBits(L0, L1, t)
    ensures w.pos >= old(w.pos) && w.out[..old(w.pos)] == old(w.out[..w.pos])
  {
    hide CodesOf, SymBits, Kept, ToBits, Low, Writable, TokenBits, LenSym, DistSym, LenExtra, DistExtra;
    TokenSyms(L0, L1, t);
    ghost var b0 := w.bits;
    PutField(w, L0, c0, LenSym(l), l, LenExtra(l));
    ghost var p1, o1 := w.pos, w.out[..w.pos];
    PutField(w, L1, c1, DistSymbol(d), d, DistWidth(d));
    assert w.out[..old(w.pos)] == o1[..old(w.pos)];
    Assoc(b0, LenBits(L0, l), DistBits(L1, d));
  }

  lemma {:induction false} PayloadValue(t: Token)
    requires TokenOk(t)
    ensures t.Lit? ==> Payload(t) == [t.b]
    ensures t.Match? ==> |Payload(t)| == 3 && (Payload(t)[0] as nat) + 3 == t.len
    ensures t.Match? ==> (Payload(t)[1] as nat) + 256 * (Payload(t)[2] as nat) + 1 == t.dist
  {
  }

  lemma {:induction false} BlockStep(bits: seq<bool>, L0: seq<nat>, L1: seq<nat>, ts: seq<Token>, i: nat)
    requires i < |ts| && AllWritable(L0, L1, ts)
    ensures Writable(L0, L1, ts[i])
    ensures bits + TokenBits(L0, L1, ts[i]) + BlockBits(L0, L1, ts, i + 1) == bits + BlockBits(L0, L1, ts, i)
  {
    Assoc(bits, TokenBits(L0, L1, ts[i]), BlockBits(L0, L1, ts, i + 1));
  }

  /** One token read at `p` and written. */
  method EmitToken(w: Writer, buf: seq<Byte>, p: nat, flags: nat, L0: seq<nat>, c0: seq<nat>, L1: seq<nat>,
      c1: seq<nat>,
      ghost t: Token) returns (p': nat)
    requires w.Valid() && CodesOf(L0, c0) && CodesOf(L1, c1) && Writable(L0, L1, t) && flags % 2 == Flag(t)
    requires TokenOk(t) && p + |Payload(t)| <= |buf| && buf[p..p + |Payload(t)|] == Payload(t)
    modifies w`pos, w`bitBuf, w`bitsIn, w`bits, w.out
    ensures w.Valid() && w.bits == old(w.bits) + TokenBits(L0, L1, t) && p' == p + |Payload(t)|
    ensures w.pos >= old(w.pos) && w.out[..old(w.pos)] == old(w.out[..w.pos])
  {
    hide CodesOf, Kept, TokenBits, Writable, Payload;
    TokenSyms(L0, L1, t);
    PayloadValue(t);
    if flags % 2 == 1 {
      var len, dist := buf[p] as nat, (buf[p + 1] as nat) + 256 * (buf[p + 2] as nat);
      assert Payload(t)[0] == buf[p] && Payload(t)[1] == buf[p + 1] && Payload(t)[2] == buf[p + 2];
      PutMatch(w, L0, c0, L1, c1, len, dist, t);
      p' := p + 3;
    } else {
      assert Payload(t)[0] == buf[p];
      PutSym(w, L0, c0, buf[p]);
      p' := p + 1;
    }
  }

  lemma {:induction false} StartReading(ts: seq<Token>)
    requires AllOk(ts)
    ensures At(ts, 0, 0, 0, 1)
  {
  }

  lemma {:induction false} ReadyFacts(buf: seq<Byte>, code: nat, ts: seq<Token>, g: nat, L0: seq<nat>, c0: seq<nat>,
      L1: seq<nat>, c1: seq<nat>)
    requires Ready(buf, code, ts, g, L0, c0, L1, c1)
    ensures AllOk(ts) && |buf| == SIZE && code <= SIZE && |L0| == 288 && |L1| == 32 && L0[END_OF_BLOCK] > 0
    ensures BlockBits(L0, L1, ts, |ts|) == SymBits(L0, END_OF_BLOCK)
    ensures forall i :: 0 <= i < |ts| ==> TokenOk(ts[i]) && Writable(L0, L1, ts[i])
  {
  }

  lemma {:induction false} NotAtGroup(ts: seq<Token>, h: nat, i: nat, p: nat, flags: nat)
    requires At(ts, h, i, p, flags) && flags != 1
    ensures InGroup(ts, h, i, p, flags)
  {
  }

  /** The portable loop: one token at a time. */
  method EmitPlain(w: Writer, buf: seq<Byte>, code: nat, L0: seq<nat>, c0: seq<nat>, L1: seq<nat>, c1: seq<nat>,
      ghost ts: seq<Token>, ghost g: nat) returns (ok: bool)
    requires w.Valid() && Ready(buf, code, ts, g, L0, c0, L1, c1)
    modifies w`pos, w`bitBuf, w`bitsIn, w`bits, w.out
    ensures w.Valid() && w.bits == old(w.bits) + BlockBits(L0, L1, ts, 0)
    ensures ok <==> |w.bits| < 8 * w.end
    ensures w.pos >= old(w.pos) && w.out[..old(w.pos)] == old(w.out[..w.pos])
  {
    hide CodesOf, Kept, At, AtGroup, InGroup, Sealed, BlockBits, TokenBits, Writable, AllOk, Payload, SymBits;
    var flags: nat, p: nat := 1, 0;
    ghost var i: nat, h: nat := 0, 0;
    ReadyFacts(buf, code, ts, g, L0, c0, L1, c1);
    StartReading(ts);
    ghost var b0, pos0, o0 := w.bits, w.pos, w.out[..w.pos];
    while p < code
      invariant i <= |ts| && At(ts, h, i, p, flags) && p <= code
      invariant w.Valid() && w.bits + BlockBits(L0, L1, ts, i) == b0 + BlockBits(L0, L1, ts, 0)
      invariant pos0 <= w.pos <= w.out.Length && w.out[..pos0] == o0
      decreases |ts| - i
    {
      MoreToRead(buf, ts, g, code, h, i, p, flags);
      if flags == 1 {
        LoadFlags(buf, ts, g, code, h, i, p);
        flags := (buf[p] as nat) + 256;
        p := p + 1;
      } else {
        NotAtGroup(ts, h, i, p, flags);
      }
      ReadToken(buf, ts, g, code, h, i, p, flags);
      BlockStep(w.bits, L0, L1, ts, i);
      p := EmitToken(w, buf, p, flags, L0, c0, L1, c1, ts[i]);
      if i + 1 == 8 * h + 8 { h := h + 1; }
      i := i + 1;
      flags := flags / 2;
    }
    MoreToRead(buf, ts, g, code, h, i, p, flags);
    PutSym(w, L0, c0, END_OF_BLOCK);
    w.Fits();
    ok := w.pos < w.end;
  }

  // ---- The 64-bit loop ----

  /** The loop's own copy of the output state: nothing is ever dropped here. */
  ghost predicate Fast(out: seq<Byte>, pos: nat, end: nat, buf: nat, n: nat, bits: seq<bool>) {
    Kept(out, pos, end, buf, n, bits) && |bits| == 8 * pos + n && pos <= |out|
  }

  method PutFast(buf: nat, n: nat, b: nat, l: nat, ghost out: seq<Byte>, ghost pos: nat, ghost end: nat,
      ghost bits: seq<bool>)
    returns (buf': nat, n': nat)
    requires Fast(out, pos, end, buf, n, bits) && b < Pow2(l) && n + l <= 64
    ensures Fast(out, pos, end, buf', n', bits + ToBits(b, l)) && n' == n + l
  {
    hide Kept, Or, Shl;
    KeptPut(out, pos, end, buf, n, bits, b, l);
    buf', n' := Or(buf, Shl(b, n)), n + l;
  }

  method PutFastSym(buf: nat, n: nat, L: seq<nat>, codes: seq<nat>, s: nat,
      ghost out: seq<Byte>, ghost pos: nat, ghost end: nat, ghost bits: seq<bool>) returns (buf': nat, n': nat)
    requires Fast(out, pos, end, buf, n, bits) && CodesOf(L, codes) && s < |L| && L[s] > 0 && n <= 49
    ensures Fast(out, pos, end, buf', n', bits + SymBits(L, s)) && n' <= n + 15
  {
    hide Fast, CodesOf, SymBits;
    SymCode(L, codes, s);
    buf', n' := PutFast(buf, n, codes[s], L[s], out, pos, end, bits);
  }

  method PutFastField(buf: nat, n: nat, L: seq<nat>, codes: seq<nat>, s: nat, v: nat, extra: nat,
      ghost out: seq<Byte>, ghost pos: nat, ghost end: nat, ghost bits: seq<bool>) returns (buf': nat, n': nat)
    requires Fast(out, pos, end, buf, n, bits) && CodesOf(L, codes) && s < |L| && L[s] > 0 && n + 15 + extra <= 64
    ensures Fast(out, pos, end, buf', n', bits + (SymBits(L, s) + ToBits(Low(v, extra), extra))) && n' <= n + 15 + extra
  {
    hide Fast, CodesOf, SymBits, Low, ToBits;
    buf', n' := PutFastSym(buf, n, L, codes, s, out, pos, end, bits);
    buf', n' := PutFast(buf', n', Low(v, extra), extra, out, pos, end, bits + SymBits(L, s));
    Assoc(bits, SymBits(L, s), ToBits(Low(v, extra), extra));
  }

  method PutFastMatch(buf: nat, n: nat, L0: seq<nat>, c0: seq<nat>, L1: seq<nat>, c1: seq<nat>, l: nat, d: nat,
      ghost t: Token,
      ghost out: seq<Byte>, ghost pos: nat, ghost end: nat, ghost bits: seq<bool>) returns (buf': nat, n': nat)
    requires Fast(out, pos, end, buf, n, bits) && CodesOf(L0, c0) && CodesOf(L1, c1) && n < 8
    requires Writable(L0, L1, t) && t == Match(l + 3, d + 1)
    ensures Fast(out, pos, end, buf', n', bits + TokenBits(L0, L1, t)) && n' <= 55
  {
    hide Fast, CodesOf, SymBits, ToBits, Low, Writable, TokenBits, LenSym, DistSym, LenExtra, DistExtra;
    TokenSyms(L0, L1, t);
    buf', n' := PutFastField(buf, n, L0, c0, LenSym(l), l, LenExtra(l), out, pos, end, bits);
    buf', n' := PutFastField(buf', n', L1, c1, DistSymbol(d), d, DistWidth(d), out, pos, end, bits + LenBits(L0, l));
    Assoc(bits, LenBits(L0, l), DistBits(L1, d));
  }

  /** Where the 64-bit loop stands: position in the LZ codes, output state, and what is still to be written. */
  ghost predicate Going(ts: seq<Token>, L0: seq<nat>, L1: seq<nat>, i: nat, bits: seq<bool>, goal: seq<bool>) {
    i <= |ts| && AllWritable(L0, L1, ts) && bits + BlockBits(L0, L1, ts, i) == goal
  }

  lemma {:induction false} GoingStep(ts: seq<Token>, L0: seq<nat>, L1: seq<nat>, i: nat, bits: seq<bool>,
      goal: seq<bool>)
    requires Going(ts, L0, L1, i, bits, goal) && i < |ts|
    ensures Writable(L0, L1, ts[i]) && Going(ts, L0, L1, i + 1, bits + TokenBits(L0, L1, ts[i]), goal)
  {
    hide Writable, TokenBits, BlockBits;
    BlockStep(bits, L0, L1, ts, i);
  }

  /** One literal of a chain. */
  method FastLiteral(buf: seq<Byte>, code: nat, p: nat, flags: nat, bitBuf: nat, bitsIn: nat, L0: seq<nat>,
      c0: seq<nat>, ghost L1: seq<nat>,
      ghost ts: seq<Token>, ghost g: nat, ghost h: nat, ghost i: nat,
      ghost out: seq<Byte>, ghost pos: nat, ghost end: nat, ghost bits: seq<bool>, ghost goal: seq<bool>)
    returns (bitBuf': nat, bitsIn': nat, ghost bits': seq<bool>)
    requires Sealed(buf, ts, g, code) && InGroup(ts, h, i, p, flags) && i < |ts| && flags % 2 == 0 && p < |buf|
    requires Fast(out, pos, end, bitBuf, bitsIn, bits) && bitsIn <= 37 && CodesOf(L0, c0)
      && Going(ts, L0, L1, i, bits, goal)
    ensures Fast(out, pos, end, bitBuf', bitsIn', bits') && bitsIn' <= bitsIn + 15
      && Going(ts, L0, L1, i + 1, bits', goal)
    ensures At(ts, if i + 1 == 8 * h + 8 then h + 1 else h, i + 1, p + 1, flags / 2) && p + 1 <= code
    ensures flags / 2 % 2 == 0 && p + 1 < code ==> InGroup(ts, h, i + 1, p + 1, flags / 2) && i + 1 < |ts|
  {
    hide Fast, CodesOf, Going, Sealed, At, AtGroup, InGroup, SymBits, Writable, TokenBits, Payload;
    SealedSize(buf, ts, g, code);
    ReadToken(buf, ts, g, code, h, i, p, flags);
    GoingStep(ts, L0, L1, i, bits, goal);
    TokenSyms(L0, L1, ts[i]);
    LitByte(buf, p, ts[i]);
    bits' := bits + TokenBits(L0, L1, ts[i]);
    bitBuf', bitsIn' := PutFastSym(bitBuf, bitsIn, L0, c0, buf[p], out, pos, end, bits);
    MoreToRead(buf, ts, g, code, if i + 1 == 8 * h + 8 then h + 1 else h, i + 1, p + 1, flags / 2);
  }

  lemma {:induction false} LitByte(buf: seq<Byte>, p: nat, t: Token)
    requires TokenOk(t) && Flag(t) == 0 && p + |Payload(t)| <= |buf| && buf[p..p + |Payload(t)|] == Payload(t)
    ensures t.Lit? && |Payload(t)| == 1 && buf[p] == t.b
  {
    assert buf[p..p + 1][0] == buf[p];
  }

  lemma {:induction false} MatchBytes(buf: seq<Byte>, p: nat, t: Token)
    requires TokenOk(t) && Flag(t) == 1 && p + |Payload(t)| <= |buf| && buf[p..p + |Payload(t)|] == Payload(t)
    ensures p + 3 <= |buf| && |Payload(t)| == 3
    ensures t == Match((buf[p] as nat) + 3, (buf[p + 1] as nat) + 256 * (buf[p + 2] as nat) + 1)
  {
    PayloadValue(t);
    hide Payload;
    assert buf[p] == Payload(t)[0] && buf[p + 1] == Payload(t)[1] && buf[p + 2] == Payload(t)[2];
  }

  /** One match, or up to three literals of a group, gathered into the 64-bit buffer. */
  method FastTokens(buf: seq<Byte>, code: nat, p0: nat, flags0: nat, bitBuf0: nat, bitsIn0: nat,
      L0: seq<nat>, c0: seq<nat>, L1: seq<nat>, c1: seq<nat>, ghost ts: seq<Token>, ghost g: nat, ghost h: nat,
        ghost i: nat,
      ghost out: seq<Byte>, ghost pos: nat, ghost end: nat, ghost bits: seq<bool>, ghost goal: seq<bool>)
    returns (p: nat, flags: nat, bitBuf: nat, bitsIn: nat, ghost h': nat, ghost i': nat, ghost bits': seq<bool>)
    requires Sealed(buf, ts, g, code) && InGroup(ts, h, i, p0, flags0) && i < |ts| && p0 < |buf|
    requires Fast(out, pos, end, bitBuf0, bitsIn0, bits) && bitsIn0 < 8 && CodesOf(L0, c0) && CodesOf(L1, c1)
    requires Going(ts, L0, L1, i, bits, goal)
    ensures Fast(out, pos, end, bitBuf, bitsIn, bits') && bitsIn <= 55 && Going(ts, L0, L1, i', bits', goal)
    ensures i < i' <= |ts| && At(ts, h', i', p, flags / 2)
  {
    hide Fast, CodesOf, Going, Sealed, At, AtGroup, InGroup, SymBits, Writable, TokenBits, Payload;
    p, flags := p0, flags0;
    SealedSize(buf, ts, g, code);
    if flags % 2 == 1 {
      ReadToken(buf, ts, g, code, h, i, p, flags);
      GoingStep(ts, L0, L1, i, bits, goal);
      TokenSyms(L0, L1, ts[i]);
      MatchBytes(buf, p, ts[i]);
      var len, dist := buf[p] as nat, (buf[p + 1] as nat) + 256 * (buf[p + 2] as nat);
      p := p + 3;
      bitBuf, bitsIn := PutFastMatch(bitBuf0, bitsIn0, L0, c0, L1, c1, len, dist, ts[i], out, pos, end, bits);
      h', i', bits' := if i + 1 == 8 * h + 8 then h + 1 else h, i + 1, bits + TokenBits(L0, L1, ts[i]);
    } else {
      bitBuf, bitsIn, bits' := FastLiteral(buf, code, p, flags, bitBuf0, bitsIn0, L0, c0, L1, ts, g, h, i, out, pos,
        end, bits, goal);
      p, i' := p + 1, i + 1;
      if flags / 2 % 2 == 0 && p < code {
        flags := flags / 2;
        bitBuf, bitsIn, bits' := FastLiteral(buf, code, p, flags, bitBuf, bitsIn, L0, c0, L1, ts, g, h, i', out, pos,
          end, bits', goal);
        p, i' := p + 1, i' + 1;
        if flags / 2 % 2 == 0 && p < code {
          flags := flags / 2;
          bitBuf, bitsIn, bits' := FastLiteral(buf, code, p, flags, bitBuf, bitsIn, L0, c0, L1, ts, g, h, i', out, pos,
            end, bits', goal);
          p, i' := p + 1, i' + 1;
        }
      }
      h' := if i' == 8 * h + 8 then h + 1 else h;
    }
    GoingBound(ts, L0, L1, i', bits', goal);
  }

  lemma {:induction false} SealedSize(buf: seq<Byte>, ts: seq<Token>, g: nat, code: nat)
    requires Sealed(buf, ts, g, code)
    ensures |buf| == SIZE && code <= SIZE && AllOk(ts)
  {
  }

  lemma {:induction false} GoingBound(ts: seq<Token>, L0: seq<nat>, L1: seq<nat>, i: nat, bits: seq<bool>,
      goal: seq<bool>)
    requires Going(ts, L0, L1, i, bits, goal)
    ensures i <= |ts| && |bits| <= |goal|
  {
  }

  /** Moves the complete bytes of the 64-bit buffer out with one store. */
  method FlushWord(out: array<Byte>, pos0: nat, end: nat, buf0: nat, n0: nat, ghost bits: seq<bool>)
      returns (pos: nat, buf: nat, n: nat)
    requires Fast(out[..], pos0, end, buf0, n0, bits) && n0 <= 63 && pos0 < end && end + 16 <= out.Length
    modifies out
    ensures Fast(out[..], pos, end, buf, n, bits) && n < 8 && pos >= pos0 && out[..pos0] == old(out[..pos0])
  {
    hide Kept, WordAt, Shr;
    ghost var was := out[..];
    StoreWord(out, pos0, buf0);
    var k := n0 / 8;
    WordPart(out[..], pos0, buf0, k);
    assert was[..pos0] == out[..][..pos0];
    KeptWord(was, out[..], pos0, end, buf0, k, n0 - 8 * k, bits);
    pos, buf, n := pos0 + k, Shr(buf0, 8 * k), n0 % 8;
  }

  lemma {:induction false} WordPart(out: seq<Byte>, pos: nat, buf: nat, k: nat)
    requires WordAt(out, pos, buf, 8) && k <= 8
    ensures WordAt(out, pos, buf, k)
  {
  }

  /** The whole-byte part of the output state, and the bits left over. */
  lemma {:induction false} FastSplit(out: seq<Byte>, pos: nat, end: nat, buf: nat, n: nat, bits: seq<bool>)
    requires Fast(out, pos, end, buf, n, bits)
    ensures Kept(out, pos, end, 0, 0, bits[..8 * pos]) && buf < Pow2(n)
    ensures pos < end ==> bits == bits[..8 * pos] + ToBits(buf, n)
  {
    if pos < end {
      var b := BytesToBits(out[..pos]);
      assert bits[..8 * pos] == b;
      assert b + ToBits(0, 0) == b;
    }
  }

  /** Hands the local state back to the writer and puts the bits left over through it. */
  method PutLeftOver(w: Writer, pos: nat, buf0: nat, n0: nat, ghost bits: seq<bool>)
    requires w.end + 16 <= w.out.Length && Fast(w.out[..], pos, w.end, buf0, n0, bits) && n0 < 8
    modifies w`pos, w`bitBuf, w`bitsIn, w`bits, w.out
    ensures w.Valid() && w.pos >= pos && w.out[..pos] == old(w.out[..pos])
    ensures pos < w.end ==> w.bits == bits
  {
    hide Kept, Low, Shr, ToBits;
    FastSplit(w.out[..], pos, w.end, buf0, n0, bits);
    FastPos(w.out[..], pos, w.end, buf0, n0, bits);
    ZeroBits();
    w.pos, w.bitBuf, w.bitsIn, w.bits := pos, 0, 0, bits[..8 * pos];
    var buf, n := buf0, n0;
    if n > 0 {
      // at most one round of sixteen: fewer than eight bits are left
      LowBitsOf(buf, n);
      w.PutBits(Low(buf, n), n);
    } else {
      NoBits(buf);
      assert bits[..8 * pos] + [] == bits[..8 * pos];
    }
  }

  lemma {:induction false} FastPos(out: seq<Byte>, pos: nat, end: nat, buf: nat, n: nat, bits: seq<bool>)
    requires Fast(out, pos, end, buf, n, bits)
    ensures pos <= |out| && 8 * pos <= |bits|
  {
  }

  lemma {:induction false} ZeroBits()
    ensures 0 < Pow2(0)
  {
  }

  lemma {:induction false} NoBits(v: nat)
    ensures ToBits(v, 0) == []
  {
  }

  lemma {:induction false} FastStart(out: seq<Byte>, pos: nat, end: nat, buf: nat, n: nat, bits: seq<bool>)
    requires Kept(out, pos, end, buf, n, bits) && pos < end
    ensures Fast(out, pos, end, buf, n, bits)
  {
  }

  /** A full buffer means the whole block does not fit. */
  lemma {:induction false} FastFull(out: seq<Byte>, pos: nat, end: nat, buf: nat, n: nat, bits: seq<bool>)
    requires Fast(out, pos, end, buf, n, bits) && pos >= end
    ensures |bits| >= 8 * end
  {
  }

  lemma {:induction false} KeptBelow(out: seq<Byte>, out': seq<Byte>, pos: nat, end: nat, buf: nat, n: nat,
      bits: seq<bool>)
    requires Kept(out, pos, end, buf, n, bits) && |out'| == |out| && out'[..pos] == out[..pos]
    ensures Kept(out', pos, end, buf, n, bits)
  {
  }

  lemma {:induction false} GoingStart(ts: seq<Token>, L0: seq<nat>, L1: seq<nat>, bits: seq<bool>)
    requires AllWritable(L0, L1, ts)
    ensures Going(ts, L0, L1, 0, bits, bits + BlockBits(L0, L1, ts, 0))
  {
  }

  lemma {:induction false} GoingEnd(ts: seq<Token>, L0: seq<nat>, L1: seq<nat>, bits: seq<bool>, goal: seq<bool>)
    requires Going(ts, L0, L1, |ts|, bits, goal)
    ensures END_OF_BLOCK < |L0| && L0[END_OF_BLOCK] > 0 && goal == bits + SymBits(L0, END_OF_BLOCK)
  {
  }

  lemma {:induction false} PayloadInside(buf: seq<Byte>, ts: seq<Token>, g: nat, code: nat, h: nat, i: nat, p: nat,
      flags: nat)
    requires Sealed(buf, ts, g, code) && InGroup(ts, h, i, p, flags) && i < |ts|
    ensures p < code <= |buf|
  {
    hide InGroup, Payload;
    ReadToken(buf, ts, g, code, h, i, p, flags);
    PayloadSize(ts[i]);
  }

  /** The bits left over, then the end of the block. */
  method FinishFast(w: Writer, pos: nat, buf: nat, n: nat, L0: seq<nat>, c0: seq<nat>, ghost bits: seq<bool>)
      returns (ok: bool)
    requires w.end + 16 <= w.out.Length && Fast(w.out[..], pos, w.end, buf, n, bits) && n < 8
    requires CodesOf(L0, c0) && END_OF_BLOCK < |L0| && L0[END_OF_BLOCK] > 0
    modifies w`pos, w`bitBuf, w`bitsIn, w`bits, w.out
    ensures w.Valid() && w.pos >= pos && w.out[..pos] == old(w.out[..pos]) && ok == (w.pos < w.end)
    ensures pos < w.end ==> w.bits == bits + SymBits(L0, END_OF_BLOCK) && (ok <==> |w.bits| < 8 * w.end)
  {
    hide Fast, Kept, CodesOf, SymBits;
    FastPos(w.out[..], pos, w.end, buf, n, bits);
    PutLeftOver(w, pos, buf, n, bits);
    ghost var p1, o1 := w.pos, w.out[..w.pos];
    PutSym(w, L0, c0, END_OF_BLOCK);
    assert w.out[..pos] == o1[..pos];
    w.Fits();
    ok := w.pos < w.end;
  }

  /** The 64-bit loop writes the same bits as the portable one and succeeds on the same blocks. */
  method EmitFast(w: Writer, buf: seq<Byte>, code: nat, L0: seq<nat>, c0: seq<nat>, L1: seq<nat>, c1: seq<nat>,
      ghost ts: seq<Token>, ghost g: nat) returns (ok: bool)
    requires w.Valid() && w.pos < w.end && Ready(buf, code, ts, g, L0, c0, L1, c1)
    modifies w`pos, w`bitBuf, w`bitsIn, w`bits, w.out
    ensures w.Valid() && w.pos >= old(w.pos) && w.out[..old(w.pos)] == old(w.out[..w.pos])
    ensures ok <==> |old(w.bits) + BlockBits(L0, L1, ts, 0)| < 8 * w.end
    ensures ok ==> w.bits == old(w.bits) + BlockBits(L0, L1, ts, 0) && w.pos < w.end
  {
    hide CodesOf, Kept, At, AtGroup, InGroup, Sealed, BlockBits, AllOk, SymBits, Fast, Going, Writable;
    ReadyFacts(buf, code, ts, g, L0, c0, L1, c1);
    StartReading(ts);
    ghost var goal := w.bits + BlockBits(L0, L1, ts, 0);
    ghost var bits, pos0, o0 := w.bits, w.pos, w.out[..];
    var pos: nat, bitBuf: nat, bitsIn: nat := w.pos, w.bitBuf, w.bitsIn;
    FastStart(o0, pos, w.end, bitBuf, bitsIn, bits);
    var flags: nat, p: nat := 1, 0;
    ghost var i: nat, h: nat := 0, 0;
    GoingStart(ts, L0, L1, bits);
    while p < code
      invariant At(ts, h, i, p, flags) && i <= |ts| && bitsIn < 8
      invariant Fast(w.out[..], pos, w.end, bitBuf, bitsIn, bits) && Going(ts, L0, L1, i, bits, goal)
      invariant pos0 <= pos <= w.out.Length && |w.out[..]| == |o0| && w.out[..pos0] == o0[..pos0] && unchanged(w)
      decreases |ts| - i
    {
      MoreToRead(buf, ts, g, code, h, i, p, flags);
      if flags == 1 {
        LoadFlags(buf, ts, g, code, h, i, p);
        flags := (buf[p] as nat) + 256;
        p := p + 1;
      } else {
        NotAtGroup(ts, h, i, p, flags);
      }
      PayloadInside(buf, ts, g, code, h, i, p, flags);
      p, flags, bitBuf, bitsIn, h, i, bits := FastTokens(buf, code, p, flags, bitBuf, bitsIn, L0, c0, L1, c1, ts, g, h,
        i, w.out[..], pos, w.end, bits, goal);
      flags := flags / 2;
      if pos >= w.end {
        FastFull(w.out[..], pos, w.end, bitBuf, bitsIn, bits);
        GoingBound(ts, L0, L1, i, bits, goal);
        KeptBelow(o0, w.out[..], w.pos, w.end, w.bitBuf, w.bitsIn, w.bits);
        return false;
      }
      ghost var o1 := w.out[..pos];
      pos, bitBuf, bitsIn := FlushWord(w.out, pos, w.end, bitBuf, bitsIn, bits);
      FastPos(w.out[..], pos, w.end, bitBuf, bitsIn, bits);
      assert w.out[..pos0] == o1[..pos0];
    }
    MoreToRead(buf, ts, g, code, h, i, p, flags);
    if pos >= w.end { FastFull(w.out[..], pos, w.end, bitBuf, bitsIn, bits); }
    GoingEnd(ts, L0, L1, bits, goal);
    ok := FinishFast(w, pos, bitBuf, bitsIn, L0, c0, bits);
  }
}
