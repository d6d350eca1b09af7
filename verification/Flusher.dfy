/** Ending a block: choosing how to write it, and writing it. */
module Flusher {
  import opened Bits
  import opened Canonical
  import opened LzTokens
  import opened Blocks
  import opened Streams
  import opened BitWriter
  import opened Emitter
  import opened DynamicHeader
  import opened BlockSize
  import opened CodeCost
  import opened Dictionary
  import CodeBuilder
  import CodeLens
  import LzBuffer

  const OUT_BUF_SIZE := 85196

  /** No block takes more bits behind its final flag. */
  const BLOCK_BITS := 2 + 4500 + 675000

  // ---- What the written bits are ----

  /** The final flag, then the rest of a block. */
  function WithFinal(last: bool, x: seq<bool>): (b: seq<bool>) {
    ToBits(B(last), 1) + x
  }

  lemma {:induction false} FixedIs(last: bool, ts: seq<Token>, h: seq<Byte>, at: nat)
    requires AllWritable(FixedLit(), FixedDist(), ts) && PlayableFrom(h, ts, 0)
    ensures BlockIs(WithFinal(last, ToBits(1, 2) + BlockBits(FixedLit(), FixedDist(), ts, 0)), at, last, h,
      PlayFrom(h, ts, 0))
  {
    hide FixedLit, FixedDist, AllWritable, DecodeBlock, BlockBits, PlayFrom, PlayableFrom, ToBits;
    var y := BlockBits(FixedLit(), FixedDist(), ts, 0);
    Assoc(ToBits(B(last), 1), ToBits(1, 2), y);
    forall rest: seq<bool> ensures DecodeBlock(WithFinal(last, ToBits(1, 2) + y) + rest, h)
      == Done(Block(last, PlayFrom(h, ts, 0)), rest) {
      FixedBlock(last, ts, h, rest);
    }
  }

  lemma {:induction false} DynamicIs(last: bool, x: Header, ts: seq<Token>, h: seq<Byte>, at: nat)
    requires HeaderOk(x) && AllWritable(x.book.lit, x.book.dist, ts) && PlayableFrom(h, ts, 0)
    ensures BlockIs(WithFinal(last, ToBits(2, 2) + HeaderBits(x) + BlockBits(x.book.lit, x.book.dist, ts, 0)), at, last,
      h, PlayFrom(h, ts, 0))
  {
    hide HeaderOk, HeaderBits, AllWritable, DecodeBlock, BlockBits, PlayFrom, PlayableFrom, ToBits;
    var y := BlockBits(x.book.lit, x.book.dist, ts, 0);
    Assoc(ToBits(2, 2), HeaderBits(x), y);
    Assoc(ToBits(B(last), 1), ToBits(2, 2), HeaderBits(x) + y);
    forall rest: seq<bool> ensures DecodeBlock(WithFinal(last, ToBits(2, 2) + HeaderBits(x) + y) + rest, h)
      == Done(Block(last, PlayFrom(h, ts, 0)), rest) {
      DynamicBlock(last, x, ts, h, rest);
    }
  }

  lemma {:induction false} StoredLength(pad: nat, s: seq<Byte>)
    requires |s| <= 65535
    ensures |StoredBits(pad, s)| == pad + 32 + 8 * |s|
  {
  }

  lemma {:induction false} StoredRest(last: bool, pad: nat, s: seq<Byte>, h: seq<Byte>, at: nat, rest: seq<bool>)
    requires |s| <= 65535 && pad == PadBits(at + 3) && Aligned(at + |WithFinal(last,
      ToBits(0, 2) + StoredBits(pad, s))| + |rest|)
    ensures DecodeBlock(WithFinal(last, ToBits(0, 2) + StoredBits(pad, s)) + rest, h) == Done(Block(last, h + s), rest)
  {
    hide DecodeBlock, ToBits, StoredBits, PadBits;
    StoredLength(pad, s);
    Assoc(ToBits(B(last), 1), ToBits(0, 2), StoredBits(pad, s));
    PadRest(at, pad, |s|, |rest|);
    StoredBlock(last, pad, s, h, rest);
  }

  lemma {:induction false} StoredIs(last: bool, pad: nat, s: seq<Byte>, h: seq<Byte>, at: nat)
    requires |s| <= 65535 && pad == PadBits(at + 3)
    ensures BlockIs(WithFinal(last, ToBits(0, 2) + StoredBits(pad, s)), at, last, h, h + s)
  {
    hide DecodeBlock, WithFinal, ToBits, StoredBits, PadBits, Aligned;
    var x := WithFinal(last, ToBits(0, 2) + StoredBits(pad, s));
    forall rest: seq<bool> | Aligned(at + |x| + |rest|)
      ensures DecodeBlock(x + rest, h) == Done(Block(last, h + s), rest) {
      StoredRest(last, pad, s, h, at, rest);
    }
  }

  lemma {:induction false} PadRest(at: nat, pad: nat, n: nat, rest: nat)
    requires pad == PadBits(at + 3) && (at + (1 + (2 + (pad + 32 + 8 * n))) + rest) % 8 == 0
    ensures (pad + rest) % 8 == pad
  {
    assert (at + 3 + pad) % 8 == 0;
    assert (at + 3 + pad + 8 * (4 + n) + rest) % 8 == 0;
  }

  // ---- Writing one block ----

  /** The fixed code lengths and their codes. */
  method FixedCodes() returns (L0: seq<nat>, c0: seq<nat>, L1: seq<nat>, c1: seq<nat>)
    ensures L0 == FixedLit() && L1 == FixedDist() && CodesOf(L0, c0) && CodesOf(L1, c1)
  {
    hide FixedLit, FixedDist, Rev, Code, NextCode;
    FixedComplete();
    var sizes := new nat[288];
    var i := 0;
    while i <= 143
      invariant 0 <= i <= 144 && forall s :: 0 <= s < i ==> sizes[s] == FixedLit()[s]
    { sizes[i] := 8; i := i + 1; }
    while i <= 255
      invariant 144 <= i <= 256 && forall s :: 0 <= s < i ==> sizes[s] == FixedLit()[s]
    { sizes[i] := 9; i := i + 1; }
    while i <= 279
      invariant 256 <= i <= 280 && forall s :: 0 <= s < i ==> sizes[s] == FixedLit()[s]
    { sizes[i] := 7; i := i + 1; }
    while i <= 287
      invariant 280 <= i <= 288 && forall s :: 0 <= s < i ==> sizes[s] == FixedLit()[s]
    { sizes[i] := 8; i := i + 1; }
    assert sizes[..] == FixedLit();
    var codes := new nat[288];
    CodeBuilder.StaticTable(sizes, codes);
    L0, c0 := sizes[..], codes[..];
    sizes := new nat[32](_ => 5);
    assert sizes[..] == FixedDist();
    codes := new nat[32];
    CodeBuilder.StaticTable(sizes, codes);
    L1, c1 := sizes[..], codes[..];
  }

  /** Room for any block, and for what a flush puts behind it. */
  ghost predicate Roomy(w: Writer)
    reads w, w.out
  {
    w.Valid() && |w.bits| + BLOCK_BITS + 64 <= 8 * w.end
  }

  /** A block with the fixed codes. It always fits. */
  method WriteFixed(w: Writer, buf: seq<Byte>, code: nat, ghost ts: seq<Token>, ghost g: nat) returns (ok: bool)
    requires Roomy(w) && LzBuffer.Sealed(buf, ts, g, code)
    modifies w`pos, w`bitBuf, w`bitsIn, w`bits, w.out
    ensures AllWritable(FixedLit(), FixedDist(), ts)
    ensures w.Valid() && w.pos >= old(w.pos) && w.out[..old(w.pos)] == old(w.out[..w.pos])
    ensures ok && w.bits == old(w.bits) + (ToBits(1, 2) + BlockBits(FixedLit(), FixedDist(), ts, 0)) && w.pos < w.end
    ensures |w.bits| <= |old(w.bits)| + BLOCK_BITS
  {
    hide Kept, LzBuffer.Sealed, AllWritable, CodesOf, BlockBits, FixedLit, FixedDist, ToBits;
    BodySize(buf, ts, g, code);
    var L0, c0, L1, c1 := FixedCodes();
    ghost var b0, p0 := w.bits, w.pos;
    assert Pow2(2) == 4;
    w.PutBits(1, 2);
    ghost var o1 := w.out[..w.pos];
    w.Fits();
    assert Ready(buf, code, ts, g, L0, c0, L1, c1);
    ok := EmitFast(w, buf, code, L0, c0, L1, c1, ts, g);
    assert w.out[..p0] == o1[..p0];
    Assoc(b0, ToBits(1, 2), BlockBits(L0, L1, ts, 0));
  }

  /** A block with codes of its own. It always fits, because its codes are nearly the best there are. */
  method WriteDynamic(w: Writer, buf: seq<Byte>, code: nat, count0: array<nat>, count1: array<nat>,
      ghost ts: seq<Token>, ghost g: nat)
    returns (ok: bool, ghost x: Header)
    requires Roomy(w) && LzBuffer.Sealed(buf, ts, g, code)
    requires count0 != count1 && count0.Length == 288 && count1.Length == 32
      && LzBuffer.Counted(count0[..], count1[..], ts)
    requires w.out as object != count0
    modifies count0, w`pos, w`bitBuf, w`bitsIn, w`bits, w.out
    ensures HeaderOk(x) && AllWritable(x.book.lit, x.book.dist, ts)
    ensures w.Valid() && w.pos >= old(w.pos) && w.out[..old(w.pos)] == old(w.out[..w.pos])
    ensures ok && w.bits == old(w.bits) + (ToBits(2, 2) + HeaderBits(x) + BlockBits(x.book.lit, x.book.dist, ts, 0))
      && w.pos < w.end
    ensures |w.bits| <= |old(w.bits)| + BLOCK_BITS
  {
    hide Kept, LzBuffer.Sealed, LzBuffer.Counted, AllWritable, CodesOf, BlockBits, HeaderOk, HeaderBits, ToBits,
      Accepted, NearlyMinimal;
    TokensFit(buf, ts, g, code);
    ghost var C0, C1 := count0[..], count1[..];
    var L0, c0, L1, c1 := BuildCodes(count0, count1, ts);
    OwnBodySize(buf, ts, g, code, L0, L1, C0, C1);
    ghost var b0, p0 := w.bits, w.pos;
    x := StartDynamic(w, L0, L1, c0, c1, ts);
    ghost var o1 := w.out[..w.pos];
    HeaderLength(x);
    w.Fits();
    assert Ready(buf, code, ts, g, L0, c0, L1, c1);
    ok := EmitFast(w, buf, code, L0, c0, L1, c1, ts, g);
    assert w.out[..p0] == o1[..p0];
    Assoc(b0, ToBits(2, 2) + HeaderBits(x), BlockBits(L0, L1, ts, 0));
  }

  /** The bytes of a stored block, from the dictionary. */
  method PutBytes(w: Writer, d: Dict, start: nat, total: nat)
    requires w.Valid() && d.Valid() && d.lookPos - d.dictSize <= start && start + total <= d.lookPos
    requires w.out as object != d.dict && w as object != d
    modifies w`pos, w`bitBuf, w`bitsIn, w`bits, w.out
    ensures w.Valid() && w.bits == old(w.bits) + BytesToBits(d.src[start..start + total])
    ensures w.pos >= old(w.pos) && w.out[..old(w.pos)] == old(w.out[..w.pos])
  {
    hide Kept, Window, BytesToBits, Slot, ToBits;
    Pow2Values();
    ghost var b0, pos0, o0 := w.bits, w.pos, w.out[..w.pos];
    ghost var s := d.src[start..start + total];
    var i := 0;
    NoBytes(s);
    assert b0 + [] == b0;
    while i < total
      invariant 0 <= i <= total && w.Valid() && d.Valid() && w.bits == b0 + BytesToBits(s[..i])
      invariant pos0 <= w.pos && w.out[..pos0] == o0
    {
      d.Reads(start + i, 0);
      var c := d.dict[Slot(start + i)];
      OneMoreByte(b0, s, i);
      ghost var o1 := w.out[..w.pos];
      w.PutBits(c, 8);
      assert w.out[..pos0] == o1[..pos0];
      i := i + 1;
    }
    assert s[..total] == s;
  }

  lemma {:induction false} NoBytes(s: seq<Byte>)
    ensures BytesToBits(s[..0]) == []
  {
  }

  lemma {:induction false} OneMoreByte(b: seq<bool>, s: seq<Byte>, i: nat)
    requires i < |s|
    ensures b + BytesToBits(s[..i + 1]) == b + BytesToBits(s[..i]) + ToBits(s[i], 8)
  {
    assert s[..i + 1] == s[..i] + [s[i]];
    BytesToBitsConcat(s[..i], [s[i]]);
    assert BytesToBits([s[i]]) == ToBits(s[i], 8) by { assert [s[i]][1..] == []; }
    Assoc(b, BytesToBits(s[..i]), ToBits(s[i], 8));
  }

  /** `v ^ 0xFFFF` */
  function Flip16(v: nat): (r: nat)
    requires v <= 65535
    ensures r <= 65535 && 65535 - r == v
  {
    65535 - v
  }

  lemma {:induction false} StoredPieces(b: seq<bool>, pad: nat, s: seq<Byte>)
    requires |s| <= 65535
    ensures b + ToBits(0, 2) + ToBits(0, pad) + ToBits(|s|, 16) + ToBits(65535 - |s|, 16) + BytesToBits(s)
      == b + (ToBits(0, 2) + StoredBits(pad, s))
  {
    hide ToBits, BytesToBits;
    var x0, x1, x2, x3, x4 := ToBits(0, 2), ToBits(0, pad), ToBits(|s|, 16), ToBits(65535 - |s|, 16), BytesToBits(s);
    Assoc(b + x0 + x1 + x2, x3, x4);
    Assoc(b + x0 + x1, x2, x3 + x4);
    Assoc(b + x0, x1, x2 + (x3 + x4));
    Assoc(b, x0, x1 + (x2 + (x3 + x4)));
  }

  /** The start of a stored block: padding, the length and its complement. The length is flipped in place and back. */
  method WriteStoredHead(w: Writer, total0: nat) returns (total: nat)
    requires w.Valid() && total0 <= DICT && |w.bits| + 64 <= 8 * w.end
    modifies w`pos, w`bitBuf, w`bitsIn, w`bits, w.out
    ensures w.Valid() && w.pos >= old(w.pos) && w.out[..old(w.pos)] == old(w.out[..w.pos]) && total == total0
    ensures w.bits == old(w.bits) + ToBits(0, 2) + ToBits(0, PadBits(|old(w.bits)| + 2)) + ToBits(total0,
      16) + ToBits(65535 - total0, 16)
  {
    hide Kept, ToBits, PadBits;
    Pow2Values();
    assert Pow2(2) == 4;
    total := total0;
    ghost var p0 := w.pos;
    w.PutBits(0, 2);
    ghost var o1 := w.out[..w.pos];
    w.Fits();
    w.PadToByte();
    ghost var o2 := w.out[..w.pos];
    w.PutBits(total % 65536, 16);
    ghost var o3 := w.out[..w.pos];
    total := Flip16(total);
    w.PutBits(total % 65536, 16);
    assert w.out[..p0] == o3[..p0] == o2[..p0] == o1[..p0];
    total := Flip16(total);
  }

  /** A stored block: the length, its complement, and the bytes, which are still in the dictionary. */
  method WriteStored(w: Writer, d: Dict, start: nat, total0: nat) returns (total: nat)
    requires w.Valid() && d.Valid() && d.lookPos - d.dictSize <= start && start + total0 <= d.lookPos && total0 <= DICT
    requires w.out as object != d.dict && w as object != d
    requires |w.bits| + 64 + 8 * DICT <= 8 * w.end
    modifies w`pos, w`bitBuf, w`bitsIn, w`bits, w.out
    ensures w.Valid() && w.pos >= old(w.pos) && w.out[..old(w.pos)] == old(w.out[..w.pos])
    ensures w.bits == old(w.bits) + (ToBits(0, 2) + StoredBits(PadBits(|old(w.bits)| + 2),
      d.src[start..start + total0]))
    ensures total == total0 && w.pos < w.end && |w.bits| <= |old(w.bits)| + 48 + 8 * DICT
  {
    hide Kept, Window, BytesToBits, ToBits, StoredBits, PadBits;
    ghost var b0, p0, s := w.bits, w.pos, d.src[start..start + total0];
    total := WriteStoredHead(w, total0);
    ghost var o1 := w.out[..w.pos];
    PutBytes(w, d, start, total);
    assert w.out[..p0] == o1[..p0];
    StoredPieces(b0, PadBits(|b0| + 2), s);
    StoredLength(PadBits(|b0| + 2), s);
    w.Fits();
  }
}
