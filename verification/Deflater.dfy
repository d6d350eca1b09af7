/** The compressor: input in, blocks out. */
module Deflater {
  import opened Bits
  import opened Canonical
  import opened LzTokens
  import opened Blocks
  import opened Streams
  import opened BitWriter
  import opened Flusher
  import opened Dictionary
  import opened Parser
  import DynamicHeader
  import Emitter
  import Checksums
  import LzBuffer

  datatype Flush = NoFlush | Sync | Full | Finish

  /** Bit position `at` in the stream is where the final flag of the block went. */
  ghost predicate FlagAt(at: nat, bits: seq<bool>) {
    (at + 1) % 8 == |bits| % 8
  }

  lemma {:induction false} PadFor(at: nat, bits: seq<bool>)
    requires FlagAt(at, bits)
    ensures PadBits(|bits| + 2) == PadBits(at + 3)
  {
  }

  /** A sealed block in the parser's hands. */
  ghost predicate Ready(p: Parse)
    reads p, p.d, p.d.dict, p.d.next, p.d.hash, p.z, p.z.buf
  {
    && p.Apart() && p.d.Valid() && p.z.count0 != p.z.count1 && p.z.count0.Length == 288 && p.z.count1.Length == 32
    && LzBuffer.Sealed(p.z.buf[..], p.z.ts, p.z.g, p.z.code)
    && Parsed(p.d.src, p.start, p.z.ts, p.z.total, p.d.lookPos, p.Saved())
  }

  ghost predicate Separate(p: Parse, w: Writer)
    reads p, p.d, p.z
  {
    && {w as object, w.out} !! {p as object, p.d, p.z}
    && {w as object, w.out} !! {p.d.dict as object, p.d.next, p.d.hash, p.z.buf, p.z.count0, p.z.count1}
    && w as object != w.out
  }

  /** Whether the block's bytes are all still in the dictionary. */
  predicate InWindow(p: Parse)
    reads p, p.d
  {
    p.d.lookPos - p.start <= p.d.dictSize
  }

  lemma {:induction false} ParsedPlays(src: seq<Byte>, start: nat, ts: seq<Token>, total: nat, look: nat, m: Held)
    requires Parsed(src, start, ts, total, look, m)
    ensures start + total <= look <= |src| && PlayableFrom(src[..start], ts, 0)
      && PlayFrom(src[..start], ts, 0) == src[..start + total]
  {
  }

  /** The bytes before the block, and with it. */
  ghost function Before(p: Parse): (h: seq<Byte>)
    requires Ready(p)
    reads p, p.d, p.d.dict, p.d.next, p.d.hash, p.z, p.z.buf
  {
    ParsedPlays(p.d.src, p.start, p.z.ts, p.z.total, p.d.lookPos, p.Saved());
    p.d.src[..p.start]
  }

  ghost function After(p: Parse): (h: seq<Byte>)
    requires Ready(p)
    reads p, p.d, p.d.dict, p.d.next, p.d.hash, p.z, p.z.buf
  {
    ParsedPlays(p.d.src, p.start, p.z.ts, p.z.total, p.d.lookPos, p.Saved());
    p.d.src[..p.start + p.z.total]
  }

  lemma {:induction false} ReadyPlays(p: Parse)
    requires Ready(p)
    ensures PlayableFrom(Before(p), p.z.ts, 0) && PlayFrom(Before(p), p.z.ts, 0) == After(p) && LzBuffer.AllOk(p.z.ts)
    ensures p.z.total <= p.d.lookPos - p.start && p.start + p.z.total <= p.d.lookPos <= |p.d.src|
  {
    hide PlayableFrom, PlayFrom;
    ParsedPlays(p.d.src, p.start, p.z.ts, p.z.total, p.d.lookPos, p.Saved());
  }

  /** The output so far and the next block may be written. */
  ghost predicate Begun(p: Parse, w: Writer, at: nat)
    reads p, p.d, p.d.dict, p.d.next, p.d.hash, p.z, p.z.buf, w, w.out
  {
    Ready(p) && Separate(p, w) && w.Valid() && w.end == OUT_BUF_SIZE - 16 && |w.bits| <= 32 && FlagAt(at, w.bits)
  }

  /** With the fixed codes; this always fits. */
  method FixedOut(p: Parse, w: Writer, ghost last: bool, ghost at: nat) returns (ok: bool, ghost x: seq<bool>)
    requires Begun(p, w, at)
    modifies w`pos, w`bitBuf, w`bitsIn, w`bits, w.out
    ensures ok && w.Valid() && w.bits == old(w.bits) + x && w.pos < w.end && |w.bits| + 64 <= 8 * w.end
    ensures w.pos >= old(w.pos) && w.out[..old(w.pos)] == old(w.out[..w.pos])
    ensures Ready(p) && BlockIs(WithFinal(last, x), at, last, Before(p), After(p))
  {
    hide Parsed, Window, Kept, LzBuffer.Sealed, LzBuffer.Counted, BlockIs, WithFinal, BlockBits, AllWritable,
      FixedLit, FixedDist, ToBits, PlayFrom, PlayableFrom, Before, After;
    ReadyPlays(p);
    ok := WriteFixed(w, p.z.buf[..], p.z.code, p.z.ts, p.z.g);
    x := ToBits(1, 2) + BlockBits(FixedLit(), FixedDist(), p.z.ts, 0);
    FixedIs(last, p.z.ts, Before(p), at);
  }

  /** With codes of its own; this always fits too. */
  method DynamicOut(p: Parse, w: Writer, ghost last: bool, ghost at: nat) returns (ok: bool, ghost x: seq<bool>)
    requires Begun(p, w, at) && LzBuffer.Counted(p.z.count0[..], p.z.count1[..], p.z.ts)
    modifies w`pos, w`bitBuf, w`bitsIn, w`bits, w.out, p.z.count0
    ensures ok && w.Valid() && w.bits == old(w.bits) + x && w.pos < w.end && |w.bits| + 64 <= 8 * w.end
    ensures w.pos >= old(w.pos) && w.out[..old(w.pos)] == old(w.out[..w.pos])
    ensures Ready(p) && BlockIs(WithFinal(last, x), at, last, Before(p), After(p))
  {
    hide Parsed, Window, Kept, LzBuffer.Sealed, LzBuffer.Counted, BlockIs, WithFinal, BlockBits, AllWritable,
      HeaderBits, HeaderOk, ToBits, PlayFrom, PlayableFrom, Before, After;
    ReadyPlays(p);
    ghost var hd;
    ok, hd := WriteDynamic(w, p.z.buf[..], p.z.code, p.z.count0, p.z.count1, p.z.ts, p.z.g);
    x := ToBits(2, 2) + HeaderBits(hd) + BlockBits(hd.book.lit, hd.book.dist, p.z.ts, 0);
    DynamicIs(last, hd, p.z.ts, Before(p), at);
  }

  lemma {:induction false} StoredData(p: Parse)
    requires Ready(p)
    ensures p.start + p.z.total <= |p.d.src| && Before(p) + p.d.src[p.start..p.start + p.z.total] == After(p)
  {
    hide Parsed, Window, LzBuffer.Sealed;
    ParsedPlays(p.d.src, p.start, p.z.ts, p.z.total, p.d.lookPos, p.Saved());
  }

  /** Stored, from the dictionary; this always fits. */
  method StoredOut(p: Parse, w: Writer, ghost last: bool, ghost at: nat) returns (ghost x: seq<bool>)
    requires Begun(p, w, at) && InWindow(p)
    modifies w`pos, w`bitBuf, w`bitsIn, w`bits, w.out
    ensures w.Valid() && w.bits == old(w.bits) + x && w.pos < w.end && |w.bits| + 64 <= 8 * w.end
    ensures Ready(p) && BlockIs(WithFinal(last, x), at, last, Before(p), After(p))
  {
    hide Parsed, Window, Kept, LzBuffer.Sealed, LzBuffer.Counted, BlockIs, WithFinal, ToBits, StoredBits, PadBits,
      PlayFrom, PlayableFrom, Before, After, FlagAt;
    ReadyPlays(p);
    ghost var b0 := w.bits;
    var total := WriteStored(w, p.d, p.start, p.z.total);
    ghost var s := p.d.src[p.start..p.start + p.z.total];
    PadFor(at, b0);
    x := ToBits(0, 2) + StoredBits(PadBits(at + 3), s);
    StoredIs(last, PadBits(at + 3), s, Before(p), at);
    StoredData(p);
  }

  /** Forgets what was written since the block began. */
  method Undo(p: Parse, w: Writer, pos0: nat, buf0: nat, n0: nat, ghost b0: seq<bool>, ghost o0: seq<Byte>,
      ghost at: nat)
    requires Ready(p) && Separate(p, w) && w.Valid() && w.end == OUT_BUF_SIZE - 16 && |b0| <= 32 && FlagAt(at, b0)
    requires |o0| == w.out.Length && pos0 <= |o0| && n0 < 8 && Kept(o0, pos0, w.end, buf0, n0, b0)
      && w.out[..pos0] == o0[..pos0]
    modifies w`pos, w`bitBuf, w`bitsIn, w`bits
    ensures Begun(p, w, at) && w.bits == b0
  {
    hide Parsed, Window, Kept, LzBuffer.Sealed;
    Emitter.KeptBelow(o0, w.out[..], pos0, w.end, buf0, n0, b0);
    w.Rewind(pos0, buf0, n0, b0);
  }

  /**
   * The block after its final flag: stored when that is asked for or compression does not pay and the bytes are still
   * at hand, else with codes of its own or the fixed codes. However it is written, it fits, with room for what a flush
   * puts behind it, and decodes to its bytes. The second try for a block that did not fit is never made.
   */
  method WriteBlock(p: Parse, w: Writer, fixed: bool, ghost last: bool, ghost at: nat) returns (ghost x: seq<bool>)
    requires Begun(p, w, at) && LzBuffer.Counted(p.z.count0[..], p.z.count1[..], p.z.ts)
    modifies w`pos, w`bitBuf, w`bitsIn, w`bits, w.out, p.z.count0
    ensures w.Valid() && w.bits == old(w.bits) + x && w.pos < w.end && |w.bits| + 64 <= 8 * w.end
    ensures Ready(p) && BlockIs(WithFinal(last, x), at, last, Before(p), After(p))
  {
    hide Parsed, Window, Kept, LzBuffer.Sealed, LzBuffer.Counted, BlockIs, WithFinal, Before, After;
    var raw := InWindow(p);
    var useRaw := p.opts.raw && raw;
    var pos0, buf0, n0 := w.pos, w.bitBuf, w.bitsIn;
    ghost var b0, o0 := w.bits, w.out[..];
    var ok := false;
    if !useRaw {
      if fixed || p.z.total < 48 {
        ok, x := FixedOut(p, w, last, at);
      } else {
        ok, x := DynamicOut(p, w, last, at);
      }
    }
    if (useRaw || (p.z.total > 0 && w.pos - pos0 + 1 >= p.z.total)) && raw {
      Undo(p, w, pos0, buf0, n0, b0, o0, at);
      x := StoredOut(p, w, last, at);
    } else if !ok {
      assert false;
    }
  }

  // ---- The stream ----

  /** The zlib header, once the first block has been written. */
  function Lead(zlib: bool, blocks: nat): (b: seq<bool>) {
    if zlib && blocks > 0 then ToBits(0x78, 8) + ToBits(0x01, 8) else []
  }

  /** The bytes delivered and the bits kept back are the header and the blocks. */
  ghost predicate Flow(sent: seq<Byte>, buf: nat, n: nat, lead: seq<bool>, body: seq<bool>) {
    BytesToBits(sent) + ToBits(buf, n) == lead + body
  }

  lemma {:induction false} LeadLength(zlib: bool, blocks: nat)
    ensures |Lead(zlib, blocks)| % 8 == 0 && |Lead(zlib, blocks)| <= 16
  {
  }

  lemma {:induction false} FlagPosition(sent: seq<Byte>, buf: nat, n: nat, zlib: bool, blocks: nat, body: seq<bool>,
      zl: seq<bool>, fin: seq<bool>)
    requires Flow(sent, buf, n, Lead(zlib, blocks), body) && |zl| % 8 == 0 && |fin| == 1
    ensures FlagAt(|body|, ToBits(buf, n) + zl + fin)
  {
    LeadLength(zlib, blocks);
    hide Lead, ToBits, BytesToBits;
    assert |BytesToBits(sent) + ToBits(buf, n)| == 8 * |sent| + n == |Lead(zlib, blocks)| + |body|;
  }

  /** A block joins the stream behind the header. */
  lemma {:induction false} JoinBlock(sent: seq<Byte>, buf: nat, n: nat, zlib: bool, blocks: nat, body: seq<bool>,
      zl: seq<bool>, last: bool, x: seq<bool>)
    requires Flow(sent, buf, n, Lead(zlib, blocks), body) && (blocks == 0 ==> body == [])
    requires zl == if blocks == 0 then Lead(zlib, 1) else []
    ensures BytesToBits(sent) + (ToBits(buf, n) + zl + ToBits(B(last), 1) + x)
      == Lead(zlib, blocks + 1) + (body + WithFinal(last, x))
  {
    var s, p, f := BytesToBits(sent), ToBits(buf, n), ToBits(B(last), 1);
    hide ToBits, BytesToBits;
    var lead := Lead(zlib, blocks);
    assert lead + body + zl == Lead(zlib, blocks + 1) + body;
    hide Lead;
    Assoc(s, p + zl + f, x);
    Assoc(s, p + zl, f);
    Assoc(s, p, zl);
    Assoc(Lead(zlib, blocks + 1), body, WithFinal(last, x));
    Assoc(Lead(zlib, blocks + 1) + body, f, x);
  }

  /** Delivering the output buffer. */
  lemma {:induction false} Deliver(sent: seq<Byte>, out: seq<Byte>, pos: nat, end: nat, buf: nat, n: nat,
      bits: seq<bool>)
    requires Kept(out, pos, end, buf, n, bits) && pos < end && pos <= |out|
    ensures BytesToBits(sent + out[..pos]) + ToBits(buf, n) == BytesToBits(sent) + bits
  {
    hide ToBits, BytesToBits;
    BytesToBitsConcat(sent, out[..pos]);
    Assoc(BytesToBits(sent), BytesToBits(out[..pos]), ToBits(buf, n));
  }

  /** The four bytes of a checksum, most significant first. */
  function ChecksumBits(a: nat): (b: seq<bool>)
    requires a < 0x1_0000_0000
  {
    ToBits(a / 0x100_0000, 8) + (ToBits(a % 0x100_0000 / 0x1_0000,
      8) + (ToBits(a % 0x1_0000 / 0x100, 8) + ToBits(a % 0x100, 8)))
  }

  /** What follows the last block: zeros to the byte boundary, and the checksum of a zlib stream. */
  function Trailer(n: nat, zlib: bool, adler: nat): (b: seq<bool>)
    requires adler < 0x1_0000_0000
  {
    ToBits(0, PadBits(n)) + (if zlib then ChecksumBits(adler) else [])
  }

  /** An empty stored block, which ends on a byte boundary. */
  function Marker(n: nat): (b: seq<bool>) {
    WithFinal(false, ToBits(0, 2) + StoredBits(PadBits(n + 3), []))
  }

  lemma {:induction false} MarkerIs(n: nat, h: seq<Byte>)
    ensures BlockIs(Marker(n), n, false, h, h)
  {
    hide BlockIs, WithFinal, StoredBits;
    StoredIs(false, PadBits(n + 3), [], h, n);
    assert h + [] == h;
  }

  ghost function Suffix(flush: Flush, n: nat, zlib: bool, adler: nat): (b: seq<bool>)
    requires adler < 0x1_0000_0000
  {
    match flush
    case NoFlush => []
    case Finish => Trailer(n, zlib, adler)
    case Sync => Marker(n)
    case Full => Marker(n)
  }

  lemma {:induction false} PadCongruent(a: nat, b: nat)
    requires a % 8 == b % 8
    ensures PadBits(a) == PadBits(b) && PadBits(a + 3) == PadBits(b + 3)
  {
    var k := a / 8;
    var m := b / 8;
    assert a == 8 * k + a % 8 && b == 8 * m + b % 8;
  }

  lemma {:induction false} MarkerPieces(b: seq<bool>, n: nat)
    ensures b + ToBits(0, 3) + ToBits(0, PadBits(n + 3)) + ToBits(0, 16) + ToBits(65535, 16) == b + Marker(n)
  {
    var pad := PadBits(n + 3);
    KindZero();
    hide PadBits;
    var x0, x1, x2, x3, x4 := ToBits(0, 1), ToBits(0, 2), ToBits(0, pad), ToBits(0, 16), ToBits(65535, 16);
    assert StoredBits(pad, []) == x2 + (x3 + x4) by {
      var none: seq<Byte> := [];
      assert BytesToBits(none) == [] && x4 + [] == x4;
    }
    hide ToBits, StoredBits;
    Assoc(b + ToBits(0, 3) + x2, x3, x4);
    Assoc(b + ToBits(0, 3), x2, x3 + x4);
    Assoc(b, ToBits(0, 3), x2 + (x3 + x4));
    Assoc(x0, x1, x2 + (x3 + x4));
  }

  lemma {:induction false} KindZero()
    ensures ToBits(0, 3) == ToBits(0, 1) + ToBits(0, 2) && B(false) == 0
  {
  }

  /** Puts the top byte of a 32-bit value and shifts it out. */
  method PutTop(w: Writer, a: nat, ghost y: nat, ghost rest: nat) returns (a': nat)
    requires w.Valid() && y < 256 && a == 0x100_0000 * y + rest && rest < 0x100_0000
    modifies w`pos, w`bitBuf, w`bitsIn, w`bits, w.out
    ensures w.Valid() && w.bits == old(w.bits) + ToBits(y, 8) && w.pos >= old(w.pos) && a' == 256 * rest
  {
    hide Kept, ToBits;
    Pow2Values();
    w.PutBits(a / 0x100_0000 % 256, 8);
    a' := a * 256 % 0x1_0000_0000;
  }

  lemma {:induction false} Remainders(a: nat)
    ensures a % 0x100_0000 == 0x1_0000 * (a % 0x100_0000 / 0x1_0000) + a % 0x1_0000 && a % 0x100_0000 / 0x1_0000 < 256
    ensures a % 0x1_0000 == 0x100 * (a % 0x1_0000 / 0x100) + a % 0x100 && a % 0x1_0000 / 0x100 < 256
  {
    assert a % 0x100_0000 % 0x1_0000 == a % 0x1_0000;
    assert a % 0x1_0000 % 0x100 == a % 0x100;
  }

  method PutChecksum(w: Writer, adler: nat)
    requires w.Valid() && adler < 0x1_0000_0000
    modifies w`pos, w`bitBuf, w`bitsIn, w`bits, w.out
    ensures w.Valid() && w.bits == old(w.bits) + ChecksumBits(adler) && w.pos >= old(w.pos)
  {
    hide Kept, ToBits;
    ghost var b := w.bits;
    ghost var r0, r1, r2 := adler % 0x100_0000, adler % 0x1_0000, adler % 0x100;
    ghost var y0, y1, y2 := adler / 0x100_0000, r0 / 0x1_0000, r1 / 0x100;
    Remainders(adler);
    var a := PutTop(w, adler, y0, r0);
    a := PutTop(w, a, y1, 0x100 * r1);
    a := PutTop(w, a, y2, 0x1_0000 * r2);
    a := PutTop(w, a, r2, 0);
    Assoc(b + ToBits(y0, 8) + ToBits(y1, 8), ToBits(y2, 8), ToBits(r2, 8));
    Assoc(b + ToBits(y0, 8), ToBits(y1, 8), ToBits(y2, 8) + ToBits(r2, 8));
    Assoc(b, ToBits(y0, 8), ToBits(y1, 8) + (ToBits(y2, 8) + ToBits(r2, 8)));
  }

  /** A whole number of bytes leaves no bits behind. */
  lemma {:induction false} NothingKept(w: Writer)
    requires w.Valid() && |w.bits| < 8 * w.end && Aligned(|w.bits|)
    ensures w.pos < w.end && w.bitsIn == 0
  {
    w.Fits();
    BitsIn(w.out[..], w.pos, w.end, w.bitBuf, w.bitsIn, w.bits);
  }

  lemma {:induction false} SuffixLength(flush: Flush, b: seq<bool>, n: nat, zlib: bool, adler: nat)
    requires adler < 0x1_0000_0000 && n % 8 == |b| % 8
    ensures |Suffix(flush, n, zlib, adler)| <= 48
    ensures !flush.NoFlush? ==> Aligned(|b + Suffix(flush, n, zlib, adler)|)
  {
    hide ChecksumBits, ToBits, PadBits, Aligned, Marker;
    PadCongruent(|b|, n);
    ChecksumLength(adler);
    MarkerLength(n);
    PadAligned(|b|);
    PadAligned(|b| + 3);
  }

  lemma {:induction false} MarkerLength(n: nat)
    ensures |Marker(n)| == 3 + PadBits(n + 3) + 32
  {
    hide StoredBits, PadBits;
    StoredLength(PadBits(n + 3), []);
  }

  /** After the block: padding and checksum at the end of the stream, an empty stored block for a flush. */
  method PutSuffix(w: Writer, flush: Flush, zlib: bool, adler: nat, ghost n: nat)
    requires w.Valid() && adler < 0x1_0000_0000 && n % 8 == |w.bits| % 8 && |w.bits| + 64 <= 8 * w.end
    modifies w`pos, w`bitBuf, w`bitsIn, w`bits, w.out
    ensures w.Valid() && w.pos < w.end && w.bits == old(w.bits) + Suffix(flush, n, zlib, adler)
    ensures !flush.NoFlush? ==> w.bitsIn == 0
  {
    hide Kept, ToBits, PadBits, ChecksumBits, Marker, Aligned;
    ghost var b := w.bits;
    PadCongruent(|b|, n);
    SuffixLength(flush, b, n, zlib, adler);
    Pow2Values();
    assert Pow2(3) == 8;
    w.Fits();
    match flush
    case NoFlush => assert b + [] == b;
    case Finish =>
      w.PadToByte();
      if zlib {
        PutChecksum(w, adler);
        Assoc(b, ToBits(0, PadBits(n)), ChecksumBits(adler));
      } else {
        assert ToBits(0, PadBits(n)) + [] == ToBits(0, PadBits(n));
      }
      NothingKept(w);
    case _ =>
      w.PutBits(0, 3);
      w.Fits();
      w.PadToByte();
      w.PutBits(0, 16);
      w.PutBits(65535, 16);
      MarkerPieces(b, n);
      NothingKept(w);
  }

  lemma {:induction false} ChecksumLength(a: nat)
    requires a < 0x1_0000_0000
    ensures |ChecksumBits(a)| == 32
  {
  }

  lemma {:induction false} SameMod(sent: seq<Byte>, bits: seq<bool>, zlib: bool, blocks: nat, body: seq<bool>)
    requires BytesToBits(sent) + bits == Lead(zlib, blocks) + body
    ensures |body| % 8 == |bits| % 8
  {
    LeadLength(zlib, blocks);
    hide Lead, BytesToBits;
    assert |BytesToBits(sent) + bits| == 8 * |sent| + |bits| == |Lead(zlib, blocks)| + |body|;
  }

  /** What the stream carries after a block and what follows it. */
  lemma {:induction false} Carried(body: seq<bool>, x: seq<bool>, flush: Flush, zlib: bool, adler: nat, h: seq<Byte>,
      data: seq<Byte>)
    requires Carries(body, h) && BlockIs(WithFinal(flush.Finish?, x), |body|, flush.Finish?, h, data)
      && adler < 0x1_0000_0000
    ensures var b1 := body + WithFinal(flush.Finish?, x);
      if flush.Finish? then Ends(b1, data) else Carries(b1 + Suffix(flush, |b1|, zlib, adler), data)
  {
    hide Carries, Ends, BlockIs, WithFinal, Marker;
    var y := WithFinal(flush.Finish?, x);
    var b1 := body + y;
    if flush.Finish? {
      EndsBlock(body, y, h, data);
    } else {
      CarriesBlock(body, y, h, data);
      if flush.NoFlush? {
        assert b1 + [] == b1;
      } else {
        MarkerIs(|b1|, data);
        CarriesBlock(b1, Marker(|b1|), data, data);
      }
    }
  }

  lemma {:induction false} JoinSuffix(sent: seq<Byte>, chunk: seq<Byte>, buf: nat, n: nat, w1: seq<bool>,
      sfx: seq<bool>, lead: seq<bool>, b1: seq<bool>)
    requires BytesToBits(sent + chunk) + ToBits(buf, n) == BytesToBits(sent) + (w1 + sfx)
      && BytesToBits(sent) + w1 == lead + b1
    ensures BytesToBits(sent + chunk) + ToBits(buf, n) == lead + (b1 + sfx)
  {
    hide BytesToBits, ToBits;
    Assoc(BytesToBits(sent), w1, sfx);
    Assoc(lead, b1, sfx);
  }

  class Compressor {
    const p: Parse
    const w: Writer
    const zlib: bool
    const fixed: bool
    var blocks: nat
    var adler: nat
    ghost var sent: seq<Byte>
    ghost var body: seq<bool>

    constructor (o: Options, zlib: bool, fixed: bool)
      requires OptionsOk(o)
      ensures p.Valid() && Core() && p.d.src == [] && sent == [] && adler == 1 && p.opts == o && this.zlib == zlib
      ensures fresh(p) && fresh(w) && fresh(w.out) && fresh(p.d) && fresh(p.z)
      ensures fresh(p.d.dict) && fresh(p.d.next) && fresh(p.d.hash) && fresh(p.z.buf) && fresh(p.z.count0)
        && fresh(p.z.count1)
    {
      hide Parsed, Window, Kept, LzBuffer.Open, LzBuffer.Counted, LzBuffer.Length, Carries, Lead, Flow;
      p := new Parse(o);
      w := new Writer(OUT_BUF_SIZE);
      this.zlib, this.fixed := zlib, fixed;
      blocks, adler, sent, body := 0, 1, [], [];
      new;
      CarriesNothing();
      assert p.d.src[..0] == [];
      EmptyFlow(w.bitBuf, zlib);
    }

    ghost predicate Alone()
      reads this, p, p.d, p.z
    {
      && Separate(p, w) && this as object !in {p as object, p.d, p.z, w}
      && {this as object} !! {w.out as object, p.d.dict, p.d.next, p.d.hash, p.z.buf, p.z.count0, p.z.count1}
    }

    /** The parser between two steps, except that its code buffer may be full. */
    ghost predicate Stepped()
      reads p, p.d, p.d.dict, p.d.next, p.d.hash, p.z, p.z.buf, p.z.count0, p.z.count1
    {
      && p.Apart() && OptionsOk(p.opts) && p.d.Valid() && p.z.Valid()
      && Parsed(p.d.src, p.start, p.z.ts, p.z.total, p.d.lookPos, p.Saved())
        && (p.savedLen > 0 ==> p.savedLen - 1 <= p.d.lookSize)
    }

    /** The output delivered so far, with the bits kept back, carries the input up to the last block's end. */
    ghost predicate Core()
      reads this, p, p.d, p.z, w, w.out
    {
      && Alone() && w.Valid() && w.end == OUT_BUF_SIZE - 16 && adler < 0x1_0000_0000 && (blocks == 0 ==> body == [])
      && Flow(sent, w.bitBuf, w.bitsIn, Lead(zlib, blocks), body) && p.start <= |p.d.src|
        && Carries(body, p.d.src[..p.start])
    }

    /** The zlib header before the first block, then the final flag. */
    method BeginBits(last: bool) returns (ghost zl: seq<bool>)
      requires w.Valid() && w.end > 0 && Flow(sent, w.bitBuf, w.bitsIn, Lead(zlib, blocks), body)
      requires this as object !in {w as object, w.out}
      modifies w`pos, w`bitBuf, w`bitsIn, w`bits, w.out
      ensures w.Valid() && FlagAt(|body|, w.bits) && |w.bits| <= 32 && zl == (if blocks == 0 then Lead(zlib, 1) else [])
      ensures w.bits == ToBits(old(w.bitBuf), old(w.bitsIn)) + zl + ToBits(B(last), 1)
    {
      hide Kept, Lead, Flow, FlagAt, ToBits;
      ghost var buf0, n0 := w.bitBuf, w.bitsIn;
      w.Restart();
      Pow2Values();
      assert Pow2(1) == 2;
      ZlibLead(zlib);
      zl := [];
      assert ToBits(buf0, n0) + [] == ToBits(buf0, n0);
      if zlib && blocks == 0 {
        w.PutBits(0x78, 8);
        w.PutBits(0x01, 8);
        zl := ToBits(0x78, 8) + ToBits(0x01, 8);
        Assoc(ToBits(buf0, n0), ToBits(0x78, 8), ToBits(0x01, 8));
      }
      w.PutBits(if last then 1 else 0, 1);
      FlagPosition(sent, buf0, n0, zlib, blocks, body, zl, ToBits(B(last), 1));
    }

    /** Seals the codes and starts the block. */
    method Begin(last: bool) returns (ghost zl: seq<bool>)
      requires Stepped() && Core()
      modifies p.z`code, p.z.buf, w`pos, w`bitBuf, w`bitsIn, w`bits, w.out
      ensures Begun(p, w, |body|) && LzBuffer.Counted(p.z.count0[..], p.z.count1[..], p.z.ts)
      ensures zl == (if blocks == 0 then Lead(zlib, 1) else [])
      ensures w.bits == ToBits(old(w.bitBuf), old(w.bitsIn)) + zl + ToBits(B(last), 1)
      ensures Before(p) == p.d.src[..p.start] && After(p) == p.d.src[..p.start + p.z.total]
    {
      hide Parsed, Window, Kept, LzBuffer.Open, LzBuffer.Sealed, LzBuffer.Counted, LzBuffer.Length, Carries, Lead,
        Flow, FlagAt, ToBits;
      ghost var c0, c1 := p.z.count0[..], p.z.count1[..];
      LzBuffer.CountedSizes(c0, c1, p.z.ts);
      p.z.Seal();
      zl := BeginBits(last);
      assert p.z.count0[..] == c0 && p.z.count1[..] == c1;
    }

    /** The final output: header, blocks and trailer, all of the input up to the start. */
    ghost predicate Finished(core: seq<bool>)
      reads this, p, p.d, w
    {
      && p.start <= |p.d.src| && Ends(core, p.d.src[..p.start]) && adler < 0x1_0000_0000 && w.bitsIn < 8
      && Flow(sent, w.bitBuf, w.bitsIn, Lead(zlib, blocks), core + Trailer(|core|, zlib, adler))
    }

    /** The block itself: what is in the output joins the stream, and the stream then carries the block's bytes. */
    method EmitBlock(flush: Flush) returns (ghost b1: seq<bool>)
      requires Stepped() && Core()
      modifies p.z`code, p.z.buf, p.z.count0, w`pos, w`bitBuf, w`bitsIn, w`bits, w.out
      ensures Ready(p) && w.Valid() && |w.bits| + 64 <= 8 * w.end
      ensures BytesToBits(sent) + w.bits == Lead(zlib, blocks + 1) + b1
      ensures p.start + p.z.total <= |p.d.src|
      ensures flush.Finish? ==> Ends(b1, p.d.src[..p.start + p.z.total])
      ensures !flush.Finish? ==> Carries(b1 + Suffix(flush, |b1|, zlib, adler), p.d.src[..p.start + p.z.total])
    {
      hide Parsed, Window, Kept, LzBuffer.Open, LzBuffer.Sealed, LzBuffer.Counted, LzBuffer.Length, Carries, Ends,
        BlockIs, WithFinal, Lead, FlagAt, ToBits, BytesToBits, Before, After, Suffix;
      ghost var buf0, n0 := w.bitBuf, w.bitsIn;
      ghost var zl := Begin(flush.Finish?);
      ReadyPlays(p);
      ghost var h, data := Before(p), After(p);
      ghost var x := WriteBlock(p, w, fixed, flush.Finish?, |body|);
      JoinBlock(sent, buf0, n0, zlib, blocks, body, zl, flush.Finish?, x);
      b1 := body + WithFinal(flush.Finish?, x);
      Carried(body, x, flush, zlib, adler, h, data);
    }

    /** Delivers the output buffer and accounts for the block in the stream. */
    method Commit(flush: Flush, ghost w1: seq<bool>, ghost core: seq<bool>) returns (chunk: seq<Byte>)
      requires w.Valid() && w.pos < w.end && adler < 0x1_0000_0000 && w.bits == w1 + Suffix(flush, |core|, zlib, adler)
      requires BytesToBits(sent) + w1 == Lead(zlib, blocks + 1) + core && this as object !in {w as object, w.out}
      modifies this`blocks, this`sent, this`body
      ensures sent == old(sent) + chunk && blocks == old(blocks) + 1
        && body == core + Suffix(flush, |core|, zlib, adler)
      ensures Flow(sent, w.bitBuf, w.bitsIn, Lead(zlib, blocks), body)
      ensures flush.Finish? ==> body == core + Trailer(|core|, zlib, adler)
    {
      hide Kept, Lead, ToBits, BytesToBits, Suffix, Trailer;
      chunk := w.out[..w.pos];
      Deliver(sent, w.out[..], w.pos, w.end, w.bitBuf, w.bitsIn, w.bits);
      JoinSuffix(sent, chunk, w.bitBuf, w.bitsIn, w1, Suffix(flush, |core|, zlib, adler), Lead(zlib, blocks + 1), core);
      SuffixEnd(flush, |core|, zlib, adler);
      sent := sent + chunk;
      body := core + Suffix(flush, |core|, zlib, adler);
      blocks := blocks + 1;
    }

    /** Everything taken in is carried by what has been delivered, with no bits kept back. */
    ghost predicate Synced()
      reads this, p, p.d
    {
      p.start == |p.d.src| && BytesToBits(sent) == Lead(zlib, blocks) + body && Carries(body, p.d.src)
    }

    /**
     * Ends the block, and the stream when finishing. What has been delivered then carries the input up to the new
     * start; after any flush no bits are kept back. The block and what the flush adds always fit the output buffer.
     */
    method FlushBlock(flush: Flush) returns (chunk: seq<Byte>, ghost core: seq<bool>)
      requires Stepped() && Core()
      modifies p`start, p.z, p.z.buf, p.z.count0, p.z.count1, w`pos, w`bitBuf, w`bitsIn, w`bits, w.out, this`blocks,
        this`sent, this`body
      ensures p.Valid() && p.start == old(p.start) + old(p.z.total) && p.z.ts == [] && sent == old(sent) + chunk
      ensures blocks == old(blocks) + 1 && (!flush.NoFlush? ==> w.bitsIn == 0)
      ensures !flush.Finish? ==> Core()
      ensures flush.Finish? ==> Finished(core)
    {
      hide Parsed, Window, Kept, LzBuffer.Open, LzBuffer.Sealed, LzBuffer.Counted, LzBuffer.Length, Carries, Ends,
        Lead, ToBits, BytesToBits, Suffix, Trailer, Flow;
      core := EmitBlock(flush);
      ghost var w1 := w.bits;
      SameMod(sent, w1, zlib, blocks + 1, core);
      PutSuffix(w, flush, zlib, adler, |core|);
      assert w.pos < w.end;
      chunk := Commit(flush, w1, core);
      NextBlock(p);
    }

    /** Whether the codes should be flushed: the buffer is nearly full, or compression does not pay. */
    predicate TimeToFlush()
      reads p.z
    {
      p.z.code > LzBuffer.SIZE - 8 || (p.z.total > 31 * 1024 && (p.z.code * 115 / 128 >= p.z.total || p.opts.raw))
    }

    /** Takes in more input; what has been delivered still carries the same part of it. */
    method Take(input: seq<Byte>) returns (n: nat)
      requires p.Valid() && Core()
      modifies p.d, p.d.dict, p.d.next, p.d.hash
      ensures p.Valid() && Core() && n == (if |input| < Dictionary.MAX_MATCH - old(p.d.lookSize) then |input|
        else Dictionary.MAX_MATCH - old(p.d.lookSize))
      ensures p.d.src == old(p.d.src) + input[..n] && p.d.lookSize == old(p.d.lookSize) + n
        && p.d.lookPos == old(p.d.lookPos)
    {
      hide Parsed, Window, Kept, LzBuffer.Open, LzBuffer.Counted, LzBuffer.Length, Carries, Lead, Flow;
      n := p.Fill(input);
      assert p.d.src[..p.start] == old(p.d.src)[..p.start];
    }

    /** A step of the parser, and a block when it is time. */
    method StepAndFlush() returns (chunk: seq<Byte>)
      requires p.Valid() && Core() && p.d.lookSize > 0
      modifies p`savedLen, p`savedDist, p`savedLit, p`start, p.z, p.z.buf, p.z.count0, p.z.count1, p.d`lookPos,
        p.d`lookSize, p.d`dictSize,
        w`pos, w`bitBuf, w`bitsIn, w`bits, w.out, this`blocks, this`sent, this`body
      ensures p.d.src == old(p.d.src) && p.d.lookPos > old(p.d.lookPos) && p.d.lookPos + p.d.lookSize == |p.d.src|
      ensures p.Valid() && Core() && sent == old(sent) + chunk
    {
      hide Parsed, Window, Kept, LzBuffer.Open, LzBuffer.Counted, LzBuffer.Length, Carries, Lead, Flow;
      p.Step();
      chunk := [];
      if TimeToFlush() {
        ghost var core;
        chunk, core := FlushBlock(NoFlush);
      } else {
        assert sent == old(sent) + [];
      }
    }

    /** One round: more input, then a step of the parser unless it should wait for a full lookahead. */
    method Round(rest: seq<Byte>, flush: Flush) returns (n: nat, chunk: seq<Byte>, wait: bool)
      requires p.Valid() && Core() && (rest != [] || (!flush.NoFlush? && p.d.lookSize > 0))
      modifies p, p.z, p.z.buf, p.z.count0, p.z.count1, p.d, p.d.dict, p.d.next, p.d.hash, w`pos, w`bitBuf, w`bitsIn,
        w`bits, w.out,
        this`blocks, this`sent, this`body
      ensures p.Valid() && Core() && n <= |rest| && p.d.src == old(p.d.src) + rest[..n] && sent == old(sent) + chunk
      ensures wait ==> flush.NoFlush? && n == |rest|
      ensures !wait ==> |rest| - n + p.d.lookSize < |rest| + old(p.d.lookSize)
    {
      hide Parsed, Window, Kept, LzBuffer.Open, LzBuffer.Counted, LzBuffer.Length, Carries, Lead, Flow;
      n := Take(rest);
      wait := flush.NoFlush? && p.d.lookSize < Dictionary.MAX_MATCH;
      chunk := [];
      assert sent == sent + [];
      if !wait { chunk := StepAndFlush(); }
    }

    /** All of the input goes in; when flushing, all of the lookahead is parsed. */
    method CompressNormal(input: seq<Byte>, flush: Flush) returns (output: seq<Byte>)
      requires p.Valid() && Core()
      modifies p, p.z, p.z.buf, p.z.count0, p.z.count1, p.d, p.d.dict, p.d.next, p.d.hash, w`pos, w`bitBuf, w`bitsIn,
        w`bits, w.out,
        this`blocks, this`sent, this`body
      ensures p.Valid() && Core() && p.d.src == old(p.d.src) + input && sent == old(sent) + output
      ensures !flush.NoFlush? ==> p.d.lookSize == 0
    {
      hide Parsed, Window, Kept, LzBuffer.Open, LzBuffer.Counted, LzBuffer.Length, Carries, Lead, Flow;
      var used: nat := 0;
      output := [];
      assert sent == sent + [] && p.d.src == p.d.src + input[..0];
      while used < |input| || (!flush.NoFlush? && p.d.lookSize > 0)
        invariant 0 <= used <= |input| && p.Valid() && Core()
        invariant p.d.src == old(p.d.src) + input[..used] && sent == old(sent) + output
        decreases |input| - used + p.d.lookSize
      {
        var n, chunk, wait := Round(input[used..], flush);
        TakenSoFar(old(p.d.src), input, used, n);
        Assoc(old(sent), output, chunk);
        used, output := used + n, output + chunk;
        if wait { break; }
      }
      assert input[..used] == input;
    }

    /** Ends the stream or marks a point where everything so far can be decoded. */
    method FlushAll(flush: Flush) returns (chunk: seq<Byte>, ghost core: seq<bool>)
      requires p.Valid() && Core() && p.d.lookSize == 0 && !flush.NoFlush?
      modifies p`start, p.z, p.z.buf, p.z.count0, p.z.count1, p.d`dictSize, p.d.next, p.d.hash,
        w`pos, w`bitBuf, w`bitsIn, w`bits, w.out, this`blocks, this`sent, this`body
      ensures p.Valid() && p.start == |p.d.src| && sent == old(sent) + chunk && blocks > 0
      ensures !flush.Finish? ==> Core() && Synced()
      ensures flush.Finish? ==> Finished(core)
    {
      hide Parsed, Window, Kept, LzBuffer.Open, LzBuffer.Counted, LzBuffer.Length, Carries, Lead, Flow, Ends, Trailer;
      ghost var src0 := p.d.src;
      ParsedFacts(p.d.src, p.start, p.z.ts, p.z.total, p.d.lookPos, p.Saved());
      chunk, core := FlushBlock(flush);
      if !flush.Finish? { InSync(); }
      if flush.Full? {
        p.d.Forget();
        assert p.d.src == src0;
      }
    }

    lemma {:induction false} InSync()
      requires Core() && w.bitsIn == 0 && p.start == |p.d.src|
      ensures Synced()
    {
      hide Carries, Lead, BytesToBits;
      assert ToBits(w.bitBuf, 0) == [] && BytesToBits(sent) + [] == BytesToBits(sent);
      assert p.d.src[..p.start] == p.d.src;
    }

    /**
     * Compresses `input` on top of what came before. After a flush everything taken in can be decoded from what has
     * been delivered; after finishing, the delivered bytes decode to exactly the whole input.
     */
    method Compress(input: seq<Byte>, flush: Flush) returns (output: seq<Byte>)
      requires p.Valid() && Core() && (zlib ==> adler == Checksums.Adler(1, p.d.src))
      modifies p, p.z, p.z.buf, p.z.count0, p.z.count1, p.d, p.d.dict, p.d.next, p.d.hash, w`pos, w`bitBuf, w`bitsIn,
        w`bits, w.out,
        this`blocks, this`sent, this`body, this`adler
      ensures p.d.src == old(p.d.src) + input && sent == old(sent) + output
        && (zlib ==> adler == Checksums.Adler(1, p.d.src))
      ensures !flush.Finish? ==> p.Valid() && Core()
      ensures flush.Sync? || flush.Full? ==> Synced()
      ensures flush.Finish? ==> Decodes(sent, zlib, p.d.src, adler)
    {
      hide Parsed, Window, Kept, LzBuffer.Open, LzBuffer.Counted, LzBuffer.Length, Carries, Lead, Flow, Ends, Trailer,
        Decodes, Checksums.Adler;
      ghost var src0 := p.d.src;
      output := CompressNormal(input, flush);
      if zlib {
        Checksums.AdlerSplit(1, src0, input);
        Checksums.AdlerRange(adler, input);
        adler := Checksums.Adler32(adler, input);
      }
      if !flush.NoFlush? {
        ghost var s0, core := sent, [];
        var chunk;
        chunk, core := FlushAll(flush);
        assert old(sent) + output + chunk == old(sent) + (output + chunk);
        output := output + chunk;
        if flush.Finish? {
          assert p.d.src[..p.start] == p.d.src;
          WholeStream(sent, w.bitBuf, w.bitsIn, zlib, blocks, core, adler, p.d.src);
        }
      }
    }
  }

  lemma {:induction false} TakenSoFar(src: seq<Byte>, input: seq<Byte>, used: nat, n: nat)
    requires used + n <= |input|
    ensures src + input[..used] + input[used..][..n] == src + input[..used + n]
  {
    assert input[..used + n] == input[..used] + input[used..][..n];
  }

  /** The delivered bytes, less a zlib header, are a deflate stream for `src`, followed by the trailer. */
  ghost predicate Decodes(sent: seq<Byte>, zlib: bool, src: seq<Byte>, adler: nat) {
    var b := BytesToBits(sent);
    adler < 0x1_0000_0000 && |b| >= |Lead(zlib, 1)| && b[..|Lead(zlib, 1)|] == Lead(zlib, 1)
    && exists n: nat :: DecodeStream(b[|Lead(zlib, 1)|..], []) == Done(src, Trailer(n, zlib, adler))
  }

  lemma {:induction false} TrailerLength(core: seq<bool>, zlib: bool, adler: nat)
    requires adler < 0x1_0000_0000
    ensures Aligned(|core + Trailer(|core|, zlib, adler)|) && Aligned(|core| + |Trailer(|core|, zlib, adler)|)
  {
    hide ToBits, ChecksumBits, PadBits, Aligned;
    ChecksumLength(adler);
    PadAligned(|core|);
  }

  lemma {:induction false} PadAligned(n: nat)
    ensures Aligned(n + PadBits(n)) && Aligned(n + PadBits(n) + 32)
  {
  }

  lemma {:induction false} WholeStream(sent: seq<Byte>, buf: nat, n: nat, zlib: bool, blocks: nat, core: seq<bool>,
      adler: nat, src: seq<Byte>)
    requires adler < 0x1_0000_0000 && blocks > 0 && n < 8 && Ends(core, src)
    requires Flow(sent, buf, n, Lead(zlib, blocks), core + Trailer(|core|, zlib, adler))
    ensures Decodes(sent, zlib, src, adler)
  {
    hide Lead, Trailer, BytesToBits, ToBits, DecodeStream, Aligned;
    var lead, t := Lead(zlib, 1), Trailer(|core|, zlib, adler);
    SameLead(zlib, blocks);
    TrailerLength(core, zlib, adler);
    AllBytes(sent, buf, n, lead, core + t);
    Cut(BytesToBits(sent), lead, core + t);
    EndsAt(core, src, t);
  }

  lemma {:induction false} SameLead(zlib: bool, blocks: nat)
    requires blocks > 0
    ensures Lead(zlib, blocks) == Lead(zlib, 1) && Aligned(|Lead(zlib, 1)|)
  {
    LeadLength(zlib, 1);
  }

  lemma {:induction false} Cut(b: seq<bool>, lead: seq<bool>, rest: seq<bool>)
    requires b == lead + rest
    ensures |b| >= |lead| && b[..|lead|] == lead && b[|lead|..] == rest
  {
  }

  lemma {:induction false} EndsAt(core: seq<bool>, src: seq<Byte>, t: seq<bool>)
    requires Ends(core, src) && Aligned(|core| + |t|)
    ensures DecodeStream(core + t, []) == Done(src, t)
  {
    hide DecodeStream, Aligned;
  }

  /** Nothing is kept back at a byte boundary. */
  lemma {:induction false} AllBytes(sent: seq<Byte>, buf: nat, n: nat, lead: seq<bool>, rest: seq<bool>)
    requires n < 8 && BytesToBits(sent) + ToBits(buf, n) == lead + rest && Aligned(|lead|) && Aligned(|rest|)
    ensures BytesToBits(sent) == lead + rest
  {
    assert |BytesToBits(sent) + ToBits(buf, n)| == 8 * |sent| + n;
    assert n == 0;
    assert BytesToBits(sent) + [] == BytesToBits(sent);
  }

  /** The codes are cleared and the next block starts where this one ended. */
  method NextBlock(p: Parse)
    requires Ready(p) && OptionsOk(p.opts) && (p.savedLen > 0 ==> p.savedLen - 1 <= p.d.lookSize)
    modifies p`start, p.z, p.z.count0, p.z.count1
    ensures p.Valid() && p.start == old(p.start) + old(p.z.total) && p.z.ts == []
  {
    hide Parsed, Window, LzBuffer.Open, LzBuffer.Counted, LzBuffer.Length, LzBuffer.Sealed;
    SealedLength(p.z.buf[..], p.z.ts, p.z.g, p.z.code);
    ParsedNext(p.d.src, p.start, p.z.ts, p.z.total, p.d.lookPos, p.Saved());
    var total := p.z.total;
    p.z.Reset();
    p.start := p.start + total;
  }

  lemma {:induction false} SealedLength(buf: seq<Byte>, ts: seq<Token>, g: nat, code: nat)
    requires LzBuffer.Sealed(buf, ts, g, code)
    ensures |buf| == LzBuffer.SIZE
  {
  }

  lemma {:induction false} ParsedNext(src: seq<Byte>, start: nat, ts: seq<Token>, total: nat, look: nat, m: Held)
    requires Parsed(src, start, ts, total, look, m)
    ensures Parsed(src, start + total, [], 0, look, m)
  {
  }

  lemma {:induction false} ZlibLead(zlib: bool)
    ensures Lead(zlib, 1) == (if zlib then ToBits(0x78, 8) + ToBits(0x01, 8) else []) && |Lead(zlib, 1)| <= 16
  {
  }

  lemma {:induction false} SuffixEnd(flush: Flush, n: nat, zlib: bool, adler: nat)
    requires adler < 0x1_0000_0000
    ensures flush.Finish? ==> Suffix(flush, n, zlib, adler) == Trailer(n, zlib, adler)
  {
  }

  lemma {:induction false} EmptyFlow(buf: nat, zlib: bool)
    ensures Flow([], buf, 0, Lead(zlib, 0), [])
  {
    assert ToBits(buf, 0) == [];
  }
}
