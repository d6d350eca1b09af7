/**
 * zlib streams: header, deflate stream and checksum; and the whole way from the compressor's output back to its input.
 */
module Zlib {
  import opened Bits
  import opened Canonical
  import opened BitSource
  import opened OutWindow
  import opened LzTokens
  import opened Blocks
  import opened Streams
  import opened Inflater
  import opened Departures
  import opened Lenient
  import BitReader
  import Checksums
  import Deflater
  import Spells
  import Parser
  import BitWriter

  /**
   * The two header bytes are a multiple of 31, name no preset dictionary, name deflate, and the window is large enough.
   */
  predicate GoodHeader(z0: nat, z1: nat, size: nat) {
    && (z0 * 256 + z1) % 31 == 0 && z1 / 32 % 2 == 0 && z0 % 16 == 8
    && Pow2(8 + z0 / 16) <= 32768 && Pow2(8 + z0 / 16) <= size
  }

  /** `n` bytes, the high one first. */
  function BigEndian(b: seq<bool>, n: nat, acc: nat): (r: Decoded<nat>) {
    if n == 0 then Done(acc, b) else
    var t := Take(b, 8);
    if !t.Done? then Stop(t) else BigEndian(t.rest, n - 1, 256 * acc + t.value)
  }

  datatype Sealed = Sealed(data: seq<Byte>, check: nat)

  /** Blocks, then the checksum from the next byte boundary on. */
  ghost function DecodeChecked(b: seq<bool>): (r: Decoded<Sealed>) {
    var d := DecodeStream(b, []);
    if !d.Done? then Stop(d) else
    var c := BigEndian(Skip(d.rest), 4, 0);
    if !c.Done? then Stop(c) else Done(Sealed(d.value, c.value), c.rest)
  }

  ghost function DecodeZlib(b: seq<bool>, size: nat): (r: Decoded<Sealed>) {
    var z0 := Take(b, 8);
    if !z0.Done? then Stop(z0) else
    var z1 := Take(z0.rest, 8);
    if !z1.Done? then Stop(z1) else
    if !GoodHeader(z0.value, z1.value, size) then Failed else DecodeChecked(z1.rest)
  }

  datatype Status = Finished | Malformed | ChecksumMismatch | LeftFormat

  /** Whatever follows, up to a whole number of bytes, the bits taken are blocks for `data` and the checksum `check`. */
  ghost predicate CheckedDone(was: seq<bool>, now: seq<bool>, data: seq<Byte>, check: nat) {
    && was <= now
    && forall rest: seq<bool> :: Aligned(|now| + |rest|) ==>
      DecodeChecked(Spells.Taken(was, now) + rest) == Done(Sealed(data, check), rest)
  }

  /**
   * Whatever follows, up to a whole number of bytes, the bits taken are a zlib stream for `data` with this checksum.
   */
  ghost predicate ZlibDone(was: seq<bool>, now: seq<bool>, size: nat, data: seq<Byte>, check: nat) {
    && was <= now
    && forall rest: seq<bool> :: Aligned(|now| + |rest|) ==>
      DecodeZlib(Spells.Taken(was, now) + rest, size) == Done(Sealed(data, check), rest)
  }

  /** The bits taken are the first `n` bytes of a number, `v` so far. */
  ghost predicate CheckRead(was: seq<bool>, now: seq<bool>, n: nat, v: nat) {
    && n <= 4 && was <= now
    && forall rest: seq<bool> :: BigEndian(Spells.Taken(was, now) + rest, 4, 0) == BigEndian(rest, 4 - n, v)
  }

  lemma {:induction false} CheckStart(c: seq<bool>)
    ensures CheckRead(c, c, 0, 0)
  {
    hide Spells.Taken, BigEndian;
    forall rest: seq<bool> ensures Spells.Taken(c, c) + rest == rest { Spells.TakenNone(c, rest); }
  }

  lemma {:induction false} CheckMore(was: seq<bool>, now: seq<bool>, n: nat, v: nat, x: nat)
    requires CheckRead(was, now, n, v) && n < 4 && x < 256
    ensures CheckRead(was, now + ToBits(x, 8), n + 1, 256 * v + x)
  {
    hide Spells.Taken, ToBits, Take;
    assert Pow2(8) == 256 by { Pow2Values(); }
    Spells.TakenMore(was, now, ToBits(x, 8), []);
    forall rest: seq<bool>
      ensures BigEndian(Spells.Taken(was, now + ToBits(x, 8)) + rest, 4, 0) == BigEndian(rest, 3 - n, 256 * v + x)
    {
      Spells.TakenMore(was, now, ToBits(x, 8), rest);
      TakeBack(x, 8, rest);
    }
  }

  lemma {:induction false} SkipTo(x: seq<bool>, t: seq<bool>)
    requires |x| < 8 && Aligned(|t|)
    ensures Skip(x + t) == t
  {
    assert |x + t| % 8 == |x|;
  }

  lemma {:induction false} AlignedRest(c: nat, t: nat)
    requires Aligned(c) && Aligned(c + t)
    ensures Aligned(t)
  {
  }

  /** Blocks, the way to the byte boundary, and four bytes. */
  lemma {:induction false} CheckedSpelled(c1: seq<bool>, c2: seq<bool>, c3: seq<bool>, c4: seq<bool>, data: seq<Byte>,
      check: nat)
    requires Spells.StreamDone(c1, c2, [], data) && c2 <= c3 && |c3| < |c2| + 8 && Aligned(|c3|)
    requires CheckRead(c3, c4, 4, check)
    ensures CheckedDone(c1, c4, data, check)
  {
    hide Spells.Taken, BigEndian, DecodeStream, Aligned, Skip;
    Spells.TakenJoin(c1, c2, c3, []);
    Spells.TakenJoin(c1, c3, c4, []);
    forall rest: seq<bool> | Aligned(|c4| + |rest|)
      ensures DecodeChecked(Spells.Taken(c1, c4) + rest) == Done(Sealed(data, check), rest)
    {
      var x, t := Spells.Taken(c2, c3), Spells.Taken(c3, c4) + rest;
      Spells.TakenJoin(c1, c3, c4, rest);
      Spells.TakenJoin(c1, c2, c3, t);
      Spells.TakenSize(c2, c3);
      Spells.TakenSize(c3, c4);
      AlignedRest(|c3|, |t|);
      SkipTo(x, t);
      assert DecodeStream(Spells.Taken(c1, c2) + (x + t), []) == Done(data, x + t);
      assert BigEndian(t, 4, 0) == BigEndian(rest, 0, check);
      NoDigits(rest, check);
    }
  }

  lemma {:induction false} NoDigits(b: seq<bool>, v: nat)
    ensures BigEndian(b, 0, v) == Done(v, b)
  {
  }

  /** Two header bytes in front. */
  lemma {:induction false} ZlibSpelled(c0: seq<bool>, z0: nat, z1: nat, c1: seq<bool>, c4: seq<bool>, size: nat,
      data: seq<Byte>, check: nat)
    requires z0 < 256 && z1 < 256 && GoodHeader(z0, z1, size) && c1 == c0 + ToBits(z0, 8) + ToBits(z1, 8)
    requires c1 <= c4
    ensures c0 <= c4 && (CheckedDone(c1, c4, data, check) <==> ZlibDone(c0, c4, size, data, check))
  {
    hide Spells.Taken, DecodeChecked, DecodeZlib, Aligned, GoodHeader, ToBits;
    HeaderPart(c0, z0, z1, c1, c4, size, []);
    forall rest: seq<bool>
      ensures DecodeZlib(Spells.Taken(c0, c4) + rest, size) == DecodeChecked(Spells.Taken(c1, c4) + rest)
    {
      HeaderPart(c0, z0, z1, c1, c4, size, rest);
    }
  }

  lemma {:induction false} HeaderPart(c0: seq<bool>, z0: nat, z1: nat, c1: seq<bool>, c4: seq<bool>, size: nat,
      rest: seq<bool>)
    requires z0 < 256 && z1 < 256 && GoodHeader(z0, z1, size) && c1 == c0 + ToBits(z0, 8) + ToBits(z1, 8) && c1 <= c4
    ensures c0 <= c4
    ensures DecodeZlib(Spells.Taken(c0, c4) + rest, size) == DecodeChecked(Spells.Taken(c1, c4) + rest)
  {
    hide Spells.Taken, DecodeChecked, GoodHeader, ToBits, Take;
    assert Pow2(8) == 256 by { Pow2Values(); }
    var x, y, t := ToBits(z0, 8), ToBits(z1, 8), Spells.Taken(c1, c4) + rest;
    Spells.TakenNone(c0, x + (y + t));
    Spells.TakenMore(c0, c0, x, y + t);
    Spells.TakenMore(c0, c0 + x, y, t);
    Spells.TakenJoin(c0, c1, c4, rest);
    TakeBack(z0, 8, y + t);
    TakeBack(z1, 8, t);
  }

  /** When the blocks leave the format, the bits taken are no checked stream. */
  lemma {:induction false} EscapedIsNone(whole: seq<Byte>, pad: seq<Byte>, c1: seq<bool>, c4: seq<bool>,
      data: seq<Byte>,
      check: nat)
    requires Escapes(whole, c1, []) && AllZero(pad) && c4 <= BytesToBits(whole + pad)
    ensures !CheckedDone(c1, c4, data, check)
  {
    hide Departs, CheckedDone, AllZero, BytesToBits, DecodeStream, BitReader.Ahead, DecodeChecked;
    var way: Way :| Departs(whole, c1, [], way);
    var f := DepartsHere(whole, pad, c1, [], way);
    BytesPrefix(whole + pad, f);
    CheckedDeparts(BitReader.Ahead(c1, f), way);
    if CheckedDone(c1, c4, data, check) {
      CheckedHere(f, c1, c4, data, check);
      assert false;
    }
  }

  lemma {:induction false} CheckedDeparts(b: seq<bool>, way: Way)
    requires DecodeStream(b, []) == Departed(way)
    ensures DecodeChecked(b) == Departed(way)
  {
    hide DecodeStream, BigEndian;
  }

  lemma {:induction false} CheckedHere(fed: seq<Byte>, c1: seq<bool>, c4: seq<bool>, data: seq<Byte>, check: nat)
    requires CheckedDone(c1, c4, data, check) && c4 <= BytesToBits(fed)
    ensures DecodeChecked(BitReader.Ahead(c1, fed)).Done?
  {
    hide BitReader.Ahead, Spells.Taken, DecodeChecked, BytesToBits, Aligned;
    AheadSplit(c1, c4, fed, []);
    assert BitReader.Ahead(c1, fed) + [] == BitReader.Ahead(c1, fed);
    AlignedNone();
    AheadSize(c4, fed, []);
  }

  /** The header: a stream with a bad one is refused. */
  method TakeZlibHeader(s: Source, size: nat) returns (ok: bool, ghost z0: nat, ghost z1: nat)
    requires s.Idle() && s as object != s.r
    modifies s, s.r
    ensures s.Idle() && ok == GoodHeader(z0, z1, size)
    ensures z0 < 256 && z1 < 256 && s.r.consumed == old(s.r.consumed) + ToBits(z0, 8) + ToBits(z1, 8)
    ensures |old(s.Left())| >= 16 ==>
      && z0 == Val(old(s.Left())[..8]) && z1 == Val(old(s.Left())[8..][..8])
      && s.Left() == old(s.Left())[8..][8..]
  {
    hide Supplied, Val, Pow2, ToBits;
    Pow2Values();
    var x := Field(s, 8);
    var y := Field(s, 8);
    z0, z1 := x, y;
    ok := GoodHeader(x, y, size);
  }

  /** The checksum behind the blocks. */
  method TakeCheck(s: Source) returns (c: nat)
    requires s.Idle() && s as object != s.r
    modifies s, s.r
    ensures s.Idle() && old(s.r.consumed) <= s.r.consumed && CheckRead(old(s.r.consumed), s.r.consumed, 4, c)
    ensures BigEndian(old(s.Left()), 4, 0).Done? ==> BigEndian(old(s.Left()), 4, 0) == Done(c, s.Left())
  {
    hide Supplied, Take, Unread, CheckRead, ToBits;
    assert Pow2(8) == 256 by { Pow2Values(); }
    ghost var goal, c0 := BigEndian(s.Left(), 4, 0), s.r.consumed;
    CheckStart(c0);
    c := 0;
    var i: nat := 0;
    while i < 4
      invariant i <= 4 && s.Idle() && c0 <= s.r.consumed && CheckRead(c0, s.r.consumed, i, c)
      invariant goal.Done? ==> BigEndian(s.Left(), 4 - i, c) == goal
    {
      ghost var was := s.r.consumed;
      var v := Field(s, 8);
      CheckMore(c0, was, i, c, v);
      c := 256 * c + v;
      i := i + 1;
    }
  }

  /** Blocks and checksum: the checksum behind the blocks is compared with that of the output. */
  method TakeChecked(s: Source, k: Sink, limit: nat) returns (status: Status, ghost check: nat)
    requires s.Idle() && k.Valid() && Ready(s, k) && k.h == []
    modifies s, s.r, k, k.out
    ensures s.Idle() && k.Valid()
    ensures DecodeChecked(old(s.Left())).Done? && limit > |old(s.Left())| ==>
      && k.taken == DecodeChecked(old(s.Left())).value.data && s.Left() == DecodeChecked(old(s.Left())).rest
      && status == if DecodeChecked(old(s.Left())).value.check == Checksums.Adler(1, k.taken) then Finished
        else ChecksumMismatch
    ensures old(s.r.consumed) <= s.r.consumed
    ensures status.Finished? || status.ChecksumMismatch? ==>
      && (CheckedDone(old(s.r.consumed), s.r.consumed, k.taken, check) <==> !Escapes(s.whole, old(s.r.consumed), []))
      && (status.Finished? <==> check == Checksums.Adler(1, k.taken))
    ensures status.LeftFormat? ==> Escapes(s.whole, old(s.r.consumed), [])
  {
    hide Supplied, Ring, Place, Unread, DecodeStream, BigEndian, Checksums.Adler, Spells.StreamDone, Aligned, Skip,
      CheckedDone, CheckRead, Escapes, ReadStream, AllZero, BytesToBits;
    ghost var c0 := s.r.consumed;
    check := 0;
    var e := Inflate(s, k, limit);
    if !e.Good? {
      status := if e.Outside? then LeftFormat else Malformed;
      return;
    }
    ghost var c2, data := s.r.consumed, k.h;
    s.Align();
    ghost var c3 := s.r.consumed;
    var c := TakeCheck(s);
    check := c;
    s.FromInput();
    CheckedEnd(s.whole, c0, c2, c3, s.r.consumed, data, c);
    k.Take();
    var a := Checksums.Adler32(1, k.taken);
    status := if a == c then Finished else ChecksumMismatch;
  }

  lemma {:induction false} CheckedEnd(whole: seq<Byte>, c1: seq<bool>, c2: seq<bool>, c3: seq<bool>, c4: seq<bool>,
      data: seq<Byte>, check: nat)
    requires Spells.StreamDone(c1, c2, [], data) <==> !Escapes(whole, c1, [])
    requires c2 <= c3 && |c3| < |c2| + 8 && Aligned(|c3|) && CheckRead(c3, c4, 4, check)
    requires exists pad: seq<Byte> :: AllZero(pad) && c4 <= BytesToBits(whole + pad)
    ensures CheckedDone(c1, c4, data, check) <==> !Escapes(whole, c1, [])
  {
    hide Spells.StreamDone, CheckRead, CheckedDone, Escapes, AllZero, BytesToBits, Aligned;
    if Escapes(whole, c1, []) {
      var pad: seq<Byte> :| AllZero(pad) && c4 <= BytesToBits(whole + pad);
      EscapedIsNone(whole, pad, c1, c4, data, check);
    } else {
      CheckedSpelled(c1, c2, c3, c4, data, check);
    }
  }

  lemma {:induction false} ZlibStep(b: seq<bool>, size: nat)
    requires DecodeZlib(b, size).Done?
    ensures |b| >= 16 && GoodHeader(Val(b[..8]), Val(b[8..][..8]), size)
      && DecodeZlib(b, size) == DecodeChecked(b[8..][8..])
  {
    hide Val, DecodeChecked, GoodHeader;
  }

  lemma {:induction false} LeadEnds(c0: seq<bool>, z0: nat, z1: nat, c4: seq<bool>)
    requires c0 + ToBits(z0, 8) + ToBits(z1, 8) <= c4
    ensures |c4| >= |c0| + LEAD && c4[..|c0| + LEAD] == c0 + ToBits(z0, 8) + ToBits(z1, 8)
  {
  }

  /** A zlib stream has two bytes in front of its blocks. */
  const LEAD := 16

  /**
   * A zlib stream: what it decodes to, whether its checksum matches, and the refusal of a bad header. When it comes to
   * compare checksums, the bits taken are a zlib stream for what came out if and only if its blocks do not leave the
   * format, and it finishes if and only if that stream's checksum is right.
   */
  method Decompress(s: Source, k: Sink, limit: nat) returns (status: Status, ghost check: nat)
    requires s.Idle() && k.Valid() && Ready(s, k) && k.h == []
    modifies s, s.r, k, k.out
    ensures s.Idle() && k.Valid()
    ensures
      |old(s.Left())| >= 16 && !GoodHeader(Val(old(s.Left())[..8]), Val(old(s.Left())[8..][..8]), k.out.Length) ==>
      status == Malformed
    ensures DecodeZlib(old(s.Left()), k.out.Length).Done? && limit > |old(s.Left())| ==>
      && k.taken == DecodeZlib(old(s.Left()), k.out.Length).value.data
        && s.Left() == DecodeZlib(old(s.Left()), k.out.Length).rest
      && status == if DecodeZlib(old(s.Left()), k.out.Length).value.check == Checksums.Adler(1, k.taken) then Finished
        else ChecksumMismatch
    ensures status.Malformed? || |s.r.consumed| >= |old(s.r.consumed)| + LEAD
    ensures status.Finished? || status.ChecksumMismatch? ==>
      && (ZlibDone(old(s.r.consumed), s.r.consumed, k.out.Length, k.taken, check) <==>
        !Escapes(s.whole, s.r.consumed[..|old(s.r.consumed)| + LEAD], []))
      && (status.Finished? <==> check == Checksums.Adler(1, k.taken))
    ensures status.LeftFormat? ==> Escapes(s.whole, s.r.consumed[..|old(s.r.consumed)| + LEAD], [])
  {
    hide Supplied, Ring, Place, Unread, DecodeZlib, DecodeChecked, GoodHeader, Val, Checksums.Adler, CheckedDone,
      ZlibDone, Escapes, ToBits;
    ghost var b, c0 := s.Left(), s.r.consumed;
    check := 0;
    if DecodeZlib(b, k.out.Length).Done? { ZlibStep(b, k.out.Length); }
    var ok, z0, z1 := TakeZlibHeader(s, k.out.Length);
    if !ok { return Malformed, 0; }
    ghost var c1 := s.r.consumed;
    status, check := TakeChecked(s, k, limit);
    LeadEnds(c0, z0, z1, s.r.consumed);
    if status.Finished? || status.ChecksumMismatch? {
      ZlibSpelled(c0, z0, z1, c1, s.r.consumed, k.out.Length, k.taken, check);
    }
  }

  // ---- From the compressor's output back to its input ----

  lemma {:induction false} BigEndianBack(x: nat, y: nat, z: nat, w: nat)
    requires x < 256 && y < 256 && z < 256 && w < 256
    ensures BigEndian(ToBits(x, 8) + (ToBits(y, 8) + (ToBits(z, 8) + ToBits(w, 8))), 4, 0)
      == Done(((x * 256 + y) * 256 + z) * 256 + w, [])
  {
    Pow2Values();
    hide ToBits, Take;
    var b3 := ToBits(w, 8) + [];
    assert b3 == ToBits(w, 8);
    TakeBack(w, 8, []);
    TakeBack(z, 8, b3);
    TakeBack(y, 8, ToBits(z, 8) + b3);
    TakeBack(x, 8, ToBits(y, 8) + (ToBits(z, 8) + b3));
    var t0 := ((0 * 256 + x) * 256 + y) * 256 + z;
    assert BigEndian([], 0, t0 * 256 + w) == Done(t0 * 256 + w, []);
    assert BigEndian(b3, 1, t0) == Done(t0 * 256 + w, []);
    assert BigEndian(ToBits(z, 8) + b3, 2, x * 256 + y) == Done(t0 * 256 + w, []);
    assert BigEndian(ToBits(y, 8) + (ToBits(z, 8) + b3), 3, x) == Done(t0 * 256 + w, []);
  }

  lemma {:induction false} Digits(a: nat)
    ensures ((a / 0x100_0000 * 256 + a % 0x100_0000 / 0x1_0000) * 256 + a % 0x1_0000 / 0x100) * 256 + a % 0x100 == a
  {
  }

  lemma {:induction false} CheckBack(a: nat)
    requires a < 0x1_0000_0000
    ensures BigEndian(Deflater.ChecksumBits(a), 4, 0) == Done(a, [])
  {
    hide BigEndian, ToBits;
    BigEndianBack(a / 0x100_0000, a % 0x100_0000 / 0x1_0000, a % 0x1_0000 / 0x100, a % 0x100);
    Digits(a);
  }

  lemma {:induction false} TrailerBack(n: nat, a: nat)
    requires a < 0x1_0000_0000
    ensures var t := Deflater.Trailer(n, true, a); BigEndian(Skip(t), 4, 0) == Done(a, [])
  {
    hide BigEndian, Deflater.ChecksumBits, ToBits, BitWriter.PadBits;
    Deflater.ChecksumLength(a);
    CheckBack(a);
    var pad, c := ToBits(0, BitWriter.PadBits(n)), Deflater.ChecksumBits(a);
    ToBitsLength(BitWriter.PadBits(n));
    assert |pad + c| % 8 == |pad|;
    assert (pad + c)[|pad|..] == c;
  }

  lemma {:induction false} ToBitsLength(n: nat)
    ensures |ToBits(0, n)| == n
  {
  }

  lemma {:induction false} HeaderGood(size: nat)
    requires size >= 32768
    ensures GoodHeader(0x78, 0x01, size)
  {
    Pow2Values();
    assert Pow2(15) == 32768;
  }

  lemma {:induction false} Halves(b: seq<bool>, x: seq<bool>, y: seq<bool>)
    requires |x| == 8 && |y| == 8 && |b| >= 16 && b[..16] == x + y
    ensures b[..8] == x && b[8..][..8] == y && b[8..][8..] == b[16..]
  {
    assert b[..8] == b[..16][..8] && b[8..][..8] == b[..16][8..];
  }

  lemma {:induction false} LeadBack(b: seq<bool>)
    requires |b| >= 16 && b[..16] == ToBits(0x78, 8) + ToBits(0x01, 8)
    ensures Val(b[..8]) == 0x78 && Val(b[8..][..8]) == 0x01 && b[8..][8..] == b[16..]
  {
    hide Val, ToBits;
    assert Pow2(8) == 256 by { Pow2Values(); }
    ValToBits(0x78, 8);
    ValToBits(0x01, 8);
    Halves(b, ToBits(0x78, 8), ToBits(0x01, 8));
  }

  /**
   * What the compressor delivers as a zlib stream is one that decodes to its input, with the compressor's checksum, and
   * ends there.
   */
  lemma {:induction false} DeliveredDecodes(sent: seq<Byte>, src: seq<Byte>, adler: nat, size: nat)
    requires Deflater.Decodes(sent, true, src, adler) && size >= 32768
    ensures DecodeZlib(BytesToBits(sent), size) == Done(Sealed(src, adler), [])
  {
    hide BytesToBits, DecodeStream, BigEndian, Deflater.Trailer, ToBits, Val, GoodHeader;
    var b := BytesToBits(sent);
    var n: nat :| DecodeStream(b[16..], []) == Done(src, Deflater.Trailer(n, true, adler));
    TrailerBack(n, adler);
    HeaderGood(size);
    LeadBack(b);
  }

  /** Whatever the compressor delivers, cut into any pieces, inflates to what was compressed. */
  method RoundTrip(pieces: seq<seq<Byte>>, zlib: bool, size: nat, ghost src: seq<Byte>, ghost adler: nat)
      returns (status: Status, output: seq<Byte>)
    requires Deflater.Decodes(Flatten(pieces), zlib, src, adler) && (zlib ==> adler == Checksums.Adler(1, src))
      && size >= 32768
    ensures status == Finished && output == src
  {
    hide Supplied, Ring, Place, BytesToBits, DecodeStream, DecodeZlib, Checksums.Adler, GoodHeader, Val,
      Spells.StreamDone;
    var s := new Source(pieces);
    var k := new Sink(size);
    var limit := 8 * |Flatten(pieces)| + 1;
    ghost var b := s.Left();
    if zlib {
      DeliveredDecodes(s.whole, src, adler, size);
      ghost var check;
      status, check := Decompress(s, k, limit);
    } else {
      assert b[0..] == b;
      var e := Inflate(s, k, limit);
      k.Take();
      status := if e.Good? then Finished else Malformed;
    }
    output := k.taken;
  }

  // ---- The whole way ----

  /** One call of the compressor before the last. */
  datatype Feed = Feed(input: seq<Byte>, flush: Deflater.Flush)

  function Inputs(feeds: seq<Feed>, n: nat): (b: seq<Byte>)
    requires n <= |feeds|
  {
    if n == 0 then [] else Inputs(feeds, n - 1) + feeds[n - 1].input
  }

  /** `b` cut up: as many bytes each time as `cuts` says, as long as there are any, and the rest. */
  function Pieces(b: seq<Byte>, cuts: seq<nat>): (ps: seq<seq<Byte>>)
    ensures Flatten(ps) == b
    decreases |cuts|
  {
    if cuts == [] then
      assert Flatten([b]) == b + Flatten([]) == b;
      [b]
    else
      var n := Min(cuts[0], |b|);
      var rest := Pieces(b[n..], cuts[1..]);
      assert ([b[..n]] + rest)[1..] == rest && b[..n] + b[n..] == b;
      [b[..n]] + rest
  }

  /** Compresses the feeds one after the other and finishes. */
  method CompressFeeds(c: Deflater.Compressor, feeds: seq<Feed>) returns (sent: seq<Byte>)
    requires c.p.Valid() && c.Core() && c.p.d.src == [] && c.sent == [] && c.adler == 1
    requires forall i :: 0 <= i < |feeds| ==> !feeds[i].flush.Finish?
    modifies c, c.p, c.p.z, c.p.z.buf, c.p.z.count0, c.p.z.count1, c.p.d, c.p.d.dict, c.p.d.next, c.p.d.hash, c.w,
      c.w.out
    ensures Deflater.Decodes(sent, c.zlib, Inputs(feeds, |feeds|), c.adler)
    ensures c.zlib ==> c.adler == Checksums.Adler(1, Inputs(feeds, |feeds|))
  {
    hide Parser.Parse.Valid, Deflater.Compressor.Core, Deflater.Decodes, Checksums.Adler;
    NoneSummed();
    sent := [];
    var i := 0;
    while i < |feeds|
      invariant 0 <= i <= |feeds| && c.p.Valid() && c.Core() && c.p.d.src == Inputs(feeds, i) && c.sent == sent
      invariant c.zlib ==> c.adler == Checksums.Adler(1, c.p.d.src)
    {
      var output := c.Compress(feeds[i].input, feeds[i].flush);
      sent := sent + output;
      i := i + 1;
    }
    var output := c.Compress([], Deflater.Finish);
    sent := sent + output;
    assert Inputs(feeds, |feeds|) + [] == Inputs(feeds, |feeds|);
  }

  lemma {:induction false} NoneSummed()
    ensures Checksums.Adler(1, []) == 1
  {
  }

  /** Any input, in any calls with any flushes, compressed with any options and cut up anywhere, inflates to itself. */
  method CompressAndInflate(feeds: seq<Feed>, o: Parser.Options, zlib: bool, fixed: bool, cuts: seq<nat>, size: nat)
    returns (status: Status, output: seq<Byte>)
    requires Parser.OptionsOk(o) && size >= 32768 && forall i :: 0 <= i < |feeds| ==> !feeds[i].flush.Finish?
    ensures status == Finished && output == Inputs(feeds, |feeds|)
  {
    hide Parser.Parse.Valid, Deflater.Compressor.Core, Deflater.Decodes, Checksums.Adler, Parser.OptionsOk;
    var c := new Deflater.Compressor(o, zlib, fixed);
    var sent := CompressFeeds(c, feeds);
    status, output := RoundTrip(Pieces(sent, cuts), zlib, size, Inputs(feeds, |feeds|), c.adler);
  }
}
