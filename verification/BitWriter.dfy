/** The encoder's bit output: whole bytes into a bounded buffer, the rest kept back in a bit buffer. */
module BitWriter {
  import opened Bits

  /**
   * While the buffer has room it holds, with the bits kept back, everything written; once it is full at least `end`
   * bytes' worth has been written.
   */
  ghost predicate Kept(out: seq<Byte>, pos: nat, end: nat, buf: nat, n: nat, bits: seq<bool>) {
    && pos <= |out| && buf < Pow2(n)
    && (pos < end ==> BytesToBits(out[..pos]) + ToBits(buf, n) == bits)
    && (pos >= end ==> |bits| >= 8 * end)
  }

  /** More bits enter above those kept back. */
  lemma {:induction false} KeptPut(out: seq<Byte>, pos: nat, end: nat, buf: nat, n: nat, bits: seq<bool>, b: nat,
      len: nat)
    requires Kept(out, pos, end, buf, n, bits) && b < Pow2(len)
    ensures Or(buf, Shl(b, n)) == buf + Shl(b, n)
    ensures Kept(out, pos, end, Or(buf, Shl(b, n)), n + len, bits + ToBits(b, len))
  {
    hide Or, Shl, ToBits, BytesToBits, Pow2;
    OrDisjoint(buf, n, b);
    AppendBound(buf, n, b, len);
    ToBitsAppend(buf, n, b, len);
    Assoc(BytesToBits(out[..pos]), ToBits(buf, n), ToBits(b, len));
  }

  lemma {:induction false} OneByte(out: seq<Byte>, pos: nat, c: Byte)
    requires pos < |out|
    ensures BytesToBits(out[pos := c][..pos + 1]) == BytesToBits(out[..pos]) + ToBits(c, 8)
  {
    assert out[pos := c][..pos + 1] == out[..pos] + [c];
    BytesToBitsConcat(out[..pos], [c]);
    assert BytesToBits([c]) == ToBits(c, 8) by { assert [c][1..] == []; }
  }

  /** A whole byte moves out, or is dropped when there is no room. */
  lemma {:induction false} KeptByte(out: seq<Byte>, pos: nat, end: nat, buf: nat, n: nat, bits: seq<bool>)
    requires Kept(out, pos, end, buf, n + 8, bits) && end <= |out|
    ensures Low(buf, 8) < 256
    ensures pos < end ==> Kept(out[pos := Low(buf, 8)], pos + 1, end, Shr(buf, 8), n, bits)
    ensures pos >= end ==> Kept(out, pos, end, Shr(buf, 8), n, bits)
  {
    hide Low, Shr, BytesToBits;
    Pow2Values();
    ShrBound(buf, n, 8);
    if pos < end {
      ToBitsSplit(buf, 8, n);
      LowBitsOf(buf, 8);
      OneByte(out, pos, Low(buf, 8));
      Assoc(BytesToBits(out[..pos]), ToBits(buf, 8), ToBits(Shr(buf, 8), n));
    }
  }

  /** Bits to the next byte boundary. */
  function PadBits(n: nat): (k: nat)
    ensures k < 8 && (n + k) % 8 == 0
  {
    if n % 8 == 0 then 0 else 8 - n % 8
  }

  lemma {:induction false} BitsIn(out: seq<Byte>, pos: nat, end: nat, buf: nat, n: nat, bits: seq<bool>)
    requires Kept(out, pos, end, buf, n, bits) && n < 8
    ensures pos < end ==> n == |bits| % 8
  {
  }

  /** The low bytes of a word, in order. */
  ghost predicate WordAt(out: seq<Byte>, pos: nat, buf: nat, k: nat) {
    pos + k <= |out| && forall j: nat :: j < k ==> out[pos + j] == Low(Shr(buf, 8 * j), 8)
  }

  lemma {:induction false} WordBits(out: seq<Byte>, pos: nat, buf: nat, k: nat)
    requires WordAt(out, pos, buf, k)
    ensures BytesToBits(out[..pos + k]) == BytesToBits(out[..pos]) + ToBits(buf, 8 * k)
  {
    hide Low, Shr, ToBits, BytesToBits;
    if k == 0 {
      assert ToBits(buf, 0) == [];
    } else {
      var c := out[pos + k - 1];
      WordBits(out, pos, buf, k - 1);
      assert out[pos + (k - 1)] == Low(Shr(buf, 8 * (k - 1)), 8);
      OneByte(out, pos + k - 1, c);
      assert out[pos + k - 1 := c] == out;
      LowBitsOf(Shr(buf, 8 * (k - 1)), 8);
      ToBitsSplit(buf, 8 * (k - 1), 8);
      Assoc(BytesToBits(out[..pos]), ToBits(buf, 8 * (k - 1)), ToBits(Shr(buf, 8 * (k - 1)), 8));
    }
  }

  /** Storing a whole word and keeping the bytes that are complete. */
  lemma {:induction false} KeptWord(out: seq<Byte>, out': seq<Byte>, pos: nat, end: nat, buf: nat, k: nat, n: nat,
      bits: seq<bool>)
    requires Kept(out, pos, end, buf, 8 * k + n, bits) && pos < end && |out'| == |out|
    requires out'[..pos] == out[..pos] && WordAt(out', pos, buf, k)
    ensures Kept(out', pos + k, end, Shr(buf, 8 * k), n, bits)
  {
    hide Shr, ToBits, BytesToBits, WordAt;
    WordBits(out', pos, buf, k);
    ShrBound(buf, n, 8 * k);
    ToBitsSplit(buf, 8 * k, n);
    Assoc(BytesToBits(out[..pos]), ToBits(buf, 8 * k), ToBits(Shr(buf, 8 * k), n));
    WordPos(out', pos, buf, k);
  }

  lemma {:induction false} WordPos(out: seq<Byte>, pos: nat, buf: nat, k: nat)
    requires WordAt(out, pos, buf, k)
    ensures pos + k <= |out|
  {
  }

  /** An unaligned 64-bit store. */
  method StoreWord(out: array<Byte>, pos: nat, buf: nat)
    requires pos + 8 <= out.Length
    modifies out
    ensures out[..pos] == old(out[..pos]) && WordAt(out[..], pos, buf, 8)
  {
    hide Shr, Low;
    Pow2Values();
    var j := 0;
    while j < 8
      invariant 0 <= j <= 8 && out[..pos] == old(out[..pos]) && WordAt(out[..], pos, buf, j)
    {
      var c: Byte := Low(Shr(buf, 8 * j), 8);
      out[pos + j] := c;
      j := j + 1;
    }
  }

  class Writer {
    const out: array<Byte>
    var pos: nat
    var end: nat
    var bitBuf: nat
    var bitsIn: nat
    ghost var bits: seq<bool>

    ghost predicate Valid()
      reads this, out
    {
      end + 16 <= out.Length && pos <= out.Length && bitsIn < 8 && Kept(out[..], pos, end, bitBuf, bitsIn, bits)
    }

    /** A buffer of `size` bytes, the last 16 kept free for whole-word stores. */
    constructor (size: nat)
      requires size >= 16
      ensures Valid() && bits == [] && fresh(out) && out.Length == size && end == size - 16 && pos == bitsIn == 0
    {
      out := new Byte[size];
      pos, end, bitBuf, bitsIn, bits := 0, size - 16, 0, 0, [];
    }

    /** Writes the `len` bits of `b`. */
    method PutBits(b: nat, len: nat)
      requires Valid() && len <= 16 && b < Pow2(len)
      modifies this`pos, this`bitBuf, this`bitsIn, this`bits, out
      ensures Valid() && bits == old(bits) + ToBits(b, len)
      ensures pos >= old(pos) && out[..old(pos)] == old(out[..pos])
    {
      hide Kept, Shr, Shl, Low, Or;
      KeptPut(out[..], pos, end, bitBuf, bitsIn, bits, b, len);
      bitBuf := Or(bitBuf, Shl(b, bitsIn));
      bitsIn := bitsIn + len;
      bits := bits + ToBits(b, len);
      while bitsIn >= 8
        invariant end + 16 <= out.Length && Kept(out[..], pos, end, bitBuf, bitsIn, bits)
        invariant bits == old(bits) + ToBits(b, len)
        invariant old(pos) <= pos <= out.Length && out[..old(pos)] == old(out[..pos])
      {
        KeptByte(out[..], pos, end, bitBuf, bitsIn - 8, bits);
        if pos < end {
          ghost var was := out[..];
          var c: Byte := Low(bitBuf, 8);
          out[pos] := c;
          assert out[..] == was[pos := c];
          pos := pos + 1;
        }
        bitBuf := Shr(bitBuf, 8);
        bitsIn := bitsIn - 8;
      }
    }

    /** Starts the output buffer afresh; the bits kept back stay. */
    method Restart()
      requires Valid() && end > 0
      modifies this`pos, this`bits
      ensures Valid() && pos == 0 && bits == ToBits(bitBuf, bitsIn)
    {
      pos := 0;
      bits := ToBits(bitBuf, bitsIn);
      assert out[..0] == [] && BytesToBits(out[..0]) == [];
      assert [] + ToBits(bitBuf, bitsIn) == ToBits(bitBuf, bitsIn);
    }

    /** Goes back to an earlier state of the output. */
    method Rewind(pos0: nat, buf0: nat, n0: nat, ghost bits0: seq<bool>)
      requires end + 16 <= out.Length && pos0 <= out.Length && n0 < 8 && Kept(out[..], pos0, end, buf0, n0, bits0)
      modifies this`pos, this`bitBuf, this`bitsIn, this`bits
      ensures Valid() && pos == pos0 && bitBuf == buf0 && bitsIn == n0 && bits == bits0
    {
      pos, bitBuf, bitsIn, bits := pos0, buf0, n0, bits0;
    }

    /** Zero bits up to the next byte boundary. */
    method PadToByte()
      requires Valid()
      modifies this`pos, this`bitBuf, this`bitsIn, this`bits, out
      ensures Valid() && old(bits) <= bits && |bits| <= |old(bits)| + 7
      ensures old(pos) < end ==> bits == old(bits) + ToBits(0, PadBits(|old(bits)|))
      ensures pos >= old(pos) && out[..old(pos)] == old(out[..pos])
    {
      BitsIn(out[..], pos, end, bitBuf, bitsIn, bits);
      hide Kept;
      if bitsIn != 0 {
        PutBits(0, 8 - bitsIn);
      } else {
        assert bits + [] == bits;
      }
    }

    /** The output fits exactly when fewer than `end` bytes were written. */
    lemma {:induction false} Fits()
      requires Valid()
      ensures pos < end <==> |bits| < 8 * end
    {
    }
  }
}
