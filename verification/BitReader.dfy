/** The inflater's resumable bit reader: a bit buffer refilled a byte or two at a time from input that arrives in
    arbitrary chunks. A suspended operation is resumed by calling it again once more input has been supplied. */
module BitReader {
  import opened Bits
  import opened Canonical
  import opened HuffTable
  import opened HuffDecoder

  datatype Outcome = Got(value: nat) | NeedInput

  ghost predicate Whole(consumed: seq<bool>, buf: nat, n: nat, rest: seq<Byte>, fed: seq<Byte>) {
    buf < Pow2(n) && consumed + ToBits(buf, n) + BytesToBits(rest) == BytesToBits(fed)
  }

  /** Appending input to what has been supplied. */
  lemma {:induction false} WholeFeed(consumed: seq<bool>, buf: nat, n: nat, fed: seq<Byte>, chunk: seq<Byte>)
    requires Whole(consumed, buf, n, [], fed)
    ensures Whole(consumed, buf, n, chunk, fed + chunk)
  {
    BytesToBitsConcat(fed, chunk);
  }

  /** Moving a byte from the input to the bit buffer. */
  lemma {:induction false} WholePull(consumed: seq<bool>, buf: nat, n: nat, c: Byte, rest: seq<Byte>, fed: seq<Byte>)
    requires Whole(consumed, buf, n, [c] + rest, fed)
    ensures Whole(consumed, Or(buf, Shl(c, n)), n + 8, rest, fed)
    ensures ToBits(Or(buf, Shl(c, n)), n + 8) == ToBits(buf, n) + ToBits(c, 8)
  {
    Pow2Values();
    OrDisjoint(buf, n, c);
    ToBitsAppend(buf, n, c, 8);
    AppendBound(buf, n, c, 8);
    hide ToBits;
    assert ([c] + rest)[0] == c && ([c] + rest)[1..] == rest;
    assert BytesToBits([c] + rest) == ToBits(c, 8) + BytesToBits(rest);
    Assoc(consumed + ToBits(buf, n), ToBits(c, 8), BytesToBits(rest));
    Assoc(consumed, ToBits(buf, n), ToBits(c, 8));
  }

  /** A 32-bit little-endian load. */
  function Word(a: Byte, b: Byte, c: Byte, d: Byte): (w: nat) {
    a + 256 * (b + 256 * (c + 256 * d))
  }

  /** One more byte below: its bits come first. */
  lemma {:induction false} ByteBelow(a: Byte, w: nat, s: seq<Byte>, n: nat)
    requires w < Pow2(n) && ToBits(w, n) == BytesToBits(s)
    ensures a + 256 * w < Pow2(8 + n) && ToBits(a + 256 * w, 8 + n) == BytesToBits([a] + s)
  {
    Pow2Values();
    ShlEight(w);
    ToBitsAppend(a, 8, w, n);
    AppendBound(a, 8, w, n);
    assert ([a] + s)[1..] == s;
  }

  lemma {:induction false} FourOff(s: seq<Byte>, p: nat)
    requires p + 4 <= |s|
    ensures s[p..] == [s[p], s[p + 1], s[p + 2], s[p + 3]] + s[p + 4..]
  {
  }

  lemma {:induction false} LastByte(d: Byte)
    ensures d < Pow2(8) && ToBits(d, 8) == BytesToBits([d])
  {
    Pow2Values();
    assert BytesToBits([d]) == ToBits(d, 8) + BytesToBits([d][1..]);
  }

  lemma {:induction false} WordBits(a: Byte, b: Byte, c: Byte, d: Byte)
    ensures Word(a, b, c, d) < Pow2(32) && ToBits(Word(a, b, c, d), 32) == BytesToBits([a, b, c, d])
  {
    hide ToBits, BytesToBits, Pow2;
    LastByte(d);
    ByteBelow(c, d, [d], 8);
    ByteBelow(b, c + 256 * d, [c] + [d], 16);
    ByteBelow(a, b + 256 * (c + 256 * d), [b] + ([c] + [d]), 24);
    assert [a] + ([b] + ([c] + [d])) == [a, b, c, d];
  }

  /** Moving several bytes at once from the input to the bit buffer. */
  lemma {:induction false} WholeWord(consumed: seq<bool>, buf: nat, n: nat, w: nat, m: nat, s: seq<Byte>,
      rest: seq<Byte>, fed: seq<Byte>)
    requires Whole(consumed, buf, n, s + rest, fed) && w < Pow2(m) && ToBits(w, m) == BytesToBits(s)
    ensures Whole(consumed, Or(buf, Shl(w, n)), n + m, rest, fed)
  {
    OrDisjoint(buf, n, w);
    ToBitsAppend(buf, n, w, m);
    AppendBound(buf, n, w, m);
    BytesToBitsConcat(s, rest);
    hide ToBits, BytesToBits;
    Assoc(consumed + ToBits(buf, n), ToBits(w, m), BytesToBits(rest));
    Assoc(consumed, ToBits(buf, n), ToBits(w, m));
  }

  /** Delivering the low `k` bits of the buffer. */
  lemma {:induction false} WholeTake(consumed: seq<bool>, buf: nat, k: nat, m: nat, rest: seq<Byte>, fed: seq<Byte>)
    requires Whole(consumed, buf, m + k, rest, fed)
    ensures Whole(consumed + ToBits(buf, k), Shr(buf, k), m, rest, fed)
  {
    ShrBound(buf, m, k);
    var a, b := ToBits(buf, k), ToBits(Shr(buf, k), m);
    assert ToBits(buf, m + k) == a + b by { ToBitsSplit(buf, k, m); }
    Assoc(consumed, a, b);
    assert consumed + ToBits(buf, m + k) == consumed + a + b;
  }

  lemma {:induction false} WholeBytes(consumed: seq<bool>, buf: nat, s: seq<Byte>, rest: seq<Byte>, fed: seq<Byte>)
    ensures Whole(consumed, buf, 0, s + rest, fed) ==> Whole(consumed + BytesToBits(s), buf, 0, rest, fed)
  {
    BytesToBitsConcat(s, rest);
    var none := ToBits(buf, 0);
    assert consumed + none == consumed && consumed + BytesToBits(s) + none == consumed + BytesToBits(s);
    Assoc(consumed, BytesToBits(s), BytesToBits(rest));
  }

  class Reader {
    var bitBuf: nat
    var numBits: nat
    var input: seq<Byte>
    var pos: nat
    var more: bool        // more input may follow this chunk
    var inFill: bool      // suspended inside the careful refill of HuffDecode
    ghost var consumed: seq<bool>
    ghost var fed: seq<Byte>  // everything supplied so far, and the zero bytes read past the end

    /** Bits delivered, bits buffered and bytes unread always make up the whole input. */
    ghost predicate Valid()
      reads this
    {
      numBits <= 62 && pos <= |input| && Whole(consumed, bitBuf, numBits, input[pos..], fed)
    }

    constructor ()
      ensures Valid() && consumed == [] && fed == [] && numBits == 0 && !inFill && more && input == [] && pos == 0
    {
      bitBuf, numBits, input, pos, more, inFill := 0, 0, [], 0, true, false;
      consumed, fed := [], [];
    }

    /** The next call to the decompressor supplies the next piece of input. */
    method Feed(chunk: seq<Byte>, hasMore: bool)
      requires Valid() && pos == |input|
      modifies this
      ensures Valid() && input == chunk && pos == 0 && more == hasMore && fed == old(fed) + chunk
      ensures consumed == old(consumed) && inFill == old(inFill) && numBits == old(numBits) && bitBuf == old(bitBuf)
    {
      assert input[pos..] == [] && chunk[0..] == chunk;
      WholeFeed(consumed, bitBuf, numBits, fed, chunk);
      fed := fed + chunk;
      input, pos, more := chunk, 0, hasMore;
    }

    /** Moves one byte into the bit buffer; past the end of all input, a zero byte. */
    method PullByte() returns (ok: bool)
      requires Valid() && numBits <= 22
      modifies this
      ensures Valid() && consumed == old(consumed) && input == old(input) && more == old(more) && inFill == old(inFill)
      ensures ok <==> old(pos) < |input| || !more
      ensures ok ==> numBits == old(numBits) + 8
      ensures ok && old(pos) < |input| ==> pos == old(pos) + 1 && fed == old(fed)
      ensures ok && old(pos) == |input| ==> pos == old(pos) && fed == old(fed) + [0]
      ensures ok ==> ToBits(bitBuf, old(numBits)) == ToBits(old(bitBuf), old(numBits))
      ensures ZeroPadded(old(fed), fed) && (more ==> fed == old(fed)) && pos >= old(pos)
      ensures !ok ==> pos == old(pos) && fed == old(fed) && bitBuf == old(bitBuf) && numBits == old(numBits)
    {
      hide Whole;
      var c: Byte := 0;
      if pos < |input| {
        c := input[pos];
        assert input[pos..] == [c] + input[pos + 1..];
        pos := pos + 1;
      } else if more {
        return false;
      } else {
        WholeFeed(consumed, bitBuf, numBits, fed, [0]);
        fed := fed + [0];
        assert [c] + input[pos..] == [0];
      }
      WholePull(consumed, bitBuf, numBits, c, input[pos..], fed);
      ToBitsTake(Or(bitBuf, Shl(c, numBits)), numBits + 8, numBits);
      bitBuf := Or(bitBuf, Shl(c, numBits));
      numBits := numBits + 8;
      ok := true;
    }

    /** Reads an `n`-bit field. */
    method GetBits(n: nat) returns (r: Outcome)
      requires Valid() && n <= 16
      modifies this
      ensures Valid() && input == old(input) && more == old(more) && inFill == old(inFill) && pos >= old(pos)
      ensures r.Got? ==> r.value < Pow2(n) && consumed == old(consumed) + ToBits(r.value, n)
      ensures r.NeedInput? ==> more && pos == |input| && consumed == old(consumed) && numBits < n
      ensures ZeroPadded(old(fed), fed) && (more ==> fed == old(fed))
    {
      while numBits < n
        invariant Valid() && input == old(input) && more == old(more) && inFill == old(inFill) && pos >= old(pos)
        invariant consumed == old(consumed)
        invariant ZeroPadded(old(fed), fed) && (more ==> fed == old(fed))
        decreases 30 - numBits
      {
        var ok := PullByte();
        if !ok { return NeedInput; }
      }
      r := Got(Low(bitBuf, n));
      LowBitsOf(bitBuf, n);
      Drop(n);
    }

    /** `bit_buf >>= k, num_bits -= k` */
    method Drop(k: nat)
      requires Valid() && k <= numBits
      modifies this
      ensures Valid() && input == old(input) && more == old(more) && inFill == old(inFill) && pos == old(pos)
        && fed == old(fed)
      ensures consumed == old(consumed) + ToBits(old(bitBuf), k) && numBits == old(numBits) - k
    {
      hide Whole;
      WholeTake(consumed, bitBuf, k, numBits - k, input[pos..], fed);
      consumed := consumed + ToBits(bitBuf, k);
      bitBuf, numBits := Shr(bitBuf, k), numBits - k;
    }

    /** The bits delivered are the start of what was supplied. */
    lemma {:induction false} Delivered()
      requires Valid()
      ensures consumed <= BytesToBits(fed) && |consumed| + numBits + 8 * (|input| - pos) == 8 * |fed|
    {
      var a, b := ToBits(bitBuf, numBits), BytesToBits(input[pos..]);
      Assoc(consumed, a, b);
      assert consumed + (a + b) == BytesToBits(fed);
      assert |input[pos..]| == |input| - pos;
    }

    /** Takes whole bytes straight from the input when no bits are buffered. */
    method TakeBytes(n: nat) returns (s: seq<Byte>)
      requires Valid() && numBits == 0 && pos + n <= |input|
      modifies this`pos, this`consumed
      ensures Valid() && s == input[old(pos)..old(pos) + n] && pos == old(pos) + n
        && consumed == old(consumed) + BytesToBits(s)
    {
      hide Whole, BytesToBits;
      s := input[pos..pos + n];
      WholeBytes(consumed, bitBuf, s, input[pos + n..], fed);
      assert input[pos..] == s + input[pos + n..];
      consumed := consumed + BytesToBits(s);
      pos := pos + n;
    }

    /** Tries to decode a symbol from the bits at hand, however few. */
    method CanDecode(ghost L: seq<nat>, table: Table) returns (ok: bool)
      requires Valid() && table.Holds(L, |L|, |L|)
      ensures ok ==> Decodable(L, table.nodes, bitBuf, numBits)
      ensures !ok ==> Unsettled(L, ToBits(bitBuf, numBits))
    {
      hide Whole;
      table.TableFits(L, |L|, |L|);
      hide Inv;
      hide NodesOk;
      hide At;
      var temp := table.Look(L, bitBuf);
      if temp >= 0 {
        var codeLen := temp / 512;
        LookupSettles(L, table.nodes, bitBuf, numBits);
        ok := codeLen != 0 && numBits >= codeLen;
      } else {
        var leaf, codeLen := table.WalkWithin(L, bitBuf, temp, numBits);
        ok := leaf >= 0;
        if ok {
          TreeSettles(L, table.nodes, bitBuf, numBits, leaf, codeLen);
        } else {
          TreeUnsettled(L, table.nodes, bitBuf, numBits, leaf, codeLen);
        }
      }
    }

    /** One round of the careful refill: takes a byte only when the bits at hand hold no whole code. */
    method FillRound(ghost L: seq<nat>, table: Table, resumed: bool) returns (r: Round)
      requires Valid() && table.Holds(L, |L|, |L|) && numBits < MAX_LEN
      requires resumed ==> Unsettled(L, ToBits(bitBuf, numBits))
      modifies this
      ensures Valid() && input == old(input) && more == old(more) && pos >= old(pos) && consumed == old(consumed)
      ensures ZeroPadded(old(fed), fed) && (more ==> fed == old(fed)) && inFill == old(inFill)
      ensures r.Ready? ==>
        numBits == old(numBits) && bitBuf == old(bitBuf) && Decodable(L, table.nodes, bitBuf, numBits)
      ensures r.Took? ==> numBits == old(numBits) + 8 && Unsettled(L, ToBits(bitBuf, old(numBits)))
      ensures r.Starved? ==>
        && more && pos == |input| && numBits == old(numBits) && bitBuf == old(bitBuf)
        && Unsettled(L, ToBits(bitBuf, numBits))
    {
      hide Inv;
      hide Decodable;
      hide Whole;
      if !resumed {
        var found := CanDecode(L, table);
        if found { return Ready; }
      }
      var ok := PullByte();
      r := if ok then Took else Starved;
    }

    /**
     * The careful refill near the end of the input. `before` is how many bits there were when the last byte was taken.
     */
    method Fill(ghost L: seq<nat>, table: Table) returns (ok: bool, ghost before: nat)
      requires Valid() && table.Holds(L, |L|, |L|) && numBits < MAX_LEN
      requires inFill ==> Unsettled(L, ToBits(bitBuf, numBits))
      modifies this
      ensures Valid() && input == old(input) && more == old(more) && pos >= old(pos) && consumed == old(consumed)
      ensures ZeroPadded(old(fed), fed) && (more ==> fed == old(fed))
      ensures numBits >= old(numBits) && inFill == !ok
      ensures !ok ==> more && pos == |input| && numBits < MAX_LEN && Unsettled(L, ToBits(bitBuf, numBits))
      ensures ok ==> Decodable(L, table.nodes, bitBuf, numBits)
      ensures ok && numBits > old(numBits) ==> numBits == before + 8 && Unsettled(L, ToBits(bitBuf, before))
    {
      hide Inv;
      hide Unsettled;
      hide Decodable;
      hide Whole;
      before := numBits;
      var r := FillRound(L, table, inFill);
      while numBits < MAX_LEN && r.Took?
        invariant Valid() && input == old(input) && more == old(more) && pos >= old(pos) && consumed == old(consumed)
        invariant ZeroPadded(old(fed), fed) && (more ==> fed == old(fed))
        invariant numBits >= old(numBits)
        invariant r.Ready? ==> Decodable(L, table.nodes, bitBuf, numBits)
        invariant r.Starved? ==> more && pos == |input| && numBits < MAX_LEN && Unsettled(L, ToBits(bitBuf, numBits))
        invariant r.Took? || numBits > old(numBits) ==> numBits == before + 8 && Unsettled(L, ToBits(bitBuf, before))
        decreases r.Took?, MAX_LEN - numBits
      {
        ghost var n := numBits;
        r := FillRound(L, table, false);
        before := if r.Took? then n else before;
      }
      if r.Took? { TableEnough(L, table, bitBuf, numBits); }
      ok := !r.Starved?;
      inFill := !ok;
    }

    /** The two-byte refill away from the end of the input. */
    method PullTwo()
      requires Valid() && numBits < MAX_LEN && pos + 2 <= |input|
      modifies this
      ensures Valid() && input == old(input) && more == old(more) && inFill == old(inFill) && consumed == old(consumed)
        && fed == old(fed)
      ensures pos == old(pos) + 2 && numBits == old(numBits) + 16
    {
      hide Whole;
      var a, b := input[pos], input[pos + 1];
      assert input[pos..] == [a] + input[pos + 1..] && input[pos + 1..] == [b] + input[pos + 2..];
      WholePull(consumed, bitBuf, numBits, a, input[pos + 1..], fed);
      WholePull(consumed, Or(bitBuf, Shl(a, numBits)), numBits + 8, b, input[pos + 2..], fed);
      OrAssoc(bitBuf, Shl(a, numBits), Shl(b, numBits + 8));
      bitBuf := Or(bitBuf, Or(Shl(a, numBits), Shl(b, numBits + 8)));
      pos := pos + 2;
      numBits := numBits + 16;
    }

    /** The four-byte refill of the fast loop. */
    method PullFour()
      requires Valid() && numBits < 30 && pos + 4 <= |input|
      modifies this
      ensures Valid() && input == old(input) && more == old(more) && inFill == old(inFill) && consumed == old(consumed)
        && fed == old(fed)
      ensures pos == old(pos) + 4 && numBits == old(numBits) + 32
    {
      hide Whole, Word, ToBits, BytesToBits, Shl, Or, Pow2;
      var a, b, c, d := input[pos], input[pos + 1], input[pos + 2], input[pos + 3];
      FourOff(input, pos);
      WordBits(a, b, c, d);
      WholeWord(consumed, bitBuf, numBits, Word(a, b, c, d), 32, [a, b, c, d], input[pos + 4..], fed);
      bitBuf := Or(bitBuf, Shl(Word(a, b, c, d), numBits));
      pos := pos + 4;
      numBits := numBits + 32;
    }

    /** Decodes a symbol without looking at the input: fifteen bits are enough. */
    method FastDecode(ghost L: seq<nat>, table: Table) returns (sym: nat)
      requires Valid() && table.Holds(L, |L|, |L|) && numBits >= MAX_LEN
      modifies this
      ensures Valid() && input == old(input) && more == old(more) && inFill == old(inFill) && pos == old(pos)
        && fed == old(fed)
      ensures numBits + MAX_LEN >= old(numBits) && old(consumed) <= consumed
      ensures forall s: nat, tail: seq<bool> :: MatchAfter(L, s, Ahead(old(consumed), fed), tail) ==>
        sym == s && consumed == old(consumed) + SymBits(L, s)
      ensures Complete(L) ==> exists s: nat :: Match(L, s, Ahead(old(consumed), fed))
      ensures NoSymbols(L) ==> sym == 0 && consumed == old(consumed)
    {
      hide Inv, Whole, Decodable, Starts, MatchAfter, Match, Leaf;
      TableEnough(L, table, bitBuf, numBits);
      TableEnough(L, table, bitBuf, MAX_LEN);
      ghost var buf := bitBuf;
      sym := Deliver(L, table);
      ShortLeaf(L, table.nodes, buf, MAX_LEN, old(numBits) - numBits);
    }

    /** Makes the next symbol decodable, by the careful refill when fewer than two bytes are left.
        `eager` tells that the two-byte refill was used. */
    method Refill(ghost L: seq<nat>, table: Table) returns (ok: bool, ghost eager: bool, ghost before: nat)
      requires Valid() && table.Holds(L, |L|, |L|)
      requires inFill ==> numBits < MAX_LEN && Unsettled(L, ToBits(bitBuf, numBits))
      modifies this
      ensures Valid() && input == old(input) && more == old(more) && pos >= old(pos) && consumed == old(consumed)
      ensures ZeroPadded(old(fed), fed) && (more ==> fed == old(fed)) && inFill == !ok
      ensures !ok ==> more && pos == |input| && numBits < MAX_LEN && Unsettled(L, ToBits(bitBuf, numBits))
      ensures ok ==> Decodable(L, table.nodes, bitBuf, numBits)
      ensures eager == (!old(inFill) && old(numBits) < MAX_LEN && old(pos) + 2 <= |input|)
      ensures numBits >= old(numBits) && (eager ==> ok && numBits == old(numBits) + 16)
      ensures ok && !eager && numBits > old(numBits) ==> numBits == before + 8 && Unsettled(L, ToBits(bitBuf, before))
    {
      hide Inv;
      hide Unsettled;
      hide Decodable;
      hide Whole;
      ok, eager, before := true, false, numBits;
      if inFill || (numBits < MAX_LEN && |input| - pos < 2) {
        ok, before := Fill(L, table);
      } else {
        if numBits < MAX_LEN {
          eager := true;
          PullTwo();
        }
        TableEnough(L, table, bitBuf, numBits);
      }
    }

    /** Decodes a symbol the buffer settles. */
    method Deliver(ghost L: seq<nat>, table: Table) returns (sym: nat)
      requires Valid() && table.Holds(L, |L|, |L|) && Decodable(L, table.nodes, bitBuf, numBits)
      modifies this
      ensures Valid() && input == old(input) && more == old(more) && inFill == old(inFill) && pos == old(pos)
        && fed == old(fed)
      ensures forall s: nat :: Match(L, s, Ahead(old(consumed), fed)) ==>
        Starts(L, s, old(bitBuf)) && sym == s && consumed == old(consumed) + SymBits(L, s)
          && numBits == old(numBits) - L[s]
      ensures forall s: nat, tail: seq<bool> :: MatchAfter(L, s, Ahead(old(consumed), fed), tail) ==>
        sym == s && consumed == old(consumed) + SymBits(L, s)
      ensures Complete(L) ==> exists s: nat :: Match(L, s, Ahead(old(consumed), fed))
      ensures old(numBits) >= numBits && Leaf(L, table.nodes, old(bitBuf), old(numBits) - numBits)
      ensures old(consumed) <= consumed
      ensures NoSymbols(L) ==> sym == 0 && consumed == old(consumed)
    {
      hide Inv, NodesOk, Whole, Decodable, Match, MatchAfter, Leaf, Starts, SymBits;
      table.TableFits(L, |L|, |L|);
      var size;
      sym, size := table.Decode(L, bitBuf);
      DecodedFits(L, table.nodes, bitBuf, numBits, size);
      TookSymbol(L, table.nodes, consumed, bitBuf, numBits, input[pos..], fed, sym, size);
      if size == 0 { NothingTaken(consumed, bitBuf); }
      Drop(size);
    }

    /**
     * Decodes the next symbol, suspending when it needs input that has not arrived. What has been supplied but not
     * delivered is `Ahead`.
     */
    method HuffDecode(ghost L: seq<nat>, table: Table) returns (r: Outcome)
      requires Valid() && table.Holds(L, |L|, |L|)
      requires inFill ==> numBits < MAX_LEN && Unsettled(L, ToBits(bitBuf, numBits))
      modifies this
      ensures Valid() && input == old(input) && more == old(more) && pos >= old(pos)
      ensures ZeroPadded(old(fed), fed) && (more ==> fed == old(fed)) && inFill == r.NeedInput?
      ensures r.NeedInput? ==> more && pos == |input| && consumed == old(consumed)
      ensures r.NeedInput? ==> numBits < MAX_LEN && Unsettled(L, ToBits(bitBuf, numBits))
      ensures old(consumed) <= consumed
      ensures r.Got? ==> forall s: nat :: Match(L, s, Ahead(old(consumed), fed)) ==>
        r.value == s && consumed == old(consumed) + SymBits(L, s)
      // the symbol is the same whatever input arrives later
      ensures r.Got? ==> forall s: nat, tail: seq<bool> :: MatchAfter(L, s, Ahead(old(consumed), fed), tail) ==>
        r.value == s && consumed == old(consumed) + SymBits(L, s)
      ensures r.Got? && Complete(L) ==> exists s: nat :: Match(L, s, Ahead(old(consumed), fed))
      // a code without symbols is accepted too: it reads symbol zero, and takes no bits
      ensures r.Got? && NoSymbols(L) ==> r.value == 0 && consumed == old(consumed)
      // reading leaves a whole unused byte exactly when the two-byte refill takes more than the code needs
      ensures r.Got? ==> forall s: nat :: Match(L, s, Ahead(old(consumed), fed)) ==>
        (numBits >= 8 && numBits + L[s] > old(numBits)
         <==> !old(inFill) && old(numBits) < MAX_LEN && old(pos) + 2 <= |input| && L[s] <= old(numBits) + 8)
    {
      hide Inv;
      hide Whole;
      hide Decodable;
      hide Unsettled;
      hide Starts;
      hide MatchAfter;
      var ok, eager, before := Refill(L, table);
      if !ok { return NeedInput; }
      ghost var n := numBits;
      if !eager && n > old(numBits) { NeededByte(L, bitBuf, before); }
      var sym := Deliver(L, table);
      r := Got(sym);
    }
  }

  lemma {:induction false} NothingTaken(c: seq<bool>, buf: nat)
    ensures c + ToBits(buf, 0) == c
  {
  }

  datatype Round = Ready | Took | Starved

  /** The buffer settles the next symbol, and the table consumes no more than it holds. */
  ghost predicate Decodable(L: seq<nat>, nodes: Nodes, buf: nat, n: nat) {
    && Settled(L, buf, n)
    && (Complete(L) ==> exists s: nat :: Match(L, s, ToBits(buf, n)))
    && (forall d: nat :: Leaf(L, nodes, buf, d) ==> d <= n)
  }

  /** Fifteen bits always hold a whole code. */
  lemma {:induction false} EnoughBits(L: seq<nat>, nodes: Nodes, buf: nat, n: nat)
    requires Fits(L) && |L| <= MAX_SYMS && NodesOk(L, |L|, |L|, nodes) && n >= MAX_LEN
    ensures Decodable(L, nodes, buf, n)
  {
    hide NodesOk;
    forall d: nat | Leaf(L, nodes, buf, d) ensures d <= n { LeafBound(L, nodes, buf, d); }
    if Complete(L) { var s := MatchExists(L, ToBits(buf, n)); }
  }

  lemma {:induction false} TableEnough(L: seq<nat>, table: Table, buf: nat, n: nat)
    requires table.Holds(L, |L|, |L|) && n >= MAX_LEN
    ensures Decodable(L, table.nodes, buf, n)
  {
    table.TableFits(L, |L|, |L|);
    EnoughBits(L, table.nodes, buf, n);
  }

  lemma {:induction false} ShortLeaf(L: seq<nat>, nodes: Nodes, buf: nat, n: nat, d: nat)
    requires Decodable(L, nodes, buf, n) && Leaf(L, nodes, buf, d)
    ensures d <= n
  {
  }

  /** Symbol `s` starts `b` once `tail` has followed. */
  ghost predicate MatchAfter(L: seq<nat>, s: nat, b: seq<bool>, tail: seq<bool>) {
    Match(L, s, b + tail)
  }

  /** The bits supplied and not yet delivered. */
  ghost function Ahead(consumed: seq<bool>, fed: seq<Byte>): (r: seq<bool>)
  {
    if |consumed| <= 8 * |fed| then BytesToBits(fed)[|consumed|..] else []
  }

  lemma {:induction false} DecodedFits(L: seq<nat>, nodes: Nodes, buf: nat, n: nat, size: nat)
    requires Decodable(L, nodes, buf, n) && Leaf(L, nodes, buf, size)
    ensures size <= n
  {
  }

  /** What the table decodes from the buffer is what the stream holds. */
  lemma {:induction false} TookSymbol(L: seq<nat>, nodes: Nodes, consumed: seq<bool>, buf: nat, n: nat, rest: seq<Byte>,
      fed: seq<Byte>, sym: nat, size: nat)
    requires Fits(L) && Decodable(L, nodes, buf, n) && Whole(consumed, buf, n, rest, fed)
    requires forall s: nat :: Starts(L, s, buf) ==> sym == s && size == L[s]
    ensures forall s: nat :: Match(L, s, Ahead(consumed, fed)) ==>
      Starts(L, s, buf) && sym == s && size == L[s] && ToBits(buf, size) == SymBits(L, s)
    ensures forall s: nat, tail: seq<bool> :: MatchAfter(L, s, Ahead(consumed, fed), tail) ==>
      sym == s && size == L[s] && ToBits(buf, size) == SymBits(L, s)
    ensures Complete(L) ==> exists s: nat :: Match(L, s, Ahead(consumed, fed))
  {
    var ahead := Ahead(consumed, fed);
    AheadIs(consumed, buf, n, rest, fed);
    forall s: nat | Match(L, s, ahead) ensures Starts(L, s, buf) && sym == s && size == L[s]
      && ToBits(buf, size) == SymBits(L, s) {
      MatchStarts(L, nodes, buf, n, BytesToBits(rest), s);
      LookupClass(L, s, buf);
    }
    forall s: nat, tail: seq<bool> | MatchAfter(L, s, ahead, tail)
      ensures sym == s && size == L[s] && ToBits(buf, size) == SymBits(L, s) {
      Assoc(ToBits(buf, n), BytesToBits(rest), tail);
      MatchStarts(L, nodes, buf, n, BytesToBits(rest) + tail, s);
      LookupClass(L, s, buf);
    }
    if Complete(L) {
      var s: nat :| Match(L, s, ToBits(buf, n));
      PathOfPrefix(ToBits(buf, n), BytesToBits(rest), L[s]);
      assert Match(L, s, ahead);
    }
  }

  /** If the bits before the last byte held no whole code, the code reaches into that byte. */
  lemma {:induction false} NeededByte(L: seq<nat>, buf: nat, before: nat)
    requires Unsettled(L, ToBits(buf, before))
    ensures forall s: nat :: Starts(L, s, buf) ==> L[s] > before
  {
    forall s: nat | Starts(L, s, buf) ensures L[s] > before {
      if L[s] <= before { StartsMatch(L, s, buf, before); }
    }
  }

  lemma {:induction false} AheadIs(consumed: seq<bool>, buf: nat, n: nat, rest: seq<Byte>, fed: seq<Byte>)
    requires Whole(consumed, buf, n, rest, fed)
    ensures Ahead(consumed, fed) == ToBits(buf, n) + BytesToBits(rest)
  {
    var a, b := ToBits(buf, n), BytesToBits(rest);
    hide ToBits;
    Assoc(consumed, a, b);
    assert (consumed + (a + b))[|consumed|..] == a + b;
    assert |consumed + (a + b)| == |BytesToBits(fed)|;
  }

  lemma {:induction false} MatchStarts(L: seq<nat>, nodes: Nodes, buf: nat, n: nat, tail: seq<bool>, s: nat)
    requires Decodable(L, nodes, buf, n) && Match(L, s, ToBits(buf, n) + tail)
    ensures Starts(L, s, buf)
  {
    hide SymId;
    var all := ToBits(buf, n) + tail;
    var v := Val(all);
    ToBitsVal(all);
    StartsMatch(L, s, v, |all|);
    ToBitsTake(v, |all|, n);
    assert all[..n] == ToBits(buf, n);
    StartsShared(L, s, v, buf, n);
  }

  /** Any symbol whose code starts the stream has its whole code among these `n` bits. */
  ghost predicate Settled(L: seq<nat>, buf: nat, n: nat) {
    forall s: nat, v: nat :: Starts(L, s, v) && ToBits(v, n) == ToBits(buf, n) ==> L[s] <= n
  }

  /** These bits hold no whole code: another byte is needed. */
  ghost predicate Unsettled(L: seq<nat>, bits: seq<bool>) {
    forall s: nat :: !Match(L, s, bits)
  }

  lemma {:induction false} NoCodeYet(L: seq<nat>, buf: nat, n: nat)
    requires forall s: nat :: Starts(L, s, buf) ==> L[s] > n
    ensures Unsettled(L, ToBits(buf, n))
  {
    forall s: nat ensures !Match(L, s, ToBits(buf, n)) {
      if Match(L, s, ToBits(buf, n)) { StartsMatch(L, s, buf, n); }
    }
  }

  lemma {:induction false} StartsShared(L: seq<nat>, s: nat, v: nat, w: nat, n: nat)
    requires Starts(L, s, v) && L[s] <= n && ToBits(v, n) == ToBits(w, n)
    ensures Starts(L, s, w)
  {
    hide SymId;
    PathOfBits(v, n, L[s]);
    PathOfBits(w, n, L[s]);
  }

  /** A whole code among the bits at hand settles what comes next. */
  lemma {:induction false} CodeSettles(L: seq<nat>, c: nat, buf: nat, n: nat)
    requires Fits(L) && Starts(L, c, buf) && L[c] <= n
    ensures Settled(L, buf, n) && Match(L, c, ToBits(buf, n))
  {
    hide SymId;
    StartsMatch(L, c, buf, n);
    forall s: nat, v: nat | Starts(L, s, v) && ToBits(v, n) == ToBits(buf, n) ensures L[s] <= n {
      StartsShared(L, c, buf, v, n);
      StartsUnique(L, s, c, v);
    }
  }

  lemma {:induction false} LookupSettles(L: seq<nat>, nodes: Nodes, buf: nat, n: nat)
    requires Fits(L) && |L| <= MAX_SYMS && NodesOk(L, |L|, |L|, nodes) && LkSlot(L, |L|, nodes, buf) >= 0
    ensures var size := LkSlot(L, |L|, nodes, buf) / 512;
      if size != 0 && n >= size then Decodable(L, nodes, buf, n) else Unsettled(L, ToBits(buf, n))
  {
    hide NodesOk;
    var entry := LkSlot(L, |L|, nodes, buf);
    assert Leaf(L, nodes, buf, entry / 512);
    if entry / 512 != 0 && n >= entry / 512 {
      var c := Cover(L, |L|, buf);
      LookupDecodes(L, nodes, buf, c);
      Fields(L[c], c, entry);
      CodeSettles(L, c, buf, n);
      LeafOnly(L, nodes, buf, entry / 512, n);
    } else {
      forall s: nat | Starts(L, s, buf) ensures L[s] > n {
        LookupDecodes(L, nodes, buf, s);
        Fields(L[s], s, entry);
      }
      NoCodeYet(L, buf, n);
    }
  }

  lemma {:induction false} LeafOnly(L: seq<nat>, nodes: Nodes, v: nat, d: nat, n: nat)
    requires NodesOk(L, |L|, |L|, nodes) && Leaf(L, nodes, v, d) && d <= n
    ensures forall e: nat :: Leaf(L, nodes, v, e) ==> e <= n
  {
    hide NodesOk;
    forall e: nat | Leaf(L, nodes, v, e) ensures e <= n { LeafUnique(L, nodes, v, d, e); }
  }

  lemma {:induction false} TreeSettles(L: seq<nat>, nodes: Nodes, buf: nat, n: nat, leaf: nat, d: nat)
    requires Fits(L) && NodesOk(L, |L|, |L|, nodes) && At(L, nodes, buf, leaf, d) && d <= n
    ensures Decodable(L, nodes, buf, n)
  {
    hide NodesOk;
    TreeDecodesAll(L, nodes, buf, leaf, d);
    LeafOnly(L, nodes, buf, d, n);
    forall s: nat, v: nat | Starts(L, s, v) && ToBits(v, n) == ToBits(buf, n) ensures L[s] <= n {
      if L[s] > n { StillInner(L, nodes, s, v, buf, n, d); }
    }
    if Complete(L) {
      var s := MatchExists(L, ToBits(buf, MAX_LEN));
      StartsMatch(L, s, buf, MAX_LEN);
      StartsMatch(L, s, buf, n);
    }
  }

  lemma {:induction false} StillInner(L: seq<nat>, nodes: Nodes, s: nat, v: nat, buf: nat, n: nat, d: nat)
    requires Fits(L) && NodesOk(L, |L|, |L|, nodes) && Starts(L, s, v) && FAST_BITS <= d <= n < L[s]
      && ToBits(v, n) == ToBits(buf, n)
    ensures Find(nodes, Path(buf, d)) >= 0
  {
    StartsBelow(L, |L|, |L|, nodes, s, v, d);
    hide NodesOk;
    hide Starts;
    PathOfBits(v, n, d);
    PathOfBits(buf, n, d);
  }

  lemma {:induction false} TreeUnsettled(L: seq<nat>, nodes: Nodes, buf: nat, n: nat, temp: int, d: nat)
    requires Fits(L) && NodesOk(L, |L|, |L|, nodes) && temp < 0 && At(L, nodes, buf, temp, d) && n <= d
    ensures Unsettled(L, ToBits(buf, n))
  {
    hide NodesOk;
    forall s: nat | Starts(L, s, buf) ensures L[s] > n { NodeCode(L, |L|, |L|, nodes, s, buf, d); }
    NoCodeYet(L, buf, n);
  }

  /** Only zero bytes, standing for input past the end, were added. */
  ghost predicate ZeroPadded(a: seq<Byte>, b: seq<Byte>) {
    a <= b && forall i :: |a| <= i < |b| ==> b[i] == 0
  }

  // ---- More input than needed ----

  /** The bits that are not delivered are in the buffer or in the input. */
  lemma {:induction false} BitCount(consumed: seq<bool>, buf: nat, n: nat, rest: seq<Byte>, fed: seq<Byte>)
    requires Whole(consumed, buf, n, rest, fed)
    ensures |consumed| + n + 8 * |rest| == 8 * |fed|
  {
    assert |consumed + ToBits(buf, n) + BytesToBits(rest)| == |consumed| + n + 8 * |rest|;
  }

  lemma {:induction false} TwoSymbolCode()
    ensures Complete([1, 1]) && Accepted([1, 1])
  {
    var L := [1, 1];
    assert Count(L, 2, 1) == 2 by { assert Count(L, 1, 1) == 1; }
    assert NextCode(L, 2) == 4;
    forall i: nat | i >= 2 ensures Count(L, 2, i) == 0 { assert Count(L, 1, i) == 0; }
    hide Count;
    assert NextCode(L, 4) == 16;
    assert NextCode(L, 7) == 128;
    assert NextCode(L, 10) == 1024;
    assert NextCode(L, 13) == 8192;
    Pow2Values();
  }

  /**
   * The comment at the decoder's refill says that it never takes more input than it needs. It does: with two bytes at
   * hand it takes both to decode a symbol of one bit.
   */
  method TakesTooMuch() returns (r: Outcome, reader: Reader)
    ensures r.Got? && fresh(reader) && reader.Valid() && reader.input == [0, 0] && reader.more
    ensures |reader.consumed| == 1 && reader.pos == 2 && reader.numBits == 15
  {
    hide Complete, Accepted, Match, MatchAfter, Unsettled, HuffTable.Inv;
    TwoSymbolCode();
    var L := [1, 1];
    var table := new Table();
    var ok := table.Build(L);
    reader := new Reader();
    reader.Feed([0, 0], true);
    r := reader.HuffDecode(L, table);
    BitCount(reader.consumed, reader.bitBuf, reader.numBits, reader.input[reader.pos..], reader.fed);
    ghost var s: nat :| Match(L, s, Ahead([], reader.fed));
    OneBit(s, Ahead([], reader.fed));
  }

  /** A code without symbols is accepted, and reading with it gives symbol zero and takes nothing: no bits spell one. */
  method ReadsWithoutCode() returns (r: Outcome, reader: Reader)
    ensures r == Got(0) && fresh(reader) && reader.Valid() && reader.consumed == [] && Accepted([0])
    ensures forall s: nat, b: seq<bool> :: !Match([0], s, b)
  {
    hide Unsettled, HuffTable.Inv;
    assert Accepted([0]) by { assert Used([0], 1) == 0; }
    var table := new Table();
    var ok := table.Build([0]);
    reader := new Reader();
    reader.Feed([0, 0], false);
    r := reader.HuffDecode([0], table);
  }

  lemma {:induction false} OneBit(s: nat, b: seq<bool>)
    requires Match([1, 1], s, b)
    ensures s < 2 && [1, 1][s] == 1
  {
  }
}
