/** Input that arrives in pieces: what is read does not depend on where it was split. */
module BitSource {
  import opened Bits
  import opened Canonical
  import opened HuffTable
  import opened HuffDecoder
  import opened BitReader

  function Flatten(chunks: seq<seq<Byte>>): (s: seq<Byte>) {
    if chunks == [] then [] else chunks[0] + Flatten(chunks[1..])
  }

  /** What has been supplied and what is still to come are the whole input; at the end, zero bytes follow it. */
  ghost predicate Supplied(fed: seq<Byte>, more: bool, chunks: seq<seq<Byte>>, whole: seq<Byte>) {
    if more then fed + Flatten(chunks) == whole else chunks == [] && ZeroPadded(whole, fed)
  }

  /** The part of the whole input that has not been consumed. */
  ghost function Unread(whole: seq<Byte>, consumed: nat): (b: seq<bool>) {
    if consumed <= 8 * |whole| then BytesToBits(whole)[consumed..] else []
  }

  lemma {:induction false} BytesPrefix(a: seq<Byte>, b: seq<Byte>)
    requires a <= b
    ensures BytesToBits(a) <= BytesToBits(b) && BytesToBits(b) == BytesToBits(a) + BytesToBits(b[|a|..])
  {
    assert b == a + b[|a|..];
    BytesToBitsConcat(a, b[|a|..]);
  }

  /** Before the end of the input: what is unread is what has been supplied and what is still to come. */
  lemma {:induction false} AheadMore(fed: seq<Byte>, chunks: seq<seq<Byte>>, whole: seq<Byte>, consumed: seq<bool>)
    requires Supplied(fed, true, chunks, whole) && consumed <= BytesToBits(fed)
    ensures |consumed| <= 8 * |whole| && Unread(whole, |consumed|)
      == Ahead(consumed, fed) + BytesToBits(Flatten(chunks))
  {
    BytesToBitsConcat(fed, Flatten(chunks));
    var a, b := BytesToBits(fed), BytesToBits(Flatten(chunks));
    hide BytesToBits;
    assert (a + b)[|consumed|..] == a[|consumed|..] + b;
  }

  /** After it: zero bits follow what is unread. */
  lemma {:induction false} AheadEnd(fed: seq<Byte>, chunks: seq<seq<Byte>>, whole: seq<Byte>, consumed: seq<bool>)
    requires Supplied(fed, false, chunks, whole) && consumed <= BytesToBits(fed) && |consumed| <= 8 * |whole|
    ensures Ahead(consumed, fed) == Unread(whole, |consumed|) + BytesToBits(fed[|whole|..])
  {
    BytesPrefix(whole, fed);
    var a, b := BytesToBits(whole), BytesToBits(fed[|whole|..]);
    hide BytesToBits;
    assert (a + b)[|consumed|..] == a[|consumed|..] + b;
  }

  lemma {:induction false} MatchLonger(L: seq<nat>, s: nat, b: seq<bool>, c: seq<bool>)
    requires Match(L, s, b)
    ensures Match(L, s, b + c) && MatchAfter(L, s, b + c, [])
  {
    PathOfPrefix(b, c, L[s]);
    assert b + c + [] == b + c;
  }

  /** Whatever has been supplied so far, the symbol that starts the unread input is the one the reader finds. */
  lemma {:induction false} SameSymbol(fed: seq<Byte>, more: bool, chunks: seq<seq<Byte>>, whole: seq<Byte>,
      consumed: seq<bool>, L: seq<nat>, s: nat)
    requires Supplied(fed, more, chunks, whole) && consumed <= BytesToBits(fed)
      && Match(L, s, Unread(whole, |consumed|))
    ensures exists tail: seq<bool> :: MatchAfter(L, s, Ahead(consumed, fed), tail)
    ensures |consumed| + L[s] <= 8 * |whole|
  {
    hide Match, BytesToBits, PathOf, SymId;
    MatchSize(L, s, Unread(whole, |consumed|));
    if more {
      AheadMore(fed, chunks, whole, consumed);
      assert MatchAfter(L, s, Ahead(consumed, fed), BytesToBits(Flatten(chunks)));
    } else {
      AheadEnd(fed, chunks, whole, consumed);
      MatchLonger(L, s, Unread(whole, |consumed|), BytesToBits(fed[|whole|..]));
    }
  }

  lemma {:induction false} MatchSize(L: seq<nat>, s: nat, b: seq<bool>)
    requires Match(L, s, b)
    ensures s < |L| && 0 < L[s] <= |b|
  {
  }

  /** Bits delivered while inside the input are the input's. */
  lemma {:induction false} Read(fed: seq<Byte>, more: bool, chunks: seq<seq<Byte>>, whole: seq<Byte>,
      consumed: seq<bool>, x: seq<bool>)
    requires Supplied(fed, more, chunks, whole) && consumed + x <= BytesToBits(fed) && |consumed| + |x| <= 8 * |whole|
    ensures |x| <= |Unread(whole, |consumed|)| && x == Unread(whole, |consumed|)[..|x|]
    ensures Unread(whole, |consumed + x|) == Unread(whole, |consumed|)[|x|..]
  {
    if more {
      BytesToBitsConcat(fed, Flatten(chunks));
    } else {
      BytesPrefix(whole, fed);
    }
    var a, n := BytesToBits(whole), |consumed|;
    hide BytesToBits;
    assert consumed + x <= a || a <= BytesToBits(fed);
    assert x == a[n..n + |x|];
    assert a[n..][..|x|] == a[n..n + |x|] && a[n..][|x|..] == a[n + |x|..];
  }

  /** The symbol found, and the bits consumed for it, whatever follows `b`. */
  ghost predicate Finds(L: seq<nat>, b: seq<bool>, sym: nat, was: seq<bool>, now: seq<bool>) {
    forall s: nat, tail: seq<bool> :: MatchAfter(L, s, b, tail) ==> sym == s && now == was + SymBits(L, s)
  }

  /** The bits consumed between `was` and `now` spell the symbol. */
  ghost predicate Spelled(L: seq<nat>, sym: nat, was: seq<bool>, now: seq<bool>) {
    sym < |L| && 0 < L[sym] && now == was + SymBits(L, sym)
  }

  /** A symbol that is not spelled is read only where no code continues the bits. */
  lemma {:induction false} NotSpelled(L: seq<nat>, b: seq<bool>, sym: nat, was: seq<bool>, now: seq<bool>)
    requires Finds(L, b, sym, was, now) && !Spelled(L, sym, was, now)
    ensures NoSymbolAhead(L, b)
  {
    hide PathOf, SymId, SymBits;
    forall s: nat, tail: seq<bool> ensures !Match(L, s, b + tail) {
      assert MatchAfter(L, s, b, tail) <==> Match(L, s, b + tail);
    }
  }

  /** If a symbol starts `b`, it is the one read and `after` is what follows it. */
  ghost predicate Reads(L: seq<nat>, b: seq<bool>, sym: nat, after: seq<bool>) {
    forall s: nat :: Match(L, s, b) ==> sym == s && after == b[L[s]..]
  }

  /** What has been read is within the format so far, or left it. */
  datatype Course = Within | Astray(way: Way)

  ghost function Next(c: Course, fine: bool, way: Way): (d: Course) {
    if c.Within? && !fine then Astray(way) else c
  }

  class Source {
    const r: Reader
    var chunks: seq<seq<Byte>>
    ghost const whole: seq<Byte>
    ghost var course: Course   // how the bits read so far left the format, if they did

    ghost predicate Valid()
      reads this, r
    {
      r.Valid() && Supplied(r.fed, r.more, chunks, whole)
    }

    /** Between two reads: no suspended decoding. */
    ghost predicate Idle()
      reads this, r
    {
      Valid() && !r.inFill
    }

    /** The bits of the whole input that have not been read. */
    ghost function Left(): (b: seq<bool>)
      reads this, r
    {
      Unread(whole, |r.consumed|)
    }

    constructor (pieces: seq<seq<Byte>>)
      ensures Idle() && whole == Flatten(pieces) && Left() == BytesToBits(whole) && fresh(r)
      ensures r.consumed == [] && course.Within?
    {
      r := new Reader();
      chunks := pieces;
      whole := Flatten(pieces);
      course := Within;
    }

    /** Supplies the next piece; the last one is marked as such. */
    method Supply()
      requires Valid() && r.more && r.pos == |r.input|
      modifies this, r
      ensures Valid() && r.consumed == old(r.consumed) && r.inFill == old(r.inFill) && r.numBits == old(r.numBits)
        && r.bitBuf == old(r.bitBuf)
      ensures |chunks| + (if r.more then 1 else 0) < |old(chunks)| + 1 && old(r.fed) <= r.fed && course == old(course)
    {
      if chunks == [] {
        r.Feed([], false);
        assert old(r.fed) + [] == old(r.fed);
      } else {
        var c := chunks[0];
        chunks := chunks[1..];
        Assoc(r.fed, c, Flatten(chunks));
        r.Feed(c, chunks != []);
        assert Flatten([]) == [] && r.fed + [] == r.fed;
      }
    }

    /** One attempt to decode a symbol with the input at hand. */
    method Attempt(ghost L: seq<nat>, table: Table) returns (o: Outcome)
      requires Valid() && table.Holds(L, |L|, |L|) && this as object != r
      requires r.inFill ==> r.numBits < MAX_LEN && Unsettled(L, ToBits(r.bitBuf, r.numBits))
      modifies r
      ensures Valid() && r.inFill == o.NeedInput? && r.more == old(r.more) && old(r.fed) <= r.fed
      ensures old(r.consumed) <= r.consumed
      ensures o.NeedInput? ==> r.more && r.pos == |r.input| && r.consumed == old(r.consumed)
      ensures o.NeedInput? ==> r.numBits < MAX_LEN && Unsettled(L, ToBits(r.bitBuf, r.numBits))
      ensures o.Got? ==> Finds(L, Ahead(old(r.consumed), r.fed), o.value, old(r.consumed), r.consumed)
      ensures o.Got? && NoSymbols(L) ==> o.value == 0 && r.consumed == old(r.consumed)
    {
      hide Supplied, Unsettled, MatchAfter, Whole;
      o := r.HuffDecode(L, table);
      PadStill(old(r.fed), r.fed, r.more, chunks, whole);
    }

    /** The next symbol, however the input is split. If the bits spell none, the format is left by way of `way`. */
    method NextSymbol(ghost L: seq<nat>, table: Table, ghost way: Way) returns (sym: nat)
      requires Idle() && table.Holds(L, |L|, |L|) && this as object != r
      requires this as object !in {table as object, table.lookup, table.tree}
        && r as object !in {table as object, table.lookup, table.tree}
      modifies this, r
      ensures Idle()
      ensures Reads(L, old(Left()), sym, Left())
      ensures course == Next(old(course), Spelled(L, sym, old(r.consumed), r.consumed), way)
      ensures old(r.fed) <= r.fed && old(r.consumed) <= BytesToBits(r.fed) && old(r.consumed) <= r.consumed
      ensures !Spelled(L, sym, old(r.consumed), r.consumed) ==> NoSymbolAhead(L, Ahead(old(r.consumed), r.fed))
      ensures NoSymbols(L) ==> sym == 0 && r.consumed == old(r.consumed)
    {
      hide Supplied, BytesToBits, Unsettled, Finds, Reads, Whole, Inv, Spelled, Match;
      ghost var was := r.consumed;
      r.Delivered();
      var o := Attempt(L, table);
      while o.NeedInput?
        invariant Valid() && r.inFill == o.NeedInput? && old(r.fed) <= r.fed && was <= r.consumed
          && table.Holds(L, |L|, |L|)
        invariant o.NeedInput? ==> r.more && r.pos == |r.input| && r.consumed == was
        invariant o.NeedInput? ==> r.numBits < MAX_LEN && Unsettled(L, ToBits(r.bitBuf, r.numBits))
        invariant o.Got? ==> Finds(L, Ahead(was, r.fed), o.value, was, r.consumed)
        invariant o.Got? && NoSymbols(L) ==> o.value == 0 && r.consumed == was
        invariant course == old(course)
        decreases |chunks| + (if r.more then 1 else 0)
      {
        Supply();
        o := Attempt(L, table);
      }
      sym := o.value;
      r.Delivered();
      BytesPrefix(old(r.fed), r.fed);
      SymbolReads(L, sym, was);
      if !Spelled(L, sym, was, r.consumed) { NotSpelled(L, Ahead(was, r.fed), sym, was, r.consumed); }
      course := Next(course, Spelled(L, sym, was, r.consumed), way);
    }

    lemma {:induction false} SymbolReads(L: seq<nat>, sym: nat, was: seq<bool>)
      requires Valid() && r.consumed <= BytesToBits(r.fed) && was <= BytesToBits(r.fed)
        && Finds(L, Ahead(was, r.fed), sym, was, r.consumed)
      ensures Reads(L, Unread(whole, |was|), sym, Left())
    {
      hide Supplied, BytesToBits, Finds;
      forall s: nat | Match(L, s, Unread(whole, |was|)) ensures sym == s && Left() == Unread(whole, |was|)[L[s]..] {
        SymbolRead(L, s, sym, was);
      }
    }

    lemma {:induction false} SymbolRead(L: seq<nat>, s: nat, sym: nat, was: seq<bool>)
      requires Valid() && Match(L, s, Unread(whole, |was|)) && r.consumed <= BytesToBits(r.fed)
        && was <= BytesToBits(r.fed)
      requires Finds(L, Ahead(was, r.fed), sym, was, r.consumed)
      ensures sym == s && L[s] <= |Unread(whole, |was|)| && Left() == Unread(whole, |was|)[L[s]..]
    {
      hide Supplied, BytesToBits, Match, MatchAfter;
      SameSymbol(r.fed, r.more, chunks, whole, was, L, s);
      MatchSize(L, s, Unread(whole, |was|));
      Read(r.fed, r.more, chunks, whole, was, SymBits(L, s));
    }

    /** The refill of the fast loop: at least thirty bits, enough for two symbols. */
    method FastRefill()
      requires Idle() && this as object != r && |r.input| - r.pos >= 4
      modifies r
      ensures Idle() && Left() == old(Left()) && r.numBits >= 30 && r.consumed == old(r.consumed)
      ensures r.fed == old(r.fed)
    {
      hide Supplied, Whole, Unread;
      if r.numBits < 30 { r.PullFour(); }
    }

    /** The next symbol, from the bit buffer alone. */
    method FastSymbol(ghost L: seq<nat>, table: Table, ghost way: Way) returns (sym: nat)
      requires Idle() && table.Holds(L, |L|, |L|) && this as object != r && r.numBits >= MAX_LEN
      requires r as object !in {table as object, table.lookup, table.tree}
      modifies this`course, r
      ensures Idle() && Reads(L, old(Left()), sym, Left()) && r.numBits + MAX_LEN >= old(r.numBits)
      ensures course == Next(old(course), Spelled(L, sym, old(r.consumed), r.consumed), way)
      ensures r.fed == old(r.fed) && old(r.consumed) <= BytesToBits(r.fed) && old(r.consumed) <= r.consumed
      ensures !Spelled(L, sym, old(r.consumed), r.consumed) ==> NoSymbolAhead(L, Ahead(old(r.consumed), r.fed))
      ensures NoSymbols(L) ==> sym == 0 && r.consumed == old(r.consumed)
    {
      hide Supplied, BytesToBits, Reads, Whole, Inv, MatchAfter, Spelled, Match;
      ghost var was := r.consumed;
      r.Delivered();
      sym := r.FastDecode(L, table);
      assert Finds(L, Ahead(was, r.fed), sym, was, r.consumed);
      r.Delivered();
      SymbolReads(L, sym, was);
      if !Spelled(L, sym, was, r.consumed) { NotSpelled(L, Ahead(was, r.fed), sym, was, r.consumed); }
      course := Next(course, Spelled(L, sym, was, r.consumed), way);
    }

    /** An `n`-bit field, however the input is split. */
    method NextBits(n: nat) returns (v: nat)
      requires Idle() && n <= 16 && this as object != r
      modifies this, r
      ensures Idle() && v < Pow2(n) && r.consumed == old(r.consumed) + ToBits(v, n) && course == old(course)
      ensures old(r.fed) <= r.fed
      ensures n <= |old(Left())| ==> ToBits(v, n) == old(Left())[..n] && Left() == old(Left())[n..]
    {
      hide Supplied, BytesToBits, Whole, ToBits, Pow2;
      ghost var was := r.consumed;
      r.Delivered();
      var o := r.GetBits(n);
      PadStill(old(r.fed), r.fed, r.more, chunks, whole);
      while o.NeedInput?
        invariant Idle() && course == old(course) && old(r.fed) <= r.fed
        invariant o.NeedInput? ==> r.more && r.pos == |r.input| && r.consumed == was
        invariant o.Got? ==> o.value < Pow2(n) && r.consumed == was + ToBits(o.value, n)
        decreases |chunks| + (if r.more then 1 else 0)
      {
        Supply();
        ghost var fed := r.fed;
        o := r.GetBits(n);
        PadStill(fed, r.fed, r.more, chunks, whole);
      }
      v := o.value;
      r.Delivered();
      if n <= |old(Left())| && n > 0 {
        UnreadSize(whole, |was|);
        Read(r.fed, r.more, chunks, whole, was, ToBits(v, n));
      } else {
        NoBitsRead(was, ToBits(v, n));
      }
    }

    /** Skips to the next byte boundary. */
    method Align()
      requires Idle() && this as object != r
      modifies r
      ensures Idle() && Left() == Skip(old(Left()))
      ensures old(r.consumed) <= r.consumed && |r.consumed| < |old(r.consumed)| + 8 && Aligned(|r.consumed|)
      ensures r.fed == old(r.fed)
    {
      hide Supplied, BytesToBits, Whole, ToBits, Unread, Aligned, Skip;
      ghost var was := r.consumed;
      r.Delivered();
      var k := r.numBits % 8;
      ghost var x := ToBits(r.bitBuf, k);
      r.Drop(k);
      r.Delivered();
      Skipped(r.fed, r.more, chunks, whole, was, old(r.numBits), |r.input| - r.pos, x);
      SkippedTo(|was|, old(r.numBits), |r.input| - r.pos, |r.fed|);
    }

    /** Whole bytes of the piece at hand, when no bits are buffered. */
    method NextBytes(n: nat) returns (bytes: seq<Byte>)
      requires Idle() && this as object != r && r.numBits == 0 && n <= |r.input| - r.pos
      modifies r
      ensures Idle() && |bytes| == n && r.numBits == 0 && r.consumed == old(r.consumed) + BytesToBits(bytes)
      ensures r.fed == old(r.fed)
      ensures 8 * n <= |old(Left())| ==> old(Left())[..8 * n] == BytesToBits(bytes) && Left() == old(Left())[8 * n..]
    {
      hide Supplied, BytesToBits, Whole, Unread;
      ghost var was := r.consumed;
      UnreadSize(whole, |was|);
      bytes := r.TakeBytes(n);
      r.Delivered();
      ghost var x := BytesToBits(bytes);
      if 8 * n <= |Unread(whole, |was|)| && n > 0 {
        Read(r.fed, r.more, chunks, whole, was, x);
      } else {
        NoBitsRead(was, x);
      }
    }

    /** What has been read is the input, followed by zero bytes where it goes on past the end. */
    lemma {:induction false} FromInput()
      requires Valid()
      ensures exists pad: seq<Byte> :: AllZero(pad) && r.consumed <= BytesToBits(whole + pad)
    {
      hide AllZero, BytesToBits, Whole;
      r.Delivered();
      var pad := Padding(r.fed, r.more, chunks, whole);
    }

    /** When no bits are buffered and the last piece is used up, nothing is left. */
    lemma {:induction false} UsedUp()
      requires Valid() && r.numBits == 0 && r.pos == |r.input| && !r.more
      ensures Left() == []
    {
      r.Delivered();
      UnreadSize(whole, |r.consumed|);
    }
  }

  ghost predicate AllZero(pad: seq<Byte>) {
    forall i :: 0 <= i < |pad| ==> pad[i] == 0
  }

  lemma {:induction false} Padding(fed: seq<Byte>, more: bool, chunks: seq<seq<Byte>>, whole: seq<Byte>)
    returns (pad: seq<Byte>)
    requires Supplied(fed, more, chunks, whole)
    ensures AllZero(pad) && fed <= whole + pad && BytesToBits(fed) <= BytesToBits(whole + pad)
  {
    hide BytesToBits;
    pad := if more then [] else fed[|whole|..];
    if more {
      assert whole + pad == whole == fed + Flatten(chunks);
      BytesPrefix(fed, whole);
    } else {
      assert whole + pad == fed;
    }
  }

  lemma {:induction false} UnreadSize(whole: seq<Byte>, n: nat)
    ensures |Unread(whole, n)| == if n <= 8 * |whole| then 8 * |whole| - n else 0
  {
  }

  lemma {:induction false} NoBitsRead(was: seq<bool>, x: seq<bool>)
    ensures |x| == 0 ==> was + x == was
  {
  }

  lemma {:induction false} SkippedTo(consumed: nat, numBits: nat, rest: nat, fed: nat)
    requires consumed + numBits + 8 * rest == 8 * fed
    ensures Aligned(consumed + numBits % 8)
  {
    assert consumed + numBits % 8 == 8 * (fed - rest - numBits / 8);
  }

  lemma {:induction false} SkipCount(consumed: nat, numBits: nat, rest: nat, fed: nat, whole: seq<Byte>)
    requires consumed + numBits + 8 * rest == 8 * fed && consumed <= 8 * |whole|
    ensures numBits % 8 == |Unread(whole, consumed)| % 8 && consumed + numBits % 8 <= 8 * |whole|
  {
    hide Unread;
    UnreadSize(whole, consumed);
    Mod8(8 * |whole| - consumed, numBits, |whole| - (fed - rest));
  }

  lemma {:induction false} Skipped(fed: seq<Byte>, more: bool, chunks: seq<seq<Byte>>, whole: seq<Byte>, was: seq<bool>,
      numBits: nat, rest: nat, x: seq<bool>)
    requires Supplied(fed, more, chunks, whole) && was + x <= BytesToBits(fed)
      && |was| + numBits + 8 * rest == 8 * |fed| && |x| == numBits % 8
    ensures Unread(whole, |was + x|) == Skip(Unread(whole, |was|))
  {
    hide Supplied, BytesToBits, Unread;
    if |was| <= 8 * |whole| {
      SkipCount(|was|, numBits, rest, |fed|, whole);
      Read(fed, more, chunks, whole, was, x);
    } else {
      UnreadSize(whole, |was|);
      UnreadSize(whole, |was + x|);
    }
  }

  lemma {:induction false} Mod8(a: nat, b: nat, k: int)
    requires a - b == 8 * k
    ensures a % 8 == b % 8 <= a
  {
  }

  lemma {:induction false} PadStill(fed: seq<Byte>, fed': seq<Byte>, more: bool, chunks: seq<seq<Byte>>,
      whole: seq<Byte>)
    requires Supplied(fed, more, chunks, whole) && ZeroPadded(fed, fed') && (more ==> fed' == fed)
    ensures Supplied(fed', more, chunks, whole)
  {
  }

  /** A symbol read with the trimmed alphabet is the symbol of the full one. */
  lemma {:induction false} TrimReads(M: seq<nat>, L: seq<nat>, b: seq<bool>, sym: nat, after: seq<bool>)
    requires Trims(M, L) && Reads(M, b, sym, after) && DecodeSym(L, b) >= 0
    ensures sym == DecodeSym(L, b) < |L| && L[sym] <= |b| && after == b[L[sym]..]
  {
    var s := DecodeSym(L, b);
    TrimMatch(M, L, s, b);
    hide Trims, PathOf, SymId;
    assert Match(M, s, b);
  }
}
