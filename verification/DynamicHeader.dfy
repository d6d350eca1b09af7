/** Choosing and writing the header of a dynamic block. */
module DynamicHeader {
  import opened Bits
  import opened Canonical
  import opened CodeBuilder
  import opened CodeCost
  import opened LzTokens
  import opened Blocks
  import opened BitWriter
  import opened Emitter
  import CodeLens
  import LzBuffer

  // ---- Symbol counts ----

  ghost function Counts0(ts: seq<Token>, n: nat): (c: seq<nat>)
    requires n <= |ts| && LzBuffer.AllOk(ts)
    ensures |c| == 288 && forall s: nat :: s < 288 ==> c[s] == LzBuffer.Uses0(ts, n, s)
  {
    seq(288, s requires s >= 0 => LzBuffer.Uses0(ts, n, s))
  }

  ghost function Counts1(ts: seq<Token>, n: nat): (c: seq<nat>)
    requires n <= |ts| && LzBuffer.AllOk(ts)
    ensures |c| == 32 && forall s: nat :: s < 32 ==> c[s] == LzBuffer.Uses1(ts, n, s)
  {
    seq(32, s requires s >= 0 => LzBuffer.Uses1(ts, n, s))
  }

  lemma {:induction false} Total0(ts: seq<Token>, n: nat)
    requires n <= |ts| && LzBuffer.AllOk(ts)
    ensures Total(Counts0(ts, n), 288) == n
  {
    var c := Counts0(ts, n);
    if n == 0 {
      TotalNone(c, 288);
    } else {
      Total0(ts, n - 1);
      var d, p := Counts0(ts, n - 1), LzBuffer.Sym0(ts[n - 1]);
      hide Counts0;
      assert c == d[p := d[p] + 1];
      TotalInc(d, p, 288, 1);
    }
  }

  lemma {:induction false} Total1(ts: seq<Token>, n: nat)
    requires n <= |ts| && LzBuffer.AllOk(ts)
    ensures Total(Counts1(ts, n), 32) <= n
  {
    var c := Counts1(ts, n);
    if n == 0 {
      TotalNone(c, 32);
    } else {
      Total1(ts, n - 1);
      var d := Counts1(ts, n - 1);
      hide Counts1;
      if ts[n - 1].Match? {
        DistRoundTrip(ts[n - 1].dist - 1);
        var p := DistSym(ts[n - 1].dist - 1);
        hide DistSym;
        assert c == d[p := d[p] + 1];
        TotalInc(d, p, 32, 1);
      } else {
        assert c == d;
      }
    }
  }

  /** A token's symbols are counted, and the symbols no token has are not. */
  lemma {:induction false} UsesSym(ts: seq<Token>, n: nat, i: nat)
    requires n <= |ts| && LzBuffer.AllOk(ts) && i < n
    ensures LzBuffer.Uses0(ts, n, LzBuffer.Sym0(ts[i])) > 0
    ensures ts[i].Match? ==> LzBuffer.Uses1(ts, n, DistSym(ts[i].dist - 1)) > 0
  {
    hide LzBuffer.Sym0, DistSym;
    if i < n - 1 { UsesSym(ts, n - 1, i); }
  }

  lemma {:induction false} UsesNone(ts: seq<Token>, n: nat, s: nat)
    requires n <= |ts| && LzBuffer.AllOk(ts)
    ensures s == 256 || s >= 286 ==> LzBuffer.Uses0(ts, n, s) == 0
    ensures s >= 30 ==> LzBuffer.Uses1(ts, n, s) == 0
  {
    if n > 0 {
      UsesNone(ts, n - 1, s);
      if ts[n - 1].Match? {
        LenRoundTrip(ts[n - 1].len - 3);
        DistRoundTrip(ts[n - 1].dist - 1);
      }
      hide LenSym, DistSym;
    }
  }

  /** The buffer cannot hold so many tokens that a 16-bit count could overflow. */
  lemma {:induction false} TokensFit(buf: seq<Byte>, ts: seq<Token>, g: nat, code: nat)
    requires LzBuffer.Sealed(buf, ts, g, code)
    ensures |ts| <= 58255
  {
    hide LzBuffer.Groups, LzBuffer.Payloads, LzBuffer.Flags;
    GroupsLong(ts, g);
    PayloadsLong(ts, 8 * g, |ts|);
    assert |buf[..code]| == code;
  }

  lemma {:induction false} PayloadsLong(ts: seq<Token>, i: nat, j: nat)
    requires i <= j <= |ts| && LzBuffer.AllOk(ts)
    ensures |LzBuffer.Payloads(ts, i, j)| >= j - i
    decreases j
  {
    if i < j { PayloadsLong(ts, i, j - 1); LzBuffer.PayloadSize(ts[j - 1]); }
  }

  lemma {:induction false} GroupsLong(ts: seq<Token>, g: nat)
    requires LzBuffer.AllOk(ts) && 8 * g <= |ts|
    ensures |LzBuffer.Groups(ts, g)| >= 9 * g
  {
    hide LzBuffer.Payloads, LzBuffer.Flags;
    if g > 0 { GroupsLong(ts, g - 1); PayloadsLong(ts, 8 * (g - 1), 8 * g); }
  }

  lemma {:induction false} ItemsTotal(items: seq<CodeLens.Item>, c: seq<nat>)
    requires |c| == 19 && forall s: nat :: s < 19 ==> c[s] == CodeLens.Uses(items, s)
    requires forall i :: 0 <= i < |items| ==> CodeLens.Fine(items[i])
    ensures Total(c, 19) == |items|
  {
    if items == [] {
      TotalNone(c, 19);
    } else {
      var r, x := items[..|items| - 1], items[|items| - 1];
      CodeLens.SymbolBound(x);
      var p := CodeLens.Symbol(x);
      hide CodeLens.Symbol, CodeLens.Fine;
      var d := c[p := c[p] - 1];
      ItemsTotal(r, d);
      assert d[p := d[p] + 1] == c;
      TotalInc(d, p, 19, 1);
    }
  }

  lemma {:induction false} ItemUsed(items: seq<CodeLens.Item>, i: nat)
    requires i < |items|
    ensures CodeLens.Uses(items, CodeLens.Symbol(items[i])) > 0
    decreases |items|
  {
    hide CodeLens.Symbol;
    if i < |items| - 1 { ItemUsed(items[..|items| - 1], i); }
  }

  lemma {:induction false} ItemsShort(items: seq<CodeLens.Item>)
    ensures |items| <= |CodeLens.Flat(items)|
  {
    hide CodeLens.Packed;
    if items != [] { ItemsShort(items[..|items| - 1]); }
  }

  // ---- The two codes of a block ----

  /**
   * The codes a dynamic block uses: they can write every token and the end of the block, and nothing beyond the
   * alphabets.
   */
  ghost predicate BlockCodes(L0: seq<nat>, c0: seq<nat>, L1: seq<nat>, c1: seq<nat>, ts: seq<Token>) {
    && AllWritable(L0, L1, ts) && CodesOf(L0, c0) && CodesOf(L1, c1) && Accepted(L0) && Accepted(L1)
    && (forall s :: 286 <= s < 288 ==> L0[s] == 0) && (forall s :: 30 <= s < 32 ==> L1[s] == 0)
  }

  lemma {:induction false} CodeForCodes(counts: seq<nat>, limit: nat, L: seq<nat>, codes: seq<nat>)
    requires CodeFor(counts, limit, L, codes)
    ensures CodesOf(L, codes) && Accepted(L) && |L| == |counts| && forall s :: 0 <= s < |L| ==>
      (L[s] > 0 <==> counts[s] > 0) && L[s] <= limit
  {
    hide Rev, Code, NextCode;
    AcceptedFits(L);
  }

  lemma {:induction false} TokensWritable(C0: seq<nat>, C1: seq<nat>, L0: seq<nat>, L1: seq<nat>, ts: seq<Token>)
    requires LzBuffer.Counted(C0, C1, ts) && |L0| == 288 && |L1| == 32
    requires forall s :: 0 <= s < 288 ==> (L0[s] > 0 <==> C0[s] > 0 || s == 256)
    requires forall s :: 0 <= s < 32 ==> (L1[s] > 0 <==> C1[s] > 0)
    ensures AllWritable(L0, L1, ts)
    ensures (forall s :: 286 <= s < 288 ==> L0[s] == 0) && (forall s :: 30 <= s < 32 ==> L1[s] == 0)
  {
    forall i | 0 <= i < |ts| ensures Writable(L0, L1, ts[i]) { OneWritable(C0, C1, L0, L1, ts, i); }
    forall s | 286 <= s < 288 ensures L0[s] == 0 { UsesNone(ts, |ts|, s); }
    forall s | 30 <= s < 32 ensures L1[s] == 0 { UsesNone(ts, |ts|, s); }
  }

  lemma {:induction false} OneWritable(C0: seq<nat>, C1: seq<nat>, L0: seq<nat>, L1: seq<nat>, ts: seq<Token>, i: nat)
    requires LzBuffer.Counted(C0, C1, ts) && |L0| == 288 && |L1| == 32 && i < |ts|
    requires forall s :: 0 <= s < 288 ==> (L0[s] > 0 <==> C0[s] > 0 || s == 256)
    requires forall s :: 0 <= s < 32 ==> (L1[s] > 0 <==> C1[s] > 0)
    ensures Writable(L0, L1, ts[i])
  {
    hide LzBuffer.Uses0, LzBuffer.Uses1, LenSym, DistSym;
    UsesSym(ts, |ts|, i);
    if ts[i].Match? {
      LenRoundTrip(ts[i].len - 3);
      DistRoundTrip(ts[i].dist - 1);
    }
  }

  lemma {:induction false} CountTotals(C0: seq<nat>, C1: seq<nat>, ts: seq<Token>)
    requires LzBuffer.Counted(C0, C1, ts) && |ts| <= 58255
    ensures C0[256] == 0 && Total(C0[256 := 1], 288) == |ts| + 1 < 65536 && Total(C1, 32) <= |ts|
  {
    Total0(ts, |ts|);
    Total1(ts, |ts|);
    UsesNone(ts, |ts|, 256);
    hide Counts0, Counts1, LzBuffer.Uses0, LzBuffer.Uses1;
    assert C0 == Counts0(ts, |ts|) && C1 == Counts1(ts, |ts|);
    TotalInc(C0, 256, 288, 1);
  }

  /** Nearly optimal codes for the block's symbols and the end of the block. */
  method BuildCodes(count0: array<nat>, count1: array<nat>, ghost ts: seq<Token>)
    returns (L0: seq<nat>, c0: seq<nat>, L1: seq<nat>, c1: seq<nat>)
    requires count0 != count1 && count0.Length == 288 && count1.Length == 32
    requires LzBuffer.Counted(count0[..], count1[..], ts) && |ts| <= 58255
    modifies count0
    ensures BlockCodes(L0, c0, L1, c1, ts)
    ensures NearlyMinimal(old(count0[..])[256 := 1], L0) && NearlyMinimal(old(count1[..]), L1)
  {
    hide LzBuffer.Counted, CodeFor, Total, AllWritable, CodesOf, Accepted, NearlyMinimal;
    ghost var C0, C1 := count0[..], count1[..];
    CountTotals(C0, C1, ts);
    count0[256] := 1;
    ghost var C0' := count0[..];
    assert C0' == C0[256 := 1];
    Pow2Values();
    var sizes, codes := new nat[288], new nat[288];
    OptimizeTable(count0, sizes, codes, 15);
    L0, c0 := sizes[..], codes[..];
    assert count0[..] == C0' && count1[..] == C1;
    CodeForCodes(C0', 15, L0, c0);
    sizes, codes := new nat[32], new nat[32];
    OptimizeTable(count1, sizes, codes, 15);
    L1, c1 := sizes[..], codes[..];
    assert count1[..] == C1;
    CodeForCodes(C1, 15, L1, c1);
    TokensWritable(C0, C1, L0, L1, ts);
  }

  /** Drops unused symbols from the end, down to `min`. */
  method TrimEnd(L: seq<nat>, top: nat, min: nat) returns (n: nat)
    requires min <= top <= |L| && forall s :: top <= s < |L| ==> L[s] == 0
    ensures min <= n <= top && (forall s :: n <= s < |L| ==> L[s] == 0) && (n == min || L[n - 1] != 0)
  {
    n := top;
    while n > min && L[n - 1] == 0
      invariant min <= n <= top && forall s :: n <= s < |L| ==> L[s] == 0
    {
      n := n - 1;
    }
  }

  // ---- The code for the code lengths ----

  lemma {:induction false} PackedEncodable(items: seq<CodeLens.Item>, counts: seq<nat>, L2: seq<nat>)
    requires CodeLens.Sound(items) && |counts| == 19 == |L2| && forall c: nat :: c < 19 ==>
      counts[c] == CodeLens.Uses(items, c)
    requires Accepted(L2) && forall s :: 0 <= s < 19 ==> (L2[s] > 0 <==> counts[s] > 0)
    ensures CodeLens.Encodable(L2, items)
  {
    AcceptedFits(L2);
    hide CodeLens.Uses, Accepted, Fits;
    forall i | 0 <= i < |items| ensures CodeLens.Symbol(items[i]) < 19 && L2[CodeLens.Symbol(items[i])] > 0 {
      CodeLens.SymbolBound(items[i]);
      ItemUsed(items, i);
    }
  }

  lemma {:induction false} SoundFines(items: seq<CodeLens.Item>)
    requires CodeLens.Sound(items)
    ensures forall i :: 0 <= i < |items| ==> CodeLens.Fine(items[i])
  {
  }

  /** Packs the lengths and builds the code that sends them. */
  method PackLengths(lens: seq<nat>) returns (packed: seq<nat>, L2: seq<nat>, c2: seq<nat>,
      ghost items: seq<CodeLens.Item>)
    requires |lens| <= 320 && forall i :: 0 <= i < |lens| ==> lens[i] <= 15
    ensures CodeLens.Expand(items) == lens && packed == CodeLens.Flat(items) && |packed| <= |lens|
    ensures CodesOf(L2, c2) && CodeLens.Encodable(L2, items) && Accepted(L2) && forall c :: 0 <= c < 19 ==> L2[c] <= 7
  {
    hide CodeFor, Total, CodesOf, Accepted, CodeLens.Packing, CodeLens.Stored, CodeLens.Sound, CodeLens.Uses,
      CodeLens.Flat, CodeLens.Expand;
    var p := new CodeLens.Packer();
    p.Pack(lens);
    items := p.items;
    packed := p.packed[..p.n];
    ghost var C := p.counts[..];
    SoundFines(items);
    ItemsTotal(items, C);
    ItemsShort(items);
    assert Pow2(7) == 128;
    var sizes, codes := new nat[19], new nat[19];
    OptimizeTable(p.counts, sizes, codes, 7);
    L2, c2 := sizes[..], codes[..];
    assert p.counts[..] == C;
    CodeForCodes(C, 7, L2, c2);
    PackedEncodable(items, C, L2);
  }

  /** How many lengths of the code-length code are sent: up to the last one in use, and at least four. */
  method SizesToSend(L2: seq<nat>) returns (nb: nat)
    requires |L2| == 19
    ensures 4 <= nb <= 19 && forall k: nat :: nb <= k < 19 ==> L2[Swizzle(k)] == 0
  {
    hide Swizzle;
    var n := 18;
    while n >= 0 && L2[Swizzle(n)] == 0
      invariant -1 <= n <= 18 && forall k: nat :: n < k < 19 ==> L2[Swizzle(k)] == 0
    {
      n := n - 1;
    }
    nb := if n + 1 < 4 then 4 else n + 1;
  }

  // ---- Writing it ----

  method PutSizes(w: Writer, L2: seq<nat>, nb: nat)
    requires w.Valid() && |L2| == 19 && nb <= 19 && forall c :: 0 <= c < 19 ==> L2[c] <= 7
    modifies w`pos, w`bitBuf, w`bitsIn, w`bits, w.out
    ensures w.Valid() && w.bits == old(w.bits) + SizesBits(L2, nb, 0)
    ensures w.pos >= old(w.pos) && w.out[..old(w.pos)] == old(w.out[..w.pos])
  {
    hide Kept, Swizzle, ToBits;
    assert Pow2(3) == 8;
    ghost var b0, pos0, o0 := w.bits, w.pos, w.out[..w.pos];
    var i := 0;
    while i < nb
      invariant 0 <= i <= nb && w.Valid() && w.bits + SizesBits(L2, nb, i) == b0 + SizesBits(L2, nb, 0)
      invariant pos0 <= w.pos && w.out[..pos0] == o0
    {
      Assoc(w.bits, ToBits(L2[Swizzle(i)], 3), SizesBits(L2, nb, i + 1));
      ghost var o1 := w.out[..w.pos];
      w.PutBits(L2[Swizzle(i)], 3);
      assert w.out[..pos0] == o1[..pos0];
      i := i + 1;
    }
  }

  /** Item `k` starts at position `j` of the packed bytes. */
  ghost predicate ItemAt(packed: seq<nat>, items: seq<CodeLens.Item>, k: nat, j: nat) {
    k <= |items| && packed == CodeLens.Flat(items) && CodeLens.Flat(items[..k]) <= packed
      && j == |CodeLens.Flat(items[..k])|
  }

  lemma {:induction false} FlatPrefix(items: seq<CodeLens.Item>, k: nat)
    requires k <= |items|
    ensures CodeLens.Flat(items[..k]) <= CodeLens.Flat(items)
    ensures k < |items| ==> CodeLens.Flat(items[..k]) + CodeLens.Packed(items[k]) <= CodeLens.Flat(items)
    decreases |items| - k
  {
    hide CodeLens.Packed;
    if k == |items| {
      assert items[..k] == items;
    } else {
      FlatPrefix(items, k + 1);
      assert items[..k + 1] == items[..k] + [items[k]];
      CodeLens.Push(items[..k], items[k]);
    }
  }

  lemma {:induction false} ItemStart(items: seq<CodeLens.Item>)
    ensures ItemAt(CodeLens.Flat(items), items, 0, 0)
  {
    assert items[..0] == [];
  }

  lemma {:induction false} ItemRead(packed: seq<nat>, items: seq<CodeLens.Item>, k: nat, j: nat)
    requires ItemAt(packed, items, k, j)
    ensures j <= |packed| && (j < |packed| <==> k < |items|)
    ensures k < |items| ==>
      && j + |CodeLens.Packed(items[k])| <= |packed|
      && packed[j..j + |CodeLens.Packed(items[k])|] == CodeLens.Packed(items[k])
    ensures k < |items| ==> ItemAt(packed, items, k + 1, j + |CodeLens.Packed(items[k])|)
  {
    hide CodeLens.Packed, CodeLens.Flat;
    FlatPrefix(items, k);
    if k < |items| {
      var x := CodeLens.Packed(items[k]);
      assert packed[j..j + |x|] == (CodeLens.Flat(items[..k]) + x)[j..j + |x|];
      assert items[..k + 1] == items[..k] + [items[k]];
      CodeLens.Push(items[..k], items[k]);
      FlatPrefix(items, k + 1);
    } else {
      assert items[..k] == items;
    }
  }

  lemma {:induction false} ItemValue(x: CodeLens.Item)
    requires CodeLens.Fine(x)
    ensures CodeLens.Packed(x)[0] == CodeLens.Symbol(x) < 19
    ensures |CodeLens.Packed(x)| == (if CodeLens.Symbol(x) >= 16 then 2 else 1)
    ensures CodeLens.Symbol(x) >= 16 ==> CodeLens.Packed(x)[1] == CodeLens.Extra(x)
    ensures CodeLens.Extra(x) < Pow2(CodeLens.ExtraBits(CodeLens.Symbol(x)))
      && CodeLens.ExtraBits(CodeLens.Symbol(x)) <= 7
    ensures CodeLens.Symbol(x) < 16 ==> CodeLens.ExtraBits(CodeLens.Symbol(x)) == 0 && CodeLens.Extra(x) == 0
  {
    assert Pow2(2) == 4 && Pow2(3) == 8 && Pow2(7) == 128 && Pow2(0) == 1;
  }

  /** One item: its symbol, then its extra bits if it is a run. */
  method PutItem(w: Writer, L2: seq<nat>, c2: seq<nat>, packed: seq<nat>, j: nat, ghost x: CodeLens.Item)
      returns (j': nat)
    requires w.Valid() && CodesOf(L2, c2) && |L2| == 19 && CodeLens.Fine(x) && CodeLens.Symbol(x) < 19
      && L2[CodeLens.Symbol(x)] > 0
    requires j + |CodeLens.Packed(x)| <= |packed| && packed[j..j + |CodeLens.Packed(x)|] == CodeLens.Packed(x)
    modifies w`pos, w`bitBuf, w`bitsIn, w`bits, w.out
    ensures w.Valid() && w.bits == old(w.bits) + CodeLens.ItemBits(L2, x) && j' == j + |CodeLens.Packed(x)|
    ensures w.pos >= old(w.pos) && w.out[..old(w.pos)] == old(w.out[..w.pos])
  {
    hide Kept, CodesOf, SymBits, ToBits, CodeLens.Packed, CodeLens.Symbol, CodeLens.Extra, CodeLens.Fine;
    ItemValue(x);
    ghost var c, e := CodeLens.Symbol(x), CodeLens.Extra(x);
    ghost var n := CodeLens.ExtraBits(c);
    assert packed[j] == CodeLens.Packed(x)[0];
    ghost var b0, p0 := w.bits, w.pos;
    PutSym(w, L2, c2, packed[j]);
    j' := j + 1;
    if packed[j] >= 16 {
      assert packed[j + 1] == CodeLens.Packed(x)[1];
      ghost var o1 := w.out[..w.pos];
      w.PutBits(packed[j + 1], CodeLens.ExtraBits(packed[j]));
      assert w.out[..p0] == o1[..p0];
      j' := j + 2;
      Assoc(b0, SymBits(L2, c), ToBits(e, n));
    } else {
      NoBits(e);
      assert SymBits(L2, c) + [] == SymBits(L2, c);
    }
  }

  lemma {:induction false} ItemsStep(b: seq<bool>, L2: seq<nat>, items: seq<CodeLens.Item>, k: nat)
    requires CodeLens.Encodable(L2, items) && k < |items|
    ensures CodeLens.Fine(items[k]) && CodeLens.Symbol(items[k]) < 19 && L2[CodeLens.Symbol(items[k])] > 0
    ensures b + CodeLens.ItemBits(L2, items[k]) + CodeLens.ItemsBits(L2, items, k + 1)
      == b + CodeLens.ItemsBits(L2, items, k)
  {
    CodeLens.SoundFine(items, k);
    hide CodeLens.ItemBits, CodeLens.Sound, Fits;
    Assoc(b, CodeLens.ItemBits(L2, items[k]), CodeLens.ItemsBits(L2, items, k + 1));
  }

  method PutItems(w: Writer, L2: seq<nat>, c2: seq<nat>, packed: seq<nat>, ghost items: seq<CodeLens.Item>)
    requires w.Valid() && CodesOf(L2, c2) && CodeLens.Encodable(L2, items) && packed == CodeLens.Flat(items)
    modifies w`pos, w`bitBuf, w`bitsIn, w`bits, w.out
    ensures w.Valid() && w.bits == old(w.bits) + CodeLens.ItemsBits(L2, items, 0)
    ensures w.pos >= old(w.pos) && w.out[..old(w.pos)] == old(w.out[..w.pos])
  {
    hide Kept, CodesOf, CodeLens.Packed, CodeLens.Flat, CodeLens.ItemBits, CodeLens.Sound, Fits, ItemAt,
      CodeLens.Fine, CodeLens.Symbol;
    ghost var b0, pos0, o0 := w.bits, w.pos, w.out[..w.pos];
    var j: nat := 0;
    ghost var k: nat := 0;
    ItemStart(items);
    ItemRead(packed, items, k, j);
    while j < |packed|
      invariant k <= |items| && ItemAt(packed, items, k, j)
      invariant w.Valid() && w.bits + CodeLens.ItemsBits(L2, items, k) == b0 + CodeLens.ItemsBits(L2, items, 0)
      invariant pos0 <= w.pos && w.out[..pos0] == o0
      decreases |items| - k
    {
      ItemRead(packed, items, k, j);
      ItemsStep(w.bits, L2, items, k);
      ghost var o1 := w.out[..w.pos];
      j := PutItem(w, L2, c2, packed, j, items[k]);
      assert w.out[..pos0] == o1[..pos0];
      k := k + 1;
    }
    ItemRead(packed, items, k, j);
  }

  lemma {:induction false} CodesShort(L0: seq<nat>, c0: seq<nat>, L1: seq<nat>, c1: seq<nat>, ts: seq<Token>)
    requires BlockCodes(L0, c0, L1, c1, ts)
    ensures |L0| == 288 && |L1| == 32 && (forall s :: 0 <= s < 288 ==> L0[s] <= 15)
      && (forall s :: 0 <= s < 32 ==> L1[s] <= 15)
    ensures (forall s :: 286 <= s < 288 ==> L0[s] == 0) && (forall s :: 30 <= s < 32 ==> L1[s] == 0) && Accepted(L0)
      && Accepted(L1)
  {
    AcceptedFits(L0);
    AcceptedFits(L1);
  }

  lemma {:induction false} EncodableSize(L2: seq<nat>, items: seq<CodeLens.Item>)
    requires CodeLens.Encodable(L2, items)
    ensures |L2| == 19
  {
  }

  /** The three table sizes, then the lengths themselves. */
  method PutHeader(w: Writer, L2: seq<nat>, c2: seq<nat>, packed: seq<nat>, nl: nat, nd: nat, nb: nat, ghost x: Header)
    requires w.Valid() && HeaderOk(x) && x.nl == nl && x.nd == nd && x.nb == nb && x.L2 == L2
    requires CodesOf(L2, c2) && packed == CodeLens.Flat(x.items)
    modifies w`pos, w`bitBuf, w`bitsIn, w`bits, w.out
    ensures w.Valid() && w.bits == old(w.bits) + HeaderBits(x)
    ensures w.pos >= old(w.pos) && w.out[..old(w.pos)] == old(w.out[..w.pos])
  {
    hide Kept, CodesOf, ToBits, HeaderOk, HeaderBits, HeaderTail, CodeLens.Encodable, CodeLens.Expand, CodeLens.Flat,
      CodeLens.ItemsBits, SizesBits, Accepted;
    assert Pow2(5) == 32 && Pow2(4) == 16;
    HeaderFacts(x);
    SmallSizes(x);
    ghost var b0, p0, o0 := w.bits, w.pos, w.out[..w.pos];
    w.PutBits(nl - 257, 5);
    ghost var o1 := w.out[..w.pos];
    w.PutBits(nd - 1, 5);
    ghost var o2 := w.out[..w.pos];
    w.PutBits(nb - 4, 4);
    ghost var o3 := w.out[..w.pos];
    PutSizes(w, L2, nb);
    ghost var o4 := w.out[..w.pos];
    PutItems(w, L2, c2, packed, x.items);
    assert w.out[..p0] == o4[..p0] == o3[..p0] == o2[..p0] == o1[..p0];
    HeaderPieces(b0, x);
  }

  lemma {:induction false} SmallSizes(x: Header)
    requires HeaderOk(x)
    ensures forall c :: 0 <= c < 19 ==> x.L2[c] <= 7
  {
  }

  lemma {:induction false} HeaderPieces(b: seq<bool>, x: Header)
    requires HeaderOk(x)
    ensures b + ToBits(x.nl - 257, 5) + ToBits(x.nd - 1, 5) + ToBits(x.nb - 4, 4) + SizesBits(x.L2, x.nb,
      0) + CodeLens.ItemsBits(x.L2, x.items, 0)
      == b + HeaderBits(x)
  {
    hide ToBits, SizesBits, CodeLens.ItemsBits;
    var p, q, r, t := ToBits(x.nl - 257, 5), ToBits(x.nd - 1, 5), ToBits(x.nb - 4, 4), HeaderTail(x);
    Assoc(b + p + q + r, SizesBits(x.L2, x.nb, 0), CodeLens.ItemsBits(x.L2, x.items, 0));
    Assoc(b + p + q, r, t);
    Assoc(b + p, q, r + t);
    Assoc(b, p, q + (r + t));
  }

  /** Starts a dynamic block for the given codes. */
  method StartDynamic(w: Writer, L0: seq<nat>, L1: seq<nat>, ghost c0: seq<nat>, ghost c1: seq<nat>,
      ghost ts: seq<Token>) returns (ghost x: Header)
    requires w.Valid() && BlockCodes(L0, c0, L1, c1, ts)
    modifies w`pos, w`bitBuf, w`bitsIn, w`bits, w.out
    ensures HeaderOk(x) && x.book == Book(L0, L1)
    ensures w.Valid() && w.bits == old(w.bits) + (ToBits(2, 2) + HeaderBits(x))
    ensures w.pos >= old(w.pos) && w.out[..old(w.pos)] == old(w.out[..w.pos])
  {
    hide Kept, CodesOf, ToBits, BlockCodes, HeaderBits, CodeLens.Encodable, CodeLens.Expand, CodeLens.Flat, Accepted;
    CodesShort(L0, c0, L1, c1, ts);
    var nl := TrimEnd(L0, 286, 257);
    var nd := TrimEnd(L1, 30, 1);
    var lens := L0[..nl] + L1[..nd];
    var packed, L2, c2, items := PackLengths(lens);
    EncodableSize(L2, items);
    var nb := SizesToSend(L2);
    x := Header(Book(L0, L1), L2, items, nl, nd, nb);
    assert HeaderOk(x);
    assert Pow2(2) == 4;
    ghost var b0, p0 := w.bits, w.pos;
    w.PutBits(2, 2);
    ghost var o1 := w.out[..w.pos];
    hide HeaderOk;
    PutHeader(w, L2, c2, packed, nl, nd, nb, x);
    assert w.out[..p0] == o1[..p0];
    Assoc(b0, ToBits(2, 2), HeaderBits(x));
  }
}
