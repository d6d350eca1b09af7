/** The decompressor: blocks from input in pieces to output in a window. */
module Inflater {
  import opened Bits
  import opened Canonical
  import opened HuffTable
  import opened HuffDecoder
  import opened BitReader
  import opened BitSource
  import opened OutWindow
  import opened LzTokens
  import opened Blocks
  import opened Streams
  import opened Spells
  import opened Departures
  import opened Lenient
  import CodeLens

  /** Course taken by a read: once astray, always astray; only what has no code goes unnoticed. */
  ghost predicate Steady(was: Course, now: Course, e: Ending) {
    && (was.Astray? ==> now == was) && (e.Outside? ==> now.Astray?)
    && (!e.Outside? && was.Within? && now.Astray? ==> now.way.NoCode?)
  }

  lemma {:induction false} PadTrims(M: seq<nat>, n: nat)
    requires |M| <= n
    ensures Trims(M, Pad(M, n))
  {
  }

  /** More has been supplied, and more consumed. */
  ghost predicate Later(fed: seq<Byte>, c: seq<bool>, fed': seq<Byte>, c': seq<bool>) {
    fed <= fed' && c <= c'
  }

  lemma {:induction false} LaterMore(f0: seq<Byte>, c0: seq<bool>, f1: seq<Byte>, c1: seq<bool>, f2: seq<Byte>,
      c2: seq<bool>)
    requires Later(f0, c0, f1, c1) && Later(f1, c1, f2, c2)
    ensures Later(f0, c0, f2, c2) && f0 <= f2 && f1 <= f2
  {
  }

  lemma {:induction false} LaterBits(f0: seq<Byte>, c0: seq<bool>, f1: seq<Byte>, c1: seq<bool>, f2: seq<Byte>,
      x: seq<bool>)
    requires f0 <= f1 <= f2 && c0 <= c1
    ensures Later(f0, c0, f2, c1 + x)
  {
  }

  lemma {:induction false} SteadyStart(c: Course)
    ensures Steady(c, c, Good)
  {
  }

  lemma {:induction false} SteadyMore(was: Course, mid: Course, now: Course, e: Ending)
    requires Steady(was, mid, Good) && Steady(mid, now, e)
    ensures Steady(was, now, e) && (mid.Astray? ==> now == mid)
  {
  }

  // ---- Fields ----

  /** A field of `n` bits. */
  method Field(s: Source, n: nat) returns (v: nat)
    requires s.Idle() && s as object != s.r && n <= 16
    modifies s, s.r
    ensures s.Idle() && v < Pow2(n) && s.r.consumed == old(s.r.consumed) + ToBits(v, n)
    ensures s.course == old(s.course) && Later(old(s.r.fed), old(s.r.consumed), s.r.fed, s.r.consumed)
    ensures Take(old(s.Left()), n).Done? ==> Take(old(s.Left()), n) == Done(v, s.Left())
  {
    hide Supplied, Pow2;
    v := s.NextBits(n);
    FieldIs(old(s.Left()), n, v, s.Left());
  }

  lemma {:induction false} FieldIs(b: seq<bool>, n: nat, v: nat, rest: seq<bool>)
    requires v < Pow2(n) && (n <= |b| ==> ToBits(v, n) == b[..n] && rest == b[n..])
    ensures Take(b, n).Done? ==> Take(b, n) == Done(v, rest)
  {
    ValToBits(v, n);
  }

  // ---- The header of a dynamic block ----

  /** The lengths of the code-length code, in their odd order. */
  method TakeSizes(s: Source, nb: nat) returns (L2: seq<nat>)
    requires s.Idle() && s as object != s.r && nb <= 19
    modifies s, s.r
    ensures s.Idle() && |L2| == 19 && forall c :: 0 <= c < 19 ==> L2[c] <= 7
    ensures ReadSizes(old(s.Left()), nb, 0, CodeLens.Times(0, 19)).Done? ==>
      ReadSizes(old(s.Left()), nb, 0, CodeLens.Times(0, 19)) == Done(L2, s.Left())
    ensures SizesRead(old(s.r.consumed), s.r.consumed, nb, nb, L2)
    ensures s.course == old(s.course) && Later(old(s.r.fed), old(s.r.consumed), s.r.fed, s.r.consumed)
  {
    hide Supplied, CodeLens.Times, Swizzle, Take, SizesRead, ToBits;
    assert Pow2(3) == 8;
    ghost var goal := ReadSizes(s.Left(), nb, 0, CodeLens.Times(0, 19));
    L2 := CodeLens.Times(0, 19);
    SizesStart(s.r.consumed, nb);
    var i: nat := 0;
    while i < nb
      invariant i <= nb && s.Idle() && |L2| == 19 && forall c :: 0 <= c < 19 ==> L2[c] <= 7
      invariant goal.Done? ==> ReadSizes(s.Left(), nb, i, L2) == goal
      invariant SizesRead(old(s.r.consumed), s.r.consumed, nb, i, L2)
      invariant s.course == old(s.course) && Later(old(s.r.fed), old(s.r.consumed), s.r.fed, s.r.consumed)
    {
      ghost var b, c := s.Left(), s.r.consumed;
      var v := Field(s, 3);
      SizesMore(old(s.r.consumed), c, nb, i, L2, v);
      L2 := L2[Swizzle(i) := v];
      i := i + 1;
    }
  }

  /** What an item of the packed lengths stands for after `before`. */
  lemma {:induction false} RunOf(sym: nat, extra: nat, before: seq<nat>)
    requires sym < 19
    ensures sym < 16 ==> CodeLens.Run(CodeLens.ItemOf(sym, extra), before) == [sym]
    ensures sym == 16 && before != [] ==>
      CodeLens.Run(CodeLens.ItemOf(sym, extra), before) == CodeLens.Times(before[|before| - 1], extra + 3)
    ensures sym == 17 ==> CodeLens.Run(CodeLens.ItemOf(sym, extra), before) == CodeLens.Times(0, extra + 3)
    ensures sym == 18 ==> CodeLens.Run(CodeLens.ItemOf(sym, extra), before) == CodeLens.Times(0, extra + 11)
  {
  }

  /** Writes `n` copies of `v`. */
  method FillLens(lens: array<nat>, at: nat, v: nat, n: nat)
    requires at + n <= lens.Length && v <= 15 && forall j :: 0 <= j < at ==> lens[j] <= 15
    modifies lens
    ensures lens[..at + n] == old(lens[..at]) + CodeLens.Times(v, n) && forall j :: 0 <= j < at + n ==> lens[j] <= 15
  {
    var i := 0;
    while i < n
      invariant 0 <= i <= n && lens[..at + i] == old(lens[..at]) + CodeLens.Times(v, i)
      invariant forall j :: 0 <= j < at + i ==> lens[j] <= 15
    {
      lens[at + i] := v;
      assert lens[..at + i + 1] == lens[..at + i] + [v];
      i := i + 1;
    }
  }

  /** The code-length code and its table. */
  ghost predicate Coded(s: Source, t: Table, L: seq<nat>)
    reads t, t.lookup, t.tree
  {
    && t.Holds(L, |L|, |L|) && s as object != s.r
    && {s as object, s.r} !! {t as object, t.lookup, t.tree}
  }

  /** One item off the input: its symbol and its extra bits. */
  method TakeItem(s: Source, ghost L2: seq<nat>, t: Table) returns (sym: nat, extra: nat)
    requires s.Idle() && Coded(s, t, L2) && |L2| == 19
    modifies s, s.r
    ensures s.Idle() && extra < 128
    ensures CodeLens.DecodeItem(L2, old(s.Left())).Done? ==>
      sym < 19 && CodeLens.DecodeItem(L2, old(s.Left())) == Done(CodeLens.ItemOf(sym, extra), s.Left())
    ensures extra < Pow2(CodeLens.ExtraBits(sym)) && Steady(old(s.course), s.course, Good)
      && Later(old(s.r.fed), old(s.r.consumed), s.r.fed, s.r.consumed)
    ensures s.course.Within? ==>
      && sym < 19 && L2[sym] > 0
      && s.r.consumed == old(s.r.consumed) + SymBits(L2, sym) + ToBits(extra, CodeLens.ExtraBits(sym))
    ensures old(s.course).Within? && s.course.Astray? ==>
      s.course.way == NoCode(L2) && SymLeft(L2, old(s.r.consumed), s.r.fed)
  {
    hide Supplied, Inv, SymBits, ToBits, SymLeft, NoSymbolAhead, NoSymbols, Reads, Unread, BytesToBits,
      CodeLens.DecodeItem, CodeLens.ItemOf;
    assert Pow2(0) == 1 && Pow2(2) == 4 && Pow2(3) == 8 && Pow2(7) == 128;
    ghost var b0, c := s.Left(), s.r.consumed;
    sym := s.NextSymbol(L2, t, NoCode(L2));
    ghost var b1, fed := s.Left(), s.r.fed;
    extra := s.NextBits(CodeLens.ExtraBits(sym));
    ItemTaken(L2, b0, sym, b1, extra, s.Left());
    assert s.course != old(s.course) ==> SymLeft(L2, c, fed) by { Unspelled(L2, c, fed); }
    SymLater(L2, c, fed, s.r.fed);
  }

  lemma {:induction false} Unspelled(L: seq<nat>, c: seq<bool>, fed: seq<Byte>)
    ensures c <= BytesToBits(fed) && NoSymbolAhead(L, Ahead(c, fed)) ==> SymLeft(L, c, fed)
  {
  }

  lemma {:induction false} SymLater(L: seq<nat>, c: seq<bool>, fed: seq<Byte>, fed': seq<Byte>)
    requires fed <= fed'
    ensures SymLeft(L, c, fed) ==> SymLeft(L, c, fed')
  {
    hide SymLeft;
    if SymLeft(L, c, fed) { SymGrows(L, c, fed, fed'); }
  }

  lemma {:induction false} ItemTaken(L2: seq<nat>, b0: seq<bool>, sym: nat, b1: seq<bool>, extra: nat, b2: seq<bool>)
    requires |L2| == 19 && Reads(L2, b0, sym, b1) && extra < Pow2(CodeLens.ExtraBits(sym))
    requires var k := CodeLens.ExtraBits(sym); k <= |b1| ==> ToBits(extra, k) == b1[..k] && b2 == b1[k..]
    ensures CodeLens.DecodeItem(L2, b0).Done? ==>
      sym < 19 && CodeLens.DecodeItem(L2, b0) == Done(CodeLens.ItemOf(sym, extra), b2)
  {
    if CodeLens.DecodeItem(L2, b0).Done? {
      var c := DecodeSym(L2, b0);
      TrimReads(L2, L2, b0, sym, b1);
      var k := CodeLens.ExtraBits(c);
      ValToBits(extra, k);
      assert b0[L2[c]..L2[c] + k] == b1[..k] && b0[L2[c] + k..] == b1[k..];
    }
  }

  /**
   * One item into the list of lengths; a run without a length before it is an error. The list cannot overflow its 457
   * entries.
   */
  method AddItem(lens: array<nat>, at: nat, sym: nat, extra: nat) returns (at': nat, ok: bool)
    requires lens.Length == 457 && at < 320 && extra < 128 && forall j :: 0 <= j < at ==> lens[j] <= 15
    modifies lens
    ensures at' <= 457 && forall j :: 0 <= j < at' ==> lens[j] <= 15
    ensures at < at' <= 457 || !ok
    ensures ok ==> sym < 19 && !(sym == 16 && at == 0)
    ensures sym < 19 && !(sym == 16 && at == 0) ==>
      ok && lens[..at'] == old(lens[..at]) + CodeLens.Run(CodeLens.ItemOf(sym, extra), old(lens[..at]))
  {
    hide CodeLens.Run, CodeLens.ItemOf, CodeLens.Times;
    ghost var before := lens[..at];
    if sym < 19 { RunOf(sym, extra, before); }
    at', ok := at, false;
    if sym < 16 {
      lens[at] := sym;
      at', ok := at + 1, true;
      assert lens[..at + 1] == before + [sym];
    } else if sym < 19 && !(sym == 16 && at == 0) {
      var n := extra + (if sym == 18 then 11 else 3);
      if sym == 16 { assert before[|before| - 1] == lens[at - 1]; }
      FillLens(lens, at, if sym == 16 then lens[at - 1] else 0, n);
      at', ok := at + n, true;
    }
  }

  lemma {:induction false} LensStep(L2: seq<nat>, b: seq<bool>, total: nat, acc: seq<nat>, sym: nat, extra: nat,
      rest: seq<bool>)
    requires |L2| == 19 && |acc| < total && CodeLens.DecodeLens(L2, b, total, acc).Done?
    requires CodeLens.DecodeItem(L2, b).Done? ==>
      sym < 19 && CodeLens.DecodeItem(L2, b) == Done(CodeLens.ItemOf(sym, extra), rest)
    ensures sym < 19 && !(sym == 16 && acc == [])
    ensures CodeLens.DecodeLens(L2, b, total, acc) == CodeLens.DecodeLens(L2, rest, total,
      acc + CodeLens.Run(CodeLens.ItemOf(sym, extra), acc))
  {
    hide CodeLens.DecodeItem, CodeLens.Run;
  }

  /** All code lengths; it is an error if they do not end exactly at `total`. */
  method TakeLens(s: Source, ghost L2: seq<nat>, t: Table, total: nat) returns (ok: bool, lens: seq<nat>)
    requires s.Idle() && Coded(s, t, L2) && |L2| == 19 && total <= 320
    modifies s, s.r
    ensures s.Idle() && (ok ==> |lens| == total && forall j :: 0 <= j < total ==> lens[j] <= 15)
    ensures ok && s.course.Within? ==> LensRead(old(s.r.consumed), s.r.consumed, L2, total, lens)
    ensures Steady(old(s.course), s.course, Good) && Later(old(s.r.fed), old(s.r.consumed), s.r.fed, s.r.consumed)
    ensures old(s.course).Within? && s.course.Astray? ==>
      LensLeft(L2, total, old(s.r.consumed), s.r.fed, s.course.way)
    ensures CodeLens.DecodeLens(L2, old(s.Left()), total, []).Done? ==>
      ok && CodeLens.DecodeLens(L2, old(s.Left()), total, []) == Done(lens, s.Left())
  {
    hide Supplied, Inv, CodeLens.DecodeItem, CodeLens.Run, CodeLens.ItemOf, CodeLens.DecodeLens, LensRead, SymBits,
      ToBits, LensLeft, SymLeft, Steady, Unread, CodeLens.ExtraBits, Pow2, Fits, Accepted;
    ghost var goal, c0 := CodeLens.DecodeLens(L2, s.Left(), total, []), s.r.consumed;
    LensStart(c0, L2, total);
    SteadyStart(s.course);
    HeldFits(t, L2);
    var a := new nat[457];
    var at: nat := 0;
    assert a[..0] == [];
    while at < total
      invariant at <= 457 && s.Idle() && Coded(s, t, L2) && forall j :: 0 <= j < at ==> a[j] <= 15
      invariant goal.Done? ==> CodeLens.DecodeLens(L2, s.Left(), total, a[..at]) == goal
      invariant s.course.Within? ==> LensRead(c0, s.r.consumed, L2, total, a[..at])
      invariant Steady(old(s.course), s.course, Good) && Later(old(s.r.fed), old(s.r.consumed), s.r.fed, s.r.consumed)
      invariant old(s.course).Within? && s.course.Astray? ==> LensLeft(L2, total, c0, s.r.fed, s.course.way)
      decreases 457 - at
    {
      ghost var b, acc, c, fed, was := s.Left(), a[..at], s.r.consumed, s.r.fed, s.course;
      var sym, extra := TakeItem(s, L2, t);
      SteadyMore(old(s.course), was, s.course, Good);
      if old(s.course).Within? && s.course.Astray? {
        LensLater(was, s.course, L2, total, c0, c, acc, fed, s.r.fed);
      }
      if goal.Done? { LensStep(L2, b, total, acc, sym, extra, s.Left()); }
      assert a[..at] == acc;
      var good;
      at, good := AddItem(a, at, sym, extra);
      if !good { return false, []; }
      if s.course.Within? { LensMore(c0, c, L2, total, acc, sym, extra); }
    }
    if at != total {
      if goal.Done? { LensOver(L2, s.Left(), total, a[..at]); }
      return false, [];
    }
    LensEnd(L2, s.Left(), a[..at]);
    ok, lens := true, a[..at];
  }

  lemma {:induction false} LensLater(was: Course, now: Course, L2: seq<nat>, total: nat, c0: seq<bool>, c: seq<bool>,
      acc: seq<nat>, fed: seq<Byte>, fed': seq<Byte>)
    requires |L2| == 19 && now.Astray? && (was.Astray? ==> now == was) && fed <= fed' && |acc| < total
    requires was.Within? ==> LensRead(c0, c, L2, total, acc) && now.way == NoCode(L2) && SymLeft(L2, c, fed')
    requires was.Astray? ==> LensLeft(L2, total, c0, fed, was.way)
    ensures LensLeft(L2, total, c0, fed', now.way)
  {
    hide LensRead, LensLeft, SymLeft;
    if was.Within? {
      LensLeaves(c0, c, L2, total, acc, fed');
    } else {
      LensGrows(L2, total, c0, fed, fed', was.way);
    }
  }

  lemma {:induction false} LensOver(L2: seq<nat>, b: seq<bool>, total: nat, acc: seq<nat>)
    requires |L2| == 19 && |acc| > total
    ensures !CodeLens.DecodeLens(L2, b, total, acc).Done?
  {
  }

  lemma {:induction false} HeldFits(t: Table, L: seq<nat>)
    requires t.Holds(L, |L|, |L|)
    ensures Accepted(L) && Fits(L)
  {
    hide Inv;
    AcceptedFits(L);
  }

  /** A table for `L`, when the lengths are ones the decoder accepts. */
  method MakeTable(s: Source, L: seq<nat>) returns (t: Table, ok: bool)
    requires s as object != s.r && |L| <= MAX_SYMS && forall j :: 0 <= j < |L| ==> L[j] <= 15
    ensures fresh(t) && fresh(t.lookup) && fresh(t.tree) && (ok <==> Accepted(L)) && (ok ==> Coded(s, t, L))
  {
    hide Inv, Accepted;
    t := new Table();
    ok := t.Build(L);
  }

  lemma {:induction false} HeaderStep(b: seq<bool>, nl: nat, b1: seq<bool>, nd: nat, b2: seq<bool>, nb: nat,
      b3: seq<bool>, L2: seq<nat>, b4: seq<bool>)
    requires DecodeHeader(b).Done? && nl < 32 && nd < 32 && nb < 16 && |L2| == 19
    requires Take(b, 5).Done? ==> Take(b, 5) == Done(nl, b1)
    requires Take(b1, 5).Done? ==> Take(b1, 5) == Done(nd, b2)
    requires Take(b2, 4).Done? ==> Take(b2, 4) == Done(nb, b3)
    requires ReadSizes(b3, nb + 4, 0, CodeLens.Times(0, 19)).Done? ==>
      ReadSizes(b3, nb + 4, 0, CodeLens.Times(0, 19)) == Done(L2, b4)
    ensures Accepted(L2) && DecodeHeader(b) == DecodeBook(L2, b4, nl + 257, nd + 1)
  {
    hide Take, ReadSizes, DecodeBook, Accepted, CodeLens.Times;
  }

  lemma {:induction false} BookTaken(L2: seq<nat>, b: seq<bool>, nl: nat, nd: nat, lens: seq<nat>, rest: seq<bool>)
    requires |L2| == 19 && nl <= 288 && nd <= 32 && DecodeBook(L2, b, nl, nd).Done? && |lens| == nl + nd
    requires CodeLens.DecodeLens(L2, b, nl + nd, []) == Done(lens, rest)
    ensures DecodeBook(L2, b, nl, nd) == Done(BookOf(lens, nl), rest) && Accepted(BookOf(lens, nl).lit)
      && Accepted(BookOf(lens, nl).dist)
  {
    hide CodeLens.DecodeLens, Accepted;
  }

  lemma {:induction false} LensTaken(L2: seq<nat>, b: seq<bool>, nl: nat, nd: nat)
    requires |L2| == 19 && nl <= 288 && nd <= 32 && DecodeBook(L2, b, nl, nd).Done?
    ensures CodeLens.DecodeLens(L2, b, nl + nd, []).Done?
  {
    hide CodeLens.DecodeLens, Accepted;
  }

  /** The three table sizes, as they come. */
  method TakeCounts(s: Source) returns (nl: nat, nd: nat, nb: nat, ghost b1: seq<bool>, ghost b2: seq<bool>)
    requires s.Idle() && s as object != s.r
    modifies s, s.r
    ensures s.Idle() && nl < 32 && nd < 32 && nb < 16
    ensures Take(old(s.Left()), 5).Done? ==> Take(old(s.Left()), 5) == Done(nl, b1)
    ensures Take(b1, 5).Done? ==> Take(b1, 5) == Done(nd, b2)
    ensures Take(b2, 4).Done? ==> Take(b2, 4) == Done(nb, s.Left())
    ensures s.r.consumed == old(s.r.consumed) + ToBits(nl, 5) + ToBits(nd, 5) + ToBits(nb, 4)
    ensures s.course == old(s.course) && Later(old(s.r.fed), old(s.r.consumed), s.r.fed, s.r.consumed)
  {
    hide Supplied, Take, ToBits;
    assert Pow2(5) == 32 && Pow2(4) == 16;
    nl := Field(s, 5);
    b1 := s.Left();
    nd := Field(s, 5);
    b2 := s.Left();
    nb := Field(s, 4);
  }

  /** The lengths of both codes, sent with the code-length code `L2`. */
  method TakeBook(s: Source, L2: seq<nat>, nl: nat, nd: nat) returns (ok: bool, M0: seq<nat>, M1: seq<nat>)
    requires s.Idle() && s as object != s.r && |L2| == 19 && nl <= 288 && nd <= 32
    requires forall c :: 0 <= c < 19 ==> L2[c] <= 7
    modifies s, s.r
    ensures s.Idle() && |M0| <= 288 && |M1| <= 32 && (forall j :: 0 <= j < |M0| ==> M0[j] <= 15)
      && (forall j :: 0 <= j < |M1| ==> M1[j] <= 15)
    ensures Accepted(L2) && DecodeBook(L2, old(s.Left()), nl, nd).Done? ==>
      ok && Accepted(Pad(M0, 288)) && Accepted(Pad(M1, 32))
    ensures Accepted(L2) && DecodeBook(L2, old(s.Left()), nl, nd).Done? ==>
      DecodeBook(L2, old(s.Left()), nl, nd) == Done(Book(Pad(M0, 288), Pad(M1, 32)), s.Left())
    ensures Steady(old(s.course), s.course, Good) && Later(old(s.r.fed), old(s.r.consumed), s.r.fed, s.r.consumed)
    ensures ok && s.course.Within? ==>
      Accepted(L2) && BookRead(old(s.r.consumed), s.r.consumed, L2, nl, nd, M0, M1)
    ensures old(s.course).Within? && s.course.Astray? ==>
      Accepted(L2) && LensLeft(L2, nl + nd, old(s.r.consumed), s.r.fed, s.course.way)
  {
    hide Supplied, DecodeBook, Accepted, CodeLens.DecodeLens, Pad, Inv, LensRead, BookRead, LensLeft;
    ghost var b, c := s.Left(), s.r.consumed;
    var t, good := MakeTable(s, L2);
    if !good { return false, [], []; }
    if DecodeBook(L2, b, nl, nd).Done? { LensTaken(L2, b, nl, nd); }
    var lens;
    ok, lens := TakeLens(s, L2, t, nl + nd);
    if !ok { return false, [], []; }
    if DecodeBook(L2, b, nl, nd).Done? { BookTaken(L2, b, nl, nd, lens, s.Left()); }
    M0, M1 := lens[..nl], lens[nl..];
    if s.course.Within? { BookSpelled(c, s.r.consumed, L2, nl, nd, lens); }
  }

  /** The header of a dynamic block: the lengths of both codes. */
  method TakeHeader(s: Source) returns (ok: bool, M0: seq<nat>, M1: seq<nat>)
    requires s.Idle() && s as object != s.r
    modifies s, s.r
    ensures s.Idle() && |M0| <= 288 && |M1| <= 32 && (forall j :: 0 <= j < |M0| ==> M0[j] <= 15)
      && (forall j :: 0 <= j < |M1| ==> M1[j] <= 15)
    ensures DecodeHeader(old(s.Left())).Done? ==>
      ok && DecodeHeader(old(s.Left())) == Done(Book(Pad(M0, 288), Pad(M1, 32)), s.Left())
    ensures DecodeHeader(old(s.Left())).Done? ==> Accepted(Pad(M0, 288)) && Accepted(Pad(M1, 32))
    ensures ok && s.course.Within? ==> HeaderRead(old(s.r.consumed), s.r.consumed, M0, M1)
    ensures Steady(old(s.course), s.course, Good) && Later(old(s.r.fed), old(s.r.consumed), s.r.fed, s.r.consumed)
    ensures old(s.course).Within? && s.course.Astray? ==> HeaderLeft(old(s.r.consumed), s.r.fed, s.course.way)
  {
    hide Supplied, Take, ReadSizes, DecodeBook, DecodeHeader, Accepted, CodeLens.Times, Pad, SizesRead, BookRead,
      HeaderRead, HeaderLeft, LensLeft, ToBits;
    ghost var b0, c0 := s.Left(), s.r.consumed;
    var nl, nd, nb, b1, b2 := TakeCounts(s);
    ghost var b3, c3 := s.Left(), s.r.consumed;
    var L2 := TakeSizes(s, nb + 4);
    ghost var c4 := s.r.consumed;
    if DecodeHeader(b0).Done? { HeaderStep(b0, nl, b1, nd, b2, nb, b3, L2, s.Left()); }
    ok, M0, M1 := TakeBook(s, L2, nl + 257, nd + 1);
    if ok && s.course.Within? { HeaderSpelled(c0, nl, nd, nb, c3, c4, L2, s.r.consumed, M0, M1); }
    if old(s.course).Within? && s.course.Astray? {
      HeaderLeaves(c0, nl, nd, nb, c3, c4, L2, s.r.fed, s.course.way);
    }
  }

  // ---- The body of a block ----

  lemma {:induction false} HeldPadFits(t: Table, M: seq<nat>, n: nat)
    requires t.Holds(M, |M|, |M|) && |M| <= n
    ensures Fits(M) && Fits(Pad(M, n)) && Accepted(Pad(M, n))
  {
    HeldFits(t, M);
    PadTrims(M, n);
    hide Fits, Accepted, Pad, Trims;
    TrimAccepted(M, Pad(M, n));
    AcceptedFits(Pad(M, n));
  }

  lemma {:induction false} PadReads(M: seq<nat>, n: nat, b: seq<bool>, sym: nat, after: seq<bool>)
    requires |M| <= n && Reads(M, b, sym, after) && DecodeSym(Pad(M, n), b) >= 0
    ensures sym == DecodeSym(Pad(M, n), b) < n && Pad(M, n)[sym] <= |b| && after == b[Pad(M, n)[sym]..]
  {
    PadTrims(M, n);
    hide Reads, Pad;
    TrimReads(M, Pad(M, n), b, sym, after);
  }

  lemma {:induction false} PadNoSymbols(M: seq<nat>, n: nat)
    requires |M| <= n
    ensures NoSymbols(Pad(M, n)) ==> NoSymbols(M)
  {
    PadIsTrim(M, n);
    hide Pad;
  }

  lemma {:induction false} FieldTaken(L: seq<nat>, sym: nat, base: nat, extra: nat, b: seq<bool>, after: seq<bool>,
      v: nat, rest: seq<bool>)
    requires sym < |L| && L[sym] <= |b| && after == b[L[sym]..] && DecodeField(L, sym, base, extra, b).Done?
    requires v < Pow2(extra) && (extra <= |after| ==> ToBits(v, extra) == after[..extra] && rest == after[extra..])
    ensures DecodeField(L, sym, base, extra, b) == Done(base + v, rest)
  {
    ValToBits(v, extra);
    assert b[L[sym]..L[sym] + extra] == after[..extra] && b[L[sym] + extra..] == after[extra..];
  }

  lemma {:induction false} SmallExtras(i: nat)
    ensures LengthExtra(i) <= 5 && DistExtraBits(i) <= 13
  {
  }

  /** What the table gives is a symbol of the code, or 0 for no bits when the code has none. */
  ghost predicate Looked(M: seq<nat>, b: seq<bool>, sym: nat, after: seq<bool>) {
    Reads(M, b, sym, after) && (NoSymbols(M) ==> sym == 0 && after == b)
  }

  lemma {:induction false} DistTaken(M1: seq<nat>, b: seq<bool>, sym: nat, after: seq<bool>)
    requires |M1| <= 32 && Looked(M1, b, sym, after)
    ensures ReadDist(Pad(M1, 32), b).Done? ==> sym < 30
    ensures ReadDist(Pad(M1, 32), b).Departed? ==> sym >= 30
  {
    hide Reads, Pad, DistBase, DistExtraBits, NoSymbols, Val;
    PadNoSymbols(M1, 32);
    if DecodeSym(Pad(M1, 32), b) >= 0 { PadReads(M1, 32, b, sym, after); }
  }

  lemma {:induction false} DistValue(M1: seq<nat>, b: seq<bool>, sym: nat, after: seq<bool>, v: nat, rest: seq<bool>)
    requires |M1| <= 32 && Looked(M1, b, sym, after) && sym < 30 && v < Pow2(DistExtraBits(sym))
    requires var k := DistExtraBits(sym); k <= |after| ==> ToBits(v, k) == after[..k] && rest == after[k..]
    ensures Meets(ReadDist(Pad(M1, 32), b), Good, DistBase(sym) + v, rest)
  {
    hide Reads, DecodeField, Pad, NoSymbols, ToBits;
    DistTaken(M1, b, sym, after);
    if ReadDist(Pad(M1, 32), b).Done? {
      PadNoSymbols(M1, 32);
      if NoSymbols(Pad(M1, 32)) {
        NoExtra(v);
        assert after[0..] == after;
      } else {
        PadReads(M1, 32, b, sym, after);
        FieldTaken(Pad(M1, 32), sym, DistBase(sym), DistExtraBits(sym), b, after, v, rest);
      }
    }
  }

  lemma {:induction false} NoExtra(v: nat)
    ensures DistExtraBits(0) == 0 && DistBase(0) == 1 && (v < Pow2(DistExtraBits(0)) ==> v == 0)
  {
  }

  /** A distance: its symbol and extra bits. */
  method TakeDist(s: Source, ghost M1: seq<nat>, t1: Table) returns (e: Ending, dist: nat)
    requires s.Idle() && Coded(s, t1, M1) && |M1| <= 32
    modifies s, s.r
    ensures s.Idle() && Steady(old(s.course), s.course, e)
      && Later(old(s.r.fed), old(s.r.consumed), s.r.fed, s.r.consumed)
    ensures e.Good? && s.course.Within? ==> DistRead(Pad(M1, 32), old(s.r.consumed), s.r.consumed, dist)
    ensures old(s.course).Within? && s.course.Astray? ==>
      DistLeft(Pad(M1, 32), old(s.r.consumed), s.r.fed, s.course.way)
    ensures Meets(ReadDist(Pad(M1, 32), old(s.Left())), e, dist, s.Left())
  {
    hide Supplied, Inv, Reads, ReadDist, Pad, DistBase, DistExtraBits, DistRead, SymBits, ToBits, Pow2, DistLeft,
      SymLeft, NoSymbols, NoSymbolAhead, Unread, Later, BytesToBits, Fits, Accepted;
    HeldPadFits(t1, M1, 32);
    ghost var b, c, was, f0 := s.Left(), s.r.consumed, s.course, s.r.fed;
    var sym := s.NextSymbol(M1, t1, NoCode(Pad(M1, 32)));
    ghost var after, fed, c1 := s.Left(), s.r.fed, s.r.consumed;
    DistTaken(M1, b, sym, after);
    if was.Within? && s.course.Astray? { DistUnspelled(M1, c, fed); }
    if sym >= 30 {
      LaterBits(f0, c, fed, c1, fed, []);
      assert c1 + [] == c1;
      s.r.Delivered();
      if s.course.Within? { DistWrong(M1, c, s.r.consumed, sym, fed); }
      s.course := Next(s.course, false, NoMeaning);
      return Outside, 0;
    }
    SmallExtras(sym);
    var v := s.NextBits(DistExtraBits(sym));
    LaterBits(f0, c, fed, c1, s.r.fed, ToBits(v, DistExtraBits(sym)));
    DistValue(M1, b, sym, after, v, s.Left());
    if s.course.Within? { DistSpelled(M1, c, sym, v); }
    if was.Within? && s.course.Astray? { DistGrows(Pad(M1, 32), c, fed, s.r.fed, s.course.way); }
    e, dist := Good, DistBase(sym) + v;
  }

  lemma {:induction false} DistUnspelled(M1: seq<nat>, c: seq<bool>, fed: seq<Byte>)
    requires |M1| <= 32 && c <= BytesToBits(fed) && NoSymbolAhead(M1, Ahead(c, fed))
    ensures DistLeft(Pad(M1, 32), c, fed, NoCode(Pad(M1, 32)))
  {
    hide DistLeft, NoSymbolAhead, BytesToBits, Pad;
    DistStray(M1, c, fed);
  }

  lemma {:induction false} TokenTaken(M0: seq<nat>, L1: seq<nat>, b: seq<bool>, sym: nat, after: seq<bool>)
    requires |M0| <= 288 && |L1| == 32 && Reads(M0, b, sym, after) && !ReadToken(Pad(M0, 288), L1, b).Failed?
    ensures sym == DecodeSym(Pad(M0, 288), b) && Pad(M0, 288)[sym] <= |b| && after == b[Pad(M0, 288)[sym]..]
    ensures ReadToken(Pad(M0, 288), L1, b).Done? && sym < 256 ==>
      ReadToken(Pad(M0, 288), L1, b) == Done(Tok(Lit(sym)), after)
    ensures sym < 256 ==> ReadToken(Pad(M0, 288), L1, b).Done?
    ensures sym == 256 ==> ReadToken(Pad(M0, 288), L1, b) == Done(End, after)
    ensures sym > 285 ==> ReadToken(Pad(M0, 288), L1, b).Departed?
    ensures 256 < sym <= 285 ==>
      DecodeField(Pad(M0, 288), sym, LengthBase(sym - 257), LengthExtra(sym - 257), b).Done?
  {
    hide Reads, DecodeField, DecodeDist, ReadDist, Pad, LengthBase, LengthExtra;
    PadReads(M0, 288, b, sym, after);
  }

  lemma {:induction false} MatchTaken(M0: seq<nat>, L1: seq<nat>, b: seq<bool>, sym: nat, after: seq<bool>, v: nat,
      rest: seq<bool>, e: Ending, dist: nat, rest': seq<bool>)
    requires |M0| <= 288 && |L1| == 32 && Reads(M0, b, sym, after) && 256 < sym <= 285
      && v < Pow2(LengthExtra(sym - 257))
    requires var k := LengthExtra(sym - 257); k <= |after| ==> ToBits(v, k) == after[..k] && rest == after[k..]
    requires Meets(ReadDist(L1, rest), e, dist, rest')
    ensures Meets(ReadToken(Pad(M0, 288), L1, b), e, Tok(Match(LengthBase(sym - 257) + v, dist)), rest')
  {
    hide Reads, DecodeField, ReadDist, Pad, LengthBase, LengthExtra;
    if !ReadToken(Pad(M0, 288), L1, b).Failed? {
      TokenTaken(M0, L1, b, sym, after);
      FieldTaken(Pad(M0, 288), sym, LengthBase(sym - 257), LengthExtra(sym - 257), b, after, v, rest);
    }
  }

  /** What follows a symbol that is no literal: the end of the block, or a length and a distance. */
  method TakeRest(s: Source, sym: nat, ghost b: seq<bool>, ghost c: seq<bool>, ghost M0: seq<nat>, ghost M1: seq<nat>,
      t1: Table)
    returns (e: Ending, step: Step)
    requires s.Idle() && Coded(s, t1, M1) && |M0| <= 288 && |M1| <= 32 && sym >= 256 && Reads(M0, b, sym, s.Left())
    requires Fits(M0) && Fits(Pad(M0, 288)) && (s.course.Within? ==> Spelled(M0, sym, c, s.r.consumed))
    modifies s, s.r
    ensures s.Idle() && Steady(old(s.course), s.course, e)
      && Later(old(s.r.fed), old(s.r.consumed), s.r.fed, s.r.consumed)
    ensures e.Good? && s.course.Within? ==> TokenRead(Pad(M0, 288), Pad(M1, 32), c, s.r.consumed, step)
    ensures old(s.course).Within? && s.course.Astray? ==>
      TokenLeft(Pad(M0, 288), Pad(M1, 32), c, s.r.fed, s.course.way)
    ensures Meets(ReadToken(Pad(M0, 288), Pad(M1, 32), b), e, step, s.Left())
  {
    hide Supplied, Inv, Reads, ReadToken, ReadDist, Pad, LengthBase, LengthExtra, TokenRead, DistRead, SymBits,
      ToBits, Pow2, Fits, TokenLeft, DistLeft, Unread, Later;
    ghost var L1, after, was, c1, f0 := Pad(M1, 32), s.Left(), s.course, s.r.consumed, s.r.fed;
    LaterBits(f0, c1, f0, c1, f0, []);
    assert c1 + [] == c1;
    if !ReadToken(Pad(M0, 288), L1, b).Failed? { TokenTaken(M0, L1, b, sym, after); }
    if sym == 256 {
      if was.Within? { PlainSpelled(M0, L1, c, sym); }
      return Good, End;
    }
    if sym > 285 {
      s.r.Delivered();
      if was.Within? { TokenWrong(M0, L1, c, c1, sym, s.r.fed); }
      s.course := Next(s.course, false, NoMeaning);
      return Outside, End;
    }
    SmallExtras(sym - 257);
    var v := s.NextBits(LengthExtra(sym - 257));
    ghost var rest, f1, c2 := s.Left(), s.r.fed, s.r.consumed;
    LaterBits(f0, c1, f0, c1, f1, ToBits(v, LengthExtra(sym - 257)));
    var dist;
    e, dist := TakeDist(s, M1, t1);
    LaterMore(f0, c1, f1, c2, s.r.fed, s.r.consumed);
    step := Tok(Match(LengthBase(sym - 257) + v, dist));
    MatchTaken(M0, L1, b, sym, after, v, rest, e, dist, s.Left());
    if e.Good? && s.course.Within? { MatchSpelled(M0, L1, c, sym, v, s.r.consumed, dist); }
    if was.Within? && s.course.Astray? {
      TokenNoDist(M0, L1, c, sym, v, c1 + ToBits(v, LengthExtra(sym - 257)), s.r.fed, s.course.way);
    }
  }

  /** Source, window and their parts are different objects, and the window holds the largest distance. */
  ghost predicate Ready(s: Source, k: Sink) {
    s as object != s.r && {s as object, s.r} !! {k as object, k.out} && k as object != k.out && k.out.Length >= WINDOW
  }

  ghost predicate Tabled(t: Table, k: Sink) {
    {t as object, t.lookup, t.tree} !! {k as object, k.out}
  }

  lemma {:induction false} Apart(s: Source, k: Sink, t: Table, L: seq<nat>)
    requires Ready(s, k) && Coded(s, t, L) && Tabled(t, k)
    ensures {s as object, s.r, k, k.out} !! {t as object, t.lookup, t.tree}
  {
    hide Inv;
  }

  /** After `n` literals, reading `b` on top of `h` gives what reading `b0` on top of `h0` does. */
  ghost predicate Follows(L0: seq<nat>, L1: seq<nat>, b0: seq<bool>, h0: seq<Byte>, b: seq<bool>, h: seq<Byte>, n: nat)
    requires |L0| == 288 && |L1| == 32
  {
    !ReadBody(L0, L1, b0, h0).Failed? ==> ReadBody(L0, L1, b, h) == ReadBody(L0, L1, b0, h0) && |b| + n <= |b0|
  }

  lemma {:induction false} FollowsLiteral(M0: seq<nat>, L1: seq<nat>, b0: seq<bool>, h0: seq<Byte>, b: seq<bool>,
      h: seq<Byte>, n: nat, sym: nat, after: seq<bool>)
    requires |M0| <= 288 && |L1| == 32 && sym < 256 && Reads(M0, b, sym, after)
      && Follows(Pad(M0, 288), L1, b0, h0, b, h, n)
    ensures Follows(Pad(M0, 288), L1, b0, h0, after, h + [sym], n + 1)
  {
    hide ReadBody, ReadToken, Pad, Reads, Play, Playable, DecodeField;
    var L0 := Pad(M0, 288);
    if !ReadBody(L0, L1, b0, h0).Failed? {
      TokenStep(L0, L1, b, h);
      TokenTaken(M0, L1, b, sym, after);
      BodyStep(L0, L1, b, h, Good, Tok(Lit(sym)), after);
      PlayLit(h, sym);
    }
  }

  /**
   * What has been taken since `c0`, up to `c`, spells what turns `h0` into `h`; or, if it went astray since, it leaves
   * the format.
   */
  ghost predicate Grows(was: Course, now: Course, M0: seq<nat>, L1: seq<nat>, c0: seq<bool>, c: seq<bool>,
      fed: seq<Byte>, h0: seq<Byte>, h: seq<Byte>)
    requires |M0| <= 288 && |L1| == 32
  {
    && (now.Within? ==> BodyRead(Pad(M0, 288), L1, c0, c, h0, h))
    && (was.Within? && now.Astray? ==> BodyLeft(Pad(M0, 288), L1, c0, fed, h0, now.way))
    && Steady(was, now, Good)
  }

  lemma {:induction false} GrowsStart(was: Course, M0: seq<nat>, L1: seq<nat>, c: seq<bool>, fed: seq<Byte>,
      h: seq<Byte>)
    requires |M0| <= 288 && |L1| == 32
    ensures Grows(was, was, M0, L1, c, c, fed, h, h)
  {
    hide BodyRead, Pad, BodyLeft;
    BodyStart(Pad(M0, 288), L1, c, h);
  }

  /** A symbol was looked up. */
  lemma {:induction false} GrowsSymbol(was: Course, mid: Course, now: Course, M0: seq<nat>, L1: seq<nat>, c0: seq<bool>,
      c1: seq<bool>, c2: seq<bool>, fed: seq<Byte>, fed': seq<Byte>, h0: seq<Byte>, h: seq<Byte>, sym: nat)
    requires |M0| <= 288 && |L1| == 32 && Grows(was, mid, M0, L1, c0, c1, fed, h0, h) && fed <= fed'
    requires now == Next(mid, Spelled(M0, sym, c1, c2), NoCode(Pad(M0, 288))) && c1 <= BytesToBits(fed')
    requires !Spelled(M0, sym, c1, c2) ==> NoSymbolAhead(M0, Ahead(c1, fed'))
    ensures Grows(was, now, M0, L1, c0, c1, fed', h0, h)
  {
    hide BodyRead, Pad, BodyLeft, Spelled, NoSymbolAhead, TokenLeft, BytesToBits;
    var L0 := Pad(M0, 288);
    if was.Within? && mid.Astray? { BodyGrows(L0, L1, c0, fed, fed', h0, mid.way); }
    if mid.Within? && now.Astray? {
      TokenStray(M0, L1, c1, fed');
      BodyLeaves(L0, L1, c0, c1, fed', h0, h, now.way);
    }
  }

  lemma {:induction false} GrowsLiteral(was: Course, now: Course, M0: seq<nat>, L1: seq<nat>, c0: seq<bool>,
      c1: seq<bool>, c2: seq<bool>, fed: seq<Byte>, h0: seq<Byte>, h: seq<Byte>, sym: nat)
    requires |M0| <= 288 && |L1| == 32 && Fits(M0) && Fits(Pad(M0, 288)) && sym < 256
    requires Grows(was, now, M0, L1, c0, c1, fed, h0, h) && (now.Within? ==> Spelled(M0, sym, c1, c2))
    ensures Grows(was, now, M0, L1, c0, c2, fed, h0, h + [sym])
  {
    hide BodyRead, Pad, Fits, Spelled, BodyLeft;
    if now.Within? { BodyLiteral(M0, L1, c0, c1, c2, h0, h, sym); }
  }

  /** The fast loop: two symbols from one refill, when there is input and room for both. */
  method TwoSymbols(s: Source, k: Sink, ghost M0: seq<nat>, t0: Table, ghost L1: seq<nat>, ghost b0: seq<bool>,
      ghost h0: seq<Byte>, ghost n: nat, ghost c0: seq<bool>, ghost was: Course)
    returns (done: bool, sym: nat, ghost b: seq<bool>, ghost m: nat, ghost c: seq<bool>)
    requires s.Idle() && k.Valid() && Ready(s, k) && Coded(s, t0, M0) && Tabled(t0, k) && |M0| <= 288 && |L1| == 32
    requires |s.r.input| - s.r.pos >= 4 && k.out.Length - k.cur >= 2
      && Follows(Pad(M0, 288), L1, b0, h0, s.Left(), k.h, n)
    requires Fits(M0) && Fits(Pad(M0, 288)) && Grows(was, s.course, M0, L1, c0, s.r.consumed, s.r.fed, h0, k.h)
    modifies s, s.r, k, k.out
    ensures s.Idle() && k.Valid() && n <= m && Follows(Pad(M0, 288), L1, b0, h0, b, k.h, m)
      && Later(old(s.r.fed), old(s.r.consumed), s.r.fed, s.r.consumed)
    ensures done ==>
      sym >= 256 && Reads(M0, b, sym, s.Left()) && (s.course.Within? ==> Spelled(M0, sym, c, s.r.consumed))
    ensures !done ==> b == s.Left() && m == n + 2 && c == s.r.consumed
    ensures Grows(was, s.course, M0, L1, c0, c, s.r.fed, h0, k.h)
  {
    hide Supplied, Inv, Reads, Ring, Place, Pad, Unread, Follows, Fits, Spelled, Grows, NoSymbolAhead, NoSymbols;
    ghost var mid := s.course;
    s.FastRefill();
    b, m, c := s.Left(), n, s.r.consumed;
    sym := s.FastSymbol(M0, t0, NoCode(Pad(M0, 288)));
    GrowsSymbol(was, mid, s.course, M0, L1, c0, c, s.r.consumed, s.r.fed, s.r.fed, h0, k.h, sym);
    if sym >= 256 { return true, sym, b, m, c; }
    FollowsLiteral(M0, L1, b0, h0, b, k.h, n, sym, s.Left());
    GrowsLiteral(was, s.course, M0, L1, c0, c, s.r.consumed, s.r.fed, h0, k.h, sym);
    var first := sym;
    b, m, c, mid := s.Left(), n + 1, s.r.consumed, s.course;
    sym := s.FastSymbol(M0, t0, NoCode(Pad(M0, 288)));
    k.Put(first);
    GrowsSymbol(was, mid, s.course, M0, L1, c0, c, s.r.consumed, s.r.fed, s.r.fed, h0, k.h, sym);
    done := sym >= 256;
    if !done {
      FollowsLiteral(M0, L1, b0, h0, b, k.h, m, sym, s.Left());
      GrowsLiteral(was, s.course, M0, L1, c0, c, s.r.consumed, s.r.fed, h0, k.h, sym);
      k.Put(sym);
      b, m, c := s.Left(), n + 2, s.r.consumed;
    }
  }

  /** The careful loop: one symbol. */
  method OneSymbol(s: Source, k: Sink, ghost M0: seq<nat>, t0: Table, ghost L1: seq<nat>, ghost b0: seq<bool>,
      ghost h0: seq<Byte>, ghost n: nat, ghost c0: seq<bool>, ghost was: Course)
    returns (done: bool, sym: nat, ghost b: seq<bool>, ghost c: seq<bool>)
    requires s.Idle() && k.Valid() && Ready(s, k) && Coded(s, t0, M0) && Tabled(t0, k) && |M0| <= 288 && |L1| == 32
    requires Follows(Pad(M0, 288), L1, b0, h0, s.Left(), k.h, n)
    requires Fits(M0) && Fits(Pad(M0, 288)) && Grows(was, s.course, M0, L1, c0, s.r.consumed, s.r.fed, h0, k.h)
    modifies s, s.r, k, k.out
    ensures s.Idle() && k.Valid() && Follows(Pad(M0, 288), L1, b0, h0, b, k.h, if done then n else n + 1)
    ensures done ==>
      sym >= 256 && Reads(M0, b, sym, s.Left()) && (s.course.Within? ==> Spelled(M0, sym, c, s.r.consumed))
    ensures !done ==> b == s.Left() && c == s.r.consumed
    ensures Grows(was, s.course, M0, L1, c0, c, s.r.fed, h0, k.h)
      && Later(old(s.r.fed), old(s.r.consumed), s.r.fed, s.r.consumed)
  {
    hide Supplied, Inv, Reads, Ring, Place, Pad, Unread, Follows, Fits, Spelled, Grows, NoSymbolAhead, NoSymbols;
    ghost var mid, fed := s.course, s.r.fed;
    b, c := s.Left(), s.r.consumed;
    sym := s.NextSymbol(M0, t0, NoCode(Pad(M0, 288)));
    GrowsSymbol(was, mid, s.course, M0, L1, c0, c, s.r.consumed, fed, s.r.fed, h0, k.h, sym);
    done := sym >= 256;
    if !done {
      FollowsLiteral(M0, L1, b0, h0, b, k.h, n, sym, s.Left());
      GrowsLiteral(was, s.course, M0, L1, c0, c, s.r.consumed, s.r.fed, h0, k.h, sym);
      k.PutByte(sym);
      b, c := s.Left(), s.r.consumed;
    }
  }

  /** Literals up to the next symbol that is none. */
  method TakeRun(s: Source, k: Sink, ghost M0: seq<nat>, t0: Table, ghost L1: seq<nat>, limit: nat)
    returns (ok: bool, sym: nat, ghost b: seq<bool>, ghost c: seq<bool>)
    requires s.Idle() && k.Valid() && Ready(s, k) && Coded(s, t0, M0) && Tabled(t0, k) && |M0| <= 288 && |L1| == 32
    modifies s, s.r, k, k.out
    ensures s.Idle() && k.Valid() && Follows(Pad(M0, 288), L1, old(s.Left()), old(k.h), b, k.h, 0)
    ensures ok ==>
      sym >= 256 && Reads(M0, b, sym, s.Left()) && (s.course.Within? ==> Spelled(M0, sym, c, s.r.consumed))
    ensures !ReadBody(Pad(M0, 288), L1, old(s.Left()), old(k.h)).Failed? && limit > |old(s.Left())| ==> ok
    ensures Grows(old(s.course), s.course, M0, L1, old(s.r.consumed), c, s.r.fed, old(k.h), k.h)
    ensures Later(old(s.r.fed), old(s.r.consumed), s.r.fed, s.r.consumed)
  {
    hide Supplied, Inv, Reads, Ring, Place, Pad, Unread, ReadBody, Follows, Fits, Spelled, Grows;
    ghost var b0, h0, c0, was := s.Left(), k.h, s.r.consumed, s.course;
    HeldPadFits(t0, M0, 288);
    FollowsStart(Pad(M0, 288), L1, b0, h0);
    GrowsStart(was, M0, L1, c0, s.r.fed, h0);
    ghost var m := 0;
    var n: nat := 0;
    ok, sym, b, c := false, 0, b0, c0;
    while !ok && n < limit
      invariant s.Idle() && k.Valid() && Coded(s, t0, M0) && (ok || n <= m)
        && Later(old(s.r.fed), old(s.r.consumed), s.r.fed, s.r.consumed)
      invariant Follows(Pad(M0, 288), L1, b0, h0, b, k.h, m)
      invariant if ok then sym >= 256 && Reads(M0, b, sym, s.Left()) else b == s.Left()
      invariant Grows(was, s.course, M0, L1, c0, c, s.r.fed, h0, k.h)
      invariant if ok then s.course.Within? ==> Spelled(M0, sym, c, s.r.consumed) else c == s.r.consumed
      decreases !ok, limit - n
    {
      if |s.r.input| - s.r.pos >= 4 && k.out.Length - k.cur >= 2 {
        ok, sym, b, m, c := TwoSymbols(s, k, M0, t0, L1, b0, h0, m, c0, was);
        n := n + 2;
      } else {
        ghost var read := m;
        ok, sym, b, c := OneSymbol(s, k, M0, t0, L1, b0, h0, m, c0, was);
        n := n + 1;
        m := if ok then read else read + 1;
      }
    }
    FollowsEnd(Pad(M0, 288), L1, b0, h0, b, k.h, m);
  }

  lemma {:induction false} FollowsStart(L0: seq<nat>, L1: seq<nat>, b: seq<bool>, h: seq<Byte>)
    requires |L0| == 288 && |L1| == 32
    ensures Follows(L0, L1, b, h, b, h, 0)
  {
    hide ReadBody;
  }

  lemma {:induction false} FollowsEnd(L0: seq<nat>, L1: seq<nat>, b0: seq<bool>, h0: seq<Byte>, b: seq<bool>,
      h: seq<Byte>, n: nat)
    requires |L0| == 288 && |L1| == 32 && Follows(L0, L1, b0, h0, b, h, n)
    ensures Follows(L0, L1, b0, h0, b, h, 0) && (!ReadBody(L0, L1, b0, h0).Failed? ==> n <= |b0|)
  {
    hide ReadBody;
  }

  /** Plays a token into the window. Matches that reach before the output are not followed. */
  method PlayToken(k: Sink, t: Token) returns (ok: bool)
    requires k.Valid() && k.out.Length >= WINDOW
    modifies k, k.out
    ensures k.Valid() && ok == Playable(old(k.h), t) && (ok ==> k.h == Play(old(k.h), t))
  {
    hide Ring, Copy;
    ok := true;
    if t.Lit? {
      k.PutByte(t.b);
    } else if 3 <= t.len <= MAX_MATCH && 1 <= t.dist <= WINDOW && t.dist <= |k.taken| + (k.cur - k.from) {
      k.CopyMatch(t.len, t.dist);
    } else {
      ok := false;
    }
  }

  /** A round of a body that reads as `goal`: it goes on with fewer bits, is done, or departs. */
  ghost predicate Onward(goal: Decoded<seq<Byte>>, size: nat, e: Ending, end: bool, L0: seq<nat>, L1: seq<nat>,
      b: seq<bool>, h: seq<Byte>)
    requires |L0| == 288 && |L1| == 32
  {
    !goal.Failed? ==>
      || (e.Good? && |b| < size && goal == if end then Done(h, b) else ReadBody(L0, L1, b, h))
      || (e.Outside? && goal.Departed?)
  }

  lemma {:induction false} StepTaken(L0: seq<nat>, L1: seq<nat>, b0: seq<bool>, h0: seq<Byte>, b: seq<bool>,
      h: seq<Byte>, e: Ending, step: Step, rest: seq<bool>, e': Ending, h': seq<Byte>)
    requires |L0| == 288 && |L1| == 32 && Follows(L0, L1, b0, h0, b, h, 0)
    requires Meets(ReadToken(L0, L1, b), e, step, rest)
    requires !e.Good? || step.End? ==> e' == e && h' == h
    requires e.Good? && step.Tok? ==> if Playable(h, step.t) then e'.Good? && h' == Play(h, step.t) else e'.Outside?
    ensures Onward(ReadBody(L0, L1, b0, h0), |b0|, e', step.End?, L0, L1, rest, h')
  {
    hide ReadToken, Play, Playable, ReadBody, Meets;
    if !ReadBody(L0, L1, b0, h0).Failed? { BodyStep(L0, L1, b, h, e, step, rest); }
  }

  lemma {:induction false} NotOnward(goal: Decoded<seq<Byte>>, size: nat, L0: seq<nat>, L1: seq<nat>, b: seq<bool>,
      h: seq<Byte>)
    requires |L0| == 288 && |L1| == 32 && goal.Failed?
    ensures Onward(goal, size, Broken, false, L0, L1, b, h)
  {
  }

  /** One round of a block: literals, then a match played into the window, or the end of the block. */
  method TakeStep(s: Source, k: Sink, ghost M0: seq<nat>, t0: Table, ghost M1: seq<nat>, t1: Table, limit: nat)
      returns (e: Ending, end: bool)
    requires s.Idle() && k.Valid() && Ready(s, k) && Coded(s, t0, M0) && Coded(s, t1, M1) && Tabled(t0, k)
      && Tabled(t1, k) && |M0| <= 288 && |M1| <= 32
    modifies s, s.r, k, k.out
    ensures s.Idle() && k.Valid() && Later(old(s.r.fed), old(s.r.consumed), s.r.fed, s.r.consumed)
    ensures limit > |old(s.Left())| ==>
      Onward(ReadBody(Pad(M0, 288), Pad(M1, 32), old(s.Left()), old(k.h)), |old(s.Left())|, e, end, Pad(M0, 288),
        Pad(M1, 32), s.Left(), k.h)
    ensures Stepped(old(s.course), s.course, e, end, Pad(M0, 288), Pad(M1, 32), old(s.r.consumed), s.r.consumed,
      s.r.fed, old(k.h), k.h)
  {
    hide Supplied, Inv, Ring, Reads, ReadToken, ReadBody, Pad, Play, Playable, Follows, Unread, Place, Spelled,
      TokenRead, Grows, Stepped, Fits, Accepted, TokenLeft, Onward, Meets, Later, BytesToBits, Steady;
    ghost var L0, L1, b0, h0, c0, was := Pad(M0, 288), Pad(M1, 32), s.Left(), k.h, s.r.consumed, s.course;
    ghost var f0 := s.r.fed;
    HeldPadFits(t0, M0, 288);
    var ok, sym;
    ghost var b, c;
    ok, sym, b, c := TakeRun(s, k, M0, t0, L1, limit);
    ghost var h, mid, fed, c1 := k.h, s.course, s.r.fed, s.r.consumed;
    if !ok {
      NotStepped(was, mid, M0, L1, c0, c, s.r.consumed, fed, h0, h);
      if limit > |b0| { NotOnward(ReadBody(L0, L1, b0, h0), |b0|, L0, L1, s.Left(), h); }
      return Broken, false;
    }
    var step;
    e, step := TakeRest(s, sym, b, c, M0, M1, t1);
    LaterMore(f0, c0, fed, c1, s.r.fed, s.r.consumed);
    ghost var e0, read := e, s.course;
    end := step.End?;
    if e.Good? && step.Tok? {
      ok := PlayToken(k, step.t);
      if !ok {
        e := Outside;
        s.course := Next(s.course, false, TooFar);
      }
    }
    s.r.Delivered();
    StepTaken(L0, L1, b0, h0, b, h, e0, step, s.Left(), e, k.h);
    StepRead(was, mid, read, s.course, e0, e, step, M0, L1, c0, c, s.r.consumed, fed, s.r.fed, h0, h, k.h);
  }

  /** A round: more of the body, or all of it, or it went astray. */
  ghost predicate Stepped(was: Course, now: Course, e: Ending, end: bool, L0: seq<nat>, L1: seq<nat>, c0: seq<bool>,
      c: seq<bool>, fed: seq<Byte>, h0: seq<Byte>, h: seq<Byte>)
    requires |L0| == 288 && |L1| == 32
  {
    && (e.Good? && now.Within? ==> if end then BodyDone(L0, L1, c0, c, h0, h) else BodyRead(L0, L1, c0, c, h0, h))
    && (was.Within? && now.Astray? ==> BodyLeft(L0, L1, c0, fed, h0, now.way))
    && Steady(was, now, e)
  }

  lemma {:induction false} NotStepped(was: Course, now: Course, M0: seq<nat>, L1: seq<nat>, c0: seq<bool>, c: seq<bool>,
      c': seq<bool>, fed: seq<Byte>, h0: seq<Byte>, h: seq<Byte>)
    requires |M0| <= 288 && |L1| == 32 && Grows(was, now, M0, L1, c0, c, fed, h0, h)
    ensures Stepped(was, now, Broken, false, Pad(M0, 288), L1, c0, c', fed, h0, h)
  {
    hide Pad, BodyRead, BodyDone, BodyLeft;
  }

  /**
   * A step was read, astray at `read` unless it was read well, and played, astray at `now` if it reaches too far back.
   */
  lemma {:induction false} StepRead(was: Course, mid: Course, read: Course, now: Course, e0: Ending, e: Ending,
      step: Step,
      M0: seq<nat>, L1: seq<nat>, c0: seq<bool>, c1: seq<bool>, c2: seq<bool>, fed: seq<Byte>, fed': seq<Byte>,
      h0: seq<Byte>, h1: seq<Byte>, h2: seq<Byte>)
    requires |M0| <= 288 && |L1| == 32 && Grows(was, mid, M0, L1, c0, c1, fed, h0, h1) && fed <= fed'
    requires Steady(mid, read, e0) && c2 <= BytesToBits(fed')
    requires e0.Good? && read.Within? ==> TokenRead(Pad(M0, 288), L1, c1, c2, step)
    requires mid.Within? && read.Astray? ==> TokenLeft(Pad(M0, 288), L1, c1, fed', read.way)
    requires !e0.Good? || step.End? ==> e == e0 && now == read && h2 == h1
    requires e0.Good? && step.Tok? ==>
      if Playable(h1, step.t) then e.Good? && now == read && h2 == Play(h1, step.t)
      else e.Outside? && now == Next(read, false, TooFar)
    ensures Stepped(was, now, e, step.End?, Pad(M0, 288), L1, c0, c2, fed', h0, h2)
  {
    hide Pad, BodyRead, BodyDone, TokenRead, Play, Playable, BodyLeft, TokenLeft, BytesToBits;
    var L0 := Pad(M0, 288);
    if e.Good? && now.Within? {
      if step.Tok? {
        BodyMore(L0, L1, c0, c1, c2, h0, h1, step.t);
      } else {
        BodyEnd(L0, L1, c0, c1, c2, h0, h1);
      }
    }
    if was.Within? && now.Astray? {
      if mid.Astray? {
        BodyGrows(L0, L1, c0, fed, fed', h0, mid.way);
      } else if read.Astray? {
        BodyLeaves(L0, L1, c0, c1, fed', h0, h1, read.way);
      } else {
        BodyFar(L0, L1, c0, c1, c2, fed', h0, h1, step.t);
      }
    }
  }

  /**
   * Tokens up to the end of the block. A block has fewer symbols than the input has bits, so `limit` need only be
   * larger.
   */
  method TakeBody(s: Source, k: Sink, ghost M0: seq<nat>, t0: Table, ghost M1: seq<nat>, t1: Table, limit: nat)
      returns (e: Ending)
    requires s.Idle() && k.Valid() && Ready(s, k) && Coded(s, t0, M0) && Coded(s, t1, M1) && Tabled(t0, k)
      && Tabled(t1, k)
    requires |M0| <= 288 && |M1| <= 32
    modifies s, s.r, k, k.out
    ensures s.Idle() && k.Valid() && Steady(old(s.course), s.course, e)
      && Later(old(s.r.fed), old(s.r.consumed), s.r.fed, s.r.consumed)
    ensures limit > |old(s.Left())| ==>
      Meets(ReadBody(Pad(M0, 288), Pad(M1, 32), old(s.Left()), old(k.h)), e, k.h, s.Left())
    ensures e.Good? && s.course.Within? ==>
      BodyDone(Pad(M0, 288), Pad(M1, 32), old(s.r.consumed), s.r.consumed, old(k.h), k.h)
    ensures old(s.course).Within? && s.course.Astray? ==>
      BodyLeft(Pad(M0, 288), Pad(M1, 32), old(s.r.consumed), s.r.fed, old(k.h), s.course.way)
  {
    hide Supplied, Inv, Ring, ReadBody, Pad, Unread, Place, BodyDone, BodyRead, BodyLeft, Stepped, Decoding, Coded,
      Tabled, Ready, Onward, Meets, Steady;
    Apart(s, k, t0, M0);
    Apart(s, k, t1, M1);
    ghost var L0, L1, b0, h0, c0, was := Pad(M0, 288), Pad(M1, 32), s.Left(), k.h, s.r.consumed, s.course;
    ghost var goal := ReadBody(L0, L1, b0, k.h);
    SteppedStart(was, L0, L1, c0, s.r.fed, h0);
    assert Decoding(goal, |b0|, 0, Good, false, L0, L1, b0, h0) by { DecodingStart(L0, L1, b0, h0); }
    var n: nat, end := 0, false;
    e := Good;
    while e.Good? && !end && n < limit
      invariant s.Idle() && k.Valid() && Coded(s, t0, M0) && Coded(s, t1, M1)
        && Later(old(s.r.fed), old(s.r.consumed), s.r.fed, s.r.consumed)
      invariant limit > |b0| ==> Decoding(goal, |b0|, n, e, end, L0, L1, s.Left(), k.h)
      invariant Stepped(was, s.course, e, end, L0, L1, c0, s.r.consumed, s.r.fed, h0, k.h)
      decreases limit - n
    {
      ghost var mid, c, h, b, fed := s.course, s.r.consumed, k.h, s.Left(), s.r.fed;
      e, end := TakeStep(s, k, M0, t0, M1, t1, limit);
      if limit > |b0| { DecodingMore(goal, |b0|, limit, n, L0, L1, b, h, e, end, s.Left(), k.h); }
      SteppedMore(was, mid, s.course, e, end, L0, L1, c0, c, s.r.consumed, fed, s.r.fed, h0, h, k.h);
      n := n + 1;
    }
    SteppedEnd(was, s.course, e, end, L0, L1, c0, s.r.consumed, s.r.fed, h0, k.h);
    if limit > |b0| { DecodingEnd(goal, |b0|, limit, n, e, end, L0, L1, s.Left(), k.h); }
    if e.Good? && !end { e := Broken; }
  }

  /** A body that reads as `goal` is being read: `n` rounds have used at least as many of its bits. */
  ghost predicate Decoding(goal: Decoded<seq<Byte>>, size: nat, n: nat, e: Ending, end: bool, L0: seq<nat>,
      L1: seq<nat>, b: seq<bool>, h: seq<Byte>)
    requires |L0| == 288 && |L1| == 32
  {
    !goal.Failed? ==>
      || (e.Good? && |b| + n <= size && goal == if end then Done(h, b) else ReadBody(L0, L1, b, h))
      || (e.Outside? && goal.Departed?)
  }

  lemma {:induction false} DecodingStart(L0: seq<nat>, L1: seq<nat>, b: seq<bool>, h: seq<Byte>)
    requires |L0| == 288 && |L1| == 32
    ensures Decoding(ReadBody(L0, L1, b, h), |b|, 0, Good, false, L0, L1, b, h)
  {
    hide ReadBody;
  }

  lemma {:induction false} DecodingMore(goal: Decoded<seq<Byte>>, size: nat, limit: nat, n: nat, L0: seq<nat>,
      L1: seq<nat>, b: seq<bool>, h: seq<Byte>, e: Ending, end: bool, b': seq<bool>, h': seq<Byte>)
    requires |L0| == 288 && |L1| == 32 && limit > size && Decoding(goal, size, n, Good, false, L0, L1, b, h)
    requires limit > |b| ==> Onward(ReadBody(L0, L1, b, h), |b|, e, end, L0, L1, b', h')
    ensures Decoding(goal, size, n + 1, e, end, L0, L1, b', h')
  {
    hide ReadBody;
  }

  lemma {:induction false} DecodingEnd(goal: Decoded<seq<Byte>>, size: nat, limit: nat, n: nat, e: Ending, end: bool,
      L0: seq<nat>, L1: seq<nat>, b: seq<bool>, h: seq<Byte>)
    requires |L0| == 288 && |L1| == 32 && limit > size && Decoding(goal, size, n, e, end, L0, L1, b, h)
    requires !(e.Good? && !end && n < limit)
    ensures Meets(goal, if e.Good? && !end then Broken else e, h, b)
  {
    hide ReadBody;
  }

  lemma {:induction false} SteppedStart(was: Course, L0: seq<nat>, L1: seq<nat>, c: seq<bool>, fed: seq<Byte>,
      h: seq<Byte>)
    requires |L0| == 288 && |L1| == 32
    ensures Stepped(was, was, Good, false, L0, L1, c, c, fed, h, h)
  {
    hide BodyRead, BodyDone, BodyLeft;
    BodyStart(L0, L1, c, h);
  }

  lemma {:induction false} SteppedMore(was: Course, mid: Course, now: Course, e: Ending, end: bool, L0: seq<nat>,
      L1: seq<nat>, c0: seq<bool>, c1: seq<bool>, c2: seq<bool>, fed: seq<Byte>, fed': seq<Byte>, h0: seq<Byte>,
      h1: seq<Byte>, h2: seq<Byte>)
    requires |L0| == 288 && |L1| == 32 && Stepped(was, mid, Good, false, L0, L1, c0, c1, fed, h0, h1) && fed <= fed'
    requires Stepped(mid, now, e, end, L0, L1, c1, c2, fed', h1, h2)
    ensures Stepped(was, now, e, end, L0, L1, c0, c2, fed', h0, h2)
  {
    hide BodyRead, BodyDone, BodyLeft;
    if e.Good? && now.Within? { BodyJoin(L0, L1, c0, c1, c2, h0, h1, h2); }
    if was.Within? && now.Astray? {
      if mid.Astray? {
        BodyGrows(L0, L1, c0, fed, fed', h0, mid.way);
      } else {
        BodyJoinLeft(L0, L1, c0, c1, fed', h0, h1, now.way);
      }
    }
  }

  lemma {:induction false} SteppedEnd(was: Course, now: Course, e: Ending, end: bool, L0: seq<nat>, L1: seq<nat>,
      c0: seq<bool>, c: seq<bool>, fed: seq<Byte>, h0: seq<Byte>, h: seq<Byte>)
    requires |L0| == 288 && |L1| == 32 && Stepped(was, now, e, end, L0, L1, c0, c, fed, h0, h)
    ensures e.Good? && end && now.Within? ==> BodyDone(L0, L1, c0, c, h0, h)
    ensures was.Within? && now.Astray? ==> BodyLeft(L0, L1, c0, fed, h0, now.way)
    ensures Steady(was, now, if e.Good? && !end then Broken else e)
  {
    hide BodyRead, BodyDone, BodyLeft;
  }

  // ---- Stored blocks ----

  /** `n` more bytes of `b` on top of `h` give `data`, and `rest` follows them. */
  ghost predicate Storing(b: seq<bool>, h: seq<Byte>, n: nat, data: seq<Byte>, rest: seq<bool>) {
    8 * n <= |b| && h + BytesOf(b, n) == data && b[8 * n..] == rest
  }

  lemma {:induction false} BytesSplit(b: seq<bool>, m: nat, n: nat)
    requires m <= n && 8 * n <= |b|
    ensures BytesOf(b, n) == BytesOf(b, m) + BytesOf(b[8 * m..], n - m)
  {
    hide Val;
    if m == 0 {
      assert b[0..] == b;
    } else {
      BytesSplit(b[8..], m - 1, n - 1);
      assert b[8..][8 * (m - 1)..] == b[8 * m..];
    }
  }

  lemma {:induction false} Stored(b: seq<bool>, h: seq<Byte>, n: nat, s: seq<Byte>, data: seq<Byte>, rest: seq<bool>)
    requires |s| <= n && Storing(b, h, n, data, rest) && b[..8 * |s|] == BytesToBits(s)
    ensures Storing(b[8 * |s|..], h + s, n - |s|, data, rest)
  {
    hide BytesOf, BytesToBits;
    BytesSplit(b, |s|, n);
    assert b == BytesToBits(s) + b[8 * |s|..];
    BytesBack(s, b[8 * |s|..]);
    Assoc(h, s, BytesOf(b[8 * |s|..], n - |s|));
    assert b[8 * |s|..][8 * (n - |s|)..] == b[8 * n..];
  }

  lemma {:induction false} StoredAll(b: seq<bool>, h: seq<Byte>, data: seq<Byte>, rest: seq<bool>)
    requires Storing(b, h, 0, data, rest)
    ensures data == h && rest == b
  {
    assert BytesOf(b, 0) == [];
  }

  lemma {:induction false} OneByte(v: Byte)
    ensures BytesToBits([v]) == ToBits(v, 8) && |ToBits(v, 8)| == 8
  {
    assert BytesToBits([v]) == ToBits(v, 8) + BytesToBits([v][1..]);
  }

  /** Bytes moved from the input to the output. */
  ghost predicate Moved(was: seq<bool>, now: seq<bool>, h0: seq<Byte>, h: seq<Byte>, bytes: seq<Byte>) {
    now == was + BytesToBits(bytes) && h == h0 + bytes
  }

  lemma {:induction false} NoneMoved(c: seq<bool>, h: seq<Byte>)
    ensures Moved(c, c, h, h, [])
  {
    assert c + [] == c && h + [] == h;
  }

  lemma {:induction false} MovedMore(c0: seq<bool>, c1: seq<bool>, h0: seq<Byte>, h1: seq<Byte>, a: seq<Byte>,
      b: seq<Byte>)
    requires Moved(c0, c1, h0, h1, a)
    ensures Moved(c0, c1 + BytesToBits(b), h0, h1 + b, a + b)
  {
    BytesToBitsConcat(a, b);
    hide BytesToBits;
    Assoc(c0, BytesToBits(a), BytesToBits(b));
    Assoc(h0, a, b);
  }

  /** Bytes whose bits are already in the bit buffer. */
  method StoredBuffered(s: Source, k: Sink, n0: nat, ghost data: seq<Byte>, ghost rest: seq<bool>)
    returns (n: nat, ghost bytes: seq<Byte>)
    requires s.Idle() && k.Valid() && Ready(s, k)
    modifies s, s.r, k, k.out
    ensures s.Idle() && k.Valid() && (n > 0 ==> s.r.numBits == 0)
    ensures Storing(old(s.Left()), old(k.h), n0, data, rest) ==> Storing(s.Left(), k.h, n, data, rest)
    ensures s.course == old(s.course) && Later(old(s.r.fed), old(s.r.consumed), s.r.fed, s.r.consumed)
      && |bytes| + n == n0
    ensures Moved(old(s.r.consumed), s.r.consumed, old(k.h), k.h, bytes)
  {
    hide Supplied, Ring, Place, Unread, BytesToBits, ToBits, BytesOf, Moved;
    Pow2Values();
    n, bytes := n0, [];
    NoneMoved(s.r.consumed, k.h);
    ghost var good := Storing(s.Left(), k.h, n, data, rest);
    while n > 0 && s.r.numBits > 0
      invariant s.Idle() && k.Valid()
      invariant good ==> Storing(s.Left(), k.h, n, data, rest)
      invariant s.course == old(s.course) && Later(old(s.r.fed), old(s.r.consumed), s.r.fed, s.r.consumed)
        && |bytes| + n == n0
      invariant Moved(old(s.r.consumed), s.r.consumed, old(k.h), k.h, bytes)
    {
      ghost var b, h, c := s.Left(), k.h, s.r.consumed;
      var v := s.NextBits(8);
      k.PutByte(v);
      OneByte(v);
      MovedMore(old(s.r.consumed), c, old(k.h), h, bytes, [v]);
      bytes := bytes + [v];
      if good { Stored(b, h, n, [v], data, rest); }
      n := n - 1;
    }
  }

  /** Waits until the piece at hand has bytes. */
  method Refill(s: Source) returns (ok: bool)
    requires s.Idle() && s as object != s.r && s.r.numBits == 0
    modifies s, s.r
    ensures s.Idle() && s.r.numBits == 0 && s.Left() == old(s.Left())
    ensures s.r.consumed == old(s.r.consumed) && s.course == old(s.course)
      && Later(old(s.r.fed), old(s.r.consumed), s.r.fed, s.r.consumed)
    ensures ok ==> s.r.pos < |s.r.input|
    ensures !ok ==> s.Left() == []
  {
    hide Supplied, Unread, BytesToBits;
    while s.r.pos == |s.r.input|
      invariant s.Idle() && s.r.numBits == 0 && s.r.consumed == old(s.r.consumed) && s.course == old(s.course)
        && Later(old(s.r.fed), old(s.r.consumed), s.r.fed, s.r.consumed)
      decreases |s.chunks| + (if s.r.more then 1 else 0)
    {
      if !s.r.more {
        s.UsedUp();
        return false;
      }
      s.Supply();
    }
    ok := true;
  }

  /** As many bytes as input and window allow. */
  method StoredChunk(s: Source, k: Sink, n: nat, ghost data: seq<Byte>, ghost rest: seq<bool>)
    returns (ok: bool, m: nat, ghost bytes: seq<Byte>)
    requires s.Idle() && k.Valid() && Ready(s, k) && s.r.numBits == 0 && n > 0
    modifies s, s.r, k, k.out
    ensures s.Idle() && k.Valid() && s.r.numBits == 0 && (ok ==> 0 < m <= n)
    ensures Storing(old(s.Left()), old(k.h), n, data, rest) ==> ok && Storing(s.Left(), k.h, n - m, data, rest)
    ensures s.course == old(s.course) && Later(old(s.r.fed), old(s.r.consumed), s.r.fed, s.r.consumed)
    ensures ok ==> |bytes| == m && s.r.consumed == old(s.r.consumed) + BytesToBits(bytes) && k.h == old(k.h) + bytes
  {
    hide Supplied, Ring, Place, Unread, BytesToBits, ToBits, BytesOf;
    k.MakeRoom();
    ok := Refill(s);
    if !ok { return false, 0, []; }
    ghost var b, h := s.Left(), k.h;
    m := Min(Min(k.out.Length - k.cur, |s.r.input| - s.r.pos), n);
    var piece := s.NextBytes(m);
    k.PutBytes(piece);
    bytes := piece;
    if Storing(b, h, n, data, rest) { Stored(b, h, n, bytes, data, rest); }
  }

  /** The remaining bytes of the block. */
  method StoredBulk(s: Source, k: Sink, n0: nat, ghost data: seq<Byte>, ghost rest: seq<bool>)
    returns (ok: bool, ghost bytes: seq<Byte>)
    requires s.Idle() && k.Valid() && Ready(s, k) && (n0 > 0 ==> s.r.numBits == 0)
    modifies s, s.r, k, k.out
    ensures s.Idle() && k.Valid()
    ensures Storing(old(s.Left()), old(k.h), n0, data, rest) ==> ok && k.h == data && s.Left() == rest
    ensures s.course == old(s.course) && Later(old(s.r.fed), old(s.r.consumed), s.r.fed, s.r.consumed)
    ensures ok ==> |bytes| == n0 && Moved(old(s.r.consumed), s.r.consumed, old(k.h), k.h, bytes)
  {
    hide Supplied, Ring, Place, Unread, Storing, Moved, BytesToBits;
    var n := n0;
    bytes := [];
    NoneMoved(s.r.consumed, k.h);
    ghost var good := Storing(s.Left(), k.h, n, data, rest);
    while n > 0
      invariant s.Idle() && k.Valid() && (n > 0 ==> s.r.numBits == 0) && 0 <= n
      invariant good ==> Storing(s.Left(), k.h, n, data, rest)
      invariant s.course == old(s.course) && Later(old(s.r.fed), old(s.r.consumed), s.r.fed, s.r.consumed)
        && |bytes| + n == n0
      invariant Moved(old(s.r.consumed), s.r.consumed, old(k.h), k.h, bytes)
    {
      ghost var c, h, piece := s.r.consumed, k.h, [];
      var m;
      ok, m, piece := StoredChunk(s, k, n, data, rest);
      if !ok { return; }
      MovedMore(old(s.r.consumed), c, old(k.h), h, bytes, piece);
      bytes := bytes + piece;
      n := n - m;
    }
    if good { StoredAll(s.Left(), k.h, data, rest); }
    ok := true;
  }

  /** All bytes of the block: first those in the bit buffer, then straight from the input. */
  method StoredData(s: Source, k: Sink, len: nat, ghost data: seq<Byte>, ghost rest: seq<bool>)
    returns (ok: bool, ghost bytes: seq<Byte>)
    requires s.Idle() && k.Valid() && Ready(s, k)
    modifies s, s.r, k, k.out
    ensures s.Idle() && k.Valid() && s.course == old(s.course)
      && Later(old(s.r.fed), old(s.r.consumed), s.r.fed, s.r.consumed)
    ensures Storing(old(s.Left()), old(k.h), len, data, rest) ==> ok && k.h == data && s.Left() == rest
    ensures ok ==> |bytes| == len && Moved(old(s.r.consumed), s.r.consumed, old(k.h), k.h, bytes)
  {
    hide Supplied, Ring, Place, Unread, Storing, Moved, BytesToBits;
    ghost var c0, h0, more := s.r.consumed, k.h, [];
    var n;
    n, bytes := StoredBuffered(s, k, len, data, rest);
    ghost var c1, h1 := s.r.consumed, k.h;
    ok, more := StoredBulk(s, k, n, data, rest);
    if ok { MovedTwice(c0, c1, s.r.consumed, h0, h1, k.h, bytes, more); }
    bytes := bytes + more;
  }

  lemma {:induction false} MovedTwice(c0: seq<bool>, c1: seq<bool>, c2: seq<bool>, h0: seq<Byte>, h1: seq<Byte>,
      h2: seq<Byte>, a: seq<Byte>, b: seq<Byte>)
    requires Moved(c0, c1, h0, h1, a) && Moved(c1, c2, h1, h2, b)
    ensures Moved(c0, c2, h0, h2, a + b)
  {
    hide BytesToBits;
    MovedMore(c0, c1, h0, h1, a, b);
  }

  lemma {:induction false} ValWord(x: seq<bool>, y: seq<bool>)
    requires |x| == 8 && |y| == 8
    ensures Val(x + y) == Val(x) + 256 * Val(y)
  {
    Pow2Values();
    ToBitsVal(x);
    ToBitsVal(y);
    ShlEight(Val(y));
    hide ToBits, Val;
    ToBitsAppend(Val(x), 8, Val(y), 8);
    ToBitsVal(x + y);
    ValToBits(Val(x + y), 16);
    ValToBits(Val(x) + 256 * Val(y), 16);
  }

  lemma {:induction false} TwoBytes(b: seq<bool>, lo: nat, b1: seq<bool>, hi: nat, b2: seq<bool>)
    requires Take(b, 8).Done? ==> Take(b, 8) == Done(lo, b1)
    requires Take(b1, 8).Done? ==> Take(b1, 8) == Done(hi, b2)
    ensures Take(b, 16).Done? ==> Take(b, 16) == Done(lo + 256 * hi, b2)
  {
    hide Val;
    if Take(b, 16).Done? {
      ValWord(b[..8], b1[..8]);
      assert b[..16] == b[..8] + b1[..8] && b1[8..] == b[16..];
    }
  }

  /** A 16-bit field as two bytes, the low one first. */
  method TakeWord(s: Source) returns (v: nat)
    requires s.Idle() && s as object != s.r
    modifies s, s.r
    ensures s.Idle() && v < 65536
    ensures Take(old(s.Left()), 16).Done? ==> Take(old(s.Left()), 16) == Done(v, s.Left())
    ensures s.r.consumed == old(s.r.consumed) + ToBits(v, 16) && s.course == old(s.course)
      && Later(old(s.r.fed), old(s.r.consumed), s.r.fed, s.r.consumed)
  {
    hide Supplied, Take, Pow2, ToBits;
    Pow2Values();
    ghost var b, c := s.Left(), s.r.consumed;
    var lo := Field(s, 8);
    ghost var b1 := s.Left();
    var hi := Field(s, 8);
    TwoBytes(b, lo, b1, hi, s.Left());
    v := lo + 256 * hi;
    WordBits(lo, hi);
    Assoc(c, ToBits(lo, 8), ToBits(hi, 8));
  }

  lemma {:induction false} WordBits(lo: nat, hi: nat)
    requires lo < 256
    ensures ToBits(lo, 8) + ToBits(hi, 8) == ToBits(lo + 256 * hi, 16)
  {
    hide ToBits;
    Pow2Values();
    ShlEight(hi);
    ToBitsAppend(lo, 8, hi, 8);
  }

  lemma {:induction false} StoredStep(b: seq<bool>, h: seq<Byte>, b1: seq<bool>, len: nat, b2: seq<bool>, inv: nat,
      b3: seq<bool>)
    requires DecodeStored(b, h).Done? && b1 == Skip(b)
    requires Take(b1, 16).Done? ==> Take(b1, 16) == Done(len, b2)
    requires Take(b2, 16).Done? ==> Take(b2, 16) == Done(inv, b3)
    ensures len == 65535 - inv && Storing(b3, h, len, DecodeStored(b, h).value, DecodeStored(b, h).rest)
  {
    hide Take, BytesOf;
  }

  /** A stored block: skip to the byte boundary, length and complement, bytes. */
  method TakeStored(s: Source, k: Sink) returns (ok: bool)
    requires s.Idle() && k.Valid() && Ready(s, k)
    modifies s, s.r, k, k.out
    ensures s.Idle() && k.Valid()
    ensures s.course == old(s.course) && Later(old(s.r.fed), old(s.r.consumed), s.r.fed, s.r.consumed)
      && (ok ==> StoredRead(old(s.r.consumed), s.r.consumed, old(k.h), k.h))
    ensures DecodeStored(old(s.Left()), old(k.h)).Done? ==>
      ok && DecodeStored(old(s.Left()), old(k.h)) == Done(k.h, s.Left())
  {
    hide Supplied, Ring, Place, Unread, BytesOf, Take, DecodeStored, Storing, Moved, StoredRead, Aligned, ToBits,
      BytesToBits, Skip;
    ghost var b, h, c0 := s.Left(), k.h, s.r.consumed;
    ghost var goal := DecodeStored(b, h);
    s.Align();
    ghost var b1, c1 := s.Left(), s.r.consumed;
    var len := TakeWord(s);
    ghost var b2 := s.Left();
    var inv := TakeWord(s);
    if goal.Done? { StoredStep(b, h, b1, len, b2, inv, s.Left()); }
    if len != 65535 - inv { return false; }
    ghost var data, rest := if goal.Done? then goal.value else [], if goal.Done? then goal.rest else [];
    ghost var c2, bytes := s.r.consumed, [];
    ok, bytes := StoredData(s, k, len, data, rest);
    if ok { StoredMoved(c0, c1, c2, s.r.consumed, h, k.h, bytes); }
  }

  lemma {:induction false} StoredMoved(c0: seq<bool>, c1: seq<bool>, c2: seq<bool>, c3: seq<bool>, h0: seq<Byte>,
      h: seq<Byte>, s: seq<Byte>)
    requires c0 <= c1 && |c1| < |c0| + 8 && Aligned(|c1|) && |s| <= 65535
    requires c2 == c1 + ToBits(|s|, 16) + ToBits(65535 - |s|, 16) && Moved(c2, c3, h0, h, s)
    ensures StoredRead(c0, c3, h0, h)
  {
    hide ToBits, BytesToBits, StoredRead, Aligned;
    StoredSpelled(c0, c1, s, c3, h0);
  }

  // ---- Whole blocks and streams ----

  /** The tables for both codes, and the tokens of the block. */
  method TakeCoded(s: Source, k: Sink, M0: seq<nat>, M1: seq<nat>, limit: nat) returns (e: Ending)
    requires s.Idle() && k.Valid() && Ready(s, k) && |M0| <= 288 && |M1| <= 32
    requires (forall j :: 0 <= j < |M0| ==> M0[j] <= 15) && (forall j :: 0 <= j < |M1| ==> M1[j] <= 15)
    modifies s, s.r, k, k.out
    ensures s.Idle() && k.Valid() && Steady(old(s.course), s.course, e)
      && Later(old(s.r.fed), old(s.r.consumed), s.r.fed, s.r.consumed)
    ensures Accepted(Pad(M0, 288)) && Accepted(Pad(M1, 32)) && limit > |old(s.Left())| ==>
      Meets(ReadBody(Pad(M0, 288), Pad(M1, 32), old(s.Left()), old(k.h)), e, k.h, s.Left())
    ensures !e.Broken? ==> Accepted(Pad(M0, 288)) && Accepted(Pad(M1, 32))
    ensures e.Good? && s.course.Within? ==>
      BodyDone(Pad(M0, 288), Pad(M1, 32), old(s.r.consumed), s.r.consumed, old(k.h), k.h)
    ensures old(s.course).Within? && s.course.Astray? ==>
      && Accepted(Pad(M0, 288)) && Accepted(Pad(M1, 32))
      && BodyLeft(Pad(M0, 288), Pad(M1, 32), old(s.r.consumed), s.r.fed, old(k.h), s.course.way)
  {
    hide Supplied, Inv, Ring, ReadBody, Pad, Unread, Place, Accepted, Trims, BodyDone, BodyLeft, Meets;
    PadTrims(M0, 288);
    TrimAccepted(M0, Pad(M0, 288));
    PadTrims(M1, 32);
    TrimAccepted(M1, Pad(M1, 32));
    var t1, ok1 := MakeTable(s, M1);
    if !ok1 { return Broken; }
    var t0, ok0 := MakeTable(s, M0);
    if !ok0 { return Broken; }
    e := TakeBody(s, k, M0, t0, M1, t1, limit);
  }

  lemma {:induction false} FixedPadded()
    ensures Pad(FixedLit(), 288) == FixedLit() && Pad(FixedDist(), 32) == FixedDist() && Accepted(FixedLit())
      && Accepted(FixedDist())
  {
    FixedComplete();
  }

  /** A block with the fixed codes. */
  method TakeFixed(s: Source, k: Sink, limit: nat) returns (e: Ending)
    requires s.Idle() && k.Valid() && Ready(s, k)
    modifies s, s.r, k, k.out
    ensures s.Idle() && k.Valid() && Steady(old(s.course), s.course, e)
      && Later(old(s.r.fed), old(s.r.consumed), s.r.fed, s.r.consumed)
    ensures limit > |old(s.Left())| ==> Meets(ReadType(1, old(s.Left()), old(k.h)), e, k.h, s.Left())
    ensures e.Good? && s.course.Within? ==> TypeRead(1, old(s.r.consumed), s.r.consumed, old(k.h), k.h)
    ensures old(s.course).Within? && s.course.Astray? ==>
      TypeLeft(1, old(s.r.consumed), s.r.fed, old(k.h), s.course.way)
  {
    hide Supplied, Ring, ReadBody, Pad, Unread, Place, Accepted, FixedLit, FixedDist, TypeRead, BodyDone, BodyLeft,
      TypeLeft, Meets, Steady;
    ghost var c0, h0, was := s.r.consumed, k.h, s.course;
    FixedPadded();
    e := TakeCoded(s, k, FixedLit(), FixedDist(), limit);
    if e.Good? && s.course.Within? { TypeFixed(c0, s.r.consumed, h0, k.h); }
    if was.Within? && s.course.Astray? { FixedLeaves(c0, s.r.fed, h0, s.course.way); }
  }

  /** A block whose header brings its own codes. */
  method TakeDynamic(s: Source, k: Sink, limit: nat) returns (e: Ending)
    requires s.Idle() && k.Valid() && Ready(s, k)
    modifies s, s.r, k, k.out
    ensures s.Idle() && k.Valid() && Steady(old(s.course), s.course, e)
      && Later(old(s.r.fed), old(s.r.consumed), s.r.fed, s.r.consumed)
    ensures limit > |old(s.Left())| ==> Meets(ReadType(2, old(s.Left()), old(k.h)), e, k.h, s.Left())
    ensures e.Good? && s.course.Within? ==> TypeRead(2, old(s.r.consumed), s.r.consumed, old(k.h), k.h)
    ensures old(s.course).Within? && s.course.Astray? ==>
      TypeLeft(2, old(s.r.consumed), s.r.fed, old(k.h), s.course.way)
  {
    hide Supplied, Ring, ReadBody, DecodeHeader, Pad, Unread, Place, Accepted, TypeRead, BodyDone, BodyLeft, TypeLeft,
      HeaderRead, HeaderLeft, Meets, ReadType;
    ghost var b0, c0, h0, was := s.Left(), s.r.consumed, k.h, s.course;
    var ok, M0, M1 := TakeHeader(s);
    ghost var b1, c1, mid, fed := s.Left(), s.r.consumed, s.course, s.r.fed;
    if was.Within? && mid.Astray? { DynamicLeaves(c0, fed, h0, mid.way); }
    if !ok {
      NoHeader(b0, h0, k.h, b1);
      return Broken;
    }
    e := TakeCoded(s, k, M0, M1, limit);
    if limit > |b0| { HeaderThen(b0, h0, limit, M0, M1, b1, e, k.h, s.Left()); }
    if e.Good? && s.course.Within? { TypeDynamic(c0, c1, s.r.consumed, M0, M1, h0, k.h); }
    if was.Within? && s.course.Astray? {
      if mid.Astray? {
        TypeGrows(2, c0, fed, s.r.fed, h0, mid.way);
      } else {
        DynamicBodyLeaves(c0, c1, s.r.fed, M0, M1, h0, s.course.way);
      }
    }
  }

  lemma {:induction false} NoHeader(b: seq<bool>, h: seq<Byte>, h': seq<Byte>, rest: seq<bool>)
    requires !DecodeHeader(b).Done?
    ensures Meets(ReadType(2, b, h), Broken, h', rest)
  {
    hide DecodeHeader, ReadBody;
  }

  lemma {:induction false} HeaderThen(b: seq<bool>, h: seq<Byte>, limit: nat, M0: seq<nat>, M1: seq<nat>, b1: seq<bool>,
      e: Ending, h': seq<Byte>, rest: seq<bool>)
    requires |M0| <= 288 && |M1| <= 32 && limit > |b|
    requires DecodeHeader(b).Done? ==> DecodeHeader(b) == Done(Book(Pad(M0, 288), Pad(M1, 32)), b1)
    requires DecodeHeader(b).Done? ==> Accepted(Pad(M0, 288)) && Accepted(Pad(M1, 32))
    requires Accepted(Pad(M0, 288)) && Accepted(Pad(M1, 32)) && limit > |b1| ==>
      Meets(ReadBody(Pad(M0, 288), Pad(M1, 32), b1, h), e, h', rest)
    ensures Meets(ReadType(2, b, h), e, h', rest)
  {
    hide DecodeHeader, ReadBody, Pad, Accepted;
  }

  /** What follows the three header bits of a block of the given type. */
  method TakeType(s: Source, k: Sink, kind: nat, limit: nat) returns (e: Ending)
    requires s.Idle() && k.Valid() && Ready(s, k)
    modifies s, s.r, k, k.out
    ensures s.Idle() && k.Valid() && Steady(old(s.course), s.course, e)
      && Later(old(s.r.fed), old(s.r.consumed), s.r.fed, s.r.consumed)
    ensures limit > |old(s.Left())| ==> Meets(ReadType(kind, old(s.Left()), old(k.h)), e, k.h, s.Left())
    ensures e.Good? && s.course.Within? ==> TypeRead(kind, old(s.r.consumed), s.r.consumed, old(k.h), k.h)
    ensures old(s.course).Within? && s.course.Astray? ==>
      TypeLeft(kind, old(s.r.consumed), s.r.fed, old(k.h), s.course.way)
  {
    hide Supplied, Ring, ReadBody, DecodeHeader, DecodeStored, Unread, Place, FixedLit, FixedDist, TypeRead, TypeLeft,
      StoredRead;
    ghost var b0, c0, h0 := s.Left(), s.r.consumed, k.h;
    e := Broken;
    if kind == 0 {
      var ok := TakeStored(s, k);
      StoredStays(b0, h0);
      if ok {
        e := Good;
        TypeStored(c0, s.r.consumed, h0, k.h);
      }
    } else if kind == 1 {
      e := TakeFixed(s, k, limit);
    } else if kind == 2 {
      e := TakeDynamic(s, k, limit);
    }
  }

  /** One block. */
  method TakeBlock(s: Source, k: Sink, limit: nat) returns (e: Ending, last: bool)
    requires s.Idle() && k.Valid() && Ready(s, k)
    modifies s, s.r, k, k.out
    ensures s.Idle() && k.Valid() && Steady(old(s.course), s.course, e)
      && Later(old(s.r.fed), old(s.r.consumed), s.r.fed, s.r.consumed)
    ensures limit > |old(s.Left())| ==> Meets(ReadBlock(old(s.Left()), old(k.h)), e, Block(last, k.h), s.Left())
    ensures e.Good? && s.course.Within? ==> BlockRead(old(s.r.consumed), s.r.consumed, last, old(k.h), k.h)
    ensures old(s.course).Within? && s.course.Astray? ==>
      BlockLeft(old(s.r.consumed), s.r.fed, old(k.h), s.course.way)
  {
    hide Supplied, Ring, ReadType, Unread, Place, Take, ReadBlock, TypeRead, BlockRead, ToBits, TypeLeft, BlockLeft;
    ghost var b, h, c, was := s.Left(), k.h, s.r.consumed, s.course;
    assert Pow2(3) == 8;
    var v := Field(s, 3);
    if !ReadBlock(b, h).Failed? { BlockStep(b, h, v, s.Left()); }
    last := v % 2 == 1;
    e := TakeType(s, k, v / 2, limit);
    if e.Good? && s.course.Within? { BlockSpelled(c, v, s.r.consumed, h, k.h); }
    if was.Within? && s.course.Astray? { BlockLeaves(c, v, s.r.fed, h, s.course.way); }
  }

  /**
   * Blocks up to the last. A stream that decodes is decoded, however it is split and however often the window is
   * emptied, and more generally the inflater ends as `ReadStream` says. When it succeeds, the bits taken are a whole
   * stream for what came out if and only if the input does not leave the format, and it can leave it only with a code
   * of one symbol or none. When it ends outside, the input does leave the format.
   */
  method Inflate(s: Source, k: Sink, limit: nat) returns (e: Ending)
    requires s.Idle() && k.Valid() && Ready(s, k)
    modifies s, s.r, k, k.out
    ensures s.Idle() && k.Valid() && old(s.r.consumed) <= s.r.consumed
    ensures DecodeStream(old(s.Left()), old(k.h)).Done? && limit > |old(s.Left())| ==>
      e.Good? && DecodeStream(old(s.Left()), old(k.h)) == Done(k.h, s.Left())
    ensures limit > |old(s.Left())| ==> Meets(ReadStream(old(s.Left()), old(k.h)), e, k.h, s.Left())
    ensures e.Good? ==>
      (StreamDone(old(s.r.consumed), s.r.consumed, old(k.h), k.h) <==>
        !Escapes(s.whole, old(s.r.consumed), old(k.h)))
    ensures e.Good? ==> forall way: Way :: Departs(s.whole, old(s.r.consumed), old(k.h), way) ==>
      way.NoCode? && Bare(way.lens)
    ensures e.Outside? ==> Escapes(s.whole, old(s.r.consumed), old(k.h))
  {
    hide Supplied, Ring, Unread, Place, ReadBlock, ReadStream, DecodeStream, BlockRead, StreamRead, StreamDone,
      Reached, Streaming, Meets, Steady, BlockLeft, Departs, Escapes, Bare;
    ghost var b0, c0, h0 := s.Left(), s.r.consumed, k.h;
    s.course := Within;
    ReachedStart(c0, s.r.fed, h0);
    ghost var goal := ReadStream(b0, h0);
    StreamingStart(b0, h0);
    var n: nat, last := 0, false;
    e := Good;
    while e.Good? && !last && n < limit
      invariant s.Idle() && k.Valid() && c0 <= s.r.consumed
      invariant limit > |b0| ==> Streaming(goal, |b0|, n, e, last, s.Left(), k.h)
      invariant Reached(s.course, e, last, c0, s.r.consumed, s.r.fed, h0, k.h)
      decreases limit - n
    {
      ghost var mid, c, h, b, fed := s.course, s.r.consumed, k.h, s.Left(), s.r.fed;
      e, last := TakeBlock(s, k, limit);
      if limit > |b0| { StreamingMore(goal, |b0|, limit, n, b, h, e, last, s.Left(), k.h); }
      ReachedMore(mid, s.course, e, last, c0, c, s.r.consumed, fed, s.r.fed, h0, h, k.h);
      n := n + 1;
    }
    s.r.Delivered();
    ReachedEnd(s.course, e, last, c0, s.r.consumed, s.r.fed, s.r.more, s.chunks, s.whole, h0, k.h);
    if limit > |b0| { StreamingEnd(goal, |b0|, limit, n, e, last, s.Left(), k.h); }
    if e.Good? && !last { e := Broken; }
    if DecodeStream(b0, h0).Done? && limit > |b0| { StreamRead0(b0, h0, e, k.h, s.Left()); }
  }

  lemma {:induction false} StreamRead0(b: seq<bool>, h: seq<Byte>, e: Ending, h': seq<Byte>, rest: seq<bool>)
    requires DecodeStream(b, h).Done? && Meets(ReadStream(b, h), e, h', rest)
    ensures e.Good? && DecodeStream(b, h) == Done(h', rest)
  {
    hide DecodeStream, ReadStream;
    StreamAgrees(b, h);
  }

  /** A stream that reads as `goal` is being read: `n` blocks have used at least as many of its bits. */
  ghost predicate Streaming(goal: Decoded<seq<Byte>>, size: nat, n: nat, e: Ending, last: bool, b: seq<bool>,
      h: seq<Byte>) {
    !goal.Failed? ==>
      || (e.Good? && |b| + n <= size && goal == if last then Done(h, b) else ReadStream(b, h))
      || (e.Outside? && goal.Departed?)
  }

  lemma {:induction false} StreamingStart(b: seq<bool>, h: seq<Byte>)
    ensures Streaming(ReadStream(b, h), |b|, 0, Good, false, b, h)
  {
    hide ReadStream;
  }

  lemma {:induction false} StreamingMore(goal: Decoded<seq<Byte>>, size: nat, limit: nat, n: nat, b: seq<bool>,
      h: seq<Byte>, e: Ending, last: bool, b': seq<bool>, h': seq<Byte>)
    requires limit > size && Streaming(goal, size, n, Good, false, b, h)
    requires limit > |b| ==> Meets(ReadBlock(b, h), e, Block(last, h'), b')
    ensures Streaming(goal, size, n + 1, e, last, b', h')
  {
    hide ReadStream, ReadBlock;
    if !goal.Failed? { StreamStep(b, h); }
  }

  lemma {:induction false} StreamingEnd(goal: Decoded<seq<Byte>>, size: nat, limit: nat, n: nat, e: Ending, last: bool,
      b: seq<bool>, h: seq<Byte>)
    requires limit > size && Streaming(goal, size, n, e, last, b, h) && !(e.Good? && !last && n < limit)
    ensures Meets(goal, if e.Good? && !last then Broken else e, h, b)
  {
    hide ReadStream;
  }

  /** Blocks that went well, part of a stream or all of it; or they went astray. */
  ghost predicate Reached(now: Course, e: Ending, last: bool, c0: seq<bool>, c: seq<bool>, fed: seq<Byte>,
      h0: seq<Byte>,
      h: seq<Byte>) {
    && (e.Good? && now.Within? ==> if last then StreamDone(c0, c, h0, h) else StreamRead(c0, c, h0, h))
    && (now.Astray? ==> StreamLeft(c0, fed, h0, now.way))
    && Steady(Within, now, e)
  }

  lemma {:induction false} ReachedStart(c: seq<bool>, fed: seq<Byte>, h: seq<Byte>)
    ensures Reached(Within, Good, false, c, c, fed, h, h)
  {
    hide StreamRead, StreamDone, StreamLeft;
    StreamStart(c, h);
  }

  lemma {:induction false} ReachedMore(mid: Course, now: Course, e: Ending, last: bool, c0: seq<bool>, c1: seq<bool>,
      c2: seq<bool>, fed: seq<Byte>, fed': seq<Byte>, h0: seq<Byte>, h1: seq<Byte>, h2: seq<Byte>)
    requires Reached(mid, Good, false, c0, c1, fed, h0, h1) && Steady(mid, now, e) && fed <= fed'
    requires e.Good? && now.Within? ==> BlockRead(c1, c2, last, h1, h2)
    requires mid.Within? && now.Astray? ==> BlockLeft(c1, fed', h1, now.way)
    ensures Reached(now, e, last, c0, c2, fed', h0, h2)
  {
    hide StreamRead, StreamDone, BlockRead, StreamLeft, BlockLeft;
    if e.Good? && now.Within? { StreamMore(c0, c1, c2, last, h0, h1, h2); }
    if mid.Astray? {
      StreamGrows(c0, fed, fed', h0, mid.way);
    } else if now.Astray? {
      StreamLeaves(c0, c1, fed', h0, h1, now.way);
    }
  }

  /** What has been reached says whether the bits taken are a stream. */
  lemma {:induction false} ReachedEnd(now: Course, e: Ending, last: bool, c0: seq<bool>, c: seq<bool>, fed: seq<Byte>,
      more: bool, chunks: seq<seq<Byte>>, whole: seq<Byte>, h0: seq<Byte>, h: seq<Byte>)
    requires Reached(now, e, last, c0, c, fed, h0, h) && Supplied(fed, more, chunks, whole) && c <= BytesToBits(fed)
    ensures e.Good? && last ==> (StreamDone(c0, c, h0, h) <==> !Escapes(whole, c0, h0))
    ensures e.Good? ==> forall way: Way :: Departs(whole, c0, h0, way) && last ==> way.NoCode? && Bare(way.lens)
    ensures e.Outside? ==> Escapes(whole, c0, h0)
  {
    hide StreamRead, StreamDone, StreamLeft, Departs, Supplied, BytesToBits, Bare;
    var pad := Padding(fed, more, chunks, whole);
    if now.Astray? { InputDeparts(fed, more, chunks, whole, c0, h0, now.way); }
    forall way: Way | Departs(whole, c0, h0, way) ensures !StreamDone(c0, c, h0, h) {
      DepartedIsNone(whole, pad, c0, c, h0, h, way);
    }
    if e.Good? {
      forall way: Way | Departs(whole, c0, h0, way) && last ensures way.NoCode? && Bare(way.lens) {
        if now.Astray? {
          DepartsOnce(whole, c0, h0, way, now.way);
          BareDeparts(whole, c0, h0, way.lens);
        } else {
          assert false;
        }
      }
    }
  }
}
