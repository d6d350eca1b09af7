/** Run-length coding of code lengths in a dynamic block's header. */
module CodeLens {
  import opened Bits
  import opened Canonical

  const MAX_LENS := 320

  /** One packed item: a length, or a run of the previous length or of zeros with its extra bits. */
  datatype Item = Length(v: nat) | Repeat(extra: nat) | Zeros(extra: nat) | ManyZeros(extra: nat)

  function Symbol(x: Item): (c: nat) {
    match x
    case Length(v) => v
    case Repeat(_) => 16
    case Zeros(_) => 17
    case ManyZeros(_) => 18
  }

  /** The item's bytes in the packed buffer. */
  function Packed(x: Item): (b: seq<nat>)
    ensures 1 <= |b| <= 2 && b[0] == Symbol(x)
  {
    match x
    case Length(v) => [v]
    case Repeat(e) => [16, e]
    case Zeros(e) => [17, e]
    case ManyZeros(e) => [18, e]
  }

  predicate Fine(x: Item) {
    match x
    case Length(v) => v <= 15
    case Repeat(e) => e <= 3
    case Zeros(e) => e <= 7
    case ManyZeros(e) => e <= 127
  }

  function Times(v: nat, n: nat): (s: seq<nat>)
    ensures |s| == n && forall i :: 0 <= i < n ==> s[i] == v
  {
    if n == 0 then [] else Times(v, n - 1) + [v]
  }

  /** The lengths an item adds after `before`. */
  function Run(x: Item, before: seq<nat>): (s: seq<nat>) {
    match x
    case Length(v) => [v]
    case Repeat(e) => if before == [] then [] else Times(before[|before| - 1], e + 3)
    case Zeros(e) => Times(0, e + 3)
    case ManyZeros(e) => Times(0, e + 11)
  }

  function Expand(items: seq<Item>): (s: seq<nat>) {
    if items == [] then []
    else var before := Expand(items[..|items| - 1]); before + Run(items[|items| - 1], before)
  }

  function Flat(items: seq<Item>): (b: seq<nat>) {
    if items == [] then [] else Flat(items[..|items| - 1]) + Packed(items[|items| - 1])
  }

  function Uses(items: seq<Item>, c: nat): (n: nat) {
    if items == [] then 0 else Uses(items[..|items| - 1], c) + B(Symbol(items[|items| - 1]) == c)
  }

  /** Every item is encodable and no run refers to a length before the first. */
  ghost predicate Sound(items: seq<Item>) {
    (forall i :: 0 <= i < |items| ==> Fine(items[i])) && (|items| > 0 ==> !items[0].Repeat?)
  }

  lemma {:induction false} Push(items: seq<Item>, x: Item)
    ensures Expand(items + [x]) == Expand(items) + Run(x, Expand(items))
    ensures Flat(items + [x]) == Flat(items) + Packed(x)
    ensures forall c: nat :: Uses(items + [x], c) == Uses(items, c) + B(Symbol(x) == c)
  {
    var t := items + [x];
    assert t[..|t| - 1] == items;
  }

  lemma {:induction false} TimesPush(v: nat, n: nat)
    ensures Times(v, n + 1) == Times(v, n) + [v]
  {
  }

  /** What the counters still owe. */
  function Pending(z: nat, r: nat, prev: nat): (s: seq<nat>) {
    Times(0, z) + Times(prev, r)
  }

  /** State of the packing loop after `done`. */
  ghost predicate Packing(items: seq<Item>, done: seq<nat>, z: nat, r: nat, prev: nat) {
    && Sound(items) && done == Expand(items) + Pending(z, r, prev)
    && (z == 0 || r == 0) && z <= 138 && r <= 6
    && (if done == [] then prev == 255 && items == [] else prev == done[|done| - 1] <= 15)
    && (done != [] && prev != 0 ==> Expand(items) != [] && Expand(items)[|Expand(items)| - 1] == prev)
    && (z > 0 ==> prev == 0) && (r > 0 ==> prev != 0)
    && |Flat(items)| + z + r <= |done|
  }

  // ---- Flushing a run ----

  /** The item for a run of three or more. */
  function RepeatItem(r: nat): (x: Item)
    requires 3 <= r
  {
    Repeat(r - 3)
  }

  function ZeroItem(z: nat): (x: Item)
    requires 3 <= z
  {
    if z <= 10 then Zeros(z - 3) else ManyZeros(z - 11)
  }

  /** Writing an item for the first part of what is owed. */
  lemma {:induction false} FlushItem(items: seq<Item>, done: seq<nat>, z: nat, r: nat, prev: nat, x: Item, z': nat,
      r': nat)
    requires Packing(items, done, z, r, prev) && Fine(x) && (x.Repeat? ==> items != [])
    requires Run(x, Expand(items)) + Pending(z', r', prev) == Pending(z, r, prev)
    requires Run(x, Expand(items)) != [] && forall i :: 0 <= i < |Run(x, Expand(items))| ==>
      Run(x, Expand(items))[i] == prev
    requires z' <= z && r' <= r && |Packed(x)| + z' + r' <= z + r
    ensures Packing(items + [x], done, z', r', prev)
  {
    hide Expand, Flat, Run, Pending, Packed, Times, Fine;
    Push(items, x);
    Assoc(Expand(items), Run(x, Expand(items)), Pending(z', r', prev));
  }

  lemma {:induction false} PendingRuns(z: nat, r: nat, prev: nat)
    ensures Pending(z, 0, prev) == Times(0, z) && Pending(0, r, prev) == Times(prev, r)
  {
  }

  lemma {:induction false} ListedBefore(items: seq<Item>, done: seq<nat>, z: nat, r: nat, prev: nat)
    requires Packing(items, done, z, r, prev) && r > 0
    ensures items != [] && Expand(items) != [] && Expand(items)[|Expand(items)| - 1] == prev
  {
  }

  lemma {:induction false} FlushRepeat(items: seq<Item>, done: seq<nat>, r: nat, prev: nat)
    requires Packing(items, done, 0, r, prev) && 3 <= r <= 6
    ensures Packing(items + [RepeatItem(r)], done, 0, 0, prev)
  {
    hide Packing, Expand, Times, Pending;
    ListedBefore(items, done, 0, r, prev);
    PendingRuns(0, 0, prev);
    PendingRuns(0, r, prev);
    FlushItem(items, done, 0, r, prev, RepeatItem(r), 0, 0);
  }

  lemma {:induction false} FlushZeros(items: seq<Item>, done: seq<nat>, z: nat)
    requires Packing(items, done, z, 0, 0) && 3 <= z <= 138
    ensures Packing(items + [ZeroItem(z)], done, 0, 0, 0)
  {
    hide Packing, Expand, Times, Pending;
    PendingRuns(0, 0, 0);
    PendingRuns(z, 0, 0);
    FlushItem(items, done, z, 0, 0, ZeroItem(z), 0, 0);
  }

  /** A pending value written out as itself. */
  lemma {:induction false} FlushOneRepeat(items: seq<Item>, done: seq<nat>, r: nat, prev: nat)
    requires Packing(items, done, 0, r + 1, prev) && prev <= 15
    ensures Packing(items + [Length(prev)], done, 0, r, prev)
  {
    hide Packing, Expand, Times, Pending;
    PendingRuns(0, r, prev);
    PendingRuns(0, r + 1, prev);
    OneFirst(prev, r);
    FlushItem(items, done, 0, r + 1, prev, Length(prev), 0, r);
  }

  lemma {:induction false} FlushOneZero(items: seq<Item>, done: seq<nat>, z: nat)
    requires Packing(items, done, z + 1, 0, 0)
    ensures Packing(items + [Length(0)], done, z, 0, 0)
  {
    hide Packing, Expand, Times, Pending;
    PendingRuns(z, 0, 0);
    PendingRuns(z + 1, 0, 0);
    OneFirst(0, z);
    FlushItem(items, done, z + 1, 0, 0, Length(0), z, 0);
  }

  lemma {:induction false} OneFirst(v: nat, n: nat)
    ensures Times(v, n + 1) == [v] + Times(v, n)
  {
    if n > 0 { OneFirst(v, n - 1); }
  }

  // ---- One more length ----

  lemma {:induction false} AddZero(items: seq<Item>, done: seq<nat>, z: nat, prev: nat)
    requires Packing(items, done, z, 0, prev) && z < 138
    ensures Packing(items, done + [0], z + 1, 0, 0)
  {
    hide Expand, Flat, Times, Pending;
    PendingRuns(z, 0, prev);
    PendingRuns(z + 1, 0, 0);
    TimesPush(0, z);
    Assoc(Expand(items), Times(0, z), [0]);
  }

  lemma {:induction false} AddRepeat(items: seq<Item>, done: seq<nat>, r: nat, v: nat)
    requires Packing(items, done, 0, r, v) && done != [] && 1 <= v <= 15 && r < 6
    ensures Packing(items, done + [v], 0, r + 1, v)
  {
    hide Expand, Flat, Times, Pending;
    PendingRuns(0, r, v);
    PendingRuns(0, r + 1, v);
    TimesPush(v, r);
    Assoc(Expand(items), Times(v, r), [v]);
  }

  lemma {:induction false} AddLength(items: seq<Item>, done: seq<nat>, prev: nat, v: nat)
    requires Packing(items, done, 0, 0, prev) && 1 <= v <= 15
    ensures Packing(items + [Length(v)], done + [v], 0, 0, v)
  {
    hide Expand, Flat, Times, Pending;
    PendingRuns(0, 0, prev);
    PendingRuns(0, 0, v);
    Push(items, Length(v));
  }

  lemma {:induction false} StartPacking()
    ensures Packing([], [], 0, 0, 255)
  {
  }

  lemma {:induction false} DonePacking(items: seq<Item>, done: seq<nat>, prev: nat)
    requires Packing(items, done, 0, 0, prev)
    ensures Sound(items) && Expand(items) == done && |Flat(items)| <= |done|
  {
  }

  /** The packed bytes and the symbol counts agree with `items`. */
  ghost predicate Stored(packed: seq<nat>, n: nat, counts: seq<nat>, items: seq<Item>) {
    && |packed| == MAX_LENS && n <= MAX_LENS && packed[..n] == Flat(items)
    && |counts| == 19 && forall c: nat :: c < 19 ==> counts[c] == Uses(items, c)
  }

  lemma {:induction false} StoreOne(packed: seq<nat>, n: nat, counts: seq<nat>, items: seq<Item>, x: Item,
      packed': seq<nat>)
    requires Stored(packed, n, counts, items) && Fine(x) && |packed'| == MAX_LENS && n + |Packed(x)| <= MAX_LENS
    requires packed'[..n] == packed[..n] && packed'[n..n + |Packed(x)|] == Packed(x)
    ensures Symbol(x) < 19 && Stored(packed', n + |Packed(x)|, counts[Symbol(x) := counts[Symbol(x)] + 1], items + [x])
  {
    hide Flat, Uses;
    Push(items, x);
    assert packed'[..n + |Packed(x)|] == packed'[..n] + packed'[n..n + |Packed(x)|];
  }

  class Packer {
    const packed: array<nat>
    var n: nat
    var z: nat
    var r: nat
    var prev: nat
    const counts: array<nat>
    ghost var items: seq<Item>

    ghost predicate Valid(done: seq<nat>)
      reads this, packed, counts
    {
      && packed != counts && |done| <= MAX_LENS
      && Stored(packed[..], n, counts[..], items) && Packing(items, done, z, r, prev)
    }

    constructor ()
      ensures Valid([]) && fresh(packed) && fresh(counts) && z == r == 0
    {
      packed := new nat[MAX_LENS](_ => 0);
      counts := new nat[19](_ => 0);
      n, z, r, prev, items := 0, 0, 0, 255, [];
      new;
      StartPacking();
      assert packed[..0] == [];
    }

    /** Appends one item to the packed bytes and counts its symbol. */
    method Put(x: Item)
      requires packed != counts && Stored(packed[..], n, counts[..], items) && Fine(x) && n + |Packed(x)| <= MAX_LENS
      modifies this`n, this`items, packed, counts
      ensures packed != counts && Stored(packed[..], n, counts[..], items) && items == old(items) + [x]
    {
      hide Flat, Uses, Fine;
      SymbolBound(x);
      ghost var was, cw := packed[..], counts[..];
      var b := Packed(x);
      counts[Symbol(x)] := counts[Symbol(x)] + 1;
      packed[n] := b[0];
      if |b| == 2 { packed[n + 1] := b[1]; }
      assert packed[n..n + |b|] == b;
      assert packed[..n] == was[..n];
      assert counts[..] == cw[Symbol(x) := cw[Symbol(x)] + 1];
      StoreOne(was, n, cw, items, x, packed[..]);
      n := n + |b|;
      items := items + [x];
    }

    /** Writes out a pending run of the previous length: up to two as themselves, more as one item. */
    method FlushRepeats(ghost done: seq<nat>)
      requires Valid(done)
      modifies this`n, this`items, this`r, packed, counts
      ensures Valid(done) && r == 0
    {
      hide Packing, Stored, Fine;
      RoomLeft(items, done, z, r, prev, packed[..], n, counts[..]);
      if 0 < r < 3 {
        while r > 0
          invariant Valid(done) && r < 3 && z == 0
        {
          RoomLeft(items, done, z, r, prev, packed[..], n, counts[..]);
          FlushOneRepeat(items, done, r - 1, prev);
          FineLength(prev);
          Put(Length(prev));
          r := r - 1;
        }
      } else if r >= 3 {
        FlushRepeat(items, done, r, prev);
        FineRepeat(r);
        Put(RepeatItem(r));
        r := 0;
      }
    }

    /** Writes out a pending run of zeros. */
    method FlushZeroRun(ghost done: seq<nat>)
      requires Valid(done)
      modifies this`n, this`items, this`z, packed, counts
      ensures Valid(done) && z == 0
    {
      hide Packing, Stored, Fine;
      RoomLeft(items, done, z, r, prev, packed[..], n, counts[..]);
      if 0 < z < 3 {
        while z > 0
          invariant Valid(done) && z < 3 && r == 0 && (z > 0 ==> prev == 0)
        {
          RoomLeft(items, done, z, r, prev, packed[..], n, counts[..]);
          FlushOneZero(items, done, z - 1);
          FineLength(0);
          Put(Length(0));
          z := z - 1;
        }
      } else if z >= 3 {
        FlushZeros(items, done, z);
        FineZeros(z);
        Put(ZeroItem(z));
        z := 0;
      }
    }

    /** Takes in the next length. */
    method Add(v: nat, ghost done: seq<nat>)
      requires Valid(done) && v <= 15 && |done| < MAX_LENS && z < 138 && r < 6
      modifies this, packed, counts
      ensures Valid(done + [v]) && z < 138 && r < 6
    {
      hide Packing, Stored, Fine;
      if v == 0 {
        FlushRepeats(done);
        AddZero(items, done, z, prev);
        z := z + 1;
        prev := 0;
        if z == 138 { FlushZeroRun(done + [0]); }
      } else {
        FlushZeroRun(done);
        if v != prev {
          FlushRepeats(done);
          RoomLeft(items, done, z, r, prev, packed[..], n, counts[..]);
          AddLength(items, done, prev, v);
          RoomForOne(items, done, z, r, prev, packed[..], n, counts[..]);
          FineLength(v);
          Put(Length(v));
          prev := v;
        } else {
          PrevSet(items, done, z, r, prev);
          AddRepeat(items, done, r, v);
          r := r + 1;
          if r == 6 { FlushRepeats(done + [v]); }
        }
      }
    }

    /** Packs all lengths: the bytes expand to exactly the lengths and are no more than them. */
    method Pack(lens: seq<nat>)
      requires Valid([]) && z == r == 0 && |lens| <= MAX_LENS && forall i :: 0 <= i < |lens| ==> lens[i] <= 15
      modifies this, packed, counts
      ensures Valid(lens) && z == r == 0
      ensures Sound(items) && Expand(items) == lens && n == |Flat(items)| <= |lens|
      ensures n <= packed.Length && packed[..n] == Flat(items) && counts.Length == 19 && forall c: nat :: c < 19 ==>
        counts[c] == Uses(items, c)
    {
      hide Packing;
      var i := 0;
      assert lens[..0] == [];
      while i < |lens|
        invariant 0 <= i <= |lens| && Valid(lens[..i]) && z < 138 && r < 6
      {
        hide Stored;
        Add(lens[i], lens[..i]);
        i := i + 1;
        assert lens[..i] == lens[..i - 1] + [lens[i - 1]];
      }
      assert lens[..|lens|] == lens;
      RoomLeft(items, lens, z, r, prev, packed[..], n, counts[..]);
      if r > 0 { FlushRepeats(lens); } else { FlushZeroRun(lens); }
      DonePacking(items, lens, prev);
    }
  }

  lemma {:induction false} PrevSet(items: seq<Item>, done: seq<nat>, z: nat, r: nat, prev: nat)
    requires Packing(items, done, z, r, prev) && prev <= 15
    ensures done != []
  {
  }

  lemma {:induction false} RoomForOne(items: seq<Item>, done: seq<nat>, z: nat, r: nat, prev: nat, packed: seq<nat>,
      n: nat, counts: seq<nat>)
    requires Packing(items, done, z, r, prev) && Stored(packed, n, counts, items) && |done| < MAX_LENS
    ensures n + 1 <= MAX_LENS
  {
    assert |packed[..n]| == n;
  }

  lemma {:induction false} SymbolBound(x: Item)
    requires Fine(x)
    ensures Symbol(x) < 19
  {
  }

  lemma {:induction false} FineLength(v: nat)
    requires v <= 15
    ensures Fine(Length(v)) && |Packed(Length(v))| == 1
  {
  }

  lemma {:induction false} FineRepeat(r: nat)
    requires 3 <= r <= 6
    ensures Fine(RepeatItem(r)) && |Packed(RepeatItem(r))| == 2
  {
  }

  lemma {:induction false} FineZeros(z: nat)
    requires 3 <= z <= 138
    ensures Fine(ZeroItem(z)) && |Packed(ZeroItem(z))| == 2
  {
  }

  /** The packed bytes never outgrow the lengths they stand for. */
  lemma {:induction false} RoomLeft(items: seq<Item>, done: seq<nat>, z: nat, r: nat, prev: nat, packed: seq<nat>,
      n: nat, counts: seq<nat>)
    requires Packing(items, done, z, r, prev) && Stored(packed, n, counts, items) && |done| <= MAX_LENS
    ensures n + z + r <= MAX_LENS && z <= 138 && r <= 6 && (z == 0 || r == 0)
    ensures (r > 0 ==> 1 <= prev <= 15) && (z > 0 ==> prev == 0) && |packed| == MAX_LENS && |counts| == 19
  {
    assert |packed[..n]| == n;
  }

  // ---- In bits ----

  function ExtraBits(c: nat): (k: nat) {
    if c == 16 then 2 else if c == 17 then 3 else if c == 18 then 7 else 0
  }

  function Extra(x: Item): (e: nat) {
    match x
    case Length(_) => 0
    case Repeat(e) => e
    case Zeros(e) => e
    case ManyZeros(e) => e
  }

  function ItemBits(L: seq<nat>, x: Item): (b: seq<bool>)
    requires Symbol(x) < |L|
  {
    SymBits(L, Symbol(x)) + ToBits(Extra(x), ExtraBits(Symbol(x)))
  }

  function ItemsBits(L: seq<nat>, items: seq<Item>, k: nat): (b: seq<bool>)
    requires k <= |items| && forall i :: 0 <= i < |items| ==> Symbol(items[i]) < |L|
    decreases |items| - k
  {
    if k == |items| then [] else ItemBits(L, items[k]) + ItemsBits(L, items, k + 1)
  }

  /** The item a code symbol and its extra bits stand for. */
  function ItemOf(c: nat, extra: nat): (x: Item)
    requires c < 19
  {
    if c < 16 then Length(c) else if c == 16 then Repeat(extra) else if c == 17 then Zeros(extra) else ManyZeros(extra)
  }

  /** One item off the front of `b`. */
  ghost function DecodeItem(L: seq<nat>, b: seq<bool>): (r: Decoded<Item>)
    requires |L| == 19
    ensures r.Done? ==> |r.rest| < |b|
  {
    var c := DecodeSym(L, b);
    if c < 0 then NoSymbol(L, b) else
    var k := L[c] + ExtraBits(c);
    if k > |b| then Failed else Done(ItemOf(c, Val(b[L[c]..k])), b[k..])
  }

  /** Code lengths until there are `total`; a run must not start the list nor overshoot its end. */
  ghost function DecodeLens(L: seq<nat>, b: seq<bool>, total: nat, acc: seq<nat>): (r: Decoded<seq<nat>>)
    requires |L| == 19
    ensures r.Done? ==> |r.value| == total && |r.rest| <= |b|
    decreases |b|
  {
    if |acc| > total then Failed
    else if |acc| == total then Done(acc, b)
    else
      var d := DecodeItem(L, b);
      if !d.Done? then Stop(d)
      else if d.value.Repeat? && acc == [] then Failed
      else DecodeLens(L, d.rest, total, acc + Run(d.value, acc))
  }

  lemma {:induction false} ItemRoundTrip(L: seq<nat>, x: Item, rest: seq<bool>)
    requires |L| == 19 && Fits(L) && Fine(x) && L[Symbol(x)] > 0
    ensures DecodeItem(L, ItemBits(L, x) + rest) == Done(x, rest)
  {
    var c, e := Symbol(x), ToBits(Extra(x), ExtraBits(Symbol(x)));
    var b := ItemBits(L, x) + rest;
    Assoc(SymBits(L, c), e, rest);
    SymRoundTrip(L, c, e + rest);
    assert b[L[c]..L[c] + ExtraBits(c)] == e;
    assert b[L[c] + ExtraBits(c)..] == rest;
    Pow2Values();
    ValToBits(Extra(x), ExtraBits(c));
  }

  ghost predicate Encodable(L: seq<nat>, items: seq<Item>) {
    |L| == 19 && Fits(L) && Sound(items) && forall i :: 0 <= i < |items| ==>
      Symbol(items[i]) < 19 && L[Symbol(items[i])] > 0
  }

  lemma {:induction false} RunAdds(x: Item, before: seq<nat>)
    requires x.Repeat? ==> before != []
    ensures |Run(x, before)| >= 1
  {
  }

  lemma {:induction false} ExpandGrows(items: seq<Item>, k: nat)
    requires Sound(items) && k < |items|
    ensures items[..k + 1] == items[..k] + [items[k]]
    ensures Expand(items[..k + 1]) == Expand(items[..k]) + Run(items[k], Expand(items[..k]))
    ensures k > 0 ==> Expand(items[..k]) != []
    ensures |Expand(items[..k + 1])| > |Expand(items[..k])|
    ensures items[k].Repeat? ==> Expand(items[..k]) != []
  {
    hide Expand, Run, Fine;
    if k > 0 { ExpandGrows(items, k - 1); }
    assert items[..k + 1] == items[..k] + [items[k]];
    Push(items[..k], items[k]);
    RunAdds(items[k], Expand(items[..k]));
  }

  lemma {:induction false} ExpandMono(items: seq<Item>, k: nat)
    requires Sound(items) && k <= |items|
    ensures |Expand(items[..k])| <= |Expand(items)| && (k < |items| ==> |Expand(items[..k])| < |Expand(items)|)
    decreases |items| - k
  {
    if k < |items| { ExpandGrows(items, k); ExpandMono(items, k + 1); } else { assert items[..k] == items; }
  }

  lemma {:induction false} SoundFine(items: seq<Item>, k: nat)
    requires Sound(items) && k < |items|
    ensures Fine(items[k])
  {
  }

  lemma {:induction false} DecodeLensEnd(L: seq<nat>, b: seq<bool>, acc: seq<nat>)
    requires |L| == 19
    ensures DecodeLens(L, b, |acc|, acc) == Done(acc, b)
  {
  }

  lemma {:induction false} DecodeLensStep(L: seq<nat>, b: seq<bool>, total: nat, acc: seq<nat>, x: Item,
      rest: seq<bool>)
    requires |L| == 19 && |acc| < total && DecodeItem(L, b) == Done(x, rest) && (x.Repeat? ==> acc != [])
    ensures DecodeLens(L, b, total, acc) == DecodeLens(L, rest, total, acc + Run(x, acc))
  {
  }

  lemma {:induction false} ItemsBitsStep(L: seq<nat>, items: seq<Item>, k: nat, rest: seq<bool>)
    requires k < |items| && forall i :: 0 <= i < |items| ==> Symbol(items[i]) < |L|
    ensures ItemsBits(L, items, k) + rest == ItemBits(L, items[k]) + (ItemsBits(L, items, k + 1) + rest)
  {
    Assoc(ItemBits(L, items[k]), ItemsBits(L, items, k + 1), rest);
  }

  /** Packed lengths written out and read back are the lengths, whatever follows. */
  lemma {:induction false} LensRoundTrip(L: seq<nat>, items: seq<Item>, k: nat, rest: seq<bool>)
    requires Encodable(L, items) && k <= |items|
    ensures DecodeLens(L, ItemsBits(L, items, k) + rest, |Expand(items)|, Expand(items[..k]))
      == Done(Expand(items), rest)
    decreases |items| - k
  {
    hide Expand, Run, Sound, ItemBits, DecodeItem, Fits, Fine, DecodeLens;
    if k == |items| {
      assert items[..k] == items;
      assert ItemsBits(L, items, k) + rest == rest;
      DecodeLensEnd(L, rest, Expand(items));
    } else {
      hide ItemsBits;
      ExpandMono(items, k);
      ExpandGrows(items, k);
      SoundFine(items, k);
      ItemsBitsStep(L, items, k, rest);
      var tail := ItemsBits(L, items, k + 1) + rest;
      ItemRoundTrip(L, items[k], tail);
      DecodeLensStep(L, ItemBits(L, items[k]) + tail, |Expand(items)|, Expand(items[..k]), items[k], tail);
      LensRoundTrip(L, items, k + 1, rest);
    }
  }
}
