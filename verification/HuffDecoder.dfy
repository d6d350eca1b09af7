/** Building the inflater's decoding table in place, and decoding with it. */
module HuffDecoder {
  import opened Bits
  import opened Canonical
  import opened HuffTable

  // ---- Lookup indices ----

  lemma {:induction false} SameLowBits(x: nat, n: nat)
    ensures ToBits(x + Pow2(n), n) == ToBits(x, n)
  {
    if n > 0 {
      SameLowBits(x / 2, n - 1);
      assert (x + Pow2(n)) / 2 == x / 2 + Pow2(n - 1);
    }
  }

  /** Numbers that agree in their low `n` bits are at least `Pow2(n)` apart. */
  lemma {:induction false} LowBitsGap(a: nat, b: nat, n: nat)
    requires a < b && ToBits(a, n) == ToBits(b, n)
    ensures a + Pow2(n) <= b
  {
    if n > 0 {
      assert ToBits(a, n)[0] == ToBits(b, n)[0] && ToBits(a, n)[1..] == ToBits(b, n)[1..];
      LowBitsGap(a / 2, b / 2, n - 1);
    }
  }

  lemma {:induction false} ShlMul(v: nat, n: nat)
    ensures Shl(v, n) == Pow2(n) * v
  {
    if n > 0 { ShlMul(v, n - 1); }
  }

  /** The low ten bits of `v` are those of `v & 1023`. */
  lemma {:induction false} LowTen(v: nat)
    ensures ToBits(v % 1024, FAST_BITS) == ToBits(v, FAST_BITS)
  {
    Pow2Values();
    ShlMul(v / 1024, FAST_BITS);
    ToBitsAppend(v % 1024, FAST_BITS, v / 1024, 0);
  }

  /** Only the low ten bits matter to the lookup array. */
  lemma {:induction false} LookupIndex(L: seq<nat>, m: nat, nodes: Nodes, v: nat)
    requires m <= |L|
    ensures LkSlot(L, m, nodes, v % 1024) == LkSlot(L, m, nodes, v)
  {
    LowTen(v);
    PathInj(v % 1024, v, FAST_BITS);
    CoverLow(L, m, v % 1024, v);
  }

  lemma {:induction false} CoverLow(L: seq<nat>, m: nat, v: nat, w: nat)
    requires m <= |L| && Path(v, FAST_BITS) == Path(w, FAST_BITS)
    ensures Cover(L, m, v) == Cover(L, m, w)
  {
    if m > 0 {
      hide Starts;
      CoverLow(L, m - 1, v, w);
      if L[m - 1] <= FAST_BITS { StartsLow(L, m - 1, v, w); }
    }
  }

  lemma {:induction false} StartsLow(L: seq<nat>, s: nat, v: nat, w: nat)
    requires s < |L| && L[s] <= FAST_BITS && Path(v, FAST_BITS) == Path(w, FAST_BITS)
    ensures Starts(L, s, v) <==> Starts(L, s, w)
  {
    hide SymId;
    PathAnc(v, L[s], FAST_BITS - L[s]);
    PathAnc(w, L[s], FAST_BITS - L[s]);
  }

  lemma {:induction false} LookupInj(r: nat, q: nat)
    requires r < FAST_SIZE && q < FAST_SIZE && Path(r, FAST_BITS) == Path(q, FAST_BITS)
    ensures r == q
  {
    Pow2Values();
    PathInj(r, q, FAST_BITS);
    ValToBits(r, FAST_BITS);
    ValToBits(q, FAST_BITS);
  }

  // ---- Codes and inner nodes ----

  /** Below an inner node no code has ended yet. */
  lemma {:induction false} NodeCode(L: seq<nat>, m: nat, n: nat, nodes: Nodes, s: nat, v: nat, d: nat)
    requires Fits(L) && NodesOk(L, m, n, nodes) && Starts(L, s, v) && Find(nodes, Path(v, d)) >= 0
    ensures L[s] > d
  {
    assert s < |L|;
    hide Starts;
    hide Anc;
    var k := Find(nodes, Path(v, d));
    assert Under(L, n, nodes[k]);
    var t: nat, e: nat :| t < n && Above(L, t, e, nodes[k]);
    AboveDepth(L, t, e, nodes[k]);
    DepthUnique(nodes[k], d, e);
    if L[s] <= d { StartsAbove(L, s, t, d, v); }
  }

  /** Until a long code ends, the bits lead through inner nodes. */
  lemma {:induction false} StartsBelow(L: seq<nat>, m: nat, n: nat, nodes: Nodes, s: nat, v: nat, d: nat)
    requires Fits(L) && NodesOk(L, m, n, nodes) && Starts(L, s, v) && s < m && FAST_BITS <= d < L[s]
    ensures Find(nodes, Path(v, d)) >= 0
  {
    hide Anc;
    hide SymId;
    StartsPath(L, s, v, d);
    assert Above(L, s, d, Path(v, d));
  }

  lemma {:induction false} LkSlotNext(L: seq<nat>, m: nat, nodes: Nodes, v: nat)
    requires m < |L|
    ensures LkSlot(L, m + 1, nodes, v) ==
      if L[m] <= FAST_BITS && Starts(L, m, v) && Find(nodes, Path(v, FAST_BITS)) < 0 then L[m] * 512 + m
      else LkSlot(L, m, nodes, v)
  {
    hide Starts;
  }

  // ---- What one insertion does ----

  lemma {:induction false} NodesNext(L: seq<nat>, m: nat, n: nat, nodes: Nodes)
    requires m < |L| && NodesOk(L, m, m, nodes) && m <= n <= m + 1 && (n == m || L[m] <= FAST_BITS)
    ensures NodesOk(L, n, m + 1, nodes)
  {
    hide Find;
    hide Anc;
    forall k: nat | k < |nodes| ensures Under(L, m + 1, nodes[k]) {
      assert Under(L, m, nodes[k]);
    }
  }

  lemma {:induction false} TreeNext(L: seq<nat>, m: nat, nodes: Nodes, tr: seq<int>)
    requires m < |L| && L[m] <= FAST_BITS && TrOk(L, m, nodes, tr)
    ensures TrOk(L, m + 1, nodes, tr)
  {
    hide TrSlot;
    forall k: nat, b: nat | k < |nodes| && b < 2
      ensures tr[Slot(k, b)] == TrSlot(L, m + 1, nodes, Child(nodes[k], b))
    {
      TrSlotNext(L, m, nodes, Child(nodes[k], b));
    }
  }

  lemma {:induction false} LookupNext(L: seq<nat>, m: nat, nodes: Nodes, lk: seq<int>)
    requires m < |L| && (L[m] == 0 || L[m] > FAST_BITS) && LkOk(L, m, nodes, lk)
    ensures LkOk(L, m + 1, nodes, lk)
  {
    hide LkSlot;
    forall r: nat | r < FAST_SIZE ensures lk[r] == LkSlot(L, m + 1, nodes, r) {
      LkSlotNext(L, m, nodes, r);
    }
  }

  /** A symbol without a code changes nothing. */
  lemma {:induction false} SkipOk(L: seq<nat>, m: nat, nodes: Nodes, lk: seq<int>, tr: seq<int>)
    requires m < |L| && L[m] == 0 && Inv(L, m, m, nodes, lk, tr)
    ensures Inv(L, m + 1, m + 1, nodes, lk, tr)
  {
    hide NodesOk;
    hide LkOk;
    hide TrOk;
    NodesNext(L, m, m + 1, nodes);
    TreeNext(L, m, nodes, tr);
    LookupNext(L, m, nodes, lk);
  }

  /** A short code owns the lookup entries whose low bits are the reversed code. */
  lemma {:induction false} ShortOk(L: seq<nat>, m: nat, nodes: Nodes, lk: seq<int>, tr: seq<int>, lk': seq<int>)
    requires m < |L| && 0 < L[m] <= FAST_BITS && Inv(L, m, m, nodes, lk, tr) && |lk'| == |lk|
    requires forall r: nat :: r < |lk| ==> lk'[r] == if ToBits(r, L[m]) == SymBits(L, m) then L[m] * 512 + m else lk[r]
    ensures Inv(L, m + 1, m + 1, nodes, lk', tr)
  {
    hide NodesOk;
    hide TrOk;
    hide LkSlot;
    hide Starts;
    NodesNext(L, m, m + 1, nodes);
    TreeNext(L, m, nodes, tr);
    forall r: nat | r < FAST_SIZE ensures lk'[r] == LkSlot(L, m + 1, nodes, r) {
      LkSlotNext(L, m, nodes, r);
      LookupClass(L, m, r);
      if Starts(L, m, r) && Find(nodes, Path(r, FAST_BITS)) >= 0 { NodeCode(L, m, m, nodes, m, r, FAST_BITS); }
    }
  }

  lemma {:induction false} LookupClass(L: seq<nat>, s: nat, r: nat)
    requires Fits(L) && s < |L| && L[s] > 0
    ensures Starts(L, s, r) <==> ToBits(r, L[s]) == SymBits(L, s)
  {
    CodeBound(L, s);
    RevPath(Code(L, s), L[s]);
    PathInj(r, Rev(Code(L, s), L[s]), L[s]);
  }

  lemma {:induction false} BeginLong(L: seq<nat>, m: nat, nodes: Nodes, lk: seq<int>, tr: seq<int>)
    requires m < |L| && Inv(L, m, m, nodes, lk, tr)
    ensures Inv(L, m, m + 1, nodes, lk, tr)
  {
    hide NodesOk;
    NodesNext(L, m, m, nodes);
  }

  /** Entering the node of a long code's first ten bits. */
  lemma {:induction false} EnterLookupOk(L: seq<nat>, s: nat, nodes: Nodes, lk: seq<int>, tr: seq<int>, r: nat)
    requires s < |L| && Accepted(L) && Inv(L, s, s + 1, nodes, lk, tr) && r < |lk|
    requires FAST_BITS < L[s] && Path(r, FAST_BITS) == Anc(L, s, FAST_BITS)
    ensures var p := Anc(L, s, FAST_BITS);
      if lk[r] == 0 then
        Find(nodes + [p], p) == |nodes| && Inv(L, s, s + 1, nodes + [p], lk[r := Link(|nodes|)], tr)
      else
        Find(nodes, p) >= 0 && lk[r] == Link(Find(nodes, p))
  {
    hide NodesOk;
    hide Anc;
    var p := Anc(L, s, FAST_BITS);
    hide TrOk;
    LookupFree(L, s, nodes, r);
    if lk[r] == 0 {
      AddNode(L, s, nodes, FAST_BITS, p);
      NodeBound(L, s, s + 1, nodes + [p]);
      FindPush(nodes, p, p);
      LookupOne(nodes, lk, p, r);
      AllocLookup(L, s, nodes, lk, p, lk[r := Link(|nodes|)]);
      AllocTop(L, s, s + 1, nodes, tr, p);
    }
  }

  lemma {:induction false} LookupFree(L: seq<nat>, m: nat, nodes: Nodes, r: nat)
    requires Fits(L) && m < |L| && FAST_BITS < L[m] && Path(r, FAST_BITS) == Anc(L, m, FAST_BITS)
    ensures LkSlot(L, m, nodes, r) == 0 <==> Find(nodes, Path(r, FAST_BITS)) < 0
  {
    hide Starts;
    var c := Cover(L, m, r);
    if c >= 0 { StartsAbove(L, c, m, FAST_BITS, r); }
  }

  lemma {:induction false} LookupOne(nodes: Nodes, lk: seq<int>, p: nat, r: nat)
    requires |lk| == FAST_SIZE && r < FAST_SIZE && Path(r, FAST_BITS) == p
    ensures forall q: nat :: q < FAST_SIZE ==>
      lk[r := Link(|nodes|)][q] == if Path(q, FAST_BITS) == p then Link(|nodes|) else lk[q]
  {
    forall q: nat | q < FAST_SIZE
      ensures lk[r := Link(|nodes|)][q] == if Path(q, FAST_BITS) == p then Link(|nodes|) else lk[q]
    {
      if q != r && Path(q, FAST_BITS) == p { LookupInj(q, r); }
    }
  }

  /** A new node at depth ten leaves the tree as it was. */
  lemma {:induction false} AllocTop(L: seq<nat>, m: nat, n: nat, nodes: Nodes, tr: seq<int>, p: nat)
    requires Fits(L) && NodesOk(L, m, n, nodes) && TrOk(L, m, nodes, tr) && |nodes| < MAX_SYMS
    requires 1024 <= p < 2048 && Find(nodes, p) < 0
    ensures TrOk(L, m, nodes + [p], tr)
  {
    ChildrenFree(L, m, n, nodes, p);
    forall k: nat | k < |nodes| ensures nodes[k] >= 1024 { NodeDepth(L, m, n, nodes, k); }
    hide NodesOk;
    hide TrSlot;
    AllocTree(L, m, nodes, tr, p, tr);
  }

  /** Entering the child of the current node on a long code's path. */
  lemma {:induction false} EnterTreeOk(L: seq<nat>, s: nat, nodes: Nodes, lk: seq<int>, tr: seq<int>, d: nat, b: nat)
    requires s < |L| && Accepted(L) && Inv(L, s, s + 1, nodes, lk, tr) && b < 2
    requires FAST_BITS <= d && d + 1 < L[s] && Anc(L, s, d + 1) == Child(Anc(L, s, d), b)
    requires Find(nodes, Anc(L, s, d)) >= 0
    ensures var q, i := Anc(L, s, d + 1), Slot(Find(nodes, Anc(L, s, d)), b);
      && i < |tr|
      && if tr[i] == 0 then
           Find(nodes + [q], q) == |nodes| && Inv(L, s, s + 1, nodes + [q], lk, tr[i := Link(|nodes|)])
         else
           Find(nodes, q) >= 0 && tr[i] == Link(Find(nodes, q))
  {
    hide NodesOk;
    hide LkOk;
    hide Anc;
    var p, q := Anc(L, s, d), Anc(L, s, d + 1);
    var k := Find(nodes, p);
    assert Above(L, s, d + 1, q);
    hide Above;
    SlotLink(L, s, nodes, q);
    SlotFree(L, s, nodes, d + 1, q);
    hide TrSlot;
    assert tr[Slot(k, b)] == TrSlot(L, s, nodes, Child(nodes[k], b));
    hide TrOk;
    if tr[Slot(k, b)] == 0 {
      AddNode(L, s, nodes, d + 1, q);
      NodeBound(L, s, s + 1, nodes + [q]);
      FindPush(nodes, q, q);
      AllocChild(L, s, s + 1, nodes, lk, tr, k, b);
    }
  }

  lemma {:induction false} SlotLink(L: seq<nat>, m: nat, nodes: Nodes, q: nat)
    requires m <= |L|
    ensures Find(nodes, q) >= 0 ==> TrSlot(L, m, nodes, q) == Link(Find(nodes, q))
  {
  }

  lemma {:induction false} SlotFree(L: seq<nat>, m: nat, nodes: Nodes, d: nat, q: nat)
    requires Fits(L) && m < |L| && Above(L, m, d, q)
    ensures TrSlot(L, m, nodes, q) == 0 <==> Find(nodes, q) < 0
  {
    hide Above;
    hide SymId;
    var c := SymAt(L, m, q);
    if c >= 0 { AboveNotLeaf(L, m, d, q, c); }
  }

  lemma {:induction false} AllocChild(L: seq<nat>, m: nat, n: nat, nodes: Nodes, lk: seq<int>, tr: seq<int>, k: nat,
      b: nat)
    requires Fits(L) && NodesOk(L, m, n, nodes) && LkOk(L, m, nodes, lk) && TrOk(L, m, nodes, tr) && |nodes| < MAX_SYMS
    requires k < |nodes| && b < 2 && Find(nodes, Child(nodes[k], b)) < 0
    ensures LkOk(L, m, nodes + [Child(nodes[k], b)], lk)
    ensures TrOk(L, m, nodes + [Child(nodes[k], b)], tr[Slot(k, b) := Link(|nodes|)])
  {
    hide NodesOk;
    hide TrSlot;
    var q := Child(nodes[k], b);
    NodeDepth(L, m, n, nodes, k);
    ChildrenFree(L, m, n, nodes, q);
    OneSlot(L, m, n, nodes, tr, k, b);
    AllocTree(L, m, nodes, tr, q, tr[Slot(k, b) := Link(|nodes|)]);
    DeepNotLookup(q);
    AllocLookup(L, m, nodes, lk, q, lk);
  }

  lemma {:induction false} DeepNotLookup(q: nat)
    requires q >= 2048
    ensures forall r: nat :: Path(r, FAST_BITS) != q
  {
    Pow2Values();
  }

  /** Storing a long code's symbol. */
  lemma {:induction false} StoreOk(L: seq<nat>, s: nat, nodes: Nodes, lk: seq<int>, tr: seq<int>, b: nat)
    requires s < |L| && Inv(L, s, s + 1, nodes, lk, tr) && b < 2 && FAST_BITS < L[s]
    requires SymId(L, s) == Child(Anc(L, s, L[s] - 1), b) && Find(nodes, Anc(L, s, L[s] - 1)) >= 0
    ensures var i := Slot(Find(nodes, Anc(L, s, L[s] - 1)), b);
      i < |tr| && Inv(L, s + 1, s + 1, nodes, lk, tr[i := s])
  {
    hide NodesOk;
    hide LkOk;
    hide Anc;
    hide SymId;
    hide TrSlot;
    NotInner(L, s, s + 1, nodes, s);
    StoreLeaf(L, s, nodes, tr, Find(nodes, Anc(L, s, L[s] - 1)), b);
    StoreNodes(L, s, nodes);
    LookupNext(L, s, nodes, lk);
  }

  // ---- What a finished table decodes ----

  /** `d` is the number of bits the table consumes on `v`. */
  ghost predicate Leaf(L: seq<nat>, nodes: Nodes, v: nat, d: nat) {
    if Find(nodes, Path(v, FAST_BITS)) < 0 then
      d == LkSlot(L, |L|, nodes, v) / 512
    else
      d > FAST_BITS && Find(nodes, Path(v, d - 1)) >= 0 && Find(nodes, Path(v, d)) < 0
  }

  lemma {:induction false} LeafUnique(L: seq<nat>, nodes: Nodes, v: nat, d: nat, e: nat)
    requires NodesOk(L, |L|, |L|, nodes) && Leaf(L, nodes, v, d) && Leaf(L, nodes, v, e)
    ensures d == e
  {
    hide NodesOk;
    if Find(nodes, Path(v, FAST_BITS)) >= 0 {
      if d < e { NodesAlong(L, nodes, v, d, e - 1); }
      if e < d { NodesAlong(L, nodes, v, e, d - 1); }
    }
  }

  /** Every path above an inner node is an inner node. */
  lemma {:induction false} NodesAlong(L: seq<nat>, nodes: Nodes, v: nat, d: nat, e: nat)
    requires NodesOk(L, |L|, |L|, nodes) && FAST_BITS <= d <= e && Find(nodes, Path(v, e)) >= 0
    ensures Find(nodes, Path(v, d)) >= 0
  {
    if d < e {
      Pow2Mono(11, e);
      Pow2Values();
      assert HasParent(nodes, Path(v, e));
      assert Path(v, e) / 2 == Path(v, e - 1);
      hide NodesOk;
      NodesAlong(L, nodes, v, d, e - 1);
    }
  }

  lemma {:induction false} NodeBelow(L: seq<nat>, m: nat, n: nat, nodes: Nodes, v: nat, d: nat)
    requires Fits(L) && NodesOk(L, m, n, nodes) && Find(nodes, Path(v, d)) >= 0
    ensures d < MAX_LEN
  {
    NodeDepth(L, m, n, nodes, Find(nodes, Path(v, d)));
    hide NodesOk;
    hide Fits;
    Pow2Values();
    if d >= MAX_LEN { Pow2Mono(MAX_LEN, d); }
  }

  lemma {:induction false} LeafBound(L: seq<nat>, nodes: Nodes, v: nat, d: nat)
    requires Fits(L) && |L| <= MAX_SYMS && NodesOk(L, |L|, |L|, nodes) && Leaf(L, nodes, v, d)
    ensures d <= MAX_LEN
  {
    hide NodesOk;
    hide Starts;
    if Find(nodes, Path(v, FAST_BITS)) >= 0 {
      NodeBelow(L, |L|, |L|, nodes, v, d - 1);
    } else if Cover(L, |L|, v) >= 0 {
      Fields(L[Cover(L, |L|, v)], Cover(L, |L|, v), LkSlot(L, |L|, nodes, v));
    }
  }

  /** One step down the tree: the slot for the next bit holds what the longer path should. */
  lemma {:induction false} WalkStep(L: seq<nat>, nodes: Nodes, tr: seq<int>, v: nat, d: nat)
    requires Fits(L) && NodesOk(L, |L|, |L|, nodes) && TrOk(L, |L|, nodes, tr) && Find(nodes, Path(v, d)) >= 0
    ensures d < MAX_LEN
    ensures var i := Slot(Find(nodes, Path(v, d)), Shr(v, d) % 2);
      i < |tr| && tr[i] == TrSlot(L, |L|, nodes, Path(v, d + 1))
  {
    NodeBelow(L, |L|, |L|, nodes, v, d);
    hide NodesOk;
    hide TrSlot;
    var k, b := Find(nodes, Path(v, d)), Shr(v, d) % 2;
    assert Path(v, d + 1) == Child(nodes[k], b);
    assert tr[Slot(k, b)] == TrSlot(L, |L|, nodes, Child(nodes[k], b));
  }

  lemma {:induction false} LookupDecodes(L: seq<nat>, nodes: Nodes, v: nat, s: nat)
    requires Fits(L) && |L| <= MAX_SYMS && NodesOk(L, |L|, |L|, nodes) && LkSlot(L, |L|, nodes, v) >= 0
    requires Starts(L, s, v)
    ensures LkSlot(L, |L|, nodes, v) == L[s] * 512 + s
  {
    StartsIn(L, s, v);
    hide Starts;
    hide NodesOk;
    if L[s] > FAST_BITS {
      StartsBelow(L, |L|, |L|, nodes, s, v, FAST_BITS);
    } else {
      CoverIs(L, |L|, s, v);
    }
  }

  lemma {:induction false} StartsIn(L: seq<nat>, s: nat, v: nat)
    requires Starts(L, s, v)
    ensures s < |L| && L[s] > 0
  {
  }

  lemma {:induction false} Fields(size: nat, s: nat, entry: nat)
    requires s < 512 && entry == size * 512 + s
    ensures entry % 512 == s && entry / 512 == size
  {
  }

  lemma {:induction false} CoverIs(L: seq<nat>, m: nat, s: nat, v: nat)
    requires Fits(L) && Starts(L, s, v) && L[s] <= FAST_BITS && s < m <= |L|
    ensures Cover(L, m, v) == s
  {
    hide Starts;
    if s < m - 1 {
      CoverIs(L, m - 1, s, v);
      if L[m - 1] <= FAST_BITS && Starts(L, m - 1, v) { StartsUnique(L, s, m - 1, v); }
    }
  }

  lemma {:induction false} TreeDecodes(L: seq<nat>, nodes: Nodes, v: nat, d: nat, s: nat)
    requires Fits(L) && NodesOk(L, |L|, |L|, nodes) && FAST_BITS < d && Starts(L, s, v)
    requires Find(nodes, Path(v, d - 1)) >= 0 && Find(nodes, Path(v, d)) < 0
    ensures TrSlot(L, |L|, nodes, Path(v, d)) == s && d == L[s]
  {
    StartsIn(L, s, v);
    hide Starts;
    hide NodesOk;
    NodeCode(L, |L|, |L|, nodes, s, v, d - 1);
    if L[s] > d { StartsBelow(L, |L|, |L|, nodes, s, v, d); }
    SymAtIs(L, |L|, s, v);
  }

  lemma {:induction false} TreeDecodesAll(L: seq<nat>, nodes: Nodes, v: nat, temp: nat, d: nat)
    requires Fits(L) && NodesOk(L, |L|, |L|, nodes) && At(L, nodes, v, temp, d)
    ensures Leaf(L, nodes, v, d)
    ensures forall s: nat :: Starts(L, s, v) ==> temp == s && d == L[s]
  {
    hide NodesOk;
    hide TrSlot;
    forall s: nat | Starts(L, s, v) ensures temp == s && d == L[s] {
      TreeDecodes(L, nodes, v, d, s);
    }
  }

  lemma {:induction false} SymAtIs(L: seq<nat>, m: nat, s: nat, v: nat)
    requires Fits(L) && Starts(L, s, v) && L[s] > FAST_BITS && s < m <= |L|
    ensures SymAt(L, m, Path(v, L[s])) == s
  {
    hide SymId;
    if s < m - 1 {
      SymAtIs(L, m - 1, s, v);
      if L[m - 1] > FAST_BITS && SymId(L, m - 1) == SymId(L, s) {
        CodeBound(L, s);
        CodeBound(L, m - 1);
        DepthUnique(SymId(L, s), L[s], L[m - 1]);
        PrefixFree(L, s, m - 1);
      }
    }
  }

  class Table {
    const lookup: array<int>
    const tree: array<int>
    var treeNext: int
    ghost var nodes: Nodes

    ghost predicate Valid()
    {
      lookup.Length == FAST_SIZE && tree.Length == TREE_SIZE && lookup != tree
    }

    /** The first `m` symbols of `L` have been inserted. */
    ghost predicate Holds(L: seq<nat>, m: nat, n: nat)
      reads this, lookup, tree
    {
      Valid() && Accepted(L) && treeNext == Link(|nodes|) && Inv(L, m, n, nodes, lookup[..], tree[..])
    }

    constructor ()
      ensures Valid() && fresh(lookup) && fresh(tree)
    {
      lookup := new int[FAST_SIZE](_ => 0);
      tree := new int[TREE_SIZE](_ => 0);
      treeNext, nodes := -1, [];
    }

    /** Fills every lookup entry whose low bits are the reversed code. */
    method Fill(rev: nat, size: nat, k: int)
      requires Valid() && 0 < size && rev < Pow2(size)
      modifies lookup
      ensures forall r: nat :: r < FAST_SIZE ==>
        lookup[r] == if ToBits(r, size) == ToBits(rev, size) then k else old(lookup[r])
    {
      var x := rev;
      ghost var bits := ToBits(rev, size);
      forall r: nat | r < rev ensures ToBits(r, size) != bits {
        if ToBits(r, size) == bits { LowBitsGap(r, rev, size); }
      }
      while x < FAST_SIZE
        invariant ToBits(x, size) == bits
        invariant forall r: nat :: r < FAST_SIZE ==>
          lookup[r] == if r < x && ToBits(r, size) == bits then k else old(lookup[r])
        decreases FAST_SIZE - x
      {
        lookup[x] := k;
        SameLowBits(x, size);
        forall r: nat | x < r < x + Pow2(size) ensures ToBits(r, size) != bits {
          if ToBits(r, size) == bits { LowBitsGap(x, r, size); }
        }
        x := x + Pow2(size);
      }
    }

    method InsertShort(ghost L: seq<nat>, s: nat, size: nat, rev: nat)
      requires s < |L| && Holds(L, s, s) && L[s] == size && 0 < size <= FAST_BITS
      requires rev == Rev(Code(L, s), size)
      modifies lookup
      ensures Holds(L, s + 1, s + 1)
    {
      hide Inv;
      hide ToBits;
      ghost var lk, tr := lookup[..], tree[..];
      Fill(rev, size, size * 512 + s);
      assert tree[..] == tr;
      ShortOk(L, s, nodes, lk, tr, lookup[..]);
    }

    /** The node a long code enters from the lookup array, made if missing. */
    method EnterLookup(ghost L: seq<nat>, ghost s: nat, r: nat) returns (cur: int)
      requires s < |L| && Holds(L, s, s + 1) && L[s] > FAST_BITS && r < FAST_SIZE
      requires Path(r, FAST_BITS) == Anc(L, s, FAST_BITS)
      modifies this, lookup
      ensures Holds(L, s, s + 1)
      ensures Find(nodes, Anc(L, s, FAST_BITS)) >= 0 && cur == Link(Find(nodes, Anc(L, s, FAST_BITS)))
    {
      hide Inv;
      hide Anc;
      hide Find;
      ghost var lk, tr := lookup[..], tree[..];
      EnterLookupOk(L, s, nodes, lk, tr, r);
      cur := lookup[r];
      if cur == 0 {
        lookup[r] := treeNext;
        cur := treeNext;
        assert lookup[..] == lk[r := Link(|nodes|)] && tree[..] == tr;
        treeNext := treeNext - 2;
        nodes := nodes + [Anc(L, s, FAST_BITS)];
      }
    }

    /** The child node along bit `b`, made if missing. */
    method EnterTree(ghost L: seq<nat>, ghost s: nat, ghost d: nat, cur: int, b: nat) returns (next: int)
      requires s < |L| && Holds(L, s, s + 1) && b < 2
      requires FAST_BITS <= d && d + 1 < L[s] && Anc(L, s, d + 1) == Child(Anc(L, s, d), b)
      requires Find(nodes, Anc(L, s, d)) >= 0 && cur == Link(Find(nodes, Anc(L, s, d)))
      modifies this, tree
      ensures Holds(L, s, s + 1)
      ensures Find(nodes, Anc(L, s, d + 1)) >= 0 && next == Link(Find(nodes, Anc(L, s, d + 1)))
    {
      hide Inv;
      hide Anc;
      hide Find;
      ghost var lk, tr := lookup[..], tree[..];
      EnterTreeOk(L, s, nodes, lk, tr, d, b);
      var i := -(cur - b) - 1;
      next := tree[i];
      if next == 0 {
        tree[i] := treeNext;
        next := treeNext;
        assert tree[..] == tr[i := Link(|nodes|)] && lookup[..] == lk;
        treeNext := treeNext - 2;
        nodes := nodes + [Anc(L, s, d + 1)];
      }
    }

    /** The symbol goes where its code ends. */
    method Store(ghost L: seq<nat>, s: nat, cur: int, b: nat)
      requires s < |L| && Holds(L, s, s + 1) && L[s] > FAST_BITS && b < 2
      requires Find(nodes, Anc(L, s, L[s] - 1)) >= 0 && cur == Link(Find(nodes, Anc(L, s, L[s] - 1)))
      requires SymId(L, s) == Child(Anc(L, s, L[s] - 1), b)
      modifies tree
      ensures Holds(L, s + 1, s + 1)
    {
      hide Inv;
      hide Anc;
      hide Find;
      hide SymId;
      ghost var lk, tr := lookup[..], tree[..];
      StoreOk(L, s, nodes, lk, tr, b);
      tree[-(cur - b) - 1] := s;
      assert tree[..] == tr[-(cur - b) - 1 := s] && lookup[..] == lk;
    }

    /** Walks down from the lookup entry of a long code, making the inner nodes that are missing. */
    method InsertLong(ghost L: seq<nat>, s: nat, size: nat, rev: nat)
      requires s < |L| && Holds(L, s, s) && L[s] == size > FAST_BITS
      requires rev == Rev(Code(L, s), size)
      modifies this, lookup, tree
      ensures Holds(L, s + 1, s + 1)
    {
      TableFits(L, s, s);
      hide Inv;
      hide Find;
      hide Anc;
      BeginLong(L, s, nodes, lookup[..], tree[..]);
      LowTen(rev);
      PathInj(rev % FAST_SIZE, rev, FAST_BITS);
      LongPath(L, s, FAST_BITS);
      var cur := EnterLookup(L, s, rev % FAST_SIZE);
      var d := FAST_BITS;
      while d < size - 1
        invariant FAST_BITS <= d <= size - 1 && Holds(L, s, s + 1)
        invariant Find(nodes, Anc(L, s, d)) >= 0 && cur == Link(Find(nodes, Anc(L, s, d)))
      {
        LongStep(L, s, d);
        cur := EnterTree(L, s, d, cur, Shr(rev, d) % 2);
        d := d + 1;
      }
      assert d == size - 1;
      LongEnd(L, s);
      Store(L, s, cur, Shr(rev, size - 1) % 2);
    }

    lemma {:induction false} TableFits(L: seq<nat>, m: nat, n: nat)
      requires Holds(L, m, n)
      ensures Fits(L) && |L| <= MAX_SYMS && NodesOk(L, m, n, nodes)
    {
    }

    method Clear()
      requires Valid()
      modifies this, lookup, tree
      ensures forall r :: 0 <= r < FAST_SIZE ==> lookup[r] == 0
      ensures forall i :: 0 <= i < TREE_SIZE ==> tree[i] == 0
      ensures treeNext == -1 && nodes == []
    {
      forall r | 0 <= r < FAST_SIZE { lookup[r] := 0; }
      forall i | 0 <= i < TREE_SIZE { tree[i] := 0; }
      treeNext, nodes := -1, [];
    }

    /** Inserts one symbol with the next free code of its length. */
    method Insert(ghost L: seq<nat>, s: nat, size: nat, code: nat)
      requires s < |L| && Holds(L, s, s) && L[s] == size && (size > 0 ==> code == Code(L, s))
      modifies this, lookup, tree
      ensures Holds(L, s + 1, s + 1)
    {
      TableFits(L, s, s);
      hide Inv;
      if size == 0 {
        SkipOk(L, s, nodes, lookup[..], tree[..]);
      } else {
        CodeBound(L, s);
        var rev := ReverseCode(code, size);
        if size <= FAST_BITS {
          InsertShort(L, s, size, rev);
        } else {
          InsertLong(L, s, size, rev);
        }
      }
    }

    /** Rejects a code that is neither complete nor of at most one symbol; otherwise builds its table. */
    method Build(L: seq<nat>) returns (ok: bool)
      requires Valid() && ValidLens(L) && |L| <= MAX_SYMS
      modifies this, lookup, tree
      ensures ok <==> Accepted(L)
      ensures ok ==> Holds(L, |L|, |L|)
    {
      Clear();
      var counts := Histogram(L);
      var next, total, used := NextCodes(L, counts);
      Pow2Values();
      if total != 65536 && used > 1 {
        return false;
      }
      AcceptedFits(L);
      EmptyInv(L, lookup[..], tree[..]);
      hide Inv;
      InsertAll(L, next);
      ok := true;
    }

    method InsertAll(L: seq<nat>, next: array<int>)
      requires Holds(L, 0, 0) && next.Length == 17 && next != lookup && next != tree
      requires forall i :: 0 <= i <= 16 ==> next[i] == NextCode(L, i)
      modifies this, lookup, tree, next
      ensures Holds(L, |L|, |L|)
    {
      hide Inv;
      var s := 0;
      while s < |L|
        invariant s <= |L| && Holds(L, s, s)
        invariant Pending(L, s, next[..])
      {
        InsertNext(L, s, next);
        s := s + 1;
      }
    }

    method InsertNext(L: seq<nat>, s: nat, next: array<int>)
      requires s < |L| && Holds(L, s, s) && next != lookup && next != tree && Pending(L, s, next[..])
      modifies this, lookup, tree, next
      ensures Holds(L, s + 1, s + 1) && Pending(L, s + 1, next[..])
    {
      TableFits(L, s, s);
      hide Inv;
      var size := L[s];
      if size == 0 {
        Insert(L, s, 0, 0);
      } else {
        var code := next[size];
        next[size] := code + 1;
        Insert(L, s, size, code);
      }
    }

    /** Decodes the symbol whose code the low bits of `bitBuf` start with. */
    method Decode(ghost L: seq<nat>, bitBuf: nat) returns (sym: nat, size: nat)
      requires Holds(L, |L|, |L|)
      ensures forall s: nat :: Starts(L, s, bitBuf) ==> sym == s && size == L[s]
      ensures Leaf(L, nodes, bitBuf, size)
      ensures NoSymbols(L) ==> sym == 0 && size == 0
    {
      var temp := Look(L, bitBuf);
      TableFits(L, |L|, |L|);
      if NoSymbols(L) { NoSlot(L, nodes, bitBuf); }
      hide Inv;
      hide NodesOk;
      if temp >= 0 {
        size := temp / 512;
        sym := temp % 512;
        forall s: nat | Starts(L, s, bitBuf) ensures sym == s && size == L[s] {
          LookupDecodes(L, nodes, bitBuf, s);
          Fields(L[s], s, temp);
        }
      } else {
        sym, size := Walk(L, bitBuf, temp);
      }
    }

    /** `m_look_up[bit_buf & 1023]` */
    method Look(ghost L: seq<nat>, bitBuf: nat) returns (temp: int)
      requires Holds(L, |L|, |L|)
      ensures temp == LkSlot(L, |L|, nodes, bitBuf)
    {
      hide LkSlot;
      LookupIndex(L, |L|, nodes, bitBuf);
      temp := lookup[bitBuf % FAST_SIZE];
      assert lookup[..][bitBuf % FAST_SIZE] == LkSlot(L, |L|, nodes, bitBuf % FAST_SIZE);
    }

    /** One step down the overflow tree: `m_tree[~temp + ((bit_buf >> d) & 1)]`. */
    method Step(ghost L: seq<nat>, bitBuf: nat, temp: int, d: nat) returns (next: int)
      requires Holds(L, |L|, |L|) && temp < 0 && At(L, nodes, bitBuf, temp, d)
      ensures d < MAX_LEN && At(L, nodes, bitBuf, next, d + 1)
    {
      StepOk(L, nodes, tree[..], bitBuf, temp, d);
      hide Inv;
      hide At;
      next := tree[-temp - 1 + Shr(bitBuf, d) % 2];
    }

    /** Follows the overflow tree as far as `n` bits allow. */
    method WalkWithin(ghost L: seq<nat>, bitBuf: nat, link: int, n: nat) returns (temp: int, d: nat)
      requires Holds(L, |L|, |L|) && link < 0 && link == LkSlot(L, |L|, nodes, bitBuf)
      ensures At(L, nodes, bitBuf, temp, d) && if temp >= 0 then d <= n else n <= d
    {
      temp, d := link, FAST_BITS;
      assert At(L, nodes, bitBuf, temp, d);
      hide Inv;
      hide At;
      while temp < 0 && n >= d + 1
        invariant d <= MAX_LEN && At(L, nodes, bitBuf, temp, d) && (temp >= 0 ==> d <= n)
        decreases temp < 0, MAX_LEN - d
      {
        temp := Step(L, bitBuf, temp, d);
        d := d + 1;
      }
    }

    /** Follows the overflow tree to a leaf. */
    method Walk(ghost L: seq<nat>, bitBuf: nat, link: int) returns (sym: nat, size: nat)
      requires Holds(L, |L|, |L|) && link < 0 && link == LkSlot(L, |L|, nodes, bitBuf)
      ensures forall s: nat :: Starts(L, s, bitBuf) ==> sym == s && size == L[s]
      ensures Leaf(L, nodes, bitBuf, size)
    {
      var temp := link;
      size := FAST_BITS;
      assert At(L, nodes, bitBuf, temp, size);
      TableFits(L, |L|, |L|);
      hide Inv;
      hide At;
      hide NodesOk;
      while temp < 0
        invariant size <= MAX_LEN && At(L, nodes, bitBuf, temp, size)
        decreases temp < 0, MAX_LEN - size
      {
        temp := Step(L, bitBuf, temp, size);
        size := size + 1;
      }
      sym := temp;
      TreeDecodesAll(L, nodes, bitBuf, sym, size);
    }
  }

  /** The tree walk stands at depth `d` on bits `v`, on an inner node or on a leaf. */
  ghost predicate At(L: seq<nat>, nodes: Nodes, v: nat, temp: int, d: nat) {
    FAST_BITS <= d <= MAX_LEN &&
    if temp < 0 then Find(nodes, Path(v, d)) >= 0 && temp == Link(Find(nodes, Path(v, d)))
    else
      FAST_BITS < d && Leaf(L, nodes, v, d) && Find(nodes, Path(v, d - 1)) >= 0 && Find(nodes, Path(v, d)) < 0
      && temp == TrSlot(L, |L|, nodes, Path(v, d))
  }

  lemma {:induction false} StepOk(L: seq<nat>, nodes: Nodes, tr: seq<int>, v: nat, temp: int, d: nat)
    requires Fits(L) && NodesOk(L, |L|, |L|, nodes) && TrOk(L, |L|, nodes, tr) && temp < 0 && At(L, nodes, v, temp, d)
    ensures d < MAX_LEN
    ensures var i := -temp - 1 + Shr(v, d) % 2; 0 <= i < |tr| && At(L, nodes, v, tr[i], d + 1)
  {
    hide NodesOk;
    hide TrOk;
    hide Path;
    WalkStep(L, nodes, tr, v, d);
    NodesAlong(L, nodes, v, FAST_BITS, d);
  }

  /** The first `d` bits written for a symbol spell the first `d` bits of its code. */
  lemma {:induction false} LongPath(L: seq<nat>, s: nat, d: nat)
    requires Fits(L) && s < |L| && L[s] > 0 && d <= L[s]
    ensures Path(Rev(Code(L, s), L[s]), d) == Anc(L, s, d)
  {
    CodeBound(L, s);
    RevPath(Code(L, s), L[s]);
    StartsPath(L, s, Rev(Code(L, s), L[s]), d);
  }

  lemma {:induction false} LongStep(L: seq<nat>, s: nat, d: nat)
    requires Fits(L) && s < |L| && d < L[s]
    ensures Anc(L, s, d + 1) == Child(Anc(L, s, d), Shr(Rev(Code(L, s), L[s]), d) % 2)
  {
    LongPath(L, s, d);
    LongPath(L, s, d + 1);
  }

  lemma {:induction false} LongEnd(L: seq<nat>, s: nat)
    requires Fits(L) && s < |L| && L[s] > 0
    ensures SymId(L, s) == Child(Anc(L, s, L[s] - 1), Shr(Rev(Code(L, s), L[s]), L[s] - 1) % 2)
  {
    hide SymId;
    LongStep(L, s, L[s] - 1);
  }

  /** `next` holds the code each length gives out next, after the first `s` symbols. */
  ghost predicate Pending(L: seq<nat>, s: nat, next: seq<int>) {
    s <= |L| && |next| == 17 && forall i :: 0 < i <= 16 ==> next[i] == NextCode(L, i) + Count(L, s, i)
  }

  method Histogram(L: seq<nat>) returns (counts: array<int>)
    requires ValidLens(L)
    ensures fresh(counts) && counts.Length == 16
    ensures forall i :: 0 <= i < 16 ==> counts[i] == Count(L, |L|, i)
  {
    counts := new int[16](_ => 0);
    for s := 0 to |L|
      invariant forall i :: 0 <= i < 16 ==> counts[i] == Count(L, s, i)
    {
      counts[L[s]] := counts[L[s]] + 1;
    }
  }

  /** First codes of each length, the decoder's completeness total and the number of used symbols. */
  method NextCodes(L: seq<nat>, counts: array<int>) returns (next: array<int>, total: nat, used: nat)
    requires ValidLens(L) && counts.Length == 16
    requires forall i :: 0 <= i < 16 ==> counts[i] == Count(L, |L|, i)
    ensures fresh(next) && next.Length == 17
    ensures forall i :: 0 <= i <= 16 ==> next[i] == NextCode(L, i)
    ensures total == NextCode(L, 16) && used == Used(L, |L|)
  {
    hide Count;
    hide Used;
    NextCodeStart(L);
    hide NextCode;
    hide UsedUpTo;
    next := new int[17](_ => 0);
    total, used := 0, 0;
    var i: nat := 1;
    while i <= 15
      invariant 1 <= i <= 16
      invariant forall j :: 0 <= j <= i ==> next[j] == NextCode(L, j)
      invariant total == NextCode(L, i)
      invariant used == UsedUpTo(L, |L|, i - 1)
    {
      NextCodeStep(L, i);
      used := used + counts[i];
      total := 2 * (total + counts[i]);
      next[i + 1] := total;
      i := i + 1;
    }
    UsedUpToAll(L, |L|, MAX_LEN);
  }

  lemma {:induction false} NextCodeStart(L: seq<nat>)
    ensures NextCode(L, 0) == NextCode(L, 1) == 0 && UsedUpTo(L, |L|, 0) == 0
  {
  }

  lemma {:induction false} NextCodeStep(L: seq<nat>, i: nat)
    requires i >= 1
    ensures NextCode(L, i + 1) == 2 * (NextCode(L, i) + Count(L, |L|, i))
    ensures UsedUpTo(L, |L|, i) == UsedUpTo(L, |L|, i - 1) + Count(L, |L|, i)
  {
  }

  lemma {:induction false} EmptyInv(L: seq<nat>, lk: seq<int>, tr: seq<int>)
    requires Fits(L) && |L| <= MAX_SYMS && |lk| == FAST_SIZE && |tr| == TREE_SIZE
    requires forall r :: 0 <= r < FAST_SIZE ==> lk[r] == 0
    requires forall i :: 0 <= i < TREE_SIZE ==> tr[i] == 0
    ensures Inv(L, 0, 0, [], lk, tr)
  {
  }
}
