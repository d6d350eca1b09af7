/**
 * The compressor's window: a circular dictionary whose first 257 bytes are mirrored past its end, so that a match may
 * be compared without wrapping. Positions in the input are counted without bound; the program keeps them in 32 bits and
 * only uses their differences and low bits.
 */
module Dictionary {
  import opened Bits

  const DICT := 32768
  const MAX_MATCH := 258
  const DICT_BYTES := 33025

  function Slot(p: nat): (s: nat)
    ensures s < DICT
  {
    p % DICT
  }

  /** Input byte `p` is in its slot, and in the mirror if the slot has one. */
  ghost predicate InDict(d: seq<Byte>, src: seq<Byte>, p: nat)
    requires |d| == DICT_BYTES && p < |src|
  {
    d[Slot(p)] == src[p] && (Slot(p) < MAX_MATCH - 1 ==> d[DICT + Slot(p)] == src[p])
  }

  /** Input bytes `lo` to the last one taken in are in the dictionary. */
  ghost predicate Window(d: seq<Byte>, src: seq<Byte>, lo: nat) {
    |d| == DICT_BYTES && lo <= |src| <= lo + DICT && forall p: nat :: lo <= p < |src| ==> InDict(d, src, p)
  }

  lemma {:induction false} WindowTail(d: seq<Byte>, src: seq<Byte>, lo: nat, lo': nat)
    requires Window(d, src, lo) && lo <= lo' <= |src|
    ensures Window(d, src, lo')
  {
    hide InDict;
  }

  lemma {:induction false} SlotsDiffer(p: nat, q: nat)
    requires p < q < p + DICT
    ensures Slot(p) != Slot(q)
  {
  }

  /** A stretch of at most 257 bytes from a slot needs no wrapping. */
  lemma {:induction false} ReadAt(d: seq<Byte>, src: seq<Byte>, lo: nat, p: nat, i: nat)
    requires Window(d, src, lo) && lo <= p + i < |src| && i < MAX_MATCH
    ensures Slot(p) + i < DICT_BYTES && d[Slot(p) + i] == src[p + i]
  {
    assert InDict(d, src, p + i);
    assert Slot(p + i) == if Slot(p) + i < DICT then Slot(p) + i else Slot(p) + i - DICT;
  }

  ghost function Stored(d: seq<Byte>, s: nat, c: Byte): (r: seq<Byte>)
    requires |d| == DICT_BYTES && s < DICT
    ensures |r| == DICT_BYTES
  {
    if s < MAX_MATCH - 1 then d[s := c][DICT + s := c] else d[s := c]
  }

  /** Taking in one more byte drops at most the one a full window away. */
  lemma {:induction false} TakeIn(d: seq<Byte>, src: seq<Byte>, lo: nat, lo': nat, c: Byte)
    requires Window(d, src, lo) && lo <= lo' <= |src| + 1 <= lo' + DICT
    ensures Window(Stored(d, Slot(|src|), c), src + [c], lo')
  {
    hide Slot;
    var r, t := Stored(d, Slot(|src|), c), src + [c];
    forall p: nat | lo' <= p < |t| ensures InDict(r, t, p) {
      if p < |src| {
        assert InDict(d, src, p);
        SlotsDiffer(p, |src|);
      }
    }
  }

  /** `len` bytes at `p` repeat those `dist` before. */
  ghost predicate Repeats(src: seq<Byte>, p: nat, dist: nat, len: nat) {
    1 <= dist <= p && p + len <= |src| && forall j :: p <= j < p + len ==> src[j] == src[j - dist]
  }

  lemma {:induction false} RunOfThree(src: seq<Byte>, p: nat)
    requires Repeats(src, p, 1, 3)
    ensures src[p] == src[p - 1] && src[p + 1] == src[p - 1] && src[p + 2] == src[p - 1]
  {
    assert src[p] == src[p - 1] && src[p + 1] == src[p] && src[p + 2] == src[p + 1];
  }

  /** `a ^ b` */
  function Xor(a: nat, b: nat): (r: nat)
    decreases a + b
  {
    if a == 0 && b == 0 then 0 else (a % 2 + b % 2) % 2 + 2 * Xor(a / 2, b / 2)
  }

  /** `((hash << 5) ^ c) & 32767` */
  function HashStep(h: nat, c: Byte): (r: nat)
    ensures r < DICT
  {
    Pow2Values();
    Low(Xor(Shl(h, 5), c), 15)
  }

  /** The oldest byte kept when `hi` bytes have been taken in and those before `base` are not needed. */
  function Floor(base: nat, hi: nat): (lo: nat) {
    if hi > base + DICT then hi - DICT else base
  }

  datatype Probe = Stop | Miss(pos: nat) | Hit(pos: nat, dist: nat)

  class Dict {
    const dict: array<Byte>
    const next: array<nat>
    const hash: array<nat>
    var lookPos: nat
    var lookSize: nat
    var dictSize: nat
    ghost var src: seq<Byte>

    ghost predicate Valid()
      reads this, dict, next, hash
    {
      && dict as object != next && dict as object != hash
      && next != hash && next.Length == DICT && hash.Length == DICT && dict.Length == DICT_BYTES
      && lookPos + lookSize == |src| && lookSize <= MAX_MATCH && dictSize <= lookPos
      && dictSize + lookSize <= DICT && Window(dict[..], src, lookPos - dictSize)
    }

    constructor ()
      ensures Valid() && src == [] && lookPos == 0 && lookSize == 0 && dictSize == 0
      ensures fresh(dict) && fresh(next) && fresh(hash)
    {
      dict := new Byte[DICT_BYTES];
      next := new nat[DICT];
      hash := new nat[DICT](_ => 0);
      lookPos, lookSize, dictSize, src := 0, 0, 0, [];
    }

    /** Stores the next byte, and its mirror image if it falls at the start of the dictionary. */
    method Store(c: Byte, dst: nat, ghost base: nat)
      requires dst == Slot(|src|) && dict.Length == DICT_BYTES && base <= |src|
        && Window(dict[..], src, Floor(base, |src|))
      modifies this`src, dict
      ensures src == old(src) + [c] && Window(dict[..], src, Floor(base, |src|))
    {
      hide Window, Slot;
      ghost var d := dict[..];
      TakeIn(d, src, Floor(base, |src|), Floor(base, |src| + 1), c);
      dict[dst] := c;
      if dst < MAX_MATCH - 1 { dict[DICT + dst] := c; }
      assert dict[..] == Stored(d, dst, c);
      src := src + [c];
    }

    /** Puts position `ins` at the head of its hash chain. */
    method Insert(h: nat, ins: nat)
      requires h < DICT && next != hash && next.Length == hash.Length == DICT
      modifies next, hash
    {
      next[Slot(ins)] := hash[h];
      hash[h] := ins % 65536;
    }

    /** Takes in `n` bytes, hashing each with the two before it. */
    method FillFast(input: seq<Byte>, n: nat)
      requires Valid() && lookSize + dictSize >= 2 && n <= |input| && lookSize + n <= MAX_MATCH
      modifies this`src, this`lookSize, dict, next, hash
      ensures src == old(src) + input[..n] && lookSize == old(lookSize) + n
      ensures Window(dict[..], src, Floor(lookPos - dictSize, |src|))
    {
      hide Window, Slot, HashStep;
      ghost var base := lookPos - dictSize;
      var dst: nat, ins: nat := Slot(lookPos + lookSize), lookPos + lookSize - 2;
      var h: nat := HashStep(dict[Slot(ins)], dict[Slot(ins + 1)]);
      lookSize := lookSize + n;
      var i := 0;
      while i < n
        invariant 0 <= i <= n && lookSize == old(lookSize) + n && src == old(src) + input[..i] && dst == Slot(|src|)
          && ins + 2 == |src| && h < DICT
        invariant dict.Length == DICT_BYTES && Window(dict[..], src, Floor(base, |src|))
      {
        var c := input[i];
        assert input[..i + 1] == input[..i] + [c];
        Store(c, dst, base);
        h := HashStep(h, c);
        Insert(h, ins);
        NextSlot(|old(src)| + i);
        dst := (dst + 1) % DICT;
        ins := ins + 1;
        i := i + 1;
      }
    }

    /** Takes in bytes one at a time while there are too few for a hash. */
    method FillSlow(input: seq<Byte>) returns (n: nat)
      requires Valid()
      modifies this`src, this`lookSize, dict, next, hash
      ensures n == (if |input| < MAX_MATCH - old(lookSize) then |input| else MAX_MATCH - old(lookSize))
      ensures src == old(src) + input[..n] && lookSize == old(lookSize) + n
      ensures Window(dict[..], src, Floor(lookPos - dictSize, |src|))
    {
      hide Window, Slot, HashStep;
      ghost var base := lookPos - dictSize;
      n := 0;
      while n < |input| && lookSize < MAX_MATCH
        invariant 0 <= n <= |input| && lookSize == old(lookSize) + n <= MAX_MATCH && lookPos + lookSize == |src|
        invariant src == old(src) + input[..n]
        invariant dict.Length == DICT_BYTES && Window(dict[..], src, Floor(base, |src|))
      {
        var c := input[n];
        assert input[..n + 1] == input[..n] + [c];
        Store(c, Slot(lookPos + lookSize), base);
        n := n + 1;
        lookSize := lookSize + 1;
        if lookSize + dictSize >= 3 {
          var ins := lookPos + (lookSize - 1) - 2;
          Insert(HashStep(HashStep(dict[Slot(ins)], dict[Slot(ins + 1)]), c), ins);
        }
      }
    }

    /** Tops the lookahead up to the longest match from the input. */
    method Fill(input: seq<Byte>) returns (n: nat)
      requires Valid()
      modifies this, dict, next, hash
      ensures Valid() && n == (if |input| < MAX_MATCH - old(lookSize) then |input| else MAX_MATCH - old(lookSize))
      ensures src == old(src) + input[..n] && lookPos == old(lookPos) && lookSize == old(lookSize) + n
      ensures dictSize <= old(dictSize)
    {
      hide Window;
      if lookSize + dictSize >= 2 {
        n := if |input| < MAX_MATCH - lookSize then |input| else MAX_MATCH - lookSize;
        FillFast(input, n);
      } else {
        n := FillSlow(input);
      }
      if DICT - lookSize < dictSize { dictSize := DICT - lookSize; }
    }

    /** The byte `i` past position `p`, read without wrapping. */
    lemma {:induction false} Reads(p: nat, i: nat)
      requires Valid() && lookPos - dictSize <= p + i < |src| && i < MAX_MATCH
      ensures Slot(p) + i < DICT_BYTES && dict[Slot(p) + i] == src[p + i]
    {
      ReadAt(dict[..], src, lookPos - dictSize, p, i);
    }

    /** One step along a chain of earlier positions; what the chain holds need not be trusted. */
    method Follow(probe: nat, len: nat, c0: Byte, c1: Byte) returns (r: Probe)
      requires Valid() && probe < DICT && 1 <= len < MAX_MATCH
      ensures r.Hit? ==> r.dist <= dictSize && r.pos == Slot(lookPos - r.dist)
      ensures r.Miss? ==> r.pos < DICT
    {
      var np := next[probe];
      if np == 0 { return Stop; }
      var dist := (lookPos - np) % 65536;
      if dist > dictSize { return Stop; }
      SlotOfDist(lookPos, np, dist);
      var pos := Slot(np);
      r := if dict[pos + len] == c0 && dict[pos + len - 1] == c1 then Hit(pos, dist) else Miss(pos);
    }

    /** Up to three steps for each probe allowed. */
    method Search(probe0: nat, len: nat, c0: Byte, c1: Byte, left0: nat) returns (r: Probe, left: nat)
      requires Valid() && probe0 < DICT && 1 <= len < MAX_MATCH && left0 >= 1
      ensures r.Stop? || (r.Hit? && r.dist <= dictSize && r.pos == Slot(lookPos - r.dist) && 1 <= left < left0)
    {
      var probe: nat := probe0;
      left := left0;
      while true
        invariant probe < DICT && 1 <= left <= left0
        decreases left
      {
        left := left - 1;
        if left == 0 { return Stop, 0; }
        r := Follow(probe, len, c0, c1);
        if !r.Miss? { return; }
        r := Follow(r.pos, len, c0, c1);
        if !r.Miss? { return; }
        r := Follow(r.pos, len, c0, c1);
        if !r.Miss? { return; }
        probe := r.pos;
      }
    }

    /** How many bytes at the lookahead repeat those `dist` back, up to `max`. */
    method Compare(dist: nat, max: nat) returns (len: nat)
      requires Valid() && 1 <= dist <= dictSize && max <= lookSize
      ensures len <= max && Repeats(src, lookPos, dist, len)
      ensures len < max ==> src[lookPos + len] != src[lookPos - dist + len]
    {
      hide Window, Slot;
      var p, q := Slot(lookPos), Slot(lookPos - dist);
      len := 0;
      while len < max
        invariant len <= max && Repeats(src, lookPos, dist, len)
        invariant len < max || len == max
      {
        Reads(lookPos, len);
        Reads(lookPos - dist, len);
        if dict[p + len] != dict[q + len] { return; }
        len := len + 1;
      }
    }

    /**
     * Looks for a match longer than `len0`. Whatever the hash chains hold, a match that is reported is one: it lies in
     * the window, repeats the lookahead byte for byte and is longer than asked for.
     */
    method FindMatch(len0: nat, probes: nat) returns (dist: nat, len: nat)
      requires Valid() && 1 <= len0 < MAX_MATCH && probes >= 1
      ensures dist == 0 ==> len == len0
      ensures dist > 0 ==> len0 < len <= lookSize && dist <= dictSize && Repeats(src, lookPos, dist, len)
    {
      hide Window, Slot, Repeats;
      dist, len := 0, len0;
      if lookSize <= len { return; }
      var pos := Slot(lookPos);
      var probe: nat, left: nat := pos, probes;
      while true
        invariant probe < DICT && 1 <= left && len0 <= len < lookSize
        invariant dist == 0 ==> len == len0
        invariant dist > 0 ==> len0 < len && dist <= dictSize && Repeats(src, lookPos, dist, len)
        decreases left
      {
        var r;
        r, left := Search(probe, len, dict[pos + len], dict[pos + len - 1], left);
        if r.Stop? || r.dist == 0 { return; }
        probe := r.pos;
        var n := Compare(r.dist, lookSize);
        if n > len {
          dist, len := r.dist, n;
          if len == lookSize { return; }
        }
      }
    }

    /** A run of the byte before the lookahead, as long as it goes. */
    method FindRun() returns (dist: nat, len: nat)
      requires Valid() && dictSize > 0
      ensures dist == 0 ==> len == 0
      ensures dist > 0 ==> dist == 1 && 3 <= len <= lookSize && Repeats(src, lookPos, dist, len)
      ensures dist > 0 && len < lookSize ==> src[lookPos + len] != src[lookPos - 1]
      ensures dist == 0 ==> !(lookSize >= 3 && Repeats(src, lookPos, 1, 3))
    {
      hide Window, Slot;
      Reads(lookPos - 1, 0);
      var p, c := Slot(lookPos), dict[Slot(lookPos - 1)];
      dist, len := 0, 0;
      while len < lookSize
        invariant len <= lookSize && forall j :: lookPos <= j < lookPos + len ==> src[j] == c
      {
        Reads(lookPos, len);
        if dict[p + len] != c { break; }
        len := len + 1;
      }
      if len < 3 {
        if Repeats(src, lookPos, 1, 3) { RunOfThree(src, lookPos); }
        len := 0;
      } else {
        dist := 1;
      }
    }

    /** Forgets everything before the lookahead. */
    method Forget()
      requires Valid()
      modifies this`dictSize, next, hash
      ensures Valid() && dictSize == 0
    {
      WindowTail(dict[..], src, lookPos - dictSize, lookPos);
      hide Window;
      ghost var d := dict[..];
      forall i | 0 <= i < DICT { hash[i] := 0; }
      forall i | 0 <= i < DICT { next[i] := 0; }
      assert dict[..] == d;
      dictSize := 0;
    }

    /** Moves past `n` bytes of the lookahead. */
    method Advance(n: nat)
      requires Valid() && n <= lookSize
      modifies this`lookPos, this`lookSize, this`dictSize
      ensures Valid() && lookPos == old(lookPos) + n && lookSize == old(lookSize) - n
      ensures dictSize == old(dictSize) + n
    {
      hide Window;
      lookPos := lookPos + n;
      lookSize := lookSize - n;
      dictSize := if dictSize + n < DICT then dictSize + n else DICT;
    }
  }

  /** Positions are compared modulo 65536; the slot is the same. */
  lemma {:induction false} SlotOfDist(pos: nat, np: nat, dist: nat)
    requires dist == (pos - np) % 65536 && dist <= pos
    ensures Slot(np) == Slot(pos - dist)
  {
    var k := (pos - np) / 65536;
    assert pos - np == 65536 * k + dist;
    assert pos - dist == np + DICT * (2 * k);
    ModShift(np, 2 * k);
  }

  lemma {:induction false} ModShift(np: nat, k: int)
    requires np + DICT * k >= 0
    ensures (np + DICT * k) % DICT == np % DICT
  {
  }

  lemma {:induction false} NextSlot(p: nat)
    ensures Slot(p + 1) == (Slot(p) + 1) % DICT
  {
  }
}