/**
 * The buffer of LZ codes: groups of up to eight tokens, each group led by a byte of flags. A flag byte is filled from
 * the top by shifting, so until its group is full it holds left-over bits of whatever was there before.
 */
module LzBuffer {
  import opened Bits
  import opened LzTokens

  const SIZE := 65536

  function Payload(t: Token): (b: seq<Byte>)
    requires TokenOk(t)
  {
    match t
    case Lit(c) => [c]
    case Match(len, dist) => [len - MIN_MATCH, (dist - 1) % 256, (dist - 1) / 256]
  }

  ghost predicate AllOk(ts: seq<Token>) {
    forall i :: 0 <= i < |ts| ==> TokenOk(ts[i])
  }

  /** The bytes of tokens `i` to `j - 1`. */
  ghost function Payloads(ts: seq<Token>, i: nat, j: nat): (b: seq<Byte>)
    requires i <= j <= |ts| && AllOk(ts)
    decreases j
  {
    if i == j then [] else Payloads(ts, i, j - 1) + Payload(ts[j - 1])
  }

  function Flag(t: Token): (v: nat) {
    if t.Match? then 1 else 0
  }

  /** The flags of tokens `i` to `i + m - 1`, the first in the lowest bit. */
  ghost function Flags(ts: seq<Token>, i: nat, m: nat): (v: nat)
    requires i + m <= |ts|
    ensures v < Pow2(m)
  {
    if m == 0 then 0 else
      AppendBound(Flags(ts, i, m - 1), m - 1, Flag(ts[i + m - 1]), 1);
      Flags(ts, i, m - 1) + Shl(Flag(ts[i + m - 1]), m - 1)
  }

  /** The first `g` full groups. */
  ghost function Groups(ts: seq<Token>, g: nat): (b: seq<Byte>)
    requires 8 * g <= |ts| && AllOk(ts)
  {
    if g == 0 then [] else
      Pow2Values();
      Groups(ts, g - 1) + [Flags(ts, 8 * (g - 1), 8)] + Payloads(ts, 8 * (g - 1), 8 * g)
  }

  /** A flag byte holding `m` flags in its top bits. */
  ghost predicate PartFlags(f: nat, flags: nat, m: nat) {
    m <= 8 && f < 256 && Shr(f, 8 - m) == flags
  }

  /** The buffer after `ts`: `g` full groups, then the open one of `m` tokens with its partly filled flag byte. */
  ghost predicate Open(buf: seq<Byte>, ts: seq<Token>, g: nat, m: nat, flagPos: nat, code: nat) {
    && AllOk(ts) && |buf| == SIZE && flagPos < code <= SIZE && |ts| == 8 * g + m && m <= 8
    && buf[..flagPos] == Groups(ts, g)
    && PartFlags(buf[flagPos], Flags(ts, 8 * g, m), m)
    && buf[flagPos + 1..code] == Payloads(ts, 8 * g, |ts|)
  }

  // ---- Appending does not disturb what is there ----

  lemma {:induction false} PayloadsPush(ts: seq<Token>, t: Token, i: nat, j: nat)
    requires i <= j <= |ts| && AllOk(ts) && TokenOk(t)
    ensures AllOk(ts + [t]) && Payloads(ts + [t], i, j) == Payloads(ts, i, j)
    decreases j
  {
    if i < j { PayloadsPush(ts, t, i, j - 1); }
  }

  lemma {:induction false} FlagsPush(ts: seq<Token>, t: Token, i: nat, m: nat)
    requires i + m <= |ts|
    ensures Flags(ts + [t], i, m) == Flags(ts, i, m)
  {
    if m > 0 { FlagsPush(ts, t, i, m - 1); }
  }

  lemma {:induction false} GroupsPush(ts: seq<Token>, t: Token, g: nat)
    requires 8 * g <= |ts| && AllOk(ts) && TokenOk(t)
    ensures AllOk(ts + [t]) && Groups(ts + [t], g) == Groups(ts, g)
  {
    hide Payloads, Flags, AllOk;
    PayloadsPush(ts, t, 0, 0);
    if g > 0 {
      GroupsPush(ts, t, g - 1);
      FlagsPush(ts, t, 8 * (g - 1), 8);
      PayloadsPush(ts, t, 8 * (g - 1), 8 * g);
    }
  }

  /** Shifting a flag in from the top. */
  lemma {:induction false} ShiftFlag(f: Byte, flags: nat, m: nat, bit: nat)
    requires m < 8 && PartFlags(f, flags, m) && bit < 2 && flags < Pow2(m)
    ensures f / 2 + 128 * bit < 256 && PartFlags(f / 2 + 128 * bit, flags + Shl(bit, m), m + 1)
  {
    Pow2Values();
    assert Shr(f, 8 - m) == Shr(f / 2, 7 - m);
    assert 128 * bit == Shl(bit, 7);
    TopBit(f / 2, bit, 7, 7 - m);
  }

  lemma {:induction false} TopBit(v: nat, bit: nat, n: nat, k: nat)
    requires k <= n
    ensures Shr(v + Shl(bit, n), k) == Shr(v, k) + Shl(bit, n - k)
    decreases k
  {
    if k > 0 {
      assert Shl(bit, n) == 2 * Shl(bit, n - 1);
      assert (v + Shl(bit, n)) / 2 == v / 2 + Shl(bit, n - 1);
      TopBit(v / 2, bit, n - 1, k - 1);
    }
  }

  lemma {:induction false} FlagsOne(ts: seq<Token>, t: Token, i: nat, m: nat)
    requires i + m == |ts|
    ensures Flags(ts + [t], i, m + 1) == Flags(ts, i, m) + Shl(Flag(t), m)
  {
    FlagsPush(ts, t, i, m);
  }

  lemma {:induction false} PayloadsOne(ts: seq<Token>, t: Token, i: nat)
    requires i <= |ts| && AllOk(ts) && TokenOk(t)
    ensures AllOk(ts + [t]) && Payloads(ts + [t], i, |ts| + 1) == Payloads(ts, i, |ts|) + Payload(t)
  {
    PayloadsPush(ts, t, i, |ts|);
  }

  /** Storing a token's bytes and shifting its flag in. */
  lemma {:induction false} Append(buf: seq<Byte>, ts: seq<Token>, g: nat, m: nat, flagPos: nat, code: nat, t: Token,
      buf': seq<Byte>)
    requires Open(buf, ts, g, m, flagPos, code) && m < 8 && TokenOk(t) && code + |Payload(t)| <= SIZE == |buf'|
    requires buf'[..flagPos] == buf[..flagPos] && buf'[flagPos] == buf[flagPos] / 2 + 128 * Flag(t)
    requires buf'[flagPos + 1..code + |Payload(t)|] == buf[flagPos + 1..code] + Payload(t)
    ensures Open(buf', ts + [t], g, m + 1, flagPos, code + |Payload(t)|)
  {
    hide Groups, Flags, Payloads, Payload, PartFlags;
    GroupsPush(ts, t, g);
    FlagsOne(ts, t, 8 * g, m);
    PayloadsOne(ts, t, 8 * g);
    ShiftFlag(buf[flagPos], Flags(ts, 8 * g, m), m, Flag(t));
  }

  lemma {:induction false} ByteGone(f: Byte)
    ensures Shr(f, 8) == 0 && Shr(f, 0) == f
  {
    Pow2Values();
    ShrZero(f, 8);
  }

  /** A full group closes, and the next flag byte is reserved whatever it holds. */
  lemma {:induction false} Close(buf: seq<Byte>, ts: seq<Token>, g: nat, flagPos: nat, code: nat)
    requires Open(buf, ts, g, 8, flagPos, code) && code < SIZE
    ensures Open(buf, ts, g + 1, 0, code, code + 1)
  {
    ByteGone(buf[flagPos]);
    ByteGone(buf[code]);
    assert buf[..code] == buf[..flagPos] + [buf[flagPos]] + buf[flagPos + 1..code];
    hide Payloads;
  }

  // ---- Counts ----

  function Sym0(t: Token): (s: nat)
    requires TokenOk(t)
    ensures s < 288
  {
    match t
    case Lit(c) => c
    case Match(len, _) => LenRoundTrip(len - 3); LenSym(len - 3)
  }

  ghost function Uses0(ts: seq<Token>, n: nat, s: nat): (v: nat)
    requires n <= |ts| && AllOk(ts)
  {
    if n == 0 then 0 else Uses0(ts, n - 1, s) + B(Sym0(ts[n - 1]) == s)
  }

  ghost function Uses1(ts: seq<Token>, n: nat, s: nat): (v: nat)
    requires n <= |ts| && AllOk(ts)
  {
    if n == 0 then 0 else Uses1(ts, n - 1, s) + B(ts[n - 1].Match? && DistSym(ts[n - 1].dist - 1) == s)
  }

  lemma {:induction false} UsesPush(ts: seq<Token>, t: Token, n: nat, s: nat)
    requires n <= |ts| && AllOk(ts) && TokenOk(t)
    ensures AllOk(ts + [t]) && Uses0(ts + [t], n, s) == Uses0(ts, n, s) && Uses1(ts + [t], n, s) == Uses1(ts, n, s)
  {
    if n > 0 { UsesPush(ts, t, n - 1, s); }
  }

  ghost predicate Counted(c0: seq<nat>, c1: seq<nat>, ts: seq<Token>) {
    && AllOk(ts) && |c0| == 288 && |c1| == 32
    && (forall s: nat :: s < 288 ==> c0[s] == Uses0(ts, |ts|, s))
    && (forall s: nat :: s < 32 ==> c1[s] == Uses1(ts, |ts|, s))
  }

  lemma {:induction false} UsesOne(ts: seq<Token>, t: Token, s: nat)
    requires AllOk(ts) && TokenOk(t)
    ensures AllOk(ts + [t]) && Uses0(ts + [t], |ts| + 1, s) == Uses0(ts, |ts|, s) + B(Sym0(t) == s)
    ensures Uses1(ts + [t], |ts| + 1, s) == Uses1(ts, |ts|, s) + B(t.Match? && DistSym(t.dist - 1) == s)
  {
    UsesPush(ts, t, |ts|, s);
  }

  lemma {:induction false} CountLit(c0: seq<nat>, c1: seq<nat>, ts: seq<Token>, b: Byte)
    requires Counted(c0, c1, ts)
    ensures Counted(c0[b := c0[b] + 1], c1, ts + [Lit(b)])
  {
    hide Uses0, Uses1, AllOk;
    UsesOne(ts, Lit(b), 0);
    forall s: nat ensures Uses0(ts + [Lit(b)], |ts| + 1, s) == Uses0(ts, |ts|, s) + B(s == b)
      && Uses1(ts + [Lit(b)], |ts| + 1, s) == Uses1(ts, |ts|, s)
    {
      UsesOne(ts, Lit(b), s);
    }
  }

  lemma {:induction false} CountMatch(c0: seq<nat>, c1: seq<nat>, ts: seq<Token>, t: Token, s0: nat, s1: nat)
    requires Counted(c0, c1, ts) && TokenOk(t) && t.Match? && s0 == Sym0(t) && s1 == DistSym(t.dist - 1) < 32
    ensures Counted(c0[s0 := c0[s0] + 1], c1[s1 := c1[s1] + 1], ts + [t])
  {
    hide Uses0, Uses1, DistSym, Sym0, AllOk;
    UsesOne(ts, t, 0);
    forall s: nat ensures Uses0(ts + [t], |ts| + 1, s) == Uses0(ts, |ts|, s) + B(s == s0)
      && Uses1(ts + [t], |ts| + 1, s) == Uses1(ts, |ts|, s) + B(s == s1)
    {
      UsesOne(ts, t, s);
    }
  }

  /** Total length of the bytes the tokens stand for. */
  ghost function Length(ts: seq<Token>, n: nat): (v: nat)
    requires n <= |ts|
  {
    if n == 0 then 0 else Length(ts, n - 1) + (if ts[n - 1].Match? then ts[n - 1].len else 1)
  }

  lemma {:induction false} LengthPush(ts: seq<Token>, t: Token, n: nat)
    requires n <= |ts|
    ensures Length(ts + [t], n) == Length(ts, n)
  {
    if n > 0 { LengthPush(ts, t, n - 1); }
  }

  class Codes {
    const buf: array<Byte>
    var flagPos: nat
    var code: nat
    var left: nat
    var total: nat
    const count0: array<nat>
    const count1: array<nat>
    ghost var ts: seq<Token>
    ghost var g: nat

    ghost predicate Valid()
      reads this, buf, count0, count1
    {
      && count0 != count1 && buf as object != count0 && buf as object != count1
      && 1 <= left <= 8 && Open(buf[..], ts, g, 8 - left, flagPos, code)
      && Counted(count0[..], count1[..], ts) && total == Length(ts, |ts|)
    }

    constructor ()
      ensures Valid() && ts == [] && code == 1 && total == 0 && fresh(buf) && fresh(count0) && fresh(count1)
    {
      buf := new Byte[SIZE];
      count0 := new nat[288](_ => 0);
      count1 := new nat[32](_ => 0);
      flagPos, code, left, total, ts, g := 0, 1, 8, 0, [], 0;
      new;
      EmptyOpen(buf[..], 0);
    }

    /** After a block: empty again, whatever the buffer holds. */
    method Reset()
      requires buf.Length == SIZE && count0.Length == 288 && count1.Length == 32
      requires count0 != count1 && buf as object != count0 && buf as object != count1
      modifies this, count0, count1
      ensures Valid() && ts == [] && code == 1 && total == 0
    {
      forall s | 0 <= s < 288 { count0[s] := 0; }
      forall s | 0 <= s < 32 { count1[s] := 0; }
      flagPos, code, left, total, ts, g := 0, 1, 8, 0, [], 0;
      EmptyOpen(buf[..], 0);
    }

    /**
     * Ends recording: the open group's flags move to the bottom of their byte, and an unused flag byte is given back.
     */
    method Seal()
      requires Valid()
      modifies this`code, buf
      ensures Sealed(buf[..], ts, g, code) && code <= old(code)
    {
      hide Open, Sealed;
      OpenBounds(buf[..], ts, g, 8 - left, flagPos, code);
      ghost var was, end := buf[..], code;
      SealOk(was, ts, g, 8 - left, flagPos, end);
      var f: Byte := Shr(buf[flagPos], left);
      buf[flagPos] := f;
      assert buf[..] == was[flagPos := f];
      if left == 8 { code := code - 1; }
    }

    /** Shifts the current flag byte, and reserves the next one when the group is full. */
    method ShiftFlags(bit: nat, ghost was: seq<Byte>, ghost t: Token)
      requires bit == Flag(t) && 1 <= left <= 8 && TokenOk(t) && flagPos < buf.Length && code < SIZE
      requires |Payload(t)| <= code && Open(was, ts, g, 8 - left, flagPos, code - |Payload(t)|)
      requires buf.Length == |was| == SIZE && buf[..code - |Payload(t)|] == was[..code - |Payload(t)|]
      requires buf[code - |Payload(t)|..code] == Payload(t)
      modifies this`flagPos, this`code, this`left, this`ts, this`g, buf
      ensures ts == old(ts) + [t] && 1 <= left <= 8 && Open(buf[..], ts, g, 8 - left, flagPos, code)
      ensures code <= old(code) + 1
    {
      hide Open, Payload;
      ghost var p, mid := code - |Payload(t)|, buf[..];
      Flagged(was, mid, ts, g, 8 - left, flagPos, p, t);
      buf[flagPos] := buf[flagPos] / 2 + 128 * bit;
      assert buf[..] == mid[flagPos := mid[flagPos] / 2 + 128 * bit];
      ts := ts + [t];
      left := left - 1;
      if left == 0 {
        left := 8;
        Close(buf[..], ts, g, flagPos, code);
        g := g + 1;
        flagPos := code;
        code := code + 1;
      }
    }

    method RecordLiteral(lit: Byte)
      requires Valid() && code + 2 <= SIZE
      modifies this, buf, count0
      ensures Valid() && ts == old(ts) + [Lit(lit)] && code <= old(code) + 2 && total == old(total) + 1
    {
      hide Open, Counted, Length;
      OpenBounds(buf[..], ts, g, 8 - left, flagPos, code);
      ghost var was, c0 := buf[..], count0[..];
      CountLit(c0, count1[..], ts, lit);
      LengthOne(ts, Lit(lit));
      total := total + 1;
      buf[code] := lit;
      code := code + 1;
      assert buf[..code - 1] == was[..code - 1] && buf[code - 1..code] == Payload(Lit(lit));
      CountedSizes(c0, count1[..], ts);
      ShiftFlags(0, was, Lit(lit));
      count0[lit] := count0[lit] + 1;
      assert count0[..] == c0[lit := c0[lit] + 1];
    }

    method StoreMatch(len: nat, d: nat)
      requires buf.Length == SIZE && code + 3 <= SIZE && TokenOk(Match(len, d + 1))
      modifies this`code, buf
      ensures code == old(code) + 3 && buf[..old(code)] == old(buf[..code])
        && buf[old(code)..code] == Payload(Match(len, d + 1))
    {
      buf[code] := len - MIN_MATCH;
      buf[code + 1] := d % 256;
      buf[code + 2] := d / 256;
      code := code + 3;
    }

    method RecordMatch(len: nat, dist: nat)
      requires Valid() && code + 4 <= SIZE && TokenOk(Match(len, dist))
      modifies this, buf, count0, count1
      ensures Valid() && ts == old(ts) + [Match(len, dist)] && code <= old(code) + 4 && total == old(total) + len
    {
      hide Open, Counted, Length, LenSym, DistSym, Payload, Sym0;
      ghost var t := Match(len, dist);
      OpenBounds(buf[..], ts, g, 8 - left, flagPos, code);
      ghost var was, c0, c1 := buf[..], count0[..], count1[..];
      LengthOne(ts, t);
      CountedSizes(c0, c1, ts);
      total := total + len;
      var d := dist - 1;
      StoreMatch(len, d);
      LenRoundTrip(len - 3);
      DistRoundTrip(d);
      MatchSym(t);
      var s0 := LenSym(len - MIN_MATCH);
      var s1 := DistSymbol(d);
      CountMatch(c0, c1, ts, t, s0, s1);
      ShiftFlags(1, was, t);
      count1[s1] := count1[s1] + 1;
      count0[s0] := count0[s0] + 1;
      assert count0[..] == c0[s0 := c0[s0] + 1] && count1[..] == c1[s1 := c1[s1] + 1];
    }
  }

  lemma {:induction false} MatchSym(t: Token)
    requires TokenOk(t) && t.Match?
    ensures Sym0(t) == LenSym(t.len - 3) && |Payload(t)| == 3
  {
  }

  lemma {:induction false} EmptyOpen(buf: seq<Byte>, flagPos: nat)
    requires |buf| == SIZE && flagPos == 0
    ensures Open(buf, [], 0, 0, 0, 1)
  {
    ByteGone(buf[0]);
  }

  /** The distance symbol through the small or the large table. */
  function DistSymbol(d: nat): (s: nat)
    requires d < WINDOW
    ensures s == DistSym(d)
  {
    if d < 512 then SmallDistSym(d) else LargeDist(d); LargeDistSym(d / 256)
  }

  lemma {:induction false} LengthOne(ts: seq<Token>, t: Token)
    ensures Length(ts + [t], |ts| + 1) == Length(ts, |ts|) + (if t.Match? then t.len else 1)
  {
    LengthPush(ts, t, |ts|);
  }

  lemma {:induction false} CountedSizes(c0: seq<nat>, c1: seq<nat>, ts: seq<Token>)
    requires Counted(c0, c1, ts)
    ensures |c0| == 288 && |c1| == 32
  {
  }

  /** `mid` holds the token's bytes; shifting its flag in completes the record. */
  lemma {:induction false} Flagged(was: seq<Byte>, mid: seq<Byte>, ts: seq<Token>, g: nat, m: nat, flagPos: nat, p: nat,
      t: Token)
    requires Open(was, ts, g, m, flagPos, p) && m < 8 && TokenOk(t) && p + |Payload(t)| <= SIZE == |mid|
    requires mid[..p] == was[..p] && mid[p..p + |Payload(t)|] == Payload(t)
    ensures flagPos < SIZE && mid[flagPos] / 2 + 128 * Flag(t) < 256
    ensures Open(mid[flagPos := mid[flagPos] / 2 + 128 * Flag(t)], ts + [t], g, m + 1, flagPos, p + |Payload(t)|)
  {
    hide Open, Payload;
    OpenBounds(was, ts, g, m, flagPos, p);
    var q := p + |Payload(t)|;
    assert mid[flagPos] == mid[..p][flagPos] == was[flagPos];
    FlagFits(mid[flagPos], Flag(t));
    var b := mid[flagPos := mid[flagPos] / 2 + 128 * Flag(t)];
    assert b[flagPos + 1..q] == mid[..p][flagPos + 1..] + mid[p..q];
    assert b[..flagPos] == mid[..p][..flagPos];
    Append(was, ts, g, m, flagPos, p, t, b);
  }

  lemma {:induction false} FlagFits(f: Byte, bit: nat)
    requires bit < 2
    ensures f / 2 + 128 * bit < 256
  {
  }

  lemma {:induction false} OpenBounds(buf: seq<Byte>, ts: seq<Token>, g: nat, m: nat, flagPos: nat, code: nat)
    requires Open(buf, ts, g, m, flagPos, code)
    ensures |buf| == SIZE && flagPos < code <= SIZE
  {
  }

  // ---- Reading the sealed buffer ----

  /** Number of tokens in group `h`. */
  function GroupSize(n: nat, h: nat): (m: nat)
    requires 8 * h <= n
  {
    if n - 8 * h < 8 then n - 8 * h else 8
  }

  /** Everything up to and including group `h`. */
  ghost function UpTo(ts: seq<Token>, h: nat): (b: seq<Byte>)
    requires AllOk(ts) && 8 * h <= |ts|
  {
    if 8 * h == |ts| then Groups(ts, h) else
      FlagByte(ts, h);
      Groups(ts, h) + [Flags(ts, 8 * h, GroupSize(|ts|, h))] + Payloads(ts, 8 * h, 8 * h + GroupSize(|ts|, h))
  }

  lemma {:induction false} FlagByte(ts: seq<Token>, h: nat)
    requires 8 * h <= |ts|
    ensures Flags(ts, 8 * h, GroupSize(|ts|, h)) < 256
  {
    Pow2Values();
    Pow2Mono(GroupSize(|ts|, h), 8);
  }

  /** The bytes `[0, code)` are the `g` full groups and the last part of one. */
  ghost predicate Sealed(buf: seq<Byte>, ts: seq<Token>, g: nat, code: nat) {
    AllOk(ts) && |buf| == SIZE && code <= SIZE && 8 * g <= |ts| < 8 * g + 8 && buf[..code] == UpTo(ts, g)
  }

  lemma {:induction false} SealOk(buf: seq<Byte>, ts: seq<Token>, g: nat, m: nat, flagPos: nat, code: nat)
    requires Open(buf, ts, g, m, flagPos, code) && m < 8
    ensures Shr(buf[flagPos], 8 - m) < 256
    ensures m == 0 ==> code == flagPos + 1
    ensures Sealed(buf[flagPos := Shr(buf[flagPos], 8 - m)], ts, g, if m == 0 then code - 1 else code)
  {
    hide Groups, Payloads, Flags;
    FlagByte(ts, g);
    var f := Shr(buf[flagPos], 8 - m);
    var b := buf[flagPos := f];
    assert b[..flagPos] == buf[..flagPos];
    if m == 0 {
      NoPayloads(ts, 8 * g);
      assert |buf[flagPos + 1..code]| == code - flagPos - 1;
    } else {
      assert b[..code] == buf[..flagPos] + [f] + buf[flagPos + 1..code];
    }
  }

  lemma {:induction false} NoPayloads(ts: seq<Token>, i: nat)
    requires i <= |ts| && AllOk(ts)
    ensures Payloads(ts, i, i) == []
  {
  }

  lemma {:induction false} GroupsGrow(ts: seq<Token>, h: nat, g: nat)
    requires AllOk(ts) && h <= g && 8 * g <= |ts|
    ensures Groups(ts, h) <= Groups(ts, g)
  {
    hide Payloads, Flags;
    if h < g { GroupsGrow(ts, h, g - 1); }
  }

  /** Every group is where it should be. */
  lemma {:induction false} GroupThere(ts: seq<Token>, g: nat, h: nat)
    requires AllOk(ts) && 8 * g <= |ts| < 8 * g + 8 && 8 * h <= |ts|
    ensures UpTo(ts, h) <= UpTo(ts, g)
  {
    hide Payloads, Flags;
    if h < g { GroupsGrow(ts, h + 1, g); }
  }

  lemma {:induction false} PayloadsGrow(ts: seq<Token>, i: nat, j: nat, k: nat)
    requires AllOk(ts) && i <= j <= k <= |ts|
    ensures Payloads(ts, i, j) <= Payloads(ts, i, k)
    decreases k
  {
    hide Payload;
    if j < k { PayloadsGrow(ts, i, j, k - 1); }
  }

  /** Position of the payload of token `i` of group `h`; of the next flag byte when `i` ends the group. */
  ghost function PayloadPos(ts: seq<Token>, h: nat, i: nat): (p: nat)
    requires AllOk(ts) && 8 * h <= i <= |ts|
  {
    |Groups(ts, h)| + 1 + |Payloads(ts, 8 * h, i)|
  }

  lemma {:induction false} PayloadThere(ts: seq<Token>, h: nat, i: nat)
    requires AllOk(ts) && 8 * h <= i < |ts| && i < 8 * h + 8
    ensures PayloadPos(ts, h, i + 1) == PayloadPos(ts, h, i) + |Payload(ts[i])| <= |UpTo(ts, h)|
    ensures UpTo(ts, h)[PayloadPos(ts, h, i)..PayloadPos(ts, h, i + 1)] == Payload(ts[i])
  {
    hide Flags, Groups, Payload;
    var m := GroupSize(|ts|, h);
    PayloadsGrow(ts, 8 * h, i + 1, 8 * h + m);
    FlagByte(ts, h);
    var f: Byte := Flags(ts, 8 * h, m);
    var a := Groups(ts, h) + [f];
    var p := Payloads(ts, 8 * h, 8 * h + m);
    assert UpTo(ts, h) == a + p;
    assert Payloads(ts, 8 * h, i + 1) == Payloads(ts, 8 * h, i) + Payload(ts[i]);
    Inner(a, p, |Payloads(ts, 8 * h, i)|, |Payloads(ts, 8 * h, i + 1)|);
    assert p[..|Payloads(ts, 8 * h, i + 1)|] == Payloads(ts, 8 * h, i + 1);
  }

  lemma {:induction false} Inner(a: seq<Byte>, p: seq<Byte>, i: nat, j: nat)
    requires i <= j <= |p|
    ensures (a + p)[|a| + i..|a| + j] == p[..j][i..]
  {
  }

  /** Bit `k` of a group's flags is token `k`'s flag. */
  lemma {:induction false} FlagBit(ts: seq<Token>, b: nat, m: nat, k: nat)
    requires b + m <= |ts| && k < m
    ensures Shr(Flags(ts, b, m), k) % 2 == Flag(ts[b + k])
  {
    hide Shr, Shl;
    var v := Flags(ts, b, m - 1);
    TopBit(v, Flag(ts[b + m - 1]), m - 1, k);
    if k == m - 1 {
      ShrZero(v, m - 1);
      ShlNone(Flag(ts[b + k]));
    } else {
      FlagBit(ts, b, m - 1, k);
      ShlEven(Flag(ts[b + m - 1]), m - 1 - k);
    }
  }

  lemma {:induction false} ShlNone(v: nat)
    ensures Shl(v, 0) == v
  {
  }

  lemma {:induction false} ShlEven(v: nat, k: nat)
    requires k > 0
    ensures Shl(v, k) % 2 == 0
  {
  }

  /** `flags` as the reading loop holds it before token `k` of a group: a ninth bit marks the end of the byte. */
  lemma {:induction false} FlagWord(f: nat, k: nat)
    requires f < 256 && k <= 8
    ensures Shr(f + 256, k) == Shr(f, k) + Shl(1, 8 - k)
    ensures k < 8 ==> Shr(f + 256, k) % 2 == Shr(f, k) % 2 && Shr(f + 256, k) != 1
    ensures k == 8 ==> Shr(f + 256, k) == 1
  {
    hide Shr, Shl;
    EndMark();
    TopBit(f, 1, 8, k);
    if k < 8 { EvenMark(8 - k); } else { ByteGone(f); }
  }

  lemma {:induction false} EndMark()
    ensures Shl(1, 8) == 256 && Shl(1, 0) == 1
  {
  }

  lemma {:induction false} EvenMark(k: nat)
    requires k > 0
    ensures Shl(1, k) % 2 == 0 && Shl(1, k) >= 2
  {
    var v := Shl(1, k - 1);
    assert Shl(1, k) == 2 * v;
    if k > 1 { EvenMark(k - 1); }
  }

  // ---- The reading loop's position ----

  /** Before token `i` of group `h`, its flag byte loaded. */
  ghost predicate InGroup(ts: seq<Token>, h: nat, i: nat, p: nat, flags: nat) {
    && AllOk(ts) && 8 * h <= i < 8 * h + 8 && i <= |ts| && 8 * h < |ts|
    && p == PayloadPos(ts, h, i) && flags == Shr(Flags(ts, 8 * h, GroupSize(|ts|, h)) + 256, i - 8 * h)
  }

  /** Before the flag byte of group `h`. */
  ghost predicate AtGroup(ts: seq<Token>, h: nat, i: nat, p: nat, flags: nat) {
    AllOk(ts) && i == 8 * h <= |ts| && p == |Groups(ts, h)| && flags == 1
  }

  ghost predicate At(ts: seq<Token>, h: nat, i: nat, p: nat, flags: nat) {
    AtGroup(ts, h, i, p, flags) || InGroup(ts, h, i, p, flags)
  }

  /** The loop's guard says whether tokens are left. */
  lemma {:induction false} MoreToRead(buf: seq<Byte>, ts: seq<Token>, g: nat, code: nat, h: nat, i: nat, p: nat,
      flags: nat)
    requires Sealed(buf, ts, g, code) && At(ts, h, i, p, flags)
    ensures p < code <==> i < |ts|
    ensures i < |ts| ==> (flags == 1 <==> AtGroup(ts, h, i, p, flags))
  {
    hide Flags, Groups, Payloads, Payload;
    GroupThere(ts, g, h);
    GroupThere(ts, g, g);
    assert |buf[..code]| == code;
    if InGroup(ts, h, i, p, flags) {
      FlagByte(ts, h);
      FlagWord(Flags(ts, 8 * h, GroupSize(|ts|, h)), i - 8 * h);
      if i < |ts| {
        PayloadThere(ts, h, i);
        PayloadSize(ts[i]);
      } else {
        assert GroupSize(|ts|, h) == |ts| - 8 * h && h == g;
      }
    } else if 8 * h == |ts| {
      assert h == g;
    }
  }

  lemma {:induction false} PayloadSize(t: Token)
    requires TokenOk(t)
    ensures |Payload(t)| == if t.Match? then 3 else 1
  {
  }

  /** Loading a flag byte. */
  lemma {:induction false} LoadFlags(buf: seq<Byte>, ts: seq<Token>, g: nat, code: nat, h: nat, i: nat, p: nat)
    requires Sealed(buf, ts, g, code) && AtGroup(ts, h, i, p, 1) && i < |ts|
    ensures p < SIZE && InGroup(ts, h, i, p + 1, (buf[p] as nat) + 256)
  {
    hide Flags, Groups, Payload;
    GroupThere(ts, g, h);
    FlagByte(ts, h);
    assert UpTo(ts, h)[p] == Flags(ts, 8 * h, GroupSize(|ts|, h));
    assert buf[p] == buf[..code][p] == UpTo(ts, g)[p];
  }

  lemma {:induction false} TokenFlag(ts: seq<Token>, h: nat, i: nat, p: nat, flags: nat)
    requires InGroup(ts, h, i, p, flags) && i < |ts|
    ensures flags % 2 == Flag(ts[i]) && (flags / 2 % 2 == 0 ==> i + 1 < 8 * h + 8)
    ensures flags / 2 == Shr(Flags(ts, 8 * h, GroupSize(|ts|, h)) + 256, i + 1 - 8 * h)
    ensures i + 1 == 8 * h + 8 ==> flags / 2 == 1
  {
    hide Flags, Shr, Shl, PayloadPos;
    var m := GroupSize(|ts|, h);
    var f, k := Flags(ts, 8 * h, m), i - 8 * h;
    FlagByte(ts, h);
    FlagWord(f, k);
    FlagWord(f, k + 1);
    FlagBit(ts, 8 * h, m, k);
    ShrStep(f + 256, k);
  }

  lemma {:induction false} TokenBytes(buf: seq<Byte>, ts: seq<Token>, g: nat, code: nat, h: nat, i: nat, p: nat,
      flags: nat)
    requires Sealed(buf, ts, g, code) && InGroup(ts, h, i, p, flags) && i < |ts|
    ensures p + |Payload(ts[i])| == PayloadPos(ts, h, i + 1) <= code
    ensures buf[p..p + |Payload(ts[i])|] == Payload(ts[i])
  {
    hide Flags, Groups, Payload, Shr, PayloadPos, UpTo;
    GroupThere(ts, g, h);
    PayloadThere(ts, h, i);
    var q := p + |Payload(ts[i])|;
    assert buf[p..q] == buf[..code][p..q];
    assert UpTo(ts, g)[p..q] == UpTo(ts, h)[p..q];
  }

  /** The lowest flag and the bytes at `p` are token `i`, and the rest follows. */
  lemma {:induction false} ReadToken(buf: seq<Byte>, ts: seq<Token>, g: nat, code: nat, h: nat, i: nat, p: nat,
      flags: nat)
    requires Sealed(buf, ts, g, code) && InGroup(ts, h, i, p, flags) && i < |ts|
    ensures flags % 2 == Flag(ts[i]) && p + |Payload(ts[i])| <= code
    ensures buf[p..p + |Payload(ts[i])|] == Payload(ts[i])
    ensures At(ts, if i + 1 == 8 * h + 8 then h + 1 else h, i + 1, p + |Payload(ts[i])|, flags / 2)
    ensures flags / 2 % 2 == 0 ==> InGroup(ts, h, i + 1, p + |Payload(ts[i])|, flags / 2)
  {
    hide Flags, Groups, Payload, Shr, PayloadPos;
    TokenFlag(ts, h, i, p, flags);
    TokenBytes(buf, ts, g, code, h, i, p, flags);
    if i + 1 == 8 * h + 8 { GroupClosed(ts, h); }
  }

  lemma {:induction false} GroupClosed(ts: seq<Token>, h: nat)
    requires AllOk(ts) && 8 * h + 8 <= |ts|
    ensures |Groups(ts, h + 1)| == PayloadPos(ts, h, 8 * h + 8)
  {
    hide Flags, Payloads;
  }
}
