/** Adler-32 with deferred reduction and CRC-32 by nibbles, against their byte and bit definitions. */
module Checksums {
  import opened Bits

  // ---- Adler-32 ----

  const MOD := 65521
  const BLOCK := 5552

  /** The two sums, reduced after every byte. */
  datatype Sums = Sums(s1: nat, s2: nat)

  function Start(adler: nat): (s: Sums) {
    Sums(adler % 65536, adler / 65536)
  }

  function Next(s: Sums, b: Byte): (t: Sums) {
    var s1 := (s.s1 + b) % MOD;
    Sums(s1, (s.s2 + s1) % MOD)
  }

  function SumsOf(s: Sums, data: seq<Byte>, n: nat): (t: Sums)
    requires n <= |data|
    ensures n > 0 ==> t.s1 < MOD && t.s2 < MOD
  {
    if n == 0 then s else Next(SumsOf(s, data, n - 1), data[n - 1])
  }

  function Pack(s: Sums): (a: nat) {
    65536 * s.s2 + s.s1
  }

  /** The Adler-32 checksum of `data` on top of `adler`. */
  function Adler(adler: nat, data: seq<Byte>): (a: nat) {
    Pack(SumsOf(Start(adler), data, |data|))
  }

  lemma {:induction false} AdlerRange(adler: nat, data: seq<Byte>)
    requires adler < 0x1_0000_0000
    ensures Adler(adler, data) < 0x1_0000_0000
  {
  }

  lemma {:induction false} SumsConcat(s: Sums, x: seq<Byte>, y: seq<Byte>, n: nat)
    requires n <= |y|
    ensures SumsOf(s, x + y, |x| + n) == SumsOf(SumsOf(s, x, |x|), y, n)
  {
    if n == 0 {
      SumsPrefix(s, x, y, |x|);
    } else {
      SumsConcat(s, x, y, n - 1);
      assert (x + y)[|x| + n - 1] == y[n - 1];
    }
  }

  lemma {:induction false} SumsPrefix(s: Sums, x: seq<Byte>, y: seq<Byte>, n: nat)
    requires n <= |x|
    ensures SumsOf(s, x + y, n) == SumsOf(s, x, n)
  {
    if n > 0 { SumsPrefix(s, x, y, n - 1); }
  }

  lemma {:induction false} Unpack(s: Sums)
    requires s.s1 < 65536
    ensures Start(Pack(s)) == s
  {
  }

  /** Checksumming in pieces is checksumming the whole. */
  lemma {:induction false} AdlerSplit(adler: nat, x: seq<Byte>, y: seq<Byte>)
    ensures Adler(Adler(adler, x), y) == Adler(adler, x + y)
  {
    hide Next;
    SumsConcat(Start(adler), x, y, |y|);
    assert |x + y| == |x| + |y|;
    Unpack(SumsOf(Start(adler), x, |x|));
  }

  /** The most the sums can be after `i` unreduced bytes. */
  function Most1(i: nat): (v: nat) {
    65535 + 255 * i
  }

  function Most2(i: nat): (v: nat) {
    if i == 0 then 65535 else Most2(i - 1) + Most1(i)
  }

  lemma {:induction false} Most2Closed(i: nat)
    ensures 2 * Most2(i) == 131070 + 131070 * i + 255 * (i * (i + 1))
  {
    if i > 0 {
      Most2Closed(i - 1);
      assert i * (i + 1) == (i - 1) * i + 2 * i;
    }
  }

  lemma {:induction false} Most2Mono(i: nat, j: nat)
    requires i <= j
    ensures Most2(i) <= Most2(j)
    decreases j
  {
    if i < j { Most2Mono(i, j - 1); }
  }

  /** A block of 5552 bytes is the longest that cannot overflow 32 bits. */
  lemma {:induction false} NoOverflow(i: nat)
    requires i <= BLOCK
    ensures Most1(i) <= Most2(i) < 0x1_0000_0000
    ensures Most2(BLOCK + 1) >= 0x1_0000_0000
  {
    Most2Closed(BLOCK);
    Most2Closed(BLOCK + 1);
    assert BLOCK * (BLOCK + 1) == 30830256;
    assert (BLOCK + 1) * (BLOCK + 2) == 30841362;
    Most2Mono(i, BLOCK);
    if i > 0 { assert Most2(i) == Most2(i - 1) + Most1(i); }
  }

  /** Unreduced sums after `i` bytes of a block: below the bound and congruent to the reduced ones. */
  ghost predicate Deferred(s1: nat, s2: nat, i: nat, t: Sums) {
    s1 <= Most1(i) && s2 <= Most2(i) && s1 % MOD == t.s1 % MOD && s2 % MOD == t.s2 % MOD
  }

  lemma {:induction false} AddMod(a: nat, b: nat, c: nat)
    requires a % MOD == b % MOD
    ensures (a + c) % MOD == (b + c) % MOD
  {
    var k, m := a / MOD, b / MOD;
    assert a + c == b + c + MOD * (k - m);
  }

  lemma {:induction false} DeferOne(s1: nat, s2: nat, i: nat, t: Sums, b: Byte)
    requires Deferred(s1, s2, i, t)
    ensures Deferred(s1 + b, s2 + (s1 + b), i + 1, Next(t, b))
  {
    AddMod(s1, t.s1, b);
    var u := Next(t, b);
    AddMod(s2, t.s2, s1 + b);
    AddMod(s1 + b, u.s1, t.s2);
  }

  lemma {:induction false} SumsNext(s: Sums, data: seq<Byte>, n: nat)
    requires n < |data|
    ensures SumsOf(s, data, n + 1) == Next(SumsOf(s, data, n), data[n])
  {
  }

  /** One byte added without reducing. */
  method AddOne(s1: nat, s2: nat, data: seq<Byte>, pos: nat, ghost i: nat, ghost s: Sums) returns (t1: nat, t2: nat)
    requires pos < |data| && i < BLOCK && Deferred(s1, s2, i, SumsOf(s, data, pos))
    ensures Deferred(t1, t2, i + 1, SumsOf(s, data, pos + 1)) && t1 < 0x1_0000_0000 && t2 < 0x1_0000_0000
  {
    hide SumsOf, Next;
    DeferOne(s1, s2, i, SumsOf(s, data, pos), data[pos]);
    SumsNext(s, data, pos);
    NoOverflow(i + 1);
    t1 := s1 + data[pos];
    t2 := s2 + t1;
  }

  method AddEight(s1: nat, s2: nat, data: seq<Byte>, pos: nat, ghost i: nat, ghost s: Sums) returns (t1: nat, t2: nat)
    requires pos + 8 <= |data| && i + 8 <= BLOCK && Deferred(s1, s2, i, SumsOf(s, data, pos))
    ensures Deferred(t1, t2, i + 8, SumsOf(s, data, pos + 8))
  {
    hide SumsOf, Deferred;
    t1, t2 := AddOne(s1, s2, data, pos, i, s);
    t1, t2 := AddOne(t1, t2, data, pos + 1, i + 1, s);
    t1, t2 := AddOne(t1, t2, data, pos + 2, i + 2, s);
    t1, t2 := AddOne(t1, t2, data, pos + 3, i + 3, s);
    t1, t2 := AddOne(t1, t2, data, pos + 4, i + 4, s);
    t1, t2 := AddOne(t1, t2, data, pos + 5, i + 5, s);
    t1, t2 := AddOne(t1, t2, data, pos + 6, i + 6, s);
    t1, t2 := AddOne(t1, t2, data, pos + 7, i + 7, s);
  }

  /** A block of bytes, eight at a time and then singly. */
  method AddBlock(s1: nat, s2: nat, data: seq<Byte>, pos: nat, len: nat, ghost s: Sums) returns (t1: nat, t2: nat)
    requires pos + len <= |data| && len <= BLOCK && Deferred(s1, s2, 0, SumsOf(s, data, pos))
    ensures Deferred(t1, t2, len, SumsOf(s, data, pos + len))
  {
    hide SumsOf, Deferred;
    t1, t2 := s1, s2;
    var i := 0;
    while i + 7 < len
      invariant 0 <= i <= len && Deferred(t1, t2, i, SumsOf(s, data, pos + i))
    {
      t1, t2 := AddEight(t1, t2, data, pos + i, i, s);
      i := i + 8;
    }
    while i < len
      invariant 0 <= i <= len && Deferred(t1, t2, i, SumsOf(s, data, pos + i))
    {
      t1, t2 := AddOne(t1, t2, data, pos + i, i, s);
      i := i + 1;
    }
  }

  lemma {:induction false} Reduced(t1: nat, t2: nat, len: nat, t: Sums)
    requires Deferred(t1, t2, len, t)
    ensures Deferred(t1 % MOD, t2 % MOD, 0, t)
    ensures t.s1 < MOD && t.s2 < MOD ==> t1 % MOD == t.s1 && t2 % MOD == t.s2
  {
  }

  lemma {:induction false} StartDeferred(s: Sums)
    requires s.s1 <= 65535 && s.s2 <= 65535
    ensures Deferred(s.s1, s.s2, 0, s)
  {
  }

  /** The checksum: first the odd part of the data, then blocks of 5552, reduced once each and never overflowing. */
  method Adler32(adler: nat, data: seq<Byte>) returns (a: nat)
    requires adler < 0x1_0000_0000
    ensures a == Adler(adler, data)
  {
    hide SumsOf, Deferred, Next;
    ghost var s := Start(adler);
    var s1: nat, s2: nat := adler % 65536, adler / 65536;
    var len: int, pos: nat, block: nat := |data|, 0, |data| % BLOCK;
    StartDeferred(s);
    NoneYet(s, data);
    while len > 0
      invariant pos + len == |data| && 0 <= len && (block == BLOCK ==> len % BLOCK == 0)
      invariant block == BLOCK || (pos == 0 && block == len % BLOCK)
      invariant Deferred(s1, s2, 0, SumsOf(s, data, pos))
      invariant pos > 0 || |data| == 0 ==> Sums(s1, s2) == SumsOf(s, data, pos)
      decreases len, if block == BLOCK then 0 else 1
    {
      var t1, t2 := AddBlock(s1, s2, data, pos, block, s);
      Reduced(t1, t2, block, SumsOf(s, data, pos + block));
      s1, s2 := t1 % MOD, t2 % MOD;
      pos, len, block := pos + block, len - block, BLOCK;
    }
    a := 65536 * s2 + s1;
  }

  lemma {:induction false} NoneYet(s: Sums, data: seq<Byte>)
    ensures SumsOf(s, data, 0) == s
  {
  }

  // ---- CRC-32 ----

  function Xor32(a: bv32, b: bv32): (r: bv32) {
    a ^ b
  }

  function Down1(c: bv32): (r: bv32) {
    c >> 1
  }

  function Down4(c: bv32): (r: bv32) {
    c >> 4
  }

  function LowNibble(c: bv32): (r: bv32) {
    c & 0xF
  }

  function Inverse(c: bv32): (r: bv32) {
    !c
  }

  /** One bit of the reflected polynomial division. */
  function CrcBit(c: bv32): (r: bv32) {
    if c & 1 == 1 then (c >> 1) ^ 0xEDB88320 else c >> 1
  }

  function CrcNibble(c: bv32): (r: bv32) {
    CrcBit(CrcBit(CrcBit(CrcBit(c))))
  }

  /** One byte, bit by bit. */
  function CrcByte(c: bv32, b: bv32): (r: bv32) {
    CrcNibble(CrcNibble(Xor32(c, b)))
  }

  function Table(i: bv32): (t: bv32) {
    if i == 0 then 0 else if i == 1 then 0x1db71064 else if i == 2 then 0x3b6e20c8 else if i == 3 then 0x26d930ac
    else if i == 4 then 0x76dc4190 else if i == 5 then 0x6b6b51f4 else if i == 6 then 0x4db26158
    else if i == 7 then 0x5005713c else if i == 8 then 0xedb88320 else if i == 9 then 0xf00f9344
    else if i == 10 then 0xd6d6a3e8 else if i == 11 then 0xcb61b38c
    else if i == 12 then 0x9b64c2b0 else if i == 13 then 0x86d3d2d4 else if i == 14 then 0xa00ae278 else 0xbdbdf21c
  }

  /** A bit above the lowest moves down one place. */
  lemma {:induction false} HighBits(c: bv32, h: bv32)
    requires h & 1 == 0
    ensures CrcBit(c ^ h) == CrcBit(c) ^ (h >> 1)
  {
  }

  predicate NoLowBit(h: bv32) {
    h & 1 == 0
  }

  lemma {:induction false} HighBit(c: bv32, h: bv32)
    requires NoLowBit(h)
    ensures CrcBit(Xor32(c, h)) == Xor32(CrcBit(c), Down1(h))
  {
    HighBits(c, h);
  }

  /** Bits above the lowest four come through four steps moved down by four. */
  lemma {:induction false} HighNibble(c: bv32, h: bv32)
    requires LowNibble(h) == 0
    ensures CrcNibble(Xor32(c, h)) == Xor32(CrcNibble(c), Down4(h))
  {
    hide CrcBit, Xor32, Down1, Down4, LowNibble, NoLowBit;
    EvenShifts(h);
    var c1, c2, c3 := CrcBit(c), CrcBit(CrcBit(c)), CrcBit(CrcBit(CrcBit(c)));
    HighBit(c, h);
    HighBit(c1, Down1(h));
    HighBit(c2, Down1(Down1(h)));
    HighBit(c3, Down1(Down1(Down1(h))));
  }

  lemma {:induction false} EvenShifts(h: bv32)
    requires LowNibble(h) == 0
    ensures NoLowBit(h) && NoLowBit(Down1(h)) && NoLowBit(Down1(Down1(h))) && NoLowBit(Down1(Down1(Down1(h))))
    ensures Down1(Down1(Down1(Down1(h)))) == Down4(h)
  {
  }

  /** The table holds what four steps make of each nibble. */
  lemma {:induction false} TableEntry(n: bv32)
    requires n <= 0xF
    ensures CrcNibble(n) == Table(n)
  {
  }

  lemma {:induction false} NibbleParts(c: bv32)
    ensures c == Xor32(LowNibble(c), c & 0xFFFFFFF0) && LowNibble(c & 0xFFFFFFF0) == 0
      && Down4(c & 0xFFFFFFF0) == Down4(c) && LowNibble(c) <= 0xF
  {
  }

  lemma {:induction false} XorSwap(a: bv32, b: bv32)
    ensures Xor32(a, b) == Xor32(b, a)
  {
  }

  /** One look-up does four steps at once. */
  lemma {:induction false} TableStep(c: bv32)
    ensures CrcNibble(c) == Xor32(Down4(c), Table(LowNibble(c)))
  {
    NibbleParts(c);
    TableEntry(LowNibble(c));
    hide CrcNibble, Table, Xor32, Down4, LowNibble;
    HighNibble(LowNibble(c), c & 0xFFFFFFF0);
    XorSwap(Table(LowNibble(c)), Down4(c));
  }

  predicate Small(b: bv32, max: bv32) {
    b <= max
  }

  lemma {:induction false} NibbleIndex(c: bv32, n: bv32)
    requires Small(n, 0xF)
    ensures Down4(Xor32(c, n)) == Down4(c) && LowNibble(Xor32(c, n)) == Xor32(LowNibble(c), n)
  {
  }

  function HighPart(b: bv32): (r: bv32) {
    b & 0xF0
  }

  lemma {:induction false} ByteParts(c: bv32, b: bv32)
    requires Small(b, 0xFF)
    ensures Small(LowNibble(b), 0xF) && Small(Down4(b), 0xF) && LowNibble(HighPart(b)) == 0
      && Down4(HighPart(b)) == Down4(b)
    ensures Xor32(c, b) == Xor32(Xor32(c, LowNibble(b)), HighPart(b))
  {
  }

  /** Folding a nibble of the data in through the table. */
  function Fold(c: bv32, n: bv32): (r: bv32) {
    Xor32(Down4(c), Table(Xor32(LowNibble(c), n)))
  }

  lemma {:induction false} FoldStep(c: bv32, n: bv32)
    requires Small(n, 0xF)
    ensures Fold(c, n) == CrcNibble(Xor32(c, n))
  {
    hide CrcNibble, Table, Xor32, Down4, LowNibble, Small;
    NibbleIndex(c, n);
    TableStep(Xor32(c, n));
  }

  /** The two table look-ups for a byte are the eight bit steps. */
  lemma {:induction false} TwoNibbles(c: bv32, b: bv32)
    requires Small(b, 0xFF)
    ensures Fold(Fold(c, LowNibble(b)), Down4(b)) == CrcByte(c, b)
  {
    hide CrcNibble, Fold, Xor32, Down4, LowNibble, HighPart, Small;
    ByteParts(c, b);
    FoldStep(c, LowNibble(b));
    FoldStep(Fold(c, LowNibble(b)), Down4(b));
    HighNibble(Xor32(c, LowNibble(b)), HighPart(b));
  }

  function Wide(b: bv8): (r: bv32) {
    b as bv32
  }

  lemma {:induction false} WideSmall(b: bv8)
    ensures Small(Wide(b), 0xFF)
  {
  }

  function CrcOf(c: bv32, data: seq<bv8>, n: nat): (r: bv32)
    requires n <= |data|
  {
    if n == 0 then c else CrcByte(CrcOf(c, data, n - 1), Wide(data[n - 1]))
  }

  /** The CRC-32 of `data` on top of `crc`, bit by bit. */
  function Crc(crc: bv32, data: seq<bv8>): (r: bv32) {
    Inverse(CrcOf(Inverse(crc), data, |data|))
  }

  lemma {:induction false} CrcConcat(c: bv32, x: seq<bv8>, y: seq<bv8>, n: nat)
    requires n <= |y|
    ensures CrcOf(c, x + y, |x| + n) == CrcOf(CrcOf(c, x, |x|), y, n)
  {
    hide CrcByte, Wide;
    if n == 0 {
      CrcPrefix(c, x, y, |x|);
    } else {
      CrcConcat(c, x, y, n - 1);
      assert (x + y)[|x| + n - 1] == y[n - 1];
    }
  }

  lemma {:induction false} CrcPrefix(c: bv32, x: seq<bv8>, y: seq<bv8>, n: nat)
    requires n <= |x|
    ensures CrcOf(c, x + y, n) == CrcOf(c, x, n)
  {
    hide CrcByte, Wide;
    if n > 0 { CrcPrefix(c, x, y, n - 1); }
  }

  lemma {:induction false} InverseTwice(c: bv32)
    ensures Inverse(Inverse(c)) == c
  {
  }

  /** Checksumming in pieces is checksumming the whole. */
  lemma {:induction false} CrcSplit(crc: bv32, x: seq<bv8>, y: seq<bv8>)
    ensures Crc(Crc(crc, x), y) == Crc(crc, x + y)
  {
    hide CrcOf, Inverse;
    CrcConcat(Inverse(crc), x, y, |y|);
    InverseTwice(CrcOf(Inverse(crc), x, |x|));
    assert |x + y| == |x| + |y|;
  }

  lemma {:induction false} CrcNext(c: bv32, data: seq<bv8>, n: nat)
    requires n < |data|
    ensures CrcOf(c, data, n + 1) == CrcByte(CrcOf(c, data, n), Wide(data[n]))
  {
    hide CrcByte, Wide;
  }

  lemma {:induction false} CrcNone(c: bv32, data: seq<bv8>)
    ensures CrcOf(c, data, 0) == c
  {
  }

  /** The nibble-wise loop. */
  method Crc32(crc: bv32, data: seq<bv8>) returns (r: bv32)
    ensures r == Crc(crc, data)
  {
    hide CrcOf, CrcByte, Fold, Inverse, Wide, Small, LowNibble, Down4;
    var c := Inverse(crc);
    var i := 0;
    CrcNone(Inverse(crc), data);
    while i < |data|
      invariant 0 <= i <= |data| && c == CrcOf(Inverse(crc), data, i)
    {
      var b := Wide(data[i]);
      WideSmall(data[i]);
      TwoNibbles(c, b);
      CrcNext(Inverse(crc), data, i);
      c := Fold(c, LowNibble(b));
      c := Fold(c, Down4(b));
      i := i + 1;
    }
    r := Inverse(c);
  }
}
