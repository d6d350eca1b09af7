/**
 * The records of an archive as bytes: little-endian fields at fixed offsets, written in one place and read in another.
 */
module ZipRecords {
  import opened Bits
  import opened ZipNames
  import Checksums

  // ---- Little-endian fields ----

  /** The low `n` bytes of `v`, the lowest first. */
  function LE(v: nat, n: nat): (b: seq<Byte>)
    ensures |b| == n
  {
    if n == 0 then [] else [v % 256] + LE(v / 256, n - 1)
  }

  function ValueLE(b: seq<Byte>): (v: nat) {
    if b == [] then 0 else b[0] + 256 * ValueLE(b[1..])
  }

  /** What is left of `v` in `n` bytes. */
  function Cut(v: nat, n: nat): (w: nat) {
    if n == 0 then 0 else v % 256 + 256 * Cut(v / 256, n - 1)
  }

  lemma {:induction false} LEBack(v: nat, n: nat)
    ensures ValueLE(LE(v, n)) == Cut(v, n)
  {
    if n > 0 {
      LEBack(v / 256, n - 1);
      assert LE(v, n)[1..] == LE(v / 256, n - 1);
    }
  }

  lemma {:induction false} Twice(v: nat)
    ensures v % 256 + 256 * (v / 256 % 256) == v % 0x1_0000 && v / 256 / 256 == v / 0x1_0000
  {
    var x, y := v / 256, v / 256 / 256;
    assert v == 256 * x + v % 256 && x == 256 * y + x % 256;
    assert v == 0x1_0000 * y + (256 * (x % 256) + v % 256);
  }

  lemma {:induction false} CutTwo(v: nat)
    ensures Cut(v, 2) == v % 0x1_0000
  {
    assert Cut(v / 256 / 256, 0) == 0;
    assert Cut(v / 256, 1) == v / 256 % 256;
    Twice(v);
  }

  lemma {:induction false} CutHalves(v: nat)
    ensures Cut(v, 4) == Cut(v, 2) + 0x1_0000 * Cut(v / 256 / 256, 2)
  {
    var x, y := v / 256, v / 256 / 256;
    assert Cut(v, 4) == v % 256 + 256 * Cut(x, 3) && Cut(x, 3) == x % 256 + 256 * Cut(y, 2);
    assert Cut(v, 2) == v % 256 + 256 * Cut(x, 1) && Cut(x, 1) == x % 256;
  }

  lemma {:induction false} FourBytes(v: nat, y: nat)
    requires y == v / 0x1_0000
    ensures v % 0x1_0000 + 0x1_0000 * (y % 0x1_0000) == v % 0x1_0000_0000
  {
    var z := y / 0x1_0000;
    assert v == 0x1_0000 * y + v % 0x1_0000 && y == 0x1_0000 * z + y % 0x1_0000;
    assert v == 0x1_0000_0000 * z + (0x1_0000 * (y % 0x1_0000) + v % 0x1_0000);
  }

  /** Two bytes keep a number modulo 65536, four modulo 2^32. */
  lemma {:induction false} CutIs(v: nat)
    ensures Cut(v, 2) == v % 0x1_0000 && Cut(v, 4) == v % 0x1_0000_0000
  {
    hide Cut;
    CutTwo(v);
    CutTwo(v / 256 / 256);
    CutHalves(v);
    Twice(v);
    FourBytes(v, v / 256 / 256);
  }

  lemma {:induction false} ValueConcat(a: seq<Byte>, b: seq<Byte>)
    requires |a| == 2
    ensures ValueLE(a + b) == ValueLE(a) + 0x1_0000 * ValueLE(b)
  {
    assert (a + b)[1..] == a[1..] + b;
    assert (a[1..] + b)[1..] == b;
    assert a[1..][1..] == [];
    assert ValueLE(a + b) == a[0] + 256 * ValueLE(a[1..] + b);
    assert ValueLE(a[1..] + b) == a[1] + 256 * ValueLE(b);
    assert ValueLE(a[1..]) == a[1];
  }

  /** The field of `n` bytes at `at`. */
  function Read(b: seq<Byte>, at: nat, n: nat): (v: nat)
    requires at + n <= |b|
  {
    ValueLE(b[at..at + n])
  }

  // ---- Records as lists of fields ----

  /** Where field `k` starts. */
  function Offset(ws: seq<nat>, k: nat): (at: nat)
    requires k <= |ws|
  {
    if k == 0 then 0 else Offset(ws, k - 1) + ws[k - 1]
  }

  /** The first `k` fields. */
  function Fields(vs: seq<nat>, ws: seq<nat>, k: nat): (b: seq<Byte>)
    requires k <= |vs| == |ws|
    ensures |b| == Offset(ws, k)
  {
    if k == 0 then [] else Fields(vs, ws, k - 1) + LE(vs[k - 1], ws[k - 1])
  }

  lemma {:induction false} FieldAt(vs: seq<nat>, ws: seq<nat>, n: nat, k: nat)
    requires k < n <= |vs| == |ws|
    ensures Offset(ws, k) + ws[k] <= Offset(ws, n)
    ensures Fields(vs, ws, n)[Offset(ws, k)..Offset(ws, k) + ws[k]] == LE(vs[k], ws[k])
  {
    hide LE;
    var b := Fields(vs, ws, n - 1);
    if k < n - 1 {
      FieldAt(vs, ws, n - 1, k);
      assert (b + LE(vs[n - 1], ws[n - 1]))[Offset(ws, k)..Offset(ws, k) + ws[k]]
        == b[Offset(ws, k)..Offset(ws, k) + ws[k]];
    } else {
      assert (b + LE(vs[k], ws[k]))[|b|..|b| + ws[k]] == LE(vs[k], ws[k]);
    }
  }

  lemma {:induction false} Inside<T>(s: seq<T>, a: nat, b: nat, i: nat, j: nat)
    requires a <= b <= |s| && i <= j <= b - a
    ensures s[a..b][i..j] == s[a + i..a + j]
  {
    var x, y := s[a..b][i..j], s[a + i..a + j];
    assert |x| == |y| && forall k :: 0 <= k < |x| ==> x[k] == y[k];
  }

  /** A field read where the record stands gives the number written, as far as it fits. */
  lemma {:induction false} ReadBack(file: seq<Byte>, at: nat, vs: seq<nat>, ws: seq<nat>, k: nat)
    requires k < |vs| == |ws| && at + Offset(ws, |ws|) <= |file|
      && file[at..at + Offset(ws, |ws|)] == Fields(vs, ws, |ws|)
    ensures at + Offset(ws, k) + ws[k] <= |file| && Read(file, at + Offset(ws, k), ws[k]) == Cut(vs[k], ws[k])
  {
    hide LE, Cut, ValueLE, Fields;
    FieldAt(vs, ws, |ws|, k);
    var o, n := Offset(ws, k), Offset(ws, |ws|);
    hide Offset;
    Inside(file, at, at + n, o, o + ws[k]);
    LEBack(vs[k], ws[k]);
    assert file[at + o..at + o + ws[k]] == LE(vs[k], ws[k]);
  }

  // ---- The entries of an archive ----

  const LOCAL_SIG := 0x04034b50
  const CENTRAL_SIG := 0x02014b50
  const END_SIG := 0x06054b50
  const LOCAL_SIZE := 30
  const CENTRAL_SIZE := 46
  const END_SIZE := 22
  const DEFLATED := 8

  /** An entry as written: its bytes, what stands for them in the archive, and how. */
  datatype Entry = Entry(name: Name, data: seq<Byte>, comp: seq<Byte>, how: nat, time: nat, date: nat)

  function Bytes8(s: seq<Byte>): (t: seq<bv8>)
    ensures |t| == |s|
  {
    seq(|s|, i requires 0 <= i < |s| => s[i] as bv8)
  }

  lemma {:induction false} Bytes8Concat(a: seq<Byte>, b: seq<Byte>)
    ensures Bytes8(a + b) == Bytes8(a) + Bytes8(b)
  {
  }

  function Number(c: bv32): (v: nat)
    ensures v < 0x1_0000_0000
  {
    c as nat
  }

  function CrcOf(data: seq<Byte>): (c: nat)
    ensures c < 0x1_0000_0000
  {
    Number(Checksums.Crc(0, Bytes8(data)))
  }

  const LOCAL_WIDTHS: seq<nat> := [4, 2, 2, 2, 2, 2, 4, 4, 4, 2, 2]
  const CENTRAL_WIDTHS: seq<nat> := [4, 2, 2, 2, 2, 2, 2, 4, 4, 4, 2, 2, 2, 2, 2, 4, 4]
  const END_WIDTHS: seq<nat> := [4, 2, 2, 2, 2, 4, 4, 2]

  function VersionNeeded(how: nat): (v: nat) {
    if how != 0 then 20 else 0
  }

  /** What both headers of an entry say about it. */
  datatype Head = Head(how: nat, time: nat, date: nat, crc: nat, comp: nat, size: nat, len: nat)

  function HeadOf(e: Entry): (h: Head) {
    Head(e.how, e.time, e.date, CrcOf(e.data), |e.comp|, |e.data|, |e.name|)
  }

  function LocalFields(h: Head): (vs: seq<nat>)
    ensures |vs| == 11
  {
    [LOCAL_SIG, VersionNeeded(h.how), 0, h.how, h.time, h.date, h.crc, h.comp, h.size, h.len, 0]
  }

  /** Version made by: 9.1 on a Unix file system. */
  function CentralFields(h: Head, at: nat): (vs: seq<nat>)
    ensures |vs| == 17
  {
    [CENTRAL_SIG, 859, VersionNeeded(h.how), 0, h.how, h.time, h.date, h.crc, h.comp, h.size, h.len, 0, 0, 0, 0, 0, at]
  }

  function EndFields(total: nat, size: nat, at: nat): (vs: seq<nat>)
    ensures |vs| == 8
  {
    [END_SIG, 0, 0, total, total, size, at, 0]
  }

  lemma {:induction false} LocalOffsets()
    ensures Offset(LOCAL_WIDTHS, 0) == 0 && Offset(LOCAL_WIDTHS, 9) == 26 && Offset(LOCAL_WIDTHS, 10) == 28
      && Offset(LOCAL_WIDTHS, 11) == 30
  {
    var ws := LOCAL_WIDTHS;
    assert Offset(ws, 1) == 4 && Offset(ws, 2) == 6;
    assert Offset(ws, 4) == 10;
    assert Offset(ws, 6) == 14;
    assert Offset(ws, 8) == 22;
  }

  lemma {:induction false} CentralOffsets()
    ensures Offset(CENTRAL_WIDTHS, 0) == 0 && Offset(CENTRAL_WIDTHS, 4) == 10 && Offset(CENTRAL_WIDTHS, 5) == 12
      && Offset(CENTRAL_WIDTHS, 6) == 14
    ensures Offset(CENTRAL_WIDTHS, 7) == 16 && Offset(CENTRAL_WIDTHS, 8) == 20 && Offset(CENTRAL_WIDTHS, 9) == 24
    ensures Offset(CENTRAL_WIDTHS, 10) == 28 && Offset(CENTRAL_WIDTHS, 11) == 30 && Offset(CENTRAL_WIDTHS, 12) == 32
    ensures Offset(CENTRAL_WIDTHS, 13) == 34 && Offset(CENTRAL_WIDTHS, 16) == 42 && Offset(CENTRAL_WIDTHS, 17) == 46
  {
    var ws := CENTRAL_WIDTHS;
    assert Offset(ws, 1) == 4 && Offset(ws, 2) == 6;
    assert Offset(ws, 3) == 8 && Offset(ws, 4) == 10;
    assert Offset(ws, 5) == 12 && Offset(ws, 6) == 14;
    assert Offset(ws, 7) == 16 && Offset(ws, 8) == 20;
    assert Offset(ws, 9) == 24 && Offset(ws, 10) == 28;
    assert Offset(ws, 11) == 30 && Offset(ws, 12) == 32;
    assert Offset(ws, 13) == 34 && Offset(ws, 14) == 36;
    assert Offset(ws, 15) == 38 && Offset(ws, 16) == 42;
  }

  lemma {:induction false} EndOffsets()
    ensures Offset(END_WIDTHS, 0) == 0 && Offset(END_WIDTHS, 1) == 4 && Offset(END_WIDTHS, 2) == 6
      && Offset(END_WIDTHS, 3) == 8 && Offset(END_WIDTHS, 4) == 10
    ensures Offset(END_WIDTHS, 5) == 12 && Offset(END_WIDTHS, 6) == 16 && Offset(END_WIDTHS, 7) == 20
      && Offset(END_WIDTHS, 8) == 22
  {
    var ws := END_WIDTHS;
    assert Offset(ws, 1) == 4 && Offset(ws, 2) == 6;
    assert Offset(ws, 3) == 8 && Offset(ws, 4) == 10;
    assert Offset(ws, 5) == 12 && Offset(ws, 6) == 16;
    assert Offset(ws, 7) == 20;
  }

  /** The local header: 30 bytes. */
  function LocalHeader(h: Head): (b: seq<Byte>)
    ensures |b| == LOCAL_SIZE
  {
    LocalOffsets();
    Fields(LocalFields(h), LOCAL_WIDTHS, 11)
  }

  /** The directory header: 46 bytes. */
  function CentralHeader(h: Head, at: nat): (b: seq<Byte>)
    ensures |b| == CENTRAL_SIZE
  {
    CentralOffsets();
    Fields(CentralFields(h, at), CENTRAL_WIDTHS, 17)
  }

  function EndRecord(total: nat, size: nat, at: nat): (b: seq<Byte>)
    ensures |b| == END_SIZE
  {
    EndOffsets();
    Fields(EndFields(total, size, at), END_WIDTHS, 8)
  }

  /** The name as the directory keeps it: its length is a 16-bit field. */
  function StoredName(name: Name): (n: Name)
    ensures |n| == |name| % 0x1_0000
  {
    name[..|name| % 0x1_0000]
  }

  function LocalRecord(e: Entry): (b: seq<Byte>)
    ensures |b| == LOCAL_SIZE + |e.name| + |e.comp|
  {
    LocalHeader(HeadOf(e)) + e.name + e.comp
  }

  function CentralRecord(e: Entry, at: nat): (b: seq<Byte>)
    ensures |b| == CENTRAL_SIZE + |e.name| % 0x1_0000
  {
    CentralHeader(HeadOf(e), at) + StoredName(e.name)
  }

  /** All local records, one after the other. */
  function Records(es: seq<Entry>, n: nat): (b: seq<Byte>)
    requires n <= |es|
  {
    if n == 0 then [] else Records(es, n - 1) + LocalRecord(es[n - 1])
  }

  /** The central directory. */
  function Directory(es: seq<Entry>, n: nat): (b: seq<Byte>)
    requires n <= |es|
  {
    if n == 0 then [] else Directory(es, n - 1) + CentralRecord(es[n - 1], |Records(es, n - 1)|)
  }
}
