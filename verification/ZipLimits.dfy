/** Archives the writer makes and its own reader does not give back: names and data too long for their fields. */
module ZipLimits {
  import opened Bits
  import opened Canonical
  import opened LzTokens
  import opened Blocks
  import opened Streams
  import opened BlockSize
  import BitWriter
  import BitSource
  import opened ZipNames
  import opened ZipRecords
  import opened ZipReader
  import opened ZipWriter
  import opened ZipArchive
  import Deflater
  import Flusher
  import LzBuffer

  function Letters(n: nat): (s: Name)
    ensures |s| == n && forall i :: 0 <= i < n ==> s[i] == 97
  {
    seq(n, _ => 97)
  }

  lemma {:induction false} OneEntry(e: Entry)
    ensures |Records([e], 1)| == LOCAL_SIZE + |e.name| + |e.comp|
      && |Directory([e], 1)| == CENTRAL_SIZE + |e.name| % 0x1_0000
  {
    hide LocalRecord, CentralRecord;
    assert Records([e], 0) == [] && Directory([e], 0) == [];
  }

  /** The archive is one of a sound entry, and a reader does not get the entry back. */
  ghost predicate Lost(file: seq<Byte>, e: Entry) {
    Archive(file, [e]) && AllSound([e]) && !Returned(file, [e])
  }

  lemma {:induction false} TooLarge(file: seq<Byte>, e: Entry)
    requires Archive(file, [e]) && Sound(e) && !Plain(e)
    ensures Lost(file, e)
  {
    hide Archive, Sound, Returned;
    assert AllSound([e]);
    assert !AllPlain([e]) by { assert !Plain([e][0]); }
    ReaderAgrees(file, [e]);
  }

  /** An archive of one small entry can be finished. */
  method FinishOne(z: Zip, ghost e: Entry) returns (file: seq<Byte>)
    requires z.Core() && z.entries == [e] && |e.name| + |e.comp| <= 0x4000_0000 && z.capacity == 0x8000_0000
    modifies z
    ensures Archive(file, [e])
  {
    hide Kept, Listed, Archive, Records, Directory, LocalRecord, CentralRecord;
    OneEntry(e);
    OneKept(z.file, z.archiveSize, z.centralDir, z.centralOffsets, e);
    var ok := z.Finalize();
    file := z.file[..z.archiveSize];
  }

  lemma {:induction false} OneKept(file: seq<Byte>, size: nat, dir: seq<Byte>, offsets: seq<nat>, e: Entry)
    requires Kept(file, size, [e]) && Listed(dir, offsets, [e])
    ensures size == |Records([e], 1)| && dir == Directory([e], 1)
  {
    hide Records, Directory;
  }

  /** A name of 65536 bytes: its length is written as zero, and a reader does not get it back. */
  method LongNameLost() returns (file: seq<Byte>)
    ensures Lost(file, Entry(Letters(0x1_0000), [], [], 0, 0, 0))
  {
    hide Kept, Listed, Sound, Archive, Returned, Records, Directory, Letters;
    var z := new Zip(0, 0x8000_0000);
    EmptyParts(z);
    var ok := AddStored(z, Letters(0x1_0000), [], 0, 0);
    assert BitSource.Flatten([]) == [];
    assert Slashes(Letters(0x1_0000)) == Letters(0x1_0000);
    ghost var e := Entry(Letters(0x1_0000), [], [], 0, 0, 0);
    assert z.entries == [e];
    assert Sound(e) by { StoredSound(e); }
    file := FinishOne(z, e);
    TooLarge(file, e);
  }

  lemma {:induction false} EmptyParts(z: Zip)
    requires z.Core() && z.entries == []
    ensures z.archiveSize == 0 && z.totalFiles == 0 && |z.centralDir| == 0
  {
  }

  /**
   * Data of 2^32 - 1 bytes or more, however small it gets by compression: the entry is added, and a reader does not get
   * it back.
   */
  method LargeDataLost(data: seq<Byte>, comp: seq<Byte>) returns (file: seq<Byte>)
    requires |data| >= 0xFFFF_FFFF && |comp| <= 0x3000_0000 && Inflates(comp, data)
    ensures Lost(file, Entry([97], data, comp, DEFLATED, 0, 0))
  {
    hide Kept, Listed, Begun, Tells, Archive, Returned, Records, Directory, Inflates;
    var z := new Zip(1, 0x8000_0000);
    EmptyParts(z);
    var ok := z.Open([97]);
    EndIs(z);
    ok := z.Write(data, comp);
    EndIs(z);
    assert [] + data == data && [] + comp == comp && comp + [] == comp;
    ok := z.Close([], 0, 0);
    assert Slashes([97]) == [97];
    ghost var e := Entry([97], data, comp, DEFLATED, 0, 0);
    assert z.entries == [e];
    file := FinishOne(z, e);
    TooLarge(file, e);
  }

  // ---- There is such data ----

  function Repeats(k: nat): (ts: seq<Token>)
    ensures |ts| == k + 1 && ts[0] == Lit(0) && forall i :: 1 <= i <= k ==> ts[i] == Match(258, 1)
  {
    [Lit(0)] + seq(k, _ => Match(258, 1))
  }

  lemma {:induction false} PlayRepeats(h: seq<Byte>, ts: seq<Token>, i: nat)
    requires i <= |ts| && h != [] && forall j :: i <= j < |ts| ==> ts[j] == Match(258, 1)
    ensures PlayableFrom(h, ts, i) && |PlayFrom(h, ts, i)| == |h| + 258 * (|ts| - i)
    decreases |ts| - i
  {
    hide Copy;
    if i < |ts| { PlayRepeats(Play(h, ts[i]), ts, i + 1); }
  }

  lemma {:induction false} PlayAll(k: nat)
    ensures PlayableFrom([], Repeats(k), 0) && |PlayFrom([], Repeats(k), 0)| == 1 + 258 * k
  {
    hide Repeats;
    PlayRepeats([0], Repeats(k), 1);
    assert Play([], Repeats(k)[0]) == [0];
  }

  lemma {:induction false} RepeatsOk(k: nat)
    ensures LzBuffer.AllOk(Repeats(k))
  {
  }

  lemma {:induction false} BodyShort(ts: seq<Token>, i: nat)
    requires AllWritable(FixedLit(), FixedDist(), ts) && i <= |ts|
    ensures |BlockBits(FixedLit(), FixedDist(), ts, i)| <= 31 * (|ts| - i) + 9
    decreases |ts| - i
  {
    hide FixedLit, FixedDist, TokenBits, Writable;
    if i < |ts| {
      BodyShort(ts, i + 1);
      FixedToken(ts[i]);
    }
  }

  lemma {:induction false} BytesFor(b: seq<bool>, n: nat) returns (s: seq<Byte>)
    requires |b| == 8 * n
    ensures |s| == n && BytesToBits(s) == b
  {
    hide Val, ToBits;
    if n == 0 {
      s := [];
    } else {
      var r := BytesFor(b[8..], n - 1);
      Pow2Values();
      ToBitsVal(b[..8]);
      s := [Val(b[..8])] + r;
      assert s[1..] == r && b == b[..8] + b[8..];
    }
  }

  /** Repeated zeros: 258 of them for every four bytes. */
  lemma {:induction false} ManyZeros(k: nat) returns (data: seq<Byte>, comp: seq<Byte>)
    ensures |data| == 1 + 258 * k && |comp| <= 4 * k + 8 && Inflates(comp, data)
  {
    hide Repeats, PlayFrom, PlayableFrom, FixedLit, FixedDist, AllWritable, BlockBits, Deflater.Decodes,
      Deflater.Trailer, ToBits, Deflater.Lead, Ends, Carries, BlockIs, Flusher.WithFinal, DecodeStream, Aligned;
    PlayAll(k);
    RepeatsOk(k);
    var ts := Repeats(k);
    FixedWrites(ts);
    data := PlayFrom([], ts, 0);
    var core := Flusher.WithFinal(true, ToBits(1, 2) + BlockBits(FixedLit(), FixedDist(), ts, 0));
    Flusher.FixedIs(true, ts, [], 0);
    CarriesNothing();
    EndsBlock([], core, [], data);
    assert [] + core == core;
    BodyShort(ts, 0);
    CoreLength(ts);
    var t := Deflater.Trailer(|core|, false, 1);
    Deflater.TrailerLength(core, false, 1);
    TrailerShort(|core|);
    WholeBytes(|core + t|);
    comp := BytesFor(core + t, |core + t| / 8);
    FlowIs(comp, core + t);
    Deflater.WholeStream(comp, 0, 0, false, 1, core, 1, data);
  }

  lemma {:induction false} CoreLength(ts: seq<Token>)
    requires AllWritable(FixedLit(), FixedDist(), ts)
    ensures |Flusher.WithFinal(true, ToBits(1, 2) + BlockBits(FixedLit(), FixedDist(), ts, 0))|
      == 3 + |BlockBits(FixedLit(), FixedDist(), ts, 0)|
  {
    hide BlockBits, FixedLit, FixedDist, AllWritable;
  }

  lemma {:induction false} TrailerShort(n: nat)
    ensures |Deflater.Trailer(n, false, 1)| <= 7
  {
    hide BitWriter.PadBits;
  }

  lemma {:induction false} WholeBytes(n: nat)
    requires Aligned(n)
    ensures n == 8 * (n / 8)
  {
  }

  lemma {:induction false} FlowIs(comp: seq<Byte>, b: seq<bool>)
    requires BytesToBits(comp) == b
    ensures Deflater.Flow(comp, 0, 0, Deflater.Lead(false, 1), b)
  {
    assert ToBits(0, 0) == [] && BytesToBits(comp) + [] == b && [] + b == b;
  }

  /** Data of more than 2^32 bytes that deflates to less than 2^27. */
  lemma {:induction false} LargeDataExists() returns (data: seq<Byte>, comp: seq<Byte>)
    ensures |data| >= 0x1_0000_0000 && |comp| < 0x800_0000 && Inflates(comp, data)
  {
    hide Inflates;
    data, comp := ManyZeros(16647161);
  }
}
