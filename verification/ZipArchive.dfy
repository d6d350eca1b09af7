/** Archives from end to end: what was added is what a reader lists, finds and extracts. */
module ZipArchive {
  import opened Bits
  import BitSource
  import opened ZipNames
  import opened ZipRecords
  import opened ZipReader
  import opened ZipWriter
  import ZipIndex
  import Deflater
  import Parser
  import Streams
  import Zlib

  /** `comp` is what the compressor delivers for `data`. */
  ghost predicate Inflates(comp: seq<Byte>, data: seq<Byte>) {
    exists a: nat :: Deflater.Decodes(comp, false, data, a)
  }

  /** The bytes in the archive stand for the entry's data. */
  ghost predicate Sound(e: Entry) {
    && e.time < 0x1_0000 && e.date < 0x1_0000
    && if e.how == 0 then e.comp == e.data else e.how == DEFLATED && Inflates(e.comp, e.data)
  }

  ghost predicate AllSound(es: seq<Entry>) {
    forall i :: 0 <= i < |es| ==> Sound(es[i])
  }

  /** Name and size fit the fields of a directory record. */
  predicate Plain(e: Entry) {
    |e.name| < 0x1_0000 && |e.data| < 0xFFFF_FFFF
  }

  ghost predicate AllPlain(es: seq<Entry>) {
    forall i :: 0 <= i < |es| ==> Plain(es[i])
  }

  // ---- Listing ----

  /** Nothing inflates from nothing. */
  lemma {:induction false} NeedsBits(data: seq<Byte>, a: nat)
    ensures !Deflater.Decodes([], false, data, a)
  {
    var b := BytesToBits([]);
    assert b == [] && b[0..] == [];
    NoStream();
  }

  lemma {:induction false} NoStream()
    ensures !Streams.DecodeStream([], []).Done?
  {
  }

  lemma {:induction false} InflatesFromSome(comp: seq<Byte>, data: seq<Byte>)
    requires Inflates(comp, data)
    ensures comp != []
  {
    var a: nat :| Deflater.Decodes(comp, false, data, a);
    hide Deflater.Decodes;
    NeedsBits(data, a);
  }

  /** What the directory would say if its fields held any number. */
  function TrueStat(e: Entry, at: nat): (s: Stat) {
    Stat(e.name, e.how, e.time, e.date, CrcOf(e.data), |e.comp|, |e.data|, at)
  }

  lemma {:induction false} StatExact(e: Entry, at: nat)
    requires Sound(e) && |e.comp| < 0x1_0000_0000 && at < 0x1_0000_0000
    ensures StatOf(e, at) == TrueStat(e, at) <==> |e.name| < 0x1_0000 && |e.data| < 0x1_0000_0000
  {
    hide CrcOf, Inflates;
    if |e.name| < 0x1_0000 { assert StoredName(e.name) == e.name; }
  }

  lemma {:induction false} RecordableExact(e: Entry)
    requires Sound(e) && |e.comp| < 0xFFFF_FFFF
    ensures Recordable(e) <==> |e.data| % 0x1_0000_0000 != 0xFFFF_FFFF
  {
    hide Inflates, SizesRefused;
    if e.how != 0 { InflatesFromSome(e.comp, e.data); }
    SizesExact(e.how % 0x1_0000 == 0 && e.time % 0x1_0000 == 0, |e.data| % 0x1_0000_0000, |e.comp|);
  }

  lemma {:induction false} SizesExact(stored: bool, size: nat, comp: nat)
    requires comp < 0xFFFF_FFFF && (stored ==> size == comp) && (comp == 0 ==> size == 0)
    ensures SizesRefused(stored, size, comp % 0x1_0000_0000) <==> size == 0xFFFF_FFFF
  {
    assert comp % 0x1_0000_0000 == comp;
  }

  /** The archive opens, and every record in it is the entry that was added. */
  ghost predicate Returned(file: seq<Byte>, es: seq<Entry>) {
    var r := Contents(file, |Records(es, |es|)| + |Directory(es, |es|)|);
    r.Some? && |r.value.offsets| == |es| && forall i :: 0 <= i < |es| ==> Matches(r.value, i, es)
  }

  /** The record at `p`, if the directory holds all of it. */
  function Unpack(dir: seq<Byte>, p: nat): (s: Option<Stat>) {
    if p + CENTRAL_SIZE <= |dir| && p + CENTRAL_SIZE + Read(dir, p + 28, 2) <= |dir| then Some(ReadStat(dir, p))
      else None
  }

  ghost predicate Matches(o: Opened, i: nat, es: seq<Entry>)
    requires i < |o.offsets| && i < |es|
  {
    Unpack(o.dir, o.offsets[i]) == Some(TrueStat(es[i], |Records(es, i)|))
  }

  lemma {:induction false} StartsAt(es: seq<Entry>, i: nat)
    requires i < |es|
    ensures |Starts(es, 0)| == |es| && Starts(es, 0)[i] == |Directory(es, i)|
  {
    hide Directory;
  }

  lemma {:induction false} UnpackBack(es: seq<Entry>, i: nat)
    requires i < |es|
    ensures Unpack(Directory(es, |es|), |Directory(es, i)|) == Some(StatOf(es[i], |Records(es, i)|))
  {
    hide Records, Directory, HasCentral, StatOf, ReadStat;
    DirectoryAt(es, |es|, i);
    StatBack(Directory(es, |es|), |Directory(es, i)|, es[i], |Records(es, i)|);
  }

  lemma {:induction false} MatchesIff(es: seq<Entry>, i: nat)
    requires AllSound(es) && i < |es| && |Records(es, |es|)| <= 0xFFFF_FFFF
    ensures |Starts(es, 0)| == |es| && (Matches(Opened(Directory(es, |es|), Starts(es, 0)), i, es) <==>
      |es[i].name| < 0x1_0000 && |es[i].data| < 0x1_0000_0000)
    ensures Recordable(es[i]) <==> |es[i].data| % 0x1_0000_0000 != 0xFFFF_FFFF
  {
    hide Records, Directory, StatOf, TrueStat, Recordable, Unpack, LocalRecord, Starts, Sound;
    StartsAt(es, i);
    UnpackBack(es, i);
    RecordsAt(es, |es|, i);
    StatExact(es[i], |Records(es, i)|);
    RecordableExact(es[i]);
  }

  /**
   * A reader gets back exactly the entries that were added, if and only if every name is shorter than 65536 bytes and
   * every size below 2^32 - 1.
   */
  lemma {:induction false} ReaderAgrees(file: seq<Byte>, es: seq<Entry>)
    requires Archive(file, es) && AllSound(es)
    ensures Returned(file, es) <==> AllPlain(es)
  {
    hide Records, Directory, Archive, Matches, Recordable, Contents, Starts, Sound;
    ArchiveParts(file, es);
    ContentsBack(file, es);
    forall i: nat | i < |es|
      ensures |Starts(es, 0)| == |es| && (Matches(Opened(Directory(es, |es|), Starts(es, 0)), i, es) <==>
        |es[i].name| < 0x1_0000 && |es[i].data| < 0x1_0000_0000)
      ensures Recordable(es[i]) <==> |es[i].data| % 0x1_0000_0000 != 0xFFFF_FFFF
    {
      MatchesIff(es, i);
    }
    StartsSize(es);
    if AllPlain(es) {
      assert AllRecordable(es, 0);
    }
    if Returned(file, es) {
      assert AllRecordable(es, 0);
      forall i | 0 <= i < |es| ensures Plain(es[i]) {
        assert Matches(Opened(Directory(es, |es|), Starts(es, 0)), i, es);
        assert Recordable(es[i]);
      }
    }
  }

  lemma {:induction false} StartsSize(es: seq<Entry>)
    ensures |Starts(es, 0)| == |es|
  {
  }

  // ---- Finding and extracting ----

  /** Every record that was indexed can be unpacked. */
  ghost predicate Readable(o: Opened) {
    forall i :: 0 <= i < |o.offsets| ==> Unpack(o.dir, o.offsets[i]).Some?
  }

  function NamesOf(o: Opened): (names: seq<Name>)
    requires Readable(o)
  {
    seq(|o.offsets|, i requires 0 <= i < |o.offsets| => Unpack(o.dir, o.offsets[i]).value.name)
  }

  lemma {:induction false} NamesReturned(o: Opened, es: seq<Entry>)
    requires |o.offsets| == |es| && forall i :: 0 <= i < |es| ==> Matches(o, i, es)
    ensures Readable(o) && |NamesOf(o)| == |es| && forall i :: 0 <= i < |es| ==> NamesOf(o)[i] == es[i].name
  {
    hide Records, Unpack;
    forall i | 0 <= i < |es| ensures Unpack(o.dir, o.offsets[i]) == Some(TrueStat(es[i], |Records(es, i)|)) {
      assert Matches(o, i, es);
    }
  }

  /** The data of an entry stands where its local header says. */
  lemma {:induction false} CompFound(file: seq<Byte>, es: seq<Entry>, i: nat)
    requires Archive(file, es) && i < |es| && Plain(es[i])
    ensures var p := DataStart(file, |Records(es, i)|);
      p.Some? && p.value + |es[i].comp| <= |file| && file[p.value..p.value + |es[i].comp|] == es[i].comp
  {
    hide Records, DataStart, Archive, Directory, ReadEnd, LocalHeader, HeadOf;
    ArchiveParts(file, es);
    DataFound(file, es, i);
    LocalPlaced(file, es, i);
  }

  /** The bytes that stand for an entry give its data back. */
  method Expand(comp: seq<Byte>, how: nat, ghost e: Entry) returns (data: seq<Byte>)
    requires Sound(e) && comp == e.comp && how == e.how
    ensures data == e.data
  {
    if how == 0 { return comp; }
    ghost var a: nat :| Deflater.Decodes(comp, false, e.data, a);
    hide Deflater.Decodes;
    assert BitSource.Flatten([comp]) == comp + BitSource.Flatten([]) == comp;
    var status;
    status, data := Zlib.RoundTrip([comp], false, 32768, e.data, a);
  }

  /**
   * Extracts the entry of a given name. In an archive of plain entries the first one with that name, up to case, is
   * found and its data returned.
   */
  method Extract(file: seq<Byte>, pos: nat, name: Name, ghost es: seq<Entry>) returns (r: Option<seq<Byte>>)
    requires Archive(file, es) && AllSound(es) && AllPlain(es) && pos == |Records(es, |es|)| + |Directory(es, |es|)|
    ensures r.None? ==> forall i :: 0 <= i < |es| ==> !Same(es[i].name, name)
    ensures r.Some? ==> exists i ::
      && 0 <= i < |es| && Same(es[i].name, name) && r.value == es[i].data
      && forall j :: 0 <= j < i ==> !Same(es[j].name, name)
  {
    hide Records, Directory, Archive, Contents, Matches, Readable, Unpack, NamesOf, Sound, Same, DataStart;
    ReaderAgrees(file, es);
    var o := OpenArchive(file, pos);
    NamesReturned(o.value, es);
    var names := NamesOf(o.value);
    var i := ZipIndex.Scan(names, name);
    if i < 0 { return None; }
    var stat := StatAt(o.value, i, es);
    CompFound(file, es, i);
    var p := DataStart(file, stat.at);
    var data := Expand(file[p.value..p.value + stat.compSize], stat.how, es[i]);
    r := Some(data);
  }

  method StatAt(o: Opened, i: nat, ghost es: seq<Entry>) returns (s: Stat)
    requires i < |o.offsets| && i < |es| && Matches(o, i, es)
    ensures s == TrueStat(es[i], |Records(es, i)|)
  {
    hide Records, Unpack, TrueStat;
    s := Unpack(o.dir, o.offsets[i]).value;
  }

  // ---- Adding files ----

  lemma {:induction false} FlattenNext(pieces: seq<seq<Byte>>, i: nat)
    requires i < |pieces|
    ensures BitSource.Flatten(pieces[..i + 1]) == BitSource.Flatten(pieces[..i]) + pieces[i]
  {
    FlattenAppend(pieces[..i], pieces[i]);
    assert pieces[..i + 1] == pieces[..i] + [pieces[i]];
  }

  lemma {:induction false} FlattenAppend(ps: seq<seq<Byte>>, p: seq<Byte>)
    ensures BitSource.Flatten(ps + [p]) == BitSource.Flatten(ps) + p
  {
    if ps == [] {
      assert [] + [p] == [p] && BitSource.Flatten([p]) == p + BitSource.Flatten([]);
      assert p + [] == p && [] + p == p;
    } else {
      FlattenAppend(ps[1..], p);
      assert (ps + [p])[1..] == ps[1..] + [p];
      Assoc(ps[0], BitSource.Flatten(ps[1..]), p);
    }
  }

  /**
   * An entry of `comp` bytes can be added: names, offsets and the directory stay below 2^32, and the medium has room.
   */
  predicate CanAdd(size: nat, files: nat, dir: nat, capacity: nat, name: nat, comp: nat) {
    && 0 < name && files != 0xFFFF && size + LOCAL_SIZE + CENTRAL_SIZE + name <= 0xFFFF_FFFF
    && size + LOCAL_SIZE + name + comp <= 0xFFFF_FFFF && size + LOCAL_SIZE + name + comp <= capacity
    && dir + CENTRAL_SIZE + name % 0x1_0000 <= 0xFFFF_FFFF
  }

  lemma {:induction false} FlattenLonger(pieces: seq<seq<Byte>>, i: nat)
    requires i <= |pieces|
    ensures |BitSource.Flatten(pieces[..i])| <= |BitSource.Flatten(pieces)|
    decreases |pieces| - i
  {
    if i < |pieces| {
      FlattenNext(pieces, i);
      FlattenLonger(pieces, i + 1);
    } else {
      assert pieces[..i] == pieces;
    }
  }

  /** An open entry ends where its header, its name and what has been written of it end. */
  lemma {:induction false} EndIs(z: Zip)
    requires z.Writing()
    ensures EndOf(z.entry.value, z.level) == z.archiveSize + LOCAL_SIZE + |z.entry.value.name| + |z.comp|
  {
    hide Kept, Listed, Begun, Tells;
    BegunSize(z.file, z.archiveSize, z.entry.value.name, z.comp, EndOf(z.entry.value, z.level));
  }

  /** `z` is writing an entry named `name`, and nothing else about the archive has changed. */
  ghost predicate Adding(z: Zip, name: Name, es: seq<Entry>, size: nat, files: nat, dir: seq<Byte>)
    reads z
  {
    && z.Writing() && z.entries == es && z.archiveSize == size && z.totalFiles == files && z.centralDir == dir
    && z.entry.value.name == Slashes(name) && !z.entry.value.broken && name != []
    && files != 0xFFFF && size + LOCAL_SIZE + CENTRAL_SIZE + |name| <= 0xFFFF_FFFF
    && size + LOCAL_SIZE + |name| + |z.comp| <= z.capacity
  }

  /** What the writes to a stored entry come to. */
  method WriteAll(z: Zip, pieces: seq<seq<Byte>>, ghost name: Name, ghost es: seq<Entry>, ghost size: nat,
      ghost files: nat, ghost dir: seq<Byte>)
    returns (ok: bool)
    requires Adding(z, name, es, size, files, dir) && z.level == 0 && z.data == [] && z.good
    modifies z`file, z`entry, z`data, z`comp, z`good
    ensures z.Core() && z.entries == es
    ensures ok <==> size + LOCAL_SIZE + |name| + |BitSource.Flatten(pieces)| <= z.capacity
    ensures ok ==> Adding(z, name, es, size, files, dir) && z.data == z.comp == BitSource.Flatten(pieces)
  {
    hide Kept, Listed, Begun, Tells, Sound;
    ok := true;
    var i := 0;
    assert pieces[..0] == [] && BitSource.Flatten([]) == [];
    StoredComp(z.entry.value, z.archiveSize, z.data, z.comp);
    while i < |pieces|
      invariant 0 <= i <= |pieces| && ok && Adding(z, name, es, size, files, dir) && z.good
      invariant z.data == z.comp == BitSource.Flatten(pieces[..i])
    {
      FlattenNext(pieces, i);
      FlattenLonger(pieces, i + 1);
      EndIs(z);
      ok := z.Write(pieces[i], []);
      if !ok { return; }
      StoredComp(z.entry.value, z.archiveSize, z.data, z.comp);
      i := i + 1;
    }
    assert pieces[..i] == pieces;
  }

  /**
   * An entry stored in any number of writes stands for their bytes, one after the other. It is added whenever it fits.
   */
  method AddStored(z: Zip, name: Name, pieces: seq<seq<Byte>>, time: nat, date: nat) returns (ok: bool)
    requires z.Core() && z.level == 0 && AllSound(z.entries) && time < 0x1_0000 && date < 0x1_0000
    modifies z
    ensures z.Core() && AllSound(z.entries)
    ensures ok <==> CanAdd(old(z.archiveSize), old(z.totalFiles), |old(z.centralDir)|, z.capacity, |name|,
      |BitSource.Flatten(pieces)|)
    ensures ok ==> z.entries == old(z.entries) + [Entry(Slashes(name), BitSource.Flatten(pieces),
      BitSource.Flatten(pieces), 0, time, date)]
    ensures !ok ==> z.entries == old(z.entries)
  {
    hide Kept, Listed, Begun, Tells, Sound;
    ghost var es, size, files, dir := z.entries, z.archiveSize, z.totalFiles, z.centralDir;
    ok := z.Open(name);
    if !ok { return; }
    ok := WriteAll(z, pieces, name, es, size, files, dir);
    if !ok { return; }
    assert z.comp + [] == z.comp;
    EndIs(z);
    StoredSound(Entry(Slashes(name), z.data, z.comp, 0, time, date));
    ok := z.Close([], time, date);
  }

  lemma {:induction false} StoredComp(c: Current, size: nat, data: seq<Byte>, comp: seq<Byte>)
    requires Tells(c, 0, size, data, comp, true)
    ensures comp == data
  {
  }

  lemma {:induction false} StoredSound(e: Entry)
    requires e.comp == e.data && e.how == 0 && e.time < 0x1_0000 && e.date < 0x1_0000
    ensures Sound(e)
  {
  }

  /** The compressor has taken what was written, and delivered what stands in the file. */
  ghost predicate InStep(c: Deflater.Compressor, z: Zip)
    reads z, c, c.p, c.p.d, c.p.d.dict, c.p.d.next, c.p.d.hash
    reads c.p.z, c.p.z.buf, c.p.z.count0, c.p.z.count1, c.w, c.w.out
  {
    c.p.Valid() && c.Core() && !c.zlib && c.p.d.src == z.data && c.sent == z.comp
  }

  /** None of the compressor's parts is the archive. */
  ghost predicate Elsewhere(c: Deflater.Compressor, z: Zip) {
    && z as object !in {c as object, c.p, c.p.d, c.p.z, c.w}
    && z as object !in {c.p.d.dict as object, c.p.d.next, c.p.d.hash, c.p.z.buf, c.p.z.count0, c.p.z.count1, c.w.out}
  }

  /** One write: the compressor takes the bytes and its output goes to the file, if it fits. */
  method WriteThrough(c: Deflater.Compressor, z: Zip, buf: seq<Byte>) returns (ok: bool)
    requires z.Writing() && z.level > 0 && Elsewhere(c, z) && InStep(c, z) && !z.entry.value.broken
    modifies z`file, z`entry, z`data, z`comp, z`good, c.p, c.p.z, c.p.z.buf, c.p.z.count0, c.p.z.count1, c.p.d,
      c.p.d.dict, c.p.d.next, c.p.d.hash
    modifies c.w`pos, c.w`bitBuf, c.w`bitsIn, c.w`bits, c.w.out, c`blocks, c`sent, c`body, c`adler
    ensures z.Writing() && z.entry.value.name == old(z.entry.value.name) && c.p.Valid() && c.Core()
      && c.p.d.src == z.data == old(z.data) + buf
    ensures ok <==> z.archiveSize + LOCAL_SIZE + |z.entry.value.name| + |c.sent| <= z.capacity || c.sent == old(c.sent)
    ensures ok ==> InStep(c, z) && !z.entry.value.broken
  {
    hide Kept, Listed, Begun, Tells, Parser.Parse.Valid, Deflater.Compressor.Core;
    EndIs(z);
    if buf == [] {
      assert z.data + [] == z.data;
      return true;
    }
    var out := c.Compress(buf, Deflater.NoFlush);
    ok := z.Write(buf, out);
  }

  lemma {:induction false} DeflatedSound(e: Entry, a: nat)
    requires e.how == DEFLATED && Deflater.Decodes(e.comp, false, e.data, a) && e.time < 0x1_0000 && e.date < 0x1_0000
    ensures Sound(e)
  {
    hide Deflater.Decodes;
  }

  /** The last output of the compressor, and the end of the entry. */
  method CloseThrough(c: Deflater.Compressor, z: Zip, time: nat, date: nat) returns (ok: bool)
    requires z.Writing() && z.level > 0 && Elsewhere(c, z) && InStep(c, z) && AllSound(z.entries) && time < 0x1_0000
      && date < 0x1_0000
    requires !z.entry.value.broken
    modifies z, c.p, c.p.z, c.p.z.buf, c.p.z.count0, c.p.z.count1, c.p.d, c.p.d.dict, c.p.d.next, c.p.d.hash
    modifies c.w`pos, c.w`bitBuf, c.w`bitsIn, c.w`bits, c.w.out, c`blocks, c`sent, c`body, c`adler
    ensures z.Core() && AllSound(z.entries) && c.p.d.src == old(z.data)
      && Deflater.Decodes(c.sent, false, old(z.data), c.adler)
    ensures ok <==> CanClose(old(z.archiveSize), |old(z.centralDir)|, z.capacity, |old(z.entry.value.name)|,
      |old(z.comp)|, |c.sent|)
    ensures ok ==>
      z.entries == old(z.entries) + [Entry(old(z.entry.value.name), old(z.data), c.sent, DEFLATED, time, date)]
    ensures !ok ==> z.entries == old(z.entries)
  {
    hide Kept, Listed, Begun, Tells, Sound, Deflater.Decodes, Parser.Parse.Valid, Deflater.Compressor.Core;
    EndIs(z);
    assert z.data + [] == z.data;
    var out := c.Compress([], Deflater.Finish);
    ghost var e := Entry(z.entry.value.name, z.data, z.comp + out, DEFLATED, time, date);
    DeflatedSound(e, c.adler);
    ok := z.Close(out, time, date);
  }

  /** An entry of which `part` bytes are written can be closed with `comp` bytes in all. */
  predicate CanClose(size: nat, dir: nat, capacity: nat, name: nat, part: nat, comp: nat) {
    && (size + LOCAL_SIZE + name + comp <= capacity || comp == part) && size + LOCAL_SIZE + name + comp <= 0xFFFF_FFFF
    && size + LOCAL_SIZE <= capacity && dir + CENTRAL_SIZE + name % 0x1_0000 <= 0xFFFF_FFFF
  }

  /** What the compressor has delivered is a part of a deflate stream for what it has taken, or all of one. */
  ghost predicate Honest(c: Deflater.Compressor)
    reads c, c.p, c.p.d, c.p.d.dict, c.p.d.next, c.p.d.hash, c.p.z, c.p.z.buf, c.p.z.count0, c.p.z.count1, c.w, c.w.out
  {
    (c.p.Valid() && c.Core()) || Deflater.Decodes(c.sent, false, c.p.d.src, c.adler)
  }

  /** What the writes to a deflated entry come to: all are taken, or the compressor's output outgrows the medium. */
  method CompressAll(c: Deflater.Compressor, z: Zip, pieces: seq<seq<Byte>>, ghost name: Name, ghost es: seq<Entry>,
      ghost size: nat,
                     ghost files: nat, ghost dir: seq<Byte>)
    returns (ok: bool, ghost taken: nat)
    requires Adding(z, name, es, size, files, dir) && z.level > 0 && Elsewhere(c, z) && InStep(c, z) && z.data == []
      && c.sent == []
    modifies z`file, z`entry, z`data, z`comp, z`good, c.p, c.p.z, c.p.z.buf, c.p.z.count0, c.p.z.count1, c.p.d,
      c.p.d.dict, c.p.d.next, c.p.d.hash
    modifies c.w`pos, c.w`bitBuf, c.w`bitsIn, c.w`bits, c.w.out, c`blocks, c`sent, c`body, c`adler
    ensures z.Core() && z.entries == es && c.p.Valid() && c.Core()
    ensures taken <= |pieces| && c.p.d.src == BitSource.Flatten(pieces[..taken])
    ensures ok <==> size + LOCAL_SIZE + |name| + |c.sent| <= z.capacity
    ensures ok ==> taken == |pieces| && Adding(z, name, es, size, files, dir) && InStep(c, z)
  {
    hide Kept, Listed, Begun, Tells, Parser.Parse.Valid, Deflater.Compressor.Core;
    ok, taken := true, 0;
    var i := 0;
    assert pieces[..0] == [] && BitSource.Flatten([]) == [];
    while i < |pieces|
      invariant 0 <= i == taken <= |pieces| && ok && Adding(z, name, es, size, files, dir) && Elsewhere(c, z)
      invariant InStep(c, z) && z.data == BitSource.Flatten(pieces[..i])
    {
      FlattenNext(pieces, i);
      ok := WriteThrough(c, z, pieces[i]);
      taken := taken + 1;
      if !ok { return; }
      i := i + 1;
    }
  }

  /**
   * A deflated entry, written in any number of calls, stands for their bytes, one after the other. It is added whenever
   * the compressor's output fits; `c` is the compressor that was used.
   */
  method AddDeflated(z: Zip, o: Parser.Options, fixed: bool, name: Name, pieces: seq<seq<Byte>>, time: nat, date: nat)
    returns (ok: bool, c: Deflater.Compressor, ghost taken: nat)
    requires z.Core() && z.level > 0 && Parser.OptionsOk(o) && AllSound(z.entries) && time < 0x1_0000 && date < 0x1_0000
    modifies z
    ensures z.Core() && AllSound(z.entries) && fresh(c) && Honest(c)
    ensures taken <= |pieces| && c.p.d.src == BitSource.Flatten(pieces[..taken])
    ensures ok <==> CanAdd(old(z.archiveSize), old(z.totalFiles), |old(z.centralDir)|, z.capacity, |name|, |c.sent|)
    ensures ok ==> taken == |pieces| && z.entries == old(z.entries) + [Entry(Slashes(name), BitSource.Flatten(pieces),
      c.sent, DEFLATED, time, date)]
    ensures !ok ==> z.entries == old(z.entries)
  {
    hide Kept, Listed, Begun, Tells, Sound, Parser.Parse.Valid, Deflater.Compressor.Core, Parser.OptionsOk,
      Deflater.Decodes;
    ghost var es, size, files, dir := z.entries, z.archiveSize, z.totalFiles, z.centralDir;
    ok := z.Open(name);
    c := new Deflater.Compressor(o, false, fixed);
    taken := 0;
    assert pieces[..0] == [] && BitSource.Flatten([]) == [];
    if !ok { return; }
    ok, taken := CompressAll(c, z, pieces, name, es, size, files, dir);
    if !ok { return; }
    assert pieces[..taken] == pieces;
    ok := CloseThrough(c, z, time, date);
  }
}
