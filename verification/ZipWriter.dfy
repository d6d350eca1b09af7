/** Writing an archive: entries opened, written and closed one after the other, then the directory. */
module ZipWriter {
  import opened Bits
  import opened ZipNames
  import opened ZipRecords
  import opened ZipReader
  import Checksums

  // ---- The medium ----

  /** Writing at an offset replaces what was there and extends the file when it reaches past its end. */
  function Overwrite(file: seq<Byte>, at: nat, b: seq<Byte>): (f: seq<Byte>)
    requires at <= |file|
    ensures |f| >= |file| && |f| >= at + |b|
  {
    file[..at] + b + (if at + |b| <= |file| then file[at + |b|..] else [])
  }

  lemma {:induction false} OverwriteAt(file: seq<Byte>, at: nat, b: seq<Byte>)
    requires at <= |file|
    ensures Overwrite(file, at, b)[at..at + |b|] == b
  {
  }

  lemma {:induction false} OverwriteBefore(file: seq<Byte>, at: nat, b: seq<Byte>, i: nat, j: nat)
    requires i <= j <= at <= |file|
    ensures Overwrite(file, at, b)[i..j] == file[i..j]
  {
    assert Overwrite(file, at, b)[..at] == file[..at];
    Inside(file, 0, at, i, j);
    Inside(Overwrite(file, at, b), 0, at, i, j);
  }

  lemma {:induction false} OverwriteBehind(file: seq<Byte>, at: nat, b: seq<Byte>, i: nat, j: nat)
    requires at + |b| <= i <= j <= |file|
    ensures Overwrite(file, at, b)[i..j] == file[i..j]
  {
    var f, n := Overwrite(file, at, b), at + |b|;
    assert |f| == |file| && f[n..] == file[n..];
    Inside(f, n, |f|, i - n, j - n);
    Inside(file, n, |file|, i - n, j - n);
  }

  // ---- The parts of the invariant ----

  /** The first `size` bytes are the local records of `es` and nothing else. */
  ghost predicate Kept(file: seq<Byte>, size: nat, es: seq<Entry>) {
    size <= |file| && file[..size] == Records(es, |es|)
  }

  /** The directory kept in memory, and the offsets of its records. */
  ghost predicate Listed(dir: seq<Byte>, offsets: seq<nat>, es: seq<Entry>) {
    dir == Directory(es, |es|) && offsets == Starts(es, 0)
  }

  /** Behind room for a header stand the name and what has been written of the entry, up to `end`. */
  ghost predicate Begun(file: seq<Byte>, at: nat, name: Name, comp: seq<Byte>, end: nat) {
    && at + LOCAL_SIZE + |name| + |comp| == end <= |file|
    && file[at + LOCAL_SIZE..at + LOCAL_SIZE + |name|] == name
    && file[at + LOCAL_SIZE + |name|..end] == comp
  }

  lemma {:induction false} KeptStill(file: seq<Byte>, size: nat, es: seq<Entry>, at: nat, b: seq<Byte>)
    requires Kept(file, size, es) && size <= at <= |file|
    ensures Kept(Overwrite(file, at, b), size, es)
  {
    hide Records, Overwrite;
    OverwriteBefore(file, at, b, 0, size);
    assert file[0..size] == file[..size] && Overwrite(file, at, b)[0..size] == Overwrite(file, at, b)[..size];
  }

  lemma {:induction false} BegunStill(file: seq<Byte>, at: nat, name: Name, comp: seq<Byte>, end: nat, b: seq<Byte>)
    requires Begun(file, at, name, comp, end)
    ensures Begun(Overwrite(file, end, b), at, name, comp, end)
  {
    hide Overwrite;
    OverwriteBefore(file, end, b, at + LOCAL_SIZE, at + LOCAL_SIZE + |name|);
    OverwriteBefore(file, end, b, at + LOCAL_SIZE + |name|, end);
  }

  lemma {:induction false} BegunMore(file: seq<Byte>, at: nat, name: Name, comp: seq<Byte>, end: nat, b: seq<Byte>)
    requires Begun(file, at, name, comp, end)
    ensures Begun(Overwrite(file, end, b), at, name, comp + b, end + |b|)
  {
    hide Overwrite;
    BegunStill(file, at, name, comp, end, b);
    OverwriteAt(file, end, b);
    var f, i := Overwrite(file, end, b), at + LOCAL_SIZE + |name|;
    assert f[i..end + |b|] == f[i..end] + f[end..end + |b|];
  }

  /** All of `b` was written. */
  ghost predicate Wrote(file: seq<Byte>, at: nat, b: seq<Byte>, f: seq<Byte>) {
    at <= |file| && f == Overwrite(file, at, b)
  }

  lemma {:induction false} WroteSize(file: seq<Byte>, at: nat, b: seq<Byte>, f: seq<Byte>)
    requires Wrote(file, at, b, f)
    ensures |f| >= |file| && |f| >= at + |b|
  {
  }

  lemma {:induction false} BegunFirst(file: seq<Byte>, at: nat, name: Name, f: seq<Byte>)
    requires Wrote(file, at + LOCAL_SIZE, name, f)
    ensures Begun(f, at, name, [], at + LOCAL_SIZE + |name|)
  {
    hide Overwrite;
    OverwriteAt(file, at + LOCAL_SIZE, name);
  }

  lemma {:induction false} RecordsPrefix(es: seq<Entry>, e: Entry, n: nat)
    requires n <= |es|
    ensures Records(es + [e], n) == Records(es, n) && Directory(es + [e], n) == Directory(es, n)
  {
    hide LocalRecord, CentralRecord;
    if n > 0 { RecordsPrefix(es, e, n - 1); }
  }

  lemma {:induction false} RecordsAppend(es: seq<Entry>, e: Entry)
    ensures Records(es + [e], |es| + 1) == Records(es, |es|) + LocalRecord(e)
    ensures Directory(es + [e], |es| + 1) == Directory(es, |es|) + CentralRecord(e, |Records(es, |es|)|)
  {
    hide LocalRecord, CentralRecord;
    RecordsPrefix(es, e, |es|);
    assert (es + [e])[|es|] == e;
  }

  /** With its header filled in, the entry is one more local record. */
  lemma {:induction false} KeptMore(file: seq<Byte>, size: nat, es: seq<Entry>, e: Entry, end: nat)
    requires Kept(file, size, es) && Begun(file, size, e.name, e.comp, end)
    ensures Kept(Overwrite(file, size, LocalHeader(HeadOf(e))), end, es + [e])
  {
    hide Overwrite, Records, LocalHeader, HeadOf;
    var h := LocalHeader(HeadOf(e));
    var f := Overwrite(file, size, h);
    KeptStill(file, size, es, size, h);
    OverwriteAt(file, size, h);
    OverwriteBehind(file, size, h, size + LOCAL_SIZE, size + LOCAL_SIZE + |e.name|);
    OverwriteBehind(file, size, h, size + LOCAL_SIZE + |e.name|, end);
    RecordsAppend(es, e);
    Joined(f, size, h, e.name, e.comp, end);
  }

  lemma {:induction false} Joined(f: seq<Byte>, size: nat, h: seq<Byte>, n: seq<Byte>, c: seq<Byte>, end: nat)
    requires size + |h| + |n| + |c| == end <= |f|
    requires f[size..size + |h|] == h && f[size + |h|..size + |h| + |n|] == n && f[size + |h| + |n|..end] == c
    ensures f[..end] == f[..size] + (h + n + c)
  {
  }

  lemma {:induction false} ListedMore(dir: seq<Byte>, offsets: seq<nat>, es: seq<Entry>, e: Entry, at: nat)
    requires Listed(dir, offsets, es) && at == |Records(es, |es|)|
    ensures Listed(dir + CentralRecord(e, at), offsets + [|dir|], es + [e])
  {
    hide Records, CentralRecord, Directory;
    RecordsAppend(es, e);
    var fs := es + [e];
    forall i | 0 <= i <= |es| ensures StartOf(fs, i) == StartOf(es, i) { RecordsPrefix(es, e, i); }
    hide StartOf;
    assert StartOf(es, |es|) == |dir| by { StartIs(es, |es|); }
    var a, b := Starts(fs, 0), Starts(es, 0);
    assert forall i :: 0 <= i < |es| ==> a[i] == b[i];
    assert a == b + [StartOf(fs, |es|)];
  }

  lemma {:induction false} StartIs(es: seq<Entry>, i: nat)
    requires i <= |es|
    ensures StartOf(es, i) == |Directory(es, i)|
  {
  }

  // ---- The archive ----

  /** Names are stored with forward slashes. */
  function Slashes(name: Name): (n: Name)
    ensures |n| == |name|
  {
    seq(|name|, i requires 0 <= i < |name| => if name[i] == 92 then 47 else name[i])
  }

  /** `crc` is the checksum of `data`. */
  ghost predicate Sums(crc: bv32, data: seq<Byte>) {
    crc == Checksums.Crc(0, Bytes8(data))
  }

  lemma {:induction false} SumsNothing()
    ensures Sums(0, [])
  {
    assert Bytes8([]) == [];
    hide Checksums.Inverse;
    Checksums.InverseTwice(0);
  }

  /** Checksumming goes on from where it stopped. */
  method AddToSum(crc: bv32, buf: seq<Byte>, ghost data: seq<Byte>) returns (c: bv32)
    requires Sums(crc, data)
    ensures Sums(c, data + buf)
  {
    hide Checksums.Crc, Bytes8;
    Bytes8Concat(data, buf);
    Checksums.CrcSplit(0, Bytes8(data), Bytes8(buf));
    c := Checksums.Crc32(crc, Bytes8(buf));
  }

  function Zeros(n: nat): (b: seq<Byte>)
    ensures |b| == n
  {
    seq(n, _ => 0)
  }

  /** Where the compressor's output goes next, and how much has come. */
  datatype AddState = AddState(ofs: nat, size: nat)

  /** The entry being written. */
  datatype Current = Current(name: Name, how: nat, compSize: nat, uncompSize: nat, crc: bv32, offset: nat,
      headerOffset: nat,
                             state: AddState, broken: bool)

  /** The entry's size and checksum are those of all bytes passed to its writes, and stored bytes are these bytes. */
  ghost predicate Tells(c: Current, level: nat, size: nat, data: seq<Byte>, comp: seq<Byte>, good: bool) {
    && c.name != [] && c.how == 0 && c.headerOffset == size
      && |comp| == (if level == 0 then c.compSize else c.state.size)
    && c.uncompSize == |data| && Sums(c.crc, data) && (level == 0 && good ==> comp == data)
  }

  function EndOf(c: Current, level: nat): (p: nat) {
    if level == 0 then c.offset else c.state.ofs
  }

  predicate Fits(at: nat, b: seq<Byte>, capacity: nat) {
    at + |b| <= capacity || b == []
  }

  /** The compressor's last output is taken. */
  predicate Finishes(c: Current, level: nat, out: seq<Byte>, capacity: nat) {
    level == 0 || (!c.broken && Fits(c.state.ofs, out, capacity))
  }

  /**
   * An entry that ends at `end` can be closed: offsets and directory stay below 2^32 and there is room for the header.
   */
  predicate Closable(end: nat, name: nat, at: nat, dir: nat, capacity: nat) {
    end <= 0xFFFF_FFFF && at + LOCAL_SIZE <= capacity && dir + CENTRAL_SIZE + name % 0x1_0000 <= 0xFFFF_FFFF
  }

  class Zip {
    const level: nat
    const capacity: nat     // the medium holds so many bytes; a write past them is cut short
    var file: seq<Byte>
    var archiveSize: nat
    var totalFiles: nat
    var centralDir: seq<Byte>
    var centralOffsets: seq<nat>
    var finalized: bool
    var entry: Option<Current>
    ghost var entries: seq<Entry>
    ghost var data: seq<Byte>   // the bytes of all writes to the open entry
    ghost var comp: seq<Byte>   // what stands for them in the file
    ghost var good: bool        // every write to it has succeeded

    /** The closed entries fill the file without gaps, and the directory lists them. */
    ghost predicate Core()
      reads this
    {
      && !finalized && Kept(file, archiveSize, entries) && Listed(centralDir, centralOffsets, entries)
      && totalFiles == |entries| <= 0xFFFF && archiveSize <= 0xFFFF_FFFF && |centralDir| <= 0xFFFF_FFFF
    }

    /** An entry is open behind the closed ones. */
    ghost predicate Writing()
      reads this
    {
      && Core() && totalFiles < 0xFFFF && entry.Some? && Tells(entry.value, level, archiveSize, data, comp, good)
      && Begun(file, archiveSize, entry.value.name, comp, EndOf(entry.value, level))
    }

    constructor (level: nat, capacity: nat)
      ensures Core() && entries == [] && entry == None && this.level == level && this.capacity == capacity
    {
      this.level, this.capacity := level, capacity;
      file, archiveSize, totalFiles, centralDir, centralOffsets, finalized, entry := [], 0, 0, [], [], false, None;
      entries, data, comp, good := [], [], [], false;
    }

    /** Writes as much as fits. */
    method Store(at: nat, b: seq<Byte>) returns (ok: bool)
      requires at <= |file|
      modifies this`file
      ensures ok <==> at + |b| <= capacity || b == []
      ensures ok ==> file == Overwrite(old(file), at, b)
      ensures !ok ==> exists n :: 0 <= n < |b| && file == Overwrite(old(file), at, b[..n])
    {
      hide Overwrite;
      var n := if at + |b| <= capacity then |b| else if at <= capacity then capacity - at else 0;
      file := Overwrite(file, at, b[..n]);
      ok := n == |b|;
      if ok { assert b[..n] == b; }
    }

    /** A write behind the closed entries leaves them as they are. */
    method StoreKept(at: nat, b: seq<Byte>) returns (ok: bool)
      requires Core() && archiveSize <= at <= |file|
      modifies this`file
      ensures Core() && (ok <==> at + |b| <= capacity || b == [])
      ensures ok ==> Wrote(old(file), at, b, file)
    {
      hide Overwrite, Kept, Listed;
      ghost var f := file;
      ok := Store(at, b);
      if ok {
        KeptStill(f, archiveSize, entries, at, b);
      } else {
        ghost var n :| 0 <= n < |b| && file == Overwrite(f, at, b[..n]);
        KeptStill(f, archiveSize, entries, at, b[..n]);
      }
    }

    /** Room for the header, and the name. */
    method PutName(name: Name) returns (ok: bool)
      requires Core() && name != []
      modifies this`file
      ensures Core() && (ok <==> archiveSize + LOCAL_SIZE + |name| <= capacity)
      ensures ok ==> Begun(file, archiveSize, name, [], archiveSize + LOCAL_SIZE + |name|)
    {
      hide Wrote, Kept, Listed, Begun;
      KeptSize(file, archiveSize, entries);
      ghost var f0 := file;
      var zeros := Zeros(LOCAL_SIZE);
      ok := StoreKept(archiveSize, zeros);
      if !ok { return; }
      WroteSize(f0, archiveSize, zeros, file);
      ghost var f1 := file;
      ok := StoreKept(archiveSize + LOCAL_SIZE, name);
      if ok { BegunFirst(f1, archiveSize, name, file); }
    }

    /** Begins an entry. Whatever happens, the closed entries stay. */
    method Open(entryname: Name) returns (ok: bool)
      requires Core()
      modifies this`file, this`entry, this`data, this`comp, this`good
      ensures Core()
      ensures ok <==>
        && entryname != [] && totalFiles != 0xFFFF
        && archiveSize + LOCAL_SIZE + CENTRAL_SIZE + |entryname| <= 0xFFFF_FFFF
        && archiveSize + LOCAL_SIZE + |entryname| <= capacity
      ensures ok ==>
        && Writing() && entry.value.name == Slashes(entryname) && data == [] && comp == [] && good
        && !entry.value.broken
      ensures !ok && entryname != [] ==> entry == None
      ensures entryname == [] ==> unchanged(this)
    {
      hide Kept, Listed, Begun, Sums;
      if entryname == [] { return false; }
      var name := Slashes(entryname);
      entry := None;
      data, comp, good := [], [], true;
      ok := totalFiles != 0xFFFF && archiveSize + LOCAL_SIZE + CENTRAL_SIZE + |entryname| <= 0xFFFF_FFFF;
      if ok { ok := PutName(name); }
      if ok {
        SumsNothing();
        var p := archiveSize + LOCAL_SIZE + |name|;
        entry := Some(Current(name, 0, 0, 0, 0, p, archiveSize, AddState(p, 0), false));
      }
    }

    /** Writes behind what there is of the entry. */
    method StoreEnd(b: seq<Byte>) returns (ok: bool)
      requires Writing()
      modifies this`file
      ensures Writing() && (ok <==> Fits(EndOf(entry.value, level), b, capacity))
      ensures ok ==> Begun(file, archiveSize, entry.value.name, comp + b, EndOf(entry.value, level) + |b|)
    {
      hide Overwrite, Kept, Listed, Begun, Tells;
      ghost var f, name := file, entry.value.name;
      var end := EndOf(entry.value, level);
      BegunSize(f, archiveSize, name, comp, end);
      ok := Store(end, b);
      if ok {
        KeptStill(f, archiveSize, entries, end, b);
        BegunStill(f, archiveSize, name, comp, end, b);
        BegunMore(f, archiveSize, name, comp, end, b);
      } else {
        ghost var n :| 0 <= n < |b| && file == Overwrite(f, end, b[..n]);
        KeptStill(f, archiveSize, entries, end, b[..n]);
        BegunStill(f, archiveSize, name, comp, end, b[..n]);
      }
    }

    /** The compressor's output, `out`, goes behind what came before; after a failure nothing more is taken. */
    method PutBuf(out: seq<Byte>) returns (ok: bool)
      requires Writing() && level > 0
      modifies this`file, this`entry, this`comp
      ensures Writing() && entry.value == old(entry.value).(state := entry.value.state, broken := !ok)
      ensures ok <==> !old(entry.value).broken && Fits(old(entry.value).state.ofs, out, capacity)
      ensures comp == if ok then old(comp) + out else old(comp)
      ensures ok ==> entry.value.state.ofs == old(entry.value).state.ofs + |out|
    {
      hide Kept, Listed, Begun, Sums;
      var c := entry.value;
      if c.broken { return false; }
      ok := StoreEnd(out);
      if ok {
        comp := comp + out;
        entry := Some(c.(state := AddState(c.state.ofs + |out|, c.state.size + |out|)));
      } else {
        entry := Some(c.(broken := true));
      }
    }

    /** Stored: the bytes themselves. */
    method WriteStored(buf: seq<Byte>, crc: bv32) returns (ok: bool)
      requires Writing() && level == 0 && Sums(crc, data + buf)
      modifies this`file, this`entry, this`data, this`comp, this`good
      ensures Writing() && entry.value.name == old(entry.value.name) && data == old(data) + buf
        && good == (old(good) && ok)
      ensures ok <==> Fits(old(entry.value).offset, buf, capacity)
      ensures ok ==> comp == old(comp) + buf && entry.value.broken == old(entry.value.broken)
    {
      hide Kept, Listed, Begun, Sums, Tells, Counted;
      ok := StoreEnd(buf);
      CountedBroken(entry.value, |buf|, crc, if ok then |buf| else 0);
      TellsStored(entry.value, archiveSize, data, comp, good, buf, crc, ok);
      entry := Some(Counted(entry.value, |buf|, crc, if ok then |buf| else 0));
      comp := if ok then comp + buf else comp;
      data, good := data + buf, good && ok;
    }

    /** Deflated: what the compressor puts out. */
    method WritePacked(buf: seq<Byte>, out: seq<Byte>, crc: bv32) returns (ok: bool)
      requires Writing() && level > 0 && Sums(crc, data + buf)
      modifies this`file, this`entry, this`data, this`comp, this`good
      ensures Writing() && entry.value.name == old(entry.value.name) && data == old(data) + buf
        && good == (old(good) && ok)
      ensures ok <==> !old(entry.value).broken && Fits(old(entry.value).state.ofs, out, capacity)
      ensures ok ==> comp == old(comp) + out && !entry.value.broken
    {
      hide Kept, Listed, Begun, Sums, Tells, Counted;
      ok := PutBuf(out);
      CountedBroken(entry.value, |buf|, crc, 0);
      TellsPacked(entry.value, level, archiveSize, data, comp, good, buf, crc, ok);
      entry := Some(Counted(entry.value, |buf|, crc, 0));
      data, good := data + buf, good && ok;
    }

    /** Adds bytes to the entry; `out` is what the compressor puts out for them. */
    method Write(buf: seq<Byte>, out: seq<Byte>) returns (ok: bool)
      requires Writing() && (buf == [] ==> out == [])
      modifies this`file, this`entry, this`data, this`comp, this`good
      ensures Writing() && entry.value.name == old(entry.value.name) && data == old(data) + buf
        && good == (old(good) && ok)
      ensures ok <==> buf == [] || (if level == 0 then Fits(old(entry.value).offset, buf, capacity)
        else !old(entry.value).broken && Fits(old(entry.value).state.ofs, out, capacity))
      ensures ok ==>
        comp == old(comp) + (if level == 0 then buf else out) && entry.value.broken == old(entry.value.broken)
    {
      hide Kept, Listed, Begun, Sums, Tells;
      if buf == [] {
        assert data + [] == data && comp + [] == comp;
        return true;
      }
      TellsSum(entry.value, level, archiveSize, data, comp, good);
      var crc := AddToSum(entry.value.crc, buf, data);
      if level == 0 { ok := WriteStored(buf, crc); } else { ok := WritePacked(buf, out, crc); }
    }

    /** Fills in the header, adds the record to the directory, and moves the end of the archive behind the entry. */
    method Seal(c: Current, time: nat, date: nat, ghost e: Entry) returns (ok: bool)
      requires Core() && totalFiles < 0xFFFF && c.headerOffset == archiveSize
        && Begun(file, archiveSize, c.name, e.comp, c.offset) && e.name == c.name
      requires HeadOf(e) == Head(c.how, time, date, Number(c.crc), c.compSize, c.uncompSize, |c.name|)
        && c.compSize == |e.comp|
      modifies this`file, this`centralDir, this`centralOffsets, this`totalFiles, this`archiveSize, this`entries
      ensures Core() && (ok ==> entries == old(entries) + [e] && archiveSize == c.offset)
      ensures !ok ==> entries == old(entries) && archiveSize == old(archiveSize)
      ensures ok <==> Closable(c.offset, |c.name|, old(archiveSize), |old(centralDir)|, capacity)
    {
      hide Overwrite, Kept, Listed, Begun, HeadOf, LocalHeader, CentralHeader;
      ghost var f := file;
      BegunSize(f, archiveSize, c.name, e.comp, c.offset);
      if c.compSize > 0xFFFF_FFFF || c.offset > 0xFFFF_FFFF { return false; }
      var h := Head(c.how, time, date, Number(c.crc), c.compSize, c.uncompSize, |c.name|);
      ok := StoreKept(c.headerOffset, LocalHeader(h));
      if !ok || |centralDir| + CENTRAL_SIZE + |c.name| % 0x1_0000 > 0xFFFF_FFFF { return false; }
      KeptMore(f, archiveSize, entries, e, c.offset);
      KeptRecords(f, archiveSize, entries);
      ListedMore(centralDir, centralOffsets, entries, e, archiveSize);
      centralOffsets := centralOffsets + [|centralDir|];
      centralDir := centralDir + (CentralHeader(h, archiveSize) + StoredName(c.name));
      totalFiles, archiveSize := totalFiles + 1, c.offset;
      entries := entries + [e];
    }

    /**
     * Ends the entry; `out` is what the compressor still puts out. If it cannot be completed the archive is as if it
     * had not been begun.
     */
    method Close(out: seq<Byte>, time: nat, date: nat) returns (ok: bool)
      requires Writing() && (level == 0 ==> out == [])
      modifies this
      ensures Core() && entry == None
      ensures !ok ==> entries == old(entries) && archiveSize == old(archiveSize)
      ensures ok ==>
        var how := if level == 0 then 0 else DEFLATED;
        entries == old(entries) + [Entry(old(entry.value.name), old(data), old(comp) + out, how, time, date)]
      ensures ok ==> archiveSize == old(archiveSize) + LOCAL_SIZE + |old(entry.value.name)| + |old(comp) + out|
      ensures ok <==>
        && Finishes(old(entry.value), level, out, capacity)
        && Closable(EndOf(old(entry.value), level) + |out|, |old(entry.value.name)|, old(archiveSize),
                    |old(centralDir)|, capacity)
    {
      hide Kept, Listed, Begun, Sums;
      ok := true;
      if level > 0 { ok := PutBuf(out); } else { assert comp + [] == comp; }
      var c := entry.value;
      entry := None;
      if !ok { return; }
      if level > 0 { c := c.(compSize := c.state.size, offset := c.state.ofs, how := DEFLATED); }
      ghost var e := Entry(c.name, data, comp, c.how, time, date);
      SumsNumber(c.crc, data);
      BegunSize(file, archiveSize, c.name, comp, c.offset);
      ok := Seal(c, time, date, e);
    }

    /** Writes the directory and the end record behind the entries. */
    method Finalize() returns (ok: bool)
      requires Core()
      modifies this`file, this`archiveSize, this`finalized
      ensures ok <==>
        && old(archiveSize) + |centralDir| + END_SIZE <= 0xFFFF_FFFF
        && old(archiveSize) + |centralDir| + END_SIZE <= capacity
      ensures ok ==> finalized && archiveSize <= |file| && Archive(file[..archiveSize], entries)
      ensures Kept(file, old(archiveSize), entries)
    {
      hide Wrote, Kept, Listed, Archive, EndRecord;
      ListedEmpty(centralDir, centralOffsets, entries);
      KeptSize(file, archiveSize, entries);
      if archiveSize + |centralDir| + END_SIZE > 0xFFFF_FFFF { return false; }
      ghost var size, f0 := archiveSize, file;
      if totalFiles > 0 {
        ok := StoreKept(archiveSize, centralDir);
        if !ok { return; }
      } else {
        WroteNothing(file, archiveSize);
      }
      ghost var f1 := file;
      WroteSize(f0, size, centralDir, f1);
      var at := if totalFiles > 0 then archiveSize else 0;
      var end := EndRecord(totalFiles, |centralDir|, at);
      ok := StoreKept(archiveSize + |centralDir|, end);
      archiveSize := archiveSize + |centralDir|;
      if !ok { return; }
      archiveSize := archiveSize + END_SIZE;
      finalized := true;
      WroteSize(f1, size + |centralDir|, end, file);
      Finished(f0, size, centralDir, centralOffsets, f1, end, file, entries);
    }
  }

  lemma {:induction false} WroteNothing(file: seq<Byte>, at: nat)
    requires at <= |file|
    ensures Wrote(file, at, [], file)
  {
    assert Overwrite(file, at, []) == file;
  }

  lemma {:induction false} ListedEmpty(dir: seq<Byte>, offsets: seq<nat>, es: seq<Entry>)
    requires Listed(dir, offsets, es)
    ensures es == [] ==> dir == []
  {
  }

  lemma {:induction false} WroteBehind(f0: seq<Byte>, size: nat, a: seq<Byte>, f1: seq<Byte>)
    requires Wrote(f0, size, a, f1)
    ensures size + |a| <= |f1| && f1[..size + |a|] == f0[..size] + a
  {
  }

  /** Records, directory and end record make an archive. */
  lemma {:induction false} Finished(f0: seq<Byte>, size: nat, dir: seq<Byte>, offsets: seq<nat>, f1: seq<Byte>,
      end: seq<Byte>, f2: seq<Byte>, es: seq<Entry>)
    requires Kept(f0, size, es) && Listed(dir, offsets, es) && |es| <= 0xFFFF && size + |dir| + END_SIZE <= 0xFFFF_FFFF
    requires Wrote(f0, size, dir, f1) && Wrote(f1, size + |dir|, end, f2)
      && end == EndRecord(|es|, |dir|, if es == [] then 0 else size)
    ensures size + |dir| + END_SIZE <= |f2| && Archive(f2[..size + |dir| + END_SIZE], es)
  {
    hide Records, Directory, EndRecord, Wrote, Starts;
    KeptRecords(f0, size, es);
    WroteBehind(f0, size, dir, f1);
    WroteBehind(f1, size + |dir|, end, f2);
  }

  lemma {:induction false} SumsNumber(crc: bv32, data: seq<Byte>)
    requires Sums(crc, data)
    ensures Number(crc) == CrcOf(data)
  {
  }

  lemma {:induction false} KeptRecords(file: seq<Byte>, size: nat, es: seq<Entry>)
    requires Kept(file, size, es)
    ensures size == |Records(es, |es|)|
  {
  }

  /** The entry after a write of `n` bytes of which `m` went straight to the file. */
  function Counted(c: Current, n: nat, crc: bv32, m: nat): (d: Current) {
    c.(uncompSize := c.uncompSize + n, crc := crc, offset := c.offset + m, compSize := c.compSize + m)
  }

  lemma {:induction false} CountedBroken(c: Current, n: nat, crc: bv32, m: nat)
    ensures Counted(c, n, crc, m).broken == c.broken
  {
  }

  lemma {:induction false} TellsSum(c: Current, level: nat, size: nat, data: seq<Byte>, comp: seq<Byte>, good: bool)
    requires Tells(c, level, size, data, comp, good)
    ensures Sums(c.crc, data)
  {
  }

  lemma {:induction false} TellsStored(c: Current, size: nat, data: seq<Byte>, comp: seq<Byte>, good: bool,
      buf: seq<Byte>, crc: bv32, ok: bool)
    requires Tells(c, 0, size, data, comp, good) && Sums(crc, data + buf)
    ensures var d := Counted(c, |buf|, crc, if ok then |buf| else 0);
      && Tells(d, 0, size, data + buf, if ok then comp + buf else comp, good && ok) && d.name == c.name
      && EndOf(d, 0) == EndOf(c, 0) + if ok then |buf| else 0
  {
    hide Sums;
  }

  lemma {:induction false} TellsPacked(c: Current, level: nat, size: nat, data: seq<Byte>, comp: seq<Byte>, good: bool,
      buf: seq<Byte>, crc: bv32, ok: bool)
    requires Tells(c, level, size, data, comp, good) && Sums(crc, data + buf) && level > 0
    ensures var d := Counted(c, |buf|, crc, 0);
      Tells(d, level, size, data + buf, comp, good && ok) && d.name == c.name && EndOf(d, level) == EndOf(c, level)
  {
    hide Sums;
  }

  lemma {:induction false} BegunSize(file: seq<Byte>, at: nat, name: Name, comp: seq<Byte>, end: nat)
    requires Begun(file, at, name, comp, end)
    ensures at <= end <= |file| && end == at + LOCAL_SIZE + |name| + |comp|
  {
  }

  lemma {:induction false} KeptSize(file: seq<Byte>, size: nat, es: seq<Entry>)
    requires Kept(file, size, es)
    ensures size <= |file|
  {
  }

  // ---- Runs ----

  lemma {:induction false} SameRecords(es: seq<Entry>, fs: seq<Entry>, n: nat)
    requires n <= |es| <= |fs| && es == fs[..|es|]
    ensures Records(fs, n) == Records(es, n)
  {
    hide LocalRecord;
    if n > 0 { SameRecords(es, fs, n - 1); }
  }

  /** While entries are only added, the bytes of the closed ones stay as they are. */
  lemma {:induction false} KeptPrefix(f: seq<Byte>, size: nat, es: seq<Entry>, f': seq<Byte>, size': nat,
      es': seq<Entry>)
    requires Kept(f, size, es) && Kept(f', size', es') && es <= es'
    ensures size <= size' && f'[..size] == f[..size]
  {
    hide Records;
    SameRecords(es, es', |es|);
    var rest := RecordsGrow(es', |es|, |es'|);
    var a, b := Records(es, |es|), Records(es', |es'|);
    assert b[..size] == a;
    assert f'[..size'][..size] == f'[..size];
  }

  datatype Op = OpenEntry(name: Name) | WriteEntry(buf: seq<Byte>, out: seq<Byte>) | CloseEntry(out: seq<Byte>,
      time: nat, date: nat)

  /** One operation; bytes are written and an entry closed only while one is open. */
  method Step(z: Zip, op: Op)
    requires z.Core() && (z.entry.Some? ==> z.Writing())
    modifies z
    ensures z.Core() && (z.entry.Some? ==> z.Writing()) && old(z.entries) <= z.entries
  {
    hide Kept, Listed, Begun, Tells;
    match op
    case OpenEntry(name) =>
      var ok := z.Open(name);
    case WriteEntry(buf, out) =>
      if z.entry.Some? { var ok := z.Write(buf, if buf == [] then [] else out); }
    case CloseEntry(out, time, date) =>
      if z.entry.Some? { var ok := z.Close(if z.level == 0 then [] else out, time, date); }
  }

  /** Over any run of operations, whatever fails, entries are only added and no byte of a closed entry changes. */
  method Run(z: Zip, ops: seq<Op>)
    requires z.Core() && (z.entry.Some? ==> z.Writing())
    modifies z
    ensures z.Core() && (z.entry.Some? ==> z.Writing()) && old(z.entries) <= z.entries
    ensures old(z.archiveSize) <= z.archiveSize && z.file[..old(z.archiveSize)] == old(z.file)[..old(z.archiveSize)]
  {
    hide Kept, Listed, Begun, Tells, Zip.Writing;
    ghost var f, size, es := z.file, z.archiveSize, z.entries;
    KeptSize(f, size, es);
    var i := 0;
    while i < |ops|
      invariant 0 <= i <= |ops| && z.Core() && (z.entry.Some? ==> z.Writing()) && es <= z.entries
    {
      Step(z, ops[i]);
      i := i + 1;
    }
    KeptSize(z.file, z.archiveSize, z.entries);
    KeptPrefix(f, size, es, z.file, z.archiveSize, z.entries);
  }
}
