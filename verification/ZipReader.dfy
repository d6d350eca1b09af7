/** The reader's index of an archive, and what it finds in the archives the writer makes. */
module ZipReader {
  import opened Bits
  import opened ZipNames
  import opened ZipRecords

  // ---- Reading a directory ----

  /** What the reader learns about an entry from its directory record. */
  datatype Stat = Stat(name: Name, how: nat, time: nat, date: nat, crc: nat, compSize: nat, size: nat, at: nat)

  /** The length of the record at `p` with its name, extra field and comment. */
  function RecordSize(dir: seq<Byte>, p: nat): (n: nat)
    requires p + CENTRAL_SIZE <= |dir|
    ensures n >= CENTRAL_SIZE
  {
    CENTRAL_SIZE + Read(dir, p + 28, 2) + Read(dir, p + 30, 2) + Read(dir, p + 32, 2)
  }

  /**
   * Sizes the reader refuses: a stored entry whose sizes differ, data from nothing, and the marks of larger archives.
   */
  predicate SizesRefused(stored: bool, size: nat, comp: nat) {
    (stored && size != comp) || (size != 0 && comp == 0) || size == 0xFFFF_FFFF || comp == 0xFFFF_FFFF
  }

  predicate GoodRecord(dir: seq<Byte>, p: nat, disk: nat, archive: nat) {
    && p + CENTRAL_SIZE <= |dir| && Read(dir, p, 4) == CENTRAL_SIG
    && !SizesRefused(Read(dir, p + 10, 4) == 0, Read(dir, p + 24, 4), Read(dir, p + 20, 4))
    && (Read(dir, p + 34, 2) == disk || Read(dir, p + 34, 2) == 1)
    && Read(dir, p + 42, 4) + LOCAL_SIZE + Read(dir, p + 20, 4) <= archive
    && p + RecordSize(dir, p) <= |dir|
  }

  datatype Option<T> = Some(value: T) | None

  /** The offsets of `n` records from `p` on, if all of them are good. */
  ghost function Index(dir: seq<Byte>, p: nat, n: nat, disk: nat, archive: nat): (r: Option<seq<nat>>)
    decreases n
  {
    if n == 0 then Some([])
    else if !GoodRecord(dir, p, disk, archive) then None
    else
      var rest := Index(dir, p + RecordSize(dir, p), n - 1, disk, archive);
      if rest.None? then None else Some([p] + rest.value)
  }

  /** The indexing loop. */
  method ReadIndex(dir: seq<Byte>, total: nat, disk: nat, archive: nat) returns (r: Option<seq<nat>>)
    ensures r == Index(dir, 0, total, disk, archive)
  {
    hide GoodRecord, RecordSize;
    ghost var goal := Index(dir, 0, total, disk, archive);
    var offsets: seq<nat> := [];
    var p: nat := 0;
    var i: nat := 0;
    assert goal.Some? ==> [] + goal.value == goal.value;
    while i < total
      invariant i <= total
      invariant var rest := Index(dir, p, total - i, disk, archive); goal == if rest.None? then None
        else Some(offsets + rest.value)
    {
      if !GoodRecord(dir, p, disk, archive) { return None; }
      Whole(dir, p, disk, archive);
      ghost var rest := Index(dir, p + RecordSize(dir, p), total - i - 1, disk, archive);
      if rest.Some? { Assoc(offsets, [p], rest.value); }
      offsets := offsets + [p];
      p := p + RecordSize(dir, p);
      i := i + 1;
    }
    assert offsets + [] == offsets;
    r := Some(offsets);
  }

  lemma {:induction false} Whole(dir: seq<Byte>, p: nat, disk: nat, archive: nat)
    requires GoodRecord(dir, p, disk, archive)
    ensures p + CENTRAL_SIZE <= |dir| && p + RecordSize(dir, p) <= |dir|
  {
  }

  /** The record at `p`, unpacked. */
  function ReadStat(dir: seq<Byte>, p: nat): (s: Stat)
    requires p + CENTRAL_SIZE <= |dir| && p + CENTRAL_SIZE + Read(dir, p + 28, 2) <= |dir|
  {
    Stat(dir[p + CENTRAL_SIZE..p + CENTRAL_SIZE + Read(dir, p + 28, 2)], Read(dir, p + 10, 2), Read(dir, p + 12, 2),
      Read(dir, p + 14, 2),
         Read(dir, p + 16, 4), Read(dir, p + 20, 4), Read(dir, p + 24, 4), Read(dir, p + 42, 4))
  }

  // ---- The directory the writer makes ----

  /** The record as its fields can hold it. */
  function StatOf(e: Entry, at: nat): (s: Stat) {
    Stat(StoredName(e.name), e.how % 0x1_0000, e.time % 0x1_0000, e.date % 0x1_0000, CrcOf(e.data),
         |e.comp| % 0x1_0000_0000, |e.data| % 0x1_0000_0000, at % 0x1_0000_0000)
  }

  /** A directory record in its place. */
  ghost predicate HasCentral(dir: seq<Byte>, p: nat, e: Entry, at: nat) {
    p + CENTRAL_SIZE + |e.name| % 0x1_0000 <= |dir| && dir[p..p + CENTRAL_SIZE] == CentralHeader(HeadOf(e), at)
    && dir[p + CENTRAL_SIZE..p + CENTRAL_SIZE + |e.name| % 0x1_0000] == StoredName(e.name)
  }

  /** The number in field `k` of a directory record. */
  lemma {:induction false} CentralField(dir: seq<Byte>, p: nat, e: Entry, at: nat, k: nat)
    requires HasCentral(dir, p, e, at) && k < 17
    ensures var o := Offset(CENTRAL_WIDTHS, k); var n := CENTRAL_WIDTHS[k];
      p + o + n <= |dir| && Read(dir, p + o, n) == Cut(CentralFields(HeadOf(e), at)[k], n)
  {
    CentralOffsets();
    hide Offset, Cut, CentralFields, Fields;
    ReadBack(dir, p, CentralFields(HeadOf(e), at), CENTRAL_WIDTHS, k);
  }

  lemma {:induction false} CentralHead(dir: seq<Byte>, p: nat, e: Entry, at: nat)
    requires HasCentral(dir, p, e, at)
    ensures Read(dir, p, 4) == CENTRAL_SIG && Read(dir, p + 34, 2) == 0
    ensures Read(dir, p + 28, 2) == |e.name| % 0x1_0000 && Read(dir, p + 30, 2) == 0 && Read(dir, p + 32, 2) == 0
  {
    hide Read, Cut, HasCentral, CrcOf, Offset;
    CentralOffsets();
    CutIs(CENTRAL_SIG);
    CutIs(0);
    CutIs(|e.name|);
    CentralField(dir, p, e, at, 0);
    CentralField(dir, p, e, at, 10);
    CentralField(dir, p, e, at, 11);
    CentralField(dir, p, e, at, 12);
    CentralField(dir, p, e, at, 13);
  }

  lemma {:induction false} CentralSizes(dir: seq<Byte>, p: nat, e: Entry, at: nat)
    requires HasCentral(dir, p, e, at)
    ensures Read(dir, p + 16, 4) == CrcOf(e.data) && Read(dir, p + 20, 4) == |e.comp| % 0x1_0000_0000
    ensures Read(dir, p + 24, 4) == |e.data| % 0x1_0000_0000 && Read(dir, p + 42, 4) == at % 0x1_0000_0000
  {
    hide Read, Cut, HasCentral, CrcOf, Offset;
    CentralOffsets();
    CutIs(CrcOf(e.data));
    CutIs(|e.comp|);
    CutIs(|e.data|);
    CutIs(at);
    CentralField(dir, p, e, at, 7);
    CentralField(dir, p, e, at, 8);
    CentralField(dir, p, e, at, 9);
    CentralField(dir, p, e, at, 16);
  }

  lemma {:induction false} HasRoom(dir: seq<Byte>, p: nat, e: Entry, at: nat)
    requires HasCentral(dir, p, e, at)
    ensures p + CENTRAL_SIZE <= |dir|
  {
  }

  lemma {:induction false} ReadWide(b: seq<Byte>, p: nat)
    requires p + 4 <= |b|
    ensures Read(b, p, 4) == Read(b, p, 2) + 0x1_0000 * Read(b, p + 2, 2)
  {
    hide ValueLE;
    assert b[p..p + 4] == b[p..p + 2] + b[p + 2..p + 4];
    ValueConcat(b[p..p + 2], b[p + 2..p + 4]);
  }

  lemma {:induction false} CentralMethod(dir: seq<Byte>, p: nat, e: Entry, at: nat)
    requires HasCentral(dir, p, e, at)
    ensures Read(dir, p + 10, 2) == e.how % 0x1_0000 && Read(dir, p + 12, 2) == e.time % 0x1_0000
      && Read(dir, p + 14, 2) == e.date % 0x1_0000
    ensures Read(dir, p + 10, 4) == e.how % 0x1_0000 + 0x1_0000 * (e.time % 0x1_0000)
  {
    hide Read, Cut, HasCentral, CrcOf, Offset;
    CentralOffsets();
    CutIs(e.how);
    CutIs(e.time);
    CutIs(e.date);
    CentralField(dir, p, e, at, 4);
    CentralField(dir, p, e, at, 5);
    CentralField(dir, p, e, at, 6);
    HasRoom(dir, p, e, at);
    ReadWide(dir, p + 10);
  }

  /** The record read back is the record written, as far as its fields hold it. */
  lemma {:induction false} StatBack(dir: seq<Byte>, p: nat, e: Entry, at: nat)
    requires HasCentral(dir, p, e, at)
    ensures p + CENTRAL_SIZE + Read(dir, p + 28, 2) <= |dir| && ReadStat(dir, p) == StatOf(e, at)
    ensures RecordSize(dir, p) == CENTRAL_SIZE + |e.name| % 0x1_0000
  {
    CentralHead(dir, p, e, at);
    CentralSizes(dir, p, e, at);
    CentralMethod(dir, p, e, at);
    hide Read, CrcOf, CentralHeader;
  }

  /** When the reader accepts the record of `e`. */
  predicate Recordable(e: Entry) {
    !SizesRefused(e.how % 0x1_0000 == 0 && e.time % 0x1_0000 == 0, |e.data| % 0x1_0000_0000, |e.comp| % 0x1_0000_0000)
  }

  lemma {:induction false} GoodIff(dir: seq<Byte>, p: nat, e: Entry, at: nat, archive: nat)
    requires HasCentral(dir, p, e, at) && at % 0x1_0000_0000 + LOCAL_SIZE + |e.comp| % 0x1_0000_0000 <= archive
    ensures GoodRecord(dir, p, 0, archive) <==> Recordable(e)
  {
    CentralHead(dir, p, e, at);
    CentralSizes(dir, p, e, at);
    CentralMethod(dir, p, e, at);
    hide Read, CrcOf, CentralHeader;
  }

  lemma {:induction false} CentralPlaced(a: seq<Byte>, e: Entry, at: nat, b: seq<Byte>)
    ensures HasCentral(a + CentralRecord(e, at) + b, |a|, e, at)
  {
    hide CentralHeader, StoredName;
    var h, n, d := CentralHeader(HeadOf(e), at), StoredName(e.name), a + CentralRecord(e, at) + b;
    assert d[|a|..|a| + CENTRAL_SIZE] == h;
    assert d[|a| + CENTRAL_SIZE..|a| + CENTRAL_SIZE + |n|] == n;
  }

  /** Every entry has its record in the directory, one behind the other. */
  lemma {:induction false} DirectoryAt(es: seq<Entry>, n: nat, i: nat)
    requires i < n <= |es|
    ensures Directory(es, i + 1) <= Directory(es, n) && |Directory(es, i + 1)|
      == |Directory(es, i)| + CENTRAL_SIZE + |es[i].name| % 0x1_0000
    ensures HasCentral(Directory(es, n), |Directory(es, i)|, es[i], |Records(es, i)|)
  {
    hide CentralRecord, HasCentral, Records;
    var rest := DirectoryGrows(es, i + 1, n);
    CentralPlaced(Directory(es, i), es[i], |Records(es, i)|, rest);
  }

  lemma {:induction false} DirectoryGrows(es: seq<Entry>, i: nat, n: nat) returns (rest: seq<Byte>)
    requires i <= n <= |es|
    ensures Directory(es, n) == Directory(es, i) + rest
    decreases n
  {
    hide CentralRecord, Records;
    if i == n {
      rest := [];
    } else {
      var r := DirectoryGrows(es, i, n - 1);
      var last := CentralRecord(es[n - 1], |Records(es, n - 1)|);
      rest := r + last;
      Assoc(Directory(es, i), r, last);
    }
  }

  lemma {:induction false} RecordsGrow(es: seq<Entry>, i: nat, n: nat) returns (rest: seq<Byte>)
    requires i <= n <= |es|
    ensures Records(es, n) == Records(es, i) + rest
    decreases n
  {
    hide LocalRecord;
    if i == n {
      rest := [];
    } else {
      var r := RecordsGrow(es, i, n - 1);
      var last := LocalRecord(es[n - 1]);
      rest := r + last;
      Assoc(Records(es, i), r, last);
    }
  }

  /** Every entry has its local record behind those before it. */
  lemma {:induction false} RecordsAt(es: seq<Entry>, n: nat, i: nat)
    requires i < n <= |es|
    ensures |Records(es, i)| + |LocalRecord(es[i])| <= |Records(es, n)|
    ensures Records(es, n)[|Records(es, i)|..|Records(es, i)| + |LocalRecord(es[i])|] == LocalRecord(es[i])
  {
    hide LocalRecord;
    var rest := RecordsGrow(es, i + 1, n);
    var a, b := Records(es, i), LocalRecord(es[i]);
    assert (a + b + rest)[|a|..|a| + |b|] == b;
  }

  ghost function StartOf(es: seq<Entry>, i: nat): (p: nat)
    requires i <= |es|
  {
    |Directory(es, i)|
  }

  /** The offsets of the records from number `i` on. */
  ghost function Starts(es: seq<Entry>, i: nat): (s: seq<nat>)
    requires i <= |es|
  {
    seq<nat>(|es| - i, j requires 0 <= j < |es| - i => StartOf(es, i + j))
  }

  lemma {:induction false} StartsStep(es: seq<Entry>, i: nat)
    requires i < |es|
    ensures Starts(es, i) == [StartOf(es, i)] + Starts(es, i + 1)
  {
    hide StartOf;
  }

  ghost predicate AllRecordable(es: seq<Entry>, i: nat) {
    forall j :: i <= j < |es| ==> Recordable(es[j])
  }

  lemma {:induction false} SmallOffsets(es: seq<Entry>, i: nat)
    requires i < |es| && |Records(es, |es|)| <= 0xFFFF_FFFF
    ensures |Records(es, i)| % 0x1_0000_0000 + LOCAL_SIZE + |es[i].comp| % 0x1_0000_0000 <= |Records(es, |es|)|
  {
    hide Records, LocalRecord;
    RecordsAt(es, |es|, i);
  }

  /**
   * The indexing loop goes through the directory the writer made, and accepts it exactly when it accepts each record.
   */
  lemma {:induction false} IndexBack(es: seq<Entry>, i: nat, archive: nat)
    requires i <= |es| && |Records(es, |es|)| <= 0xFFFF_FFFF && |Records(es, |es|)| <= archive
    ensures Index(Directory(es, |es|), |Directory(es, i)|, |es| - i, 0, archive) ==
      if AllRecordable(es, i) then Some(Starts(es, i)) else None
    decreases |es| - i
  {
    hide GoodRecord, Recordable, Directory, RecordSize, Records, HasCentral;
    if i < |es| {
      var dir := Directory(es, |es|);
      DirectoryAt(es, |es|, i);
      SmallOffsets(es, i);
      GoodIff(dir, |Directory(es, i)|, es[i], |Records(es, i)|, archive);
      StatBack(dir, |Directory(es, i)|, es[i], |Records(es, i)|);
      IndexBack(es, i + 1, archive);
      StartsStep(es, i);
      hide Starts;
      assert AllRecordable(es, i) <==> Recordable(es[i]) && AllRecordable(es, i + 1);
    } else {
      assert Starts(es, i) == [];
    }
  }

  // ---- Local headers ----

  /** Where the data of the entry at `at` starts, by its local header. */
  function DataStart(file: seq<Byte>, at: nat): (r: Option<nat>) {
    if at + LOCAL_SIZE > |file| || Read(file, at, 4) != LOCAL_SIG then None
    else Some(at + LOCAL_SIZE + Read(file, at + 26, 2) + Read(file, at + 28, 2))
  }

  lemma {:induction false} LocalBack(file: seq<Byte>, at: nat, e: Entry)
    requires at + LOCAL_SIZE <= |file| && file[at..at + LOCAL_SIZE] == LocalHeader(HeadOf(e))
    ensures DataStart(file, at) == Some(at + LOCAL_SIZE + |e.name| % 0x1_0000)
  {
    hide Read, Cut, CrcOf, Offset, Fields;
    LocalOffsets();
    CutIs(LOCAL_SIG);
    CutIs(|e.name|);
    CutIs(0);
    ReadBack(file, at, LocalFields(HeadOf(e)), LOCAL_WIDTHS, 0);
    ReadBack(file, at, LocalFields(HeadOf(e)), LOCAL_WIDTHS, 9);
    ReadBack(file, at, LocalFields(HeadOf(e)), LOCAL_WIDTHS, 10);
  }

  lemma {:induction false} ThreeParts(file: seq<Byte>, at: nat, a: seq<Byte>, b: seq<Byte>, c: seq<Byte>)
    requires at + |a| + |b| + |c| <= |file| && file[at..at + |a| + |b| + |c|] == a + b + c
    ensures file[at..at + |a|] == a && file[at + |a|..at + |a| + |b|] == b
      && file[at + |a| + |b|..at + |a| + |b| + |c|] == c
  {
    var n, r := |a| + |b| + |c|, a + b + c;
    assert a == r[0..|a|] && b == r[|a|..|a| + |b|] && c == r[|a| + |b|..n];
    Inside(file, at, at + n, 0, |a|);
    Inside(file, at, at + n, |a|, |a| + |b|);
    Inside(file, at, at + n, |a| + |b|, n);
  }

  lemma {:induction false} PrefixSlice(all: seq<Byte>, file: seq<Byte>, a: nat, b: nat)
    requires all <= file && a <= b <= |all|
    ensures file[a..b] == all[a..b]
  {
  }

  /** The local record of entry `i` is in the file. */
  lemma {:induction false} LocalPlaced(file: seq<Byte>, es: seq<Entry>, i: nat)
    requires i < |es| && Records(es, |es|) <= file
    ensures var at := |Records(es, i)|;
      && at + LOCAL_SIZE + |es[i].name| + |es[i].comp| <= |file|
      && file[at..at + LOCAL_SIZE] == LocalHeader(HeadOf(es[i]))
      && file[at + LOCAL_SIZE + |es[i].name|..at + LOCAL_SIZE + |es[i].name| + |es[i].comp|] == es[i].comp
  {
    hide Records, LocalHeader;
    RecordsAt(es, |es|, i);
    var at, e := |Records(es, i)|, es[i];
    PrefixSlice(Records(es, |es|), file, at, at + |LocalRecord(e)|);
    ThreeParts(file, at, LocalHeader(HeadOf(e)), e.name, e.comp);
  }

  /**
   * The reader finds the data of an entry where the writer put it, exactly when the name is shorter than 65536 bytes.
   */
  lemma {:induction false} DataFound(file: seq<Byte>, es: seq<Entry>, i: nat)
    requires i < |es| && Records(es, |es|) <= file
    ensures DataStart(file, |Records(es, i)|) == Some(|Records(es, i)| + LOCAL_SIZE + |es[i].name|) <==>
      |es[i].name| < 0x1_0000
  {
    hide Records, LocalHeader, DataStart;
    LocalPlaced(file, es, i);
    LocalBack(file, |Records(es, i)|, es[i]);
  }

  // ---- The end record ----

  datatype Info = Info(total: nat, size: nat, at: nat, disk: nat)

  /** The end record at `pos`, when its numbers agree with each other and with the archive. */
  function ReadEnd(file: seq<Byte>, pos: nat): (r: Option<Info>)
    ensures r.Some? ==> r.value.at + r.value.size <= |file|
  {
    if pos + END_SIZE > |file| || Read(file, pos, 4) != END_SIG
      || Read(file, pos + 10, 2) != Read(file, pos + 8, 2) then None else
    var total, disk, first := Read(file, pos + 10, 2), Read(file, pos + 4, 2), Read(file, pos + 6, 2);
    var size, at := Read(file, pos + 12, 4), Read(file, pos + 16, 4);
    if (disk != 0 || first != 0) && (disk != 1 || first != 1) then None
    else if size < total * CENTRAL_SIZE || at + size > |file| then None
    else Some(Info(total, size, at, disk))
  }

  lemma {:induction false} EndBack(file: seq<Byte>, pos: nat, total: nat, size: nat, at: nat)
    requires pos + END_SIZE <= |file| && file[pos..pos + END_SIZE] == EndRecord(total, size, at)
    requires total <= 0xFFFF && size <= 0xFFFF_FFFF && at <= 0xFFFF_FFFF && total * CENTRAL_SIZE <= size
      && at + size <= |file|
    ensures ReadEnd(file, pos) == Some(Info(total, size, at, 0))
  {
    hide Read, Cut, Offset, Fields;
    EndOffsets();
    CutIs(END_SIG);
    CutIs(0);
    CutIs(total);
    CutIs(size);
    CutIs(at);
    var vs := EndFields(total, size, at);
    ReadBack(file, pos, vs, END_WIDTHS, 0);
    ReadBack(file, pos, vs, END_WIDTHS, 1);
    ReadBack(file, pos, vs, END_WIDTHS, 2);
    ReadBack(file, pos, vs, END_WIDTHS, 3);
    ReadBack(file, pos, vs, END_WIDTHS, 4);
    ReadBack(file, pos, vs, END_WIDTHS, 5);
    ReadBack(file, pos, vs, END_WIDTHS, 6);
  }

  lemma {:induction false} DirectorySize(es: seq<Entry>, n: nat)
    requires n <= |es|
    ensures n * CENTRAL_SIZE <= |Directory(es, n)|
  {
    hide CentralRecord, Records;
    if n > 0 { DirectorySize(es, n - 1); }
  }

  // ---- The whole archive ----

  datatype Opened = Opened(dir: seq<Byte>, offsets: seq<nat>)

  /** What opening an archive for reading gives, its end record being at `pos`. */
  ghost function Contents(file: seq<Byte>, pos: nat): (r: Option<Opened>) {
    var end := ReadEnd(file, pos);
    if end.None? then None else
    var dir := file[end.value.at..end.value.at + end.value.size];
    var offsets := Index(dir, 0, end.value.total, end.value.disk, |file|);
    if offsets.None? then None else Some(Opened(dir, offsets.value))
  }

  method OpenArchive(file: seq<Byte>, pos: nat) returns (r: Option<Opened>)
    ensures r == Contents(file, pos)
  {
    hide ReadEnd, Index;
    var end := ReadEnd(file, pos);
    if end.None? { return None; }
    var dir := file[end.value.at..end.value.at + end.value.size];
    var offsets := ReadIndex(dir, end.value.total, end.value.disk, |file|);
    r := if offsets.None? then None else Some(Opened(dir, offsets.value));
  }

  /** Where the directory is said to be: an archive without entries has none. */
  function DirectoryAddress(es: seq<Entry>): (at: nat) {
    if es == [] then 0 else |Records(es, |es|)|
  }

  /** A finished archive: records, directory, end record. */
  ghost predicate Archive(file: seq<Byte>, es: seq<Entry>) {
    var all, dir := Records(es, |es|), Directory(es, |es|);
    |es| <= 0xFFFF && |file| <= 0xFFFF_FFFF && file == all + dir + EndRecord(|es|, |dir|, DirectoryAddress(es))
  }

  lemma {:induction false} PartsOf(file: seq<Byte>, all: seq<Byte>, dir: seq<Byte>, n: nat, at: nat)
    requires n <= 0xFFFF && |file| <= 0xFFFF_FFFF && file == all + dir + EndRecord(n, |dir|, at)
      && n * CENTRAL_SIZE <= |dir|
    requires at == |all| || (at == 0 && all == [] && dir == [])
    ensures all <= file && at + |dir| <= |file| && file[at..at + |dir|] == dir
      && ReadEnd(file, |all| + |dir|) == Some(Info(n, |dir|, at, 0))
  {
    hide ReadEnd, EndRecord;
    var end := EndRecord(n, |dir|, at);
    assert file[0..|file|] == file;
    ThreeParts(file, 0, all, dir, end);
    EndBack(file, |all| + |dir|, n, |dir|, at);
  }

  lemma {:induction false} EmptyArchive(es: seq<Entry>)
    ensures Directory(es, 0) == [] && (es == [] ==> Records(es, |es|) == [] && Directory(es, |es|) == [])
  {
  }

  lemma {:induction false} ArchiveParts(file: seq<Byte>, es: seq<Entry>)
    requires Archive(file, es)
    ensures Records(es, |es|) <= file && |file| <= 0xFFFF_FFFF
    ensures DirectoryAddress(es) + |Directory(es, |es|)| <= |file|
    ensures file[DirectoryAddress(es)..DirectoryAddress(es) + |Directory(es, |es|)|] == Directory(es, |es|)
    ensures ReadEnd(file, |Records(es, |es|)| + |Directory(es, |es|)|)
      == Some(Info(|es|, |Directory(es, |es|)|, DirectoryAddress(es), 0))
  {
    hide Records, Directory, ReadEnd, EndRecord;
    EmptyArchive(es);
    DirectorySize(es, |es|);
    PartsOf(file, Records(es, |es|), Directory(es, |es|), |es|, DirectoryAddress(es));
  }

  lemma {:induction false} ContentsIs(file: seq<Byte>, pos: nat, end: Info, dir: seq<Byte>)
    requires ReadEnd(file, pos) == Some(end) && end.at + end.size <= |file| && file[end.at..end.at + end.size] == dir
    ensures Contents(file, pos) == var r := Index(dir, 0, end.total, end.disk, |file|); if r.None? then None
      else Some(Opened(dir, r.value))
  {
    hide ReadEnd, Index;
  }

  /**
   * Opening a finished archive gives its entries, in order; it is refused exactly when one of them is not recordable.
   */
  lemma {:induction false} ContentsBack(file: seq<Byte>, es: seq<Entry>)
    requires Archive(file, es)
    ensures Contents(file, |Records(es, |es|)| + |Directory(es, |es|)|)
      == if AllRecordable(es, 0) then Some(Opened(Directory(es, |es|), Starts(es, 0))) else None
  {
    hide Archive, Records, Directory, ReadEnd, Index, AllRecordable, Starts, Contents, DirectoryAddress;
    EmptyArchive(es);
    ArchiveParts(file, es);
    var dir := Directory(es, |es|);
    ContentsIs(file, |Records(es, |es|)| + |dir|, Info(|es|, |dir|, DirectoryAddress(es), 0), dir);
    IndexBack(es, 0, |file|);
  }
}
