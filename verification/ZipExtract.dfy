/** Extraction of one entry to a callback, with any decompressor that keeps to its contract. */
module ZipExtract {
  import opened Bits
  import opened ZipRecords
  import opened ZipReader
  import opened ZipWriter

  datatype Status = NeedsMoreInput | HasMoreOutput | Complete | Broken

  /** What one call of the decompressor does: bytes used, bytes produced, and why it returned. */
  datatype Response = Response(used: nat, out: seq<Byte>, status: Status)

  /**
   * A decompressor on one run: its answer to call number `k`, given the input at hand, the room, and whether more input
   * follows.
   */
  type Decompressor = (nat, seq<Byte>, nat, bool) -> Response

  /**
   * It asks for input only when there is more and it has used what it got, and for room only when it has filled what it
   * had.
   */
  ghost predicate Keeps(r: Response, input: seq<Byte>, room: nat, more: bool) {
    && r.used <= |input| && |r.out| <= room
    && (r.status.NeedsMoreInput? ==> more && r.used == |input|)
    && (r.status.HasMoreOutput? ==> |r.out| == room)
  }

  ghost predicate Obeys(d: Decompressor) {
    forall k: nat, input: seq<Byte>, room: nat, more: bool :: room > 0 ==>
      Keeps(d(k, input, room, more), input, room, more)
  }

  /** What the callback is given. */
  datatype Chunk = Chunk(at: nat, bytes: seq<Byte>)

  function BytesOf(log: seq<Chunk>): (b: seq<Byte>) {
    if log == [] then [] else BytesOf(log[..|log| - 1]) + log[|log| - 1].bytes
  }

  /** Each chunk starts where the one before it ended, the first at zero. */
  ghost predicate Contiguous(log: seq<Chunk>) {
    forall i :: 0 <= i < |log| ==> log[i].at == |BytesOf(log[..i])|
  }

  lemma {:induction false} NextChunk(log: seq<Chunk>, c: Chunk)
    requires Contiguous(log) && c.at == |BytesOf(log)|
    ensures Contiguous(log + [c]) && BytesOf(log + [c]) == BytesOf(log) + c.bytes
  {
    var l := log + [c];
    assert l[..|log|] == log;
    hide BytesOf;
    forall i | 0 <= i < |l| ensures l[i].at == |BytesOf(l[..i])| {
      if i < |log| { assert l[..i] == log[..i]; }
    }
  }

  /** A call of the decompressor and its answer. */
  datatype Call = Call(input: seq<Byte>, room: nat, more: bool, r: Response)

  function Used(calls: seq<Call>): (n: nat) {
    if calls == [] then 0 else Used(calls[..|calls| - 1]) + calls[|calls| - 1].r.used
  }

  function Outs(calls: seq<Call>): (b: seq<Byte>) {
    if calls == [] then [] else Outs(calls[..|calls| - 1]) + calls[|calls| - 1].r.out
  }

  /** A call gets a piece of the compressed bytes behind those used so far, and the room up to the end of the window. */
  ghost predicate Proper(d: Decompressor, comp: seq<Byte>, k: nat, used: nat, made: nat, c: Call) {
    && c.r == d(k, c.input, c.room, c.more) && used <= |comp| && c.input <= comp[used..]
    && c.more == (used + |c.input| < |comp|) && c.room == DICT_SIZE - made % DICT_SIZE
  }

  /** All calls made on `comp` so far. */
  ghost predicate Traces(d: Decompressor, comp: seq<Byte>, calls: seq<Call>) {
    calls == [] ||
    (var before := calls[..|calls| - 1];
     Traces(d, comp, before) && Proper(d, comp, |before|, Used(before), |Outs(before)|, calls[|calls| - 1]))
  }

  lemma {:induction false} NextCall(d: Decompressor, comp: seq<Byte>, calls: seq<Call>, c: Call)
    requires Traces(d, comp, calls) && Proper(d, comp, |calls|, Used(calls), |Outs(calls)|, c)
    ensures Traces(d, comp, calls + [c]) && Used(calls + [c]) == Used(calls) + c.r.used
      && Outs(calls + [c]) == Outs(calls) + c.r.out
  {
    hide Proper;
    var l := calls + [c];
    assert l[..|l| - 1] == calls && l[|l| - 1] == c;
  }

  /** The next call of the loop. */
  lemma {:induction false} LoopCall(d: Decompressor, comp: seq<Byte>, calls: seq<Call>, avail: nat, remaining: nat)
    requires Traces(d, comp, calls) && Used(calls) + avail + remaining == |comp|
    ensures var pos, room := Used(calls), DICT_SIZE - |Outs(calls)| % DICT_SIZE;
      var c := Call(comp[pos..pos + avail], room, remaining > 0,
        d(|calls|, comp[pos..pos + avail], room, remaining > 0));
      Traces(d, comp, calls + [c]) && Used(calls + [c]) == pos + c.r.used && Outs(calls + [c]) == Outs(calls) + c.r.out
  {
    hide Traces, Used, Outs;
    var pos, room := Used(calls), DICT_SIZE - |Outs(calls)| % DICT_SIZE;
    assert comp[pos..pos + avail] <= comp[pos..];
    NextCall(d, comp, calls, Call(comp[pos..pos + avail], room, remaining > 0,
      d(|calls|, comp[pos..pos + avail], room, remaining > 0)));
  }

  lemma {:induction false} NoCalls(d: Decompressor, comp: seq<Byte>)
    ensures Traces(d, comp, []) && Used([]) == 0 && Outs([]) == []
  {
  }

  const DICT_SIZE := 32768
  const IO_SIZE := 65536

  /** Hands a chunk to the callback and adds it to the checksum. */
  method Deliver(log: seq<Chunk>, bytes: seq<Byte>, crc: bv32, accepts: nat -> bool)
      returns (log': seq<Chunk>, crc': bv32, ok: bool)
    requires Contiguous(log) && Sums(crc, BytesOf(log))
    ensures Contiguous(log') && BytesOf(log') == BytesOf(log) + bytes && Sums(crc', BytesOf(log'))
      && ok == accepts(|log|)
    ensures |log'| == |log| + 1
  {
    hide Sums, Contiguous;
    var c := Chunk(|BytesOf(log)|, bytes);
    NextChunk(log, c);
    ok := accepts(|log|);
    crc' := AddToSum(crc, bytes, BytesOf(log));
    log' := log + [c];
  }

  /** No read fails and the callback takes everything. */
  ghost predicate Willing(readable: nat -> bool, accepts: nat -> bool) {
    forall k: nat :: readable(k) && accepts(k)
  }

  /** The loop over a stored entry read from a file, in pieces of at most 64K. */
  method CopyStored(comp: seq<Byte>, readable: nat -> bool, accepts: nat -> bool)
      returns (ok: bool, log: seq<Chunk>, crc: bv32)
    ensures Contiguous(log) && Sums(crc, BytesOf(log)) && BytesOf(log) <= comp
    ensures ok ==> BytesOf(log) == comp
    ensures Willing(readable, accepts) ==> ok
  {
    hide Sums, Contiguous, BytesOf;
    Nothing();
    SumsNothing();
    log, crc := [], 0;
    var pos: nat := 0;
    assert comp[..0] == [];
    while pos < |comp|
      invariant pos <= |comp| && Contiguous(log) && Sums(crc, BytesOf(log)) && BytesOf(log) == comp[..pos]
    {
      var n := Min(Min(|comp|, IO_SIZE), |comp| - pos);
      if !readable(pos) { return false, log, crc; }
      assert comp[..pos + n] == comp[..pos] + comp[pos..pos + n];
      log, crc, ok := Deliver(log, comp[pos..pos + n], crc, accepts);
      pos := pos + n;
      if !ok { return; }
    }
    assert comp[..pos] == comp;
    ok := true;
  }

  lemma {:induction false} Nothing()
    ensures Contiguous([]) && BytesOf([]) == []
  {
  }

  /** Reads the next piece of the compressed bytes when the last one has been used. */
  method Refill(comp: seq<Byte>, pos: nat, avail: nat, remaining: nat, bufSize: nat, k: nat, readable: nat -> bool)
      returns (ok: bool, avail': nat, remaining': nat)
    requires pos + avail + remaining == |comp| && (remaining > 0 ==> bufSize > 0)
    ensures ok ==> pos + avail' + remaining' == |comp| && (avail' == 0 ==> remaining' == 0)
    ensures ok <==> avail > 0 || readable(k)
  {
    ok, avail', remaining' := true, avail, remaining;
    if avail == 0 {
      var n := Min(bufSize, remaining);
      ok := readable(k);
      avail', remaining' := n, remaining - n;
    }
  }

  predicate Running(s: Status) {
    s.NeedsMoreInput? || s.HasMoreOutput?
  }

  /** The last call answered with `s`; none before it ended the stream. */
  ghost predicate EndsWith(calls: seq<Call>, s: Status) {
    calls != [] && calls[|calls| - 1].r.status == s && forall i :: 0 <= i < |calls| - 1 ==> Running(calls[i].r.status)
  }

  /** Why decompression may fail: a read, the callback, the decompressor, or more output than declared. */
  ghost predicate Excused(calls: seq<Call>, chunks: nat, size: nat, readable: nat -> bool, accepts: nat -> bool) {
    !readable(|calls|) || (chunks > 0 && !accepts(chunks - 1)) || EndsWith(calls, Broken) || |Outs(calls)| > size
  }

  lemma {:induction false} EndsNext(calls: seq<Call>, c: Call)
    requires calls == [] || (EndsWith(calls, calls[|calls| - 1].r.status) && Running(calls[|calls| - 1].r.status))
    ensures EndsWith(calls + [c], c.r.status)
  {
  }

  /** Between two calls: everything put out has been delivered. */
  ghost predicate Midway(d: Decompressor, comp: seq<Byte>, pos: nat, k: nat, log: seq<Chunk>, crc: bv32,
      calls: seq<Call>) {
    && Contiguous(log) && Sums(crc, BytesOf(log)) && Traces(d, comp, calls) && Used(calls) == pos && |calls| == k
      && Outs(calls) == BytesOf(log)
  }

  ghost predicate Unfinished(calls: seq<Call>) {
    calls == [] || (EndsWith(calls, calls[|calls| - 1].r.status) && Running(calls[|calls| - 1].r.status))
  }

  /** One call of the decompressor; what it puts out goes to the callback. */
  method CallOnce(comp: seq<Byte>, size: nat, d: Decompressor, pos: nat, avail: nat, remaining: nat, k: nat,
      log: seq<Chunk>, crc: bv32,
                  accepts: nat -> bool, ghost calls: seq<Call>)
    returns (status: Status, used: nat, log': seq<Chunk>, crc': bv32, ghost calls': seq<Call>)
    requires Obeys(d) && Midway(d, comp, pos, k, log, crc, calls) && pos + avail + remaining == |comp|
      && (avail == 0 ==> remaining == 0)
    requires |BytesOf(log)| <= size && Unfinished(calls)
    ensures used <= avail && Midway(d, comp, pos + used, k + 1, log', crc', calls')
    ensures !status.Broken? ==>
      |BytesOf(log')| <= size && EndsWith(calls', status) && calls'[|calls'| - 1].r.status == status
    ensures status.Broken? ==> EndsWith(calls', Broken) || |Outs(calls')| > size || (|log'| > 0 && !accepts(|log'| - 1))
    ensures |BytesOf(log')| >= |BytesOf(log)| && (Running(status) ==> used > 0 || |BytesOf(log')| > |BytesOf(log)|)
  {
    hide Sums, Contiguous, BytesOf, Keeps, Obeys, Traces, Used, Outs, EndsWith, Proper;
    var room := DICT_SIZE - |BytesOf(log)| % DICT_SIZE;
    var input := comp[pos..pos + avail];
    var r := d(k, input, room, remaining > 0);
    Round(d, k, input, room, remaining > 0);
    LoopCall(d, comp, calls, avail, remaining);
    ghost var c := Call(input, room, remaining > 0, r);
    EndsNext(calls, c);
    calls' := calls + [c];
    status, used, log', crc' := r.status, r.used, log, crc;
    if r.out != [] {
      var ok;
      log', crc', ok := Deliver(log, r.out, crc, accepts);
      if !ok || |BytesOf(log')| > size { status := Broken; }
    } else {
      assert Outs(calls) + [] == Outs(calls);
    }
  }

  /**
   * The loop over a deflated entry. It ends because every round but the last uses input or fills the room it was given.
   * It succeeds unless there is a reason not to.
   */
  method Decompress(comp: seq<Byte>, size: nat, mem: bool, d: Decompressor, readable: nat -> bool, accepts: nat -> bool)
    returns (status: Status, log: seq<Chunk>, crc: bv32, ghost calls: seq<Call>)
    requires Obeys(d)
    ensures Contiguous(log) && Sums(crc, BytesOf(log)) && Traces(d, comp, calls) && BytesOf(log) == Outs(calls)
    ensures status.Complete? ==> |BytesOf(log)| <= size && EndsWith(calls, Complete)
    ensures status.Broken? ==> Excused(calls, |log|, size, readable, accepts)
    ensures !Running(status)
  {
    hide Sums, Contiguous, BytesOf, Keeps, Obeys, Traces, Used, Outs, EndsWith;
    Nothing();
    SumsNothing();
    NoCalls(d, comp);
    log, crc, calls := [], 0, [];
    var pos: nat, k: nat := 0, 0;
    var avail: nat, remaining: nat, bufSize: nat := if mem then |comp| else 0, if mem then 0 else |comp|,
      Min(|comp|, IO_SIZE);
    status := NeedsMoreInput;
    while Running(status)
      invariant Midway(d, comp, pos, k, log, crc, calls) && pos + avail + remaining == |comp|
        && (remaining > 0 ==> !mem && bufSize > 0)
      invariant Running(status) ==> Unfinished(calls)
      invariant !status.Broken? ==> |BytesOf(log)| <= size
      invariant status.Complete? ==> EndsWith(calls, Complete)
      invariant status.Broken? ==> Excused(calls, |log|, size, readable, accepts)
      decreases Running(status), avail + remaining + size - |BytesOf(log)|
    {
      var ok := true;
      if !mem { ok, avail, remaining := Refill(comp, pos, avail, remaining, bufSize, k, readable); }
      if !ok { return Broken, log, crc, calls; }
      var used;
      status, used, log, crc, calls := CallOnce(comp, size, d, pos, avail, remaining, k, log, crc, accepts, calls);
      avail, pos, k := avail - used, pos + used, k + 1;
    }
  }

  lemma {:induction false} Round(d: Decompressor, k: nat, input: seq<Byte>, room: nat, more: bool)
    requires Obeys(d) && room > 0
    ensures var r := d(k, input, room, more);
      && r.used <= |input| && |r.out| <= room && (r.status.NeedsMoreInput? ==> more && r.used == |input|)
        && (r.status.HasMoreOutput? ==> |r.out| == room)
  {
    assert Keeps(d(k, input, room, more), input, room, more);
  }

  /** What the directory says about the entry, as far as extraction looks at it. */
  datatype Request = Request(stat: Stat, bitFlag: nat, directory: bool, raw: bool, mem: bool)

  /** Entries that are neither encrypted nor patches, stored or deflated. */
  predicate Supported(q: Request) {
    q.bitFlag % 2 == 0 && q.bitFlag / 32 % 2 == 0 && (q.raw || q.stat.how == 0 || q.stat.how == DEFLATED)
  }

  /** The bytes that stand for the entry, by its local header. */
  function CompAt(file: seq<Byte>, q: Request): (r: Option<seq<Byte>>) {
    var p := DataStart(file, q.stat.at);
    if p.None? || p.value + q.stat.compSize > |file| then None else Some(file[p.value..p.value + q.stat.compSize])
  }

  /**
   * Extracts an entry. The callback always gets contiguous chunks from offset zero. Success on an entry that has
   * compressed bytes and is no directory means that they total the declared size and have the declared checksum; a
   * stored or raw entry is delivered byte for byte. When no read fails and the callback takes everything, success
   * depends on nothing else.
   */
  method Extract(file: seq<Byte>, q: Request, d: Decompressor, readable: nat -> bool, accepts: nat -> bool)
      returns (ok: bool, log: seq<Chunk>, ghost calls: seq<Call>)
    requires Obeys(d)
    ensures Contiguous(log)
    ensures q.stat.compSize == 0 || q.directory ==> ok && log == []
    ensures ok && q.stat.compSize > 0 && !q.directory ==> Supported(q) && CompAt(file, q).Some?
    ensures ok && q.stat.compSize > 0 && !q.directory && !q.raw ==>
      |BytesOf(log)| == q.stat.size && CrcOf(BytesOf(log)) == q.stat.crc
    ensures ok && q.stat.compSize > 0 && !q.directory && (q.raw || q.stat.how == 0) ==>
      BytesOf(log) == CompAt(file, q).value
    ensures ok && q.stat.compSize > 0 && !q.directory && !q.raw && q.stat.how != 0 ==> BytesOf(log) == Outs(calls)
    ensures Supported(q) && CompAt(file, q).Some? && q.stat.compSize > 0 && !q.directory ==>
      Traces(d, CompAt(file, q).value, calls)
    ensures
      && Willing(readable, accepts) && Supported(q) && CompAt(file, q).Some? && !q.raw && q.stat.how != 0
      && q.stat.compSize > 0 && !q.directory ==>
      (ok <==> EndsWith(calls, Complete) && |Outs(calls)| == q.stat.size && CrcOf(Outs(calls)) == q.stat.crc)
    ensures Willing(readable, accepts) && Supported(q) && CompAt(file, q).Some? && (q.raw || q.stat.how == 0) ==>
      (ok <==>
        || q.stat.compSize == 0 || q.directory || q.raw
        || (q.stat.compSize == q.stat.size && CrcOf(CompAt(file, q).value) == q.stat.crc))
  {
    hide Sums, Contiguous, BytesOf, Obeys, CompAt, CrcOf, Traces, Outs, EndsWith;
    Nothing();
    log, calls := [], [];
    if q.stat.compSize == 0 || q.directory { return true, [], []; }
    if !Supported(q) { return false, [], []; }
    var found := CompAt(file, q);
    if found.None? { return false, [], []; }
    CompSize(file, q);
    var comp, crc := found.value, 0;
    NoCalls(d, comp);
    if q.raw || q.stat.how == 0 {
      ok, log, crc := CopyEntry(comp, q.mem, readable, accepts);
    } else {
      var status;
      status, log, crc, calls := Decompress(comp, q.stat.size, q.mem, d, readable, accepts);
      ok := status.Complete?;
      EndsOnce(calls);
    }
    SumsNumber(crc, BytesOf(log));
    if ok && !q.raw { ok := |BytesOf(log)| == q.stat.size && Number(crc) == q.stat.crc; }
  }

  lemma {:induction false} EndsOnce(calls: seq<Call>)
    ensures !(EndsWith(calls, Complete) && EndsWith(calls, Broken))
  {
  }

  lemma {:induction false} CompSize(file: seq<Byte>, q: Request)
    requires CompAt(file, q).Some?
    ensures |CompAt(file, q).value| == q.stat.compSize
  {
  }

  /** A stored entry: in one piece from memory, or in pieces from a file. */
  method CopyEntry(comp: seq<Byte>, mem: bool, readable: nat -> bool, accepts: nat -> bool)
      returns (ok: bool, log: seq<Chunk>, crc: bv32)
    ensures Contiguous(log) && Sums(crc, BytesOf(log)) && BytesOf(log) <= comp
    ensures ok ==> BytesOf(log) == comp
    ensures Willing(readable, accepts) ==> ok
  {
    hide Sums, Contiguous, BytesOf;
    if mem {
      Nothing();
      SumsNothing();
      assert [] + comp == comp;
      log, crc, ok := Deliver([], comp, 0, accepts);
    } else {
      ok, log, crc := CopyStored(comp, readable, accepts);
    }
  }
}
