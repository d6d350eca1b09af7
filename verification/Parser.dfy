/** Turning the lookahead into LZ codes: greedy, or lazy with one match held back. */
module Parser {
  import opened Bits
  import opened LzTokens
  import opened Dictionary
  import LzBuffer

  /** What the flags of the compressor select. */
  datatype Options = Options(greedy: bool, runs: bool, raw: bool, filter: bool, probes0: nat, probes1: nat)

  predicate OptionsOk(o: Options) {
    o.probes0 >= 1 && o.probes1 >= 1
  }

  // ---- Tokens against the input ----

  lemma {:induction false} PlayPush(h: seq<Byte>, ts: seq<Token>, i: nat, t: Token)
    requires i <= |ts| && PlayableFrom(h, ts, i) && Playable(PlayFrom(h, ts, i), t)
    ensures PlayableFrom(h, ts + [t], i) && PlayFrom(h, ts + [t], i) == Play(PlayFrom(h, ts, i), t)
    decreases |ts| - i
  {
    hide Play, Playable;
    var us := ts + [t];
    if i == |ts| {
      assert us[i] == t;
      assert PlayableFrom(Play(h, t), us, i + 1);
      assert PlayFrom(Play(h, t), us, i + 1) == Play(h, t);
    } else {
      assert us[i] == ts[i];
      PlayPush(Play(h, ts[i]), ts, i + 1, t);
    }
  }

  /** A match that repeats the input, played on the input before it, gives the input after it. */
  lemma {:induction false} PlayRepeat(src: seq<Byte>, p: nat, dist: nat, len: nat)
    requires Repeats(src, p, dist, len) && TokenOk(Match(len, dist))
    ensures Playable(src[..p], Match(len, dist)) && Play(src[..p], Match(len, dist)) == src[..p + len]
  {
    CopyUnique(src[..p], len, dist, src[..p + len]);
  }

  lemma {:induction false} PlayByte(src: seq<Byte>, p: nat)
    requires p < |src|
    ensures Playable(src[..p], Lit(src[p])) && Play(src[..p], Lit(src[p])) == src[..p + 1]
  {
  }

  /** A match or literal held back one position behind the lookahead. */
  datatype Held = None | Held(lit: Byte, dist: nat, len: nat)

  ghost predicate HeldOk(src: seq<Byte>, look: nat, m: Held) {
    m.Held? ==>
      look >= 1 && look <= |src| && m.lit == src[look - 1] && 3 <= m.len < 128 && m.dist <= WINDOW
        && Repeats(src, look - 1, m.dist, m.len)
  }

  /** The codes recorded since `start` stand for the input from there to the lookahead, less a byte held back. */
  ghost predicate Parsed(src: seq<Byte>, start: nat, ts: seq<Token>, total: nat, look: nat, m: Held) {
    && look <= |src| && start + total + (if m.Held? then 1 else 0) == look && HeldOk(src, look, m)
    && PlayableFrom(src[..start], ts, 0) && PlayFrom(src[..start], ts, 0) == src[..start + total]
  }

  lemma {:induction false} ParsedGrow(src: seq<Byte>, more: seq<Byte>, start: nat, ts: seq<Token>, total: nat,
      look: nat, m: Held)
    requires Parsed(src, start, ts, total, look, m)
    ensures Parsed(src + more, start, ts, total, look, m)
  {
    hide PlayableFrom, PlayFrom;
    assert (src + more)[..start] == src[..start] && (src + more)[..start + total] == src[..start + total];
  }

  /** Recording the byte after what is parsed. */
  lemma {:induction false} ParseLit(src: seq<Byte>, start: nat, ts: seq<Token>, total: nat, m: Held)
    requires start + total < |src| && Parsed(src, start, ts, total, start + total + (if m.Held? then 1 else 0), m)
    ensures Parsed(src, start, ts + [Lit(src[start + total])], total + 1, start + total + 1, None)
  {
    hide PlayableFrom, PlayFrom, Play, Playable;
    PlayByte(src, start + total);
    PlayPush(src[..start], ts, 0, Lit(src[start + total]));
  }

  /** Recording a match after what is parsed. */
  lemma {:induction false} ParseMatch(src: seq<Byte>, start: nat, ts: seq<Token>, total: nat, m: Held, dist: nat,
      len: nat)
    requires Parsed(src, start, ts, total, start + total + (if m.Held? then 1 else 0), m)
    requires Repeats(src, start + total, dist, len) && TokenOk(Match(len, dist))
    ensures Parsed(src, start, ts + [Match(len, dist)], total + len, start + total + len, None)
  {
    hide PlayableFrom, PlayFrom, Play, Playable;
    PlayRepeat(src, start + total, dist, len);
    PlayPush(src[..start], ts, 0, Match(len, dist));
  }

  /** Holding a match back. */
  lemma {:induction false} ParseHold(src: seq<Byte>, start: nat, ts: seq<Token>, total: nat, dist: nat, len: nat)
    requires Parsed(src, start, ts, total, start + total, None) && start + total < |src|
    requires Repeats(src, start + total, dist, len) && 3 <= len < 128 && dist <= WINDOW
    ensures Parsed(src, start, ts, total, start + total + 1, Held(src[start + total], dist, len))
  {
    hide PlayableFrom, PlayFrom;
  }

  lemma {:induction false} ParsedNone()
    ensures Parsed([], 0, [], 0, 0, None)
  {
    var nothing: seq<Byte> := [];
    assert nothing[..0] == [];
  }

  lemma {:induction false} ParsedFacts(src: seq<Byte>, start: nat, ts: seq<Token>, total: nat, look: nat, m: Held)
    requires Parsed(src, start, ts, total, look, m)
    ensures start + total + (if m.Held? then 1 else 0) == look <= |src|
    ensures m.Held? ==> start + total < |src| && m.lit == src[start + total] && TokenOk(Match(m.len, m.dist))
    ensures m.Held? ==> Repeats(src, start + total, m.dist, m.len) && 3 <= m.len < 128
  {
  }

  class Parse {
    const d: Dict
    const z: LzBuffer.Codes
    const opts: Options
    var start: nat
    var savedLen: nat
    var savedDist: nat
    var savedLit: Byte

    function Saved(): (m: Held)
      reads this
    {
      if savedLen == 0 then None else Held(savedLit, savedDist, savedLen)
    }

    ghost predicate Apart()
      reads this, d, z
    {
      && z as object != d && z as object != this && d as object != this
      && {this, d, z} !! {d.dict as object, d.next, d.hash, z.buf, z.count0, z.count1}
      && {d.dict as object, d.next, d.hash} !! {z.buf as object, z.count0, z.count1}
    }

    /** Between two steps. */
    ghost predicate Valid()
      reads this, d, d.dict, d.next, d.hash, z, z.buf, z.count0, z.count1
    {
      && Apart() && OptionsOk(opts) && d.Valid() && z.Valid() && z.code <= LzBuffer.SIZE - 8
      && Parsed(d.src, start, z.ts, z.total, d.lookPos, Saved()) && (savedLen > 0 ==> savedLen - 1 <= d.lookSize)
    }

    constructor (o: Options)
      requires OptionsOk(o)
      ensures Valid() && opts == o && start == 0 && savedLen == 0 && d.src == [] && z.ts == [] && fresh(d) && fresh(z)
      ensures fresh(d.dict) && fresh(d.next) && fresh(d.hash) && fresh(z.buf) && fresh(z.count0) && fresh(z.count1)
    {
      hide Parsed, Window, LzBuffer.Open, LzBuffer.Counted, LzBuffer.Length;
      d := new Dict();
      z := new LzBuffer.Codes();
      opts := o;
      start, savedLen, savedDist, savedLit := 0, 0, 0, 0;
      new;
      ParsedNone();
    }

    /** The best match at the lookahead, or none; one shorter than the match held back is not looked for. */
    method Choose() returns (dist: nat, len: nat)
      requires OptionsOk(opts) && d.Valid() && (savedLen == 0 || 3 <= savedLen < 128)
      ensures dist > 0 ==> 3 <= len <= d.lookSize && dist <= d.dictSize && Repeats(d.src, d.lookPos, dist, len)
      ensures dist == 0 ==> len <= 2 || len == savedLen
    {
      hide Repeats, Window;
      dist, len := 0, if savedLen > 0 then savedLen else 2;
      if opts.runs || opts.raw {
        if d.dictSize > 0 && !opts.raw { dist, len := d.FindRun(); }
      } else {
        dist, len := d.FindMatch(len, if len >= 32 then opts.probes1 else opts.probes0);
      }
      if (len == 3 && dist >= 8192) || Slot(d.lookPos) == dist || (opts.filter && len <= 5) {
        dist, len := 0, 0;
      }
    }

    /** Records the literal that was held back, or the byte at the lookahead. */
    method Literal(lit: Byte)
      requires Apart() && d.Valid() && z.Valid() && z.code + 2 <= LzBuffer.SIZE
      requires Parsed(d.src, start, z.ts, z.total, start + z.total + (if Saved().Held? then 1 else 0), Saved())
      requires start + z.total < |d.src| && lit == d.src[start + z.total]
      modifies z, z.buf, z.count0, this`savedLen
      ensures Apart() && d.Valid() && z.Valid() && z.code <= old(z.code) + 2 && savedLen == 0
        && z.total == old(z.total) + 1
      ensures Parsed(d.src, start, z.ts, z.total, start + z.total, None)
    {
      hide Parsed, LzBuffer.Open, LzBuffer.Counted, LzBuffer.Length, Window;
      ParseLit(d.src, start, z.ts, z.total, Saved());
      z.RecordLiteral(lit);
      savedLen := 0;
    }

    /** Records a match at the end of what is parsed. */
    method Matched(len: nat, dist: nat)
      requires Apart() && d.Valid() && z.Valid() && z.code + 4 <= LzBuffer.SIZE
      requires Parsed(d.src, start, z.ts, z.total, start + z.total + (if Saved().Held? then 1 else 0), Saved())
      requires Repeats(d.src, start + z.total, dist, len) && TokenOk(Match(len, dist))
      modifies z, z.buf, z.count0, z.count1, this`savedLen
      ensures Apart() && d.Valid() && z.Valid() && z.code <= old(z.code) + 4 && savedLen == 0
        && z.total == old(z.total) + len
      ensures Parsed(d.src, start, z.ts, z.total, start + z.total, None)
    {
      hide Parsed, Repeats, LzBuffer.Open, LzBuffer.Counted, LzBuffer.Length, Window;
      ParseMatch(d.src, start, z.ts, z.total, Saved(), dist, len);
      z.RecordMatch(len, dist);
      savedLen := 0;
    }

    /** Holds a match back to see whether the next position has a longer one. */
    method Hold(len: nat, dist: nat)
      requires Apart() && d.Valid() && z.Valid() && d.lookSize > 0 && d.lookPos == start + z.total
      requires Parsed(d.src, start, z.ts, z.total, d.lookPos, None)
      requires Repeats(d.src, d.lookPos, dist, len) && 3 <= len < 128 && dist <= WINDOW
      modifies this`savedLen, this`savedDist, this`savedLit
      ensures Parsed(d.src, start, z.ts, z.total, d.lookPos + 1, Saved()) && savedLen == len
    {
      hide Parsed, Repeats, LzBuffer.Open, LzBuffer.Counted, LzBuffer.Length, Window;
      ParseHold(d.src, start, z.ts, z.total, dist, len);
      d.Reads(d.lookPos, 0);
      savedLit, savedDist, savedLen := d.dict[Slot(d.lookPos)], dist, len;
    }

    /** Decides between the match found and the one held back; returns how far to move. */
    method Decide(dist: nat, len: nat) returns (n: nat)
      requires Valid() && d.lookSize > 0
      requires dist > 0 ==> 3 <= len <= d.lookSize && dist <= d.dictSize && Repeats(d.src, d.lookPos, dist, len)
      requires dist == 0 ==> len <= 2 || len == savedLen
      modifies this`savedLen, this`savedDist, this`savedLit, z, z.buf, z.count0, z.count1
      ensures Apart() && d.Valid() && z.Valid() && z.code <= old(z.code) + 6 && 1 <= n <= d.lookSize
      ensures Parsed(d.src, start, z.ts, z.total, d.lookPos + n, Saved())
        && (savedLen > 0 ==> savedLen - 1 <= d.lookSize - n)
    {
      hide Parsed, Repeats, LzBuffer.Open, LzBuffer.Counted, LzBuffer.Length, Window;
      ParsedFacts(d.src, start, z.ts, z.total, d.lookPos, Saved());
      n := 1;
      if savedLen > 0 {
        if len > savedLen {
          Literal(savedLit);
          if len >= 128 {
            Matched(len, dist);
            n := len;
          } else {
            Hold(len, dist);
          }
        } else {
          n := savedLen - 1;
          Matched(savedLen, savedDist);
        }
      } else if dist == 0 {
        d.Reads(d.lookPos, 0);
        Literal(d.dict[Slot(d.lookPos)]);
      } else if opts.greedy || opts.runs || len >= 128 {
        Matched(len, dist);
        n := len;
      } else {
        Hold(len, dist);
      }
    }

    /** One step of the parser: at least one byte of the lookahead is used up. */
    method Step()
      requires Valid() && d.lookSize > 0
      modifies this`savedLen, this`savedDist, this`savedLit, z, z.buf, z.count0, z.count1, d`lookPos, d`lookSize,
        d`dictSize
      ensures Apart() && d.Valid() && z.Valid() && z.code <= old(z.code) + 6
      ensures Parsed(d.src, start, z.ts, z.total, d.lookPos, Saved()) && (savedLen > 0 ==> savedLen - 1 <= d.lookSize)
      ensures d.src == old(d.src) && d.lookPos > old(d.lookPos)
    {
      hide Parsed, Repeats, LzBuffer.Open, LzBuffer.Counted, LzBuffer.Length, Window;
      ParsedFacts(d.src, start, z.ts, z.total, d.lookPos, Saved());
      var dist, len := Choose();
      var n := Decide(dist, len);
      d.Advance(n);
    }

    /** Takes in more input. */
    method Fill(input: seq<Byte>) returns (n: nat)
      requires Valid()
      modifies d, d.dict, d.next, d.hash
      ensures Valid() && n == (if |input| < Dictionary.MAX_MATCH - old(d.lookSize) then |input|
        else Dictionary.MAX_MATCH - old(d.lookSize))
      ensures d.src == old(d.src) + input[..n] && d.lookSize == old(d.lookSize) + n && d.lookPos == old(d.lookPos)
    {
      hide Parsed, LzBuffer.Open, LzBuffer.Counted, LzBuffer.Length, Window;
      n := d.Fill(input);
      ParsedGrow(old(d.src), input[..n], start, z.ts, z.total, d.lookPos, Saved());
    }
  }
}
