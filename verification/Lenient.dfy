/**
 * What the inflater makes of a stream. It reads the format, except that it takes a distance code without any symbols
 * for the distance 1 spelled with no bits. Where a symbol stands for nothing or a match reaches before the output, the
 * source goes on with table entries of zero or with whatever the window holds; the model stops there and says so. On
 * other departures, and on too few bits, nothing is said: that is `Failed` here.
 */
module Lenient {
  import opened Bits
  import opened Canonical
  import opened HuffTable
  import opened LzTokens
  import opened Blocks
  import opened Streams
  import CodeLens

  /**
   * How inflating ends: with all of it put out, with a failure of the source, or outside the format, where the source
   * goes on and the model does not.
   */
  datatype Ending = Good | Broken | Outside

  /** An ending that is due when `goal` is what there is to read, for the value `v` and the remaining bits `rest`. */
  ghost predicate Meets<T>(goal: Decoded<T>, e: Ending, v: T, rest: seq<bool>) {
    (goal.Done? ==> e.Good? && goal == Done(v, rest)) && (goal.Departed? ==> e.Outside?)
  }

  ghost function ReadDist(L1: seq<nat>, b: seq<bool>): (r: Decoded<nat>)
    requires |L1| == 32
    ensures r.Done? ==> |r.rest| <= |b|
  {
    if NoSymbols(L1) then Done(1, b) else if DecodeSym(L1, b) < 0 then Failed else DecodeDist(L1, b)
  }

  ghost function ReadToken(L0: seq<nat>, L1: seq<nat>, b: seq<bool>): (r: Decoded<Step>)
    requires |L0| == 288 && |L1| == 32
    ensures r.Done? ==> |r.rest| < |b|
  {
    var s := DecodeSym(L0, b);
    if s < 0 then Failed
    else if s <= 256 || s > 285 then DecodeToken(L0, L1, b)
    else
      var len := DecodeField(L0, s, LengthBase(s - 257), LengthExtra(s - 257), b);
      if !len.Done? then Failed else
      var dist := ReadDist(L1, len.rest);
      if !dist.Done? then Stop(dist) else Done(Tok(Match(len.value, dist.value)), dist.rest)
  }

  ghost function ReadBody(L0: seq<nat>, L1: seq<nat>, b: seq<bool>, h: seq<Byte>): (r: Decoded<seq<Byte>>)
    requires |L0| == 288 && |L1| == 32
    ensures r.Done? ==> |r.rest| <= |b|
    decreases |b|
  {
    var d := ReadToken(L0, L1, b);
    if !d.Done? then Stop(d)
    else if d.value.End? then Done(h, d.rest)
    else if !Playable(h, d.value.t) then Departed(TooFar)
    else ReadBody(L0, L1, d.rest, Play(h, d.value.t))
  }

  ghost function ReadType(kind: nat, b: seq<bool>, h: seq<Byte>): (r: Decoded<seq<Byte>>)
    ensures r.Done? ==> |r.rest| <= |b|
  {
    if kind == 0 then DecodeStored(b, h)
    else if kind == 1 then ReadBody(FixedLit(), FixedDist(), b, h)
    else if kind == 2 then
      var x := DecodeHeader(b);
      if !x.Done? then Failed else ReadBody(x.value.lit, x.value.dist, x.rest, h)
    else Failed
  }

  ghost function ReadBlock(b: seq<bool>, h: seq<Byte>): (r: Decoded<Block>)
    ensures r.Done? ==> |r.rest| < |b|
  {
    var t := Take(b, 3);
    if !t.Done? then Failed else
    var d := ReadType(t.value / 2, t.rest, h);
    if !d.Done? then Stop(d) else Done(Block(t.value % 2 == 1, d.value), d.rest)
  }

  ghost function ReadStream(b: seq<bool>, h: seq<Byte>): (r: Decoded<seq<Byte>>)
    decreases |b|
  {
    var d := ReadBlock(b, h);
    if !d.Done? then Stop(d)
    else if d.value.last then Done(d.value.data, d.rest)
    else ReadStream(d.rest, d.value.data)
  }

  // ---- A stream is read as what it is ----

  lemma {:induction false} DistAgrees(L1: seq<nat>, b: seq<bool>)
    requires |L1| == 32 && DecodeDist(L1, b).Done?
    ensures ReadDist(L1, b) == DecodeDist(L1, b)
  {
    hide PathOf, SymId;
  }

  lemma {:induction false} TokenAgrees(L0: seq<nat>, L1: seq<nat>, b: seq<bool>)
    requires |L0| == 288 && |L1| == 32 && DecodeToken(L0, L1, b).Done?
    ensures ReadToken(L0, L1, b) == DecodeToken(L0, L1, b)
  {
    hide DecodeDist, ReadDist, LengthBase, LengthExtra;
    var s := DecodeSym(L0, b);
    if 256 < s <= 285 {
      DistAgrees(L1, DecodeField(L0, s, LengthBase(s - 257), LengthExtra(s - 257), b).rest);
    }
  }

  lemma {:induction false} BodyAgrees(L0: seq<nat>, L1: seq<nat>, b: seq<bool>, h: seq<Byte>)
    requires |L0| == 288 && |L1| == 32 && DecodeBody(L0, L1, b, h).Done?
    ensures ReadBody(L0, L1, b, h) == DecodeBody(L0, L1, b, h)
    decreases |b|
  {
    hide DecodeToken, ReadToken, Play, Playable;
    var d := DecodeToken(L0, L1, b);
    TokenAgrees(L0, L1, b);
    if d.value.Tok? { BodyAgrees(L0, L1, d.rest, Play(h, d.value.t)); }
  }

  lemma {:induction false} BlockAgrees(b: seq<bool>, h: seq<Byte>)
    requires DecodeBlock(b, h).Done?
    ensures ReadBlock(b, h) == DecodeBlock(b, h)
  {
    hide DecodeBody, ReadBody, DecodeHeader, DecodeStored, FixedLit, FixedDist, Val;
    var t := Take(b, 3);
    if t.value / 2 == 1 {
      BodyAgrees(FixedLit(), FixedDist(), t.rest, h);
    } else if t.value / 2 == 2 {
      var x := DecodeHeader(t.rest);
      BodyAgrees(x.value.lit, x.value.dist, x.rest, h);
    }
  }

  lemma {:induction false} StreamAgrees(b: seq<bool>, h: seq<Byte>)
    requires DecodeStream(b, h).Done?
    ensures ReadStream(b, h) == DecodeStream(b, h)
    decreases |b|
  {
    hide DecodeBlock, ReadBlock;
    BlockAgrees(b, h);
    var d := DecodeBlock(b, h);
    if !d.value.last { StreamAgrees(d.rest, d.value.data); }
  }

  // ---- One step of reading ----

  lemma {:induction false} BodyStep(L0: seq<nat>, L1: seq<nat>, b: seq<bool>, h: seq<Byte>, e: Ending, step: Step,
      rest: seq<bool>)
    requires |L0| == 288 && |L1| == 32 && !ReadBody(L0, L1, b, h).Failed? && Meets(ReadToken(L0, L1, b), e, step, rest)
    ensures e.Outside? || (e.Good? && |rest| < |b|)
    ensures e.Outside? ==> ReadBody(L0, L1, b, h).Departed?
    ensures e.Good? && step.End? ==> ReadBody(L0, L1, b, h) == Done(h, rest)
    ensures e.Good? && step.Tok? ==>
      ReadBody(L0, L1, b, h) ==
        if Playable(h, step.t) then ReadBody(L0, L1, rest, Play(h, step.t)) else Departed(TooFar)
  {
    hide ReadToken, Play, Playable;
  }

  lemma {:induction false} TokenStep(L0: seq<nat>, L1: seq<nat>, b: seq<bool>, h: seq<Byte>)
    requires |L0| == 288 && |L1| == 32
    ensures ReadToken(L0, L1, b).Failed? ==> ReadBody(L0, L1, b, h).Failed?
  {
    hide ReadToken, Play, Playable;
  }

  lemma {:induction false} BlockStep(b: seq<bool>, h: seq<Byte>, v: nat, b1: seq<bool>)
    requires !ReadBlock(b, h).Failed?
    requires Take(b, 3).Done? ==> Take(b, 3) == Done(v, b1)
    ensures |b1| < |b| && !ReadType(v / 2, b1, h).Failed?
    ensures ReadBlock(b, h).Departed? <==> ReadType(v / 2, b1, h).Departed?
    ensures ReadType(v / 2, b1, h).Done? ==>
      ReadBlock(b, h) == Done(Block(v % 2 == 1, ReadType(v / 2, b1, h).value), ReadType(v / 2, b1, h).rest)
  {
    hide Take, ReadType;
  }

  lemma {:induction false} StreamStep(b: seq<bool>, h: seq<Byte>)
    requires !ReadStream(b, h).Failed?
    ensures !ReadBlock(b, h).Failed? && (ReadBlock(b, h).Departed? ==> ReadStream(b, h).Departed?)
    ensures ReadBlock(b, h).Done? ==>
      && |ReadBlock(b, h).rest| < |b|
      && ReadStream(b, h) == (var d := ReadBlock(b, h); if d.value.last then Done(d.value.data, d.rest)
        else ReadStream(d.rest, d.value.data))
  {
    hide ReadBlock;
  }
}
