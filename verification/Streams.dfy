/** Whole deflate streams: blocks one after the other, up to the last. */
module Streams {
  import opened Bits
  import opened Canonical
  import opened Blocks

  /** Decodes blocks on top of `h` until one is marked last. */
  ghost function DecodeStream(b: seq<bool>, h: seq<Byte>): (r: Decoded<seq<Byte>>)
    decreases |b|
  {
    var d := DecodeBlock(b, h);
    if !d.Done? then Stop(d)
    else if d.value.last then Done(d.value.data, d.rest)
    else DecodeStream(d.rest, d.value.data)
  }

  /**
   * Whatever follows, up to a whole number of bytes, `x` at bit position `at` is one block that turns `h` into `data`.
   */
  ghost predicate BlockIs(x: seq<bool>, at: nat, last: bool, h: seq<Byte>, data: seq<Byte>) {
    forall rest: seq<bool> :: Aligned(at + |x| + |rest|) ==> DecodeBlock(x + rest, h) == Done(Block(last, data), rest)
  }

  /** Whatever follows, the blocks `body` decode to `data` and decoding goes on behind them. */
  ghost predicate Carries(body: seq<bool>, data: seq<Byte>) {
    forall rest: seq<bool> :: Aligned(|body| + |rest|) ==> DecodeStream(body + rest, []) == DecodeStream(rest, data)
  }

  /** Whatever follows, `body` decodes to `data` and ends there. */
  ghost predicate Ends(body: seq<bool>, data: seq<Byte>) {
    forall rest: seq<bool> :: Aligned(|body| + |rest|) ==> DecodeStream(body + rest, []) == Done(data, rest)
  }

  lemma {:induction false} CarriesNothing()
    ensures Carries([], [])
  {
    forall rest: seq<bool> ensures DecodeStream([] + rest, []) == DecodeStream(rest, []) {
      assert [] + rest == rest;
    }
  }

  lemma {:induction false} DecodeNext(x: seq<bool>, at: nat, last: bool, h: seq<Byte>, data: seq<Byte>, rest: seq<bool>)
    requires BlockIs(x, at, last, h, data) && Aligned(at + |x| + |rest|)
    ensures DecodeStream(x + rest, h) == if last then Done(data, rest) else DecodeStream(rest, data)
  {
    hide DecodeBlock, Aligned;
    assert DecodeBlock(x + rest, h) == Done(Block(last, data), rest);
  }

  lemma {:induction false} CarriesBlock(body: seq<bool>, x: seq<bool>, h: seq<Byte>, data: seq<Byte>)
    requires Carries(body, h) && BlockIs(x, |body|, false, h, data)
    ensures Carries(body + x, data)
  {
    hide DecodeStream, BlockIs, Aligned;
    forall rest: seq<bool> | Aligned(|body + x| + |rest|)
      ensures DecodeStream(body + x + rest, []) == DecodeStream(rest, data) {
      Assoc(body, x, rest);
      assert |body| + |x + rest| == |body + x| + |rest| == |body| + |x| + |rest|;
      assert DecodeStream(body + (x + rest), []) == DecodeStream(x + rest, h);
      DecodeNext(x, |body|, false, h, data, rest);
    }
  }

  lemma {:induction false} EndsBlock(body: seq<bool>, x: seq<bool>, h: seq<Byte>, data: seq<Byte>)
    requires Carries(body, h) && BlockIs(x, |body|, true, h, data)
    ensures Ends(body + x, data)
  {
    hide DecodeStream, BlockIs, Aligned;
    forall rest: seq<bool> | Aligned(|body + x| + |rest|)
      ensures DecodeStream(body + x + rest, []) == Done(data, rest) {
      Assoc(body, x, rest);
      assert |body| + |x + rest| == |body + x| + |rest| == |body| + |x| + |rest|;
      assert DecodeStream(body + (x + rest), []) == DecodeStream(x + rest, h);
      DecodeNext(x, |body|, true, h, data, rest);
    }
  }
}
