/**
 * The inflater's output window: a buffer that the caller empties and the output wraps around in. A match is copied by
 * words, by threes or byte by byte; whichever way, the output grows by the same bytes.
 */
module OutWindow {
  import opened Bits
  import opened LzTokens

  /** The last `n` bytes of the output are in their places. */
  ghost predicate Ring(out: seq<Byte>, h: seq<Byte>, n: nat) {
    |out| == n > 0 && forall p: nat :: p < |h| && |h| <= p + n ==> out[Place(p, n)] == h[p]
  }

  function Place(p: int, n: nat): (i: nat)
    requires n > 0
    ensures i < n
  {
    p % n
  }

  lemma {:induction false} NotMultiple(d: nat, n: nat, k: int)
    requires 0 < d < n
    ensures d != n * k
  {
    if k <= 0 { Negative(n, k); } else { Positive(n, k); }
  }

  lemma {:induction false} Negative(n: nat, k: int)
    requires k <= 0
    ensures n * k <= 0
  {
  }

  lemma {:induction false} Positive(n: nat, k: int)
    requires k >= 1
    ensures n * k >= n
  {
  }

  lemma {:induction false} PlacesDiffer(p: nat, q: nat, n: nat)
    requires n > 0 && p < q < p + n
    ensures Place(p, n) != Place(q, n)
  {
    NotMultiple(q - p, n, q / n - p / n);
    Quotients(p, q, n);
  }

  lemma {:induction false} Quotients(p: int, q: int, n: nat)
    requires n > 0
    ensures p % n == q % n ==> q - p == n * (q / n - p / n)
  {
    Distribute(n, q / n, p / n);
  }

  lemma {:induction false} Distribute(n: int, a: int, b: int)
    ensures n * (a - b) == n * a - n * b
  {
  }

  /** A number written with a remainder in range has that remainder. */
  lemma {:induction false} Remainder(x: int, n: nat, q: int, r: nat)
    requires x == n * q + r && r < n
    ensures x % n == r
  {
    var k := x / n;
    assert x == n * k + x % n;
    Distribute(n, q, k);
    var d := x % n - r;
    assert d == n * (q - k);
    if d > 0 { NotMultiple(d, n, q - k); } else if d < 0 { Distribute(n, k, q); NotMultiple(-d, n, k - q); }
  }

  /** Places move on by one, and wrap. */
  lemma {:induction false} PlaceNext(p: int, n: nat)
    requires n > 0
    ensures Place(p + 1, n) == if Place(p, n) + 1 == n then 0 else Place(p, n) + 1
  {
    var q, r := p / n, p % n;
    assert p == n * q + r;
    if r + 1 == n {
      Distribute(n, q + 1, q);
      Remainder(p + 1, n, q + 1, 0);
    } else {
      Remainder(p + 1, n, q, r + 1);
    }
  }

  lemma {:induction false} RingPut(out: seq<Byte>, h: seq<Byte>, n: nat, b: Byte)
    requires Ring(out, h, n)
    ensures Ring(out[Place(|h|, n) := b], h + [b], n)
  {
    hide Place;
    var o, g := out[Place(|h|, n) := b], h + [b];
    forall p: nat | p < |g| && |g| <= p + n ensures o[Place(p, n)] == g[p] {
      if p < |h| { PlacesDiffer(p, |h|, n); }
    }
  }

  lemma {:induction false} RingRead(out: seq<Byte>, h: seq<Byte>, n: nat, dist: nat)
    requires Ring(out, h, n) && 1 <= dist <= |h| && dist <= n
    ensures out[Place(|h| - dist, n)] == h[|h| - dist]
  {
    hide Place;
    var p: nat := |h| - dist;
    assert p < |h| && |h| <= p + n;
  }

  /** One more byte of a copy. */
  lemma {:induction false} CopyOne(h0: seq<Byte>, len: nat, dist: nat)
    requires 1 <= dist <= |h0|
    ensures Copy(h0, len + 1, dist) == Copy(h0, len, dist) + [Copy(h0, len, dist)[|h0| + len - dist]]
  {
    var a, b := Copy(h0, len, dist), Copy(h0, len + 1, dist);
    CopyUnique(h0, len, dist, b[..|h0| + len]);
    assert b == a + [b[|h0| + len]];
    assert b[|h0| + len] == b[|h0| + len - dist];
  }

  /** Congruent positions stay congruent. */
  lemma {:induction false} PlaceShift(a: int, b: int, d: int, n: nat)
    requires n > 0 && Place(a, n) == Place(b, n)
    ensures Place(a + d, n) == Place(b + d, n)
  {
    Quotients(b, a, n);
    var k := a / n - b / n;
    var q, r := (b + d) / n, (b + d) % n;
    assert b + d == n * q + r;
    Distribute(n, q, -k);
    Remainder(a + d, n, q + k, r);
  }

  /** What waits in the window is the end of the output. */
  lemma {:induction false} Waiting(out: seq<Byte>, h: seq<Byte>, n: nat, cur: nat, i: nat)
    requires Ring(out, h, n) && i < cur <= n && cur - i <= |h| && Place(cur, n) == Place(|h|, n)
    ensures out[i] == h[|h| - (cur - i)]
  {
    PlaceShift(cur, |h|, i - cur, n);
    var p: nat := |h| - (cur - i);
    assert Place(i, n) == i by { Remainder(i, n, 0, i); }
    hide Place;
    assert p < |h| && |h| <= p + n;
  }

  class Sink {
    const out: array<Byte>
    var cur: nat
    var from: nat
    var taken: seq<Byte>
    ghost var h: seq<Byte>

    /** What the caller has taken and what waits in the window are the whole output. */
    ghost predicate Valid()
      reads this, out
    {
      && Ring(out[..], h, out.Length) && from <= cur <= out.Length && Place(cur, out.Length) == Place(|h|, out.Length)
      && |taken| + (cur - from) == |h| && taken == h[..|taken|]
    }

    constructor (size: nat)
      requires size > 0
      ensures Valid() && h == [] && taken == [] && fresh(out) && out.Length == size
    {
      out := new Byte[size];
      cur, from, taken, h := 0, 0, [], [];
    }

    /** The caller takes what waits. */
    method Take()
      requires Valid()
      modifies this`from, this`taken
      ensures Valid() && taken == h && from == cur
    {
      hide Ring, Place;
      forall i | from <= i < cur ensures out[i] == h[|h| - (cur - i)] { Waiting(out[..], h, out.Length, cur, i); }
      assert out[from..cur] == h[|taken|..];
      taken := taken + out[from..cur];
      from := cur;
    }

    /** When the window is full the caller takes it, and the output goes on at its start. */
    method MakeRoom()
      requires Valid()
      modifies this`from, this`taken, this`cur
      ensures Valid() && cur < out.Length && cur == Place(|h|, out.Length)
        && (old(cur) < out.Length ==> cur == old(cur))
    {
      hide Ring;
      if cur >= out.Length {
        Take();
        Remainder(cur, out.Length, 1, 0);
        Remainder(0, out.Length, 0, 0);
        cur, from := 0, 0;
      }
      Remainder(cur, out.Length, 0, cur);
    }

    /** Writes a byte where there is room. */
    method Put(b: Byte)
      requires Valid() && cur < out.Length
      modifies this`cur, this`h, out
      ensures Valid() && h == old(h) + [b] && cur == old(cur) + 1
    {
      hide Ring;
      Remainder(cur, out.Length, 0, cur);
      RingPut(out[..], h, out.Length, b);
      PlaceShift(cur, |h|, 1, out.Length);
      ghost var was := out[..];
      out[cur] := b;
      assert out[..] == was[Place(|h|, out.Length) := b];
      h := h + [b];
      cur := cur + 1;
    }

    /** A literal. */
    method PutByte(b: Byte)
      requires Valid()
      modifies this, out
      ensures Valid() && h == old(h) + [b]
    {
      hide Ring, Place;
      MakeRoom();
      Put(b);
    }

    /** A run of bytes that fits. */
    method PutBytes(s: seq<Byte>)
      requires Valid() && cur + |s| <= out.Length
      modifies this`cur, this`h, out
      ensures Valid() && h == old(h) + s
    {
      hide Ring, Place;
      var i := 0;
      while i < |s|
        invariant 0 <= i <= |s| && Valid() && cur == old(cur) + i && h == old(h) + s[..i]
      {
        Put(s[i]);
        assert s[..i + 1] == s[..i] + [s[i]];
        i := i + 1;
      }
      assert s[..|s|] == s;
    }

    /** The next byte of a copy, found at `i`. */
    method CopyFrom(i: nat, dist: nat)
      requires Valid() && cur < out.Length && 1 <= dist <= |h| && dist <= out.Length
        && i == Place(|h| - dist, out.Length)
      modifies this`cur, this`h, out
      ensures Valid() && h == old(h) + [old(h)[|old(h)| - dist]] && cur == old(cur) + 1
    {
      hide Ring, Place;
      RingRead(out[..], h, out.Length, dist);
      Put(out[i]);
    }

    /** Byte by byte, wrapping and letting the caller empty the window as often as need be. */
    method CopySlow(len: nat, dist: nat)
      requires Valid() && 1 <= dist <= |h| && dist <= out.Length
      modifies this, out
      ensures Valid() && h == Copy(old(h), len, dist)
    {
      hide Ring, Place, Copy;
      ghost var h0 := h;
      CopyNone(h0, dist);
      var at: int := cur;
      var k := 0;
      while k < len
        invariant 0 <= k <= len && Valid() && h == Copy(h0, k, dist) && |h| == |h0| + k
        invariant Place(at, out.Length) == Place(|h|, out.Length)
      {
        MakeRoom();
        PlaceShift(at, |h|, 0 - dist, out.Length);
        CopyOne(h0, k, dist);
        PlaceShift(at, |h|, 1, out.Length);
        CopyFrom(Place(at - dist, out.Length), dist);
        at := at + 1;
        k := k + 1;
      }
    }

    /** `k` bytes of the copy are done, and the next of the `rem` left is read at `s`, none of them past the end. */
    ghost predicate Copying(h0: seq<Byte>, k: nat, rem: nat, s: nat, dist: nat)
      reads this, out
    {
      && Valid() && 1 <= dist <= |h0| && dist <= out.Length && h == Copy(h0, k, dist) && |h| == |h0| + k
      && cur + rem <= out.Length && s + rem <= out.Length && (rem > 0 ==> s == Place(|h| - dist, out.Length))
    }

    method CopyNext(ghost h0: seq<Byte>, ghost k: nat, ghost rem: nat, s: nat, ghost dist: nat)
      requires Copying(h0, k, rem, s, dist) && rem > 0
      modifies this`cur, this`h, out
      ensures Copying(h0, k + 1, rem - 1, s + 1, dist)
    {
      hide Ring, Place, Copy;
      CopyOne(h0, k, dist);
      PlaceNext(|h| - dist, out.Length);
      RingRead(out[..], h, out.Length, dist);
      Put(out[s]);
    }

    /** A 32-bit move: the four bytes are all read before any is written. */
    method CopyFour(ghost h0: seq<Byte>, ghost k: nat, ghost rem: nat, s: nat, ghost dist: nat)
      requires Copying(h0, k, rem, s, dist) && rem >= 4 && dist >= 4
      modifies this`cur, this`h, out
      ensures Copying(h0, k + 4, rem - 4, s + 4, dist)
    {
      hide Ring, Place, Copy;
      var a, b, c, d := out[s], out[s + 1], out[s + 2], out[s + 3];
      ghost var g := h;
      AheadOf(out[..], h, out.Length, dist, s);
      CopyOne(h0, k, dist);
      CopyOne(h0, k + 1, dist);
      CopyOne(h0, k + 2, dist);
      CopyOne(h0, k + 3, dist);
      Put(a);
      Put(b);
      Put(c);
      Put(d);
      if rem > 4 { PlaceRun(|g| - dist, out.Length, s, 4); }
    }

    /** Eight bytes at a time. */
    method CopyEights(ghost h0: seq<Byte>, n: nat, s0: nat, dist: nat) returns (s: nat, rem: nat)
      requires Copying(h0, 0, n, s0, dist) && 9 <= n <= dist
      modifies this`cur, this`h, out
      ensures s == s0 + (n - rem) && rem == n % 8 && Copying(h0, n - rem, rem, s, dist)
    {
      hide Ring, Place, Copy;
      s, rem := s0, n;
      while rem >= 8
        invariant 0 <= rem <= n && s == s0 + (n - rem) && (n - rem) % 8 == 0 && Copying(h0, n - rem, rem, s, dist)
      {
        CopyFour(h0, n - rem, rem, s, dist);
        CopyFour(h0, n - rem + 4, rem - 4, s + 4, dist);
        s, rem := s + 8, rem - 8;
      }
    }

    /** Three at a time, then the one or two left. */
    method CopyThrees(ghost h0: seq<Byte>, ghost n: nat, rem0: nat, s0: nat, dist: nat)
      requires rem0 <= n && Copying(h0, n - rem0, rem0, s0, dist)
      modifies this`cur, this`h, out
      ensures Copying(h0, n, 0, s0 + rem0, dist)
    {
      hide Ring, Place, Copy;
      var s, rem := s0, rem0;
      while rem > 2
        invariant 0 <= rem <= rem0 && s == s0 + (rem0 - rem) && Copying(h0, n - rem, rem, s, dist)
      {
        CopyNext(h0, n - rem, rem, s, dist);
        CopyNext(h0, n - rem + 1, rem - 1, s + 1, dist);
        CopyNext(h0, n - rem + 2, rem - 2, s + 2, dist);
        s, rem := s + 3, rem - 3;
      }
      if rem > 0 {
        CopyNext(h0, n - rem, rem, s, dist);
        if rem > 1 { CopyNext(h0, n - rem + 1, rem - 1, s + 1, dist); }
      }
    }

    /** Copies a match; every path gives the same output. */
    method CopyMatch(len: nat, dist: nat)
      requires Valid() && 3 <= len && 1 <= dist <= |h| && dist <= out.Length
      modifies this, out
      ensures Valid() && h == Copy(old(h), len, dist)
    {
      hide Ring, Copy;
      ghost var h0 := h;
      PlaceShift(cur, |h|, 0 - dist, out.Length);
      CopyNone(h0, dist);
      var s := Place(cur - dist, out.Length);
      if (if cur > s then cur else s) + len > out.Length {
        CopySlow(len, dist);
      } else {
        var rem := len;
        if len >= 9 && len <= dist { s, rem := CopyEights(h0, len, s, dist); }
        CopyThrees(h0, len, rem, s, dist);
      }
    }
  }

  /** Places of a stretch that does not wrap. */
  lemma {:induction false} PlaceRun(p: int, n: nat, s: nat, k: nat)
    requires n > 0 && s == Place(p, n) && s + k < n
    ensures Place(p + k, n) == s + k
  {
    hide Place;
    if k > 0 {
      PlaceRun(p, n, s, k - 1);
      PlaceNext(p + (k - 1), n);
    }
  }

  /** Bytes that a copy will need and that are already there. */
  lemma {:induction false} AheadOf(out: seq<Byte>, h: seq<Byte>, n: nat, dist: nat, s: nat)
    requires Ring(out, h, n) && 4 <= dist <= |h| && dist <= n && s == Place(|h| - dist, n) && s + 4 <= n
    ensures out[s] == h[|h| - dist] && out[s + 1] == h[|h| - dist + 1] && out[s + 2] == h[|h| - dist + 2]
      && out[s + 3] == h[|h| - dist + 3]
  {
    hide Place;
    RingRead(out, h, n, dist);
    PlaceRun(|h| - dist, n, s, 1);
    RingRead(out, h, n, dist - 1);
    PlaceRun(|h| - dist, n, s, 2);
    RingRead(out, h, n, dist - 2);
    PlaceRun(|h| - dist, n, s, 3);
    RingRead(out, h, n, dist - 3);
  }

  lemma {:induction false} CopyNone(h: seq<Byte>, dist: nat)
    requires 1 <= dist <= |h|
    ensures Copy(h, 0, dist) == h
  {
  }
}
