/** Entry names: the case-folded order that the sorted index and the search share. */
module ZipNames {
  import opened Bits

  type Name = seq<Byte>

  function Lower(b: Byte): (c: Byte) {
    if 65 <= b <= 90 then b + 32 else b
  }

  function Fold(s: Name): (t: Name)
    ensures |t| == |s| && forall i :: 0 <= i < |s| ==> t[i] == Lower(s[i])
  {
    seq(|s|, i requires 0 <= i < |s| => Lower(s[i]))
  }

  /** Names that differ in case only. */
  ghost predicate Same(l: Name, r: Name) {
    Fold(l) == Fold(r)
  }

  /** The order of folded names: by the first byte that differs, and a name comes before its extensions. */
  predicate Before(l: Name, r: Name) {
    if r == [] then false
    else if l == [] then true
    else if Lower(l[0]) == Lower(r[0]) then Before(l[1..], r[1..])
    else Lower(l[0]) < Lower(r[0])
  }

  lemma {:induction false} SameStep(l: Name, r: Name)
    requires l != [] && r != []
    ensures Same(l, r) <==> Lower(l[0]) == Lower(r[0]) && Same(l[1..], r[1..])
  {
    var fl, fr := Fold(l), Fold(r);
    assert Fold(l[1..]) == fl[1..] && Fold(r[1..]) == fr[1..];
    if Lower(l[0]) == Lower(r[0]) && Same(l[1..], r[1..]) {
      assert fl == [fl[0]] + fl[1..] && fr == [fr[0]] + fr[1..];
    }
  }

  /** Of two names exactly one comes first, or they are the same. */
  lemma {:induction false} Trichotomy(l: Name, r: Name)
    ensures !(Before(l, r) && Before(r, l))
    ensures Same(l, r) <==> !Before(l, r) && !Before(r, l)
  {
    hide Same;
    if l != [] && r != [] {
      SameStep(l, r);
      if Lower(l[0]) == Lower(r[0]) { Trichotomy(l[1..], r[1..]); }
    } else {
      SameEmpty(l, r);
    }
  }

  lemma {:induction false} SameEmpty(l: Name, r: Name)
    requires l == [] || r == []
    ensures Same(l, r) <==> l == [] && r == []
  {
    assert |Fold(l)| == |l| && |Fold(r)| == |r|;
  }

  /** `l` does not come after `r`. */
  ghost predicate AtMost(l: Name, r: Name) {
    !Before(r, l)
  }

  lemma {:induction false} AtMostTransitive(a: Name, b: Name, c: Name)
    requires AtMost(a, b) && AtMost(b, c)
    ensures AtMost(a, c)
  {
    if a != [] && b != [] && c != [] && Lower(a[0]) == Lower(b[0]) == Lower(c[0]) {
      AtMostTransitive(a[1..], b[1..], c[1..]);
    }
  }

  lemma {:induction false} AtMostTotal(l: Name, r: Name)
    ensures AtMost(l, r) || AtMost(r, l)
  {
    hide Before, Same;
    Trichotomy(l, r);
  }

  /** The first position where the folded names differ or one of them ends. */
  method Mismatch(l: Name, r: Name) returns (i: nat)
    ensures i <= |l| && i <= |r| && (i < |l| && i < |r| ==> Lower(l[i]) != Lower(r[i]))
    ensures Before(l, r) == Before(l[i..], r[i..]) && Before(r, l) == Before(r[i..], l[i..])
  {
    i := 0;
    assert l[0..] == l && r[0..] == r;
    while i < |l| && i < |r| && Lower(l[i]) == Lower(r[i])
      invariant i <= |l| && i <= |r|
      invariant Before(l, r) == Before(l[i..], r[i..]) && Before(r, l) == Before(r[i..], l[i..])
    {
      assert l[i..][1..] == l[i + 1..] && r[i..][1..] == r[i + 1..];
      i := i + 1;
    }
  }

  /** The order test of the sort. */
  method Less(l: Name, r: Name) returns (b: bool)
    ensures b == Before(l, r)
  {
    var i := Mismatch(l, r);
    b := if i == |l| || i == |r| then |l| < |r| else Lower(l[i]) < Lower(r[i]);
  }

  /** A difference of two unsigned 32-bit numbers, taken as a signed one. */
  function Signed32(d: int): (v: int)
    requires -0x8000_0000 <= d < 0x8000_0000
    ensures v == d
  {
    var u := d % 0x1_0000_0000;
    if u >= 0x8000_0000 then u - 0x1_0000_0000 else u
  }

  /** The comparison of the search: its sign is the order, and it is zero exactly on names that differ in case only. */
  method Compare(l: Name, r: Name) returns (c: int)
    requires |l| <= 0xFFFF && |r| <= 0x8000_0000
    ensures (c < 0 <==> Before(l, r)) && (c > 0 <==> Before(r, l)) && (c == 0 <==> Same(l, r))
  {
    hide Same;
    Trichotomy(l, r);
    var i := Mismatch(l, r);
    c := if i == |l| || i == |r| then Signed32(|l| - |r|) else Lower(l[i]) - Lower(r[i]);
  }

  /** The equality test of the linear scan. */
  method StringEqual(a: Name, b: Name) returns (same: bool)
    requires |a| == |b|
    ensures same == Same(a, b)
  {
    var i := 0;
    while i < |a|
      invariant 0 <= i <= |a| && forall j :: 0 <= j < i ==> Lower(a[j]) == Lower(b[j])
    {
      if Lower(a[i]) != Lower(b[i]) {
        assert Fold(a)[i] != Fold(b)[i];
        return false;
      }
      i := i + 1;
    }
    same := true;
  }
}
