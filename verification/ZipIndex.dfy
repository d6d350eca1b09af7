/** The sorted index of an archive: heap sort by folded name, and binary search against the linear scan. */
module ZipIndex {
  import opened Bits
  import opened ZipNames

  /** The file numbered `x` does not come after the one numbered `y`. */
  ghost predicate Le(names: seq<Name>, x: nat, y: nat) {
    x < |names| && y < |names| && AtMost(names[x], names[y])
  }

  ghost predicate Within(s: seq<nat>, n: nat) {
    forall i :: 0 <= i < |s| ==> s[i] < n
  }

  lemma {:induction false} LeTransitive(names: seq<Name>, x: nat, y: nat, z: nat)
    requires Le(names, x, y) && Le(names, y, z)
    ensures Le(names, x, z)
  {
    hide AtMost;
    AtMostTransitive(names[x], names[y], names[z]);
  }

  lemma {:induction false} LeTotal(names: seq<Name>, x: nat, y: nat)
    requires x < |names| && y < |names|
    ensures Le(names, x, y) || Le(names, y, x)
    ensures Le(names, x, x)
  {
    hide AtMost;
    AtMostTotal(names[x], names[y]);
    AtMostTotal(names[x], names[x]);
  }

  function Parent(c: int): (p: int) {
    (c - 1) / 2
  }

  lemma {:induction false} Children(p: int, c: int)
    ensures Parent(c) == p <==> c == 2 * p + 1 || c == 2 * p + 2
  {
  }

  /** The child `c` is in order with its parent. */
  ghost predicate Under(names: seq<Name>, s: seq<nat>, c: int) {
    0 <= Parent(c) < c < |s| && Le(names, s[c], s[Parent(c)])
  }

  /** Below `lo` nothing is said; from there on every child up to `hi`, except those of `hole`, is in order. */
  ghost predicate HeapBut(names: seq<Name>, s: seq<nat>, lo: int, hi: int, hole: int) {
    forall c :: 0 < c < hi && Parent(c) >= lo && Parent(c) != hole ==> Under(names, s, c)
  }

  ghost predicate Heap(names: seq<Name>, s: seq<nat>, lo: int, hi: int) {
    HeapBut(names, s, lo, hi, -1)
  }

  /** The children of the hole are in order with its parent. */
  ghost predicate Bridged(names: seq<Name>, s: seq<nat>, lo: int, hi: int, hole: int) {
    hole > lo ==> forall c :: 0 < c < hi && Parent(c) == hole ==>
      0 <= Parent(hole) < |s| && c < |s| && Le(names, s[c], s[Parent(hole)])
  }

  /** Nothing but the order of the first `hi` changes. */
  ghost predicate Rearranged(s: seq<nat>, t: seq<nat>, hi: int) {
    |s| == |t| && 0 <= hi <= |s| && multiset(s[..hi]) == multiset(t[..hi]) && s[hi..] == t[hi..]
  }

  function Swapped(s: seq<nat>, i: nat, j: nat): (t: seq<nat>)
    requires i < |s| && j < |s|
  {
    s[i := s[j]][j := s[i]]
  }

  lemma {:induction false} SwapRearranges(s: seq<nat>, t: seq<nat>, i: nat, j: nat, hi: int)
    requires Rearranged(s, t, hi) && i < hi && j < hi
    ensures Rearranged(s, Swapped(t, i, j), hi)
  {
    var u := Swapped(t, i, j);
    assert u[hi..] == t[hi..];
    assert u[..hi] == Swapped(t[..hi], i, j);
  }

  lemma {:induction false} StillWithin(s: seq<nat>, t: seq<nat>, hi: int, n: nat)
    requires Rearranged(s, t, hi) && Within(s, n)
    ensures Within(t, n)
  {
    forall i | 0 <= i < |t| ensures t[i] < n {
      if i < hi {
        assert t[i] in multiset(t[..hi]);
        assert t[i] in s[..hi];
      } else {
        assert t[i] == t[hi..][i - hi] == s[hi..][i - hi];
      }
    }
  }

  /** The larger child moves up into the hole. */
  lemma {:induction false} SiftStep(names: seq<Name>, s: seq<nat>, lo: int, hi: int, root: nat, child: nat)
    requires 0 <= lo <= root < child < hi <= |s| && Parent(child) == root && Within(s, |names|)
    requires HeapBut(names, s, lo, hi, root) && Bridged(names, s, lo, hi, root)
    requires forall c :: 0 < c < hi && Parent(c) == root ==> Le(names, s[c], s[child])
    requires Le(names, s[root], s[child])
    ensures HeapBut(names, Swapped(s, root, child), lo, hi, child)
      && Bridged(names, Swapped(s, root, child), lo, hi, child)
  {
    hide Le;
    var t := Swapped(s, root, child);
    forall c | 0 < c < hi && Parent(c) >= lo && Parent(c) != child ensures Under(names, t, c) {
      Children(Parent(c), c);
      if Parent(c) == root {
        assert t[root] == s[child];
        assert t[c] == if c == child then s[root] else s[c];
      } else if c == root {
        assert Under(names, s, c);
        assert Le(names, s[child], s[Parent(root)]);
      } else {
        assert Under(names, s, c);
      }
    }
    forall c | 0 < c < hi && Parent(c) == child ensures Le(names, t[c], t[Parent(child)]) {
      Children(child, c);
      assert Under(names, s, c);
    }
  }

  /** When the root is in order with its children there is no hole. */
  lemma {:induction false} SiftDone(names: seq<Name>, s: seq<nat>, lo: int, hi: int, root: nat)
    requires 0 <= lo <= root && hi <= |s| && HeapBut(names, s, lo, hi, root)
    requires forall c :: 0 < c < hi && Parent(c) == root ==> Le(names, s[c], s[root])
    ensures Heap(names, s, lo, hi)
  {
    hide Le;
    forall c | 0 < c < hi && Parent(c) >= lo ensures Under(names, s, c) {
      Children(Parent(c), c);
    }
  }

  /** Which child to compare the root with. */
  method LargerChild(names: seq<Name>, a: array<nat>, root: nat, hi: nat) returns (child: nat)
    requires hi <= a.Length && 2 * root + 1 < hi && Within(a[..], |names|)
    ensures root < child < hi && Parent(child) == root
    ensures forall c :: 0 < c < hi && Parent(c) == root ==> Le(names, a[c], a[child])
  {
    hide Le;
    child := 2 * root + 1;
    Children(root, child);
    assert forall i :: 0 <= i < a.Length ==> a[..][i] < |names|;
    LeTotal(names, a[child], a[child]);
    if child + 1 < hi {
      Children(root, child + 1);
      LeTotal(names, a[child], a[child + 1]);
      LeTotal(names, a[child + 1], a[child + 1]);
      var b := Less(names[a[child]], names[a[child + 1]]);
      LessLe(names, a[child], a[child + 1]);
      if b { child := child + 1; }
    }
    forall c | 0 < c < hi && Parent(c) == root ensures Le(names, a[c], a[child]) { Children(root, c); }
  }

  lemma {:induction false} LessLe(names: seq<Name>, x: nat, y: nat)
    requires x < |names| && y < |names|
    ensures Before(names[x], names[y]) ==> Le(names, x, y)
    ensures !Before(names[x], names[y]) ==> Le(names, y, x)
  {
    hide Before, Same;
    Trichotomy(names[x], names[y]);
  }

  /** Moves the root down until it is in order. */
  method SiftDown(names: seq<Name>, a: array<nat>, lo: nat, hi: nat)
    requires lo <= hi <= a.Length && Within(a[..], |names|) && HeapBut(names, a[..], lo, hi, lo)
    modifies a
    ensures Heap(names, a[..], lo, hi) && Rearranged(old(a[..]), a[..], hi)
  {
    hide Le, HeapBut, Under;
    var root: nat := lo;
    ghost var s := a[..];
    while 2 * root + 1 < hi
      invariant lo <= root && Within(a[..], |names|) && Rearranged(s, a[..], hi)
      invariant HeapBut(names, a[..], lo, hi, root) && Bridged(names, a[..], lo, hi, root)
      decreases hi - root
    {
      hide Bridged, Rearranged;
      var child := LargerChild(names, a, root, hi);
      var b := Less(names[a[root]], names[a[child]]);
      LessLe(names, a[root], a[child]);
      if !b {
        RootAbove(names, a[..], hi, root, child);
        SiftDone(names, a[..], lo, hi, root);
        return;
      }
      ghost var t := a[..];
      SiftStep(names, t, lo, hi, root, child);
      SwapRearranges(s, t, root, child, hi);
      a[root], a[child] := a[child], a[root];
      assert a[..] == Swapped(t, root, child);
      root := child;
    }
    NoChildren(names, a[..], lo, hi, root);
  }

  lemma {:induction false} NoChildren(names: seq<Name>, s: seq<nat>, lo: int, hi: int, root: nat)
    requires hi <= 2 * root + 1 && HeapBut(names, s, lo, hi, root)
    ensures Heap(names, s, lo, hi)
  {
    hide Under;
    forall c | 0 < c < hi && Parent(c) >= lo ensures Under(names, s, c) { Children(root, c); }
  }

  lemma {:induction false} RootAbove(names: seq<Name>, s: seq<nat>, hi: int, root: nat, child: nat)
    requires hi <= |s| && root < |s| && child < |s| && Le(names, s[child], s[root])
    requires forall c :: 0 < c < hi && Parent(c) == root ==> Le(names, s[c], s[child])
    ensures forall c :: 0 < c < hi && Parent(c) == root ==> Le(names, s[c], s[root])
  {
    hide Le;
    forall c | 0 < c < hi && Parent(c) == root ensures Le(names, s[c], s[root]) {
      LeTransitive(names, s[c], s[child], s[root]);
    }
  }

  // ---- The sort ----

  /** From `end` on everything is in its final place. */
  ghost predicate Tail(names: seq<Name>, s: seq<nat>, end: int) {
    forall i, j :: 0 <= i <= j < |s| && end <= j ==> Le(names, s[i], s[j])
  }

  /** No element of a heap comes after its root. */
  lemma {:induction false} RootLargest(names: seq<Name>, s: seq<nat>, hi: int, i: nat)
    requires Heap(names, s, 0, hi) && i < hi <= |s| && Within(s, |names|)
    ensures Le(names, s[i], s[0])
    decreases i
  {
    hide Le;
    if i == 0 {
      LeTotal(names, s[0], s[0]);
    } else {
      assert Under(names, s, i);
      RootLargest(names, s, hi, Parent(i));
      LeTransitive(names, s[i], s[Parent(i)], s[0]);
    }
  }

  /** The root goes to the end, where it belongs. */
  lemma {:induction false} TailGrows(names: seq<Name>, s: seq<nat>, end: nat)
    requires end < |s| && Heap(names, s, 0, end + 1) && Tail(names, s, end + 1) && Within(s, |names|)
    ensures Tail(names, Swapped(s, end, 0), end) && HeapBut(names, Swapped(s, end, 0), 0, end, 0)
  {
    hide Le;
    var t := Swapped(s, end, 0);
    forall i, j | 0 <= i <= j < |t| && end <= j ensures Le(names, t[i], t[j]) {
      var i' := if i == end then 0 else if i == 0 then end else i;
      assert t[i] == s[i'];
      if j == end { RootLargest(names, s, end + 1, i'); }
    }
    forall c | 0 < c < end && Parent(c) >= 0 && Parent(c) != 0 ensures Under(names, t, c) {
      assert Under(names, s, c);
    }
  }

  lemma {:induction false} TailKept(names: seq<Name>, s: seq<nat>, t: seq<nat>, end: nat)
    requires Tail(names, s, end) && Rearranged(s, t, end)
    ensures Tail(names, t, end)
  {
    hide Le;
    forall i, j | 0 <= i <= j < |t| && end <= j ensures Le(names, t[i], t[j]) {
      assert t[j] == t[end..][j - end] == s[j];
      if i < end {
        assert t[i] in multiset(t[..end]);
        var i' :| 0 <= i' < end && s[..end][i'] == t[i];
        assert s[i'] == t[i];
      } else {
        assert t[i] == t[end..][i - end] == s[i];
      }
    }
  }

  lemma {:induction false} SameElements(s: seq<nat>, t: seq<nat>, hi: int)
    requires Rearranged(s, t, hi)
    ensures multiset(s) == multiset(t)
  {
    assert s == s[..hi] + s[hi..] && t == t[..hi] + t[hi..];
  }

  lemma {:induction false} SwapElements(s: seq<nat>, i: nat, j: nat, n: nat)
    requires i < |s| && j < |s| && Within(s, n)
    ensures multiset(Swapped(s, i, j)) == multiset(s) && Within(Swapped(s, i, j), n)
  {
  }

  /** Children exist only below half of the array. */
  lemma {:induction false} NoParents(names: seq<Name>, s: seq<nat>, start: int)
    requires start == (|s| - 2) / 2
    ensures Heap(names, s, start + 1, |s|)
  {
    forall c | 0 < c < |s| ensures Parent(c) <= start { Children(Parent(c), c); }
  }

  /** Making room for one more root. */
  lemma {:induction false} HeapOpens(names: seq<Name>, s: seq<nat>, lo: int, hi: int)
    requires Heap(names, s, lo + 1, hi) && lo >= 0
    ensures HeapBut(names, s, lo, hi, lo)
  {
    hide Under;
  }

  method BuildHeap(names: seq<Name>, a: array<nat>)
    requires Within(a[..], |names|)
    modifies a
    ensures Heap(names, a[..], 0, a.Length) && multiset(a[..]) == multiset(old(a[..])) && Within(a[..], |names|)
  {
    hide Heap, Rearranged, HeapBut, Within;
    var start := (a.Length - 2) / 2;
    NoParents(names, a[..], start);
    if start < 0 { HeapFromZero(names, a[..], start + 1, a.Length); }
    while start >= 0
      invariant -1 <= start < a.Length && (start >= 0 || Heap(names, a[..], 0, a.Length))
      invariant Heap(names, a[..], start + 1, a.Length) && multiset(a[..]) == multiset(old(a[..]))
        && Within(a[..], |names|)
    {
      ghost var s := a[..];
      HeapOpens(names, s, start, a.Length);
      SiftDown(names, a, start, a.Length);
      SameElements(s, a[..], a.Length);
      StillWithin(s, a[..], a.Length, |names|);
      start := start - 1;
    }
  }

  lemma {:induction false} HeapFromZero(names: seq<Name>, s: seq<nat>, lo: int, hi: int)
    requires Heap(names, s, lo, hi) && lo <= 0
    ensures Heap(names, s, 0, hi)
  {
    hide Under;
  }

  lemma {:induction false} TailNone(names: seq<Name>, s: seq<nat>)
    ensures Tail(names, s, |s|)
  {
  }

  lemma {:induction false} TailAll(names: seq<Name>, s: seq<nat>, end: int)
    requires Tail(names, s, end + 1) && end <= 0 && Within(s, |names|)
    ensures Sorted(names, s)
  {
    hide Le;
    forall i, j | 0 <= i <= j < |s| ensures Le(names, s[i], s[j]) {
      if j == 0 { LeTotal(names, s[0], s[0]); }
    }
  }

  ghost predicate Sorted(names: seq<Name>, s: seq<nat>) {
    forall i, j :: 0 <= i <= j < |s| ==> Le(names, s[i], s[j])
  }

  /** Sorts file numbers by folded name, in place. */
  method HeapSort(names: seq<Name>, a: array<nat>)
    requires Within(a[..], |names|)
    modifies a
    ensures Sorted(names, a[..]) && multiset(a[..]) == multiset(old(a[..]))
  {
    hide Heap, Rearranged, HeapBut, Within, Tail, Sorted;
    BuildHeap(names, a);
    var end := a.Length - 1;
    TailNone(names, a[..]);
    while end > 0
      invariant -1 <= end < a.Length && multiset(a[..]) == multiset(old(a[..])) && Within(a[..], |names|)
      invariant Heap(names, a[..], 0, end + 1) && Tail(names, a[..], end + 1)
    {
      ghost var s := a[..];
      TailGrows(names, s, end);
      SwapElements(s, end, 0, |names|);
      a[end], a[0] := a[0], a[end];
      ghost var t := a[..];
      assert t == Swapped(s, end, 0);
      SiftDown(names, a, 0, end);
      TailKept(names, t, a[..], end);
      SameElements(t, a[..], end);
      StillWithin(t, a[..], end, |names|);
      end := end - 1;
    }
    TailAll(names, a[..], end);
  }

  // ---- The search ----

  /** The index lists every file once, by folded name. */
  ghost predicate Indexes(names: seq<Name>, s: seq<nat>) {
    Sorted(names, s) && (forall f: nat :: f < |names| ==> f in s) && Within(s, |names|)
  }

  lemma {:induction false} LeftOut(names: seq<Name>, s: seq<nat>, m: nat, j: nat, name: Name)
    requires Sorted(names, s) && m < |s| && j < |s| && s[m] < |names| && s[j] < |names|
    ensures Before(names[s[m]], name) && j <= m ==> !Same(names[s[j]], name)
    ensures Before(name, names[s[m]]) && m <= j ==> !Same(names[s[j]], name)
  {
    var x, y := names[s[m]], names[s[j]];
    hide Before, Same;
    Trichotomy(y, name);
    Trichotomy(x, name);
    if j <= m && Same(y, name) { assert Le(names, s[j], s[m]); AtMostTransitive(name, y, x); }
    if m <= j && Same(y, name) { assert Le(names, s[m], s[j]); AtMostTransitive(x, y, name); }
  }

  /** Binary search by folded name. */
  method Locate(names: seq<Name>, a: array<nat>, name: Name) returns (r: int)
    requires Indexes(names, a[..]) && |name| <= 0x8000_0000 && forall f :: 0 <= f < |names| ==> |names[f]| <= 0xFFFF
    ensures -1 <= r < |names|
    ensures r >= 0 ==> Same(names[r], name)
    ensures r < 0 ==> forall f :: 0 <= f < |names| ==> !Same(names[f], name)
  {
    hide Same, Before, Le, Sorted;
    ghost var s := a[..];
    var l, h := 0, a.Length - 1;
    while l <= h
      invariant 0 <= l <= h + 1 <= a.Length && a[..] == s
      invariant forall j :: 0 <= j < |s| && !(l <= j <= h) ==> !Same(names[s[j]], name)
      decreases h - l
    {
      var m := (l + h) / 2;
      assert a[m] == s[m];
      var comp := Compare(names[a[m]], name);
      if comp == 0 { return a[m]; }
      forall j | 0 <= j < |s| && (if comp < 0 then j <= m else m <= j)
        ensures !Same(names[s[j]], name) { LeftOut(names, s, m, j, name); }
      if comp < 0 { l := m + 1; } else { h := m - 1; }
    }
    forall f | 0 <= f < |names| ensures !Same(names[f], name) {
      assert f in s;
      var j :| 0 <= j < |s| && s[j] == f;
    }
    r := -1;
  }

  /** The scan over all files in archive order. */
  method Scan(names: seq<Name>, name: Name) returns (r: int)
    requires forall f :: 0 <= f < |names| ==> |names[f]| <= 0xFFFF
    ensures -1 <= r < |names|
    ensures r >= 0 ==> Same(names[r], name) && forall f :: 0 <= f < r ==> !Same(names[f], name)
    ensures r < 0 ==> forall f :: 0 <= f < |names| ==> !Same(names[f], name)
  {
    hide Same;
    if |name| > 0xFFFF {
      forall f | 0 <= f < |names| ensures !Same(names[f], name) { SameLength(names[f], name); }
      return -1;
    }
    var i := 0;
    while i < |names|
      invariant 0 <= i <= |names| && forall f :: 0 <= f < i ==> !Same(names[f], name)
    {
      SameLength(names[i], name);
      if |names[i]| == |name| {
        var same := StringEqual(name, names[i]);
        SameSymmetric(name, names[i]);
        if same { return i; }
      }
      i := i + 1;
    }
    r := -1;
  }

  lemma {:induction false} SameLength(l: Name, r: Name)
    ensures Same(l, r) ==> |l| == |r|
  {
    assert |Fold(l)| == |l| && |Fold(r)| == |r|;
  }

  lemma {:induction false} SameSymmetric(l: Name, r: Name)
    ensures Same(l, r) <==> Same(r, l)
  {
  }

  lemma {:induction false} Identity(names: seq<Name>, s: seq<nat>, t: seq<nat>)
    requires |s| == |names| && (forall i :: 0 <= i < |s| ==> s[i] == i) && multiset(t) == multiset(s)
      && Sorted(names, t)
    ensures Indexes(names, t)
  {
    hide Le;
    forall f: nat | f < |names| ensures f in t {
      assert s[f] in multiset(s);
    }
    forall i | 0 <= i < |t| ensures t[i] < |names| {
      assert t[i] in multiset(t);
      assert t[i] in s;
    }
  }

  /** The index the reader builds over a directory. */
  method BuildIndex(names: seq<Name>) returns (a: array<nat>)
    ensures fresh(a) && Indexes(names, a[..]) && a.Length == |names|
  {
    hide Sorted;
    a := new nat[|names|](i => i);
    ghost var s := a[..];
    HeapSort(names, a);
    Identity(names, s, a[..]);
  }

  /**
   * For every query the sorted index finds a file exactly when the scan does, and the two name the same file up to
   * case.
   */
  method SearchAgrees(names: seq<Name>, name: Name) returns (r: int, q: int)
    requires |name| <= 0x8000_0000 && forall f :: 0 <= f < |names| ==> |names[f]| <= 0xFFFF
    ensures -1 <= r < |names| && -1 <= q < |names| && (r >= 0 <==> q >= 0)
    ensures r >= 0 ==> Same(names[r], names[q]) && Same(names[r], name) && q <= r
  {
    hide Indexes;
    var a := BuildIndex(names);
    r := Locate(names, a, name);
    q := Scan(names, name);
  }
}
