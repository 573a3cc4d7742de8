/** Python's list comprehension `[f(x) for x in xs if keep(x)]`, with the facts
    the models of the loops that build such lists rely on. */
module Lists {
  import opened Wrappers

  function FilterMap<T, U>(xs: seq<T>, keep: T -> bool, f: T -> U): (r: seq<U>)
    ensures |r| <= |xs|
  {
    if xs == [] then [] else (if keep(xs[0]) then [f(xs[0])] else []) + FilterMap(xs[1..], keep, f)
  }

  /** Appending one element extends the comprehension by at most that element:
      the step of a loop that appends as it goes. */
  lemma {:induction false} FilterMapSnoc<T, U>(xs: seq<T>, x: T, keep: T -> bool, f: T -> U)
    ensures FilterMap(xs + [x], keep, f) == FilterMap(xs, keep, f) + (if keep(x) then [f(x)] else [])
  {
    if xs == [] {
      assert ([x])[1..] == [];
    } else {
      var ys := xs + [x];
      assert ys[0] == xs[0] && ys[1..] == xs[1..] + [x];
      FilterMapSnoc(xs[1..], x, keep, f);
      var h := if keep(xs[0]) then [f(xs[0])] else [];
      AppendAssoc(h, FilterMap(xs[1..], keep, f), if keep(x) then [f(x)] else []);
    }
  }

  /** Dropping a last element that is not kept changes nothing. */
  lemma FilterMapDropLast<T, U>(xs: seq<T>, keep: T -> bool, f: T -> U)
    requires xs != [] && !keep(xs[|xs| - 1])
    ensures FilterMap(xs[..|xs| - 1], keep, f) == FilterMap(xs, keep, f)
  {
    FilterMapPrefixStep(xs, |xs| - 1, keep, f);
    assert xs[..|xs|] == xs;
  }

  /** The comprehension over a prefix one element longer. */
  lemma FilterMapPrefixStep<T, U>(xs: seq<T>, i: nat, keep: T -> bool, f: T -> U)
    requires i < |xs|
    ensures FilterMap(xs[..i + 1], keep, f) == FilterMap(xs[..i], keep, f) + (if keep(xs[i]) then [f(xs[i])] else [])
  {
    assert xs[..i + 1] == xs[..i] + [xs[i]];
    FilterMapSnoc(xs[..i], xs[i], keep, f);
  }

  /** Every element of the comprehension is `f` of a kept element of `xs`. */
  lemma {:induction false} FilterMapFrom<T, U>(xs: seq<T>, keep: T -> bool, f: T -> U)
    ensures forall y :: y in FilterMap(xs, keep, f) ==> exists k :: 0 <= k < |xs| && keep(xs[k]) && y == f(xs[k])
  {
    if xs != [] {
      FilterMapFrom(xs[1..], keep, f);
      forall y | y in FilterMap(xs, keep, f)
        ensures exists k :: 0 <= k < |xs| && keep(xs[k]) && y == f(xs[k])
      {
        if y in FilterMap(xs[1..], keep, f) {
          var k :| 0 <= k < |xs[1..]| && keep(xs[1..][k]) && y == f(xs[1..][k]);
          assert xs[1..][k] == xs[k + 1];
        } else {
          assert keep(xs[0]) && y == f(xs[0]);
        }
      }
    }
  }

  /** A kept element appears in the comprehension. */
  lemma {:induction false} FilterMapHas<T, U>(xs: seq<T>, k: nat, keep: T -> bool, f: T -> U)
    requires k < |xs| && keep(xs[k])
    ensures f(xs[k]) in FilterMap(xs, keep, f)
  {
    if k > 0 {
      assert xs[1..][k - 1] == xs[k];
      FilterMapHas(xs[1..], k - 1, keep, f);
    }
  }

  /** When nothing is kept the comprehension is empty. */
  lemma {:induction false} FilterMapNone<T, U>(xs: seq<T>, keep: T -> bool, f: T -> U)
    requires forall k :: 0 <= k < |xs| ==> !keep(xs[k])
    ensures FilterMap(xs, keep, f) == []
  {
    if xs != [] {
      assert forall k :: 0 <= k < |xs[1..]| ==> xs[1..][k] == xs[k + 1];
      FilterMapNone(xs[1..], keep, f);
    }
  }

  /** When every element is kept the comprehension is the plain image. */
  lemma {:induction false} FilterMapAll<T, U>(xs: seq<T>, keep: T -> bool, f: T -> U)
    requires forall k :: 0 <= k < |xs| ==> keep(xs[k])
    ensures FilterMap(xs, keep, f) == Map(xs, f)
  {
    if xs != [] {
      assert forall k :: 0 <= k < |xs[1..]| ==> xs[1..][k] == xs[k + 1];
      FilterMapAll(xs[1..], keep, f);
    }
  }

  /** `[f(x) for x in xs]`. */
  function Map<T, U>(xs: seq<T>, f: T -> U): (r: seq<U>)
    ensures |r| == |xs|
  {
    if xs == [] then [] else [f(xs[0])] + Map(xs[1..], f)
  }

  /** Appending one element appends its image. */
  lemma {:induction false} MapSnoc<T, U>(xs: seq<T>, x: T, f: T -> U)
    ensures Map(xs + [x], f) == Map(xs, f) + [f(x)]
  {
    if xs == [] {
      assert ([x])[1..] == [];
    } else {
      assert (xs + [x])[1..] == xs[1..] + [x];
      MapSnoc(xs[1..], x, f);
    }
  }

  /** Element `k` of the image is the image of element `k`. */
  lemma {:induction false} MapAt<T, U>(xs: seq<T>, f: T -> U, k: nat)
    requires k < |xs|
    ensures Map(xs, f)[k] == f(xs[k])
  {
    if k > 0 {
      assert xs[1..][k - 1] == xs[k];
      MapAt(xs[1..], f, k - 1);
    }
  }

  /** The image of a prefix one element longer. */
  lemma MapPrefixStep<T, U>(xs: seq<T>, i: nat, f: T -> U)
    requires i < |xs|
    ensures Map(xs[..i + 1], f) == Map(xs[..i], f) + [f(xs[i])]
  {
    assert xs[..i + 1] == xs[..i] + [xs[i]];
    MapSnoc(xs[..i], xs[i], f);
  }

  /** The largest index `e` with `lo < e <= hi` that satisfies `p`: the end a
      greedy repetition backs off to. */
  function LastWhere(p: nat -> bool, lo: nat, hi: nat): (r: Option<nat>)
    ensures r.Some? ==> lo < r.value <= hi && p(r.value)
    ensures r.Some? ==> forall e :: r.value < e <= hi ==> !p(e)
    ensures r.None? ==> forall e :: lo < e <= hi ==> !p(e)
    decreases hi
  {
    if hi <= lo then None
    else if p(hi) then Some(hi)
    else LastWhere(p, lo, hi - 1)
  }

  /** The smallest index `k` with `lo <= k < hi` that satisfies `p`: the
      leftmost start a search tries successfully. */
  function FirstWhere(p: nat -> bool, lo: nat, hi: nat): (r: Option<nat>)
    ensures r.Some? ==> lo <= r.value < hi && p(r.value)
    ensures r.Some? ==> forall k :: lo <= k < r.value ==> !p(k)
    ensures r.None? ==> forall k :: lo <= k < hi ==> !p(k)
    decreases hi - lo
  {
    if hi <= lo then None
    else if p(lo) then Some(lo)
    else FirstWhere(p, lo + 1, hi)
  }

  /** A map that fixes every element is the identity. */
  lemma MapFixed<T>(xs: seq<T>, f: T -> T)
    requires forall k :: 0 <= k < |xs| ==> f(xs[k]) == xs[k]
    ensures Map(xs, f) == xs
  {
    forall k | 0 <= k < |xs| ensures Map(xs, f)[k] == xs[k] {
      MapAt(xs, f, k);
    }
  }

  lemma AppendAssoc<T>(a: seq<T>, b: seq<T>, c: seq<T>)
    ensures (a + b) + c == a + (b + c)
  {
  }

  /** Moving the head of `b` onto the end of `a`. */
  lemma ShiftHead<T>(a: seq<T>, b: seq<T>)
    requires b != []
    ensures a + [b[0]] + b[1..] == a + b
  {
    assert [b[0]] + b[1..] == b;
  }

  /** The elements of a suffix, read in the whole sequence. */
  lemma SuffixAt<T>(xs: seq<T>, k: nat)
    requires k <= |xs|
    ensures forall m :: 0 <= m < |xs| - k ==> xs[k..][m] == xs[k + m]
  {
  }

  lemma SubSlice<T>(xs: seq<T>, lo: nat, hi: nat, a: nat, b: nat)
    requires lo <= a <= b <= hi <= |xs|
    ensures xs[lo..hi][a - lo..b - lo] == xs[a..b]
  {
    var inner, part := xs[lo..hi], xs[lo..hi][a - lo..b - lo];
    forall k | 0 <= k < |part| ensures part[k] == xs[a..b][k] {
      assert part[k] == inner[a - lo + k];
    }
  }

  /** A slice grown by the next element. */
  lemma SliceSnoc<T>(xs: seq<T>, a: nat, b: nat)
    requires a <= b < |xs|
    ensures xs[a..b] + [xs[b]] == xs[a..b + 1]
  {
  }

  predicate Increasing(a: seq<nat>) {
    forall k, l :: 0 <= k < l < |a| ==> a[k] < a[l]
  }

  /** The tail of a strictly increasing sequence holds everything but its head. */
  lemma IncreasingTail(a: seq<nat>, x: nat)
    requires Increasing(a) && a != []
    ensures x in a[1..] <==> (x in a && x != a[0])
  {
    if x in a[1..] {
      var i :| 0 <= i < |a[1..]| && a[1..][i] == x;
      assert a[i + 1] == x;
    }
    if x in a && x != a[0] {
      var i :| 0 <= i < |a| && a[i] == x;
      assert a[1..][i - 1] == x;
    }
  }

  /** A strictly increasing sequence is determined by its elements. */
  lemma {:induction false} IncreasingUnique(a: seq<nat>, b: seq<nat>)
    requires Increasing(a) && Increasing(b)
    requires forall x :: x in a <==> x in b
    ensures a == b
    decreases |a|
  {
    if a != [] {
      assert a[0] in b;
    }
    if b != [] {
      assert b[0] in a;
    }
    if a != [] && b != [] {
      var i :| 0 <= i < |a| && a[i] == b[0];
      var j :| 0 <= j < |b| && b[j] == a[0];
      assert a[0] == b[0];
      forall x: nat
        ensures x in a[1..] <==> x in b[1..]
      {
        IncreasingTail(a, x);
        IncreasingTail(b, x);
      }
      IncreasingUnique(a[1..], b[1..]);
      assert a == [a[0]] + a[1..];
      assert b == [b[0]] + b[1..];
    }
  }

  /** The indices below `n` of the elements that satisfy `p`, in increasing
      order: what a loop appending the index of every matching element builds. */
  function IndicesWhere<T>(xs: seq<T>, p: T -> bool, n: nat): (r: seq<nat>)
    requires n <= |xs|
    ensures forall k :: 0 <= k < |r| ==> r[k] < n && p(xs[r[k]])
    ensures Increasing(r)
    ensures forall j :: 0 <= j < n && p(xs[j]) ==> j in r
  {
    if n == 0 then [] else IndicesWhere(xs, p, n - 1) + (if p(xs[n - 1]) then [n - 1] else [])
  }

  /** Every index of an increasing sequence lowered by at most its first one. */
  function ShiftDown(ix: seq<nat>, s0: nat): (r: seq<nat>)
    requires Increasing(ix) && ix != [] && s0 <= ix[0]
    ensures |r| == |ix| && forall k :: 0 <= k < |ix| ==> r[k] + s0 == ix[k]
  {
    FirstIsLeast(ix);
    seq(|ix|, k requires 0 <= k < |ix| => ix[k] - s0)
  }

  lemma FirstIsLeast(ix: seq<nat>)
    requires Increasing(ix) && ix != []
    ensures forall k :: 0 <= k < |ix| ==> ix[k] >= ix[0]
  {
  }

  /** A match of the suffix from the first match is a shifted match. */
  lemma IndicesShiftInto<T>(xs: seq<T>, p: T -> bool, s0: nat, x: nat)
    requires var ix := IndicesWhere(xs, p, |xs|); ix != [] && s0 == ix[0]
    requires x in IndicesWhere(xs[s0..], p, |xs| - s0)
    ensures x in ShiftDown(IndicesWhere(xs, p, |xs|), s0)
  {
    var ix := IndicesWhere(xs, p, |xs|);
    var rest := xs[s0..];
    assert x < |rest| && p(rest[x]);
    assert rest[x] == xs[s0 + x];
    assert s0 + x in ix;
    var k :| 0 <= k < |ix| && ix[k] == s0 + x;
    assert ShiftDown(ix, s0)[k] == x;
  }

  /** A shifted match is a match of the suffix from the first match. */
  lemma IndicesShiftFrom<T>(xs: seq<T>, p: T -> bool, s0: nat, x: nat)
    requires var ix := IndicesWhere(xs, p, |xs|); ix != [] && s0 == ix[0]
    requires x in ShiftDown(IndicesWhere(xs, p, |xs|), s0)
    ensures x in IndicesWhere(xs[s0..], p, |xs| - s0)
  {
    var ix := IndicesWhere(xs, p, |xs|);
    var shifted := ShiftDown(ix, s0);
    var rest := xs[s0..];
    var k :| 0 <= k < |shifted| && shifted[k] == x;
    assert ix[k] == s0 + x;
    assert rest[x] == xs[s0 + x];
  }

  /** Dropping the elements before the first match shifts every index down. */
  lemma IndicesShift<T>(xs: seq<T>, p: T -> bool, s0: nat)
    requires var ix := IndicesWhere(xs, p, |xs|); ix != [] && s0 == ix[0]
    ensures var ix := IndicesWhere(xs, p, |xs|); var r := IndicesWhere(xs[s0..], p, |xs| - s0);
      |r| == |ix| && forall k :: 0 <= k < |r| ==> r[k] + s0 == ix[k]
  {
    var ix := IndicesWhere(xs, p, |xs|);
    FirstIsLeast(ix);
    var r := IndicesWhere(xs[s0..], p, |xs| - s0);
    var shifted := ShiftDown(ix, s0);
    forall x: nat
      ensures x in r <==> x in shifted
    {
      if x in r {
        IndicesShiftInto(xs, p, s0, x);
      }
      if x in shifted {
        IndicesShiftFrom(xs, p, s0, x);
      }
    }
    assert Increasing(shifted);
    IncreasingUnique(r, shifted);
  }
}
