/**
 `table.sort` (ltablib.c): quicksort in place, with whatever order function the program gives.
 */
module Sorting {

  const RANLIMIT: nat := 100

  function Pow2(n: nat): nat { if n == 0 then 1 else 2 * Pow2(n - 1) }

  // ----- permutations of an interval -----

  /** Only places from `lo` to `up` have changed, and these have the same values in some order. */
  ghost predicate Permuted<T>(s: seq<T>, t: seq<T>, lo: nat, up: nat) {
    && |t| == |s| && lo <= up < |s|
    && (forall k :: 0 <= k < |s| && (k < lo || up < k) ==> t[k] == s[k])
    && multiset(t[lo..up + 1]) == multiset(s[lo..up + 1])
  }

  lemma PermutedTransitive<T>(s: seq<T>, t: seq<T>, u: seq<T>, lo: nat, up: nat)
    requires Permuted(s, t, lo, up) && Permuted(t, u, lo, up)
    ensures Permuted(s, u, lo, up)
  {
  }

  lemma Parts<T>(s: seq<T>, lo: nat, lo': nat, up': nat, up: nat)
    requires lo <= lo' <= up' <= up < |s|
    ensures s[lo..up + 1] == s[lo..lo'] + s[lo'..up' + 1] + s[up' + 1..up + 1]
  {
  }

  lemma PermutedWider<T>(s: seq<T>, t: seq<T>, lo: nat, up: nat, lo': nat, up': nat)
    requires Permuted(s, t, lo', up') && lo <= lo' && up' <= up < |s|
    ensures Permuted(s, t, lo, up)
  {
    Parts(s, lo, lo', up', up);
    Parts(t, lo, lo', up', up);
    assert t[lo..lo'] == s[lo..lo'] && t[up' + 1..up + 1] == s[up' + 1..up + 1];
  }

  function Swapped<T>(s: seq<T>, i: nat, j: nat): seq<T>
    requires i < |s| && j < |s|
  {
    s[i := s[j]][j := s[i]]
  }

  lemma SwapPermutes<T>(s: seq<T>, i: nat, j: nat, lo: nat, up: nat)
    requires lo <= i <= up < |s| && lo <= j <= up
    ensures Permuted(s, Swapped(s, i, j), lo, up)
  {
    var c, t := s[lo..up + 1], Swapped(s, i, j);
    assert t[lo..up + 1] == c[i - lo := s[j]][j - lo := s[i]];
    if i == j { assert t == s; }
  }

  /** What is true of all values of an interval is true after a permutation. */
  lemma PermutedFrom<T>(s: seq<T>, t: seq<T>, lo: nat, up: nat, k: nat) returns (j: nat)
    requires Permuted(s, t, lo, up) && lo <= k <= up
    ensures lo <= j <= up && t[k] == s[j]
  {
    var c, d := s[lo..up + 1], t[lo..up + 1];
    assert d[k - lo] in multiset(d);
    assert d[k - lo] in c;
    var n :| 0 <= n < |c| && c[n] == d[k - lo];
    j := n + lo;
  }

  class Sorter<T(!new)> {
    /** The array part of the table; place 0 is not part of the list. */
    const a: array<T>
    /** What the order function answers to its n-th call. */
    const less: (nat, T, T) -> bool
    /** What the clock makes of pivots. */
    const random: nat -> nat
    /** The order that the function stands for, if it is one. */
    ghost const lt: (T, T) -> bool
    var calls: nat
    var clock: nat

    constructor (a: array<T>, less: (nat, T, T) -> bool, random: nat -> nat, ghost lt: (T, T) -> bool)
      ensures this.a == a && this.less == less && this.lt == lt
    {
      this.a, this.less, this.random, this.lt := a, less, random, lt;
      calls, clock := 0, 0;
    }

    // ----- the order -----

    ghost predicate StrictWeakOrder() {
      && (forall x :: !lt(x, x))
      && (forall x, y, z :: lt(x, y) && lt(y, z) ==> lt(x, z))
      && (forall x, y, z :: !lt(x, y) && !lt(y, z) ==> !lt(x, z))
    }

    /** The function always answers by the same strict weak order. */
    ghost predicate Consistent() { StrictWeakOrder() && forall n, x, y :: less(n, x, y) <==> lt(x, y) }

    ghost predicate Leq(x: T, y: T) { !lt(y, x) }

    lemma LeqReflexive(x: T)
      ensures Consistent() ==> Leq(x, x)
    {
    }

    lemma LeqTransitive(x: T, y: T, z: T)
      requires Consistent() && Leq(x, y) && Leq(y, z)
      ensures Leq(x, z)
    {
    }

    ghost predicate Sorted(s: seq<T>, lo: nat, up: nat) {
      up < |s| && forall i, j :: lo <= i < j <= up ==> Leq(s[i], s[j])
    }

    /** From `lo0` to `up0` all is in order, but for what is to be sorted yet, from `lo` to `up`. */
    ghost predicate Placed(s: seq<T>, lo0: nat, up0: nat, lo: nat, up: nat) {
      up0 < |s| && forall i, j :: lo0 <= i < j <= up0 && (i < lo || up < j) ==> Leq(s[i], s[j])
    }

    lemma PlacedPermuted(s: seq<T>, t: seq<T>, lo0: nat, up0: nat, lo: nat, up: nat)
      requires Placed(s, lo0, up0, lo, up) && Permuted(s, t, lo, up) && lo0 <= lo <= up <= up0
      ensures Placed(t, lo0, up0, lo, up)
    {
      forall i, j | lo0 <= i < j <= up0 && (i < lo || up < j) ensures Leq(t[i], t[j]) {
        var i', j' := i, j;
        if lo <= i <= up { i' := PermutedFrom(s, t, lo, up, i); }
        if lo <= j <= up { j' := PermutedFrom(s, t, lo, up, j); }
        assert Leq(s[i'], s[j']);
      }
    }

    /** The pivot is in its place `p`. */
    ghost predicate Split(s: seq<T>, lo: nat, p: nat, up: nat) {
      && lo <= p <= up < |s|
      && (forall k :: lo <= k < p ==> Leq(s[k], s[p]))
      && forall k :: p < k <= up ==> Leq(s[p], s[k])
    }

    lemma SplitPermuted(s: seq<T>, t: seq<T>, lo: nat, p: nat, up: nat, lo': nat, up': nat)
      requires Split(s, lo, p, up) && Permuted(s, t, lo', up')
      requires (lo == lo' && up' + 1 == p) || (lo' == p + 1 && up' == up)
      ensures Split(t, lo, p, up)
    {
      forall k | lo <= k <= up && k != p ensures if k < p then Leq(t[k], t[p]) else Leq(t[p], t[k]) {
        if lo' <= k <= up' {
          var j := PermutedFrom(s, t, lo', up', k);
        }
      }
    }

    /** When one side of the pivot is sorted, only the other is left. */
    lemma PlacedMore(s: seq<T>, lo0: nat, up0: nat, lo: nat, p: nat, up: nat, lower: bool)
      requires Consistent() && Placed(s, lo0, up0, lo, up) && Split(s, lo, p, up) && lo0 <= lo < p < up <= up0
      requires if lower then Sorted(s, lo, p - 1) else Sorted(s, p + 1, up)
      ensures if lower then Placed(s, lo0, up0, p + 1, up) else Placed(s, lo0, up0, lo, p - 1)
    {
      var lo', up' := if lower then p + 1 else lo, if lower then up else p - 1;
      forall i, j | lo0 <= i < j <= up0 && (i < lo' || up' < j) ensures Leq(s[i], s[j]) {
        if lo <= i < p < j <= up { LeqTransitive(s[i], s[p], s[j]); }
      }
    }

    // ----- the algorithm -----

    /** `sort_comp` */
    method SortComp(x: T, y: T) returns (r: bool)
      modifies `calls
      ensures Consistent() ==> (r <==> lt(x, y))
    {
      r := less(calls, x, y);
      calls := calls + 1;
    }

    /** `set2`, to swap two values. */
    method Swap(i: nat, j: nat, ghost lo: nat, ghost up: nat)
      requires lo <= i <= up < a.Length && lo <= j <= up
      modifies a
      ensures a[i] == old(a[j]) && a[j] == old(a[i]) && Permuted(old(a[..]), a[..], lo, up)
      ensures forall k :: 0 <= k < a.Length && k != i && k != j ==> a[k] == old(a[k])
    {
      SwapPermutes(a[..], i, j, lo, up);
      a[i], a[j] := a[j], a[i];
      assert a[..] == Swapped(old(a[..]), i, j);
    }

    /** `choosePivot`: somewhere in the second or third quarter. */
    method ChoosePivot(lo: nat, up: nat, rnd: nat) returns (p: nat)
      requires up - lo >= RANLIMIT
      ensures lo + (up - lo) / 4 <= p <= up - (up - lo) / 4
    {
      var r4 := (up - lo) / 4;
      p := rnd % (r4 * 2) + (lo + r4);
    }

    /** Swaps the two values if they are in the wrong order. */
    method OrderPair(i: nat, j: nat, ghost lo: nat, ghost up: nat) returns (swapped: bool)
      requires lo <= i < j <= up < a.Length
      modifies `calls, a
      ensures if swapped then a[i] == old(a[j]) && a[j] == old(a[i]) else a[i] == old(a[i]) && a[j] == old(a[j])
      ensures forall k :: 0 <= k < a.Length && k != i && k != j ==> a[k] == old(a[k])
      ensures Permuted(old(a[..]), a[..], lo, up)
      ensures Consistent() ==> Leq(a[i], a[j])
    {
      swapped := SortComp(a[j], a[i]);
      if swapped { Swap(i, j, lo, up); } else { PermutedReflexive(a[..], lo, up); }
    }

    /** The first and the last value, and one in between, are put in order; up to three values are sorted then. */
    method OrderThree(lo: nat, up: nat, rnd: nat) returns (p: nat)
      requires lo < up < a.Length
      modifies `calls, a
      ensures Permuted(old(a[..]), a[..], lo, up) && lo <= p <= up && (up - lo >= 2 ==> lo < p < up)
      ensures Consistent() ==> if up - lo <= 2 then Sorted(a[..], lo, up) else Leq(a[lo], a[p]) && Leq(a[p], a[up])
    {
      hide Permuted, Consistent, Leq, Sorted;
      ghost var s := a[..];
      var swapped := OrderPair(lo, up, lo, up);
      if up - lo == 1 {
        SortedPair(lo, up);
        return lo;
      }
      if up - lo < RANLIMIT || rnd == 0 {
        p := (lo + up) / 2;
      } else {
        p := ChoosePivot(lo, up, rnd);
      }
      ghost var t := a[..];
      swapped := OrderPair(lo, p, lo, up);
      ghost var u := a[..];
      PermutedTransitive(s, t, u, lo, up);
      if !swapped {
        swapped := OrderPair(p, up, lo, up);
        PermutedTransitive(s, u, a[..], lo, up);
      }
      if up - lo == 2 { SortedThree(lo); }
    }

    lemma SortedPair(lo: nat, up: nat)
      requires up == lo + 1 < a.Length && (Consistent() ==> Leq(a[lo], a[up]))
      ensures Consistent() ==> Sorted(a[..], lo, up)
    {
    }

    lemma SortedThree(lo: nat)
      requires lo + 2 < a.Length && (Consistent() ==> Leq(a[lo], a[lo + 1]) && Leq(a[lo + 1], a[lo + 2]))
      ensures Consistent() ==> Sorted(a[..], lo, lo + 2)
    {
      if Consistent() { LeqTransitive(a[lo], a[lo + 1], a[lo + 2]); }
    }

    lemma PermutedReflexive(s: seq<T>, lo: nat, up: nat)
      requires lo <= up < |s|
      ensures Permuted(s, s, lo, up)
    {
    }

    /** `partition`: the pivot, in the place before the last, is put where it belongs. */
    method Partition(lo: nat, up: nat) returns (ok: bool, p: nat)
      requires up < a.Length && up - lo >= 3
      requires Consistent() ==> Leq(a[lo], a[up - 1]) && Leq(a[up - 1], a[up])
      modifies `calls, a
      ensures Permuted(old(a[..]), a[..], lo, up)
      ensures ok ==> lo < p < up
      ensures Consistent() ==> ok && Split(a[..], lo, p, up)
    {
      hide Permuted, Consistent, Leq;
      var pivot, i, j := a[up - 1], lo, up - 1;
      ghost var s := a[..];
      PermutedReflexive(s, lo, up);
      LeqReflexive(pivot);
      while true
        invariant lo <= i <= j < up && i < up - 1 && lo < j && Permuted(s, a[..], lo, up) && a[up - 1] == pivot
        invariant Consistent() ==> forall k :: lo <= k <= i ==> Leq(a[k], pivot)
        invariant Consistent() ==> forall k :: j <= k <= up ==> Leq(pivot, a[k])
        decreases j - i
      {
        ok, i := Upward(i, up, pivot, lo);
        if !ok { return false, i; }
        ok, j := Downward(i, j, pivot, lo, up);
        if !ok { return false, i; }
        ghost var t := a[..];
        if j < i {
          Swap(up - 1, i, lo, up);
          PermutedTransitive(s, t, a[..], lo, up);
          return true, i;
        }
        Swap(i, j, lo, up);
        PermutedTransitive(s, t, a[..], lo, up);
      }
    }

    /** Goes up to a value that is not less than the pivot. */
    method Upward(i0: nat, up: nat, pivot: T, lo: nat) returns (ok: bool, i: nat)
      requires lo <= i0 < up - 1 && up < a.Length && a[up - 1] == pivot
      requires Consistent() ==> forall k :: lo <= k <= i0 ==> Leq(a[k], pivot)
      modifies `calls
      ensures ok ==> i0 < i < up
      ensures Consistent() ==> ok && Leq(pivot, a[i]) && forall k :: lo <= k < i ==> Leq(a[k], pivot)
    {
      i := i0 + 1;
      var less := SortComp(a[i], pivot);
      while less
        invariant i0 < i < up && (Consistent() ==> (less <==> lt(a[i], pivot)))
        invariant Consistent() ==> forall k :: lo <= k < i ==> Leq(a[k], pivot)
        decreases up - i
      {
        if i == up - 1 { return false, i; }
        i := i + 1;
        less := SortComp(a[i], pivot);
      }
      return true, i;
    }

    /** Goes down to a value that is not greater than the pivot. */
    method Downward(i: nat, j0: nat, pivot: T, lo: nat, up: nat) returns (ok: bool, j: nat)
      requires lo < i <= up && lo < j0 <= up < a.Length
      requires Consistent() ==> forall k :: lo <= k < i ==> Leq(a[k], pivot)
      requires Consistent() ==> forall k :: j0 <= k <= up ==> Leq(pivot, a[k])
      modifies `calls
      ensures ok ==> lo <= j < j0
      ensures Consistent() ==> ok && Leq(a[j], pivot) && forall k :: j < k <= up ==> Leq(pivot, a[k])
    {
      j := j0 - 1;
      var less := SortComp(pivot, a[j]);
      while less
        invariant lo <= j < j0 && (Consistent() ==> (less <==> lt(pivot, a[j])))
        invariant Consistent() ==> forall k :: j < k <= up ==> Leq(pivot, a[k])
        decreases j
      {
        if j < i { return false, j; }
        j := j - 1;
        less := SortComp(pivot, a[j]);
      }
      return true, j;
    }

    /** What `auxsort` does before it calls itself: with more than three values, the pivot is put in its place. */
    method PlacePivot(lo: nat, up: nat, rnd: nat) returns (ok: bool, done: bool, p: nat)
      requires lo < up < a.Length
      modifies `calls, a
      ensures Permuted(old(a[..]), a[..], lo, up) && (ok && !done ==> lo < p < up)
      ensures Consistent() ==> ok && if done then Sorted(a[..], lo, up) else Split(a[..], lo, p, up)
    {
      hide Permuted, Split, Sorted, Consistent, Leq;
      ghost var s := a[..];
      p := OrderThree(lo, up, rnd);
      if up - lo <= 2 { return true, true, p; }
      ghost var t := a[..];
      Swap(p, up - 1, lo, up);
      ghost var u := a[..];
      PermutedTransitive(s, t, u, lo, up);
      done := false;
      ok, p := Partition(lo, up);
      PermutedTransitive(s, u, a[..], lo, up);
    }

    /**
     `auxsort`. Whatever the order function answers, the sort ends, and permutes the interval, also when it gives up
     since the answers make no sense; it is never more than `depth` calls deep, the logarithm of the length. For a
     strict weak order the interval is sorted.
     */
    method AuxSort(lo0: nat, up0: nat, rnd0: nat, ghost depth: nat) returns (ok: bool)
      requires lo0 <= up0 < a.Length && up0 - lo0 + 1 <= Pow2(depth)
      modifies this, a
      ensures Permuted(old(a[..]), a[..], lo0, up0)
      ensures Consistent() ==> ok && Sorted(a[..], lo0, up0)
      decreases depth
    {
      hide Permuted, Placed, Split, Sorted, Consistent, Leq, Pow2;
      var lo, up, rnd := lo0, up0, rnd0;
      ghost var s := a[..];
      PermutedReflexive(s, lo0, up0);
      NothingPlaced(s, lo0, up0);
      while lo < up
        invariant lo0 <= lo <= up <= up0 && Permuted(s, a[..], lo0, up0)
        invariant Consistent() ==> Placed(a[..], lo0, up0, lo, up)
        decreases up - lo
      {
        ghost var t := a[..];
        var done, p;
        ok, done, p := PlacePivot(lo, up, rnd);
        AfterStep(s, t, a[..], lo0, up0, lo, up);
        if done { AllPlaced(a[..], lo0, up0, lo, up); }
        if !ok || done { return; }
        ghost var t3 := a[..];
        var n;
        HalfDepth(if p - lo < up - p then p - lo else up - p, up0 - lo0 + 1, depth);
        if p - lo < up - p {
          ok := AuxSort(lo, p - 1, rnd, depth - 1);
          AfterSide(s, t3, a[..], lo0, up0, lo, p, up, true);
          n := p - lo;
          lo := p + 1;
        } else {
          ok := AuxSort(p + 1, up, rnd, depth - 1);
          AfterSide(s, t3, a[..], lo0, up0, lo, p, up, false);
          n := up - p;
          up := p - 1;
        }
        if !ok { return false; }
        if (up - lo) / 128 > n {
          rnd := random(clock);
          clock := clock + 1;
        }
      }
      AllPlaced(a[..], lo0, up0, lo, up);
      return true;
    }

    /** The smaller side has half of the values at most. */
    lemma HalfDepth(n: nat, size: nat, depth: nat)
      requires 2 * n <= size <= Pow2(depth) && size > 1
      ensures depth > 0 && n <= Pow2(depth - 1)
    {
    }

    lemma NothingPlaced(s: seq<T>, lo: nat, up: nat)
      requires up < |s|
      ensures Placed(s, lo, up, lo, up)
    {
    }

    /** Nothing is left to be sorted. */
    lemma AllPlaced(s: seq<T>, lo0: nat, up0: nat, lo: nat, up: nat)
      requires lo0 <= lo <= up <= up0 < |s|
      ensures Placed(s, lo0, up0, lo, up) && (lo == up || Sorted(s, lo, up)) ==> Sorted(s, lo0, up0)
    {
    }

    /** The interval has been permuted. */
    lemma AfterStep(s: seq<T>, t: seq<T>, u: seq<T>, lo0: nat, up0: nat, lo: nat, up: nat)
      requires Permuted(s, t, lo0, up0) && Permuted(t, u, lo, up) && lo0 <= lo <= up <= up0
      ensures Permuted(s, u, lo0, up0)
      ensures Placed(t, lo0, up0, lo, up) ==> Placed(u, lo0, up0, lo, up)
    {
      PermutedWider(t, u, lo0, up0, lo, up);
      PermutedTransitive(s, t, u, lo0, up0);
      if Placed(t, lo0, up0, lo, up) { PlacedPermuted(t, u, lo0, up0, lo, up); }
    }

    /** One side of the pivot has been sorted. */
    lemma AfterSide(s: seq<T>, t: seq<T>, u: seq<T>, lo0: nat, up0: nat, lo: nat, p: nat, up: nat, lower: bool)
      requires Permuted(s, t, lo0, up0) && lo0 <= lo < p < up <= up0
      requires if lower then Permuted(t, u, lo, p - 1) else Permuted(t, u, p + 1, up)
      ensures Permuted(s, u, lo0, up0)
      ensures Consistent() && Placed(t, lo0, up0, lo, up) && Split(t, lo, p, up) ==>
        if lower then Sorted(u, lo, p - 1) ==> Placed(u, lo0, up0, p + 1, up)
        else Sorted(u, p + 1, up) ==> Placed(u, lo0, up0, lo, p - 1)
    {
      var lo', up' := if lower then lo else p + 1, if lower then p - 1 else up;
      PermutedWider(t, u, lo, up, lo', up');
      AfterStep(s, t, u, lo0, up0, lo, up);
      if Consistent() && Placed(t, lo0, up0, lo, up) && Split(t, lo, p, up) &&
        (if lower then Sorted(u, lo, p - 1) else Sorted(u, p + 1, up)) {
        SplitPermuted(t, u, lo, p, up, lo', up');
        PlacedMore(u, lo0, up0, lo, p, up, lower);
      }
    }

    /** `sort`: the list is in the places from 1 to `n`. */
    method Sort(n: nat, ghost depth: nat) returns (ok: bool)
      requires n < a.Length && n <= Pow2(depth)
      modifies this, a
      ensures n > 0 ==> Permuted(old(a[..]), a[..], 1, n)
      ensures n == 0 ==> a[..] == old(a[..])
      ensures Consistent() ==> ok && (n > 0 ==> Sorted(a[..], 1, n))
    {
      if n > 1 {
        ok := AuxSort(1, n, 0, depth);
      } else {
        ok := true;
        if n == 1 { PermutedReflexive(a[..], 1, 1); }
      }
    }
  }
}
