/**
 How `rehash` (ltable.c) finds the sizes of a table: integer keys are counted by slices between powers of
 two, and the array gets the largest size that is more than half in use.
 */
module TableCounts {
  import opened TableSizes
  import opened TableNodes

  const MAXABITS := 31
  const MAXASIZE := 0x8000_0000

  /** The key of the array slot for the integer `i`. */
  function IntKey(i: int): TValue { if MININTEGER <= i <= MAXINTEGER then Int(i) else Nil }

  /** The key belongs to an array of size `n`. */
  predicate InRange(k: TValue, n: int) { k.Int? && 1 <= k.i <= n }

  function Within(K: set<TValue>, n: int): set<TValue> { set k | k in K && InRange(k, n) }

  function Outside(K: set<TValue>, n: int): set<TValue> { set k | k in K && !InRange(k, n) }

  lemma Parts(K: set<TValue>, n: int)
    ensures |K| == |Within(K, n)| + |Outside(K, n)|
  {
    assert K == Within(K, n) + Outside(K, n);
  }

  lemma OutsideMore(K: set<TValue>, k: TValue, n: int)
    requires k !in K
    ensures |Outside(K + {k}, n)| == |Outside(K, n)| + if InRange(k, n) then 0 else 1
    ensures |Within(K + {k}, n)| == |Within(K, n)| + if InRange(k, n) then 1 else 0
  {
    assert Outside(K + {k}, n) == Outside(K, n) + if InRange(k, n) then {} else {k};
    assert Within(K + {k}, n) == Within(K, n) + if InRange(k, n) then {k} else {};
  }

  lemma {:induction false} SubsetSize<T>(a: set<T>, b: set<T>)
    requires a <= b
    ensures |a| <= |b|
    decreases a
  {
    if a != {} {
      var x :| x in a;
      SubsetSize(a - {x}, b - {x});
    }
  }

  lemma OutsideFewer(K: set<TValue>, K': set<TValue>, n: int)
    requires K <= K'
    ensures |Outside(K, n)| <= |Outside(K', n)|
  {
    SubsetSize(Outside(K, n), Outside(K', n));
  }

  // ----- slices -----

  function Lower(l: nat): nat { if l == 0 then 0 else Pow(l - 1) }

  predicate InSlice(k: TValue, l: nat) { k.Int? && Lower(l) < k.i <= Pow(l) }

  function SliceOf(K: set<TValue>, l: nat): set<TValue> { set k | k in K && InSlice(k, l) }

  /** `nums[l]` is the number of keys in slice `l`. */
  ghost predicate CountsOk(nums: seq<nat>, K: set<TValue>) {
    |nums| == MAXABITS + 1 && forall l :: 0 <= l < |nums| ==> nums[l] == |SliceOf(K, l)|
  }

  lemma NoCounts(nums: seq<nat>)
    requires |nums| == MAXABITS + 1 && forall l :: 0 <= l < |nums| ==> nums[l] == 0
    ensures CountsOk(nums, {})
  {
    forall l | 0 <= l < |nums| ensures nums[l] == |SliceOf({}, l)| { assert SliceOf({}, l) == {}; }
  }

  lemma MaxSize()
    ensures Pow(MAXABITS) == MAXASIZE && Pow(MAXABITS + 1) == 2 * MAXASIZE
  {
    assert Pow(8) == 256 && Pow(16) == 65536 by { PowOfByte(0); PowOfByte(8); }
    PowOfByte(16);
    assert Pow(31) == 0x8000_0000 by { assert Pow(24) == 0x100_0000; assert Pow(28) == 16 * Pow(24); }
  }

  /** One more key counts in its slice, or nowhere. */
  lemma CountMore(nums: seq<nat>, K: set<TValue>, k: TValue, l: nat)
    requires CountsOk(nums, K) && k !in K
    requires if InRange(k, MAXASIZE) then IsCeilLog(k.i, l) && l <= MAXABITS else l == 0
    ensures CountsOk(if InRange(k, MAXASIZE) then nums[l := nums[l] + 1] else nums, K + {k})
  {
    var nums' := if InRange(k, MAXASIZE) then nums[l := nums[l] + 1] else nums;
    MaxSize();
    forall m | 0 <= m < |nums'| ensures nums'[m] == |SliceOf(K + {k}, m)| {
      PowIncreases(m, MAXABITS);
      assert SliceOf(K + {k}, m) == SliceOf(K, m) + if InSlice(k, m) then {k} else {};
      if InSlice(k, m) {
        assert IsCeilLog(k.i, m);
        CeilLogUnique(k.i, l, m);
      }
    }
  }

  lemma WithinMore(K: set<TValue>, l: nat)
    ensures |Within(K, Pow(l))| == |Within(K, Lower(l))| + |SliceOf(K, l)|
  {
    if l > 0 { assert Pow(l) == 2 * Pow(l - 1); }
    assert Within(K, Pow(l)) == Within(K, Lower(l)) + SliceOf(K, l);
  }

  /** `arrayindex` */
  function ArrayIndex(k: Integer): (i: nat)
    ensures i == if InRange(Int(k), MAXASIZE) then k else 0
  {
    if (k - 1) % 0x1_0000_0000_0000_0000 < MAXASIZE then k else 0
  }

  /** `countint` */
  method CountInt(key: Integer, nums: seq<nat>, ghost K: set<TValue>) returns (c: nat, nums': seq<nat>)
    requires CountsOk(nums, K) && Int(key) !in K
    ensures CountsOk(nums', K + {Int(key)}) && c == if InRange(Int(key), MAXASIZE) then 1 else 0
  {
    var k := ArrayIndex(key);
    if k != 0 {
      var l := CeilLog2(k);
      LogInRange(k, l);
      CountMore(nums, K, Int(key), l);
      return 1, nums[l := nums[l] + 1];
    } else {
      CountMore(nums, K, Int(key), 0);
      return 0, nums;
    }
  }

  lemma LogInRange(k: nat, l: nat)
    requires 0 < k <= MAXASIZE && IsCeilLog(k, l)
    ensures l <= MAXABITS
  {
    MaxSize();
    if l > MAXABITS { PowIncreases(MAXABITS, l - 1); }
  }

  // ----- counting a whole table -----

  /** The keys of the first `n` array slots that are in use. */
  function ArrayKeys(arr: seq<TValue>, n: nat): set<TValue>
    requires n <= |arr|
  {
    set i | 0 <= i < n && !arr[i].Nil? :: IntKey(i + 1)
  }

  lemma ArrayKeysMore(arr: seq<TValue>, n: nat)
    requires n < |arr| <= MAXASIZE
    ensures ArrayKeys(arr, n + 1) == ArrayKeys(arr, n) + (if arr[n].Nil? then {} else {IntKey(n + 1)})
    ensures IntKey(n + 1) !in ArrayKeys(arr, n)
  {
  }

  lemma NoArrayKeys(arr: seq<TValue>)
    ensures ArrayKeys(arr, 0) == {}
  {
  }

  /** `lc` keys of slice `l` have been counted apart. */
  ghost predicate CountsWith(nums: seq<nat>, l: nat, lc: nat, K: set<TValue>) {
    l < |nums| == MAXABITS + 1 && CountsOk(nums[l := nums[l] + lc], K)
  }

  lemma CountNone(nums: seq<nat>, l: nat, K: set<TValue>)
    requires CountsOk(nums, K) && l <= MAXABITS
    ensures CountsWith(nums, l, 0, K)
  {
    assert nums[l := nums[l] + 0] == nums;
  }

  lemma CountSlot(nums: seq<nat>, l: nat, lc: nat, K: set<TValue>, i: nat)
    requires CountsWith(nums, l, lc, K) && IntKey(i) !in K
    requires Lower(l) < i <= Pow(l) && i <= MAXASIZE
    ensures CountsWith(nums, l, lc + 1, K + {IntKey(i)})
  {
    CountMore(nums[l := nums[l] + lc], K, IntKey(i), l);
    assert nums[l := nums[l] + lc][l := nums[l] + (lc + 1)] == nums[l := nums[l] + (lc + 1)];
  }

  lemma CountDone(nums: seq<nat>, l: nat, lc: nat, K: set<TValue>)
    requires CountsWith(nums, l, lc, K)
    ensures l < |nums| && CountsOk(nums[l := nums[l] + lc], K)
  {
  }

  /** The number of slots before a slice, in an array of size `n`. */
  function Before(l: nat, n: nat): nat { if Lower(l) <= n then Lower(l) else n }

  /** The loop of `numusearray` that counts the elements in one slice. */
  method CountSlice(arr: seq<TValue>, first: nat, lim: nat, lg: nat, ghost nums: seq<nat>) returns (lc: nat, i: nat)
    requires |arr| <= MAXASIZE && lg <= MAXABITS && Lower(lg) < first <= lim + 1 && lim <= Pow(lg) && lim <= |arr|
    requires CountsOk(nums, ArrayKeys(arr, first - 1))
    ensures i == lim + 1 && |ArrayKeys(arr, lim)| == |ArrayKeys(arr, first - 1)| + lc
    ensures lg < |nums| && CountsOk(nums[lg := nums[lg] + lc], ArrayKeys(arr, lim))
  {
    hide CountsOk, CountsWith, ArrayKeys, Pow;
    lc, i := 0, first;
    CountNone(nums, lg, ArrayKeys(arr, i - 1));
    while i <= lim
      invariant first <= i <= lim + 1
      invariant CountsWith(nums, lg, lc, ArrayKeys(arr, i - 1))
      invariant |ArrayKeys(arr, i - 1)| == |ArrayKeys(arr, first - 1)| + lc
    {
      ArrayKeysMore(arr, i - 1);
      if !arr[i - 1].Nil? {
        CountSlot(nums, lg, lc, ArrayKeys(arr, i - 1), i);
        lc := lc + 1;
      }
      i := i + 1;
    }
    CountDone(nums, lg, lc, ArrayKeys(arr, lim));
  }

  /** `numusearray` */
  method NumUseArray(arr: seq<TValue>, nums: seq<nat>) returns (ause: nat, nums': seq<nat>)
    requires |arr| <= MAXASIZE && CountsOk(nums, {})
    ensures CountsOk(nums', ArrayKeys(arr, |arr|)) && ause == |ArrayKeys(arr, |arr|)|
  {
    MaxSize();
    NoArrayKeys(arr);
    nums', ause := nums, 0;
    var lg, ttlg, i := 0, 1, 1;
    assert Lower(0) == 0 && Pow(0) == 1;
    assert Before(MAXABITS + 1, |arr|) == |arr|;
    hide CountsOk, CountsWith, ArrayKeys, Pow;
    while lg <= MAXABITS
      invariant 0 <= lg <= MAXABITS + 1 && ttlg == Pow(lg) && i - 1 == Before(lg, |arr|)
      invariant CountsOk(nums', ArrayKeys(arr, i - 1)) && ause == |ArrayKeys(arr, i - 1)|
    {
      PowTwice(lg);
      var lc;
      var lim := ttlg;
      if lim > |arr| {
        lim := |arr|;
        if i > lim { break; }
      }
      lc, i := CountSlice(arr, i, lim, lg, nums');
      nums' := nums'[lg := nums'[lg] + lc];
      ause := ause + lc;
      lg, ttlg := lg + 1, ttlg * 2;
    }
  }

  lemma PowTwice(l: nat)
    ensures Pow(l + 1) == 2 * Pow(l) && Lower(l + 1) == Pow(l) && Lower(l) < Pow(l)
  {
    if l > 0 { assert Pow(l) == 2 * Pow(l - 1); }
  }

  /** The keys of nodes from `n` on that have values. */
  function NodeKeys(ns: Nodes, n: nat): set<TValue> {
    set x | n <= x < |ns| && !ns[x].val.Nil? && ns[x].key.Live? :: ns[x].key.k
  }

  /** `numusehash` */
  method NumUseHash(ns: Nodes, nums: seq<nat>, pna: nat, ghost K: set<TValue>)
    returns (totaluse: nat, nums': seq<nat>, pna': nat)
    requires CountsOk(nums, K) && K !! NodeKeys(ns, 0)
    requires forall x :: 0 <= x < |ns| && !ns[x].val.Nil? ==> ns[x].key.Live?
    requires forall x, y :: 0 <= x < y < |ns| && ns[x].key.Live? ==> ns[x].key != ns[y].key
    ensures CountsOk(nums', K + NodeKeys(ns, 0)) && totaluse == |NodeKeys(ns, 0)|
    ensures pna' == pna + |Within(NodeKeys(ns, 0), MAXASIZE)|
  {
    hide CountsOk, NodeKeys, Within;
    totaluse, nums' := 0, nums;
    var ause, i := 0, |ns|;
    NoNodeKeys(ns, K);
    while i > 0
      invariant 0 <= i <= |ns| && totaluse == |NodeKeys(ns, i)| && ause == |Within(NodeKeys(ns, i), MAXASIZE)|
      invariant CountsOk(nums', K + NodeKeys(ns, i))
    {
      i := i - 1;
      var n := ns[i];
      NodeKeysMore(ns, i, K);
      if !n.val.Nil? {
        OutsideMore(NodeKeys(ns, i + 1), n.key.k, MAXASIZE);
        if n.key.k.Int? {
          var c;
          c, nums' := CountInt(n.key.k.i, nums', K + NodeKeys(ns, i + 1));
          ause := ause + c;
        } else {
          CountMore(nums', K + NodeKeys(ns, i + 1), n.key.k, 0);
        }
        totaluse := totaluse + 1;
      }
    }
    pna' := pna + ause;
  }

  lemma NoNodeKeys(ns: Nodes, K: set<TValue>)
    ensures NodeKeys(ns, |ns|) == {} && K + {} == K && Within({}, MAXASIZE) == {}
  {
  }

  lemma NodeKeysMore(ns: Nodes, i: nat, K: set<TValue>)
    requires i < |ns| && (!ns[i].val.Nil? ==> ns[i].key.Live?) && K !! NodeKeys(ns, 0)
    requires forall x, y :: 0 <= x < y < |ns| && ns[x].key.Live? ==> ns[x].key != ns[y].key
    ensures ns[i].val.Nil? ==> NodeKeys(ns, i) == NodeKeys(ns, i + 1)
    ensures !ns[i].val.Nil? ==>
      && NodeKeys(ns, i) == NodeKeys(ns, i + 1) + {ns[i].key.k}
      && ns[i].key.k !in NodeKeys(ns, i + 1) && ns[i].key.k !in K
      && K + NodeKeys(ns, i) == (K + NodeKeys(ns, i + 1)) + {ns[i].key.k}
  {
    if !ns[i].val.Nil? {
      assert ns[i].key.k in NodeKeys(ns, 0);
      assert NodeKeys(ns, i) == NodeKeys(ns, i + 1) + {ns[i].key.k};
    }
  }

  // ----- the best size -----

  /** An array of this size is more than half in use. */
  predicate WellUsed(K: set<TValue>, n: nat) { |Within(K, n)| > n / 2 }

  /** `n` is the largest of the powers of two before the `i`-th that is well used, or zero. */
  ghost predicate BestBefore(K: set<TValue>, n: nat, i: nat) {
    && (n == 0 || exists l: nat :: l < i && n == Pow(l) && WellUsed(K, Pow(l)))
    && forall l: nat :: l < i && WellUsed(K, Pow(l)) ==> Pow(l) <= n
  }

  /** `n` is the largest power of two that is well used, or zero. */
  ghost predicate Optimal(K: set<TValue>, n: nat) { BestBefore(K, n, MAXABITS + 1) }

  /** `computesizes` */
  method ComputeSizes(nums: seq<nat>, pna: nat, ghost K: set<TValue>) returns (optimal: nat, na: nat)
    requires CountsOk(nums, K) && pna == |Within(K, MAXASIZE)|
    ensures Optimal(K, optimal) && optimal <= MAXASIZE && na == |Within(K, optimal)|
  {
    hide Within, SliceOf, BestBefore, WellUsed;
    var i, twotoi, a := 0, 1, 0;
    na, optimal := 0, 0;
    NoneBefore(K);
    MaxSize();
    while twotoi > 0 && pna > twotoi / 2
      invariant 0 <= i <= MAXABITS + 1 && twotoi == (if i <= MAXABITS then Pow(i) else 0)
      invariant a == |Within(K, Lower(i))| && na == |Within(K, optimal)| && optimal <= MAXASIZE
      invariant BestBefore(K, optimal, i)
      decreases MAXABITS + 1 - i
    {
      WithinMore(K, i);
      PowIncreases(i, MAXABITS);
      BestStep(K, optimal, i);
      a := a + nums[i];
      if a > twotoi / 2 {
        optimal, na := twotoi, a;
      }
      i, twotoi := i + 1, (twotoi * 2) % 0x1_0000_0000;
      if i <= MAXABITS { PowIncreases(i, MAXABITS); }
    }
    BestOfAll(K, optimal, i);
  }

  lemma NoneBefore(K: set<TValue>)
    ensures BestBefore(K, 0, 0) && |Within(K, 0)| == 0
  {
    assert Within(K, 0) == {};
  }

  lemma BestStep(K: set<TValue>, n: nat, i: nat)
    requires BestBefore(K, n, i)
    ensures BestBefore(K, if |Within(K, Pow(i))| > Pow(i) / 2 then Pow(i) else n, i + 1)
  {
    forall l: nat | l < i + 1 ensures Pow(l) <= Pow(i) { PowIncreases(l, i); }
  }

  /** There are no more keys than what the powers from the `i`-th on would need. */
  lemma BestOfAll(K: set<TValue>, n: nat, i: nat)
    requires BestBefore(K, n, i) && i <= MAXABITS + 1
    requires i <= MAXABITS ==> |Within(K, MAXASIZE)| <= Pow(i) / 2
    ensures Optimal(K, n)
  {
    MaxSize();
    forall l: nat | l <= MAXABITS && WellUsed(K, Pow(l)) ensures l < i {
      if i <= l {
        PowIncreases(i, l);
        PowIncreases(l, MAXABITS);
        SubsetSize(Within(K, Pow(l)), Within(K, MAXASIZE));
      }
    }
  }
}
