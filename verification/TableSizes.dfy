/**
 Powers of two and the bit tricks with which tables (ltable.c) deal with the size of their array part:
 `ispow2`, `luaH_realasize`, the test in `luaH_getint`, and `luaO_ceillog2` (lobject.c).
 */
module TableSizes {

  function Pow(n: nat): (r: nat)
    ensures r > 0
  {
    if n == 0 then 1 else 2 * Pow(n - 1)
  }

  lemma {:induction false} PowIncreases(a: nat, b: nat)
    requires a <= b
    ensures Pow(a) <= Pow(b) && (a < b ==> 2 * Pow(a) <= Pow(b))
    decreases b - a
  {
    if a < b { PowIncreases(a + 1, b); }
  }

  // ----- bitwise operations on natural numbers -----

  function And(x: nat, y: nat): nat {
    if x == 0 then 0 else 2 * And(x / 2, y / 2) + if x % 2 == 1 && y % 2 == 1 then 1 else 0
  }

  /** `x & ~y` */
  function AndNot(x: nat, y: nat): nat {
    if x == 0 then 0 else 2 * AndNot(x / 2, y / 2) + if x % 2 == 1 && y % 2 == 0 then 1 else 0
  }

  function Or(x: nat, y: nat): nat
    decreases x + y
  {
    if x == 0 then y else 2 * Or(x / 2, y / 2) + if x % 2 == 1 || y % 2 == 1 then 1 else 0
  }

  function Shift(x: nat, n: nat): nat { if n == 0 then x else Shift(x / 2, n - 1) }

  // ----- powers of two -----

  /** `ispow2`; zero passes as well. */
  predicate IsPow2(x: nat) { x == 0 || And(x, x - 1) == 0 }

  lemma {:induction false} Pow2IsPow(x: nat)
    requires x > 0
    ensures IsPow2(x) <==> exists n: nat :: x == Pow(n)
  {
    if x == 1 {
      assert Pow(0) == 1;
    } else if x % 2 == 0 {
      Pow2IsPow(x / 2);
      assert (x - 1) / 2 == x / 2 - 1;
      if n: nat :| x / 2 == Pow(n) { assert x == Pow(n + 1); }
      if n: nat :| x == Pow(n) { assert x / 2 == Pow(n - 1); }
    } else {
      assert (x - 1) / 2 == x / 2;
      AndSelf(x / 2);
      assert And(x, x - 1) == 2 * And(x / 2, (x - 1) / 2);
      if n: nat :| x == Pow(n) { assert x == 2 * Pow(n - 1); }
    }
  }

  lemma {:induction false} AndSelf(x: nat)
    ensures And(x, x) == x
  {
    if x > 0 { AndSelf(x / 2); }
  }

  /** The smallest power of two not below `x`; zero for zero. */
  ghost predicate IsCeiling(x: nat, s: nat) {
    if x == 0 then s == 0 else x <= s < 2 * x && exists n: nat :: s == Pow(n)
  }

  lemma CeilingUnique(x: nat, s: nat, s': nat)
    requires IsCeiling(x, s) && IsCeiling(x, s')
    ensures s == s'
  {
    if x > 0 {
      var m: nat :| s == Pow(m);
      var n: nat :| s' == Pow(n);
      if m < n { PowIncreases(m, n); } else if n < m { PowIncreases(n, m); }
    }
  }

  /** Numbers in the upper half have the same ceiling. */
  lemma CeilingSame(x: nat, y: nat, s: nat)
    requires IsCeiling(x, s) && s / 2 < y <= s && x > 0
    ensures IsCeiling(y, s)
  {
    var m: nat :| s == Pow(m);
    assert m > 0 ==> s == 2 * Pow(m - 1);
  }

  // ----- the size behind a hint -----

  /** All ones, as long as `x`. */
  function Fill(x: nat): nat { if x == 0 then 0 else 2 * Fill(x / 2) + 1 }

  /** `x`, `x >> 1`, and so on, `m` of them, or-ed. */
  function Smeared(x: nat, m: nat): nat { if m == 0 then 0 else Or(x, Smeared(x / 2, m - 1)) }

  lemma {:induction false} OrAssociative(x: nat, y: nat, z: nat)
    ensures Or(Or(x, y), z) == Or(x, Or(y, z))
    decreases x + y + z
  {
    if x > 0 && y > 0 {
      OrAssociative(x / 2, y / 2, z / 2);
    } else if x > 0 {
      assert Or(0, z) == z;
      OrZero(x);
    }
  }

  lemma {:induction false} OrZero(x: nat)
    ensures Or(x, 0) == x
  {
    if x > 0 { OrZero(x / 2); }
  }

  lemma OrHalf(x: nat, y: nat)
    ensures Or(x, y) / 2 == Or(x / 2, y / 2)
  {
  }

  lemma {:induction false} SmearedHalf(x: nat, m: nat)
    ensures Smeared(x, m) / 2 == Smeared(x / 2, m)
  {
    if m > 0 {
      OrHalf(x, Smeared(x / 2, m - 1));
      SmearedHalf(x / 2, m - 1);
    }
  }

  lemma {:induction false} SmearedShift(x: nat, m: nat, n: nat)
    ensures Shift(Smeared(x, m), n) == Smeared(Shift(x, n), m)
    decreases n
  {
    if n > 0 {
      SmearedHalf(x, m);
      SmearedShift(x / 2, m, n - 1);
    }
  }

  lemma {:induction false} SmearedMore(x: nat, a: nat, b: nat)
    ensures Smeared(x, a + b) == Or(Smeared(x, a), Smeared(Shift(x, a), b))
    decreases a
  {
    if a > 0 {
      SmearedMore(x / 2, a - 1, b);
      OrAssociative(x, Smeared(x / 2, a - 1), Smeared(Shift(x, a), b));
    }
  }

  /** `size |= (size >> m)` doubles the run of ones. */
  lemma SmearStep(x: nat, m: nat)
    ensures Or(Smeared(x, m), Shift(Smeared(x, m), m)) == Smeared(x, m + m)
  {
    SmearedShift(x, m, m);
    SmearedMore(x, m, m);
  }

  lemma {:induction false} OrFill(x: nat)
    requires x > 0
    ensures Or(x, Fill(x / 2)) == Fill(x)
  {
    if x / 2 > 0 {
      OrFill(x / 2);
    } else {
      OrZero(x);
    }
  }

  lemma {:induction false} SmearedFills(x: nat, m: nat)
    requires x < Pow(m)
    ensures Smeared(x, m) == Fill(x)
    decreases m
  {
    if m > 0 {
      SmearedFills(x / 2, m - 1);
      if x > 0 { OrFill(x); }
    }
  }

  lemma {:induction false} FillIsCeiling(x: nat)
    requires x > 0
    ensures exists n: nat :: Fill(x) + 1 == Pow(n)
    ensures x <= Fill(x) && Fill(x) + 1 <= 2 * x
  {
    if x == 1 {
      assert Fill(1) + 1 == Pow(1);
    } else {
      FillIsCeiling(x / 2);
      var n: nat :| Fill(x / 2) + 1 == Pow(n);
      assert Fill(x) + 1 == Pow(n + 1);
    }
  }

  /** Bit by bit, as `luaH_realasize` computes it for 32-bit numbers. */
  function NextPow2(x: nat): nat {
    var a := Or(x, Shift(x, 1));
    var b := Or(a, Shift(a, 2));
    var c := Or(b, Shift(b, 4));
    var d := Or(c, Shift(c, 8));
    Or(d, Shift(d, 16)) + 1
  }

  lemma NextIsFill(x: nat)
    requires x < Pow(32)
    ensures NextPow2(x) == Fill(x) + 1
  {
    assert Smeared(x, 1) == x by { OrZero(x); assert Smeared(x / 2, 0) == 0; }
    hide Or, Shift, Smeared, Fill, Pow;
    SmearStep(x, 1);
    SmearStep(x, 2);
    SmearStep(x, 4);
    SmearStep(x, 8);
    SmearStep(x, 16);
    SmearedFills(x, 32);
  }

  lemma HalfIsPow(x: nat, n: nat)
    requires 2 * x == Pow(n)
    ensures exists m: nat :: x == Pow(m)
  {
    assert x == Pow(n - 1);
  }

  lemma NextIsCeiling(x: nat)
    requires x < Pow(32) && !IsPow2(x)
    ensures IsCeiling(x, NextPow2(x))
  {
    assert x > 0;
    hide NextPow2, Fill, IsPow2;
    NextIsFill(x);
    Pow2IsPow(x);
    FillIsCeiling(x);
    var n: nat :| Fill(x) + 1 == Pow(n);
    if 2 * x == Pow(n) { HalfIsPow(x, n); }
  }

  // ----- the test with one mask -----

  /** The mask clears the highest bit of `y` and keeps all bits above. */
  lemma {:induction false} MaskedBits(x: nat, y: nat, p: nat)
    requires Pow(p) <= y < Pow(p + 1)
    ensures if x < Pow(p + 1) then AndNot(x, y) < Pow(p) else AndNot(x, y) >= Pow(p + 1)
    decreases p
  {
    if p == 0 {
      assert Pow(1) == 2 && y == 1;
      assert AndNot(x, y) == 2 * AndNot(x / 2, 0);
      AndNotZero(x / 2);
    } else {
      MaskedBits(x / 2, y / 2, p - 1);
    }
  }

  lemma {:induction false} AndNotZero(x: nat)
    ensures AndNot(x, 0) == x
  {
    if x > 0 { AndNotZero(x / 2); }
  }

  /** `luaH_getint`: one mask tells whether a key is inside the array, whatever the hint. */
  lemma MaskIsExact(k: nat, limit: nat, size: nat)
    requires IsCeiling(limit, size) && limit > 0
    ensures AndNot(k, limit - 1) < limit <==> k < size
  {
    if limit == 1 {
      AndNotZero(k);
      CeilingUnique(1, size, 1) by { assert Pow(0) == 1; }
    } else {
      var n: nat :| size == Pow(n);
      if n == 0 { assert false; }
      assert Pow(n) == 2 * Pow(n - 1);
      MaskedBits(k, limit - 1, n - 1);
    }
  }

  // ----- logarithms -----

  ghost predicate IsCeilLog(x: nat, n: nat) { x <= Pow(n) && (n > 0 ==> Pow(n - 1) < x) }

  lemma CeilLogUnique(x: nat, m: nat, n: nat)
    requires IsCeilLog(x, m) && IsCeilLog(x, n)
    ensures m == n
  {
    if m < n { PowIncreases(m, n - 1); } else if n < m { PowIncreases(n, m - 1); }
  }

  function Times(n: nat, v: nat): seq<nat> { seq(n, _ => v) }

  /** The table of `luaO_ceillog2`: entry `i` is for `i + 1`. */
  const log_2: seq<nat> :=
    [0, 1] + Times(2, 2) + Times(4, 3) + Times(8, 4) + Times(16, 5) + Times(32, 6) + Times(64, 7) + Times(128, 8)

  lemma SmallLogs(i: nat)
    requires i < 256
    ensures i < |log_2| && IsCeilLog(i + 1, log_2[i])
  {
  }

  /** Eight bits more. */
  lemma LogOfByte(x: nat, n: nat)
    requires x >= 256 && IsCeilLog(x / 256 + 1, n)
    ensures IsCeilLog(x + 1, n + 8)
  {
    PowOfByte(n);
    if n > 0 { PowOfByte(n - 1); }
  }

  lemma PowOfByte(n: nat)
    ensures Pow(n + 8) == 256 * Pow(n)
  {
    assert Pow(n + 4) == 16 * Pow(n) && Pow(n + 8) == 16 * Pow(n + 4) by {
      assert Pow(n + 2) == 4 * Pow(n) && Pow(n + 4) == 4 * Pow(n + 2);
      assert Pow(n + 6) == 4 * Pow(n + 4) && Pow(n + 8) == 4 * Pow(n + 6);
    }
  }

  /** A logarithm of `z` gives one of `x`. */
  ghost predicate LogVia(x: nat, z: nat, l: nat) {
    forall n: nat :: IsCeilLog(z, n) ==> IsCeilLog(x, n + l)
  }

  /** `luaO_ceillog2` */
  method CeilLog2(x: nat) returns (r: nat)
    requires x > 0
    ensures IsCeilLog(x, r)
  {
    var y, l := x - 1, 0;
    while y >= 256
      invariant y >= 0 && l >= 0 && LogVia(x, y + 1, l)
    {
      ghost var z := y / 256 + 1;
      forall n: nat | IsCeilLog(z, n) ensures IsCeilLog(x, n + (l + 8)) { LogOfByte(y, n); }
      y, l := y / 256, l + 8;
    }
    SmallLogs(y);
    r := l + log_2[y];
  }
}
