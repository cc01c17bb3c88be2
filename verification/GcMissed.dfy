/**
 Two runs, from the initial state, in which the atomic phase does not do what the program expects: an all-weak
 table that the propagate phase has put into `allweak` loses its new metatable, or, when it has become strong, an
 entry.
 */
module GcMissed {
  import opened GcObjects
  import opened GcMarking
  import opened GcInvariant
  import opened GcCollector
  import opened GcProgram
  import opened GcSweeping
  import opened GcForced

  const BLANK := Table(Strong, Nil, [Nil], [])

  /**
   The stack of the main thread, with its three registers; the weak table (1) and its first metatable (2) stay there.
   */
  function Main(x: Value): Object { Thread([Gc(1), Gc(2), x], 3, []) }

  /** The weak table has the metatable `mt` and one slot, `v`. */
  function Heap1(x: Value, w: Weakness, mt: Ref, v: Value): Heap {
    map[0 := Main(x), 1 := Table(w, Gc(mt), [v], []), 2 := BLANK]
  }

  /** The fixed parts of the state in both runs. */
  ghost predicate Plain(c: Collector)
    reads c
  {
    && c.Steady({}) && c.lost == {} && c.running == c.mainthread == 0 && c.finobj == c.tobefnz == c.fixedgc == []
    && forall i :: 0 <= i < |c.mt| ==> c.mt[i] == Nil
  }

  lemma BlankIsBlank()
    ensures Blank(BLANK)
  {
  }

  /** A new object in a register. */
  method Make(c: Collector, dst: nat)
    requires Plain(c) && 0 in c.heap && c.heap[0].Thread? && dst < c.heap[0].top <= |c.heap[0].stack|
    requires c.next !in c.heap && c.next > 0
    modifies c
    ensures Plain(c) && c.SameLists() && c.registry == old(c.registry) && c.next == old(c.next) + 1 && IsWhite(c.white)
    ensures var t := old(c.heap)[0];
            c.heap == old(c.heap)[old(c.next) := BLANK][0 := t.(stack := t.stack[dst := Gc(old(c.next))])]
    ensures c.color == old(c.color)[old(c.next) := c.white]
  {
    hide Collector.Steady, Collector.Safe, Collector.Loses, Collector.Kept, Collector.Unreachable, Collector.Does,
         Collector.Leaves, Collector.Ends, Collector.SeparatesFinalized, SameLive, Collector.Sweeps,
         Collector.Propagates, Collector.Restarts, Interned, Blank;
    BlankIsBlank();
    assert c.IsReg(dst);
    ghost var left := c.Execute(Create(dst, BLANK), {}, {});
    assert left == {};
  }

  /** The main thread with three registers. */
  method Open() returns (c: Collector)
    ensures fresh(c) && Plain(c) && c.phase.Pause? && c.heap == map[0 := Thread([Nil, Nil, Nil], 3, [])]
    ensures c.color.Keys == {0} && c.next == 1 && c.registry == Nil && c.color[0] == c.white
  {
    hide Collector.Steady, Collector.Safe, Collector.Loses, Collector.Kept, Collector.Unreachable, Collector.Does,
         Collector.Leaves, Collector.Ends, Collector.SeparatesFinalized, SameLive, Collector.Sweeps,
         Collector.Propagates, Collector.Restarts, Interned;
    c := new Collector(0);
    ghost var left := c.Execute(SetTop(3), {}, {});
    assert left == {};
    assert c.heap[0].stack == [Nil, Nil, Nil];
  }

  lemma Stacks(x: Value)
    ensures [Nil, Nil, Nil][0 := Gc(1)][1 := Gc(2)] == [Gc(1), Gc(2), Nil]
    ensures [Gc(1), Gc(2), Nil][2 := x] == [Gc(1), Gc(2), x] && [Gc(1), Gc(2), x][2 := Nil] == [Gc(1), Gc(2), Nil]
  {
  }

  /** The program makes the table and its metatable, and puts the table into the registry. */
  method Begin() returns (c: Collector)
    ensures fresh(c) && Plain(c) && c.phase.Pause? && c.heap == Heap1(Nil, AllWeak(Both), 2, Nil)
    ensures c.color.Keys == {0, 1, 2} && c.next == 3 && c.registry == Gc(1) && IsWhite(c.color[1])
  {
    hide Collector.Steady, Collector.Safe, Collector.Loses, Collector.Kept, Collector.Unreachable, Collector.Does,
         Collector.Leaves, Collector.Ends, Collector.SeparatesFinalized, SameLive, Collector.Sweeps,
         Collector.Propagates, Collector.Restarts, Interned, Blank;
    c := Open();
    Make(c, 0);
    Make(c, 1);
    Stacks(Nil);
    assert c.heap == map[0 := Main(Nil), 1 := BLANK, 2 := BLANK];
    assert c.SetsMetatable(0, 1) && c.Reg(0) == Gc(1) && c.Reg(1) == Gc(2);
    ghost var left := c.Execute(SetMetatable(0, 1, Both, false), {}, {});
    assert left == {};
    assert c.heap == Heap1(Nil, AllWeak(Both), 2, Nil);
    assert c.IsReg(0) && c.Reg(0) == Gc(1);
    left := c.Execute(SetRegistry(0), {}, {});
    assert left == {};
  }

  /** Between cycles nothing is marked. */
  lemma AllWhite(c: Collector)
    requires c.Valid({}) && c.phase.Pause? && c.fixedgc == []
    ensures IsWhite(c.white) && c.color.Keys == c.heap.Keys && forall o :: o in c.heap ==> c.color[o] == c.white
  {
    hide Collector.Steady;
    c.AtPause({});
  }

  /** Ready to propagate: the weak table is the first gray object. */
  ghost predicate Started(c: Collector, h: Heap, n: nat)
    reads c
  {
    && Plain(c) && c.phase.Propagate? && c.heap == h && c.color.Keys == h.Keys && c.next == n && c.registry == Gc(1)
    && h[1 := BLANK][0 := BLANK].Keys == h.Keys
  }

  /** A cycle starts. */
  method Restart(c: Collector)
    requires Plain(c) && c.phase.Pause? && c.registry == Gc(1)
    requires 0 in c.heap && c.heap[0].Thread? && 1 in c.heap && c.heap[1].Table?
    modifies c
    ensures Started(c, old(c.heap), old(c.next)) && c.gray != [] && c.gray[0] == 1
  {
    hide Collector.Steady, Collector.Safe, Collector.Loses, Collector.Kept, Collector.Unreachable, Collector.Does,
         Collector.Leaves, Collector.Ends, Collector.SeparatesFinalized, SameLive, Collector.Sweeps,
         Collector.Propagates, Interned;
    c.NothingFound({});
    AllWhite(c);
    ghost var left := c.Execute(Step(false), {}, {});
    assert left == {};
  }

  /** That heap, perhaps with new objects. */
  ghost predicate WithNew(h: Heap, x: Value, mt: Ref, v: Value) {
    && {0, 1, 2} <= h.Keys && (forall o :: o in h && o > 2 ==> h[o] == BLANK)
    && (forall o :: o in h && o <= 2 ==> h[o] == Heap1(x, AllWeak(Both), mt, v)[o])
    && (v.Gc? ==> v.ref in h)
  }

  /** Tidying up leaves these objects as they are. */
  lemma NothingToTidy(h: Heap, h': Heap, x: Value, mt: Ref, v: Value)
    requires HeapTidied(h, h') && WithNew(h, x, mt, v)
    ensures h' == h
  {
    forall o | o in h ensures h'[o] == h[o] {
      assert Pruned(h[o], h'[o]);
      if h[o].Table? {
        assert TableKeeps(h[o], h'[o], h.Keys) && h'[o].arr == h[o].arr && h'[o].nodes == h[o].nodes;
      } else {
        assert h'[o].stack == h[o].stack;
      }
    }
  }

  /** Goes on until the propagate phase is through; the weak table is in `allweak` then. */
  method Propagate(c: Collector, ghost h: Heap, ghost n: nat, ghost x: Value, ghost mt: Ref, ghost v: Value)
    requires Started(c, h, n) && c.gray != [] && c.gray[0] == 1
    requires WithNew(h, x, mt, v)
    modifies c
    ensures Started(c, h, n) && c.gray == [] && 1 in c.allweak
  {
    hide Collector.Steady, Collector.Safe, Collector.Loses, Collector.Kept, Collector.Unreachable, Collector.Does,
         Collector.Leaves, Collector.Ends, Collector.SeparatesFinalized, SameLive, Collector.Sweeps, Interned,
         SuffixOf, HeapTidied, Marked, Collector.Creates, Collector.Clears, Collector.Stores, Collector.Registers,
         Collector.Tops, Collector.SetsIt, Collector.ChangesMode, Collector.Restarts, Collector.StronglyReachable,
         AtomicKeeps, Sealed;
    var first := true;
    while first || c.gray != []
      invariant Started(c, h, n)
      invariant if first then c.gray != [] && c.gray[0] == 1 else 1 in c.allweak
      decreases first, h.Keys - Marked(c.color), |c.gray|
    {
      ghost var all, m := c.allweak, Marked(c.color);
      ghost var left := c.Execute(Step(false), {}, {});
      assert left == {};
      NothingToTidy(h, c.heap, x, mt, v);
      SuffixElems(all, c.allweak);
      InElems(all, c.allweak);
      MarkedLess(c.color, m);
      first := false;
    }
  }

  lemma InElems(a: seq<Ref>, b: seq<Ref>)
    requires Elems(a) <= Elems(b)
    ensures forall o :: o in a ==> o in b
  {
    forall o | o in a ensures o in b { assert o in Elems(a); }
  }

  lemma MarkedLess(c: Colors, m: set<Ref>)
    ensures m < Marked(c) ==> c.Keys - Marked(c) < c.Keys - m
    ensures m <= Marked(c) ==> c.Keys - Marked(c) <= c.Keys - m
  {
    assert Marked(c) <= c.Keys;
    if m < Marked(c) {
      var x :| x in Marked(c) && x !in m;
      assert x in c.Keys - m && x !in c.Keys - Marked(c);
    }
  }

  /** Everything but object 3 is a closed set that the atomic phase stays in. */
  lemma NewIsForgotten(c: Collector)
    requires Plain(c) && c.registry == Gc(1) && c.heap.Keys == {0, 1, 2, 3} && c.color.Keys == c.heap.Keys
    requires IsWhite(c.color[3])
    requires c.heap[0] == Main(Nil) && c.heap[2] == c.heap[3] == BLANK && c.heap[1].Table? && c.heap[1].nodes == []
    requires 1 in c.Missed() || (c.heap[1].weakness.AllWeak? && c.heap[1].metatable == Gc(2))
    requires forall i :: 0 <= i < |c.heap[1].arr| ==> c.heap[1].arr[i] == Nil || c.heap[1].arr[i] == Gc(3)
    ensures 3 !in c.Kept() && {0, 1, 2} <= c.Kept()
  {
    hide Collector.Steady, Collector.Missed;
    var h, s := c.heap, {0, 1, 2};
    assert c.Roots() <= s && {0, 1} <= c.Roots();
    assert Marked(c.color) <= s;
    assert c.Beginning() <= s;
    MissedTables(c);
    forall o | o in s && o in h
      ensures if o in c.Missed() then h[o].Table? && StringsIn(h, h[o], s) else TracedIn(h, h[o], s)
    {
    }
    ForcedWithin(h, c.Beginning(), c.Missed(), s);
    forall t | Closes(h, c.Beginning(), c.Missed(), t) ensures s <= t {
      assert 0 in t && 0 !in c.Missed();
      assert TracedIn(h, h[0], t) && h[0].stack[1] == Gc(2);
    }
  }

  lemma MissedTables(c: Collector)
    ensures forall o :: o in c.Missed() ==> o in c.heap && c.heap[o].Table? && c.heap[o].metatable.Gc?
  {
  }

  /** After the atomic phase: what the program still refers to, and that object 3 is dead. */
  ghost predicate Swept3(c: Collector, mt: Ref)
    reads c
  {
    && c.Steady({}) && IsWhite(c.white) && 3 !in c.Safe({}) && {0, 1} <= c.Safe({}) && {0, 1} <= c.heap.Keys
    && c.running == c.mainthread == 0 && c.registry == Gc(1)
    && c.heap[1].Table? && c.heap[1].metatable == Gc(mt)
    && c.heap[0].Thread? && c.heap[0].top == 3 == |c.heap[0].stack| && c.heap[0].stack[0] == Gc(1)
  }

  /** Runs the sweep to its end; object 3 is freed. */
  method FinishSweep(c: Collector, ghost mt: Ref)
    requires Swept3(c, mt) && Sweeping(c.phase)
    modifies c
    ensures Swept3(c, mt) && c.phase.SweepEnd? && 3 !in c.heap && c.lost == old(c.lost)
    ensures c.heap[1] == old(c.heap[1])
  {
    hide Collector.Steady, Collector.Safe, Collector.Loses, Collector.Kept, Collector.Unreachable, Collector.Does,
         Collector.Leaves, Collector.Ends, Collector.SeparatesFinalized, Interned;
    while Sweeping(c.phase)
      invariant Swept3(c, mt) && c.lost == old(c.lost) && (Sweeping(c.phase) || c.phase.SweepEnd?)
      invariant c.heap[1] == old(c.heap[1])
      decreases c.SweepIndex(), c.SweepRest()
    {
      ghost var h := c.heap;
      ghost var left := c.Execute(Step(false), {}, {});
      assert left == {};
      assert SameObject(h, c.heap, c.Safe({}), 1) && SameObject(h, c.heap, c.Safe({}), 0);
    }
    c.AtEnd({});
  }

  /** The propagate phase is through, and there is a new object (3) in the third register. */
  ghost predicate Midway(c: Collector, h: Heap)
    reads c
  {
    && Plain(c) && c.phase.Propagate? && c.gray == [] && 1 in c.allweak && c.registry == Gc(1) && c.heap == h
    && c.color.Keys == {0, 1, 2, 3} && IsWhite(c.color[3]) && c.color[1].Gray?
  }

  method BeginMidway() returns (c: Collector)
    ensures fresh(c) && Midway(c, Heap1(Gc(3), AllWeak(Both), 2, Nil)[3 := BLANK])
  {
    hide Collector.Steady, Collector.Safe, Collector.Kept, Collector.Unreachable, Collector.Does, Collector.Leaves,
         Collector.Ends, Collector.SeparatesFinalized, SameLive, Collector.Sweeps, Interned, HeapTidied, SuffixOf,
         Collector.Loses;
    c := Begin();
    Restart(c);
    Propagate(c, c.heap, 3, Nil, 2, Nil);
    Stacks(Gc(3));
    Make(c, 2);
    assert c.heap == Heap1(Gc(3), AllWeak(Both), 2, Nil)[3 := BLANK];
    c.AllWeakAreGray({});
  }

  /** The program drops the new object. */
  method Drop(c: Collector, ghost w: Weakness, ghost mt: Ref, ghost v: Value)
    requires Midway(c, Heap1(Gc(3), w, mt, v)[3 := BLANK])
    modifies c
    ensures Midway(c, Heap1(Nil, w, mt, v)[3 := BLANK])
  {
    hide Collector.Steady, Collector.Safe, Collector.Kept, Collector.Unreachable, Collector.Does, Collector.Leaves,
         Collector.Ends, Collector.SeparatesFinalized, SameLive, Collector.Sweeps, Interned, HeapTidied, SuffixOf,
         Collector.Loses;
    Stacks(Gc(3));
    assert c.IsReg(2);
    ghost var left := c.Execute(Clear(2), {}, {});
    assert left == {};
    assert c.heap == Heap1(Nil, w, mt, v)[3 := BLANK];
  }

  /** The atomic phase; object 3 is dead after it. */
  method Atomic(c: Collector, ghost w: Weakness, ghost mt: Ref, ghost v: Value)
    requires Midway(c, Heap1(Nil, w, mt, v)[3 := BLANK]) && w.AllWeak? && (v == Nil || v == Gc(3))
    requires (mt == 2 || mt == 3)
    modifies c
    ensures Swept3(c, mt) && c.phase.SweepAllGc? && c.heap[1].weakness == Treated(ModeNow(w))
    ensures mt == 2 ==> Gc(3) !in c.heap[1].arr
  {
    hide Collector.Steady, Collector.Safe, Collector.Kept, Collector.Unreachable, Collector.Does, Collector.Leaves,
         Collector.Ends, Collector.SeparatesFinalized, SameLive, Collector.Sweeps, Interned, HeapTidied, SuffixOf,
         Sealed, Collector.Creates, Collector.Clears, Collector.Stores, Collector.Registers, Collector.Tops,
         Collector.SetsIt, Collector.ChangesMode, Collector.Restarts, Collector.StronglyReachable;
    ghost var left := c.Execute(Step(false), {}, {});
    assert left == {};
    assert mt == 3 ==> 1 in c.Missed();
    NewIsForgotten(c);
    NothingLost(c);
    ghost var h := c.heap;
    left := c.Execute(Step(false), {}, {});
    assert left == {};
    assert AtomicKeeps(h, c.heap, c.Safe({})) && ObjectKept(h[0], c.heap[0]) && ObjectKept(h[1], c.heap[1]);
    if mt == 2 { SealedTable(c.heap, c.Safe({})); }
  }

  lemma NothingLost(c: Collector)
    requires 2 in c.Kept() && 1 in c.heap && c.heap[1].Table?
    requires forall o :: o in c.heap && o != 1 && c.heap[o].Table? ==> c.heap[o].metatable == Nil
    ensures c.heap[1].metatable == Gc(2) ==> c.Loses() == {}
  {
  }

  lemma SealedTable(h: Heap, s: set<Ref>)
    requires Sealed(h, s) && 1 in s && 3 !in s && 1 in h && h[1].Table?
    ensures Gc(3) !in h[1].arr
  {
    assert Inside(h, h[1], s);
  }

  /**
   The weak table gets a new metatable after the propagate phase has put it into `allweak`; the new one is freed,
   though the table is in use.
   */
  method LosesMetatable() returns (c: Collector)
    ensures c.running == 0 && 0 in c.heap && c.heap[0].Thread? && c.heap[0].stack != [] && c.heap[0].stack[0] == Gc(1)
    ensures 1 in c.heap && c.heap[1].Table? && c.heap[1].metatable == Gc(3) && 3 !in c.heap
  {
    hide Collector.Steady, Collector.Safe, Collector.Kept, Collector.Unreachable, Collector.Does, Collector.Leaves,
         Collector.Ends, Collector.SeparatesFinalized, SameLive, Collector.Sweeps, Interned, HeapTidied, SuffixOf,
         Collector.Loses;
    c := BeginMidway();
    assert c.SetsMetatable(0, 2) && c.Reg(0) == Gc(1) && c.Reg(2) == Gc(3);
    ghost var left := c.Execute(SetMetatable(0, 2, Both, false), {}, {});
    assert left == {};
    assert c.heap == Heap1(Gc(3), AllWeak(Both), 3, Nil)[3 := BLANK];
    Drop(c, AllWeak(Both), 3, Nil);
    Atomic(c, AllWeak(Both), 3, Nil);
    FinishSweep(c, 3);
  }

  /**
   The weak table becomes strong after the propagate phase has put it into `allweak`; what only it refers to is
   cleared from it and freed.
   */
  method LosesEntry() returns (c: Collector)
    ensures c.running == 0 && 0 in c.heap && c.heap[0].Thread? && c.heap[0].stack != [] && c.heap[0].stack[0] == Gc(1)
    ensures 1 in c.heap && c.heap[1].Table? && c.heap[1].weakness.Strong? && Gc(3) !in c.heap[1].arr && 3 !in c.heap
  {
    hide Collector.Steady, Collector.Safe, Collector.Kept, Collector.Unreachable, Collector.Does, Collector.Leaves,
         Collector.Ends, Collector.SeparatesFinalized, SameLive, Collector.Sweeps, Interned, HeapTidied, SuffixOf,
         Collector.Loses;
    c := BeginMidway();
    assert c.IsReg(0) && c.IsReg(2) && c.Reg(0) == Gc(1) && c.Reg(2) == Gc(3);
    ghost var left := c.Execute(SetMode(0, Nothing), {}, {});
    assert left == {};
    assert c.heap == Heap1(Gc(3), AllWeak(Nothing), 2, Nil)[3 := BLANK];
    left := c.Execute(Store(0, Element(0), 2), {}, {});
    assert left == {};
    assert [Nil][0 := Gc(3)] == [Gc(3)];
    assert c.heap == Heap1(Gc(3), AllWeak(Nothing), 2, Gc(3))[3 := BLANK];
    Drop(c, AllWeak(Nothing), 2, Gc(3));
    Atomic(c, AllWeak(Nothing), 2, Gc(3));
    FinishSweep(c, 2);
  }
}
