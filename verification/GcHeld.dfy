/**
 What strong references lead to is left alone by every step of the collector; and what a program that changes
 modes of tables has to know about it.
 */
module GcHeld {
  import opened GcObjects
  import opened GcMarking
  import opened GcInvariant
  import opened GcProgram
  import opened GcSweeping

  /** Every strong reference of the objects in `s` is still there. */
  ghost predicate HoldsOn(h: Heap, h': Heap, s: set<Ref>) {
    forall o, r :: o in h && o in s && Holds(h, o, r) ==> o in h' && Holds(h', o, r)
  }

  /** Tracing follows every strong reference. */
  lemma HoldsIsTraced(h: Heap, s: set<Ref>, o: Ref, r: Ref)
    requires Traced(h, s, {}) && o in s && o in h && Holds(h, o, r)
    ensures r in s
  {
    assert TracedIn(h, h[o], s);
    match h[o] {
      case Table(w, mt, arr, nodes) =>
        if i :| 0 <= i < |nodes| && NodeHolds(w, nodes[i], r) { assert NodeTraced(h, w, nodes[i], s); }
      case _ =>
    }
  }

  lemma {:induction false} HeldIsTraced(h: Heap, s: set<Ref>, p: seq<Ref>)
    requires Traced(h, s, {}) && StrongPath(h, p) && p[0] in s
    ensures p[|p| - 1] in s
    decreases |p|
  {
    if |p| > 1 {
      assert p[0] in h && Holds(h, p[0], p[1]);
      HoldsIsTraced(h, s, p[0], p[1]);
      forall i | 0 <= i < |p| - 2 ensures p[1..][i] in h && Holds(h, p[1..][i], p[1..][i + 1]) {
        assert p[i + 1] in h && Holds(h, p[i + 1], p[i + 2]);
      }
      HeldIsTraced(h, s, p[1..]);
    }
  }

  lemma PathOn(h: Heap, h': Heap, s: set<Ref>, p: seq<Ref>)
    requires HoldsOn(h, h', s) && StrongPath(h, p) && forall i :: 0 <= i < |p| - 1 ==> p[i] in s
    ensures StrongPath(h', p)
  {
    forall i | 0 <= i < |p| - 1 ensures p[i] in h' && Holds(h', p[i], p[i + 1]) {
      assert p[i] in h && Holds(h, p[i], p[i + 1]);
    }
  }

  lemma HeldOn(h: Heap, h': Heap, roots: set<Ref>, roots': set<Ref>)
    requires HoldsOn(h, h', h.Keys) && roots <= roots'
    ensures forall o :: HeldFrom(h, roots, o) ==> HeldFrom(h', roots', o)
  {
    forall o | HeldFrom(h, roots, o) ensures HeldFrom(h', roots', o) {
      var p :| p != [] && StrongPath(h, p) && p[0] in roots && p[|p| - 1] == o;
      PathOn(h, h', h.Keys, p);
    }
  }

  lemma HeldMore(h: Heap, roots: set<Ref>, roots': set<Ref>)
    requires roots <= roots'
    ensures forall o :: HeldFrom(h, roots, o) ==> HeldFrom(h, roots', o)
  {
  }

  /** The thread has these objects on top of its stack, in this order. */
  ghost predicate PushedOn(o: Object, o': Object, list: seq<Ref>) {
    && o.Thread? && o'.Thread? && o'.openupval == o.openupval && o'.top == o.top + |list| <= |o'.stack|
    && (forall i :: 0 <= i < |o.stack| && i < o.top ==> o'.stack[i] == o.stack[i])
    && forall k :: 0 <= k < |list| ==> o'.stack[o.top + k] == Gc(list[k])
  }

  lemma PushedMore(o: Object, o': Object, o'': Object, list: seq<Ref>, r: Ref)
    requires PushedOn(o, o', list) && o'' == WithPushed(o', Gc(r)) && o.top <= |o.stack|
    ensures PushedOn(o, o'', list + [r])
  {
    assert o''.stack[o'.top] == Gc(r);
  }

  /** These objects were linked into a list one by one, so the last one comes first. */
  ghost predicate LinkedBefore(list: seq<Ref>, l: seq<Ref>, l': seq<Ref>) {
    && |l'| == |list| + |l| && l'[|list|..] == l
    && forall k :: 0 <= k < |list| ==> l'[|list| - 1 - k] == list[k]
  }

  lemma LinkedMore(list: seq<Ref>, l: seq<Ref>, l': seq<Ref>, r: Ref)
    requires LinkedBefore(list, l, l')
    ensures LinkedBefore(list + [r], l, [r] + l')
  {
    var l'' := [r] + l';
    forall k | 0 <= k < |list| + 1 ensures l''[|list| - k] == (list + [r])[k] {
      if k < |list| { assert l''[|list| - k] == l'[|list| - 1 - k]; }
    }
  }

  lemma PushedOnHolds(h: Heap, h': Heap, th: Ref, list: seq<Ref>)
    requires Linked(h) && th in h && th in h' && h'.Keys == h.Keys && PushedOn(h[th], h'[th], list)
    requires forall o :: o in h && o != th ==> h'[o] == h[o]
    ensures HoldsOn(h, h', h.Keys) && forall o :: o in Elems(list) ==> Holds(h', th, o)
  {
    forall o, r | o in h && Holds(h, o, r) ensures Holds(h', o, r) {
      if h[o].OpenUpVal? && h[o].thread == th {
        assert LinkedUpVal(h, o) && LinkedThread(h, th);
      }
    }
  }

  lemma PrunedOn(h: Heap, h': Heap)
    requires HeapPruned(h, h') && Linked(h)
    ensures HoldsOn(h, h', h.Keys)
  {
    forall o, r | o in h && Holds(h, o, r) ensures o in h' && Holds(h', o, r) { HoldsStays(h, h', o, r); }
  }

  lemma RefreshedOn(h: Heap)
    requires Linked(h)
    ensures HoldsOn(h, Refreshed(h), h.Keys)
  {
    var h' := Refreshed(h);
    forall o, r | o in h && Holds(h, o, r) ensures Holds(h', o, r) { RefreshedHolds(h, o, r); }
  }

  lemma RefreshedHolds(h: Heap, o: Ref, r: Ref)
    requires Linked(h) && o in h && Holds(h, o, r)
    ensures Holds(Refreshed(h), o, r)
  {
    SlotOfLinked(h, o);
    match h[o] {
      case Table(w, mt, arr, nodes) =>
        if i :| 0 <= i < |nodes| && NodeHolds(w, nodes[i], r) {
          assert NodeHolds(Treated(ModeNow(w)), Refreshed(h)[o].nodes[i], r);
        }
      case _ =>
    }
  }

  /** A sweep leaves the objects in reach alone. */
  lemma {:induction false} PathLives(h: Heap, h': Heap, s: set<Ref>, p: seq<Ref>)
    requires SameLive(h, h', s) && Sealed(h, s) && Linked(h) && Linked(h') && StrongPath(h, p) && p[0] in s
    ensures StrongPath(h', p) && p[|p| - 1] in s
    decreases |p|
  {
    if |p| > 1 {
      assert p[0] in h && Holds(h, p[0], p[1]);
      HoldsRefers(h, p[0], p[1]);
      assert Path(h, p[..2]) by { assert p[..2][0] == p[0] && p[..2][1] == p[1]; }
      ReachesOnlySealed(h, s, p[..2]);
      HoldsLives(h, h', s, p[0], p[1]);
      var q := p[1..];
      forall i | 0 <= i < |q| - 1 ensures q[i] in h && Holds(h, q[i], q[i + 1]) {
        assert p[i + 1] in h && Holds(h, p[i + 1], p[i + 2]);
      }
      PathLives(h, h', s, q);
      forall i | 0 <= i < |p| - 1 ensures p[i] in h' && Holds(h', p[i], p[i + 1]) {
        if i > 0 { assert q[i - 1] in h' && Holds(h', q[i - 1], q[i]); }
      }
    }
  }

  lemma HoldsLives(h: Heap, h': Heap, s: set<Ref>, o: Ref, r: Ref)
    requires SameLive(h, h', s) && Linked(h) && Linked(h') && o in s && o in h && Holds(h, o, r) && r in s
    ensures o in h' && Holds(h', o, r)
  {
    assert SameObject(h, h', s, o);
    if h[o].OpenUpVal? && h'[o] == h[o] {
      SlotOfLinked(h', o);
      assert LinkedUpVal(h', o);
    }
  }

  lemma HeldLives(h: Heap, h': Heap, s: set<Ref>, roots: set<Ref>)
    requires SameLive(h, h', s) && Sealed(h, s) && Linked(h) && Linked(h') && roots <= s
    ensures forall o :: HeldFrom(h, roots, o) ==> HeldFrom(h', roots, o)
  {
    forall o | HeldFrom(h, roots, o) ensures HeldFrom(h', roots, o) {
      var p :| p != [] && StrongPath(h, p) && p[0] in roots && p[|p| - 1] == o;
      PathLives(h, h', s, p);
    }
  }

  /** Objects to be finalized may as well be held by the running thread. */
  lemma HeldByThread(h: Heap, roots: set<Ref>, th: Ref, moved: set<Ref>)
    requires th in roots && th in h && forall o :: o in moved ==> Holds(h, th, o)
    ensures forall o :: HeldFrom(h, roots + moved, o) ==> HeldFrom(h, roots, o)
  {
    forall o | HeldFrom(h, roots + moved, o) ensures HeldFrom(h, roots, o) {
      var p :| p != [] && StrongPath(h, p) && p[0] in roots + moved && p[|p| - 1] == o;
      if p[0] !in roots {
        var q := [th] + p;
        forall i | 0 <= i < |q| - 1 ensures q[i] in h && Holds(h, q[i], q[i + 1]) {
          if i > 0 { assert p[i - 1] in h && Holds(h, p[i - 1], p[i]); }
        }
        assert q[0] in roots && q[|q| - 1] == o;
      }
    }
  }

  // ----- modes -----

  /** The table is all-weak to the collector in this cycle, though its metatable says something else by now. */
  predicate Late(o: Object) { o.Table? && o.weakness != Treated(ModeNow(o.weakness)) }

  /**
   By the modes as the program sees them, an object holds just what the collector respects, but for the tables
   that are all-weak to it for the rest of the cycle: of these it respects the metatables only.
   */
  lemma ModesAreRespected(h: Heap, o: Ref, r: Ref)
    requires Linked(h) && o in h
    ensures !Late(h[o]) ==> (Holds(Refreshed(h), o, r) <==> Holds(h, o, r))
    ensures Late(h[o]) ==> (Holds(h, o, r) <==> h[o].metatable == Gc(r))
  {
    SlotOfLinked(h, o);
    if h[o].Table? && !Late(h[o]) { assert Refreshed(h)[o] == h[o]; }
  }
}
