/**
 What the atomic phase marks, told in advance: the least set that has the start of the phase in it and is
 closed under tracing.
 */
module GcForced {
  import opened GcObjects
  import opened GcMarking

  ghost predicate Closes(h: Heap, start: set<Ref>, but: set<Ref>, s: set<Ref>) { start <= s && Traced(h, s, but) }

  /** In every set that has `start` and is closed under tracing, the tables in `but` aside. */
  ghost function Forced(h: Heap, start: set<Ref>, but: set<Ref>): set<Ref> {
    set o | o in h && forall s :: Closes(h, start, but, s) ==> o in s
  }

  /** The value is forced if it is in all those sets. */
  ghost predicate ValueForced(h: Heap, start: set<Ref>, but: set<Ref>, v: Value) {
    forall s :: Closes(h, start, but, s) ==> ValueIn(v, s)
  }

  lemma ForcedValue(h: Heap, start: set<Ref>, but: set<Ref>, v: Value)
    requires ValueIn(v, h.Keys) && ValueForced(h, start, but, v)
    ensures ValueIn(v, Forced(h, start, but))
  {
  }

  /** An object of the forced set has what tracing needs in all those sets. */
  lemma ForcedAt(h: Heap, start: set<Ref>, but: set<Ref>, o: Ref)
    requires o in Forced(h, start, but)
    ensures forall s :: Closes(h, start, but, s) ==>
      if o in but then h[o].Table? && StringsIn(h, h[o], s) else TracedIn(h, h[o], s)
  {
    hide TracedIn, StringsIn;
  }

  lemma ForcedKey(h: Heap, start: set<Ref>, but: set<Ref>, k: Key, s: set<Ref>)
    requires Closes(h, start, but, s) && KeyHolds(h, k, Forced(h, start, but))
    ensures KeyHolds(h, k, s)
  {
    hide Closes;
  }

  lemma ForcedNode(h: Heap, start: set<Ref>, but: set<Ref>, w: Weakness, n: Node)
    requires NodeIn(n, h.Keys) && forall s :: Closes(h, start, but, s) ==> NodeTraced(h, w, n, s)
    ensures NodeTraced(h, w, n, Forced(h, start, but))
  {
    var f := Forced(h, start, but);
    hide Closes, Forced;
    var key := if n.key.LiveKey? then Gc(n.key.ref) else Nil;
    if n.key.LiveKey? && (IsStr(h, n.key.ref) || (!n.val.Nil? && (w.Strong? || w.WeakValues?))) {
      assert ValueForced(h, start, but, key);
      ForcedValue(h, start, but, key);
    }
    if !n.val.Nil? {
      var held := w.Strong? || (w.Ephemeron? && KeyHolds(h, n.key, f)) || (n.val.Gc? && IsStr(h, n.val.ref));
      if held {
        forall s | Closes(h, start, but, s) ensures ValueIn(n.val, s) {
          if w.Ephemeron? && KeyHolds(h, n.key, f) { ForcedKey(h, start, but, n.key, s); }
        }
        assert ValueForced(h, start, but, n.val);
        ForcedValue(h, start, but, n.val);
      }
    }
  }

  lemma ForcedValues(h: Heap, start: set<Ref>, but: set<Ref>, vs: seq<Value>)
    requires ValuesIn(vs, h.Keys) && forall i :: 0 <= i < |vs| ==> ValueForced(h, start, but, vs[i])
    ensures ValuesIn(vs, Forced(h, start, but))
  {
    forall i | 0 <= i < |vs| ensures ValueIn(vs[i], Forced(h, start, but)) { ForcedValue(h, start, but, vs[i]); }
  }

  /** The strings of a table. */
  lemma ForcedStrings(h: Heap, start: set<Ref>, but: set<Ref>, o: Object)
    requires o.Table? && Within(o, h.Keys) && forall s :: Closes(h, start, but, s) ==> StringsIn(h, o, s)
    ensures StringsIn(h, o, Forced(h, start, but))
  {
    hide Closes, Forced;
    forall i | 0 <= i < |o.arr| ensures StringIn(h, o.arr[i], Forced(h, start, but)) {
      if o.arr[i].Gc? && IsStr(h, o.arr[i].ref) {
        assert ValueForced(h, start, but, o.arr[i]);
        ForcedValue(h, start, but, o.arr[i]);
      }
    }
    forall i | 0 <= i < |o.nodes| ensures NodeTraced(h, AllWeak(Both), o.nodes[i], Forced(h, start, but)) {
      forall s | Closes(h, start, but, s) ensures NodeTraced(h, AllWeak(Both), o.nodes[i], s) {
        assert StringsIn(h, o, s);
      }
      ForcedNode(h, start, but, AllWeak(Both), o.nodes[i]);
    }
  }

  lemma ForcedTable(h: Heap, start: set<Ref>, but: set<Ref>, o: Object)
    requires o.Table? && Within(o, h.Keys) && forall s :: Closes(h, start, but, s) ==> TracedIn(h, o, s)
    ensures TracedIn(h, o, Forced(h, start, but))
  {
    hide Closes, Forced;
    var f := Forced(h, start, but);
    assert ValueForced(h, start, but, o.metatable);
    ForcedValue(h, start, but, o.metatable);
    forall i | 0 <= i < |o.arr|
      ensures if o.weakness.Strong? || o.weakness.Ephemeron? then ValueIn(o.arr[i], f) else StringIn(h, o.arr[i], f)
    {
      if o.weakness.Strong? || o.weakness.Ephemeron? || (o.arr[i].Gc? && IsStr(h, o.arr[i].ref)) {
        assert ValueForced(h, start, but, o.arr[i]);
        ForcedValue(h, start, but, o.arr[i]);
      }
    }
    forall i | 0 <= i < |o.nodes| ensures NodeTraced(h, o.weakness, o.nodes[i], f) {
      forall s | Closes(h, start, but, s) ensures NodeTraced(h, o.weakness, o.nodes[i], s) { assert TracedIn(h, o, s); }
      ForcedNode(h, start, but, o.weakness, o.nodes[i]);
    }
  }

  /** Objects that are traced in full: all that they hold. */
  lemma ForcedOther(h: Heap, start: set<Ref>, but: set<Ref>, o: Object)
    requires !o.Table? && Within(o, h.Keys) && forall s :: Closes(h, start, but, s) ==> TracedIn(h, o, s)
    requires HasSlot(h, o) && (o.OpenUpVal? ==> ValueIn(Slot(h, o), h.Keys))
    ensures TracedIn(h, o, Forced(h, start, but))
  {
    hide Closes, Forced;
    match o {
      case Str =>
      case Record(fs) =>
        forall i | 0 <= i < |fs| ensures ValueForced(h, start, but, fs[i]) {
          forall s | Closes(h, start, but, s) ensures ValueIn(fs[i], s) { assert TracedIn(h, o, s); }
        }
        ForcedValues(h, start, but, fs);
      case Userdata(mt, uvs) =>
        forall s | Closes(h, start, but, s) ensures ValueIn(mt, s) { assert TracedIn(h, o, s); }
        assert ValueForced(h, start, but, mt);
        ForcedValue(h, start, but, mt);
        forall i | 0 <= i < |uvs| ensures ValueForced(h, start, but, uvs[i]) {
          forall s | Closes(h, start, but, s) ensures ValueIn(uvs[i], s) { assert TracedIn(h, o, s); }
        }
        ForcedValues(h, start, but, uvs);
      case Thread(stack, top, open) =>
        forall i | 0 <= i < |stack| && i < top ensures ValueIn(stack[i], Forced(h, start, but)) {
          forall s | Closes(h, start, but, s) ensures ValueIn(stack[i], s) { assert TracedIn(h, o, s); }
          assert ValueForced(h, start, but, stack[i]);
          ForcedValue(h, start, but, stack[i]);
        }
        forall i | 0 <= i < |open| ensures open[i] in Forced(h, start, but) {
          forall s | Closes(h, start, but, s) ensures ValueIn(Gc(open[i]), s) { assert TracedIn(h, o, s); }
          assert ValueForced(h, start, but, Gc(open[i]));
          ForcedValue(h, start, but, Gc(open[i]));
        }
      case OpenUpVal(_, _) =>
        forall s | Closes(h, start, but, s) ensures ValueIn(Slot(h, o), s) { assert TracedIn(h, o, s); }
        assert ValueForced(h, start, but, Slot(h, o));
        ForcedValue(h, start, but, Slot(h, o));
      case ClosedUpVal(v) =>
        forall s | Closes(h, start, but, s) ensures ValueIn(v, s) { assert TracedIn(h, o, s); }
        assert ValueForced(h, start, but, v);
        ForcedValue(h, start, but, v);
    }
  }

  /** The forced set is one of those sets itself, hence the least. */
  lemma ForcedCloses(h: Heap, start: set<Ref>, but: set<Ref>)
    requires HeapClosed(h) && start <= h.Keys && forall o :: o in but && o in h ==> h[o].Table?
    ensures Closes(h, start, but, Forced(h, start, but)) && Forced(h, start, but) <= h.Keys
  {
    var f := Forced(h, start, but);
    forall o | o in f && o in h
      ensures if o in but then h[o].Table? && StringsIn(h, h[o], f) else TracedIn(h, h[o], f)
    {
      ForcedAt(h, start, but, o);
      assert Within(h[o], h.Keys);
      hide Forced, Closes, TracedIn, StringsIn, Within;
      if o in but {
        ForcedStrings(h, start, but, h[o]);
      } else if h[o].Table? {
        ForcedTable(h, start, but, h[o]);
      } else {
        SlotOfLinked(h, o);
        SlotInHeap(h, o);
        ForcedOther(h, start, but, h[o]);
      }
    }
  }

  lemma SlotInHeap(h: Heap, o: Ref)
    requires HeapClosed(h) && o in h && HasSlot(h, h[o])
    ensures h[o].OpenUpVal? ==> ValueIn(Slot(h, h[o]), h.Keys)
  {
    if h[o].OpenUpVal? { assert Within(h[h[o].thread], h.Keys); }
  }

  lemma ForcedWithin(h: Heap, start: set<Ref>, but: set<Ref>, s: set<Ref>)
    requires Closes(h, start, but, s)
    ensures Forced(h, start, but) <= s
  {
  }

  // ----- what was marked at last, seen from the beginning -----

  /** Only marked tables with something weak to clear are changed, and what they hold otherwise is marked. */
  ghost predicate Trims(h: Heap, h': Heap, marked: set<Ref>) {
    h'.Keys == h.Keys && forall o :: o in h ==> h'[o] == h[o] || (o in marked && MayClear(h[o], marked))
  }

  lemma TrimsTransitive(h: Heap, h': Heap, h'': Heap, s: set<Ref>, s': set<Ref>)
    requires Trims(h, h', s) && Trims(h', h'', s') && s <= s'
    ensures Trims(h, h'', s')
  {
    forall o | o in h ensures h''[o] == h[o] || (o in s' && MayClear(h[o], s')) { }
  }

  lemma TrimsOne(h: Heap, h': Heap, s: set<Ref>, s': set<Ref>, o: Ref)
    requires OnlyAt(h, h', o) && o in h && o in s && MayClear(h[o], s) && s <= s'
    ensures Trims(h, h', s')
  {
  }

  lemma TrimsReflexive(h: Heap, s: set<Ref>)
    ensures Trims(h, h, s)
  {
  }

  lemma MoreTrims(h: Heap, h': Heap, s: set<Ref>, s': set<Ref>)
    requires Trims(h, h', s) && s <= s'
    ensures Trims(h, h', s')
  {
  }

  lemma TrimmedTraced(h: Heap, o: Object, s: set<Ref>, s': set<Ref>)
    requires MayClear(o, s) && TracedIn(h, o, s) && s <= s'
    ensures TracedIn(h, o, s')
  {
    forall i | 0 <= i < |o.nodes| ensures NodeTraced(h, o.weakness, o.nodes[i], s') {
      assert NodeTraced(h, o.weakness, o.nodes[i], s);
    }
  }

  lemma MoreStrings(h: Heap, o: Object, s: set<Ref>, s': set<Ref>)
    requires o.Table? && StringsIn(h, o, s) && s <= s'
    ensures StringsIn(h, o, s')
  {
    forall i | 0 <= i < |o.nodes| ensures NodeTraced(h, AllWeak(Both), o.nodes[i], s') {
      assert NodeTraced(h, AllWeak(Both), o.nodes[i], s);
    }
  }

  /** Objects that were not changed. */
  lemma SameTraced(h: Heap, h': Heap, s: set<Ref>, marked: set<Ref>, o: Ref)
    requires Trims(h, h', marked) && HeapPruned(h, h') && o in h && h'[o] == h[o]
    ensures TracedIn(h', h[o], s) ==> HasSlot(h, h[o]) ==> TracedIn(h, h[o], s)
    ensures h[o].Table? && StringsIn(h', h[o], s) ==> StringsIn(h, h[o], s)
  {
    forall r | r in h ensures IsStr(h', r) <==> IsStr(h, r) { assert Pruned(h[r], h'[r]); }
    if h[o].Table? {
      forall i, w | 0 <= i < |h[o].nodes| && NodeTraced(h', w, h[o].nodes[i], s)
        ensures NodeTraced(h, w, h[o].nodes[i], s)
      {
      }
    }
  }

  /** Between two tracings weak values are cleared, which did not lead anywhere. */
  lemma TracedBetween(h: Heap, h': Heap, s: set<Ref>, s': set<Ref>, but: set<Ref>)
    requires Linked(h) && HeapPruned(h, h') && Trims(h, h', s) && Traced(h, s, but) && Traced(h', s', but) && s <= s'
    ensures Traced(h, s', but)
  {
    forall o | o in s' && o in h
      ensures if o in but then h[o].Table? && StringsIn(h, h[o], s') else TracedIn(h, h[o], s')
    {
      hide TracedIn, StringsIn, MayClear, HeapPruned, Linked;
      SlotOfLinked(h, o);
      if h'[o] == h[o] {
        SameTraced(h, h', s', s, o);
      } else if o in but {
        MoreStrings(h, h[o], s, s');
      } else {
        TrimmedTraced(h, h[o], s, s');
      }
    }
  }

  lemma TidiedIsPruned(h: Heap, h': Heap)
    requires HeapTidied(h, h')
    ensures HeapPruned(h, h')
  {
  }

  lemma SameStrings(h: Heap, h': Heap)
    requires HeapPruned(h, h')
    ensures Strings(h') == Strings(h)
  {
    forall r | r in h ensures h[r].Str? <==> h'[r].Str? { assert Pruned(h[r], h'[r]); }
  }

  /** Clearing marks no more than strings. */
  lemma StringsMarked(h0: Heap, h: Heap, c: Colors, h': Heap, c': Colors)
    requires HeapPruned(h0, h) && ClearStep(h, c, h', c')
    ensures Marked(c) <= Marked(c') <= Marked(c) + Strings(h0)
  {
    SameStrings(h0, h);
  }

  /** The whole atomic phase: heaps at its beginning, before and after the first clearing. */
  lemma TracedBefore(h0: Heap, h: Heap, h': Heap, s: set<Ref>, s': set<Ref>, but: set<Ref>)
    requires HeapClosed(h0) && HeapTidied(h0, h) && HeapPruned(h, h') && Trims(h, h', s)
    requires Traced(h0, s, but) && Traced(h', s', but) && s <= s' && Strings(h0) <= s
    ensures Traced(h0, s', but)
  {
    PruningKeepsLinked(h0, h);
    PruningKeepsTraced(h0, h, s, but);
    hide Traced, Trims, HeapPruned, Linked;
    TracedBetween(h, h', s, s', but);
    TidiedTraced(h0, h, s', but);
  }

  /** What has been marked is closed and forced, so it is just what is forced, strings aside. */
  lemma MarkedIsForced(h: Heap, start: set<Ref>, but: set<Ref>, marked: set<Ref>, o: Ref)
    requires Traced(h, marked + Strings(h), but) && start <= marked <= Forced(h, start, but)
    ensures o in h && !h[o].Str? ==> (o in marked <==> o in Forced(h, start, but))
  {
    assert Closes(h, start, but, marked + Strings(h));
  }
}
