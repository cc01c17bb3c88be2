/**
 The invariant of the marking phases of the collector (the rules of lgc.h and lstate.h), and how
 the single actions of marking keep it.
 */
module GcMarking {
  import opened GcObjects

  datatype Color = White0 | White1 | Gray | Black

  predicate IsWhite(c: Color) { c.White0? || c.White1? }

  function OtherWhite(c: Color): Color
    requires IsWhite(c)
  {
    if c.White0? then White1 else White0
  }

  type Colors = map<Ref, Color>

  function Marked(color: Colors): set<Ref> {
    set o | o in color && !IsWhite(color[o])
  }

  /** The color an object gets when it is marked, before anything it refers to is. */
  function FirstColor(o: Object): Color {
    if Linkable(o) || o.OpenUpVal? then Gray else Black
  }

  /** Nothing happened but that some white objects were marked. */
  ghost predicate Grew(h: Heap, color: Colors, color': Colors) {
    && color.Keys == color'.Keys == h.Keys
    && forall o :: o in color ==>
         color'[o] == color[o] || (IsWhite(color[o]) && color'[o] == FirstColor(h[o]))
  }

  /**
   What surrounds an action of the collector: the objects being traversed right now (already black,
   not done yet), gray objects in a list that the collector holds in a local variable, a set known to
   contain everything that can be marked, the tables not traced again in this cycle, the open
   upvalues that may be marked while their values are not (until `remarkupvals`), and whether threads
   have to be visited again whenever they are traversed (until the atomic phase).
   */
  datatype Scope = Scope(active: set<Ref>, pending: multiset<Ref>, bound: set<Ref>, but: set<Ref>, lax: set<Ref>,
    inc: bool)

  /** Gray objects that have to be in a list; open upvalues and fixed strings are gray outside any list. */
  ghost predicate Waits(h: Heap, color: Colors, o: Ref) {
    o in h && o in color && Linkable(h[o]) && color[o].Gray?
  }

  ghost predicate GrayKinds(h: Heap, color: Colors) {
    forall o :: o in h && o in color && color[o].Gray? ==> Linkable(h[o]) || h[o].OpenUpVal? || h[o].Str?
  }

  /** Every gray object that has to be in a list is in exactly one, and nothing else is in one. */
  ghost predicate Listed(h: Heap, color: Colors, lists: multiset<Ref>) {
    forall o :: lists[o] == if Waits(h, color, o) then 1 else 0
  }

  /**
   No black object refers to a white one. Open upvalues are never black, and a black thread is in the
   list of threads with open upvalues if it has any; before the atomic phase no thread is black.
   */
  ghost predicate BlackClosed(h: Heap, color: Colors, active: set<Ref>, twups: seq<Ref>, inc: bool) {
    forall o :: o in h && o in color && color[o].Black? && o !in active ==>
      BlackOk(h, color, twups, inc, o)
  }

  ghost predicate BlackOk(h: Heap, color: Colors, twups: seq<Ref>, inc: bool, o: Ref)
    requires o in h
  {
    && !h[o].OpenUpVal? && Within(h[o], Marked(color))
    && (h[o].Thread? ==> !inc && (h[o].openupval != [] ==> o in twups))
  }

  /** A marked open upvalue has a marked value, or its thread is still to be traversed. */
  ghost predicate SlotClosed(h: Heap, color: Colors, active: set<Ref>, o: Ref)
    requires o in h && h[o].OpenUpVal?
  {
    || o in active
    || h[o].thread in active
    || (HasSlot(h, h[o]) && ValueIn(Slot(h, h[o]), Marked(color)))
    || (h[o].thread in color && color[h[o].thread].Gray?)
  }

  ghost predicate SlotsClosed(h: Heap, color: Colors, sc: Scope) {
    forall o :: o in h && h[o].OpenUpVal? && o in Marked(color) && o !in sc.lax ==>
      SlotClosed(h, color, sc.active, o)
  }

  ghost predicate HeapClosed(h: Heap) {
    Linked(h) && forall o :: o in h ==> Within(h[o], h.Keys) && MetatableOk(h, h[o])
  }

  ghost predicate MarkInv(h: Heap, color: Colors, white: Color, lists: multiset<Ref>, twups: seq<Ref>, sc: Scope) {
    && HeapClosed(h) && color.Keys == h.Keys
    && IsWhite(white) && (forall o :: o in color ==> color[o] != OtherWhite(white))
    && GrayKinds(h, color) && Listed(h, color, lists + sc.pending)
    && BlackClosed(h, color, sc.active, twups, sc.inc)
    && SlotsClosed(h, color, sc)
    && Traced(h, sc.bound, sc.but) && Marked(color) <= sc.bound && sc.but <= Marked(color)
  }

  lemma WithinMore(o: Object, s: set<Ref>, t: set<Ref>)
    requires Within(o, s) && s <= t
    ensures Within(o, t)
  {
  }

  lemma GrewMarks(h: Heap, color: Colors, color': Colors)
    requires Grew(h, color, color')
    ensures Marked(color) <= Marked(color')
  {
  }

  lemma GrewTransitive(h: Heap, a: Colors, b: Colors, c: Colors)
    requires Grew(h, a, b) && Grew(h, b, c)
    ensures Grew(h, a, c)
  {
  }

  lemma BlackClosedGrows(h: Heap, color: Colors, color': Colors, active: set<Ref>, active': set<Ref>, twups: seq<Ref>,
    inc: bool)
    requires BlackClosed(h, color, active, twups, inc) && Grew(h, color, color') && active <= active'
    requires forall o :: o in color && IsWhite(color[o]) && color'[o].Black? ==> o in active'
    ensures BlackClosed(h, color', active', twups, inc)
  {
    GrewMarks(h, color, color');
    forall o | o in h && o in color' && color'[o].Black? && o !in active'
      ensures BlackOk(h, color', twups, inc, o)
    {
      WithinMore(h[o], Marked(color), Marked(color'));
    }
  }

  /** Marking a white object: it joins the gray list if it can, and counts as being traversed. */
  lemma MarkOne(h: Heap, color: Colors, white: Color, lists: multiset<Ref>, twups: seq<Ref>, sc: Scope, o: Ref)
    requires MarkInv(h, color, white, lists, twups, sc)
    requires o in h && IsWhite(color[o]) && o in sc.bound
    ensures var color' := color[o := FirstColor(h[o])];
            && Grew(h, color, color') && Marked(color') == Marked(color) + {o}
            && MarkInv(h, color', white, if Linkable(h[o]) then lists + multiset{o} else lists, twups,
                       sc.(active := sc.active + {o}))
  {
    hide Within, TracedIn, StringsIn, LinkedUpVal, LinkedThread, MetatableOk, HasSlot;
    var color' := color[o := FirstColor(h[o])];
    BlackClosedGrows(h, color, color', sc.active, sc.active + {o}, twups, sc.inc);
    assert Marked(color') == Marked(color) + {o};
    var lists' := if Linkable(h[o]) then lists + multiset{o} else lists;
    forall r ensures (lists' + sc.pending)[r] == if Waits(h, color', r) then 1 else 0 {
      assert (lists + sc.pending)[r] == if Waits(h, color, r) then 1 else 0;
    }
  }

  /** An object stops being traversed once everything it refers to is marked, or if it waits gray. */
  lemma Retire(h: Heap, color: Colors, white: Color, lists: multiset<Ref>, twups: seq<Ref>, sc: Scope, o: Ref,
    active: set<Ref>)
    requires MarkInv(h, color, white, lists, twups, sc) && sc.active == active + {o}
    requires o in h && !IsWhite(color[o])
    requires color[o].Black? ==> BlackOk(h, color, twups, sc.inc, o)
    requires h[o].OpenUpVal? ==> HasSlot(h, h[o]) && ValueIn(Slot(h, h[o]), Marked(color))
    ensures MarkInv(h, color, white, lists, twups, sc.(active := active))
  {
    forall u | u in h && h[u].OpenUpVal? && u in Marked(color) && u !in sc.lax
      ensures SlotClosed(h, color, active, u)
    {
      assert SlotClosed(h, color, sc.active, u);
      if h[u].thread == o && u !in active && color[o].Black? {
        assert LinkedUpVal(h, u) && LinkedThread(h, o);
      }
    }
  }

  /** What need not be traced again may be more, as long as the rest is traced. */
  lemma MarkInvBut(h: Heap, color: Colors, white: Color, lists: multiset<Ref>, twups: seq<Ref>, sc: Scope,
    but: set<Ref>)
    requires MarkInv(h, color, white, lists, twups, sc) && Traced(h, sc.bound, but) && but <= Marked(color)
    ensures MarkInv(h, color, white, lists, twups, sc.(but := but))
  {
    hide Traced, HeapClosed, GrayKinds, Listed;
  }

  /** The bound may be any other that is traced and has what is marked. */
  lemma MarkInvBound(h: Heap, color: Colors, white: Color, lists: multiset<Ref>, twups: seq<Ref>, sc: Scope,
                     bound: set<Ref>, but: set<Ref>)
    requires MarkInv(h, color, white, lists, twups, sc) && Traced(h, bound, but)
    requires but <= Marked(color) <= bound
    ensures MarkInv(h, color, white, lists, twups, sc.(bound := bound, but := but))
  {
    hide Traced, HeapClosed, GrayKinds, Listed;
  }

  lemma MarkInvScope(h: Heap, color: Colors, white: Color, lists: multiset<Ref>, twups: seq<Ref>, sc: Scope)
    requires MarkInv(h, color, white, lists, twups, sc)
    ensures Traced(h, sc.bound, sc.but) && sc.but <= Marked(color) <= sc.bound
  {
  }

  lemma MarkInvBasics(h: Heap, color: Colors, white: Color, lists: multiset<Ref>, twups: seq<Ref>, sc: Scope)
    requires MarkInv(h, color, white, lists, twups, sc)
    ensures color.Keys == h.Keys && Linked(h) && HeapClosed(h)
  {
  }

  /** Whatever a traced object leads to is known to be in the bound. */
  lemma BoundAt(h: Heap, color: Colors, white: Color, lists: multiset<Ref>, twups: seq<Ref>, sc: Scope, o: Ref)
    requires MarkInv(h, color, white, lists, twups, sc)
    requires o in h && o in sc.bound && o !in sc.but
    ensures Within(h[o], h.Keys) && MetatableOk(h, h[o]) && color.Keys == h.Keys
    ensures !h[o].Table? && !h[o].Thread? ==> Within(h[o], sc.bound)
  {
    assert TracedIn(h, h[o], sc.bound);
  }

  lemma BoundAtSlot(h: Heap, color: Colors, white: Color, lists: multiset<Ref>, twups: seq<Ref>, sc: Scope, o: Ref)
    requires MarkInv(h, color, white, lists, twups, sc)
    requires o in h && o in sc.bound && o !in sc.but
    ensures HasSlot(h, h[o])
    ensures h[o].OpenUpVal? ==> ValueIn(Slot(h, h[o]), h.Keys) && ValueIn(Slot(h, h[o]), sc.bound)
  {
    SlotOfLinked(h, o);
    if h[o].OpenUpVal? { assert Within(h[h[o].thread], h.Keys); }
  }

  lemma WhiteIsTraced(h: Heap, color: Colors, white: Color, lists: multiset<Ref>, twups: seq<Ref>, sc: Scope, o: Ref)
    requires MarkInv(h, color, white, lists, twups, sc) && o in color && IsWhite(color[o])
    ensures o !in sc.but
  {
  }

  /** The first object of a gray list leaves it and turns black, to be traversed. */
  lemma TakeOut(h: Heap, color: Colors, white: Color, lists: multiset<Ref>, twups: seq<Ref>, sc: Scope, o: Ref)
    requires MarkInv(h, color, white, lists, twups, sc) && o in lists
    ensures o in h && o in color && color[o].Gray? && Linkable(h[o]) && o in sc.bound
    ensures MarkInv(h, color[o := Black], white, lists - multiset{o}, twups, sc.(active := sc.active + {o}))
    ensures Marked(color[o := Black]) == Marked(color)
  {
    hide Within, TracedIn, StringsIn, LinkedUpVal, LinkedThread, MetatableOk, HasSlot, ValueIn;
    assert (lists + sc.pending)[o] == if Waits(h, color, o) then 1 else 0;
    var color' := color[o := Black];
    assert Marked(color') == Marked(color);
    forall r ensures (lists - multiset{o} + sc.pending)[r] == if Waits(h, color', r) then 1 else 0 {
      assert (lists + sc.pending)[r] == if Waits(h, color, r) then 1 else 0;
    }
  }

  /** A black object that was being traversed goes back, gray, into a list. */
  lemma PutBack(h: Heap, color: Colors, white: Color, lists: multiset<Ref>, twups: seq<Ref>, sc: Scope, o: Ref)
    requires MarkInv(h, color, white, lists, twups, sc)
    requires o in h && o in color && color[o].Black? && Linkable(h[o])
    ensures MarkInv(h, color[o := Gray], white, lists + multiset{o}, twups, sc)
    ensures Marked(color[o := Gray]) == Marked(color)
  {
    hide Within, TracedIn, StringsIn, LinkedUpVal, LinkedThread, MetatableOk, HasSlot, ValueIn;
    var color' := color[o := Gray];
    assert Marked(color') == Marked(color);
    forall r ensures (lists + multiset{o} + sc.pending)[r] == if Waits(h, color', r) then 1 else 0 {
      assert (lists + sc.pending)[r] == if Waits(h, color, r) then 1 else 0;
    }
  }

  /** Pruning an object breaks nothing. */
  lemma PruneOne(h: Heap, color: Colors, white: Color, lists: multiset<Ref>, twups: seq<Ref>, sc: Scope, o: Ref,
    obj: Object)
    requires MarkInv(h, color, white, lists, twups, sc)
    requires o in h && Pruned(h[o], obj)
    ensures MarkInv(h[o := obj], color, white, lists, twups, sc) && HeapPruned(h, h[o := obj])
  {
    var h' := h[o := obj];
    assert HeapPruned(h, h');
    PruningKeepsLinked(h, h');
    PruningKeepsTraced(h, h', sc.bound, sc.but);
    assert HeapClosed(h') by {
      PruningKeepsWithin(h[o], obj, h.Keys);
      forall r | r in h' ensures MetatableOk(h', h'[r]) { PruningKeepsMetatableOk(h, h', r); }
    }
    assert BlackClosed(h', color, sc.active, twups, sc.inc) by {
      if Within(h[o], Marked(color)) { PruningKeepsWithin(h[o], obj, Marked(color)); }
    }
    assert Listed(h', color, lists + sc.pending) by {
      forall r ensures Waits(h', color, r) == Waits(h, color, r) { }
    }
    PruneSlots(h, h', color, sc);
  }

  lemma PruneSlots(h: Heap, h': Heap, color: Colors, sc: Scope)
    requires HeapPruned(h, h') && Linked(h) && SlotsClosed(h, color, sc)
    ensures SlotsClosed(h', color, sc)
  {
    forall u | u in h' && h'[u].OpenUpVal? && u in Marked(color) && u !in sc.lax
      ensures SlotClosed(h', color, sc.active, u)
    {
      assert Pruned(h[u], h'[u]);
      assert SlotClosed(h, color, sc.active, u);
      assert LinkedUpVal(h, u) && LinkedThread(h, h[u].thread);
      assert Pruned(h[h[u].thread], h'[h[u].thread]);
    }
  }

  // ----- what the lists promise -----

  /** A marking action: it may only add to the gray list by marking something. */
  ghost predicate MarkStep(h: Heap, color: Colors, gray: seq<Ref>, color': Colors, gray': seq<Ref>) {
    && Grew(h, color, color') && Marked(color) <= Marked(color')
    && (gray' == gray || Marked(color) < Marked(color'))
  }

  lemma AlreadyMarked(color: Colors, v: Value)
    requires v.Gc? ==> v.ref in color && !IsWhite(color[v.ref])
    ensures ValueIn(v, Marked(color))
  {
  }

  lemma MarkStepReflexive(h: Heap, c: Colors, g: seq<Ref>)
    requires c.Keys == h.Keys
    ensures MarkStep(h, c, g, c, g)
  {
  }

  lemma MarkStepTransitive(h: Heap, c: Colors, g: seq<Ref>, c': Colors, g': seq<Ref>, c'': Colors, g'': seq<Ref>)
    requires MarkStep(h, c, g, c', g') && MarkStep(h, c', g', c'', g'')
    ensures MarkStep(h, c, g, c'', g'')
  {
    GrewTransitive(h, c, c', c'');
  }

  /** No entry without a value still has a collectable key. */
  predicate Tidy(o: Object)
    requires o.Table?
  {
    forall i :: 0 <= i < |o.nodes| && o.nodes[i].val.Nil? ==> !o.nodes[i].key.LiveKey?
  }

  predicate KeysMarked(o: Object, marked: set<Ref>)
    requires o.Table?
  {
    forall i :: 0 <= i < |o.nodes| && !o.nodes[i].val.Nil? ==> KeyIn(o.nodes[i].key, marked)
  }

  predicate NodeValuesMarked(o: Object, marked: set<Ref>)
    requires o.Table?
  {
    forall i :: 0 <= i < |o.nodes| ==> ValueIn(o.nodes[i].val, marked)
  }

  /** A table in `weak`: only its values remain to be cleared. */
  predicate InWeak(o: Object, marked: set<Ref>) {
    o.Table? && o.weakness.WeakValues? && ValueIn(o.metatable, marked) && Tidy(o) && KeysMarked(o, marked)
  }

  /** A table in `ephemeron`: only entries with unmarked keys are unsettled. */
  predicate InEphemeron(o: Object, marked: set<Ref>) {
    && o.Table? && o.weakness.Ephemeron?
    && ValueIn(o.metatable, marked) && Tidy(o) && ValuesIn(o.arr, marked)
  }

  /** What may be cleared from the table is weak: its keys, its values or, in an ephemeron table, its keys only. */
  predicate MayClear(o: Object, marked: set<Ref>) {
    && o.Table?
    && match o.weakness
       case Strong => false
       case WeakValues => true
       case AllWeak(_) => true
       case Ephemeron =>
         ValuesIn(o.arr, marked) && NodeValuesMarked(o, marked)
  }

  /** A table in `allweak` may have anything to clear but its metatable. */
  predicate InAllWeak(o: Object, marked: set<Ref>) {
    o.Table? && !o.weakness.WeakValues? && ValueIn(o.metatable, marked) && MayClear(o, marked)
  }

  /** What is asked of a table that the propagate phase left in `allweak`, until the atomic phase. */
  predicate LeftAllWeak(o: Object) { o.Table? && o.weakness.AllWeak? }

  /**
   What being in a list guarantees. Before the atomic phase only `allweak` (besides `gray` and
   `grayagain`) is in use. Tables in `but` sit in `allweak` and promise nothing.
   */
  ghost predicate ListsOk(h: Heap, color: Colors, atomic: bool, grayagain: seq<Ref>, weak: seq<Ref>,
                          allweak: seq<Ref>, ephemeron: seq<Ref>, but: set<Ref>)
  {
    && (forall o :: o in weak ==> o in h && InWeak(h[o], Marked(color)))
    && (forall o :: o in ephemeron ==> o in h && InEphemeron(h[o], Marked(color)))
    && (forall o :: o in allweak ==> o in h && h[o].Table? && (o !in but ==> InAllWeak(h[o], Marked(color))))
    && (atomic ==> forall o :: o in grayagain ==> o in h && h[o].Table? && Within(h[o], Marked(color)))
    && (forall o :: o in but ==> o in allweak && o in h && h[o].Table? && h[o].weakness.AllWeak?)
    && (!atomic ==> weak == [] && ephemeron == [] && forall o :: o in allweak ==> h[o].weakness.AllWeak?)
  }

  lemma ListsOkGrows(h: Heap, color: Colors, color': Colors, atomic: bool, grayagain: seq<Ref>,
                     weak: seq<Ref>, allweak: seq<Ref>, ephemeron: seq<Ref>, but: set<Ref>)
    requires ListsOk(h, color, atomic, grayagain, weak, allweak, ephemeron, but)
    requires Marked(color) <= Marked(color')
    ensures ListsOk(h, color', atomic, grayagain, weak, allweak, ephemeron, but)
  {
    if atomic {
      forall o | o in grayagain ensures Within(h[o], Marked(color')) {
        WithinMore(h[o], Marked(color), Marked(color'));
      }
    }
  }

  lemma ListsOkPruned(h: Heap, h': Heap, color: Colors, atomic: bool, grayagain: seq<Ref>,
                      weak: seq<Ref>, allweak: seq<Ref>, ephemeron: seq<Ref>, but: set<Ref>)
    requires ListsOk(h, color, atomic, grayagain, weak, allweak, ephemeron, but) && HeapPruned(h, h')
    ensures ListsOk(h', color, atomic, grayagain, weak, allweak, ephemeron, but)
  {
    forall o | o in weak ensures InWeak(h'[o], Marked(color)) {
      assert Pruned(h[o], h'[o]);
    }
    forall o | o in ephemeron ensures InEphemeron(h'[o], Marked(color)) {
      assert Pruned(h[o], h'[o]);
    }
    forall o | o in allweak ensures h'[o].Table? && (o !in but ==> InAllWeak(h'[o], Marked(color))) {
      assert Pruned(h[o], h'[o]);
    }
    if atomic {
      forall o | o in grayagain ensures h'[o].Table? && Within(h'[o], Marked(color)) {
        PruningKeepsWithin(h[o], h'[o], Marked(color));
      }
    }
  }

  ghost predicate HasOpen(h: Heap, th: Ref, some: set<Ref>) {
    th in h && h[th].Thread? && exists i :: 0 <= i < |h[th].openupval| && h[th].openupval[i] in some
  }

  /**
   The list of threads with open upvalues. It has every thread with upvalues yet to be remarked; once
   there are none, it has no unmarked thread.
   */
  ghost predicate TwupsOk(h: Heap, color: Colors, twups: seq<Ref>, lax: set<Ref>) {
    && (forall th :: th in twups ==> th in h && h[th].Thread?)
    && (forall th :: HasOpen(h, th, lax) ==> th in twups)
    && (lax == {} ==> forall th :: th in twups ==> th in Marked(color))
  }

  lemma TwupsOkLater(h: Heap, h': Heap, color: Colors, color': Colors, twups: seq<Ref>, lax: set<Ref>)
    requires TwupsOk(h, color, twups, lax) && HeapPruned(h, h') && Marked(color) <= Marked(color')
    ensures TwupsOk(h', color', twups, lax)
  {
    forall th | th in h ensures Pruned(h[th], h'[th]) { }
    forall th | HasOpen(h', th, lax) ensures HasOpen(h, th, lax) { assert Pruned(h[th], h'[th]); }
  }

  function Visiting(sc: Scope, o: Ref): Scope { sc.(active := sc.active + {o}) }

  lemma BoundAtTable(h: Heap, color: Colors, white: Color, lists: multiset<Ref>, twups: seq<Ref>, sc: Scope, o: Ref)
    requires MarkInv(h, color, white, lists, twups, sc)
    requires o in h && h[o].Table? && o in sc.bound
    ensures Within(h[o], h.Keys) && color.Keys == h.Keys && StringsIn(h, h[o], sc.bound)
    ensures o !in sc.but ==> TracedIn(h, h[o], sc.bound)
    ensures MetatableOk(h, h[o])
  {
    if o !in sc.but {
      var obj := h[o];
      assert TracedIn(h, obj, sc.bound);
      forall i | 0 <= i < |obj.nodes| ensures NodeTraced(h, AllWeak(Both), obj.nodes[i], sc.bound) {
        assert NodeTraced(h, obj.weakness, obj.nodes[i], sc.bound);
      }
    }
  }

  lemma BoundAtThread(h: Heap, color: Colors, white: Color, lists: multiset<Ref>, twups: seq<Ref>, sc: Scope, o: Ref)
    requires MarkInv(h, color, white, lists, twups, sc)
    requires o in h && h[o].Thread? && o in sc.bound
    ensures color.Keys == h.Keys && h[o].top <= |h[o].stack|
    ensures ValuesIn(h[o].stack[..h[o].top], h.Keys) && ValuesIn(h[o].stack[..h[o].top], sc.bound)
    ensures forall i :: 0 <= i < |h[o].openupval| ==> h[o].openupval[i] in h && h[o].openupval[i] in sc.bound
  {
    assert LinkedThread(h, o);
    assert TracedIn(h, h[o], sc.bound) && Within(h[o], h.Keys);
  }

  /** The table `o` before and after some of its entries were pruned. */
  ghost predicate SameTable(h: Heap, h': Heap, o: Ref) {
    && o in h && o in h' && h[o].Table? && Pruned(h[o], h'[o]) && HeapTidied(h, h')
  }

  lemma SameTableTransitive(h: Heap, h': Heap, h'': Heap, o: Ref)
    requires SameTable(h, h', o) && HeapTidied(h', h'')
    ensures SameTable(h, h'', o)
  {
    HeapTidiedTransitive(h, h', h'');
  }

  ghost predicate TrimmedTable(h: Heap, h': Heap, o: Ref) {
    && o in h && o in h' && h[o].Table? && Pruned(h[o], h'[o]) && HeapPruned(h, h')
  }

  lemma TrimmedTableTransitive(h: Heap, h': Heap, h'': Heap, o: Ref)
    requires TrimmedTable(h, h', o) && HeapPruned(h', h'')
    ensures TrimmedTable(h, h'', o)
  {
    HeapPrunedTransitive(h, h', h'');
  }

  /** What the traversal of entry `i` may rely on. */
  lemma BoundAtNode(h: Heap, color: Colors, white: Color, lists: multiset<Ref>, twups: seq<Ref>, sc: Scope, o: Ref,
    i: nat)
    requires MarkInv(h, color, white, lists, twups, sc)
    requires o in h && h[o].Table? && o in sc.bound && i < |h[o].nodes|
    ensures color.Keys == h.Keys && NodeIn(h[o].nodes[i], h.Keys)
    ensures NodeTraced(h, AllWeak(Both), h[o].nodes[i], sc.bound)
    ensures o !in sc.but ==> NodeTraced(h, h[o].weakness, h[o].nodes[i], sc.bound)
    ensures Marked(color) <= sc.bound
  {
    BoundAtTable(h, color, white, lists, twups, sc, o);
  }

  /** Entry `i` needs no more attention from a strong traversal. */
  predicate NodeDone(n: Node, marked: set<Ref>) {
    if n.val.Nil? then !n.key.LiveKey? else NodeIn(n, marked)
  }

  /** Only entry `i` of the table `o` may have been tidied. */
  ghost predicate NodeStep(h: Heap, h': Heap, o: Ref, i: nat) {
    SameTable(h, h', o) && OnlyNode(h, h', o, i)
  }

  ghost predicate OnlyNode(h: Heap, h': Heap, o: Ref, i: nat) {
    && o in h && o in h' && h[o].Table? && h'[o].Table? && i < |h[o].nodes| == |h'[o].nodes|
    && h'[o].arr == h[o].arr && h'[o].weakness == h[o].weakness && h'[o].metatable == h[o].metatable
    && OnlyAt(h, h', o)
    && forall k :: 0 <= k < |h[o].nodes| && k != i ==> h'[o].nodes[k] == h[o].nodes[k]
  }

  ghost predicate OnlyAt(h: Heap, h': Heap, o: Ref) {
    h'.Keys == h.Keys && forall r :: r in h && r != o ==> h'[r] == h[r]
  }

  datatype ListName = InGray | InGrayAgain | InWeakList | InAllWeakList | InEphemeronList

  function Sum(gray: seq<Ref>, again: seq<Ref>, weak: seq<Ref>, all: seq<Ref>, eph: seq<Ref>): multiset<Ref> {
    multiset(gray) + multiset(again) + multiset(weak) + multiset(all) + multiset(eph)
  }

  function Pushed(list: ListName, to: ListName, o: Ref, s: seq<Ref>): seq<Ref> {
    if list == to then [o] + s else s
  }

  lemma SumPushed(list: ListName, o: Ref, gray: seq<Ref>, again: seq<Ref>, weak: seq<Ref>, all: seq<Ref>, eph: seq<Ref>)
    ensures Sum(Pushed(list, InGray, o, gray), Pushed(list, InGrayAgain, o, again), Pushed(list, InWeakList, o, weak),
                Pushed(list, InAllWeakList, o, all), Pushed(list, InEphemeronList, o, eph))
         == Sum(gray, again, weak, all, eph) + multiset{o}
  {
  }

  predicate WeakNodeDone(n: Node, marked: set<Ref>) {
    if n.val.Nil? then !n.key.LiveKey? else KeyIn(n.key, marked)
  }

  /** The findings of an ephemeron traversal so far. */
  datatype Findings = Findings(marked: bool, hasclears: bool, hasww: bool)

  /** A key that holds its entry has its value marked. */
  predicate Settled(h: Heap, marked: set<Ref>, n: Node) {
    !n.val.Nil? && KeyHolds(h, n.key, marked) ==> ValueIn(n.val, marked)
  }

  ghost predicate SettledTable(h: Heap, marked: set<Ref>, o: Object)
    requires o.Table?
  {
    forall i :: 0 <= i < |o.nodes| ==> Settled(h, marked, o.nodes[i])
  }

  /** What the findings say about an entry that was looked at. */
  predicate EphNodeDone(h: Heap, marked: set<Ref>, n: Node, f: Findings) {
    && (n.val.Nil? ==> !n.key.LiveKey?)
    && (!f.hasclears && !n.val.Nil? ==> KeyIn(n.key, marked))
    && (!f.hasww ==> ValueIn(n.val, marked))
    && (!f.marked ==> Settled(h, marked, n))
  }

  /** Nothing but strings was marked. */
  ghost predicate OnlyStrings(h: Heap, color: Colors, color': Colors) {
    Marked(color) <= Marked(color') && forall r :: r in Marked(color') && r !in Marked(color) ==> IsStr(h, r)
  }

  ghost predicate FindingsGrow(h: Heap, color: Colors, f: Findings, color': Colors, f': Findings) {
    && (f.marked ==> f'.marked) && (f.hasclears ==> f'.hasclears) && (f.hasww ==> f'.hasww)
    && Marked(color) <= Marked(color') && (!f'.marked ==> OnlyStrings(h, color, color'))
    && (f'.marked && !f.marked ==> Marked(color) < Marked(color'))
  }

  lemma EphNodeStays(h: Heap, h': Heap, color: Colors, color': Colors, n: Node, f: Findings, f': Findings)
    requires EphNodeDone(h, Marked(color), n, f) && FindingsGrow(h, color, f, color', f') && HeapPruned(h, h')
    ensures EphNodeDone(h', Marked(color'), n, f')
  {
    if n.key.LiveKey? && n.key.ref in h {
      assert Pruned(h[n.key.ref], h'[n.key.ref]);
    }
  }

  lemma FindingsGrowTransitive(h: Heap, h': Heap, c: Colors, f: Findings, c': Colors, f': Findings, c'': Colors,
    f'': Findings)
    requires HeapPruned(h, h') && FindingsGrow(h, c, f, c', f') && FindingsGrow(h', c', f', c'', f'')
    ensures FindingsGrow(h, c, f, c'', f'')
  {
    forall r | IsStr(h', r) ensures IsStr(h, r) { assert Pruned(h[r], h'[r]); }
  }

  /** The list an ephemeron table goes to after a traversal in the atomic phase with findings `f`. */
  ghost predicate EphemeronPlaced(h: Heap, marked: set<Ref>, o: Ref, f: Findings, allweak: seq<Ref>,
                                  ephemeron: seq<Ref>, allweak': seq<Ref>, ephemeron': seq<Ref>)
  {
    if f.hasww then
      && allweak' == allweak && ephemeron' == [o] + ephemeron
      && o in h && InEphemeron(h[o], marked) && (!f.marked ==> SettledTable(h, marked, h[o]))
    else if f.hasclears then
      allweak' == [o] + allweak && ephemeron' == ephemeron && o in h && InAllWeak(h[o], marked)
    else
      allweak' == allweak && ephemeron' == ephemeron
  }

  lemma MoreTwups(h: Heap, color: Colors, white: Color, lists: multiset<Ref>, twups: seq<Ref>, sc: Scope,
    more: seq<Ref>)
    requires MarkInv(h, color, white, lists, twups, sc) && forall th :: th in twups ==> th in more
    ensures MarkInv(h, color, white, lists, more, sc)
  {
    assert forall o :: o in h && BlackOk(h, color, twups, sc.inc, o) ==> BlackOk(h, color, more, sc.inc, o);
  }

  lemma ListsOkLater(h: Heap, h': Heap, color: Colors, color': Colors, atomic: bool, grayagain: seq<Ref>,
                     weak: seq<Ref>, allweak: seq<Ref>, ephemeron: seq<Ref>, but: set<Ref>)
    requires ListsOk(h, color, atomic, grayagain, weak, allweak, ephemeron, but)
    requires HeapPruned(h, h') && Marked(color) <= Marked(color')
    ensures ListsOk(h', color', atomic, grayagain, weak, allweak, ephemeron, but)
  {
    ListsOkPruned(h, h', color, atomic, grayagain, weak, allweak, ephemeron, but);
    ListsOkGrows(h', color, color', atomic, grayagain, weak, allweak, ephemeron, but);
  }

  ghost predicate SuffixOf(s: seq<Ref>, t: seq<Ref>) {
    |s| <= |t| && t[|t| - |s|..] == s
  }

  /** `o` was added to at most one list, and it fulfils what the list promises. */
  ghost predicate Placed(h: Heap, marked: set<Ref>, atomic: bool, o: Ref, again: seq<Ref>, weak: seq<Ref>,
                         all: seq<Ref>, eph: seq<Ref>, again': seq<Ref>, weak': seq<Ref>, all': seq<Ref>,
                           eph': seq<Ref>)
  {
    || (again' == again && weak' == weak && all' == all && eph' == eph)
    || (o in h
        && (|| (again' == [o] + again && weak' == weak && all' == all && eph' == eph
                && (atomic ==> h[o].Table? && Within(h[o], marked)))
            || (atomic && again' == again && weak' == [o] + weak && all' == all && eph' == eph && InWeak(h[o], marked))
            || (again' == again && weak' == weak && all' == [o] + all && eph' == eph && InAllWeak(h[o], marked)
                && (!atomic ==> h[o].weakness.AllWeak?))
            || (atomic && again' == again && weak' == weak && all' == all && eph' == [o] + eph
                && InEphemeron(h[o], marked))))
  }

  lemma ListsOkPlaced(h: Heap, color: Colors, atomic: bool, o: Ref, again: seq<Ref>, weak: seq<Ref>, all: seq<Ref>,
                      eph: seq<Ref>, again': seq<Ref>, weak': seq<Ref>, all': seq<Ref>, eph': seq<Ref>, but: set<Ref>)
    requires ListsOk(h, color, atomic, again, weak, all, eph, but)
    requires Placed(h, Marked(color), atomic, o, again, weak, all, eph, again', weak', all', eph')
    ensures ListsOk(h, color, atomic, again', weak', all', eph', but)
    ensures SuffixOf(weak, weak') && SuffixOf(all, all')
  {
  }

  /** The first gray object is in no other list, and so not among the tables left out. */
  lemma GrayHead(h: Heap, color: Colors, white: Color, twups: seq<Ref>, sc: Scope, atomic: bool,
                 gray: seq<Ref>, again: seq<Ref>, weak: seq<Ref>, all: seq<Ref>, eph: seq<Ref>)
    requires MarkInv(h, color, white, Sum(gray, again, weak, all, eph), twups, sc) && gray != []
    requires ListsOk(h, color, atomic, again, weak, all, eph, sc.but)
    ensures gray[0] in Sum(gray, again, weak, all, eph) && gray[0] !in sc.but
    ensures Sum(gray[1..], again, weak, all, eph) == Sum(gray, again, weak, all, eph) - multiset{gray[0]}
    ensures color.Keys == h.Keys
  {
    var o := gray[0];
    assert gray == [o] + gray[1..];
    var lists := Sum(gray, again, weak, all, eph);
    assert (lists + sc.pending)[o] == if Waits(h, color, o) then 1 else 0;
    if o in all {
      assert false;
    }
  }

  lemma SuffixTransitive(a: seq<Ref>, b: seq<Ref>, c: seq<Ref>)
    requires SuffixOf(a, b) && SuffixOf(b, c)
    ensures SuffixOf(a, c)
  {
    assert c[|c| - |a|..] == c[|c| - |b|..][|b| - |a|..];
  }

  /** Only a thread traversed before the atomic phase adds to `grayagain` without being a table. */
  lemma ListsOkThread(h: Heap, color: Colors, atomic: bool, again: seq<Ref>, again': seq<Ref>, weak: seq<Ref>,
                      all: seq<Ref>, eph: seq<Ref>, but: set<Ref>)
    requires ListsOk(h, color, atomic, again, weak, all, eph, but) && (atomic ==> again' == again)
    ensures ListsOk(h, color, atomic, again', weak, all, eph, but)
  {
  }

  lemma TwupsOkMore(h: Heap, color: Colors, twups: seq<Ref>, twups': seq<Ref>, lax: set<Ref>, o: Ref)
    requires TwupsOk(h, color, twups, lax)
    requires twups' == twups || (twups' == [o] + twups && o in h && h[o].Thread? && o in Marked(color))
    ensures TwupsOk(h, color, twups', lax)
  {
  }

  /** Some upvalues have been seen to: their values are marked, or will be with their thread. */
  lemma DropLax(h: Heap, color: Colors, white: Color, lists: multiset<Ref>, twups: seq<Ref>, sc: Scope, lax: set<Ref>)
    requires MarkInv(h, color, white, lists, twups, sc)
    requires forall u :: u in sc.lax && u !in lax && u in h && h[u].OpenUpVal? && u in Marked(color) ==>
      SlotClosed(h, color, sc.active, u)
    ensures MarkInv(h, color, white, lists, twups, sc.(lax := lax))
  {
  }

  /** A marked thread leaves its upvalues nothing to fear: it will be traversed, or has been in full. */
  lemma MarkedThreadSlots(h: Heap, color: Colors, white: Color, lists: multiset<Ref>, twups: seq<Ref>, sc: Scope,
                          th: Ref, u: Ref)
    requires MarkInv(h, color, white, lists, twups, sc)
    requires u in h && h[u].OpenUpVal? && h[u].thread == th && th in Marked(color)
    ensures SlotClosed(h, color, sc.active, u)
  {
    assert LinkedUpVal(h, u) && LinkedThread(h, th);
    if th !in sc.active && color[th].Black? {
      assert BlackOk(h, color, twups, sc.inc, th);
    }
  }

  /** A thread that is not black, or has no open upvalues, may leave the list. */
  lemma FewerTwups(h: Heap, color: Colors, white: Color, lists: multiset<Ref>, twups: seq<Ref>, sc: Scope,
                   th: Ref, fewer: seq<Ref>)
    requires MarkInv(h, color, white, lists, twups, sc)
    requires th in h && (th !in Marked(color) || (h[th].Thread? && h[th].openupval == []))
    requires forall t :: t in twups && t != th ==> t in fewer
    ensures MarkInv(h, color, white, lists, fewer, sc)
  {
    assert forall o :: o in h && o in color && color[o].Black? && BlackOk(h, color, twups, sc.inc, o) ==>
        BlackOk(h, color, fewer, sc.inc, o);
  }

  /** With no thread left that has upvalues to remark, none is left to remark. */
  lemma NoLaxLeft(h: Heap, color: Colors, white: Color, lists: multiset<Ref>, twups: seq<Ref>, sc: Scope)
    requires MarkInv(h, color, white, lists, twups, sc)
    requires forall th :: !HasOpen(h, th, sc.lax)
    ensures MarkInv(h, color, white, lists, twups, sc.(lax := {}))
  {
    forall u | u in sc.lax && u in h && h[u].OpenUpVal?
      ensures false
    {
      assert LinkedUpVal(h, u);
      assert HasOpen(h, h[u].thread, sc.lax);
    }
  }

  lemma DropThread(h: Heap, color: Colors, white: Color, lists: multiset<Ref>, twups: seq<Ref>, sc: Scope,
                   th: Ref, lax: set<Ref>)
    requires MarkInv(h, color, white, lists, twups, sc)
    requires th in h && h[th].Thread? && th in Marked(color)
    requires forall u :: u in sc.lax && u !in lax ==> u in h[th].openupval
    ensures MarkInv(h, color, white, lists, twups, sc.(lax := lax))
  {
    forall u | u in h[th].openupval && u in h && h[u].OpenUpVal? && u in Marked(color)
      ensures SlotClosed(h, color, sc.active, u)
    {
      assert LinkedThread(h, th);
      MarkedThreadSlots(h, color, white, lists, twups, sc, th, u);
    }
    DropLax(h, color, white, lists, twups, sc, lax);
  }

  lemma NoOpenLeft(h: Heap, th: Ref, lax: set<Ref>, us: set<Ref>)
    requires th in h && h[th].Thread? && us == set u | u in h[th].openupval
    ensures !HasOpen(h, th, lax - us)
    ensures forall t :: HasOpen(h, t, lax - us) ==> HasOpen(h, t, lax)
  {
  }

  lemma OpenOfThread(h: Heap, color: Colors, white: Color, lists: multiset<Ref>, twups: seq<Ref>, sc: Scope,
                     th: Ref, i: nat)
    requires MarkInv(h, color, white, lists, twups, sc)
    requires th in h && h[th].Thread? && i < |h[th].openupval|
    ensures var u := h[th].openupval[i];
            && u in h && h[u].OpenUpVal? && h[u].thread == th && HasSlot(h, h[u]) && color.Keys == h.Keys
            && ValueIn(Slot(h, h[u]), h.Keys)
            && (u in Marked(color) ==> ValueIn(Slot(h, h[u]), sc.bound))
  {
    var u := h[th].openupval[i];
    assert LinkedThread(h, th) && LinkedUpVal(h, u);
    assert Within(h[th], h.Keys);
    if u in Marked(color) && u !in sc.but {
      assert TracedIn(h, h[u], sc.bound);
    }
  }

  lemma TwupsOkThreads(h: Heap, color: Colors, twups: seq<Ref>, lax: set<Ref>)
    requires TwupsOk(h, color, twups, lax)
    ensures forall th :: th in twups ==> th in h && h[th].Thread?
    ensures forall th :: HasOpen(h, th, lax) ==> th in twups
  {
  }

  lemma TwupsOkAllMarked(h: Heap, color: Colors, twups: seq<Ref>)
    requires forall th :: th in twups ==> th in h && h[th].Thread? && th in Marked(color)
    ensures TwupsOk(h, color, twups, {})
  {
  }

  /** A table still waiting to be visited again by `convergeephemerons` is taken up. */
  lemma TakeOutPending(h: Heap, color: Colors, white: Color, twups: seq<Ref>, sc: Scope, atomic: bool, next: seq<Ref>,
                       gray: seq<Ref>, again: seq<Ref>, weak: seq<Ref>, all: seq<Ref>, eph: seq<Ref>)
    requires next != [] && sc.pending == multiset(next)
    requires MarkInv(h, color, white, Sum(gray, again, weak, all, eph), twups, sc)
    requires ListsOk(h, color, atomic, again, weak, all, eph, sc.but)
    ensures var o := next[0];
            && o in h && o in color && o in sc.bound && o !in sc.but
            && MarkInv(h, color[o := Black], white, Sum(gray, again, weak, all, eph), twups,
                       Visiting(sc.(pending := multiset(next[1..])), o))
            && Marked(color[o := Black]) == Marked(color)
  {
    var o := next[0];
    assert next == [o] + next[1..];
    var lists := Sum(gray, again, weak, all, eph);
    assert (lists + sc.pending)[o] == if Waits(h, color, o) then 1 else 0;
    Shift(h, color, white, lists, twups, sc, lists + sc.pending, sc.(pending := multiset{}));
    TakeOut(h, color, white, lists + sc.pending, twups, sc.(pending := multiset{}), o);
    Shift(h, color[o := Black], white, lists + sc.pending - multiset{o}, twups, Visiting(sc.(pending := multiset{}), o),
          lists, Visiting(sc.(pending := multiset(next[1..])), o));
    if o in all {
      assert false;
    }
  }

  /** It does not matter which lists the collector holds in variables. */
  lemma Shift(h: Heap, color: Colors, white: Color, lists: multiset<Ref>, twups: seq<Ref>, sc: Scope,
              lists': multiset<Ref>, sc': Scope)
    requires MarkInv(h, color, white, lists, twups, sc)
    requires lists' + sc'.pending == lists + sc.pending && sc' == sc.(pending := sc'.pending)
    ensures MarkInv(h, color, white, lists', twups, sc')
  {
  }

  /** Marking strings unsettles no entry. */
  lemma SettledStays(h: Heap, h': Heap, color: Colors, color': Colors, o: Ref)
    requires HeapPruned(h, h') && OnlyStrings(h, color, color') && o in h && h[o].Table?
    requires SettledTable(h, Marked(color), h[o])
    ensures h'[o].Table? && SettledTable(h', Marked(color'), h'[o])
  {
    assert Pruned(h[o], h'[o]);
    forall i | 0 <= i < |h[o].nodes| ensures Settled(h', Marked(color'), h'[o].nodes[i]) {
      var n := h[o].nodes[i];
      assert Settled(h, Marked(color), n) && NodePruned(h[o].weakness, n, h'[o].nodes[i]);
      if n.key.LiveKey? && n.key.ref in h { assert Pruned(h[n.key.ref], h'[n.key.ref]); }
    }
  }

  lemma OnlyStringsTransitive(h: Heap, h': Heap, a: Colors, b: Colors, c: Colors)
    requires HeapPruned(h, h') && OnlyStrings(h, a, b) && OnlyStrings(h', b, c)
    ensures OnlyStrings(h, a, c)
  {
    forall r | IsStr(h', r) ensures IsStr(h, r) { assert Pruned(h[r], h'[r]); }
  }

  ghost predicate SettledList(h: Heap, color: Colors, list: seq<Ref>) {
    forall o :: o in list ==> o in h && h[o].Table? && SettledTable(h, Marked(color), h[o])
  }

  /** A round that has marked nothing but strings has settled every table it put back. */
  lemma SettledRound(h0: Heap, h: Heap, h': Heap, c0: Colors, c: Colors, c': Colors, o: Ref, f: Findings,
                     all: seq<Ref>, eph: seq<Ref>, all': seq<Ref>, eph': seq<Ref>)
    requires HeapPruned(h0, h) && HeapPruned(h, h') && OnlyStrings(h0, c0, c) && OnlyStrings(h, c, c')
    requires SettledList(h, c, eph) && !f.marked
    requires EphemeronPlaced(h', Marked(c'), o, f, all, eph, all', eph')
    ensures OnlyStrings(h0, c0, c') && SettledList(h', c', eph')
  {
    OnlyStringsTransitive(h0, h, c0, c, c');
    forall t | t in eph ensures t in h' && h'[t].Table? && SettledTable(h', Marked(c'), h'[t]) {
      SettledStays(h, h', c, c', t);
    }
  }

  lemma OnlyStringsReflexive(h: Heap, c: Colors)
    ensures OnlyStrings(h, c, c)
  {
  }

  lemma SuffixReflexive(s: seq<Ref>)
    ensures SuffixOf(s, s)
  {
  }

  /** A round starts by taking the whole ephemeron list away. */
  lemma StartRound(h: Heap, color: Colors, white: Color, twups: seq<Ref>, sc: Scope,
                   gray: seq<Ref>, again: seq<Ref>, weak: seq<Ref>, all: seq<Ref>, eph: seq<Ref>)
    requires sc.pending == multiset{}
    requires MarkInv(h, color, white, Sum(gray, again, weak, all, eph), twups, sc)
    requires ListsOk(h, color, true, again, weak, all, eph, sc.but)
    ensures MarkInv(h, color, white, Sum(gray, again, weak, all, []), twups, sc.(pending := multiset(eph)))
    ensures ListsOk(h, color, true, again, weak, all, [], sc.but)
    ensures forall o :: o in eph ==> o in h && InEphemeron(h[o], Marked(color))
    ensures color.Keys == h.Keys
  {
    Shift(h, color, white, Sum(gray, again, weak, all, eph), twups, sc,
          Sum(gray, again, weak, all, []), sc.(pending := multiset(eph)));
  }

  lemma EphemeronBasics(h: Heap, marked: set<Ref>, o: Ref)
    requires o in h && InEphemeron(h[o], marked)
    ensures h[o].Table? && h[o].weakness.Ephemeron? && ValueIn(h[o].metatable, marked)
  {
  }

  lemma EphemeronsLater(h: Heap, h': Heap, color: Colors, color': Colors, list: seq<Ref>)
    requires forall o :: o in list ==> o in h && InEphemeron(h[o], Marked(color))
    requires HeapPruned(h, h') && Marked(color) <= Marked(color')
    ensures forall o :: o in list ==> o in h' && InEphemeron(h'[o], Marked(color'))
  {
    forall o | o in list ensures InEphemeron(h'[o], Marked(color')) { assert Pruned(h[o], h'[o]); }
  }

  lemma EphemeronRevisited(h: Heap, h': Heap, c: Colors, c': Colors, o: Ref, f: Findings, again: seq<Ref>,
                           weak: seq<Ref>, all: seq<Ref>, eph: seq<Ref>, all': seq<Ref>, eph': seq<Ref>,
                           twups: seq<Ref>, sc: Scope)
    requires ListsOk(h, c, true, again, weak, all, eph, sc.but) && TwupsOk(h, c, twups, sc.lax)
    requires HeapPruned(h, h') && Marked(c) <= Marked(c')
    requires EphemeronPlaced(h', Marked(c'), o, f, all, eph, all', eph')
    ensures ListsOk(h', c', true, again, weak, all', eph', sc.but) && TwupsOk(h', c', twups, sc.lax)
    ensures SuffixOf(all, all')
  {
    ListsOkLater(h, h', c, c', true, again, weak, all, eph, sc.but);
    ListsOkPlaced(h', c', true, o, again, weak, all, eph, again, weak, all', eph', sc.but);
    TwupsOkLater(h, h', c, c', twups, sc.lax);
  }

  lemma WhitesShrink(c: Colors, c': Colors)
    requires c.Keys == c'.Keys && Marked(c) <= Marked(c')
    ensures var w, w' := c.Keys - Marked(c), c'.Keys - Marked(c');
            (w' == w || w' < w) && (Marked(c) < Marked(c') ==> w' < w)
  {
    var w, w' := c.Keys - Marked(c), c'.Keys - Marked(c');
    if r :| r in Marked(c') && r !in Marked(c) { assert r in w && r !in w'; }
  }

  // ----- clearing weak tables -----

  predicate NodeKeyOk(n: Node, marked: set<Ref>) {
    if n.val.Nil? then !n.key.LiveKey? else KeyIn(n.key, marked)
  }

  predicate NodeValueOk(n: Node, marked: set<Ref>) {
    if n.val.Nil? then !n.key.LiveKey? else ValueIn(n.val, marked)
  }

  ghost predicate KeysCleared(h: Heap, color: Colors, o: Ref) {
    o in h && h[o].Table? && forall i :: 0 <= i < |h[o].nodes| ==> NodeKeyOk(h[o].nodes[i], Marked(color))
  }

  ghost predicate ValuesCleared(h: Heap, color: Colors, o: Ref) {
    && o in h && h[o].Table? && ValuesIn(h[o].arr, Marked(color))
    && forall i :: 0 <= i < |h[o].nodes| ==> NodeValueOk(h[o].nodes[i], Marked(color))
  }

  lemma KeysClearedLater(h: Heap, h': Heap, color: Colors, color': Colors, o: Ref)
    requires KeysCleared(h, color, o) && HeapPruned(h, h') && Marked(color) <= Marked(color')
    ensures KeysCleared(h', color', o)
  {
    assert Pruned(h[o], h'[o]);
  }

  lemma ValuesClearedLater(h: Heap, h': Heap, color: Colors, color': Colors, o: Ref)
    requires ValuesCleared(h, color, o) && HeapPruned(h, h') && Marked(color) <= Marked(color')
    ensures ValuesCleared(h', color', o)
  {
    assert Pruned(h[o], h'[o]);
  }

  /** Clearing prunes tables, of entries not marked as a whole, and marks no more than strings. */
  ghost predicate ClearStep(h: Heap, color: Colors, h': Heap, color': Colors) {
    HeapPruned(h, h') && Keeps(h, h', Marked(color)) && OnlyStrings(h, color, color') && color.Keys == color'.Keys
  }

  lemma ClearStepTransitive(h: Heap, c: Colors, h': Heap, c': Colors, h'': Heap, c'': Colors)
    requires ClearStep(h, c, h', c') && ClearStep(h', c', h'', c'')
    ensures ClearStep(h, c, h'', c'')
  {
    HeapPrunedTransitive(h, h', h'');
    KeepsTransitive(h, h', h'', Marked(c), Marked(c'));
    OnlyStringsTransitive(h, h', c, c', c'');
  }

  ghost predicate AllKeysCleared(h: Heap, color: Colors, list: seq<Ref>) {
    forall o :: o in list ==> KeysCleared(h, color, o)
  }

  ghost predicate AllValuesCleared(h: Heap, color: Colors, list: seq<Ref>) {
    forall o :: o in list ==> ValuesCleared(h, color, o)
  }

  lemma ClearedLater(h: Heap, h': Heap, color: Colors, color': Colors, keys: seq<Ref>, values: seq<Ref>)
    requires HeapPruned(h, h') && Marked(color) <= Marked(color')
    requires AllKeysCleared(h, color, keys) && AllValuesCleared(h, color, values)
    ensures AllKeysCleared(h', color', keys) && AllValuesCleared(h', color', values)
  {
    forall o | o in keys ensures KeysCleared(h', color', o) { KeysClearedLater(h, h', color, color', o); }
    forall o | o in values ensures ValuesCleared(h', color', o) { ValuesClearedLater(h, h', color, color', o); }
  }

  lemma SettledListStays(h: Heap, h': Heap, color: Colors, color': Colors, list: seq<Ref>)
    requires SettledList(h, color, list) && ClearStep(h, color, h', color')
    ensures SettledList(h', color', list)
  {
    forall o | o in list ensures o in h' && h'[o].Table? && SettledTable(h', Marked(color'), h'[o]) {
      SettledStays(h, h', color, color', o);
    }
  }

  lemma MayClearLater(o: Object, o': Object, marked: set<Ref>, marked': set<Ref>)
    requires MayClear(o, marked) && Pruned(o, o') && marked <= marked'
    ensures MayClear(o', marked')
  {
  }

  /** Tables in the lists are tables, known to the bound, and weak. */
  lemma ListedTable(h: Heap, color: Colors, white: Color, twups: seq<Ref>, sc: Scope, atomic: bool, o: Ref,
                    gray: seq<Ref>, again: seq<Ref>, weak: seq<Ref>, all: seq<Ref>, eph: seq<Ref>)
    requires MarkInv(h, color, white, Sum(gray, again, weak, all, eph), twups, sc)
    requires ListsOk(h, color, atomic, again, weak, all, eph, sc.but)
    requires o in weak || o in all || o in eph
    ensures o in h && h[o].Table? && o in sc.bound && (o in weak || o in all ==> MayClear(h[o], Marked(color)))
    ensures o in Marked(color)
    ensures o in all || o in eph ==> h[o].weakness.Ephemeron? || h[o].weakness.AllWeak?
  {
    var lists := Sum(gray, again, weak, all, eph);
    assert (lists + sc.pending)[o] == if Waits(h, color, o) then 1 else 0;
  }

  /** Clearing a table disturbs neither the lists nor the tables cleared before. */
  lemma Cleared(h: Heap, h': Heap, c: Colors, c': Colors, again: seq<Ref>, weak: seq<Ref>, all: seq<Ref>, eph: seq<Ref>,
                twups: seq<Ref>, sc: Scope, keys: seq<Ref>, values: seq<Ref>)
    requires ListsOk(h, c, true, again, weak, all, eph, sc.but) && TwupsOk(h, c, twups, sc.lax)
    requires ClearStep(h, c, h', c')
    requires AllKeysCleared(h, c, keys) && AllValuesCleared(h, c, values)
    ensures ListsOk(h', c', true, again, weak, all, eph, sc.but) && TwupsOk(h', c', twups, sc.lax)
    ensures AllKeysCleared(h', c', keys) && AllValuesCleared(h', c', values)
    ensures Marked(c) <= Marked(c')
  {
    ListsOkLater(h, h', c, c', true, again, weak, all, eph, sc.but);
    TwupsOkLater(h, h', c, c', twups, sc.lax);
    ClearedLater(h, h', c, c', keys, values);
  }

  // ----- finalization -----

  /** The unmarked objects of a list, or the marked ones, in order. */
  function Part(list: seq<Ref>, color: Colors, white: bool): (r: seq<Ref>) {
    if list == [] then []
    else
      var r := Part(list[..|list| - 1], color, white);
      var o := list[|list| - 1];
      if (o in color && IsWhite(color[o])) == white then r + [o] else r
  }

  lemma {:induction false} PartSplits(list: seq<Ref>, color: Colors)
    ensures multiset(Part(list, color, true)) + multiset(Part(list, color, false)) == multiset(list)
    ensures forall o :: o in Part(list, color, true) <==> o in list && o in color && IsWhite(color[o])
    ensures forall o :: o in Part(list, color, false) <==> o in list && !(o in color && IsWhite(color[o]))
  {
    if list != [] {
      PartSplits(list[..|list| - 1], color);
      assert list == list[..|list| - 1] + [list[|list| - 1]];
    }
  }

  /** The objects of one list are in the same order in the other. */
  ghost predicate InOrder(sub: seq<Ref>, list: seq<Ref>) {
    forall i, j :: 0 <= i < j < |sub| ==> Before(list, sub[i], sub[j])
  }

  ghost predicate Before(list: seq<Ref>, o: Ref, r: Ref) {
    exists a, b :: 0 <= a < b < |list| && list[a] == o && list[b] == r
  }

  /** Of the objects with finalizers, those that are live stay, and the others go to the end of `tobefnz`. */
  ghost predicate Separated(fin0: seq<Ref>, fin: seq<Ref>, pending0: seq<Ref>, pending: seq<Ref>, live: set<Ref>) {
    && |pending0| <= |pending| && pending[..|pending0|] == pending0
    && var moved := pending[|pending0|..];
    && multiset(fin) + multiset(moved) == multiset(fin0) && InOrder(fin, fin0) && InOrder(moved, fin0)
    && (forall o :: o in fin ==> o in live) && (forall o :: o in moved ==> o !in live)
  }

  lemma {:induction false} PartInOrder(list: seq<Ref>, color: Colors, white: bool)
    ensures InOrder(Part(list, color, white), list) && forall o :: o in Part(list, color, white) ==> o in list
  {
    if list != [] {
      var shorter, part := list[..|list| - 1], Part(list, color, white);
      PartInOrder(shorter, color, white);
      var r := Part(shorter, color, white);
      forall i, j | 0 <= i < j < |part| ensures Before(list, part[i], part[j]) {
        if j < |r| {
          assert Before(shorter, r[i], r[j]);
          var a, b :| 0 <= a < b < |shorter| && shorter[a] == r[i] && shorter[b] == r[j];
          assert list[a] == part[i] && list[b] == part[j];
        } else {
          assert r[i] in shorter;
          var a :| 0 <= a < |shorter| && shorter[a] == r[i];
          assert list[a] == part[i] && list[|list| - 1] == part[j];
        }
      }
    }
  }

  lemma PartSeparates(fin: seq<Ref>, pending: seq<Ref>, color: Colors)
    requires forall o :: o in fin ==> o in color
    ensures Separated(fin, Part(fin, color, false), pending, pending + Part(fin, color, true), Marked(color))
  {
    PartSplits(fin, color);
    PartInOrder(fin, color, false);
    PartInOrder(fin, color, true);
    assert (pending + Part(fin, color, true))[|pending|..] == Part(fin, color, true);
  }

  // ----- the end of the atomic phase -----

  lemma WeakDone(h: Heap, color: Colors, o: Ref)
    requires o in h && InWeak(h[o], Marked(color)) && ValuesCleared(h, color, o)
    ensures Within(h[o], Marked(color))
  {
    var t := h[o];
    forall i | 0 <= i < |t.nodes| ensures NodeIn(t.nodes[i], Marked(color)) {
      assert NodeValueOk(t.nodes[i], Marked(color));
    }
  }

  lemma EphemeronDone(h: Heap, color: Colors, o: Ref)
    requires o in h && InEphemeron(h[o], Marked(color)) && SettledTable(h, Marked(color), h[o])
    requires KeysCleared(h, color, o)
    ensures Within(h[o], Marked(color))
  {
    var t := h[o];
    forall i | 0 <= i < |t.nodes| ensures NodeIn(t.nodes[i], Marked(color)) {
      assert NodeKeyOk(t.nodes[i], Marked(color)) && Settled(h, Marked(color), t.nodes[i]);
    }
  }

  lemma AllWeakDone(h: Heap, color: Colors, o: Ref)
    requires KeysCleared(h, color, o) && ValuesCleared(h, color, o)
    ensures ValueIn(h[o].metatable, Marked(color)) ==> Within(h[o], Marked(color))
    ensures Within(h[o].(metatable := Nil), Marked(color))
  {
    var t := h[o];
    forall i | 0 <= i < |t.nodes| ensures NodeIn(t.nodes[i], Marked(color)) {
      assert NodeKeyOk(t.nodes[i], Marked(color)) && NodeValueOk(t.nodes[i], Marked(color));
    }
  }

  /** What a marked object refers to is marked, but perhaps the metatable of a table in `but`. */
  ghost predicate Complete(h: Heap, color: Colors, but: set<Ref>) {
    forall o :: o in h && o in Marked(color) ==>
      || Inside(h, h[o], Marked(color))
      || (&& o in but && h[o].Table? && !ValueIn(h[o].metatable, Marked(color))
          && Within(h[o].(metatable := Nil), Marked(color)))
  }

  lemma AtomicComplete(h: Heap, color: Colors, white: Color, twups: seq<Ref>, sc: Scope,
                       again: seq<Ref>, weak: seq<Ref>, all: seq<Ref>, eph: seq<Ref>)
    requires sc.active == {} && sc.pending == multiset{} && sc.lax == {}
    requires MarkInv(h, color, white, Sum([], again, weak, all, eph), twups, sc)
    requires ListsOk(h, color, true, again, weak, all, eph, sc.but)
    requires SettledList(h, color, eph) && AllKeysCleared(h, color, eph)
    requires AllKeysCleared(h, color, all) && AllValuesCleared(h, color, all) && AllValuesCleared(h, color, weak)
    ensures Complete(h, color, sc.but)
  {
    forall o | o in h && o in Marked(color)
      ensures || Inside(h, h[o], Marked(color))
              || (o in sc.but && h[o].Table? && !ValueIn(h[o].metatable, Marked(color))
                  && Within(h[o].(metatable := Nil), Marked(color)))
    {
      if color[o].Black? {
        assert BlackOk(h, color, twups, sc.inc, o);
      } else if Linkable(h[o]) {
        ListedDone(h, color, white, twups, sc, o, again, weak, all, eph);
      } else if h[o].OpenUpVal? {
        SlotDone(h, color, white, twups, sc, o, again, weak, all, eph);
      }
    }
  }

  lemma ListedDone(h: Heap, color: Colors, white: Color, twups: seq<Ref>, sc: Scope, o: Ref,
                   again: seq<Ref>, weak: seq<Ref>, all: seq<Ref>, eph: seq<Ref>)
    requires sc.pending == multiset{} && MarkInv(h, color, white, Sum([], again, weak, all, eph), twups, sc)
    requires ListsOk(h, color, true, again, weak, all, eph, sc.but)
    requires SettledList(h, color, eph) && AllKeysCleared(h, color, eph)
    requires AllKeysCleared(h, color, all) && AllValuesCleared(h, color, all) && AllValuesCleared(h, color, weak)
    requires Waits(h, color, o)
    ensures h[o].Table?
    ensures || Within(h[o], Marked(color))
            || (&& o in sc.but && !ValueIn(h[o].metatable, Marked(color))
                && Within(h[o].(metatable := Nil), Marked(color)))
  {
    var lists := Sum([], again, weak, all, eph);
    assert (lists + sc.pending)[o] == 1;
    if o in weak {
      WeakDone(h, color, o);
    } else if o in eph {
      EphemeronDone(h, color, o);
    } else if o in all {
      AllWeakDone(h, color, o);
    }
  }

  lemma SlotDone(h: Heap, color: Colors, white: Color, twups: seq<Ref>, sc: Scope, o: Ref,
                 again: seq<Ref>, weak: seq<Ref>, all: seq<Ref>, eph: seq<Ref>)
    requires sc.active == {} && sc.pending == multiset{} && sc.lax == {}
    requires MarkInv(h, color, white, Sum([], again, weak, all, eph), twups, sc)
    requires ListsOk(h, color, true, again, weak, all, eph, sc.but)
    requires o in h && h[o].OpenUpVal? && o in Marked(color)
    ensures HasSlot(h, h[o]) && ValueIn(Slot(h, h[o]), Marked(color))
  {
    SlotOfLinked(h, o);
    assert LinkedUpVal(h, o) && SlotClosed(h, color, sc.active, o);
    var th := h[o].thread;
    assert (Sum([], again, weak, all, eph) + sc.pending)[th] == if Waits(h, color, th) then 1 else 0;
    assert th !in again && th !in weak && th !in all && th !in eph;
  }

  /** Before anything is cleared, what is marked is closed under tracing, but for strings in weak tables. */
  lemma AccessibleIsTraced(h: Heap, color: Colors, white: Color, twups: seq<Ref>, sc: Scope,
                           again: seq<Ref>, weak: seq<Ref>, all: seq<Ref>, eph: seq<Ref>)
    requires sc.active == {} && sc.pending == multiset{} && sc.lax == {}
    requires MarkInv(h, color, white, Sum([], again, weak, all, eph), twups, sc)
    requires ListsOk(h, color, true, again, weak, all, eph, sc.but) && SettledList(h, color, eph)
    ensures Traced(h, Marked(color) + Strings(h), sc.but)
  {
    var s := Marked(color) + Strings(h);
    forall o | o in s && o in h
      ensures if o in sc.but then h[o].Table? && StringsIn(h, h[o], s) else TracedIn(h, h[o], s)
    {
      if h[o].Str? {
        assert o !in sc.but;
      } else if color[o].Black? {
        BlackIsTraced(h, color, white, twups, sc, o, again, weak, all, eph);
      } else if Linkable(h[o]) {
        ListedIsTraced(h, color, white, twups, sc, o, again, weak, all, eph);
      } else if h[o].OpenUpVal? {
        SlotDone(h, color, white, twups, sc, o, again, weak, all, eph);
      }
    }
  }

  /** The same, seen from the heap before the traversals. */
  lemma AccessibleWasTraced(h0: Heap, h: Heap, color: Colors, white: Color, twups: seq<Ref>, sc: Scope,
                            again: seq<Ref>, weak: seq<Ref>, all: seq<Ref>, eph: seq<Ref>)
    requires sc.active == {} && sc.pending == multiset{} && sc.lax == {}
    requires MarkInv(h, color, white, Sum([], again, weak, all, eph), twups, sc)
    requires ListsOk(h, color, true, again, weak, all, eph, sc.but) && SettledList(h, color, eph)
    requires HeapClosed(h0) && HeapTidied(h0, h)
    ensures Traced(h0, Marked(color) + Strings(h0), sc.but)
  {
    AccessibleIsTraced(h, color, white, twups, sc, again, weak, all, eph);
    assert Strings(h) == Strings(h0) by {
      forall r | r in h ensures h[r].Str? <==> h0[r].Str? { assert Pruned(h0[r], h[r]); }
    }
    hide HeapTidied, Traced, ListsOk, SettledList, TracedIn, StringsIn;
    TidiedTraced(h0, h, Marked(color) + Strings(h0), sc.but);
  }

  lemma BlackIsTraced(h: Heap, color: Colors, white: Color, twups: seq<Ref>, sc: Scope, o: Ref,
                      again: seq<Ref>, weak: seq<Ref>, all: seq<Ref>, eph: seq<Ref>)
    requires sc.active == {} && sc.pending == multiset{}
    requires MarkInv(h, color, white, Sum([], again, weak, all, eph), twups, sc)
    requires ListsOk(h, color, true, again, weak, all, eph, sc.but)
    requires o in h && o in color && color[o].Black?
    ensures o !in sc.but && TracedIn(h, h[o], Marked(color) + Strings(h))
  {
    assert BlackOk(h, color, twups, sc.inc, o);
    assert (Sum([], again, weak, all, eph) + sc.pending)[o] == 0;
    assert o !in all;
    WithinMore(h[o], Marked(color), Marked(color) + Strings(h));
    InsideIsTraced(h, h[o], Marked(color) + Strings(h));
  }

  lemma ListedIsTraced(h: Heap, color: Colors, white: Color, twups: seq<Ref>, sc: Scope, o: Ref,
                       again: seq<Ref>, weak: seq<Ref>, all: seq<Ref>, eph: seq<Ref>)
    requires sc.pending == multiset{} && MarkInv(h, color, white, Sum([], again, weak, all, eph), twups, sc)
    requires ListsOk(h, color, true, again, weak, all, eph, sc.but) && SettledList(h, color, eph)
    requires Waits(h, color, o)
    ensures h[o].Table? && StringsIn(h, h[o], Marked(color) + Strings(h))
    ensures o !in sc.but ==> TracedIn(h, h[o], Marked(color) + Strings(h))
  {
    var lists, s := Sum([], again, weak, all, eph), Marked(color) + Strings(h);
    assert (lists + sc.pending)[o] == 1;
    assert o in again || o in weak || o in all || o in eph;
    assert h[o].Table?;
    assert StringsIn(h, h[o], s);
    if o in again {
      WithinMore(h[o], Marked(color), s);
      InsideIsTraced(h, h[o], s);
    } else if o in eph {
      assert SettledTable(h, Marked(color), h[o]);
      EphemeronIsTraced(h, color, o);
    }
  }

  lemma EphemeronIsTraced(h: Heap, color: Colors, o: Ref)
    requires o in h && InEphemeron(h[o], Marked(color)) && SettledTable(h, Marked(color), h[o])
    requires Marked(color) <= h.Keys
    ensures TracedIn(h, h[o], Marked(color) + Strings(h))
  {
    var s := Marked(color) + Strings(h);
    forall i | 0 <= i < |h[o].nodes| ensures NodeTraced(h, Ephemeron, h[o].nodes[i], s) {
      assert Settled(h, Marked(color), h[o].nodes[i]);
    }
  }

  lemma SaveGrayAgain(h: Heap, color: Colors, white: Color, twups: seq<Ref>, sc: Scope,
                      gray: seq<Ref>, again: seq<Ref>, weak: seq<Ref>, all: seq<Ref>, eph: seq<Ref>)
    requires sc.pending == multiset{} && MarkInv(h, color, white, Sum(gray, again, weak, all, eph), twups, sc)
    requires ListsOk(h, color, false, again, weak, all, eph, sc.but)
    ensures MarkInv(h, color, white, Sum(gray, [], weak, all, eph), twups, sc.(pending := multiset(again)))
    ensures ListsOk(h, color, true, [], weak, all, eph, sc.but) && color.Keys == h.Keys
  {
    Shift(h, color, white, Sum(gray, again, weak, all, eph), twups, sc,
          Sum(gray, [], weak, all, eph), sc.(pending := multiset(again)));
  }

  lemma RestoreGrayAgain(h: Heap, color: Colors, white: Color, twups: seq<Ref>, sc: Scope,
                         saved: seq<Ref>, again: seq<Ref>, weak: seq<Ref>, all: seq<Ref>, eph: seq<Ref>)
    requires sc.pending == multiset(saved)
    requires MarkInv(h, color, white, Sum([], again, weak, all, eph), twups, sc)
    ensures MarkInv(h, color, white, Sum(saved, again, weak, all, eph), twups, sc.(pending := multiset{}))
  {
    Shift(h, color, white, Sum([], again, weak, all, eph), twups, sc,
          Sum(saved, again, weak, all, eph), sc.(pending := multiset{}));
  }

  lemma MarkedMore(v: Value, vs: seq<Value>, c: Colors, c': Colors)
    requires ValueIn(v, Marked(c)) && ValuesIn(vs, Marked(c)) && Marked(c) <= Marked(c')
    ensures ValueIn(v, Marked(c')) && ValuesIn(vs, Marked(c'))
  {
  }

  lemma TidiedKeeps(h: Heap, h': Heap, s: set<Ref>)
    requires HeapTidied(h, h') && s <= h.Keys
    ensures Keeps(h, h', s)
  {
    KeepsLess(h, h', s, h.Keys);
  }

  lemma Cleared2(h: Heap, h': Heap, c: Colors, c': Colors, weak: seq<Ref>, all: seq<Ref>)
    requires HeapPruned(h, h') && Marked(c) <= Marked(c')
    requires AllValuesCleared(h, c, weak) && AllValuesCleared(h, c, all)
    ensures AllValuesCleared(h', c', weak) && AllValuesCleared(h', c', all)
  {
    ClearedLater(h, h', c, c', [], weak);
    ClearedLater(h, h', c, c', [], all);
  }

  lemma OnlyStringsMarks(h: Heap, c: Colors, h': Heap, c': Colors)
    requires ClearStep(h, c, h', c')
    ensures Marked(c) <= Marked(c')
  {
  }

  lemma PartMarked(kept: seq<Ref>, list: seq<Ref>, c: Colors, c': Colors)
    requires kept == Part(list, c, false) && (forall o :: o in list ==> o in c) && Marked(c) <= Marked(c')
    ensures forall o :: o in kept ==> o in list && o in Marked(c')
  {
    PartSplits(list, c);
  }

  lemma ListedMarked(h: Heap, color: Colors, white: Color, twups: seq<Ref>, sc: Scope, gray: seq<Ref>, again: seq<Ref>,
                     weak: seq<Ref>, all: seq<Ref>, eph: seq<Ref>)
    requires sc.pending == multiset{} && MarkInv(h, color, white, Sum(gray, again, weak, all, eph), twups, sc)
    ensures forall o :: o in all ==> o in Marked(color)
  {
    forall o | o in all ensures o in Marked(color) {
      assert (Sum(gray, again, weak, all, eph) + sc.pending)[o] == if Waits(h, color, o) then 1 else 0;
    }
  }

  /** When the current white flips, what is unmarked is dead and nothing that is not refers to it. */
  ghost predicate AtomicEnd(h: Heap, color: Colors, white: Color, twups: seq<Ref>, but: set<Ref>) {
    && color.Keys == h.Keys && Linked(h) && IsWhite(white)
    && (forall o :: o in color && IsWhite(color[o]) ==> color[o] == OtherWhite(white))
    && Complete(h, color, but)
    && (forall o :: o in h ==> MetatableOk(h, h[o]))
    && (forall th :: th in twups ==> th in h && h[th].Thread? && th in Marked(color))
    && (forall th :: th in h && h[th].Thread? && h[th].openupval != [] && th in Marked(color) ==> th in twups)
  }

  lemma AtomicEnds(h: Heap, color: Colors, white: Color, twups: seq<Ref>, sc: Scope,
                   again: seq<Ref>, weak: seq<Ref>, all: seq<Ref>, eph: seq<Ref>)
    requires sc.active == {} && sc.pending == multiset{} && sc.lax == {}
    requires MarkInv(h, color, white, Sum([], again, weak, all, eph), twups, sc)
    requires ListsOk(h, color, true, again, weak, all, eph, sc.but) && TwupsOk(h, color, twups, sc.lax)
    requires SettledList(h, color, eph) && AllKeysCleared(h, color, eph)
    requires AllKeysCleared(h, color, all) && AllValuesCleared(h, color, all) && AllValuesCleared(h, color, weak)
    ensures IsWhite(white) && AtomicEnd(h, color, OtherWhite(white), twups, sc.but) && Marked(color) <= sc.bound
  {
    AtomicComplete(h, color, white, twups, sc, again, weak, all, eph);
    hide InAllWeak, InWeak, InEphemeron, Complete, TracedIn;
    forall th | th in h && h[th].Thread? && h[th].openupval != [] && th in Marked(color)
      ensures th in twups
    {
      assert (Sum([], again, weak, all, eph) + sc.pending)[th] == if Waits(h, color, th) then 1 else 0;
      assert th !in again && th !in weak && th !in all && th !in eph;
      assert BlackOk(h, color, twups, sc.inc, th);
    }
  }

  lemma NotIncremental(h: Heap, color: Colors, white: Color, lists: multiset<Ref>, twups: seq<Ref>, sc: Scope)
    requires MarkInv(h, color, white, lists, twups, sc)
    ensures MarkInv(h, color, white, lists, twups, sc.(inc := false))
  {
    assert forall o :: o in h && BlackOk(h, color, twups, sc.inc, o) ==> BlackOk(h, color, twups, false, o);
  }
}
