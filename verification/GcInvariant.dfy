/**
 The invariant of the collector between steps: what it says of the heap in every phase, and how a
 store, an allocation or the freeing of a dead object keeps it.
 */
module GcInvariant {
  import opened GcObjects
  import opened GcMarking

  /** Objects that are not waiting to be freed. */
  function LiveSet(color: Colors, white: Color): set<Ref>
    requires IsWhite(white)
  {
    set o | o in color && color[o] != OtherWhite(white)
  }

  /** No way leads out of `s`: its objects exist and everything got from them is in `s` again. */
  ghost predicate Sealed(h: Heap, s: set<Ref>) {
    forall o :: o in s ==> o in h && Inside(h, h[o], s) && MetatableOk(h, h[o])
  }

  /** A path of references, of any kind, from one object to another. */
  ghost predicate Path(h: Heap, p: seq<Ref>) {
    p != [] && forall i :: 0 <= i < |p| - 1 ==> p[i] in h && RefersTo(h, p[i], p[i + 1])
  }

  /** The object holds a reference to `r`, weak or not; an open upvalue through the stack. */
  ghost predicate RefersTo(h: Heap, o: Ref, r: Ref)
    requires o in h
  {
    match h[o]
    case Str => false
    case Record(fs) => Gc(r) in fs
    case Userdata(mt, uvs) => mt == Gc(r) || Gc(r) in uvs
    case Table(_, mt, arr, nodes) =>
      mt == Gc(r) || Gc(r) in arr || exists n :: n in nodes && (n.key == LiveKey(r) || n.val == Gc(r))
    case Thread(stack, _, open) => Gc(r) in stack || r in open
    case OpenUpVal(_, _) => HasSlot(h, h[o]) && Slot(h, h[o]) == Gc(r)
    case ClosedUpVal(v) => v == Gc(r)
  }

  /** Whatever can be reached from a sealed set is in it, and in particular exists. */
  lemma {:induction false} ReachesOnlySealed(h: Heap, s: set<Ref>, p: seq<Ref>)
    requires Sealed(h, s) && Path(h, p) && p[0] in s
    ensures p[|p| - 1] in s && p[|p| - 1] in h
  {
    if |p| > 1 {
      assert RefersTo(h, p[0], p[1]) && Inside(h, h[p[0]], s);
      assert p[1] in s;
      assert Path(h, p[1..]) by {
        forall i | 0 <= i < |p[1..]| - 1 ensures p[1..][i] in h && RefersTo(h, p[1..][i], p[1..][i + 1]) {
          assert p[i + 1] in h && RefersTo(h, p[i + 1], p[i + 2]);
        }
      }
      ReachesOnlySealed(h, s, p[1..]);
    }
  }

  /** Every object is in exactly one of the lists that own objects. */
  ghost predicate Owned(h: Heap, lists: multiset<Ref>) {
    forall o :: lists[o] == if o in h then 1 else 0
  }

  /** Threads with open upvalues that may still be used are listed; no thread in the list is dead. */
  ghost predicate TwupsLive(h: Heap, live: set<Ref>, twups: seq<Ref>) {
    && (forall th :: th in twups ==> th in h && h[th].Thread? && th in live)
    && (forall th :: th in h && th in live && h[th].Thread? && h[th].openupval != [] ==> th in twups)
  }

  // ----- stores -----

  /** `o'` may replace `o` in place: an object of the same kind, with the same open upvalues. */
  predicate SameKind(o: Object, o': Object) {
    match o
    case Str => o' == o
    case OpenUpVal(_, _) => o' == o
    case ClosedUpVal(_) => o'.ClosedUpVal?
    case Record(fs) => o'.Record? && |o'.fields| == |fs|
    case Userdata(_, uvs) => o'.Userdata? && |o'.uservalues| == |uvs|
    case Table(_, _, _, _) => o'.Table?
    case Thread(stack, _, open) =>
      o'.Thread? && o'.openupval == open && o'.top <= |o'.stack| && |stack| <= |o'.stack|
  }

  /** The open upvalues of a thread stay below its top. */
  ghost predicate UpvaluesBelow(h: Heap, o: Object) {
    o.Thread? ==> forall u :: u in o.openupval && u in h && h[u].OpenUpVal? ==> h[u].level < o.top
  }

  lemma StoreKeepsLinked(h: Heap, o: Ref, obj: Object)
    requires Linked(h) && o in h && SameKind(h[o], obj) && UpvaluesBelow(h, obj)
    ensures Linked(h[o := obj])
  {
    var h' := h[o := obj];
    forall u | u in h' && h'[u].OpenUpVal? ensures LinkedUpVal(h', u) { assert LinkedUpVal(h, u); }
    forall th | th in h' && h'[th].Thread? ensures LinkedThread(h', th) { assert LinkedThread(h, th); }
  }

  lemma StoreKeepsSealed(h: Heap, o: Ref, obj: Object, s: set<Ref>)
    requires Linked(h) && Sealed(h, s) && o in h && SameKind(h[o], obj) && UpvaluesBelow(h, obj)
    requires o in s && Within(obj, s) && MetatableOk(h, obj)
    ensures Sealed(h[o := obj], s)
  {
    var h' := h[o := obj];
    forall r | r in s ensures r in h' && Inside(h', h'[r], s) && MetatableOk(h', h'[r]) {
      if h'[r].OpenUpVal? {
        assert LinkedUpVal(h, r) && LinkedThread(h, h[r].thread);
      }
    }
  }

  /** The scope of the collector between steps, with everything but `garbage` possibly reachable. */
  function Incremental(h: Heap, garbage: set<Ref>, active: set<Ref>): Scope {
    Scope(active, multiset{}, h.Keys - garbage, {}, h.Keys, true)
  }

  /** Tables need only have their strings traced. */
  lemma TracedBut(h: Heap, s: set<Ref>, but: set<Ref>)
    requires Traced(h, s, {}) && forall o :: o in but && o in h ==> h[o].Table?
    ensures Traced(h, s, but)
  {
    forall o | o in s && o in h && o in but ensures StringsIn(h, h[o], s) {
      assert TracedIn(h, h[o], s);
      forall i | 0 <= i < |h[o].nodes| ensures NodeTraced(h, AllWeak(Both), h[o].nodes[i], s) {
        assert NodeTraced(h, h[o].weakness, h[o].nodes[i], s);
      }
    }
  }

  lemma SealedIsTraced(h: Heap, s: set<Ref>)
    requires Sealed(h, s)
    ensures Traced(h, s, {})
  {
    forall o | o in s && o in h ensures TracedIn(h, h[o], s) { InsideIsTraced(h, h[o], s); }
  }

  /** After a store, an object counts as being traversed until a barrier has seen to it. */
  lemma StoreKeepsMarkInv(h: Heap, color: Colors, white: Color, lists: multiset<Ref>, twups: seq<Ref>,
                          garbage: set<Ref>, o: Ref, obj: Object)
    requires MarkInv(h, color, white, lists, twups, Incremental(h, garbage, {}))
    requires o in h && SameKind(h[o], obj) && Linked(h[o := obj])
    requires Sealed(h[o := obj], h.Keys) && Sealed(h[o := obj], h.Keys - garbage)
    ensures MarkInv(h[o := obj], color, white, lists, twups, Incremental(h[o := obj], garbage, {o}))
  {
    hide Inside, MetatableOk, LinkedUpVal, LinkedThread, TracedIn, Within;
    var h' := h[o := obj];
    assert h'.Keys == h.Keys;
    SealedIsTraced(h', h.Keys - garbage);
    SealedIsClosed(h');
    assert forall r :: Waits(h', color, r) == Waits(h, color, r);
    assert forall r :: r != o && r in h && BlackOk(h, color, twups, true, r) ==> BlackOk(h', color, twups, true, r);
  }

  lemma SealedIsClosed(h: Heap)
    requires Linked(h) && Sealed(h, h.Keys)
    ensures HeapClosed(h)
  {
  }

  /** A thread that is gray, or any object that is not black, can be written without a barrier. */
  lemma NoBarrierNeeded(h: Heap, color: Colors, white: Color, lists: multiset<Ref>, twups: seq<Ref>,
                        garbage: set<Ref>, o: Ref)
    requires MarkInv(h, color, white, lists, twups, Incremental(h, garbage, {o}))
    requires o in h && o in color && (color[o].Black? ==> BlackOk(h, color, twups, true, o))
    ensures MarkInv(h, color, white, lists, twups, Incremental(h, garbage, {}))
  {
    hide Inside, MetatableOk, LinkedUpVal, LinkedThread, TracedIn, Within;
  }

  // ----- sweeping -----

  /** Where the sweep of a list goes on: nowhere, at its head, or after one of its objects. */
  datatype SweepPos = Done | Header | Next(o: Ref)

  function IndexOf(list: seq<Ref>, o: Ref): (i: nat)
    requires o in list
    ensures i < |list| && list[i] == o
  {
    if list[0] == o then 0 else 1 + IndexOf(list[1..], o)
  }

  predicate PosIn(list: seq<Ref>, pos: SweepPos) { pos.Next? ==> pos.o in list }

  /** The part of the list that is still to be swept. */
  function After(list: seq<Ref>, pos: SweepPos): seq<Ref>
    requires PosIn(list, pos)
  {
    match pos
    case Done => []
    case Header => list
    case Next(o) => list[IndexOf(list, o) + 1..]
  }

  function Elems(list: seq<Ref>): set<Ref> { set o | o in list }

  /** What is swept has the current white; garbage is dead and still to be swept. */
  ghost predicate Swept(h: Heap, color: Colors, white: Color, unswept: set<Ref>, fixedgc: seq<Ref>, garbage: set<Ref>)
    requires IsWhite(white)
  {
    && (forall o :: o in h && o in color && o !in unswept && o !in fixedgc ==> color[o] == white)
    && (forall o :: o in garbage && o in h && o in color ==> o in unswept && color[o] == OtherWhite(white))
  }

  lemma SuffixElems(s: seq<Ref>, t: seq<Ref>)
    requires SuffixOf(s, t)
    ensures Elems(s) <= Elems(t)
  {
    assert t == t[..|t| - |s|] + s;
  }

  // ----- what else a store leaves alone -----

  lemma StoreKeepsLists(h: Heap, color: Colors, o: Ref, obj: Object, again: seq<Ref>, weak: seq<Ref>, all: seq<Ref>,
                        eph: seq<Ref>, twups: seq<Ref>, lax: set<Ref>)
    requires o in h && SameKind(h[o], obj)
    requires ListsOk(h, color, false, again, weak, all, eph, Elems(all)) && TwupsOk(h, color, twups, lax)
    requires o in all ==> LeftAllWeak(obj)
    ensures ListsOk(h[o := obj], color, false, again, weak, all, eph, Elems(all))
    ensures TwupsOk(h[o := obj], color, twups, lax)
  {
    var h' := h[o := obj];
    forall th | HasOpen(h', th, lax) ensures HasOpen(h, th, lax) { }
  }

  // ----- changes of color -----

  /** No object is dead while marking goes on. */
  lemma AllLive(h: Heap, color: Colors, white: Color, lists: multiset<Ref>, twups: seq<Ref>, sc: Scope)
    requires MarkInv(h, color, white, lists, twups, sc)
    ensures LiveSet(color, white) == h.Keys
  {
  }

  lemma FixedStay(h: Heap, c: Colors, c': Colors, fixedgc: seq<Ref>)
    requires Grew(h, c, c') && forall r :: r in fixedgc ==> r in h && h[r].Str? && r in c && !IsWhite(c[r])
    ensures forall r :: r in fixedgc ==> r in h && h[r].Str? && r in c' && !IsWhite(c'[r])
  {
  }

  // ----- stacks -----

  /** A slot of a stack may be written even if its thread is garbage, through an upvalue that is not. */
  lemma SlotStoreKeepsSealed(h: Heap, th: Ref, i: nat, v: Value, s: set<Ref>)
    requires Linked(h) && Sealed(h, s) && th in h && h[th].Thread? && i < |h[th].stack| && ValueIn(v, s)
    ensures Sealed(h[th := h[th].(stack := h[th].stack[i := v])], s)
  {
    var h' := h[th := h[th].(stack := h[th].stack[i := v])];
    forall r | r in s ensures r in h' && Inside(h', h'[r], s) && MetatableOk(h', h'[r]) {
      if h'[r].OpenUpVal? {
        assert LinkedUpVal(h, r) && LinkedThread(h, h[r].thread);
      }
    }
  }

  lemma ThreadNotBlack(h: Heap, color: Colors, white: Color, lists: multiset<Ref>, twups: seq<Ref>, sc: Scope, th: Ref)
    requires MarkInv(h, color, white, lists, twups, sc) && sc.inc && sc.active == {}
    requires th in h && h[th].Thread? && th in color
    ensures !color[th].Black?
  {
  }

  lemma TopOk(h: Heap, th: Ref)
    requires Linked(h) && th in h && h[th].Thread?
    ensures h[th].top <= |h[th].stack| && UpvaluesBelow(h, h[th])
  {
    assert LinkedThread(h, th);
    forall u | u in h[th].openupval && u in h && h[u].OpenUpVal? ensures h[u].level < h[th].top {
      assert LinkedUpVal(h, u);
    }
  }

  lemma UpvaluesStayBelow(h: Heap, o: Object, o': Object)
    requires o.Thread? && o'.Thread? && o'.openupval == o.openupval && o.top <= o'.top && UpvaluesBelow(h, o)
    ensures UpvaluesBelow(h, o')
  {
  }

  lemma NotInAllWeak(h: Heap, color: Colors, again: seq<Ref>, weak: seq<Ref>, all: seq<Ref>, eph: seq<Ref>, o: Ref)
    requires ListsOk(h, color, false, again, weak, all, eph, Elems(all)) && o in h && !h[o].Table?
    ensures o !in all
  {
  }

  lemma GrownWithin(h: Heap, s: set<Ref>, th: Ref, obj: Object)
    requires Sealed(h, s) && th in s && h[th].Thread? && obj.Thread? && obj.openupval == h[th].openupval
    requires forall i :: 0 <= i < |obj.stack| ==> obj.stack[i] == Nil || obj.stack[i] in h[th].stack
    ensures Within(obj, s)
  {
  }

  /** The upvalues of the thread leave slots from `n` on free. */
  ghost predicate TopFree(h: Heap, th: Ref, n: nat) {
    th in h && h[th].Thread? && forall u :: u in h[th].openupval && u in h && h[u].OpenUpVal? ==> h[u].level < n
  }

  /** The thread with another top; slots that did not exist are nil. */
  function WithTop(o: Object, n: nat): (o': Object)
    requires o.Thread?
    ensures o'.Thread? && o'.top == n <= |o'.stack| && o.stack <= o'.stack
  {
    o.(stack := o.stack + seq(if n <= |o.stack| then 0 else n - |o.stack|, i => Nil), top := n)
  }

  /** The thread with one more value on its stack. */
  function WithPushed(o: Object, v: Value): Object
    requires o.Thread?
  {
    var o' := WithTop(o, o.top + 1);
    o'.(stack := o'.stack[o.top := v])
  }

  // ----- the effect of a store on an object -----

  /** Every reference of `o'` is one of `o` or the one stored. */
  ghost predicate Adds(o: Object, o': Object, v: Value, k: Value) {
    forall s :: Within(o, s) && ValueIn(v, s) && ValueIn(k, s) ==> Within(o', s)
  }

  lemma AddsWithin(o: Object, o': Object, v: Value, s0: set<Ref>)
    requires Adds(o, o', v, Nil) && Within(o, s0)
    ensures forall s :: s0 <= s && ValueIn(v, s) ==> Within(o', s)
  {
    forall s | s0 <= s && ValueIn(v, s) ensures Within(o', s) { WithinMore(o, s0, s); }
  }

  lemma SafeWithin(h: Heap, s: set<Ref>, o: Ref)
    requires Sealed(h, s) && o in s
    ensures o in h && Within(h[o], s) && MetatableOk(h, h[o])
  {
  }

  lemma BlackWithin(h: Heap, color: Colors, white: Color, lists: multiset<Ref>, twups: seq<Ref>, sc: Scope, o: Ref)
    requires MarkInv(h, color, white, lists, twups, sc) && sc.active == {} && o in h && o in color
    ensures color[o].Black? ==> Within(h[o], Marked(color)) && !h[o].OpenUpVal? && (sc.inc ==> !h[o].Thread?)
  {
    assert color[o].Black? ==> BlackOk(h, color, twups, sc.inc, o);
  }

  lemma InAllWeakStays(h: Heap, color: Colors, again: seq<Ref>, weak: seq<Ref>, all: seq<Ref>, eph: seq<Ref>, o: Ref)
    requires ListsOk(h, color, false, again, weak, all, eph, Elems(all)) && o in all
    ensures o in h && LeftAllWeak(h[o])
  {
  }

  // ----- new objects -----

  /** An object as it is created: it refers to nothing. */
  predicate Blank(o: Object) {
    Within(o, {}) && !o.OpenUpVal? && (o.Thread? ==> o.openupval == [] && o.top <= |o.stack|)
  }

  lemma NewKeepsSealed(h: Heap, s: set<Ref>, o: Ref, obj: Object)
    requires Sealed(h, s) && o !in h && Blank(obj) && Linked(h)
    ensures Linked(h[o := obj]) && Sealed(h[o := obj], s) && Sealed(h[o := obj], s + {o})
  {
    var h' := h[o := obj];
    forall u | u in h' && h'[u].OpenUpVal? ensures LinkedUpVal(h', u) { assert LinkedUpVal(h, u); }
    forall th | th in h' && h'[th].Thread? ensures LinkedThread(h', th) {
      if th != o { assert LinkedThread(h, th); }
    }
    forall r | r in s + {o} ensures Inside(h', h'[r], s + {o}) && MetatableOk(h', h'[r]) {
      WithinMore(h'[r], if r == o then {} else s, s + {o});
    }
  }

  lemma NewKeepsMarkInv(h: Heap, color: Colors, white: Color, lists: multiset<Ref>, twups: seq<Ref>,
                        garbage: set<Ref>, o: Ref, obj: Object)
    requires MarkInv(h, color, white, lists, twups, Incremental(h, garbage, {}))
    requires o !in h && o !in garbage && Blank(obj) && Linked(h[o := obj])
    requires Sealed(h[o := obj], h.Keys + {o}) && Sealed(h[o := obj], h.Keys - garbage + {o})
    ensures MarkInv(h[o := obj], color[o := white], white, lists, twups, Incremental(h[o := obj], garbage, {}))
    ensures Marked(color[o := white]) == Marked(color)
  {
    hide Inside, MetatableOk, LinkedUpVal, LinkedThread, TracedIn, Within;
    var h', color' := h[o := obj], color[o := white];
    assert h'.Keys == h.Keys + {o};
    assert h'.Keys - garbage == h.Keys - garbage + {o};
    SealedIsTraced(h', h'.Keys - garbage);
    SealedIsClosed(h');
    assert Marked(color') == Marked(color);
    assert forall r :: Waits(h', color', r) == Waits(h, color, r);
    assert forall r :: r in h && BlackOk(h, color, twups, true, r) ==> BlackOk(h', color', twups, true, r);
  }

  lemma NewKeepsLists(h: Heap, color: Colors, white: Color, o: Ref, obj: Object, again: seq<Ref>, weak: seq<Ref>,
                      all: seq<Ref>, eph: seq<Ref>, twups: seq<Ref>)
    requires o !in h && Blank(obj) && IsWhite(white) && color.Keys == h.Keys && Linked(h)
    requires ListsOk(h, color, false, again, weak, all, eph, Elems(all)) && TwupsOk(h, color, twups, h.Keys)
    ensures var h' := h[o := obj];
            && ListsOk(h', color[o := white], false, again, weak, all, eph, Elems(all))
            && TwupsOk(h', color[o := white], twups, h'.Keys)
  {
    var h' := h[o := obj];
    assert Marked(color[o := white]) == Marked(color);
    forall th | HasOpen(h', th, h'.Keys) ensures th in twups {
      assert th != o && LinkedThread(h, th);
      assert HasOpen(h, th, h.Keys);
    }
  }

  /** New objects go in front of the point where the sweep of their list goes on, unless it is the head. */
  lemma NewKeepsAfter(o: Ref, list: seq<Ref>, pos: SweepPos)
    requires PosIn(list, pos) && o !in list
    ensures PosIn([o] + list, pos)
    ensures Elems(After([o] + list, pos)) == Elems(After(list, pos)) + (if pos.Header? then {o} else {})
  {
    if pos.Next? {
      assert ([o] + list)[1..] == list;
    }
  }

  lemma NewKeepsSwept(h: Heap, color: Colors, white: Color, unswept: set<Ref>, unswept': set<Ref>, fixedgc: seq<Ref>,
                      garbage: set<Ref>, o: Ref, obj: Object)
    requires IsWhite(white) && color.Keys == h.Keys && Swept(h, color, white, unswept, fixedgc, garbage)
    requires o !in h && o !in garbage && unswept <= unswept' <= unswept + {o}
    ensures Swept(h[o := obj], color[o := white], white, unswept', fixedgc, garbage)
  {
  }

  // ----- the invariant, on values -----

  datatype Phase =
    | Propagate | EnterAtomic | InAtomic
    | SweepAllGc | SweepFinObj | SweepToBeFnz | SweepEnd | CallFin | Pause

  /** While marking: the lists of the collector, the roots it has marked, and the tri-colour invariant. */
  ghost predicate MarkState(h: Heap, color: Colors, white: Color, gray: seq<Ref>, again: seq<Ref>, weak: seq<Ref>,
                            all: seq<Ref>, eph: seq<Ref>, twups: seq<Ref>, finobj: seq<Ref>, mainthread: Ref,
                            garbage: set<Ref>, active: set<Ref>)
  {
    && Sealed(h, h.Keys)
    && MarkInv(h, color, white, Sum(gray, again, weak, all, eph), twups, Incremental(h, garbage, active))
    && ListsOk(h, color, false, again, weak, all, eph, Elems(all)) && TwupsOk(h, color, twups, h.Keys)
    && mainthread in Marked(color)
    && (forall o :: o in finobj ==> o !in garbage)
  }

  predicate PosOk(phase: Phase, pos: SweepPos, allgc: seq<Ref>, finobj: seq<Ref>, tobefnz: seq<Ref>) {
    && (phase.SweepAllGc? ==> PosIn(allgc, pos))
    && (phase.SweepFinObj? ==> PosIn(finobj, pos))
    && (phase.SweepToBeFnz? ==> PosIn(tobefnz, pos))
    && (phase.SweepEnd? ==> pos.Done?)
  }

  /** The objects that the running sweep has not come to yet. */
  ghost function Unswept(phase: Phase, pos: SweepPos, allgc: seq<Ref>, finobj: seq<Ref>, tobefnz: seq<Ref>): set<Ref>
    requires PosOk(phase, pos, allgc, finobj, tobefnz)
  {
    match phase
    case SweepAllGc => Elems(After(allgc, pos)) + Elems(finobj) + Elems(tobefnz)
    case SweepFinObj => Elems(After(finobj, pos)) + Elems(tobefnz)
    case SweepToBeFnz => Elems(After(tobefnz, pos))
    case _ => {}
  }

  ghost predicate SweepState(h: Heap, color: Colors, white: Color, phase: Phase, pos: SweepPos, allgc: seq<Ref>,
                             finobj: seq<Ref>, tobefnz: seq<Ref>, fixedgc: seq<Ref>, garbage: set<Ref>)
  {
    && IsWhite(white) && PosOk(phase, pos, allgc, finobj, tobefnz)
    && Swept(h, color, white, Unswept(phase, pos, allgc, finobj, tobefnz), fixedgc, garbage)
  }

  function Owners(allgc: seq<Ref>, finobj: seq<Ref>, tobefnz: seq<Ref>, fixedgc: seq<Ref>): multiset<Ref> {
    multiset(allgc) + multiset(finobj) + multiset(tobefnz) + multiset(fixedgc)
  }

  /** Who owns the objects, which are never collected, and what holds of threads in any phase. */
  ghost predicate HeapState(h: Heap, color: Colors, white: Color, twups: seq<Ref>, allgc: seq<Ref>, finobj: seq<Ref>,
                            tobefnz: seq<Ref>, fixedgc: seq<Ref>, running: Ref, next: nat, garbage: set<Ref>)
  {
    && color.Keys == h.Keys && IsWhite(white) && Linked(h)
    && Owned(h, Owners(allgc, finobj, tobefnz, fixedgc))
    && (forall o :: o in h || o in garbage ==> o < next)
    && (forall o :: o in fixedgc ==> o in h && h[o].Str? && o in color && !IsWhite(color[o]))
    && running in h && h[running].Thread?
    && TwupsLive(h, LiveSet(color, white), twups)
  }

  lemma StoreKeepsHeapState(h: Heap, color: Colors, white: Color, twups: seq<Ref>, allgc: seq<Ref>, finobj: seq<Ref>,
                            tobefnz: seq<Ref>, fixedgc: seq<Ref>, running: Ref, next: nat, garbage: set<Ref>,
                            o: Ref, obj: Object)
    requires HeapState(h, color, white, twups, allgc, finobj, tobefnz, fixedgc, running, next, garbage)
    requires o in h && SameKind(h[o], obj) && Linked(h[o := obj])
    ensures HeapState(h[o := obj], color, white, twups, allgc, finobj, tobefnz, fixedgc, running, next, garbage)
    ensures h[o := obj].Keys == h.Keys
  {
    hide LinkedUpVal, LinkedThread;
    assert h[o := obj].Keys == h.Keys;
  }

  lemma StoreKeepsMarkState(h: Heap, color: Colors, white: Color, gray: seq<Ref>, again: seq<Ref>, weak: seq<Ref>,
                            all: seq<Ref>, eph: seq<Ref>, twups: seq<Ref>, finobj: seq<Ref>, mainthread: Ref,
                            garbage: set<Ref>, o: Ref, obj: Object)
    requires MarkState(h, color, white, gray, again, weak, all, eph, twups, finobj, mainthread, garbage, {})
    requires o in h && SameKind(h[o], obj) && Linked(h[o := obj])
    requires Sealed(h[o := obj], h.Keys) && Sealed(h[o := obj], h.Keys - garbage)
    requires o in all ==> LeftAllWeak(obj)
    ensures MarkState(h[o := obj], color, white, gray, again, weak, all, eph, twups, finobj, mainthread, garbage, {o})
  {
    hide MarkInv, Sealed, SameKind, Linked, ListsOk, TwupsOk, Marked;
    assert h[o := obj].Keys == h.Keys;
    StoreKeepsMarkInv(h, color, white, Sum(gray, again, weak, all, eph), twups, garbage, o, obj);
    StoreKeepsLists(h, color, o, obj, again, weak, all, eph, twups, h.Keys);
  }

  lemma StoreKeepsSweepState(h: Heap, color: Colors, white: Color, phase: Phase, pos: SweepPos, allgc: seq<Ref>,
                             finobj: seq<Ref>, tobefnz: seq<Ref>, fixedgc: seq<Ref>, garbage: set<Ref>, o: Ref,
                               obj: Object)
    requires SweepState(h, color, white, phase, pos, allgc, finobj, tobefnz, fixedgc, garbage) && o in h
    ensures SweepState(h[o := obj], color, white, phase, pos, allgc, finobj, tobefnz, fixedgc, garbage)
  {
  }

  /** In a sweep phase a live object may turn white, as if it had been swept, or change a black it still has. */
  lemma RecolorKeepsState(h: Heap, color: Colors, white: Color, phase: Phase, pos: SweepPos, allgc: seq<Ref>,
                          finobj: seq<Ref>, tobefnz: seq<Ref>, fixedgc: seq<Ref>, running: Ref, next: nat,
                          twups: seq<Ref>, garbage: set<Ref>, o: Ref, c: Color)
    requires HeapState(h, color, white, twups, allgc, finobj, tobefnz, fixedgc, running, next, garbage)
    requires SweepState(h, color, white, phase, pos, allgc, finobj, tobefnz, fixedgc, garbage)
    requires o in h && color[o] != OtherWhite(white) && o !in fixedgc && c != OtherWhite(white)
    requires c == white || !IsWhite(color[o])
    ensures HeapState(h, color[o := c], white, twups, allgc, finobj, tobefnz, fixedgc, running, next, garbage)
    ensures SweepState(h, color[o := c], white, phase, pos, allgc, finobj, tobefnz, fixedgc, garbage)
    ensures LiveSet(color[o := c], white) == LiveSet(color, white)
  {
    hide Linked, Owned, Owners, Unswept, PosOk;
    assert LiveSet(color[o := c], white) == LiveSet(color, white);
  }

  lemma NewKeepsHeapState(h: Heap, color: Colors, white: Color, twups: seq<Ref>, allgc: seq<Ref>, finobj: seq<Ref>,
                          tobefnz: seq<Ref>, fixedgc: seq<Ref>, running: Ref, next: nat, garbage: set<Ref>, obj: Object)
    requires HeapState(h, color, white, twups, allgc, finobj, tobefnz, fixedgc, running, next, garbage)
    requires Blank(obj) && Linked(h[next := obj])
    ensures HeapState(h[next := obj], color[next := white], white, twups, [next] + allgc, finobj, tobefnz, fixedgc,
                      running, next + 1, garbage)
    ensures LiveSet(color[next := white], white) == LiveSet(color, white) + {next}
    ensures next !in h && next !in garbage && next !in allgc
  {
    hide LinkedUpVal, LinkedThread, Linked;
    var h', color' := h[next := obj], color[next := white];
    assert LiveSet(color', white) == LiveSet(color, white) + {next};
    forall r ensures Owners([next] + allgc, finobj, tobefnz, fixedgc)[r] == if r in h' then 1 else 0 {
      assert Owners(allgc, finobj, tobefnz, fixedgc)[r] == if r in h then 1 else 0;
    }
    assert Owners(allgc, finobj, tobefnz, fixedgc)[next] == 0;
  }

  lemma NewKeepsMarkState(h: Heap, color: Colors, white: Color, gray: seq<Ref>, again: seq<Ref>, weak: seq<Ref>,
                          all: seq<Ref>, eph: seq<Ref>, twups: seq<Ref>, finobj: seq<Ref>, mainthread: Ref,
                          garbage: set<Ref>, o: Ref, obj: Object)
    requires MarkState(h, color, white, gray, again, weak, all, eph, twups, finobj, mainthread, garbage, {})
    requires o !in h && o !in garbage && Blank(obj) && Linked(h) && Sealed(h, h.Keys - garbage)
    ensures MarkState(h[o := obj], color[o := white], white, gray, again, weak, all, eph, twups, finobj, mainthread,
                      garbage, {})
    ensures h[o := obj].Keys - garbage == h.Keys - garbage + {o}
  {
    hide MarkInv, Sealed, Linked, ListsOk, TwupsOk, Marked, Blank;
    assert h[o := obj].Keys == h.Keys + {o};
    assert h[o := obj].Keys - garbage == h.Keys - garbage + {o};
    MarkInvBasics(h, color, white, Sum(gray, again, weak, all, eph), twups, Incremental(h, garbage, {}));
    NewKeepsSealed(h, h.Keys, o, obj);
    NewKeepsSealed(h, h.Keys - garbage, o, obj);
    WhiteIsWhite(h, color, white, Sum(gray, again, weak, all, eph), twups, Incremental(h, garbage, {}));
    NewKeepsMarkInv(h, color, white, Sum(gray, again, weak, all, eph), twups, garbage, o, obj);
    NewKeepsLists(h, color, white, o, obj, again, weak, all, eph, twups);
  }

  lemma WhiteIsWhite(h: Heap, color: Colors, white: Color, lists: multiset<Ref>, twups: seq<Ref>, sc: Scope)
    requires MarkInv(h, color, white, lists, twups, sc)
    ensures IsWhite(white)
  {
  }

  lemma NewKeepsSweepState(h: Heap, color: Colors, white: Color, phase: Phase, pos: SweepPos, allgc: seq<Ref>,
                           finobj: seq<Ref>, tobefnz: seq<Ref>, fixedgc: seq<Ref>, garbage: set<Ref>, o: Ref,
                             obj: Object)
    requires SweepState(h, color, white, phase, pos, allgc, finobj, tobefnz, fixedgc, garbage)
    requires color.Keys == h.Keys && o !in h && o !in garbage && o !in allgc
    ensures SweepState(h[o := obj], color[o := white], white, phase, pos, [o] + allgc, finobj, tobefnz, fixedgc,
      garbage)
  {
    hide After, Elems, PosIn;
    var unswept := Unswept(phase, pos, allgc, finobj, tobefnz);
    if phase.SweepAllGc? { NewKeepsAfter(o, allgc, pos); }
    NewKeepsSwept(h, color, white, unswept, unswept + (if phase.SweepAllGc? && pos.Header? then {o} else {}),
                  fixedgc, garbage, o, obj);
    assert Unswept(phase, pos, [o] + allgc, finobj, tobefnz)
        == unswept + (if phase.SweepAllGc? && pos.Header? then {o} else {});
  }

  // ----- open upvalues -----

  /** `u` becomes an open upvalue of `th` at `level`, linked at position `i` of the list. */
  function Opened(h: Heap, u: Ref, th: Ref, level: nat, i: nat): Heap
    requires th in h && h[th].Thread? && i <= |h[th].openupval|
  {
    var open := h[th].openupval;
    h[u := OpenUpVal(th, level)][th := h[th].(openupval := open[..i] + [u] + open[i..])]
  }

  /** Open upvalues for lower levels are as they were. */
  ghost predicate BelowStay(h: Heap, h': Heap, level: nat) {
    forall r :: r in h && h[r].OpenUpVal? && h[r].level < level ==> r in h' && h'[r] == h[r]
  }

  lemma BelowStayReflexive(h: Heap, level: nat)
    ensures BelowStay(h, h, level)
  {
  }

  lemma CloseKeepsBelow(h0: Heap, h: Heap, th: Ref, level: nat)
    requires BelowStay(h0, h, level) && Closable(h, th) && h[h[th].openupval[0]].level >= level
    ensures BelowStay(h0, Closed(h, th), level)
  {
  }

  /** There was no upvalue for the level, and there is a new one; nothing else changes but the list of the thread. */
  ghost predicate NewUpvalue(h: Heap, h': Heap, th: Ref, level: nat, u: Ref) {
    && u !in h && h'.Keys == h.Keys + {u} && h'[u] == OpenUpVal(th, level)
    && (forall o :: o in h ==> h[o] != OpenUpVal(th, level))
    && (forall o :: o in h && o != th ==> h'[o] == h[o])
    && th in h && h[th].Thread? && h'[th].Thread? && h'[th].stack == h[th].stack && h'[th].top == h[th].top
    && forall w :: w in h'[th].openupval <==> w in h[th].openupval || w == u
  }

  /** The place for `level` in a list that is strictly decreasing, when no upvalue has it yet. */
  predicate PlaceFor(h: Heap, th: Ref, level: nat, i: nat)
    requires th in h && h[th].Thread? && Linked(h)
  {
    var open := h[th].openupval;
    assert LinkedThread(h, th);
    && i <= |open|
    && (forall k :: 0 <= k < i ==> h[open[k]].level > level)
    && (forall k :: i <= k < |open| ==> h[open[k]].level < level)
  }

  lemma IsNewUpvalue(h0: Heap, h: Heap, u: Ref, th: Ref, level: nat, i: nat)
    requires Linked(h0) && th in h0 && h0[th].Thread? && PlaceFor(h0, th, level, i)
    requires u !in h0 && u in h && h == h0[u := h[u]]
    ensures NewUpvalue(h0, Opened(h, u, th, level, i), th, level, u)
  {
    var open := h0[th].openupval;
    forall o | o in h0 ensures h0[o] != OpenUpVal(th, level) {
      if h0[o].OpenUpVal? && h0[o].thread == th {
        assert LinkedUpVal(h0, o);
        var k :| 0 <= k < |open| && open[k] == o;
        assert h0[open[k]].level != level;
      }
    }
    forall w ensures w in open[..i] + [u] + open[i..] <==> w in open || w == u {
      if w in open { var k :| 0 <= k < |open| && open[k] == w; assert k < i ==> open[..i][k] == w; }
    }
  }

  lemma Inserted(s: seq<Ref>, i: nat, x: Ref, t: seq<Ref>)
    requires i <= |s| && t == s[..i] + [x] + s[i..]
    ensures |t| == |s| + 1 && t[i] == x && (forall y :: y in s ==> y in t)
    ensures (forall k :: 0 <= k < i ==> t[k] == s[k]) && (forall k :: i < k < |t| ==> t[k] == s[k - 1])
  {
    forall y | y in s ensures y in t {
      var k :| 0 <= k < |s| && s[k] == y;
      assert t[if k < i then k else k + 1] == y;
    }
  }

  lemma OpenLevels(h: Heap, u: Ref, th: Ref, level: nat, i: nat, a: nat, b: nat)
    requires Linked(h) && th in h && h[th].Thread? && u in h && h[u].ClosedUpVal? && PlaceFor(h, th, level, i)
    requires a < b <= |h[th].openupval|
    ensures var h' := Opened(h, u, th, level, i);
            var t := h'[th].openupval;
            && t[a] in h' && h'[t[a]].OpenUpVal? && h'[t[a]].thread == th
            && t[b] in h' && h'[t[b]].OpenUpVal? && h'[t[b]].thread == th
            && h'[t[a]].level > h'[t[b]].level
  {
    var open := h[th].openupval;
    assert LinkedThread(h, th);
    var t := open[..i] + [u] + open[i..];
    assert t[a] == if a < i then open[a] else if a == i then u else open[a - 1];
    assert t[b] == if b < i then open[b] else if b == i then u else open[b - 1];
  }

  lemma OpenKeepsThread(h: Heap, u: Ref, th: Ref, level: nat, i: nat)
    requires Linked(h) && th in h && h[th].Thread? && u in h && h[u].ClosedUpVal? && PlaceFor(h, th, level, i)
    ensures i <= |h[th].openupval| && LinkedThread(Opened(h, u, th, level, i), th)
  {
    var h', open := Opened(h, u, th, level, i), h[th].openupval;
    assert h[th].top <= |h[th].stack| by { assert LinkedThread(h, th); }
    hide PlaceFor, Opened, Linked, LinkedUpVal;
    var t := h'[th].openupval;
    assert |t| == |open| + 1 && h'[th].Thread? && h'[th].top <= |h'[th].stack| by { OpenShape(h, u, th, level, i); }
    forall k | 0 <= k < |t| ensures t[k] in h' && h'[t[k]].OpenUpVal? && h'[t[k]].thread == th {
      if k < |open| { OpenLevels(h, u, th, level, i, k, |open|); } else { OpenLast(h, u, th, level, i); }
    }
    forall a, b | 0 <= a < b < |t| ensures h'[t[a]].level > h'[t[b]].level {
      OpenLevels(h, u, th, level, i, a, b);
    }
  }

  lemma OpenShape(h: Heap, u: Ref, th: Ref, level: nat, i: nat)
    requires th in h && h[th].Thread? && i <= |h[th].openupval| && u != th
    ensures var h' := Opened(h, u, th, level, i);
            && th in h' && h'[th].Thread? && h'[th].top == h[th].top && h'[th].stack == h[th].stack
            && |h'[th].openupval| == |h[th].openupval| + 1
  {
  }

  lemma OpenLast(h: Heap, u: Ref, th: Ref, level: nat, i: nat)
    requires Linked(h) && th in h && h[th].Thread? && u in h && h[u].ClosedUpVal? && PlaceFor(h, th, level, i)
    ensures var h' := Opened(h, u, th, level, i);
            var r := h'[th].openupval[|h[th].openupval|];
            r in h' && h'[r].OpenUpVal? && h'[r].thread == th
  {
    var open := h[th].openupval;
    assert LinkedThread(h, th);
    var t := open[..i] + [u] + open[i..];
    assert t[|open|] == if i == |open| then u else open[|open| - 1];
  }

  lemma OpenKeepsUpVal(h: Heap, u: Ref, th: Ref, level: nat, i: nat, r: Ref)
    requires Linked(h) && th in h && h[th].Thread? && u in h && h[u].ClosedUpVal? && level < h[th].top
    requires i <= |h[th].openupval| && r in h && (r == u || h[r].OpenUpVal?)
    ensures var h' := Opened(h, u, th, level, i); r in h' && h'[r].OpenUpVal? && LinkedUpVal(h', r)
  {
    if r != u { assert LinkedUpVal(h, r); }
    hide Linked;
    var h' := Opened(h, u, th, level, i);
    Inserted(h[th].openupval, i, u, h'[th].openupval);
  }

  lemma OpenKeepsOther(h: Heap, u: Ref, th: Ref, level: nat, i: nat, t: Ref)
    requires Linked(h) && th in h && h[th].Thread? && u in h && h[u].ClosedUpVal?
    requires i <= |h[th].openupval| && t in h && t != th && h[t].Thread?
    ensures var h' := Opened(h, u, th, level, i); t in h' && h'[t].Thread? && LinkedThread(h', t)
  {
    assert LinkedThread(h, t);
    hide Linked;
    var open := h[t].openupval;
    forall k | 0 <= k < |open| ensures open[k] != u && open[k] != th { assert h[open[k]].OpenUpVal?; }
  }

  lemma OpenKeepsLinked(h: Heap, u: Ref, th: Ref, level: nat, i: nat)
    requires Linked(h) && th in h && h[th].Thread? && u in h && h[u].ClosedUpVal? && level < h[th].top
    requires PlaceFor(h, th, level, i)
    ensures Linked(Opened(h, u, th, level, i)) && Opened(h, u, th, level, i).Keys == h.Keys
  {
    OpenKeepsThread(h, u, th, level, i);
    hide PlaceFor, LinkedUpVal, LinkedThread;
    var h' := Opened(h, u, th, level, i);
    assert h'.Keys == h.Keys;
    forall r | r in h' && h'[r].OpenUpVal? ensures LinkedUpVal(h', r) { OpenKeepsUpVal(h, u, th, level, i, r); }
    forall t | t in h' && h'[t].Thread? ensures LinkedThread(h', t) {
      if t != th { OpenKeepsOther(h, u, th, level, i, t); }
    }
  }

  lemma OpenKeepsSealed(h: Heap, u: Ref, th: Ref, level: nat, i: nat, s: set<Ref>)
    requires Linked(h) && Sealed(h, s) && th in h && h[th].Thread? && u in h && h[u].ClosedUpVal? && level < h[th].top
    requires i <= |h[th].openupval| && th in s && u in s
    ensures Sealed(Opened(h, u, th, level, i), s)
  {
    var h' := Opened(h, u, th, level, i);
    assert LinkedThread(h, th);
    forall r | r in s ensures r in h' && Inside(h', h'[r], s) && MetatableOk(h', h'[r]) {
      if h'[r].OpenUpVal? && r != u { assert LinkedUpVal(h, r); }
    }
  }

  predicate Closable(h: Heap, th: Ref) {
    && th in h && h[th].Thread? && h[th].openupval != [] && h[th].openupval[0] in h
    && var u := h[h[th].openupval[0]]; u.OpenUpVal? && u.thread == th && u.level < |h[th].stack|
  }

  /** The first open upvalue of `th` gets a value of its own. */
  function Closed(h: Heap, th: Ref): Heap
    requires Closable(h, th)
  {
    var u := h[th].openupval[0];
    h[u := ClosedUpVal(h[th].stack[h[u].level])][th := h[th].(openupval := h[th].openupval[1..])]
  }

  lemma FirstOpen(h: Heap, th: Ref)
    requires Linked(h) && th in h && h[th].Thread? && h[th].openupval != []
    ensures Closable(h, th) && h[th].openupval[0] != th
  {
    assert LinkedThread(h, th) && LinkedUpVal(h, h[th].openupval[0]);
  }

  lemma CloseKeepsThread(h: Heap, th: Ref, t: Ref)
    requires Linked(h) && Closable(h, th)
    requires t in h && h[t].Thread?
    ensures LinkedThread(Closed(h, th), t)
  {
    var open, u := h[t].openupval, h[th].openupval[0];
    assert LinkedThread(h, t) && LinkedThread(h, th);
    if t == th {
      assert forall k :: 1 <= k < |open| ==> h[open[0]].level > h[open[k]].level;
    } else {
      assert forall k :: 0 <= k < |open| ==> h[open[k]].thread == t;
      assert h[u].thread == th;
    }
  }

  lemma CloseKeepsLinked(h: Heap, th: Ref)
    requires Linked(h) && Closable(h, th)
    ensures Linked(Closed(h, th)) && Closed(h, th).Keys == h.Keys
  {
    var h', open := Closed(h, th), h[th].openupval;
    assert h'.Keys == h.Keys;
    forall t | t in h' && h'[t].Thread? ensures LinkedThread(h', t) { CloseKeepsThread(h, th, t); }
    forall r | r in h' && h'[r].OpenUpVal? ensures LinkedUpVal(h', r) { assert LinkedUpVal(h, r); }
  }

  lemma CloseKeepsSealed(h: Heap, th: Ref, s: set<Ref>)
    requires Linked(h) && Sealed(h, s) && Closable(h, th)
    ensures Sealed(Closed(h, th), s)
  {
    var h' := Closed(h, th);
    FirstOpen(h, th);
    forall r | r in s ensures r in h' && Inside(h', h'[r], s) && MetatableOk(h', h'[r]) {
      if h'[r].OpenUpVal? { assert LinkedUpVal(h, r); }
    }
  }

  /** What one reads through an upvalue, open or closed. */
  function Cell(h: Heap, u: Ref): Value
    requires u in h && (h[u].OpenUpVal? || h[u].ClosedUpVal?) && HasSlot(h, h[u])
  {
    if h[u].OpenUpVal? then Slot(h, h[u]) else h[u].value
  }

  /** Every upvalue still holds the value it held. */
  ghost predicate SameCells(h: Heap, h': Heap) {
    forall u :: u in h && (h[u].OpenUpVal? || h[u].ClosedUpVal?) && HasSlot(h, h[u]) ==>
      u in h' && (h'[u].OpenUpVal? || h'[u].ClosedUpVal?) && HasSlot(h', h'[u]) && Cell(h', u) == Cell(h, u)
  }

  lemma CloseKeepsCells(h: Heap, th: Ref)
    requires Closable(h, th)
    ensures SameCells(h, Closed(h, th))
  {
  }

  lemma SameCellsReflexive(h: Heap)
    ensures SameCells(h, h)
  {
  }

  lemma SameCellsTransitive(h: Heap, h': Heap, h'': Heap)
    requires SameCells(h, h') && SameCells(h', h'')
    ensures SameCells(h, h'')
  {
  }

  /** Objects that are neither tables nor strings change, threads stay threads. */
  ghost predicate SameOutside(h: Heap, h': Heap, u: Ref, th: Ref) {
    && h'.Keys == h.Keys && u in h && th in h && u != th && h[th].Thread? && h'[th].Thread?
    && (h[u].OpenUpVal? || h[u].ClosedUpVal?) && (h'[u].OpenUpVal? || h'[u].ClosedUpVal?)
    && forall r :: r in h && r != u && r != th ==> h'[r] == h[r]
  }

  lemma UpvalueKeepsHeapState(h: Heap, h': Heap, color: Colors, white: Color, twups: seq<Ref>, twups': seq<Ref>,
                              allgc: seq<Ref>, finobj: seq<Ref>, tobefnz: seq<Ref>, fixedgc: seq<Ref>, running: Ref,
                              next: nat, garbage: set<Ref>, u: Ref, th: Ref)
    requires HeapState(h, color, white, twups, allgc, finobj, tobefnz, fixedgc, running, next, garbage)
    requires SameOutside(h, h', u, th) && Linked(h')
    requires twups' == twups || (twups' == [th] + twups && th in LiveSet(color, white))
    requires th in LiveSet(color, white) && h'[th].openupval != [] ==> th in twups'
    ensures HeapState(h', color, white, twups', allgc, finobj, tobefnz, fixedgc, running, next, garbage)
  {
    hide LinkedUpVal, LinkedThread, LiveSet;
  }

  lemma UpvalueKeepsLists(h: Heap, h': Heap, color: Colors, again: seq<Ref>, weak: seq<Ref>, all: seq<Ref>,
                          eph: seq<Ref>, twups: seq<Ref>, twups': seq<Ref>, u: Ref, th: Ref)
    requires SameOutside(h, h', u, th) && ListsOk(h, color, false, again, weak, all, eph, Elems(all))
    requires TwupsOk(h, color, twups, h.Keys)
    requires twups' == twups || twups' == [th] + twups
    requires h'[th].openupval != [] ==> th in twups'
    requires forall r :: r in h'[th].openupval ==> r in h
    ensures ListsOk(h', color, false, again, weak, all, eph, Elems(all)) && TwupsOk(h', color, twups', h'.Keys)
  {
    forall t | HasOpen(h', t, h'.Keys) ensures t in twups' {
      if t != th { assert HasOpen(h, t, h.Keys); }
    }
    forall o | o in all ensures o in h' && h'[o].Table? && LeftAllWeak(h'[o]) { }
  }

  /** A white upvalue is opened on a thread that is not black. */
  lemma OpenKeepsMarkInv(h: Heap, h': Heap, color: Colors, white: Color, lists: multiset<Ref>, twups: seq<Ref>,
                         twups': seq<Ref>, garbage: set<Ref>, u: Ref, th: Ref)
    requires MarkInv(h, color, white, lists, twups, Incremental(h, garbage, {}))
    requires SameOutside(h, h', u, th) && Linked(h') && Sealed(h', h.Keys) && Sealed(h', h.Keys - garbage)
    requires twups' == twups || twups' == [th] + twups
    requires u in color && IsWhite(color[u]) && th in color && !color[th].Black?
    ensures MarkInv(h', color, white, lists, twups', Incremental(h', garbage, {}))
  {
    hide Inside, MetatableOk, LinkedUpVal, LinkedThread, TracedIn, Within;
    SealedIsTraced(h', h.Keys - garbage);
    SealedIsClosed(h');
    assert forall r :: Waits(h', color, r) == Waits(h, color, r);
    assert forall r :: r in h && r != u && r != th && BlackOk(h, color, twups, true, r) ==>
        BlackOk(h', color, twups', true, r);
  }

  lemma CloseKeepsBlack(h: Heap, h': Heap, color: Colors, color': Colors, twups: seq<Ref>, u: Ref, th: Ref)
    requires SameOutside(h, h', u, th) && color.Keys == h.Keys && th in color && !color[th].Black? && u in color
    requires color' == if IsWhite(color[u]) then color else color[u := Black]
    requires BlackClosed(h, color, {}, twups, true)
    ensures BlackClosed(h', color', {u}, twups, true)
  {
    assert Marked(color') == Marked(color);
    hide Marked;
    forall r | r in h' && r in color' && color'[r].Black? && r != u ensures BlackOk(h', color', twups, true, r) {
      assert BlackOk(h, color, twups, true, r);
    }
  }

  /** A marked upvalue that is closed turns black, and its value is still to be marked. */
  lemma CloseKeepsWaiting(h: Heap, h': Heap, color: Colors, color': Colors, u: Ref, th: Ref)
    requires SameOutside(h, h', u, th) && color.Keys <= h.Keys
    requires u in color && h[u].OpenUpVal? && h'[u].ClosedUpVal? && th in color && !color[th].Black?
    requires color' == if IsWhite(color[u]) then color else color[u := Black]
    ensures forall r :: Waits(h', color', r) == Waits(h, color, r)
  {
  }

  lemma CloseKeepsMarkInv(h: Heap, h': Heap, color: Colors, color': Colors, white: Color, lists: multiset<Ref>,
                          twups: seq<Ref>, garbage: set<Ref>, u: Ref, th: Ref)
    requires MarkInv(h, color, white, lists, twups, Incremental(h, garbage, {}))
    requires SameOutside(h, h', u, th) && Linked(h') && Sealed(h', h.Keys) && Sealed(h', h.Keys - garbage)
    requires u in color && h[u].OpenUpVal? && h'[u].ClosedUpVal? && th in color && !color[th].Black?
    requires color' == if IsWhite(color[u]) then color else color[u := Black]
    ensures MarkInv(h', color', white, lists, twups, Incremental(h', garbage, {u}))
    ensures Marked(color') == Marked(color)
  {
    hide Inside, MetatableOk, TracedIn, Within, Linked, Sealed, Traced, HeapClosed, Waits;
    assert Marked(color') == Marked(color);
    SealedIsTraced(h', h.Keys - garbage);
    SealedIsClosed(h');
    CloseKeepsWaiting(h, h', color, color', u, th);
    CloseKeepsBlack(h, h', color, color', twups, u, th);
  }

  lemma OpenKeepsMarkState(h: Heap, h': Heap, color: Colors, white: Color, gray: seq<Ref>, again: seq<Ref>,
                           weak: seq<Ref>, all: seq<Ref>, eph: seq<Ref>, twups: seq<Ref>, twups': seq<Ref>,
                           finobj: seq<Ref>, mainthread: Ref, garbage: set<Ref>, u: Ref, th: Ref)
    requires MarkState(h, color, white, gray, again, weak, all, eph, twups, finobj, mainthread, garbage, {})
    requires SameOutside(h, h', u, th) && Linked(h') && Sealed(h', h.Keys) && Sealed(h', h.Keys - garbage)
    requires twups' == twups || twups' == [th] + twups
    requires th in twups' && u in color && IsWhite(color[u])
    ensures MarkState(h', color, white, gray, again, weak, all, eph, twups', finobj, mainthread, garbage, {})
  {
    hide MarkInv, Sum, ListsOk, TwupsOk, Marked, Sealed;
    MarkInvBasics(h, color, white, Sum(gray, again, weak, all, eph), twups, Incremental(h, garbage, {}));
    ThreadNotBlack(h, color, white, Sum(gray, again, weak, all, eph), twups, Incremental(h, garbage, {}), th);
    OpenKeepsMarkInv(h, h', color, white, Sum(gray, again, weak, all, eph), twups, twups', garbage, u, th);
    OpenListHeld(h', th);
    UpvalueKeepsLists(h, h', color, again, weak, all, eph, twups, twups', u, th);
  }

  lemma OpenListHeld(h: Heap, th: Ref)
    requires Linked(h) && th in h && h[th].Thread?
    ensures forall r :: r in h[th].openupval ==> r in h
  {
    assert LinkedThread(h, th);
  }

  lemma CloseKeepsMarkState(h: Heap, h': Heap, color: Colors, color': Colors, white: Color, gray: seq<Ref>,
                            again: seq<Ref>, weak: seq<Ref>, all: seq<Ref>, eph: seq<Ref>, twups: seq<Ref>,
                            finobj: seq<Ref>, mainthread: Ref, garbage: set<Ref>, u: Ref, th: Ref)
    requires MarkState(h, color, white, gray, again, weak, all, eph, twups, finobj, mainthread, garbage, {})
    requires SameOutside(h, h', u, th) && Linked(h') && Sealed(h', h.Keys) && Sealed(h', h.Keys - garbage)
    requires u in color && h[u].OpenUpVal? && h'[u].ClosedUpVal? && h[th].openupval != []
    requires color' == if IsWhite(color[u]) then color else color[u := Black]
    ensures MarkState(h', color', white, gray, again, weak, all, eph, twups, finobj, mainthread, garbage, {u})
  {
    hide MarkInv, Sum, ListsOk, Marked, Sealed;
    var lists := Sum(gray, again, weak, all, eph);
    MarkInvBasics(h, color, white, lists, twups, Incremental(h, garbage, {}));
    ThreadNotBlack(h, color, white, lists, twups, Incremental(h, garbage, {}), th);
    CloseKeepsMarkInv(h, h', color, color', white, lists, twups, garbage, u, th);
    OpenListHeld(h', th);
    OpenListHeld(h, th);
    assert HasOpen(h, th, h.Keys);
    UpvalueKeepsLists(h, h', color, again, weak, all, eph, twups, twups, u, th);
    ListsOkGrows(h', color, color', false, again, weak, all, eph, Elems(all));
    HeapPrunedReflexive(h');
    TwupsOkLater(h', h', color, color', twups, h'.Keys);
  }

  lemma MarkStateSealed(h: Heap, color: Colors, white: Color, gray: seq<Ref>, again: seq<Ref>, weak: seq<Ref>,
                        all: seq<Ref>, eph: seq<Ref>, twups: seq<Ref>, finobj: seq<Ref>, mainthread: Ref,
                        garbage: set<Ref>, active: set<Ref>)
    requires MarkState(h, color, white, gray, again, weak, all, eph, twups, finobj, mainthread, garbage, active)
    ensures Sealed(h, h.Keys)
  {
  }

  lemma UpvalueKeepsSweepState(h: Heap, h': Heap, color: Colors, white: Color, phase: Phase, pos: SweepPos,
    allgc: seq<Ref>,
                               finobj: seq<Ref>, tobefnz: seq<Ref>, fixedgc: seq<Ref>, garbage: set<Ref>)
    requires SweepState(h, color, white, phase, pos, allgc, finobj, tobefnz, fixedgc, garbage) && h'.Keys == h.Keys
    ensures SweepState(h', color, white, phase, pos, allgc, finobj, tobefnz, fixedgc, garbage)
  {
    assert forall o :: o in h' <==> o in h;
  }

  /** Which of the colors of marked objects an upvalue has is all the same to the owners of objects. */
  lemma BlackenKeepsHeapState(h: Heap, color: Colors, white: Color, twups: seq<Ref>, allgc: seq<Ref>, finobj: seq<Ref>,
                              tobefnz: seq<Ref>, fixedgc: seq<Ref>, running: Ref, next: nat, garbage: set<Ref>, u: Ref)
    requires HeapState(h, color, white, twups, allgc, finobj, tobefnz, fixedgc, running, next, garbage)
    requires u in h && u in color && !IsWhite(color[u]) && !h[u].Str?
    ensures HeapState(h, color[u := Black], white, twups, allgc, finobj, tobefnz, fixedgc, running, next, garbage)
    ensures LiveSet(color[u := Black], white) == LiveSet(color, white) && u !in fixedgc
  {
    hide Linked, Owned, Owners;
    assert LiveSet(color[u := Black], white) == LiveSet(color, white);
  }

  /** Some first open upvalues of `th` were closed; nothing else happened. */
  ghost predicate OnlyClosed(h: Heap, h': Heap, th: Ref) {
    && h'.Keys == h.Keys && th in h && h[th].Thread? && h'[th].Thread?
    && h'[th].stack == h[th].stack && h'[th].top == h[th].top && |h'[th].openupval| <= |h[th].openupval|
    && h'[th].openupval == h[th].openupval[|h[th].openupval| - |h'[th].openupval|..]
    && forall r :: r in h && r != th ==>
         h'[r] == h[r] || (h[r].OpenUpVal? && h[r].thread == th && h'[r].ClosedUpVal?)
  }

  lemma ClosesOne(h0: Heap, h: Heap, th: Ref)
    requires OnlyClosed(h0, h, th) && Closable(h, th) && h[th].openupval[0] != th
    ensures OnlyClosed(h0, Closed(h, th), th) && |Closed(h, th)[th].openupval| < |h[th].openupval|
  {
    var a, b := h0[th].openupval, h[th].openupval;
    assert b[1..] == a[|a| - |b| + 1..];
  }

  /** An open upvalue from the level on has been closed, with its value. */
  predicate KeepsItsValue(h: Heap, h': Heap, th: Ref, level: nat, r: Ref) {
    && r in h && r in h' && h[r].OpenUpVal? && h[r].thread == th && h[r].level >= level
    && HasSlot(h, h[r]) && h'[r] == ClosedUpVal(Slot(h, h[r]))
  }

  lemma ScopeLeft(h: Heap, h': Heap, th: Ref, level: nat)
    requires Linked(h) && SameCells(h, h') && OnlyClosed(h, h', th) && BelowStay(h, h', level)
    ensures h'.Keys == h.Keys && th in h && h[th].Thread? && h'[th].Thread?
    ensures h'[th].stack == h[th].stack && h'[th].top == h[th].top
    ensures forall r :: r in h' && r != th ==> h'[r] == h[r] || KeepsItsValue(h, h', th, level, r)
  {
    forall r | r in h' && r != th ensures h'[r] == h[r] || KeepsItsValue(h, h', th, level, r) {
      if h'[r] != h[r] {
        SlotOfLinked(h, r);
        assert Cell(h', r) == Cell(h, r);
      }
    }
  }

  lemma LevelsBelow(h: Heap, th: Ref, level: nat)
    requires Linked(h) && th in h && h[th].Thread?
    requires h[th].openupval != [] ==> Closable(h, th) && h[h[th].openupval[0]].level < level
    ensures forall u :: u in h[th].openupval ==> u in h && h[u].OpenUpVal? && h[u].level < level
  {
    assert LinkedThread(h, th);
  }

  /** A new object changes no place in a list of open upvalues. */
  lemma NewKeepsPlace(h: Heap, h': Heap, u: Ref, th: Ref, level: nat, i: nat)
    requires Linked(h) && Linked(h') && u !in h && h' == h[u := ClosedUpVal(Nil)]
    requires th in h && h[th].Thread? && i <= |h[th].openupval|
    requires forall k :: 0 <= k < i ==>
      h[th].openupval[k] in h && h[h[th].openupval[k]].OpenUpVal? && h[h[th].openupval[k]].level > level
    requires i < |h[th].openupval| ==>
      h[th].openupval[i] in h && h[h[th].openupval[i]].OpenUpVal? && h[h[th].openupval[i]].level < level
    ensures PlaceFor(h', th, level, i)
  {
    assert LinkedThread(h, th) && LinkedThread(h', th);
  }
}
