/**
 Sweeping, on values: taking an object out of a list while a sweep is under way, freeing it, and the
 two ends of the marking phases.
 */
module GcSweeping {
  import opened GcObjects
  import opened GcMarking
  import opened GcInvariant

  // ----- lists -----

  ghost predicate NoRepeats(list: seq<Ref>) {
    forall i, j :: 0 <= i < j < |list| ==> list[i] != list[j]
  }

  /** Where the rest of the list begins. */
  function Start(list: seq<Ref>, pos: SweepPos): nat
    requires PosIn(list, pos) && !pos.Done?
    ensures Start(list, pos) <= |list| && After(list, pos) == list[Start(list, pos)..]
  {
    if pos.Header? then 0 else IndexOf(list, pos.o) + 1
  }

  function Without(list: seq<Ref>, i: nat): seq<Ref>
    requires i < |list|
  {
    list[..i] + list[i + 1..]
  }

  lemma MemberCount(list: seq<Ref>, o: Ref)
    ensures o in list <==> multiset(list)[o] > 0
  {
  }

  lemma {:induction false} CountOnce(list: seq<Ref>)
    requires forall o :: multiset(list)[o] <= 1
    ensures NoRepeats(list)
  {
    if list != [] {
      var rest := list[1..];
      assert list == [list[0]] + rest;
      assert forall o :: multiset(list)[o] == multiset{list[0]}[o] + multiset(rest)[o];
      CountOnce(rest);
      forall i, j | 0 <= i < j < |list| ensures list[i] != list[j] {
        if i == 0 { assert rest[j - 1] in rest; } else { assert rest[i - 1] != rest[j - 1]; }
      }
    }
  }

  lemma {:induction false} IndexIs(list: seq<Ref>, i: nat)
    requires NoRepeats(list) && i < |list|
    ensures IndexOf(list, list[i]) == i
  {
    if i > 0 {
      assert list[0] != list[i];
      IndexIs(list[1..], i - 1);
    }
  }

  lemma WithoutCounts(list: seq<Ref>, i: nat)
    requires i < |list|
    ensures multiset(Without(list, i)) == multiset(list) - multiset{list[i]}
    ensures Elems(list) == Elems(Without(list, i)) + {list[i]}
  {
    assert list == list[..i] + ([list[i]] + list[i + 1..]);
    forall o ensures o in list <==> o in Without(list, i) || o == list[i] {
      MemberCount(list, o);
      MemberCount(Without(list, i), o);
    }
  }

  lemma WithoutFewer(list: seq<Ref>, i: nat)
    requires i < |list|
    ensures |Without(list, i)| == |list| - 1 && forall k :: 0 <= k < |list| - 1 ==> Without(list, i)[k] in list
  {
  }

  lemma OthersStay(list: seq<Ref>, i: nat)
    requires i < |list|
    ensures forall o :: o in list && o != list[i] ==> o in Without(list, i)
  {
    WithoutCounts(list, i);
    forall o | o in list && o != list[i] ensures o in Without(list, i) { assert o in Elems(list); }
  }

  /** Passing a live object. */
  lemma PassOne(list: seq<Ref>, pos: SweepPos)
    requires NoRepeats(list) && PosIn(list, pos) && After(list, pos) != []
    ensures var o := After(list, pos)[0];
            o in list && After(list, SweepPos.Next(o)) == After(list, pos)[1..]
  {
    var i := Start(list, pos);
    assert After(list, pos)[0] == list[i];
    IndexIs(list, i);
  }

  /** Dropping a dead object. */
  lemma DropOne(list: seq<Ref>, pos: SweepPos)
    requires NoRepeats(list) && PosIn(list, pos) && After(list, pos) != []
    ensures var i := Start(list, pos);
            && i < |list| && list[i] == After(list, pos)[0]
            && PosIn(Without(list, i), pos) && After(Without(list, i), pos) == After(list, pos)[1..]
  {
    var i := Start(list, pos);
    var less := Without(list, i);
    assert less[i..] == list[i + 1..] == After(list, pos)[1..];
    if pos.Next? {
      assert less[i - 1] == pos.o;
      WithoutRepeats(list, i);
      hide NoRepeats, Without;
      IndexIs(less, i - 1);
    }
  }

  lemma WithoutRepeats(list: seq<Ref>, i: nat)
    requires NoRepeats(list) && i < |list|
    ensures NoRepeats(Without(list, i))
  {
    var less := Without(list, i);
    forall a, b | 0 <= a < b < |less| ensures less[a] != less[b] {
      assert less[a] == list[if a < i then a else a + 1] && less[b] == list[if b < i then b else b + 1];
    }
  }

  /** The list that the current phase sweeps. */
  function SweptList(phase: Phase, allgc: seq<Ref>, finobj: seq<Ref>, tobefnz: seq<Ref>): seq<Ref> {
    match phase
    case SweepAllGc => allgc
    case SweepFinObj => finobj
    case SweepToBeFnz => tobefnz
    case _ => []
  }

  predicate Sweeping(phase: Phase) { phase.SweepAllGc? || phase.SweepFinObj? || phase.SweepToBeFnz? }

  lemma OwnedOnce(h: Heap, phase: Phase, allgc: seq<Ref>, finobj: seq<Ref>, tobefnz: seq<Ref>, fixedgc: seq<Ref>)
    requires Owned(h, Owners(allgc, finobj, tobefnz, fixedgc))
    ensures NoRepeats(SweptList(phase, allgc, finobj, tobefnz))
    ensures forall o :: o in SweptList(phase, allgc, finobj, tobefnz) ==> o in h && o !in fixedgc
  {
    var all := Owners(allgc, finobj, tobefnz, fixedgc);
    var list := SweptList(phase, allgc, finobj, tobefnz);
    forall o ensures multiset(list)[o] <= 1 { assert all[o] <= 1; }
    CountOnce(list);
    forall o | o in list ensures o in h && o !in fixedgc {
      MemberCount(list, o);
      MemberCount(fixedgc, o);
      assert all[o] >= multiset(list)[o] + multiset(fixedgc)[o];
    }
  }

  lemma OwnedExist(h: Heap, allgc: seq<Ref>, finobj: seq<Ref>, tobefnz: seq<Ref>, fixedgc: seq<Ref>)
    requires Owned(h, Owners(allgc, finobj, tobefnz, fixedgc))
    ensures forall o :: o in allgc || o in finobj || o in tobefnz || o in fixedgc ==> o in h
  {
    forall o | o in allgc || o in finobj || o in tobefnz || o in fixedgc ensures o in h {
      assert Owners(allgc, finobj, tobefnz, fixedgc)[o] > 0;
    }
  }

  // ----- freeing an object -----

  predicate Freeable(h: Heap, o: Ref) {
    && o in h && (h[o].Thread? ==> h[o].openupval == [])
    && (h[o].OpenUpVal? ==> h[o].thread in h && h[h[o].thread].Thread? && o in h[h[o].thread].openupval)
  }

  /** An open upvalue leaves the list of its thread (`luaF_unlinkupval`). */
  function Unlinked(h: Heap, o: Ref): Heap
    requires Freeable(h, o)
  {
    if h[o].OpenUpVal? then
      var th := h[o].thread;
      var open := h[th].openupval;
      h[th := h[th].(openupval := Without(open, IndexOf(open, o)))]
    else h
  }

  function Freed(h: Heap, o: Ref): Heap
    requires Freeable(h, o)
  {
    Unlinked(h, o) - {o}
  }

  lemma OpenHasNoRepeats(h: Heap, th: Ref)
    requires Linked(h) && th in h && h[th].Thread?
    ensures NoRepeats(h[th].openupval)
  {
    assert LinkedThread(h, th);
  }

  lemma DeadIsFreeable(h: Heap, o: Ref)
    requires Linked(h) && o in h && (h[o].Thread? ==> h[o].openupval == [])
    ensures Freeable(h, o)
  {
    if h[o].OpenUpVal? { assert LinkedUpVal(h, o); }
  }

  lemma WithoutAt(list: seq<Ref>, o: Ref)
    requires NoRepeats(list) && o in list
    ensures var i := IndexOf(list, o); var less := Without(list, i);
            && |less| == |list| - 1 && o !in less
            && (forall k :: 0 <= k < |less| ==> less[k] == list[if k < i then k else k + 1])
            && (forall u :: u in list && u != o ==> u in less)
  {
    var i := IndexOf(list, o);
    var less := Without(list, i);
    forall u | u in list && u != o ensures u in less {
      var k :| 0 <= k < |list| && list[k] == u;
      assert less[if k < i then k else k - 1] == u;
    }
  }

  lemma FewerOpen(h: Heap, h': Heap, th: Ref, o: Ref)
    requires th in h && h[th].Thread? && LinkedThread(h, th) && o in h[th].openupval && NoRepeats(h[th].openupval)
    requires th in h' && h'[th] == h[th].(openupval := Without(h[th].openupval, IndexOf(h[th].openupval, o)))
    requires forall u :: u in h[th].openupval && u != o ==> u in h' && h'[u] == h[u]
    ensures LinkedThread(h', th)
  {
    WithoutAt(h[th].openupval, o);
    hide NoRepeats, Without;
  }

  lemma FreeKeepsOwnThread(h: Heap, o: Ref)
    requires Linked(h) && Freeable(h, o) && h[o].OpenUpVal?
    ensures LinkedThread(Freed(h, o), h[o].thread)
    ensures forall u :: u in h[h[o].thread].openupval && u != o ==> u in Freed(h, o)[h[o].thread].openupval
  {
    var th := h[o].thread;
    assert LinkedThread(h, th);
    OpenHasNoRepeats(h, th);
    WithoutAt(h[th].openupval, o);
    hide Linked, NoRepeats, Without;
    FewerOpen(h, Freed(h, o), th, o);
  }

  lemma FreeKeepsThread(h: Heap, o: Ref, th: Ref)
    requires Linked(h) && Freeable(h, o) && th in h && th != o && h[th].Thread?
    ensures LinkedThread(Freed(h, o), th)
    ensures forall u :: u in h[th].openupval && u != o ==> u in Freed(h, o)[th].openupval
  {
    if h[o].OpenUpVal? && h[o].thread == th {
      FreeKeepsOwnThread(h, o);
    } else {
      assert LinkedThread(h, th);
      hide Linked, Without;
      var open := h[th].openupval;
      forall k | 0 <= k < |open| ensures open[k] != o { assert h[open[k]].thread == th; }
    }
  }

  lemma FreeKeepsLinked(h: Heap, o: Ref)
    requires Linked(h) && Freeable(h, o)
    ensures Linked(Freed(h, o)) && Freed(h, o).Keys == h.Keys - {o}
  {
    var h' := Freed(h, o);
    assert h'.Keys == h.Keys - {o};
    forall th | th in h' && h'[th].Thread? ensures LinkedThread(h', th) { FreeKeepsThread(h, o, th); }
    forall u | u in h' && h'[u].OpenUpVal? ensures LinkedUpVal(h', u) {
      assert LinkedUpVal(h, u) && h[u].thread != o;
      FreeKeepsThread(h, o, h[u].thread);
    }
  }

  lemma FreeKeepsSealed(h: Heap, o: Ref, s: set<Ref>)
    requires Linked(h) && Freeable(h, o) && Sealed(h, s) && o !in s
    ensures Sealed(Freed(h, o), s)
  {
    var h' := Freed(h, o);
    forall r | r in s ensures r in h' && Inside(h', h'[r], s) && MetatableOk(h', h'[r]) {
      if h'[r].OpenUpVal? { assert LinkedUpVal(h, r) && h[r].thread != o; }
    }
  }

  // ----- lost metatables -----

  function NoMetatable(o: Object): Object { if o.Table? then o.(metatable := Nil) else o }

  /** The heap as if the tables in `lost` had no metatables. */
  function Mended(h: Heap, lost: set<Ref>): (h': Heap)
    ensures h'.Keys == h.Keys && forall o :: o in h ==> h'[o] == if o in lost then NoMetatable(h[o]) else h[o]
  {
    map o | o in h :: if o in lost then NoMetatable(h[o]) else h[o]
  }

  /** No way leads out of `s`, except through the metatables of the tables in `lost`. */
  ghost predicate WellSealed(h: Heap, lost: set<Ref>, s: set<Ref>) {
    if lost == {} then Sealed(h, s) else Sealed(Mended(h, lost), s)
  }

  lemma MendedIsLinked(h: Heap, lost: set<Ref>)
    requires Linked(h)
    ensures Linked(Mended(h, lost))
  {
    var h' := Mended(h, lost);
    forall o | o in h' && h'[o].OpenUpVal? ensures LinkedUpVal(h', o) { assert LinkedUpVal(h, o); }
    forall o | o in h' && h'[o].Thread? ensures LinkedThread(h', o) { assert LinkedThread(h, o); }
  }

  lemma WellSealedExists(h: Heap, lost: set<Ref>, s: set<Ref>)
    requires WellSealed(h, lost, s)
    ensures s <= h.Keys
    ensures forall o :: o in s && o !in lost ==> o in h && Within(h[o], s)
  {
  }

  /** The slot of an upvalue is read through its thread. */
  lemma WellSealedSlot(h: Heap, lost: set<Ref>, s: set<Ref>, u: Ref)
    requires WellSealed(h, lost, s) && u in s && u in h && h[u].OpenUpVal?
    ensures HasSlot(h, h[u]) && ValueIn(Slot(h, h[u]), s)
  {
    if lost == {} {
      assert Inside(h, h[u], s);
    } else {
      assert Inside(Mended(h, lost), Mended(h, lost)[u], s);
    }
  }

  lemma FreeKeepsWellSealed(h: Heap, lost: set<Ref>, o: Ref, s: set<Ref>)
    requires Linked(h) && Freeable(h, o) && WellSealed(h, lost, s) && o !in s
    ensures WellSealed(Freed(h, o), lost, s)
  {
    hide Sealed, Linked, Freed, Mended;
    if lost == {} {
      FreeKeepsSealed(h, o, s);
    } else {
      MendedIsLinked(h, lost);
      MendedFreed(h, lost, o);
      FreeKeepsSealed(Mended(h, lost), o, s);
    }
  }

  lemma MendedFreed(h: Heap, lost: set<Ref>, o: Ref)
    requires Freeable(h, o)
    ensures Freeable(Mended(h, lost), o) && Mended(Freed(h, o), lost) == Freed(Mended(h, lost), o)
  {
    hide Without;
  }

  lemma MendedClosed(h: Heap, lost: set<Ref>, th: Ref)
    requires Closable(h, th)
    ensures Closable(Mended(h, lost), th) && Mended(Closed(h, th), lost) == Closed(Mended(h, lost), th)
  {
  }

  lemma CloseKeepsWellSealed(h: Heap, lost: set<Ref>, th: Ref, s: set<Ref>)
    requires Linked(h) && Closable(h, th) && WellSealed(h, lost, s)
    ensures WellSealed(Closed(h, th), lost, s)
  {
    hide Sealed, Linked, Closed, Mended, Closable;
    if lost == {} {
      CloseKeepsSealed(h, th, s);
    } else {
      MendedIsLinked(h, lost);
      MendedClosed(h, lost, th);
      CloseKeepsSealed(Mended(h, lost), th, s);
    }
  }

  /** The live objects are still there; at most, upvalues of dead threads are closed, holding what they held. */
  ghost predicate SameLive(h: Heap, h': Heap, live: set<Ref>) {
    && h'.Keys <= h.Keys
    && (forall o :: o in live && o in h ==> o in h' && SameObject(h, h', live, o))
    && (forall o :: o in h' && h[o].Thread? ==> h'[o].Thread? && h'[o].stack == h[o].stack)
  }

  ghost predicate SameObject(h: Heap, h': Heap, live: set<Ref>, o: Ref)
    requires o in h && o in h'
  {
    || h'[o] == h[o]
    || (h[o].Thread? && h'[o].Thread? && h'[o].stack == h[o].stack && h'[o].top == h[o].top
        && forall u :: u in h[o].openupval && u in live ==> u in h'[o].openupval)
    || (h[o].OpenUpVal? && HasSlot(h, h[o]) && h'[o] == ClosedUpVal(Slot(h, h[o])))
  }

  lemma FreeKeepsLive(h: Heap, o: Ref, live: set<Ref>)
    requires Linked(h) && Freeable(h, o) && o !in live
    ensures SameLive(h, Freed(h, o), live)
  {
    if h[o].OpenUpVal? {
      var th := h[o].thread;
      OpenHasNoRepeats(h, th);
      WithoutAt(h[th].openupval, o);
      hide Without;
      forall r | r in live && r in h ensures r in Freed(h, o) && SameObject(h, Freed(h, o), live, r) { }
    }
  }

  lemma CloseKeepsLive(h: Heap, h': Heap, th: Ref, live: set<Ref>)
    requires Linked(h) && OnlyClosed(h, h', th) && SameCells(h, h') && th !in live
    ensures SameLive(h, h', live)
  {
    forall o | o in live && o in h ensures o in h' && SameObject(h, h', live, o) {
      if o != th && h'[o] != h[o] {
        SlotOfLinked(h, o);
        assert Cell(h', o) == Cell(h, o);
      }
    }
  }

  lemma FewerObjects(h: Heap, h': Heap, live: set<Ref>)
    requires SameLive(h, h', live)
    ensures h'.Keys <= h.Keys
  {
  }

  lemma LiveStays(h: Heap, h': Heap, live: set<Ref>)
    requires SameLive(h, h', live)
    ensures forall o :: o in live && o in h ==> o in h' && (h'[o].Str? ==> h[o].Str?)
  {
  }

  lemma SameLiveReflexive(h: Heap, live: set<Ref>)
    ensures SameLive(h, h, live)
  {
  }

  lemma SameLiveTransitive(h: Heap, h': Heap, h'': Heap, live: set<Ref>)
    requires Linked(h) && Linked(h') && SameLive(h, h', live) && SameLive(h', h'', live)
    ensures SameLive(h, h'', live)
  {
  }

  // ----- one step of a sweep -----

  /** The list being swept without its object at `i`; the other lists are as they were. */
  function Drop(swept: bool, list: seq<Ref>, i: nat): seq<Ref>
    requires swept ==> i < |list|
  {
    if swept then Without(list, i) else list
  }

  lemma DropKeepsUnswept(phase: Phase, pos: SweepPos, allgc: seq<Ref>, finobj: seq<Ref>, tobefnz: seq<Ref>)
    requires Sweeping(phase) && PosOk(phase, pos, allgc, finobj, tobefnz)
    requires NoRepeats(SweptList(phase, allgc, finobj, tobefnz))
    requires After(SweptList(phase, allgc, finobj, tobefnz), pos) != []
    ensures var list := SweptList(phase, allgc, finobj, tobefnz);
            var i := Start(list, pos);
            && i < |list| && list[i] == After(list, pos)[0]
            && var a, f, t := Drop(phase.SweepAllGc?, allgc, i), Drop(phase.SweepFinObj?, finobj, i),
                              Drop(phase.SweepToBeFnz?, tobefnz, i);
            && PosOk(phase, pos, a, f, t)
            && Unswept(phase, pos, allgc, finobj, tobefnz) <= Unswept(phase, pos, a, f, t) + {list[i]}
            && Unswept(phase, pos, a, f, t) <= Unswept(phase, pos, allgc, finobj, tobefnz)
  {
    DropOne(SweptList(phase, allgc, finobj, tobefnz), pos);
    hide Without, NoRepeats;
    var list := SweptList(phase, allgc, finobj, tobefnz);
    var rest := After(list, pos);
    assert rest == [rest[0]] + rest[1..];
    assert Elems(rest) == Elems(rest[1..]) + {rest[0]};
  }

  lemma DropKeepsOwned(h: Heap, phase: Phase, allgc: seq<Ref>, finobj: seq<Ref>, tobefnz: seq<Ref>, fixedgc: seq<Ref>,
    i: nat)
    requires Sweeping(phase) && Owned(h, Owners(allgc, finobj, tobefnz, fixedgc))
    requires i < |SweptList(phase, allgc, finobj, tobefnz)|
    ensures var o := SweptList(phase, allgc, finobj, tobefnz)[i];
            forall h': Heap :: h'.Keys == h.Keys - {o} ==>
              Owned(h', Owners(Drop(phase.SweepAllGc?, allgc, i), Drop(phase.SweepFinObj?, finobj, i),
                               Drop(phase.SweepToBeFnz?, tobefnz, i), fixedgc))
  {
    hide Without;
    var list := SweptList(phase, allgc, finobj, tobefnz);
    var o := list[i];
    WithoutCounts(list, i);
    MemberCount(list, o);
    var all := Owners(allgc, finobj, tobefnz, fixedgc);
    var less := Owners(Drop(phase.SweepAllGc?, allgc, i), Drop(phase.SweepFinObj?, finobj, i),
                       Drop(phase.SweepToBeFnz?, tobefnz, i), fixedgc);
    forall r ensures less[r] == if r == o then all[r] - 1 else all[r] { }
    assert all[o] == 1;
  }

  /** A dead object at the position of the sweep is freed. */
  lemma FreeKeepsState(h: Heap, color: Colors, white: Color, phase: Phase, pos: SweepPos, allgc: seq<Ref>,
                       finobj: seq<Ref>, tobefnz: seq<Ref>, fixedgc: seq<Ref>, running: Ref, next: nat,
                       twups: seq<Ref>, garbage: set<Ref>, o: Ref)
    requires HeapState(h, color, white, twups, allgc, finobj, tobefnz, fixedgc, running, next, garbage)
    requires SweepState(h, color, white, phase, pos, allgc, finobj, tobefnz, fixedgc, garbage) && Sweeping(phase)
    requires running in LiveSet(color, white)
    requires After(SweptList(phase, allgc, finobj, tobefnz), pos) != []
    requires o == After(SweptList(phase, allgc, finobj, tobefnz), pos)[0]
    requires Freeable(h, o) && o in color && color[o] == OtherWhite(white)
    ensures var i := Start(SweptList(phase, allgc, finobj, tobefnz), pos);
            && i < |SweptList(phase, allgc, finobj, tobefnz)|
            && var a, f, t := Drop(phase.SweepAllGc?, allgc, i), Drop(phase.SweepFinObj?, finobj, i),
                              Drop(phase.SweepToBeFnz?, tobefnz, i);
            && HeapState(Freed(h, o), color - {o}, white, twups, a, f, t, fixedgc, running, next, garbage)
            && SweepState(Freed(h, o), color - {o}, white, phase, pos, a, f, t, fixedgc, garbage)
    ensures LiveSet(color - {o}, white) == LiveSet(color, white)
    ensures SameLive(h, Freed(h, o), LiveSet(color, white))
  {
    var i := Start(SweptList(phase, allgc, finobj, tobefnz), pos);
    OwnersOf(h, color, white, twups, allgc, finobj, tobefnz, fixedgc, running, next, garbage);
    OwnedOnce(h, phase, allgc, finobj, tobefnz, fixedgc);
    DropKeepsUnswept(phase, pos, allgc, finobj, tobefnz);
    hide Sealed, Linked, Owners, Owned, Freed, Unswept, SameLive, LinkedThread, LinkedUpVal, NoRepeats, HeapState,
         GcInvariant.Swept, Drop;
    FreeKeepsHeapState(h, color, white, phase, allgc, finobj, tobefnz, fixedgc, running, next, twups, garbage, o, i);
    LinkedNow(h, color, white, twups, allgc, finobj, tobefnz, fixedgc, running, next, garbage);
    FreeKeepsLive(h, o, LiveSet(color, white));
    FreeKeepsSwept(h, color, white, Unswept(phase, pos, allgc, finobj, tobefnz),
      Unswept(phase, pos, Drop(phase.SweepAllGc?, allgc, i), Drop(phase.SweepFinObj?, finobj, i),
              Drop(phase.SweepToBeFnz?, tobefnz, i)), fixedgc, garbage, o);
  }

  lemma LinkedNow(h: Heap, color: Colors, white: Color, twups: seq<Ref>, allgc: seq<Ref>, finobj: seq<Ref>,
                  tobefnz: seq<Ref>, fixedgc: seq<Ref>, running: Ref, next: nat, garbage: set<Ref>)
    requires HeapState(h, color, white, twups, allgc, finobj, tobefnz, fixedgc, running, next, garbage)
    ensures Linked(h) && color.Keys == h.Keys
  {
  }

  lemma FreeKeepsHeapState(h: Heap, color: Colors, white: Color, phase: Phase, allgc: seq<Ref>, finobj: seq<Ref>,
                           tobefnz: seq<Ref>, fixedgc: seq<Ref>, running: Ref, next: nat, twups: seq<Ref>,
                           garbage: set<Ref>, o: Ref, i: nat)
    requires HeapState(h, color, white, twups, allgc, finobj, tobefnz, fixedgc, running, next, garbage)
    requires Sweeping(phase) && i < |SweptList(phase, allgc, finobj, tobefnz)|
    requires o == SweptList(phase, allgc, finobj, tobefnz)[i] && running in LiveSet(color, white)
    requires Freeable(h, o) && o in color && color[o] == OtherWhite(white)
    ensures HeapState(Freed(h, o), color - {o}, white, twups, Drop(phase.SweepAllGc?, allgc, i),
                      Drop(phase.SweepFinObj?, finobj, i), Drop(phase.SweepToBeFnz?, tobefnz, i), fixedgc, running,
                        next, garbage)
    ensures LiveSet(color - {o}, white) == LiveSet(color, white)
  {
    hide Sealed, Linked, Owners, Owned, Freed;
    DropKeepsOwned(h, phase, allgc, finobj, tobefnz, fixedgc, i);
    FreeKeepsLinked(h, o);
    FreedObjects(h, o);
    assert LiveSet(color - {o}, white) == LiveSet(color, white);
  }

  lemma FreeKeepsSwept(h: Heap, color: Colors, white: Color, unswept: set<Ref>, unswept': set<Ref>, fixedgc: seq<Ref>,
                       garbage: set<Ref>, o: Ref)
    requires IsWhite(white) && GcInvariant.Swept(h, color, white, unswept, fixedgc, garbage) && Linked(h)
    requires unswept' <= unswept <= unswept' + {o} && Freeable(h, o) && color.Keys == h.Keys
    ensures GcInvariant.Swept(Freed(h, o), color - {o}, white, unswept', fixedgc, garbage)
  {
    FreeKeepsLinked(h, o);
    hide Freed, Linked;
  }

  lemma FreedObjects(h: Heap, o: Ref)
    requires Freeable(h, o)
    ensures forall r :: r in h && r != o ==>
      r in Freed(h, o)
      && (Freed(h, o)[r] == h[r] || (h[r].Thread? && Freed(h, o)[r].Thread? && h[r].openupval != []))
  {
  }

  /** A live object at the position of the sweep turns white and is passed. */
  lemma PassKeepsState(h: Heap, color: Colors, white: Color, phase: Phase, pos: SweepPos, allgc: seq<Ref>,
                       finobj: seq<Ref>, tobefnz: seq<Ref>, fixedgc: seq<Ref>, running: Ref, next: nat,
                       twups: seq<Ref>, garbage: set<Ref>, o: Ref)
    requires HeapState(h, color, white, twups, allgc, finobj, tobefnz, fixedgc, running, next, garbage)
    requires SweepState(h, color, white, phase, pos, allgc, finobj, tobefnz, fixedgc, garbage) && Sweeping(phase)
    requires After(SweptList(phase, allgc, finobj, tobefnz), pos) != []
    requires o == After(SweptList(phase, allgc, finobj, tobefnz), pos)[0]
    requires o in color && color[o] != OtherWhite(white)
    ensures HeapState(h, color[o := white], white, twups, allgc, finobj, tobefnz, fixedgc, running, next, garbage)
    ensures SweepState(h, color[o := white], white, phase, SweepPos.Next(o), allgc, finobj, tobefnz, fixedgc, garbage)
    ensures LiveSet(color[o := white], white) == LiveSet(color, white)
  {
    OwnersOf(h, color, white, twups, allgc, finobj, tobefnz, fixedgc, running, next, garbage);
    OwnedOnce(h, phase, allgc, finobj, tobefnz, fixedgc);
    PassKeepsUnswept(phase, pos, allgc, finobj, tobefnz);
    hide Owned, Owners, NoRepeats, HeapState, Unswept, PosOk, After, GcInvariant.Swept;
    RecolorKeepsState(h, color, white, phase, pos, allgc, finobj, tobefnz, fixedgc, running, next, twups, garbage, o,
      white);
    FewerUnswept(h, color[o := white], white, Unswept(phase, pos, allgc, finobj, tobefnz),
                 Unswept(phase, SweepPos.Next(o), allgc, finobj, tobefnz), fixedgc, garbage, o);
  }

  lemma FewerUnswept(h: Heap, color: Colors, white: Color, unswept: set<Ref>, unswept': set<Ref>, fixedgc: seq<Ref>,
                     garbage: set<Ref>, o: Ref)
    requires IsWhite(white) && GcInvariant.Swept(h, color, white, unswept, fixedgc, garbage)
    requires unswept' <= unswept <= unswept' + {o} && o in h && o in color && color[o] == white
    ensures GcInvariant.Swept(h, color, white, unswept', fixedgc, garbage)
  {
  }

  lemma PassKeepsUnswept(phase: Phase, pos: SweepPos, allgc: seq<Ref>, finobj: seq<Ref>, tobefnz: seq<Ref>)
    requires Sweeping(phase) && PosOk(phase, pos, allgc, finobj, tobefnz)
    requires NoRepeats(SweptList(phase, allgc, finobj, tobefnz))
    requires After(SweptList(phase, allgc, finobj, tobefnz), pos) != []
    ensures var o := After(SweptList(phase, allgc, finobj, tobefnz), pos)[0];
            && o in SweptList(phase, allgc, finobj, tobefnz) && PosOk(phase, SweepPos.Next(o), allgc, finobj, tobefnz)
            && var rest := Unswept(phase, SweepPos.Next(o), allgc, finobj, tobefnz);
            && rest <= Unswept(phase, pos, allgc, finobj, tobefnz)
            && Unswept(phase, pos, allgc, finobj, tobefnz) <= rest + {o}
  {
    var list := SweptList(phase, allgc, finobj, tobefnz);
    PassOne(list, pos);
    hide NoRepeats;
    var rest := After(list, pos);
    assert rest == [rest[0]] + rest[1..];
    assert Elems(rest) == Elems(rest[1..]) + {rest[0]};
  }

  lemma OwnersOf(h: Heap, color: Colors, white: Color, twups: seq<Ref>, allgc: seq<Ref>, finobj: seq<Ref>,
                 tobefnz: seq<Ref>, fixedgc: seq<Ref>, running: Ref, next: nat, garbage: set<Ref>)
    requires HeapState(h, color, white, twups, allgc, finobj, tobefnz, fixedgc, running, next, garbage)
    ensures Owned(h, Owners(allgc, finobj, tobefnz, fixedgc)) && color.Keys == h.Keys && IsWhite(white)
  {
  }

  /** A sweep phase whose list is done is as far as the next phase at the head of its list. */
  lemma NextPhase(h: Heap, color: Colors, white: Color, phase: Phase, pos: SweepPos, allgc: seq<Ref>, finobj: seq<Ref>,
                  tobefnz: seq<Ref>, fixedgc: seq<Ref>, garbage: set<Ref>)
    requires SweepState(h, color, white, phase, pos, allgc, finobj, tobefnz, fixedgc, garbage)
    requires Sweeping(phase) ==> pos.Done?
    ensures phase.SweepAllGc? ==>
      SweepState(h, color, white, SweepFinObj, Header, allgc, finobj, tobefnz, fixedgc, garbage)
    ensures phase.SweepFinObj? ==>
      SweepState(h, color, white, SweepToBeFnz, Header, allgc, finobj, tobefnz, fixedgc, garbage)
    ensures phase.SweepToBeFnz? ==>
      SweepState(h, color, white, SweepEnd, Done, allgc, finobj, tobefnz, fixedgc, garbage)
    ensures phase.SweepEnd? ==> SweepState(h, color, white, CallFin, Done, allgc, finobj, tobefnz, fixedgc, garbage)
    ensures phase.CallFin? ==> SweepState(h, color, white, Pause, Done, allgc, finobj, tobefnz, fixedgc, garbage)
  {
  }

  /** Once everything has been swept, the garbage is gone. */
  lemma AllSwept(h: Heap, color: Colors, white: Color, phase: Phase, pos: SweepPos, allgc: seq<Ref>,
                 finobj: seq<Ref>, tobefnz: seq<Ref>, fixedgc: seq<Ref>, garbage: set<Ref>)
    requires SweepState(h, color, white, phase, pos, allgc, finobj, tobefnz, fixedgc, garbage) && color.Keys == h.Keys
    requires phase.SweepEnd? || phase.CallFin? || phase.Pause?
    ensures garbage !! h.Keys
    ensures forall o :: o in h && o !in fixedgc ==> color[o] == white
  {
  }

  // ----- from one cycle to the next -----

  /** At the end of `atomic` everything marked is closed under references, but for missed metatables. */
  lemma CompleteIsWellSealed(h: Heap, color: Colors, white: Color, twups: seq<Ref>, lost: set<Ref>)
    requires AtomicEnd(h, color, white, twups, lost)
    ensures LiveSet(color, white) == Marked(color) && WellSealed(h, lost, Marked(color))
  {
    hide TracedIn, LinkedUpVal, LinkedThread;
    assert LiveSet(color, white) == Marked(color);
    if lost != {} {
      var h' := Mended(h, lost);
      forall o | o in Marked(color) ensures o in h' && Inside(h', h'[o], Marked(color)) && MetatableOk(h', h'[o]) {
        if Inside(h, h[o], Marked(color)) {
          MendedInside(h, lost, o, Marked(color));
        }
      }
    }
  }

  lemma MendedInside(h: Heap, lost: set<Ref>, o: Ref, s: set<Ref>)
    requires o in h && Inside(h, h[o], s)
    ensures Inside(Mended(h, lost), Mended(h, lost)[o], s)
  {
  }

  /** Fewer tables may be lost than were left out. */
  lemma FewerLost(h: Heap, color: Colors, white: Color, twups: seq<Ref>, but: set<Ref>, lost: set<Ref>)
    requires AtomicEnd(h, color, white, twups, but)
    requires forall o :: o in but && o in h && h[o].Table? && !ValueIn(h[o].metatable, Marked(color)) ==> o in lost
    ensures AtomicEnd(h, color, white, twups, lost)
  {
  }

  /** Every table is held by the mode that its metatable has now. */
  function Refreshed(h: Heap): (h': Heap)
    ensures h'.Keys == h.Keys && forall o :: o in h ==> h'[o] == RefreshedObject(h[o])
  {
    map o | o in h :: RefreshedObject(h[o])
  }

  function RefreshedObject(o: Object): Object {
    if o.Table? then o.(weakness := Treated(ModeNow(o.weakness))) else o
  }

  lemma RefreshedIsLinked(h: Heap)
    requires Linked(h)
    ensures Linked(Refreshed(h))
  {
    var h' := Refreshed(h);
    forall o | o in h' && h'[o].OpenUpVal? ensures LinkedUpVal(h', o) { assert LinkedUpVal(h, o); }
    forall o | o in h' && h'[o].Thread? ensures LinkedThread(h', o) { assert LinkedThread(h, o); }
  }

  /** Modes do not matter at the end of `atomic`. */
  lemma RefreshKeepsAtomicEnd(h: Heap, color: Colors, white: Color, twups: seq<Ref>, but: set<Ref>)
    requires AtomicEnd(h, color, white, twups, but)
    ensures AtomicEnd(Refreshed(h), color, white, twups, but)
  {
    var h' := Refreshed(h);
    RefreshedIsLinked(h);
    hide Linked, Marked;
    forall o | o in h' && o in Marked(color)
      ensures || Inside(h', h'[o], Marked(color))
              || (o in but && h'[o].Table? && !ValueIn(h'[o].metatable, Marked(color))
                  && Within(h'[o].(metatable := Nil), Marked(color)))
    {
      RefreshKeepsInside(h, o, Marked(color));
    }
  }

  lemma RefreshKeepsInside(h: Heap, o: Ref, s: set<Ref>)
    requires o in h
    ensures Inside(h, h[o], s) ==> Inside(Refreshed(h), Refreshed(h)[o], s)
    ensures h[o].Table? ==> Refreshed(h)[o].Table? && Refreshed(h)[o].metatable == h[o].metatable
    ensures h[o].Table? && Within(h[o].(metatable := Nil), s) ==> Within(Refreshed(h)[o].(metatable := Nil), s)
  {
  }

  /** What the atomic phase leaves as it was: metatables, modes as they are now, stacks in use. */
  predicate ObjectKept(o: Object, o': Object) {
    && (o.Table? ==> o'.Table? && o'.metatable == o.metatable && o'.weakness == Treated(ModeNow(o.weakness)))
    && (o.Thread? ==> o'.Thread? && o'.top == o.top && SameStack(o.stack, o'.stack, o.top))
  }

  predicate SameStack(stack: seq<Value>, stack': seq<Value>, top: nat) {
    |stack'| == |stack| && forall i :: 0 <= i < |stack| && i < top ==> stack'[i] == stack[i]
  }

  ghost predicate AtomicKeeps(h: Heap, h': Heap, s: set<Ref>) {
    forall o :: o in s && o in h ==> o in h' && ObjectKept(h[o], h'[o])
  }

  /** The state in which the sweep starts. */
  lemma StartSweeping(h: Heap, color: Colors, white: Color, twups: seq<Ref>, allgc: seq<Ref>, finobj: seq<Ref>,
                      tobefnz: seq<Ref>, fixedgc: seq<Ref>, running: Ref, next: nat, garbage: set<Ref>, lost: set<Ref>)
    requires AtomicEnd(h, color, white, twups, lost) && Owned(h, Owners(allgc, finobj, tobefnz, fixedgc))
    requires (forall o :: o in h || o in garbage ==> o < next)
    requires (forall o :: o in fixedgc ==> o in h && h[o].Str? && o in Marked(color))
    requires running in h && h[running].Thread? && Marked(color) !! garbage
    ensures HeapState(h, color, white, twups, allgc, finobj, tobefnz, fixedgc, running, next, garbage)
    ensures SweepState(h, color, white, SweepAllGc, Header, allgc, finobj, tobefnz, fixedgc, garbage)
    ensures WellSealed(h, lost, LiveSet(color, white)) && LiveSet(color, white) == Marked(color)
  {
    hide Linked, TracedIn, Complete, WellSealed, MetatableOk;
    CompleteIsWellSealed(h, color, white, twups, lost);
    forall o | o in h && o !in fixedgc ensures o in Unswept(SweepAllGc, Header, allgc, finobj, tobefnz) {
      assert Owners(allgc, finobj, tobefnz, fixedgc)[o] == 1;
    }
  }

  /** The state in which marking starts. */
  lemma StartMarking(h: Heap, color: Colors, white: Color, twups: seq<Ref>, fixedgc: seq<Ref>, garbage: set<Ref>,
    running: Ref)
    requires color.Keys == h.Keys && IsWhite(white) && Linked(h)
    requires forall o :: o in h && o !in fixedgc ==> color[o] == white
    requires forall o :: o in fixedgc ==> o in h && h[o].Str? && o in color && !IsWhite(color[o]) && o !in garbage
    requires Sealed(h, h.Keys) && Sealed(h, h.Keys - garbage) && TwupsLive(h, h.Keys, twups) && running in h
    ensures MarkInv(h, color, white, Sum([], [], [], [], []), twups, Incremental(h, garbage, {}))
    ensures ListsOk(h, color, false, [], [], [], [], {}) && TwupsOk(h, color, twups, h.Keys)
  {
    hide TracedIn, Linked, MetatableOk;
    SealedIsTraced(h, h.Keys - garbage);
    SealedIsClosed(h);
    assert forall o :: !Waits(h, color, o);
    forall o | o in h && o in color && color[o].Black? ensures BlackOk(h, color, twups, true, o) {
      assert o in fixedgc;
    }
    assert forall u :: u in h && h[u].OpenUpVal? ==> u !in Marked(color);
  }

  lemma MovesToAllGc(allgc: seq<Ref>, allgc': seq<Ref>, finobj: seq<Ref>, tobefnz: seq<Ref>, tobefnz': seq<Ref>,
                     fixedgc: seq<Ref>, o: Ref)
    requires tobefnz != [] && o == tobefnz[0] && tobefnz' == tobefnz[1..] && allgc' == [o] + allgc
    ensures Owners(allgc', finobj, tobefnz', fixedgc) == Owners(allgc, finobj, tobefnz, fixedgc)
  {
    assert tobefnz == [o] + tobefnz';
  }

  lemma MarkingKeepsHeapState(h: Heap, color: Colors, color': Colors, white: Color, twups: seq<Ref>, allgc: seq<Ref>,
                              finobj: seq<Ref>, tobefnz: seq<Ref>, fixedgc: seq<Ref>, running: Ref, next: nat,
                              garbage: set<Ref>, found: set<Ref>)
    requires HeapState(h, color, white, twups, allgc, finobj, tobefnz, fixedgc, running, next, garbage)
    requires color'.Keys == h.Keys && Marked(color) <= Marked(color') && found <= h.Keys
    requires LiveSet(color, white) == LiveSet(color', white)
    ensures HeapState(h, color', white, twups, allgc, finobj, tobefnz, fixedgc, running, next, garbage + found)
  {
    hide Linked, Owned, Owners, TwupsLive, LiveSet;
    forall o | o in fixedgc ensures o in h && h[o].Str? && o in color' && !IsWhite(color'[o]) {
      assert o in Marked(color);
    }
  }

  /** The roots are marked, and marking is under way. */
  lemma MarkingStarted(h: Heap, color: Colors, color': Colors, white: Color, gray: seq<Ref>, twups: seq<Ref>,
                       finobj: seq<Ref>, mainthread: Ref, garbage: set<Ref>)
    requires ListsOk(h, color, false, [], [], [], [], {}) && TwupsOk(h, color, twups, h.Keys) && Sealed(h, h.Keys)
    requires MarkInv(h, color', white, Sum(gray, [], [], [], []), twups, Incremental(h, garbage, {}))
    requires Marked(color) <= Marked(color') && mainthread in Marked(color')
    requires forall o :: o in finobj ==> o !in garbage
    ensures MarkState(h, color', white, gray, [], [], [], [], twups, finobj, mainthread, garbage, {})
    ensures IsWhite(white) && LiveSet(color', white) == h.Keys
  {
    hide MarkInv, Sealed, TwupsOk, ListsOk, Sum, Marked, LiveSet;
    AllLive(h, color', white, Sum(gray, [], [], [], []), twups, Incremental(h, garbage, {}));
    WhiteIsWhite(h, color', white, Sum(gray, [], [], [], []), twups, Incremental(h, garbage, {}));
    ListsOkGrows(h, color, color', false, [], [], [], [], {});
    assert Elems([]) == {};
    HeapPrunedReflexive(h);
    TwupsOkLater(h, h, color, color', twups, h.Keys);
  }

  lemma PruningKeepsSealed(h: Heap, h': Heap, s: set<Ref>)
    requires HeapPruned(h, h') && Linked(h) && Sealed(h, s)
    ensures Sealed(h', s)
  {
    forall o | o in s ensures o in h' && Inside(h', h'[o], s) && MetatableOk(h', h'[o]) {
      assert Pruned(h[o], h'[o]);
      PruningKeepsWithin(h[o], h'[o], s);
      PruningKeepsMetatableOk(h, h', o);
      if h[o].OpenUpVal? {
        assert LinkedUpVal(h, o) && Pruned(h[h[o].thread], h'[h[o].thread]);
      }
    }
  }

  lemma ThreadsListed(h: Heap, color: Colors, twups: seq<Ref>)
    requires Linked(h) && TwupsOk(h, color, twups, h.Keys)
    ensures TwupsLive(h, h.Keys, twups)
  {
    forall th | th in h && h[th].Thread? && h[th].openupval != [] ensures th in twups {
      assert LinkedThread(h, th);
      assert h[th].openupval[0] in h.Keys;
    }
  }

  /** Traversing a gray object keeps the invariant between steps. */
  lemma TraversalKeepsState(h: Heap, h': Heap, color: Colors, color': Colors, white: Color, gray: seq<Ref>,
                            again: seq<Ref>, weak: seq<Ref>, all: seq<Ref>, eph: seq<Ref>, twups: seq<Ref>,
                            twups': seq<Ref>, allgc: seq<Ref>, finobj: seq<Ref>, tobefnz: seq<Ref>, fixedgc: seq<Ref>,
                            running: Ref, next: nat, mainthread: Ref, garbage: set<Ref>)
    requires HeapState(h, color, white, twups, allgc, finobj, tobefnz, fixedgc, running, next, garbage)
    requires Sealed(h, h.Keys) && Sealed(h, h.Keys - garbage) && HeapPruned(h, h') && Marked(color) <= Marked(color')
    requires MarkInv(h', color', white, Sum(gray, again, weak, all, eph), twups', Incremental(h, garbage, {}))
    requires ListsOk(h', color', false, again, weak, all, eph, Elems(all)) && TwupsOk(h', color', twups', h.Keys)
    requires mainthread in Marked(color') && forall o :: o in finobj ==> o !in garbage
    ensures HeapState(h', color', white, twups', allgc, finobj, tobefnz, fixedgc, running, next, garbage)
    ensures MarkState(h', color', white, gray, again, weak, all, eph, twups', finobj, mainthread, garbage, {})
    ensures Sealed(h', h'.Keys - garbage) && h'.Keys == h.Keys
  {
    hide MarkInv, Sum, Sealed, ListsOk, TwupsOk, TwupsLive, Linked, LiveSet, Owners, Marked, HeapPruned;
    MarkInvBasics(h', color', white, Sum(gray, again, weak, all, eph), twups', Incremental(h, garbage, {}));
    AllLive(h', color', white, Sum(gray, again, weak, all, eph), twups', Incremental(h, garbage, {}));
    PrunedKeys(h, h');
    PruningKeepsSealed(h, h', h.Keys);
    PruningKeepsSealed(h, h', h.Keys - garbage);
    ThreadsListed(h', color', twups');
    KindsKept(h, h', color, color', fixedgc, running);
  }

  lemma KindsKept(h: Heap, h': Heap, color: Colors, color': Colors, fixedgc: seq<Ref>, running: Ref)
    requires HeapPruned(h, h') && Marked(color) <= Marked(color') && running in h && h[running].Thread?
    requires forall o :: o in fixedgc ==> o in h && h[o].Str? && o in color && !IsWhite(color[o])
    ensures forall o :: o in fixedgc ==> o in h' && h'[o].Str? && o in color' && !IsWhite(color'[o])
    ensures running in h' && h'[running].Thread?
  {
    hide Pruned;
    forall o | o in fixedgc ensures o in h' && h'[o].Str? && o in color' && !IsWhite(color'[o]) {
      assert o in Marked(color);
      PrunedKind(h[o], h'[o]);
    }
    PrunedKind(h[running], h'[running]);
  }

  /** What `atomic` leaves alone: who owns the objects, and what kinds they are. */
  lemma AtomicKeepsOwners(h: Heap, h': Heap, allgc: seq<Ref>, finobj: seq<Ref>, finobj': seq<Ref>, tobefnz: seq<Ref>,
                          tobefnz': seq<Ref>, fixedgc: seq<Ref>, running: Ref)
    requires HeapPruned(h, h') && Owned(h, Owners(allgc, finobj, tobefnz, fixedgc))
    requires multiset(finobj') + multiset(tobefnz') == multiset(finobj) + multiset(tobefnz)
    requires (forall o :: o in fixedgc ==> o in h && h[o].Str?) && running in h && h[running].Thread?
    ensures Owned(h', Owners(allgc, finobj', tobefnz', fixedgc)) && h'.Keys == h.Keys
    ensures (forall o :: o in fixedgc ==> o in h' && h'[o].Str?) && running in h' && h'[running].Thread?
  {
    hide Pruned;
    assert Owners(allgc, finobj', tobefnz', fixedgc) == Owners(allgc, finobj, tobefnz, fixedgc) by {
      assert Owners(allgc, finobj', tobefnz', fixedgc)
          == multiset(allgc) + (multiset(finobj') + multiset(tobefnz')) + multiset(fixedgc);
    }
    forall o | o in h ensures Pruned(h[o], h'[o]) && (h[o].Str? ==> h'[o].Str?) && (h[o].Thread? ==> h'[o].Thread?) {
      PrunedKind(h[o], h'[o]);
    }
  }

  lemma PrunedKind(o: Object, o': Object)
    requires Pruned(o, o')
    ensures (o.Str? ==> o'.Str?) && (o.Thread? ==> o'.Thread?)
  {
  }

  // ----- objects that get a finalizer -----

  lemma MoveKeepsAfter(list: seq<Ref>, pos: SweepPos, i: nat)
    requires NoRepeats(list) && PosIn(list, pos) && i < |list| && pos != SweepPos.Next(list[i])
    ensures PosIn(Without(list, i), pos)
    ensures Elems(After(list, pos)) - {list[i]} <= Elems(After(Without(list, i), pos)) <= Elems(After(list, pos))
  {
    var less := Without(list, i);
    if pos.Header? {
      WithoutCounts(list, i);
      assert forall o :: o in less ==> o in list;
    } else if pos.Next? {
      var j := IndexOf(list, pos.o);
      var j' := if j < i then j else j - 1;
      assert less[j'] == pos.o;
      assert NoRepeats(less) by {
        forall a, b | 0 <= a < b < |less| ensures less[a] != less[b] {
          assert less[a] == list[if a < i then a else a + 1] && less[b] == list[if b < i then b else b + 1];
        }
      }
      IndexIs(less, j');
      TailsAlike(list, i, j + 1, j' + 1);
    }
  }

  lemma TailsAlike(list: seq<Ref>, i: nat, a: nat, b: nat)
    requires i < |list| && a <= |list| && b == (if a <= i then a else a - 1)
    ensures b <= |Without(list, i)|
    ensures Elems(list[a..]) - {list[i]} <= Elems(Without(list, i)[b..]) <= Elems(list[a..])
  {
    var less := Without(list, i);
    forall o | o in Elems(list[a..]) - {list[i]} ensures o in less[b..] {
      var k :| a <= k < |list| && list[k] == o;
      assert less[if k < i then k else k - 1] == o;
    }
    forall o | o in less[b..] ensures o in list[a..] {
      var k :| b <= k < |less| && less[k] == o;
      assert list[if k < i then k else k + 1] == o;
    }
  }

  /** An object moves from `allgc` to the head of `finobj`. While sweeping it has turned white before. */
  lemma FinalizerKeepsSweepState(h: Heap, color: Colors, white: Color, phase: Phase, pos: SweepPos, allgc: seq<Ref>,
                                 finobj: seq<Ref>, tobefnz: seq<Ref>, fixedgc: seq<Ref>, garbage: set<Ref>, i: nat)
    requires SweepState(h, color, white, phase, pos, allgc, finobj, tobefnz, fixedgc, garbage)
    requires i < |allgc| && allgc[i] in h && allgc[i] in color && allgc[i] !in finobj && allgc[i] !in garbage
    requires phase.SweepAllGc? || color[allgc[i]] == white
    requires NoRepeats(allgc) && (phase.SweepAllGc? ==> pos != SweepPos.Next(allgc[i]))
    ensures SweepState(h, color, white, phase, pos, Without(allgc, i), [allgc[i]] + finobj, tobefnz, fixedgc, garbage)
  {
    hide Without, NoRepeats, After, PosIn;
    var o := allgc[i];
    if phase.SweepAllGc? { MoveKeepsAfter(allgc, pos, i); }
    if phase.SweepFinObj? { NewKeepsAfter(o, finobj, pos); }
    assert Elems([o] + finobj) == Elems(finobj) + {o};
  }

  lemma FinalizerKeepsOwners(h: Heap, allgc: seq<Ref>, finobj: seq<Ref>, tobefnz: seq<Ref>, fixedgc: seq<Ref>, i: nat)
    requires i < |allgc| && Owned(h, Owners(allgc, finobj, tobefnz, fixedgc))
    ensures Owned(h, Owners(Without(allgc, i), [allgc[i]] + finobj, tobefnz, fixedgc))
    ensures NoRepeats(allgc) && allgc[i] !in finobj && allgc[i] in h
  {
    OwnedOnce(h, SweepAllGc, allgc, finobj, tobefnz, fixedgc);
    WithoutCounts(allgc, i);
    MemberCount(allgc, allgc[i]);
    MemberCount(finobj, allgc[i]);
    assert Owners(allgc, finobj, tobefnz, fixedgc)[allgc[i]] >= multiset(allgc)[allgc[i]] + multiset(finobj)[allgc[i]];
    assert Owners(Without(allgc, i), [allgc[i]] + finobj, tobefnz, fixedgc) == Owners(allgc, finobj, tobefnz, fixedgc);
  }

  lemma FinalizerKeepsHeapState(h: Heap, color: Colors, white: Color, twups: seq<Ref>, allgc: seq<Ref>,
    finobj: seq<Ref>,
                                tobefnz: seq<Ref>, fixedgc: seq<Ref>, running: Ref, next: nat, garbage: set<Ref>,
                                  i: nat)
    requires HeapState(h, color, white, twups, allgc, finobj, tobefnz, fixedgc, running, next, garbage) && i < |allgc|
    ensures HeapState(h, color, white, twups, Without(allgc, i), [allgc[i]] + finobj, tobefnz, fixedgc, running, next,
      garbage)
  {
    FinalizerKeepsOwners(h, allgc, finobj, tobefnz, fixedgc, i);
    hide Linked, Owners, Owned, TwupsLive, LiveSet;
  }

  lemma FinalizerKeepsMarkState(h: Heap, color: Colors, white: Color, gray: seq<Ref>, again: seq<Ref>, weak: seq<Ref>,
                                all: seq<Ref>, eph: seq<Ref>, twups: seq<Ref>, finobj: seq<Ref>, mainthread: Ref,
                                garbage: set<Ref>, o: Ref)
    requires MarkState(h, color, white, gray, again, weak, all, eph, twups, finobj, mainthread, garbage, {})
    requires o !in garbage
    ensures MarkState(h, color, white, gray, again, weak, all, eph, twups, [o] + finobj, mainthread, garbage, {})
  {
    hide MarkInv, ListsOk, TwupsOk, Sealed, Marked, Sum;
  }

  // ----- strings that come back -----

  /** A string that nobody has a reference to is handed out again. */
  lemma InternKeepsSealed(h: Heap, s: set<Ref>, str: Ref)
    requires Sealed(h, s) && str in h && h[str].Str?
    ensures Sealed(h, s + {str})
  {
    forall o | o in s + {str} ensures o in h && Inside(h, h[o], s + {str}) && MetatableOk(h, h[o]) {
      if o in s { WithinMore(h[o], s, s + {str}); }
    }
  }

  lemma InternKeepsMarkState(h: Heap, color: Colors, white: Color, gray: seq<Ref>, again: seq<Ref>, weak: seq<Ref>,
                             all: seq<Ref>, eph: seq<Ref>, twups: seq<Ref>, finobj: seq<Ref>, mainthread: Ref,
                             garbage: set<Ref>, str: Ref)
    requires MarkState(h, color, white, gray, again, weak, all, eph, twups, finobj, mainthread, garbage, {})
    requires str in h && h[str].Str? && Sealed(h, h.Keys - garbage)
    ensures MarkState(h, color, white, gray, again, weak, all, eph, twups, finobj, mainthread, garbage - {str}, {})
    ensures Sealed(h, h.Keys - (garbage - {str}))
  {
    hide TracedIn, Linked, MetatableOk, Within, ListsOk, TwupsOk, Sum, Sealed;
    assert h.Keys - (garbage - {str}) == h.Keys - garbage + {str};
    InternKeepsSealed(h, h.Keys - garbage, str);
    SealedIsTraced(h, h.Keys - (garbage - {str}));
  }

  lemma InternKeepsSweepState(h: Heap, color: Colors, white: Color, phase: Phase, pos: SweepPos, allgc: seq<Ref>,
                              finobj: seq<Ref>, tobefnz: seq<Ref>, fixedgc: seq<Ref>, running: Ref, next: nat,
                              twups: seq<Ref>, garbage: set<Ref>, str: Ref)
    requires HeapState(h, color, white, twups, allgc, finobj, tobefnz, fixedgc, running, next, garbage)
    requires SweepState(h, color, white, phase, pos, allgc, finobj, tobefnz, fixedgc, garbage)
    requires str in h && h[str].Str?
    ensures var c := if color[str] == OtherWhite(white) then color[str := white] else color;
            && HeapState(h, c, white, twups, allgc, finobj, tobefnz, fixedgc, running, next, garbage - {str})
            && SweepState(h, c, white, phase, pos, allgc, finobj, tobefnz, fixedgc, garbage - {str})
            && LiveSet(c, white) == LiveSet(color, white) + {str}
  {
    hide Linked, Owned, Owners, Unswept, PosOk;
    var c := if color[str] == OtherWhite(white) then color[str := white] else color;
    assert LiveSet(c, white) == LiveSet(color, white) + {str};
  }

  lemma LessGarbage(h: Heap, color: Colors, white: Color, twups: seq<Ref>, allgc: seq<Ref>, finobj: seq<Ref>,
                    tobefnz: seq<Ref>, fixedgc: seq<Ref>, running: Ref, next: nat, garbage: set<Ref>, less: set<Ref>)
    requires HeapState(h, color, white, twups, allgc, finobj, tobefnz, fixedgc, running, next, garbage)
    requires less <= garbage
    ensures HeapState(h, color, white, twups, allgc, finobj, tobefnz, fixedgc, running, next, less)
  {
    hide Linked, Owned, Owners, TwupsLive, LiveSet;
  }
}
