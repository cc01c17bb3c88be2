module GcCollector {
  import opened GcObjects
  import opened GcMarking
  import opened GcInvariant
  import opened GcProgram
  import opened GcSweeping
  import opened GcForced
  import opened GcHeld

  /** How many objects a sweep step visits, and how many finalizers are called at once. */
  const GCSWEEPMAX := 100
  const GCFINMAX := 10

  /** Number of basic types, each with a metatable. */
  const LUA_NUMTYPES := 9

  function NextList(phase: Phase): Phase
    requires Sweeping(phase)
  {
    match phase
    case SweepAllGc => SweepFinObj
    case SweepFinObj => SweepToBeFnz
    case SweepToBeFnz => SweepEnd
  }

  class Collector {
    var heap: Heap
    var color: Colors
    var white: Color
    var phase: Phase
    var gray: seq<Ref>
    var grayagain: seq<Ref>
    var weak: seq<Ref>
    var allweak: seq<Ref>
    var ephemeron: seq<Ref>
    var twups: seq<Ref>
    var allgc: seq<Ref>
    var finobj: seq<Ref>
    var tobefnz: seq<Ref>
    var fixedgc: seq<Ref>
    var sweepgc: SweepPos
    var next: nat
    var mainthread: Ref
    var running: Ref
    var registry: Value
    var mt: seq<Value>
    /** Tables whose metatables the atomic phase has missed. */
    ghost var lost: set<Ref>

    /** A new state (`lua_newstate`): the main thread is the only object, and the collector pauses. */
    constructor (slots: nat)
      ensures Valid({}) && phase.Pause? && heap == map[0 := Thread(seq(slots, i => Nil), 0, [])]
      ensures running == mainthread == 0
      ensures finobj == tobefnz == fixedgc == [] && next == 1 && mt == seq(LUA_NUMTYPES, i => Nil)
      ensures color == map[0 := White0] && white == White0 && registry == Nil
    {
      heap, color, white, phase := map[0 := Thread(seq(slots, i => Nil), 0, [])], map[0 := White0], White0, Pause;
      gray, grayagain, weak, allweak, ephemeron, twups := [], [], [], [], [], [];
      allgc, finobj, tobefnz, fixedgc, sweepgc, next := [0], [], [], [], Done, 1;
      mainthread, running, registry, mt := 0, 0, Nil, seq(LUA_NUMTYPES, i => Nil);
      lost := {};
    }

    /** Everything the program can start from lies in `s`. */
    ghost predicate RootsIn(s: set<Ref>)
      reads `mainthread, `running, `registry, `mt, `tobefnz, `fixedgc
    {
      && mainthread in s && running in s && ValueIn(registry, s) && ValuesIn(mt, s)
      && AllIn(tobefnz, s)
      && (forall i :: 0 <= i < |fixedgc| ==> fixedgc[i] in s)
    }

    ghost predicate AllIn(list: seq<Ref>, s: set<Ref>) { forall i :: 0 <= i < |list| ==> list[i] in s }

    ghost function GrayLists(): multiset<Ref>
      reads `gray, `grayagain, `weak, `allweak, `ephemeron
    {
      Sum(gray, grayagain, weak, allweak, ephemeron)
    }

    ghost predicate Marking(sc: Scope)
      reads `heap, `color, `white, `gray, `grayagain, `weak, `allweak, `ephemeron, `twups
    {
      MarkInv(heap, color, white, GrayLists(), twups, sc)
    }

    /** The invariant of the marking phases, lists included. */
    ghost predicate Tracing(sc: Scope)
      reads `heap, `color, `white, `phase, `gray, `grayagain, `weak, `allweak, `ephemeron, `twups
    {
      && Marking(sc) && ListsIn(sc.but) && TwupsOk(heap, color, twups, sc.lax)
    }

    ghost predicate ListsIn(but: set<Ref>)
      reads `heap, `color, `phase, `grayagain, `weak, `allweak, `ephemeron
    {
      ListsOk(heap, color, phase.InAtomic?, grayagain, weak, allweak, ephemeron, but)
    }

    ghost function Whites(): set<Ref>
      reads `color
    {
      color.Keys - Marked(color)
    }

    method ReallyMark(o: Ref, ghost sc: Scope)
      requires Marking(sc) && o in heap && o in color && IsWhite(color[o]) && o in sc.bound
      modifies `color, `gray
      ensures Marking(sc) && Grew(heap, old(color), color) && o in Marked(color)
      ensures Marked(old(color)) < Marked(color)
      ensures heap[o].Table? || heap[o].Thread? ==> color == old(color)[o := Gray] && gray == [o] + old(gray)
      decreases Whites(), if heap[o].Userdata? then 2 else 1
    {
      hide MarkInv, GrayLists;
      WhiteIsTraced(heap, color, white, GrayLists(), twups, sc, o);
      BoundAt(heap, color, white, GrayLists(), twups, sc, o);
      match heap[o] {
        case Str =>
          MarkBlack(o, sc);
        case OpenUpVal(_, _) =>
          MarkUpVal(o, sc);
        case ClosedUpVal(_) =>
          MarkUpVal(o, sc);
        case Userdata(mt, uvs) =>
          if |uvs| == 0 {
            if mt.Gc? && IsWhite(color[mt.ref]) {
              ReallyMark(mt.ref, sc);
            }
            MarkBlack(o, sc);
          } else {
            Link(o, sc);
          }
        case _ => Link(o, sc);
      }
    }

    /** Open upvalues stay gray, outside the gray list; closed ones turn black. The value is marked at once. */
    method MarkUpVal(o: Ref, ghost sc: Scope)
      requires Marking(sc) && o in heap && o in color && IsWhite(color[o]) && o in sc.bound
      requires heap[o].OpenUpVal? || heap[o].ClosedUpVal?
      modifies `color, `gray
      ensures Marking(sc) && Grew(heap, old(color), color) && o in Marked(color)
      ensures Marked(old(color)) < Marked(color)
      decreases Whites(), 0
    {
      hide MarkInv, GrayLists;
      ghost var ins := Visiting(sc, o);
      WhiteIsTraced(heap, color, white, GrayLists(), twups, sc, o);
      BoundAt(heap, color, white, GrayLists(), twups, sc, o);
      BoundAtSlot(heap, color, white, GrayLists(), twups, sc, o);
      MarkOne(heap, color, white, GrayLists(), twups, sc, o);
      color := color[o := if heap[o].OpenUpVal? then Gray else Black];
      var v := if heap[o].OpenUpVal? then heap[heap[o].thread].stack[heap[o].level] else heap[o].value;
      MarkValue(v, ins);
      Retire(heap, color, white, GrayLists(), twups, ins, o, sc.active);
    }

    method MarkBlack(o: Ref, ghost sc: Scope)
      requires Marking(sc) && o in heap && o in color && IsWhite(color[o]) && o in sc.bound
      requires FirstColor(heap[o]) == Black && Within(heap[o], Marked(color))
      modifies `color
      ensures Marking(sc) && color == old(color)[o := Black] && Marked(color) == Marked(old(color)) + {o}
    {
      hide MarkInv, GrayLists;
      MarkOne(heap, color, white, GrayLists(), twups, sc, o);
      color := color[o := Black];
      WithinMore(heap[o], Marked(old(color)), Marked(color));
      Retire(heap, color, white, GrayLists(), twups, Visiting(sc, o), o, sc.active);
    }

    method Link(o: Ref, ghost sc: Scope)
      requires Marking(sc) && o in heap && o in color && IsWhite(color[o]) && o in sc.bound
      requires Linkable(heap[o])
      modifies `color, `gray
      ensures Marking(sc) && color == old(color)[o := Gray] && gray == [o] + old(gray)
    {
      hide MarkInv;
      MarkOne(heap, color, white, GrayLists(), twups, sc, o);
      ghost var lists := GrayLists();
      color, gray := color[o := Gray], [o] + gray;
      assert GrayLists() == lists + multiset{o};
      Retire(heap, color, white, GrayLists(), twups, sc.(active := sc.active + {o}), o, sc.active);
    }

    method MarkValue(v: Value, ghost sc: Scope)
      requires Marking(sc) && ValueIn(v, heap.Keys) && ValueIn(v, sc.bound)
      modifies `color, `gray
      ensures Marking(sc) && MarkStep(heap, old(color), old(gray), color, gray)
      ensures ValueIn(v, Marked(color)) && (!v.Gc? ==> color == old(color) && gray == old(gray))
      ensures v.Gc? && v.ref in old(color) && IsWhite(old(color)[v.ref]) ==> Marked(old(color)) < Marked(color)
      ensures v.Gc? && v.ref in old(color) && IsWhite(old(color)[v.ref]) && v.ref in heap &&
              (heap[v.ref].Table? || heap[v.ref].Thread?) ==>
        color == old(color)[v.ref := Gray] && gray == [v.ref] + old(gray)
      ensures v.Gc? && v.ref in old(color) && !IsWhite(old(color)[v.ref]) ==> color == old(color) && gray == old(gray)
      decreases Whites(), 3
    {
      hide MarkInv, GrayLists;
      MarkInvBasics(heap, color, white, GrayLists(), twups, sc);
      if v.Gc? && IsWhite(color[v.ref]) {
        ReallyMark(v.ref, sc);
      }
    }

    method MarkValues(vs: seq<Value>, ghost sc: Scope)
      requires Marking(sc) && ValuesIn(vs, heap.Keys) && ValuesIn(vs, sc.bound)
      modifies `color, `gray
      ensures Marking(sc) && MarkStep(heap, old(color), old(gray), color, gray)
      ensures ValuesIn(vs, Marked(color))
      ensures (forall i :: 0 <= i < |vs| ==> !vs[i].Gc?) ==> color == old(color) && gray == old(gray)
    {
      hide MarkInv, GrayLists, Grew, Linked, HeapClosed, Marked;
      MarkInvBasics(heap, color, white, GrayLists(), twups, sc);
      MarkStepReflexive(heap, color, gray);
      for i := 0 to |vs|
        invariant Marking(sc) && MarkStep(heap, old(color), old(gray), color, gray)
        invariant forall k :: 0 <= k < i ==> ValueIn(vs[k], Marked(color))
        invariant (forall k :: 0 <= k < |vs| ==> !vs[k].Gc?) ==> color == old(color) && gray == old(gray)
      {
        ghost var c, g := color, gray;
        MarkValue(vs[i], sc);
        MarkStepTransitive(heap, old(color), old(gray), c, g, color, gray);
      }
    }

    method TraverseRecord(o: Ref, ghost sc: Scope)
      requires Marking(Visiting(sc, o)) && o in heap && heap[o].Record? && o in color && color[o].Black?
      requires o in sc.bound && o !in sc.but
      modifies `color, `gray
      ensures Marking(sc) && MarkStep(heap, old(color), old(gray), color, gray)
    {
      hide MarkInv, GrayLists;
      BoundAt(heap, color, white, GrayLists(), twups, Visiting(sc, o), o);
      MarkValues(heap[o].fields, Visiting(sc, o));
      Retire(heap, color, white, GrayLists(), twups, Visiting(sc, o), o, sc.active);
    }

    method TraverseUdata(o: Ref, ghost sc: Scope)
      requires Marking(Visiting(sc, o)) && o in heap && heap[o].Userdata? && o in color && color[o].Black?
      requires o in sc.bound && o !in sc.but
      modifies `color, `gray
      ensures Marking(sc) && MarkStep(heap, old(color), old(gray), color, gray)
    {
      hide MarkInv, GrayLists;
      BoundAt(heap, color, white, GrayLists(), twups, Visiting(sc, o), o);
      MarkValue(heap[o].metatable, Visiting(sc, o));
      ghost var c, g := color, gray;
      MarkValues(heap[o].uservalues, Visiting(sc, o));
      MarkStepTransitive(heap, old(color), old(gray), c, g, color, gray);
      Retire(heap, color, white, GrayLists(), twups, Visiting(sc, o), o, sc.active);
    }

    /** Marks the stack in use and the open upvalues. */
    method MarkStack(o: Ref, ghost sc: Scope)
      requires Marking(sc) && o in heap && heap[o].Thread? && o in sc.bound
      modifies `color, `gray
      ensures Marking(sc) && MarkStep(heap, old(color), old(gray), color, gray)
      ensures ValuesIn(heap[o].stack[..heap[o].top], Marked(color))
      ensures forall i :: 0 <= i < |heap[o].openupval| ==> heap[o].openupval[i] in Marked(color)
    {
      hide MarkInv, GrayLists;
      BoundAtThread(heap, color, white, GrayLists(), twups, sc, o);
      var th := heap[o];
      MarkValues(th.stack[..th.top], sc);
      ghost var c2 := color;
      for i := 0 to |th.openupval|
        invariant Marking(sc) && MarkStep(heap, old(color), old(gray), color, gray)
        invariant Marked(c2) <= Marked(color)
        invariant forall k :: 0 <= k < i ==> th.openupval[k] in Marked(color)
      {
        ghost var c, g := color, gray;
        MarkValue(Gc(th.openupval[i]), sc);
        MarkStepTransitive(heap, old(color), old(gray), c, g, color, gray);
      }
    }

    /** The final visit wipes the unused part of the stack and puts the thread back into `twups`. */
    method FinalVisit(o: Ref, ghost sc: Scope)
      requires !sc.inc
      requires Marking(Visiting(sc, o)) && o in heap && heap[o].Thread? && o in color && color[o].Black?
      requires heap[o].top <= |heap[o].stack| && ValuesIn(heap[o].stack[..heap[o].top], Marked(color))
      requires forall i :: 0 <= i < |heap[o].openupval| ==> heap[o].openupval[i] in Marked(color)
      modifies `heap, `twups
      ensures Marking(sc) && HeapTidied(old(heap), heap)
      ensures o in heap && heap[o].Thread?
      ensures twups == if o in old(twups) || old(heap)[o].openupval == [] then old(twups) else [o] + old(twups)
    {
      hide MarkInv, GrayLists;
      ghost var ins := Visiting(sc, o);
      var th := heap[o];
      var stack := seq(|th.stack|, i requires 0 <= i < |th.stack| => if i < th.top then th.stack[i] else Nil);
      assert forall i :: 0 <= i < th.top ==> th.stack[..th.top][i] == th.stack[i];
      PruneOne(heap, color, white, GrayLists(), twups, ins, o, th.(stack := stack));
      heap := heap[o := th.(stack := stack)];
      if o !in twups && th.openupval != [] {
        MoreTwups(heap, color, white, GrayLists(), twups, ins, [o] + twups);
        twups := [o] + twups;
      }
      Retire(heap, color, white, GrayLists(), twups, ins, o, sc.active);
    }

    method TraverseThread(o: Ref, ghost sc: Scope)
      requires Marking(Visiting(sc, o)) && o in heap && heap[o].Thread? && o in color && color[o].Black?
      requires o in sc.bound && (phase.Propagate? || !sc.inc)
      modifies `heap, `color, `gray, `grayagain, `weak, `allweak, `ephemeron, `twups
      ensures Marking(sc) && HeapTidied(old(heap), heap) && o in heap && heap[o].Thread?
      ensures Marked(old(color)) <= Marked(color)
      ensures gray == old(gray) || Marked(old(color)) < Marked(color)
      ensures weak == old(weak) && allweak == old(allweak) && ephemeron == old(ephemeron)
      ensures phase.Propagate? ==> grayagain == [o] + old(grayagain) && twups == old(twups)
      ensures !phase.Propagate? ==> grayagain == old(grayagain)
      ensures !phase.Propagate? ==>
        twups == if o in old(twups) || old(heap)[o].openupval == [] then old(twups) else [o] + old(twups)
    {
      hide MarkInv, GrayLists, Pruned;
      ghost var ins := Visiting(sc, o);
      BoundAtThread(heap, color, white, GrayLists(), twups, ins, o);
      HeapTidiedReflexive(heap);
      if phase.Propagate? {
        LinkGcList(o, InGrayAgain, ins);
      }
      MarkStack(o, ins);
      if phase.Propagate? {
        Retire(heap, color, white, GrayLists(), twups, ins, o, sc.active);
      } else {
        FinalVisit(o, sc);
      }
    }

    /** `linkgclist`: puts a black object, gray again, in front of a list. */
    method LinkGcList(o: Ref, list: ListName, ghost sc: Scope)
      requires Marking(sc) && o in heap && Linkable(heap[o]) && o in color && color[o].Black?
      modifies `color, `gray, `grayagain, `weak, `allweak, `ephemeron
      ensures Marking(sc) && color == old(color)[o := Gray] && Marked(color) == Marked(old(color))
      ensures gray == Pushed(list, InGray, o, old(gray))
      ensures grayagain == Pushed(list, InGrayAgain, o, old(grayagain))
      ensures weak == Pushed(list, InWeakList, o, old(weak))
      ensures allweak == Pushed(list, InAllWeakList, o, old(allweak))
      ensures ephemeron == Pushed(list, InEphemeronList, o, old(ephemeron))
    {
      hide MarkInv, Sum;
      PutBack(heap, color, white, GrayLists(), twups, sc, o);
      SumPushed(list, o, gray, grayagain, weak, allweak, ephemeron);
      color := color[o := Gray];
      match list {
        case InGray => gray := [o] + gray;
        case InGrayAgain => grayagain := [o] + grayagain;
        case InWeakList => weak := [o] + weak;
        case InAllWeakList => allweak := [o] + allweak;
        case InEphemeronList => ephemeron := [o] + ephemeron;
      }
    }

    /** `setempty` and `clearkey`: entry `i` of a table has no value any more, and at most a dead key. */
    method RemoveEntry(o: Ref, i: nat, ghost sc: Scope)
      requires Marking(sc) && o in heap && heap[o].Table? && i < |heap[o].nodes|
      requires var n := heap[o].nodes[i];
               n.val.Nil? || (Clearable(heap[o].weakness, n) && !NodeIn(n, Marked(color)))
      modifies `heap
      ensures Marking(sc) && OnlyNode(old(heap), heap, o, i) && TrimmedTable(old(heap), heap, o)
      ensures ClearStep(old(heap), color, heap, color)
      ensures old(heap)[o].nodes[i].val.Nil? ==> SameTable(old(heap), heap, o)
      ensures heap[o].nodes[i].val.Nil? && !heap[o].nodes[i].key.LiveKey?
    {
      hide MarkInv, GrayLists;
      var t := heap[o];
      var t' := t.(nodes := t.nodes[i := Node(ClearedKey(t.nodes[i].key), Nil)]);
      PruneOne(heap, color, white, GrayLists(), twups, sc, o, t');
      heap := heap[o := t'];
    }

    /** `iscleared`: strings are values, so they are marked instead of cleared. */
    method IsCleared(v: Value, ghost sc: Scope) returns (cleared: bool)
      requires Marking(sc) && ValueIn(v, heap.Keys) && StringIn(heap, v, sc.bound)
      modifies `color
      ensures Marking(sc) && MarkStep(heap, old(color), gray, color, gray)
      ensures forall r :: r in Marked(color) && r !in Marked(old(color)) ==> IsStr(heap, r)
      ensures cleared <==> v.Gc? && !IsStr(heap, v.ref) && v.ref !in Marked(color)
      ensures !cleared ==> ValueIn(v, Marked(color))
    {
      hide MarkInv, GrayLists;
      MarkInvBasics(heap, color, white, GrayLists(), twups, sc);
      if !v.Gc? {
        return false;
      } else if heap[v.ref].Str? {
        if IsWhite(color[v.ref]) {
          MarkBlack(v.ref, sc);
        }
        return false;
      } else {
        return IsWhite(color[v.ref]);
      }
    }

    /** One entry of the hash part in a strong traversal. */
    method TraverseStrongNode(o: Ref, i: nat, ghost sc: Scope)
      requires Marking(sc) && o in heap && heap[o].Table? && i < |heap[o].nodes|
      requires heap[o].weakness.Strong? && o in sc.bound && o !in sc.but && o in color && color[o].Black?
      modifies `heap, `color, `gray
      ensures Marking(sc) && NodeStep(old(heap), heap, o, i)
      ensures MarkStep(old(heap), old(color), old(gray), color, gray)
      ensures NodeDone(heap[o].nodes[i], Marked(color))
    {
      hide MarkInv, GrayLists;
      var node := heap[o].nodes[i];
      BoundAtNode(heap, color, white, GrayLists(), twups, sc, o, i);
      HeapTidiedReflexive(heap);
      assert Pruned(heap[o], heap[o]);
      if node.val.Nil? {
        RemoveEntry(o, i, sc);
      } else {
        if node.key.LiveKey? { MarkValue(Gc(node.key.ref), sc); }
        ghost var c, g := color, gray;
        MarkValue(node.val, sc);
        MarkStepTransitive(heap, old(color), old(gray), c, g, color, gray);
      }
    }

    method TraverseStrongTable(o: Ref, ghost sc: Scope)
      requires Marking(Visiting(sc, o)) && o in heap && heap[o].Table? && o in color && color[o].Black?
      requires heap[o].weakness.Strong? && o in sc.bound && o !in sc.but && ValueIn(heap[o].metatable, Marked(color))
      modifies `heap, `color, `gray
      ensures Marking(sc) && HeapTidied(old(heap), heap)
      ensures Marked(old(color)) <= Marked(color)
      ensures gray == old(gray) || Marked(old(color)) < Marked(color)
    {
      hide MarkInv, GrayLists, HeapPruned, Keeps, NodeTraced;
      ghost var ins := Visiting(sc, o);
      BoundAtTable(heap, color, white, GrayLists(), twups, ins, o);
      MarkValues(heap[o].arr, ins);
      ghost var c0 := color;
      HeapTidiedReflexive(heap);
      var n := |heap[o].nodes|;
      for i := 0 to n
        invariant Marking(ins) && SameTable(old(heap), heap, o) && o in color && color[o].Black?
        invariant heap[o].arr == old(heap)[o].arr && Marked(c0) <= Marked(color)
        invariant gray == old(gray) || Marked(old(color)) < Marked(color)
        invariant forall k :: 0 <= k < i ==> NodeDone(heap[o].nodes[k], Marked(color))
      {
        ghost var h := heap;
        TraverseStrongNode(o, i, ins);
        SameTableTransitive(old(heap), h, heap, o);
      }
      Retire(heap, color, white, GrayLists(), twups, ins, o, sc.active);
    }

    method TraverseWeakNode(o: Ref, i: nat, before: bool, ghost sc: Scope) returns (hasclears: bool)
      requires Marking(sc) && o in heap && heap[o].Table? && i < |heap[o].nodes|
      requires heap[o].weakness.WeakValues? && o in sc.bound && o !in sc.but && o in color && color[o].Black?
      modifies `heap, `color, `gray
      ensures Marking(sc) && NodeStep(old(heap), heap, o, i)
      ensures MarkStep(old(heap), old(color), old(gray), color, gray)
      ensures WeakNodeDone(heap[o].nodes[i], Marked(color))
      ensures !hasclears ==> !before && ValueIn(heap[o].nodes[i].val, Marked(color))
    {
      hide MarkInv, GrayLists;
      hasclears := before;
      var node := heap[o].nodes[i];
      BoundAtNode(heap, color, white, GrayLists(), twups, sc, o, i);
      HeapTidiedReflexive(heap);
      assert Pruned(heap[o], heap[o]);
      if node.val.Nil? {
        RemoveEntry(o, i, sc);
      } else {
        if node.key.LiveKey? { MarkValue(Gc(node.key.ref), sc); }
        if !hasclears {
          ghost var c, g := color, gray;
          hasclears := IsCleared(node.val, sc);
          MarkStepTransitive(heap, old(color), old(gray), c, g, color, gray);
        }
      }
    }

    method TraverseWeakValue(o: Ref, ghost sc: Scope)
      requires Marking(Visiting(sc, o)) && o in heap && heap[o].Table? && o in color && color[o].Black?
      requires heap[o].weakness.WeakValues? && o in sc.bound && o !in sc.but
      requires ValueIn(heap[o].metatable, Marked(color))
      modifies `heap, `color, `gray, `grayagain, `weak, `allweak, `ephemeron
      ensures Marking(sc) && HeapTidied(old(heap), heap) && o in heap
      ensures Marked(old(color)) <= Marked(color)
      ensures gray == old(gray) || Marked(old(color)) < Marked(color)
      ensures allweak == old(allweak) && ephemeron == old(ephemeron)
      ensures (&& grayagain == [o] + old(grayagain) && weak == old(weak) && heap[o].Table?
               && (phase.InAtomic? ==> Within(heap[o], Marked(color))))
           || (&& phase.InAtomic? && grayagain == old(grayagain) && weak == [o] + old(weak)
               && InWeak(heap[o], Marked(color)))
    {
      hide MarkInv, GrayLists, HeapPruned, Keeps, NodeTraced, InWeak, Within, WeakNodeDone;
      ghost var ins := Visiting(sc, o);
      var hasclears := TraverseWeakNodes(o, ins);
      WeakDone(heap[o], Marked(color), hasclears);
      LinkGcList(o, if phase.InAtomic? && hasclears then InWeakList else InGrayAgain, ins);
      Retire(heap, color, white, GrayLists(), twups, ins, o, sc.active);
    }

    /** The loop over the hash part of a table with weak values. */
    method TraverseWeakNodes(o: Ref, ghost ins: Scope) returns (hasclears: bool)
      requires Marking(ins) && o in heap && heap[o].Table? && o in color && color[o].Black?
      requires heap[o].weakness.WeakValues? && o in ins.bound && o !in ins.but
      modifies `heap, `color, `gray
      ensures Marking(ins) && SameTable(old(heap), heap, o) && o in color && color[o].Black?
      ensures heap[o].arr == old(heap)[o].arr && Marked(old(color)) <= Marked(color)
      ensures gray == old(gray) || Marked(old(color)) < Marked(color)
      ensures forall k :: 0 <= k < |heap[o].nodes| ==> WeakNodeDone(heap[o].nodes[k], Marked(color))
      ensures !hasclears ==> heap[o].arr == []
      ensures !hasclears ==> forall k :: 0 <= k < |heap[o].nodes| ==> ValueIn(heap[o].nodes[k].val, Marked(color))
    {
      hide MarkInv, GrayLists, HeapPruned, Keeps, NodeTraced;
      hasclears := |heap[o].arr| > 0;
      var n := |heap[o].nodes|;
      HeapTidiedReflexive(heap);
      assert Pruned(heap[o], heap[o]);
      for i := 0 to n
        invariant Marking(ins) && SameTable(old(heap), heap, o) && o in color && color[o].Black?
        invariant heap[o].arr == old(heap)[o].arr && Marked(old(color)) <= Marked(color)
        invariant gray == old(gray) || Marked(old(color)) < Marked(color)
        invariant forall k :: 0 <= k < i ==> WeakNodeDone(heap[o].nodes[k], Marked(color))
        invariant !hasclears ==> heap[o].arr == []
        invariant !hasclears ==> forall k :: 0 <= k < i ==> ValueIn(heap[o].nodes[k].val, Marked(color))
      {
        ghost var h := heap;
        hasclears := TraverseWeakNode(o, i, hasclears, ins);
        SameTableTransitive(old(heap), h, heap, o);
      }
    }

    lemma WeakDone(t: Object, marked: set<Ref>, hasclears: bool)
      requires t.Table? && t.weakness.WeakValues? && ValueIn(t.metatable, marked)
      requires forall k :: 0 <= k < |t.nodes| ==> WeakNodeDone(t.nodes[k], marked)
      requires !hasclears ==> t.arr == [] && forall k :: 0 <= k < |t.nodes| ==> ValueIn(t.nodes[k].val, marked)
      ensures InWeak(t, marked) && (!hasclears ==> Within(t, marked))
    {
    }

    method TraverseEphemeronNode(o: Ref, i: nat, before: Findings, ghost sc: Scope) returns (f: Findings)
      requires Marking(sc) && o in heap && heap[o].Table? && i < |heap[o].nodes|
      requires heap[o].weakness.Ephemeron? && o in sc.bound && o !in sc.but && o in color && color[o].Black?
      modifies `heap, `color, `gray
      ensures Marking(sc) && NodeStep(old(heap), heap, o, i)
      ensures MarkStep(old(heap), old(color), old(gray), color, gray)
      ensures EphNodeDone(heap, Marked(color), heap[o].nodes[i], f)
      ensures FindingsGrow(old(heap), old(color), before, color, f)
      ensures !f.marked ==> gray == old(gray)
    {
      hide MarkInv, GrayLists;
      f := before;
      var node := heap[o].nodes[i];
      BoundAtNode(heap, color, white, GrayLists(), twups, sc, o, i);
      HeapTidiedReflexive(heap);
      assert Pruned(heap[o], heap[o]);
      if node.val.Nil? {
        RemoveEntry(o, i, sc);
      } else {
        var cleared := IsCleared(if node.key.LiveKey? then Gc(node.key.ref) else Plain, sc);
        if cleared {
          f := f.(hasclears := true);
          if node.val.Gc? && IsWhite(color[node.val.ref]) {
            f := f.(hasww := true);
          }
        } else if node.val.Gc? && IsWhite(color[node.val.ref]) {
          ghost var c, g := color, gray;
          f := f.(marked := true);
          ReallyMark(node.val.ref, sc);
          MarkStepTransitive(heap, old(color), old(gray), c, g, color, gray);
        }
      }
    }

    /** The array part of an ephemeron table; `marked` tells whether there was anything to mark. */
    method TraverseEphemeronArray(vs: seq<Value>, ghost sc: Scope) returns (marked: bool)
      requires Marking(sc) && ValuesIn(vs, heap.Keys) && ValuesIn(vs, sc.bound)
      modifies `color, `gray
      ensures Marking(sc) && MarkStep(heap, old(color), old(gray), color, gray)
      ensures ValuesIn(vs, Marked(color))
      ensures if marked then Marked(old(color)) < Marked(color) else color == old(color) && gray == old(gray)
    {
      hide MarkInv, GrayLists, Grew, Linked, HeapClosed, Marked;
      MarkInvBasics(heap, color, white, GrayLists(), twups, sc);
      MarkStepReflexive(heap, color, gray);
      marked := false;
      for i := 0 to |vs|
        invariant Marking(sc) && MarkStep(heap, old(color), old(gray), color, gray)
        invariant color.Keys == heap.Keys
        invariant if marked then Marked(old(color)) < Marked(color) else color == old(color) && gray == old(gray)
        invariant forall k :: 0 <= k < i ==> ValueIn(vs[k], Marked(color))
      {
        if vs[i].Gc? && IsWhite(color[vs[i].ref]) {
          marked := true;
          ghost var c, g := color, gray;
          MarkValue(vs[i], sc);
          MarkInvBasics(heap, color, white, GrayLists(), twups, sc);
          MarkStepTransitive(heap, old(color), old(gray), c, g, color, gray);
        } else {
          AlreadyMarked(color, vs[i]);
        }
      }
    }

    /** Links an ephemeron table into the list its traversal calls for. */
    method LinkEphemeron(o: Ref, f: Findings, ghost sc: Scope)
      requires Marking(Visiting(sc, o)) && o in heap && heap[o].Table? && o in color && color[o].Black?
      requires heap[o].weakness.Ephemeron?
      requires ValueIn(heap[o].metatable, Marked(color)) && ValuesIn(heap[o].arr, Marked(color))
      requires forall k :: 0 <= k < |heap[o].nodes| ==> EphNodeDone(heap, Marked(color), heap[o].nodes[k], f)
      modifies `color, `gray, `grayagain, `weak, `allweak, `ephemeron
      ensures Marking(sc) && Marked(color) == Marked(old(color)) && gray == old(gray) && weak == old(weak)
      ensures if phase.Propagate? then
                grayagain == [o] + old(grayagain) && allweak == old(allweak) && ephemeron == old(ephemeron)
              else
                && grayagain == old(grayagain)
                && EphemeronPlaced(heap, Marked(color), o, f, old(allweak), old(ephemeron), allweak, ephemeron)
    {
      hide MarkInv, GrayLists, NodeTraced, Settled;
      if phase.Propagate? {
        LinkGcList(o, InGrayAgain, Visiting(sc, o));
      } else if f.hasww {
        LinkGcList(o, InEphemeronList, Visiting(sc, o));
      } else if f.hasclears {
        LinkGcList(o, InAllWeakList, Visiting(sc, o));
      }
      Retire(heap, color, white, GrayLists(), twups, Visiting(sc, o), o, sc.active);
    }

    /** `f.marked` tells whether anything but a string was marked. */
    method TraverseEphemeron(o: Ref, inv: bool, ghost sc: Scope) returns (f: Findings)
      requires Marking(Visiting(sc, o)) && o in heap && heap[o].Table? && o in color && color[o].Black?
      requires heap[o].weakness.Ephemeron? && o in sc.bound && o !in sc.but
      requires ValueIn(heap[o].metatable, Marked(color))
      modifies `heap, `color, `gray, `grayagain, `weak, `allweak, `ephemeron
      ensures Marking(sc) && HeapTidied(old(heap), heap) && o in heap && heap[o].Table?
      ensures Marked(old(color)) <= Marked(color)
      ensures gray == old(gray) || Marked(old(color)) < Marked(color)
      ensures if f.marked then Marked(old(color)) < Marked(color)
              else OnlyStrings(old(heap), old(color), color) && gray == old(gray)
      ensures weak == old(weak)
      ensures if phase.Propagate? then
                grayagain == [o] + old(grayagain) && allweak == old(allweak) && ephemeron == old(ephemeron)
              else
                && grayagain == old(grayagain)
                && EphemeronPlaced(heap, Marked(color), o, f, old(allweak), old(ephemeron), allweak, ephemeron)
    {
      hide MarkInv, GrayLists, HeapPruned, Keeps, NodeTraced, Settled, EphNodeDone, EphemeronPlaced, InEphemeron;
      ghost var ins := Visiting(sc, o);
      BoundAtTable(heap, color, white, GrayLists(), twups, ins, o);
      var marked := TraverseEphemeronArray(heap[o].arr, ins);
      f := TraverseEphemeronNodes(o, inv, Findings(marked, false, false), ins);
      LinkEphemeron(o, f, sc);
    }

    /** The hash part, in one direction or the other. */
    method TraverseEphemeronNodes(o: Ref, inv: bool, before: Findings, ghost sc: Scope) returns (f: Findings)
      requires Marking(sc) && o in heap && heap[o].Table? && o in color && color[o].Black?
      requires heap[o].weakness.Ephemeron? && o in sc.bound && o !in sc.but
      modifies `heap, `color, `gray
      ensures Marking(sc) && SameTable(old(heap), heap, o) && o in color && color[o].Black?
      ensures heap[o].arr == old(heap)[o].arr
      ensures gray == old(gray) || Marked(old(color)) < Marked(color)
      ensures FindingsGrow(old(heap), old(color), before, color, f)
      ensures !f.marked ==> gray == old(gray)
      ensures forall k :: 0 <= k < |heap[o].nodes| ==> EphNodeDone(heap, Marked(color), heap[o].nodes[k], f)
    {
      hide MarkInv, GrayLists, HeapPruned, Keeps, NodeTraced, EphNodeDone;
      f := before;
      var n := |heap[o].nodes|;
      HeapTidiedReflexive(heap);
      assert Pruned(heap[o], heap[o]);
      for i := 0 to n
        invariant Marking(sc) && SameTable(old(heap), heap, o) && o in color && color[o].Black?
        invariant heap[o].arr == old(heap)[o].arr
        invariant gray == old(gray) || Marked(old(color)) < Marked(color)
        invariant FindingsGrow(old(heap), old(color), before, color, f)
        invariant !f.marked ==> gray == old(gray)
        invariant forall k :: 0 <= k < n && (if inv then k >= n - i else k < i) ==>
          EphNodeDone(heap, Marked(color), heap[o].nodes[k], f)
      {
        ghost var h, c, f0 := heap, color, f;
        var j := if inv then n - 1 - i else i;
        f := TraverseEphemeronNode(o, j, f, sc);
        SameTableTransitive(old(heap), h, heap, o);
        FindingsGrowTransitive(old(heap), h, old(color), before, c, f0, color, f);
        forall k | 0 <= k < n && k != j && (if inv then k >= n - i else k < i)
          ensures EphNodeDone(heap, Marked(color), heap[o].nodes[k], f)
        {
          EphNodeStays(h, heap, c, color, heap[o].nodes[k], f0, f);
        }
      }
    }

    method TraverseTable(o: Ref, ghost sc: Scope)
      requires Marking(Visiting(sc, o)) && ListsIn(sc.but) && (phase.Propagate? || (phase.InAtomic? && !sc.inc))
      requires o in heap && heap[o].Table? && o in color && color[o].Black? && o in sc.bound && o !in sc.but
      modifies `heap, `color, `gray, `grayagain, `weak, `allweak, `ephemeron
      ensures Marking(sc) && ListsIn(sc.but) && HeapTidied(old(heap), heap)
      ensures Marked(old(color)) <= Marked(color)
      ensures gray == old(gray) || Marked(old(color)) < Marked(color)
      ensures SuffixOf(old(weak), weak) && SuffixOf(old(allweak), allweak)
      ensures old(heap)[o].weakness.AllWeak? ==> o in allweak
    {
      hide MarkInv, GrayLists, HeapPruned, Keeps, ListsOk, InEphemeron, InWeak, Within, Linked, SuffixOf, StringsIn,
           TracedIn, Marked, ValueIn, Pruned;
      ghost var ins := Visiting(sc, o);
      ghost var h := heap;
      BoundAtTable(heap, color, white, GrayLists(), twups, ins, o);
      HeapTidiedReflexive(heap);
      MarkValue(heap[o].metatable, ins);
      ghost var again, w, all, eph := grayagain, weak, allweak, ephemeron;
      match heap[o].weakness {
        case WeakValues =>
          TraverseWeakValue(o, sc);
        case Ephemeron =>
          var _ := TraverseEphemeron(o, false, sc);
        case AllWeak(_) =>
          LinkGcList(o, InAllWeakList, ins);
          Retire(heap, color, white, GrayLists(), twups, ins, o, sc.active);
        case Strong =>
          TraverseStrongTable(o, sc);
      }
      ListsOkLater(h, heap, old(color), color, phase.InAtomic?, again, w, all, eph, sc.but);
      ListsOkPlaced(heap, color, phase.InAtomic?, o, again, w, all, eph, grayagain, weak, allweak, ephemeron, sc.but);
    }

    /** The objects that are always traversed in full: userdata, threads, closures and prototypes. */
    method TraverseOther(o: Ref, ghost sc: Scope)
      requires Marking(Visiting(sc, o)) && ListsIn(sc.but) && TwupsOk(heap, color, twups, sc.lax)
      requires o in heap && !heap[o].Table? && Linkable(heap[o]) && o in color && color[o].Black?
      requires o in sc.bound && o !in sc.but && (phase.Propagate? || (phase.InAtomic? && !sc.inc))
      modifies `heap, `color, `gray, `grayagain, `weak, `allweak, `ephemeron, `twups
      ensures Tracing(sc) && HeapTidied(old(heap), heap)
      ensures Marked(old(color)) <= Marked(color)
      ensures gray == old(gray) || Marked(old(color)) < Marked(color)
      ensures weak == old(weak) && allweak == old(allweak)
    {
      hide MarkInv, Sum, Pruned, ListsOk, TwupsOk, Grew;
      ghost var h, c, again, tw := heap, color, grayagain, twups;
      HeapTidiedReflexive(heap);
      match heap[o] {
        case Userdata(_, _) => TraverseUdata(o, sc);
        case Thread(_, _, _) => TraverseThread(o, sc);
        case Record(_) => TraverseRecord(o, sc);
      }
      ListsOkLater(h, heap, c, color, phase.InAtomic?, again, weak, allweak, ephemeron, sc.but);
      ListsOkThread(heap, color, phase.InAtomic?, again, grayagain, weak, allweak, ephemeron, sc.but);
      TwupsOkLater(h, heap, c, color, tw, sc.lax);
      TwupsOkMore(heap, color, tw, twups, sc.lax, o);
    }

    /** Traverses one gray object. */
    method PropagateMark(ghost sc: Scope)
      requires Tracing(sc) && gray != [] && (phase.Propagate? || (phase.InAtomic? && !sc.inc))
      modifies `heap, `color, `gray, `grayagain, `weak, `allweak, `ephemeron, `twups
      ensures Tracing(sc) && HeapTidied(old(heap), heap) && color.Keys == old(color).Keys
      ensures Marked(old(color)) <= Marked(color)
      ensures gray == old(gray)[1..] || Marked(old(color)) < Marked(color)
      ensures SuffixOf(old(weak), weak) && SuffixOf(old(allweak), allweak)
      ensures old(gray[0] in heap && heap[gray[0]].Table? && heap[gray[0]].weakness.AllWeak?) ==>
        old(gray)[0] in allweak
    {
      hide MarkInv, Sum, Pruned, ListsOk, TwupsOk;
      GrayHead(heap, color, white, twups, sc, phase.InAtomic?, gray, grayagain, weak, allweak, ephemeron);
      var o := gray[0];
      TakeOut(heap, color, white, GrayLists(), twups, sc, o);
      ghost var h, c := heap, color;
      color, gray := color[o := Black], gray[1..];
      ListsOkGrows(heap, c, color, phase.InAtomic?, grayagain, weak, allweak, ephemeron, sc.but);
      HeapTidiedReflexive(heap);
      TwupsOkLater(heap, heap, c, color, twups, sc.lax);
      ghost var c1 := color;
      if heap[o].Table? {
        TraverseTable(o, sc);
        TwupsOkLater(h, heap, c1, color, twups, sc.lax);
      } else {
        TraverseOther(o, sc);
      }
      MarkInvBasics(heap, color, white, GrayLists(), twups, sc);
    }

    method PropagateAll(ghost sc: Scope)
      requires Tracing(sc) && phase.InAtomic? && !sc.inc
      modifies `heap, `color, `gray, `grayagain, `weak, `allweak, `ephemeron, `twups
      ensures Tracing(sc) && gray == [] && HeapTidied(old(heap), heap) && color.Keys == old(color).Keys
      ensures Marked(old(color)) <= Marked(color)
      ensures old(gray) == [] ==> color == old(color) && heap == old(heap)
      ensures SuffixOf(old(weak), weak) && SuffixOf(old(allweak), allweak)
    {
      hide MarkInv, Pruned, ListsOk, TwupsOk;
      HeapTidiedReflexive(heap);
      while gray != []
        invariant Tracing(sc) && HeapTidied(old(heap), heap) && color.Keys == old(color).Keys
        invariant Marked(old(color)) <= Marked(color)
        invariant old(gray) == [] ==> gray == [] && color == old(color) && heap == old(heap)
        invariant SuffixOf(old(weak), weak) && SuffixOf(old(allweak), allweak)
        decreases Whites(), |gray|
      {
        ghost var h, w, a := heap, weak, allweak;
        PropagateMark(sc);
        HeapTidiedTransitive(old(heap), h, heap);
        SuffixTransitive(old(weak), w, weak);
        SuffixTransitive(old(allweak), a, allweak);
      }
    }

    /**
     Threads that are not marked will not be traversed: the values of their upvalues that are already
     marked are marked here, and the threads leave the list.
     */
    method RemarkUpvals(ghost sc: Scope)
      requires Tracing(sc) && sc.active == {}
      modifies `color, `gray, `twups
      ensures Tracing(sc.(lax := {})) && Marked(old(color)) <= Marked(color) && color.Keys == old(color).Keys
    {
      hide MarkInv, GrayLists, ListsOk, HasOpen, Linked, HeapClosed, TwupsOk;
      ghost var lax := sc.lax;
      var kept, rest := [], twups;
      TwupsOkThreads(heap, color, twups, lax);
      MarkInvBasics(heap, color, white, GrayLists(), twups, sc);
      while rest != []
        invariant Marking(sc.(lax := lax)) && twups == kept + rest
        invariant Marked(old(color)) <= Marked(color) && color.Keys == heap.Keys
        invariant forall th :: th in kept ==> th in Marked(color)
        invariant forall th :: th in twups ==> th in heap && heap[th].Thread?
        invariant forall th :: HasOpen(heap, th, lax) ==> th in rest
        decreases |rest|
      {
        var th := rest[0];
        assert twups == kept + [th] + rest[1..];
        ghost var us := set u | u in heap[th].openupval;
        if !IsWhite(color[th]) && heap[th].openupval != [] {
          DropThread(heap, color, white, GrayLists(), twups, sc.(lax := lax), th, lax - us);
          kept := kept + [th];
        } else {
          FewerTwups(heap, color, white, GrayLists(), twups, sc.(lax := lax), th, kept + rest[1..]);
          twups := kept + rest[1..];
          RemarkThread(th, sc.(lax := lax));
        }
        NoOpenLeft(heap, th, lax, us);
        lax := lax - us;
        rest := rest[1..];
      }
      NoLaxLeft(heap, color, white, GrayLists(), twups, sc.(lax := lax));
      TwupsOkAllMarked(heap, color, twups);
      ListsOkGrows(heap, old(color), color, phase.InAtomic?, grayagain, weak, allweak, ephemeron, sc.but);
    }

    /** The upvalues of one thread that is not marked (or has none). */
    method RemarkThread(th: Ref, ghost sc: Scope)
      requires Marking(sc) && th in heap && heap[th].Thread?
      modifies `color, `gray
      ensures Marking(sc.(lax := sc.lax - (set u | u in heap[th].openupval)))
      ensures Marked(old(color)) <= Marked(color) && color.Keys == heap.Keys
    {
      hide MarkInv, GrayLists, Grew, Linked, HeapClosed, Traced;
      var open := heap[th].openupval;
      ghost var lax := sc.lax;
      MarkInvBasics(heap, color, white, GrayLists(), twups, sc);
      for i := 0 to |open|
        invariant Marking(sc.(lax := lax)) && Marked(old(color)) <= Marked(color) && color.Keys == heap.Keys
        invariant forall u :: u in lax <==> u in sc.lax && u !in open[..i]
      {
        ghost var sc' := sc.(lax := lax);
        var u := open[i];
        OpenOfThread(heap, color, white, GrayLists(), twups, sc', th, i);
        if !IsWhite(color[u]) {
          MarkValue(heap[th].stack[heap[u].level], sc');
          MarkInvBasics(heap, color, white, GrayLists(), twups, sc');
        }
        DropLax(heap, color, white, GrayLists(), twups, sc', lax - {u});
        lax := lax - {u};
      }
      assert lax == sc.lax - (set u | u in heap[th].openupval);
    }

    /** Takes an ephemeron table from the old list, to be traversed. */
    method TakeEphemeron(next: seq<Ref>, ghost sc: Scope)
      requires next != [] && sc.pending == multiset(next) && Tracing(sc) && phase.InAtomic?
      requires next[0] in heap && InEphemeron(heap[next[0]], Marked(color))
      modifies `color
      ensures var o, sc' := next[0], sc.(pending := multiset(next[1..]));
              && Marking(Visiting(sc', o)) && ListsIn(sc.but) && TwupsOk(heap, color, twups, sc.lax)
              && o in heap && heap[o].Table? && heap[o].weakness.Ephemeron?
              && o in color && color[o].Black? && o in sc.bound && o !in sc.but
              && ValueIn(heap[o].metatable, Marked(color))
      ensures Marked(color) == Marked(old(color))
    {
      hide MarkInv, Sum, ListsOk, InEphemeron, TwupsOk, Marked, ValueIn;
      var w := next[0];
      ghost var c := color;
      TakeOutPending(heap, color, white, twups, sc, true, next, gray, grayagain, weak, allweak, ephemeron);
      EphemeronBasics(heap, Marked(color), w);
      color := color[w := Black];
      HeapTidiedReflexive(heap);
      ListsOkGrows(heap, c, color, true, grayagain, weak, allweak, ephemeron, sc.but);
      TwupsOkLater(heap, heap, c, color, twups, sc.lax);
    }

    /** Takes an ephemeron table from the old list and traverses it. */
    method RevisitEphemeron(next: seq<Ref>, dir: bool, ghost sc: Scope) returns (f: Findings)
      requires next != [] && sc.pending == multiset(next)
      requires Tracing(sc) && phase.InAtomic? && gray == []
      requires next[0] in heap && InEphemeron(heap[next[0]], Marked(color))
      modifies `heap, `color, `gray, `grayagain, `weak, `allweak, `ephemeron
      ensures Tracing(sc.(pending := multiset(next[1..])))
      ensures HeapTidied(old(heap), heap) && Marked(old(color)) <= Marked(color)
      ensures if f.marked then Marked(old(color)) < Marked(color)
              else OnlyStrings(old(heap), old(color), color) && gray == []
      ensures weak == old(weak) && SuffixOf(old(allweak), allweak)
      ensures EphemeronPlaced(heap, Marked(color), next[0], f, old(allweak), old(ephemeron), allweak, ephemeron)
    {
      hide MarkInv, Sum, HeapPruned, Keeps, ListsOk, InEphemeron, TwupsOk, Marked, EphemeronPlaced, Placed, SuffixOf,
           ValueIn;
      var w := next[0];
      TakeEphemeron(next, sc);
      ghost var sc' := sc.(pending := multiset(next[1..]));
      ghost var h, c, eph, all := heap, color, ephemeron, allweak;
      f := TraverseEphemeron(w, dir, sc');
      EphemeronRevisited(h, heap, c, color, w, f, grayagain, weak, all, eph, allweak, ephemeron, twups, sc);
    }

    /** One round: every table of the list is visited again; new marks are propagated at once. */
    method ConvergeRound(dir: bool, ghost sc: Scope) returns (changed: bool)
      requires Tracing(sc) && phase.InAtomic? && gray == [] && sc.pending == multiset{} && !sc.inc
      modifies `heap, `color, `gray, `grayagain, `weak, `allweak, `ephemeron, `twups
      ensures Tracing(sc) && gray == []
      ensures HeapTidied(old(heap), heap) && color.Keys == old(color).Keys && Marked(old(color)) <= Marked(color)
      ensures SuffixOf(old(weak), weak) && SuffixOf(old(allweak), allweak)
      ensures if changed then Marked(old(color)) < Marked(color)
              else OnlyStrings(old(heap), old(color), color) && SettledList(heap, color, ephemeron)
    {
      hide MarkInv, Sum, HeapPruned, Keeps, ListsOk, InEphemeron, TwupsOk, Marked, OnlyStrings, EphemeronPlaced,
           SuffixOf, SettledTable, Linked, HeapClosed;
      var next := ephemeron;
      MarkInvBasics(heap, color, white, GrayLists(), twups, sc);
      StartRound(heap, color, white, twups, sc, gray, grayagain, weak, allweak, ephemeron);
      ephemeron := [];
      changed := false;
      HeapTidiedReflexive(heap);
      OnlyStringsReflexive(heap, color);
      SuffixReflexive(weak);
      SuffixReflexive(allweak);
      assert SettledList(heap, color, ephemeron);
      while next != []
        invariant Tracing(sc.(pending := multiset(next))) && gray == []
        invariant forall o :: o in next ==> o in heap && InEphemeron(heap[o], Marked(color))
        invariant HeapTidied(old(heap), heap) && color.Keys == old(color).Keys
        invariant Marked(old(color)) <= Marked(color)
        invariant SuffixOf(old(weak), weak) && SuffixOf(old(allweak), allweak)
        invariant if changed then Marked(old(color)) < Marked(color)
                  else OnlyStrings(old(heap), old(color), color) && SettledList(heap, color, ephemeron)
        decreases |next|
      {
        ghost var h, c, w, all, eph := heap, color, weak, allweak, ephemeron;
        var f := RevisitEphemeron(next, dir, sc.(pending := multiset(next)));
        ghost var h1, c1, w1, all1 := heap, color, weak, allweak;
        if f.marked {
          PropagateAll(sc.(pending := multiset(next[1..])));
          changed := true;
          SuffixTransitive(old(weak), w1, weak);
          SuffixTransitive(all, all1, allweak);
          HeapTidiedTransitive(h, h1, heap);
        } else if !changed {
          SettledRound(old(heap), h, heap, old(color), c, color, next[0], f, all, eph, allweak, ephemeron);
        }
        SuffixTransitive(old(allweak), all, allweak);
        HeapTidiedTransitive(old(heap), h, heap);
        PrunedKeys(old(heap), heap);
        EphemeronsLater(h, heap, c, color, next);
        MarkInvBasics(heap, color, white, GrayLists(), twups, sc.(pending := multiset(next[1..])));
        next := next[1..];
      }
    }

    /**
     Visits all ephemeron tables until nothing new is marked. Each round but the last marks something,
     so this ends; then every entry whose key holds it has its value marked.
     */
    method ConvergeEphemerons(ghost sc: Scope)
      requires Tracing(sc) && phase.InAtomic? && gray == [] && sc.pending == multiset{} && !sc.inc
      modifies `heap, `color, `gray, `grayagain, `weak, `allweak, `ephemeron, `twups
      ensures Tracing(sc) && gray == [] && SettledList(heap, color, ephemeron)
      ensures HeapTidied(old(heap), heap) && color.Keys == old(color).Keys && Marked(old(color)) <= Marked(color)
      ensures SuffixOf(old(weak), weak) && SuffixOf(old(allweak), allweak)
    {
      hide MarkInv, Sum, HeapPruned, Keeps, ListsOk, TwupsOk, Marked, OnlyStrings, SuffixOf, SettledList;
      var dir := false;
      var changed := true;
      HeapTidiedReflexive(heap);
      SuffixReflexive(weak);
      SuffixReflexive(allweak);
      while changed
        invariant Tracing(sc) && gray == []
        invariant HeapTidied(old(heap), heap) && color.Keys == old(color).Keys
        invariant Marked(old(color)) <= Marked(color)
        invariant SuffixOf(old(weak), weak) && SuffixOf(old(allweak), allweak)
        invariant !changed ==> SettledList(heap, color, ephemeron)
        decreases Whites(), changed
      {
        ghost var h, c, w, all := heap, color, weak, allweak;
        changed := ConvergeRound(dir, sc);
        HeapTidiedTransitive(old(heap), h, heap);
        SuffixTransitive(old(weak), w, weak);
        SuffixTransitive(old(allweak), all, allweak);
        WhitesShrink(c, color);
        dir := !dir;
      }
    }

    method ClearNodeByKey(o: Ref, i: nat, ghost sc: Scope)
      requires Marking(sc) && o in heap && heap[o].Table? && i < |heap[o].nodes| && o in sc.bound
      requires heap[o].weakness.Ephemeron? || heap[o].weakness.AllWeak?
      modifies `heap, `color
      ensures Marking(sc) && OnlyNode(old(heap), heap, o, i) && TrimmedTable(old(heap), heap, o)
      ensures ClearStep(old(heap), old(color), heap, color)
      ensures NodeKeyOk(heap[o].nodes[i], Marked(color))
    {
      hide MarkInv, GrayLists, HeapPruned;
      var node := heap[o].nodes[i];
      BoundAtNode(heap, color, white, GrayLists(), twups, sc, o, i);
      HeapPrunedReflexive(heap);
      assert TrimmedTable(heap, heap, o);
      var cleared := IsCleared(if node.key.LiveKey? then Gc(node.key.ref) else Plain, sc);
      ghost var h, c := heap, color;
      if cleared || node.val.Nil? {
        RemoveEntry(o, i, sc);
      }
    }

    method ClearNodeByValue(o: Ref, i: nat, ghost sc: Scope)
      requires Marking(sc) && o in heap && heap[o].Table? && i < |heap[o].nodes| && o in sc.bound
      requires MayClear(heap[o], Marked(color))
      modifies `heap, `color
      ensures Marking(sc) && OnlyNode(old(heap), heap, o, i) && TrimmedTable(old(heap), heap, o)
      ensures ClearStep(old(heap), old(color), heap, color)
      ensures NodeValueOk(heap[o].nodes[i], Marked(color))
    {
      hide MarkInv, GrayLists, HeapPruned;
      var node := heap[o].nodes[i];
      BoundAtNode(heap, color, white, GrayLists(), twups, sc, o, i);
      HeapPrunedReflexive(heap);
      assert TrimmedTable(heap, heap, o);
      var cleared := IsCleared(node.val, sc);
      if cleared || node.val.Nil? {
        RemoveEntry(o, i, sc);
      }
    }

    method ClearTableByKeys(o: Ref, ghost sc: Scope)
      requires Marking(sc) && o in heap && heap[o].Table? && o in sc.bound
      requires heap[o].weakness.Ephemeron? || heap[o].weakness.AllWeak?
      modifies `heap, `color
      ensures Marking(sc) && ClearStep(old(heap), old(color), heap, color) && KeysCleared(heap, color, o)
    {
      hide MarkInv, GrayLists, HeapPruned;
      var n := |heap[o].nodes|;
      HeapPrunedReflexive(heap);
      assert TrimmedTable(heap, heap, o);
      for i := 0 to n
        invariant Marking(sc) && TrimmedTable(old(heap), heap, o) && ClearStep(old(heap), old(color), heap, color)
        invariant forall k :: 0 <= k < i ==> NodeKeyOk(heap[o].nodes[k], Marked(color))
      {
        ghost var h, c := heap, color;
        ClearNodeByKey(o, i, sc);
        TrimmedTableTransitive(old(heap), h, heap, o);
        ClearStepTransitive(old(heap), old(color), h, c, heap, color);
      }
    }

    method ClearTableByValues(o: Ref, ghost sc: Scope)
      requires Marking(sc) && o in heap && heap[o].Table? && o in sc.bound && MayClear(heap[o], Marked(color))
      modifies `heap, `color
      ensures Marking(sc) && ClearStep(old(heap), old(color), heap, color) && ValuesCleared(heap, color, o)
      ensures OnlyAt(old(heap), heap, o)
    {
      hide MarkInv, GrayLists, HeapPruned;
      ClearArray(o, sc);
      ghost var h0, c0 := heap, color;
      var n := |heap[o].nodes|;
      HeapPrunedReflexive(heap);
      assert TrimmedTable(heap, heap, o);
      for i := 0 to n
        invariant Marking(sc) && TrimmedTable(h0, heap, o) && ClearStep(h0, c0, heap, color) && heap[o].arr == h0[o].arr
        invariant OnlyAt(h0, heap, o)
        invariant MayClear(heap[o], Marked(color))
        invariant forall k :: 0 <= k < i ==> NodeValueOk(heap[o].nodes[k], Marked(color))
      {
        ghost var h, c := heap, color;
        ClearNodeByValue(o, i, sc);
        MayClearLater(h[o], heap[o], Marked(c), Marked(color));
        TrimmedTableTransitive(h0, h, heap, o);
        ClearStepTransitive(h0, c0, h, c, heap, color);
      }
      ClearStepTransitive(old(heap), old(color), h0, c0, heap, color);
    }

    /** Removes cleared values from the array part. */
    method ClearArray(o: Ref, ghost sc: Scope)
      requires Marking(sc) && o in heap && heap[o].Table? && o in sc.bound && MayClear(heap[o], Marked(color))
      modifies `heap, `color
      ensures Marking(sc) && ClearStep(old(heap), old(color), heap, color)
      ensures o in heap && heap[o].Table? && ValuesIn(heap[o].arr, Marked(color)) && MayClear(heap[o], Marked(color))
      ensures OnlyAt(old(heap), heap, o)
    {
      hide MarkInv, GrayLists, HeapPruned;
      var n := |heap[o].arr|;
      HeapPrunedReflexive(heap);
      for i := 0 to n
        invariant OnlyAt(old(heap), heap, o)
        invariant Marking(sc) && ClearStep(old(heap), old(color), heap, color)
        invariant o in heap && heap[o].Table? && |heap[o].arr| == n && MayClear(heap[o], Marked(color))
        invariant forall k :: 0 <= k < i ==> ValueIn(heap[o].arr[k], Marked(color))
      {
        ghost var h, c := heap, color;
        ClearSlot(o, i, sc);
        MayClearLater(h[o], heap[o], Marked(c), Marked(color));
        ClearStepTransitive(old(heap), old(color), h, c, heap, color);
      }
    }

    method ClearSlot(o: Ref, i: nat, ghost sc: Scope)
      requires Marking(sc) && o in heap && heap[o].Table? && i < |heap[o].arr| && o in sc.bound
      requires MayClear(heap[o], Marked(color))
      modifies `heap, `color
      ensures Marking(sc) && ClearStep(old(heap), old(color), heap, color)
      ensures o in heap && heap[o].Table? && |heap[o].arr| == |old(heap)[o].arr|
      ensures forall k :: 0 <= k < |heap[o].arr| && k != i ==> heap[o].arr[k] == old(heap)[o].arr[k]
      ensures ValueIn(heap[o].arr[i], Marked(color)) && Pruned(old(heap)[o], heap[o]) && OnlyAt(old(heap), heap, o)
    {
      hide MarkInv, GrayLists, Pruned, HeapPruned, MayClear;
      BoundAtTable(heap, color, white, GrayLists(), twups, sc, o);
      HeapPrunedReflexive(heap);
      ghost var h, marked := heap, Marked(color);
      var cleared := IsCleared(heap[o].arr[i], sc);
      if cleared {
        var t := heap[o];
        var t' := t.(arr := t.arr[i := Nil]);
        SlotCleared(h, o, i, marked);
        PruneOne(heap, color, white, GrayLists(), twups, sc, o, t');
        heap := heap[o := t'];
      }
    }

    /** Clearing what is not marked. */
    lemma SlotCleared(h: Heap, o: Ref, i: nat, marked: set<Ref>)
      requires o in h && h[o].Table? && i < |h[o].arr| && MayClear(h[o], marked)
      requires h[o].arr[i].Gc? && h[o].arr[i].ref !in marked
      ensures var t' := h[o].(arr := h[o].arr[i := Nil]);
        Pruned(h[o], t') && Keeps(h, h[o := t'], marked)
    {
    }

    /** Clears entries with unmarked keys from all tables of a list. */
    method ClearByKeys(list: seq<Ref>, ghost sc: Scope)
      requires Tracing(sc) && phase.InAtomic?
      requires forall o :: o in list ==> o in allweak || o in ephemeron
      modifies `heap, `color
      ensures Tracing(sc) && ClearStep(old(heap), old(color), heap, color) && AllKeysCleared(heap, color, list)
    {
      hide MarkInv, Sum, HeapPruned, ListsOk, TwupsOk, KeysCleared, OnlyStrings, Marked;
      HeapPrunedReflexive(heap);
      OnlyStringsReflexive(heap, color);
      for i := 0 to |list|
        invariant Tracing(sc) && ClearStep(old(heap), old(color), heap, color)
        invariant forall k :: 0 <= k < i ==> KeysCleared(heap, color, list[k])
      {
        ghost var h, c := heap, color;
        ListedTable(heap, color, white, twups, sc, true, list[i], gray, grayagain, weak, allweak, ephemeron);
        ClearTableByKeys(list[i], sc);
        Cleared(h, heap, c, color, grayagain, weak, allweak, ephemeron, twups, sc, list[..i], []);
        ClearStepTransitive(old(heap), old(color), h, c, heap, color);
      }
    }

    /** Clears entries with unmarked values from all tables of a list. */
    method ClearByValues(list: seq<Ref>, ghost sc: Scope)
      requires Tracing(sc) && phase.InAtomic?
      requires forall o :: o in list ==> o in weak || o in allweak
      modifies `heap, `color
      ensures Tracing(sc) && ClearStep(old(heap), old(color), heap, color) && AllValuesCleared(heap, color, list)
      ensures Trims(old(heap), heap, Marked(color))
    {
      hide MarkInv, Sum, HeapPruned, ListsOk, TwupsOk, ValuesCleared, OnlyStrings, Marked, Trims, MayClear;
      HeapPrunedReflexive(heap);
      OnlyStringsReflexive(heap, color);
      TrimsReflexive(heap, Marked(color));
      for i := 0 to |list|
        invariant Tracing(sc) && ClearStep(old(heap), old(color), heap, color)
        invariant Trims(old(heap), heap, Marked(color))
        invariant forall k :: 0 <= k < i ==> ValuesCleared(heap, color, list[k])
      {
        ghost var h, c := heap, color;
        ListedTable(heap, color, white, twups, sc, true, list[i], gray, grayagain, weak, allweak, ephemeron);
        ClearTableByValues(list[i], sc);
        OnlyStringsMarks(h, c, heap, color);
        TrimsOne(h, heap, Marked(c), Marked(color), list[i]);
        TrimsTransitive(old(heap), h, heap, Marked(c), Marked(color));
        Cleared(h, heap, c, color, grayagain, weak, allweak, ephemeron, twups, sc, [], list[..i]);
        ClearStepTransitive(old(heap), old(color), h, c, heap, color);
      }
    }

    /** `separatetobefnz`: unmarked objects with a finalizer move, in order, to the end of `tobefnz`. */
    method SeparateToBeFnz()
      requires forall o :: o in finobj ==> o in color
      modifies `finobj, `tobefnz
      ensures finobj == Part(old(finobj), color, false)
      ensures tobefnz == old(tobefnz) + Part(old(finobj), color, true)
    {
      var kept := [];
      for i := 0 to |finobj|
        invariant finobj == old(finobj)
        invariant kept == Part(finobj[..i], color, false)
        invariant tobefnz == old(tobefnz) + Part(finobj[..i], color, true)
      {
        assert finobj[..i + 1][..i] == finobj[..i];
        if IsWhite(color[finobj[i]]) {
          tobefnz := tobefnz + [finobj[i]];
        } else {
          kept := kept + [finobj[i]];
        }
      }
      assert finobj[..|finobj|] == finobj;
      finobj := kept;
    }

    method MarkBeingFnz(ghost sc: Scope)
      requires Marking(sc) && forall i :: 0 <= i < |tobefnz| ==> tobefnz[i] in heap && tobefnz[i] in sc.bound
      modifies `color, `gray
      ensures Marking(sc) && MarkStep(heap, old(color), old(gray), color, gray)
      ensures forall i :: 0 <= i < |tobefnz| ==> tobefnz[i] in Marked(color)
      ensures tobefnz == [] ==> color == old(color) && gray == old(gray)
    {
      hide MarkInv, GrayLists, Grew, Linked, HeapClosed, Marked;
      MarkInvBasics(heap, color, white, GrayLists(), twups, sc);
      MarkStepReflexive(heap, color, gray);
      for i := 0 to |tobefnz|
        invariant Marking(sc) && MarkStep(heap, old(color), old(gray), color, gray)
        invariant forall k :: 0 <= k < i ==> tobefnz[k] in Marked(color)
        invariant tobefnz == [] ==> color == old(color) && gray == old(gray)
      {
        ghost var c, g := color, gray;
        MarkValue(Gc(tobefnz[i]), sc);
        MarkStepTransitive(heap, old(color), old(gray), c, g, color, gray);
      }
    }

    /** The registry holds a table that is not marked, and no basic type has a metatable. */
    predicate RegistryFirst(th: Ref, c: Colors)
      reads `heap, `registry, `mt
    {
      && registry.Gc? && registry.ref in heap && heap[registry.ref].Table? && registry.ref != th
      && registry.ref in c && IsWhite(c[registry.ref]) && forall i :: 0 <= i < |mt| ==> !mt[i].Gc?
    }

    /** The roots that may change without a barrier. */
    method MarkGlobals(th: Ref, ghost sc: Scope)
      requires Marking(sc) && th in heap && th in sc.bound
      requires ValueIn(registry, heap.Keys) && ValueIn(registry, sc.bound)
      requires ValuesIn(mt, heap.Keys) && ValuesIn(mt, sc.bound)
      modifies `color, `gray
      ensures Marking(sc) && MarkStep(heap, old(color), old(gray), color, gray)
      ensures th in Marked(color) && ValueIn(registry, Marked(color)) && ValuesIn(mt, Marked(color))
      ensures heap[th].Thread? && th in old(color) && IsWhite(old(color)[th]) && RegistryFirst(th, old(color)) ==>
        gray != [] && gray[0] == registry.ref
    {
      hide MarkInv, GrayLists, Grew, Marked;
      MarkValue(Gc(th), sc);
      ghost var c, g := color, gray;
      MarkValue(registry, sc);
      MarkStepTransitive(heap, old(color), old(gray), c, g, color, gray);
      c, g := color, gray;
      MarkValues(mt, sc);
      MarkStepTransitive(heap, old(color), old(gray), c, g, color, gray);
    }

    /** The roots known without being searched for: what the bound must contain. */
    ghost predicate Known(bound: set<Ref>)
      reads `heap, `mainthread, `running, `registry, `mt, `tobefnz, `fixedgc, `finobj
    {
      && RootsIn(heap.Keys) && RootsIn(bound)
      && forall o :: o in finobj ==> o in heap && o in bound
    }

    /** The roots that are marked again at the start of `atomic`. */
    ghost predicate KnownGlobals(bound: set<Ref>)
      reads `heap, `running, `registry, `mt
    {
      && running in heap && running in bound && ValueIn(registry, heap.Keys) && ValueIn(registry, bound)
      && ValuesIn(mt, heap.Keys) && ValuesIn(mt, bound)
    }

    /** The running thread, the registry and the basic metatables are marked. */
    ghost predicate GlobalsMarked()
      reads `running, `registry, `mt, `color
    {
      running in Marked(color) && ValueIn(registry, Marked(color)) && ValuesIn(mt, Marked(color))
    }

    /** Start of `atomic`: the roots that have no barrier; the gray list is emptied. */
    method MarkFromRoots(ghost sc: Scope) returns (saved: seq<Ref>)
      requires phase.EnterAtomic? && Tracing(sc) && sc.active == {} && sc.pending == multiset{}
      requires KnownGlobals(sc.bound)
      modifies `phase, `heap, `color, `gray, `grayagain, `weak, `allweak, `ephemeron, `twups
      ensures phase.InAtomic? && Tracing(sc.(pending := multiset(saved), inc := false)) && gray == []
      ensures HeapTidied(old(heap), heap) && Marked(old(color)) <= Marked(color) && GlobalsMarked()
    {
      hide MarkInv, Sum, HeapPruned, Keeps, ListsOk, TwupsOk, Marked, SuffixOf, Grew;
      saved := grayagain;
      ghost var sc1 := sc.(pending := multiset(saved), inc := false);
      NotIncremental(heap, color, white, GrayLists(), twups, sc);
      SaveGrayAgain(heap, color, white, twups, sc.(inc := false), gray, grayagain, weak, allweak, ephemeron);
      grayagain := [];
      phase := InAtomic;
      ghost var c := color;
      MarkGlobals(running, sc1);
      ListsOkGrows(heap, c, color, true, grayagain, weak, allweak, ephemeron, sc.but);
      HeapTidiedReflexive(heap);
      TwupsOkLater(heap, heap, c, color, twups, sc.lax);
      ghost var c0 := color;
      PropagateAll(sc1);
      MarkedMore(registry, mt, c0, color);
    }

    /** First half of `atomic`: everything strongly accessible is marked. */
    method MarkAccessible(ghost sc: Scope)
      requires phase.EnterAtomic? && Tracing(sc) && sc.active == {} && sc.pending == multiset{}
      requires KnownGlobals(sc.bound)
      modifies `phase, `heap, `color, `gray, `grayagain, `weak, `allweak, `ephemeron, `twups
      ensures phase.InAtomic? && Tracing(sc.(lax := {}, inc := false)) && gray == []
      ensures SettledList(heap, color, ephemeron)
      ensures HeapTidied(old(heap), heap) && Marked(old(color)) <= Marked(color) && GlobalsMarked()
      ensures Traced(old(heap), Marked(color) + Strings(old(heap)), sc.but)
    {
      hide MarkInv, Sum, HeapPruned, Keeps, ListsOk, TwupsOk, Marked, SuffixOf, SettledList, Grew, Linked, Traced,
           HeapTidied, Strings, ValueIn, ValuesIn, KnownGlobals;
      MarkInvBasics(heap, color, white, GrayLists(), twups, sc);
      var saved := MarkFromRoots(sc);
      ghost var sc1, sc2 := sc.(pending := multiset(saved), inc := false), sc.(lax := {}, inc := false);
      ghost var h, c := heap, color;
      RemarkUpvals(sc1);
      PropagateAll(sc1.(lax := {}));
      HeapTidiedTransitive(old(heap), h, heap);
      RestoreGrayAgain(heap, color, white, twups, sc1.(lax := {}), saved, grayagain, weak, allweak, ephemeron);
      gray := saved;
      ghost var h2 := heap;
      PropagateAll(sc2);
      HeapTidiedTransitive(old(heap), h2, heap);
      ghost var h3 := heap;
      ConvergeEphemerons(sc2);
      HeapTidiedTransitive(old(heap), h3, heap);
      MarkedMore(registry, mt, c, color);
      AccessibleWasTraced(old(heap), heap, color, white, twups, sc2, grayagain, weak, allweak, ephemeron);
    }

    /** Objects to be finalized are separated and marked, with all that they keep alive. */
    method Resurrect(ghost sc: Scope)
      requires phase.InAtomic? && Tracing(sc) && gray == [] && sc.pending == multiset{} && !sc.inc
      requires forall i :: 0 <= i < |tobefnz| ==> tobefnz[i] in heap && tobefnz[i] in sc.bound
      requires forall o :: o in finobj ==> o in heap && o in sc.bound
      modifies `heap, `color, `gray, `grayagain, `weak, `allweak, `ephemeron, `twups, `finobj, `tobefnz
      ensures Tracing(sc) && gray == [] && SettledList(heap, color, ephemeron)
      ensures HeapTidied(old(heap), heap) && Marked(old(color)) <= Marked(color)
      ensures SuffixOf(old(weak), weak) && SuffixOf(old(allweak), allweak)
      ensures finobj == Part(old(finobj), old(color), false)
      ensures tobefnz == old(tobefnz) + Part(old(finobj), old(color), true)
      ensures forall i :: 0 <= i < |tobefnz| ==> tobefnz[i] in Marked(color)
    {
      hide MarkInv, Sum, HeapPruned, Keeps, ListsOk, TwupsOk, Marked, SuffixOf, SettledList, Grew;
      MarkInvBasics(heap, color, white, GrayLists(), twups, sc);
      PartSplits(finobj, color);
      SeparateToBeFnz();
      ghost var h, c := heap, color;
      MarkBeingFnz(sc);
      ListsOkGrows(heap, c, color, true, grayagain, weak, allweak, ephemeron, sc.but);
      HeapTidiedReflexive(heap);
      TwupsOkLater(heap, heap, c, color, twups, sc.lax);
      PropagateAll(sc);
      ghost var h1, w1, all1 := heap, weak, allweak;
      ConvergeEphemerons(sc);
      HeapTidiedTransitive(h, h1, heap);
      SuffixTransitive(old(weak), w1, weak);
      SuffixTransitive(old(allweak), all1, allweak);
    }

    /** Values of weak tables are cleared before anything is resurrected. */
    method ClearAccessible(ghost sc: Scope)
      requires phase.InAtomic? && Tracing(sc)
      modifies `heap, `color
      ensures Tracing(sc) && ClearStep(old(heap), old(color), heap, color)
      ensures AllValuesCleared(heap, color, weak) && AllValuesCleared(heap, color, allweak)
      ensures Trims(old(heap), heap, Marked(color))
    {
      hide MarkInv, Sum, HeapPruned, ListsOk, TwupsOk, Marked, OnlyStrings, AllValuesCleared, Trims, MayClear;
      ClearByValues(weak, sc);
      ghost var h, c := heap, color;
      ClearByValues(allweak, sc);
      OnlyStringsMarks(h, c, heap, color);
      TrimsTransitive(old(heap), h, heap, Marked(c), Marked(color));
      Cleared(h, heap, c, color, grayagain, weak, allweak, ephemeron, twups, sc, [], weak);
      ClearStepTransitive(old(heap), old(color), h, c, heap, color);
    }

    /** The rest of the clearing; `w` and `all` were the lists at the first clearing. */
    method ClearResurrected(w: seq<Ref>, all: seq<Ref>, ghost sc: Scope)
      requires phase.InAtomic? && Tracing(sc) && SettledList(heap, color, ephemeron)
      requires SuffixOf(w, weak) && SuffixOf(all, allweak)
      requires AllValuesCleared(heap, color, w) && AllValuesCleared(heap, color, all)
      modifies `heap, `color
      ensures Tracing(sc) && ClearStep(old(heap), old(color), heap, color)
      ensures SettledList(heap, color, ephemeron)
      ensures AllKeysCleared(heap, color, ephemeron) && AllKeysCleared(heap, color, allweak)
      ensures AllValuesCleared(heap, color, weak) && AllValuesCleared(heap, color, allweak)
    {
      hide MarkInv, Sum, HeapPruned, ListsOk, TwupsOk, Marked, OnlyStrings, KeysCleared, ValuesCleared, SettledList;
      ghost var h0, c0 := heap, color;
      ClearByKeys(ephemeron, sc);
      ghost var h1, c1 := heap, color;
      ClearByKeys(allweak, sc);
      ghost var h2, c2 := heap, color;
      ClearByValues(weak[..|weak| - |w|], sc);
      ghost var h3, c3 := heap, color;
      ClearByValues(allweak[..|allweak| - |all|], sc);
      ClearStepTransitive(h2, c2, h3, c3, heap, color);
      ClearStepTransitive(h1, c1, h2, c2, heap, color);
      ClearStepTransitive(h0, c0, h1, c1, heap, color);
      SettledListStays(h0, heap, c0, color, ephemeron);
      Cleared(h0, heap, c0, color, grayagain, weak, allweak, ephemeron, twups, sc, [], w + all);
      Cleared(h1, heap, c1, color, grayagain, weak, allweak, ephemeron, twups, sc, ephemeron, []);
      Cleared(h2, heap, c2, color, grayagain, weak, allweak, ephemeron, twups, sc, allweak, []);
      Cleared(h3, heap, c3, color, grayagain, weak, allweak, ephemeron, twups, sc, [], weak[..|weak| - |w|]);
    }

    /** Up to the first clearing of values. */
    method MarkAndClear(ghost sc: Scope) returns (ghost accessible: set<Ref>, ghost traced: Heap)
      requires phase.EnterAtomic? && Tracing(sc) && sc.active == {} && sc.pending == multiset{}
      requires KnownGlobals(sc.bound)
      modifies `phase, `heap, `color, `gray, `grayagain, `weak, `allweak, `ephemeron, `twups
      ensures phase.InAtomic? && Tracing(sc.(lax := {}, inc := false)) && gray == []
      ensures heap.Keys == old(heap).Keys && Marked(color) <= accessible + Strings(old(heap))
      ensures HeapPruned(old(heap), heap) && Marked(old(color)) <= accessible <= Marked(color)
      ensures AllValuesCleared(heap, color, weak) && AllValuesCleared(heap, color, allweak)
      ensures running in accessible && ValueIn(registry, accessible) && ValuesIn(mt, accessible)
      ensures Traced(old(heap), accessible + Strings(old(heap)), sc.but) && Keeps(old(heap), heap, accessible)
      ensures HeapTidied(old(heap), traced) && HeapPruned(traced, heap)
      ensures Trims(traced, heap, accessible + Strings(old(heap)))
    {
      hide MarkInv, Sum, HeapPruned, Keeps, ListsOk, TwupsOk, Marked, SettledList, AllValuesCleared, OnlyStrings,
           Traced, HeapClosed, Linked, HeapTidied, Trims, Strings;
      MarkAccessible(sc);
      ghost var h, c := heap, color;
      traced := heap;
      TidiedIsPruned(old(heap), heap);
      accessible := Marked(color);
      MarkInvBasics(heap, color, white, GrayLists(), twups, sc.(lax := {}, inc := false));
      MarkedExist(color);
      PrunedKeys(old(heap), heap);
      TidiedKeeps(old(heap), heap, accessible);
      ClearAccessible(sc.(lax := {}, inc := false));
      HeapPrunedTransitive(old(heap), h, heap);
      KeepsTransitive(old(heap), h, heap, accessible, accessible);
      OnlyStringsMarks(h, c, heap, color);
      PrunedKeys(old(heap), heap);
      StringsMarked(old(heap), h, c, heap, color);
      MoreTrims(h, heap, Marked(color), accessible + Strings(old(heap)));
    }

    lemma MarkedExist(c: Colors)
      ensures Marked(c) <= c.Keys
    {
    }

    /** The same, for a scope that also has room for what is to be resurrected; marks stay near. */
    method MarkNear(ghost sc: Scope, ghost near: set<Ref>) returns (ghost accessible: set<Ref>, ghost traced: Heap)
      requires phase.EnterAtomic? && Tracing(sc) && sc.active == {} && sc.pending == multiset{} && Known(sc.bound)
      requires Tracing(sc.(bound := near)) && KnownGlobals(near) && near <= sc.bound
      modifies `phase, `heap, `color, `gray, `grayagain, `weak, `allweak, `ephemeron, `twups
      ensures phase.InAtomic? && Tracing(sc.(lax := {}, inc := false)) && gray == [] && Known(sc.bound)
      ensures HeapPruned(old(heap), heap) && Marked(old(color)) <= accessible <= Marked(color)
      ensures accessible <= near && Marked(color) <= accessible + Strings(old(heap))
      ensures AllValuesCleared(heap, color, weak) && AllValuesCleared(heap, color, allweak)
      ensures running in accessible && ValueIn(registry, accessible) && ValuesIn(mt, accessible)
      ensures Traced(old(heap), accessible + Strings(old(heap)), sc.but) && Keeps(old(heap), heap, accessible)
      ensures HeapTidied(old(heap), traced) && HeapPruned(traced, heap)
      ensures Trims(traced, heap, accessible + Strings(old(heap)))
    {
      hide MarkInv, Sum, HeapPruned, Keeps, ListsOk, TwupsOk, Marked, AllValuesCleared, Traced, HeapTidied, Trims,
           Strings, Linked, Known, KnownGlobals, RootsIn, HeapClosed;
      ghost var sc' := sc.(lax := {}, inc := false, bound := near);
      MarkInvBasics(heap, color, white, GrayLists(), twups, sc);
      MarkInvScope(heap, color, white, GrayLists(), twups, sc);
      KnownParts(sc.bound);
      accessible, traced := MarkAndClear(sc.(bound := near));
      PruningKeepsTraced(old(heap), heap, sc.bound, sc.but);
      MarkInvScope(heap, color, white, GrayLists(), twups, sc');
      MarkInvBound(heap, color, white, GrayLists(), twups, sc', sc.bound, sc.but);
      StillKnown(sc.bound, old(heap).Keys);
    }

    /** From the separation of objects to be finalized to the last clearing. */
    method ResurrectAndClear(ghost sc: Scope)
      requires phase.InAtomic? && Tracing(sc) && gray == [] && sc.active == {} && sc.pending == multiset{} && !sc.inc
      requires Known(sc.bound)
      requires AllValuesCleared(heap, color, weak) && AllValuesCleared(heap, color, allweak)
      modifies `heap, `color, `gray, `grayagain, `weak, `allweak, `ephemeron, `twups, `finobj, `tobefnz
      ensures Tracing(sc) && gray == [] && SettledList(heap, color, ephemeron)
      ensures HeapPruned(old(heap), heap) && Keeps(old(heap), heap, Marked(old(color)))
      ensures Marked(old(color)) <= Marked(color)
      ensures AllKeysCleared(heap, color, ephemeron) && AllKeysCleared(heap, color, allweak)
      ensures AllValuesCleared(heap, color, weak) && AllValuesCleared(heap, color, allweak)
      ensures forall i :: 0 <= i < |tobefnz| ==> tobefnz[i] in Marked(color)
      ensures forall o :: o in finobj ==> o in old(finobj) && o in Marked(color)
      ensures multiset(finobj) + multiset(tobefnz) == multiset(old(finobj)) + multiset(old(tobefnz))
      ensures Separated(old(finobj), finobj, old(tobefnz), tobefnz, Marked(old(color)))
      ensures sc.lax == {} ==> Traced(old(heap), Marked(color) + Strings(old(heap)), sc.but)
    {
      hide MarkInv, Sum, HeapPruned, Keeps, ListsOk, TwupsOk, Marked, SuffixOf, SettledList, OnlyStrings,
           AllKeysCleared, AllValuesCleared, HeapClosed, Linked, Traced, Strings, HeapTidied;
      ghost var h, c := heap, color;
      var origweak, origall := weak, allweak;
      MarkInvBasics(heap, color, white, GrayLists(), twups, sc);
      PartSplits(finobj, color);
      PartSeparates(finobj, tobefnz, color);
      MarkedExist(color);
      Resurrect(sc);
      ghost var h1, c1 := heap, color;
      if sc.lax == {} {
        AccessibleWasTraced(h, heap, color, white, twups, sc, grayagain, weak, allweak, ephemeron);
      }
      TidiedIsPruned(h, heap);
      TidiedKeeps(h, heap, Marked(c));
      Cleared2(h, heap, c, color, origweak, origall);
      ClearResurrected(origweak, origall, sc);
      HeapPrunedTransitive(h, h1, heap);
      KeepsTransitive(h, h1, heap, Marked(c), Marked(c1));
      OnlyStringsMarks(h1, c1, heap, color);
      PartMarked(finobj, old(finobj), c, color);
      StringsMarked(h, h1, c1, heap, color);
      assert Marked(color) + Strings(h) == Marked(c1) + Strings(h);
    }

    /**
     The atomic phase, up to the flip of the current white. The tables in `sc.but` were left in `allweak`
     by the propagate phase and are not visited again. `accessible` is what was marked before anything
     was cleared: it is closed under tracing, and entries that refer to nothing else are kept. In the end, with
     what had to be resurrected, it is closed again.
     */
    method Atomic(ghost sc: Scope, ghost near: set<Ref>) returns (ghost accessible: set<Ref>, ghost live: set<Ref>)
      requires phase.EnterAtomic? && Tracing(sc) && sc.active == {} && sc.pending == multiset{} && Known(sc.bound)
      requires Tracing(sc.(bound := near)) && KnownGlobals(near) && near <= sc.bound
      requires mainthread in Marked(color) && forall i :: 0 <= i < |fixedgc| ==> fixedgc[i] in Marked(color)
      modifies `phase, `heap, `color, `gray, `grayagain, `weak, `allweak, `ephemeron, `twups, `finobj, `tobefnz, `white
      ensures phase.InAtomic? && white == OtherWhite(old(white)) && HeapPruned(old(heap), heap)
      ensures Marked(old(color)) <= accessible <= Marked(color) <= sc.bound && accessible <= near
      ensures accessible <= live <= accessible + Strings(old(heap))
      ensures Separated(old(finobj), finobj, old(tobefnz), tobefnz, live)
      ensures running in accessible && ValueIn(registry, accessible) && ValuesIn(mt, accessible)
      ensures Traced(old(heap), accessible + Strings(old(heap)), sc.but) && Keeps(old(heap), heap, accessible)
      ensures AtomicEnd(heap, color, white, twups, sc.but) && RootsIn(Marked(color))
      ensures Traced(old(heap), Marked(color) + Strings(old(heap)), sc.but)
      ensures forall o :: o in finobj ==> o in old(finobj) && o in Marked(color)
      ensures multiset(finobj) + multiset(tobefnz) == multiset(old(finobj)) + multiset(old(tobefnz))
    {
      hide MarkInv, Sum, HeapPruned, Keeps, ListsOk, TwupsOk, Marked, SettledList, AllKeysCleared, AllValuesCleared,
           AtomicEnd, Known, KnownGlobals, Separated, Traced, HeapTidied, Trims, Strings, HeapClosed, Linked;
      ghost var sc' := sc.(lax := {}, inc := false);
      MarkInvBasics(heap, color, white, GrayLists(), twups, sc);
      ghost var traced;
      accessible, traced := MarkNear(sc, near);
      ghost var h, c := heap, color;
      live := Marked(c);
      ResurrectAndClear(sc');
      HeapPrunedTransitive(old(heap), h, heap);
      KeepsTransitive(old(heap), h, heap, accessible, Marked(c));
      AtomicEnds(heap, color, white, twups, sc', grayagain, weak, allweak, ephemeron);
      SameStrings(old(heap), h);
      TracedBefore(old(heap), traced, h, accessible + Strings(old(heap)), Marked(color) + Strings(old(heap)), sc.but);
      white := OtherWhite(white);
    }

    lemma KnownParts(bound: set<Ref>)
      requires Known(bound)
      ensures RootsIn(heap.Keys) && RootsIn(bound)
      ensures forall o :: o in finobj ==> o in heap.Keys && o in bound
    {
    }

    lemma StillKnown(bound: set<Ref>, keys: set<Ref>)
      requires heap.Keys == keys && RootsIn(keys) && RootsIn(bound)
      requires forall o :: o in finobj ==> o in keys && o in bound
      ensures Known(bound)
    {
    }

    // ----- the invariant between steps -----

    ghost predicate InMarking()
      reads `phase
    {
      phase.Propagate? || phase.EnterAtomic?
    }

    /** The objects the program may get hold of, when `garbage` is out of its reach. */
    ghost function Safe(garbage: set<Ref>): set<Ref>
      requires IsWhite(white)
      reads `phase, `heap, `color, `white
    {
      if InMarking() then heap.Keys - garbage else LiveSet(color, white)
    }

    ghost predicate MarkOk(garbage: set<Ref>, active: set<Ref>)
      reads `heap, `color, `white, `gray, `grayagain, `weak, `allweak, `ephemeron, `twups, `finobj, `mainthread
    {
      MarkState(heap, color, white, gray, grayagain, weak, allweak, ephemeron, twups, finobj, mainthread, garbage,
        active)
    }

    ghost predicate SweepOk(garbage: set<Ref>)
      reads `heap, `color, `white, `phase, `sweepgc, `allgc, `finobj, `tobefnz, `fixedgc
    {
      SweepState(heap, color, white, phase, sweepgc, allgc, finobj, tobefnz, fixedgc, garbage)
    }

    ghost predicate HeapOk(garbage: set<Ref>)
      reads `heap, `color, `white, `twups, `allgc, `finobj, `tobefnz, `fixedgc, `running, `next
    {
      HeapState(heap, color, white, twups, allgc, finobj, tobefnz, fixedgc, running, next, garbage)
    }

    /**
     The invariant between steps. No object in `garbage` can be reached by the program or finalized;
     `active` are objects written to, for which a barrier is still due.
     */
    ghost predicate ValidBut(garbage: set<Ref>, active: set<Ref>)
      reads this
    {
      && HeapOk(garbage) && !phase.InAtomic?
      && WellSealed(heap, lost, Safe(garbage)) && RootsIn(Safe(garbage))
      && (if InMarking() then lost == {} && MarkOk(garbage, active) else SweepOk(garbage))
    }

    /** What holds even if the metatables of the tables in `lost` are dead. */
    ghost predicate Steady(garbage: set<Ref>)
      reads this
    {
      ValidBut(garbage, {})
    }

    ghost predicate Valid(garbage: set<Ref>)
      reads this
    {
      Steady(garbage) && lost == {}
    }

    /** Replaces an object in place by one of its kind; the barrier, if any, is still due. */
    method Replace(o: Ref, obj: Object, ghost garbage: set<Ref>)
      requires Valid(garbage) && o in heap && SameKind(heap[o], obj) && Linked(heap[o := obj])
      requires Sealed(heap[o := obj], Safe(garbage)) && (InMarking() ==> Sealed(heap[o := obj], heap.Keys))
      requires InMarking() && o in allweak ==> LeftAllWeak(obj)
      modifies `heap
      ensures ValidBut(garbage, {o}) && heap == old(heap)[o := obj] && Safe(garbage) == old(Safe(garbage))
    {
      hide MarkState, SweepState, Linked, Sealed, SameKind, LiveSet, Marked, LeftAllWeak;
      StoreKeepsHeapState(heap, color, white, twups, allgc, finobj, tobefnz, fixedgc, running, next, garbage, o, obj);
      if InMarking() {
        StoreKeepsMarkState(heap, color, white, gray, grayagain, weak, allweak, ephemeron, twups, finobj, mainthread,
          garbage, o, obj);
      } else {
        StoreKeepsSweepState(heap, color, white, phase, sweepgc, allgc, finobj, tobefnz, fixedgc, garbage, o, obj);
      }
      heap := heap[o := obj];
    }

    /** The plain store, before its barrier. */
    method Store(o: Ref, obj: Object, ghost garbage: set<Ref>)
      requires Valid(garbage) && o in Safe(garbage) && o in heap
      requires SameKind(heap[o], obj) && UpvaluesBelow(heap, obj) && MetatableOk(heap, obj)
      requires Within(obj, Safe(garbage))
      requires InMarking() && o in allweak ==> LeftAllWeak(obj)
      modifies `heap
      ensures ValidBut(garbage, {o}) && heap == old(heap)[o := obj] && Safe(garbage) == old(Safe(garbage))
    {
      hide Within, Linked, Sealed, SameKind, UpvaluesBelow, MetatableOk, LeftAllWeak, SweepState, MarkInv, ListsOk,
           TwupsOk, Sum, RootsIn, Marked, Owned, Owners, TwupsLive;
      StoreKeepsLinked(heap, o, obj);
      StoreKeepsSealed(heap, o, obj, Safe(garbage));
      if InMarking() {
        WithinMore(obj, Safe(garbage), heap.Keys);
        StoreKeepsSealed(heap, o, obj, heap.Keys);
      }
      Replace(o, obj, garbage);
    }

    /** A store needs no barrier, or had it. */
    lemma Settle(o: Ref, garbage: set<Ref>)
      requires ValidBut(garbage, {o}) && o in heap
      requires InMarking() && o in color && color[o].Black? ==> !heap[o].Thread? && !heap[o].OpenUpVal?
      requires InMarking() && o in color && color[o].Black? ==> Within(heap[o], Marked(color))
      ensures Steady(garbage)
    {
      hide Within, Sealed, ListsOk, TwupsOk, Sum, Marked, Linked, Owned, Owners, TwupsLive, SweepState, MarkInv;
      if InMarking() {
        NoBarrierNeeded(heap, color, white, GrayLists(), twups, garbage, o);
      }
    }

    /** Marks an object between steps of the collector. */
    method MarkForward(v: Ref, ghost garbage: set<Ref>, ghost active: set<Ref>)
      requires ValidBut(garbage, active) && InMarking() && v in Safe(garbage) && v in color && IsWhite(color[v])
      modifies `color, `gray
      ensures ValidBut(garbage, active) && Safe(garbage) == old(Safe(garbage))
      ensures Grew(heap, old(color), color) && v in Marked(color) && Marked(old(color)) < Marked(color)
    {
      hide MarkInv, Within, Linked, Sealed, Owned, TwupsLive, ListsOk, TwupsOk, LiveSet, Sum, HasOpen, HeapClosed,
           Traced, Marked, SweepState, Owners;
      ghost var sc := Incremental(heap, garbage, active);
      ghost var c := color;
      SafeExists(garbage, active);
      AllLive(heap, color, white, GrayLists(), twups, sc);
      ReallyMark(v, sc);
      ListsOkGrows(heap, c, color, false, grayagain, weak, allweak, ephemeron, Elems(allweak));
      HeapPrunedReflexive(heap);
      TwupsOkLater(heap, heap, c, color, twups, heap.Keys);
      AllLive(heap, color, white, GrayLists(), twups, sc);
      FixedStay(heap, c, color, fixedgc);
    }

    /** Gives an object the current white in a sweep phase, as if it had been swept. */
    method MakeWhite(o: Ref, ghost garbage: set<Ref>, ghost active: set<Ref>)
      requires ValidBut(garbage, active) && !InMarking() && o in Safe(garbage) && o in color && o !in fixedgc
      modifies `color
      ensures ValidBut(garbage, active) && color == old(color)[o := white] && Safe(garbage) == old(Safe(garbage))
    {
      hide SweepState, Within, Sealed, Linked, Owned, Owners, TwupsLive, MarkState;
      RecolorKeepsState(heap, color, white, phase, sweepgc, allgc, finobj, tobefnz, fixedgc, running, next, twups,
        garbage, o, white);
      color := color[o := white];
    }

    /** `luaC_barrier`: moves the collector forward, or in a sweep phase turns the object white. */
    method Barrier(o: Ref, v: Value, ghost garbage: set<Ref>)
      requires ValidBut(garbage, {o}) && o in heap && o in color && ValueIn(v, Safe(garbage)) && o in Safe(garbage)
      requires !heap[o].Str? && (InMarking() && color[o].Black? ==> !heap[o].Thread? && !heap[o].OpenUpVal?)
      requires InMarking() && color[o].Black? ==>
        forall s :: Marked(color) <= s && ValueIn(v, s) ==> Within(heap[o], s)
      modifies `color, `gray
      ensures Steady(garbage) && Safe(garbage) == old(Safe(garbage))
      ensures !old(color[o]).Black? || v.Nil? ==> color == old(color) && gray == old(gray)
    {
      hide ValidBut, Within, Linked, Sealed;
      SafeExists(garbage, {o});
      if v.Gc? && color[o].Black? && IsWhite(color[v.ref]) {
        if phase.Propagate? || phase.EnterAtomic? {
          MarkForward(v.ref, garbage, {o});
        } else {
          BlackNotFixed(o, garbage);
          MakeWhite(o, garbage, {o});
        }
      }
      Settle(o, garbage);
    }

    lemma SafeExists(garbage: set<Ref>, active: set<Ref>)
      requires ValidBut(garbage, active)
      ensures IsWhite(white) && Safe(garbage) <= heap.Keys && color.Keys == heap.Keys
    {
      WellSealedExists(heap, lost, Safe(garbage));
    }

    lemma BlackNotFixed(o: Ref, garbage: set<Ref>)
      requires ValidBut(garbage, {o}) && o in heap && !heap[o].Str?
      ensures o !in fixedgc
    {
    }

    /** `luaC_barrierback`: moves the collector backward, to visit the object again. */
    method BarrierBack(o: Ref, v: Value, ghost garbage: set<Ref>)
      requires ValidBut(garbage, {o}) && o in heap && o in color && ValueIn(v, Safe(garbage)) && o in Safe(garbage)
      requires Linkable(heap[o])
      modifies `color, `gray, `grayagain, `weak, `allweak, `ephemeron
      ensures ValidBut(garbage, {o}) && Safe(garbage) == old(Safe(garbage))
      ensures allweak == old(allweak) && o in color
      ensures color[o].Black? ==> color == old(color) && ValueIn(v, Marked(color))
      ensures !old(color[o]).Black? ==>
        color == old(color) && gray == old(gray) && grayagain == old(grayagain) && weak == old(weak) &&
          ephemeron == old(ephemeron)
    {
      hide ValidBut, Within, Linked, Sealed;
      SafeExists(garbage, {o});
      if v.Gc? && color[o].Black? && IsWhite(color[v.ref]) {
        if phase.Propagate? || phase.EnterAtomic? {
          BackToGray(o, garbage);
        } else {
          BackToGraySweeping(o, garbage);
        }
      }
    }

    /** The black object goes gray into `grayagain`; while marking, that list will be traversed again. */
    method BackToGray(o: Ref, ghost garbage: set<Ref>)
      requires ValidBut(garbage, {o}) && InMarking() && o in heap && o in color && color[o].Black? && Linkable(heap[o])
      modifies `color, `gray, `grayagain, `weak, `allweak, `ephemeron
      ensures ValidBut(garbage, {o}) && Safe(garbage) == old(Safe(garbage))
      ensures allweak == old(allweak) && color == old(color)[o := Gray]
    {
      hide MarkInv, Within, Linked, Sealed, Owned, TwupsLive, ListsOk, TwupsOk, LiveSet, Sum, HasOpen, HeapClosed,
           Traced, Marked, SweepState, Owners;
      ghost var sc := Incremental(heap, garbage, {o});
      ghost var c, again := color, grayagain;
      BlackNotFixed(o, garbage);
      AllLive(heap, color, white, GrayLists(), twups, sc);
      LinkGcList(o, InGrayAgain, sc);
      AllLive(heap, color, white, GrayLists(), twups, sc);
      ListsOkGrows(heap, c, color, false, again, weak, allweak, ephemeron, Elems(allweak));
      ListsOkThread(heap, color, false, again, grayagain, weak, allweak, ephemeron, Elems(allweak));
      HeapPrunedReflexive(heap);
      TwupsOkLater(heap, heap, c, color, twups, heap.Keys);
    }

    /** In the other phases that list means nothing, and the object is yet to be swept. */
    method BackToGraySweeping(o: Ref, ghost garbage: set<Ref>)
      requires ValidBut(garbage, {o}) && !InMarking() && o in heap && o in color && color[o].Black? && Linkable(heap[o])
      modifies `color, `grayagain
      ensures ValidBut(garbage, {o}) && Safe(garbage) == old(Safe(garbage)) && color == old(color)[o := Gray]
    {
      hide SweepState, Within, Sealed, Linked, Owned, Owners, TwupsLive, MarkState;
      BlackNotFixed(o, garbage);
      SafeExists(garbage, {o});
      RecolorKeepsState(heap, color, white, phase, sweepgc, allgc, finobj, tobefnz, fixedgc, running, next, twups,
        garbage, o, Gray);
      color, grayagain := color[o := Gray], [o] + grayagain;
    }

    /** A write to a stack, which has no barrier. */
    method StackWrite(th: Ref, i: nat, v: Value, ghost garbage: set<Ref>)
      requires Valid(garbage) && th in heap && heap[th].Thread? && i < |heap[th].stack| && ValueIn(v, Safe(garbage))
      modifies `heap
      ensures Valid(garbage) && Safe(garbage) == old(Safe(garbage))
      ensures heap == old(heap)[th := old(heap)[th].(stack := old(heap)[th].stack[i := v])]
    {
      hide Within, Linked, Sealed, UpvaluesBelow, LiveSet, LeftAllWeak, SweepState, RootsIn, Marked, MarkInv, ListsOk,
           TwupsOk, LinkedThread, Owned, Owners, TwupsLive, Sum;
      var obj := heap[th].(stack := heap[th].stack[i := v]);
      TopOk(heap, th);
      UpvaluesStayBelow(heap, heap[th], obj);
      StoreKeepsLinked(heap, th, obj);
      SlotStoreKeepsSealed(heap, th, i, v, Safe(garbage));
      if InMarking() {
        SlotStoreKeepsSealed(heap, th, i, v, heap.Keys);
        ThreadNotBlack(heap, color, white, GrayLists(), twups, Incremental(heap, garbage, {}), th);
        NotInAllWeak(heap, color, grayagain, weak, allweak, ephemeron, th);
      }
      Replace(th, obj, garbage);
      Settle(th, garbage);
    }

    /** Exposes or drops stack slots of the running thread. Captured variables stay below the top. */
    method SetTop(n: nat, ghost garbage: set<Ref>)
      requires Valid(garbage) && TopFree(heap, running, n)
      modifies `heap
      ensures Valid(garbage) && Safe(garbage) == old(Safe(garbage))
      ensures heap == old(heap)[running := WithTop(old(heap)[running], n)]
    {
      hide Within, Linked, Sealed, LiveSet, LeftAllWeak, SweepState, Marked, MarkInv, ListsOk, TwupsOk, LinkedThread,
           Owned, Owners, TwupsLive, Sum;
      var obj := WithTop(heap[running], n);
      GrownWithin(heap, Safe(garbage), running, obj);
      if InMarking() {
        ThreadNotBlack(heap, color, white, GrayLists(), twups, Incremental(heap, garbage, {}), running);
        NotInAllWeak(heap, color, grayagain, weak, allweak, ephemeron, running);
      }
      Store(running, obj, garbage);
      Settle(running, garbage);
    }

    /** What `Valid` says of one object, before it is written. */
    lemma Before(o: Ref, garbage: set<Ref>)
      requires Valid(garbage) && o in Safe(garbage)
      ensures IsWhite(white) && o in heap && o in color && Within(heap[o], Safe(garbage)) && MetatableOk(heap, heap[o])
      ensures InMarking() && color[o].Black? ==>
        Within(heap[o], Marked(color)) && !heap[o].OpenUpVal? && !heap[o].Thread?
      ensures InMarking() && o in allweak ==> LeftAllWeak(heap[o])
    {
      hide MarkInv, ListsOk, LeftAllWeak, Within, MetatableOk, SweepState, RootsIn, TwupsOk, Sealed, Linked, HasOpen,
           Owned, Owners, TwupsLive, Sum;
      SafeWithin(heap, Safe(garbage), o);
      SafeExists(garbage, {});
      if InMarking() {
        BlackWithin(heap, color, white, GrayLists(), twups, Incremental(heap, garbage, {}), o);
        if o in allweak {
          InAllWeakStays(heap, color, grayagain, weak, allweak, ephemeron, o);
        }
      }
    }

    /** A store into an object with a forward barrier. */
    method StoreForward(o: Ref, obj: Object, v: Value, ghost garbage: set<Ref>)
      requires Valid(garbage) && o in Safe(garbage) && o in heap && ValueIn(v, Safe(garbage))
      requires SameKind(heap[o], obj) && !obj.Thread? && !obj.Str? && MetatableOk(heap, obj)
      requires Adds(heap[o], obj, v, Nil)
      requires InMarking() && o in allweak ==> LeftAllWeak(obj)
      modifies `heap, `color, `gray
      ensures Valid(garbage) && Safe(garbage) == old(Safe(garbage)) && heap == old(heap)[o := obj]
      ensures (o in old(color) && !old(color)[o].Black?) || v.Nil? ==> color == old(color) && gray == old(gray)
    {
      hide ValidBut, Within, MetatableOk, LeftAllWeak, Marked;
      Before(o, garbage);
      Store(o, obj, garbage);
      if InMarking() && color[o].Black? {
        AddsWithin(old(heap)[o], obj, v, Marked(color));
      }
      Barrier(o, v, garbage);
    }

    /** A store into a table or userdata, with backward barriers for what was stored. */
    method StoreBack(o: Ref, obj: Object, k: Value, v: Value, ghost garbage: set<Ref>)
      requires Valid(garbage) && o in Safe(garbage) && o in heap && Linkable(heap[o])
      requires ValueIn(k, Safe(garbage)) && ValueIn(v, Safe(garbage))
      requires SameKind(heap[o], obj) && !obj.Thread? && MetatableOk(heap, obj) && Adds(heap[o], obj, v, k)
      requires InMarking() && o in allweak ==> LeftAllWeak(obj)
      modifies `heap, `color, `gray, `grayagain, `weak, `allweak, `ephemeron
      ensures Valid(garbage) && Safe(garbage) == old(Safe(garbage)) && heap == old(heap)[o := obj]
      ensures allweak == old(allweak)
      ensures o in old(color) && !old(color)[o].Black? ==>
        color == old(color) && gray == old(gray) && grayagain == old(grayagain) && weak == old(weak) &&
          ephemeron == old(ephemeron)
    {
      hide ValidBut, Within, MetatableOk, LeftAllWeak, Marked;
      Before(o, garbage);
      Store(o, obj, garbage);
      BarrierBack(o, k, garbage);
      BarrierBack(o, v, garbage);
      Settle(o, garbage);
    }

    /** `luaC_newobj`: a white object, first in `allgc`. */
    method New(obj: Object, ghost garbage: set<Ref>) returns (o: Ref)
      requires Valid(garbage) && Blank(obj)
      modifies `heap, `color, `allgc, `next
      ensures Valid(garbage) && Safe(garbage) == old(Safe(garbage)) + {o}
      ensures o == old(next) && next == old(next) + 1 && o !in old(heap) && heap == old(heap)[o := obj]
      ensures IsWhite(white) && color == old(color)[o := white]
    {
      hide MarkState, SweepState, HeapState, Linked, Sealed, LiveSet, Blank, Within, RootsIn;
      o := next;
      HeapBasics(garbage);
      RootsMore(Safe(garbage), Safe(garbage) + {o});
      NewKeepsSealed(heap, Safe(garbage), o, obj);
      NewKeepsHeapState(heap, color, white, twups, allgc, finobj, tobefnz, fixedgc, running, next, garbage, obj);
      if InMarking() {
        NewKeepsMarkState(heap, color, white, gray, grayagain, weak, allweak, ephemeron, twups, finobj, mainthread,
          garbage, o, obj);
      } else {
        NewKeepsSweepState(heap, color, white, phase, sweepgc, allgc, finobj, tobefnz, fixedgc, garbage, o, obj);
      }
      heap, color, allgc, next := heap[o := obj], color[o := white], [o] + allgc, next + 1;
    }

    lemma RootsMore(s: set<Ref>, t: set<Ref>)
      requires RootsIn(s) && s <= t
      ensures RootsIn(t)
    {
    }

    lemma HeapBasics(garbage: set<Ref>)
      requires HeapOk(garbage)
      ensures color.Keys == heap.Keys && IsWhite(white) && Linked(heap)
      ensures next !in heap && next !in garbage && next !in allgc
      ensures running in heap && heap[running].Thread?
    {
      hide LinkedUpVal, LinkedThread;
      assert Owners(allgc, finobj, tobefnz, fixedgc)[next] == 0;
    }

    /** `luaF_findupval`: the upvalue for a slot of the running thread, a new one if there is none yet. */
    method Capture(level: nat, ghost garbage: set<Ref>) returns (u: Ref)
      requires Valid(garbage) && level < heap[running].top
      modifies `heap, `color, `allgc, `next, `twups
      ensures Valid(garbage) && u in Safe(garbage) && u in heap
      ensures running in heap && heap[running].Thread? && heap[running].stack == old(heap[running].stack)
      ensures heap[running].top == old(heap[running].top)
      ensures heap[u] == OpenUpVal(running, level)
      ensures if u in old(heap) then heap == old(heap)
              else u == old(next) && NewUpvalue(old(heap), heap, running, level, u)
      ensures Safe(garbage) <= old(Safe(garbage)) + {u} && old(Safe(garbage)) <= Safe(garbage)
    {
      hide MarkState, SweepState, HeapState, Sealed, LiveSet, RootsIn, LinkedThread, Linked, PlaceFor;
      HeapBasics(garbage);
      var open := heap[running].openupval;
      var i := 0;
      RunningOpen(garbage);
      while i < |open| && heap[open[i]].level >= level
        invariant 0 <= i <= |open|
        invariant forall k :: 0 <= k < i ==> heap[open[k]].level > level
      {
        if heap[open[i]].level == level {
          u := open[i];
          return;
        }
        i := i + 1;
      }
      ghost var h := heap;
      u := New(ClosedUpVal(Nil), garbage);
      HeapBasics(garbage);
      NewKeepsPlace(h, heap, u, running, level, i);
      IsNewUpvalue(h, heap, u, running, level, i);
      OpenNew(u, level, i, garbage);
    }

    /** What is known of the open upvalues of the running thread. */
    lemma RunningOpen(garbage: set<Ref>)
      requires Valid(garbage)
      ensures var open := heap[running].openupval;
              && (forall k :: 0 <= k < |open| ==>
                    open[k] in heap && open[k] in Safe(garbage) && heap[open[k]].OpenUpVal?
                    && heap[open[k]].thread == running)
              && (forall a, b :: 0 <= a < b < |open| ==> heap[open[a]].level > heap[open[b]].level)
      ensures running in Safe(garbage)
    {
      assert LinkedThread(heap, running);
      assert Inside(heap, heap[running], Safe(garbage));
    }

    /** Links a new upvalue into the list of the running thread, and the thread into `twups`. */
    method OpenNew(u: Ref, level: nat, i: nat, ghost garbage: set<Ref>)
      requires Valid(garbage) && level < heap[running].top
      requires u in heap && heap[u].ClosedUpVal? && u in color && IsWhite(color[u]) && u in Safe(garbage)
      requires PlaceFor(heap, running, level, i)
      modifies `heap, `twups
      ensures Valid(garbage) && Safe(garbage) == old(Safe(garbage))
      ensures heap == Opened(old(heap), u, running, level, i)
    {
      hide MarkState, SweepState, HeapState, Sealed, LiveSet, Within, LinkedThread, PlaceFor;
      HeapBasics(garbage);
      RunningOpen(garbage);
      OpenKeepsLinked(heap, u, running, level, i);
      OpenKeepsThread(heap, u, running, level, i);
      ghost var h := Opened(heap, u, running, level, i);
      OpenKeepsSealed(heap, u, running, level, i, Safe(garbage));
      ghost var more := if running in twups then twups else [running] + twups;
      SafeIsLive(garbage, running);
      UpvalueKeepsHeapState(heap, h, color, white, twups, more, allgc, finobj, tobefnz, fixedgc, running, next, garbage,
        u, running);
      if InMarking() {
        MarkStateSealed(heap, color, white, gray, grayagain, weak, allweak, ephemeron, twups, finobj, mainthread,
          garbage, {});
        OpenKeepsSealed(heap, u, running, level, i, heap.Keys);
        OpenKeepsMarkState(heap, h, color, white, gray, grayagain, weak, allweak, ephemeron, twups, more, finobj,
          mainthread, garbage, u, running);
      } else {
        UpvalueKeepsSweepState(heap, h, color, white, phase, sweepgc, allgc, finobj, tobefnz, fixedgc, garbage);
      }
      var open := heap[running].openupval;
      heap := heap[u := OpenUpVal(running, level)][running := heap[running].(openupval := open[..i] + [u] + open[i..])];
      if running !in twups {
        twups := [running] + twups;
      }
    }

    /** An upvalue that is marked, or not dead, is in reach and so is its value. */
    lemma UpvalueIsSafe(th: Ref, garbage: set<Ref>)
      requires Steady(garbage) && Closable(heap, th)
      ensures var u := heap[th].openupval[0];
              && u in color
              && (!IsWhite(color[u]) ==> u in Safe(garbage) && ValueIn(Slot(heap, heap[u]), Safe(garbage)))
      ensures InMarking() ==> th in color && !color[th].Black?
      ensures th in LiveSet(color, white) ==> th in twups
    {
      hide SweepState, ListsOk, TwupsOk, Linked, Traced, HeapClosed, WellSealed;
      var u := heap[th].openupval[0];
      if !IsWhite(color[u]) {
        assert u in Safe(garbage);
        WellSealedSlot(heap, lost, Safe(garbage), u);
      }
    }

    /** What closing the first upvalue of a thread does to the heap and the colors keeps the invariant. */
    lemma CloseKeepsState(th: Ref, h: Heap, c: Colors, garbage: set<Ref>)
      requires Steady(garbage) && Closable(heap, th) && h == Closed(heap, th)
      requires var u := heap[th].openupval[0];
               u in color && c == if IsWhite(color[u]) then color else color[u := Black]
      ensures HeapState(h, c, white, twups, allgc, finobj, tobefnz, fixedgc, running, next, garbage)
      ensures WellSealed(h, lost, Safe(garbage)) && h.Keys == heap.Keys && LiveSet(c, white) == LiveSet(color, white)
      ensures if InMarking() then
          MarkState(h, c, white, gray, grayagain, weak, allweak, ephemeron, twups, finobj, mainthread, garbage,
                    {heap[th].openupval[0]})
        else SweepState(h, c, white, phase, sweepgc, allgc, finobj, tobefnz, fixedgc, garbage)
    {
      hide MarkState, SweepState, HeapState, Sealed, LiveSet, Linked, RootsIn, Marked;
      var u := heap[th].openupval[0];
      HeapBasics(garbage);
      UpvalueIsSafe(th, garbage);
      FirstOpen(heap, th);
      CloseKeepsLinked(heap, th);
      CloseKeepsWellSealed(heap, lost, th, Safe(garbage));
      UpvalueKeepsHeapState(heap, h, color, white, twups, twups, allgc, finobj, tobefnz, fixedgc, running, next,
                            garbage, u, th);
      if !IsWhite(color[u]) {
        BlackenKeepsHeapState(h, color, white, twups, allgc, finobj, tobefnz, fixedgc, running, next, garbage, u);
      }
      if InMarking() {
        MarkStateSealed(heap, color, white, gray, grayagain, weak, allweak, ephemeron, twups, finobj, mainthread,
          garbage, {});
        CloseKeepsSealed(heap, th, heap.Keys);
        CloseKeepsMarkState(heap, h, color, c, white, gray, grayagain, weak, allweak, ephemeron, twups, finobj,
          mainthread, garbage, u, th);
      } else {
        UpvalueKeepsSweepState(heap, h, color, white, phase, sweepgc, allgc, finobj, tobefnz, fixedgc, garbage);
        if !IsWhite(color[u]) {
          UpvalueKeepsHeapState(heap, h, color, white, twups, twups, allgc, finobj, tobefnz, fixedgc, running, next,
            garbage, u, th);
          RecolorKeepsState(h, color, white, phase, sweepgc, allgc, finobj, tobefnz, fixedgc, running, next, twups,
            garbage, u, Black);
        }
      }
    }

    /** `luaF_closeupval` for the first upvalue of the list: it gets a value of its own, with a barrier. */
    method CloseFirst(th: Ref, ghost garbage: set<Ref>)
      requires Steady(garbage) && Closable(heap, th)
      modifies `heap, `color, `gray
      ensures Steady(garbage) && Safe(garbage) == old(Safe(garbage)) && heap == Closed(old(heap), th)
    {
      hide MarkState, SweepState, HeapState, WellSealed, LiveSet, Linked, RootsIn, Marked;
      HeapBasics(garbage);
      SafeExists(garbage, {});
      var u := heap[th].openupval[0];
      var v := heap[th].stack[heap[u].level];
      ghost var h := Closed(heap, th);
      ghost var c := if IsWhite(color[u]) then color else color[u := Black];
      UpvalueIsSafe(th, garbage);
      CloseKeepsState(th, h, c, garbage);
      heap := heap[u := ClosedUpVal(v)][th := heap[th].(openupval := heap[th].openupval[1..])];
      if !IsWhite(color[u]) {
        color := color[u := Black];
        Barrier(u, v, garbage);
      } else {
        Settle(u, garbage);
      }
    }

    /** `luaF_closeupval`: closes the upvalues of a thread down to a level. No upvalue changes its value. */
    method CloseUpvals(th: Ref, level: nat, ghost garbage: set<Ref>)
      requires Steady(garbage) && th in heap && heap[th].Thread?
      modifies `heap, `color, `gray
      ensures Steady(garbage) && Safe(garbage) == old(Safe(garbage))
      ensures SameCells(old(heap), heap) && OnlyClosed(old(heap), heap, th)
      ensures old(heap)[th].openupval == [] ==> heap == old(heap) && color == old(color) && gray == old(gray)
      ensures BelowStay(old(heap), heap, level)
      ensures th in heap && heap[th].Thread? && (level == 0 ==> heap[th].openupval == [])
      ensures forall u :: u in heap[th].openupval ==> u in heap && heap[u].OpenUpVal? && heap[u].level < level
    {
      hide HeapOk, MarkOk, SweepOk, SameCells, BelowStay, Sealed, RootsIn, Closable, Closed, Safe;
      HeapBasics(garbage);
      if heap[th].openupval != [] {
        FirstOpen(heap, th);
      }
      assert BelowStay(heap, heap, level) by { BelowStayReflexive(heap, level); }
      assert SameCells(heap, heap) by { SameCellsReflexive(heap); }
      while heap[th].openupval != [] && heap[heap[th].openupval[0]].level >= level
        invariant Steady(garbage) && Safe(garbage) == old(Safe(garbage))
        invariant th in heap && heap[th].Thread? && Linked(heap)
        invariant heap[th].openupval != [] ==> Closable(heap, th)
        invariant SameCells(old(heap), heap) && OnlyClosed(old(heap), heap, th)
        invariant BelowStay(old(heap), heap, level)
        invariant old(heap)[th].openupval == [] ==> heap == old(heap) && color == old(color) && gray == old(gray)
        decreases |heap[th].openupval|
      {
        FirstOpen(heap, th);
        CloseKeepsCells(heap, th);
        ClosesOne(old(heap), heap, th);
        CloseKeepsBelow(old(heap), heap, th, level);
        SameCellsTransitive(old(heap), heap, Closed(heap, th));
        CloseFirst(th, garbage);
        HeapBasics(garbage);

        if heap[th].openupval != [] {
          FirstOpen(heap, th);
        }
      }
      LevelsBelow(heap, th, level);
    }

    // ----- sweeping -----

    /** The list of the running sweep. */
    function Sweeped(): seq<Ref>
      reads `phase, `allgc, `finobj, `tobefnz
    {
      SweptList(phase, allgc, finobj, tobefnz)
    }

    ghost predicate AtRest()
      reads `phase, `sweepgc, `allgc, `finobj, `tobefnz
    {
      Sweeping(phase) && PosIn(Sweeped(), sweepgc)
    }

    /** What is left of the running sweep. */
    function Rest(): seq<Ref>
      requires AtRest()
      reads `phase, `sweepgc, `allgc, `finobj, `tobefnz
    {
      After(Sweeped(), sweepgc)
    }

    lemma SweepBasics(garbage: set<Ref>)
      requires Steady(garbage) && Sweeping(phase)
      ensures AtRest() && (Rest() != [] ==> Rest()[0] in heap && Rest()[0] in color && Rest()[0] !in fixedgc)
      ensures IsWhite(white) && Linked(heap) && color.Keys == heap.Keys && Safe(garbage) == LiveSet(color, white)
    {
      hide WellSealed, RootsIn, Linked;
      OwnedOnce(heap, phase, allgc, finobj, tobefnz, fixedgc);
    }

    /**
     The object at the position of the sweep leaves the heap and its list, an open upvalue also that of its thread.
     */
    method Erase(curr: Ref, ghost garbage: set<Ref>)
      requires Steady(garbage) && AtRest() && Rest() != [] && curr == Rest()[0] && curr in color
      requires IsWhite(white) && color[curr] == OtherWhite(white) && Freeable(heap, curr)
      modifies `heap, `color, `allgc, `finobj, `tobefnz
      ensures Steady(garbage) && Safe(garbage) == old(Safe(garbage)) && heap == Freed(old(heap), curr)
      ensures AtRest() && Rest() == old(Rest())[1..] && SameLive(old(heap), heap, Safe(garbage))
      ensures |Sweeped()| < |old(Sweeped())|
      ensures tobefnz == old(tobefnz) && (phase.SweepAllGc? ==> finobj == old(finobj))
    {
      hide AllIn, HeapState, SweepState, MarkState, WellSealed, SameLive, LiveSet, NoRepeats, Without, Unlinked,
           Within, Linked;
      var i := Start(Sweeped(), sweepgc);
      SweepBasics(garbage);
      ListOnce(garbage);
      DropOne(Sweeped(), sweepgc);
      WithoutFewer(Sweeped(), i);
      OthersStay(Sweeped(), i);
      NotLive(curr);
      FreeKeepsState(heap, color, white, phase, sweepgc, allgc, finobj, tobefnz, fixedgc, running, next, twups, garbage,
        curr);
      FreeKeepsWellSealed(heap, lost, curr, LiveSet(color, white));
      Unlink(curr);
      heap, color := heap - {curr}, color - {curr};
      ghost var tobefnz0, safe := tobefnz, Safe(garbage);
      match phase {
        case SweepAllGc => allgc := Without(allgc, i);
        case SweepFinObj => finobj := Without(finobj, i);
        case SweepToBeFnz => tobefnz := Without(tobefnz, i);
      }
      if phase.SweepToBeFnz? { DeadNotIn(tobefnz0, i, curr, safe); }
    }

    lemma DeadNotIn(list: seq<Ref>, i: nat, o: Ref, s: set<Ref>)
      requires AllIn(list, s) && i < |list| && list[i] == o
      ensures o in s
    {
    }

    /** An open upvalue leaves the list of its thread. */
    method Unlink(u: Ref)
      requires Freeable(heap, u)
      modifies `heap
      ensures heap == Unlinked(old(heap), u)
    {
      if heap[u].OpenUpVal? {
        var th := heap[u].thread;
        var open := heap[th].openupval;
        heap := heap[th := heap[th].(openupval := Without(open, IndexOf(open, u)))];
      }
    }

    lemma ListOnce(garbage: set<Ref>)
      requires Steady(garbage)
      ensures NoRepeats(Sweeped())
    {
      hide WellSealed, RootsIn, Linked, MarkState, SweepState;
      OwnedOnce(heap, phase, allgc, finobj, tobefnz, fixedgc);
    }

    /** A dead thread closes its upvalues. */
    method CloseDead(curr: Ref, ghost garbage: set<Ref>)
      requires Steady(garbage) && Sweeping(phase) && curr in heap && curr in color
      requires IsWhite(white) && color[curr] == OtherWhite(white)
      modifies `heap, `color, `gray
      ensures Steady(garbage) && Safe(garbage) == old(Safe(garbage)) && Freeable(heap, curr)
      ensures SameLive(old(heap), heap, Safe(garbage)) && Linked(old(heap)) && Linked(heap)
      ensures curr in color && color[curr] == OtherWhite(white)
    {
      hide HeapOk, SweepOk, MarkOk, WellSealed, RootsIn, PosIn, After, SameLive, SameCells, OnlyClosed;
      SweepBasics(garbage);
      SameLiveReflexive(heap, Safe(garbage));
      NotLive(curr);
      if heap[curr].Thread? {
        CloseUpvals(curr, 0, garbage);
        SweepBasics(garbage);
        CloseKeepsLive(old(heap), heap, curr, Safe(garbage));
        StillDead(curr, garbage);
      }
      DeadIsFreeable(heap, curr);
    }

    /** What is not in reach has the color of the dead. */
    lemma StillDead(o: Ref, garbage: set<Ref>)
      requires Steady(garbage) && !InMarking() && IsWhite(white) && o in heap && o !in Safe(garbage)
      ensures o in color && color[o] == OtherWhite(white)
    {
      hide MarkState, SweepState, WellSealed, RootsIn, Linked, Owned, Owners, TwupsLive;
    }

    /** `freeobj`, and the object leaves its list. A thread closes its upvalues first, an open upvalue is unlinked. */
    method FreeObj(ghost garbage: set<Ref>)
      requires Steady(garbage) && AtRest() && Rest() != [] && Rest()[0] in color
      requires IsWhite(white) && color[Rest()[0]] == OtherWhite(white)
      modifies `heap, `color, `gray, `allgc, `finobj, `tobefnz
      ensures Steady(garbage) && Safe(garbage) == old(Safe(garbage)) && old(Rest()[0]) !in heap
      ensures AtRest() && Rest() == old(Rest())[1..] && SameLive(old(heap), heap, Safe(garbage))
      ensures |Sweeped()| < |old(Sweeped())|
      ensures tobefnz == old(tobefnz) && (phase.SweepAllGc? ==> finobj == old(finobj))
    {
      hide HeapOk, SweepOk, MarkOk, WellSealed, RootsIn, PosIn, After, SameLive;
      var curr := Rest()[0];
      SweepBasics(garbage);
      SameLiveReflexive(heap, Safe(garbage));
      CloseDead(curr, garbage);
      ghost var h := heap;
      Erase(curr, garbage);
      SameLiveTransitive(old(heap), h, heap, Safe(garbage));
    }

    lemma NotLive(o: Ref)
      requires IsWhite(white) && o in color && color[o] == OtherWhite(white)
      ensures o !in LiveSet(color, white)
    {
    }

    /** A live object gets the current white and is passed. */
    method Pass(ghost garbage: set<Ref>)
      requires Steady(garbage) && AtRest() && Rest() != [] && Rest()[0] in color
      requires IsWhite(white) && color[Rest()[0]] != OtherWhite(white)
      modifies `color, `sweepgc
      ensures Steady(garbage) && Safe(garbage) == old(Safe(garbage))
      ensures AtRest() && Rest() == old(Rest())[1..] && sweepgc == SweepPos.Next(old(Rest()[0]))
      ensures old(Rest()[0]) in Safe(garbage)
    {
      hide HeapState, SweepState, MarkState, WellSealed, NoRepeats, RootsIn;
      SweepBasics(garbage);
      ListOnce(garbage);
      PassOne(Sweeped(), sweepgc);
      var curr := Rest()[0];
      PassKeepsState(heap, color, white, phase, sweepgc, allgc, finobj, tobefnz, fixedgc, running, next, twups, garbage,
        curr);
      color, sweepgc := color[curr := white], SweepPos.Next(curr);
    }

    /** The sweep of the list is over. */
    method EndList(ghost garbage: set<Ref>)
      requires Steady(garbage) && AtRest() && Rest() == []
      modifies `sweepgc
      ensures Steady(garbage) && Safe(garbage) == old(Safe(garbage)) && AtRest() && sweepgc.Done?
    {
      hide HeapState, MarkState, WellSealed, LiveSet, RootsIn, GcInvariant.Swept;
      assert Elems([]) == {};
      sweepgc := Done;
    }

    /**
     `sweeplist`: goes over at most `countin` objects of the running sweep, frees the dead ones and turns
     the others white.
     */
    method SweepList(countin: nat, ghost garbage: set<Ref>)
      requires Steady(garbage) && Sweeping(phase) && !sweepgc.Done?
      modifies `heap, `color, `gray, `allgc, `finobj, `tobefnz, `sweepgc
      ensures Steady(garbage) && Safe(garbage) == old(Safe(garbage)) && SameLive(old(heap), heap, Safe(garbage))
      ensures AtRest() && (sweepgc.Done? <==> old(AtRest()) && |old(Rest())| <= countin)
      ensures old(AtRest()) && (!sweepgc.Done? ==> Rest() == old(Rest())[countin..])
      ensures forall k :: 0 <= k < |old(Rest())| && k < countin && old(Rest()[k]) !in old(Safe(garbage)) ==>
        old(Rest()[k]) !in heap
      ensures tobefnz == old(tobefnz) && (phase.SweepAllGc? ==> finobj == old(finobj))
    {
      hide HeapOk, SweepOk, MarkOk, WellSealed, RootsIn, PosIn, After, SameLive, LiveSet;
      SweepBasics(garbage);
      SameLiveReflexive(heap, Safe(garbage));
      var i := 0;
      ghost var rest := Rest();
      while i < countin && Rest() != []
        invariant Steady(garbage) && Safe(garbage) == old(Safe(garbage)) && AtRest() && !sweepgc.Done?
        invariant SameLive(old(heap), heap, Safe(garbage))
        invariant i <= countin && i <= |rest| && Rest() == rest[i..]
        invariant tobefnz == old(tobefnz) && (phase.SweepAllGc? ==> finobj == old(finobj))
        invariant forall k :: 0 <= k < i && rest[k] !in Safe(garbage) ==> rest[k] !in heap
        decreases countin - i
      {
        SweepBasics(garbage);
        ghost var h := heap;
        if color[Rest()[0]] == OtherWhite(white) {
          FreeObj(garbage);
          SweepBasics(garbage);
          SameLiveTransitive(old(heap), h, heap, Safe(garbage));
          FewerObjects(h, heap, Safe(garbage));
        } else {
          Pass(garbage);
        }
        i := i + 1;
      }
      if Rest() == [] {
        EndList(garbage);
      }
    }

    /** `sweeptolive`: sweeps until a live object has been passed or the list is over. */
    method SweepToLive(ghost garbage: set<Ref>)
      requires Steady(garbage) && Sweeping(phase) && !sweepgc.Done?
      modifies `heap, `color, `gray, `allgc, `finobj, `tobefnz, `sweepgc
      ensures Steady(garbage) && Safe(garbage) == old(Safe(garbage)) && SameLive(old(heap), heap, Safe(garbage))
      ensures AtRest() && sweepgc != old(sweepgc)
      ensures tobefnz == old(tobefnz) && (phase.SweepAllGc? ==> finobj == old(finobj))
    {
      hide HeapOk, SweepOk, MarkOk, WellSealed, RootsIn, PosIn, After, SameLive, LiveSet;
      SweepBasics(garbage);
      var pos := sweepgc;
      SweepList(1, garbage);
      while sweepgc == pos
        invariant Steady(garbage) && Safe(garbage) == old(Safe(garbage)) && SameLive(old(heap), heap, Safe(garbage))
        invariant AtRest() && (sweepgc == pos ==> !sweepgc.Done?)
        invariant tobefnz == old(tobefnz) && (phase.SweepAllGc? ==> finobj == old(finobj))
        decreases if sweepgc.Done? then 0 else 1 + |Rest()|
      {
        ghost var h := heap;
        SweepBasics(garbage);
        SweepList(1, garbage);
        SweepBasics(garbage);
        SameLiveTransitive(old(heap), h, heap, Safe(garbage));
      }
    }

    /** Sets the phase after one whose list is done. */
    method NextSweep(next: Phase, pos: SweepPos, ghost garbage: set<Ref>)
      requires Steady(garbage) && (Sweeping(phase) ==> sweepgc.Done?)
      requires Sweeping(phase) ==> next == NextList(phase)
      requires !Sweeping(phase) ==> (phase.SweepEnd? && next.CallFin?) || (phase.CallFin? && next.Pause?)
      requires pos == if Sweeping(next) then Header else Done
      modifies `sweepgc, `phase
      ensures Steady(garbage) && Safe(garbage) == old(Safe(garbage)) && phase == next && sweepgc == pos
    {
      hide HeapState, MarkState, SweepState, WellSealed, RootsIn, LiveSet;
      NextPhase(heap, color, white, phase, sweepgc, allgc, finobj, tobefnz, fixedgc, garbage);
      phase, sweepgc := next, pos;
    }

    /** `sweepstep`: some of the current list, or on to the next list. */
    method SweepStep(ghost garbage: set<Ref>)
      requires Steady(garbage) && Sweeping(phase)
      modifies `heap, `color, `gray, `allgc, `finobj, `tobefnz, `sweepgc, `phase
      ensures Steady(garbage) && Safe(garbage) == old(Safe(garbage)) && SameLive(old(heap), heap, Safe(garbage))
      ensures Sweeps()
      ensures if old(sweepgc).Done?
        then heap == old(heap) && phase == NextList(old(phase)) && sweepgc == (if Sweeping(phase) then Header else Done)
        else phase == old(phase) && old(AtRest()) && AtRest() && (sweepgc.Done? || |Rest()| < |old(Rest())|)
    {
      hide HeapOk, MarkOk, SweepOk, WellSealed, RootsIn, LiveSet, SameLive, Safe;
      if sweepgc.Done? {
        SweepBasics(garbage);
        SameLiveReflexive(heap, Safe(garbage));
        var next := NextList(phase);
        NextSweep(next, if Sweeping(next) then Header else Done, garbage);
      } else {
        SweepList(GCSWEEPMAX, garbage);
      }
    }

    /** `entersweep`: the position moves into the list, so that new objects need not be swept. */
    method EnterSweep(ghost garbage: set<Ref>)
      requires phase.InAtomic? && AtomicEnd(heap, color, white, twups, lost) && RootsIn(Marked(color))
      requires Owned(heap, Owners(allgc, finobj, tobefnz, fixedgc)) && Marked(color) !! garbage
      requires forall o :: o in heap || o in garbage ==> o < next
      requires forall o :: o in fixedgc ==> o in heap && heap[o].Str?
      requires running in heap && heap[running].Thread?
      modifies `heap, `color, `gray, `allgc, `finobj, `tobefnz, `sweepgc, `phase
      ensures Steady(garbage) && Safe(garbage) == Marked(old(color)) && SameLive(old(heap), heap, Safe(garbage))
      ensures phase.SweepAllGc? && AtRest() && !sweepgc.Header? && finobj == old(finobj) && tobefnz == old(tobefnz)
    {
      hide AtomicEnd, HeapState, SweepState, WellSealed, Owned, LiveSet, Marked;
      FixedMarked();
      StartSweeping(heap, color, white, twups, allgc, finobj, tobefnz, fixedgc, running, next, garbage, lost);
      phase, sweepgc := SweepAllGc, Header;
      SweepToLive(garbage);
    }

    lemma FixedMarked()
      requires RootsIn(Marked(color))
      ensures forall o :: o in fixedgc ==> o in Marked(color)
    {
    }

    // ----- finalizers -----

    /** Pushes a value on the stack of the running thread. */
    method Push(v: Value, ghost garbage: set<Ref>)
      requires Valid(garbage) && ValueIn(v, Safe(garbage)) && running in heap && heap[running].Thread?
      modifies `heap
      ensures Valid(garbage) && Safe(garbage) == old(Safe(garbage))
      ensures heap == old(heap)[running := WithPushed(old(heap)[running], v)]
    {
      hide HeapOk, MarkOk, SweepOk, Sealed, RootsIn, Safe, Linked;
      HeapBasics(garbage);
      TopOk(heap, running);
      var n := heap[running].top;
      SetTop(n + 1, garbage);
      StackWrite(running, n, v, garbage);
    }

    /** `udata2finalize`: the first object to be finalized goes back to `allgc`. */
    method UData2Finalize(ghost garbage: set<Ref>) returns (o: Ref)
      requires Valid(garbage) && phase.CallFin? && tobefnz != []
      modifies `tobefnz, `allgc
      ensures Valid(garbage) && Safe(garbage) == old(Safe(garbage)) && o in Safe(garbage)
      ensures o == old(tobefnz)[0] && tobefnz == old(tobefnz)[1..] && allgc == [o] + old(allgc)
    {
      hide Sealed, LiveSet, Linked, TwupsLive, GcInvariant.Swept, MarkState, Owned, Owners;
      o := tobefnz[0];
      ghost var lists := Owners(allgc, finobj, tobefnz, fixedgc);
      tobefnz, allgc := tobefnz[1..], [o] + allgc;
      assert Owners(allgc, finobj, tobefnz, fixedgc) == lists by {
        MovesToAllGc(old(allgc), allgc, finobj, old(tobefnz), tobefnz, fixedgc, o);
      }
    }

    /** `runafewfinalizers`: each finalizer gets its object on the stack; what it then does is up to the program. */
    method RunAFewFinalizers(n: nat, ghost garbage: set<Ref>)
      requires Valid(garbage) && phase.CallFin?
      modifies `heap, `tobefnz, `allgc
      ensures Valid(garbage) && Safe(garbage) == old(Safe(garbage)) && heap.Keys == old(heap).Keys
      ensures tobefnz == old(tobefnz)[if n <= |old(tobefnz)| then n else |old(tobefnz)|..]
      ensures forall o :: o in heap && o != running ==> heap[o] == old(heap)[o]
      ensures running in heap && heap[running].Thread? && old(running in heap && heap[running].Thread?)
      ensures PushedOn(old(heap)[running], heap[running],
        old(tobefnz)[..if n <= |old(tobefnz)| then n else |old(tobefnz)|])
      ensures LinkedBefore(old(tobefnz)[..if n <= |old(tobefnz)| then n else |old(tobefnz)|], old(allgc), allgc)
    {
      hide HeapOk, MarkOk, SweepOk, Sealed, RootsIn, Safe, Linked, WellSealed, LiveSet;
      HeapBasics(garbage);
      TopOk(heap, running);
      var i := 0;
      while i < n && tobefnz != []
        invariant running in heap && heap[running].Thread? && IsWhite(white) && Linked(heap)
        invariant Valid(garbage) && Safe(garbage) == old(Safe(garbage)) && heap.Keys == old(heap).Keys
        invariant i <= n && i <= |old(tobefnz)| && tobefnz == old(tobefnz)[i..]
        invariant forall o :: o in heap && o != running ==> heap[o] == old(heap)[o]
        invariant PushedOn(old(heap)[running], heap[running], old(tobefnz)[..i])
        invariant LinkedBefore(old(tobefnz)[..i], old(allgc), allgc)
      {
        LinkedMore(old(tobefnz)[..i], old(allgc), allgc, tobefnz[0]);
        var o := UData2Finalize(garbage);
        ghost var th := heap[running];
        TopOk(heap, running);
        Push(Gc(o), garbage);
        assert old(tobefnz)[..i + 1] == old(tobefnz)[..i] + [o];
        HeapBasics(garbage);
        PushedMore(old(heap)[running], th, heap[running], old(tobefnz)[..i], o);
        i := i + 1;
      }
    }

    // ----- the cycle -----

    /** The program has no way to get hold of the objects, nor will any of them be finalized. */
    ghost predicate Unreachable(found: set<Ref>)
      reads `heap, `mainthread, `running, `registry, `mt, `tobefnz, `fixedgc, `finobj
    {
      && found <= heap.Keys && Sealed(heap, heap.Keys - found) && RootsIn(heap.Keys - found)
      && forall o :: o in finobj ==> o !in found
    }

    /** Between cycles there is no garbage left and every object that is not fixed is white. */
    lemma AtEnd(garbage: set<Ref>)
      requires Steady(garbage) && phase.SweepEnd?
      ensures IsWhite(white) && Safe(garbage) == heap.Keys
    {
      hide Linked, Sealed, WellSealed, RootsIn, TwupsLive, Owned, Owners, MarkState;
      AllSwept(heap, color, white, phase, sweepgc, allgc, finobj, tobefnz, fixedgc, garbage);
      assert LiveSet(color, white) == heap.Keys;
    }

    /** Tables in `allweak` are gray while marking goes on. */
    lemma AllWeakAreGray(garbage: set<Ref>)
      requires Valid(garbage) && InMarking()
      ensures forall o :: o in allweak ==> o in color && color[o].Gray?
    {
      hide HeapState, SweepState, Linked, TwupsOk, TracedIn, StringsIn, HeapClosed;
      forall o | o in allweak ensures o in color && color[o].Gray? {
        assert (GrayLists() + multiset{})[o] == if Waits(heap, color, o) then 1 else 0;
      }
    }

    lemma AtPause(garbage: set<Ref>)
      requires Valid(garbage) && (phase.SweepEnd? || phase.CallFin? || phase.Pause?)
      ensures garbage !! heap.Keys && color.Keys == heap.Keys && IsWhite(white) && Linked(heap)
      ensures LiveSet(color, white) == heap.Keys && Sealed(heap, heap.Keys) && TwupsLive(heap, heap.Keys, twups)
      ensures forall o :: o in heap && o !in fixedgc ==> color[o] == white
      ensures forall o :: o in finobj ==> o in heap
    {
      hide Linked, Sealed, RootsIn, TwupsLive, Owned, Owners, MarkState;
      OwnedExist(heap, allgc, finobj, tobefnz, fixedgc);
      AllSwept(heap, color, white, phase, sweepgc, allgc, finobj, tobefnz, fixedgc, garbage);
      assert LiveSet(color, white) == heap.Keys;
    }

    /** `restartcollection`: the roots are marked, all gray lists start empty. */
    method RestartCollection(ghost garbage: set<Ref>, ghost found: set<Ref>)
      requires Valid(garbage) && phase.Pause? && Unreachable(found)
      modifies `color, `phase, `gray, `grayagain, `weak, `allweak, `ephemeron
      ensures Valid(garbage + found) && phase.Propagate? && Safe(garbage + found) == heap.Keys - found
      ensures mainthread in Marked(color) && ValueIn(registry, Marked(color)) && ValuesIn(mt, Marked(color))
      ensures forall i :: 0 <= i < |tobefnz| ==> tobefnz[i] in Marked(color)
      ensures color.Keys == old(color).Keys && allweak == []
      ensures StartsWithRegistry(old(color)) ==> gray != [] && gray[0] == registry.ref
    {
      hide MarkInv, Linked, Sealed, ListsOk, TwupsOk, LiveSet, TwupsLive, Owned, Owners, Sum, Marked, Grew, RootsIn,
           HeapClosed, HeapState, MarkState, SweepState;
      AtPause(garbage);
      assert heap.Keys - (garbage + found) == heap.Keys - found;
      ghost var c := color;
      gray, grayagain, weak, allweak, ephemeron := [], [], [], [], [];
      RootsMore(heap.Keys - found, heap.Keys);
      Fixed(garbage, heap.Keys - found);
      StartMarking(heap, color, white, twups, fixedgc, garbage + found, running);
      MarkRoots(Incremental(heap, garbage + found, {}));
      MarkingStarted(heap, c, color, white, gray, twups, finobj, mainthread, garbage + found);
      MarkingKeepsHeapState(heap, c, color, white, twups, allgc, finobj, tobefnz, fixedgc, running, next, garbage,
        found);
      phase := Propagate;
    }

    /** The registry will be the first gray object of the cycle. */
    predicate StartsWithRegistry(c: Colors)
      reads `heap, `registry, `mt, `tobefnz, `mainthread
    {
      && mainthread in heap && heap[mainthread].Thread? && mainthread in c && IsWhite(c[mainthread])
      && RegistryFirst(mainthread, c) && tobefnz == []
    }

    /** The roots of a new cycle. */
    method MarkRoots(ghost sc: Scope)
      requires Marking(sc) && RootsIn(heap.Keys) && RootsIn(sc.bound)
      modifies `color, `gray
      ensures Marking(sc) && Marked(old(color)) <= Marked(color) && color.Keys == heap.Keys
      ensures mainthread in Marked(color) && ValueIn(registry, Marked(color)) && ValuesIn(mt, Marked(color))
      ensures forall i :: 0 <= i < |tobefnz| ==> tobefnz[i] in Marked(color)
      ensures StartsWithRegistry(old(color)) ==> gray != [] && gray[0] == registry.ref
    {
      hide MarkInv, GrayLists, Marked, Linked, HeapClosed;
      MarkGlobals(mainthread, sc);
      ghost var c := color;
      MarkBeingFnz(sc);
      MarkedMore(registry, mt, c, color);
      MarkInvBasics(heap, color, white, GrayLists(), twups, sc);
    }

    lemma Fixed(garbage: set<Ref>, s: set<Ref>)
      requires Valid(garbage) && RootsIn(s)
      ensures forall o :: o in fixedgc ==> o in heap && heap[o].Str? && o in color && !IsWhite(color[o]) && o in s
    {
      hide MarkState, SweepState, Sealed, Linked, TwupsLive, Owned, Owners;
    }

    /** The tables in `allweak` are marked, and may be treated as such whatever becomes of their metatables. */
    lemma AllWeakTables(garbage: set<Ref>)
      requires Valid(garbage) && InMarking()
      ensures Traced(heap, heap.Keys - garbage, Elems(allweak)) && Elems(allweak) <= Marked(color)
      ensures Traced(heap, heap.Keys - garbage, {}) && Linked(heap)
      ensures forall o :: o in allweak ==> o in heap && heap[o].Table? && heap[o].weakness.AllWeak?
    {
      hide HeapState, SweepState, Linked, TwupsOk, Marked, TracedIn, StringsIn;
      TracedBut(heap, heap.Keys - garbage, Elems(allweak));
      ListedMarked(heap, color, white, twups, Incremental(heap, garbage, {}), gray, grayagain, weak, allweak,
        ephemeron);
    }

    /** After a traversal there may be more tables in `allweak`. */
    lemma MoreAllWeak(sc: Scope, all: set<Ref>, h: Heap)
      requires Tracing(sc.(but := all)) && phase.Propagate? && HeapPruned(h, heap) && Linked(h)
      requires Traced(h, sc.bound, {})
      requires sc.but == {} && all <= Elems(allweak)
      ensures Marking(sc) && ListsIn(Elems(allweak)) && TwupsOk(heap, color, twups, sc.lax)
    {
      hide HeapPruned, Traced, Linked, HeapClosed, TwupsOk;
      PruningKeepsTraced(h, heap, sc.bound, {});
      MarkInvBut(heap, color, white, GrayLists(), twups, sc.(but := all), {});
    }

    predicate AllWeakFirst()
      reads `heap, `gray
    {
      gray != [] && gray[0] in heap && heap[gray[0]].Table? && heap[gray[0]].weakness.AllWeak?
    }

    /** One gray object is traversed, or the propagate phase ends. */
    method PropagateStep(ghost garbage: set<Ref>)
      requires Valid(garbage) && phase.Propagate?
      modifies `phase, `heap, `color, `gray, `grayagain, `weak, `allweak, `ephemeron, `twups
      ensures Valid(garbage) && Safe(garbage) == old(Safe(garbage)) && HeapPruned(old(heap), heap)
      ensures HeapTidied(old(heap), heap)
      ensures Marked(old(color)) <= Marked(color)
      ensures if old(gray) == [] then phase.EnterAtomic? && heap == old(heap) && color == old(color) &&
        allweak == old(allweak)
        else
          && phase.Propagate? && (gray == old(gray)[1..] || Marked(old(color)) < Marked(color)) &&
            color.Keys == old(color).Keys
          && SuffixOf(old(allweak), allweak)
          && (old(AllWeakFirst()) ==> old(gray)[0] in allweak)
    {
      hide MarkInv, Sum, Sealed, ListsOk, TwupsOk, TwupsLive, Linked, LiveSet, HeapState, HeapPruned, HeapTidied,
           RootsIn;
      HeapPrunedReflexive(heap);
      HeapTidiedReflexive(heap);
      if gray == [] {
        phase := EnterAtomic;
      } else {
        ghost var sc, all := Incremental(heap, garbage, {}), Elems(allweak);
        AllWeakTables(garbage);
        MarkInvBut(heap, color, white, GrayLists(), twups, sc, all);
        ghost var all0 := allweak;
        PropagateMark(sc.(but := all));
        TidiedIsPruned(old(heap), heap);
        SuffixElems(all0, allweak);
        MoreAllWeak(sc, all, old(heap));
        TraversalKeepsState(old(heap), heap, old(color), color, white, gray, grayagain, weak, allweak, ephemeron,
          old(twups), twups, allgc, finobj, tobefnz, fixedgc, running, next, mainthread, garbage);
      }
    }

    /** Where the program can start from. */
    ghost function Roots(): set<Ref>
      reads `mainthread, `running, `registry, `mt, `tobefnz, `fixedgc
    {
      {mainthread, running} + Elems(tobefnz) + Elems(fixedgc) + (if registry.Gc? then {registry.ref} else {})
      + set i | 0 <= i < |mt| && mt[i].Gc? :: mt[i].ref
    }

    lemma RootsAre(s: set<Ref>)
      ensures RootsIn(s) <==> Roots() <= s
    {
      if Roots() <= s {
        forall i | 0 <= i < |mt| ensures ValueIn(mt[i], s) {
          if mt[i].Gc? { assert mt[i].ref in Roots(); }
        }
        forall i | 0 <= i < |tobefnz| ensures tobefnz[i] in s { assert tobefnz[i] in Elems(tobefnz); }
        forall i | 0 <= i < |fixedgc| ensures fixedgc[i] in s { assert fixedgc[i] in Elems(fixedgc); }
      }
    }

    /** The program can get hold of the object, perhaps through a weak table. */
    ghost predicate Reachable(o: Ref)
      reads `heap, `mainthread, `running, `registry, `mt, `tobefnz, `fixedgc
    {
      ReachedFrom(heap, Roots(), o)
    }

    /** The object can be reached by references that are not weak. */
    ghost predicate StronglyReachable(o: Ref)
      reads `heap, `mainthread, `running, `registry, `mt, `tobefnz, `fixedgc
    {
      HeldFrom(heap, Roots(), o)
    }

    /** In every state between steps, whatever the program can reach exists. */
    lemma ReachableExists(garbage: set<Ref>, o: Ref)
      requires Valid(garbage) && Reachable(o)
      ensures IsWhite(white) && o in Safe(garbage) && o in heap && o !in garbage
    {
      hide HeapOk, MarkOk, SweepOk, Sealed, RootsIn, ReachedFrom, Roots, Safe;
      SafeIsNoGarbage(garbage);
      RootsAre(Safe(garbage));
      ReachedIsSealed(heap, Roots(), Safe(garbage), o);
    }

    lemma SafeIsNoGarbage(garbage: set<Ref>)
      requires Valid(garbage)
      ensures IsWhite(white) && Safe(garbage) !! garbage && Safe(garbage) <= heap.Keys
    {
      hide MarkState, Sealed, Linked, Owned, Owners, TwupsLive, Unswept;
    }

    lemma BeforeAtomic(garbage: set<Ref>)
      requires Valid(garbage) && phase.EnterAtomic?
      ensures Known(heap.Keys - garbage) && mainthread in Marked(color)
      ensures Marking(Incremental(heap, garbage, {})) && ListsIn(Elems(allweak))
      ensures TwupsOk(heap, color, twups, heap.Keys)
      ensures Owned(heap, Owners(allgc, finobj, tobefnz, fixedgc))
      ensures forall o :: o in fixedgc ==> o in heap && heap[o].Str? && o in Marked(color)
      ensures forall o :: o in heap || o in garbage ==> o < next
      ensures running in heap && heap[running].Thread? && Linked(heap)
    {
      hide MarkInv, Sum, Sealed, ListsOk, TwupsOk, TwupsLive, Linked, LiveSet, Owned, Owners;
      OwnedExist(heap, allgc, finobj, tobefnz, fixedgc);
    }

    /** What was to be finalized before is still marked. */
    lemma RootsKept(s: set<Ref>, finobj': seq<Ref>, tobefnz': seq<Ref>)
      requires RootsIn(s) && (forall o :: o in finobj ==> o in s)
      requires multiset(finobj) + multiset(tobefnz) == multiset(finobj') + multiset(tobefnz')
      ensures forall o :: o in tobefnz' ==> o in s
    {
      forall o | o in tobefnz' ensures o in s {
        assert (multiset(finobj) + multiset(tobefnz))[o] > 0;
      }
    }

    /** What the atomic phase will have marked is known before. */
    lemma KeptIsBound(garbage: set<Ref>)
      requires Valid(garbage) && phase.EnterAtomic?
      ensures Tracing(Incremental(heap, garbage, {}).(bound := Kept(), but := Missed()))
      ensures Known(Kept()) && Kept() !! garbage && Kept() <= heap.Keys && HeapClosed(heap)
      ensures Elems(allweak) <= Marked(color)
    {
      hide MarkInv, Sum, Sealed, ListsOk, TwupsOk, TwupsLive, Linked, LiveSet, Owned, Owners, HeapState, SweepState,
           Known, HeapClosed, Traced, Marked, Roots, Forced;
      ghost var sc := Incremental(heap, garbage, {});
      BeforeAtomic(garbage);
      AllWeakTables(garbage);
      MarkInvBasics(heap, color, white, GrayLists(), twups, sc);
      StartInside(garbage);
      ForcedCloses(heap, Beginning(), Missed());
      TracedBut(heap, heap.Keys - garbage, Missed());
      ForcedWithin(heap, Beginning(), Missed(), heap.Keys - garbage);
      MarkInvBound(heap, color, white, GrayLists(), twups, sc, Kept(), Missed());
      MissedLists();
      StartKnown();
    }

    lemma NearIsBound(garbage: set<Ref>)
      requires Valid(garbage) && phase.EnterAtomic?
      ensures Tracing(Incremental(heap, garbage, {}).(bound := Near(), but := Missed()))
      ensures KnownGlobals(Near()) && Near() <= Kept()
    {
      hide MarkInv, Sum, Sealed, ListsOk, TwupsOk, TwupsLive, Linked, LiveSet, Owned, Owners, HeapState, SweepState,
           Known, HeapClosed, Traced, Marked, Roots, Forced;
      ghost var sc := Incremental(heap, garbage, {});
      KeptIsBound(garbage);
      AllWeakTables(garbage);
      MarkInvBasics(heap, color, white, GrayLists(), twups, sc);
      MarkInvBasics(heap, color, white, GrayLists(), twups, sc.(bound := Kept(), but := Missed()));
      MarkInvScope(heap, color, white, GrayLists(), twups, sc.(bound := Kept(), but := Missed()));
      GlobalsExist();
      ForcedCloses(heap, Marked(color) + Globals(), Missed());
      ForcedWithin(heap, Marked(color) + Globals(), Missed(), Kept());
      MarkInvBound(heap, color, white, GrayLists(), twups, sc, Near(), Missed());
      MissedLists();
      GlobalsKnown(Near());
    }

    /**
     What the program holds by strong references is not to be finalized, unless a missed metatable holds it; objects
     that wait for their finalizers already are no help.
     */
    lemma HeldIsNear(garbage: set<Ref>, o: Ref)
      requires Valid(garbage) && phase.EnterAtomic? && !MayLose()
      requires HeldFrom(heap, Globals() + {mainthread} + Elems(fixedgc), o)
      ensures o in Near()
    {
      hide MarkInv, Sum, Sealed, ListsOk, TwupsOk, TwupsLive, Linked, LiveSet, Owned, Owners, HeapState, SweepState,
           Known, HeapClosed, Traced, Marked, Roots, Forced, MayLose, WellSealed, RootsIn;
      NearIsBound(garbage);
      NoneMissed(garbage);
      BeforeAtomic(garbage);
      ghost var sc := Incremental(heap, garbage, {}).(bound := Near(), but := Missed());
      MarkInvScope(heap, color, white, GrayLists(), twups, sc);
      GlobalsNear();
      var p :| p != [] && StrongPath(heap, p) && p[0] in Globals() + {mainthread} + Elems(fixedgc) && p[|p| - 1] == o;
      HeldIsTraced(heap, Near(), p);
    }

    lemma NoneMissed(garbage: set<Ref>)
      requires Valid(garbage) && InMarking() && !MayLose()
      ensures Missed() == {}
    {
      hide HeapState, SweepState, ListsOk, TwupsOk, Linked, Traced, MayLose, Loses;
      NothingMissed();
    }

    lemma GlobalsNear()
      requires KnownGlobals(Near())
      ensures Globals() <= Near()
    {
      hide Forced, Missed;
    }

    lemma GlobalsExist()
      requires Known(Kept())
      ensures Globals() <= heap.Keys && Globals() <= Kept() && Marked(color) <= color.Keys
    {
      hide Kept;
    }

    lemma GlobalsKnown(s: set<Ref>)
      requires Globals() <= s <= heap.Keys
      ensures KnownGlobals(s)
    {
      forall i | 0 <= i < |mt| ensures ValueIn(mt[i], s) { assert mt[i].Gc? ==> mt[i].ref in Globals(); }
    }

    /** The start of the atomic phase is no garbage, and what was known is in it. */
    lemma StartInside(garbage: set<Ref>)
      requires Valid(garbage) && phase.EnterAtomic?
      ensures Beginning() <= heap.Keys - garbage && Traced(heap, heap.Keys - garbage, {})
      ensures forall o :: o in finobj ==> o in heap
    {
      hide Sum, Sealed, ListsOk, TwupsOk, TwupsLive, Linked, LiveSet, Owned, Owners, SweepState, HeapClosed, Traced,
           Roots;
      RootsAre(heap.Keys - garbage);
      OwnedExist(heap, allgc, finobj, tobefnz, fixedgc);
    }

    lemma StartKnown()
      requires Beginning() <= heap.Keys && Beginning() <= Kept()
      ensures Known(Kept()) && Marked(color) <= Kept()
    {
      hide Roots, Forced;
      RootsAre(heap.Keys);
      RootsAre(Kept());
      assert forall o :: o in finobj ==> o in Elems(finobj);
    }

    /** All tables in `allweak` but the missed ones have marked metatables. */
    lemma MissedLists()
      requires ListsOk(heap, color, false, grayagain, weak, allweak, ephemeron, Elems(allweak))
      requires color.Keys == heap.Keys
      ensures ListsOk(heap, color, false, grayagain, weak, allweak, ephemeron, Missed())
    {
      hide Marked;
    }

    /** What is told to be marked at the end of the atomic phase. */
    lemma MarksAreKept(h: Heap, start: set<Ref>, missed: set<Ref>, marked: set<Ref>)
      requires HeapClosed(h) && Traced(h, marked + Strings(h), missed) && start <= marked <= Forced(h, start, missed)
      requires forall o :: o in missed ==> o in h && h[o].Table?
      ensures forall o :: o in h && !h[o].Str? ==> (o in marked <==> o in Forced(h, start, missed))
      ensures forall o :: o in missed ==>
        (ValueIn(h[o].metatable, marked) <==> ValueIn(h[o].metatable, Forced(h, start, missed)))
    {
      hide Linked, Forced, Traced, Strings, Within;
      forall o | o in h && !h[o].Str? ensures o in marked <==> o in Forced(h, start, missed) {
        MarkedIsForced(h, start, missed, marked, o);
      }
      forall o | o in missed
        ensures ValueIn(h[o].metatable, marked) <==> ValueIn(h[o].metatable, Forced(h, start, missed))
      {
        assert MetatableOk(h, h[o]);
      }
    }

    /** What the phase started from is marked in the end. */
    lemma InElems(s: seq<Ref>)
      ensures forall o :: o in Elems(s) <==> o in s
    {
    }

    /** Only objects to be finalized have been added to the roots. */
    lemma RootsGrow(tobefnz0: seq<Ref>, roots: set<Ref>)
      requires forall o :: o in tobefnz0 ==> o in tobefnz
      requires roots == {mainthread,
        running} + Elems(tobefnz0) + Elems(fixedgc) + (if registry.Gc? then {registry.ref} else {})
                        + set i | 0 <= i < |mt| && mt[i].Gc? :: mt[i].ref
      ensures roots <= Roots()
    {
    }

    /** What was marked before anything was resurrected. */
    lemma LiveIsNear(h: Heap, marked: set<Ref>, globals: set<Ref>, missed: set<Ref>, accessible: set<Ref>,
                     near: set<Ref>, live: set<Ref>)
      requires near == Forced(h, marked + globals, missed) && Traced(h, accessible + Strings(h), missed)
      requires marked + globals <= accessible <= near && accessible <= live <= accessible + Strings(h)
      ensures forall o :: o in h && !h[o].Str? ==> (o in live <==> o in near)
    {
      hide Forced, Traced;
      forall o | o in h && !h[o].Str? ensures o in live <==> o in near {
        MarkedIsForced(h, marked + globals, missed, accessible, o);
      }
    }

    lemma Unfolded()
      ensures Kept() == Forced(heap, Beginning(), Missed())
      ensures Roots() == {mainthread,
        running} + Elems(tobefnz) + Elems(fixedgc) + (if registry.Gc? then {registry.ref} else {})
                          + set i | 0 <= i < |mt| && mt[i].Gc? :: mt[i].ref
    {
    }

    lemma KeptIsForced(h: Heap, start: set<Ref>, missed: set<Ref>, kept: set<Ref>, marked: set<Ref>)
      requires HeapClosed(h) && Traced(h, marked + Strings(h), missed) && start <= marked <= kept
      requires kept == Forced(h, start, missed) && forall o :: o in missed ==> o in h && h[o].Table?
      ensures forall o :: o in h && !h[o].Str? ==> (o in marked <==> o in kept)
      ensures forall o :: o in missed ==> (ValueIn(h[o].metatable, marked) <==> ValueIn(h[o].metatable, kept))
    {
      MarksAreKept(h, start, missed, marked);
    }

    lemma StartIsMarked(start: set<Ref>, roots: set<Ref>, c: Colors, finobj0: seq<Ref>, tobefnz0: seq<Ref>)
      requires start == Marked(c) + roots + Elems(finobj0) && Marked(c) <= Marked(color) && RootsIn(Marked(color))
      requires roots <= Roots()
      requires (forall o :: o in finobj ==> o in Marked(color))
      requires multiset(finobj) + multiset(tobefnz) == multiset(finobj0) + multiset(tobefnz0)
      ensures start <= Marked(color)
    {
      hide Roots, Marked, Elems;
      RootsAre(Marked(color));
      RootsKept(Marked(color), finobj0, tobefnz0);
      assert forall o :: o in Elems(finobj0) ==> o in finobj0 by { InElems(finobj0); }
      forall o | o in Elems(finobj0) ensures o in Marked(color) {
        assert (multiset(finobj0) + multiset(tobefnz0))[o] > 0;
      }
    }

    /** Objects to be finalized are still to be finalized. */
    lemma StillToBeFinalized(h: Heap, finobj0: seq<Ref>, tobefnz0: seq<Ref>)
      requires Owned(h, Owners(allgc, finobj0, tobefnz0, fixedgc)) && forall o :: o in finobj ==> o in finobj0
      requires multiset(finobj) + multiset(tobefnz) == multiset(finobj0) + multiset(tobefnz0)
      ensures forall o :: o in tobefnz0 ==> o in tobefnz
    {
      forall o | o in tobefnz0 ensures o in tobefnz {
        assert Owners(allgc, finobj0, tobefnz0, fixedgc)[o] <= 1;
        assert multiset(tobefnz0)[o] >= 1 && multiset(finobj0)[o] == 0;
        MemberCount(finobj0, o);
        MemberCount(finobj, o);
        MemberCount(tobefnz, o);
        assert (multiset(finobj) + multiset(tobefnz))[o] > 0;
      }
    }

    /** The tables in `lost` are marked, their metatables are not. */
    ghost predicate Dangling(h: Heap, marked: set<Ref>)
      reads `lost
    {
      lost <= marked && forall o :: o in lost ==> o in h && h[o].Table? && !ValueIn(h[o].metatable, marked)
    }

    /** What `atomic` leaves for the sweep, when it has missed some metatables. */
    ghost predicate Finished(garbage: set<Ref>, missed: set<Ref>)
      reads this
    {
      && phase.InAtomic? && AtomicEnd(heap, color, white, twups, missed) && RootsIn(Marked(color))
      && Owned(heap, Owners(allgc, finobj, tobefnz, fixedgc)) && Marked(color) !! garbage
      && (forall o :: o in heap || o in garbage ==> o < next)
      && (forall o :: o in fixedgc ==> o in heap && heap[o].Str?)
      && running in heap && heap[running].Thread?
    }

    /** `atomic` marks what was told before. */
    method AtomicMarks(ghost garbage: set<Ref>)
      requires Valid(garbage) && phase.EnterAtomic?
      modifies this
      ensures Finished(garbage, old(Missed())) && old(Roots()) <= Roots()
      ensures forall o :: o in old(heap) && !old(heap)[o].Str? ==> (o in Marked(color) <==> o in old(Kept()))
      ensures forall o :: o in old(Missed()) ==>
        (ValueIn(old(heap)[o].metatable, Marked(color)) <==> ValueIn(old(heap)[o].metatable, old(Kept())))
      ensures mainthread == old(mainthread) && running == old(running) && registry == old(registry) && mt == old(mt)
      ensures SeparatesFinalized()
      ensures HeapPruned(old(heap), heap) && Linked(old(heap)) && old(Missed()) <= Marked(color)
    {
      hide MarkInv, Sum, Sealed, WellSealed, ListsOk, TwupsOk, TwupsLive, Linked, LiveSet, HeapState, HeapPruned,
           RootsIn, AtomicEnd, MarkState, SweepState, Known, Owned, Owners, Safe, Traced, Keeps, Marked, SameLive,
           Forced, Strings, HeapClosed, Inside, Within, MetatableOk, Roots, Elems, Kept;
      BeforeAtomic(garbage);
      KeptIsBound(garbage);
      NearIsBound(garbage);
      Unfolded();
      InElems(allweak);
      ghost var h0, start, missed, kept, finobj0, tobefnz0 := heap, Beginning(), Missed(), Kept(), finobj, tobefnz;
      ghost var roots, c0 := Roots(), color;
      ghost var near := Near();
      ghost var accessible, live := Atomic(Incremental(heap, garbage, {}).(bound := kept, but := missed), near);
      LiveIsNear(h0, Marked(c0), old(Globals()), missed, accessible, near, live);
      AtomicKeepsOwners(h0, heap, allgc, finobj0, finobj, tobefnz0, tobefnz, fixedgc, running);
      StillToBeFinalized(h0, finobj0, tobefnz0);
      RootsGrow(tobefnz0, roots);
      StartIsMarked(start, roots, c0, finobj0, tobefnz0);
      KeptIsForced(h0, start, missed, kept, Marked(color));
    }

    /** Tables lose the metatables that `atomic` misses. */
    method AtomicExact(ghost garbage: set<Ref>)
      requires Valid(garbage) && phase.EnterAtomic?
      modifies this
      ensures Finished(garbage, lost) && lost == old(Loses()) && Dangling(heap, Marked(color))
      ensures forall o :: o in old(heap) && !old(heap)[o].Str? ==> (o in Marked(color) <==> o in old(Kept()))
      ensures SeparatesFinalized()
      ensures mainthread == old(mainthread) && running == old(running) && registry == old(registry) && mt == old(mt)
      ensures HeapPruned(old(heap), heap) && Linked(old(heap)) && old(Roots()) <= Roots()
    {
      hide MarkInv, Sum, Sealed, WellSealed, ListsOk, TwupsOk, TwupsLive, Linked, LiveSet, HeapState, HeapPruned,
           RootsIn, AtomicEnd, MarkState, SweepState, Known, Owned, Owners, Safe, Traced, Keeps, Marked, SameLive,
           Forced, Strings, HeapClosed, Inside, Within, MetatableOk, Roots, Elems, Kept;
      ghost var h0, missed, kept := heap, Missed(), Kept();
      AtomicMarks(garbage);
      lost := set o | o in missed && !ValueIn(h0[o].metatable, kept);
      LostIsLost(h0, heap, missed, Marked(color));
      FewerLost(heap, color, white, twups, missed, lost);
    }

    /** Then modes that have changed meanwhile count again; `h1` is the heap before that. */
    method MarkAll(ghost garbage: set<Ref>) returns (ghost h1: Heap)
      requires Valid(garbage) && phase.EnterAtomic?
      modifies this
      ensures Finished(garbage, lost) && lost == old(Loses()) && Dangling(heap, Marked(color))
      ensures forall o :: o in old(heap) && !old(heap)[o].Str? ==> (o in Marked(color) <==> o in old(Kept()))
      ensures SeparatesFinalized()
      ensures mainthread == old(mainthread) && running == old(running) && registry == old(registry) && mt == old(mt)
      ensures HoldsOn(old(heap), h1, old(heap).Keys) && HoldsOn(h1, heap, h1.Keys) && Linked(heap)
      ensures old(Roots()) <= Roots() && heap.Keys == old(heap).Keys && HeapPruned(old(heap), h1)
      ensures heap == Refreshed(h1)
    {
      hide Linked, HeapPruned, RootsIn, AtomicEnd, Owned, Owners, Marked, HoldsOn, Kept, Loses, Roots, HeapOk, MarkOk,
           SweepOk, Sealed, WellSealed, Refreshed, Safe, SeparatesFinalized;
      AtomicExact(garbage);
      h1 := heap;
      RefreshKeepsAtomicEnd(heap, color, white, twups, lost);
      AfterRefresh(old(heap), heap, garbage, Marked(color));
      AfterRefresh(heap, heap, garbage, Marked(color)) by { HeapPrunedReflexive(heap); }
      heap := Refreshed(heap);
      OwnedSame(h1, heap, Owners(allgc, finobj, tobefnz, fixedgc));
    }

    /**
     `atomic` and `entersweep`. What is alive afterwards is what tracing led to before, strings aside. The
     program's references stay good if and only if no missed metatable is lost; then nothing is freed that strong
     references lead to.
     */
    method AtomicStep(ghost garbage: set<Ref>)
      requires Valid(garbage) && phase.EnterAtomic?
      modifies this
      ensures Steady(garbage) && phase.SweepAllGc? && lost == old(Loses()) && IsWhite(white)
      ensures Sealed(heap, Safe(garbage)) <==> old(Loses()) == {}
      ensures AtomicKeeps(old(heap), heap, Safe(garbage))
      ensures forall o :: o in old(heap) && !old(heap)[o].Str? ==> (o in Safe(garbage) <==> o in old(Kept()))
      ensures SeparatesFinalized()
      ensures mainthread == old(mainthread) && running == old(running) && registry == old(registry) && mt == old(mt)
      ensures old(Loses()) == {} ==> forall o :: old(StronglyReachable(o)) ==> StronglyReachable(o)
    {
      hide WellSealed, Linked, LiveSet, HeapOk, SweepOk, MarkOk, RootsIn, AtomicEnd, Owned, Owners, Safe, Marked,
           HeldFrom, SameLive, AtomicKeeps, Refreshed, HeapPruned, HoldsOn, Kept, Loses, Roots, Sealed;
      ghost var roots := Roots();
      ghost var h1 := MarkAll(garbage);
      ghost var marked, h2 := Marked(color), heap;
      SealedThen();
      RootsAre(marked);
      EnterSweep(garbage);
      SteadyWhite(garbage);
      Intact(old(heap), h1, h2, roots, marked, garbage);
      AtomicKept(old(heap), h1, heap, marked);
    }

    lemma AtomicKept(h0: Heap, h1: Heap, h: Heap, s: set<Ref>)
      requires HeapPruned(h0, h1) && SameLive(Refreshed(h1), h, s)
      ensures AtomicKeeps(h0, h, s)
    {
      forall o | o in s && o in h0 ensures o in h && ObjectKept(h0[o], h[o]) {
        assert Pruned(h0[o], h1[o]) && SameObject(Refreshed(h1), h, s, o);
      }
    }

    lemma SealedThen()
      requires AtomicEnd(heap, color, white, twups, lost)
      ensures lost == {} ==> Sealed(heap, Marked(color))
    {
      CompleteIsWellSealed(heap, color, white, twups, lost);
    }

    lemma OwnedSame(h: Heap, h': Heap, lists: multiset<Ref>)
      requires Owned(h, lists) && h'.Keys == h.Keys
      ensures Owned(h', lists)
    {
    }

    /** Metatables are as they were. */
    lemma LostIsLost(h0: Heap, h: Heap, missed: set<Ref>, marked: set<Ref>)
      requires HeapPruned(h0, h) && forall o :: o in missed ==> o in h0 && h0[o].Table?
      ensures forall o :: o in missed ==> o in h && h[o].Table? && h[o].metatable == h0[o].metatable
    {
      forall o | o in missed ensures h[o].Table? && h[o].metatable == h0[o].metatable { assert Pruned(h0[o], h[o]); }
    }

    lemma AfterRefresh(h0: Heap, h1: Heap, garbage: set<Ref>, marked: set<Ref>)
      requires HeapPruned(h0, h1) && Linked(h0)
      ensures Refreshed(h1).Keys == h1.Keys == h0.Keys && Linked(h1) && Linked(Refreshed(h1))
      ensures HoldsOn(h0, h1, h0.Keys) && HoldsOn(h1, Refreshed(h1), h1.Keys)
      ensures forall o :: o in h0 ==>
        (Refreshed(h1)[o].Str? <==> h0[o].Str?) && (Refreshed(h1)[o].Thread? <==> h0[o].Thread?)
      ensures forall o :: o in h0 && h0[o].Table? ==>
        Refreshed(h1)[o].Table? && Refreshed(h1)[o].metatable == h0[o].metatable
    {
      PruningKeepsLinked(h0, h1);
      RefreshedIsLinked(h1);
      PrunedOn(h0, h1);
      RefreshedOn(h1);
      forall o | o in h0
        ensures (Refreshed(h1)[o].Str? <==> h0[o].Str?) && (Refreshed(h1)[o].Thread? <==> h0[o].Thread?)
        ensures h0[o].Table? ==> Refreshed(h1)[o].Table? && Refreshed(h1)[o].metatable == h0[o].metatable
      {
        assert Pruned(h0[o], h1[o]);
      }
    }

    /** After the atomic phase, references are good unless a table was lost. */
    lemma Intact(h0: Heap, h1: Heap, h2: Heap, roots: set<Ref>, marked: set<Ref>, garbage: set<Ref>)
      requires Steady(garbage) && IsWhite(white) && Safe(garbage) == marked && SameLive(h2, heap, marked)
      requires HoldsOn(h0, h1, h0.Keys) && HoldsOn(h1, h2, h1.Keys) && Linked(h2)
      requires roots <= Roots() && Roots() <= marked
      requires Dangling(h2, marked) && (lost == {} ==> Sealed(h2, marked))
      ensures Sealed(heap, Safe(garbage)) <==> lost == {}
      ensures lost == {} ==> forall o :: HeldFrom(h0, roots, o) ==> StronglyReachable(o)
    {
      hide MarkState, SweepState, Owned, Owners, TwupsLive, Linked, HeldFrom, HoldsOn, Holds, RootsIn, Roots;
      if lost == {} {
        HeldOn(h0, h1, roots, Roots());
        HeldOn(h1, h2, Roots(), Roots());
        HeldLives(h2, heap, marked, Roots());
      } else {
        var o :| o in lost;
        assert SameObject(h2, heap, marked, o);
        assert !Inside(heap, heap[o], marked);
      }
    }

    /**
     `singlestep`. In the pause before a cycle, anything unreachable may be declared garbage. Unless the atomic
     phase loses a metatable, no step frees an object that strong references lead to, nor cuts such a reference;
     the sweep frees none that can be reached at all, and changes none.
     */
    method SingleStep(emergency: bool, ghost garbage: set<Ref>, ghost found: set<Ref>)
      requires Steady(garbage) && (lost == {} || Sweeping(phase))
      requires if phase.Pause? then Unreachable(found) else found == {}
      modifies this
      ensures Steady(garbage + found) && IsWhite(white)
      ensures lost == if old(phase).EnterAtomic? then old(Loses()) else old(lost)
      ensures mainthread == old(mainthread) && running == old(running) && registry == old(registry) && mt == old(mt)
      ensures lost == {} ==> forall o :: old(StronglyReachable(o)) ==> StronglyReachable(o) && o in heap
      ensures lost == {} && !old(phase).EnterAtomic? ==> forall o :: old(Reachable(o)) ==> o in heap
      ensures Sweeping(old(phase)) ==> Safe(garbage) == old(Safe(garbage)) && SameLive(old(heap), heap, Safe(garbage))
      ensures old(phase).Pause? ==> Restarts()
      ensures old(phase).Propagate? ==> Propagates()
      ensures Sweeping(old(phase)) ==> Sweeps()
      ensures old(phase).SweepEnd? || old(phase).CallFin? ==> Ends(emergency)
      ensures old(phase).EnterAtomic? ==> phase.SweepAllGc? && AtomicKeeps(old(heap), heap, Safe(garbage))
      ensures old(phase).EnterAtomic? ==> SeparatesFinalized()
      ensures old(phase).EnterAtomic? && lost == {} ==> Sealed(heap, Safe(garbage))
      ensures old(phase).EnterAtomic? ==>
        forall o :: o in old(heap) && !old(heap)[o].Str? ==> (o in Safe(garbage) <==> o in old(Kept()))
    {
      hide HeapOk, MarkOk, SweepOk, Sealed, WellSealed, RootsIn, Unreachable, Safe, HeapPruned, HeapTidied,
           AtomicKeeps, SameLive, Roots, ReachedFrom, HeldFrom, LiveSet, Marked, GrayLists, HoldsOn, Kept, Loses,
           Sweeps;
      assert garbage + {} == garbage;
      HeapBasics(garbage);
      if lost == {} { Reached(garbage); }
      if Sweeping(phase) {
        SweepingStep(garbage);
        LiveStays(old(heap), heap, Safe(garbage));
      } else if phase.EnterAtomic? {
        AtomicStep(garbage);
      } else {
        OtherStep(emergency, garbage, found);
      }
      if lost == {} { StrongExists(garbage + found); }
    }

    /** A step at the beginning or at the end of a cycle, or of the propagate phase. */
    method OtherStep(emergency: bool, ghost garbage: set<Ref>, ghost found: set<Ref>)
      requires Valid(garbage) && (phase.Pause? || phase.Propagate? || phase.SweepEnd? || phase.CallFin?)
      requires if phase.Pause? then Unreachable(found) else found == {}
      modifies this
      ensures Valid(garbage + found) && IsWhite(white) && heap.Keys == old(heap).Keys
      ensures mainthread == old(mainthread) && running == old(running) && registry == old(registry) && mt == old(mt)
      ensures forall o :: old(StronglyReachable(o)) ==> StronglyReachable(o)
      ensures old(phase).Pause? ==> Restarts()
      ensures old(phase).Propagate? ==> Propagates()
      ensures old(phase).SweepEnd? || old(phase).CallFin? ==> Ends(emergency)
    {
      hide HeapOk, MarkOk, SweepOk, Sealed, WellSealed, RootsIn, Unreachable, Safe, HeapPruned, HeapTidied, Roots,
           HeldFrom, LiveSet, Marked, GrayLists, HoldsOn;
      assert garbage + {} == garbage;
      HeapBasics(garbage);
      if phase.Pause? {
        RestartCollection(garbage, found);
      } else if phase.Propagate? {
        PropagatingStep(garbage);
      } else {
        EndStep(emergency, garbage);
      }
      HeapBasics(garbage + found);
    }

    /** A step after the sweep. */
    method EndStep(emergency: bool, ghost garbage: set<Ref>)
      requires Valid(garbage) && (phase.SweepEnd? || phase.CallFin?)
      modifies this
      ensures Valid(garbage) && heap.Keys == old(heap).Keys
      ensures mainthread == old(mainthread) && running == old(running) && registry == old(registry) && mt == old(mt)
      ensures forall o :: old(StronglyReachable(o)) ==> StronglyReachable(o)
      ensures Ends(emergency)
    {
      hide HeapOk, MarkOk, SweepOk, Sealed, WellSealed, RootsIn, Safe, Roots, HeldFrom, LiveSet, HoldsOn, PushedOn,
           LinkedBefore;
      if phase.SweepEnd? {
        NextSweep(CallFin, Done, garbage);
      } else if tobefnz != [] && !emergency {
        FinalizersStep(garbage);
      } else {
        NextSweep(Pause, Done, garbage);
      }
    }

    /** A step of the propagate phase; nothing that is held is let go. */
    method PropagatingStep(ghost garbage: set<Ref>)
      requires Valid(garbage) && phase.Propagate?
      modifies `phase, `heap, `color, `gray, `grayagain, `weak, `allweak, `ephemeron, `twups
      ensures Valid(garbage) && (phase.Propagate? || phase.EnterAtomic?)
      ensures Propagates() && heap.Keys == old(heap).Keys
      ensures forall o :: old(StronglyReachable(o)) ==> StronglyReachable(o)
    {
      hide HeapOk, MarkOk, SweepOk, Sealed, WellSealed, RootsIn, Safe, HeapPruned, HeapTidied, Roots, HeldFrom,
           LiveSet, Marked, HoldsOn;
      HeapBasics(garbage);
      PropagateStep(garbage);
      PrunedKeys(old(heap), heap);
      PrunedOn(old(heap), heap);
      HeldOn(old(heap), heap, Roots(), Roots());
    }

    /** A step of the sweep leaves what the program holds alone. */
    method SweepingStep(ghost garbage: set<Ref>)
      requires Steady(garbage) && Sweeping(phase)
      modifies `heap, `color, `gray, `allgc, `finobj, `tobefnz, `sweepgc, `phase
      ensures Steady(garbage) && Safe(garbage) == old(Safe(garbage)) && SameLive(old(heap), heap, Safe(garbage))
      ensures Sweeps()
      ensures lost == {} ==> forall o :: old(StronglyReachable(o)) ==> StronglyReachable(o)
    {
      hide HeapOk, MarkOk, SweepOk, Sealed, WellSealed, RootsIn, Safe, SameLive, HeldFrom, LiveSet, AtRest, Rest;
      ghost var roots := Roots();
      HeapBasics(garbage);
      if lost == {} { RootsAreSafe(garbage); }
      SweepStep(garbage);
      HeapBasics(garbage);
      if lost == {} {
        StillRoots(old(tobefnz), roots, Safe(garbage));
        HeldLives(old(heap), heap, Safe(garbage), roots);
        HeldMore(heap, roots, Roots());
      }
    }

    /** Finalizers get their objects from the list of those to be finalized. */
    method FinalizersStep(ghost garbage: set<Ref>)
      requires Valid(garbage) && phase.CallFin?
      modifies `heap, `tobefnz, `allgc
      ensures Valid(garbage) && heap.Keys == old(heap).Keys
      ensures forall o :: old(StronglyReachable(o)) ==> StronglyReachable(o)
      ensures HandsOver()
    {
      hide HeapOk, MarkOk, SweepOk, Sealed, WellSealed, RootsIn, Safe, HeldFrom, HoldsOn, LiveSet, PushedOn,
           LinkedBefore;
      HeapBasics(garbage);
      TopOk(heap, running);
      ghost var n, roots, h := if GCFINMAX <= |tobefnz| then GCFINMAX else |tobefnz|, Roots(), heap;
      ghost var moved := tobefnz[..n];
      RunAFewFinalizers(GCFINMAX, garbage);
      PushedOnHolds(h, heap, running, moved);
      HeldOn(h, heap, roots, Roots() + Elems(moved));
      HeldByThread(heap, Roots(), running, Elems(moved));
    }

    lemma StrongExists(garbage: set<Ref>)
      requires Valid(garbage)
      ensures forall o :: StronglyReachable(o) ==> o in heap
    {
      hide HeapOk, MarkOk, SweepOk, Sealed, WellSealed, RootsIn, ReachedFrom, HeldFrom, Roots, Safe;
      Reached(garbage);
    }

    lemma RootsAreSafe(garbage: set<Ref>)
      requires Valid(garbage)
      ensures IsWhite(white) && Roots() <= Safe(garbage) && Sealed(heap, Safe(garbage))
    {
      hide HeapOk, MarkOk, SweepOk, Sealed, Roots, LiveSet;
      SafeIsNoGarbage(garbage);
      RootsAre(Safe(garbage));
    }

    /** A sweep frees no root. */
    lemma StillRoots(tobefnz0: seq<Ref>, roots: set<Ref>, s: set<Ref>)
      requires roots <= s && forall o :: o in tobefnz0 && o in s ==> o in tobefnz
      requires roots == {mainthread,
        running} + Elems(tobefnz0) + Elems(fixedgc) + (if registry.Gc? then {registry.ref} else {})
                        + set i | 0 <= i < |mt| && mt[i].Gc? :: mt[i].ref
      ensures roots <= Roots()
    {
      forall o | o in Elems(tobefnz0) ensures o in Elems(tobefnz) { assert o in roots; }
    }

    /** Reachable objects are safe; what is strongly reachable exists in any case. */
    lemma Reached(garbage: set<Ref>)
      requires Valid(garbage)
      ensures IsWhite(white) && Safe(garbage) <= heap.Keys
      ensures forall o :: Reachable(o) ==> o in Safe(garbage)
      ensures forall o :: StronglyReachable(o) ==> Reachable(o)
    {
      hide HeapOk, MarkOk, SweepOk, Sealed, RootsIn, ReachedFrom, HeldFrom, Roots, Safe;
      SafeIsNoGarbage(garbage);
      forall o | Reachable(o) ensures o in Safe(garbage) { ReachableExists(garbage, o); }
      forall o | StronglyReachable(o) ensures Reachable(o) { HeldIsReached(heap, Roots(), o); }
    }

    // ----- the instructions of the program -----

    /** A stack slot that the running thread uses. */
    predicate IsReg(i: nat)
      reads `heap, `running
    {
      running in heap && heap[running].Thread? && i < heap[running].top && heap[running].top <= |heap[running].stack|
    }

    function Reg(i: nat): Value
      requires IsReg(i)
      reads `heap, `running
    {
      heap[running].stack[i]
    }

    lemma RegIsSafe(i: nat, garbage: set<Ref>)
      requires Valid(garbage) && IsReg(i)
      ensures IsWhite(white) && ValueIn(Reg(i), Safe(garbage)) && Safe(garbage) <= heap.Keys && color.Keys == heap.Keys
      ensures running in Safe(garbage) && Linked(heap) && Sealed(heap, Safe(garbage))
    {
      hide MarkOk, SweepOk, Linked, TwupsLive, Owned, Owners;
      SafeIsNoGarbage(garbage);
      assert Inside(heap, heap[running], Safe(garbage));
    }

    /** Writes a register. */
    method SetReg(dst: nat, v: Value, ghost garbage: set<Ref>)
      requires Valid(garbage) && IsReg(dst) && ValueIn(v, Safe(garbage))
      modifies `heap
      ensures Valid(garbage) && Safe(garbage) == old(Safe(garbage))
      ensures heap == old(heap)[running := old(heap)[running].(stack := old(heap)[running].stack[dst := v])]
    {
      hide HeapOk, MarkOk, SweepOk, Sealed, RootsIn, Safe;
      StackWrite(running, dst, v, garbage);
    }

    method DoCreate(dst: nat, blank: Object, ghost garbage: set<Ref>)
      requires Valid(garbage)
      modifies `heap, `color, `allgc, `next
      ensures Valid(garbage) && Creates(dst, blank)
    {
      hide HeapOk, MarkOk, SweepOk, Sealed, RootsIn, Safe, Blank;
      if IsReg(dst) && Blank(blank) {
        RegIsSafe(dst, garbage);
        var o := New(blank, garbage);
        SetReg(dst, Gc(o), garbage);
      }
    }

    /** `internshrstr` finding a string that may be dead but is not collected yet. */
    method DoIntern(dst: nat, str: Ref, ghost garbage: set<Ref>)
      requires Valid(garbage)
      modifies `heap, `color
      ensures Valid(garbage - {str}) || Valid(garbage)
      ensures str in old(heap) && old(heap)[str].Str? ==> Valid(garbage - {str})
      ensures Interns(dst, str)
      ensures !(str in old(heap) && old(heap)[str].Str?) ==> Valid(garbage)
    {
      hide HeapOk, MarkOk, SweepOk, Sealed, RootsIn, Safe;
      if str in heap && heap[str].Str? {
        Resurface(str, garbage);
        if IsReg(dst) {
          SetReg(dst, Gc(str), garbage - {str});
        }
      }
    }

    /** A dead string turns white again. */
    method Resurface(str: Ref, ghost garbage: set<Ref>)
      requires Valid(garbage) && str in heap && heap[str].Str?
      modifies `color
      ensures Valid(garbage - {str}) && str in Safe(garbage - {str})
    {
      hide HeapState, MarkState, SweepState, Sealed, RootsIn, LiveSet;
      HeapBasics(garbage);
      SafeIsNoGarbage(garbage);
      InternKeepsSealed(heap, Safe(garbage), str);
      RootsMore(Safe(garbage), Safe(garbage) + {str});
      if InMarking() {
        InternKeepsMarkState(heap, color, white, gray, grayagain, weak, allweak, ephemeron, twups, finobj, mainthread,
          garbage, str);
        LessGarbage(heap, color, white, twups, allgc, finobj, tobefnz, fixedgc, running, next, garbage,
          garbage - {str});
        assert heap.Keys - (garbage - {str}) == heap.Keys - garbage + {str};
        NoneDead(garbage);
      } else {
        InternKeepsSweepState(heap, color, white, phase, sweepgc, allgc, finobj, tobefnz, fixedgc, running, next, twups,
          garbage, str);
      }
      if color[str] == OtherWhite(white) {
        color := color[str := white];
      }
    }

    lemma NoneDead(garbage: set<Ref>)
      requires Valid(garbage) && InMarking()
      ensures IsWhite(white) && forall o :: o in color ==> color[o] != OtherWhite(white)
    {
      hide HeapState, Sealed, RootsIn, ListsOk, TwupsOk, Traced, HeapClosed;
    }

    /** A copy of a register, or of a field of the object in it. */
    method DoLoad(dst: nat, src: nat, field: Field, ghost garbage: set<Ref>)
      requires Valid(garbage)
      modifies `heap
      ensures Valid(garbage) && Loads(dst, src, field)
    {
      hide HeapOk, MarkOk, SweepOk, Sealed, RootsIn, Safe, Get;
      if IsReg(dst) && IsReg(src) {
        RegIsSafe(src, garbage);
        var v := Reg(src);
        if v.Gc? {
          GetIsSafe(heap, v.ref, field, Safe(garbage));
          SetReg(dst, Get(heap, v.ref, field), garbage);
        }
      }
    }

    /** A store into a field, with the barrier that objects of its kind have. */
    method DoStore(obj: nat, field: Field, src: nat, ghost garbage: set<Ref>)
      requires Valid(garbage)
      modifies `heap, `color, `gray, `grayagain, `weak, `allweak, `ephemeron
      ensures Valid(garbage) && StoresIn(obj, field, src) && Stores(obj, field, src)
    {
      hide HeapOk, MarkOk, SweepOk, Sealed, RootsIn, Safe, Put, Adds, MetatableOk, SameKind, Linked, Marked, Within;
      if IsReg(obj) && IsReg(src) && Reg(obj).Gc? {
        RegIsSafe(obj, garbage);
        RegIsSafe(src, garbage);
        var o, v := Reg(obj).ref, Reg(src);
        Before(o, garbage);
        SlotOfLinked(heap, o);
        PutAdds(heap, heap[o], field, v);
        match heap[o] {
          case Str =>
            NothingToPut(heap[o], field, v);
          case OpenUpVal(th, level) =>
            StackWrite(th, level, v, garbage);
          case Thread(stack, top, _) =>
            if field.Element? && field.n < |stack| {
              StackWrite(o, field.n, v, garbage);
            }
          case Userdata(_, uvs) =>
            if uvs != [] {
              StoreBack(o, Put(heap[o], field, v), Nil, v, garbage);
            } else {
              NothingToPut(heap[o], field, v);
            }
          case Table(_, _, _, _) =>
            KeepsLeft(heap[o], Put(heap[o], field, v));
            StoreBack(o, Put(heap[o], field, v), Nil, v, garbage);
          case _ =>
            StoreForward(o, Put(heap[o], field, v), v, garbage);
        }
      }
    }

    lemma KeepsLeft(o: Object, o': Object)
      requires o.Table? && o'.Table? && o'.weakness == o.weakness && o'.metatable == o.metatable
      ensures LeftAllWeak(o) ==> LeftAllWeak(o')
    {
    }

    /** `luaH_newkey` putting a key into a free node. */
    method DoStoreKey(obj: nat, node: nat, key: nat, src: nat, ghost garbage: set<Ref>)
      requires Valid(garbage)
      modifies `heap, `color, `gray, `grayagain, `weak, `allweak, `ephemeron
      ensures Valid(garbage) && StoresKey(obj, node, key, src)
    {
      hide HeapOk, MarkOk, SweepOk, Sealed, RootsIn, Safe, PutKey, Adds, MetatableOk, SameKind, Linked, Marked, Within;
      if IsReg(obj) && IsReg(key) && IsReg(src) && Reg(obj).Gc? {
        RegIsSafe(obj, garbage);
        RegIsSafe(key, garbage);
        RegIsSafe(src, garbage);
        var o, k, v := Reg(obj).ref, Reg(key), Reg(src);
        Before(o, garbage);
        if heap[o].Table? {
          PutKeyAdds(heap, heap[o], node, k, v);
          KeepsLeft(heap[o], PutKey(heap[o], node, k, v));
          StoreBack(o, PutKey(heap[o], node, k, v), k, v, garbage);
        }
      }
    }

    /** `luaH_resize`: no barrier, as nothing new is referred to. */
    method DoRehash(obj: nat, arr: seq<Value>, nodes: seq<Node>, ghost garbage: set<Ref>)
      requires Valid(garbage)
      modifies `heap, `color, `gray
      ensures Valid(garbage) && Rehashes(obj, arr, nodes)
    {
      hide HeapOk, MarkOk, SweepOk, Sealed, RootsIn, Safe, Adds, MetatableOk, SameKind, Linked, Marked, Within;
      if IsReg(obj) && Reg(obj).Gc? {
        RegIsSafe(obj, garbage);
        var o := Reg(obj).ref;
        Before(o, garbage);
        if Rehashed(heap[o], arr, nodes) {
          var o' := heap[o].(arr := arr, nodes := nodes);
          RehashAdds(heap, heap[o], arr, nodes);
          KeepsLeft(heap[o], o');
          StoreForward(o, o', Nil, garbage);
        }
      }
    }

    method DoSetRegistry(src: nat, ghost garbage: set<Ref>)
      requires Valid(garbage)
      modifies `registry
      ensures Valid(garbage) && Registers(src) && registry == old(if IsReg(src) then Reg(src) else registry)
    {
      hide HeapState, MarkState, SweepState, Sealed, LiveSet;
      if IsReg(src) {
        RegIsSafe(src, garbage);
        registry := Reg(src);
      }
    }

    method DoSetBasicMetatable(kind: nat, src: nat, ghost garbage: set<Ref>)
      requires Valid(garbage)
      modifies `mt
      ensures Valid(garbage) && mt == old(if IsReg(src) && kind < |mt| then mt[kind := Reg(src)] else mt)
    {
      hide HeapState, MarkState, SweepState, Sealed, LiveSet;
      if IsReg(src) && kind < |mt| {
        RegIsSafe(src, garbage);
        mt := mt[kind := Reg(src)];
      }
    }

    /** The top of the stack moves; variables above it leave scope, and their upvalues are closed. */
    method DoSetTop(n: nat, ghost garbage: set<Ref>)
      requires Valid(garbage)
      modifies `heap, `color, `gray
      ensures Valid(garbage) && Tops(n) && LeavesScope(n)
    {
      hide HeapOk, MarkOk, SweepOk, Sealed, RootsIn, Safe, SameCells, OnlyClosed, BelowStay, Linked;
      HeapBasics(garbage);
      CloseUpvals(running, n, garbage);
      ScopeLeft(old(heap), heap, running, n);
      SetTop(n, garbage);
    }

    method DoCapture(dst: nat, level: nat, ghost garbage: set<Ref>)
      requires Valid(garbage)
      modifies `heap, `color, `allgc, `next, `twups
      ensures Valid(garbage) && Captures(dst, level)
    {
      hide HeapOk, MarkOk, SweepOk, Sealed, RootsIn, Safe;
      if IsReg(dst) && IsReg(level) {
        RegIsSafe(dst, garbage);
        var u := Capture(level, garbage);
        SetReg(dst, Gc(u), garbage);
      }
    }

    method DoClose(level: nat, ghost garbage: set<Ref>)
      requires Valid(garbage)
      modifies `heap, `color, `gray
      ensures Valid(garbage) && Closes(level)
    {
      hide HeapOk, MarkOk, SweepOk, Sealed, RootsIn, Safe, SameCells, OnlyClosed;
      HeapBasics(garbage);
      CloseUpvals(running, level, garbage);
    }

    /** Another thread runs: one the program has at hand, or the main thread. */
    method Switch(th: Ref, ghost garbage: set<Ref>)
      requires Valid(garbage) && IsWhite(white) && th in Safe(garbage) && th in heap && heap[th].Thread?
      modifies `running
      ensures Valid(garbage) && running == th
    {
      hide MarkState, SweepState, Sealed, LiveSet, Owned, Owners, TwupsLive, Linked;
      running := th;
    }

    method DoResume(src: nat, ghost garbage: set<Ref>)
      requires Valid(garbage)
      modifies `running
      ensures Valid(garbage)
      ensures running ==
        old(if ObjReg(src) && heap[Reg(src).ref].Thread? then Reg(src).ref else running)
    {
      hide HeapOk, MarkOk, SweepOk, Sealed, RootsIn, Safe;
      if IsReg(src) && Reg(src).Gc? {
        RegIsSafe(src, garbage);
        var th := Reg(src).ref;
        if heap[th].Thread? {
          Switch(th, garbage);
        }
      }
    }

    method DoResumeMain(ghost garbage: set<Ref>)
      requires Valid(garbage)
      modifies `running
      ensures Valid(garbage) &&
        running == old(if mainthread in heap && heap[mainthread].Thread? then mainthread else running)
    {
      hide HeapOk, MarkOk, SweepOk, Sealed, Safe;
      SafeIsNoGarbage(garbage);
      if heap[mainthread].Thread? {
        Switch(mainthread, garbage);
      }
    }

    /** A register gets one of the values that need no object. */
    method DoLoadRoot(dst: nat, v: Value, ghost garbage: set<Ref>)
      requires Valid(garbage) && (!v.Gc? || v == registry || v in mt)
      modifies `heap
      ensures Valid(garbage) && LoadsValue(dst, v) && (v.Nil? ==> Clears(dst))
    {
      hide HeapOk, MarkOk, SweepOk, Sealed, Safe;
      if IsReg(dst) {
        RegIsSafe(dst, garbage);
        SetReg(dst, v, garbage);
      }
    }

    // ----- metatables and finalizers -----

    /**
     `luaC_checkfinalizer`: the object moves from `allgc` to `finobj`, unless it is marked for finalization
     already. While sweeping it counts as swept, and the sweep must not go on from it.
     */
    method CheckFinalizer(o: Ref, ghost garbage: set<Ref>)
      requires Valid(garbage) && IsWhite(white) && o in Safe(garbage) && o in heap && !heap[o].Str?
      modifies `heap, `color, `gray, `allgc, `finobj, `tobefnz, `sweepgc
      ensures Valid(garbage)
      ensures (o in finobj || o in tobefnz) && tobefnz == old(tobefnz)
      ensures SameLive(old(heap), heap, Safe(garbage)) && Safe(garbage) == old(Safe(garbage))
      ensures finobj == old(if o in finobj || o in tobefnz then finobj else [o] + finobj)
    {
      hide HeapOk, MarkOk, SweepOk, Sealed, RootsIn, Safe, SameLive;
      SameLiveReflexive(heap, Safe(garbage));
      if o !in finobj && o !in tobefnz {
        NotFixed(o, garbage);
        if Sweeping(phase) || phase.SweepEnd? {
          MakeWhite(o, garbage, {});
          if sweepgc == SweepPos.Next(o) {
            PositionInAllGc(o, garbage);
            SweepToLive(garbage);
            LiveStays(old(heap), heap, Safe(garbage));
            NotFixed(o, garbage);
          }
        }
        MoveToFinObj(o, garbage);
      }
    }

    lemma NotFixed(o: Ref, garbage: set<Ref>)
      requires Valid(garbage) && o in heap && !heap[o].Str?
      ensures o !in fixedgc && o in color
    {
      hide MarkState, SweepState, Sealed, Linked, TwupsLive, Owned, Owners;
    }

    lemma PositionInAllGc(o: Ref, garbage: set<Ref>)
      requires Valid(garbage) && (Sweeping(phase) || phase.SweepEnd?) && sweepgc == SweepPos.Next(o)
      requires o !in finobj && o !in tobefnz
      ensures phase.SweepAllGc?
    {
      hide HeapState, MarkState, Sealed;
    }

    /** Unlinks the object from `allgc` and links it to `finobj`. */
    method MoveToFinObj(o: Ref, ghost garbage: set<Ref>)
      requires Valid(garbage) && IsWhite(white) && o in Safe(garbage) && o in heap && !heap[o].Str?
      requires o !in finobj && o !in tobefnz && o in color
      requires phase.SweepAllGc? ==> sweepgc != SweepPos.Next(o)
      requires Sweeping(phase) && !phase.SweepAllGc? ==> color[o] == white
      modifies `allgc, `finobj
      ensures Valid(garbage) && finobj == [o] + old(finobj)
      ensures multiset(allgc) == multiset(old(allgc)) - multiset{o}
    {
      hide HeapState, MarkState, SweepState, Sealed, LiveSet, Linked, Owned, Owners, RootsIn, PosIn, Without, NoRepeats;
      NotFixed(o, garbage);
      OwnerOf(o, garbage);
      SafeIsNoGarbage(garbage);
      OwnersOk(garbage);
      var i := IndexOf(allgc, o);
      FinalizerKeepsOwners(heap, allgc, finobj, tobefnz, fixedgc, i);
      WithoutCounts(allgc, i);
      if !InMarking() {
        WhiteAtEnd(o, garbage);
        FinalizerKeepsSweepState(heap, color, white, phase, sweepgc, allgc, finobj, tobefnz, fixedgc, garbage, i);
      } else {
        FinalizerKeepsMarkState(heap, color, white, gray, grayagain, weak, allweak, ephemeron, twups, finobj,
                                mainthread, garbage, o);
      }
      FinalizerKeepsHeapState(heap, color, white, twups, allgc, finobj, tobefnz, fixedgc, running, next, garbage, i);
      allgc, finobj := Without(allgc, i), [o] + finobj;
    }

    lemma OwnersOk(garbage: set<Ref>)
      requires Valid(garbage)
      ensures Owned(heap, Owners(allgc, finobj, tobefnz, fixedgc))
    {
      hide MarkState, SweepState, Sealed, Linked, TwupsLive;
    }

    /** Outside the lists still to be swept everything is white. */
    lemma WhiteAtEnd(o: Ref, garbage: set<Ref>)
      requires Valid(garbage) && !InMarking() && o in heap && o !in fixedgc && o in color
      ensures IsWhite(white) && (!Sweeping(phase) ==> color[o] == white)
    {
      hide MarkState, Sealed, Linked, TwupsLive, Owned, Owners;
    }

    /** Every object that is not fixed nor subject to finalization is in `allgc`. */
    lemma OwnerOf(o: Ref, garbage: set<Ref>)
      requires Valid(garbage) && o in heap && o !in finobj && o !in tobefnz && o !in fixedgc
      ensures o in allgc
    {
      hide MarkState, SweepState, Sealed, Linked, TwupsLive;
      assert Owners(allgc, finobj, tobefnz, fixedgc)[o] == 1;
    }

    /** How a table is held that has the mode `m` now: what the collector has in `allweak` stays all-weak. */
    function Held(o: Ref, m: Mode): Weakness
      reads `phase, `allweak
    {
      if (phase.Propagate? || phase.EnterAtomic?) && o in allweak then AllWeak(m) else Treated(m)
    }

    /** `lua_setmetatable`: a forward barrier for the metatable, and a check for finalizers. */
    method DoSetMetatable(obj: nat, mt: nat, mode: Mode, finalizer: bool, ghost garbage: set<Ref>)
      requires Valid(garbage)
      modifies `heap, `color, `gray, `allgc, `finobj, `tobefnz, `sweepgc
      ensures Valid(garbage) && tobefnz == old(tobefnz)
      ensures finalizer ==> SetsWithFinalizer(obj, mt, mode)
      ensures !finalizer ==>
        allgc == old(allgc) && finobj == old(finobj) && tobefnz == old(tobefnz) && sweepgc == old(sweepgc)
      ensures !finalizer ==> SetsWithout(obj, mt, mode) && SetsIt(obj, mt, mode)
      ensures !finalizer && old(SetsMetatable(obj, mt)) && old(Reg(obj).ref in color && !color[Reg(obj).ref].Black?) ==>
        color == old(color) && gray == old(gray)
    {
      hide HeapOk, MarkOk, SweepOk, Sealed, WellSealed, RootsIn, Safe, PutMetatable, Adds, MetatableOk, SameKind,
           Linked, Within;
      if IsReg(obj) && IsReg(mt) && Reg(obj).Gc? {
        RegIsSafe(obj, garbage);
        RegIsSafe(mt, garbage);
        var o, v := Reg(obj).ref, Reg(mt);
        Before(o, garbage);
        if (heap[o].Table? || heap[o].Userdata?) && (v.Nil? || (v.Gc? && heap[v.ref].Table?)) {
          var w := Held(o, mode);
          var obj' := PutMetatable(heap[o], v, w);
          PutMetatableAdds(heap, heap[o], v, w);
          PutMetatableKind(heap[o], v, w);
          StoreForward(o, obj', v, garbage);
          if finalizer && v.Gc? {
            CheckFinalizer(o, garbage);
          }
        }
      }
    }

    /** The registers have a table or userdata, and a metatable or nil. */
    predicate SetsMetatable(obj: nat, mt: nat)
      reads `heap, `running
    {
      && IsReg(obj) && IsReg(mt) && Reg(obj).Gc? && Reg(obj).ref in heap
      && (heap[Reg(obj).ref].Table? || heap[Reg(obj).ref].Userdata?)
      && (Reg(mt).Nil? || (Reg(mt).Gc? && Reg(mt).ref in heap && heap[Reg(mt).ref].Table?))
    }

    /** The `__mode` of a table's metatable changes, which no barrier sees. */
    method DoSetMode(obj: nat, mode: Mode, ghost garbage: set<Ref>)
      requires Valid(garbage)
      modifies `heap, `color, `gray
      ensures Valid(garbage)
      ensures HasMode(obj, mode) && ChangesMode(obj, mode)
      ensures color == old(color) && gray == old(gray)
    {
      hide HeapOk, MarkOk, SweepOk, Sealed, WellSealed, RootsIn, Safe, PutMetatable, Adds, MetatableOk, SameKind,
           Linked, Within;
      if IsReg(obj) && Reg(obj).Gc? {
        RegIsSafe(obj, garbage);
        var o := Reg(obj).ref;
        Before(o, garbage);
        if heap[o].Table? {
          var w := Held(o, mode);
          var obj' := PutMetatable(heap[o], heap[o].metatable, w);
          SameMetatableAdds(heap, heap[o], w);
          PutMetatableKind(heap[o], heap[o].metatable, w);
          StoreForward(o, obj', Nil, garbage);
        }
      }
    }

    // ----- what the atomic phase misses -----

    /** Tables in `allweak`, not to be traversed again, whose metatables are not marked. */
    ghost function Missed(): (m: set<Ref>)
      reads `heap, `color, `allweak
      ensures forall o :: o in m ==> o in allweak && o in heap && heap[o].Table?
    {
      set o | o in allweak && o in heap && heap[o].Table? && !ValueIn(heap[o].metatable, Marked(color))
    }

    /** The roots that the atomic phase marks first, whatever was done about them. */
    ghost function Globals(): set<Ref>
      reads `running, `registry, `mt
    {
      {running} + (if registry.Gc? then {registry.ref} else {}) + set i | 0 <= i < |mt| && mt[i].Gc? :: mt[i].ref
    }

    /** What is marked and these roots lead to, without the help of objects with finalizers. */
    ghost function Near(): set<Ref>
      reads `heap, `color, `allweak, `running, `registry, `mt
    {
      Forced(heap, Marked(color) + Globals(), Missed())
    }

    /**
     The atomic phase tells which objects are to be finalized: just those with finalizers that nothing leads to but
     such objects. They go to the end of `tobefnz`, in the order of `finobj`; the others stay.
     */
    twostate predicate SeparatesFinalized()
      reads `finobj, `tobefnz
    {
      && |old(tobefnz)| <= |tobefnz| && tobefnz[..|old(tobefnz)|] == old(tobefnz)
      && var moved := tobefnz[|old(tobefnz)|..];
      && multiset(finobj) + multiset(moved) == multiset(old(finobj))
      && InOrder(finobj, old(finobj)) && InOrder(moved, old(finobj))
      && (forall o :: o in finobj && o in old(heap) && !old(heap)[o].Str? ==> o in old(Near()))
      && (forall o :: o in moved && o in old(heap) && !old(heap)[o].Str? ==> o !in old(Near()))
    }

    /** What the atomic phase starts from: all that is marked, the roots, and the objects with finalizers. */
    ghost function Beginning(): set<Ref>
      reads `heap, `color, `mainthread, `running, `registry, `mt, `tobefnz, `fixedgc, `finobj
    {
      Marked(color) + Roots() + Elems(finobj)
    }

    /** What the atomic phase is going to mark: all that tracing leads to from there, these tables aside. */
    ghost function Kept(): set<Ref>
      reads `heap, `color, `allweak, `mainthread, `running, `registry, `mt, `tobefnz, `fixedgc, `finobj
    {
      Forced(heap, Beginning(), Missed())
    }

    /** The tables whose metatables the atomic phase is going to lose. */
    ghost function Loses(): set<Ref>
      reads `heap, `color, `allweak, `mainthread, `running, `registry, `mt, `tobefnz, `fixedgc, `finobj
    {
      set o | o in Missed() && !ValueIn(heap[o].metatable, Kept())
    }

    /** Some table in `allweak` has a metatable that is not marked: a test the program could make. */
    predicate MayLose()
      reads `heap, `color, `allweak
    {
      exists i :: 0 <= i < |allweak| && Unmarked(allweak[i])
    }

    predicate Unmarked(o: Ref)
      reads `heap, `color
    {
      && o in heap && heap[o].Table? && heap[o].metatable.Gc?
      && heap[o].metatable.ref in color && IsWhite(color[heap[o].metatable.ref])
    }

    lemma NothingMissed()
      requires color.Keys == heap.Keys && forall o :: o in heap ==> Within(heap[o], heap.Keys)
      ensures Missed() != {} ==> MayLose()
      ensures !MayLose() ==> Loses() == {}
    {
      if o :| o in Missed() {
        var i :| 0 <= i < |allweak| && allweak[i] == o;
        assert Within(heap[o], heap.Keys) && Unmarked(allweak[i]);
      }
    }

    lemma NothingMissedNow(garbage: set<Ref>)
      requires Valid(garbage) && InMarking()
      ensures !MayLose() ==> Loses() == {}
    {
      hide HeapState, SweepState, ListsOk, TwupsOk, Linked, Traced, MayLose, Loses;
      NothingMissed();
    }

    /** The step that enters the sweep would be taken while some table may lose its metatable. */
    predicate Careless(c: Command)
      reads `heap, `color, `phase, `allweak
    {
      c.Step? && phase.EnterAtomic? && MayLose()
    }

    /**
     Executes one command. `found` may be declared garbage when a cycle starts. The result is what is
     still garbage: strings that are handed out again are not. If the atomic phase has lost a metatable, the sweep
     can still go on.
     */
    method Execute(c: Command, ghost garbage: set<Ref>, ghost found: set<Ref>) returns (ghost left: set<Ref>)
      requires Steady(garbage) && (lost == {} || (c.Step? && Sweeping(phase)))
      requires if c.Step? && phase.Pause? then Unreachable(found) else found == {}
      modifies this
      ensures garbage + found - Interned([c]) <= left <= garbage + found
      ensures Steady(left) && IsWhite(white)
      ensures lost == if c.Step? && old(phase).EnterAtomic? then old(Loses()) else old(lost)
      ensures c.Step? ==>
        mainthread == old(mainthread) && running == old(running) && registry == old(registry) && mt == old(mt)
      ensures c.Create? ==> Creates(c.dst, c.blank)
      ensures c.Clear? ==> Clears(c.dst)
      ensures c.Store? ==> Stores(c.obj, c.field, c.src)
      ensures c.SetRegistry? ==> Registers(c.src)
      ensures c.SetTop? ==> Tops(c.top)
      ensures c.SetMetatable? && !c.finalizer ==> SetsIt(c.obj, c.mt, c.mode)
      ensures c.SetMode? ==> ChangesMode(c.obj, c.mode)
      ensures Does(c) && (!c.Step? ==> Leaves(c))
      ensures c.Step? && old(phase).Pause? ==> Restarts()
      ensures c.Step? && old(phase).Propagate? ==> Propagates()
      ensures c.Step? && Sweeping(old(phase)) ==> Sweeps()
      ensures c.Step? && (old(phase).SweepEnd? || old(phase).CallFin?) ==> Ends(c.emergency)
      ensures c.Step? && lost == {} ==> forall o :: old(StronglyReachable(o)) ==> StronglyReachable(o) && o in heap
      ensures c.Step? && Sweeping(old(phase)) ==>
        left == garbage && Safe(garbage) == old(Safe(garbage)) && SameLive(old(heap), heap, Safe(garbage))
      ensures c.Step? && old(phase).EnterAtomic? ==> left == garbage && phase.SweepAllGc?
      ensures c.Step? && old(phase).EnterAtomic? ==> AtomicKeeps(old(heap), heap, Safe(garbage))
      ensures c.Step? && old(phase).EnterAtomic? ==> SeparatesFinalized()
      ensures c.Step? && old(phase).EnterAtomic? && lost == {} ==> Sealed(heap, Safe(garbage))
      ensures c.Step? && old(phase).EnterAtomic? ==>
        forall o :: o in old(heap) && !old(heap)[o].Str? ==> (o in Safe(garbage) <==> o in old(Kept()))
    {
      hide HeapOk, MarkOk, SweepOk, Sealed, WellSealed, RootsIn, Safe, HeldFrom, Roots, Kept, Loses, SameLive,
           HeapPruned, HeapTidied, AtomicKeeps, SuffixOf, Marked, Sweeps, Steady, Creates, Clears, Stores, Tops,
           Restarts, Propagates, StronglyReachable, Unreachable, Moves, Loads, LoadsValue, Interns, StoresKey, Rehashes,
           Captures, Closes, SetsWithFinalizer, Ends;
      left := if c.Intern? && c.str in heap && heap[c.str].Str? then garbage - {c.str} else garbage + found;
      InternedOne(c, garbage);
      assert found == {} ==> garbage + found == garbage;
      if c.Step? {
        SingleStep(c.emergency, garbage, found);
      } else {
        Obey(c, garbage, left);
      }
      SteadyWhite(left);
    }

    /** A command of the program. */
    method Obey(c: Command, ghost garbage: set<Ref>, ghost left: set<Ref>)
      requires Valid(garbage) && !c.Step?
      requires left == if c.Intern? && c.str in heap && heap[c.str].Str? then garbage - {c.str} else garbage
      modifies this
      ensures Valid(left) && Does(c) && Leaves(c)
      ensures c.Create? ==> Creates(c.dst, c.blank)
      ensures c.Clear? ==> Clears(c.dst)
      ensures c.Store? ==> Stores(c.obj, c.field, c.src)
      ensures c.SetRegistry? ==> Registers(c.src)
      ensures c.SetTop? ==> Tops(c.top)
      ensures c.SetMetatable? && !c.finalizer ==> SetsIt(c.obj, c.mt, c.mode)
      ensures c.SetMode? ==> ChangesMode(c.obj, c.mode)
    {
      hide HeapOk, MarkOk, SweepOk, Sealed, WellSealed, RootsIn, Safe, HeldFrom, Roots, Steady, Creates, Clears, Stores,
           Tops, Moves, Loads, LoadsValue, Interns, StoresKey, Rehashes, Captures, Closes, SetsWithFinalizer,
           StoresIn, SetsWithout, HasMode, LeavesScope, SetsIt, ChangesMode, Registers;
      if IsLoad(c) {
        ObeyLoad(c, garbage, left);
      } else if c.Store? {
        DoStore(c.obj, c.field, c.src, garbage);
      } else if c.StoreKey? {
        DoStoreKey(c.obj, c.node, c.key, c.src, garbage);
      } else if c.Rehash? {
        DoRehash(c.obj, c.arr, c.nodes, garbage);
      } else if c.SetMetatable? {
        DoSetMetatable(c.obj, c.mt, c.mode, c.finalizer, garbage);
      } else if c.SetMode? {
        DoSetMode(c.obj, c.mode, garbage);
      } else if c.SetRegistry? {
        DoSetRegistry(c.src, garbage);
      } else {
        DoSetBasicMetatable(c.kind, c.src, garbage);
      }
    }

    /** Commands that change the stack of the running thread, or which thread is running. */
    predicate IsLoad(c: Command) {
      || c.Create? || c.Intern? || c.Clear? || c.Move? || c.Load? || c.LoadRegistry? || c.LoadBasicMetatable?
      || c.SetTop? || c.Capture? || c.Close? || c.Resume? || c.ResumeMain?
    }

    method ObeyLoad(c: Command, ghost garbage: set<Ref>, ghost left: set<Ref>)
      requires Valid(garbage) && IsLoad(c)
      requires left == if c.Intern? && c.str in heap && heap[c.str].Str? then garbage - {c.str} else garbage
      modifies this
      ensures Valid(left) && Does(c) && Leaves(c)
      ensures c.Create? ==> Creates(c.dst, c.blank)
      ensures c.Clear? ==> Clears(c.dst)
      ensures c.SetTop? ==> Tops(c.top)
    {
      hide HeapOk, MarkOk, SweepOk, Sealed, WellSealed, RootsIn, Safe, HeldFrom, Roots, Steady, Creates, Clears, Stores,
           Tops, Moves, Loads, LoadsValue, Interns, StoresKey, Rehashes, Captures, Closes, SetsWithFinalizer,
           StoresIn, SetsWithout, HasMode, LeavesScope;
      if c.Create? {
        DoCreate(c.dst, c.blank, garbage);
      } else if c.Intern? {
        DoIntern(c.dst, c.str, garbage);
      } else if c.Clear? {
        DoLoadRoot(c.dst, Nil, garbage);
      } else if c.Move? {
        DoMove(c.dst, c.src, garbage);
      } else if c.Load? {
        DoLoad(c.dst, c.src, c.field, garbage);
      } else if c.LoadRegistry? {
        DoLoadRoot(c.dst, registry, garbage);
      } else if c.LoadBasicMetatable? {
        DoLoadRoot(c.dst, if c.kind < |mt| then mt[c.kind] else Nil, garbage);
      } else if c.SetTop? {
        DoSetTop(c.top, garbage);
      } else if c.Capture? {
        DoCapture(c.dst, c.level, garbage);
      } else if c.Close? {
        DoClose(c.level, garbage);
      } else if c.Resume? {
        DoResume(c.src, garbage);
      } else {
        DoResumeMain(garbage);
      }
    }

    lemma SteadyWhite(garbage: set<Ref>)
      requires Steady(garbage)
      ensures IsWhite(white)
    {
      hide MarkOk, SweepOk, Sealed, WellSealed, RootsIn, Safe, Linked, Owned, Owners, TwupsLive;
    }

    method DoMove(dst: nat, src: nat, ghost garbage: set<Ref>)
      requires Valid(garbage)
      modifies `heap
      ensures Valid(garbage) && Moves(dst, src)
    {
      hide HeapOk, MarkOk, SweepOk, Sealed, RootsIn, Safe;
      if IsReg(dst) && IsReg(src) {
        RegIsSafe(src, garbage);
        SetReg(dst, Reg(src), garbage);
      }
    }

    // ----- what single commands do -----

    /** The collector's lists and the roots are as they were, the registry perhaps excepted. */
    twostate predicate SameLists()
      reads this
    {
      && white == old(white) && phase == old(phase) && gray == old(gray) && grayagain == old(grayagain) &&
        weak == old(weak)
      && allweak == old(allweak) && ephemeron == old(ephemeron) && finobj == old(finobj) && tobefnz == old(tobefnz)
      && fixedgc == old(fixedgc) && mainthread == old(mainthread) && running == old(running) && mt == old(mt)
    }

    /** What a command of the program does to the heap. */
    twostate predicate Does(c: Command)
      reads this
    {
      match c
      case Intern(dst, str) => Interns(dst, str)
      case Move(dst, src) => Moves(dst, src)
      case Load(dst, src, field) => Loads(dst, src, field)
      case LoadRegistry(dst) => LoadsValue(dst, old(registry))
      case LoadBasicMetatable(dst, kind) => LoadsValue(dst, old(if kind < |mt| then mt[kind] else Nil))
      case StoreKey(obj, node, key, src) => StoresKey(obj, node, key, src)
      case Rehash(obj, arr, nodes) => Rehashes(obj, arr, nodes)
      case Store(obj, field, src) => StoresIn(obj, field, src)
      case SetMetatable(obj, m, mode, finalizer) =>
        if finalizer then SetsWithFinalizer(obj, m, mode) else SetsWithout(obj, m, mode)
      case SetMode(obj, mode) => HasMode(obj, mode)
      case SetTop(n) => LeavesScope(n)
      case Capture(dst, level) => Captures(dst, level)
      case Close(level) => Closes(level)
      case _ => true
    }

    /** What a command of the program leaves alone, and what the simple ones set. */
    twostate predicate Leaves(c: Command)
      reads this
    {
      && phase == old(phase) && white == old(white) && mainthread == old(mainthread)
      && tobefnz == old(tobefnz) && fixedgc == old(fixedgc)
      && ((c.SetMetatable? && c.finalizer) || finobj == old(finobj))
      && running == old(if c.Resume? && ObjReg(c.src) && heap[Reg(c.src).ref].Thread? then Reg(c.src).ref
                        else if c.ResumeMain? && mainthread in heap && heap[mainthread].Thread? then mainthread
                        else running)
      && registry == old(if c.SetRegistry? && IsReg(c.src) then Reg(c.src) else registry)
      && mt == old(if c.SetBasicMetatable? && IsReg(c.src) && c.kind < |mt| then mt[c.kind := Reg(c.src)] else mt)
      && (c.SetRegistry? || c.SetBasicMetatable? || c.Resume? || c.ResumeMain? ==> heap == old(heap))
    }

    /** The register has an object. */
    predicate ObjReg(i: nat)
      reads `heap, `running
    {
      IsReg(i) && Reg(i).Gc? && Reg(i).ref in heap
    }

    /** The heap with another value in a register. */
    function WithReg(dst: nat, v: Value): Heap
      reads `heap, `running
    {
      if IsReg(dst) then heap[running := heap[running].(stack := heap[running].stack[dst := v])] else heap
    }

    twostate predicate Moves(dst: nat, src: nat)
      reads this
    {
      heap == old(if IsReg(src) then WithReg(dst, Reg(src)) else heap)
    }

    twostate predicate Loads(dst: nat, src: nat, field: Field)
      reads this
    {
      heap == old(if ObjReg(src) then WithReg(dst, Get(heap, Reg(src).ref, field)) else heap)
    }

    twostate predicate LoadsValue(dst: nat, v: Value)
      reads this
    {
      heap == old(WithReg(dst, v))
    }

    twostate predicate Interns(dst: nat, str: Ref)
      reads this
    {
      heap == old(if str in heap && heap[str].Str? then WithReg(dst, Gc(str)) else heap)
    }

    twostate predicate StoresIn(obj: nat, field: Field, src: nat)
      reads this
    {
      heap == old(if ObjReg(obj) && IsReg(src) && HasSlot(heap, heap[Reg(obj).ref])
                  then Stored(heap, Reg(obj).ref, field, Reg(src)) else heap)
    }

    twostate predicate SetsWithout(obj: nat, m: nat, mode: Mode)
      reads this
    {
      heap == old(if SetsMetatable(obj, m)
                  then heap[Reg(obj).ref := PutMetatable(heap[Reg(obj).ref], Reg(m), Held(Reg(obj).ref, mode))]
                  else heap)
    }

    twostate predicate HasMode(obj: nat, mode: Mode)
      reads this
    {
      heap == old(if ObjReg(obj) && heap[Reg(obj).ref].Table?
                  then heap[Reg(obj).ref := PutMetatable(heap[Reg(obj).ref], heap[Reg(obj).ref].metatable,
                                                         Held(Reg(obj).ref, mode))]
                  else heap)
    }

    /** The stack has another top; the variables above it keep their values in closed upvalues. */
    twostate predicate LeavesScope(n: nat)
      reads this
    {
      && heap.Keys == old(heap).Keys && running in heap && old(heap)[running].Thread?
      && heap[running].Thread? && heap[running].top == n
      && heap[running].stack == WithTop(old(heap)[running], n).stack
      && forall r :: r in heap && r != running ==>
        || heap[r] == old(heap)[r]
        || KeepsItsValue(old(heap), heap, running, n, r)
    }

    twostate predicate StoresKey(obj: nat, node: nat, key: nat, src: nat)
      reads this
    {
      heap == old(if ObjReg(obj) && IsReg(key) && IsReg(src) && heap[Reg(obj).ref].Table?
                  then heap[Reg(obj).ref := PutKey(heap[Reg(obj).ref], node, Reg(key), Reg(src))] else heap)
    }

    twostate predicate Rehashes(obj: nat, arr: seq<Value>, nodes: seq<Node>)
      reads this
    {
      heap == old(if ObjReg(obj) && Rehashed(heap[Reg(obj).ref], arr, nodes)
                  then heap[Reg(obj).ref := heap[Reg(obj).ref].(arr := arr, nodes := nodes)] else heap)
    }

    /** The register gets the upvalue of the level, the one there was or a new one. */
    twostate predicate Captures(dst: nat, level: nat)
      reads this
    {
      if old(IsReg(dst) && IsReg(level)) then
        && IsReg(dst) && ObjReg(dst) && heap[Reg(dst).ref] == OpenUpVal(running, level)
        && var u := Reg(dst).ref;
           if u in old(heap) then heap == old(WithReg(dst, Gc(u)))
           else u == old(next) && NewUpvalue(old(WithReg(dst, Gc(next))), heap, running, level, u)
      else heap == old(heap)
    }

    /** Just the upvalues of the running thread from the level on are closed; no upvalue changes its value. */
    twostate predicate Closes(level: nat)
      reads this
    {
      && SameCells(old(heap), heap) && OnlyClosed(old(heap), heap, running)
      && BelowStay(old(heap), heap, level)
      && forall u :: u in heap[running].openupval ==> u in heap && heap[u].OpenUpVal? && heap[u].level < level
    }

    /** With a metatable the object is to be finalized once; what is dead may be swept meanwhile. */
    twostate predicate SetsWithFinalizer(obj: nat, m: nat, mode: Mode)
      reads this
    {
      if old(SetsMetatable(obj, m)) then
        var o := old(Reg(obj)).ref;
        && o in heap && heap[o] == old(PutMetatable(heap[Reg(obj).ref], Reg(m), Held(Reg(obj).ref, mode)))
        && finobj == old(if Reg(m).Nil? || Reg(obj).ref in finobj || Reg(obj).ref in tobefnz then finobj
                         else [Reg(obj).ref] + finobj)
      else heap == old(heap) && finobj == old(finobj)
    }

    twostate predicate Creates(dst: nat, blank: Object)
      reads this
    {
      && SameLists() && registry == old(registry)
      && (old(IsReg(dst)) && Blank(blank) ==>
            && next == old(next) + 1 && color == old(color)[old(next) := white] && running in old(heap)
            && old(heap)[running].Thread? && dst < |old(heap)[running].stack| && old(next) !in old(heap)
            && heap == old(heap)[old(next) := blank]
                         [running := old(heap)[running].(stack := old(heap)[running].stack[dst := Gc(old(next))])])
    }

    twostate predicate Clears(dst: nat)
      reads this
    {
      && SameLists() && registry == old(registry) && color == old(color) && next == old(next)
      && (old(IsReg(dst)) ==>
            && running in old(heap) && old(heap)[running].Thread? && dst < |old(heap)[running].stack|
            && heap == old(heap)[running := old(heap)[running].(stack := old(heap)[running].stack[dst := Nil])])
    }

    twostate predicate Stores(obj: nat, field: Field, src: nat)
      reads this
    {
      old(IsReg(obj) && IsReg(src) && Reg(obj).Gc? && Reg(obj).ref in heap && heap[Reg(obj).ref].Table?
          && Reg(obj).ref in color && !color[Reg(obj).ref].Black?) ==>
        && SameLists() && registry == old(registry) && color == old(color) && next == old(next)
        && heap == old(heap)[old(Reg(obj)).ref := Put(old(heap)[old(Reg(obj)).ref], field, old(Reg(src)))]
    }

    twostate predicate Registers(src: nat)
      reads this
    {
      && SameLists() && heap == old(heap) && color == old(color) && next == old(next)
      && (old(IsReg(src)) ==> registry == old(Reg(src)))
    }

    twostate predicate Tops(n: nat)
      reads this
    {
      old(running in heap && heap[running].Thread? && heap[running].openupval == []) ==>
        && SameLists() && registry == old(registry) && color == old(color) && next == old(next)
        && heap == old(heap)[running := WithTop(old(heap)[running], n)]
    }

    twostate predicate SetsIt(obj: nat, m: nat, mode: Mode)
      reads this
    {
      old(SetsMetatable(obj, m)) && old(Reg(obj).ref in color && !color[Reg(obj).ref].Black?) ==>
        && SameLists() && registry == old(registry) && color == old(color) && next == old(next)
        && heap == old(heap)[old(Reg(obj)).ref := old(PutMetatable(heap[Reg(obj).ref], Reg(m),
          Held(Reg(obj).ref, mode)))]
    }

    twostate predicate ChangesMode(obj: nat, mode: Mode)
      reads this
    {
      old(IsReg(obj) && Reg(obj).Gc? && Reg(obj).ref in heap && heap[Reg(obj).ref].Table?) ==>
        && SameLists() && registry == old(registry) && color == old(color) && next == old(next)
        && heap == old(heap)[old(Reg(obj)).ref :=
             old(PutMetatable(heap[Reg(obj).ref], heap[Reg(obj).ref].metatable, Held(Reg(obj).ref, mode)))]
    }

    /** The first step of a cycle. */
    twostate predicate Restarts()
      reads this
    {
      && heap == old(heap) && phase.Propagate? && color.Keys == old(color).Keys && allweak == [] &&
        registry == old(registry)
      && finobj == old(finobj) && tobefnz == old(tobefnz) && fixedgc == old(fixedgc) && next == old(next) &&
        mt == old(mt)
      && (old(StartsWithRegistry(color)) ==> gray != [] && gray[0] == registry.ref)
    }

    /** A step of the propagate phase: how far it gets, and that it forgets no table in `allweak`. */
    twostate predicate Propagates()
      reads this
    {
      && HeapTidied(old(heap), heap) && color.Keys == old(color).Keys && SuffixOf(old(allweak), allweak)
      && Marked(old(color)) <= Marked(color)
      && finobj == old(finobj) && tobefnz == old(tobefnz) && fixedgc == old(fixedgc) && next == old(next)
      && registry == old(registry) && mt == old(mt)
      && if old(gray) == [] then
           phase.EnterAtomic? && heap == old(heap) && color == old(color) && allweak == old(allweak)
         else
           && phase.Propagate? && (gray == old(gray)[1..] || Marked(old(color)) < Marked(color))
           && (old(AllWeakFirst()) ==> old(gray)[0] in allweak)
    }

    /** How much is left of the sweep. */
    function SweepIndex(): nat
      reads `phase
    {
      match phase
      case SweepAllGc => 3
      case SweepFinObj => 2
      case SweepToBeFnz => 1
      case _ => 0
    }

    function SweepRest(): nat
      reads `phase, `sweepgc, `allgc, `finobj, `tobefnz
    {
      if Sweeping(phase) && PosIn(Sweeped(), sweepgc) && !sweepgc.Done? then 1 + |After(Sweeped(), sweepgc)| else 0
    }

    /** A step of the sweep gets on, and in the end to its end. */
    twostate predicate Sweeps()
      reads this
    {
      && (SweepIndex() < old(SweepIndex()) || (SweepIndex() == old(SweepIndex()) && SweepRest() < old(SweepRest())))
      && (Sweeping(phase) || phase.SweepEnd?) && tobefnz == old(tobefnz)
    }

    /**
     Finalizers get their objects: up to ten, the first ones of `tobefnz`. They are on the stack of the running
     thread in this order, and normal objects again, in `allgc`.
     */
    twostate predicate HandsOver()
      reads this
    {
      var n := if |old(tobefnz)| < 10 then |old(tobefnz)| else 10;
      && tobefnz == old(tobefnz)[n..] && finobj == old(finobj) && LinkedBefore(old(tobefnz)[..n], old(allgc), allgc)
      && heap.Keys == old(heap).Keys && running in heap
      && (forall o :: o in heap && o != running ==> heap[o] == old(heap)[o])
      && PushedOn(old(heap)[running], heap[running], old(tobefnz)[..n])
    }

    /** A step after the sweep: the cycle is over when there is nothing left to be finalized, or in an emergency. */
    twostate predicate Ends(emergency: bool)
      reads this
    {
      if old(phase).CallFin? && !emergency && old(tobefnz) != [] then phase.CallFin? && HandsOver()
      else
        && (if old(phase).SweepEnd? then phase.CallFin? else phase.Pause?)
        && heap == old(heap) && tobefnz == old(tobefnz) && finobj == old(finobj) && allgc == old(allgc)
    }

    /** What the program holds by strong references now. */
    ghost function Strong(): set<Ref>
      reads `heap, `mainthread, `running, `registry, `mt, `tobefnz, `fixedgc
    {
      set o | o in heap && StronglyReachable(o)
    }

    /**
     Any sequence of commands, of the program and the collector in any order, up to the first step that would enter
     the sweep while some table in `allweak` has an unmarked metatable. The invariant holds throughout. What was
     garbage at the start stays out of reach unless it is a string that was handed out again, and once the sweep is
     over it is gone. `held` tells what the program held by strong references before each command, and at the end:
     no step of the collector ever takes anything away from it.
     */
    method Run(cs: seq<Command>, ghost garbage: set<Ref>) returns (n: nat, ghost left: set<Ref>,
      ghost held: seq<set<Ref>>)
      requires Valid(garbage)
      modifies this
      ensures n <= |cs| && (n < |cs| ==> Careless(cs[n]))
      ensures Valid(left) && garbage - Interned(cs[..n]) <= left <= garbage
      ensures forall o :: Reachable(o) ==> o in heap && o !in left
      ensures |held| == n + 1 && held[0] == old(Strong()) && held[n] == Strong()
      ensures forall i :: 0 <= i < n && cs[i].Step? ==> held[i] <= held[i + 1]
      ensures phase.SweepEnd? || phase.CallFin? || phase.Pause? ==>
        forall o :: o in garbage && o !in Interned(cs[..n]) ==> o !in heap
    {
      hide HeapOk, MarkOk, SweepOk, Sealed, WellSealed, RootsIn, Safe, Careless, ReachedFrom, HeldFrom, Interned,
           Loses, Kept, Roots, MayLose, Steady;
      n, left, held := 0, garbage, [Strong()];
      NothingInterned();
      while n < |cs| && !Careless(cs[n])
        invariant n <= |cs| && Valid(left) && garbage - Interned(cs[..n]) <= left <= garbage
        invariant |held| == n + 1 && held[0] == old(Strong()) && held[n] == Strong()
        invariant forall i :: 0 <= i < n && cs[i].Step? ==> held[i] <= held[i + 1]
      {
        assert cs[..n + 1] == cs[..n] + [cs[n]];
        InternedMore(cs[..n], cs[n]);
        InternedOne(cs[n], left);
        NothingFound(left);
        NotCareless(cs[n], left);
        left := Execute(cs[n], left, {});
        held := held + [Strong()];
        n := n + 1;
      }
      forall o | Reachable(o) ensures o in heap && o !in left { ReachableExists(left, o); }
      if phase.SweepEnd? || phase.CallFin? || phase.Pause? {
        AtPause(left);
      }
    }

    lemma NotCareless(c: Command, garbage: set<Ref>)
      requires Valid(garbage) && !Careless(c)
      ensures c.Step? && phase.EnterAtomic? ==> Loses() == {}
    {
      hide HeapOk, MarkOk, SweepOk, Sealed, WellSealed, RootsIn, Safe, Loses, MayLose;
      if c.Step? && phase.EnterAtomic? { NothingMissedNow(garbage); }
    }

    /** Nothing need be declared garbage when a cycle starts. */
    lemma NothingFound(garbage: set<Ref>)
      requires Valid(garbage)
      ensures phase.Pause? ==> Unreachable({})
    {
      hide HeapOk, MarkOk;
      if phase.Pause? {
        AtPause(garbage);
        assert heap.Keys - {} == heap.Keys;
      }
    }

    /**
     A whole cycle: what is unreachable when it starts, and not reachable from an object with a finalizer
     either, is gone before the collector pauses again, whatever the program does in the meantime.
     */
    method Cycle(cs: seq<Command>, emergency: bool, ghost garbage: set<Ref>, ghost found: set<Ref>) returns (n: nat)
      requires Valid(garbage) && phase.Pause? && Unreachable(found)
      modifies this
      ensures n <= |cs| && (n < |cs| ==> Careless(cs[n]))
      ensures forall o :: Reachable(o) ==> o in heap
      ensures phase.SweepEnd? || phase.CallFin? || phase.Pause? ==>
        forall o :: o in found && o !in Interned(cs[..n]) ==> o !in heap
    {
      hide HeapOk, MarkOk, SweepOk, Sealed, RootsIn, Safe, Careless, ReachedFrom, Interned, Unreachable;
      SingleStep(emergency, garbage, found);
      ghost var left;
      ghost var held;
      n, left, held := Run(cs, garbage + found);
    }

    /** How many steps it takes at most until the collector pauses, when nothing is swept any more. */
    function StepsLeft(): nat
      reads `phase, `tobefnz
    {
      var calls := (|tobefnz| + 9) / 10;
      if phase.SweepEnd? then 2 + calls else if phase.CallFin? then 1 + calls else 0
    }

    /**
     The end of a cycle. Whatever the program does between the steps, all objects to be finalized are handed over, in
     their order and once each, before the collector pauses; and it pauses after as many steps as that needs.
     */
    method FinishCycle(cs: seq<Command>, ghost garbage: set<Ref>)
      returns (n: nat, ghost left: set<Ref>, ghost handed: seq<Ref>)
      requires Valid(garbage) && (phase.SweepEnd? || phase.CallFin?)
      requires forall i :: 0 <= i < |cs| && cs[i].Step? ==> !cs[i].emergency
      modifies this
      ensures n <= |cs| && Valid(left) && (n < |cs| ==> phase.Pause?)
      ensures handed + tobefnz == old(tobefnz)
      ensures phase.Pause? ==> tobefnz == []
      ensures phase.SweepEnd? || phase.CallFin? || phase.Pause?
      ensures Steps(cs[..n]) + StepsLeft() <= old(StepsLeft())
    {
      hide Valid;
      n, left, handed := 0, garbage, [];
      assert cs[..0] == [];
      while n < |cs| && !phase.Pause?
        invariant n <= |cs| && Valid(left) && (phase.SweepEnd? || phase.CallFin? || phase.Pause?)
        invariant handed + tobefnz == old(tobefnz) && (phase.Pause? ==> tobefnz == [])
        invariant Steps(cs[..n]) + StepsLeft() <= old(StepsLeft())
      {
        assert cs[..n + 1] == cs[..n] + [cs[n]];
        ghost var given;
        left, given := LateCommand(cs[n], left);
        handed := handed + given;
        n := n + 1;
      }
    }

    /** One command at the end of a cycle, and the objects that are handed over. */
    method LateCommand(c: Command, ghost garbage: set<Ref>) returns (ghost left: set<Ref>, ghost given: seq<Ref>)
      requires Valid(garbage) && (phase.SweepEnd? || phase.CallFin?) && (c.Step? ==> !c.emergency)
      modifies this
      ensures Valid(left) && (phase.SweepEnd? || phase.CallFin? || phase.Pause?)
      ensures given + tobefnz == old(tobefnz) && (phase.Pause? ==> tobefnz == [])
      ensures (if c.Step? then 1 else 0) + StepsLeft() <= old(StepsLeft())
    {
      hide HeapOk, MarkOk, SweepOk, Sealed, WellSealed, RootsIn, Safe, Careless, ReachedFrom, HeldFrom, Interned,
           Loses, Kept, Roots, MayLose, Steady, Does, PushedOn, LinkedBefore, SameLive, Creates, Clears, Stores,
           Registers, Tops, SetsIt, ChangesMode, StronglyReachable, Unreachable;
      left := Execute(c, garbage, {});
      given := old(tobefnz)[..|old(tobefnz)| - |tobefnz|];
    }

    lemma SafeIsLive(garbage: set<Ref>, o: Ref)
      requires Valid(garbage) && o in Safe(garbage)
      ensures o in LiveSet(color, white)
    {
      hide MarkInv, Sealed, HeapState, ListsOk, TwupsOk, Marked, SweepState;
      if InMarking() {
        AllLive(heap, color, white, GrayLists(), twups, Incremental(heap, garbage, {}));
      }
    }
  }
}
