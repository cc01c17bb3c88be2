/**
 The objects the garbage collector sees (lobject.h, lstate.h), and the three questions asked of
 them: which references they hold, which of those the collector traces, and how the collector may
 prune them.
 */
module GcObjects {

  type Ref = nat

  /** A value: nil, something that is not collectable, or a reference. */
  datatype Value = Nil | Plain | Gc(ref: Ref)

  /** The key of a hash node. A dead key keeps its place in the chain but refers to nothing. */
  datatype Key = NoKey | PlainKey | LiveKey(ref: Ref) | DeadKey

  datatype Node = Node(key: Key, val: Value)

  /** What the `__mode` of a table's metatable says is weak. */
  datatype Mode = Nothing | Values | Keys | Both

  /**
   How a table holds its entries. A table that the propagate phase has left in `allweak` is all-weak up to the
   end of the atomic phase, whatever its mode may be by then, which is `now`.
   */
  datatype Weakness = Strong | WeakValues | Ephemeron | AllWeak(now: Mode)

  function Treated(m: Mode): Weakness {
    match m
    case Nothing => Strong
    case Values => WeakValues
    case Keys => Ephemeron
    case Both => AllWeak(Both)
  }

  function ModeNow(w: Weakness): (m: Mode)
    ensures !w.AllWeak? ==> Treated(m) == w
  {
    match w
    case Strong => Nothing
    case WeakValues => Values
    case Ephemeron => Keys
    case AllWeak(m) => m
  }

  /**
   Closures and prototypes are traversed alike, field by field, and share `Record`; a NULL field is
   `Nil`. An open upvalue is a slot of a thread's stack. Stack slots from `top` on are unused, but
   the memory is there and may be exposed again.
   */
  datatype Object =
    | Str
    | Record(fields: seq<Value>)
    | Userdata(metatable: Value, uservalues: seq<Value>)
    | Table(weakness: Weakness, metatable: Value, arr: seq<Value>, nodes: seq<Node>)
    | Thread(stack: seq<Value>, top: nat, openupval: seq<Ref>)
    | OpenUpVal(thread: Ref, level: nat)
    | ClosedUpVal(value: Value)

  type Heap = map<Ref, Object>

  /** Objects that can wait in a gray list (`getgclist`). */
  predicate Linkable(o: Object) {
    o.Record? || (o.Userdata? && o.uservalues != []) || o.Table? || o.Thread?
  }

  predicate ValueIn(v: Value, s: set<Ref>) { v.Gc? ==> v.ref in s }

  predicate ValuesIn(vs: seq<Value>, s: set<Ref>) {
    forall i :: 0 <= i < |vs| ==> ValueIn(vs[i], s)
  }

  predicate KeyIn(k: Key, s: set<Ref>) { k.LiveKey? ==> k.ref in s }

  predicate NodeIn(n: Node, s: set<Ref>) { KeyIn(n.key, s) && ValueIn(n.val, s) }

  /** Every reference the object itself holds, weak ones included, lies in `s`. */
  predicate Within(o: Object, s: set<Ref>) {
    match o
    case Str => true
    case Record(fields) => ValuesIn(fields, s)
    case Userdata(mt, uvs) => ValueIn(mt, s) && ValuesIn(uvs, s)
    case Table(_, mt, arr, nodes) =>
      && ValueIn(mt, s) && ValuesIn(arr, s)
      && forall i :: 0 <= i < |nodes| ==> NodeIn(nodes[i], s)
    case Thread(stack, _, open) => ValuesIn(stack, s) && forall i :: 0 <= i < |open| ==> open[i] in s
    case OpenUpVal(_, _) => true
    case ClosedUpVal(v) => ValueIn(v, s)
  }

  /** The stack slot an open upvalue stands for. */
  predicate HasSlot(h: Heap, o: Object) {
    o.OpenUpVal? ==> o.thread in h && h[o.thread].Thread? && o.level < |h[o.thread].stack|
  }

  function Slot(h: Heap, o: Object): Value
    requires o.OpenUpVal? && HasSlot(h, o)
  {
    h[o.thread].stack[o.level]
  }

  /** Everything one can get at from the object, through the stack for an open upvalue. */
  predicate Inside(h: Heap, o: Object, s: set<Ref>) {
    Within(o, s) && (o.OpenUpVal? ==> HasSlot(h, o) && ValueIn(Slot(h, o), s))
  }

  // ----- what the collector traces -----

  predicate IsStr(h: Heap, r: Ref) { r in h && h[r].Str? }

  /** Strings count as values and are never removed from weak tables. */
  predicate StringIn(h: Heap, v: Value, s: set<Ref>) { v.Gc? && IsStr(h, v.ref) ==> v.ref in s }

  /** The key does not let its entry be cleared from a table with weak keys. */
  predicate KeyHolds(h: Heap, k: Key, s: set<Ref>) {
    k.LiveKey? ==> IsStr(h, k.ref) || k.ref in s
  }

  predicate NodeTraced(h: Heap, w: Weakness, n: Node, s: set<Ref>) {
    && (n.key.LiveKey? && IsStr(h, n.key.ref) ==> n.key.ref in s)
    && (!n.val.Nil? ==>
      && StringIn(h, n.val, s)
      && (w.Strong? || w.WeakValues? ==> KeyIn(n.key, s))
      && (w.Strong? ==> ValueIn(n.val, s))
      && (w.Ephemeron? && KeyHolds(h, n.key, s) ==> ValueIn(n.val, s)))
  }

  /** `s` has everything that marking the object leads to, at once or once more keys are marked. */
  predicate TracedIn(h: Heap, o: Object, s: set<Ref>) {
    match o
    case Table(w, mt, arr, nodes) =>
      && ValueIn(mt, s)
      && (if w.Strong? || w.Ephemeron? then ValuesIn(arr, s)
          else forall i :: 0 <= i < |arr| ==> StringIn(h, arr[i], s))
      && forall i :: 0 <= i < |nodes| ==> NodeTraced(h, w, nodes[i], s)
    case Thread(stack, top, open) =>
      && (forall i :: 0 <= i < |stack| && i < top ==> ValueIn(stack[i], s))
      && forall i :: 0 <= i < |open| ==> open[i] in s
    case OpenUpVal(_, _) => HasSlot(h, o) && ValueIn(Slot(h, o), s)
    case _ => Within(o, s)
  }

  /** `s` has the strings of the table, which are kept even where nothing else is traced. */
  predicate StringsIn(h: Heap, o: Object, s: set<Ref>)
    requires o.Table?
  {
    && (forall i :: 0 <= i < |o.arr| ==> StringIn(h, o.arr[i], s))
    && forall i :: 0 <= i < |o.nodes| ==> NodeTraced(h, AllWeak(Both), o.nodes[i], s)
  }

  /** `s` is closed under tracing; of the tables in `but` it need only have the strings. */
  ghost predicate Traced(h: Heap, s: set<Ref>, but: set<Ref>) {
    forall o :: o in s && o in h ==>
      if o in but then h[o].Table? && StringsIn(h, h[o], s) else TracedIn(h, h[o], s)
  }

  // ----- how the collector prunes objects -----

  /** `clearkey`: the key of an entry without a value, if collectable, is only remembered as dead. */
  function ClearedKey(k: Key): Key { if k.LiveKey? then DeadKey else k }

  /** An entry that has a value may only be removed for the sake of what the table refers to weakly. */
  predicate Clearable(w: Weakness, n: Node) {
    match w
    case Strong => false
    case WeakValues => n.val.Gc?
    case Ephemeron => n.key.LiveKey?
    case AllWeak(_) => n.val.Gc? || n.key.LiveKey?
  }

  /** A table entry may be removed: its value goes, and its key with it. */
  predicate NodePruned(w: Weakness, n: Node, n': Node) {
    n' == n || (n' == Node(ClearedKey(n.key), Nil) && (n.val.Nil? || Clearable(w, n)))
  }

  predicate SlotPruned(v: Value, v': Value) { v' == v || v'.Nil? }

  predicate ElementPruned(w: Weakness, v: Value, v': Value) {
    v' == v || (v'.Nil? && v.Gc? && (w.WeakValues? || w.AllWeak?))
  }

  /** `o'` is `o` with weak or empty table entries removed, dead keys recorded or unused stack slots wiped. */
  predicate Pruned(o: Object, o': Object) {
    match o
    case Table(w, mt, arr, nodes) =>
      && o'.Table? && o'.weakness == w && o'.metatable == mt
      && |o'.arr| == |arr| && |o'.nodes| == |nodes|
      && (forall i :: 0 <= i < |arr| ==> ElementPruned(w, arr[i], o'.arr[i]))
      && forall i :: 0 <= i < |nodes| ==> NodePruned(w, nodes[i], o'.nodes[i])
    case Thread(stack, top, open) =>
      && o'.Thread? && o'.top == top && o'.openupval == open && |o'.stack| == |stack|
      && (forall i :: 0 <= i < |stack| && i < top ==> o'.stack[i] == stack[i])
      && forall i :: 0 <= i < |stack| ==> SlotPruned(stack[i], o'.stack[i])
    case _ => o' == o
  }

  ghost predicate HeapPruned(h: Heap, h': Heap) {
    h'.Keys == h.Keys && forall o :: o in h ==> Pruned(h[o], h'[o])
  }

  /** Table entries all of whose references are in `s` are still there. */
  ghost predicate Keeps(h: Heap, h': Heap, s: set<Ref>) {
    forall o :: o in h && o in h' && h[o].Table? && h'[o].Table? ==> TableKeeps(h[o], h'[o], s)
  }

  predicate TableKeeps(o: Object, o': Object, s: set<Ref>)
    requires o.Table? && o'.Table?
  {
    && |o'.arr| == |o.arr| && |o'.nodes| == |o.nodes|
    && (forall i :: 0 <= i < |o.arr| && ValueIn(o.arr[i], s) ==> o'.arr[i] == o.arr[i])
    && forall i :: 0 <= i < |o.nodes| && !o.nodes[i].val.Nil? && NodeIn(o.nodes[i], s) ==> o'.nodes[i] == o.nodes[i]
  }

  /** Nothing was removed but what was not in use. */
  ghost predicate HeapTidied(h: Heap, h': Heap) {
    HeapPruned(h, h') && Keeps(h, h', h.Keys)
  }

  lemma KeepsTransitive(a: Heap, b: Heap, c: Heap, s: set<Ref>, t: set<Ref>)
    requires HeapPruned(a, b) && Keeps(a, b, s) && Keeps(b, c, t) && s <= t
    ensures Keeps(a, c, s)
  {
    forall o | o in a && o in c && a[o].Table? && c[o].Table? ensures TableKeeps(a[o], c[o], s) {
      assert Pruned(a[o], b[o]) && TableKeeps(a[o], b[o], s) && TableKeeps(b[o], c[o], t);
    }
  }

  lemma KeepsLess(a: Heap, b: Heap, s: set<Ref>, t: set<Ref>)
    requires Keeps(a, b, t) && s <= t
    ensures Keeps(a, b, s)
  {
    forall o | o in a && o in b && a[o].Table? && b[o].Table? ensures TableKeeps(a[o], b[o], s) {
      assert TableKeeps(a[o], b[o], t);
    }
  }

  lemma HeapTidiedReflexive(h: Heap)
    ensures HeapTidied(h, h)
  {
  }

  lemma HeapTidiedTransitive(a: Heap, b: Heap, c: Heap)
    requires HeapTidied(a, b) && HeapTidied(b, c)
    ensures HeapTidied(a, c)
  {
    HeapPrunedTransitive(a, b, c);
    KeepsTransitive(a, b, c, a.Keys, b.Keys);
  }

  lemma PrunedTransitive(a: Object, b: Object, c: Object)
    requires Pruned(a, b) && Pruned(b, c)
    ensures Pruned(a, c)
  {
  }

  lemma PrunedKeys(h: Heap, h': Heap)
    requires HeapPruned(h, h')
    ensures h'.Keys == h.Keys
  {
  }

  lemma HeapPrunedReflexive(h: Heap)
    ensures HeapPruned(h, h)
  {
  }

  lemma HeapPrunedTransitive(a: Heap, b: Heap, c: Heap)
    requires HeapPruned(a, b) && HeapPruned(b, c)
    ensures HeapPruned(a, c)
  {
    forall o | o in a ensures Pruned(a[o], c[o]) { PrunedTransitive(a[o], b[o], c[o]); }
  }

  lemma PruningKeepsWithin(o: Object, o': Object, s: set<Ref>)
    requires Pruned(o, o') && Within(o, s)
    ensures Within(o', s)
  {
  }

  /** Threads and their open upvalues know each other, and a captured variable is in use. */
  ghost predicate Linked(h: Heap) {
    && (forall o :: o in h && h[o].OpenUpVal? ==> LinkedUpVal(h, o))
    && (forall o :: o in h && h[o].Thread? ==> LinkedThread(h, o))
  }

  predicate MetatableOk(h: Heap, o: Object) {
    (o.Table? || o.Userdata?) && o.metatable.Gc? ==> o.metatable.ref in h && h[o.metatable.ref].Table?
  }

  ghost predicate LinkedUpVal(h: Heap, o: Ref)
    requires o in h && h[o].OpenUpVal?
  {
    var uv := h[o];
    && uv.thread in h && h[uv.thread].Thread?
    && o in h[uv.thread].openupval
    && uv.level < h[uv.thread].top
  }

  ghost predicate LinkedThread(h: Heap, o: Ref)
    requires o in h && h[o].Thread?
  {
    var th := h[o];
    && th.top <= |th.stack|
    && (forall i :: 0 <= i < |th.openupval| ==>
          var u := th.openupval[i]; u in h && h[u].OpenUpVal? && h[u].thread == o)
    && (forall i, j :: 0 <= i < j < |th.openupval| ==> h[th.openupval[i]].level > h[th.openupval[j]].level)
  }

  lemma PruningKeepsLinked(h: Heap, h': Heap)
    requires HeapPruned(h, h') && Linked(h)
    ensures Linked(h')
  {
    forall o | o in h' && h'[o].OpenUpVal? ensures LinkedUpVal(h', o) {
      assert Pruned(h[o], h'[o]) && LinkedUpVal(h, o);
      assert Pruned(h[h[o].thread], h'[h[o].thread]);
    }
    forall o | o in h' && h'[o].Thread? ensures LinkedThread(h', o) {
      assert Pruned(h[o], h'[o]) && LinkedThread(h, o);
      forall i | 0 <= i < |h[o].openupval| ensures h'[h[o].openupval[i]] == h[h[o].openupval[i]] {
        assert Pruned(h[h[o].openupval[i]], h'[h[o].openupval[i]]);
      }
    }
  }

  lemma PruningKeepsMetatableOk(h: Heap, h': Heap, o: Ref)
    requires HeapPruned(h, h') && o in h && MetatableOk(h, h[o])
    ensures MetatableOk(h', h'[o])
  {
    assert Pruned(h[o], h'[o]);
    if (h[o].Table? || h[o].Userdata?) && h[o].metatable.Gc? {
      assert Pruned(h[h[o].metatable.ref], h'[h[o].metatable.ref]);
    }
  }

  lemma SlotOfLinked(h: Heap, o: Ref)
    requires Linked(h) && o in h
    ensures HasSlot(h, h[o])
  {
    if h[o].OpenUpVal? { assert LinkedUpVal(h, o); assert LinkedThread(h, h[o].thread); }
  }

  lemma PruningKeepsTracedIn(h: Heap, h': Heap, o: Ref, s: set<Ref>)
    requires HeapPruned(h, h') && Linked(h) && o in h && TracedIn(h, h[o], s)
    ensures TracedIn(h', h'[o], s)
  {
    assert Pruned(h[o], h'[o]);
    assert forall r :: IsStr(h', r) <==> IsStr(h, r) by {
      forall r | r in h ensures h[r].Str? <==> h'[r].Str? { assert Pruned(h[r], h'[r]); }
    }
    match h[o] {
      case Table(w, _, _, nodes) =>
        forall i | 0 <= i < |nodes| ensures NodeTraced(h', w, h'[o].nodes[i], s) {
          assert NodePruned(w, nodes[i], h'[o].nodes[i]) && NodeTraced(h, w, nodes[i], s);
        }
      case OpenUpVal(th, _) =>
        assert LinkedUpVal(h, o) && Pruned(h[th], h'[th]);
      case _ =>
    }
  }

  lemma PruningKeepsStringsIn(h: Heap, h': Heap, o: Ref, s: set<Ref>)
    requires HeapPruned(h, h') && o in h && h[o].Table? && StringsIn(h, h[o], s)
    ensures h'[o].Table? && StringsIn(h', h'[o], s)
  {
    assert Pruned(h[o], h'[o]);
    assert forall r :: IsStr(h', r) <==> IsStr(h, r) by {
      forall r | r in h ensures h[r].Str? <==> h'[r].Str? { assert Pruned(h[r], h'[r]); }
    }
    forall i | 0 <= i < |h[o].nodes| ensures NodeTraced(h', AllWeak(Both), h'[o].nodes[i], s) {
      assert NodePruned(h[o].weakness, h[o].nodes[i], h'[o].nodes[i]) && NodeTraced(h, AllWeak(Both), h[o].nodes[i], s);
    }
  }

  lemma PruningKeepsTraced(h: Heap, h': Heap, s: set<Ref>, but: set<Ref>)
    requires HeapPruned(h, h') && Linked(h) && Traced(h, s, but)
    ensures Traced(h', s, but)
  {
    forall o | o in s && o in h'
      ensures if o in but then h'[o].Table? && StringsIn(h', h'[o], s) else TracedIn(h', h'[o], s)
    {
      if o in but {
        PruningKeepsStringsIn(h, h', o, s);
      } else {
        PruningKeepsTracedIn(h, h', o, s);
      }
    }
  }

  /** A set closed under every kind of reference is closed under tracing. */
  lemma InsideIsTraced(h: Heap, o: Object, s: set<Ref>)
    requires Inside(h, o, s)
    ensures TracedIn(h, o, s)
  {
  }

  function Strings(h: Heap): set<Ref> { set o | o in h && h[o].Str? }

  /** What was not in use did not lead anywhere either. */
  lemma TidiedTraced(h: Heap, h': Heap, s: set<Ref>, but: set<Ref>)
    requires HeapTidied(h, h') && Traced(h', s, but) && Strings(h) <= s && Linked(h) && Linked(h')
    requires forall o :: o in h ==> Within(h[o], h.Keys)
    ensures Traced(h, s, but)
  {
    forall o | o in s && o in h
      ensures if o in but then h[o].Table? && StringsIn(h, h[o], s) else TracedIn(h, h[o], s)
    {
      assert Pruned(h[o], h'[o]);
      if h[o].Table? {
        TidiedTable(h, h', s, o);
      } else if h[o].OpenUpVal? {
        SlotOfLinked(h, o);
        SlotOfLinked(h', o);
        assert LinkedUpVal(h, o) && Pruned(h[h[o].thread], h'[h[o].thread]);
      }
    }
  }

  lemma TidiedTable(h: Heap, h': Heap, s: set<Ref>, o: Ref)
    requires HeapTidied(h, h') && Strings(h) <= s && o in h && h[o].Table? && Within(h[o], h.Keys)
    requires o in h' && h'[o].Table?
    ensures StringsIn(h, h[o], s)
    ensures TracedIn(h', h'[o], s) ==> TracedIn(h, h[o], s)
  {
    assert TableKeeps(h[o], h'[o], h.Keys) && Pruned(h[o], h'[o]);
    assert forall r :: IsStr(h, r) ==> r in s;
    assert forall r :: IsStr(h, r) ==> IsStr(h', r) by {
      forall r | IsStr(h, r) ensures IsStr(h', r) { assert Pruned(h[r], h'[r]); }
    }
    assert forall r :: IsStr(h', r) ==> IsStr(h, r) by {
      forall r | IsStr(h', r) ensures IsStr(h, r) { assert Pruned(h[r], h'[r]); }
    }
    if TracedIn(h', h'[o], s) {
      var w, nodes := h[o].weakness, h[o].nodes;
      forall i | 0 <= i < |nodes| ensures NodeTraced(h, w, nodes[i], s) {
        assert NodeTraced(h', w, h'[o].nodes[i], s) && NodeIn(nodes[i], h.Keys);
      }
    }
  }
}
