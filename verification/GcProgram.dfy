/**
 The program whose memory is collected: what it can reach, and how its instructions read and write
 objects.
 */
module GcProgram {
  import opened GcObjects
  import opened GcMarking
  import opened GcInvariant

  // ----- strong references -----

  /** The entry itself holds its key or value `r`, whatever becomes of the rest of the heap. */
  predicate NodeHolds(w: Weakness, n: Node, r: Ref) {
    && !n.val.Nil?
    && match w
       case Strong => n.key == LiveKey(r) || n.val == Gc(r)
       case WeakValues => n.key == LiveKey(r) && !n.val.Gc?
       case Ephemeron => n.val == Gc(r) && !n.key.LiveKey?
       case AllWeak(_) => false
  }

  /** A reference that is not weak. Unused stack slots do not count. */
  ghost predicate Holds(h: Heap, o: Ref, r: Ref)
    requires o in h
  {
    match h[o]
    case Str => false
    case Record(fs) => Gc(r) in fs
    case Userdata(mt, uvs) => mt == Gc(r) || Gc(r) in uvs
    case Table(w, mt, arr, nodes) =>
      || mt == Gc(r) || ((w.Strong? || w.Ephemeron?) && Gc(r) in arr)
      || exists i :: 0 <= i < |nodes| && NodeHolds(w, nodes[i], r)
    case Thread(stack, top, open) => r in open || exists i :: 0 <= i < |stack| && i < top && stack[i] == Gc(r)
    case OpenUpVal(_, _) => HasSlot(h, h[o]) && Slot(h, h[o]) == Gc(r)
    case ClosedUpVal(v) => v == Gc(r)
  }

  /** A chain of strong references. */
  ghost predicate StrongPath(h: Heap, p: seq<Ref>) {
    p != [] && forall i :: 0 <= i < |p| - 1 ==> p[i] in h && Holds(h, p[i], p[i + 1])
  }

  lemma HoldsStays(h: Heap, h': Heap, o: Ref, r: Ref)
    requires HeapPruned(h, h') && Linked(h) && o in h && Holds(h, o, r)
    ensures Holds(h', o, r)
  {
    assert Pruned(h[o], h'[o]);
    match h[o] {
      case Table(w, mt, arr, nodes) =>
        if i :| 0 <= i < |nodes| && NodeHolds(w, nodes[i], r) {
          assert NodePruned(w, nodes[i], h'[o].nodes[i]) && NodeHolds(w, h'[o].nodes[i], r);
        } else if mt != Gc(r) {
          var i :| 0 <= i < |arr| && arr[i] == Gc(r);
          assert ElementPruned(w, arr[i], h'[o].arr[i]);
          assert h'[o].arr[i] == Gc(r);
        }
      case OpenUpVal(th, _) =>
        assert LinkedUpVal(h, o) && Pruned(h[th], h'[th]);
      case _ =>
    }
  }

  /** Some chain of references leads from the roots to the object. */
  ghost predicate ReachedFrom(h: Heap, roots: set<Ref>, o: Ref) {
    exists p :: p != [] && Path(h, p) && p[0] in roots && p[|p| - 1] == o
  }

  /** Some chain of strong references does. */
  ghost predicate HeldFrom(h: Heap, roots: set<Ref>, o: Ref) {
    exists p :: p != [] && StrongPath(h, p) && p[0] in roots && p[|p| - 1] == o
  }

  lemma ReachedIsSealed(h: Heap, roots: set<Ref>, s: set<Ref>, o: Ref)
    requires Sealed(h, s) && roots <= s && ReachedFrom(h, roots, o)
    ensures o in s && o in h
  {
    var p :| p != [] && Path(h, p) && p[0] in roots && p[|p| - 1] == o;
    ReachesOnlySealed(h, s, p);
  }

  lemma HoldsRefers(h: Heap, o: Ref, r: Ref)
    requires o in h && Holds(h, o, r)
    ensures RefersTo(h, o, r)
  {
    match h[o] {
      case Table(w, mt, arr, nodes) =>
        if i :| 0 <= i < |nodes| && NodeHolds(w, nodes[i], r) { assert nodes[i] in nodes; }
      case _ =>
    }
  }

  lemma HeldIsReached(h: Heap, roots: set<Ref>, o: Ref)
    requires HeldFrom(h, roots, o)
    ensures ReachedFrom(h, roots, o)
  {
    var p :| p != [] && StrongPath(h, p) && p[0] in roots && p[|p| - 1] == o;
    forall i | 0 <= i < |p| - 1 ensures p[i] in h && RefersTo(h, p[i], p[i + 1]) {
      HoldsRefers(h, p[i], p[i + 1]);
    }
    assert Path(h, p);
  }

  // ----- reading and writing objects -----

  datatype Field = Metatable | Element(n: nat) | NodeKey(n: nat) | NodeValue(n: nat)

  /** What a field of an object holds; an open upvalue is read through its thread. */
  function Get(h: Heap, o: Ref, f: Field): Value
    requires o in h
  {
    match (h[o], f)
    case (Record(fs), Element(n)) => if n < |fs| then fs[n] else Nil
    case (Userdata(mt, _), Metatable) => mt
    case (Userdata(_, uvs), Element(n)) => if n < |uvs| then uvs[n] else Nil
    case (Table(_, mt, _, _), Metatable) => mt
    case (Table(_, _, arr, _), Element(n)) => if n < |arr| then arr[n] else Nil
    case (Table(_, _, _, nodes), NodeKey(n)) =>
      if n < |nodes| && !nodes[n].val.Nil? && nodes[n].key.LiveKey? then Gc(nodes[n].key.ref) else Nil
    case (Table(_, _, _, nodes), NodeValue(n)) => if n < |nodes| then nodes[n].val else Nil
    case (Thread(stack, top, _), Element(n)) => if n < |stack| && n < top then stack[n] else Nil
    case (OpenUpVal(_, _), _) => if HasSlot(h, h[o]) then Slot(h, h[o]) else Nil
    case (ClosedUpVal(v), _) => v
    case (_, _) => Nil
  }

  lemma GetIsSafe(h: Heap, o: Ref, f: Field, s: set<Ref>)
    requires Sealed(h, s) && o in s
    ensures o in h && ValueIn(Get(h, o, f), s)
  {
    assert Inside(h, h[o], s);
  }

  /** What a write to a field of an object does to it, open upvalues and stacks aside. */
  function Put(o: Object, f: Field, v: Value): Object {
    match (o, f)
    case (Record(fs), Element(n)) => if n < |fs| then o.(fields := fs[n := v]) else o
    case (Userdata(_, uvs), Element(n)) => if n < |uvs| then o.(uservalues := uvs[n := v]) else o
    case (Table(_, _, arr, _), Element(n)) => if n < |arr| then o.(arr := arr[n := v]) else o
    case (Table(_, _, _, nodes), NodeValue(n)) =>
      if n < |nodes| && (nodes[n].key.LiveKey? || nodes[n].key.PlainKey?)
      then o.(nodes := nodes[n := Node(nodes[n].key, v)])
      else o
    case (ClosedUpVal(_), _) => ClosedUpVal(v)
    case (_, _) => o
  }

  lemma PutAdds(h: Heap, o: Object, f: Field, v: Value)
    requires MetatableOk(h, o)
    ensures SameKind(o, Put(o, f, v)) || o.Thread?
    ensures MetatableOk(h, Put(o, f, v)) && Adds(o, Put(o, f, v), v, Nil)
    ensures (Put(o, f, v).Thread? ==> o.Thread?) && (Put(o, f, v).Str? ==> o.Str?)
    ensures (Put(o, f, v).Table? <==> o.Table?)
    ensures o.Table? ==> Put(o, f, v).weakness == o.weakness && Put(o, f, v).metatable == o.metatable
  {
  }

  lemma NothingToPut(o: Object, f: Field, v: Value)
    requires o.Str? || (o.Userdata? && o.uservalues == [])
    ensures Put(o, f, v) == o
  {
  }

  /** A write to a field: an upvalue that is open writes to the stack of its thread. */
  function Stored(h: Heap, o: Ref, f: Field, v: Value): Heap
    requires o in h && HasSlot(h, h[o])
  {
    match h[o]
    case OpenUpVal(th, level) => h[th := h[th].(stack := h[th].stack[level := v])]
    case Thread(stack, _, _) =>
      if f.Element? && f.n < |stack| then h[o := h[o].(stack := stack[f.n := v])] else h
    case _ => h[o := Put(h[o], f, v)]
  }

  predicate HasField(o: Object, f: Field) {
    match (o, f)
    case (Record(fs), Element(n)) => n < |fs|
    case (Userdata(_, uvs), Element(n)) => n < |uvs|
    case (Table(_, _, arr, _), Element(n)) => n < |arr|
    case (Table(_, _, _, nodes), NodeValue(n)) => n < |nodes| && (nodes[n].key.LiveKey? || nodes[n].key.PlainKey?)
    case (Thread(stack, top, _), Element(n)) => n < |stack| && n < top
    case (OpenUpVal(_, _), _) => true
    case (ClosedUpVal(_), _) => true
    case (_, _) => false
  }

  /** What was written is read back. */
  lemma StoredIsRead(h: Heap, o: Ref, f: Field, v: Value)
    requires o in h && HasSlot(h, h[o]) && HasField(h[o], f)
    ensures var h' := Stored(h, o, f, v);
            && o in h' && Get(h', o, f) == v && h'.Keys == h.Keys
            && (forall r :: r in h && r != o && (h[o].OpenUpVal? ==> r != h[o].thread) ==> h'[r] == h[r])
  {
  }

  /** Upvalues of the same slot share what is written through one of them; others keep their values. */
  lemma UpvaluesShare(h: Heap, o: Ref, u: Ref, f: Field, v: Value)
    requires o in h && h[o].OpenUpVal? && HasSlot(h, h[o]) && u in h && h[u].OpenUpVal? && HasSlot(h, h[u])
    ensures var h' := Stored(h, o, f, v);
            && u in h' && HasSlot(h', h'[u])
            && Cell(h', u) == if h[u] == h[o] then v else Cell(h, u)
  {
  }

  /** A new key in node `n`, with its value. */
  function PutKey(o: Object, n: nat, k: Value, v: Value): Object {
    if o.Table? && n < |o.nodes| && o.nodes[n].val.Nil? && !k.Nil? then
      o.(nodes := o.nodes[n := Node(if k.Gc? then LiveKey(k.ref) else PlainKey, v)])
    else o
  }

  lemma PutKeyAdds(h: Heap, o: Object, n: nat, k: Value, v: Value)
    requires MetatableOk(h, o) && o.Table?
    ensures SameKind(o, PutKey(o, n, k, v)) && MetatableOk(h, PutKey(o, n, k, v)) && Adds(o, PutKey(o, n, k, v), v, k)
    ensures PutKey(o, n, k, v).weakness == o.weakness && PutKey(o, n, k, v).metatable == o.metatable
  {
  }

  function NodeValues(nodes: seq<Node>): set<Value> { set i | 0 <= i < |nodes| :: nodes[i].val }

  function NodeKeys(nodes: seq<Node>): set<Key> { set i | 0 <= i < |nodes| :: nodes[i].key }

  /** A table with other vectors, holding nothing that it did not hold before (`luaH_resize`). */
  predicate Rehashed(o: Object, arr: seq<Value>, nodes: seq<Node>) {
    && o.Table?
    && (forall i :: 0 <= i < |arr| ==> arr[i].Gc? ==> arr[i] in o.arr || arr[i] in NodeValues(o.nodes))
    && (forall i :: 0 <= i < |nodes| ==>
          && (nodes[i].val.Gc? ==> nodes[i].val in o.arr || nodes[i].val in NodeValues(o.nodes))
          && (nodes[i].key.LiveKey? ==> nodes[i].key in NodeKeys(o.nodes)))
  }

  lemma RehashAdds(h: Heap, o: Object, arr: seq<Value>, nodes: seq<Node>)
    requires MetatableOk(h, o) && Rehashed(o, arr, nodes)
    ensures var o' := o.(arr := arr, nodes := nodes); SameKind(o, o') && MetatableOk(h, o') && Adds(o, o', Nil, Nil)
  {
    var o' := o.(arr := arr, nodes := nodes);
    forall s | Within(o, s) ensures Within(o', s) {
      forall i | 0 <= i < |arr| ensures ValueIn(arr[i], s) { }
      forall i | 0 <= i < |nodes| ensures NodeIn(nodes[i], s) { }
    }
  }

  /** Another metatable, and what its `__mode` says. */
  function PutMetatable(o: Object, mt: Value, mode: Weakness): Object {
    match o
    case Userdata(_, uvs) => Userdata(mt, uvs)
    case Table(_, _, arr, nodes) => Table(mode, mt, arr, nodes)
    case _ => o
  }

  lemma PutMetatableKind(o: Object, mt: Value, mode: Weakness)
    requires o.Table? || o.Userdata?
    ensures var o' := PutMetatable(o, mt, mode);
            && (o.Userdata? ==> o'.Userdata?) && (o.Table? ==> o'.Table? && o'.weakness == mode)
            && !o'.Thread? && !o'.Str? && o'.metatable == mt
  {
  }

  lemma PutMetatableAdds(h: Heap, o: Object, mt: Value, mode: Weakness)
    requires MetatableOk(h, o) && (mt.Gc? ==> mt.ref in h && h[mt.ref].Table?)
    ensures SameKind(o, PutMetatable(o, mt, mode)) || o.Thread?
    ensures MetatableOk(h, PutMetatable(o, mt, mode)) && Adds(o, PutMetatable(o, mt, mode), mt, Nil)
  {
  }

  lemma SameMetatableAdds(h: Heap, o: Object, mode: Weakness)
    requires MetatableOk(h, o) && o.Table?
    ensures var o' := PutMetatable(o, o.metatable, mode);
            SameKind(o, o') && MetatableOk(h, o') && Adds(o, o', Nil, Nil)
  {
  }

  /** The instructions of the program and of the collector; registers are stack slots of the running thread. */
  datatype Command =
    | Create(dst: nat, blank: Object)
    | Intern(dst: nat, str: Ref)
    | Clear(dst: nat)
    | Move(dst: nat, src: nat)
    | Load(dst: nat, src: nat, field: Field)
    | LoadRegistry(dst: nat)
    | LoadBasicMetatable(dst: nat, kind: nat)
    | Store(obj: nat, field: Field, src: nat)
    | StoreKey(obj: nat, node: nat, key: nat, src: nat)
    | Rehash(obj: nat, arr: seq<Value>, nodes: seq<Node>)
    | SetMetatable(obj: nat, mt: nat, mode: Mode, finalizer: bool)
    | SetMode(obj: nat, mode: Mode)
    | SetRegistry(src: nat)
    | SetBasicMetatable(kind: nat, src: nat)
    | SetTop(top: nat)
    | Capture(dst: nat, level: nat)
    | Close(level: nat)
    | Resume(src: nat)
    | ResumeMain
    | Step(emergency: bool)

  /** How many of the commands are steps of the collector. */
  function Steps(cs: seq<Command>): nat {
    if cs == [] then 0 else Steps(cs[..|cs| - 1]) + if cs[|cs| - 1].Step? then 1 else 0
  }

  /** The strings handed out again by the commands. */
  ghost function Interned(cs: seq<Command>): set<Ref> {
    set i | 0 <= i < |cs| && cs[i].Intern? :: cs[i].str
  }

  lemma InternedOne(c: Command, garbage: set<Ref>)
    ensures Interned([c]) == if c.Intern? then {c.str} else {}
    ensures garbage + {} == garbage && garbage - {} == garbage
  {
    assert c.Intern? ==> [c][0].str in Interned([c]);
  }

  lemma NothingInterned()
    ensures Interned([]) == {}
  {
  }

  lemma InternedMore(cs: seq<Command>, c: Command)
    ensures Interned(cs + [c]) == Interned(cs) + if c.Intern? then {c.str} else {}
  {
    var more := cs + [c];
    forall o | o in Interned(cs) ensures o in Interned(more) {
      var i :| 0 <= i < |cs| && cs[i].Intern? && cs[i].str == o;
      assert more[i] == cs[i];
    }
    if c.Intern? { assert more[|cs|] == c; }
  }
}
