/**
 Open upvalues and to-be-closed variables of a thread (lfunc.c), while its stack moves in memory (ldo.c). Pointers
 into the stack are addresses here; when the stack is reallocated they become offsets for a moment.
 */
module Upvalues {

  datatype Value = Nil | False | Other(id: nat)

  /** A place of the stack; `delta` is the link of to-be-closed variables, apart from the value. */
  datatype Slot = Slot(val: Value, delta: nat)

  const MAXDELTA: nat := 65535

  /** A pointer into the stack, or an offset. */
  datatype StkRel = Pointer(p: int) | Offset(o: int)

  /** Where the value of an upvalue is. */
  datatype UpVal = Open(v: StkRel) | Closed(val: Value)

  datatype CallInfo = CallInfo(func: StkRel, top: StkRel)

  // ----- moving, on values -----

  function Saved(r: StkRel, base: int): StkRel { if r.Pointer? then Offset(r.p - base) else r }

  function Restored(r: StkRel, base: int): StkRel { if r.Offset? then Pointer(base + r.o) else r }

  function SavedUpVal(u: UpVal, base: int): UpVal { if u.Open? then Open(Saved(u.v, base)) else u }

  function RestoredUpVal(u: UpVal, base: int): UpVal { if u.Open? then Open(Restored(u.v, base)) else u }

  function SavedCall(c: CallInfo, base: int): CallInfo { CallInfo(Saved(c.func, base), Saved(c.top, base)) }

  function RestoredCall(c: CallInfo, base: int): CallInfo { CallInfo(Restored(c.func, base), Restored(c.top, base)) }

  // ----- to-be-closed variables, on values -----

  /** The chain goes down to the bottom of the stack, by links of 16 bits; a link of zero marks a dummy node. */
  predicate ChainOk(slots: seq<Slot>, n: nat)
    decreases n
  {
    if n == 0 then true
    else if n >= |slots| then false
    else if slots[n].delta == 0 then MAXDELTA <= n && ChainOk(slots, n - MAXDELTA)
    else slots[n].delta <= 65535 && slots[n].delta <= n && ChainOk(slots, n - slots[n].delta)
  }

  /** The variables on the chain, the last one first. */
  function Variables(slots: seq<Slot>, n: nat): seq<nat>
    requires ChainOk(slots, n)
    decreases n
  {
    if n == 0 then []
    else if slots[n].delta == 0 then Variables(slots, n - MAXDELTA)
    else [n] + Variables(slots, n - slots[n].delta)
  }

  /** The chain does not depend on values, nor on what is above. */
  lemma {:induction false} ChainSame(slots: seq<Slot>, slots': seq<Slot>, n: nat)
    requires ChainOk(slots, n) && (n == 0 || n < |slots'|)
    requires forall i :: 0 <= i <= n && i < |slots| && i < |slots'| ==> slots'[i].delta == slots[i].delta
    ensures ChainOk(slots', n) && Variables(slots', n) == Variables(slots, n)
    decreases n
  {
    if n > 0 {
      ChainSame(slots, slots', n - if slots[n].delta == 0 then MAXDELTA else slots[n].delta);
    }
  }

  lemma {:induction false} VariablesBelow(slots: seq<Slot>, n: nat)
    requires ChainOk(slots, n)
    ensures forall i :: 0 <= i < |Variables(slots, n)| ==> 0 < Variables(slots, n)[i] <= n
    decreases n
  {
    if n > 0 {
      VariablesBelow(slots, n - if slots[n].delta == 0 then MAXDELTA else slots[n].delta);
    }
  }

  // ----- the list of open upvalues, on values -----

  /** The place that an open upvalue is for. */
  function LevelOf(ups: map<nat, UpVal>, stack: int, u: nat): int {
    if u in ups && ups[u].Open? && ups[u].v.Pointer? then ups[u].v.p - stack else -1
  }

  predicate OpenAt(ups: map<nat, UpVal>, stack: int, n: nat, u: nat) {
    u in ups && ups[u].Open? && ups[u].v.Pointer? && 0 <= LevelOf(ups, stack, u) < n
  }

  predicate Above(ups: map<nat, UpVal>, stack: int, u: nat, w: nat) { LevelOf(ups, stack, u) > LevelOf(ups, stack, w) }

  /** Upvalues are listed from the top down, one for each place at most. */
  ghost predicate Ordered(list: seq<nat>, ups: map<nat, UpVal>, stack: int, n: nat, next: nat) {
    && (forall i :: 0 <= i < |list| ==> OpenAt(ups, stack, n, list[i]))
    && (forall i, j :: 0 <= i < j < |list| ==> Above(ups, stack, list[i], list[j]))
    && (forall u :: u in ups && ups[u].Open? ==> u in list)
    && (forall u :: u in ups ==> u < next)
  }

  lemma InsertKeepsOrder(list: seq<nat>, ups: map<nat, UpVal>, stack: int, n: nat, next: nat, k: nat, level: int)
    requires Ordered(list, ups, stack, n, next) && k <= |list| && 0 <= level - stack < n
    requires forall i :: 0 <= i < k ==> LevelOf(ups, stack, list[i]) > level - stack
    requires forall i :: k <= i < |list| ==> LevelOf(ups, stack, list[i]) < level - stack
    ensures Ordered(list[..k] + [next] + list[k..], ups[next := Open(Pointer(level))], stack, n, next + 1)
  {
    var list', ups' := list[..k] + [next] + list[k..], ups[next := Open(Pointer(level))];
    assert next !in ups;
    forall i | 0 <= i < |list'| ensures OpenAt(ups', stack, n, list'[i]) {
      if i != k { assert OpenAt(ups, stack, n, list[if i < k then i else i - 1]); }
    }
    forall i, j | 0 <= i < j < |list'| ensures Above(ups', stack, list'[i], list'[j]) {
      var i0, j0 := if i < k then i else i - 1, if j < k then j else j - 1;
      if i != k { assert OpenAt(ups, stack, n, list[i0]); }
      if j != k { assert OpenAt(ups, stack, n, list[j0]); }
      if i != k && j != k { assert Above(ups, stack, list[i0], list[j0]); }
    }
    forall u | u in ups' && ups'[u].Open? ensures u in list' { if u != next { assert u in list; } }
  }

  lemma UnlinkKeepsOrder(list: seq<nat>, ups: map<nat, UpVal>, stack: int, n: nat, next: nat, v: Value)
    requires Ordered(list, ups, stack, n, next) && list != []
    ensures Ordered(list[1..], ups[list[0] := Closed(v)], stack, n, next)
  {
    var list', ups' := list[1..], ups[list[0] := Closed(v)];
    assert OpenAt(ups, stack, n, list[0]);
    forall i | 0 <= i < |list'| ensures OpenAt(ups', stack, n, list'[i]) {
      assert OpenAt(ups, stack, n, list[i + 1]) && Above(ups, stack, list[0], list[i + 1]);
    }
    forall i, j | 0 <= i < j < |list'| ensures Above(ups', stack, list'[i], list'[j]) {
      assert Above(ups, stack, list[i + 1], list[j + 1]);
      assert OpenAt(ups', stack, n, list'[i]) && OpenAt(ups', stack, n, list'[j]);
    }
    forall u | u in ups' && ups'[u].Open? ensures u in list' { assert u in list; }
  }

  lemma ListedIsOpen(list: seq<nat>, ups: map<nat, UpVal>, stack: int, n: nat, next: nat, k: nat)
    requires Ordered(list, ups, stack, n, next) && k < |list|
    ensures OpenAt(ups, stack, n, list[k])
  {
  }

  /** Upvalues of the same levels, in another place or another size of the stack. */
  lemma MoveKeepsOrder(list: seq<nat>, ups: map<nat, UpVal>, stack: int, n: nat, next: nat, ups': map<nat, UpVal>,
                       stack': int, n': nat)
    requires Ordered(list, ups, stack, n, next) && ups'.Keys == ups.Keys
    requires forall u :: u in ups ==> (ups'[u].Open? <==> ups[u].Open?)
    requires forall i :: 0 <= i < |list| ==>
      OpenAt(ups', stack', n', list[i]) && LevelOf(ups', stack', list[i]) == LevelOf(ups, stack, list[i])
    ensures Ordered(list, ups', stack', n', next)
  {
    forall i, j | 0 <= i < j < |list| ensures Above(ups', stack', list[i], list[j]) {
      assert Above(ups, stack, list[i], list[j]);
    }
  }

  class LuaState {
    var stack: int
    var slots: seq<Slot>
    var top: StkRel
    var tbclist: StkRel
    var ci: seq<CallInfo>
    var openupval: seq<nat>
    var upvals: map<nat, UpVal>
    /** The next new upvalue. */
    var next: nat

    constructor (stack: int, size: nat)
      requires size > 0
      ensures Valid() && upvals == map[] && Closing() == [] && |slots| == size
    {
      this.stack := stack;
      slots := seq(size, _ => Slot(Nil, 0));
      top, tbclist, ci, openupval, upvals, next := Pointer(stack), Pointer(stack), [], [], map[], 0;
    }

    // ----- the invariant -----

    ghost predicate Inside(r: StkRel)
      reads `stack, `slots
    {
      r.Pointer? && stack <= r.p <= stack + |slots|
    }

    /** The place that an open upvalue is for. */
    ghost function Level(u: nat): int
      reads `stack, `upvals
    {
      LevelOf(upvals, stack, u)
    }

    ghost predicate IsOpen(u: nat)
      reads `stack, `slots, `upvals
    {
      OpenAt(upvals, stack, |slots|, u)
    }

    ghost predicate ListOk()
      reads `stack, `slots, `upvals, `openupval, `next
    {
      Ordered(openupval, upvals, stack, |slots|, next)
    }

    ghost predicate Valid()
      reads this
    {
      && slots != [] && Inside(top) && Inside(tbclist) && ListOk() && ChainOk(slots, tbclist.p - stack)
      && tbclist.p < stack + |slots| && (tbclist.p > stack ==> slots[tbclist.p - stack].delta > 0)
      && forall i :: 0 <= i < |ci| ==> Inside(ci[i].func) && Inside(ci[i].top)
    }

    /** The value of an upvalue. */
    ghost function Cell(u: nat): Value
      requires Valid() && u in upvals
      reads this
    {
      AllOpen();
      if upvals[u].Closed? then upvals[u].val else slots[Level(u)].val
    }

    /** The variables to be closed, the last one first. */
    ghost function Closing(): seq<nat>
      requires Valid()
      reads this
    {
      Variables(slots, tbclist.p - stack)
    }

    // ----- upvalues -----

    /** What the program sees through its upvalues stays, and so do the variables to be closed. */
    twostate predicate SameView()
      requires old(Valid()) && Valid()
      reads this
    {
      && (forall u :: u in old(upvals) ==> u in upvals && Cell(u) == old(Cell(u)))
      && Closing() == old(Closing())
    }

    /** `luaF_findupval`: the upvalue for a place of the stack, found or new. */
    method FindUpVal(level: int) returns (u: nat)
      requires Valid() && stack <= level < stack + |slots|
      modifies `openupval, `upvals, `next
      ensures Valid() && SameView() && IsOpen(u) && Level(u) == level - stack
      ensures if exists w :: w in old(openupval) && old(Level(w)) == level - stack
              then upvals == old(upvals) else u == old(next) && upvals == old(upvals)[u := Open(Pointer(level))]
    {
      var i := 0;
      while i < |openupval| && upvals[openupval[i]].v.p >= level
        invariant 0 <= i <= |openupval|
        invariant forall k :: 0 <= k < i ==> Level(openupval[k]) > level - stack
      {
        if upvals[openupval[i]].v.p == level { return openupval[i]; }
        i := i + 1;
      }
      u := NewUpVal(level, i);
    }

    /** `newupval`, linked into the list at place `i`. */
    method NewUpVal(level: int, i: nat) returns (u: nat)
      requires Valid() && stack <= level < stack + |slots| && i <= |openupval|
      requires forall k :: 0 <= k < i ==> Level(openupval[k]) > level - stack
      requires forall k :: i <= k < |openupval| ==> Level(openupval[k]) < level - stack
      modifies `openupval, `upvals, `next
      ensures Valid() && SameView() && IsOpen(u) && Level(u) == level - stack
      ensures u == old(next) && upvals == old(upvals)[u := Open(Pointer(level))]
    {
      hide ChainOk, Variables, Ordered;
      InsertKeepsOrder(openupval, upvals, stack, |slots|, next, i, level);
      FreshIs(next);
      u, next := next, next + 1;
      upvals := upvals[u := Open(Pointer(level))];
      openupval := openupval[..i] + [u] + openupval[i..];
    }

    lemma FreshIs(u: nat)
      requires Valid() && u >= next
      ensures u !in upvals
    {
    }

    lemma AllOpen()
      requires Valid()
      ensures forall u :: u in upvals && upvals[u].Open? ==> IsOpen(u) && u in openupval
    {
      forall u | u in upvals && upvals[u].Open? ensures IsOpen(u) && u in openupval {
        var i :| 0 <= i < |openupval| && openupval[i] == u;
        assert OpenAt(upvals, stack, |slots|, openupval[i]);
      }
    }

    /** `luaF_closeupval`: upvalues from `level` on keep their values to themselves. */
    method CloseUpVal(level: int)
      requires Valid() && stack <= level
      modifies `openupval, `upvals
      ensures Valid() && SameView() && upvals.Keys == old(upvals).Keys
      ensures forall u :: u in upvals ==>
        upvals[u] == if old(IsOpen(u) && Level(u) >= level - stack) then Closed(old(Cell(u))) else old(upvals[u])
      ensures forall u :: u in openupval ==> Level(u) < level - stack
    {
      while openupval != [] && upvals[openupval[0]].v.p >= level
        invariant Valid() && SameView() && upvals.Keys == old(upvals).Keys
        invariant forall u :: u in upvals ==>
          || upvals[u] == old(upvals)[u]
          || (old(IsOpen(u) && Level(u) >= level - stack) && upvals[u] == Closed(old(Cell(u))))
        decreases |openupval|
      {
        CloseFirst();
      }
      if openupval != [] { OnTop(); }
    }

    /** The first upvalue of the list is the highest. */
    lemma OnTop()
      requires Valid() && openupval != []
      ensures forall u :: u in openupval ==> Level(u) <= Level(openupval[0])
    {
      forall u | u in openupval ensures Level(u) <= Level(openupval[0]) {
        var i :| 0 <= i < |openupval| && openupval[i] == u;
        assert i > 0 ==> Above(upvals, stack, openupval[0], u);
      }
    }

    /** `luaF_unlinkupval`, and the value moves. */
    method CloseFirst()
      requires Valid() && openupval != []
      modifies `openupval, `upvals
      ensures Valid() && SameView() && openupval == old(openupval)[1..]
      ensures var u := old(openupval)[0]; upvals == old(upvals)[u := Closed(old(Cell(u)))]
    {
      hide ChainOk, Variables, Ordered;
      FirstIsOpen();
      var u := openupval[0];
      var v := slots[upvals[u].v.p - stack].val;
      UnlinkKeepsOrder(openupval, upvals, stack, |slots|, next, v);
      openupval := openupval[1..];
      upvals := upvals[u := Closed(v)];
    }

    lemma FirstIsOpen()
      requires Valid() && openupval != []
      ensures IsOpen(openupval[0])
    {
      assert OpenAt(upvals, stack, |slots|, openupval[0]);
    }

    method GetUpVal(u: nat) returns (v: Value)
      requires Valid() && u in upvals
      ensures v == Cell(u)
    {
      v := if upvals[u].Closed? then upvals[u].val else slots[upvals[u].v.p - stack].val;
    }

    /** What is written through an upvalue, it alone sees, and the stack while it is open. */
    method SetUpVal(u: nat, v: Value)
      requires Valid() && u in upvals
      modifies `slots, `upvals
      ensures Valid() && Closing() == old(Closing()) && upvals.Keys == old(upvals).Keys
      ensures forall w :: w in upvals ==> Cell(w) == if w == u then v else old(Cell(w))
      ensures old(IsOpen(u)) ==>
        slots == old(slots[Level(u) := Slot(v, slots[Level(u)].delta)]) && upvals == old(upvals)
      ensures !old(IsOpen(u)) ==> slots == old(slots)
    {
      if upvals[u].Closed? {
        SetClosed(u, v);
      } else {
        OnePerLevel(u);
        SetStack(upvals[u].v.p, v);
      }
    }

    method SetClosed(u: nat, v: Value)
      requires Valid() && u in upvals && upvals[u].Closed?
      modifies `upvals
      ensures Valid() && Closing() == old(Closing()) && upvals == old(upvals)[u := Closed(v)]
      ensures forall w :: w in upvals ==> Cell(w) == if w == u then v else old(Cell(w))
    {
      hide ChainOk, Variables;
      upvals := upvals[u := Closed(v)];
    }

    lemma OnePerLevel(u: nat)
      requires Valid() && u in upvals && upvals[u].Open?
      ensures IsOpen(u) && forall w :: w in upvals && Level(w) == Level(u) ==> w == u
    {
      AllOpen();
      forall w | w in upvals && Level(w) == Level(u) ensures w == u {
        var i :| 0 <= i < |openupval| && openupval[i] == u;
        var j :| 0 <= j < |openupval| && openupval[j] == w;
        assert i < j ==> Above(upvals, stack, u, w);
        assert j < i ==> Above(upvals, stack, w, u);
      }
    }

    /** What is written to the stack, the upvalue for that place sees. */
    method SetStack(p: int, v: Value)
      requires Valid() && stack <= p < stack + |slots|
      modifies `slots
      ensures Valid() && Closing() == old(Closing())
      ensures slots == old(slots)[p - stack := Slot(v, old(slots)[p - stack].delta)]
      ensures forall w :: w in upvals ==> Cell(w) == if Level(w) == p - stack then v else old(Cell(w))
    {
      slots := slots[p - stack := Slot(v, slots[p - stack].delta)];
      ChainSame(old(slots), slots, tbclist.p - stack);
    }

    // ----- moving the stack -----

    /** The open upvalues are those in the list, once each. */
    ghost predicate Listed()
      reads `openupval, `upvals
    {
      && (forall i :: 0 <= i < |openupval| ==> openupval[i] in upvals && upvals[openupval[i]].Open?)
      && (forall i, j :: 0 <= i < j < |openupval| ==> openupval[i] != openupval[j])
      && (forall u :: u in upvals && upvals[u].Open? ==> u in openupval)
    }

    /** `relstack`: pointers become offsets. */
    method RelStack()
      requires Listed()
      modifies `top, `tbclist, `upvals, `ci
      ensures top == Saved(old(top), stack) && tbclist == Saved(old(tbclist), stack)
      ensures upvals.Keys == old(upvals).Keys
      ensures forall u :: u in upvals ==> upvals[u] == SavedUpVal(old(upvals)[u], stack)
      ensures |ci| == |old(ci)| && forall i :: 0 <= i < |ci| ==> ci[i] == SavedCall(old(ci)[i], stack)
    {
      top := Saved(top, stack);
      tbclist := Saved(tbclist, stack);
      SaveUpVals();
      SaveCalls();
    }

    method SaveUpVals()
      requires Listed()
      modifies `upvals
      ensures upvals.Keys == old(upvals).Keys
      ensures forall u :: u in upvals ==> upvals[u] == SavedUpVal(old(upvals)[u], stack)
    {
      for i := 0 to |openupval|
        invariant upvals.Keys == old(upvals).Keys
        invariant forall u :: u in upvals ==>
          upvals[u] == if u in openupval[..i] then SavedUpVal(old(upvals)[u], stack) else old(upvals)[u]
      {
        var u := openupval[i];
        assert u !in openupval[..i] && openupval[..i + 1] == openupval[..i] + [u];
        upvals := upvals[u := Open(Saved(upvals[u].v, stack))];
      }
      assert openupval[..|openupval|] == openupval;
    }

    method SaveCalls()
      modifies `ci
      ensures |ci| == |old(ci)| && forall i :: 0 <= i < |ci| ==> ci[i] == SavedCall(old(ci)[i], stack)
    {
      for i := 0 to |ci|
        invariant |ci| == |old(ci)|
        invariant forall k :: 0 <= k < |ci| ==> ci[k] == if k < i then SavedCall(old(ci)[k], stack) else old(ci)[k]
      {
        ci := ci[i := SavedCall(ci[i], stack)];
      }
    }

    /** `correctstack`: offsets become pointers again. */
    method CorrectStack()
      requires Listed()
      modifies `top, `tbclist, `upvals, `ci
      ensures top == Restored(old(top), stack) && tbclist == Restored(old(tbclist), stack)
      ensures upvals.Keys == old(upvals).Keys
      ensures forall u :: u in upvals ==> upvals[u] == RestoredUpVal(old(upvals)[u], stack)
      ensures |ci| == |old(ci)| && forall i :: 0 <= i < |ci| ==> ci[i] == RestoredCall(old(ci)[i], stack)
    {
      top := Restored(top, stack);
      tbclist := Restored(tbclist, stack);
      RestoreUpVals();
      RestoreCalls();
    }

    method RestoreUpVals()
      requires Listed()
      modifies `upvals
      ensures upvals.Keys == old(upvals).Keys
      ensures forall u :: u in upvals ==> upvals[u] == RestoredUpVal(old(upvals)[u], stack)
    {
      for i := 0 to |openupval|
        invariant upvals.Keys == old(upvals).Keys
        invariant forall u :: u in upvals ==>
          upvals[u] == if u in openupval[..i] then RestoredUpVal(old(upvals)[u], stack) else old(upvals)[u]
      {
        var u := openupval[i];
        assert u !in openupval[..i] && openupval[..i + 1] == openupval[..i] + [u];
        upvals := upvals[u := Open(Restored(upvals[u].v, stack))];
      }
      assert openupval[..|openupval|] == openupval;
    }

    method RestoreCalls()
      modifies `ci
      ensures |ci| == |old(ci)| && forall i :: 0 <= i < |ci| ==> ci[i] == RestoredCall(old(ci)[i], stack)
    {
      for i := 0 to |ci|
        invariant |ci| == |old(ci)|
        invariant forall k :: 0 <= k < |ci| ==> ci[k] == if k < i then RestoredCall(old(ci)[k], stack) else old(ci)[k]
      {
        ci := ci[i := RestoredCall(ci[i], stack)];
      }
    }

    /** All that points into the stack points below `size`. */
    ghost predicate Below(size: nat)
      reads `stack, `slots, `top, `tbclist, `ci, `openupval, `upvals
    {
      && top.Pointer? && top.p - stack <= size && tbclist.Pointer? && tbclist.p - stack < size
      && (forall i :: 0 <= i < |openupval| ==> Level(openupval[i]) < size)
      && forall i :: 0 <= i < |ci| ==>
        ci[i].func.Pointer? && ci[i].func.p - stack <= size && ci[i].top.Pointer? && ci[i].top.p - stack <= size
    }

    /** The old values, as far as there is room, and nil. */
    function Resized(size: nat): seq<Slot>
      reads `slots
    {
      if size <= |slots| then slots[..size] else slots + seq(size - |slots|, _ => Slot(Nil, 0))
    }

    /** Pointers are saved as offsets, the stack moves, and they are restored. */
    method Relocate(newsize: nat, newstack: int, fails: bool)
      requires Listed()
      modifies `stack, `slots, `top, `tbclist, `upvals, `ci
      ensures if fails then stack == old(stack) && slots == old(slots)
              else stack == newstack && slots == old(Resized(newsize))
      ensures top == Restored(Saved(old(top), old(stack)), stack)
      ensures tbclist == Restored(Saved(old(tbclist), old(stack)), stack)
      ensures upvals.Keys == old(upvals).Keys
      ensures forall u :: u in upvals ==> upvals[u] == RestoredUpVal(SavedUpVal(old(upvals)[u], old(stack)), stack)
      ensures |ci| == |old(ci)|
      ensures forall i :: 0 <= i < |ci| ==> ci[i] == RestoredCall(SavedCall(old(ci)[i], old(stack)), stack)
    {
      RelStack();
      if !fails {
        slots := Resized(newsize);
        stack := newstack;
      }
      CorrectStack();
    }

    /**
     `luaD_reallocstack`: the stack gets another size and another place in memory, unless there is no memory.
     Whatever pointed to a place of the stack points to the same place in its new position.
     */
    method ReallocStack(newsize: nat, newstack: int, fails: bool)
      requires Valid() && Below(newsize) && newsize > 0
      modifies this
      ensures Valid() && SameView() && openupval == old(openupval) && upvals.Keys == old(upvals).Keys
      ensures if fails then stack == old(stack) && slots == old(slots)
              else stack == newstack && slots == old(Resized(newsize))
      ensures forall u :: u in upvals ==> Level(u) == old(Level(u))
      ensures forall u :: u in upvals && upvals[u].Closed? ==> upvals[u] == old(upvals[u])
      ensures top.p - stack == old(top.p - stack) && tbclist.p - stack == old(tbclist.p - stack)
      ensures |ci| == |old(ci)| && forall i :: 0 <= i < |ci| ==>
        ci[i].func.p - stack == old(ci[i].func.p - stack) && ci[i].top.p - stack == old(ci[i].top.p - stack)
    {
      hide ChainOk, Variables, Ordered, Listed;
      ListedOnce();
      AllOpen();
      ghost var base, ups, n := stack, upvals, |slots|;
      Relocate(newsize, newstack, fails);
      ChainSame(old(slots), slots, tbclist.p - stack);
      forall u | u in upvals
        ensures LevelOf(upvals, stack, u) == LevelOf(ups, base, u) && (upvals[u].Open? <==> ups[u].Open?)
      {
        if upvals[u].Open? { assert OpenAt(ups, base, n, u); }
      }
      forall k | 0 <= k < |openupval| ensures OpenAt(upvals, stack, |slots|, openupval[k]) {
        ListedIsOpen(openupval, ups, base, n, next, k);
      }
      MoveKeepsOrder(openupval, ups, base, n, next, upvals, stack, |slots|);
      AllOpen();
    }

    lemma AllBelow()
      requires Valid()
      ensures Below(|slots|)
    {
      AllOpen();
    }

    lemma ListedOnce()
      requires Valid()
      ensures Listed()
    {
      forall i, j | 0 <= i < j < |openupval| ensures openupval[i] != openupval[j] {
        assert Above(upvals, stack, openupval[i], openupval[j]);
      }
    }

    // ----- variables to be closed -----

    /** `luaF_newtbcupval`: links are short, so there may be dummy nodes in between. */
    method NewTbcUpVal(level: int)
      requires Valid() && tbclist.p < level < stack + |slots|
      modifies `slots, `tbclist
      ensures Valid() && |slots| == |old(slots)| && forall i :: 0 <= i < |slots| ==> slots[i].val == old(slots)[i].val
      ensures forall u :: u in upvals ==> Cell(u) == old(Cell(u))
      ensures Closing() == if slots[level - stack].val.Other? then [level - stack] + old(Closing()) else old(Closing())
    {
      hide ChainOk, Variables;
      if !slots[level - stack].val.Other? { return; }
      while level - tbclist.p > MAXDELTA
        invariant Inside(tbclist) && tbclist.p < level && |slots| == |old(slots)|
        invariant ChainOk(slots, tbclist.p - stack) && Variables(slots, tbclist.p - stack) == old(Closing())
        invariant forall i :: 0 <= i < |slots| ==> slots[i].val == old(slots)[i].val
        decreases level - tbclist.p
      {
        PutDelta(tbclist.p + MAXDELTA, 0);
      }
      PutDelta(level, level - tbclist.p);
    }

    /** One more node, with a link to the last one. */
    method PutDelta(p: int, delta: nat)
      requires Inside(tbclist) && tbclist.p < p < stack + |slots| && ChainOk(slots, tbclist.p - stack)
      requires p - tbclist.p == if delta == 0 then MAXDELTA else delta
      requires delta <= 65535
      modifies `slots, `tbclist
      ensures tbclist == Pointer(p) && |slots| == |old(slots)| && ChainOk(slots, p - stack)
      ensures slots[p - stack].delta == delta
      ensures forall i :: 0 <= i < |slots| ==> slots[i].val == old(slots)[i].val
      ensures var vs := old(Variables(slots, tbclist.p - stack));
        Variables(slots, p - stack) == if delta == 0 then vs else [p - stack] + vs
    {
      slots := slots[p - stack := Slot(slots[p - stack].val, delta)];
      ChainSame(old(slots), slots, tbclist.p - stack);
      tbclist := Pointer(p);
    }

    /** `poptbclist`: the last variable leaves the list, with the dummy nodes before it. */
    method PopTbcList()
      requires Valid() && tbclist.p > stack
      modifies `tbclist
      ensures Valid() && old(Closing()) == [old(tbclist.p) - stack] + Closing()
      ensures forall u :: u in upvals ==> Cell(u) == old(Cell(u))
    {
      hide Ordered;
      var tbc := tbclist.p - slots[tbclist.p - stack].delta;
      ghost var vs := Variables(slots, tbc - stack);
      while tbc > stack && slots[tbc - stack].delta == 0
        invariant stack <= tbc < stack + |slots| && ChainOk(slots, tbc - stack) && Variables(slots, tbc - stack) == vs
      {
        tbc := tbc - MAXDELTA;
      }
      tbclist := Pointer(tbc);
    }

    /** The last variable leaves the list; its closing method moves the stack. */
    method CloseVariable(place: int)
      requires Valid() && tbclist.p > stack
      modifies this
      ensures Valid() && old(Closing()) == [old(tbclist.p - stack)] + Closing()
      ensures upvals.Keys == old(upvals).Keys && forall u :: u in upvals ==> Cell(u) == old(Cell(u))
      ensures openupval == old(openupval) && forall u :: u in openupval ==> Level(u) == old(Level(u))
    {
      hide Ordered, ChainOk, Variables;
      AllOpen();
      PopTbcList();
      AllBelow();
      ReallocStack(|slots|, place, false);
    }

    /**
     `luaF_close`: closes upvalues and variables from `level` on, the last ones first. The stack may move whenever
     a variable is closed, to the next of `places`.
     */
    method Close(level0: int, places: nat -> int) returns (level: int, closed: seq<nat>)
      requires Valid() && stack < level0
      modifies this
      ensures Valid() && level - stack == old(level0 - stack)
      ensures old(Closing()) == closed + Closing()
      ensures forall i :: 0 <= i < |closed| ==> closed[i] >= level - stack
      ensures forall i :: 0 <= i < |Closing()| ==> Closing()[i] < level - stack
      ensures forall u :: u in old(upvals) ==> u in upvals && Cell(u) == old(Cell(u))
      ensures forall u :: u in openupval ==> Level(u) < level - stack
    {
      hide Ordered, ChainOk, Variables;
      level, closed := level0, [];
      var levelrel := level - stack;
      CloseUpVal(level);
      while tbclist.p >= level
        invariant Valid() && level - stack == levelrel && old(Closing()) == closed + Closing()
        invariant forall i :: 0 <= i < |closed| ==> closed[i] >= levelrel
        invariant forall u :: u in old(upvals) ==> u in upvals && Cell(u) == old(Cell(u))
        invariant forall u :: u in openupval ==> Level(u) < levelrel
        decreases |Closing()|
      {
        closed := closed + [tbclist.p - stack];
        CloseVariable(places(|closed|));
        level := stack + levelrel;
      }
      VariablesBelow(slots, tbclist.p - stack);
    }
  }
}
