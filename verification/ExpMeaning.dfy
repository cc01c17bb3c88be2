/**
 What an expression descriptor means while its code is being generated: where its value will be found,
 and what its lists of open jumps stand for.
 */
module ExpMeaning {
  import opened ExpCode

  /** The main value of an expression, the union of `expdesc` (lparser.h). */
  datatype Kind =
    | KNil | KTrue | KFalse | KInt(i: int) | KStr(s: string) | K(info: nat)
    | NonReloc(reg: nat) | VLocal(ridx: nat) | VUpval(idx: nat) | Jump(pc: nat) | Reloc(pc: nat)

  datatype ExpDesc = ExpDesc(k: Kind, t: int, f: int)

  /** The expression and where its code began: `before` is the program up to there. */
  datatype Context = Context(w: World, before: Program, x: Exp, base: nat, dst: int)

  /** The jumps of the two lists, in order. */
  datatype Lists = Lists(ts: seq<nat>, fs: seq<nat>)

  function Elems(s: seq<nat>): set<int> { set j | j in s }

  ghost predicate Distinct(s: seq<nat>) { forall i, j :: 0 <= i < j < |s| ==> s[i] != s[j] }

  /** `getjump` */
  function GetJump(code: Code, pc: nat): int
    requires pc < |code| && code[pc].Jmp?
  {
    if code[pc].sj == NO_JUMP then NO_JUMP else pc + 1 + code[pc].sj
  }

  /** The open jumps `s` are threaded through the code from `head` on. */
  predicate IsList(code: Code, head: int, s: seq<nat>)
    decreases |s|
  {
    if s == [] then head == NO_JUMP
    else head == s[0] && s[0] < |code| && code[s[0]].Jmp? && IsList(code, GetJump(code, s[0]), s[1..])
  }

  /** The code of an expression without the instruction whose register is still to be chosen. */
  function Body(code: Code, k: Kind): Code {
    if k.Reloc? && k.pc <= |code| then code[..k.pc] else code
  }

  function ListOwn(l: Lists): set<int> { Elems(l.ts) + Elems(l.fs) }

  /** The open jumps of an expression. */
  function Own(e: ExpDesc, l: Lists): set<int> {
    ListOwn(l) + if e.k.Jump? then {e.k.pc as int} else {}
  }

  function Opened(open: set<int>, e: ExpDesc, l: Lists): set<int> { open + Own(e, l) }

  /** Earlier code is left alone; at most, a last instruction that loads nils loads more of them. */
  ghost predicate Frame(code: Code, code': Code) {
    && |code| <= |code'|
    && forall i :: 0 <= i < |code| ==> code'[i] == code[i] || (code[i].LoadNil? && code'[i].LoadNil?)
  }

  /** What an instruction without a register computes. */
  function Computed(w: World, i: Instr, r: Regs): Value {
    match i
    case GetUpval(_, idx) => if idx < |w.up| then w.up[idx] else Nil
    case Not(_, b) => Bool(!Truthy(Reg(r, b)))
    case _ => Nil
  }

  /** The main value, when execution gets to the end; a condition is false then, since its jump was not taken. */
  function Main(w: World, ks: seq<Value>, code: Code, k: Kind, r: Regs): Value {
    match k
    case KNil => Nil
    case KTrue => True
    case KFalse => False
    case KInt(i) => Int(i)
    case KStr(s) => Str(s)
    case K(i) => Konst(ks, i)
    case NonReloc(i) => Reg(r, i)
    case VLocal(i) => Reg(r, i)
    case VUpval(i) => if i < |w.up| then w.up[i] else Nil
    case Jump(_) => False
    case Reloc(pc) => if pc < |code| then Computed(w, code[pc], r) else Nil
  }

  /** A test leaves the value it has tested in a register, unless the value is known to be a boolean. */
  ghost predicate LeavesValue(code: Code, j: int, r: Regs, v: Value, b: bool) {
    && 0 < j < |code| && IsTest(code[j - 1])
    && Truthy(v) == b
    && if code[j - 1].TestSet? then Reg(r, code[j - 1].b) == v else v == Bool(b)
  }

  /** How a run may stop, when the expression started in registers `r` and has the value `v`. */
  ghost predicate Stops(cx: Context, ks: seq<Value>, code: Code, k: Kind, l: Lists, r: Regs, v: Value, o: Outcome) {
    match o
    case End(r') => Same(r, r', cx.base, cx.dst) && Main(cx.w, ks, code, k, r') == v
    case Leave(j, r') =>
      && Same(r, r', cx.base, cx.dst)
      && if k.Jump? && j == k.pc then v == True
         else if j in l.ts then LeavesValue(code, j, r', v, true)
         else j in l.fs && LeavesValue(code, j, r', v, false)
  }

  function Now(open: set<int>, ks: seq<Value>, code: Code, last: int, e: ExpDesc, l: Lists): Program {
    Program(ks, Body(code, e.k), Opened(open, e, l), last)
  }

  ghost predicate StopsFrom(cx: Context, p: Program, code: Code, e: ExpDesc, l: Lists, r: Regs)
    requires Ready(cx.before) && Ready(p)
  {
    StopsAfter(cx, p.ks, code, e, l, Run(cx.w, cx.before, r), Run(cx.w, p, r))
  }

  /** The run `o0` of the earlier code goes on as `o`. */
  ghost predicate StopsAfter(cx: Context, ks: seq<Value>, code: Code, e: ExpDesc, l: Lists, o0: Outcome, o: Outcome) {
    match o0
    case Leave(_, _) => o == o0
    case End(r) => Stops(cx, ks, code, e.k, l, r, Eval(cx.w, cx.x, r), o)
  }

  /** All runs stop as they should. */
  ghost predicate Means(cx: Context, p: Program, code: Code, e: ExpDesc, l: Lists) {
    Ready(cx.before) && Ready(p) && forall r :: StopsFrom(cx, p, code, e, l, r)
  }

  /** The lists are lists of jumps that belong to this expression. */
  ghost predicate ListsOk(cx: Context, code: Code, e: ExpDesc, l: Lists) {
    && IsList(code, e.t, l.ts) && IsList(code, e.f, l.fs) && Distinct(l.ts + l.fs)
    && (forall j :: j in l.ts || j in l.fs ==> |cx.before.code| < j < |Body(code, e.k)|)
    && (e.k.Jump? ==> e.k.pc !in l.ts && e.k.pc !in l.fs)
  }

  /** The instruction of a descriptor that is not settled is the last one. */
  ghost predicate KindOk(cx: Context, ks: seq<Value>, code: Code, last: int, k: Kind) {
    && (k.Reloc? ==> |cx.before.code| <= k.pc && k.pc + 1 == |code| && (code[k.pc].GetUpval? || code[k.pc].Not?))
    && (k.Jump? ==>
          && |cx.before.code| < k.pc && k.pc + 1 == |code| && code[k.pc] == Jmp(NO_JUMP) && last < k.pc
          && (code[k.pc - 1].Compare2? || code[k.pc - 1].CompareI? || code[k.pc - 1].CompareK?))
    && (k.K? ==> k.info < |ks|)
  }

  ghost predicate Meaning(cx: Context, ks: seq<Value>, code: Code, last: int, e: ExpDesc, l: Lists) {
    && cx.before.ks <= ks && Frame(cx.before.code, code) && cx.before.last <= last <= |Body(code, e.k)|
    && (forall j :: j in cx.before.open ==> j < |cx.before.code|)
    && KindOk(cx, ks, code, last, e.k) && ListsOk(cx, code, e, l)
    && Means(cx, Now(cx.before.open, ks, code, last, e, l), code, e, l)
  }

  // ----- lists -----

  lemma {:induction false} ListElems(code: Code, head: int, s: seq<nat>)
    requires IsList(code, head, s)
    ensures forall j :: j in s ==> j < |code| && code[j].Jmp?
    decreases |s|
  {
    if s != [] {
      ListElems(code, GetJump(code, s[0]), s[1..]);
      assert s == [s[0]] + s[1..];
    }
  }

  /** A list does not depend on other code. */
  lemma {:induction false} ListStays(code: Code, code': Code, head: int, s: seq<nat>)
    requires IsList(code, head, s) && forall j :: j in s ==> j < |code'| && j < |code| && code'[j] == code[j]
    ensures IsList(code', head, s)
    decreases |s|
  {
    if s != [] {
      assert forall j :: j in s[1..] ==> j in s;
      ListStays(code, code', GetJump(code, s[0]), s[1..]);
    }
  }

  lemma SplitDistinct(a: seq<nat>, b: seq<nat>)
    requires Distinct(a + b)
    ensures Distinct(a) && Distinct(b) && Elems(a) !! Elems(b) && Distinct(b + a)
  {
    var c := a + b;
    forall i, j | 0 <= i < j < |a| ensures a[i] != a[j] { assert c[i] != c[j]; }
    forall i, j | 0 <= i < j < |b| ensures b[i] != b[j] { assert c[|a| + i] != c[|a| + j]; }
    forall i, j | 0 <= i < |a| && 0 <= j < |b| ensures a[i] != b[j] { assert c[i] != c[|a| + j]; }
    assert forall x :: x in a ==> x !in b;
    JoinDistinct(b, a);
  }

  lemma JoinDistinct(a: seq<nat>, b: seq<nat>)
    requires Distinct(a) && Distinct(b) && forall x :: x in a ==> x !in b
    ensures Distinct(a + b)
  {
    var c := a + b;
    forall i, j | 0 <= i < j < |c| ensures c[i] != c[j] {
      if i < |a| <= j { assert a[i] in a && b[j - |a|] in b; }
    }
  }

  // ----- the beginning of an expression -----

  /** Descriptors that need no code yet. */
  ghost predicate Immediate(w: World, ks: seq<Value>, x: Exp, k: Kind) {
    match x
    case Const(v) => (k.KNil? || k.KTrue? || k.KFalse? || k.KInt? || k.KStr?) && Main(w, ks, [], k, map[]) == v
    case Local(i) => k == VLocal(i)
    case Upvalue(i) => k == VUpval(i)
    case _ => false
  }

  lemma Begins(cx: Context, k: Kind)
    requires Ready(cx.before) && Immediate(cx.w, cx.before.ks, cx.x, k)
    requires 0 <= cx.before.last <= |cx.before.code|
    ensures Meaning(cx, cx.before.ks, cx.before.code, cx.before.last, ExpDesc(k, NO_JUMP, NO_JUMP), Lists([], []))
  {
    var e, l := ExpDesc(k, NO_JUMP, NO_JUMP), Lists([], []);
    assert Opened(cx.before.open, e, l) == cx.before.open;
    assert Now(cx.before.open, cx.before.ks, cx.before.code, cx.before.last, e, l) == cx.before;
  }

  // ----- loading the main value -----

  /** The instruction puts the main value into the register. */
  ghost predicate Loads(w: World, ks: seq<Value>, code: Code, k: Kind, reg: nat, i: Instr) {
    && IsPlain(i) && Encodable(i) && (i.LoadK? ==> i.kx < |ks|)
    && forall r :: Plain(w, ks, i, r) == Put(r, reg, Main(w, ks, code, k, r))
  }

  lemma BodyStays(cx: Context, code: Code, code': Code, e: ExpDesc, k': Kind, l: Lists)
    requires ListsOk(cx, code, e, l) && Body(code, e.k) <= code' && !k'.Jump?
    requires k'.Reloc? ==> |Body(code, e.k)| <= k'.pc
    ensures ListsOk(cx, code', ExpDesc(k', e.t, e.f), l)
  {
    assert forall j :: j in l.ts || j in l.fs ==> j < |Body(code, e.k)| && code[j] == code'[j];
    assert l.ts + l.fs == l.ts + l.fs;
    ListStays(code, code', e.t, l.ts);
    ListStays(code, code', e.f, l.fs);
  }

  lemma LoadedStops(cx: Context, ks: seq<Value>, code: Code, last: int, e: ExpDesc, l: Lists, reg: nat, i: Instr,
    r: Regs)
    requires Meaning(cx, ks, code, last, e, l) && !e.k.Jump?
    requires reg >= cx.base || reg == cx.dst
    requires Loads(cx.w, ks, code, e.k, reg, i)
    ensures var p := Now(cx.before.open, ks, code, last, e, l);
            Ready(Appended(p, i)) && StopsFrom(cx, Appended(p, i), p.code + [i], ExpDesc(NonReloc(reg), e.t, e.f), l, r)
  {
    var p := Now(cx.before.open, ks, code, last, e, l);
    AppendPlain(cx.w, p, i, r);
    assert StopsFrom(cx, p, code, e, l, r);
    LeavesOpen(cx.w, p.ks, p.code, p.open, p.last, 0, r);
  }

  lemma Loaded(cx: Context, ks: seq<Value>, code: Code, last: int, e: ExpDesc, l: Lists, reg: nat, i: Instr)
    requires Meaning(cx, ks, code, last, e, l) && !e.k.Jump?
    requires reg >= cx.base || reg == cx.dst
    requires Loads(cx.w, ks, code, e.k, reg, i)
    ensures Meaning(cx, ks, Body(code, e.k) + [i], last, ExpDesc(NonReloc(reg), e.t, e.f), l)
  {
    var p, e' := Now(cx.before.open, ks, code, last, e, l), ExpDesc(NonReloc(reg), e.t, e.f);
    BodyStays(cx, code, p.code + [i], e, e'.k, l);
    assert Now(cx.before.open, ks, p.code + [i], last, e', l) == Appended(p, i);
    AppendPlain(cx.w, p, i, map[]);
    forall r ensures StopsFrom(cx, Appended(p, i), p.code + [i], e', l, r) {
      LoadedStops(cx, ks, code, last, e, l, reg, i, r);
    }
  }

  // ----- conditions -----

  /** How a run may stop at a condition that falls through when the value counts as `b`. */
  ghost predicate ForkStops(cx: Context, code: Code, b: bool, l: Lists, r: Regs, v: Value, o: Outcome) {
    match o
    case End(r') => Same(r, r', cx.base, cx.dst) && Truthy(v) == b
    case Leave(j, r') =>
      && Same(r, r', cx.base, cx.dst)
      && if j in l.ts then LeavesValue(code, j, r', v, true)
         else j in l.fs && LeavesValue(code, j, r', v, false)
  }

  ghost predicate ForkStopsFrom(cx: Context, p: Program, b: bool, l: Lists, r: Regs)
    requires Ready(cx.before) && Ready(p)
  {
    ForkStopsAfter(cx, p.code, b, l, Run(cx.w, cx.before, r), Run(cx.w, p, r))
  }

  ghost predicate ForkStopsAfter(cx: Context, code: Code, b: bool, l: Lists, o0: Outcome, o: Outcome) {
    match o0
    case Leave(_, _) => o == o0
    case End(r) => ForkStops(cx, code, b, l, r, Eval(cx.w, cx.x, r), o)
  }

  function Fork(open: set<int>, ks: seq<Value>, code: Code, last: int, l: Lists): Program {
    Program(ks, code, open + ListOwn(l), last)
  }

  /** Execution goes on if the value counts as `b`; the other runs are in the lists, `t` and `f`. */
  ghost predicate Forks(cx: Context, ks: seq<Value>, code: Code, last: int, b: bool, t: int, f: int, l: Lists) {
    && Ready(cx.before) && cx.before.ks <= ks && Frame(cx.before.code, code) && cx.before.last <= last <= |code|
    && (forall j :: j in cx.before.open ==> j < |cx.before.code|)
    && IsList(code, t, l.ts) && IsList(code, f, l.fs) && Distinct(l.ts + l.fs)
    && (forall j :: j in l.ts || j in l.fs ==> |cx.before.code| < j < |code|)
    && var p := Fork(cx.before.open, ks, code, last, l);
       Ready(p) && forall r :: ForkStopsFrom(cx, p, b, l, r)
  }

  /** A value that is known to count as `b`. */
  lemma ForkConst(cx: Context, ks: seq<Value>, code: Code, last: int, e: ExpDesc, l: Lists, b: bool)
    requires Meaning(cx, ks, code, last, e, l)
    requires if b then e.k.K? || e.k.KInt? || e.k.KStr? || e.k.KTrue? else e.k.KNil? || e.k.KFalse?
    requires e.k.K? ==> Truthy(Konst(ks, e.k.info))
    ensures Forks(cx, ks, code, last, b, e.t, e.f, l)
  {
    var p := Now(cx.before.open, ks, code, last, e, l);
    assert p == Fork(cx.before.open, ks, code, last, l);
    forall r ensures ForkStopsFrom(cx, p, b, l, r) { assert StopsFrom(cx, p, code, e, l, r); }
  }

  /** The lists with one more jump, at the end of the list for values that count as `!b`. */
  function Listed(l: Lists, b: bool, j: nat): Lists {
    if b then Lists(l.ts, l.fs + [j]) else Lists(l.ts + [j], l.fs)
  }

  lemma ListedDistinct(l: Lists, b: bool, j: nat)
    requires Distinct(l.ts + l.fs) && j !in l.ts && j !in l.fs
    ensures var l' := Listed(l, b, j);
            Distinct(l'.ts + l'.fs) && Elems(l'.ts) + Elems(l'.fs) == Elems(l.ts) + Elems(l.fs) + {j as int}
  {
    SplitDistinct(l.ts, l.fs);
    var l' := Listed(l, b, j);
    assert forall x :: x in l.ts ==> x !in l.fs by {
      forall x | x in l.ts ensures x !in l.fs { assert x as int in Elems(l.ts); }
    }
    JoinDistinct(if b then l.fs else l.ts, [j]);
    assert forall x :: x in l'.ts ==> x in l.ts || x == j;
    assert forall x :: x in l'.fs ==> x in l.fs || x == j;
    assert forall x :: x in l'.ts ==> x !in l'.fs;
    JoinDistinct(l'.ts, l'.fs);
    assert forall x :: x in l.ts ==> x in l'.ts by { forall x | x in l.ts ensures x in l'.ts { } }
    assert forall x :: x in l.fs ==> x in l'.fs by { forall x | x in l.fs ensures x in l'.fs { } }
    assert j in Listed(l, b, j).ts || j in Listed(l, b, j).fs;
  }

  /** The lists have been linked anew. */
  ghost predicate Linked(code: Code, code': Code, t: int, f: int, own: set<int>, l: Lists) {
    && Relinked(code, own, code') && IsList(code', t, l.ts) && IsList(code', f, l.fs)
  }

  /** A condition whose jump is taken when the value counts as `!b`. */
  lemma ForkJump(cx: Context, ks: seq<Value>, code: Code, last: int, e: ExpDesc, l: Lists, code': Code, t: int, f: int)
    requires Meaning(cx, ks, code, last, e, l) && e.k.Jump?
    requires Linked(code, code', t, f, Own(e, l), Listed(l, false, e.k.pc))
    ensures Forks(cx, ks, code', last, false, t, f, Listed(l, false, e.k.pc))
  {
    var j, l' := e.k.pc, Listed(l, false, e.k.pc);
    var p := Now(cx.before.open, ks, code, last, e, l);
    ListedDistinct(l, false, j);
    assert p.open == cx.before.open + ListOwn(l');
    var p' := Fork(cx.before.open, ks, code', last, l');
    assert p' == p.(code := code');
    RelinkedRuns(cx.w, p, code', map[]);
    forall r ensures ForkStopsFrom(cx, p', false, l', r) {
      RelinkedRuns(cx.w, p, code', r);
      assert StopsFrom(cx, p, code, e, l, r);
      LeavesOpen(cx.w, p.ks, p.code, p.open, p.last, 0, r);
      ForkJumpStops(cx, ks, code, last, e, l, code', r);
    }
    assert forall x :: x in l'.ts || x in l'.fs ==> x in l.ts || x in l.fs || x == j;
  }

  lemma ForkJumpStops(cx: Context, ks: seq<Value>, code: Code, last: int, e: ExpDesc, l: Lists, code': Code, r: Regs)
    requires Meaning(cx, ks, code, last, e, l) && e.k.Jump?
    requires var p := Now(cx.before.open, ks, code, last, e, l);
             Relinked(code, p.open, code') && StopsFrom(cx, p, code, e, l, r)
    requires Ready(Now(cx.before.open, ks, code', last, e, l))
    requires Run(cx.w, Now(cx.before.open, ks, code', last, e, l), r) == Run(cx.w,
      Now(cx.before.open, ks, code, last, e, l), r)
    ensures ForkStopsFrom(cx, Now(cx.before.open, ks, code', last, e, l), false, Listed(l, false, e.k.pc), r)
  {
    hide Frame;
    var p := Now(cx.before.open, ks, code, last, e, l);
    var o := Run(cx.w, p, r);
    LeavesOpen(cx.w, p.ks, p.code, p.open, p.last, 0, r);
    if o.Leave? && o.j > 0 { assert code'[o.j - 1] == code[o.j - 1] || !IsTest(code[o.j - 1]); }
  }

  /** The same with the comparison negated: the jump is taken when the value is false. */
  lemma ForkNegated(cx: Context, ks: seq<Value>, code: Code, last: int, e: ExpDesc, l: Lists, code': Code, t: int,
    f: int)
    requires Meaning(cx, ks, code, last, e, l) && e.k.Jump?
    requires var flipped := code[e.k.pc - 1 := Negated(code[e.k.pc - 1])];
             Linked(flipped, code', t, f, Own(e, l), Listed(l, true, e.k.pc))
    ensures Forks(cx, ks, code', last, true, t, f, Listed(l, true, e.k.pc))
  {
    var j, l' := e.k.pc, Listed(l, true, e.k.pc);
    var p := Now(cx.before.open, ks, code, last, e, l);
    var q := p.(code := code[j - 1 := Negated(code[j - 1])]);
    ListedDistinct(l, true, j);
    ListedShape(cx, q.code, Own(e, l), e, l, true, j, code', t, f);
    var p' := q.(code := code');
    assert p' == Fork(cx.before.open, ks, code', last, l');
    NegatedRuns(cx.w, p, map[]);
    RelinkedRuns(cx.w, q, code', map[]);
    NegatedTests(code, code', Own(e, l), e, l);
    hide Frame, IsList, Distinct, Ready, StopsFrom, ForkStopsFrom, SameTests, Listed, Relinked, Elems;
    forall r ensures ForkStopsFrom(cx, p', true, l', r) {
      NegatedRuns(cx.w, p, r);
      RelinkedRuns(cx.w, q, code', r);
      assert StopsFrom(cx, p, code, e, l, r);
      BeforeLeaves(cx, r);
      ForkNegatedFrom(cx, p, code, e, l, code', p', r);
    }
  }

  lemma NegatedTests(code: Code, code': Code, own: set<int>, e: ExpDesc, l: Lists)
    requires e.k.Jump? && 0 < e.k.pc < |code|
    requires (code[e.k.pc - 1].Compare2? || code[e.k.pc - 1].CompareI? || code[e.k.pc - 1].CompareK?)
    requires Relinked(code[e.k.pc - 1 := Negated(code[e.k.pc - 1])], own, code') && e.k.pc !in l.ts && e.k.pc !in l.fs
    requires forall j :: j in own ==> 0 <= j < |code| && code[j].Jmp?
    requires forall j :: j in l.ts || j in l.fs ==> 0 < j < |code|
    ensures SameTests(code, code', l) && code'[e.k.pc - 1] == Negated(code[e.k.pc - 1])
  {
  }

  lemma ForkNegatedFrom(cx: Context, p: Program, code: Code, e: ExpDesc, l: Lists, code': Code, p': Program, r: Regs)
    requires Ready(cx.before) && Ready(p) && Ready(p') && p'.code == code'
    requires e.k.Jump? && StopsFrom(cx, p, code, e, l, r) && SameTests(code, code', l) && e.k.pc !in l.ts
    requires e.k.pc !in l.fs
    requires 0 < e.k.pc < |code'| && IsTest(code'[e.k.pc - 1]) && !code'[e.k.pc - 1].TestSet?
    requires Run(cx.w, cx.before, r).Leave? ==> Run(cx.w, cx.before, r).j != e.k.pc
    requires Run(cx.w, p', r) == match Run(cx.w, p, r)
                   case End(r') => Leave(e.k.pc, r')
                   case Leave(j, r') => if j == e.k.pc then End(r') else Leave(j, r')
    ensures ForkStopsFrom(cx, p', true, Listed(l, true, e.k.pc), r)
  {
    hide Ready, Run, StopsAfter, ForkStopsAfter, SameTests;
    ForkNegatedStops(cx, p.ks, code, e, l, code', Run(cx.w, cx.before, r), Run(cx.w, p, r), Run(cx.w, p', r));
  }

  /** The tests of the jumps in the lists are still the same. */
  ghost predicate SameTests(code: Code, code': Code, l: Lists) {
    forall j :: j in l.ts || j in l.fs ==>
      0 < j < |code| && |code'| >= |code| && (IsTest(code[j - 1]) ==> code'[j - 1] == code[j - 1])
  }

  lemma ForkNegatedStops(cx: Context, ks: seq<Value>, code: Code, e: ExpDesc, l: Lists, code': Code, o0: Outcome,
    o: Outcome, o': Outcome)
    requires e.k.Jump? && StopsAfter(cx, ks, code, e, l, o0, o) && SameTests(code, code', l) && e.k.pc !in l.ts
    requires e.k.pc !in l.fs
    requires 0 < e.k.pc < |code'| && IsTest(code'[e.k.pc - 1]) && !code'[e.k.pc - 1].TestSet?
    requires o0.Leave? ==> o0.j != e.k.pc
    requires o' == match o
                   case End(r') => Leave(e.k.pc, r')
                   case Leave(j, r') => if j == e.k.pc then End(r') else Leave(j, r')
    ensures ForkStopsAfter(cx, code', true, Listed(l, true, e.k.pc), o0, o')
  {
    hide Eval;
  }

  /** A test has been appended, whose jump is taken when the value counts as `!b`. */
  ghost predicate Tests(w: World, ks: seq<Value>, code: Code, k: Kind, b: bool, i: Instr) {
    && (i.Test? || i.TestSet?)
    && forall r :: var v := Main(w, ks, code, k, r);
         && (Passes(w, ks, i, r) <==> Truthy(v) != b)
         && (Truthy(v) != b ==> if i.TestSet? then Reg(r, i.b) == v else v == Bool(!b))
  }

  /** The code and the lists after a new open jump `j` has been put into one of them. */
  ghost predicate Shape(cx: Context, code: Code, t: int, f: int, l: Lists) {
    && Frame(cx.before.code, code)
    && IsList(code, t, l.ts) && IsList(code, f, l.fs) && Distinct(l.ts + l.fs)
    && (forall j :: j in l.ts || j in l.fs ==> |cx.before.code| < j < |code|)
  }

  lemma ListedShape(cx: Context, code: Code, own: set<int>, e: ExpDesc, l: Lists, b: bool, j: nat, code': Code, t: int,
    f: int)
    requires Frame(cx.before.code, code) && Distinct(l.ts + l.fs) && j !in l.ts && j !in l.fs
    requires forall x :: x in l.ts || x in l.fs ==> |cx.before.code| < x < |code|
    requires |cx.before.code| < j < |code| && own == Elems(l.ts) + Elems(l.fs) + {j as int}
    requires Linked(code, code', t, f, own, Listed(l, b, j))
    ensures Shape(cx, code', t, f, Listed(l, b, j))
  {
    var l' := Listed(l, b, j);
    ListedDistinct(l, b, j);
    assert forall x :: x in l'.ts || x in l'.fs ==> x in l.ts || x in l.fs || x == j;
    hide IsList, Distinct;
    forall i | 0 <= i < |cx.before.code|
      ensures code'[i] == cx.before.code[i] || (cx.before.code[i].LoadNil? && code'[i].LoadNil?)
    {
      assert i !in own;
    }
  }

  lemma ForkTest(cx: Context, ks: seq<Value>, code: Code, last: int, e: ExpDesc, l: Lists, b: bool, i: Instr,
                 code': Code, t: int, f: int)
    requires Meaning(cx, ks, code, last, e, l) && !e.k.Jump? && Tests(cx.w, ks, code, e.k, b, i)
    requires var body := Body(code, e.k);
             Linked(body + [i, Jmp(NO_JUMP)], code', t, f, Own(e, l) + {|body| + 1}, Listed(l, b, |body| + 1))
    ensures Forks(cx, ks, code', last, b, t, f, Listed(l, b, |Body(code, e.k)| + 1))
  {
    var body := Body(code, e.k);
    var j := |body| + 1;
    var p, l' := Now(cx.before.open, ks, code, last, e, l), Listed(l, b, j);
    ListedDistinct(l, b, j);
    ListedShape(cx, body + [i, Jmp(NO_JUMP)], Own(e, l) + {j}, e, l, b, j, code', t, f);
    AppendTest(cx.w, p, i, map[]);
    var q := Tested(p, i);
    assert q.open == cx.before.open + ListOwn(l');
    var p' := Fork(cx.before.open, ks, code', last, l');
    assert p' == q.(code := code');
    RelinkedRuns(cx.w, q, code', map[]);
    hide Frame, IsList, Distinct, KindOk, ListsOk, Ready, Elems, Tests;
    forall r ensures ForkStopsFrom(cx, p', b, l', r) {
      AppendTest(cx.w, p, i, r);
      RelinkedRuns(cx.w, q, code', r);
      ForkTestStops(cx, ks, code, last, e, l, b, i, code', r);
    }
  }

  lemma ForkTestStops(cx: Context, ks: seq<Value>, code: Code, last: int, e: ExpDesc, l: Lists, b: bool, i: Instr,
                      code': Code, r: Regs)
    requires Meaning(cx, ks, code, last, e, l) && !e.k.Jump? && Tests(cx.w, ks, code, e.k, b, i)
    requires var body := Body(code, e.k);
             Relinked(body + [i, Jmp(NO_JUMP)], Opened(cx.before.open, e, l) + {|body| + 1}, code')
    requires var p' := Tested(Now(cx.before.open, ks, code, last, e, l), i).(code := code');
      && Ready(p')
      && Run(cx.w, p', r) ==
           match Run(cx.w, Now(cx.before.open, ks, code, last, e, l), r)
           case End(r') => if Passes(cx.w, ks, i, r') then Leave(|Body(code, e.k)| + 1, r') else End(r')
           case Leave(j, r') => Leave(j, r')
    ensures ForkStopsFrom(cx, Tested(Now(cx.before.open, ks, code, last, e, l), i).(code := code'), b,
                          Listed(l, b, |Body(code, e.k)| + 1), r)
  {
    hide Frame, IsList, Distinct, Exec, Eval, Main, InstrOk, Konsts, Compared, Run, Passes;
    var p := Now(cx.before.open, ks, code, last, e, l);
    assert StopsFrom(cx, p, code, e, l, r);
    var o := Run(cx.w, p, r);
    LeavesOpen(cx.w, p.ks, p.code, p.open, p.last, 0, r);
    BeforeLeaves(cx, r);
    var longer := p.code + [i, Jmp(NO_JUMP)];
    if o.Leave? && o.j > 0 { assert code'[o.j - 1] == longer[o.j - 1] || !IsTest(longer[o.j - 1]); }
    assert code'[|p.code|] == longer[|p.code|];
  }

  /** The runs where the value counts as `b` are led here, too; their tests need not keep it. */
  function Through(code: Code, b: bool, l: Lists): Code {
    Patched(code, Elems(if b then l.ts else l.fs), |code|, NO_REG, |code|)
  }

  function Others(b: bool, l: Lists): Lists { if b then Lists([], l.fs) else Lists(l.ts, []) }

  lemma GoesThrough(cx: Context, ks: seq<Value>, code: Code, last: int, b: bool, t: int, f: int, l: Lists)
    requires Forks(cx, ks, code, last, b, t, f, l)
    ensures Forks(cx, ks, Through(code, b, l), |code|, b, if b then NO_JUMP else t, if b then f else NO_JUMP,
      Others(b, l))
  {
    var p, l' := Fork(cx.before.open, ks, code, last, l), Others(b, l);
    var s := Elems(if b then l.ts else l.fs);
    SplitDistinct(l.ts, l.fs);
    var code' := Through(code, b, l);
    var p' := Fork(cx.before.open, ks, code', |code|, l');
    assert p.open - s == p'.open;
    assert p' == PatchedHere(p, s, NO_REG);
    PatchedReady(p, s, NO_REG);
    ThroughKeeps(cx, p, b, l);
    forall r ensures ForkStopsFrom(cx, p', b, l', r) {
      PatchedRuns(cx.w, p, s, NO_REG, r);
      assert ForkStopsFrom(cx, p, b, l, r);
      LeavesOpen(cx.w, cx.before.ks, cx.before.code, cx.before.open, cx.before.last, 0, r);
    }
  }

  /** Patching one list changes neither the other nor earlier code. */
  lemma ThroughKeeps(cx: Context, p: Program, b: bool, l: Lists)
    requires Ready(p) && Distinct(l.ts + l.fs) && Elems(l.ts) + Elems(l.fs) <= p.open
    requires forall j :: j in l.ts || j in l.fs ==> |cx.before.code| < j < |p.code|
    requires Frame(cx.before.code, p.code)
    ensures var code' := Through(p.code, b, l);
            var other := if b then l.fs else l.ts;
            && Frame(cx.before.code, code')
            && (forall j :: j in other ==>
                  code'[j] == p.code[j] && (IsTest(p.code[j - 1]) ==> code'[j - 1] == p.code[j - 1]))
            && forall h :: IsList(p.code, h, other) ==> IsList(code', h, other)
  {
    var s, other := if b then l.ts else l.fs, if b then l.fs else l.ts;
    var code' := Through(p.code, b, l);
    SplitDistinct(l.ts, l.fs);
    forall j | j in other
      ensures code'[j] == p.code[j] && (IsTest(p.code[j - 1]) ==> code'[j - 1] == p.code[j - 1])
    {
      assert j as int in Elems(other) && p.code[j].Jmp?;
      if j - 1 in Elems(s) { assert p.code[j - 1].Jmp?; }
    }
    forall h | IsList(p.code, h, other) ensures IsList(code', h, other) { ListStays(p.code, code', h, other); }
  }

  // ----- `and` and `or` -----

  /** The runs that skip the second operand join the list of that operand's runs with the same outcome. */
  function Joined(b: bool, l1: Lists, l2: Lists): Lists {
    if b then Lists(l2.ts, l2.fs + l1.fs) else Lists(l2.ts + l1.ts, l2.fs)
  }

  function Second(cx: Context, ks: seq<Value>, code: Code, last: int, x: Exp, l: Lists): Context {
    Context(cx.w, Fork(cx.before.open, ks, code, last, l), x, cx.base, -1)
  }

  lemma JoinedDistinct(n: nat, b: bool, l1: Lists, l2: Lists)
    requires Distinct(l1.ts + l1.fs) && Distinct(l2.ts + l2.fs)
    requires forall j :: j in l1.ts || j in l1.fs ==> j < n
    requires forall j :: j in l2.ts || j in l2.fs ==> n < j
    requires if b then l1.ts == [] else l1.fs == []
    ensures var l := Joined(b, l1, l2);
            Distinct(l.ts + l.fs) && ListOwn(l) == ListOwn(l1) + ListOwn(l2)
    ensures forall j :: j in Joined(b, l1, l2).ts <==> j in l2.ts || j in l1.ts
    ensures forall j :: j in Joined(b, l1, l2).fs <==> j in l2.fs || j in l1.fs
  {
    var l := Joined(b, l1, l2);
    SplitDistinct(l1.ts, l1.fs);
    SplitDistinct(l2.ts, l2.fs);
    JoinDistinct(if b then l2.fs else l2.ts, if b then l1.fs else l1.ts);
    assert forall j :: j in l.ts <==> j in l2.ts || j in l1.ts;
    assert forall j :: j in l.fs <==> j in l2.fs || j in l1.fs;
    assert forall x :: x in l2.ts ==> x !in l2.fs by {
      forall x | x in l2.ts ensures x !in l2.fs { assert x as int in Elems(l2.ts); }
    }
    JoinDistinct(l.ts, l.fs);
  }

  lemma CombineStops(cx: Context, a: Exp, bx: Exp, b: bool, ks1: seq<Value>, code1: Code, last1: int, l1: Lists,
                     ks: seq<Value>, code: Code, last: int, e: ExpDesc, l: Lists, n: nat, r: Regs)
    requires cx.x == (if b then And(a, bx) else Or(a, bx)) && cx.dst == -1 && Closed(bx, n) && n <= cx.base
    requires Ready(cx.before) && Ready(Fork(cx.before.open, ks1, code1, last1, l1))
    requires ForkStopsFrom(cx.(x := a), Fork(cx.before.open, ks1, code1, last1, l1), b, l1, r)
    requires if b then l1.ts == [] else l1.fs == []
    requires var p := Now(cx.before.open + ListOwn(l1), ks, code, last, e, l);
             Ready(p) && StopsFrom(Second(cx, ks1, code1, last1, bx, l1), p, code, e, l, r)
    requires forall j :: j in l1.ts || j in l1.fs ==> 0 < j < |code1| && code1[j].Jmp? && (e.k.Jump? ==> j != e.k.pc)
    requires Frame(code1, code)
    requires forall j :: j in l.ts || j in l.fs ==> |code1| < j
    ensures StopsFrom(cx, Now(cx.before.open + ListOwn(l1), ks, code, last, e, l), code, e, Joined(b, l1, l), r)
  {
    var p1 := Fork(cx.before.open, ks1, code1, last1, l1);
    var o0, o1 := Run(cx.w, cx.before, r), Run(cx.w, p1, r);
    var l' := Joined(b, l1, l);
    assert forall j :: j in l'.ts <==> j in l.ts || j in l1.ts;
    assert forall j :: j in l'.fs <==> j in l.fs || j in l1.fs;
    LeavesOpen(cx.w, cx.before.ks, cx.before.code, cx.before.open, cx.before.last, 0, r);
    if o0.End? {
      match o1 {
        case Leave(j, r') =>
          if IsTest(code1[j - 1]) { assert code[j - 1] == code1[j - 1]; }
        case End(r') =>
          EvalSame(cx.w, bx, o0.r, r', n);
      }
    }
  }

  lemma Combine(cx: Context, a: Exp, bx: Exp, b: bool, ks1: seq<Value>, code1: Code, last1: int, t1: int, f1: int,
                l1: Lists, ks: seq<Value>, code: Code, last: int, e: ExpDesc, l: Lists, n: nat, code': Code, t: int,
                  f: int)
    requires cx.x == (if b then And(a, bx) else Or(a, bx)) && cx.dst == -1 && Closed(bx, n) && n <= cx.base
    requires Forks(cx.(x := a), ks1, code1, last1, b, t1, f1, l1) && if b then l1.ts == [] else l1.fs == []
    requires Meaning(Second(cx, ks1, code1, last1, bx, l1), ks, code, last, e, l)
    requires Linked(code, code', t, f, ListOwn(l), Joined(b, l1, l))
    ensures Meaning(cx, ks, code', last, ExpDesc(e.k, t, f), Joined(b, l1, l))
  {
    hide StopsFrom, ForkStopsFrom, Exec, Eval, IsList, Distinct, Elems;
    var l', e' := Joined(b, l1, l), ExpDesc(e.k, t, f);
    JoinedDistinct(|code1|, b, l1, l);
    ListElems(code1, if b then f1 else t1, if b then l1.fs else l1.ts);
    ListElems(code, e.t, l.ts);
    ListElems(code, e.f, l.fs);
    CombineShape(cx, code1, l1, code, e, l, b, code', last, ks, l');
    var open := cx.before.open + ListOwn(l1);
    var p := Now(open, ks, code, last, e, l);
    assert p.open == cx.before.open + Own(e', l');
    RelinkedRuns(cx.w, p, Body(code', e.k), map[]);
    forall r ensures StopsFrom(cx, p.(code := Body(code', e.k)), code', e', l', r) {
      CombineRuns(cx, a, bx, b, ks1, code1, last1, t1, f1, l1, ks, code, last, e, l, n, code', e', r);
    }
  }

  lemma CombineRuns(cx: Context, a: Exp, bx: Exp, b: bool, ks1: seq<Value>, code1: Code, last1: int, t1: int, f1: int,
                    l1: Lists, ks: seq<Value>, code: Code, last: int, e: ExpDesc, l: Lists, n: nat, code': Code,
                      e': ExpDesc, r: Regs)
    requires cx.x == (if b then And(a, bx) else Or(a, bx)) && cx.dst == -1 && Closed(bx, n) && n <= cx.base
    requires Forks(cx.(x := a), ks1, code1, last1, b, t1, f1, l1) && if b then l1.ts == [] else l1.fs == []
    requires Meaning(Second(cx, ks1, code1, last1, bx, l1), ks, code, last, e, l)
    requires e'.k == e.k && Relinked(Body(code, e.k), ListOwn(l), Body(code', e.k))
    requires e.k.Reloc? ==> e.k.pc < |code| && e.k.pc < |code'| && code'[e.k.pc] == code[e.k.pc]
    requires forall j :: j in l1.ts || j in l1.fs ==> j < |code1| && code1[j].Jmp?
    ensures var p := Now(cx.before.open + ListOwn(l1), ks, code, last, e, l);
            && Ready(p.(code := Body(code', e.k)))
            && StopsFrom(cx, p.(code := Body(code', e.k)), code', e', Joined(b, l1, l), r)
  {
    var p := Now(cx.before.open + ListOwn(l1), ks, code, last, e, l);
    RelinkedRuns(cx.w, p, Body(code', e.k), r);
    assert ForkStopsFrom(cx.(x := a), Fork(cx.before.open, ks1, code1, last1, l1), b, l1, r);
    assert StopsFrom(Second(cx, ks1, code1, last1, bx, l1), p, code, e, l, r);
    hide IsList, Distinct, Frame;
    CombineStops(cx, a, bx, b, ks1, code1, last1, l1, ks, code, last, e, l, n, r);
    RelinkedStops(cx, p, code, e, Joined(b, l1, l), code', e', r);
  }

  /** What linking the lists anew leaves alone. */
  lemma CombineShape(cx: Context, code1: Code, l1: Lists, code: Code, e: ExpDesc, l: Lists, b: bool, code': Code,
    last: int,
                     ks: seq<Value>, l': Lists)
    requires Frame(cx.before.code, code1) && Frame(code1, code) && Relinked(code, ListOwn(l), code')
    requires forall j :: j in l.ts || j in l.fs ==> |code1| < j < |Body(code, e.k)|
    requires e.k.Jump? ==>
      |code1| < e.k.pc && e.k.pc + 1 == |code| && code[e.k.pc].Jmp? && e.k.pc !in l.ts && e.k.pc !in l.fs
    requires e.k.Reloc? ==> |code1| <= e.k.pc && e.k.pc + 1 == |code|
    requires forall j :: j in l.ts || j in l.fs ==> j < |code| && code[j].Jmp?
    ensures Frame(cx.before.code, code') && Relinked(Body(code, e.k), ListOwn(l), Body(code', e.k))
    ensures e.k.Reloc? ==> code'[e.k.pc] == code[e.k.pc]
    ensures e.k.Jump? ==>
      code'[e.k.pc] == code[e.k.pc] && (IsTest(code[e.k.pc - 1]) ==> code'[e.k.pc - 1] == code[e.k.pc - 1])
  {
  }

  lemma RelinkedStops(cx: Context, p: Program, code: Code, e: ExpDesc, l: Lists, code': Code, e': ExpDesc, r: Regs)
    requires Ready(cx.before) && Ready(p) && StopsFrom(cx, p, code, e, l, r) && p.code == Body(code, e.k)
    requires e'.k == e.k && Relinked(Body(code, e.k), p.open, Body(code', e.k))
    requires e.k.Reloc? ==> e.k.pc < |code| && e.k.pc < |code'| && code'[e.k.pc] == code[e.k.pc]
    requires var p' := p.(code := Body(code', e.k)); Ready(p') && Run(cx.w, p', r) == Run(cx.w, p, r)
    ensures StopsFrom(cx, p.(code := Body(code', e.k)), code', e', l, r)
  {
    LeavesOpen(cx.w, p.ks, p.code, p.open, p.last, 0, r);
    var o := Run(cx.w, p, r);
    if o.Leave? && o.j > 0 {
      assert Body(code', e.k)[o.j - 1] == Body(code, e.k)[o.j - 1] || !IsTest(Body(code, e.k)[o.j - 1]);
    }
  }

  // ----- `not` -----

  function Swapped(l: Lists): Lists { Lists(l.fs, l.ts) }

  /** The main value is the negation of what it was. */
  ghost predicate Negates(w: World, ks: seq<Value>, code: Code, k: Kind, code': Code, k': Kind) {
    && Body(code', k') == Body(code, k) && !k.Jump? && !k'.Jump? && !k'.K? && !k.Reloc?
    && (k'.Reloc? ==> k'.pc + 1 == |code'| && code'[k'.pc].Not?)
    && forall r :: Main(w, ks, code', k', r) == Bool(!Truthy(Main(w, ks, code, k, r)))
  }

  lemma SwappedShape(cx: Context, code: Code, t: int, f: int, l: Lists)
    requires Shape(cx, code, t, f, l)
    ensures Shape(cx, Untested(code, ListOwn(l)), f, t, Swapped(l)) && ListOwn(Swapped(l)) == ListOwn(l)
  {
    SplitDistinct(l.ts, l.fs);
    ListElems(code, t, l.ts);
    ListElems(code, f, l.fs);
    var code' := Untested(code, ListOwn(l));
    forall j | j in l.ts || j in l.fs ensures code'[j] == code[j] { assert !code[j].TestSet?; }
    ListStays(code, code', t, l.ts);
    ListStays(code, code', f, l.fs);
  }

  lemma NotStops(cx: Context, x: Exp, ks: seq<Value>, code: Code, last: int, e: ExpDesc, l: Lists,
                 code1: Code, k': Kind, r: Regs)
    requires cx.x == Negation(x) && Meaning(cx.(x := x), ks, code, last, e, l)
    requires Negates(cx.w, ks, code, e.k, code1, k')
    ensures var p := Now(cx.before.open, ks, code, last, e, l);
            var p' := p.(code := Untested(p.code, ListOwn(l)));
            Ready(p') && StopsFrom(cx, p', Untested(code1, ListOwn(l)), ExpDesc(k', e.f, e.t), Swapped(l), r)
  {
    var p := Now(cx.before.open, ks, code, last, e, l);
    UntestedRuns(cx.w, p, ListOwn(l), r);
    assert StopsFrom(cx.(x := x), p, code, e, l, r);
    LeavesOpen(cx.w, p.ks, p.code, p.open, p.last, 0, r);
    var code' := Untested(code1, ListOwn(l));
    var o := Run(cx.w, p, r);
    assert forall i :: 0 <= i < |code| ==> code1[i] == code[i];
    SplitDistinct(l.ts, l.fs);
    assert forall j :: j in l.ts ==> j !in l.fs by {
      forall j | j in l.ts ensures j !in l.fs { assert j as int in Elems(l.ts); }
    }
    hide Frame, IsList, Distinct, Untested;
    if k'.Reloc? { assert code'[k'.pc] == code1[k'.pc]; }
    LeavesOpen(cx.w, cx.before.ks, cx.before.code, cx.before.open, cx.before.last, 0, r);
    if Run(cx.w, cx.before, r).End? && o.Leave? {
      var v := Eval(cx.w, x, Run(cx.w, cx.before, r).r);
      assert o.j in ListOwn(l);
      NotLeaves(code, code1, ListOwn(l), o.j, o.r, v, o.j in l.ts);
    }
  }

  lemma NotLeaves(code: Code, code1: Code, s: set<int>, j: int, r: Regs, v: Value, b: bool)
    requires LeavesValue(code, j, r, v, b) && j in s && |code| <= |code1| && code1[j - 1] == code[j - 1]
    ensures LeavesValue(Untested(code1, s), j, r, Bool(!Truthy(v)), !b)
  {
  }

  lemma NotMeans(cx: Context, x: Exp, ks: seq<Value>, code: Code, last: int, e: ExpDesc, l: Lists, code1: Code,
    k': Kind)
    requires cx.x == Negation(x) && Meaning(cx.(x := x), ks, code, last, e, l)
    requires Negates(cx.w, ks, code, e.k, code1, k')
    ensures Meaning(cx, ks, Untested(code1, ListOwn(l)), last, ExpDesc(k', e.f, e.t), Swapped(l))
  {
    hide StopsFrom, IsList, Distinct, Untested, Exec, Eval;
    var p := Now(cx.before.open, ks, code, last, e, l);
    var code', e', l' := Untested(code1, ListOwn(l)), ExpDesc(k', e.f, e.t), Swapped(l);
    assert Shape(cx, code1, e.t, e.f, l) by {
      assert forall j :: 0 <= j < |code| ==> code1[j] == code[j];
      ListElems(code, e.t, l.ts);
      ListElems(code, e.f, l.fs);
      ListStays(code, code1, e.t, l.ts);
      ListStays(code, code1, e.f, l.fs);
    }
    SwappedShape(cx, code1, e.t, e.f, l);
    var p' := p.(code := Untested(p.code, ListOwn(l)));
    assert Body(code', k') == p'.code;
    assert Now(cx.before.open, ks, code', last, e', l') == p';
    UntestedRuns(cx.w, p, ListOwn(l), map[]);
    forall r ensures StopsFrom(cx, p', code', e', l', r) {
      NotStops(cx, x, ks, code, last, e, l, code1, k', r);
    }
  }

  lemma NotJumpMeans(cx: Context, x: Exp, ks: seq<Value>, code: Code, last: int, e: ExpDesc, l: Lists)
    requires cx.x == Negation(x) && Meaning(cx.(x := x), ks, code, last, e, l) && e.k.Jump?
    ensures var code1 := code[e.k.pc - 1 := Negated(code[e.k.pc - 1])];
            Meaning(cx, ks, Untested(code1, ListOwn(l)), last, ExpDesc(e.k, e.f, e.t), Swapped(l))
  {
    hide StopsFrom, Exec, Eval, IsList, Distinct, Untested, Ready;
    var p := Now(cx.before.open, ks, code, last, e, l);
    var code1 := code[e.k.pc - 1 := Negated(code[e.k.pc - 1])];
    var code', e', l' := Untested(code1, ListOwn(l)), ExpDesc(e.k, e.f, e.t), Swapped(l);
    ListElems(code, e.t, l.ts);
    ListElems(code, e.f, l.fs);
    ListStays(code, code1, e.t, l.ts);
    ListStays(code, code1, e.f, l.fs);
    SwappedShape(cx, code1, e.t, e.f, l);
    SplitDistinct(l.ts, l.fs);
    assert forall j :: j in l.ts ==> j !in l.fs by {
      forall j | j in l.ts ensures j !in l.fs { assert j as int in Elems(l.ts); }
    }
    assert Now(cx.before.open, ks, code', last, e', l') == p.(code := code');
    NotJumpFrom(cx, x, ks, code, last, e, l, map[]);
    forall r ensures StopsFrom(cx, p.(code := code'), code', e', l', r) {
      NotJumpFrom(cx, x, ks, code, last, e, l, r);
    }
  }

  lemma NotJumpAfter(cx: Context, x: Exp, ks: seq<Value>, code: Code, code1: Code, e: ExpDesc, l: Lists,
                     o0: Outcome, o: Outcome, o': Outcome)
    requires cx.x == Negation(x) && e.k.Jump? && StopsAfter(cx.(x := x), ks, code, e, l, o0, o)
    requires |code1| == |code|
    requires forall j :: j in l.ts || j in l.fs ==> 0 < j < |code| && code1[j - 1] == code[j - 1]
    requires (forall j :: j in l.ts ==> j !in l.fs) && e.k.pc !in l.ts && e.k.pc !in l.fs
    requires (o0.Leave? ==> o0.j != e.k.pc)
    requires o' == match o
                   case End(r') => Leave(e.k.pc, r')
                   case Leave(j, r') => if j == e.k.pc then End(r') else Leave(j, r')
    ensures StopsAfter(cx, ks, Untested(code1, ListOwn(l)), ExpDesc(e.k, e.f, e.t), Swapped(l), o0, o')
  {
    if o0.End? && o.Leave? && o.j != e.k.pc {
      assert o.j in l.ts || o.j in l.fs;
      assert o.j in ListOwn(l);
      NotLeaves(code, code1, ListOwn(l), o.j, o.r, Eval(cx.w, x, o0.r), o.j in l.ts);
    }
  }

  lemma NotJumpFrom(cx: Context, x: Exp, ks: seq<Value>, code: Code, last: int, e: ExpDesc, l: Lists, r: Regs)
    requires cx.x == Negation(x) && Meaning(cx.(x := x), ks, code, last, e, l) && e.k.Jump?
    requires forall j :: j in l.ts || j in l.fs ==> 0 < j < |code| && code[j].Jmp?
    requires forall j :: j in l.ts ==> j !in l.fs
    ensures var code' := Untested(code[e.k.pc - 1 := Negated(code[e.k.pc - 1])], ListOwn(l));
            var p' := Now(cx.before.open, ks, code, last, e, l).(code := code');
            Ready(p') && StopsFrom(cx, p', code', ExpDesc(e.k, e.f, e.t), Swapped(l), r)
  {
    hide Frame, IsList, Distinct, Untested, StopsAfter, Elems, Exec;
    var p := Now(cx.before.open, ks, code, last, e, l);
    var code1 := code[e.k.pc - 1 := Negated(code[e.k.pc - 1])];
    var q := p.(code := code1);
    NegatedRuns(cx.w, p, r);
    UntestedRuns(cx.w, q, ListOwn(l), r);
    assert StopsFrom(cx.(x := x), p, code, e, l, r);
    BeforeLeaves(cx, r);
    var p' := q.(code := Untested(code1, ListOwn(l)));
    NotJumpAfter(cx, x, ks, code, code1, e, l, Run(cx.w, cx.before, r), Run(cx.w, p, r), Run(cx.w, p', r));
  }

  // ----- the value in a register -----

  /** A condition that is a jump is one more way to be true; falling through, it is false. */
  lemma JumpAsFalse(cx: Context, ks: seq<Value>, code: Code, last: int, e: ExpDesc, l: Lists, code': Code, t: int,
    f: int)
    requires Meaning(cx, ks, code, last, e, l) && e.k.Jump?
    requires Linked(code, code', t, f, Own(e, l), Listed(l, false, e.k.pc))
    ensures Meaning(cx, ks, code', last, ExpDesc(KFalse, t, f), Listed(l, false, e.k.pc))
  {
    var e', l' := ExpDesc(KFalse, t, f), Listed(l, false, e.k.pc);
    var p := Now(cx.before.open, ks, code, last, e, l);
    ListedDistinct(l, false, e.k.pc);
    ListedShape(cx, code, Own(e, l), e, l, false, e.k.pc, code', t, f);
    assert p.open == cx.before.open + Own(e', l');
    assert p.(code := code') == Now(cx.before.open, ks, code', last, e', l');
    RelinkedRuns(cx.w, p, code', map[]);
    hide IsList, Distinct, Frame;
    forall r ensures StopsFrom(cx, p.(code := code'), code', e', l', r) {
      RelinkedRuns(cx.w, p, code', r);
      assert StopsFrom(cx, p, code, e, l, r);
      LeavesOpen(cx.w, p.ks, p.code, p.open, p.last, 0, r);
      JumpAsFalseStops(cx, ks, code, last, e, l, code', t, f, r);
    }
  }

  lemma JumpAsFalseStops(cx: Context, ks: seq<Value>, code: Code, last: int, e: ExpDesc, l: Lists, code': Code, t: int,
    f: int,
                         r: Regs)
    requires Meaning(cx, ks, code, last, e, l) && e.k.Jump? && Relinked(code, Own(e, l), code')
    requires var p := Now(cx.before.open, ks, code, last, e, l);
             Ready(p.(code := code')) && Run(cx.w, p.(code := code'), r) == Run(cx.w, p, r)
    ensures StopsFrom(cx, Now(cx.before.open, ks, code, last, e, l).(code := code'), code', ExpDesc(KFalse, t, f),
                      Listed(l, false, e.k.pc), r)
  {
    var p := Now(cx.before.open, ks, code, last, e, l);
    assert StopsFrom(cx, p, code, e, l, r);
    hide Frame, IsList;
    var o := Run(cx.w, p, r);
    LeavesOpen(cx.w, p.ks, p.code, p.open, p.last, 0, r);
    if o.Leave? && o.j > 0 { assert code'[o.j - 1] == code[o.j - 1] || !IsTest(code[o.j - 1]); }
  }

  /** `need_value`: some jump of the list does not leave its value in a register. */
  predicate NeedsValue(code: Code, s: seq<nat>) {
    exists j :: j in s && !(0 < j <= |code| && code[j - 1].TestSet?)
  }

  /** The end of an expression: both booleans, which a value that is there already jumps over. */
  function Booleans(skip: bool, reg: nat): Code {
    (if skip then [Jmp(2)] else []) + [LFalseSkip(reg), LoadTrue(reg)]
  }

  /** All jumps patched: those that keep a value go to the end, the others to one of the booleans. */
  function Finished(code: Code, l: Lists, reg: nat, final: int, pf: int, pt: int): Code {
    Patched(Patched(code, Elems(l.fs), final, reg, pf), Elems(l.ts), final, reg, pt)
  }

  lemma FinishedAt(code: Code, l: Lists, reg: nat, final: int, pf: int, pt: int, i: nat)
    requires i < |code| && Distinct(l.ts + l.fs)
    requires forall j :: j in l.ts || j in l.fs ==> 0 < j < |code| && code[j].Jmp?
    ensures var code' := Finished(code, l, reg, final, pf, pt);
      && |code'| == |code|
      && code'[i] ==
           if i in l.ts then JumpTo(i, if code[i - 1].TestSet? then final else pt)
           else if i in l.fs then JumpTo(i, if code[i - 1].TestSet? then final else pf)
           else if i + 1 in l.ts || i + 1 in l.fs then PatchedTest(code[i], reg)
           else code[i]
  {
    SplitDistinct(l.ts, l.fs);
    assert forall j: nat :: (j in l.ts <==> j as int in Elems(l.ts)) && (j in l.fs <==> j as int in Elems(l.fs));
    assert forall j :: j in l.ts ==> j !in l.fs by {
      forall j | j in l.ts ensures j !in l.fs { assert j as int in Elems(l.ts); }
    }
  }

  /** The finished program. */
  function Close(p: Program, l: Lists, skip: bool, reg: nat): Program {
    var n := |p.code| + if skip then 1 else 0;
    Program(p.ks, Finished(p.code + Booleans(skip, reg), l, reg, n + 2, n, n + 1), p.open - ListOwn(l), n + 2)
  }

  lemma CloseReady(p: Program, l: Lists, skip: bool, reg: nat)
    requires Ready(p) && Distinct(l.ts + l.fs) && ListOwn(l) <= p.open && p.last <= |p.code|
    requires forall j :: j in l.ts || j in l.fs ==> 0 < j
    ensures Ready(Close(p, l, skip, reg)) && Grows(p, Close(p, l, skip, reg))
    ensures var p' := Close(p, l, skip, reg);
            var n := |p.code|;
            && |p'.code| == n + |Booleans(skip, reg)| && p'.code[n..] == Booleans(skip, reg)
  {
    var p', code := Close(p, l, skip, reg), p.code + Booleans(skip, reg);
    var n := |p.code| + if skip then 1 else 0;
    forall j | j in l.ts || j in l.fs ensures 0 < j < |p.code| && p.code[j].Jmp? { assert j as int in ListOwn(l); }
    forall i | 0 <= i < |code|
      ensures InstrOk(p'.code, p'.open, p'.last, i) && (i < |p.code| ==> InstrExtends(p.code, p.open, p'.code, i))
    {
      FinishedAt(code, l, reg, n + 2, n, n + 1, i);
      if i + 1 < |code| { FinishedAt(code, l, reg, n + 2, n, n + 1, i + 1); }
      CloseInstr(p, l, skip, reg, i);
    }
    forall i | |p.code| <= i < |code| ensures p'.code[i] == Booleans(skip, reg)[i - |p.code|] {
      FinishedAt(code, l, reg, n + 2, n, n + 1, i);
    }
    assert p'.code[|p.code|..] == Booleans(skip, reg);
    FinishedKonsts(p, l, skip, reg);
  }

  lemma FinishedKonsts(p: Program, l: Lists, skip: bool, reg: nat)
    requires Ready(p) && Distinct(l.ts + l.fs)
    requires forall j :: j in l.ts || j in l.fs ==> 0 < j < |p.code| && p.code[j].Jmp?
    ensures Konsts(Close(p, l, skip, reg).code, |p.ks|)
  {
    var p', code := Close(p, l, skip, reg), p.code + Booleans(skip, reg);
    var n := |p.code| + if skip then 1 else 0;
    forall i | 0 <= i < |code| && (p'.code[i].LoadK? || p'.code[i].CompareK? || p'.code[i].ExtraArg?)
      ensures p'.code[i].kx < |p.ks|
    {
      FinishedAt(code, l, reg, n + 2, n, n + 1, i);
    }
  }

  /** Each instruction of the finished program: patched jumps and tests, and the rest as it was. */
  ghost predicate CloseAt(p: Program, l: Lists, skip: bool, reg: nat, i: nat, i': Instr) {
    var n := |p.code| + if skip then 1 else 0;
    if i < |p.code| then
      if i in l.ts then 0 < i && i' == JumpTo(i, if p.code[i - 1].TestSet? then n + 2 else n + 1)
      else if i in l.fs then 0 < i && i' == JumpTo(i, if p.code[i - 1].TestSet? then n + 2 else n)
      else if i + 1 in l.ts || i + 1 in l.fs then i' == PatchedTest(p.code[i], reg)
      else i' == p.code[i]
    else i - |p.code| < |Booleans(skip, reg)| && i' == Booleans(skip, reg)[i - |p.code|]
  }

  lemma CloseCode(p: Program, l: Lists, skip: bool, reg: nat)
    requires Distinct(l.ts + l.fs) && forall j :: j in l.ts || j in l.fs ==> 0 < j < |p.code| && p.code[j].Jmp?
    ensures var code' := Close(p, l, skip, reg).code;
            && |code'| == |p.code| + |Booleans(skip, reg)|
            && forall i :: 0 <= i < |code'| ==> CloseAt(p, l, skip, reg, i, code'[i])
  {
    var code', code := Close(p, l, skip, reg).code, p.code + Booleans(skip, reg);
    var n := |p.code| + if skip then 1 else 0;
    forall i | 0 <= i < |code| ensures CloseAt(p, l, skip, reg, i, code'[i]) {
      FinishedAt(code, l, reg, n + 2, n, n + 1, i);
    }
  }

  /** Jumps stay jumps and tests stay tests; the places jumped to are no part of a test. */
  predicate SameShape(i: Instr, i': Instr) { (IsTest(i') <==> IsTest(i)) && (i'.Jmp? <==> i.Jmp?) }

  lemma CloseKinds(p: Program, l: Lists, skip: bool, reg: nat)
    requires Ready(p) && Distinct(l.ts + l.fs)
    requires forall j :: j in l.ts || j in l.fs ==> 0 < j < |p.code| && p.code[j].Jmp?
    ensures var code' := Close(p, l, skip, reg).code;
            var n := |p.code| + if skip then 1 else 0;
            && |code'| == n + 2 && Entry(code', n) && Entry(code', n + 1) && Entry(code', n + 2)
            && forall k :: 0 <= k < |p.code| ==> SameShape(p.code[k], code'[k])
  {
    CloseCode(p, l, skip, reg);
    if |p.code| > 0 { assert InstrOk(p.code, p.open, p.last, |p.code| - 1); }
    hide Finished, Distinct, Konsts, Formed, CloseAt;
    var code' := Close(p, l, skip, reg).code;
    forall k | 0 <= k < |p.code| ensures (IsTest(code'[k]) <==> IsTest(p.code[k])) &&
      (p.code[k].Jmp? <==> code'[k].Jmp?) {
      CloseKind(p, l, skip, reg, k, code'[k]);
    }
    forall k | |p.code| <= k < |code'| ensures !IsTest(code'[k]) { CloseTail(p, l, skip, reg, k, code'[k]); }
  }

  lemma CloseKind(p: Program, l: Lists, skip: bool, reg: nat, k: nat, i: Instr)
    requires k < |p.code| && CloseAt(p, l, skip, reg, k, i)
    requires forall j :: j in l.ts || j in l.fs ==> 0 < j < |p.code| && p.code[j].Jmp?
    ensures (IsTest(i) <==> IsTest(p.code[k])) && (p.code[k].Jmp? <==> i.Jmp?)
  {
  }

  lemma CloseTail(p: Program, l: Lists, skip: bool, reg: nat, k: nat, i: Instr)
    requires k >= |p.code| && CloseAt(p, l, skip, reg, k, i)
    ensures !IsTest(i)
  {
  }

  lemma CloseExtends(p: Program, l: Lists, skip: bool, reg: nat, i: nat)
    requires Ready(p) && Distinct(l.ts + l.fs) && ListOwn(l) <= p.open && i < |p.code|
    requires forall j :: j in l.ts || j in l.fs ==> 0 < j < |p.code| && p.code[j].Jmp?
    ensures var p' := Close(p, l, skip, reg); |p.code| <= |p'.code| && InstrExtends(p.code, p.open, p'.code, i)
  {
    CloseCode(p, l, skip, reg);
    CloseKinds(p, l, skip, reg);
    CloseExtendsAt(p, l, skip, reg, i, Close(p, l, skip, reg).code);
  }

  lemma CloseExtendsAt(p: Program, l: Lists, skip: bool, reg: nat, i: nat, code': Code)
    requires Ready(p) && ListOwn(l) <= p.open && i < |p.code| <= |code'|
    requires CloseAt(p, l, skip, reg, i, code'[i])
    ensures InstrExtends(p.code, p.open, code', i)
  {
    hide Finished, Distinct, Konsts, Booleans, ListOwn, InstrOk, Elems;
    ListOwnHas(l, i);
    ListOwnHas(l, i + 1);
  }

  lemma CloseInstr(p: Program, l: Lists, skip: bool, reg: nat, i: nat)
    requires Ready(p) && Distinct(l.ts + l.fs) && ListOwn(l) <= p.open && p.last <= |p.code|
    requires forall j :: j in l.ts || j in l.fs ==> 0 < j < |p.code| && p.code[j].Jmp?
    requires i < |p.code| + |Booleans(skip, reg)|
    ensures var p' := Close(p, l, skip, reg); i < |p'.code| && InstrOk(p'.code, p'.open, p'.last, i)
    ensures var p' := Close(p, l, skip, reg); i < |p.code| <= |p'.code| ==> InstrExtends(p.code, p.open, p'.code, i)
  {
    CloseCode(p, l, skip, reg);
    CloseKinds(p, l, skip, reg);
    if i < |p.code| {
      CloseExtends(p, l, skip, reg, i);
      assert InstrOk(p.code, p.open, p.last, i);
      CloseOld(p, l, skip, reg, i);
    }
  }

  lemma OldInstrOk(code: Code, open: set<int>, last: int, code': Code, open': set<int>, last': int, i: nat)
    requires i < |code| <= |code'| && last <= |code| && last <= last' && InstrOk(code, open, last, i)
    requires forall k :: 0 <= k < |code| ==>
      (IsTest(code'[k]) <==> IsTest(code[k])) && (code[k].Jmp? <==> code'[k].Jmp?)
    requires code[i].Jmp? && i !in open' ==>
      || (i !in open && code'[i] == code[i])
      || (i < Target(code', i) <= last' <= |code'| && Entry(code', Target(code', i)))
    requires !code[i].Jmp? ==> code'[i] == code[i] || (IsTest(code[i]) && (code'[i].Test? || code'[i].TestSet?))
    requires i + 1 < |code| && code[i + 1].ExtraArg? ==> code'[i + 1] == code[i + 1]
    ensures InstrOk(code', open', last', i)
  {
  }

  lemma ListOwnHas(l: Lists, j: nat)
    ensures j as int in ListOwn(l) <==> j in l.ts || j in l.fs
  {
  }

  lemma CloseOld(p: Program, l: Lists, skip: bool, reg: nat, i: nat)
    requires i < |p.code| && p.last <= |p.code|
    requires forall j :: j in l.ts || j in l.fs ==> 0 < j < |p.code| && p.code[j].Jmp?
    requires InstrOk(p.code, p.open, p.last, i)
    requires var code' := Close(p, l, skip, reg).code;
            var n := |p.code| + if skip then 1 else 0;
            && |code'| == n + 2 && Entry(code', n) && Entry(code', n + 1) && Entry(code', n + 2)
            && (forall k :: 0 <= k < |p.code| ==> SameShape(p.code[k], code'[k]))
            && forall k :: 0 <= k < |code'| ==> CloseAt(p, l, skip, reg, k, code'[k])
    ensures var p' := Close(p, l, skip, reg); InstrOk(p'.code, p'.open, p'.last, i)
  {
    hide Finished, Distinct, Konsts, Formed, Booleans, ListOwn, InstrOk, Elems;
    var p' := Close(p, l, skip, reg);
    var code' := p'.code;
    assert CloseAt(p, l, skip, reg, i, code'[i]);
    assert i + 1 < |p.code| ==> CloseAt(p, l, skip, reg, i + 1, code'[i + 1]);
    ListOwnHas(l, i);
    OldInstrOk(p.code, p.open, p.last, code', p'.open, p'.last, i);
  }

  lemma BooleansAt(p: Program, m: nat, skip: bool, reg: nat)
    requires m <= |p.code| && p.code[m..] == Booleans(skip, reg)
    ensures var n := m + if skip then 1 else 0;
            && n + 2 == |p.code| && p.code[n] == LFalseSkip(reg) && p.code[n + 1] == LoadTrue(reg)
            && (skip ==> p.code[m] == Jmp(2))
  {
    var tail, n := p.code[m..], m + if skip then 1 else 0;
    assert n < |p.code| && p.code[n] == tail[n - m] && p.code[n + 1] == tail[n + 1 - m] && p.code[m] == tail[0];
  }

  lemma LastTwoRun(w: World, p: Program, n: nat, reg: nat, r: Regs)
    requires Ready(p) && n + 2 == |p.code| && p.code[n] == LFalseSkip(reg) && p.code[n + 1] == LoadTrue(reg)
    requires Entry(p.code, n)
    ensures Entry(p.code, n + 1) && Entry(p.code, n + 2)
    ensures Exec(w, p.ks, p.code, p.open, p.last, n, r) == End(Put(r, reg, False))
    ensures Exec(w, p.ks, p.code, p.open, p.last, n + 1, r) == End(Put(r, reg, True))
    ensures Exec(w, p.ks, p.code, p.open, p.last, n + 2, r) == End(r)
  {
    hide Konsts, Passes;
    assert forall r' :: Exec(w, p.ks, p.code, p.open, p.last, n + 2, r') == End(r');
  }

  /** What running the booleans at the end of a program does, from each place that can be jumped to. */
  lemma BooleansRun(w: World, p: Program, m: nat, skip: bool, reg: nat, r: Regs)
    requires Ready(p) && m <= |p.code| && p.code[m..] == Booleans(skip, reg) && Entry(p.code, m)
    requires skip ==> m !in p.open
    ensures var n := m + if skip then 1 else 0;
            && Entry(p.code, n) && Entry(p.code, n + 1) && Entry(p.code, n + 2)
            && Exec(w, p.ks, p.code, p.open, p.last, n, r) == End(Put(r, reg, False))
            && Exec(w, p.ks, p.code, p.open, p.last, n + 1, r) == End(Put(r, reg, True))
            && Exec(w, p.ks, p.code, p.open, p.last, n + 2, r) == End(r)
            && Exec(w, p.ks, p.code, p.open, p.last, m, r) == End(if skip then r else Put(r, reg, False))
  {
    var n := m + if skip then 1 else 0;
    BooleansAt(p, m, skip, reg);
    hide Booleans;
    LastTwoRun(w, p, n, reg, r);
    if skip { assert InstrOk(p.code, p.open, p.last, m) && Target(p.code, m) == n + 2; }
  }

  /** A patched test leads to the end with the value in the register. */
  lemma KeptValue(code: Code, j: int, r: Regs, v: Value, b: bool, reg: nat)
    requires LeavesValue(code, j, r, v, b)
    ensures code[j - 1].TestSet? ==> Reg(Kept(PatchedTest(code[j - 1], reg), r), reg) == v
    ensures !code[j - 1].TestSet? ==> v == Bool(b) && Kept(PatchedTest(code[j - 1], reg), r) == r
    ensures forall i: nat :: i != reg ==> Reg(Kept(PatchedTest(code[j - 1], reg), r), i) == Reg(r, i)
  {
  }

  /** Where the finished program ends, given where the unfinished one stopped. */
  function Closes(p: Program, l: Lists, skip: bool, reg: nat, o: Outcome): Outcome {
    match o
    case End(r) => End(if skip then r else Put(r, reg, False))
    case Leave(j, r) =>
      if 0 < j <= |p.code| && (j in l.ts || j in l.fs) then
        var r' := Kept(PatchedTest(p.code[j - 1], reg), r);
        End(if p.code[j - 1].TestSet? then r' else Put(r', reg, Bool(j in l.ts)))
      else o
  }

  lemma CloseRuns(w: World, p: Program, l: Lists, skip: bool, reg: nat, r: Regs)
    requires Ready(p) && Distinct(l.ts + l.fs) && ListOwn(l) <= p.open && p.last <= |p.code|
    requires forall j :: j in l.ts || j in l.fs ==> 0 < j < |p.code| && p.code[j].Jmp?
    requires var o := Run(w, p, r); o.Leave? && 0 < o.j <= |p.code| && (o.j in l.ts || o.j in l.fs) ==>
      IsTest(p.code[o.j - 1])
    ensures var p' := Close(p, l, skip, reg);
            Ready(p') && Run(w, p', r) == Closes(p, l, skip, reg, Run(w, p, r))
  {
    var p', o := Close(p, l, skip, reg), Run(w, p, r);
    CloseReady(p, l, skip, reg);
    RunGrows(w, p, p', r);
    LeavesOpen(w, p.ks, p.code, p.open, p.last, 0, r);
    assert p'.open == p.open - ListOwn(l);
    assert forall j: nat :: j in l.ts || j in l.fs <==> j as int in ListOwn(l);
    match o {
      case End(r') =>
        CloseEnd(w, p, l, skip, reg, r');
      case Leave(j, r') =>
        if j in l.ts || j in l.fs {
          CloseLeave(w, p, l, skip, reg, j, r');
        }
    }
  }

  lemma CloseStops(cx: Context, ks: seq<Value>, code: Code, last: int, e: ExpDesc, l: Lists, skip: bool, reg: nat,
    p': Program, r: Regs)
    requires Meaning(cx, ks, code, last, e, l) && e.k == (if skip then NonReloc(reg) else KFalse)
    requires reg >= cx.base || reg == cx.dst
    requires var p := Now(cx.before.open, ks, code, last, e, l);
             Ready(p') && Run(cx.w, p', r) == Closes(p, l, skip, reg, Run(cx.w, p, r))
    ensures StopsFrom(cx, p', p'.code, ExpDesc(NonReloc(reg), NO_JUMP, NO_JUMP), Lists([], []), r)
  {
    hide Exec, Frame, IsList, Distinct;
    var p := Now(cx.before.open, ks, code, last, e, l);
    assert StopsFrom(cx, p, code, e, l, r);
    BeforeLeaves(cx, r);
    hide Frame, IsList, Distinct;
    var o0, o := Run(cx.w, cx.before, r), Run(cx.w, p, r);
    if o0.End? && o.Leave? {
      KeptValue(code, o.j, o.r, Eval(cx.w, cx.x, o0.r), o.j in l.ts, reg);
    }
  }

  /** `exp2reg` when the booleans are needed. */
  lemma CloseMeans(cx: Context, ks: seq<Value>, code: Code, last: int, e: ExpDesc, l: Lists, skip: bool, reg: nat)
    requires Meaning(cx, ks, code, last, e, l) && e.k == (if skip then NonReloc(reg) else KFalse)
    requires reg >= cx.base || reg == cx.dst
    ensures var p' := Close(Now(cx.before.open, ks, code, last, e, l), l, skip, reg);
            Meaning(cx, ks, p'.code, p'.last, ExpDesc(NonReloc(reg), NO_JUMP, NO_JUMP), Lists([], []))
  {
    var p, e', l' := Now(cx.before.open, ks, code, last, e, l), ExpDesc(NonReloc(reg), NO_JUMP, NO_JUMP), Lists([], []);
    var p' := Close(p, l, skip, reg);
    ListElems(code, e.t, l.ts);
    ListElems(code, e.f, l.fs);
    CloseReady(p, l, skip, reg);
    CloseCode(p, l, skip, reg);
    assert Frame(cx.before.code, p'.code) by {
      forall i | 0 <= i < |cx.before.code|
        ensures p'.code[i] == cx.before.code[i] || (cx.before.code[i].LoadNil? && p'.code[i].LoadNil?)
      {
        assert CloseAt(p, l, skip, reg, i, p'.code[i]);
      }
    }
    assert p' == Now(cx.before.open, ks, p'.code, p'.last, e', l') by {
      assert forall j :: j in cx.before.open ==> j !in ListOwn(l);
    }
    hide Close, IsList, Frame;
    forall r ensures StopsFrom(cx, p', p'.code, e', l', r) {
      TestsBefore(cx, ks, code, last, e, l, r);
      CloseRuns(cx.w, p, l, skip, reg, r);
      CloseStops(cx, ks, code, last, e, l, skip, reg, p', r);
    }
  }

  lemma TestsBefore(cx: Context, ks: seq<Value>, code: Code, last: int, e: ExpDesc, l: Lists, r: Regs)
    requires Meaning(cx, ks, code, last, e, l) && !e.k.Reloc?
    ensures var o := Run(cx.w, Now(cx.before.open, ks, code, last, e, l), r);
            o.Leave? && 0 < o.j <= |code| && (o.j in l.ts || o.j in l.fs) ==> IsTest(code[o.j - 1])
  {
    assert StopsFrom(cx, Now(cx.before.open, ks, code, last, e, l), code, e, l, r);
    BeforeLeaves(cx, r);
  }

  /** Jumps left open by earlier code are there. */
  lemma BeforeLeaves(cx: Context, r: Regs)
    requires Ready(cx.before)
    ensures var o := Run(cx.w, cx.before, r); o.Leave? ==> o.j in cx.before.open && 0 <= o.j < |cx.before.code|
  {
    LeavesOpen(cx.w, cx.before.ks, cx.before.code, cx.before.open, cx.before.last, 0, r);
  }

  lemma CloseEnd(w: World, p: Program, l: Lists, skip: bool, reg: nat, r: Regs)
    requires Ready(p) && Distinct(l.ts + l.fs) && ListOwn(l) <= p.open && p.last <= |p.code|
    requires forall j :: j in l.ts || j in l.fs ==> 0 < j
    ensures var p' := Close(p, l, skip, reg);
            && Ready(p') && Entry(p'.code, |p.code|)
            && Exec(w, p'.ks, p'.code, p'.open, p'.last, |p.code|, r) == End(if skip then r else Put(r, reg, False))
  {
    CloseReady(p, l, skip, reg);
    RunGrows(w, p, Close(p, l, skip, reg), r);
    hide Finished, Distinct, Konsts;
    BooleansRun(w, Close(p, l, skip, reg), |p.code|, skip, reg, r);
  }

  /** The jumps of the lists and their tests in the finished program. */
  lemma CloseJump(p: Program, l: Lists, skip: bool, reg: nat, j: nat)
    requires Ready(p) && Distinct(l.ts + l.fs) && ListOwn(l) <= p.open && p.last <= |p.code|
    requires forall j :: j in l.ts || j in l.fs ==> 0 < j < |p.code| && p.code[j].Jmp?
    requires (j in l.ts || j in l.fs) && IsTest(p.code[j - 1])
    ensures var p' := Close(p, l, skip, reg);
            var n := |p.code| + if skip then 1 else 0;
            && Ready(p') && |p'.code| == n + 2 && p'.code[j].Jmp? && j !in p'.open && |p.code| !in p'.open
            && p'.code[j - 1] == PatchedTest(p.code[j - 1], reg)
            && Target(p'.code, j) == (if p.code[j - 1].TestSet? then n + 2 else if j in l.ts then n + 1 else n)
            && p'.code[|p.code|..] == Booleans(skip, reg) && Entry(p'.code, |p.code|)
  {
    CloseReady(p, l, skip, reg);
    CloseCode(p, l, skip, reg);
    CloseKinds(p, l, skip, reg);
    var p' := Close(p, l, skip, reg);
    assert j as int in ListOwn(l);
    assert CloseAt(p, l, skip, reg, j, p'.code[j]) && CloseAt(p, l, skip, reg, j - 1, p'.code[j - 1]);
    assert InstrOk(p.code, p.open, p.last, |p.code| - 1);
    hide Finished, Distinct, Konsts;
  }

  /** Where the finished program goes from a jump of the lists. */
  lemma CloseLeave(w: World, p: Program, l: Lists, skip: bool, reg: nat, j: nat, r: Regs)
    requires Ready(p) && Distinct(l.ts + l.fs) && ListOwn(l) <= p.open && p.last <= |p.code|
    requires forall j :: j in l.ts || j in l.fs ==> 0 < j < |p.code| && p.code[j].Jmp?
    requires (j in l.ts || j in l.fs) && IsTest(p.code[j - 1])
    ensures var p' := Close(p, l, skip, reg);
            var r' := Kept(PatchedTest(p.code[j - 1], reg), r);
            && Ready(p') && j < |p'.code| && p'.code[j].Jmp?
            && Resume(w, p'.ks, p'.code, p'.open, p'.last, j, r) ==
                 End(if p.code[j - 1].TestSet? then r' else Put(r', reg, Bool(j in l.ts)))
  {
    hide Close, Finished, Distinct, ListOwn, PatchedTest, Kept, Booleans, InstrOk, Konsts;
    CloseJump(p, l, skip, reg, j);
    var p' := Close(p, l, skip, reg);
    var r' := Kept(PatchedTest(p.code[j - 1], reg), r);
    BooleansRun(w, p', |p.code|, skip, reg, r');
    ResumeAt(w, p', j, r, Target(p'.code, j));
  }

  lemma ResumeAt(w: World, p: Program, j: nat, r: Regs, t: int)
    requires Ready(p) && 0 < j < |p.code| && p.code[j].Jmp? && j !in p.open && t == Target(p.code, j)
    ensures Entry(p.code, t)
    ensures Resume(w, p.ks, p.code, p.open, p.last, j, r) == Exec(w, p.ks, p.code, p.open, p.last, t,
      Kept(p.code[j - 1], r))
  {
    assert InstrOk(p.code, p.open, p.last, j);
  }

  /** `exp2reg` when all jumps leave a value: they all go to the end. */
  lemma FinishedHere(code: Code, l: Lists, reg: nat, pf: int, pt: int)
    requires Distinct(l.ts + l.fs) && !NeedsValue(code, l.ts) && !NeedsValue(code, l.fs)
    requires forall j :: j in l.ts || j in l.fs ==> 0 < j < |code| && code[j].Jmp?
    ensures Finished(code, l, reg, |code|, pf, pt) == Patched(code, ListOwn(l), |code|, reg, |code|)
  {
    var a, b := Finished(code, l, reg, |code|, pf, pt), Patched(code, ListOwn(l), |code|, reg, |code|);
    assert forall j: nat :: j in l.ts || j in l.fs <==> j as int in ListOwn(l);
    forall i | 0 <= i < |code| ensures a[i] == b[i] {
      FinishedAt(code, l, reg, |code|, pf, pt, i);
      assert i in l.ts ==> code[i - 1].TestSet?;
      assert i in l.fs ==> code[i - 1].TestSet?;
    }
  }

  lemma FinishAfter(cx: Context, ks: seq<Value>, code: Code, e: ExpDesc, l: Lists, reg: nat, code': Code,
                    o0: Outcome, o: Outcome, o': Outcome)
    requires e.k == NonReloc(reg) && (reg >= cx.base || reg == cx.dst) && StopsAfter(cx, ks, code, e, l, o0, o)
    requires !NeedsValue(code, l.ts) && !NeedsValue(code, l.fs)
    requires o0.Leave? ==> o0.j !in l.ts && o0.j !in l.fs
    requires o' == match o
                   case End(r') => End(r')
                   case Leave(j, r') =>
                     if !(j in l.ts || j in l.fs) then Leave(j, r')
                     else End(if 0 < j <= |code| then Kept(PatchedTest(code[j - 1], reg), r') else r')
    ensures StopsAfter(cx, ks, code', ExpDesc(NonReloc(reg), NO_JUMP, NO_JUMP), Lists([], []), o0, o')
  {
    if o0.End? && o.Leave? {
      KeptValue(code, o.j, o.r, Eval(cx.w, cx.x, o0.r), o.j in l.ts, reg);
    }
  }

  lemma FinishStops(cx: Context, ks: seq<Value>, code: Code, last: int, e: ExpDesc, l: Lists, reg: nat, r: Regs)
    requires Meaning(cx, ks, code, last, e, l) && e.k == NonReloc(reg) && (reg >= cx.base || reg == cx.dst)
    requires !NeedsValue(code, l.ts) && !NeedsValue(code, l.fs)
    ensures var p' := PatchedHere(Now(cx.before.open, ks, code, last, e, l), ListOwn(l), reg);
            Ready(p') && StopsFrom(cx, p', p'.code, ExpDesc(NonReloc(reg), NO_JUMP, NO_JUMP), Lists([], []), r)
  {
    hide Frame, IsList, Distinct, StopsAfter, Exec, Patched, PatchedTest, Kept, NeedsValue;
    var p := Now(cx.before.open, ks, code, last, e, l);
    PatchedRuns(cx.w, p, ListOwn(l), reg, r);
    assert StopsFrom(cx, p, code, e, l, r);
    BeforeLeaves(cx, r);
    assert forall j: nat :: j in l.ts || j in l.fs <==> j as int in ListOwn(l);
    assert forall j :: j in l.ts || j in l.fs ==> |cx.before.code| < j;
    var p' := PatchedHere(p, ListOwn(l), reg);
    FinishAfter(cx, ks, code, e, l, reg, p'.code, Run(cx.w, cx.before, r), Run(cx.w, p, r), Run(cx.w, p', r));
  }

  lemma FinishMeans(cx: Context, ks: seq<Value>, code: Code, last: int, e: ExpDesc, l: Lists, reg: nat, pf: int,
    pt: int)
    requires Meaning(cx, ks, code, last, e, l) && e.k == NonReloc(reg) && (reg >= cx.base || reg == cx.dst)
    requires !NeedsValue(code, l.ts) && !NeedsValue(code, l.fs)
    ensures Meaning(cx, ks, Finished(code, l, reg, |code|, pf, pt), |code|, ExpDesc(NonReloc(reg), NO_JUMP, NO_JUMP),
                    Lists([], []))
  {
    var p, e', l' := Now(cx.before.open, ks, code, last, e, l), ExpDesc(NonReloc(reg), NO_JUMP, NO_JUMP), Lists([], []);
    ListElems(code, e.t, l.ts);
    ListElems(code, e.f, l.fs);
    FinishedHere(code, l, reg, pf, pt);
    var p' := PatchedHere(p, ListOwn(l), reg);
    PatchedReady(p, ListOwn(l), reg);
    assert forall j: nat :: j in l.ts || j in l.fs <==> j as int in ListOwn(l);
    assert Frame(cx.before.code, p'.code);
    assert p' == Now(cx.before.open, ks, p'.code, |code|, e', l') by {
      assert forall j :: j in cx.before.open ==> j !in ListOwn(l);
    }
    hide IsList, Frame, Distinct, StopsFrom, Ready;
    forall r ensures StopsFrom(cx, p', p'.code, e', l', r) {
      FinishStops(cx, ks, code, last, e, l, reg, r);
    }
  }

  /** A register may be given up as the destination. */
  lemma WithDestination(cx: Context, ks: seq<Value>, code: Code, last: int, e: ExpDesc, l: Lists, dst: int)
    requires Meaning(cx, ks, code, last, e, l) && cx.dst == -1
    ensures Meaning(cx.(dst := dst), ks, code, last, e, l)
  {
    var p := Now(cx.before.open, ks, code, last, e, l);
    forall r ensures StopsFrom(cx.(dst := dst), p, code, e, l, r) { assert StopsFrom(cx, p, code, e, l, r); }
  }

  // ----- loading nil and constants -----

  lemma {:induction false} PutNilsAt(r: Regs, a: int, n: nat, i: nat)
    ensures Reg(PutNils(r, a, n), i) == if a <= i <= a + n then Nil else Reg(r, i)
    decreases n
  {
    if n > 0 { PutNilsAt(Put(r, a, Nil), a + 1, n - 1, i); }
  }

  /** `luaK_nil` joining the previous instruction: `a` and `n` cover its registers and `reg`. */
  ghost predicate Joins(i: Instr, reg: nat, a: nat, n: nat) {
    && i.LoadNil? && i.a >= 0
    && (i.a <= reg <= i.a + i.n + 1 || reg <= i.a <= reg + 1)
    && a == (if i.a < reg then i.a else reg) && a + n == if i.a + i.n > reg then i.a + i.n else reg
  }

  lemma NilStops(cx: Context, ks: seq<Value>, code: Code, last: int, e: ExpDesc, l: Lists, reg: nat, a: nat, n: nat,
    r: Regs)
    requires Meaning(cx, ks, code, last, e, l) && e.k.KNil? && (reg >= cx.base || reg == cx.dst)
    requires 0 < |code| && last < |code| && Joins(code[|code| - 1], reg, a, n)
    ensures var m := |code| - 1;
            var p' := Now(cx.before.open, ks, code, last, e, l).(code := code[m := LoadNil(a, n)]);
            Ready(p') && StopsFrom(cx, p', p'.code, ExpDesc(NonReloc(reg), e.t, e.f), l, r)
  {
    var m, p := |code| - 1, Now(cx.before.open, ks, code, last, e, l);
    if m > 0 { assert InstrOk(code, p.open, last, m - 1); }
    PrefixReady(p, m);
    var q := Prefix(p, m);
    assert p.open == q.open by { forall j | j in p.open ensures j in q.open { assert code[j].Jmp?; } }
    assert code == q.code + [code[m]];
    assert p == Appended(q, code[m]);
    AppendPlain(cx.w, q, code[m], r);
    AppendPlain(cx.w, q, LoadNil(a, n), r);
    assert code[m := LoadNil(a, n)] == q.code + [LoadNil(a, n)];
    assert StopsFrom(cx, p, code, e, l, r);
    BeforeLeaves(cx, r);
    LeavesOpen(cx.w, q.ks, q.code, q.open, q.last, 0, r);
    var o := Run(cx.w, q, r);
    if o.End? {
      forall i: nat
        ensures Reg(PutNils(o.r, a, n), i) == if i == reg then Nil else Reg(PutNils(o.r, code[m].a, code[m].n), i)
      {
        PutNilsAt(o.r, a, n, i);
        PutNilsAt(o.r, code[m].a, code[m].n, i);
      }
    }
  }

  lemma NilMeans(cx: Context, ks: seq<Value>, code: Code, last: int, e: ExpDesc, l: Lists, reg: nat, a: nat, n: nat)
    requires Meaning(cx, ks, code, last, e, l) && e.k.KNil? && (reg >= cx.base || reg == cx.dst)
    requires 0 < |code| && last < |code| && Joins(code[|code| - 1], reg, a, n)
    ensures Meaning(cx, ks, code[|code| - 1 := LoadNil(a, n)], last, ExpDesc(NonReloc(reg), e.t, e.f), l)
  {
    var m, p, e' := |code| - 1, Now(cx.before.open, ks, code, last, e, l), ExpDesc(NonReloc(reg), e.t, e.f);
    var code' := code[m := LoadNil(a, n)];
    ListElems(code, e.t, l.ts);
    ListElems(code, e.f, l.fs);
    ListStays(code, code', e.t, l.ts);
    ListStays(code, code', e.f, l.fs);
    var p' := p.(code := code');
    assert p' == Now(cx.before.open, ks, code', last, e', l);
    NilStops(cx, ks, code, last, e, l, reg, a, n, map[]);
    forall r ensures StopsFrom(cx, p', code', e', l, r) { NilStops(cx, ks, code, last, e, l, reg, a, n, r); }
  }

  /** A constant whose index does not fit in one instruction takes two. */
  lemma LoadedFar(cx: Context, ks: seq<Value>, code: Code, last: int, e: ExpDesc, l: Lists, reg: nat, kx: nat)
    requires Meaning(cx, ks, code, last, e, l) && e.k == K(kx) && (reg >= cx.base || reg == cx.dst)
    ensures Meaning(cx, ks, code + [LoadKX(reg), ExtraArg(kx)], last, ExpDesc(NonReloc(reg), e.t, e.f), l)
  {
    var p, e' := Now(cx.before.open, ks, code, last, e, l), ExpDesc(NonReloc(reg), e.t, e.f);
    var p' := p.(code := code + [LoadKX(reg), ExtraArg(kx)]);
    BodyStays(cx, code, p'.code, e, e'.k, l);
    assert p' == Now(cx.before.open, ks, p'.code, last, e', l);
    AppendFar(cx.w, p, reg, kx, map[]);
    forall r ensures StopsFrom(cx, p', p'.code, e', l, r) {
      AppendFar(cx.w, p, reg, kx, r);
      assert StopsFrom(cx, p, code, e, l, r);
      BeforeLeaves(cx, r);
      LeavesOpen(cx.w, p.ks, p.code, p.open, p.last, 0, r);
    }
  }

  lemma AppendFar(w: World, p: Program, reg: nat, kx: nat, r: Regs)
    requires Ready(p) && kx < |p.ks|
    ensures var p' := p.(code := p.code + [LoadKX(reg), ExtraArg(kx)]);
      && Ready(p')
      && Run(w, p', r) ==
           match Run(w, p, r) case End(r') => End(Put(r', reg, Konst(p.ks, kx))) case Leave(j, r') => Leave(j, r')
  {
    var p' := p.(code := p.code + [LoadKX(reg), ExtraArg(kx)]);
    forall n | 0 <= n < |p'.code| ensures InstrOk(p'.code, p'.open, p'.last, n) {
      if n < |p.code| { assert InstrOk(p.code, p.open, p.last, n); }
    }
    RunGrows(w, p, p', r);
    var o := Run(w, p, r);
    if o.End? { AtEnd(w, p', |p.code| + 2, Put(o.r, reg, Konst(p.ks, kx))); }
  }

  lemma SameMain(w: World, ks: seq<Value>, ks': seq<Value>, code: Code, k: Kind)
    requires ks <= ks' && (k.K? ==> k.info < |ks|)
    ensures forall r :: Main(w, ks', code, k, r) == Main(w, ks, code, k, r)
  {
  }

  // ----- comparisons -----

  /** Operands of a comparison: constants, and values in registers below `n`. */
  predicate IsOperand(k: Kind, ks: seq<Value>, n: nat) {
    match k
    case KInt(_) => true
    case K(i) => i < |ks|
    case NonReloc(reg) => reg < n
    case _ => false
  }

  /** Both operands are there when execution gets to the end of the code. */
  ghost predicate BothStops(cx: Context, ks: seq<Value>, a: Exp, ka: Kind, b: Exp, kb: Kind, r1: Regs, o: Outcome) {
    && o.End? && Same(r1, o.r, cx.base, cx.dst)
    && Main(cx.w, ks, [], ka, o.r) == Eval(cx.w, a, r1) && Main(cx.w, ks, [], kb, o.r) == Eval(cx.w, b, r1)
  }

  ghost predicate BothAt(cx: Context, p: Program, a: Exp, ka: Kind, b: Exp, kb: Kind, r: Regs)
    requires Ready(cx.before) && Ready(p)
  {
    BothAfter(cx, p.ks, a, ka, b, kb, Run(cx.w, cx.before, r), Run(cx.w, p, r))
  }

  ghost predicate BothAfter(cx: Context, ks: seq<Value>, a: Exp, ka: Kind, b: Exp, kb: Kind, o0: Outcome, o: Outcome) {
    match o0
    case Leave(_, _) => o == o0
    case End(r1) => BothStops(cx, ks, a, ka, b, kb, r1, o)
  }

  ghost predicate Both(cx: Context, p: Program, a: Exp, ka: Kind, b: Exp, kb: Kind) {
    && Ready(cx.before) && Ready(p) && cx.before.ks <= p.ks && Frame(cx.before.code, p.code)
    && cx.before.last <= p.last <= |p.code| && p.open == cx.before.open
    && (forall j :: j in cx.before.open ==> j < |cx.before.code|)
    && forall r :: BothAt(cx, p, a, ka, b, kb, r)
  }

  /** One operand, as a pair with itself. */
  lemma OneOperand(cx: Context, a: Exp, ks: seq<Value>, code: Code, last: int, ka: Kind, n: nat)
    requires Meaning(cx.(x := a), ks, code, last, ExpDesc(ka, NO_JUMP, NO_JUMP), Lists([], [])) && IsOperand(ka, ks, n)
    ensures Both(cx, Program(ks, code, cx.before.open, last), a, ka, a, ka)
  {
    var e, l := ExpDesc(ka, NO_JUMP, NO_JUMP), Lists([], []);
    var p := Program(ks, code, cx.before.open, last);
    assert p == Now(cx.before.open, ks, code, last, e, l);
    forall r ensures BothAt(cx, p, a, ka, a, ka, r) { assert StopsFrom(cx.(x := a), p, code, e, l, r); }
  }

  lemma FrameTransitive(a: Code, b: Code, c: Code)
    requires Frame(a, b) && Frame(b, c)
    ensures Frame(a, c)
  {
  }

  /** The second operand has been coded after the first, which still is where it was. */
  lemma SecondOperand(cx: Context, p: Program, a: Exp, ka: Kind, b: Exp, base: nat, n: nat,
                      ks: seq<Value>, code: Code, last: int, kb: Kind, m: nat)
    requires Both(cx, p, a, ka, a, ka) && IsOperand(ka, p.ks, base) && cx.dst == -1 && cx.base <= base
    requires Closed(b, n) && n <= cx.base
    requires Meaning(Context(cx.w, p, b, base, -1), ks, code, last, ExpDesc(kb, NO_JUMP, NO_JUMP), Lists([], []))
    requires IsOperand(kb, ks, m)
    ensures Both(cx, Program(ks, code, cx.before.open, last), a, ka, b, kb)
  {
    var e, l := ExpDesc(kb, NO_JUMP, NO_JUMP), Lists([], []);
    var p' := Program(ks, code, cx.before.open, last);
    var cx2 := Context(cx.w, p, b, base, -1);
    assert p' == Now(p.open, ks, code, last, e, l);
    FrameTransitive(cx.before.code, p.code, code);
    forall r ensures BothAt(cx, p', a, ka, b, kb, r) {
      assert StopsFrom(cx2, p', code, e, l, r) && BothAt(cx, p, a, ka, a, ka, r);
      var o1, o2 := Run(cx.w, cx.before, r), Run(cx.w, p, r);
      if o1.End? { EvalSame(cx.w, b, o1.r, o2.r, n); }
    }
  }

  /** A constant operand has been loaded after both. */
  lemma LoadedOperand(cx: Context, p: Program, a: Exp, ka: Kind, b: Exp, kb: Kind, v: Value, base: nat,
                      ks: seq<Value>, code: Code, last: int, k': Kind, m: nat)
    requires Both(cx, p, a, ka, b, kb) && IsOperand(kb, p.ks, base) && cx.dst == -1 && cx.base <= base
    requires !ka.NonReloc? && IsOperand(ka, p.ks, base) && Main(cx.w, p.ks, [], ka, map[]) == v
    requires Meaning(Context(cx.w, p, Const(v), base, -1), ks, code, last, ExpDesc(k', NO_JUMP, NO_JUMP), Lists([], []))
    requires IsOperand(k', ks, m)
    ensures Both(cx, Program(ks, code, cx.before.open, last), a, k', b, kb)
  {
    var e, l := ExpDesc(k', NO_JUMP, NO_JUMP), Lists([], []);
    var p' := Program(ks, code, cx.before.open, last);
    var cx2 := Context(cx.w, p, Const(v), base, -1);
    assert p' == Now(p.open, ks, code, last, e, l);
    FrameTransitive(cx.before.code, p.code, code);
    hide Ready, Run, Frame, StopsAfter, BothAfter;
    forall r ensures BothAt(cx, p', a, k', b, kb, r) {
      assert StopsFrom(cx2, p', code, e, l, r) && BothAt(cx, p, a, ka, b, kb, r);
      LoadedAfter(cx, p.ks, ks, code, a, ka, b, kb, v, base, k', cx2, m, Run(cx.w, cx.before, r), Run(cx.w, p, r),
        Run(cx.w, p', r));
    }
  }

  lemma LoadedAfter(cx: Context, ks: seq<Value>, ks': seq<Value>, code: Code, a: Exp, ka: Kind, b: Exp, kb: Kind,
    v: Value,
                    base: nat, k': Kind, cx2: Context, m: nat, o0: Outcome, o: Outcome, o': Outcome)
    requires BothAfter(cx, ks, a, ka, b, kb, o0, o) && cx.base <= base && ks <= ks' && cx2.base == base && cx2.dst == -1
    requires cx2.w == cx.w && cx2.x == Const(v) && IsOperand(k', ks', m)
    requires StopsAfter(cx2, ks', code, ExpDesc(k', NO_JUMP, NO_JUMP), Lists([], []), o, o')
    requires !ka.NonReloc? && IsOperand(ka, ks, base) && Main(cx.w, ks, [], ka, map[]) == v && IsOperand(kb, ks, base)
    ensures BothAfter(cx, ks', a, k', b, kb, o0, o')
  {
    SameMain(cx.w, ks, ks', [], kb);
  }

  /** The test passes exactly if the relation holds. */
  ghost predicate Decides(w: World, ks: seq<Value>, i: Instr, op: Relation, ka: Kind, kb: Kind) {
    && (i.Compare2? || i.CompareI? || i.CompareK?) && Encodable(i) && (i.CompareK? ==> i.kx < |ks|)
    && forall r :: Passes(w, ks, i, r) <==> Compared(w, op, Main(w, ks, [], ka, r), Main(w, ks, [], kb, r))
  }

  /** A comparison becomes a jump that is taken when the relation holds. */
  lemma ComparisonMeans(cx: Context, op: Relation, p: Program, a: Exp, ka: Kind, b: Exp, kb: Kind, i: Instr)
    requires cx.x == Compare(op, a, b) && Both(cx, p, a, ka, b, kb) && Decides(cx.w, p.ks, i, op, ka, kb)
    ensures Meaning(cx, p.ks, p.code + [i, Jmp(NO_JUMP)], p.last, ExpDesc(Jump(|p.code| + 1), NO_JUMP, NO_JUMP),
      Lists([], []))
  {
    hide StopsFrom, BothAt, Exec, Eval, Passes, Compared, Main;
    var code, e, l := p.code + [i, Jmp(NO_JUMP)], ExpDesc(Jump(|p.code| + 1), NO_JUMP, NO_JUMP), Lists([], []);
    var p' := Tested(p, i);
    assert p' == Now(cx.before.open, p.ks, code, p.last, e, l);
    AppendTest(cx.w, p, i, map[]);
    forall r ensures StopsFrom(cx, p', code, e, l, r) {
      ComparisonFrom(cx, op, p, a, ka, b, kb, i, r);
    }
  }

  lemma ComparisonFrom(cx: Context, op: Relation, p: Program, a: Exp, ka: Kind, b: Exp, kb: Kind, i: Instr, r: Regs)
    requires cx.x == Compare(op, a, b) && Both(cx, p, a, ka, b, kb) && Decides(cx.w, p.ks, i, op, ka, kb)
    ensures Ready(Tested(p, i))
    ensures StopsFrom(cx, Tested(p, i), p.code + [i, Jmp(NO_JUMP)], ExpDesc(Jump(|p.code| + 1), NO_JUMP, NO_JUMP),
      Lists([], []), r)
  {
    hide StopsAfter, BothAfter, Exec, Frame, Passes, Compared, Main;
    var code, p' := p.code + [i, Jmp(NO_JUMP)], Tested(p, i);
    AppendTest(cx.w, p, i, r);
    assert BothAt(cx, p, a, ka, b, kb, r);
    ComparisonAfter(cx, op, p.ks, code, a, ka, b, kb, i, Run(cx.w, cx.before, r), Run(cx.w, p, r), Run(cx.w, p', r),
      |p.code| + 1);
  }

  lemma ComparisonAfter(cx: Context, op: Relation, ks: seq<Value>, code: Code, a: Exp, ka: Kind, b: Exp, kb: Kind,
    i: Instr,
                        o0: Outcome, o: Outcome, o': Outcome, j: nat)
    requires cx.x == Compare(op, a, b) && BothAfter(cx, ks, a, ka, b, kb, o0, o) && Decides(cx.w, ks, i, op, ka, kb)
    requires o' == match o
                   case End(r') => if Passes(cx.w, ks, i, r') then Leave(j, r') else End(r')
                   case Leave(j', r') => Leave(j', r')
    ensures StopsAfter(cx, ks, code, ExpDesc(Jump(j), NO_JUMP, NO_JUMP), Lists([], []), o0, o')
  {
  }

  // ----- more constants -----

  lemma MoreConstants(cx: Context, ks: seq<Value>, code: Code, last: int, e: ExpDesc, l: Lists, ks': seq<Value>)
    requires Meaning(cx, ks, code, last, e, l) && ks <= ks'
    ensures Meaning(cx, ks', code, last, e, l)
  {
    var p, p' := Now(cx.before.open, ks, code, last, e, l), Now(cx.before.open, ks', code, last, e, l);
    MoreKonsts(cx.w, p, ks', map[]);
    forall r ensures StopsFrom(cx, p', code, e, l, r) {
      MoreKonsts(cx.w, p, ks', r);
      assert StopsFrom(cx, p, code, e, l, r);
    }
  }

  /** Another way to describe the same main value. */
  lemma SameKind(cx: Context, ks: seq<Value>, code: Code, last: int, e: ExpDesc, l: Lists, code': Code, k': Kind)
    requires Meaning(cx, ks, code, last, e, l) && !e.k.Jump? && !k'.Jump? && (k'.K? ==> k'.info < |ks|)
    requires Body(code', k') == Body(code, e.k) && |code| <= |code'|
    requires k'.Reloc? ==> k'.pc + 1 == |code'| && (code'[k'.pc].GetUpval? || code'[k'.pc].Not?)
    requires forall r :: Main(cx.w, ks, code', k', r) == Main(cx.w, ks, code, e.k, r)
    requires e.k.Reloc? ==> code' == code && k' == e.k
    ensures Meaning(cx, ks, code', last, ExpDesc(k', e.t, e.f), l)
  {
    var p, e' := Now(cx.before.open, ks, code, last, e, l), ExpDesc(k', e.t, e.f);
    assert Now(cx.before.open, ks, code', last, e', l) == p;
    if !e.k.Reloc? {
      assert forall i :: 0 <= i < |code| ==> code'[i] == code[i];
      ListElems(code, e.t, l.ts);
      ListElems(code, e.f, l.fs);
      ListStays(code, code', e.t, l.ts);
      ListStays(code, code', e.f, l.fs);
    }
    forall r ensures StopsFrom(cx, p, code', e', l, r) {
      assert StopsFrom(cx, p, code, e, l, r);
      BeforeLeaves(cx, r);
    }
  }
}
