/**
 The code that the generator emits for expressions: instructions with the meaning that lopcodes.h gives
 them, and what remains to be patched.
 */
module ExpCode {

  /** Lua values, as far as conditions and comparisons are concerned. Floats are left out. */
  datatype Value = Nil | False | True | Int(i: int) | Str(s: string) | Object(id: nat)

  predicate Truthy(v: Value) { !v.Nil? && !v.False? }

  function Bool(b: bool): Value { if b then True else False }

  /** What an expression can depend on besides registers: the order of values and the upvalues. */
  datatype World = World(lt: (Value, Value) -> bool, le: (Value, Value) -> bool, up: seq<Value>)

  // ----- source expressions -----

  datatype Relation = Eq | Ne | Lt | Le | Gt | Ge

  datatype Exp =
    | Const(v: Value)
    | Local(reg: nat)
    | Upvalue(idx: nat)
    | Negation(e: Exp)
    | And(a: Exp, b: Exp)
    | Or(a: Exp, b: Exp)
    | Compare(op: Relation, a: Exp, b: Exp)

  type Regs = map<nat, Value>

  function Reg(r: Regs, i: nat): Value { if i in r then r[i] else Nil }

  function Compared(w: World, op: Relation, a: Value, b: Value): bool {
    match op
    case Eq => a == b
    case Ne => a != b
    case Lt => w.lt(a, b)
    case Le => w.le(a, b)
    case Gt => w.lt(b, a)
    case Ge => w.le(b, a)
  }

  /** The value of an expression in Lua. */
  function Eval(w: World, x: Exp, r: Regs): Value {
    match x
    case Const(v) => v
    case Local(i) => Reg(r, i)
    case Upvalue(i) => if i < |w.up| then w.up[i] else Nil
    case Negation(e) => Bool(!Truthy(Eval(w, e, r)))
    case And(a, b) => var va := Eval(w, a, r); if Truthy(va) then Eval(w, b, r) else va
    case Or(a, b) => var va := Eval(w, a, r); if Truthy(va) then va else Eval(w, b, r)
    case Compare(op, a, b) => Bool(Compared(w, op, Eval(w, a, r), Eval(w, b, r)))
  }

  /** Only `nil` and `false` are false; `and` and `or` give one of their operands, `not` a boolean. */
  lemma Conditions(w: World, a: Exp, b: Exp, r: Regs)
    ensures var x, y := Eval(w, a, r), Eval(w, b, r);
      var isFalse := x == Nil || x == False;
      && Eval(w, And(a, b), r) == (if isFalse then x else y)
      && Eval(w, Or(a, b), r) == (if isFalse then y else x)
      && Eval(w, Negation(a), r) == (if isFalse then True else False)
  {
  }

  /** Relations come down to equality, "less than" and "less or equal". */
  lemma Relations(w: World, x: Value, y: Value)
    ensures (Compared(w, Eq, x, y) <==> x == y) && (Compared(w, Ne, x, y) <==> x != y)
    ensures Compared(w, Lt, x, y) == Compared(w, Gt, y, x) == w.lt(x, y)
    ensures Compared(w, Le, x, y) == Compared(w, Ge, y, x) == w.le(x, y)
  {
  }

  /** Local variables live in the first registers; constants are values that can be written down. */
  predicate Closed(x: Exp, nvars: nat) {
    match x
    case Const(v) => !v.Object?
    case Local(i) => i < nvars
    case Upvalue(_) => true
    case Negation(e) => Closed(e, nvars)
    case And(a, b) => Closed(a, nvars) && Closed(b, nvars)
    case Or(a, b) => Closed(a, nvars) && Closed(b, nvars)
    case Compare(_, a, b) => Closed(a, nvars) && Closed(b, nvars)
  }

  /** Registers below `n` are the same, `dst` perhaps excepted. */
  ghost predicate Same(r: Regs, r': Regs, n: nat, dst: int) {
    forall i: nat :: i < n && i != dst ==> Reg(r', i) == Reg(r, i)
  }

  lemma EvalSame(w: World, x: Exp, r: Regs, r': Regs, n: nat)
    requires Closed(x, n) && Same(r, r', n, -1)
    ensures Eval(w, x, r') == Eval(w, x, r)
  {
  }

  // ----- instructions -----

  /** The register operand of a test that does not keep its value; the end of a jump list. */
  const NO_REG := -1
  const NO_JUMP := -1

  datatype Instr =
    | Move(a: int, b: nat)
    | LoadI(a: int, i: int)
    | LoadK(a: int, kx: nat)
    | LoadKX(a: int)
    | ExtraArg(kx: nat)
    | LoadFalse(a: int)
    | LFalseSkip(a: int)
    | LoadTrue(a: int)
    | LoadNil(a: int, n: nat)
    | GetUpval(a: int, idx: nat)
    | Not(a: int, b: nat)
    | Jmp(sj: int)
    | Compare2(rel: Relation, x: nat, y: nat, k: bool)
    | CompareI(rel: Relation, x: nat, i: int, k: bool)
    | CompareK(x: nat, kx: nat, k: bool)
    | Test(x: nat, k: bool)
    | TestSet(a: int, b: nat, k: bool)

  /** Followed by a jump, which is skipped when the test fails. */
  predicate IsTest(i: Instr) { i.Compare2? || i.CompareI? || i.CompareK? || i.Test? || i.TestSet? }

  // ----- operands in their fields -----

  /** Whether the operands fit into their fields: 8 bits for `C` and `sC`, 17 bits for `Bx` and `sBx`. */
  predicate Encodable(i: Instr) {
    match i
    case CompareI(_, _, n, _) => -127 <= n <= 128
    case LoadI(_, n) => -65535 <= n <= 65536
    case CompareK(_, kx, _) => kx <= 255
    case LoadK(_, kx) => kx <= 131071
    case _ => true
  }

  /** What is read from an 8-bit field in excess 127 into which `n` was written. */
  function SignedC(n: int): int { (n + 127) % 256 - 127 }

  /** The same for a 17-bit field in excess 65535. */
  function SignedBx(n: int): int { (n + 65535) % 131072 - 65535 }

  function UnsignedC(n: nat): nat { n % 256 }

  function UnsignedBx(n: nat): nat { n % 131072 }

  /** Operands that fit are read as they were written. */
  lemma Decoded(i: Instr)
    requires Encodable(i)
    ensures i.CompareI? ==> SignedC(i.i) == i.i
    ensures i.LoadI? ==> SignedBx(i.i) == i.i
    ensures i.CompareK? ==> UnsignedC(i.kx) == i.kx
    ensures i.LoadK? ==> UnsignedBx(i.kx) == i.kx
  {
  }

  function Konst(ks: seq<Value>, i: nat): Value { if i < |ks| then ks[i] else Nil }

  predicate Passes(w: World, ks: seq<Value>, i: Instr, r: Regs)
    requires IsTest(i)
  {
    match i
    case Compare2(rel, x, y, k) => Compared(w, rel, Reg(r, x), Reg(r, y)) == k
    case CompareI(rel, x, n, k) => Compared(w, rel, Reg(r, x), Int(SignedC(n))) == k
    case CompareK(x, kx, k) => (Reg(r, x) == Konst(ks, UnsignedC(kx))) == k
    case Test(x, k) => Truthy(Reg(r, x)) == k
    case TestSet(_, b, k) => Truthy(Reg(r, b)) == k
  }

  function Put(r: Regs, i: int, v: Value): Regs { if i < 0 then r else r[i as nat := v] }

  function PutNils(r: Regs, a: int, n: nat): Regs
    decreases n
  {
    var r' := Put(r, a, Nil);
    if n == 0 then r' else PutNils(r', a + 1, n - 1)
  }

  /** What a test that passes does besides. */
  function Kept(i: Instr, r: Regs): Regs {
    if i.TestSet? then Put(r, i.a, Reg(r, i.b)) else r
  }

  /** An instruction that goes on to the next; it is given the instruction after it. */
  function Plain(w: World, ks: seq<Value>, i: Instr, r: Regs): Regs {
    match i
    case Move(a, b) => Put(r, a, Reg(r, b))
    case LoadI(a, n) => Put(r, a, Int(SignedBx(n)))
    case LoadK(a, kx) => Put(r, a, Konst(ks, UnsignedBx(kx)))
    case LoadFalse(a) => Put(r, a, False)
    case LoadTrue(a) => Put(r, a, True)
    case LoadNil(a, n) => PutNils(r, a, n)
    case GetUpval(a, idx) => Put(r, a, if idx < |w.up| then w.up[idx] else Nil)
    case Not(a, b) => Put(r, a, Bool(!Truthy(Reg(r, b))))
    case _ => r
  }

  // ----- running code with jumps still to be patched -----

  type Code = seq<Instr>

  function Target(code: Code, j: nat): int
    requires j < |code| && code[j].Jmp?
  {
    j + 1 + code[j].sj
  }

  /** `SETARG_A` for an instruction that can put its result into any register. */
  function SetArgA(i: Instr, reg: int): Instr {
    match i
    case GetUpval(_, idx) => GetUpval(reg, idx)
    case Not(_, b) => Not(reg, b)
    case _ => i
  }

  /** A place where execution may continue: not the jump that belongs to a test. */
  predicate Entry(code: Code, pc: int) {
    0 <= pc <= |code| && (pc > 0 ==> !IsTest(code[pc - 1]))
  }

  /**
   Code made of conditions: tests are followed by their jumps; jumps go forward, unless they are still
   to be patched (`open`); nothing jumps beyond `last` but such jumps.
   */
  ghost predicate Formed(code: Code, open: set<int>, last: int) {
    && (forall j :: j in open ==> 0 <= j < |code| && code[j].Jmp?)
    && forall i :: 0 <= i < |code| ==> InstrOk(code, open, last, i)
  }

  ghost predicate InstrOk(code: Code, open: set<int>, last: int, i: nat)
    requires i < |code|
  {
    && (IsTest(code[i]) ==> i + 1 < |code| && code[i + 1].Jmp?)
    && (code[i].Jmp? && i !in open ==>
          i < Target(code, i) <= last && Target(code, i) <= |code| && Entry(code, Target(code, i)))
    && (code[i].LFalseSkip? ==> i + 2 <= |code| && i + 2 <= last && !IsTest(code[i + 1]))
    && (code[i].LoadKX? ==> i + 1 < |code| && code[i + 1].ExtraArg?) && Encodable(code[i])
  }

  datatype Outcome = End(r: Regs) | Leave(j: int, r: Regs)

  /** Runs from `pc` to the end of the code, or to a jump that is to be patched. */
  function Exec(w: World, ks: seq<Value>, code: Code, open: set<int>, last: int, pc: nat, r: Regs): Outcome
    requires Formed(code, open, last) && Entry(code, pc)
    decreases |code| - pc
  {
    if pc == |code| then End(r)
    else
      assert InstrOk(code, open, last, pc);
      var i := code[pc];
      if IsTest(i) then
        if Passes(w, ks, i, r) then
          if pc + 1 in open then Leave(pc + 1, r)
          else
            assert InstrOk(code, open, last, pc + 1);
            Exec(w, ks, code, open, last, Target(code, pc + 1), Kept(i, r))
        else Exec(w, ks, code, open, last, pc + 2, r)
      else if i.Jmp? then
        if pc in open then Leave(pc, r) else Exec(w, ks, code, open, last, Target(code, pc), r)
      else if i.LFalseSkip? then Exec(w, ks, code, open, last, pc + 2, Put(r, i.a, False))
      else if i.LoadKX? then Exec(w, ks, code, open, last, pc + 2, Put(r, i.a, Konst(ks, code[pc + 1].kx)))
      else Exec(w, ks, code, open, last, pc + 1, Plain(w, ks, i, r))
  }

  /** Tests that pass alike; only what they keep may differ. */
  predicate SameTest(i: Instr, i': Instr) {
    i' == i || (i.TestSet? && (i' == Instr.Test(i.b, i.k) || (i'.TestSet? && i'.b == i.b && i'.k == i.k)))
  }

  /** `code'` has more instructions, and fewer jumps of `code` to be patched. */
  ghost predicate Extends(code: Code, open: set<int>, code': Code, open': set<int>) {
    && |code| <= |code'|
    && (forall j :: j in open' && j < |code| ==> j in open)
    && forall i :: 0 <= i < |code| ==> InstrExtends(code, open, code', i)
  }

  ghost predicate InstrExtends(code: Code, open: set<int>, code': Code, i: nat)
    requires i < |code| <= |code'|
  {
    if i in open then code'[i].Jmp?
    else if i + 1 in open && IsTest(code[i]) then SameTest(code[i], code'[i])
    else code'[i] == code[i]
  }

  /** Where a patched jump leads. */
  function Resume(w: World, ks: seq<Value>, code: Code, open: set<int>, last: int, j: int, r: Regs): Outcome
    requires Formed(code, open, last) && 0 <= j < |code| && code[j].Jmp?
  {
    if j in open then Leave(j, r)
    else
      assert InstrOk(code, open, last, j);
      Exec(w, ks, code, open, last, Target(code, j), if j > 0 then Kept(code[j - 1], r) else r)
  }

  function Continue(w: World, ks: seq<Value>, code: Code, open: set<int>, last: int, n: nat, o: Outcome): Outcome
    requires Formed(code, open, last) && Entry(code, n)
    requires o.Leave? ==> 0 <= o.j < |code| && code[o.j].Jmp?
  {
    match o
    case End(r) => Exec(w, ks, code, open, last, n, r)
    case Leave(j, r) => Resume(w, ks, code, open, last, j, r)
  }

  /** Execution only stops at jumps that are to be patched. */
  lemma {:induction false} LeavesOpen(w: World, ks: seq<Value>, code: Code, open: set<int>, last: int, pc: nat, r: Regs)
    requires Formed(code, open, last) && Entry(code, pc)
    ensures var o := Exec(w, ks, code, open, last, pc, r);
            o.Leave? ==> o.j in open && pc <= o.j < |code| && code[o.j].Jmp?
    decreases |code| - pc
  {
    if pc < |code| {
      assert InstrOk(code, open, last, pc);
      var i := code[pc];
      if IsTest(i) {
        if Passes(w, ks, i, r) {
          if pc + 1 !in open {
            assert InstrOk(code, open, last, pc + 1);
            LeavesOpen(w, ks, code, open, last, Target(code, pc + 1), Kept(i, r));
          }
        } else {
          LeavesOpen(w, ks, code, open, last, pc + 2, r);
        }
      } else if i.Jmp? {
        if pc !in open { LeavesOpen(w, ks, code, open, last, Target(code, pc), r); }
      } else if i.LFalseSkip? {
        LeavesOpen(w, ks, code, open, last, pc + 2, Put(r, i.a, False));
      } else if i.LoadKX? {
        LeavesOpen(w, ks, code, open, last, pc + 2, Put(r, i.a, Konst(ks, code[pc + 1].kx)));
      } else {
        LeavesOpen(w, ks, code, open, last, pc + 1, Plain(w, ks, i, r));
      }
    }
  }

  /** All constants that the code refers to exist. */
  ghost predicate Konsts(code: Code, n: nat) {
    forall i :: 0 <= i < |code| && (code[i].LoadK? || code[i].CompareK? || code[i].ExtraArg?) ==> code[i].kx < n
  }

  lemma EntryStays(code: Code, open: set<int>, last: int, code': Code, open': set<int>, pc: int)
    requires Formed(code, open, last) && Extends(code, open, code', open') && Entry(code, pc)
    ensures Entry(code', pc) && Entry(code', |code|)
  {
    if |code| > 0 {
      assert InstrOk(code, open, last, |code| - 1);
      assert InstrExtends(code, open, code', |code| - 1);
    }
    if pc > 0 { assert InstrExtends(code, open, code', pc - 1); }
  }

  /**
   Running extended code is running the old code and going on: at its end, or where a jump that was to be
   patched leads now.
   */
  lemma {:induction false} Extend(w: World, ks: seq<Value>, code: Code, open: set<int>, last: int,
                                  ks': seq<Value>, code': Code, open': set<int>, last': int, pc: nat, r: Regs)
    requires Formed(code, open, last) && Formed(code', open', last') && Extends(code, open, code', open')
    requires ks <= ks' && Konsts(code, |ks|) && Entry(code, pc)
    ensures Entry(code', pc) && Entry(code', |code|)
    ensures var o := Exec(w, ks, code, open, last, pc, r);
            && (o.Leave? ==> 0 <= o.j < |code| && code'[o.j].Jmp?)
            && Exec(w, ks', code', open', last', pc, r) == Continue(w, ks', code', open', last', |code|, o)
    decreases |code| - pc, 1
  {
    hide Plain, Passes, Put, PutNils, Compared;
    EntryStays(code, open, last, code', open', pc);
    if pc < |code| {
      assert InstrOk(code, open, last, pc) && InstrOk(code', open', last', pc) && InstrExtends(code, open, code', pc);
      var i := code[pc];
      if IsTest(i) {
        ExtendTest(w, ks, code, open, last, ks', code', open', last', pc, r);
      } else if i.Jmp? {
        if pc !in open { Extend(w, ks, code, open, last, ks', code', open', last', Target(code, pc), r); }
      } else if i.LFalseSkip? {
        Extend(w, ks, code, open, last, ks', code', open', last', pc + 2, Put(r, i.a, False));
      } else if i.LoadKX? {
        assert InstrExtends(code, open, code', pc + 1);
        Extend(w, ks, code, open, last, ks', code', open', last', pc + 2, Put(r, i.a, Konst(ks, code[pc + 1].kx)));
      } else {
        PlainAlike(w, ks, ks', i, r);
        Extend(w, ks, code, open, last, ks', code', open', last', pc + 1, Plain(w, ks, i, r));
      }
    }
  }

  lemma {:induction false} ExtendTest(w: World, ks: seq<Value>, code: Code, open: set<int>, last: int, ks': seq<Value>,
                                      code': Code, open': set<int>, last': int, pc: nat, r: Regs)
    requires Formed(code, open, last) && Formed(code', open', last') && Extends(code, open, code', open')
    requires ks <= ks' && Konsts(code, |ks|) && Entry(code, pc) && pc < |code| && IsTest(code[pc])
    requires Entry(code', pc) && Entry(code', |code|)
    ensures var o := Exec(w, ks, code, open, last, pc, r);
            && (o.Leave? ==> 0 <= o.j < |code| && code'[o.j].Jmp?)
            && Exec(w, ks', code', open', last', pc, r) == Continue(w, ks', code', open', last', |code|, o)
    decreases |code| - pc, 0
  {
    hide Passes, Put, PutNils, Compared;
    assert InstrOk(code, open, last, pc) && InstrOk(code', open', last', pc) && InstrExtends(code, open, code', pc);
    assert InstrOk(code, open, last, pc + 1) && InstrOk(code', open', last', pc + 1);
    assert InstrExtends(code, open, code', pc + 1);
    var i := code[pc];
    PassesAlike(w, ks, ks', i, code'[pc], r);
    if Passes(w, ks, i, r) {
      if pc + 1 !in open {
        Extend(w, ks, code, open, last, ks', code', open', last', Target(code, pc + 1), Kept(i, r));
      }
    } else {
      Extend(w, ks, code, open, last, ks', code', open', last', pc + 2, r);
    }
  }

  lemma PlainAlike(w: World, ks: seq<Value>, ks': seq<Value>, i: Instr, r: Regs)
    requires ks <= ks' && (i.LoadK? ==> i.kx < |ks|)
    ensures Plain(w, ks', i, r) == Plain(w, ks, i, r)
  {
  }

  lemma PassesAlike(w: World, ks: seq<Value>, ks': seq<Value>, i: Instr, i': Instr, r: Regs)
    requires IsTest(i) && SameTest(i, i') && ks <= ks' && (i.CompareK? ==> i.kx < |ks|)
    ensures IsTest(i') && (Passes(w, ks', i', r) <==> Passes(w, ks, i, r))
  {
  }

  // ----- programs -----

  /** Code with its constants, its jumps still to be patched and the last place known to be jumped to. */
  datatype Program = Program(ks: seq<Value>, code: Code, open: set<int>, last: int)

  ghost predicate Ready(p: Program) {
    Formed(p.code, p.open, p.last) && Konsts(p.code, |p.ks|)
  }

  /** Runs a program from its beginning. */
  function Run(w: World, p: Program, r: Regs): Outcome
    requires Ready(p)
  {
    Exec(w, p.ks, p.code, p.open, p.last, 0, r)
  }

  ghost predicate Grows(p: Program, p': Program) {
    p.ks <= p'.ks && Extends(p.code, p.open, p'.code, p'.open)
  }

  /** What the grown program does where the old one stopped. */
  function Further(w: World, p: Program, n: nat, o: Outcome): Outcome
    requires Ready(p) && Entry(p.code, n) && (o.Leave? ==> 0 <= o.j < |p.code| && p.code[o.j].Jmp?)
  {
    Continue(w, p.ks, p.code, p.open, p.last, n, o)
  }

  lemma RunGrows(w: World, p: Program, p': Program, r: Regs)
    requires Ready(p) && Ready(p') && Grows(p, p')
    ensures Entry(p'.code, |p.code|)
    ensures var o := Run(w, p, r);
            && (o.Leave? ==> o.j in p.open && 0 <= o.j < |p.code| && p.code[o.j].Jmp? && p'.code[o.j].Jmp?)
            && Run(w, p', r) == Further(w, p', |p.code|, o)
  {
    Extend(w, p.ks, p.code, p.open, p.last, p'.ks, p'.code, p'.open, p'.last, 0, r);
    LeavesOpen(w, p.ks, p.code, p.open, p.last, 0, r);
  }

  /** An instruction that can be appended on its own. */
  predicate IsPlain(i: Instr) {
    !IsTest(i) && !i.Jmp? && !i.LFalseSkip? && !i.LoadKX? && !i.ExtraArg?
  }

  function Appended(p: Program, i: Instr): Program { p.(code := p.code + [i]) }

  lemma AppendPlain(w: World, p: Program, i: Instr, r: Regs)
    requires Ready(p) && IsPlain(i) && Encodable(i) && (i.LoadK? ==> i.kx < |p.ks|)
    ensures Ready(Appended(p, i)) && Grows(p, Appended(p, i))
    ensures Run(w, Appended(p, i), r) ==
      match Run(w, p, r) case End(r') => End(Plain(w, p.ks, i, r')) case Leave(j, r') => Leave(j, r')
  {
    var p' := Appended(p, i);
    forall n | 0 <= n < |p'.code| ensures InstrOk(p'.code, p'.open, p'.last, n) {
      if n < |p.code| { assert InstrOk(p.code, p.open, p.last, n); }
    }
    RunGrows(w, p, p', r);
    AtEnd(w, p', |p.code| + 1, if Run(w, p, r).End? then Plain(w, p.ks, i, Run(w, p, r).r) else r);
    if Run(w, p, r).End? { assert p'.code[|p.code|] == i; }
  }

  lemma AtEnd(w: World, p: Program, n: nat, r: Regs)
    requires Ready(p) && n == |p.code|
    ensures Entry(p.code, n) && Exec(w, p.ks, p.code, p.open, p.last, n, r) == End(r)
  {
    if n > 0 { assert InstrOk(p.code, p.open, p.last, n - 1); }
  }

  /** A test and its jump, which is to be patched. */
  function Tested(p: Program, i: Instr): Program {
    p.(code := p.code + [i, Jmp(NO_JUMP)], open := p.open + {|p.code| + 1})
  }

  lemma AppendTest(w: World, p: Program, i: Instr, r: Regs)
    requires Ready(p) && IsTest(i) && Encodable(i) && (i.CompareK? ==> i.kx < |p.ks|)
    ensures Ready(Tested(p, i)) && Grows(p, Tested(p, i))
    ensures Run(w, Tested(p, i), r) ==
      match Run(w, p, r)
      case End(r') => if Passes(w, p.ks, i, r') then Leave(|p.code| + 1, r') else End(r')
      case Leave(j, r') => Leave(j, r')
  {
    var p' := Tested(p, i);
    forall n | 0 <= n < |p'.code| ensures InstrOk(p'.code, p'.open, p'.last, n) {
      if n < |p.code| { assert InstrOk(p.code, p.open, p.last, n); }
    }
    RunGrows(w, p, p', r);
    AtEnd(w, p', |p.code| + 2, if Run(w, p, r).End? then Run(w, p, r).r else r);
    if Run(w, p, r).End? { assert p'.code[|p.code|] == i; }
  }

  /** More constants change nothing. */
  lemma MoreKonsts(w: World, p: Program, ks: seq<Value>, r: Regs)
    requires Ready(p) && p.ks <= ks
    ensures Ready(p.(ks := ks)) && Run(w, p.(ks := ks), r) == Run(w, p, r)
  {
    RunGrows(w, p, p.(ks := ks), r);
  }

  /** The open jumps are linked in another way. */
  ghost predicate Relinked(code: Code, open: set<int>, code': Code) {
    |code'| == |code| && forall i :: 0 <= i < |code| ==> code'[i] == code[i] || (i in open && code'[i].Jmp?)
  }

  lemma RelinkedRuns(w: World, p: Program, code: Code, r: Regs)
    requires Ready(p) && Relinked(p.code, p.open, code)
    ensures Ready(p.(code := code)) && Run(w, p.(code := code), r) == Run(w, p, r)
  {
    var p' := p.(code := code);
    forall n | 0 <= n < |code| ensures InstrOk(code, p.open, p.last, n) {
      assert InstrOk(p.code, p.open, p.last, n);
      if code[n].Jmp? && n !in p.open { EntryRelinked(p.code, p.open, code, Target(code, n)); }
    }
    forall n | 0 <= n < |code| ensures InstrExtends(p.code, p.open, code, n) { }
    RunGrows(w, p, p', r);
  }

  lemma EntryRelinked(code: Code, open: set<int>, code': Code, pc: int)
    requires Relinked(code, open, code') && Entry(code, pc) && forall j :: j in open ==> 0 <= j < |code| && code[j].Jmp?
    ensures Entry(code', pc)
  {
  }

  /** The program up to an instruction that nothing jumps over. */
  function Prefix(p: Program, n: nat): Program
    requires n <= |p.code|
  {
    Program(p.ks, p.code[..n], (set j | j in p.open && j < n), p.last)
  }

  lemma PrefixReady(p: Program, n: nat)
    requires Ready(p) && p.last <= n <= |p.code| && Entry(p.code, n) && (n > 0 ==> !p.code[n - 1].LoadKX?)
    ensures Ready(Prefix(p, n))
  {
    var q := Prefix(p, n);
    forall i | 0 <= i < n ensures InstrOk(q.code, q.open, q.last, i) {
      assert InstrOk(p.code, p.open, p.last, i);
      if i + 1 == n { assert !IsTest(p.code[i]); }
    }
  }

  /** `negatecondition` */
  function Negated(i: Instr): Instr
    requires i.Compare2? || i.CompareI? || i.CompareK?
  {
    match i
    case Compare2(rel, x, y, k) => Compare2(rel, x, y, !k)
    case CompareI(rel, x, n, k) => CompareI(rel, x, n, !k)
    case CompareK(x, kx, k) => CompareK(x, kx, !k)
  }

  lemma NegatedPasses(w: World, ks: seq<Value>, i: Instr, r: Regs)
    requires i.Compare2? || i.CompareI? || i.CompareK?
    ensures IsTest(i) && IsTest(Negated(i)) && (Passes(w, ks, Negated(i), r) <==> !Passes(w, ks, i, r))
  {
  }

  /** A comparison and its jump at the end, taken apart from the rest. */
  lemma LastTest(p: Program)
    requires Ready(p) && 1 < |p.code| && p.last < |p.code| - 1 && |p.code| - 1 in p.open
    requires var i := p.code[|p.code| - 2]; i.Compare2? || i.CompareI? || i.CompareK?
    requires p.code[|p.code| - 1] == Jmp(NO_JUMP)
    ensures var n := |p.code| - 2;
            var q, i := Prefix(p, n), p.code[n];
            && Ready(q) && p == Tested(q, i) && p.(code := p.code[n := Negated(i)]) == Tested(q, Negated(i))
            && Encodable(i) && Encodable(Negated(i)) && (i.CompareK? ==> i.kx < |p.ks|)
            && Negated(i).CompareK? == i.CompareK? && (i.CompareK? ==> Negated(i).kx == i.kx)
  {
    hide SignedC;
    var n := |p.code| - 2;
    var p', q := p.(code := p.code[n := Negated(p.code[n])]), Prefix(p, n);
    if n > 0 { assert InstrOk(p.code, p.open, p.last, n - 1); }
    assert Encodable(p.code[n]) && Encodable(Negated(p.code[n])) by { assert InstrOk(p.code, p.open, p.last, n); }
    PrefixReady(p, n);
    assert p.code == q.code + [p.code[n], Jmp(NO_JUMP)];
    assert p'.code == q.code + [Negated(p.code[n]), Jmp(NO_JUMP)];
    assert p.open == q.open + {n + 1} by {
      forall j | j in p.open ensures j in q.open + {n + 1} { assert p.code[j].Jmp?; }
    }
  }

  lemma RunLeaves(w: World, p: Program, r: Regs)
    requires Ready(p)
    ensures Run(w, p, r).Leave? ==> Run(w, p, r).j < |p.code|
  {
    LeavesOpen(w, p.ks, p.code, p.open, p.last, 0, r);
  }

  /** The comparison before the last jump accepts the other outcome. */
  lemma NegatedRuns(w: World, p: Program, r: Regs)
    requires Ready(p) && 1 < |p.code| && p.last < |p.code| - 1 && |p.code| - 1 in p.open
    requires var i := p.code[|p.code| - 2]; i.Compare2? || i.CompareI? || i.CompareK?
    requires p.code[|p.code| - 1] == Jmp(NO_JUMP)
    ensures var n := |p.code| - 2;
            var p' := p.(code := p.code[n := Negated(p.code[n])]);
            && Ready(p')
            && Run(w, p', r) ==
                 match Run(w, p, r)
                 case End(r') => Leave(n + 1, r')
                 case Leave(j, r') => if j == n + 1 then End(r') else Leave(j, r')
  {
    hide Run, Ready, Encodable, Passes, Negated, Tested, Grows;
    var n := |p.code| - 2;
    var q, i := Prefix(p, n), p.code[n];
    LastTest(p);
    RunLeaves(w, q, r);
    NegatedPasses(w, q.ks, i, if Run(w, q, r).End? then Run(w, q, r).r else r);
    AppendTest(w, q, i, r);
    AppendTest(w, q, Negated(i), r);
  }

  // ----- patching -----

  /** `patchtestreg`: a test keeps its value in `reg`, or keeps none. */
  function PatchedTest(i: Instr, reg: int): Instr {
    if i.TestSet? then
      if reg != NO_REG && reg != i.b then i.(a := reg) else Instr.Test(i.b, i.k)
    else i
  }

  function JumpTo(j: nat, target: int): Instr { Jmp(target - (j + 1)) }

  /** `patchlistaux`: jumps in `s` whose tests keep a value go to `vtarget`, the others to `dtarget`. */
  function PatchedAt(code: Code, s: set<int>, vtarget: int, reg: int, dtarget: int, i: nat): Instr
    requires i < |code|
  {
    if i in s then JumpTo(i, if i > 0 && code[i - 1].TestSet? then vtarget else dtarget)
    else if i + 1 in s then PatchedTest(code[i], reg)
    else code[i]
  }

  function Patched(code: Code, s: set<int>, vtarget: int, reg: int, dtarget: int): (code': Code)
    ensures |code'| == |code|
    ensures forall i :: 0 <= i < |code| ==> code'[i] == PatchedAt(code, s, vtarget, reg, dtarget, i)
  {
    seq(|code|, i requires 0 <= i < |code| => PatchedAt(code, s, vtarget, reg, dtarget, i))
  }

  /** Jumps patched to the end of the code. */
  function PatchedHere(p: Program, s: set<int>, reg: int): Program {
    p.(code := Patched(p.code, s, |p.code|, reg, |p.code|), open := p.open - s, last := |p.code|)
  }

  lemma PatchedReady(p: Program, s: set<int>, reg: int)
    requires Ready(p) && s <= p.open && p.last <= |p.code|
    ensures Ready(PatchedHere(p, s, reg)) && Grows(p, PatchedHere(p, s, reg))
  {
    var p' := PatchedHere(p, s, reg);
    forall n | 0 <= n < |p.code| ensures InstrExtends(p.code, p.open, p'.code, n) { }
    if |p.code| > 0 { assert InstrOk(p.code, p.open, p.last, |p.code| - 1); }
    forall n | 0 <= n < |p.code| ensures InstrOk(p'.code, p'.open, p'.last, n) {
      assert InstrOk(p.code, p.open, p.last, n);
    }
  }

  lemma PatchedRuns(w: World, p: Program, s: set<int>, reg: int, r: Regs)
    requires Ready(p) && s <= p.open && p.last <= |p.code|
    ensures Ready(PatchedHere(p, s, reg))
    ensures Run(w, PatchedHere(p, s, reg), r) ==
      match Run(w, p, r)
      case End(r') => End(r')
      case Leave(j, r') =>
        if j !in s then Leave(j, r')
        else End(if 0 < j <= |p.code| then Kept(PatchedTest(p.code[j - 1], reg), r') else r')
  {
    var p', n := PatchedHere(p, s, reg), |p.code|;
    PatchedReady(p, s, reg);
    RunGrows(w, p, p', r);
    var o := Run(w, p, r);
    AtEnd(w, p', n, o.r);
    if o.Leave? && o.j in s {
      var j, r' := o.j, o.r;
      assert InstrOk(p'.code, p'.open, p'.last, j) && Target(p'.code, j) == n;
      AtEnd(w, p', n, if j > 0 then Kept(p'.code[j - 1], r') else r');
      if j > 0 && j - 1 in s { assert p.code[j - 1].Jmp?; }
    }
  }

  /** `removevalues`: the tests of these jumps keep no value. */
  function Untested(code: Code, s: set<int>): (code': Code)
    ensures |code'| == |code|
    ensures forall i :: 0 <= i < |code| ==> code'[i] == if i + 1 in s then PatchedTest(code[i], NO_REG) else code[i]
  {
    seq(|code|, i requires 0 <= i < |code| => if i + 1 in s then PatchedTest(code[i], NO_REG) else code[i])
  }

  lemma UntestedRuns(w: World, p: Program, s: set<int>, r: Regs)
    requires Ready(p) && s <= p.open
    ensures var p' := p.(code := Untested(p.code, s)); Ready(p') && Run(w, p', r) == Run(w, p, r)
  {
    var p' := p.(code := Untested(p.code, s));
    forall n | 0 <= n < |p.code|
      ensures InstrOk(p'.code, p'.open, p'.last, n) && InstrExtends(p.code, p.open, p'.code, n)
    {
      assert InstrOk(p.code, p.open, p.last, n);
      if p.code[n].Jmp? && n !in p.open {
        var t := Target(p.code, n);
        assert t > 0 ==> IsTest(p'.code[t - 1]) == IsTest(p.code[t - 1]);
      }
    }
    RunGrows(w, p, p', r);
  }
}
