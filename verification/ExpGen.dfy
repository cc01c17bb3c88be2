/**
 The part of the code generator (lcode.c) that deals with expressions: constants, variables, `not`, `and`,
 `or` and comparisons. Values stay where they are, and conditions stay jumps, until they are needed.
 */
module ExpGen {
  import opened ExpCode
  import opened ExpMeaning

  const MAXARG_C := 255
  const MAXINDEXRK := 255
  const OFFSET_sC := 127
  const MAXARG_Bx := 0x1_FFFF
  const OFFSET_sBx := 0xFFFF

  predicate FitsC(i: int) { 0 <= i + OFFSET_sC <= MAXARG_C }

  predicate FitsBx(i: int) { -OFFSET_sBx <= i <= MAXARG_Bx - OFFSET_sBx }

  predicate HasJumps(e: ExpDesc) { e.t != e.f }

  /** An integer literal that fits in an instruction. */
  predicate IsSCNumber(e: ExpDesc) { e.k.KInt? && !HasJumps(e) && FitsC(e.k.i) }

  function IndexOf(ks: seq<Value>, v: Value): (i: nat)
    requires v in ks
    ensures i < |ks| && ks[i] == v
  {
    if ks[0] == v then 0 else 1 + IndexOf(ks[1..], v)
  }

  class FuncState {
    var code: Code
    var ks: seq<Value>
    var freereg: nat
    var lasttarget: nat
    var nvars: nat

    /** What the program is so far, with the jumps that are open. */
    ghost function Current(open: set<int>): Program
      reads `code, `ks, `lasttarget
    {
      Program(ks, code, open, lasttarget)
    }

    ghost predicate Descr(cx: Context, e: ExpDesc, l: Lists)
      reads `code, `ks, `lasttarget
    {
      Meaning(cx, ks, code, lasttarget, e, l)
    }

    /** Registers in use: the variables, and the expression's own if it has one. */
    predicate RegsOk(base: nat, e: ExpDesc)
      reads `freereg, `nvars
    {
      && nvars <= base && (e.k.VLocal? ==> e.k.ridx < nvars)
      && if e.k.NonReloc? && e.k.reg >= nvars then e.k.reg == base && freereg == base + 1 else freereg == base
    }

    constructor (nvars: nat)
      ensures Fresh(Current({})) && freereg == this.nvars == nvars && code == []
    {
      code, ks, freereg, lasttarget := [], [], nvars, 0;
      this.nvars := nvars;
    }

    // ----- emitting -----

    method Emit(i: Instr) returns (pc: nat)
      modifies `code
      ensures code == old(code) + [i] && pc == |old(code)|
    {
      code := code + [i];
      pc := |code| - 1;
    }

    method GetLabel() returns (pc: nat)
      modifies `lasttarget
      ensures lasttarget == |code| == pc
    {
      lasttarget := |code|;
      pc := |code|;
    }

    /** `condjump` */
    method CondJump(i: Instr) returns (pc: nat)
      modifies `code
      ensures code == old(code) + [i, Jmp(NO_JUMP)] && pc == |old(code)| + 1
    {
      var _ := Emit(i);
      pc := Emit(Jmp(NO_JUMP));
    }

    method AddK(v: Value) returns (i: nat)
      modifies `ks
      ensures old(ks) <= ks && i < |ks| && ks[i] == v
    {
      if v in ks {
        i := IndexOf(ks, v);
      } else {
        ks := ks + [v];
        i := |ks| - 1;
      }
    }

    // ----- jump lists -----

    method FixJump(pc: nat, dest: int)
      requires pc < |code| && code[pc].Jmp?
      modifies `code
      ensures code == old(code)[pc := JumpTo(pc, dest)]
    {
      code := code[pc := Jmp(dest - (pc + 1))];
    }

    /** `luaK_concat`: the last jump of the first list is linked to the second. */
    method Concat(l1: int, l2: int, ghost s1: seq<nat>, ghost s2: seq<nat>) returns (head: int)
      requires IsList(code, l1, s1) && IsList(code, l2, s2) && Distinct(s1 + s2)
      modifies `code
      ensures IsList(code, head, s1 + s2) && Relinked(old(code), Elems(s1), code)
    {
      if l2 == NO_JUMP {
        assert s2 == [] && s1 + s2 == s1;
        head := l1;
      } else if l1 == NO_JUMP {
        assert s1 == [] && s1 + s2 == s2;
        head := l2;
      } else {
        var list: nat := l1;
        ghost var i := 0;
        ListElems(code, l1, s1);
        var next := GetJump(code, list);
        while next != NO_JUMP
          invariant code == old(code) && i < |s1| && list == s1[i] && list < |code| && code[list].Jmp?
          invariant next == GetJump(code, list) && IsList(code, next, s1[i + 1..])
          decreases |s1| - i
        {
          list := next;
          i := i + 1;
          next := GetJump(code, list);
        }
        assert i == |s1| - 1;
        LinkedLists(code, l1, s1, l2, s2);
        FixJump(list, l2);
        head := l1;
      }
    }

    /** `getjumpcontrol`: the test of a jump, or the jump itself. */
    function GetJumpControl(pc: nat): (c: nat)
      requires pc < |code|
      ensures c <= pc && (pc > 0 && IsTest(code[pc - 1]) ==> c == pc - 1)
      ensures (c != pc ==> c == pc - 1 && IsTest(code[c]))
      reads `code
    {
      if pc >= 1 && IsTest(code[pc - 1]) then pc - 1 else pc
    }

    /** `patchtestreg` */
    method PatchTestReg(node: nat, reg: int) returns (ok: bool)
      requires node < |code| && code[node].Jmp?
      modifies `code
      ensures ok <==> node > 0 && old(code)[node - 1].TestSet?
      ensures code == if node > 0 then old(code)[node - 1 := PatchedTest(old(code)[node - 1], reg)] else old(code)
    {
      var c := GetJumpControl(node);
      var i := code[c];
      if !i.TestSet? {
        assert node > 0 ==> code[node - 1 := PatchedTest(code[node - 1], reg)] == code;
        return false;
      }
      if reg != NO_REG && reg != i.b {
        code := code[c := TestSet(reg, i.b, i.k)];
      } else {
        code := code[c := Instr.Test(i.b, i.k)];
      }
      return true;
    }

    /** `removevalues` */
    method RemoveValues(head: int, ghost s: seq<nat>)
      requires IsList(code, head, s) && forall j :: j in s ==> 0 < j
      modifies `code
      ensures code == Untested(old(code), Elems(s))
    {
      hide IsList, Elems, Untested;
      var list := head;
      ghost var i := 0;
      ListElems(code, head, s);
      NoneUntested(code);
      while list != NO_JUMP
        invariant |code| == |old(code)| && i <= |s| && IsList(old(code), list, s[i..])
        invariant code == Untested(old(code), Elems(s[..i]))
        decreases |s| - i
      {
        ListHead(old(code), list, s, i);
        UntestOne(old(code), code, s, i);
        var _ := PatchTestReg(list, NO_REG);
        list := GetJump(code, list);
        i := i + 1;
      }
      NoMore(old(code), s, i);
    }

    /** `patchlistaux` */
    method PatchListAux(head: int, vtarget: int, reg: int, dtarget: int, ghost s: seq<nat>)
      requires IsList(code, head, s) && Distinct(s) && forall j :: j in s ==> 0 < j
      modifies `code
      ensures code == Patched(old(code), Elems(s), vtarget, reg, dtarget)
    {
      var list := head;
      ghost var i := 0;
      ListElems(code, head, s);
      while list != NO_JUMP
        invariant |code| == |old(code)| && i <= |s| && IsList(old(code), list, s[i..])
        invariant forall n :: 0 <= n < |code| ==>
          code[n] == PatchedAt(old(code), Elems(s[..i]), vtarget, reg, dtarget, n)
        decreases |s| - i
      {
        ghost var c := code;
        assert s[i..][0] == s[i] && s[i..][1..] == s[i + 1..] && s[i] in s;
        assert s[..i + 1] == s[..i] + [s[i]];
        PatchSoFar(old(code), code, s, i, vtarget, reg, dtarget);
        var next := GetJump(code, list);
        var ok := PatchTestReg(list, reg);
        FixJump(list, if ok then vtarget else dtarget);
        PatchOne(old(code), c, code, s, i, vtarget, reg, dtarget);
        list := next;
        i := i + 1;
      }
      assert s[..i] == s;
    }

    /** `need_value` */
    method NeedValue(head: int, ghost s: seq<nat>) returns (b: bool)
      requires IsList(code, head, s)
      ensures b == NeedsValue(code, s)
    {
      var list := head;
      ghost var i := 0;
      ListElems(code, head, s);
      while list != NO_JUMP
        invariant i <= |s| && IsList(code, list, s[i..]) && !NeedsValue(code, s[..i])
        decreases |s| - i
      {
        assert s[i..][0] == s[i] && s[i..][1..] == s[i + 1..] && s[i] in s;
        assert s[..i + 1] == s[..i] + [s[i]];
        if !code[GetJumpControl(list)].TestSet? {
          assert s[i] in s;
          return true;
        }
        list := GetJump(code, list);
        i := i + 1;
      }
      assert s[..i] == s;
      return false;
    }

    // ----- registers -----

    method ReserveRegs(n: nat)
      modifies `freereg
      ensures freereg == old(freereg) + n
    {
      freereg := freereg + n;
    }

    /** `freereg`: a register in use is the last one. */
    method FreeReg(reg: int)
      requires reg >= nvars ==> reg == freereg - 1
      modifies `freereg
      ensures freereg == if reg >= nvars then old(freereg) - 1 else old(freereg)
    {
      if reg >= nvars {
        freereg := freereg - 1;
        assert reg == freereg;
      }
    }

    method FreeExp(e: ExpDesc)
      requires e.k.NonReloc? && e.k.reg >= nvars ==> e.k.reg == freereg - 1
      modifies `freereg
      ensures freereg == if e.k.NonReloc? && e.k.reg >= nvars then old(freereg) - 1 else old(freereg)
    {
      if e.k.NonReloc? {
        FreeReg(e.k.reg);
      }
    }

    // ----- discharging -----

    /** `luaK_dischargevars` */
    method DischargeVars(e: ExpDesc, ghost cx: Context, ghost l: Lists) returns (e': ExpDesc)
      requires Descr(cx, e, l)
      modifies `code
      ensures Descr(cx, e', l) && e'.t == e.t && e'.f == e.f && !e'.k.VLocal? && !e'.k.VUpval?
      ensures if e.k.VLocal? then e'.k == NonReloc(e.k.ridx) else if e.k.VUpval? then e'.k.Reloc? else e' == e
      ensures !e.k.VUpval? ==> code == old(code)
    {
      match e.k {
        case VLocal(r) =>
          SameKind(cx, ks, code, lasttarget, e, l, code, NonReloc(r));
          e' := e.(k := NonReloc(r));
        case VUpval(i) =>
          SameKind(cx, ks, code, lasttarget, e, l, code + [GetUpval(0, i)], Reloc(|code|));
          var pc := Emit(GetUpval(0, i));
          e' := e.(k := Reloc(pc));
        case _ =>
          e' := e;
      }
    }

    /** `luaK_nil` for one register, joining the previous instruction if that loads nils next to it. */
    method LoadNilReg(from: nat, ghost cx: Context, ghost e: ExpDesc, ghost l: Lists)
      requires Descr(cx, e, l) && e.k.KNil? && (from >= cx.base || from == cx.dst)
      modifies `code
      ensures Descr(cx, e.(k := NonReloc(from)), l)
    {
      if |code| > lasttarget && |code| > 0 && code[|code| - 1].LoadNil? && code[|code| - 1].a >= 0 {
        var pfrom := code[|code| - 1].a;
        var pl := pfrom + code[|code| - 1].n;
        if (pfrom <= from && from <= pl + 1) || (from <= pfrom && pfrom <= from + 1) {
          var first := if pfrom < from then pfrom else from;
          var last := if pl > from then pl else from;
          NilMeans(cx, ks, code, lasttarget, e, l, from, first, last - first);
          code := code[|code| - 1 := LoadNil(first, last - first)];
          return;
        }
      }
      Loaded(cx, ks, code, lasttarget, e, l, from, LoadNil(from, 0));
      var _ := Emit(LoadNil(from, 0));
    }

    /** `luaK_codek` */
    method CodeK(reg: nat, info: nat, ghost cx: Context, ghost e: ExpDesc, ghost l: Lists)
      requires Descr(cx, e, l) && e.k == K(info) && (reg >= cx.base || reg == cx.dst)
      modifies `code
      ensures Descr(cx, e.(k := NonReloc(reg)), l)
    {
      if info <= MAXARG_Bx {
        Loaded(cx, ks, code, lasttarget, e, l, reg, LoadK(reg, info));
        var _ := Emit(LoadK(reg, info));
      } else {
        LoadedFar(cx, ks, code, lasttarget, e, l, reg, info);
        var _ := Emit(LoadKX(reg));
        var _ := Emit(ExtraArg(info));
        assert code == old(code) + [LoadKX(reg), ExtraArg(info)];
      }
    }

    /** A constant gets an index. */
    method Constant(v: Value, e: ExpDesc, ghost cx: Context, ghost l: Lists) returns (info: nat)
      requires Descr(cx, e, l) && !e.k.Jump? && !e.k.Reloc? && forall r :: Main(cx.w, ks, code, e.k, r) == v
      modifies `ks
      ensures old(ks) <= ks && info < |ks| && ks[info] == v
      ensures Descr(cx, e, l) && Descr(cx, e.(k := K(info)), l)
    {
      info := AddK(v);
      MoreConstants(cx, old(ks), code, lasttarget, e, l, ks);
      SameMain(cx.w, old(ks), ks, code, e.k);
      SameKind(cx, ks, code, lasttarget, e, l, code, K(info));
    }

    /** `discharge2reg` */
    method Discharge2Reg(e: ExpDesc, reg: nat, ghost cx: Context, ghost l: Lists) returns (e': ExpDesc)
      requires Descr(cx, e, l) && (reg >= cx.base || reg == cx.dst)
      modifies `code, `ks
      ensures old(ks) <= ks
      ensures Descr(cx, e', l) && e'.t == e.t && e'.f == e.f
      ensures e'.k == if e.k.Jump? then e.k else NonReloc(reg)
    {
      hide Meaning, Main;
      var d := DischargeVars(e, cx, l);
      e' := d.(k := NonReloc(reg));
      match d.k {
        case KNil =>
          LoadNilReg(reg, cx, d, l);
        case KFalse =>
          Load(d, reg, LoadFalse(reg), cx, l);
        case KTrue =>
          Load(d, reg, LoadTrue(reg), cx, l);
        case KStr(s) =>
          ConstantMain(cx.w, ks, code, d.k, Str(s));
          var info := Constant(Str(s), d, cx, l);
          CodeK(reg, info, cx, d.(k := K(info)), l);
        case K(info) =>
          CodeK(reg, info, cx, d, l);
        case KInt(i) =>
          if FitsBx(i) {
            Load(d, reg, LoadI(reg, i), cx, l);
          } else {
            ConstantMain(cx.w, ks, code, d.k, Int(i));
            var info := Constant(Int(i), d, cx, l);
            CodeK(reg, info, cx, d.(k := K(info)), l);
          }
        case Reloc(pc) =>
          RelocLoads(cx, ks, code, lasttarget, d, l, reg);
          code := code[pc := SetArgA(code[pc], reg)];
        case NonReloc(r) =>
          if reg != r {
            Load(d, reg, Move(reg, r), cx, l);
          } else {
            e' := d;
          }
        case Jump(_) =>
          e' := d;
      }
    }

    /** Emits the instruction that loads a main value. */
    method Load(e: ExpDesc, reg: nat, i: Instr, ghost cx: Context, ghost l: Lists)
      requires Descr(cx, e, l) && !e.k.Jump? && !e.k.Reloc? && (reg >= cx.base || reg == cx.dst)
      requires (e.k.KFalse? && i == LoadFalse(reg)) || (e.k.KTrue? && i == LoadTrue(reg))
            || (e.k.KInt? && i == LoadI(reg, e.k.i) && Encodable(i)) || (e.k.NonReloc? && i == Move(reg, e.k.reg))
      modifies `code
      ensures Descr(cx, e.(k := NonReloc(reg)), l)
    {
      Decoded(i);
      Loaded(cx, ks, code, lasttarget, e, l, reg, i);
      var _ := Emit(i);
    }

    /** `discharge2anyreg` */
    method Discharge2AnyReg(e: ExpDesc, ghost cx: Context, ghost l: Lists) returns (e': ExpDesc)
      requires Descr(cx, e, l) && RegsOk(cx.base, e) && !e.k.Jump?
      modifies `code, `ks, `freereg
      ensures old(ks) <= ks
      ensures Descr(cx, e', l) && e'.t == e.t && e'.f == e.f && e'.k.NonReloc? && RegsOk(cx.base, e')
    {
      hide Meaning;
      if e.k.NonReloc? {
        e' := e;
      } else {
        ReserveRegs(1);
        e' := Discharge2Reg(e, freereg - 1, cx, l);
      }
    }

    /** `exp2reg`: the value ends up in the register, whichever way execution takes. */
    method Exp2Reg(e: ExpDesc, reg: nat, ghost cx: Context, ghost l: Lists) returns (e': ExpDesc)
      requires Descr(cx, e, l) && (reg >= cx.base || reg == cx.dst)
      modifies `code, `ks, `lasttarget
      ensures old(ks) <= ks
      ensures e' == ExpDesc(NonReloc(reg), NO_JUMP, NO_JUMP) && Descr(cx, e', Lists([], []))
    {
      hide Meaning, Finished, Close, Distinct, Booleans;
      e' := Discharge2Reg(e, reg, cx, l);
      ListsAre(cx, ks, code, lasttarget, e', l);
      if e'.k.Jump? {
        e' := JumpToList(e', cx, l);
        LoadBooleans(e', reg, false, cx, Listed(l, false, e.k.pc));
      } else if HasJumps(e') {
        var vt := NeedValue(e'.t, l.ts);
        var vf := NeedValue(e'.f, l.fs);
        if vt || vf {
          LoadBooleans(e', reg, true, cx, l);
        } else {
          FinishMeans(cx, ks, code, lasttarget, e', l, reg, NO_JUMP, NO_JUMP);
          var final := GetLabel();
          FinishLists(e', final, reg, NO_JUMP, NO_JUMP, l);
        }
      } else {
        NoLists(code, e', l);
      }
      e' := ExpDesc(NonReloc(reg), NO_JUMP, NO_JUMP);
    }

    /** An expression that is a test puts its jump into the list of true exits. */
    method JumpToList(e: ExpDesc, ghost cx: Context, ghost l: Lists) returns (e': ExpDesc)
      requires Descr(cx, e, l) && e.k.Jump?
      modifies `code
      ensures e'.k.KFalse? && Descr(cx, e', Listed(l, false, e.k.pc))
    {
      LastJump(cx, ks, code, lasttarget, e, l);
      var t := Concat(e.t, e.k.pc, l.ts, [e.k.pc]);
      OtherList(old(code), code, e.t, e.f, l.ts, l.fs);
      RelinkedMore(old(code), Elems(l.ts), code, Own(e, l));
      JumpAsFalse(cx, ks, old(code), lasttarget, e, l, code, t, e.f);
      e' := ExpDesc(KFalse, t, e.f);
    }

    /** The instructions that load the booleans, and all jumps patched. */
    method LoadBooleans(e: ExpDesc, reg: nat, skip: bool, ghost cx: Context, ghost l: Lists)
      requires Descr(cx, e, l) && e.k == (if skip then NonReloc(reg) else KFalse) && (reg >= cx.base || reg == cx.dst)
      modifies `code, `lasttarget
      ensures Descr(cx, ExpDesc(NonReloc(reg), NO_JUMP, NO_JUMP), Lists([], []))
    {
      hide Meaning, Finished, IsList, Distinct, Elems;
      CloseMeans(cx, ks, code, lasttarget, e, l, skip, reg);
      ListsAre(cx, ks, code, lasttarget, e, l);
      var fj := NO_JUMP;
      if skip {
        fj := Emit(Jmp(NO_JUMP));
      }
      var _ := GetLabel();
      var pf := Emit(LFalseSkip(reg));
      var _ := GetLabel();
      var pt := Emit(LoadTrue(reg));
      var final := GetLabel();
      if fj != NO_JUMP {
        FixJump(fj, final);
      }
      assert code == old(code) + Booleans(skip, reg);
      ListStays(old(code), code, e.t, l.ts);
      ListStays(old(code), code, e.f, l.fs);
      FinishLists(e, final, reg, pf, pt, l);
    }

    /** Patches both lists. */
    method FinishLists(e: ExpDesc, final: int, reg: nat, pf: int, pt: int, ghost l: Lists)
      requires IsList(code, e.t, l.ts) && IsList(code, e.f, l.fs) && Distinct(l.ts + l.fs)
      requires forall j :: j in l.ts || j in l.fs ==> 0 < j
      modifies `code
      ensures code == Finished(old(code), l, reg, final, pf, pt)
    {
      SplitDistinct(l.ts, l.fs);
      ListElems(code, e.t, l.ts);
      ListElems(code, e.f, l.fs);
      PatchListAux(e.f, final, reg, pf, l.fs);
      assert forall j :: j in l.ts ==> code[j] == old(code)[j] by {
        forall j | j in l.ts ensures code[j] == old(code)[j] {
          assert j as int in Elems(l.ts) && !old(code)[j].TestSet?;
        }
      }
      ListStays(old(code), code, e.t, l.ts);
      PatchListAux(e.t, final, reg, pt, l.ts);
    }

    /** `luaK_exp2nextreg` */
    method Exp2NextReg(e: ExpDesc, ghost cx: Context, ghost l: Lists) returns (e': ExpDesc)
      requires Descr(cx, e, l) && RegsOk(cx.base, e)
      modifies `code, `ks, `freereg, `lasttarget
      ensures old(ks) <= ks
      ensures e' == ExpDesc(NonReloc(cx.base), NO_JUMP, NO_JUMP) && Descr(cx, e', Lists([], []))
      ensures freereg == cx.base + 1
    {
      hide Meaning;
      var d := DischargeVars(e, cx, l);
      FreeExp(d);
      ReserveRegs(1);
      e' := Exp2Reg(d, freereg - 1, cx, l);
    }

    /** `luaK_exp2anyreg` */
    method Exp2AnyReg(e: ExpDesc, ghost cx: Context, ghost l: Lists) returns (e': ExpDesc)
      requires Descr(cx, e, l) && RegsOk(cx.base, e)
      modifies `code, `ks, `freereg, `lasttarget
      ensures old(ks) <= ks
      ensures e'.k.NonReloc? && e'.t == e'.f == NO_JUMP && Descr(cx, e', Lists([], [])) && RegsOk(cx.base, e')
    {
      hide Meaning;
      var d := DischargeVars(e, cx, l);
      if d.k.NonReloc? {
        if !HasJumps(d) {
          ListsAre(cx, ks, code, lasttarget, d, l);
          NoLists(code, d, l);
          return d;
        }
        if d.k.reg >= nvars {
          e' := Exp2Reg(d, d.k.reg, cx, l);
          return;
        }
      }
      e' := Exp2NextReg(d, cx, l);
    }

    // ----- conditions -----

    /** `negatecondition` */
    method NegateCondition(e: ExpDesc)
      requires e.k.Jump? && 0 < e.k.pc < |code| && code[e.k.pc].Jmp?
      requires var i := code[e.k.pc - 1]; i.Compare2? || i.CompareI? || i.CompareK?
      modifies `code
      ensures code == old(code)[e.k.pc - 1 := Negated(old(code)[e.k.pc - 1])]
    {
      var c := GetJumpControl(e.k.pc);
      code := code[c := Negated(code[c])];
    }

    /**
     `jumponcond`: a test with a jump that is taken if the value counts as `cond`. A `not` in front of the
     value is taken back. `mid` and `d` are the code and the descriptor before the test.
     */
    method JumpOnCond(e: ExpDesc, cond: bool, ghost cx: Context, ghost l: Lists)
      returns (pc: nat, ghost mid: Code, ghost d: ExpDesc, ghost i: Instr)
      requires Descr(cx, e, l) && RegsOk(cx.base, e) && !e.k.Jump? && !e.k.VLocal? && !e.k.VUpval?
      modifies `code, `ks, `freereg
      ensures old(ks) <= ks
      ensures Meaning(cx, ks, mid, lasttarget, d, l) && !d.k.Jump? && d.t == e.t && d.f == e.f
      ensures Tests(cx.w, ks, mid, d.k, !cond, i) && code == Body(mid, d.k) + [i, Jmp(NO_JUMP)]
      ensures pc == |Body(mid, d.k)| + 1
      ensures freereg == cx.base
    {
      if e.k.Reloc? {
        RelocIsLast(cx, ks, code, lasttarget, e, l);
        var ie := code[e.k.pc];
        if ie.Not? {
          mid, d, i := code, e, Instr.Test(ie.b, !cond);
          code := code[..|code| - 1];
          pc := CondJump(Instr.Test(ie.b, !cond));
          return;
        }
      }
      var e1 := Discharge2AnyReg(e, cx, l);
      FreeExp(e1);
      mid, d, i := code, e1, TestSet(NO_REG, e1.k.reg, cond);
      pc := CondJump(TestSet(NO_REG, e1.k.reg, cond));
    }

    /** `luaK_goiftrue`, `luaK_goiffalse`: go through if the value counts as `b`, jump otherwise. */
    method GoIf(b: bool, e: ExpDesc, ghost cx: Context, ghost l: Lists) returns (e': ExpDesc, ghost l': Lists)
      requires Descr(cx, e, l) && RegsOk(cx.base, e) && !e.k.K?
      modifies `code, `ks, `freereg, `lasttarget
      ensures Forks(cx, ks, code, lasttarget, b, e'.t, e'.f, l') && freereg == cx.base && old(ks) <= ks
      ensures if b then e'.t == NO_JUMP && l'.ts == [] else e'.f == NO_JUMP && l'.fs == []
    {
      hide Meaning, Forks, Tests, Patched, Distinct;
      var d := DischargeVars(e, cx, l);
      ghost var all;
      if d.k.Jump? {
        d, all := GoIfJump(b, d, cx, l);
      } else if if b then d.k.K? || d.k.KInt? || d.k.KStr? || d.k.KTrue? else d.k.KNil? || d.k.KFalse? {
        ForkConst(cx, ks, code, lasttarget, d, l, b);
        all := l;
      } else {
        d, all := GoIfTest(b, d, cx, l);
      }
      GoesThrough(cx, ks, code, lasttarget, b, d.t, d.f, all);
      ForkLists(cx, ks, code, lasttarget, b, d.t, d.f, all);
      l' := Others(b, all);
      var here := GetLabel();
      PatchListAux(if b then d.t else d.f, here, NO_REG, here, if b then all.ts else all.fs);
      e' := if b then d.(t := NO_JUMP) else d.(f := NO_JUMP);
    }

    method GoIfJump(b: bool, e: ExpDesc, ghost cx: Context, ghost l: Lists) returns (e': ExpDesc, ghost l': Lists)
      requires Descr(cx, e, l) && e.k.Jump?
      modifies `code
      ensures Forks(cx, ks, code, lasttarget, b, e'.t, e'.f, l')
    {
      LastJump(cx, ks, code, lasttarget, e, l);
      l' := Listed(l, b, e.k.pc);
      if b {
        NegateCondition(e);
        ListStays(old(code), code, e.t, l.ts);
        ListStays(old(code), code, e.f, l.fs);
        ghost var flipped := code;
        assert IsList(code, e.k.pc, [e.k.pc]) by { assert [e.k.pc][1..] == []; }
        var f := Concat(e.f, e.k.pc, l.fs, [e.k.pc]);
        SwapDistinct(l.ts, l.fs);
        OtherList(flipped, code, e.f, e.t, l.fs, l.ts);
        RelinkedMore(flipped, Elems(l.fs), code, Own(e, l));
        ForkNegated(cx, ks, old(code), lasttarget, e, l, code, e.t, f);
        e' := e.(f := f);
      } else {
        var t := Concat(e.t, e.k.pc, l.ts, [e.k.pc]);
        OtherList(old(code), code, e.t, e.f, l.ts, l.fs);
        RelinkedMore(old(code), Elems(l.ts), code, Own(e, l));
        ForkJump(cx, ks, old(code), lasttarget, e, l, code, t, e.f);
        e' := e.(t := t);
      }
    }

    method GoIfTest(b: bool, e: ExpDesc, ghost cx: Context, ghost l: Lists) returns (e': ExpDesc, ghost l': Lists)
      requires Descr(cx, e, l) && RegsOk(cx.base, e) && !e.k.Jump? && !e.k.VLocal? && !e.k.VUpval?
      modifies `code, `ks, `freereg
      ensures old(ks) <= ks
      ensures Forks(cx, ks, code, lasttarget, b, e'.t, e'.f, l') && freereg == cx.base
    {
      hide Meaning, Tests;
      ghost var mid, d, i;
      var pc;
      pc, mid, d, i := JumpOnCond(e, !b, cx, l);
      l' := Listed(l, b, pc);
      ghost var longer := code;
      TestLists(cx, ks, mid, lasttarget, d, l, i);
      if b {
        var f := Concat(e.f, pc, l.fs, [pc]);
        SwapDistinct(l.ts, l.fs);
        OtherList(longer, code, e.f, e.t, l.fs, l.ts);
        RelinkedMore(longer, Elems(l.fs), code, Own(d, l) + {pc});
        ForkTest(cx, ks, mid, lasttarget, d, l, b, i, code, e.t, f);
        e' := e.(f := f);
      } else {
        var t := Concat(e.t, pc, l.ts, [pc]);
        OtherList(longer, code, e.t, e.f, l.ts, l.fs);
        RelinkedMore(longer, Elems(l.ts), code, Own(d, l) + {pc});
        ForkTest(cx, ks, mid, lasttarget, d, l, b, i, code, t, e.f);
        e' := e.(t := t);
      }
    }

    // ----- `not` -----

    /** `codenot` */
    method CodeNot(e: ExpDesc, ghost cx: Context, ghost x: Exp, ghost l: Lists) returns (e': ExpDesc, ghost l': Lists)
      requires cx.x == Negation(x) && Meaning(cx.(x := x), ks, code, lasttarget, e, l) && RegsOk(cx.base, e)
      requires !e.k.VLocal? && !e.k.VUpval? && !e.k.K?
      modifies `code, `ks, `freereg
      ensures Descr(cx, e', l') && RegsOk(cx.base, e') && !e'.k.K? && old(ks) <= ks
    {
      hide Meaning, Distinct;
      l' := Swapped(l);
      match e.k {
        case KNil =>
          e' := NegateConstant(e, KTrue, cx, x, l);
        case KFalse =>
          e' := NegateConstant(e, KTrue, cx, x, l);
        case KInt(_) =>
          e' := NegateConstant(e, KFalse, cx, x, l);
        case KStr(_) =>
          e' := NegateConstant(e, KFalse, cx, x, l);
        case KTrue =>
          e' := NegateConstant(e, KFalse, cx, x, l);
        case Jump(pc) =>
          e' := NegateJump(e, cx, x, l);
        case Reloc(_) =>
          e' := NegateValue(e, cx, x, l);
        case NonReloc(_) =>
          e' := NegateValue(e, cx, x, l);
      }
    }

    /** The value of an expression is negated by an instruction. */
    method NegateValue(e: ExpDesc, ghost cx: Context, ghost x: Exp, ghost l: Lists) returns (e': ExpDesc)
      requires cx.x == Negation(x) && Meaning(cx.(x := x), ks, code, lasttarget, e, l) && RegsOk(cx.base, e)
      requires e.k.Reloc? || e.k.NonReloc?
      modifies `code, `ks, `freereg
      ensures Descr(cx, e', Swapped(l)) && e'.k.Reloc? && freereg == cx.base && old(ks) <= ks
    {
      hide Meaning, Distinct;
      var d := Discharge2AnyReg(e, cx.(x := x), l);
      FreeExp(d);
      NotNegates(cx.w, ks, code, d.k.reg);
      NotMeans(cx, x, ks, code, lasttarget, d, l, code + [Not(0, d.k.reg)], Reloc(|code|));
      ListsAre(cx.(x := x), ks, code, lasttarget, d, l);
      ghost var before := code;
      var pc := Emit(Not(0, d.k.reg));
      ListStays(before, code, d.t, l.ts);
      ListStays(before, code, d.f, l.fs);
      e' := ExpDesc(Reloc(pc), d.f, d.t);
      RemoveBoth(e', l);
    }

    /** A condition has its comparison negated. */
    method NegateJump(e: ExpDesc, ghost cx: Context, ghost x: Exp, ghost l: Lists) returns (e': ExpDesc)
      requires cx.x == Negation(x) && Meaning(cx.(x := x), ks, code, lasttarget, e, l) && e.k.Jump?
      modifies `code
      ensures e' == ExpDesc(e.k, e.f, e.t) && Descr(cx, e', Swapped(l))
    {
      hide Meaning, Distinct, Elems;
      JumpIsLast(cx.(x := x), ks, code, lasttarget, e, l);
      NotJumpMeans(cx, x, ks, code, lasttarget, e, l);
      ListsAre(cx.(x := x), ks, code, lasttarget, e, l);
      ListElems(code, e.t, l.ts);
      ListElems(code, e.f, l.fs);
      NegateCondition(e);
      ListStays(old(code), code, e.t, l.ts);
      ListStays(old(code), code, e.f, l.fs);
      e' := ExpDesc(e.k, e.f, e.t);
      RemoveBoth(e', l);
    }

    /** A constant is negated at once. */
    method NegateConstant(e: ExpDesc, k: Kind, ghost cx: Context, ghost x: Exp, ghost l: Lists) returns (e': ExpDesc)
      requires cx.x == Negation(x) && Meaning(cx.(x := x), ks, code, lasttarget, e, l)
      requires if k.KTrue? then e.k.KNil? || e.k.KFalse? else k.KFalse? && (e.k.KInt? || e.k.KStr? || e.k.KTrue?)
      modifies `code
      ensures e' == ExpDesc(k, e.f, e.t) && Descr(cx, e', Swapped(l))
    {
      NotMeans(cx, x, ks, code, lasttarget, e, l, code, k);
      e' := ExpDesc(k, e.f, e.t);
      RemoveBoth(e', l);
    }

    /** Values are useless when negated. */
    method RemoveBoth(e: ExpDesc, ghost l: Lists)
      requires IsList(code, e.t, l.fs) && IsList(code, e.f, l.ts) && Distinct(l.ts + l.fs)
      requires forall j :: j in l.ts || j in l.fs ==> 0 < j
      modifies `code
      ensures code == Untested(old(code), ListOwn(l))
    {
      SplitDistinct(l.ts, l.fs);
      ListElems(code, e.t, l.fs);
      ListElems(code, e.f, l.ts);
      RemoveValues(e.f, l.ts);
      forall j | j in l.fs ensures code[j] == old(code)[j] { assert !old(code)[j].TestSet?; }
      ListStays(old(code), code, e.t, l.fs);
      RemoveValues(e.t, l.fs);
      assert forall i: int :: i in ListOwn(l) <==> i in Elems(l.ts) || i in Elems(l.fs);
    }

    // ----- comparisons -----

    ghost predicate BothNow(cx: Context, a: Exp, ka: Kind, b: Exp, kb: Kind)
      reads `code, `ks, `lasttarget
    {
      Both(cx, Current(cx.before.open), a, ka, b, kb)
    }

    /** `luaK_exp2K`: constants with small indices can be operands. */
    method Exp2K(e: ExpDesc, ghost cx: Context, ghost l: Lists) returns (ok: bool, e': ExpDesc)
      requires Descr(cx, e, l)
      modifies `ks
      ensures old(ks) <= ks && Descr(cx, e', l)
      ensures ok ==> e'.k.K? && e'.k.info <= MAXINDEXRK && l == Lists([], []) && e'.t == e'.f == NO_JUMP
      ensures if ok then !e.k.NonReloc? else e' == e
    {
      hide Meaning, Main, Distinct;
      ok, e' := false, e;
      if !HasJumps(e) {
        ListsAre(cx, ks, code, lasttarget, e, l);
        NoLists(code, e, l);
        var info: nat;
        match e.k {
          case KTrue =>
            info := SmallConstant(True, e, cx, l);
          case KFalse =>
            info := SmallConstant(False, e, cx, l);
          case KNil =>
            info := SmallConstant(Nil, e, cx, l);
          case KInt(i) =>
            info := SmallConstant(Int(i), e, cx, l);
          case KStr(s) =>
            info := SmallConstant(Str(s), e, cx, l);
          case K(i) =>
            info := i;
          case _ =>
            return;
        }
        if info <= MAXINDEXRK {
          ok, e' := true, e.(k := K(info));
        }
      }
    }

    method SmallConstant(v: Value, e: ExpDesc, ghost cx: Context, ghost l: Lists) returns (info: nat)
      requires Descr(cx, e, l)
      requires match e.k case KStr(s) => v == Str(s) case KInt(i) => v == Int(i) case KNil => v ==
        Nil case KTrue => v == True
               case KFalse => v == False case _ => false
      modifies `ks
      ensures old(ks) <= ks && Descr(cx, e, l) && Descr(cx, e.(k := K(info)), l)
    {
      ConstantMain(cx.w, ks, code, e.k, v);
      info := Constant(v, e, cx, l);
    }

    /** `exp2RK` */
    method Exp2RK(e: ExpDesc, ghost cx: Context, ghost l: Lists) returns (e': ExpDesc)
      requires Descr(cx, e, l) && RegsOk(cx.base, e)
      modifies `code, `ks, `freereg, `lasttarget
      ensures (e'.k.NonReloc? || (e'.k.K? && e'.k.info <= MAXINDEXRK)) && e'.t == e'.f == NO_JUMP
      ensures Descr(cx, e', Lists([], [])) && RegsOk(cx.base, e') && old(ks) <= ks
    {
      hide Meaning;
      var ok;
      ok, e' := Exp2K(e, cx, l);
      if !ok {
        e' := Exp2AnyReg(e', cx, l);
      }
    }

    /** The part of `luaK_infix` for comparisons: a literal that fits stays one. */
    method InfixCompare(op: Relation, e: ExpDesc, ghost cx: Context, ghost l: Lists) returns (e': ExpDesc)
      requires Descr(cx, e, l) && RegsOk(cx.base, e)
      modifies `code, `ks, `freereg, `lasttarget
      ensures e'.t == e'.f == NO_JUMP && Descr(cx, e', Lists([], [])) && RegsOk(cx.base, e') && old(ks) <= ks
      ensures e'.k.NonReloc? || (if op.Eq? || op.Ne? then e'.k.KInt? || (e'.k.K? &&
        e'.k.info <= MAXINDEXRK) else IsSCNumber(e'))
    {
      hide Meaning;
      if (op.Eq? || op.Ne?) && !(e.k.KInt? && !HasJumps(e)) {
        e' := Exp2RK(e, cx, l);
      } else if !(op.Eq? || op.Ne?) && !IsSCNumber(e) {
        e' := Exp2AnyReg(e, cx, l);
      } else {
        ListsAre(cx, ks, code, lasttarget, e, l);
        NoLists(code, e, l);
        e' := e;
      }
    }

    /** `freeexps`: the registers of two operands, in the proper order. */
    method FreeExps(e1: ExpDesc, e2: ExpDesc, ghost base: nat)
      requires nvars <= base && (e1.k.NonReloc? || e2.k.NonReloc?)
      requires InUse(e1, e2, base, freereg)
      modifies `freereg
      ensures freereg == base
    {
      var r1 := if e1.k.NonReloc? then e1.k.reg else -1;
      var r2 := if e2.k.NonReloc? then e2.k.reg else -1;
      if r1 > r2 {
        FreeReg(r1);
        FreeReg(r2);
      } else {
        FreeReg(r2);
        FreeReg(r1);
      }
    }

    /** The operands use the registers from `base` on, if any. */
    predicate InUse(e1: ExpDesc, e2: ExpDesc, base: nat, free: nat)
      reads `nvars
    {
      var t1, t2 := e1.k.NonReloc? && e1.k.reg >= nvars, e2.k.NonReloc? && e2.k.reg >= nvars;
      if t1 && t2 then free == base + 2 && {e1.k.reg, e2.k.reg} == {base, base + 1}
      else if t1 then free == base + 1 && e1.k.reg == base
      else if t2 then free == base + 1 && e2.k.reg == base
      else free == base
    }

    /** Puts a literal into a register after the other operand has been coded. */
    method LoadFirst(e: ExpDesc, ghost cx: Context, ghost a: Exp, ghost b: Exp, e2: ExpDesc) returns (e': ExpDesc)
      requires BothNow(cx, a, e.k, b, e2.k) && (e.k.KInt? || e.k.K?) && IsOperand(e.k, ks, freereg)
      requires IsOperand(e2.k, ks, freereg)
      requires e.t == e.f == NO_JUMP && cx.dst == -1 && cx.base <= freereg && nvars <= freereg
      modifies `code, `ks, `freereg, `lasttarget
      ensures e'.k == NonReloc(old(freereg)) && BothNow(cx, a, e'.k, b, e2.k) && freereg == old(freereg) + 1
      ensures old(ks) <= ks
    {
      ghost var p := Current(cx.before.open);
      ghost var v := Main(cx.w, ks, [], e.k, map[]);
      ghost var cx2 := Context(cx.w, p, Const(v), freereg, -1);
      LiteralMeans(cx2, e);
      e' := Exp2NextReg(e, cx2, Lists([], []));
      LoadedOperand(cx, p, a, e.k, b, e2.k, v, cx2.base, ks, code, lasttarget, e'.k, freereg);
    }

    /** A comparison has been coded. */
    method FinishComparison(op: Relation, i: Instr, e1: ExpDesc, e2: ExpDesc, ghost cx: Context, ghost a: Exp,
      ghost b: Exp)
      returns (e: ExpDesc)
      requires cx.x == Compare(op, a, b) && BothNow(cx, a, e1.k, b, e2.k) && Decides(cx.w, ks, i, op, e1.k, e2.k)
      requires nvars <= cx.base && (e1.k.NonReloc? || e2.k.NonReloc?) && InUse(e1, e2, cx.base, freereg)
      modifies `code, `freereg
      ensures e.k.Jump? && Descr(cx, e, Lists([], [])) && e.t == e.f == NO_JUMP && freereg == cx.base
    {
      ComparisonMeans(cx, op, Current(cx.before.open), a, e1.k, b, e2.k, i);
      FreeExps(e1, e2, cx.base);
      var pc := CondJump(i);
      e := ExpDesc(Jump(pc), NO_JUMP, NO_JUMP);
    }

    /** What `luaK_infix` has left of the first operand, before the code of the second. */
    ghost predicate Settled(cx: Context, cx2: Context, a: Exp, b: Exp, e: ExpDesc)
      reads `nvars
    {
      && cx2 == Context(cx.w, cx2.before, b, cx2.base, -1) && cx.dst == -1 && nvars <= cx.base <= cx2.base
      && Both(cx, cx2.before, a, e.k, a, e.k) && IsOperand(e.k, cx2.before.ks, cx2.base)
      && e.t == e.f == NO_JUMP && Closed(b, nvars)
      && if e.k.NonReloc? && e.k.reg >= nvars then e.k.reg == cx.base &&
        cx2.base == cx.base + 1 else cx2.base == cx.base
    }

    /** The first operand stays where it was while the second is put where it can be an operand. */
    ghost method Operands(cx: Context, cx2: Context, a: Exp, b: Exp, e1: ExpDesc, e2: ExpDesc)
      requires Settled(cx, cx2, a, b, e1) && Descr(cx2, e2, Lists([], [])) && e2.t == e2.f == NO_JUMP
      requires IsOperand(e2.k, ks, freereg)
      ensures BothNow(cx, a, e1.k, b, e2.k)
    {
      SecondOperand(cx, cx2.before, a, e1.k, b, cx2.base, nvars, ks, code, lasttarget, e2.k, freereg);
    }

    /** `codeeq` */
    method CodeEq(eq: bool, e1: ExpDesc, e2: ExpDesc, ghost cx: Context, ghost cx2: Context, ghost a: Exp, ghost b: Exp,
                  ghost l: Lists) returns (e: ExpDesc)
      requires cx.x == Compare(if eq then Eq else Ne, a, b) && Settled(cx, cx2, a, b, e1)
      requires Descr(cx2, e2, l) && RegsOk(cx2.base, e2) && !e2.k.VLocal? && !e2.k.VUpval?
      modifies `code, `ks, `freereg, `lasttarget
      ensures e.k.Jump? && Descr(cx, e, Lists([], [])) && e.t == e.f == NO_JUMP && freereg == cx.base && old(ks) <= ks
    {
      hide Meaning, Both, Distinct;
      if e1.k.NonReloc? {
        if IsSCNumber(e2) {
          ListsAre(cx2, ks, code, lasttarget, e2, l);
          NoLists(code, e2, l);
          Operands(cx, cx2, a, b, e1, e2);
          e := FinishComparison(if eq then Eq else Ne, CompareI(Eq, e1.k.reg, e2.k.i, eq), e1, e2, cx, a, b);
        } else {
          var d := Exp2RK(e2, cx2, l);
          DescrConstant(cx2, ks, code, lasttarget, d);
          Operands(cx, cx2, a, b, e1, d);
          var i := if d.k.K? then CompareK(e1.k.reg, d.k.info, eq) else Compare2(Eq, e1.k.reg, d.k.reg, eq);
          e := FinishComparison(if eq then Eq else Ne, i, e1, d, cx, a, b);
        }
      } else {
        var d := Exp2AnyReg(e2, cx2, l);
        DescrGrows(cx2, ks, code, lasttarget, d);
        Operands(cx, cx2, a, b, e1, d);
        if IsSCNumber(e1) {
          e := FinishComparison(if eq then Eq else Ne, CompareI(Eq, d.k.reg, e1.k.i, eq), e1, d, cx, a, b);
        } else {
          e := CodeEqConstant(eq, e1, d, cx, a, b);
        }
      }
    }

    /** A constant first operand, in the constant table if it can be. */
    method CodeEqConstant(eq: bool, e1: ExpDesc, e2: ExpDesc, ghost cx: Context, ghost a: Exp, ghost b: Exp)
      returns (e: ExpDesc)
      requires cx.x == Compare(if eq then Eq else Ne, a, b) && BothNow(cx, a, e1.k, b, e2.k) && e2.k.NonReloc?
      requires (e1.k.KInt? || e1.k.K?) && IsOperand(e1.k, ks, freereg) && IsOperand(e2.k, ks, freereg)
      requires e1.t == e1.f == NO_JUMP && cx.dst == -1 && nvars <= cx.base <= freereg && InUse(e1, e2, cx.base, freereg)
      modifies `code, `ks, `freereg, `lasttarget
      ensures e.k.Jump? && Descr(cx, e, Lists([], [])) && e.t == e.f == NO_JUMP && freereg == cx.base && old(ks) <= ks
    {
      hide Meaning, Both, Distinct;
      var d := e1;
      if e1.k.KInt? {
        var info := AddK(Int(e1.k.i));
        MoreBoth(cx, old(ks), code, lasttarget, a, e1.k, b, e2.k, ks);
        OtherOperand(cx, Current(cx.before.open), a, e1.k, b, e2.k, K(info));
        if info <= MAXINDEXRK {
          d := ExpDesc(K(info), NO_JUMP, NO_JUMP);
        }
      }
      if d.k.K? && d.k.info <= MAXINDEXRK {
        e := FinishComparison(if eq then Eq else Ne, CompareK(e2.k.reg, d.k.info, eq), d, e2, cx, a, b);
      } else {
        d := LoadFirst(d, cx, a, b, e2);
        e := FinishComparison(if eq then Eq else Ne, Compare2(Eq, d.k.reg, e2.k.reg, eq), d, e2, cx, a, b);
      }
    }

    /** `codeorder`; `flipped` if the operands were swapped, to turn `>` into `<` and `>=` into `<=`. */
    method CodeOrder(op: Relation, e1: ExpDesc, e2: ExpDesc, ghost cx: Context, ghost cx2: Context, ghost a: Exp,
      ghost b: Exp,
                     ghost l: Lists) returns (e: ExpDesc)
      requires cx.x == Compare(op, a, b) && !op.Eq? && !op.Ne? && Settled(cx, cx2, a, b, e1)
      requires e1.k.NonReloc? || IsSCNumber(e1)
      requires Descr(cx2, e2, l) && RegsOk(cx2.base, e2) && !e2.k.VLocal? && !e2.k.VUpval?
      modifies `code, `ks, `freereg, `lasttarget
      ensures e.k.Jump? && Descr(cx, e, Lists([], [])) && e.t == e.f == NO_JUMP && freereg == cx.base && old(ks) <= ks
    {
      hide Meaning, Both, Distinct;
      var flipped := op.Gt? || op.Ge?;
      var less := if op.Lt? || op.Gt? then Lt else Le;
      var greater := if op.Lt? || op.Gt? then Gt else Ge;
      if IsSCNumber(e2) && (!flipped || !IsSCNumber(e1)) {
        ListsAre(cx2, ks, code, lasttarget, e2, l);
        NoLists(code, e2, l);
        Operands(cx, cx2, a, b, e1, e2);
        var d := e1;
        if !e1.k.NonReloc? {
          d := LoadFirst(e1, cx, a, b, e2);
        }
        e := FinishComparison(op, CompareI(if flipped then greater else less, d.k.reg, e2.k.i, true), d, e2, cx, a, b);
      } else {
        var d := Exp2AnyReg(e2, cx2, l);
        Operands(cx, cx2, a, b, e1, d);
        var i := if IsSCNumber(e1) then CompareI(if flipped then less else greater, d.k.reg, e1.k.i, true)
                 else if flipped then Compare2(less, d.k.reg, e1.k.reg, true)
                 else Compare2(less, e1.k.reg, d.k.reg, true);
        e := FinishComparison(op, i, e1, d, cx, a, b);
      }
    }

    // ----- expressions -----

    /**
     What the parser and the generator do for an expression (`simpleexp` and `subexpr` calling `luaK_infix`,
     `luaK_prefix` and `luaK_posfix`): the descriptor says where the value is.
     */
    method Expr(x: Exp, ghost cx: Context) returns (e: ExpDesc, ghost l: Lists)
      requires cx.x == x && cx.before == Current(cx.before.open) && cx.base == freereg && cx.dst == -1
      requires Fresh(cx.before) && nvars <= freereg && Closed(x, nvars)
      modifies `code, `ks, `freereg, `lasttarget
      ensures Descr(cx, e, l) && RegsOk(cx.base, e) && !e.k.K? && old(ks) <= ks
      ensures forall i :: 0 <= i < |code| ==> Encodable(code[i])
      decreases x
    {
      hide Meaning, Forks, Both, Distinct, Ready, Main;
      match x {
        case Const(v) =>
          e, l := ExpDesc(Literal(v), NO_JUMP, NO_JUMP), Lists([], []);
          LiteralBegins(cx, v);
          Begins(cx, e.k);
        case Local(i) =>
          e, l := ExpDesc(VLocal(i), NO_JUMP, NO_JUMP), Lists([], []);
          Begins(cx, e.k);
        case Upvalue(i) =>
          e, l := ExpDesc(VUpval(i), NO_JUMP, NO_JUMP), Lists([], []);
          Begins(cx, e.k);
        case Negation(a) =>
          e, l := Expr(a, cx.(x := a));
          e := DischargeVars(e, cx.(x := a), l);
          e, l := CodeNot(e, cx, a, l);
        case And(a, b) =>
          e, l := Shortcut(true, a, b, cx);
        case Or(a, b) =>
          e, l := Shortcut(false, a, b, cx);
        case Compare(op, a, b) =>
          e := Comparison(op, a, b, cx);
          l := Lists([], []);
      }
      DescrEncodes(cx, ks, code, lasttarget, e, l);
    }

    /** `and` and `or` */
    method Shortcut(and: bool, a: Exp, b: Exp, ghost cx: Context) returns (e: ExpDesc, ghost l: Lists)
      requires cx.x == (if and then And(a, b) else Or(a, b))
      requires cx.before == Current(cx.before.open) && cx.base == freereg && cx.dst == -1
      requires Fresh(cx.before) && nvars <= freereg && Closed(cx.x, nvars)
      modifies `code, `ks, `freereg, `lasttarget
      ensures Descr(cx, e, l) && RegsOk(cx.base, e) && !e.k.K? && old(ks) <= ks
      decreases cx.x, 0
    {
      hide Meaning, Forks, Both, Distinct, Ready;
      ghost var l1, l2;
      var e1, e2;
      e1, l1 := Expr(a, cx.(x := a));
      e1, l1 := GoIf(and, e1, cx.(x := a), l1);
      ghost var ks1, code1, last1 := ks, code, lasttarget;
      ghost var cx2 := Second(cx, ks, code, lasttarget, b, l1);
      ForkFresh(cx.(x := a), ks, code, lasttarget, and, e1.t, e1.f, l1);
      e2, l2 := Expr(b, cx2);
      e2 := DischargeVars(e2, cx2, l2);
      l := Joined(and, l1, l2);
      ghost var code2 := code;
      JoinLists(cx.(x := a), ks1, code1, last1, and, e1, l1, cx2, ks, code, lasttarget, e2, l2);
      if and {
        var f := Concat(e2.f, e1.f, l2.fs, l1.fs);
        e := e2.(f := f);
      } else {
        var t := Concat(e2.t, e1.t, l2.ts, l1.ts);
        e := e2.(t := t);
      }
      JoinedLinked(code2, code, and, l1, e2, l2, e.t, e.f);
      Combine(cx, a, b, and, ks1, code1, last1, e1.t, e1.f, l1, ks, code2, lasttarget, e2, l2, nvars, code, e.t, e.f);
    }

    /** Comparisons */
    method Comparison(op: Relation, a: Exp, b: Exp, ghost cx: Context) returns (e: ExpDesc)
      requires cx.x == Compare(op, a, b)
      requires cx.before == Current(cx.before.open) && cx.base == freereg && cx.dst == -1
      requires Fresh(cx.before) && nvars <= freereg && Closed(cx.x, nvars)
      modifies `code, `ks, `freereg, `lasttarget
      ensures Descr(cx, e, Lists([], [])) && RegsOk(cx.base, e) && !e.k.K? && old(ks) <= ks
      decreases cx.x, 0
    {
      hide Meaning, Forks, Both, Distinct, Ready;
      ghost var l1, l2;
      var e1, e2;
      e1, l1 := Expr(a, cx.(x := a));
      e1 := InfixCompare(op, e1, cx.(x := a), l1);
      DescrFresh(cx.(x := a), ks, code, lasttarget, e1);
      OneOperand(cx, a, ks, code, lasttarget, e1.k, freereg);
      ghost var cx2 := Context(cx.w, Current(cx.before.open), b, freereg, -1);
      e2, l2 := Expr(b, cx2);
      e2 := DischargeVars(e2, cx2, l2);
      if op.Eq? || op.Ne? {
        e := CodeEq(op.Eq?, e1, e2, cx, cx2, a, b, l2);
      } else {
        e := CodeOrder(op, e1, e2, cx, cx2, a, b, l2);
      }
    }

    // ----- statements -----

    /** `luaK_exp2nextreg` of an expression: its value is pushed on the registers. */
    method PushExp(x: Exp, ghost w: World) returns (reg: nat)
      requires Fresh(Current({})) && nvars <= freereg && Closed(x, nvars)
      modifies `code, `ks, `freereg, `lasttarget
      ensures Fresh(Current({})) && reg == old(freereg) && freereg == reg + 1
      ensures forall r :: Evaluates(w, old(Current({})), Current({}), x, reg, old(freereg), -1, r)
      ensures forall i :: 0 <= i < |code| ==> Encodable(code[i])
    {
      hide Meaning, Fresh;
      ghost var cx := Context(w, Current({}), x, freereg, -1);
      var e;
      ghost var l;
      e, l := Expr(x, cx);
      e := Exp2NextReg(e, cx, l);
      reg := e.k.reg;
      Evaluated(cx, ks, code, lasttarget, reg);
      FreshEncodes(Current({}));
    }

    /** `luaK_storevar` for a local variable. */
    method AssignLocal(v: nat, x: Exp, ghost w: World)
      requires Fresh(Current({})) && nvars <= freereg && Closed(x, nvars) && v < nvars
      modifies `code, `ks, `freereg, `lasttarget
      ensures Fresh(Current({})) && freereg == old(freereg)
      ensures forall r :: Evaluates(w, old(Current({})), Current({}), x, v, old(freereg), v, r)
      ensures forall i :: 0 <= i < |code| ==> Encodable(code[i])
    {
      hide Meaning, Fresh;
      ghost var cx := Context(w, Current({}), x, freereg, -1);
      var e;
      ghost var l;
      e, l := Expr(x, cx);
      FreeExp(e);
      WithDestination(cx, ks, code, lasttarget, e, l, v);
      e := Exp2Reg(e, v, cx.(dst := v), l);
      Evaluated(cx.(dst := v), ks, code, lasttarget, v);
      FreshEncodes(Current({}));
    }

    /** A sequence of assignments to local variables does what they mean in Lua. */
    method AssignLocals(stats: seq<Stat>, ghost w: World)
      requires Fresh(Current({})) && nvars <= freereg && forall i :: 0 <= i < |stats| ==> StatOk(stats[i], nvars)
      modifies `code, `ks, `freereg, `lasttarget
      ensures Fresh(Current({})) && freereg == old(freereg)
      ensures forall r :: Performs(w, old(Current({})), Current({}), stats, nvars, r)
      ensures forall i :: 0 <= i < |code| ==> Encodable(code[i])
    {
      hide Fresh, Evaluates, Eval;
      ghost var p0 := Current({});
      FreshReady(p0);
      forall r ensures Performs(w, p0, p0, stats[..0], nvars, r) { NothingPerformed(w, p0, nvars, r); }
      for i := 0 to |stats|
        invariant Fresh(Current({})) && freereg == old(freereg)
        invariant forall r :: Performs(w, p0, Current({}), stats[..i], nvars, r)
      {
        ghost var p := Current({});
        AssignLocal(stats[i].v, stats[i].x, w);
        FreshReady(p);
        ghost var p', done := Current({}), stats[..i + 1];
        FreshReady(p');
        assert done == stats[..i] + [stats[i]];
        forall r ensures Performs(w, p0, p', done, nvars, r) {
          OnePerformed(w, p0, p, p', stats[..i], stats[i], nvars, freereg, r);
        }
      }
      assert stats[..|stats|] == stats;
      FreshEncodes(Current({}));
    }
  }

  datatype Stat = Stat(v: nat, x: Exp)

  predicate StatOk(s: Stat, nvars: nat) { s.v < nvars && Closed(s.x, nvars) }

  /** The registers after some assignments. */
  function Assigned(w: World, stats: seq<Stat>, r: Regs): Regs {
    if stats == [] then r
    else
      var r' := Assigned(w, stats[..|stats| - 1], r);
      r'[stats[|stats| - 1].v := Eval(w, stats[|stats| - 1].x, r')]
  }

  /** Running the new program is running the old one and then putting the value of `x` into `reg`. */
  ghost predicate Evaluates(w: World, p: Program, p': Program, x: Exp, reg: nat, base: nat, dst: int, r: Regs) {
    && Ready(p) && Ready(p')
    && var o, o' := Run(w, p, r), Run(w, p', r);
       o.End? && o'.End? && Reg(o'.r, reg) == Eval(w, x, o.r) && Same(o.r, o'.r, base, dst)
  }

  /** Running the new program is running the old one and then the assignments. */
  ghost predicate Performs(w: World, p: Program, p': Program, stats: seq<Stat>, nvars: nat, r: Regs) {
    && Ready(p) && Ready(p')
    && var o, o' := Run(w, p, r), Run(w, p', r);
       o.End? && o'.End? && Same(Assigned(w, stats, o.r), o'.r, nvars, -1)
  }

  lemma FreshReady(p: Program)
    requires Fresh(p)
    ensures Ready(p)
  {
  }

  lemma NothingPerformed(w: World, p: Program, nvars: nat, r: Regs)
    requires Ready(p) && p.open == {}
    ensures Performs(w, p, p, [], nvars, r)
  {
    LeavesOpen(w, p.ks, p.code, p.open, p.last, 0, r);
  }

  lemma OnePerformed(w: World, p0: Program, p: Program, p': Program, stats: seq<Stat>, s: Stat, nvars: nat, base: nat,
    r: Regs)
    requires Performs(w, p0, p, stats, nvars, r) && Evaluates(w, p, p', s.x, s.v, base, s.v, r)
    requires StatOk(s, nvars) && nvars <= base
    ensures Performs(w, p0, p', stats + [s], nvars, r)
  {
    var o0, o := Run(w, p0, r), Run(w, p, r);
    EvalSame(w, s.x, Assigned(w, stats, o0.r), o.r, nvars);
    assert (stats + [s])[..|stats|] == stats;
  }

  lemma Evaluated(cx: Context, ks: seq<Value>, code: Code, last: int, reg: nat)
    requires Meaning(cx, ks, code, last, ExpDesc(NonReloc(reg), NO_JUMP, NO_JUMP), Lists([], []))
    requires cx.before.open == {} && 0 <= cx.before.last
    ensures Fresh(Program(ks, code, {}, last))
    ensures forall r :: Evaluates(cx.w, cx.before, Program(ks, code, {}, last), cx.x, reg, cx.base, cx.dst, r)
  {
    var e, l := ExpDesc(NonReloc(reg), NO_JUMP, NO_JUMP), Lists([], []);
    var p := Program(ks, code, {}, last);
    assert p == Now(cx.before.open, ks, code, last, e, l);
    forall r ensures Evaluates(cx.w, cx.before, p, cx.x, reg, cx.base, cx.dst, r) {
      assert StopsFrom(cx, p, code, e, l, r);
      BeforeLeaves(cx, r);
      LeavesOpen(cx.w, p.ks, p.code, p.open, p.last, 0, r);
    }
  }

  function Literal(v: Value): (k: Kind)
    requires !v.Object?
  {
    match v
    case Nil => KNil
    case False => KFalse
    case True => KTrue
    case Int(i) => KInt(i)
    case Str(s) => KStr(s)
  }

  lemma LiteralBegins(cx: Context, v: Value)
    requires cx.x == Const(v) && !v.Object?
    ensures Immediate(cx.w, cx.before.ks, cx.x, Literal(v))
  {
  }

  /** Code may be added here. */
  ghost predicate Fresh(p: Program) { Ready(p) && 0 <= p.last <= |p.code| }

  /** Whatever has been emitted fits into instructions. */
  lemma FreshEncodes(p: Program)
    requires Fresh(p)
    ensures forall i :: 0 <= i < |p.code| ==> Encodable(p.code[i])
  {
    forall i | 0 <= i < |p.code| ensures Encodable(p.code[i]) { assert InstrOk(p.code, p.open, p.last, i); }
  }

  lemma DescrEncodes(cx: Context, ks: seq<Value>, code: Code, last: int, e: ExpDesc, l: Lists)
    requires Meaning(cx, ks, code, last, e, l)
    ensures forall i :: 0 <= i < |code| ==> Encodable(code[i])
  {
    var p := Now(cx.before.open, ks, code, last, e, l);
    forall i | 0 <= i < |code| ensures Encodable(code[i]) {
      if i < |p.code| { assert InstrOk(p.code, p.open, p.last, i) && p.code[i] == code[i]; }
    }
  }

  lemma ForkFresh(cx: Context, ks: seq<Value>, code: Code, last: int, b: bool, t: int, f: int, l: Lists)
    requires Forks(cx, ks, code, last, b, t, f, l) && 0 <= cx.before.last
    ensures Fresh(Fork(cx.before.open, ks, code, last, l))
  {
  }

  lemma DescrFresh(cx: Context, ks: seq<Value>, code: Code, last: int, e: ExpDesc)
    requires Meaning(cx, ks, code, last, e, Lists([], [])) && 0 <= cx.before.last && !e.k.Reloc? && !e.k.Jump?
    ensures (e.k.K? ==> e.k.info < |ks|) && Fresh(Program(ks, code, cx.before.open, last))
  {
    assert Now(cx.before.open, ks, code, last, e, Lists([], [])) == Program(ks, code, cx.before.open, last);
  }

  /** What the two operands of `and` or `or` have left open, when both have been coded. */
  lemma JoinLists(cx: Context, ks1: seq<Value>, code1: Code, last1: int, b: bool, e1: ExpDesc, l1: Lists,
                  cx2: Context, ks: seq<Value>, code: Code, last: int, e2: ExpDesc, l2: Lists)
    requires Forks(cx, ks1, code1, last1, b, e1.t, e1.f, l1) && cx2.before.code == code1
    requires Meaning(cx2, ks, code, last, e2, l2)
    ensures IsList(code, e1.t, l1.ts) && IsList(code, e1.f, l1.fs) && IsList(code, e2.t, l2.ts)
    ensures IsList(code, e2.f, l2.fs)
    ensures Distinct(l2.fs + l1.fs) && Distinct(l2.ts + l1.ts) && Distinct(l2.ts + l2.fs) && Distinct(l2.fs + l2.ts)
  {
    ListElems(code1, e1.t, l1.ts);
    ListElems(code1, e1.f, l1.fs);
    ListStays(code1, code, e1.t, l1.ts);
    ListStays(code1, code, e1.f, l1.fs);
    SplitDistinct(l1.ts, l1.fs);
    SplitDistinct(l2.ts, l2.fs);
    JoinDistinct(l2.fs, l1.fs);
    JoinDistinct(l2.ts, l1.ts);
  }

  /** One pair of lists has been concatenated. */
  lemma JoinedLinked(code: Code, code': Code, b: bool, l1: Lists, e2: ExpDesc, l2: Lists, t: int, f: int)
    requires IsList(code, e2.t, l2.ts) && IsList(code, e2.f, l2.fs) && Distinct(l2.ts + l2.fs)
    requires Distinct(l2.fs + l2.ts)
    requires if b then t == e2.t && IsList(code', f, l2.fs + l1.fs) && Relinked(code, Elems(l2.fs), code')
             else f == e2.f && IsList(code', t, l2.ts + l1.ts) && Relinked(code, Elems(l2.ts), code')
    ensures Linked(code, code', t, f, ListOwn(l2), Joined(b, l1, l2))
  {
    if b {
      OtherList(code, code', e2.f, e2.t, l2.fs, l2.ts);
    } else {
      OtherList(code, code', e2.t, e2.f, l2.ts, l2.fs);
    }
  }

  lemma DescrConstant(cx: Context, ks: seq<Value>, code: Code, last: int, e: ExpDesc)
    requires Meaning(cx, ks, code, last, e, Lists([], []))
    ensures e.k.K? ==> e.k.info < |ks|
  {
  }

  lemma MoreBoth(cx: Context, ks: seq<Value>, code: Code, last: int, a: Exp, ka: Kind, b: Exp, kb: Kind,
    ks': seq<Value>)
    requires Both(cx, Program(ks, code, cx.before.open, last), a, ka, b, kb) && ks <= ks'
    requires (ka.K? ==> ka.info < |ks|) && (kb.K? ==> kb.info < |ks|)
    ensures Both(cx, Program(ks', code, cx.before.open, last), a, ka, b, kb)
  {
    var p, p' := Program(ks, code, cx.before.open, last), Program(ks', code, cx.before.open, last);
    MoreKonsts(cx.w, p, ks', map[]);
    hide Ready, Frame, BothAt;
    forall r ensures BothAt(cx, p', a, ka, b, kb, r) {
      MoreBothAt(cx, p, a, ka, b, kb, ks', r);
    }
  }

  lemma MoreBothAt(cx: Context, p: Program, a: Exp, ka: Kind, b: Exp, kb: Kind, ks': seq<Value>, r: Regs)
    requires Ready(cx.before) && Ready(p) && BothAt(cx, p, a, ka, b, kb, r) && p.ks <= ks'
    requires (ka.K? ==> ka.info < |p.ks|) && (kb.K? ==> kb.info < |p.ks|)
    ensures Ready(p.(ks := ks')) && BothAt(cx, p.(ks := ks'), a, ka, b, kb, r)
  {
    hide Ready, Run, BothAfter;
    MoreKonsts(cx.w, p, ks', r);
    MoreBothAfter(cx, p.ks, ks', a, ka, b, kb, Run(cx.w, cx.before, r), Run(cx.w, p, r));
  }

  lemma MoreBothAfter(cx: Context, ks: seq<Value>, ks': seq<Value>, a: Exp, ka: Kind, b: Exp, kb: Kind, o0: Outcome,
    o: Outcome)
    requires BothAfter(cx, ks, a, ka, b, kb, o0, o) && ks <= ks' && (ka.K? ==> ka.info < |ks|)
    requires (kb.K? ==> kb.info < |ks|)
    ensures BothAfter(cx, ks', a, ka, b, kb, o0, o)
  {
    hide Eval;
    SameMain(cx.w, ks, ks', [], ka);
    SameMain(cx.w, ks, ks', [], kb);
  }

  lemma DescrGrows(cx: Context, ks: seq<Value>, code: Code, last: int, e: ExpDesc)
    requires Meaning(cx, ks, code, last, e, Lists([], []))
    ensures cx.before.ks <= ks
  {
  }

  /** The same first operand, found in another place. */
  lemma OtherOperand(cx: Context, p: Program, a: Exp, ka: Kind, b: Exp, kb: Kind, k': Kind)
    requires Both(cx, p, a, ka, b, kb) && forall r :: Main(cx.w, p.ks, [], k', r) == Main(cx.w, p.ks, [], ka, r)
    ensures Both(cx, p, a, k', b, kb)
  {
    hide Eval, Same, Frame, Ready;
    forall r ensures BothAt(cx, p, a, k', b, kb, r) { assert BothAt(cx, p, a, ka, b, kb, r); }
  }

  /** A literal means itself, at any point of a program. */
  lemma LiteralMeans(cx: Context, e: ExpDesc)
    requires Ready(cx.before) && 0 <= cx.before.last <= |cx.before.code| && e.t == e.f == NO_JUMP
    requires forall j :: j in cx.before.open ==> j < |cx.before.code|
    requires (e.k.KInt? || e.k.K?) && (e.k.K? ==> e.k.info < |cx.before.ks|)
    requires cx.x == Const(Main(cx.w, cx.before.ks, [], e.k, map[]))
    ensures Meaning(cx, cx.before.ks, cx.before.code, cx.before.last, e, Lists([], []))
  {
    var l := Lists([], []);
    assert Opened(cx.before.open, e, l) == cx.before.open;
    assert Now(cx.before.open, cx.before.ks, cx.before.code, cx.before.last, e, l) == cx.before;
    forall r ensures StopsFrom(cx, cx.before, cx.before.code, e, l, r) { }
  }

  lemma JumpIsLast(cx: Context, ks: seq<Value>, code: Code, last: int, e: ExpDesc, l: Lists)
    requires Meaning(cx, ks, code, last, e, l) && e.k.Jump?
    ensures 0 < e.k.pc && e.k.pc + 1 == |code| && code[e.k.pc].Jmp?
    ensures var i := code[e.k.pc - 1]; i.Compare2? || i.CompareI? || i.CompareK?
  {
  }

  lemma NotNegates(w: World, ks: seq<Value>, code: Code, reg: nat)
    ensures Negates(w, ks, code, NonReloc(reg), code + [Not(0, reg)], Reloc(|code|))
  {
  }

  lemma RelocIsLast(cx: Context, ks: seq<Value>, code: Code, last: int, e: ExpDesc, l: Lists)
    requires Meaning(cx, ks, code, last, e, l) && e.k.Reloc?
    ensures e.k.pc + 1 == |code| && (code[e.k.pc].GetUpval? || code[e.k.pc].Not?)
    ensures Body(code, e.k) == code[..|code| - 1]
  {
  }

  lemma SwapDistinct(a: seq<nat>, b: seq<nat>)
    requires Distinct(a + b)
    ensures Distinct(b + a)
  {
    SplitDistinct(a, b);
  }

  /** The lists, and the jump of a test that has just been coded. */
  lemma TestLists(cx: Context, ks: seq<Value>, code: Code, last: int, e: ExpDesc, l: Lists, i: Instr)
    requires Meaning(cx, ks, code, last, e, l) && !e.k.Jump?
    ensures var body := Body(code, e.k);
            var longer := body + [i, Jmp(NO_JUMP)];
            && IsList(longer, e.t, l.ts) && IsList(longer, e.f, l.fs) && IsList(longer, |body| + 1, [|body| + 1])
            && Distinct(l.ts + l.fs) && Distinct(l.ts + [|body| + 1]) && Distinct(l.fs + [|body| + 1])
  {
    var body := Body(code, e.k);
    var longer := body + [i, Jmp(NO_JUMP)];
    assert [|body| + 1][1..] == [];
    SplitDistinct(l.ts, l.fs);
    JoinDistinct(l.ts, [|body| + 1]);
    JoinDistinct(l.fs, [|body| + 1]);
    ListStays(code, longer, e.t, l.ts);
    ListStays(code, longer, e.f, l.fs);
  }

  lemma ForkLists(cx: Context, ks: seq<Value>, code: Code, last: int, b: bool, t: int, f: int, l: Lists)
    requires Forks(cx, ks, code, last, b, t, f, l)
    ensures IsList(code, t, l.ts) && IsList(code, f, l.fs) && Distinct(l.ts) && Distinct(l.fs)
    ensures forall j :: j in l.ts || j in l.fs ==> 0 < j
  {
    SplitDistinct(l.ts, l.fs);
  }

  /** What is known of the lists of an expression. */
  lemma ListsAre(cx: Context, ks: seq<Value>, code: Code, last: int, e: ExpDesc, l: Lists)
    requires Meaning(cx, ks, code, last, e, l)
    ensures IsList(code, e.t, l.ts) && IsList(code, e.f, l.fs) && Distinct(l.ts + l.fs)
    ensures forall j :: j in l.ts || j in l.fs ==> 0 < j < |code|
  {
  }

  lemma FirstsDiffer(a: seq<nat>, b: seq<nat>)
    requires Distinct(a + b) && a != [] && b != []
    ensures a[0] != b[0]
  {
    assert (a + b)[0] != (a + b)[|a|];
  }

  /** Lists with the same head are empty. */
  lemma NoLists(code: Code, e: ExpDesc, l: Lists)
    requires IsList(code, e.t, l.ts) && IsList(code, e.f, l.fs) && Distinct(l.ts + l.fs) && !HasJumps(e)
    ensures l == Lists([], []) && e.t == e.f == NO_JUMP
  {
    hide Distinct;
    if l.ts != [] && l.fs != [] {
      FirstsDiffer(l.ts, l.fs);
    }
  }

  /** The jump of a condition is a list of its own, to be put at the end of another. */
  lemma LastJump(cx: Context, ks: seq<Value>, code: Code, last: int, e: ExpDesc, l: Lists)
    requires Meaning(cx, ks, code, last, e, l) && e.k.Jump?
    ensures IsList(code, e.k.pc, [e.k.pc]) && Distinct(l.ts + [e.k.pc]) && Distinct(l.fs + [e.k.pc])
    ensures IsList(code, e.t, l.ts) && IsList(code, e.f, l.fs) && Distinct(l.ts + l.fs)
    ensures e.k.pc !in l.ts && e.k.pc !in l.fs
  {
    assert [e.k.pc][1..] == [];
    SplitDistinct(l.ts, l.fs);
    JoinDistinct(l.ts, [e.k.pc]);
    JoinDistinct(l.fs, [e.k.pc]);
  }

  /** Linking one list anew leaves the other alone. */
  lemma OtherList(code: Code, code': Code, t: int, f: int, ts: seq<nat>, fs: seq<nat>)
    requires Relinked(code, Elems(ts), code') && IsList(code, f, fs) && Distinct(ts + fs)
    ensures IsList(code', f, fs)
  {
    SplitDistinct(ts, fs);
    ListElems(code, f, fs);
    forall j | j in fs ensures code'[j] == code[j] { assert j as int in Elems(fs); }
    ListStays(code, code', f, fs);
  }

  lemma RelinkedMore(code: Code, own: set<int>, code': Code, more: set<int>)
    requires Relinked(code, own, code') && own <= more
    ensures Relinked(code, more, code')
  {
  }

  /** Constants do not depend on anything. */
  lemma ConstantMain(w: World, ks: seq<Value>, code: Code, k: Kind, v: Value)
    requires match k case KStr(s) => v == Str(s) case KInt(i) => v == Int(i) case KNil => v == Nil case KTrue => v ==
      True
             case KFalse => v == False case _ => false
    ensures forall r :: Main(w, ks, code, k, r) == v
  {
  }

  /** The last instruction is told its register. */
  lemma RelocLoads(cx: Context, ks: seq<Value>, code: Code, last: int, e: ExpDesc, l: Lists, reg: nat)
    requires Meaning(cx, ks, code, last, e, l) && e.k.Reloc? && (reg >= cx.base || reg == cx.dst)
    ensures e.k.pc < |code| && (code[e.k.pc].GetUpval? || code[e.k.pc].Not?)
    ensures Meaning(cx, ks, code[e.k.pc := SetArgA(code[e.k.pc], reg)], last, e.(k := NonReloc(reg)), l)
  {
    var pc := e.k.pc;
    var i := SetArgA(code[pc], reg);
    Loaded(cx, ks, code, last, e, l, reg, i);
    assert code[pc := i] == code[..pc] + [i];
  }

  /** The jump that is next to be patched, and its test, are still as they were. */
  lemma PatchSoFar(code0: Code, code: Code, s: seq<nat>, i: nat, vtarget: int, reg: int, dtarget: int)
    requires |code| == |code0| && i < |s| && Distinct(s) && forall j :: j in s ==> 0 < j < |code0| && code0[j].Jmp?
    requires forall n :: 0 <= n < |code| ==> code[n] == PatchedAt(code0, Elems(s[..i]), vtarget, reg, dtarget, n)
    ensures s[i] in s && code[s[i]] == code0[s[i]] && (code0[s[i] - 1].TestSet? <==> code[s[i] - 1].TestSet?)
    ensures code0[s[i] - 1].TestSet? ==> code[s[i] - 1] == code0[s[i] - 1]
  {
    assert s[i] in s;
    assert forall x: int :: x in Elems(s[..i]) ==> x != s[i] && x in Elems(s) by {
      forall x: int | x in Elems(s[..i]) ensures x != s[i] && x in Elems(s) {
        var k :| 0 <= k < i && s[k] == x;
        assert s[k] in s;
      }
    }
  }

  lemma PatchOne(code0: Code, c: Code, code: Code, s: seq<nat>, i: nat, vtarget: int, reg: int, dtarget: int)
    requires |c| == |code0| && i < |s| && Distinct(s) && forall j :: j in s ==> 0 < j < |code0| && code0[j].Jmp?
    requires forall n :: 0 <= n < |c| ==> c[n] == PatchedAt(code0, Elems(s[..i]), vtarget, reg, dtarget, n)
    requires s[i] in s
    requires var j := s[i];
             code == c[j - 1 := PatchedTest(c[j - 1], reg)][j := JumpTo(j,
               if c[j - 1].TestSet? then vtarget else dtarget)]
    ensures forall n :: 0 <= n < |code| ==> code[n] == PatchedAt(code0, Elems(s[..i + 1]), vtarget, reg, dtarget, n)
  {
    PatchSoFar(code0, c, s, i, vtarget, reg, dtarget);
    assert s[..i + 1] == s[..i] + [s[i]];
    assert forall x: int :: x in Elems(s[..i + 1]) <==> x in Elems(s[..i]) || x == s[i];
  }

  /** The rest of a list. */
  lemma ListHead(code: Code, list: int, s: seq<nat>, i: nat)
    requires i <= |s| && IsList(code, list, s[i..]) && list != NO_JUMP
    ensures i < |s| && s[i] in s && list == s[i] < |code| && code[s[i]].Jmp?
    ensures IsList(code, GetJump(code, s[i]), s[i + 1..])
  {
    assert s[i..][1..] == s[i + 1..];
  }

  lemma NoMore(code: Code, s: seq<nat>, i: nat)
    requires i <= |s| && IsList(code, NO_JUMP, s[i..])
    ensures s[..i] == s
  {
  }

  lemma NoneUntested(code: Code)
    ensures forall s: seq<nat> :: Untested(code, Elems(s[..0])) == code
  {
    forall s: seq<nat> ensures Untested(code, Elems(s[..0])) == code { assert Elems(s[..0]) == {}; }
  }

  lemma UntestOne(code0: Code, code: Code, s: seq<nat>, i: nat)
    requires i < |s| && code == Untested(code0, Elems(s[..i])) && 0 < s[i] < |code| && code0[s[i]].Jmp?
    ensures code[s[i]] == code0[s[i]]
    ensures code[s[i] - 1 := PatchedTest(code[s[i] - 1], NO_REG)] == Untested(code0, Elems(s[..i + 1]))
  {
    assert s[..i + 1] == s[..i] + [s[i]];
    assert forall x: int :: x in Elems(s[..i + 1]) <==> x in Elems(s[..i]) || x == s[i];
    var j, c := s[i] - 1, code[s[i] - 1 := PatchedTest(code[s[i] - 1], NO_REG)];
    forall n | 0 <= n < |c| ensures c[n] == Untested(code0, Elems(s[..i + 1]))[n] { }
  }

  /** Giving the last jump of a list the head of another as its link joins them. */
  lemma {:induction false} LinkedLists(code: Code, l1: int, s1: seq<nat>, l2: int, s2: seq<nat>)
    requires IsList(code, l1, s1) && IsList(code, l2, s2) && Distinct(s1 + s2) && s1 != [] && s2 != []
    ensures var last := s1[|s1| - 1];
            last < |code| && code[last].Jmp? && last in s1 && IsList(code[last := JumpTo(last, l2)], l1, s1 + s2)
    decreases |s1|
  {
    ListElems(code, l1, s1);
    var last := s1[|s1| - 1];
    assert last in s1;
    var code' := code[last := JumpTo(last, l2)];
    SplitDistinct(s1, s2);
    var s := s1 + s2;
    if |s1| == 1 {
      assert s[1..] == s2 && s[0] != s[1];
      ListElems(code, l2, s2);
      forall j | j in s2 ensures j != last { assert j as int in Elems(s2) && last as int in Elems(s1); }
      ListStays(code, code', l2, s2);
      assert s1[1..] == [];
      assert GetJump(code', last) == l2;
    } else {
      assert s[1..] == s1[1..] + s2;
      forall i, j | 0 <= i < j < |s[1..]| ensures s[1..][i] != s[1..][j] { assert s[i + 1] != s[j + 1]; }
      LinkedLists(code, GetJump(code, s1[0]), s1[1..], l2, s2);
      assert s[0] != s[|s1| - 1];
    }
  }
}
