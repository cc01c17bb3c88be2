/**
 The final pass of the code generator (`luaK_finish` and `finaltarget` in lcode.c): returns are
 completed and every jump is redirected, in place, past the jumps it leads to.

 The pass reads targets that it may already have rewritten and gives up after a fixed number of
 hops. Neither matters: from every position the code settles on the same instruction as before,
 and it jumps for ever exactly when it did before.
 */
module JumpThreading {

  const MAXARG_SJ: int := 0x1FF_FFFF
  const OFFSET_SJ: int := MAXARG_SJ / 2
  const MAX_HOPS: nat := 100

  datatype ReturnOp = Return0 | Return1 | Return | TailCall

  datatype Instruction =
    | Jmp(sJ: int)
    | Ret(op: ReturnOp, a: nat, b: nat, c: nat, k: bool)
    | Other(word: int)

  /** Every jump leads to an instruction of the function (a function always ends with a return). */
  ghost predicate ClosedJumps(code: seq<Instruction>) {
    forall i :: 0 <= i < |code| && code[i].Jmp? ==> 0 <= i + 1 + code[i].sJ < |code|
  }

  /** Position after at most `n` hops, stopping at the first instruction that is not a jump. */
  function Follow(code: seq<Instruction>, pc: int, n: nat): (r: int)
    requires ClosedJumps(code) && 0 <= pc < |code|
    ensures 0 <= r < |code|
    decreases n
  {
    if n == 0 || !code[pc].Jmp? then pc else Follow(code, pc + 1 + code[pc].sJ, n - 1)
  }

  /** `n` hops from `pc` are enough to leave the jumps. */
  ghost predicate Settled(code: seq<Instruction>, pc: int, n: nat)
    requires ClosedJumps(code) && 0 <= pc < |code|
  {
    !code[Follow(code, pc, n)].Jmp?
  }

  /** Execution that arrives at `pc` next executes the non-jump instruction at `q`. */
  ghost predicate SettlesAt(code: seq<Instruction>, pc: int, q: int)
    requires ClosedJumps(code) && 0 <= pc < |code|
  {
    exists n: nat :: Settled(code, pc, n) && Follow(code, pc, n) == q
  }

  /**
   The non-jump instructions executed from `pc` when the i-th of them hands control to
   `successors[i]`; execution that never leaves the jumps adds nothing.
   */
  ghost function Trace(code: seq<Instruction>, pc: int, successors: seq<int>): seq<int>
    requires ClosedJumps(code) && 0 <= pc < |code|
    decreases |successors|
  {
    if !exists q :: SettlesAt(code, pc, q) then [] else
      var q :| SettlesAt(code, pc, q);
      if successors == [] || !(0 <= successors[0] < |code|) then [q]
      else [q] + Trace(code, successors[0], successors[1..])
  }

  // ----- hops compose, and stop once settled -----

  lemma {:induction false} FollowAdd(code: seq<Instruction>, pc: int, m: nat, n: nat)
    requires ClosedJumps(code) && 0 <= pc < |code|
    ensures Follow(code, pc, m + n) == Follow(code, Follow(code, pc, m), n)
    decreases m
  {
    if m > 0 && code[pc].Jmp? {
      FollowAdd(code, pc + 1 + code[pc].sJ, m - 1, n);
    }
  }

  lemma SettledStays(code: seq<Instruction>, pc: int, m: nat, n: nat)
    requires ClosedJumps(code) && 0 <= pc < |code|
    requires Settled(code, pc, m) && m <= n
    ensures Follow(code, pc, n) == Follow(code, pc, m)
  {
    FollowAdd(code, pc, m, n - m);
  }

  /** An instruction settles at one place only. */
  lemma SettlesAtOnePlace(code: seq<Instruction>, pc: int, q: int, r: int)
    requires ClosedJumps(code) && 0 <= pc < |code|
    requires SettlesAt(code, pc, q) && SettlesAt(code, pc, r)
    ensures q == r
  {
    var m: nat :| Settled(code, pc, m) && Follow(code, pc, m) == q;
    var n: nat :| Settled(code, pc, n) && Follow(code, pc, n) == r;
    if m <= n { SettledStays(code, pc, m, n); } else { SettledStays(code, pc, n, m); }
  }

  // ----- one redirected jump -----

  /** `d` is `c` with the jump at `i` sent `m` hops further (at least the one it made anyway). */
  ghost predicate Redirected(c: seq<Instruction>, d: seq<Instruction>, i: int, m: nat) {
    && ClosedJumps(c) && 0 <= i < |c| && c[i].Jmp? && m > 0
    && d == c[i := Jmp(Follow(c, i, m) - (i + 1))]
  }

  /** Whatever settles still does, at the same place and within the same number of hops. */
  lemma {:induction false} RedirectedKeeps(c: seq<Instruction>, d: seq<Instruction>, i: int, m: nat,
                                           pc: int, n: nat)
    requires Redirected(c, d, i, m) && ClosedJumps(d)
    requires 0 <= pc < |c| && Settled(c, pc, n)
    ensures Follow(d, pc, n) == Follow(c, pc, n)
    decreases n
  {
    if pc == i {
      var t := Follow(c, i, m);
      if m <= n {
        FollowAdd(c, i, m, n - m);
        SettledStays(c, t, n - m, n - 1);
      } else {
        SettledStays(c, i, n, m);
        assert Follow(c, t, n - 1) == t;
      }
      RedirectedKeeps(c, d, i, m, t, n - 1);
    } else if c[pc].Jmp? {
      RedirectedKeeps(c, d, i, m, pc + 1 + c[pc].sJ, n - 1);
    }
  }

  /** Whatever settles afterwards settled at that place before. */
  lemma {:induction false} RedirectedAddsNothing(c: seq<Instruction>, d: seq<Instruction>, i: int, m: nat,
                                                 pc: int, n: nat)
    requires Redirected(c, d, i, m) && ClosedJumps(d)
    requires 0 <= pc < |c| && Settled(d, pc, n)
    ensures SettlesAt(c, pc, Follow(d, pc, n))
    decreases n
  {
    var q := Follow(d, pc, n);
    if !d[pc].Jmp? {
      assert Settled(c, pc, 0);
    } else {
      var t := pc + 1 + d[pc].sJ;
      RedirectedAddsNothing(c, d, i, m, t, n - 1);
      var h: nat :| Settled(c, t, h) && Follow(c, t, h) == q;
      var first := if pc == i then m else 1;
      assert Follow(c, pc, first) == t by {
        if pc != i { assert Follow(c, t, 0) == t; }
      }
      FollowAdd(c, pc, first, h);
      assert Settled(c, pc, first + h);
    }
  }

  // ----- the whole pass -----

  /** Everything that settles in `c` settles in `d` at the same place, no later, and conversely. */
  ghost predicate SameSettling(c: seq<Instruction>, d: seq<Instruction>) {
    && ClosedJumps(c) && ClosedJumps(d) && |c| == |d|
    && (forall pc, n: nat :: 0 <= pc < |c| && Settled(c, pc, n) ==> Follow(d, pc, n) == Follow(c, pc, n))
    && (forall pc, q :: 0 <= pc < |c| && SettlesAt(d, pc, q) ==> SettlesAt(c, pc, q))
    && (forall i :: 0 <= i < |c| ==> (c[i].Jmp? <==> d[i].Jmp?))
  }

  lemma SameSettlingStep(before: seq<Instruction>, c: seq<Instruction>, d: seq<Instruction>, i: int, m: nat)
    requires SameSettling(before, c) && Redirected(c, d, i, m)
    ensures SameSettling(before, d)
  {
    assert ClosedJumps(d);
    forall pc, n: nat | 0 <= pc < |c| && Settled(before, pc, n)
      ensures Follow(d, pc, n) == Follow(before, pc, n)
    {
      assert Settled(c, pc, n);
      RedirectedKeeps(c, d, i, m, pc, n);
    }
    forall pc, q | 0 <= pc < |c| && SettlesAt(d, pc, q)
      ensures SettlesAt(before, pc, q)
    {
      var n: nat :| Settled(d, pc, n) && Follow(d, pc, n) == q;
      RedirectedAddsNothing(c, d, i, m, pc, n);
    }
  }

  lemma {:induction false} FollowIgnoresOthers(c: seq<Instruction>, d: seq<Instruction>, pc: int, n: nat)
    requires ClosedJumps(c) && ClosedJumps(d) && |c| == |d| && 0 <= pc < |c|
    requires forall i :: 0 <= i < |c| ==> (c[i].Jmp? <==> d[i].Jmp?) && (c[i].Jmp? ==> c[i] == d[i])
    ensures Follow(d, pc, n) == Follow(c, pc, n)
    decreases n
  {
    if n > 0 && c[pc].Jmp? {
      FollowIgnoresOthers(c, d, pc + 1 + c[pc].sJ, n - 1);
    }
  }

  lemma SameSettlingNonJump(before: seq<Instruction>, c: seq<Instruction>, d: seq<Instruction>, i: int)
    requires SameSettling(before, c) && 0 <= i < |c| && |d| == |c|
    requires !c[i].Jmp? && !d[i].Jmp? && d == c[i := d[i]]
    ensures SameSettling(before, d)
  {
    assert ClosedJumps(d);
    forall pc, n: nat | 0 <= pc < |c|
      ensures Follow(d, pc, n) == Follow(c, pc, n)
    {
      FollowIgnoresOthers(c, d, pc, n);
    }
    forall pc, q | 0 <= pc < |c| && SettlesAt(d, pc, q)
      ensures SettlesAt(before, pc, q)
    {
      var n: nat :| Settled(d, pc, n) && Follow(d, pc, n) == q;
      assert Settled(c, pc, n);
    }
  }

  /** Settling alike means executing alike, whatever the other instructions do. */
  lemma {:induction false} SameTrace(c: seq<Instruction>, d: seq<Instruction>, pc: int, successors: seq<int>)
    requires SameSettling(c, d) && 0 <= pc < |c|
    ensures Trace(c, pc, successors) == Trace(d, pc, successors)
    ensures (exists q :: SettlesAt(c, pc, q)) <==> (exists q :: SettlesAt(d, pc, q))
    decreases |successors|
  {
    forall q | SettlesAt(c, pc, q)
      ensures SettlesAt(d, pc, q)
    {
      var n: nat :| Settled(c, pc, n) && Follow(c, pc, n) == q;
      assert Settled(d, pc, n);
    }
    if q, r :| SettlesAt(c, pc, q) && SettlesAt(d, pc, r) {
      forall s | SettlesAt(c, pc, s) ensures s == q { SettlesAtOnePlace(c, pc, s, q); }
      forall s | SettlesAt(d, pc, s) ensures s == r { SettlesAtOnePlace(d, pc, s, r); }
      if successors != [] && 0 <= successors[0] < |c| {
        SameTrace(c, d, successors[0], successors[1..]);
      }
    }
  }

  method FinalTarget(code: array<Instruction>, start: int) returns (i: int)
    requires ClosedJumps(code[..]) && 0 <= start < code.Length
    ensures i == Follow(code[..], start, MAX_HOPS)
  {
    i := start;
    var count := 0;
    while count < MAX_HOPS
      invariant 0 <= count <= MAX_HOPS && 0 <= i < code.Length
      invariant Follow(code[..], start, MAX_HOPS) == Follow(code[..], i, MAX_HOPS - count)
    {
      if !code[i].Jmp? {
        break;
      }
      i := i + code[i].sJ + 1;
      count := count + 1;
    }
  }

  /** The test in `fixjump`; outside it the compiler stops with "control structure too long". */
  predicate JumpFits(pc: int, dest: int) {
    -OFFSET_SJ <= dest - (pc + 1) <= MAXARG_SJ - OFFSET_SJ
  }

  /** Operand sJ is kept in 25 bits, after 0xFFFFFF has been added. */
  ghost predicate JumpsFit(code: seq<Instruction>, n: int) {
    forall i :: 0 <= i < n <= |code| && code[i].Jmp? ==> 0 <= code[i].sJ + 0xFF_FFFF <= 0x1FF_FFFF
  }

  lemma NothingFinished(code: seq<Instruction>, needclose: bool, numparams: nat, vararg: bool)
    requires ClosedJumps(code)
    ensures SameSettling(code, code) && Finished(code, code, needclose, numparams, vararg, 0) && JumpsFit(code, 0)
  {
  }

  lemma StillClosed(before: seq<Instruction>, c: seq<Instruction>)
    requires SameSettling(before, c)
    ensures ClosedJumps(before) && ClosedJumps(c) && |before| == |c|
  {
  }

  lemma JumpsFitStep(c: seq<Instruction>, d: seq<Instruction>, i: int)
    requires 0 <= i < |c| == |d| && d == c[i := d[i]] && JumpsFit(c, i)
    requires d[i].Jmp? ==> JumpFits(i, i + 1 + d[i].sJ)
    ensures JumpsFit(d, i + 1)
  {
    assert forall k :: 0 <= k < i ==> d[k] == c[k];
  }

  function FinishReturn(i: Instruction, needclose: bool, numparams: nat, vararg: bool): (j: Instruction)
    requires i.Ret?
    ensures j.Ret?
  {
    if (i.op.Return0? || i.op.Return1?) && !(needclose || vararg) then
      i
    else
      var op := if i.op.TailCall? then TailCall else Return;
      Ret(op, i.a, i.b, if vararg then numparams + 1 else i.c, i.k || needclose)
  }

  // ----- what a return does -----

  /** A call in progress: where its function is on the stack now, and how many extra arguments are below it. */
  datatype Frame = Frame(func: int, extra: int)

  /**
   A call of the function at `callee` with `actual` arguments, at least as many as parameters. A function with
   varargs moves itself above its arguments; in others `extra` has no meaning and may be anything.
   */
  function Entered(callee: int, actual: nat, extra: int, numparams: nat, vararg: bool): Frame
    requires numparams <= actual
  {
    if vararg then Frame(callee + actual + 1, actual - numparams) else Frame(callee, extra)
  }

  /** How a call ends: with `count` values from a register on (-1 for all up to the top), perhaps in another call. */
  datatype Leaving = Leaving(calls: bool, first: nat, count: int, closes: bool, func: int)

  /** The function is put back to where it was called, if operand C is not zero. */
  function Restored(c: nat, f: Frame): int { if c > 0 then f.func - (f.extra + c) else f.func }

  /** What the interpreter does at a return. */
  function Leave(i: Instruction, f: Frame): Leaving
    requires i.Ret?
  {
    match i.op
    case Return0 => Leaving(false, i.a, 0, false, f.func)
    case Return1 => Leaving(false, i.a, 1, false, f.func)
    case Return => Leaving(false, i.a, i.b - 1, i.k, Restored(i.c, f))
    case TailCall => Leaving(true, i.a, i.b - 1, i.k, Restored(i.c, f))
  }

  /** Returns before they are completed: operand B repeats what the short opcodes imply, and nothing is to be done. */
  predicate Incomplete(i: Instruction) {
    i.Ret? && i.c == 0 && !i.k && (i.op.Return0? ==> i.b == 1) && (i.op.Return1? ==> i.b == 2)
  }

  /**
   A completed return gives back the same values, closes variables just if it must, and leaves from the place where
   the function was called, no matter how many arguments it got.
   */
  ghost predicate Completed(i: Instruction, j: Instruction, needclose: bool, numparams: nat, vararg: bool)
    requires i.Ret?
  {
    && j.Ret?
    && (forall callee, actual: nat, extra | numparams <= actual ::
          var f := Entered(callee, actual, extra, numparams, vararg);
          Leave(j, f) == Leave(i, f).(closes := needclose, func := callee))
  }

  lemma FinishReturnCompletes(i: Instruction, needclose: bool, numparams: nat, vararg: bool)
    requires Incomplete(i)
    ensures var j := FinishReturn(i, needclose, numparams, vararg);
      && Completed(i, j, needclose, numparams, vararg)
      && (j.c > 0 <==> vararg) && (j.k <==> needclose) && j.a == i.a && j.b == i.b
      && (j.op == i.op || (j.op.Return? && (needclose || vararg)))
  {
  }

  /** The first `done` instructions are final: returns completed, short jump chains collapsed. */
  ghost predicate Finished(before: seq<Instruction>, after: seq<Instruction>,
                           needclose: bool, numparams: nat, vararg: bool, done: int)
    requires ClosedJumps(before) && |before| == |after|
  {
    forall i :: 0 <= i < |before| ==>
      if i >= done || before[i].Other? then after[i] == before[i]
      else if before[i].Ret? then after[i] == FinishReturn(before[i], needclose, numparams, vararg)
      else after[i].Jmp? && (Settled(before, i, MAX_HOPS) ==> i + 1 + after[i].sJ == Follow(before, i, MAX_HOPS))
  }

  ghost predicate AllCompleted(before: seq<Instruction>, after: seq<Instruction>,
                               needclose: bool, numparams: nat, vararg: bool)
    requires |before| == |after|
  {
    forall i :: 0 <= i < |before| && Incomplete(before[i]) ==>
      Completed(before[i], after[i], needclose, numparams, vararg)
  }

  lemma FinishedCompletes(before: seq<Instruction>, after: seq<Instruction>,
                          needclose: bool, numparams: nat, vararg: bool)
    requires ClosedJumps(before) && |before| == |after|
    requires Finished(before, after, needclose, numparams, vararg, |before|)
    ensures AllCompleted(before, after, needclose, numparams, vararg)
  {
    forall i | 0 <= i < |before| && Incomplete(before[i])
      ensures Completed(before[i], after[i], needclose, numparams, vararg)
    {
      FinishReturnCompletes(before[i], needclose, numparams, vararg);
    }
  }

  /** What one iteration of the pass does to the instruction at `i`. */
  ghost predicate FinishesOne(c: seq<Instruction>, d: seq<Instruction>,
                              needclose: bool, numparams: nat, vararg: bool, i: int)
    requires ClosedJumps(c)
  {
    && 0 <= i < |c| == |d| && d == c[i := d[i]]
    && match c[i]
       case Other(_) => d == c
       case Ret(_, _, _, _, _) => d[i] == FinishReturn(c[i], needclose, numparams, vararg)
       case Jmp(_) => d[i] == Jmp(Follow(c, i, MAX_HOPS) - (i + 1))
  }

  lemma FinishedStep(before: seq<Instruction>, c: seq<Instruction>, d: seq<Instruction>,
                     needclose: bool, numparams: nat, vararg: bool, i: int)
    requires SameSettling(before, c) && Finished(before, c, needclose, numparams, vararg, i)
    requires FinishesOne(c, d, needclose, numparams, vararg, i)
    ensures Finished(before, d, needclose, numparams, vararg, i + 1)
  {
    assert forall k :: 0 <= k < |c| && k != i ==> d[k] == c[k];
    if before[i].Jmp? {
      assert i + 1 + d[i].sJ == Follow(c, i, MAX_HOPS);
    }
  }

  method Finish(code: array<Instruction>, needclose: bool, numparams: nat, vararg: bool)
    returns (ok: bool)
    requires ClosedJumps(code[..])
    modifies code
    ensures code.Length <= OFFSET_SJ ==> ok
    ensures ok ==> SameSettling(old(code[..]), code[..])
    ensures ok ==> Finished(old(code[..]), code[..], needclose, numparams, vararg, code.Length)
    ensures ok ==> JumpsFit(code[..], code.Length)
    ensures ok ==> AllCompleted(old(code[..]), code[..], needclose, numparams, vararg)
  {
    hide AllCompleted, FinishReturn, JumpsFit, SameSettling, Finished, Follow, ClosedJumps;
    ghost var before := code[..];
    NothingFinished(before, needclose, numparams, vararg);
    var i := 0;
    while i < code.Length
      invariant 0 <= i <= code.Length
      invariant SameSettling(before, code[..]) && ClosedJumps(before) && ClosedJumps(code[..])
      invariant Finished(before, code[..], needclose, numparams, vararg, i)
      invariant JumpsFit(code[..], i)
    {
      ghost var c := code[..];
      if code[i].Ret? {
        code[i] := FinishReturn(code[i], needclose, numparams, vararg);
        assert code[..] == c[i := code[i]];
        SameSettlingNonJump(before, c, code[..], i);
      } else if code[i].Jmp? {
        var target := FinalTarget(code, i);
        if !JumpFits(i, target) {
          return false;
        }
        code[i] := Jmp(target - (i + 1));
        assert code[..] == c[i := code[i]];
        SameSettlingStep(before, c, code[..], i, MAX_HOPS);
      }
      StillClosed(before, code[..]);
      FinishedStep(before, c, code[..], needclose, numparams, vararg, i);
      JumpsFitStep(c, code[..], i);
      i := i + 1;
    }
    FinishedCompletes(before, code[..], needclose, numparams, vararg);
    return true;
  }
}
