/**
 Line information of functions: lcode.c writes it as differences, with absolute entries now and then, and ldebug.c
 reads it.
 */
module LineInfo {

  const ABSLINEINFO := -0x80
  const LIMLINEDIFF := 0x80
  const MAXIWTHABS := 128

  /** A difference is a signed byte. */
  type LineDiff = i: int | -128 <= i <= 127

  datatype AbsLineInfo = AbsLineInfo(pc: nat, line: int)

  /** What the code generator does about lines. */
  datatype Op = Code(line: int) | FixLine(line: int) | Replace(line: int)

  /** The lines of the instructions after that. */
  function After(lines: seq<int>, ops: seq<Op>): seq<int>
    decreases |ops|
  {
    if ops == [] then lines else Next(After(lines, ops[..|ops| - 1]), ops[|ops| - 1])
  }

  function Next(lines: seq<int>, op: Op): seq<int> {
    match op
    case Code(line) => lines + [line]
    case FixLine(line) => if lines == [] then lines else lines[|lines| - 1 := line]
    case Replace(line) => if lines == [] then lines else lines[|lines| - 1 := line]
  }

  function Abs(i: int): nat { if i < 0 then -i else i }

  /** Grows an array if need be. */
  function PutAt<T>(s: seq<T>, i: nat, x: T): seq<T>
    requires i <= |s|
  {
    if i < |s| then s[i := x] else s + [x]
  }

  // ----- what the information stands for -----

  /** The line before instruction `k`. */
  function Before(lines: seq<int>, start: int, k: nat): int
    requires k <= |lines|
  {
    if k == 0 then start else lines[k - 1]
  }

  /** A difference from the line before, unless there is an absolute entry. */
  predicate InfoOk(lines: seq<int>, info: seq<LineDiff>, abs: seq<AbsLineInfo>, start: int, k: nat)
    requires k < |lines| <= |info|
  {
    if info[k] == ABSLINEINFO then HasAbs(abs, k)
    else -LIMLINEDIFF < info[k] < LIMLINEDIFF && lines[k] == Before(lines, start, k) + info[k]
  }

  predicate HasAbs(abs: seq<AbsLineInfo>, k: nat) { exists j :: 0 <= j < |abs| && abs[j].pc == k }

  predicate AbsOk(lines: seq<int>, info: seq<LineDiff>, a: AbsLineInfo) {
    a.pc < |lines| <= |info| && info[a.pc] == ABSLINEINFO && a.line == lines[a.pc]
  }

  /** The last absolute entry before number `j`, or the beginning. */
  function PcBefore(abs: seq<AbsLineInfo>, j: nat): nat
    requires j <= |abs|
  {
    if j == 0 then 0 else abs[j - 1].pc
  }

  /** An entry comes after the one before it, and not far behind. */
  predicate Near(abs: seq<AbsLineInfo>, j: nat)
    requires j < |abs|
  {
    (j > 0 ==> PcBefore(abs, j) < abs[j].pc) && abs[j].pc <= PcBefore(abs, j) + MAXIWTHABS
  }

  /** None of the `n` instructions is far from an entry or from the beginning. */
  predicate Spaced(abs: seq<AbsLineInfo>, n: nat) {
    && (forall j :: 0 <= j < |abs| ==> Near(abs, j))
    && PcBefore(abs, |abs|) <= n <= PcBefore(abs, |abs|) + MAXIWTHABS
  }

  lemma {:induction false} Ascends(abs: seq<AbsLineInfo>, n: nat, i: nat, j: nat)
    requires Spaced(abs, n) && i < j < |abs|
    ensures abs[i].pc < abs[j].pc
    decreases j
  {
    assert Near(abs, j);
    if i < j - 1 { Ascends(abs, n, i, j - 1); }
  }

  lemma {:induction false} AbsBound(abs: seq<AbsLineInfo>, n: nat, j: nat)
    requires Spaced(abs, n) && j < |abs|
    ensures abs[j].pc <= 128 * (j + 1)
  {
    assert Near(abs, j);
    if j > 0 { AbsBound(abs, n, j - 1); }
  }

  /** The information stands for the lines. */
  predicate Stands(lines: seq<int>, info: seq<LineDiff>, abs: seq<AbsLineInfo>, start: int) {
    && |lines| <= |info| && Spaced(abs, |lines|)
    && (forall k :: 0 <= k < |lines| ==> InfoOk(lines, info, abs, start, k))
    && (forall j :: 0 <= j < |abs| ==> AbsOk(lines, info, abs[j]))
  }

  lemma LastIsBefore(lines: seq<int>, info: seq<LineDiff>, abs: seq<AbsLineInfo>, start: int)
    requires Stands(lines, info, abs, start) && lines != []
    ensures PcBefore(abs, |abs|) < |lines|
    ensures var k := |lines| - 1; info[k] == ABSLINEINFO ==> abs != [] && abs[|abs| - 1].pc == k
  {
    var k := |lines| - 1;
    if abs != [] { assert AbsOk(lines, info, abs[|abs| - 1]); }
    assert InfoOk(lines, info, abs, start, k);
    if info[k] == ABSLINEINFO {
      var j :| 0 <= j < |abs| && abs[j].pc == k;
      if j < |abs| - 1 { Ascends(abs, |lines|, j, |abs| - 1); }
    }
  }

  /** One more line, as a difference. */
  lemma MoreRelative(lines: seq<int>, info: seq<LineDiff>, abs: seq<AbsLineInfo>, start: int, line: int)
    requires Stands(lines, info, abs, start) && |lines| < PcBefore(abs, |abs|) + MAXIWTHABS
    requires Abs(line - Before(lines, start, |lines|)) < LIMLINEDIFF
    ensures Stands(lines + [line], PutAt(info, |lines|, line - Before(lines, start, |lines|)), abs, start)
  {
    var lines', info' := lines + [line], PutAt(info, |lines|, line - Before(lines, start, |lines|));
    forall k | 0 <= k < |lines'| ensures InfoOk(lines', info', abs, start, k) {
      if k < |lines| { assert InfoOk(lines, info, abs, start, k); }
    }
    forall j | 0 <= j < |abs| ensures AbsOk(lines', info', abs[j]) { assert AbsOk(lines, info, abs[j]); }
  }

  /** One more line, with an absolute entry. */
  lemma MoreAbsolute(lines: seq<int>, info: seq<LineDiff>, abs: seq<AbsLineInfo>, start: int, line: int)
    requires Stands(lines, info, abs, start)
    ensures Stands(lines + [line], PutAt(info, |lines|, ABSLINEINFO), abs + [AbsLineInfo(|lines|, line)], start)
  {
    var lines', info', abs' :=
      lines + [line], PutAt(info, |lines|, ABSLINEINFO), abs + [AbsLineInfo(|lines|, line)];
    assert abs'[|abs|].pc == |lines|;
    forall k | 0 <= k < |lines'| ensures InfoOk(lines', info', abs', start, k) {
      if k < |lines| {
        assert InfoOk(lines, info, abs, start, k);
        HasMore(abs, abs'[|abs|], k);
      }
    }
    forall j | 0 <= j < |abs'| ensures AbsOk(lines', info', abs'[j]) {
      if j < |abs| { assert AbsOk(lines, info, abs[j]); }
    }
    forall j | 0 <= j < |abs'| ensures Near(abs', j) {
      assert PcBefore(abs', j) == PcBefore(abs, j);
      if j < |abs| { assert Near(abs, j); } else if j > 0 { assert AbsOk(lines, info, abs[j - 1]); }
    }
  }

  lemma HasMore(abs: seq<AbsLineInfo>, a: AbsLineInfo, k: nat)
    ensures HasAbs(abs + [a], k) <==> HasAbs(abs, k) || a.pc == k
  {
    var abs' := abs + [a];
    if j :| 0 <= j < |abs| && abs[j].pc == k { assert abs'[j].pc == k; }
    if a.pc == k { assert abs'[|abs|].pc == k; }
  }

  /** The absolute entries without the last line's. */
  function Dropped(lines: seq<int>, info: seq<LineDiff>, abs: seq<AbsLineInfo>): seq<AbsLineInfo>
    requires 0 < |lines| <= |info|
  {
    if info[|lines| - 1] == ABSLINEINFO && abs != [] then abs[..|abs| - 1] else abs
  }

  /** The last line is taken back, with its entry if it has one. */
  lemma OneLess(lines: seq<int>, info: seq<LineDiff>, abs: seq<AbsLineInfo>, start: int)
    requires Stands(lines, info, abs, start) && lines != []
    ensures Stands(lines[..|lines| - 1], info, Dropped(lines, info, abs), start)
  {
    LastIsBefore(lines, info, abs, start);
    var k, m := |lines| - 1, |abs| - 1;
    var lines', abs' := lines[..k], Dropped(lines, info, abs);
    forall n | 0 <= n < k ensures InfoOk(lines', info, abs', start, n) {
      assert InfoOk(lines, info, abs, start, n);
      if abs' != abs {
        assert abs == abs' + [abs[m]];
        HasMore(abs', abs[m], n);
      }
    }
    forall j | 0 <= j < |abs'| ensures AbsOk(lines', info, abs'[j]) {
      assert AbsOk(lines, info, abs[j]);
      if abs' != abs { Ascends(abs, |lines|, j, m); }
    }
    forall j | 0 <= j < |abs'| ensures Near(abs', j) {
      assert PcBefore(abs', j) == PcBefore(abs, j) && Near(abs, j);
    }
    if abs' != abs { assert Near(abs, m) && PcBefore(abs, m) == PcBefore(abs', m); }
    assert PcBefore(abs', |abs'|) <= k by { if abs' != [] { assert AbsOk(lines', info, abs'[|abs'| - 1]); } }
  }

  class FuncState {
    const linedefined: int
    var pc: nat
    var lineinfo: seq<LineDiff>
    var abslineinfo: seq<AbsLineInfo>
    var iwthabs: nat
    var previousline: int
    /** The lines that have been given. */
    ghost var lines: seq<int>

    constructor (linedefined: int)
      ensures Valid() && Settled() && lines == [] && this.linedefined == linedefined
    {
      this.linedefined := linedefined;
      pc, lineinfo, abslineinfo, iwthabs, previousline, lines := 0, [], [], 0, linedefined, [];
    }

    // ----- the invariant -----

    /** Either the next entry can be a difference, or it will be absolute. */
    ghost predicate Tracks()
      reads this
    {
      Stands(lines, lineinfo, abslineinfo, linedefined) && (iwthabs == MAXIWTHABS + 1 || Settled())
    }

    ghost predicate Settled()
      reads `lines, `previousline, `iwthabs, `abslineinfo
    {
      && previousline == Before(lines, linedefined, |lines|)
      && iwthabs == |lines| - PcBefore(abslineinfo, |abslineinfo|)
    }

    ghost predicate Valid()
      reads this
    {
      pc == |lines| && Tracks()
    }

    // ----- writing -----

    /** `savelineinfo` for the last instruction coded. */
    method SaveLineInfo(line: int)
      requires Tracks() && pc == |lines| + 1
      modifies `lineinfo, `abslineinfo, `iwthabs, `previousline, `lines
      ensures Valid() && Settled() && lines == old(lines) + [line]
    {
      hide Stands;
      assert |lines| <= |lineinfo| && |lines| <= PcBefore(abslineinfo, |abslineinfo|) + MAXIWTHABS by { Bounds(); }
      var linedif, k := line - previousline, pc - 1;
      var absolute := Abs(linedif) >= LIMLINEDIFF;
      if !absolute {
        absolute := iwthabs >= MAXIWTHABS;
        iwthabs := iwthabs + 1;
      }
      if absolute {
        MoreAbsolute(lines, lineinfo, abslineinfo, linedefined, line);
        abslineinfo := abslineinfo + [AbsLineInfo(k, line)];
        linedif := ABSLINEINFO;
        iwthabs := 1;
      } else {
        MoreRelative(lines, lineinfo, abslineinfo, linedefined, line);
      }
      lineinfo := PutAt(lineinfo, k, linedif);
      previousline := line;
      lines := lines + [line];
    }

    lemma Bounds()
      requires Tracks()
      ensures |lines| <= |lineinfo| && Spaced(abslineinfo, |lines|)
    {
    }

    /** `removelastlineinfo`: if that was absolute, the next will be so too. */
    method RemoveLastLineInfo()
      requires Valid() && Settled() && pc > 0
      modifies `abslineinfo, `iwthabs, `previousline, `lines
      ensures Tracks() && pc == |lines| + 1 && lines == old(lines)[..pc - 1]
    {
      hide Stands, Spaced;
      Bounds();
      LastIsBefore(lines, lineinfo, abslineinfo, linedefined);
      OneLess(lines, lineinfo, abslineinfo, linedefined);
      var k := pc - 1;
      if lineinfo[k] != ABSLINEINFO {
        assert InfoOk(lines, lineinfo, abslineinfo, linedefined, k) by { InfoIsOk(k); }
        previousline := previousline - lineinfo[k];
        iwthabs := iwthabs - 1;
      } else {
        abslineinfo := abslineinfo[..|abslineinfo| - 1];
        iwthabs := MAXIWTHABS + 1;
      }
      lines := lines[..k];
    }

    lemma InfoIsOk(k: nat)
      requires Tracks() && k < |lines|
      ensures |lines| <= |lineinfo| && InfoOk(lines, lineinfo, abslineinfo, linedefined, k)
    {
    }

    /** `luaK_code` */
    method Code(line: int)
      requires Valid()
      modifies this
      ensures Valid() && Settled() && lines == old(lines) + [line]
    {
      pc := pc + 1;
      SaveLineInfo(line);
    }

    /** `luaK_fixline` */
    method FixLine(line: int)
      requires Valid() && Settled() && pc > 0
      modifies this
      ensures Valid() && Settled() && lines == old(lines)[|old(lines)| - 1 := line]
    {
      RemoveLastLineInfo();
      SaveLineInfo(line);
    }

    /** `removelastinstruction` */
    method RemoveLastInstruction()
      requires Valid() && Settled() && pc > 0
      modifies this
      ensures Valid() && lines == old(lines)[..|old(lines)| - 1]
    {
      RemoveLastLineInfo();
      pc := pc - 1;
    }

    /** Any sequence of operations, with each instruction that is removed replaced at once. */
    method Run(ops: seq<Op>)
      requires Valid() && Settled()
      modifies this
      ensures Valid() && Settled() && lines == After(old(lines), ops)
    {
      for i := 0 to |ops|
        invariant Valid() && Settled() && lines == After(old(lines), ops[..i])
      {
        assert ops[..i + 1][..i] == ops[..i];
        match ops[i] {
          case Code(line) =>
            Code(line);
          case FixLine(line) =>
            if pc > 0 { FixLine(line); }
          case Replace(line) =>
            if pc > 0 {
              RemoveLastInstruction();
              Code(line);
            }
        }
      }
      assert ops[..|ops|] == ops;
    }

    // ----- reading -----

    /** `getbaseline`: the estimate is never too high. */
    method GetBaseLine(q: nat) returns (line: int, basepc: int)
      requires Valid() && q < pc
      ensures -1 <= basepc <= q < |lineinfo| && line == Before(lines, linedefined, basepc + 1)
      ensures forall k :: basepc < k <= q ==> lineinfo[k] != ABSLINEINFO
    {
      if |abslineinfo| == 0 || q < abslineinfo[0].pc {
        NoneBetween(-1, q);
        return linedefined, -1;
      }
      var i := q / MAXIWTHABS - 1;
      AbsBound(abslineinfo, pc, |abslineinfo| - 1);
      if i >= 0 { AbsBound(abslineinfo, pc, i); }
      assert i < 0 || (i < |abslineinfo| && abslineinfo[i].pc <= q);
      while i + 1 < |abslineinfo| && q >= abslineinfo[i + 1].pc
        invariant -1 <= i < |abslineinfo| && (i >= 0 ==> abslineinfo[i].pc <= q)
        decreases |abslineinfo| - i
      {
        i := i + 1;
      }
      assert AbsOk(lines, lineinfo, abslineinfo[i]);
      NoneBetween(i, q);
      return abslineinfo[i].line, abslineinfo[i].pc;
    }

    /** There is no absolute entry between number `i` and the next. */
    lemma NoneBetween(i: int, q: nat)
      requires Valid() && q < pc && -1 <= i < |abslineinfo|
      requires i + 1 < |abslineinfo| ==> q < abslineinfo[i + 1].pc
      ensures q < |lineinfo|
      ensures forall k :: (if i == -1 then -1 else abslineinfo[i].pc) < k <= q ==> lineinfo[k] != ABSLINEINFO
    {
      forall k | (if i == -1 then -1 else abslineinfo[i].pc) < k <= q ensures lineinfo[k] != ABSLINEINFO {
        assert InfoOk(lines, lineinfo, abslineinfo, linedefined, k);
        if j :| 0 <= j < |abslineinfo| && abslineinfo[j].pc == k {
          if j < i { Ascends(abslineinfo, pc, j, i); }
          if j > i + 1 { Ascends(abslineinfo, pc, i + 1, j); }
        }
      }
    }

    /** `luaG_getfuncline`: the line that was given for the instruction. */
    method GetFuncLine(q: nat) returns (line: int)
      requires Valid() && q < pc
      ensures line == lines[q]
    {
      var basepc;
      line, basepc := GetBaseLine(q);
      while basepc < q
        invariant -1 <= basepc <= q && line == Before(lines, linedefined, basepc + 1)
        invariant forall k :: basepc < k <= q ==> lineinfo[k] != ABSLINEINFO
      {
        basepc := basepc + 1;
        assert InfoOk(lines, lineinfo, abslineinfo, linedefined, basepc);
        line := line + lineinfo[basepc];
      }
    }

    /** `changedline`: whether two instructions are on different lines. */
    method ChangedLine(oldpc: nat, newpc: nat) returns (changed: bool)
      requires Valid() && oldpc < newpc < pc
      ensures changed <==> lines[oldpc] != lines[newpc]
    {
      if newpc - oldpc < MAXIWTHABS / 2 {
        var delta: int, q := 0, oldpc;
        while true
          invariant oldpc <= q < newpc && delta == lines[q] - lines[oldpc]
          decreases newpc - q
        {
          q := q + 1;
          assert InfoOk(lines, lineinfo, abslineinfo, linedefined, q);
          if lineinfo[q] == ABSLINEINFO { break; }
          delta := delta + lineinfo[q];
          if q == newpc { return delta != 0; }
        }
      }
      var a := GetFuncLine(oldpc);
      var b := GetFuncLine(newpc);
      return a != b;
    }
  }
}
