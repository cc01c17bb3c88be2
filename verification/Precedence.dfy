/**
 Operator precedence in the parser (lparser.c): `subexpr` with its table of priorities, against the trees that
 it stands for.
 */
module Precedence {

  /** The tokens that matter for expressions. */
  datatype Token =
    | Operand(id: nat) | LParen | RParen
    | Plus | Minus | Star | Percent | Caret | Slash | DoubleSlash | Ampersand | Bar | Tilde | Hash
    | Shl | Shr | Concat | NE | EQ | LT | LE | GT | GE | AndWord | OrWord | NotWord
    | Eos

  datatype UnOpr = NOT | MINUS | BNOT | LEN | NOUNOPR

  datatype BinOpr =
    | ADD | SUB | MUL | MOD | POW | DIV | IDIV | BAND | BOR | BXOR | SHL | SHR | CONCAT
    | OPEQ | OPLT | OPLE | OPNE | OPGT | OPGE | AND | OR | NOBINOPR

  /** `getunopr` */
  function GetUnOpr(t: Token): UnOpr {
    match t
    case NotWord => NOT
    case Minus => MINUS
    case Tilde => BNOT
    case Hash => LEN
    case _ => NOUNOPR
  }

  /** `getbinopr` */
  function GetBinOpr(t: Token): BinOpr {
    match t
    case Plus => ADD
    case Minus => SUB
    case Star => MUL
    case Percent => MOD
    case Caret => POW
    case Slash => DIV
    case DoubleSlash => IDIV
    case Ampersand => BAND
    case Bar => BOR
    case Tilde => BXOR
    case Shl => SHL
    case Shr => SHR
    case Concat => CONCAT
    case NE => OPNE
    case EQ => OPEQ
    case LT => OPLT
    case LE => OPLE
    case GT => OPGT
    case GE => OPGE
    case AndWord => AND
    case OrWord => OR
    case _ => NOBINOPR
  }

  /** `priority`, on the left side of an operator. */
  function Left(op: BinOpr): nat {
    match op
    case ADD => 10 case SUB => 10
    case MUL => 11 case MOD => 11
    case POW => 14
    case DIV => 11 case IDIV => 11
    case BAND => 6 case BOR => 4 case BXOR => 5
    case SHL => 7 case SHR => 7
    case CONCAT => 9
    case OPEQ => 3 case OPLT => 3 case OPLE => 3
    case OPNE => 3 case OPGT => 3 case OPGE => 3
    case AND => 2 case OR => 1
    case NOBINOPR => 0
  }

  /** `priority`, on the right side; only `^` and `..` are right associative. */
  function Right(op: BinOpr): nat {
    match op
    case POW => 13
    case CONCAT => 8
    case _ => Left(op)
  }

  const UNARY_PRIORITY := 12

  /** No operator binds more tightly than this. */
  const TIGHTEST := 15

  // ----- expressions, and trees as they are written -----

  datatype Exp = Leaf(id: nat) | Unary(op: UnOpr, e: Exp) | Binary(bop: BinOpr, a: Exp, b: Exp)

  /** An expression with its parentheses. */
  datatype Tree = Name(id: nat) | Paren(t: Tree) | Prefix(op: UnOpr, t: Tree) | Infix(bop: BinOpr, l: Tree, r: Tree)

  /** What is written means the same without its parentheses. */
  function Strip(t: Tree): Exp {
    match t
    case Name(id) => Leaf(id)
    case Paren(u) => Strip(u)
    case Prefix(op, u) => Unary(op, Strip(u))
    case Infix(op, l, r) => Binary(op, Strip(l), Strip(r))
  }

  function UnToken(op: UnOpr): Token {
    match op
    case NOT => NotWord
    case MINUS => Minus
    case BNOT => Tilde
    case LEN => Hash
    case NOUNOPR => Eos
  }

  function BinToken(op: BinOpr): Token {
    match op
    case ADD => Plus
    case SUB => Minus
    case MUL => Star
    case MOD => Percent
    case POW => Caret
    case DIV => Slash
    case IDIV => DoubleSlash
    case BAND => Ampersand
    case BOR => Bar
    case BXOR => Tilde
    case SHL => Shl
    case SHR => Shr
    case CONCAT => Concat
    case OPNE => NE
    case OPEQ => EQ
    case OPLT => LT
    case OPLE => LE
    case OPGT => GT
    case OPGE => GE
    case AND => AndWord
    case OR => OrWord
    case NOBINOPR => Eos
  }

  function Tokens(t: Tree): (ts: seq<Token>)
    ensures ts != []
  {
    match t
    case Name(id) => [Operand(id)]
    case Paren(u) => [LParen] + Tokens(u) + [RParen]
    case Prefix(op, u) => [UnToken(op)] + Tokens(u)
    case Infix(op, l, r) => Tokens(l) + [BinToken(op)] + Tokens(r)
  }

  // ----- the grammar, with priorities -----

  /** The lowest limit at the right end of a tree: a following operator above it would belong there. */
  function Edge(t: Tree): (p: nat)
    ensures p <= TIGHTEST
  {
    match t
    case Name(_) => TIGHTEST
    case Paren(_) => TIGHTEST
    case Prefix(_, u) => Min(UNARY_PRIORITY, Edge(u))
    case Infix(op, _, r) => Min(Right(op), Edge(r))
  }

  function Min(a: nat, b: nat): nat { if a < b then a else b }

  /** The operators of a tree bind as its shape says, when all that binds no more than `limit` belongs elsewhere. */
  predicate WellFormed(t: Tree, limit: nat) {
    match t
    case Name(_) => true
    case Paren(u) => WellFormed(u, 0)
    case Prefix(op, u) => !op.NOUNOPR? && WellFormed(u, UNARY_PRIORITY)
    case Infix(op, l, r) =>
      && !op.NOBINOPR? && Left(op) > limit
      && WellFormed(l, limit) && Left(op) <= Edge(l)
      && WellFormed(r, Right(op))
  }

  function Look(ts: seq<Token>, i: nat): Token { if i < |ts| then ts[i] else Eos }

  /** What follows does not belong to a tree with this limit. */
  predicate Stops(ts: seq<Token>, i: nat, limit: nat) {
    var op := GetBinOpr(Look(ts, i));
    !op.NOBINOPR? ==> Left(op) <= limit
  }

  // ----- parsing, as a function -----

  datatype Result = Ok(t: Tree, next: nat) | SyntaxError(at: nat)

  /** One operand with its prefix operators. */
  function ParseOperand(ts: seq<Token>, i: nat): (r: Result)
    ensures r.Ok? ==> i < r.next <= |ts|
    decreases |ts| - i, 0
  {
    if i >= |ts| then SyntaxError(i)
    else if !GetUnOpr(ts[i]).NOUNOPR? then
      var r := ParseAt(ts, i + 1, UNARY_PRIORITY);
      if r.Ok? then Ok(Prefix(GetUnOpr(ts[i]), r.t), r.next) else r
    else if ts[i].Operand? then Ok(Name(ts[i].id), i + 1)
    else if ts[i].LParen? then
      var r := ParseAt(ts, i + 1, 0);
      if !r.Ok? then r
      else if Look(ts, r.next).RParen? then Ok(Paren(r.t), r.next + 1)
      else SyntaxError(r.next)
    else SyntaxError(i)
  }

  function ParseAt(ts: seq<Token>, i: nat, limit: nat): (r: Result)
    ensures r.Ok? ==> i < r.next <= |ts|
    decreases |ts| - i, 1
  {
    var r := ParseOperand(ts, i);
    if r.Ok? then ParseMore(ts, r.t, r.next, limit) else r
  }

  /** The operators after an operand. */
  function ParseMore(ts: seq<Token>, l: Tree, i: nat, limit: nat): (r: Result)
    requires i <= |ts|
    ensures r.Ok? ==> i <= r.next <= |ts|
    decreases |ts| - i, 0
  {
    if Stops(ts, i, limit) then Ok(l, i)
    else
      var op := GetBinOpr(ts[i]);
      var r := ParseAt(ts, i + 1, Right(op));
      if r.Ok? then ParseMore(ts, Infix(op, l, r.t), r.next, limit) else r
  }

  // ----- what is parsed -----

  lemma TokenOfOperators(u: UnOpr, b: BinOpr)
    ensures !u.NOUNOPR? ==> GetUnOpr(UnToken(u)) == u
    ensures !b.NOBINOPR? ==> GetBinOpr(BinToken(b)) == b
  {
  }

  lemma OperatorOfToken(t: Token)
    ensures !GetUnOpr(t).NOUNOPR? ==> UnToken(GetUnOpr(t)) == t
    ensures !GetBinOpr(t).NOBINOPR? ==> BinToken(GetBinOpr(t)) == t
  {
  }

  /** The tree is written from `i` to `n`, and nothing more belongs to it. */
  predicate Written(ts: seq<Token>, i: nat, n: nat, t: Tree) {
    i <= n <= |ts| && ts[i..n] == Tokens(t)
  }

  /** Only well-formed trees are parsed, from their own tokens, up to the first operator not above the limit. */
  lemma {:induction false} ParsedIsWellFormed(ts: seq<Token>, i: nat, limit: nat)
    ensures var r := ParseAt(ts, i, limit);
      r.Ok? ==> WellFormed(r.t, limit) && Written(ts, i, r.next, r.t) && Stops(ts, r.next, Min(limit, Edge(r.t)))
    decreases |ts| - i, 2
  {
    OperandIsWellFormed(ts, i, limit);
    var r := ParseOperand(ts, i);
    if r.Ok? { MoreIsWellFormed(ts, i, r.t, r.next, limit); }
  }

  lemma {:induction false} OperandIsWellFormed(ts: seq<Token>, i: nat, limit: nat)
    ensures var r := ParseOperand(ts, i);
      r.Ok? ==> WellFormed(r.t, limit) && Written(ts, i, r.next, r.t) && Stops(ts, r.next, Edge(r.t))
    decreases |ts| - i, 1
  {
    if i < |ts| {
      OperatorOfToken(ts[i]);
      if !GetUnOpr(ts[i]).NOUNOPR? {
        ParsedIsWellFormed(ts, i + 1, UNARY_PRIORITY);
      } else if ts[i].LParen? {
        ParsedIsWellFormed(ts, i + 1, 0);
      }
    }
  }

  lemma Joined(ts: seq<Token>, i: nat, m: nat, n: nat)
    requires i <= m < n <= |ts|
    ensures ts[i..n] == ts[i..m] + [ts[m]] + ts[m + 1..n]
  {
  }

  lemma {:induction false} MoreIsWellFormed(ts: seq<Token>, start: nat, l: Tree, i: nat, limit: nat)
    requires start <= i <= |ts| && WellFormed(l, limit) && Written(ts, start, i, l) && Stops(ts, i, Edge(l))
    ensures var r := ParseMore(ts, l, i, limit);
      r.Ok? ==> WellFormed(r.t, limit) && Written(ts, start, r.next, r.t) && Stops(ts, r.next, Min(limit, Edge(r.t)))
    decreases |ts| - i, 1
  {
    if !Stops(ts, i, limit) {
      var op := GetBinOpr(ts[i]);
      OperatorOfToken(ts[i]);
      ParsedIsWellFormed(ts, i + 1, Right(op));
      var r := ParseAt(ts, i + 1, Right(op));
      if r.Ok? {
        Joined(ts, start, i, r.next);
        MoreIsWellFormed(ts, start, Infix(op, l, r.t), r.next, limit);
      }
    }
  }

  /** A well-formed tree is parsed from its tokens; then parsing goes on with what follows. */
  lemma {:induction false} WellFormedIsParsed(ts: seq<Token>, i: nat, n: nat, t: Tree, limit: nat)
    requires Written(ts, i, n, t) && WellFormed(t, limit) && Stops(ts, n, Edge(t))
    ensures ParseAt(ts, i, limit) == ParseMore(ts, t, n, limit)
    decreases t, 1
  {
    hide Written, Tokens;
    match t {
      case Name(id) =>
        NameParts(ts, i, n, id);
      case Paren(u) =>
        ParenParts(ts, i, n, u);
        WellFormedIsParsed(ts, i + 1, n - 1, u, 0);
      case Prefix(op, u) =>
        TokenOfOperators(op, NOBINOPR);
        PrefixParts(ts, i, n, op, u);
        WellFormedIsParsed(ts, i + 1, n, u, UNARY_PRIORITY);
      case Infix(op, l, r) =>
        InfixIsParsed(ts, i, n, t, limit);
    }
  }

  lemma {:induction false} InfixIsParsed(ts: seq<Token>, i: nat, n: nat, t: Tree, limit: nat)
    requires t.Infix? && Written(ts, i, n, t) && WellFormed(t, limit) && Stops(ts, n, Edge(t))
    ensures ParseAt(ts, i, limit) == ParseMore(ts, t, n, limit)
    decreases t, 0
  {
    hide ParseAt, ParseOperand, Written, Tokens;
    var m := InfixParts(ts, i, n, t.bop, t.l, t.r);
    TokenOfOperators(NOUNOPR, t.bop);
    WellFormedIsParsed(ts, i, m, t.l, limit);
    WellFormedIsParsed(ts, m + 1, n, t.r, Right(t.bop));
  }

  lemma NameParts(ts: seq<Token>, i: nat, n: nat, id: nat)
    requires Written(ts, i, n, Name(id))
    ensures n == i + 1 <= |ts| && ts[i] == Operand(id)
  {
    assert ts[i..n][0] == Operand(id);
  }

  lemma Slice(ts: seq<Token>, i: nat, n: nat, a: nat, b: nat)
    requires i <= n <= |ts| && a <= b <= n - i
    ensures ts[i..n][a..b] == ts[i + a..i + b]
  {
    var c := ts[i..n];
    forall k | 0 <= k < b - a ensures c[a..b][k] == ts[i + a..i + b][k] { assert c[a + k] == ts[i + a + k]; }
  }

  lemma ParenParts(ts: seq<Token>, i: nat, n: nat, u: Tree)
    requires Written(ts, i, n, Paren(u))
    ensures i + 2 <= n && ts[i] == LParen && Written(ts, i + 1, n - 1, u) && ts[n - 1] == RParen
  {
    var c := ts[i..n];
    assert c[0] == LParen && c[1..|c| - 1] == Tokens(u) && c[|c| - 1] == RParen;
    Slice(ts, i, n, 1, n - i - 1);
  }

  lemma PrefixParts(ts: seq<Token>, i: nat, n: nat, op: UnOpr, u: Tree)
    requires Written(ts, i, n, Prefix(op, u))
    ensures i < n && ts[i] == UnToken(op) && Written(ts, i + 1, n, u)
  {
    var c := ts[i..n];
    assert c[0] == UnToken(op) && c[1..|c|] == Tokens(u);
    Slice(ts, i, n, 1, n - i);
  }

  lemma InfixParts(ts: seq<Token>, i: nat, n: nat, op: BinOpr, l: Tree, r: Tree) returns (m: nat)
    requires Written(ts, i, n, Infix(op, l, r))
    ensures i < m < n && Written(ts, i, m, l) && ts[m] == BinToken(op) && Written(ts, m + 1, n, r)
  {
    var c, k := ts[i..n], |Tokens(l)|;
    m := i + k;
    assert c == Tokens(l) + [BinToken(op)] + Tokens(r);
    assert c[0..k] == Tokens(l) && c[k] == BinToken(op) && c[k + 1..|c|] == Tokens(r);
    Slice(ts, i, n, 0, k);
    Slice(ts, i, n, k + 1, n - i);
  }

  /**
   `subexpr` finds a tree if and only if there is one: well-formed, and such that what follows does not
   belong to it.
   */
  lemma ParsesJustTheWellFormed(ts: seq<Token>, i: nat, limit: nat, t: Tree, n: nat)
    ensures ParseAt(ts, i, limit) == Ok(t, n) <==>
      WellFormed(t, limit) && Written(ts, i, n, t) && Stops(ts, n, Min(limit, Edge(t)))
  {
    ParsedIsWellFormed(ts, i, limit);
    if WellFormed(t, limit) && Written(ts, i, n, t) && Stops(ts, n, Min(limit, Edge(t))) {
      WellFormedIsParsed(ts, i, n, t, limit);
    }
  }

  /** The grammar is not ambiguous. */
  lemma Unambiguous(t: Tree, u: Tree, limit: nat)
    requires WellFormed(t, limit) && WellFormed(u, limit) && Tokens(t) == Tokens(u)
    ensures t == u
  {
    var ts := Tokens(t);
    assert ts[0..|ts|] == ts;
    ParsesJustTheWellFormed(ts, 0, limit, t, |ts|);
    ParsesJustTheWellFormed(ts, 0, limit, u, |ts|);
  }

  // ----- as few parentheses as possible -----

  /** Parentheses if the operator of the tree is not above the limit. */
  function Guarded(t: Tree, limit: nat): Tree {
    if t.Infix? && Left(t.bop) <= limit then Paren(t) else t
  }

  /** Parentheses if the operator that follows would belong to the right end of the tree. */
  function GuardedLeft(t: Tree, op: BinOpr): Tree {
    if Left(op) > Edge(t) then Paren(t) else t
  }

  function Minimal(e: Exp): Tree {
    match e
    case Leaf(id) => Name(id)
    case Unary(op, a) => Prefix(op, Guarded(Minimal(a), UNARY_PRIORITY))
    case Binary(op, a, b) => Infix(op, GuardedLeft(Minimal(a), op), Guarded(Minimal(b), Right(op)))
  }

  predicate Proper(e: Exp) {
    match e
    case Leaf(_) => true
    case Unary(op, a) => !op.NOUNOPR? && Proper(a)
    case Binary(op, a, b) => !op.NOBINOPR? && Proper(a) && Proper(b)
  }

  function Parens(t: Tree): nat {
    match t
    case Name(_) => 0
    case Paren(u) => 1 + Parens(u)
    case Prefix(_, u) => Parens(u)
    case Infix(_, l, r) => Parens(l) + Parens(r)
  }

  /** A tree that is well-formed for some limit is so for all below its own operator. */
  lemma {:induction false} WellFormedBelow(t: Tree, limit: nat, limit': nat)
    requires WellFormed(t, limit) && (t.Infix? ==> Left(t.bop) > limit')
    ensures WellFormed(t, limit')
    decreases t
  {
    if t.Infix? {
      if t.l.Infix? { assert Left(t.bop) <= Edge(t.l) <= Right(t.l.bop) <= Left(t.l.bop); }
      WellFormedBelow(t.l, limit, limit');
    }
  }

  lemma {:induction false} MinimalIsWellFormed(e: Exp)
    requires Proper(e)
    ensures WellFormed(Minimal(e), 0) && Strip(Minimal(e)) == e
    decreases e
  {
    match e {
      case Leaf(_) =>
      case Unary(op, a) =>
        MinimalIsWellFormed(a);
        GuardedIsWellFormed(Minimal(a), UNARY_PRIORITY);
      case Binary(op, a, b) =>
        MinimalIsWellFormed(a);
        MinimalIsWellFormed(b);
        GuardedIsWellFormed(Minimal(b), Right(op));
    }
  }

  lemma GuardedIsWellFormed(t: Tree, limit: nat)
    requires WellFormed(t, 0)
    ensures WellFormed(Guarded(t, limit), limit) && Strip(Guarded(t, limit)) == Strip(t)
  {
    if !(t.Infix? && Left(t.bop) <= limit) { WellFormedBelow(t, 0, limit); }
  }

  /** Any expression is parsed back from how it is written with as few parentheses as possible. */
  lemma ParsesBack(e: Exp, more: seq<Token>)
    requires Proper(e) && Stops(more, 0, 0)
    ensures var ts := Tokens(Minimal(e)) + more;
      var r := ParseAt(ts, 0, 0);
      r.Ok? && Strip(r.t) == e && r.next == |Tokens(Minimal(e))|
  {
    var t := Minimal(e);
    var ts := Tokens(t) + more;
    MinimalIsWellFormed(e);
    assert ts[0..|Tokens(t)|] == Tokens(t) && Look(ts, |Tokens(t)|) == Look(more, 0);
    ParsesJustTheWellFormed(ts, 0, 0, t, |Tokens(t)|);
  }

  /** No well-formed tree of the same expression has fewer parentheses, nor as few and a tighter right end. */
  lemma {:induction false} MinimalIsLeast(t: Tree, limit: nat)
    requires WellFormed(t, limit)
    ensures Parens(Minimal(Strip(t))) <= Parens(t)
    ensures Edge(Minimal(Strip(t))) < Edge(t) ==> Parens(Minimal(Strip(t))) < Parens(t)
    decreases t, 0
  {
    match t {
      case Name(_) =>
      case Paren(u) =>
        MinimalIsLeast(u, 0);
      case Prefix(op, u) =>
        GuardedIsLeast(u, UNARY_PRIORITY);
      case Infix(op, l, r) =>
        MinimalIsLeast(l, limit);
        GuardedIsLeast(r, Right(op));
    }
  }

  lemma {:induction false} GuardedIsLeast(t: Tree, limit: nat)
    requires WellFormed(t, limit)
    ensures var m := Guarded(Minimal(Strip(t)), limit);
      Parens(m) <= Parens(t) && (Edge(m) < Edge(t) ==> Parens(m) < Parens(t))
    decreases t, 1
  {
    MinimalIsLeast(t, limit);
    if t.Paren? {
      MinimalIsLeast(t.t, 0);
    }
  }

  // ----- levels of operators -----

  /** The levels of section 3.4.8 of the manual, from the lowest on; unary operators have the level 11. */
  function Level(t: Token): nat {
    if t == OrWord then 1
    else if t == AndWord then 2
    else if t in {LT, GT, LE, GE, NE, EQ} then 3
    else if t == Bar then 4
    else if t == Tilde then 5
    else if t == Ampersand then 6
    else if t in {Shl, Shr} then 7
    else if t == Concat then 8
    else if t in {Plus, Minus} then 9
    else if t in {Star, Slash, DoubleSlash, Percent} then 10
    else if t == Caret then 12
    else 0
  }

  const UNARY_LEVEL := 11

  /** After an operand between two operators, it belongs to the second one. */
  predicate BindsMore(first: Token, second: Token) {
    Level(second) > Level(first) || (Level(second) == Level(first) && (first == Concat || first == Caret))
  }

  /** The priorities of a level. */
  function LeftAt(n: nat): nat { if n <= 7 then n else if n <= 10 then n + 1 else 14 }

  function RightAt(n: nat): nat { if n <= 8 then n else if n <= 10 then n + 1 else 13 }

  lemma LevelOf(t: Token)
    ensures (Level(t) == 0 <==> GetBinOpr(t).NOBINOPR?) && Level(t) <= 12 && Level(t) != UNARY_LEVEL
    ensures Left(GetBinOpr(t)) == LeftAt(Level(t))
    ensures (t == Concat <==> Level(t) == 8) && (t == Caret <==> Level(t) == 12)
  {
  }

  lemma RightOf(t: Token)
    ensures Right(GetBinOpr(t)) == RightAt(Level(t))
  {
  }

  /** The priorities say what the levels say, and that just `..` and `^` are right associative. */
  lemma LevelsDecide(first: Token, second: Token)
    ensures Level(first) == 0 <==> GetBinOpr(first).NOBINOPR?
    ensures Level(first) > 0 && Level(second) > 0 ==>
      (Left(GetBinOpr(second)) > Right(GetBinOpr(first)) <==> BindsMore(first, second))
    ensures Left(GetBinOpr(first)) > UNARY_PRIORITY <==> Level(first) > UNARY_LEVEL
    ensures Left(GetBinOpr(first)) > 0 <==> Level(first) > 0
  {
    hide Left, Right, Level, GetBinOpr;
    LevelOf(first);
    LevelOf(second);
    RightOf(first);
  }

  lemma OperandRead(ts: seq<Token>, i: nat, limit: nat)
    requires i < |ts| && ts[i].Operand?
    ensures ParseAt(ts, i, limit) == ParseMore(ts, Name(ts[i].id), i + 1, limit)
    ensures i + 1 == |ts| ==> ParseAt(ts, i, limit) == Ok(Name(ts[i].id), i + 1)
  {
  }

  lemma OperatorRead(ts: seq<Token>, l: Tree, i: nat, limit: nat, r: Tree, n: nat)
    requires i < |ts| && !GetBinOpr(ts[i]).NOBINOPR?
    requires ParseAt(ts, i + 1, Right(GetBinOpr(ts[i]))) == Ok(r, n)
    ensures ParseMore(ts, l, i, limit) ==
      if Left(GetBinOpr(ts[i])) > limit then ParseMore(ts, Infix(GetBinOpr(ts[i]), l, r), n, limit) else Ok(l, i)
    ensures n == |ts| && Left(GetBinOpr(ts[i])) > limit ==>
      ParseMore(ts, l, i, limit) == Ok(Infix(GetBinOpr(ts[i]), l, r), n)
  {
  }

  /** Three operands: `x op (y op' z)` if the second operator binds more, otherwise `(x op y) op' z`. */
  lemma ThreeOperands(x: nat, y: nat, z: nat, first: Token, second: Token)
    requires Level(first) > 0 && Level(second) > 0
    ensures var op, op' := GetBinOpr(first), GetBinOpr(second);
      ParseAt([Operand(x), first, Operand(y), second, Operand(z)], 0, 0) ==
      Ok(if BindsMore(first, second) then Infix(op, Name(x), Infix(op', Name(y), Name(z)))
         else Infix(op', Infix(op, Name(x), Name(y)), Name(z)), 5)
  {
    hide Left, Right, Level, BindsMore, GetBinOpr, ParseAt, ParseMore;
    var ts := [Operand(x), first, Operand(y), second, Operand(z)];
    var op, op' := GetBinOpr(first), GetBinOpr(second);
    LevelsDecide(first, second);
    LevelsDecide(second, second);
    OperandRead(ts, 0, 0);
    OperandRead(ts, 2, Right(op));
    OperandRead(ts, 4, Right(op'));
    OperatorRead(ts, Name(y), 3, Right(op), Name(z), 5);
    if BindsMore(first, second) {
      OperatorRead(ts, Name(x), 1, 0, Infix(op', Name(y), Name(z)), 5);
    } else {
      OperatorRead(ts, Name(x), 1, 0, Name(y), 3);
      OperatorRead(ts, Infix(op, Name(x), Name(y)), 3, 0, Name(z), 5);
    }
  }

  lemma PrefixRead(ts: seq<Token>, i: nat, limit: nat)
    requires i < |ts| && !GetUnOpr(ts[i]).NOUNOPR?
    ensures var r := ParseAt(ts, i + 1, UNARY_PRIORITY);
      r.Ok? ==> ParseAt(ts, i, limit) == ParseMore(ts, Prefix(GetUnOpr(ts[i]), r.t), r.next, limit)
    ensures var r := ParseAt(ts, i + 1, UNARY_PRIORITY);
      r.Ok? && r.next == |ts| ==> ParseAt(ts, i, limit) == Ok(Prefix(GetUnOpr(ts[i]), r.t), |ts|)
  {
  }

  /** `-x op y` is `-(x op y)` if the operator is `^`, otherwise `(-x) op y`. */
  lemma PrefixFirst(x: nat, y: nat, prefix: Token, infix: Token)
    requires Level(infix) > 0 && !GetUnOpr(prefix).NOUNOPR?
    ensures var u, op := GetUnOpr(prefix), GetBinOpr(infix);
      ParseAt([prefix, Operand(x), infix, Operand(y)], 0, 0) ==
      Ok(if infix.Caret? then Prefix(u, Infix(op, Name(x), Name(y))) else Infix(op, Prefix(u, Name(x)), Name(y)), 4)
  {
    hide Left, Right, Level, GetBinOpr, GetUnOpr, ParseAt, ParseMore;
    var u, op := GetUnOpr(prefix), GetBinOpr(infix);
    var ts := [prefix, Operand(x), infix, Operand(y)];
    LevelsDecide(infix, infix);
    LevelOf(infix);
    PrefixRead(ts, 0, 0);
    OperandRead(ts, 1, UNARY_PRIORITY);
    OperandRead(ts, 3, Right(op));
    OperatorRead(ts, Name(x), 2, UNARY_PRIORITY, Name(y), 4);
    OperatorRead(ts, Prefix(u, Name(x)), 2, 0, Name(y), 4);
  }

  /** The second operand may begin with a unary operator: `x op -y` needs no parentheses. */
  lemma PrefixSecond(x: nat, y: nat, prefix: Token, infix: Token)
    requires Level(infix) > 0 && !GetUnOpr(prefix).NOUNOPR?
    ensures var u, op := GetUnOpr(prefix), GetBinOpr(infix);
      ParseAt([Operand(x), infix, prefix, Operand(y)], 0, 0) == Ok(Infix(op, Name(x), Prefix(u, Name(y))), 4)
  {
    hide Left, Right, Level, GetBinOpr, GetUnOpr, ParseAt, ParseMore;
    var u, op := GetUnOpr(prefix), GetBinOpr(infix);
    var ts := [Operand(x), infix, prefix, Operand(y)];
    LevelsDecide(infix, infix);
    OperandRead(ts, 0, 0);
    OperandRead(ts, 3, UNARY_PRIORITY);
    PrefixRead(ts, 2, Right(op));
    OperatorRead(ts, Name(x), 1, 0, Prefix(u, Name(y)), 4);
  }

  // ----- the parser -----

  class LexState {
    const ts: seq<Token>
    var pos: nat

    constructor (ts: seq<Token>)
      ensures pos == 0 && this.ts == ts
    {
      this.ts := ts;
      pos := 0;
    }

    /** An operand: a name, or an expression in parentheses. */
    method SimpleExp() returns (r: Result)
      requires pos <= |ts| && GetUnOpr(Look(ts, pos)).NOUNOPR?
      modifies `pos
      ensures r == ParseOperand(ts, old(pos)) && (r.Ok? ==> pos == r.next)
      decreases |ts| - pos, 0
    {
      match Look(ts, pos) {
        case Operand(id) =>
          pos := pos + 1;
          return Ok(Name(id), pos);
        case LParen =>
          pos := pos + 1;
          var op;
          r, op := Subexpr(0);
          if !r.Ok? { return; }
          if !Look(ts, pos).RParen? { return SyntaxError(pos); }
          pos := pos + 1;
          return Ok(Paren(r.t), pos);
        case _ =>
          return SyntaxError(pos);
      }
    }

    /** `subexpr`: the tree, and the first operator that does not belong to it. */
    method Subexpr(limit: nat) returns (r: Result, op: BinOpr)
      requires pos <= |ts|
      modifies `pos
      ensures r == ParseAt(ts, old(pos), limit)
      ensures r.Ok? ==> pos == r.next && op == GetBinOpr(Look(ts, pos))
      decreases |ts| - pos, 1
    {
      op := NOBINOPR;
      var uop := GetUnOpr(Look(ts, pos));
      if !uop.NOUNOPR? {
        pos := pos + 1;
        r, op := Subexpr(UNARY_PRIORITY);
        if r.Ok? { r := Ok(Prefix(uop, r.t), r.next); }
      } else {
        r := SimpleExp();
      }
      if !r.Ok? { return; }
      op := GetBinOpr(Look(ts, pos));
      while !op.NOBINOPR? && Left(op) > limit
        invariant r.Ok? && old(pos) < pos == r.next <= |ts| && op == GetBinOpr(Look(ts, pos))
        invariant ParseAt(ts, old(pos), limit) == ParseMore(ts, r.t, pos, limit)
        decreases |ts| - pos
      {
        pos := pos + 1;
        var r2, nextop := Subexpr(Right(op));
        if !r2.Ok? { return r2, op; }
        r := Ok(Infix(op, r.t, r2.t), r2.next);
        op := nextop;
      }
    }
  }
}
