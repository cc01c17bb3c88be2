/**
 What Lua patterns mean (section 6.4.1 of the Lua 5.4 Reference Manual): a pattern is read as a list of items,
 which may match in several ways, in order of priority.
 */
module Patterns {

  type Bytes = string

  /** Reading beyond the end of a string finds its terminating zero. */
  function At(s: Bytes, i: int): char { if 0 <= i < |s| then s[i] else '\0' }

  /** The character classes of the locale: letter `a` stands for `isalpha`, and so on. */
  type Locale = (char, char) -> bool

  const L_ESC := '%'
  const MAXCAPTURES := 32

  datatype Error =
    | EndsWithEscape | MissingBracket | MissingFrontierSet | MissingBalanceArgs
    | TooManyCaptures | InvalidPatternCapture | InvalidCaptureIndex | TooComplex

  // ----- sets of characters -----

  datatype Element = Class(cl: char) | Range(lo: char, hi: char) | Char(c: char)

  datatype CharSet = Any | Escape(cl: char) | Bracket(negated: bool, elems: seq<Element>) | Single(c: char)

  function ToLower(c: char): char { if 'A' <= c <= 'Z' then c - 'A' + 'a' else c }

  predicate IsLower(c: char) { 'a' <= c <= 'z' }

  predicate IsClassLetter(c: char) { c in "acdglpsuwxz" }

  /** `%a` is a class, `%A` its complement, and any other character stands for itself. */
  predicate InClass(locale: Locale, c: char, cl: char) {
    if IsClassLetter(ToLower(cl)) then
      (if ToLower(cl) == 'z' then c == '\0' else locale(ToLower(cl), c)) == IsLower(cl)
    else cl == c
  }

  predicate InElement(locale: Locale, c: char, x: Element) {
    match x
    case Class(cl) => InClass(locale, c, cl)
    case Range(lo, hi) => lo <= c <= hi
    case Char(d) => c == d
  }

  predicate InSet(locale: Locale, c: char, set_: CharSet) {
    match set_
    case Any => true
    case Escape(cl) => InClass(locale, c, cl)
    case Bracket(negated, elems) => (exists i :: 0 <= i < |elems| && InElement(locale, c, elems[i])) != negated
    case Single(d) => c == d
  }

  // ----- reading a pattern -----

  datatype Item =
    | One(set_: CharSet) | Star(set_: CharSet) | Plus(set_: CharSet) | Minus(set_: CharSet) | Optional(set_: CharSet)
    | Open(position: bool) | Close | AtEnd | Balance(b: char, e: char) | Frontier(set_: CharSet) | Back(digit: char)
    | Bad(err: Error)

  /** Where a set ends, or -1 if its bracket is missing; `i` is in the set, `first` at its first character. */
  function BracketEnd(pat: Bytes, i: nat, first: bool): (e: int)
    ensures e == -1 || i < e <= |pat|
    decreases |pat| - i
  {
    if !first && At(pat, i) == ']' then i + 1
    else if i >= |pat| then -1
    else if pat[i] == L_ESC && i + 1 < |pat| then BracketEnd(pat, i + 2, false)
    else BracketEnd(pat, i + 1, false)
  }

  datatype End = Ends(ep: nat) | Malformed(err: Error)

  /** The end of the single-character item at `p`. */
  function ClassEnd(pat: Bytes, p: nat): (r: End)
    requires p < |pat|
    ensures r.Ends? ==> p < r.ep <= |pat|
  {
    if pat[p] == L_ESC then
      if p + 1 == |pat| then Malformed(EndsWithEscape) else Ends(p + 2)
    else if pat[p] == '[' then
      var e := BracketEnd(pat, if At(pat, p + 1) == '^' then p + 2 else p + 1, true);
      if e == -1 then Malformed(MissingBracket) else Ends(e)
    else Ends(p + 1)
  }

  /** The elements of a set between `i` and its closing bracket at `ec`. */
  function Elements(pat: Bytes, i: nat, ec: nat): seq<Element>
    decreases if i < ec then ec - i else 0
  {
    if i >= ec then []
    else if At(pat, i) == L_ESC then [Class(At(pat, i + 1))] + Elements(pat, i + 2, ec)
    else if At(pat, i + 1) == '-' && i + 2 < ec then [Range(At(pat, i), At(pat, i + 2))] + Elements(pat, i + 3, ec)
    else [Char(At(pat, i))] + Elements(pat, i + 1, ec)
  }

  function BracketOf(pat: Bytes, p: nat, ep: nat): CharSet
    requires p < ep
  {
    var negated := At(pat, p + 1) == '^';
    Bracket(negated, Elements(pat, if negated then p + 2 else p + 1, ep - 1))
  }

  function SetOf(pat: Bytes, p: nat, ep: nat): CharSet
    requires p < ep
  {
    if At(pat, p) == '.' then Any
    else if At(pat, p) == L_ESC then Escape(At(pat, p + 1))
    else if At(pat, p) == '[' then BracketOf(pat, p, ep)
    else Single(At(pat, p))
  }

  predicate IsDigit(c: char) { '0' <= c <= '9' }

  /** The items of a pattern; an ill-formed one ends with an item that says why. */
  function Parse(pat: Bytes, p: nat): seq<Item>
    decreases |pat| - p
  {
    if p >= |pat| then []
    else if pat[p] == '(' then
      var position := At(pat, p + 1) == ')';
      [Open(position)] + Parse(pat, if position then p + 2 else p + 1)
    else if pat[p] == ')' then [Close] + Parse(pat, p + 1)
    else if pat[p] == '$' && p + 1 == |pat| then [AtEnd]
    else if pat[p] == L_ESC && At(pat, p + 1) == 'b' then
      if p + 2 >= |pat| - 1 then [Bad(MissingBalanceArgs)] else [Balance(pat[p + 2], pat[p + 3])] + Parse(pat, p + 4)
    else if pat[p] == L_ESC && At(pat, p + 1) == 'f' then
      if At(pat, p + 2) != '[' then [Bad(MissingFrontierSet)]
      else
        match ClassEnd(pat, p + 2)
        case Malformed(err) => [Bad(err)]
        case Ends(ep) => [Frontier(BracketOf(pat, p + 2, ep))] + Parse(pat, ep)
    else if pat[p] == L_ESC && IsDigit(At(pat, p + 1)) then [Back(pat[p + 1])] + Parse(pat, p + 2)
    else ParseSingle(pat, p)
  }

  /** A single-character item with its suffix. */
  function ParseSingle(pat: Bytes, p: nat): seq<Item>
    requires p < |pat|
    decreases |pat| - p, 0
  {
    match ClassEnd(pat, p)
    case Malformed(err) => [Bad(err)]
    case Ends(ep) =>
      var x := SetOf(pat, p, ep);
      match At(pat, ep)
      case '*' => [Star(x)] + Parse(pat, ep + 1)
      case '+' => [Plus(x)] + Parse(pat, ep + 1)
      case '-' => [Minus(x)] + Parse(pat, ep + 1)
      case '?' => [Optional(x)] + Parse(pat, ep + 1)
      case _ => [One(x)] + Parse(pat, ep)
  }

  // ----- captures -----

  datatype Length = Unfinished | Position | Closed(len: nat)

  datatype Capture = Capture(start: nat, len: Length)

  /** The last capture that is still open, or -1. */
  function ToClose(caps: seq<Capture>): (l: int)
    ensures -1 <= l < |caps| && (l >= 0 ==> caps[l].len.Unfinished?)
    ensures forall i :: l < i < |caps| ==> !caps[i].len.Unfinished?
  {
    if caps == [] then -1
    else if caps[|caps| - 1].len.Unfinished? then |caps| - 1
    else ToClose(caps[..|caps| - 1])
  }

  /** `%1` stands for the first capture, if that is finished. */
  function CaptureIndex(caps: seq<Capture>, digit: char): (l: int)
    ensures l >= 0 ==> l < |caps| && !caps[l].len.Unfinished?
  {
    var l := digit as int - '1' as int;
    if 0 <= l < |caps| && !caps[l].len.Unfinished? then l else -1
  }

  /** The captured text comes again at `s`. */
  predicate Repeats(src: Bytes, s: nat, c: Capture) {
    && c.len.Closed? && c.start + c.len.len <= |src| && s + c.len.len <= |src|
    && src[s..s + c.len.len] == src[c.start..c.start + c.len.len]
  }

  // ----- matching -----

  /** Where a balanced string ends: after the closing character that belongs to `cont` opening ones; or -1. */
  function BalanceEnd(src: Bytes, i: nat, b: char, e: char, cont: nat): (r: int)
    ensures r == -1 || i < r <= |src|
    decreases |src| - i
  {
    if i >= |src| then -1
    else if src[i] == e then if cont <= 1 then i + 1 else BalanceEnd(src, i + 1, b, e, cont - 1)
    else BalanceEnd(src, i + 1, b, e, if src[i] == b then cont + 1 else cont)
  }

  /** The character at `s` is in the set. */
  predicate Fits(locale: Locale, src: Bytes, s: nat, x: CharSet) { s < |src| && InSet(locale, src[s], x) }

  /** How many characters from `s` on are in the set. */
  function Run(locale: Locale, src: Bytes, s: nat, x: CharSet): (n: nat)
    ensures s <= |src| ==> s + n <= |src|
    ensures forall i :: s <= i < s + n ==> Fits(locale, src, i, x)
    ensures !Fits(locale, src, s + n, x)
    decreases |src| - s
  {
    if Fits(locale, src, s, x) then 1 + Run(locale, src, s + 1, x) else 0
  }

  predicate AtFrontier(locale: Locale, src: Bytes, s: nat, x: CharSet) {
    !InSet(locale, At(src, s - 1), x) && InSet(locale, At(src, s), x)
  }

  /** A way to match, or an error that matching runs into. */
  datatype Choice = Found(e: nat, caps: seq<Capture>) | Broken(err: Error)

  /** All the ways in which items match at `s`, those with the highest priority first. */
  function Choices(locale: Locale, src: Bytes, items: seq<Item>, s: nat, caps: seq<Capture>): seq<Choice>
    decreases |items|, 0
  {
    if items == [] then [Found(s, caps)]
    else
      var rest := items[1..];
      match items[0]
      case One(x) => if Fits(locale, src, s, x) then Choices(locale, src, rest, s + 1, caps) else []
      case Star(x) => Longest(locale, src, rest, s, caps, Run(locale, src, s, x))
      case Plus(x) =>
        if Fits(locale, src, s, x) then Longest(locale, src, rest, s + 1, caps, Run(locale, src, s + 1, x)) else []
      case Minus(x) => Shortest(locale, src, rest, s, caps, x)
      case Optional(x) =>
        (if Fits(locale, src, s, x) then Choices(locale, src, rest, s + 1, caps) else []) +
        Choices(locale, src, rest, s, caps)
      case Open(position) =>
        if |caps| >= MAXCAPTURES then [Broken(TooManyCaptures)]
        else Choices(locale, src, rest, s, caps + [Capture(s, if position then Position else Unfinished)])
      case Close =>
        var l := ToClose(caps);
        if l == -1 then [Broken(InvalidPatternCapture)]
        else Choices(locale, src, rest, s, caps[l := Capture(caps[l].start, ClosedAt(caps[l].start, s))])
      case AtEnd => if s == |src| then [Found(s, caps)] else []
      case Balance(b, e) =>
        var r := if At(src, s) == b then BalanceEnd(src, s + 1, b, e, 1) else -1;
        if r == -1 then [] else Choices(locale, src, rest, r, caps)
      case Frontier(x) => if AtFrontier(locale, src, s, x) then Choices(locale, src, rest, s, caps) else []
      case Back(digit) =>
        var l := CaptureIndex(caps, digit);
        if l == -1 then [Broken(InvalidCaptureIndex)]
        else if Repeats(src, s, caps[l]) then Choices(locale, src, rest, s + caps[l].len.len, caps)
        else []
      case Bad(err) => [Broken(err)]
  }

  function ClosedAt(start: nat, s: nat): Length { Closed(if start <= s then s - start else 0) }

  /** `n` repetitions first, then fewer. */
  function Longest(locale: Locale, src: Bytes, rest: seq<Item>, s: nat, caps: seq<Capture>, n: nat): seq<Choice>
    decreases |rest|, n + 1
  {
    Choices(locale, src, rest, s + n, caps) + if n == 0 then [] else Longest(locale, src, rest, s, caps, n - 1)
  }

  /** No repetition first, then more. */
  function Shortest(locale: Locale, src: Bytes, rest: seq<Item>, s: nat, caps: seq<Capture>, x: CharSet): seq<Choice>
    decreases |rest|, 1 + if s <= |src| then |src| - s else 0
  {
    Choices(locale, src, rest, s, caps) +
    if Fits(locale, src, s, x) then Shortest(locale, src, rest, s + 1, caps, x) else []
  }

  // ----- what it means to match, without an order -----

  /** All characters from `s` to `e` are in the set. */
  ghost predicate AllFit(locale: Locale, src: Bytes, s: nat, e: nat, x: CharSet) {
    s <= e && forall i :: s <= i < e ==> Fits(locale, src, i, x)
  }

  /** The items match the text from `s` to `e`, leaving these captures. */
  ghost predicate Derives(locale: Locale, src: Bytes, items: seq<Item>, s: nat, caps: seq<Capture>, e: nat,
    caps': seq<Capture>)
    decreases |items|
  {
    if items == [] then e == s && caps' == caps
    else
      var rest := items[1..];
      match items[0]
      case One(x) => Fits(locale, src, s, x) && Derives(locale, src, rest, s + 1, caps, e, caps')
      case Star(x) => exists m: nat :: AllFit(locale, src, s, m, x) && Derives(locale, src, rest, m, caps, e, caps')
      case Plus(x) =>
        exists m: nat :: s < m && AllFit(locale, src, s, m, x) && Derives(locale, src, rest, m, caps, e, caps')
      case Minus(x) => exists m: nat :: AllFit(locale, src, s, m, x) && Derives(locale, src, rest, m, caps, e, caps')
      case Optional(x) =>
        || Derives(locale, src, rest, s, caps, e, caps')
        || (Fits(locale, src, s, x) && Derives(locale, src, rest, s + 1, caps, e, caps'))
      case Open(position) =>
        && |caps| < MAXCAPTURES
        && Derives(locale, src, rest, s, caps + [Capture(s, if position then Position else Unfinished)], e, caps')
      case Close =>
        var l := ToClose(caps);
        && l != -1
        && Derives(locale, src, rest, s, caps[l := Capture(caps[l].start, ClosedAt(caps[l].start, s))], e, caps')
      case AtEnd => s == |src| && e == s && caps' == caps
      case Balance(b, c) =>
        && At(src, s) == b
        && exists m: nat :: Balanced(src, s + 1, b, c, m) && Derives(locale, src, rest, m, caps, e, caps')
      case Frontier(x) => AtFrontier(locale, src, s, x) && Derives(locale, src, rest, s, caps, e, caps')
      case Back(digit) =>
        var l := CaptureIndex(caps, digit);
        l != -1 && Repeats(src, s, caps[l]) && Derives(locale, src, rest, s + caps[l].len.len, caps, e, caps')
      case Bad(_) => false
  }

  /** How many opening characters are open at `m`, if one was at `i`; a closing one counts down first. */
  function Nesting(src: Bytes, i: nat, b: char, e: char, m: nat): int
    requires i <= m <= |src|
  {
    if m == i then 1
    else Nesting(src, i, b, e, m - 1) + if src[m - 1] == e then -1 else if src[m - 1] == b then 1 else 0
  }

  /** The nesting gets to zero at `m`, and not before. */
  ghost predicate Balanced(src: Bytes, i: nat, b: char, e: char, m: nat) {
    i < m <= |src| && Nesting(src, i, b, e, m) == 0 && forall j :: i <= j < m ==> Nesting(src, i, b, e, j) > 0
  }

  lemma {:induction false} BalanceFound(src: Bytes, i: nat, b: char, e: char, j: nat)
    requires i <= j <= |src| && Nesting(src, i, b, e, j) > 0 && forall k :: i <= k < j ==> Nesting(src, i, b, e, k) > 0
    ensures var r := BalanceEnd(src, j, b, e, Nesting(src, i, b, e, j));
            if r == -1 then forall m: nat :: !Balanced(src, i, b, e, m)
            else Balanced(src, i, b, e, r) && forall m: nat :: Balanced(src, i, b, e, m) ==> m == r
    decreases |src| - j
  {
    if j < |src| {
      if src[j] == e && Nesting(src, i, b, e, j) <= 1 {
        assert Nesting(src, i, b, e, j + 1) == 0;
      } else {
        BalanceFound(src, i, b, e, j + 1);
      }
    }
  }

  /** The choices are the derivations. */
  lemma {:induction false} ChoicesDerive(locale: Locale, src: Bytes, items: seq<Item>, s: nat, caps: seq<Capture>,
                                         e: nat, caps': seq<Capture>)
    requires s <= |src|
    ensures Found(e, caps') in Choices(locale, src, items, s, caps) <==> Derives(locale, src, items, s, caps, e, caps')
    decreases |items|, 0
  {
    if items != [] {
      var rest := items[1..];
      match items[0]
      case One(x) => if Fits(locale, src, s, x) { ChoicesDerive(locale, src, rest, s + 1, caps, e, caps'); }
      case Star(x) =>
        StarDerive(locale, src, rest, s, caps, x, e, caps');
      case Plus(x) =>
        FitsStep(locale, src, s, x);
        if Fits(locale, src, s, x) { StarDerive(locale, src, rest, s + 1, caps, x, e, caps'); }
      case Minus(x) => ShortestDerive(locale, src, rest, s, caps, x, e, caps');
      case Optional(x) =>
        if Fits(locale, src, s, x) { ChoicesDerive(locale, src, rest, s + 1, caps, e, caps'); }
        ChoicesDerive(locale, src, rest, s, caps, e, caps');
      case Open(position) =>
        ChoicesDerive(locale, src, rest, s, caps + [Capture(s, if position then Position else Unfinished)], e, caps');
      case Close =>
        var l := ToClose(caps);
        if l != -1 {
          ChoicesDerive(locale, src, rest, s, caps[l := Capture(caps[l].start, ClosedAt(caps[l].start, s))], e, caps');
        }
      case AtEnd =>
      case Balance(b, c) =>
        if At(src, s) == b { BalanceDerive(locale, src, items, s, caps, b, c, e, caps'); }
      case Frontier(x) => if AtFrontier(locale, src, s, x) { ChoicesDerive(locale, src, rest, s, caps, e, caps'); }
      case Back(digit) =>
        var l := CaptureIndex(caps, digit);
        if l != -1 && Repeats(src, s, caps[l]) {
          ChoicesDerive(locale, src, rest, s + caps[l].len.len, caps, e, caps');
        }
      case Bad(_) =>
    }
  }

  lemma FitsStep(locale: Locale, src: Bytes, s: nat, x: CharSet)
    ensures forall m: nat ::
      AllFit(locale, src, s, m, x) <==> m == s || (Fits(locale, src, s, x) && AllFit(locale, src, s + 1, m, x))
  {
  }

  lemma FitsRun(locale: Locale, src: Bytes, s: nat, x: CharSet)
    ensures forall m: nat :: AllFit(locale, src, s, m, x) <==> s <= m <= s + Run(locale, src, s, x)
  {
    var n := Run(locale, src, s, x);
    assert !Fits(locale, src, s + n, x);
  }

  lemma {:induction false} LongestDerive(locale: Locale, src: Bytes, rest: seq<Item>, s: nat, caps: seq<Capture>,
                                         n: nat, e: nat, caps': seq<Capture>)
    requires s + n <= |src|
    ensures Found(e, caps') in Longest(locale, src, rest, s, caps, n) <==>
            exists m: nat :: s <= m <= s + n && Derives(locale, src, rest, m, caps, e, caps')
    decreases |rest|, n + 1
  {
    hide Choices, Derives, Longest;
    ChoicesDerive(locale, src, rest, s + n, caps, e, caps');
    LongestIn(locale, src, rest, s, caps, n, e, caps');
    if n > 0 { LongestDerive(locale, src, rest, s, caps, n - 1, e, caps'); }
  }

  lemma LongestIn(locale: Locale, src: Bytes, rest: seq<Item>, s: nat, caps: seq<Capture>, n: nat, e: nat,
                  caps': seq<Capture>)
    ensures Found(e, caps') in Longest(locale, src, rest, s, caps, n) <==>
      || Found(e, caps') in Choices(locale, src, rest, s + n, caps)
      || (n > 0 && Found(e, caps') in Longest(locale, src, rest, s, caps, n - 1))
  {
    hide Choices;
  }

  lemma {:induction false} StarDerive(locale: Locale, src: Bytes, rest: seq<Item>, s: nat, caps: seq<Capture>,
                                      x: CharSet, e: nat, caps': seq<Capture>)
    requires s <= |src|
    ensures Found(e, caps') in Longest(locale, src, rest, s, caps, Run(locale, src, s, x)) <==>
            exists m: nat :: AllFit(locale, src, s, m, x) && Derives(locale, src, rest, m, caps, e, caps')
    decreases |rest|, |src| + 2
  {
    FitsRun(locale, src, s, x);
    LongestDerive(locale, src, rest, s, caps, Run(locale, src, s, x), e, caps');
    hide AllFit, Fits, Derives, Longest, Choices;
    var n := Run(locale, src, s, x);
    if m: nat :| s <= m <= s + n && Derives(locale, src, rest, m, caps, e, caps') {
      assert AllFit(locale, src, s, m, x);
    }
    if m: nat :| AllFit(locale, src, s, m, x) && Derives(locale, src, rest, m, caps, e, caps') { assert m <= s + n; }
  }

  lemma {:induction false} ShortestDerive(locale: Locale, src: Bytes, rest: seq<Item>, s: nat, caps: seq<Capture>,
                                          x: CharSet, e: nat, caps': seq<Capture>)
    requires s <= |src|
    ensures Found(e, caps') in Shortest(locale, src, rest, s, caps, x) <==>
            exists m: nat :: AllFit(locale, src, s, m, x) && Derives(locale, src, rest, m, caps, e, caps')
    decreases |rest|, 1 + |src| - s
  {
    FitsStep(locale, src, s, x);
    ChoicesDerive(locale, src, rest, s, caps, e, caps');
    if Fits(locale, src, s, x) { ShortestDerive(locale, src, rest, s + 1, caps, x, e, caps'); }
    hide AllFit, Fits, Choices, Derives;
    ShortestIn(locale, src, rest, s, caps, x, e, caps');
  }

  lemma ShortestIn(locale: Locale, src: Bytes, rest: seq<Item>, s: nat, caps: seq<Capture>, x: CharSet, e: nat,
                   caps': seq<Capture>)
    ensures Found(e, caps') in Shortest(locale, src, rest, s, caps, x) <==>
      || Found(e, caps') in Choices(locale, src, rest, s, caps)
      || (Fits(locale, src, s, x) && Found(e, caps') in Shortest(locale, src, rest, s + 1, caps, x))
  {
    hide Choices, Fits;
  }

  lemma {:induction false} BalanceDerive(locale: Locale, src: Bytes, items: seq<Item>, s: nat, caps: seq<Capture>,
                                         b: char, c: char, e: nat, caps': seq<Capture>)
    requires items != [] && items[0] == Balance(b, c) && At(src, s) == b && s <= |src|
    ensures Found(e, caps') in Choices(locale, src, items, s, caps) <==> Derives(locale, src, items, s, caps, e, caps')
    decreases |items| - 1, 1
  {
    var rest, r := items[1..], BalanceEnd(src, s + 1, b, c, 1);
    if s < |src| {
      BalanceFound(src, s + 1, b, c, s + 1);
      if r != -1 {
        ChoicesDerive(locale, src, rest, r, caps, e, caps');
        assert Balanced(src, s + 1, b, c, r);
      }
    }
  }
}
