/**
 What patterns mean, item by item and in the terms of section 6.4.1 of the Lua 5.4 Reference Manual; and how they are
 written.
 */
module PatternFacts {
  import opened Patterns
  import opened PatternMatch

  /** The character at a place; before the beginning and after the end there is a zero. */
  function Around(src: Bytes, i: int): char { if 0 <= i < |src| then src[i] else '\0' }

  // ----- what each item matches -----

  /** A frontier is where the character before is not in the set and the next one is; it takes no text. */
  lemma FrontierMeaning(locale: Locale, src: Bytes, x: CharSet, rest: seq<Item>, s: nat, caps: seq<Capture>, e: nat,
                        caps': seq<Capture>)
    ensures Derives(locale, src, [Frontier(x)] + rest, s, caps, e, caps') <==>
      && !InSet(locale, Around(src, s - 1), x) && InSet(locale, Around(src, s), x)
      && Derives(locale, src, rest, s, caps, e, caps')
  {
    Head(Frontier(x), rest);
  }

  /** `%1` matches the text of the first capture again, `%2` that of the second, and so on. */
  lemma BackMeaning(locale: Locale, src: Bytes, digit: char, rest: seq<Item>, s: nat, caps: seq<Capture>, e: nat,
                    caps': seq<Capture>)
    requires '1' <= digit <= '9'
    ensures var l := digit as int - '0' as int - 1;
      Derives(locale, src, [Back(digit)] + rest, s, caps, e, caps') <==>
      && l < |caps| && caps[l].len.Closed?
      && var n := caps[l].len.len;
         && caps[l].start + n <= |src| && s + n <= |src|
         && src[s..s + n] == src[caps[l].start..caps[l].start + n]
         && Derives(locale, src, rest, s + n, caps, e, caps')
  {
    Head(Back(digit), rest);
  }

  /** A closing parenthesis ends the last capture that is open: its text goes from where it began to here. */
  lemma CloseMeaning(locale: Locale, src: Bytes, rest: seq<Item>, s: nat, caps: seq<Capture>, l: nat, e: nat,
                     caps': seq<Capture>)
    requires l < |caps| && caps[l].len.Unfinished? && caps[l].start <= s
    requires forall i :: l < i < |caps| ==> !caps[i].len.Unfinished?
    ensures Derives(locale, src, [Close] + rest, s, caps, e, caps') <==>
            Derives(locale, src, rest, s, caps[l := Capture(caps[l].start, Closed(s - caps[l].start))], e, caps')
  {
    Head(Close, rest);
    assert ToClose(caps) == l;
  }

  /** Without an open capture it matches nothing. */
  lemma NothingToClose(locale: Locale, src: Bytes, rest: seq<Item>, s: nat, caps: seq<Capture>, e: nat,
                       caps': seq<Capture>)
    requires forall i :: 0 <= i < |caps| ==> !caps[i].len.Unfinished?
    ensures !Derives(locale, src, [Close] + rest, s, caps, e, caps')
  {
    Head(Close, rest);
  }

  /** An opening parenthesis begins a capture, `()` captures a position; there are no more than 32. */
  lemma OpenMeaning(locale: Locale, src: Bytes, rest: seq<Item>, s: nat, caps: seq<Capture>, e: nat,
                    caps': seq<Capture>)
    ensures Derives(locale, src, [Open(false)] + rest, s, caps, e, caps') <==>
            |caps| < 32 && Derives(locale, src, rest, s, caps + [Capture(s, Unfinished)], e, caps')
    ensures Derives(locale, src, [Open(true)] + rest, s, caps, e, caps') <==>
            |caps| < 32 && Derives(locale, src, rest, s, caps + [Capture(s, Position)], e, caps')
  {
    Head(Open(false), rest);
    Head(Open(true), rest);
  }

  lemma AtEndMeaning(locale: Locale, src: Bytes, s: nat, caps: seq<Capture>, e: nat, caps': seq<Capture>)
    ensures Derives(locale, src, [AtEnd], s, caps, e, caps') <==> s == |src| && e == s && caps' == caps
  {
  }

  /** Repetitions: any number, at least one, or none or one, of characters in the set. */
  lemma RepetitionMeaning(locale: Locale, src: Bytes, x: CharSet, s: nat, caps: seq<Capture>, e: nat,
                          caps': seq<Capture>)
    requires s <= |src|
    ensures var all := s <= e <= |src| && caps' == caps && forall i :: s <= i < e ==> InSet(locale, src[i], x);
      && (Derives(locale, src, [One(x)], s, caps, e, caps') <==> all && e == s + 1)
      && (Derives(locale, src, [Star(x)], s, caps, e, caps') <==> all)
      && (Derives(locale, src, [Plus(x)], s, caps, e, caps') <==> all && e > s)
      && (Derives(locale, src, [Minus(x)], s, caps, e, caps') <==> all)
      && (Derives(locale, src, [Optional(x)], s, caps, e, caps') <==> all && e <= s + 1)
  {
    var all := s <= e <= |src| && caps' == caps && forall i :: s <= i < e ==> InSet(locale, src[i], x);
    assert forall m: nat :: Derives(locale, src, [], m, caps, e, caps') <==> e == m && caps' == caps;
    assert AllFit(locale, src, s, e, x) && caps' == caps <==> all by { FitsAll(locale, src, s, e, x); }
    assert [Star(x)][1..] == [] && [Plus(x)][1..] == [] && [Minus(x)][1..] == [];
    assert [One(x)][1..] == [] && [Optional(x)][1..] == [];
  }

  lemma FitsAll(locale: Locale, src: Bytes, s: nat, e: nat, x: CharSet)
    requires s <= |src|
    ensures AllFit(locale, src, s, e, x) <==> s <= e <= |src| && forall i :: s <= i < e ==> InSet(locale, src[i], x)
  {
    if AllFit(locale, src, s, e, x) {
      if s < e { FitsLast(locale, src, s, e, x); }
      forall i | s <= i < e ensures InSet(locale, src[i], x) { assert Fits(locale, src, i, x); }
    }
  }

  lemma FitsLast(locale: Locale, src: Bytes, s: nat, e: nat, x: CharSet)
    requires AllFit(locale, src, s, e, x) && s < e
    ensures e <= |src|
  {
    assert Fits(locale, src, e - 1, x);
  }

  // ----- what is tried first -----

  /** `*` takes as much as it can first, `-` as little; each gives all the lengths that are possible, once. */
  lemma {:induction false} LongestOrder(locale: Locale, src: Bytes, s: nat, caps: seq<Capture>, n: nat)
    ensures var cs := Longest(locale, src, [], s, caps, n);
      |cs| == n + 1 && forall i :: 0 <= i <= n ==> cs[i] == Found(s + n - i, caps)
  {
    if n > 0 {
      LongestOrder(locale, src, s, caps, n - 1);
      var cs, more := Longest(locale, src, [], s, caps, n), Longest(locale, src, [], s, caps, n - 1);
      assert cs == Choices(locale, src, [], s + n, caps) + more == [Found(s + n, caps)] + more;
    }
  }

  lemma {:induction false} ShortestOrder(locale: Locale, src: Bytes, s: nat, caps: seq<Capture>, x: CharSet)
    ensures var cs := Shortest(locale, src, [], s, caps, x);
      |cs| == Patterns.Run(locale, src, s, x) + 1 && forall i :: 0 <= i < |cs| ==> cs[i] == Found(s + i, caps)
    decreases |src| - s
  {
    if Fits(locale, src, s, x) {
      ShortestOrder(locale, src, s + 1, caps, x);
      var cs, more := Shortest(locale, src, [], s, caps, x), Shortest(locale, src, [], s + 1, caps, x);
      assert cs == Choices(locale, src, [], s, caps) + more == [Found(s, caps)] + more;
    }
  }

  lemma RepetitionOrder(locale: Locale, src: Bytes, x: CharSet, s: nat, n: nat, caps: seq<Capture>)
    requires s + n <= |src| && (forall i :: s <= i < s + n ==> InSet(locale, src[i], x))
    requires s + n < |src| ==> !InSet(locale, src[s + n], x)
    ensures var star, minus := Choices(locale, src, [Star(x)], s, caps), Choices(locale, src, [Minus(x)], s, caps);
      && |star| == |minus| == n + 1
      && (forall i :: 0 <= i <= n ==> star[i] == Found(s + n - i, caps))
      && (forall i :: 0 <= i <= n ==> minus[i] == Found(s + i, caps))
    ensures Choices(locale, src, [Optional(x)], s, caps) ==
      (if n > 0 then [Found(s + 1, caps)] else []) + [Found(s, caps)]
  {
    RunIs(locale, src, s, n, x);
    LongestOrder(locale, src, s, caps, n);
    ShortestOrder(locale, src, s, caps, x);
    assert [Star(x)][1..] == [] && [Minus(x)][1..] == [] && [Optional(x)][1..] == [];
  }

  lemma {:induction false} RunIs(locale: Locale, src: Bytes, s: nat, n: nat, x: CharSet)
    requires s + n <= |src| && (forall i :: s <= i < s + n ==> InSet(locale, src[i], x))
    requires s + n < |src| ==> !InSet(locale, src[s + n], x)
    ensures Patterns.Run(locale, src, s, x) == n
    decreases n
  {
    if n > 0 { RunIs(locale, src, s + 1, n - 1, x); }
  }

  // ----- sets of characters -----

  /** A small letter stands for its class, the capital letter for all other characters; `z` is the zero character. */
  lemma ClassMeaning(locale: Locale, c: char)
    ensures forall l :: l in "acdglpsuwx" ==> (InSet(locale, c, Escape(l)) <==> locale(l, c))
    ensures forall l :: l in "acdglpsuwx" ==> (InSet(locale, c, Escape(l - 'a' + 'A')) <==> !locale(l, c))
    ensures (InSet(locale, c, Escape('z')) <==> c == '\0') && (InSet(locale, c, Escape('Z')) <==> c != '\0')
    ensures forall d :: !('a' <= d <= 'z' || 'A' <= d <= 'Z') ==> (InSet(locale, c, Escape(d)) <==> c == d)
    ensures InSet(locale, c, Any) && forall d :: InSet(locale, c, Single(d)) <==> c == d
  {
  }

  /** A set has what its elements have, ranges with both ends; `^` makes it the complement. */
  lemma SetMeaning(locale: Locale, c: char, lo: char, hi: char, l: char, d: char)
    requires l in "acdglpsuwx"
    ensures var elems := [Range(lo, hi), Class(l), Char(d)];
      && (InSet(locale, c, Bracket(false, elems)) <==> lo <= c <= hi || locale(l, c) || c == d)
      && (InSet(locale, c, Bracket(true, elems)) <==> !(lo <= c <= hi) && !locale(l, c) && c != d)
  {
    var elems := [Range(lo, hi), Class(l), Char(d)];
    assert InElement(locale, c, elems[0]) <==> lo <= c <= hi;
    assert InElement(locale, c, elems[1]) <==> locale(l, c);
    assert InElement(locale, c, elems[2]) <==> c == d;
  }

  // ----- finding a frontier -----

  /** The first place whose character is in the set. */
  ghost predicate FirstFit(locale: Locale, src: Bytes, s: nat, x: CharSet) {
    && s < |src| && InSet(locale, src[s], x)
    && forall i :: 0 <= i < s ==> !InSet(locale, src[i], x)
  }

  /** Where a set without the zero character has not been met yet, its frontier is at its first character. */
  lemma FrontierFirst(locale: Locale, src: Bytes, x: CharSet, s: nat)
    requires !InSet(locale, '\0', x) && s <= |src|
    requires forall i :: 0 <= i < s ==> NoMatch(locale, src, [Frontier(x)], i)
    ensures forall i :: 0 <= i < s ==> !InSet(locale, src[i], x)
    ensures NoMatch(locale, src, [Frontier(x)], s) <==> !Fits(locale, src, s, x)
    decreases s
  {
    FrontierAlone(locale, src, x, s);
    if s > 0 { FrontierFirst(locale, src, x, s - 1); }
  }

  lemma FrontierAlone(locale: Locale, src: Bytes, x: CharSet, s: nat)
    ensures NoMatch(locale, src, [Frontier(x)], s) <==>
            InSet(locale, Around(src, s - 1), x) || !InSet(locale, Around(src, s), x)
    ensures forall e, caps, caps' :: Derives(locale, src, [Frontier(x)], s, caps, e, caps') ==> e == s && caps' == caps
  {
    Head(Frontier(x), []);
    assert [Frontier(x)][1..] == [];
    assert Derives(locale, src, [], s, [], s, []);
    if !NoMatch(locale, src, [Frontier(x)], s) {
      var e, caps :| Derives(locale, src, [Frontier(x)], s, [], e, caps);
    } else {
      assert !Derives(locale, src, [Frontier(x)], s, [], s, []);
    }
  }

  /** With the zero character in the set, there is a frontier at the end just if the last character is not in it. */
  lemma FrontierAtEnd(locale: Locale, src: Bytes, x: CharSet)
    requires InSet(locale, '\0', x) && src != []
    ensures Derives(locale, src, [Frontier(x)], |src|, [], |src|, []) <==> !InSet(locale, src[|src| - 1], x)
  {
    FrontierMeaning(locale, src, x, [], |src|, [], |src|, []);
    assert [Frontier(x)] + [] == [Frontier(x)];
  }

  /** Searching for a frontier alone finds the first character of the set, or nothing if there is none. */
  method FindFrontier(m: MatchState, x: CharSet) returns (f: Search)
    requires Parse(m.pat, 0) == [Frontier(x)] && !InSet(m.locale, '\0', x)
    requires |m.capture| == MAXCAPTURES && m.matchdepth > |m.pat|
    modifies m
    ensures f.Nowhere? || f.Somewhere?
    ensures f.Nowhere? <==> forall i :: 0 <= i < |m.src| ==> !InSet(m.locale, m.src[i], x)
    ensures f.Somewhere? ==> f.e == f.start && FirstFit(m.locale, m.src, f.start, x)
  {
    hide Choices, Derives;
    FrontierWritten(m.pat, x);
    ghost var p: int := if At(m.pat, 0) == '^' then 1 else 0;
    ghost var items := Parse(m.pat, p);
    assert items == [Frontier(x)];
    f := m.Find(0);
    match f {
      case Error(err) => NeverBreaks(m.locale, m.src, x, err);
      case Nowhere =>
        forall i | 0 <= i <= |m.src| ensures NoMatch(m.locale, m.src, [Frontier(x)], i) {
          assert NoMatch(m.locale, m.src, items, i);
        }
        FrontierFirst(m.locale, m.src, x, |m.src|);
      case Somewhere(start, e) =>
        FrontierFirst(m.locale, m.src, x, start);
        FrontierAlone(m.locale, m.src, x, start);
    }
  }

  lemma FrontierWritten(pat: Bytes, x: CharSet)
    requires Parse(pat, 0) == [Frontier(x)]
    ensures pat != [] && pat[0] == L_ESC
  {
    assert Parse(pat, 0)[0].Frontier?;
  }

  lemma NeverBreaks(locale: Locale, src: Bytes, x: CharSet, err: Patterns.Error)
    ensures !SomeBreak(locale, src, [Frontier(x)], err)
  {
    assert [Frontier(x)][1..] == [];
    forall s: nat ensures !Breaks(locale, src, [Frontier(x)], s, err) {
      assert Choices(locale, src, [], s, []) == [Found(s, [])];
    }
  }

  // ----- how patterns are written -----

  /** Characters without a special meaning stand for themselves. */
  predicate IsPlain(c: char) { c !in "^$*+?.([%-)" }

  function Literal(s: Bytes): seq<Item> { seq(|s|, i requires 0 <= i < |s| => One(Single(s[i]))) }

  lemma {:induction false} PlainPattern(pat: Bytes, p: nat)
    requires p <= |pat| && forall i :: p <= i < |pat| ==> IsPlain(pat[i])
    ensures Parse(pat, p) == Literal(pat[p..])
    decreases |pat| - p
  {
    if p < |pat| {
      PlainPattern(pat, p + 1);
      assert IsPlain(pat[p]) && (p + 1 < |pat| ==> IsPlain(pat[p + 1]));
      assert Literal(pat[p..]) == [One(Single(pat[p]))] + Literal(pat[p + 1..]);
    }
  }

  /** A pattern without special characters matches just its own text. */
  lemma {:induction false} LiteralMeaning(locale: Locale, src: Bytes, text: Bytes, s: nat, e: nat)
    requires s <= |src|
    ensures Derives(locale, src, Literal(text), s, [], e, []) <==>
            e == s + |text| && e <= |src| && src[s..e] == text
    decreases |text|
  {
    if text != "" {
      assert Literal(text)[1..] == Literal(text[1..]);
      assert text == text[..1] + text[1..];
      if s < |src| && src[s] == text[0] {
        LiteralMeaning(locale, src, text[1..], s + 1, e);
        if e == s + |text| && e <= |src| {
          assert src[s..e] == [src[s]] + src[s + 1..e];
          assert src[s..e][0] == src[s];
        }
      }
    }
  }

  /** `%` makes any character but a letter or a digit an ordinary one, also a suffix or a bracket. */
  lemma EscapedMark(pat: Bytes, p: nat)
    requires p + 1 < |pat| && pat[p] == L_ESC && At(pat, p + 2) !in "*+-?"
    requires !('a' <= pat[p + 1] <= 'z' || 'A' <= pat[p + 1] <= 'Z' || '0' <= pat[p + 1] <= '9')
    ensures Parse(pat, p) == [One(Escape(pat[p + 1]))] + Parse(pat, p + 2)
  {
    assert Parse(pat, p) == ParseSingle(pat, p);
  }

  lemma Suffixes()
    ensures Parse("a*b+c-d?.", 0) ==
      [Star(Single('a')), Plus(Single('b')), Minus(Single('c')), Optional(Single('d')), One(Any)]
  {
    var pat := "a*b+c-d?.";
    assert Parse(pat, 9) == [];
    assert Parse(pat, 8) == ParseSingle(pat, 8) == [One(Any)];
    assert Parse(pat, 6) == ParseSingle(pat, 6) == [Optional(Single('d')), One(Any)];
    assert Parse(pat, 4) == ParseSingle(pat, 4) == [Minus(Single('c')), Optional(Single('d')), One(Any)];
  }

  lemma Groups()
    ensures Parse("(a()%1)$", 0) ==
      [Open(false), One(Single('a')), Open(true), Back('1'), Close, AtEnd]
    ensures Parse("$a", 0) == [One(Single('$')), One(Single('a'))]
    ensures Parse("%bxy%f[%w]", 0) == [Balance('x', 'y'), Frontier(Bracket(false, [Class('w')]))]
  {
    assert Parse("(a()%1)$", 2) == [Open(true), Back('1'), Close, AtEnd];
    assert Parse("(a()%1)$", 1) == ParseSingle("(a()%1)$", 1);
    assert Parse("$a", 1) == ParseSingle("$a", 1);
    var pat := "%bxy%f[%w]";
    assert BracketEnd(pat, 7, true) == BracketEnd(pat, 9, false) == 10;
    assert Elements(pat, 7, 9) == [Class('w')];
    assert Parse(pat, 4) == [Frontier(Bracket(false, [Class('w')]))];
  }

  lemma Sets()
    ensures Parse("[a-c_]", 0) == [One(Bracket(false, [Range('a', 'c'), Char('_')]))]
    ensures Parse("[^%a-]", 0) == [One(Bracket(true, [Class('a'), Char('-')]))]
    ensures Parse("[]x]*", 0) == [Star(Bracket(false, [Char(']'), Char('x')]))]
  {
    assert BracketEnd("[a-c_]", 1, true) == BracketEnd("[a-c_]", 3, false) == BracketEnd("[a-c_]", 5, false) == 6;
    assert Elements("[a-c_]", 1, 5) == [Range('a', 'c')] + Elements("[a-c_]", 4, 5) == [Range('a', 'c'), Char('_')];
    assert BracketEnd("[^%a-]", 2, true) == BracketEnd("[^%a-]", 4, false) == 6;
    assert Elements("[^%a-]", 2, 5) == [Class('a')] + Elements("[^%a-]", 4, 5) == [Class('a'), Char('-')];
    assert BracketEnd("[]x]*", 1, true) == BracketEnd("[]x]*", 3, false) == 4;
    assert Elements("[]x]*", 1, 3) == [Char(']')] + Elements("[]x]*", 2, 3) == [Char(']'), Char('x')];
  }

  lemma Errors()
    ensures Parse("%", 0) == [Bad(EndsWithEscape)]
    ensures Parse("[a", 0) == Parse("[]", 0) == Parse("[%]", 0) == Parse("%f[a", 0) == [Bad(MissingBracket)]
    ensures Parse("%fa", 0) == [Bad(MissingFrontierSet)]
    ensures Parse("%bx", 0) == [Bad(MissingBalanceArgs)]
  {
  }
}
