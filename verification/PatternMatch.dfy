/**
 The pattern matcher of lstrlib.c: it works on the text of the pattern, and undoes captures when it goes back.
 */
module PatternMatch {
  import opened Patterns

  datatype Result = Null | To(e: nat) | Raise(err: Error)

  /** The captures lie before `s`. */
  ghost predicate Before(caps: seq<Capture>, s: nat) {
    forall i :: 0 <= i < |caps| ==>
      caps[i].start <= s && (caps[i].len.Closed? ==> caps[i].start + caps[i].len.len <= s)
  }

  datatype Index = Level(l: nat) | Wrong(err: Error)

  class MatchState {
    const locale: Locale
    const src: Bytes
    const pat: Bytes
    var matchdepth: nat
    var level: nat
    var capture: seq<Capture>

    constructor (locale: Locale, src: Bytes, pat: Bytes, depth: nat)
      ensures Valid(0) && Caps() == [] && matchdepth == depth
      ensures this.locale == locale && this.src == src && this.pat == pat
    {
      this.locale, this.src, this.pat := locale, src, pat;
      matchdepth, level := depth, 0;
      capture := seq(MAXCAPTURES, _ => Capture(0, Position));
    }

    /** The captures in use lie within the subject before `s`. */
    ghost predicate Valid(s: nat)
      reads this
    {
      |capture| == MAXCAPTURES && level <= MAXCAPTURES && s <= |src| && Before(Caps(), s)
    }

    ghost function Caps(): seq<Capture>
      requires level <= |capture|
      reads `level, `capture
    {
      capture[..level]
    }

    ghost function All(p: nat, s: nat, caps: seq<Capture>): seq<Choice> {
      Choices(locale, src, Parse(pat, p), s, caps)
    }

    // ----- single characters -----

    /** `check_capture` */
    method CheckCapture(digit: char) returns (r: Index)
      requires level <= |capture|
      ensures var l := CaptureIndex(Caps(), digit);
        r == if l == -1 then Wrong(InvalidCaptureIndex) else Level(l)
    {
      var l := digit as int - '1' as int;
      if l < 0 || l >= level || capture[l].len.Unfinished? {
        return Wrong(InvalidCaptureIndex);
      }
      return Level(l);
    }

    /** `capture_to_close` */
    method CaptureToClose() returns (r: Index)
      requires level <= |capture|
      ensures if ToClose(Caps()) == -1 then r == Wrong(InvalidPatternCapture) else r == Level(ToClose(Caps()))
    {
      var l := level - 1;
      while l >= 0
        invariant -1 <= l < level && ToClose(Caps()) == ToClose(capture[..l + 1])
      {
        assert capture[..l + 1][..l] == capture[..l];
        if capture[l].len.Unfinished? { return Level(l); }
        l := l - 1;
      }
      return Wrong(InvalidPatternCapture);
    }

    /** `classend` */
    method FindClassEnd(p: nat) returns (r: End)
      requires p < |pat|
      ensures r == ClassEnd(pat, p)
    {
      var q := p + 1;
      if pat[p] == L_ESC {
        if q == |pat| { return Malformed(EndsWithEscape); }
        return Ends(q + 1);
      } else if pat[p] == '[' {
        if At(pat, q) == '^' { q := q + 1; }
        var first := true;
        while first || At(pat, q) != ']'
          invariant q <= |pat|
          invariant BracketEnd(pat, if At(pat, p + 1) == '^' then p + 2 else p + 1, true) == BracketEnd(pat, q, first)
          decreases |pat| - q
        {
          if q == |pat| { return Malformed(MissingBracket); }
          var c := pat[q];
          q := q + 1;
          if c == L_ESC && q < |pat| { q := q + 1; }
          first := false;
        }
        return Ends(q + 1);
      } else {
        return Ends(q);
      }
    }

    /** `match_class` */
    method MatchClass(c: char, cl: char) returns (b: bool)
      ensures b == InClass(locale, c, cl)
    {
      var res;
      if ToLower(cl) in "acdglpsuwx" {
        res := locale(ToLower(cl), c);
      } else if ToLower(cl) == 'z' {
        res := c == '\0';
      } else {
        return cl == c;
      }
      return if IsLower(cl) then res else !res;
    }

    /** `matchbracketclass`: goes through the set until an element fits. */
    method MatchBracketClass(c: char, start: nat, ec: nat) returns (b: bool)
      requires start <= ec
      ensures b == InSet(locale, c, BracketOf(pat, start, ec + 1))
    {
      hide InSet, InClass, Elements, BracketOf, AnyFits;
      var p, sig := start, true;
      if At(pat, p + 1) == '^' {
        sig := false;
        p := p + 1;
      }
      p := p + 1;
      BracketFits(locale, pat, c, start, ec + 1);
      ghost var all := Elements(pat, p, ec);
      while p < ec
        invariant AnyFits(locale, c, all) == AnyFits(locale, c, Elements(pat, p, ec))
        decreases ec - p
      {
        ElementStep(locale, pat, c, p, ec);
        if At(pat, p) == L_ESC {
          p := p + 1;
          var ok := MatchClass(c, At(pat, p));
          if ok { return sig; }
        } else if At(pat, p + 1) == '-' && p + 2 < ec {
          p := p + 2;
          if At(pat, p - 2) <= c <= At(pat, p) { return sig; }
        } else if At(pat, p) == c {
          return sig;
        }
        p := p + 1;
      }
      NoElement(locale, pat, c, p, ec);
      return !sig;
    }

    /** `singlematch` */
    method SingleMatch(s: nat, p: nat, ep: nat) returns (b: bool)
      requires p < ep
      ensures b == Fits(locale, src, s, SetOf(pat, p, ep))
    {
      if s >= |src| {
        return false;
      }
      var c := src[s];
      match At(pat, p) {
        case '.' =>
          b := true;
        case '%' =>
          b := MatchClass(c, At(pat, p + 1));
        case '[' =>
          b := MatchBracketClass(c, p, ep - 1);
        case _ =>
          b := At(pat, p) == c;
      }
    }

    // ----- matching -----

    /** The result is the first choice; if there is none, captures are as they were. */
    ghost predicate Answers(r: Result, cs: seq<Choice>, s: nat, caps: seq<Capture>, depth: nat, bound: int)
      reads this
    {
      match r
      case Null => cs == [] && Valid(s) && Caps() == caps && matchdepth == depth
      case To(e) => cs != [] && s <= e && Valid(e) && cs[0] == Found(e, Caps()) && matchdepth == depth
      case Raise(err) => if err.TooComplex? then depth <= bound else cs != [] && cs[0] == Broken(err)
    }

    /** After some choices have been tried: an answer, or the other choices are left. */
    lemma Tried(r: Result, cs: seq<Choice>, more: seq<Choice>, s: nat, s0: nat, caps: seq<Capture>, depth: nat,
                bound: int)
      requires Answers(r, cs, s, caps, depth, bound) && s0 <= s && Before(caps, s0)
      ensures if r.Null? then Valid(s0) && Caps() == caps && matchdepth == depth && cs + more == more
              else Answers(r, cs + more, s0, caps, depth, bound)
    {
    }

    /** `match`: the recursion is never deeper than the pattern has items. */
    method Match(s: nat, p: nat) returns (r: Result)
      requires Valid(s) && p <= |pat|
      modifies `level, `capture, `matchdepth
      ensures Answers(r, All(p, s, old(Caps())), s, old(Caps()), old(matchdepth), |Parse(pat, p)|)
      decreases |pat| - p, 5
    {
      if matchdepth == 0 {
        return Raise(TooComplex);
      }
      matchdepth := matchdepth - 1;
      var n := Goto(s, p);
      while n.Goto? && n.p != |pat|
        invariant n.Goto? ==>
          p <= n.p <= |pat| && s <= n.s && Valid(n.s) && Caps() == old(Caps()) && matchdepth == old(matchdepth) - 1
        invariant n.Goto? ==>
          All(n.p, n.s, old(Caps())) == All(p, s, old(Caps())) && |Parse(pat, n.p)| <= |Parse(pat, p)|
        invariant n.Done? ==>
          Answers(n.r, All(p, s, old(Caps())), s, old(Caps()), old(matchdepth) - 1, |Parse(pat, p)| - 1)
        decreases n.Goto?, if n.Goto? then |pat| - n.p else 0
      {
        n := MatchItem(n.s, n.p);
      }
      r := if n.Goto? then To(n.s) else n.r;
      if !r.Raise? {
        matchdepth := matchdepth + 1;
      }
    }

    /** One round of `match`: a result, or what is left to be matched. */
    method MatchItem(s: nat, p: nat) returns (n: Next)
      requires Valid(s) && p < |pat|
      modifies `level, `capture, `matchdepth
      ensures n.Done? ==> Answers(n.r, All(p, s, old(Caps())), s, old(Caps()), old(matchdepth), |Parse(pat, p)| - 1)
      ensures n.Goto? ==>
        p < n.p <= |pat| && s <= n.s && Valid(n.s) && Caps() == old(Caps()) && matchdepth == old(matchdepth)
      ensures n.Goto? ==> All(n.p, n.s, old(Caps())) == All(p, s, old(Caps())) && |Parse(pat, n.p)| <= |Parse(pat, p)|
      decreases |pat| - p, 4
    {
      match pat[p] {
        case '(' =>
          if At(pat, p + 1) == ')' {
            Head(Open(true), Parse(pat, p + 2));
            var r := StartCapture(s, p + 2, Position);
            return Done(r);
          } else {
            Head(Open(false), Parse(pat, p + 1));
            var r := StartCapture(s, p + 1, Unfinished);
            return Done(r);
          }
        case ')' =>
          Head(Close, Parse(pat, p + 1));
          var r := EndCapture(s, p + 1);
          return Done(r);
        case '$' =>
          if p + 1 == |pat| {
            return Done(if s == |src| then To(s) else Null);
          }
        case '%' =>
          match At(pat, p + 1) {
            case 'b' =>
              n := MatchBalance(s, p);
              return;
            case 'f' =>
              n := MatchFrontier(s, p);
              return;
            case _ =>
              if IsDigit(At(pat, p + 1)) {
                n := MatchCapture(s, p);
                return;
              }
          }
        case _ =>
      }
      n := MatchDefault(s, p);
    }

    /** `start_capture` */
    method StartCapture(s: nat, p: nat, what: Length) returns (r: Result)
      requires Valid(s) && p <= |pat| && !what.Closed?
      modifies `level, `capture, `matchdepth
      ensures var all := Choices(locale, src, [Open(what.Position?)] + Parse(pat, p), s, old(Caps()));
        Answers(r, all, s, old(Caps()), old(matchdepth), |Parse(pat, p)|)
      decreases |pat| - p, 6
    {
      Head(Open(what.Position?), Parse(pat, p));
      if level >= MAXCAPTURES {
        return Raise(TooManyCaptures);
      }
      ghost var caps := Caps();
      capture := capture[level := Capture(s, what)];
      level := level + 1;
      assert Caps() == caps + [Capture(s, what)];
      r := Match(s, p);
      if r.Null? {
        assert Caps()[..level - 1] == caps;
        level := level - 1;
      }
    }

    /** `end_capture` */
    method EndCapture(s: nat, p: nat) returns (r: Result)
      requires Valid(s) && p <= |pat|
      modifies `level, `capture, `matchdepth
      ensures var all := Choices(locale, src, [Close] + Parse(pat, p), s, old(Caps()));
        Answers(r, all, s, old(Caps()), old(matchdepth), |Parse(pat, p)|)
      decreases |pat| - p, 6
    {
      Head(Close, Parse(pat, p));
      var i := CaptureToClose();
      if i.Wrong? {
        return Raise(i.err);
      }
      var l := i.l;
      ghost var caps := Caps();
      capture := capture[l := Capture(capture[l].start, Closed(s - capture[l].start))];
      ghost var closed := Caps();
      assert closed == caps[l := Capture(caps[l].start, ClosedAt(caps[l].start, s))];
      r := Match(s, p);
      if r.Null? {
        assert capture[l] == closed[l];
        capture := capture[l := Capture(capture[l].start, Unfinished)];
        assert Caps() == closed[l := Capture(closed[l].start, Unfinished)] == caps;
      }
    }

    /** `match_capture`: the text of a capture again. */
    method MatchCapture(s: nat, p: nat) returns (n: Next)
      requires Valid(s) && p + 1 < |pat| && pat[p] == L_ESC && IsDigit(pat[p + 1])
      ensures n.Done? ==> Answers(n.r, All(p, s, Caps()), s, Caps(), matchdepth, |Parse(pat, p)| - 1)
      ensures n.Goto? ==> p < n.p <= |pat| && s <= n.s && Valid(n.s)
      ensures n.Goto? ==> All(n.p, n.s, Caps()) == All(p, s, Caps()) && |Parse(pat, n.p)| <= |Parse(pat, p)|
    {
      Head(Back(pat[p + 1]), Parse(pat, p + 2));
      var i := CheckCapture(pat[p + 1]);
      if i.Wrong? {
        return Done(Raise(i.err));
      }
      var c := capture[i.l];
      if c.len.Closed? && |src| - s >= c.len.len && src[s..s + c.len.len] == src[c.start..c.start + c.len.len] {
        return Goto(s + c.len.len, p + 2);
      }
      return Done(Null);
    }

    /** `matchbalance` */
    method MatchBalance(s: nat, p: nat) returns (n: Next)
      requires Valid(s) && p + 1 < |pat| && pat[p] == L_ESC && pat[p + 1] == 'b'
      ensures n.Done? ==> Answers(n.r, All(p, s, Caps()), s, Caps(), matchdepth, |Parse(pat, p)| - 1)
      ensures n.Goto? ==> p < n.p <= |pat| && s <= n.s && Valid(n.s)
      ensures n.Goto? ==> All(n.p, n.s, Caps()) == All(p, s, Caps()) && |Parse(pat, n.p)| <= |Parse(pat, p)|
    {
      if p + 2 >= |pat| - 1 {
        return Done(Raise(MissingBalanceArgs));
      }
      Head(Balance(pat[p + 2], pat[p + 3]), Parse(pat, p + 4));
      if At(src, s) != pat[p + 2] {
        return Done(Null);
      }
      var b, e, cont, i := pat[p + 2], pat[p + 3], 1, s + 1;
      while i < |src|
        invariant s < i && cont > 0 && BalanceEnd(src, s + 1, b, e, 1) == BalanceEnd(src, i, b, e, cont)
      {
        if src[i] == e {
          cont := cont - 1;
          if cont == 0 {
            return Goto(i + 1, p + 4);
          }
        } else if src[i] == b {
          cont := cont + 1;
        }
        i := i + 1;
      }
      return Done(Null);
    }

    /** A frontier is between a character that is not in the set and one that is. */
    method MatchFrontier(s: nat, p: nat) returns (n: Next)
      requires Valid(s) && p + 1 < |pat| && pat[p] == L_ESC && pat[p + 1] == 'f'
      ensures n.Done? ==> Answers(n.r, All(p, s, Caps()), s, Caps(), matchdepth, |Parse(pat, p)| - 1)
      ensures n.Goto? ==> p < n.p <= |pat| && s <= n.s && Valid(n.s)
      ensures n.Goto? ==> All(n.p, n.s, Caps()) == All(p, s, Caps()) && |Parse(pat, n.p)| <= |Parse(pat, p)|
    {
      if At(pat, p + 2) != '[' {
        return Done(Raise(MissingFrontierSet));
      }
      var r := FindClassEnd(p + 2);
      if r.Malformed? {
        return Done(Raise(r.err));
      }
      Head(Frontier(BracketOf(pat, p + 2, r.ep)), Parse(pat, r.ep));
      var previous := if s == 0 then '\0' else src[s - 1];
      var before := MatchBracketClass(previous, p + 2, r.ep - 1);
      var here := MatchBracketClass(At(src, s), p + 2, r.ep - 1);
      return if !before && here then Goto(s, r.ep) else Done(Null);
    }

    /** A single-character item and its suffix. */
    method MatchDefault(s: nat, p: nat) returns (n: Next)
      requires Valid(s) && p < |pat| && Parse(pat, p) == ParseSingle(pat, p)
      modifies `level, `capture, `matchdepth
      ensures n.Done? ==> Answers(n.r, All(p, s, old(Caps())), s, old(Caps()), old(matchdepth), |Parse(pat, p)| - 1)
      ensures n.Goto? ==>
        p < n.p <= |pat| && s <= n.s && Valid(n.s) && Caps() == old(Caps()) && matchdepth == old(matchdepth)
      ensures n.Goto? ==> All(n.p, n.s, old(Caps())) == All(p, s, old(Caps())) && |Parse(pat, n.p)| <= |Parse(pat, p)|
      decreases |pat| - p, 3
    {
      var end := FindClassEnd(p);
      if end.Malformed? {
        return Done(Raise(end.err));
      }
      var ep := end.ep;
      ghost var x := SetOf(pat, p, ep);
      var once := SingleMatch(s, p, ep);
      if !once {
        SuffixHead(pat, p, ep);
        Unfold(locale, src, ParseSingle(pat, p), s, Caps(), x);
        hide Choices, Longest, Shortest, Parse, ParseSingle, SetOf, ClassEnd, Fits, Run;
        if At(pat, ep) == '*' || At(pat, ep) == '?' || At(pat, ep) == '-' {
          return Goto(s, ep + 1);
        }
        return Done(Null);
      }
      n := MatchSuffix(s, p, ep);
    }

    /** The item has matched once. */
    method MatchSuffix(s: nat, p: nat, ep: nat) returns (n: Next)
      requires Valid(s) && p < |pat| && Parse(pat, p) == ParseSingle(pat, p) && ClassEnd(pat, p) == Ends(ep)
      requires Fits(locale, src, s, SetOf(pat, p, ep))
      modifies `level, `capture, `matchdepth
      ensures n.Done? ==> Answers(n.r, All(p, s, old(Caps())), s, old(Caps()), old(matchdepth), |Parse(pat, p)| - 1)
      ensures n.Goto? ==>
        p < n.p <= |pat| && s <= n.s && Valid(n.s) && Caps() == old(Caps()) && matchdepth == old(matchdepth)
      ensures n.Goto? ==> All(n.p, n.s, old(Caps())) == All(p, s, old(Caps())) && |Parse(pat, n.p)| <= |Parse(pat, p)|
      decreases |pat| - p, 2
    {
      hide Choices, Longest, Shortest, Parse, ParseSingle, SetOf, ClassEnd, Run;
      ghost var x, items := SetOf(pat, p, ep), ParseSingle(pat, p);
      SuffixHead(pat, p, ep);
      Unfold(locale, src, items, s, Caps(), x);
      assert s < |src| && p < ep <= |pat| && |items| > 0;
      ghost var caps, d := Caps(), matchdepth;
      assert Before(caps, s) && Valid(s + 1);
      hide Answers, Before;
      match At(pat, ep) {
        case '?' =>
          var r := Match(s + 1, ep + 1);
          ghost var rest := Parse(pat, ep + 1);
          Tried(r, Choices(locale, src, rest, s + 1, caps), Choices(locale, src, rest, s, caps), s + 1, s, caps, d,
                |rest|);
          if !r.Null? { return Done(r); }
          return Goto(s, ep + 1);
        case '+' =>
          var r := MaxExpand(s + 1, p, ep);
          ghost var all := All(p, s, caps);
          assert all + [] == all;
          Tried(r, all, [], s + 1, s, caps, d, |Parse(pat, ep + 1)|);
          return Done(r);
        case '*' =>
          var r := MaxExpand(s, p, ep);
          return Done(r);
        case '-' =>
          var r := MinExpand(s, p, ep);
          return Done(r);
        case _ =>
          return Goto(s + 1, ep);
      }
    }

    /** The loop of `max_expand` that counts how often the item can be repeated. */
    method CountRun(s: nat, p: nat, ep: nat) returns (i: nat)
      requires s <= |src| && p < ep
      ensures i == Run(locale, src, s, SetOf(pat, p, ep)) && s + i <= |src|
    {
      ghost var x := SetOf(pat, p, ep);
      hide InSet, SetOf;
      i := 0;
      var more := SingleMatch(s, p, ep);
      while more
        invariant s + i <= |src| && i + Run(locale, src, s + i, x) == Run(locale, src, s, x)
        invariant more == Fits(locale, src, s + i, x)
        decreases |src| - s - i
      {
        i := i + 1;
        more := SingleMatch(s + i, p, ep);
      }
    }

    /** `max_expand` */
    method MaxExpand(s: nat, p: nat, ep: nat) returns (r: Result)
      requires Valid(s) && p < ep < |pat|
      modifies `level, `capture, `matchdepth
      ensures var x, rest := SetOf(pat, p, ep), Parse(pat, ep + 1);
        Answers(r, Longest(locale, src, rest, s, old(Caps()), Run(locale, src, s, x)), s, old(Caps()), old(matchdepth),
                |rest|)
      decreases |pat| - p, 1
    {
      ghost var x, rest, caps, d := SetOf(pat, p, ep), Parse(pat, ep + 1), Caps(), matchdepth;
      var i: int := CountRun(s, p, ep);
      ghost var all := UpTo(locale, src, rest, s, caps, i);
      hide Choices, Run, Fits, SetOf, Parse, Longest, Answers, UpTo;
      while i >= 0
        invariant -1 <= i <= |src| - s && Valid(s) && Caps() == caps && matchdepth == d
        invariant all == UpTo(locale, src, rest, s, caps, i)
      {
        LongestStep(locale, src, rest, s, caps, i);
        assert Before(caps, s) && Valid(s + i);
        hide Before, Caps;
        r := Match(s + i, ep + 1);
        Tried(r, Choices(locale, src, rest, s + i, caps), UpTo(locale, src, rest, s, caps, i - 1), s + i, s, caps, d,
              |rest|);
        if !r.Null? { return; }
        i := i - 1;
      }
      NoneLeft(locale, src, rest, s, caps);
      Nothing(s);
      return Null;
    }

    /** `min_expand` */
    method MinExpand(s: nat, p: nat, ep: nat) returns (r: Result)
      requires Valid(s) && p < ep < |pat|
      modifies `level, `capture, `matchdepth
      ensures var x, rest := SetOf(pat, p, ep), Parse(pat, ep + 1);
        Answers(r, Shortest(locale, src, rest, s, old(Caps()), x), s, old(Caps()), old(matchdepth), |rest|)
      decreases |pat| - p, 1
    {
      ghost var x, rest, caps, d := SetOf(pat, p, ep), Parse(pat, ep + 1), Caps(), matchdepth;
      hide Choices, SetOf, Parse, Shortest, Answers, InSet;
      ghost var all := Shortest(locale, src, rest, s, caps, x);
      var i := s;
      while true
        invariant s <= i <= |src| && Valid(s) && Caps() == caps && matchdepth == d
        invariant all == Shortest(locale, src, rest, i, caps, x)
        decreases |src| - i
      {
        ghost var further := if Fits(locale, src, i, x) then Shortest(locale, src, rest, i + 1, caps, x) else [];
        ShortestStep(locale, src, rest, i, caps, x);
        assert Valid(i);
        hide Before;
        r := Match(i, ep + 1);
        Tried(r, Choices(locale, src, rest, i, caps), further, i, s, caps, d, |rest|);
        if !r.Null? { return; }
        var more := SingleMatch(i, p, ep);
        if !more {
          Nothing(s);
          return Null;
        }
        i := i + 1;
      }
    }

    lemma Nothing(s: nat)
      requires Valid(s)
      ensures forall bound :: Answers(Null, [], s, Caps(), matchdepth, bound)
    {
    }

    // ----- searching -----

    /** `reprepstate` */
    method Reprepare()
      requires |capture| == MAXCAPTURES
      modifies `level
      ensures level == 0
    {
      level := 0;
    }

    /** `str_find_aux` for patterns with special characters: the first place where the pattern matches. */
    method Find(init: nat) returns (f: Search)
      requires init <= |src| && |capture| == MAXCAPTURES
      modifies `level, `capture, `matchdepth
      ensures var p := if At(pat, 0) == '^' then 1 else 0;
        match f
        case Nowhere =>
          && matchdepth == old(matchdepth)
          && forall s :: init <= s <= (if p == 1 then init else |src|) ==> NoMatch(locale, src, Parse(pat, p), s)
        case Somewhere(start, e) =>
          && init <= start <= e <= |src| && (p == 1 ==> start == init) && level <= |capture| &&
            matchdepth == old(matchdepth)
          && Derives(locale, src, Parse(pat, p), start, [], e, Caps())
          && First(Choices(locale, src, Parse(pat, p), start, []), Found(e, Caps()))
          && forall s :: init <= s < start ==> NoMatch(locale, src, Parse(pat, p), s)
        case Error(err) =>
          if err.TooComplex? then old(matchdepth) < |pat| + 1
          else SomeBreak(locale, src, Parse(pat, p), err)
    {
      hide Choices, Derives;
      var anchor := At(pat, 0) == '^';
      var p := if anchor then 1 else 0;
      ghost var items := Parse(pat, p);
      ParseSize(pat, p);
      var s1 := init;
      while true
        invariant init <= s1 <= |src| && |capture| == MAXCAPTURES && matchdepth == old(matchdepth)
        invariant (anchor ==> s1 == init)
        invariant forall s :: init <= s < s1 ==> NoMatch(locale, src, items, s)
        decreases |src| - s1
      {
        Reprepare();
        assert Caps() == [];
        var r := Match(s1, p);
        match r {
          case To(e) =>
            ChoicesDerive(locale, src, items, s1, [], e, Caps());
            return Somewhere(s1, e);
          case Raise(err) =>
            if !err.TooComplex? {
              assert Breaks(locale, src, items, s1, err);
            } else {
              assert old(matchdepth) < |pat| + 1;
            }
            return Error(err);
          case Null =>
            Unmatched(locale, src, items, s1);
        }
        if s1 == |src| || anchor { return Nowhere; }
        s1 := s1 + 1;
      }
    }
  }

  ghost predicate AnyFits(locale: Locale, c: char, elems: seq<Element>) {
    exists i :: 0 <= i < |elems| && InElement(locale, c, elems[i])
  }

  lemma BracketFits(locale: Locale, pat: Bytes, c: char, p: nat, ep: nat)
    requires p < ep
    ensures var negated := At(pat, p + 1) == '^';
      InSet(locale, c, BracketOf(pat, p, ep)) ==
      (AnyFits(locale, c, Elements(pat, if negated then p + 2 else p + 1, ep - 1)) != negated)
  {
  }

  /** The first element of a set fits, or one of the others. */
  lemma ElementStep(locale: Locale, pat: Bytes, c: char, p: nat, ec: nat)
    requires p < ec
    ensures AnyFits(locale, c, Elements(pat, p, ec)) ==
      if At(pat, p) == L_ESC then
        InClass(locale, c, At(pat, p + 1)) || AnyFits(locale, c, Elements(pat, p + 2, ec))
      else if At(pat, p + 1) == '-' && p + 2 < ec then
        At(pat, p) <= c <= At(pat, p + 2) || AnyFits(locale, c, Elements(pat, p + 3, ec))
      else At(pat, p) == c || AnyFits(locale, c, Elements(pat, p + 1, ec))
  {
    var all := Elements(pat, p, ec);
    FitsNext(locale, c, all[0], all[1..]);
    assert [all[0]] + all[1..] == all;
  }

  lemma FitsNext(locale: Locale, c: char, x: Element, elems: seq<Element>)
    ensures AnyFits(locale, c, [x] + elems) <==> InElement(locale, c, x) || AnyFits(locale, c, elems)
  {
    hide InElement;
    var all := [x] + elems;
    if i :| 0 <= i < |elems| && InElement(locale, c, elems[i]) { assert InElement(locale, c, all[i + 1]); }
    if InElement(locale, c, x) { assert InElement(locale, c, all[0]); }
  }

  lemma NoElement(locale: Locale, pat: Bytes, c: char, p: nat, ec: nat)
    requires p >= ec
    ensures !AnyFits(locale, c, Elements(pat, p, ec))
  {
  }

  /** The choices with at most `n` repetitions. */
  ghost function UpTo(locale: Locale, src: Bytes, rest: seq<Item>, s: nat, caps: seq<Capture>, n: int): seq<Choice> {
    if n < 0 then [] else Longest(locale, src, rest, s, caps, n)
  }

  lemma LongestStep(locale: Locale, src: Bytes, rest: seq<Item>, s: nat, caps: seq<Capture>, n: nat)
    ensures UpTo(locale, src, rest, s, caps, n) ==
            Choices(locale, src, rest, s + n, caps) + UpTo(locale, src, rest, s, caps, n - 1)
  {
  }

  lemma ShortestStep(locale: Locale, src: Bytes, rest: seq<Item>, s: nat, caps: seq<Capture>, x: CharSet)
    ensures Shortest(locale, src, rest, s, caps, x) ==
            Choices(locale, src, rest, s, caps) +
            if Fits(locale, src, s, x) then Shortest(locale, src, rest, s + 1, caps, x) else []
  {
  }

  lemma NoneLeft(locale: Locale, src: Bytes, rest: seq<Item>, s: nat, caps: seq<Capture>)
    ensures UpTo(locale, src, rest, s, caps, -1) == []
  {
  }

  /** What an item of the set `x` amounts to. */
  lemma Unfold(locale: Locale, src: Bytes, items: seq<Item>, s: nat, caps: seq<Capture>, x: CharSet)
    requires items != []
    ensures var all, rest, fits := Choices(locale, src, items, s, caps), items[1..], Fits(locale, src, s, x);
      var without := Choices(locale, src, rest, s, caps);
      match items[0]
      case One(y) => x == y ==> all == if fits then Choices(locale, src, rest, s + 1, caps) else []
      case Star(y) =>
        x == y ==> all == if fits then Longest(locale, src, rest, s, caps, Run(locale, src, s, x)) else without
      case Plus(y) =>
        x == y ==> all == if fits then Longest(locale, src, rest, s + 1, caps, Run(locale, src, s + 1, x)) else []
      case Minus(y) => x == y ==> all == if fits then Shortest(locale, src, rest, s, caps, x) else without
      case Optional(y) =>
        x == y ==> all == (if fits then Choices(locale, src, rest, s + 1, caps) else []) + without
      case _ => true
  {
  }

  /** A suffix makes one item of the set before it. */
  lemma SuffixHead(pat: Bytes, p: nat, ep: nat)
    requires p < |pat| && ClassEnd(pat, p) == Ends(ep)
    ensures var x, items := SetOf(pat, p, ep), ParseSingle(pat, p);
      && |items| > 0
      && match At(pat, ep)
         case '*' => ep < |pat| && items[0] == Star(x) && items[1..] == Parse(pat, ep + 1)
         case '+' => ep < |pat| && items[0] == Plus(x) && items[1..] == Parse(pat, ep + 1)
         case '-' => ep < |pat| && items[0] == Minus(x) && items[1..] == Parse(pat, ep + 1)
         case '?' => ep < |pat| && items[0] == Optional(x) && items[1..] == Parse(pat, ep + 1)
         case _ => items[0] == One(x) && items[1..] == Parse(pat, ep)
  {
    var x := SetOf(pat, p, ep);
    Head(One(x), Parse(pat, ep));
    Head(Star(x), Parse(pat, ep + 1));
    Head(Plus(x), Parse(pat, ep + 1));
    Head(Minus(x), Parse(pat, ep + 1));
    Head(Optional(x), Parse(pat, ep + 1));
  }

  /** The choice with the highest priority. */
  ghost predicate First(cs: seq<Choice>, c: Choice) { cs != [] && cs[0] == c }

  ghost predicate Breaks(locale: Locale, src: Bytes, items: seq<Item>, s: nat, err: Error) {
    First(Choices(locale, src, items, s, []), Broken(err))
  }

  ghost predicate SomeBreak(locale: Locale, src: Bytes, items: seq<Item>, err: Error) {
    exists s: nat :: s <= |src| && Breaks(locale, src, items, s, err)
  }

  datatype Search = Nowhere | Somewhere(start: nat, e: nat) | Error(err: Patterns.Error)

  /** The items do not match here in any way. */
  ghost predicate NoMatch(locale: Locale, src: Bytes, items: seq<Item>, s: nat) {
    forall e, caps :: !Derives(locale, src, items, s, [], e, caps)
  }

  lemma Unmatched(locale: Locale, src: Bytes, items: seq<Item>, s: nat)
    requires Choices(locale, src, items, s, []) == [] && s <= |src|
    ensures NoMatch(locale, src, items, s)
  {
    forall e, caps ensures !Derives(locale, src, items, s, [], e, caps) {
      ChoicesDerive(locale, src, items, s, [], e, caps);
    }
  }

  /** Each item takes at least one character. */
  lemma {:induction false} ParseSize(pat: Bytes, p: nat)
    requires p <= |pat|
    ensures |Parse(pat, p)| <= |pat| - p
    decreases |pat| - p, 1
  {
    hide ClassEnd, BracketOf, SetOf, IsDigit;
    if p < |pat| {
      ParseSize(pat, p + 1);
      if p + 2 <= |pat| { ParseSize(pat, p + 2); }
      if p + 4 <= |pat| { ParseSize(pat, p + 4); }
      SizeAfterClass(pat, p, p);
      if p + 2 < |pat| { SizeAfterClass(pat, p, p + 2); }
    }
  }

  lemma {:induction false} SizeAfterClass(pat: Bytes, p: nat, q: nat)
    requires p <= q < |pat|
    ensures var end := ClassEnd(pat, q); end.Ends? ==>
      && |Parse(pat, end.ep)| < |pat| - p
      && (end.ep < |pat| ==> |Parse(pat, end.ep + 1)| < |pat| - p)
    decreases |pat| - p, 0
  {
    var end := ClassEnd(pat, q);
    if end.Ends? {
      ParseSize(pat, end.ep);
      if end.ep < |pat| { ParseSize(pat, end.ep + 1); }
    }
  }

  datatype Next = Done(r: Result) | Goto(s: nat, p: nat)

  lemma Head(x: Item, rest: seq<Item>)
    ensures ([x] + rest)[0] == x && ([x] + rest)[1..] == rest
  {
  }
}
