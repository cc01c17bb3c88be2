/**
 The format `%q` of lstrlib.c writes a string as a literal, and the lexer (llex.c) reads literals. Reading what
 has been written gives the string back.
 */
module QuotedStrings {

  predicate IsDigit(c: char) { '0' <= c <= '9' }

  predicate IsNewline(c: char) { c == '\n' || c == '\r' }

  predicate IsSpace(c: char) { c == ' ' || '\t' <= c <= '\r' }

  predicate IsHexDigit(c: char) { IsDigit(c) || 'a' <= c <= 'f' || 'A' <= c <= 'F' }

  /** `luaO_hexavalue` */
  function HexValue(c: char): (v: nat)
    requires IsHexDigit(c)
    ensures v < 16
  {
    if IsDigit(c) then c as int - '0' as int
    else (if 'A' <= c <= 'F' then c as int + 32 else c as int) - 'a' as int + 10
  }

  const UCHAR_MAX := 255

  /** Strings are made of bytes. */
  predicate IsBytes(s: string) { forall i :: 0 <= i < |s| ==> s[i] as int <= UCHAR_MAX }

  // ----- what literals mean -----

  datatype Error =
    | UnfinishedAtEnd | UnfinishedAtNewline | HexDigitExpected | MissingBrace | Utf8TooLarge | MissingClosingBrace
    | InvalidEscape | DecimalTooLarge

  /** A value, where its text ends, and how many newlines were passed; or an error. */
  datatype Scan = Value(s: string, next: nat, lines: nat) | Failure(err: Error)

  datatype Escape = Chars(s: string, next: nat, lines: nat) | Illegal(err: Error)

  /** A newline may be one character, or two different ones. */
  function AfterNewline(t: string, i: nat): (j: nat)
    requires i < |t|
    ensures i < j <= |t|
  {
    if i + 1 < |t| && IsNewline(t[i + 1]) && t[i + 1] != t[i] then i + 2 else i + 1
  }

  /** Spaces and newlines are skipped. */
  function AfterSpaces(t: string, i: nat): (r: (nat, nat))
    ensures i <= r.0 && (i <= |t| ==> r.0 <= |t|)
    decreases |t| - i
  {
    if i < |t| && IsSpace(t[i]) then
      if IsNewline(t[i]) then var r := AfterSpaces(t, AfterNewline(t, i)); (r.0, r.1 + 1)
      else AfterSpaces(t, i + 1)
    else (i, 0)
  }

  /** Digits at `i`, `n` at most, after digits with the value `r`. */
  function DecimalEscape(t: string, i: nat, n: nat, r: nat): Escape
    decreases n
  {
    if n > 0 && i < |t| && IsDigit(t[i]) then DecimalEscape(t, i + 1, n - 1, 10 * r + (t[i] as int - '0' as int))
    else if r <= UCHAR_MAX then Chars([r as char], i, 0)
    else Illegal(DecimalTooLarge)
  }

  function HexEscape(t: string, i: nat): Escape {
    if i + 1 < |t| && IsHexDigit(t[i]) && IsHexDigit(t[i + 1]) then
      Chars([(16 * HexValue(t[i]) + HexValue(t[i + 1])) as char], i + 2, 0)
    else Illegal(HexDigitExpected)
  }

  function Continuation(x: nat): char { (0x80 + x % 64) as char }

  /** UTF-8, extended to 31 bits: the bytes after the first. */
  function Continuations(x: nat, n: nat): string
    decreases n
  {
    if n == 0 then "" else Continuations(x / 64, n - 1) + [Continuation(x)]
  }

  /** How many continuation bytes a code needs: they carry six bits each, and each takes one from the first byte. */
  function ContinuationCount(x: nat): (n: nat)
    ensures n <= 5
  {
    if x < 0x80 then 0 else if x < 0x800 then 1 else if x < 0x1_0000 then 2 else if x < 0x20_0000 then 3
    else if x < 0x400_0000 then 4 else 5
  }

  function FirstByte(x: nat): char
    requires x < 0x8000_0000
  {
    var n := ContinuationCount(x);
    if n == 0 then x as char
    else if n == 1 then (0xC0 + x / 0x40) as char
    else if n == 2 then (0xE0 + x / 0x1000) as char
    else if n == 3 then (0xF0 + x / 0x4_0000) as char
    else if n == 4 then (0xF8 + x / 0x100_0000) as char
    else (0xFC + x / 0x4000_0000) as char
  }

  function Utf8(x: nat): string
    requires x < 0x8000_0000
  {
    [FirstByte(x)] + Continuations(x, ContinuationCount(x))
  }

  /** The code of `\u{...}` after digits with the value `r`. */
  function Utf8Escape(t: string, i: nat, r: nat): Escape
    requires r < 0x8000_0000
    decreases |t| - i
  {
    if i < |t| && IsHexDigit(t[i]) then
      if r > 0x7FF_FFFF then Illegal(Utf8TooLarge) else Utf8Escape(t, i + 1, 16 * r + HexValue(t[i]))
    else if i < |t| && t[i] == '}' then Chars(Utf8(r), i + 1, 0)
    else Illegal(MissingClosingBrace)
  }

  /** Escapes that stand for one character. */
  function Simple(c: char): string {
    match c
    case 'a' => [7 as char]
    case 'b' => [8 as char]
    case 'f' => [12 as char]
    case 'n' => "\n"
    case 'r' => "\r"
    case 't' => "\t"
    case 'v' => [11 as char]
    case '\\' => "\\"
    case '\"' => "\""
    case '\'' => "\'"
    case _ => ""
  }

  /** The escape sequence whose backslash is before `i`. */
  function EscapeAt(t: string, i: nat): Escape {
    if i >= |t| then Illegal(UnfinishedAtEnd)
    else if Simple(t[i]) != "" then Chars(Simple(t[i]), i + 1, 0)
    else if t[i] == 'x' then HexEscape(t, i + 1)
    else if t[i] == 'u' then Utf8At(t, i + 1)
    else if IsNewline(t[i]) then Chars("\n", AfterNewline(t, i), 1)
    else if t[i] == 'z' then var r := AfterSpaces(t, i + 1); Chars("", r.0, r.1)
    else if IsDigit(t[i]) then DecimalEscape(t, i, 3, 0)
    else Illegal(InvalidEscape)
  }

  lemma {:induction false} DecimalMoves(t: string, i: nat, n: nat, r: nat)
    ensures DecimalEscape(t, i, n, r).Chars? ==> i <= DecimalEscape(t, i, n, r).next
    ensures DecimalEscape(t, i, n, r).Chars? && n > 0 && i < |t| && IsDigit(t[i]) ==> i < DecimalEscape(t, i, n, r).next
    decreases n
  {
    if n > 0 && i < |t| && IsDigit(t[i]) { DecimalMoves(t, i + 1, n - 1, 10 * r + (t[i] as int - '0' as int)); }
  }

  lemma {:induction false} Utf8Moves(t: string, i: nat, r: nat)
    requires r < 0x8000_0000
    ensures Utf8Escape(t, i, r).Chars? ==> i < Utf8Escape(t, i, r).next
    decreases |t| - i
  {
    if i < |t| && IsHexDigit(t[i]) && r <= 0x7FF_FFFF { Utf8Moves(t, i + 1, 16 * r + HexValue(t[i])); }
  }

  lemma EscapeMoves(t: string, i: nat)
    ensures EscapeAt(t, i).Chars? ==> i < EscapeAt(t, i).next
  {
    DecimalMoves(t, i, 3, 0);
    if i + 2 < |t| && IsHexDigit(t[i + 2]) { Utf8Moves(t, i + 3, HexValue(t[i + 2])); }
  }

  /** The rest of a literal from `i` on, delimited by `del`, after the characters `acc`. */
  function Decode(t: string, i: nat, del: char, acc: string, lines: nat): Scan
    decreases |t| - i
  {
    if i >= |t| then Failure(UnfinishedAtEnd)
    else if t[i] == del then Value(acc, i + 1, lines)
    else if IsNewline(t[i]) then Failure(UnfinishedAtNewline)
    else if t[i] == '\\' then
      EscapeMoves(t, i + 1);
      match EscapeAt(t, i + 1)
      case Illegal(err) => Failure(err)
      case Chars(s, next, n) => Decode(t, next, del, acc + s, lines + n)
    else Decode(t, i + 1, del, acc + [t[i]], lines)
  }

  // ----- writing literals -----

  /** Control characters, as the locale sees them. */
  type Controls = char -> bool

  function Digit(n: nat): char
    requires n < 10
  {
    (n + '0' as int) as char
  }

  /** `%03d` */
  function Padded(n: nat): (s: string)
    requires n <= UCHAR_MAX
    ensures |s| == 3
  {
    [Digit(n / 100), Digit(n / 10 % 10), Digit(n % 10)]
  }

  /** `%d` */
  function Decimal(n: nat): (s: string)
    requires n <= UCHAR_MAX
    ensures 0 < |s| <= 3
  {
    if n < 10 then [Digit(n)] else if n < 100 then [Digit(n / 10), Digit(n % 10)] else Padded(n)
  }

  /** How `%q` writes the character at `i`. */
  function Written(cntrl: Controls, s: string, i: nat): string
    requires i < |s| && IsBytes(s)
  {
    if s[i] == '\"' || s[i] == '\\' || s[i] == '\n' then ['\\', s[i]]
    else if cntrl(s[i]) then
      ['\\'] + if i + 1 < |s| && IsDigit(s[i + 1]) then Padded(s[i] as int) else Decimal(s[i] as int)
    else [s[i]]
  }

  function WrittenTo(cntrl: Controls, s: string, n: nat): string
    requires n <= |s| && IsBytes(s)
    decreases n
  {
    if n == 0 then "" else WrittenTo(cntrl, s, n - 1) + Written(cntrl, s, n - 1)
  }

  function Quoted(cntrl: Controls, s: string): string
    requires IsBytes(s)
  {
    "\"" + WrittenTo(cntrl, s, |s|) + "\""
  }

  /** One character of `addquoted`. */
  method AddOne(cntrl: Controls, s: string, i: nat, b: string) returns (b': string)
    requires i < |s| && IsBytes(s)
    ensures b' == b + Written(cntrl, s, i)
  {
    if s[i] == '\"' || s[i] == '\\' || s[i] == '\n' {
      b' := b + "\\";
      b' := b' + [s[i]];
      assert "\\" + [s[i]] == ['\\', s[i]];
    } else if cntrl(s[i]) {
      var buff;
      if !(i + 1 < |s| && IsDigit(s[i + 1])) {
        buff := "\\" + Decimal(s[i] as int);
      } else {
        buff := "\\" + Padded(s[i] as int);
      }
      b' := b + buff;
    } else {
      b' := b + [s[i]];
    }
  }

  /** `addquoted` */
  method AddQuoted(cntrl: Controls, s: string, b: string) returns (b': string)
    requires IsBytes(s)
    ensures b' == b + Quoted(cntrl, s)
  {
    hide Written;
    b' := b + "\"";
    var i := 0;
    while i < |s|
      invariant 0 <= i <= |s| && b' == b + ("\"" + WrittenTo(cntrl, s, i))
    {
      b' := AddOne(cntrl, s, i, b');
      i := i + 1;
    }
    b' := b' + "\"";
  }

  // ----- the round trip -----

  /** What `%q` writes from the character at `i` on. */
  function WrittenFrom(cntrl: Controls, s: string, i: nat): string
    requires i <= |s| && IsBytes(s)
    decreases |s| - i
  {
    if i == |s| then "\"" else Written(cntrl, s, i) + WrittenFrom(cntrl, s, i + 1)
  }

  lemma {:induction false} WrittenParts(cntrl: Controls, s: string, i: nat)
    requires i <= |s| && IsBytes(s)
    ensures WrittenTo(cntrl, s, |s|) + "\"" == WrittenTo(cntrl, s, i) + WrittenFrom(cntrl, s, i)
    decreases |s| - i
  {
    hide Written;
    if i < |s| {
      var a, w, r := WrittenTo(cntrl, s, i), Written(cntrl, s, i), WrittenFrom(cntrl, s, i + 1);
      WrittenParts(cntrl, s, i + 1);
      assert WrittenTo(cntrl, s, i + 1) == a + w;
      assert (a + w) + r == a + (w + r);
    }
  }

  /** The text `r` is at `i`. */
  predicate Occurs(t: string, i: nat, r: string) { i + |r| <= |t| && t[i..i + |r|] == r }

  lemma DecimalAt(t: string, i: nat, d: string, n: nat)
    requires n <= UCHAR_MAX && Occurs(t, i, d) && (d == Padded(n) || d == Decimal(n))
    requires |d| == 3 || (i + |d| < |t| && !IsDigit(t[i + |d|]))
    ensures DecimalEscape(t, i, 3, 0) == Chars([n as char], i + |d|, 0)
  {
    assert forall j :: 0 <= j < |d| ==> t[i + j] == t[i..i + |d|][j] == d[j];
    if |d| == 3 {
      assert d == Padded(n);
      assert 10 * (n / 100) + n / 10 % 10 == n / 10 && 10 * (n / 10) + n % 10 == n;
      assert IsDigit(t[i]) && IsDigit(t[i + 1]) && IsDigit(t[i + 2]);
      assert DecimalEscape(t, i, 3, 0) == DecimalEscape(t, i + 1, 2, n / 100) == DecimalEscape(t, i + 2, 1, n / 10);
    } else if |d| == 2 {
      assert DecimalEscape(t, i, 3, 0) == DecimalEscape(t, i + 1, 2, n / 10) == DecimalEscape(t, i + 2, 1, n);
    } else {
      assert DecimalEscape(t, i, 3, 0) == DecimalEscape(t, i + 1, 2, n);
    }
  }

  lemma FirstWritten(cntrl: Controls, s: string, i: nat)
    requires i <= |s| && IsBytes(s)
    ensures WrittenFrom(cntrl, s, i) != ""
    ensures IsDigit(WrittenFrom(cntrl, s, i)[0]) ==> i < |s| && IsDigit(s[i])
  {
  }

  lemma EscapeStep(t: string, j: nat, del: char, acc: string, lines: nat)
    requires j < |t| && t[j] == '\\' != del && EscapeAt(t, j + 1).Chars?
    ensures var e := EscapeAt(t, j + 1);
            Decode(t, j, del, acc, lines) == Decode(t, e.next, del, acc + e.s, lines + e.lines)
  {
    hide EscapeAt;
    EscapeMoves(t, j + 1);
  }

  lemma PlainStep(t: string, j: nat, del: char, acc: string, lines: nat)
    requires j < |t| && t[j] != '\\' && t[j] != del && !IsNewline(t[j])
    ensures Decode(t, j, del, acc, lines) == Decode(t, j + 1, del, acc + [t[j]], lines)
  {
    hide EscapeAt;
  }

  lemma CharAt(t: string, j: nat, w: string, k: nat)
    requires Occurs(t, j, w) && k < |w|
    ensures j + k < |t| && t[j + k] == w[k]
  {
    assert t[j + k] == t[j..j + |w|][k];
  }

  /** What is written for one character, and what follows, in the text. */
  lemma OccursParts(t: string, j: nat, w: string, rest: string)
    requires Occurs(t, j, w + rest)
    ensures Occurs(t, j, w) && Occurs(t, j + |w|, rest)
  {
    var both := w + rest;
    assert t[j..j + |both|] == both;
    assert t[j..j + |w|] == both[..|w|];
    assert t[j + |w|..j + |both|] == both[|w|..];
  }

  lemma ControlReadBack(cntrl: Controls, s: string, t: string, i: nat, j: nat, rest: string)
    requires i < |s| && IsBytes(s) && s[i] != '\"' && s[i] != '\\' && s[i] != '\n' && cntrl(s[i])
    requires Occurs(t, j, Written(cntrl, s, i) + rest) && rest != ""
    requires (IsDigit(rest[0]) ==> i + 1 < |s| && IsDigit(s[i + 1]))
    ensures j < |t| && t[j] == '\\' && EscapeAt(t, j + 1) == Chars([s[i]], j + |Written(cntrl, s, i)|, 0)
  {
    var w, n := Written(cntrl, s, i), s[i] as int;
    var d := if i + 1 < |s| && IsDigit(s[i + 1]) then Padded(n) else Decimal(n);
    assert w == "\\" + d;
    OccursParts(t, j, w, rest);
    OccursParts(t, j, "\\", d);
    CharAt(t, j, w, 0);
    CharAt(t, j, w, 1);
    CharAt(t, j + |w|, rest, 0);
    assert t[j + 1] == d[0] && IsDigit(d[0]);
    DecimalAt(t, j + 1, d, n);
  }

  lemma SelfEscape(t: string, j: nat)
    requires j < |t| && (t[j] == '\"' || t[j] == '\\' || t[j] == '\n')
    requires t[j] == '\n' && j + 1 < |t| ==> !IsNewline(t[j + 1])
    ensures EscapeAt(t, j) == Chars([t[j]], j + 1, if t[j] == '\n' then 1 else 0)
  {
  }

  lemma WrittenNext(cntrl: Controls, s: string, i: nat)
    requires i < |s| && IsBytes(s)
    ensures WrittenFrom(cntrl, s, i) == Written(cntrl, s, i) + WrittenFrom(cntrl, s, i + 1)
  {
  }

  /** One written character is read back. */
  lemma OneReadBack(cntrl: Controls, s: string, t: string, i: nat, j: nat, acc: string, lines: nat)
    requires i < |s| && IsBytes(s) && Occurs(t, j, WrittenFrom(cntrl, s, i))
    requires cntrl('\r') || (s[i] != '\r' && (s[i] == '\n' && i + 1 < |s| ==> s[i + 1] != '\r'))
    ensures Occurs(t, j + |Written(cntrl, s, i)|, WrittenFrom(cntrl, s, i + 1))
    ensures Decode(t, j, '\"', acc, lines) ==
            Decode(t, j + |Written(cntrl, s, i)|, '\"', acc + [s[i]], lines + if s[i] == '\n' then 1 else 0)
  {
    hide EscapeAt, Occurs, Decode, WrittenFrom;
    var w, rest := Written(cntrl, s, i), WrittenFrom(cntrl, s, i + 1);
    FirstWritten(cntrl, s, i + 1);
    if s[i] == '\n' { NoBareReturn(cntrl, s, i + 1); }
    WrittenNext(cntrl, s, i);
    OccursParts(t, j, w, rest);
    CharAt(t, j, w, 0);
    CharAt(t, j + |w|, rest, 0);
    if s[i] == '\"' || s[i] == '\\' || s[i] == '\n' {
      CharAt(t, j, w, 1);
      SelfEscape(t, j + 1);
      EscapeStep(t, j, '\"', acc, lines);
    } else if cntrl(s[i]) {
      ControlReadBack(cntrl, s, t, i, j, rest);
      EscapeStep(t, j, '\"', acc, lines);
    } else {
      PlainStep(t, j, '\"', acc, lines);
    }
  }

  /** Nothing that is written begins with a newline, carriage returns excepted that are no control characters. */
  lemma NoBareReturn(cntrl: Controls, s: string, i: nat)
    requires i <= |s| && IsBytes(s) && (i < |s| && s[i] == '\r' ==> cntrl('\r'))
    ensures WrittenFrom(cntrl, s, i) != "" && !IsNewline(WrittenFrom(cntrl, s, i)[0])
  {
  }

  function Newlines(s: string, i: nat): nat
    requires i <= |s|
    decreases |s| - i
  {
    if i == |s| then 0 else (if s[i] == '\n' then 1 else 0) + Newlines(s, i + 1)
  }

  lemma ReadEnd(cntrl: Controls, s: string, t: string, j: nat, acc: string, lines: nat)
    requires IsBytes(s) && Occurs(t, j, WrittenFrom(cntrl, s, |s|))
    ensures Decode(t, j, '\"', acc, lines) == Value(acc, j + 1, lines) && |WrittenFrom(cntrl, s, |s|)| == 1
  {
    CharAt(t, j, "\"", 0);
  }

  lemma {:induction false} ReadBack(cntrl: Controls, s: string, t: string, i: nat, j: nat, lines: nat)
    requires i <= |s| && IsBytes(s) && (cntrl('\r') || '\r' !in s) && Occurs(t, j, WrittenFrom(cntrl, s, i))
    ensures Decode(t, j, '\"', s[..i], lines) == Value(s, j + |WrittenFrom(cntrl, s, i)|, lines + Newlines(s, i))
    decreases |s| - i
  {
    hide Decode, Written, Occurs;
    if i == |s| {
      ReadEnd(cntrl, s, t, j, s[..i], lines);
      assert s[..i] == s;
    } else {
      OneReadBack(cntrl, s, t, i, j, s[..i], lines);
      assert s[..i] + [s[i]] == s[..i + 1];
      ReadBack(cntrl, s, t, i + 1, j + |Written(cntrl, s, i)|, lines + if s[i] == '\n' then 1 else 0);
    }
  }

  predicate HasReturn(s: string, i: nat)
    decreases |s| - i
  {
    i < |s| && (s[i] == '\r' || HasReturn(s, i + 1))
  }

  lemma {:induction false} ReturnIn(s: string, i: nat)
    requires i <= |s|
    ensures HasReturn(s, i) <==> '\r' in s[i..]
    decreases |s| - i
  {
    if i < |s| {
      ReturnIn(s, i + 1);
      assert s[i..] == [s[i]] + s[i + 1..];
    }
  }

  lemma PairText(t: string, j: nat, w: string, w': string, r: string)
    requires Occurs(t, j, w + (w' + r)) && |w| == 2 && |w'| == 1
    ensures j + 2 < |t| && t[j] == w[0] && t[j + 1] == w[1] && t[j + 2] == w'[0] && Occurs(t, j + 3, r)
  {
    hide Occurs;
    OccursParts(t, j, w, w' + r);
    OccursParts(t, j + 2, w', r);
    CharAt(t, j, w, 0);
    CharAt(t, j, w, 1);
    CharAt(t, j + 2, w', 0);
  }

  lemma PairEscape(t: string, j: nat)
    requires j + 1 < |t| && t[j] == '\n' && t[j + 1] == '\r'
    ensures EscapeAt(t, j) == Chars("\n", j + 2, 1)
  {
  }

  lemma PairWritten(cntrl: Controls, s: string, i: nat)
    requires i + 1 < |s| && IsBytes(s) && !cntrl('\r') && s[i] == '\n' && s[i + 1] == '\r'
    ensures WrittenFrom(cntrl, s, i) == ['\\', '\n'] + (['\r'] + WrittenFrom(cntrl, s, i + 2))
  {
    assert Written(cntrl, s, i) == ['\\', '\n'] && Written(cntrl, s, i + 1) == ['\r'];
    assert WrittenFrom(cntrl, s, i + 1) == ['\r'] + WrittenFrom(cntrl, s, i + 2);
  }

  /** A newline that is written before a bare carriage return is read together with it. */
  lemma PairRead(cntrl: Controls, s: string, t: string, i: nat, j: nat, acc: string, lines: nat)
    requires i + 1 < |s| && IsBytes(s) && !cntrl('\r') && s[i] == '\n' && s[i + 1] == '\r'
    requires Occurs(t, j, WrittenFrom(cntrl, s, i))
    ensures Occurs(t, j + 3, WrittenFrom(cntrl, s, i + 2))
    ensures Decode(t, j, '\"', acc, lines) == Decode(t, j + 3, '\"', acc + "\n", lines + 1)
  {
    hide EscapeAt, Occurs, Decode, Written, WrittenFrom;
    PairWritten(cntrl, s, i);
    PairText(t, j, ['\\', '\n'], ['\r'], WrittenFrom(cntrl, s, i + 2));
    PairEscape(t, j + 1);
    EscapeStep(t, j, '\"', acc, lines);
  }

  /** A bare carriage return ends the literal. */
  lemma ReturnFails(cntrl: Controls, s: string, t: string, i: nat, j: nat, acc: string, lines: nat)
    requires i < |s| && IsBytes(s) && !cntrl('\r') && s[i] == '\r' && Occurs(t, j, WrittenFrom(cntrl, s, i))
    ensures Decode(t, j, '\"', acc, lines) == Failure(UnfinishedAtNewline)
  {
    assert Written(cntrl, s, i) == "\r";
    OccursParts(t, j, "\r", WrittenFrom(cntrl, s, i + 1));
    CharAt(t, j, "\r", 0);
  }

  /** The result is no longer than what was written, and shorter if there was a carriage return. */
  predicate Shortens(s: string, i: nat, acc: string, r: Scan)
    requires i <= |s|
  {
    r.Value? ==> |r.s| <= |acc| + |s| - i && (HasReturn(s, i) ==> |r.s| < |acc| + |s| - i)
  }

  /** A carriage return that is not written as an escape ends the literal or gets lost. */
  lemma {:induction false} ReturnLost(cntrl: Controls, s: string, t: string, i: nat, j: nat, acc: string, lines: nat)
    requires i <= |s| && IsBytes(s) && !cntrl('\r') && Occurs(t, j, WrittenFrom(cntrl, s, i))
    ensures Shortens(s, i, acc, Decode(t, j, '\"', acc, lines))
    decreases |s| - i
  {
    if i == |s| {
      ReadEnd(cntrl, s, t, j, acc, lines);
    } else {
      hide Decode, Written, WrittenFrom, Occurs;
      if s[i] == '\r' {
        ReturnFails(cntrl, s, t, i, j, acc, lines);
      } else if s[i] == '\n' && i + 1 < |s| && s[i + 1] == '\r' {
        PairRead(cntrl, s, t, i, j, acc, lines);
        ReturnLost(cntrl, s, t, i + 2, j + 3, acc + "\n", lines + 1);
      } else {
        OneReadBack(cntrl, s, t, i, j, acc, lines);
        var n := |Written(cntrl, s, i)|;
        ReturnLost(cntrl, s, t, i + 1, j + n, acc + [s[i]], lines + if s[i] == '\n' then 1 else 0);
      }
    }
  }

  /**
   Whatever follows it, a quoted string is read back as it was, provided that a carriage return, if there is
   one, counts as a control character.
   */
  lemma QuotedReadsBack(cntrl: Controls, s: string, more: string)
    requires IsBytes(s)
    ensures var t, r := Quoted(cntrl, s) + more, Decode(Quoted(cntrl, s) + more, 1, '\"', "", 0);
      && (r.Value? && r.s == s <==> cntrl('\r') || '\r' !in s)
      && (cntrl('\r') || '\r' !in s ==> r == Value(s, |Quoted(cntrl, s)|, Newlines(s, 0)))
  {
    var q, t := Quoted(cntrl, s), Quoted(cntrl, s) + more;
    WrittenParts(cntrl, s, 0);
    var w := WrittenFrom(cntrl, s, 0);
    var x := WrittenTo(cntrl, s, |s|);
    assert q == ("\"" + x) + "\"" == "\"" + (x + "\"");
    assert WrittenTo(cntrl, s, 0) + w == w;
    assert t[1..1 + |w|] == w;
    assert s[..0] == "" && s[0..] == s;
    if cntrl('\r') || '\r' !in s {
      ReadBack(cntrl, s, t, 0, 1, 0);
    } else {
      ReturnLost(cntrl, s, t, 0, 1, "", 0);
      ReturnIn(s, 0);
    }
  }

  // ----- the lexer -----

  class LexState {
    const input: string
    var pos: nat
    var buff: string
    var linenumber: nat

    constructor (input: string)
      ensures this.input == input && pos == 0 && buff == "" && linenumber == 1
    {
      this.input := input;
      pos, buff, linenumber := 0, "", 1;
    }

    predicate IsAt(p: char -> bool)
      reads `pos
    {
      pos < |input| && p(input[pos])
    }

    method Next()
      modifies `pos
      ensures pos == old(pos) + 1
    {
      pos := pos + 1;
    }

    method Save(c: char)
      modifies `buff
      ensures buff == old(buff) + [c]
    {
      buff := buff + [c];
    }

    /** `save_and_next`; saving the end of the input leaves some character. */
    method SaveAndNext()
      modifies `buff, `pos
      ensures pos == old(pos) + 1 && |buff| == |old(buff)| + 1 && buff[..|old(buff)|] == old(buff)
      ensures old(pos) < |input| ==> buff == old(buff) + [input[old(pos)]]
    {
      Save(if pos < |input| then input[pos] else UCHAR_MAX as char);
      Next();
    }

    /** `luaZ_buffremove` */
    method BuffRemove(n: nat)
      requires n <= |buff|
      modifies `buff
      ensures buff == old(buff)[..|old(buff)| - n]
    {
      buff := buff[..|buff| - n];
    }

    /** `inclinenumber` */
    method IncLineNumber()
      requires pos < |input| && IsNewline(input[pos])
      modifies `pos, `linenumber
      ensures pos == AfterNewline(input, old(pos)) && linenumber == old(linenumber) + 1
    {
      var c := input[pos];
      Next();
      if IsAt(IsNewline) && input[pos] != c {
        Next();
      }
      linenumber := linenumber + 1;
    }

    /** `gethexa` */
    method GetHexa() returns (r: nat, ok: bool)
      modifies `pos, `buff
      ensures pos == old(pos) + 1 && |buff| == |old(buff)| + 1 && buff[..|old(buff)|] == old(buff)
      ensures ok <==> pos < |input| && IsHexDigit(input[pos])
      ensures ok ==> r == HexValue(input[pos])
    {
      SaveAndNext();
      if !IsAt(IsHexDigit) {
        return 0, false;
      }
      return HexValue(input[pos]), true;
    }

    /** `readhexaesc` */
    method ReadHexaEsc() returns (e: Escape)
      requires pos < |input| && input[pos] == 'x' && buff != ""
      modifies `pos, `buff
      ensures e == HexEscape(input, old(pos) + 1)
      ensures e.Chars? ==> pos + 1 == e.next && buff == old(buff)
    {
      ghost var b := buff;
      var r, ok := GetHexa();
      if !ok { return Illegal(HexDigitExpected); }
      var d;
      d, ok := GetHexa();
      if !ok { return Illegal(HexDigitExpected); }
      BuffRemove(2);
      assert buff == b;
      return Chars([(16 * r + d) as char], pos + 1, 0);
    }

    /** `readutf8esc` and `utf8esc`, up to what is to be saved. */
    method ReadUtf8Esc() returns (e: Escape)
      requires pos < |input| && input[pos] == 'u' && buff != ""
      modifies `pos, `buff
      ensures e == Utf8At(input, old(pos) + 1)
      ensures e.Chars? ==> pos == e.next && buff == old(buff)[..|old(buff)| - 1]
    {
      ghost var b := buff;
      var i := 4;
      SaveAndNext();
      if !IsAt(c => c == '{') { return Illegal(MissingBrace); }
      var r: nat, ok := GetHexa();
      if !ok { return Illegal(HexDigitExpected); }
      ghost var whole := Utf8Escape(input, pos + 1, r);
      SaveAndNext();
      while IsAt(IsHexDigit)
        invariant r < 0x8000_0000 && whole == Utf8Escape(input, pos, r)
        invariant 4 <= i && |buff| == |b| + i - 1 && buff[..|b|] == b
        decreases |input| - pos
      {
        i := i + 1;
        if r > 0x7FF_FFFF { return Illegal(Utf8TooLarge); }
        r := 16 * r + HexValue(input[pos]);
        SaveAndNext();
      }
      if !IsAt(c => c == '}') { return Illegal(MissingClosingBrace); }
      Next();
      BuffRemove(i);
      assert buff == b[..|b| - 1];
      var s := Utf8Esc(r);
      return Chars(s, pos, 0);
    }

    /** `luaO_utf8esc`: bytes are produced from the last to the first. */
    method Utf8Esc(code: nat) returns (s: string)
      requires code < 0x8000_0000
      ensures s == Utf8(code)
    {
      var x := code;
      if x < 0x80 {
        assert Continuations(code, 0) == "";
        s := [x as char];
      } else {
        hide Continuations, Continuation;
        var mfb, more := 0x3F, true;
        s := "";
        ghost var n := 0;
        NoContinuations(code);
        while more
          invariant 0 <= n <= 5 && mfb == Mask(n) && x == Shifted(code, n) && s == Continuations(code, n)
          invariant if more then n < ContinuationCount(code) else n == ContinuationCount(code)
          decreases 6 - n, more
        {
          ContinuationsMore(code, n);
          ShiftedMore(code, n);
          CountByMask(code, n + 1);
          s := [Continuation(x)] + s;
          x := x / 64;
          mfb := mfb / 2;
          n := n + 1;
          more := x > mfb;
        }
        FirstByMask(code, n);
        s := [(256 - 2 * (mfb + 1) + x) as char] + s;
      }
    }

    /** `readdecesc` */
    method ReadDecEsc() returns (e: Escape)
      requires pos < |input| && IsDigit(input[pos]) && buff != ""
      modifies `pos, `buff
      ensures e == DecimalEscape(input, old(pos), 3, 0)
      ensures e.Chars? ==> pos == e.next && buff == old(buff)
    {
      ghost var b, whole := buff, DecimalEscape(input, pos, 3, 0);
      var i, r := 0, 0;
      while i < 3 && IsAt(IsDigit)
        invariant 0 <= i <= 3 && 0 <= r && whole == DecimalEscape(input, pos, 3 - i, r)
        invariant |buff| == |b| + i && buff[..|b|] == b
      {
        r := 10 * r + (input[pos] as int - '0' as int);
        SaveAndNext();
        i := i + 1;
      }
      if r > UCHAR_MAX { return Illegal(DecimalTooLarge); }
      BuffRemove(i);
      return Chars([r as char], pos, 0);
    }

    /** What `\z` skips. */
    method SkipSpaces() returns (ghost lines: nat)
      modifies `pos, `linenumber
      ensures (pos, lines) == AfterSpaces(input, old(pos)) && linenumber == old(linenumber) + lines
    {
      lines := 0;
      ghost var whole := AfterSpaces(input, pos);
      while IsAt(IsSpace)
        invariant var r := AfterSpaces(input, pos); whole == (r.0, r.1 + lines)
        invariant linenumber == old(linenumber) + lines
        decreases |input| - pos
      {
        if IsAt(IsNewline) {
          IncLineNumber();
          lines := lines + 1;
        } else {
          Next();
        }
      }
    }

    /** `read_save` and `only_save`: the backslash gives way to a character. */
    method ReplaceBackslash(c: char)
      requires buff != ""
      modifies `buff
      ensures buff == old(buff)[..|old(buff)| - 1] + [c]
    {
      BuffRemove(1);
      Save(c);
    }

    /** The escape sequences of `read_string`, after the backslash. */
    method ReadEscape() returns (e: Escape)
      requires buff != ""
      modifies `pos, `buff, `linenumber
      ensures e == EscapeAt(input, old(pos))
      ensures e.Chars? ==> pos == e.next && linenumber == old(linenumber) + e.lines
      ensures e.Chars? ==> buff == old(buff)[..|old(buff)| - 1] + e.s
    {
      hide DecimalEscape, HexEscape, Utf8Escape, AfterSpaces, AfterNewline;
      if pos >= |input| { return Illegal(UnfinishedAtEnd); }
      var c := input[pos];
      if Simple(c) != "" {
        Next();
        ReplaceBackslash(Simple(c)[0]);
        return Chars(Simple(c), pos, 0);
      } else if c == 'x' {
        e := ReadHexaEsc();
        if e.Illegal? { return; }
        HexShape(input, old(pos) + 1);
        Next();
        ReplaceBackslash(e.s[0]);
      } else if c == 'u' {
        e := ReadUtf8Esc();
        if e.Illegal? { return; }
        Utf8Shape(input, old(pos) + 1);
        buff := buff + e.s;
      } else if IsNewline(c) {
        IncLineNumber();
        ReplaceBackslash('\n');
        return Chars("\n", pos, 1);
      } else if c == 'z' {
        BuffRemove(1);
        Next();
        var line := linenumber;
        ghost var lines := SkipSpaces();
        return Chars("", pos, linenumber - line);
      } else if IsDigit(c) {
        e := ReadDecEsc();
        if e.Illegal? { return; }
        DecimalShape(input, old(pos), 3, 0);
        ReplaceBackslash(e.s[0]);
      } else {
        return Illegal(InvalidEscape);
      }
    }

    /** `read_string` */
    method ReadString(del: char) returns (r: Scan)
      requires pos < |input| && input[pos] == del != '\\' && buff == ""
      modifies `pos, `buff, `linenumber
      ensures r == Decode(input, old(pos) + 1, del, "", 0)
      ensures r.Value? ==> pos == r.next && linenumber == old(linenumber) + r.lines
    {
      hide EscapeAt;
      var line := linenumber;
      SaveAndNext();
      ghost var whole := Decode(input, pos, del, "", 0);
      while !IsAt(c => c == del)
        invariant buff != "" && linenumber >= old(linenumber)
        invariant whole == Decode(input, pos, del, buff[1..], linenumber - old(linenumber))
        decreases |input| - pos
      {
        if pos >= |input| {
          return Failure(UnfinishedAtEnd);
        } else if IsNewline(input[pos]) {
          return Failure(UnfinishedAtNewline);
        } else if input[pos] == '\\' {
          ghost var b, j, n := buff, pos, linenumber - line;
          SaveAndNext();
          EscapeMoves(input, pos);
          var e := ReadEscape();
          if e.Illegal? { return Failure(e.err); }
          EscapeStep(input, j, del, b[1..], n);
          assert buff[1..] == b[1..] + e.s;
        } else {
          PlainStep(input, pos, del, buff[1..], linenumber - line);
          ghost var b, c := buff, input[pos];
          SaveAndNext();
          assert buff[1..] == b[1..] + [c];
        }
      }
      SaveAndNext();
      return Value(buff[1..|buff| - 1], pos, linenumber - line);
    }
  }

  // ----- shapes of escapes -----

  function Utf8At(t: string, i: nat): Escape {
    if i >= |t| || t[i] != '{' then Illegal(MissingBrace)
    else if i + 1 >= |t| || !IsHexDigit(t[i + 1]) then Illegal(HexDigitExpected)
    else Utf8Escape(t, i + 2, HexValue(t[i + 1]))
  }

  lemma HexShape(t: string, i: nat)
    ensures HexEscape(t, i).Chars? ==> |HexEscape(t, i).s| == 1 && HexEscape(t, i).lines == 0
  {
  }

  lemma {:induction false} DecimalShape(t: string, i: nat, n: nat, r: nat)
    ensures DecimalEscape(t, i, n, r).Chars? ==>
      |DecimalEscape(t, i, n, r).s| == 1 && DecimalEscape(t, i, n, r).lines == 0
    decreases n
  {
    if n > 0 && i < |t| && IsDigit(t[i]) { DecimalShape(t, i + 1, n - 1, 10 * r + (t[i] as int - '0' as int)); }
  }

  lemma {:induction false} Utf8LinesFrom(t: string, i: nat, r: nat)
    requires r < 0x8000_0000
    ensures Utf8Escape(t, i, r).Chars? ==> Utf8Escape(t, i, r).lines == 0
    decreases |t| - i
  {
    if i < |t| && IsHexDigit(t[i]) && r <= 0x7FF_FFFF { Utf8LinesFrom(t, i + 1, 16 * r + HexValue(t[i])); }
  }

  lemma Utf8Shape(t: string, i: nat)
    ensures Utf8At(t, i).Chars? ==> Utf8At(t, i).lines == 0
  {
    if i + 1 < |t| && IsHexDigit(t[i + 1]) { Utf8LinesFrom(t, i + 2, HexValue(t[i + 1])); }
  }

  // ----- UTF-8, byte by byte -----

  /** `0x3F >> n`: the largest number that fits in the first byte before `n` others. */
  function Mask(n: nat): nat { if n == 0 then 0x3F else Mask(n - 1) / 2 }

  function Shifted(x: nat, n: nat): nat { if n == 0 then x else Shifted(x / 64, n - 1) }

  lemma NoContinuations(x: nat)
    ensures Continuations(x, 0) == "" && Shifted(x, 0) == x
  {
  }

  lemma {:induction false} ShiftedMore(x: nat, n: nat)
    ensures Shifted(x, n + 1) == Shifted(x, n) / 64
    decreases n
  {
    if n > 0 { ShiftedMore(x / 64, n - 1); }
  }

  lemma {:induction false} ContinuationsMore(x: nat, n: nat)
    ensures Continuations(x, n + 1) == [Continuation(Shifted(x, n))] + Continuations(x, n)
    decreases n
  {
    if n > 0 {
      ContinuationsMore(x / 64, n - 1);
    } else {
      assert Continuations(x, 1) == Continuations(x / 64, 0) + [Continuation(x)];
    }
  }

  lemma ShiftedValues(x: nat)
    ensures Shifted(x, 1) == x / 0x40 && Shifted(x, 2) == x / 0x1000 && Shifted(x, 3) == x / 0x4_0000
    ensures Shifted(x, 4) == x / 0x100_0000 && Shifted(x, 5) == x / 0x4000_0000
    ensures Mask(0) == 63 && Mask(1) == 31 && Mask(2) == 15 && Mask(3) == 7 && Mask(4) == 3 && Mask(5) == 1
  {
    ShiftedMore(x, 1);
    ShiftedMore(x, 2);
    ShiftedMore(x, 3);
    ShiftedMore(x, 4);
    assert Shifted(x, 1) == Shifted(x / 64, 0);
  }

  /** The rest fits in the first byte exactly after the bytes that are needed. */
  lemma CountByMask(x: nat, n: nat)
    requires 0x80 <= x < 0x8000_0000 && 1 <= n <= ContinuationCount(x)
    ensures Shifted(x, n) <= Mask(n) <==> n == ContinuationCount(x)
  {
    ShiftedValues(x);
  }

  lemma FirstByMask(x: nat, n: nat)
    requires 0x80 <= x < 0x8000_0000 && n == ContinuationCount(x)
    ensures 0 <= 256 - 2 * (Mask(n) + 1) + Shifted(x, n) < 256
    ensures (256 - 2 * (Mask(n) + 1) + Shifted(x, n)) as char == FirstByte(x)
  {
    ShiftedValues(x);
  }

  // ----- writing and reading -----

  /** What `%q` has written, the lexer reads back; whatever follows is left. */
  method WriteAndRead(cntrl: Controls, s: string, more: string) returns (r: Scan)
    requires IsBytes(s)
    ensures r.Value? && r.s == s <==> cntrl('\r') || '\r' !in s
  {
    var text := AddQuoted(cntrl, s, "");
    assert "" + Quoted(cntrl, s) == Quoted(cntrl, s);
    var lex := new LexState(text + more);
    r := lex.ReadString('\"');
    QuotedReadsBack(cntrl, s, more);
  }
}
