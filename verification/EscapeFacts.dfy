/**
 What the escape sequences of string literals stand for, one by one (section 3.1 of the Lua 5.4 Reference Manual).
 */
module EscapeFacts {
  import opened QuotedStrings

  /** The code that a letter after a backslash stands for; other letters stand for none. */
  function Code(c: char): int {
    match c
    case 'a' => 7
    case 'b' => 8
    case 't' => 9
    case 'n' => 10
    case 'v' => 11
    case 'f' => 12
    case 'r' => 13
    case '\"' => 34
    case '\'' => 39
    case '\\' => 92
    case _ => -1
  }

  lemma Codes(t: string, i: nat)
    requires i < |t|
    ensures Code(t[i]) >= 0 ==> EscapeAt(t, i) == Chars([Code(t[i]) as char], i + 1, 0)
    ensures Code(t[i]) < 0 && t[i] !in "xz\r\nu" && !('0' <= t[i] <= '9') ==> EscapeAt(t, i) == Illegal(InvalidEscape)
  {
  }

  /** `\x41` has two digits, with letters of either size. */
  lemma HexCode(t: string, i: nat, h: nat, l: nat)
    requires i + 2 < |t| && t[i] == 'x' && h < 16 && l < 16
    requires t[i + 1] == "0123456789abcdef"[h] || t[i + 1] == "0123456789ABCDEF"[h]
    requires t[i + 2] == "0123456789abcdef"[l] || t[i + 2] == "0123456789ABCDEF"[l]
    ensures EscapeAt(t, i) == Chars([(16 * h + l) as char], i + 3, 0)
  {
    HexDigit(t[i + 1], h);
    HexDigit(t[i + 2], l);
  }

  lemma HexDigit(c: char, h: nat)
    requires h < 16 && (c == "0123456789abcdef"[h] || c == "0123456789ABCDEF"[h])
    ensures IsHexDigit(c) && HexValue(c) == h
  {
  }

  /** `\ddd` has three digits, or fewer if no digit follows, and is not above 255. */
  lemma DecimalCode(t: string, i: nat, d: nat, e: nat, f: nat)
    requires d <= 9 && e <= 9 && f <= 9 && i < |t| && t[i] as int == 48 + d
    ensures i + 1 == |t| || !IsDigit(t[i + 1]) ==> EscapeAt(t, i) == Chars([d as char], i + 1, 0)
    ensures i + 1 < |t| && t[i + 1] as int == 48 + e && (i + 2 == |t| || !IsDigit(t[i + 2])) ==>
      EscapeAt(t, i) == Chars([(10 * d + e) as char], i + 2, 0)
    ensures i + 2 < |t| && t[i + 1] as int == 48 + e && t[i + 2] as int == 48 + f ==>
      var n := 100 * d + 10 * e + f;
      EscapeAt(t, i) == if n > 255 then Illegal(DecimalTooLarge) else Chars([n as char], i + 3, 0)
  {
    assert EscapeAt(t, i) == DecimalEscape(t, i, 3, 0) == DecimalEscape(t, i + 1, 2, d);
    if i + 1 < |t| && t[i + 1] as int == 48 + e {
      assert DecimalEscape(t, i + 1, 2, d) == DecimalEscape(t, i + 2, 1, 10 * d + e);
      if i + 2 < |t| && t[i + 2] as int == 48 + f {
        assert DecimalEscape(t, i + 2, 1, 10 * d + e) == DecimalEscape(t, i + 3, 0, 10 * (10 * d + e) + f);
      }
    }
  }

  /** A backslash before the end of a line stands for a newline; the end of a line may be of two characters. */
  lemma LineBreak(t: string, i: nat)
    requires i < |t| && t[i] in "\r\n"
    ensures EscapeAt(t, i) ==
      Chars("\n", if i + 1 < |t| && t[i + 1] in "\r\n" && t[i + 1] != t[i] then i + 2 else i + 1, 1)
  {
  }

  /** `\z` skips all the white space that follows, and nothing else. */
  lemma {:induction false} WhiteSpace(t: string, i: nat)
    requires i <= |t|
    ensures var (j, lines) := AfterSpaces(t, i);
      && i <= j <= |t|
      && (forall k :: i <= k < j ==> t[k] in " \t\n\r" || t[k] as int in {11, 12})
      && (j < |t| ==> t[j] !in " \t\n\r" && t[j] as int !in {11, 12})
    decreases |t| - i
  {
    if i < |t| && IsSpace(t[i]) {
      WhiteSpace(t, i + 1);
      WhiteSpace(t, AfterNewline(t, i));
    }
  }

  // ----- UTF-8 -----

  /** The six bits of each following byte are added to the bits of the first. */
  function Bits(v: nat, s: string): (x: int)
    decreases |s|
  {
    if s == "" then v else Bits(64 * v + s[0] as int % 64, s[1..])
  }

  /** What the first of `n` bytes begins with, and how much room is left in it. */
  function Mark(n: nat): (r: (nat, nat))
    requires 1 <= n <= 6
  {
    match n
    case 1 => (0, 128)
    case 2 => (192, 32)
    case 3 => (224, 16)
    case 4 => (240, 8)
    case 5 => (248, 4)
    case _ => (252, 2)
  }

  /** The bytes of a code mark how many there are, their bits are the code, and no fewer bytes would do. */
  lemma Utf8Decodes(x: nat)
    requires x < 0x8000_0000
    ensures var s := Utf8(x);
      && 1 <= |s| <= 6
      && [0, 0x80, 0x800, 0x1_0000, 0x20_0000, 0x400_0000][|s| - 1] <= x
      && var (mark, room) := Mark(|s|);
         && mark <= s[0] as int < mark + room
         && Bits(s[0] as int - mark, s[1..]) == x
         && forall i :: 1 <= i < |s| ==> 128 <= s[i] as int < 192
  {
    var n := ContinuationCount(x);
    var s, rest := Utf8(x), Continuations(x, n);
    assert s[1..] == rest;
    ContinuationBytes(x, n);
    FirstMarks(x);
    BitsOf(x, n);
    hide Continuations, FirstByte;
  }

  lemma FirstMarks(x: nat)
    requires x < 0x8000_0000
    ensures var n := ContinuationCount(x);
      && [0, 0x80, 0x800, 0x1_0000, 0x20_0000, 0x400_0000][n] <= x
      && var (mark, room) := Mark(n + 1);
         mark <= FirstByte(x) as int < mark + room && Shifted(x, n) == FirstByte(x) as int - mark
  {
    ShiftedValues(x);
  }

  lemma {:induction false} ContinuationBytes(x: nat, n: nat)
    ensures |Continuations(x, n)| == n && forall c :: c in Continuations(x, n) ==> 128 <= c as int < 192
    decreases n
  {
    if n > 0 { ContinuationBytes(x / 64, n - 1); }
  }

  lemma {:induction false} BitsOf(x: nat, n: nat)
    ensures Bits(Shifted(x, n), Continuations(x, n)) == x
    decreases n
  {
    if n > 0 {
      BitsOf(x / 64, n - 1);
      BitsEnd(Shifted(x / 64, n - 1), Continuations(x / 64, n - 1), Continuation(x));
    }
  }

  lemma {:induction false} BitsEnd(v: nat, s: string, c: char)
    ensures Bits(v, s + [c]) == 64 * Bits(v, s) + c as int % 64
    decreases |s|
  {
    if s == "" {
      assert s + [c] == [c] && [c][1..] == "";
    } else {
      assert (s + [c])[1..] == s[1..] + [c];
      BitsEnd(64 * v + s[0] as int % 64, s[1..], c);
    }
  }

  /** The number that digits stand for. */
  function HexNumber(t: string, i: nat, j: nat, r: nat): nat
    requires i <= j <= |t| && forall k :: i <= k < j ==> IsHexDigit(t[k])
    decreases j - i
  {
    if i == j then r else HexNumber(t, i + 1, j, 16 * r + HexValue(t[i]))
  }

  lemma {:induction false} HexGrows(t: string, i: nat, j: nat, r: nat)
    requires i <= j <= |t| && forall k :: i <= k < j ==> IsHexDigit(t[k])
    ensures HexNumber(t, i, j, r) >= r
    decreases j - i
  {
    if i < j { HexGrows(t, i + 1, j, 16 * r + HexValue(t[i])); }
  }

  /** `\u{...}` takes any number of digits; the code must be below 2^31. */
  lemma {:induction false} Utf8Number(t: string, i: nat, j: nat, r: nat)
    requires i <= j < |t| && t[j] == '}' && r < 0x8000_0000 && forall k :: i <= k < j ==> IsHexDigit(t[k])
    ensures var x := HexNumber(t, i, j, r);
      Utf8Escape(t, i, r) == if x < 0x8000_0000 then Chars(Utf8(x), j + 1, 0) else Illegal(Utf8TooLarge)
    decreases j - i
  {
    if i < j {
      var r' := 16 * r + HexValue(t[i]);
      HexGrows(t, i + 1, j, r');
      if r' < 0x8000_0000 { Utf8Number(t, i + 1, j, r'); }
    }
  }

  lemma Utf8Code(t: string, i: nat, j: nat)
    requires i + 2 < j < |t| && t[i] == 'u' && t[i + 1] == '{' && t[j] == '}'
    requires forall k :: i + 2 <= k < j ==> IsHexDigit(t[k])
    ensures var x := HexNumber(t, i + 2, j, 0);
      EscapeAt(t, i) == if x < 0x8000_0000 then Chars(Utf8(x), j + 1, 0) else Illegal(Utf8TooLarge)
  {
    Utf8Number(t, i + 3, j, HexValue(t[i + 2]));
  }

  // ----- reading them -----

  /** A literal of one escape sequence is read as its code. */
  method ReadOne(c: char, del: char) returns (r: Scan)
    requires Code(c) >= 0 && del in "\"\'"
    ensures r == Value([Code(c) as char], 4, 0)
  {
    var t := [del, '\\', c, del];
    var lex := new LexState(t);
    Codes(t, 2);
    EscapeStep(t, 1, del, "", 0);
    r := lex.ReadString(del);
  }
}
