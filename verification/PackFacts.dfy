/**
 What formats mean, letter by letter, and where the bytes of packed values are.
 */
module PackFacts {
  import opened PackFormat
  import opened Packing

  // ----- letters -----

  /**
   Letters without a number after them: integers with the sizes of C on a machine with 64 bits, capital letters for
   unsigned ones.
   */
  lemma IntegerLetters(fmt: string, p: nat, native: bool, set_: Settings)
    requires p < |fmt| && !IsDigit(At(fmt, p + 1))
    ensures var o := OptionAt(fmt, p, native, set_);
      && (fmt[p] in "bhiljBHILJT" ==>
          && o == Option(if 'a' <= fmt[p] <= 'z' then Kint else Kuint, o.size, p + 1, set_)
          && (fmt[p] in "bB" ==> o.size == 1) && (fmt[p] in "hH" ==> o.size == 2)
          && (fmt[p] in "iI" ==> o.size == 4) && (fmt[p] in "lLjJT" ==> o.size == 8))
  {
    assert fmt[p] in "iI" ==> Num(fmt, p + 1, SZCINT) == (4, p + 1);
  }

  lemma OtherLetters(fmt: string, p: nat, native: bool, set_: Settings)
    requires p < |fmt| && !IsDigit(At(fmt, p + 1))
    ensures var o := OptionAt(fmt, p, native, set_);
      match fmt[p]
      case 'f' => o == Option(Kfloat, 4, p + 1, set_)
      case 'd' => o == Option(Kdouble, 8, p + 1, set_)
      case 'n' => o == Option(Knumber, 8, p + 1, set_)
      case 's' => o == Option(Kstring, 8, p + 1, set_)
      case 'z' => o == Option(Kzstr, 0, p + 1, set_)
      case 'x' => o == Option(Kpadding, 1, p + 1, set_)
      case 'X' => o == Option(Kpaddalign, 0, p + 1, set_)
      case 'c' => o == NoOption(MissingSize)
      case _ => true
  {
  }

  /** What letters set: the order of bytes, that of the machine, and the largest alignment. */
  lemma SettingLetters(fmt: string, p: nat, native: bool, set_: Settings)
    requires p < |fmt| && !IsDigit(At(fmt, p + 1)) && fmt[p] in "<>=! "
    ensures var o := OptionAt(fmt, p, native, set_);
      && o == Option(Knop, 0, p + 1, o.set_)
      && o.set_.little == (if fmt[p] == '<' then true else if fmt[p] == '>' then false
                           else if fmt[p] == '=' then native else set_.little)
      && o.set_.maxalign == (if fmt[p] == '!' then 8 else set_.maxalign)
  {
  }

  /** A number after a letter is a size, from 1 to 16 for integers and alignments; only `c` needs one. */
  lemma Numbers(fmt: string, p: nat, native: bool, set_: Settings, d: nat, e: nat)
    requires d <= 9 && e <= 9 && p + 3 <= |fmt| && !IsDigit(At(fmt, p + 3))
    requires fmt[p + 1] as int == '0' as int + d && fmt[p + 2] as int == '0' as int + e
    ensures var n, o := 10 * d + e, OptionAt(fmt, p, native, set_);
      && (fmt[p] in "iIs!" && !(1 <= n <= 16) ==> o == NoOption(SizeOutOfLimits))
      && (fmt[p] == 'c' ==> o == Option(Kchar, n, p + 3, set_))
      && (1 <= n <= 16 ==>
          && (fmt[p] == 'i' ==> o == Option(Kint, n, p + 3, set_))
          && (fmt[p] == 'I' ==> o == Option(Kuint, n, p + 3, set_))
          && (fmt[p] == 's' ==> o == Option(Kstring, n, p + 3, set_))
          && (fmt[p] == '!' ==> o == Option(Knop, 0, p + 3, Settings(set_.little, n))))
  {
    assert NumFrom(fmt, p + 3, 10 * d + e) == (10 * d + e, p + 3);
    assert NumFrom(fmt, p + 2, d) == (10 * d + e, p + 3);
    assert NumFrom(fmt, p + 1, 0) == (10 * d + e, p + 3);
  }

  // ----- bytes -----

  /** The byte number `i` of an integer in two's complement of any size, from the lowest on. */
  function ByteOf(n: int, i: nat): int
    decreases i
  {
    if i == 0 then n % 256 else ByteOf(n / 256, i - 1)
  }

  /** Integers have their lowest byte first after `<` and last after `>`; negative ones are in two's complement. */
  lemma IntegerBytes(pf: Platform, k: KOption, size: nat, little: bool, args: seq<Value>, a: nat, i: nat)
    requires (k.Kint? || k.Kuint?) && i < size
    requires PieceOf(pf, k, size, little, args, a).Piece?
    ensures a < |args| && pf.toInteger(args[a]).Some?
    ensures var x, n := PieceOf(pf, k, size, little, args, a), pf.toInteger(args[a]).value;
      && x.used == 1 && |x.bytes| == size
      && x.bytes[if little then i else size - 1 - i] as int == ByteOf(if k.Kuint? && n < 0 then n + TWO64 else n, i)
  {
    hide IntDigits, Digits, ByteOf;
    var n := pf.toInteger(args[a]).value;
    DigitBytes(n, size, k.Kint? && n < 0, i);
  }

  lemma DigitBytes(n: Integer, size: nat, neg: bool, i: nat)
    requires i < size && (neg ==> n < 0)
    ensures IntDigits(Unsigned(n), size, neg)[i] as int == ByteOf(if !neg && n < 0 then n + TWO64 else n, i)
  {
    PowersBound(SZINT);
    if n >= 0 || !neg {
      DigitAt(Unsigned(n), size, i);
    } else if i < SZINT {
      DigitAt(Unsigned(n), if size > SZINT then SZINT else size, i);
      WrapByte(n, SZINT, i);
    } else {
      MoreBytes(SZINT, i);
      SignByte(n, i);
    }
  }

  lemma {:induction false} DigitAt(u: nat, size: nat, i: nat)
    requires i < size
    ensures Digits(u, size)[i] as int == ByteOf(u, i)
    decreases i
  {
    if i > 0 { DigitAt(u / 256, size - 1, i - 1); }
  }

  lemma {:induction false} WrapByte(n: int, size: nat, i: nat)
    requires i < size
    ensures ByteOf(n + Pow256(size), i) == ByteOf(n, i)
    decreases i
  {
    if i > 0 { WrapByte(n / 256, size - 1, i - 1); }
  }

  /** Beyond the bytes of a negative integer there is only its sign. */
  lemma {:induction false} SignByte(n: int, i: nat)
    requires 0 - Pow256(i) <= n < 0
    ensures ByteOf(n, i) == 255
    decreases i
  {
    if i > 0 { SignByte(n / 256, i - 1); }
  }

  lemma {:induction false} MoreBytes(i: nat, j: nat)
    requires i <= j
    ensures Pow256(i) <= Pow256(j)
    decreases j
  {
    if i < j { MoreBytes(i, j - 1); }
  }

  /** Bytes are read as an integer if and only if they are what is written for it. */
  lemma ReadJustWritten(s: Bytes, signed: bool, n: Integer)
    requires 1 <= |s| <= MAXINTSIZE
    ensures IntOf(s, signed) == Some(n) <==>
            Fits(n, |s|, signed) && s == IntDigits(Unsigned(n), |s|, signed && n < 0)
  {
    if Fits(n, |s|, signed) { IntRoundTrip(n, |s|, signed); }
    if IntOf(s, signed) == Some(n) {
      if |s| < SZINT { ShortIsWritten(s, signed, n); } else { LongIsWritten(s, signed, n); }
    }
  }

  lemma {:induction false} NumberIsWritten(s: Bytes)
    ensures Digits(Number(s), |s|) == s
    decreases |s|
  {
    if s != [] { NumberIsWritten(s[1..]); }
  }

  lemma ShortIsWritten(s: Bytes, signed: bool, n: Integer)
    requires 1 <= |s| < SZINT && IntOf(s, signed) == Some(n)
    ensures Fits(n, |s|, signed) && s == IntDigits(Unsigned(n), |s|, signed && n < 0)
  {
    hide Digits, Number;
    NumberIsWritten(s);
    NumberBound(s);
    PowersBound(|s|);
    if n < 0 {
      var k := Quotient(|s|);
      DigitsModulo(Number(s), Unsigned(n), k, |s|);
    }
  }

  lemma LongIsWritten(s: Bytes, signed: bool, n: Integer)
    requires SZINT <= |s| <= MAXINTSIZE && IntOf(s, signed) == Some(n)
    ensures Fits(n, |s|, signed) && s == IntDigits(Unsigned(n), |s|, signed && n < 0)
  {
    hide Digits, Number, Fill;
    var low, neg := s[..SZINT], signed && n < 0;
    NumberIsWritten(low);
    NumberBound(low);
    PowersBound(SZINT);
    DigitsZero(Unsigned(n), |s|, SZINT);
    assert Unsigned(n) == Number(low);
    assert s[SZINT..] == Fill(|s| - SZINT, if neg then 255 else 0);
    assert s == low + s[SZINT..];
  }

  /** What does not fit: integers below or above the range of their bytes, and longer texts. */
  lemma WhatDoesNotFit(pf: Platform, size: nat, little: bool, args: seq<Value>, a: nat)
    requires a < |args| && 1 <= size <= MAXINTSIZE
    ensures var n := pf.toInteger(args[a]);
      n.Some? ==>
        && (PieceOf(pf, Kint, size, little, args, a) == NoPiece(IntegerOverflow) <==>
            size < 8 && (n.value < 0 - 128 * Pow256(size - 1) || n.value >= 128 * Pow256(size - 1)))
        && (PieceOf(pf, Kuint, size, little, args, a) == NoPiece(UnsignedOverflow) <==>
            size < 8 && (n.value < 0 || n.value >= 256 * Pow256(size - 1)))
    ensures var t := pf.toText(args[a]);
      t.Some? ==>
        && (PieceOf(pf, Kstring, size, little, args, a) == NoPiece(LengthDoesNotFit) <==>
            size < 8 && |t.value| >= 256 * Pow256(size - 1))
        && (PieceOf(pf, Kchar, size, little, args, a) == NoPiece(StringTooLong) <==> |t.value| > size)
        && (PieceOf(pf, Kzstr, size, little, args, a) == NoPiece(StringContainsZeros) <==> 0 in t.value)
  {
  }

  /** Floats have the bytes that they have in memory, in the order of the machine or the other way round. */
  lemma FloatBytes(pf: Platform, k: KOption, size: nat, little: bool, args: seq<Value>, a: nat, i: nat)
    requires (k.Kfloat? || k.Knumber? || k.Kdouble?) && PieceOf(pf, k, size, little, args, a).Piece?
    ensures a < |args| && pf.toNumber(args[a]).Some?
    ensures var x := PieceOf(pf, k, size, little, args, a);
      var raw := if k.Kfloat? then pf.narrow(pf.toNumber(args[a]).value) else pf.toNumber(args[a]).value;
      && |x.bytes| == |raw|
      && (i < |raw| ==> x.bytes[if little == pf.little then i else |raw| - 1 - i] == raw[i])
  {
  }

  /** Texts: filled up with zeros, with a zero after them, or with their length before them. */
  lemma TextBytes(pf: Platform, k: KOption, size: nat, little: bool, args: seq<Value>, a: nat)
    requires (k.Kchar? || k.Kzstr? || k.Kstring?) && PieceOf(pf, k, size, little, args, a).Piece?
    ensures a < |args| && pf.toText(args[a]).Some?
    ensures var x, t := PieceOf(pf, k, size, little, args, a), pf.toText(args[a]).value;
      && (k.Kchar? ==> |x.bytes| == size && t <= x.bytes && forall i :: |t| <= i < size ==> x.bytes[i] == 0)
      && (k.Kzstr? ==> x.bytes == t + [0] && 0 !in t)
      && (k.Kstring? ==>
          && |x.bytes| == size + |t| && x.bytes[size..] == t
          && forall i :: 0 <= i < size ==> x.bytes[if little then i else size - 1 - i] as int == ByteOf(|t|, i))
  {
    hide Digits, ByteOf;
    if k.Kstring? {
      var t := pf.toText(args[a]).value;
      var x := PieceOf(pf, k, size, little, args, a);
      forall i | 0 <= i < size
        ensures x.bytes[if little then i else size - 1 - i] as int == ByteOf(|t|, i)
      {
        DigitAt(|t|, size, i);
      }
    }
  }

  /** Padding before an aligned value is of zeros. */
  lemma PaddingIsZero(pf: Platform, fmt: string, p: nat, set_: Settings, args: seq<Value>, a: nat, out: Bytes,
                      values: seq<Value>)
    requires p < |fmt| && fmt[p] != '\0'
    ensures var r, d := PackFrom(pf, fmt, p, set_, args, a, out, values), DetailsAt(fmt, p, pf.little, set_, |out|);
      r.Packed? ==>
        && d.Details? && |out| + d.ntoalign <= |r.bytes| && out <= r.bytes
        && forall i :: |out| <= i < |out| + d.ntoalign ==> r.bytes[i] == 0
  {
    hide DetailsAt, PieceOf;
    var r, d := PackFrom(pf, fmt, p, set_, args, a, out, values), DetailsAt(fmt, p, pf.little, set_, |out|);
    if r.Packed? {
      var x := PieceOf(pf, d.k, d.size, d.set_.little, args, a);
      var out' := out + Fill(d.ntoalign, 0) + x.bytes;
      PackExtends(pf, fmt, d.next, d.set_, args, a + x.used, out', values + x.back);
      assert out <= out' && forall i :: |out| <= i < |out| + d.ntoalign ==> out'[i] == 0;
    }
  }

  /** An integer alone, after `<` or after `>`. */
  lemma OneInteger(pf: Platform, arg: Value, little: bool, letter: char)
    requires letter in "bhilj" && pf.toInteger(arg).Some?
    ensures var n := pf.toInteger(arg).value;
      var size := if letter == 'b' then 1 else if letter == 'h' then 2 else if letter == 'i' then 4 else 8;
      var r := PackFrom(pf, [if little then '<' else '>', letter], 0, Settings(pf.little, 1), [arg], 0, [], []);
      && (r == PackError(IntegerOverflow) <==> size < 8 && !(0 - Pow256(size) <= 2 * n < Pow256(size)))
      && (r != PackError(IntegerOverflow) ==>
          && r.Packed? && |r.bytes| == size && r.values == [Int(n)]
          && forall i :: 0 <= i < size ==> r.bytes[if little then i else size - 1 - i] as int == ByteOf(n, i))
  {
    hide PackFrom, ByteOf, IntDigits, Digits, Ordered, Pow256;
    var size := if letter == 'b' then 1 else if letter == 'h' then 2 else if letter == 'i' then 4 else 8;
    OneItem(pf, [if little then '<' else '>', letter], arg);
    var x := PieceOf(pf, Kint, size, little, [arg], 0);
    if x.Piece? {
      forall i: nat | i < size
        ensures x.bytes[if little then i else size - 1 - i] as int == ByteOf(pf.toInteger(arg).value, i)
      {
        IntegerBytes(pf, Kint, size, little, [arg], 0, i);
      }
    }
  }

  lemma OneItem(pf: Platform, fmt: string, arg: Value)
    requires |fmt| == 2 && fmt[0] in "<>" && fmt[1] in "bhilj"
    ensures var size := if fmt[1] == 'b' then 1 else if fmt[1] == 'h' then 2 else if fmt[1] == 'i' then 4 else 8;
      PackFrom(pf, fmt, 0, Settings(pf.little, 1), [arg], 0, [], []) ==
      match PieceOf(pf, Kint, size, fmt[0] == '<', [arg], 0)
      case NoPiece(err) => PackError(err)
      case Piece(bytes, _, back) => Packed(bytes, back)
  {
    hide OptionAt, DetailsAt, IntDigits, Ordered, Fits;
    var s := Settings(fmt[0] == '<', 1);
    OrderOnly(fmt, pf.little, Settings(pf.little, 1));
    IntegerOnly(fmt, 1, pf.little, s);
    var d := DetailsAt(fmt, 1, pf.little, s, 0);
    assert PackFrom(pf, fmt, 0, Settings(pf.little, 1), [arg], 0, [], []) == PackFrom(pf, fmt, 1, s, [arg], 0, [], []);
    var x := PieceOf(pf, Kint, d.size, fmt[0] == '<', [arg], 0);
    if x.Piece? {
      assert [] + Fill(0, 0) + x.bytes == x.bytes && [] + x.back == x.back;
      assert PackFrom(pf, fmt, 1, s, [arg], 0, [], []) == PackFrom(pf, fmt, 2, s, [arg], 1, x.bytes, x.back);
    }
  }

  lemma OrderOnly(fmt: string, native: bool, set_: Settings)
    requires |fmt| == 2 && fmt[0] in "<>" && !IsDigit(fmt[1])
    ensures DetailsAt(fmt, 0, native, set_, 0) == Details(Knop, 0, 0, 1, set_.(little := fmt[0] == '<'))
  {
    SettingLetters(fmt, 0, native, set_);
  }

  lemma IntegerOnly(fmt: string, p: nat, native: bool, set_: Settings)
    requires p + 1 == |fmt| && fmt[p] in "bhilj" && set_.maxalign == 1
    ensures var size := if fmt[p] == 'b' then 1 else if fmt[p] == 'h' then 2 else if fmt[p] == 'i' then 4 else 8;
      DetailsAt(fmt, p, native, set_, 0) == Details(Kint, size, 0, p + 1, set_)
  {
    IntegerLetters(fmt, p, native, set_);
  }
}
