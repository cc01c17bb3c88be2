/**
 `string.pack` and `string.unpack` (lstrlib.c): binary data by a format, and back.
 */
module Packing {
  import opened PackFormat

  newtype Byte = b: int | 0 <= b < 256

  type Bytes = seq<Byte>

  const TWO63 := 0x8000_0000_0000_0000
  const TWO64 := 0x1_0000_0000_0000_0000

  type Integer = i: int | -0x8000_0000_0000_0000 <= i < 0x8000_0000_0000_0000

  /** A float is the bytes it has in memory. */
  datatype Value = Int(i: Integer) | Float(raw: Bytes) | Str(s: Bytes)

  datatype Maybe<T> = None | Some(value: T)

  /** The order of bytes of the machine, and conversions that are not part of this model. */
  datatype Platform = Platform(
    little: bool,
    toInteger: Value -> Maybe<Integer>,
    toNumber: Value -> Maybe<Bytes>,
    toText: Value -> Maybe<Bytes>,
    narrow: Bytes -> Bytes,
    widen: Bytes -> Bytes)

  /** Floats have their sizes, and strings fit into memory. */
  ghost predicate Sane(pf: Platform) {
    && (forall v :: pf.toNumber(v).Some? ==> |pf.toNumber(v).value| == SZNUMBER)
    && (forall v :: pf.toText(v).Some? ==> |pf.toText(v).value| < TWO63)
    && (forall b :: |b| == SZNUMBER ==> |pf.narrow(b)| == SZFLOAT)
    && (forall b :: |b| == SZFLOAT ==> |pf.widen(b)| == SZNUMBER)
  }

  // ----- integers in bytes -----

  function Pow256(n: nat): (r: nat)
    ensures r > 0
  {
    if n == 0 then 1 else 256 * Pow256(n - 1)
  }

  function Unsigned(i: Integer): nat { if i < 0 then i + TWO64 else i }

  function Signed(u: nat): Integer
    requires u < TWO64
  {
    if u < TWO63 then u else u - TWO64
  }

  /** The bytes of a number, from the lowest on. */
  function Digits(u: nat, size: nat): (s: Bytes)
    ensures |s| == size
    decreases size
  {
    if size == 0 then [] else [(u % 256) as Byte] + Digits(u / 256, size - 1)
  }

  function Number(s: Bytes): (u: nat)
    decreases |s|
  {
    if s == [] then 0 else s[0] as int + 256 * Number(s[1..])
  }

  function Fill(n: nat, b: Byte): (s: Bytes)
    ensures |s| == n && forall i :: 0 <= i < n ==> s[i] == b
  {
    seq(n, _ => b)
  }

  function Reversed(s: Bytes): (r: Bytes)
    ensures |r| == |s| && forall i :: 0 <= i < |s| ==> r[i] == s[|s| - 1 - i]
  {
    seq(|s|, i requires 0 <= i < |s| => s[|s| - 1 - i])
  }

  /** Bytes as they are, or the other way round. */
  function Ordered(s: Bytes, little: bool): (r: Bytes)
    ensures |r| == |s|
  {
    if little then s else Reversed(s)
  }

  lemma OrderedTwice(s: Bytes, little: bool)
    ensures Ordered(Ordered(s, little), little) == s
  {
    if !little { assert forall i :: 0 <= i < |s| ==> Reversed(Reversed(s))[i] == s[i]; }
  }

  /** What is beyond the bytes of an integer has its sign. */
  function IntDigits(u: nat, size: nat, neg: bool): (s: Bytes)
    ensures |s| == size
  {
    if neg && size > SZINT then Digits(u, SZINT) + Fill(size - SZINT, 255) else Digits(u, size)
  }

  /** The value of bytes, from the lowest on; none if it is too large for an integer. */
  function IntOf(s: Bytes, signed: bool): Maybe<Integer> {
    if |s| < SZINT then
      NumberBound(s);
      var u := Number(s);
      Some(if signed && |s| > 0 && 2 * u >= Pow256(|s|) then u - Pow256(|s|) else u)
    else
      NumberBound(s[..SZINT]);
      var u := Number(s[..SZINT]);
      var sign: Byte := if !signed || Signed(u) >= 0 then 0 else 255;
      if forall i :: SZINT <= i < |s| ==> s[i] == sign then Some(Signed(u)) else None
  }

  lemma {:induction false} NumberBound(s: Bytes)
    ensures Number(s) < Pow256(|s|)
    ensures |s| <= SZINT ==> Pow256(|s|) <= TWO64
    ensures |s| < SZINT ==> Pow256(|s|) <= TWO63
  {
    if s != [] { NumberBound(s[1..]); }
    PowersBound(|s|);
  }

  lemma PowersBound(n: nat)
    ensures n <= 8 ==> Pow256(n) <= TWO64
    ensures n < 8 ==> Pow256(n) <= TWO63
    ensures Pow256(8) == TWO64
  {
    assert Pow256(2) == 0x1_0000;
    assert Pow256(4) == 0x1_0000_0000;
    assert Pow256(6) == 0x1_0000_0000_0000;
    assert Pow256(7) == 0x100_0000_0000_0000;
    assert Pow256(1) == 256 && Pow256(3) == 0x100_0000 && Pow256(5) == 0x100_0000_0000;
  }

  lemma {:induction false} NumberOfDigits(u: nat, size: nat)
    requires u < Pow256(size)
    ensures Number(Digits(u, size)) == u
  {
    if size > 0 {
      var s := Digits(u, size);
      assert u / 256 < Pow256(size - 1);
      NumberOfDigits(u / 256, size - 1);
      assert s[1..] == Digits(u / 256, size - 1);
    }
  }

  /** Digits beyond those that are needed are zero. */
  lemma {:induction false} DigitsZero(u: nat, size: nat, n: nat)
    requires u < Pow256(n) && n <= size
    ensures Digits(u, size) == Digits(u, n) + Fill(size - n, 0)
    decreases size
  {
    if n == 0 {
      if size > 0 { DigitsZero(0, size - 1, 0); }
    } else {
      assert u / 256 < Pow256(n - 1);
      DigitsZero(u / 256, size - 1, n - 1);
    }
  }

  /** Whether an integer can be written with so many bytes. */
  predicate Fits(n: Integer, size: nat, signed: bool) {
    size < SZINT ==>
      if signed then 0 - Pow256(size) <= 2 * n < Pow256(size) else 0 <= n < Pow256(size)
  }

  /** The digits do not depend on multiples of their range. */
  lemma {:induction false} DigitsModulo(u: nat, v: nat, k: nat, size: nat)
    requires v == u + k * Pow256(size)
    ensures Digits(v, size) == Digits(u, size)
    decreases size
  {
    if size > 0 {
      assert v == u + 256 * (k * Pow256(size - 1));
      DigitsModulo(u / 256, v / 256, k, size - 1);
    }
  }

  /** An integer that fits is read as it was written; unsigned ones as the same bits. */
  lemma IntRoundTrip(n: Integer, size: nat, signed: bool)
    requires 1 <= size <= MAXINTSIZE && Fits(n, size, signed)
    ensures IntOf(IntDigits(Unsigned(n), size, signed && n < 0), signed) == Some(n)
  {
    if size < SZINT { ShortRoundTrip(n, size, signed); } else { LongRoundTrip(n, size, signed); }
  }

  lemma ShortRoundTrip(n: Integer, size: nat, signed: bool)
    requires 1 <= size < SZINT && Fits(n, size, signed)
    ensures IntOf(IntDigits(Unsigned(n), size, signed && n < 0), signed) == Some(n)
  {
    hide Digits, Number;
    PowersBound(size);
    if n < 0 {
      var k := Quotient(size);
      DigitsModulo((n + Pow256(size)) as nat, Unsigned(n), k, size);
      NumberOfDigits((n + Pow256(size)) as nat, size);
    } else {
      NumberOfDigits(n, size);
    }
  }

  /** How many times the range of these bytes is left out of the range of an integer. */
  lemma Quotient(size: nat) returns (k: nat)
    requires 1 <= size < SZINT
    ensures k * Pow256(size) == TWO64 - Pow256(size)
  {
    k := Pow256(SZINT - size) - 1;
    PowersBound(size);
    assert Pow256(2) == 0x1_0000 && Pow256(4) == 0x1_0000_0000 && Pow256(6) == 0x1_0000_0000_0000;
    assert Pow256(1) == 256 && Pow256(3) == 0x100_0000 && Pow256(5) == 0x100_0000_0000;
    assert Pow256(7) == 0x100_0000_0000_0000;
  }

  lemma LongRoundTrip(n: Integer, size: nat, signed: bool)
    requires SZINT <= size <= MAXINTSIZE
    ensures IntOf(IntDigits(Unsigned(n), size, signed && n < 0), signed) == Some(n)
  {
    var u, neg := Unsigned(n), signed && n < 0;
    var s := IntDigits(u, size, neg);
    PowersBound(SZINT);
    DigitsZero(u, size, SZINT);
    NumberOfDigits(u, SZINT);
    hide Digits, Number, Fill;
    assert s == Digits(u, SZINT) + Fill(size - SZINT, if neg && size > SZINT then 255 else 0);
    assert s[..SZINT] == Digits(u, SZINT);
  }

  // ----- single items, as functions -----

  /** What an argument gives: bytes, how many arguments it takes, and the value that is read back. */
  datatype Piece = Piece(bytes: Bytes, used: nat, back: seq<Value>) | NoPiece(err: Error)

  function Get<T>(convert: Value -> Maybe<T>, args: seq<Value>, a: nat): Maybe<T> {
    if a < |args| then convert(args[a]) else None
  }

  function PieceOf(pf: Platform, k: KOption, size: nat, little: bool, args: seq<Value>, a: nat): Piece {
    match k
    case Kint =>
      var n := Get(pf.toInteger, args, a);
      if n.None? then NoPiece(BadArgument)
      else if !Fits(n.value, size, true) then NoPiece(IntegerOverflow)
      else Piece(Ordered(IntDigits(Unsigned(n.value), size, n.value < 0), little), 1, [Int(n.value)])
    case Kuint =>
      var n := Get(pf.toInteger, args, a);
      if n.None? then NoPiece(BadArgument)
      else if !Fits(n.value, size, false) then NoPiece(UnsignedOverflow)
      else Piece(Ordered(IntDigits(Unsigned(n.value), size, false), little), 1, [Int(n.value)])
    case Kfloat =>
      var x := Get(pf.toNumber, args, a);
      if x.None? then NoPiece(BadArgument)
      else Piece(Ordered(pf.narrow(x.value), little == pf.little), 1, [Float(pf.widen(pf.narrow(x.value)))])
    case Kchar =>
      var t := Get(pf.toText, args, a);
      if t.None? then NoPiece(BadArgument)
      else if |t.value| > size then NoPiece(StringTooLong)
      else
        var padded := t.value + Fill(size - |t.value|, 0);
        Piece(padded, 1, [Str(padded)])
    case Kstring =>
      var t := Get(pf.toText, args, a);
      if t.None? then NoPiece(BadArgument)
      else if size < SZSIZE && |t.value| >= Pow256(size) then NoPiece(LengthDoesNotFit)
      else Piece(Ordered(IntDigits(|t.value|, size, false), little) + t.value, 1, [Str(t.value)])
    case Kzstr =>
      var t := Get(pf.toText, args, a);
      if t.None? then NoPiece(BadArgument)
      else if 0 in t.value then NoPiece(StringContainsZeros)
      else Piece(t.value + [0], 1, [Str(t.value)])
    case Kpadding => Piece([0], 0, [])
    case Kpaddalign => Piece([], 0, [])
    case Knop => Piece([], 0, [])
    case _ =>
      var x := Get(pf.toNumber, args, a);
      if x.None? then NoPiece(BadArgument)
      else Piece(Ordered(x.value, little == pf.little), 1, [Float(x.value)])
  }

  datatype Item = Item(values: seq<Value>, next: nat) | NoItem(err: Error)

  function FirstZero(data: Bytes, pos: nat): (z: nat)
    requires pos <= |data|
    ensures pos <= z <= |data| && (forall i :: pos <= i < z ==> data[i] != 0) && (z < |data| ==> data[z] == 0)
    decreases |data| - pos
  {
    if pos == |data| || data[pos] == 0 then pos else FirstZero(data, pos + 1)
  }

  function ItemAt(pf: Platform, k: KOption, size: nat, little: bool, data: Bytes, pos: nat): (r: Item)
    requires pos + size <= |data|
    ensures r.Item? ==> r.next <= |data|
  {
    var raw := data[pos..pos + size];
    match k
    case Kint =>
      var n := IntOf(Ordered(raw, little), true);
      if n.None? then NoItem(IntegerDoesNotFit) else Item([Int(n.value)], pos + size)
    case Kuint =>
      var n := IntOf(Ordered(raw, little), false);
      if n.None? then NoItem(IntegerDoesNotFit) else Item([Int(n.value)], pos + size)
    case Kfloat => Item([Float(pf.widen(Ordered(raw, little == pf.little)))], pos + size)
    case Kchar => Item([Str(raw)], pos + size)
    case Kstring =>
      var n := IntOf(Ordered(raw, little), false);
      if n.None? then NoItem(IntegerDoesNotFit)
      else
        var len := Unsigned(n.value);
        if len > |data| - pos - size then NoItem(DataTooShort)
        else Item([Str(data[pos + size..pos + size + len])], pos + size + len)
    case Kzstr =>
      var z := FirstZero(data, pos);
      if z == |data| then NoItem(UnfinishedString) else Item([Str(data[pos..z])], z + 1)
    case Kpadding => Item([], pos + size)
    case Kpaddalign => Item([], pos + size)
    case Knop => Item([], pos + size)
    case _ => Item([Float(Ordered(raw, little == pf.little))], pos + size)
  }

  lemma ZeroIsFound(s: Bytes, data: Bytes, pos: nat)
    requires 0 !in s && pos + |s| < |data| && data[pos..pos + |s| + 1] == s + [0]
    ensures FirstZero(data, pos) == pos + |s| && data[pos..pos + |s|] == s
  {
    var c := data[pos..pos + |s| + 1];
    assert forall i :: 0 <= i <= |s| ==> data[pos + i] == c[i];
    assert c[..|s|] == s;
    var z := FirstZero(data, pos);
    assert data[pos + |s|] == c[|s|] == 0;
    forall i | pos <= i < pos + |s| ensures data[i] != 0 { assert data[i] == c[i - pos] == s[i - pos]; }
  }

  lemma StringIsRead(pf: Platform, size: nat, little: bool, s: Bytes, data: Bytes, pos: nat)
    requires 1 <= size <= MAXINTSIZE && |s| < TWO63 && (size < SZSIZE ==> |s| < Pow256(size))
    requires pos + size + |s| <= |data|
    requires data[pos..pos + size + |s|] == Ordered(IntDigits(|s|, size, false), little) + s
    ensures ItemAt(pf, Kstring, size, little, data, pos) == Item([Str(s)], pos + size + |s|)
  {
    hide Digits, Number, IntDigits, IntOf, Ordered, Pow256, FirstZero;
    var prefix := Ordered(IntDigits(|s|, size, false), little);
    var c := data[pos..pos + size + |s|];
    assert data[pos..pos + size] == c[..size] == prefix;
    assert data[pos + size..pos + size + |s|] == c[size..] == s;
    OrderedTwice(IntDigits(|s|, size, false), little);
    IntRoundTrip(|s|, size, false);
  }

  /** What was written for an argument is read back, wherever it is. */
  lemma PieceIsRead(pf: Platform, k: KOption, size: nat, little: bool, args: seq<Value>, a: nat, data: Bytes, pos: nat)
    requires Sane(pf) && SizeOk(k, size)
    requires var x := PieceOf(pf, k, size, little, args, a);
      x.Piece? && pos + |x.bytes| <= |data| && data[pos..pos + |x.bytes|] == x.bytes
    ensures var x := PieceOf(pf, k, size, little, args, a);
      size <= |x.bytes| && ItemAt(pf, k, size, little, data, pos) == Item(x.back, pos + |x.bytes|)
  {
    hide Digits, Number, IntDigits, IntOf, Ordered, Reversed, Fits, FirstZero;
    var x := PieceOf(pf, k, size, little, args, a);
    match k {
      case Kint =>
        var n := Get(pf.toInteger, args, a).value;
        OrderedTwice(IntDigits(Unsigned(n), size, n < 0), little);
        IntRoundTrip(n, size, true);
      case Kuint =>
        var n := Get(pf.toInteger, args, a).value;
        OrderedTwice(IntDigits(Unsigned(n), size, false), little);
        IntRoundTrip(n, size, false);
      case Kfloat =>
        OrderedTwice(pf.narrow(Get(pf.toNumber, args, a).value), little == pf.little);
      case Knumber =>
        OrderedTwice(Get(pf.toNumber, args, a).value, little == pf.little);
      case Kdouble =>
        OrderedTwice(Get(pf.toNumber, args, a).value, little == pf.little);
      case Kstring =>
        StringIsRead(pf, size, little, Get(pf.toText, args, a).value, data, pos);
      case Kzstr =>
        ZeroIsFound(Get(pf.toText, args, a).value, data, pos);
      case _ =>
    }
  }

  // ----- whole formats, as functions -----

  /** The bytes, and the values that are read back. */
  datatype Packed = Packed(bytes: Bytes, values: seq<Value>) | PackError(err: Error)

  function PackFrom(pf: Platform, fmt: string, p: nat, set_: Settings, args: seq<Value>, a: nat, out: Bytes,
                    values: seq<Value>): Packed
    decreases |fmt| - p
  {
    if At(fmt, p) == '\0' then Packed(out, values)
    else
      match DetailsAt(fmt, p, pf.little, set_, |out|)
      case NoDetails(err) => PackError(err)
      case Details(k, size, ntoalign, next, set') =>
        match PieceOf(pf, k, size, set'.little, args, a)
        case NoPiece(err) => PackError(err)
        case Piece(bytes, used, back) =>
          PackFrom(pf, fmt, next, set', args, a + used, out + Fill(ntoalign, 0) + bytes, values + back)
  }

  datatype Unpacked = Unpacked(values: seq<Value>, position: nat) | UnpackError(err: Error)

  function UnpackFrom(pf: Platform, fmt: string, p: nat, set_: Settings, data: Bytes, pos: nat,
                      values: seq<Value>): Unpacked
    requires pos <= |data|
    decreases |fmt| - p
  {
    if At(fmt, p) == '\0' then Unpacked(values, pos + 1)
    else
      match DetailsAt(fmt, p, pf.little, set_, pos)
      case NoDetails(err) => UnpackError(err)
      case Details(k, size, ntoalign, next, set') =>
        if ntoalign + size > |data| - pos then UnpackError(DataTooShort)
        else
          match ItemAt(pf, k, size, set'.little, data, pos + ntoalign)
          case NoItem(err) => UnpackError(err)
          case Item(vs, pos') => UnpackFrom(pf, fmt, next, set', data, pos', values + vs)
  }

  /** What has been packed stays. */
  lemma {:induction false} PackExtends(pf: Platform, fmt: string, p: nat, set_: Settings, args: seq<Value>, a: nat,
                                       out: Bytes, values: seq<Value>)
    ensures var r := PackFrom(pf, fmt, p, set_, args, a, out, values); r.Packed? ==> out <= r.bytes
    decreases |fmt| - p
  {
    hide PieceOf, DetailsAt;
    if At(fmt, p) != '\0' {
      var d := DetailsAt(fmt, p, pf.little, set_, |out|);
      if d.Details? {
        var x := PieceOf(pf, d.k, d.size, d.set_.little, args, a);
        if x.Piece? {
          var out' := out + Fill(d.ntoalign, 0) + x.bytes;
          PackExtends(pf, fmt, d.next, d.set_, args, a + x.used, out', values + x.back);
          var r := PackFrom(pf, fmt, d.next, d.set_, args, a + x.used, out', values + x.back);
          if r.Packed? { assert out <= out' <= r.bytes; }
        }
      }
    }
  }

  /** Unpacking by the same format gives back what was packed, and ends where it ends. */
  lemma {:induction false} RoundTrip(pf: Platform, fmt: string, p: nat, set_: Settings, args: seq<Value>, a: nat,
                                     out: Bytes, values: seq<Value>)
    requires Sane(pf)
    ensures var r := PackFrom(pf, fmt, p, set_, args, a, out, values);
      r.Packed? ==>
        |out| <= |r.bytes| && UnpackFrom(pf, fmt, p, set_, r.bytes, |out|, values) == Unpacked(r.values, |r.bytes| + 1)
    decreases |fmt| - p
  {
    hide PieceOf, DetailsAt, ItemAt, Sane;
    PackExtends(pf, fmt, p, set_, args, a, out, values);
    if At(fmt, p) != '\0' {
      var d := DetailsAt(fmt, p, pf.little, set_, |out|);
      if d.Details? {
        var x := PieceOf(pf, d.k, d.size, d.set_.little, args, a);
        if x.Piece? {
          var out' := out + Fill(d.ntoalign, 0) + x.bytes;
          PackExtends(pf, fmt, d.next, d.set_, args, a + x.used, out', values + x.back);
          RoundTrip(pf, fmt, d.next, d.set_, args, a + x.used, out', values + x.back);
          var r := PackFrom(pf, fmt, d.next, d.set_, args, a + x.used, out', values + x.back);
          if r.Packed? {
            var pos := |out| + d.ntoalign;
            assert r.bytes[pos..pos + |x.bytes|] == out'[pos..] == x.bytes;
            PieceIsRead(pf, d.k, d.size, d.set_.little, args, a, r.bytes, pos);
          }
        }
      }
    }
  }

  /** The value is what the argument stands for, strings perhaps filled up with zeros. */
  ghost predicate Given(pf: Platform, v: Value, arg: Value) {
    match v
    case Int(i) => pf.toInteger(arg) == Some(i)
    case Float(x) =>
      pf.toNumber(arg).Some? && (x == pf.toNumber(arg).value || x == pf.widen(pf.narrow(pf.toNumber(arg).value)))
    case Str(t) =>
      pf.toText(arg).Some? && exists n: nat :: t == pf.toText(arg).value + Fill(n, 0)
  }

  ghost predicate AllGiven(pf: Platform, values: seq<Value>, args: seq<Value>) {
    |values| <= |args| && forall j :: 0 <= j < |values| ==> Given(pf, values[j], args[j])
  }

  lemma PieceIsGiven(pf: Platform, k: KOption, size: nat, little: bool, args: seq<Value>, a: nat)
    ensures var x := PieceOf(pf, k, size, little, args, a);
      x.Piece? ==> |x.back| == x.used <= 1 && (x.used == 1 ==> a < |args| && Given(pf, x.back[0], args[a]))
  {
    hide IntDigits, Ordered, Fits;
    if a < |args| && pf.toText(args[a]).Some? {
      var t := pf.toText(args[a]).value;
      assert t == t + Fill(0, 0);
    }
  }

  /** The values that are read back are those of the arguments, one by one. */
  lemma {:induction false} ValuesAreGiven(pf: Platform, fmt: string, p: nat, set_: Settings, args: seq<Value>, a: nat,
                                          out: Bytes, values: seq<Value>)
    requires |values| == a && AllGiven(pf, values, args)
    ensures var r := PackFrom(pf, fmt, p, set_, args, a, out, values); r.Packed? ==> AllGiven(pf, r.values, args)
    decreases |fmt| - p
  {
    hide PieceOf, DetailsAt, Given, AllGiven;
    if At(fmt, p) != '\0' {
      var d := DetailsAt(fmt, p, pf.little, set_, |out|);
      if d.Details? {
        var x := PieceOf(pf, d.k, d.size, d.set_.little, args, a);
        if x.Piece? {
          PieceIsGiven(pf, d.k, d.size, d.set_.little, args, a);
          MoreGiven(pf, values, x.back, args);
          var out' := out + Fill(d.ntoalign, 0) + x.bytes;
          ValuesAreGiven(pf, fmt, d.next, d.set_, args, a + x.used, out', values + x.back);
        }
      }
    }
  }

  lemma MoreGiven(pf: Platform, values: seq<Value>, back: seq<Value>, args: seq<Value>)
    requires AllGiven(pf, values, args) && |back| <= 1
    requires |back| == 1 ==> |values| < |args| && Given(pf, back[0], args[|values|])
    ensures AllGiven(pf, values + back, args)
  {
    hide Given;
  }

  datatype Size = Size(n: nat) | NoSize(err: Error)

  /** `str_packsize` */
  function SizeFrom(fmt: string, p: nat, native: bool, set_: Settings, total: nat): Size
    decreases |fmt| - p
  {
    if At(fmt, p) == '\0' then Size(total)
    else
      match DetailsAt(fmt, p, native, set_, total)
      case NoDetails(err) => NoSize(err)
      case Details(k, size, ntoalign, next, set') =>
        if k.Kstring? || k.Kzstr? then NoSize(VariableLength)
        else if total + ntoalign + size > MAXSIZE then NoSize(ResultTooLarge)
        else SizeFrom(fmt, next, native, set', total + ntoalign + size)
  }

  /** Whatever is packed has the size that was announced. */
  lemma {:induction false} SizeIsRight(pf: Platform, fmt: string, p: nat, set_: Settings, args: seq<Value>, a: nat,
                                       out: Bytes, values: seq<Value>)
    requires Sane(pf)
    ensures var r, n := PackFrom(pf, fmt, p, set_, args, a, out, values), SizeFrom(fmt, p, pf.little, set_, |out|);
      r.Packed? && n.Size? ==> |r.bytes| == n.n
    decreases |fmt| - p
  {
    hide PieceOf, DetailsAt, Sane;
    if At(fmt, p) != '\0' {
      var d := DetailsAt(fmt, p, pf.little, set_, |out|);
      if d.Details? && !d.k.Kstring? && !d.k.Kzstr? {
        var x := PieceOf(pf, d.k, d.size, d.set_.little, args, a);
        if x.Piece? {
          PieceSize(pf, d.k, d.size, d.set_.little, args, a);
          var out' := out + Fill(d.ntoalign, 0) + x.bytes;
          SizeIsRight(pf, fmt, d.next, d.set_, args, a + x.used, out', values + x.back);
        }
      }
    }
  }

  lemma PieceSize(pf: Platform, k: KOption, size: nat, little: bool, args: seq<Value>, a: nat)
    requires Sane(pf) && SizeOk(k, size) && !k.Kstring? && !k.Kzstr?
    ensures var x := PieceOf(pf, k, size, little, args, a); x.Piece? ==> |x.bytes| == size
  {
  }

  // ----- the functions of the library -----

  /** Where a byte is, counting from the lowest. */
  function Place(k: int, size: nat, little: bool): int { if little then k else size - 1 - k }

  /** `packint`: the lowest byte first, then the rest by shifting. */
  method PackInt(b: Bytes, u: nat, islittle: bool, size: nat, neg: bool) returns (b': Bytes)
    requires 1 <= size
    ensures b' == b + Ordered(IntDigits(u, size, neg), islittle)
  {
    hide Ordered, IntDigits;
    ghost var d := Digits(u, size);
    var buff := new Byte[size];
    var n, i := u, 1;
    buff[Place(0, size, islittle)] := (n % 256) as Byte;
    while i < size
      invariant 1 <= i <= size && d[i - 1..] == Digits(n, size - i + 1)
      invariant forall k :: 0 <= k < i ==> buff[Place(k, size, islittle)] == d[k]
    {
      n := n / 256;
      assert d[i..] == d[i - 1..][1..] == Digits(n, size - i);
      buff[Place(i, size, islittle)] := (n % 256) as Byte;
      i := i + 1;
    }
    if neg && size > SZINT { ExtendSign(buff, islittle, size); }
    SignedDigits(u, size, neg);
    IsOrdered(buff[..], IntDigits(u, size, neg), islittle);
    return b + buff[..];
  }

  lemma SignedDigits(u: nat, size: nat, neg: bool)
    ensures forall k :: 0 <= k < size ==>
      IntDigits(u, size, neg)[k] == if neg && k >= SZINT then 255 else Digits(u, size)[k]
  {
    if neg && size > SZINT {
      DigitsPrefix(u, size, SZINT);
      forall k | 0 <= k < SZINT ensures Digits(u, SZINT)[k] == Digits(u, size)[k] {
        assert Digits(u, size)[..SZINT][k] == Digits(u, size)[k];
      }
    }
  }

  /** The extra bytes of a negative number. */
  method ExtendSign(buff: array<Byte>, islittle: bool, size: nat)
    requires buff.Length == size > SZINT
    modifies buff
    ensures forall k :: 0 <= k < SZINT ==> buff[Place(k, size, islittle)] == old(buff[Place(k, size, islittle)])
    ensures forall k :: SZINT <= k < size ==> buff[Place(k, size, islittle)] == 255
  {
    var i := SZINT;
    while i < size
      invariant SZINT <= i <= size
      invariant forall k :: 0 <= k < SZINT ==> buff[Place(k, size, islittle)] == old(buff[Place(k, size, islittle)])
      invariant forall k :: SZINT <= k < i ==> buff[Place(k, size, islittle)] == 255
    {
      buff[Place(i, size, islittle)] := 255;
      i := i + 1;
    }
  }

  lemma IsOrdered(s: Bytes, w: Bytes, little: bool)
    requires |s| == |w| && forall k :: 0 <= k < |w| ==> s[Place(k, |w|, little)] == w[k]
    ensures s == Ordered(w, little)
  {
    if little {
      assert forall k :: 0 <= k < |s| ==> s[k] == w[k];
    } else {
      forall k | 0 <= k < |s| ensures s[k] == w[|w| - 1 - k] { assert s[|w| - 1 - (|w| - 1 - k)] == w[|w| - 1 - k]; }
    }
  }

  lemma {:induction false} DigitsPrefix(u: nat, size: nat, n: nat)
    requires n <= size
    ensures Digits(u, size)[..n] == Digits(u, n)
    decreases size
  {
    if n > 0 { DigitsPrefix(u / 256, size - 1, n - 1); }
  }

  /** `unpackint` */
  method UnpackInt(data: Bytes, pos: nat, islittle: bool, size: nat, issigned: bool) returns (r: Maybe<Integer>)
    requires 1 <= size && pos + size <= |data|
    ensures r == IntOf(Ordered(data[pos..pos + size], islittle), issigned)
  {
    ghost var s := Ordered(data[pos..pos + size], islittle);
    forall k | 0 <= k < size ensures s[k] == data[pos + Place(k, size, islittle)] { }
    var res: nat, limit := 0, if size <= SZINT then size else SZINT;
    var i := limit;
    while i > 0
      invariant 0 <= i <= limit && res == Number(s[i..limit])
    {
      i := i - 1;
      assert s[i..limit][1..] == s[i + 1..limit];
      res := res * 256 + data[pos + Place(i, size, islittle)] as int;
    }
    assert s[0..limit] == s[..limit];
    NumberBound(s[..limit]);
    if size < SZINT {
      assert s[..limit] == s;
      if issigned {
        var mask := Pow256(size) / 2;
        HalfPow(size);
        var flipped := if res >= mask then res - mask else res + mask;
        return Some(flipped - mask);
      }
      return Some(res);
    }
    var mask: Byte := if !issigned || Signed(res) >= 0 then 0 else 255;
    i := limit;
    while i < size
      invariant limit <= i <= size && forall k :: limit <= k < i ==> s[k] == mask
    {
      if data[pos + Place(i, size, islittle)] != mask {
        assert s[i] != mask;
        return None;
      }
      i := i + 1;
    }
    return Some(Signed(res));
  }

  lemma HalfPow(size: nat)
    requires size > 0
    ensures Pow256(size) == 2 * (Pow256(size) / 2)
  {
  }

  /** Adds so many padding bytes. */
  method AddPadding(b: Bytes, n: nat) returns (b': Bytes)
    ensures b' == b + Fill(n, 0)
  {
    b' := b;
    for i := 0 to n
      invariant b' == b + Fill(i, 0)
    {
      b' := b' + [0];
    }
  }

  datatype Outcome = Done(bytes: Bytes) | Failed(err: Error)

  function OutcomeOf(r: Packed): Outcome {
    match r
    case Packed(bytes, _) => Done(bytes)
    case PackError(err) => Failed(err)
  }

  /** The part of `str_pack` for one option; the result is what the buffer has then. */
  method PackItem(pf: Platform, k: KOption, size: nat, little: bool, args: seq<Value>, arg: nat, b: Bytes)
    returns (r: Outcome, used: nat)
    requires SizeOk(k, size)
    ensures match PieceOf(pf, k, size, little, args, arg)
            case NoPiece(err) => r == Failed(err)
            case Piece(bytes, n, _) => r == Done(b + bytes) && used == n
  {
    hide IntDigits, Digits, Ordered;
    used := 1;
    match k {
      case Kint =>
        var n := Get(pf.toInteger, args, arg);
        if n.None? { return Failed(BadArgument), 1; }
        if size < SZINT {
          var lim := Pow256(size) / 2;
          HalfPow(size);
          if !(-lim <= n.value < lim) { return Failed(IntegerOverflow), 1; }
        }
        var b' := PackInt(b, Unsigned(n.value), little, size, n.value < 0);
        r := Done(b');
      case Kuint =>
        var n := Get(pf.toInteger, args, arg);
        if n.None? { return Failed(BadArgument), 1; }
        if size < SZINT {
          PowersBound(size);
          if !(Unsigned(n.value) < Pow256(size)) { return Failed(UnsignedOverflow), 1; }
        }
        var b' := PackInt(b, Unsigned(n.value), little, size, false);
        r := Done(b');
      case Kfloat =>
        var x := Get(pf.toNumber, args, arg);
        if x.None? { return Failed(BadArgument), 1; }
        r := Done(b + Ordered(pf.narrow(x.value), little == pf.little));
      case Kchar =>
        var t := Get(pf.toText, args, arg);
        if t.None? { return Failed(BadArgument), 1; }
        if |t.value| > size { return Failed(StringTooLong), 1; }
        var b' := AddPadding(b + t.value, size - |t.value|);
        assert b' == b + (t.value + Fill(size - |t.value|, 0));
        r := Done(b');
      case Kstring =>
        var t := Get(pf.toText, args, arg);
        if t.None? { return Failed(BadArgument), 1; }
        if size < SZSIZE && |t.value| >= Pow256(size) { return Failed(LengthDoesNotFit), 1; }
        var b' := PackInt(b, |t.value|, little, size, false);
        assert b' + t.value == b + (Ordered(IntDigits(|t.value|, size, false), little) + t.value);
        r := Done(b' + t.value);
      case Kzstr =>
        var t := Get(pf.toText, args, arg);
        if t.None? { return Failed(BadArgument), 1; }
        if 0 in t.value { return Failed(StringContainsZeros), 1; }
        assert b + t.value + [0] == b + (t.value + [0]);
        r := Done(b + t.value + [0]);
      case Kpadding =>
        r, used := Done(b + [0]), 0;
      case Kpaddalign =>
        assert b + [] == b;
        r, used := Done(b), 0;
      case Knop =>
        assert b + [] == b;
        r, used := Done(b), 0;
      case _ =>
        var x := Get(pf.toNumber, args, arg);
        if x.None? { return Failed(BadArgument), 1; }
        r := Done(b + Ordered(x.value, little == pf.little));
    }
  }

  /** `str_pack` */
  method StrPack(pf: Platform, fmt: string, args: seq<Value>) returns (r: Outcome)
    ensures r == OutcomeOf(PackFrom(pf, fmt, 0, Settings(pf.little, 1), args, 0, [], []))
  {
    hide PieceOf, DetailsAt;
    var h := new Header(fmt, pf.little);
    var b: Bytes, arg := [], 0;
    ghost var values := [];
    ghost var all := PackFrom(pf, fmt, 0, Settings(pf.little, 1), args, 0, [], []);
    while At(fmt, h.pos) != '\0'
      invariant fresh(h) && all == PackFrom(pf, fmt, h.pos, h.Now(), args, arg, b, values)
      decreases |fmt| - h.pos
    {
      var d := h.GetDetails(|b|);
      if d.NoDetails? { return Failed(d.err); }
      ghost var x := PieceOf(pf, d.k, d.size, h.islittle, args, arg);
      var b1 := AddPadding(b, d.ntoalign);
      var o, used := PackItem(pf, d.k, d.size, h.islittle, args, arg, b1);
      if o.Failed? { return o; }
      b, arg, values := o.bytes, arg + used, values + x.back;
    }
    return Done(b);
  }

  /** The part of `str_unpack` for one option. */
  method UnpackItem(pf: Platform, k: KOption, size: nat, little: bool, data: Bytes, pos: nat) returns (r: Item)
    requires SizeOk(k, size) && pos + size <= |data|
    ensures r == ItemAt(pf, k, size, little, data, pos)
  {
    hide IntOf, Ordered;
    match k {
      case Kint =>
        var n := UnpackInt(data, pos, little, size, true);
        return if n.None? then NoItem(IntegerDoesNotFit) else Item([Int(n.value)], pos + size);
      case Kuint =>
        var n := UnpackInt(data, pos, little, size, false);
        return if n.None? then NoItem(IntegerDoesNotFit) else Item([Int(n.value)], pos + size);
      case Kfloat =>
        return Item([Float(pf.widen(Ordered(data[pos..pos + size], little == pf.little)))], pos + size);
      case Kchar =>
        return Item([Str(data[pos..pos + size])], pos + size);
      case Kstring =>
        var n := UnpackInt(data, pos, little, size, false);
        if n.None? { return NoItem(IntegerDoesNotFit); }
        var len := Unsigned(n.value);
        if len > |data| - pos - size { return NoItem(DataTooShort); }
        return Item([Str(data[pos + size..pos + size + len])], pos + size + len);
      case Kzstr =>
        var z := pos;
        while z < |data| && data[z] != 0
          invariant pos <= z <= |data| && FirstZero(data, z) == FirstZero(data, pos)
        {
          z := z + 1;
        }
        if z == |data| { return NoItem(UnfinishedString); }
        return Item([Str(data[pos..z])], z + 1);
      case Kpadding => return Item([], pos + size);
      case Kpaddalign => return Item([], pos + size);
      case Knop => return Item([], pos + size);
      case _ =>
        return Item([Float(Ordered(data[pos..pos + size], little == pf.little))], pos + size);
    }
  }

  /** `posrelatI` */
  function PosRelatI(pos: int, len: nat): nat {
    if pos > 0 then pos else if pos == 0 then 1 else if pos < 0 - len then 1 else (len + pos + 1) as nat
  }

  /** `str_unpack` */
  method StrUnpack(pf: Platform, fmt: string, data: Bytes, init: int) returns (r: Unpacked)
    ensures var pos := PosRelatI(init, |data|) - 1;
      r == if pos > |data| then UnpackError(PositionOut)
           else UnpackFrom(pf, fmt, 0, Settings(pf.little, 1), data, pos, [])
  {
    hide ItemAt, DetailsAt;
    var pos := PosRelatI(init, |data|) - 1;
    if pos > |data| { return UnpackError(PositionOut); }
    var h := new Header(fmt, pf.little);
    var values: seq<Value> := [];
    ghost var all := UnpackFrom(pf, fmt, 0, Settings(pf.little, 1), data, pos, []);
    while At(fmt, h.pos) != '\0'
      invariant fresh(h) && 0 <= pos <= |data| && all == UnpackFrom(pf, fmt, h.pos, h.Now(), data, pos, values)
      decreases |fmt| - h.pos
    {
      var d := h.GetDetails(pos);
      if d.NoDetails? { return UnpackError(d.err); }
      if d.ntoalign + d.size > |data| - pos { return UnpackError(DataTooShort); }
      pos := pos + d.ntoalign;
      var x := UnpackItem(pf, d.k, d.size, h.islittle, data, pos);
      if x.NoItem? { return UnpackError(x.err); }
      values, pos := values + x.values, x.next;
    }
    return Unpacked(values, pos + 1);
  }

  /** `str_packsize` */
  method StrPackSize(fmt: string, native: bool) returns (r: Size)
    ensures r == SizeFrom(fmt, 0, native, Settings(native, 1), 0)
  {
    hide DetailsAt;
    var h := new Header(fmt, native);
    var total: nat := 0;
    ghost var all := SizeFrom(fmt, 0, native, Settings(native, 1), 0);
    while At(fmt, h.pos) != '\0'
      invariant fresh(h) && all == SizeFrom(fmt, h.pos, native, h.Now(), total)
      decreases |fmt| - h.pos
    {
      var d := h.GetDetails(total);
      if d.NoDetails? { return NoSize(d.err); }
      if d.k.Kstring? || d.k.Kzstr? { return NoSize(VariableLength); }
      var size := d.size + d.ntoalign;
      if total + size > MAXSIZE { return NoSize(ResultTooLarge); }
      total := total + size;
    }
    return Size(total);
  }

  /**
   What has been packed is unpacked by the same format, up to its end: the values of the arguments come back. The
   size is what the format says.
   */
  method PackAndUnpack(pf: Platform, fmt: string, args: seq<Value>) returns (r: Outcome, u: Unpacked, n: Size)
    requires Sane(pf)
    ensures var p := PackFrom(pf, fmt, 0, Settings(pf.little, 1), args, 0, [], []);
      && r == OutcomeOf(p)
      && (r.Done? ==> u == Unpacked(p.values, |r.bytes| + 1))
      && (r.Done? ==> AllGiven(pf, p.values, args))
      && (r.Done? && n.Size? ==> n.n == |r.bytes|)
  {
    hide PackFrom, UnpackFrom, SizeFrom, Given, Sane;
    assert AllGiven(pf, [], args);
    r := StrPack(pf, fmt, args);
    RoundTrip(pf, fmt, 0, Settings(pf.little, 1), args, 0, [], []);
    ValuesAreGiven(pf, fmt, 0, Settings(pf.little, 1), args, 0, [], []);
    SizeIsRight(pf, fmt, 0, Settings(pf.little, 1), args, 0, [], []);
    u := StrUnpack(pf, fmt, if r.Done? then r.bytes else [], 1);
    n := StrPackSize(fmt, pf.little);
  }
}
