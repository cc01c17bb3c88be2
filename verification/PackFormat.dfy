/**
 The formats of `string.pack` and `string.unpack` (lstrlib.c): options, their sizes and their alignment.
 */
module PackFormat {

  /** Sizes of a machine with 64-bit integers, sizes and pointers. */
  const SZINT: nat := 8
  const SZSHORT: nat := 2
  const SZCINT: nat := 4
  const SZLONG: nat := 8
  const SZSIZE: nat := 8
  const SZFLOAT: nat := 4
  const SZNUMBER: nat := 8
  const NATIVEALIGN: nat := 8

  const MAXINTSIZE: nat := 16
  const MAXSIZE: nat := 0x7fff_ffff

  datatype KOption =
    | Kint | Kuint | Kfloat | Knumber | Kdouble | Kchar | Kstring | Kzstr | Kpadding | Kpaddalign | Knop

  datatype Error =
    | SizeOutOfLimits | MissingSize | InvalidOption | InvalidNextOption | NotPowerOf2
    | BadArgument | IntegerOverflow | UnsignedOverflow | StringTooLong | LengthDoesNotFit | StringContainsZeros
    | PositionOut | DataTooShort | IntegerDoesNotFit | UnfinishedString | VariableLength | ResultTooLarge

  /** What options can set. */
  datatype Settings = Settings(little: bool, maxalign: nat)

  datatype Option = Option(k: KOption, size: nat, next: nat, set_: Settings) | NoOption(err: Error)

  datatype Details = Details(k: KOption, size: nat, ntoalign: nat, next: nat, set_: Settings) | NoDetails(err: Error)

  /** Formats end with their first zero. */
  function At(fmt: string, p: nat): char { if p < |fmt| then fmt[p] else '\0' }

  predicate IsDigit(c: char) { '0' <= c <= '9' }

  function Digit(c: char): nat
    requires IsDigit(c)
  {
    c as int - '0' as int
  }

  /** Digits are read as long as the number cannot overflow. */
  function NumFrom(fmt: string, p: nat, a: nat): (r: (nat, nat))
    ensures p <= r.1 && (p <= |fmt| ==> r.1 <= |fmt|)
    decreases |fmt| - p
  {
    if IsDigit(At(fmt, p)) && a <= (MAXSIZE - 9) / 10 then NumFrom(fmt, p + 1, a * 10 + Digit(At(fmt, p))) else (a, p)
  }

  /** `getnum` */
  function Num(fmt: string, p: nat, df: int): (r: (int, nat))
    ensures p <= r.1 && (p <= |fmt| ==> r.1 <= |fmt|)
  {
    if IsDigit(At(fmt, p)) then NumFrom(fmt, p, 0) else (df, p)
  }

  /** An option whose size is an integral size. */
  function Sized(fmt: string, p: nat, k: KOption, df: nat, set_: Settings): Option {
    var (n, q) := Num(fmt, p, df);
    if 1 <= n <= MAXINTSIZE then Option(k, n, q, set_) else NoOption(SizeOutOfLimits)
  }

  predicate SizeOk(k: KOption, size: nat) {
    match k
    case Kint => 1 <= size <= MAXINTSIZE
    case Kuint => 1 <= size <= MAXINTSIZE
    case Kstring => 1 <= size <= MAXINTSIZE
    case Kfloat => size == SZFLOAT
    case Knumber => size == SZNUMBER
    case Kdouble => size == SZNUMBER
    case Kchar => true
    case Kpadding => size == 1
    case _ => size == 0
  }

  /** `getoption` */
  function OptionAt(fmt: string, p: nat, native: bool, set_: Settings): (o: Option)
    requires p < |fmt|
    ensures o.Option? ==> p < o.next <= |fmt| && SizeOk(o.k, o.size)
  {
    var q := p + 1;
    match fmt[p]
    case 'b' => Option(Kint, 1, q, set_)
    case 'B' => Option(Kuint, 1, q, set_)
    case 'h' => Option(Kint, SZSHORT, q, set_)
    case 'H' => Option(Kuint, SZSHORT, q, set_)
    case 'l' => Option(Kint, SZLONG, q, set_)
    case 'L' => Option(Kuint, SZLONG, q, set_)
    case 'j' => Option(Kint, SZINT, q, set_)
    case 'J' => Option(Kuint, SZINT, q, set_)
    case 'T' => Option(Kuint, SZSIZE, q, set_)
    case 'f' => Option(Kfloat, SZFLOAT, q, set_)
    case 'n' => Option(Knumber, SZNUMBER, q, set_)
    case 'd' => Option(Kdouble, SZNUMBER, q, set_)
    case 'i' => Sized(fmt, q, Kint, SZCINT, set_)
    case 'I' => Sized(fmt, q, Kuint, SZCINT, set_)
    case 's' => Sized(fmt, q, Kstring, SZSIZE, set_)
    case 'c' =>
      var (n, r) := Num(fmt, q, -1);
      if n == -1 then NoOption(MissingSize) else Option(Kchar, if n < 0 then 0 else n, r, set_)
    case 'z' => Option(Kzstr, 0, q, set_)
    case 'x' => Option(Kpadding, 1, q, set_)
    case 'X' => Option(Kpaddalign, 0, q, set_)
    case ' ' => Option(Knop, 0, q, set_)
    case '<' => Option(Knop, 0, q, set_.(little := true))
    case '>' => Option(Knop, 0, q, set_.(little := false))
    case '=' => Option(Knop, 0, q, set_.(little := native))
    case '!' =>
      var (n, r) := Num(fmt, q, NATIVEALIGN);
      if 1 <= n <= MAXINTSIZE then Option(Knop, 0, r, set_.(maxalign := n)) else NoOption(SizeOutOfLimits)
    case _ => NoOption(InvalidOption)
  }

  predicate IsPow2(n: nat) { n == 1 || n == 2 || n == 4 || n == 8 || n == 16 }

  /** The test with bits, for the alignments there can be. */
  method PowerOf2(align: nat) returns (r: bool)
    requires align <= MAXINTSIZE
    ensures r <==> IsPow2(align)
  {
    if align == 0 { return false; }
    var bits := align as bv8;
    return bits & (bits - 1) == 0;
  }

  /** `getdetails`: where the option is put depends on how much there is already. */
  function DetailsAt(fmt: string, p: nat, native: bool, set_: Settings, total: nat): (d: Details)
    requires p < |fmt|
    ensures d.Details? ==> p < d.next <= |fmt| && SizeOk(d.k, d.size)
  {
    var o := OptionAt(fmt, p, native, set_);
    if o.NoOption? then NoDetails(o.err)
    else if !o.k.Kpaddalign? then Aligned(o.k, o.size, o.size, o.next, o.set_, total)
    else if At(fmt, o.next) == '\0' then NoDetails(InvalidNextOption)
    else
      var x := OptionAt(fmt, o.next, native, o.set_);
      if x.NoOption? then NoDetails(x.err)
      else if x.k.Kchar? || x.size == 0 then NoDetails(InvalidNextOption)
      else Aligned(o.k, o.size, x.size, x.next, x.set_, total)
  }

  /** With as much padding as the alignment needs. */
  function Aligned(k: KOption, size: nat, align: nat, next: nat, set_: Settings, total: nat): (d: Details)
    ensures d.Details? ==> d.k == k && d.size == size && d.next == next && d.set_ == set_
  {
    var a := if align > set_.maxalign then set_.maxalign else align;
    if align <= 1 || k.Kchar? then Details(k, size, 0, next, set_)
    else if !IsPow2(a) then NoDetails(NotPowerOf2)
    else Details(k, size, (a - total % a) % a, next, set_)
  }

  /** Padding goes up to the next multiple of the alignment, and no further. */
  lemma PaddingAligns(k: KOption, size: nat, align: nat, next: nat, set_: Settings, total: nat)
    requires align > 1 && !k.Kchar?
    ensures var a := if align > set_.maxalign then set_.maxalign else align;
      var d := Aligned(k, size, align, next, set_, total);
      d.Details? ==> 0 <= d.ntoalign < a && (total + d.ntoalign) % a == 0
  {
    var a := if align > set_.maxalign then set_.maxalign else align;
    if IsPow2(a) { PadTo(a, total / a, total % a, total); }
  }

  lemma PadTo(a: nat, q: nat, r: nat, total: nat)
    requires IsPow2(a) && r < a && total == q * a + r && r == total % a
    ensures (total + (a - r) % a) % a == 0
  {
    if r == 0 {
      assert (a - r) % a == 0;
    } else {
      assert total + (a - r) == (q + 1) * a;
      MultipleOf(a, q + 1);
    }
  }

  lemma MultipleOf(a: nat, q: nat)
    requires IsPow2(a)
    ensures (q * a) % a == 0
  {
    match a {
      case 2 => assert (q * 2) % 2 == 0;
      case 4 => assert (q * 4) % 4 == 0;
      case 8 => assert (q * 8) % 8 == 0;
      case 16 => assert (q * 16) % 16 == 0;
      case _ => assert (q * 1) % 1 == 0;
    }
  }

  // ----- reading a format -----

  class Header {
    const fmt: string
    const native: bool
    var pos: nat
    var islittle: bool
    var maxalign: nat

    /** `initheader` */
    constructor (fmt: string, native: bool)
      ensures pos == 0 && Now() == Settings(native, 1) && this.fmt == fmt && this.native == native
    {
      this.fmt, this.native, pos, islittle, maxalign := fmt, native, 0, native, 1;
    }

    function Now(): Settings
      reads `islittle, `maxalign
    {
      Settings(islittle, maxalign)
    }

    /** `getnum` */
    method GetNum(df: int) returns (a: int)
      modifies `pos
      ensures (a, pos) == Num(fmt, old(pos), df)
    {
      if !IsDigit(At(fmt, pos)) { return df; }
      a := 0;
      var more := true;
      while more
        invariant 0 <= a && NumFrom(fmt, old(pos), 0) == NumFrom(fmt, pos, a)
        invariant more == (IsDigit(At(fmt, pos)) && a <= (MAXSIZE - 9) / 10)
        decreases |fmt| - pos
      {
        a := a * 10 + Digit(At(fmt, pos));
        pos := pos + 1;
        more := IsDigit(At(fmt, pos)) && a <= (MAXSIZE - 9) / 10;
      }
    }

    /** `getnumlimit`; zero stands for an error. */
    method GetNumLimit(df: int) returns (sz: nat)
      modifies `pos
      ensures var (n, q) := Num(fmt, old(pos), df);
        pos == q && sz == if 1 <= n <= MAXINTSIZE then n else 0
    {
      var n := GetNum(df);
      sz := if n > MAXINTSIZE || n <= 0 then 0 else n;
    }

    /** `getoption` */
    method GetOption() returns (o: Option)
      requires pos < |fmt|
      modifies this
      ensures o == OptionAt(fmt, old(pos), native, old(Now()))
      ensures o.Option? ==> pos == o.next && Now() == o.set_
    {
      var opt := fmt[pos];
      pos := pos + 1;
      var size, k := 0, Knop;
      match opt {
        case 'b' => size, k := 1, Kint;
        case 'B' => size, k := 1, Kuint;
        case 'h' => size, k := SZSHORT, Kint;
        case 'H' => size, k := SZSHORT, Kuint;
        case 'l' => size, k := SZLONG, Kint;
        case 'L' => size, k := SZLONG, Kuint;
        case 'j' => size, k := SZINT, Kint;
        case 'J' => size, k := SZINT, Kuint;
        case 'T' => size, k := SZSIZE, Kuint;
        case 'f' => size, k := SZFLOAT, Kfloat;
        case 'n' => size, k := SZNUMBER, Knumber;
        case 'd' => size, k := SZNUMBER, Kdouble;
        case 'i' =>
          size := GetNumLimit(SZCINT);
          k := Kint;
          if size == 0 { return NoOption(SizeOutOfLimits); }
        case 'I' =>
          size := GetNumLimit(SZCINT);
          k := Kuint;
          if size == 0 { return NoOption(SizeOutOfLimits); }
        case 's' =>
          size := GetNumLimit(SZSIZE);
          k := Kstring;
          if size == 0 { return NoOption(SizeOutOfLimits); }
        case 'c' =>
          var n := GetNum(-1);
          if n == -1 { return NoOption(MissingSize); }
          size, k := if n < 0 then 0 else n, Kchar;
        case 'z' => k := Kzstr;
        case 'x' => size, k := 1, Kpadding;
        case 'X' => k := Kpaddalign;
        case ' ' =>
        case '<' => islittle := true;
        case '>' => islittle := false;
        case '=' => islittle := native;
        case '!' =>
          var n := GetNumLimit(NATIVEALIGN);
          if n == 0 { return NoOption(SizeOutOfLimits); }
          maxalign := n;
        case _ => return NoOption(InvalidOption);
      }
      return Option(k, size, pos, Now());
    }

    /** `getdetails` */
    method GetDetails(total: nat) returns (d: Details)
      requires pos < |fmt|
      modifies this
      ensures d == DetailsAt(fmt, old(pos), native, old(Now()), total)
      ensures d.Details? ==> pos == d.next && Now() == d.set_
    {
      var o := GetOption();
      if o.NoOption? { return NoDetails(o.err); }
      var align := o.size;
      if o.k.Kpaddalign? {
        if At(fmt, pos) == '\0' { return NoDetails(InvalidNextOption); }
        var x := GetOption();
        if x.NoOption? { return NoDetails(x.err); }
        if x.k.Kchar? || x.size == 0 { return NoDetails(InvalidNextOption); }
        align := x.size;
      }
      if align <= 1 || o.k.Kchar? { return Details(o.k, o.size, 0, pos, Now()); }
      if align > maxalign { align := maxalign; }
      var ok := PowerOf2(align);
      if !ok { return NoDetails(NotPowerOf2); }
      return Details(o.k, o.size, (align - total % align) % align, pos, Now());
    }
  }
}
