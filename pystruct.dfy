/** Python's `struct` module in its standard-size modes, as far as the row
    codec drives it: compiling a format string into a layout of slots,
    `Struct.size`, `Struct.pack` and `Struct.unpack`. */
module PyStruct {
  import opened Base
  import opened Text

  /** Format characters of the standard-size mode the codec can produce. */
  const FormatChars := "xc?hilqfds"

  /** One parsed format directive: a repeat count and a format character. */
  datatype Code = Code(count: nat, kind: char)

  /** One slot of a compiled layout: a pad byte, or an item that consumes
      one argument of `pack` and yields one value of `unpack`. */
  datatype Unit = Pad | Item(kind: char, width: nat)

  /** A compiled `struct.Struct`: its byte order and its slots. */
  datatype Layout = Layout(little: bool, units: seq<Unit>)

  /** Standard size, in bytes, of one item of a fixed-size format character. */
  function StdSize(k: char): nat
  {
    if k in "?cx" then 1 else if k == 'h' then 2 else if k in "ilf" then 4 else 8
  }

  /** A slot as compilation produces it: a known character with its
      standard size (a text slot `Ns` is N bytes wide). */
  predicate WellFormed(u: Unit)
  {
    u.Item? ==> u.kind in "c?hilqfds" && (u.kind != 's' ==> u.width == StdSize(u.kind))
  }

  // ---------------------------------------------------------------------
  // Compiling a format string

  function LeadingDigits(s: string): (k: nat)
    ensures k <= |s| && AllDigits(s[..k])
    ensures k < |s| ==> !IsDigit(s[k])
  {
    if s == [] || !IsDigit(s[0]) then 0
    else
      var k := 1 + LeadingDigits(s[1..]);
      assert s[..k] == [s[0]] + s[1..][..k - 1];
      k
  }

  predicate KnownCodes(codes: seq<Code>)
  {
    forall i :: 0 <= i < |codes| ==> codes[i].kind in FormatChars
  }

  /** The directive at the front of a format body and the number of
      characters it takes: a count with no format character after it, or
      a character outside the table, is a `struct.error`. */
  function FirstCode(s: string): (r: Option<(Code, nat)>)
    requires s != []
    ensures r.Some? ==> 1 <= r.value.1 <= |s| && r.value.0.kind in FormatChars
  {
    var k := LeadingDigits(s);
    if k == |s| || s[k] !in FormatChars then None
    else Some((Code(if k == 0 then 1 else ParseNat(s[..k]), s[k]), k + 1))
  }

  /** Splits a format body into directives. */
  function ParseCodes(s: string): (r: Result<seq<Code>>)
    ensures r.Ok? ==> KnownCodes(r.value)
    decreases |s|
  {
    if s == [] then Ok([])
    else if FirstCode(s).None? then Err(StructError)
    else
      var first := FirstCode(s).value;
      var rest := ParseCodes(s[first.1..]);
      if rest.Err? then Err(rest.error) else Ok([first.0] + rest.value)
  }

  /** The slots one directive stands for: `Ns` is one item of N bytes,
      `Nx` is N pad bytes, any other `Nk` is N items of kind k. */
  function UnitsOf(c: Code): (r: seq<Unit>)
    requires c.kind in FormatChars
    ensures forall i :: 0 <= i < |r| ==> WellFormed(r[i])
  {
    if c.kind == 's' then [Item('s', c.count)]
    else if c.kind == 'x' then seq(c.count, _ => Pad)
    else seq(c.count, _ => Item(c.kind, StdSize(c.kind)))
  }

  function Expand(codes: seq<Code>): (r: seq<Unit>)
    requires KnownCodes(codes)
    ensures forall i :: 0 <= i < |r| ==> WellFormed(r[i])
  {
    if codes == [] then [] else UnitsOf(codes[0]) + Expand(codes[1..])
  }

  /** `struct.Struct(fmt)`.  A leading `@ = < > !` selects the byte order;
      `<` is little-endian, `>` and `!` big-endian, and the native orders
      (`@`, `=` and no prefix) are taken to be little-endian. */
  function Compile(fmt: string): (r: Result<Layout>)
    ensures r.Ok? ==> forall i :: 0 <= i < |r.value.units| ==> WellFormed(r.value.units[i])
  {
    var ordered := |fmt| > 0 && fmt[0] in "@=<>!";
    var body := if ordered then fmt[1..] else fmt;
    var little := !ordered || fmt[0] in "@=<";
    match ParseCodes(body)
    case Err(e) => Err(e)
    case Ok(codes) => Ok(Layout(little, Expand(codes)))
  }

  /** `Struct.size`: one byte per pad slot plus each item's width. */
  function Size(units: seq<Unit>): nat
  {
    if units == [] then 0
    else (if units[0].Pad? then 1 else units[0].width) + Size(units[1..])
  }

  /** The number of arguments `pack` takes and of values `unpack` returns. */
  function ItemCount(units: seq<Unit>): nat
  {
    if units == [] then 0 else (if units[0].Item? then 1 else 0) + ItemCount(units[1..])
  }

  // ---------------------------------------------------------------------
  // Structure of compiled layouts

  /** The item slots of a layout, pad bytes left out. */
  function Items(units: seq<Unit>): (r: seq<Unit>)
    ensures |r| == ItemCount(units)
    ensures forall j :: 0 <= j < |r| ==> r[j].Item?
    ensures AllWellFormed(units) ==> AllWellFormed(r)
  {
    if units == [] then []
    else if units[0].Pad? then Items(units[1..])
    else [units[0]] + Items(units[1..])
  }

  lemma {:induction false} ItemsAppend(a: seq<Unit>, b: seq<Unit>)
    ensures Items(a + b) == Items(a) + Items(b)
  {
    if a != [] {
      assert (a + b)[0] == a[0];
      assert (a + b)[1..] == a[1..] + b;
      ItemsAppend(a[1..], b);
      if a[0].Item? {
        AppendAssoc([a[0]], Items(a[1..]), Items(b));
      }
    } else {
      assert a + b == b;
    }
  }

  /** Every item of a layout is at most as wide as the whole record. */
  lemma {:induction false} ItemWithinSize(units: seq<Unit>, j: nat)
    requires j < ItemCount(units)
    ensures Items(units)[j].width <= Size(units)
  {
    if units[0].Pad? {
      ItemWithinSize(units[1..], j);
    } else if j > 0 {
      ItemWithinSize(units[1..], j - 1);
    }
  }

  lemma {:induction false} SizeAppend(a: seq<Unit>, b: seq<Unit>)
    ensures Size(a + b) == Size(a) + Size(b)
  {
    if a != [] {
      assert (a + b)[1..] == a[1..] + b;
      SizeAppend(a[1..], b);
    } else {
      assert a + b == b;
    }
  }

  lemma {:induction false} ExpandAppend(a: seq<Code>, b: seq<Code>)
    requires KnownCodes(a) && KnownCodes(b)
    ensures KnownCodes(a + b)
    ensures Expand(a + b) == Expand(a) + Expand(b)
  {
    if a != [] {
      assert (a + b)[0] == a[0];
      assert (a + b)[1..] == a[1..] + b;
      ExpandAppend(a[1..], b);
      assert Expand(a + b) == UnitsOf(a[0]) + Expand(a[1..] + b);
      AppendAssoc(UnitsOf(a[0]), Expand(a[1..]), Expand(b));
    } else {
      assert a + b == b;
    }
  }

  /** `unpack(pack(args))` is, item by item, the normalized argument. */
  lemma {:induction false} NormalizeAllAt(units: seq<Unit>, args: seq<Value>, j: nat)
    requires AllWellFormed(units) && ItemCount(units) == |args| && j < |args|
    ensures NormalizeAll(units, args)[j] == Normalized(Items(units)[j], args[j])
  {
    if units[0].Pad? {
      NormalizeAllAt(units[1..], args, j);
    } else if j > 0 {
      NormalizeAllAt(units[1..], args[1..], j - 1);
    }
  }

  lemma {:induction false} LeadingDigitsAppend(a: string, b: string)
    requires LeadingDigits(a) < |a|
    ensures LeadingDigits(a + b) == LeadingDigits(a)
  {
    if IsDigit(a[0]) {
      assert (a + b)[1..] == a[1..] + b;
      LeadingDigitsAppend(a[1..], b);
    }
  }

  lemma FirstCodeAppend(a: string, b: string)
    requires a != [] && FirstCode(a).Some?
    ensures FirstCode(a + b) == FirstCode(a)
  {
    var k := LeadingDigits(a);
    LeadingDigitsAppend(a, b);
    assert (a + b)[..k] == a[..k];
  }

  /** Directives never straddle a boundary after a complete format: the
      codes of `a + b` are those of `a` followed by those of `b`. */
  lemma {:induction false} ParseCodesAppend(a: string, b: string)
    requires ParseCodes(a).Ok? && ParseCodes(b).Ok?
    ensures ParseCodes(a + b) == Ok(ParseCodes(a).value + ParseCodes(b).value)
    decreases |a|
  {
    if a == [] {
      assert a + b == b;
      assert ParseCodes(a).value + ParseCodes(b).value == ParseCodes(b).value;
    } else {
      var n := FirstCode(a).value.1;
      ParseCodesAppend(a[n..], b);
      ParseCodesAppendStep(a, b, n);
    }
  }

  lemma ParseCodesAppendStep(a: string, b: string, n: nat)
    requires a != [] && FirstCode(a).Some? && FirstCode(a).value.1 == n
    requires ParseCodes(a).Ok? && ParseCodes(b).Ok?
    requires ParseCodes(a[n..] + b) == Ok(ParseCodes(a[n..]).value + ParseCodes(b).value)
    ensures ParseCodes(a + b) == Ok(ParseCodes(a).value + ParseCodes(b).value)
  {
    var c := FirstCode(a).value.0;
    var tailA, tailB := ParseCodes(a[n..]).value, ParseCodes(b).value;
    ParseCodesCons(a);
    FirstCodeAppend(a, b);
    DropAppend(a, b, n);
    ParseCodesConsOk(a + b, tailA + tailB);
    AppendAssoc([c], tailA, tailB);
  }

  lemma ParseCodesCons(s: string)
    requires s != [] && ParseCodes(s).Ok?
    ensures FirstCode(s).Some? && ParseCodes(s[FirstCode(s).value.1..]).Ok?
    ensures ParseCodes(s).value == [FirstCode(s).value.0] + ParseCodes(s[FirstCode(s).value.1..]).value
  {
  }

  lemma ParseCodesConsOk(s: string, rest: seq<Code>)
    requires s != [] && FirstCode(s).Some? && ParseCodes(s[FirstCode(s).value.1..]) == Ok(rest)
    ensures ParseCodes(s) == Ok([FirstCode(s).value.0] + rest)
  {
  }

  lemma AppendAssoc<T>(x: seq<T>, y: seq<T>, z: seq<T>)
    ensures x + (y + z) == (x + y) + z
  {
  }

  lemma DropAppend<T>(a: seq<T>, b: seq<T>, n: nat)
    requires n <= |a|
    ensures (a + b)[n..] == a[n..] + b
  {
  }

  // ---------------------------------------------------------------------
  // Integers in a fixed number of bytes

  function Pow256(w: nat): (p: nat)
    ensures p >= 1
  {
    if w == 0 then 1 else 256 * Pow256(w - 1)
  }

  /** The w-byte big-endian representation of an unsigned number. */
  function BigEndian(u: nat, w: nat): (r: seq<byte>)
    requires u < Pow256(w)
    ensures |r| == w
  {
    if w == 0 then [] else BigEndian(u / 256, w - 1) + [u % 256]
  }

  /** The unsigned number a big-endian byte string denotes. */
  function BigEndianValue(bs: seq<byte>): nat
  {
    if bs == [] then 0 else BigEndianValue(bs[..|bs| - 1]) * 256 + bs[|bs| - 1]
  }

  lemma {:induction false} BigEndianRoundTrip(u: nat, w: nat)
    requires u < Pow256(w)
    ensures BigEndianValue(BigEndian(u, w)) == u
  {
    if w > 0 {
      var bs := BigEndian(u, w);
      assert bs[..w - 1] == BigEndian(u / 256, w - 1);
      BigEndianRoundTrip(u / 256, w - 1);
    }
  }

  lemma {:induction false} BigEndianValueBound(bs: seq<byte>)
    ensures BigEndianValue(bs) < Pow256(|bs|)
  {
    if bs != [] {
      BigEndianValueBound(bs[..|bs| - 1]);
    }
  }

  function Reverse(bs: seq<byte>): (r: seq<byte>)
    ensures |r| == |bs|
    ensures forall i :: 0 <= i < |bs| ==> r[i] == bs[|bs| - 1 - i]
  {
    seq(|bs|, i requires 0 <= i < |bs| => bs[|bs| - 1 - i])
  }

  /** Bytes in the layout's order, from (to) their big-endian form. */
  function Ordered(bs: seq<byte>, little: bool): (r: seq<byte>)
    ensures |r| == |bs|
  {
    if little then Reverse(bs) else bs
  }

  lemma OrderedTwice(bs: seq<byte>, little: bool)
    ensures Ordered(Ordered(bs, little), little) == bs
  {
  }

  function UIntBytes(u: nat, w: nat, little: bool): (r: seq<byte>)
    requires u < Pow256(w)
    ensures |r| == w
  {
    Ordered(BigEndian(u, w), little)
  }

  function UIntOf(bs: seq<byte>, little: bool): nat
  {
    BigEndianValue(Ordered(bs, little))
  }

  predicate SignedFits(i: int, w: nat)
  {
    -(Pow256(w) / 2) <= i < Pow256(w) / 2
  }

  /** Two's complement in w bytes. */
  function IntBytes(i: int, w: nat, little: bool): (r: seq<byte>)
    requires SignedFits(i, w)
    ensures |r| == w
  {
    UIntBytes(if i < 0 then i + Pow256(w) else i, w, little)
  }

  function SignedOf(bs: seq<byte>, little: bool): int
  {
    var u := UIntOf(bs, little);
    if u >= Pow256(|bs|) / 2 then u - Pow256(|bs|) else u
  }

  lemma UIntRoundTrip(u: nat, w: nat, little: bool)
    requires u < Pow256(w)
    ensures UIntOf(UIntBytes(u, w, little), little) == u
  {
    OrderedTwice(BigEndian(u, w), little);
    BigEndianRoundTrip(u, w);
  }

  lemma IntRoundTrip(i: int, w: nat, little: bool)
    requires SignedFits(i, w)
    ensures SignedOf(IntBytes(i, w, little), little) == i
  {
    UIntRoundTrip(if i < 0 then i + Pow256(w) else i, w, little);
  }

  // ---------------------------------------------------------------------
  // Packing and unpacking one item

  function Zeros(n: nat): (r: seq<byte>)
    ensures |r| == n && forall i :: 0 <= i < n ==> r[i] == 0
  {
    seq(n, _ => 0)
  }

  /** An `s` item: the bytes cut to w, or padded with zero bytes up to w. */
  function PadTrunc(bs: seq<byte>, w: nat): (r: seq<byte>)
    ensures |r| == w
  {
    if |bs| >= w then bs[..w] else bs + Zeros(w - |bs|)
  }

  /** The integer an object stands for in an integer slot: ints and bools. */
  function AsInteger(v: Value): Option<int>
  {
    match v
    case Int(i) => Some(i)
    case Bool(b) => Some(if b then 1 else 0)
    case _ => None
  }

  /** The values a slot accepts: anything for `?`, one byte for `c`, bytes
      for `s`, an in-range integer or bool for `h i l q`, and for `f d` a
      bit pattern of the slot's width or the zero number. */
  predicate Fits(u: Unit, v: Value)
    requires u.Item? && WellFormed(u)
  {
    match u.kind
    case '?' => true
    case 'c' => v.Bytes? && |v.bs| == 1
    case 's' => v.Bytes?
    case 'f' => FloatFits(u.width, v)
    case 'd' => FloatFits(u.width, v)
    case _ => AsInteger(v).Some? && SignedFits(AsInteger(v).value, u.width)
  }

  /** A `?` item packs Python's truth value: 0.0 and -0.0 give a zero byte,
      any other float a one byte. */
  lemma FloatFlags(little: bool, bits: nat)
    ensures PackItem(Item('?', 1), little, Float(0)) == Ok([0])
    ensures PackItem(Item('?', 1), little, Float(0x8000_0000_0000_0000)) == Ok([0])
    ensures 0 < bits < 0x8000_0000_0000_0000 ==> PackItem(Item('?', 1), little, Float(bits)) == Ok([1])
  {
  }

  /** Packs one argument into its slot, or fails as `struct.pack` does. */
  function PackItem(u: Unit, little: bool, v: Value): (r: Result<seq<byte>>)
    requires u.Item? && WellFormed(u)
    ensures r.Ok? <==> Fits(u, v)
    ensures r.Ok? ==> |r.value| == u.width
  {
    match u.kind
    case '?' => Ok([if Truthy(v) then 1 else 0])
    case 'c' => if v.Bytes? && |v.bs| == 1 then Ok(v.bs) else Err(StructError)
    case 's' => if v.Bytes? then Ok(PadTrunc(v.bs, u.width)) else Err(StructError)
    case 'f' => PackFloat(u.width, little, v)
    case 'd' => PackFloat(u.width, little, v)
    case _ =>
      match AsInteger(v)
      case None => Err(StructError)
      case Some(i) => if SignedFits(i, u.width) then Ok(IntBytes(i, u.width, little)) else Err(StructError)
  }

  predicate FloatFits(w: nat, v: Value)
  {
    (v.Float? && v.bits < Pow256(w)) || v == Int(0) || v == Bool(false)
  }

  /** A float slot: a bit pattern that fits the slot's width is written as
      it is (for a 4-byte `f` slot it is taken as a 32-bit pattern, with no
      narrowing from double precision), and the integer 0 (or False) as the
      all-zero pattern of +0.0.  Any other number would need an IEEE-754
      conversion, which is outside the model; non-numbers are a
      `struct.error`. */
  function PackFloat(w: nat, little: bool, v: Value): (r: Result<seq<byte>>)
    ensures r.Ok? <==> FloatFits(w, v)
    ensures r.Ok? ==> |r.value| == w
  {
    match v
    case Float(bits) => if bits < Pow256(w) then Ok(UIntBytes(bits, w, little)) else Err(Unmodelled)
    case Int(i) => if i == 0 then Ok(Zeros(w)) else Err(Unmodelled)
    case Bool(b) => if !b then Ok(Zeros(w)) else Err(Unmodelled)
    case _ => Err(StructError)
  }

  /** Reads one item back from its bytes. */
  function UnpackItem(u: Unit, little: bool, bs: seq<byte>): Value
    requires u.Item? && WellFormed(u) && |bs| == u.width
  {
    match u.kind
    case '?' => Bool(bs[0] != 0)
    case 'c' => Bytes(bs)
    case 's' => Bytes(bs)
    case 'f' => Float(UIntOf(bs, little))
    case 'd' => Float(UIntOf(bs, little))
    case _ => Int(SignedOf(bs, little))
  }

  /** What an accepted argument comes back as: its truth value from `?`,
      padded or cut bytes from `s`, an integer from an integer slot (a bool
      becomes 0 or 1), and the +0.0 pattern for a zero put in a float slot. */
  function Normalized(u: Unit, v: Value): Value
    requires u.Item? && WellFormed(u)
  {
    match u.kind
    case '?' => Bool(Truthy(v))
    case 'c' => v
    case 's' => if v.Bytes? then Bytes(PadTrunc(v.bs, u.width)) else v
    case 'f' => if v.Float? then v else Float(0)
    case 'd' => if v.Float? then v else Float(0)
    case _ => if AsInteger(v).Some? then Int(AsInteger(v).value) else v
  }

  lemma ZerosValue(n: nat)
    ensures BigEndianValue(Zeros(n)) == 0
  {
    if n > 0 {
      assert Zeros(n)[..n - 1] == Zeros(n - 1);
      ZerosValue(n - 1);
    }
  }

  lemma ItemRoundTrip(u: Unit, little: bool, v: Value)
    requires u.Item? && WellFormed(u) && Fits(u, v)
    ensures UnpackItem(u, little, PackItem(u, little, v).value) == Normalized(u, v)
  {
    if u.kind in "hilq" {
      IntItemRoundTrip(u, little, v);
    } else if u.kind in "fd" {
      FloatItemRoundTrip(u, little, v);
    }
  }

  lemma IntItemRoundTrip(u: Unit, little: bool, v: Value)
    requires u.Item? && WellFormed(u) && Fits(u, v) && u.kind in "hilq"
    ensures UnpackItem(u, little, PackItem(u, little, v).value) == Normalized(u, v)
  {
    var i := AsInteger(v).value;
    assert PackItem(u, little, v).value == IntBytes(i, u.width, little);
    IntRoundTrip(i, u.width, little);
  }

  lemma FloatItemRoundTrip(u: Unit, little: bool, v: Value)
    requires u.Item? && WellFormed(u) && Fits(u, v) && u.kind in "fd"
    ensures UnpackItem(u, little, PackItem(u, little, v).value) == Normalized(u, v)
  {
    var bs := PackItem(u, little, v).value;
    assert bs == PackFloat(u.width, little, v).value;
    if v.Float? {
      UIntRoundTrip(v.bits, u.width, little);
    } else {
      assert bs == Zeros(u.width);
      assert Ordered(bs, little) == Zeros(u.width);
      ZerosValue(u.width);
    }
  }

  // ---------------------------------------------------------------------
  // Packing and unpacking a whole layout

  predicate AllWellFormed(units: seq<Unit>)
  {
    forall i :: 0 <= i < |units| ==> WellFormed(units[i])
  }

  function PackUnits(little: bool, units: seq<Unit>, args: seq<Value>): (r: Result<seq<byte>>)
    requires AllWellFormed(units) && ItemCount(units) == |args|
    ensures r.Ok? ==> |r.value| == Size(units)
  {
    if units == [] then Ok([])
    else if units[0].Pad? then
      match PackUnits(little, units[1..], args)
      case Err(e) => Err(e)
      case Ok(rest) => Ok([0] + rest)
    else
      match PackItem(units[0], little, args[0])
      case Err(e) => Err(e)
      case Ok(bs) =>
        match PackUnits(little, units[1..], args[1..])
        case Err(e) => Err(e)
        case Ok(rest) => Ok(bs + rest)
  }

  function UnpackUnits(little: bool, units: seq<Unit>, data: seq<byte>): (r: seq<Value>)
    requires AllWellFormed(units) && |data| == Size(units)
    ensures |r| == ItemCount(units)
  {
    if units == [] then []
    else if units[0].Pad? then UnpackUnits(little, units[1..], data[1..])
    else
      var w := units[0].width;
      [UnpackItem(units[0], little, data[..w])] + UnpackUnits(little, units[1..], data[w..])
  }

  /** Each argument in the form `unpack` gives it back, pad slots skipped. */
  function NormalizeAll(units: seq<Unit>, args: seq<Value>): (r: seq<Value>)
    requires AllWellFormed(units) && ItemCount(units) == |args|
    ensures |r| == |args|
  {
    if units == [] then []
    else if units[0].Pad? then NormalizeAll(units[1..], args)
    else [Normalized(units[0], args[0])] + NormalizeAll(units[1..], args[1..])
  }

  /** `Struct.pack(*args)`: the argument count must equal the item count. */
  function Pack(layout: Layout, args: seq<Value>): (r: Result<seq<byte>>)
    requires AllWellFormed(layout.units)
    ensures r.Ok? ==> |r.value| == Size(layout.units) && ItemCount(layout.units) == |args|
  {
    if ItemCount(layout.units) != |args| then Err(StructError)
    else PackUnits(layout.little, layout.units, args)
  }

  /** `Struct.unpack(data)`: the buffer must be exactly `size` bytes. */
  function Unpack(layout: Layout, data: seq<byte>): (r: Result<seq<Value>>)
    requires AllWellFormed(layout.units)
    ensures r.Ok? <==> |data| == Size(layout.units)
    ensures r.Ok? ==> |r.value| == ItemCount(layout.units)
  {
    if |data| != Size(layout.units) then Err(StructError)
    else Ok(UnpackUnits(layout.little, layout.units, data))
  }

  lemma {:induction false} UnitsRoundTrip(little: bool, units: seq<Unit>, args: seq<Value>)
    requires AllWellFormed(units) && ItemCount(units) == |args|
    requires PackUnits(little, units, args).Ok?
    ensures UnpackUnits(little, units, PackUnits(little, units, args).value) == NormalizeAll(units, args)
  {
    if units != [] {
      var data := PackUnits(little, units, args).value;
      if units[0].Pad? {
        assert data[1..] == PackUnits(little, units[1..], args).value;
        UnitsRoundTrip(little, units[1..], args);
      } else {
        var bs := PackItem(units[0], little, args[0]).value;
        var w := units[0].width;
        assert data[..w] == bs;
        assert data[w..] == PackUnits(little, units[1..], args[1..]).value;
        ItemRoundTrip(units[0], little, args[0]);
        UnitsRoundTrip(little, units[1..], args[1..]);
      }
    }
  }

  /** Round trip of `struct`: what `pack` produced, `unpack` reads back as
      the normalized arguments. */
  lemma PackUnpack(layout: Layout, args: seq<Value>)
    requires AllWellFormed(layout.units) && Pack(layout, args).Ok?
    ensures Unpack(layout, Pack(layout, args).value) == Ok(NormalizeAll(layout.units, args))
  {
    UnitsRoundTrip(layout.little, layout.units, args);
  }

  /** `pack` succeeds exactly when the argument count matches and every
      argument fits its slot. */
  lemma {:induction false} PackUnitsOk(little: bool, units: seq<Unit>, args: seq<Value>)
    requires AllWellFormed(units) && ItemCount(units) == |args|
    ensures PackUnits(little, units, args).Ok? <==> AllFit(units, args)
  {
    if units != [] {
      if units[0].Pad? {
        PackUnitsOk(little, units[1..], args);
      } else {
        PackUnitsOk(little, units[1..], args[1..]);
      }
    }
  }

  predicate AllFit(units: seq<Unit>, args: seq<Value>)
    requires AllWellFormed(units) && ItemCount(units) == |args|
  {
    if units == [] then true
    else if units[0].Pad? then AllFit(units[1..], args)
    else Fits(units[0], args[0]) && AllFit(units[1..], args[1..])
  }

  /** The same condition read slot by slot: argument j fits item j. */
  lemma {:induction false} AllFitItems(units: seq<Unit>, args: seq<Value>)
    requires AllWellFormed(units) && ItemCount(units) == |args|
    ensures AllFit(units, args) <==> forall j :: 0 <= j < |args| ==> Fits(Items(units)[j], args[j])
  {
    if units != [] {
      if units[0].Pad? {
        AllFitItems(units[1..], args);
      } else {
        AllFitItems(units[1..], args[1..]);
        var its := Items(units);
        assert its == [units[0]] + Items(units[1..]);
        assert forall j :: 1 <= j < |args| ==> its[j] == Items(units[1..])[j - 1] && args[j] == args[1..][j - 1];
      }
    }
  }
}
