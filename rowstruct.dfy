/** The row codec of toydb (`RowStruct`): a schema of column types turned
    into a `struct` format with a presence flag in front of every column,
    and rows packed to and unpacked from fixed-size records. */
module RowStruct {
  import opened Base
  import opened Text
  import Utf8
  import PyStruct

  /** A row as `unpack` returns it: one value per column, `Null` where the
      column holds no value. */
  type Row = seq<Value>

  /** What `pack` accepts: the values in column order, or a mapping from
      column names to values. */
  datatype RowArg = ListRow(values: seq<Value>) | DictRow(entries: map<string, Value>)

  /** Characters allowed in a format after its byte-order prefix. */
  const ValidChars := "xc?hilqfds0123456789"

  /** The byte-order prefixes of `struct`. */
  const EndianChars := "@=<>!"

  // ---------------------------------------------------------------------
  // Text columns

  /** `_encode`: `None` becomes empty bytes and a string its UTF-8 bytes;
      any other object has no `encode` method. */
  function EncodeText(v: Value): (r: Result<Value>)
    ensures r.Ok? <==> v.Null? || v.Str?
    ensures r.Ok? ==> r.value.Bytes?
    ensures v.Null? ==> r == Ok(Bytes([]))
  {
    match v
    case Null => Ok(Bytes([]))
    case Str(s) => Ok(Bytes(Utf8.Encode(s)))
    case _ => Err(AttributeError)
  }

  /** `bytes.rstrip(b'\x00')`. */
  function StripRight(bs: seq<byte>): (r: seq<byte>)
    ensures |r| <= |bs| && r == bs[..|r|]
    ensures r == [] || r[|r| - 1] != 0
    ensures forall i :: |r| <= i < |bs| ==> bs[i] == 0
  {
    if bs != [] && bs[|bs| - 1] == 0 then StripRight(bs[..|bs| - 1]) else bs
  }

  /** `bytes.lstrip(b'\x00')`. */
  function StripLeft(bs: seq<byte>): (r: seq<byte>)
    ensures |r| <= |bs| && r == bs[|bs| - |r|..]
    ensures r == [] || r[0] != 0
    ensures forall i :: 0 <= i < |bs| - |r| ==> bs[i] == 0
  {
    if bs != [] && bs[0] == 0 then StripLeft(bs[1..]) else bs
  }

  /** `bytes.strip(b'\x00')`: zero bytes removed from both ends. */
  function StripNul(bs: seq<byte>): seq<byte>
  {
    StripLeft(StripRight(bs))
  }

  /** `_decode`: strips zero bytes from both ends and decodes UTF-8 strictly;
      objects other than bytes have no `strip` method. */
  function DecodeText(v: Value): (r: Result<Value>)
    ensures r.Ok? ==> v.Bytes? && r.value.Str?
    ensures r.Ok? ==> Utf8.Decode(StripNul(v.bs)) == Ok(r.value.s)
  {
    match v
    case Bytes(bs) =>
      (match Utf8.Decode(StripNul(bs))
       case Ok(s) => Ok(Str(s))
       case Err(_) => Err(UnicodeDecodeError))
    case _ => Err(AttributeError)
  }

  /** A string the text slot of width w stores without loss: its encoding
      fits the slot and neither starts nor ends with a NUL character,
      which the zero padding could not be told apart from. */
  predicate TextFits(s: string, w: nat)
  {
    |Utf8.Encode(s)| <= w && (s != [] ==> s[0] != '\0' && s[|s| - 1] != '\0')
  }

  lemma StripRightPadded(bs: seq<byte>, n: nat)
    requires bs == [] || bs[|bs| - 1] != 0
    ensures StripRight(bs + PyStruct.Zeros(n)) == bs
  {
    if n > 0 {
      var x := bs + PyStruct.Zeros(n - 1);
      assert bs + PyStruct.Zeros(n) == x + [0];
      assert (x + [0])[..|x|] == x;
      StripRightPadded(bs, n - 1);
    }
  }

  lemma StripLeftClean(bs: seq<byte>)
    requires bs == [] || bs[0] != 0
    ensures StripLeft(bs) == bs
  {
  }

  /** Zero padding, stripped again, gives back bytes that neither start
      nor end with a zero byte. */
  lemma StripPadded(e: seq<byte>, w: nat)
    requires |e| <= w && (e == [] || (e[0] != 0 && e[|e| - 1] != 0))
    ensures StripNul(PyStruct.PadTrunc(e, w)) == e
  {
    assert PyStruct.PadTrunc(e, w) == e + PyStruct.Zeros(w - |e|);
    StripRightPadded(e, w - |e|);
    StripLeftClean(e);
  }

  /** A string written into a text slot it fits reads back unchanged. */
  lemma TextRoundTrip(s: string, w: nat)
    requires TextFits(s, w)
    ensures DecodeText(Bytes(PyStruct.PadTrunc(Utf8.Encode(s), w))) == Ok(Str(s))
  {
    if s != [] {
      Utf8.EncodeEdges(s);
    }
    StripPadded(Utf8.Encode(s), w);
    Utf8.DecodeEncode(s);
  }

  /** An empty text slot (all zero bytes) reads back as the empty string. */
  lemma EmptyTextSlot(w: nat)
    ensures DecodeText(Bytes(PyStruct.Zeros(w))) == Ok(Str([]))
  {
    StripRightPadded([], w);
    assert [] + PyStruct.Zeros(w) == PyStruct.Zeros(w);
    Utf8.DecodeEncode([]);
  }

  // ---------------------------------------------------------------------
  // Placeholder values for absent columns

  /** `_getDefault` as written: 0 for `i l f d`, empty bytes for `c` and
      `s`, False for `?`, and `None` for everything else (`h`, `q`, `x`). */
  function DefaultAsWritten(t: string): (r: Value)
    ensures r.Null? <==> forall c :: c in t ==> c !in "ilfdcs?"
  {
    if 'i' in t || 'l' in t || 'f' in t || 'd' in t then Int(0)
    else if 'c' in t || 's' in t then Bytes([])
    else if '?' in t then Bool(false)
    else Null
  }

  /** `_getDefault` corrected, the placeholder the codec packs in place of
      an absent value: the integer 0 for every numeric column, empty bytes
      for text, one zero byte for `c`, False for `?`. */
  function Default(t: string): (r: Value)
    ensures 's' in t ==> r == Int(0) || r == Bytes([])
    ensures r.Null? <==> forall c :: c in t ==> c !in "ilfdhqsc?"
  {
    if 'i' in t || 'l' in t || 'f' in t || 'd' in t || 'h' in t || 'q' in t then Int(0)
    else if 's' in t then Bytes([])
    else if 'c' in t then Bytes([0])
    else if '?' in t then Bool(false)
    else Null
  }

  // ---------------------------------------------------------------------
  // The format string

  /** Each column type with a `?` presence flag in front, concatenated. */
  function Flagged(types: seq<string>): (r: string)
    ensures types != [] ==> |r| > 0 && r[0] == '?'
  {
    if types == [] then "" else "?" + types[0] + Flagged(types[1..])
  }

  /** A column type with a character outside the alphabet makes `_makeFmt`
      raise `SchemaError` for the first character of `fmt[1:]` outside the
      alphabet, whatever the prefix, both as written and corrected. */
  lemma InvalidColumnRejected(endian: string, types: seq<string>, k: nat, i: nat)
    requires k < |types| && i < |types[k]| && types[k][i] !in ValidChars
    ensures FirstInvalid(Tail(endian + Flagged(types))).Some?
    ensures FormatResultAsWritten(endian, types) == Err(SchemaError(FirstInvalid(Tail(endian + Flagged(types))).value))
    ensures FormatResult(endian, types) == Err(SchemaError(FirstInvalid(Tail(endian + Flagged(types))).value))
  {
    var off := FlaggedAt(types, k);
    var flagged := Flagged(types);
    var fmt := endian + flagged;
    var p := |endian| + off + i;
    assert fmt[p] == flagged[off + i];
    assert Tail(fmt)[p - 1] == fmt[p];
  }

  /** Where column `k` sits in the flagged types: right after its flag. */
  lemma {:induction false} FlaggedAt(types: seq<string>, k: nat) returns (off: nat)
    requires k < |types|
    ensures 1 <= off && off + |types[k]| <= |Flagged(types)|
    ensures Flagged(types)[off - 1] == '?'
    ensures forall i :: 0 <= i < |types[k]| ==> Flagged(types)[off + i] == types[k][i]
  {
    var head := "?" + types[0];
    var rest := Flagged(types[1..]);
    assert Flagged(types) == head + rest;
    if k == 0 {
      off := 1;
    } else {
      var o := FlaggedAt(types[1..], k - 1);
      off := |head| + o;
    }
  }

  /** `fmt[1:]`: the format after its first character. */
  function Tail(s: string): string
  {
    if s == [] then [] else s[1..]
  }

  /** The first character of s outside the allowed set, if any. */
  function FirstInvalid(s: string): (r: Option<char>)
    ensures r.None? <==> forall i :: 0 <= i < |s| ==> s[i] in ValidChars
    ensures r.Some? ==> r.value in s && r.value !in ValidChars
  {
    if s == [] then None
    else if s[0] !in ValidChars then Some(s[0])
    else FirstInvalid(s[1..])
  }

  /** A column type the codec can use: it compiles, on its own, to exactly
      one `struct` item, so that flags and values alternate. */
  predicate SingleItem(t: string)
  {
    PyStruct.ParseCodes(t).Ok? && |PyStruct.Items(PyStruct.Expand(PyStruct.ParseCodes(t).value))| == 1
  }

  /** The single item a usable column type compiles to. */
  function TokenItem(t: string): (u: PyStruct.Unit)
    requires SingleItem(t)
    ensures u.Item? && PyStruct.WellFormed(u)
  {
    PyStruct.Items(PyStruct.Expand(PyStruct.ParseCodes(t).value))[0]
  }

  /** `_makeFmt` as written: the character check, then a parity check on
      the whole format, then a length check. */
  function FormatResultAsWritten(endian: string, types: seq<string>): (r: Result<string>)
    ensures r.Ok? ==> r.value == endian + Flagged(types) && |r.value| % 2 == 1
  {
    var fmt := endian + Flagged(types);
    match FirstInvalid(Tail(fmt))
    case Some(c) => Err(SchemaError(c))
    case None =>
      if |fmt| % 2 != 1 then Err(AssertionError)
      else if |fmt| <= 1 then Err(AssertionError)
      else Ok(fmt)
  }

  /** `_makeFmt` with the parity check replaced by what it stands for:
      every column type compiles to exactly one item. */
  function FormatResult(endian: string, types: seq<string>): (r: Result<string>)
    ensures r.Ok? ==> r.value == endian + Flagged(types) && |r.value| > 1
    ensures r.Ok? ==> AllSingle(types)
    ensures r.Ok? ==> forall i :: 0 <= i < |Tail(r.value)| ==> Tail(r.value)[i] in ValidChars
  {
    var fmt := endian + Flagged(types);
    match FirstInvalid(Tail(fmt))
    case Some(c) => Err(SchemaError(c))
    case None =>
      if !AllSingle(types) then Err(AssertionError)
      else if |fmt| <= 1 then Err(AssertionError)
      else Ok(fmt)
  }

  /** `_makeFmt` as written: builds the format, scans it character by
      character, then checks its parity and its length. */
  method MakeFmt(endian: string, types: seq<string>) returns (r: Result<string>)
    ensures r == FormatResultAsWritten(endian, types)
  {
    var fmt := endian + Flagged(types);
    var body := Tail(fmt);
    var j := 0;
    while j < |body|
      invariant 0 <= j <= |body|
      invariant FirstInvalid(body) == FirstInvalid(body[j..])
    {
      if body[j] !in ValidChars {
        return Err(SchemaError(body[j]));
      }
      assert body[j..][1..] == body[j + 1..];
      j := j + 1;
    }
    if |fmt| % 2 != 1 {
      return Err(AssertionError);
    }
    if |fmt| <= 1 {
      return Err(AssertionError);
    }
    return Ok(fmt);
  }

  /** Each flagged column adds its flag and its type, so columns of odd
      length add an even number of characters. */
  lemma {:induction false} FlaggedEven(types: seq<string>)
    requires forall k :: 0 <= k < |types| ==> |types[k]| % 2 == 1
    ensures |Flagged(types)| % 2 == 0
  {
    if types != [] {
      FlaggedEven(types[1..]);
      assert |Flagged(types)| == 1 + |types[0]| + |Flagged(types[1..])|;
    }
  }

  /** The parity check and the check it stands for agree on schemas of
      single-item columns of odd length behind a prefix of odd length (a
      one-character byte order). */
  lemma FormatAgrees(endian: string, types: seq<string>)
    requires |endian| % 2 == 1 && AllSingle(types)
    requires forall k :: 0 <= k < |types| ==> |types[k]| % 2 == 1
    ensures FormatResultAsWritten(endian, types) == FormatResult(endian, types)
  {
    FlaggedEven(types);
    OddSum(|endian|, |Flagged(types)|);
    assert |endian + Flagged(types)| % 2 == 1;
  }

  lemma OddSum(a: nat, b: nat)
    requires a % 2 == 1 && b % 2 == 0
    ensures (a + b) % 2 == 1
  {
  }

  /** The two placeholders agree on every column type without `h`, `q`
      or `c`. */
  lemma DefaultAgrees(t: string)
    requires 'h' !in t && 'q' !in t && 'c' !in t
    ensures DefaultAsWritten(t) == Default(t)
  {
  }

  /** The parity check lets through a schema whose columns are two items
      each: `["ii", "ii"]` gives `>?ii?ii`, seven characters, and is
      accepted; the corrected check refuses it. */
  lemma DoubleItemAsWritten()
    ensures FormatResultAsWritten(">", ["ii", "ii"]) == Ok(">?ii?ii")
    ensures FormatResult(">", ["ii", "ii"]) == Err(AssertionError)
  {
    var types := ["ii", "ii"];
    FlaggedPair("ii", "ii");
    assert ">" + Flagged(types) == ">?ii?ii";
    assert Tail(">?ii?ii") == "?ii?ii";
    FormatChecksPass(">", types);
    DoubleItemToken();
    assert !AllSingle(types);
  }

  /** The parity check lets through a bare count: `["5"]` gives `>?5`,
      which `struct.Struct` then refuses; the corrected check refuses the
      schema itself. */
  lemma BareCountAsWritten()
    ensures FormatResultAsWritten(">", ["5"]) == Ok(">?5")
    ensures PyStruct.Compile(">?5").Err?
    ensures FormatResult(">", ["5"]) == Err(AssertionError)
  {
    var types := ["5"];
    FlaggedSingle("5");
    assert ">" + Flagged(types) == ">?5";
    assert Tail(">?5") == "?5";
    FormatChecksPass(">", types);
    BareCountRejected();
    assert "?5"[1..] == "5";
    assert !AllSingle(types);
  }

  /** A format of valid characters and odd length passes `_makeFmt` as
      written. */
  lemma FormatChecksPass(endian: string, types: seq<string>)
    requires forall i :: 0 <= i < |Tail(endian + Flagged(types))| ==> Tail(endian + Flagged(types))[i] in ValidChars
    requires |endian + Flagged(types)| % 2 == 1 && |endian + Flagged(types)| > 1
    ensures FormatResultAsWritten(endian, types) == Ok(endian + Flagged(types))
    ensures FirstInvalid(Tail(endian + Flagged(types))).None?
  {
  }

  lemma FlaggedSingle(t: string)
    ensures Flagged([t]) == "?" + t
  {
    assert [t][1..] == [];
  }

  lemma FlaggedPair(t: string, u: string)
    ensures Flagged([t, u]) == "?" + t + "?" + u
  {
    assert [t, u][1..] == [u];
    FlaggedSingle(u);
  }

  /** `ii` is two items. */
  lemma DoubleItemToken()
    ensures !SingleItem("ii")
  {
    assert "ii"[1..] == "i" && "i"[1..] == "";
    assert PyStruct.LeadingDigits("ii") == 0 && PyStruct.LeadingDigits("i") == 0;
    var codes := [PyStruct.Code(1, 'i'), PyStruct.Code(1, 'i')];
    assert PyStruct.FirstCode("ii") == Some((PyStruct.Code(1, 'i'), 1));
    assert PyStruct.FirstCode("i") == Some((PyStruct.Code(1, 'i'), 1));
    assert PyStruct.ParseCodes("") == Ok([]);
    var one := PyStruct.ParseCodes("i");
    assert one == Ok([PyStruct.Code(1, 'i')] + []);
    assert codes[1..] == [PyStruct.Code(1, 'i')] + [];
    var two := PyStruct.ParseCodes("ii");
    assert two == Ok([PyStruct.Code(1, 'i')] + one.value);
    assert PyStruct.Expand(codes[1..]) == [PyStruct.Item('i', 4)];
    assert PyStruct.Expand(codes) == [PyStruct.Item('i', 4), PyStruct.Item('i', 4)];
  }

  /** `struct.Struct(">?5")` fails: the count 5 has no format character. */
  lemma BareCountRejected()
    ensures PyStruct.Compile(">?5").Err?
  {
    assert ">?5"[1..] == "?5" && "?5"[1..] == "5";
    assert PyStruct.LeadingDigits("5") == 1;
    assert PyStruct.ParseCodes("5").Err?;
    assert PyStruct.LeadingDigits("?5") == 0;
    assert PyStruct.ParseCodes("?5").Err?;
  }

  // ---------------------------------------------------------------------
  // The compiled layout

  /** What `__init__` keeps of a schema: the format and its compiled struct. */
  datatype Compiled = Compiled(format: string, layout: PyStruct.Layout)

  /** The checks and compilation of `__init__`: at least one column, a
      byte-order prefix that is a substring of `@=<>!` (so the empty
      string passes), the format checks, and `struct.Struct(format)`. */
  function Build(types: seq<string>, endian: string): (r: Result<Compiled>)
    ensures r.Ok? ==> PyStruct.AllWellFormed(r.value.layout.units)
    ensures r.Ok? ==> FormatResult(endian, types) == Ok(r.value.format)
  {
    if |types| == 0 then Err(AssertionError)
    else if !IsSubstring(endian, EndianChars) then Err(AssertionError)
    else
      match FormatResult(endian, types)
      case Err(e) => Err(e)
      case Ok(fmt) =>
        match PyStruct.Compile(fmt)
        case Err(e) => Err(e)
        case Ok(layout) => Ok(Compiled(fmt, layout))
  }

  /** Every column type compiles to exactly one item. */
  predicate AllSingle(types: seq<string>)
  {
    forall i :: 0 <= i < |types| ==> SingleItem(types[i])
  }

  /** The item of each column. */
  function Tokens(types: seq<string>): (r: seq<PyStruct.Unit>)
    requires AllSingle(types)
    ensures |r| == |types|
    ensures forall i :: 0 <= i < |types| ==> r[i] == TokenItem(types[i])
  {
    seq(|types|, i requires 0 <= i < |types| => TokenItem(types[i]))
  }

  lemma TokensCons(types: seq<string>)
    requires AllSingle(types) && types != []
    ensures AllSingle(types[1..])
    ensures Tokens(types) == [TokenItem(types[0])] + Tokens(types[1..])
  {
    assert forall i :: 0 <= i < |types| - 1 ==> types[1..][i] == types[i + 1];
  }

  /** Items with a one-byte `?` flag item in front of each. */
  function WithFlags(items: seq<PyStruct.Unit>): (r: seq<PyStruct.Unit>)
    ensures |r| == 2 * |items|
  {
    if items == [] then [] else [PyStruct.Item('?', 1)] + [items[0]] + WithFlags(items[1..])
  }

  lemma {:induction false} WithFlagsAt(items: seq<PyStruct.Unit>, i: nat)
    requires i < |items|
    ensures WithFlags(items)[2 * i] == PyStruct.Item('?', 1)
    ensures WithFlags(items)[2 * i + 1] == items[i]
  {
    if i > 0 {
      WithFlagsAt(items[1..], i - 1);
    }
  }

  lemma FlagParse(t: string)
    requires PyStruct.ParseCodes(t).Ok?
    ensures PyStruct.ParseCodes("?" + t) == Ok([PyStruct.Code(1, '?')] + PyStruct.ParseCodes(t).value)
  {
    assert ("?" + t)[1..] == t;
    assert PyStruct.LeadingDigits("?" + t) == 0;
  }

  lemma FlagItems()
    ensures PyStruct.Items(PyStruct.Expand([PyStruct.Code(1, '?')])) == [PyStruct.Item('?', 1)]
  {
    assert PyStruct.Expand([PyStruct.Code(1, '?')]) == [PyStruct.Item('?', 1)];
  }

  /** The flagged format body parses, and its items alternate flag and column. */
  lemma {:induction false} FlaggedItems(types: seq<string>)
    requires AllSingle(types)
    ensures PyStruct.ParseCodes(Flagged(types)).Ok?
    ensures PyStruct.Items(PyStruct.Expand(PyStruct.ParseCodes(Flagged(types)).value)) == WithFlags(Tokens(types))
  {
    if types != [] {
      var t := types[0];
      var rest := Flagged(types[1..]);
      TokensCons(types);
      FlaggedItems(types[1..]);
      FlagParse(t);
      PyStruct.ParseCodesAppend("?" + t, rest);
      var flag := [PyStruct.Code(1, '?')];
      var ct := PyStruct.ParseCodes(t).value;
      var cr := PyStruct.ParseCodes(rest).value;
      assert PyStruct.ParseCodes(Flagged(types)).value == (flag + ct) + cr;
      PyStruct.ExpandAppend(flag + ct, cr);
      PyStruct.ExpandAppend(flag, ct);
      PyStruct.ItemsAppend(PyStruct.Expand(flag) + PyStruct.Expand(ct), PyStruct.Expand(cr));
      PyStruct.ItemsAppend(PyStruct.Expand(flag), PyStruct.Expand(ct));
      FlagItems();
      assert PyStruct.Items(PyStruct.Expand(ct)) == [TokenItem(t)];
    }
  }

  /** A built schema compiles to exactly the alternating flag and column
      items, and its format is the prefix followed by the flagged types. */
  lemma BuildItems(types: seq<string>, endian: string)
    requires Build(types, endian).Ok?
    ensures AllSingle(types)
    ensures Build(types, endian).value.format == endian + Flagged(types)
    ensures PyStruct.Items(Build(types, endian).value.layout.units) == WithFlags(Tokens(types))
    ensures Build(types, endian).value.layout.little <==> endian == [] || endian[0] in "@=<"
  {
    var body := BuildParts(types, endian);
    PrefixAtMostOne(endian, body);
    FlaggedItems(types);
    CompilePrefixed(endian, body);
    var layout := PyStruct.Compile(endian + body).value;
    assert Build(types, endian).value.layout == layout;
    assert layout.units == PyStruct.Expand(PyStruct.ParseCodes(body).value);
  }

  lemma BuildParts(types: seq<string>, endian: string) returns (body: string)
    requires Build(types, endian).Ok?
    ensures body == Flagged(types) && types != [] && IsSubstring(endian, EndianChars)
    ensures ValidToken(Tail(endian + body)) && AllSingle(types)
    ensures PyStruct.Compile(endian + body).Ok?
    ensures Build(types, endian).value == Compiled(endian + body, PyStruct.Compile(endian + body).value)
  {
    body := Flagged(types);
    assert FormatResult(endian, types) == Ok(endian + body);
  }

  /** A format of at most one order character and a body that starts with
      no order character compiles the body in the byte order the prefix
      selects. */
  lemma CompilePrefixed(endian: string, body: string)
    requires |endian| <= 1 && (|endian| == 1 ==> endian[0] in EndianChars)
    requires body != [] && body[0] !in EndianChars
    ensures PyStruct.ParseCodes(body).Ok? ==>
      PyStruct.Compile(endian + body) == Ok(PyStruct.Layout(endian == [] || endian[0] in "@=<", PyStruct.Expand(PyStruct.ParseCodes(body).value)))
  {
    var fmt := endian + body;
    if |endian| == 1 {
      assert fmt[0] == endian[0];
      assert fmt[1..] == body;
    } else {
      assert fmt == body;
    }
  }

  /** A prefix that passed both checks is empty or a single order character. */
  lemma PrefixAtMostOne(endian: string, body: string)
    requires IsSubstring(endian, EndianChars) && body != []
    requires ValidToken(Tail(endian + body))
    ensures |endian| <= 1
    ensures |endian| == 1 ==> endian[0] in EndianChars
  {
    SubstringChars(endian, EndianChars);
    OrderCharsInvalid(endian);
    SecondChar(endian, body);
  }

  lemma OrderCharsInvalid(endian: string)
    requires forall k :: 0 <= k < |endian| ==> endian[k] in EndianChars
    ensures forall k :: 0 <= k < |endian| ==> endian[k] !in ValidChars
  {
  }

  lemma SecondChar(endian: string, body: string)
    ensures |endian| >= 2 ==> Tail(endian + body)[0] == endian[1]
  {
  }

  /** With the corrected checks, `struct.Struct` never rejects a format
      that `_makeFmt` let through. */
  lemma BuildOk(types: seq<string>, endian: string)
    ensures Build(types, endian).Ok? <==>
      |types| > 0 && IsSubstring(endian, EndianChars) && FormatResult(endian, types).Ok?
  {
    if |types| > 0 && IsSubstring(endian, EndianChars) && FormatResult(endian, types).Ok? {
      FormatCompiles(types, endian);
    }
  }

  /** The format of a schema that passed the checks compiles. */
  lemma FormatCompiles(types: seq<string>, endian: string)
    requires |types| > 0 && IsSubstring(endian, EndianChars) && FormatResult(endian, types).Ok?
    ensures PyStruct.Compile(endian + Flagged(types)).Ok?
  {
    var fmt := endian + Flagged(types);
    PrefixAtMostOne(endian, Flagged(types));
    FlaggedItems(types);
    if |endian| == 1 {
      assert fmt[1..] == Flagged(types);
    } else {
      assert fmt == Flagged(types);
    }
  }

  /** A column holding text: a `s` somewhere in its type. */
  lemma {:induction false} CodesCoverKind(s: string, codes: seq<PyStruct.Code>, i: nat) returns (j: nat)
    requires PyStruct.ParseCodes(s) == Ok(codes) && i < |s| && !IsDigit(s[i])
    ensures j < |codes| && codes[j].kind == s[i]
    decreases |s|, 1
  {
    var n := PyStruct.FirstCode(s).value.1;
    var rest := PyStruct.ParseCodes(s[n..]).value;
    DigitPrefix(s, n - 1, i);
    if i == n - 1 {
      j := 0;
    } else {
      j := CodesCoverLater(s, codes, i, n, rest);
    }
  }

  /** The case of `CodesCoverKind` where the character lies beyond the
      first directive. */
  lemma {:induction false} CodesCoverLater(s: string, codes: seq<PyStruct.Code>, i: nat, n: nat, rest: seq<PyStruct.Code>) returns (j: nat)
    requires 1 <= n <= i < |s| && !IsDigit(s[i])
    requires PyStruct.ParseCodes(s[n..]) == Ok(rest)
    requires |codes| == 1 + |rest| && codes[1..] == rest
    ensures j < |codes| && codes[j].kind == s[i]
    decreases |s|, 0
  {
    assert s[n..][i - n] == s[i];
    var r := CodesCoverKind(s[n..], rest, i - n);
    assert codes[r + 1] == rest[r];
    j := r + 1;
  }

  lemma DigitPrefix(s: string, m: nat, i: nat)
    requires m <= |s| && AllDigits(s[..m]) && i <= |s|
    ensures i < m ==> IsDigit(s[i])
  {
    if i < m {
      assert s[..m][i] == s[i];
    }
  }

  lemma ExpandSingle(c: PyStruct.Code)
    requires c.kind in PyStruct.FormatChars
    ensures PyStruct.Expand([c]) == PyStruct.UnitsOf(c)
  {
    assert [c][1..] == [];
  }

  lemma {:induction false} TextCodeItem(codes: seq<PyStruct.Code>, j: nat)
    requires PyStruct.KnownCodes(codes) && j < |codes| && codes[j].kind == 's'
    ensures PyStruct.Item('s', codes[j].count) in PyStruct.Items(PyStruct.Expand(codes))
  {
    var head, tail := PyStruct.UnitsOf(codes[0]), PyStruct.Expand(codes[1..]);
    assert PyStruct.Expand(codes) == head + tail;
    PyStruct.ItemsAppend(head, tail);
    if j == 0 {
      assert PyStruct.Items(head) == head;
    } else {
      assert PyStruct.KnownCodes(codes[1..]);
      assert codes[1..][j - 1] == codes[j];
      TextCodeItem(codes[1..], j - 1);
    }
  }

  /** A usable column type with an `s` in it compiles to a text item. */
  lemma TextColumnItem(t: string)
    requires SingleItem(t) && 's' in t
    ensures TokenItem(t).kind == 's'
  {
    var codes := PyStruct.ParseCodes(t).value;
    var items := PyStruct.Items(PyStruct.Expand(codes));
    var u := TextCodesItem(t, codes);
    assert u in items && |items| == 1;
  }

  /** A type with an `s` in it that parses has a text item. */
  lemma TextCodesItem(t: string, codes: seq<PyStruct.Code>) returns (u: PyStruct.Unit)
    requires PyStruct.ParseCodes(t) == Ok(codes) && 's' in t
    ensures u.Item? && u.kind == 's' && u in PyStruct.Items(PyStruct.Expand(codes))
  {
    var i :| 0 <= i < |t| && t[i] == 's';
    var j := CodesCoverKind(t, codes, i);
    TextCodeItem(codes, j);
    u := PyStruct.Item('s', codes[j].count);
  }

  // ---------------------------------------------------------------------
  // Rows

  function Min(a: nat, b: nat): nat
  {
    if a <= b then a else b
  }

  /** The value `pack` hands to the column's item: the encoded text for a
      text column (encoding every value, present or not), and the column's
      placeholder when the value is `None`. */
  function Slot(strRow: bool, dflt: Value, v: Value): (r: Result<Value>)
    ensures r.Ok? ==> r.value == (if v.Null? then dflt else if strRow && v.Str? then Bytes(Utf8.Encode(v.s)) else v)
    ensures r.Err? <==> strRow && !v.Null? && !v.Str?
  {
    if strRow then
      match EncodeText(v)
      case Err(e) => Err(e)
      case Ok(e) => Ok(if v != Null then e else dflt)
    else Ok(if v != Null then v else dflt)
  }

  /** The argument list of `pack`: a presence flag and the column's slot
      value, column after column, for as many columns as both the schema
      and the row have; the first value that fails to encode stops it. */
  function Interleave(strRows: seq<bool>, defaults: seq<Value>, values: seq<Value>): (r: Result<seq<Value>>)
    requires |strRows| == |defaults|
    ensures r.Ok? ==> |r.value| == 2 * Min(|strRows|, |values|)
  {
    if strRows == [] || values == [] then Ok([])
    else
      match Slot(strRows[0], defaults[0], values[0])
      case Err(e) => Err(e)
      case Ok(slot) =>
        match Interleave(strRows[1..], defaults[1..], values[1..])
        case Err(e) => Err(e)
        case Ok(rest) => Ok([Bool(values[0] != Null), slot] + rest)
  }

  lemma {:induction false} InterleaveAt(strRows: seq<bool>, defaults: seq<Value>, values: seq<Value>, i: nat)
    requires |strRows| == |defaults| && Interleave(strRows, defaults, values).Ok?
    requires i < Min(|strRows|, |values|)
    ensures Interleave(strRows, defaults, values).value[2 * i] == Bool(values[i] != Null)
    ensures Slot(strRows[i], defaults[i], values[i]).Ok?
    ensures Interleave(strRows, defaults, values).value[2 * i + 1] == Slot(strRows[i], defaults[i], values[i]).value
  {
    if i > 0 {
      InterleaveAt(strRows[1..], defaults[1..], values[1..], i - 1);
    }
  }

  /** Interleaving fails exactly when some zipped value fails to encode. */
  lemma {:induction false} InterleaveOk(strRows: seq<bool>, defaults: seq<Value>, values: seq<Value>)
    requires |strRows| == |defaults|
    ensures Interleave(strRows, defaults, values).Ok? <==>
      forall i :: 0 <= i < Min(|strRows|, |values|) ==> Slot(strRows[i], defaults[i], values[i]).Ok?
  {
    if strRows != [] && values != [] {
      InterleaveOk(strRows[1..], defaults[1..], values[1..]);
      var m := Min(|strRows|, |values|);
      assert forall i :: 1 <= i < m ==> strRows[1..][i - 1] == strRows[i] && defaults[1..][i - 1] == defaults[i] && values[1..][i - 1] == values[i];
    }
  }

  /** What `unpack` makes of one column: a text column is decoded whether
      or not it holds a value, then a false flag turns it into `None`. */
  function Cell(strRow: bool, flag: Value, stored: Value): (r: Result<Value>)
    ensures r.Ok? && !Truthy(flag) ==> r.value == Null
  {
    var d := if strRow then DecodeText(stored) else Ok(stored);
    if d.Err? then d else Ok(if Truthy(flag) then d.value else Null)
  }

  /** The cells of a row, for as many columns as the schema, the flags and
      the values all have; the first text that fails to decode stops it. */
  function Restore(strRows: seq<bool>, flags: seq<Value>, vals: seq<Value>): (r: Result<Row>)
    ensures r.Ok? ==> |r.value| == Min(|strRows|, Min(|flags|, |vals|))
  {
    if strRows == [] || flags == [] || vals == [] then Ok([])
    else
      match Cell(strRows[0], flags[0], vals[0])
      case Err(e) => Err(e)
      case Ok(c) =>
        match Restore(strRows[1..], flags[1..], vals[1..])
        case Err(e) => Err(e)
        case Ok(rest) => Ok([c] + rest)
  }

  lemma {:induction false} RestoreOk(strRows: seq<bool>, flags: seq<Value>, vals: seq<Value>)
    requires |flags| == |strRows| && |vals| == |strRows|
    requires forall i :: 0 <= i < |strRows| ==> Cell(strRows[i], flags[i], vals[i]).Ok?
    ensures Restore(strRows, flags, vals).Ok?
    ensures forall i :: 0 <= i < |strRows| ==>
      Restore(strRows, flags, vals).value[i] == Cell(strRows[i], flags[i], vals[i]).value
  {
    if strRows != [] {
      var m := |strRows|;
      assert forall i :: 1 <= i < m ==> strRows[1..][i - 1] == strRows[i] && flags[1..][i - 1] == flags[i] && vals[1..][i - 1] == vals[i];
      RestoreOk(strRows[1..], flags[1..], vals[1..]);
      var r := Restore(strRows, flags, vals).value;
      assert forall i :: 1 <= i < m ==> r[i] == Restore(strRows[1..], flags[1..], vals[1..]).value[i - 1];
    }
  }

  /** Restoring the flag and value pairs of `b` gives the expected cells
      when every pair restores to its cell. */
  lemma RestorePairs(strRows: seq<bool>, b: seq<Value>, expected: seq<Value>)
    requires |b| == 2 * |strRows| && |expected| == |strRows|
    requires forall i :: 0 <= i < |strRows| ==> Cell(strRows[i], b[2 * i], b[2 * i + 1]) == Ok(expected[i])
    ensures Restore(strRows, Evens(b), Odds(b)) == Ok(expected)
  {
    var n := |strRows|;
    Halves(n);
    var flags, cells := Evens(b), Odds(b);
    assert |flags| == n && |cells| == n && Min(n, Min(n, n)) == n;
    forall i | 0 <= i < n
      ensures Cell(strRows[i], flags[i], cells[i]) == Ok(expected[i])
    {
      assert flags[i] == b[2 * i] && cells[i] == b[2 * i + 1];
    }
    RestoreOk(strRows, flags, cells);
    var r := Restore(strRows, flags, cells).value;
    assert forall i :: 0 <= i < n ==> r[i] == expected[i];
    assert r == expected;
  }

  /** `b[::2]`: the values at even positions. */
  function Evens(b: seq<Value>): (r: seq<Value>)
    ensures |r| == (|b| + 1) / 2 && forall i :: 0 <= i < |r| ==> r[i] == b[2 * i]
  {
    seq((|b| + 1) / 2, i requires 0 <= i < (|b| + 1) / 2 => b[2 * i])
  }

  /** `b[1::2]`: the values at odd positions. */
  function Odds(b: seq<Value>): (r: seq<Value>)
    ensures |r| == |b| / 2 && forall i :: 0 <= i < |r| ==> r[i] == b[2 * i + 1]
  {
    seq(|b| / 2, i requires 0 <= i < |b| / 2 => b[2 * i + 1])
  }

  lemma Halves(n: nat)
    ensures (2 * n) % 2 == 0 && (2 * n) / 2 == n && (2 * n + 1) / 2 == n
  {
  }

  /** No name occurs twice. */
  predicate NoDup(xs: seq<string>)
  {
    forall i, j :: 0 <= i < j < |xs| ==> xs[i] != xs[j]
  }

  /** The keys of `{c: None for c in columns}` in order: each name at its
      first occurrence. */
  function Dedup(xs: seq<string>): (r: seq<string>)
    ensures forall x :: x in r <==> x in xs
    ensures NoDup(r)
    ensures NoDup(xs) ==> r == xs
  {
    if xs == [] then []
    else
      var d := Dedup(xs[..|xs| - 1]);
      var x := xs[|xs| - 1];
      assert xs == xs[..|xs| - 1] + [x];
      if x in d then d else d + [x]
  }

  /** `_row_dict2list`: every key must be a column; the result lists the
      value of each column (`None` where the mapping has none) in column
      order. */
  function RowDictToList(columns: seq<string>, entries: map<string, Value>): (r: Result<seq<Value>>)
    ensures r.Ok? <==> forall k :: k in entries ==> k in columns
    ensures r.Err? ==> r.error == AssertionError
    ensures r.Ok? && NoDup(columns) ==>
      (|r.value| == |columns| &&
       forall i :: 0 <= i < |columns| ==> r.value[i] == (if columns[i] in entries then entries[columns[i]] else Null))
  {
    if exists k :: k in entries && k !in columns then Err(AssertionError)
    else
      var cs := Dedup(columns);
      Ok(seq(|cs|, i requires 0 <= i < |cs| => if cs[i] in entries then entries[cs[i]] else Null))
  }

  function StrRows(types: seq<string>): (r: seq<bool>)
    ensures |r| == |types| && forall i :: 0 <= i < |types| ==> (r[i] <==> 's' in types[i])
  {
    seq(|types|, i requires 0 <= i < |types| => 's' in types[i])
  }

  function Defaults(types: seq<string>): (r: seq<Value>)
    ensures |r| == |types| && forall i :: 0 <= i < |types| ==> r[i] == Default(types[i])
  {
    seq(|types|, i requires 0 <= i < |types| => Default(types[i]))
  }

  /** A row codec: the schema and everything `__init__` derives from it. */
  class RowStruct {
    const columns: seq<string>
    const types: seq<string>
    const endian: string
    const format: string
    const rowStruct: PyStruct.Layout
    const strRows: seq<bool>
    const defaults: seq<Value>

    ghost predicate Valid()
    {
      Build(types, endian) == Ok(Compiled(format, rowStruct))
      && strRows == StrRows(types) && defaults == Defaults(types)
    }

    constructor (columns: seq<string>, types: seq<string>, endian: string, compiled: Compiled)
      requires Build(types, endian) == Ok(compiled)
      ensures Valid()
      ensures this.columns == columns && this.types == types && this.endian == endian
    {
      this.columns := columns;
      this.types := types;
      this.endian := endian;
      this.format := compiled.format;
      this.rowStruct := compiled.layout;
      this.strRows := StrRows(types);
      this.defaults := Defaults(types);
    }

    /** `RowStruct(columns, types, endian)`: fails with the error the
        checks or `struct.Struct` raise. */
    static method New(columns: seq<string>, types: seq<string>, endian: string := ">") returns (r: Result<RowStruct>)
      ensures r.Err? <==> Build(types, endian).Err?
      ensures r.Err? ==> r.error == Build(types, endian).error
      ensures r.Ok? ==> fresh(r.value) && r.value.Valid()
      ensures r.Ok? ==> r.value.columns == columns && r.value.types == types && r.value.endian == endian
    {
      var b := Build(types, endian);
      if b.Err? {
        return Err(b.error);
      }
      var rs := new RowStruct(columns, types, endian, b.value);
      return Ok(rs);
    }

    /** `row_struct.size`: the length of every packed row. */
    function Size(): nat
      requires Valid()
    {
      PyStruct.Size(rowStruct.units)
    }

    /** `pack`: a dict row is first turned into a list; the arguments are
        then packed by the compiled struct. */
    function Pack(row: RowArg): (r: Result<seq<byte>>)
      requires Valid()
      ensures r.Ok? ==> |r.value| == Size()
    {
      var values := match row
        case ListRow(vs) => Ok(vs)
        case DictRow(m) => RowDictToList(columns, m);
      if values.Err? then Err(values.error)
      else
        match Interleave(strRows, defaults, values.value)
        case Err(e) => Err(e)
        case Ok(args) => PyStruct.Pack(rowStruct, args)
    }

    /** `unpack`: the struct reads the record, the values are split into
        flags and cells, text cells are decoded and flagged-off cells
        become `None`. */
    function Unpack(data: seq<byte>): (r: Result<Row>)
      requires Valid()
      ensures r.Ok? ==> |data| == Size() && |r.value| == |types|
    {
      BuildItems(types, endian);
      match PyStruct.Unpack(rowStruct, data)
      case Err(e) => Err(e)
      case Ok(b) =>
        if |b| == 0 || |b| % 2 != 0 then Err(AssertionError)
        else
          Halves(|b| / 2);
          Restore(strRows, Evens(b), Odds(b))
    }
  }

  // ---------------------------------------------------------------------
  // Properties of the codec

  /** The arguments a successful `pack` handed to the struct. */
  function Args(rs: RowStruct, values: seq<Value>): (r: seq<Value>)
    requires rs.Valid() && rs.Pack(ListRow(values)).Ok?
  {
    Interleave(rs.strRows, rs.defaults, values).value
  }

  /** A list row `pack` accepts covers the schema, and `pack` hands the
      struct two arguments per column. */
  lemma ArgsLength(rs: RowStruct, values: seq<Value>)
    requires rs.Valid() && rs.Pack(ListRow(values)).Ok?
    ensures AllSingle(rs.types) && |values| >= |rs.types|
    ensures |Args(rs, values)| == 2 * |rs.types|
    ensures PyStruct.Pack(rs.rowStruct, Args(rs, values)) == rs.Pack(ListRow(values))
  {
    BuildItems(rs.types, rs.endian);
  }

  /** What `pack` does with the columns of a list row it accepts: the
      row is at least as long as the schema, and each column contributes
      its presence flag and its slot value, which fits the column's item. */
  lemma PackedArgs(rs: RowStruct, values: seq<Value>)
    requires rs.Valid() && rs.Pack(ListRow(values)).Ok?
    ensures AllSingle(rs.types) && |values| >= |rs.types|
    ensures |Args(rs, values)| == 2 * |rs.types|
    ensures PyStruct.Items(rs.rowStruct.units) == WithFlags(Tokens(rs.types))
    ensures forall i :: 0 <= i < |rs.types| ==>
      Args(rs, values)[2 * i] == Bool(values[i] != Null) &&
      Slot(rs.strRows[i], rs.defaults[i], values[i]).Ok? &&
      Args(rs, values)[2 * i + 1] == Slot(rs.strRows[i], rs.defaults[i], values[i]).value &&
      PyStruct.Fits(TokenItem(rs.types[i]), Args(rs, values)[2 * i + 1])
  {
    BuildItems(rs.types, rs.endian);
    var args := Args(rs, values);
    var units := rs.rowStruct.units;
    assert PyStruct.Pack(rs.rowStruct, args).Ok?;
    PyStruct.PackUnitsOk(rs.rowStruct.little, units, args);
    PyStruct.AllFitItems(units, args);
    forall i | 0 <= i < |rs.types|
      ensures args[2 * i] == Bool(values[i] != Null)
      ensures Slot(rs.strRows[i], rs.defaults[i], values[i]).Ok?
      ensures args[2 * i + 1] == Slot(rs.strRows[i], rs.defaults[i], values[i]).value
      ensures PyStruct.Fits(TokenItem(rs.types[i]), args[2 * i + 1])
    {
      InterleaveAt(rs.strRows, rs.defaults, values, i);
      WithFlagsAt(Tokens(rs.types), i);
    }
  }

  /** The column value a round trip gives back: `None` stays `None`, text
      comes back as it was, any other value as its item normalizes it. */
  function NormalCell(t: string, v: Value): Value
    requires SingleItem(t)
  {
    if v.Null? then Null else if 's' in t then v else PyStruct.Normalized(TokenItem(t), v)
  }

  /** The row a round trip gives back. */
  function NormalRow(types: seq<string>, values: seq<Value>): (r: Row)
    requires AllSingle(types) && |values| >= |types|
    ensures |r| == |types|
  {
    seq(|types|, i requires 0 <= i < |types| => NormalCell(types[i], values[i]))
  }

  /** A text value its column stores without loss. */
  predicate TextKept(t: string, v: Value)
  {
    's' in t && v.Str? ==> SingleItem(t) && TextFits(v.s, TokenItem(t).width)
  }

  /** One column's round trip: the flag and slot value `pack` wrote come
      back through `unpack` as the normalized column value. */
  lemma ColumnRoundTrip(t: string, v: Value)
    requires SingleItem(t) && Slot('s' in t, Default(t), v).Ok?
    requires PyStruct.Fits(TokenItem(t), Slot('s' in t, Default(t), v).value)
    requires TextKept(t, v)
    ensures Cell('s' in t, PyStruct.Normalized(PyStruct.Item('?', 1), Bool(v != Null)),
                 PyStruct.Normalized(TokenItem(t), Slot('s' in t, Default(t), v).value))
            == Ok(NormalCell(t, v))
  {
    var u := TokenItem(t);
    if 's' in t {
      TextColumnItem(t);
      if v.Null? {
        assert PyStruct.PadTrunc([], u.width) == PyStruct.Zeros(u.width);
        EmptyTextSlot(u.width);
      } else {
        TextRoundTrip(v.s, u.width);
      }
    }
  }

  /** The values the struct reads back from a packed list row. */
  function Readback(rs: RowStruct, values: seq<Value>): (b: seq<Value>)
    requires rs.Valid() && rs.Pack(ListRow(values)).Ok?
    ensures |b| == |Args(rs, values)|
  {
    PyStruct.NormalizeAll(rs.rowStruct.units, Args(rs, values))
  }

  lemma UnpackPacked(rs: RowStruct, values: seq<Value>)
    requires rs.Valid() && rs.Pack(ListRow(values)).Ok?
    ensures |Readback(rs, values)| == 2 * |rs.types|
    ensures rs.Unpack(rs.Pack(ListRow(values)).value) ==
      Restore(rs.strRows, Evens(Readback(rs, values)), Odds(Readback(rs, values)))
  {
    ArgsLength(rs, values);
    Halves(|rs.types|);
    var args := Args(rs, values);
    PyStruct.PackUnpack(rs.rowStruct, args);
    var b := Readback(rs, values);
    assert |Evens(b)| == |rs.types| && |Odds(b)| == |rs.types|;
  }

  lemma ReadbackCells(rs: RowStruct, values: seq<Value>)
    requires rs.Valid() && rs.Pack(ListRow(values)).Ok?
    requires forall i :: 0 <= i < |rs.types| && i < |values| ==> TextKept(rs.types[i], values[i])
    ensures AllSingle(rs.types) && |values| >= |rs.types| && |Readback(rs, values)| == 2 * |rs.types|
    ensures forall i :: 0 <= i < |rs.types| ==>
      Cell(rs.strRows[i], Readback(rs, values)[2 * i], Readback(rs, values)[2 * i + 1])
        == Ok(NormalCell(rs.types[i], values[i]))
  {
    PackedArgs(rs, values);
    var args := Args(rs, values);
    var units := rs.rowStruct.units;
    forall i | 0 <= i < |rs.types|
      ensures Cell(rs.strRows[i], Readback(rs, values)[2 * i], Readback(rs, values)[2 * i + 1])
        == Ok(NormalCell(rs.types[i], values[i]))
    {
      WithFlagsAt(Tokens(rs.types), i);
      ReadbackColumn(units, args, rs.types, values, i);
    }
  }

  /** Column `i` of a packed row comes back from the values the struct
      reads as the normalized column value. */
  lemma ReadbackColumn(units: seq<PyStruct.Unit>, args: seq<Value>, types: seq<string>, values: seq<Value>, i: nat)
    requires PyStruct.AllWellFormed(units) && PyStruct.ItemCount(units) == |args|
    requires i < |types| <= |values| && |args| == 2 * |types| && SingleItem(types[i])
    requires PyStruct.Items(units)[2 * i] == PyStruct.Item('?', 1)
    requires PyStruct.Items(units)[2 * i + 1] == TokenItem(types[i])
    requires args[2 * i] == Bool(values[i] != Null)
    requires Slot('s' in types[i], Default(types[i]), values[i]).Ok?
    requires args[2 * i + 1] == Slot('s' in types[i], Default(types[i]), values[i]).value
    requires PyStruct.Fits(TokenItem(types[i]), args[2 * i + 1])
    requires TextKept(types[i], values[i])
    ensures Cell('s' in types[i], PyStruct.NormalizeAll(units, args)[2 * i], PyStruct.NormalizeAll(units, args)[2 * i + 1])
      == Ok(NormalCell(types[i], values[i]))
  {
    var b := PyStruct.NormalizeAll(units, args);
    PyStruct.NormalizeAllAt(units, args, 2 * i);
    PyStruct.NormalizeAllAt(units, args, 2 * i + 1);
    NormalizedCell(types[i], values[i], b[2 * i], b[2 * i + 1]);
  }

  /** The cell of a flag and slot value the struct normalized. */
  lemma NormalizedCell(t: string, v: Value, flag: Value, slot: Value)
    requires SingleItem(t) && Slot('s' in t, Default(t), v).Ok?
    requires PyStruct.Fits(TokenItem(t), Slot('s' in t, Default(t), v).value)
    requires TextKept(t, v)
    requires flag == PyStruct.Normalized(PyStruct.Item('?', 1), Bool(v != Null))
    requires slot == PyStruct.Normalized(TokenItem(t), Slot('s' in t, Default(t), v).value)
    ensures Cell('s' in t, flag, slot) == Ok(NormalCell(t, v))
  {
    ColumnRoundTrip(t, v);
  }

  /** Every row takes at least one byte: the flag of the first column. */
  lemma SizePositive(rs: RowStruct)
    requires rs.Valid()
    ensures rs.Size() >= 1
  {
    BuildItems(rs.types, rs.endian);
    WithFlagsAt(Tokens(rs.types), 0);
    PyStruct.ItemWithinSize(rs.rowStruct.units, 0);
  }

  /** Round trip of the codec: a list row that `pack` accepts, whose text
      values fit their columns, is given back by `unpack` column for column
      (`None` as `None`, text unchanged, other values as their items store
      them), whatever the row holds beyond the schema. */
  lemma RowRoundTrip(rs: RowStruct, values: seq<Value>)
    requires rs.Valid() && rs.Pack(ListRow(values)).Ok?
    requires forall i :: 0 <= i < |rs.types| && i < |values| ==> TextKept(rs.types[i], values[i])
    ensures AllSingle(rs.types) && |values| >= |rs.types|
    ensures rs.Unpack(rs.Pack(ListRow(values)).value) == Ok(NormalRow(rs.types, values))
  {
    ReadbackCells(rs, values);
    UnpackPacked(rs, values);
    RestorePairs(rs.strRows, Readback(rs, values), NormalRow(rs.types, values));
  }

  /** A value the column accepts: it encodes (for a text column) and the
      slot value `pack` derives from it fits the column's item. */
  predicate ColumnAccepts(t: string, v: Value)
  {
    SingleItem(t) && Slot('s' in t, Default(t), v).Ok?
    && PyStruct.Fits(TokenItem(t), Slot('s' in t, Default(t), v).value)
  }

  /** `pack` of a list row succeeds exactly when the row covers the schema
      and every column accepts its value. */
  lemma PackOk(rs: RowStruct, values: seq<Value>)
    requires rs.Valid()
    ensures rs.Pack(ListRow(values)).Ok? <==>
      |values| >= |rs.types| && forall i :: 0 <= i < |rs.types| ==> ColumnAccepts(rs.types[i], values[i])
  {
    if rs.Pack(ListRow(values)).Ok? {
      PackedArgs(rs, values);
    } else if |values| >= |rs.types| && forall i :: 0 <= i < |rs.types| ==> ColumnAccepts(rs.types[i], values[i]) {
      PackAccepted(rs, values);
    }
  }

  /** The converse half of `PackOk`. */
  lemma PackAccepted(rs: RowStruct, values: seq<Value>)
    requires rs.Valid() && |values| >= |rs.types|
    requires forall i :: 0 <= i < |rs.types| ==> ColumnAccepts(rs.types[i], values[i])
    ensures rs.Pack(ListRow(values)).Ok?
  {
    BuildItems(rs.types, rs.endian);
    var n := |rs.types|;
    assert Min(n, |values|) == n;
    InterleaveOk(rs.strRows, rs.defaults, values);
    var args := Interleave(rs.strRows, rs.defaults, values).value;
    var units := rs.rowStruct.units;
    forall j | 0 <= j < |args|
      ensures PyStruct.Fits(PyStruct.Items(units)[j], args[j])
    {
      var i := j / 2;
      assert j == 2 * i || j == 2 * i + 1;
      ArgFits(rs.types, rs.strRows, rs.defaults, values, i, j);
    }
    PyStruct.AllFitItems(units, args);
    PyStruct.PackUnitsOk(rs.rowStruct.little, units, args);
  }

  /** Argument `j` of an accepted row fits item `j` of the layout. */
  lemma ArgFits(types: seq<string>, strRows: seq<bool>, defaults: seq<Value>, values: seq<Value>, i: nat, j: nat)
    requires AllSingle(types) && |types| <= |values|
    requires strRows == StrRows(types) && defaults == Defaults(types)
    requires Interleave(strRows, defaults, values).Ok?
    requires i < |types| && (j == 2 * i || j == 2 * i + 1) && ColumnAccepts(types[i], values[i])
    ensures WithFlags(Tokens(types))[j].Item? && PyStruct.WellFormed(WithFlags(Tokens(types))[j])
    ensures PyStruct.Fits(WithFlags(Tokens(types))[j], Interleave(strRows, defaults, values).value[j])
  {
    InterleaveAt(strRows, defaults, values, i);
    WithFlagsAt(Tokens(types), i);
  }

  // ---------------------------------------------------------------------
  // Column types of the form digits-then-character

  /** A column type as the dtype helpers write it: decimal digits, then one
      format character. */
  predicate SimpleToken(t: string)
  {
    |t| >= 1 && AllDigits(t[..|t| - 1]) && t[|t| - 1] in "c?hilqfds"
  }

  /** The repeat count of a simple column type (1 when it has no digits). */
  function TokenCount(t: string): nat
    requires SimpleToken(t)
  {
    if |t| == 1 then 1 else ParseNat(t[..|t| - 1])
  }

  lemma SimpleLeading(t: string)
    requires SimpleToken(t)
    ensures PyStruct.LeadingDigits(t) == |t| - 1
  {
    var k := |t| - 1;
    var d := PyStruct.LeadingDigits(t);
    assert !IsDigit(t[k]);
    DigitPrefix(t, k, d);
    DigitPrefix(t, d, k);
  }

  lemma SimpleTokenCodes(t: string)
    requires SimpleToken(t)
    ensures PyStruct.ParseCodes(t) == Ok([PyStruct.Code(TokenCount(t), t[|t| - 1])])
  {
    var k := |t| - 1;
    SimpleLeading(t);
    var c := PyStruct.Code(TokenCount(t), t[k]);
    assert PyStruct.FirstCode(t) == Some((c, k + 1));
    assert t[k + 1..] == [];
    PyStruct.ParseCodesConsOk(t, []);
    assert [c] + [] == [c];
  }

  lemma Pow256Wide(w: nat)
    requires w >= 1
    ensures PyStruct.Pow256(w) >= 256
  {
    if w > 1 {
      Pow256Wide(w - 1);
    }
  }

  lemma ItemsOfItems(us: seq<PyStruct.Unit>)
    requires forall i :: 0 <= i < |us| ==> us[i].Item?
    ensures PyStruct.Items(us) == us
  {
    if us != [] {
      ItemsOfItems(us[1..]);
    }
  }

  /** A simple column type is usable exactly when it is a text type or
      has a count of one, and then its item is the one it names. */
  lemma SimpleTokenItem(t: string)
    requires SimpleToken(t)
    ensures SingleItem(t) <==> t[|t| - 1] == 's' || TokenCount(t) == 1
    ensures SingleItem(t) ==>
      TokenItem(t) == (if t[|t| - 1] == 's' then PyStruct.Item('s', TokenCount(t))
                       else PyStruct.Item(t[|t| - 1], PyStruct.StdSize(t[|t| - 1])))
  {
    SimpleTokenCodes(t);
    var c := PyStruct.Code(TokenCount(t), t[|t| - 1]);
    ExpandSingle(c);
    ItemsOfItems(PyStruct.UnitsOf(c));
  }

  lemma SimpleTokenChars(t: string, c: char)
    requires SimpleToken(t) && !IsDigit(c)
    ensures c in t <==> c == t[|t| - 1]
  {
    if c in t {
      var i :| 0 <= i < |t| && t[i] == c;
      DigitPrefix(t, |t| - 1, i);
    }
  }

  /** The placeholder of a usable simple column type fits its item, so a
      `None` in any such column can be packed. */
  lemma DefaultFits(t: string)
    requires SimpleToken(t) && SingleItem(t)
    ensures PyStruct.Fits(TokenItem(t), Default(t))
  {
    SimpleTokenItem(t);
    var k := t[|t| - 1];
    SimpleTokenChars(t, 'i');
    SimpleTokenChars(t, 'l');
    SimpleTokenChars(t, 'f');
    SimpleTokenChars(t, 'd');
    SimpleTokenChars(t, 'h');
    SimpleTokenChars(t, 'q');
    SimpleTokenChars(t, 's');
    SimpleTokenChars(t, 'c');
    SimpleTokenChars(t, '?');
    if k in "hilq" {
      Pow256Wide(PyStruct.StdSize(k));
    }
  }

  /** `_getDefault` as written gives empty bytes for a `c` column, which
      the one-byte `c` item rejects: a `None` in a CHAR column cannot be
      packed.  The corrected placeholder is accepted. */
  lemma CharDefaultRejected()
    ensures SingleItem("c") && TokenItem("c") == PyStruct.Item('c', 1)
    ensures PyStruct.PackItem(PyStruct.Item('c', 1), false, DefaultAsWritten("c")) == Err(StructError)
    ensures PyStruct.PackItem(PyStruct.Item('c', 1), false, Default("c")) == Ok([0])
  {
    SimpleTokenItem("c");
  }

  /** `_getDefault` as written gives `None` for `h` and `q` columns, which
      integer items reject: a `None` in such a column cannot be packed.  The
      corrected placeholder 0 is accepted. */
  lemma ShortDefaultRejected(k: char)
    requires k == 'h' || k == 'q'
    ensures SingleItem([k]) && TokenItem([k]) == PyStruct.Item(k, PyStruct.StdSize(k))
    ensures DefaultAsWritten([k]) == Null
    ensures PyStruct.PackItem(TokenItem([k]), false, DefaultAsWritten([k])) == Err(StructError)
    ensures PyStruct.PackItem(TokenItem([k]), false, Default([k])).Ok?
  {
    SimpleTokenItem([k]);
    IntegerPlaceholders(PyStruct.Item(k, PyStruct.StdSize(k)));
  }

  /** An integer slot rejects `None` and accepts 0. */
  lemma IntegerPlaceholders(u: PyStruct.Unit)
    requires u.Item? && PyStruct.WellFormed(u) && u.kind in "hilq" && u.width >= 1
    ensures PyStruct.PackItem(u, false, Null) == Err(StructError)
    ensures PyStruct.PackItem(u, false, Int(0)).Ok?
  {
    Pow256Wide(u.width);
  }

  /** The parity check of `_makeFmt` as written rejects a schema whose
      text column has a one-digit width (`STRING[5]` is `"5s"`, and
      `STRING()` is `"1s"`). */
  lemma ParityRejectsShortText()
    ensures FormatResultAsWritten(">", ["5s"]) == Err(AssertionError)
    ensures FormatResultAsWritten(">", ["1s"]) == Err(AssertionError)
  {
    assert Flagged(["5s"]) == "?5s";
    assert Flagged(["1s"]) == "?1s";
  }

  /** Characters a column type may contain for the format check to pass. */
  predicate ValidToken(t: string)
  {
    forall i :: 0 <= i < |t| ==> t[i] in ValidChars
  }

  lemma ValidConcat(a: string, b: string)
    requires ValidToken(a) && ValidToken(b)
    ensures ValidToken(a + b)
  {
    assert forall i :: |a| <= i < |a + b| ==> (a + b)[i] == b[i - |a|];
  }

  lemma {:induction false} FlaggedChars(types: seq<string>)
    requires forall k :: 0 <= k < |types| ==> ValidToken(types[k])
    ensures ValidToken(Flagged(types))
  {
    if types != [] {
      FlaggedChars(types[1..]);
      assert ValidToken(types[0]);
      ValidConcat("?", types[0]);
      ValidConcat("?" + types[0], Flagged(types[1..]));
    }
  }

  lemma SimpleValid(t: string)
    requires SimpleToken(t)
    ensures ValidToken(t)
  {
    forall i | 0 <= i < |t|
      ensures t[i] in ValidChars
    {
      DigitPrefix(t, |t| - 1, i);
    }
  }

  lemma OrderCharSubstring(endian: string)
    requires |endian| == 1 && endian[0] in EndianChars
    ensures IsSubstring(endian, EndianChars)
  {
    var j :| 0 <= j < |EndianChars| && EndianChars[j] == endian[0];
    assert EndianChars[j..j + 1] == endian;
    SubstringAt(endian, EndianChars, j);
  }

  lemma TailAfterPrefix(endian: string, body: string)
    requires |endian| == 1
    ensures Tail(endian + body) == body
  {
  }

  /** Every column type is simple. */
  predicate AllSimple(types: seq<string>)
  {
    forall k :: 0 <= k < |types| ==> SimpleToken(types[k])
  }

  lemma SimpleTypesValid(types: seq<string>)
    requires AllSimple(types)
    ensures ValidToken(Flagged(types))
  {
    forall k | 0 <= k < |types|
      ensures ValidToken(types[k])
    {
      SimpleValid(types[k]);
    }
    FlaggedChars(types);
  }

  /** A schema of usable simple column types, behind a one-character
      byte-order prefix, passes every check and is built; the format is
      the prefix followed by the flagged types. */
  lemma SimpleSchemaBuilds(types: seq<string>, endian: string)
    requires types != [] && |endian| == 1 && endian[0] in EndianChars
    requires AllSimple(types) && AllSingle(types)
    ensures Build(types, endian).Ok?
    ensures Build(types, endian).value.format == endian + Flagged(types)
  {
    SimpleTypesValid(types);
    TailAfterPrefix(endian, Flagged(types));
    OrderCharSubstring(endian);
    BuildOk(types, endian);
  }

  // ---------------------------------------------------------------------
  // The rows of the read/write test

  /** The schema of the read/write test: `STRING[50]`, `I32`, `BOOL`. */
  const SampleTypes: seq<string> := ["50s", "i", "?"]

  /** A row made of the values the read/write test inserts, column by
      column; its three rows `("text", 42, True)`, `(None, 256, False)` and
      `("42", 0, None)` are among them. */
  predicate SampleRow(values: seq<Value>)
  {
    && |values| == 3
    && (values[0] == Null || values[0] == Str("text") || values[0] == Str("42"))
    && (values[1] == Int(42) || values[1] == Int(256) || values[1] == Int(0))
    && (values[2] == Bool(true) || values[2] == Bool(false) || values[2] == Null)
  }

  /** `STRING[50]` is one text item of 50 bytes. */
  lemma Text50Item()
    ensures SingleItem("50s") && TokenItem("50s") == PyStruct.Item('s', 50)
  {
    assert ParseNat("50") == 50 by {
      assert "50"[..1] == "5";
    }
    SimpleTokenItem("50s");
  }

  /** `I32` and `BOOL` are one item each, of 4 bytes and 1 byte. */
  lemma IntBoolItems()
    ensures SingleItem("i") && TokenItem("i") == PyStruct.Item('i', 4)
    ensures SingleItem("?") && TokenItem("?") == PyStruct.Item('?', 1)
  {
    SimpleTokenItem("i");
    SimpleTokenItem("?");
  }

  /** The text column takes `None` and the test's two strings, and keeps
      them. */
  lemma SampleText(v: Value)
    requires v == Null || v == Str("text") || v == Str("42")
    ensures ColumnAccepts("50s", v) && TextKept("50s", v) && NormalCell("50s", v) == v
  {
    Text50Item();
    Text50Default();
    TextColumn("50s", v);
    SampleStringsFit();
  }

  /** The test's strings take 4 and 2 bytes, well within 50. */
  lemma SampleStringsFit()
    ensures TextFits("text", 50) && TextFits("42", 50)
  {
    assert Utf8.Encode("text") == [116, 101, 120, 116];
    assert Utf8.Encode("42") == [52, 50];
  }

  lemma Text50Default()
    ensures 's' in "50s" && Default("50s") == Bytes([])
  {
    assert "50s"[2] == 's';
  }

  /** A text column whose placeholder is empty bytes takes `None` and any
      string, and gives them back as they were. */
  lemma TextColumn(t: string, v: Value)
    requires SingleItem(t) && 's' in t && Default(t) == Bytes([]) && (v.Null? || v.Str?)
    ensures ColumnAccepts(t, v) && NormalCell(t, v) == v
  {
    TextColumnItem(t);
  }

  /** The integer column takes the test's numbers and gives them back. */
  lemma SampleInt(v: Value)
    requires v == Int(42) || v == Int(256) || v == Int(0)
    ensures ColumnAccepts("i", v) && TextKept("i", v) && NormalCell("i", v) == v
  {
    IntBoolItems();
    Pow256Four();
    IntColumn("i", v);
  }

  lemma Pow256Four()
    ensures PyStruct.Pow256(4) == 0x1_0000_0000
  {
  }

  /** A column of one 4-byte integer item and placeholder 0 takes every
      integer of 32 bits, and gives it back. */
  lemma IntColumn(t: string, v: Value)
    requires SingleItem(t) && TokenItem(t) == PyStruct.Item('i', 4) && 's' !in t && Default(t) == Int(0)
    requires v.Int? && PyStruct.SignedFits(v.i, 4)
    ensures ColumnAccepts(t, v) && TextKept(t, v) && NormalCell(t, v) == v
  {
  }

  /** The flag column takes `None` and both truth values and gives them
      back. */
  lemma SampleBool(v: Value)
    requires v == Bool(true) || v == Bool(false) || v == Null
    ensures ColumnAccepts("?", v) && TextKept("?", v) && NormalCell("?", v) == v
  {
    IntBoolItems();
  }

  /** Every column of a test row accepts its value and keeps it. */
  lemma SampleColumns(values: seq<Value>)
    requires SampleRow(values)
    ensures AllSingle(SampleTypes)
    ensures forall i :: 0 <= i < |SampleTypes| ==>
      ColumnAccepts(SampleTypes[i], values[i]) && TextKept(SampleTypes[i], values[i])
      && NormalCell(SampleTypes[i], values[i]) == values[i]
  {
    Text50Item();
    IntBoolItems();
    forall i | 0 <= i < |SampleTypes|
      ensures ColumnAccepts(SampleTypes[i], values[i]) && TextKept(SampleTypes[i], values[i])
      && NormalCell(SampleTypes[i], values[i]) == values[i]
    {
      if i == 0 {
        SampleText(values[0]);
      } else if i == 1 {
        SampleInt(values[1]);
      } else {
        SampleBool(values[2]);
      }
    }
  }

  /** The round trip of the read/write test: under the schema `STRING[50]`,
      `I32`, `BOOL`, each of its rows packs, and unpacking the record
      gives the row back unchanged. */
  lemma SampleRoundTrip(rs: RowStruct, values: seq<Value>)
    requires rs.Valid() && rs.types == SampleTypes && SampleRow(values)
    ensures rs.Pack(ListRow(values)).Ok?
    ensures rs.Unpack(rs.Pack(ListRow(values)).value) == Ok(values)
  {
    SampleColumns(values);
    PackAccepted(rs, values);
    RowRoundTrip(rs, values);
    SampleNormalRow(values);
  }

  /** A round trip leaves a test row as it was. */
  lemma SampleNormalRow(values: seq<Value>)
    requires SampleRow(values)
    ensures AllSingle(SampleTypes) && NormalRow(SampleTypes, values) == values
  {
    SampleColumns(values);
  }

  /** The test schema passes every check of `__init__` under the default
      big-endian prefix; its format is `>?50s?i??`. */
  lemma SampleSchemaBuilds(types: seq<string>)
    requires types == SampleTypes
    ensures Build(types, ">").Ok?
    ensures Build(types, ">").value.format == ">" + Flagged(types)
  {
    SampleTypesSimple();
    SimpleSchemaBuilds(types, ">");
  }

  /** On the test schema the checks and placeholders as written agree
      with the corrected ones, so everything proved about the codec of
      that schema holds of the code as written. */
  lemma SampleAgrees()
    ensures FormatResultAsWritten(">", SampleTypes) == FormatResult(">", SampleTypes)
    ensures forall i :: 0 <= i < |SampleTypes| ==> DefaultAsWritten(SampleTypes[i]) == Default(SampleTypes[i])
  {
    SampleTypesSimple();
    SampleTypesShort();
    FormatAgrees(">", SampleTypes);
    forall i | 0 <= i < |SampleTypes|
      ensures DefaultAsWritten(SampleTypes[i]) == Default(SampleTypes[i])
    {
      DefaultAgrees(SampleTypes[i]);
    }
  }

  /** The test schema's types have odd length and no `h`, `q` or `c`. */
  lemma SampleTypesShort()
    ensures forall k :: 0 <= k < |SampleTypes| ==> |SampleTypes[k]| % 2 == 1
    ensures forall k :: 0 <= k < |SampleTypes| ==> 'h' !in SampleTypes[k] && 'q' !in SampleTypes[k] && 'c' !in SampleTypes[k]
  {
  }

  lemma SampleTypesSimple()
    ensures AllSimple(SampleTypes) && AllSingle(SampleTypes)
  {
    forall k | 0 <= k < |SampleTypes|
      ensures SimpleToken(SampleTypes[k]) && SingleItem(SampleTypes[k])
    {
      if k == 0 {
        Text50Item();
        Text50Simple();
      } else {
        IntBoolItems();
      }
    }
  }

  lemma Text50Simple()
    ensures SimpleToken("50s")
  {
    assert "50s"[..2] == "50";
  }
}
