/** The column types of toydb (toydb/dtypes.py): a type is a struct
    format character; indexing or calling it with a count gives the
    column-type token `"<count><character>"` the row codec consumes. */
module DTypes {
  import opened Base
  import opened Text
  import PyStruct
  import RowStruct

  /** A `dtype` object: its format character(s) and its `default`
      attribute. */
  datatype DType = DType(value: string, default: Value)

  /** `dtype(value, default)`: the value is kept, and the default
      attribute is always `None`, whatever default is passed. */
  function NewDType(value: string, default: Value): (t: DType)
    ensures t.value == value && t.default == Null
  {
    DType(value, Null)
  }

  /** `str(t)`. */
  function AsString(t: DType): string
  {
    t.value
  }

  /** `t(n)` (and `t()` for n = 1): the decimal count, then the type's
      characters.  The count and the characters can be read back. */
  function Call(t: DType, n: int := 1): (s: string)
    ensures |s| > |t.value| && s[|s| - |t.value|..] == t.value
    ensures ParseInt(s[..|s| - |t.value|]) == Some(n)
  {
    DecimalRoundTrip(n);
    var s := Decimal(n) + t.value;
    assert s[..|s| - |t.value|] == Decimal(n);
    s
  }

  /** `t[n]`: the same token as `t(n)`. */
  function GetItem(t: DType, n: int := 1): (s: string)
    ensures |s| > |t.value| && s[|s| - |t.value|..] == t.value
    ensures ParseInt(s[..|s| - |t.value|]) == Some(n)
  {
    Call(t, n)
  }

  const I32: DType := NewDType("i", Int(0))
  const I64: DType := NewDType("l", Int(0))
  const F32: DType := NewDType("f", Int(0))
  const F64: DType := NewDType("d", Int(0))
  const BOOL: DType := NewDType("?", Bool(false))
  const CHAR: DType := NewDType("c", Str(""))
  const STRING: DType := NewDType("s", Str(""))

  /** The seven predefined types, in the order they are declared. */
  const Constants: seq<DType> := [I32, I64, F32, F64, BOOL, CHAR, STRING]

  /** The predefined types have one-character codes, all of them format
      characters the codec accepts, and no default. */
  lemma ConstantCodes()
    ensures |Constants| == 7
    ensures forall i :: 0 <= i < |Constants| ==>
      |AsString(Constants[i])| == 1 && AsString(Constants[i])[0] in "c?hilqfds" &&
      AsString(Constants[i])[0] in RowStruct.ValidChars && Constants[i].default == Null
  {
  }

  /** The codes of the predefined types are pairwise distinct. */
  lemma CodesDistinct()
    ensures forall i, j :: 0 <= i < j < |Constants| ==> AsString(Constants[i]) != AsString(Constants[j])
  {
  }

  /** The code of a predefined type: one format character, `s` for
      `STRING` only. */
  lemma ConstantCode(t: DType)
    requires t in Constants
    ensures |t.value| == 1 && t.value[0] in "c?hilqfds"
    ensures t == STRING <==> t.value[0] == 's'
  {
  }

  /** A type written in a schema: either the `dtype` object itself, which
      the codec reads as `str(t)`, or the token `t[n]` / `t(n)`. */
  datatype Column = Bare(t: DType) | Counted(t: DType, n: int)

  /** The column-type string the codec works with. */
  function TypeText(c: Column): string
  {
    match c
    case Bare(t) => AsString(t)
    case Counted(t, n) => GetItem(t, n)
  }

  function SchemaText(cs: seq<Column>): (r: seq<string>)
    ensures |r| == |cs| && forall k :: 0 <= k < |cs| ==> r[k] == TypeText(cs[k])
  {
    seq(|cs|, k requires 0 <= k < |cs| => TypeText(cs[k]))
  }

  /** A column of a predefined type with a count that is not negative. */
  predicate Predefined(c: Column)
  {
    c.t in Constants && (c.Counted? ==> c.n >= 0)
  }

  /** A predefined column is digits then a format character; its count is
      the one given (1 for a bare type). */
  lemma PredefinedSimple(c: Column)
    requires Predefined(c)
    ensures RowStruct.SimpleToken(TypeText(c))
    ensures RowStruct.TokenCount(TypeText(c)) == if c.Counted? then c.n else 1
  {
    ConstantCode(c.t);
    var s := TypeText(c);
    if c.Counted? {
      var d := Decimal(c.n);
      assert s == d + c.t.value;
      NatDigitsRoundTrip(c.n);
      assert s[..|s| - 1] == d;
    }
  }

  /** A predefined column stands for one struct item exactly when it is a
      text column or its count is 1: a text column is one item of `n`
      bytes, any other a single item of the character's standard size. */
  lemma PredefinedItem(c: Column)
    requires Predefined(c)
    ensures RowStruct.SingleItem(TypeText(c)) <==> c.t == STRING || c.Bare? || c.n == 1
    ensures RowStruct.SingleItem(TypeText(c)) ==>
      RowStruct.TokenItem(TypeText(c)) ==
        if c.t == STRING then PyStruct.Item('s', if c.Counted? then c.n else 1)
        else PyStruct.Item(c.t.value[0], PyStruct.StdSize(c.t.value[0]))
  {
    ConstantCode(c.t);
    PredefinedSimple(c);
    var s := TypeText(c);
    RowStruct.SimpleTokenItem(s);
    assert s[|s| - 1] == c.t.value[0];
  }

  /** A schema of predefined columns, each a text column or a single item,
      behind a one-character byte order, is accepted by the codec. */
  lemma PredefinedSchemaBuilds(cs: seq<Column>, endian: string)
    requires cs != [] && |endian| == 1 && endian[0] in RowStruct.EndianChars
    requires forall k :: 0 <= k < |cs| ==> Predefined(cs[k]) && (cs[k].t == STRING || cs[k].Bare? || cs[k].n == 1)
    ensures RowStruct.Build(SchemaText(cs), endian).Ok?
    ensures RowStruct.Build(SchemaText(cs), endian).value.format == endian + RowStruct.Flagged(SchemaText(cs))
  {
    var types := SchemaText(cs);
    forall k | 0 <= k < |types|
      ensures RowStruct.SimpleToken(types[k]) && RowStruct.SingleItem(types[k])
    {
      PredefinedSimple(cs[k]);
      PredefinedItem(cs[k]);
    }
    RowStruct.SimpleSchemaBuilds(types, endian);
  }

  /** A negative count puts a `-` into the format, so `_makeFmt` raises
      `SchemaError` for the first character of `fmt[1:]` outside the
      alphabet, both as written and corrected. */
  lemma NegativeCountRejected(cs: seq<Column>, k: nat, endian: string)
    requires k < |cs| && cs[k].Counted? && cs[k].n < 0
    ensures RowStruct.FirstInvalid(RowStruct.Tail(endian + RowStruct.Flagged(SchemaText(cs)))).Some?
    ensures RowStruct.FormatResultAsWritten(endian, SchemaText(cs)) ==
      Err(SchemaError(RowStruct.FirstInvalid(RowStruct.Tail(endian + RowStruct.Flagged(SchemaText(cs)))).value))
    ensures RowStruct.FormatResult(endian, SchemaText(cs)) ==
      Err(SchemaError(RowStruct.FirstInvalid(RowStruct.Tail(endian + RowStruct.Flagged(SchemaText(cs)))).value))
  {
    var types := SchemaText(cs);
    assert types[k][0] == '-';
    RowStruct.InvalidColumnRejected(endian, types, k, 0);
  }

  /** The tokens of the findings about the format check: `STRING[5]` is
      `"5s"` and `STRING()` is `"1s"`. */
  lemma ShortTextTokens()
    ensures GetItem(STRING, 5) == "5s" && Call(STRING) == "1s"
    ensures GetItem(STRING, 50) == "50s"
  {
    assert Decimal(50) == "50" by {
      assert NatDigits(50) == NatDigits(5) + [DigitChar(0)];
    }
  }
}
