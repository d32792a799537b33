# toydb core, modelled in Dafny

toydb is a small Python database. A database is a directory that holds:

- a JSON catalog of tables, each with a schema, an index list and a file;
- one binary file per table, which is a plain concatenation of fixed-size records.

Each record is written by the table's row codec (`RowStruct`), which works as follows:

- It turns the schema's column types (`dtypes` tokens such as `"i"`, `"?"`, `"50s"`) into a Python `struct` format.
- It puts a `?` presence flag in front of every column.
- On `pack`, it replaces an absent value (`None`) by a per-type placeholder and encodes text columns as UTF-8.
- On `unpack`, it strips the NUL padding from text and turns every column whose flag is false back into `None`.

The repository also has two standalone helpers:

- an `IndexedData` container, which keeps a typed array sorted with the original position of each element;
- a `BloomFilter` over a bit array.

The Dafny project models these pieces:

- `base.dfy`: Python values (`None`, int, bool, float bit patterns, bytes, str), the Python exceptions the code raises, and `Option`/`Result`. It also has two generic helpers: mapping a function over a sequence, and the first error of a scan.
- `text.dfy`: decimal digits (what an f-string and `int()` produce and read back), substrings (`x in s` on strings) and ASCII `str.lower`.
- `utf8.dfy`: `str.encode()` and strict `bytes.decode()` for UTF-8, with the round trip proved for every string of Unicode scalar values (a lone surrogate, which `str.encode()` refuses, is not a Dafny `char`).
- `pystruct.dfy`: the part of Python's `struct` that the codec relies on. It covers:
  - parsing a format into counted codes;
  - expanding the codes into pad bytes and items;
  - the standard sizes;
  - packing, with range checks and byte order;
  - unpacking.

  Its round trip, `unpack(pack(args)) == normalized args`, is proved.
- `dtypes.dfy`: `toydb/dtypes.py`, meaning the `dtype` class and its seven constants, and how a schema of `dtype`s becomes the type strings the codec reads.
- `rowstruct.dfy`: `toydb/RowStruct.py`. This covers `_encode`/`_decode`, `_getDefault`, `_makeFmt`, `__init__` (as `RowStruct.New` returning a `Result`), `_row_dict2list`, `pack` and `unpack`. The central property is the row round trip: `unpack(pack(row))` is the row with text read back and every value put in its packed form. `_makeFmt`'s parity check and `_getDefault`'s placeholders for `c`, `h` and `q` are wrong (see Findings). Each is modelled as written (`FormatResultAsWritten`, `MakeFmt`, `DefaultAsWritten`) and corrected (`FormatResult`, `Default`). The codec class is built on the corrected pair. Lemmas give the schemas and types on which the two agree, and the test schema is among them.
- `database.dfy`: `toydb/Database.py`. The catalog, the codecs and the file system are fields of a `Database` class. The file system is a map from path to bytes. The methods are:
  - `createTable`, `listTables`, `getTableSchema` and `_loadStructs`;
  - `insert` and `insertMany`;
  - `_iterReadBytes`, `_iterReadAllLines`, `_readAllLines` and `_readLine`.

  The lemmas show:
  - what `insertMany` appends;
  - that rows inserted into a table are read back, in order, by `_readAllLines`;
  - that `_readLine` as written reads, for line `-k`, the `k`-th row from the end, and raises `UnboundLocalError` for every line number from 0 up;
  - that, with the seek mode set for non-negative offsets, line `i` reads row `i`.
- `indexed_data.dfy`: `IndexedData.py`. The constructor's `bisect.bisect` and insertion loop are modelled as a sorting specification. It is proved sorted, a permutation, stable, and to carry a permutation of the positions.
- `bloom_filter.dfy`: `BloomFilter.py`, as a class over a `bool` array. It is proved to have no false negatives: every added item checks present until `clear`.

Things the model takes as parameters rather than modelling:

- the hash that names table files (`util.md5`);
- the Bloom filter's hash (`mmh3.hash`);
- the Bloom filter's sizes, which the source computes from floating-point formulas.

## Model

| member | source | states |
|---|---|---|
| Base.FirstErrorNone | toydb/Database.py:144-147 | a scan in order fails exactly when some element fails, and then with one element's error |
| Base.FirstErrorSnoc | toydb/Database.py:144-147 | one more element at the end changes the first error only when there was none before |
| Base.MapSeqAt | toydb/Database.py:216-217 | entry `i` of a generator applied to each block is the function of block `i` |
| Text.DecimalRoundTrip | toydb/dtypes.py:12-13 | the decimal text of any integer parses back to that integer |
| Text.LowerIsLower | toydb/Database.py:102 | lower-casing yields a lower-case string and is idempotent, so table names are looked up in one canonical form |
| Text.SubstringChars | toydb/RowStruct.py:42 | every character of a substring occurs in the containing string |
| Utf8.DecodeEncode | toydb/RowStruct.py:23 | strict UTF-8 decoding of `s.encode()` gives back `s` for every string |
| Utf8.EncodeAppend | toydb/RowStruct.py:23 | encoding distributes over concatenation |
| Utf8.EncodeEdges | toydb/RowStruct.py:28 | the encoding of a string starts (ends) with a zero byte exactly when the string starts (ends) with NUL |
| PyStruct.ParseCodes | toydb/RowStruct.py:47 | a format that parses yields only known format characters with their counts |
| PyStruct.ParseCodesAppend | toydb/RowStruct.py:59-61 | the codes of two concatenated formats are the codes of each, in order |
| PyStruct.Compile | toydb/RowStruct.py:47 | a compiled struct consists of well-formed pad bytes and items of their standard sizes |
| PyStruct.Items | toydb/RowStruct.py:91 | the items a struct packs are exactly its non-pad units, counted by `ItemCount` |
| PyStruct.ItemWithinSize | toydb/RowStruct.py:91 | no single item is wider than the whole record |
| PyStruct.PackItem | toydb/RowStruct.py:91 | packing one value succeeds exactly when it fits the item's code and range, and then gives `width` bytes |
| PyStruct.PackFloat | toydb/RowStruct.py:91 | a float item packs exactly the values the model can encode, into `w` bytes; an `f` slot takes a `Float` as a 32-bit pattern (see Left out) |
| PyStruct.BigEndianRoundTrip | toydb/RowStruct.py:91 | reading the big-endian bytes of `u` gives back `u` |
| PyStruct.UIntRoundTrip | toydb/RowStruct.py:91-94 | unsigned integers round-trip through either byte order |
| PyStruct.IntRoundTrip | toydb/RowStruct.py:91-94 | signed integers in range round-trip through two's complement in either byte order |
| PyStruct.OrderedTwice | toydb/RowStruct.py:91-94 | reordering bytes for the byte order is an involution |
| PyStruct.FloatFlags | toydb/RowStruct.py:91 | a `?` item packs a float's truth value: 0.0 and -0.0 give a zero byte, any other pattern with the sign bit clear a one byte |
| PyStruct.ItemRoundTrip | toydb/RowStruct.py:91-94 | unpacking a packed value gives the value in its packed form (bools as bools, text padded or cut to its width) |
| PyStruct.Pack | toydb/RowStruct.py:91 | a successful pack gives exactly `size` bytes and used one argument per item |
| PyStruct.Unpack | toydb/RowStruct.py:94 | unpack accepts exactly `size` bytes and returns one value per item |
| PyStruct.PackUnitsOk | toydb/RowStruct.py:91 | packing succeeds exactly when every argument fits its item |
| PyStruct.AllFitItems | toydb/RowStruct.py:91 | "every argument fits" is the per-item condition on the item sequence |
| PyStruct.UnitsRoundTrip | toydb/RowStruct.py:91-94 | unpacking what was packed gives the normalized arguments, item by item |
| PyStruct.PackUnpack | toydb/RowStruct.py:91-94 | `unpack(pack(args)) == Ok(normalized args)` for every format and every accepted argument list |
| DTypes.NewDType | toydb/dtypes.py:5-7 | the value is kept and the `default` attribute is `None`, whatever default is passed |
| DTypes.Call | toydb/dtypes.py:12-13 | `t(n)` is a decimal count followed by the type's characters, and the count reads back as `n` |
| DTypes.GetItem | toydb/dtypes.py:15-16 | `t[n]` ends in the type's characters and its prefix reads back as `n` |
| DTypes.ConstantCodes | toydb/dtypes.py:18-24 | the seven constants are one format character each, from the codec's alphabet, each with a `None` default |
| DTypes.CodesDistinct | toydb/dtypes.py:18-24 | the seven constants have pairwise distinct codes |
| DTypes.ConstantCode | toydb/dtypes.py:18-24 | a constant is one character, and it is `s` exactly for STRING |
| DTypes.SchemaText | toydb/RowStruct.py:48 | a schema's type strings are `str(t)` of each column type, in order |
| DTypes.PredefinedSimple | toydb/dtypes.py:12-16 | `str(t)` or `t[n]` of a constant is a count followed by one format character, with count `n` (1 when bare) |
| DTypes.PredefinedItem | toydb/dtypes.py:12-24 | such a token is one struct item exactly when it is text or its count is 1, and which item it is |
| DTypes.PredefinedSchemaBuilds | toydb/RowStruct.py:40-49 | (corrected checks) any non-empty schema of single-item predefined types builds a codec, with format `endian + "?t1?t2..."` |
| DTypes.NegativeCountRejected | toydb/RowStruct.py:57-64 | a negative count (`STRING[-1]`) puts `-` in the format, so `_makeFmt`, as written and corrected, raises `SchemaError` for the first character of `fmt[1:]` outside the alphabet |
| DTypes.ShortTextTokens | toydb/dtypes.py:12-16 | `STRING[5]` is `"5s"`, `STRING()` is `"1s"` and `STRING[50]` is `"50s"` |
| RowStruct.EncodeText | toydb/RowStruct.py:18-23 | `None` becomes empty bytes and a string its bytes; any other object has no `encode` |
| RowStruct.StripRight | toydb/RowStruct.py:28 | strips exactly the trailing NUL bytes |
| RowStruct.StripLeft | toydb/RowStruct.py:28 | strips exactly the leading NUL bytes |
| RowStruct.DecodeText | toydb/RowStruct.py:25-28 | a decoded cell is the strict UTF-8 decoding of the bytes with NULs stripped from both ends |
| RowStruct.StripPadded | toydb/RowStruct.py:28 | bytes without NUL at either end, padded to the item width, strip back to themselves |
| RowStruct.TextRoundTrip | toydb/RowStruct.py:18-28 | a string whose encoding fits the width and has no NUL at either end decodes back after padding |
| RowStruct.EmptyTextSlot | toydb/RowStruct.py:28 | an all-zero text slot decodes to the empty string |
| RowStruct.DefaultAsWritten | toydb/RowStruct.py:30-38 | `_getDefault` as written gives `None` exactly for types with none of `i l f d c s ?` |
| RowStruct.Default | toydb/RowStruct.py:30-38 | (corrected) every numeric, text, char and bool type has a non-`None` placeholder; text columns get empty bytes |
| RowStruct.Flagged | toydb/RowStruct.py:58-61 | the flagged types of a non-empty schema start with a `?` flag |
| RowStruct.FlaggedAt | toydb/RowStruct.py:59-61 | column `k`'s type sits in the format right after its own `?` flag |
| RowStruct.FirstInvalid | toydb/RowStruct.py:62-64 | the first character outside `xc?hilqfds0-9`, found exactly when one exists |
| RowStruct.InvalidColumnRejected | toydb/RowStruct.py:62-64 | any column type with a character outside the alphabet makes `_makeFmt`, as written and corrected, raise `SchemaError` for the first character of `fmt[1:]` outside the alphabet |
| RowStruct.FormatResultAsWritten | toydb/RowStruct.py:51-67 | `_makeFmt` as written: an accepted format is `endian + flagged types`, of odd length |
| RowStruct.FormatResult | toydb/RowStruct.py:51-67 | (corrected) an accepted format is `endian + flagged types`, longer than one, every column one item, and all characters valid |
| RowStruct.MakeFmt | toydb/RowStruct.py:51-67 | `_makeFmt` as written: the loop over `fmt[1:]` raises at the first invalid character; otherwise an even-length or one-character format raises `AssertionError`, and any other is returned |
| RowStruct.FlaggedEven | toydb/RowStruct.py:59-64 | column types of odd length make a flagged body of even length |
| RowStruct.FormatAgrees | toydb/RowStruct.py:65 | the parity check as written and the corrected check agree on single-item column types of odd length behind a prefix of odd length |
| RowStruct.DefaultAgrees | toydb/RowStruct.py:30-38 | `_getDefault` as written and the corrected placeholder agree on every type without `c`, `h` or `q` |
| RowStruct.FormatChecksPass | toydb/RowStruct.py:51-67 | a format of valid characters and odd length, longer than one, passes `_makeFmt` as written |
| RowStruct.DoubleItemAsWritten | toydb/RowStruct.py:65 | `["ii", "ii"]` passes the parity check as `">?ii?ii"` and is refused by the corrected check |
| RowStruct.BareCountAsWritten | toydb/RowStruct.py:65 | `["5"]` passes the parity check as `">?5"`, which `struct.Struct` refuses; the corrected check refuses the schema |
| RowStruct.BareCountRejected | toydb/RowStruct.py:47 | `struct.Struct(">?5")` raises: a count with no format character |
| RowStruct.Build | toydb/RowStruct.py:40-47 | (corrected checks) a built codec has a well-formed compiled struct whose format is the one `_makeFmt` accepted |
| RowStruct.BuildOk | toydb/RowStruct.py:40-47 | (corrected checks) a codec builds exactly when there are columns, the byte order is a substring of `@=<>!`, and the format checks pass |
| RowStruct.FormatCompiles | toydb/RowStruct.py:46-47 | (corrected checks) a format that passes the checks always compiles in `struct.Struct` |
| RowStruct.BuildItems | toydb/RowStruct.py:46-47 | (corrected checks) a built codec's items are a `?` flag then the column's item, for each column in order |
| RowStruct.CompilePrefixed | toydb/RowStruct.py:47 | a one-character byte-order prefix selects the byte order and leaves the codes of the body |
| RowStruct.PrefixAtMostOne | toydb/RowStruct.py:42 | a prefix accepted by `endian in "@=<>!"` and the format check is empty or one order character |
| RowStruct.TextColumnItem | toydb/RowStruct.py:48 | a single-item column whose type mentions `s` is a text item |
| RowStruct.Slot | toydb/RowStruct.py:80-90 | the packed slot is the placeholder for `None`, the bytes for text, otherwise the value; a non-text object in a text column raises |
| RowStruct.Interleave | toydb/RowStruct.py:83-90 | the flattened arguments hold two entries per column, as far as the shorter of schema and row |
| RowStruct.InterleaveAt | toydb/RowStruct.py:86-90 | argument `2i` is column `i`'s presence flag and `2i+1` its slot |
| RowStruct.InterleaveOk | toydb/RowStruct.py:83-90 | flattening succeeds exactly when every column's slot can be formed |
| RowStruct.Cell | toydb/RowStruct.py:98-101 | a cell whose flag is false reads as `None` |
| RowStruct.Restore | toydb/RowStruct.py:97-102 | the restored row has one cell per column present in schema, flags and values |
| RowStruct.RestoreOk | toydb/RowStruct.py:97-102 | when every cell restores, the row is those cells in order |
| RowStruct.RestorePairs | toydb/RowStruct.py:97 | splitting `b[::2]`, `b[1::2]` and restoring pairs each flag with its value |
| RowStruct.Evens | toydb/RowStruct.py:97 | `b[::2]` |
| RowStruct.Odds | toydb/RowStruct.py:97 | `b[1::2]` |
| RowStruct.Dedup | toydb/RowStruct.py:71 | the keys of `{c: None for c in columns}`: the same names, each once, unchanged when already distinct |
| RowStruct.RowDictToList | toydb/RowStruct.py:69-73 | a dict row is accepted exactly when all its keys are columns, and becomes the column values in order with `None` for missing ones |
| RowStruct.StrRows | toydb/RowStruct.py:48 | one flag per column, true exactly for types containing `s` |
| RowStruct.Defaults | toydb/RowStruct.py:49 | (corrected placeholders) one placeholder per column, the type's default |
| RowStruct.RowStruct.constructor | toydb/RowStruct.py:40-49 | (corrected checks) a codec built from a schema that passes the checks is valid and keeps columns, types and byte order |
| RowStruct.RowStruct.New | toydb/RowStruct.py:40-49 | (corrected checks) `RowStruct(columns, types, endian)` fails exactly when building fails, with that error, and otherwise gives a fresh valid codec |
| RowStruct.RowStruct.Pack | toydb/RowStruct.py:75-91 | (corrected placeholders) a packed row is exactly one record long |
| RowStruct.RowStruct.Unpack | toydb/RowStruct.py:93-102 | unpack accepts only a whole record and gives one cell per column |
| RowStruct.ArgsLength | toydb/RowStruct.py:83-91 | an accepted row covers the schema and gives two arguments per column, which pack as the row does |
| RowStruct.PackedArgs | toydb/RowStruct.py:83-91 | the struct's items pair a `?` flag with each column's item, and the arguments pair each presence flag with the column's slot |
| RowStruct.NormalRow | toydb/RowStruct.py:93-102 | the row unpack returns: one cell per column |
| RowStruct.ColumnRoundTrip | toydb/RowStruct.py:83-101 | one column packed and unpacked restores to its value in packed form, or `None` when absent |
| RowStruct.UnpackPacked | toydb/RowStruct.py:91-97 | unpacking a packed row restores the flag and value halves of what the struct read back |
| RowStruct.ReadbackCells | toydb/RowStruct.py:94-101 | every column's pair read back restores to that column's normal cell |
| RowStruct.NormalizedCell | toydb/RowStruct.py:98-101 | the normalized flag and slot of a column restore to its normal cell |
| RowStruct.SizePositive | toydb/RowStruct.py:47 | every codec's record is at least one byte (the first flag) |
| RowStruct.RowRoundTrip | toydb/RowStruct.py:75-102 | for every row pack accepts whose text survives NUL stripping, `unpack(pack(row))` is the row in packed form, with `None` where it was `None` |
| RowStruct.PackOk | toydb/RowStruct.py:75-91 | (corrected placeholders) pack accepts a list row exactly when it covers the schema and every column accepts its value |
| RowStruct.PackAccepted | toydb/RowStruct.py:75-91 | (corrected placeholders) a row whose every column accepts its value packs |
| RowStruct.ArgFits | toydb/RowStruct.py:86-91 | every flattened argument of an accepted column fits its struct item |
| RowStruct.SimpleTokenCodes | toydb/RowStruct.py:47 | a token of digits and one format character parses as a single counted code |
| RowStruct.SimpleTokenItem | toydb/RowStruct.py:47 | such a token is one item exactly when it is text or has count 1, and which item it is |
| RowStruct.SimpleTokenChars | toydb/RowStruct.py:34-38 | the only non-digit in such a token is its format character, so `_getDefault`'s `in` tests see only that |
| RowStruct.DefaultFits | toydb/RowStruct.py:30-38 | the placeholder of every single-item simple column packs into its item |
| RowStruct.CharDefaultRejected | toydb/RowStruct.py:36-37 | `_getDefault("c")` is `b""`, which `struct` refuses for `c`; one zero byte packs |
| RowStruct.ShortDefaultRejected | toydb/RowStruct.py:30-38 | `_getDefault` gives `None` for `h` and `q`, which `struct` refuses; the integer 0 packs |
| RowStruct.IntegerPlaceholders | toydb/RowStruct.py:91 | `None` never packs into an integer item, and 0 always does |
| RowStruct.ParityRejectsShortText | toydb/RowStruct.py:65 | the parity assertion rejects `">?5s"` and `">?1s"` |
| RowStruct.ValidConcat | toydb/RowStruct.py:62-64 | concatenating valid texts keeps them valid |
| RowStruct.FlaggedChars | toydb/RowStruct.py:59-64 | flagged valid column types form a valid body |
| RowStruct.SimpleValid | toydb/RowStruct.py:62-64 | a digits-and-format-character token passes the character check |
| RowStruct.OrderCharSubstring | toydb/RowStruct.py:42 | one byte-order character passes `endian in "@=<>!"` |
| RowStruct.SimpleTypesValid | toydb/RowStruct.py:59-64 | a schema of simple tokens passes the character check |
| RowStruct.SimpleSchemaBuilds | toydb/RowStruct.py:40-67 | every non-empty schema of single-item simple tokens builds a codec, whatever the token lengths |
| RowStruct.Text50Item | tests/test_toydb.py:43 | `"50s"` is one 50-byte text item |
| RowStruct.IntBoolItems | tests/test_toydb.py:44-45 | `"i"` and `"?"` are a 4-byte integer item and a 1-byte bool item |
| RowStruct.SampleText | tests/test_toydb.py:49-53 | the test's text values are accepted by the `"50s"` column and read back unchanged |
| RowStruct.SampleInt | tests/test_toydb.py:49-53 | the test's integers are accepted by the `"i"` column and read back unchanged |
| RowStruct.SampleBool | tests/test_toydb.py:49-53 | the test's booleans and `None` are accepted by the `"?"` column and read back unchanged |
| RowStruct.SampleColumns | tests/test_toydb.py:42-53 | each test row is accepted column by column by the test schema |
| RowStruct.SampleRoundTrip | tests/test_toydb.py:42-55 | each test row packs with the test schema's codec and unpacks to itself |
| RowStruct.SampleSchemaBuilds | tests/test_toydb.py:42-47 | the test schema builds a codec with format `">?50s?i??"` |
| RowStruct.SampleAgrees | tests/test_toydb.py:42-47 | on the test schema the format check and placeholders as written agree with the corrected ones |
| RowStruct.SampleTypesShort | tests/test_toydb.py:43-45 | the test schema's types have odd length and no `c`, `h` or `q` |
| Database.ChunksConcat | toydb/Database.py:188-200 | the blocks `_iterReadBytes` yields concatenate back to the file (nothing for n = 0) |
| Database.ChunksShape | toydb/Database.py:196-200 | every block is non-empty and at most `n` bytes, and all but the last are exactly `n` |
| Database.FullLength | toydb/Database.py:196-200 | when every block is full, the file is `n` times the number of blocks |
| Database.BlockAt | toydb/Database.py:181-186 | with full blocks, reading `n` bytes at `n*i` gives block `i` |
| Database.BlockFromEnd | toydb/Database.py:181-186 | with full blocks, reading `n` bytes at `n*line` from the end gives block `count + line` |
| Database.ChunksAppend | toydb/Database.py:188-200 | appending to a file of full blocks appends the blocks of what was appended |
| Database.CatalogKeys | toydb/Database.py:144-147 | codecs for every catalogued name cover exactly the tables |
| Database.Schemas | toydb/Database.py:144-147 | the schemas in catalog order |
| Database.BuildError | toydb/Database.py:144-147 | (corrected checks) building one table's codec fails exactly when `RowStruct.Build` does |
| Database.CatalogSnoc | toydb/Database.py:107-111 | adding a new table keeps the catalog and appends its schema |
| Database.CatalogWedged | toydb/Database.py:107-113 | once a schema the codec rejects is in the catalog, every later `createTable` raises the same error |
| Database.CatalogGrows | toydb/Database.py:107-113 | a catalog whose codecs load stays loadable when a table with a buildable schema is added |
| Database.AppendStep | toydb/Database.py:243-262 | a successful insert appends exactly the packed row to the table's file, leaves no lock and changes no other file |
| Database.InsertManyAppends | toydb/Database.py:264-272 | `insertMany` appends the packed rows up to the first rejected one, reports that row's error, and changes no other file |
| Database.InsertManyError | toydb/Database.py:264-272 | `insertMany` raises exactly the first pack error |
| Database.InsertManyContents | toydb/Database.py:264-272 | the table's file grows by the packed rows before the first failure |
| Database.InsertManyElsewhere | toydb/Database.py:264-272 | no other file changes |
| Database.InsertManyUnknown | toydb/Database.py:264-272 | for an unknown table, `insertMany` changes nothing and raises unless there are no rows |
| Database.UnpackAllAt | toydb/Database.py:216-217 | row `i` of the scan is the unpacking of block `i` |
| Database.Collect | toydb/Database.py:219-225 | collecting succeeds exactly when every row does, and then lists them in order |
| Database.CollectFirstError | toydb/Database.py:219-225 | collecting raises the first row error |
| Database.ReadAllBlocks | toydb/Database.py:202-225 | a successful read means the table exists with no lock, its file is whole records, and row `i` is record `i` unpacked |
| Database.InsertThenRead | toydb/Database.py:219-262 | after a successful insert, reading all lines gives the old rows plus the unpacking of the new record |
| Database.ScanAppend | toydb/Database.py:202-217 | scanning a file with one more record appends that record's row |
| Database.ScanFull | toydb/Database.py:196-217 | a scan where every record unpacks sees only whole records |
| Database.CollectSnoc | toydb/Database.py:225 | collecting one more result appends it, or raises its error |
| Database.InsertRowThenRead | toydb/Database.py:219-262 | after inserting a list row, reading all lines gives the old rows plus that row in packed form |
| Database.Lists | toydb/Database.py:271-272 | one list row per value row, in order |
| Database.NormalRows | toydb/Database.py:219-225 | the rows read back for storable value rows, one per row |
| Database.InsertManyThenRead | toydb/Database.py:219-272 | `insertMany` of storable rows raises nothing, and reading all lines then gives the old rows followed by the inserted rows in packed form |
| Database.InsertFirst | toydb/Database.py:264-272 | `insertMany` is the insert of the first row followed by `insertMany` of the rest |
| Database.NormalRowsCons | toydb/Database.py:271-272 | storable rows stay storable without their first row |
| Database.StorablePacks | toydb/Database.py:253 | a storable row packs |
| Database.EmptyTable | toydb/Database.py:219-225 | a freshly created (empty) table reads as no rows |
| Database.TestRowsStorable | tests/test_toydb.py:42-53 | the test rows are storable in the test schema and read back unchanged |
| Database.TestRowAt | tests/test_toydb.py:49-53 | each test row is accepted by every column and reads back as itself |
| Database.TestTableReadWrite | tests/test_toydb.py:37-55 | `insertMany` of the three test rows into the empty test table raises nothing, and reading all lines gives exactly those rows |
| Database.LineAsWrittenUnbound | toydb/Database.py:181-185 | as written, `_readLine` raises `UnboundLocalError` for every line number that is not negative |
| Database.OffsetSign | toydb/Database.py:181-182 | with a positive record size, the offset is negative exactly for negative line numbers |
| Database.LineFromEnd | toydb/Database.py:168-186 | a negative line number `-k` reads the `k`-th row from the end, both as written and corrected |
| Database.SeekFromEnd | toydb/Database.py:183-186 | seeking `size*line` from the end reads record `count + line` |
| Database.LineFromStart | toydb/Database.py:168-186 | with the seek mode set for non-negative offsets, line `i` reads row `i` |
| Database.Database.constructor | toydb/Database.py:59-74 | a database over a catalog and its loaded codecs |
| Database.Database.Open | toydb/Database.py:72-74 | opening loads the codecs, fails exactly with the first schema error, and otherwise has a codec for every table |
| Database.Database.ListTables | toydb/Database.py:79-84 | every table, each once, and nothing else |
| Database.Database.GetTableSchema | toydb/Database.py:86-94 | the stored schema of the lower-cased name, and an assertion error exactly when it is not a table |
| Database.Database.LoadStructs | toydb/Database.py:139-147 | one codec per table, consistent with its schema, or exactly the first schema error in catalog order |
| Database.Database.CreateTable | toydb/Database.py:96-113 | a name with a space or an existing name raises and changes nothing; otherwise the table is catalogued with an empty file, and the codecs reload or raise the first schema error |
| Database.Database.Insert | toydb/Database.py:243-262 | insert changes only the files, exactly as `InsertStep` says, and raises its error otherwise |
| Database.Database.InsertMany | toydb/Database.py:264-272 | the loop of inserts leaves the files `InsertAll` gives and raises the first error |
| Database.Database.IterReadBytes | toydb/Database.py:188-200 | the read loop yields exactly the blocks `Chunks` of the file, or raises for a missing file |
| Database.Database.IterReadAllLines | toydb/Database.py:202-217 | the rows of the table's blocks, each unpacked, after the table and lock checks |
| Database.Database.UnpackEach | toydb/Database.py:216-217 | unpacking every block in turn |
| Database.Database.ReadAllLines | toydb/Database.py:219-225 | every row of the table, or the first error |
| Database.Database.Drain | toydb/Database.py:225 | draining the generator collects the rows or raises the first error |
| Database.Database.ReadLineAsWritten | toydb/Database.py:168-186 | `_readLine` as written |
| Database.Database.ReadLine | toydb/Database.py:168-186 | `_readLine` with the seek mode set for both signs |
| IndexedData.Check | IndexedData.py:9-13 | an integer item is stored by `array(type)` exactly when it lies in the type code's range (below 2^1024 - 2^970 in magnitude for `f` and `d`, where the conversion to a double overflows); `u` raises `TypeError` |
| IndexedData.FirstRejected | IndexedData.py:11-13 | no item is rejected exactly when every item fits the type code |
| IndexedData.UpperBound | IndexedData.py:12 | `bisect.bisect`: every element before the position is at most `x`, and the element at it is greater |
| IndexedData.UpperBoundAbove | IndexedData.py:12 | in a sorted array, every element from the position on is greater than `x` |
| IndexedData.UpperBoundUnique | IndexedData.py:12 | that position is the only one splitting the array so |
| IndexedData.BisectRight | IndexedData.py:12 | binary search returns the rightmost insertion point |
| IndexedData.Ins | IndexedData.py:13-14 | `array.insert(pos, v)` puts `v` at `pos` and shifts the rest right |
| IndexedData.InsMultiset | IndexedData.py:13 | inserting adds exactly one occurrence of the value |
| IndexedData.SortSorted | IndexedData.py:11-13 | the data array ends sorted |
| IndexedData.SortPermutation | IndexedData.py:11-13 | the data array is a permutation of the input |
| IndexedData.SortPicks | IndexedData.py:11-14 | `data[j] == items[index[j]]` for every position |
| IndexedData.SortPermutes | IndexedData.py:11-14 | the index array holds every original position exactly once |
| IndexedData.SortStable | IndexedData.py:12-14 | equal items keep their original order |
| IndexedData.SortAbove | IndexedData.py:12 | after the insertion point, every element of the sorted array is greater |
| IndexedData.IndexedData.Empty | IndexedData.py:8-10 | empty data and index arrays with the type code |
| IndexedData.IndexedData.New | IndexedData.py:7-14 | raises exactly when the type code or an item is refused, and otherwise holds the sorted data and the index built item by item |
| IndexedData.IndexedData.Insert | IndexedData.py:11-14 | inserting item `i` adds it to the items and keeps the data and index arrays equal to the sort of the items so far |
| IndexedData.IndexedData.Length | IndexedData.py:19-20 | `len` is the number of items |
| IndexedData.IndexedData.GetItem | IndexedData.py:22-23 | `__getitem__` returns `None` |
| IndexedData.IndexedData.Add | IndexedData.py:25-26 | `add` changes nothing |
| BloomFilter.BloomFilter.Digest | BloomFilter.py:64-70 | `mmh3.hash(item, i) % size` is a bit index |
| BloomFilter.BloomFilter.Marked | BloomFilter.py:63-65 | marking keeps the array size |
| BloomFilter.BloomFilter.MarkedExact | BloomFilter.py:63-65 | after marking, a bit is set exactly when it was set or is one of the item's digests |
| BloomFilter.BloomFilter.NoFalseNegative | BloomFilter.py:62-73 | after `add(item)`, every digest bit of the item is set |
| BloomFilter.BloomFilter.AddKeeps | BloomFilter.py:62-73 | adding never makes a present item absent |
| BloomFilter.BloomFilter.constructor | BloomFilter.py:45-51 | `size` clear bits, no item added |
| BloomFilter.BloomFilter.SetAll | BloomFilter.py:49-50 | `setall(0)` clears every bit |
| BloomFilter.BloomFilter.Length | BloomFilter.py:53-54 | `len` is the number of items added |
| BloomFilter.BloomFilter.Add | BloomFilter.py:62-66 | sets exactly the item's digest bits, counts it, and keeps every added item present |
| BloomFilter.BloomFilter.SetDigests | BloomFilter.py:63-65 | the loop sets the digest bits in turn |
| BloomFilter.BloomFilter.Check | BloomFilter.py:68-73 | true exactly when every digest bit is set |
| BloomFilter.BloomFilter.Contains | BloomFilter.py:59-60 | `in` is `check`, and every added item is reported present |
| BloomFilter.BloomFilter.Clear | BloomFilter.py:75-77 | every bit cleared and the count back to zero |

## Left out

- JSON persistence of the catalog (`_loadMetadata`, `_writeMetadata`) is not modelled. `dtypes.get_type_from_string` and `dtypes.JSONEncoder` are not part of this model. The catalog is a `Database` field, and the column types are the strings `str(t)` that the codec reads, so `_getDefault`'s `isinstance(type, dtypes.DType)` branch is the identity.
- `Database.__init__`'s directory handling (`_validateDirectory`, `_new`, `new`, `remove`) is left out; `Database.Open` starts from a catalog that has been read.
- `query`, `delete`, `printSchema` and `__str__` are left out: they are unimplemented or only print.
- Database.Database.Insert: the busy-wait on an existing lock file is modelled as a `Busy` error. In a single-process model no one else can remove the lock, so the loop would never end. Taking and releasing the lock is one step.
- Database.Database.IterReadAllLines: generator laziness is not modelled. The scan is produced whole, so a row that fails to unpack fails the whole call rather than the iteration at that row.
- `util.md5` and `mmh3.hash` are function parameters, not implementations.
- PyStruct.PackFloat: the IEEE conversion of integers to `f`/`d` is not modelled. Only 0 and `False` pack (as zero bytes); any other integer gives an `Unmodelled` error, and floats are opaque bit patterns.
- PyStruct.PackFloat: a `Float` is a 64-bit pattern everywhere except in a 4-byte `f` slot, which writes and reads it as a 32-bit pattern. Python's narrowing of a double to single precision (rounding, and `OverflowError` out of range) and the widening of the unpacked single back to a double are not modelled. As a consequence:
  - `Float(1)` (the double 5e-324) packs into `f` and reads back as `Float(1)`, where Python rounds it to 0.0 and writes four zero bytes;
  - `Float(0x3FF0_0000_0000_0000)` (1.0) gives `Unmodelled` in `f` while it packs in `d`, so an `F32` column accepts no ordinary non-zero float;
  - an `f` slot holding the single-precision -0.0 (bytes `80 00 00 00` big-endian) reads back as `Float(0x8000_0000)`, which `Truthy` takes as true, where Python's `bool(-0.0)` is false.
- RowStruct.RowRoundTrip: for an `F32` column, the value read back exactly is the 32-bit pattern of the `f` slot (see PyStruct.PackFloat), not Python's value rounded to single precision and widened back.
- PyStruct.Compile: native mode is left out. The `@` prefix and the empty prefix (which passes `endian in "@=<>!"`) select native sizes and alignment, for example an 8-byte `l` on 64-bit Linux. The model takes `@`, `=` and no prefix as little-endian with standard sizes and no alignment.
- `str.lower` is modelled for ASCII letters only.
- PyStruct.ParseCodes: repeat counts and record sizes are unbounded. `struct` raises `struct.error` once a count or the total size exceeds `Py_ssize_t`, so a schema such as `STRING[2**63]` compiles here but not in Python.
- BloomFilter.BloomFilter.constructor: the float sizing formulas (`probFalsePos`, `bitArrSize`, `nHashFns`) are left out. The constructor takes `size` and `hashcount` directly (both at least 1, as `max(1, …)` guarantees).
- BloomFilter.BloomFilter.Valid: the ghost sequence of added items exists only for the no-false-negative invariant.
- IndexedData.IndexedData.New: typecode widths are those of 64-bit Linux. Items are Python integers only (see IndexedData.Check). The rounding of items stored in an `f`/`d` array is left out (items are kept exactly). The overflow of the `"I"` index array (more than 2^32 items) is left out.
- IndexedData.Check: items are Python integers only. Float items for `f`/`d` and one-character strings for `u` cannot be expressed, so a `u` array always raises `TypeError` here.
- Utf8.DecodeEncode: Dafny strings hold Unicode scalar values only. A string with a lone surrogate, on which `str.encode()` raises `UnicodeEncodeError`, cannot be expressed; the round trip covers every other string.
- RowStruct.EncodeText: the `UnicodeEncodeError` that `str.encode()` raises on a lone surrogate is not modelled (see Utf8.DecodeEncode).
- RowStruct.FormatResult: corrected. `_makeFmt` asserts that the format has odd length (toydb/RowStruct.py:65); this member asks instead that every column type is one struct item. `["5s"]` and `["1s"]` are refused as written and accepted here. `["ii", "ii"]` and `["5"]` pass as written and are refused here. RowStruct.FormatAgrees gives the schemas on which the two agree. The as-written check is RowStruct.FormatResultAsWritten, and RowStruct.MakeFmt is proved against it.
- RowStruct.Build: corrected checks (RowStruct.FormatResult). It builds `["5s"]`, which the source refuses with `AssertionError`. It refuses `["ii", "ii"]`, which the source builds with six items. It refuses `["5"]` with `AssertionError` where the source raises `struct.error`.
- RowStruct.BuildOk: holds of the corrected checks only. As written, `["5"]` passes `_makeFmt` and `struct.Struct(">?5")` raises (RowStruct.BareCountAsWritten).
- RowStruct.FormatCompiles: holds of the corrected checks only, for the same input `["5"]`.
- RowStruct.BuildItems: holds of the corrected checks only. As written, `["ii", "ii"]` builds a codec of six items, in which flags and values do not alternate (RowStruct.DoubleItemAsWritten).
- RowStruct.Default: corrected. It gives one zero byte for `c` and 0 for `h`/`q`, where `_getDefault` gives `b""` and `None` (RowStruct.DefaultAsWritten). The two agree on every type without `c`, `h` or `q` (RowStruct.DefaultAgrees).
- RowStruct.Defaults: the corrected placeholders of RowStruct.Default.
- RowStruct.RowStruct.constructor: requires the corrected RowStruct.Build. So the model has a codec object for `["5s"]`, which the source refuses, and none for `["ii", "ii"]`, which the source builds.
- RowStruct.RowStruct.New: corrected checks. It fails on `["ii", "ii"]`, where the source builds a codec, and succeeds on `["5s"]`, where the source raises `AssertionError`.
- RowStruct.RowStruct.Pack: corrected placeholders. `pack([None])` on a `["c"]`, `["h"]` or `["q"]` schema succeeds here, where the source raises `struct.error` (RowStruct.CharDefaultRejected, RowStruct.ShortDefaultRejected).
- RowStruct.PackOk: about the corrected placeholders. A `None` in a `c`, `h` or `q` column is accepted here and refused as written.
- RowStruct.PackAccepted: about the corrected placeholders, as RowStruct.PackOk.
- DTypes.PredefinedSchemaBuilds: about the corrected checks. A text column of even length such as `STRING[5]` (`"5s"`) builds here but not as written.
- Database.BuildError: uses the corrected checks, so Database.Database.CreateTable, Database.Database.LoadStructs, Database.Database.Open and Database.Database.Insert follow them. A `["5s"]` table is created. A `["ii", "ii"]` table is refused and, by Database.CatalogWedged, wedges the catalog, where the source creates it and every insert into it raises `struct.error` (at most four arguments for six items).
- `IndexedData.__repr__` is left out: it returns an array where a string is required, so it always raises.

## Findings

| source | as written | input that shows it | evidently intended | confidence | as-written member | corrected member |
|---|---|---|---|---|---|---|
| toydb/RowStruct.py:65 | the format's length must be odd, which assumes every column type is one character | schema `[STRING[5]]` gives `">?5s"` (even length), so `AssertionError`; `STRING()` (`"1s"`) fails the same way | every column type is one struct item, so flags and values alternate | not executed | RowStruct.ParityRejectsShortText | RowStruct.SimpleSchemaBuilds |
| toydb/RowStruct.py:65 | the parity check lets through odd-length formats whose columns are several items | schema `["ii", "ii"]` gives `">?ii?ii"`, which passes and compiles to six items, so flags and values no longer alternate | every column type is one struct item | not executed | RowStruct.DoubleItemAsWritten | RowStruct.BuildItems |
| toydb/RowStruct.py:65 | the parity check lets through a bare count | schema `["5"]` gives `">?5"`, which passes `_makeFmt`; `struct.Struct` then raises `struct.error` | a format that passes the checks compiles | not executed | RowStruct.BareCountAsWritten | RowStruct.FormatCompiles |
| toydb/RowStruct.py:36-37 | `_getDefault` gives `b""` for a `c` column | `pack([None])` on a `["c"]` schema passes `b""` to `struct` for `c`, which needs exactly one byte, so `struct.error` | a one-byte placeholder | not executed | RowStruct.CharDefaultRejected | RowStruct.DefaultFits |
| toydb/RowStruct.py:34-38 | `_getDefault` gives `None` for `h` and `q` columns | `pack([None])` on a `["h"]` or `["q"]` schema passes `None` to an integer item, so `struct.error` | the integer 0, as for `i` and `l` | not executed | RowStruct.ShortDefaultRejected | RowStruct.DefaultFits |
| toydb/Database.py:181-185 | `whence` is assigned only when the offset is negative | `_readLine(t, 0)` on any table raises `UnboundLocalError` | seek from the start (`whence = 0`) for a non-negative offset | not executed | Database.LineAsWrittenUnbound | Database.LineFromStart |

Other behaviours of the source that the model keeps as written:

- Database.CatalogWedged: `createTable` adds the catalog entry before reloading the codecs. A schema the codec rejects therefore stays in the catalog, and every later `createTable` raises the same error.
- IndexedData.IndexedData.New: the default type code `""` makes `array("")` raise `TypeError`.
- `tests/test_toydb.py:55` calls `query(table_name)`, but `query` (toydb/Database.py:227) also takes a required `from_`, so the call raises `TypeError`; even with it, `query` returns nothing. Database.TestTableReadWrite states what the test means instead: `_readAllLines` returns exactly the rows `insertMany` stored.
