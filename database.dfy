/** The catalog and table store of toydb (toydb/Database.py).  A database
    keeps a catalog of tables (name, schema, file), one row codec per table,
    and the table files themselves, each a plain concatenation of packed
    rows.  The file system is a map from path to contents; a lock file is
    the path with `.lock` appended. */
module Database {
  import opened Base
  import opened Text
  import RowStruct

  type Files = map<string, seq<byte>>

  /** A catalog entry: the schema (column names and type strings, in the
      schema's order), the index list and the table's file. */
  datatype Table = Table(columns: seq<string>, types: seq<string>, indexes: seq<string>, filename: string)

  /** What a file holds; a missing file reads as empty once created. */
  function Contents(files: Files, path: string): seq<byte>
  {
    if path in files then files[path] else []
  }

  function LockPath(path: string): string
  {
    path + ".lock"
  }

  // ---------------------------------------------------------------------
  // Reading a file a block at a time

  /** `f.read(n)` with the file position at `pos`: a negative `n` reads
      to the end, and a read at or past the end gives nothing. */
  function ReadAt(data: seq<byte>, pos: nat, n: int): seq<byte>
  {
    if pos >= |data| then []
    else if n < 0 || |data| - pos < n then data[pos..]
    else data[pos..pos + n]
  }

  /** The blocks `_iterReadBytes` yields: reads of `n` bytes from the
      start of the file until a read comes back empty. */
  function Chunks(data: seq<byte>, n: int): (r: seq<seq<byte>>)
    ensures forall i :: 0 <= i < |r| ==> r[i] != []
    decreases |data|
  {
    var line := ReadAt(data, 0, n);
    if line == [] then [] else [line] + Chunks(data[|line|..], n)
  }

  function Concat(blocks: seq<seq<byte>>): seq<byte>
  {
    if blocks == [] then [] else blocks[0] + Concat(blocks[1..])
  }

  /** The blocks of a file put back together give the file, unless the
      block size is 0, when no block is read at all. */
  lemma {:induction false} ChunksConcat(data: seq<byte>, n: int)
    ensures Concat(Chunks(data, n)) == if n == 0 then [] else data
    decreases |data|
  {
    var line := ReadAt(data, 0, n);
    if line != [] {
      ChunksConcat(data[|line|..], n);
      assert data == line + data[|line|..];
    }
  }

  /** With a positive block size every block is full except possibly the
      last, and none is empty. */
  lemma {:induction false} ChunksShape(data: seq<byte>, n: int)
    requires n > 0
    ensures forall i :: 0 <= i < |Chunks(data, n)| ==> 0 < |Chunks(data, n)[i]| <= n
    ensures forall i :: 0 <= i < |Chunks(data, n)| - 1 ==> |Chunks(data, n)[i]| == n
    decreases |data|
  {
    if data != [] {
      var line := ReadAt(data, 0, n);
      ChunksShape(data[|line|..], n);
      if |line| < n {
        assert data[|line|..] == [];
      }
    }
  }

  /** Every block is full. */
  predicate AllFull(blocks: seq<seq<byte>>, n: int)
  {
    forall i :: 0 <= i < |blocks| ==> |blocks[i]| == n
  }

  /** The blocks after the first of a file of full blocks are the blocks of
      the rest of the file. */
  lemma FullFirst(data: seq<byte>, n: int)
    requires n > 0 && AllFull(Chunks(data, n), n) && data != []
    ensures n <= |data| && Chunks(data, n)[0] == data[..n]
    ensures Chunks(data[n..], n) == Chunks(data, n)[1..] && AllFull(Chunks(data[n..], n), n)
  {
    assert |Chunks(data, n)[0]| == n;
  }

  /** A file of full blocks is a whole number of blocks. */
  lemma {:induction false} FullLength(data: seq<byte>, n: int)
    requires n > 0 && AllFull(Chunks(data, n), n)
    ensures |data| == n * |Chunks(data, n)|
    decreases |data|
  {
    if data != [] {
      FullFirst(data, n);
      FullLength(data[n..], n);
      MulStep(n, |Chunks(data, n)|);
    }
  }

  /** Block `i` of a file of full blocks is the read at offset `n * i`. */
  lemma {:induction false} BlockAt(data: seq<byte>, n: int, i: nat)
    requires n > 0 && AllFull(Chunks(data, n), n) && i < |Chunks(data, n)|
    ensures 0 <= n * i && n * i + n <= |data|
    ensures ReadAt(data, n * i, n) == Chunks(data, n)[i]
    decreases i
  {
    FullFirst(data, n);
    if i > 0 {
      var rest := data[n..];
      BlockAt(rest, n, i - 1);
      MulStep(n, i);
      assert rest[n * (i - 1)..] == data[n * i..];
    }
  }

  /** For a negative `line`, the read `n * -line` bytes before the end is
      block `|blocks| + line`. */
  lemma BlockFromEnd(data: seq<byte>, n: int, line: int)
    requires n > 0 && AllFull(Chunks(data, n), n) && -|Chunks(data, n)| <= line < 0
    ensures 0 <= |data| + n * line
    ensures ReadAt(data, |data| + n * line, n) == Chunks(data, n)[|Chunks(data, n)| + line]
  {
    var c := |Chunks(data, n)|;
    FullLength(data, n);
    BlockAt(data, n, c + line);
    MulDiff(n, c, line);
  }

  lemma MulStep(n: int, i: int)
    ensures n * (i - 1) + n == n * i
  {
  }

  lemma MulDiff(n: int, c: int, line: int)
    ensures n * c + n * line == n * (c + line)
  {
  }

  /** Appending to a file of full blocks appends the new blocks. */
  lemma {:induction false} ChunksAppend(a: seq<byte>, b: seq<byte>, n: int)
    requires n > 0 && AllFull(Chunks(a, n), n)
    ensures Chunks(a + b, n) == Chunks(a, n) + Chunks(b, n)
    decreases |a|
  {
    if a == [] {
      assert a + b == b;
    } else {
      FullFirst(a, n);
      ChunksAppend(a[n..], b, n);
      ChunksCons(a, n);
      ChunksCons(a + b, n);
      assert (a + b)[..n] == a[..n] && (a + b)[n..] == a[n..] + b;
      SeqAssoc([a[..n]], Chunks(a[n..], n), Chunks(b, n));
    }
  }

  lemma SeqAssoc<T>(x: seq<T>, y: seq<T>, z: seq<T>)
    ensures x + (y + z) == (x + y) + z
  {
  }

  /** A file of at least one full block starts with that block. */
  lemma ChunksCons(data: seq<byte>, n: int)
    requires 0 < n <= |data|
    ensures Chunks(data, n) == [data[..n]] + Chunks(data[n..], n)
  {
    assert ReadAt(data, 0, n) == data[..n];
  }

  lemma OneChunk(b: seq<byte>, n: int)
    requires n > 0 && |b| == n
    ensures Chunks(b, n) == [b]
  {
    assert b[0..n] == b && b[n..] == [];
  }

  // ---------------------------------------------------------------------
  // The catalog

  /** The catalog's names are distinct and are exactly its tables. */
  ghost predicate Catalog(names: seq<string>, tables: map<string, Table>)
  {
    RowStruct.NoDup(names) && forall t :: t in tables <==> t in names
  }

  /** A loaded codec: valid, built from the table's schema, big-endian. */
  ghost predicate Loaded(rs: RowStruct.RowStruct, table: Table)
  {
    rs.Valid() && rs.columns == table.columns && rs.types == table.types && rs.endian == ">"
  }

  ghost predicate Consistent(tables: map<string, Table>, structs: map<string, RowStruct.RowStruct>)
  {
    forall t :: t in structs ==> t in tables && Loaded(structs[t], tables[t])
  }

  lemma ConsistentAdd(tables: map<string, Table>, structs: map<string, RowStruct.RowStruct>, t: string, rs: RowStruct.RowStruct)
    requires Consistent(tables, structs) && t in tables && Loaded(rs, tables[t])
    ensures Consistent(tables, structs[t := rs])
  {
  }

  /** A codec map holding every catalogued name, and only tables, has
      exactly the tables' names as keys. */
  lemma CatalogKeys(names: seq<string>, tables: map<string, Table>, structs: map<string, RowStruct.RowStruct>)
    requires Catalog(names, tables) && Consistent(tables, structs)
    requires forall k :: 0 <= k < |names| ==> names[k] in structs
    ensures structs.Keys == tables.Keys
  {
  }

  /** The column types of the tables, in catalog order. */
  function Schemas(names: seq<string>, tables: map<string, Table>): (r: seq<seq<string>>)
    requires forall k :: 0 <= k < |names| ==> names[k] in tables
    ensures |r| == |names| && forall k :: 0 <= k < |names| ==> r[k] == tables[names[k]].types
  {
    seq(|names|, k requires 0 <= k < |names| => tables[names[k]].types)
  }

  /** The error building the codec of one schema raises, if any. */
  function BuildError(types: seq<string>): (r: Option<Error>)
    ensures r.None? <==> RowStruct.Build(types, ">").Ok?
  {
    match RowStruct.Build(types, ">")
    case Err(e) => Some(e)
    case Ok(_) => None
  }

  /** The first error `_loadStructs` meets building the codecs of these
      schemas in order, if any. */
  function FirstBuildError(schemas: seq<seq<string>>): Option<Error>
  {
    FirstError(BuildError, schemas)
  }

  /** Adding a new table to the catalog appends its schema. */
  lemma CatalogSnoc(names: seq<string>, tables: map<string, Table>, t: string, table: Table)
    requires Catalog(names, tables) && t !in tables
    ensures Catalog(names + [t], tables[t := table])
    ensures Schemas(names + [t], tables[t := table]) == Schemas(names, tables) + [table.types]
  {
    assert Schemas(names + [t], tables[t := table]) == Schemas(names, tables) + [table.types];
  }

  /** A schema the codec rejects wedges the catalog: once loading the
      codecs fails, it fails with the same error after any new table is
      added, so every later `createTable` raises too. */
  lemma CatalogWedged(names: seq<string>, tables: map<string, Table>, t: string, table: Table)
    requires Catalog(names, tables) && t !in tables
    requires FirstBuildError(Schemas(names, tables)).Some?
    ensures Catalog(names + [t], tables[t := table])
    ensures FirstBuildError(Schemas(names + [t], tables[t := table])) == FirstBuildError(Schemas(names, tables))
  {
    CatalogSnoc(names, tables, t, table);
    FirstErrorSnoc(BuildError, Schemas(names, tables), table.types);
  }

  /** A catalog whose codecs all load stays so when a table with a schema
      the codec accepts is added: `createTable` of such a schema succeeds. */
  lemma CatalogGrows(names: seq<string>, tables: map<string, Table>, t: string, table: Table)
    requires Catalog(names, tables) && t !in tables
    requires FirstBuildError(Schemas(names, tables)).None? && BuildError(table.types).None?
    ensures Catalog(names + [t], tables[t := table])
    ensures FirstBuildError(Schemas(names + [t], tables[t := table])).None?
  {
    CatalogSnoc(names, tables, t, table);
    FirstErrorSnoc(BuildError, Schemas(names, tables), table.types);
  }

  // ---------------------------------------------------------------------
  // Inserting rows

  /** `insert(name, row)` on the state: the table must be known and have a
      codec, the row must pack, and the lock file must be absent (a present
      one makes the insert spin forever); the packed row is then appended
      to the table's file, which is created if missing. */
  function InsertStep(tables: map<string, Table>, structs: map<string, RowStruct.RowStruct>, files: Files,
                      name: string, row: RowStruct.RowArg): Result<Files>
    requires Consistent(tables, structs)
  {
    var t := Lower(name);
    if t !in tables then Err(AssertionError)
    else if t !in structs then Err(AttributeError)
    else match structs[t].Pack(row)
      case Err(e) => Err(e)
      case Ok(data) =>
        var f := tables[t].filename;
        if LockPath(f) in files then Err(Busy)
        else Ok(files[f := Contents(files, f) + data])
  }

  /** `insertMany`: the inserts one after another, stopping at the first
      that raises, with the files as that point left them. */
  function InsertAll(tables: map<string, Table>, structs: map<string, RowStruct.RowStruct>, files: Files,
                     name: string, rows: seq<RowStruct.RowArg>): (Files, Option<Error>)
    requires Consistent(tables, structs)
    decreases |rows|
  {
    if rows == [] then (files, None)
    else match InsertStep(tables, structs, files, name, rows[0])
      case Err(e) => (files, Some(e))
      case Ok(files') => InsertAll(tables, structs, files', name, rows[1..])
  }

  /** The bytes the rows pack to, up to the first row `pack` rejects, and
      that row's error. */
  function PackAll(rs: RowStruct.RowStruct, rows: seq<RowStruct.RowArg>): (r: (seq<byte>, Option<Error>))
    requires rs.Valid()
  {
    if rows == [] then ([], None)
    else match rs.Pack(rows[0])
      case Err(e) => ([], Some(e))
      case Ok(data) => var rest := PackAll(rs, rows[1..]); (data + rest.0, rest.1)
  }

  /** The two file systems agree on every path but `f`. */
  ghost predicate SameElsewhere(a: Files, b: Files, f: string)
  {
    forall p :: p != f ==> (p in a <==> p in b) && (p in a ==> a[p] == b[p])
  }

  /** One insert into an unlocked table whose row packs appends the packed
      row and leaves the table unlocked. */
  lemma AppendStep(tables: map<string, Table>, structs: map<string, RowStruct.RowStruct>,
                   files: Files, name: string, row: RowStruct.RowArg) returns (files': Files)
    requires Consistent(tables, structs)
    requires Lower(name) in tables && Lower(name) in structs
    requires LockPath(tables[Lower(name)].filename) !in files
    requires structs[Lower(name)].Pack(row).Ok?
    ensures var f := tables[Lower(name)].filename;
      && InsertStep(tables, structs, files, name, row) == Ok(files')
      && Contents(files', f) == Contents(files, f) + structs[Lower(name)].Pack(row).value
      && LockPath(f) !in files' && SameElsewhere(files', files, f)
  {
    var f := tables[Lower(name)].filename;
    files' := files[f := Contents(files, f) + structs[Lower(name)].Pack(row).value];
    assert LockPath(f) != f by { assert |LockPath(f)| != |f|; }
  }

  /** `insertMany` into an unlocked table appends the packed rows in order;
      it is not atomic: when a row fails to pack, the rows before it stay
      appended and every other file is untouched. */
  lemma InsertManyAppends(tables: map<string, Table>, structs: map<string, RowStruct.RowStruct>,
                          files: Files, name: string, rows: seq<RowStruct.RowArg>)
    requires Consistent(tables, structs)
    requires Lower(name) in tables && Lower(name) in structs
    requires LockPath(tables[Lower(name)].filename) !in files
    ensures var f := tables[Lower(name)].filename;
      var out := InsertAll(tables, structs, files, name, rows);
      var packed := PackAll(structs[Lower(name)], rows);
      && out.1 == packed.1
      && Contents(out.0, f) == Contents(files, f) + packed.0
      && SameElsewhere(out.0, files, f)
  {
    InsertManyError(tables, structs, files, name, rows);
    InsertManyContents(tables, structs, files, name, rows);
    InsertManyElsewhere(tables, structs, files, name, rows);
  }

  lemma {:induction false} InsertManyError(tables: map<string, Table>, structs: map<string, RowStruct.RowStruct>,
                                           files: Files, name: string, rows: seq<RowStruct.RowArg>)
    requires Consistent(tables, structs)
    requires Lower(name) in tables && Lower(name) in structs
    requires LockPath(tables[Lower(name)].filename) !in files
    ensures InsertAll(tables, structs, files, name, rows).1 == PackAll(structs[Lower(name)], rows).1
    decreases |rows|
  {
    var rs := structs[Lower(name)];
    if rows != [] && rs.Pack(rows[0]).Ok? {
      var files' := AppendStep(tables, structs, files, name, rows[0]);
      InsertManyError(tables, structs, files', name, rows[1..]);
    }
  }

  lemma {:induction false} InsertManyContents(tables: map<string, Table>, structs: map<string, RowStruct.RowStruct>,
                                              files: Files, name: string, rows: seq<RowStruct.RowArg>)
    requires Consistent(tables, structs)
    requires Lower(name) in tables && Lower(name) in structs
    requires LockPath(tables[Lower(name)].filename) !in files
    ensures var f := tables[Lower(name)].filename;
      Contents(InsertAll(tables, structs, files, name, rows).0, f) == Contents(files, f) + PackAll(structs[Lower(name)], rows).0
    decreases |rows|
  {
    var rs := structs[Lower(name)];
    var f := tables[Lower(name)].filename;
    if rows == [] || rs.Pack(rows[0]).Err? {
      assert Contents(files, f) + [] == Contents(files, f);
    } else {
      var data := rs.Pack(rows[0]).value;
      var files' := AppendStep(tables, structs, files, name, rows[0]);
      InsertManyContents(tables, structs, files', name, rows[1..]);
      var out := InsertAll(tables, structs, files', name, rows[1..]).0;
      var rest := PackAll(rs, rows[1..]).0;
      assert InsertAll(tables, structs, files, name, rows).0 == out;
      assert PackAll(rs, rows).0 == data + rest;
      SeqAssoc(Contents(files, f), data, rest);
    }
  }

  lemma {:induction false} InsertManyElsewhere(tables: map<string, Table>, structs: map<string, RowStruct.RowStruct>,
                                               files: Files, name: string, rows: seq<RowStruct.RowArg>)
    requires Consistent(tables, structs)
    requires Lower(name) in tables && Lower(name) in structs
    requires LockPath(tables[Lower(name)].filename) !in files
    ensures SameElsewhere(InsertAll(tables, structs, files, name, rows).0, files, tables[Lower(name)].filename)
    decreases |rows|
  {
    var rs := structs[Lower(name)];
    if rows != [] && rs.Pack(rows[0]).Ok? {
      var files' := AppendStep(tables, structs, files, name, rows[0]);
      InsertManyElsewhere(tables, structs, files', name, rows[1..]);
      SameElsewhereTrans(InsertAll(tables, structs, files', name, rows[1..]).0, files', files, tables[Lower(name)].filename);
    }
  }

  lemma SameElsewhereTrans(a: Files, b: Files, c: Files, f: string)
    requires SameElsewhere(a, b, f) && SameElsewhere(b, c, f)
    ensures SameElsewhere(a, c, f)
  {
  }

  /** `insertMany` into an unknown table raises as soon as there is a row
      to insert, and changes nothing. */
  lemma InsertManyUnknown(tables: map<string, Table>, structs: map<string, RowStruct.RowStruct>,
                          files: Files, name: string, rows: seq<RowStruct.RowArg>)
    requires Consistent(tables, structs) && Lower(name) !in tables
    ensures InsertAll(tables, structs, files, name, rows) == (files, if rows == [] then None else Some(AssertionError))
  {
  }

  // ---------------------------------------------------------------------
  // Reading a table

  /** `unpack` of each block, in file order. */
  function UnpackAll(rs: RowStruct.RowStruct, blocks: seq<seq<byte>>): (r: seq<Result<RowStruct.Row>>)
    requires rs.Valid()
    ensures |r| == |blocks|
  {
    MapSeq(b => rs.Unpack(b), blocks)
  }

  /** Entry `i` is block `i` unpacked. */
  lemma UnpackAllAt(rs: RowStruct.RowStruct, blocks: seq<seq<byte>>, i: nat)
    requires rs.Valid() && i < |blocks|
    ensures UnpackAll(rs, blocks)[i] == rs.Unpack(blocks[i])
  {
    MapSeqAt(b => rs.Unpack(b), blocks, i);
  }

  /** `_iterReadAllLines`: the table must be known and unlocked and have a
      codec, and its file must exist; the file is then read a row size at a
      time and each block unpacked. */
  function ScanTable(tables: map<string, Table>, structs: map<string, RowStruct.RowStruct>, files: Files,
                     name: string): Result<seq<Result<RowStruct.Row>>>
    requires Consistent(tables, structs)
  {
    var t := Lower(name);
    if t !in tables then Err(AssertionError)
    else
      var f := tables[t].filename;
      if LockPath(f) in files then Err(AssertionError)
      else if t !in structs then Err(AttributeError)
      else if f !in files then Err(FileNotFoundError)
      else Ok(UnpackAll(structs[t], Chunks(files[f], structs[t].Size())))
  }

  /** Draining the row iterator: all the rows, or the first error. */
  function Collect(results: seq<Result<RowStruct.Row>>): (r: Result<seq<RowStruct.Row>>)
    ensures r.Ok? <==> forall i :: 0 <= i < |results| ==> results[i].Ok?
    ensures r.Ok? ==> |r.value| == |results| && forall i :: 0 <= i < |results| ==> r.value[i] == results[i].value
    decreases |results|
  {
    if results == [] then Ok([])
    else
      var n := |results| - 1;
      match Collect(results[..n])
      case Err(e) => Err(e)
      case Ok(rows) => if results[n].Err? then Err(results[n].error) else Ok(rows + [results[n].value])
  }

  /** The error `Collect` reports is the first one in the sequence. */
  lemma {:induction false} CollectFirstError(results: seq<Result<RowStruct.Row>>, i: nat)
    requires i < |results| && results[i].Err? && Collect(results[..i]).Ok?
    ensures Collect(results) == Err(results[i].error)
    decreases |results|
  {
    var n := |results| - 1;
    if i < n {
      var front := results[..n];
      assert front[..i] == results[..i] && front[i] == results[i];
      CollectFirstError(front, i);
    }
  }

  /** `_readAllLines`. */
  function ReadAll(tables: map<string, Table>, structs: map<string, RowStruct.RowStruct>, files: Files,
                   name: string): Result<seq<RowStruct.Row>>
    requires Consistent(tables, structs)
  {
    match ScanTable(tables, structs, files, name)
    case Err(e) => Err(e)
    case Ok(results) => Collect(results)
  }

  /** A table that reads back has a file of full row-size blocks, one per
      row, and `unpack` of block `i` is row `i`. */
  lemma ReadAllBlocks(tables: map<string, Table>, structs: map<string, RowStruct.RowStruct>, files: Files,
                      name: string, rows: seq<RowStruct.Row>)
    requires Consistent(tables, structs) && ReadAll(tables, structs, files, name) == Ok(rows)
    ensures var t := Lower(name);
      t in tables && t in structs && tables[t].filename in files && LockPath(tables[t].filename) !in files
    ensures var t := Lower(name); var rs := structs[t]; var data := files[tables[t].filename];
      && rs.Size() >= 1
      && AllFull(Chunks(data, rs.Size()), rs.Size())
      && |Chunks(data, rs.Size())| == |rows|
      && forall i :: 0 <= i < |rows| ==> rs.Unpack(Chunks(data, rs.Size())[i]) == Ok(rows[i])
  {
    var t := Lower(name);
    var rs := structs[t];
    var data := files[tables[t].filename];
    var blocks := Chunks(data, rs.Size());
    assert Collect(UnpackAll(rs, blocks)) == Ok(rows);
    ScanFull(rs, data, rows);
    forall i | 0 <= i < |rows|
      ensures rs.Unpack(blocks[i]) == Ok(rows[i])
    {
      UnpackAllAt(rs, blocks, i);
    }
  }

  /** Inserting a row into a table that reads back appends what `unpack`
      makes of the packed row to what the table reads back. */
  lemma InsertThenRead(tables: map<string, Table>, structs: map<string, RowStruct.RowStruct>, files: Files,
                       name: string, row: RowStruct.RowArg, rows: seq<RowStruct.Row>)
    requires Consistent(tables, structs)
    requires ReadAll(tables, structs, files, name) == Ok(rows)
    requires InsertStep(tables, structs, files, name, row).Ok?
    ensures var rs := structs[Lower(name)];
      ReadAll(tables, structs, InsertStep(tables, structs, files, name, row).value, name) ==
        match rs.Unpack(rs.Pack(row).value)
        case Ok(x) => Ok(rows + [x])
        case Err(e) => Err(e)
  {
    var t := Lower(name);
    var rs := structs[t];
    var f := tables[t].filename;
    var data := rs.Pack(row).value;
    var files' := InsertStep(tables, structs, files, name, row).value;
    assert files' == files[f := files[f] + data];
    assert LockPath(f) != f by { assert |LockPath(f)| != |f|; }
    assert ScanTable(tables, structs, files, name) == Ok(UnpackAll(rs, Chunks(files[f], rs.Size())));
    assert ScanTable(tables, structs, files', name) == Ok(UnpackAll(rs, Chunks(files[f] + data, rs.Size())));
    ScanAppend(rs, files[f], data, rows);
  }

  /** The rows of a file that reads back, followed by one packed row. */
  lemma ScanAppend(rs: RowStruct.RowStruct, data: seq<byte>, packed: seq<byte>, rows: seq<RowStruct.Row>)
    requires rs.Valid() && |packed| == rs.Size()
    requires Collect(UnpackAll(rs, Chunks(data, rs.Size()))) == Ok(rows)
    ensures Collect(UnpackAll(rs, Chunks(data + packed, rs.Size()))) ==
      match rs.Unpack(packed)
      case Ok(x) => Ok(rows + [x])
      case Err(e) => Err(e)
  {
    ScanFull(rs, data, rows);
    UnpackAllAppend(rs, data, packed);
    CollectSnoc(UnpackAll(rs, Chunks(data, rs.Size())), rs.Unpack(packed), rows);
  }

  /** A file whose blocks all unpack is made of full row-size blocks. */
  lemma ScanFull(rs: RowStruct.RowStruct, data: seq<byte>, rows: seq<RowStruct.Row>)
    requires rs.Valid() && Collect(UnpackAll(rs, Chunks(data, rs.Size()))) == Ok(rows)
    ensures rs.Size() >= 1 && AllFull(Chunks(data, rs.Size()), rs.Size())
  {
    RowStruct.SizePositive(rs);
    var blocks := Chunks(data, rs.Size());
    forall i | 0 <= i < |blocks|
      ensures |blocks[i]| == rs.Size()
    {
      UnpackAllAt(rs, blocks, i);
    }
  }

  lemma UnpackAllAppend(rs: RowStruct.RowStruct, data: seq<byte>, packed: seq<byte>)
    requires rs.Valid() && rs.Size() >= 1 && |packed| == rs.Size() && AllFull(Chunks(data, rs.Size()), rs.Size())
    ensures UnpackAll(rs, Chunks(data + packed, rs.Size())) == UnpackAll(rs, Chunks(data, rs.Size())) + [rs.Unpack(packed)]
  {
    ChunksAppend(data, packed, rs.Size());
    OneChunk(packed, rs.Size());
  }

  lemma UnpackAllSnoc(rs: RowStruct.RowStruct, blocks: seq<seq<byte>>, i: nat)
    requires rs.Valid() && i < |blocks|
    ensures UnpackAll(rs, blocks[..i + 1]) == UnpackAll(rs, blocks[..i]) + [rs.Unpack(blocks[i])]
  {
    MapSeqSnoc(b => rs.Unpack(b), blocks, i);
  }

  lemma CollectSnoc(results: seq<Result<RowStruct.Row>>, x: Result<RowStruct.Row>, rows: seq<RowStruct.Row>)
    requires Collect(results) == Ok(rows)
    ensures Collect(results + [x]) == match x case Ok(v) => Ok(rows + [v]) case Err(e) => Err(e)
  {
    assert (results + [x])[..|results|] == results;
  }

  /** Inserting a list row that `pack` accepts and whose text fits adds
      that row, as the codec normalizes it, at the end of the table. */
  lemma InsertRowThenRead(tables: map<string, Table>, structs: map<string, RowStruct.RowStruct>, files: Files,
                          name: string, values: seq<Value>, rows: seq<RowStruct.Row>)
    requires Consistent(tables, structs)
    requires ReadAll(tables, structs, files, name) == Ok(rows)
    requires InsertStep(tables, structs, files, name, RowStruct.ListRow(values)).Ok?
    requires var types := structs[Lower(name)].types;
      forall i :: 0 <= i < |types| && i < |values| ==> RowStruct.TextKept(types[i], values[i])
    ensures var rs := structs[Lower(name)];
      RowStruct.AllSingle(rs.types) && |values| >= |rs.types| &&
      ReadAll(tables, structs, InsertStep(tables, structs, files, name, RowStruct.ListRow(values)).value, name)
        == Ok(rows + [RowStruct.NormalRow(rs.types, values)])
  {
    InsertThenRead(tables, structs, files, name, RowStruct.ListRow(values), rows);
    RowStruct.RowRoundTrip(structs[Lower(name)], values);
  }

  /** The list rows of a sequence of value rows. */
  function Lists(vs: seq<seq<Value>>): (r: seq<RowStruct.RowArg>)
    ensures |r| == |vs| && forall k :: 0 <= k < |vs| ==> r[k] == RowStruct.ListRow(vs[k])
  {
    seq(|vs|, k requires 0 <= k < |vs| => RowStruct.ListRow(vs[k]))
  }

  /** Value rows that cover the schema, whose every column accepts its
      value and keeps its text. */
  predicate Storable(types: seq<string>, vs: seq<seq<Value>>)
  {
    forall k :: 0 <= k < |vs| ==> (|vs[k]| >= |types| &&
      forall i :: 0 <= i < |types| ==>
        RowStruct.ColumnAccepts(types[i], vs[k][i]) && RowStruct.TextKept(types[i], vs[k][i]))
  }

  /** The rows the codec gives back for storable value rows. */
  function NormalRows(types: seq<string>, vs: seq<seq<Value>>): (r: seq<RowStruct.Row>)
    requires RowStruct.AllSingle(types) && Storable(types, vs)
    ensures |r| == |vs| && forall k :: 0 <= k < |vs| ==> r[k] == RowStruct.NormalRow(types, vs[k])
  {
    seq(|vs|, k requires 0 <= k < |vs| => RowStruct.NormalRow(types, vs[k]))
  }

  /** Append-then-scan order: `insertMany` of storable list rows into a
      table that reads back raises nothing, and the table then reads back
      its old rows followed by the new ones, in insertion order. */
  lemma {:induction false} InsertManyThenRead(tables: map<string, Table>, structs: map<string, RowStruct.RowStruct>,
                                              files: Files, name: string, vs: seq<seq<Value>>, rows: seq<RowStruct.Row>)
    requires Consistent(tables, structs) && ReadAll(tables, structs, files, name) == Ok(rows)
    requires Lower(name) in structs && RowStruct.AllSingle(structs[Lower(name)].types)
    requires Storable(structs[Lower(name)].types, vs)
    ensures InsertAll(tables, structs, files, name, Lists(vs)).1 == None
    ensures ReadAll(tables, structs, InsertAll(tables, structs, files, name, Lists(vs)).0, name)
      == Ok(rows + NormalRows(structs[Lower(name)].types, vs))
    decreases |vs|
  {
    var types := structs[Lower(name)].types;
    if vs == [] {
      assert rows + NormalRows(types, vs) == rows;
    } else {
      var row := RowStruct.NormalRow(types, vs[0]);
      var files' := InsertFirst(tables, structs, files, name, vs, rows);
      NormalRowsCons(types, vs);
      InsertManyThenRead(tables, structs, files', name, vs[1..], rows + [row]);
      SeqAssoc(rows, [row], NormalRows(types, vs[1..]));
    }
  }

  /** The first of some storable rows goes in, and the table then reads
      back one row more; the rest of the rows are inserted from there. */
  lemma InsertFirst(tables: map<string, Table>, structs: map<string, RowStruct.RowStruct>,
                    files: Files, name: string, vs: seq<seq<Value>>, rows: seq<RowStruct.Row>) returns (files': Files)
    requires Consistent(tables, structs) && ReadAll(tables, structs, files, name) == Ok(rows)
    requires Lower(name) in structs && RowStruct.AllSingle(structs[Lower(name)].types)
    requires Storable(structs[Lower(name)].types, vs) && vs != []
    ensures InsertAll(tables, structs, files, name, Lists(vs)) == InsertAll(tables, structs, files', name, Lists(vs[1..]))
    ensures ReadAll(tables, structs, files', name) == Ok(rows + [RowStruct.NormalRow(structs[Lower(name)].types, vs[0])])
  {
    ReadAllBlocks(tables, structs, files, name, rows);
    StorablePacks(structs[Lower(name)], vs);
    files' := AppendStep(tables, structs, files, name, RowStruct.ListRow(vs[0]));
    InsertRowThenRead(tables, structs, files, name, vs[0], rows);
    assert Lists(vs)[0] == RowStruct.ListRow(vs[0]) && Lists(vs)[1..] == Lists(vs[1..]);
  }

  lemma NormalRowsCons(types: seq<string>, vs: seq<seq<Value>>)
    requires RowStruct.AllSingle(types) && Storable(types, vs) && vs != []
    ensures Storable(types, vs[1..])
    ensures NormalRows(types, vs) == [RowStruct.NormalRow(types, vs[0])] + NormalRows(types, vs[1..])
  {
    assert forall k :: 1 <= k < |vs| ==> vs[1..][k - 1] == vs[k];
  }

  /** The first of some storable rows packs, and its text is kept. */
  lemma StorablePacks(rs: RowStruct.RowStruct, vs: seq<seq<Value>>)
    requires rs.Valid() && Storable(rs.types, vs) && vs != []
    ensures rs.Pack(RowStruct.ListRow(vs[0])).Ok?
    ensures forall i :: 0 <= i < |rs.types| && i < |vs[0]| ==> RowStruct.TextKept(rs.types[i], vs[0][i])
  {
    RowStruct.PackAccepted(rs, vs[0]);
  }

  /** The rows the read/write test inserts: `("text", 42, True)`,
      `(None, 256, False)` and `("42", 0, None)`. */
  const TestRows: seq<seq<Value>> :=
    [[Str("text"), Int(42), Bool(true)], [Null, Int(256), Bool(false)], [Str("42"), Int(0), Null]]

  /** The read/write test: a table of schema `STRING[50]`, `I32`, `BOOL`
      with an empty file takes the test's three rows, and reads them back
      exactly as they were given, in order. */
  lemma TestTableReadWrite(tables: map<string, Table>, structs: map<string, RowStruct.RowStruct>,
                           files: Files, name: string)
    requires Consistent(tables, structs)
    requires Lower(name) in tables && Lower(name) in structs
    requires structs[Lower(name)].types == RowStruct.SampleTypes
    requires Contents(files, tables[Lower(name)].filename) == [] && tables[Lower(name)].filename in files
    requires LockPath(tables[Lower(name)].filename) !in files
    ensures InsertAll(tables, structs, files, name, Lists(TestRows)).1 == None
    ensures ReadAll(tables, structs, InsertAll(tables, structs, files, name, Lists(TestRows)).0, name) == Ok(TestRows)
  {
    var rs := structs[Lower(name)];
    EmptyTable(tables, structs, files, name);
    TestRowsStorable();
    InsertManyThenRead(tables, structs, files, name, TestRows, []);
    assert [] + NormalRows(RowStruct.SampleTypes, TestRows) == TestRows;
  }

  /** A known, unlocked table with an empty file reads back no rows. */
  lemma EmptyTable(tables: map<string, Table>, structs: map<string, RowStruct.RowStruct>, files: Files, name: string)
    requires Consistent(tables, structs)
    requires Lower(name) in tables && Lower(name) in structs
    requires Contents(files, tables[Lower(name)].filename) == [] && tables[Lower(name)].filename in files
    requires LockPath(tables[Lower(name)].filename) !in files
    ensures ReadAll(tables, structs, files, name) == Ok([])
  {
    var rs := structs[Lower(name)];
    assert Chunks([], rs.Size()) == [];
  }

  /** The test's rows are storable under the test schema, and the codec
      gives each back unchanged. */
  lemma TestRowsStorable()
    ensures RowStruct.AllSingle(RowStruct.SampleTypes) && Storable(RowStruct.SampleTypes, TestRows)
    ensures NormalRows(RowStruct.SampleTypes, TestRows) == TestRows
  {
    var types := RowStruct.SampleTypes;
    TestRowAt(0);
    forall k | 0 <= k < |TestRows|
      ensures |TestRows[k]| >= |types|
      ensures forall i :: 0 <= i < |types| ==>
        RowStruct.ColumnAccepts(types[i], TestRows[k][i]) && RowStruct.TextKept(types[i], TestRows[k][i])
      ensures RowStruct.NormalRow(types, TestRows[k]) == TestRows[k]
    {
      TestRowAt(k);
    }
    var r := NormalRows(types, TestRows);
    assert forall k :: 0 <= k < |TestRows| ==> r[k] == TestRows[k];
  }

  /** Row `k` of the test. */
  lemma TestRowAt(k: nat)
    requires k < |TestRows|
    ensures |TestRows[k]| >= |RowStruct.SampleTypes| && RowStruct.AllSingle(RowStruct.SampleTypes)
    ensures forall i :: 0 <= i < |RowStruct.SampleTypes| ==>
      RowStruct.ColumnAccepts(RowStruct.SampleTypes[i], TestRows[k][i]) && RowStruct.TextKept(RowStruct.SampleTypes[i], TestRows[k][i])
    ensures RowStruct.NormalRow(RowStruct.SampleTypes, TestRows[k]) == TestRows[k]
  {
    var v := TestRows[k];
    assert RowStruct.SampleRow(v) by {
      if k == 0 {
        assert v == [Str("text"), Int(42), Bool(true)];
      } else if k == 1 {
        assert v == [Null, Int(256), Bool(false)];
      } else {
        assert v == [Str("42"), Int(0), Null];
      }
    }
    RowStruct.SampleColumns(v);
    RowStruct.SampleNormalRow(v);
  }

  // ---------------------------------------------------------------------
  // Reading one row

  /** Seek to `pos` and read one row: a position before the start raises,
      one past the end reads nothing. */
  function SeekRead(rs: RowStruct.RowStruct, data: seq<byte>, pos: int): Result<RowStruct.Row>
    requires rs.Valid()
  {
    if pos < 0 then Err(OSError) else rs.Unpack(ReadAt(data, pos, rs.Size()))
  }

  /** `_readLine` as written: only a negative line number assigns the seek
      mode (from the end), so any other line number raises once the file is
      open. */
  function LineAsWritten(tables: map<string, Table>, structs: map<string, RowStruct.RowStruct>, files: Files,
                         name: string, line: int): Result<RowStruct.Row>
    requires Consistent(tables, structs)
  {
    var t := Lower(name);
    if t !in tables then Err(AssertionError)
    else if t !in structs then Err(AttributeError)
    else
      var rs := structs[t];
      var offset := rs.Size() * line;
      var f := tables[t].filename;
      if f !in files then Err(FileNotFoundError)
      else if offset >= 0 then Err(UnboundLocalError)
      else SeekRead(rs, files[f], |files[f]| + offset)
  }

  /** `_readLine` with the seek mode set to "from the start" for a line
      number that is not negative. */
  function Line(tables: map<string, Table>, structs: map<string, RowStruct.RowStruct>, files: Files,
                name: string, line: int): Result<RowStruct.Row>
    requires Consistent(tables, structs)
  {
    var t := Lower(name);
    if t !in tables then Err(AssertionError)
    else if t !in structs then Err(AttributeError)
    else
      var rs := structs[t];
      var offset := rs.Size() * line;
      var f := tables[t].filename;
      if f !in files then Err(FileNotFoundError)
      else if offset >= 0 then SeekRead(rs, files[f], offset)
      else SeekRead(rs, files[f], |files[f]| + offset)
  }

  /** As written, `_readLine` fails for every line number that is not
      negative, including line 0 of a table that holds rows. */
  lemma LineAsWrittenUnbound(tables: map<string, Table>, structs: map<string, RowStruct.RowStruct>, files: Files,
                             name: string, line: int)
    requires Consistent(tables, structs) && line >= 0
    requires Lower(name) in tables && Lower(name) in structs && tables[Lower(name)].filename in files
    ensures LineAsWritten(tables, structs, files, name, line) == Err(UnboundLocalError)
  {
    var rs := structs[Lower(name)];
    RowStruct.SizePositive(rs);
    OffsetSign(rs.Size(), line);
  }

  /** The seek offset has the sign of the line number. */
  lemma OffsetSign(size: int, line: int)
    requires size >= 1
    ensures size * line >= 0 <==> line >= 0
  {
    if line < 0 {
      assert size * line <= line;
    }
  }

  /** A negative line number `-k` reads the `k`-th row from the end, as
      written and as corrected. */
  lemma LineFromEnd(tables: map<string, Table>, structs: map<string, RowStruct.RowStruct>, files: Files,
                    name: string, rows: seq<RowStruct.Row>, line: int)
    requires Consistent(tables, structs) && ReadAll(tables, structs, files, name) == Ok(rows)
    requires -|rows| <= line < 0
    ensures LineAsWritten(tables, structs, files, name, line) == Ok(rows[|rows| + line])
    ensures Line(tables, structs, files, name, line) == Ok(rows[|rows| + line])
  {
    ReadAllBlocks(tables, structs, files, name, rows);
    var t := Lower(name);
    var rs := structs[t];
    OffsetSign(rs.Size(), line);
    SeekFromEnd(rs, files[tables[t].filename], rows, line);
  }

  lemma SeekFromEnd(rs: RowStruct.RowStruct, data: seq<byte>, rows: seq<RowStruct.Row>, line: int)
    requires rs.Valid() && rs.Size() >= 1 && AllFull(Chunks(data, rs.Size()), rs.Size())
    requires |Chunks(data, rs.Size())| == |rows|
    requires forall i :: 0 <= i < |rows| ==> rs.Unpack(Chunks(data, rs.Size())[i]) == Ok(rows[i])
    requires -|rows| <= line < 0
    ensures SeekRead(rs, data, |data| + rs.Size() * line) == Ok(rows[|rows| + line])
  {
    BlockFromEnd(data, rs.Size(), line);
  }

  /** Corrected, line `i` of a table that reads back is its `i`-th row. */
  lemma LineFromStart(tables: map<string, Table>, structs: map<string, RowStruct.RowStruct>, files: Files,
                      name: string, rows: seq<RowStruct.Row>, i: nat)
    requires Consistent(tables, structs) && ReadAll(tables, structs, files, name) == Ok(rows)
    requires i < |rows|
    ensures Line(tables, structs, files, name, i) == Ok(rows[i])
  {
    ReadAllBlocks(tables, structs, files, name, rows);
    var t := Lower(name);
    var rs := structs[t];
    OffsetSign(rs.Size(), i);
    BlockAt(files[tables[t].filename], rs.Size(), i);
  }

  // ---------------------------------------------------------------------
  // The database object

  class Database {
    /** The database directory and the hash that names table files. */
    const dir: string
    const md5: string -> string
    /** The catalog: table names in creation order, and their entries. */
    var names: seq<string>
    var tables: map<string, Table>
    /** `_structs`: the row codec of each table. */
    var structs: map<string, RowStruct.RowStruct>
    /** The file system. */
    var files: Files

    ghost predicate Valid()
      reads this
    {
      Catalog(names, tables) && Consistent(tables, structs)
    }

    /** A database over a catalog and the codecs loaded for it. */
    constructor (dir: string, md5: string -> string, files: Files, names: seq<string>,
                 tables: map<string, Table>, structs: map<string, RowStruct.RowStruct>)
      requires Catalog(names, tables) && Consistent(tables, structs)
      ensures Valid() && this.names == names && this.tables == tables && this.structs == structs
      ensures this.dir == dir && this.md5 == md5 && this.files == files
    {
      this.dir := dir;
      this.md5 := md5;
      this.names := names;
      this.tables := tables;
      this.structs := structs;
      this.files := files;
    }

    /** Opening a database whose catalog has been read: the codecs are
        loaded, and a schema the codec rejects makes opening fail. */
    static method Open(dir: string, md5: string -> string, files: Files, names: seq<string>, tables: map<string, Table>)
      returns (r: Result<Database>)
      requires Catalog(names, tables)
      ensures r.Err? <==> FirstBuildError(Schemas(names, tables)).Some?
      ensures r.Err? ==> r.error == FirstBuildError(Schemas(names, tables)).value
      ensures r.Ok? ==> fresh(r.value) && r.value.Valid() && r.value.names == names && r.value.tables == tables
      ensures r.Ok? ==> r.value.structs.Keys == tables.Keys && r.value.files == files
    {
      var loaded := LoadStructs(names, tables);
      if loaded.Err? {
        return Err(loaded.error);
      }
      var db := new Database(dir, md5, files, names, tables, loaded.value);
      return Ok(db);
    }

    /** The file that holds table `t`'s rows. */
    function TablePath(t: string): string
    {
      dir + "/tables/" + md5(t)
    }

    /** `listTables`: every table, once each. */
    function ListTables(): (r: seq<string>)
      reads this
      requires Valid()
      ensures RowStruct.NoDup(r) && forall t :: t in r <==> t in tables
    {
      names
    }

    /** `getTableSchema`: the stored schema of a table, looked up under the
        lower-cased name. */
    function GetTableSchema(name: string): (r: Result<(seq<string>, seq<string>)>)
      reads this
      requires Valid()
      ensures r.Ok? <==> Lower(name) in ListTables()
      ensures r.Ok? ==> r.value == (tables[Lower(name)].columns, tables[Lower(name)].types)
    {
      var t := Lower(name);
      if t !in tables then Err(AssertionError) else Ok((tables[t].columns, tables[t].types))
    }

    /** `_loadStructs`: one codec per table, in catalog order, or the first
        error a schema raises. */
    static method LoadStructs(names: seq<string>, tables: map<string, Table>) returns (r: Result<map<string, RowStruct.RowStruct>>)
      requires Catalog(names, tables)
      ensures r.Err? <==> FirstBuildError(Schemas(names, tables)).Some?
      ensures r.Err? ==> r.error == FirstBuildError(Schemas(names, tables)).value
      ensures r.Ok? ==> r.value.Keys == tables.Keys && Consistent(tables, r.value)
    {
      ghost var schemas := Schemas(names, tables);
      var m: map<string, RowStruct.RowStruct> := map[];
      var i := 0;
      while i < |names|
        invariant 0 <= i <= |names|
        invariant FirstBuildError(schemas) == FirstBuildError(schemas[i..])
        invariant forall k :: 0 <= k < i ==> names[k] in m
        invariant Consistent(tables, m)
      {
        var t := names[i];
        var rs := RowStruct.RowStruct.New(tables[t].columns, tables[t].types);
        FirstErrorAt(BuildError, schemas, i);
        assert schemas[i] == tables[t].types;
        if rs.Err? {
          return Err(rs.error);
        }
        ConsistentAdd(tables, m, t, rs.value);
        m := m[t := rs.value];
        i := i + 1;
      }
      assert schemas[i..] == [];
      CatalogKeys(names, tables, m);
      return Ok(m);
    }

    /** `createTable`: the lower-cased name must hold no space and be new;
        the table's file is created, the entry added, and the codecs
        reloaded.  When reloading fails the entry stays and the old codecs
        are kept. */
    method CreateTable(name: string, columns: seq<string>, types: seq<string>) returns (r: Result<()>)
      requires Valid()
      modifies this
      ensures Valid()
      ensures var t := Lower(name);
        if ' ' in t || t in old(tables) then r == Err(AssertionError) && unchanged(this)
        else
          && names == old(names) + [t]
          && tables == old(tables)[t := Table(columns, types, [], TablePath(t))]
          && files == old(files)[TablePath(t) := Contents(old(files), TablePath(t))]
          && (r.Err? <==> FirstBuildError(Schemas(names, tables)).Some?)
          && (r.Err? ==> r.error == FirstBuildError(Schemas(names, tables)).value && structs == old(structs))
          && (r.Ok? ==> structs.Keys == tables.Keys)
    {
      var t := Lower(name);
      if ' ' in t || t in tables {
        return Err(AssertionError);
      }
      var path := TablePath(t);
      files := files[path := Contents(files, path)];
      tables := tables[t := Table(columns, types, [], path)];
      names := names + [t];
      var loaded := LoadStructs(names, tables);
      if loaded.Err? {
        return Err(loaded.error);
      }
      structs := loaded.value;
      return Ok(());
    }

    /** `insert`. */
    method Insert(name: string, row: RowStruct.RowArg) returns (r: Result<()>)
      requires Valid()
      modifies this
      ensures Valid() && names == old(names) && tables == old(tables) && structs == old(structs)
      ensures var step := InsertStep(tables, structs, old(files), name, row);
        (r.Ok? <==> step.Ok?) && (r.Err? ==> r.error == step.error && files == old(files))
        && (r.Ok? ==> files == step.value)
    {
      ghost var step := InsertStep(tables, structs, files, name, row);
      var t := Lower(name);
      if t !in tables {
        return Err(AssertionError);
      }
      var f := tables[t].filename;
      if t !in structs {
        return Err(AttributeError);
      }
      var data := structs[t].Pack(row);
      if data.Err? {
        assert step == Err(data.error);
        return Err(data.error);
      }
      if LockPath(f) in files {
        assert step == Err(Busy);
        return Err(Busy);
      }
      files := files[f := Contents(files, f) + data.value];
      assert step == Ok(files);
      return Ok(());
    }

    /** `insertMany`: `insert` for each row in order, stopping at the first
        that raises. */
    method InsertMany(name: string, rows: seq<RowStruct.RowArg>) returns (r: Result<()>)
      requires Valid()
      modifies this
      ensures Valid() && names == old(names) && tables == old(tables) && structs == old(structs)
      ensures var out := InsertAll(tables, structs, old(files), name, rows);
        files == out.0 && (r.Err? <==> out.1.Some?) && (r.Err? ==> r.error == out.1.value)
    {
      var i := 0;
      while i < |rows|
        invariant 0 <= i <= |rows|
        invariant Valid() && names == old(names) && tables == old(tables) && structs == old(structs)
        invariant InsertAll(tables, structs, old(files), name, rows) == InsertAll(tables, structs, files, name, rows[i..])
      {
        assert rows[i..][0] == rows[i] && rows[i..][1..] == rows[i + 1..];
        r := Insert(name, rows[i]);
        if r.Err? {
          return;
        }
        i := i + 1;
      }
      return Ok(());
    }

    /** `_iterReadBytes`: the blocks of the file, read `n` bytes at a time
        until a read comes back empty. */
    method IterReadBytes(path: string, n: int) returns (r: Result<seq<seq<byte>>>)
      ensures r.Err? <==> path !in files
      ensures r.Err? ==> r.error == FileNotFoundError
      ensures r.Ok? ==> r.value == Chunks(files[path], n)
    {
      if path !in files {
        return Err(FileNotFoundError);
      }
      var data := files[path];
      var pos := 0;
      var out := [];
      while true
        invariant 0 <= pos <= |data|
        invariant out + Chunks(data[pos..], n) == Chunks(data, n)
        decreases |data| - pos
      {
        var line := ReadAt(data, pos, n);
        assert ReadAt(data[pos..], 0, n) == line;
        if line == [] {
          break;
        }
        assert data[pos..][|line|..] == data[pos + |line|..];
        out := out + [line];
        pos := pos + |line|;
      }
      return Ok(out);
    }

    /** `_iterReadAllLines`: the rows of a table, each as `unpack` gives
        it, in file order. */
    method IterReadAllLines(name: string) returns (r: Result<seq<Result<RowStruct.Row>>>)
      requires Valid()
      ensures r == ScanTable(tables, structs, files, name)
    {
      var t := Lower(name);
      if t !in tables {
        return Err(AssertionError);
      }
      var f := tables[t].filename;
      if LockPath(f) in files {
        return Err(AssertionError);
      }
      if t !in structs {
        return Err(AttributeError);
      }
      var rs := structs[t];
      var blocks := IterReadBytes(f, rs.Size());
      if blocks.Err? {
        return Err(blocks.error);
      }
      var out := UnpackEach(rs, blocks.value);
      return Ok(out);
    }

    /** The generator's loop: each block unpacked in turn. */
    static method UnpackEach(rs: RowStruct.RowStruct, blocks: seq<seq<byte>>) returns (out: seq<Result<RowStruct.Row>>)
      requires rs.Valid()
      ensures out == UnpackAll(rs, blocks)
    {
      out := [];
      for i := 0 to |blocks|
        invariant out == UnpackAll(rs, blocks[..i])
      {
        UnpackAllSnoc(rs, blocks, i);
        out := out + [rs.Unpack(blocks[i])];
      }
      assert blocks[..|blocks|] == blocks;
    }

    /** `_readAllLines`: all rows of a table, or the first error. */
    method ReadAllLines(name: string) returns (r: Result<seq<RowStruct.Row>>)
      requires Valid()
      ensures r == ReadAll(tables, structs, files, name)
    {
      var lines := IterReadAllLines(name);
      if lines.Err? {
        return Err(lines.error);
      }
      r := Drain(lines.value);
    }

    /** Draining the row iterator into a list, stopping at the first row
        that raises. */
    static method Drain(results: seq<Result<RowStruct.Row>>) returns (r: Result<seq<RowStruct.Row>>)
      ensures r == Collect(results)
    {
      var rows := [];
      for i := 0 to |results|
        invariant Collect(results[..i]) == Ok(rows)
      {
        if results[i].Err? {
          CollectFirstError(results, i);
          return Err(results[i].error);
        }
        assert results[..i + 1][..i] == results[..i];
        rows := rows + [results[i].value];
      }
      assert results[..|results|] == results;
      return Ok(rows);
    }

    /** `_readLine` as written. */
    method ReadLineAsWritten(name: string, line: int) returns (r: Result<RowStruct.Row>)
      requires Valid()
      ensures r == LineAsWritten(tables, structs, files, name, line)
    {
      var t := Lower(name);
      if t !in tables {
        return Err(AssertionError);
      }
      var f := tables[t].filename;
      if t !in structs {
        return Err(AttributeError);
      }
      var rs := structs[t];
      var size := rs.Size();
      var offset := size * line;
      var fromEnd := offset < 0;
      if f !in files {
        return Err(FileNotFoundError);
      }
      if !fromEnd {
        return Err(UnboundLocalError);
      }
      var pos := |files[f]| + offset;
      if pos < 0 {
        return Err(OSError);
      }
      r := rs.Unpack(ReadAt(files[f], pos, size));
    }

    /** `_readLine` with the seek mode "from the start" for a line number
        that is not negative. */
    method ReadLine(name: string, line: int) returns (r: Result<RowStruct.Row>)
      requires Valid()
      ensures r == Line(tables, structs, files, name, line)
    {
      var t := Lower(name);
      if t !in tables {
        return Err(AssertionError);
      }
      var f := tables[t].filename;
      if t !in structs {
        return Err(AttributeError);
      }
      var rs := structs[t];
      var size := rs.Size();
      var offset := size * line;
      var fromEnd := offset < 0;
      if f !in files {
        return Err(FileNotFoundError);
      }
      var pos := if fromEnd then |files[f]| + offset else offset;
      if pos < 0 {
        return Err(OSError);
      }
      r := rs.Unpack(ReadAt(files[f], pos, size));
    }
  }
}
