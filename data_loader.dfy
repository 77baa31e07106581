/** `load_forts` of src/core/data_loader.py: read the forts CSV, normalise the header, make
    `fort_id` integer, fill missing text with "" and coerce the numeric columns. Reading and
    parsing the CSV is outside the model: the file system is a map from path to the table
    `read_csv` would produce, and the string conversions behind `astype(int)` and
    `pd.to_numeric` are parameters. */
module DataLoader {
  import opened Wrappers
  import opened Strings
  import opened Frame

  /** `DATA_PATH`: data/maharashtra-forts.csv under the project root. */
  const DefaultDataPath: string := "data/maharashtra-forts.csv"

  const TextColumns: seq<string> := ["notes", "key_events", "alternate_names", "best_season",
    "trek_difficulty", "type", "district", "taluka"]

  const NumericColumns: seq<string> := ["latitude", "longitude", "elevation_m", "trek_time_hours"]

  /** `FileNotFoundError` for a missing file; `FortIdNotConvertible` for a `fort_id` column that
      `astype(int)` rejects (the fallback after it is not part of this model). */
  datatype LoadError = FileNotFound(path: string) | FortIdNotConvertible

  /** The CSV files that exist, each as the table `read_csv` makes of it. */
  type FileSystem = map<string, Table>

  /** `int(s)` for a text cell; `None` when Python raises. */
  type ParseInt = string -> Option<int>

  /** `pd.to_numeric` for a text cell; `None` when the text is not a number. */
  type ParseNumber = string -> Option<real>

  // ---------------------------------------------------------------------------
  // Path and header
  // ---------------------------------------------------------------------------

  /** `Path(path) if path else DATA_PATH`: no path, or the empty one, means the default. */
  function ResolvePath(path: Option<string>): (p: string)
    ensures path.Some? && path.value != "" ==> p == path.value
    ensures path.None? || path.value == "" ==> p == DefaultDataPath
  {
    if path.Some? && path.value != "" then path.value else DefaultDataPath
  }

  /** `c.strip().lower()` */
  function NormalizeHeader(c: string): string {
    Lower(Strip(c))
  }

  function NormalizedColumns(columns: seq<string>): (r: seq<string>)
    ensures |r| == |columns|
  {
    seq(|columns|, i requires 0 <= i < |columns| => NormalizeHeader(columns[i]))
  }

  /** A normalised header has no upper-case letter and no surrounding whitespace, so
      normalising it again changes nothing. */
  lemma NormalizeHeaderSpec(c: string)
    ensures var h := NormalizeHeader(c);
      (forall i :: 0 <= i < |h| ==> !IsUpper(h[i]))
      && (h == [] || (!IsSpace(h[0]) && !IsSpace(h[|h| - 1])))
      && NormalizeHeader(h) == h
  {
    var s := Strip(c);
    var h := Lower(s);
    StripSpec(c);
    LowerSpec(s);
    if h != [] {
      assert !IsSpace(h[0]) && !IsSpace(h[|h| - 1]);
    }
    StripTrimmed(h);
  }

  // ---------------------------------------------------------------------------
  // fort_id
  // ---------------------------------------------------------------------------

  /** `int(x)` of a float: truncation toward zero. */
  function Truncate(x: real): int {
    if x >= 0.0 then x.Floor else -((-x).Floor)
  }

  /** One cell under `astype(int)`: NaN cannot be converted. */
  function AsInt(v: Value, parseInt: ParseInt): Option<int> {
    match v
    case Missing => None
    case Int(i) => Some(i)
    case Num(x) => Some(Truncate(x))
    case Text(s) => parseInt(s)
  }

  /** `df["fort_id"].astype(int)`: the converted column, or `None` when some cell fails. */
  function FortIdAsInt(t: Table, parseInt: ParseInt): (r: Option<seq<Value>>)
    ensures r.None? <==> exists i :: 0 <= i < |t.rows| && AsInt(Get(t.columns, t.rows[i], "fort_id"), parseInt).None?
    ensures r.Some? ==> |r.value| == |t.rows| && forall i :: 0 <= i < |t.rows| ==>
              r.value[i] == Int(AsInt(Get(t.columns, t.rows[i], "fort_id"), parseInt).value)
  {
    if exists i :: 0 <= i < |t.rows| && AsInt(Get(t.columns, t.rows[i], "fort_id"), parseInt).None? then None
    else Some(seq(|t.rows|, i requires 0 <= i < |t.rows| => Int(AsInt(Get(t.columns, t.rows[i], "fort_id"), parseInt).value)))
  }

  // ---------------------------------------------------------------------------
  // Column passes
  // ---------------------------------------------------------------------------

  /** `fillna("")` for one cell. */
  function FillEmpty(v: Value): Value {
    if v.Missing? then Text("") else v
  }

  /** `pd.to_numeric(errors="coerce")` for one cell: text that is not a number becomes NaN. */
  function CoerceCell(v: Value, parseNumber: ParseNumber): Value {
    match v
    case Text(s) => (match parseNumber(s) case Some(x) => Num(x) case None => Missing)
    case _ => v
  }

  function ToNumeric(parseNumber: ParseNumber): Value -> Value {
    v => CoerceCell(v, parseNumber)
  }

  /** Applying `f` to each listed column in turn (columns that are absent are skipped). */
  function MapColumns(t: Table, cols: seq<string>, f: Value -> Value): (r: Table)
    requires WellFormed(t)
    ensures WellFormed(r) && r.columns == t.columns && |r.rows| == |t.rows|
  {
    if cols == [] then t
    else MapColumn(MapColumns(t, cols[..|cols| - 1], f), cols[|cols| - 1], f)
  }

  /** One pass per listed column with an idempotent cell function: a listed column that is
      present holds `f` of its old cells, every other cell is as before. */
  lemma {:induction false} MapColumnsSpec(t: Table, cols: seq<string>, f: Value -> Value)
    requires WellFormed(t)
    requires forall v :: f(f(v)) == f(v)
    ensures var r := MapColumns(t, cols, f);
      forall c, i :: 0 <= i < |r.rows| ==>
        Get(r.columns, r.rows[i], c) ==
          if c in cols && c in t.columns then f(Get(t.columns, t.rows[i], c)) else Get(t.columns, t.rows[i], c)
  {
    if cols != [] {
      var init := cols[..|cols| - 1];
      MapColumnsSpec(t, init, f);
      assert forall c :: c in cols <==> c in init || c == cols[|cols| - 1] by {
        assert cols == init + [cols[|cols| - 1]];
      }
    }
  }

  // ---------------------------------------------------------------------------
  // load_forts
  // ---------------------------------------------------------------------------

  /** Every file the file system holds parses to a rectangular table. */
  predicate FilesWellFormed(files: FileSystem) {
    forall p :: p in files ==> WellFormed(files[p])
  }

  /** The table after the header is normalised and `fort_id` is converted. */
  function Normalized(raw: Table, parseInt: ParseInt): (r: Result<Table, LoadError>)
    requires WellFormed(raw)
  {
    var t := Table(NormalizedColumns(raw.columns), raw.rows);
    if "fort_id" !in t.columns then Ok(t)
    else match FortIdAsInt(t, parseInt)
      case None => Err(FortIdNotConvertible)
      case Some(ids) => Ok(SetColumn(t, "fort_id", ids))
  }

  /** The two column passes: fill the text columns, then coerce the numeric ones. */
  function Clean(t: Table, textCols: seq<string>, numCols: seq<string>, parseNumber: ParseNumber): (r: Table)
    requires WellFormed(t)
  {
    MapColumns(MapColumns(t, textCols, FillEmpty), numCols, ToNumeric(parseNumber))
  }

  /** What `load_forts(path)` returns. */
  function Load(path: Option<string>, files: FileSystem, parseInt: ParseInt, parseNumber: ParseNumber)
    : (r: Result<Table, LoadError>)
    requires FilesWellFormed(files)
  {
    var p := ResolvePath(path);
    if p !in files then Err(FileNotFound(p))
    else match Normalized(files[p], parseInt)
      case Err(e) => Err(e)
      case Ok(t) => Ok(Clean(t, TextColumns, NumericColumns, parseNumber))
  }

  /** `for col in cols: if col in df.columns: df[col] = f(df[col])` */
  method ApplyToColumns(df: Table, cols: seq<string>, f: Value -> Value) returns (r: Table)
    requires WellFormed(df)
    ensures r == MapColumns(df, cols, f)
  {
    r := df;
    for k := 0 to |cols|
      invariant r == MapColumns(df, cols[..k], f)
    {
      var col := cols[k];
      if col in r.columns {
        r := MapColumn(r, col, f);
      }
      assert cols[..k + 1][..k] == cols[..k];
    }
    assert cols[..|cols|] == cols;
  }

  /** `load_forts(path)`, pass by pass as the source runs them. */
  method LoadForts(path: Option<string>, files: FileSystem, parseInt: ParseInt, parseNumber: ParseNumber)
    returns (r: Result<Table, LoadError>)
    requires FilesWellFormed(files)
    ensures r == Load(path, files, parseInt, parseNumber)
  {
    var p := ResolvePath(path);
    if p !in files {
      return Err(FileNotFound(p));
    }
    var df := files[p];
    df := Table(NormalizedColumns(df.columns), df.rows);
    if "fort_id" in df.columns {
      var ids := FortIdAsInt(df, parseInt);
      if ids.None? {
        return Err(FortIdNotConvertible);
      }
      df := SetColumn(df, "fort_id", ids.value);
    }
    df := ApplyToColumns(df, TextColumns, FillEmpty);
    df := ApplyToColumns(df, NumericColumns, ToNumeric(parseNumber));
    r := Ok(df);
  }

  // ---------------------------------------------------------------------------
  // What load_forts guarantees
  // ---------------------------------------------------------------------------

  /** A path that names no file fails with `FileNotFoundError` for the resolved path; no path
      means the default data file. */
  lemma LoadMissingFile(path: Option<string>, files: FileSystem, parseInt: ParseInt, parseNumber: ParseNumber)
    requires FilesWellFormed(files)
    ensures ResolvePath(path) !in files <==> Load(path, files, parseInt, parseNumber) == Err(FileNotFound(ResolvePath(path)))
  {
  }

  /** The header of a loaded table is the file's header, each name stripped and lower-cased;
      no row is added or dropped. */
  lemma LoadHeader(path: Option<string>, files: FileSystem, parseInt: ParseInt, parseNumber: ParseNumber)
    requires FilesWellFormed(files)
    requires Load(path, files, parseInt, parseNumber).Ok?
    ensures var raw := files[ResolvePath(path)];
      var t := Load(path, files, parseInt, parseNumber).value;
      WellFormed(t) && |t.rows| == |raw.rows| && |t.columns| == |raw.columns|
      && forall j :: 0 <= j < |t.columns| ==> t.columns[j] == NormalizeHeader(raw.columns[j])
  {
    var raw := files[ResolvePath(path)];
    var n := Normalized(raw, parseInt).value;
    NormalizedShape(raw, parseInt);
    CleanShape(n, TextColumns, NumericColumns, parseNumber);
  }

  /** Normalising keeps the rows and rewrites only the header. */
  lemma NormalizedShape(raw: Table, parseInt: ParseInt)
    requires WellFormed(raw) && Normalized(raw, parseInt).Ok?
    ensures var n := Normalized(raw, parseInt).value;
      WellFormed(n) && n.columns == NormalizedColumns(raw.columns) && |n.rows| == |raw.rows|
  {
  }

  /** The column passes keep the header and the number of rows. */
  lemma CleanShape(t: Table, textCols: seq<string>, numCols: seq<string>, parseNumber: ParseNumber)
    requires WellFormed(t)
    ensures var r := Clean(t, textCols, numCols, parseNumber);
      WellFormed(r) && r.columns == t.columns && |r.rows| == |t.rows|
  {
  }

  /** Two column passes with idempotent cell functions over disjoint column lists: each listed
      column that is present holds its pass's function of its old cells, and every other cell is
      as before. */
  lemma TwoPasses(t: Table, a: seq<string>, f: Value -> Value, b: seq<string>, g: Value -> Value)
    requires WellFormed(t)
    requires forall v :: f(f(v)) == f(v)
    requires forall v :: g(g(v)) == g(v)
    requires forall c :: c in a ==> c !in b
    ensures var r := MapColumns(MapColumns(t, a, f), b, g);
      r.columns == t.columns && |r.rows| == |t.rows|
      && (forall c, i :: c in a && c in t.columns && 0 <= i < |r.rows| ==>
            Get(r.columns, r.rows[i], c) == f(Get(t.columns, t.rows[i], c)))
      && (forall c, i :: c in b && c in t.columns && 0 <= i < |r.rows| ==>
            Get(r.columns, r.rows[i], c) == g(Get(t.columns, t.rows[i], c)))
      && (forall c, i :: c !in a && c !in b && 0 <= i < |r.rows| ==>
            Get(r.columns, r.rows[i], c) == Get(t.columns, t.rows[i], c))
  {
    MapColumnsSpec(t, a, f);
    MapColumnsSpec(MapColumns(t, a, f), b, g);
  }

  lemma ColumnListsDisjoint()
    ensures forall c :: c in TextColumns ==> c !in NumericColumns
    ensures "fort_id" !in TextColumns && "fort_id" !in NumericColumns
  {
  }

  lemma FillEmptyIdempotent()
    ensures forall v :: FillEmpty(FillEmpty(v)) == FillEmpty(v) && FillEmpty(v) != Missing
  {
  }

  lemma ToNumericIdempotent(parseNumber: ParseNumber)
    ensures forall v :: ToNumeric(parseNumber)(ToNumeric(parseNumber)(v)) == ToNumeric(parseNumber)(v)
    ensures forall v :: IsNumeric(ToNumeric(parseNumber)(v))
  {
  }

  /** The two column passes of `load_forts`: a listed text column that is present has no NaN
      left (NaN became ""), a listed numeric column that is present holds only numbers or NaN
      (text that is not a number became NaN, text that is one became that number), and every
      other cell is unchanged. */
  lemma FillAndCoerce(t: Table, textCols: seq<string>, numCols: seq<string>, parseNumber: ParseNumber)
    requires WellFormed(t)
    requires forall c :: c in textCols ==> c !in numCols
    ensures var r := Clean(t, textCols, numCols, parseNumber);
      r.columns == t.columns && |r.rows| == |t.rows|
      && (forall c, i :: c in textCols && c in t.columns && 0 <= i < |r.rows| ==>
            Get(r.columns, r.rows[i], c) == FillEmpty(Get(t.columns, t.rows[i], c))
            && Get(r.columns, r.rows[i], c) != Missing)
      && (forall c, i :: c in numCols && c in t.columns && 0 <= i < |r.rows| ==>
            Get(r.columns, r.rows[i], c) == CoerceCell(Get(t.columns, t.rows[i], c), parseNumber)
            && IsNumeric(Get(r.columns, r.rows[i], c)))
      && (forall c, i :: c !in textCols && c !in numCols && 0 <= i < |r.rows| ==>
            Get(r.columns, r.rows[i], c) == Get(t.columns, t.rows[i], c))
  {
    FillEmptyIdempotent();
    ToNumericIdempotent(parseNumber);
    TwoPasses(t, textCols, FillEmpty, numCols, ToNumeric(parseNumber));
  }

  lemma CleanKeepsColumns(t: Table, textCols: seq<string>, numCols: seq<string>, parseNumber: ParseNumber)
    requires WellFormed(t)
    requires forall c :: c in textCols ==> c !in numCols
    ensures var r := Clean(t, textCols, numCols, parseNumber);
      (forall c, i :: c in textCols && c in r.columns && 0 <= i < |r.rows| ==> Get(r.columns, r.rows[i], c) != Missing)
      && (forall c, i :: c in numCols && c in r.columns && 0 <= i < |r.rows| ==> IsNumeric(Get(r.columns, r.rows[i], c)))
  {
    FillAndCoerce(t, textCols, numCols, parseNumber);
  }

  /** `fort_id`, when present, has been converted cell by cell to integers; a cell that
      cannot be converted makes the load fail. */
  lemma LoadFortId(path: Option<string>, files: FileSystem, parseInt: ParseInt, parseNumber: ParseNumber)
    requires FilesWellFormed(files)
    requires ResolvePath(path) in files
    ensures var raw := files[ResolvePath(path)];
      var h := Table(NormalizedColumns(raw.columns), raw.rows);
      var r := Load(path, files, parseInt, parseNumber);
      (("fort_id" in h.columns && (exists i :: 0 <= i < |h.rows| && AsInt(Get(h.columns, h.rows[i], "fort_id"), parseInt).None?))
        <==> r == Err(FortIdNotConvertible))
      && (r.Ok? && "fort_id" in h.columns ==> forall i :: 0 <= i < |h.rows| ==>
            Get(r.value.columns, r.value.rows[i], "fort_id") == Int(AsInt(Get(h.columns, h.rows[i], "fort_id"), parseInt).value))
  {
    var raw := files[ResolvePath(path)];
    var h := Table(NormalizedColumns(raw.columns), raw.rows);
    if "fort_id" in h.columns {
      match FortIdAsInt(h, parseInt)
      case None =>
      case Some(ids) =>
        var t := SetColumn(h, "fort_id", ids);
        assert Load(path, files, parseInt, parseNumber) == Ok(Clean(t, TextColumns, NumericColumns, parseNumber));
        ConvertedFortIdKept(h, ids, parseInt, parseNumber);
    }
  }

  /** The converted `fort_id` column survives the column passes. */
  lemma ConvertedFortIdKept(h: Table, ids: seq<Value>, parseInt: ParseInt, parseNumber: ParseNumber)
    requires WellFormed(h) && FortIdAsInt(h, parseInt) == Some(ids)
    ensures var r := Clean(SetColumn(h, "fort_id", ids), TextColumns, NumericColumns, parseNumber);
      |r.rows| == |h.rows|
      && forall i :: 0 <= i < |h.rows| ==>
           Get(r.columns, r.rows[i], "fort_id") == Int(AsInt(Get(h.columns, h.rows[i], "fort_id"), parseInt).value)
  {
    var t := SetColumn(h, "fort_id", ids);
    forall i | 0 <= i < |h.rows|
      ensures Get(t.columns, t.rows[i], "fort_id") == Int(AsInt(Get(h.columns, h.rows[i], "fort_id"), parseInt).value)
    {
      SetColumnCell(h, "fort_id", ids, "fort_id", i);
    }
    ColumnListsDisjoint();
    CleanUnlisted(t, TextColumns, NumericColumns, parseNumber, "fort_id");
  }

  /** The column passes leave a column in neither list as it was. */
  lemma CleanUnlisted(t: Table, textCols: seq<string>, numCols: seq<string>, parseNumber: ParseNumber, c: string)
    requires WellFormed(t)
    requires forall d :: d in textCols ==> d !in numCols
    requires c !in textCols && c !in numCols
    ensures var r := Clean(t, textCols, numCols, parseNumber);
      |r.rows| == |t.rows| && forall i :: 0 <= i < |r.rows| ==> Get(r.columns, r.rows[i], c) == Get(t.columns, t.rows[i], c)
  {
    FillAndCoerce(t, textCols, numCols, parseNumber);
  }

  /** Every successful load has filled its text columns and coerced its numeric columns: no
      listed text column holds NaN and every listed numeric column holds only numbers or NaN. */
  lemma LoadColumns(path: Option<string>, files: FileSystem, parseInt: ParseInt, parseNumber: ParseNumber)
    requires FilesWellFormed(files)
    requires Load(path, files, parseInt, parseNumber).Ok?
    ensures var t := Load(path, files, parseInt, parseNumber).value;
      (forall c, i :: c in TextColumns && c in t.columns && 0 <= i < |t.rows| ==>
         Get(t.columns, t.rows[i], c) != Missing)
      && (forall c, i :: c in NumericColumns && c in t.columns && 0 <= i < |t.rows| ==>
         IsNumeric(Get(t.columns, t.rows[i], c)))
  {
    var n := Normalized(files[ResolvePath(path)], parseInt).value;
    ColumnListsDisjoint();
    CleanKeepsColumns(n, TextColumns, NumericColumns, parseNumber);
  }
}
