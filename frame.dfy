/** A pandas DataFrame as a value: an ordered header and rows of cells. */
module Frame {
  import opened Wrappers
  import opened Strings

  /** One cell. `Missing` is pandas' NaN / None; `Int` an integer cell; `Num` a float cell. */
  datatype Value = Missing | Text(s: string) | Int(i: int) | Num(x: real)

  /** A row holds one cell per header entry, in header order. */
  type Row = seq<Value>

  datatype Table = Table(columns: seq<string>, rows: seq<Row>)

  predicate WellFormed(t: Table) {
    forall r :: r in t.rows ==> |r| == |t.columns|
  }

  /** The position of the first header entry called `name`. */
  function ColumnIndex(columns: seq<string>, name: string): (r: Option<nat>)
    ensures r.None? <==> name !in columns
    ensures r.Some? ==> r.value < |columns| && columns[r.value] == name
    ensures r.Some? ==> forall j :: 0 <= j < r.value ==> columns[j] != name
  {
    if |columns| == 0 then None
    else if columns[0] == name then Some(0)
    else match ColumnIndex(columns[1..], name)
      case None => None
      case Some(j) => Some(j + 1)
  }

  /** `row[name]`, or `Missing` when there is no such column. Callers that model code which
      would raise `KeyError` require the column first. */
  function Get(columns: seq<string>, row: Row, name: string): Value {
    match ColumnIndex(columns, name)
    case None => Missing
    case Some(j) => if j < |row| then row[j] else Missing
  }

  /** A number or NaN: a cell of a numeric dtype. */
  predicate IsNumeric(v: Value) {
    !v.Text?
  }

  /** Column `name` has a numeric dtype (vacuous when the column is absent). */
  predicate NumericColumn(t: Table, name: string) {
    forall r :: r in t.rows ==> IsNumeric(Get(t.columns, r, name))
  }

  /** The number in a numeric cell, reading NaN as 0 (`fillna(0)`). */
  function ToReal(v: Value): real {
    match v
    case Int(i) => i as real
    case Num(x) => x
    case _ => 0.0
  }

  /** pandas element-wise `==`: NaN equals nothing, not even NaN; an int equals the float
      with the same value. */
  predicate PyEq(a: Value, b: Value) {
    match (a, b)
    case (Text(x), Text(y)) => x == y
    case (Int(x), Int(y)) => x == y
    case (Num(x), Num(y)) => x == y
    case (Int(x), Num(y)) => x as real == y
    case (Num(x), Int(y)) => x == y as real
    case _ => false
  }

  /** `str(v)`; Python's float formatting is the parameter `floatRepr`. */
  function PyStr(v: Value, floatRepr: real -> string): string {
    match v
    case Missing => "nan"
    case Text(s) => s
    case Int(i) => IntToDecimal(i)
    case Num(x) => floatRepr(x)
  }

  /** `df[name] = values`: overwrite the column if it exists, otherwise append it. */
  function SetColumn(t: Table, name: string, values: seq<Value>): (r: Table)
    requires WellFormed(t) && |values| == |t.rows|
    ensures WellFormed(r) && |r.rows| == |t.rows|
    ensures r.columns == if name in t.columns then t.columns else t.columns + [name]
    ensures forall i :: 0 <= i < |r.rows| ==> Get(r.columns, r.rows[i], name) == values[i]
    ensures forall c, i :: c != name && 0 <= i < |r.rows| ==>
              Get(r.columns, r.rows[i], c) == Get(t.columns, t.rows[i], c)
  {
    match ColumnIndex(t.columns, name)
    case Some(j) =>
      var r := Table(t.columns, seq(|t.rows|, i requires 0 <= i < |t.rows| => t.rows[i][j := values[i]]));
      forall i, c | 0 <= i < |t.rows|
        ensures |r.rows[i]| == |t.columns|
        ensures Get(r.columns, r.rows[i], c) == if c == name then values[i] else Get(t.columns, t.rows[i], c)
      {
        assert t.rows[i] in t.rows;
        UpdatedRowGet(t.columns, t.rows[i], name, j, values[i], c);
      }
      r
    case None =>
      var cols := t.columns + [name];
      var r := Table(cols, seq(|t.rows|, i requires 0 <= i < |t.rows| => t.rows[i] + [values[i]]));
      forall i, c | 0 <= i < |t.rows|
        ensures |r.rows[i]| == |cols|
        ensures Get(r.columns, r.rows[i], c) == if c == name then values[i] else Get(t.columns, t.rows[i], c)
      {
        assert t.rows[i] in t.rows;
        AppendedRowGet(t.columns, t.rows[i], name, values[i], c);
      }
      r
  }

  /** Overwriting the cell of `name` in a row changes what `Get` reads for `name` only. */
  lemma UpdatedRowGet(columns: seq<string>, row: Row, name: string, j: nat, v: Value, c: string)
    requires |row| == |columns| && ColumnIndex(columns, name) == Some(j)
    ensures Get(columns, row[j := v], c) == if c == name then v else Get(columns, row, c)
  {
  }

  /** Appending a column `name` and its cell to a row changes what `Get` reads for `name` only. */
  lemma AppendedRowGet(columns: seq<string>, row: Row, name: string, v: Value, c: string)
    requires |row| == |columns| && name !in columns
    ensures Get(columns + [name], row + [v], c) == if c == name then v else Get(columns, row, c)
  {
    if c != name {
      PrefixColumnIndex(columns, [name], c);
    }
  }

  lemma {:induction false} PrefixColumnIndex(a: seq<string>, b: seq<string>, c: string)
    requires c !in b || c in a
    ensures ColumnIndex(a + b, c) == ColumnIndex(a, c)
  {
    if a != [] {
      assert (a + b)[1..] == a[1..] + b;
      if a[0] != c {
        PrefixColumnIndex(a[1..], b, c);
      }
    }
  }

  /** Setting one column leaves the presence of every other column as it was. */
  lemma SetColumnPresence(t: Table, name: string, values: seq<Value>, x: string)
    requires WellFormed(t) && |values| == |t.rows| && x != name
    ensures x in SetColumn(t, name, values).columns <==> x in t.columns
  {
  }

  /** After setting a column, row `i` holds the new value there and its old cells elsewhere. */
  lemma SetColumnCell(t: Table, name: string, values: seq<Value>, x: string, i: int)
    requires WellFormed(t) && |values| == |t.rows| && 0 <= i < |t.rows|
    ensures var r := SetColumn(t, name, values);
      Get(r.columns, r.rows[i], x) == if x == name then values[i] else Get(t.columns, t.rows[i], x)
  {
  }

  /** `df[name] = f(df[name])` for an element-wise `f`; nothing happens when the column is
      absent (the callers check `name in df.columns` first). */
  function MapColumn(t: Table, name: string, f: Value -> Value): (r: Table)
    requires WellFormed(t)
    ensures WellFormed(r) && r.columns == t.columns && |r.rows| == |t.rows|
    ensures forall i :: 0 <= i < |r.rows| ==>
              Get(r.columns, r.rows[i], name) ==
                if name in t.columns then f(Get(t.columns, t.rows[i], name)) else Missing
    ensures forall c, i :: c != name && 0 <= i < |r.rows| ==>
              Get(r.columns, r.rows[i], c) == Get(t.columns, t.rows[i], c)
  {
    if name in t.columns then SetColumn(t, name, seq(|t.rows|, i requires 0 <= i < |t.rows| =>
                                                       f(Get(t.columns, t.rows[i], name))))
    else t
  }

  /** The index of the first row whose cell in column `name` equals `key` under pandas `==`:
      `df[df[name] == key].iloc[0]`. */
  function FirstMatch(t: Table, name: string, key: Value): (r: Option<nat>)
    ensures r.Some? ==> r.value < |t.rows| && PyEq(Get(t.columns, t.rows[r.value], name), key)
    ensures r.Some? ==> forall j :: 0 <= j < r.value ==> !PyEq(Get(t.columns, t.rows[j], name), key)
    ensures r.None? <==> forall j :: 0 <= j < |t.rows| ==> !PyEq(Get(t.columns, t.rows[j], name), key)
  {
    FirstMatchFrom(t, name, key, 0)
  }

  function FirstMatchFrom(t: Table, name: string, key: Value, i: nat): (r: Option<nat>)
    requires i <= |t.rows|
    ensures r.Some? ==> i <= r.value < |t.rows| && PyEq(Get(t.columns, t.rows[r.value], name), key)
    ensures r.Some? ==> forall j :: i <= j < r.value ==> !PyEq(Get(t.columns, t.rows[j], name), key)
    ensures r.None? <==> forall j :: i <= j < |t.rows| ==> !PyEq(Get(t.columns, t.rows[j], name), key)
    decreases |t.rows| - i
  {
    if i == |t.rows| then None
    else if PyEq(Get(t.columns, t.rows[i], name), key) then Some(i)
    else FirstMatchFrom(t, name, key, i + 1)
  }
}
