/** `preprocess_for_model` of src/core/preprocess.py: label-encode the categorical columns
    (missing values become 'Unknown', every value becomes a string, and a `{col}_le` column of
    codes is added) and fill missing numeric values with the column median. The frame is a
    value: the input is never changed, the result is a new table. */
module Preprocess {
  import opened Wrappers
  import opened Strings
  import opened Frame
  import opened Sequences
  import opened LabelEncoding

  const CategoricalColumns: seq<string> := ["type", "district", "taluka", "trek_difficulty", "best_season"]

  const MedianColumns: seq<string> := ["elevation_m", "trek_time_hours"]

  /** The name of the code column added for `col`. */
  function CodeColumn(col: string): string {
    col + "_le"
  }

  lemma {:induction false} CodeColumnInjective(c: string, d: string)
    requires CodeColumn(c) == CodeColumn(d)
    ensures c == d
  {
    assert |c| == |d|;
    assert c == CodeColumn(c)[..|c|];
  }

  // ---------------------------------------------------------------------------
  // One categorical column
  // ---------------------------------------------------------------------------

  /** `fillna('Unknown').astype(str)` for one cell. */
  function CategoryText(v: Value, floatRepr: real -> string): string {
    if v.Missing? then "Unknown" else PyStr(v, floatRepr)
  }

  /** The strings of column `col` after `fillna('Unknown').astype(str)`. */
  function Categories(t: Table, col: string, floatRepr: real -> string): (cats: seq<string>)
    ensures |cats| == |t.rows|
  {
    seq(|t.rows|, i requires 0 <= i < |t.rows| => CategoryText(Get(t.columns, t.rows[i], col), floatRepr))
  }

  /** The strings as cells. */
  function TextValues(cats: seq<string>): (vs: seq<Value>)
    ensures |vs| == |cats| && forall i :: 0 <= i < |cats| ==> vs[i] == Text(cats[i])
  {
    seq(|cats|, i requires 0 <= i < |cats| => Text(cats[i]))
  }

  /** `le.fit_transform(cats)`: each string's code under the encoder fitted on them all. */
  function CodeValues(cats: seq<string>): (vs: seq<Value>)
    ensures |vs| == |cats|
    ensures forall i :: 0 <= i < |cats| ==> cats[i] in Fit(cats).classes && vs[i] == Int(Code(Fit(cats), cats[i]))
  {
    var le := Fit(cats);
    assert forall i :: 0 <= i < |cats| ==> cats[i] in le.classes by {
      forall i | 0 <= i < |cats| ensures cats[i] in le.classes {
        assert cats[i] in cats;
      }
    }
    seq(|cats|, i requires 0 <= i < |cats| => Int(Code(le, cats[i])))
  }

  /** One turn of the categorical loop: the column is rewritten as strings and `{col}_le`
      receives the encoder's codes. */
  function EncodeColumn(t: Table, col: string, floatRepr: real -> string): (r: Table)
    requires WellFormed(t)
    ensures WellFormed(r) && |r.rows| == |t.rows| && t.columns <= r.columns
  {
    var cats := Categories(t, col, floatRepr);
    SetColumn(SetColumn(t, col, TextValues(cats)), CodeColumn(col), CodeValues(cats))
  }

  /** After one turn, row `i` holds the string of its old cell in `col` and that string's
      code in `{col}_le`. */
  lemma EncodeColumnCell(t: Table, col: string, floatRepr: real -> string, i: int)
    requires WellFormed(t) && 0 <= i < |t.rows|
    ensures var r := EncodeColumn(t, col, floatRepr);
      var cats := Categories(t, col, floatRepr);
      cats[i] in Fit(cats).classes
      && Get(r.columns, r.rows[i], col) == Text(cats[i])
      && Get(r.columns, r.rows[i], CodeColumn(col)) == Int(Code(Fit(cats), cats[i]))
  {
    var cats := Categories(t, col, floatRepr);
    var t1 := SetColumn(t, col, TextValues(cats));
    assert col != CodeColumn(col) by {
      assert |CodeColumn(col)| == |col| + 3;
    }
    SetColumnCell(t, col, TextValues(cats), col, i);
    SetColumnCell(t1, CodeColumn(col), CodeValues(cats), col, i);
    SetColumnCell(t1, CodeColumn(col), CodeValues(cats), CodeColumn(col), i);
  }

  /** One turn changes no cell outside `col` and `{col}_le`. */
  lemma EncodeColumnOther(t: Table, col: string, floatRepr: real -> string, x: string, i: int)
    requires WellFormed(t) && x != col && x != CodeColumn(col) && 0 <= i < |t.rows|
    ensures var r := EncodeColumn(t, col, floatRepr);
      Get(r.columns, r.rows[i], x) == Get(t.columns, t.rows[i], x)
  {
    var cats := Categories(t, col, floatRepr);
    var t1 := SetColumn(t, col, TextValues(cats));
    SetColumnCell(t, col, TextValues(cats), x, i);
    SetColumnCell(t1, CodeColumn(col), CodeValues(cats), x, i);
  }

  /** One turn adds no column but `col` and `{col}_le`. */
  lemma EncodeColumnPresence(t: Table, col: string, floatRepr: real -> string, x: string)
    requires WellFormed(t) && x != col && x != CodeColumn(col)
    ensures x in EncodeColumn(t, col, floatRepr).columns <==> x in t.columns
  {
    var cats := Categories(t, col, floatRepr);
    var t1 := SetColumn(t, col, TextValues(cats));
    SetColumnPresence(t, col, TextValues(cats), x);
    SetColumnPresence(t1, CodeColumn(col), CodeValues(cats), x);
  }

  // ---------------------------------------------------------------------------
  // The categorical loop
  // ---------------------------------------------------------------------------

  /** The state after the categorical loop has run over `cols`: the table and `encoders`. */
  function EncodeAll(t: Table, cols: seq<string>, floatRepr: real -> string): (r: (Table, map<string, LabelEncoder>))
    requires WellFormed(t)
    ensures WellFormed(r.0) && |r.0.rows| == |t.rows|
  {
    if cols == [] then (t, map[])
    else
      var prev := EncodeAll(t, cols[..|cols| - 1], floatRepr);
      var col := cols[|cols| - 1];
      if col in prev.0.columns then
        (EncodeColumn(prev.0, col, floatRepr), prev.1[col := Fit(Categories(prev.0, col, floatRepr))])
      else prev
  }

  /** No listed column is the code column of a listed column. */
  predicate NoCodeClash(cols: seq<string>) {
    forall c, d :: c in cols && d in cols ==> c != CodeColumn(d)
  }

  /** Whether `x` is the code column of one of `cols`. */
  predicate IsCodeColumnOf(x: string, cols: seq<string>) {
    exists d :: d in cols && x == CodeColumn(d)
  }

  /** A column that is neither listed nor a code column is present after the categorical loop
      exactly when it was before. */
  lemma {:induction false} EncodeAllPresence(t: Table, cols: seq<string>, floatRepr: real -> string, x: string)
    requires WellFormed(t) && x !in cols && !IsCodeColumnOf(x, cols)
    ensures x in EncodeAll(t, cols, floatRepr).0.columns <==> x in t.columns
  {
    if cols != [] {
      var init := cols[..|cols| - 1];
      var col := cols[|cols| - 1];
      assert forall d :: d in init ==> d in cols;
      EncodeAllPresence(t, init, floatRepr, x);
      var prev := EncodeAll(t, init, floatRepr);
      if col in prev.0.columns {
        EncodeColumnPresence(prev.0, col, floatRepr, x);
      }
    }
  }

  /** A column that is neither listed nor a code column keeps its cells through the categorical
      loop. */
  lemma {:induction false} EncodeAllOther(t: Table, cols: seq<string>, floatRepr: real -> string, x: string, i: int)
    requires WellFormed(t) && x !in cols && !IsCodeColumnOf(x, cols) && 0 <= i < |t.rows|
    ensures var r := EncodeAll(t, cols, floatRepr);
      Get(r.0.columns, r.0.rows[i], x) == Get(t.columns, t.rows[i], x)
  {
    if cols != [] {
      var init := cols[..|cols| - 1];
      var col := cols[|cols| - 1];
      assert forall d :: d in init ==> d in cols;
      EncodeAllOther(t, init, floatRepr, x, i);
      var prev := EncodeAll(t, init, floatRepr);
      if col in prev.0.columns {
        EncodeColumnOther(prev.0, col, floatRepr, x, i);
      }
    }
  }

  /** A listed column is presented to its own turn with its original cells. */
  lemma ReachesItsTurn(t: Table, init: seq<string>, col: string, floatRepr: real -> string)
    requires WellFormed(t) && col !in init && !IsCodeColumnOf(col, init)
    ensures var prev := EncodeAll(t, init, floatRepr);
      (col in prev.0.columns <==> col in t.columns)
      && Categories(prev.0, col, floatRepr) == Categories(t, col, floatRepr)
  {
    EncodeAllPresence(t, init, floatRepr, col);
    var prev := EncodeAll(t, init, floatRepr);
    forall i | 0 <= i < |t.rows|
      ensures Get(prev.0.columns, prev.0.rows[i], col) == Get(t.columns, t.rows[i], col)
    {
      EncodeAllOther(t, init, floatRepr, col, i);
    }
  }

  /** Dropping the last listed column keeps the list's conditions, and the last column is
      neither an earlier one nor an earlier one's code column. */
  lemma InitFacts(cols: seq<string>)
    requires cols != [] && Distinct(cols) && NoCodeClash(cols)
    ensures var init := cols[..|cols| - 1];
      Distinct(init) && NoCodeClash(init)
      && cols[|cols| - 1] !in init && !IsCodeColumnOf(cols[|cols| - 1], init)
  {
    var init := cols[..|cols| - 1];
    assert forall d :: d in init ==> d in cols;
    forall k | 0 <= k < |init| ensures init[k] != cols[|cols| - 1] {
      assert init[k] == cols[k];
    }
    var last := cols[|cols| - 1];
    assert last in cols;
    forall d | d in init ensures last != CodeColumn(d) {
      assert d in cols;
    }
  }

  /** `encoders` gets a key for exactly the listed columns that are present. */
  lemma {:induction false} EncodeAllKeys(t: Table, cols: seq<string>, floatRepr: real -> string, c: string)
    requires WellFormed(t) && Distinct(cols) && NoCodeClash(cols)
    ensures c in EncodeAll(t, cols, floatRepr).1 <==> c in cols && c in t.columns
  {
    if cols != [] {
      var init := cols[..|cols| - 1];
      var col := cols[|cols| - 1];
      assert cols == init + [col];
      InitFacts(cols);
      EncodeAllKeys(t, init, floatRepr, c);
      ReachesItsTurn(t, init, col, floatRepr);
    }
  }

  /** Each listed column that is present ends up holding the strings of its original cells,
      and its `{col}_le` column their codes under an encoder fitted on exactly those strings. */
  lemma {:induction false} EncodeAllCell(t: Table, cols: seq<string>, floatRepr: real -> string, c: string, i: int)
    requires WellFormed(t) && Distinct(cols) && NoCodeClash(cols)
    requires c in cols && c in t.columns && 0 <= i < |t.rows|
    ensures var r := EncodeAll(t, cols, floatRepr);
      var cats := Categories(t, c, floatRepr);
      c in r.1 && r.1[c] == Fit(cats) && cats[i] in r.1[c].classes
      && Get(r.0.columns, r.0.rows[i], c) == Text(cats[i])
      && Get(r.0.columns, r.0.rows[i], CodeColumn(c)) == Int(Code(r.1[c], cats[i]))
  {
    var init := cols[..|cols| - 1];
    var col := cols[|cols| - 1];
    assert cols == init + [col];
    InitFacts(cols);
    ReachesItsTurn(t, init, col, floatRepr);
    var prev := EncodeAll(t, init, floatRepr);
    if c == col {
      EncodeColumnCell(prev.0, col, floatRepr, i);
    } else {
      assert c in init;
      EncodeAllCell(t, init, floatRepr, c, i);
      assert c != CodeColumn(col);
      assert CodeColumn(c) != col;
      assert CodeColumn(c) != CodeColumn(col) by {
        if CodeColumn(c) == CodeColumn(col) {
          CodeColumnInjective(c, col);
        }
      }
      if col in prev.0.columns {
        EncodeColumnOther(prev.0, col, floatRepr, c, i);
        EncodeColumnOther(prev.0, col, floatRepr, CodeColumn(c), i);
      }
    }
  }

  // ---------------------------------------------------------------------------
  // Median fill
  // ---------------------------------------------------------------------------

  function LeReal(): (real, real) -> bool {
    (a, b) => a <= b
  }

  /** The present values of a numeric column, top to bottom. */
  function PresentValues(columns: seq<string>, rows: seq<Row>, col: string): (xs: seq<real>)
    ensures |xs| <= |rows|
  {
    if rows == [] then []
    else
      var v := Get(columns, rows[0], col);
      (if v.Missing? then [] else [ToReal(v)]) + PresentValues(columns, rows[1..], col)
  }

  /** `Series.median()`: the middle of the sorted values, or the mean of the two middle ones;
      NaN (here `None`) when there are none. */
  function Median(xs: seq<real>): (m: Option<real>)
    ensures m.None? <==> xs == []
  {
    if xs == [] then None
    else
      var s := SortBy(xs, LeReal());
      var n := |s|;
      if n % 2 == 1 then Some(s[n / 2]) else Some((s[n / 2 - 1] + s[n / 2]) / 2.0)
  }

  /** The values at most `m`, and the values at least `m`. */
  function AtMost(m: real): real -> bool {
    x => x <= m
  }

  function AtLeast(m: real): real -> bool {
    x => x >= m
  }

  /** In a sequence sorted ascending, the first `k` items are all at most `m` when the
      `k`-th is. */
  lemma CountAtMost(s: seq<real>, k: nat, m: real)
    requires SortedBy(s, LeReal()) && 0 < k <= |s| && s[k - 1] <= m
    ensures CountIf(s, AtMost(m)) >= k
  {
    assert s == s[..k] + s[k..];
    CountIfAppend(s[..k], s[k..], AtMost(m));
    AllCounted(s[..k], AtMost(m));
  }

  /** In a sequence sorted ascending, the items from position `k` on are all at least `m`
      when the `k`-th is. */
  lemma CountAtLeast(s: seq<real>, k: nat, m: real)
    requires SortedBy(s, LeReal()) && 0 <= k < |s| && m <= s[k]
    ensures CountIf(s, AtLeast(m)) >= |s| - k
  {
    assert s == s[..k] + s[k..];
    CountIfAppend(s[..k], s[k..], AtLeast(m));
    AllCounted(s[k..], AtLeast(m));
  }

  lemma {:induction false} AllCounted(s: seq<real>, p: real -> bool)
    requires forall i :: 0 <= i < |s| ==> p(s[i])
    ensures CountIf(s, p) == |s|
  {
    if s != [] {
      AllCounted(s[1..], p);
    }
  }

  /** Where the median sits in the sorted values: at the middle one for an odd count, between
      the two middle ones for an even count. */
  function MiddleLow(n: nat): nat {
    if n % 2 == 1 then n / 2 else if n == 0 then 0 else n / 2 - 1
  }

  /** The median lies between the sorted values at `MiddleLow` and at the middle. */
  lemma MedianBracketed(xs: seq<real>)
    requires xs != []
    ensures var s := SortBy(xs, LeReal());
      |s| == |xs| && SortedBy(s, LeReal()) && multiset(s) == multiset(xs)
      && MiddleLow(|s|) <= |s| / 2 < |s|
      && s[MiddleLow(|s|)] <= Median(xs).value <= s[|s| / 2]
  {
    var s := SortBy(xs, LeReal());
    var n := |s|;
    var h := n / 2;
    if n % 2 == 1 {
      assert MiddleLow(n) == h;
      assert Median(xs) == Some(s[h]);
    } else {
      assert MiddleLow(n) == h - 1;
      assert LeReal()(s[h - 1], s[h]);
      assert Median(xs) == Some((s[h - 1] + s[h]) / 2.0);
    }
  }

  /** At least half the values are at most the median. */
  lemma MedianLowerHalf(xs: seq<real>)
    requires xs != []
    ensures 2 * CountIf(xs, AtMost(Median(xs).value)) >= |xs|
  {
    var m := Median(xs).value;
    var s := SortBy(xs, LeReal());
    MedianBracketed(xs);
    CountAtMost(s, MiddleLow(|s|) + 1, m);
    CountIfPermutation(s, xs, AtMost(m));
  }

  /** At least half the values are at least the median. */
  lemma MedianUpperHalf(xs: seq<real>)
    requires xs != []
    ensures 2 * CountIf(xs, AtLeast(Median(xs).value)) >= |xs|
  {
    var m := Median(xs).value;
    var s := SortBy(xs, LeReal());
    MedianBracketed(xs);
    CountAtLeast(s, |s| / 2, m);
    CountIfPermutation(s, xs, AtLeast(m));
  }

  /** The median splits the values in halves: at least half of them are at most the median
      and at least half at least the median, so it lies between the smallest and the
      largest. */
  lemma MedianSpec(xs: seq<real>)
    requires xs != []
    ensures var m := Median(xs).value;
      2 * CountIf(xs, AtMost(m)) >= |xs| && 2 * CountIf(xs, AtLeast(m)) >= |xs|
      && (exists i :: 0 <= i < |xs| && xs[i] <= m) && (exists j :: 0 <= j < |xs| && m <= xs[j])
  {
    var s := SortBy(xs, LeReal());
    MedianLowerHalf(xs);
    MedianUpperHalf(xs);
    MedianBracketed(xs);
    assert s[MiddleLow(|s|)] in multiset(xs) && s[|s| / 2] in multiset(xs);
  }

  /** `out[col].fillna(median)` for one cell. */
  function FillWith(m: real): Value -> Value {
    (v: Value) => if v.Missing? then Num(m) else v
  }

  /** One turn of the numeric loop: missing values of `col` become the median of its present
      values; a column without present values is left as it is. */
  function FillMedian(t: Table, col: string): (r: Table)
    requires WellFormed(t)
    ensures WellFormed(r) && r.columns == t.columns && |r.rows| == |t.rows|
  {
    match Median(PresentValues(t.columns, t.rows, col))
    case None => t
    case Some(m) => MapColumn(t, col, FillWith(m))
  }

  /** The table after the numeric loop has run over `cols`. */
  function FillMedians(t: Table, cols: seq<string>): (r: Table)
    requires WellFormed(t)
    ensures WellFormed(r) && r.columns == t.columns && |r.rows| == |t.rows|
  {
    if cols == [] then t
    else
      var prev := FillMedians(t, cols[..|cols| - 1]);
      var col := cols[|cols| - 1];
      if col in prev.columns then FillMedian(prev, col) else prev
  }

  /** The value a cell of `col` has after the median fill of `t`. */
  function MedianFilled(t: Table, col: string, v: Value): Value {
    match Median(PresentValues(t.columns, t.rows, col))
    case None => v
    case Some(m) => FillWith(m)(v)
  }

  /** Through the numeric loop, a column keeps its cells unless it is listed and present; a
      listed present column has its missing cells filled with the median of its present ones. */
  lemma {:induction false} FillMediansCell(t: Table, cols: seq<string>, x: string, i: int)
    requires WellFormed(t) && Distinct(cols) && 0 <= i < |t.rows|
    ensures var r := FillMedians(t, cols);
      Get(r.columns, r.rows[i], x) ==
        if x in cols && x in t.columns then MedianFilled(t, x, Get(t.columns, t.rows[i], x))
        else Get(t.columns, t.rows[i], x)
  {
    if cols != [] {
      var init := cols[..|cols| - 1];
      var col := cols[|cols| - 1];
      assert cols == init + [col];
      assert col !in init;
      FillMediansCell(t, init, x, i);
      var prev := FillMedians(t, init);
      if col in prev.columns {
        FillMedianCell(prev, col, x, i);
        forall j | 0 <= j < |t.rows|
          ensures Get(prev.columns, prev.rows[j], col) == Get(t.columns, t.rows[j], col)
        {
          FillMediansCell(t, init, col, j);
        }
        SameColumnSameValues(prev, t, col);
      }
    }
  }

  /** One turn fills the missing cells of `col` and touches no other column. */
  lemma FillMedianCell(t: Table, col: string, x: string, i: int)
    requires WellFormed(t) && col in t.columns && 0 <= i < |t.rows|
    ensures var r := FillMedian(t, col);
      Get(r.columns, r.rows[i], x) ==
        if x == col then MedianFilled(t, col, Get(t.columns, t.rows[i], x)) else Get(t.columns, t.rows[i], x)
  {
  }

  /** Two tables whose column `col` agrees row by row have the same present values there. */
  lemma {:induction false} SameColumnSameValues(a: Table, b: Table, col: string)
    requires |a.rows| == |b.rows|
    requires forall i :: 0 <= i < |a.rows| ==> Get(a.columns, a.rows[i], col) == Get(b.columns, b.rows[i], col)
    ensures PresentValues(a.columns, a.rows, col) == PresentValues(b.columns, b.rows, col)
    decreases |a.rows|
  {
    if a.rows != [] {
      SameColumnSameValues(Table(a.columns, a.rows[1..]), Table(b.columns, b.rows[1..]), col);
    }
  }

  /** Filling with the median only replaces missing cells, and replaces them by a number. */
  lemma MedianFilledSpec(t: Table, col: string, v: Value)
    ensures !v.Missing? ==> MedianFilled(t, col, v) == v
    ensures v.Missing? && PresentValues(t.columns, t.rows, col) != [] ==>
              MedianFilled(t, col, v) == Num(Median(PresentValues(t.columns, t.rows, col)).value)
    ensures v.Missing? && PresentValues(t.columns, t.rows, col) == [] ==> MedianFilled(t, col, v) == Missing
  {
  }

  // ---------------------------------------------------------------------------
  // preprocess_for_model
  // ---------------------------------------------------------------------------

  /** `for col in cat_cols: ...`: the categorical loop. */
  method EncodeCategoricals(df: Table, cols: seq<string>, floatRepr: real -> string)
    returns (out: Table, encoders: map<string, LabelEncoder>)
    requires WellFormed(df)
    ensures (out, encoders) == EncodeAll(df, cols, floatRepr)
  {
    out, encoders := df, map[];
    for k := 0 to |cols|
      invariant (out, encoders) == EncodeAll(df, cols[..k], floatRepr)
    {
      var col := cols[k];
      assert cols[..k + 1][..k] == cols[..k];
      if col in out.columns {
        var le := Fit(Categories(out, col, floatRepr));
        out := EncodeColumn(out, col, floatRepr);
        encoders := encoders[col := le];
      }
    }
    assert cols[..|cols|] == cols;
  }

  /** `for col in numeric_cols: ...`: the median loop. */
  method FillNumerics(df: Table, cols: seq<string>) returns (out: Table)
    requires WellFormed(df)
    ensures out == FillMedians(df, cols)
  {
    out := df;
    for k := 0 to |cols|
      invariant out == FillMedians(df, cols[..k])
    {
      var col := cols[k];
      assert cols[..k + 1][..k] == cols[..k];
      if col in out.columns {
        out := FillMedian(out, col);
      }
    }
    assert cols[..|cols|] == cols;
  }

  /** What `preprocess_for_model(df)` returns. */
  function PreprocessResult(df: Table, floatRepr: real -> string): (Table, map<string, LabelEncoder>)
    requires WellFormed(df)
  {
    var enc := EncodeAll(df, CategoricalColumns, floatRepr);
    (FillMedians(enc.0, MedianColumns), enc.1)
  }

  /** `preprocess_for_model(df)`: the categorical loop, then the median loop, on a copy. The
      median columns must be numeric (`Series.median` raises on text). */
  method PreprocessForModel(df: Table, floatRepr: real -> string)
    returns (out: Table, encoders: map<string, LabelEncoder>)
    requires WellFormed(df)
    requires forall c :: c in MedianColumns ==> NumericColumn(df, c)
    ensures (out, encoders) == PreprocessResult(df, floatRepr)
  {
    out, encoders := EncodeCategoricals(df, CategoricalColumns, floatRepr);
    out := FillNumerics(out, MedianColumns);
  }

  /** A name whose second-to-last character is not `l` is nobody's code column. */
  lemma NotACodeColumn(x: string)
    requires |x| >= 2 && x[|x| - 2] != 'l'
    ensures forall d :: x != CodeColumn(d)
  {
    forall d ensures x != CodeColumn(d) {
      var y := CodeColumn(d);
      assert y[|y| - 2] == 'l';
    }
  }

  /** The column lists meet the conditions the loop lemmas need. */
  lemma ColumnListsFacts()
    ensures Distinct(CategoricalColumns) && NoCodeClash(CategoricalColumns) && Distinct(MedianColumns)
    ensures forall c :: c in MedianColumns ==> c !in CategoricalColumns && !IsCodeColumnOf(c, CategoricalColumns)
  {
    NotACodeColumn("type");
    NotACodeColumn("district");
    NotACodeColumn("taluka");
    NotACodeColumn("trek_difficulty");
    NotACodeColumn("best_season");
    NotACodeColumn("elevation_m");
    NotACodeColumn("trek_time_hours");
  }

  /** `encoders` has a key for exactly the categorical columns present in the input. */
  lemma PreprocessEncoderKeys(df: Table, floatRepr: real -> string, c: string)
    requires WellFormed(df)
    ensures c in PreprocessResult(df, floatRepr).1 <==> c in CategoricalColumns && c in df.columns
  {
    ColumnListsFacts();
    EncodeAllKeys(df, CategoricalColumns, floatRepr, c);
  }

  /** Each categorical column present in the input holds its cells as strings, 'Unknown' for a
      missing one, and `{col}_le` holds their codes under the column's encoder; the median
      loop does not touch these columns. */
  lemma PreprocessCategorical(df: Table, floatRepr: real -> string, c: string, i: int)
    requires WellFormed(df)
    requires c in CategoricalColumns && c in df.columns && 0 <= i < |df.rows|
    ensures var (out, encoders) := PreprocessResult(df, floatRepr);
      var s := CategoryText(Get(df.columns, df.rows[i], c), floatRepr);
      c in encoders && encoders[c] == Fit(Categories(df, c, floatRepr)) && s in encoders[c].classes
      && Get(out.columns, out.rows[i], c) == Text(s)
      && Get(out.columns, out.rows[i], CodeColumn(c)) == Int(Code(encoders[c], s))
  {
    ColumnListsFacts();
    EncodeAllCell(df, CategoricalColumns, floatRepr, c, i);
    var enc := EncodeAll(df, CategoricalColumns, floatRepr);
    FillMediansCell(enc.0, MedianColumns, c, i);
    assert CodeColumn(c) !in MedianColumns by {
      assert |CodeColumn(c)| == |c| + 3;
    }
    FillMediansCell(enc.0, MedianColumns, CodeColumn(c), i);
  }

  /** Each median column present in the input has its missing cells filled with the median of
      its present cells; columns in neither list are unchanged. */
  lemma PreprocessNumeric(df: Table, floatRepr: real -> string, c: string, i: int)
    requires WellFormed(df)
    requires 0 <= i < |df.rows|
    requires !IsCodeColumnOf(c, CategoricalColumns) && c !in CategoricalColumns
    ensures var out := PreprocessResult(df, floatRepr).0;
      Get(out.columns, out.rows[i], c) ==
        if c in MedianColumns && c in df.columns then MedianFilled(df, c, Get(df.columns, df.rows[i], c))
        else Get(df.columns, df.rows[i], c)
  {
    ColumnListsFacts();
    EncodeAllOther(df, CategoricalColumns, floatRepr, c, i);
    EncodeAllPresence(df, CategoricalColumns, floatRepr, c);
    var enc := EncodeAll(df, CategoricalColumns, floatRepr);
    FillMediansCell(enc.0, MedianColumns, c, i);
    if c in MedianColumns && c in df.columns {
      forall j | 0 <= j < |df.rows|
        ensures Get(enc.0.columns, enc.0.rows[j], c) == Get(df.columns, df.rows[j], c)
      {
        EncodeAllOther(df, CategoricalColumns, floatRepr, c, j);
      }
      SameColumnSameValues(enc.0, df, c);
    }
  }
}
