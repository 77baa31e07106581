/** The catalog endpoints of src/api/routers/forts.py: `GET /forts` (`list_forts`) and
    `GET /forts/{fort_id}` (`get_fort`). Both read the module-level table `DF`, loaded once at
    start-up; here it is the parameter `catalog`, a value neither handler can change. */
module FortsRouter {
  import opened Wrappers
  import opened Strings
  import opened Frame
  import opened Sequences

  // ===========================================================================
  // list_forts
  // ===========================================================================

  /** Python truthiness of an optional string parameter: present and non-empty. */
  predicate Given(p: Option<string>) {
    p.Some? && p.value != ""
  }

  /** `series.str.lower().str.contains(ql, na=False)` for one cell: only text can match. */
  predicate TextContains(v: Value, ql: string) {
    v.Text? && Contains(Lower(v.s), ql)
  }

  /** The `q` mask: the lower-cased query occurs in the lower-cased `name`, `notes` or
      `key_events`. */
  predicate MatchesQuery(columns: seq<string>, row: Row, q: string) {
    var ql := Lower(q);
    TextContains(Get(columns, row, "name"), ql)
    || TextContains(Get(columns, row, "notes"), ql)
    || TextContains(Get(columns, row, "key_events"), ql)
  }

  /** The `district` mask: case-insensitive equality; a NaN district matches nothing. */
  predicate MatchesDistrict(columns: seq<string>, row: Row, district: string) {
    var v := Get(columns, row, "district");
    v.Text? && Lower(v.s) == Lower(district)
  }

  /** The columns a request touches exist (pandas raises `KeyError` otherwise). */
  predicate ListReady(catalog: Table, q: Option<string>, district: Option<string>) {
    WellFormed(catalog)
    && (Given(q) ==> "name" in catalog.columns && "notes" in catalog.columns && "key_events" in catalog.columns)
    && (Given(district) ==> "district" in catalog.columns)
  }

  /** The selection `list_forts` makes, stated per row: each given filter holds. */
  predicate Selected(columns: seq<string>, row: Row, q: Option<string>, district: Option<string>) {
    (Given(q) ==> MatchesQuery(columns, row, q.value))
    && (Given(district) ==> MatchesDistrict(columns, row, district.value))
  }

  /** The combined mask. */
  function SelectedMask(columns: seq<string>, q: Option<string>, district: Option<string>): Row -> bool {
    row => Selected(columns, row, q, district)
  }

  /** The rows left after the text mask (when `q` is given) and then the district mask (when
      `district` is given). */
  function Masked(catalog: Table, q: Option<string>, district: Option<string>): seq<Row> {
    var byText :=
      if Given(q) then
        var text := q.value;
        Filter(catalog.rows, row => MatchesQuery(catalog.columns, row, text))
      else catalog.rows;
    if Given(district) then
      var d := district.value;
      Filter(byText, row => MatchesDistrict(catalog.columns, row, d))
    else byText
  }

  /** `list_forts(q=None, district=None, limit=10)`: the masks, then `head(limit)`. The rows
      returned form a subsequence of the catalog (catalog order kept), each passes every given
      filter, and for `limit >= 0` there are exactly `min(limit, number of passing rows)`. */
  function ListForts(catalog: Table, q: Option<string> := None, district: Option<string> := None,
                     limit: int := 10): (r: seq<Row>)
    requires ListReady(catalog, q, district)
    ensures IsSubsequence(r, catalog.rows)
    ensures forall row :: row in r ==> Selected(catalog.columns, row, q, district)
    ensures limit >= 0 ==> |r| == Min(limit, CountIf(catalog.rows, SelectedMask(catalog.columns, q, district)))
  {
    MaskedIsSelection(catalog, q, district);
    HeadOfFilter(catalog.rows, SelectedMask(catalog.columns, q, district), limit);
    Head(Masked(catalog, q, district), limit)
  }

  /** Masks that agree on every item select the same items. */
  lemma {:induction false} FilterSameMask<T>(s: seq<T>, p: T -> bool, q: T -> bool)
    requires forall x :: p(x) == q(x)
    ensures Filter(s, p) == Filter(s, q)
  {
    if s != [] {
      FilterSameMask(s[1..], p, q);
    }
  }

  /** A mask every item satisfies selects everything. */
  lemma {:induction false} FilterAll<T>(s: seq<T>, p: T -> bool)
    requires forall x :: p(x)
    ensures Filter(s, p) == s
  {
    if s != [] {
      FilterAll(s[1..], p);
      assert s == [s[0]] + s[1..];
    }
  }

  /** Two masks in a row select what their conjunction selects. */
  lemma {:induction false} FilterTwice<T>(s: seq<T>, p: T -> bool, q: T -> bool, pq: T -> bool)
    requires forall x :: pq(x) == (p(x) && q(x))
    ensures Filter(Filter(s, p), q) == Filter(s, pq)
  {
    if s != [] {
      FilterTwice(s[1..], p, q, pq);
    }
  }

  /** The text mask followed by the district mask selects the rows that pass every given
      filter; an absent or empty `q` or `district` filters nothing. */
  lemma MaskedIsSelection(catalog: Table, q: Option<string>, district: Option<string>)
    ensures Masked(catalog, q, district) == Filter(catalog.rows, SelectedMask(catalog.columns, q, district))
  {
    var cols := catalog.columns;
    var sel := SelectedMask(cols, q, district);
    if Given(q) && Given(district) {
      var text, d := q.value, district.value;
      FilterTwice(catalog.rows, row => MatchesQuery(cols, row, text),
                  row => MatchesDistrict(cols, row, d), sel);
    } else if Given(q) {
      var text := q.value;
      FilterSameMask(catalog.rows, row => MatchesQuery(cols, row, text), sel);
    } else if Given(district) {
      var d := district.value;
      FilterSameMask(catalog.rows, row => MatchesDistrict(cols, row, d), sel);
    } else {
      FilterAll(catalog.rows, sel);
    }
  }

  /** The result is exactly the first `limit` rows of the catalog, in catalog order, that pass
      every given filter. */
  lemma ListFortsIsHeadOfSelection(catalog: Table, q: Option<string>, district: Option<string>, limit: int)
    requires ListReady(catalog, q, district)
    ensures ListForts(catalog, q, district, limit)
            == Head(Filter(catalog.rows, SelectedMask(catalog.columns, q, district)), limit)
  {
    MaskedIsSelection(catalog, q, district);
  }

  /** Without a text query and a district, the handler returns the first `limit` rows; called
      with no arguments at all, the first 10. */
  lemma ListFortsNoFilter(catalog: Table, limit: int)
    requires WellFormed(catalog)
    ensures ListForts(catalog, limit := limit) == Head(catalog.rows, limit)
    ensures ListForts(catalog, Some(""), Some(""), limit) == Head(catalog.rows, limit)
    ensures ListForts(catalog) == Head(catalog.rows, 10)
  {
  }

  // ===========================================================================
  // get_fort
  // ===========================================================================

  /** The error `HTTPException(status_code, detail)` raised by a handler. */
  datatype HttpError = HttpError(statusCode: int, detail: string)

  /** `get_fort(fort_id)`: the first catalog row whose `fort_id` equals the id, or a 404
      "Fort not found" when none does. */
  function GetFort(catalog: Table, fortId: int): (r: Result<Row, HttpError>)
    requires "fort_id" in catalog.columns
    ensures r.Err? <==>
      forall i :: 0 <= i < |catalog.rows| ==> !PyEq(Get(catalog.columns, catalog.rows[i], "fort_id"), Int(fortId))
    ensures r.Err? ==> r.error == HttpError(404, "Fort not found")
    ensures r.Ok? ==> exists i :: (0 <= i < |catalog.rows| && r.value == catalog.rows[i]
      && PyEq(Get(catalog.columns, catalog.rows[i], "fort_id"), Int(fortId))
      && forall j :: 0 <= j < i ==> !PyEq(Get(catalog.columns, catalog.rows[j], "fort_id"), Int(fortId)))
  {
    match FirstMatch(catalog, "fort_id", Int(fortId))
    case None => Err(HttpError(404, "Fort not found"))
    case Some(i) => Ok(catalog.rows[i])
  }

  /** An id held by an integer `fort_id` cell is always found, and found at its first
      occurrence. */
  lemma GetFortFindsFirst(catalog: Table, fortId: int, i: nat)
    requires "fort_id" in catalog.columns && i < |catalog.rows|
    requires Get(catalog.columns, catalog.rows[i], "fort_id") == Int(fortId)
    requires forall j :: 0 <= j < i ==> !PyEq(Get(catalog.columns, catalog.rows[j], "fort_id"), Int(fortId))
    ensures GetFort(catalog, fortId) == Ok(catalog.rows[i])
  {
    var m := FirstMatch(catalog, "fort_id", Int(fortId));
    assert PyEq(Get(catalog.columns, catalog.rows[i], "fort_id"), Int(fortId));
    assert m.Some?;
    if m.value < i {
      assert false;
    } else if m.value > i {
      assert false;
    }
  }
}
