/** The two ranking functions of src/core/recommender.py: nearest forts to a coordinate
    (`recommend_by_proximity`) and forts similar to a given one (`recommend_similar`).
    Both copy the table, attach computed columns, sort, and take the head. */
module Recommender {
  import opened Wrappers
  import opened Frame
  import opened Sequences

  // ===========================================================================
  // recommend_by_proximity
  // ===========================================================================

  /** A `distance_km` value: a finite number of kilometres or `float('inf')`. */
  datatype Distance = Finite(km: real) | Inf

  /** `<=` on distances, with infinity above every finite distance. */
  predicate DistanceLe(a: Distance, b: Distance) {
    b.Inf? || (a.Finite? && a.km <= b.km)
  }

  /** geopy's `geodesic((lat, lon), (row_lat, row_lon)).km` for the query point and a row's two
      coordinate cells; `None` when geopy raises (a malformed or out-of-range coordinate). */
  type Geodesic = (real, real, Value, Value) -> Option<real>

  /** A row of the proximity result: the original row with its `distance_km` column. */
  datatype Ranked = Ranked(row: Row, distanceKm: Distance)

  /** `compute_distance`: infinity when a coordinate column is absent (the `KeyError` is
      caught), when either coordinate is NaN, or when geopy raises; otherwise geopy's value. */
  function ComputeDistance(columns: seq<string>, row: Row, lat: real, lon: real, geodesic: Geodesic)
    : (d: Distance)
    ensures d.Inf? <==>
      "latitude" !in columns || "longitude" !in columns
      || Get(columns, row, "latitude").Missing? || Get(columns, row, "longitude").Missing?
      || geodesic(lat, lon, Get(columns, row, "latitude"), Get(columns, row, "longitude")).None?
    ensures d.Finite? ==>
      Some(d.km) == geodesic(lat, lon, Get(columns, row, "latitude"), Get(columns, row, "longitude"))
  {
    if "latitude" !in columns || "longitude" !in columns then Inf
    else
      var rowLat, rowLon := Get(columns, row, "latitude"), Get(columns, row, "longitude");
      if rowLat.Missing? || rowLon.Missing? then Inf
      else match geodesic(lat, lon, rowLat, rowLon)
        case None => Inf
        case Some(km) => Finite(km)
  }

  /** `df_coords['distance_km'] = df_coords.apply(compute_distance, axis=1)` */
  function WithDistances(df: Table, lat: real, lon: real, geodesic: Geodesic): (r: seq<Ranked>)
    ensures |r| == |df.rows|
    ensures forall i :: 0 <= i < |r| ==>
              r[i] == Ranked(df.rows[i], ComputeDistance(df.columns, df.rows[i], lat, lon, geodesic))
  {
    seq(|df.rows|, i requires 0 <= i < |df.rows| =>
      Ranked(df.rows[i], ComputeDistance(df.columns, df.rows[i], lat, lon, geodesic)))
  }

  /** The `sort_values('distance_km')` order. */
  predicate ByDistance(a: Ranked, b: Ranked) {
    DistanceLe(a.distanceKm, b.distanceKm)
  }

  lemma ByDistanceTotal()
    ensures TotalPreorder(ByDistance)
  {
  }

  /** `recommend_by_proximity(df, lat, lon, k=10)`: at most `k` rows (exactly `min(k, len(df))` for
      `k >= 0`), in non-decreasing `distance_km`, each an input row with its own distance. */
  function RecommendByProximity(df: Table, lat: real, lon: real, k: int := 10, geodesic: Geodesic)
    : (r: seq<Ranked>)
    ensures k >= 0 ==> |r| == Min(k, |df.rows|)
    ensures forall i, j :: 0 <= i < j < |r| ==> DistanceLe(r[i].distanceKm, r[j].distanceKm)
    ensures multiset(r) <= multiset(WithDistances(df, lat, lon, geodesic))
  {
    ByDistanceTotal();
    var sorted := SortBy(WithDistances(df, lat, lon, geodesic), ByDistance);
    assert multiset(Head(sorted, k)) <= multiset(sorted) by {
      assert sorted == Head(sorted, k) + sorted[|Head(sorted, k)|..];
    }
    Head(sorted, k)
  }

  /** Every result row is an input row carrying the distance computed for it; the input table
      itself is a value and is not changed. */
  lemma ProximityRowsAreInputRows(df: Table, lat: real, lon: real, k: int, geodesic: Geodesic)
    ensures forall x :: x in RecommendByProximity(df, lat, lon, k, geodesic) ==>
      x.row in df.rows && x.distanceKm == ComputeDistance(df.columns, x.row, lat, lon, geodesic)
  {
    var r := RecommendByProximity(df, lat, lon, k, geodesic);
    var all := WithDistances(df, lat, lon, geodesic);
    forall x | x in r
      ensures x.row in df.rows && x.distanceKm == ComputeDistance(df.columns, x.row, lat, lon, geodesic)
    {
      assert x in multiset(all);
      var i :| 0 <= i < |all| && all[i] == x;
    }
  }

  /** The result is a best `k`: no row left out is strictly nearer than a row returned. */
  lemma ProximityTopK(df: Table, lat: real, lon: real, k: int, geodesic: Geodesic)
    ensures forall x, y ::
      x in multiset(WithDistances(df, lat, lon, geodesic)) - multiset(RecommendByProximity(df, lat, lon, k, geodesic))
      && y in RecommendByProximity(df, lat, lon, k, geodesic)
      ==> DistanceLe(y.distanceKm, x.distanceKm)
  {
    ByDistanceTotal();
    var all := WithDistances(df, lat, lon, geodesic);
    HeadOfSorted(all, SortBy(all, ByDistance), ByDistance, k);
  }

  /** When `k` covers the table, every row is returned, including rows without coordinates. */
  lemma ProximityReturnsAllRows(df: Table, lat: real, lon: real, k: int, geodesic: Geodesic)
    requires k >= |df.rows|
    ensures multiset(RecommendByProximity(df, lat, lon, k, geodesic))
            == multiset(WithDistances(df, lat, lon, geodesic))
  {
    ByDistanceTotal();
    var sorted := SortBy(WithDistances(df, lat, lon, geodesic), ByDistance);
    assert RecommendByProximity(df, lat, lon, k, geodesic) == sorted;
  }

  predicate IsFinite(x: Ranked) {
    x.distanceKm.Finite?
  }

  /** The number of input rows with a finite distance. */
  function FiniteCount(df: Table, lat: real, lon: real, geodesic: Geodesic): nat {
    CountIf(WithDistances(df, lat, lon, geodesic), IsFinite)
  }

  /** In a sequence sorted by distance the finite distances form a prefix. */
  lemma {:induction false} FinitePrefix(s: seq<Ranked>)
    requires SortedBy(s, ByDistance)
    ensures forall i :: 0 <= i < |s| ==> (IsFinite(s[i]) <==> i < CountIf(s, IsFinite))
  {
    if s != [] {
      FinitePrefix(s[1..]);
      if !IsFinite(s[0]) {
        forall i | 0 <= i < |s| ensures !IsFinite(s[i]) {
          if i > 0 {
            assert ByDistance(s[0], s[i]);
          }
        }
        ZeroCount(s);
      } else {
        forall i | 0 <= i < |s| ensures IsFinite(s[i]) <==> i < CountIf(s, IsFinite) {
          if i > 0 {
            assert s[1..][i - 1] == s[i];
          }
        }
      }
    }
  }

  lemma {:induction false} ZeroCount(s: seq<Ranked>)
    requires forall i :: 0 <= i < |s| ==> !IsFinite(s[i])
    ensures CountIf(s, IsFinite) == 0
  {
    if s != [] {
      ZeroCount(s[1..]);
    }
  }

  /** Rows at infinite distance rank after every row at a finite distance, yet they are still
      returned: position `i` of the result holds a finite distance exactly when fewer than
      `FiniteCount` rows precede it, so once `k` exceeds the number of finite rows the
      remaining places are filled with rows at infinity. */
  lemma ProximityInfinityLast(df: Table, lat: real, lon: real, k: int, geodesic: Geodesic)
    ensures var r := RecommendByProximity(df, lat, lon, k, geodesic);
      forall i :: 0 <= i < |r| ==> (r[i].distanceKm.Finite? <==> i < FiniteCount(df, lat, lon, geodesic))
  {
    ByDistanceTotal();
    var all := WithDistances(df, lat, lon, geodesic);
    var sorted := SortBy(all, ByDistance);
    FinitePrefix(sorted);
    CountIfPermutation(sorted, all, IsFinite);
    var r := RecommendByProximity(df, lat, lon, k, geodesic);
    assert r == Head(sorted, k);
    forall i | 0 <= i < |r| ensures r[i] == sorted[i] { }
  }

  /** With a geodesic that never reports a negative length, every finite distance is >= 0. */
  lemma ProximityDistancesNonNegative(df: Table, lat: real, lon: real, k: int, geodesic: Geodesic)
    requires forall a, b, u, v :: geodesic(a, b, u, v).Some? ==> geodesic(a, b, u, v).value >= 0.0
    ensures forall x :: x in RecommendByProximity(df, lat, lon, k, geodesic) && x.distanceKm.Finite?
              ==> x.distanceKm.km >= 0.0
  {
    ProximityRowsAreInputRows(df, lat, lon, k, geodesic);
  }

  // ===========================================================================
  // recommend_similar
  // ===========================================================================

  /** The weight of one metre of elevation difference in the score. */
  const ElevationWeight: real := 0.001

  /** A row of the similarity result: the original row plus `type_score`, `elev_diff` and
      `score`. */
  datatype Scored = Scored(row: Row, typeScore: int, elevDiff: real, score: real)

  function Abs(x: real): real {
    if x < 0.0 then -x else x
  }

  /** Scores `row` against `base`: 1 for an equal `type` (NaN equals nothing), minus 0.001 per
      metre of elevation difference, a NaN elevation on either side read as 0. */
  function ScoreRow(columns: seq<string>, row: Row, base: Row): Scored {
    var typeScore := if PyEq(Get(columns, row, "type"), Get(columns, base, "type")) then 1 else 0;
    var elevDiff := Abs(ToReal(Get(columns, row, "elevation_m")) - ToReal(Get(columns, base, "elevation_m")));
    Scored(row, typeScore, elevDiff, typeScore as real - ElevationWeight * elevDiff)
  }

  function ScoreAll(df: Table, base: Row): (r: seq<Scored>)
    ensures |r| == |df.rows|
    ensures forall i :: 0 <= i < |r| ==> r[i] == ScoreRow(df.columns, df.rows[i], base)
  {
    seq(|df.rows|, i requires 0 <= i < |df.rows| => ScoreRow(df.columns, df.rows[i], base))
  }

  /** The `sort_values('score', ascending=False)` order. */
  predicate ByScoreDescending(a: Scored, b: Scored) {
    a.score >= b.score
  }

  lemma ByScoreDescendingTotal()
    ensures TotalPreorder(ByScoreDescending)
  {
  }

  /** The base fort: the first row whose `fort_id` equals the requested id. */
  function BaseIndex(df: Table, fortId: int): Option<nat> {
    FirstMatch(df, "fort_id", Int(fortId))
  }

  /** What `recommend_similar` needs of the table: a `fort_id` column, and once a base row is
      found, `type` and `elevation_m` columns with a numeric elevation (else pandas raises). */
  predicate SimilarReady(df: Table, fortId: int) {
    WellFormed(df) && "fort_id" in df.columns &&
    (BaseIndex(df, fortId).Some? ==>
       "type" in df.columns && "elevation_m" in df.columns && NumericColumn(df, "elevation_m"))
  }

  /** Scores every row against `base`, sorts by descending score and takes the head. */
  function RankSimilar(df: Table, base: Row, k: int): (r: seq<Scored>)
    ensures k >= 0 ==> |r| == Min(k, |df.rows|)
    ensures forall i, j :: 0 <= i < j < |r| ==> r[i].score >= r[j].score
    ensures multiset(r) <= multiset(ScoreAll(df, base))
  {
    ByScoreDescendingTotal();
    var sorted := SortBy(ScoreAll(df, base), ByScoreDescending);
    assert multiset(Head(sorted, k)) <= multiset(sorted) by {
      assert sorted == Head(sorted, k) + sorted[|Head(sorted, k)|..];
    }
    Head(sorted, k)
  }

  /** `recommend_similar(df, fort_id, k=5)`: an empty table for an unknown id; otherwise up to `k`
      rows (exactly `min(k, len(df))` for `k >= 0`) in non-increasing score, each an input row
      scored against the first row with that id. The base fort itself is not excluded. */
  function RecommendSimilar(df: Table, fortId: int, k: int := 5): (r: seq<Scored>)
    requires SimilarReady(df, fortId)
    ensures BaseIndex(df, fortId).None? ==> r == []
    ensures BaseIndex(df, fortId).Some? ==> r == RankSimilar(df, df.rows[BaseIndex(df, fortId).value], k)
  {
    match BaseIndex(df, fortId)
    case None => []
    case Some(b) => RankSimilar(df, df.rows[b], k)
  }

  /** The parts of a score: `type_score` is 1 exactly when the types are equal (and present),
      `elev_diff` is a non-negative distance, and the score never exceeds 1. */
  lemma ScoreBounds(columns: seq<string>, row: Row, base: Row)
    ensures var s := ScoreRow(columns, row, base);
      (s.typeScore == 1 <==> PyEq(Get(columns, row, "type"), Get(columns, base, "type")))
      && (s.typeScore == 0 <==> !PyEq(Get(columns, row, "type"), Get(columns, base, "type")))
      && s.elevDiff >= 0.0
      && s.score <= 1.0
      && s.score == s.typeScore as real - ElevationWeight * s.elevDiff
      && s.row == row
  {
  }

  /** The base fort scored against itself gets exactly 1 when its type is present (NaN would
      not equal itself). */
  lemma BaseScoresOne(columns: seq<string>, base: Row)
    ensures ScoreRow(columns, base, base).score == 1.0 <==> !Get(columns, base, "type").Missing?
  {
  }

  /** Elevation cannot outweigh the type: a same-type row within 1000 m scores above 0, a
      different-type row scores at most 0. */
  lemma TypeDominates(columns: seq<string>, row: Row, other: Row, base: Row)
    requires ScoreRow(columns, row, base).typeScore == 1 && ScoreRow(columns, row, base).elevDiff < 1000.0
    requires ScoreRow(columns, other, base).typeScore == 0
    ensures ScoreRow(columns, row, base).score > 0.0 >= ScoreRow(columns, other, base).score
  {
  }

  /** The result is a best `k`: every scored row left out scores no higher than every row
      returned. */
  lemma SimilarTopK(df: Table, fortId: int, k: int)
    requires SimilarReady(df, fortId) && BaseIndex(df, fortId).Some?
    ensures var all := ScoreAll(df, df.rows[BaseIndex(df, fortId).value]);
      forall x, y ::
        (x in multiset(all) - multiset(RecommendSimilar(df, fortId, k)) && y in RecommendSimilar(df, fortId, k))
        ==> y.score >= x.score
  {
    ByScoreDescendingTotal();
    var all := ScoreAll(df, df.rows[BaseIndex(df, fortId).value]);
    HeadOfSorted(all, SortBy(all, ByScoreDescending), ByScoreDescending, k);
    assert RecommendSimilar(df, fortId, k) == Head(SortBy(all, ByScoreDescending), k);
  }

  /** The query fort is not excluded: with `k >= 1` and its type present, the top result scores
      exactly 1, the largest score possible. */
  lemma SimilarTopScoresOne(df: Table, fortId: int, k: int)
    requires SimilarReady(df, fortId) && BaseIndex(df, fortId).Some? && k >= 1
    requires !Get(df.columns, df.rows[BaseIndex(df, fortId).value], "type").Missing?
    ensures |RecommendSimilar(df, fortId, k)| >= 1
    ensures RecommendSimilar(df, fortId, k)[0].score == 1.0
  {
    var b := BaseIndex(df, fortId).value;
    var base := df.rows[b];
    var all := ScoreAll(df, base);
    var r := RecommendSimilar(df, fortId, k);
    var self := all[b];
    BaseScoresOne(df.columns, base);
    assert self.score == 1.0;
    assert r[0] in multiset(all) by {
      assert r[0] in multiset(r);
    }
    var i :| 0 <= i < |all| && all[i] == r[0];
    ScoreBounds(df.columns, df.rows[i], base);
    if multiset(r)[self] < multiset(all)[self] {
      SimilarTopK(df, fortId, k);
      assert self in multiset(all) - multiset(r);
    } else {
      assert self in multiset(all);
      assert self in r;
      var j :| 0 <= j < |r| && r[j] == self;
      assert j == 0 || r[0].score >= r[j].score;
    }
  }

  /** Every scored row obeys the score formula with a 0/1 type score and a non-negative
      elevation difference. */
  lemma ScoredRowFacts(df: Table, base: Row, x: Scored)
    requires x in multiset(ScoreAll(df, base))
    ensures x.typeScore == 0 || x.typeScore == 1
    ensures x.elevDiff >= 0.0
    ensures x.score == x.typeScore as real - ElevationWeight * x.elevDiff
  {
    var all := ScoreAll(df, base);
    var a :| 0 <= a < |all| && all[a] == x;
    ScoreBounds(df.columns, df.rows[a], base);
  }

  lemma RankSameTypeFirst(df: Table, base: Row, k: int)
    ensures var r := RankSimilar(df, base, k);
      forall i, j ::
        (0 <= i < |r| && 0 <= j < |r| && r[i].typeScore == 1 && r[i].elevDiff < 1000.0 && r[j].typeScore == 0)
        ==> i < j
  {
    var r := RankSimilar(df, base, k);
    forall i, j | 0 <= i < |r| && 0 <= j < |r| && r[i].typeScore == 1 && r[i].elevDiff < 1000.0
                  && r[j].typeScore == 0
      ensures i < j
    {
      assert r[i] in multiset(r) && r[j] in multiset(r);
      ScoredOutranks(df, base, r[i], r[j]);
      HigherScoreFirst(r, i, j);
    }
  }

  /** In a sequence of non-increasing score, a strictly higher score sits earlier. */
  lemma HigherScoreFirst(r: seq<Scored>, i: int, j: int)
    requires forall a, b :: 0 <= a < b < |r| ==> r[a].score >= r[b].score
    requires 0 <= i < |r| && 0 <= j < |r| && r[i].score > r[j].score
    ensures i < j
  {
  }

  /** Among scored rows, a same-type row within 1000 m scores strictly above a different-type
      row. */
  lemma ScoredOutranks(df: Table, base: Row, x: Scored, y: Scored)
    requires x in multiset(ScoreAll(df, base)) && y in multiset(ScoreAll(df, base))
    requires x.typeScore == 1 && x.elevDiff < 1000.0 && y.typeScore == 0
    ensures x.score > y.score
  {
    ScoredRowFacts(df, base, x);
    ScoredRowFacts(df, base, y);
  }

  /** Within the result, every same-type row whose elevation is within 1000 m of the base ranks
      ahead of every different-type row. */
  lemma SimilarSameTypeFirst(df: Table, fortId: int, k: int)
    requires SimilarReady(df, fortId) && BaseIndex(df, fortId).Some?
    ensures var r := RecommendSimilar(df, fortId, k);
      forall i, j ::
        (0 <= i < |r| && 0 <= j < |r| && r[i].typeScore == 1 && r[i].elevDiff < 1000.0 && r[j].typeScore == 0)
        ==> i < j
  {
    RankSameTypeFirst(df, df.rows[BaseIndex(df, fortId).value], k);
  }

  lemma RankSameTypeNotDisplaced(df: Table, base: Row, k: int)
    ensures var all := ScoreAll(df, base);
      var r := RankSimilar(df, base, k);
      forall x, y ::
        (x in multiset(all) - multiset(r) && x.typeScore == 1 && x.elevDiff < 1000.0 && y in r)
        ==> y.typeScore == 1
  {
    ByScoreDescendingTotal();
    var all := ScoreAll(df, base);
    var r := RankSimilar(df, base, k);
    HeadOfSorted(all, SortBy(all, ByScoreDescending), ByScoreDescending, k);
    forall x: Scored, y: Scored | x in multiset(all) - multiset(r) && x.typeScore == 1 && x.elevDiff < 1000.0 && y in r
      ensures y.typeScore == 1
    {
      assert ByScoreDescending(y, x);
      ScoredRowFacts(df, base, x);
      assert y in multiset(r);
      ScoredRowFacts(df, base, y);
    }
  }

  /** A different-type row is returned only if no same-type row within 1000 m was left out. */
  lemma SimilarSameTypeNotDisplaced(df: Table, fortId: int, k: int)
    requires SimilarReady(df, fortId) && BaseIndex(df, fortId).Some?
    ensures var all := ScoreAll(df, df.rows[BaseIndex(df, fortId).value]);
      var r := RecommendSimilar(df, fortId, k);
      forall x, y ::
        (x in multiset(all) - multiset(r) && x.typeScore == 1 && x.elevDiff < 1000.0 && y in r)
        ==> y.typeScore == 1
  {
    RankSameTypeNotDisplaced(df, df.rows[BaseIndex(df, fortId).value], k);
  }
}
