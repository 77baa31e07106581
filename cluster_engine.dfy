/** `GeoCluster` of src/core/cluster_engine.py: KMeans clustering of the forts' coordinates
    with a fallback to a single cluster when there are too few usable points. KMeans itself
    (fitting and `predict`) is library numerics and enters as the parameter `predict`. */
module ClusterEngine {
  import opened Wrappers
  import opened Frame
  import opened Sequences

  datatype Point = Point(lat: real, lon: real)

  /** A fitted `KMeans(n_clusters, random_state)` and the points it was fitted on. */
  datatype KMeansModel = KMeansModel(nClusters: int, randomState: int, trainedOn: seq<Point>)

  /** `model.predict` for one point: the label KMeans gives it. */
  type Labeller = (KMeansModel, Point) -> int

  /** `predict` without a fitted model raises `RuntimeError`. */
  datatype ClusterError = NotFitted

  const DefaultClusters: int := 8
  const DefaultRandomState: int := 42

  function Max(a: int, b: int): int {
    if a >= b then a else b
  }

  /** A row survives `df[['latitude', 'longitude']].dropna()`: both coordinates present. */
  predicate HasCoords(columns: seq<string>, row: Row) {
    Get(columns, row, "latitude") != Missing && Get(columns, row, "longitude") != Missing
  }

  /** The row's coordinates after `fillna(0)`: a missing coordinate reads as 0. */
  function FilledPoint(columns: seq<string>, row: Row): (p: Point)
    ensures Get(columns, row, "latitude").Missing? ==> p.lat == 0.0
    ensures Get(columns, row, "longitude").Missing? ==> p.lon == 0.0
  {
    Point(ToReal(Get(columns, row, "latitude")), ToReal(Get(columns, row, "longitude")))
  }

  /** The `dropna()` mask. */
  function Usable(columns: seq<string>): Row -> bool {
    row => HasCoords(columns, row)
  }

  /** The rows that survive `dropna()`, in table order. */
  function UsableRows(t: Table): seq<Row> {
    Filter(t.rows, Usable(t.columns))
  }

  /** `coords`: the points KMeans is fitted on. */
  function UsablePoints(t: Table): (ps: seq<Point>)
    ensures |ps| == |UsableRows(t)|
  {
    var u := UsableRows(t);
    seq(|u|, i requires 0 <= i < |u| => FilledPoint(t.columns, u[i]))
  }

  /** The usable points are exactly the rows with both coordinates present, in table order;
      there are as many as such rows. */
  lemma UsableRowsSpec(t: Table)
    ensures IsSubsequence(UsableRows(t), t.rows)
    ensures forall row :: row in UsableRows(t) <==> row in t.rows && HasCoords(t.columns, row)
    ensures |UsablePoints(t)| == CountIf(t.rows, Usable(t.columns)) <= |t.rows|
  {
    FilterSpec(t.rows, Usable(t.columns));
    CountIfFilter(t.rows, Usable(t.columns));
    forall row ensures row in UsableRows(t) <==> row in t.rows && HasCoords(t.columns, row) {
      var p := Usable(t.columns);
      assert p(row) == HasCoords(t.columns, row);
      if row in UsableRows(t) {
        assert row in Filter(t.rows, p);
        assert p(row);
      }
    }
  }

  /** The model `fit` leaves behind: none when there are fewer usable points than
      `max(1, n_clusters)`, otherwise a KMeans fitted on the usable points. */
  function FittedModel(t: Table, nClusters: int, randomState: int): (m: Option<KMeansModel>)
  {
    var points := UsablePoints(t);
    if |points| < Max(1, nClusters) then None
    else Some(KMeansModel(nClusters, randomState, points))
  }

  /** The `cluster` column `fit` writes: 0 everywhere without a model, otherwise the model's
      label for each row's filled coordinates. */
  function ClusterLabels(t: Table, m: Option<KMeansModel>, predict: Labeller): (labels: seq<Value>)
    ensures |labels| == |t.rows|
  {
    match m
    case None => seq(|t.rows|, i => Int(0))
    case Some(model) =>
      seq(|t.rows|, i requires 0 <= i < |t.rows| => Int(predict(model, FilledPoint(t.columns, t.rows[i]))))
  }

  /** The copy `fit` returns: the input with the `cluster` column set. */
  function Clustered(t: Table, m: Option<KMeansModel>, predict: Labeller): (r: Table)
    requires WellFormed(t)
  {
    SetColumn(t, "cluster", ClusterLabels(t, m, predict))
  }

  /** The fallback rule: there is no model exactly when there are fewer usable points than
      `max(1, n_clusters)`; a model is fitted on the usable points with the engine's
      parameters. */
  lemma FittedModelSpec(t: Table, nClusters: int, randomState: int)
    ensures FittedModel(t, nClusters, randomState).None?
            <==> CountIf(t.rows, Usable(t.columns)) < Max(1, nClusters)
    ensures FittedModel(t, nClusters, randomState).Some? ==>
              FittedModel(t, nClusters, randomState).value.trainedOn == UsablePoints(t)
              && FittedModel(t, nClusters, randomState).value.nClusters == nClusters
              && FittedModel(t, nClusters, randomState).value.randomState == randomState
    ensures FittedModel(t, nClusters, randomState).Some? ==> 1 <= CountIf(t.rows, Usable(t.columns)) && nClusters <= CountIf(t.rows, Usable(t.columns)) <= |t.rows|
  {
    UsableRowsSpec(t);
  }

  /** The copy `fit` returns keeps every row and every column, and adds (or overwrites)
      `cluster`; without a model every row is in cluster 0, with one each row carries the
      model's label for its coordinates, a missing coordinate read as 0. */
  lemma ClusteredSpec(t: Table, m: Option<KMeansModel>, predict: Labeller)
    requires WellFormed(t)
    ensures var r := Clustered(t, m, predict);
      WellFormed(r) && |r.rows| == |t.rows|
      && r.columns == (if "cluster" in t.columns then t.columns else t.columns + ["cluster"])
      && (forall c, i :: c != "cluster" && 0 <= i < |r.rows| ==>
            Get(r.columns, r.rows[i], c) == Get(t.columns, t.rows[i], c))
      && (m.None? ==> forall i :: 0 <= i < |r.rows| ==> Get(r.columns, r.rows[i], "cluster") == Int(0))
      && (m.Some? ==> forall i :: 0 <= i < |r.rows| ==>
            Get(r.columns, r.rows[i], "cluster") == Int(predict(m.value, FilledPoint(t.columns, t.rows[i]))))
  {
  }

  /** A labeller that keeps every fitted model's labels in `0 .. n_clusters - 1` gives every
      row a cluster in `0 .. n_clusters - 1`, the fallback cluster 0 included. */
  lemma ClusteredLabelsInRange(t: Table, nClusters: int, randomState: int, predict: Labeller)
    requires WellFormed(t) && nClusters >= 1
    requires forall m: KMeansModel, p: Point :: m.nClusters >= 1 ==> 0 <= predict(m, p) < m.nClusters
    ensures var r := Clustered(t, FittedModel(t, nClusters, randomState), predict);
      forall i :: 0 <= i < |r.rows| ==>
        Get(r.columns, r.rows[i], "cluster").Int?
        && 0 <= Get(r.columns, r.rows[i], "cluster").i < nClusters
  {
    var m := FittedModel(t, nClusters, randomState);
    var r := Clustered(t, m, predict);
    forall i | 0 <= i < |r.rows|
      ensures Get(r.columns, r.rows[i], "cluster").Int?
      ensures 0 <= Get(r.columns, r.rows[i], "cluster").i < nClusters
    {
      if m.Some? {
        assert m.value.nClusters == nClusters;
        assert Get(r.columns, r.rows[i], "cluster") == Int(predict(m.value, FilledPoint(t.columns, t.rows[i])));
      }
    }
  }

  class GeoCluster {
    const nClusters: int
    const randomState: int
    var model: Option<KMeansModel>

    /** `GeoCluster(n_clusters=8, random_state=42)`: no model yet. */
    constructor (nClusters: int := DefaultClusters, randomState: int := DefaultRandomState)
      ensures this.nClusters == nClusters && this.randomState == randomState
      ensures model == None
    {
      this.nClusters := nClusters;
      this.randomState := randomState;
      model := None;
    }

    /** `fit(df)`: replaces the model (resetting it to none on the fallback path, even after an
        earlier successful fit) and returns a copy of `df` with the `cluster` column. KMeans
        rejects `n_clusters < 1`, which only matters when there are usable points. */
    method Fit(df: Table, predict: Labeller) returns (r: Table)
      requires WellFormed(df)
      requires "latitude" in df.columns && "longitude" in df.columns
      requires NumericColumn(df, "latitude") && NumericColumn(df, "longitude")
      requires nClusters >= 1 || |UsablePoints(df)| == 0
      modifies this`model
      ensures model == FittedModel(df, nClusters, randomState)
      ensures r == Clustered(df, model, predict)
    {
      var coords := UsablePoints(df);
      if |coords| < Max(1, nClusters) {
        model := None;
        r := SetColumn(df, "cluster", seq(|df.rows|, i => Int(0)));
        return;
      }
      var fitted := KMeansModel(nClusters, randomState, coords);
      model := Some(fitted);
      var labels := seq(|df.rows|, i requires 0 <= i < |df.rows| =>
                          Int(predict(fitted, FilledPoint(df.columns, df.rows[i]))));
      r := SetColumn(df, "cluster", labels);
    }

    /** `predict(lat, lon)`: `RuntimeError` without a model, otherwise the model's label. */
    method Predict(lat: real, lon: real, predict: Labeller) returns (r: Result<int, ClusterError>)
      ensures r.Err? <==> model.None?
      ensures r.Err? ==> r.error == NotFitted
      ensures model.Some? ==> r == Ok(predict(model.value, Point(lat, lon)))
    {
      if model.None? {
        return Err(NotFitted);
      }
      r := Ok(predict(model.value, Point(lat, lon)));
    }
  }

  /** `GeoCluster()` without arguments: 8 clusters, random state 42, no model. */
  method NewDefaultGeoCluster() returns (g: GeoCluster)
    ensures fresh(g)
    ensures g.nClusters == 8 && g.randomState == 42 && g.model == None
  {
    g := new GeoCluster();
  }

  /** A fit that falls back discards the model of an earlier successful fit: `predict` fails
      afterwards. */
  method RefitThenPredict(g: GeoCluster, big: Table, small: Table, predict: Labeller, lat: real, lon: real)
    returns (r: Result<int, ClusterError>)
    requires g.nClusters >= 1
    requires WellFormed(big) && WellFormed(small)
    requires "latitude" in big.columns && "longitude" in big.columns
    requires "latitude" in small.columns && "longitude" in small.columns
    requires NumericColumn(big, "latitude") && NumericColumn(big, "longitude")
    requires NumericColumn(small, "latitude") && NumericColumn(small, "longitude")
    requires |UsablePoints(big)| >= g.nClusters && |UsablePoints(small)| < g.nClusters
    modifies g
    ensures r == Err(NotFitted)
  {
    var first := g.Fit(big, predict);
    assert g.model.Some?;
    var second := g.Fit(small, predict);
    r := g.Predict(lat, lon, predict);
  }
}
