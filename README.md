# Pride of Sahyadri: fort catalog, recommenders, clustering and retrieval

A Dafny model of the computational core of the Pride-of-Sahyadri fort explorer. This is a
FastAPI service with a Dash front end over a table of Maharashtra forts. The modelled parts:

- **Recommenders** (`recommender.dfy`, module `Recommender`). `recommend_by_proximity` ranks the
  forts by geodesic distance from a point, giving a row without coordinates an infinite
  distance. `recommend_similar` scores every fort against a base fort as
  `type match − 0.001·|elevation difference|` and ranks by that score.
- **Catalog endpoints** (`forts_router.dfy`, module `FortsRouter`). `GET /forts` is a text
  filter, then a district filter, then a limit. `GET /forts/{id}` finds the first row with
  that id, or fails with 404.
- **Geographic clustering** (`cluster_engine.dfy`, module `ClusterEngine`). `GeoCluster` is a
  class whose `model` field `fit` replaces. `fit` falls back to a single cluster 0 and no model
  when there are too few usable coordinates. `predict` fails without a model.
- **Retrieval engine** (`rag_engine.dfy`, module `RagEngine`). `RAGEngine` is a class holding
  the table, the corpus (one `" | "`-joined text per row) and the embedding index. It enforces
  the call order: load the data, build the index, query it. A query returns the top-k rows.
- **Loading** (`data_loader.dfy`, module `DataLoader`). `load_forts` resolves the path and
  normalises the header to stripped lower case. It converts `fort_id` to integers, fills the
  listed text columns with `""` and coerces the listed numeric columns.
- **Model preprocessing** (`preprocess.dfy` and `label_encoder.dfy`, modules `Preprocess` and
  `LabelEncoding`). `preprocess_for_model` label-encodes five categorical columns: missing
  values become `'Unknown'`, every value becomes a string, and a `{col}_le` code column is
  added. It also fills missing numeric values with the column median.

The supporting modules are:

- `Frame`: a pandas DataFrame as a value, with cells `Missing | Text | Int | Num(real)`.
- `Sequences`: boolean masks, `head`, and a sort by a total preorder.
- `Strings`: lower/strip, substring, join/split, and Python's string order.
- `Wrappers`: `Option` and `Result`.

pandas frames are values, so "the input is not mutated" holds by construction. Each operation
returns a new table. Where the source mutates an object, the object is a class:

- `GeoCluster.model` is a field.
- `RAGEngine.df`, `RAGEngine.corpus` and `RAGEngine.embeddings` are fields.

Where the source loops over columns or rows, the model is a method with a loop. Each loop is
proved against a specification function:

- `LoadData` appends corpus entries.
- `ApplyToColumns` covers the two column loops of `load_forts`.
- `EncodeCategoricals` and `FillNumerics` cover the two loops of `preprocess_for_model`.

Library numerics enter as parameters:

- geopy's `geodesic` returns `Option<real>`, where `None` means geopy raised.
- KMeans labelling maps a model and a point to a label.
- SentenceTransformer encoding, cosine similarity and Python's float formatting are constants of
  the `RAGEngine` object.
- The file system is a map from path to the table `read_csv` would produce.
- `int(str)` and `pd.to_numeric` on text are parsing functions.

Floats are modelled as `real`.

### Behaviour worth knowing

- `recommend_by_proximity` returns rows with missing coordinates when `k` exceeds the number of
  rows with a finite distance. They come last, with distance infinity
  (`Recommender.ProximityInfinityLast`).
- `recommend_similar` does not exclude the query fort. With its type present, the query fort
  scores exactly 1, the largest possible score, so the first result scores 1
  (`Recommender.SimilarTopScoresOne`).
- An unknown id in `recommend_similar` gives an empty result, not an error.
- Neither ranking breaks ties. The order among equal keys is left open: every property proved
  holds for any order of ties.
- Clustering uses latitude and longitude only. A missing coordinate is read as 0 for
  labelling. The fallback threshold is `max(1, n_clusters)` usable points.
- Loading fills missing text with `""` only in the eight listed text columns.
- Python's default arguments are Dafny default-valued formals: `list_forts` `limit=10`,
  `recommend_by_proximity` `k=10`, `recommend_similar` `k=5`, `query` `k=5`, and
  `GeoCluster(n_clusters=8, random_state=42)`.

## Model

| member | source | states |
|---|---|---|
| `Recommender.ComputeDistance` | src/core/recommender.py:19-25 | The distance is infinite exactly when a coordinate column is absent, a coordinate is NaN, or geodesic raises; otherwise it is geodesic's value in km |
| `Recommender.WithDistances` | src/core/recommender.py:27 | One entry per input row, in row order, each row carrying the distance `compute_distance` gives it |
| `Recommender.RecommendByProximity` | src/core/recommender.py:27-28 | Exactly `min(k, len(df))` results for `k >= 0`, in non-decreasing `distance_km`, drawn (with multiplicity) from the input rows paired with their distances |
| `Recommender.ProximityRowsAreInputRows` | src/core/recommender.py:17-27 | Every result is an original row, with all its columns, carrying the distance computed for that row |
| `Recommender.ProximityTopK` | src/core/recommender.py:28 | No row left out is strictly nearer than any row returned |
| `Recommender.ProximityReturnsAllRows` | src/core/recommender.py:28 | When `k` covers the table, every row is returned, including rows without coordinates |
| `Recommender.ProximityInfinityLast` | src/core/recommender.py:19-28 | Result position `i` has a finite distance iff `i` is below the number of finite-distance rows: infinite rows rank after all finite ones yet still fill the remaining places |
| `Recommender.ProximityDistancesNonNegative` | src/core/recommender.py:23 | With a geodesic that returns no negative length, every finite returned distance is at least 0 |
| `Recommender.ScoreBounds` | src/core/recommender.py:54-61 | `type_score` is 1 iff the types are equal (NaN equals nothing) and 0 otherwise, `elev_diff >= 0`, `score = type_score − 0.001·elev_diff <= 1` |
| `Recommender.BaseScoresOne` | src/core/recommender.py:54-61 | The base fort scored against itself gets exactly 1 iff its type is present |
| `Recommender.TypeDominates` | src/core/recommender.py:54-61 | A same-type row within 1000 m scores above 0, and a different-type row scores at most 0 |
| `Recommender.RankSimilar` | src/core/recommender.py:51-63 | Exactly `min(k, len(df))` scored rows for `k >= 0`, in non-increasing score, drawn from the table's rows scored against the base |
| `Recommender.RecommendSimilar` | src/core/recommender.py:46-50 | An id no `fort_id` equals gives an empty result; otherwise the base is the first row whose `fort_id` equals the id |
| `Recommender.SimilarTopK` | src/core/recommender.py:63 | Every scored row left out scores no higher than any row returned |
| `Recommender.SimilarTopScoresOne` | src/core/recommender.py:54-63 | For `k >= 1` and a base with a type, the result is non-empty and its first row scores exactly 1: the query fort is not excluded |
| `Recommender.SimilarSameTypeFirst` | src/core/recommender.py:54-63 | In the result, a same-type row within 1000 m of the base comes before every different-type row |
| `Recommender.SimilarSameTypeNotDisplaced` | src/core/recommender.py:54-63 | A different-type row is returned only if no same-type row within 1000 m was left out |
| `Frame.FirstMatch` | src/api/routers/forts.py:40-43 | The index found is the first row whose column equals the key under pandas `==`; none is found iff no row's column equals the key |
| `FortsRouter.ListFortsIsHeadOfSelection` | src/api/routers/forts.py:19-33 | The response is exactly the first `limit` rows of the catalog that pass every given filter (text mask and district mask in sequence equal their conjunction) |
| `FortsRouter.ListForts` | src/api/routers/forts.py:10-34 | The response is a subsequence of the catalog in catalog order; every row passes the given filters (lower-cased `q` in lower-cased name, notes or key_events, missing text never matching; district equal ignoring case); for `limit >= 0` its length is `min(limit, number of passing rows)` |
| `FortsRouter.ListFortsNoFilter` | src/api/routers/forts.py:11-33 | An absent or empty `q` and `district` apply no filter: the response is the catalog's first `limit` rows, the first 10 when no argument is given |
| `FortsRouter.GetFort` | src/api/routers/forts.py:37-44 | 404 "Fort not found" iff no row's `fort_id` equals the id; otherwise the first row whose `fort_id` equals it |
| `FortsRouter.GetFortFindsFirst` | src/api/routers/forts.py:40-43 | A row whose `fort_id` holds the id, with no earlier match, is the one returned |
| `ClusterEngine.GeoCluster.constructor` | src/core/cluster_engine.py:13-16 | A new engine keeps the given `n_clusters` and `random_state` and has no model |
| `ClusterEngine.NewDefaultGeoCluster` | src/core/cluster_engine.py:13-16 | `GeoCluster()` without arguments has 8 clusters, random state 42 and no model |
| `ClusterEngine.FilledPoint` | src/core/cluster_engine.py:41 | A missing coordinate is read as 0 for labelling |
| `ClusterEngine.UsableRowsSpec` | src/core/cluster_engine.py:27 | The usable points are exactly the rows with both coordinates present, in table order, one per such row |
| `ClusterEngine.FittedModelSpec` | src/core/cluster_engine.py:30-38 | There is no model iff fewer than `max(1, n_clusters)` rows are usable; a model is fitted on the usable points with the engine's parameters |
| `ClusterEngine.ClusteredSpec` | src/core/cluster_engine.py:31-46 | The returned copy keeps every row and column and adds `cluster`: 0 for every row without a model, otherwise the model's label for the row's filled coordinates |
| `ClusterEngine.ClusteredLabelsInRange` | src/core/cluster_engine.py:30-45 | For `n_clusters >= 1` and a labeller that keeps each fitted model's labels in `0 .. n_clusters−1`, every row's cluster lies in `0 .. n_clusters−1`, fallback included |
| `ClusterEngine.GeoCluster.Fit` | src/core/cluster_engine.py:18-46 | The new model is the fitted model, or none on the fallback path even after an earlier fit; the result is the input with the `cluster` column |
| `ClusterEngine.GeoCluster.Predict` | src/core/cluster_engine.py:48-63 | Fails with `RuntimeError` iff there is no model, otherwise returns the model's label for `(lat, lon)` |
| `ClusterEngine.RefitThenPredict` | src/core/cluster_engine.py:30-59 | After a successful fit followed by a fallback fit, `predict` fails |
| `RagEngine.CorpusEntryFields` | src/core/rag_engine.py:23-32 | An entry is the ten fields in order joined by the bar separator, an absent column contributing "": splitting it on that separator gives them back when no field contains a bar |
| `Strings.SplitJoin` | src/core/rag_engine.py:32 | Joining fields that contain no bar with the bar separator (space, bar, space) is undone by splitting on it |
| `RagEngine.TopIndices` | src/core/rag_engine.py:70 | `torch.topk` selects `k` distinct positions of the scores |
| `RagEngine.TopIndicesRanked` | src/core/rag_engine.py:70 | The selected positions are in non-increasing score order, and no position left out scores higher than a selected one |
| `RagEngine.RAGEngine.constructor` | src/core/rag_engine.py:6-10 | A new engine has no table, an empty corpus and no index |
| `RagEngine.RAGEngine.LoadData` | src/core/rag_engine.py:15-37 | Replaces the table and rebuilds the corpus with one entry per row, in row order; keeps any earlier index unchanged; returns the engine |
| `RagEngine.RAGEngine.BuildIndex` | src/core/rag_engine.py:42-49 | `ValueError` iff the corpus is empty, the index then unchanged; otherwise one embedding per corpus entry, and returns the engine |
| `RagEngine.RAGEngine.Query` | src/core/rag_engine.py:54-74 | `ValueError` iff there is no index; `k` out of range fails; a success returns exactly `k` original rows, those at the top-k score positions |
| `RagEngine.RAGEngine.QueryRanking` | src/core/rag_engine.py:69-73 | The rows of a successful query are in non-increasing similarity, and no position left out is more similar than one returned |
| `RagEngine.RAGEngine.QueryOnFreshIndex` | src/core/rag_engine.py:62-73 | With an index built on the loaded table, every query with `0 <= k <= len(df)` succeeds |
| `RagEngine.LoadIndexQuery` | src/core/rag_engine.py:15-74 | Load a non-empty table, build the index, query: the query succeeds with `k` rows |
| `DataLoader.ResolvePath` | src/core/data_loader.py:25 | No path or the empty path resolves to the default data file; any other path to itself |
| `DataLoader.LoadMissingFile` | src/core/data_loader.py:25-27 | The load fails with `FileNotFoundError` for the resolved path iff no file exists there |
| `Strings.StripSpec` | src/core/data_loader.py:32 | `strip` removes exactly the leading and trailing whitespace: a slice of the input, with only whitespace cut off, and no whitespace at either end |
| `Strings.LowerSpec` | src/core/data_loader.py:32 | Lower-casing leaves no upper-case letter, is idempotent, and keeps every other character |
| `DataLoader.NormalizeHeaderSpec` | src/core/data_loader.py:32 | A normalised column name has no upper-case letter and no surrounding whitespace, and normalising it again changes nothing |
| `DataLoader.LoadHeader` | src/core/data_loader.py:29-32 | The loaded header is the file's header with each name stripped and lower-cased; the row count is unchanged |
| `DataLoader.FortIdAsInt` | src/core/data_loader.py:35-37 | The conversion fails iff some cell cannot be converted; otherwise every cell becomes the integer of its value |
| `DataLoader.LoadFortId` | src/core/data_loader.py:34-37 | A present `fort_id` column is converted cell by cell to integers and survives the later passes; an unconvertible cell makes the load fail |
| `DataLoader.MapColumnsSpec` | src/core/data_loader.py:54-62 | A per-column pass changes exactly the listed columns that are present, each to the cell function of its old cells, and skips absent ones |
| `DataLoader.ApplyToColumns` | src/core/data_loader.py:54-62 | The `for col in cols: if col in df.columns` loop computes the per-column pass |
| `DataLoader.FillAndCoerce` | src/core/data_loader.py:43-62 | Listed text columns have NaN replaced by "" and hold no NaN; listed numeric columns hold numbers or NaN (unparseable text becomes NaN); every other cell and the row count are unchanged |
| `DataLoader.LoadColumns` | src/core/data_loader.py:43-62 | After a successful load, no listed text column holds NaN and every listed numeric column is numeric |
| `DataLoader.LoadForts` | src/core/data_loader.py:9-64 | The load, run pass by pass, computes the specified result, including both error paths |
| `LabelEncoding.Unique` | src/core/preprocess.py:34 | `np.unique`: strictly increasing in Python's string order, containing exactly the input's values |
| `LabelEncoding.FitCodes` | src/core/preprocess.py:9-10 | On the fitted values, codes lie below the number of classes; equal codes iff equal strings; a smaller code iff a smaller string |
| `Preprocess.CodeValues` | src/core/preprocess.py:34 | `fit_transform` gives each string the code of its position among the sorted distinct strings |
| `Preprocess.EncodeAllKeys` | src/core/preprocess.py:30-35 | After the categorical loop, `encoders` has a key for exactly the listed columns that are present |
| `Preprocess.EncodeAllCell` | src/core/preprocess.py:30-35 | Each listed present column holds the strings of its original cells, and `{col}_le` their codes under the encoder fitted on exactly those strings |
| `Preprocess.EncodeAllOther` | src/core/preprocess.py:30-35 | A column that is neither listed nor a code column keeps its cells through the categorical loop |
| `Preprocess.EncodeCategoricals` | src/core/preprocess.py:30-35 | The categorical loop computes the specified table and `encoders` |
| `Preprocess.MedianSpec` | src/core/preprocess.py:41 | At least half the values are at most the median and at least half at least it, so it lies between the smallest and the largest value |
| `Preprocess.MedianFilledSpec` | src/core/preprocess.py:41-42 | Present values are unchanged; a missing value becomes the median of the present ones, or stays missing when there are none |
| `Preprocess.FillMediansCell` | src/core/preprocess.py:38-42 | The numeric loop fills missing cells of listed present columns with their median and leaves every other column unchanged |
| `Preprocess.FillNumerics` | src/core/preprocess.py:38-42 | The numeric loop computes the specified table |
| `Preprocess.PreprocessForModel` | src/core/preprocess.py:18-44 | The two loops on a copy compute the specified table and encoders |
| `Preprocess.PreprocessEncoderKeys` | src/core/preprocess.py:22-35 | The keys of `encoders` are exactly the five categorical columns present in the input |
| `Preprocess.PreprocessCategorical` | src/core/preprocess.py:30-35 | In the output, each present categorical column holds its cells as strings, with 'Unknown' for a missing one, and `{col}_le` holds their codes under that column's encoder |
| `Preprocess.PreprocessNumeric` | src/core/preprocess.py:37-42 | Missing `elevation_m`/`trek_time_hours` cells become the median of the column's present cells, present cells are unchanged, and columns in neither list are unchanged |

## Left out

- The Dash UI, the HTTP client, scripts, the router and app wiring, `llm_decoder.py` and `trek_predictor.py` are not part of this model. They contain no logic of the modelled core.
- geopy's geodesic, KMeans fitting and prediction, the SentenceTransformer encoder (model "all-MiniLM-L6-v2"), cosine similarity and Python's float formatting are parameters. Their numerics are library code. Floating-point rounding is not modelled: scores and distances are `real`.
- CSV reading, `Path.exists` and the absolute location of the default data file are not modelled. The file system is a map from path to parsed table, and the default path is its relative name.
- The `print` calls in `RAGEngine` are not modelled. They are console output only.
- Sort order among equal keys is not fixed. pandas `sort_values` is unstable by default, and `torch.topk` does not promise an order for ties. The model uses one stable sort, and every stated property holds whatever the tie order.
- `FortsRouter.ListForts`: `q` is treated as a literal substring, although `str.contains` reads it as a regular expression. Queries with regex metacharacters are not modelled.
- Case folding and `strip` cover ASCII letters and ASCII whitespace only. Python's Unicode `lower`/`strip` tables are not modelled.
- The `fort_id` fallback at src/core/data_loader.py:40-41 (`fillna` with a `range`) is not modelled. A `fort_id` column that `astype(int)` rejects ends the load with the error `FortIdNotConvertible`.
- Duplicate column names after header normalisation are not modelled. A column lookup reads the first column with that name.
- `Recommender.RecommendSimilar` requires the `fort_id`, `type` and `elevation_m` columns and a numeric elevation. The `KeyError`/`TypeError` pandas raises otherwise is not modelled as an error result.
- `FortsRouter.GetFort` requires a `fort_id` column. The `KeyError` that `DF["fort_id"]` raises on a catalog without one is not modelled as an error result.
- `FortsRouter.ListForts` requires the `name`, `notes`, `key_events` and `district` columns whenever their filters apply. The `KeyError` pandas raises otherwise is not modelled as an error result.
- `ClusterEngine.GeoCluster.Fit` requires numeric `latitude`/`longitude` columns and `n_clusters >= 1` whenever there are usable points. The errors KMeans and pandas raise otherwise are not modelled as results.
- `Preprocess.PreprocessForModel` requires the median columns to be numeric. The `TypeError` from `median` on text is not modelled.
- Results are rows (cell sequences) rather than `to_dict` records or result frames. A proximity result is a row paired with its `distance_km`. A similarity result is a row with `type_score`, `elev_diff` and `score`.
- Concurrency is not modelled. The module-level `DF` of the router is the read-only parameter `catalog`.
