/** `RAGEngine` of src/core/rag_engine.py: a text corpus with one entry per fort, an embedding
    index over it, and semantic top-k search that returns the original rows. The sentence
    encoder, cosine similarity and Python's float formatting are library code and enter as the
    engine's constant parameters. */
module RagEngine {
  import opened Wrappers
  import opened Strings
  import opened Frame
  import opened Sequences

  type Embedding = seq<real>

  /** The errors the engine raises: `ValueError(message)` from its own guards,
      `RuntimeError` from `torch.topk` with `k` out of range, and `IndexError` from
      `df.iloc[i]` past the last row. */
  datatype RagError = ValueError(message: string) | TopKOutOfRange | RowOutOfRange

  const DataNotLoaded: string := "Data not loaded. Call load_data() first."
  const IndexNotBuilt: string := "Index not built. Call build_index()."

  /** The fields of a corpus entry, in order. */
  const CorpusColumns: seq<string> := ["name", "district", "type", "built_by", "era",
    "key_events", "notes", "water_availability", "trek_difficulty", "description"]

  // ---------------------------------------------------------------------------
  // Corpus entries
  // ---------------------------------------------------------------------------

  /** `str(row.get(col, ""))`: the cell's text, or the empty string when the column is absent. */
  function FieldText(columns: seq<string>, row: Row, col: string, floatRepr: real -> string): string {
    if col in columns then PyStr(Get(columns, row, col), floatRepr) else ""
  }

  function EntryFields(columns: seq<string>, row: Row, floatRepr: real -> string): (parts: seq<string>)
    ensures |parts| == |CorpusColumns|
  {
    seq(|CorpusColumns|, k requires 0 <= k < |CorpusColumns| => FieldText(columns, row, CorpusColumns[k], floatRepr))
  }

  /** The corpus entry of one row: its ten fields joined by " | ". */
  function CorpusEntry(columns: seq<string>, row: Row, floatRepr: real -> string): string {
    Join(EntryFields(columns, row, floatRepr), FieldSeparator)
  }

  /** The corpus of a table: one entry per row, in row order. */
  function Corpus(t: Table, floatRepr: real -> string): (c: seq<string>)
    ensures |c| == |t.rows|
  {
    seq(|t.rows|, i requires 0 <= i < |t.rows| => CorpusEntry(t.columns, t.rows[i], floatRepr))
  }

  /** An entry holds the ten fields in order, an absent column contributing "": when no field
      contains `|`, splitting the entry on " | " gives them back one by one. */
  lemma CorpusEntryFields(columns: seq<string>, row: Row, floatRepr: real -> string)
    requires forall k :: 0 <= k < |CorpusColumns| ==> NoBar(FieldText(columns, row, CorpusColumns[k], floatRepr))
    ensures var parts := Split(CorpusEntry(columns, row, floatRepr), FieldSeparator);
      |parts| == 10
      && (forall k :: 0 <= k < 10 ==>
            parts[k] == if CorpusColumns[k] in columns then PyStr(Get(columns, row, CorpusColumns[k]), floatRepr) else "")
  {
    SplitJoin(EntryFields(columns, row, floatRepr));
  }

  // ---------------------------------------------------------------------------
  // Top-k selection
  // ---------------------------------------------------------------------------

  /** The score of index `i`; indices outside the scores never occur in a selection. */
  function ScoreAt(scores: seq<real>, i: int): real {
    if 0 <= i < |scores| then scores[i] else 0.0
  }

  /** Higher score first. */
  function ByScore(scores: seq<real>): (int, int) -> bool {
    (i, j) => ScoreAt(scores, i) >= ScoreAt(scores, j)
  }

  lemma ByScoreTotal(scores: seq<real>)
    ensures TotalPreorder(ByScore(scores))
  {
  }

  function Indices(n: nat): (s: seq<int>)
    ensures |s| == n && forall i :: 0 <= i < n ==> s[i] == i
  {
    seq(n, i => i)
  }

  /** Ranking all positions by score keeps each position exactly once. */
  lemma RankedPositions(scores: seq<real>)
    requires TotalPreorder(ByScore(scores))
    ensures var sorted := SortBy(Indices(|scores|), ByScore(scores));
      (forall j :: 0 <= j < |sorted| ==> 0 <= sorted[j] < |scores|) && Distinct(sorted)
  {
    var all := Indices(|scores|);
    var sorted := SortBy(all, ByScore(scores));
    forall j | 0 <= j < |sorted| ensures 0 <= sorted[j] < |scores| {
      assert sorted[j] in multiset(all);
    }
    PermutationDistinct(sorted, all);
  }

  /** `torch.topk(scores, k).indices`: `k` distinct positions of the scores. */
  function TopIndices(scores: seq<real>, k: nat): (idx: seq<int>)
    requires k <= |scores|
    ensures |idx| == k && Distinct(idx)
    ensures forall j :: 0 <= j < k ==> 0 <= idx[j] < |scores|
  {
    ByScoreTotal(scores);
    RankedPositions(scores);
    Head(SortBy(Indices(|scores|), ByScore(scores)), k)
  }

  /** `torch.topk` lists the selected positions in non-increasing score order, and no position
      left out scores higher than one selected. */
  lemma TopIndicesRanked(scores: seq<real>, k: nat)
    requires k <= |scores|
    ensures var idx := TopIndices(scores, k);
      (forall a, b :: 0 <= a < b < k ==> scores[idx[a]] >= scores[idx[b]])
      && (forall i, j :: 0 <= i < |scores| && i !in idx && 0 <= j < k ==> scores[i] <= scores[idx[j]])
  {
    TopIndicesOrdered(scores, k);
    TopIndicesBest(scores, k);
  }

  lemma TopIndicesOrdered(scores: seq<real>, k: nat)
    requires k <= |scores|
    ensures var idx := TopIndices(scores, k);
      forall a, b :: 0 <= a < b < k ==> scores[idx[a]] >= scores[idx[b]]
  {
    var le := ByScore(scores);
    ByScoreTotal(scores);
    var sorted := SortBy(Indices(|scores|), le);
    var idx := TopIndices(scores, k);
    assert idx == sorted[..k];
    forall a, b | 0 <= a < b < k ensures scores[idx[a]] >= scores[idx[b]] {
      assert le(sorted[a], sorted[b]);
    }
  }

  lemma TopIndicesBest(scores: seq<real>, k: nat)
    requires k <= |scores|
    ensures var idx := TopIndices(scores, k);
      forall i, j :: 0 <= i < |scores| && i !in idx && 0 <= j < k ==> scores[i] <= scores[idx[j]]
  {
    var le := ByScore(scores);
    ByScoreTotal(scores);
    var all := Indices(|scores|);
    var sorted := SortBy(all, le);
    var idx := TopIndices(scores, k);
    assert idx == sorted[..k];
    HeadOfSorted(all, sorted, le, k);
    forall i, j | 0 <= i < |scores| && i !in idx && 0 <= j < k ensures scores[i] <= scores[idx[j]] {
      assert all[i] == i;
      assert i in multiset(all) - multiset(idx);
      assert le(idx[j], i);
    }
  }

  // ---------------------------------------------------------------------------
  // The engine
  // ---------------------------------------------------------------------------

  class RAGEngine {
    /** `SentenceTransformer.encode`. */
    const encode: string -> Embedding
    /** `util.pytorch_cos_sim` for two embeddings. */
    const cosSim: (Embedding, Embedding) -> real
    /** `str` of a Python float. */
    const floatRepr: real -> string

    var df: Option<Table>
    var corpus: seq<string>
    var embeddings: Option<seq<Embedding>>

    /** The corpus always belongs to the loaded table, and an index exists only once data was
        loaded. The index may be older than the table: `load_data` keeps it. */
    predicate Valid()
      reads this
    {
      (df.None? ==> corpus == [] && embeddings.None?)
      && (df.Some? ==> corpus == Corpus(df.value, floatRepr))
    }

    /** `RAGEngine()`: nothing loaded, no index. */
    constructor (encode: string -> Embedding, cosSim: (Embedding, Embedding) -> real, floatRepr: real -> string)
      ensures this.encode == encode && this.cosSim == cosSim && this.floatRepr == floatRepr
      ensures df == None && corpus == [] && embeddings == None
      ensures Valid()
    {
      this.encode := encode;
      this.cosSim := cosSim;
      this.floatRepr := floatRepr;
      df := None;
      corpus := [];
      embeddings := None;
    }

    /** `load_data(df)`: replaces the table and rebuilds the corpus from scratch, one entry per
        row; an index built earlier is kept as it is. Returns the engine. */
    method LoadData(table: Table) returns (self: RAGEngine)
      requires Valid()
      modifies this`df, this`corpus
      ensures Valid()
      ensures self == this
      ensures df == Some(table) && corpus == Corpus(table, floatRepr)
      ensures embeddings == old(embeddings)
    {
      df := Some(table);
      corpus := [];
      var i := 0;
      while i < |table.rows|
        invariant 0 <= i <= |table.rows|
        invariant df == Some(table)
        invariant |corpus| == i
        invariant forall j :: 0 <= j < i ==> corpus[j] == CorpusEntry(table.columns, table.rows[j], floatRepr)
      {
        corpus := corpus + [CorpusEntry(table.columns, table.rows[i], floatRepr)];
        i := i + 1;
      }
      assert corpus == Corpus(table, floatRepr);
      self := this;
    }

    /** `build_index()`: a `ValueError` when the corpus is empty (nothing loaded, or an empty
        table), otherwise one embedding per corpus entry. Returns the engine. */
    method BuildIndex() returns (r: Result<RAGEngine, RagError>)
      requires Valid()
      modifies this`embeddings
      ensures Valid()
      ensures r.Err? <==> old(corpus) == []
      ensures r.Err? ==> r.error == ValueError(DataNotLoaded) && embeddings == old(embeddings)
      ensures r.Ok? ==> r.value == this && embeddings == Some(Encoded(corpus))
    {
      if corpus == [] {
        return Err(ValueError(DataNotLoaded));
      }
      embeddings := Some(Encoded(corpus));
      r := Ok(this);
    }

    /** The batch encoding of a corpus: one embedding per entry. */
    function Encoded(entries: seq<string>): (e: seq<Embedding>)
      ensures |e| == |entries|
    {
      seq(|entries|, i requires 0 <= i < |entries| => encode(entries[i]))
    }

    /** The similarity of the query to each indexed entry. */
    function Scores(userQuery: string, index: seq<Embedding>): (s: seq<real>)
      ensures |s| == |index|
    {
      var q := encode(userQuery);
      seq(|index|, i requires 0 <= i < |index| => cosSim(q, index[i]))
    }

    /** `query(user_query, k=5)`: the rows at the `k` best-scoring index positions, best first. */
    function Query(userQuery: string, k: int := 5): (r: Result<seq<Row>, RagError>)
      reads this
      requires Valid()
      ensures r == Err(ValueError(IndexNotBuilt)) <==> embeddings.None?
      ensures embeddings.Some? && (k < 0 || k > |embeddings.value|) ==> r == Err(TopKOutOfRange)
      ensures r.Ok? ==> embeddings.Some? && df.Some? && 0 <= k <= |embeddings.value| && |r.value| == k
      ensures r.Ok? ==>
        var idx := TopIndices(Scores(userQuery, embeddings.value), k);
        forall j :: 0 <= j < k ==> 0 <= idx[j] < |df.value.rows| && r.value[j] == df.value.rows[idx[j]]
      ensures r == Err(RowOutOfRange) ==> (embeddings.Some? && df.Some? && 0 <= k <= |embeddings.value|
        && exists j :: 0 <= j < k && TopIndices(Scores(userQuery, embeddings.value), k)[j] >= |df.value.rows|)
    {
      if embeddings.None? then Err(ValueError(IndexNotBuilt))
      else
        var index := embeddings.value;
        if k < 0 || k > |index| then Err(TopKOutOfRange)
        else
          var scores := Scores(userQuery, index);
          var idx := TopIndices(scores, k);
          var rows := df.value.rows;
          if exists j :: 0 <= j < k && idx[j] >= |rows| then Err(RowOutOfRange)
          else Ok(seq(k, j requires 0 <= j < k => rows[idx[j]]))
    }

    /** The `k` rows of a successful query are ordered by non-increasing similarity, and no
        index position left out is more similar than one returned. */
    lemma QueryRanking(userQuery: string, k: int)
      requires Valid()
      requires Query(userQuery, k).Ok?
      ensures var scores := Scores(userQuery, embeddings.value);
        var idx := TopIndices(scores, k);
        (forall a, b :: 0 <= a < b < k ==> scores[idx[a]] >= scores[idx[b]])
        && (forall i, j :: 0 <= i < |scores| && i !in idx && 0 <= j < k ==> scores[i] <= scores[idx[j]])
    {
      TopIndicesRanked(Scores(userQuery, embeddings.value), k);
    }

    /** With an index built on the table that is loaded now, every `0 <= k <= len(df)` query
        succeeds. */
    lemma QueryOnFreshIndex(userQuery: string, k: int)
      requires Valid()
      requires df.Some? && embeddings == Some(Encoded(corpus))
      requires 0 <= k <= |df.value.rows|
      ensures Query(userQuery, k).Ok?
    {
    }
  }

  /** The call order of the engine: load a non-empty table, build the index, query it. */
  method LoadIndexQuery(engine: RAGEngine, table: Table, userQuery: string, k: int)
    returns (r: Result<seq<Row>, RagError>)
    requires engine.Valid()
    requires |table.rows| > 0 && 0 <= k <= |table.rows|
    modifies engine
    ensures r.Ok? && |r.value| == k
  {
    var self := engine.LoadData(table);
    var built := engine.BuildIndex();
    engine.QueryOnFreshIndex(userQuery, k);
    r := engine.Query(userQuery, k);
  }
}
