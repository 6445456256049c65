/** The lazy pipeline (`main_polars.py`): `stack_transforms`, `reduce_save_udf`,
    `lazy_format` and the line `file_save` writes, each related to the eager pipeline. */
module Polars {
  import opened Base
  import opened Records
  import opened TopK
  import opened GroupBy
  import opened Ranking
  import Pandas

  /** `drop_nulls()` followed by the country length filter. */
  function QualityFilter(rows: seq<Row>): seq<Row>
  {
    FilterCountryLength(DropNulls(rows))
  }

  /** `stack_transforms(lazy_dataframe, col_name, best_of)`. */
  function StackTransforms(rows: seq<Row>, col: Partition, bestOf: nat): seq<GroupCount>
  {
    Aggregate(Project(QualityFilter(rows), col), bestOf)
  }

  /** The lazy filters keep exactly the rows the eager quality check keeps, in the same order. */
  lemma QualityFilterAgrees(rows: seq<Row>)
    ensures QualityFilter(rows) == Pandas.DataQualityCheck(rows)
  {
    FiltersCommute(rows);
  }

  /** For every input the lazy and the eager aggregation produce the same table. */
  lemma StackTransformsAgrees(rows: seq<Row>, col: Partition, bestOf: nat)
    ensures StackTransforms(rows, col, bestOf) ==
      Pandas.AggregateTransform(Pandas.DataQualityCheck(rows), col, bestOf)
  {
    QualityFilterAgrees(rows);
  }

  /** Per key, `stack_transforms` keeps `min(best_of, songs of the key among valid rows)`
      entries, counting valid rows only, whose counts dominate every count left out. */
  lemma StackTransformsSpec(rows: seq<Row>, col: Partition, bestOf: nat, key: string)
    ensures |KeyGroup(StackTransforms(rows, col, bestOf), key)| ==
      Min(bestOf, |Pandas.KeySongs(QualityFilter(rows), col, key)|)
    ensures forall e :: e in KeyGroup(StackTransforms(rows, col, bestOf), key) ==>
      e.count == RowCount(QualityFilter(rows), col, Pair(e.song, key)) && e.count >= 1 &&
      exists r :: r in rows && IsValid(r) && r.song == Some(e.song) && KeyOf(r, col) == Some(key)
    ensures SongsDistinct(KeyGroup(StackTransforms(rows, col, bestOf), key))
    ensures forall e, s ::
      (e in KeyGroup(StackTransforms(rows, col, bestOf), key) &&
       s in Pandas.KeySongs(QualityFilter(rows), col, key) &&
       s !in Songs(KeyGroup(StackTransforms(rows, col, bestOf), key))) ==>
      e.count >= RowCount(QualityFilter(rows), col, Pair(s, key))
  {
    var valid := QualityFilter(rows);
    QualityFilterAgrees(rows);
    assert StackTransforms(rows, col, bestOf) == Pandas.AggregateTransform(valid, col, bestOf);
    Pandas.AggregateTransformSpec(valid, col, bestOf, key);
    forall e | e in KeyGroup(StackTransforms(rows, col, bestOf), key)
      ensures exists r :: r in rows && IsValid(r) && r.song == Some(e.song) && KeyOf(r, col) == Some(key)
    {
      var r :| r in valid && r.song == Some(e.song) && KeyOf(r, col) == Some(key);
      ValidRowFromRows(rows, r);
    }
  }

  /** A row the quality filter keeps is a valid row of the input. */
  lemma ValidRowFromRows(rows: seq<Row>, r: Row)
    requires r in Pandas.DataQualityCheck(rows)
    ensures r in rows && IsValid(r)
  {
    assert multiset(Pandas.DataQualityCheck(rows))[r] > 0;
  }

  /** Whatever rows `top_k` picks at a tied boundary, the counts it selects for a key are the
      counts the eager `nlargest` selects. */
  lemma TopKChoiceCounts(rows: seq<Row>, col: Partition, bestOf: nat, key: string, sel: seq<Entry>)
    requires IsTopK(Candidates(Project(QualityFilter(rows), col), key), sel, bestOf)
    ensures multiset(Counts(sel)) ==
      multiset(Counts(KeyGroup(Pandas.AggregateTransform(Pandas.DataQualityCheck(rows), col, bestOf), key)))
  {
    var pairs := Project(QualityFilter(rows), col);
    StackTransformsAgrees(rows, col, bestOf);
    AggregateKeyGroup(pairs, bestOf, key);
    TopKCountsAgree(Candidates(pairs, key), sel, NLargest(Candidates(pairs, key), bestOf), bestOf);
  }

  /** Python's `zip`: pairs up the two lists, stopping at the shorter. */
  function Zip(songs: seq<string>, counts: seq<nat>): (z: seq<Entry>)
    ensures |z| == Min(|songs|, |counts|)
    ensures Songs(z) == songs[..|z|] && Counts(z) == counts[..|z|]
  {
    var n := Min(|songs|, |counts|);
    seq(n, i requires 0 <= i < n => Entry(songs[i], counts[i]))
  }

  /** `results_list` of `reduce_save_udf`: the zipped pairs, stably sorted by descending count. */
  function ResultsList(songs: seq<string>, counts: seq<nat>): (rl: seq<Entry>)
    ensures multiset(rl) == multiset(Zip(songs, counts))
    ensures SortedDesc(rl)
  {
    SortDesc(Zip(songs, counts))
  }

  /** `reduce_save_udf((songs, counts))`: the ranked `song:rank` list, without the key. */
  function ReduceSaveUdf(songs: seq<string>, counts: seq<nat>): string
  {
    RankedList(Songs(ResultsList(songs, counts)))
  }

  /** Read back, `reduce_save_udf` gives each zipped pair once, ranked `1..n` with no gap or
      repeat, in non-increasing count order, equal counts keeping their input order. */
  lemma ReduceSaveUdfSpec(songs: seq<string>, counts: seq<nat>)
    requires forall i :: 0 <= i < |songs| ==> Plain(songs[i])
    ensures ParseRankedList(ReduceSaveUdf(songs, counts)) == Some(Numbered(Songs(ResultsList(songs, counts))))
    ensures |Numbered(Songs(ResultsList(songs, counts)))| == Min(|songs|, |counts|)
    ensures forall v :: WithCount(ResultsList(songs, counts), v) == WithCount(Zip(songs, counts), v)
  {
    var z := Zip(songs, counts);
    var rl := ResultsList(songs, counts);
    forall i | 0 <= i < |rl| ensures Plain(Songs(rl)[i]) {
      assert rl[i] in multiset(z);
      var j :| 0 <= j < |z| && z[j] == rl[i];
    }
    RankedListRoundTrip(Songs(rl));
    assert |rl| == |multiset(rl)| == |z|;
    forall v { SortDescStable(z, v); }
  }

  /** Zipping the song and count columns of a key's rows gives those rows back. */
  lemma ZipColumns(es: seq<Entry>)
    ensures Zip(Songs(es), Counts(es)) == es
  {
  }

  /** One row of the formatted frame: a country and its ranked list. */
  datatype CountryResult = CountryResult(key: string, results: string)

  /** `lazy_format`: group by key keeping the order of first appearance, and apply
      `reduce_save_udf` to each key's song and count columns. */
  function LazyFormat(table: seq<GroupCount>): (out: seq<CountryResult>)
    ensures |out| == |TableKeys(table)|
    ensures forall i :: 0 <= i < |out| ==> out[i].key == TableKeys(table)[i]
  {
    var keys := TableKeys(table);
    seq(|keys|, i requires 0 <= i < |keys| =>
      CountryResult(keys[i], ReduceSaveUdf(Songs(KeyGroup(table, keys[i])), Counts(KeyGroup(table, keys[i])))))
  }

  /** The rows of `lazy_format` follow the order in which their keys first occur in the
      table (`maintain_order=True`). */
  lemma LazyFormatOrder(table: seq<GroupCount>)
    ensures forall i, j :: 0 <= i < j < |LazyFormat(table)| ==>
      LazyFormat(table)[i].key in KeyColumn(table) && LazyFormat(table)[j].key in KeyColumn(table) &&
      FirstIndex(KeyColumn(table), LazyFormat(table)[i].key) < FirstIndex(KeyColumn(table), LazyFormat(table)[j].key)
  {
    var keys := TableKeys(table);
    TableKeysOrder(table);
    forall i | 0 <= i < |keys| ensures keys[i] in KeyColumn(table) {
      assert keys[i] in keys;
      var g :| g in table && g.key == keys[i];
      var m :| 0 <= m < |table| && table[m] == g;
      assert KeyColumn(table)[m] == keys[i];
    }
    var out := LazyFormat(table);
    forall i, j | 0 <= i < j < |out|
      ensures FirstIndex(KeyColumn(table), out[i].key) < FirstIndex(KeyColumn(table), out[j].key)
    {
      assert out[i].key == keys[i] && out[j].key == keys[j];
    }
  }

  /** `lazy_transform` for the country ranking: `stack_transforms` then `lazy_format`. */
  function LazyTransformCountry(rows: seq<Row>, bestOf: nat): seq<CountryResult>
  {
    LazyFormat(StackTransforms(rows, ByCountry, bestOf))
  }

  /** The text `file_save` writes for one country. */
  function FileSaveLine(r: CountryResult): string
  {
    r.key + "|" + r.results
  }

  /** `file_save` for the country ranking: one file `{country}_top50_{date}.txt` per row. */
  function FileSave(results: seq<CountryResult>, date: string): (files: seq<Pandas.CountryFile>)
    ensures |files| == |results|
    ensures forall i :: 0 <= i < |files| ==>
      files[i].name == Pandas.FileName(results[i].key, date) &&
      files[i].content == results[i].key + "|" + results[i].results
  {
    seq(|results|, i requires 0 <= i < |results| =>
      Pandas.CountryFile(Pandas.FileName(results[i].key, date), FileSaveLine(results[i])))
  }

  /** Each line the lazy pipeline writes is the line the eager `save_file` writes for that key
      of the same table. */
  lemma FileSaveLineAgrees(table: seq<GroupCount>, i: nat)
    requires i < |LazyFormat(table)|
    ensures FileSaveLine(LazyFormat(table)[i]) == Pandas.SaveFileLine(table, LazyFormat(table)[i].key)
  {
    var key := TableKeys(table)[i];
    ZipColumns(KeyGroup(table, key));
  }

  /** On the same table, `lazy_format` then `file_save` writes the files `save_file` writes. */
  lemma LazyFilesAgree(table: seq<GroupCount>, date: string)
    ensures FileSave(LazyFormat(table), date) == Pandas.SaveFile(table, date)
  {
    var lazy := FileSave(LazyFormat(table), date);
    var eager := Pandas.SaveFile(table, date);
    forall i | 0 <= i < |lazy| ensures lazy[i] == eager[i] {
      FileSaveLineAgrees(table, i);
    }
  }

  /** `file_save` after `lazy_format` writes one file per key and no two under the same name. */
  lemma FileSaveOnePerKey(table: seq<GroupCount>, date: string)
    ensures forall i, j :: 0 <= i < j < |FileSave(LazyFormat(table), date)| ==>
      FileSave(LazyFormat(table), date)[i].name != FileSave(LazyFormat(table), date)[j].name
    ensures forall g :: g in table ==>
      Pandas.CountryFile(Pandas.FileName(g.key, date), Pandas.SaveFileLine(table, g.key))
        in FileSave(LazyFormat(table), date)
  {
    LazyFilesAgree(table, date);
    Pandas.SaveFileOnePerKey(table, date);
  }

  /** For every input both engines write the same files with the same lines. */
  lemma CountryFilesAgree(rows: seq<Row>, bestOf: nat, date: string)
    ensures FileSave(LazyTransformCountry(rows, bestOf), date) ==
      Pandas.SaveFile(Pandas.AggregateTransform(Pandas.DataQualityCheck(rows), ByCountry, bestOf), date)
  {
    StackTransformsAgrees(rows, ByCountry, bestOf);
    LazyFilesAgree(StackTransforms(rows, ByCountry, bestOf), date);
  }
}
