/** The eager pipeline (`main_pandas.py`): quality check, `aggregate_transform`, and the
    per-country line `save_file` writes. */
module Pandas {
  import opened Base
  import opened Text
  import opened Records
  import opened TopK
  import opened GroupBy
  import opened Ranking

  /** `data_quality_check`: keep the rows whose country has length 2, then drop every row
      with a null field. */
  function DataQualityCheck(rows: seq<Row>): (kept: seq<Row>)
    ensures forall r :: multiset(kept)[r] == if IsValid(r) then multiset(rows)[r] else 0
  {
    DropNulls(FilterCountryLength(rows))
  }

  /** `aggregate_transform(df, col_name, best_of)`: count the rows per `(song, key)`, then keep
      the `best_of` largest counts of each key (`nlargest`). */
  function AggregateTransform(rows: seq<Row>, col: Partition, bestOf: nat): seq<GroupCount>
  {
    Aggregate(Project(rows, col), bestOf)
  }

  /** The songs streamed under `key` in the given rows. */
  function KeySongs(rows: seq<Row>, col: Partition, key: string): set<string>
  {
    set r | r in rows && r.song.Some? && KeyOf(r, col) == Some(key) :: r.song.value
  }

  /** A combination is counted at least once exactly when some row carries it. */
  lemma {:induction false} RowCountPositive(rows: seq<Row>, col: Partition, p: Pair)
    ensures RowCount(rows, col, p) > 0 <==>
      exists r :: r in rows && r.song == Some(p.song) && KeyOf(r, col) == Some(p.key)
  {
    if rows != [] {
      RowCountPositive(rows[1..], col, p);
      assert rows == [rows[0]] + rows[1..];
    }
  }

  lemma KeySongsOfProject(rows: seq<Row>, col: Partition, key: string)
    ensures SongsOf(Project(rows, col), key) == KeySongs(rows, col, key)
  {
    var pairs := Project(rows, col);
    forall s ensures s in SongsOf(pairs, key) <==> s in KeySongs(rows, col, key) {
      RowCountPositive(rows, col, Pair(s, key));
      if s in SongsOf(pairs, key) {
        var p :| p in pairs && p.key == key && p.song == s;
        assert p == Pair(s, key);
        var r :| r in rows && r.song == Some(s) && KeyOf(r, col) == Some(key);
      }
      if s in KeySongs(rows, col, key) {
        var r :| r in rows && r.song.Some? && KeyOf(r, col) == Some(key) && r.song.value == s;
        assert multiset(pairs)[Pair(s, key)] > 0;
      }
    }
  }

  /** Per key, `aggregate_transform` keeps `min(best_of, songs of the key)` rows (none for a
      key without rows), each a song streamed under the key with its exact number of rows,
      no song twice, in descending count order, and no kept count below the count of a song
      of the key that was left out; a song left out at the same count as a kept one has the
      larger id, as `nlargest(keep='first')` over the `sng_id`-sorted groups leaves it. */
  lemma AggregateTransformSpec(rows: seq<Row>, col: Partition, bestOf: nat, key: string)
    ensures |KeyGroup(AggregateTransform(rows, col, bestOf), key)| == Min(bestOf, |KeySongs(rows, col, key)|)
    ensures forall e :: e in KeyGroup(AggregateTransform(rows, col, bestOf), key) ==>
      e.count == RowCount(rows, col, Pair(e.song, key)) && e.count >= 1 &&
      exists r :: r in rows && r.song == Some(e.song) && KeyOf(r, col) == Some(key)
    ensures SongsDistinct(KeyGroup(AggregateTransform(rows, col, bestOf), key))
    ensures SortedDesc(KeyGroup(AggregateTransform(rows, col, bestOf), key))
    ensures forall e, s ::
      (e in KeyGroup(AggregateTransform(rows, col, bestOf), key) && s in KeySongs(rows, col, key) &&
       s !in Songs(KeyGroup(AggregateTransform(rows, col, bestOf), key))) ==>
      e.count >= RowCount(rows, col, Pair(s, key))
    ensures forall e, s ::
      (e in KeyGroup(AggregateTransform(rows, col, bestOf), key) && s in KeySongs(rows, col, key) &&
       s !in Songs(KeyGroup(AggregateTransform(rows, col, bestOf), key)) &&
       e.count == RowCount(rows, col, Pair(s, key))) ==>
      Less(e.song, s)
  {
    var pairs := Project(rows, col);
    AggregateSpec(pairs, bestOf, key);
    KeySongsOfProject(rows, col, key);
    forall e | e in KeyGroup(AggregateTransform(rows, col, bestOf), key)
      ensures exists r :: r in rows && r.song == Some(e.song) && KeyOf(r, col) == Some(key)
    {
      RowCountPositive(rows, col, Pair(e.song, key));
    }
  }

  /** Every row of the result is a `(song, key)` combination some row carries, with its
      exact number of rows, and no combination occurs twice. */
  lemma AggregateTransformRows(rows: seq<Row>, col: Partition, bestOf: nat)
    ensures PairsDistinct(AggregateTransform(rows, col, bestOf))
    ensures forall g :: g in AggregateTransform(rows, col, bestOf) ==>
      g.count == RowCount(rows, col, PairOf(g)) && g.count >= 1
  {
    AggregateDistinct(Project(rows, col), bestOf);
    AggregateRows(Project(rows, col), bestOf);
  }

  /** One output file of the country ranking: its name and its single line. */
  datatype CountryFile = CountryFile(name: string, content: string)

  /** The line `save_file` writes for `key`: the key's rows sorted by descending
      `stream_count`, ranked from 1. */
  function SaveFileLine(top: seq<GroupCount>, key: string): string
  {
    FormatLine(key, Songs(SortDesc(KeyGroup(top, key))))
  }

  /** The name `save_file` gives the file of `key`: `{key}_top50_{date}.txt`. */
  function FileName(key: string, date: string): string
  {
    key + "_top50_" + date + ".txt"
  }

  /** Different keys give different file names. */
  lemma FileNameInjective(a: string, b: string, date: string)
    ensures FileName(a, date) == FileName(b, date) ==> a == b
  {
    var suffix := "_top50_" + date + ".txt";
    assert FileName(a, date) == a + suffix && FileName(b, date) == b + suffix;
    if a + suffix == b + suffix {
      SuffixCancel(a, b, suffix);
    }
  }

  /** `save_file`: one file `{key}_top50_{date}.txt` per key of the result. */
  function SaveFile(top: seq<GroupCount>, date: string): (files: seq<CountryFile>)
    ensures |files| == |TableKeys(top)|
    ensures forall i :: 0 <= i < |files| ==>
      files[i].name == FileName(TableKeys(top)[i], date) &&
      files[i].content == SaveFileLine(top, TableKeys(top)[i])
  {
    var keys := TableKeys(top);
    seq(|keys|, i requires 0 <= i < |keys| => CountryFile(FileName(keys[i], date), SaveFileLine(top, keys[i])))
  }

  /** `save_file` writes one file per key of the result and no two under the same name: each
      key's file holds that key's line. */
  lemma SaveFileOnePerKey(top: seq<GroupCount>, date: string)
    ensures forall i, j :: 0 <= i < j < |SaveFile(top, date)| ==>
      SaveFile(top, date)[i].name != SaveFile(top, date)[j].name
    ensures forall g :: g in top ==> CountryFile(FileName(g.key, date), SaveFileLine(top, g.key)) in SaveFile(top, date)
    ensures forall f :: f in SaveFile(top, date) ==>
      exists g :: g in top && f == CountryFile(FileName(g.key, date), SaveFileLine(top, g.key))
  {
    SaveFileNamesDistinct(top, date);
    var keys := TableKeys(top);
    var files := SaveFile(top, date);
    forall g | g in top ensures CountryFile(FileName(g.key, date), SaveFileLine(top, g.key)) in files {
      assert g.key in keys;
      var i :| 0 <= i < |keys| && keys[i] == g.key;
      assert files[i] == CountryFile(FileName(g.key, date), SaveFileLine(top, g.key));
    }
    forall f | f in files ensures exists g :: g in top && f == CountryFile(FileName(g.key, date), SaveFileLine(top, g.key)) {
      var i :| 0 <= i < |files| && files[i] == f;
      assert keys[i] in keys;
      var g :| g in top && g.key == keys[i];
    }
  }

  lemma SaveFileNamesDistinct(top: seq<GroupCount>, date: string)
    ensures forall i, j :: 0 <= i < j < |SaveFile(top, date)| ==>
      SaveFile(top, date)[i].name != SaveFile(top, date)[j].name
  {
    var keys := TableKeys(top);
    var files := SaveFile(top, date);
    forall i, j | 0 <= i < j < |files| ensures files[i].name != files[j].name {
      FileNameInjective(keys[i], keys[j], date);
    }
  }

  /** Read back, the line of `key` lists the key's songs once each, ranked `1..n` in
      non-increasing count order, with equal counts in the order of the result. */
  lemma SaveFileLineSpec(top: seq<GroupCount>, key: string)
    requires '|' !in key
    requires forall g :: g in top ==> Plain(g.song)
    ensures ParseLine(SaveFileLine(top, key)) ==
      Some(Line(key, Numbered(Songs(SortDesc(KeyGroup(top, key))))))
    ensures multiset(SortDesc(KeyGroup(top, key))) == multiset(KeyGroup(top, key))
    ensures SortedDesc(SortDesc(KeyGroup(top, key)))
    ensures forall v :: WithCount(SortDesc(KeyGroup(top, key)), v) == WithCount(KeyGroup(top, key), v)
  {
    var sorted := SortDesc(KeyGroup(top, key));
    KeyGroupMembers(top, key);
    forall i | 0 <= i < |sorted| ensures Plain(Songs(sorted)[i]) {
      assert sorted[i] in multiset(KeyGroup(top, key));
      assert GroupCount(sorted[i].song, key, sorted[i].count) in top;
    }
    FormatLineRoundTrip(key, Songs(sorted));
    forall v { SortDescStable(KeyGroup(top, key), v); }
  }

  /** On the output of `aggregate_transform` the re-sort in `save_file` changes nothing: the
      line ranks the songs in the order `nlargest` chose. */
  lemma SaveFileKeepsSelectionOrder(rows: seq<Row>, bestOf: nat, key: string)
    ensures SaveFileLine(AggregateTransform(rows, ByCountry, bestOf), key) ==
      FormatLine(key, Songs(KeyGroup(AggregateTransform(rows, ByCountry, bestOf), key)))
  {
    AggregateTransformSpec(rows, ByCountry, bestOf, key);
    SortDescOfSorted(KeyGroup(AggregateTransform(rows, ByCountry, bestOf), key));
  }
}
