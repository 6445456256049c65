/** The two-stage aggregation both pipelines run: group the valid rows by `(song, key)` and
    count them, then group the counts by key and keep the `best_of` largest per key. */
module GroupBy {
  import opened Base
  import opened Text
  import opened Records
  import opened TopK

  /** The grouping column: `country`, or `user_id` for the per-user ranking. */
  datatype Partition = ByCountry | ByUser

  function KeyOf(r: Row, col: Partition): Option<string>
  {
    match col
    case ByCountry => r.country
    case ByUser => r.user
  }

  /** A `(song, key)` combination, one per stream event. */
  datatype Pair = Pair(song: string, key: string)

  /** One row of the count table: a song, a key and its `stream_count`. */
  datatype GroupCount = GroupCount(song: string, key: string, count: nat)

  function PairOf(g: GroupCount): Pair
  {
    Pair(g.song, g.key)
  }

  /** The number of rows with song `p.song` and key `p.key`. */
  function RowCount(rows: seq<Row>, col: Partition, p: Pair): nat
  {
    if rows == [] then 0
    else
      (if rows[0].song == Some(p.song) && KeyOf(rows[0], col) == Some(p.key) then 1 else 0)
      + RowCount(rows[1..], col, p)
  }

  /** The stream events of the rows: rows with a null song or a null key take part in no
      group, as in a `groupby` that drops null keys. */
  function Project(rows: seq<Row>, col: Partition): (pairs: seq<Pair>)
    ensures forall p :: multiset(pairs)[p] == RowCount(rows, col, p)
  {
    if rows == [] then []
    else
      var r := rows[0];
      var rest := Project(rows[1..], col);
      if r.song.Some? && KeyOf(r, col).Some? then [Pair(r.song.value, KeyOf(r, col).value)] + rest
      else rest
  }

  /** No `(song, key)` combination occurs twice in the table. */
  predicate PairsDistinct(table: seq<GroupCount>)
  {
    forall i, j :: 0 <= i < j < |table| ==> PairOf(table[i]) != PairOf(table[j])
  }

  /** `groupby([song, key]).agg(stream_count=count)`: one row per combination that occurs,
      holding how many times it occurs. */
  function GroupCounts(pairs: seq<Pair>): (table: seq<GroupCount>)
    ensures PairsDistinct(table)
    ensures forall g :: g in table <==> PairOf(g) in pairs && g.count == multiset(pairs)[PairOf(g)]
  {
    var d := Dedup(pairs);
    var table := seq(|d|, i requires 0 <= i < |d| => GroupCount(d[i].song, d[i].key, multiset(pairs)[d[i]]));
    assert forall i :: 0 <= i < |d| ==> PairOf(table[i]) == d[i];
    table
  }

  /** The rows of `table` under `key`, as entries: the group `groupby(key)` hands on. */
  function KeyGroup(table: seq<GroupCount>, key: string): (es: seq<Entry>)
    ensures |es| <= |table|
  {
    if table == [] then []
    else
      var g := table[0];
      (if g.key == key then [Entry(g.song, g.count)] else []) + KeyGroup(table[1..], key)
  }

  /** An entry is in the group of `key` exactly when the table holds it under `key`. */
  lemma {:induction false} KeyGroupMembers(table: seq<GroupCount>, key: string)
    ensures forall e :: e in KeyGroup(table, key) <==> GroupCount(e.song, key, e.count) in table
  {
    if table != [] {
      KeyGroupMembers(table[1..], key);
      assert table == [table[0]] + table[1..];
    }
  }

  /** A key no row of the table carries has an empty group. */
  lemma {:induction false} KeyGroupAbsent(table: seq<GroupCount>, key: string)
    requires forall g :: g in table ==> g.key != key
    ensures KeyGroup(table, key) == []
  {
    if table != [] {
      KeyGroupAbsent(table[1..], key);
    }
  }

  lemma DistinctCons<T>(x: T, s: seq<T>)
    requires x !in s && Distinct(s)
    ensures Distinct([x] + s)
  {
  }

  /** Distinct combinations give distinct songs within one key. */
  lemma {:induction false} KeyGroupSongsDistinct(table: seq<GroupCount>, key: string)
    requires PairsDistinct(table)
    ensures SongsDistinct(KeyGroup(table, key))
  {
    if table != [] {
      var g := table[0];
      var tail := table[1..];
      var rest := KeyGroup(tail, key);
      assert PairsDistinct(tail);
      KeyGroupSongsDistinct(tail, key);
      if g.key == key {
        var es := [Entry(g.song, g.count)] + rest;
        KeyGroupMembers(tail, key);
        forall j | 0 <= j < |rest| ensures Songs(rest)[j] != g.song {
          var e := rest[j];
          assert GroupCount(e.song, key, e.count) in tail;
          var m :| 0 <= m < |tail| && tail[m] == GroupCount(e.song, key, e.count);
          assert PairOf(table[0]) != PairOf(table[m + 1]);
        }
        assert g.song !in Songs(rest);
        assert Songs(es) == [g.song] + Songs(rest);
        DistinctCons(g.song, Songs(rest));
        assert KeyGroup(table, key) == es;
      } else {
        assert KeyGroup(table, key) == [] + rest == rest;
      }
    }
  }

  /** Grouping by key distributes over concatenation of tables. */
  lemma {:induction false} KeyGroupConcat(a: seq<GroupCount>, b: seq<GroupCount>, key: string)
    ensures KeyGroup(a + b, key) == KeyGroup(a, key) + KeyGroup(b, key)
  {
    if a == [] {
      assert a + b == b;
    } else {
      var g := a[0];
      var pre := if g.key == key then [Entry(g.song, g.count)] else [];
      KeyGroupConcat(a[1..], b, key);
      assert (a + b)[0] == g;
      assert (a + b)[1..] == a[1..] + b;
      assert KeyGroup(a + b, key) == pre + (KeyGroup(a[1..], key) + KeyGroup(b, key));
      assert KeyGroup(a, key) == pre + KeyGroup(a[1..], key);
    }
  }

  /** The entries of one key put back into table form. */
  function Tag(key: string, es: seq<Entry>): (table: seq<GroupCount>)
  {
    seq(|es|, i requires 0 <= i < |es| => GroupCount(es[i].song, key, es[i].count))
  }

  /** Grouping a tagged table by its own key gives back the entries; by another key, nothing. */
  lemma {:induction false} KeyGroupTag(tag: string, es: seq<Entry>, key: string)
    ensures KeyGroup(Tag(tag, es), key) == if tag == key then es else []
  {
    if es != [] {
      var t := Tag(tag, es);
      KeyGroupTag(tag, es[1..], key);
      assert t[0] == GroupCount(es[0].song, tag, es[0].count);
      assert t[1..] == Tag(tag, es[1..]);
      if tag == key {
        assert KeyGroup(t, key) == [es[0]] + es[1..];
      } else {
        assert KeyGroup(t, key) == [] + [];
      }
    }
  }

  /** The key column of a table, row by row. */
  function KeyColumn(table: seq<GroupCount>): seq<string>
  {
    seq(|table|, i requires 0 <= i < |table| => table[i].key)
  }

  /** The keys of a table, in order of first appearance. */
  function TableKeys(table: seq<GroupCount>): (keys: seq<string>)
    ensures Distinct(keys)
    ensures forall key :: key in keys <==> exists g :: g in table && g.key == key
  {
    var all := KeyColumn(table);
    assert forall key :: key in all <==> exists g :: g in table && g.key == key by {
      forall key ensures key in all <==> exists g :: g in table && g.key == key {
        if key in all {
          var i :| 0 <= i < |all| && all[i] == key;
          assert table[i] in table;
        }
        if exists g :: g in table && g.key == key {
          var g :| g in table && g.key == key;
          var i :| 0 <= i < |table| && table[i] == g;
          assert all[i] == key;
        }
      }
    }
    Dedup(all)
  }

  /** Of two keys of the table, the one listed first is the one whose first row comes first. */
  lemma TableKeysOrder(table: seq<GroupCount>)
    ensures forall i, j :: 0 <= i < j < |TableKeys(table)| ==>
      FirstIndex(KeyColumn(table), TableKeys(table)[i]) < FirstIndex(KeyColumn(table), TableKeys(table)[j])
  {
    DedupFirstAppearance(KeyColumn(table));
  }

  /** `groupby(key).apply(nlargest(k))`: for each key in turn, its `k` largest groups, ties
      going to the smaller song id. */
  function TopPerKey(table: seq<GroupCount>, keys: seq<string>, k: nat): seq<GroupCount>
  {
    if keys == [] then []
    else Tag(keys[0], NLargest(KeyGroup(table, keys[0]), k)) + TopPerKey(table, keys[1..], k)
  }

  /** Within the concatenated result, one key's rows are exactly that key's selection. */
  lemma {:induction false} KeyGroupTopPerKey(table: seq<GroupCount>, keys: seq<string>, k: nat, key: string)
    requires Distinct(keys)
    ensures KeyGroup(TopPerKey(table, keys, k), key) ==
      if key in keys then NLargest(KeyGroup(table, key), k) else []
  {
    if keys != [] {
      var head := Tag(keys[0], NLargest(KeyGroup(table, keys[0]), k));
      assert Distinct(keys[1..]);
      KeyGroupTopPerKey(table, keys[1..], k, key);
      KeyGroupConcat(head, TopPerKey(table, keys[1..], k), key);
      KeyGroupTag(keys[0], NLargest(KeyGroup(table, keys[0]), k), key);
      assert key == keys[0] ==> key !in keys[1..];
      assert key in keys <==> key == keys[0] || key in keys[1..];
    }
  }

  /** The whole aggregation over a sequence of stream events. */
  function Aggregate(pairs: seq<Pair>, k: nat): seq<GroupCount>
  {
    var table := GroupCounts(pairs);
    TopPerKey(table, TableKeys(table), k)
  }

  /** The candidates of one key: its songs with their stream counts. */
  function Candidates(pairs: seq<Pair>, key: string): seq<Entry>
  {
    KeyGroup(GroupCounts(pairs), key)
  }

  /** The songs streamed under `key`. */
  function SongsOf(pairs: seq<Pair>, key: string): set<string>
  {
    set p | p in pairs && p.key == key :: p.song
  }

  /** One key's rows of the aggregate are the top-`k` of that key's candidates; a key that
      never occurs has none. */
  lemma AggregateKeyGroup(pairs: seq<Pair>, k: nat, key: string)
    ensures KeyGroup(Aggregate(pairs, k), key) == NLargest(Candidates(pairs, key), k)
  {
    var table := GroupCounts(pairs);
    var keys := TableKeys(table);
    assert Aggregate(pairs, k) == TopPerKey(table, keys, k);
    assert Candidates(pairs, key) == KeyGroup(table, key);
    KeyGroupTopPerKey(table, keys, k, key);
    if key !in keys {
      KeyGroupAbsent(table, key);
      assert NLargest(KeyGroup(table, key), k) == [];
    }
  }

  /** The candidates of a key are its distinct songs, each with its exact stream count. */
  lemma CandidatesSpec(pairs: seq<Pair>, key: string)
    ensures forall e :: e in Candidates(pairs, key) <==>
      Pair(e.song, key) in pairs && e.count == multiset(pairs)[Pair(e.song, key)]
    ensures SongsDistinct(Candidates(pairs, key))
    ensures |Candidates(pairs, key)| == |SongsOf(pairs, key)|
  {
    var c := Candidates(pairs, key);
    KeyGroupMembers(GroupCounts(pairs), key);
    KeyGroupSongsDistinct(GroupCounts(pairs), key);
    var songs := Songs(c);
    assert (set s | s in songs) == SongsOf(pairs, key) by {
      forall s ensures s in songs <==> s in SongsOf(pairs, key) {
        if s in songs {
          var i :| 0 <= i < |songs| && songs[i] == s;
          assert c[i] in c;
        }
        if s in SongsOf(pairs, key) {
          var e := Entry(s, multiset(pairs)[Pair(s, key)]);
          assert e in c;
          var i :| 0 <= i < |c| && c[i] == e;
          assert songs[i] == s;
        }
      }
    }
    DistinctCardinality(songs);
  }

  /** What any top-`k` choice among one key's candidates satisfies, whatever its tie-break:
      `min(k, songs of the key)` entries, each a song of that key with its exact stream count,
      no song twice, and no count below the count of a song left out. */
  lemma SelectionSpec(pairs: seq<Pair>, key: string, k: nat, sel: seq<Entry>)
    requires IsTopK(Candidates(pairs, key), sel, k)
    ensures |sel| == Min(k, |SongsOf(pairs, key)|)
    ensures forall e :: e in sel ==>
      Pair(e.song, key) in pairs && e.count == multiset(pairs)[Pair(e.song, key)] && e.count >= 1
    ensures SongsDistinct(sel)
    ensures forall e, s :: e in sel && s in SongsOf(pairs, key) && s !in Songs(sel) ==>
      e.count >= multiset(pairs)[Pair(s, key)]
  {
    var c := Candidates(pairs, key);
    CandidatesSpec(pairs, key);
    SubmultisetSongsDistinct(sel, c);
    forall e | e in sel
      ensures Pair(e.song, key) in pairs && e.count == multiset(pairs)[Pair(e.song, key)]
    {
      assert e in multiset(c);
    }
    forall e, s | e in sel && s in SongsOf(pairs, key) && s !in Songs(sel)
      ensures e.count >= multiset(pairs)[Pair(s, key)]
    {
      LeftOut(pairs, key, sel, s);
    }
  }

  /** The aggregate restricted to one key is a top-`k` selection of that key's songs, in
      descending count order. */
  lemma AggregateSpec(pairs: seq<Pair>, k: nat, key: string)
    ensures |KeyGroup(Aggregate(pairs, k), key)| == Min(k, |SongsOf(pairs, key)|)
    ensures forall e :: e in KeyGroup(Aggregate(pairs, k), key) ==>
      Pair(e.song, key) in pairs && e.count == multiset(pairs)[Pair(e.song, key)] && e.count >= 1
    ensures SongsDistinct(KeyGroup(Aggregate(pairs, k), key))
    ensures forall e, s ::
      (e in KeyGroup(Aggregate(pairs, k), key) && s in SongsOf(pairs, key) &&
       s !in Songs(KeyGroup(Aggregate(pairs, k), key))) ==> e.count >= multiset(pairs)[Pair(s, key)]
    ensures SortedDesc(KeyGroup(Aggregate(pairs, k), key))
    ensures RankedOrder(KeyGroup(Aggregate(pairs, k), key))
    ensures forall e, s ::
      (e in KeyGroup(Aggregate(pairs, k), key) && s in SongsOf(pairs, key) &&
       s !in Songs(KeyGroup(Aggregate(pairs, k), key)) && e.count == multiset(pairs)[Pair(s, key)]) ==>
      Less(e.song, s)
  {
    AggregateKeyGroup(pairs, k, key);
    SelectionSpec(pairs, key, k, NLargest(Candidates(pairs, key), k));
    SelectionTies(pairs, key, k);
  }

  /** At a tie on the boundary of the selection, the song kept has the smaller id than every
      song of equal count left out. */
  lemma SelectionTies(pairs: seq<Pair>, key: string, k: nat)
    ensures forall e, s ::
      (e in NLargest(Candidates(pairs, key), k) && s in SongsOf(pairs, key) &&
       s !in Songs(NLargest(Candidates(pairs, key), k)) && e.count == multiset(pairs)[Pair(s, key)]) ==>
      Less(e.song, s)
  {
    var c := Candidates(pairs, key);
    var sel := NLargest(c, k);
    CandidatesSpec(pairs, key);
    NLargestKeepsFirst(c, k);
    forall e, s | e in sel && s in SongsOf(pairs, key) && s !in Songs(sel) &&
      e.count == multiset(pairs)[Pair(s, key)]
      ensures Less(e.song, s)
    {
      LeftOut(pairs, key, sel, s);
    }
  }

  /** A song of the key that a selection does not hold is left out with its stream count. */
  lemma LeftOut(pairs: seq<Pair>, key: string, sel: seq<Entry>, s: string)
    requires s in SongsOf(pairs, key) && s !in Songs(sel)
    ensures Entry(s, multiset(pairs)[Pair(s, key)]) in multiset(Candidates(pairs, key)) - multiset(sel)
  {
    var c := Candidates(pairs, key);
    CandidatesSpec(pairs, key);
    var p :| p in pairs && p.key == key && p.song == s;
    var y := Entry(s, multiset(pairs)[Pair(s, key)]);
    assert y in c;
    forall i | 0 <= i < |sel| ensures sel[i] != y {
      assert Songs(sel)[i] != s;
    }
    assert y !in sel;
  }

  /** Every row of the aggregate is a combination that occurs, with its exact stream count. */
  lemma AggregateRows(pairs: seq<Pair>, k: nat)
    ensures forall g :: g in Aggregate(pairs, k) ==>
      PairOf(g) in pairs && g.count == multiset(pairs)[PairOf(g)]
  {
    var out := Aggregate(pairs, k);
    forall g | g in out ensures PairOf(g) in pairs && g.count == multiset(pairs)[PairOf(g)] {
      KeyGroupMembers(out, g.key);
      assert Entry(g.song, g.count) in KeyGroup(out, g.key);
      AggregateSpec(pairs, k, g.key);
    }
  }

  /** Each `(song, key)` combination occurs at most once in the aggregate. */
  lemma AggregateDistinct(pairs: seq<Pair>, k: nat)
    ensures PairsDistinct(Aggregate(pairs, k))
  {
    var table := GroupCounts(pairs);
    TopPerKeyDistinct(table, TableKeys(table), k);
  }

  lemma {:induction false} TopPerKeyDistinct(table: seq<GroupCount>, keys: seq<string>, k: nat)
    requires Distinct(keys) && PairsDistinct(table)
    ensures PairsDistinct(TopPerKey(table, keys, k))
    ensures forall g :: g in TopPerKey(table, keys, k) ==> g.key in keys
  {
    if keys != [] {
      var head := Tag(keys[0], NLargest(KeyGroup(table, keys[0]), k));
      var tail := TopPerKey(table, keys[1..], k);
      assert Distinct(keys[1..]);
      TopPerKeyDistinct(table, keys[1..], k);
      SelectionTagDistinct(table, keys[0], k);
      KeysApart(head, tail, keys[0], keys[1..]);
      PairsDistinctConcat(head, tail);
      assert TopPerKey(table, keys, k) == head + tail;
    }
  }

  /** Rows under `key` and rows under other keys share no combination. */
  lemma KeysApart(head: seq<GroupCount>, tail: seq<GroupCount>, key: string, others: seq<string>)
    requires forall g :: g in head ==> g.key == key
    requires forall g :: g in tail ==> g.key in others
    requires key !in others
    ensures forall x, y :: x in head && y in tail ==> PairOf(x) != PairOf(y)
  {
  }

  /** One key's selection, tagged with the key, repeats no combination. */
  lemma SelectionTagDistinct(table: seq<GroupCount>, key: string, k: nat)
    requires PairsDistinct(table)
    ensures PairsDistinct(Tag(key, NLargest(KeyGroup(table, key), k)))
    ensures forall g :: g in Tag(key, NLargest(KeyGroup(table, key), k)) ==> g.key == key
  {
    var sel := NLargest(KeyGroup(table, key), k);
    KeyGroupSongsDistinct(table, key);
    SubmultisetSongsDistinct(sel, KeyGroup(table, key));
    TagDistinct(key, sel);
  }

  /** Tagging entries with distinct songs gives distinct combinations, all under the tag. */
  lemma TagDistinct(key: string, es: seq<Entry>)
    requires SongsDistinct(es)
    ensures PairsDistinct(Tag(key, es))
    ensures forall g :: g in Tag(key, es) ==> g.key == key
  {
    var t := Tag(key, es);
    forall i, j | 0 <= i < j < |t| ensures PairOf(t[i]) != PairOf(t[j]) {
      assert Songs(es)[i] != Songs(es)[j];
    }
  }

  /** Two tables without distinct combinations and with no combination in common concatenate
      to one without repeated combinations. */
  lemma PairsDistinctConcat(a: seq<GroupCount>, b: seq<GroupCount>)
    requires PairsDistinct(a) && PairsDistinct(b)
    requires forall x, y :: x in a && y in b ==> PairOf(x) != PairOf(y)
    ensures PairsDistinct(a + b)
  {
    var all := a + b;
    forall i, j | 0 <= i < j < |all| ensures PairOf(all[i]) != PairOf(all[j]) {
      if j < |a| {
        assert all[i] == a[i] && all[j] == a[j];
      } else if i < |a| {
        assert all[i] in a && all[j] in b;
      } else {
        assert all[i] == b[i - |a|] && all[j] == b[j - |a|];
      }
    }
  }
}
