/** Selection of the K entries with the largest counts inside one partition, as pandas
    `nlargest` and polars `top_k` do it, and the descending sort both formatters apply. */
module TopK {
  import opened Base
  import opened Text

  /** A song of one partition with its number of streams. */
  datatype Entry = Entry(song: string, count: nat)

  function Songs(es: seq<Entry>): (songs: seq<string>)
  {
    seq(|es|, i requires 0 <= i < |es| => es[i].song)
  }

  function Counts(es: seq<Entry>): (counts: seq<nat>)
  {
    seq(|es|, i requires 0 <= i < |es| => es[i].count)
  }

  /** No song occurs twice. */
  predicate SongsDistinct(es: seq<Entry>)
  {
    Distinct(Songs(es))
  }

  /** Counts never increase from left to right. */
  predicate SortedDesc(es: seq<Entry>)
  {
    forall i, j :: 0 <= i < j < |es| ==> es[i].count >= es[j].count
  }

  /** The entries with count `v`, in their order. */
  function WithCount(es: seq<Entry>, v: nat): (r: seq<Entry>)
  {
    if es == [] then []
    else (if es[0].count == v then [es[0]] else []) + WithCount(es[1..], v)
  }

  lemma WithCountCons(e: Entry, es: seq<Entry>, v: nat)
    ensures WithCount([e] + es, v) == (if e.count == v then [e] else []) + WithCount(es, v)
  {
    assert ([e] + es)[1..] == es;
  }

  /** Places `x` before the first entry whose count is not larger than its own. */
  function Insert(x: Entry, sorted: seq<Entry>): (r: seq<Entry>)
    ensures multiset(r) == multiset{x} + multiset(sorted)
  {
    if sorted == [] || sorted[0].count <= x.count then
      [x] + sorted
    else
      assert sorted == [sorted[0]] + sorted[1..];
      [sorted[0]] + Insert(x, sorted[1..])
  }

  /** Inserting into a sorted sequence keeps it sorted. */
  lemma {:induction false} InsertSorted(x: Entry, sorted: seq<Entry>)
    requires SortedDesc(sorted)
    ensures SortedDesc(Insert(x, sorted))
  {
    if sorted != [] && sorted[0].count > x.count {
      var head, tail := sorted[0], sorted[1..];
      var rest := Insert(x, tail);
      InsertSorted(x, tail);
      InsertBounded(x, tail, head.count);
      assert Insert(x, sorted) == [head] + rest;
    }
  }

  /** Inserting keeps every count under a bound that `x` and all of `s` respect. */
  lemma InsertBounded(x: Entry, s: seq<Entry>, bound: nat)
    requires x.count <= bound
    requires forall i :: 0 <= i < |s| ==> s[i].count <= bound
    ensures forall i :: 0 <= i < |Insert(x, s)| ==> Insert(x, s)[i].count <= bound
  {
    var r := Insert(x, s);
    forall i | 0 <= i < |r| ensures r[i].count <= bound {
      assert r[i] in multiset(r);
      if r[i] != x {
        assert r[i] in multiset(s);
      }
    }
  }

  /** Entries of one count keep their order when another entry is inserted. */
  lemma {:induction false} InsertWithCount(x: Entry, sorted: seq<Entry>, v: nat)
    ensures WithCount(Insert(x, sorted), v) ==
      if v == x.count then [x] + WithCount(sorted, v) else WithCount(sorted, v)
  {
    if sorted == [] || sorted[0].count <= x.count {
      WithCountCons(x, sorted, v);
    } else {
      InsertWithCount(x, sorted[1..], v);
      WithCountCons(sorted[0], Insert(x, sorted[1..]), v);
      WithCountCons(sorted[0], sorted[1..], v);
      assert [sorted[0]] + sorted[1..] == sorted;
    }
  }

  /** `sorted(..., key=count, reverse=True)`: a stable sort by non-increasing count. */
  function SortDesc(es: seq<Entry>): (r: seq<Entry>)
    ensures multiset(r) == multiset(es)
    ensures |r| == |es|
    ensures SortedDesc(r)
  {
    if es == [] then []
    else
      var rest := SortDesc(es[1..]);
      assert es == [es[0]] + es[1..];
      var r := Insert(es[0], rest);
      InsertSorted(es[0], rest);
      assert |r| == |multiset(r)|;
      r
  }

  /** The sort is stable: the entries of each count appear in their input order. */
  lemma {:induction false} SortDescStable(es: seq<Entry>, v: nat)
    ensures WithCount(SortDesc(es), v) == WithCount(es, v)
  {
    if es != [] {
      var head, tail := es[0], es[1..];
      var sortedTail := SortDesc(tail);
      assert SortDesc(es) == Insert(head, sortedTail);
      SortDescStable(tail, v);
      InsertWithCount(head, sortedTail, v);
      var pre := if head.count == v then [head] else [];
      assert WithCount(SortDesc(es), v) == pre + WithCount(tail, v);
      assert WithCount(es, v) == pre + WithCount(tail, v);
    }
  }

  /** Sorting an already sorted sequence changes nothing. */
  lemma {:induction false} SortDescOfSorted(es: seq<Entry>)
    requires SortedDesc(es)
    ensures SortDesc(es) == es
  {
    if es != [] {
      SortDescOfSorted(es[1..]);
      assert es == [es[0]] + es[1..];
    }
  }

  /** `sel` is a possible outcome of picking the `k` largest counts of `c`: a sub-multiset of
      `c` with `min(k, |c|)` entries, none of whose counts is below a count left out. Ties at
      the boundary may go either way. */
  predicate IsTopK(c: seq<Entry>, sel: seq<Entry>, k: nat)
  {
    && multiset(sel) <= multiset(c)
    && |sel| == Min(k, |c|)
    && forall x, y :: x in sel && y in multiset(c) - multiset(sel) ==> x.count >= y.count
  }

  /** A sorted sequence's first `min(k, |s|)` entries are a top-`k` selection of any
      permutation of it. */
  lemma SortedPrefixTopK(s: seq<Entry>, c: seq<Entry>, k: nat)
    requires SortedDesc(s) && multiset(s) == multiset(c)
    ensures IsTopK(c, s[..Min(k, |s|)], k)
  {
    var n := Min(k, |s|);
    var top, bottom := s[..n], s[n..];
    assert s == top + bottom;
    assert multiset(s) == multiset(top) + multiset(bottom);
    assert |c| == |multiset(c)| == |multiset(s)| == |s|;
    assert multiset(c) - multiset(top) == multiset(bottom);
    PrefixDominates(s, n);
  }

  /** In a sorted sequence every entry before position `n` has a count at least that of
      every entry from `n` on. */
  lemma PrefixDominates(s: seq<Entry>, n: nat)
    requires SortedDesc(s) && n <= |s|
    ensures forall x, y :: x in s[..n] && y in multiset(s[n..]) ==> x.count >= y.count
  {
    forall x, y | x in s[..n] && y in multiset(s[n..]) ensures x.count >= y.count {
      var i :| 0 <= i < n && s[i] == x;
      var j :| n <= j < |s| && s[j] == y;
    }
  }

  /** `nlargest(k)` with `keep='first'`: the `k` largest counts in descending order, an earlier
      entry winning a tie. */
  function SelectTop(c: seq<Entry>, k: nat): (sel: seq<Entry>)
    ensures IsTopK(c, sel, k)
    ensures SortedDesc(sel)
  {
    var s := SortDesc(c);
    SortedPrefixTopK(s, c, k);
    s[..Min(k, |s|)]
  }

  /** Songs never decrease from left to right (Python's string order). */
  predicate SongsAscending(es: seq<Entry>)
  {
    forall i, j :: 0 <= i < j < |es| ==> !Less(es[j].song, es[i].song)
  }

  /** Places `x` before the first entry whose song is not below its own. */
  function InsertBySong(x: Entry, sorted: seq<Entry>): (r: seq<Entry>)
    ensures multiset(r) == multiset{x} + multiset(sorted)
  {
    if sorted == [] || !Less(sorted[0].song, x.song) then
      [x] + sorted
    else
      assert sorted == [sorted[0]] + sorted[1..];
      [sorted[0]] + InsertBySong(x, sorted[1..])
  }

  /** Every song of `s`, and the song of `x`, at least `low` stays so after inserting. */
  lemma InsertBySongBounded(x: Entry, s: seq<Entry>, low: string)
    requires !Less(x.song, low)
    requires forall i :: 0 <= i < |s| ==> !Less(s[i].song, low)
    ensures forall i :: 0 <= i < |InsertBySong(x, s)| ==> !Less(InsertBySong(x, s)[i].song, low)
  {
    var r := InsertBySong(x, s);
    forall i | 0 <= i < |r| ensures !Less(r[i].song, low) {
      assert r[i] in multiset(r);
      if r[i] != x {
        assert r[i] in multiset(s);
      }
    }
  }

  /** Inserting into a song-ordered sequence keeps it song-ordered. */
  lemma {:induction false} InsertBySongAscending(x: Entry, sorted: seq<Entry>)
    requires SongsAscending(sorted)
    ensures SongsAscending(InsertBySong(x, sorted))
  {
    if sorted == [] {
    } else if !Less(sorted[0].song, x.song) {
      forall j | 0 <= j < |sorted| ensures !Less(sorted[j].song, x.song) {
        if j > 0 {
          AtMostTransitive(x.song, sorted[0].song, sorted[j].song);
        }
      }
    } else {
      var head, tail := sorted[0], sorted[1..];
      InsertBySongAscending(x, tail);
      LessAsymmetric(head.song, x.song);
      InsertBySongBounded(x, tail, head.song);
      assert InsertBySong(x, sorted) == [head] + InsertBySong(x, tail);
    }
  }

  /** The candidates of a key in ascending song order, as `groupby` on the song column
      delivers them. */
  function SortBySong(es: seq<Entry>): (r: seq<Entry>)
    ensures multiset(r) == multiset(es)
    ensures |r| == |es|
    ensures SongsAscending(r)
  {
    if es == [] then []
    else
      var rest := SortBySong(es[1..]);
      assert es == [es[0]] + es[1..];
      var r := InsertBySong(es[0], rest);
      InsertBySongAscending(es[0], rest);
      assert |r| == |multiset(r)|;
      r
  }

  /** `a` may stand before `b`: a larger count, or the same count and a song not above. */
  predicate RankedBefore(a: Entry, b: Entry)
  {
    a.count > b.count || (a.count == b.count && !Less(b.song, a.song))
  }

  /** Non-increasing counts, and among equal counts non-decreasing songs. */
  predicate RankedOrder(es: seq<Entry>)
  {
    forall i, j :: 0 <= i < j < |es| ==> RankedBefore(es[i], es[j])
  }

  /** Inserting by count an entry whose song is at most every song already placed keeps the
      ranked order. */
  lemma {:induction false} InsertRanked(x: Entry, sorted: seq<Entry>)
    requires RankedOrder(sorted)
    requires forall i :: 0 <= i < |sorted| ==> !Less(sorted[i].song, x.song)
    ensures RankedOrder(Insert(x, sorted))
  {
    if sorted != [] && sorted[0].count > x.count {
      var head, tail := sorted[0], sorted[1..];
      InsertRanked(x, tail);
      InsertAfter(head, x, tail);
      assert Insert(x, sorted) == [head] + Insert(x, tail);
    }
  }

  /** An entry ranked before `x` and before all of `s` is ranked before all of `Insert(x, s)`. */
  lemma InsertAfter(head: Entry, x: Entry, s: seq<Entry>)
    requires RankedBefore(head, x)
    requires forall i :: 0 <= i < |s| ==> RankedBefore(head, s[i])
    ensures forall i :: 0 <= i < |Insert(x, s)| ==> RankedBefore(head, Insert(x, s)[i])
  {
    var r := Insert(x, s);
    forall i | 0 <= i < |r| ensures RankedBefore(head, r[i]) {
      assert r[i] in multiset(r);
      if r[i] != x {
        assert r[i] in multiset(s);
      }
    }
  }

  /** Stable sorting by count of a song-ordered sequence ranks equal counts by song. */
  lemma {:induction false} SortDescRanked(es: seq<Entry>)
    requires SongsAscending(es)
    ensures RankedOrder(SortDesc(es))
  {
    if es != [] {
      var head, tail := es[0], es[1..];
      var sortedTail := SortDesc(tail);
      assert SongsAscending(tail);
      SortDescRanked(tail);
      forall i | 0 <= i < |sortedTail| ensures !Less(sortedTail[i].song, head.song) {
        assert sortedTail[i] in multiset(tail);
        var m :| 0 <= m < |tail| && tail[m] == sortedTail[i];
        assert es[m + 1] == tail[m];
      }
      InsertRanked(head, sortedTail);
      assert SortDesc(es) == Insert(head, sortedTail);
    }
  }

  /** `nlargest(k)` with `keep='first'` on the song-ordered candidates: the `k` largest counts,
      ranked by count and then by song. */
  function NLargest(c: seq<Entry>, k: nat): (sel: seq<Entry>)
    ensures IsTopK(c, sel, k)
    ensures SortedDesc(sel)
    ensures RankedOrder(sel)
  {
    var ordered := SortBySong(c);
    var sel := SelectTop(ordered, k);
    SortDescRanked(ordered);
    assert sel == SortDesc(ordered)[..|sel|];
    sel
  }

  /** At a tied boundary `keep='first'` keeps the smaller song ids: a kept entry and a left-out
      entry of the same count have the kept song below the other. */
  lemma NLargestKeepsFirst(c: seq<Entry>, k: nat)
    requires SongsDistinct(c)
    ensures forall e, x ::
      (e in NLargest(c, k) && x in multiset(c) - multiset(NLargest(c, k)) && e.count == x.count) ==>
      Less(e.song, x.song)
  {
    var ordered := SortBySong(c);
    var s := SortDesc(ordered);
    var sel := NLargest(c, k);
    var n := |sel|;
    SortDescRanked(ordered);
    assert sel == s[..n];
    PrefixRest(s, n);
    SubmultisetSongsDistinct(s, c);
    RankedPrefixFirst(s, n);
  }

  /** What a prefix leaves of a sequence is its suffix. */
  lemma PrefixRest(s: seq<Entry>, n: nat)
    requires n <= |s|
    ensures multiset(s) - multiset(s[..n]) == multiset(s[n..])
  {
    assert s == s[..n] + s[n..];
  }

  /** In a ranked sequence of distinct songs, an entry before position `n` and an entry from
      `n` on with the same count have the earlier song below the later one. */
  lemma RankedPrefixFirst(s: seq<Entry>, n: nat)
    requires RankedOrder(s) && SongsDistinct(s) && n <= |s|
    ensures forall e, x ::
      (e in s[..n] && x in multiset(s[n..]) && e.count == x.count) ==> Less(e.song, x.song)
  {
    forall e, x | e in s[..n] && x in multiset(s[n..]) && e.count == x.count
      ensures Less(e.song, x.song)
    {
      var i :| 0 <= i < n && s[i] == e;
      var j :| n <= j < |s| && s[j] == x;
      assert Songs(s)[i] != Songs(s)[j];
      LessTotal(e.song, x.song);
    }
  }

  /** The entries with a count above `v`, in their order. */
  function Above(es: seq<Entry>, v: int): seq<Entry>
  {
    if es == [] then []
    else (if es[0].count > v then [es[0]] else []) + Above(es[1..], v)
  }

  /** `Above` keeps every copy of an entry above the threshold and no other. */
  lemma {:induction false} AboveMultiplicity(es: seq<Entry>, v: int, e: Entry)
    ensures multiset(Above(es, v))[e] == if e.count > v then multiset(es)[e] else 0
  {
    if es != [] {
      AboveMultiplicity(es[1..], v, e);
      assert es == [es[0]] + es[1..];
    }
  }

  lemma AboveSubmultiset(a: seq<Entry>, b: seq<Entry>, v: int)
    requires multiset(a) <= multiset(b)
    ensures |Above(a, v)| <= |Above(b, v)|
  {
    forall e ensures multiset(Above(a, v))[e] <= multiset(Above(b, v))[e] {
      AboveMultiplicity(a, v, e);
      AboveMultiplicity(b, v, e);
    }
    CardinalityMonotone(multiset(Above(a, v)), multiset(Above(b, v)));
  }

  lemma CardinalityMonotone(a: multiset<Entry>, b: multiset<Entry>)
    requires a <= b
    ensures |a| <= |b|
  {
    assert b == a + (b - a);
  }

  /** Entries of count exactly `v` are those above `v - 1` and not above `v`. */
  lemma {:induction false} CountMultiplicity(es: seq<Entry>, v: nat)
    ensures multiset(Counts(es))[v] == |Above(es, v - 1)| - |Above(es, v)|
  {
    if es != [] {
      CountMultiplicity(es[1..], v);
      assert Counts(es) == [es[0].count] + Counts(es[1..]);
      assert multiset(Counts(es))[v] == (if es[0].count == v then 1 else 0) + multiset(Counts(es[1..]))[v];
    }
  }

  lemma {:induction false} AboveAtMost(es: seq<Entry>, v: int)
    ensures |Above(es, v)| <= |es|
  {
    if es != [] {
      AboveAtMost(es[1..], v);
    }
  }

  lemma {:induction false} AboveAll(es: seq<Entry>, v: int)
    requires forall e :: e in es ==> e.count > v
    ensures |Above(es, v)| == |es|
  {
    if es != [] {
      AboveAll(es[1..], v);
    }
  }

  /** How many selected counts exceed `v` depends only on `c`, `v` and the selection size. */
  lemma TopKAbove(c: seq<Entry>, sel: seq<Entry>, k: nat, v: int)
    requires IsTopK(c, sel, k)
    ensures |Above(sel, v)| == Min(|sel|, |Above(c, v)|)
  {
    var rest := multiset(c) - multiset(sel);
    AboveSubmultiset(sel, c, v);
    AboveAtMost(sel, v);
    if y :| y in rest && y.count > v {
      AboveAll(sel, v);
    } else {
      forall e ensures multiset(Above(c, v))[e] <= multiset(Above(sel, v))[e] {
        AboveMultiplicity(sel, v, e);
        AboveMultiplicity(c, v, e);
        assert !(e in rest && e.count > v);
      }
      CardinalityMonotone(multiset(Above(c, v)), multiset(Above(sel, v)));
    }
  }

  /** Whatever the tie-break, two top-`k` selections of the same entries select the same
      multiset of counts: only which songs are picked at a tied boundary may differ. */
  lemma TopKCountsAgree(c: seq<Entry>, s1: seq<Entry>, s2: seq<Entry>, k: nat)
    requires IsTopK(c, s1, k) && IsTopK(c, s2, k)
    ensures multiset(Counts(s1)) == multiset(Counts(s2))
  {
    forall v: nat ensures multiset(Counts(s1))[v] == multiset(Counts(s2))[v] {
      TopKAbove(c, s1, k, v - 1);
      TopKAbove(c, s1, k, v);
      TopKAbove(c, s2, k, v - 1);
      TopKAbove(c, s2, k, v);
      CountMultiplicity(s1, v);
      CountMultiplicity(s2, v);
    }
  }

  /** A selection drawn from entries with distinct songs has distinct songs. */
  lemma SubmultisetSongsDistinct(sel: seq<Entry>, c: seq<Entry>)
    requires multiset(sel) <= multiset(c)
    requires SongsDistinct(c)
    ensures SongsDistinct(sel)
  {
    assert Distinct(c) by {
      forall i, j | 0 <= i < j < |c| ensures c[i] != c[j] {
        assert Songs(c)[i] != Songs(c)[j];
      }
    }
    forall i, j | 0 <= i < j < |sel| ensures Songs(sel)[i] != Songs(sel)[j] {
      if sel[i] == sel[j] {
        RepeatedMultiplicity(sel, i, j);
        DistinctMultiplicity(c, sel[i]);
      } else {
        assert sel[i] in multiset(c) && sel[j] in multiset(c);
        var a :| 0 <= a < |c| && c[a] == sel[i];
        var b :| 0 <= b < |c| && c[b] == sel[j];
        assert Songs(c)[a] == sel[i].song && Songs(c)[b] == sel[j].song;
      }
    }
  }
}
