/** Small shared vocabulary: optional values, minimum, duplicate-freedom. */
module Base {

  /** A value that may be missing: a null cell of a data frame, or a parse that failed. */
  datatype Option<T> = None | Some(value: T)

  function Min(a: int, b: int): int
  {
    if a <= b then a else b
  }

  /** No element occurs twice. */
  predicate Distinct<T(==)>(s: seq<T>)
  {
    forall i, j :: 0 <= i < j < |s| ==> s[i] != s[j]
  }

  /** The elements of `s` in order of first appearance, each once. */
  function Dedup<T(==, !new)>(s: seq<T>): (d: seq<T>)
    ensures Distinct(d)
    ensures forall x :: x in d <==> x in s
    ensures |d| <= |s|
  {
    if s == [] then []
    else
      var prefix := Dedup(s[..|s| - 1]);
      assert s == s[..|s| - 1] + [s[|s| - 1]];
      if s[|s| - 1] in prefix then prefix else prefix + [s[|s| - 1]]
  }

  /** The position of the first occurrence of `x` in `s`. */
  function FirstIndex<T(==)>(s: seq<T>, x: T): (i: nat)
    requires x in s
    ensures i < |s| && s[i] == x && x !in s[..i]
  {
    if s[0] == x then 0
    else
      var i := 1 + FirstIndex(s[1..], x);
      assert s[..i] == [s[0]] + s[1..][..i - 1];
      i
  }

  /** In a concatenation, an element first occurs in the left part if it occurs there at all. */
  lemma FirstIndexConcat<T>(p: seq<T>, t: seq<T>, x: T)
    requires x in p + t
    ensures FirstIndex(p + t, x) == if x in p then FirstIndex(p, x) else |p| + FirstIndex(t, x)
  {
    var i := FirstIndex(p + t, x);
    if x in p {
      var j := FirstIndex(p, x);
      assert (p + t)[j] == x;
      var pre := (p + t)[..i];
      assert j < i ==> x in pre;
      assert (p + t)[..i] == p[..i];
    } else {
      var j := FirstIndex(t, x);
      assert (p + t)[|p| + j] == x;
      var pre := (p + t)[..i];
      assert i < |p| ==> x in p;
      assert pre[|p|..] == t[..i - |p|];
      assert |p| + j < i ==> x in pre;
    }
  }

  /** `Dedup` lists the elements in the order in which they first occur. */
  lemma {:induction false} DedupFirstAppearance<T(!new)>(s: seq<T>)
    ensures forall i, j :: 0 <= i < j < |Dedup(s)| ==> FirstIndex(s, Dedup(s)[i]) < FirstIndex(s, Dedup(s)[j])
  {
    if s != [] {
      var p, last := s[..|s| - 1], s[|s| - 1];
      var dp := Dedup(p);
      var d := Dedup(s);
      DedupFirstAppearance(p);
      assert s == p + [last];
      forall i, j | 0 <= i < j < |d| ensures FirstIndex(s, d[i]) < FirstIndex(s, d[j]) {
        assert d[i] == dp[i];
        FirstIndexConcat(p, [last], d[i]);
        FirstIndexConcat(p, [last], d[j]);
        if j < |dp| {
          assert d[j] == dp[j];
        } else {
          assert d[j] == last && last !in p;
        }
      }
    }
  }

  /** A duplicate-free sequence has as many elements as its set. */
  lemma {:induction false} DistinctCardinality<T>(s: seq<T>)
    requires Distinct(s)
    ensures |set x | x in s| == |s|
  {
    if s != [] {
      var rest := s[1..];
      assert Distinct(rest);
      DistinctCardinality(rest);
      assert s[0] !in rest;
      assert (set x | x in s) == {s[0]} + (set x | x in rest);
    }
  }

  /** In a duplicate-free sequence every element occurs at most once. */
  lemma {:induction false} DistinctMultiplicity<T>(s: seq<T>, x: T)
    requires Distinct(s)
    ensures multiset(s)[x] <= 1
  {
    if s != [] {
      assert s == [s[0]] + s[1..];
      assert Distinct(s[1..]);
      DistinctMultiplicity(s[1..], x);
      if x == s[0] {
        assert x !in s[1..];
      }
    }
  }

  /** Two positions holding the same value make that value occur at least twice. */
  lemma {:induction false} RepeatedMultiplicity<T>(s: seq<T>, i: nat, j: nat)
    requires i < j < |s| && s[i] == s[j]
    ensures multiset(s)[s[i]] >= 2
  {
    assert s == s[..j] + [s[j]] + s[j + 1..];
    assert s[i] in s[..j];
  }
}
