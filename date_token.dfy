/** `extract_date_from_path`, which has the same body in the pandas and the polars
    pipeline: the run's date token that names every output artifact. */
module DateToken {
  import opened Text

  /** The file name without directory and without anything from its first `.` on. */
  function Stem(path: string): (stem: string)
    ensures '/' !in stem && '.' !in stem
    ensures stem <= Basename(path)
    ensures |stem| < |Basename(path)| ==> Basename(path)[|stem|] == '.'
  {
    FirstField(Basename(path), '.')
  }

  /** The date token: the text of the stem after its last `-`, or the whole stem when it
      has no `-`. */
  function ExtractDateFromPath(path: string): (token: string)
    ensures '-' !in token && '.' !in token && '/' !in token
    ensures |token| <= |Stem(path)| && Stem(path)[|Stem(path)| - |token|..] == token
    ensures |token| < |Stem(path)| ==> Stem(path)[|Stem(path)| - |token| - 1] == '-'
    ensures '-' !in Stem(path) ==> token == Stem(path)
  {
    var stem := Stem(path);
    var token := LastField(stem, '-');
    SuffixExcludes(stem, |stem| - |token|, '.');
    SuffixExcludes(stem, |stem| - |token|, '/');
    token
  }

  /** A character missing from a text is missing from its suffixes. */
  lemma SuffixExcludes(s: string, k: nat, c: char)
    requires k <= |s| && c !in s
    ensures c !in s[k..]
  {
    forall i | 0 <= i < |s| - k
      ensures s[k..][i] != c
    {
      assert s[k + i] in s;
    }
  }

  /** The first separator of its kind in `a + [sep] + b` is the one after `a`. */
  lemma FirstFieldAt(a: string, sep: char, b: string)
    requires sep !in a
    ensures FirstField(a + [sep] + b, sep) == a
  {
    var s := a + [sep] + b;
    var f := FirstField(s, sep);
    assert s[..|a|] == a;
    // `f` stops at a separator, so it cannot run past `a` ...
    PrefixCovers(f, s, |a|);
    // ... and `a` holds none, so it cannot stop inside `a`.
    assert |f| < |a| ==> sep in a;
    assert f == s[..|f|];
  }

  /** The last separator of its kind in `a + [sep] + b` is the one before `b`. */
  lemma LastFieldAt(a: string, sep: char, b: string)
    requires sep !in b
    ensures LastField(a + [sep] + b, sep) == b
  {
    var s := a + [sep] + b;
    var f := LastField(s, sep);
    assert s[|s| - |b|..] == b;
    // `f` starts after a separator, so it cannot reach back past `b` ...
    SuffixCovers(f, s, |a|);
    // ... and `b` holds none, so it cannot start inside `b`.
    assert |f| < |b| ==> sep in b;
  }

  /** A prefix longer than `k` holds the character at `k`. */
  lemma PrefixCovers(f: string, s: string, k: nat)
    requires f <= s && k < |s|
    ensures |f| > k ==> s[k] in f
  {
    if |f| > k {
      assert f[k] == s[k];
    }
  }

  /** A suffix starting at or before `k` holds the character at `k`. */
  lemma SuffixCovers(f: string, s: string, k: nat)
    requires |f| <= |s| && s[|s| - |f|..] == f && k < |s|
    ensures |s| - |f| <= k ==> s[k] in f
  {
    if |s| - |f| <= k {
      assert f[k - (|s| - |f|)] == s[k];
    }
  }

  /** A bare file name `<prefix>-<date>.<extension>` gives `<date>` when the date holds no
      `-` and none of the parts holds a `/`, nor the prefix and the date a `.`. */
  lemma BareDatedName(prefix: string, date: string, ext: string)
    requires '/' !in prefix && '/' !in date && '/' !in ext
    requires '.' !in prefix && '.' !in date
    requires '-' !in date
    ensures ExtractDateFromPath(prefix + "-" + date + "." + ext) == date
  {
    var stem := prefix + "-" + date;
    var name := stem + "." + ext;
    assert '/' !in name;
    assert Basename(name) == name;
    assert name == stem + ['.'] + ext;
    FirstFieldAt(stem, '.', ext);
    assert stem == prefix + ['-'] + date;
    LastFieldAt(prefix, '-', date);
  }

  /** The same name under a directory gives the same token. */
  lemma DatedName(dir: string, prefix: string, date: string, ext: string)
    requires '/' !in prefix && '/' !in date && '/' !in ext
    requires '.' !in prefix && '.' !in date
    requires '-' !in date
    ensures ExtractDateFromPath(dir + "/" + prefix + "-" + date + "." + ext) == date
  {
    var name := prefix + "-" + date + "." + ext;
    assert dir + "/" + prefix + "-" + date + "." + ext == dir + ['/'] + name;
    LastFieldAt(dir, '/', name);
    assert name == (prefix + "-" + date) + ['.'] + ext;
    FirstFieldAt(prefix + "-" + date, '.', ext);
    assert prefix + "-" + date == prefix + ['-'] + date;
    LastFieldAt(prefix, '-', date);
  }

  /** A file name with no `-` before its first `.` gives its whole stem. */
  lemma UndatedName(dir: string, stem: string, ext: string)
    requires '/' !in stem && '/' !in ext
    requires '.' !in stem && '-' !in stem
    ensures ExtractDateFromPath(dir + "/" + stem + "." + ext) == stem
  {
    var name := stem + "." + ext;
    assert dir + "/" + stem + "." + ext == dir + ['/'] + name;
    LastFieldAt(dir, '/', name);
    assert name == stem + ['.'] + ext;
    FirstFieldAt(stem, '.', ext);
  }

  /** A bare file name `sample_data-20230101.log` gives `20230101`. */
  lemma BareFileName()
    ensures ExtractDateFromPath("sample_data-20230101.log") == "20230101"
  {
    var prefix, date, ext := "sample_data", "20230101", "log";
    assert "sample_data-20230101.log" == prefix + "-" + date + "." + ext;
    BareDatedName(prefix, date, ext);
  }

  /** `/a/b/c-99.csv` gives `99`. */
  lemma NestedPath()
    ensures ExtractDateFromPath("/a/b/c-99.csv") == "99"
  {
    var dir, prefix, date, ext := "/a/b", "c", "99", "csv";
    assert "/a/b/c-99.csv" == dir + "/" + prefix + "-" + date + "." + ext;
    DatedName(dir, prefix, date, ext);
  }

  /** The file name the integration test writes, `./output/sample_data_20230101.log`, has
      no `-`, so the whole stem `sample_data_20230101` comes back, not `20230101`. */
  lemma TestFileName()
    ensures ExtractDateFromPath("./output/sample_data_20230101.log") == "sample_data_20230101"
    ensures ExtractDateFromPath("./output/sample_data_20230101.log") != "20230101"
  {
    var dir, stem, ext := "./output", "sample_data_20230101", "log";
    assert "./output/sample_data_20230101.log" == dir + "/" + stem + "." + ext;
    TestStemHasNoSeparator();
    assert '/' !in ext;
    UndatedName(dir, stem, ext);
  }

  /** The test's stem holds none of the three separators. */
  lemma TestStemHasNoSeparator()
    ensures var stem := "sample_data_20230101"; '/' !in stem && '.' !in stem && '-' !in stem
  {
  }
}
