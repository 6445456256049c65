/** The country line both pipelines write: `"{key}|"` followed by `song:rank` items joined
    by `,`, ranks counting from 1. The parser is the line's inverse, used to state what the
    line holds. */
module Ranking {
  import opened Base
  import opened Text

  /** One `song:rank` item. */
  datatype Ranked = Ranked(song: string, rank: nat)

  /** A country line read back: its key and its ranked songs. */
  datatype Line = Line(key: string, ranked: seq<Ranked>)

  /** `enumerate(songs)` with ranks `i + 1`. */
  function Numbered(songs: seq<string>): seq<Ranked>
  {
    seq(|songs|, i requires 0 <= i < |songs| => Ranked(songs[i], i + 1))
  }

  /** `f"{song}:{rank}"`. */
  function Item(r: Ranked): string
  {
    r.song + ":" + NatToString(r.rank)
  }

  function Items(rs: seq<Ranked>): seq<string>
  {
    seq(|rs|, i requires 0 <= i < |rs| => Item(rs[i]))
  }

  /** `",".join(f"{song}:{i+1}" for i, song in enumerate(songs))`. */
  function RankedList(songs: seq<string>): string
  {
    Join(Items(Numbered(songs)), ',')
  }

  /** `f"{key}|" + ranked list`. */
  function FormatLine(key: string, songs: seq<string>): string
  {
    key + "|" + RankedList(songs)
  }

  function ParseItem(item: string): Option<Ranked>
  {
    var parts := Split(item, ':');
    if |parts| == 2 && |parts[1]| >= 1 && IsDigits(parts[1]) then Some(Ranked(parts[0], ParseNat(parts[1])))
    else None
  }

  function ParseItems(items: seq<string>): Option<seq<Ranked>>
  {
    if items == [] then Some([])
    else
      match (ParseItem(items[0]), ParseItems(items[1..]))
      case (Some(r), Some(rs)) => Some([r] + rs)
      case _ => None
  }

  function ParseRankedList(s: string): Option<seq<Ranked>>
  {
    if s == "" then Some([]) else ParseItems(Split(s, ','))
  }

  function ParseLine(line: string): Option<Line>
  {
    var parts := Split(line, '|');
    if |parts| != 2 then None
    else
      match ParseRankedList(parts[1])
      case Some(rs) => Some(Line(parts[0], rs))
      case None => None
  }

  /** A song id that holds none of the line's separators. */
  predicate Plain(song: string)
  {
    ',' !in song && ':' !in song && '|' !in song
  }

  lemma ItemRoundTrip(r: Ranked)
    requires Plain(r.song)
    ensures ParseItem(Item(r)) == Some(r)
    ensures ',' !in Item(r) && '|' !in Item(r)
  {
    var digits := NatToString(r.rank);
    assert ':' !in digits && ',' !in digits && '|' !in digits;
    assert Item(r) == r.song + [':'] + digits;
    SplitAfterField(r.song, ':', digits);
    SplitWithoutSeparator(digits, ':');
    ParseNatToString(r.rank);
  }

  lemma {:induction false} ItemsRoundTrip(rs: seq<Ranked>)
    requires forall i :: 0 <= i < |rs| ==> Plain(rs[i].song)
    ensures ParseItems(Items(rs)) == Some(rs)
  {
    if rs != [] {
      ItemsRoundTrip(rs[1..]);
      ItemRoundTrip(rs[0]);
      assert Items(rs)[1..] == Items(rs[1..]);
      assert [rs[0]] + rs[1..] == rs;
    }
  }

  /** Reading back a ranked list gives every song, in order, with ranks `1..n`. */
  lemma RankedListRoundTrip(songs: seq<string>)
    requires forall i :: 0 <= i < |songs| ==> Plain(songs[i])
    ensures ParseRankedList(RankedList(songs)) == Some(Numbered(songs))
    ensures '|' !in RankedList(songs)
  {
    var rs := Numbered(songs);
    var items := Items(rs);
    forall i | 0 <= i < |items| ensures ',' !in items[i] && '|' !in items[i] {
      ItemRoundTrip(rs[i]);
    }
    JoinExcludes(items, ',', '|');
    ItemsRoundTrip(rs);
    if songs != [] {
      SplitJoin(items, ',');
      assert ':' in items[0];
      assert RankedList(songs) != "" by {
        JoinFirst(items, ',');
      }
    }
  }

  lemma JoinFirst(parts: seq<string>, sep: char)
    requires |parts| >= 1
    ensures parts[0] <= Join(parts, sep)
  {
  }

  /** The country line of a key reads back as that key with its songs ranked `1..n` in the
      order given. */
  lemma FormatLineRoundTrip(key: string, songs: seq<string>)
    requires '|' !in key
    requires forall i :: 0 <= i < |songs| ==> Plain(songs[i])
    ensures ParseLine(FormatLine(key, songs)) == Some(Line(key, Numbered(songs)))
  {
    RankedListRoundTrip(songs);
    assert FormatLine(key, songs) == key + ['|'] + RankedList(songs);
    SplitAfterField(key, '|', RankedList(songs));
    SplitWithoutSeparator(RankedList(songs), '|');
  }

  /** A joined text ends with its last piece. */
  lemma JoinEndsWithLast(parts: seq<string>, sep: char)
    requires |parts| >= 1
    ensures |parts[|parts| - 1]| <= |Join(parts, sep)|
    ensures Join(parts, sep)[|Join(parts, sep)| - |parts[|parts| - 1]|..] == parts[|parts| - 1]
  {
    if |parts| >= 2 {
      JoinLast(parts, sep);
    }
  }

  /** The line ends with the last song's rank, `n`: there is no trailing comma. */
  lemma NoTrailingComma(key: string, songs: seq<string>)
    requires |songs| >= 1
    ensures FormatLine(key, songs)[|FormatLine(key, songs)| - 1] != ','
    ensures '0' <= FormatLine(key, songs)[|FormatLine(key, songs)| - 1] <= '9'
  {
    var items := Items(Numbered(songs));
    var last := items[|items| - 1];
    var digits := NatToString(|songs|);
    assert last == songs[|songs| - 1] + ":" + digits;
    assert last[|last| - 1] == digits[|digits| - 1];
    JoinEndsWithLast(items, ',');
    var list := RankedList(songs);
    assert list[|list| - 1] == last[|last| - 1];
    var line := FormatLine(key, songs);
    assert line[|line| - 1] == list[|list| - 1];
  }
}
