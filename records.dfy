/** Stream records as both loaders produce them, and the row filters of the quality check. */
module Records {
  import opened Base

  /** One line of the log: song id, user id, country; a null-marker field is `None`. */
  datatype Row = Row(song: Option<string>, user: Option<string>, country: Option<string>)

  /** The field texts both loaders read as a missing value. */
  const NullTokens: set<string> := {"NaN", "null", "nan", "Nan", "NA", ""}

  /** One field as the loader reads it: a null marker becomes `None`, any other text is kept. */
  function ReadField(token: string): (f: Option<string>)
    ensures f == None <==> token in NullTokens
    ensures f != None ==> f == Some(token)
  {
    if token in NullTokens then None else Some(token)
  }

  /** A three-field line as the loader reads it. */
  function ReadRow(song: string, user: string, country: string): Row
  {
    Row(ReadField(song), ReadField(user), ReadField(country))
  }

  /** The country length test of the quality check (a null country never passes it). */
  predicate HasTwoCharCountry(r: Row)
  {
    r.country.Some? && |r.country.value| == 2
  }

  /** No field of the row is null. */
  predicate NoNullField(r: Row)
  {
    r.song.Some? && r.user.Some? && r.country.Some?
  }

  /** A row the quality check accepts. */
  predicate IsValid(r: Row)
  {
    NoNullField(r) && HasTwoCharCountry(r)
  }

  /** Keeps, in order, the rows whose country has exactly two characters. */
  function FilterCountryLength(rows: seq<Row>): (kept: seq<Row>)
    ensures forall r :: multiset(kept)[r] == if HasTwoCharCountry(r) then multiset(rows)[r] else 0
    ensures |kept| <= |rows|
  {
    if rows == [] then []
    else
      assert rows == [rows[0]] + rows[1..];
      (if HasTwoCharCountry(rows[0]) then [rows[0]] else []) + FilterCountryLength(rows[1..])
  }

  /** Keeps, in order, the rows with no null field. */
  function DropNulls(rows: seq<Row>): (kept: seq<Row>)
    ensures forall r :: multiset(kept)[r] == if NoNullField(r) then multiset(rows)[r] else 0
    ensures |kept| <= |rows|
  {
    if rows == [] then []
    else
      assert rows == [rows[0]] + rows[1..];
      (if NoNullField(rows[0]) then [rows[0]] else []) + DropNulls(rows[1..])
  }

  /** The two filters commute: either order keeps the same rows in the same order. */
  lemma {:induction false} FiltersCommute(rows: seq<Row>)
    ensures DropNulls(FilterCountryLength(rows)) == FilterCountryLength(DropNulls(rows))
  {
    if rows != [] {
      FiltersCommute(rows[1..]);
      var r, rest := rows[0], rows[1..];
      var head := if IsValid(r) then [r] else [];
      var left := FilterCountryLength(rest);
      var right := DropNulls(rest);
      if HasTwoCharCountry(r) {
        assert FilterCountryLength(rows) == [r] + left;
        DropNullsCons(r, left);
      } else {
        assert FilterCountryLength(rows) == left;
      }
      assert DropNulls(FilterCountryLength(rows)) == head + DropNulls(left);
      if NoNullField(r) {
        assert DropNulls(rows) == [r] + right;
        FilterCountryLengthCons(r, right);
      } else {
        assert DropNulls(rows) == right;
      }
      assert FilterCountryLength(DropNulls(rows)) == head + FilterCountryLength(right);
    }
  }

  lemma DropNullsCons(r: Row, rows: seq<Row>)
    ensures DropNulls([r] + rows) == (if NoNullField(r) then [r] else []) + DropNulls(rows)
  {
    assert ([r] + rows)[1..] == rows;
  }

  lemma FilterCountryLengthCons(r: Row, rows: seq<Row>)
    ensures FilterCountryLength([r] + rows) == (if HasTwoCharCountry(r) then [r] else []) + FilterCountryLength(rows)
  {
    assert ([r] + rows)[1..] == rows;
  }

  /** `NA` is one of the null markers, so a row whose country is `NA` never passes the
      quality check, whatever its other fields. */
  lemma NaCountryIsNull(song: string, user: string)
    ensures !IsValid(ReadRow(song, user, "NA"))
  {
  }

  /** A line passes the quality check exactly when none of its fields is a null marker and
      its country has two characters. */
  lemma ReadRowValid(song: string, user: string, country: string)
    ensures IsValid(ReadRow(song, user, country)) <==>
      song !in NullTokens && user !in NullTokens && country !in NullTokens && |country| == 2
  {
  }
}
