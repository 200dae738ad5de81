/**
 * Reading the table: the file is first read without a header, the four
 * columns named positionally; when the `lat` column does not come out
 * numeric the file is read again with its first line as the header, which
 * is then resolved onto the four logical columns.
 */
module Loader {
  import opened Wrappers
  import opened Headers

  /**
   * One CSV field as the CSV reader hands it over: missing (pandas' NaN,
   * which also covers an empty field), or its text together with the number
   * numeric coercion turns that text into, if any.
   */
  datatype Field = Missing | Text(text: string, number: Option<real>)

  /** A row of the table before cleaning: the city and the three coerced numbers, each possibly missing. */
  datatype Row = Row(city: Option<string>, lat: Option<real>, lon: Option<real>, population: Option<real>)

  /** Why the table could not be loaded. */
  datatype LoadError =
    | EmptyFile                               // there is no line to read columns from
    | MissingColumns(columns: seq<Column>)    // header mode and these logical columns are absent

  /** The positional layout of the header-less reading: city, lat, lon, population. */
  const Positional: Layout := Layout(0, 1, 2, 3)

  /** The field in column `k`; a line shorter than that has it missing. */
  function FieldAt(line: seq<Field>, k: nat): Field
  {
    if k < |line| then line[k] else Missing
  }

  /** Numeric coercion with `errors="coerce"`: text that is not a number becomes missing. */
  function Numeric(f: Field): Option<real>
  {
    match f
    case Missing => None
    case Text(_, n) => n
  }

  /** The city column: missing stays missing, anything else is its text. */
  function CityName(f: Field): Option<string>
  {
    match f
    case Missing => None
    case Text(t, _) => Some(t)
  }

  /** One line read through a layout, with the three numeric columns coerced. */
  function ReadRow(line: seq<Field>, layout: Layout): Row
  {
    Row(CityName(FieldAt(line, layout.city)), Numeric(FieldAt(line, layout.lat)),
        Numeric(FieldAt(line, layout.lon)), Numeric(FieldAt(line, layout.population)))
  }

  /**
   * The dtype test on the header-less reading: the `lat` column is numeric
   * when every field in it is missing or a number.
   */
  predicate LatIsNumeric(lines: seq<seq<Field>>)
  {
    forall i :: 0 <= i < |lines| ==> FieldAt(lines[i], 1).Missing? || FieldAt(lines[i], 1).number.Some?
  }

  /**
   * The header names of the first line, one per field; a missing field is
   * named by the empty string, which is no column's name.
   */
  function HeaderNames(line: seq<Field>): (names: seq<string>)
    ensures |names| == |line|
    ensures forall k, c :: 0 <= k < |line| && line[k].Missing? ==> Normalize(names[k]) !in AliasNames(c)
  {
    EmptyNameIsNoColumn();
    seq(|line|, k requires 0 <= k < |line| => match line[k] case Missing => "" case Text(t, _) => t)
  }

  /** The empty header names no column. */
  lemma EmptyNameIsNoColumn()
    ensures forall c :: Normalize("") !in AliasNames(c)
  {
    NormalizeNoLonger("");
    var n := Normalize("");
    assert n == [];
    forall c ensures n !in AliasNames(c) {
      AllColumns(c);
    }
  }

  /**
   * Both readings of the file. Header-less when the `lat` column is numeric:
   * every line is a row, read positionally. Otherwise the first line is the
   * header: loading succeeds exactly when every column has a header among
   * its names, the header line is not a row, and every later line is read
   * through a layout that places each column on the first header naming it;
   * otherwise it fails with exactly the columns no header names.
   */
  function Load(lines: seq<seq<Field>>): (r: Result<seq<Row>, LoadError>)
    ensures r == Failure(EmptyFile) <==> lines == []
    ensures r.Success? <==> lines != [] && (LatIsNumeric(lines) || forall c :: Resolvable(HeaderNames(lines[0]), c))
    ensures r.Failure? && r.error.MissingColumns? ==>
      && lines != [] && !LatIsNumeric(lines) && r.error.columns != []
      && forall c :: c in r.error.columns <==> !Resolvable(HeaderNames(lines[0]), c)
    ensures r.Success? && LatIsNumeric(lines) ==>
      && |r.value| == |lines|
      && forall i :: 0 <= i < |lines| ==> r.value[i] == ReadRow(lines[i], Positional)
    ensures r.Success? && !LatIsNumeric(lines) ==>
      && |r.value| == |lines| - 1
      && exists layout :: && Locates(HeaderNames(lines[0]), layout)
                          && forall i :: 0 <= i < |r.value| ==> r.value[i] == ReadRow(lines[i + 1], layout)
  {
    if lines == [] then
      Failure(EmptyFile)
    else if LatIsNumeric(lines) then
      Success(ReadRows(lines, Positional))
    else
      match ResolveHeaders(HeaderNames(lines[0]))
      case Failure(missing) => Failure(MissingColumns(missing))
      case Success(layout) =>
        var rows := ReadRows(lines[1..], layout);
        assert forall i :: 0 <= i < |rows| ==> rows[i] == ReadRow(lines[i + 1], layout) by {
          forall i | 0 <= i < |rows| ensures rows[i] == ReadRow(lines[i + 1], layout) {
            assert lines[1..][i] == lines[i + 1];
          }
        }
        Success(rows)
  }

  /** Every line read through the same layout. */
  function ReadRows(lines: seq<seq<Field>>, layout: Layout): seq<Row>
  {
    seq(|lines|, i requires 0 <= i < |lines| => ReadRow(lines[i], layout))
  }

  /**
   * A header line whose `lat` header is text that is not a number always
   * switches to header mode, and the header line itself never becomes a row.
   */
  lemma HeaderLineIsNotData(lines: seq<seq<Field>>)
    requires lines != [] && FieldAt(lines[0], 1).Text? && FieldAt(lines[0], 1).number.None?
    ensures Load(lines).Success? ==> |Load(lines).value| == |lines| - 1
  {
    assert !LatIsNumeric(lines) by {
      assert !(FieldAt(lines[0], 1).Missing? || FieldAt(lines[0], 1).number.Some?);
    }
  }

  /**
   * Headers of fewer than four characters or starting with a digit leave the
   * city column unresolved.
   */
  lemma NoCityHeader(names: seq<string>)
    requires forall k :: 0 <= k < |names| ==> |names[k]| < 4 || (names[k] != [] && '0' <= names[k][0] <= '9')
    ensures !Resolvable(names, City)
  {
    var cols := Rename(names);
    forall k | 0 <= k < |cols| ensures cols[k] != Some(City) {
      var n := Normalize(names[k]);
      if |names[k]| < 4 {
        NormalizeNoLonger(names[k]);
        ShortNameIsNoCity(n);
      } else {
        NormalizeKeepsDigit(names[k]);
        DigitNameIsNoColumn(n);
      }
    }
  }

  /** A header-less line whose `lat` field is the text `abc`. */
  const TextLatCsv: seq<seq<Field>> :=
    [[Text("Ely", None), Text("abc", None), Text("0.26", Some(0.26)), Text("20256", Some(20256.0))]]

  /**
   * That one non-numeric `lat` field makes the whole file be read again with
   * its only line as the header, and no header there names the city column,
   * so loading fails rather than dropping the line.
   */
  lemma TextLatLineFails()
    ensures Load(TextLatCsv).Failure? && Load(TextLatCsv).error.MissingColumns?
    ensures City in Load(TextLatCsv).error.columns
  {
    var line := TextLatCsv[0];
    assert !LatIsNumeric(TextLatCsv) by {
      assert FieldAt(line, 1).number.None?;
    }
    var names := HeaderNames(line);
    assert names == ["Ely", "abc", "0.26", "20256"];
    NoCityHeader(names);
  }
}
