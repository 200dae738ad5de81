/**
 * Header resolution for a CSV file that does have a header line: every
 * header is stripped of surrounding whitespace and lower-cased, renamed
 * through a fixed alias table onto the four logical columns, and the four
 * columns are then selected; selection fails when any of them is absent.
 */
module Headers {
  import opened Wrappers

  /** The four logical columns the converter works with. */
  datatype Column = City | Lat | Lon | Population

  /** Where each logical column sits among the file's columns. */
  datatype Layout = Layout(city: nat, lat: nat, lon: nat, population: nat)

  /** The characters for which Python's `str.isspace` holds. */
  const Whitespace: set<char> :=
    {' ', '\t', '\n', '\U{0B}', '\U{0C}', '\r', '\U{1C}', '\U{1D}', '\U{1E}', '\U{1F}',
     '\U{85}', '\U{A0}', '\U{1680}', '\U{2000}', '\U{2001}', '\U{2002}', '\U{2003}',
     '\U{2004}', '\U{2005}', '\U{2006}', '\U{2007}', '\U{2008}', '\U{2009}', '\U{200A}',
     '\U{2028}', '\U{2029}', '\U{202F}', '\U{205F}', '\U{3000}'}

  /** Drops leading characters of `ws`: what is left is a suffix that does not start with one. */
  function TrimStart(s: string, ws: set<char>): (r: string)
    ensures |r| <= |s| && r == s[|s| - |r|..]
    ensures forall k :: 0 <= k < |s| - |r| ==> s[k] in ws
    ensures r != [] ==> r[0] !in ws
  {
    if s != [] && s[0] in ws then TrimStart(s[1..], ws) else s
  }

  /** Drops trailing characters of `ws`: what is left is a prefix that does not end with one. */
  function TrimEnd(s: string, ws: set<char>): (r: string)
    ensures |r| <= |s| && r == s[..|r|]
    ensures forall k :: |r| <= k < |s| ==> s[k] in ws
    ensures r != [] ==> r[|r| - 1] !in ws
  {
    if s != [] && s[|s| - 1] in ws then TrimEnd(s[..|s| - 1], ws) else s
  }

  /**
   * Python's `str.strip`: the result is a contiguous part of `s`, everything
   * cut away on either side belongs to `ws`, and the result neither starts
   * nor ends with a character of `ws`.
   */
  function Strip(s: string, ws: set<char>): (r: string)
    ensures r == [] || (r[0] !in ws && r[|r| - 1] !in ws)
    ensures var i := |s| - |TrimStart(s, ws)|;
      && i + |r| <= |s| && r == s[i..i + |r|]
      && (forall k :: 0 <= k < i ==> s[k] in ws)
      && (forall k :: i + |r| <= k < |s| ==> s[k] in ws)
  {
    var t := TrimStart(s, ws);
    var r := TrimEnd(t, ws);
    TrimmedSlice(s, t, r, |s| - |t|, ws);
    r
  }

  /** A prefix `r` of the suffix `t` of `s`, trimmed at both ends, is a slice of `s` with only `ws` after it. */
  lemma TrimmedSlice(s: string, t: string, r: string, i: nat, ws: set<char>)
    requires i <= |s| && t == s[i..] && |r| <= |t| && r == t[..|r|]
    requires t != [] ==> t[0] !in ws
    requires r != [] ==> r[|r| - 1] !in ws
    requires forall k :: |r| <= k < |t| ==> t[k] in ws
    ensures r == [] || (r[0] !in ws && r[|r| - 1] !in ws)
    ensures i + |r| <= |s| && r == s[i..i + |r|]
    ensures forall k :: i + |r| <= k < |s| ==> s[k] in ws
  {
    forall k | i + |r| <= k < |s| ensures s[k] in ws {
      assert s[k] == t[k - i];
    }
  }


  /** ASCII lower-casing of one character. */
  function LowerChar(c: char): (r: char)
    ensures !('A' <= r <= 'Z')
    ensures 'A' <= c <= 'Z' ==> r as int == c as int + 32
    ensures !('A' <= c <= 'Z') ==> r == c
  {
    if 'A' <= c <= 'Z' then (c as int - 'A' as int + 'a' as int) as char else c
  }

  /** `str.lower()` on the letters the alias table uses: no upper-case ASCII letter remains. */
  function Lower(s: string): (r: string)
    ensures |r| == |s|
    ensures forall i :: 0 <= i < |r| ==> !('A' <= r[i] <= 'Z')
    ensures forall i :: 0 <= i < |s| && 'A' <= s[i] <= 'Z' ==> r[i] as int == s[i] as int + 32
    ensures forall i :: 0 <= i < |s| && !('A' <= s[i] <= 'Z') ==> r[i] == s[i]
  {
    seq(|s|, i requires 0 <= i < |s| => LowerChar(s[i]))
  }

  /** `c.strip().lower()`, applied to every header. */
  function Normalize(header: string): string
  {
    Lower(Strip(header, Whitespace))
  }

  /** The alias table of the `rename` call; any other name is left as it is. */
  function Alias(name: string): Option<Column>
  {
    if name == "city" || name == "name" then Some(City)
    else if name == "latitude" || name == "lat" then Some(Lat)
    else if name == "longitude" || name == "lon" then Some(Lon)
    else if name == "population" || name == "pop" then Some(Population)
    else None
  }

  /** The names the alias table maps onto each logical column. */
  function AliasNames(c: Column): set<string>
  {
    match c
    case City => {"city", "name"}
    case Lat => {"latitude", "lat"}
    case Lon => {"longitude", "lon"}
    case Population => {"population", "pop"}
  }

  /** The alias table read as name sets: a name renames to `c` exactly when it is one of `c`'s names. */
  lemma AliasIsTable(name: string)
    ensures forall c :: Alias(name) == Some(c) <==> name in AliasNames(c)
  {
    forall c ensures Alias(name) == Some(c) <==> name in AliasNames(c) {
      AllColumns(c);
    }
  }

  /**
   * The logical column each header is renamed to: the column among whose
   * names the normalised header is, and none when it is no column's name.
   */
  function Rename(headers: seq<string>): (cols: seq<Option<Column>>)
    ensures |cols| == |headers|
    ensures forall k, c :: 0 <= k < |headers| ==> (cols[k] == Some(c) <==> Normalize(headers[k]) in AliasNames(c))
    ensures forall k :: 0 <= k < |headers| ==> (cols[k] == None <==> forall c :: Normalize(headers[k]) !in AliasNames(c))
  {
    var cols := seq(|headers|, k requires 0 <= k < |headers| => Alias(Normalize(headers[k])));
    RenamedByTable(headers, cols);
    cols
  }

  /** Renaming every header through the alias table renames it by the name sets. */
  lemma RenamedByTable(headers: seq<string>, cols: seq<Option<Column>>)
    requires |cols| == |headers| && forall k :: 0 <= k < |headers| ==> cols[k] == Alias(Normalize(headers[k]))
    ensures forall k, c :: 0 <= k < |headers| ==> (cols[k] == Some(c) <==> Normalize(headers[k]) in AliasNames(c))
    ensures forall k :: 0 <= k < |headers| ==> (cols[k] == None <==> forall c :: Normalize(headers[k]) !in AliasNames(c))
  {
    forall k | 0 <= k < |headers| {
      AliasIsTable(Normalize(headers[k]));
    }
  }

  /** Some header is renamed to column `c`. */
  predicate Resolvable(headers: seq<string>, c: Column)
  {
    Some(c) in Rename(headers)
  }

  /** The first position holding column `c`, if there is one. */
  function Find(cols: seq<Option<Column>>, c: Column): (r: Option<nat>)
    ensures r.None? <==> Some(c) !in cols
    ensures r.Some? ==> r.value < |cols| && cols[r.value] == Some(c)
    ensures r.Some? ==> forall k :: 0 <= k < r.value ==> cols[k] != Some(c)
  {
    if cols == [] then None
    else if cols[0] == Some(c) then Some(0)
    else match Find(cols[1..], c)
      case None => None
      case Some(k) => Some(k + 1)
  }

  /** The logical columns no header resolves to. */
  function MissingColumns(headers: seq<string>): (missing: seq<Column>)
    ensures forall c :: c in missing <==> !Resolvable(headers, c)
  {
    var m := Unresolved(headers, [City, Lat, Lon, Population]);
    forall c ensures c in m <==> !Resolvable(headers, c) {
      AllColumns(c);
    }
    m
  }

  /** The columns of `cs`, in their order, that no header resolves to. */
  function Unresolved(headers: seq<string>, cs: seq<Column>): (missing: seq<Column>)
    ensures forall c :: c in missing <==> c in cs && !Resolvable(headers, c)
  {
    if cs == [] then []
    else (if Resolvable(headers, cs[0]) then [] else [cs[0]]) + Unresolved(headers, cs[1..])
  }

  /** Every column is one of the four. */
  lemma AllColumns(c: Column)
    ensures c in [City, Lat, Lon, Population]
  {
    if c.City? { assert c == City; }
    else if c.Lat? { assert c == Lat; }
    else if c.Lon? { assert c == Lon; }
    else { assert c == Population; }
  }

  /** The position a layout gives column `c`. */
  function Position(layout: Layout, c: Column): nat
  {
    match c
    case City => layout.city
    case Lat => layout.lat
    case Lon => layout.lon
    case Population => layout.population
  }

  /**
   * The layout places every column on a header that is one of its names,
   * and on the first such header.
   */
  ghost predicate Locates(headers: seq<string>, layout: Layout)
  {
    forall c :: && Position(layout, c) < |headers|
                && Normalize(headers[Position(layout, c)]) in AliasNames(c)
                && forall k :: 0 <= k < Position(layout, c) ==> Normalize(headers[k]) !in AliasNames(c)
  }

  /** A layout of the first positions renamed to each column locates the columns. */
  lemma FoundLocates(headers: seq<string>, layout: Layout)
    requires forall c :: Find(Rename(headers), c) == Some(Position(layout, c))
    ensures Locates(headers, layout) && forall c :: Resolvable(headers, c)
  {
    var cols := Rename(headers);
    forall c
      ensures Position(layout, c) < |headers| && Normalize(headers[Position(layout, c)]) in AliasNames(c)
      ensures forall k :: 0 <= k < Position(layout, c) ==> Normalize(headers[k]) !in AliasNames(c)
      ensures Resolvable(headers, c)
    {
      var p := Position(layout, c);
      assert Find(cols, c) == Some(p);
      assert cols[p] == Some(c);
      forall k | 0 <= k < p ensures Normalize(headers[k]) !in AliasNames(c) {
        assert cols[k] != Some(c);
      }
    }
  }

  /**
   * Selecting `["city","lat","lon","population"]` after the rename: fails
   * (pandas raises `KeyError`) listing the logical columns that are absent,
   * and otherwise places every logical column on the first header renamed to it.
   */
  function ResolveHeaders(headers: seq<string>): (r: Result<Layout, seq<Column>>)
    ensures r.Success? <==> forall c :: Resolvable(headers, c)
    ensures r.Failure? ==> r.error != [] && forall c :: c in r.error <==> !Resolvable(headers, c)
    ensures r.Success? ==> Locates(headers, r.value)
  {
    var cols := Rename(headers);
    match LayoutOf(cols)
    case Some(layout) =>
      FoundLocates(headers, layout);
      Success(layout)
    case None =>
      var c :| Some(c) !in cols;
      assert !Resolvable(headers, c);
      var missing := MissingColumns(headers);
      assert c in missing;
      Failure(missing)
  }

  /** The first position of each column, when every column occurs. */
  function LayoutOf(cols: seq<Option<Column>>): (r: Option<Layout>)
    ensures r.Some? <==> forall c :: Some(c) in cols
    ensures r.Some? ==> forall c :: Find(cols, c) == Some(Position(r.value, c))
  {
    var city, lat, lon, population :=
      Find(cols, City), Find(cols, Lat), Find(cols, Lon), Find(cols, Population);
    if city.Some? && lat.Some? && lon.Some? && population.Some? then
      var layout := Layout(city.value, lat.value, lon.value, population.value);
      assert forall c :: Find(cols, c) == Some(Position(layout, c)) && Some(c) in cols by {
        forall c ensures Find(cols, c) == Some(Position(layout, c)) && Some(c) in cols {
          AllColumns(c);
        }
      }
      Some(layout)
    else
      assert !forall c :: Some(c) in cols by {
        if city.None? { assert Some(City) !in cols; }
        else if lat.None? { assert Some(Lat) !in cols; }
        else if lon.None? { assert Some(Lon) !in cols; }
        else { assert Some(Population) !in cols; }
      }
      None
  }

  lemma TrimStartOfTrimmed(s: string, ws: set<char>)
    requires s == [] || s[0] !in ws
    ensures TrimStart(s, ws) == s
  {
  }

  lemma TrimEndOfTrimmed(s: string, ws: set<char>)
    requires s == [] || s[|s| - 1] !in ws
    ensures TrimEnd(s, ws) == s
  {
  }

  /** No whitespace character is an ASCII letter. */
  lemma WhitespaceHasNoLetters()
    ensures forall c :: c in Whitespace ==> !('A' <= c <= 'Z') && !('a' <= c <= 'z')
  {
  }

  /** Lower-casing is idempotent. */
  lemma LowerIdempotent(s: string)
    ensures Lower(Lower(s)) == Lower(s)
  {
  }

  /**
   * A string that neither starts nor ends with a character of `ws` still does
   * not once lower-cased, when `ws` holds no ASCII letter; so stripping the
   * lower-cased string leaves it as it is.
   */
  lemma StripOfLowerTrimmed(t: string, ws: set<char>)
    requires forall c :: c in ws ==> !('A' <= c <= 'Z') && !('a' <= c <= 'z')
    requires t == [] || (t[0] !in ws && t[|t| - 1] !in ws)
    ensures Strip(Lower(t), ws) == Lower(t)
  {
    var n := Lower(t);
    if n != [] {
      assert n[0] == LowerChar(t[0]) && n[|n| - 1] == LowerChar(t[|t| - 1]);
    }
    TrimStartOfTrimmed(n, ws);
    TrimEndOfTrimmed(n, ws);
  }

  /** Header normalisation is idempotent: a normalised header normalises to itself. */
  lemma NormalizeIdempotent(header: string)
    ensures Normalize(Normalize(header)) == Normalize(header)
  {
    var t := Strip(header, Whitespace);
    WhitespaceHasNoLetters();
    StripOfLowerTrimmed(t, Whitespace);
    LowerIdempotent(t);
  }

  /** Surrounding whitespace and upper case do not matter. */
  lemma PaddedAliasExample()
    ensures Alias(Normalize(" Latitude ")) == Some(Lat)
  {
    assert ' ' in Whitespace && 'L' !in Whitespace && 'e' !in Whitespace;
    PaddedLatitude(Whitespace);
  }

  /**
   * The example over any strip set with the facts it needs: stated for the
   * whole `Whitespace` set, the solver would unfold all of its members at
   * every step.
   */
  lemma PaddedLatitude(ws: set<char>)
    requires ' ' in ws && 'L' !in ws && 'e' !in ws
    ensures Alias(Lower(Strip(" Latitude ", ws))) == Some(Lat)
  {
    assert " Latitude " == " " + "Latitude" + " ";
    StripPadded("Latitude", ws);
    LowerLatitude();
  }

  /** Kept apart from `PaddedLatitude` so that its unfolding of `Lower` is not mixed with `Strip`'s. */
  lemma LowerLatitude()
    ensures Lower("Latitude") == "latitude"
  {
  }

  /** One blank on either side of a word that neither starts nor ends with a character of `ws`. */
  lemma StripPadded(word: string, ws: set<char>)
    requires ' ' in ws && word != [] && word[0] !in ws && word[|word| - 1] !in ws
    ensures Strip(" " + word + " ", ws) == word
  {
    assert (" " + word + " ")[1..] == word + " ";
    assert TrimStart(word + " ", ws) == word + " ";
    assert (word + " ")[..|word|] == word;
  }

  /** Only the listed aliases are recognised: `lng`, the output's own name for longitude, is not. */
  lemma UnknownAliasExample()
    ensures Alias(Normalize("lng")) == None
  {
    var ws := Whitespace;
    assert 'l' !in ws && 'g' !in ws;
    TrimStartOfTrimmed("lng", ws);
    TrimEndOfTrimmed("lng", ws);
    assert Lower("lng") == "lng";
  }


  /** Normalising never lengthens a header. */
  lemma NormalizeNoLonger(header: string)
    ensures |Normalize(header)| <= |header|
  {
    StrippedNoLonger(header, Whitespace);
  }

  lemma StrippedNoLonger(header: string, ws: set<char>)
    ensures |Lower(Strip(header, ws))| <= |header|
  {
  }

  /** A name of fewer than four characters is no city name: both have four. */
  lemma ShortNameIsNoCity(name: string)
    requires |name| < 4
    ensures name !in AliasNames(City)
  {
  }

  /** Normalising keeps a leading digit in front. */
  lemma NormalizeKeepsDigit(header: string)
    requires header != [] && '0' <= header[0] <= '9'
    ensures Normalize(header) != [] && '0' <= Normalize(header)[0] <= '9'
  {
    WhitespaceHasNoDigits();
    DigitStaysFirst(header, Whitespace);
  }

  /** A name starting with a digit is no column's name: every name starts with a letter. */
  lemma DigitNameIsNoColumn(name: string)
    requires name != [] && '0' <= name[0] <= '9'
    ensures forall c :: name !in AliasNames(c)
  {
    forall c ensures name !in AliasNames(c) {
      AllColumns(c);
    }
  }

  /** No whitespace character is a digit. */
  lemma WhitespaceHasNoDigits()
    ensures forall c :: c in Whitespace ==> !('0' <= c <= '9')
  {
  }

  /** A leading digit, which `ws` does not hold, stays the first character. */
  lemma DigitStaysFirst(header: string, ws: set<char>)
    requires header != [] && '0' <= header[0] <= '9' && header[0] !in ws
    ensures Lower(Strip(header, ws)) != [] && '0' <= Lower(Strip(header, ws))[0] <= '9'
  {
    TrimStartOfTrimmed(header, ws);
    var t := Strip(header, ws);
    assert t != [] && t[0] == header[0];
  }
}
