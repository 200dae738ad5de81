# Cities CSV converter: a Dafny model

`scripts/convert-csv-cities.py` converts a CSV table of cities into a JSON
array of map points, one per city. Each point carries the name, the
coordinates, a weight bucketed from the population and a blur radius
(`sigmaKm`) bucketed from that weight. This project models that conversion
without its I/O and proves what it guarantees:

- **Buckets** (`buckets.dfy`): `pop_to_weight` and `weight_to_sigma`. The
  model proves their ranges and monotonicity. It also proves that each
  function is the scan of an ascending threshold table.
- **Headers** (`headers.dfy`): header normalisation (strip, then
  lower-case) and the alias table (`name`→city, `latitude`→lat,
  `longitude`→lon, `pop`→population). Resolving the four logical columns
  fails exactly on the columns that are absent.
- **Loader** (`loader.dfy`): which reading of the file is used. The table is
  first read without a header. When its `lat` column does not come out
  numeric, the first line is taken as the header instead. Each row is then
  coerced to numbers, and text that is not a number becomes missing.
- **Cities** (`cities.dfy`): the cleaning step, the dedup step and the
  annotation step, plus the whole of `main` minus the file output:
  - cleaning drops any row with a missing field;
  - dedup keeps one most-populous row per city, in original row order;
  - annotation adds the weight and the radius.

  No entry for a city is lost and no city appears twice. Every output entry
  comes from a most-populous complete row of its city.

Numbers are `real`, the model of pandas' float64 values, without rounding
or overflow. Weights and radii are `int`.

What the code does at some points worth spelling out:

- **Springfield.** A population of 116250 gets weight 3, since
  116250 < 120000, and radius 10, since 3 <= 5.
  `Cities.SpringfieldExample` proves the whole output for the line
  `Springfield,39.78,-89.64,116250`.
- **Ties.** The default sort is not stable, so which of several equally
  populous rows of a city survives is not promised. The dedup contract
  requires only *a* most populous row of each city.
- **Output order.** A city's entry sits at the position of its surviving
  row (`Cities.LaterDuplicateMovesCity`).
- **Missing city names.** Cleaning drops only rows whose city is *missing*.
  An empty field, and by default any of pandas' missing-value words (`NA`,
  `N/A`, `NaN`, `null`, …), is read as missing; any other text is kept.
- **A non-numeric latitude in a header-less file.** One line whose `lat`
  field is text such as `abc` is not simply dropped: the whole file is read
  again with its first line as the header, and the column selection then
  fails (`Loader.TextLatLineFails`).

## Model

| member | source | states |
|---|---|---|
| Buckets.PopToWeight | scripts/convert-csv-cities.py:4-13 | the weight is one of 1, 2, 3, 4, 5, 7, 10, 16, 23; it is 1 exactly below 20000 and 23 exactly from 8000000 on |
| Buckets.WeightToSigma | scripts/convert-csv-cities.py:15-20 | the radius is one of 5, 10, 12, 14, 16; it is 5 exactly for weights up to 2 and 16 exactly above 16 |
| Buckets.PopToWeightMonotonic | scripts/convert-csv-cities.py:4-13 | a larger population never gets a smaller weight |
| Buckets.WeightToSigmaMonotonic | scripts/convert-csv-cities.py:15-20 | a larger weight never gets a smaller radius |
| Buckets.SigmaOfProducedWeights | scripts/convert-csv-cities.py:15-20 | for each weight that the population buckets can produce, the radius it maps to, both ways |
| Buckets.SigmaOfPopulation | scripts/convert-csv-cities.py:42-43 | the radius that annotation assigns, read directly off the population ranges (below 50000; 50000–500000; 500000–1000000; 1000000–8000000; above), both ways |
| Buckets.SigmaMonotonicInPopulation | scripts/convert-csv-cities.py:42-43 | a more populous city never gets a smaller radius |
| Buckets.ScanBelowAtLeastFirst | scripts/convert-csv-cities.py:5-13 | scanning an ascending threshold table never yields less than its first bucket |
| Buckets.ScanBelowMonotonic | scripts/convert-csv-cities.py:5-13 | scanning an ascending threshold table is monotonic in the input |
| Buckets.PopToWeightIsTableScan | scripts/convert-csv-cities.py:4-13 | the if-chain equals the first-threshold-exceeded scan of the table (20000→1 … 8000000→16, else 23) |
| Buckets.WeightToSigmaIsTableScan | scripts/convert-csv-cities.py:15-20 | the if-chain equals the scan of the table (2→5, 5→10, 9→12, 16→14, else 16) |
| Buckets.PopulationTableMonotonic | scripts/convert-csv-cities.py:4-13 | the population table is ascending, so its scan is monotonic |
| Headers.TrimStart | scripts/convert-csv-cities.py:28 | the result is a suffix of the input; every dropped character is whitespace; the result does not start with whitespace |
| Headers.TrimEnd | scripts/convert-csv-cities.py:28 | the result is a prefix of the input; every dropped character is whitespace; the result does not end with whitespace |
| Headers.Strip | scripts/convert-csv-cities.py:28 | the result is a contiguous slice of the input; everything before and after it is whitespace; the result neither starts nor ends with whitespace |
| Headers.TrimmedSlice | scripts/convert-csv-cities.py:28 | a prefix, without trailing whitespace, of a suffix without leading whitespace is a slice of the input with only whitespace after it, and neither end of the slice is whitespace |
| Headers.Lower | scripts/convert-csv-cities.py:28 | the same length as the input; each upper-case ASCII letter becomes its lower-case letter (code point + 32), every other character is unchanged, and no upper-case ASCII letter is left |
| Headers.LowerIdempotent | scripts/convert-csv-cities.py:28 | lower-casing twice is lower-casing once |
| Headers.TrimStartOfTrimmed | scripts/convert-csv-cities.py:28 | a string that does not start with whitespace is unchanged by trimming its start |
| Headers.TrimEndOfTrimmed | scripts/convert-csv-cities.py:28 | a string that does not end with whitespace is unchanged by trimming its end |
| Headers.WhitespaceHasNoLetters | scripts/convert-csv-cities.py:28 | no character that strip removes is an ASCII letter |
| Headers.StripOfLowerTrimmed | scripts/convert-csv-cities.py:28 | lower-casing a stripped header leaves nothing more to strip |
| Headers.NormalizeIdempotent | scripts/convert-csv-cities.py:28 | a normalised header normalises to itself |
| Headers.Normalize | scripts/convert-csv-cities.py:28 | definition: strip, then lower-case, a header |
| Headers.Alias | scripts/convert-csv-cities.py:29-31 | definition: the rename dictionary, from a normalised name to its logical column |
| Headers.AliasNames | scripts/convert-csv-cities.py:29-31 | definition: the names the rename dictionary maps onto each column |
| Headers.AliasIsTable | scripts/convert-csv-cities.py:29-31 | a name renames to a column exactly when it is one of that column's names |
| Headers.Rename | scripts/convert-csv-cities.py:28-31 | one entry per header; a header renames to a column exactly when its normalised name is one of that column's names (`city`/`name`, `latitude`/`lat`, `longitude`/`lon`, `population`/`pop`), and to none exactly when it is no column's name |
| Headers.RenamedByTable | scripts/convert-csv-cities.py:28-31 | renaming each header through the dictionary renames it by the name sets, and to none exactly when its name belongs to no column |
| Headers.Find | scripts/convert-csv-cities.py:32 | the position of the first header that resolves to the column, or none exactly when no header does |
| Headers.Unresolved | scripts/convert-csv-cities.py:32 | exactly those of the listed columns that no header resolves to |
| Headers.MissingColumns | scripts/convert-csv-cities.py:32 | a column is reported missing exactly when no header resolves to it |
| Headers.AllColumns | scripts/convert-csv-cities.py:32 | the four selected columns are all the columns there are |
| Headers.LayoutOf | scripts/convert-csv-cities.py:32 | there is a layout exactly when every column occurs, and it gives each column its first position |
| Headers.FoundLocates | scripts/convert-csv-cities.py:28-32 | the first positions of the renamed columns place each column on the first header bearing one of its names |
| Headers.NormalizeNoLonger | scripts/convert-csv-cities.py:28 | a normalised header is never longer than the header |
| Headers.StrippedNoLonger | scripts/convert-csv-cities.py:28 | stripping and lower-casing never lengthen a string |
| Headers.ShortNameIsNoCity | scripts/convert-csv-cities.py:29 | a name of fewer than four characters is neither `city` nor `name` |
| Headers.NormalizeKeepsDigit | scripts/convert-csv-cities.py:28 | a header starting with a digit still starts with a digit once normalised |
| Headers.DigitStaysFirst | scripts/convert-csv-cities.py:28 | a leading digit outside the strip set stays in front through strip and lower-casing |
| Headers.WhitespaceHasNoDigits | scripts/convert-csv-cities.py:28 | no character that strip removes is a digit |
| Headers.DigitNameIsNoColumn | scripts/convert-csv-cities.py:29-31 | a name starting with a digit is no column's name |
| Headers.ResolveHeaders | scripts/convert-csv-cities.py:28-32 | succeeds exactly when all four columns are present, and then places each on the first header bearing one of its names; otherwise it fails with exactly the absent columns (never none) |
| Headers.PaddedAliasExample | scripts/convert-csv-cities.py:28-31 | ` Latitude ` resolves to lat |
| Headers.PaddedLatitude | scripts/convert-csv-cities.py:28-31 | ` Latitude ` resolves to lat for any strip set holding the blank and neither `L` nor `e` |
| Headers.StripPadded | scripts/convert-csv-cities.py:28 | one blank on either side of a word is stripped away |
| Headers.UnknownAliasExample | scripts/convert-csv-cities.py:29-31 | `lng` resolves to no column |
| Loader.ReadRow | scripts/convert-csv-cities.py:34-36 | definition: the row of a line through a layout, each numeric column coerced and a field past the end of the line missing |
| Loader.ReadRows | scripts/convert-csv-cities.py:24-27 | definition: every line read through the same layout |
| Loader.HeaderNames | scripts/convert-csv-cities.py:27 | one name per field of the first line; a missing field names none of the four columns |
| Loader.LatIsNumeric | scripts/convert-csv-cities.py:26 | definition: the `lat` column of the header-less reading is numeric when each of its fields is missing or a number |
| Loader.Numeric | scripts/convert-csv-cities.py:34-36 | definition: coercion with `errors="coerce"`, a missing field or text that is not a number giving none |
| Loader.EmptyNameIsNoColumn | scripts/convert-csv-cities.py:28-31 | the empty header names no column |
| Loader.Load | scripts/convert-csv-cities.py:24-32 | an empty file fails; loading succeeds exactly when the `lat` column is numeric or every column has a header among its names; with a numeric `lat` column every line is a positional row; otherwise the header line is not a row, every later line is read through a layout placing each column on the first header naming it, or the load fails with a non-empty list of exactly the columns no header names |
| Loader.HeaderLineIsNotData | scripts/convert-csv-cities.py:26-27 | a first line whose `lat` field is non-numeric text switches to header mode, so it never becomes a row |
| Loader.NoCityHeader | scripts/convert-csv-cities.py:28-32 | headers that are all shorter than four characters or start with a digit leave the city column unresolved |
| Loader.TextLatLineFails | scripts/convert-csv-cities.py:24-32 | the one header-less line `Ely,abc,0.26,20256` switches to header mode and fails to load, the city column among the missing |
| Cities.Complete | scripts/convert-csv-cities.py:37 | definition: a row none of whose four fields is missing, the subset `dropna` tests |
| Cities.DropIncomplete | scripts/convert-csv-cities.py:37 | exactly the complete rows are kept, each with its own row index, in ascending index order |
| Cities.LargestPositions | scripts/convert-csv-cities.py:40 | every city is mapped to a position of that city whose population no record of the city exceeds |
| Cities.KeepLargestPerCity | scripts/convert-csv-cities.py:40 | one record per city, each a most populous one of its city, no city twice and none lost, in ascending row order |
| Cities.EmitBest | scripts/convert-csv-cities.py:40 | in input order, exactly the records whose own position is the one the map holds for their city |
| Cities.EmittedIsDedup | scripts/convert-csv-cities.py:40 | the records so emitted, from a map of most populous positions, are one most populous record per city, none lost, in row order |
| Cities.DedupKeepsCitySet | scripts/convert-csv-cities.py:40 | dedup keeps exactly the set of cities |
| Cities.DistinctCitiesCount | scripts/convert-csv-cities.py:40 | a table with no city repeated has as many cities as records; with `Cities.DedupKeepsCitySet`, dedup yields as many records as there are distinct cities |
| Cities.DedupUniqueUpToTies | scripts/convert-csv-cities.py:40 | two dedups of the same table agree on every city's population, so they can differ only on a tie |
| Cities.OrderedTail | scripts/convert-csv-cities.py:40 | the tail of an index-ordered table holds exactly the records after its first |
| Cities.SameFirst | scripts/convert-csv-cities.py:40 | two index-ordered tables with the same records start with the same record |
| Cities.OrderedSameElements | scripts/convert-csv-cities.py:40 | two index-ordered tables with the same records are equal |
| Cities.NoDuplicatesUnchanged | scripts/convert-csv-cities.py:40 | a table without repeated cities is its own dedup |
| Cities.LargerDuplicateWins | scripts/convert-csv-cities.py:40 | of two records of one city, only the more populous survives |
| Cities.LaterDuplicateMovesCity | scripts/convert-csv-cities.py:40 | when a city's larger record comes later, the city's entry sits at that later position |
| Cities.Annotate | scripts/convert-csv-cities.py:42-51 | one entry per record, carrying its city, coordinates, weight `pop_to_weight(population)` and radius `weight_to_sigma(weight)`, all within their bucket sets |
| Cities.Convert | scripts/convert-csv-cities.py:22-52 | a load failure is passed on; otherwise the entries are a conversion of the loaded rows: each comes from a most populous complete row of its city, in row order, no name twice, every complete row's city present |
| Cities.ConversionFromSteps | scripts/convert-csv-cities.py:34-51 | cleaning, then dedup, then annotation together make a conversion of the rows |
| Cities.AscendingBelowIsShort | scripts/convert-csv-cities.py:40 | strictly ascending positions below n number at most n |
| Cities.ConversionNoLonger | scripts/convert-csv-cities.py:37-51 | the output never has more entries than the table has rows |
| Cities.SpringfieldRows | scripts/convert-csv-cities.py:24-26 | the header-less line `Springfield,39.78,-89.64,116250` is read as one positional row |
| Cities.SingleRowConversion | scripts/convert-csv-cities.py:37-51 | a table of one complete row converts to exactly that row's entry |
| Cities.SpringfieldEntry | scripts/convert-csv-cities.py:42-51 | population 116250 gets weight 3 and radius 10 |
| Cities.SpringfieldExample | scripts/convert-csv-cities.py:22-51 | that line converts to exactly one entry: Springfield, 39.78, -89.64, weight 3, radius 10 |

## Left out

- CSV parsing and pandas' dtype inference are not modelled. A file is given as lines of already-split fields. The model keeps only the rule that the `lat` column is numeric when each of its fields is missing or a number. Pandas also counts a boolean column as numeric, and the model does not.
- Numeric coercion (`pd.to_numeric(..., errors="coerce")`) is an input. Each non-missing field carries the number its text coerces to, if any.
- `round(..., 6)` on the coordinates is not modelled: floating point is out of scope, so coordinates pass through unchanged.
- A NaN or infinite value in any numeric column is not modelled, because numbers are reals. The text `inf` in `lat`, `lon` or `population` coerces to infinity in pandas, so cleaning keeps that row and the JSON carries `Infinity`; a field of the model carries only a finite number, so such a field can only be given as no number, and the row is dropped. Float64 overflow is not modelled either, nor is the `astype(int)` cast of a weight, which is already an integer.
- Cities.KeepLargestPerCity: when several rows of a city share the largest population, the model keeps the first of them. The source's unstable sort may keep any of them, so the contract promises only *a* most populous row (`Cities.DedupUniqueUpToTies`).
- Cities.KeepLargestPerCity requires its input in ascending row order. Cleaning always produces that order (`Cities.DropIncomplete`).
- Writing the JSON file, the command-line argument check, the usage message and the exit status are I/O and are left out. `Cities.Convert` returns the entries instead.
- Two headers that rename to the same logical column are not modelled as pandas handles them; the model uses the first such header only. When the doubled column is `lat`, `lon` or `population` (`lat` and `latitude`, say), pandas holds two columns of that name and the numeric coercion of that two-column selection raises `TypeError`, ending the run, where the model succeeds. With both `city` and `name`, pandas keeps both columns, drops a row missing either, dedups on the pair and names the entry from the first column, so two entries can share a name; the model instead keeps one entry per name.
- Headers are not modelled as pandas names them. Pandas names a blank header `Unnamed: k` and de-duplicates repeated names. Since neither kind can alias a logical column, the model reads a blank header as the empty name.
- Lines with more fields than there are columns are not modelled. When the first data line is that long, pandas makes its leading fields the index and shifts the named columns right; a later, longer line makes pandas refuse the file. The model instead reads the fields at the column positions and ignores the rest. A shorter line has its remaining fields missing.
- Headers.Lower lower-cases ASCII letters only. Among characters outside ASCII, only the Kelvin sign lower-cases to a lone ASCII letter (`k`), which no alias contains; `İ` lower-cases to `i` followed by a combining dot, which no alias contains either. So alias resolution is the same.
- `str(r.city)` on a city column that pandas read as numbers is not modelled. Cities are kept as their text.
