/**
 * The row pipeline of the converter's `main`: drop incomplete rows, keep the
 * most populous row of every city (in original row order), and annotate
 * each survivor with its weight and radius.
 */
module Cities {
  import opened Wrappers
  import opened Buckets
  import opened Loader

  /** A complete row, with its original row index (the frame's index label). */
  datatype Record = Record(city: string, lat: real, lon: real, population: real, index: nat)

  /** One object of the output array. */
  datatype Entry = Entry(name: string, lat: real, lng: real, weight: int, sigmaKm: int)

  /** The city is present and latitude, longitude and population all coerced to numbers. */
  predicate Complete(r: Row)
  {
    r.city.Some? && r.lat.Some? && r.lon.Some? && r.population.Some?
  }

  /** A complete row at index `i`, its fields unaltered. */
  function AsRecord(r: Row, i: nat): Record
    requires Complete(r)
  {
    Record(r.city.value, r.lat.value, r.lon.value, r.population.value, i)
  }

  /** Some record of `rs` has row index `i`. */
  ghost predicate HasIndex(rs: seq<Record>, i: nat)
  {
    exists t :: 0 <= t < |rs| && rs[t].index == i
  }

  /** Records in strictly ascending order of original row index. */
  ghost predicate IndexOrdered(rs: seq<Record>)
  {
    forall t, u :: 0 <= t < u < |rs| ==> rs[t].index < rs[u].index
  }

  /**
   * `dropna(subset=["city","lat","lon","population"])`: exactly the complete
   * rows are kept, unaltered, in input order, each with its own row index.
   */
  method DropIncomplete(rows: seq<Row>) returns (kept: seq<Record>)
    ensures IndexOrdered(kept)
    ensures forall t :: 0 <= t < |kept| ==>
      && kept[t].index < |rows| && Complete(rows[kept[t].index])
      && kept[t] == AsRecord(rows[kept[t].index], kept[t].index)
    ensures forall i :: 0 <= i < |rows| && Complete(rows[i]) ==> HasIndex(kept, i)
  {
    kept := [];
    for i := 0 to |rows|
      invariant IndexOrdered(kept)
      invariant forall t :: 0 <= t < |kept| ==>
        && kept[t].index < i && Complete(rows[kept[t].index])
        && kept[t] == AsRecord(rows[kept[t].index], kept[t].index)
      invariant forall j :: 0 <= j < i && Complete(rows[j]) ==> HasIndex(kept, j)
    {
      if Complete(rows[i]) {
        ghost var before := kept;
        kept := kept + [AsRecord(rows[i], i)];
        assert forall t :: 0 <= t < |before| ==> kept[t] == before[t];
        assert kept[|kept| - 1].index == i;
      }
    }
  }

  /** `r` is one of `rs`, and no record of `rs` for the same city has a larger population. */
  ghost predicate IsLargest(rs: seq<Record>, r: Record)
  {
    r in rs && forall k :: 0 <= k < |rs| && rs[k].city == r.city ==> rs[k].population <= r.population
  }

  /** No two records share a city. */
  ghost predicate DistinctCities(rs: seq<Record>)
  {
    forall t, u :: 0 <= t < u < |rs| ==> rs[t].city != rs[u].city
  }

  /** Some record of `rs` is for city `c`. */
  ghost predicate HasCity(rs: seq<Record>, c: string)
  {
    exists t :: 0 <= t < |rs| && rs[t].city == c
  }

  /** Every city of `rs` has a record in `out`. */
  ghost predicate CoversCities(out: seq<Record>, rs: seq<Record>)
  {
    forall k :: 0 <= k < |rs| ==> HasCity(out, rs[k].city)
  }

  /**
   * What `sort_values("population", ascending=False).drop_duplicates(subset=["city"]).sort_index()`
   * produces: one record per city, a most populous one of that city, in
   * ascending order of the surviving record's own row index.
   */
  ghost predicate IsDedupOf(out: seq<Record>, rs: seq<Record>)
  {
    && IndexOrdered(out)
    && DistinctCities(out)
    && CoversCities(out, rs)
    && forall t :: 0 <= t < |out| ==> IsLargest(rs, out[t])
  }

  /**
   * The first half of the dedup step: a map from each city to the position of
   * its most populous record; a later record replaces the one held only when
   * it is strictly larger.
   */
  method LargestPositions(rs: seq<Record>) returns (best: map<string, nat>)
    ensures forall c :: c in best ==> best[c] < |rs| && rs[best[c]].city == c
    ensures forall k :: 0 <= k < |rs| ==>
      rs[k].city in best && rs[k].population <= rs[best[rs[k].city]].population
  {
    best := map[];
    for i := 0 to |rs|
      invariant forall c :: c in best ==> best[c] < i && rs[best[c]].city == c
      invariant forall k :: 0 <= k < i ==>
        rs[k].city in best && rs[k].population <= rs[best[rs[k].city]].population
    {
      var c := rs[i].city;
      if c !in best || rs[best[c]].population < rs[i].population {
        best := best[c := i];
      }
    }
  }

  /**
   * The dedup step: the records whose position the map holds for their city
   * are emitted in the order of the input.
   */
  method KeepLargestPerCity(rs: seq<Record>) returns (out: seq<Record>)
    requires IndexOrdered(rs)
    ensures IsDedupOf(out, rs)
  {
    var best := LargestPositions(rs);
    ghost var pos;
    out, pos := EmitBest(rs, best);
    EmittedIsDedup(rs, best, out, pos);
  }

  /**
   * The second half of the dedup step: in input order, every record whose
   * own position is the one the map holds for its city; `pos` records where
   * each came from.
   */
  method EmitBest(rs: seq<Record>, best: map<string, nat>) returns (out: seq<Record>, ghost pos: seq<nat>)
    requires forall k :: 0 <= k < |rs| ==> rs[k].city in best
    ensures |pos| == |out|
    ensures forall t :: 0 <= t < |out| ==> pos[t] < |rs| && out[t] == rs[pos[t]]
    ensures forall t :: 0 <= t < |out| ==> best[out[t].city] == pos[t]
    ensures forall t, u :: 0 <= t < u < |out| ==> pos[t] < pos[u]
    ensures forall j :: 0 <= j < |rs| && best[rs[j].city] == j ==> j in pos
  {
    out, pos := [], [];
    for i := 0 to |rs|
      invariant |pos| == |out|
      invariant forall t :: 0 <= t < |out| ==> pos[t] < i && out[t] == rs[pos[t]]
      invariant forall t :: 0 <= t < |out| ==> best[out[t].city] == pos[t]
      invariant forall t, u :: 0 <= t < u < |out| ==> pos[t] < pos[u]
      invariant forall j :: 0 <= j < i && best[rs[j].city] == j ==> j in pos
    {
      if best[rs[i].city] == i {
        out, pos := out + [rs[i]], pos + [i];
      }
    }
  }

  /**
   * After the emission loop: the records emitted, one per position the map
   * holds, are a dedup of the input.
   */
  lemma EmittedIsDedup(rs: seq<Record>, best: map<string, nat>, out: seq<Record>, pos: seq<nat>)
    requires forall c :: c in best ==> best[c] < |rs| && rs[best[c]].city == c
    requires forall k :: 0 <= k < |rs| ==>
      rs[k].city in best && rs[k].population <= rs[best[rs[k].city]].population
    requires |pos| == |out|
    requires forall t :: 0 <= t < |out| ==> pos[t] < |rs| && out[t] == rs[pos[t]]
    requires forall t :: 0 <= t < |out| ==> best[out[t].city] == pos[t]
    requires forall t, u :: 0 <= t < u < |out| ==> pos[t] < pos[u]
    requires IndexOrdered(rs)
    requires forall j :: 0 <= j < |rs| && best[rs[j].city] == j ==> j in pos
    ensures IsDedupOf(out, rs)
  {
    forall t | 0 <= t < |out| ensures IsLargest(rs, out[t]) {
      assert out[t] == rs[pos[t]];
    }
    forall t, u | 0 <= t < u < |out| ensures out[t].city != out[u].city && out[t].index < out[u].index {
      assert pos[t] < pos[u];
    }
    assert CoversCities(out, rs) by {
      forall k | 0 <= k < |rs| ensures HasCity(out, rs[k].city) {
        var j := best[rs[k].city];
        assert rs[j].city == rs[k].city;
        var t :| 0 <= t < |pos| && pos[t] == j;
        assert out[t].city == rs[k].city;
      }
    }
  }

  /** The set of cities of some records. */
  ghost function CitiesOf(rs: seq<Record>): set<string>
  {
    set t | 0 <= t < |rs| :: rs[t].city
  }

  /** The cities of the dedup's output are exactly the cities of its input. */
  lemma DedupKeepsCitySet(out: seq<Record>, rs: seq<Record>)
    requires IsDedupOf(out, rs)
    ensures CitiesOf(out) == CitiesOf(rs)
  {
    forall c | c in CitiesOf(out) ensures c in CitiesOf(rs) {
      var t :| 0 <= t < |out| && out[t].city == c;
      assert IsLargest(rs, out[t]);
      var k :| 0 <= k < |rs| && rs[k] == out[t];
    }
    forall c | c in CitiesOf(rs) ensures c in CitiesOf(out) {
      var k :| 0 <= k < |rs| && rs[k].city == c;
      assert HasCity(out, c);
      var t :| 0 <= t < |out| && out[t].city == c;
    }
  }

  /**
   * Any two outputs the dedup may produce (they differ only in how ties are
   * broken) hold the same cities with the same populations.
   */
  lemma DedupUniqueUpToTies(out1: seq<Record>, out2: seq<Record>, rs: seq<Record>, t: nat)
    requires IsDedupOf(out1, rs) && IsDedupOf(out2, rs)
    requires t < |out1|
    ensures exists u :: 0 <= u < |out2| && out2[u].city == out1[t].city && out2[u].population == out1[t].population
  {
    assert IsLargest(rs, out1[t]);
    var k :| 0 <= k < |rs| && rs[k] == out1[t];
    assert HasCity(out2, rs[k].city);
    var u :| 0 <= u < |out2| && out2[u].city == rs[k].city;
    assert IsLargest(rs, out2[u]);
    var j :| 0 <= j < |rs| && rs[j] == out2[u];
  }

  lemma FirstIsMember(s: seq<Record>)
    ensures s != [] ==> s[0] in s
  {
  }

  lemma OrderedTail(a: seq<Record>)
    requires a != [] && IndexOrdered(a)
    ensures IndexOrdered(a[1..])
    ensures forall x :: x in a[1..] <==> x in a && x.index > a[0].index
  {
    forall x | x in a && x.index > a[0].index ensures x in a[1..] {
      var q :| 0 <= q < |a| && a[q] == x;
      assert a[1..][q - 1] == x;
    }
  }

  /** Two non-empty index-ordered sequences with the same elements start alike. */
  lemma SameFirst(a: seq<Record>, b: seq<Record>)
    requires a != [] && b != [] && IndexOrdered(a) && IndexOrdered(b)
    requires forall x :: x in a <==> x in b
    ensures a[0] == b[0]
  {
    assert a[0] in b;
    var j :| 0 <= j < |b| && b[j] == a[0];
    assert b[0] in a;
    var i :| 0 <= i < |a| && a[i] == b[0];
    assert a[0].index <= a[i].index && b[0].index <= b[j].index;
  }

  /** Two index-ordered sequences with the same elements are equal. */
  lemma {:induction false} OrderedSameElements(a: seq<Record>, b: seq<Record>)
    requires IndexOrdered(a) && IndexOrdered(b)
    requires forall x :: x in a <==> x in b
    ensures a == b
    decreases |a|
  {
    if a == [] {
      FirstIsMember(b);
    } else {
      assert a[0] in b;
      SameFirst(a, b);
      OrderedTail(a);
      OrderedTail(b);
      OrderedSameElements(a[1..], b[1..]);
      assert a == [a[0]] + a[1..] && b == [b[0]] + b[1..];
    }
  }

  /** Without duplicate cities the dedup changes nothing: not even the order, whatever the populations. */
  lemma NoDuplicatesUnchanged(out: seq<Record>, rs: seq<Record>)
    requires IndexOrdered(rs) && DistinctCities(rs)
    requires IsDedupOf(out, rs)
    ensures out == rs
  {
    forall x ensures x in out <==> x in rs {
      if x in out {
        var t :| 0 <= t < |out| && out[t] == x;
        assert IsLargest(rs, out[t]);
      }
      if x in rs {
        var k :| 0 <= k < |rs| && rs[k] == x;
        assert HasCity(out, rs[k].city);
        var t :| 0 <= t < |out| && out[t].city == rs[k].city;
        assert IsLargest(rs, out[t]);
        var j :| 0 <= j < |rs| && rs[j] == out[t];
        assert rs[j].city == rs[k].city;
      }
    }
    OrderedSameElements(out, rs);
  }

  /** Records with pairwise distinct cities have as many cities as records. */
  lemma {:induction false} DistinctCitiesCount(rs: seq<Record>)
    requires DistinctCities(rs)
    ensures |CitiesOf(rs)| == |rs|
  {
    if rs == [] {
      assert CitiesOf(rs) == {};
    } else {
      var rest := rs[1..];
      assert DistinctCities(rest) by {
        forall t, u | 0 <= t < u < |rest| ensures rest[t].city != rest[u].city {
          assert rest[t] == rs[t + 1] && rest[u] == rs[u + 1];
        }
      }
      DistinctCitiesCount(rest);
      assert CitiesOf(rs) == {rs[0].city} + CitiesOf(rest) by {
        forall c ensures c in CitiesOf(rs) <==> c in {rs[0].city} + CitiesOf(rest) {
          if c in CitiesOf(rs) {
            var t :| 0 <= t < |rs| && rs[t].city == c;
            if t > 0 { assert rest[t - 1] == rs[t]; }
          }
          if c in CitiesOf(rest) {
            var t :| 0 <= t < |rest| && rest[t].city == c;
            assert rs[t + 1] == rest[t];
          }
        }
      }
      assert rs[0].city !in CitiesOf(rest) by {
        forall t | 0 <= t < |rest| ensures rest[t].city != rs[0].city {
          assert rest[t] == rs[t + 1];
        }
      }
    }
  }

  /** Two rows of one city: exactly one survives, and it is the more populous one. */
  lemma LargerDuplicateWins(small: Record, large: Record, out: seq<Record>)
    requires small.city == large.city && small.population < large.population
    requires IsDedupOf(out, [small, large])
    ensures out == [large]
  {
    var rs := [small, large];
    forall t | 0 <= t < |out| ensures out[t] == large {
      assert IsLargest(rs, out[t]);
      assert out[t] in rs;
      assert out[t] != small by { assert rs[1].city == out[t].city; }
    }
    assert CitiesOf(rs) == {small.city} by {
      assert rs[0].city == small.city && rs[1].city == small.city;
    }
    DedupKeepsCitySet(out, rs);
    DistinctCitiesCount(out);
    assert |out| == 1;
  }

  /**
   * A more populous duplicate later in the file moves its city to that later
   * position: the output is not in order of a city's first appearance.
   */
  lemma LaterDuplicateMovesCity(first: Record, other: Record, later: Record, out: seq<Record>)
    requires first.city == later.city && first.city != other.city
    requires first.population < later.population
    requires first.index < other.index < later.index
    requires IsDedupOf(out, [first, other, later])
    ensures out == [other, later]
  {
    var rs := [first, other, later];
    forall t | 0 <= t < |out| ensures out[t] == other || out[t] == later {
      assert IsLargest(rs, out[t]);
      assert out[t] in rs;
      assert out[t] != first by { assert rs[2].city == first.city; }
    }
    assert CitiesOf(rs) == {first.city, other.city} by {
      assert rs[0].city == first.city && rs[1].city == other.city && rs[2].city == first.city;
    }
    DedupKeepsCitySet(out, rs);
    DistinctCitiesCount(out);
    assert |out| == 2;
    assert out[0].city != out[1].city && out[0].index < out[1].index;
    assert out[0] == other;
    assert out[1] == later;
  }

  /** `e` is the output object of record `r`. */
  predicate Annotates(e: Entry, r: Record)
  {
    && e.name == r.city && e.lat == r.lat && e.lng == r.lon
    && e.weight == PopToWeight(r.population)
    && e.sigmaKm == WeightToSigma(e.weight)
  }

  /**
   * The `weight` and `sigmaKm` columns and the projection onto the output
   * objects, one per record and in the same order.
   */
  method Annotate(rs: seq<Record>) returns (entries: seq<Entry>)
    ensures |entries| == |rs|
    ensures forall t :: 0 <= t < |rs| ==> Annotates(entries[t], rs[t])
    ensures forall t :: 0 <= t < |rs| ==> entries[t].weight in Weights && entries[t].sigmaKm in Sigmas
  {
    entries := [];
    for t := 0 to |rs|
      invariant |entries| == t
      invariant forall u :: 0 <= u < t ==> Annotates(entries[u], rs[u])
    {
      var weight := PopToWeight(rs[t].population);
      entries := entries + [Entry(rs[t].city, rs[t].lat, rs[t].lon, weight, WeightToSigma(weight))];
    }
  }

  /** Row `i` is complete and no complete row of the same city has a larger population. */
  ghost predicate LargestOfCity(rows: seq<Row>, i: nat)
  {
    && i < |rows| && Complete(rows[i])
    && forall k :: 0 <= k < |rows| && Complete(rows[k]) && rows[k].city == rows[i].city ==>
         rows[k].population.value <= rows[i].population.value
  }

  /** `e` is the output object of the complete row `r`. */
  ghost predicate FromRow(e: Entry, r: Row)
  {
    && Complete(r)
    && Some(e.name) == r.city && e.lat == r.lat.value && e.lng == r.lon.value
    && e.weight == PopToWeight(r.population.value)
    && e.sigmaKm == WeightToSigma(e.weight)
  }

  /** Some entry is named `name`. */
  ghost predicate HasName(entries: seq<Entry>, name: string)
  {
    exists t :: 0 <= t < |entries| && entries[t].name == name
  }

  /**
   * The whole conversion, stated against the loaded rows: entry `t` comes
   * from row `origin[t]`, a most populous complete row of its city; origins
   * ascend; no name repeats; and every city of a complete row is present.
   */
  ghost predicate IsConversionOf(entries: seq<Entry>, origin: seq<nat>, rows: seq<Row>)
  {
    && |origin| == |entries|
    && (forall t, u :: 0 <= t < u < |entries| ==> origin[t] < origin[u])
    && (forall t :: 0 <= t < |entries| ==> LargestOfCity(rows, origin[t]) && FromRow(entries[t], rows[origin[t]]))
    && (forall t, u :: 0 <= t < u < |entries| ==> entries[t].name != entries[u].name)
    && (forall i :: 0 <= i < |rows| && Complete(rows[i]) ==> HasName(entries, rows[i].city.value))
  }

  /**
   * `main` without the file output: load, clean, deduplicate, annotate. A
   * load failure is passed on; otherwise the entries are a conversion of the
   * loaded rows.
   */
  method Convert(lines: seq<seq<Field>>) returns (result: Result<seq<Entry>, LoadError>, ghost origin: seq<nat>)
    ensures Load(lines).Failure? ==> result == Failure(Load(lines).error)
    ensures Load(lines).Success? ==> result.Success? && IsConversionOf(result.value, origin, Load(lines).value)
  {
    var loaded := Load(lines);
    if loaded.Failure? {
      return Failure(loaded.error), [];
    }
    var rows := loaded.value;
    var kept := DropIncomplete(rows);
    var survivors := KeepLargestPerCity(kept);
    var entries := Annotate(survivors);
    origin := seq(|survivors|, t requires 0 <= t < |survivors| => survivors[t].index);
    ConversionFromSteps(rows, kept, survivors, entries, origin);
    result := Success(entries);
  }

  /** The three steps' contracts together give the conversion's. */
  lemma ConversionFromSteps(rows: seq<Row>, kept: seq<Record>, survivors: seq<Record>,
                            entries: seq<Entry>, origin: seq<nat>)
    requires forall t :: 0 <= t < |kept| ==>
      && kept[t].index < |rows| && Complete(rows[kept[t].index])
      && kept[t] == AsRecord(rows[kept[t].index], kept[t].index)
    requires forall i :: 0 <= i < |rows| && Complete(rows[i]) ==> HasIndex(kept, i)
    requires IsDedupOf(survivors, kept)
    requires |entries| == |survivors| && forall t :: 0 <= t < |survivors| ==> Annotates(entries[t], survivors[t])
    requires |origin| == |survivors| && forall t :: 0 <= t < |survivors| ==> origin[t] == survivors[t].index
    ensures IsConversionOf(entries, origin, rows)
  {
    forall t | 0 <= t < |entries|
      ensures LargestOfCity(rows, origin[t]) && FromRow(entries[t], rows[origin[t]])
    {
      var s := survivors[t];
      assert IsLargest(kept, s);
      var j :| 0 <= j < |kept| && kept[j] == s;
      forall k | 0 <= k < |rows| && Complete(rows[k]) && rows[k].city == rows[s.index].city
        ensures rows[k].population.value <= rows[s.index].population.value
      {
        var u :| 0 <= u < |kept| && kept[u].index == k;
        assert kept[u].city == s.city;
      }
    }
    forall i | 0 <= i < |rows| && Complete(rows[i])
      ensures HasName(entries, rows[i].city.value)
    {
      var u :| 0 <= u < |kept| && kept[u].index == i;
      assert HasCity(survivors, kept[u].city);
      var t :| 0 <= t < |survivors| && survivors[t].city == kept[u].city;
      assert entries[t].name == rows[i].city.value;
    }
  }

  /** A strictly ascending sequence of positions below `n` has at most `n` elements. */
  lemma {:induction false} AscendingBelowIsShort(origin: seq<nat>, n: nat)
    requires forall t, u :: 0 <= t < u < |origin| ==> origin[t] < origin[u]
    requires forall t :: 0 <= t < |origin| ==> origin[t] < n
    ensures |origin| <= n
  {
    if origin != [] {
      var init := origin[..|origin| - 1];
      assert forall t :: 0 <= t < |init| ==> init[t] < origin[|origin| - 1] < n;
      AscendingBelowIsShort(init, origin[|origin| - 1]);
    }
  }

  /** The conversion never yields more entries than the file has rows. */
  lemma ConversionNoLonger(entries: seq<Entry>, origin: seq<nat>, rows: seq<Row>)
    requires IsConversionOf(entries, origin, rows)
    ensures |entries| <= |rows|
  {
    AscendingBelowIsShort(origin, |rows|);
  }

  /** The header-less line `Springfield,39.78,-89.64,116250`. */
  const SpringfieldCsv: seq<seq<Field>> :=
    [[Text("Springfield", None), Text("39.78", Some(39.78)), Text("-89.64", Some(-89.64)),
      Text("116250", Some(116250.0))]]

  /** The line is read header-less, since its `lat` field is a number. */
  lemma SpringfieldRows()
    ensures Load(SpringfieldCsv) == Success([Row(Some("Springfield"), Some(39.78), Some(-89.64), Some(116250.0))])
  {
    var line := SpringfieldCsv[0];
    assert FieldAt(line, 1).number.Some?;
    assert LatIsNumeric(SpringfieldCsv);
    var rows := Load(SpringfieldCsv).value;
    assert |rows| == 1 && rows[0] == ReadRow(line, Positional);
    assert FieldAt(line, 0) == Text("Springfield", None);
    assert FieldAt(line, 2) == Text("-89.64", Some(-89.64));
    assert FieldAt(line, 3) == Text("116250", Some(116250.0));
    assert rows[0] == Row(Some("Springfield"), Some(39.78), Some(-89.64), Some(116250.0));
    assert rows == [rows[0]];
  }

  /** A table of one complete row converts to exactly that row's object. */
  lemma SingleRowConversion(entries: seq<Entry>, origin: seq<nat>, row: Row)
    requires Complete(row) && IsConversionOf(entries, origin, [row])
    ensures |entries| == 1 && FromRow(entries[0], row)
  {
    ConversionNoLonger(entries, origin, [row]);
    var rows := [row];
    assert Complete(rows[0]);
    assert HasName(entries, rows[0].city.value);
  }

  /**
   * The one output object for that line: weight 3 and, since 3 is at most 5,
   * a radius of 10 km.
   */
  lemma SpringfieldExample(entries: seq<Entry>, origin: seq<nat>)
    requires Load(SpringfieldCsv).Success? && IsConversionOf(entries, origin, Load(SpringfieldCsv).value)
    ensures entries == [Entry("Springfield", 39.78, -89.64, 3, 10)]
  {
    SpringfieldRows();
    var row := Row(Some("Springfield"), Some(39.78), Some(-89.64), Some(116250.0));
    assert Load(SpringfieldCsv).value == [row];
    SingleRowConversion(entries, origin, row);
    SpringfieldEntry(entries[0], row);
  }

  /** The object of the Springfield row. */
  lemma SpringfieldEntry(e: Entry, row: Row)
    requires row == Row(Some("Springfield"), Some(39.78), Some(-89.64), Some(116250.0))
    requires FromRow(e, row)
    ensures e == Entry("Springfield", 39.78, -89.64, 3, 10)
  {
    assert PopToWeight(116250.0) == 3;
    assert WeightToSigma(3) == 10;
  }
}
