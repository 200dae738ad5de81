/**
 * The two ordered threshold tables of the converter: population to weight
 * (`pop_to_weight`) and weight to smoothing radius in kilometres
 * (`weight_to_sigma`).
 */
module Buckets {

  /** Every weight `pop_to_weight` can return. */
  const Weights: set<int> := {1, 2, 3, 4, 5, 7, 10, 16, 23}

  /** Every radius `weight_to_sigma` can return. */
  const Sigmas: set<int> := {5, 10, 12, 14, 16}

  /**
   * `pop_to_weight`: the first strict upper bound the population lies below
   * decides the weight; from eight million on the weight is 23. A negative or
   * zero population is not guarded against and falls into the first bucket.
   */
  function PopToWeight(pop: real): (w: int)
    ensures w in Weights
    ensures w == 1 <==> pop < 20000.0
    ensures w == 23 <==> pop >= 8000000.0
  {
    if pop < 20000.0 then 1
    else if pop < 50000.0 then 2
    else if pop < 120000.0 then 3
    else if pop < 250000.0 then 4
    else if pop < 500000.0 then 5
    else if pop < 1000000.0 then 7
    else if pop < 3000000.0 then 10
    else if pop < 8000000.0 then 16
    else 23
  }

  /**
   * `weight_to_sigma`: the first inclusive upper bound the weight does not
   * exceed decides the radius; above 16 the radius is 16.
   */
  function WeightToSigma(w: int): (s: int)
    ensures s in Sigmas
    ensures s == 5 <==> w <= 2
    ensures s == 16 <==> w > 16
  {
    if w <= 2 then 5
    else if w <= 5 then 10
    else if w <= 9 then 12
    else if w <= 16 then 14
    else 16
  }

  lemma PopToWeightMonotonic(p: real, q: real)
    requires p <= q
    ensures PopToWeight(p) <= PopToWeight(q)
  {
  }

  lemma WeightToSigmaMonotonic(v: int, w: int)
    requires v <= w
    ensures WeightToSigma(v) <= WeightToSigma(w)
  {
  }

  /**
   * The radius on the weights `pop_to_weight` actually produces: 1 and 2 give
   * 5; 3, 4 and 5 give 10; 7 gives 12; 10 and 16 give 14; 23 gives 16.
   */
  lemma SigmaOfProducedWeights(w: int)
    requires w in Weights
    ensures w in {1, 2} <==> WeightToSigma(w) == 5
    ensures w in {3, 4, 5} <==> WeightToSigma(w) == 10
    ensures w == 7 <==> WeightToSigma(w) == 12
    ensures w in {10, 16} <==> WeightToSigma(w) == 14
    ensures w == 23 <==> WeightToSigma(w) == 16
  {
  }

  /** The radius of a city read directly off its population. */
  lemma SigmaOfPopulation(p: real)
    ensures WeightToSigma(PopToWeight(p)) == 5 <==> p < 50000.0
    ensures WeightToSigma(PopToWeight(p)) == 10 <==> 50000.0 <= p < 500000.0
    ensures WeightToSigma(PopToWeight(p)) == 12 <==> 500000.0 <= p < 1000000.0
    ensures WeightToSigma(PopToWeight(p)) == 14 <==> 1000000.0 <= p < 8000000.0
    ensures WeightToSigma(PopToWeight(p)) == 16 <==> 8000000.0 <= p
  {
  }

  /** The radius never decreases as the population grows. */
  lemma SigmaMonotonicInPopulation(p: real, q: real)
    requires p <= q
    ensures WeightToSigma(PopToWeight(p)) <= WeightToSigma(PopToWeight(q))
  {
    PopToWeightMonotonic(p, q);
    WeightToSigmaMonotonic(PopToWeight(p), PopToWeight(q));
  }

  // Reference definition: the tables as ordered (bound, result) pairs scanned
  // from the first row, with a result for inputs past the last bound.

  /** The first row whose strict bound `x` lies below gives the result. */
  function ScanBelow(table: seq<(real, int)>, otherwise: int, x: real): int
  {
    if table == [] then otherwise
    else if x < table[0].0 then table[0].1
    else ScanBelow(table[1..], otherwise, x)
  }

  /** The first row whose inclusive bound `x` does not exceed gives the result. */
  function ScanAtMost(table: seq<(int, int)>, otherwise: int, x: int): int
  {
    if table == [] then otherwise
    else if x <= table[0].0 then table[0].1
    else ScanAtMost(table[1..], otherwise, x)
  }

  const PopulationTable: seq<(real, int)> :=
    [(20000.0, 1), (50000.0, 2), (120000.0, 3), (250000.0, 4), (500000.0, 5),
     (1000000.0, 7), (3000000.0, 10), (8000000.0, 16)]

  const WeightTable: seq<(int, int)> := [(2, 5), (5, 10), (9, 12), (16, 14)]

  /** Bounds strictly ascending, results non-decreasing and never above the fall-through result. */
  ghost predicate Ascending(table: seq<(real, int)>, otherwise: int)
  {
    && (forall i, j :: 0 <= i < j < |table| ==> table[i].0 < table[j].0 && table[i].1 <= table[j].1)
    && (forall i :: 0 <= i < |table| ==> table[i].1 <= otherwise)
  }

  lemma {:induction false} ScanBelowAtLeastFirst(table: seq<(real, int)>, otherwise: int, x: real)
    requires table != [] && Ascending(table, otherwise)
    ensures table[0].1 <= ScanBelow(table, otherwise, x)
  {
    if x >= table[0].0 && |table| > 1 {
      assert Ascending(table[1..], otherwise) by {
        forall i, j | 0 <= i < j < |table[1..]|
          ensures table[1..][i].0 < table[1..][j].0 && table[1..][i].1 <= table[1..][j].1
        {
          assert table[1..][i] == table[i + 1] && table[1..][j] == table[j + 1];
        }
      }
      ScanBelowAtLeastFirst(table[1..], otherwise, x);
      assert table[0].1 <= table[1].1;
    }
  }

  /** Scanning an ascending table is non-decreasing in the input. */
  lemma {:induction false} ScanBelowMonotonic(table: seq<(real, int)>, otherwise: int, p: real, q: real)
    requires Ascending(table, otherwise)
    requires p <= q
    ensures ScanBelow(table, otherwise, p) <= ScanBelow(table, otherwise, q)
  {
    if table != [] {
      if p < table[0].0 {
        ScanBelowAtLeastFirst(table, otherwise, q);
      } else {
        assert Ascending(table[1..], otherwise) by {
          forall i, j | 0 <= i < j < |table[1..]|
            ensures table[1..][i].0 < table[1..][j].0 && table[1..][i].1 <= table[1..][j].1
          {
            assert table[1..][i] == table[i + 1] && table[1..][j] == table[j + 1];
          }
        }
        ScanBelowMonotonic(table[1..], otherwise, p, q);
      }
    }
  }

  /** `pop_to_weight` is the scan of the population table. */
  lemma PopToWeightIsTableScan(pop: real)
    ensures PopToWeight(pop) == ScanBelow(PopulationTable, 23, pop)
  {
    var t := PopulationTable;
    assert ScanBelow(t, 23, pop) == if pop < 20000.0 then 1 else ScanBelow(t[1..], 23, pop);
    assert ScanBelow(t[1..], 23, pop) == if pop < 50000.0 then 2 else ScanBelow(t[2..], 23, pop);
    assert ScanBelow(t[2..], 23, pop) == if pop < 120000.0 then 3 else ScanBelow(t[3..], 23, pop);
    assert ScanBelow(t[3..], 23, pop) == if pop < 250000.0 then 4 else ScanBelow(t[4..], 23, pop);
    assert ScanBelow(t[4..], 23, pop) == if pop < 500000.0 then 5 else ScanBelow(t[5..], 23, pop);
    assert ScanBelow(t[5..], 23, pop) == if pop < 1000000.0 then 7 else ScanBelow(t[6..], 23, pop);
    assert ScanBelow(t[6..], 23, pop) == if pop < 3000000.0 then 10 else ScanBelow(t[7..], 23, pop);
    assert ScanBelow(t[7..], 23, pop) == if pop < 8000000.0 then 16 else ScanBelow(t[8..], 23, pop);
    assert t[8..] == [];
  }

  /** `weight_to_sigma` is the scan of the weight table. */
  lemma WeightToSigmaIsTableScan(w: int)
    ensures WeightToSigma(w) == ScanAtMost(WeightTable, 16, w)
  {
    var t := WeightTable;
    assert ScanAtMost(t, 16, w) == if w <= 2 then 5 else ScanAtMost(t[1..], 16, w);
    assert ScanAtMost(t[1..], 16, w) == if w <= 5 then 10 else ScanAtMost(t[2..], 16, w);
    assert ScanAtMost(t[2..], 16, w) == if w <= 9 then 12 else ScanAtMost(t[3..], 16, w);
    assert ScanAtMost(t[3..], 16, w) == if w <= 16 then 14 else ScanAtMost(t[4..], 16, w);
    assert t[4..] == [];
  }

  /** The population table is ascending, so its scan, and `pop_to_weight`, are monotonic. */
  lemma PopulationTableMonotonic(p: real, q: real)
    requires p <= q
    ensures ScanBelow(PopulationTable, 23, p) <= ScanBelow(PopulationTable, 23, q)
  {
    ScanBelowMonotonic(PopulationTable, 23, p, q);
  }
}
