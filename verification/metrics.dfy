/** src/evaluation/metrics.py: Precision@k and Recall@k tables. The per-k
    metrics are placeholders that return 0.0 whatever the results and the
    ground truth; the tables map each requested k to the metric's value. */
module Metrics {
  import opened Seqs

  /** The default `k_values=[2, 4, 6, 8, 10]`. */
  const DefaultKValues: seq<int> := [2, 4, 6, 8, 10]

  /** `_precision_at_k`: a placeholder. */
  function PrecisionAtK<R, G>(results: R, groundTruth: G, k: int): real {
    0.0
  }

  /** `_recall_at_k`: a placeholder. */
  function RecallAtK<R, G>(results: R, groundTruth: G, k: int): real {
    0.0
  }

  /** The loop `for k in k_values: table[k] = metric(k)`: one key per distinct
      k, each holding that k's value (a repeated k is written again with the
      same value). */
  method TableAtK(kValues: seq<int>, metric: int -> real) returns (table: map<int, real>)
    ensures table.Keys == Elems(kValues)
    ensures forall k :: k in table ==> table[k] == metric(k)
  {
    table := map[];
    for i := 0 to |kValues|
      invariant table.Keys == Elems(kValues[..i])
      invariant forall k :: k in table ==> table[k] == metric(k)
    {
      assert kValues[..i + 1] == kValues[..i] + [kValues[i]];
      table := table[kValues[i] := metric(kValues[i])];
    }
    assert kValues[..|kValues|] == kValues;
  }

  /** `calculate_precision_at_k`: the keys are exactly the distinct values of
      `k_values` (none for an empty list) and every value is 0.0. */
  method CalculatePrecisionAtK<R, G>(results: R, groundTruth: G, kValues: seq<int>) returns (table: map<int, real>)
    ensures table.Keys == Elems(kValues)
    ensures forall k :: k in table ==> table[k] == 0.0
  {
    table := TableAtK(kValues, k => PrecisionAtK(results, groundTruth, k));
  }

  /** `calculate_recall_at_k`: the keys are exactly the distinct values of
      `k_values` (none for an empty list) and every value is 0.0. */
  method CalculateRecallAtK<R, G>(results: R, groundTruth: G, kValues: seq<int>) returns (table: map<int, real>)
    ensures table.Keys == Elems(kValues)
    ensures forall k :: k in table ==> table[k] == 0.0
  {
    table := TableAtK(kValues, k => RecallAtK(results, groundTruth, k));
  }

  /** With the default `k_values`, both tables have the keys 2, 4, 6, 8 and
      10, all mapped to 0.0. */
  method CalculateDefaults<R, G>(results: R, groundTruth: G) returns (precision: map<int, real>, recall: map<int, real>)
    ensures precision.Keys == {2, 4, 6, 8, 10} && recall.Keys == {2, 4, 6, 8, 10}
    ensures forall k :: k in precision ==> precision[k] == 0.0
    ensures forall k :: k in recall ==> recall[k] == 0.0
  {
    assert Elems(DefaultKValues) == {2, 4, 6, 8, 10} by {
      assert DefaultKValues[0] == 2 && DefaultKValues[1] == 4 && DefaultKValues[2] == 6;
      assert DefaultKValues[3] == 8 && DefaultKValues[4] == 10;
    }
    precision := CalculatePrecisionAtK(results, groundTruth, DefaultKValues);
    recall := CalculateRecallAtK(results, groundTruth, DefaultKValues);
  }
}
