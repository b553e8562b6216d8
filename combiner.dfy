/**
 * MyCombiner: the map-side pre-aggregation. One call receives all values of
 * one key from one map task and emits that key once with their sum.
 */
module Combiner {
  import opened Keys
  import opened Weights

  /** MyCombiner.reduce: sums the values of `key` and emits a single record. */
  method Combine(key: Pair, values: seq<nat>) returns (emitted: seq<Record<nat>>)
    ensures |emitted| == 1
    ensures emitted[0].key == key
    ensures emitted[0].value == Sum(values)
  {
    var sum := 0;
    var i := 0;
    while i < |values|
      invariant 0 <= i <= |values|
      invariant sum == Sum(values[..i])
    {
      assert values[..i + 1][..i] == values[..i];
      sum := sum + values[i];
      i := i + 1;
    }
    assert values[..i] == values;
    emitted := [Record(key, sum)];
  }

  /** The values one key reaches the reducer with when every map task's output is combined first. */
  function CombinedValues(tasks: seq<seq<Record<nat>>>, k: Pair): seq<nat> {
    if tasks == [] then []
    else
      var last := tasks[|tasks| - 1];
      CombinedValues(tasks[..|tasks| - 1], k) + (if ValuesFor(last, k) == [] then [] else [Sum(ValuesFor(last, k))])
  }

  /** All map tasks' outputs, in order. */
  function Flatten(tasks: seq<seq<Record<nat>>>): seq<Record<nat>> {
    if tasks == [] then [] else Flatten(tasks[..|tasks| - 1]) + tasks[|tasks| - 1]
  }

  /**
   * Running the combiner on each map task's output leaves every key's total
   * unchanged: the reducer sums to the same count with or without it.
   */
  lemma {:induction false} CombiningPreservesTotals(tasks: seq<seq<Record<nat>>>, k: Pair)
    ensures Sum(CombinedValues(tasks, k)) == Total(Flatten(tasks), k)
    decreases |tasks|
  {
    if tasks != [] {
      var init, last := tasks[..|tasks| - 1], tasks[|tasks| - 1];
      CombiningPreservesTotals(init, k);
      TotalConcat(Flatten(init), last, k);
      var extra := if ValuesFor(last, k) == [] then [] else [Sum(ValuesFor(last, k))];
      SumConcat(CombinedValues(init, k), extra);
      assert Sum(extra) == Total(last, k) by {
        if ValuesFor(last, k) != [] {
          assert extra[..0] == [];
        }
      }
    }
  }
}
