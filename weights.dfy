/** Whole-number weights: the unit weight 1 summed, and the per-key grouping of the shuffle. */
module Weights {
  import opened Keys

  /** The sum of a list of weights, as accumulated left to right. */
  function Sum(ws: seq<nat>): nat {
    if ws == [] then 0 else Sum(ws[..|ws| - 1]) + ws[|ws| - 1]
  }

  /** Sums split over concatenation: the correctness argument for pre-aggregation. */
  lemma {:induction false} SumConcat(a: seq<nat>, b: seq<nat>)
    ensures Sum(a + b) == Sum(a) + Sum(b)
    decreases |b|
  {
    if b == [] {
      assert a + b == a;
    } else {
      var b' := b[..|b| - 1];
      assert (a + b)[..|a + b| - 1] == a + b';
      SumConcat(a, b');
    }
  }

  /** A list of unit weights sums to its length. */
  lemma {:induction false} SumOfOnes(ws: seq<nat>)
    requires forall i :: 0 <= i < |ws| ==> ws[i] == 1
    ensures Sum(ws) == |ws|
    decreases |ws|
  {
    if ws != [] {
      SumOfOnes(ws[..|ws| - 1]);
    }
  }

  /** The values the shuffle hands to the call for key `k`: those of the records with that key, in order. */
  function ValuesFor(rs: seq<Record<nat>>, k: Pair): seq<nat> {
    if rs == [] then []
    else
      var last := rs[|rs| - 1];
      ValuesFor(rs[..|rs| - 1], k) + (if last.key == k then [last.value] else [])
  }

  /** The total weight of key `k` in a list of records. */
  function Total(rs: seq<Record<nat>>, k: Pair): nat {
    Sum(ValuesFor(rs, k))
  }

  lemma {:induction false} ValuesForConcat(a: seq<Record<nat>>, b: seq<Record<nat>>, k: Pair)
    ensures ValuesFor(a + b, k) == ValuesFor(a, k) + ValuesFor(b, k)
    decreases |b|
  {
    if b == [] {
      assert a + b == a;
    } else {
      var b' := b[..|b| - 1];
      assert (a + b)[..|a + b| - 1] == a + b';
      ValuesForConcat(a, b', k);
    }
  }

  /** Totals split over concatenation of record lists. */
  lemma {:induction false} TotalConcat(a: seq<Record<nat>>, b: seq<Record<nat>>, k: Pair)
    ensures Total(a + b, k) == Total(a, k) + Total(b, k)
  {
    ValuesForConcat(a, b, k);
    SumConcat(ValuesFor(a, k), ValuesFor(b, k));
  }

  /** Every value handed to the call for `k` is the value of some record with key `k`. */
  lemma {:induction false} ValuesComeFromRecords(rs: seq<Record<nat>>, k: Pair, i: nat)
    requires i < |ValuesFor(rs, k)|
    ensures exists m :: 0 <= m < |rs| && rs[m].key == k && rs[m].value == ValuesFor(rs, k)[i]
    decreases |rs|
  {
    var init, last := rs[..|rs| - 1], rs[|rs| - 1];
    var vs0 := ValuesFor(init, k);
    if i < |vs0| {
      ValuesComeFromRecords(init, k, i);
      var m :| 0 <= m < |init| && init[m].key == k && init[m].value == vs0[i];
      assert rs[m] == init[m];
    } else {
      assert rs[|rs| - 1].key == k && rs[|rs| - 1].value == ValuesFor(rs, k)[i];
    }
  }

  /**
   * When every record carries the unit weight, a key's total is the number
   * of records with that key.
   */
  lemma {:induction false} TotalOfUnitRecords(rs: seq<Record<nat>>, k: Pair)
    requires forall m :: 0 <= m < |rs| ==> rs[m].value == 1
    ensures Total(rs, k) == |ValuesFor(rs, k)|
  {
    var vs := ValuesFor(rs, k);
    forall i | 0 <= i < |vs|
      ensures vs[i] == 1
    {
      ValuesComeFromRecords(rs, k, i);
      var m :| 0 <= m < |rs| && rs[m].key == k && rs[m].value == vs[i];
    }
    SumOfOnes(vs);
  }
}
