/**
 * MyReducer: sums each key's values; on a marginal key (w, "*") emits the
 * sum and remembers it in `marginal`; on any other key emits sum / marginal.
 * The division is unguarded: with no marginal seen yet, `marginal` is 0.
 */
module Reducer {
  import opened Keys
  import opened Weights

  /** A float the reducer can emit: an exact ratio, or the result of dividing by zero. */
  datatype Frequency = Finite(value: real) | PositiveInfinity | NaN

  /** Float division of a count by a marginal, with Java's results for a zero divisor. */
  function Divide(count: nat, marginal: nat): (r: Frequency)
    ensures r.Finite? <==> marginal > 0
    ensures r.Finite? ==> r.value * (marginal as real) == count as real
    ensures r.NaN? <==> marginal == 0 && count == 0
    ensures r.Finite? && count <= marginal ==> 0.0 <= r.value <= 1.0
    ensures r.Finite? && count > 0 ==> r.value > 0.0
  {
    if marginal == 0 then (if count == 0 then NaN else PositiveInfinity)
    else Finite(count as real / marginal as real)
  }

  /** The record one call emits for `key` with summed values `sum`, given the stored marginal. */
  function Emit(key: Pair, sum: nat, marginal: nat): Record<Frequency> {
    if IsMarginal(key) then Record(key, Finite(sum as real)) else Record(key, Divide(sum, marginal))
  }

  /** The stored marginal after one call. */
  function NextMarginal(key: Pair, sum: nat, marginal: nat): nat {
    if IsMarginal(key) then sum else marginal
  }

  /** One call of the reducer: a key with all its values. */
  datatype Group = Group(key: Pair, values: seq<nat>)

  /** The stored marginal after a stream of calls starting from `initial`. */
  function MarginalAfter(gs: seq<Group>, initial: nat): nat {
    if gs == [] then initial
    else
      var last := gs[|gs| - 1];
      NextMarginal(last.key, Sum(last.values), MarginalAfter(gs[..|gs| - 1], initial))
  }

  /** Everything a stream of calls emits, in order, starting from stored marginal `initial`. */
  function Outputs(gs: seq<Group>, initial: nat): (out: seq<Record<Frequency>>)
    ensures |out| == |gs|
  {
    if gs == [] then []
    else
      var init, last := gs[..|gs| - 1], gs[|gs| - 1];
      Outputs(init, initial) + [Emit(last.key, Sum(last.values), MarginalAfter(init, initial))]
  }

  /** The index of the last marginal key in `gs`, or -1 when there is none. */
  function LastMarginal(gs: seq<Group>): (r: int)
    ensures -1 <= r < |gs|
    ensures r >= 0 ==> IsMarginal(gs[r].key)
    ensures forall m :: r < m < |gs| ==> !IsMarginal(gs[m].key)
  {
    if gs == [] then -1
    else if IsMarginal(gs[|gs| - 1].key) then |gs| - 1
    else LastMarginal(gs[..|gs| - 1])
  }

  /** The stored marginal is the sum of the most recent marginal key, or the initial value if none came yet. */
  lemma {:induction false} MarginalAfterIsLastMarginal(gs: seq<Group>, initial: nat)
    ensures var l := LastMarginal(gs);
            MarginalAfter(gs, initial) == if l < 0 then initial else Sum(gs[l].values)
    decreases |gs|
  {
    if gs != [] && !IsMarginal(gs[|gs| - 1].key) {
      var init := gs[..|gs| - 1];
      MarginalAfterIsLastMarginal(init, initial);
      var l := LastMarginal(init);
      assert l >= 0 ==> init[l] == gs[l];
    }
  }

  /** The j-th output is what one call emits for the j-th key given the marginal left by the calls before it. */
  lemma {:induction false} OutputAt(gs: seq<Group>, initial: nat, j: nat)
    requires j < |gs|
    ensures Outputs(gs, initial)[j] == Emit(gs[j].key, Sum(gs[j].values), MarginalAfter(gs[..j], initial))
    decreases |gs|
  {
    if j < |gs| - 1 {
      var init := gs[..|gs| - 1];
      OutputAt(init, initial, j);
      assert init[..j] == gs[..j];
      assert init[j] == gs[j];
    } else {
      assert gs[..|gs| - 1] == gs[..j];
    }
  }

  /** Keys sharing a left word arrive one after another, never interleaved with other left words. */
  ghost predicate LeftWordsContiguous(gs: seq<Group>) {
    forall i, m, j :: 0 <= i < m < j < |gs| && gs[i].key.left == gs[j].key.left ==>
      gs[m].key.left == gs[i].key.left
  }

  /** Each non-marginal key (w, x) is preceded by the marginal key (w, "*"). */
  ghost predicate MarginalComesFirst(gs: seq<Group>) {
    forall j :: 0 <= j < |gs| && !IsMarginal(gs[j].key) ==>
      exists i :: 0 <= i < j && gs[i].key == Pair(gs[j].key.left, Marker)
  }

  /** What the framework's sort and grouping guarantee within one reducer. */
  ghost predicate SortedForReducer(gs: seq<Group>) {
    LeftWordsContiguous(gs) && MarginalComesFirst(gs)
  }

  /** In the framework's order, the last marginal key before a non-marginal key (w, x) is (w, "*"). */
  lemma {:induction false} LastMarginalIsOwn(gs: seq<Group>, j: nat)
    requires SortedForReducer(gs)
    requires j < |gs| && !IsMarginal(gs[j].key)
    ensures 0 <= LastMarginal(gs[..j]) < j
    ensures gs[LastMarginal(gs[..j])].key == Pair(gs[j].key.left, Marker)
  {
    var w := gs[j].key.left;
    var i0 :| 0 <= i0 < j && gs[i0].key == Pair(w, Marker);
    var prefix := gs[..j];
    var l := LastMarginal(prefix);
    assert prefix[i0] == gs[i0];
    assert i0 <= l;
    assert prefix[l] == gs[l];
    if i0 < l {
      assert gs[l].key.left == gs[i0].key.left;
    }
  }

  /**
   * On a stream in the framework's order, starting from the fresh reducer,
   * every marginal key is emitted with its sum and every other key (w, x)
   * with its sum divided by the sum of an earlier (w, "*").
   */
  lemma {:induction false} ReducerNormalizes(gs: seq<Group>, j: nat)
    requires SortedForReducer(gs)
    requires j < |gs|
    ensures Outputs(gs, 0)[j].key == gs[j].key
    ensures IsMarginal(gs[j].key) ==> Outputs(gs, 0)[j].value == Finite(Sum(gs[j].values) as real)
    ensures !IsMarginal(gs[j].key) ==>
              exists i :: 0 <= i < j && gs[i].key == Pair(gs[j].key.left, Marker) &&
                Outputs(gs, 0)[j].value == Divide(Sum(gs[j].values), Sum(gs[i].values))
  {
    OutputAt(gs, 0, j);
    if !IsMarginal(gs[j].key) {
      var prefix := gs[..j];
      MarginalAfterIsLastMarginal(prefix, 0);
      LastMarginalIsOwn(gs, j);
      var l := LastMarginal(prefix);
      assert prefix[l] == gs[l];
    }
  }

  /**
   * On a stream in the framework's order whose marginal keys all have a
   * positive sum (as every mapper-produced marginal does), no output is a
   * division by zero.
   */
  lemma {:induction false} NoDivisionByZero(gs: seq<Group>, j: nat)
    requires SortedForReducer(gs)
    requires forall i :: 0 <= i < |gs| && IsMarginal(gs[i].key) ==> Sum(gs[i].values) > 0
    requires j < |gs|
    ensures Outputs(gs, 0)[j].value.Finite?
  {
    ReducerNormalizes(gs, j);
  }

  /** No key outweighs the marginal key of its left word. */
  ghost predicate CountsWithinMarginals(gs: seq<Group>) {
    forall i, m :: 0 <= i < |gs| && 0 <= m < |gs| && gs[m].key == Pair(gs[i].key.left, Marker) ==>
      Sum(gs[i].values) <= Sum(gs[m].values)
  }

  /**
   * On a stream in the framework's order where no key outweighs its
   * marginal, every key (w, x) that has a positive sum gets a finite ratio
   * in (0, 1].
   */
  lemma {:induction false} RatioInUnitInterval(gs: seq<Group>, j: nat)
    requires SortedForReducer(gs) && CountsWithinMarginals(gs)
    requires j < |gs| && !IsMarginal(gs[j].key) && Sum(gs[j].values) > 0
    ensures Outputs(gs, 0)[j].value.Finite?
    ensures 0.0 < Outputs(gs, 0)[j].value.value <= 1.0
  {
    ReducerNormalizes(gs, j);
    var i :| 0 <= i < j && gs[i].key == Pair(gs[j].key.left, Marker) &&
             Outputs(gs, 0)[j].value == Divide(Sum(gs[j].values), Sum(gs[i].values));
    var count, marginal := Sum(gs[j].values), Sum(gs[i].values);
    assert count <= marginal;
    assert 0 < marginal;
    var r := Divide(count, marginal);
    assert r.Finite? && 0.0 < r.value <= 1.0;
  }

  /**
   * Out of order, the division is unguarded: a non-marginal key reached
   * before any marginal key is divided by the initial marginal 0.
   */
  lemma {:induction false} UnguardedDivision(gs: seq<Group>, j: nat)
    requires j < |gs|
    requires forall m :: 0 <= m <= j ==> !IsMarginal(gs[m].key)
    ensures Outputs(gs, 0)[j].value == Divide(Sum(gs[j].values), 0)
    ensures Sum(gs[j].values) == 0 ==> Outputs(gs, 0)[j].value.NaN?
    ensures Sum(gs[j].values) > 0 ==> Outputs(gs, 0)[j].value.PositiveInfinity?
  {
    var prefix := gs[..j];
    MarginalAfterWithoutMarginal(prefix, 0);
    OutputAt(gs, 0, j);
  }

  /**
   * Out of order, the division uses a stale marginal: a non-marginal key is
   * divided by the sum of the most recent marginal key, whatever its left
   * word.
   */
  lemma {:induction false} StaleMarginal(gs: seq<Group>, i: nat, j: nat)
    requires i < j < |gs|
    requires IsMarginal(gs[i].key)
    requires forall m :: i < m <= j ==> !IsMarginal(gs[m].key)
    ensures Outputs(gs, 0)[j].value == Divide(Sum(gs[j].values), Sum(gs[i].values))
  {
    var prefix := gs[..j];
    MarginalAfterIsLastMarginal(prefix, 0);
    assert prefix[i] == gs[i];
    OutputAt(gs, 0, j);
  }

  /**
   * A stale marginal can give a ratio above one: (w, x) arriving after
   * (v, "*") but before (w, "*") is divided by the count of v.
   */
  lemma {:induction false} StaleMarginalExample(gs: seq<Group>)
    requires gs == [Group(Pair("v", Marker), [1]), Group(Pair("w", "x"), [1, 1]), Group(Pair("w", Marker), [1, 1])]
    ensures Outputs(gs, 0)[1].value == Finite(2.0)
  {
    assert Sum([1]) == 1 by { assert [1][..0] == []; }
    assert Sum([1, 1]) == 2 by { assert [1, 1][..1] == [1]; assert [1][..0] == []; }
    assert "x" != Marker;
    StaleMarginal(gs, 0, 1);
  }

  /** With no marginal key in the stream, the stored marginal keeps its initial value. */
  lemma {:induction false} MarginalAfterWithoutMarginal(gs: seq<Group>, initial: nat)
    requires forall m :: 0 <= m < |gs| ==> !IsMarginal(gs[m].key)
    ensures MarginalAfter(gs, initial) == initial
    decreases |gs|
  {
    if gs != [] {
      MarginalAfterWithoutMarginal(gs[..|gs| - 1], initial);
    }
  }

  /** MyReducer, with its one persistent field. */
  class RelativeFrequencyReducer {
    /** The sum of the most recent marginal key; 0 before the first one. */
    var marginal: nat
    /** The calls made so far. */
    ghost var seen: seq<Group>
    /** Everything emitted so far, as collected. */
    ghost var output: seq<Record<Frequency>>

    ghost predicate Valid()
      reads this
    {
      marginal == MarginalAfter(seen, 0) && output == Outputs(seen, 0)
    }

    constructor ()
      ensures Valid() && seen == [] && output == [] && marginal == 0
    {
      marginal := 0;
      seen := [];
      output := [];
    }

    /** MyReducer.reduce: sums the values, then emits either the marginal or the ratio. */
    method Reduce(key: Pair, values: seq<nat>) returns (emitted: seq<Record<Frequency>>)
      requires Valid()
      modifies this
      ensures Valid()
      ensures seen == old(seen) + [Group(key, values)]
      ensures output == old(output) + emitted
      ensures emitted == [Emit(key, Sum(values), old(marginal))]
      ensures marginal == NextMarginal(key, Sum(values), old(marginal))
    {
      var sum := 0;
      var i := 0;
      while i < |values|
        invariant 0 <= i <= |values|
        invariant sum == Sum(values[..i])
      {
        assert values[..i + 1][..i] == values[..i];
        sum := sum + values[i];
        i := i + 1;
      }
      assert values[..i] == values;

      if key.right == Marker {
        emitted := [Record(key, Finite(sum as real))];
        marginal := sum;
      } else {
        emitted := [Record(key, Divide(sum, marginal))];
      }
      ghost var before := seen;
      seen := seen + [Group(key, values)];
      assert seen[..|seen| - 1] == before;
      output := output + emitted;
    }
  }
}
