/**
 * Properties of the stages taken together: what the counts reaching the
 * reducer look like, where they are routed, and a worked example.
 */
module Pipeline {
  import opened Keys
  import opened Weights
  import opened Tokenizer
  import opened Mapper
  import opened Reducer
  import opened Partitioner

  /** The records the mapper emits over a whole input, line by line. */
  function CorpusRecords(lines: seq<string>): (rs: seq<Record<nat>>) {
    if lines == [] then [] else CorpusRecords(lines[..|lines| - 1]) + BigramRecords(Tokens(lines[|lines| - 1]))
  }

  /** The weight of key `k` in the two records emitted for one adjacent pair. */
  lemma {:induction false} TotalOfOneBigram(prev: string, cur: string, k: Pair)
    ensures Total([Record(Pair(prev, cur), One), Record(Pair(prev, Marker), One)], k)
         == (if Pair(prev, cur) == k then 1 else 0) + (if Pair(prev, Marker) == k then 1 else 0)
  {
    var rs := [Record(Pair(prev, cur), One), Record(Pair(prev, Marker), One)];
    assert rs[..1][..0] == [];
    var vs := ValuesFor(rs, k);
    var vs1 := ValuesFor(rs[..1], k);
    assert ValuesFor(rs[..1][..0], k) == [];
    assert vs1 == if Pair(prev, cur) == k then [One] else [];
    assert vs == vs1 + (if Pair(prev, Marker) == k then [One] else []);
    SumConcat(vs1, if Pair(prev, Marker) == k then [One] else []);
    assert Sum(vs1) == if Pair(prev, cur) == k then 1 else 0 by {
      if Pair(prev, cur) == k {
        assert vs1 == [One];
        assert vs1[..0] == [];
      }
    }
    assert Sum(if Pair(prev, Marker) == k then [One] else []) == if Pair(prev, Marker) == k then 1 else 0 by {
      assert [One][..0] == [];
    }
  }

  /**
   * Every bigram record is followed by a marginal record for the same left
   * word, so on one line a bigram (w, x) never outweighs its marginal (w, "*").
   */
  lemma {:induction false} BigramCountAtMostMarginal(ts: seq<string>, w: string, x: string)
    requires x != Marker
    ensures Total(BigramRecords(ts), Pair(w, x)) <= Total(BigramRecords(ts), Pair(w, Marker))
    decreases |ts|
  {
    if |ts| >= 2 {
      var init := ts[..|ts| - 1];
      var prev, cur := Truncate(ts[|ts| - 2]), Truncate(ts[|ts| - 1]);
      var tail := [Record(Pair(prev, cur), One), Record(Pair(prev, Marker), One)];
      BigramCountAtMostMarginal(init, w, x);
      TotalConcat(BigramRecords(init), tail, Pair(w, x));
      TotalConcat(BigramRecords(init), tail, Pair(w, Marker));
      TotalOfOneBigram(prev, cur, Pair(w, x));
      TotalOfOneBigram(prev, cur, Pair(w, Marker));
    }
  }

  /** The same bound over a whole input: the count of (w, x) is at most the count of (w, "*"). */
  lemma {:induction false} CorpusBigramCountAtMostMarginal(lines: seq<string>, w: string, x: string)
    requires x != Marker
    ensures Total(CorpusRecords(lines), Pair(w, x)) <= Total(CorpusRecords(lines), Pair(w, Marker))
    decreases |lines|
  {
    if lines != [] {
      var init := lines[..|lines| - 1];
      var last := BigramRecords(Tokens(lines[|lines| - 1]));
      CorpusBigramCountAtMostMarginal(init, w, x);
      BigramCountAtMostMarginal(Tokens(lines[|lines| - 1]), w, x);
      TotalConcat(CorpusRecords(init), last, Pair(w, x));
      TotalConcat(CorpusRecords(init), last, Pair(w, Marker));
    }
  }

  /**
   * The relative frequency the reducer emits for a bigram that occurs in
   * the input, divided by its left word's full marginal, is a finite
   * number in (0, 1].
   */
  lemma {:induction false} RelativeFrequencyInUnitInterval(lines: seq<string>, w: string, x: string)
    requires x != Marker
    requires Total(CorpusRecords(lines), Pair(w, x)) > 0
    ensures var f := Divide(Total(CorpusRecords(lines), Pair(w, x)), Total(CorpusRecords(lines), Pair(w, Marker)));
            f.Finite? && 0.0 < f.value <= 1.0
  {
    CorpusBigramCountAtMostMarginal(lines, w, x);
  }

  /**
   * What the reducer emits for a bigram, on a stream in the framework's
   * order whose sums are the input's totals, is a finite ratio in (0, 1].
   */
  lemma {:induction false} ReducerRatioInUnitInterval(lines: seq<string>, gs: seq<Group>, j: nat)
    requires SortedForReducer(gs)
    requires forall i :: 0 <= i < |gs| ==> Sum(gs[i].values) == Total(CorpusRecords(lines), gs[i].key)
    requires j < |gs| && !IsMarginal(gs[j].key) && Sum(gs[j].values) > 0
    ensures Outputs(gs, 0)[j].value.Finite?
    ensures 0.0 < Outputs(gs, 0)[j].value.value <= 1.0
  {
    CorpusCountsWithinMarginals(lines, gs);
    RatioInUnitInterval(gs, j);
  }

  /** Groups whose sums are the input's totals never outweigh their marginal. */
  lemma {:induction false} CorpusCountsWithinMarginals(lines: seq<string>, gs: seq<Group>)
    requires forall i :: 0 <= i < |gs| ==> Sum(gs[i].values) == Total(CorpusRecords(lines), gs[i].key)
    ensures CountsWithinMarginals(gs)
  {
    forall i, m | 0 <= i < |gs| && 0 <= m < |gs| && gs[m].key == Pair(gs[i].key.left, Marker)
      ensures Sum(gs[i].values) <= Sum(gs[m].values)
    {
      if !IsMarginal(gs[i].key) {
        CorpusBigramCountAtMostMarginal(lines, gs[i].key.left, gs[i].key.right);
      }
    }
  }

  /** Every mapper record has the unit weight. */
  lemma {:induction false} CorpusRecordsHaveUnitWeight(lines: seq<string>, m: nat)
    requires m < |CorpusRecords(lines)|
    ensures CorpusRecords(lines)[m].value == 1
    decreases |lines|
  {
    var init := CorpusRecords(lines[..|lines| - 1]);
    var ts := Tokens(lines[|lines| - 1]);
    if m < |init| {
      CorpusRecordsHaveUnitWeight(lines[..|lines| - 1], m);
    } else {
      RecordShape(ts, m - |init|);
    }
  }

  /** A key's total over the input is the number of records the mappers emit with that key. */
  lemma {:induction false} CorpusTotalCountsRecords(lines: seq<string>, k: Pair)
    ensures Total(CorpusRecords(lines), k) == |ValuesFor(CorpusRecords(lines), k)|
  {
    forall m | 0 <= m < |CorpusRecords(lines)|
      ensures CorpusRecords(lines)[m].value == 1
    {
      CorpusRecordsHaveUnitWeight(lines, m);
    }
    TotalOfUnitRecords(CorpusRecords(lines), k);
  }

  /**
   * Record 2k (the bigram) and record 2k+1 (its marginal) go to the same
   * reduce task, whatever the number of tasks.
   */
  lemma {:induction false} BigramMeetsItsMarginal(ts: seq<string>, k: nat, numReduceTasks: int)
    requires k + 1 < |ts|
    ensures 2 * k + 1 < |BigramRecords(ts)|
    ensures BigramRecords(ts)[2 * k + 1].key == Pair(BigramRecords(ts)[2 * k].key.left, Marker)
    ensures GetPartition(BigramRecords(ts)[2 * k].key, numReduceTasks)
         == GetPartition(BigramRecords(ts)[2 * k + 1].key, numReduceTasks)
  {
    BigramRecordsAt(ts, k);
  }

  /**
   * The marker is told apart from words by value only: a line containing the
   * token "*" emits a bigram record indistinguishable from a marginal record,
   * so "a *" gives "a" a marginal count of 2 from a single bigram.
   */
  lemma {:induction false} MarkerTokenCollides()
    ensures BigramRecords(Tokens("a *")) == [Record(Pair("a", Marker), One), Record(Pair("a", Marker), One)]
    ensures Total(BigramRecords(Tokens("a *")), Pair("a", Marker)) == 2
  {
    TokensOfJoin(["a", "*"]);
    assert Join(["a", "*"]) == "a *";
    var rs := BigramRecords(["a", "*"]);
    assert rs == [Record(Pair("a", Marker), One), Record(Pair("a", Marker), One)];
    TotalOfOneBigram("a", "*", Pair("a", Marker));
  }

  /** The words of the worked example, joined by single spaces, give its line. */
  lemma {:induction false} WorkedExampleLine()
    ensures Join(["the", "cat", "sat", "the", "cat", "ran"]) == "the cat sat the cat ran"
  {
    var ws := ["the", "cat", "sat", "the", "cat", "ran"];
    assert Join(ws[5..]) == "ran";
    assert Join(ws[4..]) == "cat ran";
    assert Join(ws[3..]) == "the cat ran";
    assert Join(ws[2..]) == "sat the cat ran";
    assert Join(ws[1..]) == "cat sat the cat ran";
  }

  /** Worked example, tokenizing: the line splits into its six words. */
  lemma {:induction false} WorkedExampleTokens()
    ensures Tokens("the cat sat the cat ran") == ["the", "cat", "sat", "the", "cat", "ran"]
  {
    var ws := ["the", "cat", "sat", "the", "cat", "ran"];
    assert forall k :: 0 <= k < |ws| ==> IsWord(ws[k]);
    TokensOfJoin(ws);
    WorkedExampleLine();
  }

  /** Worked example, map side: the records emitted for the six words. */
  lemma {:induction false} WorkedExampleRecords()
    ensures BigramRecords(["the", "cat", "sat", "the", "cat", "ran"]) == [
      Record(Pair("the", "cat"), 1), Record(Pair("the", Marker), 1),
      Record(Pair("cat", "sat"), 1), Record(Pair("cat", Marker), 1),
      Record(Pair("sat", "the"), 1), Record(Pair("sat", Marker), 1),
      Record(Pair("the", "cat"), 1), Record(Pair("the", Marker), 1),
      Record(Pair("cat", "ran"), 1), Record(Pair("cat", Marker), 1)]
  {
    var ws := ["the", "cat", "sat", "the", "cat", "ran"];
    assert Truncate("the") == "the" && Truncate("cat") == "cat";
    assert Truncate("sat") == "sat" && Truncate("ran") == "ran";
    BigramRecordsAt(ws, 0);
    BigramRecordsAt(ws, 1);
    BigramRecordsAt(ws, 2);
    BigramRecordsAt(ws, 3);
    BigramRecordsAt(ws, 4);
  }

  /** Worked example, whole map call: the ten records emitted for "the cat sat the cat ran", in order. */
  lemma {:induction false} WorkedExampleMap(line: string)
    requires line == "the cat sat the cat ran"
    ensures BigramRecords(Tokens(line)) == [
      Record(Pair("the", "cat"), 1), Record(Pair("the", Marker), 1),
      Record(Pair("cat", "sat"), 1), Record(Pair("cat", Marker), 1),
      Record(Pair("sat", "the"), 1), Record(Pair("sat", Marker), 1),
      Record(Pair("the", "cat"), 1), Record(Pair("the", Marker), 1),
      Record(Pair("cat", "ran"), 1), Record(Pair("cat", Marker), 1)]
  {
    WorkedExampleTokens();
    WorkedExampleRecords();
  }

  /**
   * Worked example, reduce side: the summed keys of that line in an order the
   * framework's sort may deliver them to one reducer, and what it emits.
   */
  lemma {:induction false} WorkedExampleReduce(gs: seq<Group>)
    requires gs == [
      Group(Pair("cat", Marker), [1, 1]), Group(Pair("cat", "ran"), [1]), Group(Pair("cat", "sat"), [1]),
      Group(Pair("sat", Marker), [1]), Group(Pair("sat", "the"), [1]),
      Group(Pair("the", Marker), [1, 1]), Group(Pair("the", "cat"), [1, 1])]
    ensures Outputs(gs, 0) == [
      Record(Pair("cat", Marker), Finite(2.0)), Record(Pair("cat", "ran"), Finite(0.5)),
      Record(Pair("cat", "sat"), Finite(0.5)),
      Record(Pair("sat", Marker), Finite(1.0)), Record(Pair("sat", "the"), Finite(1.0)),
      Record(Pair("the", Marker), Finite(2.0)), Record(Pair("the", "cat"), Finite(1.0))]
  {
    assert Sum([1]) == 1 by { assert [1][..0] == []; }
    assert Sum([1, 1]) == 2 by { assert [1, 1][..1] == [1]; assert [1][..0] == []; }
    assert "ran" != Marker && "sat" != Marker && "the" != Marker && "cat" != Marker;
    MarginalAfterIsLastMarginal(gs[..1], 0);
    MarginalAfterIsLastMarginal(gs[..2], 0);
    MarginalAfterIsLastMarginal(gs[..3], 0);
    MarginalAfterIsLastMarginal(gs[..4], 0);
    MarginalAfterIsLastMarginal(gs[..5], 0);
    MarginalAfterIsLastMarginal(gs[..6], 0);
    OutputAt(gs, 0, 0);
    OutputAt(gs, 0, 1);
    OutputAt(gs, 0, 2);
    OutputAt(gs, 0, 3);
    OutputAt(gs, 0, 4);
    OutputAt(gs, 0, 5);
    OutputAt(gs, 0, 6);
  }
}
