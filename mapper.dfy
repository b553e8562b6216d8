/**
 * MyMapper: for every adjacent pair of tokens on a line, emit the bigram key
 * and the marginal key of its left word, each with weight one; words longer
 * than 100 characters are cut to their first 100.
 */
module Mapper {
  import opened Keys
  import opened Tokenizer

  /** The longest word the mapper emits. */
  const MaxWordLength: nat := 100

  /** The weight `one` every mapper record carries. */
  const One: nat := 1

  /** A word cut to its first MaxWordLength characters; never an error. */
  function Truncate(w: string): (r: string)
    ensures r <= w
    ensures |r| == if |w| > MaxWordLength then MaxWordLength else |w|
  {
    if |w| > MaxWordLength then w[..MaxWordLength] else w
  }

  /** Cutting is idempotent: cutting an already cut word again changes nothing. */
  lemma {:induction false} TruncateIdempotent(w: string)
    ensures Truncate(Truncate(w)) == Truncate(w)
  {
  }

  /**
   * The records the mapper emits for the tokens `ts`, in emission order:
   * for each adjacent pair, the bigram record then the marginal record.
   */
  function BigramRecords(ts: seq<string>): (rs: seq<Record<nat>>)
    ensures |rs| == if |ts| < 2 then 0 else 2 * (|ts| - 1)
  {
    if |ts| < 2 then []
    else
      var prev, cur := Truncate(ts[|ts| - 2]), Truncate(ts[|ts| - 1]);
      BigramRecords(ts[..|ts| - 1]) + [Record(Pair(prev, cur), One), Record(Pair(prev, Marker), One)]
  }

  /**
   * Position by position: record 2k is the bigram (t_k, t_k+1), record 2k+1
   * the marginal (t_k, "*"), both with cut words and weight one.
   */
  lemma {:induction false} BigramRecordsAt(ts: seq<string>, k: nat)
    requires k + 1 < |ts|
    ensures 2 * k + 1 < |BigramRecords(ts)|
    ensures BigramRecords(ts)[2 * k] == Record(Pair(Truncate(ts[k]), Truncate(ts[k + 1])), One)
    ensures BigramRecords(ts)[2 * k + 1] == Record(Pair(Truncate(ts[k]), Marker), One)
    decreases |ts|
  {
    if k + 2 < |ts| {
      var init := ts[..|ts| - 1];
      BigramRecordsAt(init, k);
      assert init[k] == ts[k] && init[k + 1] == ts[k + 1];
    }
  }

  /**
   * Every record has weight one; its left word is token j/2 cut to 100
   * characters; its right word is the next token cut, or the marker.
   */
  lemma {:induction false} RecordShape(ts: seq<string>, j: nat)
    requires j < |BigramRecords(ts)|
    ensures j / 2 + 1 < |ts|
    ensures BigramRecords(ts)[j].value == One
    ensures BigramRecords(ts)[j].key.left == Truncate(ts[j / 2])
    ensures BigramRecords(ts)[j].key.right == if j % 2 == 0 then Truncate(ts[j / 2 + 1]) else Marker
  {
    BigramRecordsAt(ts, j / 2);
  }

  /** Every emitted word is at most 100 characters and a prefix of the token it came from. */
  lemma {:induction false} EmittedWordsBounded(ts: seq<string>, j: nat)
    requires j < |BigramRecords(ts)|
    ensures |BigramRecords(ts)[j].key.left| <= MaxWordLength
    ensures BigramRecords(ts)[j].key.left <= ts[j / 2]
    ensures j % 2 == 0 ==> |BigramRecords(ts)[j].key.right| <= MaxWordLength
    ensures j % 2 == 0 ==> BigramRecords(ts)[j].key.right <= ts[j / 2 + 1]
  {
    RecordShape(ts, j);
  }

  /**
   * MyMapper.map on one line: tokenizes it and walks the tokens with the
   * previous word held in `prev` (None until the first token is read).
   */
  method Map(line: string) returns (emitted: seq<Record<nat>>)
    ensures emitted == BigramRecords(Tokens(line))
    ensures |emitted| == if |Tokens(line)| < 2 then 0 else 2 * (|Tokens(line)| - 1)
  {
    var tokens := Tokens(line);
    var prev: Option<string> := None;
    emitted := [];
    var i := 0;
    while i < |tokens|
      invariant 0 <= i <= |tokens|
      invariant i == 0 ==> prev == None
      invariant i == 1 ==> prev == Some(tokens[0])
      invariant i > 1 ==> prev == Some(Truncate(tokens[i - 1]))
      invariant emitted == BigramRecords(tokens[..i])
    {
      var cur := tokens[i];
      if prev.Some? {
        cur := Truncate(cur);
        var p := Truncate(prev.value);
        TruncateIdempotent(tokens[i - 1]);
        emitted := emitted + [Record(Pair(p, cur), One)];
        emitted := emitted + [Record(Pair(p, Marker), One)];
      }
      assert tokens[..i + 1][..i] == tokens[..i];
      prev := Some(cur);
      i := i + 1;
    }
    assert tokens[..i] == tokens;
  }
}
