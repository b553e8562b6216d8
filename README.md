# Bigram relative frequency, modelled in Dafny

This project models the four callbacks of the Cloud9 `BigramRelativeFrequency`
Hadoop example. Together they compute, for every bigram (w, x) in a text, the
relative frequency count(w, x) / count(w, *). The model leaves out the Hadoop
wiring around them.

- **Tokenizer** (`tokenizer.dfy`). A line splits into tokens the way
  `java.util.StringTokenizer` does with its default delimiters: space, tab,
  newline, carriage return and form feed. `Tokens` is a pure function. Its
  partners are a round trip (`TokensOfJoin`) and a characterisation of what
  is kept (`TokensCoverLine`).
- **Mapper** (`mapper.dfy`). `Map` is the `while` loop of `MyMapper.map`. It
  holds the previous word in `prev`, which is `None` where Java has `null`.
  For each adjacent pair it emits the bigram record and then the marginal
  record `(prev, "*")`. Both carry weight `One`, and both words are cut to
  100 characters. The method is proved against the function `BigramRecords`,
  and lemmas give that function's length and contents position by position.
- **Combiner** (`combiner.dfy`). `Combine` is the accumulator loop of
  `MyCombiner.reduce`. It emits the key once, with the sum of its values.
  `CombiningPreservesTotals` shows that combining each map task's output
  first leaves every key's total unchanged.
- **Reducer** (`reducer.dfy`). The class `RelativeFrequencyReducer` has the
  persistent field `marginal`. Its method `Reduce` sums the values. On a
  marginal key it emits the sum and stores it in `marginal`. On any other key
  it emits sum / marginal. The division is unguarded, and `Divide` gives
  Java's float results for a zero divisor: `NaN` for 0/0 and
  `PositiveInfinity` for n/0. Ghost fields record the stream of calls and
  what has been emitted. `Outputs` and `MarginalAfter` specify that stream.
  The framework's sort guarantee is the precondition `SortedForReducer` of
  the stream lemmas. It has two parts: keys that share a left word are
  contiguous, and each (w, x) comes after (w, "*").
- **Partitioner** (`partitioner.dfy`). `GetPartition` computes
  `(hashCode(left) & Integer.MAX_VALUE) % numReduceTasks`. `HashCode` is
  Java's `String.hashCode`: Horner's rule with 31, with the 32-bit wrap-around
  written out as `% 2^32`. `HashCodeIsPolynomial` proves its closed form.
  The mask is a `bv32` `&`. The result depends only on the left word.
  Division by zero is Java's `ArithmeticException`.
- **Pipeline** (`pipeline.dfy`). This file connects the stages. In the
  mapper's output a bigram never outweighs its marginal. So when the reducer
  gets the input's totals in the framework's order, every ratio it emits lies
  in (0, 1] (`ReducerRatioInUnitInterval`). A bigram record and its
  marginal record go to the same reduce task. A literal `*` token collides
  with the marker. The file also works the example line "the cat sat the cat ran" through the stages.

Counts are `nat`. The unit weight `1.0f` summed is always a whole number.
Ratios are exact `real`s.

Behaviours of the code worth noting:

- The code does not check the order of keys before dividing, and neither
  does the model. A key that comes before every marginal key is divided by
  the initial 0, giving `NaN` or `PositiveInfinity` (`UnguardedDivision`).
  A key (w, x) that comes after another word's (v, "*") but before (w, "*")
  is divided by v's sum (`StaleMarginal`). That ratio can exceed 1
  (`StaleMarginalExample`).
- The code clears the sign bit with `& Integer.MAX_VALUE` before taking the
  remainder.
- The combiner accumulates in an `int`, not a float.
- The marker is compared by value, so a literal `*` token is not told apart
  from it (`MarkerTokenCollides`).

## Model

| member | source | states |
|---|---|---|
| Tokenizer.Tokens | src/dist/edu/umd/cloud9/examples/BigramRelativeFrequency.java:87-93 | every token handed out is non-empty and contains no delimiter |
| Tokenizer.TokensCoverLine | src/dist/edu/umd/cloud9/examples/BigramRelativeFrequency.java:87-93 | the tokens, concatenated in order, are exactly the line with its delimiters removed |
| Tokenizer.TokensOfJoin | src/dist/edu/umd/cloud9/examples/BigramRelativeFrequency.java:87-93 | tokenizing words joined by spaces returns the same words in the same order |
| Tokenizer.LeadingDelimitersSkipped | src/dist/edu/umd/cloud9/examples/BigramRelativeFrequency.java:87-93 | any run of delimiters before the text yields no tokens of its own |
| Mapper.Truncate | src/dist/edu/umd/cloud9/examples/BigramRelativeFrequency.java:97-103 | the cut word is a prefix of the word of length min(100, length); no error case |
| Mapper.BigramRecords | src/dist/edu/umd/cloud9/examples/BigramRelativeFrequency.java:90-113 | n tokens yield 2·(n−1) records, and none when n < 2 |
| Mapper.BigramRecordsAt | src/dist/edu/umd/cloud9/examples/BigramRelativeFrequency.java:92-111 | record 2k is ((t_k, t_k+1), 1) and record 2k+1 is ((t_k, "*"), 1), words cut to 100; so the last token gets no marginal |
| Mapper.RecordShape | src/dist/edu/umd/cloud9/examples/BigramRelativeFrequency.java:104-108 | every record has weight one, its left word is token j/2 cut, its right word the next token cut or the marker |
| Mapper.EmittedWordsBounded | src/dist/edu/umd/cloud9/examples/BigramRelativeFrequency.java:97-103 | every emitted word has at most 100 characters and is a prefix of its token |
| Mapper.Map | src/dist/edu/umd/cloud9/examples/BigramRelativeFrequency.java:83-114 | the loop with `prev`/`cur` emits exactly the records BigramRecords gives for the line's tokens, 2·(n−1) of them |
| Weights.SumConcat | src/dist/edu/umd/cloud9/examples/BigramRelativeFrequency.java:126-129 | the sum of two value lists joined is the sum of their sums |
| Weights.SumOfOnes | src/dist/edu/umd/cloud9/examples/BigramRelativeFrequency.java:67 | a list of unit weights sums to its length |
| Weights.ValuesComeFromRecords | src/dist/edu/umd/cloud9/examples/BigramRelativeFrequency.java:158-161 | every value the call for key k receives is the value of some record with key k |
| Weights.TotalOfUnitRecords | src/dist/edu/umd/cloud9/examples/BigramRelativeFrequency.java:67 | when every record has weight 1, a key's total is its number of records |
| Weights.TotalConcat | src/dist/edu/umd/cloud9/examples/BigramRelativeFrequency.java:158-161 | the total weight of a key over two record lists joined is the sum of its totals |
| Combiner.Combine | src/dist/edu/umd/cloud9/examples/BigramRelativeFrequency.java:122-132 | exactly one record is emitted, with the key unchanged and the sum of the values |
| Combiner.CombiningPreservesTotals | src/dist/edu/umd/cloud9/examples/BigramRelativeFrequency.java:123-131 | summing the combiner's per-task outputs gives the same total as summing all raw unit weights |
| Reducer.Divide | src/dist/edu/umd/cloud9/examples/BigramRelativeFrequency.java:168 | finite exactly when the marginal is positive, and then ratio·marginal = count, a positive count gives a positive ratio, and count ≤ marginal gives a ratio in [0, 1]; NaN exactly for 0/0 |
| Reducer.MarginalAfterIsLastMarginal | src/dist/edu/umd/cloud9/examples/BigramRelativeFrequency.java:163-170 | the stored marginal is the sum of the most recent marginal key, or its initial value when none came yet |
| Reducer.MarginalAfterWithoutMarginal | src/dist/edu/umd/cloud9/examples/BigramRelativeFrequency.java:147 | with no marginal key seen, `marginal` keeps its initial value |
| Reducer.OutputAt | src/dist/edu/umd/cloud9/examples/BigramRelativeFrequency.java:155-171 | the j-th output of a stream of calls is the one-call result for key j given the marginal left by the earlier calls |
| Reducer.LastMarginalIsOwn | src/dist/edu/umd/cloud9/examples/BigramRelativeFrequency.java:163-166 | in the framework's order, the last marginal key before (w, x) is (w, "*") |
| Reducer.ReducerNormalizes | src/dist/edu/umd/cloud9/examples/BigramRelativeFrequency.java:155-171 | in the framework's order a marginal key is emitted with its sum and every (w, x) with its sum divided by the sum of an earlier (w, "*") |
| Reducer.NoDivisionByZero | src/dist/edu/umd/cloud9/examples/BigramRelativeFrequency.java:163-170 | in the framework's order with positive marginal sums, every output is finite |
| Reducer.RatioInUnitInterval | src/dist/edu/umd/cloud9/examples/BigramRelativeFrequency.java:163-170 | in the framework's order, when no key outweighs its left word's marginal, every (w, x) with a positive sum gets a finite ratio in (0, 1] |
| Reducer.UnguardedDivision | src/dist/edu/umd/cloud9/examples/BigramRelativeFrequency.java:167-170 | a non-marginal key reached before any marginal key is divided by the initial 0: NaN for a zero sum, +Infinity otherwise |
| Reducer.StaleMarginal | src/dist/edu/umd/cloud9/examples/BigramRelativeFrequency.java:166-168 | a non-marginal key after the marginal key i, with no marginal key in between, is divided by key i's sum, whatever its left word |
| Reducer.StaleMarginalExample | src/dist/edu/umd/cloud9/examples/BigramRelativeFrequency.java:166-168 | the stream (v,*)[1], (w,x)[1,1], (w,*)[1,1] emits 2.0 for (w,x), a ratio above 1 |
| Reducer.RelativeFrequencyReducer.constructor | src/dist/edu/umd/cloud9/examples/BigramRelativeFrequency.java:147 | a fresh reducer has `marginal` 0 and has emitted nothing |
| Reducer.RelativeFrequencyReducer.Reduce | src/dist/edu/umd/cloud9/examples/BigramRelativeFrequency.java:155-171 | one call emits one record: the sum on a marginal key, which also becomes `marginal`; otherwise sum / old marginal, leaving `marginal` unchanged; the call is appended to the stream |
| Partitioner.HashCode | src/dist/edu/umd/cloud9/examples/BigramRelativeFrequency.java:178 | Java's `String.hashCode` as an unsigned 32-bit value: Horner's rule with 31, wrapping around at 32 bits; always below 2^32 |
| Partitioner.PolynomialSnoc | src/dist/edu/umd/cloud9/examples/BigramRelativeFrequency.java:178 | appending a character multiplies the hash polynomial by 31 and adds the character |
| Partitioner.HashCodeIsPolynomial | src/dist/edu/umd/cloud9/examples/BigramRelativeFrequency.java:178 | closed form: the hash is s[0]·31^(n−1) + … + s[n−1] modulo 2^32 |
| Partitioner.MaskedHash | src/dist/edu/umd/cloud9/examples/BigramRelativeFrequency.java:178 | the hash with its sign bit masked off lies in [0, 2^31) |
| Partitioner.GetPartition | src/dist/edu/umd/cloud9/examples/BigramRelativeFrequency.java:177-179 | for numReduceTasks > 0 the partition lies in [0, numReduceTasks); Java's exception exactly for 0; in [0, −n) for negative n |
| Partitioner.SameLeftSamePartition | src/dist/edu/umd/cloud9/examples/BigramRelativeFrequency.java:178 | keys with the same left word get the same partition |
| Pipeline.TotalOfOneBigram | src/dist/edu/umd/cloud9/examples/BigramRelativeFrequency.java:104-108 | the two records of one adjacent pair add one to the bigram key and one to the marginal key |
| Pipeline.BigramCountAtMostMarginal | src/dist/edu/umd/cloud9/examples/BigramRelativeFrequency.java:104-108 | on one line the total of (w, x) is at most the total of (w, "*") |
| Pipeline.CorpusBigramCountAtMostMarginal | src/dist/edu/umd/cloud9/examples/BigramRelativeFrequency.java:83-114 | over a whole input the total of (w, x) is at most the total of (w, "*") |
| Pipeline.RelativeFrequencyInUnitInterval | src/dist/edu/umd/cloud9/examples/BigramRelativeFrequency.java:168 | a bigram that occurs, divided by its left word's marginal, gives a finite ratio in (0, 1] |
| Pipeline.ReducerRatioInUnitInterval | src/dist/edu/umd/cloud9/examples/BigramRelativeFrequency.java:163-170 | in the framework's order with the input's totals as sums, the reducer emits a finite ratio in (0, 1] for every bigram that occurs |
| Pipeline.CorpusCountsWithinMarginals | src/dist/edu/umd/cloud9/examples/BigramRelativeFrequency.java:104-108 | groups whose sums are the input's totals never outweigh their left word's marginal |
| Pipeline.CorpusRecordsHaveUnitWeight | src/dist/edu/umd/cloud9/examples/BigramRelativeFrequency.java:67 | every record the mappers emit over an input has weight 1 |
| Pipeline.CorpusTotalCountsRecords | src/dist/edu/umd/cloud9/examples/BigramRelativeFrequency.java:105-108 | a key's total over an input is the number of records the mappers emit with that key |
| Pipeline.BigramMeetsItsMarginal | src/dist/edu/umd/cloud9/examples/BigramRelativeFrequency.java:177-179 | a bigram record and the marginal record emitted after it go to the same reduce task |
| Pipeline.MarkerTokenCollides | src/dist/edu/umd/cloud9/examples/BigramRelativeFrequency.java:107 | the line "a *" emits two records keyed (a, "*"), so the marginal of "a" is 2 from one bigram |
| Pipeline.WorkedExampleLine | src/dist/edu/umd/cloud9/examples/BigramRelativeFrequency.java:86-87 | the example's six words joined by spaces give its line |
| Pipeline.WorkedExampleTokens | src/dist/edu/umd/cloud9/examples/BigramRelativeFrequency.java:87-93 | "the cat sat the cat ran" splits into its six words |
| Pipeline.WorkedExampleRecords | src/dist/edu/umd/cloud9/examples/BigramRelativeFrequency.java:104-108 | the six words yield the ten records (the,cat),(the,*),(cat,sat),(cat,*),…,(cat,ran),(cat,*) |
| Pipeline.WorkedExampleMap | src/dist/edu/umd/cloud9/examples/BigramRelativeFrequency.java:83-114 | the example line maps to those ten records |
| Pipeline.WorkedExampleReduce | src/dist/edu/umd/cloud9/examples/BigramRelativeFrequency.java:155-171 | the example's summed keys, sorted, reduce to cat:*=2, (cat,ran)=0.5, (cat,sat)=0.5, sat:*=1, (sat,the)=1, the:*=2, (the,cat)=1 |

## Left out

- `run`, `main`, `printUsage` and the tool's constructor are not modelled. They handle command-line arguments, job configuration, deleting the output directory, submitting the job and logging.
- The Hadoop runtime is not modelled: input splitting, shuffle, sort, grouping, `Reporter`, and the `OutputCollector` itself. Each callback returns the records it would hand to the collector, in order. The ordering guarantee is the precondition `SortedForReducer` of the stream lemmas, not an operation.
- The order in which `PairOfStrings` keys sort is not modelled. Its `compareTo` is not part of this model, so where `"*"` sorts is not assumed. The worked example uses one order that meets `SortedForReducer`.
- Float semantics are not modelled. `FloatWritable` weights are whole-number `nat` counts. The reducer's quotient is an exact `real`, not a rounded float. A float sum that would lose precision above 2^24 is not modelled.
- Combiner.Combine: the narrowing of each float value to `int` in `sum +=` is not modelled, and nor is 32-bit overflow of that `int`. Counts are unbounded.
- Java strings are UTF-16, and Dafny characters are Unicode scalar values. `Truncate` and `HashCode` count and hash whole characters. They differ from Java for text outside the Basic Multilingual Plane, where Java sees two code units per character.
- Partitioner.HashCode gives the hash's 32-bit pattern read as an unsigned number, where Java reads it as a signed `int`. The bits are the same, and only the bits reach the mask.
- Partitioner.GetPartition takes any `int` as the number of reduce tasks, not only a 32-bit one. On the 32-bit range the results are the same.
- Unused parameters are dropped: the map input key (the byte offset), the partitioner's value, and every `Reporter`.
- The reused holder objects (`bigram`, `SUM`, `Sum`) are not modelled. Each emission builds a fresh value.
- Parallel execution across reduce tasks is not modelled. Each task has its own reducer object. The model describes one task's stream.
