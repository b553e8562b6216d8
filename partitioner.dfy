/**
 * MyPartitioner: routes a key to a reduce task by the hash of its left word
 * only, so a marginal key and all bigrams sharing its left word meet in one
 * reducer.
 */
module Partitioner {
  import opened Keys

  /** Java's Integer.MAX_VALUE as a 32-bit mask: every bit but the sign bit. */
  const IntegerMaxValue: bv32 := 0x7FFF_FFFF

  /** 2^32: Java's int arithmetic wraps around modulo this. */
  const Word: nat := 0x1_0000_0000

  /**
   * Java's String.hashCode as its 32-bit pattern read unsigned: Horner's
   * rule with 31 over the characters, wrapping around at 32 bits.
   */
  function HashCode(s: string): (h: nat)
    ensures h < Word
  {
    if s == [] then 0 else (HashCode(s[..|s| - 1]) * 31 + s[|s| - 1] as int) % Word
  }

  /** 31 to the power e. */
  function Pow31(e: nat): nat {
    if e == 0 then 1 else 31 * Pow31(e - 1)
  }

  /** The hash polynomial without wrap-around: s[0]*31^(n-1) + ... + s[n-1]. */
  function Polynomial(s: string): nat {
    if s == [] then 0 else (s[0] as int) * Pow31(|s| - 1) + Polynomial(s[1..])
  }

  /** Appending a character multiplies the polynomial by 31 and adds the character. */
  lemma {:induction false} PolynomialSnoc(s: string, c: char)
    ensures Polynomial(s + [c]) == Polynomial(s) * 31 + c as int
    decreases |s|
  {
    if s == [] {
      assert s + [c] == [c];
    } else {
      var t := s + [c];
      assert t[1..] == s[1..] + [c];
      PolynomialSnoc(s[1..], c);
      calc {
        Polynomial(t);
        (s[0] as int) * Pow31(|s|) + Polynomial(s[1..]) * 31 + c as int;
        { assert Pow31(|s|) == 31 * Pow31(|s| - 1); }
        ((s[0] as int) * Pow31(|s| - 1) + Polynomial(s[1..])) * 31 + c as int;
      }
    }
  }

  /** Reducing modulo 2^32 before a Horner step does not change the result modulo 2^32. */
  lemma ModBeforeHornerStep(a: int, c: int)
    ensures ((a % Word) * 31 + c) % Word == (a * 31 + c) % Word
  {
    var q := a / Word;
    assert a == q * Word + a % Word;
    assert a * 31 + c == (a % Word) * 31 + c + (q * 31) * Word;
  }

  /** Closed form: the hash is s[0]*31^(n-1) + ... + s[n-1] modulo 2^32. */
  lemma {:induction false} HashCodeIsPolynomial(s: string)
    ensures HashCode(s) == Polynomial(s) % Word
    decreases |s|
  {
    if s != [] {
      var init, c := s[..|s| - 1], s[|s| - 1];
      HashCodeIsPolynomial(init);
      assert init + [c] == s;
      PolynomialSnoc(init, c);
      ModBeforeHornerStep(Polynomial(init), c as int);
    }
  }

  /** The hash with its sign bit cleared, as a non-negative 31-bit number. */
  function MaskedHash(s: string): (h: nat)
    ensures h < 0x8000_0000
  {
    var masked := (HashCode(s) as bv32) & IntegerMaxValue;
    (masked as bv31) as int
  }

  /** The partition chosen, or the ArithmeticException Java throws for `% 0`. */
  datatype PartitionResult = Index(index: int) | ArithmeticException

  /**
   * MyPartitioner.getPartition: (hash(left) & Integer.MAX_VALUE) % numReduceTasks.
   * The masked hash is non-negative, so Java's truncating remainder agrees
   * with Dafny's here, also for a negative divisor.
   */
  function GetPartition(key: Pair, numReduceTasks: int): (r: PartitionResult)
    ensures r.ArithmeticException? <==> numReduceTasks == 0
    ensures numReduceTasks > 0 ==> r.Index? && 0 <= r.index < numReduceTasks
    ensures numReduceTasks < 0 ==> r.Index? && 0 <= r.index < -numReduceTasks
  {
    if numReduceTasks == 0 then ArithmeticException
    else Index(MaskedHash(key.left) % numReduceTasks)
  }

  /** The partition depends on the left word only. */
  lemma SameLeftSamePartition(k1: Pair, k2: Pair, numReduceTasks: int)
    requires k1.left == k2.left
    ensures GetPartition(k1, numReduceTasks) == GetPartition(k2, numReduceTasks)
  {
  }
}
