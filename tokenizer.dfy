/**
 * Splitting a line the way java.util.StringTokenizer does with its default
 * delimiter set: maximal runs of non-delimiters, in order, empty fragments dropped.
 */
module Tokenizer {

  /** The default delimiters: space, tab, newline, carriage return and form feed. */
  predicate IsDelimiter(c: char) {
    c == ' ' || c == '\t' || c == '\n' || c == '\r' || c == '\U{C}'
  }

  /** A token: non-empty and free of delimiters. */
  predicate IsWord(w: string) {
    |w| > 0 && forall i :: 0 <= i < |w| ==> !IsDelimiter(w[i])
  }

  /** The length of the longest delimiter-free prefix of `s`. */
  function WordLength(s: string): (n: nat)
    ensures n <= |s|
    ensures forall i :: 0 <= i < n ==> !IsDelimiter(s[i])
    ensures n < |s| ==> IsDelimiter(s[n])
  {
    if s == [] || IsDelimiter(s[0]) then 0 else 1 + WordLength(s[1..])
  }

  /** The tokens of `s`, left to right. */
  function Tokens(s: string): (ts: seq<string>)
    ensures forall k :: 0 <= k < |ts| ==> IsWord(ts[k])
    decreases |s|
  {
    if s == [] then []
    else if IsDelimiter(s[0]) then Tokens(s[1..])
    else
      var n := WordLength(s);
      [s[..n]] + Tokens(s[n..])
  }

  /** The characters of `s` that are not delimiters, in order. */
  function NonDelimiters(s: string): string {
    if s == [] then [] else (if IsDelimiter(s[0]) then [] else [s[0]]) + NonDelimiters(s[1..])
  }

  /** The concatenation of a list of words. */
  function Concat(ws: seq<string>): string {
    if ws == [] then [] else ws[0] + Concat(ws[1..])
  }

  /** The words separated by single spaces. */
  function Join(ws: seq<string>): string {
    if ws == [] then []
    else if |ws| == 1 then ws[0]
    else ws[0] + " " + Join(ws[1..])
  }

  lemma {:induction false} NonDelimitersOfWordPrefix(s: string, n: nat)
    requires n <= |s|
    requires forall i :: 0 <= i < n ==> !IsDelimiter(s[i])
    ensures NonDelimiters(s) == s[..n] + NonDelimiters(s[n..])
    decreases n
  {
    if n > 0 {
      NonDelimitersOfWordPrefix(s[1..], n - 1);
      assert s[1..][n - 1..] == s[n..];
      assert s[..n] == [s[0]] + s[1..][..n - 1];
    }
  }

  /** Tokenizing loses nothing but delimiters: the tokens, glued together, are the line minus its whitespace. */
  lemma {:induction false} TokensCoverLine(s: string)
    ensures Concat(Tokens(s)) == NonDelimiters(s)
    decreases |s|
  {
    if s == [] {
    } else if IsDelimiter(s[0]) {
      TokensCoverLine(s[1..]);
    } else {
      var n := WordLength(s);
      TokensCoverLine(s[n..]);
      NonDelimitersOfWordPrefix(s, n);
      assert ([s[..n]] + Tokens(s[n..]))[1..] == Tokens(s[n..]);
    }
  }

  lemma {:induction false} TokensOfWordThen(w: string, rest: string)
    requires IsWord(w)
    requires rest == [] || IsDelimiter(rest[0])
    ensures Tokens(w + rest) == [w] + Tokens(rest)
  {
    var s := w + rest;
    WordLengthOfWord(w, rest);
    assert s[..|w|] == w;
    assert s[|w|..] == rest;
  }

  lemma {:induction false} WordLengthOfWord(w: string, rest: string)
    requires forall i :: 0 <= i < |w| ==> !IsDelimiter(w[i])
    requires rest == [] || IsDelimiter(rest[0])
    ensures WordLength(w + rest) == |w|
    decreases |w|
  {
    if w != [] {
      assert (w + rest)[1..] == w[1..] + rest;
      WordLengthOfWord(w[1..], rest);
    }
  }

  /** Tokenizing a space-separated list of words gives the words back. */
  lemma {:induction false} TokensOfJoin(ws: seq<string>)
    requires forall k :: 0 <= k < |ws| ==> IsWord(ws[k])
    ensures Tokens(Join(ws)) == ws
    decreases |ws|
  {
    if |ws| == 1 {
      TokensOfWordThen(ws[0], []);
      assert ws[0] + [] == ws[0];
    } else if |ws| > 1 {
      var rest := " " + Join(ws[1..]);
      TokensOfWordThen(ws[0], rest);
      assert ws[0] + " " + Join(ws[1..]) == ws[0] + rest;
      assert rest[1..] == Join(ws[1..]);
      TokensOfJoin(ws[1..]);
    }
  }

  /** Any run of leading delimiters is skipped. */
  lemma {:induction false} LeadingDelimitersSkipped(d: string, s: string)
    requires forall i :: 0 <= i < |d| ==> IsDelimiter(d[i])
    ensures Tokens(d + s) == Tokens(s)
    decreases |d|
  {
    if d == [] {
      assert d + s == s;
    } else {
      var line := d + s;
      assert line != [] && IsDelimiter(line[0]);
      assert line[1..] == d[1..] + s;
      LeadingDelimitersSkipped(d[1..], s);
    }
  }
}
