/** Shared helpers of the LR(1) toolchain: set union, sequence reversal,
    digit folding, word splitting and reversed joining. Grammar symbols are
    strings; the empty-word marker and the end-of-input marker are the same
    string "$". */
module LrUtils {
  import opened Text

  type Symbol = string
  type Word = seq<Symbol>

  /** The fresh start symbol added when the grammar is augmented. */
  const GRAMMAR_NEW_BEGIN_STATE: Symbol := "<<S'>>"
  /** The marker for ε in FIRST sets and transitions. */
  const EPS: Symbol := "$"
  /** The marker appended to the input and used as the initial lookahead. */
  const END_SYM: Symbol := "$"

  /** ε and the end marker are the same string, so a FIRST set that contains
      ε cannot be told apart from one that contains the end marker. */
  lemma EpsIsEndSym()
    ensures EPS == END_SYM && EPS == "$"
  {
  }

  /** Union by copying the first set and inserting every element of the
      second one by one. */
  method MakeUnion<T>(s1: set<T>, s2: set<T>) returns (r: set<T>)
    ensures forall x :: x in r <==> x in s1 || x in s2
  {
    r := s1;
    var rest := s2;
    while rest != {}
      invariant rest <= s2
      invariant forall x :: x in r <==> x in s1 || (x in s2 && x !in rest)
      decreases |rest|
    {
      var x :| x in rest;
      r := r + {x};
      rest := rest - {x};
    }
  }

  /** The sequence read back to front. */
  function Reverse<T>(v: seq<T>): (r: seq<T>)
    ensures |r| == |v|
    ensures forall i :: 0 <= i < |v| ==> r[i] == v[|v| - 1 - i]
  {
    if |v| == 0 then []
    else [v[|v| - 1]] + Reverse(v[..|v| - 1])
  }

  lemma ReverseReverse<T>(v: seq<T>)
    ensures Reverse(Reverse(v)) == v
  {
  }

  /** Reversal, the way the source builds it: walking the input from its last
      index down and appending. */
  method ReverseByLoop<T>(v: seq<T>) returns (r: seq<T>)
    ensures r == Reverse(v)
  {
    r := [];
    var i := |v| - 1;
    while i >= 0
      invariant -1 <= i < |v|
      invariant |r| == |v| - 1 - i
      invariant forall k :: 0 <= k < |r| ==> r[k] == v[|v| - 1 - k]
    {
      r := r + [v[i]];
      i := i - 1;
    }
  }

  /** The int value of a string read as decimal digits, folded left to right
      as value·10 + (c − '0'), with no check that c is a digit. Each step is
      stored into a 32-bit int. */
  function ToInt(s: string): (r: int)
    ensures InInt32(r)
  {
    if |s| == 0 then 0
    else Wrap32(ToInt(s[..|s| - 1]) * 10 + ((s[|s| - 1] as int) - ('0' as int)))
  }

  lemma DecimalPrefixBound(s: string)
    requires AllDigits(s) && |s| > 0
    ensures DecimalValue(s[..|s| - 1]) <= DecimalValue(s)
  {
  }

  /** On a string of digits whose value fits an int, ToInt is the decimal
      value. */
  lemma {:induction false} ToIntOfDigits(s: string)
    requires AllDigits(s) && DecimalValue(s) <= INT_MAX
    ensures ToInt(s) == DecimalValue(s)
  {
    if |s| > 0 {
      DecimalPrefixBound(s);
      ToIntOfDigits(s[..|s| - 1]);
    }
  }

  /** Splits off the text before the first `del`: the word, and the text after
      the delimiter. Without a delimiter the whole string is the word and
      nothing remains. */
  function ConsumeNextWord(str: string, del: char): (r: (string, string))
    ensures del !in r.0
    ensures del in str ==> r.0 + [del] + r.1 == str
    ensures del !in str ==> r.0 == str && r.1 == ""
  {
    var i := FindChar(str, del);
    if i < |str| then
      assert str == str[..i] + [del] + str[i + 1..];
      (str[..i], str[i + 1..])
    else (str, "")
  }

  /** The nonempty words of a string in order: repeated ConsumeNextWord until
      nothing remains, dropping empty words (the effect of forEachWord). */
  function Words(str: string, del: char): (ws: seq<string>)
    ensures forall k :: 0 <= k < |ws| ==> |ws[k]| > 0 && del !in ws[k]
    decreases |str|
  {
    if |str| == 0 then []
    else
      var (w, rest) := ConsumeNextWord(str, del);
      assert |rest| < |str| by {
        if del in str { assert |w| + 1 + |rest| == |str|; }
      }
      if |w| == 0 then Words(rest, del) else [w] + Words(rest, del)
  }

  /** A string with no delimiter is one word (or none, when empty). */
  lemma WordsOfWord(w: string, del: char)
    requires del !in w
    ensures Words(w, del) == if |w| == 0 then [] else [w]
  {
    if |w| > 0 {
      assert Words("", del) == [];
    }
  }

  /** Key membership in a map. */
  predicate Exists<K, V>(m: map<K, V>, k: K) {
    k in m
  }

  /** The elements joined left to right with `delim` between neighbours. */
  function Join(xs: seq<string>, delim: string): string {
    if |xs| == 0 then ""
    else if |xs| == 1 then xs[0]
    else xs[0] + delim + Join(xs[1..], delim)
  }

  /** Joining space-free nonempty words with single spaces and splitting the
      result into fields gives the words back. */
  lemma {:induction false} FieldsOfJoin(xs: seq<string>)
    requires forall k :: 0 <= k < |xs| ==> |xs[k]| > 0 && NoSpace(xs[k])
    ensures Fields(Join(xs, " ")) == xs
    decreases |xs|
  {
    if |xs| == 1 {
      FieldsOne(xs[0]);
    } else if |xs| > 1 {
      FieldsOfJoin(xs[1..]);
      FieldsSpaced(xs[0], Join(xs[1..], " "));
      assert xs == [xs[0]] + xs[1..];
    }
  }

  /** Every element followed by `delim`. */
  function JoinTerminated(xs: seq<string>, delim: string): string {
    if |xs| == 0 then "" else JoinTerminated(xs[..|xs| - 1], delim) + xs[|xs| - 1] + delim
  }

  lemma {:induction false} JoinSplitLast(xs: seq<string>, delim: string)
    requires |xs| > 0
    ensures Join(xs, delim) == JoinTerminated(xs[..|xs| - 1], delim) + xs[|xs| - 1]
    decreases |xs|
  {
    if |xs| > 1 {
      var tail := xs[1..];
      JoinSplitLast(tail, delim);
      JoinTerminatedCons(xs[0], tail[..|tail| - 1], delim);
      assert [xs[0]] + tail[..|tail| - 1] == xs[..|xs| - 1];
    }
  }

  lemma {:induction false} JoinTerminatedCons(x: string, xs: seq<string>, delim: string)
    ensures JoinTerminated([x] + xs, delim) == x + delim + JoinTerminated(xs, delim)
    decreases |xs|
  {
    if |xs| > 0 {
      JoinTerminatedCons(x, xs[..|xs| - 1], delim);
      assert ([x] + xs)[..|xs|] == [x] + xs[..|xs| - 1];
    }
  }

  /** concatToString_r: the elements from last to first, with `delim` after
      every element except the one at index 0. The result is the ordinary
      join of the reversed sequence. */
  method ConcatToStringReversed(c: seq<string>, delim: string) returns (r: string)
    ensures r == Join(Reverse(c), delim)
  {
    r := "";
    var i := |c| - 1;
    while i > -1
      invariant -1 <= i < |c|
      invariant i >= 0 ==> r == JoinTerminated(Reverse(c)[..|c| - 1 - i], delim)
      invariant i == -1 && |c| > 0 ==>
        r == JoinTerminated(Reverse(c)[..|c| - 1], delim) + Reverse(c)[|c| - 1]
      invariant i == -1 && |c| == 0 ==> r == ""
    {
      r := r + c[i];
      if i != 0 {
        r := r + delim;
        assert Reverse(c)[..|c| - i] == Reverse(c)[..|c| - 1 - i] + [c[i]];
      }
      i := i - 1;
    }
    if |c| > 0 {
      JoinSplitLast(Reverse(c), delim);
    }
  }
}
