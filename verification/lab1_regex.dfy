/** The regular-expression reader of the lexer generator.

    A pattern text becomes a tree: a node with separators ('|') holds its
    alternatives, a node with joins holds the pieces of a concatenation,
    and an atomic node holds one symbol or one `{name}` reference. Any node
    may carry the kleen flag. Malformed brackets and braces throw
    std::invalid_argument; the model returns the failure instead. */
module Regexes {
  import opened Wrappers
  import Text

  const SEPARATOR: char := '|'
  const KLEEN: char := '*'
  /** The join "character" is NUL: every symbol of a concatenation stands alone. */
  const JOIN: char := '\0'
  const BRA: char := '('
  const KET: char := ')'
  const INCL_BEGIN: char := '{'
  const INCL_END: char := '}'

  datatype Kind = HasSeparator | HasJoin | Atomic

  /** One node: its kind, its kleen flag, the span of the pattern its size
      covers (empty once the node is found empty), its children and its
      is_str_const flag. The flag is_root is never set by any constructor,
      so it is not a field: it is always false. */
  datatype Regex = Regex(kind: Kind, kleen: bool, text: string, children: seq<Regex>, strConst: bool)

  /** The exceptions the reader and deliminator() throw, and reads outside
      the pattern's buffer (undefined behaviour in the source). */
  datatype Failure =
    | ImproperIncludeStatement
    | ImproperIncludePlacement
    | ImproperBracketPlacement
    | AtomicHasNoDelimiter
    | UndefinedRead

  /** deliminator(): '|' for alternatives, the NUL join for concatenations,
      and an exception for an atomic node. */
  function Delimiter(k: Kind): (r: Result<char, Failure>)
    ensures r.Err? <==> k == Atomic
    ensures r.Ok? ==> r.value == (if k == HasSeparator then SEPARATOR else JOIN)
  {
    match k
    case HasJoin => Ok(JOIN)
    case HasSeparator => Ok(SEPARATOR)
    case Atomic => Err(AtomicHasNoDelimiter)
  }

  // ---------------------------------------------------------------------
  // Bracket and brace bookkeeping, stated on prefixes of the pattern

  /** The bracket depth after the first n characters: '(' count minus ')' count. */
  function Depth(s: string, n: nat): int
    requires n <= |s|
  {
    if n == 0 then 0
    else Depth(s, n - 1) + (if s[n - 1] == BRA then 1 else 0) - (if s[n - 1] == KET then 1 else 0)
  }

  /** Whether an include is open after the first n characters: the last
      brace among them is a '{'. */
  predicate Open(s: string, n: nat)
    requires n <= |s|
  {
    n > 0 && (s[n - 1] == INCL_BEGIN || (s[n - 1] != INCL_END && Open(s, n - 1)))
  }

  /** A '{' while an include is open, or a '}' while none is. */
  predicate BraceFaultAt(s: string, p: nat)
    requires p < |s|
  {
    (s[p] == INCL_BEGIN && Open(s, p)) || (s[p] == INCL_END && !Open(s, p))
  }

  /** Unbalanced brackets: some prefix closes more than it opens, or the
      whole pattern does not close what it opens. */
  predicate BracketFault(s: string) {
    (exists n :: 0 < n <= |s| && Depth(s, n) < 0) || Depth(s, |s|) != 0
  }

  /** Misplaced braces: a nested '{', a '}' without its '{', or an include
      left open at the end. */
  predicate BraceFault(s: string) {
    (exists p :: 0 <= p < |s| && BraceFaultAt(s, p)) || Open(s, |s|)
  }

  /** In the join pass every character ends a piece unless it is the last
      one or a '*' follows it. */
  predicate CutsAfter(s: string, d: char, p: nat)
    requires p < |s|
  {
    d == JOIN && p != |s| - 1 && s[p + 1] != KLEEN
  }

  /** Where a pass splits the pattern: outside every bracket and include,
      at the delimiter or, in the join pass, after a symbol. */
  predicate SplitPoint(s: string, d: char, p: nat)
    requires p < |s|
  {
    Depth(s, p + 1) == 0 && !Open(s, p + 1) && (CutsAfter(s, d, p) || s[p] == d)
  }

  // ---------------------------------------------------------------------
  // The shape every parsed node has

  predicate NoEmptyChild(cs: seq<Regex>) {
    forall i :: 0 <= i < |cs| ==> |cs[i].text| > 0
  }

  /** Children are built by the constructor that sets is_str_const. */
  predicate AllStrConst(cs: seq<Regex>) {
    forall i :: 0 <= i < |cs| ==> cs[i].strConst
  }

  /** No unstarred group sits directly under a group with its delimiter. */
  predicate NoRedundantGroup(cs: seq<Regex>, d: char) {
    forall i :: 0 <= i < |cs| ==> !(Delimiter(cs[i].kind) == Ok(d) && !cs[i].kleen)
  }

  predicate Kids(cs: seq<Regex>, d: char) {
    NoEmptyChild(cs) && AllStrConst(cs) && NoRedundantGroup(cs, d)
  }

  /** An atomic node has no children, a group has children exactly when
      its span is nonempty, and the children are in normal form. */
  predicate WellShaped(r: Regex, sc: bool) {
    && r.strConst == sc
    && (r.kind == Atomic ==> r.children == [])
    && (r.kind != Atomic ==> (|r.text| > 0 <==> |r.children| > 0))
    && (r.kind != Atomic ==> Kids(r.children, Delimiter(r.kind).value))
  }

  // ---------------------------------------------------------------------
  // Reading a pattern

  /** Drops the trailing run of '*'. */
  function StripKleen(s: string): (t: string)
    ensures t <= s
    ensures forall i :: |t| <= i < |s| ==> s[i] == KLEEN
    ensures |t| > 0 ==> t[|t| - 1] != KLEEN
  {
    if |s| > 0 && s[|s| - 1] == KLEEN then StripKleen(s[..|s| - 1]) else s
  }

  /** Adds a freshly read child: an empty one is dropped, and an unstarred
      group with the parent's delimiter is replaced by its own children. */
  function AddChild(v: seq<Regex>, c: Regex, d: char): (r: seq<Regex>)
    ensures v <= r
    ensures Kids(v, d) && WellShaped(c, true) ==> Kids(r, d)
  {
    if |c.text| == 0 then v
    else if Delimiter(c.kind) == Ok(d) && !c.kleen then v + c.children
    else v + [c]
  }

  /** A group node; line 159 sets the size of a group without children to 0. */
  function Grouped(k: Kind, s: string, v: seq<Regex>, sc: bool): (r: Regex)
    requires k != Atomic && |s| > 0 && Kids(v, Delimiter(k).value)
    ensures WellShaped(r, sc) && r.kind == k && r.children == v
  {
    if |v| == 0 then Regex(k, false, [], [], sc) else Regex(k, false, s, v, sc)
  }

  /** The child constructor: an empty span gives an empty node at once;
      otherwise assertType runs. atStart says that the span begins the
      buffer, so nothing before it may be read. */
  function Parse(s: string, sc: bool, atStart: bool): (r: Result<Regex, Failure>)
    ensures r.Ok? ==> WellShaped(r.value, sc)
    decreases |s|, 2
  {
    if |s| == 0 then Ok(Regex(HasSeparator, false, [], [], sc)) else AssertType(s, sc, atStart)
  }

  /** assertType: try the separator pass, then the join pass, then read an
      atom, which may be a bracketed pattern that collapses into its inside. */
  function AssertType(s: string, sc: bool, atStart: bool): (r: Result<Regex, Failure>)
    requires |s| > 0
    ensures r.Ok? ==> WellShaped(r.value, sc)
    decreases |s|, 1
  {
    match Vectorize(s, SEPARATOR, atStart, 0, 0, false, false, 0, [])
    case Err(e) => Err(e)
    case Ok(sep) =>
      if sep.1 then Ok(Grouped(HasSeparator, s, sep.0, sc))
      else
        match Vectorize(s, JOIN, atStart, 0, 0, false, false, 0, sep.0)
        case Err(e) => Err(e)
        case Ok(join) =>
          if join.1 then Ok(Grouped(HasJoin, s, join.0, sc)) else Atom(s, sc, atStart)
  }

  /** The atomic case: trailing stars set the kleen flag; a pattern opening
      with '(' is read without its outer brackets and the node takes over
      the inner node's kind, span and children, or becomes empty. */
  function Atom(s: string, sc: bool, atStart: bool): (r: Result<Regex, Failure>)
    requires |s| > 0
    ensures r.Ok? ==> WellShaped(r.value, sc)
    decreases |s|, 0
  {
    var t := StripKleen(s);
    var k := |t| < |s|;
    if |t| == 0 && atStart then Err(UndefinedRead)
    else if s[0] != BRA then Ok(Regex(Atomic, k, t, [], sc))
    else if |t| < 2 then Err(UndefinedRead)
    else
      match Parse(t[1..|t| - 1], false, false)
      case Err(e) => Err(e)
      case Ok(inner) =>
        if |inner.text| == 0 then Ok(Regex(Atomic, k, [], [], sc))
        else Ok(Regex(inner.kind, k || inner.kleen, inner.text, inner.children, sc))
  }

  /** vectorize_string from position p on: bc is the bracket count, inc the
      include flag, has whether a delimiter was met, len where the current
      piece starts and v the children so far. Returns the children and
      whether a delimiter was met. */
  function Vectorize(s: string, d: char, atStart: bool, p: nat, bc: int, inc: bool, has: bool, len: nat, v: seq<Regex>)
    : (r: Result<(seq<Regex>, bool), Failure>)
    requires len <= p <= |s| && (|v| > 0 ==> len > 0)
    ensures r.Ok? && Kids(v, d) ==> Kids(r.value.0, d)
    ensures r.Ok? && has ==> r.value.1
    ensures r.Ok? && v == [] && !r.value.1 ==> r.value.0 == []
    decreases |s|, 0, |s| - p
  {
    if p == |s| then
      if bc != 0 then Err(ImproperBracketPlacement)
      else if inc then Err(ImproperIncludeStatement)
      else if |v| > 0 && |s| - len > 0 then
        match Parse(s[len..], true, false)
        case Err(e) => Err(e)
        case Ok(c) => Ok((AddChild(v, c, d), has))
      else Ok((v, has))
    else
      var c := s[p];
      if c == INCL_BEGIN && inc then Err(ImproperIncludeStatement)
      else
        var inc1 := c == INCL_BEGIN || inc;
        if c == INCL_END && !inc1 then Err(ImproperIncludePlacement)
        else
          var inc2 := c != INCL_END && inc1;
          var bc1 := bc + (if c == BRA then 1 else 0) - (if c == KET then 1 else 0);
          if bc1 < 0 then Err(ImproperBracketPlacement)
          else if bc1 > 0 || inc2 then Vectorize(s, d, atStart, p + 1, bc1, inc2, has, len, v)
          else
            var cut := d == JOIN && p != |s| - 1 && s[p + 1] != KLEEN;
            if cut || c == d then
              var n := p - len + (if cut then 1 else 0);
              if n > 0 then
                match Parse(s[len..len + n], true, atStart && len == 0)
                case Err(e) => Err(e)
                case Ok(child) => Vectorize(s, d, atStart, p + 1, bc1, inc2, true, p + 1, AddChild(v, child, d))
              else Vectorize(s, d, atStart, p + 1, bc1, inc2, true, p + 1, v)
            else Vectorize(s, d, atStart, p + 1, bc1, inc2, has, len, v)
  }

  /** The pattern up to its first NUL, as strlen sees it. */
  function CText(s: string): (t: string)
    ensures t <= s && JOIN !in t
  {
    var i := Text.FindChar(s, JOIN);
    s[..i]
  }

  /** Regex(const std::string&): assertType runs even on an empty text, and
      then reads before the buffer. is_str_const is never initialised by
      this constructor, so it is a parameter. */
  function FromString(s: string, sc: bool): (r: Result<Regex, Failure>)
    ensures r.Ok? ==> WellShaped(r.value, sc)
  {
    var t := CText(s);
    if |t| == 0 then Err(UndefinedRead) else AssertType(t, sc, true)
  }

  /** Regex(const char*): the child constructor over the whole string, with
      is_str_const set. */
  function FromCString(s: string): (r: Result<Regex, Failure>)
    ensures r.Ok? ==> WellShaped(r.value, true)
  {
    Parse(CText(s), true, true)
  }

  // ---------------------------------------------------------------------
  // reduce()

  /** reduce(): an atom's span; a group's children's reductions joined by
      its delimiter, bracketed when starred or when an alternative is not
      a string constant; a '*' after a starred node. */
  function Reduce(r: Regex): (out: string)
    ensures r.kleen ==> |out| > 0 && out[|out| - 1] == KLEEN
    decreases r, 1
  {
    (if r.kind == Atomic then r.text
     else
       var bracket := (!r.strConst && r.kind == HasSeparator) || r.kleen;
       (if bracket then [BRA] else []) + JoinAll(r.children, Delimiter(r.kind).value) + (if bracket then [KET] else []))
    + (if r.kleen then [KLEEN] else [])
  }

  /** The reductions of cs with d between neighbours. */
  function JoinAll(cs: seq<Regex>, d: char): (out: string)
    decreases cs, 0
  {
    if |cs| == 0 then []
    else if |cs| == 1 then Reduce(cs[0])
    else Reduce(cs[0]) + [d] + JoinAll(cs[1..], d)
  }

  /** A group prints its children's reductions joined by its delimiter,
      inside brackets when it is an unconstant alternative or starred, and
      then a star when it is starred; an atom prints its text and its star. */
  lemma ReduceShape(r: Regex)
    ensures r.kind != Atomic ==>
      var bracket := (!r.strConst && r.kind == HasSeparator) || r.kleen;
      Reduce(r) == (if bracket then [BRA] else []) + JoinAll(r.children, Delimiter(r.kind).value)
        + (if bracket then [KET] else []) + (if r.kleen then [KLEEN] else [])
    ensures r.kind == Atomic ==> Reduce(r) == r.text + (if r.kleen then [KLEEN] else [])
    ensures r.kind != Atomic && r.kleen ==>
      |Reduce(r)| >= 3 && Reduce(r)[0] == BRA && Reduce(r)[|Reduce(r)| - 2] == KET
  {
  }

  // ---------------------------------------------------------------------
  // Faults throw

  /** A fault at position p or later. */
  predicate FaultFrom(s: string, p: nat)
    requires p <= |s|
    decreases |s| - p
  {
    if p == |s| then Depth(s, |s|) != 0 || Open(s, |s|)
    else BraceFaultAt(s, p) || Depth(s, p + 1) < 0 || FaultFrom(s, p + 1)
  }

  lemma {:induction false} FaultAhead(s: string, p: nat, q: nat)
    requires p <= q < |s| && (BraceFaultAt(s, q) || Depth(s, q + 1) < 0)
    ensures FaultFrom(s, p)
    decreases q - p
  {
    if p < q {
      FaultAhead(s, p + 1, q);
    }
  }

  lemma {:induction false} FaultAtEnd(s: string, p: nat)
    requires p <= |s| && (Depth(s, |s|) != 0 || Open(s, |s|))
    ensures FaultFrom(s, p)
    decreases |s| - p
  {
    if p < |s| {
      FaultAtEnd(s, p + 1);
    }
  }

  /** A pass that has tracked the brackets and braces faithfully up to p
      throws when a fault lies ahead, whatever children it reads on the way. */
  lemma {:induction false} FaultStops(s: string, d: char, atStart: bool, p: nat, has: bool, len: nat, v: seq<Regex>)
    requires len <= p <= |s| && (|v| > 0 ==> len > 0)
    requires FaultFrom(s, p)
    ensures Vectorize(s, d, atStart, p, Depth(s, p), Open(s, p), has, len, v).Err?
    decreases |s| - p
  {
    if p < |s| && !BraceFaultAt(s, p) && Depth(s, p + 1) >= 0 {
      var cut := d == JOIN && p != |s| - 1 && s[p + 1] != KLEEN;
      var n := p - len + (if cut then 1 else 0);
      if Depth(s, p + 1) > 0 || Open(s, p + 1) || !(cut || s[p] == d) {
        FaultStops(s, d, atStart, p + 1, has, len, v);
      } else if n > 0 {
        match Parse(s[len..len + n], true, atStart && len == 0)
        case Err(_) =>
        case Ok(child) => FaultStops(s, d, atStart, p + 1, true, p + 1, AddChild(v, child, d));
      } else {
        FaultStops(s, d, atStart, p + 1, true, p + 1, v);
      }
    }
  }

  /** A pattern with a fault fails through every constructor. */
  lemma ThrowsEverywhere(s: string, sc: bool, atStart: bool)
    requires FaultFrom(s, 0)
    ensures Parse(s, sc, atStart).Err?
    ensures JOIN !in s ==> FromString(s, sc).Err? && FromCString(s).Err?
  {
    if |s| == 0 {
      assert false;
    } else {
      FaultStops(s, SEPARATOR, atStart, 0, false, 0, []);
      FaultStops(s, SEPARATOR, true, 0, false, 0, []);
      assert AssertType(s, sc, atStart).Err? && AssertType(s, sc, true).Err? && AssertType(s, true, true).Err?;
      if JOIN !in s {
        assert CText(s) == s;
      }
    }
  }

  /** Unbalanced brackets make the reader throw. */
  lemma UnbalancedBracketsThrow(s: string, sc: bool, atStart: bool)
    requires BracketFault(s)
    ensures Parse(s, sc, atStart).Err?
    ensures JOIN !in s ==> FromString(s, sc).Err? && FromCString(s).Err?
  {
    if exists n :: 0 < n <= |s| && Depth(s, n) < 0 {
      var n :| 0 < n <= |s| && Depth(s, n) < 0;
      FaultAhead(s, 0, n - 1);
    } else {
      FaultAtEnd(s, 0);
    }
    ThrowsEverywhere(s, sc, atStart);
  }

  /** A nested '{', a '}' without its '{' or an unclosed '{' make the
      reader throw. */
  lemma ImproperIncludeThrows(s: string, sc: bool, atStart: bool)
    requires BraceFault(s)
    ensures Parse(s, sc, atStart).Err?
    ensures JOIN !in s ==> FromString(s, sc).Err? && FromCString(s).Err?
  {
    if exists p :: 0 <= p < |s| && BraceFaultAt(s, p) {
      var p :| 0 <= p < |s| && BraceFaultAt(s, p);
      FaultAhead(s, 0, p);
    } else {
      FaultAtEnd(s, 0);
    }
    ThrowsEverywhere(s, sc, atStart);
  }

  // ---------------------------------------------------------------------
  // Where a pass splits

  /** A pass that succeeds reports a delimiter exactly when the pattern has
      a split point: delimiters inside brackets or includes do not count. */
  lemma {:induction false} SplitsIff(s: string, d: char, atStart: bool, p: nat, has: bool, len: nat, v: seq<Regex>)
    requires len <= p <= |s| && (|v| > 0 ==> len > 0)
    requires Vectorize(s, d, atStart, p, Depth(s, p), Open(s, p), has, len, v).Ok?
    ensures Vectorize(s, d, atStart, p, Depth(s, p), Open(s, p), has, len, v).value.1
            <==> has || exists q :: p <= q < |s| && SplitPoint(s, d, q)
    decreases |s| - p
  {
    if p < |s| {
      var cut := d == JOIN && p != |s| - 1 && s[p + 1] != KLEEN;
      if Depth(s, p + 1) > 0 || Open(s, p + 1) || !(cut || s[p] == d) {
        assert !SplitPoint(s, d, p);
        SplitsIff(s, d, atStart, p + 1, has, len, v);
      } else {
        assert SplitPoint(s, d, p);
      }
    }
  }

  /** No fault and no split point ahead: the pass reads no child and
      reports no new delimiter. */
  lemma {:induction false} NoSplitPass(s: string, d: char, atStart: bool, p: nat, has: bool, len: nat)
    requires len <= p <= |s|
    requires !FaultFrom(s, p)
    requires forall q :: p <= q < |s| ==> !SplitPoint(s, d, q)
    ensures Vectorize(s, d, atStart, p, Depth(s, p), Open(s, p), has, len, []) == Ok(([], has))
    decreases |s| - p
  {
    if p < |s| {
      assert !SplitPoint(s, d, p);
      NoSplitPass(s, d, atStart, p + 1, has, len);
    }
  }

  /** The kind of a parsed node is decided by the split points of its
      pattern: a top-level '|' makes alternatives; otherwise a top-level
      cut makes a concatenation; otherwise the pattern is read as an atom. */
  lemma KindBySplitPoints(s: string, sc: bool, atStart: bool)
    requires |s| > 0 && Parse(s, sc, atStart).Ok?
    ensures (exists q :: 0 <= q < |s| && SplitPoint(s, SEPARATOR, q)) ==> Parse(s, sc, atStart).value.kind == HasSeparator
    ensures (forall q :: 0 <= q < |s| ==> !SplitPoint(s, SEPARATOR, q)) && (exists q :: 0 <= q < |s| && SplitPoint(s, JOIN, q))
            ==> Parse(s, sc, atStart).value.kind == HasJoin
    ensures (forall q :: 0 <= q < |s| ==> !SplitPoint(s, SEPARATOR, q) && !SplitPoint(s, JOIN, q))
            ==> Parse(s, sc, atStart) == Atom(s, sc, atStart)
  {
    SplitsIff(s, SEPARATOR, atStart, 0, false, 0, []);
    var sep := Vectorize(s, SEPARATOR, atStart, 0, 0, false, false, 0, []);
    if !sep.value.1 {
      SplitsIff(s, JOIN, atStart, 0, false, 0, sep.value.0);
    }
  }

  // ---------------------------------------------------------------------
  // Stars and brackets collapse

  function Stars(k: nat): (r: string)
    ensures |r| == k && forall i :: 0 <= i < k ==> r[i] == KLEEN
  {
    if k == 0 then [] else Stars(k - 1) + [KLEEN]
  }

  /** A pattern ending in a run of '*' after a non-'*' loses exactly the run. */
  lemma StripStars(t: string, k: nat)
    requires |t| > 0 && t[|t| - 1] != KLEEN
    ensures StripKleen(t + Stars(k)) == t
  {
    var s := t + Stars(k);
    var u := StripKleen(s);
    assert s[|t| - 1] == t[|t| - 1];
    assert forall i :: |t| <= i < |s| ==> s[i] == KLEEN;
    if |u| > 0 {
      assert u[|u| - 1] == s[|u| - 1];
    }
    assert |u| == |t|;
    assert u == s[..|u|] == t;
  }

  /** Bracket-free and brace-free text. */
  predicate Plain(s: string) {
    forall i :: 0 <= i < |s| ==> s[i] != BRA && s[i] != KET && s[i] != INCL_BEGIN && s[i] != INCL_END
  }

  lemma {:induction false} PlainLevel(s: string, n: nat)
    requires Plain(s) && n <= |s|
    ensures Depth(s, n) == 0 && !Open(s, n)
    decreases n
  {
    if n > 0 {
      PlainLevel(s, n - 1);
    }
  }

  lemma {:induction false} PlainNoFault(s: string, p: nat)
    requires Plain(s) && p <= |s|
    ensures !FaultFrom(s, p)
    decreases |s| - p
  {
    PlainLevel(s, |s|);
    if p < |s| {
      PlainLevel(s, p);
      PlainLevel(s, p + 1);
      PlainNoFault(s, p + 1);
    }
  }

  /** A symbol followed by a run of '*' reads as that symbol with the kleen
      flag set once, however long the run. */
  lemma KleenRunCollapses(c: char, k: nat, sc: bool, atStart: bool)
    requires c != BRA && c != KET && c != INCL_BEGIN && c != INCL_END
    requires c != SEPARATOR && c != KLEEN && c != JOIN
    ensures Parse([c] + Stars(k), sc, atStart) == Ok(Regex(Atomic, k > 0, [c], [], sc))
    ensures Reduce(Regex(Atomic, k > 0, [c], [], sc)) == [c] + (if k > 0 then [KLEEN] else [])
  {
    var s := [c] + Stars(k);
    assert Plain(s);
    PlainNoFault(s, 0);
    forall q | 0 <= q < |s|
      ensures !SplitPoint(s, SEPARATOR, q) && !SplitPoint(s, JOIN, q)
    {
      assert s[q] != SEPARATOR && s[q] != JOIN;
      if q + 1 < |s| {
        assert s[q + 1] == KLEEN;
      }
    }
    NoSplitPass(s, SEPARATOR, atStart, 0, false, 0);
    NoSplitPass(s, JOIN, atStart, 0, false, 0);
    StripStars([c], k);
    assert Vectorize(s, SEPARATOR, atStart, 0, 0, false, false, 0, []) == Ok(([], false));
    assert Vectorize(s, JOIN, atStart, 0, 0, false, false, 0, []) == Ok(([], false));
    assert AssertType(s, sc, atStart) == Atom(s, sc, atStart);
    assert s[0] == c;
    assert Atom(s, sc, atStart) == Ok(Regex(Atomic, k > 0, [c], [], sc));
  }

  /** Every prefix closes no more than it opens, and the whole closes all. */
  predicate Balanced(t: string) {
    (forall n :: 0 <= n <= |t| ==> Depth(t, n) >= 0) && Depth(t, |t|) == 0
  }

  function Bracketed(t: string, k: nat): (s: string)
    ensures |s| == |t| + 2 + k
  {
    [BRA] + t + [KET] + Stars(k)
  }

  /** Inside the outer brackets the depth is one more than in t, and the
      include state is t's. */
  lemma {:induction false} ShiftLevel(t: string, k: nat, n: nat)
    requires n <= |t|
    ensures Depth(Bracketed(t, k), n + 1) == 1 + Depth(t, n)
    ensures Open(Bracketed(t, k), n + 1) == Open(t, n)
    decreases n
  {
    var s := Bracketed(t, k);
    if n > 0 {
      ShiftLevel(t, k, n - 1);
      assert s[n] == t[n - 1];
    } else {
      assert s[0] == BRA;
    }
  }

  /** After the closing bracket the pattern is at depth zero, outside every
      include, and only stars follow. */
  lemma {:induction false} TailLevel(t: string, k: nat, n: nat)
    requires Balanced(t) && !Open(t, |t|)
    requires |t| + 2 <= n <= |t| + 2 + k
    ensures Depth(Bracketed(t, k), n) == 0 && !Open(Bracketed(t, k), n)
    decreases n
  {
    var s := Bracketed(t, k);
    if n == |t| + 2 {
      ShiftLevel(t, k, |t|);
      assert s[|t| + 1] == KET;
    } else {
      TailLevel(t, k, n - 1);
      assert s[n - 1] == KLEEN;
    }
  }

  lemma {:induction false} BracketedNoFault(t: string, k: nat, p: nat)
    requires Balanced(t) && !BraceFault(t) && p <= |t| + 2 + k
    ensures !FaultFrom(Bracketed(t, k), p)
    decreases |t| + 2 + k - p
  {
    var s := Bracketed(t, k);
    if p == |s| {
      TailLevel(t, k, p);
    } else {
      if p == 0 {
        assert s[0] == BRA;
        ShiftLevel(t, k, 0);
      } else if p <= |t| {
        ShiftLevel(t, k, p - 1);
        ShiftLevel(t, k, p);
        assert s[p] == t[p - 1];
        assert !BraceFaultAt(t, p - 1);
      } else {
        TailLevel(t, k, p + 1);
        if p == |t| + 1 {
          assert s[p] == KET;
          ShiftLevel(t, k, |t|);
        } else {
          assert s[p] == KLEEN;
          TailLevel(t, k, p);
        }
      }
      BracketedNoFault(t, k, p + 1);
    }
  }

  lemma BracketedNoSplit(t: string, k: nat, d: char, q: nat)
    requires Balanced(t) && !BraceFault(t) && (d == SEPARATOR || d == JOIN)
    requires q < |t| + 2 + k
    ensures !SplitPoint(Bracketed(t, k), d, q)
  {
    var s := Bracketed(t, k);
    if q <= |t| {
      ShiftLevel(t, k, q);
    } else {
      assert s[q] == KET || s[q] == KLEEN;
      if q + 1 < |s| {
        assert s[q + 1] == KLEEN;
      }
    }
  }

  /** A bracketed pattern, starred or not, collapses into the node read
      from its inside: it takes over that node's kind, span and children,
      gains the kleen flag when starred, and keeps its own is_str_const; an
      empty inside leaves an empty atom. */
  lemma ParenthesisedCollapses(t: string, k: nat, sc: bool, atStart: bool)
    requires Balanced(t) && !BraceFault(t)
    ensures Parse(t, false, false).Err? ==> Parse(Bracketed(t, k), sc, atStart).Err?
    ensures Parse(t, false, false).Ok? && |Parse(t, false, false).value.text| > 0 ==>
              var inner := Parse(t, false, false).value;
              Parse(Bracketed(t, k), sc, atStart) == Ok(inner.(kleen := k > 0 || inner.kleen, strConst := sc))
    ensures Parse(t, false, false).Ok? && |Parse(t, false, false).value.text| == 0 ==>
              Parse(Bracketed(t, k), sc, atStart) == Ok(Regex(Atomic, k > 0, [], [], sc))
  {
    var s := Bracketed(t, k);
    BracketedNoFault(t, k, 0);
    forall q | 0 <= q < |s|
      ensures !SplitPoint(s, SEPARATOR, q) && !SplitPoint(s, JOIN, q)
    {
      BracketedNoSplit(t, k, SEPARATOR, q);
      BracketedNoSplit(t, k, JOIN, q);
    }
    NoSplitPass(s, SEPARATOR, atStart, 0, false, 0);
    NoSplitPass(s, JOIN, atStart, 0, false, 0);
    StripStars([BRA] + t + [KET], k);
    var u := [BRA] + t + [KET];
    assert u[1..|u| - 1] == t;
    assert Parse(s, sc, atStart) == Atom(s, sc, atStart);
  }

  // ---------------------------------------------------------------------
  // Dropping and flattening children

  lemma {:induction false} JoinAppend(v: seq<Regex>, w: seq<Regex>, d: char)
    requires |v| > 0 && |w| > 0
    ensures JoinAll(v + w, d) == JoinAll(v, d) + [d] + JoinAll(w, d)
    decreases |v|
  {
    if |v| == 1 {
      assert (v + w)[0] == v[0] && (v + w)[1..] == w;
    } else {
      assert (v + w)[0] == v[0] && (v + w)[1..] == v[1..] + w;
      JoinAppend(v[1..], w, d);
    }
  }

  /** Dropping an empty child adds no piece, and flattening an unstarred
      group into its parent never changes what the parent reduces to. */
  lemma FlattenKeepsReduce(v: seq<Regex>, c: Regex, d: char)
    requires WellShaped(c, true)
    ensures |c.text| == 0 ==> AddChild(v, c, d) == v
    ensures |c.text| > 0 ==> JoinAll(AddChild(v, c, d), d) == JoinAll(v + [c], d)
  {
    if |c.text| > 0 && Delimiter(c.kind) == Ok(d) && !c.kleen {
      assert Reduce(c) == JoinAll(c.children, d);
      if |v| > 0 {
        JoinAppend(v, c.children, d);
        JoinAppend(v, [c], d);
      } else {
        assert v + c.children == c.children && v + [c] == [c];
      }
    }
  }

  /** Lines 203-210 and 227-234 as written: a group with the parent's
      delimiter is flattened even when it is starred. */
  function AddChildAsWritten(v: seq<Regex>, c: Regex, d: char): (r: seq<Regex>)
    ensures v <= r
    ensures |c.text| > 0 && Delimiter(c.kind) != Ok(d) ==> r == AddChild(v, c, d)
  {
    if |c.text| == 0 then v
    else if Delimiter(c.kind) == Ok(d) then v + c.children
    else v + [c]
  }

  /** The pattern (ab)*c: its first piece (ab)* is a starred concatenation
      of a and b. Flattened as written it becomes the bare pieces a and b,
      the star is gone and the parent reduces as abc would; kept whole, as
      AddChild keeps it, the parent reduces with the starred group. */
  lemma FlattenDropsKleenAsWritten()
    ensures var a := Regex(Atomic, false, "a", [], true);
            var b := Regex(Atomic, false, "b", [], true);
            var ab := Regex(HasJoin, true, "ab", [a, b], true);
            && WellShaped(ab, true)
            && AddChildAsWritten([], ab, JOIN) == [a, b]
            && JoinAll(AddChildAsWritten([], ab, JOIN), JOIN) == "a\0b"
            && JoinAll([ab], JOIN) == "(a\0b)*"
            && AddChild([], ab, JOIN) == [ab]
  {
    var a := Regex(Atomic, false, "a", [], true);
    var b := Regex(Atomic, false, "b", [], true);
    var ab := Regex(HasJoin, true, "ab", [a, b], true);
    assert [a, b][1..] == [b];
  }

  // ---------------------------------------------------------------------
  // Runs of plain symbols

  /** A character that is neither an operator, a bracket, a brace nor NUL. */
  predicate IsSymbol(c: char) {
    c != BRA && c != KET && c != INCL_BEGIN && c != INCL_END && c != SEPARATOR && c != KLEEN && c != JOIN
  }

  predicate AllSymbols(w: string) {
    forall i :: 0 <= i < |w| ==> IsSymbol(w[i])
  }

  function SymbolAtom(c: char): Regex {
    Regex(Atomic, false, [c], [], true)
  }

  /** One unstarred atom per symbol, in order. */
  function Atoms(w: string): (r: seq<Regex>)
    ensures |r| == |w|
  {
    if |w| == 0 then [] else Atoms(w[..|w| - 1]) + [SymbolAtom(w[|w| - 1])]
  }

  lemma PlainBalanced(s: string)
    requires Plain(s)
    ensures Balanced(s) && !BraceFault(s)
  {
    forall n | 0 <= n <= |s|
      ensures Depth(s, n) == 0 && !Open(s, n)
    {
      PlainLevel(s, n);
    }
  }

  /** The join pass over a run of symbols, from position p on, makes one
      atom per symbol. */
  lemma {:induction false} JoinLoop(w: string, atStart: bool, p: nat)
    requires AllSymbols(w) && |w| >= 2 && p < |w|
    ensures Vectorize(w, JOIN, atStart, p, 0, false, p > 0, p, Atoms(w[..p])) == Ok((Atoms(w), true))
    decreases |w| - p
  {
    KleenRunCollapses(w[p], 0, true, atStart && p == 0);
    assert [w[p]] + Stars(0) == [w[p]] == w[p..p + 1];
    assert w[..p + 1][..p] == w[..p];
    if p < |w| - 1 {
      JoinLoop(w, atStart, p + 1);
    } else {
      assert w[p..] == [w[p]];
      assert w[..p + 1] == w;
    }
  }

  /** A run of two or more symbols reads as their concatenation, one atom
      per symbol. */
  lemma SymbolsConcatenate(w: string, sc: bool, atStart: bool)
    requires AllSymbols(w) && |w| >= 2
    ensures Parse(w, sc, atStart) == Ok(Regex(HasJoin, false, w, Atoms(w), sc))
  {
    assert Plain(w);
    PlainNoFault(w, 0);
    forall q | 0 <= q < |w|
      ensures !SplitPoint(w, SEPARATOR, q)
    {
    }
    NoSplitPass(w, SEPARATOR, atStart, 0, false, 0);
    JoinLoop(w, atStart, 0);
    assert w[..0] == [];
  }

  /** The first piece of (ab)*c reads as the starred concatenation of a and b. */
  lemma StarredPairParse()
    ensures var a := Regex(Atomic, false, "a", [], true);
            var b := Regex(Atomic, false, "b", [], true);
            var ab := Regex(HasJoin, true, "ab", [a, b], true);
            Parse("(ab)*", true, false) == Ok(ab)
  {
    var a := Regex(Atomic, false, "a", [], true);
    var b := Regex(Atomic, false, "b", [], true);
    SymbolsConcatenate("ab", false, false);
    assert Atoms("ab") == [a, b] by {
      assert "ab"[..1] == "a" && "a"[..0] == [];
    }
    PlainBalanced("ab");
    ParenthesisedCollapses("ab", 1, true, false);
    assert Bracketed("ab", 1) == "(ab)*";
  }
}
