/** The ε-NFA of the lexer generator and its step-by-step simulation.

    States live in a vector; each has its transitions on symbols, its
    ε-successors and a kleen mark. A regex tree is turned into states by a
    Thompson-style walk; the simulation keeps a stack of state sets, one
    per symbol pushed. */
module Nka {
  import opened Wrappers
  import Regexes
  import LrUtils
  import EpsEnvironment
  import FirstSets

  type Id = nat

  /** The ε symbol is the NUL character. */
  const EPS: char := '\0'

  datatype State = State(next: map<char, set<Id>>, eps: set<Id>, kleen: bool)

  /** A state as make_state creates it. */
  const BLANK: State := State(map[], {}, false)

  function Max(a: nat, b: nat): nat { if a < b then b else a }

  /** The state at id, or a blank one past the end. */
  function At(st: seq<State>, id: Id): (s: State)
    ensures id < |st| ==> s == st[id]
  {
    if id < |st| then st[id] else BLANK
  }

  /** The successors of a state on c: its ε-set for EPS, its row otherwise. */
  function Targets(s: State, c: char): set<Id> {
    if c == EPS then s.eps else if c in s.next then s.next[c] else {}
  }

  /** An edge x --c--> y; an ε-edge when c is EPS. */
  ghost predicate Edge(st: seq<State>, x: Id, c: char, y: Id) {
    x < |st| && y in Targets(st[x], c)
  }

  /** The successors of s stay below n and its rows are nonempty and not on EPS. */
  ghost predicate StateOk(s: State, n: nat) {
    && (forall c: char :: c in s.next ==> c != EPS && s.next[c] != {})
    && (forall c: char, y: Id :: y in Targets(s, c) ==> y < n)
  }

  /** Every edge ends at a state, no row is empty and no row is on EPS. */
  ghost predicate Valid(st: seq<State>) {
    forall x: Id :: x < |st| ==> StateOk(st[x], |st|)
  }

  /** t has every successor s has. */
  ghost predicate Sub(s: State, t: State) {
    forall c: char :: Targets(s, c) <= Targets(t, c)
  }

  /** st2 keeps every state and every edge of st. */
  ghost predicate Grows(st: seq<State>, st2: seq<State>) {
    |st| <= |st2| && forall x: Id :: x < |st| ==> Sub(st[x], st2[x])
  }

  lemma GrowsEdges(st: seq<State>, st2: seq<State>, x: Id, c: char, y: Id)
    requires Grows(st, st2) && Edge(st, x, c, y)
    ensures Edge(st2, x, c, y)
  {
    assert Sub(st[x], st2[x]);
  }

  lemma GrowsTrans(a: seq<State>, b: seq<State>, c: seq<State>)
    requires Grows(a, b) && Grows(b, c)
    ensures Grows(a, c)
  {
    forall x: Id | x < |a| ensures Sub(a[x], c[x]) {
      assert Sub(a[x], b[x]) && Sub(b[x], c[x]);
    }
  }

  // ---------------------------------------------------------------------
  // Building states

  /** make_state: appends a blank state and returns its id, the old size. */
  function MakeState(st: seq<State>): (r: (seq<State>, Id))
    ensures r.1 == |st| && |r.0| == |st| + 1
    ensures r.0[..|st|] == st && r.0[|st|] == BLANK
    ensures Grows(st, r.0) && (Valid(st) ==> Valid(r.0))
  {
    var r := st + [BLANK];
    assert forall x: Id :: x < |st| ==> r[x] == st[x];
    (r, |st|)
  }

  /** Appends blank states until there are n. */
  function Pad(st: seq<State>, n: nat): (r: seq<State>)
    ensures |r| == Max(|st|, n)
    ensures forall x: Id :: x < |r| ==> r[x] == At(st, x)
    decreases n - |st|
  {
    if |st| >= n then st else Pad(MakeState(st).0, n)
  }

  /** s with the one extra successor y on c. */
  function Linked(s: State, c: char, y: Id): State {
    if c == EPS then s.(eps := s.eps + {y}) else s.(next := s.next[c := Targets(s, c) + {y}])
  }

  lemma LinkedOk(s: State, c: char, y: Id, n: nat)
    requires StateOk(s, n) && y < n
    ensures StateOk(Linked(s, c, y), n)
  {
    var t := Linked(s, c, y);
    forall d: char, z: Id | z in Targets(t, d) ensures z < n {
      assert z == y || z in Targets(s, d);
    }
  }

  /** link: grows the vector until both ids are states, then adds the edge
      s1 --c--> s2, to the ε-set for EPS and to the row for c otherwise. */
  function Link(st: seq<State>, s1: Id, s2: Id, c: char): (r: seq<State>)
    ensures |r| == Max(|st|, Max(s1, s2) + 1)
    ensures Grows(st, r) && Edge(r, s1, c, s2)
    ensures forall x: Id :: x < |r| ==> r[x].kleen == At(st, x).kleen
    ensures Valid(st) ==> Valid(r)
  {
    var p := Pad(st, Max(s1, s2) + 1);
    var r := p[s1 := Linked(p[s1], c, s2)];
    assert Valid(st) ==> Valid(r) by {
      if Valid(st) {
        forall x: Id | x < |r| ensures StateOk(r[x], |r|) {
          assert p[x] == At(st, x);
          assert StateOk(At(st, x), |r|) by {
            if x < |st| {
              assert StateOk(st[x], |st|);
            }
          }
          if x == s1 {
            LinkedOk(p[x], c, s2, |r|);
          }
        }
      }
    }
    r
  }

  /** link adds exactly the one edge. */
  lemma LinkAddsOneEdge(st: seq<State>, s1: Id, s2: Id, c: char, x: Id, c': char, y: Id)
    ensures Edge(Link(st, s1, s2, c), x, c', y) <==> Edge(st, x, c', y) || (x == s1 && c' == c && y == s2)
  {
    var r := Link(st, s1, s2, c);
    if x < |r| {
      assert r[x] == if x == s1 then Linked(At(st, x), c, s2) else At(st, x);
    }
  }

  /** add: a fresh state reached from state on c. */
  function Add(st: seq<State>, state: Id, c: char): (r: (seq<State>, Id))
    requires state < |st|
    ensures r.1 == |st| && |r.0| == |st| + 1
    ensures Grows(st, r.0) && Edge(r.0, state, c, |st|)
    ensures Valid(st) ==> Valid(r.0)
  {
    var (st1, next) := MakeState(st);
    var st2 := Link(st1, state, next, c);
    GrowsTrans(st, st1, st2);
    (st2, next)
  }

  /** Marks a state as the exit of a starred part. */
  function MarkKleen(st: seq<State>, x: Id): (r: seq<State>)
    requires x < |st|
    ensures |r| == |st| && r[x].kleen
    ensures Grows(st, r) && Grows(r, st)
    ensures Valid(st) ==> Valid(r)
  {
    st[x := st[x].(kleen := true)]
  }

  /** The symbol of an atom, what Regex::get() answers. The header declares
      get() but no file of the repository defines it, so this definition is
      assumed: the atom's first character, and EPS for an empty span. */
  function Symbol(r: Regexes.Regex): (c: char)
    ensures |r.text| > 0 ==> c == r.text[0]
    ensures |r.text| == 0 ==> c == EPS
  {
    if |r.text| > 0 then r.text[0] else EPS
  }

  /** parseRegex: builds the part for r entered at state and returns its
      exit; a starred part loops back and exits at its entry. */
  function Build(st: seq<State>, r: Regexes.Regex, state: Id): (res: (seq<State>, Id))
    requires state < |st|
    ensures |st| <= |res.0| && res.1 < |res.0|
    decreases r, 1
  {
    var body := BuildBody(st, r, state);
    if r.kleen then
      var st1 := MarkKleen(body.0, body.1);
      (Link(st1, body.1, state, EPS), state)
    else body
  }

  /** The switch of parseRegex, before the kleen step. */
  function BuildBody(st: seq<State>, r: Regexes.Regex, state: Id): (res: (seq<State>, Id))
    requires state < |st|
    ensures |st| <= |res.0| && res.1 < |res.0|
    decreases r, 0
  {
    match r.kind
    case HasSeparator =>
      var (st1, ret) := MakeState(st);
      var alt := Alternatives(st1, r.children, state, ret);
      (alt.0, ret)
    case HasJoin => Sequence(st, r.children, state)
    case Atomic => Add(st, state, Symbol(r))
  }

  /** One alternative: a fresh ε-successor of state as its entry, the part
      for c built from there, and an ε-edge from its exit to ret. Returns
      the states, the entry and the exit. */
  function Branch(st: seq<State>, c: Regexes.Regex, state: Id, ret: Id): (r: (seq<State>, Id, Id))
    requires state < |st| && ret < |st|
    ensures r.1 == |st| < |r.0| && r.2 < |r.0|
    decreases c, 2
  {
    var (st1, x) := Add(st, state, EPS);
    var (st2, y) := Build(st1, c, x);
    (Link(st2, y, ret, EPS), x, y)
  }

  /** The alternatives of a separator node, one after another, all sharing
      the exit ret; returns each one's entry and exit. */
  function Alternatives(st: seq<State>, cs: seq<Regexes.Regex>, state: Id, ret: Id): (res: (seq<State>, seq<(Id, Id)>))
    requires state < |st| && ret < |st|
    ensures |st| <= |res.0| && |res.1| == |cs|
    decreases cs
  {
    if |cs| == 0 then (st, [])
    else
      var (st1, x, y) := Branch(st, cs[0], state, ret);
      var rest := Alternatives(st1, cs[1..], state, ret);
      (rest.0, [(x, y)] + rest.1)
  }

  /** The pieces of a join node, chained: each enters at a fresh
      ε-successor of the previous piece's exit. */
  function Sequence(st: seq<State>, cs: seq<Regexes.Regex>, cur: Id): (res: (seq<State>, Id))
    requires cur < |st|
    ensures |st| <= |res.0| && res.1 < |res.0|
    ensures |cs| == 0 ==> res == (st, cur)
    decreases cs
  {
    if |cs| == 0 then (st, cur)
    else
      var (st1, x) := Add(st, cur, EPS);
      var (st2, y) := Build(st1, cs[0], x);
      Sequence(st2, cs[1..], y)
  }

  // ---------------------------------------------------------------------
  // What building keeps

  /** Building only adds states and edges, and keeps the vector valid. */
  lemma {:induction false} BuildGrows(st: seq<State>, r: Regexes.Regex, state: Id)
    requires state < |st|
    ensures Grows(st, Build(st, r, state).0)
    ensures Valid(st) ==> Valid(Build(st, r, state).0)
    decreases r, 1
  {
    var body := BuildBody(st, r, state);
    BodyGrows(st, r, state);
    if r.kleen {
      var st1 := MarkKleen(body.0, body.1);
      var st2 := Link(st1, body.1, state, EPS);
      GrowsTrans(body.0, st1, st2);
      GrowsTrans(st, body.0, st2);
    }
  }

  lemma {:induction false} BodyGrows(st: seq<State>, r: Regexes.Regex, state: Id)
    requires state < |st|
    ensures Grows(st, BuildBody(st, r, state).0)
    ensures Valid(st) ==> Valid(BuildBody(st, r, state).0)
    decreases r, 0
  {
    match r.kind
    case HasSeparator =>
      var (st1, ret) := MakeState(st);
      AlternativesGrows(st1, r.children, state, ret);
      GrowsTrans(st, st1, Alternatives(st1, r.children, state, ret).0);
    case HasJoin =>
      SequenceGrows(st, r.children, state);
    case Atomic =>
  }

  lemma {:induction false} BranchGrows(st: seq<State>, c: Regexes.Regex, state: Id, ret: Id)
    requires state < |st| && ret < |st|
    ensures var b := Branch(st, c, state, ret);
      && Grows(st, b.0) && (Valid(st) ==> Valid(b.0))
      && Edge(b.0, state, EPS, b.1) && Edge(b.0, b.2, EPS, ret)
    decreases c, 2
  {
    var (st1, x) := Add(st, state, EPS);
    BuildGrows(st1, c, x);
    var (st2, y) := Build(st1, c, x);
    var st3 := Link(st2, y, ret, EPS);
    GrowsTrans(st1, st2, st3);
    GrowsTrans(st, st1, st3);
    GrowsEdges(st1, st3, state, EPS, x);
  }

  lemma AlternativesUnfold(st: seq<State>, cs: seq<Regexes.Regex>, state: Id, ret: Id)
    requires state < |st| && ret < |st| && |cs| > 0
    ensures var b := Branch(st, cs[0], state, ret);
      var rest := Alternatives(b.0, cs[1..], state, ret);
      Alternatives(st, cs, state, ret) == (rest.0, [(b.1, b.2)] + rest.1)
  {
  }

  lemma {:induction false} AlternativesGrows(st: seq<State>, cs: seq<Regexes.Regex>, state: Id, ret: Id)
    requires state < |st| && ret < |st|
    ensures Grows(st, Alternatives(st, cs, state, ret).0)
    ensures Valid(st) ==> Valid(Alternatives(st, cs, state, ret).0)
    decreases cs
  {
    if |cs| > 0 {
      var b := Branch(st, cs[0], state, ret);
      BranchGrows(st, cs[0], state, ret);
      AlternativesGrows(b.0, cs[1..], state, ret);
      AlternativesUnfold(st, cs, state, ret);
      GrowsTrans(st, b.0, Alternatives(b.0, cs[1..], state, ret).0);
    }
  }

  lemma {:induction false} SequenceGrows(st: seq<State>, cs: seq<Regexes.Regex>, cur: Id)
    requires cur < |st|
    ensures Grows(st, Sequence(st, cs, cur).0)
    ensures Valid(st) ==> Valid(Sequence(st, cs, cur).0)
    decreases cs
  {
    if |cs| > 0 {
      var (st1, x) := Add(st, cur, EPS);
      BuildGrows(st1, cs[0], x);
      var (st2, y) := Build(st1, cs[0], x);
      SequenceGrows(st2, cs[1..], y);
      GrowsTrans(st, st1, st2);
      GrowsTrans(st, st2, Sequence(st2, cs[1..], y).0);
    }
  }

  // ---------------------------------------------------------------------
  // The shape of what is built

  /** Each alternative's entry is an ε-successor of state and its exit is
      ε-linked to ret. */
  lemma {:induction false} AlternativesShareExit(st: seq<State>, cs: seq<Regexes.Regex>, state: Id, ret: Id, i: nat)
    requires state < |st| && ret < |st| && i < |cs|
    ensures var res := Alternatives(st, cs, state, ret);
      Edge(res.0, state, EPS, res.1[i].0) && Edge(res.0, res.1[i].1, EPS, ret)
    decreases cs
  {
    var b := Branch(st, cs[0], state, ret);
    var rest := Alternatives(b.0, cs[1..], state, ret);
    AlternativesUnfold(st, cs, state, ret);
    if i == 0 {
      BranchGrows(st, cs[0], state, ret);
      AlternativesGrows(b.0, cs[1..], state, ret);
      GrowsEdges(b.0, rest.0, state, EPS, b.1);
      GrowsEdges(b.0, rest.0, b.2, EPS, ret);
    } else {
      AlternativesShareExit(b.0, cs[1..], state, ret, i - 1);
    }
  }

  /** Every alternative's entry is created by the call. */
  lemma {:induction false} AlternativesEntryBound(st: seq<State>, cs: seq<Regexes.Regex>, state: Id, ret: Id, i: nat)
    requires state < |st| && ret < |st| && i < |cs|
    ensures |st| <= Alternatives(st, cs, state, ret).1[i].0
    decreases cs
  {
    var b := Branch(st, cs[0], state, ret);
    AlternativesUnfold(st, cs, state, ret);
    if i > 0 {
      AlternativesEntryBound(b.0, cs[1..], state, ret, i - 1);
    }
  }

  /** The alternatives' entries are distinct fresh states, in creation order. */
  lemma {:induction false} AlternativesFreshEntries(st: seq<State>, cs: seq<Regexes.Regex>, state: Id, ret: Id, i: nat, j: nat)
    requires state < |st| && ret < |st| && i < j < |cs|
    ensures Alternatives(st, cs, state, ret).1[i].0 < Alternatives(st, cs, state, ret).1[j].0
    decreases cs
  {
    var b := Branch(st, cs[0], state, ret);
    var rest := Alternatives(b.0, cs[1..], state, ret);
    AlternativesUnfold(st, cs, state, ret);
    var ps := Alternatives(st, cs, state, ret).1;
    assert ps[j] == rest.1[j - 1];
    if i == 0 {
      AlternativesEntryBound(b.0, cs[1..], state, ret, j - 1);
    } else {
      assert ps[i] == rest.1[i - 1];
      AlternativesFreshEntries(b.0, cs[1..], state, ret, i - 1, j - 1);
    }
  }

  /** A starred part is marked at its exit, loops back from there to its
      entry by ε, and returns the entry as its own exit. */
  lemma KleenLoopsBack(st: seq<State>, r: Regexes.Regex, state: Id)
    requires state < |st| && r.kleen
    ensures var body := BuildBody(st, r, state);
      var res := Build(st, r, state);
      && res.1 == state
      && Edge(res.0, body.1, EPS, state)
      && res.0[body.1].kleen
  {
  }


  // ---------------------------------------------------------------------
  // Queries on the states

  /** The failure of a lookup with no row for the symbol (std::out_of_range). */
  datatype Fault = OutOfRange

  /** get_transitions: the ε-set for EPS, otherwise the row for c, which
      must exist. */
  function GetTransitions(st: seq<State>, id: Id, c: char): (r: Result<set<Id>, Fault>)
    requires id < |st|
    ensures r.Err? <==> c != EPS && c !in st[id].next
    ensures r.Ok? ==> forall y: Id :: y in r.value <==> Edge(st, id, c, y)
  {
    if c == EPS then Ok(st[id].eps)
    else if c in st[id].next then Ok(st[id].next[c])
    else Err(OutOfRange)
  }

  /** get_transition_symbols: EPS when there is an ε-edge, and the symbol of
      every row. */
  function TransitionSymbols(st: seq<State>, id: Id): (r: set<char>)
    requires id < |st|
    ensures EPS in r <==> st[id].eps != {} || EPS in st[id].next
    ensures forall c: char :: c != EPS ==> (c in r <==> c in st[id].next)
  {
    (if st[id].eps != {} then {EPS} else {}) + st[id].next.Keys
  }

  /** In a valid vector the symbols reported are exactly those with an edge. */
  lemma SymbolsAreEdges(st: seq<State>, id: Id, c: char)
    requires Valid(st) && id < |st|
    ensures c in TransitionSymbols(st, id) <==> exists y: Id :: Edge(st, id, c, y)
  {
    assert StateOk(st[id], |st|);
    if c in TransitionSymbols(st, id) {
      if c == EPS {
        var y :| y in st[id].eps;
        assert Edge(st, id, c, y);
      } else {
        var y :| y in st[id].next[c];
        assert Edge(st, id, c, y);
      }
    }
  }

  // ---------------------------------------------------------------------
  // The automaton and its simulation

  datatype Automaton = Automaton(states: seq<State>, start: Id, end: Id)

  ghost predicate WellFormed(a: Automaton) {
    Valid(a.states) && a.start < |a.states| && a.end < |a.states|
  }

  /** The first half of operator=(Regex): a fresh vector whose first state
      is the start, and the part for the regex built from it. The reset()
      that follows is in Assign below. */
  function FromRegex(r: Regexes.Regex): (a: Automaton)
    ensures WellFormed(a) && a.start == 0
  {
    var (st, start) := MakeState([]);
    BuildGrows(st, r, start);
    var (st1, end) := Build(st, r, start);
    Automaton(st1, start, end)
  }

  /** operator=(std::string): parses the pattern, then assigns from the
      tree, reset() included. The tree's strConst marks do not affect the
      states, so the flag the parser is given is a parameter. */
  function FromPattern(s: string, sc: bool): (r: Result<Automaton, Regexes.Failure>)
    ensures r.Ok? <==> Regexes.FromString(s, sc).Ok?
    ensures r.Ok? ==> WellFormed(r.value) && r.value.start == 0 && 0 in r.value.states[0].eps
    ensures r.Err? ==> r.error == Regexes.FromString(s, sc).error
  {
    match Regexes.FromString(s, sc)
    case Ok(t) => Ok(Assign(t).0)
    case Err(e) => Err(e)
  }

  /** The ε-edges in the form the closure works on. */
  function EpsTrans(a: Automaton): (t: EpsEnvironment.Trans)
    ensures forall x: Id :: x < |a.states| ==> EpsEnvironment.ExistsTrans(t, x, LrUtils.EPS) && t[x][LrUtils.EPS] == a.states[x].eps
    ensures forall x: Id :: x in t ==> x < |a.states|
  {
    map x: Id | x < |a.states| :: map[LrUtils.EPS := a.states[x].eps]
  }

  lemma EpsTransWF(a: Automaton)
    requires Valid(a.states)
    ensures EpsEnvironment.WF(EpsTrans(a), |a.states|)
  {
    var t := EpsTrans(a);
    forall s, sym, x | s in t && sym in t[s] && x in t[s][sym] ensures x < |a.states| {
      assert StateOk(a.states[s], |a.states|);
      assert Edge(a.states, s, EPS, x);
    }
  }

  /** The ε-closure of x: the states reachable from x by ε-edges, x
      included. This is what get_eps_neighbors is meant to answer; the walk
      as written is GetEpsNeighbors below, which can answer less on
      ε-cycles. */
  function Closure(a: Automaton, x: Id): (c: set<Id>)
    ensures x in c
  {
    EpsEnvironment.Closure(EpsTrans(a), |a.states|, x)
  }

  /** The closures of all states of R together: what unionize is meant to
      answer (Unionize below is the walk as written). */
  function Close(a: Automaton, R: set<Id>): (c: set<Id>)
    ensures R <= c
  {
    var c := set x, y | x in R && y in Closure(a, x) :: y;
    assert R <= c by {
      forall x | x in R ensures x in c {
        assert x in Closure(a, x);
      }
    }
    c
  }

  /** The row of s on c, empty when it has none (operator[] on the map). */
  function NextOn(s: State, c: char): set<Id> {
    if c in s.next then s.next[c] else {}
  }

  /** Every successor on c of a state of S. */
  function Step(a: Automaton, S: set<Id>, c: char): set<Id> {
    set x, y | x in S && x < |a.states| && y in NextOn(a.states[x], c) :: y
  }

  /** consume as intended: the successors on c, closed under ε. */
  function Consume(a: Automaton, S: set<Id>, c: char): set<Id> {
    Close(a, Step(a, S, c))
  }

  /** The acceptable flag as intended: the end state is in the state's
      closure or is the state itself. */
  predicate Acceptable(a: Automaton, x: Id) {
    a.end in Closure(a, x) || x == a.end
  }

  /** The count in push_sym is nonzero: some state of S is acceptable. */
  predicate Accepting(a: Automaton, S: set<Id>) {
    exists x: Id :: x in S && Acceptable(a, x)
  }

  lemma EndAccepts(a: Automaton, S: set<Id>)
    requires a.end in S
    ensures Accepting(a, S)
  {
    assert Acceptable(a, a.end);
  }

  lemma AcceptingReachesEnd(a: Automaton, R: set<Id>)
    requires WellFormed(a) && forall x: Id :: x in R ==> x < |a.states|
    requires Accepting(a, Close(a, R))
    ensures a.end in Close(a, R)
  {
    var x: Id :| x in Close(a, R) && Acceptable(a, x);
    if x != a.end {
      var y: Id :| y in R && x in Closure(a, y);
      EpsTransWF(a);
      EpsEnvironment.ClosureIncludesSuccessors(EpsTrans(a), |a.states|, y, x);
      CloseIncludes(a, R, y);
    }
  }

  /** For a closed set, acceptance is membership of the end state. */
  lemma AcceptingClosed(a: Automaton, R: set<Id>)
    requires WellFormed(a) && forall x: Id :: x in R ==> x < |a.states|
    ensures Accepting(a, Close(a, R)) <==> a.end in Close(a, R)
  {
    if Accepting(a, Close(a, R)) {
      AcceptingReachesEnd(a, R);
    }
    if a.end in Close(a, R) {
      EndAccepts(a, Close(a, R));
    }
  }

  /** The sets reached from S by consuming w. */
  function Run(a: Automaton, S: set<Id>, w: string): set<Id>
    decreases |w|
  {
    if |w| == 0 then S else Run(a, Consume(a, S, w[0]), w[1..])
  }

  /** The word is accepted: consuming it from the start closure reaches an
      acceptable state. */
  ghost predicate Accepts(a: Automaton, w: string) {
    Accepting(a, Run(a, Closure(a, a.start), w))
  }

  /** In a well-formed automaton every successor on a symbol is a state. */
  lemma StepBelow(a: Automaton, S: set<Id>, c: char)
    requires WellFormed(a)
    ensures forall y: Id :: y in Step(a, S, c) ==> y < |a.states|
  {
    forall y: Id | y in Step(a, S, c) ensures y < |a.states| {
      var x: Id :| x in S && x < |a.states| && y in NextOn(a.states[x], c);
      assert StateOk(a.states[x], |a.states|);
      assert y in Targets(a.states[x], c);
    }
  }

  /** The closure of one state is the union of closures of {x}. */
  lemma ClosureIsClose(a: Automaton, x: Id)
    ensures Closure(a, x) == Close(a, {x})
  {
    forall y | y in Close(a, {x}) ensures y in Closure(a, x) {
      var z :| z in {x} && y in Closure(a, z);
      assert z == x;
    }
  }

  /** Every set a nonempty word reaches is a closure of states. */
  lemma {:induction false} RunIsClosed(a: Automaton, S: set<Id>, w: string) returns (R: set<Id>)
    requires WellFormed(a) && |w| > 0
    ensures Run(a, S, w) == Close(a, R) && forall x: Id :: x in R ==> x < |a.states|
    decreases |w|
  {
    if |w| == 1 {
      R := Step(a, S, w[0]);
      StepBelow(a, S, w[0]);
      assert w[1..] == [];
    } else {
      R := RunIsClosed(a, Consume(a, S, w[0]), w[1..]);
    }
  }

  /** A word is accepted exactly when consuming it reaches the end state. */
  lemma AcceptsIffEnd(a: Automaton, w: string)
    requires WellFormed(a)
    ensures Accepts(a, w) <==> a.end in Run(a, Closure(a, a.start), w)
  {
    if |w| == 0 {
      ClosureIsClose(a, a.start);
      AcceptingClosed(a, {a.start});
    } else {
      var R := RunIsClosed(a, Closure(a, a.start), w);
      AcceptingClosed(a, R);
    }
  }

  /** The stack of state sets: one entry per symbol pushed after reset. */
  type Stack = seq<set<Id>>

  /** reset: the stack holds only the start state's closure. */
  function Reset(a: Automaton): (s: Stack)
    ensures |s| == 1 && a.start in s[0]
  {
    [Closure(a, a.start)]
  }

  /** push_sym as written: currentState() is the FIRST entry, so the set
      consumed and the set whose acceptance is reported are both the one
      reset left. */
  function PushSymAsWritten(a: Automaton, stack: Stack, c: char): (r: (Stack, bool))
    requires |stack| > 0
    ensures |r.0| == |stack| + 1 && r.0[..|stack|] == stack
    ensures r.0[0] == stack[0]
    ensures r.1 <==> exists x: Id :: x in stack[0] && Acceptable(a, x)
  {
    var pushed := stack + [Consume(a, stack[0], c)];
    (pushed, Accepting(a, pushed[0]))
  }

  /** push_sym as intended: consumes from the newest entry and reports
      whether the entry pushed accepts. */
  function PushSym(a: Automaton, stack: Stack, c: char): (r: (Stack, bool))
    requires |stack| > 0
    ensures |r.0| == |stack| + 1 && r.0[..|stack|] == stack
    ensures r.0[|stack|] == Consume(a, stack[|stack| - 1], c)
    ensures r.1 <==> exists x: Id :: x in r.0[|stack|] && Acceptable(a, x)
  {
    var pushed := stack + [Consume(a, stack[|stack| - 1], c)];
    (pushed, Accepting(a, pushed[|stack|]))
  }

  /** pop_sym: drops the newest entry. */
  function PopSym(stack: Stack): (r: Stack)
    requires |stack| > 0
    ensures |r| == |stack| - 1
  {
    stack[..|stack| - 1]
  }

  /** Pushing a symbol and popping it again restores the stack. */
  lemma PushThenPop(a: Automaton, stack: Stack, c: char)
    requires |stack| > 0
    ensures PopSym(PushSym(a, stack, c).0) == stack
    ensures PopSym(PushSymAsWritten(a, stack, c).0) == stack
  {
  }

  /** The loop of eval: pushes every symbol of w and keeps the last answer;
      ret is the answer so far, None while it is still uninitialised. */
  function EvalLoop(a: Automaton, stack: Stack, w: string, ret: Option<bool>): Option<bool>
    requires |stack| > 0
    decreases |w|
  {
    if |w| == 0 then ret
    else
      var (pushed, acc) := PushSym(a, stack, w[0]);
      EvalLoop(a, pushed, w[1..], Some(acc))
  }

  function EvalLoopAsWritten(a: Automaton, stack: Stack, w: string, ret: Option<bool>): Option<bool>
    requires |stack| > 0
    decreases |w|
  {
    if |w| == 0 then ret
    else
      var (pushed, acc) := PushSymAsWritten(a, stack, w[0]);
      EvalLoopAsWritten(a, pushed, w[1..], Some(acc))
  }

  /** eval: reset, push every symbol, reset again, and return the last
      answer; for the empty word the answer is never set, which is None. */
  function Eval(a: Automaton, w: string): Option<bool> {
    EvalLoop(a, Reset(a), w, None)
  }

  function EvalAsWritten(a: Automaton, w: string): Option<bool> {
    EvalLoopAsWritten(a, Reset(a), w, None)
  }

  lemma {:induction false} EvalLoopRuns(a: Automaton, stack: Stack, w: string, ret: Option<bool>)
    requires |stack| > 0
    ensures EvalLoop(a, stack, w, ret) == if |w| == 0 then ret else Some(Accepting(a, Run(a, stack[|stack| - 1], w)))
    decreases |w|
  {
    if |w| > 0 {
      var (pushed, acc) := PushSym(a, stack, w[0]);
      EvalLoopRuns(a, pushed, w[1..], Some(acc));
      if |w| == 1 {
        assert w[1..] == [];
      }
    }
  }

  /** The corrected eval answers whether the word is accepted. */
  lemma EvalRuns(a: Automaton, w: string)
    ensures Eval(a, w) == if |w| == 0 then None else Some(Accepts(a, w))
  {
    EvalLoopRuns(a, Reset(a), w, None);
  }

  lemma {:induction false} EvalLoopAsWrittenFront(a: Automaton, stack: Stack, w: string, ret: Option<bool>)
    requires |stack| > 0
    ensures EvalLoopAsWritten(a, stack, w, ret) == if |w| == 0 then ret else Some(Accepting(a, stack[0]))
    decreases |w|
  {
    if |w| > 0 {
      var (pushed, acc) := PushSymAsWritten(a, stack, w[0]);
      EvalLoopAsWrittenFront(a, pushed, w[1..], Some(acc));
    }
  }

  /** eval as written answers the same for every nonempty word: whether
      the start state's closure accepts. */
  lemma EvalAsWrittenIgnoresInput(a: Automaton, w: string)
    requires |w| > 0
    ensures EvalAsWritten(a, w) == Some(Accepting(a, Closure(a, a.start)))
  {
    EvalLoopAsWrittenFront(a, Reset(a), w, None);
  }

  /** The tree of the one-symbol pattern "a". */
  function AtomA(): Regexes.Regex {
    Regexes.Regex(Regexes.Atomic, false, "a", [], true)
  }

  /** Two states, an 'a'-edge from the start 0 to the end 1, no ε-edges. */
  function SymbolA(): Automaton {
    Automaton([State(map['a' := {1}], {}, false), BLANK], 0, 1)
  }

  /** SymbolA is what the builder makes of "a". */
  lemma BuildsSymbolA()
    ensures FromRegex(AtomA()) == SymbolA()
  {
    var (st, start) := MakeState([]);
    assert st == [BLANK] && start == 0;
    var (st1, end) := Add(st, 0, 'a');
    assert Build(st, AtomA(), 0) == (st1, end);
    var (st2, next) := MakeState(st);
    assert st2 == [BLANK, BLANK] && next == 1;
    assert Pad(st2, 2) == st2;
    var row: set<Id> := Targets(BLANK, 'a') + {1};
    assert row == {1};
    assert Linked(BLANK, 'a', 1) == State(map['a' := {1}], {}, false);
    assert st1 == Link(st2, 0, 1, 'a') == SymbolA().states;
  }

  /** In SymbolA each state's closure is the state alone. */
  lemma SymbolAClosures(x: Id)
    requires x < 2
    ensures Closure(SymbolA(), x) == {x}
  {
    var a := SymbolA();
    var t := EpsTrans(a);
    assert EpsEnvironment.EpsOf(t, {x}) == {} by {
      EpsEnvironment.GetNextSingle(t, x, LrUtils.EPS);
    }
    EpsEnvironment.ClosureLeast(t, 2, x, {x});
  }

  /** The start set of SymbolA is {0}, which does not accept. */
  lemma SymbolAStartRejects()
    ensures !Accepting(SymbolA(), Closure(SymbolA(), SymbolA().start))
  {
    var a := SymbolA();
    SymbolAClosures(0);
    forall x: Id | x in Closure(a, a.start) ensures !Acceptable(a, x) {
      assert x == 0;
    }
  }

  lemma SymbolACloseEnd()
    ensures Close(SymbolA(), {1}) == {1}
  {
    var a := SymbolA();
    SymbolAClosures(1);
    forall y | y in Close(a, {1}) ensures y == 1 {
      var x :| x in {1} && y in Closure(a, x);
      assert x == 1;
    }
  }

  /** Consuming 'a' from the start set of SymbolA reaches {1}, which accepts. */
  lemma SymbolAAcceptsA()
    ensures Accepts(SymbolA(), "a")
  {
    var a := SymbolA();
    SymbolAClosures(0);
    SymbolAClosures(1);
    assert Step(a, {0}, 'a') == {1} by {
      assert NextOn(a.states[0], 'a') == {1};
    }
    SymbolACloseEnd();
    assert Run(a, Closure(a, a.start), "a") == {1} by {
      assert Consume(a, {0}, 'a') == {1};
      assert "a"[1..] == [];
    }
    EndAccepts(a, {1});
  }

  /** For the word "a", the corrected eval accepts and eval as written
      rejects: it reports on the start set, which does not hold the end. */
  lemma EvalAsWrittenRejectsA()
    ensures Eval(FromRegex(AtomA()), "a") == Some(true)
    ensures EvalAsWritten(FromRegex(AtomA()), "a") == Some(false)
  {
    BuildsSymbolA();
    EvalRuns(SymbolA(), "a");
    SymbolAAcceptsA();
    EvalAsWrittenIgnoresInput(SymbolA(), "a");
    SymbolAStartRejects();
  }

  // ---------------------------------------------------------------------
  // get_eps_neighbors as the source writes it: a memoised walk

  /** The fields of the states that the walk reads and writes: each
      state's ε-set as it stands (the walk overwrites it), and the
      evaluated and acceptable flags. reset does not clear them, so every
      walk sees what the earlier ones left. */
  datatype Memo = Memo(eps: seq<set<Id>>, evaluated: set<Id>, acceptable: set<Id>)

  /** The fields of a freshly built automaton: the ε-sets as built and no
      flag set. */
  function FreshMemo(a: Automaton): (m: Memo)
    ensures |m.eps| == |a.states| && m.evaluated == {} && m.acceptable == {}
    ensures forall x :: 0 <= x < |a.states| ==> m.eps[x] == a.states[x].eps
  {
    Memo(seq(|a.states|, i requires 0 <= i < |a.states| => a.states[i].eps), {}, {})
  }

  /** The states not evaluated yet: the walk's termination measure. */
  function Unevaluated(m: Memo): nat {
    |EpsEnvironment.Below(|m.eps|) - m.evaluated|
  }

  /** get_eps_neighbors(x): an evaluated state answers its ε-set as it
      stands, after adding x to it. Otherwise x is marked evaluated first,
      then its set is replaced by unionize of it, x is flagged acceptable
      when the end state is in that union or x is the end, and x is
      added. */
  function GetEpsNeighbors(a: Automaton, m: Memo, x: Id): (r: (set<Id>, Memo))
    requires x < |m.eps|
    ensures |r.1.eps| == |m.eps| && m.evaluated + {x} <= r.1.evaluated
    ensures x in r.0 && r.0 == r.1.eps[x]
    ensures x in m.evaluated ==> r.0 == m.eps[x] + {x} && r.1.evaluated == m.evaluated && r.1.acceptable == m.acceptable
    decreases Unevaluated(m), 0, 0
  {
    if x in m.evaluated then
      var e := m.eps[x] + {x};
      (e, m.(eps := m.eps[x := e]))
    else
      var n := |m.eps|;
      FirstSets.CardDrop(EpsEnvironment.Below(n) - m.evaluated, x);
      assert EpsEnvironment.Below(n) - (m.evaluated + {x}) == (EpsEnvironment.Below(n) - m.evaluated) - {x};
      EvaluateEps(a, m.(evaluated := m.evaluated + {x}), x)
  }

  /** The first visit of x, already marked evaluated. */
  function EvaluateEps(a: Automaton, m: Memo, x: Id): (r: (set<Id>, Memo))
    requires x < |m.eps| && x in m.evaluated
    ensures |r.1.eps| == |m.eps| && m.evaluated <= r.1.evaluated
    ensures x in r.0 && r.0 == r.1.eps[x]
    decreases Unevaluated(m), 3, 0
  {
    var (u, m1) := Unionize(a, m, m.eps[x]);
    var flagged := if a.end in u || x == a.end then m1.acceptable + {x} else m1.acceptable;
    var e := u + {x};
    (e, m1.(eps := m1.eps[x := e], acceptable := flagged))
  }

  /** unionize(S): S together with the neighbours of each of its states,
      asked in increasing order. */
  function Unionize(a: Automaton, m: Memo, S: set<Id>): (r: (set<Id>, Memo))
    ensures |r.1.eps| == |m.eps| && m.evaluated <= r.1.evaluated && S <= r.0
    decreases Unevaluated(m), 2, 0
  {
    var order := EpsEnvironment.Ascending(S, 0, |m.eps|);
    EpsEnvironment.AscendingSorted(S, 0, |m.eps|);
    UnionLoop(a, m, order, 0, S)
  }

  /** The loop of unionize over order[i..], acc the union so far. */
  function UnionLoop(a: Automaton, m: Memo, order: seq<Id>, i: nat, acc: set<Id>): (r: (set<Id>, Memo))
    requires i <= |order| && forall j :: 0 <= j < |order| ==> order[j] < |m.eps|
    ensures |r.1.eps| == |m.eps| && m.evaluated <= r.1.evaluated && acc <= r.0
    decreases Unevaluated(m), 1, |order| - i
  {
    if i == |order| then (acc, m)
    else
      var (e, m1) := GetEpsNeighbors(a, m, order[i]);
      EpsEnvironment.Measure(|m.eps|, m.evaluated, m1.evaluated);
      UnionLoop(a, m1, order, i + 1, acc + e)
  }

  /** consume as written: the successors on c, then unionize. */
  function ConsumeAsWritten(a: Automaton, m: Memo, S: set<Id>, c: char): (r: (set<Id>, Memo))
    ensures |r.1.eps| == |m.eps| && Step(a, S, c) <= r.0
  {
    Unionize(a, m, Step(a, S, c))
  }

  /** reset as written: the start state's neighbours through the walk. */
  function ResetAsWritten(a: Automaton, m: Memo): (r: (Stack, Memo))
    requires a.start < |m.eps|
    ensures |r.0| == 1 && a.start in r.0[0] && a.start in r.1.evaluated
    ensures |r.1.eps| == |m.eps| && r.0[0] == r.1.eps[a.start]
  {
    var (e, m1) := GetEpsNeighbors(a, m, a.start);
    ([e], m1)
  }

  // ---------------------------------------------------------------------
  // The walk is sound: everything it answers is reachable

  /** A table of sets, one per state, that holds each state and is
      transitive: the set of a member is part of the set. The ε-closures
      form one. */
  ghost predicate Table(cl: seq<set<Id>>) {
    && (forall y :: 0 <= y < |cl| ==> y in cl[y])
    && (forall y, z :: 0 <= y < |cl| && z in cl[y] && z < |cl| ==> cl[z] <= cl[y])
  }

  /** The fields stay within the table: every stored set lies in its
      state's entry and every flagged state has the end state in its entry
      or is the end state. */
  ghost predicate WithinTable(a: Automaton, m: Memo, cl: seq<set<Id>>) {
    && |m.eps| == |cl|
    && (forall y :: 0 <= y < |m.eps| ==> m.eps[y] <= cl[y])
    && (forall y: Id :: y in m.acceptable ==> y < |cl| && (a.end in cl[y] || y == a.end))
  }

  /** C holds the entry of each of its states. */
  ghost predicate ClosedUnder(cl: seq<set<Id>>, C: set<Id>) {
    forall y: Id :: y in C && y < |cl| ==> cl[y] <= C
  }

  /** The ε-closures of all states. */
  ghost function Closures(a: Automaton): (cl: seq<set<Id>>)
    ensures |cl| == |a.states| && forall y :: 0 <= y < |cl| ==> cl[y] == Closure(a, y)
  {
    seq(|a.states|, y requires 0 <= y < |a.states| => Closure(a, y))
  }

  lemma ClosuresTable(a: Automaton)
    requires WellFormed(a)
    ensures Table(Closures(a))
  {
    var cl := Closures(a);
    EpsTransWF(a);
    forall y, z | 0 <= y < |cl| && z in cl[y] && z < |cl| ensures cl[z] <= cl[y] {
      EpsEnvironment.ClosureIncludesSuccessors(EpsTrans(a), |a.states|, y, z);
    }
  }

  /** The fields are sound: every stored set is reachable from its state
      and every flagged state is acceptable. */
  ghost predicate MemoSound(a: Automaton, m: Memo) {
    WithinTable(a, m, Closures(a))
  }

  /** The fields of a fresh automaton are sound: each ε-successor is
      reachable. */
  lemma FreshMemoSound(a: Automaton)
    requires WellFormed(a)
    ensures MemoSound(a, FreshMemo(a))
  {
    var m := FreshMemo(a);
    EpsTransWF(a);
    forall y | 0 <= y < |m.eps| ensures m.eps[y] <= Closure(a, y) {
      EpsEnvironment.ClosureClosed(EpsTrans(a), |a.states|, y, y);
    }
  }

  lemma InClosed(cl: seq<set<Id>>, C: set<Id>, y: Id, e: set<Id>)
    requires ClosedUnder(cl, C) && y in C && y < |cl| && e <= cl[y]
    ensures e <= C
  {
  }

  lemma {:induction false} GetEpsWithin(a: Automaton, m: Memo, x: Id, cl: seq<set<Id>>)
    requires Table(cl) && WithinTable(a, m, cl) && x < |m.eps|
    ensures WithinTable(a, GetEpsNeighbors(a, m, x).1, cl)
    ensures GetEpsNeighbors(a, m, x).0 <= cl[x]
    decreases Unevaluated(m), 0, 0
  {
    if x !in m.evaluated {
      var n := |m.eps|;
      FirstSets.CardDrop(EpsEnvironment.Below(n) - m.evaluated, x);
      assert EpsEnvironment.Below(n) - (m.evaluated + {x}) == (EpsEnvironment.Below(n) - m.evaluated) - {x};
      EvaluateWithin(a, m.(evaluated := m.evaluated + {x}), x, cl);
    }
  }

  lemma {:induction false} EvaluateWithin(a: Automaton, m: Memo, x: Id, cl: seq<set<Id>>)
    requires Table(cl) && WithinTable(a, m, cl) && x < |m.eps| && x in m.evaluated
    ensures WithinTable(a, EvaluateEps(a, m, x).1, cl)
    ensures EvaluateEps(a, m, x).0 <= cl[x]
    decreases Unevaluated(m), 3, 0
  {
    UnionizeWithin(a, m, m.eps[x], cl, cl[x]);
  }

  lemma {:induction false} UnionizeWithin(a: Automaton, m: Memo, S: set<Id>, cl: seq<set<Id>>, C: set<Id>)
    requires Table(cl) && WithinTable(a, m, cl) && S <= C && ClosedUnder(cl, C)
    ensures WithinTable(a, Unionize(a, m, S).1, cl) && Unionize(a, m, S).0 <= C
    decreases Unevaluated(m), 2, 0
  {
    EpsEnvironment.AscendingSorted(S, 0, |m.eps|);
    UnionLoopWithin(a, m, EpsEnvironment.Ascending(S, 0, |m.eps|), 0, S, cl, C);
  }

  lemma {:induction false} UnionLoopWithin(a: Automaton, m: Memo, order: seq<Id>, i: nat, acc: set<Id>, cl: seq<set<Id>>, C: set<Id>)
    requires Table(cl) && WithinTable(a, m, cl) && acc <= C && ClosedUnder(cl, C)
    requires i <= |order| && forall j :: 0 <= j < |order| ==> order[j] < |m.eps| && order[j] in C
    ensures WithinTable(a, UnionLoop(a, m, order, i, acc).1, cl) && UnionLoop(a, m, order, i, acc).0 <= C
    decreases Unevaluated(m), 1, |order| - i
  {
    if i < |order| {
      var (e, m1) := GetEpsNeighbors(a, m, order[i]);
      assert WithinTable(a, m1, cl) && acc + e <= C by {
        GetEpsWithin(a, m, order[i], cl);
        InClosed(cl, C, order[i], e);
      }
      assert Unevaluated(m1) <= Unevaluated(m) by {
        EpsEnvironment.Measure(|m.eps|, m.evaluated, m1.evaluated);
      }
      UnionLoopWithin(a, m1, order, i + 1, acc + e, cl, C);
    }
  }

  /** get_eps_neighbors as written never leaves the ε-closure of x. */
  lemma GetEpsSound(a: Automaton, m: Memo, x: Id)
    requires WellFormed(a) && MemoSound(a, m) && x < |m.eps|
    ensures MemoSound(a, GetEpsNeighbors(a, m, x).1)
    ensures GetEpsNeighbors(a, m, x).0 <= Closure(a, x)
  {
    ClosuresTable(a);
    GetEpsWithin(a, m, x, Closures(a));
  }

  /** consume as written never leaves the ε-closure of the successors. */
  lemma ConsumeAsWrittenSound(a: Automaton, m: Memo, S: set<Id>, c: char)
    requires WellFormed(a) && MemoSound(a, m)
    ensures MemoSound(a, ConsumeAsWritten(a, m, S, c).1)
    ensures ConsumeAsWritten(a, m, S, c).0 <= Consume(a, S, c)
  {
    var R := Step(a, S, c);
    StepBelow(a, S, c);
    ClosuresTable(a);
    CloseClosedUnder(a, R);
    UnionizeWithin(a, m, R, Closures(a), Close(a, R));
  }

  /** The ε-closure of a set of states holds the closure of each member. */
  lemma CloseClosedUnder(a: Automaton, R: set<Id>)
    requires WellFormed(a) && forall z: Id :: z in R ==> z < |a.states|
    ensures ClosedUnder(Closures(a), Close(a, R))
  {
    var cl := Closures(a);
    EpsTransWF(a);
    forall y: Id | y in Close(a, R) && y < |cl| ensures cl[y] <= Close(a, R) {
      var z: Id :| z in R && y in Closure(a, z);
      EpsEnvironment.ClosureIncludesSuccessors(EpsTrans(a), |a.states|, z, y);
      CloseIncludes(a, R, z);
    }
  }

  lemma CloseIncludes(a: Automaton, R: set<Id>, z: Id)
    requires z in R
    ensures Closure(a, z) <= Close(a, R)
  {
  }

  /** reset as written never leaves the start state's ε-closure. */
  lemma ResetAsWrittenSound(a: Automaton, m: Memo)
    requires WellFormed(a) && MemoSound(a, m)
    ensures MemoSound(a, ResetAsWritten(a, m).1)
    ensures ResetAsWritten(a, m).0[0] <= Closure(a, a.start)
  {
    GetEpsSound(a, m, a.start);
  }

  // ---------------------------------------------------------------------
  // The object after operator=

  /** The vector with each state's ε-set replaced by the one the walk left;
      rows and marks are kept. */
  function Install(st: seq<State>, eps: seq<set<Id>>): (r: seq<State>)
    requires |eps| == |st|
    ensures |r| == |st| && forall x :: 0 <= x < |st| ==> r[x] == st[x].(eps := eps[x])
  {
    seq(|st|, x requires 0 <= x < |st| => st[x].(eps := eps[x]))
  }

  /** Every state of a closure is a state of the vector. */
  lemma ClosureBelow(a: Automaton, x: Id)
    requires Valid(a.states) && x < |a.states|
    ensures forall y: Id :: y in Closure(a, x) ==> y < |a.states|
  {
    EpsTransWF(a);
    EpsEnvironment.IterWithin(EpsTrans(a), |a.states|, {x}, |a.states|);
  }

  /** Installing sets that stay inside each state's closure keeps the vector
      valid. */
  lemma InstallValid(a: Automaton, m: Memo)
    requires WellFormed(a) && MemoSound(a, m)
    ensures Valid(Install(a.states, m.eps))
  {
    var st := Install(a.states, m.eps);
    forall x: Id | x < |st| ensures StateOk(st[x], |st|) {
      assert StateOk(a.states[x], |a.states|);
      ClosureBelow(a, x);
      forall c: char, y: Id | y in Targets(st[x], c) ensures y < |st| {
        if c != EPS {
          assert y in Targets(a.states[x], c);
        }
      }
    }
  }

  /** operator=(Regex) as a whole: parseRegex builds the states, then
      reset() walks get_eps_neighbors from the start, which overwrites the
      ε-set of every state it reaches (adding the state itself) and sets
      the evaluated and acceptable flags. Returns the object the queries
      see, and the flags the walk left. */
  function Assign(r: Regexes.Regex): (res: (Automaton, Memo))
    ensures var a := FromRegex(r);
      && res.0.start == a.start == 0 && res.0.end == a.end
      && |res.1.eps| == |a.states| && res.0.states == Install(a.states, res.1.eps)
    ensures WellFormed(res.0) && MemoSound(FromRegex(r), res.1)
    ensures 0 in res.0.states[0].eps && 0 in res.1.evaluated
  {
    var a := FromRegex(r);
    FreshMemoSound(a);
    ResetAsWrittenSound(a, FreshMemo(a));
    var m := ResetAsWritten(a, FreshMemo(a)).1;
    InstallValid(a, m);
    (Automaton(Install(a.states, m.eps), a.start, a.end), m)
  }

  /** After operator= the start state always reports EPS among its
      transition symbols and lists itself among its ε-transitions, whatever
      the pattern: reset() has added it to its own set. */
  lemma AssignedStartReportsEps(r: Regexes.Regex)
    ensures var st := Assign(r).0.states;
      && EPS in TransitionSymbols(st, 0)
      && GetTransitions(st, 0, EPS).Ok? && 0 in GetTransitions(st, 0, EPS).value
  {
  }

  /** For the pattern "a" the vector as built reports only 'a' at the start
      state; the object after operator= reports EPS as well, with the start
      state as its only ε-target. */
  lemma AssignedSymbolA()
    ensures TransitionSymbols(FromRegex(AtomA()).states, 0) == {'a'}
    ensures var st := Assign(AtomA()).0.states;
      TransitionSymbols(st, 0) == {EPS, 'a'} && GetTransitions(st, 0, EPS) == Ok({0})
  {
    BuildsSymbolA();
    var a := SymbolA();
    var m := FreshMemo(a);
    assert m.eps[0] == {} && |m.eps| == 2;
    assert EpsEnvironment.Ascending({}, 1, 2) == [];
    assert EpsEnvironment.Ascending({}, 0, 2) == [];
    var m0 := m.(evaluated := {0});
    assert Unionize(a, m0, {}) == ({}, m0);
    assert EvaluateEps(a, m0, 0).0 == {0};
    assert GetEpsNeighbors(a, m, 0).0 == {0};
    assert 'a' in a.states[0].next;
    assert a.states[0].next.Keys == {'a'};
  }

  // ---------------------------------------------------------------------
  // Once evaluated, a state's set and flag are final

  lemma {:induction false} GetEpsFrozen(a: Automaton, m: Memo, x: Id, y: Id)
    requires x < |m.eps| && y < |m.eps| && y in m.evaluated && y in m.eps[y]
    ensures GetEpsNeighbors(a, m, x).1.eps[y] == m.eps[y]
    ensures y in GetEpsNeighbors(a, m, x).1.acceptable <==> y in m.acceptable
    decreases Unevaluated(m), 0, 0
  {
    if x !in m.evaluated {
      var n := |m.eps|;
      FirstSets.CardDrop(EpsEnvironment.Below(n) - m.evaluated, x);
      assert EpsEnvironment.Below(n) - (m.evaluated + {x}) == (EpsEnvironment.Below(n) - m.evaluated) - {x};
      EvaluateFrozen(a, m.(evaluated := m.evaluated + {x}), x, y);
    }
  }

  lemma {:induction false} EvaluateFrozen(a: Automaton, m: Memo, x: Id, y: Id)
    requires x < |m.eps| && x in m.evaluated && y < |m.eps| && y in m.evaluated && y in m.eps[y] && y != x
    ensures EvaluateEps(a, m, x).1.eps[y] == m.eps[y]
    ensures y in EvaluateEps(a, m, x).1.acceptable <==> y in m.acceptable
    decreases Unevaluated(m), 3, 0
  {
    UnionizeFrozen(a, m, m.eps[x], y);
  }

  lemma {:induction false} UnionizeFrozen(a: Automaton, m: Memo, S: set<Id>, y: Id)
    requires y < |m.eps| && y in m.evaluated && y in m.eps[y]
    ensures Unionize(a, m, S).1.eps[y] == m.eps[y]
    ensures y in Unionize(a, m, S).1.acceptable <==> y in m.acceptable
    decreases Unevaluated(m), 2, 0
  {
    EpsEnvironment.AscendingSorted(S, 0, |m.eps|);
    UnionLoopFrozen(a, m, EpsEnvironment.Ascending(S, 0, |m.eps|), 0, S, y);
  }

  lemma {:induction false} UnionLoopFrozen(a: Automaton, m: Memo, order: seq<Id>, i: nat, acc: set<Id>, y: Id)
    requires i <= |order| && forall j :: 0 <= j < |order| ==> order[j] < |m.eps|
    requires y < |m.eps| && y in m.evaluated && y in m.eps[y]
    ensures UnionLoop(a, m, order, i, acc).1.eps[y] == m.eps[y]
    ensures y in UnionLoop(a, m, order, i, acc).1.acceptable <==> y in m.acceptable
    decreases Unevaluated(m), 1, |order| - i
  {
    if i < |order| {
      var (e, m1) := GetEpsNeighbors(a, m, order[i]);
      assert m1.eps[y] == m.eps[y] && (y in m1.acceptable <==> y in m.acceptable) by {
        GetEpsFrozen(a, m, order[i], y);
      }
      assert Unevaluated(m1) <= Unevaluated(m) by {
        EpsEnvironment.Measure(|m.eps|, m.evaluated, m1.evaluated);
      }
      UnionLoopFrozen(a, m1, order, i + 1, acc + e, y);
    }
  }

  // ---------------------------------------------------------------------
  // The walk misses reachable states on an ε-cycle

  /** ε-edges 0 → 1, 0 → 2, 1 → 0 and 2 → 3; the start is 0, the end 3. */
  function CycleAutomaton(): (a: Automaton)
    ensures |a.states| == 4
  {
    Automaton([State(map[], {1, 2}, false), State(map[], {0}, false), State(map[], {3}, false), BLANK], 0, 3)
  }

  lemma CycleWellFormed()
    ensures WellFormed(CycleAutomaton())
  {
    var a := CycleAutomaton();
    forall x: Id | x < 4 ensures StateOk(a.states[x], 4) {
      assert a.states[x].next == map[];
    }
  }

  lemma AscendingZero()
    ensures EpsEnvironment.Ascending({0}, 0, 4) == [0]
  {
    assert EpsEnvironment.Ascending({0}, 3, 4) == [];
    assert EpsEnvironment.Ascending({0}, 2, 4) == [];
    assert EpsEnvironment.Ascending({0}, 1, 4) == [];
  }

  /** 1 is walked while 0 is open: 0 answers its raw set and itself, so 1
      ends with {0, 1, 2}, unflagged. */
  lemma CycleWalkOne(m: Memo)
    requires m.eps == FreshMemo(CycleAutomaton()).eps && m.evaluated == {0} && m.acceptable == {}
    ensures var r := GetEpsNeighbors(CycleAutomaton(), m, 1);
      r.1.eps[1] == {0, 1, 2} && 1 in r.1.evaluated && 1 !in r.1.acceptable
  {
    var a := CycleAutomaton();
    assert m.eps[0] == {1, 2} && m.eps[1] == {0};
    var mm := m.(evaluated := {0, 1});
    assert m.evaluated + {1} == {0, 1};
    assert GetEpsNeighbors(a, m, 1) == EvaluateEps(a, mm, 1);
    AscendingZero();
    var mm2 := mm.(eps := mm.eps[0 := {1, 2} + {0}]);
    assert GetEpsNeighbors(a, mm, 0) == ({1, 2} + {0}, mm2);
    assert {0} + ({1, 2} + {0}) == {0, 1, 2};
    assert UnionLoop(a, mm2, [0], 1, {0} + ({1, 2} + {0})) == ({0, 1, 2}, mm2);
    assert Unionize(a, mm, {0}) == ({0, 1, 2}, mm2);
  }

  /** After reset, 1's set is {0, 1, 2} and 1 is not flagged. */
  lemma CycleReset()
    ensures var r := ResetAsWritten(CycleAutomaton(), FreshMemo(CycleAutomaton()));
      r.1.eps[1] == {0, 1, 2} && 1 in r.1.evaluated && 1 !in r.1.acceptable
  {
    var a := CycleAutomaton();
    var m0 := FreshMemo(a);
    var m1 := m0.(evaluated := {0});
    assert m0.evaluated + {0} == {0};
    assert GetEpsNeighbors(a, m0, 0) == EvaluateEps(a, m1, 0);
    assert m1.eps[0] == {1, 2};
    EpsEnvironment.AscendingOneTwo();
    CycleWalkOne(m1);
    var (e1, mA) := GetEpsNeighbors(a, m1, 1);
    assert UnionLoop(a, m1, [1, 2], 0, {1, 2}) == UnionLoop(a, mA, [1, 2], 1, {1, 2} + e1);
    UnionLoopFrozen(a, mA, [1, 2], 1, {1, 2} + e1, 1);
  }

  /** As written, state 1 of the cycle keeps {0, 1, 2} and is never
      flagged acceptable, though its ε-closure holds all four states and
      so the end state. */
  lemma WalkMissesReachableAsWritten()
    ensures var r := ResetAsWritten(CycleAutomaton(), FreshMemo(CycleAutomaton()));
      3 !in r.1.eps[1] && 1 in r.1.evaluated && 1 !in r.1.acceptable
    ensures Closure(CycleAutomaton(), 1) == {0, 1, 2, 3} && Acceptable(CycleAutomaton(), 1)
  {
    CycleReset();
    var a := CycleAutomaton();
    CycleWellFormed();
    EpsTransWF(a);
    var t := EpsTrans(a);
    assert t[0][LrUtils.EPS] == {1, 2} && t[1][LrUtils.EPS] == {0} && t[2][LrUtils.EPS] == {3};
    EpsEnvironment.ClosureOfShape(t);
  }
}

