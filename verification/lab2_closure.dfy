/** The transition relation of the LR(1) ε-NFA and its ε-environments.

    Two versions of the ε-environment are modelled. The first is the
    depth-first walk of the source: it marks a state evaluated on entry, and
    a state met again while still on the walk hands back its environment
    as it stands, unfinished. The second is the ε-closure as reachability,
    which the automaton construction uses. */
module EpsEnvironment {
  import opened LrUtils
  import FirstSets

  /** A state number of the ε-NFA. */
  type State = nat

  /** transitions[state][symbol]: the successor states. */
  type Trans = map<State, map<Symbol, set<State>>>

  /** The state numbers 0 .. n-1. */
  function Below(n: nat): (b: set<State>)
    ensures forall x: State :: x in b <==> x < n
  {
    if n == 0 then {} else Below(n - 1) + {n - 1}
  }

  lemma {:induction false} BelowCard(n: nat)
    ensures |Below(n)| == n
  {
    if n > 0 {
      BelowCard(n - 1);
    }
  }

  /** exists_trans: the state has a row and the row has the symbol. */
  predicate ExistsTrans(t: Trans, s: State, sym: Symbol) {
    s in t && sym in t[s]
  }

  /** The row of a state, empty when the state has none. */
  function Row(t: Trans, s: State): (r: map<Symbol, set<State>>)
    ensures s in t ==> r == t[s]
    ensures s !in t ==> r == map[]
  {
    if s in t then t[s] else map[]
  }

  /** Every target of every transition is one of the n states. */
  ghost predicate WF(t: Trans, n: nat) {
    forall s, sym, x :: s in t && sym in t[s] && x in t[s][sym] ==> x < n
  }

  /** get_next: the successors on sym of every state of current that has a
      transition on sym; a state without one contributes nothing. */
  function GetNext(t: Trans, current: set<State>, sym: Symbol): set<State> {
    set s, x | s in current && ExistsTrans(t, s, sym) && x in t[s][sym] :: x
  }

  /** A state without a transition on sym adds nothing to get_next. */
  lemma GetNextSkips(t: Trans, current: set<State>, sym: Symbol, s: State)
    requires !ExistsTrans(t, s, sym)
    ensures GetNext(t, current + {s}, sym) == GetNext(t, current, sym)
  {
  }

  /** get_next of a union is the union of get_next. */
  lemma GetNextUnion(t: Trans, a: set<State>, b: set<State>, sym: Symbol)
    ensures GetNext(t, a + b, sym) == GetNext(t, a, sym) + GetNext(t, b, sym)
  {
  }

  /** get_next of one state with a transition is that transition's set, and
      of the empty set is empty. */
  lemma GetNextSingle(t: Trans, s: State, sym: Symbol)
    ensures ExistsTrans(t, s, sym) ==> GetNext(t, {s}, sym) == t[s][sym]
    ensures !ExistsTrans(t, s, sym) ==> GetNext(t, {s}, sym) == {}
    ensures GetNext(t, {}, sym) == {}
  {
  }

  /** Every successor of every state of current is in get_next. */
  lemma GetNextContains(t: Trans, current: set<State>, sym: Symbol, s: State)
    requires s in current && ExistsTrans(t, s, sym)
    ensures t[s][sym] <= GetNext(t, current, sym)
  {
  }

  lemma GetNextMono(t: Trans, a: set<State>, b: set<State>, sym: Symbol)
    requires a <= b
    ensures GetNext(t, a, sym) <= GetNext(t, b, sym)
  {
  }

  /** Under WF, get_next stays among the n states. */
  lemma GetNextWithin(t: Trans, n: nat, a: set<State>, sym: Symbol)
    requires WF(t, n)
    ensures GetNext(t, a, sym) <= Below(n)
  {
  }

  /** eps_of: the ε-successors of a set of states. */
  function EpsOf(t: Trans, current: set<State>): set<State> {
    GetNext(t, current, EPS)
  }

  // ---------------------------------------------------------------------
  // computeEpsilonEnvironment as the source writes it

  /** The states of S from i up to n, in increasing order: the order in
      which a std::set of states is walked. */
  function Ascending(S: set<State>, i: nat, n: nat): (r: seq<State>)
    requires i <= n
    decreases n - i
  {
    if i == n then [] else (if i in S then [i] else []) + Ascending(S, i + 1, n)
  }

  /** The walk lists only states of S in [i, n), in increasing order. */
  lemma {:induction false} AscendingSorted(S: set<State>, i: nat, n: nat)
    requires i <= n
    ensures forall j :: 0 <= j < |Ascending(S, i, n)| ==> Ascending(S, i, n)[j] in S && i <= Ascending(S, i, n)[j] < n
    ensures forall j, k :: 0 <= j < k < |Ascending(S, i, n)| ==> Ascending(S, i, n)[j] < Ascending(S, i, n)[k]
    decreases n - i
  {
    if i < n {
      AscendingSorted(S, i + 1, n);
      var tl := Ascending(S, i + 1, n);
      if i in S {
        assert Ascending(S, i, n) == [i] + tl;
      }
    }
  }

  /** The walk lists every state of S in [i, n). */
  lemma {:induction false} AscendingComplete(S: set<State>, i: nat, n: nat)
    requires i <= n
    ensures forall x :: x in S && i <= x < n ==> x in Ascending(S, i, n)
    decreases n - i
  {
    if i < n {
      AscendingComplete(S, i + 1, n);
    }
  }

  /** Replaces the ε-set of state s. */
  function SetEps(t: Trans, s: State, e: set<State>): (r: Trans)
    ensures ExistsTrans(r, s, EPS) && r[s][EPS] == e
    ensures forall x :: x != s ==> (x in r <==> x in t) && (x in t ==> r[x] == t[x])
    ensures forall sym :: sym != EPS ==> (ExistsTrans(r, s, sym) <==> ExistsTrans(t, s, sym))
    ensures forall sym :: sym != EPS && ExistsTrans(t, s, sym) ==> ExistsTrans(r, s, sym) && r[s][sym] == t[s][sym]
  {
    t[s := Row(t, s)[EPS := e]]
  }

  /** Every evaluated state has an ε-set. */
  predicate Evaluated(t: Trans, ev: set<State>) {
    forall x :: x in ev ==> ExistsTrans(t, x, EPS)
  }

  /** Every evaluated state that is no longer on the walk (not in P) has
      itself in its ε-set. */
  predicate Done(t: Trans, ev: set<State>, P: set<State>) {
    forall x :: x in ev && x !in P ==> ExistsTrans(t, x, EPS) && x in t[x][EPS]
  }

  /** The rows of the states in ev are untouched. */
  predicate Kept(t: Trans, t': Trans, ev: set<State>) {
    forall x :: x in ev ==> x in t && x in t' && t'[x] == t[x]
  }

  /** Replacing the ε-set of s by a set of states below n keeps WF, adds s
      to the evaluated states, and keeps Done for every state but s. */
  lemma SetEpsFacts(t: Trans, n: nat, s: State, e: set<State>, ev: set<State>, Q: set<State>)
    requires WF(t, n) && s < n && (forall x :: x in e ==> x < n) && Evaluated(t, ev)
    ensures WF(SetEps(t, s, e), n) && Evaluated(SetEps(t, s, e), ev + {s})
    ensures Done(t, ev, Q + {s}) && s in Q ==> Done(SetEps(t, s, e), ev, Q)
    ensures Done(t, ev, Q + {s}) && s in e ==> Done(SetEps(t, s, e), ev + {s}, Q)
  {
  }

  lemma Measure(n: nat, ev: set<State>, ev': set<State>)
    requires ev <= ev'
    ensures |Below(n) - ev'| <= |Below(n) - ev|
  {
    FirstSets.CardMono(Below(n) - ev', Below(n) - ev);
  }

  /** computeEpsilonEnvironment(s): returns the environment, the updated
      transitions and the updated evaluated set. A state without ε-set gets
      {s}; an evaluated state returns its ε-set as it stands; otherwise the
      state is marked, the environments of its ε-successors are joined in
      increasing order, and s is added last. P is the set of states whose
      walk is still open. */
  function ComputeEnv(t: Trans, n: nat, s: State, ev: set<State>, ghost P: set<State>): (r: (set<State>, Trans, set<State>))
    requires WF(t, n) && s < n && Evaluated(t, ev) && P <= ev && Done(t, ev, P)
    ensures WF(r.1, n) && Evaluated(r.1, r.2) && ev + {s} <= r.2 && Done(r.1, r.2, P)
    ensures Kept(t, r.1, ev)
    ensures ExistsTrans(r.1, s, EPS) && r.0 == r.1[s][EPS]
    ensures !ExistsTrans(t, s, EPS) ==> r.0 == {s}
    ensures s in ev ==> r == (t[s][EPS], t, ev)
    decreases |Below(n) - ev|, 0, 0
  {
    if !ExistsTrans(t, s, EPS) then
      ({s}, SetEps(t, s, {s}), ev + {s})
    else if s in ev then
      (t[s][EPS], t, ev)
    else
      FirstSets.CardDrop(Below(n) - ev, s);
      assert Below(n) - (ev + {s}) == (Below(n) - ev) - {s};
      Walk(t, n, s, ev + {s}, P)
  }

  /** The walk from a state just marked evaluated: the loop over its
      ε-successors as they stood on entry, then s joins its own set. */
  function Walk(t: Trans, n: nat, s: State, ev: set<State>, ghost P: set<State>): (r: (set<State>, Trans, set<State>))
    requires WF(t, n) && s < n && s in ev && s !in P && Evaluated(t, ev) && P <= ev && Done(t, ev, P + {s})
    ensures WF(r.1, n) && Evaluated(r.1, r.2) && ev <= r.2 && Done(r.1, r.2, P)
    ensures forall x :: x in ev && x != s ==> x in t && x in r.1 && r.1[x] == t[x]
    ensures ExistsTrans(r.1, s, EPS) && r.0 == r.1[s][EPS]
    decreases |Below(n) - ev|, 2, 0
  {
    var order := Ascending(t[s][EPS], 0, n);
    AscendingSorted(t[s][EPS], 0, n);
    var (t2, ev2) := EnvLoop(t, n, s, order, 0, ev, P);
    var env := t2[s][EPS] + {s};
    SetEpsFacts(t2, n, s, env, ev2, P);
    assert ev2 + {s} == ev2;
    (env, SetEps(t2, s, env), ev2)
  }

  /** The loop over the ε-successors order[i..] of s: each one's environment
      is joined into the ε-set of s. */
  function EnvLoop(t: Trans, n: nat, s: State, order: seq<State>, i: nat, ev: set<State>, ghost P: set<State>): (r: (Trans, set<State>))
    requires WF(t, n) && s < n && s in ev && s !in P && Evaluated(t, ev) && P <= ev && Done(t, ev, P + {s})
    requires i <= |order| && forall j :: 0 <= j < |order| ==> order[j] < n
    ensures WF(r.0, n) && Evaluated(r.0, r.1) && ev <= r.1 && Done(r.0, r.1, P + {s})
    ensures forall x :: x in ev && x != s ==> x in t && x in r.0 && r.0[x] == t[x]
    ensures t[s][EPS] <= r.0[s][EPS]
    decreases |Below(n) - ev|, 1, |order| - i
  {
    if i == |order| then (t, ev)
    else
      var (e, t1, ev1) := ComputeEnv(t, n, order[i], ev, P + {s});
      var t2 := SetEps(t1, s, t1[s][EPS] + e);
      SetEpsFacts(t1, n, s, t1[s][EPS] + e, ev1, P + {s});
      assert ev1 + {s} == ev1 && P + {s} + {s} == P + {s};
      Measure(n, ev, ev1);
      EnvLoop(t2, n, s, order, i + 1, ev1, P)
  }

  /** The constructor's loop over states i .. n-1. */
  function AllEnvs(t: Trans, n: nat, i: nat, ev: set<State>): (r: Trans)
    requires WF(t, n) && i <= n && Evaluated(t, ev) && Done(t, ev, {})
    requires forall x: State :: x < i ==> x in ev
    ensures WF(r, n) && Kept(t, r, ev)
    ensures forall s: State :: s < n ==> ExistsTrans(r, s, EPS) && s in r[s][EPS]
    decreases n - i
  {
    if i == n then t
    else
      var (_, t1, ev1) := ComputeEnv(t, n, i, ev, {});
      AllEnvs(t1, n, i + 1, ev1)
  }

  /** All ε-environments as the source computes them: afterwards every state
      has an ε-set and lies in it. */
  function ComputeEnvironments(t: Trans, n: nat): (r: Trans)
    requires WF(t, n)
    ensures WF(r, n)
    ensures forall s: State :: s < n ==> ExistsTrans(r, s, EPS) && s in r[s][EPS]
  {
    AllEnvs(t, n, 0, {})
  }

  // ---------------------------------------------------------------------
  // The ε-closure as reachability

  /** Adds the ε-successors of S to S, k times over. */
  function Iter(t: Trans, S: set<State>, k: nat): (r: set<State>)
    decreases k
  {
    if k == 0 then S else Iter(t, S + EpsOf(t, S), k - 1)
  }

  lemma {:induction false} IterGrows(t: Trans, S: set<State>, k: nat)
    ensures S <= Iter(t, S, k)
    decreases k
  {
    if k > 0 {
      IterGrows(t, S + EpsOf(t, S), k - 1);
    }
  }

  lemma {:induction false} IterWithin(t: Trans, n: nat, S: set<State>, k: nat)
    requires WF(t, n) && S <= Below(n)
    ensures Iter(t, S, k) <= Below(n)
    decreases k
  {
    if k > 0 {
      GetNextWithin(t, n, S, EPS);
      IterWithin(t, n, S + EpsOf(t, S), k - 1);
    }
  }

  lemma {:induction false} IterStable(t: Trans, S: set<State>, k: nat)
    requires EpsOf(t, S) <= S
    ensures Iter(t, S, k) == S
    decreases k
  {
    if k > 0 {
      assert S + EpsOf(t, S) == S;
      IterStable(t, S, k - 1);
    }
  }

  lemma {:induction false} IterMono(t: Trans, S: set<State>, T: set<State>, k: nat)
    requires S <= T
    ensures Iter(t, S, k) <= Iter(t, T, k)
    decreases k
  {
    if k > 0 {
      GetNextMono(t, S, T, EPS);
      IterMono(t, S + EpsOf(t, S), T + EpsOf(t, T), k - 1);
    }
  }

  /** A set of states below n with a new ε-successor below n has fewer
      than n states. */
  lemma RoomLeft(n: nat, S: set<State>, x: State)
    requires S <= Below(n) && x < n && x !in S
    ensures |S| < n
  {
    BelowCard(n);
    FirstSets.CardMono(S, Below(n) - {x});
    FirstSets.CardDrop(Below(n), x);
  }

  /** Adding a new state grows the set. */
  lemma Grows(S: set<State>, E: set<State>, x: State)
    requires x in E && x !in S
    ensures |S + E| > |S|
  {
    FirstSets.CardMono(S, (S + E) - {x});
    FirstSets.CardDrop(S + E, x);
  }

  /** Once the rounds left and the states already found reach n, the result
      has all its ε-successors. */
  lemma {:induction false} IterSaturates(t: Trans, n: nat, S: set<State>, k: nat)
    requires WF(t, n) && S <= Below(n) && |S| + k >= n
    ensures EpsOf(t, Iter(t, S, k)) <= Iter(t, S, k)
    decreases k
  {
    var E := EpsOf(t, S);
    GetNextWithin(t, n, S, EPS);
    if E <= S {
      IterStable(t, S, k);
    } else {
      var x :| x in E && x !in S;
      if k == 0 {
        RoomLeft(n, S, x);
        assert false;
      } else {
        Grows(S, E, x);
        IterSaturates(t, n, S + E, k - 1);
        assert Iter(t, S, k) == Iter(t, S + E, k - 1);
      }
    }
  }

  /** The ε-closure of s: every state reachable from s over ε-transitions. */
  function Closure(t: Trans, n: nat, s: State): (c: set<State>)
    ensures s in c
  {
    IterGrows(t, {s}, n);
    Iter(t, {s}, n)
  }

  /** The closure is closed: the ε-successors of its states are in it. */
  lemma ClosureClosed(t: Trans, n: nat, s: State, x: State)
    requires WF(t, n) && s < n
    requires x in Closure(t, n, s) && ExistsTrans(t, x, EPS)
    ensures t[x][EPS] <= Closure(t, n, s)
  {
    IterSaturates(t, n, {s}, n);
    GetNextContains(t, Closure(t, n, s), EPS, x);
  }

  /** The closure is the least closed set containing s. */
  lemma ClosureLeast(t: Trans, n: nat, s: State, C: set<State>)
    requires s in C && EpsOf(t, C) <= C
    ensures Closure(t, n, s) <= C
  {
    IterMono(t, {s}, C, n);
    IterStable(t, C, n);
  }

  /** The environment of a state includes the environment of every state in
      it, in particular of each ε-successor. */
  lemma ClosureIncludesSuccessors(t: Trans, n: nat, s: State, x: State)
    requires WF(t, n) && s < n && x in Closure(t, n, s)
    ensures Closure(t, n, x) <= Closure(t, n, s)
  {
    IterSaturates(t, n, {s}, n);
    ClosureLeast(t, n, x, Closure(t, n, s));
  }

  /** The transitions with every ε-set of states 0 .. n-1 replaced by the
      state's ε-closure; other symbols are unchanged. */
  function WithClosures(t: Trans, n: nat): (r: Trans)
    ensures forall s: State :: s < n ==> ExistsTrans(r, s, EPS) && r[s][EPS] == Closure(t, n, s)
    ensures forall s, sym :: sym != EPS ==> (ExistsTrans(r, s, sym) <==> ExistsTrans(t, s, sym))
    ensures forall s, sym :: sym != EPS && ExistsTrans(t, s, sym) ==> ExistsTrans(r, s, sym) && r[s][sym] == t[s][sym]
  {
    map s | s in t.Keys + Below(n) :: if s < n then Row(t, s)[EPS := Closure(t, n, s)] else t[s]
  }

  lemma WithClosuresWF(t: Trans, n: nat)
    requires WF(t, n)
    ensures WF(WithClosures(t, n), n)
  {
    var r := WithClosures(t, n);
    forall s, sym, x | s in r && sym in r[s] && x in r[s][sym]
      ensures x < n
    {
      if sym == EPS && s < n {
        IterWithin(t, n, {s}, n);
      }
    }
  }

  // ---------------------------------------------------------------------
  // The two disagree on ε-cycles

  /** ε-edges 0 → 1, 0 → 2, 1 → 0 and 2 → 3. */
  function CycleExample(): (t: Trans)
    ensures WF(t, 4)
  {
    map[0 := map[EPS := {1, 2}], 1 := map[EPS := {0}], 2 := map[EPS := {3}]]
  }

  /** The shape the counterexample needs: 0's ε-successors are 1 and 2,
      and 1's only ε-successor is 0. */
  ghost predicate CycleShape(t: Trans) {
    WF(t, 4) && ExistsTrans(t, 0, EPS) && t[0][EPS] == {1, 2} && ExistsTrans(t, 1, EPS) && t[1][EPS] == {0}
  }

  /** 1 is walked from 0 while 0 is open: 1 gets its own set, 0's raw set
      and itself. */
  lemma CycleWalkOne(t: Trans)
    requires CycleShape(t)
    ensures var r := ComputeEnv(t, 4, 1, {0}, {0});
      r.0 == {0, 1, 2} && r.1[1][EPS] == {0, 1, 2} && r.2 == {0, 1} && r.1[0] == t[0]
  {
    assert Evaluated(t, {0, 1}) && Done(t, {0, 1}, {0, 1});
    assert ComputeEnv(t, 4, 0, {0, 1}, {0, 1}) == ({1, 2}, t, {0, 1});
    SetEpsFacts(t, 4, 1, {0} + {1, 2}, {0, 1}, {0, 1});
    var tb := SetEps(t, 1, {0} + {1, 2});
    assert {0} + {0, 1} == {0, 1} && {0, 1} + {1} == {0, 1};
    var l := EnvLoop(tb, 4, 1, [0], 1, {0, 1}, {0});
    assert l == (tb, {0, 1});
    assert EnvLoop(t, 4, 1, [0], 0, {0, 1}, {0}) == l;
    assert Ascending({0}, 0, 4) == [0];
    assert {0} + {1} == {0, 1};
    var w := Walk(t, 4, 1, {0, 1}, {0});
    assert w.0 == {0, 1, 2};
  }

  /** 0's loop: 1 first, then 2, which leaves 1's set alone. */
  lemma CycleLoopZero(t: Trans)
    requires CycleShape(t)
    ensures var l := EnvLoop(t, 4, 0, [1, 2], 0, {0}, {});
      1 in l.1 && ExistsTrans(l.0, 1, EPS) && l.0[1][EPS] == {0, 1, 2}
  {
    CycleWalkOne(t);
    var r1 := ComputeEnv(t, 4, 1, {0}, {0});
    var e := r1.1[0][EPS] + r1.0;
    assert {0} + {0} == {0} && {0, 1} + {0} == {0, 1} && {} + {0} == {0};
    SetEpsFacts(r1.1, 4, 0, e, {0, 1}, {0});
    var rest := EnvLoop(SetEps(r1.1, 0, e), 4, 0, [1, 2], 1, {0, 1}, {});
    assert rest.0[1][EPS] == {0, 1, 2};
  }

  lemma AscendingOneTwo()
    ensures Ascending({1, 2}, 0, 4) == [1, 2]
  {
    assert Ascending({1, 2}, 3, 4) == [];
    assert Ascending({1, 2}, 2, 4) == [2];
  }

  /** The walk of 0 keeps 1's set. */
  lemma CycleWalkZero(t: Trans)
    requires CycleShape(t)
    ensures var w := ComputeEnv(t, 4, 0, {}, {});
      1 in w.2 && ExistsTrans(w.1, 1, EPS) && w.1[1][EPS] == {0, 1, 2}
  {
    CycleLoopZero(t);
    AscendingOneTwo();
    assert {} + {0} == {0};
    var w := Walk(t, 4, 0, {0}, {});
    assert w.1[1][EPS] == {0, 1, 2};
  }

  /** The loop over the remaining states keeps every evaluated row. */
  lemma AllEnvsKeeps(t: Trans, n: nat, i: nat, ev: set<State>, x: State)
    requires WF(t, n) && i <= n && Evaluated(t, ev) && Done(t, ev, {})
    requires forall y: State :: y < i ==> y in ev
    requires x in ev
    ensures AllEnvs(t, n, i, ev)[x] == t[x]
  {
  }

  /** The rest of the run keeps the ε-set 1 got from its walk. */
  lemma CycleKeepsOne(t: Trans)
    requires CycleShape(t)
    ensures ComputeEnvironments(t, 4)[1][EPS] == {0, 1, 2}
  {
    CycleWalkZero(t);
    var w := ComputeEnv(t, 4, 0, {}, {});
    AllEnvsKeeps(w.1, 4, 1, w.2, 1);
  }

  /** As written, 1's environment is {0, 1, 2}: 0 was still open when 1
      met it, so 3, which 1 reaches over 0 and 2, is missing. The ε-closure
      of 1 holds all four states. */
  lemma EnvMissesReachableAsWritten()
    ensures ComputeEnvironments(CycleExample(), 4)[1][EPS] == {0, 1, 2}
    ensures Closure(CycleExample(), 4, 1) == {0, 1, 2, 3}
  {
    var t := CycleExample();
    assert t[0][EPS] == {1, 2} && t[1][EPS] == {0};
    CycleKeepsOne(t);
    ClosureOfCycle();
  }

  /** On the shape, with 2 → 3 as well, the closure of 1 holds all four
      states. */
  lemma ClosureOfShape(t: Trans)
    requires CycleShape(t) && ExistsTrans(t, 2, EPS) && t[2][EPS] == {3}
    ensures Closure(t, 4, 1) == {0, 1, 2, 3}
  {
    var c := Closure(t, 4, 1);
    ClosureClosed(t, 4, 1, 1);
    ClosureClosed(t, 4, 1, 0);
    ClosureClosed(t, 4, 1, 2);
    IterWithin(t, 4, {1}, 4);
  }

  lemma ClosureOfCycle()
    ensures Closure(CycleExample(), 4, 1) == {0, 1, 2, 3}
  {
    var t := CycleExample();
    assert t[0][EPS] == {1, 2} && t[1][EPS] == {0} && t[2][EPS] == {3};
    ClosureOfShape(t);
  }
}
