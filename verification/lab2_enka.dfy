/** The ε-NFA of LR(1) items. A state is a number; `states` and `items`
    translate between items and state numbers, `trans` holds the
    transitions, `symbols` every symbol read by a transition, and `q0` the
    state of the start item. The construction is a worklist: each state
    taken from it is expanded along its item, moving the dot one symbol at
    a time (rule b) and adding an ε-transition to the initial item of every
    production of the symbol after the dot (rule c). */
module Enka {
  import opened Wrappers
  import opened LrUtils
  import opened Grammars
  import opened FirstSets
  import opened EpsEnvironment

  datatype Enka = Enka(
    states: map<Item, State>,
    items: map<State, Item>,
    trans: Trans,
    symbols: set<Symbol>,
    q0: State,
    id: nat)

  /** states and items are inverse, and the state numbers in use are
      exactly 0 .. id-1. */
  ghost predicate Registry(a: Enka) {
    (forall it :: it in a.states ==> a.states[it] < a.id && a.states[it] in a.items && a.items[a.states[it]] == it) &&
    (forall s :: s in a.items ==> s < a.id && a.items[s] in a.states && a.states[a.items[s]] == s) &&
    (forall s: State :: s < a.id ==> s in a.items)
  }

  /** The state numbers of a queue are in use. */
  ghost predicate QueueOk(q: seq<State>, n: nat) {
    forall j :: 0 <= j < |q| ==> q[j] < n
  }

  /** Transitions are only ever added. */
  ghost predicate TransGrows(t: Trans, t': Trans) {
    forall s, sym :: ExistsTrans(t, s, sym) ==> ExistsTrans(t', s, sym) && t[s][sym] <= t'[s][sym]
  }

  /** b extends a: the same registry entries and q0, more transitions and
      symbols. */
  ghost predicate Grows(a: Enka, b: Enka) {
    a.id <= b.id && Extends(a.states, b.states) && Extends(a.items, b.items) &&
    TransGrows(a.trans, b.trans) && a.symbols <= b.symbols && a.q0 == b.q0
  }

  /** getState: the state of an item, allocating the next number for an
      item not seen before. */
  function GetState(a: Enka, item: Item): (r: (Enka, State))
    requires Registry(a)
    ensures Registry(r.0) && Grows(a, r.0) && r.0.trans == a.trans && r.0.symbols == a.symbols
    ensures item in r.0.states && r.0.states[item] == r.1 && r.1 < r.0.id && r.0.items[r.1] == item
    ensures item in a.states ==> r == (a, a.states[item])
    ensures item !in a.states ==> r.1 == a.id && r.0.id == a.id + 1
  {
    if item in a.states then (a, a.states[item])
    else
      var b := a.(items := a.items[a.id := item], states := a.states[item := a.id], id := a.id + 1);
      assert Registry(b) by {
        assert a.id !in a.items;
      }
      (b, a.id)
  }

  /** Asking again for the same item gives the same state and changes
      nothing; two different items never share a state. */
  lemma GetStateStable(a: Enka, item: Item, other: Item)
    requires Registry(a)
    ensures var (b, s) := GetState(a, item); GetState(b, item) == (b, s)
    ensures var (b, s) := GetState(a, item);
      other != item && other in b.states ==> b.states[other] != s
  {
  }

  /** Adds x to trans[s][sym]. */
  function AddTrans(t: Trans, s: State, sym: Symbol, x: State): (r: Trans)
    ensures ExistsTrans(r, s, sym) && x in r[s][sym]
    ensures ExistsTrans(t, s, sym) ==> r[s][sym] == t[s][sym] + {x}
    ensures !ExistsTrans(t, s, sym) ==> r[s][sym] == {x}
    ensures TransGrows(t, r)
    ensures forall s', sym' :: (s', sym') != (s, sym) ==>
      (ExistsTrans(r, s', sym') <==> ExistsTrans(t, s', sym')) &&
      (ExistsTrans(t, s', sym') ==> r[s'][sym'] == t[s'][sym'])
  {
    var row := Row(t, s);
    t[s := row[sym := (if sym in row then row[sym] else {}) + {x}]]
  }

  lemma AddTransWF(t: Trans, n: nat, s: State, sym: Symbol, x: State)
    requires WF(t, n) && x < n
    ensures WF(AddTrans(t, s, sym, x), n)
  {
  }

  lemma GrowsTrans(a: Enka, b: Enka, c: Enka)
    requires Grows(a, b) && Grows(b, c)
    ensures Grows(a, c)
  {
  }

  /** The lookahead of the items added by rule c: FIRST of what follows the
      next symbol, plus the item's own lookahead when that can vanish. The
      two arguments of make_union are evaluated in an order C++ leaves
      unspecified; here startsWith is asked first, and isVanishing sees the
      caches it left. */
  function Lookahead(g: Grammar, m: Memo, item: Item): (r: (set<Symbol>, Memo))
    requires item.afterDot != []
    requires SelfTrue(m.begins) && TerminalSets(g, m.first)
    ensures SelfTrue(r.1.begins) && TerminalSets(g, r.1.first)
    ensures r.0 <= g.terminals + item.lookahead
    ensures |item.afterDot| == 1 ==> r == (item.lookahead, m)
    ensures var beta := ShiftDotR(item).afterDot;
      var first := FirstOfWord(g, m, beta);
      var vanishes := IsVanishingWord(g, first.1, beta);
      && first.0 <= r.0
      && (vanishes.0 ==> item.lookahead <= r.0)
      && (forall x :: x in r.0 && x !in first.0 ==> vanishes.0 && x in item.lookahead)
      && r.1 == vanishes.1
  {
    var beta := ShiftDotR(item).afterDot;
    var (f, m1) := FirstOfWord(g, m, beta);
    var (v, m2) := IsVanishingWord(g, m1, beta);
    var r := (f + (if v then item.lookahead else {}), m2);
    assert |item.afterDot| == 1 ==> beta == [] && f == {} && v && m2 == m && r.0 == item.lookahead;
    r
  }

  /** Every state below the queue's length bound is either still queued or
      expanded. */
  ghost predicate Covered(g: Grammar, a: Enka, q: seq<State>, from: nat) {
    forall x: State :: from <= x < a.id ==> x in q || Expanded(g, a, x)
  }

  /** A state is expanded when its item is complete, or the dot move on the
      next symbol and an ε-transition to an initial item of every
      production of that symbol are present. */
  ghost predicate Expanded(g: Grammar, a: Enka, s: State) {
    s in a.items &&
    var it := a.items[s];
    (IsComplete(it) ||
     (ShiftDotR(it) in a.states &&
      ExistsTrans(a.trans, s, SymbolAfterDot(it)) &&
      a.states[ShiftDotR(it)] in a.trans[s][SymbolAfterDot(it)] &&
      InitialItemsLinked(g, a, s, SymbolAfterDot(it))))
  }

  /** Every production of x has an initial item linked from s by ε. */
  ghost predicate InitialItemsLinked(g: Grammar, a: Enka, s: State, x: Symbol) {
    x in g.productions ==>
      forall k :: 0 <= k < |g.productions[x]| ==> InitialLinked(a, s, x, g.productions[x][k])
  }

  ghost predicate InitialLinked(a: Enka, s: State, x: Symbol, p: Word) {
    exists la :: Item(x, [], p, la) in a.states && ExistsTrans(a.trans, s, EPS) &&
      a.states[Item(x, [], p, la)] in a.trans[s][EPS]
  }

  /** Expansion only ever grows: what is expanded stays expanded. */
  lemma ExpandedGrows(g: Grammar, a: Enka, b: Enka, s: State)
    requires Grows(a, b) && Expanded(g, a, s)
    ensures Expanded(g, b, s)
  {
    var it := a.items[s];
    if !IsComplete(it) {
      var x := SymbolAfterDot(it);
      if x in g.productions {
        forall k | 0 <= k < |g.productions[x]|
          ensures InitialLinked(b, s, x, g.productions[x][k])
        {
          var p := g.productions[x][k];
          assert InitialLinked(a, s, x, p);
          var la :| Item(x, [], p, la) in a.states && ExistsTrans(a.trans, s, EPS) &&
            a.states[Item(x, [], p, la)] in a.trans[s][EPS];
          assert Item(x, [], p, la) in b.states;
        }
      }
    }
  }

  lemma CoveredGrows(g: Grammar, a: Enka, b: Enka, q: seq<State>, q': seq<State>, from: nat)
    requires Grows(a, b) && Covered(g, a, q, from) && q <= q'
    requires forall x: State :: a.id <= x < b.id ==> x in q' || Expanded(g, b, x)
    ensures Covered(g, b, q', from)
  {
    forall x: State | from <= x < b.id
      ensures x in q' || Expanded(g, b, x)
    {
      if x < a.id && x !in q {
        ExpandedGrows(g, a, b, x);
      } else if x < a.id {
        var j :| 0 <= j < |q| && q[j] == x;
        assert q'[j] == x;
      }
    }
  }

  /** Every transition of t' other than the ε-set of s is one of t. */
  ghost predicate KeepsOthers(t: Trans, t': Trans, s: State) {
    forall s', sym :: (s', sym) != (s, EPS) && ExistsTrans(t', s', sym) ==>
      ExistsTrans(t, s', sym) && t'[s'][sym] == t[s'][sym]
  }

  lemma KeepsOthersTrans(t: Trans, t': Trans, t'': Trans, s: State)
    requires KeepsOthers(t, t', s) && KeepsOthers(t', t'', s)
    ensures KeepsOthers(t, t'', s)
  {
  }

  /** Rule c for one production p of x: the initial item with lookahead la
      gets a state and an ε-transition from s; a state that is the newest
      one is queued. */
  function AddInitialItem(a: Enka, s: State, x: Symbol, p: Word, la: set<Symbol>, q: seq<State>): (r: (Enka, seq<State>))
    requires Registry(a) && WF(a.trans, a.id) && s < a.id && QueueOk(q, a.id)
    ensures Registry(r.0) && WF(r.0.trans, r.0.id) && Grows(a, r.0) && QueueOk(r.1, r.0.id)
    ensures r.0.symbols == a.symbols && q <= r.1
    ensures forall y: State :: a.id <= y < r.0.id ==> y in r.1
    ensures InitialLinked(r.0, s, x, p)
    ensures KeepsOthers(a.trans, r.0.trans, s)
  {
    var (b, st) := GetState(a, Item(x, [], p, la));
    var c := b.(trans := AddTrans(b.trans, s, EPS, st));
    AddTransWF(b.trans, b.id, s, EPS, st);
    var q1 := if st == c.id - 1 then q + [st] else q;
    (c, q1)
  }

  /** Rule c for the productions ps[i..] of x, in order. */
  function AddInitialItems(a: Enka, s: State, x: Symbol, ps: seq<Word>, i: nat, la: set<Symbol>, q: seq<State>): (r: (Enka, seq<State>))
    requires Registry(a) && WF(a.trans, a.id) && s < a.id && QueueOk(q, a.id) && i <= |ps|
    ensures Registry(r.0) && WF(r.0.trans, r.0.id) && Grows(a, r.0) && QueueOk(r.1, r.0.id)
    ensures r.0.symbols == a.symbols && q <= r.1
    ensures forall y: State :: a.id <= y < r.0.id ==> y in r.1
    ensures forall k :: i <= k < |ps| ==> InitialLinked(r.0, s, x, ps[k])
    ensures KeepsOthers(a.trans, r.0.trans, s)
    decreases |ps| - i
  {
    if i == |ps| then (a, q)
    else
      var (c, q1) := AddInitialItem(a, s, x, ps[i], la, q);
      var r := AddInitialItems(c, s, x, ps, i + 1, la, q1);
      InitialItemsStep(a, c, r.0, s, x, ps, i, q, q1, r.1);
      r
  }

  /** One production of AddInitialItems followed by the rest. */
  lemma InitialItemsStep(a: Enka, c: Enka, d: Enka, s: State, x: Symbol, ps: seq<Word>, i: nat,
                         q: seq<State>, q1: seq<State>, q2: seq<State>)
    requires i < |ps|
    requires Grows(a, c) && q <= q1 && (forall y: State :: a.id <= y < c.id ==> y in q1)
    requires InitialLinked(c, s, x, ps[i]) && KeepsOthers(a.trans, c.trans, s)
    requires Grows(c, d) && q1 <= q2 && (forall y: State :: c.id <= y < d.id ==> y in q2)
    requires (forall k :: i + 1 <= k < |ps| ==> InitialLinked(d, s, x, ps[k])) && KeepsOthers(c.trans, d.trans, s)
    ensures Grows(a, d) && q <= q2 && (forall y: State :: a.id <= y < d.id ==> y in q2)
    ensures (forall k :: i <= k < |ps| ==> InitialLinked(d, s, x, ps[k])) && KeepsOthers(a.trans, d.trans, s)
  {
    ExpandedGrowsLinked(c, d, s, x, ps[i]);
    GrowsTrans(a, c, d);
    KeepsOthersTrans(a.trans, c.trans, d.trans, s);
    NewStatesQueued(a.id, c.id, d.id, q1, q2);
  }

  /** Queued states stay queued when the queue only grows at the back. */
  lemma NewStatesQueued(n0: nat, n1: nat, n2: nat, q1: seq<State>, q2: seq<State>)
    requires n0 <= n1 <= n2 && q1 <= q2
    requires forall y: State :: n0 <= y < n1 ==> y in q1
    requires forall y: State :: n1 <= y < n2 ==> y in q2
    ensures forall y: State :: n0 <= y < n2 ==> y in q2
  {
    forall y: State | n0 <= y < n1
      ensures y in q2
    {
      PrefixIn(q1, q2, y);
    }
  }

  lemma PrefixIn(q: seq<State>, q': seq<State>, y: State)
    requires q <= q' && y in q
    ensures y in q'
  {
    var j :| 0 <= j < |q| && q[j] == y;
    assert q'[j] == y;
  }

  lemma ExpandedGrowsLinked(a: Enka, b: Enka, s: State, x: Symbol, p: Word)
    requires Grows(a, b) && InitialLinked(a, s, x, p)
    ensures InitialLinked(b, s, x, p)
  {
    var la :| Item(x, [], p, la) in a.states && ExistsTrans(a.trans, s, EPS) &&
      a.states[Item(x, [], p, la)] in a.trans[s][EPS];
    assert Item(x, [], p, la) in b.states;
  }

  /** The inner loop of the construction on state s with item `item`:
      while the item is not complete, record the next symbol, apply rule c
      to it, move the dot (rule b) and continue from the moved item's
      state. */
  function Expand(g: Grammar, m: Memo, a: Enka, s: State, item: Item, q: seq<State>): (r: (Enka, Memo, seq<State>))
    requires Registry(a) && WF(a.trans, a.id) && s < a.id && a.items[s] == item && QueueOk(q, a.id)
    requires SelfTrue(m.begins) && TerminalSets(g, m.first)
    ensures Registry(r.0) && WF(r.0.trans, r.0.id) && Grows(a, r.0) && QueueOk(r.2, r.0.id)
    ensures SelfTrue(r.1.begins) && TerminalSets(g, r.1.first)
    ensures q <= r.2
    ensures Expanded(g, r.0, s)
    ensures forall y: State :: a.id <= y < r.0.id ==> y in r.2 || Expanded(g, r.0, y)
    decreases |item.afterDot|
  {
    if IsComplete(item) then (a, m, q)
    else
      var (a4, m1, q2, s3) := ExpandRound(g, m, a, s, item, q);
      var r := Expand(g, m1, a4, s3, ShiftDotR(item), q2);
      ExpandedGrows(g, a4, r.0, s);
      GrowsTrans(a, a4, r.0);
      ExpandNewStates(g, a, a4, r.0, s3, q2, r.2);
      r
  }

  /** One round of the inner loop on state s: record the symbol after the
      dot, apply rule c to it, and link s on that symbol to the state of
      the moved item (rule b), which is returned last. */
  function ExpandRound(g: Grammar, m: Memo, a: Enka, s: State, item: Item, q: seq<State>): (r: (Enka, Memo, seq<State>, State))
    requires Registry(a) && WF(a.trans, a.id) && s < a.id && a.items[s] == item && QueueOk(q, a.id)
    requires SelfTrue(m.begins) && TerminalSets(g, m.first) && !IsComplete(item)
    ensures Registry(r.0) && WF(r.0.trans, r.0.id) && Grows(a, r.0) && QueueOk(r.2, r.0.id)
    ensures SelfTrue(r.1.begins) && TerminalSets(g, r.1.first)
    ensures q <= r.2 && Expanded(g, r.0, s)
    ensures r.3 < r.0.id && r.0.items[r.3] == ShiftDotR(item)
    ensures forall y: State :: a.id <= y < r.0.id ==> y in r.2 || y == r.3
  {
    var x := SymbolAfterDot(item);
    var a1 := a.(symbols := a.symbols + {x});
    var moved := ShiftDotR(item);
    var (la, m1) := Lookahead(g, m, item);
    var (a2, q2) := if x in g.productions then AddInitialItems(a1, s, x, g.productions[x], 0, la, q) else (a1, q);
    var (a3, s3) := GetState(a2, moved);
    var a4 := a3.(trans := AddTrans(a3.trans, s, x, s3));
    AddTransWF(a3.trans, a3.id, s, x, s3);
    ExpandStep(g, a, a1, a2, a3, a4, s, item, x, s3);
    (a4, m1, q2, s3)
  }

  /** One round of the inner loop leaves s expanded. */
  lemma ExpandStep(g: Grammar, a: Enka, a1: Enka, a2: Enka, a3: Enka, a4: Enka, s: State, item: Item, x: Symbol, s3: State)
    requires Registry(a) && s < a.id && a.items[s] == item && !IsComplete(item) && x == SymbolAfterDot(item)
    requires a1 == a.(symbols := a.symbols + {x})
    requires Grows(a1, a2) && (x in g.productions ==> forall k :: 0 <= k < |g.productions[x]| ==> InitialLinked(a2, s, x, g.productions[x][k]))
    requires Grows(a2, a3) && ShiftDotR(item) in a3.states && a3.states[ShiftDotR(item)] == s3
    requires a4 == a3.(trans := AddTrans(a3.trans, s, x, s3))
    ensures Grows(a, a4) && Expanded(g, a4, s)
  {
    assert Grows(a, a1);
    GrowsTrans(a, a1, a2);
    GrowsTrans(a, a2, a3);
    assert Grows(a3, a4);
    GrowsTrans(a, a3, a4);
    if x in g.productions {
      forall k | 0 <= k < |g.productions[x]|
        ensures InitialLinked(a4, s, x, g.productions[x][k])
      {
        GrowsTrans(a2, a3, a4);
        ExpandedGrowsLinked(a2, a4, s, x, g.productions[x][k]);
      }
    }
  }

  /** The states made during a round are queued (rule c), or are the moved
      item's state, which the rest of the loop expands. */
  lemma ExpandNewStates(g: Grammar, a: Enka, a4: Enka, b: Enka, s3: State, q2: seq<State>, q': seq<State>)
    requires a.id <= a4.id && Grows(a4, b)
    requires forall y: State :: a.id <= y < a4.id ==> y in q2 || y == s3
    requires Expanded(g, b, s3) && q2 <= q'
    requires forall y: State :: a4.id <= y < b.id ==> y in q' || Expanded(g, b, y)
    ensures forall y: State :: a.id <= y < b.id ==> y in q' || Expanded(g, b, y)
  {
    forall y: State | a.id <= y < b.id
      ensures y in q' || Expanded(g, b, y)
    {
      if y < a4.id && y != s3 {
        PrefixIn(q2, q', y);
      }
    }
  }

  /** The worklist: take the front state, expand it, repeat until the
      queue is empty. The number of rounds is bounded by fuel. */
  function Drain(g: Grammar, m: Memo, a: Enka, q: seq<State>, fuel: nat): (r: Option<(Enka, Memo)>)
    requires Registry(a) && WF(a.trans, a.id) && QueueOk(q, a.id)
    requires SelfTrue(m.begins) && TerminalSets(g, m.first)
    requires Covered(g, a, q, 0)
    ensures r.Some? ==> Registry(r.value.0) && WF(r.value.0.trans, r.value.0.id) && Grows(a, r.value.0)
    ensures r.Some? ==> Covered(g, r.value.0, [], 0)
    ensures r.Some? ==> SelfTrue(r.value.1.begins) && TerminalSets(g, r.value.1.first)
    decreases fuel
  {
    if q == [] then Some((a, m))
    else if fuel == 0 then None
    else
      var s := q[0];
      var (b, m1, q1) := Expand(g, m, a, s, a.items[s], q[1..]);
      DrainStep(g, a, b, s, q, q1);
      var r := Drain(g, m1, b, q1, fuel - 1);
      if r.Some? then GrowsTrans(a, b, r.value.0); r else r
  }

  lemma DrainStep(g: Grammar, a: Enka, b: Enka, s: State, q: seq<State>, q1: seq<State>)
    requires q != [] && s == q[0] && Grows(a, b) && Covered(g, a, q, 0)
    requires Expanded(g, b, s) && q[1..] <= q1
    requires forall y: State :: a.id <= y < b.id ==> y in q1 || Expanded(g, b, y)
    ensures Covered(g, b, q1, 0)
  {
    forall x: State | 0 <= x < b.id
      ensures x in q1 || Expanded(g, b, x)
    {
      if x < a.id && x != s {
        if x in q {
          var j :| 0 <= j < |q| && q[j] == x;
          assert j > 0;
          assert q1[j - 1] == x;
        } else {
          ExpandedGrows(g, a, b, x);
        }
      }
    }
  }

  /** The start item: the first production of the start symbol with
      lookahead {end}. */
  function StartState(g: Grammar): (r: Option<(Enka, Item)>)
    ensures r.Some? <==> g.begin in g.productions && |g.productions[g.begin]| > 0
    ensures r.Some? ==> (Registry(r.value.0) && WF(r.value.0.trans, r.value.0.id) &&
      r.value.0.id == 1 && r.value.0.q0 == 0 && r.value.0.items[0] == r.value.1 &&
      r.value.1 == Item(g.begin, [], g.productions[g.begin][0], {END_SYM}) &&
      r.value.0.symbols == {g.begin} && r.value.0.trans == map[])
  {
    if g.begin !in g.productions || |g.productions[g.begin]| == 0 then None
    else
      var start := Item(g.begin, [], g.productions[g.begin][0], {END_SYM});
      var (a, q0) := GetState(Enka(map[], map[], map[], {g.begin}, 0, 0), start);
      Some((a.(q0 := q0), start))
  }

  /** The eNKA constructor: None when the start symbol has no production
      (the source's lookup throws) or the fuel runs out. Afterwards every
      state is expanded. Its last step is taken as intended: every ε-set
      becomes the state's true ε-closure (WithClosures), where the source's
      computeEpsilonEnvironment can stop short on an ε-cycle
      (EpsEnvironment.ComputeEnvironments models that code as written). */
  function Build(g: Grammar, m: Memo, fuel: nat): (r: Option<(Enka, Memo)>)
    requires SelfTrue(m.begins) && TerminalSets(g, m.first)
    ensures (g.begin !in g.productions || |g.productions[g.begin]| == 0) ==> r.None?
    ensures r.Some? ==> var a := r.value.0;
      Registry(a) && WF(a.trans, a.id) && a.q0 == 0 && a.id >= 1 &&
      a.items[0] == Item(g.begin, [], g.productions[g.begin][0], {END_SYM})
    ensures r.Some? ==> forall s: State :: s < r.value.0.id ==> Expanded(g, r.value.0, s)
    ensures r.Some? ==> forall s: State :: s < r.value.0.id ==>
      ExistsTrans(r.value.0.trans, s, EPS) && s in r.value.0.trans[s][EPS]
  {
    match StartState(g)
    case None => None
    case Some((a0, _)) =>
      assert Covered(g, a0, [0], 0);
      match Drain(g, m, a0, [0], fuel)
      case None => None
      case Some((a, m1)) =>
        var b := a.(trans := WithClosures(a.trans, a.id));
        WithClosuresWF(a.trans, a.id);
        WithClosuresGrows(a.trans, a.id);
        assert Grows(a, b);
        forall s: State | s < b.id
          ensures Expanded(g, b, s)
        {
          ExpandedGrows(g, a, b, s);
        }
        Some((b, m1))
  }

  /** Replacing ε-sets by closures only adds transitions. */
  lemma WithClosuresGrows(t: Trans, n: nat)
    requires WF(t, n)
    ensures TransGrows(t, WithClosures(t, n))
  {
    var r := WithClosures(t, n);
    forall s: State, sym | ExistsTrans(t, s, sym)
      ensures ExistsTrans(r, s, sym) && t[s][sym] <= r[s][sym]
    {
      if sym == EPS {
        if s < n {
          ClosureClosed(t, n, s, s);
        } else {
          assert s in t && t[s] == r[s];
        }
      }
    }
  }
}
