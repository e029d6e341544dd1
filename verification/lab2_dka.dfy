/** The deterministic LR(1) automaton built from the ε-NFA by the subset
    construction. Each DKA state stands for a set of ε-NFA states; the sets
    are numbered in the order they are discovered, starting with the
    ε-set of the ε-NFA's start state. */
module Dka {
  import opened Wrappers
  import opened Text
  import opened LrUtils
  import opened Grammars
  import opened FirstSets
  import opened EpsEnvironment
  import opened Enka

  datatype Dka = Dka(items: map<nat, set<Item>>, trans: map<nat, map<Symbol, nat>>, size: nat)

  /** The set reached from `current` on sym: the ε-set of its successors. */
  function Goto(t: Trans, current: set<State>, sym: Symbol): (r: set<State>) {
    EpsOf(t, GetNext(t, current, sym))
  }

  lemma GotoWithin(t: Trans, n: nat, current: set<State>, sym: Symbol)
    requires WF(t, n)
    ensures Goto(t, current, sym) <= Below(n)
  {
    GetNextWithin(t, n, GetNext(t, current, sym), EPS);
  }

  /** The items of a set of ε-NFA states. */
  function ItemsOf(a: Enka, current: set<State>): (r: set<Item>)
    requires forall s :: s in current ==> s in a.items
    ensures forall s :: s in current ==> a.items[s] in r
    ensures forall it :: it in r ==> exists s :: s in current && a.items[s] == it
  {
    set s | s in current :: a.items[s]
  }

  /** mapper and sets are inverse: sets[k] is the set numbered k. */
  ghost predicate Numbering(mapper: map<set<State>, nat>, sets: seq<set<State>>) {
    (forall k :: 0 <= k < |sets| ==> sets[k] in mapper && mapper[sets[k]] == k) &&
    (forall S :: S in mapper ==> mapper[S] < |sets| && sets[mapper[S]] == S)
  }

  /** Every set ever numbered consists of states below n. */
  ghost predicate Within(mapper: map<set<State>, nat>, n: nat) {
    forall S :: S in mapper ==> S <= Below(n)
  }

  /** The row of transitions of a set: an entry for exactly the symbols
      whose goto set is nonempty, leading to that set's number. */
  ghost predicate RowOf(t: Trans, current: set<State>, syms: seq<Symbol>, row: map<Symbol, nat>, mapper: map<set<State>, nat>) {
    (forall j :: 0 <= j < |syms| ==>
      (Goto(t, current, syms[j]) != {} <==> syms[j] in row) &&
      (syms[j] in row ==> Goto(t, current, syms[j]) in mapper && row[syms[j]] == mapper[Goto(t, current, syms[j])])) &&
    (forall sym :: sym in row ==> sym in syms)
  }

  /** All subsets of {0 .. n-1}; the bound that makes the construction
      finite. */
  ghost function Subsets(n: nat): set<set<State>> {
    if n == 0 then {{}}
    else
      var u := Subsets(n - 1);
      u + set s | s in u :: s + {n - 1}
  }

  lemma {:induction false} InSubsets(S: set<State>, n: nat)
    requires S <= Below(n)
    ensures S in Subsets(n)
  {
    if n == 0 {
      assert Below(0) == {};
      assert S == {};
    } else if n - 1 in S {
      var S' := S - {n - 1};
      InSubsets(S', n - 1);
      assert S == S' + {n - 1};
    } else {
      InSubsets(S, n - 1);
    }
  }

  lemma Shrinks(u: set<set<State>>, keys: set<set<State>>, S: set<State>)
    requires S in u && S !in keys
    ensures |u - (keys + {S})| < |u - keys|
  {
    assert u - (keys + {S}) == (u - keys) - {S};
    CardDrop(u - keys, S);
  }

  /** map m extends m0: the same numbers for the sets m0 knows. */
  ghost predicate MapGrows(m0: map<set<State>, nat>, m: map<set<State>, nat>) {
    m0.Keys <= m.Keys && forall S :: S in m0 ==> m[S] == m0[S]
  }

  /** Numbering a new set with the next number keeps the numbering a
      bijection, within bounds, and costs one unit of the budget. */
  lemma Enter(mapper: map<set<State>, nat>, sets: seq<set<State>>, n: nat, S: set<State>)
    requires Numbering(mapper, sets) && Within(mapper, n) && S !in mapper && S <= Below(n)
    ensures Numbering(mapper[S := |sets|], sets + [S]) && Within(mapper[S := |sets|], n)
    ensures MapGrows(mapper, mapper[S := |sets|])
    ensures |Subsets(n) - mapper[S := |sets|].Keys| < |Subsets(n) - mapper.Keys|
  {
    var m, q := mapper[S := |sets|], sets + [S];
    EnterForward(mapper, sets, S, m, q);
    EnterBackward(mapper, sets, S, m, q);
    EnterWithin(mapper, n, S, |sets|);
    Budget(mapper, n, S, |sets|);
  }

  lemma EnterBackward(mapper: map<set<State>, nat>, sets: seq<set<State>>, S: set<State>,
                      m: map<set<State>, nat>, q: seq<set<State>>)
    requires Numbering(mapper, sets) && S !in mapper
    requires m == mapper[S := |sets|] && q == sets + [S]
    ensures forall S' :: S' in m ==> m[S'] < |q| && q[m[S']] == S'
  {
  }

  lemma EnterWithin(mapper: map<set<State>, nat>, n: nat, S: set<State>, v: nat)
    requires Within(mapper, n) && S <= Below(n)
    ensures Within(mapper[S := v], n) && (S !in mapper ==> MapGrows(mapper, mapper[S := v]))
  {
  }

  lemma EnterForward(mapper: map<set<State>, nat>, sets: seq<set<State>>, S: set<State>,
                     m: map<set<State>, nat>, q: seq<set<State>>)
    requires Numbering(mapper, sets) && S !in mapper
    requires m == mapper[S := |sets|] && q == sets + [S]
    ensures forall k :: 0 <= k < |q| ==> q[k] in m && m[q[k]] == k
  {
    forall k | 0 <= k < |q|
      ensures q[k] in m && m[q[k]] == k
    {
      if k < |sets| {
        assert q[k] == sets[k] && sets[k] in mapper;
      }
    }
  }

  lemma Budget(mapper: map<set<State>, nat>, n: nat, S: set<State>, v: nat)
    requires S !in mapper && S <= Below(n)
    ensures |Subsets(n) - mapper[S := v].Keys| < |Subsets(n) - mapper.Keys|
  {
    InSubsets(S, n);
    assert mapper[S := v].Keys == mapper.Keys + {S};
    Shrinks(Subsets(n), mapper.Keys, S);
  }

  lemma MapGrowsTrans(m0: map<set<State>, nat>, m1: map<set<State>, nat>, m2: map<set<State>, nat>)
    requires MapGrows(m0, m1) && MapGrows(m1, m2)
    ensures MapGrows(m0, m2)
  {
  }

  /** One symbol of a row: an empty goto set gives no entry; a known set
      gives its number; a new set gets the next number and is appended to
      the list of sets, which is the queue's tail. */
  function RowEntry(t: Trans, current: set<State>, sym: Symbol, row: map<Symbol, nat>,
                    mapper: map<set<State>, nat>, sets: seq<set<State>>): (r: (map<Symbol, nat>, map<set<State>, nat>, seq<set<State>>))
    ensures Goto(t, current, sym) == {} ==> r == (row, mapper, sets)
    ensures Goto(t, current, sym) != {} ==> Goto(t, current, sym) in r.1 && r.0 == row[sym := r.1[Goto(t, current, sym)]]
    ensures Goto(t, current, sym) in mapper ==> r.1 == mapper && r.2 == sets
  {
    var next := Goto(t, current, sym);
    if next == {} then (row, mapper, sets)
    else if next in mapper then (row[sym := mapper[next]], mapper, sets)
    else (row[sym := |sets|], mapper[next := |sets|], sets + [next])
  }

  /** What holds after the first j symbols of a row. */
  ghost predicate RowInv(t: Trans, n: nat, current: set<State>, order: seq<Symbol>, j: nat, row: map<Symbol, nat>,
                         mapper: map<set<State>, nat>, sets: seq<set<State>>, mapper0: map<set<State>, nat>, sets0: seq<set<State>>) {
    j <= |order| && Numbering(mapper, sets) && Within(mapper, n) && sets0 <= sets &&
    RowOf(t, current, order[..j], row, mapper) && MapGrows(mapper0, mapper) &&
    |Subsets(n) - mapper.Keys| + |sets| - |sets0| <= |Subsets(n) - mapper0.Keys|
  }

  lemma RowEntryKeeps(t: Trans, n: nat, current: set<State>, order: seq<Symbol>, j: nat, row: map<Symbol, nat>,
                      mapper: map<set<State>, nat>, sets: seq<set<State>>, mapper0: map<set<State>, nat>, sets0: seq<set<State>>)
    requires WF(t, n) && j < |order| && RowInv(t, n, current, order, j, row, mapper, sets, mapper0, sets0)
    ensures var r := RowEntry(t, current, order[j], row, mapper, sets);
      RowInv(t, n, current, order, j + 1, r.0, r.1, r.2, mapper0, sets0)
  {
    var r := RowEntry(t, current, order[j], row, mapper, sets);
    var next := Goto(t, current, order[j]);
    GotoWithin(t, n, current, order[j]);
    if next != {} && next !in mapper {
      Enter(mapper, sets, n, next);
      MapGrowsTrans(mapper0, mapper, r.1);
    }
    RowStep(t, current, order, j, row, r.0, mapper, r.1);
  }

  /** The row of one set: each symbol of order in turn. */
  method MakeRow(a: Enka, current: set<State>, order: seq<Symbol>, mapper0: map<set<State>, nat>, sets0: seq<set<State>>)
    returns (row: map<Symbol, nat>, mapper: map<set<State>, nat>, sets: seq<set<State>>)
    requires WF(a.trans, a.id) && Numbering(mapper0, sets0) && Within(mapper0, a.id)
    ensures RowInv(a.trans, a.id, current, order, |order|, row, mapper, sets, mapper0, sets0)
  {
    row, mapper, sets := map[], mapper0, sets0;
    var j := 0;
    while j < |order|
      invariant RowInv(a.trans, a.id, current, order, j, row, mapper, sets, mapper0, sets0)
    {
      RowEntryKeeps(a.trans, a.id, current, order, j, row, mapper, sets, mapper0, sets0);
      var r := RowEntry(a.trans, current, order[j], row, mapper, sets);
      row, mapper, sets := r.0, r.1, r.2;
      j := j + 1;
    }
  }

  lemma RowStep(t: Trans, current: set<State>, order: seq<Symbol>, j: nat, row0: map<Symbol, nat>, row: map<Symbol, nat>,
                before: map<set<State>, nat>, mapper: map<set<State>, nat>)
    requires j < |order|
    requires RowOf(t, current, order[..j], row0, before)
    requires MapGrows(before, mapper)
    requires Goto(t, current, order[j]) == {} ==> row == row0
    requires Goto(t, current, order[j]) != {} ==>
      Goto(t, current, order[j]) in mapper && row == row0[order[j] := mapper[Goto(t, current, order[j])]]
    ensures RowOf(t, current, order[..j + 1], row, mapper)
  {
    var syms := order[..j + 1];
    forall i | 0 <= i < |syms|
      ensures (Goto(t, current, syms[i]) != {} <==> syms[i] in row) &&
        (syms[i] in row ==> Goto(t, current, syms[i]) in mapper && row[syms[i]] == mapper[Goto(t, current, syms[i])])
    {
      if i < j {
        assert syms[i] == order[..j][i];
      }
    }
  }

  /** Every numbered set consists of ε-NFA states that have items. */
  ghost predicate HasItems(a: Enka, sets: seq<set<State>>) {
    forall k :: 0 <= k < |sets| ==> forall s :: s in sets[k] ==> s in a.items
  }

  /** The row recorded for k, empty when there is none. */
  function RowAt(d: Dka, k: nat): map<Symbol, nat> {
    if k in d.trans then d.trans[k] else map[]
  }

  /** The sets numbered below done have their items recorded; an empty set
      has none. */
  ghost predicate ItemsDone(a: Enka, d: Dka, sets: seq<set<State>>, done: nat)
    requires HasItems(a, sets) && done <= |sets|
  {
    (forall k :: 0 <= k < done ==> (k in d.items <==> sets[k] != {})) &&
    (forall k :: 0 <= k < done && sets[k] != {} ==> d.items[k] == ItemsOf(a, sets[k]))
  }

  /** The sets numbered below done have their rows recorded. */
  ghost predicate RowsDone(t: Trans, order: seq<Symbol>, d: Dka, mapper: map<set<State>, nat>, sets: seq<set<State>>, done: nat)
    requires done <= |sets|
  {
    forall k :: 0 <= k < done ==> RowOf(t, sets[k], order, RowAt(d, k), mapper)
  }

  /** Nothing is recorded for the sets numbered done or later. */
  ghost predicate KeysBelow(d: Dka, done: nat) {
    forall k :: k in d.items || k in d.trans ==> k < done
  }

  /** The processed prefix of the numbering: sets[k] for k < done has its
      items and its row of transitions; the others have neither yet. */
  ghost predicate Processed(a: Enka, order: seq<Symbol>, d: Dka, mapper: map<set<State>, nat>, sets: seq<set<State>>, done: nat)
    requires HasItems(a, sets)
  {
    done <= |sets| && ItemsDone(a, d, sets, done) && RowsDone(a.trans, order, d, mapper, sets, done) && KeysBelow(d, done)
  }

  /** Records the items and the row of the set numbered id; a set without
      states gets no items entry, a row without entries no transitions
      entry. */
  function Record(a: Enka, d: Dka, id: nat, current: set<State>, row: map<Symbol, nat>, size: nat): (r: Dka)
    requires forall s :: s in current ==> s in a.items
    ensures r.size == size
    ensures id in r.items <==> id in d.items || current != {}
    ensures current != {} ==> r.items[id] == ItemsOf(a, current)
    ensures id in r.trans <==> id in d.trans || row != map[]
    ensures row != map[] ==> r.trans[id] == row
    ensures forall k :: k != id ==> (k in r.items <==> k in d.items) && (k in r.trans <==> k in d.trans)
    ensures forall k :: k != id && k in d.items ==> r.items[k] == d.items[k]
    ensures forall k :: k != id && k in d.trans ==> r.trans[k] == d.trans[k]
  {
    var items := if current != {} then d.items[id := ItemsOf(a, current)] else d.items;
    var trans := if row != map[] then d.trans[id := row] else d.trans;
    Dka(items, trans, size)
  }

  /** What holds before each round of the construction. */
  ghost predicate BuildInv(a: Enka, order: seq<Symbol>, start: set<State>, d: Dka, mapper: map<set<State>, nat>,
                           sets: seq<set<State>>, queue: seq<set<State>>, done: nat) {
    Numbering(mapper, sets) && Within(mapper, a.id) && |sets| >= 1 && sets[0] == start &&
    done <= |sets| && queue == sets[done..] && d.size == |sets| &&
    HasItems(a, sets) && Processed(a, order, d, mapper, sets, done)
  }

  lemma WithinItems(a: Enka, mapper: map<set<State>, nat>, sets: seq<set<State>>)
    requires Registry(a) && Numbering(mapper, sets) && Within(mapper, a.id)
    ensures HasItems(a, sets)
  {
    forall k, s | 0 <= k < |sets| && s in sets[k]
      ensures s in a.items
    {
      assert sets[k] in mapper;
      assert s in Below(a.id);
    }
  }

  /** The tail of a prefix followed by the rest is the tail of the whole. */
  lemma SliceAppend<T>(s0: seq<T>, s: seq<T>, i: nat)
    requires s0 <= s && i <= |s0|
    ensures s0[i..] + s[|s0|..] == s[i..]
  {
    var l := s0[i..] + s[|s0|..];
    forall j | 0 <= j < |l| ensures l[j] == s[i + j] {
      if j < |s0| - i {
        assert l[j] == s0[i + j];
      }
    }
  }

  /** One round keeps the invariant. */
  lemma BuildStep(a: Enka, order: seq<Symbol>, start: set<State>, d: Dka, mapper0: map<set<State>, nat>,
                  sets0: seq<set<State>>, done: nat, row: map<Symbol, nat>, mapper: map<set<State>, nat>, sets: seq<set<State>>)
    requires Registry(a) && WF(a.trans, a.id)
    requires done < |sets0| && BuildInv(a, order, start, d, mapper0, sets0, sets0[done..], done)
    requires RowInv(a.trans, a.id, sets0[done], order, |order|, row, mapper, sets, mapper0, sets0)
    ensures HasItems(a, sets)
    ensures var d' := Record(a, d, done, sets0[done], row, |sets|);
      BuildInv(a, order, start, d', mapper, sets, sets0[done + 1..] + sets[|sets0|..], done + 1)
  {
    var current := sets0[done];
    assert order[..|order|] == order;
    WithinItems(a, mapper, sets);
    var d' := Record(a, d, done, current, row, |sets|);
    SliceAppend(sets0, sets, done + 1);
    ProcessedStep(a, order, d, d', mapper0, mapper, sets0, sets, done, row);
  }

  /** One round either numbers a new set or shortens the queue. */
  lemma BuildMeasure(n: nat, mapper0: map<set<State>, nat>, sets0: seq<set<State>>, done: nat,
                     mapper: map<set<State>, nat>, sets: seq<set<State>>)
    requires done < |sets0| && sets0 <= sets && mapper0.Keys <= mapper.Keys
    requires |Subsets(n) - mapper.Keys| + |sets| - |sets0| <= |Subsets(n) - mapper0.Keys|
    ensures var U := Subsets(n);
      |U - mapper.Keys| < |U - mapper0.Keys| ||
      (|U - mapper.Keys| == |U - mapper0.Keys| && |sets0[done + 1..] + sets[|sets0|..]| < |sets0[done..]|)
  {
  }

  lemma ProcessedStep(a: Enka, order: seq<Symbol>, d: Dka, d': Dka, mapper0: map<set<State>, nat>, mapper: map<set<State>, nat>,
                      sets0: seq<set<State>>, sets: seq<set<State>>, done: nat, row: map<Symbol, nat>)
    requires HasItems(a, sets0) && HasItems(a, sets) && sets0 <= sets && done < |sets0|
    requires MapGrows(mapper0, mapper)
    requires Processed(a, order, d, mapper0, sets0, done)
    requires RowOf(a.trans, sets[done], order, row, mapper)
    requires d' == Record(a, d, done, sets[done], row, |sets|)
    ensures Processed(a, order, d', mapper, sets, done + 1)
  {
    ItemsStep(a, d, d', sets0, sets, done, row);
    RowsStep(a.trans, order, d, d', mapper0, mapper, sets0, sets, done, row, a);
    KeysStep(a, d, d', sets, done, row);
  }

  lemma KeysStep(a: Enka, d: Dka, d': Dka, sets: seq<set<State>>, done: nat, row: map<Symbol, nat>)
    requires done < |sets| && HasItems(a, sets) && KeysBelow(d, done)
    requires d' == Record(a, d, done, sets[done], row, |sets|)
    ensures KeysBelow(d', done + 1)
  {
  }

  lemma ItemsStep(a: Enka, d: Dka, d': Dka, sets0: seq<set<State>>, sets: seq<set<State>>, done: nat, row: map<Symbol, nat>)
    requires HasItems(a, sets0) && HasItems(a, sets) && sets0 <= sets && done < |sets0|
    requires ItemsDone(a, d, sets0, done) && KeysBelow(d, done)
    requires d' == Record(a, d, done, sets[done], row, |sets|)
    ensures ItemsDone(a, d', sets, done + 1)
  {
    forall k | 0 <= k < done
      ensures (k in d'.items <==> sets[k] != {}) && (sets[k] != {} ==> d'.items[k] == ItemsOf(a, sets[k]))
    {
      assert sets[k] == sets0[k];
    }
  }

  lemma RowsStep(t: Trans, order: seq<Symbol>, d: Dka, d': Dka, mapper0: map<set<State>, nat>, mapper: map<set<State>, nat>,
                 sets0: seq<set<State>>, sets: seq<set<State>>, done: nat, row: map<Symbol, nat>, a: Enka)
    requires sets0 <= sets && done < |sets0| && HasItems(a, sets)
    requires MapGrows(mapper0, mapper)
    requires RowsDone(t, order, d, mapper0, sets0, done) && KeysBelow(d, done)
    requires RowOf(t, sets[done], order, row, mapper)
    requires d' == Record(a, d, done, sets[done], row, |sets|)
    ensures RowsDone(t, order, d', mapper, sets, done + 1)
  {
    forall k | 0 <= k < done + 1
      ensures RowOf(t, sets[k], order, RowAt(d', k), mapper)
    {
      if k < done {
        assert sets[k] == sets0[k] && RowAt(d', k) == RowAt(d, k);
        RowOfGrows(t, sets[k], order, RowAt(d, k), mapper0, mapper);
      } else {
        assert RowAt(d', k) == row;
      }
    }
  }

  /** A row stays correct when the numbering grows. */
  lemma RowOfGrows(t: Trans, current: set<State>, syms: seq<Symbol>, row: map<Symbol, nat>,
                   m0: map<set<State>, nat>, m: map<set<State>, nat>)
    requires RowOf(t, current, syms, row, m0) && MapGrows(m0, m)
    ensures RowOf(t, current, syms, row, m)
  {
    forall j | 0 <= j < |syms| && syms[j] in row
      ensures Goto(t, current, syms[j]) in m && row[syms[j]] == m[Goto(t, current, syms[j])]
    {
      assert Goto(t, current, syms[j]) in m0;
    }
  }

  /** The order the construction visits the ε-NFA's symbols in: ascending,
      as the std::set holding them is iterated. */
  function SymbolOrder(a: Enka): (order: seq<Symbol>)
    ensures forall i :: 0 <= i < |order| ==> order[i] in a.symbols
    ensures forall x :: x in a.symbols ==> x in order
    ensures forall i, j :: 0 <= i < j < |order| ==> StrLess(order[i], order[j])
  {
    SortedStrings(a.symbols)
  }

  /** The DKA constructor. Returns the automaton, the numbering of the sets
      and the sets in order of their numbers. */
  method BuildDka(a: Enka) returns (d: Dka, mapper: map<set<State>, nat>, sets: seq<set<State>>)
    requires Registry(a) && WF(a.trans, a.id) && ExistsTrans(a.trans, a.q0, EPS)
    ensures d.size == |sets| >= 1 && Numbering(mapper, sets)
    ensures sets[0] == a.trans[a.q0][EPS] && mapper[a.trans[a.q0][EPS]] == 0
    ensures HasItems(a, sets)
    ensures forall k :: 0 <= k < |sets| ==> (k in d.items <==> sets[k] != {})
    ensures forall k :: 0 <= k < |sets| && sets[k] != {} ==> d.items[k] == ItemsOf(a, sets[k])
    ensures Rows(a.trans, SymbolOrder(a), d, mapper, sets)
    ensures forall k :: k in d.items || k in d.trans ==> k < d.size
  {
    var order := SymbolOrder(a);
    var start := a.trans[a.q0][EPS];
    mapper := map[start := 0];
    sets := [start];
    d := Dka(map[], map[], 1);
    var queue := [start];
    var done := 0;
    assert start <= Below(a.id);
    WithinItems(a, mapper, sets);
    while queue != []
      invariant BuildInv(a, order, start, d, mapper, sets, queue, done)
      decreases |Subsets(a.id) - mapper.Keys|, |queue|
    {
      var current := queue[0];
      queue := queue[1..];
      var id := mapper[current];
      var sets0 := sets;
      ghost var mapper0, d0 := mapper, d;
      var row;
      row, mapper, sets := MakeRow(a, current, order, mapper, sets);
      BuildStep(a, order, start, d0, mapper0, sets0, done, row, mapper, sets);
      BuildMeasure(a.id, mapper0, sets0, done, mapper, sets);
      d := Record(a, d, id, current, row, |sets|);
      queue := queue + sets[|sets0|..];
      done := done + 1;
    }
    BuildDone(a, order, start, d, mapper, sets, done);
  }

  lemma BuildDone(a: Enka, order: seq<Symbol>, start: set<State>, d: Dka, mapper: map<set<State>, nat>,
                  sets: seq<set<State>>, done: nat)
    requires done <= |sets| && BuildInv(a, order, start, d, mapper, sets, [], done)
    ensures done == |sets| && HasItems(a, sets)
    ensures forall k :: 0 <= k < |sets| ==> (k in d.items <==> sets[k] != {})
    ensures forall k :: 0 <= k < |sets| && sets[k] != {} ==> d.items[k] == ItemsOf(a, sets[k])
    ensures Rows(a.trans, order, d, mapper, sets)
  {
    assert |sets[done..]| == 0;
  }

  /** The set of ε-NFA states reached from S by reading w. */
  function RunSets(t: Trans, S: set<State>, w: seq<Symbol>): (r: set<State>)
    decreases |w|
  {
    if w == [] then S else RunSets(t, Goto(t, S, w[0]), w[1..])
  }

  /** The DKA state reached from k by reading w, None when a transition is
      missing. */
  function RunDka(d: Dka, k: nat, w: seq<Symbol>): (r: Option<nat>)
    decreases |w|
  {
    if w == [] then Some(k)
    else if k in d.trans && w[0] in d.trans[k] then RunDka(d, d.trans[k][w[0]], w[1..])
    else None
  }

  lemma {:induction false} RunSetsEmpty(t: Trans, w: seq<Symbol>)
    ensures RunSets(t, {}, w) == {}
    decreases |w|
  {
    if w != [] {
      GetNextSingle(t, 0, w[0]);
      GetNextSingle(t, 0, EPS);
      RunSetsEmpty(t, w[1..]);
    }
  }

  /** The rows of every numbered set are complete over order. */
  ghost predicate Rows(t: Trans, order: seq<Symbol>, d: Dka, mapper: map<set<State>, nat>, sets: seq<set<State>>) {
    forall k :: 0 <= k < |sets| ==> RowOf(t, sets[k], order, RowAt(d, k), mapper)
  }

  /** The subset construction is faithful: reading a word over the listed
      symbols in the DKA from the state of a set leads to the state of the
      set of ε-NFA states the word reaches, and gets stuck exactly when
      that set is empty. */
  lemma {:induction false} DkaSimulates(t: Trans, order: seq<Symbol>, d: Dka, mapper: map<set<State>, nat>,
                                        sets: seq<set<State>>, k: nat, w: seq<Symbol>)
    requires Numbering(mapper, sets) && Rows(t, order, d, mapper, sets) && k < |sets|
    requires forall i :: 0 <= i < |w| ==> w[i] in order
    ensures RunSets(t, sets[k], w) != {} ==>
      RunSets(t, sets[k], w) in mapper && RunDka(d, k, w) == Some(mapper[RunSets(t, sets[k], w)])
    ensures w != [] ==> (RunDka(d, k, w).Some? <==> RunSets(t, sets[k], w) != {})
    decreases |w|
  {
    if w != [] {
      var sym := w[0];
      var next := Goto(t, sets[k], sym);
      var row := RowAt(d, k);
      var j :| 0 <= j < |order| && order[j] == sym;
      assert RowOf(t, sets[k], order, row, mapper);
      assert next != {} <==> sym in row;
      assert forall i :: 0 <= i < |w[1..]| ==> w[1..][i] == w[i + 1];
      if next == {} {
        RunSetsEmpty(t, w[1..]);
      } else {
        var k' := mapper[next];
        assert sets[k'] == next;
        DkaSimulates(t, order, d, mapper, sets, k', w[1..]);
      }
    }
  }
}
