/** The generator's "begins with" relation and FIRST sets, memoised the way
    the grammar object memoises them: two caches live across queries, and
    an entry is created (false, or the empty set) before its value is
    computed, so that a left-recursive production finds that entry instead
    of recursing forever. The caches are threaded through every call. */
module FirstSets {
  import opened Wrappers
  import opened LrUtils
  import opened Grammars

  type BoolCache = map<(Symbol, Symbol), bool>
  type SetCache = map<Symbol, set<Symbol>>

  /** The caches of one grammar object. */
  datatype Memo = Memo(begins: BoolCache, first: SetCache)

  const EMPTY_MEMO: Memo := Memo(map[], map[])

  // ---------------------------------------------------------------------
  // Termination measure: entries not yet cached

  ghost predicate WordIn(w: Word, u: set<Symbol>) { forall j :: 0 <= j < |w| ==> w[j] in u }

  /** Every symbol of every production of g lies in u. */
  ghost predicate Closed(g: Grammar, u: set<Symbol>) {
    forall x, i :: x in g.productions && 0 <= i < |g.productions[x]| ==> WordIn(g.productions[x][i], u)
  }

  ghost function ProductionSymbols(ws: seq<Word>): (u: set<Symbol>)
    ensures forall i :: 0 <= i < |ws| ==> WordIn(ws[i], u)
  {
    if |ws| == 0 then {}
    else
      var rest := ProductionSymbols(ws[1..]);
      assert forall i :: 1 <= i < |ws| ==> ws[i] == ws[1..][i - 1];
      (set j | 0 <= j < |ws[0]| :: ws[0][j]) + rest
  }

  ghost function SymbolsOfKeys(g: Grammar, keys: set<Symbol>): (u: set<Symbol>)
    requires keys <= g.productions.Keys
    ensures forall x, i :: x in keys && 0 <= i < |g.productions[x]| ==> WordIn(g.productions[x][i], u)
    decreases keys
  {
    if keys == {} then {}
    else
      var x :| x in keys;
      ProductionSymbols(g.productions[x]) + SymbolsOfKeys(g, keys - {x})
  }

  /** Every symbol that occurs in a production of g. */
  ghost function GrammarSymbols(g: Grammar): (u: set<Symbol>)
    ensures Closed(g, u)
  {
    SymbolsOfKeys(g, g.productions.Keys)
  }

  ghost function Pairs(u: set<Symbol>, ys: set<Symbol>): set<(Symbol, Symbol)> {
    set a, b | a in u && b in ys :: (a, b)
  }

  ghost function Open(c: BoolCache, u: set<Symbol>, ys: set<Symbol>): nat {
    |Pairs(u, ys) - c.Keys|
  }

  ghost function OpenSymbols(c: SetCache, u: set<Symbol>): nat {
    |u - c.Keys|
  }

  lemma CardMono<T>(a: set<T>, b: set<T>)
    requires a <= b
    ensures |a| <= |b|
  {
    assert b == a + (b - a);
  }

  lemma CardDrop<T>(a: set<T>, x: T)
    requires x in a
    ensures |a - {x}| < |a|
  {
    assert a == (a - {x}) + {x};
  }

  lemma OpenMono(c: BoolCache, d: BoolCache, u: set<Symbol>, ys: set<Symbol>)
    requires c.Keys <= d.Keys
    ensures Open(d, u, ys) <= Open(c, u, ys)
  {
    CardMono(Pairs(u, ys) - d.Keys, Pairs(u, ys) - c.Keys);
  }

  lemma OpenDrop(c: BoolCache, k: (Symbol, Symbol), v: bool, u: set<Symbol>, ys: set<Symbol>)
    requires k.0 in u && k.1 in ys && k !in c
    ensures Open(c[k := v], u, ys) < Open(c, u, ys)
  {
    var all := Pairs(u, ys) - c.Keys;
    assert k in all;
    assert Pairs(u, ys) - c[k := v].Keys == all - {k};
    CardDrop(all, k);
  }

  lemma OpenSymbolsMono(c: SetCache, d: SetCache, u: set<Symbol>)
    requires c.Keys <= d.Keys
    ensures OpenSymbols(d, u) <= OpenSymbols(c, u)
  {
    CardMono(u - d.Keys, u - c.Keys);
  }

  lemma OpenSymbolsDrop(c: SetCache, x: Symbol, v: set<Symbol>, u: set<Symbol>)
    requires x in u && x !in c
    ensures OpenSymbols(c[x := v], u) < OpenSymbols(c, u)
  {
    assert u - c[x := v].Keys == (u - c.Keys) - {x};
    CardDrop(u - c.Keys, x);
  }

  /** d extends c and keeps every entry c had. */
  predicate Extends<K, V(==)>(c: map<K, V>, d: map<K, V>) {
    c.Keys <= d.Keys && forall k :: k in c ==> d[k] == c[k]
  }

  /** d extends c and keeps every entry c had except possibly k. */
  predicate ExtendsBut<K, V(==)>(c: map<K, V>, d: map<K, V>, k: K) {
    c.Keys <= d.Keys && forall k' :: k' in c && k' != k ==> d[k'] == c[k']
  }

  /** A symbol always begins with itself, in every cache entry. */
  predicate SelfTrue(c: BoolCache) {
    forall k :: k in c && k.0 == k.1 ==> c[k]
  }

  // ---------------------------------------------------------------------
  // startsWith on symbols and words, isVanishing

  /** startsWith(sym1, sym2): does x derive a word beginning with y (y the
      end marker asks whether x derives the empty word). u holds every
      symbol the recursion can meet; ys holds y and the end marker. */
  function BeginsSym(g: Grammar, ghost u: set<Symbol>, ghost ys: set<Symbol>, x: Symbol, y: Symbol, c: BoolCache): (r: (bool, BoolCache))
    requires Closed(g, u) && x in u && y in ys && END_SYM in ys && SelfTrue(c)
    ensures Extends(c, r.1) && (x, y) in r.1 && r.1[(x, y)] == r.0 && SelfTrue(r.1)
    ensures (x, y) in c ==> r == (c[(x, y)], c)
    ensures x == y ==> r.0
    decreases Open(c, u, ys), 3, 0
  {
    if (x, y) in c then (c[(x, y)], c)
    else
      var c1 := c[(x, y) := false];
      assert Extends(c, c1);
      if x == y then (true, c1[(x, y) := true])
      else if x in g.productions then
        OpenDrop(c, (x, y), false, u, ys);
        var r := BeginsAny(g, u, ys, x, y, g.productions[x], 0, c1);
        assert Extends(c, r.1) by {
          assert ExtendsBut(c1, r.1, (x, y));
        }
        r
      else (false, c1)
  }

  /** The loop over the productions of x: the entry for (x, y) becomes true
      as soon as one production begins with y. */
  function BeginsAny(g: Grammar, ghost u: set<Symbol>, ghost ys: set<Symbol>, x: Symbol, y: Symbol,
                     ps: seq<Word>, i: nat, c: BoolCache): (r: (bool, BoolCache))
    requires Closed(g, u) && y in ys && END_SYM in ys && SelfTrue(c) && x != y
    requires forall k :: 0 <= k < |ps| ==> WordIn(ps[k], u)
    requires i <= |ps| && (x, y) in c
    ensures ExtendsBut(c, r.1, (x, y)) && (x, y) in r.1 && r.1[(x, y)] == r.0 && SelfTrue(r.1)
    ensures c[(x, y)] ==> r.0
    decreases Open(c, u, ys), 5, |ps| - i
  {
    if i == |ps| then (c[(x, y)], c)
    else
      var (b, c2) := BeginsWord(g, u, ys, ps[i], y, |ps[i]|, c);
      var c3 := if b then c2[(x, y) := true] else c2;
      OpenMono(c, c3, u, ys);
      BeginsAny(g, u, ys, x, y, ps, i + 1, c3)
  }

  /** startsWith(word, sym2) on the symbols w[0..k), which the reversed
      storage reads from index k-1 down: a symbol that begins with y answers
      true (for a real y) or is passed over (for the end marker); a symbol
      that does not and cannot vanish answers false; a vanishing one is
      passed over. Past the last symbol the answer is whether y is the end
      marker. */
  function BeginsWord(g: Grammar, ghost u: set<Symbol>, ghost ys: set<Symbol>, w: Word, y: Symbol, k: nat, c: BoolCache): (r: (bool, BoolCache))
    requires Closed(g, u) && WordIn(w, u) && y in ys && END_SYM in ys && SelfTrue(c)
    requires k <= |w|
    ensures Extends(c, r.1) && SelfTrue(r.1)
    ensures k == 0 ==> r == (y == END_SYM, c)
    decreases Open(c, u, ys), 4, k
  {
    if k == 0 then (y == END_SYM, c)
    else
      var (b, c2) := BeginsSym(g, u, ys, w[k - 1], y, c);
      OpenMono(c, c2, u, ys);
      if b then
        if y != END_SYM then (true, c2) else BeginsWord(g, u, ys, w, y, k - 1, c2)
      else
        var (v, c3) := BeginsSym(g, u, ys, w[k - 1], END_SYM, c2);
        OpenMono(c2, c3, u, ys);
        if !v then (false, c3) else BeginsWord(g, u, ys, w, y, k - 1, c3)
  }

  /** The universe of one query: the grammar's symbols and the queried ones. */
  ghost function Universe(g: Grammar, extra: set<Symbol>): (u: set<Symbol>)
    ensures Closed(g, u) && extra <= u
  {
    GrammarSymbols(g) + extra
  }

  ghost function WordSymbols(w: Word): (u: set<Symbol>)
    ensures WordIn(w, u)
  {
    set j | 0 <= j < |w| :: w[j]
  }

  /** The public startsWith(sym1, sym2). */
  function StartsWith(g: Grammar, m: Memo, x: Symbol, y: Symbol): (r: (bool, Memo))
    requires SelfTrue(m.begins)
    ensures Extends(m.begins, r.1.begins) && SelfTrue(r.1.begins) && r.1.first == m.first
    ensures (x, y) in r.1.begins && r.1.begins[(x, y)] == r.0
    ensures x == y ==> r.0
    ensures (x, y) in m.begins ==> r == (m.begins[(x, y)], m)
  {
    var (b, c) := BeginsSym(g, Universe(g, {x}), {y, END_SYM}, x, y, m.begins);
    (b, m.(begins := c))
  }

  /** isVanishing(sym). */
  function IsVanishing(g: Grammar, m: Memo, x: Symbol): (r: (bool, Memo))
    requires SelfTrue(m.begins)
    ensures Extends(m.begins, r.1.begins) && SelfTrue(r.1.begins) && r.1.first == m.first
    ensures (x, END_SYM) in r.1.begins && r.1.begins[(x, END_SYM)] == r.0
  {
    StartsWith(g, m, x, END_SYM)
  }

  /** isVanishing(word). */
  function IsVanishingWord(g: Grammar, m: Memo, w: Word): (r: (bool, Memo))
    requires SelfTrue(m.begins)
    ensures Extends(m.begins, r.1.begins) && SelfTrue(r.1.begins) && r.1.first == m.first
    ensures w == [] ==> r == (true, m)
  {
    var (b, c) := BeginsWord(g, Universe(g, WordSymbols(w)), {END_SYM}, w, END_SYM, |w|, m.begins);
    (b, m.(begins := c))
  }

  // ---------------------------------------------------------------------
  // FIRST sets

  /** FIRST sets hold terminals only. */
  predicate TerminalSets(g: Grammar, fc: SetCache) {
    forall x :: x in fc ==> fc[x] <= g.terminals
  }

  /** startsWith(sym): FIRST(x). A symbol without productions has FIRST {x}
      when it is a terminal and {} otherwise; a symbol with productions has
      the union of the FIRST sets of its productions. */
  function FirstSym(g: Grammar, ghost u: set<Symbol>, x: Symbol, bc: BoolCache, fc: SetCache): (r: (set<Symbol>, BoolCache, SetCache))
    requires Closed(g, u) && x in u && SelfTrue(bc) && TerminalSets(g, fc)
    ensures Extends(bc, r.1) && SelfTrue(r.1) && Extends(fc, r.2) && TerminalSets(g, r.2)
    ensures x in r.2 && r.2[x] == r.0
    ensures x in fc ==> r == (fc[x], bc, fc)
    ensures x !in fc && x !in g.productions ==> r.0 == (if x in g.terminals then {x} else {})
    decreases OpenSymbols(fc, u), 3, 0
  {
    if x in fc then (fc[x], bc, fc)
    else
      var fc1 := fc[x := {}];
      if x !in g.productions then
        var f := if x in g.terminals then {x} else {};
        (f, bc, fc1[x := f])
      else FirstOfProductions(g, u, x, bc, fc)
  }

  /** FIRST of a symbol with productions that is not cached yet: x is cached
      as {} while its productions are walked (so a left-recursive walk sees
      {}), then as the union found. */
  function FirstOfProductions(g: Grammar, ghost u: set<Symbol>, x: Symbol, bc: BoolCache, fc: SetCache): (r: (set<Symbol>, BoolCache, SetCache))
    requires Closed(g, u) && x in u && SelfTrue(bc) && TerminalSets(g, fc)
    requires x !in fc && x in g.productions
    ensures Extends(bc, r.1) && SelfTrue(r.1) && Extends(fc, r.2) && TerminalSets(g, r.2)
    ensures x in r.2 && r.2[x] == r.0
    decreases OpenSymbols(fc, u), 2
  {
    var fc1 := fc[x := {}];
    OpenSymbolsDrop(fc, x, {}, u);
    var r := FirstAll(g, u, g.productions[x], 0, {}, bc, fc1);
    CacheAfterWalk(g, fc, x, r.2, r.0);
    (r.0, r.1, r.2[x := r.0])
  }

  /** Storing the walk's answer for x over the placeholder keeps every
      entry the cache had before x was entered. */
  lemma CacheAfterWalk(g: Grammar, fc: SetCache, x: Symbol, fc2: SetCache, f: set<Symbol>)
    requires x !in fc && Extends(fc[x := {}], fc2) && TerminalSets(g, fc2) && f <= g.terminals
    ensures Extends(fc, fc2[x := f]) && TerminalSets(g, fc2[x := f])
  {
    assert Extends(fc, fc[x := {}]);
  }

  /** The union of FIRST over the productions ps[i..], added to acc. */
  function FirstAll(g: Grammar, ghost u: set<Symbol>, ps: seq<Word>, i: nat, acc: set<Symbol>,
                    bc: BoolCache, fc: SetCache): (r: (set<Symbol>, BoolCache, SetCache))
    requires Closed(g, u) && SelfTrue(bc) && TerminalSets(g, fc) && acc <= g.terminals
    requires forall k :: 0 <= k < |ps| ==> WordIn(ps[k], u)
    requires i <= |ps|
    ensures Extends(bc, r.1) && SelfTrue(r.1) && Extends(fc, r.2) && TerminalSets(g, r.2)
    ensures acc <= r.0 <= g.terminals
    decreases OpenSymbols(fc, u), 5, |ps| - i
  {
    if i == |ps| then (acc, bc, fc)
    else
      var (f, bc2, fc2) := FirstWord(g, u, ps[i], |ps[i]|, {}, bc, fc);
      OpenSymbolsMono(fc, fc2, u);
      FirstAll(g, u, ps, i + 1, acc + f, bc2, fc2)
  }

  /** startsWith(word) on w[0..k), read from index k-1 down: each symbol's
      FIRST set is added, and the walk stops after the first symbol that
      cannot vanish. */
  function FirstWord(g: Grammar, ghost u: set<Symbol>, w: Word, k: nat, acc: set<Symbol>,
                     bc: BoolCache, fc: SetCache): (r: (set<Symbol>, BoolCache, SetCache))
    requires Closed(g, u) && WordIn(w, u) && SelfTrue(bc) && TerminalSets(g, fc) && acc <= g.terminals
    requires k <= |w|
    ensures Extends(bc, r.1) && SelfTrue(r.1) && Extends(fc, r.2) && TerminalSets(g, r.2)
    ensures acc <= r.0 <= g.terminals
    ensures k == 0 ==> r == (acc, bc, fc)
    decreases OpenSymbols(fc, u), 4, k
  {
    if k == 0 then (acc, bc, fc)
    else
      var (f, bc2, fc2) := FirstSym(g, u, w[k - 1], bc, fc);
      OpenSymbolsMono(fc, fc2, u);
      var acc2 := acc + f;
      var (v, bc3) := BeginsSym(g, u, {END_SYM}, w[k - 1], END_SYM, bc2);
      if !v then (acc2, bc3, fc2) else FirstWord(g, u, w, k - 1, acc2, bc3, fc2)
  }

  /** The public startsWith(sym) returning FIRST. */
  function First(g: Grammar, m: Memo, x: Symbol): (r: (set<Symbol>, Memo))
    requires SelfTrue(m.begins) && TerminalSets(g, m.first)
    ensures Extends(m.begins, r.1.begins) && SelfTrue(r.1.begins)
    ensures Extends(m.first, r.1.first) && TerminalSets(g, r.1.first)
    ensures x in r.1.first && r.1.first[x] == r.0
    ensures x in m.first ==> r == (m.first[x], m)
    ensures x !in m.first && x !in g.productions ==> r.0 == (if x in g.terminals then {x} else {})
  {
    var (f, bc, fc) := FirstSym(g, Universe(g, {x}), x, m.begins, m.first);
    (f, Memo(bc, fc))
  }

  /** The public startsWith(word) returning FIRST of a word. */
  function FirstOfWord(g: Grammar, m: Memo, w: Word): (r: (set<Symbol>, Memo))
    requires SelfTrue(m.begins) && TerminalSets(g, m.first)
    ensures Extends(m.begins, r.1.begins) && SelfTrue(r.1.begins)
    ensures Extends(m.first, r.1.first) && TerminalSets(g, r.1.first)
    ensures r.0 <= g.terminals
    ensures w == [] ==> r == ({}, m)
  {
    var (f, bc, fc) := FirstWord(g, Universe(g, WordSymbols(w)), w, |w|, {}, m.begins, m.first);
    (f, Memo(bc, fc))
  }
}

module FirstSetsFacts {
  import opened Wrappers
  import opened LrUtils
  import opened Grammars
  import opened FirstSets

  /** The union of the cached FIRST sets of w[t..k). */
  ghost function UnionOf(fc: SetCache, w: Word, t: nat, k: nat): (s: set<Symbol>)
    requires t <= k <= |w| && forall j :: t <= j < k ==> w[j] in fc
    decreases k - t
  {
    if t == k then {} else fc[w[k - 1]] + UnionOf(fc, w, t, k - 1)
  }

  lemma {:induction false} UnionOfExtends(fc: SetCache, fd: SetCache, w: Word, t: nat, k: nat)
    requires t <= k <= |w| && forall j :: t <= j < k ==> w[j] in fc
    requires Extends(fc, fd)
    ensures UnionOf(fd, w, t, k) == UnionOf(fc, w, t, k)
    decreases k - t
  {
    if t < k {
      UnionOfExtends(fc, fd, w, t, k - 1);
    }
  }

  /** A symbol is vanishing according to cache c. */
  ghost predicate VanishesIn(c: BoolCache, s: Symbol) { (s, END_SYM) in c && c[(s, END_SYM)] }

  /** r's FIRST set is acc and the FIRST sets of w[t..k); the symbols above
      t vanish, and w[t] does not unless t is 0. */
  ghost predicate TakenDownTo(r: (set<Symbol>, BoolCache, SetCache), acc: set<Symbol>, w: Word, t: nat, k: nat)
    requires t < k <= |w|
  {
    (forall j :: t <= j < k ==> w[j] in r.2) &&
    r.0 == acc + UnionOf(r.2, w, t, k) &&
    (forall j :: t < j < k ==> VanishesIn(r.1, w[j])) &&
    (t > 0 ==> (w[t], END_SYM) in r.1 && !r.1[(w[t], END_SYM)])
  }

  /** FIRST of a word, read in source order (from the stored word's back),
      is the union of the FIRST sets of its symbols up to and including the
      first one that cannot vanish. */
  lemma {:induction false} FirstWordUnion(g: Grammar, u: set<Symbol>, w: Word, k: nat, acc: set<Symbol>,
                                           bc: BoolCache, fc: SetCache)
    requires Closed(g, u) && WordIn(w, u) && SelfTrue(bc) && TerminalSets(g, fc) && acc <= g.terminals
    requires 0 < k <= |w|
    ensures exists t :: 0 <= t < k && TakenDownTo(FirstWord(g, u, w, k, acc, bc, fc), acc, w, t, k)
    decreases k
  {
    var r := FirstWord(g, u, w, k, acc, bc, fc);
    var s1 := FirstSym(g, u, w[k - 1], bc, fc);
    var acc2 := acc + s1.0;
    var s2 := BeginsSym(g, u, {END_SYM}, w[k - 1], END_SYM, s1.1);
    if !s2.0 {
      assert r == (acc2, s2.1, s1.2);
      assert UnionOf(s1.2, w, k - 1, k) == s1.0;
      assert TakenDownTo(r, acc, w, k - 1, k);
    } else {
      assert r == FirstWord(g, u, w, k - 1, acc2, s2.1, s1.2);
      FirstWordLater(g, u, w, k, acc, bc, fc, s1, s2);
    }
  }

  lemma {:induction false} FirstWordLater(g: Grammar, u: set<Symbol>, w: Word, k: nat, acc: set<Symbol>,
                                          bc: BoolCache, fc: SetCache,
                                          s1: (set<Symbol>, BoolCache, SetCache), s2: (bool, BoolCache))
    requires Closed(g, u) && WordIn(w, u) && SelfTrue(bc) && TerminalSets(g, fc) && acc <= g.terminals
    requires 0 < k <= |w|
    requires s1 == FirstSym(g, u, w[k - 1], bc, fc)
    requires s2 == BeginsSym(g, u, {END_SYM}, w[k - 1], END_SYM, s1.1) && s2.0
    requires FirstWord(g, u, w, k, acc, bc, fc) == FirstWord(g, u, w, k - 1, acc + s1.0, s2.1, s1.2)
    ensures exists t :: 0 <= t < k && TakenDownTo(FirstWord(g, u, w, k, acc, bc, fc), acc, w, t, k)
    decreases k, 0
  {
    var r := FirstWord(g, u, w, k, acc, bc, fc);
    assert r.2[w[k - 1]] == s1.0;
    assert VanishesIn(r.1, w[k - 1]);
    if k == 1 {
      assert r == (acc + s1.0, s2.1, s1.2);
      assert UnionOf(r.2, w, 0, 1) == s1.0;
      assert TakenDownTo(r, acc, w, 0, 1);
    } else {
      FirstWordUnion(g, u, w, k - 1, acc + s1.0, s2.1, s1.2);
      var t :| 0 <= t < k - 1 && TakenDownTo(r, acc + s1.0, w, t, k - 1);
      TakenExtend(r, acc, s1.0, w, t, k);
    }
  }

  lemma TakenExtend(r: (set<Symbol>, BoolCache, SetCache), acc: set<Symbol>, f: set<Symbol>, w: Word, t: nat, k: nat)
    requires t < k - 1 && k <= |w|
    requires TakenDownTo(r, acc + f, w, t, k - 1)
    requires w[k - 1] in r.2 && r.2[w[k - 1]] == f && VanishesIn(r.1, w[k - 1])
    ensures TakenDownTo(r, acc, w, t, k)
  {
    assert UnionOf(r.2, w, t, k) == f + UnionOf(r.2, w, t, k - 1);
  }

  /** The empty word starts with no real symbol: only the end marker. */
  lemma EmptyWordBegins(g: Grammar, u: set<Symbol>, ys: set<Symbol>, y: Symbol, c: BoolCache)
    requires Closed(g, u) && y in ys && END_SYM in ys && SelfTrue(c)
    ensures BeginsWord(g, u, ys, [], y, 0, c).0 <==> y == END_SYM
  {
  }

  /** A directly left-recursive grammar, A -> A b | c (stored reversed). */
  function LeftRecursive(): (g: Grammar)
    ensures g.productions.Keys == {"A"}
  {
    EMPTY_GRAMMAR.(terminals := {"b", "c"}, productions := map["A" := [["b", "A"], ["c"]]])
  }

  /** A -> A b | c begins with c: inside the loop the pending entry for
      (A, c) answers false instead of recursing, and the second production
      then sets it. A does not vanish. */
  lemma LeftRecursionEnds(u: set<Symbol>)
    requires Closed(LeftRecursive(), u) && "A" in u && "b" in u && "c" in u
    ensures BeginsSym(LeftRecursive(), u, {"c", END_SYM}, "A", "c", map[]).0
  {
    var g := LeftRecursive();
    var ys: set<Symbol> := {"c", END_SYM};
    var c1: BoolCache := map[("A", "c") := false];
    var ps := g.productions["A"];
    assert ps == [["b", "A"], ["c"]];
    var w0 := BeginsWord(g, u, ys, ps[0], "c", 2, c1);
    var ca := if w0.0 then w0.1[("A", "c") := true] else w0.1;
    assert BeginsAny(g, u, ys, "A", "c", ps, 0, c1) == BeginsAny(g, u, ys, "A", "c", ps, 1, ca);
    assert ps[1] == ["c"] && ps[1][0] == "c";
    var s1 := BeginsSym(g, u, ys, "c", "c", ca);
    assert s1.0;
    assert "c" != END_SYM;
    var w1 := BeginsWord(g, u, ys, ps[1], "c", 1, ca);
    assert w1 == (true, s1.1);
    var cb := w1.1[("A", "c") := true];
    assert BeginsAny(g, u, ys, "A", "c", ps, 1, ca) == BeginsAny(g, u, ys, "A", "c", ps, 2, cb);
  }

  /** On a one-symbol word FIRST is that symbol's FIRST, whether or not the
      symbol vanishes. */
  lemma FirstOfOneSymbol(g: Grammar, u: set<Symbol>, s: Symbol, acc: set<Symbol>, bc: BoolCache, fc: SetCache)
    requires Closed(g, u) && s in u && SelfTrue(bc) && TerminalSets(g, fc) && acc <= g.terminals
    ensures var r := FirstWord(g, u, [s], 1, acc, bc, fc);
      var f := FirstSym(g, u, s, bc, fc);
      r.0 == acc + f.0 && r.2 == f.2
  {
    var f := FirstSym(g, u, s, bc, fc);
    var v := BeginsSym(g, u, {END_SYM}, s, END_SYM, f.1);
    if v.0 {
      assert FirstWord(g, u, [s], 1, acc, bc, fc) == FirstWord(g, u, [s], 0, acc + f.0, v.1, f.2);
    }
  }

  /** A mutually left-recursive grammar, A -> B | c and B -> A. */
  function MutuallyRecursive(): (g: Grammar)
    ensures g.productions.Keys == {"A", "B"}
  {
    EMPTY_GRAMMAR.(terminals := {"c"}, productions := map["A" := [["B"], ["c"]], "B" := [["A"]]])
  }

  /** While A is pending, FIRST(B) finds A's empty entry and is {}. */
  lemma PendingAHidesB(u: set<Symbol>, bc: BoolCache)
    requires Closed(MutuallyRecursive(), u) && "A" in u && "B" in u && SelfTrue(bc)
    ensures var r := FirstSym(MutuallyRecursive(), u, "B", bc, map["A" := {}]);
      r.0 == {} && r.2 == map["A" := {}, "B" := {}]
  {
    var g := MutuallyRecursive();
    var psB := g.productions["B"];
    assert psB == [["A"]];
    var fcA: SetCache := map["A" := {}];
    var fcAB := fcA["B" := {}];
    assert TerminalSets(g, fcAB);
    FirstOfOneSymbol(g, u, "A", {}, bc, fcAB);
    var wb := FirstWord(g, u, psB[0], 1, {}, bc, fcAB);
    assert wb.0 == {} && wb.2 == fcAB;
    assert FirstAll(g, u, psB, 0, {}, bc, fcAB) == FirstAll(g, u, psB, 1, {}, wb.1, fcAB);
  }

  /** FIRST(A) from empty caches is {c}, and it leaves B -> {} cached. */
  lemma FirstAFromEmpty(u: set<Symbol>)
    requires Closed(MutuallyRecursive(), u) && "A" in u
    ensures var r := FirstSym(MutuallyRecursive(), u, "A", map[], map[]);
      r.0 == {"c"} && "B" in r.2 && r.2["B"] == {}
  {
    var g := MutuallyRecursive();
    var bc0: BoolCache := map[];
    var psA := g.productions["A"];
    assert psA == [["B"], ["c"]];
    assert WordIn(psA[0], u) && WordIn(psA[1], u);
    assert psA[0][0] == "B" && psA[1][0] == "c";
    var fcA: SetCache := map["A" := {}];
    PendingAHidesB(u, bc0);
    FirstOfOneSymbol(g, u, "B", {}, bc0, fcA);
    var wa0 := FirstWord(g, u, psA[0], 1, {}, bc0, fcA);
    assert wa0.0 == {} && wa0.2 == map["A" := {}, "B" := {}];
    assert "c" !in g.productions && "c" !in wa0.2;
    FirstOfOneSymbol(g, u, "c", {}, wa0.1, wa0.2);
    var wa1 := FirstWord(g, u, psA[1], 1, {}, wa0.1, wa0.2);
    assert wa1.0 == {"c"};
    assert FirstAll(g, u, psA, 0, {}, bc0, fcA) == FirstAll(g, u, psA, 1, {}, wa0.1, wa0.2);
    assert FirstAll(g, u, psA, 1, {}, wa0.1, wa0.2) == FirstAll(g, u, psA, 2, {"c"}, wa1.1, wa1.2);
  }

  /** While B is pending, FIRST(A) is still {c}. */
  lemma PendingBKeepsA(v: set<Symbol>, bc: BoolCache)
    requires Closed(MutuallyRecursive(), v) && "A" in v && "B" in v && SelfTrue(bc)
    ensures FirstSym(MutuallyRecursive(), v, "A", bc, map["B" := {}]).0 == {"c"}
  {
    var g := MutuallyRecursive();
    var psA := g.productions["A"];
    assert psA == [["B"], ["c"]];
    assert WordIn(psA[1], v) && psA[1][0] == "c";
    var gBA: SetCache := map["B" := {}, "A" := {}];
    assert TerminalSets(g, gBA);
    FirstOfOneSymbol(g, v, "B", {}, bc, gBA);
    var xa0 := FirstWord(g, v, psA[0], 1, {}, bc, gBA);
    assert xa0.0 == {} && xa0.2 == gBA;
    assert "c" !in g.productions && "c" !in gBA;
    FirstOfOneSymbol(g, v, "c", {}, xa0.1, xa0.2);
    var xa1 := FirstWord(g, v, psA[1], 1, {}, xa0.1, xa0.2);
    assert xa1.0 == {"c"};
    assert FirstAll(g, v, psA, 0, {}, bc, gBA) == FirstAll(g, v, psA, 1, {}, xa0.1, xa0.2);
    assert FirstAll(g, v, psA, 1, {}, xa0.1, xa0.2) == FirstAll(g, v, psA, 2, {"c"}, xa1.1, xa1.2);
  }

  /** FIRST(B) from empty caches is {c}. */
  lemma FirstBFromEmpty(v: set<Symbol>)
    requires Closed(MutuallyRecursive(), v) && "B" in v
    ensures FirstSym(MutuallyRecursive(), v, "B", map[], map[]).0 == {"c"}
  {
    var g := MutuallyRecursive();
    var bc0: BoolCache := map[];
    var psB := g.productions["B"];
    assert psB == [["A"]];
    assert WordIn(psB[0], v) && psB[0][0] == "A";
    var gB: SetCache := map["B" := {}];
    PendingBKeepsA(v, bc0);
    FirstOfOneSymbol(g, v, "A", {}, bc0, gB);
    var xb := FirstWord(g, v, psB[0], 1, {}, bc0, gB);
    assert xb.0 == {"c"};
    assert FirstAll(g, v, psB, 0, {}, bc0, gB) == FirstAll(g, v, psB, 1, {"c"}, xb.1, xb.2);
  }

  /** Asking for FIRST(A) first leaves the entry B -> {} behind, created
      while A's own entry was still pending; a later FIRST(B) answers {}
      from the cache, while FIRST(B) asked first is {c}. The answers depend
      on the order of the queries. */
  lemma FirstDependsOnQueryOrder()
    ensures var (fa, m) := First(MutuallyRecursive(), EMPTY_MEMO, "A");
      fa == {"c"} && First(MutuallyRecursive(), m, "B").0 == {}
    ensures First(MutuallyRecursive(), EMPTY_MEMO, "B").0 == {"c"}
  {
    var g := MutuallyRecursive();
    FirstAFromEmpty(Universe(g, {"A"}));
    FirstBFromEmpty(Universe(g, {"B"}));
  }
}
