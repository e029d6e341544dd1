/** The grammar of the LR(1) parser generator, read from its definition
    lines, and the LR(1) item with its dot moves. Right-hand sides are stored
    REVERSED (the symbol right of the dot is the last element), so that
    moving the dot is a push and a pop at the back. */
module Grammars {
  import opened Wrappers
  import opened Text
  import opened LrUtils

  /** The grammar: start symbol, the three declared symbol sets, the
      productions of each left side in file order, the id of each
      (left side, reversed right side) pair and the next free id. */
  datatype Grammar = Grammar(
    begin: Symbol,
    nonterminals: set<Symbol>,
    terminals: set<Symbol>,
    sync: set<Symbol>,
    productions: map<Symbol, seq<Word>>,
    ids: map<(Symbol, Word), nat>,
    nextId: nat)

  const EMPTY_GRAMMAR: Grammar := Grammar("", {}, {}, {}, map[], map[], 0)

  /** std::string's operator[]: index |s| reads the terminating NUL. */
  function CharAt(s: string, i: nat): (c: char)
    requires i <= |s|
    ensures i < |s| ==> c == s[i]
  {
    if i < |s| then s[i] else '\0'
  }

  /** The pieces of s between occurrences of `del`, empty pieces included:
      what the character loops of the reader collect. */
  function Split(s: string, del: char): (ps: seq<string>)
    ensures |ps| >= 1
    ensures forall k :: 0 <= k < |ps| ==> del !in ps[k]
    decreases |s|
  {
    var i := FindChar(s, del);
    if i == |s| then [s] else [s[..i]] + Split(s[i + 1..], del)
  }

  /** Splitting and joining with the delimiter are inverse. */
  lemma {:induction false} SplitJoin(s: string, del: char)
    ensures Join(Split(s, del), [del]) == s
    decreases |s|
  {
    var i := FindChar(s, del);
    if i < |s| {
      var rest := s[i + 1..];
      var ps := Split(rest, del);
      SplitJoin(rest, del);
      assert s == s[..i] + [del] + rest;
      assert ([s[..i]] + ps)[1..] == ps;
    }
  }

  /** A string without the delimiter is one piece. */
  lemma SplitOfPiece(w: string, del: char)
    requires del !in w
    ensures Split(w, del) == [w]
  {
  }

  /** The first nonempty string of ws, or "". */
  function FirstNonEmpty(ws: seq<string>): (f: string)
    ensures f == "" || f in ws
    ensures f != "" ==> exists k :: 0 <= k < |ws| && ws[k] == f && forall j :: 0 <= j < k ==> ws[j] == ""
    ensures f == "" ==> forall k :: 0 <= k < |ws| ==> ws[k] == ""
  {
    if |ws| == 0 then ""
    else if ws[0] != "" then ws[0]
    else
      var f := FirstNonEmpty(ws[1..]);
      assert forall k :: 1 <= k < |ws| ==> ws[k] == ws[1..][k - 1];
      f
  }

  /** readSymbol: the text after the first `removeFirst` characters is cut
      at every space; every piece joins the container, and the result is the
      first nonempty piece that was followed by a space ("" when there is
      only one piece). A line shorter than `removeFirst` makes substr throw
      (None). */
  function ReadSymbol(line: string, container: set<Symbol>, removeFirst: nat): (r: Option<(Symbol, set<Symbol>)>)
    ensures r.None? <==> |line| < removeFirst
    ensures r.Some? ==> var ps := Split(line[removeFirst..], ' ');
      r.value.1 == container + set k | 0 <= k < |ps| :: ps[k]
    ensures r.Some? ==> var ps := Split(line[removeFirst..], ' ');
      r.value.0 == FirstNonEmpty(ps[..|ps| - 1])
  {
    if |line| < removeFirst then None
    else
      var ps := Split(line[removeFirst..], ' ');
      Some((FirstNonEmpty(ps[..|ps| - 1]), container + set k | 0 <= k < |ps| :: ps[k]))
  }

  /** With a single symbol on the line nothing is returned; with several the
      first one is. */
  lemma ReadSymbolFirst(a: Symbol, rest: string, container: set<Symbol>)
    requires |a| > 0 && ' ' !in a
    ensures ReadSymbol("%V " + a, container, 3) == Some(("", container + {a}))
    ensures ReadSymbol("%V " + a + " " + rest, container, 3).Some?
    ensures ReadSymbol("%V " + a + " " + rest, container, 3).value.0 == a
    ensures a in ReadSymbol("%V " + a + " " + rest, container, 3).value.1
  {
    var l1 := "%V " + a;
    assert l1[3..] == a;
    SplitOfPiece(a, ' ');
    var one := [a];
    assert (set k | 0 <= k < |one| :: one[k]) == {a} by {
      assert one[0] == a;
    }
    assert one[..0] == [];
    var l2 := "%V " + a + " " + rest;
    var tail := a + " " + rest;
    assert l2[3..] == tail;
    var i := FindChar(tail, ' ');
    assert tail[|a|] == ' ';
    assert forall j :: 0 <= j < |a| ==> tail[j] == a[j];
    assert i == |a|;
    assert tail[..i] == a;
    var ps := Split(tail, ' ');
    assert ps[0] == a;
    assert |ps| >= 2;
    assert ps[..|ps| - 1][0] == a;
  }

  /** A production line " X Y Z": the pieces after the first character,
      reversed. */
  function ProductionOf(line: string): (w: Word)
    requires |line| >= 1
    ensures Reverse(w) == Split(line[1..], ' ')
  {
    ReverseReverse(Split(line[1..], ' '));
    Reverse(Split(line[1..], ' '))
  }

  /** Adds a production of `left`: appended to the left side's list and
      numbered with the next id. */
  function AddProduction(g: Grammar, left: Symbol, w: Word): (h: Grammar)
    ensures h.productions == g.productions[left := (if left in g.productions then g.productions[left] else []) + [w]]
    ensures h.ids == g.ids[(left, w) := g.nextId] && h.nextId == g.nextId + 1
    ensures h.begin == g.begin && h.nonterminals == g.nonterminals && h.terminals == g.terminals && h.sync == g.sync
  {
    var old_ := if left in g.productions then g.productions[left] else [];
    g.(productions := g.productions[left := old_ + [w]], ids := g.ids[(left, w) := g.nextId], nextId := g.nextId + 1)
  }

  /** One line of the grammar definition, with the left side currently in
      force. "%V" declares the nonterminals (the first one is the start
      symbol), "%T" the terminals, "%Syn" the synchronisation terminals;
      a line starting with '<' makes itself the current left side; a line
      starting with a space is a production of it; anything else is an error
      message and otherwise ignored. None when readSymbol throws. */
  function ReadLine(g: Grammar, current: Symbol, line: string): (r: Option<(Grammar, Symbol)>)
  {
    var c0 := CharAt(line, 0);
    if c0 == '%' then
      var c1 := CharAt(line, 1);
      if c1 == 'V' then
        var (first, ns) :- ReadSymbol(line, g.nonterminals, 3);
        Some((g.(begin := first, nonterminals := ns), current))
      else if c1 == 'T' then
        var (_, ts) :- ReadSymbol(line, g.terminals, 3);
        Some((g.(terminals := ts), current))
      else if line[1..if |line| < 4 then |line| else 4] == "Syn" then
        var (_, ss) :- ReadSymbol(line, g.sync, 5);
        Some((g.(sync := ss), current))
      else Some((g, current))
    else if c0 == '<' then Some((g, line))
    else if c0 == ' ' then Some((AddProduction(g, current, ProductionOf(line)), current))
    else Some((g, current))
  }

  function ReadLines(g: Grammar, current: Symbol, lines: seq<string>): (r: Option<Grammar>)
    decreases |lines|
  {
    if |lines| == 0 then Some(g)
    else
      var (g1, c1) :- ReadLine(g, current, lines[0]);
      ReadLines(g1, c1, lines[1..])
  }

  /** The Grammar constructor: every line in order, starting with no left
      side. */
  function ParseGrammar(lines: seq<string>): (r: Option<Grammar>)
  {
    ReadLines(EMPTY_GRAMMAR, "", lines)
  }

  predicate IsProductionLine(line: string) { |line| > 0 && line[0] == ' ' }

  function ProductionLines(lines: seq<string>): (n: nat)
    ensures n <= |lines|
  {
    if |lines| == 0 then 0
    else (if IsProductionLine(lines[0]) then 1 else 0) + ProductionLines(lines[1..])
  }

  /** Every stored production has an id, and every id lies below the
      counter. */
  predicate Numbered(g: Grammar) {
    (forall k :: k in g.ids ==> g.ids[k] < g.nextId) &&
    (forall x, i :: x in g.productions && 0 <= i < |g.productions[x]| ==> (x, g.productions[x][i]) in g.ids)
  }

  lemma ReadLineNumbered(g: Grammar, current: Symbol, line: string)
    requires Numbered(g)
    requires ReadLine(g, current, line).Some?
    ensures var g1 := ReadLine(g, current, line).value.0;
      Numbered(g1) && g1.nextId == g.nextId + (if IsProductionLine(line) then 1 else 0)
  {
    if IsProductionLine(line) {
      var w := ProductionOf(line);
      var g1 := AddProduction(g, current, w);
      forall x, i | x in g1.productions && 0 <= i < |g1.productions[x]|
        ensures (x, g1.productions[x][i]) in g1.ids
      {
        if x == current && i == |g1.productions[x]| - 1 {
          assert g1.productions[x][i] == w;
        } else if x == current {
          assert g1.productions[x][i] == g.productions[x][i];
        }
      }
    }
  }

  /** Reading the lines numbers the productions consecutively from 0: the
      counter ends at the number of production lines, every stored
      production has an id below it. */
  lemma {:induction false} ReadLinesNumbered(g: Grammar, current: Symbol, lines: seq<string>)
    requires Numbered(g)
    requires ReadLines(g, current, lines).Some?
    ensures Numbered(ReadLines(g, current, lines).value)
    ensures ReadLines(g, current, lines).value.nextId == g.nextId + ProductionLines(lines)
    decreases |lines|
  {
    if |lines| > 0 {
      ReadLineNumbered(g, current, lines[0]);
      var (g1, c1) := ReadLine(g, current, lines[0]).value;
      ReadLinesNumbered(g1, c1, lines[1..]);
    }
  }

  lemma ParseGrammarNumbered(lines: seq<string>)
    requires ParseGrammar(lines).Some?
    ensures Numbered(ParseGrammar(lines).value)
    ensures ParseGrammar(lines).value.nextId == ProductionLines(lines)
  {
    ReadLinesNumbered(EMPTY_GRAMMAR, "", lines);
  }

  /** A production line appends its reversed symbols to the current left
      side and numbers it with the next id. */
  lemma ProductionLineRule(g: Grammar, current: Symbol, symbols: seq<Symbol>)
    requires |symbols| > 0
    requires forall k :: 0 <= k < |symbols| ==> ' ' !in symbols[k]
    ensures var line := " " + Join(symbols, " ");
      var g1 := ReadLine(g, current, line).value.0;
      ReadLine(g, current, line).Some? && ReadLine(g, current, line).value.1 == current &&
      g1.productions[current][|g1.productions[current]| - 1] == Reverse(symbols) &&
      g1.ids[(current, Reverse(symbols))] == g.nextId && g1.nextId == g.nextId + 1
  {
    var line := " " + Join(symbols, " ");
    assert line[1..] == Join(symbols, " ");
    SplitOfJoin(symbols, ' ');
    assert ProductionOf(line) == Reverse(symbols) by {
      ReverseReverse(symbols);
    }
  }

  /** Joining space-free pieces and splitting again gives the pieces back. */
  lemma {:induction false} SplitOfJoin(ps: seq<string>, del: char)
    requires |ps| > 0
    requires forall k :: 0 <= k < |ps| ==> del !in ps[k]
    ensures Split(Join(ps, [del]), del) == ps
    decreases |ps|
  {
    if |ps| == 1 {
      SplitOfPiece(ps[0], del);
    } else {
      var rest := Join(ps[1..], [del]);
      SplitOfJoin(ps[1..], del);
      SplitAt(ps[0], del, rest);
      assert ps == [ps[0]] + ps[1..];
    }
  }

  /** Splitting at the first delimiter, when the text before it has none. */
  lemma SplitAt(a: string, del: char, b: string)
    requires del !in a
    ensures Split(a + [del] + b, del) == [a] + Split(b, del)
  {
    var s := a + [del] + b;
    assert s[..|a|] == a;
    FindCharAt(s, del, |a|);
    assert s[|a| + 1..] == b;
  }

  /** dodajNoviPocetniZnak: the new symbol becomes the start symbol, joins
      the nonterminals and gets the single production [old start]. */
  function AddNewStartSymbol(g: Grammar, s: Symbol): (h: Grammar)
    ensures h.begin == s && h.nonterminals == g.nonterminals + {s}
    ensures h.productions == g.productions[s := [[g.begin]]]
    ensures h.terminals == g.terminals && h.sync == g.sync && h.ids == g.ids && h.nextId == g.nextId
  {
    g.(nonterminals := g.nonterminals + {s}, productions := g.productions[s := [[g.begin]]], begin := s)
  }

  /** Only the productions of the new symbol change. */
  lemma AddNewStartSymbolKeepsOthers(g: Grammar, s: Symbol, x: Symbol)
    requires x != s
    ensures var h := AddNewStartSymbol(g, s);
      (x in h.productions <==> x in g.productions) &&
      (x in g.productions ==> h.productions[x] == g.productions[x])
  {
  }

  // ---------------------------------------------------------------------
  // LR(1) items

  /** An LR(1) item: the left side, the symbols before the dot in order, the
      symbols after the dot reversed, and the lookahead set. */
  datatype Item = Item(left: Symbol, beforeDot: Word, afterDot: Word, lookahead: set<Symbol>)

  /** The item whose dot is at the start of the stored (reversed) right side. */
  function StartItem(left: Symbol, afterDot: Word, lookahead: set<Symbol>): (i: Item)
    ensures i.beforeDot == [] && i.afterDot == afterDot
  {
    Item(left, [], afterDot, lookahead)
  }

  /** The symbol right of the dot, or the end marker when there is none. */
  function SymbolAfterDot(i: Item): (s: Symbol)
    ensures i.afterDot != [] ==> s == i.afterDot[|i.afterDot| - 1]
    ensures i.afterDot == [] ==> s == END_SYM
  {
    if i.afterDot == [] then END_SYM else i.afterDot[|i.afterDot| - 1]
  }

  predicate IsComplete(i: Item) { SymbolAfterDot(i) == END_SYM }

  /** shift_dot_r: the dot moves over the next symbol. */
  function ShiftDotR(i: Item): (j: Item)
    requires i.afterDot != []
    ensures j.beforeDot == i.beforeDot + [SymbolAfterDot(i)]
    ensures j.afterDot == i.afterDot[..|i.afterDot| - 1]
    ensures j.left == i.left && j.lookahead == i.lookahead
  {
    i.(beforeDot := i.beforeDot + [i.afterDot[|i.afterDot| - 1]], afterDot := i.afterDot[..|i.afterDot| - 1])
  }

  /** shift_dot_l: the dot moves back over the previous symbol. */
  function ShiftDotL(i: Item): (j: Item)
    requires i.beforeDot != []
    ensures j.afterDot == i.afterDot + [i.beforeDot[|i.beforeDot| - 1]]
    ensures j.beforeDot == i.beforeDot[..|i.beforeDot| - 1]
    ensures j.left == i.left && j.lookahead == i.lookahead
  {
    i.(afterDot := i.afterDot + [i.beforeDot[|i.beforeDot| - 1]], beforeDot := i.beforeDot[..|i.beforeDot| - 1])
  }

  /** Moving the dot right and back restores the item, and so does moving it
      left and forward again. */
  lemma ShiftDotRoundTrip(i: Item)
    ensures i.afterDot != [] ==> ShiftDotL(ShiftDotR(i)) == i
    ensures i.beforeDot != [] ==> ShiftDotR(ShiftDotL(i)) == i
  {
    if i.afterDot != [] {
      assert ShiftDotL(ShiftDotR(i)).afterDot == i.afterDot;
    }
    if i.beforeDot != [] {
      assert ShiftDotR(ShiftDotL(i)).beforeDot == i.beforeDot;
    }
  }

  /** Moving the dot keeps the right side: the symbols before the dot
      followed by the remaining ones in order are unchanged. */
  lemma ShiftDotKeepsRightSide(i: Item)
    requires i.afterDot != []
    ensures ShiftDotR(i).beforeDot + Reverse(ShiftDotR(i).afterDot) == i.beforeDot + Reverse(i.afterDot)
  {
    var a := i.afterDot;
    assert Reverse(a) == [a[|a| - 1]] + Reverse(a[..|a| - 1]);
  }

  /** An item is complete exactly when nothing is right of the dot, or the
      next symbol is the end marker itself. */
  lemma CompleteItems(i: Item)
    ensures IsComplete(i) <==> i.afterDot == [] || i.afterDot[|i.afterDot| - 1] == END_SYM
  {
  }

  /** Moving the dot over every symbol of the right side completes the
      item. */
  function ShiftAll(i: Item): (j: Item)
    ensures IsComplete(j) && j.afterDot == []
    ensures j.beforeDot == i.beforeDot + Reverse(i.afterDot)
    decreases |i.afterDot|
  {
    if i.afterDot == [] then i
    else
      var a := i.afterDot;
      assert Reverse(a) == [a[|a| - 1]] + Reverse(a[..|a| - 1]);
      ShiftAll(ShiftDotR(i))
  }
}
