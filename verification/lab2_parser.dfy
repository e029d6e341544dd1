/** The table-driven LR(1) parser: the reader of the generated table file
    (sync symbols, numbered productions, the action table and the goto
    table) and the shift/reduce loop with sync-symbol error recovery that
    builds the generative tree. std::string positions are size_t values, so
    std::string::npos arithmetic wraps modulo 2^64 exactly as in C++; a
    std::out_of_range or std::invalid_argument from substr or stoi is None. */
module LrParser {
  import opened Wrappers
  import opened Text
  import opened LrUtils
  import Grammars

  // ---------------------------------------------------------------------
  // size_t string positions
  // ---------------------------------------------------------------------

  const SIZE_T_MOD: nat := 0x1_0000_0000_0000_0000
  /** std::string::npos, the largest size_t. */
  const NPOS: nat := 0xFFFF_FFFF_FFFF_FFFF

  /** An int expression converted to size_t. */
  function SizeT(x: int): (r: nat)
    ensures r < SIZE_T_MOD
    ensures 0 <= x < SIZE_T_MOD ==> r == x
  {
    x % SIZE_T_MOD
  }

  /** s.find(c, from): the first position at or after `from` holding c, or
      npos. */
  function Find(s: string, c: char, from: nat): (r: nat)
    ensures r == NPOS || (from <= r < |s| && s[r] == c)
    ensures forall j :: from <= j < |s| && j < r ==> s[j] != c
  {
    if from >= |s| then NPOS
    else
      var k := FindChar(s[from..], c);
      assert forall j :: from <= j < from + k ==> s[j] != c by {
        forall j | from <= j < from + k
          ensures s[j] != c
        {
          assert s[from..][j - from] == s[j];
        }
      }
      if k == |s| - from then NPOS else from + k
  }

  /** s.find("->"). */
  function FindArrow(s: string, from: nat): (r: nat)
    ensures r == NPOS || (from <= r && r + 1 < |s| && s[r] == '-' && s[r + 1] == '>')
    decreases |s| - from
  {
    if from + 1 >= |s| then NPOS
    else if s[from] == '-' && s[from + 1] == '>' then from
    else FindArrow(s, from + 1)
  }

  /** s.substr(pos, count): throws when pos is past the end; the count is
      cut at the end of the string. */
  function Substr(s: string, pos: nat, count: nat): (r: Option<string>)
    ensures r.None? <==> pos > |s|
    ensures r.Some? ==> |r.value| <= count && |r.value| <= |s| - pos
    ensures r.Some? ==> r.value == s[pos..pos + |r.value|]
    ensures r.Some? && count >= |s| - pos ==> r.value == s[pos..]
  {
    if pos > |s| then None
    else if count >= |s| - pos then Some(s[pos..])
    else Some(s[pos..pos + count])
  }

  // ---------------------------------------------------------------------
  // The table file
  // ---------------------------------------------------------------------

  /** An action: its name (POMAKNI, REDUCIRAJ, PRIHVATI, STAVI) and its
      argument. */
  type Action = (string, int)

  datatype Table = Table(
    action: map<(int, Symbol), Action>,
    goto_: map<(int, Symbol), Action>,
    sync: set<Symbol>,
    productions: map<int, (Symbol, Word)>)

  /** The action part of an AKCIJA line: a name alone gets the argument -1
      (the accept action has none), otherwise the name and the number after
      the first space. */
  function ParseAction(a: string): (r: Option<Action>)
    ensures ' ' !in a ==> r == Some((a, -1))
  {
    var fs := Find(a, ' ', 0);
    if fs == NPOS then Some((a, -1))
    else
      var name := a[..fs];
      var arg := a[fs + 1..];
      match Stoi(arg)
      case None => None
      case Some(v) => Some((name, v))
  }

  /** The action part of a NOVO STANJE line: always a name and a number;
      without a space the npos+1 wrap makes the whole string the number. */
  function ParseGoto(a: string): (r: Option<Action>)
    ensures ' ' !in a ==> r == (if Stoi(a).Some? then Some((a, Stoi(a).value)) else None)
  {
    var fs := Find(a, ' ', 0);
    // without a space, substr(npos + 1) wraps to substr(0)
    var arg := if fs == NPOS then a else a[fs + 1..];
    var name := if fs == NPOS then a else a[..fs];
    match Stoi(arg)
    case None => None
    case Some(v) => Some((name, v))
  }

  /** An action with an argument: the name before the first space and the
      number after it; a number stoi rejects throws. */
  lemma ActionWithArgument(name: string, arg: string)
    requires ' ' !in name && |name| + |arg| < NPOS
    ensures ParseAction(name + " " + arg) == (if Stoi(arg).Some? then Some((name, Stoi(arg).value)) else None)
    ensures ParseGoto(name + " " + arg) == (if Stoi(arg).Some? then Some((name, Stoi(arg).value)) else None)
  {
    var a := name + " " + arg;
    FindAt(a, ' ', 0, |name|);
    assert a[..|name|] == name && a[|name| + 1..] == arg;
  }

  /** The three pieces of a "state symbol action" line: the text before
      the first space, the text between the first and the second space, and
      the rest. With a missing space the npos arithmetic wraps; a start past
      the end throws. */
  function LinePieces(line: string): (r: Option<(string, string, string)>)
  {
    var fs := Find(line, ' ', 0);
    var ss := Find(line, ' ', SizeT(fs + 1));
    var head := Substr(line, 0, fs).value;
    match (Substr(line, SizeT(fs + 1), SizeT(ss - fs - 1)), Substr(line, SizeT(ss + 1), NPOS))
    case (Some(sym), Some(rest)) => Some((head, sym, rest))
    case _ => None
  }

  lemma LinePiecesOf(a: string, b: string, c: string)
    requires ' ' !in a && ' ' !in b && |a| + |b| + |c| + 2 < NPOS
    ensures LinePieces(a + " " + b + " " + c) == Some((a, b, c))
  {
    var line := a + " " + b + " " + c;
    assert forall j :: 0 <= j < |a| ==> line[j] == a[j];
    FindAt(line, ' ', 0, |a|);
    assert forall j :: |a| + 1 <= j < |a| + 1 + |b| ==> line[j] == b[j - |a| - 1];
    FindAt(line, ' ', |a| + 1, |a| + 1 + |b|);
    assert line[..|a|] == a;
    assert line[|a| + 1..|a| + 1 + |b|] == b;
    assert line[|a| + |b| + 2..] == c;
  }

  /** A line "state symbol action": the state before the first space, the
      symbol up to the second, the action after it. */
  function ParseTableLine(line: string, isGoto: bool): (r: Option<((int, Symbol), Action)>)
  {
    match LinePieces(line)
    case None => None
    case Some((head, sym, rest)) =>
      match (Stoi(head), if isGoto then ParseGoto(rest) else ParseAction(rest))
      case (Some(st), Some(act)) => Some(((st, sym), act))
      case _ => None
  }

  /** A line written the way the generator writes it is read back. */
  lemma ParseTableLineOf(st: int, sym: Symbol, act: string, isGoto: bool)
    requires InInt32(st) && ' ' !in sym && |sym| + |act| + 16 < NPOS
    ensures var line := IntToDecimal(st) + " " + sym + " " + act;
      ParseTableLine(line, isGoto) ==
        (var a := if isGoto then ParseGoto(act) else ParseAction(act);
         if a.Some? then Some(((st, sym), a.value)) else None)
  {
    IntToDecimalNoSpace(st);
    DecimalLength(st);
    LinePiecesOf(IntToDecimal(st), sym, act);
    LeadingIntegerOfDecimal(st);
  }

  /** The decimal spelling of an int has at most 11 characters. */
  lemma DecimalLength(i: int)
    requires InInt32(i)
    ensures |IntToDecimal(i)| <= 11
  {
    var m: nat := if i < 0 then -i else i;
    assert Pow10(10) == 10000000000;
    NatDecimalLength(m, 10);
  }

  lemma {:induction false} NatDecimalLength(n: nat, k: nat)
    requires n < Pow10(k)
    ensures |NatToDecimal(n)| <= if k == 0 then 1 else k
    decreases k
  {
    if n >= 10 {
      NatDecimalLength(n / 10, k - 1);
    }
  }

  lemma IntToDecimalNoSpace(i: int)
    ensures ' ' !in IntToDecimal(i)
  {
    var s := IntToDecimal(i);
    if ' ' in s {
      var j :| 0 <= j < |s| && s[j] == ' ';
      DecimalCharsNotSpace(i, j);
    }
  }

  lemma DecimalCharsNotSpace(i: int, j: nat)
    requires j < |IntToDecimal(i)|
    ensures IntToDecimal(i)[j] != ' '
  {
    DecimalDigitsOrSign(i);
  }

  lemma DecimalDigitsOrSign(i: int)
    ensures forall j :: 0 <= j < |IntToDecimal(i)| ==> IntToDecimal(i)[j] == '-' || IsDigit(IntToDecimal(i)[j])
  {
    if i < 0 {
      assert forall j :: 1 <= j < |IntToDecimal(i)| ==> IntToDecimal(i)[j] == NatToDecimal(-i)[j - 1];
    }
  }

  lemma FindAt(s: string, c: char, from: nat, k: nat)
    requires from <= k < |s| && s[k] == c && forall j :: from <= j < k ==> s[j] != c
    ensures Find(s, c, from) == k
  {
  }

  lemma FindCharAt(s: string, c: char, k: nat)
    requires k < |s| && s[k] == c && forall j :: 0 <= j < k ==> s[j] != c
    ensures FindChar(s, c) == k
  {
  }

  /** The right side of a production line: the loop that takes the text up
      to the next space as a token, keeps it when it is not empty, and goes
      on after the space; written on the text that remains. */
  function Tokens(t: string): (w: Word)
    ensures forall k :: 0 <= k < |w| ==> w[k] != "" && ' ' !in w[k]
    decreases |t|
  {
    if t == [] then []
    else
      var i := FindChar(t, ' ');
      if i == |t| then [t]
      else (if i > 0 then [t[..i]] else []) + Tokens(t[i + 1..])
  }

  /** The nonempty pieces of a list of strings, in order. */
  function NonEmpty(ps: seq<string>): (r: seq<string>)
  {
    if ps == [] then [] else (if ps[0] != "" then [ps[0]] else []) + NonEmpty(ps[1..])
  }

  /** The token loop is splitting at every space and dropping the empty
      pieces. */
  lemma {:induction false} TokensAreSplit(t: string)
    ensures Tokens(t) == NonEmpty(Grammars.Split(t, ' '))
    decreases |t|
  {
    var i := FindChar(t, ' ');
    var ps := Grammars.Split(t, ' ');
    if i == |t| {
      assert ps == [t];
      assert NonEmpty(ps) == (if t != "" then [t] else []) + NonEmpty([]);
    } else {
      TokensAreSplit(t[i + 1..]);
      assert ps == [t[..i]] + Grammars.Split(t[i + 1..], ' ');
      assert NonEmpty(ps) == (if t[..i] != "" then [t[..i]] else []) + NonEmpty(ps[1..]);
    }
  }

  /** A GRAMMAR_PRODUCTIONS line "id left -> right side". */
  function ParseProductionLine(line: string): (r: Option<(int, (Symbol, Word))>)
  {
    var sp := Find(line, ' ', 0);
    var id :- Stoi(Substr(line, 0, sp).value);
    var arrow := FindArrow(line, 0);
    var left :- Substr(line, SizeT(sp + 1), SizeT(arrow - sp - 2));
    var rs :- Substr(line, SizeT(arrow + 3), NPOS);
    Some((id, (left, Tokens(rs))))
  }

  /** The lines of one section: up to the first empty line, which is read
      and dropped; the next position is after it. */
  function Section(lines: seq<string>, pos: nat): (r: (seq<string>, nat))
    requires pos <= |lines|
    ensures pos <= r.1 <= |lines| && |r.0| <= r.1 - pos
    ensures r.0 == lines[pos..pos + |r.0|] && forall k :: 0 <= k < |r.0| ==> r.0[k] != ""
    ensures pos + |r.0| < |lines| ==> lines[pos + |r.0|] == "" && r.1 == pos + |r.0| + 1
    ensures pos + |r.0| == |lines| ==> r.1 == |lines|
    decreases |lines| - pos
  {
    if pos == |lines| then ([], pos)
    else if lines[pos] == "" then ([], pos + 1)
    else
      var (rest, next) := Section(lines, pos + 1);
      ([lines[pos]] + rest, next)
  }

  /** A header line is read and ignored (nothing when the input ended). */
  function SkipHeader(lines: seq<string>, pos: nat): (r: nat)
    requires pos <= |lines|
    ensures r <= |lines| && (pos < |lines| ==> r == pos + 1) && (pos == |lines| ==> r == pos)
  {
    if pos < |lines| then pos + 1 else pos
  }

  /** Enters the lines into a map; a later line for the same key wins. */
  function EnterLines<K, V>(m: map<K, V>, ls: seq<string>, parse: string -> Option<(K, V)>): (r: Option<map<K, V>>)
    ensures r.Some? ==> forall k :: k in m ==> k in r.value
    ensures r.Some? ==> forall k :: 0 <= k < |ls| ==> parse(ls[k]).Some?
    decreases |ls|
  {
    if ls == [] then Some(m)
    else
      var kv :- parse(ls[0]);
      EnterLines(m[kv.0 := kv.1], ls[1..], parse)
  }

  /** Each line of a section is entered, and the last line for a key
      decides its value. */
  lemma {:induction false} EnterLinesLast<K, V>(m: map<K, V>, ls: seq<string>, parse: string -> Option<(K, V)>, j: nat)
    requires EnterLines(m, ls, parse).Some? && j < |ls|
    requires forall k :: j < k < |ls| ==> parse(ls[k]).value.0 != parse(ls[j]).value.0
    ensures var kv := parse(ls[j]).value;
      kv.0 in EnterLines(m, ls, parse).value && EnterLines(m, ls, parse).value[kv.0] == kv.1
    decreases |ls|
  {
    var kv := parse(ls[0]).value;
    var m1 := m[kv.0 := kv.1];
    if j == 0 {
      EnterLinesKeeps(m1, ls[1..], parse, kv.0);
    } else {
      assert forall k :: j - 1 < k < |ls[1..]| ==> ls[1..][k] == ls[k + 1];
      EnterLinesLast(m1, ls[1..], parse, j - 1);
    }
  }

  lemma {:induction false} EnterLinesKeeps<K, V>(m: map<K, V>, ls: seq<string>, parse: string -> Option<(K, V)>, key: K)
    requires EnterLines(m, ls, parse).Some? && key in m
    requires forall k :: 0 <= k < |ls| ==> parse(ls[k]).value.0 != key
    ensures EnterLines(m, ls, parse).value[key] == m[key]
    decreases |ls|
  {
    if ls != [] {
      var kv := parse(ls[0]).value;
      assert forall k :: 0 <= k < |ls[1..]| ==> ls[1..][k] == ls[k + 1];
      EnterLinesKeeps(m[kv.0 := kv.1], ls[1..], parse, key);
    }
  }

  /** The table file: four sections, each after a header line; None when a
      line throws. */
  function ReadTable(lines: seq<string>): (r: Option<Table>)
  {
    var (syncLines, p1) := Section(lines, SkipHeader(lines, 0));
    var (prodLines, p2) := Section(lines, SkipHeader(lines, p1));
    var (actionLines, p3) := Section(lines, SkipHeader(lines, p2));
    var (gotoLines, _) := Section(lines, SkipHeader(lines, p3));
    var prods :- EnterLines(map[], prodLines, ParseProductionLine);
    var action :- EnterLines(map[], actionLines, l => ParseTableLine(l, false));
    var goto_ :- EnterLines(map[], gotoLines, l => ParseTableLine(l, true));
    Some(Table(action, goto_, (set l | l in syncLines :: l), prods))
  }

  /** An action line without an argument is the accept action, stored with
      the value -1. */
  lemma AcceptLineValue(st: int, sym: Symbol, act: string)
    requires InInt32(st) && ' ' !in sym && ' ' !in act && |sym| + |act| + 16 < NPOS
    ensures ParseTableLine(IntToDecimal(st) + " " + sym + " " + act, false) == Some(((st, sym), (act, -1)))
  {
    ParseTableLineOf(st, sym, act, false);
  }

  // ---------------------------------------------------------------------
  // The parser
  // ---------------------------------------------------------------------

  /** A tree node: a state node has a state number and an empty symbol; a
      symbol node has state -1, the grammar symbol, and for a leaf the input
      line it was read from. */
  datatype Node = Node(symbol: Symbol, state: int, children: seq<Node>, content: string)

  function StateNode(st: int): (n: Node)
    ensures n.state == st && n.symbol == "" && n.children == []
  {
    Node("", st, [], "")
  }

  function SymbolNode(sym: Symbol, content: string): (n: Node)
    ensures n.state == -1 && n.symbol == sym && n.children == [] && n.content == content
  {
    Node(sym, -1, [], content)
  }

  /** The stack (top at the end), the position in the input and the node
      of the most recent reduction. */
  datatype Config = Config(stack: seq<Node>, pos: nat, root: Option<Node>)

  /** The end: the node returned (None when the source returns null), an exception
      (a reduction by an unknown production), or the fuel ran out. */
  datatype Outcome = Returned(root: Option<Node>) | Thrown | OutOfFuel

  datatype Step = Continue(next: Config) | Stop(outcome: Outcome)

  /** The input lines with the end marker line appended. */
  function ParserInput(lines: seq<string>): (r: seq<string>)
    ensures |r| == |lines| + 1 && r[..|lines|] == lines && r[|lines|] == END_SYM
  {
    lines + [END_SYM]
  }

  /** The appended line reads as the end marker. */
  lemma EndMarkerLine()
    ensures Field(END_SYM, 0) == END_SYM
  {
    var s := END_SYM;
    assert |s| > 0 && NoSpace(s);
    FieldsOne(s);
  }

  /** Sync recovery: pop until the top has an action on the symbol. */
  function Recover(tb: Table, stack: seq<Node>, sym: Symbol): (r: Option<seq<Node>>)
    ensures r.Some? ==> r.value != [] && r.value <= stack && (r.value[|r.value| - 1].state, sym) in tb.action
    ensures r.Some? ==> forall k :: |r.value| <= k < |stack| ==> (stack[k].state, sym) !in tb.action
    ensures r.None? <==> forall k :: 0 <= k < |stack| ==> (stack[k].state, sym) !in tb.action
    decreases |stack|
  {
    if stack == [] then None
    else if (stack[|stack| - 1].state, sym) in tb.action then Some(stack)
    else
      var r := Recover(tb, stack[..|stack| - 1], sym);
      assert forall k :: 0 <= k < |stack| - 1 ==> stack[..|stack| - 1][k] == stack[k];
      r
  }

  /** The pops of a reduction by a right side of n symbols: each round
      needs two entries, drops the state and takes the symbol node as the
      new first child. None on underflow. */
  function PopChildren(stack: seq<Node>, n: nat, children: seq<Node>): (r: Option<(seq<Node>, seq<Node>)>)
    decreases n
  {
    if n == 0 then Some((stack, children))
    else if |stack| < 2 then None
    else PopChildren(stack[..|stack| - 2], n - 1, [stack[|stack| - 2]] + children)
  }

  /** Popping n pairs succeeds exactly when there are 2n entries, removes
      them, and lists the symbol nodes bottom to top. */
  lemma {:induction false} PopChildrenSpec(stack: seq<Node>, n: nat, children: seq<Node>)
    ensures PopChildren(stack, n, children).Some? <==> |stack| >= 2 * n
    ensures |stack| >= 2 * n ==> var (s, c) := PopChildren(stack, n, children).value;
      s == stack[..|stack| - 2 * n] && |c| == n + |children| && c[n..] == children &&
      forall k :: 0 <= k < n ==> c[k] == stack[|stack| - 2 * n + 2 * k]
    decreases n
  {
    if n > 0 && |stack| >= 2 {
      var s1 := stack[..|stack| - 2];
      var c1 := [stack[|stack| - 2]] + children;
      PopChildrenSpec(s1, n - 1, c1);
      if |stack| >= 2 * n {
        var (s, c) := PopChildren(s1, n - 1, c1).value;
        assert s1[..|s1| - 2 * (n - 1)] == stack[..|stack| - 2 * n];
        forall k | 0 <= k < n
          ensures c[k] == stack[|stack| - 2 * n + 2 * k]
        {
          if k == n - 1 {
            assert c[n - 1] == c1[0];
          } else {
            assert c[k] == s1[|s1| - 2 * (n - 1) + 2 * k];
          }
        }
        assert c[n..] == c[n - 1..][1..];
      }
    }
  }

  /** A reduction by production id: the new node, the pops, the goto. */
  function Reduce(tb: Table, c: Config, id: int): (r: Step)
  {
    if id !in tb.productions then Stop(Thrown)
    else
      var (left, right) := tb.productions[id];
      match PopChildren(c.stack, |right|, [])
      case None => Stop(Returned(None))
      case Some((stack, children)) =>
        var node := Node(left, -1, children, "");
        if stack == [] then Stop(Returned(None))
        else if (stack[|stack| - 1].state, left) !in tb.goto_ then Stop(Returned(None))
        else
          var g := tb.goto_[(stack[|stack| - 1].state, left)];
          var stack' := if g.0 == "STAVI" then stack + [node, StateNode(g.1)] else stack;
          Continue(Config(stack', c.pos, Some(node)))
  }

  /** One round of the parsing loop on the current line and its first
      word. */
  function StepOn(tb: Table, c: Config, line: string, sym: Symbol): (r: Step)
  {
    if c.stack == [] then Stop(Returned(None))
    else
      var top := c.stack[|c.stack| - 1];
      if (top.state, sym) !in tb.action then
        if sym in tb.sync then
          match Recover(tb, c.stack, sym)
          case None => Stop(Returned(None))
          case Some(stack) => Continue(c.(stack := stack))
        else Continue(c.(pos := c.pos + 1))
      else
        var (name, value) := tb.action[(top.state, sym)];
        if name == "POMAKNI" then
          Continue(Config(c.stack + [SymbolNode(sym, line), StateNode(value)], c.pos + 1, c.root))
        else if name == "REDUCIRAJ" then Reduce(tb, c, value)
        else if name == "PRIHVATI" then Stop(Returned(c.root))
        else Stop(Returned(None))
  }

  function StepOf(tb: Table, input: seq<string>, c: Config): (r: Step)
    requires c.pos < |input|
  {
    StepOn(tb, c, input[c.pos], Field(input[c.pos], 0))
  }

  /** The loop, at most fuel rounds; the end of the input returns the last
      reduced node. */
  function Run(tb: Table, input: seq<string>, c: Config, fuel: nat): (r: Outcome)
    decreases fuel
  {
    if c.pos >= |input| then Returned(c.root)
    else if fuel == 0 then OutOfFuel
    else match StepOf(tb, input, c)
      case Stop(o) => o
      case Continue(c') => Run(tb, input, c', fuel - 1)
  }

  /** The parser: the stack holds state 0, the input gets the end marker. */
  function Parse(tb: Table, lines: seq<string>, fuel: nat): (r: Outcome)
  {
    Run(tb, ParserInput(lines), Config([StateNode(0)], 0, None), fuel)
  }

  // ---------------------------------------------------------------------
  // The printed tree

  /** depth spaces. */
  function Indent(depth: nat): (s: string)
    ensures |s| == depth && forall j :: 0 <= j < depth ==> s[j] == ' '
  {
    seq(depth, _ => ' ')
  }

  /** The line starts with at least depth spaces. */
  predicate IndentedBy(line: string, depth: nat) {
    depth <= |line| && forall j :: 0 <= j < depth ==> line[j] == ' '
  }

  /** printFromRoot: the node's own line, depth spaces and then its content
      when it has no children (isTerminal) or its symbol otherwise, followed
      by each child's lines one deeper, first child first. */
  function PrintFromRoot(n: Node, depth: nat): (r: seq<string>)
    ensures |r| >= 1 && r[0] == Indent(depth) + (if n.children == [] then n.content else n.symbol)
    ensures n.children == [] <==> |r| == 1
    ensures forall i :: 0 <= i < |r| ==> IndentedBy(r[i], depth)
    ensures forall i :: 1 <= i < |r| ==> IndentedBy(r[i], depth + 1)
    decreases n, 1
  {
    [Indent(depth) + (if n.children == [] then n.content else n.symbol)] + PrintChildren(n, |n.children|, depth + 1)
  }

  /** The lines of the first k children of n, each printed at depth. */
  function PrintChildren(n: Node, k: nat, depth: nat): (r: seq<string>)
    requires k <= |n.children|
    ensures |r| >= k
    ensures forall i :: 0 <= i < |r| ==> IndentedBy(r[i], depth)
    decreases n, 0, k
  {
    if k == 0 then [] else PrintChildren(n, k - 1, depth) + PrintFromRoot(n.children[k - 1], depth)
  }

  /** The program's output: nothing for a null root, the printed tree
      otherwise. */
  function PrintTree(root: Option<Node>): (r: seq<string>)
    ensures root.None? <==> r == []
    ensures root.Some? ==> r[0] == (if root.value.children == [] then root.value.content else root.value.symbol)
  {
    match root
    case None => []
    case Some(n) => PrintFromRoot(n, 0)
  }

  /** A leaf read from the input prints as its input line. */
  lemma LeafPrintsLine(sym: Symbol, line: string, depth: nat)
    ensures PrintFromRoot(SymbolNode(sym, line), depth) == [Indent(depth) + line]
  {
  }

  /** A node reduced by a production with an empty right side has no
      children, so isTerminal holds and its empty content is printed: the
      line holds only spaces and the non-terminal's name is lost. */
  lemma EmptyReductionPrintsBlank(left: Symbol, depth: nat)
    ensures PrintFromRoot(Node(left, -1, [], ""), depth) == [Indent(depth)]
  {
    assert Indent(depth) + "" == Indent(depth);
  }

  // ---------------------------------------------------------------------
  // Properties of one round
  // ---------------------------------------------------------------------

  /** A shift pushes the symbol node and then the state node and consumes
      one input line. */
  lemma ShiftStep(tb: Table, c: Config, line: string, sym: Symbol)
    requires c.stack != [] && (c.stack[|c.stack| - 1].state, sym) in tb.action
    requires tb.action[(c.stack[|c.stack| - 1].state, sym)].0 == "POMAKNI"
    ensures var value := tb.action[(c.stack[|c.stack| - 1].state, sym)].1;
      StepOn(tb, c, line, sym) == Continue(Config(c.stack + [SymbolNode(sym, line), StateNode(value)], c.pos + 1, c.root))
  {
  }

  /** A reduction by a production with right side `right` that finds 2|right|
      entries above a state with a STAVI goto replaces them by the new node,
      whose children are the popped symbol nodes bottom to top, and the goto
      state; the input is not consumed and the new node becomes the root. */
  lemma ReduceStep(tb: Table, c: Config, id: int)
    requires id in tb.productions
    requires var n := |tb.productions[id].1|; |c.stack| > 2 * n
    requires var n := |tb.productions[id].1|;
      var below := c.stack[|c.stack| - 2 * n - 1];
      (below.state, tb.productions[id].0) in tb.goto_ &&
      tb.goto_[(below.state, tb.productions[id].0)].0 == "STAVI"
    ensures var (left, right) := tb.productions[id];
      var n := |right|;
      var rest := c.stack[..|c.stack| - 2 * n];
      Reduce(tb, c, id).Continue? &&
      var c' := Reduce(tb, c, id).next;
      c'.pos == c.pos && c'.root.Some? && c'.root.value.symbol == left &&
      |c'.root.value.children| == n &&
      (forall k :: 0 <= k < n ==> c'.root.value.children[k] == c.stack[|c.stack| - 2 * n + 2 * k]) &&
      c'.stack == rest + [c'.root.value, StateNode(tb.goto_[(rest[|rest| - 1].state, left)].1)]
  {
    PopChildrenSpec(c.stack, |tb.productions[id].1|, []);
  }

  /** A reduction fails with the null result exactly on underflow, on an
      empty stack after the pops, or on a missing goto; an unknown
      production throws. */
  lemma ReduceFails(tb: Table, c: Config, id: int)
    ensures id !in tb.productions ==> Reduce(tb, c, id) == Stop(Thrown)
    ensures id in tb.productions ==> var (left, right) := tb.productions[id];
      var n := |right|;
      (Reduce(tb, c, id) == Stop(Returned(None)) <==>
        |c.stack| <= 2 * n ||
        (c.stack[|c.stack| - 2 * n - 1].state, left) !in tb.goto_)
  {
    if id in tb.productions {
      PopChildrenSpec(c.stack, |tb.productions[id].1|, []);
    }
  }

  /** With no action for a sync symbol the stack is cut back to the
      nearest entry that has one, and the symbol is read again; the null
      result comes exactly when no entry has one. */
  lemma SyncRecovery(tb: Table, c: Config, line: string, sym: Symbol)
    requires c.stack != [] && (c.stack[|c.stack| - 1].state, sym) !in tb.action && sym in tb.sync
    ensures var r := StepOn(tb, c, line, sym);
      (r == Stop(Returned(None)) <==> forall k :: 0 <= k < |c.stack| ==> (c.stack[k].state, sym) !in tb.action) &&
      (r.Continue? ==> (r.next.pos == c.pos && r.next.root == c.root && r.next.stack <= c.stack &&
        r.next.stack != [] && (r.next.stack[|r.next.stack| - 1].state, sym) in tb.action))
  {
  }

  /** A symbol with no action that is not a sync symbol is skipped. */
  lemma SkipStep(tb: Table, c: Config, line: string, sym: Symbol)
    requires c.stack != [] && (c.stack[|c.stack| - 1].state, sym) !in tb.action && sym !in tb.sync
    ensures StepOn(tb, c, line, sym) == Continue(c.(pos := c.pos + 1))
  {
  }

  /** Acceptance returns the node of the most recent reduction. */
  lemma AcceptStep(tb: Table, c: Config, line: string, sym: Symbol)
    requires c.stack != [] && (c.stack[|c.stack| - 1].state, sym) in tb.action
    requires tb.action[(c.stack[|c.stack| - 1].state, sym)].0 == "PRIHVATI"
    ensures StepOn(tb, c, line, sym) == Stop(Returned(c.root))
  {
  }

  // ---------------------------------------------------------------------
  // The stack shape
  // ---------------------------------------------------------------------

  /** States and symbols alternate: odd length, and every odd position a
      symbol node (state -1). */
  ghost predicate Shape(stack: seq<Node>) {
    |stack| % 2 == 1 && forall k :: 0 <= k < |stack| && k % 2 == 1 ==> stack[k].state == -1
  }

  /** A table the generator writes: no action is keyed on state -1. */
  ghost predicate NoSymbolKeys(tb: Table) {
    forall key :: key in tb.action ==> key.0 != -1
  }

  /** Every round keeps the alternation of states and symbols, so the
      stack is never empty at the top of the loop, and recovery only stops
      at a state. */
  lemma {:induction false} StepKeepsShape(tb: Table, c: Config, line: string, sym: Symbol)
    requires NoSymbolKeys(tb) && Shape(c.stack)
    ensures c.stack != []
    ensures StepOn(tb, c, line, sym).Continue? ==> Shape(StepOn(tb, c, line, sym).next.stack)
  {
    var top := c.stack[|c.stack| - 1];
    if (top.state, sym) !in tb.action {
      if sym in tb.sync {
        RecoverKeepsShape(tb, c.stack, sym);
      }
    } else {
      var (name, value) := tb.action[(top.state, sym)];
      if name == "REDUCIRAJ" {
        ReduceKeepsShape(tb, c, value);
      } else if name == "POMAKNI" {
        ShiftKeepsShape(c.stack, SymbolNode(sym, line), StateNode(value));
      }
    }
  }

  lemma RecoverKeepsShape(tb: Table, stack: seq<Node>, sym: Symbol)
    requires NoSymbolKeys(tb) && Shape(stack)
    ensures Recover(tb, stack, sym).Some? ==> Shape(Recover(tb, stack, sym).value)
  {
    var r := Recover(tb, stack, sym);
    if r.Some? {
      var s := r.value;
      assert s[|s| - 1] == stack[|s| - 1];
    }
  }

  lemma ShiftKeepsShape(stack: seq<Node>, a: Node, b: Node)
    requires Shape(stack) && a.state == -1
    ensures Shape(stack + [a, b])
  {
  }

  lemma ReduceKeepsShape(tb: Table, c: Config, id: int)
    requires Shape(c.stack)
    ensures Reduce(tb, c, id).Continue? ==> Shape(Reduce(tb, c, id).next.stack)
  {
    if id in tb.productions {
      var n := |tb.productions[id].1|;
      PopChildrenSpec(c.stack, n, []);
      if |c.stack| >= 2 * n {
        var rest := c.stack[..|c.stack| - 2 * n];
        assert Shape(rest);
      }
    }
  }
}
