/** The generative parse tree read by the semantic checker and the code
    generator, and the indentation-based reader that builds it.

    Each input line is one node: its depth is its count of leading spaces,
    a line starting with '<' is a non-terminal, anything else is a terminal
    line "TOKEN line lexeme". The reader keeps a stack of open non-terminals
    with their indentation; a new line first closes every open node whose
    indentation is not below its own. */
module Tree {
  import opened Wrappers
  import opened Text
  import opened LrUtils

  datatype Node = Node(symbol: string, lineNumber: string, lexicalUnit: string,
                       content: string, children: seq<Node>)

  /** The node constructor: with nonempty content the node is a terminal
      whose symbol, line number and lexical unit are the first three
      space-separated words of the content; otherwise `symbol` is kept. */
  function MakeNode(symbol: string, content: string): (n: Node)
    ensures n.children == [] && n.content == content
    ensures content == "" ==> n.symbol == symbol && n.lineNumber == "" && n.lexicalUnit == ""
  {
    if content == "" then Node(symbol, "", "", "", [])
    else
      var (w1, r1) := ConsumeNextWord(content, ' ');
      var (w2, r2) := ConsumeNextWord(r1, ' ');
      var (w3, _) := ConsumeNextWord(r2, ' ');
      Node(w1, w2, w3, content, [])
  }

  /** A terminal line "TOKEN line lexeme" splits into its three words; any
      text after a further space is not part of the lexical unit. */
  lemma MakeNodeOfTerminalLine(token: string, line: string, lexeme: string, tail: string)
    requires ' ' !in token && ' ' !in line && ' ' !in lexeme
    requires tail == "" || tail[0] == ' '
    ensures var n := MakeNode("", token + " " + line + " " + lexeme + tail);
      n.symbol == token && n.lineNumber == line && n.lexicalUnit == lexeme
  {
    var r2 := lexeme + tail;
    var r1 := line + [' '] + r2;
    var content := token + [' '] + r1;
    SpacedWords(token, line, lexeme, tail);
    ConsumeAt(token, r1);
    ConsumeAt(line, r2);
    LastWord(lexeme, tail);
    MakeNodeWords(content, token, r1, line, r2, lexeme);
  }

  lemma SpacedWords(a: string, b: string, c: string, tail: string)
    ensures a + " " + b + " " + c + tail == a + [' '] + (b + [' '] + (c + tail))
  {
  }

  /** The word before a tail that is empty or starts with a space. */
  lemma LastWord(w: string, tail: string)
    requires ' ' !in w && (tail == "" || tail[0] == ' ')
    ensures ConsumeNextWord(w + tail, ' ').0 == w
  {
    if tail == "" {
      assert w + tail == w;
    } else {
      assert w + tail == w + [' '] + tail[1..];
      ConsumeAt(w, tail[1..]);
    }
  }

  /** A terminal's fields are the first three words of its content. */
  lemma MakeNodeWords(content: string, w1: string, r1: string, w2: string, r2: string, w3: string)
    requires content != ""
    requires ConsumeNextWord(content, ' ') == (w1, r1) && ConsumeNextWord(r1, ' ') == (w2, r2)
    requires ConsumeNextWord(r2, ' ').0 == w3
    ensures MakeNode("", content) == Node(w1, w2, w3, content, [])
  {
  }

  /** consumeNextWord on a word, a space and the rest. */
  lemma ConsumeAt(w: string, rest: string)
    requires ' ' !in w
    ensures ConsumeNextWord(w + [' '] + rest, ' ') == (w, rest)
  {
    var s := w + [' '] + rest;
    assert s[|w|] == ' ';
    assert s[..|w|] == w;
    FindCharAt(s, ' ', |w|);
    assert s[|w| + 1..] == rest;
  }

  /** FindChar returns the first occurrence. */
  /** isTerminating: the symbol does not start with '<'. Reading index 0 of
      an empty symbol yields the terminating NUL, so an empty symbol counts
      as terminal. */
  predicate IsTerminating(n: Node) {
    !(|n.symbol| > 0 && n.symbol[0] == '<')
  }

  /** A string of n spaces. */
  function Spaces(n: nat): (s: string)
    ensures |s| == n && forall j :: 0 <= j < n ==> s[j] == ' '
  {
    if n == 0 then "" else Spaces(n - 1) + " "
  }

  /** getIndentationLevel: the number of leading spaces. */
  function IndentationLevel(line: string): (n: nat)
    ensures n <= |line|
    ensures forall j :: 0 <= j < n ==> line[j] == ' '
    ensures n < |line| ==> line[n] != ' '
  {
    if |line| > 0 && line[0] == ' ' then 1 + IndentationLevel(line[1..]) else 0
  }

  /** parseContent: the indentation of a line and the text after it. */
  function ParseContent(line: string): (r: (nat, string))
    ensures r.0 <= |line| && Spaces(r.0) + r.1 == line
    ensures |r.1| > 0 ==> r.1[0] != ' '
  {
    var n := IndentationLevel(line);
    assert line == Spaces(n) + line[n..];
    (n, line[n..])
  }

  /** Indenting a text that does not itself start with a space is undone by
      parseContent. */
  lemma ParseContentOfIndented(d: nat, text: string)
    requires |text| == 0 || text[0] != ' '
    ensures ParseContent(Spaces(d) + text) == (d, text)
  {
    var line := Spaces(d) + text;
    assert forall j :: 0 <= j < d ==> line[j] == ' ';
    assert line[d..] == text;
    assert |text| > 0 ==> line[d] == text[0];
  }

  // ---------------------------------------------------------------------
  // buildTree

  /** One open non-terminal on the reader's stack. A node's finished
      children are attached to it when it is closed (popped); since new
      children only ever go to the top of the stack, this keeps the order in
      which the reader appends them. */
  datatype Frame = Frame(indent: nat, node: Node)

  function AddChild(n: Node, c: Node): (r: Node)
    ensures r.children == n.children + [c]
    ensures r.symbol == n.symbol && r.lineNumber == n.lineNumber &&
            r.lexicalUnit == n.lexicalUnit && r.content == n.content
  {
    n.(children := n.children + [c])
  }

  /** The stack with `c` appended to the children of its top node. */
  function AddToTop(stack: seq<Frame>, c: Node): (r: seq<Frame>)
    requires |stack| > 0
    ensures |r| == |stack|
  {
    var top := stack[|stack| - 1];
    stack[..|stack| - 1] + [top.(node := AddChild(top.node, c))]
  }

  /** Pops the top frame, attaching its node to the frame below. */
  function Close(stack: seq<Frame>): (r: seq<Frame>)
    requires |stack| >= 2
    ensures |r| == |stack| - 1
  {
    AddToTop(stack[..|stack| - 1], stack[|stack| - 1].node)
  }

  /** Closes frames until `k` remain. */
  function Settle(stack: seq<Frame>, k: nat): (r: seq<Frame>)
    requires 1 <= k
    ensures |stack| <= k ==> r == stack
    ensures |stack| >= k ==> |r| == k
    decreases |stack|
  {
    if |stack| <= k then stack else Settle(Close(stack), k)
  }

  /** The pop loop: while the line's indentation is not above the top's,
      pop. Popping the last frame leaves the stack empty and the next read
      of its top undefined, which the model reports as None. */
  function PopTo(stack: seq<Frame>, indent: nat): (r: Option<seq<Frame>>)
    ensures r.Some? ==> |r.value| >= 1 && r.value[|r.value| - 1].indent < indent
    ensures r.Some? ==> |r.value| <= |stack|
    decreases |stack|
  {
    if |stack| == 0 then None
    else if indent <= stack[|stack| - 1].indent then
      if |stack| == 1 then None else PopTo(Close(stack), indent)
    else Some(stack)
  }

  /** Is the stripped line content a non-terminal? Index 0 of an empty
      content is NUL, so an empty content is read as a terminal. */
  predicate IsNonterminalText(content: string) {
    |content| > 0 && content[0] == '<'
  }

  /** One line of the reading loop. */
  function Step(stack: seq<Frame>, line: string): (r: Option<seq<Frame>>)
    ensures r.Some? ==> |r.value| >= 1
  {
    var (indent, content) := ParseContent(line);
    var s :- PopTo(stack, indent);
    if !IsNonterminalText(content) then Some(AddToTop(s, MakeNode("", content)))
    else Some(s + [Frame(indent, MakeNode(content, ""))])
  }

  /** Lines that end the reading loop: an empty line or "$". */
  predicate IsStopLine(line: string) { line == "" || line == "$" }

  /** The reading loop over the lines after the first: it stops at the end
      of input or at a stop line. */
  function Run(stack: seq<Frame>, lines: seq<string>): (r: Option<seq<Frame>>)
    requires |stack| >= 1
    ensures r.Some? ==> |r.value| >= 1
    decreases |lines|
  {
    if |lines| == 0 || IsStopLine(lines[0]) then Some(stack)
    else
      var s :- Step(stack, lines[0]);
      Run(s, lines[1..])
  }

  /** buildTree: the first line is the root (kept whole as its symbol, even
      when it reads like a terminal); the result is the bottom of the stack
      once every open node is closed. A missing first line reads as "". */
  function BuildTree(lines: seq<string>): (r: Option<Node>)
  {
    var first := if |lines| == 0 then "" else lines[0];
    var (indent, content) := ParseContent(first);
    var s :- Run([Frame(indent, MakeNode(content, ""))], if |lines| == 0 then [] else lines[1..]);
    Some(Settle(s, 1)[0].node)
  }

  /** The indentation of frame i. The facts about a stack's indentations
      below are stated through it rather than through `s[i]`. */
  function IndentAt(s: seq<Frame>, i: nat): nat
    requires i < |s|
  {
    s[i].indent
  }

  /** The first m frames of a and b have the same indentations. */
  predicate SameIndents(a: seq<Frame>, b: seq<Frame>, m: nat) {
    m <= |a| && m <= |b| && forall i :: 0 <= i < m ==> IndentAt(a, i) == IndentAt(b, i)
  }

  /** The first m frames of s are indented below d. */
  predicate Below(s: seq<Frame>, m: nat, d: nat) {
    m <= |s| && forall i :: 0 <= i < m ==> IndentAt(s, i) < d
  }

  lemma SnocIndents(s: seq<Frame>, f: Frame)
    ensures SameIndents(s + [f], s, |s|) && IndentAt(s + [f], |s|) == f.indent
  {
  }

  lemma AddToTopIndents(stack: seq<Frame>, c: Node)
    requires |stack| > 0
    ensures SameIndents(AddToTop(stack, c), stack, |stack|)
  {
  }

  lemma CloseIndents(stack: seq<Frame>)
    requires |stack| >= 2
    ensures SameIndents(Close(stack), stack, |stack| - 1)
  {
    AddToTopIndents(stack[..|stack| - 1], stack[|stack| - 1].node);
  }

  lemma {:induction false} SettleIndents(stack: seq<Frame>, k: nat)
    requires 1 <= k <= |stack|
    ensures SameIndents(Settle(stack, k), stack, k)
    decreases |stack|
  {
    if |stack| > k {
      CloseIndents(stack);
      SettleIndents(Close(stack), k);
    }
  }

  lemma SameIndentsTrans(a: seq<Frame>, b: seq<Frame>, c: seq<Frame>, m: nat)
    requires SameIndents(a, b, m) && SameIndents(b, c, m)
    ensures SameIndents(a, c, m)
  {
  }

  /** Pop discipline: after a line is read, the stack's indentations still
      strictly increase from bottom to top, and a non-terminal line sits on
      top with its own indentation. */
  predicate Increasing(stack: seq<Frame>) {
    forall i, j :: 0 <= i < j < |stack| ==> IndentAt(stack, i) < IndentAt(stack, j)
  }

  lemma {:induction false} PopToKeepsIncreasing(stack: seq<Frame>, indent: nat)
    requires Increasing(stack)
    ensures PopTo(stack, indent).Some? ==> Increasing(PopTo(stack, indent).value)
    decreases |stack|
  {
    if |stack| >= 2 && indent <= stack[|stack| - 1].indent {
      CloseIndents(stack);
      PopToKeepsIncreasing(Close(stack), indent);
    }
  }

  lemma StepKeepsIncreasing(stack: seq<Frame>, line: string)
    requires Increasing(stack)
    ensures var r := Step(stack, line);
      r.Some? ==> (Increasing(r.value) &&
        (IsNonterminalText(ParseContent(line).1) ==> r.value[|r.value| - 1].indent == ParseContent(line).0))
  {
    var (indent, content) := ParseContent(line);
    PopToKeepsIncreasing(stack, indent);
    match PopTo(stack, indent)
    case None =>
    case Some(s) =>
      if IsNonterminalText(content) {
        SnocIndents(s, Frame(indent, MakeNode(content, "")));
        assert IndentAt(s, |s| - 1) < indent;
      } else {
        AddToTopIndents(s, MakeNode("", content));
      }
  }

  /** A terminal line never changes the stack's height: it becomes the last
      child of the node left on top after popping. */
  lemma TerminalLineAttachesToTop(stack: seq<Frame>, line: string)
    requires !IsNonterminalText(ParseContent(line).1)
    requires PopTo(stack, ParseContent(line).0).Some?
    ensures var s := PopTo(stack, ParseContent(line).0).value;
      var r := Step(stack, line);
      r.Some? && |r.value| == |s| &&
      r.value[|s| - 1].node.children == s[|s| - 1].node.children + [MakeNode("", ParseContent(line).1)]
  {
    StepOnTerminal(stack, line);
    AddToTopLast(PopTo(stack, ParseContent(line).0).value, MakeNode("", ParseContent(line).1));
  }

  lemma StepOnTerminal(stack: seq<Frame>, line: string)
    requires !IsNonterminalText(ParseContent(line).1)
    requires PopTo(stack, ParseContent(line).0).Some?
    ensures Step(stack, line) == Some(AddToTop(PopTo(stack, ParseContent(line).0).value, MakeNode("", ParseContent(line).1)))
  {
  }

  lemma AddToTopLast(s: seq<Frame>, c: Node)
    requires |s| > 0
    ensures AddToTop(s, c)[|s| - 1].node.children == s[|s| - 1].node.children + [c]
  {
  }

  // ---------------------------------------------------------------------
  // Printing a tree in the reader's input format, and reading it back

  /** The tree's lines at depth d: a non-terminal prints its symbol and then
      its children one deeper; a terminal prints its content. */
  function Print(t: Node, d: nat): (r: seq<string>)
    decreases t, |t.children| + 1
  {
    if !IsTerminating(t) then [Spaces(d) + t.symbol] + PrintChildren(t, |t.children|, d + 1)
    else [Spaces(d) + t.content]
  }

  /** The lines of the first n children of t, each printed at depth d. */
  function PrintChildren(t: Node, n: nat, d: nat): (r: seq<string>)
    requires n <= |t.children|
    decreases t, n
  {
    if n == 0 then [] else PrintChildren(t, n - 1, d) + Print(t.children[n - 1], d)
  }

  /** The trees the reader can produce below the root: non-terminals carry
      only a symbol starting with '<'; terminals are exactly what the
      constructor makes of a content line that does not start with a space
      or '<'. */
  predicate WellFormed(t: Node)
    decreases t, |t.children| + 1
  {
    if !IsTerminating(t) then
      t.lineNumber == "" && t.lexicalUnit == "" && t.content == "" &&
      ChildrenWellFormed(t, |t.children|)
    else
      |t.content| > 0 && t.content[0] != ' ' && t.content[0] != '<' &&
      t == MakeNode("", t.content)
  }

  /** The first n children of t are well formed. */
  predicate ChildrenWellFormed(t: Node, n: nat)
    requires n <= |t.children|
    decreases t, n
  {
    n == 0 || (ChildrenWellFormed(t, n - 1) && WellFormed(t.children[n - 1]))
  }

  /** The stack is `k` settled frames below the indentation d and any number
      of pending frames at or above it. */
  predicate Pending(stack: seq<Frame>, k: nat, d: nat) {
    1 <= k <= |stack| && Below(stack, k, d) &&
    (forall i :: k <= i < |stack| ==> IndentAt(stack, i) >= d)
  }

  lemma {:induction false} PopToSettles(stack: seq<Frame>, k: nat, d: nat)
    requires Pending(stack, k, d)
    ensures PopTo(stack, d) == Some(Settle(stack, k))
    decreases |stack|
  {
    if |stack| > k {
      assert IndentAt(stack, |stack| - 1) >= d;
      CloseIndents(stack);
      PopToSettles(Close(stack), k, d);
    } else {
      assert IndentAt(stack, |stack| - 1) < d;
    }
  }

  lemma {:induction false} SettleTwice(stack: seq<Frame>, k: nat, m: nat)
    requires 1 <= k <= m
    ensures Settle(Settle(stack, m), k) == Settle(stack, k)
    decreases |stack|
  {
    if |stack| > m {
      SettleTwice(Close(stack), k, m);
    }
  }

  predicate NoStop(lines: seq<string>) {
    forall j :: 0 <= j < |lines| ==> !IsStopLine(lines[j])
  }

  lemma NoStopAppend(a: seq<string>, b: seq<string>)
    requires NoStop(a) && NoStop(b)
    ensures NoStop(a + b)
  {
  }

  /** A printed subtree never contains a line that would stop the reader. */
  lemma {:induction false} PrintNoStop(t: Node, d: nat)
    requires WellFormed(t)
    requires !IsTerminating(t) || d >= 1
    ensures NoStop(Print(t, d))
    decreases t, |t.children| + 1
  {
    if !IsTerminating(t) {
      PrintChildrenNoStop(t, |t.children|, d + 1);
      IndentedNotStop(d, t.symbol);
      NoStopAppend([Spaces(d) + t.symbol], PrintChildren(t, |t.children|, d + 1));
    } else {
      IndentedNotStop(d, t.content);
    }
  }

  lemma {:induction false} PrintChildrenNoStop(t: Node, n: nat, d: nat)
    requires n <= |t.children| && ChildrenWellFormed(t, n) && d >= 1
    ensures NoStop(PrintChildren(t, n, d))
    decreases t, n
  {
    if n > 0 {
      PrintChildrenNoStop(t, n - 1, d);
      PrintNoStop(t.children[n - 1], d);
      NoStopAppend(PrintChildren(t, n - 1, d), Print(t.children[n - 1], d));
    }
  }

  lemma IndentedNotStop(d: nat, text: string)
    requires |text| > 0 && (d >= 1 || text[0] == '<')
    ensures !IsStopLine(Spaces(d) + text)
  {
    var line := Spaces(d) + text;
    assert line[d] == text[0];
  }

  /** Reading a block of lines without stop lines and then more lines is
      reading the first block and continuing from where it left off. */
  lemma {:induction false} RunAppend(stack: seq<Frame>, a: seq<string>, b: seq<string>, mid: seq<Frame>)
    requires |stack| >= 1 && NoStop(a)
    requires Run(stack, a) == Some(mid)
    ensures Run(stack, a + b) == Run(mid, b)
    decreases |a|
  {
    if |a| == 0 {
      assert a + b == b;
    } else {
      assert (a + b)[0] == a[0];
      assert (a + b)[1..] == a[1..] + b;
      var s := Step(stack, a[0]).value;
      RunAppend(s, a[1..], b, mid);
    }
  }

  /** Reading one indented line from a stack with k settled frames below its
      indentation. */
  lemma StepOnIndented(stack: seq<Frame>, k: nat, d: nat, text: string)
    requires Pending(stack, k, d)
    requires |text| > 0 && text[0] != ' '
    ensures Step(stack, Spaces(d) + text) ==
      Some(if IsNonterminalText(text) then Settle(stack, k) + [Frame(d, MakeNode(text, ""))]
           else AddToTop(Settle(stack, k), MakeNode("", text)))
  {
    ParseContentOfIndented(d, text);
    PopToSettles(stack, k, d);
  }

  lemma RunCons(stack: seq<Frame>, x: string, rest: seq<string>, next: seq<Frame>)
    requires |stack| >= 1 && !IsStopLine(x) && Step(stack, x) == Some(next)
    ensures Run(stack, [x] + rest) == Run(next, rest)
  {
    assert ([x] + rest)[1..] == rest;
  }

  /** The heart of the round trip: reading the printed lines of a subtree at
      depth d from a stack with k settled frames below d adds the subtree as
      the last child of frame k-1, once the frames it leaves open are
      closed. */
  lemma {:induction false} RunPrint(stack: seq<Frame>, k: nat, t: Node, d: nat) returns (r: seq<Frame>)
    requires Pending(stack, k, d) && WellFormed(t)
    requires !IsTerminating(t) || d >= 1
    ensures Run(stack, Print(t, d)) == Some(r)
    ensures Pending(r, k, d) && SameIndents(r, stack, k)
    ensures Settle(r, k) == AddToTop(Settle(stack, k), t)
    decreases t, |t.children| + 1
  {
    var base := Settle(stack, k);
    SettleIndents(stack, k);
    if IsTerminating(t) {
      RunPrintTerminal(stack, k, t, d);
      r := Run(stack, Print(t, d)).value;
    } else {
      var open := base + [Frame(d, t.(children := []))];
      var rest := PrintChildren(t, |t.children|, d + 1);
      assert Run(stack, Print(t, d)) == Run(open, rest) by {
        StepOnIndented(stack, k, d, t.symbol);
        IndentedNotStop(d, t.symbol);
        PrintNonterminal(t, d);
        RunCons(stack, Spaces(d) + t.symbol, rest, open);
      }
      r := RunChildren(base, d, t, |t.children|);
      AllChildren(t);
      CloseOpened(r, base, k, d, t);
      SameIndentsTrans(r, base, stack, k);
    }
  }

  lemma RunPrintTerminal(stack: seq<Frame>, k: nat, t: Node, d: nat)
    requires Pending(stack, k, d) && WellFormed(t) && IsTerminating(t) && d >= 1
    ensures var r := Run(stack, Print(t, d));
      r.Some? && Pending(r.value, k, d) && SameIndents(r.value, stack, k) &&
      Settle(r.value, k) == AddToTop(Settle(stack, k), t)
  {
    var base := Settle(stack, k);
    var next := AddToTop(base, t);
    var line := Spaces(d) + t.content;
    assert Print(t, d) == [line] + [];
    assert Run(stack, [line] + []) == Some(next) by {
      StepOnIndented(stack, k, d, t.content);
      IndentedNotStop(d, t.content);
      RunCons(stack, line, [], next);
      assert Run(next, []) == Some(next);
    }
    assert Pending(next, k, d) && SameIndents(next, stack, k) by {
      SettleIndents(stack, k);
      AddToTopIndents(base, t);
    }
  }

  lemma PrintNonterminal(t: Node, d: nat)
    requires !IsTerminating(t)
    ensures Print(t, d) == [Spaces(d) + t.symbol] + PrintChildren(t, |t.children|, d + 1)
  {
  }

  lemma AllChildren(t: Node)
    ensures t.(children := t.children[..|t.children|]) == t
  {
    assert t.children[..|t.children|] == t.children;
  }

  lemma AddToTopSnoc(base: seq<Frame>, f: Frame, c: Node)
    ensures AddToTop(base + [f], c) == base + [f.(node := AddChild(f.node, c))]
  {
    assert (base + [f])[..|base|] == base;
  }

  /** Closing the frame opened for t, once its children are read. */
  lemma CloseOpened(r: seq<Frame>, base: seq<Frame>, k: nat, d: nat, t: Node)
    requires |base| == k >= 1 && Below(base, k, d)
    requires Opened(r, base, d, t)
    ensures Pending(r, k, d) && SameIndents(r, base, k)
    ensures Settle(r, k) == AddToTop(base, t)
  {
    var closed := base + [Frame(d, t)];
    SettleTwice(r, k, k + 1);
    assert closed[..k] == base;
    assert Settle(closed, k) == Close(closed);
  }

  /** RunPrint over the first n children of the non-terminal t, opened at
      indentation d0 on top of `base`. */
  lemma RunChildren(base: seq<Frame>, d0: nat, t: Node, n: nat) returns (r: seq<Frame>)
    requires Below(base, |base|, d0)
    requires n <= |t.children| && ChildrenWellFormed(t, n)
    ensures Run(base + [Frame(d0, t.(children := []))], PrintChildren(t, n, d0 + 1)) == Some(r)
    ensures Opened(r, base, d0, t.(children := t.children[..n]))
    decreases t, n, 3
  {
    r := ChildrenStack(base, d0, t, n);
    ChildrenOpened(base, d0, t, n);
    ChildrenRuns(base, d0, t, n);
  }

  /** The stack after reading the first n children of t one after the
      other, starting from the frame opened for t. */
  ghost function ChildrenStack(base: seq<Frame>, d0: nat, t: Node, n: nat): (s: seq<Frame>)
    requires n <= |t.children|
    ensures |s| >= 1
    decreases n
  {
    if n == 0 then base + [Frame(d0, t.(children := []))]
    else
      var mid := ChildrenStack(base, d0, t, n - 1);
      var next := Run(mid, Print(t.children[n - 1], d0 + 1));
      if next.Some? then next.value else mid
  }

  lemma {:induction false} ChildrenOpened(base: seq<Frame>, d0: nat, t: Node, n: nat)
    requires Below(base, |base|, d0)
    requires n <= |t.children| && ChildrenWellFormed(t, n)
    ensures Opened(ChildrenStack(base, d0, t, n), base, d0, t.(children := t.children[..n]))
    decreases t, n, 1
  {
    if n == 0 {
      RunNoChildren(base, d0, t);
    } else {
      ChildrenOpened(base, d0, t, n - 1);
      var mid := ChildrenStack(base, d0, t, n - 1);
      var r := RunPrint(mid, |base| + 1, t.children[n - 1], d0 + 1);
      ChildStep(base, d0, t, n, mid, r);
    }
  }

  /** Reading child n-1 of t once the children before it are read. */
  lemma ChildRun(base: seq<Frame>, d0: nat, t: Node, n: nat)
    requires Below(base, |base|, d0)
    requires 0 < n <= |t.children| && ChildrenWellFormed(t, n)
    ensures Run(ChildrenStack(base, d0, t, n - 1), Print(t.children[n - 1], d0 + 1)) == Some(ChildrenStack(base, d0, t, n))
    decreases t, n, 0
  {
    ChildrenOpened(base, d0, t, n - 1);
    var r := RunPrint(ChildrenStack(base, d0, t, n - 1), |base| + 1, t.children[n - 1], d0 + 1);
  }

  lemma {:induction false} ChildrenRuns(base: seq<Frame>, d0: nat, t: Node, n: nat)
    requires Below(base, |base|, d0)
    requires n <= |t.children| && ChildrenWellFormed(t, n)
    ensures Run(base + [Frame(d0, t.(children := []))], PrintChildren(t, n, d0 + 1)) == Some(ChildrenStack(base, d0, t, n))
    decreases t, n, 2
  {
    if n == 0 {
      RunNoChildren(base, d0, t);
    } else {
      ChildrenRuns(base, d0, t, n - 1);
      ChildrenStep(base, d0, t, n);
    }
  }

  /** Reading one more child extends the run of the children before it. */
  lemma ChildrenStep(base: seq<Frame>, d0: nat, t: Node, n: nat)
    requires Below(base, |base|, d0)
    requires 0 < n <= |t.children| && ChildrenWellFormed(t, n)
    requires Run(base + [Frame(d0, t.(children := []))], PrintChildren(t, n - 1, d0 + 1)) == Some(ChildrenStack(base, d0, t, n - 1))
    ensures Run(base + [Frame(d0, t.(children := []))], PrintChildren(t, n, d0 + 1)) == Some(ChildrenStack(base, d0, t, n))
    decreases t, n, 1
  {
    RunChildrenSplit(base + [Frame(d0, t.(children := []))], t, n, d0 + 1, ChildrenStack(base, d0, t, n - 1));
    ChildRun(base, d0, t, n);
  }

  /** The stack after the children read so far of a node t opened at
      indentation d0 on top of `base`: the frame of t is still open above
      `base`, and closing what lies above it gives t with those children. */
  predicate Opened(r: seq<Frame>, base: seq<Frame>, d0: nat, t: Node) {
    Pending(r, |base| + 1, d0 + 1) && SameIndents(r, base, |base|) &&
    IndentAt(r, |base|) == d0 &&
    Settle(r, |base| + 1) == base + [Frame(d0, t)]
  }

  lemma RunChildrenSplit(open: seq<Frame>, t: Node, n: nat, d: nat, mid: seq<Frame>)
    requires |open| >= 1 && 0 < n <= |t.children| && ChildrenWellFormed(t, n - 1) && d >= 1
    requires Run(open, PrintChildren(t, n - 1, d)) == Some(mid)
    ensures Run(open, PrintChildren(t, n, d)) == Run(mid, Print(t.children[n - 1], d))
  {
    PrintChildrenNoStop(t, n - 1, d);
    RunAppend(open, PrintChildren(t, n - 1, d), Print(t.children[n - 1], d), mid);
  }

  lemma ChildStep(base: seq<Frame>, d0: nat, t: Node, n: nat, mid: seq<Frame>, r: seq<Frame>)
    requires 0 < n <= |t.children|
    requires Opened(mid, base, d0, t.(children := t.children[..n - 1]))
    requires Pending(r, |base| + 1, d0 + 1) && SameIndents(r, mid, |base| + 1)
    requires Settle(r, |base| + 1) == AddToTop(Settle(mid, |base| + 1), t.children[n - 1])
    ensures Opened(r, base, d0, t.(children := t.children[..n]))
  {
    var child := t.children[n - 1];
    AddToTopSnoc(base, Frame(d0, t.(children := t.children[..n - 1])), child);
    assert t.children[..n] == t.children[..n - 1] + [child];
    assert IndentAt(r, |base|) == IndentAt(mid, |base|);
  }

  lemma RunNoChildren(base: seq<Frame>, d0: nat, t: Node)
    requires Below(base, |base|, d0)
    ensures var open := base + [Frame(d0, t.(children := []))];
      Run(open, PrintChildren(t, 0, d0 + 1)) == Some(open) &&
      Opened(open, base, d0, t.(children := t.children[..0]))
  {
    assert t.children[..0] == [];
    SnocIndents(base, Frame(d0, t.(children := [])));
  }

  /** Reading back the printed form of a well-formed tree with a
      non-terminal root gives the tree. */
  lemma BuildTreeOfPrint(t: Node)
    requires WellFormed(t) && !IsTerminating(t)
    ensures BuildTree(Print(t, 0)) == Some(t)
  {
    var lines := Print(t, 0);
    ParseContentOfIndented(0, t.symbol);
    assert lines[0] == t.symbol;
    var open := [Frame(0, t.(children := []))];
    assert open == [] + open;
    assert lines[1..] == PrintChildren(t, |t.children|, 1);
    var r := RunChildren([], 0, t, |t.children|);
    AllChildren(t);
  }

  /** The error line of the code generator's reportError: the node's symbol,
      "::=", then each child's symbol, terminals followed by
      "(line,lexeme)", separated by single spaces. */
  function ChildText(c: Node): (s: string)
  {
    c.symbol + (if IsTerminating(c) then "(" + c.lineNumber + "," + c.lexicalUnit + ")" else "")
  }

  function ChildTexts(n: Node): (ts: seq<string>)
    ensures |ts| == |n.children|
    ensures forall i :: 0 <= i < |ts| ==> ts[i] == ChildText(n.children[i])
  {
    seq(|n.children|, i requires 0 <= i < |n.children| => ChildText(n.children[i]))
  }

  function ReportLine(n: Node): (s: string)
    ensures StartsWith(s, n.symbol + " ::= ")
  {
    n.symbol + " ::= " + Join(ChildTexts(n), " ")
  }

  /** Splitting a report line at whitespace gives the node's symbol, the
      separator and one field per child, in order, whenever the symbol and
      every child text are nonempty and free of whitespace. */
  lemma ReportLineFields(n: Node)
    requires |n.symbol| > 0 && NoSpace(n.symbol)
    requires forall i :: 0 <= i < |n.children| ==>
      |ChildText(n.children[i])| > 0 && NoSpace(ChildText(n.children[i]))
    ensures Fields(ReportLine(n)) == [n.symbol, "::="] + ChildTexts(n)
  {
    var texts := ChildTexts(n);
    var body := Join(texts, " ");
    var sep := "::=";
    assert |sep| > 0 && NoSpace(sep);
    FieldsOfJoin(texts);
    FieldsSpaced(sep, body);
    FieldsSpaced(n.symbol, sep + " " + body);
    ReportLineShape(n.symbol, body);
    var line := n.symbol + " " + (sep + " " + body);
    assert ReportLine(n) == line;
    assert Fields(line) == [n.symbol] + ([sep] + texts);
    ConsCons(n.symbol, sep, texts);
  }

  lemma ConsCons<T>(a: T, b: T, xs: seq<T>)
    ensures [a] + ([b] + xs) == [a, b] + xs
  {
  }

  lemma ReportLineShape(symbol: string, body: string)
    ensures symbol + " ::= " + body == symbol + " " + ("::=" + " " + body)
  {
    assert " ::= " == " " + "::=" + " ";
  }
}
