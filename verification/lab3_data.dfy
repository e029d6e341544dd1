/** The semantic checker's scoped symbol table and its line-level helpers:
    a table maps names to entries and may have an enclosing (parent) table;
    lookups search the innermost table first and then walk outward. */
module Scopes {
  import opened Wrappers
  import opened Text
  import opened LrUtils
  import opened CTypes
  import opened Tree

  /** A declared name: its type, whether a definition was seen (functions)
      and the element count of an array (-1 when not an array). */
  datatype Entry = Entry(name: string, ty: TypeInfo, isDefined: bool, arraySize: int)

  /** One scope: its own names and the scope enclosing it, if any. */
  datatype Table = Table(symbols: map<string, Entry>, parent: Option<Table>)

  /** The outermost, empty scope. */
  const EMPTY_TABLE: Table := Table(map[], None)

  /** insert: refused (false, table unchanged) when the name is already in
      this scope; otherwise the entry is added to this scope. */
  function Insert(t: Table, name: string, e: Entry): (r: (bool, Table))
    ensures r.0 <==> name !in t.symbols
    ensures r.1.parent == t.parent
    ensures !r.0 ==> r.1 == t
    ensures r.0 ==> r.1.symbols == t.symbols[name := e]
  {
    if name in t.symbols then (false, t)
    else (true, t.(symbols := t.symbols[name := e]))
  }

  /** lookup: the entry in the innermost scope that has the name. */
  function Lookup(t: Table, name: string): (r: Option<Entry>)
    decreases t
  {
    if name in t.symbols then Some(t.symbols[name])
    else match t.parent
      case None => None
      case Some(p) => Lookup(p, name)
  }

  /** createChildScope: a fresh empty scope enclosed by t. */
  function CreateChildScope(t: Table): (c: Table)
    ensures c.symbols == map[] && c.parent == Some(t)
  {
    Table(map[], Some(t))
  }

  /** The scopes visible from t, innermost first. */
  function Chain(t: Table): (ms: seq<map<string, Entry>>)
    ensures |ms| >= 1 && ms[0] == t.symbols
    decreases t
  {
    [t.symbols] + match t.parent
      case None => []
      case Some(p) => Chain(p)
  }

  /** Reference lookup over a list of scopes: the first scope holding the
      name decides. */
  function FirstIn(ms: seq<map<string, Entry>>, name: string): (r: Option<Entry>)
    ensures r.None? <==> forall i :: 0 <= i < |ms| ==> name !in ms[i]
    ensures r.Some? ==> exists i :: (0 <= i < |ms| && name in ms[i] && r.value == ms[i][name] &&
      forall j :: 0 <= j < i ==> name !in ms[j])
  {
    if |ms| == 0 then None
    else if name in ms[0] then Some(ms[0][name])
    else
      var r := FirstIn(ms[1..], name);
      assert forall i :: 1 <= i < |ms| ==> ms[i] == ms[1..][i - 1];
      r
  }

  /** Lookup agrees with the reference search over the scope chain. */
  lemma {:induction false} LookupIsFirstIn(t: Table, name: string)
    ensures Lookup(t, name) == FirstIn(Chain(t), name)
    decreases t
  {
    var ms := Chain(t);
    if name !in t.symbols {
      assert ms[1..] == match t.parent case None => [] case Some(p) => Chain(p);
      match t.parent
      case None =>
      case Some(p) => LookupIsFirstIn(p, name);
    }
  }

  /** Lookup fails exactly when no visible scope has the name. */
  lemma LookupNone(t: Table, name: string)
    ensures Lookup(t, name).None? <==> forall i :: 0 <= i < |Chain(t)| ==> name !in Chain(t)[i]
  {
    LookupIsFirstIn(t, name);
  }

  /** A refused insert leaves the table as it was. */
  lemma InsertExisting(t: Table, name: string, e: Entry)
    requires name in t.symbols
    ensures Insert(t, name, e) == (false, t)
    ensures Lookup(Insert(t, name, e).1, name) == Some(t.symbols[name])
  {
  }

  /** After a successful insert the name finds the new entry, and every other
      name finds what it found before. */
  lemma InsertThenLookup(t: Table, name: string, e: Entry, other: string)
    requires Insert(t, name, e).0
    ensures Lookup(Insert(t, name, e).1, name) == Some(e)
    ensures other != name ==> Lookup(Insert(t, name, e).1, other) == Lookup(t, other)
  {
  }

  /** An entry in the inner scope hides any entry for the same name outside. */
  lemma Shadowing(m: map<string, Entry>, outer: Table, name: string)
    requires name in m && Lookup(outer, name).Some?
    ensures Lookup(Table(m, Some(outer)), name) == Some(m[name])
    ensures Lookup(Table(m, Some(outer)), name) != Lookup(outer, name) <==> m[name] != Lookup(outer, name).value
  {
  }

  /** A new child scope sees exactly what its parent sees. */
  lemma ChildScopeLookup(t: Table, name: string)
    ensures Lookup(CreateChildScope(t), name) == Lookup(t, name)
    ensures Chain(CreateChildScope(t)) == [map[]] + Chain(t)
  {
  }

  // ---------------------------------------------------------------------
  // Line helpers of the tree reader

  /** parseNodeName: for a line starting with '<', the text up to and
      including the first '>'; "" when there is none or the line does not
      start with '<' (index 0 of an empty line is NUL). */
  function ParseNodeName(line: string): (name: string)
  {
    if |line| > 0 && line[0] == '<' then
      var e := FindChar(line, '>');
      if e < |line| then line[..e + 1] else ""
    else ""
  }

  lemma ParseNodeNameShape(line: string)
    ensures var name := ParseNodeName(line);
      (name != "" <==> |line| > 0 && line[0] == '<' && '>' in line) &&
      (name != "" ==> (StartsWith(line, name) && name[|name| - 1] == '>' &&
        '>' !in name[..|name| - 1]))
  {
    var e := FindChar(line, '>');
    if |line| > 0 && line[0] == '<' && '>' in line {
      assert e < |line|;
      var name := line[..e + 1];
      assert name[..|name| - 1] == line[..e];
    }
  }

  /** A non-terminal name followed by anything is read back as that name. */
  lemma ParseNodeNameOf(name: string, rest: string)
    requires |name| >= 2 && name[0] == '<' && name[|name| - 1] == '>'
    requires '>' !in name[..|name| - 1]
    ensures ParseNodeName(name + rest) == name
  {
    var line := name + rest;
    var e := FindChar(line, '>');
    assert line[|name| - 1] == '>';
    assert forall j :: 0 <= j < |name| - 1 ==> line[j] == name[..|name| - 1][j];
    assert e == |name| - 1;
    assert line[..e + 1] == name;
  }

  /** The Lab3 reader's content of a line: the line itself unless it starts
      with '<' (a non-terminal), in which case "". */
  function LineContent(line: string): (c: string)
    ensures c == "" || c == line
    ensures |line| > 0 && line[0] == '<' ==> c == ""
    ensures !(|line| > 0 && line[0] == '<') ==> c == line
  {
    if |line| > 0 && line[0] == '<' then "" else line
  }

  // ---------------------------------------------------------------------
  // The error line

  /** One child on the right-hand side of the error line: a child with
      content is printed as TOKEN(line,lexeme) from the first three
      whitespace-separated words of its content (a missing word reads as
      ""); any other child as its symbol. */
  function ErrorChildText(c: Node): (s: string)
  {
    if c.content != "" then Field(c.content, 0) + "(" + Field(c.content, 1) + "," + Field(c.content, 2) + ")"
    else c.symbol
  }

  function ErrorChildTexts(n: Node): (ts: seq<string>)
    ensures |ts| == |n.children|
    ensures forall i :: 0 <= i < |ts| ==> ts[i] == ErrorChildText(n.children[i])
  {
    seq(|n.children|, i requires 0 <= i < |n.children| => ErrorChildText(n.children[i]))
  }

  /** reportError's line: the node's symbol, " ::= ", then the children
      separated by single spaces. */
  function ErrorLine(n: Node): (s: string)
    ensures StartsWith(s, n.symbol + " ::= ")
  {
    n.symbol + " ::= " + Join(ErrorChildTexts(n), " ")
  }

  /** A terminal child's text is never broken by whitespace, so splitting
      the error line at whitespace gives back one field per child. */
  lemma ErrorChildTextIsField(c: Node)
    requires c.content != "" || (|c.symbol| > 0 && NoSpace(c.symbol))
    ensures |ErrorChildText(c)| > 0 && NoSpace(ErrorChildText(c))
  {
    if c.content != "" {
      TokenTextNoSpace(Field(c.content, 0), Field(c.content, 1), Field(c.content, 2));
    }
  }

  lemma TokenTextNoSpace(a: string, b: string, d: string)
    requires NoSpace(a) && NoSpace(b) && NoSpace(d)
    ensures NoSpace(a + "(" + b + "," + d + ")")
  {
    var open: string := "(";
    var comma: string := ",";
    var close: string := ")";
    assert NoSpace(open) && NoSpace(comma) && NoSpace(close);
    var s1 := a + open;
    NoSpaceConcat(a, open);
    var s2 := s1 + b;
    NoSpaceConcat(s1, b);
    var s3 := s2 + comma;
    NoSpaceConcat(s2, comma);
    var s4 := s3 + d;
    NoSpaceConcat(s3, d);
    NoSpaceConcat(s4, close);
  }

  lemma ErrorLineFields(n: Node)
    requires |n.symbol| > 0 && NoSpace(n.symbol)
    requires forall i :: 0 <= i < |n.children| ==>
      n.children[i].content != "" || (|n.children[i].symbol| > 0 && NoSpace(n.children[i].symbol))
    ensures Fields(ErrorLine(n)) == [n.symbol, "::="] + ErrorChildTexts(n)
  {
    var texts := ErrorChildTexts(n);
    forall i | 0 <= i < |texts|
      ensures |texts[i]| > 0 && NoSpace(texts[i])
    {
      ErrorChildTextIsField(n.children[i]);
    }
    var body := Join(texts, " ");
    var sep := "::=";
    assert |sep| > 0 && NoSpace(sep);
    FieldsOfJoin(texts);
    FieldsSpaced(sep, body);
    FieldsSpaced(n.symbol, sep + " " + body);
    ReportLineShape(n.symbol, body);
    var line := n.symbol + " " + (sep + " " + body);
    assert ErrorLine(n) == line;
    assert Fields(line) == [n.symbol] + ([sep] + texts);
    ConsCons(n.symbol, sep, texts);
  }

  /** On a terminal line "TOKEN line lexeme" the child prints as
      TOKEN(line,lexeme). */
  lemma ErrorChildTextOfTerminal(c: Node, token: string, line: string, lexeme: string)
    requires |token| > 0 && |line| > 0 && |lexeme| > 0
    requires NoSpace(token) && NoSpace(line) && NoSpace(lexeme)
    requires c.content == token + " " + line + " " + lexeme
    ensures ErrorChildText(c) == token + "(" + line + "," + lexeme + ")"
  {
    FieldsThree(token, line, lexeme);
  }
}
