/** The text the lexer generator writes into the generated analyser: the
    escaper for pattern text and the one-line statements that fill the
    generated tables. Each statement is a fixed template with its
    arguments spliced in by printf-style formatting. */
module FileGen {
  import opened Wrappers
  import opened Text

  // ---------------------------------------------------------------------
  // convert_to_raw

  /** The characters convert_to_raw escapes: double quote, backslash and
      single quote. */
  predicate Special(c: char) {
    c == '"' || c == '\\' || c == '\''
  }

  /** How many characters of s are escaped. */
  function EscapeCount(s: string): nat {
    if |s| == 0 then 0 else (if Special(s[0]) then 1 else 0) + EscapeCount(s[1..])
  }

  /** r is a well-escaped literal body: every special character comes as
      the second half of a backslash pair. */
  predicate Escaped(r: string)
    decreases |r|
  {
    if |r| == 0 then true
    else if r[0] == '\\' then |r| >= 2 && Special(r[1]) && Escaped(r[2..])
    else !Special(r[0]) && Escaped(r[1..])
  }

  /** convert_to_raw: copies s, putting a backslash before each special
      character. */
  function ConvertToRaw(s: string): (r: string)
    ensures |r| == |s| + EscapeCount(s)
    ensures Escaped(r)
  {
    if |s| == 0 then []
    else
      var rest := ConvertToRaw(s[1..]);
      if Special(s[0]) then
        var r := ['\\', s[0]] + rest;
        assert r[2..] == rest;
        r
      else
        var r := [s[0]] + rest;
        assert r[1..] == rest;
        r
  }

  /** Reads a literal body back: a backslash pair stands for its second
      character. */
  function Unescape(r: string): string
    decreases |r|
  {
    if |r| == 0 then []
    else if r[0] == '\\' && |r| >= 2 then [r[1]] + Unescape(r[2..])
    else [r[0]] + Unescape(r[1..])
  }

  /** Reading back the escaped text gives the original text. */
  lemma {:induction false} RawRoundTrip(s: string)
    ensures Unescape(ConvertToRaw(s)) == s
    decreases |s|
  {
    if |s| > 0 {
      var r := ConvertToRaw(s);
      RawRoundTrip(s[1..]);
      if Special(s[0]) {
        assert r[2..] == ConvertToRaw(s[1..]);
      } else {
        assert r[1..] == ConvertToRaw(s[1..]);
      }
      assert s == [s[0]] + s[1..];
    }
  }

  /** Every well-escaped body is the escaping of its reading. */
  lemma {:induction false} RawOnto(r: string)
    requires Escaped(r)
    ensures ConvertToRaw(Unescape(r)) == r
    decreases |r|
  {
    if |r| > 0 {
      if r[0] == '\\' {
        RawOnto(r[2..]);
        var u := Unescape(r);
        assert u[0] == r[1] && u[1..] == Unescape(r[2..]);
        assert r == ['\\', r[1]] + r[2..];
      } else {
        RawOnto(r[1..]);
        var u := Unescape(r);
        assert u[0] == r[0] && u[1..] == Unescape(r[1..]);
        assert r == [r[0]] + r[1..];
      }
    }
  }

  /** Escaping works piece by piece: the text is kept in order. */
  lemma {:induction false} RawConcat(s: string, t: string)
    ensures ConvertToRaw(s + t) == ConvertToRaw(s) + ConvertToRaw(t)
    decreases |s|
  {
    if |s| > 0 {
      assert (s + t)[0] == s[0] && (s + t)[1..] == s[1..] + t;
      RawConcat(s[1..], t);
    } else {
      assert s + t == t;
    }
  }

  /** Text without special characters is copied unchanged. */
  lemma {:induction false} RawPlain(s: string)
    requires forall i :: 0 <= i < |s| ==> !Special(s[i])
    ensures ConvertToRaw(s) == s
    decreases |s|
  {
    if |s| > 0 {
      RawPlain(s[1..]);
      assert s == [s[0]] + s[1..];
    }
  }

  // ---------------------------------------------------------------------
  // The statement templates

  /** What %s prints of a string passed through c_str(): the part before
      the first NUL. */
  function CStr(s: string): (r: string)
    ensures r <= s && '\0' !in r
    ensures |r| < |s| ==> s[|r|] == '\0'
  {
    s[..FindChar(s, '\0')]
  }

  /** The spelling %d gives an int has no ']', no '(' and no quote. */
  lemma DecimalChars(i: int)
    ensures forall k :: 0 <= k < |IntToDecimal(i)| ==> IntToDecimal(i)[k] == '-' || IsDigit(IntToDecimal(i)[k])
  {
    if i < 0 {
      var n := NatToDecimal(-i);
      assert forall k :: 1 <= k < |IntToDecimal(i)| ==> IntToDecimal(i)[k] == n[k - 1];
    }
  }

  const AUTOMATA_OPEN: string := "AUTOMATA["

  /** A statement about automaton id: "AUTOMATA[" id, then mid (which
      closes the bracket), the string argument and the tail. */
  function IdStatement(id: int, mid: string, x: string, tail: string): string {
    AUTOMATA_OPEN + IntToDecimal(id) + mid + CStr(x) + tail
  }

  /** Reads an id statement back: the id runs up to the first ']'. */
  function ReadIdStatement(o: string, mid: string, tail: string): (r: Option<(int, string)>) {
    if |o| < |AUTOMATA_OPEN| then None
    else
      var body := o[|AUTOMATA_OPEN|..];
      var k := FindChar(body, ']');
      if |body| < k + |mid| + |tail| then None
      else
        match LeadingInteger(body[..k])
        case None => None
        case Some(id) => Some((id, body[k + |mid|..|body| - |tail|]))
  }

  /** An id statement gives back its id and its printed string argument. */
  lemma IdStatementRoundTrip(id: int, mid: string, x: string, tail: string)
    requires |mid| > 0 && mid[0] == ']'
    ensures ReadIdStatement(IdStatement(id, mid, x, tail), mid, tail) == Some((id, CStr(x)))
  {
    var o := IdStatement(id, mid, x, tail);
    var d := IntToDecimal(id);
    var body := o[|AUTOMATA_OPEN|..];
    assert body == d + mid + CStr(x) + tail;
    assert FindChar(body, ']') == |d| by {
      DecimalChars(id);
      assert body[|d|] == ']';
      assert forall j :: 0 <= j < |d| ==> body[j] == d[j] && body[j] != ']';
    }
    assert LeadingInteger(body[..|d|]) == Some(id) by {
      assert body[..|d|] == d;
      LeadingIntegerOfDecimal(id);
    }
    assert body[|d| + |mid|..|body| - |tail|] == CStr(x);
  }

  /** Two id statements with the same template are equal only when their
      ids and printed arguments are. */
  lemma IdStatementInjective(i: int, j: int, mid: string, x: string, y: string, tail: string)
    requires |mid| > 0 && mid[0] == ']'
    requires IdStatement(i, mid, x, tail) == IdStatement(j, mid, y, tail)
    ensures i == j && CStr(x) == CStr(y)
  {
    IdStatementRoundTrip(i, mid, x, tail);
    IdStatementRoundTrip(j, mid, y, tail);
  }

  /** add_command: appends a command line to automaton id. */
  function AddCommand(id: int, line: string): (r: string)
    ensures ReadIdStatement(r, "].commands.emplace_back(\"", "\");") == Some((id, CStr(line)))
  {
    IdStatementRoundTrip(id, "].commands.emplace_back(\"", line, "\");");
    IdStatement(id, "].commands.emplace_back(\"", line, "\");")
  }

  /** init_automata: builds automaton id from a pattern. */
  function InitAutomata(id: int, regex: string): (r: string)
    ensures ReadIdStatement(r, "] = \"", "\";") == Some((id, CStr(regex)))
  {
    IdStatementRoundTrip(id, "] = \"", regex, "\";");
    IdStatement(id, "] = \"", regex, "\";")
  }

  /** set_name: names automaton id. */
  function SetName(id: int, name: string): (r: string)
    ensures ReadIdStatement(r, "].name = \"", "\";") == Some((id, CStr(name)))
  {
    IdStatementRoundTrip(id, "].name = \"", name, "\";");
    IdStatement(id, "].name = \"", name, "\";")
  }

  /** set_name statements for different automata, or different names,
      differ. */
  lemma SetNameInjective(i: int, j: int, x: string, y: string)
    requires SetName(i, x) == SetName(j, y)
    ensures i == j && CStr(x) == CStr(y)
  {
    IdStatementInjective(i, j, "].name = \"", x, y, "\";");
  }

  /** A statement around one string argument: head, argument, tail. */
  function Wrapped(head: string, x: string, tail: string): string {
    head + CStr(x) + tail
  }

  /** The middle of o once head and tail are cut off. */
  function ReadWrapped(o: string, head: string, tail: string): Option<string> {
    if |o| < |head| + |tail| then None else Some(o[|head|..|o| - |tail|])
  }

  lemma WrappedRoundTrip(head: string, x: string, tail: string)
    ensures ReadWrapped(Wrapped(head, x, tail), head, tail) == Some(CStr(x))
  {
    var o := Wrapped(head, x, tail);
    assert o[|head|..|o| - |tail|] == CStr(x);
  }

  /** set_start: the start state of the lexer. */
  function SetStart(state: string): (r: string)
    ensures ReadWrapped(r, "START = \"", "\";") == Some(CStr(state))
  {
    WrappedRoundTrip("START = \"", state, "\";");
    Wrapped("START = \"", state, "\";")
  }

  /** add_state: one lexer state name. */
  function AddState(state: string): (r: string)
    ensures ReadWrapped(r, "STATES.emplace_back(\"", "\");") == Some(CStr(state))
  {
    WrappedRoundTrip("STATES.emplace_back(\"", state, "\");");
    Wrapped("STATES.emplace_back(\"", state, "\");")
  }

  /** add_symbol: one token name. */
  function AddSymbol(symbol: string): (r: string)
    ensures ReadWrapped(r, "SYMBOLS.emplace_back(\"", "\");") == Some(CStr(symbol))
  {
    WrappedRoundTrip("SYMBOLS.emplace_back(\"", symbol, "\");");
    Wrapped("SYMBOLS.emplace_back(\"", symbol, "\");")
  }

  /** Index of the last c in s, or -1 when there is none. */
  function LastIndex(s: string, c: char): (i: int)
    ensures -1 <= i < |s|
    ensures 0 <= i ==> s[i] == c
    ensures forall j :: i < j < |s| ==> s[j] != c
  {
    if |s| == 0 then -1
    else if s[|s| - 1] == c then |s| - 1
    else LastIndex(s[..|s| - 1], c)
  }

  /** The last c of a + [c] + d, when d has none, is the one between. */
  lemma {:induction false} LastIndexSplit(a: string, c: char, d: string)
    requires c !in d
    ensures LastIndex(a + [c] + d, c) == |a|
    decreases |d|
  {
    var s := a + [c] + d;
    if |d| == 0 {
      assert s[|s| - 1] == c;
    } else {
      assert s[|s| - 1] == d[|d| - 1] != c;
      assert s[..|s| - 1] == a + [c] + d[..|d| - 1];
      LastIndexSplit(a, c, d[..|d| - 1]);
    }
  }

  /** A statement with a string argument first and an id after it: head,
      the string, mid (which ends with '('), the id and the tail. */
  function NameIdStatement(head: string, x: string, mid: string, id: int, tail: string): string {
    head + CStr(x) + mid + IntToDecimal(id) + tail
  }

  /** Reads such a statement back: the id starts after the last '('. */
  function ReadNameIdStatement(o: string, head: string, mid: string, tail: string): Option<(string, int)> {
    var p := LastIndex(o, '(');
    if p < 0 || p < |head| + |mid| - 1 || |o| < p + 1 + |tail| then None
    else ReadAround(o, p, head, mid, tail)
  }

  /** The string between head and mid, and the id between the '(' at p and
      the tail. */
  function ReadAround(o: string, p: nat, head: string, mid: string, tail: string): Option<(string, int)>
    requires |head| + |mid| - 1 <= p && p + 1 + |tail| <= |o|
  {
    var id :- LeadingInteger(o[p + 1..|o| - |tail|]);
    Some((o[|head|..p + 1 - |mid|], id))
  }

  /** A printed id followed by a tail without '(' has no '('. */
  lemma NoParenAfterId(id: int, tail: string)
    requires '(' !in tail
    ensures '(' !in IntToDecimal(id) + tail
  {
    var d := IntToDecimal(id);
    DecimalChars(id);
    forall j | 0 <= j < |d + tail| ensures (d + tail)[j] != '(' {
      if j < |d| {
        assert (d + tail)[j] == d[j];
      } else {
        assert (d + tail)[j] == tail[j - |d|];
      }
    }
  }

  /** The last '(' of such a statement is the one that ends mid. */
  lemma NameIdLastParen(head: string, x: string, mid: string, id: int, tail: string)
    requires |mid| > 0 && mid[|mid| - 1] == '(' && '(' !in tail
    ensures LastIndex(NameIdStatement(head, x, mid, id, tail), '(') == |head| + |CStr(x)| + |mid| - 1
  {
    var a := head + CStr(x) + mid[..|mid| - 1];
    NoParenAfterId(id, tail);
    assert NameIdStatement(head, x, mid, id, tail) == a + ['('] + (IntToDecimal(id) + tail);
    LastIndexSplit(a, '(', IntToDecimal(id) + tail);
  }

  /** What the reader needs of a statement: the last '(' at p, the id
      printed between it and the tail, the string between head and mid. */
  lemma ReadNameIdOf(o: string, head: string, mid: string, tail: string, x: string, id: int, p: nat)
    requires LastIndex(o, '(') == p && |head| + |mid| - 1 <= p && p + 1 + |tail| <= |o|
    requires o[p + 1..|o| - |tail|] == IntToDecimal(id) && o[|head|..p + 1 - |mid|] == x
    ensures ReadNameIdStatement(o, head, mid, tail) == Some((x, id))
  {
    LeadingIntegerOfDecimal(id);
  }

  lemma NameIdRoundTrip(head: string, x: string, mid: string, id: int, tail: string)
    requires |mid| > 0 && mid[|mid| - 1] == '(' && '(' !in tail
    ensures ReadNameIdStatement(NameIdStatement(head, x, mid, id, tail), head, mid, tail) == Some((CStr(x), id))
  {
    var o := NameIdStatement(head, x, mid, id, tail);
    NameIdLastParen(head, x, mid, id, tail);
    var p := |head| + |CStr(x)| + |mid| - 1;
    assert o[p + 1..|o| - |tail|] == IntToDecimal(id);
    assert o[|head|..p + 1 - |mid|] == CStr(x);
    ReadNameIdOf(o, head, mid, tail, CStr(x), id, p);
  }

  /** add_automata: registers automaton id under a lexer state. The state
      name comes first and may hold any character, so the id is found
      after the last '('. */
  function AddAutomata(state: string, id: int): (r: string)
    ensures ReadNameIdStatement(r, "TABLE[\"", "\"].push_back(", ");") == Some((CStr(state), id))
  {
    NameIdRoundTrip("TABLE[\"", state, "\"].push_back(", id, ");");
    NameIdStatement("TABLE[\"", state, "\"].push_back(", id, ");")
  }

  /** add_automata statements for different states, or different ids,
      differ. */
  lemma AddAutomataInjective(s1: string, i: int, s2: string, j: int)
    requires AddAutomata(s1, i) == AddAutomata(s2, j)
    ensures CStr(s1) == CStr(s2) && i == j
  {
  }
}
