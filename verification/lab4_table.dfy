/** The code generator's symbol table: the scoped table of the semantic
    checker with two changes. Names are normalised first (a terminal line
    "IDN <line> <name>" stands for <name>), and inserting over an entry that
    is declared but not yet defined replaces it. */
module NormTable {
  import opened Wrappers
  import opened Text
  import opened LrUtils
  import opened Tree
  import opened Scopes

  /** The third space-separated word of s: the rest of s after two
      ConsumeNextWord calls, read up to the next space. */
  function ThirdWord(s: string): (w: string)
    ensures ' ' !in w
  {
    var (_, r1) := ConsumeNextWord(s, ' ');
    var (_, r2) := ConsumeNextWord(r1, ' ');
    ConsumeNextWord(r2, ' ').0
  }

  /** extractIdentifier as the source spells it: any name that merely
      begins with "IDN" is cut down to its third word. */
  function ExtractIdentifierAsWritten(name: string): (id: string)
    ensures !StartsWith(name, "IDN") ==> id == name
  {
    if StartsWith(name, "IDN") then ThirdWord(name) else name
  }

  /** extractIdentifier as intended: only the terminal form "IDN ..." (the
      token name followed by a space) is cut down to its third word. */
  function ExtractIdentifier(name: string): (id: string)
    ensures !StartsWith(name, "IDN ") ==> id == name
    ensures StartsWith(name, "IDN ") ==> ' ' !in id
  {
    if StartsWith(name, "IDN ") then ThirdWord(name) else name
  }

  /** The terminal line of an identifier is read as the identifier. */
  lemma ExtractOfTerminal(line: string, name: string)
    requires ' ' !in line && ' ' !in name
    ensures ExtractIdentifier("IDN" + [' '] + line + [' '] + name) == name
    ensures ExtractIdentifierAsWritten("IDN" + [' '] + line + [' '] + name) == name
  {
    var r1 := line + [' '] + name;
    var s := "IDN" + [' '] + r1;
    assert "IDN" + [' '] + line + [' '] + name == s;
    assert StartsWith(s, "IDN ") && StartsWith(s, "IDN");
    ConsumeAt("IDN", r1);
    ConsumeAt(line, name);
    WordsOfWordConsume(name);
  }

  lemma WordsOfWordConsume(w: string)
    requires ' ' !in w
    ensures ConsumeNextWord(w, ' ').0 == w
  {
  }

  /** Normalising twice is normalising once. */
  lemma ExtractIdempotent(name: string)
    ensures ExtractIdentifier(ExtractIdentifier(name)) == ExtractIdentifier(name)
  {
    if StartsWith(name, "IDN ") {
      NoIdnPrefix(ExtractIdentifier(name));
    }
  }

  lemma NoIdnPrefix(s: string)
    requires ' ' !in s
    ensures !StartsWith(s, "IDN ")
  {
    if |s| >= 4 {
      assert s[3] in s;
      assert s[..4][3] == s[3];
    }
  }

  /** lookup as the source spells it: the name is normalised in every scope
      it passes through, including the scopes of the parent chain. */
  function LookupAsWritten(t: Table, name: string): (r: Option<Entry>)
    decreases t
  {
    var id := ExtractIdentifierAsWritten(name);
    if id in t.symbols then Some(t.symbols[id])
    else match t.parent
      case None => None
      case Some(p) => LookupAsWritten(p, id)
  }

  /** lookup with the intended normalisation, same structure. */
  function NormLookup(t: Table, name: string): (r: Option<Entry>)
    decreases t
  {
    var id := ExtractIdentifier(name);
    if id in t.symbols then Some(t.symbols[id])
    else match t.parent
      case None => None
      case Some(p) => NormLookup(p, id)
  }

  /** Because the intended normalisation is idempotent, renormalising in the
      parent scopes is harmless: lookup is the plain scoped lookup of the
      normalised name. */
  lemma {:induction false} NormLookupIsLookup(t: Table, name: string)
    ensures NormLookup(t, name) == Lookup(t, ExtractIdentifier(name))
    decreases t
  {
    var id := ExtractIdentifier(name);
    if id !in t.symbols {
      match t.parent
      case None =>
      case Some(p) =>
        NormLookupIsLookup(p, id);
        ExtractIdempotent(name);
    }
  }

  /** As written, a name that begins with IDN but is not a terminal line
      (an identifier such as IDNa itself) normalises to "". */
  lemma ExtractAsWrittenLosesIdnName(n: string)
    requires StartsWith(n, "IDN") && ' ' !in n
    ensures ExtractIdentifierAsWritten(n) == ""
    ensures ExtractIdentifier(n) == n
  {
    NoIdnPrefix(n);
    var none := n[|n|..];
    assert none == "" && ' ' !in none;
    assert ConsumeNextWord(n, ' ') == (n, none);
    assert ConsumeNextWord(none, ' ') == (none, none);
  }

  /** So an identifier whose own name begins with IDN is lost in every
      enclosing scope: its terminal line normalises to the name, which the
      parent scope normalises again to "". */
  lemma LookupAsWrittenLosesIdnNames(n: string, line: string, e: Entry)
    requires StartsWith(n, "IDN") && ' ' !in n && ' ' !in line
    ensures var global := Table(map[n := e], None);
      var inner := CreateChildScope(global);
      var terminal := "IDN" + [' '] + line + [' '] + n;
      LookupAsWritten(inner, terminal) == None &&
      NormLookup(inner, terminal) == Some(e)
  {
    var global := Table(map[n := e], None);
    var inner := CreateChildScope(global);
    var terminal := "IDN" + [' '] + line + [' '] + n;
    ExtractOfTerminal(line, n);
    ExtractAsWrittenLosesIdnName(n);
    assert n != "";
    assert LookupAsWritten(global, n) == None;
    assert LookupAsWritten(inner, terminal) == LookupAsWritten(global, n);
    assert NormLookup(global, n) == Some(e);
  }

  /** insert: an existing entry that is not yet defined is replaced (true);
      an existing defined entry refuses (false, table unchanged); a new name
      is added (true). */
  function NormInsert(t: Table, name: string, e: Entry): (r: (bool, Table))
    ensures var id := ExtractIdentifier(name);
      (r.0 <==> id !in t.symbols || !t.symbols[id].isDefined) &&
      (r.0 ==> r.1 == t.(symbols := t.symbols[id := e])) &&
      (!r.0 ==> r.1 == t)
  {
    var id := ExtractIdentifier(name);
    if id in t.symbols then
      if !t.symbols[id].isDefined then (true, t.(symbols := t.symbols[id := e]))
      else (false, t)
    else (true, t.(symbols := t.symbols[id := e]))
  }

  /** After an accepted insert, the name (in any spelling that normalises
      to the same identifier) finds the new entry. */
  lemma NormInsertThenLookup(t: Table, name: string, e: Entry, other: string)
    requires NormInsert(t, name, e).0
    requires ExtractIdentifier(other) == ExtractIdentifier(name)
    ensures NormLookup(NormInsert(t, name, e).1, other) == Some(e)
  {
    NormLookupIsLookup(NormInsert(t, name, e).1, other);
  }

  /** A declaration followed by its definition: the second insert succeeds
      exactly because the first entry was not defined. */
  lemma DefinitionReplacesDeclaration(t: Table, name: string, decl: Entry, def: Entry)
    requires ExtractIdentifier(name) !in t.symbols
    requires !decl.isDefined
    ensures var t1 := NormInsert(t, name, decl).1;
      NormInsert(t1, name, def).0 &&
      NormLookup(NormInsert(t1, name, def).1, name) == Some(def)
  {
    var t1 := NormInsert(t, name, decl).1;
    NormInsertThenLookup(t1, name, def, name);
  }
}
