/** The semantic checker's walk over the parse tree: the declarations, the
    statements, the dispatch from a node's symbol to its rule, and the two
    checks that run after the walk (main exists, every declared function is
    defined). A rule either yields the symbol table as it stands after the
    node, or the node whose production is reported before the checker stops. */
module Checker {
  import opened Wrappers
  import opened Text
  import opened CTypes
  import opened Tree
  import opened Scopes
  import opened NormTable
  import opened Validator
  import opened Expressions

  // ---------------------------------------------------------------------
  // Scopes as the declaration rules use them

  /** The outermost scope of the chain (the global scope). */
  function Global(t: Table): (g: Table)
    ensures g.parent.None?
    decreases t
  {
    match t.parent
    case None => t
    case Some(p) => Global(p)
  }

  /** The number of scopes in the chain. */
  function Depth(t: Table): (d: nat)
    ensures d >= 1
    decreases t
  {
    match t.parent
    case None => 1
    case Some(p) => 1 + Depth(p)
  }

  /** Insert into the global scope, whatever the current scope is; the
      inner scopes stay as they are. */
  function InsertGlobal(t: Table, name: string, e: Entry): (r: Table)
    decreases t
  {
    match t.parent
    case None => NormInsert(t, name, e).1
    case Some(p) => t.(parent := Some(InsertGlobal(p, name, e)))
  }

  /** InsertGlobal changes the global scope as an insert there would, and
      nothing else: the same number of scopes, the same current scope. */
  lemma {:induction false} InsertGlobalOnlyGlobal(t: Table, name: string, e: Entry)
    ensures Global(InsertGlobal(t, name, e)) == NormInsert(Global(t), name, e).1
    ensures Depth(InsertGlobal(t, name, e)) == Depth(t)
    ensures t.parent.Some? ==> InsertGlobal(t, name, e).symbols == t.symbols
    decreases t
  {
    match t.parent
    case None =>
    case Some(p) => InsertGlobalOnlyGlobal(p, name, e);
  }

  /** The entry lookup hands back, marked defined in place:
      the change lands in the innermost scope holding the name. */
  function MarkDefined(t: Table, name: string): (r: Table)
    decreases t
  {
    var id := ExtractIdentifier(name);
    if id in t.symbols then t.(symbols := t.symbols[id := t.symbols[id].(isDefined := true)])
    else match t.parent
      case None => t
      case Some(p) => t.(parent := Some(MarkDefined(p, id)))
  }

  /** After marking, the name finds the same entry as before, now defined. */
  lemma {:induction false} MarkDefinedLookup(t: Table, name: string)
    requires NormLookup(t, name).Some?
    ensures NormLookup(MarkDefined(t, name), name) == Some(NormLookup(t, name).value.(isDefined := true))
    ensures Depth(MarkDefined(t, name)) == Depth(t)
    decreases t
  {
    var id := ExtractIdentifier(name);
    if id !in t.symbols {
      match t.parent
      case None =>
      case Some(p) =>
        ExtractIdempotent(name);
        MarkDefinedLookup(p, id);
    }
  }

  /** Leaving a function body: back to the enclosing scope, which carries
      whatever the body added to the global scope. */
  function Leave(t: Table): (r: Table)
    ensures t.parent.Some? ==> r == t.parent.value
  {
    match t.parent
    case None => t
    case Some(p) => p
  }

  // ---------------------------------------------------------------------
  // Parameters

  /** <deklaracija_parametra>. `declared` is the type the <ime_tipa> child
      carries when the rule reads it; the rule itself never computes it.
      A parameter shorter than two children is skipped; a void parameter or
      a name visible in any scope is reported; otherwise the parameter (an
      array when a bracket follows the name) enters the current scope. */
  function ParamDecl(n: Node, t: Table, declared: TypeInfo): (r: Outcome<(seq<TypeInfo>, Table)>)
    ensures |n.children| < 2 ==> r == Ok(([], t))
    ensures |n.children| >= 2 && IsVoid(declared) ==> r == Err(n)
    ensures r.Ok? && |n.children| >= 2 ==>
      (|r.value.0| == 1 && !IsVoid(declared) && NormLookup(t, n.children[1].content).None?)
  {
    if |n.children| < 2 then Ok(([], t))
    else
      var name := n.children[1].content;
      if IsVoid(declared) then Err(n)
      else
        var ty := if |n.children| > 2 && n.children[2].symbol == "L_UGL_ZAGRADA"
          then ArrayType(declared.base, declared.isConst) else declared;
        if NormLookup(t, name).Some? then Err(n)
        else Ok(([ty], NormInsert(t, name, Entry(name, ty, false, -1)).1))
  }

  /** The names the duplicate check of a parameter list compares: the name
      child of each direct child that is a <deklaracija_parametra>, or None
      when such a child has no name child. */
  function DirectParamNames(cs: seq<Node>): Option<seq<string>>
  {
    if |cs| == 0 then Some([])
    else
      var rest :- DirectParamNames(cs[1..]);
      if cs[0].symbol != "<deklaracija_parametra>" then Some(rest)
      else if |cs[0].children| < 2 then None
      else Some([cs[0].children[1].content] + rest)
  }

  predicate Distinct(names: seq<string>) {
    forall i, j :: 0 <= i < j < |names| ==> names[i] != names[j]
  }

  /** <lista_parametara>: the parameter types, first to last, and the table
      after the parameters were declared. An empty list and any other shape
      than one or three children give no parameters. With three children
      the list is followed by a duplicate check over the direct children. */
  function ParamList(n: Node, t: Table): (r: Outcome<(seq<TypeInfo>, Table)>)
    decreases n
  {
    if |n.children| == 0 then Ok(([], t))
    else if |n.children| == 1 then ParamDecl(n.children[0], t, UNSET.ty)
    else if |n.children| == 3 then
      var (left, t1) :- ParamList(n.children[0], t);
      var (p, t2) :- ParamDecl(n.children[2], t1, UNSET.ty);
      match DirectParamNames(n.children)
      case None => Err(n)
      case Some(names) => if !Distinct(names) then Err(n) else Ok((left + p, t2))
    else Ok(([], t))
  }

  /** The leftmost parameter of a parameter list. */
  function FirstParam(n: Node): Option<Node>
    decreases n
  {
    if |n.children| == 1 then Some(n.children[0])
    else if |n.children| == 3 then FirstParam(n.children[0])
    else None
  }

  /** As written no rule computes a parameter's declared type before the
      parameter is read, so it is the default (void): any list holding a
      parameter with a name is reported. */
  lemma {:induction false} ParameterListRejected(n: Node, t: Table)
    requires FirstParam(n).Some? && |FirstParam(n).value.children| >= 2
    ensures ParamList(n, t).Err?
    decreases n
  {
    if |n.children| == 3 {
      ParameterListRejected(n.children[0], t);
    }
  }

  /** On the tree of `a, b` the direct children are the inner list, the comma
      and one parameter, so the duplicate check has one name and never
      fires; repeated names are not caught by it. */
  lemma DuplicateCheckSeesOneName(list: Node, comma: Node, p: Node)
    requires list.symbol == "<lista_parametara>" && comma.symbol == "ZAREZ"
    requires p.symbol == "<deklaracija_parametra>" && |p.children| >= 2
    ensures DirectParamNames([list, comma, p]) == Some([p.children[1].content])
    ensures Distinct([p.children[1].content])
  {
    var name := p.children[1].content;
    assert [list, comma, p][1..] == [comma, p];
    assert [comma, p][1..] == [p];
    assert [p][1..] == [];
    assert DirectParamNames([p][1..]) == Some([]);
    assert [name] + [] == [name];
    assert DirectParamNames([p]) == Some([name]);
    assert DirectParamNames([comma, p]) == Some([name]);
  }

  // ---------------------------------------------------------------------
  // Declarators and initialisers

  /** The largest array a declaration may declare. */
  const MAX_ARRAY_SIZE: int := 1024

  /** <izravni_deklarator> with the type the declaration hands down.
      - IDN: a void type or a name visible in any scope is reported;
        otherwise the name is declared in the current scope;
      - IDN [ BROJ ]: as above, and the size must read as an int in 1..1024;
        the entry is an array of the base type;
      - IDN ( ... ) with L_ZAGRADA second: a function of that return type
        taking void, declared in the global scope;
      - any other four-child form: a function whose parameters come from the
        list; an existing entry of another type is reported;
      - anything else is reported. */
  function Declarator(n: Node, inherited: TypeInfo, t: Table): (r: Outcome<Table>)
  {
    if |n.children| == 0 then Err(n)
    else
      var name := n.children[0].content;
      if |n.children| == 1 then
        if IsVoid(inherited) || NormLookup(t, name).Some? then Err(n)
        else Ok(NormInsert(t, name, Entry(name, inherited, false, -1)).1)
      else if |n.children| == 4 && IsToken(n.children[1], "L_UGL_ZAGRADA") then
        if IsVoid(inherited) then Err(n)
        else match Stoi(n.children[2].lexicalUnit)
          case None => Err(n)
          case Some(size) =>
            if size <= 0 || size > MAX_ARRAY_SIZE then Err(n)
            else if NormLookup(t, name).Some? then Err(n)
            else Ok(NormInsert(t, name, Entry(name, ArrayType(inherited.base, inherited.isConst), false, size)).1)
      else if |n.children| == 4 && IsToken(n.children[1], "L_ZAGRADA") then
        var fname := ExtractIdentifier(n.children[0].lexicalUnit);
        Ok(InsertGlobal(t, fname, Entry(fname, FunctionType(inherited.base, [VOID_TYPE]), false, -1)))
      else if |n.children| == 4 then
        var (ps, t1) :- ParamList(n.children[2], t);
        var fty := FunctionType(inherited.base, ps);
        match NormLookup(t1, name)
        case Some(e) => if e.ty != fty then Err(n) else Ok(t1)
        case None => Ok(NormInsert(t1, name, Entry(name, fty, false, -1)).1)
      else Err(n)
  }

  /** Follows first children k levels down; None when a level has none. */
  function Descend(m: Node, k: nat): Option<Node>
    decreases k
  {
    if k == 0 then Some(m)
    else if |m.children| == 0 then None
    else Descend(m.children[0], k - 1)
  }

  /** The type and element count of an initialiser. */
  datatype Init = Init(ty: TypeInfo, size: int)

  /** <lista_izraza_pridruzivanja>: the element types as the parameters of a
      void function type, and the element count. Other shapes leave both
      unset (void, -1). */
  function AssignList(n: Node, t: Table): (r: Outcome<Init>)
    decreases n
  {
    if |n.children| == 1 then
      var a :- Assign(n.children[0], t);
      Ok(Init(FunctionType(VOID, [a.ty]), 1))
    else if |n.children| == 3 then
      var left :- AssignList(n.children[0], t);
      var a :- Assign(n.children[2], t);
      Ok(Init(FunctionType(VOID, left.ty.params + [a.ty]), left.size + 1))
    else Ok(Init(VOID_TYPE, -1))
  }

  /** <inicijalizator>. A single expression is checked; if the node seven
      first-children down is a string literal, the initialiser is that many
      chars as there are characters between the quotes plus the terminator,
      otherwise it is the expression with size 1. A braced list gives the
      list's types and count; other shapes leave both unset. */
  function Initializer(n: Node, t: Table): (r: Outcome<Init>)
  {
    if |n.children| == 0 then Err(n)
    else if |n.children| == 1 then
      var a :- Assign(n.children[0], t);
      match Descend(n.children[0], 6)
      case None => Err(n)
      case Some(leaf) =>
        if leaf.symbol != "NIZ_ZNAKOVA" then Ok(Init(a.ty, 1))
        else if |leaf.lexicalUnit| == 0 then Err(n)
        else
          var count := |leaf.lexicalUnit| - 1;
          Ok(Init(FunctionType(VOID, seq(count, _ => CHAR_TYPE)), count))
    else if |n.children| == 3 then AssignList(n.children[1], t)
    else Ok(Init(VOID_TYPE, -1))
  }

  /** <init_deklarator>: declare, then check the initialiser against the
      declared type. A declared array accepts any initialiser; a char takes
      only a char-based initialiser; anything else one that converts to it.
      Without an initialiser a const is reported. */
  function InitDecl(n: Node, inherited: TypeInfo, t: Table): (r: Outcome<Table>)
  {
    if |n.children| == 0 then Ok(t)
    else
      var t1 :- Declarator(n.children[0], inherited, t);
      if |n.children| > 1 then
        if |n.children| < 3 then Err(n)
        else
          var init :- Initializer(n.children[2], t1);
          if inherited.isArray then Ok(t1)
          else if inherited.base == CHAR then
            if init.ty.base != CHAR then Err(n) else Ok(t1)
          else if !Compatible(init.ty, inherited) then Err(n)
          else Ok(t1)
      else if inherited.isConst then Err(n)
      else Ok(t1)
  }

  /** <lista_init_deklaratora>: each declarator, left to right, with the same
      type. */
  function InitDeclList(n: Node, inherited: TypeInfo, t: Table): (r: Outcome<Table>)
    decreases n
  {
    if |n.children| == 0 then Ok(t)
    else if |n.children| == 1 then InitDecl(n.children[0], inherited, t)
    else if |n.children| < 3 then Err(n)
    else
      var t1 :- InitDeclList(n.children[0], inherited, t);
      InitDecl(n.children[2], inherited, t1)
  }

  /** The value type a declaration's type specifier names: int, char or
      void by its keyword, const when the type name starts with const; the
      default (void) for any other keyword. */
  function SpecifiedType(keyword: Node, isConst: bool): (ty: TypeInfo)
    ensures !IsFunc(ty) && !ty.isArray
  {
    if IsToken(keyword, "KR_CHAR") then ValueType(CHAR, isConst, false)
    else if IsToken(keyword, "KR_INT") then ValueType(INT, isConst, false)
    else if IsToken(keyword, "KR_VOID") then ValueType(VOID, isConst, false)
    else VOID_TYPE
  }

  /** <deklaracija>: read the type off the type name and hand it to every
      declarator of the list. */
  function Decl(n: Node, t: Table): (r: Outcome<Table>)
  {
    if |n.children| < 2 || |n.children[0].children| == 0 then Err(n)
    else
      var typeName := n.children[0];
      var isConst := IsToken(typeName.children[0], "KR_CONST");
      if isConst && |typeName.children| < 2 then Err(n)
      else
        var spec := if isConst then typeName.children[1] else typeName.children[0];
        if |spec.children| == 0 then Err(n)
        else InitDeclList(n.children[1], SpecifiedType(spec.children[0], isConst), t)
  }

  /** <lista_deklaracija>: each declaration, left to right. */
  function DeclList(n: Node, t: Table): (r: Outcome<Table>)
    decreases n
  {
    if |n.children| == 0 then Ok(t)
    else if |n.children| == 1 then Decl(n.children[0], t)
    else
      var t1 :- DeclList(n.children[0], t);
      Decl(n.children[1], t1)
  }

  // ---------------------------------------------------------------------
  // Statements that do not walk the tree

  /** <izraz_naredba>: int for an empty statement, else the expression's type. */
  function ExprStatement(n: Node, t: Table): (r: Outcome<TypeInfo>)
  {
    if |n.children| == 2 then
      var e :- Comma(n.children[0], t);
      Ok(e.ty)
    else Ok(INT_TYPE)
  }

  /** The controlling expressions of <naredba_petlje>: the condition of a
      while (five children), or the two expression statements and the
      optional step of a for (six or seven). The condition must convert to
      int. Other shapes check nothing. */
  function LoopHeader(n: Node, t: Table): (r: Outcome<()>)
  {
    if |n.children| == 5 then
      var c :- Comma(n.children[2], t);
      if !IntConvertible(c.ty) then Err(n) else Ok(())
    else if |n.children| == 6 || |n.children| == 7 then
      var _ :- ExprStatement(n.children[2], t);
      var c :- ExprStatement(n.children[3], t);
      if !IntConvertible(c) then Err(n)
      else if |n.children| == 7 then
        var _ :- Comma(n.children[4], t);
        Ok(())
      else Ok(())
    else Ok(())
  }

  // ---------------------------------------------------------------------
  // The walk

  /** Where a node sits: the symbols of its ancestors, root first, and the
      return type recorded by the nearest enclosing function definition
      (None outside every definition). */
  datatype Ctx = Ctx(path: seq<string>, fn: Option<TypeInfo>)

  /** The context of n's children. */
  function Enter(ctx: Ctx, n: Node): (c: Ctx)
    ensures c.path == ctx.path + [n.symbol] && c.fn == ctx.fn
  {
    ctx.(path := ctx.path + [n.symbol])
  }

  /** break and continue look for a loop at the node itself and at every
      ancestor that has a parent, so the root does not count. */
  predicate InsideLoop(ctx: Ctx, n: Node) {
    |ctx.path| > 0 && "<naredba_petlje>" in (ctx.path + [n.symbol])[1..]
  }

  /** The rules a symbol can be dispatched to. */
  datatype Handler =
    | TranslationUnit | PrimaryExpr | PostfixExpr | ArgumentList | UnaryExpr | UnaryOp
    | CastExpr | TypeNameRule | TypeSpecifierRule | BinaryExpr(level: Level) | AssignExpr
    | CommaExpr | Compound | StatementList | Statement | ExpressionStatement | Branching
    | Looping | Jumping | ExternalDecl | FunctionDef | ParameterList | ParameterDecl
    | DeclarationList | Declaration

  /** The symbol each rule is dispatched from. */
  function SymbolOf(h: Handler): string {
    match h
    case TranslationUnit => "<prijevodna_jedinica>"
    case PrimaryExpr => "<primarni_izraz>"
    case PostfixExpr => "<postfiks_izraz>"
    case ArgumentList => "<lista_argumenata>"
    case UnaryExpr => "<unarni_izraz>"
    case UnaryOp => "<unarni_operator>"
    case CastExpr => "<cast_izraz>"
    case TypeNameRule => "<ime_tipa>"
    case TypeSpecifierRule => "<specifikator_tipa>"
    case BinaryExpr(l) => LevelSymbol(l)
    case AssignExpr => "<izraz_pridruzivanja>"
    case CommaExpr => "<izraz>"
    case Compound => "<slozena_naredba>"
    case StatementList => "<lista_naredbi>"
    case Statement => "<naredba>"
    case ExpressionStatement => "<izraz_naredba>"
    case Branching => "<naredba_grananja>"
    case Looping => "<naredba_petlje>"
    case Jumping => "<naredba_skoka>"
    case ExternalDecl => "<vanjska_deklaracija>"
    case FunctionDef => "<definicija_funkcije>"
    case ParameterList => "<lista_parametara>"
    case ParameterDecl => "<deklaracija_parametra>"
    case DeclarationList => "<lista_deklaracija>"
    case Declaration => "<deklaracija>"
  }

  function LevelSymbol(l: Level): string {
    match l
    case Mult => "<multiplikativni_izraz>"
    case Add => "<aditivni_izraz>"
    case Rel => "<odnosni_izraz>"
    case Eq => "<jednakosni_izraz>"
    case BitAnd => "<bin_i_izraz>"
    case BitXor => "<bin_xili_izraz>"
    case BitOr => "<bin_ili_izraz>"
    case And => "<log_i_izraz>"
    case Or => "<log_ili_izraz>"
  }

  /** The rules in the order process tries them. */
  const RULE_ORDER: seq<Handler> := [
    TranslationUnit, PrimaryExpr, PostfixExpr, ArgumentList, UnaryExpr, UnaryOp, CastExpr,
    TypeNameRule, TypeSpecifierRule, BinaryExpr(Mult), BinaryExpr(Add), BinaryExpr(Rel),
    BinaryExpr(Eq), BinaryExpr(BitAnd), BinaryExpr(BitXor), BinaryExpr(BitOr), BinaryExpr(And),
    BinaryExpr(Or), AssignExpr, CommaExpr, Compound, StatementList, Statement,
    ExpressionStatement, Branching, Looping, Jumping, ExternalDecl, FunctionDef, ParameterList,
    ParameterDecl, DeclarationList, Declaration]

  /** The first of `rules` whose symbol is s: the if-else chain of process. */
  function FirstRule(rules: seq<Handler>, s: string): (h: Option<Handler>)
    ensures h.Some? ==> h.value in rules && SymbolOf(h.value) == s
    ensures h.None? <==> forall i :: 0 <= i < |rules| ==> SymbolOf(rules[i]) != s
  {
    if |rules| == 0 then None
    else if SymbolOf(rules[0]) == s then Some(rules[0])
    else
      var h := FirstRule(rules[1..], s);
      assert forall i :: 1 <= i < |rules| ==> rules[i] == rules[1..][i - 1];
      h
  }

  /** process's dispatch: the rule for a node's symbol, or None for a symbol
      no rule handles. */
  function HandlerOf(s: string): (h: Option<Handler>)
  {
    FirstRule(RULE_ORDER, s)
  }

  /** An expression rule's outcome as a step of the walk: the table is
      unchanged unless the rule reports. */
  function Checked<T>(r: Outcome<T>, t: Table): (s: Outcome<Table>)
    ensures s.Ok? <==> r.Ok?
    ensures s.Ok? ==> s.value == t
    ensures s.Err? ==> s.error == r.error
  {
    match r
    case Ok(_) => Ok(t)
    case Err(bad) => Err(bad)
  }

  /** process: the node's rule, or nothing for a symbol without one. */
  function Process(n: Node, t: Table, ctx: Ctx): (r: Outcome<Table>)
    decreases n, 4, 0
  {
    match HandlerOf(n.symbol)
    case None => Ok(t)
    case Some(h) => Handle(h, n, t, ctx)
  }

  function Handle(h: Handler, n: Node, t: Table, ctx: Ctx): (r: Outcome<Table>)
    decreases n, 3, 0
  {
    match h
    case TranslationUnit => ProcessAll(n, 0, t, ctx)
    case PrimaryExpr => Checked(Primary(n, t), t)
    case PostfixExpr => Checked(Postfix(n, t), t)
    case ArgumentList => Checked(ArgList(n, t), t)
    case UnaryExpr => Checked(Unary(n, t), t)
    case UnaryOp => Checked(UnaryOperator(n), t)
    case CastExpr => Checked(Cast(n, t), t)
    case TypeNameRule => Checked(TypeName(n), t)
    case TypeSpecifierRule => Checked(TypeSpecifier(n), t)
    case BinaryExpr(l) => Checked(Binary(l, n, t), t)
    case AssignExpr => Checked(Assign(n, t), t)
    case CommaExpr => Checked(Comma(n, t), t)
    case Compound => ProcessAll(n, 0, t, ctx)
    case StatementList => ProcessAll(n, 0, t, ctx)
    case Statement => ProcessAll(n, 0, t, ctx)
    case ExpressionStatement => Checked(ExprStatement(n, t), t)
    case Branching => Branch(n, t, ctx)
    case Looping => Loop(n, t, ctx)
    case Jumping => Checked(Jump(n, t, ctx), t)
    case ExternalDecl => ProcessAll(n, 0, t, ctx)
    case FunctionDef => Definition(n, t, ctx)
    case ParameterList =>
      var (_, t1) :- ParamList(n, t);
      Ok(t1)
    case ParameterDecl =>
      var (_, t1) :- ParamDecl(n, t, UNSET.ty);
      Ok(t1)
    case DeclarationList => DeclList(n, t)
    case Declaration => Decl(n, t)
  }

  /** processAll: every child in turn, unless the node is a terminal. */
  function ProcessAll(n: Node, i: nat, t: Table, ctx: Ctx): (r: Outcome<Table>)
    requires i <= |n.children|
    decreases n, 1, |n.children| - i
  {
    if i == |n.children| then Ok(t)
    else
      var t1 :- if IsTerminating(n) then Ok(t) else Process(n.children[i], t, Enter(ctx, n));
      ProcessAll(n, i + 1, t1, ctx)
  }

  /** <naredba_grananja>: the condition must convert to int; then every
      child is walked, the condition again included. */
  function Branch(n: Node, t: Table, ctx: Ctx): (r: Outcome<Table>)
    decreases n, 2, 0
  {
    if |n.children| < 3 then Err(n)
    else
      var c :- Comma(n.children[2], t);
      if !IntConvertible(c.ty) then Err(n) else ProcessAll(n, 0, t, ctx)
  }

  /** <naredba_petlje> as intended: the body is the last child, the
      statement of each of the three loop productions. The walk uses this
      corrected reading; LoopAsWritten keeps the source's fixed index. */
  function Loop(n: Node, t: Table, ctx: Ctx): (r: Outcome<Table>)
    decreases n, 2, 0
  {
    var _ :- LoopHeader(n, t);
    if 5 <= |n.children| <= 7 then ProcessAll(n.children[|n.children| - 1], 0, t, Enter(ctx, n))
    else Ok(t)
  }

  /** <naredba_skoka>: break and continue need an enclosing loop; return
      needs an enclosing function, and its value (void when there is none)
      must convert to that function's return type. */
  function Jump(n: Node, t: Table, ctx: Ctx): (r: Outcome<()>)
  {
    if |n.children| == 0 then Err(n)
    else if IsToken(n.children[0], "KR_CONTINUE") || IsToken(n.children[0], "KR_BREAK") then
      if InsideLoop(ctx, n) then Ok(()) else Err(n)
    else if IsToken(n.children[0], "KR_RETURN") then
      match ctx.fn
      case None => Err(n)
      case Some(ret) =>
        var value :- if |n.children| == 3 then Comma(n.children[1], t) else Ok(UNSET);
        if Compatible(value.ty, ValueType(ret.base, false, false)) then Ok(()) else Err(n)
    else Ok(())
  }

  /** The type a definition gives its name: a function taking void, a
      function of the parameter list (declared in the current scope first),
      or, for any other fourth child, the return type as a plain value. */
  function Signature(c: Node, ret: BasicType, t: Table): (r: Outcome<(TypeInfo, Table)>)
  {
    if IsToken(c, "KR_VOID") then Ok((FunctionType(ret, [VOID_TYPE]), t))
    else if c.symbol == "<lista_parametara>" then
      var (ps, t1) :- ParamList(c, t);
      Ok((FunctionType(ret, ps), t1))
    else Ok((ValueType(ret, false, false), t))
  }

  /** Records a definition: an earlier declaration must have the same type
      and becomes defined; otherwise a new defined entry is inserted. */
  function Define(n: Node, name: string, existing: Option<Entry>, ty: TypeInfo, t: Table): (r: Outcome<Table>)
  {
    match existing
    case Some(e) => if e.ty != ty then Err(n) else Ok(MarkDefined(t, name))
    case None =>
      var (inserted, t1) := NormInsert(t, name, Entry(name, ty, true, -1));
      if inserted then Ok(t1) else Err(n)
  }

  /** <definicija_funkcije>: a non-const return type, no earlier definition,
      a type matching any earlier declaration; then the parameters again in
      a new scope, and the body with this function's return type. */
  function Definition(n: Node, t: Table, ctx: Ctx): (r: Outcome<Table>)
    decreases n, 2, 0
  {
    if |n.children| < 4 then Err(n)
    else
      var ret :- TypeName(n.children[0]);
      var name := ExtractIdentifier(n.children[1].lexicalUnit);
      var existing := NormLookup(t, name);
      if ret.ty.isConst then Err(n)
      else if existing.Some? && existing.value.isDefined then Err(n)
      else
        var (ty, t1) :- Signature(n.children[3], ret.ty.base, t);
        var t2 :- Define(n, name, existing, ty, t1);
        var inner := CreateChildScope(t2);
        var t3 :- if n.children[3].symbol == "<lista_parametara>" then
          (var (_, s) :- ParamList(n.children[3], inner); Ok(s))
          else Ok(inner);
        var body := n.children[|n.children| - 1];
        var t4 :- if body.symbol == "<slozena_naredba>" then
          ProcessAll(body, 0, t3, Ctx(ctx.path + [n.symbol], Some(ret.ty)))
          else Ok(t3);
        Ok(Leave(t4))
  }

  /** <naredba_petlje> as the source spells it: for both for-loop
      productions the body is read at index 5, which in the seven-child
      production is the closing parenthesis. */
  function LoopAsWritten(n: Node, t: Table, ctx: Ctx): (r: Outcome<Table>)
  {
    var _ :- LoopHeader(n, t);
    if |n.children| == 5 then ProcessAll(n.children[4], 0, t, Enter(ctx, n))
    else if |n.children| == 6 || |n.children| == 7 then ProcessAll(n.children[5], 0, t, Enter(ctx, n))
    else Ok(t)
  }

  // ---------------------------------------------------------------------
  // After the walk

  /** A function declared but not defined. */
  predicate Undefined(e: Entry) { IsFunc(e.ty) && !e.isDefined }

  /** checkAllFunctionsDefined: the global names are visited in key order,
      and the first undefined function is the one reported. */
  function FirstUndefined(m: map<string, Entry>): (r: Option<string>)
    ensures r.None? <==> forall k :: k in m ==> !Undefined(m[k])
    ensures r.Some? ==>
      (r.value in m && Undefined(m[r.value]) &&
       forall k :: k in m && Undefined(m[k]) && k != r.value ==> StrLess(r.value, k))
  {
    var s := set k | k in m && Undefined(m[k]);
    if s == {} then
      assert forall k :: k in m ==> !Undefined(m[k]) by {
        forall k | k in m ensures !Undefined(m[k]) {
          assert k in s <==> Undefined(m[k]);
        }
      }
      None
    else
      LeastExists(s);
      LeastUnique(s);
      var k :| Least(s, k);
      assert forall x :: x in m && Undefined(m[x]) && x != k ==> StrLess(k, x) by {
        forall x | x in m && Undefined(m[x]) && x != k ensures StrLess(k, x) {
          assert x in s;
          StrLessTotal(k, x);
        }
      }
      Some(k)
  }

  /** checkMainExists: main, looked up from the scope the walk ends in, is a
      function returning int and taking void. */
  predicate MainDeclared(t: Table) {
    match NormLookup(t, "main")
    case None => false
    case Some(e) => IsFunc(e.ty) && e.ty.base == INT && IsVoidParam(e.ty)
  }

  /** What the checker prints: nothing, the reported production, "main",
      or the name of an undefined function. */
  datatype Verdict = Accepted | Reported(node: Node) | NoMain | UndefinedFunction(name: string)

  /** run: walk from the root with an empty global scope and no enclosing
      function, then the two final checks in order. */
  function Analyze(root: Node): (v: Verdict)
  {
    match Process(root, EMPTY_TABLE, Ctx([], None))
    case Err(bad) => Reported(bad)
    case Ok(t) =>
      if !MainDeclared(t) then NoMain
      else match FirstUndefined(t.symbols)
        case Some(name) => UndefinedFunction(name)
        case None => Accepted
  }
}

/** Properties of the checker's walk, rule by rule. */
module CheckerRules {
  import opened Wrappers
  import opened Text
  import opened CTypes
  import opened Tree
  import opened Scopes
  import opened NormTable
  import opened Validator
  import opened Expressions
  import opened Checker

  // ---------------------------------------------------------------------
  // Dispatch

  /** Every rule is in the dispatch order. */
  lemma EveryRuleOrdered(h: Handler)
    ensures h in RULE_ORDER
  {
    if h.BinaryExpr? {
      match h.level
      case Mult => assert RULE_ORDER[9] == h;
      case Add => assert RULE_ORDER[10] == h;
      case Rel => assert RULE_ORDER[11] == h;
      case Eq => assert RULE_ORDER[12] == h;
      case BitAnd => assert RULE_ORDER[13] == h;
      case BitXor => assert RULE_ORDER[14] == h;
      case BitOr => assert RULE_ORDER[15] == h;
      case And => assert RULE_ORDER[16] == h;
      case Or => assert RULE_ORDER[17] == h;
    }
  }

  /** Dispatch is exact: a symbol goes to a rule for that very symbol, the
      symbol of every rule goes to a rule, and every other symbol is
      ignored. */
  lemma DispatchExact(s: string)
    ensures HandlerOf(s).Some? ==> SymbolOf(HandlerOf(s).value) == s
    ensures HandlerOf(s).None? <==> forall h :: SymbolOf(h) != s
  {
    if HandlerOf(s).None? {
      forall h ensures SymbolOf(h) != s {
        EveryRuleOrdered(h);
      }
    }
  }

  /** The declarator-level symbols have no rule of their own: a node with
      one of them is skipped by process, and is only checked through the
      declaration that holds it. */
  lemma DeclaratorsNotDispatched(n: Node, t: Table, ctx: Ctx)
    requires n.symbol == "<init_deklarator>" || n.symbol == "<izravni_deklarator>" ||
      n.symbol == "<inicijalizator>" || n.symbol == "<lista_init_deklaratora>" ||
      n.symbol == "<lista_izraza_pridruzivanja>"
    ensures HandlerOf(n.symbol) == None
    ensures Process(n, t, ctx) == Ok(t)
  {
    forall h ensures SymbolOf(h) != n.symbol {
    }
    DispatchExact(n.symbol);
    UnhandledNodesSkip(n, t, ctx);
  }

  /** A node without a rule, and every terminal, leave the table alone. */
  lemma {:induction false} UnhandledNodesSkip(n: Node, t: Table, ctx: Ctx)
    ensures HandlerOf(n.symbol).None? ==> Process(n, t, ctx) == Ok(t)
    ensures IsTerminating(n) ==> ProcessAll(n, 0, t, ctx) == Ok(t)
  {
    if IsTerminating(n) {
      TerminalWalk(n, 0, t, ctx);
    }
  }

  lemma {:induction false} TerminalWalk(n: Node, i: nat, t: Table, ctx: Ctx)
    requires IsTerminating(n) && i <= |n.children|
    ensures ProcessAll(n, i, t, ctx) == Ok(t)
    decreases |n.children| - i
  {
    if i < |n.children| {
      TerminalWalk(n, i + 1, t, ctx);
    }
  }

  // ---------------------------------------------------------------------
  // Statements

  /** An empty expression statement has type int; otherwise it has the
      expression's type. */
  lemma ExprStatementRule(n: Node, t: Table)
    ensures |n.children| != 2 ==> ExprStatement(n, t) == Ok(INT_TYPE)
    ensures |n.children| == 2 ==>
      (ExprStatement(n, t).Ok? <==> Comma(n.children[0], t).Ok?) &&
      (ExprStatement(n, t).Ok? ==> ExprStatement(n, t).value == Comma(n.children[0], t).value.ty)
  {
  }

  /** if: the condition must convert to int, and then the whole statement is
      walked again. */
  lemma BranchRule(n: Node, t: Table, ctx: Ctx)
    requires |n.children| >= 3
    ensures Branch(n, t, ctx).Ok? ==>
      Comma(n.children[2], t).Ok? && IntConvertible(Comma(n.children[2], t).value.ty)
    ensures Comma(n.children[2], t).Ok? && IntConvertible(Comma(n.children[2], t).value.ty) ==>
      Branch(n, t, ctx) == ProcessAll(n, 0, t, ctx)
  {
  }

  /** while: the condition must convert to int. */
  lemma WhileRule(n: Node, t: Table, ctx: Ctx)
    requires |n.children| == 5
    ensures Loop(n, t, ctx).Ok? ==>
      Comma(n.children[2], t).Ok? && IntConvertible(Comma(n.children[2], t).value.ty)
  {
  }

  /** for: the second expression statement (the condition) must convert to
      int; an empty one is int and always does. */
  lemma ForRule(n: Node, t: Table, ctx: Ctx)
    requires |n.children| == 6 || |n.children| == 7
    ensures Loop(n, t, ctx).Ok? ==>
      ExprStatement(n.children[3], t).Ok? && IntConvertible(ExprStatement(n.children[3], t).value)
    ensures |n.children[3].children| != 2 ==> IntConvertible(ExprStatement(n.children[3], t).value)
  {
    CompatibleReflexive(INT_TYPE);
  }

  /** Every loop production's body is walked: an accepted loop has an
      accepted body, and the loop's table is the body's. */
  lemma LoopChecksBody(n: Node, t: Table, ctx: Ctx)
    requires 5 <= |n.children| <= 7
    ensures Loop(n, t, ctx).Ok? ==>
      Loop(n, t, ctx) == ProcessAll(n.children[|n.children| - 1], 0, t, Enter(ctx, n))
    ensures LoopHeader(n, t).Ok? ==>
      Loop(n, t, ctx) == ProcessAll(n.children[|n.children| - 1], 0, t, Enter(ctx, n))
  {
  }

  /** As written, the body of `for (a; b; c) body` is never walked: index 5
      holds the closing parenthesis, a terminal, so a body that would be
      reported is accepted. The two versions agree on every other shape. */
  lemma ForBodySkippedAsWritten(n: Node, t: Table, ctx: Ctx)
    requires |n.children| == 7 && LoopHeader(n, t).Ok?
    requires n.children[5].children == []
    requires ProcessAll(n.children[6], 0, t, Enter(ctx, n)).Err?
    ensures LoopAsWritten(n, t, ctx) == Ok(t)
    ensures Loop(n, t, ctx).Err?
  {
  }

  lemma LoopVersionsAgree(n: Node, t: Table, ctx: Ctx)
    requires |n.children| != 7
    ensures LoopAsWritten(n, t, ctx) == Loop(n, t, ctx)
  {
  }

  /** break and continue: accepted exactly inside a loop (the root itself
      not counted). */
  lemma BreakContinueRule(n: Node, t: Table, ctx: Ctx)
    requires |n.children| > 0
    requires IsToken(n.children[0], "KR_BREAK") || IsToken(n.children[0], "KR_CONTINUE")
    ensures Jump(n, t, ctx).Ok? <==> InsideLoop(ctx, n)
  {
  }

  /** A loop statement directly on the path makes break legal below it. */
  lemma InsideLoopOfEnter(ctx: Ctx, loop: Node, n: Node)
    requires loop.symbol == "<naredba_petlje>" && |ctx.path| > 0
    ensures InsideLoop(Enter(ctx, loop), n)
  {
    var all := ctx.path + [loop.symbol] + [n.symbol];
    assert (Enter(ctx, loop).path + [n.symbol])[1..][|ctx.path| - 1] == loop.symbol;
  }

  /** return: reported outside a function; otherwise accepted exactly when
      its value (void when absent) converts to the return type. */
  lemma ReturnRule(n: Node, t: Table, ctx: Ctx)
    requires |n.children| > 0 && IsToken(n.children[0], "KR_RETURN")
    requires !IsToken(n.children[0], "KR_BREAK") && !IsToken(n.children[0], "KR_CONTINUE")
    ensures ctx.fn.None? ==> Jump(n, t, ctx).Err?
    ensures ctx.fn.Some? && |n.children| != 3 ==>
      (Jump(n, t, ctx).Ok? <==> Compatible(VOID_TYPE, ValueType(ctx.fn.value.base, false, false)))
    ensures ctx.fn.Some? && |n.children| == 3 ==>
      (Jump(n, t, ctx).Ok? <==> (Comma(n.children[1], t).Ok? &&
        Compatible(Comma(n.children[1], t).value.ty, ValueType(ctx.fn.value.base, false, false))))
  {
  }

  /** So a bare `return;` is accepted in a void function and in no other. */
  lemma BareReturn(b: BasicType)
    ensures Compatible(VOID_TYPE, ValueType(b, false, false)) <==> b == VOID
  {
  }

  // ---------------------------------------------------------------------
  // Declarations

  /** A plain name: void or an already visible name is reported; otherwise
      the name is declared, undefined, with the handed-down type. */
  lemma ScalarDeclaratorRule(n: Node, ty: TypeInfo, t: Table)
    requires |n.children| == 1
    ensures var name := n.children[0].content;
      (Declarator(n, ty, t).Ok? <==> !IsVoid(ty) && NormLookup(t, name).None?) &&
      (Declarator(n, ty, t).Ok? ==>
        NormLookup(Declarator(n, ty, t).value, name) == Some(Entry(name, ty, false, -1)))
  {
    var name := n.children[0].content;
    if !IsVoid(ty) && NormLookup(t, name).None? {
      NormLookupIsLookup(t, name);
      var id := ExtractIdentifier(name);
      assert id !in t.symbols;
      NormInsertThenLookup(t, name, Entry(name, ty, false, -1), name);
    }
  }

  /** An array: the size, read as an int, must lie in 1..1024; the entry is
      an array of the handed-down base and const-ness and records the size. */
  lemma ArrayDeclaratorRule(n: Node, ty: TypeInfo, t: Table, size: int)
    requires |n.children| == 4 && IsToken(n.children[1], "L_UGL_ZAGRADA")
    requires n.children[2].lexicalUnit == IntToDecimal(size)
    requires !IsVoid(ty) && NormLookup(t, n.children[0].content).None?
    ensures Declarator(n, ty, t).Ok? <==> 1 <= size <= MAX_ARRAY_SIZE
    ensures Declarator(n, ty, t).Ok? ==>
      NormLookup(Declarator(n, ty, t).value, n.children[0].content) ==
        Some(Entry(n.children[0].content, ArrayType(ty.base, ty.isConst), false, size))
  {
    LeadingIntegerOfDecimal(size);
    var name := n.children[0].content;
    if 1 <= size <= MAX_ARRAY_SIZE {
      assert Stoi(n.children[2].lexicalUnit) == Some(size);
      NormLookupIsLookup(t, name);
      NormInsertThenLookup(t, name, Entry(name, ArrayType(ty.base, ty.isConst), false, size), name);
    }
  }

  /** A void object or array, and a name visible in any scope, are reported. */
  lemma DeclaratorRejections(n: Node, ty: TypeInfo, t: Table)
    requires |n.children| == 1 || (|n.children| == 4 && IsToken(n.children[1], "L_UGL_ZAGRADA"))
    ensures IsVoid(ty) ==> Declarator(n, ty, t) == Err(n)
    ensures NormLookup(t, n.children[0].content).Some? ==> Declarator(n, ty, t).Err?
  {
  }

  /** `f(...)` with a left parenthesis second, whatever is inside, declares a
      function taking void in the global scope, leaving the current scope as
      it was. */
  lemma PrototypeRule(n: Node, ty: TypeInfo, t: Table)
    requires |n.children| == 4 && IsToken(n.children[1], "L_ZAGRADA")
    ensures Declarator(n, ty, t).Ok?
    ensures var name := ExtractIdentifier(n.children[0].lexicalUnit);
      Global(Declarator(n, ty, t).value) ==
        NormInsert(Global(t), name, Entry(name, FunctionType(ty.base, [VOID_TYPE]), false, -1)).1
    ensures Depth(Declarator(n, ty, t).value) == Depth(t)
  {
    assert !IsToken(n.children[1], "L_UGL_ZAGRADA") by {
      assert n.children[1].content[2] == "L_ZAGRADA"[2];
    }
    var name := ExtractIdentifier(n.children[0].lexicalUnit);
    InsertGlobalOnlyGlobal(t, name, Entry(name, FunctionType(ty.base, [VOID_TYPE]), false, -1));
  }

  /** A const without an initialiser is reported. */
  lemma ConstNeedsInitializer(n: Node, ty: TypeInfo, t: Table)
    requires |n.children| == 1 && ty.isConst
    ensures InitDecl(n, ty, t).Err?
  {
  }

  /** An initialised non-array: a char takes only a char-based initialiser,
      any other type an initialiser that converts to it. */
  lemma InitializerRule(n: Node, ty: TypeInfo, t: Table)
    requires |n.children| == 3 && !ty.isArray
    requires Declarator(n.children[0], ty, t).Ok?
    ensures var t1 := Declarator(n.children[0], ty, t).value;
      var init := Initializer(n.children[2], t1);
      InitDecl(n, ty, t).Ok? <==>
        init.Ok? && (if ty.base == CHAR then init.value.ty.base == CHAR else Compatible(init.value.ty, ty))
  {
  }

  /** An initialised array accepts any initialiser the expression rules
      accept, whatever its size: the size comparison only selects between two
      ways of returning. */
  lemma ArrayInitializerUnchecked(n: Node, ty: TypeInfo, t: Table)
    requires |n.children| == 3 && ty.isArray
    requires Declarator(n.children[0], ty, t).Ok?
    ensures InitDecl(n, ty, t).Ok? <==> Initializer(n.children[2], Declarator(n.children[0], ty, t).value).Ok?
  {
  }

  /** The array declarator records its size but leaves the type its parent
      reads as the declaration's value type, so from a declaration the array
      branch above is never taken: a declared array's braced list, whose type
      is a function type, and its string literal, whose base is void, are
      both reported. */
  lemma DeclaredArrayInitializedAsScalar(n: Node, keyword: Node, isConst: bool, t: Table)
    requires |n.children| == 3
    requires |n.children[0].children| == 4 && IsToken(n.children[0].children[1], "L_UGL_ZAGRADA")
    requires Declarator(n.children[0], SpecifiedType(keyword, isConst), t).Ok?
    ensures |n.children[2].children| == 3 ==> InitDecl(n, SpecifiedType(keyword, isConst), t).Err?
    ensures StringLiteralInit(n.children[2]) ==> InitDecl(n, SpecifiedType(keyword, isConst), t).Err?
  {
    var ty := SpecifiedType(keyword, isConst);
    DeclaratorRejections(n.children[0], ty, t);
    var t1 := Declarator(n.children[0], ty, t).value;
    var init := Initializer(n.children[2], t1);
    if init.Ok? {
      if |n.children[2].children| == 3 || StringLiteralInit(n.children[2]) {
        assert IsFunc(init.value.ty) || init.value.ty == VOID_TYPE;
        assert init.value.ty.base == VOID;
        if ty.base != CHAR {
          CompatibleRejectsShapes(init.value.ty, ty);
        }
      }
    }
  }

  /** A single-expression initialiser whose node seven first-children down
      is a string literal. */
  predicate StringLiteralInit(init: Node) {
    |init.children| == 1 && Descend(init.children[0], 6).Some? &&
    Descend(init.children[0], 6).value.symbol == "NIZ_ZNAKOVA"
  }

  /** A string literal found seven levels down counts its characters between
      the quotes plus the terminating NUL, each a char. */
  lemma StringInitializerSize(n: Node, t: Table, leaf: Node)
    requires |n.children| == 1 && Assign(n.children[0], t).Ok?
    requires Descend(n.children[0], 6) == Some(leaf)
    requires leaf.symbol == "NIZ_ZNAKOVA" && |leaf.lexicalUnit| >= 2
    ensures Initializer(n, t).Ok?
    ensures var init := Initializer(n, t).value;
      init.size == |leaf.lexicalUnit| - 1 &&
      init.ty.params == seq(|leaf.lexicalUnit| - 1, _ => CHAR_TYPE)
  {
  }

  /** A left-recursive list all of whose levels have one or three children. */
  predicate ListShaped(n: Node)
    decreases n
  {
    |n.children| == 1 || (|n.children| == 3 && ListShaped(n.children[0]))
  }

  /** A braced list counts its elements, and lists their types in order. */
  lemma {:induction false} BracedListSize(n: Node, t: Table)
    requires ListShaped(n) && AssignList(n, t).Ok?
    ensures var items := ArgumentNodes(n);
      var init := AssignList(n, t).value;
      init.size == |items| && |init.ty.params| == |items| &&
      forall i :: 0 <= i < |items| ==> Assign(items[i], t).Ok? && init.ty.params[i] == Assign(items[i], t).value.ty
    decreases n
  {
    if |n.children| == 3 {
      BracedListSize(n.children[0], t);
      var left := ArgumentNodes(n.children[0]);
      var items := ArgumentNodes(n);
      assert items == left + [n.children[2]];
      assert forall i :: 0 <= i < |left| ==> items[i] == left[i];
    }
  }

  /** The type a declaration hands down: the keyword's base, const when the
      type name starts with const. */
  lemma DeclarationTypeRule(n: Node, t: Table)
    requires |n.children| >= 2 && |n.children[0].children| >= 2
    requires IsToken(n.children[0].children[0], "KR_CONST")
    requires |n.children[0].children[1].children| > 0
    requires IsToken(n.children[0].children[1].children[0], "KR_INT")
    ensures Decl(n, t) == InitDeclList(n.children[1], ValueType(INT, true, false), t)
  {
    assert !IsToken(n.children[0].children[1].children[0], "KR_CHAR") by {
      assert n.children[0].children[1].children[0].content[3] == "KR_INT"[3];
    }
  }

  // ---------------------------------------------------------------------
  // Function definitions

  /** A const return type is reported. */
  lemma ConstReturnRejected(n: Node, t: Table, ctx: Ctx)
    requires |n.children| >= 4 && TypeName(n.children[0]).Ok? && TypeName(n.children[0]).value.ty.isConst
    ensures Definition(n, t, ctx) == Err(n)
  {
  }

  /** A second definition of a name is reported. */
  lemma RedefinitionRejected(n: Node, t: Table, ctx: Ctx)
    requires |n.children| >= 4 && TypeName(n.children[0]).Ok?
    requires var e := NormLookup(t, ExtractIdentifier(n.children[1].lexicalUnit));
      e.Some? && e.value.isDefined
    ensures Definition(n, t, ctx) == Err(n)
  {
  }

  /** As written, any definition whose parameter list names a parameter is
      reported. */
  lemma DefinitionWithParametersRejected(n: Node, t: Table, ctx: Ctx)
    requires |n.children| >= 4
    requires TypeName(n.children[0]).Ok? && !TypeName(n.children[0]).value.ty.isConst
    requires NormLookup(t, ExtractIdentifier(n.children[1].lexicalUnit)).None?
    requires !IsToken(n.children[3], "KR_VOID") && n.children[3].symbol == "<lista_parametara>"
    requires FirstParam(n.children[3]).Some? && |FirstParam(n.children[3]).value.children| >= 2
    ensures Definition(n, t, ctx).Err?
  {
    ParameterListRejected(n.children[3], t);
  }

  /** A declaration followed by a definition of the same type: the entry
      becomes defined. A definition of another type is reported. */
  lemma DefineRule(n: Node, name: string, e: Entry, ty: TypeInfo, t: Table)
    requires NormLookup(t, name) == Some(e)
    ensures Define(n, name, Some(e), ty, t).Ok? <==> e.ty == ty
    ensures Define(n, name, Some(e), ty, t).Ok? ==>
      NormLookup(Define(n, name, Some(e), ty, t).value, name) == Some(e.(isDefined := true))
  {
    MarkDefinedLookup(t, name);
  }

  /** A new function is entered defined. */
  lemma DefineNewRule(n: Node, name: string, ty: TypeInfo, t: Table)
    requires NormLookup(t, name).None?
    ensures Define(n, name, None, ty, t).Ok?
    ensures NormLookup(Define(n, name, None, ty, t).value, name) == Some(Entry(name, ty, true, -1))
  {
    NormLookupIsLookup(t, name);
    NormInsertThenLookup(t, name, Entry(name, ty, true, -1), name);
  }

  // ---------------------------------------------------------------------
  // The final checks

  /** main must be a function returning int and taking void. */
  lemma MainRule(t: Table, e: Entry)
    requires NormLookup(t, "main") == Some(e)
    ensures MainDeclared(t) <==> e.ty.base == INT && e.ty.params == [VOID_TYPE]
  {
  }

  /** The checker accepts exactly when the walk succeeds, main is declared
      properly and every global function is defined; it names the first
      undefined function in key order. */
  lemma AnalyzeVerdicts(root: Node)
    ensures var w := Process(root, EMPTY_TABLE, Ctx([], None));
      (Analyze(root) == Accepted <==>
        w.Ok? && MainDeclared(w.value) && forall k :: k in w.value.symbols ==> !Undefined(w.value.symbols[k])) &&
      (Analyze(root).UndefinedFunction? ==>
        w.Ok? && MainDeclared(w.value) && var m := w.value.symbols; var name := Analyze(root).name;
        name in m && Undefined(m[name]) &&
        forall k :: k in m && Undefined(m[k]) && k != name ==> StrLess(name, k)) &&
      (Analyze(root).Reported? <==> w.Err?)
  {
  }

  /** String order is a strict total order. */
  lemma StrLessOrder(a: string, b: string, c: string)
    ensures !StrLess(a, a)
    ensures a != b ==> (StrLess(a, b) <==> !StrLess(b, a))
    ensures StrLess(a, b) && StrLess(b, c) ==> StrLess(a, c)
  {
    StrLessIrreflexive(a);
    StrLessTotal(a, b);
    if StrLess(a, b) && StrLess(b, a) {
      StrLessTransitive(a, b, a);
      StrLessIrreflexive(a);
    }
    if StrLess(a, b) && StrLess(b, c) {
      StrLessTransitive(a, b, c);
    }
  }
}
