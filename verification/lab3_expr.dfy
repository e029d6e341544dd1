/** The semantic checker's typing rules for expressions. Each rule checks
    one production over a node of the parse tree and the visible symbol
    table, and yields the node's type and whether it is an l-value, or the
    node whose production the checker reports. The rules use the intended
    l-value test (CTypes.LValue, not LValueAsWritten) and the intended
    character-constant check (Validator.ValidateCharConstant, not
    ValidateCharConstantAsWritten). */
module Expressions {
  import opened Wrappers
  import opened Text
  import opened CTypes
  import opened Tree
  import opened Scopes
  import opened NormTable
  import opened Validator

  /** The attributes computed for an expression node. */
  datatype Attr = Attr(ty: TypeInfo, lvalue: bool)

  /** A node's attributes before any rule sets them: the default type
      (void) and not an l-value. */
  const UNSET: Attr := Attr(VOID_TYPE, false)

  /** The outcome of checking a node: a value, or the node whose production
      reportError prints before the checker stops. */
  type Outcome<T> = Result<T, Node>

  /** canImplicitlyConvertTo(TypeInfo(INT)). */
  predicate IntConvertible(t: TypeInfo) { Compatible(t, INT_TYPE) }

  /** content.find(token) == 0: the node is the terminal `token`. */
  predicate IsToken(c: Node, token: string) { StartsWith(c.content, token) }

  /** The binary-operator levels, loosest last. */
  datatype Level = Mult | Add | Rel | Eq | BitAnd | BitXor | BitOr | And | Or

  /** The level of a binary rule's right operand. */
  function Lower(l: Level): Level
    requires l != Mult
  {
    match l
    case Add => Mult
    case Rel => Add
    case Eq => Rel
    case BitAnd => Eq
    case BitXor => BitAnd
    case BitOr => BitXor
    case And => BitOr
    case Or => And
  }

  /** The operator test of each level; the bitwise and logical levels do not
      look at their operator. */
  predicate OperatorAccepted(l: Level, op: Node) {
    match l
    case Mult => IsToken(op, "OP_PUTA") || IsToken(op, "OP_DIJELI") || IsToken(op, "OP_MOD")
    case Add => IsToken(op, "PLUS") || IsToken(op, "MINUS")
    case Rel => IsToken(op, "OP_LT") || IsToken(op, "OP_GT") || IsToken(op, "OP_LTE") || IsToken(op, "OP_GTE")
    case Eq => IsToken(op, "OP_EQ") || IsToken(op, "OP_NEQ")
    case _ => true
  }

  /** A call's arguments fit the parameters: same number, and each argument
      converts to its parameter. */
  predicate ArgumentsFit(args: seq<TypeInfo>, params: seq<TypeInfo>) {
    |args| == |params| && forall i :: 0 <= i < |args| ==> Compatible(args[i], params[i])
  }

  /** <primarni_izraz>: a parenthesised expression, an identifier, or a
      constant. A child that is none of these leaves the node unset. */
  function Primary(n: Node, t: Table): Outcome<Attr>
    decreases n, 0
  {
    if |n.children| == 3 then
      if IsToken(n.children[0], "L_ZAGRADA") && IsToken(n.children[2], "D_ZAGRADA") then
        Comma(n.children[1], t)
      else Err(n)
    else if |n.children| == 0 then Err(n)
    else
      var c := n.children[0];
      if IsToken(c, "IDN") then
        match NormLookup(t, c.lexicalUnit)
        case None => Err(n)
        case Some(e) => Ok(Attr(e.ty, LValue(e.ty)))
      else if IsToken(c, "BROJ") then
        if ValidateNumConstant(c.lexicalUnit).None? then Err(n) else Ok(Attr(INT_TYPE, false))
      else if IsToken(c, "ZNAK") then
        if ValidateCharConstant(c.lexicalUnit).None? then Err(n) else Ok(Attr(CHAR_TYPE, false))
      else if IsToken(c, "NIZ_ZNAKOVA") then
        if !WellEscaped(c.lexicalUnit) then Err(n) else Ok(Attr(ArrayType(CHAR, true), false))
      else Ok(UNSET)
  }

  /** <postfiks_izraz>: indexing, calls with and without arguments, and
      postfix ++/--. */
  function Postfix(n: Node, t: Table): Outcome<Attr>
    decreases n, 0
  {
    if |n.children| == 1 then Primary(n.children[0], t)
    else if |n.children| < 2 then Err(n)
    else
      var f :- Postfix(n.children[0], t);
      var op := n.children[1];
      if IsToken(op, "L_UGL_ZAGRADA") then
        if !f.ty.isArray then Err(n)
        else if |n.children| < 3 then Err(n)
        else
          var index :- Comma(n.children[2], t);
          if !IntConvertible(index.ty) then Err(n)
          else Ok(Attr(ValueType(f.ty.base, f.ty.isConst, false), !f.ty.isConst))
      else if IsToken(op, "L_ZAGRADA") && |n.children| < 3 then Err(n)
      else if IsToken(op, "L_ZAGRADA") && IsToken(n.children[2], "D_ZAGRADA") then
        if !IsFunc(f.ty) then Err(n)
        else if !IsVoidParam(f.ty) then Err(n)
        else Ok(Attr(ValueType(f.ty.base, false, false), false))
      else if IsToken(op, "L_ZAGRADA") then
        if !IsFunc(f.ty) then Err(n)
        else
          var args :- ArgList(n.children[2], t);
          if !ArgumentsFit(args.ty.params, f.ty.params) then Err(n)
          else Ok(Attr(ValueType(f.ty.base, false, false), false))
      else if IsToken(op, "OP_INC") || IsToken(op, "OP_DEC") then
        if !f.lvalue || !IntConvertible(f.ty) then Err(n)
        else Ok(Attr(INT_TYPE, false))
      else Err(n)
  }

  /** <lista_argumenata>: the argument types, collected as the parameter
      list of a void function type. */
  function ArgList(n: Node, t: Table): Outcome<Attr>
    decreases n, 0
  {
    if |n.children| == 1 then
      var a :- Assign(n.children[0], t);
      Ok(Attr(FunctionType(VOID, [a.ty]), false))
    else if |n.children| == 3 then
      var left :- ArgList(n.children[0], t);
      var a :- Assign(n.children[2], t);
      Ok(Attr(FunctionType(VOID, left.ty.params + [a.ty]), false))
    else Err(n)
  }

  /** <unarni_izraz>: prefix ++/-- and a unary operator applied to a cast
      expression. The operator node itself is not checked here. */
  function Unary(n: Node, t: Table): Outcome<Attr>
    decreases n, 0
  {
    if |n.children| == 1 then Postfix(n.children[0], t)
    else if |n.children| == 0 then Err(n)
    else if IsToken(n.children[0], "OP_INC") || IsToken(n.children[0], "OP_DEC") then
      var u :- Unary(n.children[1], t);
      if !u.lvalue || !IntConvertible(u.ty) then Err(n)
      else Ok(Attr(INT_TYPE, false))
    else if |n.children| == 2 then
      var c :- Cast(n.children[1], t);
      if !IntConvertible(c.ty) then Err(n)
      else Ok(Attr(INT_TYPE, false))
    else Err(n)
  }

  /** <cast_izraz>: a unary expression, or an explicit cast. */
  function Cast(n: Node, t: Table): Outcome<Attr>
    decreases n, 0
  {
    if |n.children| == 1 then Unary(n.children[0], t)
    else if |n.children| == 4 then
      var target :- TypeName(n.children[1]);
      var source :- Cast(n.children[3], t);
      if IsFunc(source.ty) && n.children[3].symbol == "<unarni_izraz>" then Err(n)
      else if IsVoid(target.ty) then Err(n)
      else if !IsNumeric(source.ty) && !IsNumeric(target.ty) then Err(n)
      else Ok(Attr(target.ty, false))
    else Err(n)
  }

  /** A binary rule at level l: both operands must convert to int and the
      operator must belong to the level; the result is an int r-value. */
  function Binary(l: Level, n: Node, t: Table): Outcome<Attr>
    decreases n, 0
  {
    if |n.children| == 1 then Operand(l, n.children[0], t)
    else if |n.children| == 3 then
      var a :- Binary(l, n.children[0], t);
      var b :- Operand(l, n.children[2], t);
      if !IntConvertible(a.ty) || !IntConvertible(b.ty) then Err(n)
      else if !OperatorAccepted(l, n.children[1]) then Err(n)
      else Ok(Attr(INT_TYPE, false))
    else Err(n)
  }

  /** The rule that checks the right operand of level l. */
  function Operand(l: Level, n: Node, t: Table): Outcome<Attr>
    decreases n, 1
  {
    if l == Mult then Cast(n, t) else Binary(Lower(l), n, t)
  }

  /** <izraz_pridruzivanja>: assignment needs an l-value on the left and a
      right side that converts to the left side's type. */
  function Assign(n: Node, t: Table): Outcome<Attr>
    decreases n, 0
  {
    if |n.children| == 1 then Binary(Or, n.children[0], t)
    else if |n.children| == 3 then
      var lhs :- Postfix(n.children[0], t);
      var rhs :- Assign(n.children[2], t);
      if !lhs.lvalue then Err(n)
      else if !IsToken(n.children[1], "OP_PRIDRUZI") then Err(n)
      else if !Compatible(rhs.ty, lhs.ty) then Err(n)
      else Ok(Attr(lhs.ty, false))
    else Err(n)
  }

  /** <izraz>: the comma operator takes the type of its last operand. */
  function Comma(n: Node, t: Table): Outcome<Attr>
    decreases n, 0
  {
    if |n.children| == 1 then Assign(n.children[0], t)
    else if |n.children| == 3 then
      var first :- Comma(n.children[0], t);
      var last :- Assign(n.children[2], t);
      Ok(Attr(last.ty, false))
    else Err(n)
  }

  /** <specifikator_tipa>: void, char or int. */
  function TypeSpecifier(n: Node): Outcome<Attr> {
    if |n.children| != 1 then Err(n)
    else if IsToken(n.children[0], "KR_VOID") then Ok(Attr(VOID_TYPE, false))
    else if IsToken(n.children[0], "KR_CHAR") then Ok(Attr(CHAR_TYPE, false))
    else if IsToken(n.children[0], "KR_INT") then Ok(Attr(INT_TYPE, false))
    else Err(n)
  }

  /** <ime_tipa>: a type specifier, optionally const; const void is
      rejected. */
  function TypeName(n: Node): Outcome<Attr> {
    if |n.children| == 1 then TypeSpecifier(n.children[0])
    else if |n.children| == 2 then
      if !IsToken(n.children[0], "KR_CONST") then Err(n)
      else
        var s :- TypeSpecifier(n.children[1]);
        if IsVoid(s.ty) then Err(n)
        else Ok(Attr(ValueType(s.ty.base, true, false), false))
    else Err(n)
  }

  /** <unarni_operator>: only the node's shape and operator are checked. */
  function UnaryOperator(n: Node): Outcome<Attr> {
    if |n.children| != 1 then Err(n)
    else
      var op := n.children[0];
      if !IsToken(op, "PLUS") && !IsToken(op, "MINUS") && !IsToken(op, "OP_TILDA") && !IsToken(op, "OP_NEG") then Err(n)
      else Ok(UNSET)
  }

  // ---------------------------------------------------------------------
  // The l-value invariant

  /** A type a declaration can give a name: an array never has base void. */
  predicate GoodType(ty: TypeInfo) { ty.isArray ==> ty.base != VOID }

  /** Every entry of every visible scope has a good type. */
  predicate GoodTable(t: Table)
    decreases t
  {
    (forall k :: k in t.symbols ==> GoodType(t.symbols[k].ty)) &&
    (t.parent.Some? ==> GoodTable(t.parent.value))
  }

  /** What the checker may conclude about an expression: its type is good,
      and if it is marked an l-value its type is an l-value type. */
  predicate Sound(r: Outcome<Attr>) {
    r.Ok? ==> GoodType(r.value.ty) && (r.value.lvalue ==> LValue(r.value.ty))
  }

  lemma {:induction false} LookupGood(t: Table, name: string)
    requires GoodTable(t)
    ensures Lookup(t, name).Some? ==> GoodType(Lookup(t, name).value.ty)
    decreases t
  {
    if name !in t.symbols && t.parent.Some? {
      LookupGood(t.parent.value, name);
    }
  }

  lemma {:induction false} PrimarySound(n: Node, t: Table)
    requires GoodTable(t)
    ensures Sound(Primary(n, t))
    decreases n, 0
  {
    if |n.children| == 3 {
      CommaSound(n.children[1], t);
    } else if |n.children| > 0 {
      var name := n.children[0].lexicalUnit;
      NormLookupIsLookup(t, name);
      LookupGood(t, ExtractIdentifier(name));
    }
  }

  lemma {:induction false} PostfixSound(n: Node, t: Table)
    requires GoodTable(t)
    ensures Sound(Postfix(n, t))
    decreases n, 0
  {
    if |n.children| == 1 {
      PrimarySound(n.children[0], t);
    } else if |n.children| >= 2 {
      PostfixSound(n.children[0], t);
    }
  }

  lemma {:induction false} UnarySound(n: Node, t: Table)
    requires GoodTable(t)
    ensures Sound(Unary(n, t))
    decreases n, 0
  {
    if |n.children| == 1 {
      PostfixSound(n.children[0], t);
    }
  }

  lemma {:induction false} CastSound(n: Node, t: Table)
    requires GoodTable(t)
    ensures Sound(Cast(n, t))
    decreases n, 0
  {
    if |n.children| == 1 {
      UnarySound(n.children[0], t);
    }
  }

  lemma {:induction false} BinarySound(l: Level, n: Node, t: Table)
    requires GoodTable(t)
    ensures Sound(Binary(l, n, t))
    decreases n, 0
  {
    if |n.children| == 1 {
      OperandSound(l, n.children[0], t);
    }
  }

  lemma {:induction false} OperandSound(l: Level, n: Node, t: Table)
    requires GoodTable(t)
    ensures Sound(Operand(l, n, t))
    decreases n, 1
  {
    if l == Mult {
      CastSound(n, t);
    } else {
      BinarySound(Lower(l), n, t);
    }
  }

  lemma {:induction false} AssignSound(n: Node, t: Table)
    requires GoodTable(t)
    ensures Sound(Assign(n, t))
    decreases n, 0
  {
    if |n.children| == 1 {
      BinarySound(Or, n.children[0], t);
    } else if |n.children| == 3 {
      PostfixSound(n.children[0], t);
    }
  }

  /** In a table whose arrays all have a non-void base, every expression the
      checker accepts has a good type, and whatever it marks assignable has
      an l-value type: a non-const plain int or char. */
  lemma {:induction false} CommaSound(n: Node, t: Table)
    requires GoodTable(t)
    ensures Sound(Comma(n, t))
    decreases n, 0
  {
    if |n.children| == 1 {
      AssignSound(n.children[0], t);
    } else if |n.children| == 3 {
      AssignSound(n.children[2], t);
    }
  }

  /** The left side of every accepted assignment has an l-value type, so a
      const name, an array or a function is never assigned to. */
  lemma AssignTargetIsLValue(n: Node, t: Table)
    requires GoodTable(t)
    requires |n.children| == 3 && Assign(n, t).Ok?
    ensures Postfix(n.children[0], t).Ok? && LValue(Postfix(n.children[0], t).value.ty)
    ensures Assign(n, t).value == Attr(Postfix(n.children[0], t).value.ty, false)
  {
    PostfixSound(n.children[0], t);
  }

  // ---------------------------------------------------------------------
  // Argument lists

  /** The argument expressions of a left-recursive argument list, first to
      last. */
  function ArgumentNodes(n: Node): seq<Node>
    decreases n
  {
    if |n.children| == 1 then [n.children[0]]
    else if |n.children| == 3 then ArgumentNodes(n.children[0]) + [n.children[2]]
    else []
  }

  /** An accepted argument list lists the type of every argument, in order. */
  lemma {:induction false} ArgListCollects(n: Node, t: Table)
    requires ArgList(n, t).Ok?
    ensures var args := ArgumentNodes(n);
      var ps := ArgList(n, t).value.ty.params;
      |ps| == |args| && |args| >= 1 &&
      forall i :: 0 <= i < |args| ==> Assign(args[i], t).Ok? && ps[i] == Assign(args[i], t).value.ty
    decreases n
  {
    if |n.children| == 3 {
      ArgListCollects(n.children[0], t);
      var left := ArgumentNodes(n.children[0]);
      var args := ArgumentNodes(n);
      assert args == left + [n.children[2]];
      assert forall i :: 0 <= i < |left| ==> args[i] == left[i];
    }
  }

  // ---------------------------------------------------------------------
  // The rules, one production at a time

  /** A unit production copies its child's type and l-value unchanged. */
  lemma UnitProductionsCopy(n: Node, t: Table)
    requires |n.children| == 1
    ensures var c := n.children[0];
      Postfix(n, t) == Primary(c, t) && Unary(n, t) == Postfix(c, t) &&
      Cast(n, t) == Unary(c, t) && Assign(n, t) == Binary(Or, c, t) &&
      Comma(n, t) == Assign(c, t) &&
      forall l :: Binary(l, n, t) == Operand(l, n.children[0], t)
  {
  }

  /** An identifier takes the type of the entry the scoped lookup finds, and
      is an l-value exactly when that type is; an unknown name is reported. */
  lemma IdentifierRule(n: Node, t: Table)
    requires |n.children| == 1 && IsToken(n.children[0], "IDN")
    ensures var e := Lookup(t, ExtractIdentifier(n.children[0].lexicalUnit));
      (Primary(n, t).Ok? <==> e.Some?) &&
      (e.Some? ==> Primary(n, t).value == Attr(e.value.ty, LValue(e.value.ty)))
  {
    NormLookupIsLookup(t, n.children[0].lexicalUnit);
  }

  /** Binary operators: both operands must convert to int and the operator
      must belong to the level; the result is an int and not an l-value. */
  lemma BinaryRule(l: Level, n: Node, t: Table)
    requires |n.children| == 3
    ensures var a := Binary(l, n.children[0], t);
      var b := Operand(l, n.children[2], t);
      (Binary(l, n, t).Ok? <==>
        a.Ok? && b.Ok? && IntConvertible(a.value.ty) && IntConvertible(b.value.ty) &&
        OperatorAccepted(l, n.children[1])) &&
      (Binary(l, n, t).Ok? ==> Binary(l, n, t).value == Attr(INT_TYPE, false))
  {
  }

  /** Exactly the plain non-const int and char values convert to int; a
      const int does not. */
  lemma IntConvertibleShapes(ty: TypeInfo)
    ensures IntConvertible(ty) <==> ty == INT_TYPE || ty == CHAR_TYPE
  {
  }

  /** Indexing needs an array operand and an index that converts to int;
      the result is the element type, an l-value exactly when not const. */
  lemma IndexRule(n: Node, t: Table)
    requires |n.children| >= 3 && IsToken(n.children[1], "L_UGL_ZAGRADA")
    ensures var f := Postfix(n.children[0], t);
      var i := Comma(n.children[2], t);
      (Postfix(n, t).Ok? <==> f.Ok? && f.value.ty.isArray && i.Ok? && IntConvertible(i.value.ty)) &&
      (Postfix(n, t).Ok? ==> (Postfix(n, t).value ==
        Attr(ValueType(f.value.ty.base, f.value.ty.isConst, false), !f.value.ty.isConst)))
  {
  }

  /** A call without arguments needs a function whose parameter list is
      void; the result is the return type, not an l-value. */
  lemma NoArgCallRule(n: Node, t: Table)
    requires |n.children| >= 3 && IsToken(n.children[1], "L_ZAGRADA") && IsToken(n.children[2], "D_ZAGRADA")
    ensures var f := Postfix(n.children[0], t);
      (Postfix(n, t).Ok? <==> f.Ok? && IsFunc(f.value.ty) && IsVoidParam(f.value.ty)) &&
      (Postfix(n, t).Ok? ==> Postfix(n, t).value == Attr(ValueType(f.value.ty.base, false, false), false))
  {
    assert !IsToken(n.children[1], "L_UGL_ZAGRADA") by {
      assert n.children[1].content[2] == "L_ZAGRADA"[2];
    }
  }

  /** A call with arguments needs a function, as many arguments as
      parameters, and each argument converting to its parameter. */
  lemma CallRule(n: Node, t: Table)
    requires |n.children| >= 3 && IsToken(n.children[1], "L_ZAGRADA") && !IsToken(n.children[2], "D_ZAGRADA")
    ensures var f := Postfix(n.children[0], t);
      var a := ArgList(n.children[2], t);
      (Postfix(n, t).Ok? <==>
        f.Ok? && IsFunc(f.value.ty) && a.Ok? && ArgumentsFit(a.value.ty.params, f.value.ty.params)) &&
      (Postfix(n, t).Ok? ==> Postfix(n, t).value == Attr(ValueType(f.value.ty.base, false, false), false))
  {
    assert !IsToken(n.children[1], "L_UGL_ZAGRADA") by {
      assert n.children[1].content[2] == "L_ZAGRADA"[2];
    }
  }

  /** Postfix ++ and -- need an l-value that converts to int; the result is
      an int and not an l-value. */
  lemma PostfixIncDecRule(n: Node, t: Table)
    requires |n.children| == 2 && (IsToken(n.children[1], "OP_INC") || IsToken(n.children[1], "OP_DEC"))
    ensures var f := Postfix(n.children[0], t);
      (Postfix(n, t).Ok? <==> f.Ok? && f.value.lvalue && IntConvertible(f.value.ty)) &&
      (Postfix(n, t).Ok? ==> Postfix(n, t).value == Attr(INT_TYPE, false))
  {
    var op := n.children[1];
    assert !IsToken(op, "L_UGL_ZAGRADA") && !IsToken(op, "L_ZAGRADA") by {
      assert op.content[0] == 'O';
    }
  }

  /** Prefix ++ and -- have the same rule. */
  lemma PrefixIncDecRule(n: Node, t: Table)
    requires |n.children| >= 2 && (IsToken(n.children[0], "OP_INC") || IsToken(n.children[0], "OP_DEC"))
    ensures var u := Unary(n.children[1], t);
      (Unary(n, t).Ok? <==> u.Ok? && u.value.lvalue && IntConvertible(u.value.ty)) &&
      (Unary(n, t).Ok? ==> Unary(n, t).value == Attr(INT_TYPE, false))
  {
  }

  /** Assignment needs an l-value on the left, the = operator, and a right
      side converting to the left side's type; the result has the left
      side's type and is not an l-value. */
  lemma AssignRule(n: Node, t: Table)
    requires |n.children| == 3
    ensures var lhs := Postfix(n.children[0], t);
      var rhs := Assign(n.children[2], t);
      (Assign(n, t).Ok? <==>
        lhs.Ok? && rhs.Ok? && lhs.value.lvalue && IsToken(n.children[1], "OP_PRIDRUZI") &&
        Compatible(rhs.value.ty, lhs.value.ty)) &&
      (Assign(n, t).Ok? ==> Assign(n, t).value == Attr(lhs.value.ty, false))
  {
  }

  /** A cast to void is rejected; a cast succeeds only when one side is
      numeric, and its result is the target type, not an l-value. */
  lemma CastRule(n: Node, t: Table)
    requires |n.children| == 4
    ensures var target := TypeName(n.children[1]);
      var source := Cast(n.children[3], t);
      (target.Ok? && IsVoid(target.value.ty) ==> Cast(n, t).Err?) &&
      (Cast(n, t).Ok? ==> (target.Ok? && source.Ok? && Cast(n, t).value == Attr(target.value.ty, false) &&
        (IsNumeric(source.value.ty) || IsNumeric(target.value.ty))))
  {
  }

  /** const void is not a type name; const int and const char are. */
  lemma TypeNameRule(n: Node)
    requires |n.children| == 2 && IsToken(n.children[0], "KR_CONST")
    ensures var s := TypeSpecifier(n.children[1]);
      (TypeName(n).Ok? <==> s.Ok? && s.value.ty.base != VOID) &&
      (TypeName(n).Ok? ==> TypeName(n).value.ty == ValueType(s.value.ty.base, true, false))
  {
  }

  /** A comma expression takes the type of its last operand and is not an
      l-value; both operands must be accepted. */
  lemma CommaRule(n: Node, t: Table)
    requires |n.children| == 3
    ensures (Comma(n, t).Ok? <==> Comma(n.children[0], t).Ok? && Assign(n.children[2], t).Ok?) &&
      (Comma(n, t).Ok? ==> Comma(n, t).value == Attr(Assign(n.children[2], t).value.ty, false))
  {
  }
}
