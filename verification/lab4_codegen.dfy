/** The expression half of the FRISC code generator.

    Each process_* routine of the generator visits one non-terminal of the
    expression grammar. It stores a folded constant in the node
    (evaluatedValue, plus a name in evaluatedValueString) and, when emitCode
    is set, appends FRISC instructions to the output. The routines call one
    another on children only, one grammar level lower for a unit production,
    so one function over a `Level` covers them all.

    A node's attributes start empty; an attribute the routine never assigns
    stays empty (None for the value). A child index past the end, which is
    undefined behaviour in the source, and an exception from std::stoll both
    end the walk with a `Fault`. */
module Codegen {
  import opened Wrappers
  import opened Text
  import opened Tree

  // ---------------------------------------------------------------------
  // FRISC instructions, exactly as the generator spells them

  datatype Reg = R0 | R1 | R6 | R7
  datatype AluOp = ADD | SUB | AND | OR | XOR
  datatype Cond = SLT | SGT | SLE | SGE

  datatype Instr =
    | MoveImm(v: int, dst: Reg)
    | LoadGlobal(dst: Reg, name: string)
    | LoadInd(dst: Reg, addr: Reg)
    | ShlImm(src: Reg, k: int, dst: Reg)
    | Push(src: Reg)
    | Pop(dst: Reg)
    | Alu(op: AluOp, a: Reg, b: Reg, dst: Reg)
    | AddImm(src: Reg, k: int, dst: Reg)
    | Call(fn: string)
    | Cmp(a: Reg, b: Reg)
    | JumpIf(cond: Cond, num: nat)
    | Jump(num: nat)
    | SkipLabel(num: nat)
    | ContinueLabel(num: nat)

  function RegName(r: Reg): string {
    match r
    case R0 => "R0"
    case R1 => "R1"
    case R6 => "R6"
    case R7 => "R7"
  }

  function AluName(o: AluOp): string {
    match o
    case ADD => "ADD"
    case SUB => "SUB"
    case AND => "AND"
    case OR => "OR"
    case XOR => "XOR"
  }

  function CondName(c: Cond): string {
    match c
    case SLT => "SLT"
    case SGT => "SGT"
    case SLE => "SLE"
    case SGE => "SGE"
  }

  /** The output line of an instruction: four spaces of indentation, except
      for the two kinds of label. */
  function Render(i: Instr): string {
    match i
    case MoveImm(v, d) => "    MOVE %D " + IntToDecimal(v) + ", " + RegName(d)
    case LoadGlobal(d, name) => "    LOAD " + RegName(d) + ", (G_" + name + ")"
    case LoadInd(d, a) => "    LOAD " + RegName(d) + ", (" + RegName(a) + ")"
    case ShlImm(s, k, d) => "    SHL " + RegName(s) + ", %D " + IntToDecimal(k) + ", " + RegName(d)
    case Push(s) => "    PUSH " + RegName(s)
    case Pop(d) => "    POP " + RegName(d)
    case Alu(o, a, b, d) => "    " + AluName(o) + " " + RegName(a) + ", " + RegName(b) + ", " + RegName(d)
    case AddImm(s, k, d) => "    ADD " + RegName(s) + ", %D " + IntToDecimal(k) + ", " + RegName(d)
    case Call(f) => "    CALL F_" + f
    case Cmp(a, b) => "    CMP " + RegName(a) + ", " + RegName(b)
    case JumpIf(c, k) => "    JP_" + CondName(c) + " SKIP_" + NatToDecimal(k)
    case Jump(k) => "    JP CONTINUE_" + NatToDecimal(k)
    case SkipLabel(k) => "SKIP_" + NatToDecimal(k)
    case ContinueLabel(k) => "CONTINUE_" + NatToDecimal(k)
  }

  /** FRISC wants labels in the first column and instructions indented:
      the rendered line starts in column one exactly for the labels. */
  lemma RenderPutsLabelsFirst(i: Instr)
    ensures |Render(i)| > 0
    ensures Render(i)[0] != ' ' <==> i.SkipLabel? || i.ContinueLabel?
  {
  }

  // ---------------------------------------------------------------------
  // 32-bit int arithmetic of the folded values

  const LLONG_MIN: int := -0x8000_0000_0000_0000
  const LLONG_MAX: int := 0x7fff_ffff_ffff_ffff

  /** Two's-complement bits of a value, and back. */
  function ToBits(x: int): bv32 {
    (x % TWO_TO_32) as bv32
  }

  function FromBits(b: bv32): (x: int)
    ensures InInt32(x)
  {
    if b as int <= INT_MAX then b as int else b as int - TWO_TO_32
  }

  /** The bitwise operators on the two's-complement bits. */
  function And32(x: int, y: int): (r: int)
    ensures InInt32(r)
  {
    FromBits(ToBits(x) & ToBits(y))
  }

  function Or32(x: int, y: int): (r: int)
    ensures InInt32(r)
  {
    FromBits(ToBits(x) | ToBits(y))
  }

  function Xor32(x: int, y: int): (r: int)
    ensures InInt32(r)
  {
    FromBits(ToBits(x) ^ ToBits(y))
  }

  function Apply(o: AluOp, x: int, y: int): (r: int)
    ensures InInt32(r)
  {
    match o
    case ADD => Wrap32(x + y)
    case SUB => Wrap32(x - y)
    case AND => And32(x, y)
    case OR => Or32(x, y)
    case XOR => Xor32(x, y)
  }

  /** A char converted to int the way a signed char is: the low byte,
      sign-extended. */
  function SignedByte(c: char): (x: int)
    ensures -128 <= x < 128
    ensures (c as int) < 128 ==> x == c as int
  {
    var b := (c as int) % 256;
    if b < 128 then b else b - 256
  }

  // ---------------------------------------------------------------------
  // The walk

  /** evaluatedValue (None when never assigned) and evaluatedValueString. */
  datatype Attr = Attr(value: Option<int>, name: string)

  const Unset: Attr := Attr(None, "")

  /** The output so far and FRISCGenerator::labelCounter. */
  datatype Gen = Gen(code: seq<Instr>, labels: nat)

  /** Why a visit has no defined outcome: a child index past the end
      (undefined behaviour), or std::stoll throwing on the lexeme. */
  datatype Fault = Undefined(symbol: string) | Throws(lexeme: string)

  type Outcome = Result<(Attr, Gen), Fault>

  /** The expression non-terminals, from the loosest to the tightest. */
  datatype Level =
    | Expr | Assignment | LogOr | LogAnd | BitOr | BitXor | BitAnd
    | Equality | Relational | Additive | Multiplicative | Cast
    | Unary | Postfix | Primary

  function Rank(l: Level): (k: nat)
    ensures k <= 14
    ensures k == 14 <==> l == Primary
  {
    match l
    case Expr => 0
    case Assignment => 1
    case LogOr => 2
    case LogAnd => 3
    case BitOr => 4
    case BitXor => 5
    case BitAnd => 6
    case Equality => 7
    case Relational => 8
    case Additive => 9
    case Multiplicative => 10
    case Cast => 11
    case Unary => 12
    case Postfix => 13
    case Primary => 14
  }

  /** The level a unit production of `l` leads to. */
  function Below(l: Level): (b: Level)
    requires l != Primary
    ensures Rank(b) == Rank(l) + 1
  {
    match l
    case Expr => Assignment
    case Assignment => LogOr
    case LogOr => LogAnd
    case LogAnd => BitOr
    case BitOr => BitXor
    case BitXor => BitAnd
    case BitAnd => Equality
    case Equality => Relational
    case Relational => Additive
    case Additive => Multiplicative
    case Multiplicative => Cast
    case Cast => Unary
    case Unary => Postfix
    case Postfix => Primary
  }

  function Symbol(l: Level): string {
    match l
    case Expr => "<izraz>"
    case Assignment => "<izraz_pridruzivanja>"
    case LogOr => "<log_ili_izraz>"
    case LogAnd => "<log_i_izraz>"
    case BitOr => "<bin_ili_izraz>"
    case BitXor => "<bin_xili_izraz>"
    case BitAnd => "<bin_i_izraz>"
    case Equality => "<jednakosni_izraz>"
    case Relational => "<odnosni_izraz>"
    case Additive => "<aditivni_izraz>"
    case Multiplicative => "<multiplikativni_izraz>"
    case Cast => "<cast_izraz>"
    case Unary => "<unarni_izraz>"
    case Postfix => "<postfiks_izraz>"
    case Primary => "<primarni_izraz>"
  }

  /** The code of h starts with the code of g, and no label number was
      given back. */
  predicate Extends(g: Gen, h: Gen) {
    |g.code| <= |h.code| && h.code[..|g.code|] == g.code && g.labels <= h.labels
  }

  /** What h emitted after g. */
  function New(g: Gen, h: Gen): seq<Instr>
    requires Extends(g, h)
  {
    h.code[|g.code|..]
  }

  /** emit(...) under `if (emitCode)`. */
  function Emit(g: Gen, emit: bool, xs: seq<Instr>): (h: Gen)
    ensures Extends(g, h) && h.labels == g.labels
    ensures emit ==> New(g, h) == xs
    ensures !emit ==> h == g
  {
    if emit then
      assert (g.code + xs)[..|g.code|] == g.code;
      Gen(g.code + xs, g.labels)
    else g
  }

  lemma ExtendsTrans(g: Gen, g1: Gen, h: Gen)
    requires Extends(g, g1) && Extends(g1, h)
    ensures Extends(g, h)
    ensures New(g, h) == New(g, g1) + New(g1, h)
  {
    assert h.code[..|g.code|] == h.code[..|g1.code|][..|g.code|];
    assert h.code == g1.code + New(g1, h);
  }

  function Child(n: Node, i: nat): (r: Result<Node, Fault>)
    ensures r.Ok? <==> i < |n.children|
    ensures r.Ok? ==> r.value == n.children[i]
  {
    if i < |n.children| then Ok(n.children[i]) else Err(Undefined(n.symbol))
  }

  /** std::stoll: the leading integer, which must fit a long long. */
  function Stoll(s: string): (r: Result<int, Fault>)
    ensures r.Ok? <==> LeadingInteger(s).Some? && LLONG_MIN <= LeadingInteger(s).value <= LLONG_MAX
    ensures r.Ok? ==> r.value == LeadingInteger(s).value
    ensures r.Err? ==> r.error == Throws(s)
  {
    match LeadingInteger(s)
    case None => Err(Throws(s))
    case Some(v) => if LLONG_MIN <= v <= LLONG_MAX then Ok(v) else Err(Throws(s))
  }

  /** One process_* routine applied to node n. Every level but the primary
      one starts with the unit production: the child is visited one level
      lower and its value copied up (postfix expressions also copy the
      name). The other productions of a level are below. */
  function Visit(l: Level, n: Node, emit: bool, g: Gen): (r: Outcome)
    ensures r.Ok? ==> Extends(g, r.value.1)
    ensures r.Ok? && !emit ==> r.value.1 == g
    decreases n, 1
  {
    if l == Primary then VisitPrimary(n, emit, g)
    else if |n.children| == 1 then
      var v :- Visit(Below(l), n.children[0], emit, g);
      Ok((Attr(v.0.value, if l == Postfix then v.0.name else ""), v.1))
    else
      match l
      case Expr => VisitComma(n, emit, g)
      case BitOr => VisitBinary(l, n, emit, g)
      case BitXor => VisitBinary(l, n, emit, g)
      case BitAnd => VisitBinary(l, n, emit, g)
      case Relational => VisitBinary(l, n, emit, g)
      case Additive => VisitBinary(l, n, emit, g)
      case Unary => VisitUnary(n, emit, g)
      case Postfix => VisitPostfix(n, emit, g)
      case _ => Ok((Unset, g))
  }

  /** <primarni_izraz>: a number, a character constant, an identifier, or a
      parenthesised expression. */
  function VisitPrimary(n: Node, emit: bool, g: Gen): (r: Outcome)
    ensures r.Ok? ==> Extends(g, r.value.1)
    ensures r.Ok? && !emit ==> r.value.1 == g
    decreases n, 0
  {
    var c :- Child(n, 0);
    if StartsWith(c.content, "BROJ") then
      var v :- Stoll(c.lexicalUnit);
      var x := Wrap32(v);
      Ok((Attr(Some(x), ""), Emit(g, emit, [MoveImm(x, R6)])))
    else if StartsWith(c.content, "ZNAK") then
      var lexeme := c.lexicalUnit;
      if |lexeme| == 0 then Err(Undefined(c.symbol))
      else
        var x := if |lexeme| == 1 then 0 else SignedByte(lexeme[1]);
        Ok((Attr(Some(x), ""), Emit(g, emit, [MoveImm(x, R6)])))
    else if StartsWith(c.content, "IDN") then
      Ok((Attr(Some(0), c.lexicalUnit), Emit(g, emit, [LoadGlobal(R6, c.lexicalUnit)])))
    else if |n.children| == 3 then
      Visit(Expr, n.children[1], emit, g)
    else Ok((Unset, g))
  }

  /** The folding operation of a binary level, read from the operator token. */
  function Operation(l: Level, op: string): (o: Option<AluOp>) {
    match l
    case Additive =>
      if StartsWith(op, "PLUS") then Some(ADD)
      else if StartsWith(op, "MINUS") then Some(SUB)
      else None
    case BitAnd => Some(AND)
    case BitXor => Some(XOR)
    case BitOr => Some(OR)
    case _ => None
  }

  /** C's unary minus on int: the 32-bit two's-complement negation. */
  function Neg32(x: int): (r: int)
    ensures InInt32(r)
  {
    Wrap32(-x)
  }

  function Fold(o: Option<AluOp>, x: Option<int>, y: Option<int>): (r: Option<int>)
    ensures r.Some? <==> o.Some? && x.Some? && y.Some?
  {
    if o.Some? && x.Some? && y.Some? then Some(Apply(o.value, x.value, y.value)) else None
  }

  /** The conditional jump of a relational operator, as the source chooses
      it: the first of OP_LT, OP_GT, OP_LTE, OP_GTE found anywhere in the
      token's content. */
  function RelJumpAsWritten(op: string): (c: Option<Cond>) {
    if Contains(op, "OP_LT") then Some(SLT)
    else if Contains(op, "OP_GT") then Some(SGT)
    else if Contains(op, "OP_LTE") then Some(SLE)
    else if Contains(op, "OP_GTE") then Some(SGE)
    else None
  }

  /** The conditional jump as intended: the token name decides, the longer
      names matched first so that OP_LTE and OP_GTE are not read as OP_LT
      and OP_GT. */
  function RelJump(op: string): (c: Option<Cond>) {
    if StartsWith(op, "OP_LTE") then Some(SLE)
    else if StartsWith(op, "OP_GTE") then Some(SGE)
    else if StartsWith(op, "OP_LT") then Some(SLT)
    else if StartsWith(op, "OP_GT") then Some(SGT)
    else None
  }

  /** The comparison block with label number k: R6 becomes 1 when the
      jump is taken and 0 otherwise. */
  function Compare(j: Option<Cond>, k: nat): seq<Instr> {
    [Pop(R0), Cmp(R0, R6)]
    + (if j.Some? then [JumpIf(j.value, k)] else [])
    + [MoveImm(0, R6), Jump(k), SkipLabel(k), MoveImm(1, R6), ContinueLabel(k)]
  }

  /** The binary production of an additive, relational or bitwise level:
      the left operand at the same level, PUSH R6, the right operand one
      level lower, then POP R0 and the operation. A relational node takes
      one label number and keeps no value. */
  function VisitBinary(l: Level, n: Node, emit: bool, g: Gen): (r: Outcome)
    requires l in {BitOr, BitXor, BitAnd, Relational, Additive}
    ensures r.Ok? ==> Extends(g, r.value.1)
    ensures r.Ok? && !emit ==> r.value.1 == g
    decreases n, 0
  {
    var c0 :- Child(n, 0);
    var left :- Visit(l, c0, emit, g);
    var g2 := Emit(left.1, emit, [Push(R6)]);
    var c2 :- Child(n, 2);
    var right :- Visit(Below(l), c2, emit, g2);
    var g3 := right.1;
    var op := n.children[1].content;
    ExtendsTrans(g, left.1, g2);
    ExtendsTrans(g, g2, g3);
    if l == Relational then
      if emit then
        var h := Gen(g3.code + Compare(RelJump(op), g3.labels), g3.labels + 1);
        assert h.code[..|g3.code|] == g3.code;
        ExtendsTrans(g, g3, h);
        Ok((Unset, h))
      else Ok((Unset, g3))
    else
      var o := Operation(l, op);
      var h := Emit(g3, emit, [Pop(R0)] + (if o.Some? then [Alu(o.value, R0, R6, R6)] else []));
      ExtendsTrans(g, g3, h);
      Ok((Attr(Fold(o, left.0.value, right.0.value), ""), h))
  }

  /** <izraz> ::= <izraz> ZAREZ <izraz_pridruzivanja>: both visited, the
      value is the right one's. */
  function VisitComma(n: Node, emit: bool, g: Gen): (r: Outcome)
    ensures r.Ok? ==> Extends(g, r.value.1)
    ensures r.Ok? && !emit ==> r.value.1 == g
    decreases n, 0
  {
    if |n.children| == 3 then
      var left :- Visit(Expr, n.children[0], emit, g);
      var right :- Visit(Assignment, n.children[2], emit, left.1);
      ExtendsTrans(g, left.1, right.1);
      Ok((Attr(right.0.value, ""), right.1))
    else Ok((Unset, g))
  }

  /** <unarni_operator> <cast_izraz>: a minus negates the value and emits
      R6 := 0 - R6; the other operators pass the value through. */
  function VisitUnary(n: Node, emit: bool, g: Gen): (r: Outcome)
    ensures r.Ok? ==> Extends(g, r.value.1)
    ensures r.Ok? && !emit ==> r.value.1 == g
    decreases n, 0
  {
    if |n.children| == 2 && n.children[0].symbol == "<unarni_operator>" then
      var opNode :- Child(n.children[0], 0);
      var v :- Visit(Cast, n.children[1], emit, g);
      if StartsWith(opNode.content, "MINUS") then
        var h := Emit(v.1, emit, [MoveImm(0, R0), Alu(SUB, R0, R6, R6)]);
        ExtendsTrans(g, v.1, h);
        Ok((Attr(if v.0.value.Some? then Some(Neg32(v.0.value.value)) else None, ""), h))
      else Ok((Attr(v.0.value, ""), v.1))
    else Ok((Unset, g))
  }

  /** <postfiks_izraz>: indexing and the two call forms. The array name is
      read from the first grandchild; a call without arguments takes its
      name from a primary-expression visit of the callee; a call with an
      argument reads the callee's name attribute, which no visit has set. */
  function VisitPostfix(n: Node, emit: bool, g: Gen): (r: Outcome)
    ensures r.Ok? ==> Extends(g, r.value.1)
    ensures r.Ok? && !emit ==> r.value.1 == g
    decreases n, 0
  {
    if |n.children| >= 4 && StartsWith(n.children[1].content, "L_UGL_ZAGRADA") then
      var inner :- Child(n.children[0], 0);
      var v :- Visit(Expr, n.children[2], emit, g);
      var h := Emit(v.1, emit, [ShlImm(R6, 2, R0), Push(R0), LoadGlobal(R0, inner.lexicalUnit),
                                Pop(R1), Alu(ADD, R0, R1, R0), LoadInd(R6, R0)]);
      ExtendsTrans(g, v.1, h);
      Ok((Unset, h))
    else if |n.children| == 3 && StartsWith(n.children[1].content, "L_ZAGRADA") then
      var f :- VisitPrimary(n.children[0], false, g);
      Ok((Unset, Emit(f.1, emit, [Call(f.0.name)])))
    else if |n.children| == 4 && StartsWith(n.children[1].content, "L_ZAGRADA") then
      var v :- Visit(Assignment, n.children[2], emit, g);
      var h := Emit(v.1, emit, [Push(R6), Call(Unset.name), AddImm(R7, 4, R7)]);
      ExtendsTrans(g, v.1, h);
      Ok((Unset, h))
    else Ok((Unset, g))
  }

  /** process_lista_argumenata: the argument values left to right, with a
      PUSH R6 after each argument but the first. */
  function ArgList(n: Node, emit: bool, g: Gen): (r: Result<(seq<Option<int>>, Attr, Gen), Fault>)
    ensures r.Ok? ==> Extends(g, r.value.2)
    ensures r.Ok? ==> |r.value.0| == Arity(n) && r.value.0[|r.value.0| - 1] == r.value.1.value
    decreases n
  {
    if |n.children| == 1 then
      var v :- Visit(Assignment, n.children[0], emit, g);
      Ok(([v.0.value], v.0, v.1))
    else
      var c0 :- Child(n, 0);
      var left :- ArgList(c0, emit, g);
      var c2 :- Child(n, 2);
      var right :- Visit(Assignment, c2, emit, left.2);
      var h := Emit(right.1, emit, [Push(R6)]);
      ExtendsTrans(g, left.2, right.1);
      ExtendsTrans(g, right.1, h);
      Ok((left.0 + [right.0.value], right.0, h))
  }

  /** The number of arguments of an argument list: one more per ZAREZ
      production down the left spine. */
  function Arity(n: Node): nat
    decreases n
  {
    if |n.children| <= 1 then 1 else 1 + Arity(n.children[0])
  }

  /** process_unarni_operator: the operator token is kept as the name and
      coded as a number; nothing is emitted. */
  function UnaryOperator(n: Node): (r: Result<Attr, Fault>)
    ensures r.Ok? <==> |n.children| > 0
    ensures r.Ok? ==> r.value.name == n.children[0].content
  {
    var c :- Child(n, 0);
    var op := c.content;
    var code :=
      if StartsWith(op, "PLUS") then Some(1)
      else if StartsWith(op, "MINUS") then Some(-1)
      else if StartsWith(op, "OP_TILDA") then Some(2)
      else if StartsWith(op, "OP_NEG") then Some(3)
      else None;
    Ok(Attr(code, op))
  }

  /** The numbers the four unary operator tokens are coded as. */
  function OperatorCode(tok: string): int {
    if tok == "PLUS" then 1 else if tok == "MINUS" then -1 else if tok == "OP_TILDA" then 2 else 3
  }

  /** Each unary operator token gets its own code, whatever follows the
      token name in the content. */
  lemma OperatorCodes(n: Node, tok: string, rest: string)
    requires tok in {"PLUS", "MINUS", "OP_TILDA", "OP_NEG"}
    requires |n.children| > 0 && n.children[0].content == tok + rest
    ensures UnaryOperator(n) == Ok(Attr(Some(OperatorCode(tok)), tok + rest))
    ensures forall t :: t in {"PLUS", "MINUS", "OP_TILDA", "OP_NEG"} && t != tok ==>
      OperatorCode(t) != OperatorCode(tok)
  {
    var op := tok + rest;
    assert op[..|tok|] == tok;
    if tok == "MINUS" {
      assert op[0] == 'M';
    } else if tok == "OP_TILDA" {
      assert op[0] == 'O' && op[3] == 'T';
    } else if tok == "OP_NEG" {
      assert op[0] == 'O' && op[3] == 'N';
    }
  }

  // ---------------------------------------------------------------------
  // emitCode = false

  function AttrOf(r: Outcome): Result<Attr, Fault> {
    if r.Ok? then Ok(r.value.0) else Err(r.error)
  }

  /** A visit without code computes the same attributes, or fails the same
      way, as a visit with code, from any generator state. */
  lemma {:induction false} QuietAgrees(l: Level, n: Node, g: Gen, g': Gen)
    ensures AttrOf(Visit(l, n, false, g)) == AttrOf(Visit(l, n, true, g'))
    decreases n, 1
  {
    if l == Primary {
      QuietPrimary(n, g, g');
    } else if |n.children| == 1 {
      QuietUnit(l, n, g, g');
    } else if l == Expr {
      QuietComma(n, g, g');
    } else if l in {BitOr, BitXor, BitAnd, Relational, Additive} {
      QuietBinary(l, n, g, g');
    } else if l == Unary {
      QuietUnary(n, g, g');
    } else if l == Postfix {
      QuietPostfix(n, g, g');
    }
  }

  lemma {:induction false} QuietUnit(l: Level, n: Node, g: Gen, g': Gen)
    requires l != Primary && |n.children| == 1
    ensures AttrOf(Visit(l, n, false, g)) == AttrOf(Visit(l, n, true, g'))
    decreases n, 0
  {
    QuietAgrees(Below(l), n.children[0], g, g');
  }

  lemma {:induction false} QuietPrimary(n: Node, g: Gen, g': Gen)
    ensures AttrOf(VisitPrimary(n, false, g)) == AttrOf(VisitPrimary(n, true, g'))
    decreases n, 0
  {
    if |n.children| == 3 {
      QuietAgrees(Expr, n.children[1], g, g');
    }
  }

  lemma {:induction false} QuietBinary(l: Level, n: Node, g: Gen, g': Gen)
    requires l in {BitOr, BitXor, BitAnd, Relational, Additive}
    ensures AttrOf(VisitBinary(l, n, false, g)) == AttrOf(VisitBinary(l, n, true, g'))
    decreases n, 0
  {
    if 3 <= |n.children| {
      var c0 := n.children[0];
      QuietAgrees(l, c0, g, g');
      var a := Visit(l, c0, false, g);
      var b := Visit(l, c0, true, g');
      if a.Ok? {
        QuietAgrees(Below(l), n.children[2], Emit(a.value.1, false, [Push(R6)]), Emit(b.value.1, true, [Push(R6)]));
      }
    } else if 1 <= |n.children| {
      QuietAgrees(l, n.children[0], g, g');
    }
  }

  lemma {:induction false} QuietComma(n: Node, g: Gen, g': Gen)
    ensures AttrOf(VisitComma(n, false, g)) == AttrOf(VisitComma(n, true, g'))
    decreases n, 0
  {
    if |n.children| == 3 {
      QuietAgrees(Expr, n.children[0], g, g');
      var a := Visit(Expr, n.children[0], false, g);
      var b := Visit(Expr, n.children[0], true, g');
      if a.Ok? {
        QuietAgrees(Assignment, n.children[2], a.value.1, b.value.1);
      }
    }
  }

  lemma {:induction false} QuietUnary(n: Node, g: Gen, g': Gen)
    ensures AttrOf(VisitUnary(n, false, g)) == AttrOf(VisitUnary(n, true, g'))
    decreases n, 0
  {
    if |n.children| == 2 {
      QuietAgrees(Cast, n.children[1], g, g');
    }
  }

  lemma {:induction false} QuietPostfix(n: Node, g: Gen, g': Gen)
    ensures AttrOf(VisitPostfix(n, false, g)) == AttrOf(VisitPostfix(n, true, g'))
    decreases n, 0
  {
    if |n.children| >= 4 && StartsWith(n.children[1].content, "L_UGL_ZAGRADA") {
      QuietAgrees(Expr, n.children[2], g, g');
    } else if |n.children| == 3 && StartsWith(n.children[1].content, "L_ZAGRADA") {
      QuietPrimary(n.children[0], g, g');
      QuietPrimary(n.children[0], g', g');
    } else if |n.children| == 4 && StartsWith(n.children[1].content, "L_ZAGRADA") {
      QuietAgrees(Assignment, n.children[2], g, g');
    }
  }

  // ---------------------------------------------------------------------
  // Label numbers

  /** The numbers of the CONTINUE_ labels a piece of code defines, in order. */
  function Labels(code: seq<Instr>): seq<nat> {
    if code == [] then []
    else (if code[0].ContinueLabel? then [code[0].num] else []) + Labels(code[1..])
  }

  lemma {:induction false} LabelsConcat(a: seq<Instr>, b: seq<Instr>)
    ensures Labels(a + b) == Labels(a) + Labels(b)
    decreases |a|
  {
    if a != [] {
      assert (a + b)[0] == a[0] && (a + b)[1..] == a[1..] + b;
      LabelsConcat(a[1..], b);
      var h := if a[0].ContinueLabel? then [a[0].num] else [];
      assert Labels(a + b) == h + Labels(a[1..] + b);
      assert Labels(a) == h + Labels(a[1..]);
      assert h + (Labels(a[1..]) + Labels(b)) == (h + Labels(a[1..])) + Labels(b);
    } else {
      assert a + b == b;
    }
  }

  lemma {:induction false} NoLabels(xs: seq<Instr>)
    requires forall i :: 0 <= i < |xs| ==> !xs[i].ContinueLabel?
    ensures Labels(xs) == []
    decreases |xs|
  {
    if xs != [] {
      NoLabels(xs[1..]);
    }
  }

  /** The numbers a, a+1, ..., b-1. */
  function Range(a: nat, b: nat): (r: seq<nat>)
    requires a <= b
    ensures |r| == b - a && forall i :: 0 <= i < |r| ==> r[i] == a + i
    decreases b - a
  {
    if a == b then [] else [a] + Range(a + 1, b)
  }

  /** h extends g, and the labels h defined after g are exactly the numbers
      it took from the counter, each once and in order. */
  predicate Fresh(g: Gen, h: Gen) {
    Extends(g, h) && Labels(New(g, h)) == Range(g.labels, h.labels)
  }

  lemma FreshTrans(g: Gen, g1: Gen, h: Gen)
    requires Fresh(g, g1) && Fresh(g1, h)
    ensures Fresh(g, h)
  {
    ExtendsTrans(g, g1, h);
    LabelsConcat(New(g, g1), New(g1, h));
  }

  lemma FreshEmit(g: Gen, g1: Gen, emit: bool, xs: seq<Instr>)
    requires Fresh(g, g1)
    requires forall i :: 0 <= i < |xs| ==> !xs[i].ContinueLabel?
    ensures Fresh(g, Emit(g1, emit, xs))
  {
    var h := Emit(g1, emit, xs);
    NoLabels(xs);
    if emit {
      FreshTrans(g, g1, h);
    }
  }

  lemma FreshCompare(g: Gen, g1: Gen, j: Option<Cond>)
    requires Fresh(g, g1)
    ensures var h := Gen(g1.code + Compare(j, g1.labels), g1.labels + 1);
      Extends(g1, h) && Fresh(g, h)
  {
    var k := g1.labels;
    var h := Gen(g1.code + Compare(j, k), k + 1);
    assert h.code[..|g1.code|] == g1.code;
    var head := [Pop(R0), Cmp(R0, R6)] + (if j.Some? then [JumpIf(j.value, k)] else [])
      + [MoveImm(0, R6), Jump(k), SkipLabel(k), MoveImm(1, R6)];
    assert Compare(j, k) == head + [ContinueLabel(k)];
    NoLabels(head);
    LabelsConcat(head, [ContinueLabel(k)]);
    assert Labels([ContinueLabel(k)]) == [k];
    assert New(g1, h) == Compare(j, k);
    FreshTrans(g, g1, h);
  }

  /** Label numbers are handed out in order: the CONTINUE_ labels a visit
      emits are exactly the numbers the counter moved past, one per
      relational expression with code. */
  lemma {:induction false} LabelsInOrder(l: Level, n: Node, emit: bool, g: Gen)
    ensures Visit(l, n, emit, g).Ok? ==> Fresh(g, Visit(l, n, emit, g).value.1)
    decreases n, 3
  {
    if l == Primary {
      LabelsPrimary(n, emit, g);
    } else if |n.children| == 1 {
      LabelsInOrder(Below(l), n.children[0], emit, g);
    } else if l == Expr {
      LabelsComma(n, emit, g);
    } else if l in {BitOr, BitXor, BitAnd, Relational, Additive} {
      LabelsBinary(l, n, emit, g);
    } else if l == Unary {
      LabelsUnary(n, emit, g);
    } else if l == Postfix {
      LabelsPostfix(n, emit, g);
    } else {
      assert Fresh(g, g);
    }
  }

  lemma {:induction false} LabelsPrimary(n: Node, emit: bool, g: Gen)
    ensures VisitPrimary(n, emit, g).Ok? ==> Fresh(g, VisitPrimary(n, emit, g).value.1)
    decreases n, 0
  {
    assert Fresh(g, g);
    if |n.children| > 0 {
      var c := n.children[0];
      if StartsWith(c.content, "BROJ") || StartsWith(c.content, "ZNAK") || StartsWith(c.content, "IDN") {
        var x := if StartsWith(c.content, "BROJ") then
          (match LeadingInteger(c.lexicalUnit) case Some(v) => Wrap32(v) case None => 0)
          else if StartsWith(c.content, "ZNAK") && |c.lexicalUnit| > 1 then SignedByte(c.lexicalUnit[1])
          else 0;
        FreshEmit(g, g, emit, [MoveImm(x, R6)]);
        FreshEmit(g, g, emit, [LoadGlobal(R6, c.lexicalUnit)]);
      } else if |n.children| == 3 {
        LabelsInOrder(Expr, n.children[1], emit, g);
      }
    }
  }

  lemma {:induction false} LabelsBinary(l: Level, n: Node, emit: bool, g: Gen)
    requires l in {BitOr, BitXor, BitAnd, Relational, Additive}
    ensures VisitBinary(l, n, emit, g).Ok? ==> Fresh(g, VisitBinary(l, n, emit, g).value.1)
    decreases n, 2
  {
    if l == Relational {
      LabelsRelational(n, emit, g);
    } else {
      LabelsFolding(l, n, emit, g);
    }
  }

  /** A relational visit takes the one new label its comparison uses. */
  lemma {:induction false} LabelsRelational(n: Node, emit: bool, g: Gen)
    ensures VisitBinary(Relational, n, emit, g).Ok? ==> Fresh(g, VisitBinary(Relational, n, emit, g).value.1)
    decreases n, 1
  {
    if 3 <= |n.children| {
      LabelsOperands(Relational, n, emit, g);
      var a := Visit(Relational, n.children[0], emit, g);
      if a.Ok? {
        var b := Visit(Below(Relational), n.children[2], emit, Emit(a.value.1, emit, [Push(R6)]));
        if b.Ok? {
          var g3 := b.value.1;
          var j := RelJump(n.children[1].content);
          FreshCompare(g, g3, j);
          assert VisitBinary(Relational, n, emit, g).value.1 ==
            if emit then Gen(g3.code + Compare(j, g3.labels), g3.labels + 1) else g3;
        }
      }
    }
  }

  /** An additive or bitwise visit takes no label of its own. */
  lemma {:induction false} LabelsFolding(l: Level, n: Node, emit: bool, g: Gen)
    requires l in {BitOr, BitXor, BitAnd, Additive}
    ensures VisitBinary(l, n, emit, g).Ok? ==> Fresh(g, VisitBinary(l, n, emit, g).value.1)
    decreases n, 1
  {
    if 3 <= |n.children| {
      LabelsOperands(l, n, emit, g);
      var a := Visit(l, n.children[0], emit, g);
      if a.Ok? {
        var b := Visit(Below(l), n.children[2], emit, Emit(a.value.1, emit, [Push(R6)]));
        if b.Ok? {
          var o := Operation(l, n.children[1].content);
          var tail := [Pop(R0)] + (if o.Some? then [Alu(o.value, R0, R6, R6)] else []);
          assert VisitBinary(l, n, emit, g).value.1 == Emit(b.value.1, emit, tail);
          FreshEmit(g, b.value.1, emit, tail);
        }
      }
    }
  }

  /** Both operands of a binary visit leave the label counter fresh. */
  lemma {:induction false} LabelsOperands(l: Level, n: Node, emit: bool, g: Gen)
    requires l in {BitOr, BitXor, BitAnd, Relational, Additive} && 3 <= |n.children|
    ensures var a := Visit(l, n.children[0], emit, g);
      a.Ok? ==>
        var b := Visit(Below(l), n.children[2], emit, Emit(a.value.1, emit, [Push(R6)]));
        b.Ok? ==> Fresh(g, b.value.1)
    decreases n, 0
  {
    LabelsInOrder(l, n.children[0], emit, g);
    var a := Visit(l, n.children[0], emit, g);
    if a.Ok? {
      var g2 := Emit(a.value.1, emit, [Push(R6)]);
      FreshEmit(g, a.value.1, emit, [Push(R6)]);
      LabelsInOrder(Below(l), n.children[2], emit, g2);
      var b := Visit(Below(l), n.children[2], emit, g2);
      if b.Ok? {
        FreshTrans(g, g2, b.value.1);
      }
    }
  }

  lemma {:induction false} LabelsComma(n: Node, emit: bool, g: Gen)
    ensures VisitComma(n, emit, g).Ok? ==> Fresh(g, VisitComma(n, emit, g).value.1)
    decreases n, 0
  {
    assert Fresh(g, g);
    if |n.children| == 3 {
      LabelsInOrder(Expr, n.children[0], emit, g);
      var a := Visit(Expr, n.children[0], emit, g);
      if a.Ok? {
        LabelsInOrder(Assignment, n.children[2], emit, a.value.1);
        var b := Visit(Assignment, n.children[2], emit, a.value.1);
        if b.Ok? {
          FreshTrans(g, a.value.1, b.value.1);
        }
      }
    }
  }

  lemma {:induction false} LabelsUnary(n: Node, emit: bool, g: Gen)
    ensures VisitUnary(n, emit, g).Ok? ==> Fresh(g, VisitUnary(n, emit, g).value.1)
    decreases n, 0
  {
    assert Fresh(g, g);
    if |n.children| == 2 {
      LabelsInOrder(Cast, n.children[1], emit, g);
      var a := Visit(Cast, n.children[1], emit, g);
      if a.Ok? {
        FreshEmit(g, a.value.1, emit, [MoveImm(0, R0), Alu(SUB, R0, R6, R6)]);
      }
    }
  }

  lemma {:induction false} LabelsPostfix(n: Node, emit: bool, g: Gen)
    ensures VisitPostfix(n, emit, g).Ok? ==> Fresh(g, VisitPostfix(n, emit, g).value.1)
    decreases n, 0
  {
    assert Fresh(g, g);
    if |n.children| >= 4 && StartsWith(n.children[1].content, "L_UGL_ZAGRADA") {
      LabelsInOrder(Expr, n.children[2], emit, g);
      var a := Visit(Expr, n.children[2], emit, g);
      if a.Ok? && |n.children[0].children| > 0 {
        FreshEmit(g, a.value.1, emit, [ShlImm(R6, 2, R0), Push(R0),
          LoadGlobal(R0, n.children[0].children[0].lexicalUnit), Pop(R1), Alu(ADD, R0, R1, R0), LoadInd(R6, R0)]);
      }
    } else if |n.children| == 3 && StartsWith(n.children[1].content, "L_ZAGRADA") {
      var f := VisitPrimary(n.children[0], false, g);
      if f.Ok? {
        FreshEmit(g, g, emit, [Call(f.value.0.name)]);
      }
    } else if |n.children| == 4 && StartsWith(n.children[1].content, "L_ZAGRADA") {
      LabelsInOrder(Assignment, n.children[2], emit, g);
      var a := Visit(Assignment, n.children[2], emit, g);
      if a.Ok? {
        FreshEmit(g, a.value.1, emit, [Push(R6), Call(""), AddImm(R7, 4, R7)]);
      }
    }
  }

  // ---------------------------------------------------------------------
  // The relational jump

  function CondOf(tok: string): Cond {
    if tok == "OP_LT" then SLT else if tok == "OP_GT" then SGT else if tok == "OP_LTE" then SLE else SGE
  }

  lemma StartsContains(s: string, sub: string)
    requires StartsWith(s, sub)
    ensures Contains(s, sub)
  {
  }

  lemma {:induction false} MissingCharNotContained(s: string, sub: string, c: char)
    requires c in sub && c !in s
    ensures !Contains(s, sub)
    decreases |s|
  {
    if |s| > 0 {
      MissingCharNotContained(s[1..], sub, c);
    }
  }

  /** As written, `<=` compiles to the jump of `<`, and `>=` to the jump of
      `>` (when nothing after the token name holds an 'L', as in a line
      number and the lexeme ">="). */
  lemma RelJumpAsWrittenMergesOperators(rest: string)
    ensures RelJumpAsWritten("OP_LT" + rest) == Some(SLT)
    ensures RelJumpAsWritten("OP_LTE" + rest) == Some(SLT)
    ensures 'L' !in rest ==> RelJumpAsWritten("OP_GTE" + rest) == Some(SGT)
  {
    StartsContains("OP_LT" + rest, "OP_LT");
    assert ("OP_LTE" + rest)[..5] == "OP_LT";
    StartsContains("OP_LTE" + rest, "OP_LT");
    if 'L' !in rest {
      var s := "OP_GTE" + rest;
      assert 'L' !in s by {
        forall i | 0 <= i < |s| ensures s[i] != 'L' {
          if i >= 6 { assert s[i] == rest[i - 6]; }
        }
      }
      MissingCharNotContained(s, "OP_LT", 'L');
      assert s[..5] == "OP_GT";
      StartsContains(s, "OP_GT");
    }
  }

  /** The content of an OP_LTE token a source line can hold: the jump as
      written is the strict one, the intended one is not. */
  lemma LessOrEqualReadAsLess()
    ensures RelJumpAsWritten("OP_LTE 3 <=") == Some(SLT)
    ensures RelJump("OP_LTE 3 <=") == Some(SLE)
  {
    RelJumpAsWrittenMergesOperators(" 3 <=");
    assert "OP_LTE 3 <=" == "OP_LTE" + " 3 <=";
    assert ("OP_LTE" + " 3 <=")[..6] == "OP_LTE";
  }

  /** As intended, each of the four relational tokens gets its own jump,
      whatever follows its name after a space. */
  lemma RelJumpPicksToken(tok: string, rest: string)
    requires tok in {"OP_LT", "OP_GT", "OP_LTE", "OP_GTE"}
    requires rest == "" || rest[0] == ' '
    ensures RelJump(tok + rest) == Some(CondOf(tok))
  {
    var s := tok + rest;
    assert s[..|tok|] == tok;
    if |tok| == 5 && |s| > 5 {
      assert s[5] == ' ';
    }
    if tok == "OP_LT" || tok == "OP_LTE" {
      assert s[3] == 'L';
    } else {
      assert s[3] == 'G';
    }
  }

  // ---------------------------------------------------------------------
  // Primary expressions

  /** A terminal node as the tree reader builds it from "TOKEN line lexeme". */
  function Tok(sym: string, lexeme: string): (n: Node)
    ensures StartsWith(n.content, sym) && n.lexicalUnit == lexeme && n.children == []
  {
    var content := sym + " 1 " + lexeme;
    assert content[..|sym|] == sym;
    Node(sym, "1", lexeme, content, [])
  }

  function Inner(sym: string, children: seq<Node>): Node {
    Node(sym, "", "", "", children)
  }

  lemma NotStarting(a: string, b: string, i: nat)
    requires i < |a| && i < |b| && a[i] != b[i]
    ensures !StartsWith(a, b)
  {
  }

  /** A character constant folds to the signed code of the lexeme's second
      character: the character itself between quotes, but the backslash
      (92) for every escape sequence. */
  lemma CharConstantValue(lexeme: string, emit: bool, g: Gen)
    requires |lexeme| >= 2
    ensures var r := VisitPrimary(Inner("<primarni_izraz>", [Tok("ZNAK", lexeme)]), emit, g);
      r.Ok? && r.value.0 == Attr(Some(SignedByte(lexeme[1])), "") &&
      r.value.1 == Emit(g, emit, [MoveImm(SignedByte(lexeme[1]), R6)])
    ensures lexeme[1] == '\\' ==>
      VisitPrimary(Inner("<primarni_izraz>", [Tok("ZNAK", lexeme)]), emit, g).value.0.value == Some(92)
  {
    NotStarting(Tok("ZNAK", lexeme).content, "BROJ", 0);
  }

  /** An identifier folds to 0, keeps its name, and loads its global. */
  lemma IdentifierValue(name: string, emit: bool, g: Gen)
    ensures var r := VisitPrimary(Inner("<primarni_izraz>", [Tok("IDN", name)]), emit, g);
      r == Ok((Attr(Some(0), name), Emit(g, emit, [LoadGlobal(R6, name)])))
  {
    var c := Tok("IDN", name).content;
    NotStarting(c, "BROJ", 0);
    NotStarting(c, "ZNAK", 0);
  }

  /** A number stoll cannot read into a long long stops the walk. */
  lemma NumberOutOfRange(v: nat, emit: bool, g: Gen)
    requires v > LLONG_MAX
    ensures VisitPrimary(Inner("<primarni_izraz>", [Tok("BROJ", NatToDecimal(v))]), emit, g)
      == Err(Throws(NatToDecimal(v)))
  {
    LeadingIntegerOfDecimal(v);
  }

  /** Both call forms name the callee through an attribute no visit has
      set when the callee is an ordinary postfix expression (a non-terminal
      with one child): the call goes to F_ with an empty name. */
  lemma CallTargetIsEmpty(n: Node, emit: bool, g: Gen)
    requires |n.children| in {3, 4} && StartsWith(n.children[1].content, "L_ZAGRADA")
    requires |n.children[0].children| == 1 && n.children[0].children[0].content == ""
    ensures var r := VisitPostfix(n, emit, g);
      r.Ok? && emit ==> Call("") in New(g, r.value.1)
  {
    var c := n.children[0].children[0];
    if |n.children| == 3 {
      assert !StartsWith(c.content, "BROJ") && !StartsWith(c.content, "ZNAK") && !StartsWith(c.content, "IDN");
    } else {
      assert n.children[1].content[2] == 'Z';
      NotStarting(n.children[1].content, "L_UGL_ZAGRADA", 2);
      var r := VisitPostfix(n, emit, g);
      if r.Ok? && emit {
        var a := Visit(Assignment, n.children[2], emit, g);
        assert New(g, r.value.1) == New(g, a.value.1) + [Push(R6), Call(""), AddImm(R7, 4, R7)] by {
          ExtendsTrans(g, a.value.1, r.value.1);
        }
      }
    }
  }

  // ---------------------------------------------------------------------
  // What the code of a constant expression computes

  /** The registers the expression code uses and the stack it pushes to;
      R7, the stack pointer itself, is the stack. */
  datatype Machine = Machine(r0: int, r1: int, r6: int, stack: seq<int>)

  function Get(m: Machine, r: Reg): Option<int> {
    match r
    case R0 => Some(m.r0)
    case R1 => Some(m.r1)
    case R6 => Some(m.r6)
    case R7 => None
  }

  function Set(m: Machine, r: Reg, v: int): Option<Machine> {
    match r
    case R0 => Some(m.(r0 := v))
    case R1 => Some(m.(r1 := v))
    case R6 => Some(m.(r6 := v))
    case R7 => None
  }

  /** One register instruction; memory, calls, jumps and labels are outside
      this machine (None). */
  function Step(m: Machine, i: Instr): Option<Machine> {
    match i
    case MoveImm(v, d) => Set(m, d, Wrap32(v))
    case Push(r) =>
      var v :- Get(m, r);
      Some(m.(stack := m.stack + [v]))
    case Pop(d) =>
      if |m.stack| == 0 then None
      else Set(m.(stack := m.stack[..|m.stack| - 1]), d, m.stack[|m.stack| - 1])
    case Alu(o, a, b, d) =>
      var x :- Get(m, a);
      var y :- Get(m, b);
      Set(m, d, Apply(o, x, y))
    case _ => None
  }

  function Exec(code: seq<Instr>, m: Machine): Option<Machine>
    decreases |code|
  {
    if code == [] then Some(m)
    else
      var m1 :- Step(m, code[0]);
      Exec(code[1..], m1)
  }

  lemma {:induction false} ExecConcat(a: seq<Instr>, b: seq<Instr>, m: Machine)
    ensures Exec(a + b, m) == (if Exec(a, m).Some? then Exec(b, Exec(a, m).value) else None)
    decreases |a|
  {
    if a == [] {
      assert a + b == b;
    } else {
      assert (a + b)[0] == a[0] && (a + b)[1..] == a[1..] + b;
      var s := Step(m, a[0]);
      if s.Some? {
        ExecConcat(a[1..], b, s.value);
      }
    }
  }

  /** Constant expressions over numbers, unary minus, + and -, and the
      three bitwise operators. */
  datatype Term =
    | Lit(v: nat)
    | Minus(arg: Term)
    | Sum(a: Term, b: Term)
    | Diff(a: Term, b: Term)
    | Conj(a: Term, b: Term)
    | Excl(a: Term, b: Term)
    | Disj(a: Term, b: Term)

  predicate Binary(t: Term) {
    t.Sum? || t.Diff? || t.Conj? || t.Excl? || t.Disj?
  }

  /** Every literal is a number stoll can read. */
  predicate Fits(t: Term) {
    match t
    case Lit(v) => v <= LLONG_MAX
    case Minus(x) => Fits(x)
    case Sum(x, y) => Fits(x) && Fits(y)
    case Diff(x, y) => Fits(x) && Fits(y)
    case Conj(x, y) => Fits(x) && Fits(y)
    case Excl(x, y) => Fits(x) && Fits(y)
    case Disj(x, y) => Fits(x) && Fits(y)
  }

  /** The value of a term in C's int arithmetic on a 32-bit two's-complement
      machine: a literal is truncated to int, and every operation wraps. */
  function Eval(t: Term): (x: int)
    ensures InInt32(x)
  {
    match t
    case Lit(v) => Wrap32(v)
    case Minus(x) => Neg32(Eval(x))
    case Sum(x, y) => Wrap32(Eval(x) + Eval(y))
    case Diff(x, y) => Wrap32(Eval(x) - Eval(y))
    case Conj(x, y) => And32(Eval(x), Eval(y))
    case Excl(x, y) => Xor32(Eval(x), Eval(y))
    case Disj(x, y) => Or32(Eval(x), Eval(y))
  }

  /** The grammar level whose production builds the term. */
  function Home(t: Term): Level {
    match t
    case Lit(_) => Primary
    case Minus(_) => Unary
    case Sum(_, _) => Additive
    case Diff(_, _) => Additive
    case Conj(_, _) => BitAnd
    case Excl(_, _) => BitXor
    case Disj(_, _) => BitOr
  }

  function OpOf(t: Term): AluOp
    requires Binary(t)
  {
    match t
    case Sum(_, _) => ADD
    case Diff(_, _) => SUB
    case Conj(_, _) => AND
    case Excl(_, _) => XOR
    case Disj(_, _) => OR
  }

  function OpToken(t: Term): Node
    requires Binary(t)
  {
    match t
    case Sum(_, _) => Tok("PLUS", "+")
    case Diff(_, _) => Tok("MINUS", "-")
    case Conj(_, _) => Tok("OP_BIN_I", "&")
    case Excl(_, _) => Tok("OP_BIN_XILI", "^")
    case Disj(_, _) => Tok("OP_BIN_ILI", "|")
  }

  /** Unit productions from level l down to level `target`, over `inner`. */
  function Chain(l: Level, target: Level, inner: Node): Node
    requires Rank(l) <= Rank(target)
    decreases Rank(target) - Rank(l)
  {
    if l == target then inner
    else Inner(Symbol(l), [Chain(Below(l), target, inner)])
  }

  /** The parse tree of a term read at level l: unit productions down to the
      term's own level, with parentheses when the term binds more loosely
      than l. */
  function ToTree(l: Level, t: Term): Node
    decreases t, Rank(l) + 1
  {
    if Rank(l) <= Rank(Home(t)) then Chain(l, Home(t), Build(t))
    else
      Chain(l, Primary, Inner(Symbol(Primary),
        [Tok("L_ZAGRADA", "("), ToTree(Expr, t), Tok("D_ZAGRADA", ")")]))
  }

  /** The node of a term's own production. */
  function Build(t: Term): Node
    decreases t, 0
  {
    match t
    case Lit(v) => Inner(Symbol(Primary), [Tok("BROJ", NatToDecimal(v))])
    case Minus(x) =>
      Inner(Symbol(Unary), [Inner("<unarni_operator>", [Tok("MINUS", "-")]), ToTree(Cast, x)])
    case _ =>
      Inner(Symbol(Home(t)), [ToTree(Home(t), t.a), OpToken(t), ToTree(Below(Home(t)), t.b)])
  }

  lemma {:induction false} ChainVisit(l: Level, target: Level, inner: Node, g: Gen)
    requires Rank(l) <= Rank(target)
    ensures var r := Visit(l, Chain(l, target, inner), true, g);
      var s := Visit(target, inner, true, g);
      r.Ok? == s.Ok? && (r.Ok? ==> r.value.0.value == s.value.0.value && r.value.1 == s.value.1)
    decreases Rank(target) - Rank(l)
  {
    if l != target {
      ChainVisit(Below(l), target, inner, g);
    }
  }

  /** The walk folds every constant term to its C value, and the code it
      emits leaves that value in R6 with the stack as it found it; no label
      is used. */
  lemma {:induction false} TermRuns(l: Level, t: Term, g: Gen, m: Machine)
    requires Fits(t)
    ensures var r := Visit(l, ToTree(l, t), true, g);
      r.Ok? && r.value.0.value == Some(Eval(t)) && r.value.1.labels == g.labels &&
      var e := Exec(New(g, r.value.1), m);
      e.Some? && e.value.r6 == Eval(t) && e.value.stack == m.stack
    decreases t, 2 * Rank(l) + 3
  {
    if Rank(l) <= Rank(Home(t)) {
      HomeRuns(l, t, g, m);
    } else {
      ParenRuns(l, t, g, m);
    }
  }

  /** A term read at or above its own level: unit productions over its own
      production. */
  lemma {:induction false} HomeRuns(l: Level, t: Term, g: Gen, m: Machine)
    requires Fits(t) && Rank(l) <= Rank(Home(t))
    ensures var r := Visit(l, ToTree(l, t), true, g);
      r.Ok? && r.value.0.value == Some(Eval(t)) && r.value.1.labels == g.labels &&
      var e := Exec(New(g, r.value.1), m);
      e.Some? && e.value.r6 == Eval(t) && e.value.stack == m.stack
    decreases t, 2
  {
    ChainVisit(l, Home(t), Build(t), g);
    BuildRuns(t, g, m);
  }

  /** A term read below its own level: parentheses around the term read as
      an expression. */
  lemma {:induction false} ParenRuns(l: Level, t: Term, g: Gen, m: Machine)
    requires Fits(t) && Rank(l) > Rank(Home(t))
    ensures var r := Visit(l, ToTree(l, t), true, g);
      r.Ok? && r.value.0.value == Some(Eval(t)) && r.value.1.labels == g.labels &&
      var e := Exec(New(g, r.value.1), m);
      e.Some? && e.value.r6 == Eval(t) && e.value.stack == m.stack
    decreases t, 2 * Rank(l) + 2
  {
    var p := Inner(Symbol(Primary), [Tok("L_ZAGRADA", "("), ToTree(Expr, t), Tok("D_ZAGRADA", ")")]);
    ChainVisit(l, Primary, p, g);
    ParenStep(p, g);
    TermRuns(Expr, t, g, m);
  }

  /** A parenthesised primary expression is its inner expression. */
  lemma ParenStep(p: Node, g: Gen)
    requires |p.children| == 3 && StartsWith(p.children[0].content, "L_ZAGRADA")
    ensures Visit(Primary, p, true, g) == Visit(Expr, p.children[1], true, g)
  {
    var c := p.children[0].content;
    assert c[..9] == "L_ZAGRADA";
    assert c[0] == 'L';
    NotStarting(c, "BROJ", 0);
    NotStarting(c, "ZNAK", 0);
    NotStarting(c, "IDN", 0);
  }

  lemma {:induction false} BuildRuns(t: Term, g: Gen, m: Machine)
    requires Fits(t)
    ensures var r := Visit(Home(t), Build(t), true, g);
      r.Ok? && r.value.0.value == Some(Eval(t)) && r.value.1.labels == g.labels &&
      var e := Exec(New(g, r.value.1), m);
      e.Some? && e.value.r6 == Eval(t) && e.value.stack == m.stack
    decreases t, 1
  {
    match t
    case Lit(v) =>
      LitRuns(v, g, m);
    case Minus(x) =>
      MinusRuns(t, g, m);
    case _ =>
      BinaryRuns(t, g, m);
  }

  /** A number visit, over an abstract primary node. */
  lemma NumberStep(n: Node, g: Gen)
    requires |n.children| > 0 && StartsWith(n.children[0].content, "BROJ")
    requires Stoll(n.children[0].lexicalUnit).Ok?
    ensures var x := Wrap32(Stoll(n.children[0].lexicalUnit).value);
      Visit(Primary, n, true, g) == Ok((Attr(Some(x), ""), Emit(g, true, [MoveImm(x, R6)])))
  {
  }

  lemma LitRuns(v: nat, g: Gen, m: Machine)
    requires v <= LLONG_MAX
    ensures var r := Visit(Primary, Build(Lit(v)), true, g);
      r.Ok? && r.value.0.value == Some(Wrap32(v)) && r.value.1.labels == g.labels &&
      var e := Exec(New(g, r.value.1), m);
      e.Some? && e.value.r6 == Wrap32(v) && e.value.stack == m.stack
  {
    var n := Build(Lit(v));
    assert n.children == [Tok("BROJ", NatToDecimal(v))];
    LeadingIntegerOfDecimal(v);
    assert Stoll(n.children[0].lexicalUnit) == Ok(v);
    NumberStep(n, g);
    ExecMove(Wrap32(v), m, [MoveImm(Wrap32(v), R6)]);
  }

  /** MOVE %D x, R6 of a 32-bit x loads x into R6 and nothing else. */
  lemma ExecMove(x: int, m: Machine, code: seq<Instr>)
    requires InInt32(x) && code == [MoveImm(x, R6)]
    ensures Exec(code, m) == Some(m.(r6 := x))
  {
    ExecOne(MoveImm(x, R6), m);
  }

  /** One unary-minus visit, over whatever its operand's visit gave. */
  lemma MinusStep(n: Node, g: Gen, tail: seq<Instr>)
    requires |n.children| == 2 && n.children[0].symbol == "<unarni_operator>"
    requires |n.children[0].children| > 0 && StartsWith(n.children[0].children[0].content, "MINUS")
    requires Visit(Cast, n.children[1], true, g).Ok?
    requires Visit(Cast, n.children[1], true, g).value.0.value.Some?
    requires tail == [MoveImm(0, R0), Alu(SUB, R0, R6, R6)]
    ensures var a := Visit(Cast, n.children[1], true, g).value;
      Visit(Unary, n, true, g) == Ok((Attr(Some(Neg32(a.0.value.value)), ""), Emit(a.1, true, tail)))
  {
  }

  /** One additive or bitwise visit, over whatever its operands' visits gave. */
  lemma BinaryStep(l: Level, n: Node, g: Gen)
    requires l in {BitOr, BitXor, BitAnd, Additive} && |n.children| == 3
    requires Operation(l, n.children[1].content).Some?
    requires Visit(l, n.children[0], true, g).Ok?
    requires Visit(Below(l), n.children[2], true,
      Emit(Visit(l, n.children[0], true, g).value.1, true, [Push(R6)])).Ok?
    ensures var a := Visit(l, n.children[0], true, g).value;
      var b := Visit(Below(l), n.children[2], true, Emit(a.1, true, [Push(R6)])).value;
      var o := Operation(l, n.children[1].content).value;
      Visit(l, n, true, g) ==
        Ok((Attr(Fold(Some(o), a.0.value, b.0.value), ""), Emit(b.1, true, [Pop(R0), Alu(o, R0, R6, R6)])))
  {
    var o := Operation(l, n.children[1].content).value;
    assert [Pop(R0)] + [Alu(o, R0, R6, R6)] == [Pop(R0), Alu(o, R0, R6, R6)];
  }

  /** Code for the left operand, PUSH R6, code for the right operand, then
      POP R0 and the operation: R6 ends as the operation on the two values. */
  lemma ExecBinary(ca: seq<Instr>, cb: seq<Instr>, o: AluOp, m: Machine)
    requires Exec(ca, m).Some? && Exec(ca, m).value.stack == m.stack
    requires var ma := Exec(ca, m).value;
      var e := Exec(cb, ma.(stack := m.stack + [ma.r6]));
      e.Some? && e.value.stack == m.stack + [ma.r6]
    ensures var ma := Exec(ca, m).value;
      var mc := Exec(cb, ma.(stack := m.stack + [ma.r6])).value;
      var e := Exec(ca + [Push(R6)] + cb + [Pop(R0), Alu(o, R0, R6, R6)], m);
      e.Some? && e.value.r6 == Apply(o, ma.r6, mc.r6) && e.value.stack == m.stack
  {
    var ma := Exec(ca, m).value;
    var mb := ma.(stack := m.stack + [ma.r6]);
    var mc := Exec(cb, mb).value;
    var tail := [Pop(R0), Alu(o, R0, R6, R6)];
    ExecConcat(ca, [Push(R6)], m);
    assert Exec([Push(R6)], ma) == Some(mb);
    ExecConcat(ca + [Push(R6)], cb, m);
    ExecConcat(ca + [Push(R6)] + cb, tail, m);
    assert mc.stack[..|mc.stack| - 1] == m.stack;
    var m1 := mc.(stack := m.stack, r0 := ma.r6);
    assert Step(mc, Pop(R0)) == Some(m1);
    var m2 := m1.(r6 := Apply(o, ma.r6, mc.r6));
    assert Step(m1, Alu(o, R0, R6, R6)) == Some(m2);
    assert Exec(tail[1..], m1) == Some(m2);
    assert Exec(tail, mc) == Some(m2);
  }

  lemma {:induction false} MinusRuns(t: Term, g: Gen, m: Machine)
    requires t.Minus? && Fits(t)
    ensures var r := Visit(Unary, Build(t), true, g);
      r.Ok? && r.value.0.value == Some(Eval(t)) && r.value.1.labels == g.labels &&
      var e := Exec(New(g, r.value.1), m);
      e.Some? && e.value.r6 == Eval(t) && e.value.stack == m.stack
    decreases t, 0
  {
    var n := Build(t);
    assert n.children == [Inner("<unarni_operator>", [Tok("MINUS", "-")]), ToTree(Cast, t.arg)];
    TermRuns(Cast, t.arg, g, m);
    MinusNodeRuns(n, Eval(t.arg), g, m);
    EvalMinus(t);
  }

  /** A unary minus over an operand whose visit folds to v and whose code
      leaves v in R6: the visit folds to the negation and the code leaves it
      in R6. */
  lemma MinusNodeRuns(n: Node, v: int, g: Gen, m: Machine)
    requires |n.children| == 2 && n.children[0].symbol == "<unarni_operator>"
    requires |n.children[0].children| > 0 && StartsWith(n.children[0].children[0].content, "MINUS")
    requires var a := Visit(Cast, n.children[1], true, g);
      a.Ok? && a.value.0.value == Some(v) && a.value.1.labels == g.labels &&
      var e := Exec(New(g, a.value.1), m);
      e.Some? && e.value.r6 == v && e.value.stack == m.stack
    ensures var r := Visit(Unary, n, true, g);
      r.Ok? && r.value.0.value == Some(Neg32(v)) && r.value.1.labels == g.labels &&
      var e := Exec(New(g, r.value.1), m);
      e.Some? && e.value.r6 == Neg32(v) && e.value.stack == m.stack
  {
    var g1 := Visit(Cast, n.children[1], true, g).value.1;
    var tail := [MoveImm(0, R0), Alu(SUB, R0, R6, R6)];
    MinusStep(n, g, tail);
    MinusExec(g, g1, Emit(g1, true, tail), tail, m);
  }

  lemma EvalMinus(t: Term)
    requires t.Minus?
    ensures Eval(t) == Neg32(Eval(t.arg))
  {
  }

  /** The operand's code then the negation leaves the negated value in R6. */
  lemma MinusExec(g: Gen, g1: Gen, h: Gen, tail: seq<Instr>, m: Machine)
    requires Extends(g, g1) && h == Emit(g1, true, tail)
    requires tail == [MoveImm(0, R0), Alu(SUB, R0, R6, R6)]
    requires Exec(New(g, g1), m).Some? && Exec(New(g, g1), m).value.stack == m.stack
    ensures var ma := Exec(New(g, g1), m).value;
      var e := Exec(New(g, h), m);
      e.Some? && e.value.r6 == Neg32(ma.r6) && e.value.stack == m.stack
  {
    ExtendsTrans(g, g1, h);
    ExecConcat(New(g, g1), tail, m);
    ExecNegate(tail, Exec(New(g, g1), m).value);
  }

  lemma SubFromZero(x: int)
    ensures Apply(SUB, 0, x) == Neg32(x)
  {
    assert 0 - x == -x;
  }

  /** SUB R0, R6, R6 with R0 = 0 negates R6. */
  lemma StepNegate(m: Machine)
    requires m.r0 == 0
    ensures Step(m, Alu(SUB, R0, R6, R6)) == Some(Machine(0, m.r1, Neg32(m.r6), m.stack))
  {
    assert Get(m, R0) == Some(0);
    assert Get(m, R6) == Some(m.r6);
    assert Apply(SUB, 0, m.r6) == Neg32(m.r6) by {
      SubFromZero(m.r6);
    }
  }

  /** A one-instruction program is one step. */
  lemma ExecOne(i: Instr, m: Machine)
    ensures Exec([i], m) == Step(m, i)
  {
    assert [i][1..] == [];
  }

  /** A two-instruction program is two steps. */
  lemma ExecTwo(i: Instr, j: Instr, m: Machine)
    requires Step(m, i).Some?
    ensures Exec([i, j], m) == Step(Step(m, i).value, j)
  {
    assert [i, j][1..] == [j];
    ExecOne(j, Step(m, i).value);
  }

  /** MOVE %D 0, R0 clears R0 and nothing else. */
  lemma StepClear(m: Machine)
    ensures Step(m, MoveImm(0, R0)) == Some(Machine(0, m.r1, m.r6, m.stack))
  {
  }

  /** MOVE %D 0, R0 then SUB R0, R6, R6 negates R6. */
  lemma ExecNegate(code: seq<Instr>, m: Machine)
    requires code == [MoveImm(0, R0), Alu(SUB, R0, R6, R6)]
    ensures Exec(code, m) == Some(Machine(0, m.r1, Neg32(m.r6), m.stack))
  {
    StepClear(m);
    ExecTwo(MoveImm(0, R0), Alu(SUB, R0, R6, R6), m);
    StepNegate(Machine(0, m.r1, m.r6, m.stack));
  }

  /** A binary term's tree: the left operand at its own level, the operator
      token, the right operand one level down. */
  lemma BinaryShape(t: Term)
    requires Binary(t)
    ensures Home(t) in {BitOr, BitXor, BitAnd, Additive}
    ensures Build(t).children == [ToTree(Home(t), t.a), OpToken(t), ToTree(Below(Home(t)), t.b)]
  {
  }

  /** The walk reads a binary term's operator token back as the term's
      operation. */
  lemma BinaryToken(t: Term)
    requires Binary(t)
    ensures Operation(Home(t), OpToken(t).content) == Some(OpOf(t))
  {
    match t
    case Sum(_, _) =>
    case Diff(_, _) =>
      var c := Tok("MINUS", "-").content;
      assert c[..5] == "MINUS";
      assert c[0] == 'M';
      NotStarting(c, "PLUS", 0);
    case Conj(_, _) =>
    case Excl(_, _) =>
    case Disj(_, _) =>
  }

  /** A binary term means its operator applied to its operands' meanings. */
  lemma EvalBinary(t: Term)
    requires Binary(t)
    ensures Eval(t) == Apply(OpOf(t), Eval(t.a), Eval(t.b))
  {
    match t
    case Sum(x, y) =>
    case Diff(x, y) =>
    case Conj(x, y) =>
    case Excl(x, y) =>
    case Disj(x, y) =>
  }

  /** The code of a binary visit, as the generators it passed through
      record it, runs as ExecBinary says. */
  lemma BinaryExec(g: Gen, g1: Gen, g2: Gen, g3: Gen, h: Gen, o: AluOp, m: Machine)
    requires Extends(g, g1) && g2 == Emit(g1, true, [Push(R6)]) && Extends(g2, g3)
    requires h == Emit(g3, true, [Pop(R0), Alu(o, R0, R6, R6)])
    requires Exec(New(g, g1), m).Some? && Exec(New(g, g1), m).value.stack == m.stack
    requires var ma := Exec(New(g, g1), m).value;
      var e := Exec(New(g2, g3), ma.(stack := m.stack + [ma.r6]));
      e.Some? && e.value.stack == m.stack + [ma.r6]
    ensures var ma := Exec(New(g, g1), m).value;
      var mc := Exec(New(g2, g3), ma.(stack := m.stack + [ma.r6])).value;
      var e := Exec(New(g, h), m);
      e.Some? && e.value.r6 == Apply(o, ma.r6, mc.r6) && e.value.stack == m.stack
  {
    ExtendsTrans(g, g1, g2);
    ExtendsTrans(g, g2, g3);
    ExtendsTrans(g, g3, h);
    assert New(g, h) == New(g, g1) + [Push(R6)] + New(g2, g3) + [Pop(R0), Alu(o, R0, R6, R6)];
    ExecBinary(New(g, g1), New(g2, g3), o, m);
  }

  lemma {:induction false} BinaryRuns(t: Term, g: Gen, m: Machine)
    requires Binary(t) && Fits(t)
    ensures var r := Visit(Home(t), Build(t), true, g);
      r.Ok? && r.value.0.value == Some(Eval(t)) && r.value.1.labels == g.labels &&
      var e := Exec(New(g, r.value.1), m);
      e.Some? && e.value.r6 == Eval(t) && e.value.stack == m.stack
    decreases t, 0
  {
    var l := Home(t);
    var n := Build(t);
    var o := OpOf(t);
    BinaryShape(t);
    BinaryToken(t);
    EvalBinary(t);
    TermRuns(l, t.a, g, m);
    var g1 := Visit(l, n.children[0], true, g).value.1;
    var ma := Exec(New(g, g1), m).value;
    var g2 := Emit(g1, true, [Push(R6)]);
    TermRuns(Below(l), t.b, g2, ma.(stack := m.stack + [ma.r6]));
    var g3 := Visit(Below(l), n.children[2], true, g2).value.1;
    var h := Emit(g3, true, [Pop(R0), Alu(o, R0, R6, R6)]);
    assert Visit(l, n, true, g) == Ok((Attr(Some(Eval(t)), ""), h)) by {
      BinaryStep(l, n, g);
      assert Fold(Some(o), Some(Eval(t.a)), Some(Eval(t.b))) == Some(Eval(t));
    }
    BinaryExec(g, g1, g2, g3, h, o, m);
  }
}
