/** The type system of the semantic checker: base types, value, array and
    function types, the implicit-conversion relation, and the printed form
    of a type. A function type keeps its return type in `base` and its
    parameter types in `params`; a value or array type has no parameters. */
module CTypes {
  import opened Wrappers
  import opened Text
  import opened LrUtils

  datatype BasicType = INT | CHAR | VOID

  datatype TypeInfo = TypeInfo(base: BasicType, isConst: bool, isArray: bool, params: seq<TypeInfo>)

  /** The default-constructed type and the shared VOID constant. */
  const VOID_TYPE: TypeInfo := TypeInfo(VOID, false, false, [])

  /** The plain int and char value types, TypeInfo(INT) and TypeInfo(CHAR). */
  const INT_TYPE: TypeInfo := TypeInfo(INT, false, false, [])
  const CHAR_TYPE: TypeInfo := TypeInfo(CHAR, false, false, [])

  /** Character codes a char constant may take. */
  const MIN_CHAR: int := 0
  const MAX_CHAR: int := 255

  /** isValidNumConstant on an int: a value an int can hold. Every caller
      passes an int (a char is cast to int first), so inside the checker the
      test never fails. */
  predicate IsValidNumConstant(v: int) { InInt32(v) }

  /** The escape letters allowed after a backslash. */
  predicate IsValidEscapeSequence(c: char) {
    c == 't' || c == 'n' || c == '0' || c == '\'' || c == '"' || c == '\\'
  }

  /** A value or array type. */
  function ValueType(b: BasicType, isConst: bool, isArray: bool): (t: TypeInfo)
    ensures !IsFunc(t) && t.base == b && t.isConst == isConst && t.isArray == isArray
  {
    TypeInfo(b, isConst, isArray, [])
  }

  /** makeArrayType. */
  function ArrayType(b: BasicType, isConst: bool): (t: TypeInfo)
    ensures t.isArray && !IsFunc(t) && t.base == b && t.isConst == isConst
  {
    ValueType(b, isConst, true)
  }

  /** The function-type constructor: an empty parameter list becomes the
      single parameter VOID, so the result is always a function type. */
  function FunctionType(ret: BasicType, params: seq<TypeInfo>): (t: TypeInfo)
    ensures IsFunc(t) && t.base == ret && !t.isConst && !t.isArray
    ensures params != [] ==> t.params == params
    ensures params == [] ==> IsVoidParam(t)
  {
    TypeInfo(ret, false, false, if params == [] then [VOID_TYPE] else params)
  }

  predicate IsFunc(t: TypeInfo) { |t.params| > 0 }

  /** The parameter list is exactly [VOID]. */
  predicate IsVoidParam(t: TypeInfo) { |t.params| == 1 && t.params[0] == VOID_TYPE }

  predicate IsVoid(t: TypeInfo) { t.base == VOID && !IsFunc(t) }

  /** isNumericType as the source spells it: `&&` binds tighter than `||`,
      so every type whose base is CHAR counts, arrays and functions included. */
  predicate IsNumericAsWritten(t: TypeInfo) {
    (!IsFunc(t) && !t.isArray && t.base == INT) || t.base == CHAR
  }

  /** isNumericType as intended: a plain int or char value. */
  predicate IsNumeric(t: TypeInfo) {
    !IsFunc(t) && !t.isArray && (t.base == INT || t.base == CHAR)
  }

  /** The l-value test as the source spells it. */
  predicate LValueAsWritten(t: TypeInfo) { !t.isConst && IsNumericAsWritten(t) }

  /** The l-value test with the intended numeric check. */
  predicate LValue(t: TypeInfo) { !t.isConst && IsNumeric(t) }

  /** The two versions differ exactly on char arrays and char-returning
      functions. */
  lemma NumericAsWrittenDiffers(t: TypeInfo)
    ensures IsNumericAsWritten(t) != IsNumeric(t) <==> t.base == CHAR && (IsFunc(t) || t.isArray)
  {
  }

  /** A non-const char array is an l-value as written, so `a = b` between two
      char arrays passes the assignment check; as intended it is not. */
  lemma CharArrayIsLValueAsWritten()
    ensures LValueAsWritten(ArrayType(CHAR, false))
    ensures !LValue(ArrayType(CHAR, false))
    ensures Compatible(ArrayType(CHAR, false), ArrayType(CHAR, false))
  {
  }

  /** Only plain non-const int and char values are l-values. */
  lemma LValueShapes(t: TypeInfo)
    ensures LValue(t) <==> !t.isConst && !t.isArray && !IsFunc(t) && t.base != VOID
  {
  }

  /** areTypesCompatible: can a value of type `source` be used where `target`
      is expected without a cast. */
  predicate Compatible(source: TypeInfo, target: TypeInfo) {
    if source == target then true
    else if IsVoid(source) || IsVoid(target) || source.isArray != target.isArray ||
            IsFunc(source) || IsFunc(target) then false
    else if source.base == target.base then !source.isConst
    else source.base == CHAR && target.base == INT && !source.isArray && !source.isConst && !target.isConst
  }

  lemma CompatibleReflexive(t: TypeInfo)
    ensures Compatible(t, t)
  {
  }

  /** Void, a function on either side, or an array/non-array mismatch rules
      out conversion between different types. */
  lemma CompatibleRejectsShapes(s: TypeInfo, t: TypeInfo)
    requires s != t
    requires IsVoid(s) || IsVoid(t) || s.isArray != t.isArray || IsFunc(s) || IsFunc(t)
    ensures !Compatible(s, t)
  {
  }

  /** Between value types of one shape and base, only const-ness can
      differ, and conversion is allowed exactly from a non-const source. */
  lemma CompatibleSameBase(s: TypeInfo, t: TypeInfo)
    requires !IsFunc(s) && !IsFunc(t) && !IsVoid(s) && s.isArray == t.isArray
    requires s.base == t.base
    ensures Compatible(s, t) <==> s == t || !s.isConst
  {
  }

  /** Across different bases the only conversion is non-const char to
      non-const int, for plain values. */
  lemma CompatibleAcrossBases(s: TypeInfo, t: TypeInfo)
    requires s.base != t.base
    ensures Compatible(s, t) <==>
      s.base == CHAR && t.base == INT && !s.isArray && !t.isArray &&
      !s.isConst && !t.isConst && !IsFunc(s) && !IsFunc(t)
  {
  }

  /** A const source converts only to itself. */
  lemma ConstConvertsOnlyToItself(s: TypeInfo, t: TypeInfo)
    requires s.isConst && Compatible(s, t)
    ensures s == t
  {
  }

  /** Conversion never goes both ways between different types. */
  lemma CompatibleAntisymmetric(s: TypeInfo, t: TypeInfo)
    requires Compatible(s, t) && Compatible(t, s)
    ensures s == t
  {
  }

  /** The relation is not transitive: char converts to int and int to
      const int, but char does not convert to const int. */
  lemma CompatibleNotTransitive()
    ensures Compatible(ValueType(CHAR, false, false), ValueType(INT, false, false))
    ensures Compatible(ValueType(INT, false, false), ValueType(INT, true, false))
    ensures !Compatible(ValueType(CHAR, false, false), ValueType(INT, true, false))
  {
  }

  // ---------------------------------------------------------------------
  // Printed form

  function BaseName(b: BasicType): (s: string)
    ensures |s| >= 3
  {
    match b
    case INT => "int"
    case CHAR => "char"
    case VOID => "void"
  }

  /** typeToString. A value type prints its base, wrapped in const( ) when
      const and then in niz( ) when an array; a function type prints
      funkcija(void -> r) or funkcija([p_n,...,p_1] -> r), its parameters
      listed from last to first. */
  function TypeToString(t: TypeInfo): (s: string)
    decreases t
  {
    if IsFunc(t) then
      var names := seq(|t.params|, i requires 0 <= i < |t.params| => TypeToString(t.params[i]));
      "funkcija(" + (if IsVoidParam(t) then "void" else "[" + Join(Reverse(names), ",") + "]") +
      " -> " + BaseName(t.base) + ")"
    else
      var inner := if t.isConst then "const(" + BaseName(t.base) + ")" else BaseName(t.base);
      if t.isArray then "niz(" + inner + ")" else inner
  }

  function BaseFromName(s: string): Option<BasicType> {
    if s == "int" then Some(INT)
    else if s == "char" then Some(CHAR)
    else if s == "void" then Some(VOID)
    else None
  }

  /** Reads `s` as `inner` wrapped in `open` and a closing parenthesis. */
  function Unwrap(s: string, open: string): Option<string> {
    if StartsWith(s, open) && |s| > |open| && s[|s| - 1] == ')' then Some(s[|open|..|s| - 1])
    else None
  }

  function ConstOrBaseFromString(s: string): Option<TypeInfo> {
    match Unwrap(s, "const(")
    case Some(inner) =>
      var b :- BaseFromName(inner);
      Some(ValueType(b, true, false))
    case None =>
      var b :- BaseFromName(s);
      Some(ValueType(b, false, false))
  }

  /** Reads back the printed form of a value or array type. */
  function ValueTypeFromString(s: string): Option<TypeInfo> {
    match Unwrap(s, "niz(")
    case Some(inner) =>
      var t :- ConstOrBaseFromString(inner);
      Some(t.(isArray := true))
    case None => ConstOrBaseFromString(s)
  }

  lemma BaseNameRoundTrip(b: BasicType)
    ensures BaseFromName(BaseName(b)) == Some(b)
    ensures Unwrap(BaseName(b), "const(") == None && Unwrap(BaseName(b), "niz(") == None
  {
    assert BaseName(b)[0] != 'c' || BaseName(b)[1] != 'o';
  }

  /** A base name, wrapped in const( ) or not, reads back as the value type. */
  lemma InnerRoundTrip(b: BasicType, isConst: bool)
    ensures var inner := if isConst then "const(" + BaseName(b) + ")" else BaseName(b);
      ConstOrBaseFromString(inner) == Some(ValueType(b, isConst, false)) && Unwrap(inner, "niz(") == None
  {
    BaseNameRoundTrip(b);
    if isConst {
      var inner := "const(" + BaseName(b) + ")";
      assert inner[|"const("|..|inner| - 1] == BaseName(b);
      assert inner[0] == 'c';
    }
  }

  /** The printed form of a value or array type determines the type: reading
      it back gives the type itself, so const always sits inside niz. */
  lemma {:induction false} ValueTypeStringRoundTrip(t: TypeInfo)
    requires !IsFunc(t)
    ensures ValueTypeFromString(TypeToString(t)) == Some(t)
  {
    InnerRoundTrip(t.base, t.isConst);
    if t.isArray {
      var inner := if t.isConst then "const(" + BaseName(t.base) + ")" else BaseName(t.base);
      var s := "niz(" + inner + ")";
      assert s[|"niz("|..|s| - 1] == inner;
    }
  }

  /** A function without parameters prints its parameter list as void. */
  lemma VoidFunctionString(ret: BasicType)
    ensures TypeToString(FunctionType(ret, [])) == "funkcija(void -> " + BaseName(ret) + ")"
  {
  }

  /** A two-parameter function lists its parameters last first. */
  lemma PairFunctionString(ret: BasicType, p: TypeInfo, q: TypeInfo)
    ensures TypeToString(FunctionType(ret, [p, q]))
      == "funkcija(" + ("[" + TypeToString(q) + "," + TypeToString(p) + "]") + " -> " + BaseName(ret) + ")"
  {
    var f := FunctionType(ret, [p, q]);
    var names := seq(|f.params|, i requires 0 <= i < |f.params| => TypeToString(f.params[i]));
    assert names == [TypeToString(p), TypeToString(q)];
    var rev := Reverse(names);
    assert rev == [TypeToString(q), TypeToString(p)];
    assert rev[1..] == [TypeToString(p)];
    assert Join(rev[1..], ",") == TypeToString(p);
    var j := Join(rev, ",");
    assert j == TypeToString(q) + "," + TypeToString(p);
    assert "[" + j + "]" == "[" + TypeToString(q) + "," + TypeToString(p) + "]";
    assert !IsVoidParam(f);
    assert TypeToString(f) == "funkcija(" + ("[" + j + "]") + " -> " + BaseName(ret) + ")";
  }
}
