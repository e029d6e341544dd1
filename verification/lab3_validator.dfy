/** The checks the semantic analyser applies to the lexical units of
    constants: decimal numbers, character constants and string literals. */
module Validator {
  import opened Wrappers
  import opened Text
  import opened CTypes

  /** validateNumConstant: the unit is read with stoi. No leading number
      (invalid_argument) or a number outside the int range (out_of_range)
      throws, the exception is caught and the constant is rejected; otherwise
      the constant is an int. */
  function ValidateNumConstant(unit: string): (r: Option<TypeInfo>)
    ensures r.Some? ==> r.value == INT_TYPE
  {
    match LeadingInteger(unit)
    case None => None
    case Some(v) =>
      if !InInt32(v) then None
      else if !IsValidNumConstant(v) then None
      else Some(INT_TYPE)
  }

  /** A decimal constant is accepted exactly when its value fits an int:
      2147483647 and -2147483648 pass, 2147483648 does not. */
  lemma NumConstantOfDecimal(i: int)
    ensures ValidateNumConstant(IntToDecimal(i)).Some? <==> InInt32(i)
  {
    LeadingIntegerOfDecimal(i);
  }

  /** A unit with no digit at all is rejected. */
  lemma NumConstantNeedsDigit(unit: string)
    requires forall k :: 0 <= k < |unit| ==> !IsDigit(unit[k])
    ensures ValidateNumConstant(unit) == None
  {
    var t := TrimLeft(unit);
    var body := if |t| > 0 && (t[0] == '-' || t[0] == '+') then t[1..] else t;
    if |body| > 0 {
      assert body[0] in unit by {
        assert body[0] == t[|t| - |body|];
        assert t[|t| - |body|] == unit[|unit| - |t| + |t| - |body|];
      }
    }
  }

  /** The text between the quotes, substr(1, length - 2): an empty unit makes
      substr throw (None); a one-character unit leaves nothing. */
  function QuotedBody(unit: string): Option<string> {
    if |unit| == 0 then None
    else if |unit| == 1 then Some("")
    else Some(unit[1..|unit| - 1])
  }

  /** validateCharConstant as the source spells it. The else belongs to the
      inner if, so a two-character body that starts with a backslash is
      rejected whether or not its escape letter is valid. */
  function ValidateCharConstantAsWritten(unit: string): (r: Option<TypeInfo>)
    ensures r.Some? ==> r.value == CHAR_TYPE
  {
    var body :- QuotedBody(unit);
    if |body| == 1 then
      if !IsValidNumConstant(body[0] as int) then None else Some(CHAR_TYPE)
    else if |body| == 2 && body[0] == '\\' then
      if !IsValidEscapeSequence(body[1]) then None else None
    else Some(CHAR_TYPE)
  }

  /** validateCharConstant as intended: a two-character body that starts
      with a backslash is accepted when its escape letter is valid. */
  function ValidateCharConstant(unit: string): (r: Option<TypeInfo>)
    ensures r.Some? ==> r.value == CHAR_TYPE
  {
    var body :- QuotedBody(unit);
    if |body| == 1 then
      if !IsValidNumConstant(body[0] as int) then None else Some(CHAR_TYPE)
    else if |body| == 2 && body[0] == '\\' then
      if !IsValidEscapeSequence(body[1]) then None else Some(CHAR_TYPE)
    else Some(CHAR_TYPE)
  }

  /** Every quoted single character is a char constant. */
  lemma CharConstantPlain(q: char, c: char, q2: char)
    ensures ValidateCharConstant([q, c, q2]) == Some(CHAR_TYPE)
    ensures ValidateCharConstantAsWritten([q, c, q2]) == Some(CHAR_TYPE)
  {
    assert [q, c, q2][1..2] == [c];
  }

  /** As intended, a quoted escape is accepted exactly when its letter is one
      of t, n, 0, ', " and backslash. */
  lemma CharConstantEscape(q: char, e: char, q2: char)
    ensures ValidateCharConstant([q, '\\', e, q2]).Some? <==> IsValidEscapeSequence(e)
  {
    assert [q, '\\', e, q2][1..3] == ['\\', e];
  }

  /** As written, every quoted escape is rejected, '\n' included. */
  lemma CharConstantEscapeAsWritten(q: char, e: char, q2: char)
    ensures ValidateCharConstantAsWritten([q, '\\', e, q2]) == None
    ensures IsValidEscapeSequence(e) ==> ValidateCharConstant([q, '\\', e, q2]).Some?
  {
    assert [q, '\\', e, q2][1..3] == ['\\', e];
  }

  /** The two versions agree on every unit that is not a quoted escape. */
  lemma CharConstantVersionsAgree(unit: string)
    requires !(|unit| == 4 && unit[1] == '\\')
    ensures ValidateCharConstantAsWritten(unit) == ValidateCharConstant(unit)
  {
  }

  /** The spellings validateNizZnakova accepts: every backslash starts a
      two-character escape whose letter is valid; any other character stands
      for itself (its code always passes isValidNumConstant). The quotes are
      part of the unit and are scanned like any other character. */
  predicate WellEscaped(s: string)
    decreases |s|
  {
    if |s| == 0 then true
    else if s[0] == '\\' then |s| >= 2 && IsValidEscapeSequence(s[1]) && WellEscaped(s[2..])
    else IsValidNumConstant(s[0] as int) && WellEscaped(s[1..])
  }

  /** validateNizZnakova: one left-to-right scan that steps over the letter
      after each backslash. On success the literal is a const char array. */
  method ValidateNizZnakova(unit: string) returns (r: Option<TypeInfo>)
    ensures r.Some? <==> WellEscaped(unit)
    ensures r.Some? ==> r.value == ArrayType(CHAR, true)
  {
    var i := 0;
    while i < |unit|
      invariant 0 <= i <= |unit|
      invariant WellEscaped(unit) == WellEscaped(unit[i..])
    {
      var rest := unit[i..];
      if unit[i] == '\\' {
        if i + 1 >= |unit| {
          return None;
        }
        if !IsValidEscapeSequence(unit[i + 1]) {
          return None;
        }
        assert rest[2..] == unit[i + 2..];
        i := i + 1;
      } else {
        if !IsValidNumConstant(unit[i] as int) {
          return None;
        }
        assert rest[1..] == unit[i + 1..];
      }
      i := i + 1;
    }
    return Some(ArrayType(CHAR, true));
  }

  /** A well-escaped prefix does not change whether the rest is accepted. */
  lemma {:induction false} WellEscapedConcat(a: string, b: string)
    requires WellEscaped(a)
    ensures WellEscaped(a + b) <==> WellEscaped(b)
    decreases |a|
  {
    if |a| > 0 {
      if a[0] == '\\' {
        assert (a + b)[2..] == a[2..] + b;
        WellEscapedConcat(a[2..], b);
      } else {
        assert (a + b)[1..] == a[1..] + b;
        WellEscapedConcat(a[1..], b);
      }
    } else {
      assert a + b == b;
    }
  }

  /** A lone backslash at the end is rejected. */
  lemma TrailingBackslash(a: string)
    requires WellEscaped(a)
    ensures !WellEscaped(a + ['\\'])
  {
    WellEscapedConcat(a, ['\\']);
  }

  /** Text with no backslash is always accepted. */
  lemma {:induction false} NoBackslashAccepted(s: string)
    requires '\\' !in s
    ensures WellEscaped(s)
    decreases |s|
  {
    if |s| > 0 {
      assert s[0] != '\\';
      assert forall k :: 0 <= k < |s| - 1 ==> s[1..][k] == s[k + 1];
      NoBackslashAccepted(s[1..]);
    }
  }

  /** A backslash followed by a letter is accepted exactly for the valid
      escape letters. */
  lemma EscapePair(e: char, rest: string)
    requires WellEscaped(rest)
    ensures WellEscaped(['\\', e] + rest) <==> IsValidEscapeSequence(e)
  {
    assert (['\\', e] + rest)[2..] == rest;
  }
}
