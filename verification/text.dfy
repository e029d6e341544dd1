/** Character and decimal-number helpers shared by the modules that read
    or print numbers: the C library's stoi/stoll, C++'s to_string, and
    Python's int() and str.strip(). */
module Text {
  import opened Wrappers

  predicate IsDigit(c: char) { '0' <= c <= '9' }

  predicate AllDigits(s: string) { forall i :: 0 <= i < |s| ==> IsDigit(s[i]) }

  function DigitValue(c: char): nat
    requires IsDigit(c)
  {
    (c as int) - ('0' as int)
  }

  function DigitChar(d: nat): (c: char)
    requires d < 10
    ensures IsDigit(c) && DigitValue(c) == d
  {
    (('0' as int) + d) as char
  }

  /** The value of a string of decimal digits, folded left to right:
      each step multiplies the value so far by ten and adds the next digit. */
  function DecimalValue(s: string): nat
    requires AllDigits(s)
  {
    if |s| == 0 then 0 else DecimalValue(s[..|s| - 1]) * 10 + DigitValue(s[|s| - 1])
  }

  /** Shortest decimal spelling of a natural number (what to_string and
      Python's str print for a non-negative value). */
  function NatToDecimal(n: nat): (s: string)
    ensures |s| >= 1 && AllDigits(s)
    ensures |s| > 1 ==> s[0] != '0'
  {
    if n < 10 then [DigitChar(n)] else NatToDecimal(n / 10) + [DigitChar(n % 10)]
  }

  /** Decimal spelling of any integer, with a leading '-' when negative. */
  function IntToDecimal(i: int): (s: string)
    ensures |s| >= 1
    ensures i < 0 <==> s[0] == '-'
  {
    if i < 0 then "-" + NatToDecimal(-i) else NatToDecimal(i)
  }

  lemma {:induction false} DecimalRoundTrip(n: nat)
    ensures DecimalValue(NatToDecimal(n)) == n
    decreases n
  {
    var s := NatToDecimal(n);
    if n >= 10 {
      DecimalRoundTrip(n / 10);
      assert s[..|s| - 1] == NatToDecimal(n / 10);
    }
  }

  lemma DecimalValueBound(s: string)
    requires AllDigits(s)
    ensures DecimalValue(s) < Pow10(|s|)
  {
    if |s| > 0 {
      DecimalValueBound(s[..|s| - 1]);
    }
  }

  function Pow10(k: nat): (r: nat)
    ensures r >= 1
  {
    if k == 0 then 1 else 10 * Pow10(k - 1)
  }

  /** The range of a C++ int. */
  const INT_MIN: int := -0x8000_0000
  const INT_MAX: int := 0x7fff_ffff
  const TWO_TO_32: int := 0x1_0000_0000

  predicate InInt32(x: int) { INT_MIN <= x <= INT_MAX }

  /** The value a 32-bit two's-complement int holds after an arithmetic
      result x is stored into it (wrap-around modulo 2^32). */
  function Wrap32(x: int): (r: int)
    ensures InInt32(r)
    ensures (x - r) % TWO_TO_32 == 0
    ensures InInt32(x) ==> r == x
  {
    var m := (x - INT_MIN) % TWO_TO_32;
    m + INT_MIN
  }

  /** The whitespace set of C's isspace and of Python's str.strip on ASCII text. */
  predicate IsSpace(c: char) {
    c == ' ' || c == '\t' || c == '\n' || c == '\r' || c == '\U{B}' || c == '\U{C}'
  }

  function TrimLeft(s: string): (r: string)
    ensures |r| <= |s| && r == s[|s| - |r|..]
    ensures |r| > 0 ==> !IsSpace(r[0])
    ensures forall i :: 0 <= i < |s| - |r| ==> IsSpace(s[i])
  {
    if |s| > 0 && IsSpace(s[0]) then TrimLeft(s[1..]) else s
  }

  function TrimRight(s: string): (r: string)
    ensures |r| <= |s| && r == s[..|r|]
    ensures |r| > 0 ==> !IsSpace(r[|r| - 1])
    ensures forall i :: |r| <= i < |s| ==> IsSpace(s[i])
  {
    if |s| > 0 && IsSpace(s[|s| - 1]) then TrimRight(s[..|s| - 1]) else s
  }

  /** Python's str.strip() with no argument, on ASCII whitespace. */
  function Strip(s: string): (r: string)
    ensures |r| > 0 ==> !IsSpace(r[0]) && !IsSpace(r[|r| - 1])
  {
    TrimRight(TrimLeft(s))
  }

  /** Length of the longest prefix of s made of decimal digits. */
  function DigitRun(s: string): (n: nat)
    ensures n <= |s| && AllDigits(s[..n])
    ensures n < |s| ==> !IsDigit(s[n])
  {
    if |s| > 0 && IsDigit(s[0]) then
      var k := DigitRun(s[1..]);
      assert s[..1 + k] == [s[0]] + s[1..][..k];
      1 + k
    else 0
  }

  /** The leading integer of a string the way std::stol family reads it:
      leading whitespace is skipped, one optional sign is read, then the
      longest run of digits; anything after the digits is ignored. None when
      there is no digit after the optional sign (std::invalid_argument).
      Range checks belong to the caller (std::out_of_range). */
  function LeadingInteger(s: string): (r: Option<int>)
  {
    var t := TrimLeft(s);
    var neg := |t| > 0 && t[0] == '-';
    var body := if |t| > 0 && (t[0] == '-' || t[0] == '+') then t[1..] else t;
    var n := DigitRun(body);
    if n == 0 then None
    else
      var v: int := DecimalValue(body[..n]);
      Some(if neg then -v else v)
  }

  /** stoi reads back the decimal spelling of any integer. */
  lemma LeadingIntegerOfDecimal(i: int)
    ensures LeadingInteger(IntToDecimal(i)) == Some(i)
  {
    var s := IntToDecimal(i);
    var t := TrimLeft(s);
    assert !IsSpace(s[0]);
    assert t == s;
    var body := if i < 0 then s[1..] else s;
    var m: nat := if i < 0 then -i else i;
    assert body == NatToDecimal(m);
    var n := DigitRun(body);
    assert n == |body|;
    assert body[..n] == body;
    DecimalRoundTrip(m);
  }

  /** std::stoi: the leading integer, which must also fit an int
      (std::out_of_range otherwise). None when it throws. */
  function Stoi(s: string): (r: Option<int>)
    ensures r.Some? ==> InInt32(r.value) && LeadingInteger(s) == r
  {
    match LeadingInteger(s)
    case None => None
    case Some(v) => if InInt32(v) then Some(v) else None
  }

  /** Python's int(text) for base-10 text that is already stripped: an optional
      sign followed by one or more digits and nothing else. */
  function PythonInt(text: string): (r: Option<int>)
    ensures r.Some? ==> |text| > 0
  {
    var neg := |text| > 0 && text[0] == '-';
    var body := if |text| > 0 && (text[0] == '-' || text[0] == '+') then text[1..] else text;
    if |body| == 0 || !AllDigits(body) then None
    else
      var v: int := DecimalValue(body);
      Some(if neg then -v else v)
  }

  lemma {:induction false} PythonIntOfDecimal(i: int)
    ensures PythonInt(IntToDecimal(i)) == Some(i)
  {
    var s := IntToDecimal(i);
    if i < 0 {
      DecimalRoundTrip(-i);
      assert s[1..] == NatToDecimal(-i);
    } else {
      DecimalRoundTrip(i);
    }
  }

  /** True when `prefix` occurs at position 0 of s: the C++ idiom
      `s.find(prefix) == 0`. */
  predicate StartsWith(s: string, prefix: string) {
    |prefix| <= |s| && s[..|prefix|] == prefix
  }

  /** Index of the first occurrence of c in s, or |s| when there is none
      (the model's spelling of std::string::npos). */
  function FindChar(s: string, c: char): (i: nat)
    ensures i <= |s|
    ensures i < |s| ==> s[i] == c
    ensures forall j :: 0 <= j < i ==> s[j] != c
  {
    if |s| == 0 then 0 else if s[0] == c then 0 else 1 + FindChar(s[1..], c)
  }

  /** The first c of s is at i when s[i] is c and no c comes before it. */
  lemma FindCharAt(s: string, c: char, i: nat)
    requires i < |s| && s[i] == c && c !in s[..i]
    ensures FindChar(s, c) == i
  {
    assert forall m :: 0 <= m < i ==> s[..i][m] == s[m];
  }

  /** True when `sub` occurs anywhere in s: `s.find(sub) != npos`. */
  predicate Contains(s: string, sub: string)
    decreases |s|
  {
    StartsWith(s, sub) || (|s| > 0 && Contains(s[1..], sub))
  }

  /** Length of the longest prefix of s holding no whitespace. */
  function WordRun(s: string): (n: nat)
    ensures n <= |s|
    ensures forall j :: 0 <= j < n ==> !IsSpace(s[j])
    ensures n < |s| ==> IsSpace(s[n])
  {
    if |s| > 0 && !IsSpace(s[0]) then 1 + WordRun(s[1..]) else 0
  }

  predicate NoSpace(w: string) { forall j :: 0 <= j < |w| ==> !IsSpace(w[j]) }

  /** The whitespace-separated fields of s, the words that repeated
      `stream >> word` extracts. */
  function Fields(s: string): (ws: seq<string>)
    ensures forall k :: 0 <= k < |ws| ==> |ws[k]| > 0 && NoSpace(ws[k])
    decreases |s|
  {
    var t := TrimLeft(s);
    if |t| == 0 then []
    else
      var n := WordRun(t);
      assert n > 0;
      var w := t[..n];
      assert |w| > 0 && NoSpace(w);
      var rest := Fields(t[n..]);
      ConsWords(w, rest);
      [w] + rest
  }

  lemma ConsWords(w: string, ws: seq<string>)
    requires |w| > 0 && NoSpace(w)
    requires forall k :: 0 <= k < |ws| ==> |ws[k]| > 0 && NoSpace(ws[k])
    ensures forall k :: 0 <= k < |[w] + ws| ==> |([w] + ws)[k]| > 0 && NoSpace(([w] + ws)[k])
  {
    forall k | 0 <= k < |[w] + ws|
      ensures |([w] + ws)[k]| > 0 && NoSpace(([w] + ws)[k])
    {
      if k > 0 {
        assert ([w] + ws)[k] == ws[k - 1];
      }
    }
  }

  /** Field k of s, or "" when s has fewer fields (a failed extraction
      leaves the target string empty). */
  function Field(s: string, k: nat): (w: string)
    ensures NoSpace(w)
  {
    var ws := Fields(s);
    if k < |ws| then ws[k] else ""
  }

  lemma {:induction false} WordRunOf(w: string, rest: string)
    requires NoSpace(w) && (rest == "" || IsSpace(rest[0]))
    ensures WordRun(w + rest) == |w|
    decreases |w|
  {
    if |w| > 0 {
      assert (w + rest)[1..] == w[1..] + rest;
      WordRunOf(w[1..], rest);
    } else {
      assert w + rest == rest;
    }
  }

  /** A field followed by whitespace (or nothing) is the first field. */
  lemma FieldsCons(w: string, rest: string)
    requires |w| > 0 && NoSpace(w) && (rest == "" || IsSpace(rest[0]))
    ensures Fields(w + rest) == [w] + Fields(rest)
  {
    var t := w + rest;
    assert TrimLeft(t) == t;
    WordRunOf(w, rest);
    assert t[..|w|] == w && t[|w|..] == rest;
  }

  /** Leading whitespace does not change the fields. */
  lemma FieldsSkipSpace(c: char, s: string)
    requires IsSpace(c)
    ensures Fields([c] + s) == Fields(s)
  {
    assert ([c] + s)[1..] == s;
    assert TrimLeft([c] + s) == TrimLeft(s);
  }

  /** A word, one space and the rest: the word is the first field. */
  lemma FieldsSpaced(w: string, rest: string)
    requires |w| > 0 && NoSpace(w)
    ensures Fields(w + " " + rest) == [w] + Fields(rest)
  {
    assert w + " " + rest == w + ([' '] + rest);
    FieldsCons(w, [' '] + rest);
    FieldsSkipSpace(' ', rest);
  }

  lemma NoSpaceConcat(a: string, b: string)
    ensures NoSpace(a + b) <==> NoSpace(a) && NoSpace(b)
  {
    assert forall j :: 0 <= j < |a| ==> (a + b)[j] == a[j];
    assert forall j :: 0 <= j < |b| ==> (a + b)[|a| + j] == b[j];
  }

  lemma Assoc<T>(x: seq<T>, y: seq<T>, z: seq<T>)
    ensures x + y + z == x + (y + z)
  {
  }

  lemma FieldsOne(c: string)
    requires |c| > 0 && NoSpace(c)
    ensures Fields(c) == [c]
  {
    var none := c[|c|..];
    FieldsCons(c, none);
    assert c + none == c;
    assert TrimLeft(none) == none;
  }

  lemma FieldsTwo(b: string, c: string)
    requires |b| > 0 && |c| > 0 && NoSpace(b) && NoSpace(c)
    ensures Fields(b + " " + c) == [b, c]
  {
    FieldsSpaced(b, c);
    FieldsOne(c);
  }

  /** Three space-free words joined by single spaces are its three fields. */
  lemma FieldsThree(a: string, b: string, c: string)
    requires |a| > 0 && |b| > 0 && |c| > 0 && NoSpace(a) && NoSpace(b) && NoSpace(c)
    ensures Fields(a + " " + b + " " + c) == [a, b, c]
  {
    var sp: string := " ";
    var bc := b + sp + c;
    Assoc(a + sp + b, sp, c);
    Assoc(a + sp, b, sp + c);
    Assoc(b, sp, c);
    FieldsSpaced(a, bc);
    FieldsTwo(b, c);
  }

  // ---------------------------------------------------------------------
  // Ordering

  /** std::string's operator<: character by character, a proper prefix first. */
  predicate StrLess(a: string, b: string)
    decreases |a|
  {
    |b| > 0 && (|a| == 0 || a[0] < b[0] || (a[0] == b[0] && StrLess(a[1..], b[1..])))
  }

  lemma {:induction false} StrLessIrreflexive(a: string)
    ensures !StrLess(a, a)
    decreases |a|
  {
    if |a| > 0 {
      StrLessIrreflexive(a[1..]);
    }
  }

  lemma {:induction false} StrLessTotal(a: string, b: string)
    ensures a == b || StrLess(a, b) || StrLess(b, a)
    decreases |a|
  {
    if |a| > 0 && |b| > 0 && a[0] == b[0] {
      StrLessTotal(a[1..], b[1..]);
      if a[1..] == b[1..] {
        assert a == [a[0]] + a[1..] && b == [b[0]] + b[1..];
      }
    }
  }

  lemma {:induction false} StrLessTransitive(a: string, b: string, c: string)
    requires StrLess(a, b) && StrLess(b, c)
    ensures StrLess(a, c)
    decreases |a|
  {
    if |a| > 0 && a[0] == b[0] && b[0] == c[0] {
      StrLessTransitive(a[1..], b[1..], c[1..]);
    }
  }

  /** k comes first among the names in s. */
  predicate Least(s: set<string>, k: string) {
    k in s && forall x :: x in s ==> !StrLess(x, k)
  }

  lemma {:induction false} LeastExists(s: set<string>)
    requires s != {}
    ensures exists k :: Least(s, k)
    decreases |s|
  {
    var x :| x in s;
    if s == {x} {
      StrLessIrreflexive(x);
      assert Least(s, x);
    } else {
      var rest := s - {x};
      LeastExists(rest);
      var k :| Least(rest, k);
      if StrLess(x, k) {
        forall y | y in s
          ensures !StrLess(y, x)
        {
          if y == x {
            StrLessIrreflexive(x);
          } else if StrLess(y, x) {
            StrLessTransitive(y, x, k);
          }
        }
        assert Least(s, x);
      } else {
        assert Least(s, k);
      }
    }
  }

  lemma LeastUnique(s: set<string>)
    ensures forall a, b :: Least(s, a) && Least(s, b) ==> a == b
  {
    forall a, b | Least(s, a) && Least(s, b)
      ensures a == b
    {
      StrLessTotal(a, b);
    }
  }

  /** The strings of s in ascending order, each once: how a std::set of
      strings is iterated. */
  function SortedStrings(s: set<string>): (r: seq<string>)
    ensures |r| == |s|
    ensures forall i :: 0 <= i < |r| ==> r[i] in s
    ensures forall x :: x in s ==> x in r
    ensures forall i, j :: 0 <= i < j < |r| ==> StrLess(r[i], r[j])
    decreases |s|
  {
    if s == {} then []
    else
      LeastExists(s);
      LeastUnique(s);
      var k :| Least(s, k);
      var rest := SortedStrings(s - {k});
      SortedCons(s, k, rest);
      [k] + rest
  }

  /** Putting the least element in front of the sorted rest keeps every
      property SortedStrings promises. */
  lemma SortedCons(s: set<string>, k: string, rest: seq<string>)
    requires Least(s, k)
    requires |rest| == |s - {k}|
    requires forall i :: 0 <= i < |rest| ==> rest[i] in s - {k}
    requires forall x :: x in s - {k} ==> x in rest
    requires forall i, j :: 0 <= i < j < |rest| ==> StrLess(rest[i], rest[j])
    ensures |[k] + rest| == |s|
    ensures forall i :: 0 <= i < |[k] + rest| ==> ([k] + rest)[i] in s
    ensures forall x :: x in s ==> x in [k] + rest
    ensures forall i, j :: 0 <= i < j < |[k] + rest| ==> StrLess(([k] + rest)[i], ([k] + rest)[j])
  {
    forall i | 0 <= i < |rest| ensures StrLess(k, rest[i]) {
      StrLessTotal(k, rest[i]);
    }
  }
}
