/**
 * PHP values and the handful of PHP library behaviours the template engine
 * relies on: ASCII case folding (strtolower), trim, the identifier and digit
 * patterns it tests with preg_match, is_numeric, empty() and truthiness.
 *
 * PCRE note: without the D modifier, `$` matches at the very end of the
 * subject or just before one final "\n". Every anchored pattern below is
 * therefore stated as "the body matches, possibly followed by one newline".
 */
module Php {

  datatype Option<+T> = None | Some(value: T)

  /** The result of a PHP call that either returns or throws a TypeError
      (all files of the engine are declared with strict_types=1). */
  datatype Outcome<+T> = Ok(value: T) | TypeError

  /** A PHP array key: integer keys and string keys are distinct. */
  datatype Key = IntKey(i: int) | StrKey(s: string)

  /** The PHP values the engine stores. Arrays are ordered lists of entries. */
  datatype Value =
    | Null
    | Bool(b: bool)
    | Int(i: int)
    | Str(s: string)
    | Arr(entries: seq<(Key, Value)>)

  // ---------------------------------------------------------------------
  // Characters

  predicate IsUpper(c: char) { 'A' <= c <= 'Z' }
  predicate IsLower(c: char) { 'a' <= c <= 'z' }
  predicate IsDigit(c: char) { '0' <= c <= '9' }
  predicate IsAlpha(c: char) { IsUpper(c) || IsLower(c) }
  predicate IsWordChar(c: char) { IsAlpha(c) || IsDigit(c) || c == '_' }

  /** strtolower on one byte: only A-Z change (PHP 8 is locale-independent). */
  function LowerChar(c: char): (r: char)
    ensures !IsUpper(r)
    ensures IsUpper(c) <==> r != c
    ensures IsAlpha(c) <==> IsAlpha(r)
    ensures IsDigit(c) <==> IsDigit(r)
  {
    if IsUpper(c) then (c as int - 'A' as int + 'a' as int) as char else c
  }

  function ToLower(s: string): (r: string)
    ensures |r| == |s|
    ensures forall i :: 0 <= i < |s| ==> r[i] == LowerChar(s[i])
  {
    if s == [] then [] else [LowerChar(s[0])] + ToLower(s[1..])
  }

  lemma {:induction false} ToLowerIdempotent(s: string)
    ensures ToLower(ToLower(s)) == ToLower(s)
  {
    if s != [] {
      ToLowerIdempotent(s[1..]);
    }
  }

  lemma ToLowerConcat(a: string, b: string)
    ensures ToLower(a + b) == ToLower(a) + ToLower(b)
  {
  }

  /** The characters PHP's trim() removes by default: " \t\n\r\0\x0B". */
  predicate IsTrimChar(c: char)
  {
    c == ' ' || c == '\t' || c == '\n' || c == '\r' || c == 0 as char || c == 11 as char
  }

  function TrimLeft(s: string): (r: string)
    ensures |r| <= |s| && r == s[|s| - |r|..]
    ensures r != [] ==> !IsTrimChar(r[0])
  {
    if s != [] && IsTrimChar(s[0]) then TrimLeft(s[1..]) else s
  }

  function TrimRight(s: string): (r: string)
    ensures |r| <= |s| && r == s[..|r|]
    ensures r != [] ==> !IsTrimChar(r[|r| - 1])
  {
    if s != [] && IsTrimChar(s[|s| - 1]) then TrimRight(s[..|s| - 1]) else s
  }

  /** trim($s): a contiguous slice of s without trim characters at either end. */
  function Trim(s: string): (r: string)
    ensures |r| <= |s|
    ensures r != [] ==> !IsTrimChar(r[0]) && !IsTrimChar(r[|r| - 1])
  {
    TrimRight(TrimLeft(s))
  }

  // ---------------------------------------------------------------------
  // Patterns tested with preg_match

  /** `[A-Za-z_]+[A-Za-z0-9_]*` over the whole string. */
  predicate IdentBody(s: string)
  {
    |s| >= 1 && (IsAlpha(s[0]) || s[0] == '_') && forall i :: 1 <= i < |s| ==> IsWordChar(s[i])
  }

  /** preg_match('/^[A-Za-z_]+[A-Za-z0-9_]*$/', s): a trailing "\n" is let through. */
  predicate MatchesIdent(s: string)
  {
    IdentBody(s) || (|s| >= 2 && s[|s| - 1] == '\n' && IdentBody(s[..|s| - 1]))
  }

  /** `[0-9]+` over the whole string. */
  predicate DigitsBody(s: string)
  {
    |s| >= 1 && forall i :: 0 <= i < |s| ==> IsDigit(s[i])
  }

  /** preg_match('/^[0-9]+$/', s). */
  predicate MatchesDigits(s: string)
  {
    DigitsBody(s) || (|s| >= 2 && s[|s| - 1] == '\n' && DigitsBody(s[..|s| - 1]))
  }

  /** `[a-z0-9]+` over the whole string. */
  predicate LowerAlnumBody(s: string)
  {
    |s| >= 1 && forall i :: 0 <= i < |s| ==> IsLower(s[i]) || IsDigit(s[i])
  }

  /** preg_match('/^[a-z0-9]+$/', s). */
  predicate MatchesLowerAlnum(s: string)
  {
    LowerAlnumBody(s) || (|s| >= 2 && s[|s| - 1] == '\n' && LowerAlnumBody(s[..|s| - 1]))
  }

  /** An identifier never contains a trim character, so trim leaves it alone. */
  lemma TrimIdent(s: string)
    requires IdentBody(s)
    ensures Trim(s) == s
  {
  }

  /** The newline that `$` lets through is exactly what trim removes. */
  lemma TrimIdentNewline(s: string)
    requires MatchesIdent(s)
    ensures IdentBody(Trim(s))
    ensures Trim(s) == if IdentBody(s) then s else s[..|s| - 1]
  {
    assert !IsTrimChar(s[0]);
    assert TrimLeft(s) == s;
    if IdentBody(s) {
      assert !IsTrimChar(s[|s| - 1]);
      assert TrimRight(s) == s;
    } else {
      var b := s[..|s| - 1];
      assert IsTrimChar(s[|s| - 1]);
      assert TrimRight(s) == TrimRight(b);
      assert !IsTrimChar(b[|b| - 1]);
      assert TrimRight(b) == b;
    }
  }

  /** Lower-casing keeps an identifier an identifier. */
  lemma LowerIdent(s: string)
    ensures MatchesIdent(ToLower(s)) <==> MatchesIdent(s)
  {
    var t := ToLower(s);
    if |s| >= 1 {
      assert t[..|t| - 1] == ToLower(s[..|s| - 1]);
      assert IdentBody(ToLower(s[..|s| - 1])) <==> IdentBody(s[..|s| - 1]);
    }
  }

  // ---------------------------------------------------------------------
  // empty() and truthiness

  /** empty($s) for a string that may be unset/null. */
  predicate EmptyStr(s: Option<string>)
  {
    s == None || s == Some("") || s == Some("0")
  }

  /** PHP's conversion of a value to bool. */
  predicate Truthy(v: Value)
  {
    match v
    case Null => false
    case Bool(b) => b
    case Int(i) => i != 0
    case Str(s) => s != "" && s != "0"
    case Arr(es) => es != []
  }

  // ---------------------------------------------------------------------
  // is_numeric (PHP 8): ws* [+-]? (D+ ('.' D*)? | '.' D+) ([eE] [+-]? D+)? ws*

  predicate IsNumWs(c: char)
  {
    c == ' ' || c == '\t' || c == '\n' || c == '\r' || c == 11 as char || c == 12 as char
  }

  /** Number of consecutive digits of s starting at position i. */
  function DigitRun(s: string, i: nat): (n: nat)
    requires i <= |s|
    ensures i + n <= |s|
    ensures forall j :: i <= j < i + n ==> IsDigit(s[j])
    ensures i + n < |s| ==> !IsDigit(s[i + n])
    decreases |s| - i
  {
    if i < |s| && IsDigit(s[i]) then 1 + DigitRun(s, i + 1) else 0
  }

  function StripNumWs(s: string): (r: string)
    ensures |r| <= |s|
    ensures r != [] ==> !IsNumWs(r[0]) && !IsNumWs(r[|r| - 1])
  {
    if s != [] && IsNumWs(s[0]) then StripNumWs(s[1..])
    else if s != [] && IsNumWs(s[|s| - 1]) then StripNumWs(s[..|s| - 1])
    else s
  }

  /** The exponent part `[eE][+-]?D+` fills t[j..] exactly (or is absent). */
  predicate ExponentTail(t: string, j: nat)
    requires j <= |t|
  {
    j == |t| ||
    ((t[j] == 'e' || t[j] == 'E') &&
     var k := if j + 1 < |t| && (t[j + 1] == '+' || t[j + 1] == '-') then j + 2 else j + 1;
     k <= |t| && DigitRun(t, k) > 0 && k + DigitRun(t, k) == |t|)
  }

  predicate IsNumeric(s: string)
  {
    NumericText(StripNumWs(s))
  }

  /** `is_numeric` after the surrounding whitespace is gone. */
  predicate NumericText(t: string)
  {
    var i := if |t| > 0 && (t[0] == '+' || t[0] == '-') then 1 else 0;
    var d1 := DigitRun(t, i);
    var j := i + d1;
    if j < |t| && t[j] == '.' then
      var d2 := DigitRun(t, j + 1);
      (d1 > 0 || d2 > 0) && ExponentTail(t, j + 1 + d2)
    else
      d1 > 0 && ExponentTail(t, j)
  }

  /** Every run of decimal digits is numeric. */
  lemma DigitsAreNumeric(s: string)
    requires DigitsBody(s)
    ensures IsNumeric(s)
  {
    assert StripNumWs(s) == s;
    DigitRunAll(s, 0);
  }

  lemma {:induction false} DigitRunAll(s: string, i: nat)
    requires i <= |s|
    requires forall j :: i <= j < |s| ==> IsDigit(s[j])
    ensures DigitRun(s, i) == |s| - i
    decreases |s| - i
  {
    if i < |s| {
      DigitRunAll(s, i + 1);
    }
  }

  /** A string holding a letter other than e/E is never numeric. */
  lemma LetterNotNumeric(s: string, p: nat)
    requires p < |s| && IsAlpha(s[p]) && s[p] != 'e' && s[p] != 'E'
    ensures !IsNumeric(s)
  {
    StripKeeps(s, p);
    var t := StripNumWs(s);
    var q :| 0 <= q < |t| && t[q] == s[p];
    if NumericText(t) {
      NumericChars(t, q);
    }
  }

  predicate NumChar(c: char)
  {
    IsDigit(c) || c == '+' || c == '-' || c == '.' || c == 'e' || c == 'E'
  }

  /** Only signs, digits, the point and e/E make up a numeric text. */
  lemma NumericChars(t: string, q: nat)
    requires NumericText(t) && q < |t|
    ensures NumChar(t[q])
  {
    var i := if |t| > 0 && (t[0] == '+' || t[0] == '-') then 1 else 0;
    var j := i + DigitRun(t, i);
    if q < j {
      assert q < i || IsDigit(t[q]);
    } else if j < |t| && t[j] == '.' {
      PointChars(t, j, q);
    } else {
      assert ExponentTail(t, j);
      ExponentChars(t, j, q);
    }
  }

  /** From the decimal point on. */
  lemma PointChars(t: string, j: nat, q: nat)
    requires j <= q < |t| && t[j] == '.' && ExponentTail(t, j + 1 + DigitRun(t, j + 1))
    ensures NumChar(t[q])
  {
    var e := j + 1 + DigitRun(t, j + 1);
    if q >= e {
      ExponentChars(t, e, q);
    } else if q > j {
      assert IsDigit(t[q]);
    }
  }

  lemma ExponentChars(t: string, j: nat, q: nat)
    requires j <= q < |t| && ExponentTail(t, j)
    ensures NumChar(t[q])
  {
    var k := if j + 1 < |t| && (t[j + 1] == '+' || t[j + 1] == '-') then j + 2 else j + 1;
    if q >= k {
      assert q < k + DigitRun(t, k);
    }
  }

  /** A non-whitespace character survives StripNumWs. */
  lemma {:induction false} StripKeeps(s: string, p: nat)
    requires p < |s| && !IsNumWs(s[p])
    ensures s[p] in StripNumWs(s)
    decreases |s|
  {
    if s != [] && IsNumWs(s[0]) {
      StripKeeps(s[1..], p - 1);
    } else if s != [] && IsNumWs(s[|s| - 1]) {
      StripKeeps(s[..|s| - 1], p);
    }
  }

  // ---------------------------------------------------------------------
  // Decimal strings, as produced by (string)$int

  function DigitChar(d: nat): (c: char)
    requires d < 10
    ensures IsDigit(c)
  {
    ('0' as int + d) as char
  }

  function NatToString(n: nat): (r: string)
    ensures DigitsBody(r)
    decreases n
  {
    if n < 10 then [DigitChar(n)] else NatToString(n / 10) + [DigitChar(n % 10)]
  }

  function IntToString(i: int): (r: string)
    ensures MatchesDigits(r) <==> i >= 0
  {
    if i >= 0 then NatToString(i)
    else
      var d := NatToString(-i);
      var r := "-" + d;
      assert r[0] == '-' && r[|r| - 1] == d[|d| - 1] && IsDigit(d[|d| - 1]);
      r
  }
}
