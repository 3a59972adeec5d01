/**
 * What the compiled snippets do when the template runs. The snippets read
 * two arrays of the template object, `_vars` (global variables) and
 * `_arrvars` (loops), and the loop counters `$_0`, `$_1`, ... of the
 * enclosing `for` loops. A missing array entry reads as null.
 *
 * The library transforms that escaping and formatting call
 * (htmlspecialchars, urlencode, strtoupper, ...) stay uninterpreted: the
 * printed value is described by the layers wrapped around it.
 */
module Runtime {
  import opened Php
  import opened PhpArrays
  import opened Config
  import opened LoopBuild
  import opened Compile

  /** The two arrays the snippets read. */
  datatype Store = Store(vars: Assoc<Value>, arrvars: Assoc<Value>)

  // ---------------------------------------------------------------------
  // Array keys written as string literals

  function DigitValue(c: char): (d: nat)
    requires IsDigit(c)
    ensures d < 10 && DigitChar(d) == c
  {
    c as int - '0' as int
  }

  function DecimalValue(s: string): nat
    requires forall i :: 0 <= i < |s| ==> IsDigit(s[i])
  {
    if s == [] then 0 else 10 * DecimalValue(s[..|s| - 1]) + DigitValue(s[|s| - 1])
  }

  /** Decimal digits without a leading zero (other than "0" itself). */
  predicate CanonicalNat(s: string)
  {
    DigitsBody(s) && (s == "0" || s[0] != '0')
  }

  /** The strings PHP turns into integer keys: canonical decimals, negative ones included, but not "-0". */
  predicate CanonicalInt(s: string)
  {
    CanonicalNat(s) || (|s| >= 2 && s[0] == '-' && CanonicalNat(s[1..]) && s[1..] != "0")
  }

  /** A canonical decimal string is the decimal form of its value. */
  lemma {:induction false} NatRoundTrip(s: string)
    requires CanonicalNat(s)
    ensures NatToString(DecimalValue(s)) == s
    ensures s != "0" ==> DecimalValue(s) >= 1
    decreases |s|
  {
    var d := DigitValue(s[|s| - 1]);
    if |s| == 1 {
      assert s[..0] == [];
      assert DecimalValue(s) == d;
      assert s == [DigitChar(d)];
    } else {
      var p := s[..|s| - 1];
      assert p[0] == s[0];
      NatRoundTrip(p);
      var n := DecimalValue(s);
      assert n == 10 * DecimalValue(p) + d;
      assert n / 10 == DecimalValue(p) && n % 10 == d;
      assert NatToString(n) == NatToString(n / 10) + [DigitChar(n % 10)];
      assert s == p + [s[|s| - 1]];
    }
  }

  /** The key `$a['s']` uses: an integer for a canonical decimal string,
      the string itself otherwise. Either way the key prints back as s. */
  function NormKey(s: string): (r: Key)
    ensures r.StrKey? <==> !CanonicalInt(s)
    ensures r.StrKey? ==> r.s == s
    ensures r.IntKey? ==> IntToString(r.i) == s
  {
    if CanonicalNat(s) then
      NatRoundTrip(s);
      IntKey(DecimalValue(s))
    else if CanonicalInt(s) then
      NatRoundTrip(s[1..]);
      assert s == "-" + s[1..];
      IntKey(0 - DecimalValue(s[1..]) as int)
    else StrKey(s)
  }

  /** An identifier is always a string key. */
  lemma IdentKey(s: string)
    requires IdentBody(s)
    ensures NormKey(s) == StrKey(s)
  {
    assert !IsDigit(s[0]) && s[0] != '-';
  }

  // ---------------------------------------------------------------------
  // Reads

  /** `$v[$k]`: the entry of an array, null for a missing key or a value
      that is not an array. */
  function Index(v: Value, k: Key): Value
  {
    if v.Arr? && HasKey(v.entries, k) then Get(v.entries, k).value else Null
  }

  /** `$_m`: the counter of loop level m; an undefined counter is null,
      which as an array key is "". */
  function Counter(counters: seq<nat>, m: nat): Key
  {
    if m < |counters| then IntKey(counters[m]) else StrKey("")
  }

  /** `...['name'][$_m]...` for every step. */
  function Descend(v: Value, steps: seq<Step>, counters: seq<nat>): Value
    decreases |steps|
  {
    if steps == [] then v
    else Descend(Index(Index(v, NormKey(steps[0].name)), Counter(counters, steps[0].index)), steps[1..], counters)
  }

  /** The value before the fallback: `_vars['name']`, or `_arrvars` along the steps and then `['name']`. */
  function FirstRead(st: Store, r: Read, counters: seq<nat>): Value
  {
    match r.path
    case Global => Index(Arr(st.vars), NormKey(r.varname))
    case Scoped(steps) => Index(Descend(Arr(st.arrvars), steps, counters), NormKey(r.varname))
  }

  /** The value a read yields: the first read when it is not null, else, with
      the fallback, the global `_vars['name']`. */
  function Lookup(st: Store, r: Read, counters: seq<nat>): (v: Value)
    ensures v != Null ==> v == FirstRead(st, r, counters) || (r.fallback && v == Index(Arr(st.vars), NormKey(r.varname)))
    ensures FirstRead(st, r, counters) != Null ==> v == FirstRead(st, r, counters)
    ensures !r.fallback ==> v == FirstRead(st, r, counters)
  {
    var first := FirstRead(st, r, counters);
    if first == Null && r.fallback then Index(Arr(st.vars), NormKey(r.varname)) else first
  }

  /** Rows built by `_arrayBuild` are found by their index. */
  lemma RowsShapeGet(rows: Assoc<Value>, n: nat, c: nat)
    requires RowsShape(rows, n) && c < n
    ensures Get(rows, IntKey(c)) == Some(rows[c].1)
  {
    assert Distinct(rows) by {
      forall i, j | 0 <= i < j < |rows| ensures rows[i].0 != rows[j].0 {
      }
    }
    GetAt(rows, c);
  }

  /** An unprefixed name inside one loop reads the current row of that loop. */
  lemma ResolveOneLoop(o: Options, loop: string, name: string)
    ensures Resolve(o, [loop], name, None) == Read(Scoped([Step(loop, 0)]), name, o.globalVars)
  {
    assert Walk([loop], "", 0) == [Step(loop, 0)];
  }

  lemma DescendOne(v: Value, loop: string, c: nat)
    ensures Descend(v, [Step(loop, 0)], [c]) == Index(Index(v, NormKey(loop)), IntKey(c))
  {
    assert [Step(loop, 0)][1..] == [];
  }

  /** The context entry names are string keys. */
  lemma RownumStrKey(caseless: bool)
    ensures NormKey(RownumKey(caseless).s) == RownumKey(caseless)
  {
    var name := RownumKey(caseless).s;
    assert !IsDigit(name[0]) && name[0] != '-';
  }

  /** End to end: inside a loop over a built array, `<tmpl_var __ROWNUM__>`
      (lower-case under CASELESS) compiles to a read that yields the 1-based
      number of the current row. */
  lemma RowNumberRead(o: Options, st: Store, loop: string, arr: Assoc<Value>, c: nat)
    requires o.loopContextVars && BuildLoop(o, arr).Built?
    requires Get(st.arrvars, NormKey(loop)) == Some(Arr(BuildLoop(o, arr).entries))
    requires c < |arr|
    ensures Lookup(st, Resolve(o, [loop], RownumKey(o.caseless).s, None), [c]) == Int(c + 1)
  {
    var rows := BuildLoop(o, arr).entries;
    var name := RownumKey(o.caseless).s;
    ResolveOneLoop(o, loop, name);
    RowsShapeGet(rows, |arr|, c);
    BuildLoopRow(o, arr, c);
    DescendOne(Arr(st.arrvars), loop, c);
    assert Descend(Arr(st.arrvars), [Step(loop, 0)], [c]) == rows[c].1;
    RownumStrKey(o.caseless);
    assert Index(rows[c].1, RownumKey(o.caseless)) == Int(c + 1);
  }

  // ---------------------------------------------------------------------
  // Loops

  /** `$varTitle` of `_parseLoop`: `_arrvars['n0'][$_0]['n1'][$_1]...`, a
      level without index where the entry is the loop's own name. */
  function LoopValue(v: Value, path: seq<LoopStep>, counters: seq<nat>, m: nat): Value
    decreases |path|
  {
    if path == [] then v
    else
      var w := Index(v, NormKey(path[0].name));
      LoopValue(if path[0].indexed then Index(w, Counter(counters, m)) else w, path[1..], counters, m + 1)
  }

  /** `is_countable($varTitle) ? count($varTitle) : 0`. */
  function RowCount(st: Store, path: seq<LoopStep>, counters: seq<nat>): (n: nat)
    ensures !LoopValue(Arr(st.arrvars), path, counters, 0).Arr? ==> n == 0
    ensures LoopValue(Arr(st.arrvars), path, counters, 0).Arr? ==> n == |LoopValue(Arr(st.arrvars), path, counters, 0).entries|
  {
    var v := LoopValue(Arr(st.arrvars), path, counters, 0);
    if v.Arr? then |v.entries| else 0
  }

  /** What setLoop stores for a build: the rows, or `true`/`false`. */
  function Stored(b: Build): Value
    requires !b.Thrown?
  {
    match b
    case Built(rs) => Arr(rs)
    case Empty => Bool(true)
    case NotLoop => Bool(false)
  }

  /** A top-level loop runs once per row of the array given to setLoop, and
      not at all when setLoop stored `true` (an empty array) or `false` (a
      row that is not an array). */
  lemma TopLoopRows(o: Options, st: Store, loop: string, arr: Assoc<Value>)
    requires !BuildLoop(o, arr).Thrown?
    requires Get(st.arrvars, NormKey(loop)) == Some(Stored(BuildLoop(o, arr)))
    ensures RowCount(st, LoopPath([loop], loop, 0), []) == if BuildLoop(o, arr).Built? then |arr| else 0
  {
    assert LoopPath([loop], loop, 0) == [LoopStep(loop, false)];
    assert [LoopStep(loop, false)][1..] == [];
    assert LoopValue(Arr(st.arrvars), [LoopStep(loop, false)], [], 0) == Stored(BuildLoop(o, arr));
  }

  // ---------------------------------------------------------------------
  // Conditions

  /** A quoted literal as a PHP bool. */
  predicate StrTruthy(t: string) { t != "" && t != "0" }

  /** PHP's comparison of two ints by one of the allowed operators. */
  function CompareInts(op: string, a: int, b: int): Option<bool>
  {
    if op == "==" then Some(a == b)
    else if op == "!=" || op == "<>" then Some(a != b)
    else if op == "<" then Some(a < b)
    else if op == ">" then Some(a > b)
    else if op == "<=" then Some(a <= b)
    else if op == ">=" then Some(a >= b)
    else None
  }

  /** PHP 8's comparison of two bools (false < true). */
  function CompareBools(op: string, a: bool, b: bool): Option<bool>
  {
    CompareInts(op, if a then 1 else 0, if b then 1 else 0)
  }

  /** The truth of a test on the read value, where the snippet's PHP is
      decided here: the read alone; an int against a bare integer literal;
      a non-numeric string against a quoted non-numeric literal by `==`,
      `!=` or `<>`. Other comparisons are left uninterpreted (None), and so
      is a comparison emitted without operator, which does not parse. */
  function Holds(test: Test, v: Value): Option<bool>
  {
    match test
    case Truth => Some(Truthy(v))
    case Compare(op, lit) =>
      if op.None? then None
      else if v.Int? && lit.Bare? && CanonicalInt(lit.text) then CompareInts(op.value, v.i, NormKey(lit.text).i)
      else if v.Str? && lit.Quoted? && !IsNumeric(v.s) && !IsNumeric(lit.text) && op.value in {"==", "!=", "<>"} then
        Some(if op.value == "==" then v.s == lit.text else v.s != lit.text)
      else None
  }

  function Not(b: Option<bool>): Option<bool>
  {
    if b.Some? then Some(!b.value) else None
  }

  /** `<tmpl_unless>` as the engine evidently means it: the negation of the
      whole test, `!(read op literal)`. */
  function UnlessHolds(test: Test, v: Value): (r: Option<bool>)
    ensures Holds(test, v).Some? <==> r.Some?
    ensures r.Some? ==> r.value == !Holds(test, v).value
  {
    Not(Holds(test, v))
  }

  /** `<tmpl_unless>` as written: `if (!` + `read op literal` + `)` parses
      as `(!read) op literal`, a comparison of a bool with the literal, which
      PHP makes by converting the literal to bool. */
  function UnlessAsWritten(test: Test, v: Value): Option<bool>
  {
    match test
    case Truth => Some(!Truthy(v))
    case Compare(op, lit) =>
      if op.None? then None
      else if lit.Quoted? then CompareBools(op.value, !Truthy(v), StrTruthy(lit.text))
      else if CanonicalInt(lit.text) then CompareBools(op.value, !Truthy(v), NormKey(lit.text).i != 0)
      else None
  }

  /** Without a VALUE the two readings agree. */
  lemma UnlessAsWrittenTruth(v: Value)
    ensures UnlessAsWritten(Truth, v) == UnlessHolds(Truth, v)
  {
  }

  /** With a VALUE they differ: `unless x value="b"` with x = "a" hides its
      body, though x is not "b". */
  lemma UnlessAsWrittenDiffers()
    ensures UnlessHolds(Compare(Some("=="), Quoted("b")), Str("a")) == Some(true)
    ensures UnlessAsWritten(Compare(Some("=="), Quoted("b")), Str("a")) == Some(false)
  {
    assert "a" != "b";
    LetterNotNumeric("a", 0);
    LetterNotNumeric("b", 0);
  }

  /** Whether the block under a condition instruction is entered, `unless`
      taken as the engine writes it. */
  function Enters(st: Store, instr: Instr, counters: seq<nat>): Option<bool>
    requires instr.If? || instr.ElseIf? || instr.Unless?
  {
    var v := Lookup(st, instr.cond.read, counters);
    if instr.Unless? then UnlessAsWritten(instr.cond.test, v) else Holds(instr.cond.test, v)
  }

  /** The corrected `unless` enters exactly where `if` on the same tag would
      not; the one the engine writes does so for a tag without a VALUE. */
  lemma UnlessIsNotIf(st: Store, c: Cond, counters: seq<nat>)
    ensures UnlessHolds(c.test, Lookup(st, c.read, counters)) == Not(Enters(st, If(c), counters))
    ensures c.test.Truth? ==> Enters(st, Unless(c), counters) == Not(Enters(st, If(c), counters))
  {
    if c.test.Truth? {
      UnlessAsWrittenTruth(Lookup(st, c.read, counters));
    }
  }

  /** An if tag with a numeric VALUE compares numbers: `<tmpl_if n value="3">` enters iff n is 3. */
  lemma IfNumericValue(o: Options, st: Store, stack: seq<string>, name: string, counters: seq<nat>, k: int)
    requires Lookup(st, Resolve(o, stack, name, None), counters) == Int(k)
    ensures Enters(st, If(IfCond(o, stack, name, Some("3"), None, None)), counters) == Some(k == 3)
  {
    var t := IfCond(o, stack, name, Some("3"), None, None).test;
    assert DigitsBody("3");
    DigitsAreNumeric("3");
    assert t == Compare(Some("=="), Bare("3"));
    assert CanonicalNat("3");
    assert NormKey("3").i == 3 by {
      assert IntToString(NormKey("3").i) == "3";
      assert DecimalValue("3") == 3 by {
        assert "3"[..0] == [];
      }
    }
  }

  // ---------------------------------------------------------------------
  // Printing

  /** The printed expression: the value, wrapped by the format call, wrapped
      by the escape call. */
  datatype Shown = Plain(v: Value) | Formatted(format: Format, inner: Shown) | Escaped(escape: Escape, inner: Shown)

  /** What a var snippet prints. */
  datatype Output = Print(shown: Shown) | Verbatim(text: string) | SpecialChars(text: string) | NoOutput

  /** The effect of a var snippet: its output and the name it hands to `_setUnknown`. */
  datatype Effect = Effect(output: Output, record: Option<string>)

  /** `ESCAPE_TAGS[e]`: `0` and `none` open and close with nothing. */
  function Wrap(escape: Option<Escape>, s: Shown): Shown
  {
    if escape.Some? && escape.value != EZero && escape.value != ENone then Escaped(escape.value, s) else s
  }

  function Show(escape: Option<Escape>, format: Option<Format>, v: Value): Shown
  {
    Wrap(escape, if format.Some? then Formatted(format.value, Plain(v)) else Plain(v))
  }

  /** Running `PrintVar`. */
  function RunPrint(st: Store, instr: Instr, counters: seq<nat>): (e: Effect)
    requires instr.PrintVar?
    ensures e.output.Print? <==> Lookup(st, instr.read, counters) != Null
    ensures e.record.Some? <==> Lookup(st, instr.read, counters) == Null && !instr.onUnknown.Ignore?
    ensures e.record.Some? ==> e.record.value == instr.read.varname
  {
    var v := Lookup(st, instr.read, counters);
    if v != Null then Effect(Print(Show(instr.escape, instr.format, v)), None)
    else
      match instr.onUnknown
      case Ignore => Effect(NoOutput, None)
      case Remove => Effect(NoOutput, Some(instr.read.varname))
      case Leave(t) => Effect(Verbatim(t), Some(instr.read.varname))
      case PrintTag(t) => Effect(SpecialChars(t), Some(instr.read.varname))
      case CommentTag(t) => Effect(Verbatim(t), Some(instr.read.varname))
  }

  /** The escape wraps the format: in a printed value the escape call is
      outermost and the format call sits directly around the value. */
  lemma EscapeWrapsFormat(st: Store, instr: Instr, counters: seq<nat>)
    requires instr.PrintVar? && instr.escape.Some? && instr.escape.value !in {EZero, ENone} && instr.format.Some?
    requires Lookup(st, instr.read, counters) != Null
    ensures RunPrint(st, instr, counters).output ==
      Print(Escaped(instr.escape.value, Formatted(instr.format.value, Plain(Lookup(st, instr.read, counters)))))
  {
  }

  /** End to end for an unknown variable: under UNKNOWNS=comment the snippet
      prints the tag without its comment markers inside a comment of its own,
      and records the name. */
  lemma UnknownComment(o: Options, fns: set<string>, st: Store, wholetag: string, name: string, counters: seq<nat>)
    requires o.unknowns == Some("comment")
    requires VarInstr(o, fns, [], wholetag, name, None, None, None).Ok?
    requires Lookup(st, VarInstr(o, fns, [], wholetag, name, None, None, None).value.read, counters) == Null
    ensures RunPrint(st, VarInstr(o, fns, [], wholetag, name, None, None, None).value, counters) ==
      Effect(Verbatim("<!-- unknown variable " + StripMarkers(StripSlashes(wholetag)) + "//-->"), Some(name))
  {
    assert ToLower("comment") == "comment";
  }

  // ---------------------------------------------------------------------
  // Includes

  /** `(string)$v` for the values a variable can hold. */
  function Stringify(v: Value): string
  {
    match v
    case Null => ""
    case Bool(b) => if b then "1" else ""
    case Int(i) => IntToString(i)
    case Str(s) => s
    case Arr(_) => "Array"
  }

  /** The file name an include snippet asks for: the literal text with
      every `{var:name}` replaced by `_vars['name']`. */
  function IncludeName(st: Store, segs: seq<Segment>): string
  {
    if segs == [] then []
    else
      (match segs[0]
       case Lit(t) => t
       case VarRef(_, n) => Stringify(Index(Arr(st.vars), NormKey(n)))) + IncludeName(st, segs[1..])
  }

  /** A file name without `{` is asked for as written. */
  lemma {:induction false} IncludeLiteral(st: Store, s: string)
    requires forall i :: 0 <= i < |s| ==> s[i] != '{'
    ensures IncludeName(st, Segments(s)) == s
    decreases |s|
  {
    if s != [] {
      assert VarRefLength(s) == 0;
      IncludeLiteral(st, s[1..]);
      var rest := Segments(s[1..]);
      if rest != [] && rest[0].Lit? {
        assert Cons(s[0], rest)[1..] == rest[1..];
      } else {
        assert Cons(s[0], rest)[1..] == rest;
      }
    }
  }

  /** A reference to a string variable is replaced by its value. */
  lemma IncludeVar(st: Store, name: string, value: string)
    requires name != [] && NoBrace(name)
    requires Get(st.vars, NormKey(name)) == Some(Str(value))
    ensures IncludeName(st, Segments("{var:" + name + "}")) == value
  {
    VarRefWhole(name);
    assert IncludeName(st, [VarRef("{var:", name)]) == Stringify(Str(value)) + IncludeName(st, []);
  }

  lemma VarRefWhole(name: string)
    requires name != [] && NoBrace(name)
    ensures Segments("{var:" + name + "}") == [VarRef("{var:", name)]
  {
    var s := "{var:" + name + "}";
    assert s[..5] == "{var:";
    assert s[5..] == name + "}";
    NoBraceRun(name);
    assert VarRefLength(s) == |s|;
    assert s[5..|s| - 1] == name;
    assert s[|s|..] == [];
  }

  lemma {:induction false} NoBraceRun(name: string)
    requires NoBrace(name)
    ensures NonBraceRun(name + "}") == |name|
    decreases |name|
  {
    if name != [] {
      assert (name + "}")[1..] == name[1..] + "}";
      NoBraceRun(name[1..]);
    }
  }
}
