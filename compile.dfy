/**
 * The tag compiler of vlibTemplate: `_parseTag` and its helpers turn one
 * scanned `<TMPL_...>` tag into a PHP snippet. The snippets have a small
 * fixed meaning, so each is modelled as an instruction: print a variable,
 * open or continue a condition, open a loop, close a block, open a
 * comment, include a file, or nothing.
 *
 * The scanner that finds the tags is not modelled; `_parseTag` is given its
 * match groups: the whole tag, the opener (`<`, `</`, `{`, `{/`, `<!--`,
 * `<!--/`), the keyword and up to three attribute name/value pairs.
 */
module Compile {
  import opened Php
  import opened Config

  // ---------------------------------------------------------------------
  // Scanner groups

  /** The keywords the scanner recognises (matched case-insensitively). */
  datatype Keyword =
    | KVar | KIf | KElseIf | KElse | KEndIf | KUnless | KEndUnless
    | KLoop | KEndLoop | KInclude | KComment | KEndComment

  /** `strtolower($args[2])`. */
  function KeywordText(k: Keyword): string
  {
    match k
    case KVar => "var"
    case KIf => "if"
    case KElseIf => "elseif"
    case KElse => "else"
    case KEndIf => "endif"
    case KUnless => "unless"
    case KEndUnless => "endunless"
    case KLoop => "loop"
    case KEndLoop => "endloop"
    case KInclude => "include"
    case KComment => "comment"
    case KEndComment => "endcomment"
  }

  /** Attribute names the scanner recognises, after strtolower. */
  datatype AttrName = NameAttr | FormatAttr | EscapeAttr | OpAttr | ValueAttr | FileAttr

  /** One name/value pair of groups: the name is None when its group did not
      match; the value is "" when it did not. */
  type AttrPair = (Option<AttrName>, string)

  datatype TagArgs = TagArgs(wholetag: string, openclose: string, keyword: Keyword, pairs: seq<AttrPair>)

  // ---------------------------------------------------------------------
  // Arranging the attributes

  /** The local variables `$name`, `$format`, `$escape`, `$op`, `$value`
      and `$file` that `$$key = ...` assigns (None: never assigned). */
  datatype Attrs = Attrs(
    name: Option<string>, format: Option<string>, escape: Option<string>,
    op: Option<string>, value: Option<string>, file: Option<string>)

  const NoAttrs := Attrs(None, None, None, None, None, None)

  function Assign(a: Attrs, key: AttrName, v: string): (r: Attrs)
    ensures key == NameAttr ==> r == a.(name := Some(v))
    ensures key == FileAttr ==> r == a.(file := Some(v))
  {
    match key
    case NameAttr => a.(name := Some(v))
    case FormatAttr => a.(format := Some(v))
    case EscapeAttr => a.(escape := Some(v))
    case OpAttr => a.(op := Some(v))
    case ValueAttr => a.(value := Some(v))
    case FileAttr => a.(file := Some(v))
  }

  /** preg_match('/^(php)?include$/', $tag). */
  predicate IsIncludeTag(t: string)
  {
    t == "include" || t == "phpinclude" || t == "include\n" || t == "phpinclude\n"
  }

  /** The key an attribute pair assigns: a pair without a name sets `name`,
      and on an include tag `name` becomes `file`. */
  function PairKey(tag: Keyword, p: AttrPair): AttrName
  {
    var key := if p.0 == None then NameAttr else p.0.value;
    if key == NameAttr && IsIncludeTag(KeywordText(tag)) then FileAttr else key
  }

  /** The pair stops the arrangement: both groups empty (empty("0") holds). */
  predicate StopsArrangement(p: AttrPair)
  {
    p.0 == None && EmptyStr(Some(p.1))
  }

  /** The for loop over the pairs, from pair i on; the first pair whose
      groups are both empty ends it, and a later assignment of a key wins. */
  function ArrangeFrom(tag: Keyword, pairs: seq<AttrPair>, i: nat, acc: Attrs): Attrs
    requires i <= |pairs|
    decreases |pairs| - i
  {
    if i == |pairs| || StopsArrangement(pairs[i]) then acc
    else ArrangeFrom(tag, pairs, i + 1, Assign(acc, PairKey(tag, pairs[i]), pairs[i].1))
  }

  function Arrange(tag: Keyword, pairs: seq<AttrPair>): Attrs
  {
    ArrangeFrom(tag, pairs, 0, NoAttrs)
  }

  /** An include tag never has a `name`: a name attribute fills `file`. */
  lemma {:induction false} IncludeHasNoName(pairs: seq<AttrPair>, i: nat, acc: Attrs)
    requires i <= |pairs| && acc.name == None
    ensures ArrangeFrom(KInclude, pairs, i, acc).name == None
    decreases |pairs| - i
  {
    if i < |pairs| && !StopsArrangement(pairs[i]) {
      IncludeHasNoName(pairs, i + 1, Assign(acc, PairKey(KInclude, pairs[i]), pairs[i].1));
    }
  }

  /** The pairs after a stopping pair are never looked at. */
  lemma {:induction false} ArrangeStops(tag: Keyword, pairs: seq<AttrPair>, i: nat, acc: Attrs, s: nat)
    requires i <= s < |pairs| && StopsArrangement(pairs[s])
    ensures ArrangeFrom(tag, pairs, i, acc) == ArrangeFrom(tag, pairs[..s], i, acc)
    decreases s - i
  {
    if i < s && !StopsArrangement(pairs[i]) {
      ArrangeStops(tag, pairs, i + 1, Assign(acc, PairKey(tag, pairs[i]), pairs[i].1), s);
    }
  }

  /** Of the scanner's keywords, only `include` is an include tag. */
  lemma IncludeTagIff(k: Keyword)
    ensures IsIncludeTag(KeywordText(k)) <==> k == KInclude
  {
  }

  /** A name given only by a nameless value is still the name (`<TMPL_VAR foo>`). */
  lemma NamelessValueIsName(tag: Keyword, v: string)
    requires !EmptyStr(Some(v)) && tag != KInclude
    ensures Arrange(tag, [(None, v), (None, ""), (None, "")]).name == Some(v)
  {
    var pairs := [(None, v), (None, ""), (None, "")];
    IncludeTagIff(tag);
    assert PairKey(tag, pairs[0]) == NameAttr;
    assert StopsArrangement(pairs[1]);
    assert ArrangeFrom(tag, pairs, 1, NoAttrs.(name := Some(v))) == NoAttrs.(name := Some(v));
  }

  // ---------------------------------------------------------------------
  // Splitting `prefix.name`

  /** Number of trailing dots of p. */
  function DotRun(p: string): (n: nat)
    ensures n <= |p|
    ensures forall m :: |p| - n <= m < |p| ==> p[m] == '.'
    ensures n < |p| ==> p[|p| - n - 1] != '.'
  {
    if p != [] && p[|p| - 1] == '.' then 1 + DotRun(p[..|p| - 1]) else 0
  }

  /** Group 1 of the name pattern: an identifier followed by one or more dots (or nothing). */
  predicate NsPrefix(p: string)
  {
    p == [] || (var d := DotRun(p); d >= 1 && IdentBody(p[..|p| - d]))
  }

  /** Number of trailing word characters of b. */
  function WordRun(b: string): (n: nat)
    ensures n <= |b|
    ensures forall m :: |b| - n <= m < |b| ==> IsWordChar(b[m])
    ensures n < |b| ==> !IsWordChar(b[|b| - n - 1])
  {
    if b != [] && IsWordChar(b[|b| - 1]) then 1 + WordRun(b[..|b| - 1]) else 0
  }

  /** preg_match('/^([A-Za-z_]+[_A-Za-z0-9]*(\.)+)?([A-Za-z_]+[_A-Za-z0-9]*)$/', $var):
      the prefix (group 1, "" when absent) and the name (group 3). */
  function SplitName(s: string): (r: Option<(string, string)>)
    ensures r.Some? ==> NsPrefix(r.value.0) && IdentBody(r.value.1)
    ensures r.Some? ==> s == r.value.0 + r.value.1 || s == r.value.0 + r.value.1 + "\n"
  {
    var b := if s != [] && s[|s| - 1] == '\n' then s[..|s| - 1] else s;
    var n := WordRun(b);
    var p := b[..|b| - n];
    var id := b[|b| - n..];
    assert b == p + id;
    if IdentBody(id) && NsPrefix(p) then Some((p, id)) else None
  }

  /** Joining a prefix and a name and splitting again gives them back. */
  lemma SplitJoin(p: string, id: string)
    requires NsPrefix(p) && IdentBody(id)
    ensures SplitName(p + id) == Some((p, id))
  {
    var s := p + id;
    assert s[|s| - 1] == id[|id| - 1];
    WordRunJoin(p, id);
    SplitNameNoNewline(s, p, id);
  }

  /** The newline that `$` lets through is dropped with the split. */
  lemma SplitJoinNewline(p: string, id: string)
    requires NsPrefix(p) && IdentBody(id)
    ensures SplitName(p + id + "\n") == Some((p, id))
  {
    var s := p + id;
    assert s[|s| - 1] == id[|id| - 1];
    SplitNameNewline(s);
    SplitJoin(p, id);
  }

  /** SplitName of a string that does not end in a newline. */
  lemma SplitNameNoNewline(b: string, p: string, id: string)
    requires b == [] || b[|b| - 1] != '\n'
    requires WordRun(b) == |id| && b == p + id && IdentBody(id) && NsPrefix(p)
    ensures SplitName(b) == Some((p, id))
  {
    assert b[..|b| - |id|] == p && b[|b| - |id|..] == id;
  }

  /** SplitName ignores one final newline. */
  lemma SplitNameNewline(b: string)
    requires b == [] || b[|b| - 1] != '\n'
    ensures SplitName(b + "\n") == SplitName(b)
  {
    var t := b + "\n";
    assert t[..|t| - 1] == b;
  }

  lemma WordRunJoin(p: string, id: string)
    requires NsPrefix(p) && IdentBody(id)
    ensures WordRun(p + id) == |id|
  {
    assert forall m :: 0 <= m < |id| ==> IsWordChar(id[m]);
    if p != [] {
      assert p[|p| - 1] == '.';
    }
    WordRunAfter(p, id);
  }

  /** A run of word characters after a non-word character (or nothing). */
  lemma {:induction false} WordRunAfter(p: string, id: string)
    requires forall m :: 0 <= m < |id| ==> IsWordChar(id[m])
    requires p == [] || !IsWordChar(p[|p| - 1])
    ensures WordRun(p + id) == |id|
    decreases |id|
  {
    var s := p + id;
    if id == [] {
      assert s == p;
    } else {
      var id' := id[..|id| - 1];
      assert s[|s| - 1] == id[|id| - 1];
      assert s[..|s| - 1] == p + id';
      WordRunAfter(p, id');
    }
  }

  /** A name without a dot or a newline is its own name part, with no prefix. */
  lemma SplitPlain(id: string)
    requires IdentBody(id)
    ensures SplitName(id) == Some(([], id))
  {
    SplitJoin([], id);
    assert [] + id == id;
  }

  /** substr($namespace, 0, -1): the prefix without its last dot; absent and
      empty prefixes behave alike in every later comparison. */
  function NsArg(ns: Option<string>): string
  {
    match ns
    case None => ""
    case Some(p) => if p == [] then [] else p[..|p| - 1]
  }

  // ---------------------------------------------------------------------
  // Scope resolution (the walk over `_namespace` in `_parseIf` and `_parseVar`)

  /** `[name][$_index]` in an access path. */
  datatype Step = Step(name: string, index: nat)

  /** Where a name is read: the global `_vars`, or `_arrvars` along the steps. */
  datatype Path = Global | Scoped(steps: seq<Step>)

  /** The read of `varname` along path; with fallback, a null result falls
      back to the global `_vars[varname]`. */
  datatype Read = Read(path: Path, varname: string, fallback: bool)

  /** The for loop over `_namespace` from entry i: each entry adds its step
      until one equals the prefix, or until the innermost entry when the
      prefix is not empty; that last step is keyed by the prefix itself. */
  function Walk(stack: seq<string>, q: string, i: nat): (r: seq<Step>)
    requires i <= |stack|
    ensures |r| <= |stack| - i
    ensures forall m :: 0 <= m < |r| ==> r[m].index == i + m
    decreases |stack| - i
  {
    if i == |stack| then []
    else if stack[i] == q || (i + 1 == |stack| && !EmptyStr(Some(q))) then [Step(q, i)]
    else [Step(stack[i], i)] + Walk(stack, q, i + 1)
  }

  /** The read `_parseIf` and `_parseVar` compile for `name` with prefix ns. */
  function Resolve(o: Options, stack: seq<string>, name: string, ns: Option<string>): Read
  {
    var q := NsArg(ns);
    if |stack| == 0 || q == "global" then Read(Global, name, false)
    else Read(Scoped(Walk(stack, q, 0)), name, o.globalVars && EmptyStr(Some(q)))
  }

  /** Steps i..j-1 all follow the stack: `[stack[m]][$_m]`. */
  predicate FollowsStack(r: seq<Step>, stack: seq<string>, i: nat, count: nat)
    requires count <= |r| && i + count <= |stack|
  {
    forall m :: 0 <= m < count ==> r[m] == Step(stack[i + m], i + m)
  }

  /** A prefix that names a loop on the stack: the walk stops at its first
      (outermost) occurrence. */
  lemma {:induction false} WalkMatched(stack: seq<string>, q: string, i: nat, f: nat)
    requires i <= f < |stack| && stack[f] == q
    requires forall m :: i <= m < f ==> stack[m] != q
    ensures |Walk(stack, q, i)| == f - i + 1
    ensures FollowsStack(Walk(stack, q, i), stack, i, f - i)
    ensures Walk(stack, q, i)[f - i] == Step(q, f)
    decreases f - i
  {
    if i < f {
      WalkMatched(stack, q, i + 1, f);
    }
  }

  /** A non-empty prefix that names no loop on the stack binds at the
      innermost level under its own name. */
  lemma {:induction false} WalkUnmatched(stack: seq<string>, q: string, i: nat)
    requires i < |stack| && !EmptyStr(Some(q))
    requires forall m :: i <= m < |stack| ==> stack[m] != q
    ensures |Walk(stack, q, i)| == |stack| - i
    ensures FollowsStack(Walk(stack, q, i), stack, i, |stack| - i - 1)
    ensures Walk(stack, q, i)[|stack| - i - 1] == Step(q, |stack| - 1)
    decreases |stack| - i
  {
    if i + 1 < |stack| {
      WalkUnmatched(stack, q, i + 1);
    }
  }

  /** An unprefixed name walks the whole stack when no loop on it is nameless. */
  lemma {:induction false} WalkUnprefixed(stack: seq<string>, i: nat)
    requires i <= |stack|
    requires forall m :: i <= m < |stack| ==> stack[m] != ""
    ensures |Walk(stack, "", i)| == |stack| - i
    ensures FollowsStack(Walk(stack, "", i), stack, i, |stack| - i)
    decreases |stack| - i
  {
    if i < |stack| {
      WalkUnprefixed(stack, i + 1);
    }
  }

  // ---------------------------------------------------------------------
  // Escaping and formatting of printed variables

  /** The entries of ESCAPE_TAGS. `1` opens like `html`; `0` and `none` wrap nothing. */
  datatype Escape = EHtml | EUrl | ERawUrl | ESq | EDq | EOne | EZero | ENone | EHex | EHexEntity

  /** isset($this->ESCAPE_TAGS[$escape]). */
  function EscapeTag(name: string): Option<Escape>
  {
    if name == "html" then Some(EHtml)
    else if name == "url" then Some(EUrl)
    else if name == "rawurl" then Some(ERawUrl)
    else if name == "sq" then Some(ESq)
    else if name == "dq" then Some(EDq)
    else if name == "1" then Some(EOne)
    else if name == "0" then Some(EZero)
    else if name == "none" then Some(ENone)
    else if name == "hex" then Some(EHex)
    else if name == "hexentity" then Some(EHexEntity)
    else None
  }

  /** The entries of FORMAT_TAGS, and a call of any other existing function. */
  datatype Format = FUc | FLc | FUcFirst | FLcUcFirst | FUcWords | FLcUcWords | FCall(fn: string)

  function FormatTag(name: string): Option<Format>
  {
    if name == "uc" then Some(FUc)
    else if name == "lc" then Some(FLc)
    else if name == "ucfirst" then Some(FUcFirst)
    else if name == "lcucfirst" then Some(FLcUcFirst)
    else if name == "ucwords" then Some(FUcWords)
    else if name == "lcucwords" then Some(FLcUcWords)
    else None
  }

  /** The escape `_parseTag` hands to `_parseVar`: DEFAULT_ESCAPE, lower-cased,
      when the tag has no ESCAPE attribute and the default is neither empty
      nor `none`. An ESCAPE attribute thus turns escaping off. */
  function EscapeArg(o: Options, escapeAttr: Option<string>): Option<string>
  {
    if EmptyStr(escapeAttr) && !EmptyStr(o.defaultEscape) && ToLower(o.defaultEscape.value) != "none"
    then Some(ToLower(o.defaultEscape.value))
    else None
  }

  /** The escape `_parseVar` applies: only a name ESCAPE_TAGS knows. */
  function EscapeOf(escape: Option<string>): Option<Escape>
  {
    if !EmptyStr(escape) then EscapeTag(escape.value) else None
  }

  /** The format `_parseVar` applies: a FORMAT_TAGS entry, else an existing
      function of that name (function names are case-insensitive; `functions`
      holds the lower-cased names of the defined functions). */
  function FormatOf(format: Option<string>, functions: set<string>): Option<Format>
  {
    if EmptyStr(format) then None
    else if FormatTag(format.value).Some? then FormatTag(format.value)
    else if ToLower(format.value) in functions then Some(FCall(format.value))
    else None
  }

  /** Only DEFAULT_ESCAPE is ever applied, and never as an entry that wraps nothing. */
  lemma EscapeOnlyDefault(o: Options, escapeAttr: Option<string>)
    ensures EscapeOf(EscapeArg(o, escapeAttr)).Some? ==>
              EmptyStr(escapeAttr) && o.defaultEscape.Some? &&
              EscapeOf(EscapeArg(o, escapeAttr)) == EscapeTag(ToLower(o.defaultEscape.value))
    ensures !EmptyStr(escapeAttr) ==> EscapeOf(EscapeArg(o, escapeAttr)) == None
    ensures EscapeOf(EscapeArg(o, escapeAttr)) != Some(EZero)
    ensures EscapeOf(EscapeArg(o, escapeAttr)) != Some(ENone)
  {
  }

  /** A default such as `HTML` is applied as `html`. */
  lemma DefaultEscapeLowered(o: Options)
    requires o.defaultEscape == Some("HTML")
    ensures EscapeOf(EscapeArg(o, None)) == Some(EHtml)
  {
    assert ToLower("HTML") == "html";
  }

  // ---------------------------------------------------------------------
  // Unknown variables

  /** What the snippet does when neither read finds a value. All but Ignore
      also record the name with `_setUnknown`. */
  datatype OnUnknown =
    | Ignore
    | Remove
    | Leave(text: string)       // print the tag as written
    | PrintTag(text: string)    // print htmlspecialchars of the tag
    | CommentTag(text: string)  // print this HTML comment

  /** stripslashes: a backslash is dropped and the next character kept
      (`\0` gives a NUL byte). */
  function StripSlashes(s: string): (r: string)
    ensures |r| <= |s|
    ensures (forall i :: 0 <= i < |s| ==> s[i] != '\\') ==> r == s
  {
    if s == [] then []
    else if s[0] != '\\' then [s[0]] + StripSlashes(s[1..])
    else if |s| == 1 then []
    else [if s[1] == '0' then 0 as char else s[1]] + StripSlashes(s[2..])
  }

  /** preg_replace('/<!--|-->/', '', s): one left-to-right pass. */
  function StripMarkers(s: string): (r: string)
    ensures |r| <= |s|
    ensures (forall i :: 0 <= i < |s| ==> s[i] != '-') ==> r == s
  {
    if |s| >= 4 && s[..4] == "<!--" then assert s[2] == '-'; StripMarkers(s[4..])
    else if |s| >= 3 && s[..3] == "-->" then StripMarkers(s[3..])
    else if s == [] then []
    else [s[0]] + StripMarkers(s[1..])
  }

  /** The single pass can leave a marker behind: one is formed from the text around a removed one. */
  lemma StripMarkersOnePass()
    ensures StripMarkers("--<!-->") == "-->"
  {
    StripKeepsFirst("--<!-->");
    StripKeepsFirst("-<!-->");
    StripDropsOpen("<!-->");
    assert StripMarkers(">") == ">";
  }

  /** A character that starts no marker is copied. */
  lemma StripKeepsFirst(s: string)
    requires |s| >= 4 && s[0] == '-' && s[2] != '>'
    ensures StripMarkers(s) == [s[0]] + StripMarkers(s[1..])
  {
    assert s[..4][0] != "<!--"[0];
    assert s[..3][2] != "-->"[2];
  }

  /** `<!--` at the front is dropped. */
  lemma StripDropsOpen(s: string)
    requires |s| >= 4 && s[..4] == "<!--"
    ensures StripMarkers(s) == StripMarkers(s[4..])
  {
  }

  /** The switch on strtolower(UNKNOWNS); null UNKNOWNS is a TypeError. */
  function UnknownAction(o: Options, wholetag: string): (r: Outcome<OnUnknown>)
    ensures r.TypeError? <==> o.unknowns.None?
  {
    match o.unknowns
    case None => TypeError
    case Some(u) =>
      var tag := StripSlashes(wholetag);
      var mode := ToLower(u);
      if mode == "comment" then Ok(CommentTag("<!-- unknown variable " + StripMarkers(tag) + "//-->"))
      else if mode == "leave" then Ok(Leave(tag))
      else if mode == "print" then Ok(PrintTag(tag))
      else if mode == "ignore" then Ok(Ignore)
      else Ok(Remove)
  }

  /** Any value but the four named modes removes the unknown and records it. */
  lemma UnknownDefaultRemoves(o: Options, wholetag: string)
    requires o.unknowns.Some?
    requires ToLower(o.unknowns.value) !in {"comment", "leave", "print", "ignore"}
    ensures UnknownAction(o, wholetag) == Ok(Remove)
  {
  }

  // ---------------------------------------------------------------------
  // Conditions

  /** The comparison value: numeric values are emitted bare, others quoted. */
  datatype Literal = Bare(text: string) | Quoted(text: string)

  /** The test of an if/elseif/unless: the read itself, or a comparison. A
      comparison whose operator is None is emitted without operator text. */
  datatype Test = Truth | Compare(op: Option<string>, lit: Literal)

  datatype Cond = Cond(read: Read, test: Test)

  /** allowed_if_ops. */
  const IfOps: seq<string> := ["==", "!=", "<>", "<", ">", "<=", ">="]

  /** The operator text `_parseIf` emits: OP if allowed, `==` if OP is empty,
      and nothing (after a warning) for any other OP. */
  function OpOf(op: Option<string>): (r: Option<string>)
    ensures r.Some? ==> r.value in IfOps
    ensures EmptyStr(op) ==> r == Some("==")
    ensures !EmptyStr(op) ==> (r.Some? <==> op.value in IfOps)
  {
    if !EmptyStr(op) then (if op.value in IfOps then op else None) else Some("==")
  }

  function LiteralOf(v: string): (r: Literal)
    ensures r.text == v
    ensures r.Bare? <==> IsNumeric(v)
  {
    if IsNumeric(v) then Bare(v) else Quoted(v)
  }

  /** `_parseIf($var, $value, $op, $namespace)`. */
  function IfCond(o: Options, stack: seq<string>, name: string, value: Option<string>, op: Option<string>, ns: Option<string>): (r: Cond)
    ensures r.read == Resolve(o, stack, name, ns)
    ensures value.None? <==> r.test.Truth?
    ensures value.Some? ==> r.test == Compare(OpOf(op), LiteralOf(value.value))
  {
    var test := if value.Some? then Compare(OpOf(op), LiteralOf(value.value)) else Truth;
    Cond(Resolve(o, stack, name, ns), test)
  }

  // ---------------------------------------------------------------------
  // Loops

  /** `[name]` in the row-count path, indexed by `[$_i]` unless it is the loop's own name. */
  datatype LoopStep = LoopStep(name: string, indexed: bool)

  /** The for loop of `_parseLoop` over the (pushed) namespace, from entry i. */
  function LoopPath(stack: seq<string>, varname: string, i: nat): (r: seq<LoopStep>)
    requires i <= |stack|
    ensures |r| == |stack| - i
    ensures forall m :: 0 <= m < |r| ==> r[m] == LoopStep(stack[i + m], stack[i + m] != varname)
    decreases |stack| - i
  {
    if i == |stack| then [] else [LoopStep(stack[i], stack[i] != varname)] + LoopPath(stack, varname, i + 1)
  }

  // ---------------------------------------------------------------------
  // Includes

  /** A piece of an include file name: literal text, or `{var:name}` (the
      `var` in any case), which reads the global `_vars[name]`. */
  datatype Segment = Lit(text: string) | VarRef(open: string, name: string)

  predicate IsVarOpen(s: string)
  {
    |s| == 5 && s[0] == '{' && LowerChar(s[1]) == 'v' && LowerChar(s[2]) == 'a' && LowerChar(s[3]) == 'r' && s[4] == ':'
  }

  /** Number of leading characters of s other than `}`. */
  function NonBraceRun(s: string): (n: nat)
    ensures n <= |s|
    ensures forall m :: 0 <= m < n ==> s[m] != '}'
    ensures n < |s| ==> s[n] == '}'
  {
    if s != [] && s[0] != '}' then 1 + NonBraceRun(s[1..]) else 0
  }

  /** Length of the `{var:name}` match at the start of s, or 0. */
  function VarRefLength(s: string): (n: nat)
    ensures n <= |s|
    ensures n > 0 ==> n >= 7 && IsVarOpen(s[..5]) && s[n - 1] == '}' && n - 6 == NonBraceRun(s[5..])
  {
    if |s| >= 5 && IsVarOpen(s[..5]) then
      var m := NonBraceRun(s[5..]);
      if m >= 1 && 5 + m < |s| then 6 + m else 0
    else 0
  }

  function Cons(c: char, rest: seq<Segment>): seq<Segment>
  {
    if rest != [] && rest[0].Lit? then [Lit([c] + rest[0].text)] + rest[1..] else [Lit([c])] + rest
  }

  /** `_parseIncludeFile`: preg_replace of every `{var:name}`, left to right. */
  function Segments(s: string): (r: seq<Segment>)
    decreases |s|
  {
    if s == [] then []
    else
      var n := VarRefLength(s);
      if n > 0 then [VarRef(s[..5], s[5..n - 1])] + Segments(s[n..])
      else Cons(s[0], Segments(s[1..]))
  }

  /** The text a segment stands for. */
  function SegText(g: Segment): string
  {
    match g
    case Lit(t) => t
    case VarRef(o, n) => o + n + "}"
  }

  function Render(segs: seq<Segment>): string
  {
    if segs == [] then [] else SegText(segs[0]) + Render(segs[1..])
  }

  lemma RenderHead(g: Segment, rest: seq<Segment>)
    ensures Render([g] + rest) == SegText(g) + Render(rest)
  {
    assert ([g] + rest)[1..] == rest;
  }

  /** A `{var:name}` match splits s into the reference and the text after it. */
  lemma VarRefSplit(s: string)
    requires VarRefLength(s) > 0
    ensures var n := VarRefLength(s);
      s == s[..5] + s[5..n - 1] + "}" + s[n..] &&
      s[5..n - 1] != [] && NoBrace(s[5..n - 1])
  {
    var n := VarRefLength(s);
    var name := s[5..n - 1];
    forall m | 0 <= m < |name| ensures name[m] != '}' {
      assert name[m] == s[5..][m];
    }
  }

  predicate NoBrace(t: string) { forall i :: 0 <= i < |t| ==> t[i] != '}' }

  /** Every variable reference names something non-empty without a `}`. */
  predicate WellFormedRefs(segs: seq<Segment>)
  {
    forall m :: 0 <= m < |segs| && segs[m].VarRef? ==>
      IsVarOpen(segs[m].open) && segs[m].name != [] && NoBrace(segs[m].name)
  }

  lemma RenderCons(c: char, rest: seq<Segment>)
    ensures Render(Cons(c, rest)) == [c] + Render(rest)
  {
    if rest != [] && rest[0].Lit? {
      assert Cons(c, rest)[1..] == rest[1..];
    } else {
      assert Cons(c, rest)[1..] == rest;
    }
  }

  /** The replacement only marks the references: rendering them back gives the file name. */
  lemma {:induction false} SegmentsRender(s: string)
    ensures Render(Segments(s)) == s
    ensures WellFormedRefs(Segments(s))
    decreases |s|
  {
    if s != [] {
      var n := VarRefLength(s);
      if n > 0 {
        SegmentsRender(s[n..]);
        RefStep(s);
      } else {
        SegmentsRender(s[1..]);
        LitStep(s);
      }
    }
  }

  /** A reference at the front: its text followed by the rest. */
  lemma RefStep(s: string)
    requires VarRefLength(s) > 0
    requires var n := VarRefLength(s); Render(Segments(s[n..])) == s[n..] && WellFormedRefs(Segments(s[n..]))
    ensures Render(Segments(s)) == s && WellFormedRefs(Segments(s))
  {
    var n := VarRefLength(s);
    var g := VarRef(s[..5], s[5..n - 1]);
    assert Segments(s) == [g] + Segments(s[n..]);
    VarRefSplit(s);
    RenderHead(g, Segments(s[n..]));
    VarRefRefs(g, Segments(s[n..]));
  }

  /** A literal character at the front. */
  lemma LitStep(s: string)
    requires s != [] && VarRefLength(s) == 0
    requires Render(Segments(s[1..])) == s[1..] && WellFormedRefs(Segments(s[1..]))
    ensures Render(Segments(s)) == s && WellFormedRefs(Segments(s))
  {
    assert Segments(s) == Cons(s[0], Segments(s[1..]));
    RenderCons(s[0], Segments(s[1..]));
    ConsRefs(s[0], Segments(s[1..]));
    assert [s[0]] + s[1..] == s;
  }

  lemma VarRefRefs(g: Segment, rest: seq<Segment>)
    requires WellFormedRefs(rest)
    requires g.VarRef? && IsVarOpen(g.open) && g.name != [] && NoBrace(g.name)
    ensures WellFormedRefs([g] + rest)
  {
    forall m | 0 <= m < |[g] + rest| && ([g] + rest)[m].VarRef?
      ensures IsVarOpen(([g] + rest)[m].open) && ([g] + rest)[m].name != [] && NoBrace(([g] + rest)[m].name)
    {
      if m > 0 {
        assert ([g] + rest)[m] == rest[m - 1];
      }
    }
  }

  lemma ConsRefs(c: char, rest: seq<Segment>)
    requires WellFormedRefs(rest)
    ensures WellFormedRefs(Cons(c, rest))
  {
  }

  // ---------------------------------------------------------------------
  // Closing tags

  predicate StartsWith(s: string, p: string) { |p| <= |s| && s[..|p|] == p }

  predicate ContainsAt(s: string, p: string, i: nat) { i + |p| <= |s| && s[i..i + |p|] == p }

  predicate Contains(s: string, p: string) { exists i :: 0 <= i <= |s| - |p| && ContainsAt(s, p, i) }

  /** `$` before the end or one final newline. */
  predicate EndsWith(s: string, p: string)
  {
    (|p| <= |s| && s[|s| - |p|..] == p) ||
    (|s| >= 1 && s[|s| - 1] == '\n' && |p| <= |s| - 1 && s[|s| - 1 - |p|..|s| - 1] == p)
  }

  /** preg_match('/^<\/|{\/|<!--\/$/s', $openclose): three alternatives,
      only the first anchored at the start, only the last at the end. */
  predicate IsCloser(oc: string)
  {
    StartsWith(oc, "</") || Contains(oc, "{/") || EndsWith(oc, "<!--/")
  }

  /** The openers the scanner produces. */
  predicate ScannerOpener(oc: string)
  {
    oc in {"<", "</", "{", "{/", "<!--", "<!--/"}
  }

  /** Of the scanner's openers exactly `</`, `{/` and `<!--/` close. */
  lemma CloserOpeners(oc: string)
    requires ScannerOpener(oc)
    ensures IsCloser(oc) <==> oc in {"</", "{/", "<!--/"}
  {
    if oc == "</" {
      assert StartsWith(oc, "</");
    } else if oc == "{/" {
      assert ContainsAt(oc, "{/", 0);
    } else if oc == "<!--/" {
      assert oc[|oc| - 5..] == "<!--/";
    } else {
      assert oc[|oc| - 1] != '/' && oc[|oc| - 1] != '\n';
      assert |oc| < 2 || oc[1] != '/';
      forall i | 0 <= i <= |oc| - 2 ensures !ContainsAt(oc, "{/", i) {
        assert oc[i + 1] != '/';
      }
      assert !EndsWith(oc, "<!--/");
    }
  }

  /** preg_match('/^end[if|loop|unless|comment]$/', $tag): `end` and ONE
      character of the class {i, f, |, l, o, p, u, n, s, c, m, e, t}. */
  predicate IsEndKeyword(t: string)
  {
    var b := if |t| >= 1 && t[|t| - 1] == '\n' then t[..|t| - 1] else t;
    |b| == 4 && b[..3] == "end" && b[3] in "if|loopunlesscomment"
  }

  /** No keyword the scanner yields passes the end test: `endif`, `endloop`,
      `endunless` and `endcomment` are longer than four characters. */
  lemma EndKeywordsNeverMatch(k: Keyword)
    ensures !IsEndKeyword(KeywordText(k))
  {
    var t := KeywordText(k);
    assert t[|t| - 1] != '\n';
    assert |t| != 4 || t[1] != 'n';
  }

  /** array_pop: a no-op on an empty stack. */
  function Pop(stack: seq<string>): (r: seq<string>)
    ensures stack == [] ==> r == []
    ensures stack != [] ==> r + [stack[|stack| - 1]] == stack
  {
    if stack == [] then [] else stack[..|stack| - 1]
  }

  // ---------------------------------------------------------------------
  // Instructions and `_parseTag`

  /** The meaning of one compiled snippet. */
  datatype Instr =
    | PrintVar(read: Read, escape: Option<Escape>, format: Option<Format>, onUnknown: OnUnknown)
    | If(cond: Cond)
    | Unless(cond: Cond)
    | ElseIf(cond: Cond)
    | Else
    | BeginLoop(path: seq<LoopStep>, depth: nat)
    | Close
    | CommentOpen
    | CommentClose
    | Include(file: seq<Segment>)
    | Nothing

  /** A tag compiles to an instruction, kills the script (STRICT, unknown
      tag), or throws a TypeError (a required attribute is missing or
      UNKNOWNS is null). */
  datatype TagResult = Emit(instr: Instr) | Fatal | Thrown

  /** `$var` and `$namespace` after the name split: the name lower-cased under
      CASELESS, then split when it has the `prefix.name` form. */
  function NameParts(o: Options, name: Option<string>): (Option<string>, Option<string>)
  {
    match name
    case None => (None, None)
    case Some(n) =>
      var v := if o.caseless then ToLower(n) else n;
      match SplitName(v)
      case Some((p, id)) => (Some(id), Some(p))
      case None => (Some(v), None)
  }

  /** `_parseVar($wholetag, $var, $escape, $format, $namespace)`. */
  function VarInstr(o: Options, functions: set<string>, stack: seq<string>, wholetag: string,
                    name: string, escape: Option<string>, format: Option<string>, ns: Option<string>): Outcome<Instr>
  {
    match UnknownAction(o, wholetag)
    case TypeError => TypeError
    case Ok(u) => Ok(PrintVar(Resolve(o, stack, name, ns), EscapeOf(escape), FormatOf(format, functions), u))
  }

  /** `_parseTag($args)`: the compiled instruction and the namespace stack after it. */
  function TagSpec(o: Options, functions: set<string>, stack: seq<string>, args: TagArgs): (TagResult, seq<string>)
  {
    var tag := KeywordText(args.keyword);
    if tag == "else" then (Emit(Else), stack)
    else if IsCloser(args.openclose) || IsEndKeyword(tag) then
      var stack' := if tag == "loop" || tag == "endloop" then Pop(stack) else stack;
      (Emit(if tag == "comment" || tag == "endcomment" then CommentClose else Close), stack')
    else
      var at := Arrange(args.keyword, args.pairs);
      var (v, ns) := NameParts(o, at.name);
      if tag == "var" then
        if v.None? then (Thrown, stack)
        else
          match VarInstr(o, functions, stack, args.wholetag, v.value, EscapeArg(o, at.escape), at.format, ns)
          case TypeError => (Thrown, stack)
          case Ok(i) => (Emit(i), stack)
      else if tag == "if" || tag == "unless" || tag == "elseif" then
        if v.None? then (Thrown, stack)
        else
          var c := IfCond(o, stack, v.value, at.value, at.op, ns);
          (Emit(if tag == "if" then If(c) else if tag == "unless" then Unless(c) else ElseIf(c)), stack)
      else if tag == "loop" then
        var name := if v.Some? then v.value else "";
        var stack' := stack + [name];
        (Emit(BeginLoop(LoopPath(stack', name, 0), |stack'| - 1)), stack')
      else if tag == "comment" then
        (Emit(if EmptyStr(v) then CommentOpen else Nothing), stack)
      else if tag == "include" then
        if at.file.None? then (Thrown, stack)
        else (Emit(Include(Segments(at.file.value))), stack)
      else if o.strict then (Fatal, stack)
      else (Emit(Nothing), stack)
  }

  // ---------------------------------------------------------------------
  // What `_parseTag` promises

  /** `else` always flips the branch, whatever its opener and attributes. */
  lemma ElseAlwaysFlips(o: Options, functions: set<string>, stack: seq<string>, args: TagArgs)
    requires args.keyword == KElse
    ensures TagSpec(o, functions, stack, args) == (Emit(Else), stack)
  {
  }

  /** A closing opener closes the block: a comment close for `comment`, a
      plain close otherwise; only a closing `loop` pops the namespace. */
  lemma CloserCloses(o: Options, functions: set<string>, stack: seq<string>, args: TagArgs)
    requires args.keyword != KElse && IsCloser(args.openclose)
    ensures TagSpec(o, functions, stack, args).0 == Emit(if args.keyword == KComment || args.keyword == KEndComment then CommentClose else Close)
    ensures TagSpec(o, functions, stack, args).1 == if args.keyword == KLoop || args.keyword == KEndLoop then Pop(stack) else stack
  {
  }

  /** `endif`, `endloop`, `endunless` and `endcomment` with an opening opener
      never close anything: they are dropped, or fatal under STRICT. */
  lemma EndKeywordsDropped(o: Options, functions: set<string>, stack: seq<string>, args: TagArgs)
    requires args.keyword in {KEndIf, KEndLoop, KEndUnless, KEndComment} && !IsCloser(args.openclose)
    ensures TagSpec(o, functions, stack, args) == (if o.strict then Fatal else Emit(Nothing), stack)
  {
    EndKeywordsNeverMatch(args.keyword);
  }

  /** An opening `loop` pushes its name; its depth is the old stack height
      and its row-count path indexes every enclosing level but those of its
      own name. */
  lemma LoopPushes(o: Options, functions: set<string>, stack: seq<string>, args: TagArgs)
    requires args.keyword == KLoop && !IsCloser(args.openclose)
    ensures var (r, stack') := TagSpec(o, functions, stack, args);
      |stack'| == |stack| + 1 && stack'[..|stack|] == stack &&
      r.Emit? && r.instr.BeginLoop? && r.instr.depth == |stack| &&
      |r.instr.path| == |stack'| &&
      (forall m :: 0 <= m < |stack'| ==> r.instr.path[m] == LoopStep(stack'[m], stack'[m] != stack'[|stack|]))
  {
    EndKeywordsNeverMatch(args.keyword);
  }

  /** Only `loop` opens and only a closing `loop` pops: every other tag
      leaves the namespace as it is. */
  lemma StackUntouched(o: Options, functions: set<string>, stack: seq<string>, args: TagArgs)
    requires args.keyword != KLoop && args.keyword != KEndLoop
    ensures TagSpec(o, functions, stack, args).1 == stack
  {
  }

  /** A var, if, unless or elseif tag without a name throws. */
  lemma NamelessThrows(o: Options, functions: set<string>, stack: seq<string>, args: TagArgs)
    requires args.keyword in {KVar, KIf, KUnless, KElseIf} && !IsCloser(args.openclose)
    requires Arrange(args.keyword, args.pairs).name == None
    ensures TagSpec(o, functions, stack, args).0 == Thrown
  {
    EndKeywordsNeverMatch(args.keyword);
  }
}
