/**
 * The vlibTemplate object: the state its public methods change in place
 * (`_vars`, `_arrvars`, the loop builder, `_unknowns`, the template file
 * fields) and the tag compiler's namespace stack. Each method is proved to
 * leave the object in the state the functions of `Storage`, `LoopBuild`
 * and `Compile` describe, and to keep the object's invariant.
 */
module Template {
  import opened Php
  import opened PhpArrays
  import opened Config
  import opened LoopBuild
  import opened Compile
  import opened Runtime
  import opened Storage

  class VlibTemplate {
    var options: Options
    var tmplFileName: Option<string>  // _tmplfilename
    var tmplFile: Option<string>      // _tmplfile
    var tmplFileP: Option<string>     // _tmplfilep
    var tmplOutput: Option<string>    // _tmploutput
    var vars: Assoc<Value>            // _vars
    var arrvars: Assoc<Value>         // _arrvars
    var namespace: seq<string>        // _namespace
    var parsed: bool                  // _parsed
    var unknowns: seq<string>         // _unknowns
    var currLoopName: Option<seq<string>>        // _currloopname
    var currLoop: seq<(string, seq<Value>)>      // _currloop

    /** The object's invariant: globals are clean identifiers bound to
        non-null values, both tables are PHP arrays, the loop builder is
        consistent and no unknown is listed twice. */
    ghost predicate Valid()
      reads this
    {
      GoodVars(options, vars) && Distinct(vars) && Distinct(arrvars) &&
      GoodBuilder(Builder(currLoopName, currLoop)) && NoDups(unknowns)
    }

    /** The two arrays the compiled template reads. */
    function Tables(): Store
      reads this
    {
      Store(vars, arrvars)
    }

    /** The three-step loop builder. */
    function Loops(): Builder
      reads this
    {
      Builder(currLoopName, currLoop)
    }

    /** A new object with the given options and the declared initial state. */
    constructor(opts: Options)
      ensures Valid()
      ensures options == opts && vars == [] && arrvars == [] && namespace == [] && unknowns == []
      ensures currLoopName == None && currLoop == [] && !parsed
      ensures tmplFileName == None && tmplFile == None && tmplFileP == None && tmplOutput == None
    {
      options := opts;
      tmplFileName := None;
      tmplFile := None;
      tmplFileP := None;
      tmplOutput := None;
      vars := [];
      arrvars := [];
      namespace := [];
      parsed := false;
      unknowns := [];
      currLoopName := None;
      currLoop := [];
    }

    // -------------------------------------------------------------------
    // newTemplate

    /** `newTemplate($tmplfile)`, given what the file search found: an empty
        result kills the script; otherwise the parse state is cleared and
        the found path recorded. Variables and loops are kept. */
    method NewTemplate(found: Option<string>) returns (killed: bool)
      requires Valid()
      modifies this`tmplFileName, this`tmplFile, this`tmplFileP, this`tmplOutput, this`parsed, this`unknowns
      ensures Valid()
      ensures killed <==> EmptyStr(found)
      ensures killed ==> unchanged(this)
      ensures !killed ==> tmplFileName == found && tmplFile == None && tmplFileP == None &&
                          tmplOutput == None && !parsed && unknowns == []
    {
      if EmptyStr(found) {
        return true;
      }
      tmplFile := None;
      tmplFileP := None;
      tmplOutput := None;
      parsed := false;
      unknowns := [];
      tmplFileName := found;
      return false;
    }

    // -------------------------------------------------------------------
    // Global variables

    /** `setVar($k, $v)`. */
    method SetVar(k: Value, v: Value) returns (r: Outcome<bool>)
      requires Valid()
      modifies this`vars
      ensures Valid()
      ensures (r, vars) == Storage.SetVar(options, old(vars), k, v)
    {
      match k
      case Arr(es) =>
        var thrown := StoreEntries(es);
        return if thrown then TypeError else Ok(true);
      case Str(name) =>
        var ok := StoreVar(name, v);
        return Ok(ok);
      case _ =>
        return TypeError;
    }

    /** `setVar($k, $v)` with a string `$k`. */
    method StoreVar(k: string, v: Value) returns (ok: bool)
      requires GoodVars(options, vars) && Distinct(vars)
      modifies this`vars
      ensures GoodVars(options, vars) && Distinct(vars)
      ensures (ok, vars) == AssignVar(options, old(vars), k, v)
    {
      if MatchesIdent(k) && v != Null {
        var name := if options.caseless then ToLower(k) else k;
        AssignVarRule(options, vars, k, v);
        SetDistinct(vars, StrKey(Trim(name)), v);
        vars := Set(vars, StrKey(Trim(name)), v);
        return true;
      }
      return false;
    }

    /** The foreach of `setVar($array)`; `thrown` when trim met an integer key. */
    method StoreEntries(es: Assoc<Value>) returns (thrown: bool)
      requires GoodVars(options, vars) && Distinct(vars)
      modifies this`vars
      ensures GoodVars(options, vars) && Distinct(vars)
      ensures Applied(vars, thrown) == AssignEntries(options, old(vars), es, 0)
    {
      var i := 0;
      while i < |es|
        invariant 0 <= i <= |es|
        invariant GoodVars(options, vars) && Distinct(vars)
        invariant AssignEntries(options, vars, es, i) == AssignEntries(options, old(vars), es, 0)
      {
        var (key, value) := es[i];
        if key.IntKey? {
          return true;
        }
        StoreEntry(key.s, value);
        i := i + 1;
      }
      return false;
    }

    /** One entry of `setVar($array)`. */
    method StoreEntry(key: string, value: Value)
      requires GoodVars(options, vars) && Distinct(vars)
      modifies this`vars
      ensures GoodVars(options, vars) && Distinct(vars)
      ensures vars == AssignEntry(options, old(vars), key, value)
    {
      var name := if options.caseless then ToLower(Trim(key)) else Trim(key);
      if MatchesIdent(name) && value != Null {
        EntryKeyIdent(options, key);
        SetEntries(vars, StrKey(name), value);
        SetDistinct(vars, StrKey(name), value);
        vars := Set(vars, StrKey(name), value);
      }
    }

    /** `unsetVar(...$names)`: always true. */
    method UnsetVar(names: seq<string>) returns (r: bool)
      requires Valid()
      modifies this`vars
      ensures Valid()
      ensures r && vars == UnsetVars(options, old(vars), names)
    {
      var i := 0;
      while i < |names|
        invariant 0 <= i <= |names|
        invariant Valid()
        invariant UnsetVars(options, vars, names[i..]) == UnsetVars(options, old(vars), names)
      {
        var n := if options.caseless then ToLower(names[i]) else names[i];
        assert names[i..][1..] == names[i + 1..];
        UnsetOneGood(options, vars, names[i]);
        ghost var next := UnsetOne(options, vars, names[i]);
        if MatchesIdent(n) {
          vars := Unset(vars, StrKey(n));
        }
        assert vars == next;
        i := i + 1;
      }
      return true;
    }

    // -------------------------------------------------------------------
    // Loops

    /** `_arrayBuild($arr)` on the object's options. */
    method ArrayBuild(arr: Assoc<Value>) returns (r: Build)
      ensures r == BuildLoop(options, arr)
      decreases Arr(arr), 2
    {
      if arr == [] {
        return Empty;
      }
      var rows: Assoc<Value> := [];
      var i := 0;
      while i < |arr|
        invariant 0 <= i <= |arr| && RowsShape(rows, i)
        invariant BuildRows(options, arr, i, rows) == BuildLoop(options, arr)
      {
        if !arr[i].1.Arr? {
          return NotLoop;
        }
        var b := RebuildEntries(arr[i].1.entries);
        if !b.Built? {
          return b;
        }
        var row := AddContext(b.entries, i, |arr|);
        rows := rows + [(IntKey(i), Arr(row))];
        i := i + 1;
      }
      return Built(rows);
    }

    /** The foreach over one row of `_arrayBuild`: each entry is unset and
        assigned again under its new key, nested arrays rebuilt first. */
    method RebuildEntries(snap: Assoc<Value>) returns (r: Build)
      ensures r == RebuildRow(options, snap, 0, snap)
      decreases Arr(snap), 1
    {
      var cur := snap;
      var j := 0;
      while j < |snap|
        invariant 0 <= j <= |snap|
        invariant RebuildRow(options, snap, j, cur) == RebuildRow(options, snap, 0, snap)
      {
        var b := RebuildEntry(snap, j, cur);
        if !b.Built? {
          return b;
        }
        cur := b.entries;
        j := j + 1;
      }
      return Built(cur);
    }

    /** Entry j of the row: unset, then assigned again under its new key. */
    method RebuildEntry(snap: Assoc<Value>, j: nat, cur: Assoc<Value>) returns (r: Build)
      requires j < |snap|
      ensures !r.Empty?
      ensures RebuildRow(options, snap, j, cur) == if r.Built? then RebuildRow(options, snap, j + 1, r.entries) else r
      decreases Arr(snap), 0
    {
      var (k, v) := snap[j];
      var row := Unset(cur, k);
      var k' := NewRowKey(k);
      if k'.TypeError? {
        return Build.Thrown;
      }
      if v.Arr? {
        assert Arr(v.entries) == snap[j].1;
        var b := ArrayBuild(v.entries);
        if b.NotLoop? || b.Thrown? {
          return b;
        }
        return Built(Set(row, k'.value, if b.Empty? then Bool(true) else Arr(b.entries)));
      }
      return Built(Set(row, k'.value, v));
    }

    /** The key rewrite of `_arrayBuild`: strtolower under CASELESS, then
        `_` in front of an all-digit key. */
    method NewRowKey(k: Key) returns (r: Outcome<Key>)
      ensures r == RenameKey(options.caseless, k)
    {
      var k' := k;
      if options.caseless {
        if k.IntKey? {
          return TypeError;
        }
        k' := StrKey(ToLower(k.s));
      }
      if MatchesDigits(KeyText(k')) {
        k' := StrKey("_" + KeyText(k'));
      }
      return Ok(k');
    }

    /** The LOOP_CONTEXT_VARS entries of row i of n. */
    method AddContext(row: Assoc<Value>, i: nat, n: nat) returns (r: Assoc<Value>)
      ensures r == Decorate(options, row, i, n)
    {
      r := row;
      if options.loopContextVars {
        var c := options.caseless;
        if i == 0 { r := Set(r, FirstKey(c), Bool(true)); }
        if i + 1 == n { r := Set(r, LastKey(c), Bool(true)); }
        if i != 0 && i + 1 < n { r := Set(r, InnerKey(c), Bool(true)); }
        if (i + 1) % 2 == 0 { r := Set(r, EvenKey(c), Bool(true)); }
        if (i + 1) % 2 != 0 { r := Set(r, OddKey(c), Bool(true)); }
        r := Set(r, RownumKey(c), Int(i + 1));
      }
    }

    /** `setLoop($k, $v)`: returns true unless `_arrayBuild` throws. */
    method SetLoop(k: string, v: Value) returns (thrown: bool)
      requires Valid()
      modifies this`vars, this`arrvars
      ensures Valid()
      ensures (thrown, Tables()) == Storage.SetLoop(options, old(Tables()), k, v)
    {
      if !(v.Arr? && MatchesIdent(k)) {
        return false;
      }
      var key := if options.caseless then ToLower(Trim(k)) else Trim(k);
      SetDistinct(arrvars, StrKey(key), Arr([]));
      arrvars := Set(arrvars, StrKey(key), Arr([]));
      if options.setLoopVar && v.entries != [] {
        var _ := SetVar(Str(key), Int(1));
      }
      var b := ArrayBuild(v.entries);
      if b.Thrown? {
        return true;
      }
      SetDistinct(arrvars, StrKey(key), Stored(b));
      arrvars := Set(arrvars, StrKey(key), Stored(b));
      return false;
    }

    /** `unsetLoop(...$names)`: false without arguments. */
    method UnsetLoop(names: seq<string>) returns (r: bool)
      requires Valid()
      modifies this`arrvars
      ensures Valid()
      ensures (r, arrvars) == UnsetLoops(options, old(arrvars), names)
    {
      if |names| < 1 {
        return false;
      }
      var i := 0;
      while i < |names|
        invariant 0 <= i <= |names|
        invariant Valid()
        invariant UnsetVars(options, arrvars, names[i..]) == UnsetVars(options, old(arrvars), names)
      {
        var n := if options.caseless then ToLower(names[i]) else names[i];
        assert names[i..][1..] == names[i + 1..];
        if MatchesIdent(n) {
          arrvars := Unset(arrvars, StrKey(n));
        }
        i := i + 1;
      }
      return true;
    }

    // -------------------------------------------------------------------
    // The three-step loop builder

    /** `newLoop($loopname)`. */
    method NewLoop(name: string) returns (r: bool)
      requires Valid()
      modifies this`currLoopName, this`currLoop
      ensures Valid()
      ensures (r, Loops()) == Storage.NewLoop(old(Loops()), name)
    {
      NewLoopGood(Loops(), name);
      if !MatchesIdent(name) {
        return false;
      }
      var names := if currLoopName.None? then [] else currLoopName.value;
      currLoopName := Some(if name in names then names else names + [name]);
      currLoop := PutLoop(currLoop, name, []);
      return true;
    }

    /** The loop a builder call addresses (`end($this->_currloopname)` for
        an empty name). */
    method TargetLoop(loopname: Option<string>) returns (t: Outcome<Option<string>>)
      ensures t == Target(Loops(), loopname)
    {
      if !EmptyStr(loopname) {
        return Ok(loopname);
      }
      match currLoopName
      case None => return TypeError;
      case Some(names) =>
        if names == [] {
          return Ok(None);
        }
        return Ok(Some(names[|names| - 1]));
    }

    /** `addRow($row, $loopname)`. */
    method AddRow(row: Value, loopname: Option<string>) returns (r: Outcome<bool>)
      requires Valid()
      modifies this`currLoop
      ensures Valid()
      ensures (r, Loops()) == Storage.AddRow(old(Loops()), row, loopname)
    {
      AddRowGood(Loops(), row, loopname);
      var t := TargetLoop(loopname);
      if t.TypeError? {
        return TypeError;
      }
      var f := Found(Loops(), t.value);
      if f.None? || !row.Arr? {
        return Ok(false);
      }
      currLoop := currLoop[f.value := (currLoop[f.value].0, currLoop[f.value].1 + [row])];
      return Ok(true);
    }

    /** `getLoop($loopname)`. */
    method GetLoop(loopname: Option<string>) returns (r: Outcome<Value>)
      requires Valid()
      modifies this`currLoopName, this`currLoop
      ensures Valid()
      ensures (r, Loops()) == Storage.GetLoop(old(Loops()), loopname)
    {
      GetLoopGood(Loops(), loopname);
      var t := TargetLoop(loopname);
      if t.TypeError? {
        return TypeError;
      }
      var f := Found(Loops(), t.value);
      if f.None? {
        return Ok(Bool(false));
      }
      var rows := RowsArray(currLoop[f.value].1);
      currLoopName := DropName(currLoopName, t.value.value);
      currLoop := DropLoop(currLoop, t.value.value);
      return Ok(Arr(rows));
    }

    /** `addLoop($loopname)`: `thrown` when a setLoop inside it threw. */
    method AddLoop(loopname: Option<string>) returns (r: bool, thrown: bool)
      requires Valid()
      modifies this`vars, this`arrvars, this`currLoopName, this`currLoop
      ensures Valid()
      ensures var c := Storage.AddLoop(options, old(Tables()), old(Loops()), loopname);
        r == c.ok && thrown == c.thrown && Tables() == c.st && Loops() == c.b
    {
      if loopname.None? || loopname == Some("") {
        assert Storage.AddLoop(options, Tables(), Loops(), loopname) == Storage.AddLoop(options, Tables(), Loops(), None);
        r, thrown := AddAllLoops();
      } else {
        r, thrown := AddNamedLoop(loopname.value);
      }
    }

    /** `addLoop()` without a name: commits every loop being built. */
    method AddAllLoops() returns (r: bool, thrown: bool)
      requires Valid()
      modifies this`vars, this`arrvars, this`currLoopName, this`currLoop
      ensures Valid()
      ensures var c := Storage.AddLoop(options, old(Tables()), old(Loops()), None);
        r == c.ok && thrown == c.thrown && Tables() == c.st && Loops() == c.b
    {
      AddLoopGood(options, Tables(), Loops(), None);
      if currLoop == [] {
        return false, false;
      }
      AddLoopAllUnfold(options, Tables(), Loops());
      thrown := CommitAll();
      if thrown {
        return false, true;
      }
      currLoopName := Some([]);
      return true, false;
    }

    /** `addLoop($loopname)` with a name: commits that loop only. */
    method AddNamedLoop(name: string) returns (r: bool, thrown: bool)
      requires Valid() && name != ""
      modifies this`vars, this`arrvars, this`currLoopName, this`currLoop
      ensures Valid()
      ensures var c := Storage.AddLoop(options, old(Tables()), old(Loops()), Some(name));
        r == c.ok && thrown == c.thrown && Tables() == c.st && Loops() == c.b
    {
      AddLoopGood(options, Tables(), Loops(), Some(name));
      var f := Found(Loops(), Some(name));
      if f.None? {
        return false, false;
      }
      var failed := SetLoop(name, Arr(RowsArray(currLoop[f.value].1)));
      if failed {
        return false, true;
      }
      currLoopName := DropName(currLoopName, name);
      currLoop := DropLoop(currLoop, name);
      return true, false;
    }

    /** The foreach of `addLoop()`: every loop being built goes to setLoop
        and is then unset; a throw leaves the rest in place. */
    method CommitAll() returns (thrown: bool)
      requires Valid()
      modifies this`vars, this`arrvars, this`currLoop
      ensures Valid()
      ensures var (t, st, j) := CommitFrom(options, old(Tables()), old(currLoop), 0);
        thrown == t && Tables() == st && currLoop == old(currLoop)[j..]
    {
      ghost var st0 := Tables();
      ghost var b0 := Loops();
      var loops := currLoop;
      var i := 0;
      while i < |loops|
        invariant 0 <= i <= |loops|
        invariant Valid()
        invariant currLoop == loops[i..]
        invariant CommitFrom(options, Tables(), loops, i) == CommitFrom(options, st0, loops, 0)
      {
        SuffixGood(b0, i + 1);
        var failed := SetLoop(loops[i].0, Arr(RowsArray(loops[i].1)));
        if failed {
          return true;
        }
        currLoop := DropFirst(loops, i);
        i := i + 1;
      }
      return false;
    }

    /** `unset($this->_currloop[$k])` for the loop the foreach is at. */
    method DropFirst(loops: seq<(string, seq<Value>)>, i: nat) returns (rest: seq<(string, seq<Value>)>)
      requires i < |loops| && currLoop == loops[i..]
      ensures rest == DropLoop(currLoop, loops[i].0) == loops[i + 1..]
    {
      assert FindLoop(currLoop, loops[i].0) == Some(0);
      assert currLoop[1..] == loops[i + 1..];
      rest := DropLoop(currLoop, loops[i].0);
    }

    // -------------------------------------------------------------------
    // Resetting

    /** `clearVars()`. */
    method ClearVars() returns (r: bool)
      modifies this`vars
      ensures r && vars == []
    {
      vars := [];
      return true;
    }

    /** `clearLoops()`: the loops and the builder. */
    method ClearLoops() returns (r: bool)
      modifies this`arrvars, this`currLoopName, this`currLoop
      ensures r && arrvars == [] && currLoopName == None && currLoop == []
    {
      arrvars := [];
      currLoopName := None;
      currLoop := [];
      return true;
    }

    /** `clearAll()`. */
    method ClearAll() returns (r: bool)
      modifies this`vars, this`arrvars, this`currLoopName, this`currLoop
      ensures r && vars == [] && arrvars == [] && currLoopName == None && currLoop == []
    {
      var _ := ClearVars();
      var _ := ClearLoops();
      return true;
    }

    /** `reset()`: everything but the options and the namespace stack. */
    method Reset() returns (r: bool)
      modifies this`vars, this`arrvars, this`currLoopName, this`currLoop, this`tmplFileName,
               this`tmplFile, this`tmplFileP, this`tmplOutput, this`parsed, this`unknowns
      ensures Valid()
      ensures r && vars == [] && arrvars == [] && currLoopName == None && currLoop == []
      ensures tmplFileName == None && tmplFile == None && tmplFileP == None && tmplOutput == None
      ensures !parsed && unknowns == []
    {
      var _ := ClearVars();
      var _ := ClearLoops();
      tmplFileName := None;
      tmplFile := None;
      tmplFileP := None;
      tmplOutput := None;
      parsed := false;
      unknowns := [];
      currLoopName := None;
      currLoop := [];
      return true;
    }

    // -------------------------------------------------------------------
    // Unknown variables

    /** `unknownsExist()`. */
    function UnknownsExist(): bool
      reads this
    {
      unknowns != []
    }

    /** `_setUnknown($var)`: afterwards the name is listed, once. */
    method SetUnknown(name: string)
      requires Valid()
      modifies this`unknowns
      ensures Valid()
      ensures unknowns == RecordUnknown(old(unknowns), name)
      ensures UnknownsExist() && name in unknowns
    {
      if name !in unknowns {
        unknowns := unknowns + [name];
      }
    }

    /** `setUnknowns($arg)`. */
    method SetUnknowns(arg: string) returns (r: bool)
      requires Valid()
      modifies this`options
      ensures Valid()
      ensures (r, options) == Storage.SetUnknowns(old(options), arg)
    {
      var a := ToLower(Trim(arg));
      if UnknownsPattern(a) {
        options := options.(unknowns := Some(a));
        return true;
      }
      return false;
    }

    // -------------------------------------------------------------------
    // The tag compiler

    /** The for loop over `_namespace` that `_parseIf` and `_parseVar`
        share: the access path of a name with prefix q. */
    method ScopeWalk(q: string) returns (steps: seq<Step>)
      ensures steps == Walk(namespace, q, 0)
    {
      steps := [];
      var i := 0;
      while i < |namespace|
        invariant 0 <= i <= |namespace|
        invariant steps + Walk(namespace, q, i) == Walk(namespace, q, 0)
      {
        if namespace[i] == q || (i + 1 == |namespace| && !EmptyStr(Some(q))) {
          steps := steps + [Step(q, i)];
          return;
        }
        steps := steps + [Step(namespace[i], i)];
        i := i + 1;
      }
    }

    /** The read both `_parseIf` and `_parseVar` compile for a name. */
    method ResolveName(varname: string, ns: Option<string>) returns (read: Read)
      ensures read == Resolve(options, namespace, varname, ns)
    {
      var q := if ns.None? || ns.value == [] then "" else ns.value[..|ns.value| - 1];
      if |namespace| == 0 || q == "global" {
        return Read(Global, varname, false);
      }
      var steps := ScopeWalk(q);
      return Read(Scoped(steps), varname, options.globalVars && EmptyStr(Some(q)));
    }

    /** `_parseIf($varname, $value, $op, $namespace)`. */
    method ParseIf(varname: string, value: Option<string>, op: Option<string>, ns: Option<string>) returns (c: Cond)
      ensures c == IfCond(options, namespace, varname, value, op, ns)
    {
      var test := Truth;
      if value.Some? {
        var o: Option<string>;
        if !EmptyStr(op) {
          o := if op.value in IfOps then op else None;
        } else {
          o := Some("==");
        }
        test := Compare(o, if IsNumeric(value.value) then Bare(value.value) else Quoted(value.value));
      }
      var read := ResolveName(varname, ns);
      return Cond(read, test);
    }

    /** `_parseVar($wholetag, $varname, $escape, $format, $namespace)`;
        `functions` holds the lower-cased names of the defined functions. */
    method ParseVar(wholetag: string, varname: string, escape: Option<string>, format: Option<string>,
                    ns: Option<string>, functions: set<string>) returns (r: Outcome<Instr>)
      ensures r == VarInstr(options, functions, namespace, wholetag, varname, escape, format, ns)
    {
      var read := ResolveName(varname, ns);
      var esc := if !EmptyStr(escape) then EscapeTag(escape.value) else None;
      var fmt: Option<Format> := None;
      if !EmptyStr(format) {
        if FormatTag(format.value).Some? {
          fmt := FormatTag(format.value);
        } else if ToLower(format.value) in functions {
          fmt := Some(FCall(format.value));
        }
      }
      var u := UnknownAction(options, wholetag);
      if u.TypeError? {
        return TypeError;
      }
      return Ok(PrintVar(read, esc, fmt, u.value));
    }

    /** `_parseLoop($varname)`: pushes the name and opens a for loop over
        the rows found along the pushed namespace. */
    method ParseLoop(varname: string) returns (instr: Instr)
      modifies this`namespace
      ensures namespace == old(namespace) + [varname]
      ensures instr == BeginLoop(LoopPath(namespace, varname, 0), |namespace| - 1)
    {
      namespace := namespace + [varname];
      var depth := |namespace| - 1;
      var path: seq<LoopStep> := [];
      var i := 0;
      while i < |namespace|
        invariant 0 <= i <= |namespace|
        invariant path + LoopPath(namespace, varname, i) == LoopPath(namespace, varname, 0)
      {
        path := path + [LoopStep(namespace[i], namespace[i] != varname)];
        i := i + 1;
      }
      return BeginLoop(path, depth);
    }

    /** The attribute loop of `_parseTag`. */
    method ArrangeAttributes(tag: Keyword, pairs: seq<AttrPair>) returns (a: Attrs)
      ensures a == Arrange(tag, pairs)
    {
      a := NoAttrs;
      var i := 0;
      while i < |pairs|
        invariant 0 <= i <= |pairs|
        invariant ArrangeFrom(tag, pairs, i, a) == Arrange(tag, pairs)
      {
        if StopsArrangement(pairs[i]) {
          return;
        }
        a := Assign(a, PairKey(tag, pairs[i]), pairs[i].1);
        i := i + 1;
      }
    }

    /** `_parseTag($args)`: the compiled instruction; only loop tags change
        the namespace stack. */
    method ParseTag(functions: set<string>, args: TagArgs) returns (r: TagResult)
      modifies this`namespace
      ensures (r, namespace) == TagSpec(options, functions, old(namespace), args)
    {
      var tag := KeywordText(args.keyword);
      if tag == "else" {
        return Emit(Else);
      }
      if IsCloser(args.openclose) || IsEndKeyword(tag) {
        if tag == "loop" || tag == "endloop" {
          namespace := Pop(namespace);
        }
        return Emit(if tag == "comment" || tag == "endcomment" then CommentClose else Close);
      }
      r := ParseOpenTag(functions, args);
    }

    /** `$var` and `$namespace` of `_parseTag`: the name, lower-cased under
        CASELESS, split when it has the `prefix.name` form. */
    method TagName(name: Option<string>) returns (v: Option<string>, ns: Option<string>)
      ensures (v, ns) == NameParts(options, name)
    {
      v, ns := None, None;
      if name.Some? {
        var n := if options.caseless then ToLower(name.value) else name.value;
        v := Some(n);
        var split := SplitName(n);
        if split.Some? {
          v := Some(split.value.1);
          ns := Some(split.value.0);
        }
      }
    }

    /** `_parseTag` for a tag that neither is `else` nor closes a block. */
    method ParseOpenTag(functions: set<string>, args: TagArgs) returns (r: TagResult)
      requires KeywordText(args.keyword) != "else"
      requires !IsCloser(args.openclose) && !IsEndKeyword(KeywordText(args.keyword))
      modifies this`namespace
      ensures (r, namespace) == TagSpec(options, functions, old(namespace), args)
    {
      var tag := KeywordText(args.keyword);
      var at := ArrangeAttributes(args.keyword, args.pairs);
      var v, ns := TagName(at.name);
      assert (v, ns) == NameParts(options, Arrange(args.keyword, args.pairs).name);
      if tag == "var" {
        r := CompileVar(functions, args.wholetag, at, v, ns);
      } else if tag == "if" || tag == "unless" || tag == "elseif" {
        if v.None? {
          return TagResult.Thrown;
        }
        var c := ParseIf(v.value, at.value, at.op, ns);
        return Emit(if tag == "if" then If(c) else if tag == "unless" then Unless(c) else ElseIf(c));
      } else if tag == "loop" {
        var instr := ParseLoop(if v.Some? then v.value else "");
        return Emit(instr);
      } else if tag == "comment" {
        return Emit(if EmptyStr(v) then CommentOpen else Nothing);
      } else if tag == "include" {
        if at.file.None? {
          return TagResult.Thrown;
        }
        return Emit(Include(Segments(at.file.value)));
      } else if options.strict {
        return Fatal;
      } else {
        return Emit(Nothing);
      }
    }

    /** The `var` case of `_parseTag`: a TypeError without a name. */
    method CompileVar(functions: set<string>, wholetag: string, at: Attrs, v: Option<string>, ns: Option<string>)
      returns (r: TagResult)
      ensures r == if v.None? then TagResult.Thrown else
        match VarInstr(options, functions, namespace, wholetag, v.value, EscapeArg(options, at.escape), at.format, ns)
        case TypeError => TagResult.Thrown
        case Ok(i) => Emit(i)
    {
      if v.None? {
        return TagResult.Thrown;
      }
      var escape := EscapeArg(options, at.escape);
      var i := ParseVar(wholetag, v.value, escape, at.format, ns, functions);
      if i.TypeError? {
        return TagResult.Thrown;
      }
      return Emit(i.value);
    }
  }
}
