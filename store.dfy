/**
 * The variable and loop store of vlibTemplate, as functions of the state
 * they change: `setVar`/`unsetVar`/`getVar`/`getVars` on `_vars`,
 * `setLoop`/`unsetLoop` on `_arrvars`, the three-step loop builder
 * (`newLoop`/`addRow`/`addLoop`/`getLoop`) on `_currloopname` and
 * `_currloop`, and the duplicate-free `_unknowns` list. The methods of
 * `Template.VlibTemplate` perform these updates in place and are proved to
 * agree with the functions here.
 *
 * `_vars` and `_arrvars` are PHP arrays, kept as ordered association
 * lists. `_currloopname` is null or an array whose keys equal its values;
 * it is kept as the list of those names. `_currloop` maps each name to its
 * rows.
 */
module Storage {
  import opened Php
  import opened PhpArrays
  import opened Config
  import opened LoopBuild
  import opened Compile
  import opened Runtime

  // ---------------------------------------------------------------------
  // Global variables

  /** The name setVar stores under: lower-cased under CASELESS, then trimmed. */
  function VarKey(o: Options, k: string): string
  {
    Trim(if o.caseless then ToLower(k) else k)
  }

  /** A stored global: an identifier (without upper case under CASELESS) bound to a non-null value. */
  predicate GoodVar(o: Options, e: (Key, Value))
  {
    e.0.StrKey? && IdentBody(e.0.s) && (o.caseless ==> NoUpper(e.0.s)) && e.1 != Null
  }

  predicate GoodVars(o: Options, vars: Assoc<Value>)
  {
    forall e :: e in vars ==> GoodVar(o, e)
  }

  /** Lower-casing keeps the identifier pattern and leaves no upper case. */
  lemma LowerIdentBody(s: string)
    ensures IdentBody(ToLower(s)) <==> IdentBody(s)
    ensures NoUpper(ToLower(s))
  {
  }

  /** For a matching name, trim and strtolower commute, and trim leaves an identifier. */
  lemma LowerTrim(k: string)
    requires MatchesIdent(k)
    ensures IdentBody(Trim(k))
    ensures Trim(ToLower(k)) == ToLower(Trim(k))
  {
    if IdentBody(k) {
      TrimIdent(k);
      LowerIdentBody(k);
      TrimIdent(ToLower(k));
    } else {
      var b := k[..|k| - 1];
      assert k == b + "\n";
      NewlineIdent(b);
      LowerIdentBody(b);
      ToLowerConcat(b, "\n");
      assert ToLower("\n") == "\n";
      NewlineIdent(ToLower(b));
    }
  }

  /** On a matching name the scalar key (lower, then trim) and the array
      key (trim, then lower) agree, and both are clean identifiers. */
  lemma VarKeyIsEntryKey(o: Options, k: string)
    requires MatchesIdent(k)
    ensures VarKey(o, k) == EntryKey(o, k)
    ensures IdentBody(VarKey(o, k)) && (o.caseless ==> NoUpper(VarKey(o, k)))
  {
    LowerTrim(k);
    LowerIdentBody(Trim(k));
  }

  /** `setVar($k, $v)` with a string `$k`: stored iff k is an identifier
      (a final newline allowed) and v is not null. */
  function AssignVar(o: Options, vars: Assoc<Value>, k: string, v: Value): (bool, Assoc<Value>)
  {
    if MatchesIdent(k) && v != Null then (true, Set(vars, StrKey(VarKey(o, k)), v)) else (false, vars)
  }

  /** The rule of the scalar setVar, and the invariant it keeps. */
  lemma AssignVarRule(o: Options, vars: Assoc<Value>, k: string, v: Value)
    ensures var (ok, vars') := AssignVar(o, vars, k, v);
      (ok <==> MatchesIdent(k) && v != Null) &&
      (ok ==> Get(vars', StrKey(VarKey(o, k))) == Some(v) &&
              forall k' :: k' != StrKey(VarKey(o, k)) ==> Get(vars', k') == Get(vars, k')) &&
      (!ok ==> vars' == vars)
    ensures GoodVars(o, vars) ==> GoodVars(o, AssignVar(o, vars, k, v).1)
  {
    if MatchesIdent(k) && v != Null {
      VarKeyIsEntryKey(o, k);
      SetEntries(vars, StrKey(VarKey(o, k)), v);
    }
  }

  /** `getVar($var)`: the stored value, or false for an empty name, a
      missing name or a null value. */
  function GetVar(o: Options, vars: Assoc<Value>, name: string): Value
  {
    var n := Folded(o, name);
    var g := Get(vars, NormKey(n));
    if EmptyStr(Some(n)) || g.None? || g.value == Null then Bool(false) else g.value
  }

  /** The name as getVar looks it up: lower-cased under CASELESS. */
  function Folded(o: Options, k: string): string
  {
    if o.caseless then ToLower(k) else k
  }

  /** An identifier is stored under its folded self. */
  lemma VarKeyIdent(o: Options, k: string)
    requires IdentBody(k)
    ensures VarKey(o, k) == Folded(o, k) && IdentBody(Folded(o, k))
  {
    LowerIdentBody(k);
    TrimIdent(Folded(o, k));
  }

  /** setVar of an identifier assigns its folded name. */
  lemma AssignVarIdent(o: Options, vars: Assoc<Value>, k: string, v: Value)
    requires IdentBody(k) && v != Null
    ensures AssignVar(o, vars, k, v).1 == Set(vars, StrKey(Folded(o, k)), v)
  {
    assert MatchesIdent(k);
    VarKeyIdent(o, k);
  }

  /** getVar finds a non-null value stored under the folded identifier. */
  lemma GetFolded(o: Options, vars: Assoc<Value>, k: string, v: Value)
    requires IdentBody(Folded(o, k)) && v != Null && Get(vars, StrKey(Folded(o, k))) == Some(v)
    ensures GetVar(o, vars, k) == v
  {
    IdentKey(Folded(o, k));
    assert Folded(o, k)[0] != '0';
  }

  lemma GetFoldedSet(o: Options, vars: Assoc<Value>, k: string, v: Value)
    requires IdentBody(k) && v != Null
    ensures GetVar(o, Set(vars, StrKey(Folded(o, k)), v), k) == v
  {
    LowerIdentBody(k);
    GetFolded(o, Set(vars, StrKey(Folded(o, k)), v), k, v);
  }

  /** What setVar stores, getVar returns. */
  lemma SetVarGetVar(o: Options, vars: Assoc<Value>, k: string, v: Value)
    requires IdentBody(k) && v != Null
    ensures GetVar(o, AssignVar(o, vars, k, v).1, k) == v
  {
    var vars' := AssignVar(o, vars, k, v).1;
    AssignVarIdent(o, vars, k, v);
    GetFoldedSet(o, vars, k, v);
  }

  /** A final newline is accepted and trimmed: setVar("a\n", v) sets "a". */
  lemma SetVarNewline(o: Options, vars: Assoc<Value>, k: string, v: Value)
    requires IdentBody(k) && v != Null
    ensures AssignVar(o, vars, k + "\n", v) == AssignVar(o, vars, k, v)
  {
    NewlineIdent(k);
    NewlineKey(o, k);
  }

  lemma NewlineKey(o: Options, k: string)
    requires IdentBody(k)
    ensures VarKey(o, k + "\n") == VarKey(o, k)
  {
    NewlineIdent(k);
    TrimIdent(k);
    EntryKeySameTrim(o, k + "\n", k);
    VarKeyIsEntryKey(o, k + "\n");
    VarKeyIsEntryKey(o, k);
  }

  lemma EntryKeySameTrim(o: Options, a: string, b: string)
    requires Trim(a) == Trim(b)
    ensures EntryKey(o, a) == EntryKey(o, b)
  {
  }

  /** `$` lets one final newline through, and trim removes it. */
  lemma NewlineIdent(k: string)
    requires IdentBody(k)
    ensures MatchesIdent(k + "\n") && MatchesIdent(k) && Trim(k + "\n") == k
  {
    var s := k + "\n";
    assert s[..|s| - 1] == k;
    assert !IdentBody(s) by {
      assert s[|s| - 1] == '\n';
    }
    TrimIdentNewline(s);
  }

  /** The state after the array form of setVar: the new `_vars`, and
      whether a TypeError ended the loop (trim of an integer key). */
  datatype Applied = Applied(vars: Assoc<Value>, thrown: bool)

  /** The name an array entry's key is stored under (`strtolower(trim($key))` under CASELESS). */
  function EntryKey(o: Options, s: string): string
  {
    if o.caseless then ToLower(Trim(s)) else Trim(s)
  }

  /** One entry of `setVar(array)`: stored when its cleaned key is an identifier and its value not null. */
  function AssignEntry(o: Options, vars: Assoc<Value>, s: string, v: Value): Assoc<Value>
  {
    var key := EntryKey(o, s);
    if MatchesIdent(key) && v != Null then Set(vars, StrKey(key), v) else vars
  }

  /** The foreach of `setVar(array)` over entries i.. . */
  function AssignEntries(o: Options, vars: Assoc<Value>, es: Assoc<Value>, i: nat): Applied
    requires i <= |es|
    decreases |es| - i
  {
    if i == |es| then Applied(vars, false)
    else match es[i].0
      case IntKey(_) => Applied(vars, true)
      case StrKey(s) => AssignEntries(o, AssignEntry(o, vars, s, es[i].1), es, i + 1)
  }

  /** The array form throws exactly when some key is an integer (entries
      before it are already stored); otherwise it returns true. */
  lemma {:induction false} AssignEntriesThrows(o: Options, vars: Assoc<Value>, es: Assoc<Value>, i: nat)
    requires i <= |es|
    ensures AssignEntries(o, vars, es, i).thrown <==> exists m :: i <= m < |es| && es[m].0.IntKey?
    decreases |es| - i
  {
    if i < |es| {
      if es[i].0.IntKey? {
        assert i <= i < |es| && es[i].0.IntKey?;
      } else {
        var vars' := AssignEntry(o, vars, es[i].0.s, es[i].1);
        assert AssignEntries(o, vars, es, i) == AssignEntries(o, vars', es, i + 1);
        AssignEntriesThrows(o, vars', es, i + 1);
        if exists m :: i <= m < |es| && es[m].0.IntKey? {
          var m :| i <= m < |es| && es[m].0.IntKey?;
          assert i + 1 <= m;
        }
      }
    }
  }

  /** A name no entry maps to keeps its value. */
  lemma {:induction false} AssignEntriesUntouched(o: Options, vars: Assoc<Value>, es: Assoc<Value>, i: nat, name: string)
    requires i <= |es|
    requires forall m :: i <= m < |es| && es[m].0.StrKey? ==> EntryKey(o, es[m].0.s) != name
    ensures Get(AssignEntries(o, vars, es, i).vars, StrKey(name)) == Get(vars, StrKey(name))
    decreases |es| - i
  {
    if i < |es| && es[i].0.StrKey? {
      AssignEntriesUntouched(o, AssignEntry(o, vars, es[i].0.s, es[i].1), es, i + 1, name);
    }
  }

  /** Entries keep the invariant of `_vars`: every stored name is a clean identifier. */
  lemma {:induction false} AssignEntriesGood(o: Options, vars: Assoc<Value>, es: Assoc<Value>, i: nat)
    requires i <= |es| && GoodVars(o, vars)
    ensures GoodVars(o, AssignEntries(o, vars, es, i).vars)
    decreases |es| - i
  {
    if i < |es| && es[i].0.StrKey? {
      var key := EntryKey(o, es[i].0.s);
      if MatchesIdent(key) && es[i].1 != Null {
        EntryKeyIdent(o, es[i].0.s);
        SetEntries(vars, StrKey(key), es[i].1);
      }
      AssignEntriesGood(o, AssignEntry(o, vars, es[i].0.s, es[i].1), es, i + 1);
    }
  }

  /** A matching entry name is already trimmed, so it is an identifier. */
  lemma EntryKeyIdent(o: Options, s: string)
    requires MatchesIdent(EntryKey(o, s))
    ensures IdentBody(EntryKey(o, s))
    ensures o.caseless ==> NoUpper(EntryKey(o, s))
  {
    var t := Trim(s);
    var key := EntryKey(o, s);
    if |t| > 0 {
      assert key[|key| - 1] == (if o.caseless then LowerChar(t[|t| - 1]) else t[|t| - 1]);
    }
    LowerIdentBody(t);
  }

  /** A name the scalar form accepts is stored the same way by the array form. */
  lemma ScalarAsEntry(o: Options, vars: Assoc<Value>, k: string, v: Value)
    requires MatchesIdent(k) && v != Null
    ensures AssignEntries(o, vars, [(StrKey(k), v)], 0) == Applied(AssignVar(o, vars, k, v).1, false)
  {
    VarKeyIsEntryKey(o, k);
    var es := [(StrKey(k), v)];
    assert es[0] == (StrKey(k), v);
    assert AssignEntry(o, vars, k, v) == AssignVar(o, vars, k, v).1;
    assert AssignEntries(o, vars, es, 0) == AssignEntries(o, AssignEntry(o, vars, k, v), es, 1);
  }

  /** `setVar($k, $v)`: the result and the new `_vars`. An array stores its
      entries in order; a string stores one variable; any other `$k` is a
      TypeError (preg_match is handed a non-string), as is an integer key
      in the array (trim is handed an integer). */
  function SetVar(o: Options, vars: Assoc<Value>, k: Value, v: Value): (Outcome<bool>, Assoc<Value>)
  {
    match k
    case Arr(es) =>
      var a := AssignEntries(o, vars, es, 0);
      (if a.thrown then TypeError else Ok(true), a.vars)
    case Str(s) =>
      var (ok, vars') := AssignVar(o, vars, s, v);
      (Ok(ok), vars')
    case _ => (TypeError, vars)
  }

  /** The outcomes of setVar: an array succeeds unless one of its keys is an
      integer; a string succeeds iff it is an identifier and the value is not
      null; anything else throws and changes nothing. Every form keeps the
      invariant of `_vars`. */
  lemma SetVarRule(o: Options, vars: Assoc<Value>, k: Value, v: Value)
    ensures var (r, vars') := SetVar(o, vars, k, v);
      (k.Arr? ==> (r == TypeError <==> exists m :: 0 <= m < |k.entries| && k.entries[m].0.IntKey?) &&
                  (r != TypeError ==> r == Ok(true))) &&
      (k.Str? ==> r == Ok(MatchesIdent(k.s) && v != Null)) &&
      (!k.Arr? && !k.Str? ==> r == TypeError && vars' == vars)
    ensures GoodVars(o, vars) ==> GoodVars(o, SetVar(o, vars, k, v).1)
  {
    if k.Arr? {
      AssignEntriesThrows(o, vars, k.entries, 0);
      if GoodVars(o, vars) {
        AssignEntriesGood(o, vars, k.entries, 0);
      }
    } else if k.Str? {
      AssignVarRule(o, vars, k.s, v);
    }
  }

  /** `unsetVar(...$names)`: each name (lower-cased under CASELESS) that is
      an identifier is removed from `_vars`. */
  function UnsetVars(o: Options, vars: Assoc<Value>, names: seq<string>): Assoc<Value>
    decreases |names|
  {
    if names == [] then vars
    else
      UnsetVars(o, UnsetOne(o, vars, names[0]), names[1..])
  }

  /** A name as unsetVar uses it: lower-cased under CASELESS. */
  function VarName(o: Options, name: string): string
  {
    if o.caseless then ToLower(name) else name
  }

  /** After unsetVar every named identifier is gone, and nothing else changes. */
  lemma UnsetVarsRemoves(o: Options, vars: Assoc<Value>, names: seq<string>, k: Key)
    ensures (exists i :: 0 <= i < |names| && MatchesIdent(VarName(o, names[i])) && k == StrKey(VarName(o, names[i])))
            ==> Get(UnsetVars(o, vars, names), k) == None
    ensures (forall i :: 0 <= i < |names| ==> k != StrKey(VarName(o, names[i])))
            ==> Get(UnsetVars(o, vars, names), k) == Get(vars, k)
  {
    if exists i :: 0 <= i < |names| && MatchesIdent(VarName(o, names[i])) && k == StrKey(VarName(o, names[i])) {
      var i :| 0 <= i < |names| && MatchesIdent(VarName(o, names[i])) && k == StrKey(VarName(o, names[i]));
      UnsetVarsGone(o, vars, names, i, k);
    }
    if forall i :: 0 <= i < |names| ==> k != StrKey(VarName(o, names[i])) {
      UnsetVarsKeeps(o, vars, names, k);
    }
  }

  lemma {:induction false} UnsetVarsGone(o: Options, vars: Assoc<Value>, names: seq<string>, i: nat, k: Key)
    requires i < |names| && MatchesIdent(VarName(o, names[i])) && k == StrKey(VarName(o, names[i]))
    ensures Get(UnsetVars(o, vars, names), k) == None
    decreases |names|
  {
    if i == 0 {
      UnsetFirstGone(o, vars, names, k);
    } else {
      var vars' := UnsetOne(o, vars, names[0]);
      assert names[1..][i - 1] == names[i];
      UnsetVarsGone(o, vars', names[1..], i - 1, k);
    }
  }

  /** `_vars` after the first name of the list is dealt with. */
  function UnsetOne(o: Options, vars: Assoc<Value>, name: string): Assoc<Value>
  {
    var n := VarName(o, name);
    if MatchesIdent(n) then Unset(vars, StrKey(n)) else vars
  }

  lemma UnsetFirstGone(o: Options, vars: Assoc<Value>, names: seq<string>, k: Key)
    requires names != [] && MatchesIdent(VarName(o, names[0])) && k == StrKey(VarName(o, names[0]))
    ensures Get(UnsetVars(o, vars, names), k) == None
  {
    UnsetVarsKeepsGone(o, Unset(vars, k), names[1..], k);
  }

  lemma {:induction false} UnsetVarsKeeps(o: Options, vars: Assoc<Value>, names: seq<string>, k: Key)
    requires forall i :: 0 <= i < |names| ==> k != StrKey(VarName(o, names[i]))
    ensures Get(UnsetVars(o, vars, names), k) == Get(vars, k)
    decreases |names|
  {
    if names != [] {
      var vars' := UnsetOne(o, vars, names[0]);
      assert k != StrKey(VarName(o, names[0]));
      forall i | 0 <= i < |names| - 1 ensures k != StrKey(VarName(o, names[1..][i])) {
        assert names[1..][i] == names[i + 1];
      }
      UnsetVarsKeeps(o, vars', names[1..], k);
    }
  }

  lemma {:induction false} UnsetVarsKeepsGone(o: Options, vars: Assoc<Value>, names: seq<string>, k: Key)
    requires Get(vars, k) == None
    ensures Get(UnsetVars(o, vars, names), k) == None
    decreases |names|
  {
    if names != [] {
      UnsetVarsKeepsGone(o, UnsetOne(o, vars, names[0]), names[1..], k);
    }
  }

  /** Unsetting keeps the invariant of `_vars`. */
  lemma {:induction false} UnsetVarsGood(o: Options, vars: Assoc<Value>, names: seq<string>)
    requires GoodVars(o, vars) && Distinct(vars)
    ensures GoodVars(o, UnsetVars(o, vars, names)) && Distinct(UnsetVars(o, vars, names))
    decreases |names|
  {
    if names != [] {
      UnsetOneGood(o, vars, names[0]);
      UnsetVarsGood(o, UnsetOne(o, vars, names[0]), names[1..]);
    }
  }

  lemma UnsetOneGood(o: Options, vars: Assoc<Value>, name: string)
    requires GoodVars(o, vars) && Distinct(vars)
    ensures GoodVars(o, UnsetOne(o, vars, name)) && Distinct(UnsetOne(o, vars, name))
  {
  }

  /** `getVars()`: the array, or null when it is empty. */
  function GetVars(vars: Assoc<Value>): (r: Option<Assoc<Value>>)
    ensures r.None? <==> vars == []
    ensures r.Some? ==> r.value == vars
  {
    if vars != [] then Some(vars) else None
  }

  // ---------------------------------------------------------------------
  // Loops

  /** `setLoop($k, $v)`: the new tables, and whether `_arrayBuild` threw.
      Only an array under an identifier name is taken; the entry is set to
      `[]` first, SET_LOOP_VAR sets the global of the same name to 1 for a
      non-empty array, and then the entry becomes the build's result. */
  function SetLoop(o: Options, st: Store, k: string, v: Value): (r: (bool, Store))
  {
    if !(v.Arr? && MatchesIdent(k)) then (false, st)
    else
      var key := LoopKey(o, k);
      var a0 := Set(st.arrvars, StrKey(key), Arr([]));
      var vars' := if o.setLoopVar && v.entries != [] then AssignVar(o, st.vars, key, Int(1)).1 else st.vars;
      var b := BuildLoop(o, v.entries);
      if b.Thrown? then (true, Store(vars', a0)) else (false, Store(vars', Set(a0, StrKey(key), Stored(b))))
  }

  /** The name a loop is stored under. */
  function LoopKey(o: Options, k: string): string
  {
    if o.caseless then ToLower(Trim(k)) else Trim(k)
  }

  /** What setLoop does to `_arrvars`: the name now holds the build's
      result (or `[]` when the build threw); other loops are untouched. */
  lemma SetLoopRule(o: Options, st: Store, k: string, v: Value)
    requires v.Arr? && MatchesIdent(k)
    ensures var (thrown, st') := SetLoop(o, st, k, v);
      (thrown <==> BuildLoop(o, v.entries).Thrown?) &&
      Get(st'.arrvars, StrKey(LoopKey(o, k))) == Some(if thrown then Arr([]) else Stored(BuildLoop(o, v.entries))) &&
      (forall k' :: k' != StrKey(LoopKey(o, k)) ==> Get(st'.arrvars, k') == Get(st.arrvars, k'))
  {
  }

  /** setLoop ignores anything but an array under an identifier. */
  lemma SetLoopIgnores(o: Options, st: Store, k: string, v: Value)
    requires !v.Arr? || !MatchesIdent(k)
    ensures SetLoop(o, st, k, v) == (false, st)
  {
  }

  /** End to end: after setLoop(k, rows) a top-level `<tmpl_loop k>` runs
      once per row, or not at all when the build gave true or false. */
  lemma SetLoopRows(o: Options, st: Store, k: string, arr: Assoc<Value>)
    requires IdentBody(k) && !o.caseless && !BuildLoop(o, arr).Thrown?
    ensures var st' := SetLoop(o, st, k, Arr(arr)).1;
      RowCount(st', LoopPath([k], k, 0), []) == if BuildLoop(o, arr).Built? then |arr| else 0
  {
    SetLoopStores(o, st, k, arr);
    TopLoopRows(o, SetLoop(o, st, k, Arr(arr)).1, k, arr);
  }

  /** Under SET_LOOP_VAR a non-empty loop also sets the global of its
      (cleaned) name to 1. */
  lemma SetLoopSetsFlag(o: Options, st: Store, k: string, v: Value)
    requires v.Arr? && v.entries != [] && MatchesIdent(k) && o.setLoopVar
    ensures GetVar(o, SetLoop(o, st, k, v).1.vars, LoopKey(o, k)) == Int(1)
  {
    VarKeyIsEntryKey(o, k);
    SetVarGetVar(o, st.vars, LoopKey(o, k), Int(1));
  }

  /** Without CASELESS an identifier loop name is its own array key. */
  lemma LoopKeyIdent(o: Options, k: string)
    requires IdentBody(k) && !o.caseless
    ensures NormKey(k) == StrKey(LoopKey(o, k))
  {
    TrimIdent(k);
    IdentKey(k);
  }

  lemma SetLoopStores(o: Options, st: Store, k: string, arr: Assoc<Value>)
    requires IdentBody(k) && !o.caseless && !BuildLoop(o, arr).Thrown?
    ensures Get(SetLoop(o, st, k, Arr(arr)).1.arrvars, NormKey(k)) == Some(Stored(BuildLoop(o, arr)))
  {
    assert MatchesIdent(k);
    LoopKeyIdent(o, k);
    SetLoopRule(o, st, k, Arr(arr));
  }

  /** `unsetLoop(...$names)`: false without arguments; each identifier name
      (lower-cased under CASELESS) is removed from `_arrvars`. */
  function UnsetLoops(o: Options, arrvars: Assoc<Value>, names: seq<string>): (bool, Assoc<Value>)
  {
    if names == [] then (false, arrvars) else (true, UnsetVars(o, arrvars, names))
  }

  // ---------------------------------------------------------------------
  // The three-step loop builder

  /** `_currloopname` (None: null) and `_currloop`. */
  datatype Builder = Builder(names: Option<seq<string>>, loops: seq<(string, seq<Value>)>)

  function LoopNames(loops: seq<(string, seq<Value>)>): (r: seq<string>)
    ensures |r| == |loops|
    ensures forall i :: 0 <= i < |loops| ==> r[i] == loops[i].0
  {
    if loops == [] then [] else [loops[0].0] + LoopNames(loops[1..])
  }

  predicate NoDups(s: seq<string>)
  {
    forall i, j :: 0 <= i < j < |s| ==> s[i] != s[j]
  }

  /** The builder invariant: every loop being built is listed in
      `_currloopname`, neither list repeats a name, and every loop name was
      accepted by newLoop. (The two lists are equal except after a setLoop
      inside addLoop() threw, which leaves the names of the loops already
      committed behind.) */
  predicate GoodBuilder(b: Builder)
  {
    (b.names.None? ==> b.loops == []) &&
    (b.names.Some? ==> NoDups(b.names.value) && forall i :: 0 <= i < |b.loops| ==> b.loops[i].0 in b.names.value) &&
    NoDups(LoopNames(b.loops)) &&
    forall i :: 0 <= i < |b.loops| ==> MatchesIdent(b.loops[i].0)
  }

  function FindLoop(loops: seq<(string, seq<Value>)>, name: string): (r: Option<nat>)
    ensures r.Some? ==> r.value < |loops| && loops[r.value].0 == name
    ensures r.None? ==> forall i :: 0 <= i < |loops| ==> loops[i].0 != name
  {
    if loops == [] then None
    else if loops[0].0 == name then Some(0)
    else
      var r := FindLoop(loops[1..], name);
      if r.Some? then Some(r.value + 1) else None
  }

  /** `$a[$name] = $rows`: replaced in place, or appended. */
  function PutLoop(loops: seq<(string, seq<Value>)>, name: string, rows: seq<Value>): seq<(string, seq<Value>)>
  {
    var f := FindLoop(loops, name);
    if f.Some? then loops[f.value := (name, rows)] else loops + [(name, rows)]
  }

  /** `unset($a[$name])`. */
  function DropLoop(loops: seq<(string, seq<Value>)>, name: string): seq<(string, seq<Value>)>
  {
    var f := FindLoop(loops, name);
    if f.Some? then loops[..f.value] + loops[f.value + 1..] else loops
  }

  function DropName(names: Option<seq<string>>, name: string): Option<seq<string>>
  {
    if names.None? then None
    else
      var f := FindName(names.value, name);
      if f.Some? then Some(names.value[..f.value] + names.value[f.value + 1..]) else names
  }

  function FindName(names: seq<string>, name: string): (r: Option<nat>)
    ensures r.Some? ==> r.value < |names| && names[r.value] == name
    ensures r.None? ==> name !in names
  {
    if names == [] then None
    else if names[0] == name then Some(0)
    else
      var r := FindName(names[1..], name);
      if r.Some? then Some(r.value + 1) else None
  }

  /** `newLoop($name)`: the name is registered (kept in place when present)
      and its rows reset to none. */
  function NewLoop(b: Builder, name: string): (bool, Builder)
  {
    if !MatchesIdent(name) then (false, b)
    else
      var names := if b.names.None? then [] else b.names.value;
      var names' := if name in names then names else names + [name];
      (true, Builder(Some(names'), PutLoop(b.loops, name, [])))
  }

  /** The loop a builder call addresses: the name given, or, for an empty
      one, `end($this->_currloopname)`: a TypeError on null, false (a key
      no loop has, None here) on an empty array. */
  function Target(b: Builder, loopname: Option<string>): Outcome<Option<string>>
  {
    if !EmptyStr(loopname) then Ok(loopname)
    else if b.names.None? then TypeError
    else if b.names.value == [] then Ok(None)
    else Ok(Some(b.names.value[|b.names.value| - 1]))
  }

  /** `isset($this->_currloop[$t]) && !empty($this->_currloopname)`. */
  function Found(b: Builder, t: Option<string>): Option<nat>
  {
    if t.None? || b.names.None? || b.names.value == [] then None else FindLoop(b.loops, t.value)
  }

  /** `addRow($row, $loopname)`. */
  function AddRow(b: Builder, row: Value, loopname: Option<string>): (Outcome<bool>, Builder)
  {
    match Target(b, loopname)
    case TypeError => (TypeError, b)
    case Ok(t) =>
      var f := Found(b, t);
      if f.None? || !row.Arr? then (Ok(false), b)
      else (Ok(true), b.(loops := b.loops[f.value := (b.loops[f.value].0, b.loops[f.value].1 + [row])]))
  }

  /** A list of rows as the PHP array `[0 => r0, 1 => r1, ...]`. */
  function RowsArray(rows: seq<Value>): (r: Assoc<Value>)
    ensures |r| == |rows|
    ensures forall i :: 0 <= i < |rows| ==> r[i] == (IntKey(i), rows[i])
  {
    seq(|rows|, i requires 0 <= i < |rows| => (IntKey(i), rows[i]))
  }

  /** `getLoop($loopname)`: the rows, removed from the builder; false when
      the loop is not being built. */
  function GetLoop(b: Builder, loopname: Option<string>): (Outcome<Value>, Builder)
  {
    match Target(b, loopname)
    case TypeError => (TypeError, b)
    case Ok(t) =>
      var f := Found(b, t);
      if f.None? then (Ok(Bool(false)), b)
      else (Ok(Arr(RowsArray(b.loops[f.value].1))), Builder(DropName(b.names, t.value), DropLoop(b.loops, t.value)))
  }

  /** The three steps: rows added after newLoop come back, in order, from getLoop. */
  lemma NewAddGet(b: Builder, name: string, rows: seq<Value>)
    requires GoodBuilder(b) && IdentBody(name)
    requires forall i :: 0 <= i < |rows| ==> rows[i].Arr?
    ensures var b1 := NewLoop(b, name).1;
      var b2 := AddRows(b1, rows, name);
      GetLoop(b2, Some(name)).0 == Ok(Arr(RowsArray(rows)))
  {
    var b1 := NewLoop(b, name).1;
    assert MatchesIdent(name);
    NewLoopFound(b, name);
    var f := FindLoop(b1.loops, name).value;
    assert name[0] != '0';
    AddRowsFound(b1, rows, name, f, []);
    assert [] + rows == rows;
  }

  /** addRow for each row in turn. */
  function AddRows(b: Builder, rows: seq<Value>, name: string): Builder
    decreases |rows|
  {
    if rows == [] then b else AddRows(AddRow(b, rows[0], Some(name)).1, rows[1..], name)
  }

  lemma NewLoopFound(b: Builder, name: string)
    requires MatchesIdent(name)
    ensures var b1 := NewLoop(b, name).1;
      b1.names.Some? && b1.names.value != [] &&
      FindLoop(b1.loops, name).Some? && b1.loops[FindLoop(b1.loops, name).value].1 == []
  {
    var b1 := NewLoop(b, name).1;
    var f := FindLoop(b.loops, name);
    if f.Some? {
      FindLoopUpdate(b.loops, name, f.value, []);
    } else {
      forall j | 0 <= j < |b.loops| ensures b1.loops[j].0 != name {
        assert b1.loops[j] == b.loops[j];
      }
      FindLoopEarliest(b1.loops, name, |b.loops|);
    }
  }

  lemma {:induction false} AddRowsFound(b: Builder, rows: seq<Value>, name: string, f: nat, done: seq<Value>)
    requires b.names.Some? && b.names.value != [] && name != "" && name != "0"
    requires FindLoop(b.loops, name) == Some(f) && b.loops[f].1 == done
    requires forall i :: 0 <= i < |rows| ==> rows[i].Arr?
    ensures var b2 := AddRows(b, rows, name);
      b2.names == b.names && FindLoop(b2.loops, name) == Some(f) && b2.loops[f].1 == done + rows
    decreases |rows|
  {
    if rows == [] {
      assert done + rows == done;
    } else {
      var b1 := AddRow(b, rows[0], Some(name)).1;
      assert b1.loops == b.loops[f := (name, done + [rows[0]])];
      FindLoopUpdate(b.loops, name, f, done + [rows[0]]);
      AddRowsFound(b1, rows[1..], name, f, done + [rows[0]]);
      assert done + [rows[0]] + rows[1..] == done + rows;
    }
  }

  lemma FindLoopUpdate(loops: seq<(string, seq<Value>)>, name: string, f: nat, rows: seq<Value>)
    requires FindLoop(loops, name) == Some(f)
    ensures FindLoop(loops[f := (name, rows)], name) == Some(f)
  {
    var l2 := loops[f := (name, rows)];
    forall j | 0 <= j < f ensures l2[j].0 != name {
      FindLoopBefore(loops, name, j);
    }
    FindLoopEarliest(l2, name, f);
  }

  lemma {:induction false} FindLoopBefore(loops: seq<(string, seq<Value>)>, name: string, j: nat)
    requires FindLoop(loops, name).Some? && j < FindLoop(loops, name).value
    ensures loops[j].0 != name
  {
    if j > 0 {
      FindLoopBefore(loops[1..], name, j - 1);
    }
  }

  lemma {:induction false} FindLoopEarliest(loops: seq<(string, seq<Value>)>, name: string, f: nat)
    requires f < |loops| && loops[f].0 == name
    requires forall j :: 0 <= j < f ==> loops[j].0 != name
    ensures FindLoop(loops, name) == Some(f)
  {
    if f > 0 {
      FindLoopEarliest(loops[1..], name, f - 1);
    }
  }

  /** Calling addRow without a name before any newLoop is a TypeError:
      `end()` is handed the null `_currloopname`. */
  lemma AddRowBeforeNewLoop(row: Value)
    ensures AddRow(Builder(None, []), row, None).0 == TypeError
  {
  }

  /** newLoop keeps the builder invariant. */
  lemma NewLoopGood(b: Builder, name: string)
    requires GoodBuilder(b)
    ensures GoodBuilder(NewLoop(b, name).1)
  {
    if MatchesIdent(name) {
      var b1 := NewLoop(b, name).1;
      var names := if b.names.None? then [] else b.names.value;
      var names' := b1.names.value;
      assert NoDups(names') by {
        if name !in names {
          assert forall i :: 0 <= i < |names| ==> names'[i] == names[i] && names[i] != name;
        }
      }
      var f := FindLoop(b.loops, name);
      if f.Some? {
        assert b1.loops == b.loops[f.value := (name, [])];
        assert LoopNames(b1.loops) == LoopNames(b.loops);
      } else {
        assert b1.loops == b.loops + [(name, [])];
        assert LoopNames(b1.loops) == LoopNames(b.loops) + [name];
      }
      forall i | 0 <= i < |b1.loops| ensures b1.loops[i].0 in names' && MatchesIdent(b1.loops[i].0) {
        if i < |b.loops| {
          assert b1.loops[i].0 == b.loops[i].0;
          assert b.loops[i].0 in names;
        }
      }
    }
  }

  /** Dropping one element keeps the others, in order, without repeats. */
  lemma RemoveAt(s: seq<string>, g: nat, x: string)
    requires g < |s| && x in s && x != s[g]
    ensures x in s[..g] + s[g + 1..]
  {
    var m :| 0 <= m < |s| && s[m] == x;
    if m < g {
      assert (s[..g] + s[g + 1..])[m] == x;
    } else {
      assert (s[..g] + s[g + 1..])[m - 1] == x;
    }
  }

  lemma NoDupsRemove(s: seq<string>, g: nat)
    requires g < |s| && NoDups(s)
    ensures NoDups(s[..g] + s[g + 1..])
  {
    var t := s[..g] + s[g + 1..];
    forall i, j | 0 <= i < j < |t| ensures t[i] != t[j] {
      var i' := if i < g then i else i + 1;
      var j' := if j < g then j else j + 1;
      assert t[i] == s[i'] && t[j] == s[j'];
    }
  }

  /** The names of a list with entry `i` removed. */
  lemma LoopNamesRemove(loops: seq<(string, seq<Value>)>, i: nat)
    requires i < |loops|
    ensures LoopNames(loops[..i] + loops[i + 1..]) == LoopNames(loops)[..i] + LoopNames(loops)[i + 1..]
  {
    LoopNamesConcat(loops[..i], loops[i + 1..]);
    LoopNamesSlice(loops, 0, i);
    LoopNamesSlice(loops, i + 1, |loops|);
  }

  lemma LoopNamesConcat(a: seq<(string, seq<Value>)>, b: seq<(string, seq<Value>)>)
    ensures LoopNames(a + b) == LoopNames(a) + LoopNames(b)
  {
    var l := LoopNames(a + b);
    var r := LoopNames(a) + LoopNames(b);
    forall j | 0 <= j < |l| ensures l[j] == r[j] {
      if j < |a| {
        assert (a + b)[j] == a[j];
      } else {
        assert (a + b)[j] == b[j - |a|];
      }
    }
  }

  lemma LoopNamesSlice(s: seq<(string, seq<Value>)>, lo: nat, hi: nat)
    requires lo <= hi <= |s|
    ensures LoopNames(s[lo..hi]) == LoopNames(s)[lo..hi]
  {
    var l := LoopNames(s[lo..hi]);
    var n := LoopNames(s);
    forall j | 0 <= j < |l| ensures l[j] == n[lo + j] {
      assert s[lo..hi][j] == s[lo + j];
    }
    assert l == n[lo..hi];
  }

  /** Dropping a loop keeps the other entries, in order, and no name twice. */
  lemma DropLoopFacts(loops: seq<(string, seq<Value>)>, name: string)
    requires NoDups(LoopNames(loops))
    ensures NoDups(LoopNames(DropLoop(loops, name)))
    ensures forall j :: 0 <= j < |DropLoop(loops, name)| ==>
      DropLoop(loops, name)[j] in loops && DropLoop(loops, name)[j].0 != name
  {
    var f := FindLoop(loops, name);
    var l2 := DropLoop(loops, name);
    if f.Some? {
      var i := f.value;
      assert l2 == loops[..i] + loops[i + 1..];
      LoopNamesRemove(loops, i);
      NoDupsRemove(LoopNames(loops), i);
      forall j | 0 <= j < |l2| ensures l2[j] in loops && l2[j].0 != name {
        var j' := if j < i then j else j + 1;
        assert l2[j] == loops[j'];
        assert LoopNames(loops)[j'] != LoopNames(loops)[i];
      }
    }
  }

  lemma DropGood(b: Builder, name: string)
    requires GoodBuilder(b) && b.names.Some?
    ensures GoodBuilder(Builder(DropName(b.names, name), DropLoop(b.loops, name)))
  {
    var names := b.names.value;
    var names' := DropName(b.names, name).value;
    var l2 := DropLoop(b.loops, name);
    var g := FindName(names, name);
    if g.Some? {
      NoDupsRemove(names, g.value);
    }
    DropLoopFacts(b.loops, name);
    forall j | 0 <= j < |l2| ensures l2[j].0 in names' && MatchesIdent(l2[j].0) {
      var j' :| 0 <= j' < |b.loops| && b.loops[j'] == l2[j];
      if g.Some? {
        RemoveAt(names, g.value, l2[j].0);
      }
    }
  }


  lemma FindNameAt(names: seq<string>, name: string, i: nat)
    requires NoDups(names) && i < |names| && names[i] == name
    ensures FindName(names, name) == Some(i)
  {
    var r := FindName(names, name);
    assert r.Some? by { assert name in names; }
  }

  /** addRow and getLoop keep the builder invariant. */
  lemma AddRowGood(b: Builder, row: Value, loopname: Option<string>)
    requires GoodBuilder(b)
    ensures GoodBuilder(AddRow(b, row, loopname).1)
  {
    var b1 := AddRow(b, row, loopname).1;
    assert LoopNames(b1.loops) == LoopNames(b.loops) by {
      forall i | 0 <= i < |b.loops| ensures LoopNames(b1.loops)[i] == LoopNames(b.loops)[i] { }
    }
  }

  lemma GetLoopGood(b: Builder, loopname: Option<string>)
    requires GoodBuilder(b)
    ensures GoodBuilder(GetLoop(b, loopname).1)
  {
    match Target(b, loopname)
    case TypeError =>
    case Ok(t) =>
      if Found(b, t).Some? {
        DropGood(b, t.value);
      }
  }

  /** The foreach of `addLoop()`: each loop in turn goes to setLoop and is
      then unset. A throw stops it; the loops from the returned index on are
      still in `_currloop`. */
  function CommitFrom(o: Options, st: Store, loops: seq<(string, seq<Value>)>, i: nat): (r: (bool, Store, nat))
    requires i <= |loops|
    ensures i <= r.2 <= |loops|
    ensures !r.0 ==> r.2 == |loops|
    decreases |loops| - i
  {
    if i == |loops| then (false, st, i)
    else
      var (thrown, st') := SetLoop(o, st, loops[i].0, Arr(RowsArray(loops[i].1)));
      if thrown then (true, st', i) else CommitFrom(o, st', loops, i + 1)
  }

  /** What addLoop returns (`ok`), whether a setLoop inside it threw, and the new state. */
  datatype Committed = Committed(ok: bool, thrown: bool, st: Store, b: Builder)

  /** `addLoop($loopname)`: with no name (null or "") every loop being built
      is committed and the builder emptied; with a name only that loop, and
      false when it is not being built. */
  function AddLoop(o: Options, st: Store, b: Builder, loopname: Option<string>): Committed
  {
    if loopname.None? || loopname == Some("") then
      if b.loops == [] then Committed(false, false, st, b)
      else
        var (thrown, st', j) := CommitFrom(o, st, b.loops, 0);
        if thrown then Committed(false, true, st', b.(loops := b.loops[j..]))
        else Committed(true, false, st', Builder(Some([]), []))
    else
      var f := Found(b, loopname);
      if f.None? then Committed(false, false, st, b)
      else
        var (thrown, st') := SetLoop(o, st, loopname.value, Arr(RowsArray(b.loops[f.value].1)));
        if thrown then Committed(false, true, st', b)
        else Committed(true, false, st', Builder(DropName(b.names, loopname.value), DropLoop(b.loops, loopname.value)))
  }

  /** addLoop with a name is getLoop followed by setLoop of the rows it returns. */
  lemma AddLoopIsGetThenSet(o: Options, st: Store, b: Builder, name: string)
    requires !EmptyStr(Some(name))
    ensures var (r, b') := GetLoop(b, Some(name));
      r.Ok? &&
      (r.value == Bool(false) ==> AddLoop(o, st, b, Some(name)) == Committed(false, false, st, b)) &&
      (r.value.Arr? ==>
        var (thrown, st') := SetLoop(o, st, name, r.value);
        AddLoop(o, st, b, Some(name)) == Committed(!thrown, thrown, st', if thrown then b else b'))
  {
  }

  /** The builder round trip: after newLoop and addRow of each row,
      addLoop(name) stores exactly what setLoop(name, rows) stores. */
  lemma BuilderRoundTrip(o: Options, st: Store, b: Builder, name: string, rows: seq<Value>)
    requires GoodBuilder(b) && IdentBody(name)
    requires forall i :: 0 <= i < |rows| ==> rows[i].Arr?
    ensures var b2 := AddRows(NewLoop(b, name).1, rows, name);
      AddLoop(o, st, b2, Some(name)).st == SetLoop(o, st, name, Arr(RowsArray(rows))).1
  {
    var b2 := AddRows(NewLoop(b, name).1, rows, name);
    NewAddGet(b, name, rows);
    assert name[0] != '0';
    AddLoopIsGetThenSet(o, st, b2, name);
  }

  /** A loop no later loop overwrites keeps the arrays the commit gave it. */
  lemma {:induction false} CommitFromUntouched(o: Options, st: Store, loops: seq<(string, seq<Value>)>, i: nat, key: string)
    requires i <= |loops|
    requires forall j :: i <= j < |loops| ==> LoopKey(o, loops[j].0) != key
    ensures Get(CommitFrom(o, st, loops, i).1.arrvars, StrKey(key)) == Get(st.arrvars, StrKey(key))
    decreases |loops| - i
  {
    if i < |loops| {
      var r := SetLoop(o, st, loops[i].0, Arr(RowsArray(loops[i].1)));
      SetLoopKeeps(o, st, loops[i].0, Arr(RowsArray(loops[i].1)), key);
      if !r.0 {
        CommitFromUntouched(o, r.1, loops, i + 1, key);
      }
    }
  }

  /** setLoop leaves every loop stored under another name as it was. */
  lemma SetLoopKeeps(o: Options, st: Store, k: string, v: Value, key: string)
    requires LoopKey(o, k) != key
    ensures Get(SetLoop(o, st, k, v).1.arrvars, StrKey(key)) == Get(st.arrvars, StrKey(key))
  {
    if v.Arr? && MatchesIdent(k) {
      SetLoopRule(o, st, k, v);
    }
  }

  /** When addLoop() commits without a throw, every loop whose key no later
      loop shares holds the build of its rows. */
  lemma {:induction false} CommitFromStores(o: Options, st: Store, loops: seq<(string, seq<Value>)>, i: nat, m: nat)
    requires i <= m < |loops|
    requires !CommitFrom(o, st, loops, i).0
    requires MatchesIdent(loops[m].0)
    requires forall j :: m < j < |loops| ==> LoopKey(o, loops[j].0) != LoopKey(o, loops[m].0)
    ensures !BuildLoop(o, RowsArray(loops[m].1)).Thrown?
    ensures Get(CommitFrom(o, st, loops, i).1.arrvars, StrKey(LoopKey(o, loops[m].0)))
            == Some(Stored(BuildLoop(o, RowsArray(loops[m].1))))
    decreases m - i
  {
    var v := Arr(RowsArray(loops[i].1));
    var (thrown, st') := SetLoop(o, st, loops[i].0, v);
    assert !thrown;
    assert CommitFrom(o, st, loops, i) == CommitFrom(o, st', loops, i + 1);
    if i < m {
      CommitFromStores(o, st', loops, i + 1, m);
    } else {
      SetLoopRule(o, st, loops[i].0, v);
      CommitFromUntouched(o, st', loops, i + 1, LoopKey(o, loops[m].0));
    }
  }

  /** addLoop() without a name: false when nothing is being built; otherwise,
      unless a build threw, every loop is committed and the builder is left
      with an empty name list. */
  lemma AddLoopAll(o: Options, st: Store, b: Builder, m: nat)
    requires GoodBuilder(b) && m < |b.loops|
    requires forall j :: m < j < |b.loops| ==> LoopKey(o, b.loops[j].0) != LoopKey(o, b.loops[m].0)
    ensures AddLoop(o, st, b, None).thrown || !BuildLoop(o, RowsArray(b.loops[m].1)).Thrown?
    ensures var c := AddLoop(o, st, b, None);
      c.thrown || (c.ok && c.b == Builder(Some([]), []) &&
        Get(c.st.arrvars, StrKey(LoopKey(o, b.loops[m].0))) == Some(Stored(BuildLoop(o, RowsArray(b.loops[m].1)))))
  {
    var r := CommitFrom(o, st, b.loops, 0);
    AddLoopAllUnfold(o, st, b);
    if !r.0 {
      GoodBuilderIdent(b, m);
      CommitFromStores(o, st, b.loops, 0, m);
    }
  }

  lemma GoodBuilderIdent(b: Builder, m: nat)
    requires GoodBuilder(b) && m < |b.loops|
    ensures MatchesIdent(b.loops[m].0)
  {
  }

  lemma AddLoopAllUnfold(o: Options, st: Store, b: Builder)
    requires b.loops != []
    ensures var r := CommitFrom(o, st, b.loops, 0);
      AddLoop(o, st, b, None) ==
        if r.0 then Committed(false, true, r.1, b.(loops := b.loops[r.2..]))
        else Committed(true, false, r.1, Builder(Some([]), []))
  {
  }

  /** addLoop() with nothing to commit returns false and changes nothing. */
  lemma AddLoopNothing(o: Options, st: Store, b: Builder)
    requires b.loops == []
    ensures AddLoop(o, st, b, None) == Committed(false, false, st, b)
  {
  }

  /** addLoop keeps the builder invariant, whether or not a build threw. */
  lemma AddLoopGood(o: Options, st: Store, b: Builder, loopname: Option<string>)
    requires GoodBuilder(b)
    ensures GoodBuilder(AddLoop(o, st, b, loopname).b)
  {
    var c := AddLoop(o, st, b, loopname);
    if loopname.None? || loopname == Some("") {
      if b.loops != [] {
        var r := CommitFrom(o, st, b.loops, 0);
        if r.0 {
          assert c.b == b.(loops := b.loops[r.2..]);
          SuffixGood(b, r.2);
        } else {
          assert c.b == Builder(Some([]), []);
        }
      }
    } else {
      var f := Found(b, loopname);
      if f.Some? {
        var r := SetLoop(o, st, loopname.value, Arr(RowsArray(b.loops[f.value].1)));
        if !r.0 {
          assert c.b == Builder(DropName(b.names, loopname.value), DropLoop(b.loops, loopname.value));
          DropGood(b, loopname.value);
        }
      }
    }
  }

  /** The loops left behind after a throw still satisfy the invariant. */
  lemma SuffixGood(b: Builder, j: nat)
    requires GoodBuilder(b) && j <= |b.loops|
    ensures GoodBuilder(b.(loops := b.loops[j..]))
  {
    var rest := b.loops[j..];
    assert forall i :: 0 <= i < |rest| ==> rest[i] == b.loops[j + i];
    assert LoopNames(rest) == LoopNames(b.loops)[j..];
  }

  // ---------------------------------------------------------------------
  // Unknown variables

  /** `_setUnknown($var)`: appended unless already listed. */
  function RecordUnknown(unknowns: seq<string>, name: string): (r: seq<string>)
    ensures name in r
    ensures NoDups(unknowns) ==> NoDups(r)
    ensures name in unknowns ==> r == unknowns
    ensures name !in unknowns ==> r == unknowns + [name]
  {
    if name in unknowns then unknowns else unknowns + [name]
  }

  /** preg_match('/^ignore|remove|print|leave|comment$/', $arg): five
      alternatives, only the first anchored at the start, only the last at the end. */
  predicate UnknownsPattern(a: string)
  {
    StartsWith(a, "ignore") || Contains(a, "remove") || Contains(a, "print") || Contains(a, "leave") || EndsWith(a, "comment")
  }

  /** `setUnknowns($arg)`: the trimmed, lower-cased argument is stored when it passes the pattern. */
  function SetUnknowns(o: Options, arg: string): (bool, Options)
  {
    var a := ToLower(Trim(arg));
    if UnknownsPattern(a) then (true, o.(unknowns := Some(a))) else (false, o)
  }

  /** A string without trim characters is its own trim. */
  lemma TrimPlain(s: string)
    requires forall i :: 0 <= i < |s| ==> !IsTrimChar(s[i])
    ensures Trim(s) == s
  {
    assert TrimLeft(s) == s;
  }

  /** A string without upper-case letters is its own strtolower. */
  lemma LowerPlain(s: string)
    requires NoUpper(s)
    ensures ToLower(s) == s
  {
  }

  /** A pattern whose first letter never occurs is not contained. */
  lemma NotContains(s: string, p: string)
    requires |p| >= 1 && forall i :: 0 <= i < |s| ==> s[i] != p[0]
    ensures !Contains(s, p)
  {
    forall i | 0 <= i <= |s| - |p| ensures !ContainsAt(s, p, i) {
      assert s[i..i + |p|][0] == s[i];
    }
  }

  /** Lower-case letters only. */
  predicate Word(r: string)
  {
    forall i :: 0 <= i < |r| ==> IsLower(r[i])
  }

  /** trim and strtolower leave a lower-case word alone. */
  lemma PlainWord(r: string)
    requires Word(r)
    ensures Trim(r) == r && ToLower(r) == r
  {
    TrimPlain(r);
    LowerPlain(r);
  }

  /** A lower-case word that passes the pattern is stored as it is. */
  lemma SetUnknownsWord(o: Options, m: string)
    requires Word(m) && UnknownsPattern(m)
    ensures SetUnknowns(o, m) == (true, o.(unknowns := Some(m)))
  {
    PlainWord(m);
  }

  /** Each of the five documented values is accepted as it is. */
  lemma SetUnknownsModes(o: Options, m: string)
    requires m in {"ignore", "remove", "print", "leave", "comment"}
    ensures SetUnknowns(o, m) == (true, o.(unknowns := Some(m)))
  {
    assert Word(m);
    if m == "ignore" {
      assert StartsWith(m, "ignore");
    } else if m == "comment" {
      assert EndsWith(m, "comment");
    } else {
      assert ContainsAt(m, m, 0);
    }
    SetUnknownsWord(o, m);
  }

  /** The alternation is unanchored: `reprint` is accepted, and since it
      names no mode it then removes unknown variables at compile time. */
  lemma SetUnknownsReprint(o: Options, r: string, wholetag: string)
    requires r == "reprint"
    ensures SetUnknowns(o, r).0
    ensures UnknownAction(SetUnknowns(o, r).1, wholetag) == Ok(Remove)
  {
    assert Word(r);
    assert ContainsAt(r, "print", 2);
    SetUnknownsWord(o, r);
  }

  /** Only `comment` is anchored at the end: `commentx` matches no alternative. */
  lemma CommentxNotPattern(c: string)
    requires c == "commentx"
    ensures !UnknownsPattern(c)
  {
    assert c[..6][0] != "ignore"[0];
    NotContains(c, "remove");
    NotContains(c, "print");
    NotContains(c, "leave");
    assert c[|c| - 7..][6] != "comment"[6];
  }

  /** setUnknowns("commentx") is refused and changes nothing. */
  lemma SetUnknownsCommentx(o: Options, c: string)
    requires c == "commentx"
    ensures SetUnknowns(o, c) == (false, o)
  {
    assert Word(c);
    PlainWord(c);
    CommentxNotPattern(c);
  }
}
