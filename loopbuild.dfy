/**
 * What `_arrayBuild` makes of the array handed to setLoop: the rows are
 * renumbered 0..n-1, every key of a row is renamed (lower-cased under
 * CASELESS, prefixed with `_` when it is all digits), nested arrays are
 * rebuilt as loops of their own, and with LOOP_CONTEXT_VARS each row gets
 * the synthetic `__FIRST__`, `__LAST__`, `__INNER__`, `__EVEN__`, `__ODD__`
 * and `__ROWNUM__` entries.
 *
 * The functions here are the specification; the imperative procedure with
 * its loops is `Template.VlibTemplate.ArrayBuild`.
 */
module LoopBuild {
  import opened Php
  import opened PhpArrays
  import opened Config

  /** The outcome of `_arrayBuild`: the rebuilt rows, `true` for an empty
      input, `false` when some row at some depth is not an array, or the
      TypeError that strtolower throws on an integer key under CASELESS. */
  datatype Build = Built(entries: Assoc<Value>) | Empty | NotLoop | Thrown

  /** `(string)$k`. */
  function KeyText(k: Key): string
  {
    match k
    case IntKey(i) => IntToString(i)
    case StrKey(s) => s
  }

  /** The new name of a row key: strtolower under CASELESS (a TypeError on an
      integer key), then `_` in front when the name is all digits. */
  function RenameKey(caseless: bool, k: Key): (r: Outcome<Key>)
    ensures r.TypeError? <==> caseless && k.IntKey?
    ensures r.Ok? ==> !MatchesDigits(KeyText(r.value))
    ensures r.Ok? && caseless ==> r.value.StrKey? && NoUpper(r.value.s)
  {
    if caseless && k.IntKey? then TypeError
    else if caseless then
      var k1 := ToLower(k.s);
      if MatchesDigits(k1) then
        UnderscoreNotDigits(k1);
        assert NoUpper("_" + k1) by {
          assert forall i :: 1 <= i < |k1| + 1 ==> ("_" + k1)[i] == k1[i - 1];
        }
        Ok(StrKey("_" + k1))
      else Ok(StrKey(k1))
    else if MatchesDigits(KeyText(k)) then
      UnderscoreNotDigits(KeyText(k));
      Ok(StrKey("_" + KeyText(k)))
    else Ok(k)
  }

  /** The new name itself: the key (lower-cased under CASELESS) with `_` put
      in front exactly when it is all digits. */
  lemma RenameKeyName(caseless: bool, k: Key)
    requires RenameKey(caseless, k).Ok?
    ensures caseless ==>
      RenameKey(caseless, k).value == StrKey(if MatchesDigits(ToLower(k.s)) then "_" + ToLower(k.s) else ToLower(k.s))
    ensures !caseless ==>
      RenameKey(caseless, k).value == if MatchesDigits(KeyText(k)) then StrKey("_" + KeyText(k)) else k
  {
  }

  /** A key as the rename leaves it is renamed to itself, so renaming twice
      is renaming once. */
  lemma RenameKeyIdempotent(caseless: bool, k: Key)
    requires RenameKey(caseless, k).Ok?
    ensures RenameKey(caseless, RenameKey(caseless, k).value) == RenameKey(caseless, k)
  {
    RenameClean(caseless, RenameKey(caseless, k).value);
  }

  /** A clean key keeps its name. */
  lemma RenameClean(caseless: bool, k: Key)
    requires CleanKey(caseless, k)
    ensures RenameKey(caseless, k) == Ok(k)
  {
    if caseless {
      assert ToLower(k.s) == k.s;
    }
  }

  lemma UnderscoreNotDigits(s: string)
    ensures !MatchesDigits("_" + s)
  {
    var t := "_" + s;
    assert !IsDigit(t[0]);
    if |t| >= 2 {
      assert t[..|t| - 1][0] == '_';
    }
  }

  /** No upper-case letter: what strtolower leaves. */
  predicate NoUpper(s: string)
  {
    forall i :: 0 <= i < |s| ==> !IsUpper(s[i])
  }

  // The synthetic keys (lower-case spellings under CASELESS).
  function FirstKey(caseless: bool): Key { StrKey(if caseless then "__first__" else "__FIRST__") }
  function LastKey(caseless: bool): Key { StrKey(if caseless then "__last__" else "__LAST__") }
  function InnerKey(caseless: bool): Key { StrKey(if caseless then "__inner__" else "__INNER__") }
  function EvenKey(caseless: bool): Key { StrKey(if caseless then "__even__" else "__EVEN__") }
  function OddKey(caseless: bool): Key { StrKey(if caseless then "__odd__" else "__ODD__") }
  function RownumKey(caseless: bool): Key { StrKey(if caseless then "__rownum__" else "__ROWNUM__") }

  predicate IsContextKey(caseless: bool, k: Key)
  {
    k == FirstKey(caseless) || k == LastKey(caseless) || k == InnerKey(caseless) ||
    k == EvenKey(caseless) || k == OddKey(caseless) || k == RownumKey(caseless)
  }

  /** The six context keys differ (in their third character). */
  lemma ContextKeysDistinct(c: bool)
    ensures FirstKey(c) != LastKey(c) && FirstKey(c) != InnerKey(c) && FirstKey(c) != EvenKey(c)
    ensures FirstKey(c) != OddKey(c) && FirstKey(c) != RownumKey(c)
    ensures LastKey(c) != InnerKey(c) && LastKey(c) != EvenKey(c) && LastKey(c) != OddKey(c)
    ensures LastKey(c) != RownumKey(c)
    ensures InnerKey(c) != EvenKey(c) && InnerKey(c) != OddKey(c) && InnerKey(c) != RownumKey(c)
    ensures EvenKey(c) != OddKey(c) && EvenKey(c) != RownumKey(c) && OddKey(c) != RownumKey(c)
  {
    ThirdChars(c);
  }

  lemma ThirdChars(c: bool)
    ensures |FirstKey(c).s| > 2 && FirstKey(c).s[2] == if c then 'f' else 'F'
    ensures |LastKey(c).s| > 2 && LastKey(c).s[2] == if c then 'l' else 'L'
    ensures |InnerKey(c).s| > 2 && InnerKey(c).s[2] == if c then 'i' else 'I'
    ensures |EvenKey(c).s| > 2 && EvenKey(c).s[2] == if c then 'e' else 'E'
    ensures |OddKey(c).s| > 2 && OddKey(c).s[2] == if c then 'o' else 'O'
    ensures |RownumKey(c).s| > 2 && RownumKey(c).s[2] == if c then 'r' else 'R'
  {
  }

  /** The context entries of row i of n: FIRST only on the first row, LAST only
      on the last, INNER exactly on the rows that are neither, EVEN or ODD by
      the parity of the row number i+1, and ROWNUM = i+1. An entry the build
      does not set keeps whatever the row itself held under that key. */
  function AddContextVars(caseless: bool, row: Assoc<Value>, i: nat, n: nat): (r: Assoc<Value>)
    ensures Get(r, RownumKey(caseless)) == Some(Int(i + 1))
    ensures Get(r, FirstKey(caseless)) == if i == 0 then Some(Bool(true)) else Get(row, FirstKey(caseless))
    ensures Get(r, LastKey(caseless)) == if i + 1 == n then Some(Bool(true)) else Get(row, LastKey(caseless))
    ensures Get(r, InnerKey(caseless)) == if i != 0 && i + 1 < n then Some(Bool(true)) else Get(row, InnerKey(caseless))
    ensures Get(r, EvenKey(caseless)) == if (i + 1) % 2 == 0 then Some(Bool(true)) else Get(row, EvenKey(caseless))
    ensures Get(r, OddKey(caseless)) == if (i + 1) % 2 != 0 then Some(Bool(true)) else Get(row, OddKey(caseless))
    ensures forall k :: !IsContextKey(caseless, k) ==> Get(r, k) == Get(row, k)
  {
    ContextKeysDistinct(caseless);
    var r1 := SetIf(i == 0, row, FirstKey(caseless), Bool(true));
    var r2 := SetIf(i + 1 == n, r1, LastKey(caseless), Bool(true));
    var r3 := SetIf(i != 0 && i + 1 < n, r2, InnerKey(caseless), Bool(true));
    var r4 := SetIf((i + 1) % 2 == 0, r3, EvenKey(caseless), Bool(true));
    var r5 := SetIf((i + 1) % 2 != 0, r4, OddKey(caseless), Bool(true));
    Set(r5, RownumKey(caseless), Int(i + 1))
  }

  /** `if (c) $row[$k] = $v;` */
  function SetIf(c: bool, row: Assoc<Value>, k: Key, v: Value): (r: Assoc<Value>)
    ensures Get(r, k) == if c then Some(v) else Get(row, k)
    ensures forall k' :: k' != k ==> Get(r, k') == Get(row, k')
  {
    if c then Set(row, k, v) else row
  }

  /** Rows 0..n-1 of a rebuilt loop: keyed 0..n-1, each an array. */
  predicate RowsShape(rows: Assoc<Value>, n: nat)
  {
    |rows| == n && forall i :: 0 <= i < n ==> rows[i].0 == IntKey(i) && rows[i].1.Arr?
  }

  /** Every row is an array, and so, recursively, is every row of every
      non-empty array nested in a row. */
  predicate LoopShaped(arr: Assoc<Value>)
    decreases Arr(arr), 1
  {
    forall i :: 0 <= i < |arr| ==> arr[i].1.Arr? && RowShaped(arr[i].1.entries, 0)
  }

  /** Every entry j.. of a row is a scalar, an empty array or a loop-shaped array. */
  predicate RowShaped(row: Assoc<Value>, j: nat)
    decreases Arr(row), 0
  {
    forall m :: j <= m < |row| ==> EntryShaped(row[m].1)
  }

  predicate EntryShaped(v: Value)
    decreases v, 2
  {
    !v.Arr? || v.entries == [] || LoopShaped(v.entries)
  }

  /** Row i after the context entries, when LOOP_CONTEXT_VARS is on. */
  function Decorate(o: Options, row: Assoc<Value>, i: nat, n: nat): Assoc<Value>
  {
    if o.loopContextVars then AddContextVars(o.caseless, row, i, n) else row
  }

  /** `_arrayBuild($arr)`: `true` exactly for an empty array; otherwise the
      rows renumbered 0..n-1, `false`, or a TypeError, which only CASELESS
      can cause. */
  function BuildLoop(o: Options, arr: Assoc<Value>): (r: Build)
    ensures r.Empty? <==> arr == []
    ensures r.Built? ==> RowsShape(r.entries, |arr|)
    ensures r.Thrown? ==> o.caseless
    decreases Arr(arr), 2
  {
    if arr == [] then Empty else BuildRows(o, arr, 0, [])
  }

  /** Rows i.. of the loop, acc holding the rebuilt rows 0..i-1. */
  function BuildRows(o: Options, arr: Assoc<Value>, i: nat, acc: Assoc<Value>): (r: Build)
    requires i <= |arr| && RowsShape(acc, i)
    ensures !r.Empty?
    ensures r.Built? ==> RowsShape(r.entries, |arr|)
    ensures r.Thrown? ==> o.caseless
    decreases Arr(arr), 1, |arr| - i
  {
    if i == |arr| then Built(acc)
    else if !arr[i].1.Arr? then NotLoop
    else
      var row := arr[i].1.entries;
      var b := RebuildRow(o, row, 0, row);
      if b.Built? then BuildRows(o, arr, i + 1, acc + [(IntKey(i), Arr(Decorate(o, b.entries, i, |arr|)))])
      else b
  }

  /** The foreach over one row: every entry of the snapshot, in order, is unset
      from the row and assigned again under its new key; nested arrays are
      rebuilt first (an empty one is stored as `true`). */
  function RebuildRow(o: Options, snap: Assoc<Value>, j: nat, cur: Assoc<Value>): (r: Build)
    requires j <= |snap|
    ensures !r.Empty?
    ensures r.Thrown? ==> o.caseless
    decreases Arr(snap), 0, |snap| - j
  {
    if j == |snap| then Built(cur)
    else
      var (k, v) := snap[j];
      var cur' := Unset(cur, k);
      match RenameKey(o.caseless, k)
      case TypeError => Thrown
      case Ok(k') =>
        if v.Arr? then
          match BuildLoop(o, v.entries)
          case NotLoop => NotLoop
          case Thrown => Thrown
          case Empty => RebuildRow(o, snap, j + 1, Set(cur', k', Bool(true)))
          case Built(rs) => RebuildRow(o, snap, j + 1, Set(cur', k', Arr(rs)))
        else RebuildRow(o, snap, j + 1, Set(cur', k', v))
  }

  // ---------------------------------------------------------------------
  // `false` exactly for arrays that are not loops (without CASELESS)

  lemma {:induction false} BuildLoopShaped(o: Options, arr: Assoc<Value>)
    requires !o.caseless
    ensures BuildLoop(o, arr).NotLoop? <==> !LoopShaped(arr)
    decreases Arr(arr), 2
  {
    if arr != [] {
      BuildRowsShaped(o, arr, 0, []);
    }
  }

  lemma {:induction false} BuildRowsShaped(o: Options, arr: Assoc<Value>, i: nat, acc: Assoc<Value>)
    requires !o.caseless && i <= |arr| && RowsShape(acc, i)
    ensures BuildRows(o, arr, i, acc).NotLoop? <==>
            exists m :: i <= m < |arr| && !(arr[m].1.Arr? && RowShaped(arr[m].1.entries, 0))
    decreases Arr(arr), 1, |arr| - i
  {
    if i < |arr| && arr[i].1.Arr? {
      var row := arr[i].1.entries;
      RebuildRowShaped(o, row, 0, row);
      var b := RebuildRow(o, row, 0, row);
      if b.Built? {
        var acc' := acc + [(IntKey(i), Arr(Decorate(o, b.entries, i, |arr|)))];
        BuildRowsShaped(o, arr, i + 1, acc');
        if exists m :: i <= m < |arr| && !(arr[m].1.Arr? && RowShaped(arr[m].1.entries, 0)) {
          var m :| i <= m < |arr| && !(arr[m].1.Arr? && RowShaped(arr[m].1.entries, 0));
          assert m != i;
        }
      }
    }
  }

  lemma {:induction false} RebuildRowShaped(o: Options, snap: Assoc<Value>, j: nat, cur: Assoc<Value>)
    requires !o.caseless && j <= |snap|
    ensures RebuildRow(o, snap, j, cur).NotLoop? <==> !RowShaped(snap, j)
    decreases Arr(snap), 0, |snap| - j
  {
    if j < |snap| {
      var v := snap[j].1;
      if v.Arr? {
        BuildLoopShaped(o, v.entries);
      }
      ShapedEntry(o, snap, j, cur);
      var w := NextValue(o, v);
      if w.Some? {
        RebuildRowShaped(o, snap, j + 1, Set(Unset(cur, snap[j].0), RenameKey(o.caseless, snap[j].0).value, w.value));
      }
    }
  }

  /** Entry j of a row, given what BuildLoopShaped says about its loop. */
  lemma ShapedEntry(o: Options, snap: Assoc<Value>, j: nat, cur: Assoc<Value>)
    requires !o.caseless && j < |snap|
    requires snap[j].1.Arr? ==> (BuildLoop(o, snap[j].1.entries).NotLoop? <==> !LoopShaped(snap[j].1.entries))
    ensures NextValue(o, snap[j].1).None? ==> RebuildRow(o, snap, j, cur) == NotLoop && !RowShaped(snap, j)
    ensures NextValue(o, snap[j].1).Some? ==>
      RenameKey(o.caseless, snap[j].0).Ok? &&
      RebuildRow(o, snap, j, cur) ==
        RebuildRow(o, snap, j + 1, Set(Unset(cur, snap[j].0), RenameKey(o.caseless, snap[j].0).value, NextValue(o, snap[j].1).value)) &&
      (RowShaped(snap, j) <==> RowShaped(snap, j + 1))
  {
    RebuildRowStep(o, snap, j, cur);
    RowShapedStep(snap, j);
  }

  lemma RowShapedStep(row: Assoc<Value>, j: nat)
    requires j < |row|
    ensures RowShaped(row, j) <==> EntryShaped(row[j].1) && RowShaped(row, j + 1)
  {
  }

  // ---------------------------------------------------------------------
  // Keys of the rebuilt rows

  /** A key as `_arrayBuild` leaves it: never all digits, and lower-case under CASELESS. */
  predicate CleanKey(caseless: bool, k: Key)
  {
    !MatchesDigits(KeyText(k)) && (caseless ==> k.StrKey? && NoUpper(k.s))
  }

  predicate CleanRow(caseless: bool, row: Assoc<Value>)
  {
    forall e :: e in row ==> CleanKey(caseless, e.0)
  }

  /** A synthetic key name: `_` first and last. */
  lemma ContextNameClean(caseless: bool, s: string)
    requires |s| >= 2 && s[0] == '_' && s[|s| - 1] == '_'
    requires caseless ==> forall c :: c in s ==> !IsUpper(c)
    ensures CleanKey(caseless, StrKey(s))
  {
    assert s[..|s| - 1][0] == '_';
    if caseless {
      forall i | 0 <= i < |s|
        ensures !IsUpper(s[i])
      {
        assert s[i] in s;
      }
    }
  }

  lemma ContextKeysClean(caseless: bool)
    ensures CleanKey(caseless, FirstKey(caseless)) && CleanKey(caseless, LastKey(caseless))
    ensures CleanKey(caseless, InnerKey(caseless)) && CleanKey(caseless, EvenKey(caseless))
    ensures CleanKey(caseless, OddKey(caseless)) && CleanKey(caseless, RownumKey(caseless))
  {
    FirstKeyClean(caseless);
    LastKeyClean(caseless);
    InnerKeyClean(caseless);
    EvenKeyClean(caseless);
    OddKeyClean(caseless);
    RownumKeyClean(caseless);
  }

  lemma FirstKeyClean(caseless: bool)
    ensures CleanKey(caseless, FirstKey(caseless))
  {
    if caseless {
      LowerKeyClean(FirstKey(true), "first");
    } else {
      ContextNameClean(false, "__FIRST__");
    }
  }

  lemma LastKeyClean(caseless: bool)
    ensures CleanKey(caseless, LastKey(caseless))
  {
    if caseless {
      LowerKeyClean(LastKey(true), "last");
    } else {
      ContextNameClean(false, "__LAST__");
    }
  }

  lemma InnerKeyClean(caseless: bool)
    ensures CleanKey(caseless, InnerKey(caseless))
  {
    if caseless {
      LowerKeyClean(InnerKey(true), "inner");
    } else {
      ContextNameClean(false, "__INNER__");
    }
  }

  lemma EvenKeyClean(caseless: bool)
    ensures CleanKey(caseless, EvenKey(caseless))
  {
    if caseless {
      LowerKeyClean(EvenKey(true), "even");
    } else {
      ContextNameClean(false, "__EVEN__");
    }
  }

  lemma OddKeyClean(caseless: bool)
    ensures CleanKey(caseless, OddKey(caseless))
  {
    if caseless {
      LowerKeyClean(OddKey(true), "odd");
    } else {
      ContextNameClean(false, "__ODD__");
    }
  }

  lemma RownumKeyClean(caseless: bool)
    ensures CleanKey(caseless, RownumKey(caseless))
  {
    if caseless {
      LowerKeyClean(RownumKey(true), "rownum");
    } else {
      ContextNameClean(false, "__ROWNUM__");
    }
  }

  lemma LowerKeyClean(k: Key, w: string)
    requires forall i :: 0 <= i < |w| ==> IsLower(w[i])
    requires k == StrKey("__" + w + "__")
    ensures CleanKey(true, k)
  {
    LowerNameClean(w);
  }

  lemma LowerNameClean(w: string)
    requires forall i :: 0 <= i < |w| ==> IsLower(w[i])
    ensures CleanKey(true, StrKey("__" + w + "__"))
  {
    var s := "__" + w + "__";
    forall i | 0 <= i < |s| ensures !IsUpper(s[i]) {
      if 2 <= i < |s| - 2 {
        assert s[i] == w[i - 2];
      }
    }
    ContextNameClean(true, s);
  }

  lemma SetIfClean(caseless: bool, c: bool, row: Assoc<Value>, k: Key, v: Value)
    requires CleanRow(caseless, row) && CleanKey(caseless, k)
    ensures CleanRow(caseless, SetIf(c, row, k, v))
  {
    SetEntries(row, k, v);
  }

  /** The context entries keep a row's keys clean. */
  lemma DecorateClean(o: Options, row: Assoc<Value>, i: nat, n: nat)
    requires CleanRow(o.caseless, row)
    ensures CleanRow(o.caseless, Decorate(o, row, i, n))
  {
    var c := o.caseless;
    ContextKeysClean(c);
    var r1 := SetIf(i == 0, row, FirstKey(c), Bool(true));
    SetIfClean(c, i == 0, row, FirstKey(c), Bool(true));
    var r2 := SetIf(i + 1 == n, r1, LastKey(c), Bool(true));
    SetIfClean(c, i + 1 == n, r1, LastKey(c), Bool(true));
    var r3 := SetIf(i != 0 && i + 1 < n, r2, InnerKey(c), Bool(true));
    SetIfClean(c, i != 0 && i + 1 < n, r2, InnerKey(c), Bool(true));
    var r4 := SetIf((i + 1) % 2 == 0, r3, EvenKey(c), Bool(true));
    SetIfClean(c, (i + 1) % 2 == 0, r3, EvenKey(c), Bool(true));
    var r5 := SetIf((i + 1) % 2 != 0, r4, OddKey(c), Bool(true));
    SetIfClean(c, (i + 1) % 2 != 0, r4, OddKey(c), Bool(true));
    SetIfClean(c, true, r5, RownumKey(c), Int(i + 1));
  }

  /** Each entry of `cur` holds a clean key or a key the foreach has still
      to reach (and unset). */
  ghost predicate Pending(caseless: bool, cur: Assoc<Value>, snap: Assoc<Value>, j: nat)
  {
    forall e :: e in cur ==> CleanKey(caseless, e.0) || exists m :: j <= m < |snap| && snap[m].0 == e.0
  }

  /** Every original key of the row is unset when its turn comes and only
      clean keys are assigned, so the finished row holds clean keys only. */
  lemma {:induction false} RebuildRowClean(o: Options, snap: Assoc<Value>, j: nat, cur: Assoc<Value>)
    requires j <= |snap| && Pending(o.caseless, cur, snap, j)
    requires RebuildRow(o, snap, j, cur).Built?
    ensures CleanRow(o.caseless, RebuildRow(o, snap, j, cur).entries)
    decreases |snap| - j
  {
    if j < |snap| {
      RebuildRowStep(o, snap, j, cur);
      var k' := RenameKey(o.caseless, snap[j].0).value;
      var w := NextValue(o, snap[j].1).value;
      StepClean(o, snap, j, cur, k', w);
      RebuildRowClean(o, snap, j + 1, Set(Unset(cur, snap[j].0), k', w));
    } else {
      assert RebuildRow(o, snap, j, cur) == Built(cur);
    }
  }

  /** What an entry's value becomes, or None when its loop stops the rebuild. */
  function NextValue(o: Options, v: Value): Option<Value>
  {
    if v.Arr? then
      match BuildLoop(o, v.entries)
      case NotLoop => None
      case Thrown => None
      case Empty => Some(Bool(true))
      case Built(rs) => Some(Arr(rs))
    else Some(v)
  }

  /** One entry of RebuildRow: a TypeError from the key, a stop from the
      entry's loop, or on to the next entry with the value NextValue gives. */
  lemma RebuildRowStep(o: Options, snap: Assoc<Value>, j: nat, cur: Assoc<Value>)
    requires j < |snap|
    ensures RenameKey(o.caseless, snap[j].0).TypeError? ==> RebuildRow(o, snap, j, cur) == Thrown
    ensures RenameKey(o.caseless, snap[j].0).Ok? && NextValue(o, snap[j].1).None? ==>
      snap[j].1.Arr? && RebuildRow(o, snap, j, cur) == BuildLoop(o, snap[j].1.entries)
    ensures RenameKey(o.caseless, snap[j].0).Ok? && NextValue(o, snap[j].1).Some? ==>
      RebuildRow(o, snap, j, cur) ==
      RebuildRow(o, snap, j + 1, Set(Unset(cur, snap[j].0), RenameKey(o.caseless, snap[j].0).value, NextValue(o, snap[j].1).value))
  {
  }

  /** One step of the foreach: the entry's old key goes, a clean key comes. */
  lemma StepClean(o: Options, snap: Assoc<Value>, j: nat, cur: Assoc<Value>, k': Key, w: Value)
    requires j < |snap| && CleanKey(o.caseless, k')
    requires Pending(o.caseless, cur, snap, j)
    ensures Pending(o.caseless, Set(Unset(cur, snap[j].0), k', w), snap, j + 1)
  {
    var cur' := Unset(cur, snap[j].0);
    SetEntries(cur', k', w);
    forall e | e in Set(cur', k', w)
      ensures CleanKey(o.caseless, e.0) || exists m :: j + 1 <= m < |snap| && snap[m].0 == e.0
    {
      if e != (k', w) {
        assert e in cur && e.0 != snap[j].0;
      }
    }
  }

  lemma {:induction false} BuildRowsClean(o: Options, arr: Assoc<Value>, i: nat, acc: Assoc<Value>)
    requires i <= |arr| && RowsShape(acc, i)
    requires forall m :: 0 <= m < i ==> CleanRow(o.caseless, acc[m].1.entries)
    requires BuildRows(o, arr, i, acc).Built?
    ensures forall m :: 0 <= m < |arr| ==> CleanRow(o.caseless, BuildRows(o, arr, i, acc).entries[m].1.entries)
    decreases |arr| - i
  {
    if i < |arr| {
      var row := arr[i].1.entries;
      var b := RebuildRow(o, row, 0, row);
      AllPending(o.caseless, row);
      RebuildRowClean(o, row, 0, row);
      var d := Decorate(o, b.entries, i, |arr|);
      DecorateClean(o, b.entries, i, |arr|);
      var acc' := acc + [(IntKey(i), Arr(d))];
      assert BuildRows(o, arr, i, acc) == BuildRows(o, arr, i + 1, acc');
      BuildRowsClean(o, arr, i + 1, acc');
    }
  }

  /** Before the foreach every key of the row is still to be visited. */
  lemma AllPending(caseless: bool, row: Assoc<Value>)
    ensures forall e :: e in row ==> CleanKey(caseless, e.0) || exists m :: 0 <= m < |row| && row[m].0 == e.0
  {
    forall e | e in row
      ensures exists m :: 0 <= m < |row| && row[m].0 == e.0
    {
      var m :| 0 <= m < |row| && row[m] == e;
    }
  }

  /** Every key of every rebuilt row is clean: no all-digit names remain and,
      under CASELESS, every name is lower-case. */
  lemma BuildLoopClean(o: Options, arr: Assoc<Value>)
    requires BuildLoop(o, arr).Built?
    ensures forall m :: 0 <= m < |arr| ==> CleanRow(o.caseless, BuildLoop(o, arr).entries[m].1.entries)
  {
    BuildRowsClean(o, arr, 0, []);
  }

  // ---------------------------------------------------------------------
  // What a rebuilt row holds

  /** The new names of a row's keys, entry by entry. */
  function Renames(caseless: bool, snap: Assoc<Value>): (r: seq<Outcome<Key>>)
    ensures |r| == |snap|
    ensures forall i :: 0 <= i < |snap| ==> r[i] == RenameKey(caseless, snap[i].0)
  {
    seq(|snap|, i requires 0 <= i < |snap| => RenameKey(caseless, snap[i].0))
  }

  /** The last of names 0..j-1 that is K. */
  function LastIndexIn(names: seq<Outcome<Key>>, K: Key, j: nat): (r: Option<nat>)
    requires j <= |names|
    ensures r.Some? ==> r.value < j && names[r.value] == Ok(K)
  {
    if j == 0 then None
    else if names[j - 1] == Ok(K) then Some(j - 1)
    else LastIndexIn(names, K, j - 1)
  }

  /** Which of entries 0..j-1 of the row key K last received: the last of
      them renamed to K, or None when none of them was. */
  function LastIndex(o: Options, snap: Assoc<Value>, K: Key, j: nat): (r: Option<nat>)
    requires j <= |snap|
    ensures r.Some? ==> r.value < j && RenameKey(o.caseless, snap[r.value].0) == Ok(K)
  {
    LastIndexIn(Renames(o.caseless, snap), K, j)
  }

  /** The value key K holds once entries 0..j-1 of the row have been
      visited: the rebuilt value of the last of them renamed to K, or None
      when none of them was. */
  function LastValue(o: Options, snap: Assoc<Value>, K: Key, j: nat): Option<Value>
    requires j <= |snap|
  {
    var m := LastIndex(o, snap, K, j);
    if m.Some? then NextValue(o, snap[m.value].1) else None
  }

  /** A key receives a value only when some visited entry was renamed to it,
      so it is clean. */
  lemma LastIndexClean(o: Options, snap: Assoc<Value>, K: Key, j: nat)
    requires j <= |snap| && LastIndex(o, snap, K, j).Some?
    ensures CleanKey(o.caseless, K)
  {
  }

  /** Key K of the row after entries 0..j-1: when some of them were renamed
      to K it holds the last one's rebuilt value; otherwise it is absent or
      an original key the foreach has still to visit. */
  ghost predicate Rebuilt(o: Options, snap: Assoc<Value>, j: nat, cur: Assoc<Value>, K: Key)
    requires j <= |snap|
  {
    (LastValue(o, snap, K, j).Some? ==> Get(cur, K) == LastValue(o, snap, K, j)) &&
    (LastValue(o, snap, K, j).None? && Get(cur, K).Some? ==> K in ToVisit(snap, j))
  }

  /** The keys of entries j.. of the row, which the foreach has still to visit. */
  function ToVisit(snap: Assoc<Value>, j: nat): set<Key>
    requires j <= |snap|
    decreases |snap| - j
  {
    if j == |snap| then {} else {snap[j].0} + ToVisit(snap, j + 1)
  }

  lemma {:induction false} ToVisitHas(snap: Assoc<Value>, j: nat, m: nat)
    requires j <= m < |snap|
    ensures snap[m].0 in ToVisit(snap, j)
    decreases m - j
  {
    if j < m {
      ToVisitHas(snap, j + 1, m);
    }
  }

  lemma RebuiltStart(o: Options, row: Assoc<Value>, K: Key)
    ensures Rebuilt(o, row, 0, row, K)
  {
    if Get(row, K).Some? {
      var m :| 0 <= m < |row| && row[m].0 == K;
      ToVisitHas(row, 0, m);
    }
  }

  /** One entry: its old key is unset and its new key set. The unset cannot
      remove a key set earlier, since such a key is clean and a clean key is
      renamed to itself. */
  lemma RebuiltStep(o: Options, snap: Assoc<Value>, j: nat, cur: Assoc<Value>, k': Key, w: Value, K: Key)
    requires j < |snap| && Rebuilt(o, snap, j, cur, K)
    requires RenameKey(o.caseless, snap[j].0) == Ok(k') && NextValue(o, snap[j].1) == Some(w)
    ensures Rebuilt(o, snap, j + 1, Set(Unset(cur, snap[j].0), k', w), K)
  {
    GetRenamed(cur, snap[j].0, k', w, K);
    assert ToVisit(snap, j) == {snap[j].0} + ToVisit(snap, j + 1);
    if K != k' {
      assert LastIndex(o, snap, K, j + 1) == LastIndex(o, snap, K, j);
      if K == snap[j].0 && LastIndex(o, snap, K, j).Some? {
        LastIndexClean(o, snap, K, j);
        RenameClean(o.caseless, K);
        assert false;
      }
    }
  }

  /** A key after the foreach's unset of the old key and set of the new. */
  lemma GetRenamed(cur: Assoc<Value>, k: Key, k': Key, w: Value, K: Key)
    ensures Get(Set(Unset(cur, k), k', w), K) == if K == k' then Some(w) else if K == k then None else Get(cur, K)
  {
  }

  lemma {:induction false} RebuildRowContentsFrom(o: Options, snap: Assoc<Value>, j: nat, cur: Assoc<Value>, K: Key)
    requires j <= |snap| && Rebuilt(o, snap, j, cur, K)
    requires RebuildRow(o, snap, j, cur).Built?
    ensures Get(RebuildRow(o, snap, j, cur).entries, K) == LastValue(o, snap, K, |snap|)
    decreases |snap| - j
  {
    if j < |snap| {
      RebuildRowStep(o, snap, j, cur);
      var k' := RenameKey(o.caseless, snap[j].0).value;
      var w := NextValue(o, snap[j].1).value;
      RebuiltStep(o, snap, j, cur, k', w, K);
      RebuildRowContentsFrom(o, snap, j + 1, Set(Unset(cur, snap[j].0), k', w), K);
    } else {
      RebuiltEnd(o, snap, cur, K);
    }
  }

  lemma RebuiltEnd(o: Options, snap: Assoc<Value>, cur: Assoc<Value>, K: Key)
    requires Rebuilt(o, snap, |snap|, cur, K)
    ensures RebuildRow(o, snap, |snap|, cur) == Built(cur)
    ensures Get(cur, K) == LastValue(o, snap, K, |snap|)
  {
  }

  /** A rebuilt row holds under each key exactly the rebuilt value of the
      last entry renamed to it (a nested array rebuilt by BuildLoop, `true`
      for an empty one, any other value as it was), and nothing else. */
  lemma RebuildRowContents(o: Options, row: Assoc<Value>)
    requires RebuildRow(o, row, 0, row).Built?
    ensures forall K :: Get(RebuildRow(o, row, 0, row).entries, K) == LastValue(o, row, K, |row|)
  {
    forall K
      ensures Get(RebuildRow(o, row, 0, row).entries, K) == LastValue(o, row, K, |row|)
    {
      RebuiltStart(o, row, K);
      RebuildRowContentsFrom(o, row, 0, row, K);
    }
  }

  /** An entry the foreach gets past: its key renamed, its value rebuilt. */
  predicate EntryRebuilt(o: Options, snap: Assoc<Value>, i: nat)
    requires i < |snap|
  {
    RenameKey(o.caseless, snap[i].0).Ok? && NextValue(o, snap[i].1).Some?
  }

  /** Entries j.. of the row all get past the foreach. */
  predicate RowBuilds(o: Options, snap: Assoc<Value>, j: nat)
    requires j <= |snap|
    decreases |snap| - j
  {
    j == |snap| || (EntryRebuilt(o, snap, j) && RowBuilds(o, snap, j + 1))
  }

  lemma {:induction false} BuiltRowBuilds(o: Options, snap: Assoc<Value>, j: nat, cur: Assoc<Value>)
    requires j <= |snap| && RebuildRow(o, snap, j, cur).Built?
    ensures RowBuilds(o, snap, j)
    decreases |snap| - j
  {
    if j < |snap| {
      RebuildRowStep(o, snap, j, cur);
      var k' := RenameKey(o.caseless, snap[j].0).value;
      var w := NextValue(o, snap[j].1).value;
      BuiltRowBuilds(o, snap, j + 1, Set(Unset(cur, snap[j].0), k', w));
    }
  }

  lemma {:induction false} RowBuildsAt(o: Options, snap: Assoc<Value>, j: nat, i: nat)
    requires j <= i < |snap| && RowBuilds(o, snap, j)
    ensures EntryRebuilt(o, snap, i)
    decreases i - j
  {
    if j < i {
      RowBuildsAt(o, snap, j + 1, i);
    }
  }

  /** The last entry renamed to a key is the one LastIndex finds. */
  lemma {:induction false} LastIndexAt(names: seq<Outcome<Key>>, K: Key, j: nat, n: nat)
    requires j < n <= |names| && names[j] == Ok(K)
    requires forall i :: j < i < n ==> names[i] != Ok(K)
    ensures LastIndexIn(names, K, n) == Some(j)
    decreases n
  {
    if n - 1 != j {
      LastIndexAt(names, K, j, n - 1);
    }
  }

  /** When no later entry of a row is renamed like entry j, entry j's new
      key holds entry j's rebuilt value. */
  lemma RebuildRowEntry(o: Options, row: Assoc<Value>, j: nat)
    requires RebuildRow(o, row, 0, row).Built? && j < |row|
    requires forall i :: j < i < |row| ==> RenameKey(o.caseless, row[i].0) != RenameKey(o.caseless, row[j].0)
    ensures RenameKey(o.caseless, row[j].0).Ok? && NextValue(o, row[j].1).Some?
    ensures Get(RebuildRow(o, row, 0, row).entries, RenameKey(o.caseless, row[j].0).value) == NextValue(o, row[j].1)
  {
    BuiltRowBuilds(o, row, 0, row);
    RowBuildsAt(o, row, 0, j);
    RebuildRowContents(o, row);
    LastIndexAt(Renames(o.caseless, row), RenameKey(o.caseless, row[j].0).value, j, |row|);
  }

  /** Every key of a rebuilt row is the new name of some entry of the row. */
  lemma RebuildRowKeys(o: Options, row: Assoc<Value>)
    requires RebuildRow(o, row, 0, row).Built?
    ensures forall e :: e in RebuildRow(o, row, 0, row).entries ==>
      exists i :: 0 <= i < |row| && RenameKey(o.caseless, row[i].0) == Ok(e.0)
  {
    var r := RebuildRow(o, row, 0, row).entries;
    RebuildRowContents(o, row);
    forall e | e in r
      ensures exists i :: 0 <= i < |row| && RenameKey(o.caseless, row[i].0) == Ok(e.0)
    {
      var p :| 0 <= p < |r| && r[p] == e;
      assert HasKey(r, e.0);
      assert LastValue(o, row, e.0, |row|).Some?;
      var m := LastIndex(o, row, e.0, |row|).value;
    }
  }

  /** Two keys renamed alike: the entry visited last wins, as the assignment
      `$arr[$i][$k] = $v` overwrites. `"_1"` keeps its name and `1` becomes
      `"_1"`, so only the second value is left. */
  lemma RenameCollision(o: Options, x: Value, y: Value)
    requires !o.caseless && !x.Arr? && !y.Arr?
    ensures RebuildRow(o, [(StrKey("_1"), x), (IntKey(1), y)], 0, [(StrKey("_1"), x), (IntKey(1), y)]) == Built([(StrKey("_1"), y)])
  {
    var row := [(StrKey("_1"), x), (IntKey(1), y)];
    var c1 := [(IntKey(1), y), (StrKey("_1"), x)];
    CollisionRenames();
    CollisionFirst(x, y);
    CollisionSecond(x, y);
    RebuildRowStep(o, row, 0, row);
    RebuildRowStep(o, row, 1, c1);
    assert RebuildRow(o, row, 2, [(StrKey("_1"), y)]) == Built([(StrKey("_1"), y)]);
  }

  /** Without CASELESS both "_1" and 1 are renamed to "_1". */
  lemma CollisionRenames()
    ensures RenameKey(false, StrKey("_1")) == Ok(StrKey("_1"))
    ensures RenameKey(false, IntKey(1)) == Ok(StrKey("_1"))
  {
    UnderscoreNotDigits("1");
    assert KeyText(IntKey(1)) == "1";
    assert MatchesDigits("1");
    assert "_" + "1" == "_1";
  }

  /** The foreach's first step: "_1" is unset and set again, to the end. */
  lemma CollisionFirst(x: Value, y: Value)
    ensures Set(Unset([(StrKey("_1"), x), (IntKey(1), y)], StrKey("_1")), StrKey("_1"), x) == [(IntKey(1), y), (StrKey("_1"), x)]
  {
    assert Unset([(StrKey("_1"), x), (IntKey(1), y)], StrKey("_1")) == [(IntKey(1), y)];
  }

  /** The second step: 1 is unset and "_1" overwritten with its value. */
  lemma CollisionSecond(x: Value, y: Value)
    ensures Set(Unset([(IntKey(1), y), (StrKey("_1"), x)], IntKey(1)), StrKey("_1"), y) == [(StrKey("_1"), y)]
  {
    assert Unset([(IntKey(1), y), (StrKey("_1"), x)], IntKey(1)) == [(StrKey("_1"), x)];
  }

  // ---------------------------------------------------------------------
  // The rows of a built loop

  /** Row m of arr after the key renaming of the foreach. */
  function RowBase(o: Options, arr: Assoc<Value>, m: nat): Assoc<Value>
    requires m < |arr| && arr[m].1.Arr?
  {
    var b := RebuildRow(o, arr[m].1.entries, 0, arr[m].1.entries);
    if b.Built? then b.entries else []
  }

  lemma {:induction false} BuildRowsAt(o: Options, arr: Assoc<Value>, i: nat, acc: Assoc<Value>, m: nat)
    requires i <= |arr| && RowsShape(acc, i) && m < |arr|
    requires BuildRows(o, arr, i, acc).Built?
    ensures m < i ==> BuildRows(o, arr, i, acc).entries[m] == acc[m]
    ensures i <= m ==> arr[m].1.Arr? && RebuildRow(o, arr[m].1.entries, 0, arr[m].1.entries).Built? &&
                       BuildRows(o, arr, i, acc).entries[m] == (IntKey(m), Arr(Decorate(o, RowBase(o, arr, m), m, |arr|)))
    decreases |arr| - i
  {
    if i < |arr| {
      var row := arr[i].1.entries;
      var b := RebuildRow(o, row, 0, row);
      var acc' := acc + [(IntKey(i), Arr(Decorate(o, b.entries, i, |arr|)))];
      BuildRowsAt(o, arr, i + 1, acc', m);
    }
  }

  /** Row m of a built loop is row m of the input, its keys renamed, then
      given its context entries (when LOOP_CONTEXT_VARS is on); with them, its
      `__ROWNUM__` is m+1, and `__FIRST__`, `__LAST__`, `__INNER__`,
      `__EVEN__` and `__ODD__` are set as AddContextVars states. Every other
      key holds the rebuilt value of the last entry of the input row renamed
      to it, and is absent when no entry was. */
  lemma BuildLoopRow(o: Options, arr: Assoc<Value>, m: nat)
    requires BuildLoop(o, arr).Built? && m < |arr|
    ensures arr[m].1.Arr?
    ensures BuildLoop(o, arr).entries[m] == (IntKey(m), Arr(Decorate(o, RowBase(o, arr, m), m, |arr|)))
    ensures o.loopContextVars ==> Get(BuildLoop(o, arr).entries[m].1.entries, RownumKey(o.caseless)) == Some(Int(m + 1))
    ensures forall K :: !o.loopContextVars || !IsContextKey(o.caseless, K) ==>
      Get(BuildLoop(o, arr).entries[m].1.entries, K) == LastValue(o, arr[m].1.entries, K, |arr[m].1.entries|)
  {
    BuildRowsAt(o, arr, 0, [], m);
    RebuildRowContents(o, arr[m].1.entries);
  }
}
