/**
 * PHP arrays as ordered association lists. Assigning an existing key
 * replaces its value in place; assigning a new key appends it; unset removes
 * it. The spread literal `[...$a, ...$b]` (PHP 8.1) copies entries in order
 * into a fresh array: string keys are assigned (later ones win), integer
 * keys are renumbered 0, 1, 2, ... in order of appearance.
 */
module PhpArrays {
  import opened Php

  type Assoc<V> = seq<(Key, V)>

  /** PHP never holds a key twice. */
  ghost predicate Distinct<V>(a: Assoc<V>)
  {
    forall i, j :: 0 <= i < j < |a| ==> a[i].0 != a[j].0
  }

  predicate HasKey<V>(a: Assoc<V>, k: Key)
  {
    exists i :: 0 <= i < |a| && a[i].0 == k
  }

  /** $a[$k] ?? null, as an option. */
  function Get<V>(a: Assoc<V>, k: Key): (r: Option<V>)
    ensures r.Some? <==> HasKey(a, k)
    ensures r.Some? ==> (k, r.value) in a
  {
    if a == [] then None
    else if a[0].0 == k then Some(a[0].1)
    else
      var r := Get(a[1..], k);
      assert HasKey(a, k) ==> HasKey(a[1..], k);
      r
  }

  /** In a PHP array the entry holding a key is the one Get finds. */
  lemma {:induction false} GetAt<V>(a: Assoc<V>, i: nat)
    requires Distinct(a) && i < |a|
    ensures Get(a, a[i].0) == Some(a[i].1)
  {
    if i > 0 {
      assert Distinct(a[1..]);
      GetAt(a[1..], i - 1);
    }
  }

  /** Looking a key up past the first entry. */
  lemma GetCons<V>(e: (Key, V), t: Assoc<V>)
    ensures forall k :: Get([e] + t, k) == if e.0 == k then Some(e.1) else Get(t, k)
  {
    assert ([e] + t)[1..] == t;
  }

  /** $a[$k] = $v. */
  function Set<V>(a: Assoc<V>, k: Key, v: V): (r: Assoc<V>)
    ensures Get(r, k) == Some(v)
    ensures forall k' :: k' != k ==> Get(r, k') == Get(a, k')
    ensures !HasKey(a, k) ==> r == a + [(k, v)]
  {
    if a == [] then [(k, v)]
    else if a[0].0 == k then
      GetCons((k, v), a[1..]);
      GetCons(a[0], a[1..]);
      assert a == [a[0]] + a[1..];
      [(k, v)] + a[1..]
    else
      var t := Set(a[1..], k, v);
      assert a == [a[0]] + a[1..];
      SetCons(a[0], a[1..], t, k, v);
      [a[0]] + t
  }

  /** The step of Set past an entry under another key. */
  lemma SetCons<V>(e: (Key, V), a: Assoc<V>, t: Assoc<V>, k: Key, v: V)
    requires e.0 != k && Get(t, k) == Some(v)
    requires forall k' :: k' != k ==> Get(t, k') == Get(a, k')
    requires !HasKey(a, k) ==> t == a + [(k, v)]
    ensures Get([e] + t, k) == Some(v)
    ensures forall k' :: k' != k ==> Get([e] + t, k') == Get([e] + a, k')
    ensures !HasKey([e] + a, k) ==> [e] + t == [e] + a + [(k, v)]
  {
    GetCons(e, t);
    GetCons(e, a);
  }

  /** Assigning an existing key keeps the key list as it was. */
  lemma {:induction false} SetKeys<V>(a: Assoc<V>, k: Key, v: V)
    requires HasKey(a, k)
    ensures |Set(a, k, v)| == |a|
    ensures forall i :: 0 <= i < |a| ==> Set(a, k, v)[i].0 == a[i].0
  {
    if a[0].0 != k {
      assert HasKey(a[1..], k);
      SetKeys(a[1..], k, v);
    }
  }

  /** Every entry of the result was in a, or is the assigned one. */
  lemma {:induction false} SetEntries<V>(a: Assoc<V>, k: Key, v: V)
    ensures forall e :: e in Set(a, k, v) ==> e in a || e == (k, v)
  {
    if a != [] && a[0].0 != k {
      SetEntries(a[1..], k, v);
    }
  }

  /** Assigning keeps the keys of a PHP array distinct. */
  lemma {:induction false} SetDistinct<V>(a: Assoc<V>, k: Key, v: V)
    requires Distinct(a)
    ensures Distinct(Set(a, k, v))
  {
    if a != [] && a[0].0 != k {
      var t := Set(a[1..], k, v);
      assert Distinct(a[1..]);
      SetDistinct(a[1..], k, v);
      SetEntries(a[1..], k, v);
      forall i | 0 <= i < |t|
        ensures t[i].0 != a[0].0
      {
        assert t[i] in t;
      }
    } else if a != [] {
      assert Set(a, k, v)[1..] == a[1..];
    }
  }

  /** Assigning the value a key already holds changes nothing. */
  lemma {:induction false} SetSame<V>(a: Assoc<V>, k: Key, v: V)
    requires Get(a, k) == Some(v)
    ensures Set(a, k, v) == a
  {
    if a != [] && a[0].0 != k {
      SetSame(a[1..], k, v);
    }
  }

  /** unset($a[$k]). */
  function Unset<V>(a: Assoc<V>, k: Key): (r: Assoc<V>)
    ensures Get(r, k) == None
    ensures forall k' :: k' != k ==> Get(r, k') == Get(a, k')
    ensures forall e :: e in r ==> e in a && e.0 != k
    ensures !HasKey(a, k) ==> r == a
    ensures Distinct(a) ==> Distinct(r)
  {
    if a == [] then []
    else if a[0].0 == k then
      var t := Unset(a[1..], k);
      assert a == [a[0]] + a[1..];
      GetCons(a[0], a[1..]);
      assert Distinct(a) ==> Distinct(a[1..]);
      t
    else
      var t := Unset(a[1..], k);
      assert a == [a[0]] + a[1..];
      UnsetCons(a[0], a[1..], t, k);
      [a[0]] + t
  }

  /** The step of Unset past an entry under another key. */
  lemma UnsetCons<V>(e: (Key, V), a: Assoc<V>, t: Assoc<V>, k: Key)
    requires e.0 != k && Get(t, k) == None
    requires forall k' :: k' != k ==> Get(t, k') == Get(a, k')
    requires forall x :: x in t ==> x in a && x.0 != k
    requires !HasKey(a, k) ==> t == a
    requires Distinct(a) ==> Distinct(t)
    ensures Get([e] + t, k) == None
    ensures forall k' :: k' != k ==> Get([e] + t, k') == Get([e] + a, k')
    ensures forall x :: x in [e] + t ==> x in [e] + a && x.0 != k
    ensures !HasKey([e] + a, k) ==> [e] + t == [e] + a
    ensures Distinct([e] + a) ==> Distinct([e] + t)
  {
    GetCons(e, t);
    GetCons(e, a);
    if Distinct([e] + a) {
      assert ([e] + a)[1..] == a;
      DistinctSub(e, a, t);
    }
  }

  /** Putting e back in front of entries taken from a, when [e] + a is distinct. */
  lemma DistinctSub<V>(e: (Key, V), a: Assoc<V>, t: Assoc<V>)
    requires Distinct([e] + a) && Distinct(t)
    requires forall x :: x in t ==> x in a
    ensures Distinct([e] + t)
  {
    forall i | 0 <= i < |t| ensures t[i].0 != e.0 {
      assert t[i] in t;
      var j :| 0 <= j < |a| && a[j] == t[i];
      assert ([e] + a)[0] == e && ([e] + a)[j + 1] == a[j];
    }
    DistinctCons(e, t);
  }

  lemma DistinctCons<V>(e: (Key, V), t: Assoc<V>)
    requires Distinct(t) && forall i :: 0 <= i < |t| ==> t[i].0 != e.0
    ensures Distinct([e] + t)
  {
    var r := [e] + t;
    forall i, j | 0 <= i < j < |r| ensures r[i].0 != r[j].0 {
      assert r[j] == t[j - 1];
      if i > 0 {
        assert r[i] == t[i - 1];
      }
    }
  }

  /** array_values($a): the same values under keys 0..n-1. */
  function ArrayValues<V>(a: Assoc<V>): (r: Assoc<V>)
    ensures |r| == |a|
    ensures forall i :: 0 <= i < |a| ==> r[i] == (IntKey(i), a[i].1)
  {
    seq(|a|, i requires 0 <= i < |a| => (IntKey(i), a[i].1))
  }

  /** $a[] = $v on an array whose integer keys are 0..n-1. */
  function IntCount<V>(a: Assoc<V>): nat
  {
    if a == [] then 0 else (if a[0].0.IntKey? then 1 else 0) + IntCount(a[1..])
  }

  /** Copies the entries of b, in order, into acc as the spread operator does. */
  function SpreadInto<V>(acc: Assoc<V>, b: Assoc<V>): Assoc<V>
    decreases |b|
  {
    if b == [] then acc
    else
      var next := if b[0].0.IntKey? then acc + [(IntKey(IntCount(acc)), b[0].1)] else Set(acc, b[0].0, b[0].1);
      SpreadInto(next, b[1..])
  }

  /** [...$a, ...$b]. */
  function Spread<V>(a: Assoc<V>, b: Assoc<V>): Assoc<V>
  {
    SpreadInto(SpreadInto([], a), b)
  }

  /** The shape every spread result has: distinct keys, integer keys 0, 1, ... in order. */
  ghost predicate Packed<V>(a: Assoc<V>)
  {
    Distinct(a) && forall i :: 0 <= i < |a| && a[i].0.IntKey? ==> a[i].0.i == IntCount(a[..i])
  }

  lemma {:induction false} IntCountAppend<V>(a: Assoc<V>, e: (Key, V))
    ensures IntCount(a + [e]) == IntCount(a) + (if e.0.IntKey? then 1 else 0)
  {
    if a != [] {
      assert (a + [e])[1..] == a[1..] + [e];
      IntCountAppend(a[1..], e);
    }
  }

  lemma {:induction false} IntCountPrefix<V>(a: Assoc<V>, i: nat)
    requires i <= |a|
    ensures IntCount(a[..i]) <= IntCount(a)
    ensures i < |a| && a[i].0.IntKey? ==> IntCount(a[..i]) < IntCount(a)
    decreases |a| - i
  {
    if i < |a| {
      assert a[..i + 1] == a[..i] + [a[i]];
      IntCountAppend(a[..i], a[i]);
      IntCountPrefix(a, i + 1);
    } else {
      assert a[..i] == a;
    }
  }

  /** Set keeps the key list of a, or appends one key, so it keeps the integer count. */
  lemma {:induction false} IntCountSet<V>(a: Assoc<V>, k: Key, v: V)
    requires k.StrKey?
    ensures IntCount(Set(a, k, v)) == IntCount(a)
  {
    if a != [] && a[0].0 != k {
      IntCountSet(a[1..], k, v);
      assert Set(a, k, v) == [a[0]] + Set(a[1..], k, v);
      assert ([a[0]] + Set(a[1..], k, v))[1..] == Set(a[1..], k, v);
    } else if a == [] {
      assert Set(a, k, v) == [] + [(k, v)];
      IntCountAppend([], (k, v));
    }
  }

  lemma SetPacked<V>(a: Assoc<V>, k: Key, v: V)
    requires Packed(a) && k.StrKey?
    ensures Packed(Set(a, k, v))
  {
    SetDistinct(a, k, v);
    if HasKey(a, k) {
      SetKeys(a, k, v);
      SetPackedKeys(a, Set(a, k, v));
    } else {
      AppendStrPacked(a, (k, v));
    }
  }

  /** Replacing values under the same keys keeps the numbering. */
  lemma SetPackedKeys<V>(a: Assoc<V>, r: Assoc<V>)
    requires Packed(a) && Distinct(r) && |r| == |a|
    requires forall i :: 0 <= i < |a| ==> r[i].0 == a[i].0
    ensures Packed(r)
  {
    forall i | 0 <= i < |r| && r[i].0.IntKey?
      ensures r[i].0.i == IntCount(r[..i])
    {
      PrefixSameKeys(a, r, i);
    }
  }

  /** Appending a string key keeps the numbering. */
  lemma AppendStrPacked<V>(a: Assoc<V>, e: (Key, V))
    requires Packed(a) && Distinct(a + [e]) && e.0.StrKey?
    ensures Packed(a + [e])
  {
    var r := a + [e];
    forall i | 0 <= i < |r| && r[i].0.IntKey?
      ensures r[i].0.i == IntCount(r[..i])
    {
      assert i < |a| && r[i] == a[i] && r[..i] == a[..i];
    }
  }

  /** IntCount only looks at keys. */
  lemma {:induction false} PrefixSameKeys<V>(a: Assoc<V>, r: Assoc<V>, i: nat)
    requires |a| == |r| && i <= |a|
    requires forall j :: 0 <= j < |a| ==> r[j].0 == a[j].0
    ensures IntCount(r[..i]) == IntCount(a[..i])
  {
    if i > 0 {
      assert a[..i] == a[..i - 1] + [a[i - 1]];
      assert r[..i] == r[..i - 1] + [r[i - 1]];
      IntCountAppend(a[..i - 1], a[i - 1]);
      IntCountAppend(r[..i - 1], r[i - 1]);
      PrefixSameKeys(a, r, i - 1);
    }
  }

  lemma AppendPacked<V>(a: Assoc<V>, v: V)
    requires Packed(a)
    ensures Packed(a + [(IntKey(IntCount(a)), v)])
  {
    var e := (IntKey(IntCount(a)), v);
    var r := a + [e];
    forall i | 0 <= i < |a| && a[i].0.IntKey?
      ensures a[i].0 != e.0
    {
      IntCountPrefix(a, i);
    }
    forall i | 0 <= i < |r| && r[i].0.IntKey?
      ensures r[i].0.i == IntCount(r[..i])
    {
      if i == |a| {
        assert r[..i] == a;
      } else {
        assert r[..i] == a[..i];
      }
    }
  }

  /** Spreading into a packed array keeps it packed. */
  lemma {:induction false} SpreadIntoPacked<V>(acc: Assoc<V>, b: Assoc<V>)
    requires Packed(acc)
    ensures Packed(SpreadInto(acc, b))
    decreases |b|
  {
    if b != [] {
      if b[0].0.IntKey? {
        AppendPacked(acc, b[0].1);
        SpreadIntoPacked(acc + [(IntKey(IntCount(acc)), b[0].1)], b[1..]);
      } else {
        SetPacked(acc, b[0].0, b[0].1);
        SpreadIntoPacked(Set(acc, b[0].0, b[0].1), b[1..]);
      }
    }
  }

  /** Spreading a packed array into a fresh one reproduces it. */
  lemma SpreadPackedCopy<V>(x: Assoc<V>)
    requires Packed(x)
    ensures SpreadInto([], x) == x
  {
    SpreadPackedSuffix(x, 0);
    assert x[..0] == [] && x[0..] == x;
  }

  lemma {:induction false} SpreadPackedSuffix<V>(x: Assoc<V>, j: nat)
    requires Packed(x) && j <= |x|
    ensures SpreadInto(x[..j], x[j..]) == x
    decreases |x| - j
  {
    if j == |x| {
      assert x[..j] == x;
    } else {
      var acc := x[..j];
      assert x[j..][0] == x[j] && x[j..][1..] == x[j + 1..];
      assert x[..j + 1] == acc + [x[j]];
      if x[j].0.IntKey? {
        assert (IntKey(IntCount(acc)), x[j].1) == x[j];
      } else {
        assert !HasKey(acc, x[j].0);
      }
      SpreadPackedSuffix(x, j + 1);
    }
  }

  /** Lookup of a string key after spreading b: b's value if b has the key, else acc's. */
  lemma {:induction false} SpreadIntoGet<V>(acc: Assoc<V>, b: Assoc<V>, k: Key)
    requires Distinct(b) && k.StrKey?
    ensures Get(SpreadInto(acc, b), k) == if HasKey(b, k) then Get(b, k) else Get(acc, k)
    decreases |b|
  {
    if b != [] {
      var next := if b[0].0.IntKey? then acc + [(IntKey(IntCount(acc)), b[0].1)] else Set(acc, b[0].0, b[0].1);
      assert Distinct(b[1..]);
      SpreadIntoGet(next, b[1..], k);
      if b[0].0.IntKey? {
        AppendGet(acc, (IntKey(IntCount(acc)), b[0].1), k);
      }
      if b[0].0 == k {
        assert !HasKey(b[1..], k);
      } else {
        assert HasKey(b, k) <==> HasKey(b[1..], k);
        assert Get(b, k) == Get(b[1..], k);
      }
    }
  }

  lemma {:induction false} AppendGet<V>(a: Assoc<V>, e: (Key, V), k: Key)
    requires e.0 != k
    ensures Get(a + [e], k) == Get(a, k)
  {
    if a != [] {
      assert (a + [e])[1..] == a[1..] + [e];
      AppendGet(a[1..], e, k);
    } else {
      assert Get([e], k) == Get([e][1..], k);
    }
  }

  /** Spreading entries that acc already holds changes nothing. */
  lemma {:induction false} SpreadIntoHeld<V>(acc: Assoc<V>, b: Assoc<V>)
    requires forall i :: 0 <= i < |b| ==> b[i].0.StrKey? && Get(acc, b[i].0) == Some(b[i].1)
    ensures SpreadInto(acc, b) == acc
    decreases |b|
  {
    if b != [] {
      SetSame(acc, b[0].0, b[0].1);
      SpreadIntoHeld(acc, b[1..]);
    }
  }

  /** `[...$x, ...$b]` gives the key set of x plus the key set of b (string keys only). */
  lemma SpreadGet<V>(a: Assoc<V>, b: Assoc<V>, k: Key)
    requires Distinct(a) && Distinct(b) && k.StrKey?
    ensures Get(Spread(a, b), k) == if HasKey(b, k) then Get(b, k) else Get(a, k)
  {
    SpreadIntoGet([], a, k);
    SpreadIntoGet(SpreadInto([], a), b, k);
  }

  lemma SpreadPacked<V>(a: Assoc<V>, b: Assoc<V>)
    ensures Packed(Spread(a, b))
  {
    SpreadIntoPacked([], a);
    SpreadIntoPacked(SpreadInto([], a), b);
  }

  /** Overlaying the same string-keyed array twice is the same as once. */
  lemma SpreadIdempotent<V>(a: Assoc<V>, b: Assoc<V>)
    requires Distinct(b)
    requires forall i :: 0 <= i < |b| ==> b[i].0.StrKey?
    ensures Spread(Spread(a, b), b) == Spread(a, b)
  {
    var x := Spread(a, b);
    SpreadPacked(a, b);
    SpreadPackedCopy(x);
    forall i | 0 <= i < |b|
      ensures Get(x, b[i].0) == Some(b[i].1)
    {
      SpreadIntoGet(SpreadInto([], a), b, b[i].0);
    }
    SpreadIntoHeld(x, b);
  }

  /** With an integer key the overlay is not idempotent: integer keys are appended, not replaced. */
  lemma SpreadIntKeyAppends<V>(v: V)
    ensures Spread([], [(IntKey(0), v)]) == [(IntKey(0), v)]
    ensures Spread(Spread([], [(IntKey(0), v)]), [(IntKey(0), v)]) == [(IntKey(0), v), (IntKey(1), v)]
  {
    var b := [(IntKey(0), v)];
    assert SpreadInto([], b) == SpreadInto([(IntKey(0), v)], []);
    assert IntCount(b) == 1;
    assert SpreadInto(b, b) == SpreadInto(b + [(IntKey(1), v)], []);
  }
}
