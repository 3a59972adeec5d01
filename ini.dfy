/**
 * vlibIni: the library-wide configuration singleton. The defaults, the
 * overlay `[...getConfig(), ...$data]` applied by setup/setConfig and by the
 * template options, and the PHP 8 subclass's setLoop, which turns a
 * non-array loop into `[]` when LOOP_NOT_ARRAY_OVERRIDE is `true`.
 */
module Ini {
  import opened Php
  import opened PhpArrays
  import opened Config
  import opened LoopBuild
  import opened Runtime
  import opened Storage
  import opened Template

  /** `getDefaultSettings()`; `tempDir` is what `sys_get_temp_dir()` gives. */
  function DefaultSettings(tempDir: string): (r: Assoc<Value>)
    ensures |r| == 19
    ensures forall i :: 0 <= i < |r| ==> r[i].0.StrKey?
  {
    [ (StrKey("TEMPLATE_DIR"), Null),
      (StrKey("MAX_INCLUDES"), Int(2)),
      (StrKey("GLOBAL_VARS"), Int(1)),
      (StrKey("GLOBAL_CONTEXT_VARS"), Int(1)),
      (StrKey("LOOP_CONTEXT_VARS"), Int(1)),
      (StrKey("SET_LOOP_VAR"), Int(1)),
      (StrKey("DEFAULT_ESCAPE"), Str("html")),
      (StrKey("STRICT"), Int(0)),
      (StrKey("CASELESS"), Int(0)),
      (StrKey("UNKNOWNS"), Str("print")),
      (StrKey("TIME_PARSE"), Str("0")),
      (StrKey("ENABLE_PHPINCLUDE"), Str("0")),
      (StrKey("ENABLE_SHORTTAGS"), Str("0")),
      (StrKey("CACHE_DIRECTORY"), Str(tempDir)),
      (StrKey("CACHE_LIFETIME"), Int(604800)),
      (StrKey("CACHE_CHMOD"), Int(509)),
      (StrKey("CACHE_EXTENSION"), Str("vtc")),
      (StrKey("DEBUG_WITHOUT_JAVASCRIPT"), Int(0)),
      (StrKey("LOOP_NOT_ARRAY_OVERRIDE"), Bool(true)) ]
  }

  /** The defaults name each setting once, so they form a packed array. */
  lemma DefaultsPacked(tempDir: string)
    ensures Packed(DefaultSettings(tempDir))
  {
    var d := DefaultSettings(tempDir);
    forall i, j | 0 <= i < j < |d|
      ensures d[i].0 != d[j].0
    {
      var a, b := d[i].0.s, d[j].0.s;
      assert |a| != |b| || a[0] != b[0] || a[6] != b[6];
    }
  }

  /** The value of LOOP_NOT_ARRAY_OVERRIDE in a configuration, if any. */
  function OverrideSetting(cfg: Assoc<Value>): Option<Value>
  {
    Get(cfg, StrKey("LOOP_NOT_ARRAY_OVERRIDE"))
  }

  /** Out of the box the override is on and templates are cached for a
      week in the temporary directory. */
  lemma DefaultOverrideOn(tempDir: string)
    ensures OverrideSetting(DefaultSettings(tempDir)) == Some(Bool(true))
    ensures Get(DefaultSettings(tempDir), StrKey("CACHE_LIFETIME")) == Some(Int(604800))
    ensures Get(DefaultSettings(tempDir), StrKey("CACHE_DIRECTORY")) == Some(Str(tempDir))
  {
    var d := DefaultSettings(tempDir);
    assert d[18].0 == StrKey("LOOP_NOT_ARRAY_OVERRIDE");
    assert d[14].0 == StrKey("CACHE_LIFETIME");
    assert d[13].0 == StrKey("CACHE_DIRECTORY");
    DefaultsPacked(tempDir);
    GetAt(d, 18);
    GetAt(d, 14);
    GetAt(d, 13);
  }

  /** What the subclass's setLoop passes on: `[]` in place of anything but
      an array when the configuration's override is exactly `true`. */
  function LoopArgument(cfg: Assoc<Value>, v: Value): (r: Value)
    ensures r.Arr? <==> v.Arr? || OverrideSetting(cfg) == Some(Bool(true))
    ensures v.Arr? ==> r == v
  {
    if OverrideSetting(cfg) == Some(Bool(true)) && !v.Arr? then Arr([]) else v
  }

  /** With the override on, a non-array loop under an identifier is stored
      as `true` (the result of building an empty loop) and sets no
      variable; with it off, the call is ignored altogether. */
  lemma OverrideStoresTrue(o: Options, st: Store, cfg: Assoc<Value>, k: string, v: Value)
    requires !v.Arr? && MatchesIdent(k)
    ensures OverrideSetting(cfg) == Some(Bool(true)) ==>
      var (thrown, st') := SetLoop(o, st, k, LoopArgument(cfg, v));
      !thrown && st'.vars == st.vars && Get(st'.arrvars, StrKey(LoopKey(o, k))) == Some(Bool(true))
    ensures OverrideSetting(cfg) != Some(Bool(true)) ==> SetLoop(o, st, k, LoopArgument(cfg, v)) == (false, st)
  {
    if OverrideSetting(cfg) == Some(Bool(true)) {
      SetLoopRule(o, st, k, Arr([]));
    }
  }

  /** The singleton object. */
  class VlibIni {
    var config: Assoc<Value>

    constructor()
      ensures config == []
    {
      config := [];
    }
  }

  /** The class's static state: `self::$instance`, and the temporary
      directory the defaults name. */
  class IniState {
    var instance: VlibIni?
    const tempDir: string

    constructor(tempDir: string)
      ensures instance == null && this.tempDir == tempDir
    {
      instance := null;
      this.tempDir := tempDir;
    }

    /** A stored configuration is always the result of an overlay. */
    ghost predicate Valid()
      reads this, instance
    {
      instance != null ==> Packed(instance.config)
    }

    /** `getConfig()`: the stored configuration, or the defaults when there
        is no instance yet or its configuration is still empty. */
    function GetConfig(): (r: Assoc<Value>)
      reads this, instance
      ensures r != []
      ensures Valid() ==> Packed(r)
      ensures instance == null ==> r == DefaultSettings(tempDir)
    {
      DefaultsPacked(tempDir);
      if instance != null && instance.config != [] then instance.config else DefaultSettings(tempDir)
    }

    /** `setConfig($a)`: overlays `a` on the current configuration; throws
        (assigning a property of null) before setup. */
    method SetConfig(a: Assoc<Value>) returns (thrown: bool)
      requires Valid()
      modifies instance
      ensures Valid()
      ensures thrown <==> instance == null
      ensures !thrown ==> instance.config == Spread(old(GetConfig()), a)
    {
      if instance == null {
        return true;
      }
      SpreadPacked(GetConfig(), a);
      instance.config := Spread(GetConfig(), a);
      return false;
    }

    /** `setup($data)`: creates the instance on first use, then applies
        setConfig; every call returns the one instance. */
    method Setup(data: Assoc<Value>) returns (r: VlibIni)
      requires Valid()
      modifies this`instance, instance
      ensures Valid()
      ensures instance == r
      ensures old(instance) != null ==> r == old(instance)
      ensures old(instance) == null ==> fresh(r)
      ensures r.config == Spread(old(GetConfig()), data)
    {
      if instance == null {
        instance := new VlibIni();
      }
      var _ := SetConfig(data);
      r := instance;
    }

    /** `vlibIni::vlibTemplate($options)`: the options a template starts
        from, the current configuration overlaid with the call's own. */
    function TemplateOptions(options: Assoc<Value>): (r: Assoc<Value>)
      requires Valid()
      reads this, instance
      ensures Packed(r)
      ensures forall k: Key :: k.StrKey? && Distinct(options) ==>
        Get(r, k) == if HasKey(options, k) then Get(options, k) else Get(GetConfig(), k)
    {
      SpreadPacked(GetConfig(), options);
      OverlayGet(GetConfig(), options);
      Spread(GetConfig(), options)
    }

    /** The PHP 8 subclass's `setLoop($k, $v)`. */
    method SetLoopOverride(t: VlibTemplate, k: string, v: Value) returns (thrown: bool)
      requires t.Valid()
      modifies t`vars, t`arrvars
      ensures t.Valid()
      ensures (thrown, t.Tables()) == Storage.SetLoop(t.options, old(t.Tables()), k, LoopArgument(GetConfig(), v))
    {
      thrown := t.SetLoop(k, LoopArgument(GetConfig(), v));
    }
  }

  /** SpreadGet for every string key at once. */
  lemma OverlayGet(c: Assoc<Value>, a: Assoc<Value>)
    requires Packed(c)
    ensures forall k: Key :: k.StrKey? && Distinct(a) ==>
      Get(Spread(c, a), k) == if HasKey(a, k) then Get(a, k) else Get(c, k)
  {
    forall k: Key | k.StrKey? && Distinct(a)
      ensures Get(Spread(c, a), k) == if HasKey(a, k) then Get(a, k) else Get(c, k)
    {
      SpreadGet(c, a, k);
    }
  }

  /** After setConfig(a) a string key of `a` reads as `a` gives it and every
      other string key keeps the value it had. */
  lemma SetConfigGet(before: Assoc<Value>, a: Assoc<Value>, k: Key)
    requires Packed(before) && Distinct(a) && k.StrKey?
    ensures HasKey(a, k) ==> Get(Spread(before, a), k) == Get(a, k)
    ensures !HasKey(a, k) ==> Get(Spread(before, a), k) == Get(before, k)
  {
    SpreadGet(before, a, k);
  }

  /** Applying the same string-keyed settings twice is applying them once. */
  lemma SetConfigTwice(before: Assoc<Value>, a: Assoc<Value>)
    requires Distinct(a) && forall i :: 0 <= i < |a| ==> a[i].0.StrKey?
    ensures Spread(Spread(before, a), a) == Spread(before, a)
  {
    SpreadIdempotent(before, a);
  }
}
