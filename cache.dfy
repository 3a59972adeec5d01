/**
 * The cache policy of vlibTemplateCache: the lifetime and extension setters,
 * the clear flag, the freshness decision of `_checkCache` and the name of
 * the cache file. File existence, modification times, the current time and
 * the md5 digest of the template path are inputs; deleting the cache file
 * is recorded in a ghost list.
 */
module Cache {
  import opened Php
  import opened Config

  /** What `setCacheLifeTime(-1)` stores: five years in seconds. */
  const FiveYears := 157680000

  /** The CACHE_LIFETIME `setCacheLifeTime(n)` stores, or None when the call
      is refused. `$int == null` holds for null and for 0, so 0 is refused
      and the rewrite of 0 to 60 never runs. */
  function LifetimeSetting(n: Option<int>): (r: Option<int>)
    ensures r.None? <==> n.None? || n.value == 0
    ensures r.Some? ==> r.value != 0 && r.value != -1
    ensures r.Some? && n.value != -1 ==> r.value == n.value
  {
    if n.None? || n.value == 0 then None
    else if n.value == -1 then Some(FiveYears)
    else Some(n.value)
  }

  /** The CACHE_EXTENSION `setCacheExtension(s)` stores, or None when the
      call is refused: only a string whose lower-case form matches
      `^[a-z0-9]+$` is taken, lower-cased. */
  function ExtensionSetting(s: Option<string>): (r: Option<string>)
    ensures r.Some? <==> s.Some? && MatchesLowerAlnum(ToLower(s.value))
    ensures r.Some? ==> r.value == ToLower(s.value) && MatchesLowerAlnum(r.value)
  {
    if s.None? || s.value == "" || !MatchesLowerAlnum(ToLower(s.value)) then None
    else Some(ToLower(s.value))
  }

  /** An accepted extension is accepted again unchanged. */
  lemma ExtensionIdempotent(s: Option<string>)
    requires ExtensionSetting(s).Some?
    ensures ExtensionSetting(ExtensionSetting(s)) == ExtensionSetting(s)
  {
    ToLowerIdempotent(s.value);
  }

  /** The pattern's `$` also matches before a final newline, so `VTC` with
      a newline is accepted and stored with its newline. */
  lemma ExtensionKeepsNewline(s: string)
    requires s == "VTC\n"
    ensures ExtensionSetting(Some(s)) == Some("vtc\n")
  {
    assert ToLower(s) == "vtc\n";
    assert LowerAlnumBody(ToLower(s)[..3]);
  }

  /** The stored lifetime as a number (a null option counts as 0). */
  function Lifetime(o: Options): int
  {
    if o.cacheLifetime.Some? then o.cacheLifetime.value else 0
  }

  /** The freshness test of `_checkCache`: the cache file is there, it has
      not outlived the lifetime, and it is not older than the template. */
  predicate Fresh(present: bool, cacheMtime: int, lifetime: int, tmplMtime: int, now: int)
  {
    present && !(cacheMtime + lifetime < now) && !(cacheMtime < tmplMtime)
  }

  /** A fresh cache was fresh at every earlier time too. */
  lemma FreshEarlier(present: bool, cacheMtime: int, lifetime: int, tmplMtime: int, now: int, earlier: int)
    requires Fresh(present, cacheMtime, lifetime, tmplMtime, now) && earlier <= now
    ensures Fresh(present, cacheMtime, lifetime, tmplMtime, earlier)
  {
  }

  /** A cache file written after the template's last change, with a lifetime
      that is not negative, is fresh when written; once the template changes
      after the write, it is stale at every time, whatever its lifetime. */
  lemma FreshAfterWrite(cacheMtime: int, lifetime: int, tmplMtime: int)
    ensures tmplMtime <= cacheMtime && 0 <= lifetime ==> Fresh(true, cacheMtime, lifetime, tmplMtime, cacheMtime)
    ensures cacheMtime < tmplMtime ==> forall now :: !Fresh(true, cacheMtime, lifetime, tmplMtime, now)
  {
  }

  /** `$s . ...` on a null option prints nothing. */
  function Text(s: Option<string>): string
  {
    if s.Some? then s.value else ""
  }

  /** `_getFilename`: CACHE_DIRECTORY, `/`, the md5 digest of the resolved
      template path, `.`, CACHE_EXTENSION. */
  function CacheFilename(o: Options, digest: string): (r: string)
    ensures |r| == |Text(o.cacheDirectory)| + |digest| + |Text(o.cacheExtension)| + 2
  {
    Text(o.cacheDirectory) + "/" + digest + "." + Text(o.cacheExtension)
  }

  /** The name determines the digest (md5 digests all have one length), so
      two templates share a cache file only when their digests agree. */
  lemma FilenameDigest(o: Options, d1: string, d2: string)
    requires |d1| == |d2| && CacheFilename(o, d1) == CacheFilename(o, d2)
    ensures d1 == d2
  {
    var p := |Text(o.cacheDirectory)| + 1;
    var dir := Text(o.cacheDirectory) + "/";
    var ext := "." + Text(o.cacheExtension);
    assert CacheFilename(o, d1) == dir + d1 + ext;
    assert CacheFilename(o, d2) == dir + d2 + ext;
    assert (dir + d1 + ext)[p..p + |d1|] == d1;
    assert (dir + d2 + ext)[p..p + |d2|] == d2;
  }

  /** The caching subclass's own state. */
  class TemplateCache {
    var options: Options
    var cacheFile: Option<string>   // _cachefile
    var cacheExists: bool           // _cacheexists
    var clearCache: bool            // _clearcache
    ghost var deleted: seq<string>  // cache files unlinked, in order

    constructor(opts: Options)
      ensures options == opts && cacheFile == None && !cacheExists && !clearCache && deleted == []
    {
      options := opts;
      cacheFile := None;
      cacheExists := false;
      clearCache := false;
      deleted := [];
    }

    /** `clearCache()`: sets the flag, which nothing resets. */
    method ClearCache() returns (r: bool)
      modifies this`clearCache
      ensures r && clearCache
    {
      clearCache := true;
      return true;
    }

    /** `recache()`. */
    method Recache() returns (r: bool)
      modifies this`clearCache
      ensures r && clearCache
    {
      r := ClearCache();
    }

    /** `setCacheLifeTime($int)`. */
    method SetCacheLifeTime(n: Option<int>) returns (r: bool)
      modifies this`options
      ensures r <==> LifetimeSetting(n).Some?
      ensures r ==> options == old(options).(cacheLifetime := LifetimeSetting(n))
      ensures !r ==> options == old(options)
    {
      if n.None? || n.value == 0 {
        return false;
      }
      var v := n.value;
      if v == 0 {
        v := 60;
      }
      if v == -1 {
        v := FiveYears;
      }
      options := options.(cacheLifetime := Some(v));
      return true;
    }

    /** `setCacheExtension($str)`. */
    method SetCacheExtension(s: Option<string>) returns (r: bool)
      modifies this`options
      ensures r <==> ExtensionSetting(s).Some?
      ensures r ==> options == old(options).(cacheExtension := ExtensionSetting(s))
      ensures !r ==> options == old(options)
    {
      if s.None? || s.value == "" || !MatchesLowerAlnum(ToLower(s.value)) {
        return false;
      }
      options := options.(cacheExtension := Some(ToLower(s.value)));
      return true;
    }

    /** `_checkCache($tmplfile)`: `present` is whether the cache file is
        there, the mtimes those of the cache file and the template, `now`
        the current time. Once the clear flag is set every call deletes the
        cache file and returns false. */
    method CheckCache(digest: string, present: bool, cacheMtime: int, tmplMtime: int, now: int) returns (r: bool)
      modifies this`cacheFile, this`cacheExists, this`deleted
      ensures cacheFile == Some(CacheFilename(options, digest))
      ensures r <==> !clearCache && Fresh(present, cacheMtime, Lifetime(options), tmplMtime, now)
      ensures clearCache ==> cacheExists == old(cacheExists) &&
                             deleted == old(deleted) + (if present then [cacheFile.value] else [])
      ensures !clearCache ==> cacheExists == r && deleted == old(deleted)
    {
      cacheFile := Some(CacheFilename(options, digest));
      if clearCache {
        if present {
          deleted := deleted + [cacheFile.value];
        }
        return false;
      }
      if present {
        cacheExists := true;
        if cacheMtime + Lifetime(options) < now || cacheMtime < tmplMtime {
          cacheExists := false;
          return false;
        }
        return true;
      }
      cacheExists := false;
      return false;
    }
  }
}
