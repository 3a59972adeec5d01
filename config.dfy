/**
 * The options of a template object that the modelled operations read
 * (the `OPTIONS` array of vlibTemplate). Flags the engine only tests for
 * truthiness are booleans; options it passes to string functions are
 * optional strings (null when unset).
 */
module Config {
  import opened Php

  datatype Options = Options(
    caseless: bool,               // CASELESS
    globalVars: bool,             // GLOBAL_VARS
    loopContextVars: bool,        // LOOP_CONTEXT_VARS
    setLoopVar: bool,             // SET_LOOP_VAR
    strict: bool,                 // STRICT
    defaultEscape: Option<string>,  // DEFAULT_ESCAPE
    unknowns: Option<string>,       // UNKNOWNS
    cacheDirectory: Option<string>, // CACHE_DIRECTORY
    cacheLifetime: Option<int>,     // CACHE_LIFETIME
    cacheExtension: Option<string>  // CACHE_EXTENSION
  )
}
