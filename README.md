# vlibTemplate in Dafny

A model of the core of vlibTemplate, a PHP template engine. A template
holds global variables (`_vars`) and loops (`_arrvars`); templates mark
places with tags such as `<tmpl_var name>`, `<tmpl_if>`, `<tmpl_loop>` and
`<tmpl_include>`; the engine compiles each tag to PHP and evaluates it.

The model covers these parts:

- **The template's state**, as the class `Template.VlibTemplate`:
  - setVar, unsetVar, getVar and getVars;
  - setLoop and `_arrayBuild`, which renames row keys and adds the loop
    context entries `__FIRST__`, `__LAST__`, `__INNER__`, `__EVEN__`,
    `__ODD__` and `__ROWNUM__`;
  - the row-by-row loop builder: newLoop, addRow, getLoop, addLoop;
  - unsetLoop, clearVars, clearLoops, clearAll, reset and newTemplate;
  - the record of unknown variables and setUnknowns.
- **The tag compiler**: `_parseTag`, `_parseIf`, `_parseLoop`, `_parseVar`,
  `_parseIncludeFile` and `_escape_hex`. Each compiled tag is a value of the
  `Compile.Instr` datatype instead of a PHP string. `Runtime` gives that
  value the meaning the generated PHP code has: which array cell it reads,
  whether it falls back to a global, what it prints, how many rows a loop
  runs.
- **The cache policy of vlibTemplateCache**, as `Cache.TemplateCache`: the
  lifetime and extension setters, the clear flag, the freshness decision and
  the cache file name.
- **The configuration singleton vlibIni**: the defaults, the overlay
  `[...getConfig(), ...$data]`, and the PHP 8 subclass's setLoop.
  That setLoop turns a non-array loop into `[]` when
  LOOP_NOT_ARRAY_OVERRIDE is `true`.

PHP values are the datatype `Php.Value`. PHP arrays are ordered association
lists, `PhpArrays.Assoc`, so insertion order, overwrites in place and the
renumbering done by `[...$a, ...$b]` are all visible. Three PHP quirks are
modelled explicitly:

- A `TypeError` under `strict_types` is an `Outcome`.
- The PCRE `$` also matches before one final newline.
- Loose `== null` holds for `""`, `0` and null.

Variables and loops have two layers:

- the specification functions (`Storage.SetVar`, `Storage.SetLoop`,
  `Storage.AddLoop`, ...);
- the class methods, which update the fields in place and are proved equal
  to those functions.

The lemmas are stated about the functions.

Where the documented behaviour and the code differ, the model follows the
code. An IF tag whose `op` is not in the allowed list gets no operator at
all: the code warns, appends nothing and leaves the value on its own
(vlibTemplate.php:1045-1050). It does not fall back to `==`.

## Model

| member | source | states |
|---|---|---|
| Php.TrimIdentNewline | src/Original/vlibTemplate.php:220-224 | A name that passes the identifier pattern is an identifier after trim. The one character trim may remove is the final newline the pattern's `$` lets through. |
| Php.LowerIdent | src/Original/vlibTemplate.php:220-222 | strtolower neither makes nor breaks a match of the identifier pattern. |
| Php.DigitsAreNumeric | src/Original/vlibTemplate.php:1056-1057 | A run of decimal digits is numeric, so an IF value such as `3` is compared as a number. |
| Php.LetterNotNumeric | src/Original/vlibTemplate.php:1056-1060 | A value holding a letter other than e/E is never numeric, so it is compared as a quoted string. |
| Php.IntToString | src/Original/vlibTemplate.php:995 | `(string)$k` of an integer key passes `^[0-9]+$` exactly when the integer is not negative. |
| PhpArrays.Set | src/Original/vlibTemplate.php:215 | `$a[$k] = $v`: afterwards k reads v and every other key reads as before. A new key is appended at the end. |
| PhpArrays.Unset | src/Original/vlibTemplate.php:250 | `unset($a[$k])`: k is gone, every other key reads as before, no entry is added, and distinct keys stay distinct. |
| PhpArrays.ArrayValues | src/Original/vlibTemplate.php:989 | array_values: the same values, in order, under the keys 0..n-1. |
| PhpArrays.SpreadGet | src/vlibIni.php:160-166 | After `[...$a, ...$b]` a string key reads b's value if b has it, else a's. |
| PhpArrays.SpreadPacked | src/vlibIni.php:160-166 | A spread result has distinct keys, and its integer keys are 0, 1, ... in order. |
| PhpArrays.SpreadIdempotent | src/vlibIni.php:160-166 | Spreading the same string-keyed array a second time changes nothing. |
| PhpArrays.SpreadIntKeyAppends | src/vlibIni.php:160-166 | With an integer key the overlay is not idempotent: the second spread appends the entry under key 1. |
| LoopBuild.RenameKey | src/Original/vlibTemplate.php:994-995 | The new row key is never all digits. It throws exactly for an integer key under CASELESS, is lower-case under CASELESS, and is unchanged otherwise when it is not all digits. |
| LoopBuild.RenameKeyName | src/Original/vlibTemplate.php:994-995 | The new key is the old one (lower-cased under CASELESS) with `_` put in front exactly when that text is all digits. |
| LoopBuild.RenameKeyIdempotent | src/Original/vlibTemplate.php:994-995 | Renaming a renamed key gives it back unchanged. |
| LoopBuild.AddContextVars | src/Original/vlibTemplate.php:1003-1016 | Row i of n gets ROWNUM i+1. FIRST is set only on row 0, LAST only on the last row, INNER on every other row. EVEN or ODD follows the parity of i+1. Every other key keeps its value. |
| LoopBuild.SetIf | src/Original/vlibTemplate.php:1011-1015 | `if (c) $row[$k] = $v`: k is set exactly when c holds, and no other key changes. |
| LoopBuild.BuildLoop | src/Original/vlibTemplate.php:986-1023 | `_arrayBuild` gives `true` exactly for an empty array. Otherwise it gives n rows keyed 0..n-1, or `false`. A TypeError is possible only under CASELESS. |
| LoopBuild.BuildRows | src/Original/vlibTemplate.php:990-1018 | The row loop never yields `true`. A full run gives rows keyed 0..n-1, and a throw only happens under CASELESS. |
| LoopBuild.RebuildRow | src/Original/vlibTemplate.php:992-1002 | The foreach over one row never yields `true` and throws only under CASELESS. |
| LoopBuild.RebuildRowContents | src/Original/vlibTemplate.php:992-1002 | After the foreach each key holds the rebuilt value of the last entry renamed to it: a nested array rebuilt by `_arrayBuild` (`true` for an empty one), any other value as it was. A key no entry was renamed to is absent, so the old keys are all gone. |
| LoopBuild.RebuildRowEntry | src/Original/vlibTemplate.php:992-1002 | When no later entry is renamed to the same key, entry j's new key holds entry j's rebuilt value. |
| LoopBuild.RebuildRowKeys | src/Original/vlibTemplate.php:992-1002 | Every key of a rebuilt row is the new name of some entry of the input row. |
| LoopBuild.RenameCollision | src/Original/vlibTemplate.php:993-1001 | Without CASELESS the row `["_1" => x, 1 => y]` becomes `["_1" => y]`: both keys are renamed to `_1` and the later value overwrites the earlier. |
| LoopBuild.BuildLoopShaped | src/Original/vlibTemplate.php:991-998 | Without CASELESS the build gives `false` exactly when some row is not an array. The same holds when some nested array, at any depth, is not itself a loop of arrays. |
| LoopBuild.BuildLoopClean | src/Original/vlibTemplate.php:992-1002 | No key of a rebuilt row is all digits, and under CASELESS none has an upper-case letter. |
| LoopBuild.BuildLoopRow | src/Original/vlibTemplate.php:989-1017 | Row m of the result is row m of the input with its keys renamed and its context entries added. With LOOP_CONTEXT_VARS its ROWNUM is m+1. Every key that is not a context key (every key, without LOOP_CONTEXT_VARS) holds what RebuildRowContents states: the rebuilt value of the last entry renamed to it, or nothing. |
| Compile.Assign | src/Original/vlibTemplate.php:1255 | `$$key = value` sets exactly the attribute the key names. |
| Compile.IncludeHasNoName | src/Original/vlibTemplate.php:1254 | In an include tag the name attribute is stored as `file`, so the tag never has a `name`. |
| Compile.ArrangeStops | src/Original/vlibTemplate.php:1251-1252 | The attribute loop stops at the first pair whose key and value are both empty. Later pairs are ignored. |
| Compile.IncludeTagIff | src/Original/vlibTemplate.php:1254 | Of the tag keywords, only `include` is renamed to `file` by `^(php)?include$`. |
| Compile.NamelessValueIsName | src/Original/vlibTemplate.php:1253 | A value with no attribute key is the name (`<tmpl_var foo>`). |
| Compile.SplitName | src/Original/vlibTemplate.php:1269-1272 | A matching name splits into a dotted loop prefix and an identifier. The two parts rebuild the name, allowing one trailing newline. |
| Compile.SplitJoin | src/Original/vlibTemplate.php:1269-1272 | Splitting a joined prefix and identifier gives both back. |
| Compile.SplitJoinNewline | src/Original/vlibTemplate.php:1269-1272 | The same holds with a trailing newline, which the split drops. |
| Compile.SplitPlain | src/Original/vlibTemplate.php:1269-1272 | A plain identifier has an empty prefix. |
| Compile.Walk | src/Original/vlibTemplate.php:1064-1073 | The scope walk takes at most one step per enclosing loop, and the steps index the loops in order. |
| Compile.WalkMatched | src/Original/vlibTemplate.php:1066-1069 | A prefix naming an enclosing loop stops the walk at its outermost occurrence. The last step is that loop. |
| Compile.WalkUnmatched | src/Original/vlibTemplate.php:1067-1068 | A non-empty prefix naming no enclosing loop binds at the innermost level under its own name. |
| Compile.WalkUnprefixed | src/Original/vlibTemplate.php:1066-1072 | An unprefixed name walks every enclosing loop. |
| Compile.EscapeOnlyDefault | src/Original/vlibTemplate.php:1279 | A var tag is escaped only with DEFAULT_ESCAPE, lower-cased, and only when the tag gives no escape itself. `none` and `0` are never applied. |
| Compile.DefaultEscapeLowered | src/Original/vlibTemplate.php:1279 | A default of `HTML` is applied as the `html` escape. |
| Compile.StripSlashes | src/Original/vlibTemplate.php:1135 | stripslashes never lengthens its input and leaves a string without backslashes unchanged. |
| Compile.StripMarkers | src/Original/vlibTemplate.php:1187 | Removing the comment markers never lengthens the tag and leaves a tag without `-` unchanged. |
| Compile.StripMarkersOnePass | src/Original/vlibTemplate.php:1187 | One pass can leave a `-->` behind: one is formed from the text around a removed marker. |
| Compile.UnknownAction | src/Original/vlibTemplate.php:1185-1207 | The unknown-variable policy throws exactly when UNKNOWNS is null. |
| Compile.UnknownDefaultRemoves | src/Original/vlibTemplate.php:1203-1206 | Any value other than comment, leave, print or ignore removes the variable and records it. |
| Compile.OpOf | src/Original/vlibTemplate.php:1045-1053 | An empty op gives `==`. A listed op is kept. Any other op gives no operator. |
| Compile.LiteralOf | src/Original/vlibTemplate.php:1056-1060 | The value is written bare exactly when it is numeric, otherwise quoted. Its text is unchanged. |
| Compile.IfCond | src/Original/vlibTemplate.php:1036-1080 | The condition reads the name as the scope walk resolves it. Without a value it is a truth test; with one it compares, using OpOf and LiteralOf. |
| Compile.LoopPath | src/Original/vlibTemplate.php:1107-1111 | The row-count path steps through each pushed namespace entry. It indexes an entry by its counter only when the entry differs from the loop's own name. |
| Compile.VarRefLength | src/Original/vlibTemplate.php:1220 | A `{var:name}` match starts with `{var:`, ends at the first `}`, and has a non-empty name. |
| Compile.VarRefSplit | src/Original/vlibTemplate.php:1220 | A match splits the text into the opener, a brace-free name, `}` and the rest. |
| Compile.SegmentsRender | src/Original/vlibTemplate.php:1218-1221 | Rendering the segments back gives the file name unchanged, and every reference found is well formed. |
| Compile.CloserOpeners | src/Original/vlibTemplate.php:1241 | Of the scanner's openers, the close pattern accepts exactly `</`, `{/` and `<!--/`. |
| Compile.EndKeywordsNeverMatch | src/Original/vlibTemplate.php:1241 | The end test allows one character after `end`, so it matches none of endif, endloop, endunless or endcomment. |
| Compile.Pop | src/Original/vlibTemplate.php:1242 | array_pop removes the last name, and does nothing to an empty stack. |
| Compile.ElseAlwaysFlips | src/Original/vlibTemplate.php:1239 | `else` compiles to a branch flip whatever its opener, and leaves the stack alone. |
| Compile.CloserCloses | src/Original/vlibTemplate.php:1241-1248 | A closing opener emits a comment close for comment tags and a block close otherwise. Only a closing loop pops the stack. |
| Compile.EndKeywordsDropped | src/Original/vlibTemplate.php:1310-1315 | endif, endloop, endunless and endcomment with an opening opener close nothing. They emit nothing, or are fatal under STRICT. |
| Compile.LoopPushes | src/Original/vlibTemplate.php:1091-1117 | An opening loop pushes its name. Its depth is the old stack height, and its path is LoopPath over the pushed stack. |
| Compile.StackUntouched | src/Original/vlibTemplate.php:1233-1316 | No tag but loop and endloop changes the namespace stack. |
| Compile.NamelessThrows | src/Original/vlibTemplate.php:1278-1289 | A var, if, unless or elseif tag without a name throws a TypeError. |
| Runtime.NormKey | src/Original/vlibTemplate.php:1063 | The key `$a['s']` uses: an integer for a canonical decimal, the string itself otherwise. Either way it prints back as s. |
| Runtime.IdentKey | src/Original/vlibTemplate.php:1063 | An identifier is always a string key. |
| Runtime.Lookup | src/Original/vlibTemplate.php:1075-1076 | A non-null loop value is used. Only with the fallback does a null value defer to the global of the same name. |
| Runtime.ResolveOneLoop | src/Original/vlibTemplate.php:1063-1076 | Inside one loop an unprefixed name reads the current row of that loop, falling back to the globals as GLOBAL_VARS says. |
| Runtime.RowNumberRead | src/Original/vlibTemplate.php:1009-1016 | Inside a loop over a built array, `__ROWNUM__` reads the 1-based number of the current row. |
| Runtime.RowCount | src/Original/vlibTemplate.php:1113 | A loop runs count() times over an array value and zero times over anything else. |
| Runtime.TopLoopRows | src/Original/vlibTemplate.php:1107-1115 | A top-level loop runs once per row given to setLoop, and not at all when setLoop stored true or false. |
| Runtime.UnlessHolds | src/Original/vlibTemplate.php:1285-1286 | Corrected unless: defined exactly where the if test is, and its negation. |
| Runtime.UnlessAsWrittenTruth | src/Original/vlibTemplate.php:1285-1286 | Without a VALUE the unless as written agrees with the corrected one. |
| Runtime.UnlessAsWrittenDiffers | src/Original/vlibTemplate.php:1285-1286 | With a VALUE they differ: x = "a", value "b" hides the body as written although x is not "b". |
| Runtime.UnlessIsNotIf | src/Original/vlibTemplate.php:1282-1286 | The corrected unless enters exactly where the if on the same tag does not. The unless that Enters applies, as the engine writes it, does so for a tag without a VALUE. |
| Runtime.IfNumericValue | src/Original/vlibTemplate.php:1055-1057 | `<tmpl_if n value="3">` enters exactly when n is the integer 3. |
| Runtime.RunPrint | src/Original/vlibTemplate.php:1175-1206 | A compiled var prints when its read is non-null. Otherwise the name is recorded exactly when the policy is not ignore. |
| Runtime.EscapeWrapsFormat | src/Original/vlibTemplate.php:1157-1172 | The escape call is outermost and the format call sits directly around the value. |
| Runtime.UnknownComment | src/Original/vlibTemplate.php:1186-1189 | Under UNKNOWNS=comment an unknown variable prints the tag, stripped of slashes and markers, inside a comment, and records the name. |
| Runtime.IncludeLiteral | src/Original/vlibTemplate.php:1218-1221 | A file name without `{` is asked for as written. |
| Runtime.IncludeVar | src/Original/vlibTemplate.php:1220 | `{var:name}` is replaced by the string variable's value. |
| Storage.VarKeyIsEntryKey | src/Original/vlibTemplate.php:213-224 | For a matching name the scalar form and the array form of setVar store under the same clean key. |
| Storage.AssignVarRule | src/Original/vlibTemplate.php:220-229 | The scalar setVar succeeds exactly for a matching name and a non-null value. On success only the folded key changes; on failure nothing does. The `_vars` invariant is kept. |
| Storage.SetVarGetVar | src/Original/vlibTemplate.php:276-281 | getVar returns what setVar stored. |
| Storage.GetFolded | src/Original/vlibTemplate.php:276-281 | getVar finds a non-null value stored under the folded identifier. |
| Storage.SetVarNewline | src/Original/vlibTemplate.php:220-224 | setVar("a\n", v) sets "a": the newline `$` accepts is trimmed. |
| Storage.AssignEntriesThrows | src/Original/vlibTemplate.php:211-218 | The array form throws exactly when some key is an integer. Earlier entries are already stored. |
| Storage.AssignEntriesUntouched | src/Original/vlibTemplate.php:212-217 | A name no entry maps to keeps its value. |
| Storage.AssignEntriesGood | src/Original/vlibTemplate.php:212-217 | The array form keeps the `_vars` invariant: every name is a clean identifier. |
| Storage.ScalarAsEntry | src/Original/vlibTemplate.php:211-229 | A name the scalar form accepts is stored the same way by the array form. |
| Storage.SetVarRule | src/Original/vlibTemplate.php:209-230 | An array succeeds unless a key is an integer. A string succeeds exactly for an identifier and a non-null value. Any other key throws and changes nothing. |
| Storage.UnsetVarsRemoves | src/Original/vlibTemplate.php:242-254 | Every named identifier (lower-cased under CASELESS) is gone, and every key not named reads as before. |
| Storage.UnsetVarsGood | src/Original/vlibTemplate.php:242-254 | unsetVar keeps the `_vars` invariant. |
| Storage.GetVars | src/Original/vlibTemplate.php:264-267 | getVars is null exactly when there are no variables, and the array otherwise. |
| Storage.SetLoopRule | src/Original/vlibTemplate.php:317-328 | The loop name now holds the build's result, or `[]` when the build threw. No other loop changes. |
| Storage.SetLoopIgnores | src/Original/vlibTemplate.php:319 | Anything but an array under a matching name is ignored. |
| Storage.SetLoopRows | src/Original/vlibTemplate.php:317-328 | After setLoop(k, rows) the top-level loop k runs once per row, or not at all. |
| Storage.SetLoopSetsFlag | src/Original/vlibTemplate.php:322 | Under SET_LOOP_VAR a non-empty loop sets the global of its name to 1. |
| Storage.SetLoopStores | src/Original/vlibTemplate.php:319-325 | Without CASELESS an identifier loop is found under its own key holding the build. |
| Storage.NewAddGet | src/Original/vlibTemplate.php:429-520 | Rows added after newLoop come back from getLoop, in order, keyed 0..n-1. |
| Storage.NewLoopFound | src/Original/vlibTemplate.php:429-438 | newLoop of a matching name starts an empty loop of that name. |
| Storage.AddRowsFound | src/Original/vlibTemplate.php:450-464 | addRow of array rows appends them to the addressed loop and leaves the name list alone. |
| Storage.AddRowBeforeNewLoop | src/Original/vlibTemplate.php:452 | addRow without a name before any newLoop is a TypeError: `end()` gets null. |
| Storage.NewLoopGood | src/Original/vlibTemplate.php:429-438 | newLoop keeps the builder invariant. |
| Storage.DropGood | src/Original/vlibTemplate.php:519 | Unsetting a name from both builder arrays keeps the invariant. |
| Storage.AddRowGood | src/Original/vlibTemplate.php:450-464 | addRow keeps the builder invariant. |
| Storage.GetLoopGood | src/Original/vlibTemplate.php:509-520 | getLoop keeps the builder invariant. |
| Storage.CommitFrom | src/Original/vlibTemplate.php:479-483 | The foreach of addLoop() commits through to the end unless a throw stops it. |
| Storage.AddLoopIsGetThenSet | src/Original/vlibTemplate.php:489-496 | addLoop(name) is getLoop(name) followed by setLoop of the rows it returns. |
| Storage.BuilderRoundTrip | src/Original/vlibTemplate.php:429-497 | After newLoop and addRow of each row, addLoop(name) stores exactly what setLoop(name, rows) stores. |
| Storage.CommitFromUntouched | src/Original/vlibTemplate.php:480-483 | A loop key the remaining loops never name keeps its value. |
| Storage.CommitFromStores | src/Original/vlibTemplate.php:480-483 | A commit without a throw leaves each loop, unless a later one shares its key, holding the build of its rows. |
| Storage.AddLoopAll | src/Original/vlibTemplate.php:478-485 | Unless a build throws, addLoop() commits every loop and leaves an empty name list. |
| Storage.AddLoopNothing | src/Original/vlibTemplate.php:486-488 | addLoop() with nothing being built returns false and changes nothing. |
| Storage.AddLoopGood | src/Original/vlibTemplate.php:476-497 | addLoop keeps the builder invariant, whether or not a build threw. |
| Storage.SuffixGood | src/Original/vlibTemplate.php:480-483 | The loops left behind after a throw keep the invariant. |
| Storage.RecordUnknown | src/Original/vlibTemplate.php:1431-1434 | The name is listed afterwards. It is appended exactly when it was absent, so no name is listed twice. |
| Storage.SetUnknownsWord | src/Original/vlibTemplate.php:669-677 | A lower-case word that passes the pattern is stored as it is. |
| Storage.SetUnknownsModes | src/Original/vlibTemplate.php:669-677 | ignore, remove, print, leave and comment are each accepted and stored. |
| Storage.SetUnknownsReprint | src/Original/vlibTemplate.php:672 | The unanchored alternation accepts `reprint`, which the compiler then treats as remove. |
| Storage.CommentxNotPattern | src/Original/vlibTemplate.php:672 | `commentx` matches no alternative. |
| Storage.SetUnknownsCommentx | src/Original/vlibTemplate.php:669-677 | setUnknowns("commentx") is refused and changes nothing. |
| HexEscape.EscapeHex | src/Original/vlibTemplate.php:1458-1466 | The loop produces EscapeHexSpec: null for empty input, else one prefix, two hex digits and suffix per byte. |
| HexEscape.PiecesAt | src/Original/vlibTemplate.php:1462-1464 | Byte i owns characters w·i to w·i+w-1 of the output. |
| HexEscape.EscapeHexRoundTrip | src/Original/vlibTemplate.php:1458-1466 | Decoding the output gives back the input, so no two inputs share an output. |
| HexEscape.EscapeHexShape | src/Original/vlibTemplate.php:1458-1466 | The output is null exactly for empty input. Otherwise it has 3 or 6 characters per byte, each group is its byte's piece, and it decodes back. |
| Template.VlibTemplate.constructor | src/Original/vlibTemplate.php:106-155 | The object starts with the declared initial field values. |
| Template.VlibTemplate.NewTemplate | src/Original/vlibTemplate.php:172-195 | A missing file kills and changes nothing. Otherwise the parse state is cleared and the found path recorded; variables and loops are kept. |
| Template.VlibTemplate.SetVar | src/Original/vlibTemplate.php:209-230 | The result and the new `_vars` are Storage.SetVar of the old ones. |
| Template.VlibTemplate.StoreVar | src/Original/vlibTemplate.php:220-227 | The scalar form updates `_vars` as AssignVar says. |
| Template.VlibTemplate.StoreEntries | src/Original/vlibTemplate.php:211-218 | The foreach updates `_vars` entry by entry as AssignEntries says, stopping at a throw. |
| Template.VlibTemplate.StoreEntry | src/Original/vlibTemplate.php:213-216 | One entry is stored as AssignEntry says. |
| Template.VlibTemplate.UnsetVar | src/Original/vlibTemplate.php:242-255 | Returns true, and `_vars` becomes UnsetVars of the old one. |
| Template.VlibTemplate.ArrayBuild | src/Original/vlibTemplate.php:986-1023 | The loops compute BuildLoop. |
| Template.VlibTemplate.RebuildEntries | src/Original/vlibTemplate.php:992-1002 | The foreach over one row computes RebuildRow. |
| Template.VlibTemplate.RebuildEntry | src/Original/vlibTemplate.php:993-1001 | One entry is rebuilt as one step of RebuildRow. |
| Template.VlibTemplate.NewRowKey | src/Original/vlibTemplate.php:994-995 | The key rewrite is RenameKey. |
| Template.VlibTemplate.AddContext | src/Original/vlibTemplate.php:1003-1017 | The context entries are Decorate, which is AddContextVars under LOOP_CONTEXT_VARS. |
| Template.VlibTemplate.SetLoop | src/Original/vlibTemplate.php:317-329 | The new `_vars` and `_arrvars` are Storage.SetLoop of the old ones. |
| Template.VlibTemplate.UnsetLoop | src/Original/vlibTemplate.php:533-545 | False without names. Otherwise each matching name is removed from `_arrvars`. |
| Template.VlibTemplate.NewLoop | src/Original/vlibTemplate.php:429-438 | The builder becomes Storage.NewLoop of the old one. |
| Template.VlibTemplate.TargetLoop | src/Original/vlibTemplate.php:452 | The addressed loop is Target: the given name, else `end()` of the name list. |
| Template.VlibTemplate.AddRow | src/Original/vlibTemplate.php:450-465 | The builder becomes Storage.AddRow of the old one. |
| Template.VlibTemplate.GetLoop | src/Original/vlibTemplate.php:509-521 | The result and the builder are Storage.GetLoop of the old builder. |
| Template.VlibTemplate.AddLoop | src/Original/vlibTemplate.php:476-497 | Result, stores and builder are Storage.AddLoop of the old ones. |
| Template.VlibTemplate.CommitAll | src/Original/vlibTemplate.php:479-485 | The foreach of addLoop() is CommitFrom. The loops it did not reach stay in `_currloop`. |
| Template.VlibTemplate.DropFirst | src/Original/vlibTemplate.php:482 | Unsetting the loop the foreach is at drops exactly that loop. |
| Template.VlibTemplate.ClearVars | src/Original/vlibTemplate.php:582-586 | `_vars` becomes empty. |
| Template.VlibTemplate.ClearLoops | src/Original/vlibTemplate.php:596-602 | `_arrvars` and the builder become empty. |
| Template.VlibTemplate.ClearAll | src/Original/vlibTemplate.php:612-617 | Both stores and the builder become empty. |
| Template.VlibTemplate.Reset | src/Original/vlibTemplate.php:557-572 | Everything but the options and the namespace stack returns to its initial value. |
| Template.VlibTemplate.SetUnknown | src/Original/vlibTemplate.php:1431-1434 | The name is recorded once, and unknownsExist() becomes true. |
| Template.VlibTemplate.SetUnknowns | src/Original/vlibTemplate.php:669-677 | The result and the options are Storage.SetUnknowns of the old options. |
| Template.VlibTemplate.ScopeWalk | src/Original/vlibTemplate.php:1064-1073 | The for loop over `_namespace` computes Walk. |
| Template.VlibTemplate.ResolveName | src/Original/vlibTemplate.php:1063-1079 | The read compiled for a name is Resolve. |
| Template.VlibTemplate.ParseIf | src/Original/vlibTemplate.php:1036-1080 | `_parseIf` compiles IfCond. |
| Template.VlibTemplate.ParseVar | src/Original/vlibTemplate.php:1132-1209 | `_parseVar` compiles VarInstr. |
| Template.VlibTemplate.ParseLoop | src/Original/vlibTemplate.php:1091-1117 | The name is pushed, and the loop runs over LoopPath of the pushed stack at depth height-1. |
| Template.VlibTemplate.ArrangeAttributes | src/Original/vlibTemplate.php:1250-1256 | The attribute loop computes Arrange. |
| Template.VlibTemplate.ParseTag | src/Original/vlibTemplate.php:1233-1316 | Instruction and new stack are TagSpec of the old stack. |
| Template.VlibTemplate.TagName | src/Original/vlibTemplate.php:1259-1273 | Name and prefix are NameParts. |
| Template.VlibTemplate.ParseOpenTag | src/Original/vlibTemplate.php:1250-1316 | An opening tag compiles as TagSpec says. |
| Template.VlibTemplate.CompileVar | src/Original/vlibTemplate.php:1278-1280 | The var case throws without a name, and otherwise compiles VarInstr with the default escape. |
| Cache.LifetimeSetting | src/Original/vlibTemplateCache.php:76-83 | Null and 0 are refused (`0 == null`), so the stored lifetime is never 0. -1 becomes five years; any other value is kept. |
| Cache.ExtensionSetting | src/Original/vlibTemplateCache.php:93-98 | Accepted exactly when the lower-cased string matches `^[a-z0-9]+$`. What is stored is the lower-cased string. |
| Cache.ExtensionIdempotent | src/Original/vlibTemplateCache.php:93-98 | An accepted extension is accepted again unchanged. |
| Cache.ExtensionKeepsNewline | src/Original/vlibTemplateCache.php:95 | `VTC` followed by a newline is accepted and stored as `vtc` followed by a newline. |
| Cache.FreshEarlier | src/Original/vlibTemplateCache.php:121-122 | A cache that is fresh now was fresh at every earlier time. |
| Cache.FreshAfterWrite | src/Original/vlibTemplateCache.php:117-131 | A cache written no earlier than the template's last change, with a lifetime of 0 or more, is fresh at the moment it is written. Once the template changes after the write, the cache is stale at every time, so by CheckCache's contract every later check returns false. |
| Cache.CacheFilename | src/Original/vlibTemplateCache.php:141-144 | The name is directory, `/`, digest, `.` and extension, and its length is the sum of those parts. |
| Cache.FilenameDigest | src/Original/vlibTemplateCache.php:141-144 | Two digests of one length give one file name only when they are equal. |
| Cache.TemplateCache.constructor | src/Original/vlibTemplateCache.php:35-40 | The cache fields start null and false. |
| Cache.TemplateCache.ClearCache | src/Original/vlibTemplateCache.php:50-54 | Sets the clear flag and returns true. |
| Cache.TemplateCache.Recache | src/Original/vlibTemplateCache.php:63-66 | The same as clearCache. |
| Cache.TemplateCache.SetCacheLifeTime | src/Original/vlibTemplateCache.php:76-83 | Stores LifetimeSetting when it accepts, and changes nothing when it refuses. |
| Cache.TemplateCache.SetCacheExtension | src/Original/vlibTemplateCache.php:93-98 | Stores ExtensionSetting when it accepts, and changes nothing when it refuses. |
| Cache.TemplateCache.CheckCache | src/Original/vlibTemplateCache.php:109-133 | The cache file name is recorded. Under the clear flag the existing file is deleted and the result is false. Otherwise the result and `_cacheexists` are the freshness test. |
| Ini.DefaultSettings | src/vlibIni.php:100-154 | There are nineteen settings, all under string keys. |
| Ini.DefaultsPacked | src/vlibIni.php:100-154 | No setting is named twice. |
| Ini.DefaultOverrideOn | src/vlibIni.php:136-152 | By default LOOP_NOT_ARRAY_OVERRIDE is true, CACHE_LIFETIME is one week and CACHE_DIRECTORY is the temporary directory. |
| Ini.LoopArgument | src/vlibTemplate.php:22-25 | A non-array becomes `[]` exactly when the override is `true`. An array passes through unchanged. |
| Ini.OverrideStoresTrue | src/vlibTemplate.php:22-25 | With the override on, a non-array loop is stored as `true` and sets no variable. With it off, the call is ignored. |
| Ini.VlibIni.constructor | src/vlibIni.php:94 | A new instance has an empty configuration. |
| Ini.IniState.constructor | src/vlibIni.php:69 | There is no instance at first. |
| Ini.IniState.GetConfig | src/vlibIni.php:173-182 | Never empty. It returns the defaults while there is no instance or its configuration is empty, and a packed array while the state is valid. |
| Ini.IniState.SetConfig | src/vlibIni.php:160-166 | Throws exactly before setup. Otherwise the configuration becomes the current one overlaid with the argument. |
| Ini.IniState.Setup | src/vlibIni.php:80-92 | Creates the instance only on first use and always returns the one instance. Its configuration is the previous one overlaid with the data. |
| Ini.IniState.TemplateOptions | src/vlibIni.php:190-193 | A string key reads the call's option if it gives one, else the current configuration's. The result is packed. |
| Ini.IniState.SetLoopOverride | src/vlibTemplate.php:22-25 | Parent setLoop on LoopArgument of the current configuration. |
| Ini.OverlayGet | src/vlibIni.php:190-193 | Every string key of an overlay reads the new value if given, else the old one. |
| Ini.SetConfigGet | src/vlibIni.php:160-166 | After setConfig(a), a key of a reads as a gives it and any other string key keeps its value. |
| Ini.SetConfigTwice | src/vlibIni.php:160-166 | Applying the same string-keyed settings twice is applying them once. |

## Left out

- The template scanner (the big regular expression that finds tags), `_parse` and `_intParse`: they are not modelled. Tags arrive as `Compile.TagArgs`, already split into opener, keyword and attribute pairs.
- File I/O is replaced by parameters: `_fileSearch`, `_getData`, include paths, cache file reading, writing and locking (`_createCache`), `file_exists`, `filemtime`, `date('U')`, `realpath` and `md5`. newTemplate receives the search result, and the cache receives the digest, existence flag and times.
- `eval` of the generated code is not run. The PHP text `_parseTag` builds is replaced by an instruction value whose meaning is given in `Runtime`.
- setDbLoop, setContextVars, setPath, the parse timer, the debug module, TMPL_PHPINCLUDE execution, `_setOption` and the output functions (fastPrint, pparse, pprint, grab): they are not modelled.
- The ESCAPE_TAGS and FORMAT_TAGS tables and library functions used as formats are not modelled. An escape or format is a name that `Runtime` applies as an opaque wrapper.
- Template.VlibTemplate.constructor: it does not fetch its options from vlibIni, call newTemplate or set the context variables. The options are a parameter and the object starts in the declared initial state. The overlay itself is Ini.IniState.TemplateOptions.
- Cache.TemplateCache.constructor: the cache class is modelled on its own fields and options, not as a subclass of the template class.
- getVar, getVars, getUnknowns, unknowns and unknownsExist read the state and change nothing. They are functions (`Storage.GetVar`, `Storage.GetVars`, `VlibTemplate.UnknownsExist`), not methods.
- Options: only the settings the core reads are modelled, as the typed record `Config.Options`. Conversion from vlibIni's array to that record is not modelled.
- Loose comparison is modelled only where it decides a branch: `== null`, `empty()`, and `== false` on a build result.
- Storage.RecordUnknown: `in_array` in `_setUnknown` compares loosely, so two numeric names of equal value, such as "10" and "1e1" or "1" and "01", count as one name and only the first is listed. The model compares names exactly and lists both. The two agree whenever the names are not both numeric strings.
- Runtime.RunPrint: the compiled code puts the tag text it prints and the name it passes to `_setUnknown` inside double-quoted PHP strings, escaping only `"`. PHP would also expand `$name`, `{$...}` and backslash escapes there. The model prints and records the text as it is, so it agrees only for tag text and names without `$` or `\`.
- Runtime.UnknownComment: the same double-quoted string holds the comment, so `$` and `\` in the tag are expanded by PHP and kept as they are by the model.
- LoopBuild.BuildLoop: its own contract states the shape of the result (empty, rows keyed 0..n-1, `false`, a TypeError only under CASELESS) and not the rows' contents. The contents are stated by LoopBuild.BuildLoopRow for each row, with LoopBuild.RebuildRowContents, LoopBuild.RebuildRowEntry and LoopBuild.RebuildRowKeys.
- LoopBuild.BuildRows: like BuildLoop, its contract states the shape only. The rows it builds are described by LoopBuild.BuildLoopRow.
- PHP integers are unbounded here, so 64-bit overflow of row numbers and lifetimes is not modelled.
- setLoop, newLoop, unsetLoop and setUnknowns take string names. Other name types, which PHP would coerce or reject, are not modelled.
- A nameless loop pushes null onto the namespace stack in PHP. Here it pushes the empty string, which compares the same in the generated code.
- Storage.GoodBuilder: it states that the builder's name list has no repeats and that every loop name is an identifier. It does not state that the name list and the loop list name the same loops, since addLoop() empties the name list but can leave loops behind after a throw.
- Strings are sequences of characters taken as bytes. Multi-byte encodings, locale-dependent case mapping and htmlspecialchars are not modelled.

## Findings

| source | as written | input that shows it | evidently intended | confidence | as-written member | corrected member |
|---|---|---|---|---|---|---|
| src/Original/vlibTemplate.php:1285-1286 | `unless` compiles to `if (!` followed by the if condition, so with a VALUE the `!` binds to the read, `(!x) == value` | `<tmpl_unless x value="b">` with x = "a": `(!"a") == 'b'` is `false == 'b'`, false, so the body is hidden although x is not "b" | `!(x == value)`: unless enters exactly where if on the same tag does not | high (not executed) | Runtime.UnlessAsWrittenDiffers | Runtime.UnlessIsNotIf |
