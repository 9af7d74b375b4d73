# RDK logger control plane in Dafny

This project models the part of the RDK logger that decides, for every
(module, level) pair, whether a log line goes out, and that changes the
decision at start-up and at run time. The model is proved against
specifications of its own.

- **Levels** (`levels.dfy`, from `include/rdk_debug.h`) holds:
  - the fifteen `rdk_LogLevel` ordinals and the `rdk_logLevelStrings` name table;
  - the 32-bit level mask (`bv32`) that the control table stores for each module;
  - `ValidMask`, which says no bit at or above `ENUM_RDK_LOG_COUNT` is set.
- **Chars** and **Wrappers** hold:
  - the `isspace`/`islower`/`toupper` rules the logger uses;
  - the `Option` type that stands for a pointer that may be NULL.
- **Registry** (`registry.dfy`, from `src/rdk_logger_util.c`) models the configuration cache.
  - The semantics on values: `trim`, the splitting of a `key = value` line, and the file cut into `fgets` buffers.
  - The state of `g_envCache` is a `seq` of nodes, list head first, together with the persistent `static` module counter and `global_count`.
  - `WellFormed` is the invariant every file read keeps: names are distinct, the reserved keys and only they carry number 0, and the numbers 1 to `global_count` name the modules one to one.
  - The class `EnvCache` holds that state and performs the reads and the four lookups.
- **LevelParser** (`parser.dfy`) and **ParseFacts** (`parser_props.dfy`) cover `parseLogConfig` with `forceUpperCase`, `logNameToEnum`, `extractToken` and `SKIPWHITE`.
  - The parser is a fold of upper-cased tokens over a mask.
  - The imperative methods are proved to compute that fold.
  - The properties of the fold are proved as lemmas.
- **Control** (`control.dfy`, from `src/rdk_debug_priv.c`) covers `rdk_g_logControlTbl` and what reads and writes it:
  - start-up (`rdk_dbg_priv_LogControlInit`);
  - run-time changes (`rdk_dbg_priv_SetLogLevelString`);
  - the text query (`rdk_dbg_priv_LogQueryOpSysIntf`);
  - the gate (`WANT_LOG`, `rdk_dbg_enabled`, the early return and the level switch of `rdk_debug_priv_log_msg`).

  The table is first specified as `seq<Mask>`. The class `LogControl` keeps the array and is proved to compute those values. The registry is passed in as an `EnvCache`.
- **LayoutHelpers** (`layouthelpers.dfy`) holds three pure string rules of the log4c glue in the same file:
  - the module name a layout prints for a category;
  - the `host:port` check before a UDP socket is made;
  - the `$(VAR)` expansion of a stream name, with `getenv` given as a map.
- **DynamicLogger** (`dynlog.dfy`, from `src/rdk_dynamic_logger.c`) covers the remote control listener.
  - The socket is an open flag plus a queue of `(from 127.0.0.1, bytes)` datagrams.
  - `DynLogger.Deliver` stands for the network queueing a datagram.
  - `RDK_LOG_ControlCB`, whose source is not part of this model, is a sink that records the `(component, level string)` pairs it is given.
  - The receive buffer is the 128-byte array the drain loop reuses. A datagram is decoded from that buffer, so bytes an earlier datagram left in it are part of the model.

## Model

| member | source | states |
|---|---|---|
| Levels.OrdinalsContiguous | include/rdk_debug.h:30-49 | FATAL is 0, the levels run contiguously up to TRACE9 = 14, and `ENUM_RDK_LOG_COUNT` is 15 |
| Levels.LevelStringsShape | include/rdk_debug.h:57-75 | the table has one entry per level, entry `i` names level `i`, WARN is spelled "WARNING", and every name is a non-empty upper-case word without white space |
| Levels.LevelStringsDistinct | include/rdk_debug.h:57-75 | no two levels share a name |
| Levels.ValidMaskBits | src/rdk_debug_priv.c:635-642 | a set bit of a valid mask is the bit of an actual level |
| Levels.LevelBitValid | src/rdk_debug_priv.c:336-343 | the bit of any level is a valid mask |
| Chars.ToUpper | src/rdk_debug_priv.c:210-220 | lower-case letters move down by 32, every other character is kept, and white space stays white space |
| Chars.Upper | src/rdk_debug_priv.c:210-220 | the copy has the same length and is upper-cased character by character |
| Chars.UpperIdempotent | src/rdk_debug_priv.c:210-220 | upper-casing is idempotent, its result is upper case, and upper-case text is left alone |
| LevelParser.IndexFromSpec | src/rdk_debug_priv.c:228-241 | the search returns -1 exactly when no entry from `i` on matches; otherwise it returns the first match |
| LevelParser.NameToLevel | src/rdk_debug_priv.c:228-241 | the answer is -1 or a level |
| LevelParser.NameToLevelSpec | src/rdk_debug_priv.c:228-241 | the answer is -1 exactly for names outside the table; otherwise the table entry at the answer is the name |
| LevelParser.NameToLevelOfName | src/rdk_debug_priv.c:228-241 | every table name is found at its own level |
| LevelParser.LogNameToEnum | src/rdk_debug_priv.c:228-241 | the loop computes `NameToLevel` |
| LevelParser.ForceUpperCase | src/rdk_debug_priv.c:210-220 | the buffer is upper-cased in place |
| LevelParser.TokenEnd | src/rdk_debug_priv.c:253-262 | the token end is the first white space from `i`, or the end of the string |
| LevelParser.TokensFrom | src/rdk_debug_priv.c:253-262 | from position `i` there are no more tokens than characters, and each token is non-empty and free of white space |
| LevelParser.Tokens | src/rdk_debug_priv.c:253-262 | the tokens of an expression are non-empty words without white space, at most one per character |
| LevelParser.ExtractToken | src/rdk_debug_priv.c:253-262 | the token is the text from the cursor up to the next white space, and the cursor moves there |
| LevelParser.TokensStep | src/rdk_debug_priv.c:293-354 | taking the token at `i` off applies its mask first and requires it to be valid too |
| LevelParser.ApplyOneToken | src/rdk_debug_priv.c:299-348 | the loop body gives the token's mask and reports whether the token was accepted |
| LevelParser.ApplyLevelName | src/rdk_debug_priv.c:322-348 | `NAME`/`!NAME` sets or clears the bit of the level so named, and is accepted exactly when the name is in the table |
| LevelParser.ApplyLevel | src/rdk_debug_priv.c:334-344 | for a found level its bit is set, or cleared when inverted; -1 changes nothing |
| LevelParser.TokenMask | src/rdk_debug_priv.c:299-348 | a token `parseLogConfig` does not accept leaves the mask as it was |
| LevelParser.RunMask | src/rdk_debug_priv.c:293-354 | a run of tokens none of which is accepted leaves the mask as it was |
| LevelParser.Parse | src/rdk_debug_priv.c:275-357 | `RC_OK` comes with an empty message and only then; the message is empty, the empty-level warning or the invalid-name warning; with the empty-level warning the mask is the base unchanged |
| LevelParser.SkipWhite | src/rdk_debug_priv.c:53 | the cursor moves past white space only, and the tokens that follow are unchanged |
| LevelParser.ParseLogConfig | src/rdk_debug_priv.c:275-357 | return code, written mask and message equal `Parse` |
| ParseFacts.TokensEmptyIff | src/rdk_debug_priv.c:285-296 | there are no tokens exactly when only white space is left |
| ParseFacts.EmptyExpression | src/rdk_debug_priv.c:285-291 | an empty or all-blank expression gives `RC_ERROR`, the empty-level message and the mask unchanged; that message appears only then |
| ParseFacts.AllValidIff | src/rdk_debug_priv.c:293-354 | the expression is all valid exactly when every upper-cased token is valid |
| ParseFacts.RcOkIff | src/rdk_debug_priv.c:285-357 | `RC_OK` comes back exactly for a non-empty expression of valid tokens; otherwise the message is the invalid-name one |
| ParseFacts.RunMaskAppend | src/rdk_debug_priv.c:293-354 | tokens apply left to right: a concatenation runs the first part and then the second |
| ParseFacts.InvalidTokenNoEffect | src/rdk_debug_priv.c:344-348 | an invalid token leaves the mask as it is |
| ParseFacts.InvalidTokenSkipped | src/rdk_debug_priv.c:344-356 | an invalid token is skipped, the tokens around it still apply, and the expression is not all valid |
| ParseFacts.NoneResets | src/rdk_debug_priv.c:307-310 | `NONE` throws away the base and everything before it; later tokens apply on top of 0 |
| ParseFacts.LogAllBits | src/rdk_debug_priv.c:61-63 | `LOG_ALL` has exactly bits 0 to 4 |
| ParseFacts.LogTraceBits | src/rdk_debug_priv.c:56-58 | `LOG_TRACE` has exactly bits 6 to 14 |
| ParseFacts.AllEffect | src/rdk_debug_priv.c:303-306 | `ALL` sets the `LOG_ALL` bits and keeps every other bit |
| ParseFacts.TraceEffect | src/rdk_debug_priv.c:311-314 | `TRACE` sets the `LOG_TRACE` bits and keeps every other bit |
| ParseFacts.NotTraceEffect | src/rdk_debug_priv.c:315-318 | `!TRACE` clears the `LOG_TRACE` bits and keeps bits 0 to 5 and the rest |
| ParseFacts.LevelNameNotMeta | src/rdk_debug_priv.c:303-322 | no level name is a meta name or starts with `!` |
| ParseFacts.NameTokenValue | src/rdk_debug_priv.c:320-348 | any token other than a meta name acts through the level it names |
| ParseFacts.SetLevelEffect | src/rdk_debug_priv.c:340-343 | setting a level's bit adds that level and keeps every other bit |
| ParseFacts.ClearLevelEffect | src/rdk_debug_priv.c:336-339 | clearing a level's bit removes that level and keeps every other bit |
| ParseFacts.NameValue | src/rdk_debug_priv.c:320-343 | a level's name is accepted and sets that level |
| ParseFacts.NotNameToken | src/rdk_debug_priv.c:326-330 | `!` plus a level's name is no meta name, is inverted, and names that level |
| ParseFacts.NotNameValue | src/rdk_debug_priv.c:326-339 | `!NAME` is accepted and clears that level |
| ParseFacts.TokenEndUpper | src/rdk_debug_priv.c:297-299 | upper-casing keeps token boundaries where they were |
| ParseFacts.TokensFromUpper | src/rdk_debug_priv.c:297-299 | the upper-cased text has the same tokens in effect: same emptiness, same mask, same validity |
| ParseFacts.ParseUpper | src/rdk_debug_priv.c:297-299 | level expressions are case-insensitive |
| ParseFacts.TokenMaskValid | src/rdk_debug_priv.c:303-343 | every token keeps a mask within the fifteen levels |
| ParseFacts.RunMaskValid | src/rdk_debug_priv.c:293-354 | a whole expression keeps a valid mask valid |
| ParseFacts.ParseValid | src/rdk_debug_priv.c:275-357 | `parseLogConfig` never sets a bit at or above `ENUM_RDK_LOG_COUNT` |
| ParseFacts.SingleToken | src/rdk_debug_priv.c:253-262 | text without white space is one token |
| ParseFacts.ParseOneToken | src/rdk_debug_priv.c:293-357 | a single upper-case token is applied once and accepted exactly when valid |
| ParseFacts.ParseLevelName | src/rdk_debug_priv.c:320-343 | a level name alone is accepted and sets exactly that bit |
| ParseFacts.DebugFromNone | src/rdk_debug_priv.c:340-343 | `DEBUG` from 0 gives exactly the DEBUG bit |
| ParseFacts.NotDebugUndoes | src/rdk_debug_priv.c:336-339 | `!DEBUG` from the DEBUG bit alone gives 0 |
| ParseFacts.NoneAlone | src/rdk_debug_priv.c:307-310 | `NONE` gives 0 from any mask, accepted |
| Registry.SkipSpace | src/rdk_logger_util.c:58-63 | the scan stops at the first character that is not white space, or at the end |
| Registry.BackSpace | src/rdk_logger_util.c:66-72 | the backward scan stops just after the last character that is not white space |
| Registry.TrimmedSpec | src/rdk_logger_util.c:51-79 | the result is empty exactly for blank input; otherwise it has no white space at either end and is the slice between the first and the last character that is not white space |
| Registry.TrimmedUnchanged | src/rdk_logger_util.c:51-79 | text without white space at either end is left as it is |
| Registry.TrimmedIdempotent | src/rdk_logger_util.c:51-79 | trimming twice is trimming once |
| Registry.Trim | src/rdk_logger_util.c:51-79 | `trim` writes `Trimmed(instr)` |
| Registry.ChunkEndFrom | src/rdk_logger_util.c:112 | an `fgets` read takes at most 255 characters, and ends at a newline when it stops early |
| Registry.ChunkEnd | src/rdk_logger_util.c:112 | as `ChunkEndFrom`, from the start of the read |
| Registry.ChunksSpec | src/rdk_logger_util.c:112 | the buffers concatenate back to the file, and each is non-empty, shorter than the line buffer, and has a newline only at its end |
| Registry.IndexOfChar | src/rdk_logger_util.c:128 | `strchr` finds the first occurrence, or -1 when there is none |
| Registry.ParseLine | src/rdk_logger_util.c:124-142 | a setting comes only from a line that does not start with `#` and holds `=`, and its name and value are already trimmed |
| Registry.TrimmedWithin | src/rdk_logger_util.c:141-142 | trimming keeps only characters of the original |
| Registry.ParseLineSpec | src/rdk_logger_util.c:124-142 | a line yields a setting exactly when it does not start with `#` and contains `=`; the name then contains no `=` |
| Registry.ValueLength | src/rdk_logger_util.c:136-138 | the intended value length is the number of characters after `=` |
| Registry.ValueLengthAsWritten | src/rdk_logger_util.c:136-138 | as written, the count is two more than the characters after `=` |
| Registry.ValueLengthFits | src/rdk_logger_util.c:136-138 | the intended length always leaves room for the terminator; the code as written writes 2 further on |
| Registry.ValueTerminatorOverrun | src/rdk_logger_util.c:136-138 | as written, a 255-character read starting with `=` puts the terminator at index 256 of a 256-byte buffer |
| Registry.IndexOfName | src/rdk_logger_util.c:144-152 | the search by name returns the first node with that name, or -1 |
| Registry.IndexOfNumber | src/rdk_logger_util.c:229-251 | the search by number returns the first node with that number, or -1 |
| Registry.ValueOf | src/rdk_logger_util.c:197-219 | `rdk_logger_envGet` gives NULL exactly when no node has the name, and otherwise the value of a node with that name |
| Registry.NumberOf | src/rdk_logger_util.c:261-283 | `rdk_logger_envGetNum` gives -1 when no node has the name; any other answer is the number of a node with that name |
| Registry.ValueOfNumber | src/rdk_logger_util.c:229-251 | `rdk_logger_envGetValueFromNum` gives NULL exactly when no node has the number, and otherwise the value of a node with that number |
| Registry.NameOfNumber | src/rdk_logger_util.c:293-315 | `rdk_logger_envGetModFromNum` gives NULL exactly when no node has the number, and otherwise the name of a node with that number |
| Registry.AddEntry | src/rdk_logger_util.c:144-179 | a name already present adds no node and keeps the counter; a new name goes in front of the old list; the counter goes up by one exactly for a new name that is not reserved |
| Registry.AddLine | src/rdk_logger_util.c:112-180 | a comment line or a line without `=` changes nothing; a line adds at most one node, and the counter grows only with a new node |
| Registry.AddLines | src/rdk_logger_util.c:112-180 | over any run of buffers the counter never goes down and grows by no more than the list, which gains at most one node per buffer |
| Registry.ReadConfFile | src/rdk_logger_util.c:89-187 | an empty file changes nothing; the counter never goes down and grows by no more than the list |
| Registry.WellFormed | src/rdk_logger_util.c:144-182 | in a well-formed cache every number from 1 to the counter names a node, and that node is not a reserved key |
| Registry.IndexOfNameSameNames | src/rdk_logger_util.c:160-165 | lists with the same names in the same order find a name at the same place |
| Registry.IndexOfNumberSameNumbers | src/rdk_logger_util.c:160-165 | lists with the same numbers in the same order find a number at the same place |
| Registry.IndexOfNameDistinct | src/rdk_logger_util.c:197-219 | with distinct names, each node is the one its own name finds |
| Registry.IndexOfNumberDistinct | src/rdk_logger_util.c:229-251 | in a well-formed cache, each module is the one its own number finds |
| Registry.NumberRoundTrip | src/rdk_logger_util.c:261-315 | for `1 <= n <= global_count` the name for `n` exists, is not reserved, and its number is `n` |
| Registry.NameRoundTrip | src/rdk_logger_util.c:261-315 | a registered module name has a number from 1 to the counter, and that number gives the name back |
| Registry.NumberOfRange | src/rdk_logger_util.c:261-283 | every reported number lies between -1 and the counter |
| Registry.NumberOfOthers | src/rdk_logger_util.c:168-175 | a reserved key that is set has number 0; a name has no value exactly when its number is -1 |
| Registry.NumberOutOfRange | src/rdk_logger_util.c:229-251 | numbers above the counter or below 0 find nothing; number 0 finds only a reserved key |
| Registry.AddEntryWellFormed | src/rdk_logger_util.c:144-182 | storing a setting keeps the cache well formed |
| Registry.UpdateWellFormed | src/rdk_logger_util.c:160-165 | a new value in place keeps the cache well formed |
| Registry.InsertWellFormed | src/rdk_logger_util.c:168-179 | a new name at the front, numbered 0 if reserved and the new counter otherwise, keeps the cache well formed |
| Registry.InsertUsed | src/rdk_logger_util.c:168-179 | after an insertion, every number up to the counter is still in use |
| Registry.AddEntryValue | src/rdk_logger_util.c:144-179 | after storing, the stored name has the new value and every other name keeps its own |
| Registry.AddEntryNumber | src/rdk_logger_util.c:144-179 | a name seen before keeps its number; a new module gets counter + 1; a reserved key gets 0; other names keep their numbers; the counter grows only for a new module |
| Registry.AddLinesWellFormed | src/rdk_logger_util.c:112-180 | reading any sequence of buffers keeps the cache well formed and never lowers the counter |
| Registry.ReadConfFileWellFormed | src/rdk_logger_util.c:89-187 | reading a file keeps the cache well formed |
| Registry.EnvCache.constructor | src/rdk_logger_util.c:92 | the cache of a fresh process is empty, with both counters 0 |
| Registry.EnvCache.AddConfFile | src/rdk_logger_util.c:89-187 | a file that cannot be opened returns -1 and changes nothing; otherwise the result is 0, the cache is `ReadConfFile` of the old one, and `global_count` becomes the counter |
| Registry.EnvCache.ReadLine | src/rdk_logger_util.c:112-180 | one buffer of the read loop does what `AddLine` says and leaves `global_count` alone |
| Registry.EnvCache.Store | src/rdk_logger_util.c:144-179 | the update or insertion does what `AddEntry` says |
| Registry.EnvCache.EnvGet | src/rdk_logger_util.c:197-219 | the lookup returns the value of the first node with an exactly matching name, or NULL |
| Registry.EnvCache.EnvGetValueFromNum | src/rdk_logger_util.c:229-251 | the lookup returns the value of the first node with that number, or NULL |
| Registry.EnvCache.EnvGetNum | src/rdk_logger_util.c:261-283 | the lookup returns the number of the first node with that name, or -1 |
| Registry.EnvCache.EnvGetModFromNum | src/rdk_logger_util.c:293-315 | the lookup returns the name of the first node with that number, or NULL |
| Control.InitTable | src/rdk_debug_priv.c:477-503 | the start-up table has the size of the array |
| Control.TableValid | src/rdk_debug_priv.c:474-503 | in a valid table every set bit lies in a module slot, never slot 0, and below `ENUM_RDK_LOG_COUNT` |
| Control.InitSlot | src/rdk_debug_priv.c:477-503 | each slot after start-up is a valid mask, and only slots 1 to `global_count` can be non-zero |
| Control.LayerValid | src/rdk_debug_priv.c:494-503 | layering a value onto a valid mask gives a valid mask |
| Control.InitTableValid | src/rdk_debug_priv.c:477-503 | start-up produces a valid table |
| Control.InitTableModules | src/rdk_debug_priv.c:477-503 | slot 0 and the slots past `global_count` are 0; a registered module's slot is its own value layered on the default, or the default alone when its value is unset or empty |
| Control.InitDefaultThenModule | src/rdk_debug_priv.c:480-503 | with default level `d` and module level `l`, the module's slot is exactly `BIT(d) \| BIT(l)` (for example ERROR plus INFO) |
| Control.SetDefault | src/rdk_debug_priv.c:533-542 | setting the default keeps the table size |
| Control.SetLevel | src/rdk_debug_priv.c:523-562 | the table keeps its size; a failed change leaves it as it was; slot 0 and the slots past `global_count` never change |
| Control.FindModule | src/rdk_debug_priv.c:547-559 | the slot search returns the first module number with that name, or -1 |
| Control.FindModuleNumber | src/rdk_debug_priv.c:547-559 | in a well-formed registry the search finds the module's own number |
| Control.SetDefaultEffect | src/rdk_debug_priv.c:533-542 | setting `LOG.RDK.DEFAULT` succeeds and overwrites slots 1 to `global_count` with the expression parsed from 0; an empty expression zeroes them |
| Control.SetModuleEffect | src/rdk_debug_priv.c:547-559 | for a registered module and a non-empty expression, only that module's slot changes, to the expression parsed onto its old value |
| Control.SetOtherEffect | src/rdk_debug_priv.c:523-562 | an unknown name, a reserved key other than the default, or an empty expression fails and changes nothing |
| Control.SetLevelValid | src/rdk_debug_priv.c:523-562 | run-time changes keep the table valid |
| Control.LevelsSet | src/rdk_debug_priv.c:635-642 | the query loop tests bits 0 to `ENUM_RDK_LOG_COUNT` |
| Control.LevelsSetAt | src/rdk_debug_priv.c:642 | flag `l` is the loop's test of bit `l` |
| Control.Names | src/rdk_debug_priv.c:635-649 | the full listing from `level` on is empty exactly when no level from there is set, and otherwise starts with a space |
| Control.Listing | src/rdk_debug_priv.c:635-653 | the loop only appends: the text it started with is a prefix of the text it ends with |
| Control.TopBitClear | src/rdk_debug_priv.c:635 | in a valid mask bit 15 is clear, so the loop never reads the name table past its end |
| Control.ListingReply | src/rdk_debug_priv.c:635-653 | the loop answers either "OK" or the truncation warning |
| Control.ListingOk | src/rdk_debug_priv.c:635-653 | the answer is "OK" exactly when the remaining names are empty or all of them fit the length check |
| Control.ListingWhole | src/rdk_debug_priv.c:635-653 | when the answer is "OK", the text is the start plus every remaining name |
| Control.ListingPrefix | src/rdk_debug_priv.c:635-653 | what the loop builds is always a prefix of the full listing, keeping the names already appended |
| Control.ListingBound | src/rdk_debug_priv.c:642-649 | the loop never builds more than the length check allows |
| Control.MaskListing | src/rdk_debug_priv.c:610-653 | over a whole mask the reply is "OK" or the warning, the text is a prefix of the full listing, and on "OK" it is all of it |
| Control.Query | src/rdk_debug_priv.c:592-653 | the reply is "OK", the warning or "Unknown module specified.", and the last exactly when the name has no number |
| Control.DescribeLevels | src/rdk_debug_priv.c:610-653 | the `strcat` loop computes the listing of the module's mask |
| Control.QuerySpec | src/rdk_debug_priv.c:592-653 | an unknown module returns "Unknown module specified."; a zero mask returns "NONE" and "OK"; otherwise the text is a prefix of the ascending names of the set bits, each after a space, and "OK" means it is all of them |
| Control.QueryFits | src/rdk_debug_priv.c:642-649 | with the added space counted in the check, every answer fits the buffer beside its NUL |
| Control.LevelsSet2F | src/rdk_debug_priv.c:635-642 | mask 0x2F sets FATAL, ERROR, WARNING, NOTICE and DEBUG |
| Control.Names2F | src/rdk_debug_priv.c:635-649 | the full listing of mask 0x2F is 33 characters |
| Control.QueryOverrun | src/rdk_debug_priv.c:642-649 | as written, with a 33-byte buffer the query of mask 0x2F answers "OK" with all 33 characters, so the NUL lands past the buffer |
| Control.QueryCheckedStops | src/rdk_debug_priv.c:642-649 | with the space counted, the same query stops with the warning after 27 characters, a prefix of the listing |
| Control.CheckedStopsFrom0 | src/rdk_debug_priv.c:635-649 | the whole checked 0x2F query from the start stops at 27 characters |
| Control.CheckedStopsFrom2 | src/rdk_debug_priv.c:635-649 | from WARNING on, WARNING and NOTICE fit and DEBUG does not |
| Control.WantLog | src/rdk_debug_priv.c:49 | in a valid table a set bit is only ever in a module slot and for a real level |
| Control.UnknownModuleIndex | src/rdk_logger_util.c:282 | an unregistered name has number -1, which is no index of the table |
| Control.UnknownModuleExample | src/rdk_logger_util.c:282 | in an empty registry any module name gives -1 |
| Control.PriorityOf | src/rdk_debug_priv.c:676-710 | TRACE1 to TRACE9 map to the trace priority; DEBUG and anything out of range map to debug; each of FATAL, ERROR, WARN, NOTICE and INFO has its own priority |
| Control.LogControl.constructor | src/rdk_debug_priv.c:457-477 | the static table starts zeroed, with messages enabled |
| Control.LogControl.LogControlInit | src/rdk_debug_priv.c:457-503 | the table becomes `InitTable` of the registry |
| Control.LogControl.CopyToModules | src/rdk_debug_priv.c:484-489 | slots 1 to `count` get the value; the other slots keep theirs |
| Control.LogControl.LayerModules | src/rdk_debug_priv.c:494-503 | each module's own non-empty value is parsed onto its slot; the other slots keep theirs |
| Control.LogControl.SetLogLevelString | src/rdk_debug_priv.c:523-562 | the new table and the result are `SetLevel` of the old table |
| Control.LogControl.LogQueryOpSysIntf | src/rdk_debug_priv.c:582-654 | the name buffer is upper-cased in place, and text and reply are `Query` over the table |
| Control.LogControl.DbgEnabled | src/rdk_debug_priv.c:507-518 | true exactly when the name's number is a module slot from 1 to `global_count` whose bit for the level is set; a name without a registered module is never enabled |
| Control.LogControl.LogMsg | src/rdk_debug_priv.c:656-711 | the module number may be the -1 that `rdk_dbg_MsgRaw` passes for an unregistered name; output happens exactly when `g_debugEnabled` is set and the slot's bit is set, so never with `g_debugEnabled` clear or for -1; then the slot is a module, the level is real, and the priority is `PriorityOf(level)` |
| LayoutHelpers.CategoryModule | src/rdk_debug_priv.c:1113-1132 | the module name is never empty and has no `.` |
| LayoutHelpers.CategoryModuleSuffix | src/rdk_debug_priv.c:1119-1126 | for a usable category the module is its last component: a suffix after a `.`, or the whole name |
| LayoutHelpers.CategoryModuleExample | src/rdk_debug_priv.c:1119-1126 | `LOG.RDK.DEFAULT` gives `DEFAULT` |
| LayoutHelpers.CategoryModuleUnknown | src/rdk_debug_priv.c:1114-1131 | a NULL or empty category, or one that starts or ends with `.`, gives UNKNOWN |
| LayoutHelpers.ModuleOfCategory | src/rdk_debug_priv.c:1113-1132 | the backward scan computes `CategoryModule` |
| LayoutHelpers.LastDot | src/rdk_debug_priv.c:1119-1126 | the position of the last `.` before `j`, or -1 when there is none |
| LayoutHelpers.DigitsEnd | src/rdk_debug_priv.c:393 | the digit run ends at the first character that is not a digit |
| LayoutHelpers.Strtol | src/rdk_debug_priv.c:393 | the end of the number is within the text |
| LayoutHelpers.HostPort | src/rdk_debug_priv.c:374-399 | an accepted setting is a host without `:`, then `:`, then a port from 1 to 32766 |
| LayoutHelpers.HostPortChecked | src/rdk_debug_priv.c:369-383 | the intended check also refuses hosts longer than `HOSTADDR_STR_MAX`, and otherwise agrees with the check as written |
| LayoutHelpers.DecimalString | src/rdk_debug_priv.c:393 | the decimal form of a number is a non-empty run of digits |
| LayoutHelpers.DecimalRoundTrip | src/rdk_debug_priv.c:393 | reading the digits of `n` back gives `n` |
| LayoutHelpers.StrtolDecimal | src/rdk_debug_priv.c:393 | `strtol` reads all the digits of `n`, gives `n`, and stops at anything that is not a digit |
| LayoutHelpers.HostPortOf | src/rdk_debug_priv.c:374-399 | `host:n` is accepted, as host and `n`, exactly when `n` is from 1 to 32766 |
| LayoutHelpers.TrailingGarbage | src/rdk_debug_priv.c:393-399 | a character that is not a digit after the port rejects the setting |
| LayoutHelpers.NoPort | src/rdk_debug_priv.c:374-391 | a setting without `:`, or with nothing after it, is rejected |
| LayoutHelpers.HostPortCheckedRoundTrip | src/rdk_debug_priv.c:369-399 | with the host length checked, a host that fits and a valid port come back out |
| LayoutHelpers.LongHostAccepted | src/rdk_debug_priv.c:369-383 | as written, a 300-character host is accepted and copied into the 256-byte `hostaddr`; the intended check refuses it |
| LayoutHelpers.Find | src/rdk_debug_priv.c:1185 | `strchr` from a position finds the first occurrence, or -1 |
| LayoutHelpers.ExpandFrom | src/rdk_debug_priv.c:1185-1219 | an expanded name is at most `MAX_VAR_LEN` characters, and `newName` never shrinks |
| LayoutHelpers.ExpandVar | src/rdk_debug_priv.c:1196-1213 | the same, from just after `$(` |
| LayoutHelpers.Expand | src/rdk_debug_priv.c:1185-1219 | an expanded name fits in `MAX_VAR_LEN` characters; as written, `newName` holds more than that only on the way to the length error |
| LayoutHelpers.ExpandChecked | src/rdk_debug_priv.c:1185-1219 | with each length checked before the append, `newName` never holds more than `MAX_VAR_LEN` characters |
| LayoutHelpers.CheckFirstFrom | src/rdk_debug_priv.c:1185-1219 | checking lengths before appending changes no outcome and keeps `newName` within its capacity |
| LayoutHelpers.CheckFirstVar | src/rdk_debug_priv.c:1196-1213 | the same, from just after `$(` |
| LayoutHelpers.CheckFirst | src/rdk_debug_priv.c:1185-1219 | the checked expansion has the outcome as written and never overfills `newName` |
| LayoutHelpers.ExpandPlain | src/rdk_debug_priv.c:1214-1219 | a name without `$` is used as it is when it fits, and is a length error otherwise |
| LayoutHelpers.ExpandOne | src/rdk_debug_priv.c:1185-1219 | `p$(v)q` becomes `p`, then the value of `v`, then `q` |
| LayoutHelpers.ExpandBadDollar | src/rdk_debug_priv.c:1188-1189 | a `$` at the end, or a `$` not followed by `(`, is a parse error |
| LayoutHelpers.ExpandBadVariable | src/rdk_debug_priv.c:1198-1204 | an unterminated `$(` or an unset variable is a parse error |
| LayoutHelpers.AppendBeforeCheck | src/rdk_debug_priv.c:1214-1219 | as written, an 1100-character name is copied into the 1025-byte `newName` before the length error; with the check first nothing is copied |
| LayoutHelpers.StreamEnvName | src/rdk_debug_priv.c:1185-1219 | the loop ends like `Expand` |
| LayoutHelpers.AppendVariable | src/rdk_debug_priv.c:1196-1213 | after `$(`, either the error `ExpandVar` ends with, or the expansion continues after the `)` with the value appended |
| DynamicLogger.RemoteNamesTable | src/rdk_dynamic_logger.c:39-83 | the remote names are the table's names except that WARN is "WARN", not "WARNING" |
| DynamicLogger.LogLevelToString | src/rdk_dynamic_logger.c:39-83 | the byte decodes exactly when its low seven bits are a level |
| DynamicLogger.LevelPart | src/rdk_dynamic_logger.c:44 | the level part is below 0x80 |
| DynamicLogger.LevelByteRoundTrip | src/rdk_dynamic_logger.c:39-83 | the byte for level `l` decodes to its remote name, with `!` when bit 7 is set |
| DynamicLogger.LevelByteComplete | src/rdk_dynamic_logger.c:39-83 | every byte that decodes is the byte for its level, negated or not |
| DynamicLogger.RemoteLevelMeaning | src/rdk_dynamic_logger.c:55 | what the parser makes of a decoded level: WARN is rejected as an invalid name with the mask unchanged; any other level is set, or cleared when negated |
| DynamicLogger.WarnNotAName | src/rdk_dynamic_logger.c:55 | "WARN" is no level's name |
| DynamicLogger.WarnUnknown | src/rdk_dynamic_logger.c:55 | "WARN" and "!WARN" are rejected with the mask unchanged |
| DynamicLogger.PlainWarnUnknown | src/rdk_dynamic_logger.c:55 | "WARN" is rejected as an invalid name with the mask unchanged |
| DynamicLogger.NegatedWarnUnknown | src/rdk_dynamic_logger.c:55 | "!WARN" is rejected as an invalid name with the mask unchanged |
| DynamicLogger.NameIsWord | include/rdk_debug.h:57-75 | each level name is a non-empty upper-case word, so it reaches the parser as one token |
| DynamicLogger.NegatedNameParses | src/rdk_dynamic_logger.c:49-51 | `!NAME` clears exactly the bit of that level |
| DynamicLogger.CString | src/rdk_dynamic_logger.c:107-110 | the C string is the prefix before the first NUL |
| DynamicLogger.AppMatchesPrefix | src/rdk_dynamic_logger.c:99-102 | the `memcmp` accepts exactly a prefix of the process name, or the whole name with its NUL |
| DynamicLogger.AppMatches | src/rdk_dynamic_logger.c:99-102 | a name that passes agrees byte for byte with the process name, and past its end only with its NUL |
| DynamicLogger.Decode | src/rdk_dynamic_logger.c:85-115 | a call is made only for the signature "COMC", an app name within the buffer that passes the comparison, and a known level; the component is under 64 bytes with no NUL |
| DynamicLogger.Received | src/rdk_dynamic_logger.c:143-146 | `recvfrom` overwrites the first bytes of the buffer with the datagram and keeps the rest |
| DynamicLogger.LengthOk | src/rdk_dynamic_logger.c:163-164 | the size check accepts only datagrams of 5 to 260 bytes |
| DynamicLogger.Emitted | src/rdk_dynamic_logger.c:104-113 | a decoded request makes exactly one callback, and a dropped one none |
| DynamicLogger.Here | src/rdk_dynamic_logger.c:143-166 | one datagram makes at most one call, only when it came from 127.0.0.1 and its received size matches its length byte, and that call is what `Decode` gives for the buffer |
| DynamicLogger.Drain | src/rdk_dynamic_logger.c:132-167 | what the drain leaves queued is a suffix of the queue |
| DynamicLogger.DrainPacket | src/rdk_dynamic_logger.c:143-166 | one datagram off the queue makes its own call, if any, and the rest is drained from the buffer it left |
| DynamicLogger.FirstFailure | src/rdk_dynamic_logger.c:143-146 | it gives the position of the first failing receive |
| DynamicLogger.DrainRest | src/rdk_dynamic_logger.c:132-167 | the drain stops at the first failing receive and leaves what follows; a queue without a failure is emptied |
| DynamicLogger.DropsForeign | src/rdk_dynamic_logger.c:161-165 | a datagram not from 127.0.0.1, or of the wrong size, makes no call |
| DynamicLogger.Encode | src/rdk_dynamic_logger.c:92-110 | the datagram layout has the expected length |
| DynamicLogger.DecodeChecked | src/rdk_dynamic_logger.c:85-115 | the intended decoder accepts only fields within the datagram, and the exact process name |
| DynamicLogger.EncodeFields | src/rdk_dynamic_logger.c:92-110 | the fields of a built datagram come back out |
| DynamicLogger.EncodeDecodeChecked | src/rdk_dynamic_logger.c:85-115 | a datagram built for this process decodes to the component sent and the level's name |
| DynamicLogger.CStringNoNul | src/rdk_dynamic_logger.c:107-110 | bytes without NUL are their own C string |
| DynamicLogger.CheckedAgrees | src/rdk_dynamic_logger.c:85-115 | for a datagram whose fields fit and whose app name is not a mere prefix, the decoder as written agrees with the intended one, whatever the buffer held |
| DynamicLogger.DrainSelfContained | src/rdk_dynamic_logger.c:132-167 | draining a queue of such datagrams makes exactly the intended calls, in order |
| DynamicLogger.StaleComponent | src/rdk_dynamic_logger.c:104-110 | as written, a truncated datagram that passes the size check is given the component "AB" left by the one before it |
| DynamicLogger.TruncatedDropped | src/rdk_dynamic_logger.c:104-110 | the intended decoder drops that truncated datagram |
| DynamicLogger.EmptyAppAccepted | src/rdk_dynamic_logger.c:96-102 | as written, a datagram with an empty app name is accepted by every process |
| DynamicLogger.CheckedNamesProcess | src/rdk_dynamic_logger.c:96-102 | the intended decoder delivers a request to the process it names and to no other |
| DynamicLogger.DynLogger.constructor | src/rdk_dynamic_logger.c:170-175 | before init the socket is closed, with nothing queued and no calls |
| DynamicLogger.DynLogger.Init | src/rdk_dynamic_logger.c:170-199 | the socket is open exactly when `socket`, `setsockopt` and `bind` all succeed, and the queue starts empty |
| DynamicLogger.DynLogger.DeInit | src/rdk_dynamic_logger.c:201-205 | the socket is closed and its queue is gone |
| DynamicLogger.DynLogger.Deliver | src/rdk_dynamic_logger.c:180-191 | a datagram sent to the port is queued behind the others while the socket is bound and lost otherwise; nothing else changes |
| DynamicLogger.DynLogger.ValidateComponentName | src/rdk_dynamic_logger.c:85-115 | the calls grow by what `Decode` gives for the buffer |
| DynamicLogger.DynLogger.ProcessPendingRequest | src/rdk_dynamic_logger.c:117-168 | a closed socket does nothing; otherwise the calls grow by `Drain` from a zeroed buffer, and the queue becomes what `Drain` leaves |
| DynamicLogger.DynLogger.DrainSocket | src/rdk_dynamic_logger.c:132-167 | the `while(1)` loop makes the calls of `Drain` from the buffer's contents and leaves its rest queued |
| DynamicLogger.DynLogger.ReceiveOne | src/rdk_dynamic_logger.c:143-166 | one pass receives into the buffer and makes the call `Here` gives |
| DynamicLogger.Receive | src/rdk_dynamic_logger.c:143-146 | `recvfrom` reports at most 128 bytes and writes `Received` |

## Left out

- The `pthread_mutex` of the registry and every other concurrency concern: the model is single-threaded.
- `malloc`, `strdup`, `free` and every `printf`/`fprintf` diagnostic.
- The log4c layouts and appenders, the category cache of `rdk_debug_priv_log_msg` and the log output itself: `LogMsg` answers whether a message goes out and with which priority.
- The UDP and syslog-style socket clients.
  - `createUDPSocket` is modelled only up to its `host:port` check, in `HostPort`.
  - The `inet_aton` and `socket` steps after that check (src/rdk_debug_priv.c:408-425) are not modelled.
- `rdk_dbg_priv_Init` and the `EnableMPELog` toggle: `g_debugEnabled` is the field `debugEnabled`.
- NULL arguments and the `assert`s on arguments are preconditions.
  - This covers `cfgStrMaxLen > 32` in `LogQueryOpSysIntf`.
- `Control.LogControl.LogQueryOpSysIntf` takes the module name as an array of its own. `rdk_dbgInit` (src/rdk_debug.c:45-53) passes the registry node's own name, which the query then upper-cases in place, changing the registry's key; the model cannot express that aliasing. Its requirement that the name buffer is not the table always holds, because the two arrays have different element types; it is stated only because the verifier does not derive it from the types.
  - A NULL from `rdk_logger_envGetModFromNum` in the slot search is a name that matches nothing.
- Tokens of 128 characters or more: `extractToken` copies into a 128-byte buffer, and the model treats tokens as unbounded strings.
  - Strings are `seq<char>` without an embedded NUL.
- `Registry.EnvCache.AddConfFile`: the `static int` counter and `global_count` are unbounded integers, so their overflow is not modelled.
- `RDK_MAX_MOD_COUNT` is not part of this model. The table has an abstract size, and `global_count` below it is a precondition.
- The remote decoder's undefined behaviour is not modelled. The dropped cases are:
  - fields that run past the 128-byte buffer;
  - a component length of 64 or more, where `memcpy_s` behaves as the library decides;
  - an app length that reads past the NUL of `__progname`.

  `Decode` answers no call in those cases.
- `buf[4]` is read as an unsigned byte. The signedness of plain `char` is not modelled.
- `select` and `recvfrom` become the queue:
  - an error from `select` is treated as an empty queue;
  - `socket`, `setsockopt` and `bind` are booleans passed to `Init`;
  - the sender address is a flag saying whether it is 127.0.0.1;
  - port 12035 and the bound address are not modelled.
- `RDK_LOG_ControlCB` is not part of this model. The calls it would receive are recorded in `calls`. What "WARN" then means to the level parser is stated by `RemoteLevelMeaning`.
- `LayoutHelpers.Strtol`: the saturation of `strtol` at `LONG_MAX`/`LONG_MIN` is not modelled, because the port check rejects both either way.
- `LayoutHelpers.StreamEnvName` models the expansion as written in `stream_env_open`. The same loop in `socket_env_open` (src/rdk_debug_priv.c:1327-1360) is not repeated, and the file opening that follows is left out.

## Findings

| source | as written | input that shows it | evidently intended | confidence | as-written member | corrected member |
|---|---|---|---|---|---|---|
| src/rdk_debug_priv.c:642-649 | the length check ignores the space added before each name | mask 0x2F (FATAL, ERROR, WARNING, NOTICE, DEBUG) with `cfgStrMaxLen` 33: 33 characters are written and the NUL goes to index 33 | count the space, so that the text and its NUL fit | not executed | Control.QueryOverrun | Control.QueryCheckedStops |
| src/rdk_debug_priv.c:509-510 | `rdk_dbg_enabled` passes the result of `rdk_logger_envGetNum` to `WANT_LOG` unchecked; `rdk_dbg_MsgRaw` (src/rdk_debug.c:77-80) does the same through `rdk_debug_priv_log_msg`, whose test at src/rdk_debug_priv.c:662 reads the slot whenever `g_debugEnabled` is set | any unregistered module name: the number is -1 and `rdk_g_logControlTbl[-1]` is read | answer "not enabled" for a name without a module slot | not executed | Control.UnknownModuleIndex | Control.LogControl.DbgEnabled |
| src/rdk_logger_util.c:136-138 | the value's terminator goes to `value[len - equal + 1]`, two past the value's end | a 255-character read starting with `=`: index 256 of the 256-byte buffer is written | terminate right after the characters that follow `=` | not executed | Registry.ValueTerminatorOverrun | Registry.ValueLengthFits |
| src/rdk_dynamic_logger.c:104-110 | the component is taken from the reused buffer, never checked against what was received | datagram `COMC 4 0 1 'a' 2` (9 bytes) after one naming component "AB": process "a" is given component "AB" at level FATAL | drop a datagram whose fields run past its received bytes | not executed | DynamicLogger.StaleComponent | DynamicLogger.DecodeChecked |
| src/rdk_dynamic_logger.c:99-102 | the app name is compared over the sender's length only | an app length of 0: every listening process accepts the request | accept only the whole process name | not executed | DynamicLogger.EmptyAppAccepted | DynamicLogger.CheckedNamesProcess |
| src/rdk_debug_priv.c:383 | `strncpy(hostaddr, cfgStr, portStr - cfgStr)` copies a host of any length | a 300-character host followed by `:514`: 300 bytes are copied into the 256-byte `hostaddr` | refuse a host longer than `HOSTADDR_STR_MAX` | not executed | LayoutHelpers.LongHostAccepted | LayoutHelpers.HostPortChecked |
| src/rdk_debug_priv.c:1214-1219 | each piece is appended to `newName` before the length is checked | a stream name of 1100 characters without `$`: 1100 characters go into the 1025-byte `newName`, then the length error | check the length before appending | not executed | LayoutHelpers.AppendBeforeCheck | LayoutHelpers.CheckFirst |
