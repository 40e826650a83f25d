# mcp-echo-env in Dafny

A model of the core of `mcp-echo-env`, a Model Context Protocol server that exposes one
tool, `env_echo`. The tool returns the values of the environment variables a client asks for.
The model covers:

- the diagnostic logger: resolving `MCP_ECHO_ENV_LOG_LEVEL` to one of `silent`, `error`,
  `info`, `debug` (case-insensitive, default `info`) and gating each `logger.*` call on it;
- `collectEnvironmentVariables`: de-duplicating the requested names and folding them into
  the `variables` record, with null for unset names or, under `omitNull`, no entry;
- `loadWorkspaceEnvFile`: splitting `.env` into lines, parsing `KEY=VALUE` lines (trimmed,
  `#` comments and blank lines skipped, the value keeping any further `=`), and binding each
  key only when the environment does not already have it;
- start-up: loading `.env`, refreshing the log level, then defaulting `WORKSPACE_SLUG` to
  the base name of the working directory and `PWD` to the working directory;
- the `env_echo` handler: the one-argument calling convention, `args ?? {}`, the strict
  input schema (optional non-empty list of non-empty names, optional boolean), the default
  names `PWD` and `WORKSPACE_SLUG`, and the shape of the success and error results.

Modules:

| file | module | contents |
|---|---|---|
| `wrappers.dfy` | `Wrappers`, `Environment` | `Option`, `Result`; the environment as `map<string, string>` |
| `text.dfy` | `Text` | JavaScript `trim`, one-character `split`/`join`, ASCII `toLowerCase`, POSIX `path.basename` |
| `logging.dfy` | `Logging` | log levels, `resolveLogLevel`, logger gating |
| `env_file.dfy` | `EnvFile` | `.env` line splitting, line parsing, insert-if-absent fold |
| `echo.dfy` | `Echo` | `collectEnvironmentVariables` |
| `tool.dfy` | `EnvEchoTool` | JSON payloads, schema validation, the `env_echo` handler |
| `server.dfy` | `Server` | the process state as a class (`env`, `activeLogLevel`) and start-up |

`process.env` is a map from names to strings. JavaScript `undefined` and `null` are both
`None`. `process.cwd()` and the outcome of reading `<cwd>/.env` are parameters. The module's
mutable state is the `Server.ServerProcess` class. Its `env` field is the table that
`loadWorkspaceEnvFile` and the defaults update in place. Its `activeLogLevel` field is the
`let` that `refreshLogLevel` reassigns. The loader's `for … of` loop is a `for` loop over the
lines. Its invariant ties the table to `EnvFile.InsertAll`, the fold that states what the
loop computes.

The server's state and the handler use the corrected `Logging.ResolveLogLevel` and
`Echo.Collect`. On the two inputs under "## Findings" (`MCP_ECHO_ENV_LOG_LEVEL=constructor`
and `{keys: ["__proto__"]}`) they therefore behave as intended rather than as index.js does;
the behaviour as written is modelled separately by the members named there.

Two details of the code decide edge cases:

- The schema's `.nonempty()` (index.js:44) rejects `{keys: []}` with an error result, so the
  `keys.length > 0` fallback of index.js:184 never sees an empty list from a client.
- Node's `basename` (index.js:130) drops trailing '/' before taking the last component, so
  the slug for the working directory `/a/b/` is `b`.

## Model

| member | source | states |
|---|---|---|
| Text.Trim | index.js:109 | `trim()` never lengthens its input, and the result neither starts nor ends with ECMAScript white space |
| Text.TrimStartDropsSpace | index.js:109 | every character `trim` drops from the front is white space |
| Text.TrimEndDropsSpace | index.js:109 | every character `trim` drops from the back is white space |
| Text.TrimStartIsSuffix | index.js:109 | trimming the front keeps a suffix of the input |
| Text.TrimEndIsPrefix | index.js:109 | trimming the back keeps a prefix of the input |
| Text.TrimKeepsCharacters | index.js:109 | every character of a trimmed string occurs in the original |
| Text.TrimStartAppendSpace | index.js:109 | appending white space to a string leaves its front-trimmed form empty or extends it by that character |
| Text.TrimAppendSpace | index.js:109 | `trim` removes white space appended to a string: trimming `s + c` gives `trim(s)` |
| Text.TrimUnchanged | index.js:109 | a string with no white space at either end trims to itself |
| Text.TrimKeepsFirst | index.js:113-117 | a string starting with a non-space character keeps that character first after trimming |
| Text.IndexOf | index.js:113 | the position of the first separator: no earlier occurrence, and the character there is the separator (or the length when absent) |
| Text.SplitKeepsCharacters | index.js:108 | every character of a piece of `split` is a character of the input |
| Text.Join | index.js:118 | `join` on one separator; its meaning as the inverse of `split` is stated by `Text.JoinOfSplit` and `Text.SplitAtFirst` |
| Text.Split | index.js:113 | `split` on one character yields at least one piece, and no piece contains the separator |
| Text.JoinOfSplit | index.js:113-118 | `split` then `join` on the same separator gives back the string |
| Text.SplitAtFirst | index.js:113-118 | the head of `split("=")` is the text before the first '=', and the tail rejoined with "=" is the text after it |
| Text.ToLower | index.js:20 | lower-casing keeps the length, maps each character by the ASCII rule, and leaves no capital letter |
| Text.ToLowerKeepsLowercase | index.js:20 | a string without capitals lower-cases to itself |
| Text.ToLowerIdempotent | index.js:20 | lower-casing twice is lower-casing once |
| Text.StripTrailingSlashes | index.js:130 | the result is a prefix of the path, does not end in '/', and only '/' was removed |
| Text.LastSegmentIsFinalComponent | index.js:130 | the last segment has no '/', is a suffix of the path, and follows a '/' or starts the path |
| Text.Basename | index.js:130 | POSIX `basename`; what it returns is stated by `Text.BasenameIsLastComponent` and `Text.BasenameOfChild` |
| Text.BasenameIsLastComponent | index.js:130 | `basename(cwd)` is the final '/'-free component of the path without its trailing slashes |
| Text.BasenameOfChild | index.js:130 | the base name of `dir/name`, with or without a trailing '/', is `name` |
| Logging.LevelNamed | index.js:12-17 | a level is found exactly for the four `LOG_LEVELS` keys, and the found level has that name |
| Logging.ResolveLogLevel | index.js:19-25 | a missing or unrecognised value resolves to `info`; any other result is the level whose name is the lower-cased value |
| Logging.ResolveByName | index.js:19-25 | each level resolves from its name spelled in any letter case |
| Logging.ResolveIgnoresCase | index.js:20 | resolution does not depend on letter case |
| Logging.Emit | index.js:62-78 | a logger call writes one prefixed line exactly when the active level's rank is at least the call's, and nothing when silent |
| Logging.Enabled | index.js:64-75 | the gate `LOG_LEVELS[activeLogLevel] >= LOG_LEVELS[level]`; stated through `Logging.Emit` and `Logging.EnabledMonotone` |
| Logging.EnabledMonotone | index.js:62-78 | what is logged at a level is also logged at any more severe level and under any more verbose active level |
| Logging.LogLevelsLookup | index.js:12-17 | `LOG_LEVELS[name]` is an own number exactly for the four level names |
| Logging.ResolveLogLevelAsWritten | index.js:19-25 | the code as written returns a name that `LOG_LEVELS` has some property for |
| Logging.EnabledAsWritten | index.js:64-75 | the gate as written, false for a non-number property; stated through `Logging.AsWrittenAgrees` and `Logging.InheritedNameSilencesLogger` |
| Logging.AsWrittenAgrees | index.js:19-25 | outside the names `constructor` and `__proto__`, the code as written resolves and gates exactly as the corrected model |
| Logging.InheritedNameSilencesLogger | index.js:21 | a level value lower-casing to `constructor` or `__proto__` is accepted as written and then disables every logger call; the corrected resolution gives `info` |
| Logging.ConstructorSilencesLogger | index.js:21 | `MCP_ECHO_ENV_LOG_LEVEL=constructor` suppresses even error lines as written |
| EnvFile.DropCarriageReturn | index.js:108 | a line ending in '\r' loses exactly that '\r'; any other line is unchanged |
| EnvFile.Lines | index.js:108 | `split(/\r?\n/)` gives one line per '\n'-separated piece, none containing '\n'; each line but the last is its piece with one final '\r' removed, and the last line is the last piece unchanged |
| EnvFile.LinesJoin | index.js:108 | for contents without '\r', the lines joined with '\n' give back the contents |
| EnvFile.ParseLine | index.js:109-118 | trim, then parse; its meaning is stated by `EnvFile.ParseLineMeaning`, `EnvFile.ParseLineSplitsAtFirstSeparator`, `EnvFile.NoEqualsBindsEmpty` and `EnvFile.ParseFormattedLine` |
| EnvFile.ParseTrimmed | index.js:110-118 | the parse of a trimmed line at its first '='; stated through the `EnvFile.ParseLine` lemmas |
| EnvFile.ParseLineMeaning | index.js:109-119 | a line binds a key exactly when, trimmed, it is not blank, not a `#` comment and does not start with '='; the key is then non-empty and has no '=' |
| EnvFile.ParseLineSplitsAtFirstSeparator | index.js:113-118 | the key is the trimmed head of `line.split("=")` and the value the trimmed tail rejoined with "=" |
| EnvFile.ParseIgnoresCarriageReturn | index.js:108-109 | a '\r' at the end of a line does not change what the line binds |
| EnvFile.LinesParseAsPieces | index.js:108-118 | the lines of a file parse to the same bindings as its plain '\n'-pieces |
| EnvFile.NoEqualsBindsEmpty | index.js:113-118 | a line without '=' binds its trimmed text to the empty string |
| EnvFile.ParseFormattedLine | index.js:108-122 | parsing `key=value` gives back the key and value, including any '=' inside the value |
| EnvFile.ParseLines | index.js:108-118 | one parse per line: the i-th result is the parse of the i-th line |
| EnvFile.Insert | index.js:119-122 | one iteration binds the parsed key to the parsed value when it is absent, changes no existing entry, and adds no other key |
| EnvFile.InsertAll | index.js:108-123 | after the loop no existing variable has changed, the new names are exactly the parsed keys, and each new value comes from a line binding that key |
| EnvFile.InsertAllSnoc | index.js:108-123 | one more line is one more insertion |
| EnvFile.FirstBindingWins | index.js:119-122 | among lines binding the same unset key, the first one gives its value |
| EnvFile.LoadEnvFile | index.js:96-124 | the loader never changes an existing variable; a missing or unreadable file changes nothing; a read file adds its parsed bindings by the insert-if-absent fold, whose results `EnvFile.InsertAll` and `EnvFile.FirstBindingWins` state |
| Echo.Unique | index.js:85 | `Array.from(new Set(keys))` holds the same names, each once, and is no longer than the request |
| Echo.Step | index.js:87-92 | the reducer for one name; stated through `Echo.Reduce` |
| Echo.Reduce | index.js:86-93 | the fold adds exactly the set names, or all names when nulls are kept, each bound to its environment value or null |
| Echo.Collect | index.js:84-94 | the record has an entry exactly for each requested name, unless `omitNull` holds and the name is unset; each entry is the environment's value or null; with `omitNull` no entry is null |
| Echo.CollectIgnoresRepeats | index.js:85 | two requests naming the same set of names give the same record |
| Echo.ReduceAsWritten | index.js:86-93 | the fold as written adds every requested name except `__proto__` |
| Echo.CollectAsWritten | index.js:84-94 | the function as written; stated through `Echo.ProtoNeverEchoedAsWritten`, `Echo.ProtoKeyDropped` and `Echo.AsWrittenAgrees` |
| Echo.ProtoNeverEchoedAsWritten | index.js:91 | as written, `__proto__` never appears in the record |
| Echo.ProtoKeyDropped | index.js:91 | `{keys: ["__proto__"]}` gives an empty record as written and one entry when corrected |
| Echo.AsWrittenAgrees | index.js:86-93 | without `__proto__` in the request, the fold as written and the corrected fold agree |
| EnvEchoTool.NormalizePayload | index.js:158-164 | a call without a second argument, or with missing or null arguments, has the empty payload `{}`; otherwise the arguments are the payload |
| EnvEchoTool.KeysJson | index.js:34-48 | a list of names is carried as an array of the same strings |
| EnvEchoTool.CheckKeyItems | index.js:34-43 | the items are accepted exactly when all are non-empty strings, and then are returned as those strings |
| EnvEchoTool.ValidPayload | index.js:80 | the strict input schema as a predicate; `EnvEchoTool.Validate` accepts exactly the payloads it admits |
| EnvEchoTool.Validate | index.js:33-53 | the strict schema accepts exactly the objects with only `keys` (non-empty list of non-empty strings) and `omitNull` (boolean), both optional, and returns their values |
| EnvEchoTool.ValidateEncoded | index.js:80 | validation recovers exactly the arguments a well-formed request was built from |
| EnvEchoTool.KeysToUse | index.js:184 | a request's own non-empty list is used; a missing or empty list gives the two default names |
| EnvEchoTool.HandleEnvEcho | index.js:157-212 | one content block; an error result, with text starting "Invalid arguments: " and no structured content, exactly when the schema refuses the payload; otherwise the `env_echo` tag and a report that also carries WORKSPACE_SLUG and PWD |
| EnvEchoTool.SingleArgumentIsEmptyPayload | index.js:158-164 | a call with one argument behaves as a call with `{}` |
| EnvEchoTool.ValidRequestEchoes | index.js:178-192 | a valid request echoes exactly its distinct names (or the defaults), dropping unset ones under `omitNull`, each with the environment's value or null |
| EnvEchoTool.DefaultRequestEchoesIdentity | index.js:184-192 | a request without `keys` echoes exactly PWD and WORKSPACE_SLUG when both are set |
| EnvEchoTool.SchemaViolationsAreErrors | index.js:33-53 | an empty list, an empty name, a non-boolean `omitNull` or an unknown field each give an error result |
| EnvEchoTool.UnsetKeyIsNull | index.js:88-91 | `{keys: ["NOPE"]}` with NOPE unset echoes NOPE as null |
| EnvEchoTool.UnsetKeyIsOmitted | index.js:88-90 | `{keys: ["NOPE"], omitNull: true}` with NOPE unset echoes nothing |
| EnvEchoTool.HandlerDiagnostics | index.js:167-202 | a refused payload logs one error line unless silent; an accepted one logs two debug lines only at `debug` |
| Environment.Lookup | index.js:87 | `process.env[key]`: the value when the name is set, `undefined` otherwise; used by `Echo.Collect` and `Logging.ResolveLogLevel` |
| Server.WithIdentityDefaults | index.js:129-135 | afterwards both identity variables are set; existing values are kept; a missing slug becomes the working directory's base name and a missing PWD the working directory |
| Server.IdentityDefaultsIdempotent | index.js:129-135 | applying the defaults twice is applying them once |
| Server.BootstrapEnv | index.js:126-135 | after start-up both identity variables are set and no inherited variable has changed |
| Server.BootstrapIdentity | index.js:126-135 | with neither identity variable inherited nor in `.env`, start-up sets PWD to the working directory and the slug to its base name |
| Server.SmokeScenario | tests/smoke.test.mjs:14-69 | with WORKSPACE_SLUG preset, no PWD and no `.env`, the empty request echoes PWD as the working directory and the preset slug |
| Server.ServerProcess.constructor | index.js:27 | the process starts with the inherited environment and the level it names |
| Server.ServerProcess.LoadWorkspaceEnvFile | index.js:96-124 | the loop leaves the environment equal to the fold over the parsed lines; a read error logs one error line under the current level |
| Server.ServerProcess.RefreshLogLevel | index.js:29-31 | the active level becomes the one the environment now names |
| Server.ServerProcess.ApplyIdentityDefaults | index.js:129-135 | the environment becomes the one with identity defaults applied |
| Server.ServerProcess.Bootstrap | index.js:126-135 | start-up loads `.env`, takes the level from the loaded environment, and leaves both identity variables set |

## Left out

- Server construction, tool registration and the stdio transport (index.js:137-156), `startServer`, the shutdown and signal handling (index.js:215-235) and the direct-execution check (index.js:237-256) are not modelled: they are calls into the MCP SDK and Node's process and file APIs.
- File access is a parameter: `existsSync`/`readFileSync` become the three outcomes `Absent`, `Unreadable` and `Read(contents)`. UTF-8 decoding is not modelled.
- Server.ServerProcess.LoadWorkspaceEnvFile: the read-error line carries the fixed text "Failed to read .env:" rather than the full path and the error object.
- Logging.Emit: only the prefix and the first argument of a logger call are modelled. The remaining arguments (the zod error, the debug record with `sessionId`) and `console.error`'s formatting are not.
- EnvEchoTool.Validate: returns the first issue found rather than zod's list of all issues. The error message text is modelled only as a fixed text per issue, not zod's wording.
- EnvEchoTool.HandleEnvEcho: the rendered text block is the `EchoReport` record, not its `JSON.stringify(…, null, 2)` text.
- JSON numbers are integers in the model. Floating point plays no part in the schema.
- Text.ToLower: lower-cases ASCII letters only. The only non-ASCII character whose lower case is ASCII is KELVIN SIGN, lowering to 'k', and no level name has a 'k', so level resolution is unaffected.
- Strings are sequences of Unicode scalar values rather than UTF-16 code units. Nothing modelled depends on the difference.
- Text.Basename: models POSIX `path.basename` only, not the Windows variant.
- The environment is a plain map. Lookups of names that `process.env` might find through its prototype (such as `constructor`) are not modelled.
- The `outputSchema` check the SDK applies to structured content is not modelled. The handler's result has the promised shape by construction.

## Findings

| source | as written | input that shows it | evidently intended | confidence | as-written member | corrected member |
|---|---|---|---|---|---|---|
| index.js:21 | `LOG_LEVELS[normalized] !== undefined` also accepts the inherited properties `constructor` and `__proto__`; the logger's `>=` against them is then always false | `MCP_ECHO_ENV_LOG_LEVEL=constructor`: no line is ever logged, errors included | only the four level names are accepted; anything else falls back to `info` | not executed | Logging.InheritedNameSilencesLogger | Logging.ResolveLogLevel |
| index.js:91 | `acc[key] = …` on a plain `{}` sets the prototype for the key `__proto__` instead of adding an entry | `{keys: ["__proto__"]}` returns an empty `variables` record | every requested name gets an entry | not executed | Echo.ProtoKeyDropped | Echo.Collect |
