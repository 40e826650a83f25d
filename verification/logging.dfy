/** Log-level resolution and gating of the server's diagnostic logger. */
module Logging {
  import opened Wrappers
  import opened Text

  /** The four entries of `LOG_LEVELS`. */
  datatype Level = Silent | Error | Info | Debug

  /** The number `LOG_LEVELS` gives each level. */
  function Rank(l: Level): nat
  {
    match l
    case Silent => 0
    case Error => 1
    case Info => 2
    case Debug => 3
  }

  /** The key of each level in `LOG_LEVELS`. */
  function Name(l: Level): string
  {
    match l
    case Silent => "silent"
    case Error => "error"
    case Info => "info"
    case Debug => "debug"
  }

  /** The level whose `LOG_LEVELS` key is `name`, if any. */
  function LevelNamed(name: string): (r: Option<Level>)
    ensures r.Some? ==> Name(r.value) == name
    ensures r.None? ==> forall l: Level :: Name(l) != name
  {
    if name == "silent" then Some(Silent)
    else if name == "error" then Some(Error)
    else if name == "info" then Some(Info)
    else if name == "debug" then Some(Debug)
    else None
  }

  /** The environment variable that chooses the level. */
  const LogLevelVariable := "MCP_ECHO_ENV_LOG_LEVEL"

  /** `resolveLogLevel(value)`, with the lookup restricted to the four levels: a missing
      value, or one that is not a level name once lower-cased, yields `Info`. */
  function ResolveLogLevel(value: Option<string>): (r: Level)
    ensures value.None? ==> r == Info
    ensures value.Some? && LevelNamed(ToLower(value.value)).None? ==> r == Info
    ensures value.Some? && r != Info ==> Name(r) == ToLower(value.value)
  {
    var normalized := if value.None? then "info" else ToLower(value.value);
    match LevelNamed(normalized)
    case Some(l) => l
    case None => Info
  }

  /** Every level resolves from its own name, whatever the case of its letters. */
  lemma ResolveByName(l: Level, spelled: string)
    requires ToLower(spelled) == Name(l)
    ensures ResolveLogLevel(Some(spelled)) == l
  {
  }

  /** Resolution does not depend on letter case. */
  lemma ResolveIgnoresCase(s: string)
    ensures ResolveLogLevel(Some(s)) == ResolveLogLevel(Some(ToLower(s)))
  {
    ToLowerIdempotent(s);
  }

  /** The logger's test `LOG_LEVELS[activeLogLevel] >= LOG_LEVELS[at]`. */
  predicate Enabled(active: Level, at: Level)
  {
    Rank(active) >= Rank(at)
  }

  /** A `logger.info`/`error`/`debug` call: one line on the diagnostic stream when the
      active level admits `at`, nothing otherwise. */
  function Emit(active: Level, at: Level, message: string): (out: seq<string>)
    requires at != Silent
    ensures |out| <= 1
    ensures out != [] <==> Enabled(active, at)
    ensures active == Silent ==> out == []
    ensures out != [] ==> out[0] == "[mcp-echo-env] " + message
  {
    if Rank(active) >= Rank(at) then ["[mcp-echo-env] " + message] else []
  }

  /** Gating is monotone: what is emitted at a level is emitted at every more severe level,
      and under every more verbose active level. */
  lemma EnabledMonotone(active: Level, active': Level, at: Level, at': Level)
    requires Enabled(active, at)
    requires Rank(active) <= Rank(active') && Rank(at') <= Rank(at)
    ensures Enabled(active', at')
  {
  }

  // ---------------------------------------------------------------------------
  // resolveLogLevel and the logger as written. `LOG_LEVELS` is an object literal, so
  // `LOG_LEVELS[name]` also finds the two lower-case properties every object inherits,
  // `constructor` and `__proto__`. Neither is a number, so the logger's `>=` against
  // them compares NaN and is false.
  // ---------------------------------------------------------------------------

  /** What `LOG_LEVELS[name]` evaluates to. */
  datatype Property = OwnRank(rank: nat) | Inherited | Undefined

  function LogLevelsLookup(name: string): (p: Property)
    ensures p.OwnRank? <==> LevelNamed(name).Some?
  {
    match LevelNamed(name)
    case Some(l) => OwnRank(Rank(l))
    case None => if name == "constructor" || name == "__proto__" then Inherited else Undefined
  }

  /** `resolveLogLevel(value)` as written: the normalised name when `LOG_LEVELS` has any
      property of that name, "info" otherwise. */
  function ResolveLogLevelAsWritten(value: Option<string>): (name: string)
    ensures LogLevelsLookup(name) != Undefined
  {
    var normalized := if value.None? then "info" else ToLower(value.value);
    if LogLevelsLookup(normalized) != Undefined then normalized else "info"
  }

  /** The logger's test as written, where a non-number property compares false. */
  predicate EnabledAsWritten(activeName: string, at: Level)
  {
    match LogLevelsLookup(activeName)
    case OwnRank(n) => n >= Rank(at)
    case _ => false
  }

  /** Outside the two inherited names the code as written agrees with the model. */
  lemma AsWrittenAgrees(value: Option<string>, at: Level)
    requires value.Some? ==> ToLower(value.value) != "constructor" && ToLower(value.value) != "__proto__"
    ensures ResolveLogLevelAsWritten(value) == Name(ResolveLogLevel(value))
    ensures EnabledAsWritten(ResolveLogLevelAsWritten(value), at) == Enabled(ResolveLogLevel(value), at)
  {
  }

  /** A level value that lower-cases to "constructor" or "__proto__" is accepted by the code
      as written, which then emits nothing at any level, errors included; the corrected
      resolution falls back to `Info`, which does emit errors. */
  lemma InheritedNameSilencesLogger(value: string)
    requires ToLower(value) == "constructor" || ToLower(value) == "__proto__"
    ensures ResolveLogLevelAsWritten(Some(value)) == ToLower(value)
    ensures forall at: Level :: !EnabledAsWritten(ResolveLogLevelAsWritten(Some(value)), at)
    ensures ResolveLogLevel(Some(value)) == Info && Enabled(Info, Error)
  {
    assert LogLevelsLookup(ToLower(value)) == Inherited;
  }

  /** The concrete input: MCP_ECHO_ENV_LOG_LEVEL=constructor. */
  lemma ConstructorSilencesLogger()
    ensures ResolveLogLevelAsWritten(Some("constructor")) == "constructor"
    ensures !EnabledAsWritten(ResolveLogLevelAsWritten(Some("constructor")), Error)
    ensures ResolveLogLevel(Some("constructor")) == Info
  {
    ToLowerKeepsLowercase("constructor");
    InheritedNameSilencesLogger("constructor");
  }
}
