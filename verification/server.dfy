/** The server process's start-up: the environment table and the active log level, the
    `.env` loader, the log-level refresh and the default identity variables. */
module Server {
  import opened Wrappers
  import opened Text
  import opened Environment
  import opened Logging
  import opened EnvFile
  import opened EnvEchoTool

  /** WORKSPACE_SLUG becomes the base name of the working directory and PWD the working
      directory itself, each only when it is not already set. */
  function WithIdentityDefaults(env: Env, cwd: string): (r: Env)
    ensures r.Keys == env.Keys + {"WORKSPACE_SLUG", "PWD"}
    ensures forall k :: k in env ==> r[k] == env[k]
    ensures "WORKSPACE_SLUG" !in env ==> r["WORKSPACE_SLUG"] == Basename(cwd)
    ensures "PWD" !in env ==> r["PWD"] == cwd
  {
    var withSlug := if "WORKSPACE_SLUG" in env then env else env["WORKSPACE_SLUG" := Basename(cwd)];
    if "PWD" in withSlug then withSlug else withSlug["PWD" := cwd]
  }

  /** Applying the defaults a second time changes nothing. */
  lemma IdentityDefaultsIdempotent(env: Env, cwd: string)
    ensures WithIdentityDefaults(WithIdentityDefaults(env, cwd), cwd) == WithIdentityDefaults(env, cwd)
  {
  }

  /** The environment after start-up: the `.env` file, then the identity defaults. */
  function BootstrapEnv(env: Env, file: EnvFileRead, cwd: string): (r: Env)
    ensures "WORKSPACE_SLUG" in r && "PWD" in r
    ensures forall k :: k in env ==> k in r && r[k] == env[k]
  {
    WithIdentityDefaults(LoadEnvFile(env, file), cwd)
  }

  /** When neither the inherited environment nor the `.env` file sets them, start-up leaves
      PWD at the working directory and WORKSPACE_SLUG at its base name. */
  lemma BootstrapIdentity(env: Env, file: EnvFileRead, cwd: string)
    requires "PWD" !in env && "WORKSPACE_SLUG" !in env
    requires file.Read? ==>
      var keys := KeysOf(ParseLines(Lines(file.contents)));
      "PWD" !in keys && "WORKSPACE_SLUG" !in keys
    ensures BootstrapEnv(env, file, cwd)["PWD"] == cwd
    ensures BootstrapEnv(env, file, cwd)["WORKSPACE_SLUG"] == Basename(cwd)
  {
    var loaded := LoadEnvFile(env, file);
    assert "PWD" !in loaded && "WORKSPACE_SLUG" !in loaded;
  }

  /** The test client's scenario: WORKSPACE_SLUG preset, no PWD, no `.env` file; the empty
      request echoes both identity variables, PWD being the working directory. */
  lemma SmokeScenario(cwd: string, extra: Json)
    ensures var env := BootstrapEnv(map["WORKSPACE_SLUG" := "smoke-test-workspace"], Absent, cwd);
      HandleEnvEcho(env, Some(JObject(map[])), Some(extra)).structuredContent
        == Some(EchoOutput("env_echo", map["PWD" := Some(cwd),
                                           "WORKSPACE_SLUG" := Some("smoke-test-workspace")]))
  {
    var initial := map["WORKSPACE_SLUG" := "smoke-test-workspace"];
    var env := BootstrapEnv(initial, Absent, cwd);
    assert env["PWD"] == cwd && env["WORKSPACE_SLUG"] == "smoke-test-workspace";
    DefaultRequestEchoesIdentity(env, JObject(map[]), extra);
  }

  /** The process state the server's module code updates: `process.env` and
      `activeLogLevel`. */
  class ServerProcess {
    var env: Env
    var activeLogLevel: Level

    /** The process as the module starts evaluating: the inherited environment, and the
        level it names. */
    constructor (initialEnv: Env)
      ensures env == initialEnv
      ensures activeLogLevel == ResolveLogLevel(Lookup(initialEnv, LogLevelVariable))
    {
      env := initialEnv;
      activeLogLevel := ResolveLogLevel(Lookup(initialEnv, LogLevelVariable));
    }

    /** `loadWorkspaceEnvFile()` given what reading `<cwd>/.env` produced: each line that
        parses binds its key unless the environment already has one. A read error is logged
        under the level in force, which the file has not yet been able to change. */
    method LoadWorkspaceEnvFile(file: EnvFileRead) returns (diagnostics: seq<string>)
      modifies this`env
      ensures env == LoadEnvFile(old(env), file)
      ensures diagnostics == if file.Unreadable? then Emit(activeLogLevel, Error, "Failed to read .env:") else []
    {
      diagnostics := [];
      match file {
        case Absent =>
        case Unreadable =>
          diagnostics := Emit(activeLogLevel, Error, "Failed to read .env:");
        case Read(contents) =>
          var lines := Lines(contents);
          ghost var parsed := ParseLines(lines);
          for i := 0 to |lines|
            invariant env == InsertAll(old(env), parsed[..i])
          {
            var binding := ParseLine(lines[i]);
            InsertAllSnoc(old(env), parsed, i);
            if binding.Some? && binding.value.key !in env {
              env := env[binding.value.key := binding.value.value];
            }
          }
          assert parsed[..|lines|] == parsed;
      }
    }

    /** `refreshLogLevel()`: the level named by the environment as it now stands. */
    method RefreshLogLevel()
      modifies this`activeLogLevel
      ensures activeLogLevel == ResolveLogLevel(Lookup(env, LogLevelVariable))
    {
      activeLogLevel := ResolveLogLevel(Lookup(env, LogLevelVariable));
    }

    /** The identity defaults, set in place. */
    method ApplyIdentityDefaults(cwd: string)
      modifies this`env
      ensures env == WithIdentityDefaults(old(env), cwd)
    {
      if "WORKSPACE_SLUG" !in env {
        env := env["WORKSPACE_SLUG" := Basename(cwd)];
      }
      if "PWD" !in env {
        env := env["PWD" := cwd];
      }
    }

    /** Start-up in the module's order: load `.env`, refresh the log level, then set the
        identity defaults. The level may thus come from the `.env` file, and afterwards
        WORKSPACE_SLUG and PWD are always set. */
    method Bootstrap(file: EnvFileRead, cwd: string) returns (diagnostics: seq<string>)
      modifies this
      ensures env == BootstrapEnv(old(env), file, cwd)
      ensures activeLogLevel == ResolveLogLevel(Lookup(LoadEnvFile(old(env), file), LogLevelVariable))
      ensures "WORKSPACE_SLUG" in env && "PWD" in env
      ensures diagnostics == if file.Unreadable? then Emit(old(activeLogLevel), Error, "Failed to read .env:") else []
    {
      diagnostics := LoadWorkspaceEnvFile(file);
      RefreshLogLevel();
      ApplyIdentityDefaults(cwd);
    }
  }
}
