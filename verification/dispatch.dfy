/** main.go: the order in which `main` loads the configuration, builds the
    executor and routes the command word to its handler. Command-line parsing,
    configuration loading, user lookup, the current uid/gid, the operating
    system and `lsusb` are all inputs. */
module Dispatch {
  import opened Errors
  import opened Executor
  import Commands
  import Yubikey

  /** Everything `main` gets from outside. */
  datatype Env = Env(
    args: seq<string>,
    loadConfig: string -> Result<Commands.Config>,
    lookupUser: string -> Result<User>,
    uid: int,
    gid: int,
    process: Process,
    readFile: string -> Result<string>,
    kdf: Yubikey.Pbkdf2,
    lsusbOutput: string)

  /** `flag.Arg(i)`: the i-th positional argument, or "" when there is none. */
  function Arg(args: seq<string>, i: nat): (a: string)
    ensures i >= |args| ==> a == ""
    ensures i < |args| ==> a == args[i]
  {
    if i < |args| then args[i] else ""
  }

  /** The unlock environment of the running program: records are loaded with
      `NewChallengeFromFile` over the file reader, so every loaded record is
      well formed. */
  function FileToken(readFile: string -> Result<string>, kdf: Yubikey.Pbkdf2): (t: Commands.Token)
    ensures forall path :: t.load(path) == Yubikey.FromFile(path, readFile)
    ensures t.kdf == kdf
    ensures Commands.LoadsWellFormed(t)
  {
    Commands.Token(path => Yubikey.FromFile(path, readFile), kdf)
  }

  /** `loadConfig`: a missing file name is an error before the loader is
      consulted; a loader error is wrapped. */
  function LoadConfig(args: seq<string>, load: string -> Result<Commands.Config>): (r: Result<Commands.Config>)
    ensures Arg(args, 1) == "" ==> r == Err(NoConfigFile)
    ensures Arg(args, 1) != "" && load(Arg(args, 1)).Err? ==> r == Err(ConfigLoadFailed(load(Arg(args, 1)).error))
    ensures r.Ok? ==> Arg(args, 1) != "" && r == load(Arg(args, 1))
  {
    var filename := Arg(args, 1);
    if filename == "" then Err(NoConfigFile)
    else
      match load(filename)
      case Err(e) => Err(ConfigLoadFailed(e))
      case Ok(cfg) => Ok(cfg)
  }

  /** `main`: configuration first, then the executor, each failing before any
      command runs; then `lock`, `unlock` and `systemd-event` go to exactly their
      own handler (the event action is the third argument) and every other word
      is a usage failure without any command. Every call a handler makes
      reaches the operating system, with the credential of the executor. */
  function Entry(env: Env): (o: Traced<Status>)
    ensures LoadConfig(env.args, env.loadConfig).Err? ==>
      o == Traced(Failure(LoadConfig(env.args, env.loadConfig).error), [])
    ensures var cfg := LoadConfig(env.args, env.loadConfig);
      cfg.Ok? ==>
        var id := NewExecutor(cfg.value.user, env.lookupUser, env.uid, env.gid);
        && (id.Err? ==> o == Traced(Failure(id.error), []))
        && (id.Ok? ==>
              var run := AsRunner(id.value, env.process);
              var command := Arg(env.args, 0);
              && (command == "lock" ==> o == Commands.Lock(cfg.value, run, []))
              && (command == "unlock" ==> o == Commands.Unlock(cfg.value, FileToken(env.readFile, env.kdf), run, []))
              && (command == "systemd-event" ==>
                    o == Commands.SystemdEvent(Arg(env.args, 2), cfg.value, FileToken(env.readFile, env.kdf), env.lsusbOutput, run, []))
              && (command !in {"lock", "unlock", "systemd-event"} ==> o == Traced(Failure(Usage), []))
              && (forall i :: 0 <= i < |o.calls| ==>
                    Execute(id.value, env.process, o.calls[..i], o.calls[i]).spawned
                      == Some(Spawn(o.calls[i].command, SysProcAttr(id.value)))))
  {
    match LoadConfig(env.args, env.loadConfig)
    case Err(e) => Traced(Failure(e), [])
    case Ok(cfg) =>
      match NewExecutor(cfg.user, env.lookupUser, env.uid, env.gid)
      case Err(e) => Traced(Failure(e), [])
      case Ok(id) =>
        var run := AsRunner(id, env.process);
        var command := Arg(env.args, 0);
        if command == "lock" then Commands.Lock(cfg, run, [])
        else if command == "unlock" then Commands.Unlock(cfg, FileToken(env.readFile, env.kdf), run, [])
        else if command == "systemd-event" then
          Commands.SystemdEvent(Arg(env.args, 2), cfg, FileToken(env.readFile, env.kdf), env.lsusbOutput, run, [])
        else Traced(Failure(Usage), [])
  }
}
