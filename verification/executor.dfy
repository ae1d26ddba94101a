/** executor/executor.go. An `Executor` in the program is a function value
    `func(command []string, wait bool) (string, error)`. Here it is an oracle
    `Runner` that also sees the calls issued before, and the operations that use
    it return the calls they issue, so that their order can be stated.

    The concrete executor built by `NewExecutor` is modelled down to the point
    where the operating system takes over: the credential it attaches, the
    empty-command check, and how the outcome of the child process is shaped
    into the `(output, error)` pair. The child process itself is the
    `Process` oracle. */
module Executor {
  import opened Errors
  import Strings
  import Strconv

  /** One invocation of the executor: the argument vector and the wait flag. */
  datatype Call = Call(command: seq<string>, wait: bool)

  /** Go's `(string, error)` result; `err == None` is a nil error. */
  datatype RunResult = RunResult(output: string, err: Option<Error>)

  /** An executor: the calls already issued and the new call determine its result. */
  type Runner = (seq<Call>, Call) -> RunResult

  /** A value computed together with the executor calls issued to compute it, in order. */
  datatype Traced<T> = Traced(value: T, calls: seq<Call>)

  /** Every call carries a non-empty argument vector. */
  predicate NonEmptyCalls(calls: seq<Call>) {
    forall i :: 0 <= i < |calls| ==> |calls[i].command| > 0
  }

  // ---------------------------------------------------------------------
  // NewExecutor: which uid/gid the child processes get

  /** What `user.Lookup` reports: the name and the decimal uid and gid. */
  datatype User = User(username: string, uid: string, gid: string)

  /** The identity captured by the executor; -1 means "do not switch". */
  datatype Identity = Identity(uid: int, gid: int)

  const NoSwitch: Identity := Identity(-1, -1)

  /** `NewExecutor`: an empty user name keeps the current credentials; otherwise
      the user is looked up, and its uid/gid (parsed with `Atoi`, parse errors
      ignored) are adopted only when they differ from the current ones. */
  function NewExecutor(username: string, lookup: string -> Result<User>, currentUid: int, currentGid: int): (r: Result<Identity>)
    ensures username == "" ==> r == Ok(NoSwitch)
    ensures username != "" && lookup(username).Err? ==> r == Err(UserLookupFailed(username, lookup(username).error))
    ensures r.Err? ==> username != "" && lookup(username).Err?
    ensures r.Ok? && r.value != NoSwitch ==>
      && username != "" && lookup(username).Ok?
      && r.value.uid == Strconv.Atoi(lookup(username).value.uid).value
      && r.value.gid == Strconv.Atoi(lookup(username).value.gid).value
      && (r.value.uid != currentUid || r.value.gid != currentGid)
    ensures r.Ok? && username != "" && lookup(username).Ok?
      && Strconv.Atoi(lookup(username).value.uid).value == currentUid
      && Strconv.Atoi(lookup(username).value.gid).value == currentGid
      ==> r.value == NoSwitch
    ensures username != "" && lookup(username).Ok?
      && (Strconv.Atoi(lookup(username).value.uid).value != currentUid
          || Strconv.Atoi(lookup(username).value.gid).value != currentGid)
      ==> r == Ok(Identity(Strconv.Atoi(lookup(username).value.uid).value, Strconv.Atoi(lookup(username).value.gid).value))
  {
    if username == "" then Ok(NoSwitch)
    else
      match lookup(username)
      case Err(e) => Err(UserLookupFailed(username, e))
      case Ok(user) =>
        var newUid := Strconv.Atoi(user.uid).value;
        var newGid := Strconv.Atoi(user.gid).value;
        if currentUid != newUid || currentGid != newGid then Ok(Identity(newUid, newGid))
        else Ok(NoSwitch)
  }

  /** The credential handed to the operating system; `uint32` conversions wrap. */
  datatype Credential = Credential(uid: nat, gid: nat)

  const Uint32Modulus: nat := 0x1_0000_0000

  /** `defineSysProcAttr`: a credential is attached only when both ids are
      non-negative, and it carries them truncated to 32 bits. */
  function SysProcAttr(id: Identity): (cred: Option<Credential>)
    ensures cred.Some? <==> id.uid >= 0 && id.gid >= 0
    ensures cred.Some? ==> cred.value.uid < Uint32Modulus && cred.value.gid < Uint32Modulus
    ensures cred.Some? && id.uid < Uint32Modulus && id.gid < Uint32Modulus ==> cred.value == Credential(id.uid, id.gid)
    ensures cred.Some? ==> (id.uid - cred.value.uid) % Uint32Modulus == 0 && (id.gid - cred.value.gid) % Uint32Modulus == 0
  {
    if id.uid >= 0 && id.gid >= 0 then Some(Credential(id.uid % Uint32Modulus, id.gid % Uint32Modulus))
    else None
  }

  /** With no user configured, or when the user is the current one, the
      child processes keep the caller's credentials. */
  lemma NoCredentialWithoutSwitch(username: string, lookup: string -> Result<User>, currentUid: int, currentGid: int)
    requires NewExecutor(username, lookup, currentUid, currentGid).Ok?
    requires username == "" || (
      && Strconv.Atoi(lookup(username).value.uid).value == currentUid
      && Strconv.Atoi(lookup(username).value.gid).value == currentGid)
    ensures SysProcAttr(NewExecutor(username, lookup, currentUid, currentGid).value).None?
  {
  }

  /** A configured user whose ids differ from the caller's reaches the child
      processes as their credential. */
  lemma SwitchedUserCredential(username: string, lookup: string -> Result<User>, currentUid: int, currentGid: int)
    requires username != "" && lookup(username).Ok?
    requires 0 <= Strconv.Atoi(lookup(username).value.uid).value < Uint32Modulus
    requires 0 <= Strconv.Atoi(lookup(username).value.gid).value < Uint32Modulus
    requires Strconv.Atoi(lookup(username).value.uid).value != currentUid
      || Strconv.Atoi(lookup(username).value.gid).value != currentGid
    ensures NewExecutor(username, lookup, currentUid, currentGid).Ok?
    ensures SysProcAttr(NewExecutor(username, lookup, currentUid, currentGid).value)
      == Some(Credential(Strconv.Atoi(lookup(username).value.uid).value, Strconv.Atoi(lookup(username).value.gid).value))
  {
  }

  // ---------------------------------------------------------------------
  // The child process and execCmd

  /** What the executor asks the operating system to start. */
  datatype Spawn = Spawn(argv: seq<string>, credential: Option<Credential>)

  /** What the operating system reports about a started child: the error of
      `Start`, of waiting for the exit, of `Release`, and the captured stdout. */
  datatype ProcessOutcome = ProcessOutcome(
    startErr: Option<Error>,
    exitErr: Option<Error>,
    releaseErr: Option<Error>,
    stdout: string)

  /** The operating system, as seen by the executor. */
  type Process = (seq<Call>, Spawn) -> ProcessOutcome

  /** `execCmd`: in wait mode `cmd.Run()` (start, then wait for the exit) and the
      trimmed stdout; otherwise `cmd.Start()` then `Process.Release()`, with
      nothing to report but their errors. */
  function ExecCmd(outcome: ProcessOutcome, wait: bool): (r: RunResult)
    ensures r.err.Some? || !wait ==> r.output == ""
    ensures wait ==> (r.err.None? <==> outcome.startErr.None? && outcome.exitErr.None?)
    ensures wait && r.err.None? ==> r.output == Strings.TrimSpace(outcome.stdout)
    ensures wait ==> Strings.Trimmed(r.output)
    ensures !wait ==> (r.err.None? <==> outcome.startErr.None? && outcome.releaseErr.None?)
    ensures r.err.Some? ==> r.err in {outcome.startErr, outcome.exitErr, outcome.releaseErr}
    ensures outcome.startErr.Some? ==> r.err == outcome.startErr
    ensures outcome.startErr.None? ==> r.err == if wait then outcome.exitErr else outcome.releaseErr
  {
    if wait then
      var err := if outcome.startErr.Some? then outcome.startErr else outcome.exitErr;
      if err.Some? then RunResult("", err)
      else RunResult(Strings.TrimSpace(outcome.stdout), None)
    else if outcome.startErr.Some? then RunResult("", outcome.startErr)
    else if outcome.releaseErr.Some? then RunResult("", outcome.releaseErr)
    else RunResult("", None)
  }

  /** A detached child's exit and output are never observed. */
  lemma DetachedIgnoresExit(outcome: ProcessOutcome, exitErr: Option<Error>, stdout: string)
    ensures ExecCmd(outcome, false) == ExecCmd(outcome.(exitErr := exitErr, stdout := stdout), false)
  {
  }

  /** One executor call: whether a child was started, and the result. */
  datatype Execution = Execution(spawned: Option<Spawn>, result: RunResult)

  /** The function value `NewExecutor` returns, applied to one call. */
  function Execute(id: Identity, process: Process, history: seq<Call>, call: Call): (x: Execution)
    ensures |call.command| == 0 <==> x.spawned.None?
    ensures |call.command| == 0 ==> x.result == RunResult("", Some(EmptyCommand))
    ensures x.spawned.Some? ==> x.spawned.value == Spawn(call.command, SysProcAttr(id))
    ensures x.spawned.Some? ==> x.result == ExecCmd(process(history, x.spawned.value), call.wait)
  {
    if |call.command| == 0 then Execution(None, RunResult("", Some(EmptyCommand)))
    else
      var spawn := Spawn(call.command, SysProcAttr(id));
      Execution(Some(spawn), ExecCmd(process(history, spawn), call.wait))
  }

  /** The executor as the rest of the program sees it. */
  function AsRunner(id: Identity, process: Process): Runner {
    (history: seq<Call>, call: Call) => Execute(id, process, history, call).result
  }
}
