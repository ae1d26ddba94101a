/** The lock/unlock decision logic: cmd_lock.go, cmd_unlock.go, cmd_systemd.go,
    and `isLocked` / `tokenAttached` of main.go (main.go also repeats the three
    handlers word for word; they are modelled once).

    Every handler is a pure function of the configuration, the executor oracle,
    and the calls issued before it; it returns the Go `error` it would return
    together with the executor calls it issues, in order. */
module Commands {
  import opened Errors
  import opened Executor
  import Strings
  import Yubikey
  import ChalResp

  /** The fields of the YAML configuration. */
  datatype Config = Config(
    user: string,
    stateFile: string,
    lockCommand: seq<string>,
    unlockCommand: seq<string>,
    lockedCommand: seq<string>,
    verbose: bool)

  /** The environment an unlock needs beyond the executor: the state file
      loader `NewChallengeFromFile` (a function of the path) and the key
      derivation. */
  datatype Token = Token(load: string -> Result<Yubikey.Challenge>, kdf: Yubikey.Pbkdf2)

  /** The loader yields only well-formed records, as `NewChallengeFromFile`
      does (`Dispatch.FileToken`). */
  ghost predicate LoadsWellFormed(token: Token) {
    forall path :: token.load(path).Ok? ==> Yubikey.WellFormed(token.load(path).value)
  }

  /** The probe asking "is the session locked?": waited on, output discarded. */
  function ProbeCall(cfg: Config): Call {
    Call(cfg.lockedCommand, true)
  }

  /** The configured lock action: started detached. */
  function LockCall(cfg: Config): Call {
    Call(cfg.lockCommand, false)
  }

  /** The configured unlock action: waited on. */
  function UnlockCall(cfg: Config): Call {
    Call(cfg.unlockCommand, true)
  }

  /** The `ykchalresp` invocation for a record. */
  function ChallengeCall(c: Yubikey.Challenge): Call {
    Call(ChalResp.Command(c.challenge, c.slot), true)
  }

  // ---------------------------------------------------------------------
  // isLocked, tokenAttached

  /** `isLocked`: without a probe, "not locked" and no call; otherwise one
      waited probe, locked exactly when it returns no error. */
  function IsLocked(cfg: Config, run: Runner, history: seq<Call>): (o: Traced<bool>)
    ensures |cfg.lockedCommand| == 0 ==> o == Traced(false, [])
    ensures |cfg.lockedCommand| > 0 ==> o.calls == [ProbeCall(cfg)]
    ensures o.value <==> |cfg.lockedCommand| > 0 && run(history, ProbeCall(cfg)).err.None?
    ensures NonEmptyCalls(o.calls)
  {
    if |cfg.lockedCommand| == 0 then Traced(false, [])
    else Traced(run(history, ProbeCall(cfg)).err.None?, [ProbeCall(cfg)])
  }

  /** Only the exit status of the probe matters: two executors that agree on
      whether the probe fails give the same answer, whatever they print. */
  lemma ProbeOutputIgnored(cfg: Config, run1: Runner, run2: Runner, history: seq<Call>)
    requires run1(history, ProbeCall(cfg)).err.None? == run2(history, ProbeCall(cfg)).err.None?
    ensures IsLocked(cfg, run1, history) == IsLocked(cfg, run2, history)
  {
  }

  /** The vendor string `lsusb` prints for the token. */
  const VendorMarker: string := "Yubico.com"

  /** `tokenAttached`: the `lsusb` output (its error is ignored, so a failed
      enumeration is just an output) contains the vendor string. */
  function TokenAttached(lsusbOutput: string): (attached: bool)
    ensures attached <==> exists i :: Strings.OccursAt(lsusbOutput, VendorMarker, i)
  {
    Strings.ContainsIff(lsusbOutput, VendorMarker);
    Strings.Contains(lsusbOutput, VendorMarker)
  }

  // ---------------------------------------------------------------------
  // lockCommand

  /** `lockCommand`: nothing after the probe when already locked or when no lock
      command is configured; otherwise the lock command exactly once, detached,
      its failure wrapped. Only the probe and the lock command are ever run. */
  function Lock(cfg: Config, run: Runner, history: seq<Call>): (o: Traced<Status>)
    ensures var probe := IsLocked(cfg, run, history);
      && (probe.value ==> o == Traced(Success, probe.calls))
      && (!probe.value && |cfg.lockCommand| == 0 ==> o == Traced(Success, probe.calls))
      && (!probe.value && |cfg.lockCommand| > 0 ==>
            var r := run(history + probe.calls, LockCall(cfg));
            && o.calls == probe.calls + [LockCall(cfg)]
            && (r.err.None? ==> o.value == Success)
            && (r.err.Some? ==> o.value == Failure(CommandFailed(r.err.value))))
    ensures forall i :: 0 <= i < |o.calls| ==> o.calls[i] in {ProbeCall(cfg), LockCall(cfg)}
    ensures NonEmptyCalls(o.calls)
  {
    var probe := IsLocked(cfg, run, history);
    if probe.value then Traced(Success, probe.calls)
    else if |cfg.lockCommand| == 0 then Traced(Success, probe.calls)
    else
      var r := run(history + probe.calls, LockCall(cfg));
      var calls := probe.calls + [LockCall(cfg)];
      if r.err.Some? then Traced(Failure(CommandFailed(r.err.value)), calls)
      else Traced(Success, calls)
  }

  /** Number of times `call` occurs in `calls`. */
  function Occurrences(calls: seq<Call>, call: Call): nat {
    multiset(calls)[call]
  }

  /** Locking is idempotent: when the probe reports "locked" once the first lock
      has run, a second lock runs nothing but the probe, so the lock action runs
      at most once over both. */
  lemma LockIdempotent(cfg: Config, run: Runner, history: seq<Call>)
    requires |cfg.lockedCommand| > 0
    requires run(history + Lock(cfg, run, history).calls, ProbeCall(cfg)).err.None?
    ensures var first := Lock(cfg, run, history);
      var second := Lock(cfg, run, history + first.calls);
      && second == Traced(Success, [ProbeCall(cfg)])
      && Occurrences(first.calls + second.calls, LockCall(cfg)) <= 1
  {
    var first := Lock(cfg, run, history);
    var second := Lock(cfg, run, history + first.calls);
    assert ProbeCall(cfg) != LockCall(cfg);
    assert multiset(first.calls + second.calls) == multiset(first.calls) + multiset(second.calls);
    if IsLocked(cfg, run, history).value {
      assert first.calls == [ProbeCall(cfg)];
    } else if |cfg.lockCommand| == 0 {
      assert first.calls == [ProbeCall(cfg)];
    } else {
      assert first.calls == [ProbeCall(cfg)] + [LockCall(cfg)];
    }
  }

  // ---------------------------------------------------------------------
  // unlockCommand

  /** The part of `unlockCommand` after the record is decoded: one waited
      `ykchalresp` call; its failure or a rejected response ends there; a valid
      response runs the unlock command once, waited on, unless none is
      configured. */
  function Respond(cfg: Config, c: Yubikey.Challenge, kdf: Yubikey.Pbkdf2, run: Runner, history: seq<Call>): (o: Traced<Status>)
    ensures var resp := run(history, ChallengeCall(c));
      var valid := c.hash == kdf(resp.output, c.salt, c.iterations);
      && (resp.err.Some? ==> o == Traced(Failure(ValidationFailed(ChallengeResponseFailed(resp.err.value))), [ChallengeCall(c)]))
      && (resp.err.None? && !valid ==> o == Traced(Failure(ResponseRejected), [ChallengeCall(c)]))
      && (resp.err.None? && valid && |cfg.unlockCommand| == 0 ==> o == Traced(Success, [ChallengeCall(c)]))
      && (resp.err.None? && valid && |cfg.unlockCommand| > 0 ==>
            var r := run(history + [ChallengeCall(c)], UnlockCall(cfg));
            && o.calls == [ChallengeCall(c), UnlockCall(cfg)]
            && (r.err.None? ==> o.value == Success)
            && (r.err.Some? ==> o.value == Failure(CommandFailed(r.err.value))))
    ensures NonEmptyCalls(o.calls)
  {
    var executed := Yubikey.Execute(c, kdf, run, history);
    match executed.value
    case Err(e) => Traced(Failure(ValidationFailed(e)), executed.calls)
    case Ok(valid) =>
      if !valid then Traced(Failure(ResponseRejected), executed.calls)
      else if |cfg.unlockCommand| == 0 then Traced(Success, executed.calls)
      else
        var r := run(history + executed.calls, UnlockCall(cfg));
        var calls := executed.calls + [UnlockCall(cfg)];
        if r.err.Some? then Traced(Failure(CommandFailed(r.err.value)), calls)
        else Traced(Success, calls)
  }

  /** `unlockCommand`: not locked ends after the probe; a state file that does
      not read or decode ends before any challenge; otherwise the challenge is
      posed after the probe. */
  function Unlock(cfg: Config, token: Token, run: Runner, history: seq<Call>): (o: Traced<Status>)
    ensures var probe := IsLocked(cfg, run, history);
      var record := token.load(cfg.stateFile);
      && (!probe.value ==> o == Traced(Success, probe.calls))
      && (probe.value && record.Err? ==> o == Traced(Failure(ReadStateFailed(record.error)), probe.calls))
      && (probe.value && record.Ok? ==>
            var rest := Respond(cfg, record.value, token.kdf, run, history + probe.calls);
            o == Traced(rest.value, probe.calls + rest.calls))
    ensures NonEmptyCalls(o.calls)
  {
    var probe := IsLocked(cfg, run, history);
    if !probe.value then Traced(Success, probe.calls)
    else
      match token.load(cfg.stateFile)
      case Err(e) => Traced(Failure(ReadStateFailed(e)), probe.calls)
      case Ok(c) =>
        var rest := Respond(cfg, c, token.kdf, run, history + probe.calls);
        Traced(rest.value, probe.calls + rest.calls)
  }

  /** Without a probe the session is never considered locked, so unlocking
      does nothing at all. */
  lemma UnlockNeedsProbe(cfg: Config, token: Token, run: Runner, history: seq<Call>)
    requires |cfg.lockedCommand| == 0
    ensures Unlock(cfg, token, run, history) == Traced(Success, [])
  {
  }

  /** After the challenge, the unlock command is the only further call, and it
      runs only when the challenge succeeded and its output derives exactly the
      stored hash. */
  lemma RespondOnlyAfterValidResponse(cfg: Config, c: Yubikey.Challenge, kdf: Yubikey.Pbkdf2, run: Runner, history: seq<Call>)
    ensures var o := Respond(cfg, c, kdf, run, history);
      && 1 <= |o.calls| <= 2
      && o.calls[0] == ChallengeCall(c)
      && (o.value == Failure(ResponseRejected) ==> |o.calls| == 1)
      && (|o.calls| == 2 ==>
            var resp := run(history, ChallengeCall(c));
            && o.calls[1] == UnlockCall(cfg)
            && resp.err.None?
            && kdf(resp.output, c.salt, c.iterations) == c.hash)
  {
  }

  /** An unlock issues at most three calls. Anything after the probe happens
      only for a decoded record, and the next call is then the `ykchalresp` call
      for that record. A rejected response leaves exactly those two calls. */
  lemma UnlockChallengeFollowsProbe(cfg: Config, token: Token, run: Runner, history: seq<Call>)
    ensures var o := Unlock(cfg, token, run, history);
      && |o.calls| <= 3
      && (o.value == Failure(ResponseRejected) ==> |o.calls| == 2)
      && (|o.calls| >= 2 ==>
            var record := token.load(cfg.stateFile);
            && record.Ok?
            && o.calls[0] == ProbeCall(cfg)
            && o.calls[1] == ChallengeCall(record.value))
  {
    var o := Unlock(cfg, token, run, history);
    var probe := IsLocked(cfg, run, history);
    var record := token.load(cfg.stateFile);
    if probe.value && record.Ok? {
      var rest := Respond(cfg, record.value, token.kdf, run, history + probe.calls);
      RespondOnlyAfterValidResponse(cfg, record.value, token.kdf, run, history + probe.calls);
      assert o.calls == [ProbeCall(cfg)] + rest.calls;
    }
  }

  /** The unlock command runs only as the third call, after the probe and after
      a `ykchalresp` call for the stored record whose output derives exactly the
      stored hash. */
  lemma UnlockOnlyAfterValidResponse(cfg: Config, token: Token, run: Runner, history: seq<Call>)
    ensures var o := Unlock(cfg, token, run, history);
      |o.calls| == 3 ==>
        var record := token.load(cfg.stateFile);
        var resp := run(history + [ProbeCall(cfg)], ChallengeCall(record.value));
        && record.Ok?
        && o.calls[2] == UnlockCall(cfg)
        && resp.err.None?
        && token.kdf(resp.output, record.value.salt, record.value.iterations) == record.value.hash
  {
    var o := Unlock(cfg, token, run, history);
    var probe := IsLocked(cfg, run, history);
    var record := token.load(cfg.stateFile);
    if probe.value && record.Ok? {
      var rest := Respond(cfg, record.value, token.kdf, run, history + probe.calls);
      RespondOnlyAfterValidResponse(cfg, record.value, token.kdf, run, history + probe.calls);
      assert o.calls == [ProbeCall(cfg)] + rest.calls;
      assert |o.calls| == 3 ==> o.calls[2] == rest.calls[1];
    }
  }

  /** The slot argument handed to `ykchalresp` during an unlock is always one of
      `-0` to `-9`, because a decoded record has a one-digit slot. */
  lemma UnlockSlotArgument(cfg: Config, token: Token, run: Runner, history: seq<Call>)
    requires LoadsWellFormed(token)
    requires |Unlock(cfg, token, run, history).calls| >= 2
    ensures var arg := Unlock(cfg, token, run, history).calls[1].command[1];
      |arg| == 2 && arg[0] == '-' && '0' <= arg[1] <= '9'
  {
    UnlockChallengeFollowsProbe(cfg, token, run, history);
    var o := Unlock(cfg, token, run, history);
    var c := token.load(cfg.stateFile).value;
    assert Yubikey.WellFormed(c);
    ChalResp.DigitSlotArgument(c.challenge, c.slot);
  }

  // ---------------------------------------------------------------------
  // systemdEventCommand

  /** `systemdEventCommand`: `add` is exactly an unlock; `remove` is nothing
      while the token still enumerates and exactly a lock otherwise; any other
      action is nothing. */
  function SystemdEvent(action: string, cfg: Config, token: Token, lsusbOutput: string, run: Runner, history: seq<Call>): (o: Traced<Status>)
    ensures action == "add" ==> o == Unlock(cfg, token, run, history)
    ensures action == "remove" && TokenAttached(lsusbOutput) ==> o == Traced(Success, [])
    ensures action == "remove" && !TokenAttached(lsusbOutput) ==> o == Lock(cfg, run, history)
    ensures action != "add" && action != "remove" ==> o == Traced(Success, [])
    ensures action != "add" ==> forall i :: 0 <= i < |o.calls| ==> o.calls[i] in {ProbeCall(cfg), LockCall(cfg)}
    ensures NonEmptyCalls(o.calls)
  {
    if action == "add" then
      var unlocked := Unlock(cfg, token, run, history);
      if unlocked.value.Failure? then unlocked else Traced(Success, unlocked.calls)
    else if action == "remove" then
      if TokenAttached(lsusbOutput) then Traced(Success, [])
      else Lock(cfg, run, history)
    else Traced(Success, [])
  }
}
