# yubilock: authentication and lock/unlock decision logic in Dafny

yubilock locks and unlocks a desktop session based on a YubiKey. Unlocking
needs proof that the token is present. The program reads a one-line state file
holding a challenge, a PBKDF2 hash of the expected response, a salt, an
iteration count and a slot. It passes the challenge to the token through
`ykchalresp`, hashes the response, and compares the result with the stored
hash. Lock, unlock and the locked-state probe are configured external
commands. They run through an executor that may switch to another user's
uid/gid.

This project models that logic as pure functions:

- `Errors`: Go's `(T, error)` becomes `Result<T>` and a bare `error` becomes
  `Status`. Every error message produced by the modelled files is a
  constructor of `Error`; wrapping with `%v` keeps the cause. The messages of
  config.go belong to the configuration loader, which is an input here.
- `Strings`, `Hex`, `Strconv`: the parts of Go's standard library that the
  logic depends on. These are `strings.TrimSpace` and `Contains`,
  `hex.EncodeToString` and `DecodeString`, and `strconv.Atoi` with `%d`.
  Each comes with its inverse or a reference definition. The program matches
  the state line with a regular expression, not with `strings.Split`. The
  model's `Split` and `Join` on `:` serve only to express that pattern, since
  none of its character classes admits a colon.
- `Executor` (executor/executor.go): the uid/gid choice of `NewExecutor`,
  `defineSysProcAttr`, the empty-command check, and how `execCmd` shapes a
  child's outcome into `(output, error)`. The rest of the program sees an
  executor as an oracle `Runner = (calls so far, call) -> (output, error)`.
  Every handler returns its result together with the `(command, wait)` calls
  it issued, in order.
- `ChalResp` (yubikey/chalresp.go): the `ykchalresp` argument vector and the
  single waited call.
- `Yubikey` (yubikey/challenge.go): the state record, the line pattern, the
  decoder (with an encoder used for round-trip proofs), and response
  validation. PBKDF2 is a parameter whose results are always 20 bytes long.
- `Commands` (cmd_lock.go, cmd_unlock.go, cmd_systemd.go, and `isLocked` and
  `tokenAttached` of main.go): the lock, unlock and device-event handlers.
  main.go repeats the three handlers word for word; they are modelled once.
  The handlers take the state loader as a function from path to record.
  `Dispatch.FileToken` fixes it to `Yubikey.FromFile` over the file reader.
- `Dispatch` (main.go): `main`'s order: configuration, executor, routing.

Behaviour worth noting:

- The unlock command runs waited on (`wait=true`); only the lock command is
  started detached.
- With no `lockedCommand` configured, `isLocked` reports "not locked", so
  unlocking never does anything (`Commands.UnlockNeedsProbe`). Only locking
  always proceeds.
- The slot group accepts any digit 0–9, and an iteration count of 0 is
  accepted.
- `lsusb` runs through `exec.Command` directly, not through the executor.
  Its output is therefore an input, and it is not part of the call trace.

## Model

| member | source | states |
|---|---|---|
| Strings.TrimSpacePadded | yubikey/challenge.go:35 | trimming any white space (Go's `unicode.IsSpace` set) around a core whose ends are not white space yields exactly that core |
| Strings.TrimSpaceTrimmed | yubikey/challenge.go:35 | a line with no white space at either end is not changed by trimming |
| Strings.TrimSpaceIdempotent | yubikey/challenge.go:35 | trimming a trimmed line changes nothing |
| Strings.JoinSplit | yubikey/challenge.go:27 | joining the colon-separated pieces restores the line |
| Strings.SplitJoin | yubikey/challenge.go:27 | splitting a join of colon-free pieces gives back exactly those pieces |
| Strings.ContainsIff | main.go:184 | substring search holds iff the marker occurs at some index |
| Hex.Decode | yubikey/challenge.go:40-53 | on a string of lower-case hex digits, decoding fails iff the length is odd; a decoded value is half the length |
| Hex.DecodeEncode | yubikey/chalresp.go:11 | the hex text of any byte string decodes back to it |
| Hex.EncodeDecode | yubikey/challenge.go:40-53 | an even-length lower-case hex field decodes, and re-encoding gives the field back |
| Strconv.AtoiDigits | yubikey/challenge.go:55-63 | on a digit string, `Atoi` fails only when the value exceeds the 64-bit maximum, and then yields the maximum |
| Strconv.ParseUintValue | executor/executor.go:30-31 | the digit-by-digit scan of `ParseUint` is a range error exactly when the leading digit run exceeds 2^64-1; otherwise it is a syntax error when the text is empty or a non-digit follows the run; otherwise it yields the value of the digits |
| Strconv.Atoi | executor/executor.go:30-31 | after one optional sign: a leading digit run beyond 2^64-1 gives the bound on the sign's side, even if a non-digit follows; otherwise an empty run or a trailing non-digit gives 0; otherwise the signed value when it fits 64 bits, and the bound when it does not. `NewExecutor` keeps this value even when the parse fails |
| Strconv.AtoiOverflowFirst | executor/executor.go:30-31 | digits that overflow before a non-digit give `(MaxInt, error)`, or `(MinInt, error)` after a minus sign, not the syntax-error 0 |
| Strconv.Itoa | yubikey/chalresp.go:15 | `%d` output starts with `-` exactly for negatives; the digits are canonical (no sign other than `-`, no superfluous leading zero); `Atoi` reads it back for every 64-bit integer |
| Executor.NewExecutor | executor/executor.go:20-38 | an empty user name means no switch (-1/-1); a failed lookup is an error naming the user; a looked-up user's ids (parsed with `Atoi`) are adopted iff they differ from the current uid/gid, and otherwise both stay -1 |
| Executor.SysProcAttr | executor/executor.go:64-76 | a credential is attached iff both ids are non-negative; it carries each id wrapped to 32 bits as `uint32` does (below 2^32 and congruent to the id modulo 2^32) |
| Executor.SwitchedUserCredential | executor/executor.go:33-37 | a configured user whose parsed ids differ from the caller's, and fit 32 bits, is the credential every child process gets |
| Executor.NoCredentialWithoutSwitch | executor/executor.go:21-37 | with no user, or with the current user, no credential reaches the child |
| Executor.ExecCmd | executor/executor.go:78-108 | waited: an error gives empty output, success gives the trimmed stdout; detached: empty output, and success iff start and release both succeed; a start error is the one reported, and otherwise the wait error (waited) or the release error (detached) |
| Executor.DetachedIgnoresExit | executor/executor.go:97-107 | a detached child's exit status and output never affect the result |
| Executor.Execute | executor/executor.go:40-58 | an empty command fails with no child started; otherwise exactly one child with the executor's credential, shaped by `execCmd` |
| ChalResp.Command | yubikey/chalresp.go:13-19 | the vector has exactly five words: `ykchalresp`, the slot argument, `-H`, `-x` and the hex challenge |
| ChalResp.CommandArguments | yubikey/chalresp.go:11-19 | in `ykchalresp -<slot> -H -x <hex>`, the slot argument is `-` followed by text that `Atoi` reads back as the slot; the hex argument is lower case, twice the challenge length, and decodes back to the challenge |
| ChalResp.DigitSlotArgument | yubikey/chalresp.go:15 | a slot from 0 to 9 is passed as `-` and the single digit whose value is the slot |
| ChalResp.ChallengeResponse | yubikey/chalresp.go:21 | exactly one waited executor call, whose output and error are returned unchanged |
| Yubikey.MatchStateLine | yubikey/challenge.go:27 | every line the matcher accepts is the six groups joined by colons, each group in its character class |
| Yubikey.MatchComplete | yubikey/challenge.go:27 | every line of that shape is accepted, with exactly those groups |
| Yubikey.DecodeGroups | yubikey/challenge.go:40-71 | on matched groups: hex errors only on odd lengths, reported for challenge, then hash, then salt; an iterations error only on 64-bit overflow; never a slot error; a result is well formed and re-encodes to the groups |
| Yubikey.DecodeMatch | yubikey/challenge.go:36-71 | no match and any version other than `v2` give the one "not v2" error; the groups of a v2 match are converted; a slot error never occurs and a result is well formed |
| Yubikey.Decode | yubikey/challenge.go:35-71 | the one "not v2" error is returned iff the trimmed text fails the pattern or the version is not exactly `v2`; a slot error never occurs; a decoded record has slot 0..9 and iterations in 0..2^63-1 |
| Yubikey.FromFile | yubikey/challenge.go:29-33 | a read error is passed through unchanged; otherwise the contents are decoded |
| Yubikey.EncodeMatches | yubikey/challenge.go:27 | the line written for a well-formed record has no white space at either end and matches the pattern with exactly the record's groups |
| Yubikey.DecodeGroupsEncode | yubikey/challenge.go:40-71 | converting the groups written for a well-formed record gives that record back |
| Yubikey.DecodeEncode | yubikey/challenge.go:27-71 | a record with non-empty byte fields, iterations in 64-bit range and slot 0..9 encodes to a line that decodes back to it |
| Yubikey.DecodePadded | yubikey/challenge.go:35 | the same round trip holds with white space before and after the line |
| Yubikey.HashResponse | yubikey/challenge.go:92-101 | hashing never fails and always yields 20 bytes |
| Yubikey.ValidateResponse | yubikey/challenge.go:83-90 | never an error; valid iff the derived 20 bytes equal the stored hash exactly, so a stored hash of another length never validates |
| Yubikey.Execute | yubikey/challenge.go:74-81 | one waited `ykchalresp` call; its error is returned wrapped, with no validation; otherwise the result is whether PBKDF2 of its output equals the stored hash |
| Commands.IsLocked | main.go:170-179 | with no probe configured, "not locked" and no call; otherwise one waited probe, and locked iff it returns no error |
| Commands.ProbeOutputIgnored | main.go:176-178 | the probe's output never affects the answer, only whether it failed |
| Commands.TokenAttached | main.go:181-185 | attached iff `Yubico.com` occurs somewhere in the enumeration output |
| Commands.Lock | cmd_lock.go:10-29 | when locked, or with no lock command, nothing runs after the probe; otherwise the lock command runs once, detached, and its error is wrapped; only the probe and the lock command are ever run |
| Commands.LockIdempotent | cmd_lock.go:11-22 | if the probe reports "locked" after a first lock, a second lock runs only the probe, so the lock action runs at most once across both |
| Commands.Respond | cmd_unlock.go:25-44 | a `ykchalresp` failure or a rejected response ends right after the challenge; a valid response runs the unlock command once, waited on, unless none is configured |
| Commands.Unlock | cmd_unlock.go:11-22 | not locked: nothing after the probe; a record that fails to load ends before any challenge, with the load error wrapped; otherwise the challenge follows the probe |
| Commands.UnlockNeedsProbe | main.go:171-174 | with no probe configured, unlocking runs nothing and succeeds |
| Commands.RespondOnlyAfterValidResponse | cmd_unlock.go:25-44 | after the challenge at most one more call runs; a rejection runs none; a second call is always the unlock command, after a `ykchalresp` that succeeded and whose output derives exactly the stored hash |
| Commands.UnlockChallengeFollowsProbe | cmd_unlock.go:12-25 | at most three calls; a rejection leaves exactly two; a second call happens only for a loaded record, and the calls are then the probe and the `ykchalresp` call for that record |
| Commands.UnlockOnlyAfterValidResponse | cmd_unlock.go:12-44 | a third call is always the unlock command, after the probe and after a `ykchalresp` for the stored record whose output derives exactly the stored hash |
| Commands.UnlockSlotArgument | cmd_unlock.go:19-25 | with a loader that yields only well-formed records, the slot argument posed during an unlock is always `-0` … `-9` |
| Commands.SystemdEvent | cmd_systemd.go:10-34 | `add` is exactly an unlock; `remove` does nothing while the token still enumerates, and is otherwise exactly a lock; any other action does nothing; outside `add`, only the probe and the lock command go to the executor (`lsusb` runs outside it) |
| Dispatch.FileToken | cmd_unlock.go:19 | the record loader is `NewChallengeFromFile` over the file reader, so every record it yields is well formed |
| Dispatch.LoadConfig | main.go:69-81 | a missing file name is an error before the loader is consulted; a loader error is wrapped |
| Dispatch.Entry | main.go:15-53 | configuration and executor failures end before any command runs; `lock`, `unlock` and `systemd-event` reach exactly their handler; any other word is a usage failure with no call; every call reaches the operating system with the executor's credential |

## Left out

- Process spawning, stdout/stderr wiring, environment inheritance and the
  credential switch itself are operating-system I/O. The child process is
  the `Process` oracle.
- `execProcess` (executor/executor.go:110-149) is never reached, because of
  the `return` before it at line 58. It is not modelled.
- PBKDF2 and SHA-1 are a foreign library. They are the parameter
  `Pbkdf2 = (response, salt, iterations) -> 20 bytes`. The conversion of the
  response text to bytes is folded into it.
- Reading the state file and the configuration file, YAML parsing, `flag`
  parsing, `user.Lookup`, `os.Getuid`/`os.Getgid` and running `lsusb` are
  inputs. `Config` mirrors config.go's fields; config.go's own check of
  `stateFile` lives in the loader, which is not part of this model.
- Logging, and the change of log level for `verbose`, have no effect on
  outcomes and are not modelled.
- Strings are sequences of Unicode code points. Invalid UTF-8 bytes in a
  file or in command output cannot be represented.
- The hex decoder's two Go error kinds (odd length, invalid byte) are one
  failure here, because the program maps both to the same message.
- `Executor.NewExecutor` does not carry the user name, which the executor
  uses only in a log line.
- No concurrency exists in the program. No locking of the state file is
  modelled, because there is none.
