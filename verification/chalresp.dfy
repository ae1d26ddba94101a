/** yubikey/chalresp.go: posing a challenge to the token through `ykchalresp`. */
module ChalResp {
  import opened Errors
  import opened Executor
  import Hex
  import Strconv

  /** The argument vector `ykchalresp -<slot> -H -x <hex challenge>`. */
  function Command(challenge: seq<Hex.byte>, slot: int): (cmd: seq<string>)
    ensures |cmd| == 5
    ensures cmd[0] == "ykchalresp" && cmd[2] == "-H" && cmd[3] == "-x"
  {
    ["ykchalresp", "-" + Strconv.Itoa(slot), "-H", "-x", Hex.Encode(challenge)]
  }

  /** The token reads back what was meant: the slot argument is `-` followed by
      text that parses as the slot, and the last argument is the lower-case hex
      form of the challenge, twice its length, which decodes back to it. */
  lemma CommandArguments(challenge: seq<Hex.byte>, slot: int)
    requires Strconv.MinInt <= slot <= Strconv.MaxInt
    ensures var cmd := Command(challenge, slot);
      && |cmd[1]| >= 2 && cmd[1][0] == '-'
      && Strconv.Atoi(cmd[1][1..]) == Strconv.Parsed(slot, true)
      && |cmd[4]| == 2 * |challenge| && Hex.IsLowerHex(cmd[4])
      && Hex.Decode(cmd[4]) == Some(challenge)
  {
    var cmd := Command(challenge, slot);
    assert cmd[1][1..] == Strconv.Itoa(slot);
    Hex.DecodeEncode(challenge);
  }

  /** A one-digit slot is passed as `-0` to `-9`. */
  lemma DigitSlotArgument(challenge: seq<Hex.byte>, slot: int)
    requires 0 <= slot <= 9
    ensures var arg := Command(challenge, slot)[1];
      |arg| == 2 && arg[0] == '-' && Strconv.IsDigit(arg[1]) && arg[1] as int - '0' as int == slot
  {
  }

  /** `ChallengeResponse`: exactly one executor call, waited on, whose output
      and error are handed back unchanged. */
  function ChallengeResponse(challenge: seq<Hex.byte>, slot: int, run: Runner, history: seq<Call>): (o: Traced<RunResult>)
    ensures o.calls == [Call(Command(challenge, slot), true)]
    ensures o.value == run(history, o.calls[0])
  {
    var call := Call(Command(challenge, slot), true);
    Traced(run(history, call), [call])
  }
}
