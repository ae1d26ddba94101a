/** yubikey/challenge.go: the challenge state record, its one-line text form,
    and the validation of a token's response against it. */
module Yubikey {
  import opened Errors
  import opened Executor
  import Strings
  import Strconv
  import Hex
  import ChalResp

  /** The decoded state file. */
  datatype Challenge = Challenge(
    challenge: seq<Hex.byte>,
    hash: seq<Hex.byte>,
    salt: seq<Hex.byte>,
    iterations: int,
    slot: int)

  // ---------------------------------------------------------------------
  // The state line pattern
  //   ^([a-z0-9]+):([0-9a-f]+):([0-9a-f]+):([0-9a-f]+):([0-9]+):([0-9])$

  /** The six captured groups of the pattern, as text. */
  datatype StateFields = StateFields(
    version: string,
    challenge: string,
    hash: string,
    salt: string,
    iterations: string,
    slot: string)

  predicate IsVersionChar(c: char) {
    'a' <= c <= 'z' || '0' <= c <= '9'
  }

  /** Each group matches its character class. */
  predicate GroupsMatch(f: StateFields) {
    && |f.version| > 0 && (forall i :: 0 <= i < |f.version| ==> IsVersionChar(f.version[i]))
    && |f.challenge| > 0 && Hex.IsLowerHex(f.challenge)
    && |f.hash| > 0 && Hex.IsLowerHex(f.hash)
    && |f.salt| > 0 && Hex.IsLowerHex(f.salt)
    && |f.iterations| > 0 && Strconv.AllDigits(f.iterations)
    && |f.slot| == 1 && Strconv.IsDigit(f.slot[0])
  }

  function Groups(f: StateFields): seq<string> {
    [f.version, f.challenge, f.hash, f.salt, f.iterations, f.slot]
  }

  /** The groups joined by colons. */
  function Line(f: StateFields): string {
    Strings.Join(Groups(f), ':')
  }

  /** Reference meaning of the anchored pattern: `line` is exactly the six
      groups joined by colons, each group in its class. */
  predicate MatchesStateRegex(line: string, f: StateFields) {
    line == Line(f) && GroupsMatch(f)
  }

  /** The matcher: no class admits a colon, so matching the pattern is splitting
      at the colons and checking each of exactly six pieces. */
  function MatchStateLine(line: string): (m: Option<StateFields>)
    ensures m.Some? ==> MatchesStateRegex(line, m.value)
  {
    var parts := Strings.Split(line, ':');
    if |parts| != 6 then None
    else
      var f := StateFields(parts[0], parts[1], parts[2], parts[3], parts[4], parts[5]);
      if !GroupsMatch(f) then None
      else
        Strings.JoinSplit(line, ':');
        assert Groups(f) == parts;
        Some(f)
  }

  /** Every match of the pattern is found by the matcher. */
  lemma MatchComplete(line: string, f: StateFields)
    requires MatchesStateRegex(line, f)
    ensures MatchStateLine(line) == Some(f)
  {
    var g := Groups(f);
    forall i | 0 <= i < |g|
      ensures ':' !in g[i]
    {
      if ':' in g[i] {
        var k :| 0 <= k < |g[i]| && g[i][k] == ':';
        assert false;
      }
    }
    Strings.SplitJoin(g, ':');
  }

  // ---------------------------------------------------------------------
  // NewChallengeFromFile

  /** What a successfully decoded record always satisfies, and what `Encode`
      needs to write a line that decodes back. */
  predicate WellFormed(c: Challenge) {
    && |c.challenge| > 0 && |c.hash| > 0 && |c.salt| > 0
    && 0 <= c.iterations <= Strconv.MaxInt
    && 0 <= c.slot <= 9
  }

  /** The hex groups all have an even length. */
  predicate EvenHexGroups(f: StateFields) {
    |f.challenge| % 2 == 0 && |f.hash| % 2 == 0 && |f.salt| % 2 == 0
  }

  /** Converting the groups of a v2 line: hex decoding can fail only on an odd
      length, checked for challenge, hash and salt in that order; the iteration
      count fails only beyond the 64-bit range; the one-digit slot never fails. */
  function DecodeGroups(f: StateFields): (r: Result<Challenge>)
    requires GroupsMatch(f)
    ensures r == Err(BadChallengeHex) <==> |f.challenge| % 2 == 1
    ensures r == Err(BadHashHex) <==> |f.challenge| % 2 == 0 && |f.hash| % 2 == 1
    ensures r == Err(BadSaltHex) <==> |f.challenge| % 2 == 0 && |f.hash| % 2 == 0 && |f.salt| % 2 == 1
    ensures r == Err(BadIterations) <==> EvenHexGroups(f) && Strconv.DigitsValue(f.iterations) > Strconv.MaxInt
    ensures r.Err? ==> r.error in {BadChallengeHex, BadHashHex, BadSaltHex, BadIterations}
    ensures r.Ok? ==>
      && Hex.Encode(r.value.challenge) == f.challenge
      && Hex.Encode(r.value.hash) == f.hash
      && Hex.Encode(r.value.salt) == f.salt
      && r.value.iterations == Strconv.DigitsValue(f.iterations)
      && r.value.slot == Strconv.DigitsValue(f.slot)
      && WellFormed(r.value)
  {
    match Hex.Decode(f.challenge)
    case None => Err(BadChallengeHex)
    case Some(challenge) =>
      match Hex.Decode(f.hash)
      case None => Err(BadHashHex)
      case Some(hash) =>
        match Hex.Decode(f.salt)
        case None => Err(BadSaltHex)
        case Some(salt) =>
          var iterations := Strconv.Atoi(f.iterations);
          Strconv.AtoiDigits(f.iterations);
          if !iterations.ok then Err(BadIterations)
          else
            var slot := Strconv.Atoi(f.slot);
            Strconv.AtoiDigits(f.slot);
            if !slot.ok then Err(BadSlot)
            else
              Hex.EncodeDecode(f.challenge);
              Hex.EncodeDecode(f.hash);
              Hex.EncodeDecode(f.salt);
              Ok(Challenge(challenge, hash, salt, iterations.value, slot.value))
  }

  /** What follows the pattern match: no match and any version other than `v2`
      share one error; the groups of a matching v2 line are converted. */
  function DecodeMatch(m: Option<StateFields>): (r: Result<Challenge>)
    requires m.Some? ==> GroupsMatch(m.value)
    ensures r == Err(NotV2State) <==> m.None? || m.value.version != "v2"
    ensures m.Some? && m.value.version == "v2" ==> r == DecodeGroups(m.value)
    ensures r != Err(BadSlot)
    ensures r.Ok? ==> WellFormed(r.value)
  {
    if m.None? || m.value.version != "v2" then Err(NotV2State)
    else DecodeGroups(m.value)
  }

  /** The parsing part of `NewChallengeFromFile`: the trimmed text must match the
      pattern, and a non-matching line and any version other than `v2` share one
      error; the groups of a matching v2 line are then converted. */
  function Decode(text: string): (r: Result<Challenge>)
    ensures var m := MatchStateLine(Strings.TrimSpace(text));
      && (r == Err(NotV2State) <==> m.None? || m.value.version != "v2")
      && (m.Some? && m.value.version == "v2" ==> r == DecodeGroups(m.value))
    ensures r != Err(BadSlot)
    ensures r.Ok? ==> WellFormed(r.value)
  {
    DecodeMatch(MatchStateLine(Strings.TrimSpace(text)))
  }

  /** `NewChallengeFromFile`: a read error is returned as is, otherwise the
      contents are decoded. */
  function FromFile(path: string, readFile: string -> Result<string>): (r: Result<Challenge>)
    ensures readFile(path).Err? ==> r == Err(readFile(path).error)
    ensures readFile(path).Ok? ==> r == Decode(readFile(path).value)
  {
    match readFile(path)
    case Err(e) => Err(e)
    case Ok(content) => Decode(content)
  }

  /** The groups an enrolment tool writes for a record. */
  function EncodeFields(c: Challenge): StateFields {
    StateFields("v2", Hex.Encode(c.challenge), Hex.Encode(c.hash), Hex.Encode(c.salt),
                Strconv.Itoa(c.iterations), Strconv.Itoa(c.slot))
  }

  /** The state line for a record. */
  function Encode(c: Challenge): string {
    Line(EncodeFields(c))
  }

  /** The line of a well-formed record is trimmed and matches the pattern with
      exactly its groups. */
  lemma EncodeMatches(c: Challenge)
    requires WellFormed(c)
    ensures MatchStateLine(Encode(c)) == Some(EncodeFields(c))
    ensures Strings.Trimmed(Encode(c))
  {
    var f := EncodeFields(c);
    assert f.version[1] == '2';
    MatchComplete(Encode(c), f);
    Strings.JoinFirst(Groups(f), ':');
    Strings.JoinLast(Groups(f), ':');
  }

  /** Converting the groups of a well-formed record gives the record back. */
  lemma DecodeGroupsEncode(c: Challenge)
    requires WellFormed(c)
    ensures GroupsMatch(EncodeFields(c)) && DecodeGroups(EncodeFields(c)) == Ok(c)
  {
    EncodeMatches(c);
    Hex.DecodeEncode(c.challenge);
    Hex.DecodeEncode(c.hash);
    Hex.DecodeEncode(c.salt);
  }

  /** Round trip: a well-formed record survives encoding and decoding. */
  lemma DecodeEncode(c: Challenge)
    requires WellFormed(c)
    ensures Decode(Encode(c)) == Ok(c)
  {
    var e := Encode(c);
    var f := EncodeFields(c);
    EncodeMatches(c);
    Strings.TrimSpaceTrimmed(e);
    assert MatchStateLine(Strings.TrimSpace(e)) == Some(f);
    DecodeGroupsEncode(c);
  }

  /** Round trip with white space around the line. */
  lemma DecodePadded(c: Challenge, pre: string, post: string)
    requires WellFormed(c)
    requires Strings.AllSpace(pre) && Strings.AllSpace(post)
    ensures Decode(pre + Encode(c) + post) == Ok(c)
  {
    EncodeMatches(c);
    Strings.TrimSpacePadded(pre, Encode(c), post);
    DecodeGroupsEncode(c);
  }

  // ---------------------------------------------------------------------
  // Execute, validateResponse, hashResponse

  /** PBKDF2 (section 5.2 of RFC 8018) with HMAC-SHA1 and a 20-byte key. */
  const KeyLength: nat := 20

  type Derived = s: seq<Hex.byte> | |s| == KeyLength witness seq(KeyLength, i => 0 as Hex.byte)

  /** The key derivation: from the response text, the salt and the iteration
      count to 20 bytes. Its inside is not modelled; it is a parameter. */
  type Pbkdf2 = (string, seq<Hex.byte>, int) -> Derived

  /** `hashResponse`: never fails and always yields 20 bytes. */
  function HashResponse(c: Challenge, response: string, kdf: Pbkdf2): (r: Result<Derived>)
    ensures r.Ok? && |r.value| == KeyLength
    ensures r.value == kdf(response, c.salt, c.iterations)
  {
    Ok(kdf(response, c.salt, c.iterations))
  }

  /** `validateResponse`: valid exactly when the derived key equals the stored
      hash; never an error, and a stored hash of the wrong length never matches. */
  function ValidateResponse(c: Challenge, response: string, kdf: Pbkdf2): (r: Result<bool>)
    ensures r.Ok?
    ensures r.value <==> c.hash == kdf(response, c.salt, c.iterations)
    ensures |c.hash| != KeyLength ==> r == Ok(false)
  {
    match HashResponse(c, response, kdf)
    case Err(e) => Err(HashingFailed(e))
    case Ok(derived) => Ok(c.hash == derived)
  }

  /** `Execute`: one waited `ykchalresp` call; its failure is reported without
      validating, otherwise its output is validated. */
  function Execute(c: Challenge, kdf: Pbkdf2, run: Runner, history: seq<Call>): (o: Traced<Result<bool>>)
    ensures o.calls == [Call(ChalResp.Command(c.challenge, c.slot), true)]
    ensures var resp := run(history, o.calls[0]);
      && (resp.err.Some? ==> o.value == Err(ChallengeResponseFailed(resp.err.value)))
      && (resp.err.None? ==> o.value == Ok(c.hash == kdf(resp.output, c.salt, c.iterations)))
  {
    var resp := ChalResp.ChallengeResponse(c.challenge, c.slot, run, history);
    if resp.value.err.Some? then Traced(Err(ChallengeResponseFailed(resp.value.err.value)), resp.calls)
    else Traced(ValidateResponse(c, resp.value.output, kdf), resp.calls)
  }
}
