/**
 * The proxy's handshake with the target cluster
 * (proxy/pkg/cloudgateproxy/startup.go).
 *
 * The client's STARTUP was already sent to the target, and its response is
 * handed in.  The loop replays that pair (phase 1) and, while the target asks
 * for authentication, builds an AUTH_RESPONSE, forwards it and waits for one
 * response (phase 2), at most MaxAuthRetries + 1 times.
 *
 * Inputs that the Go code obtains from collaborators are parameters here:
 * whether a frame decodes is part of the raw frame; what happens in each
 * phase-2 round (authenticator step, encoding, forwarding, the wait on the
 * response channel against the handler context) is a per-round outcome.
 */
module Startup {
  import opened Maybe

  /** maxAuthRetries */
  const MaxAuthRetries: nat := 5

  /** A frame header opcode, a byte (section 2.4 of the CQL native protocol v4). */
  newtype OpCode = x: int | 0 <= x < 0x100

  const OpReady: OpCode := 0x02
  const OpAuthenticate: OpCode := 0x03
  const OpAuthChallenge: OpCode := 0x0E
  const OpAuthSuccess: OpCode := 0x10

  /** Error code "Authentication error" (section 9 of the CQL native protocol v4). */
  const AuthenticationErrorCode: int := 0x0100

  /** A decoded message body: an ERROR body (section 4.2.1 of the CQL native protocol v4) or anything else. */
  datatype Message =
    | ErrorMessage(code: int, errorMessage: string)
    | OtherMessage(summary: string)
  {
    /** The codec decodes exactly these into message.AuthenticationError. */
    predicate IsAuthenticationError() {
      ErrorMessage? && code == AuthenticationErrorCode
    }
  }

  /** A decoded frame. */
  datatype Frame = Frame(opCode: OpCode, message: Message)

  /** The body of a raw frame, and whether the codec can decode it. */
  datatype RawBody = Encoded(message: Message) | Undecodable

  datatype RawFrame = RawFrame(opCode: OpCode, body: RawBody)

  /** defaultCodec.ConvertFromRawFrame; None is the codec's error. */
  function ConvertFromRawFrame(f: RawFrame): Option<Frame>
  {
    match f.body
    case Encoded(m) => Some(Frame(f.opCode, m))
    case Undecodable => None
  }

  predicate IsAuthPrompt(op: OpCode) {
    op == OpAuthenticate || op == OpAuthChallenge
  }

  predicate IsHandshakeSuccess(op: OpCode) {
    op == OpReady || op == OpAuthSuccess
  }

  datatype HandshakeError =
    | AttemptsExhausted          // "reached max number of attempts ..."
    | MissingTargetCredentials   // "target requested authentication but origin did not ..."
    | HandshakeStepFailed        // performHandshakeStep failed
    | AuthResponseEncodeFailed   // ConvertToRawFrame failed
    | SendFailed                 // executeForwardDecision failed
    | Shutdown                   // ShutdownErr
    | TransmissionFailed         // channel closed (or nil response) with no context error
    | DecodeFailed               // ConvertFromRawFrame failed
    | AuthError(errMsg: Message) // AuthError carrying the authentication error body
    | UnexpectedResponse(message: Message)

  datatype StartupResult = Success | Failure(error: HandshakeError)

  /** The Go `phase` variable, which only ever holds 1 or 2. */
  type Phase = p: int | p == 1 || p == 2 witness 1

  /** The tuple returned by handleTargetHandshakeResponse. */
  datatype Transition = Transition(newPhase: Phase, parsed: Option<Frame>, done: bool, err: Option<HandshakeError>)

  /** handleTargetHandshakeResponse: what one response does to the loop. */
  function HandleTargetHandshakeResponse(phase: Phase, f: RawFrame): (r: Transition)
    // a response that is accepted leaves a captured frame with the response's opcode behind
    ensures r.err.None? ==> r.parsed.Some? && r.parsed.value.opCode == f.opCode
    // the handshake is never both done and failed
    ensures r.done ==> r.err.None?
  {
    match ConvertFromRawFrame(f)
    case None => Transition(phase, None, false, Some(DecodeFailed))
    case Some(parsed) =>
      if f.opCode == OpAuthenticate then Transition(2, Some(parsed), false, None)
      else if f.opCode == OpAuthChallenge then Transition(phase, Some(parsed), false, None)
      else if f.opCode == OpReady || f.opCode == OpAuthSuccess then Transition(phase, Some(parsed), true, None)
      else if parsed.message.IsAuthenticationError() then
        Transition(phase, Some(parsed), false, Some(AuthError(parsed.message)))
      else Transition(phase, Some(parsed), false, Some(UnexpectedResponse(parsed.message)))
  }

  /**
   * How handleTargetHandshakeResponse classifies a response: a decode
   * failure, the four handshake opcodes, and every other opcode.
   */
  lemma HandshakeResponseClassified(phase: Phase, f: RawFrame)
    // a frame that does not decode fails, keeping the phase and not done
    ensures f.body.Undecodable? ==> HandleTargetHandshakeResponse(phase, f) == Transition(phase, None, false, Some(DecodeFailed))
    // no error exactly for the four handshake opcodes, and then the decoded frame is captured
    ensures HandleTargetHandshakeResponse(phase, f).err.None?
        <==> f.body.Encoded? && (IsAuthPrompt(f.opCode) || IsHandshakeSuccess(f.opCode))
    ensures HandleTargetHandshakeResponse(phase, f).err.None? ==> HandleTargetHandshakeResponse(phase, f).parsed == ConvertFromRawFrame(f)
    // done exactly on READY and AUTH_SUCCESS
    ensures HandleTargetHandshakeResponse(phase, f).done <==> f.body.Encoded? && IsHandshakeSuccess(f.opCode)
    // only AUTHENTICATE changes the phase: AUTH_CHALLENGE keeps it
    ensures HandleTargetHandshakeResponse(phase, f).newPhase == if f.body.Encoded? && f.opCode == OpAuthenticate then 2 else phase
    // any other opcode: an AuthError exactly when the body is an authentication error
    ensures f.body.Encoded? && !IsAuthPrompt(f.opCode) && !IsHandshakeSuccess(f.opCode) ==>
      HandleTargetHandshakeResponse(phase, f).err
        == Some(if f.body.message.IsAuthenticationError() then AuthError(f.body.message) else UnexpectedResponse(f.body.message))
  {
  }

  /** What happens in one phase-2 round, decided by collaborators and the target. */
  datatype RoundOutcome =
    | StepRejected             // performHandshakeStep returns an error
    | EncodeRejected           // ConvertToRawFrame returns an error
    | SendRejected             // executeForwardDecision returns an error
    | Cancelled                // the handler context is done before a response
    | Closed(contextErr: bool) // the channel closes or yields nil; whether the context has an error
    | Delivered(response: RawFrame)

  /** How a phase-2 round ends, and whether its AUTH_RESPONSE was accepted for forwarding. */
  datatype RoundEnd = Answered(response: RawFrame) | Aborted(error: HandshakeError, sent: bool)
  {
    predicate Sent() { Answered? || sent }
  }

  /**
   * Build, forward and await: the step, the encoding and the submission can
   * each fail before anything is sent; once sent, the wait yields the
   * response, or the shutdown error when the context is done (or the channel
   * closes while the context has an error), or else the transmission error.
   */
  function EndOfRound(outcome: RoundOutcome): (r: RoundEnd)
    // the round yields a response exactly when one is delivered
    ensures r.Answered? <==> outcome.Delivered?
    // the AUTH_RESPONSE was sent unless building, encoding or submitting it failed
    ensures r.Sent() <==> !(outcome.StepRejected? || outcome.EncodeRejected? || outcome.SendRejected?)
  {
    match outcome
    case StepRejected => Aborted(HandshakeStepFailed, false)
    case EncodeRejected => Aborted(AuthResponseEncodeFailed, false)
    case SendRejected => Aborted(SendFailed, false)
    case Cancelled => Aborted(Shutdown, true)
    case Closed(contextErr) => Aborted(if contextErr then Shutdown else TransmissionFailed, true)
    case Delivered(f) => Answered(f)
  }

  // ---------------------------------------------------------------------------
  // Specification of the loop
  // ---------------------------------------------------------------------------

  /**
   * The loop's variables.  `forwarded` counts AUTH_RESPONSE frames accepted
   * for forwarding; `stepInputs` lists the frames handed to the
   * authenticator, one per phase-2 round begun (so it also indexes rounds).
   */
  datatype LoopState = LoopState(phase: Phase, attempts: nat, lastResponse: Option<Frame>, forwarded: nat, stepInputs: seq<Frame>)

  /** How the handshake ended, after how many loop iterations, forwarding how much. */
  datatype Outcome = Outcome(result: StartupResult, iterations: nat, forwarded: nat, stepInputs: seq<Frame>)

  function Initial(): LoopState
  {
    LoopState(1, 0, None, 0, [])
  }

  /** What the loop needs of its state: a bounded count, and a prompt to answer in phase 2. */
  ghost predicate Shaped(s: LoopState)
  {
    && s.attempts <= MaxAuthRetries + 1
    && (s.phase == 2 ==> s.lastResponse.Some?)
  }

  /** The states the loop reaches: every captured frame is an AUTHENTICATE or AUTH_CHALLENGE. */
  ghost predicate Reachable(s: LoopState)
  {
    && Shaped(s)
    && (s.lastResponse.Some? ==> IsAuthPrompt(s.lastResponse.value.opCode))
    && (forall i :: 0 <= i < |s.stepInputs| ==> IsAuthPrompt(s.stepInputs[i].opCode))
  }

  datatype Step = Stop(result: StartupResult, next: LoopState) | Next(next: LoopState)

  /** One pass through the loop body, after the attempts check. */
  ghost function Iterate(hasTargetCreds: bool, startupResponse: RawFrame, rounds: nat -> RoundOutcome, s: LoopState): (r: Step)
    requires s.phase == 2 ==> s.lastResponse.Some?
    // each pass counts one attempt, calls the authenticator at most once and forwards at most one frame
    ensures r.next.attempts == s.attempts + 1
    ensures s.forwarded <= r.next.forwarded <= s.forwarded + 1
    ensures r.next.stepInputs == s.stepInputs || (s.phase == 2 && r.next.stepInputs == s.stepInputs + [s.lastResponse.value])
    // the loop goes on only with a frame to answer in phase 2
    ensures r.Next? && r.next.phase == 2 ==> r.next.lastResponse.Some?
  {
    var s := s.(attempts := s.attempts + 1);
    if s.phase == 1 then
      AfterResponse(HandleTargetHandshakeResponse(1, startupResponse), s)
    else if !hasTargetCreds then
      Stop(Failure(MissingTargetCredentials), s)
    else
      var s := s.(stepInputs := s.stepInputs + [s.lastResponse.value]);
      var end := EndOfRound(rounds(|s.stepInputs| - 1));
      var s := if end.Sent() then s.(forwarded := s.forwarded + 1) else s;
      match end
      case Aborted(error, _) => Stop(Failure(error), s)
      case Answered(f) => AfterResponse(HandleTargetHandshakeResponse(2, f), s)
  }

  ghost function AfterResponse(t: Transition, s: LoopState): Step
  {
    if t.err.Some? then Stop(Failure(t.err.value), s)
    else if t.done then Stop(Success, s)
    else Next(s.(phase := t.newPhase, lastResponse := t.parsed))
  }

  /** The whole loop from state s. */
  ghost function Run(hasTargetCreds: bool, startupResponse: RawFrame, rounds: nat -> RoundOutcome, s: LoopState): (r: Outcome)
    requires Shaped(s)
    // the loop body runs at most MaxAuthRetries + 1 times in all
    ensures s.attempts <= r.iterations <= MaxAuthRetries + 1
    decreases MaxAuthRetries + 1 - s.attempts
  {
    if s.attempts > MaxAuthRetries then Outcome(Failure(AttemptsExhausted), s.attempts, s.forwarded, s.stepInputs)
    else
      match Iterate(hasTargetCreds, startupResponse, rounds, s)
      case Stop(r, n) => Outcome(r, n.attempts, n.forwarded, n.stepInputs)
      case Next(n) => Run(hasTargetCreds, startupResponse, rounds, n)
  }

  /**
   * Bounds on the loop from any state: the body runs at most
   * MaxAuthRetries + 1 times, attempts are exhausted only after all of them,
   * each iteration calls the authenticator at most once and forwards at most
   * the frame it built, and only AUTHENTICATE or AUTH_CHALLENGE frames reach
   * the authenticator.
   */
  lemma {:induction false} RunBounds(hasTargetCreds: bool, startupResponse: RawFrame, rounds: nat -> RoundOutcome, s: LoopState)
    requires Reachable(s)
    ensures var o := Run(hasTargetCreds, startupResponse, rounds, s);
      && s.attempts <= o.iterations <= MaxAuthRetries + 1
      && (o.result == Failure(AttemptsExhausted) ==> o.iterations == MaxAuthRetries + 1)
      && s.stepInputs <= o.stepInputs
      && (forall i :: 0 <= i < |o.stepInputs| ==> IsAuthPrompt(o.stepInputs[i].opCode))
      && s.forwarded <= o.forwarded
      && o.forwarded - s.forwarded <= |o.stepInputs| - |s.stepInputs| <= o.iterations - s.attempts
    decreases MaxAuthRetries + 1 - s.attempts
  {
    if s.attempts <= MaxAuthRetries {
      match Iterate(hasTargetCreds, startupResponse, rounds, s)
      case Stop(_, _) =>
      case Next(n) => RunBounds(hasTargetCreds, startupResponse, rounds, n);
    }
  }

  /** One iteration of the loop keeps its shape, and Run goes on from where it leads. */
  lemma RunUnfolds(hasTargetCreds: bool, startupResponse: RawFrame, rounds: nat -> RoundOutcome, s: LoopState)
    requires Shaped(s) && s.attempts <= MaxAuthRetries
    ensures var step := Iterate(hasTargetCreds, startupResponse, rounds, s);
      && (step.Stop? ==> Run(hasTargetCreds, startupResponse, rounds, s)
                         == Outcome(step.result, step.next.attempts, step.next.forwarded, step.next.stepInputs))
      && (step.Next? ==> Shaped(step.next)
                         && Run(hasTargetCreds, startupResponse, rounds, s) == Run(hasTargetCreds, startupResponse, rounds, step.next))
  {
  }

  // ---------------------------------------------------------------------------
  // The loop itself
  // ---------------------------------------------------------------------------

  /**
   * handleTargetCassandraStartup.  `hasTargetCreds` says whether target
   * credentials are configured (the authenticator is nil exactly when they
   * are not); `rounds(k)` is what happens in the k-th phase-2 round.
   */
  method HandleTargetCassandraStartup(hasTargetCreds: bool, targetStartupResponse: RawFrame, rounds: nat -> RoundOutcome)
    returns (result: StartupResult, ghost iterations: nat, ghost forwarded: nat, ghost stepInputs: seq<Frame>)
    ensures Outcome(result, iterations, forwarded, stepInputs) == Run(hasTargetCreds, targetStartupResponse, rounds, Initial())
    ensures result == Run(hasTargetCreds, targetStartupResponse, rounds, Initial()).result
  {
    var phase: Phase := 1;
    var attempts: nat := 0;
    var lastResponse: Option<Frame> := None;
    var round: nat := 0;
    forwarded, stepInputs := 0, [];
    ghost var goal := Run(hasTargetCreds, targetStartupResponse, rounds, Initial());
    while true
      invariant round == |stepInputs|
      invariant Shaped(LoopState(phase, attempts, lastResponse, forwarded, stepInputs))
      invariant Run(hasTargetCreds, targetStartupResponse, rounds, LoopState(phase, attempts, lastResponse, forwarded, stepInputs)) == goal
      decreases MaxAuthRetries + 1 - attempts
    {
      if attempts > MaxAuthRetries {
        result, iterations := Failure(AttemptsExhausted), attempts;
        return;
      }
      ghost var before := LoopState(phase, attempts, lastResponse, forwarded, stepInputs);
      RunUnfolds(hasTargetCreds, targetStartupResponse, rounds, before);
      attempts := attempts + 1;

      var response: RawFrame;
      if phase == 1 {
        // the STARTUP request and its response were already exchanged: nothing is sent
        response := targetStartupResponse;
      } else {
        if !hasTargetCreds {
          result, iterations := Failure(MissingTargetCredentials), attempts;
          return;
        }
        stepInputs := stepInputs + [lastResponse.value];
        var end := EndOfRound(rounds(round));
        round := round + 1;
        if end.Sent() {
          forwarded := forwarded + 1;
        }
        if end.Aborted? {
          result, iterations := Failure(end.error), attempts;
          return;
        }
        response := end.response;
      }

      var t := HandleTargetHandshakeResponse(phase, response);
      if t.err.Some? {
        result, iterations := Failure(t.err.value), attempts;
        return;
      }
      if t.done {
        result, iterations := Success, attempts;
        return;
      }
      phase := t.newPhase;
      lastResponse := t.parsed;
    }
  }

  // ---------------------------------------------------------------------------
  // Properties of the handshake
  // ---------------------------------------------------------------------------

  /** AUTH_CHALLENGE is captured but leaves the phase as it was, whichever it is. */
  lemma AuthChallengeKeepsPhase(phase: Phase, f: RawFrame)
    requires f.opCode == OpAuthChallenge && f.body.Encoded?
    ensures HandleTargetHandshakeResponse(phase, f)
         == Transition(phase, Some(Frame(OpAuthChallenge, f.body.message)), false, None)
  {
  }

  /**
   * Phase 1 forwards nothing: when the response to the replayed STARTUP ends
   * the handshake (READY, AUTH_SUCCESS or an error), it ends after one
   * iteration with no frame forwarded.
   */
  lemma StartupResponseEndsAtOnce(hasTargetCreds: bool, startupResponse: RawFrame, rounds: nat -> RoundOutcome)
    requires HandleTargetHandshakeResponse(1, startupResponse).done || HandleTargetHandshakeResponse(1, startupResponse).err.Some?
    ensures Run(hasTargetCreds, startupResponse, rounds, Initial())
         == Outcome(if HandleTargetHandshakeResponse(1, startupResponse).done then Success
                    else Failure(HandleTargetHandshakeResponse(1, startupResponse).err.value), 1, 0, [])
    ensures startupResponse.body.Encoded? && IsHandshakeSuccess(startupResponse.opCode) ==>
      Run(hasTargetCreds, startupResponse, rounds, Initial()).result == Success
  {
  }

  /** At most MaxAuthRetries AUTH_RESPONSE frames are ever built or forwarded. */
  lemma AtMostMaxAuthRetriesForwarded(hasTargetCreds: bool, startupResponse: RawFrame, rounds: nat -> RoundOutcome)
    ensures Run(hasTargetCreds, startupResponse, rounds, Initial()).forwarded
         <= |Run(hasTargetCreds, startupResponse, rounds, Initial()).stepInputs|
         <= MaxAuthRetries
  {
    var t := HandleTargetHandshakeResponse(1, startupResponse);
    if !t.done && t.err.None? {
      var n := LoopState(t.newPhase, 1, t.parsed, 0, []);
      assert Iterate(hasTargetCreds, startupResponse, rounds, Initial()) == Next(n);
      RunBounds(hasTargetCreds, startupResponse, rounds, n);
    }
  }

  /** Without target credentials nothing is ever handed to the authenticator or forwarded. */
  lemma {:induction false} NoCredentialsNoForwarding(startupResponse: RawFrame, rounds: nat -> RoundOutcome, s: LoopState)
    requires Reachable(s)
    ensures Run(false, startupResponse, rounds, s).forwarded == s.forwarded
    ensures Run(false, startupResponse, rounds, s).stepInputs == s.stepInputs
    decreases MaxAuthRetries + 1 - s.attempts
  {
    if s.attempts <= MaxAuthRetries {
      match Iterate(false, startupResponse, rounds, s)
      case Stop(_, _) =>
      case Next(n) => NoCredentialsNoForwarding(startupResponse, rounds, n);
    }
  }

  /**
   * A target that asks for authentication when no target credentials are
   * configured fails with the configuration error in the second iteration,
   * before anything is forwarded.
   */
  lemma AuthenticateWithoutCredentials(startupResponse: RawFrame, rounds: nat -> RoundOutcome)
    requires startupResponse.opCode == OpAuthenticate && startupResponse.body.Encoded?
    ensures Run(false, startupResponse, rounds, Initial()) == Outcome(Failure(MissingTargetCredentials), 2, 0, [])
  {
  }

  /** The outcome of one phase-2 round, before its response is looked at. */
  lemma PhaseTwoRound(hasTargetCreds: bool, startupResponse: RawFrame, rounds: nat -> RoundOutcome, s: LoopState)
    requires Reachable(s) && s.phase == 2 && s.attempts <= MaxAuthRetries
    ensures var o := Run(hasTargetCreds, startupResponse, rounds, s);
      var k := |s.stepInputs|;
      && (!hasTargetCreds ==> o == Outcome(Failure(MissingTargetCredentials), s.attempts + 1, s.forwarded, s.stepInputs))
      && (hasTargetCreds ==> k < |o.stepInputs| && o.stepInputs[k] == s.lastResponse.value)
      && (hasTargetCreds && rounds(k).StepRejected? ==> o.result == Failure(HandshakeStepFailed) && o.forwarded == s.forwarded)
      && (hasTargetCreds && rounds(k).EncodeRejected? ==> o.result == Failure(AuthResponseEncodeFailed) && o.forwarded == s.forwarded)
      && (hasTargetCreds && rounds(k).SendRejected? ==> o.result == Failure(SendFailed) && o.forwarded == s.forwarded)
      && (hasTargetCreds && rounds(k).Cancelled? ==> o.result == Failure(Shutdown) && o.forwarded == s.forwarded + 1)
      && (hasTargetCreds && rounds(k).Closed? ==>
            o.result == Failure(if rounds(k).contextErr then Shutdown else TransmissionFailed) && o.forwarded == s.forwarded + 1)
      // a delivered response is handled in phase 2: it ends the handshake, or the loop goes on from what it captured
      && (hasTargetCreds && rounds(k).Delivered? ==>
            var t := HandleTargetHandshakeResponse(2, rounds(k).response);
            var sent := s.(attempts := s.attempts + 1, forwarded := s.forwarded + 1, stepInputs := s.stepInputs + [s.lastResponse.value]);
            && (t.done ==> o == Outcome(Success, sent.attempts, sent.forwarded, sent.stepInputs))
            && (t.err.Some? ==> o == Outcome(Failure(t.err.value), sent.attempts, sent.forwarded, sent.stepInputs))
            && (t.err.None? && !t.done ==>
                  t.parsed.Some? && o == Run(hasTargetCreds, startupResponse, rounds, sent.(phase := t.newPhase, lastResponse := t.parsed))))
  {
    match Iterate(hasTargetCreds, startupResponse, rounds, s)
    case Stop(_, _) =>
    case Next(n) => RunBounds(hasTargetCreds, startupResponse, rounds, n);
  }

  /** The target answers with an AUTHENTICATE or AUTH_CHALLENGE that decodes. */
  predicate KeepsAsking(outcome: RoundOutcome)
  {
    outcome.Delivered? && outcome.response.body.Encoded? && IsAuthPrompt(outcome.response.opCode)
  }

  lemma {:induction false} KeepsAskingUntilExhausted(startupResponse: RawFrame, rounds: nat -> RoundOutcome, s: LoopState)
    requires Reachable(s) && s.phase == 2
    requires forall k :: KeepsAsking(rounds(k))
    ensures Run(true, startupResponse, rounds, s).result == Failure(AttemptsExhausted)
    ensures Run(true, startupResponse, rounds, s).iterations == MaxAuthRetries + 1
    ensures Run(true, startupResponse, rounds, s).forwarded == s.forwarded + (MaxAuthRetries + 1 - s.attempts)
    ensures |Run(true, startupResponse, rounds, s).stepInputs| == |s.stepInputs| + (MaxAuthRetries + 1 - s.attempts)
    decreases MaxAuthRetries + 1 - s.attempts
  {
    if s.attempts <= MaxAuthRetries {
      var k := |s.stepInputs|;
      assert KeepsAsking(rounds(k));
      var f := rounds(k).response;
      var n := LoopState(2, s.attempts + 1, Some(Frame(f.opCode, f.body.message)), s.forwarded + 1, s.stepInputs + [s.lastResponse.value]);
      assert Iterate(true, startupResponse, rounds, s) == Next(n);
      KeepsAskingUntilExhausted(startupResponse, rounds, n);
    }
  }

  /**
   * A target that demands authentication and then keeps answering
   * AUTHENTICATE or AUTH_CHALLENGE receives exactly MaxAuthRetries (5)
   * AUTH_RESPONSE frames; the handshake then fails with attempts exhausted
   * after MaxAuthRetries + 1 iterations.
   */
  lemma EndlessChallengesExhaustAttempts(startupResponse: RawFrame, rounds: nat -> RoundOutcome)
    requires startupResponse.opCode == OpAuthenticate && startupResponse.body.Encoded?
    requires forall k :: KeepsAsking(rounds(k))
    ensures Run(true, startupResponse, rounds, Initial()).result == Failure(AttemptsExhausted)
    ensures Run(true, startupResponse, rounds, Initial()).iterations == MaxAuthRetries + 1
    ensures Run(true, startupResponse, rounds, Initial()).forwarded == MaxAuthRetries
  {
    var n := LoopState(2, 1, Some(Frame(OpAuthenticate, startupResponse.body.message)), 0, []);
    assert Run(true, startupResponse, rounds, Initial()) == Run(true, startupResponse, rounds, n);
    KeepsAskingUntilExhausted(startupResponse, rounds, n);
  }

  lemma {:induction false} ChallengeInPhaseOneSpins(hasTargetCreds: bool, startupResponse: RawFrame, rounds: nat -> RoundOutcome, s: LoopState)
    requires startupResponse.opCode == OpAuthChallenge && startupResponse.body.Encoded?
    requires Reachable(s) && s.phase == 1
    ensures Run(hasTargetCreds, startupResponse, rounds, s)
         == Outcome(Failure(AttemptsExhausted), MaxAuthRetries + 1, s.forwarded, s.stepInputs)
    decreases MaxAuthRetries + 1 - s.attempts
  {
    if s.attempts <= MaxAuthRetries {
      var n := LoopState(1, s.attempts + 1, Some(Frame(OpAuthChallenge, startupResponse.body.message)), s.forwarded, s.stepInputs);
      assert Iterate(hasTargetCreds, startupResponse, rounds, s) == Next(n);
      ChallengeInPhaseOneSpins(hasTargetCreds, startupResponse, rounds, n);
    }
  }

  /**
   * An AUTH_CHALLENGE in answer to the replayed STARTUP keeps phase 1, so the
   * same response is decoded again on every iteration: the handshake fails
   * with attempts exhausted, with no frame forwarded and the authenticator
   * never called, whatever the credentials.
   */
  lemma ChallengeToStartupExhaustsAttempts(hasTargetCreds: bool, startupResponse: RawFrame, rounds: nat -> RoundOutcome)
    requires startupResponse.opCode == OpAuthChallenge && startupResponse.body.Encoded?
    ensures Run(hasTargetCreds, startupResponse, rounds, Initial())
         == Outcome(Failure(AttemptsExhausted), MaxAuthRetries + 1, 0, [])
  {
    ChallengeInPhaseOneSpins(hasTargetCreds, startupResponse, rounds, Initial());
  }

  /**
   * AUTHENTICATE, then AUTH_CHALLENGE, then AUTH_SUCCESS: success after two
   * forwarded AUTH_RESPONSE frames, built from those two prompts in order.
   */
  lemma AuthenticateChallengeSuccess(startupResponse: RawFrame, rounds: nat -> RoundOutcome, challenge: Message, success: Message)
    requires startupResponse.opCode == OpAuthenticate && startupResponse.body.Encoded?
    requires rounds(0) == Delivered(RawFrame(OpAuthChallenge, Encoded(challenge)))
    requires rounds(1) == Delivered(RawFrame(OpAuthSuccess, Encoded(success)))
    ensures Run(true, startupResponse, rounds, Initial())
         == Outcome(Success, 3, 2, [Frame(OpAuthenticate, startupResponse.body.message), Frame(OpAuthChallenge, challenge)])
  {
  }
}
