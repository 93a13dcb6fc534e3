# Prepared-statement cache and target handshake of the zdm/cloudgate proxy

The proxy sits between CQL clients and two clusters, origin and target, during a
data migration. This project models two sequential parts of its
`cloudgateproxy` package and proves properties about them.

- **`PsCache`** (`pscache.dfy`) models `PreparedStatementCache`. It is a class with two
  map fields. `cache` maps an origin prepared id to an immutable `PreparedData`
  record (origin id, target id, statement info). `index` maps a target prepared id
  back to an origin id. `Store` overwrites one entry of each map. `Get` reads
  `cache`. `GetByTargetPreparedId` goes through `index` and then `cache`. The size
  is the number of origin keys. Each method is tied to a function on a value
  `CacheState`. The lemmas cover single stores and every sequence of stores
  (`Replay`) from a new cache.
- **`Startup`** (`startup.dfy`) models `handleTargetCassandraStartup` and
  `handleTargetHandshakeResponse`. The connection-negotiation opcodes are the
  byte values of the CQL native protocol v4: READY 0x02, AUTHENTICATE 0x03,
  AUTH_CHALLENGE 0x0E, AUTH_SUCCESS 0x10. The authentication error is code
  0x0100 of section 9 of that protocol. The method runs the loop over `phase`,
  `attempts` and `lastResponse`. It is proved equal to a ghost function `Run` on
  a `LoopState`. `Run` repeats one pass of the loop body (`Iterate`), and a
  phase-2 round ends as `EndOfRound` says. The handshake scenarios are lemmas
  about `Run`.
- **`Maybe`** (`maybe.dfy`) holds the `Option` type that stands for Go's
  `(value, ok)` and nil returns.

Some behaviours of the code worth knowing:

- AUTH_CHALLENGE does not move the loop to phase 2. It keeps whatever phase the
  loop is in (startup.go:126-127, 143). A target that answers the replayed
  STARTUP with AUTH_CHALLENGE therefore keeps the loop in phase 1. The same
  response is decoded again on every pass until the attempts run out, and no
  frame is forwarded (`ChallengeToStartupExhaustsAttempts`).
- A response that is not one of the four handshake opcodes and not an
  authentication error gives an error that carries the decoded message body
  (startup.go:139-141). It does not carry the opcode.
- When both the response channel and the context are ready, Go's `select`
  picks one of them at random (startup.go:87-100). Cancellation does not take
  priority. The model makes the outcome of each round an input, so both orders
  are covered.
- The reverse index is not kept coherent. After an origin id is stored again
  with a new target id, the old target id still resolves, to a record with the
  new target id (`StaleReverseMapping`). The invariant that does hold is
  `WellFormed`: every origin id named by `index` has a record. So the
  "most likely a bug" branch (pscache.go:62-67) cannot be reached.

## Model

| member | source | states |
|---|---|---|
| `PsCache.PreparedStatementCache.constructor` | proxy/pkg/cloudgateproxy/pscache.go:16-22 | a new cache has both maps empty and satisfies the invariant |
| `PsCache.PreparedStatementCache.Store` | proxy/pkg/cloudgateproxy/pscache.go:31-44 | the new state is the old one with `cache[origin]` and `index[target]` overwritten and nothing else changed; the invariant is preserved |
| `PsCache.PreparedStatementCache.Get` | proxy/pkg/cloudgateproxy/pscache.go:46-51 | found exactly when the origin id is a key; under the invariant the record found carries that origin id |
| `PsCache.PreparedStatementCache.GetByTargetPreparedId` | proxy/pkg/cloudgateproxy/pscache.go:53-70 | not found when the target id is not indexed; under the invariant found exactly when it is indexed; a record found is the primary record of the indexed origin id |
| `PsCache.PreparedStatementCache.GetPreparedStatementCacheSize` | proxy/pkg/cloudgateproxy/pscache.go:24-29 | the size is the number of origin keys in the cache |
| `PsCache.EmptyCache` | proxy/pkg/cloudgateproxy/pscache.go:16-22 | a new cache is well formed, has size 0, and both lookups answer not found |
| `PsCache.StoreThenGet` | proxy/pkg/cloudgateproxy/pscache.go:39-51 | after `Store(o, t, info)`, `Get(o)` finds the record with exactly those origin id, target id and info |
| `PsCache.StoreThenGetByTarget` | proxy/pkg/cloudgateproxy/pscache.go:39-69 | after `Store(o, t, info)`, the lookup by `t` finds the same record as `Get(o)` |
| `PsCache.StoreFrame` | proxy/pkg/cloudgateproxy/pscache.go:39-40 | `Store` leaves every other origin id's lookup and every other target id's index entry unchanged |
| `PsCache.StoreCount` | proxy/pkg/cloudgateproxy/pscache.go:24-40 | `Store` adds one to the size for a new origin id and leaves it unchanged for an origin id already stored |
| `PsCache.StoredPreservesValid` | proxy/pkg/cloudgateproxy/pscache.go:39-40 | `Store` preserves "every indexed origin id has a record, and every record sits under its own origin id" |
| `PsCache.ValidReverseLookupResolves` | proxy/pkg/cloudgateproxy/pscache.go:53-70 | under that invariant the reverse lookup finds a record exactly when the target id is indexed, so the not-found-despite-index branch is unreachable |
| `PsCache.StaleReverseMapping` | proxy/pkg/cloudgateproxy/pscache.go:39-69 | after storing `o` with `t1` and then with `t2`, looking up `t1` still finds the record, and its target id is `t2`; the reverse index is then not coherent |
| `PsCache.ReplayValid` | proxy/pkg/cloudgateproxy/pscache.go:16-40 | every sequence of stores from a new cache yields a well-formed cache |
| `PsCache.ReplayKeys` | proxy/pkg/cloudgateproxy/pscache.go:39-40 | after any sequence of stores from a new cache, the origin ids with a record are exactly the origin ids stored, and the indexed target ids are exactly the target ids stored |
| `PsCache.ReplayCacheLast` | proxy/pkg/cloudgateproxy/pscache.go:39 | the record under an origin id is the one built by the last store of that origin id |
| `PsCache.ReplayIndexLast` | proxy/pkg/cloudgateproxy/pscache.go:40 | the origin id indexed under a target id is the one named by the last store of that target id |
| `PsCache.ReplayLookup` | proxy/pkg/cloudgateproxy/pscache.go:39-51 | `Get(o)` answers not found exactly when `o` was never stored; otherwise it returns the record of the last store of `o` |
| `PsCache.ReplayLookupByTarget` | proxy/pkg/cloudgateproxy/pscache.go:39-70 | the reverse lookup answers not found exactly when the target id was never stored; otherwise it returns the current record of the origin id named by the last store of that target id |
| `PsCache.ReplayCount` | proxy/pkg/cloudgateproxy/pscache.go:24-40 | the size equals the number of distinct origin ids stored |
| `PsCache.ReplayCountDistinct` | proxy/pkg/cloudgateproxy/pscache.go:24-40 | after N stores with pairwise distinct origin ids the size is N |
| `Startup.HandleTargetHandshakeResponse` | proxy/pkg/cloudgateproxy/startup.go:115-144 | a response without error leaves a captured frame carrying the response's opcode; a done response carries no error |
| `Startup.EndOfRound` | proxy/pkg/cloudgateproxy/startup.go:65-100 | a phase-2 round yields a response exactly when one is delivered; its AUTH_RESPONSE counts as sent exactly when the authenticator step, the encoding and the submission all succeeded |
| `Startup.Iterate` | proxy/pkg/cloudgateproxy/startup.go:49-111 | one pass of the loop body counts one attempt, hands at most the last response to the authenticator, forwards at most one frame, and goes on in phase 2 only with a frame to answer |
| `Startup.Run` | proxy/pkg/cloudgateproxy/startup.go:44-112 | the whole loop from a state runs the body at most `maxAuthRetries + 1` times in all |
| `Startup.HandshakeResponseClassified` | proxy/pkg/cloudgateproxy/startup.go:115-144 | a decode failure is an error with the phase kept and done false; there is no error exactly for READY, AUTHENTICATE, AUTH_CHALLENGE and AUTH_SUCCESS, and the decoded frame is then captured; done holds exactly for READY and AUTH_SUCCESS; only AUTHENTICATE sets phase 2; any other opcode gives `AuthError` with the body when the body is an authentication error, and the unexpected-response error otherwise |
| `Startup.RunBounds` | proxy/pkg/cloudgateproxy/startup.go:44-112 | from any loop state, the loop body runs at most `maxAuthRetries + 1` times; attempts exhausted only after all of them; at most one frame is forwarded per authenticator call and at most one authenticator call per iteration; only AUTHENTICATE or AUTH_CHALLENGE frames reach the authenticator |
| `Startup.HandleTargetCassandraStartup` | proxy/pkg/cloudgateproxy/startup.go:26-113 | the loop's result, its iteration count, the frames it forwards and the authenticator's inputs are those of `Run` from phase 1 with zero attempts |
| `Startup.AuthChallengeKeepsPhase` | proxy/pkg/cloudgateproxy/startup.go:126-143 | AUTH_CHALLENGE is captured, is not terminal and leaves the phase as it was, 1 or 2 |
| `Startup.StartupResponseEndsAtOnce` | proxy/pkg/cloudgateproxy/startup.go:55-108 | a terminal response to the replayed STARTUP ends the handshake in one iteration with no frame forwarded; READY or AUTH_SUCCESS there gives success |
| `Startup.AtMostMaxAuthRetriesForwarded` | proxy/pkg/cloudgateproxy/startup.go:44-100 | from the start at most `maxAuthRetries` AUTH_RESPONSE frames are built, and no more are forwarded |
| `Startup.NoCredentialsNoForwarding` | proxy/pkg/cloudgateproxy/startup.go:36-63 | without target credentials the authenticator is never called and nothing is forwarded, from any loop state |
| `Startup.AuthenticateWithoutCredentials` | proxy/pkg/cloudgateproxy/startup.go:36-63 | AUTHENTICATE with no target credentials fails with the configuration error in the second iteration, with nothing forwarded |
| `Startup.PhaseTwoRound` | proxy/pkg/cloudgateproxy/startup.go:60-100 | a phase-2 round without credentials fails with the configuration error; otherwise the authenticator gets the last response; a step or encode failure returns its error before forwarding; a send failure returns the send error; context done returns the shutdown error; a closed channel returns the shutdown error if the context has an error and the transmission error if not; a delivered response is forwarded-for and handled in phase 2: READY or AUTH_SUCCESS gives success, an error of the response handling is returned, and otherwise the loop goes on from the captured frame |
| `Startup.KeepsAskingUntilExhausted` | proxy/pkg/cloudgateproxy/startup.go:44-112 | in phase 2, a target that keeps answering AUTHENTICATE or AUTH_CHALLENGE gets one frame per remaining attempt, then attempts are exhausted |
| `Startup.EndlessChallengesExhaustAttempts` | proxy/pkg/cloudgateproxy/startup.go:14-112 | AUTHENTICATE followed by endless prompts fails with attempts exhausted after 6 iterations, with exactly 5 AUTH_RESPONSE frames forwarded |
| `Startup.ChallengeInPhaseOneSpins` | proxy/pkg/cloudgateproxy/startup.go:55-127 | in phase 1 with an AUTH_CHALLENGE startup response, every remaining iteration re-decodes it and nothing is forwarded until the attempts are exhausted |
| `Startup.ChallengeToStartupExhaustsAttempts` | proxy/pkg/cloudgateproxy/startup.go:44-143 | AUTH_CHALLENGE in answer to STARTUP fails with attempts exhausted after 6 iterations, with zero frames forwarded and the authenticator never called, whatever the credentials |
| `Startup.AuthenticateChallengeSuccess` | proxy/pkg/cloudgateproxy/startup.go:44-133 | AUTHENTICATE, then AUTH_CHALLENGE, then AUTH_SUCCESS succeeds after 3 iterations and 2 forwarded frames, built from the AUTHENTICATE and then the AUTH_CHALLENGE frame |

## Left out

- Locking: the `sync.RWMutex` is not modelled. Each cache method is one atomic step, which is what the lock provides. Concurrent stores are covered as any sequence of stores (`Replay`).
- Size as a float: `GetPreparedStatementCacheSize` returns `float64`; the model returns the count as a `nat`.
- Logging: logging and `hex.EncodeToString` in both files, and the `String`/`Error` formatting, carry no behaviour.
- PreparedData: the getters are the datatype's destructors. `NewPreparedData` is its constructor. The statement info is an opaque type parameter.
- Ids: Go keys the maps by `string(bytes)`. That conversion is injective, so the model keys them by the byte sequences.
- Shared byte slices: `Store` keeps the caller's `[]byte` slices inside the `PreparedData` record (pscache.go:39, 84-90); only the map keys are copies (`string(...)`, lines 34-35). The model's records hold values, so `KeyedByOrigin` and `Get`'s "the record found carries that origin id" hold in Go only if callers do not change those slices after `Store`. Aliasing of the slices is not modelled.
- Codec: `defaultCodec.ConvertFromRawFrame` is not modelled. Whether a raw frame decodes is part of the frame (`RawBody`).
- Authenticator: `performHandshakeStep`, `DsePlainTextAuthenticator`, `ConvertToRawFrame`, `executeForwardDecision` and `NewGenericStatementInfo` are not modelled. Their success or failure in each phase-2 round is the input `rounds`. The AUTH_RESPONSE frames they build are not modelled either; the model counts them and records the frame each one was built from.
- Channel and context: the `select` race is not modelled as concurrency. Each round's wait is an input outcome: delivered, closed or nil (with whether the context has an error), or cancelled.
- Frame headers: the protocol version and stream id of the STARTUP frame are only passed to the authenticator step, so they are not modelled.
- Addresses and time: `net.Addr` values and `time.Now` appear only in messages and timing.
- Integration test: integration-tests/connect_test.go needs a running cluster and proxy, so it is not part of this model.
