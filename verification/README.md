# rune-mcp in Dafny

A verification model of the parts of `rune-mcp` whose correctness no single
function shows: the lock-free boot and recovery protocol, the spawning of the
embedding daemon by several processes at once, the recall ranking pipeline, the
text and byte kernels under capture, and a few small stateful objects.

`dafny verify dfyconfig.toml` checks everything.

## How the model is laid out

Boot and recovery

- `BootProtocol`, `BootClients`, `BootTheorems`: every goroutine that touches
  the manager's state word as a state machine. One step is one compare-and-swap,
  one atomic store, one field write of an adapter injection, one spawn or one
  answer of the environment; a run is any interleaving of any number of
  `Retrigger` callers, boot loops, loop tails, delayed closes and a
  cancellation. The right to boot is a token that the loop gives up at the store
  of Active or Dormant; what it still runs after that is its tail.
- `BootManager`, `AdapterDeps`, `BootLoop`: the same code as the objects and
  loops it is written as (`Manager`, `Deps`, `bootOnce`, `RunBootLoop`).
  `BootRefinement` shows that a loop nobody interrupts is a schedule of the state
  machine and ends in exactly what that code computes. `Runs` has the notions of
  path and reachability that every state machine here uses.
- `DaemonSpawn`, `SpawnCall`: `EnsureDaemon` as N interleaved calls, and as the
  sequential code of one call, whose every action is a step of the former.
- `ConfigMark`: the configuration file while loops that went Dormant still record
  why in it.
- `BootstrapWatcher`, `InfoCache`, `InfoProbes`, `BootLog`, `InsertRecovery`: the
  bootstrap watcher, the embedder's Info cache and the Health probes that
  invalidate it, the rotating boot log, and the insert that is retried once.

Recall and capture

- `Ranking` (stable sort, filters), `Positions`, `Hits`, `Groups`: shared
  vocabulary.
- `RecallSearch`, `RecallResolve`, `RecallExpand`, `RecallAssemble`,
  `RecallRank`, `RecallHandle`: one module for each phase of a recall request.
  Go's map iteration order is a nondeterministic choice wherever it shows.
  Scores are reals. `AssemblyTheorems` says what an assembly means for the hits.
- `RecordBuilder`, `RecordIds`, `PhaseRoundTrip`: the records of a multi-phase
  capture, when two captures get the same record ID, and the way back through
  recall.
- `Utf8`, `PayloadText`, `Base64`, `Envelope`: rune truncation, payload clean-up,
  and the AES-CTR envelope. UTF-8 follows section 3 of RFC 3629, base64 section 4
  of RFC 4648, CTR mode section 6.5 of NIST SP 800-38A.

## Where the code does not keep a promise

Each of these is proved, with the exact condition under which the promise holds.

- `RunBootLoop` says that an attempt that fails after the Vault dial closes the
  connections it made before it is tried again
  (internal/lifecycle/boot.go:277-279). It does so if and only if it fails before
  the encryption key is stored (`BootRefinement.FailedAttemptClosesIff`, and over
  runs `BootRefinement.FailedAttemptOfRun`). A later
  failure, say of the embedder dial or of OpenIndex, leaves the Vault client and
  perhaps the embedder injected and open; a later injection replaces and closes
  them. That is no leak: a client is lost without a close if and only if the key
  directory cannot be resolved (internal/lifecycle/boot.go:456-462), one client
  for each such failure (`BootTheorems.LeakedIffKeyDirFailed`).
- `Retrigger` says that it respawns the loop only if no loop is running
  (internal/lifecycle/boot.go:125-128). The loops alive when a caller has won its
  claim are exactly those in their tails, so the promise holds at a claim if and
  only if no loop is in its tail (`BootTheorems.ClaimMeetsNoLoopIff`).
- MarkDormant runs after Dormant is published
  (internal/lifecycle/boot.go:338-342). An activation written in between is
  undone by it: with no RUNE_STATE override it survives if and only if no loop has
  still to finish MarkDormant (`ConfigMark.ActivationSurvivesIff`, and
  `ConfigMark.EarlyActivationIsUndone` for a first boot).
- The comments at internal/lifecycle/boot.go:117-120 and
  internal/service/lifecycle.go:919-921 say that `Retrigger` does nothing from
  Active. The code claims from Active as well as from Dormant
  (internal/lifecycle/boot.go:141-142); the model follows the code.
- `assembleGroups` uses -1.0 for an exhausted list. The merge indexes past the
  end of the groups exactly when some standalone hit scores -1.0 or less
  (`RecallAssemble.AssembleGroups`).
- Record IDs hold nothing random. Two multi-phase captures share one if and only
  if they are of the same day, domain and kind and some two titles in the same
  position begin with the same words (`RecordIds.CapturesShareIdIff`); a single
  record can share one with a phase (`RecordIds.SingleMeetsPhaseIff`). Both groups
  then come back whole if and only if no record ID is shared
  (`PhaseRoundTrip.BothHeldIff`); otherwise a hit is dropped as a duplicate.
- Exactly-once insertion holds if and only if the request ID is not empty
  (`InsertRecovery.ExactlyOnceIffIdentified`). newInsertRequestID returns the empty
  ID when the random source reports an error. With the Go release that go.mod
  names, crypto/rand aborts the process instead, so this branch is not taken there.
- The two rune truncations agree on every valid UTF-8 string. On arbitrary bytes
  they agree exactly when each of the first min(n, rune count) runes is read from
  a valid sequence (`Utf8.TruncationsAgreeIff`).
- An envelope opens for the agent that sealed it if and only if the agent ID is
  valid UTF-8, since JSON strings replace other bytes (`Envelope.OwnSealOpensIff`).
  Seal and Open take any ID; the one Vault hands out is read from JSON
  (internal/adapters/vault/client.go:76-89) and so is always valid.
- A Health probe notices a daemon restart if and only if it loads a higher uptime
  itself (`InfoProbes.WipesAreLoadedRegressions`). Probes that overlap a restart
  may all load an older value, and then the Info cache is not wiped.
- A phases array of two or more elements of which fewer than two of the first
  seven are objects is rejected, since that branch fills in no single-record
  fields (`RecordBuilder.CapturePhases`).

## Model

| member | source | states |
|---|---|---|
| `BootTheorems.ExactlyOneToken` | internal/lifecycle/boot.go:129-146 | In every interleaving, won claims plus unstarted loops plus loops that have not published Active or Dormant are exactly one while the state is Starting or WaitingForVault and none otherwise, until the context is cancelled; cancelling can only lose the token |
| `BootTheorems.ModesMoveLegally` | internal/lifecycle/boot.go:280-320 | Active and Dormant are left only to Starting, and WaitingForVault never goes straight back to Starting |
| `BootTheorems.ExactlyOnePlace` | internal/lifecycle/boot.go:423-505 | Conservation: every client ever created is in exactly one of five places (local to the booting loop, injected, awaiting its delayed close, closed, dropped), and a client never created is in none |
| `BootTheorems.ClosedOnce` | internal/mcp/tools.go:55-116 | No client is closed twice, and a closed one is neither injected nor scheduled nor held by a loop |
| `BootTheorems.LeakedIffKeyDirFailed` | internal/lifecycle/boot.go:456-462 | Clients are lost without a close if and only if a key directory failed to resolve, one client for each such failure |
| `BootTheorems.KeyDirLeaks` | internal/lifecycle/boot.go:456-462 | A concrete run in which the first attempt's Vault client is lost |
| `BootTheorems.ActiveIsWhole` | internal/lifecycle/boot.go:464-507 | While the state is Active, Deps and all three services hold the three clients and the bundle of the one attempt that published Active, none of them closed, scheduled or lost |
| `BootTheorems.ActiveIsFrozen` | internal/mcp/tools.go:55-144 | No step taken while the state is Active writes a client or bundle field |
| `BootTheorems.ClaimMeetsOnlyTails` | internal/lifecycle/boot.go:125-146 | In every interleaving, when a caller has won its claim, a loop goroutine is alive exactly when it is in its tail |
| `BootTheorems.ClaimMeetsNoLoopIff` | internal/lifecycle/boot.go:125-128 | At a won claim no loop is running if and only if no loop is in its tail |
| `BootTheorems.LoopsOverlap` | internal/lifecycle/boot.go:296-301 | A concrete run with two live loop goroutines, one of them in its tail |
| `BootTheorems.AttemptStartsIff` | internal/lifecycle/boot.go:287-294 | A step takes the next attempt number if and only if a loop runs between attempts while the context is not cancelled, and only the cancellation cancels |
| `BootTheorems.CancelledStartsNothing` | internal/lifecycle/boot.go:289-291 | In every interleaving a cancelled process stays cancelled, and no attempt is ever numbered after that |
| `BootTheorems.CancelledDialsNothingNew` | internal/lifecycle/boot.go:289-291 | In every interleaving each client that exists after a cancellation belongs to an attempt that had begun before it |
| `BootTheorems.CancelStopsLoop` | internal/lifecycle/boot.go:289-291 | A loop between attempts whose context is cancelled is done after its next step, and nothing else has changed |
| `BootProtocol.RetriggerIsTokenMove` | internal/lifecycle/boot.go:129-146 | A step of Retrigger or of main claims the token only from a settled state, hands it to exactly one new loop, or leaves token and state alone |
| `BootProtocol.LoopIsTokenMove` | internal/lifecycle/boot.go:280-320 | A step of the loop keeps the token in a booting state, or gives it up with the store of Active or on cancellation; the tail writes no state. When the loop must stop is AttemptStartsIff |
| `BootProtocol.VaultPhaseIsTokenMove` | internal/lifecycle/boot.go:330-462 | Each step of an attempt up to the key directory gives up the token exactly when it stores Dormant |
| `BootProtocol.WiringPhaseIsTokenMove` | internal/lifecycle/boot.go:464-507 | No wiring step writes the state word or gives up the token |
| `BootProtocol.TokenStep` | internal/lifecycle/boot.go:129-146 | Every step of any thread or of the environment keeps the token invariant |
| `BootClients.StepKeeps` | internal/lifecycle/boot.go:280-508 | Every step keeps the token invariant together with the ledger of clients and the consistency of the four copies of each client field |
| `BootManager.Manager.CompareAndSwap` | internal/lifecycle/boot.go:141-142 | Swaps exactly when the state is the expected one, and reports it |
| `BootManager.Manager.Retrigger` | internal/lifecycle/boot.go:129-146 | Spawns once from Active or Dormant with a callback installed, and otherwise neither spawns nor changes the state |
| `BootManager.CallerAloneIsRetrigger` | internal/lifecycle/boot.go:129-146 | The four atomic steps of an uninterrupted caller have exactly the effect of the Retrigger method |
| `BootManager.Manager.Wire` | cmd/rune-mcp/main.go:101-105 | The callback is installed and one loop is started |
| `BootManager.MainAloneIsWire` | cmd/rune-mcp/main.go:101-105 | The first two steps of every uninterrupted start of the protocol install the callback before the one loop is spawned and leave the state Starting |
| `AdapterDeps.Deps.InjectVault` | internal/mcp/tools.go:55-68 | All four owners hold the new client, nothing else changes, and the replaced client is scheduled for one close |
| `AdapterDeps.Deps.InjectEmbedder` | internal/mcp/tools.go:70-83 | The same for the embedder |
| `AdapterDeps.Deps.InjectEnvector` | internal/mcp/tools.go:85-98 | The same for envector |
| `AdapterDeps.Deps.CloseAfterInterval` | internal/mcp/tools.go:105-116 | Schedules one close of the old client, and none exactly when there was no client or the new one is the same |
| `AdapterDeps.Deps.ApplyVaultBundle` | internal/mcp/tools.go:126-144 | Every service that exists gets the bundle's fields and no client field changes; a nil bundle changes nothing |
| `AdapterDeps.MicroStepsAreInjectAll` | internal/mcp/tools.go:55-116 | The six micro-steps of an uninterrupted injection have the effect of the one method call |
| `BootLoop.BootOnce` | internal/lifecycle/boot.go:330-508 | Dormant exactly when the configuration is missing, inactive or incomplete, success exactly when every answer is good, WaitingForVault exactly after a failed dial or manifest and no other state stored; wiring and ledger of clients are those of the attempt function, which AttemptDials and AttemptWires spell out |
| `BootLoop.AttemptDials` | internal/lifecycle/boot.go:414-505 | For every combination of answers: exactly which clients one attempt dials, and which of them it closes itself |
| `BootLoop.AttemptWires` | internal/lifecycle/boot.go:464-507 | For every combination of answers: which clients and bundle one attempt leaves in Deps; each is injected as soon as it is there, whatever fails later |
| `BootLoop.RunBootLoop` | internal/lifecycle/boot.go:280-320 | The loop ends with the first attempt that finds no configuration or only good answers, having made exactly that many attempts, in Dormant or Active; without one every answer is used up and the state is WaitingForVault if Vault was down once, Starting if never; wiring and ledger are those of the loop function |
| `BootRefinement.AttemptAloneIsBootOnce` | internal/lifecycle/boot.go:330-508 | The atomic steps of an uninterrupted attempt are a schedule of the protocol and lead to exactly the state and books that bootOnce computes |
| `BootRefinement.LoopAloneIsRunBootLoop` | internal/lifecycle/boot.go:280-320 | A whole spawned loop that nobody interrupts is a schedule of the protocol and leaves the state and books that RunBootLoop computes |
| `BootRefinement.AttemptKeepsNothing` | internal/lifecycle/boot.go:423-507 | However an attempt ends, each client it dialled is injected, closed or scheduled, except that the Vault client is lost when and only when the key directory fails; it succeeds exactly when every answer is good, and then everything is wired from this attempt |
| `BootRefinement.FailedAttemptClosesIff` | internal/lifecycle/boot.go:277-279 | An attempt that does not succeed has closed every client it dialled if and only if it did not get past storing the key |
| `BootRefinement.FailedAttemptOfRun` | internal/lifecycle/boot.go:277-279 | From every attempt that any run reaches, finishing it reaches a state of the protocol in which, if it failed, all clients it dialled are closed if and only if the key was not stored, and those left open are injected or the Vault client of a failed key directory |
| `BootRefinement.LeftOpenIsInjected` | internal/lifecycle/boot.go:456-505 | A client an attempt dialled is left open exactly when it is injected, or is the Vault client of a failed key directory |
| `BootRefinement.IndexFailureKeepsTwoOpen` | internal/lifecycle/boot.go:498-504 | A concrete attempt that fails at OpenIndex and leaves two clients injected and open |
| `ConfigMark.SurvivesIff` | internal/adapters/config/dormant.go:63-91 | What is in the configuration file survives every continuation of the loops that are dormant if and only if each of them is done with it or would leave it as it is |
| `ConfigMark.ActivationSurvivesIff` | internal/lifecycle/boot.go:338-342 | With no RUNE_STATE override, a configuration that says active survives if and only if every loop that went Dormant has finished MarkDormant |
| `ConfigMark.EarlyActivationIsUndone` | internal/service/lifecycle.go:566-588 | A concrete first boot without a configuration whose user configures before MarkDormant reads the file |
| `ConfigMark.MarkAlone` | internal/adapters/config/dormant.go:63-91 | MarkDormant that nobody interrupts leaves a file alone that says dormant for this reason already, and otherwise writes dormant, the reason, the time and the settings that were there, none if the file was missing or unreadable |
| `DaemonSpawn.LaunchSectionIsExclusive` | internal/spawn/spawn.go:91-105 | Two calls are never between the second probe and the end of the launch together |
| `DaemonSpawn.LaunchesAreBounded` | internal/spawn/spawn.go:77-109 | In every interleaving, launches are at most one plus the lock holders that launched and gave up plus the times a reachable socket went away |
| `DaemonSpawn.NilMeansProbed` | internal/spawn/spawn.go:86-136 | A call that returned nil saw the socket answer during that call |
| `DaemonSpawn.NoLaunchOnceSettled` | internal/spawn/spawn.go:97-109 | Once more launches have succeeded than sockets went away, no next step launches |
| `DaemonSpawn.CountersCount` | internal/spawn/spawn.go:77-136 | Step by step, what the numbers in these theorems count: outages when the socket stops answering, launches when the binary is executed, give-ups and settled launches when a launcher returns an error or nil, and the calls whose probe succeeded |
| `SpawnCall.WaitForSocket` | internal/spawn/spawn.go:119-136 | Returns nil exactly when a poll before the deadline succeeds, and every action is a step of the protocol |
| `SpawnCall.EnsureDaemon` | internal/spawn/spawn.go:77-109 | Nil exactly when a probe of its own succeeds at a point where the code looks: at once, while polling without the lock, or while polling with it after a second probe or a launch that worked; it executes the binary exactly when both probes fail under the lock; it leaves the lock as it found it, a call without configuration touches nothing, and every action is a step of the state machine |
| `BootstrapWatcher.FlagIsOneWatcher` | internal/service/lifecycle.go:816-835 | In every interleaving of start calls and exits the running flag is up exactly while one watcher lives |
| `BootstrapWatcher.RunBootstrapWatcher` | internal/service/lifecycle.go:837-883 | Retriggers at most once, exactly when OK or IDLE comes after nothing but errors and LOADING with no three errors in a row; on any other tick that breaks this wait it returns without |
| `InfoCache.Client.Get` | internal/adapters/embedder/cache.go:32-65 | The fields stay the memory of the last RPC since the last invalidation; a call is recorded either as served or as an RPC with its answer |
| `InfoCache.Client.Invalidate` | internal/adapters/embedder/cache.go:75-82 | Wipes out the memory of any RPC |
| `InfoCache.Client.Health` | internal/adapters/embedder/client.go:184-206 | Invalidates exactly when a positive earlier uptime went down |
| `InfoCache.SuccessSticks` | internal/adapters/embedder/cache.go:36-38 | No RPC follows a success before an invalidation, and what is served meanwhile is that success |
| `InfoCache.RetriesAreSpaced` | internal/adapters/embedder/cache.go:39-42 | Two RPCs with no invalidation between them start at least the cooldown apart |
| `InfoCache.ServedIsLatest` | internal/adapters/embedder/cache.go:36-41 | What is served without an RPC is the answer of the latest RPC, and a served error is younger than the cooldown |
| `InfoCache.RestartForcesRefetch` | internal/adapters/embedder/client.go:190-195 | With probes one at a time, after an observed uptime regression nothing is served before the next RPC |
| `InfoProbes.RegressionForcesRefetch` | internal/adapters/embedder/client.go:190-195 | For any interleaving of the atomic actions of overlapping probes with Get calls: once a probe that itself loaded a higher uptime has returned, the cache was wiped and nothing is served from then to the next RPC |
| `InfoProbes.WipesAreLoadedRegressions` | internal/adapters/embedder/client.go:190-195 | For any interleaving: a probe wiped the cache if and only if it loaded a higher uptime itself, and every wipe is that of such a probe |
| `InfoProbes.OverlapHidesRegression` | internal/adapters/embedder/client.go:190-195 | A concrete run in which no probe loads the higher uptime and the cache is not wiped |
| `BootLog.BootLogger.Persist` | internal/lifecycle/boot_log.go:52-92 | Both files, the handle and the report flag after any combination of failing calls; the suffix and size invariant is kept |
| `BootLog.BootLogger.RotateIfNeeded` | internal/lifecycle/boot_log.go:134-154 | Renames over the old generation only when the next line would not fit, and reopens even when the rename failed |
| `BootLog.BootLogger.Close` | internal/lifecycle/boot_log.go:95-107 | Drops the handle and touches no file |
| `BootLog.StepAppends` | internal/lifecycle/boot_log.go:52-92 | The line is appended exactly when every call it takes works; a file that would outgrow the limit is first moved over the old generation |
| `BootLog.RotationReads` | internal/lifecycle/boot_log.go:134-154 | Nothing moves while the line fits or the size is unknown; otherwise current becomes rotated unless the rename fails, and the handle is open exactly when the reopen works |
| `BootLog.FilesAreASuffix` | internal/lifecycle/boot_log.go:52-154 | Over any sequence of Persist and Close with any failures, rotated file ++ current file is a contiguous suffix of the lines written; while no stat or rename failed, the current file is at most maxBytes or a single line |
| `BootLog.SoundWithoutFaults` | internal/lifecycle/boot_log.go:134-154 | The size bound needs only that no stat and no rename fails |
| `InsertRecovery.InsertWithRecovery` | internal/service/recovery.go:17-45 | A second call is made if and only if the first was answered with a retryable error and the pipelines came back; success is that of the last call made, with its item IDs; a request lost at first and accepted the second time is stored exactly once, now and for good; only this batch under this ID is stored, and with a non-empty ID exactly once on success and at most once on error |
| `InsertRecovery.ExactlyOnceIffIdentified` | internal/service/capture.go:353-359 | At most two calls, stored exactly once on success and at most once on error, against every behaviour of the store, late commits included, if and only if the request ID is not empty; with any ID a success means stored |
| `Utf8.TruncRunesBytes` | internal/policy/utf8_safe.go:7-23 | The byte scan with its length shortcut returns a prefix that decodes to exactly the first maxRunes runes of its input, whatever the bytes, and nothing for a bound of zero or less |
| `Utf8.OffsetIsEnd` | internal/policy/utf8_safe.go:11-14 | The offset of the n-th rune is the end exactly when there are at most n runes |
| `Utf8.TruncationsAgree` | internal/domain/extraction.go:246-252 | On valid UTF-8 the rune-slice form returns the same bytes as the byte scan: a valid prefix of min(n, rune count) code points |
| `Utf8.TruncationsAgreeIff` | internal/domain/extraction.go:246-252 | On any bytes the two forms agree if and only if each of the first min(n, rune count) runes is read from a valid sequence |
| `Utf8.LoneByteDiffers` | internal/policy/utf8_safe.go:11-14 | A lone 0xFF, kept by the byte scan and replaced by the rune slice |
| `Utf8.CoercedIsSameIff` | internal/adapters/envector/aes_ctr.go:60-61 | Exactly valid UTF-8 comes unchanged through an encoder that replaces invalid bytes |
| `Utf8.CoercedIsValid` | internal/adapters/envector/aes_ctr.go:75-78 | What comes out is valid, so reading it back changes nothing |
| `Utf8.FirstRuneRoundTrips` | internal/domain/extraction.go:247-251 | A valid sequence decodes and encodes to itself; an invalid byte becomes three bytes |
| `Utf8.ScalarRoundTrips` | internal/domain/extraction.go:247-251 | Every code point but the surrogates is encoded to a valid sequence that decodes to it |
| `Utf8.KnownSequences` | internal/domain/extraction.go:247-251 | The example sequences of RFC 3629 |
| `PayloadText.CollapseBlankLines` | internal/policy/payload_text.go:258-261 | The loop terminates, leaves no triple newline, and returns the run-length normal form of its input |
| `PayloadText.PassShortens` | internal/policy/payload_text.go:259-260 | A replacement pass over a text with a triple newline strictly shortens it |
| `PayloadText.PassKeepsNormalForm` | internal/policy/payload_text.go:260 | A replacement pass does not change the normal form |
| `PayloadText.CollapseByRuns` | internal/policy/payload_text.go:258-261 | In the normal form every maximal run of k newlines is min(k, 2) long and all other characters stay, in order |
| `PayloadText.LettersAndRunsDetermine` | internal/policy/payload_text.go:258-261 | The other characters and the run lengths determine a text, so CollapseByRuns says all there is |
| `PayloadText.InsertPhaseLines` | internal/policy/payload_text.go:238-255 | The extra lines stand right after the first ID line, and without an ID line the text is unchanged |
| `PayloadText.InsertedBehindId` | internal/policy/payload_text.go:238-255 | The phase line, then the group summary when there is one that is not empty, come right behind the first line that starts with ID |
| `PayloadText.InsertedNowhere` | internal/policy/payload_text.go:238-255 | A text without such a line stays as it is |
| `PayloadText.InsertionIsUndone` | internal/policy/payload_text.go:238-255 | Taking the inserted lines out again gives the text back |
| `PayloadText.TrimSplits` | internal/policy/payload_text.go:263 | The trim removes whitespace at both ends and nothing else |
| `PayloadText.FinishPayload` | internal/policy/payload_text.go:220-264 | The rendered payload has no triple newline and no whitespace at its edges |
| `Base64.RoundTrip` | internal/adapters/envector/aes_ctr.go:58-84 | Decoding an encoding gives the bytes back, and the encoding has four characters for every started group of three bytes |
| `Base64.AlphabetInOrder` | internal/adapters/envector/aes_ctr.go:58 | The standard alphabet, not the one for URLs |
| `Base64.SameBits` | internal/adapters/envector/aes_ctr.go:58 | The four digits of a group are its 24 bits, most significant first |
| `Base64.TestVectors` | internal/adapters/envector/aes_ctr.go:58 | The three kinds of padding, on the vectors of RFC 4648 |
| `Envelope.XorKeyStream` | internal/adapters/envector/aes_ctr.go:51-54 | Using the stream block by block combines byte i with byte i of the key stream, for texts of any length |
| `Envelope.Seal` | internal/adapters/envector/aes_ctr.go:35-66 | Succeeds exactly with a 32-byte key and sixteen random bytes. The encoded field then decodes to the IV and the ciphertext, as long as the plaintext, whose byte i is byte i of the plaintext combined with byte i mod 16 of the enciphered block that, read as a big-endian number, is the IV plus i div 16 modulo 2^128 |
| `Envelope.Open` | internal/adapters/envector/aes_ctr.go:70-106 | Each way opening fails, in the order the code checks them; it succeeds exactly with a 32-byte key, the ID in the text and a field of at least sixteen bytes, and the result is the rest of the field in CTR mode under its first sixteen bytes |
| `Envelope.CtrModeIsUnique` | internal/adapters/envector/aes_ctr.go:53-54 | What the contracts of Seal and Open say of the ciphertext leaves no choice: at most one text is the CTR mode of another under a key and an IV |
| `Envelope.OpenUndoesSeal` | internal/adapters/envector/aes_ctr.go:35-106 | For every block function, 32-byte key, IV and plaintext, Open of Seal is the plaintext for exactly the agent ID that the JSON text holds, and the mismatch error for any other |
| `Envelope.OwnSealOpensIff` | internal/adapters/envector/aes_ctr.go:60-82 | The agent that sealed gets its plaintext back if and only if its ID is valid UTF-8 |
| `Envelope.SealedLength` | internal/adapters/envector/aes_ctr.go:56-60 | The encoded field is 4*ceil((16+n)/3) long |
| `Envelope.IncrementAddsOne` | internal/adapters/envector/aes_ctr.go:53-54 | The counter step adds one to the block read as a big-endian number, modulo its size |
| `Envelope.IncrementReads` | internal/adapters/envector/aes_ctr.go:53-54 | Blocks are numbered big-endian: the last byte is the one that counts |
| `Envelope.CountersAreDistinct` | internal/adapters/envector/aes_ctr.go:53-54 | Within one message no counter block is used twice |
| `Ranking.StableSortIsStable` | internal/service/recall.go:196-199 | The sort is descending and keeps the order of elements with equal keys |
| `Ranking.OnlyStableSort` | internal/policy/rerank.go:68-70 | No other arrangement is descending and stable, so any stable sort may be used |
| `Ranking.FilterSortCommute` | internal/policy/rerank.go:68-106 | Filtering commutes with a stable sort |
| `RecallSearch.SearchWithExpansions` | internal/service/recall.go:137-202 | The top_k error comes exactly from an answer for one of the expansions, or from the fallback when the original query is none of them. Otherwise every hit was found by one of these searches, every record they found is there, once, best score first; and the list is the stable sort of the first occurrences |
| `RecallSearch.PoolConcat` | internal/service/recall.go:144-194 | Hits of a later answer come after those of an earlier one |
| `RecallSearch.PoolOfOne` | internal/service/recall.go:159-164 | One answer gives its own hits in their order, and a failed one none |
| `RecallSearch.KeptPositions` | internal/service/recall.go:159-164 | What deduplication keeps are the hits at exactly the positions where no earlier hit has the record ID, in increasing order |
| `RecallSearch.FirstOccurrencesAreDistinct` | internal/service/recall.go:144-194 | Kept hits have distinct record IDs, and no record ID is lost |
| `RecallExpand.GroupInfos` | internal/service/recall.go:466-485 | Counts each group's members, takes the total of its first hit, and the best score from zero up |
| `RecallExpand.PickIncomplete` | internal/service/recall.go:487-499 | For every iteration order: at most two groups, each of which has fewer hits than its first hit announces, in descending order; any other such group is outscored by two chosen ones |
| `RecallExpand.ExpandPhaseChains` | internal/service/recall.go:458-528 | A group whose first hit announces more members than there are hits of it gets every member its search finds, unless two other such groups that score no lower were searched; a group that is whole is never searched, and nothing else is added; the input stays a prefix and record IDs stay distinct |
| `RecallExpand.ExpansionKeeps` | internal/service/recall.go:501-527 | The input stays a prefix, only members of chosen groups are added, every member found is present, and record IDs stay distinct |
| `Groups.GroupPositions` | internal/service/recall.go:537-555 | The members of a group are the hits at exactly the positions that bear its ID, in increasing order |
| `Groups.StandalonePositions` | internal/service/recall.go:537-555 | The standalone hits are those at exactly the positions without a group ID, in increasing order |
| `RecallAssemble.GatherGroups` | internal/service/recall.go:537-555 | Each group has its members in input order and the key max(0, best member); the rest are the standalone hits in order |
| `RecallAssemble.SortGroups` | internal/service/recall.go:563-582 | For every iteration order: each group once, its members in phase order with ties in input order, keys descending |
| `RecallAssemble.Merge` | internal/service/recall.go:588-606 | Panics exactly when some standalone hit scores -1.0 or less, and otherwise is the merge without sentinels |
| `RecallAssemble.AssembleGroups` | internal/service/recall.go:531-609 | Panics exactly when some standalone hit scores -1.0 or less; otherwise a correct assembly: block keys never increase, groups before standalone hits on equal keys |
| `RecallAssemble.MergedDescends` | internal/service/recall.go:590-606 | The merge of two descending lists is descending, groups first on equal keys |
| `RecallAssemble.PhasesAscend` | internal/service/recall.go:565-575 | Inside a group phase numbers never fall, and a member without one counts as zero |
| `AssemblyTheorems.AssemblyIsPermutation` | internal/service/recall.go:531-609 | An assembly is a permutation of the hits it was given |
| `AssemblyTheorems.GroupIsContiguous` | internal/service/recall.go:564-601 | A group stands in one piece, stably ordered by phase_seq, and no member stands anywhere else |
| `AssemblyTheorems.PlacesFall` | internal/service/recall.go:580-606 | Between any two positions of an assembled list what the hit is placed by, its own score or the best of its group and at least zero, does not rise, and a standalone hit before a grouped one is placed strictly higher |
| `RecallRank.ApplyMetadataFilters` | internal/service/recall.go:612-637 | Exactly the hits that match every given filter, in order: domain and status are equal, and a timestamp string, if there is one, is not less than the since value |
| `RecallRank.FilterByTime` | internal/policy/rerank.go:76-106 | Exactly the hits whose known instant is not before the cutoff, in order; all of them without a range |
| `RecallRank.ScopesReachBack` | internal/policy/rerank.go:29-34 | A hit with a known instant is in scope exactly when it is at most 7, 30, 90 or 365 days old |
| `RecallRank.StringOrderIsTotal` | internal/service/recall.go:630 | Of two different strings exactly one is less, and a string is not less than itself |
| `RecallRank.StringOrderIsTransitive` | internal/service/recall.go:630 | The comparison of the since filter is transitive |
| `RecallRank.StringOrderIsLexical` | internal/service/recall.go:630 | A string is less exactly when the first difference is in its favour or it is a proper prefix |
| `RecallRank.LaterSinceKeepsFewer` | internal/service/recall.go:621-633 | A since filter that starts later keeps no hit that an earlier one drops |
| `RecallRank.WiderScopeFirstIsTheSame` | internal/policy/rerank.go:76-106 | Filtering by a wider time scope first changes nothing about what a narrower one keeps |
| `RecallRank.RecencyMakesUpThreeSevenths` | internal/policy/rerank.go:57-65 | Between records of equal status one stays ahead exactly when its raw lead is at least 3/7 of what the other gains in decay |
| `RecallRank.StatusWeighs` | internal/policy/rerank.go:14-26 | What each status leaves of 0.7 raw score plus 0.3 recency, and that weighting changes nothing but the adjusted score |
| `RecallRank.AgeIsWholeDays` | internal/policy/rerank.go:47-55 | The age is the number of whole days passed, and zero for a record from the future |
| `RecallRank.OlderRanksNoHigher` | internal/policy/rerank.go:57-65 | With equal score and status an older record never has the higher adjusted score, for any decay that does not grow |
| `RecallRank.ApplyRecencyWeighting` | internal/policy/rerank.go:44-72 | In place: every hit weighed, then the array stably sorted by adjusted score |
| `RecallRank.FilterThenRankIsRankThenFilter` | internal/policy/rerank.go:44-106 | Both filters, in either order, give the same list before the ranking as after it |
| `RecallRank.TopOfRanked` | internal/service/recall.go:105-108 | The first topK are a prefix of the stable ranking and no hit left out beats one returned |
| `RecallHandle.Handle` | internal/service/recall.go:67-112 | For every iteration order and all answers: the response is the topK best of the hits that pass every filter, best first, among the searched hits and the members the group searches added, arranged by an assembly; record IDs are distinct; a top_k rejection by a search that counts ends the request; it panics exactly when a standalone hit scores -1.0 or less. Only the first three expansions count, and topK is five when none is given |
| `RecallHandle.ResultsAreTop` | internal/service/recall.go:95-108 | Every hit returned is one that passes the filters, weighed; one that passes and is missing finds topK others that are no worse |
| `RecallHandle.RankFirstIsTheSame` | internal/service/recall.go:102-108 | Ranking all assembled hits first and filtering afterwards returns the same list |
| `RecallHandle.ResultsAreDistinct` | internal/service/recall.go:84-108 | Record IDs stay distinct from the search to the end of the request |
| `RecallResolve.ClassifyEntries` | internal/service/recall.go:343-359 | Items in entry order with their own scores, and the encrypted positions with their envelopes |
| `RecallResolve.DecryptItems` | internal/service/recall.go:361-391 | The j-th plaintext goes to the j-th encrypted position and no other item changes, by batch or one at a time |
| `RecallResolve.ResolveMetadata` | internal/service/recall.go:334-403 | The hits of the entries that have metadata, in entry order |
| `RecallResolve.EntryIsRead` | internal/service/recall.go:343-391 | What each kind of entry is read as, by either route and without Vault; in a batch the plaintext taken is the one whose number is the count of encrypted entries before |
| `RecallResolve.HitOfEntry` | internal/service/recall.go:393-400 | An entry gives a hit exactly when it is read, with its own metadata and score, zero when there is none |
| `RecallResolve.HitsAreAligned` | internal/service/recall.go:393-400 | Each hit comes from its own entry, with that entry's score and metadata, at increasing positions that leave no readable entry out |
| `RecallResolve.FallbackIsBatch` | internal/service/recall.go:366-390 | If the call for the j-th envelope alone answers the j-th plaintext of the batch, for every j, the per-entry fallback gives the hits the batch would have given |
| `Hits.HitFields` | internal/service/recall.go:406-451 | Field by field what a hit takes from its metadata, and what stands in for an absent or empty one |
| `RecordBuilder.ParsePhases` | internal/domain/extraction.go:126-144 | Exactly the objects among the first seven elements, in order, with their positions |
| `RecordBuilder.BuildMultiRecord` | internal/policy/record_builder.go:184-302 | One record for each phase: its title or number, its ID, the first five alternatives and the first five trade-offs, its tags or those of the extraction, kind, summary, group ID, number and total |
| `RecordBuilder.BuildPhases` | internal/policy/record_builder.go:57-85 | Which extractions are missing, rejected, single or a group, and that a group has distinct IDs, one group ID and phases 0 to n-1 of n |
| `RecordBuilder.CapturePhases` | internal/domain/extraction.go:122-160 | An agent's phases array becomes a group exactly when at least two of its first seven elements are objects; the k-th record is made from the k-th of these objects |
| `RecordBuilder.RecordsFormAGroup` | internal/policy/record_builder.go:215-302 | Record IDs are pairwise distinct whatever the titles, one group ID, phase numbers 0 to n-1, total n |
| `RecordBuilder.NumberedApart` | internal/policy/record_builder.go:220-224 | IDs that end in a letter and a decimal number are equal only when the numbers are |
| `RecordBuilder.DecimalMeans` | internal/policy/record_builder.go:220-222 | The number at the end of an ID is written in decimal without leading zeros |
| `RecordIds.SameIdIff` | internal/domain/schema.go:264-278 | Two IDs are equal if and only if their dates, domains and remaining parts are, although the parts are joined by underscores and one domain holds one |
| `RecordIds.ThreeWordsDecide` | internal/domain/schema.go:266-277 | Titles that begin with the same three words give the same slug |
| `RecordIds.SlugReads` | internal/domain/schema.go:266-277 | A word with underscores counts if it is alphanumeric without them, and any other is left out without a gap |
| `RecordIds.PhaseIdReads` | internal/domain/schema.go:258-278 | What an ID looks like |
| `RecordIds.BuiltHaveKeys` | internal/policy/record_builder.go:215-224 | The records built for a group bear the IDs of their day, domain, title words, kind and number |
| `RecordIds.CapturesShareIdIff` | internal/policy/record_builder.go:215-224 | Two multi-phase captures share a record ID if and only if day, domain and kind agree and in some position both titles give the same slug |
| `RecordIds.SingleMeetsPhaseIff` | internal/policy/record_builder.go:110-224 | A single record gets the ID of a phase if and only if day and domain agree and its slug spells the slug, mark and number of the phase |
| `RecordIds.SingleCanMeetPhase` | internal/domain/schema.go:264-278 | Concrete titles of a single record and of a phase that give one ID |
| `PhaseRoundTrip.GroupComesBackInOrder` | internal/service/recall.go:564-601 | The hits of all records of a group, in any order, with any scores and among any other hits, come back contiguous and in capture order |
| `PhaseRoundTrip.GroupSurvivesDeduplication` | internal/service/recall.go:144-194 | If the searches found every record of a group, however often and with whatever scores, and no other hit bears its group ID or one of its record IDs, deduplication keeps exactly one hit of each |
| `PhaseRoundTrip.CaptureComesBack` | internal/service/recall.go:80-87 | Under the same assumptions, and whatever the group expansion adds, the group stands in the assembled results once, whole, in one piece and in capture order |
| `PhaseRoundTrip.BothHeldIff` | internal/service/recall.go:144-194 | Two groups of different group IDs, both found by the searches, both meet those assumptions if and only if no record ID is in both |
| `PhaseRoundTrip.SharedIdLosesOne` | internal/service/recall.go:159-164 | Of two different hits with one record ID, deduplication keeps at most one |

## Left out

- BootLoop.BootOnce: last error, boot error and boot log stores are left out, and
  MarkDormant is in ConfigMark alone.
- BootLoop.RunBootLoop: the attempts counter, the error stores and the backoff
  sleeps are left out. A tail may overwrite the diagnostics of the next loop, so
  nothing is claimed about them; tails appear as steps that write no state.
- WaitForActive, `UnaryRecovery` and `waitForBootProgress`: callers of Retrigger
  appear as arrivals at any time, and whether a wait ends in Active is a
  parameter.
- The process being killed while it holds the spawn lock; the kernel drops the
  lock and the model has no such step.
- gRPC dialling, what a configuration holds, key storage, Vault, envector, FHE, AES and
  the embedder: their answers are arbitrary choices of the environment or
  uninterpreted functions.
- Envelope.Seal: the JSON text is its two fields, with the strings as JSON leaves
  them.
- Envelope.Open: what is not a JSON object of that shape is one case.
- RecallResolve.ResolveMetadata: classification and parsing of entries are
  parameters, and metadata is a decoded object.
- Floating-point rounding and the recency decay: scores are reals and the decay
  is any function of the age in days.
- time.Duration saturation for timestamps more than 292 years away from now.
- Regular expressions: redaction, query parsing, quote extraction, certainty and
  status hints. The parsed query is an input.
- `searchSingle`, including the score decryption before metadata is resolved: its
  answer is an input.
- RecallHandle.Handle: ends with the ranked hits; `buildResult`, the confidence
  figure and query parsing are left out.
- SearchByID, delete_capture, capture's novelty check, EmbedBatch chunking,
  GracefulShutdown.
- RecordBuilder.BuildMultiRecord: leaves out the fields that no recall step reads
  (decision text and its 500-rune cut, rationale, evidence, quality, payload). The
  date, domain and slug part of the IDs is an arbitrary function of the title there;
  RecordIds fills it in, with the splitting of a title into lower-case words and
  the test for letters and digits as parameters.
- RecordBuilder.BuildPhases: what a single record holds.
- PayloadText.FinishPayload: the payload template and the wording of the phase
  line; the text before the insertion and the line itself are arbitrary.
- BootLog.BootLogger.Persist: a write happens whole or not at all, and lines are
  opaque texts with a size; redaction and the JSON shape are not modelled.
- InfoCache.Client.Health: one probe at a time; InfoProbes has the overlapping ones.
- ConfigMark.SurvivesIff: a save truncates and then writes, and a failed write
  leaves an unreadable file; writes of two savers never mix their bytes.
- The rune-slice truncation with a negative bound, which panics; no caller passes
  one.
