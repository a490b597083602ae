# Verified model of the gateway's stateful cores

The server routes AI requests across accounts. Its difficult parts are a handful of protocols and stream
transformers that keep state under concurrency, over arbitrary read boundaries, or across process restarts. This
project models them in Dafny and proves what they promise, and where a promise fails, exactly when it holds.

One module per component, one module per file:

- Logins and tokens. `Vaults` is the credential vault, its slot addressing, and one sequential refresh. `SingleFlight`
  is every interleaving of the callers of `Refresh`: a map of call records, a result written before a channel is
  closed, and the vault (RFC 6749 section 6). `StateStore` is the one-shot store of authorization states (RFC 6749
  section 10.12); `FlowCompletion` is the race between the callback listener and manual completions over it, and
  `ForeignStates` what a listener does that is given the state of another login. `AccountRows` is the reference to its
  tokens in an account's row, which the callers of `Refresh` write back. `SessionStore` is the sliding expiry of login
  sessions.
- Event streams (WHATWG HTML section 9.2). `EventSplitter` is the Anthropic passthrough, `LineReader` the line-buffered
  reader with the `[DONE]` detector on top, `StreamTranslator` the Anthropic-to-OpenAI translation in stream and batch
  form, `AnthropicStream` the two composed on bytes. `Bytes` holds the client they all write to.
- Routing. `Connectors` is error classification and the retry predicate, `Router` candidate selection and failover,
  `StickyResponses` the binding of response ids to accounts, `ResponsesLoop` the candidate loop of the responses endpoint.
- Health. `HealthMetrics` scores one window over exact reals, `HealthEngine` adds hysteresis.
- Bookkeeping. `UsageLedger` is the table of attempts, price versions and the usage report, `UsageReport` what a report
  says of the table. `Scheduler` is the refresh jobs. `CodexQuota` is the parser of quota headers, `CodexValues` what its
  result says of the headers. `AccessSlots` is the concurrency slots of tokens.

Code that works by updating state is a class or a method proved against a specification function, and the promises are
lemmas over those functions. Concurrent code is a state machine whose actions are critical sections, single database
calls, network exchanges, channel operations and process restarts; the promises hold of every run of it. Clocks, random
values, answers of upstreams and failures of the environment are parameters of the actions.

## Where the code and its descriptions differ

- The passthrough is documented as verbatim (apps/server/internal/api/anthropic.go:262). It drops two bytes for each blank
  line in the forms it recognizes, LF LF and LF CR LF, and is verbatim exactly on bodies without one
  (`EventSplitter.VerbatimExactly`). When all lines end in LF, or all in CR LF, no event end reaches the client
  (`EventSplitter.NoEventEndForwarded`).
- Taken as a unit, a refresh with the in-memory vault and reused coordinates stores and deletes the same slot and so
  loses the new token (`Vaults.ReusedCoordinates`). Logins refuse such a vault
  (apps/server/internal/connectors/oauth/service.go:64-67), so no login's tokens are in it.
- The callback listener does not compare the state it receives with that of its flow. One account per flow holds as long
  as no listener of a pending flow is given the live state of another one while the flow's own state is live or a run of
  it is under way (`ForeignStates.OneAccountWithoutRisk`); every such completion can lead to a second account, or undo a
  completed flow, and no other completion can (`ForeignStates.ForeignStateMakesTwoAccounts`,
  `ForeignStates.ForeignStateUndoesCompletion`).
- Switching the reference of an account is described as atomic (apps/server/internal/api/api.go:1335). The update is, but
  it has no condition: a caller that is slow to write can replace the reference of a later rotation by one whose secret is
  deleted, and the account then has no tokens any more (`AccountRows.LossReachable`, `AccountRows.WriteLosesExactly`,
  `AccountRows.LostExactly`).
- First come, first served is the documented rule for concurrent completions
  (apps/server/internal/api/responses_oauth.go:490-491). A second completion with the same state is refused, but fails a
  flow whose first completion is still exchanging its code; that login then ends without an error, without an account, and
  with its tokens in the vault (`FlowCompletion.SecondCompletionLosesLogin`, `FlowCompletion.LoginLostExactly`).
- The responses loop is documented not to switch candidates after output has begun
  (apps/server/internal/api/responses_oauth.go:200), but the flag does not reach its retry test
  (`ResponsesLoop.ReplaysExactly`).
- One more rate limit can make a window look better, busy instead of degraded (`HealthEngine.ErrorImprovesExactly`).
- The state of a model's health is keyed by a joined string, which another model can share
  (`HealthEngine.SharesKeyExactly`, `HealthEngine.IsolatedExactly`).
- The range tests for quota percentages let the value NaN through (`CodexQuota.QuotasBounded`).
- A status that refuses a streamed Anthropic request is reported as truncation and so retried
  (`Connectors.StreamedRefusalRetried`); among bare statuses 400 is retried too (`Connectors.StatusesRetried`).
- One unpriced group fails the whole usage report (`UsageLedger.Store.AggregateUsage`), although unpriced requests are
  described as not billed (apps/server/internal/api/api.go:811).
- The first backoff delay is not capped, so delays are monotone only for a base of at most five minutes
  (`Scheduler.MonotoneExactly`).

## Model

| member | source | states |
|---|---|---|
| `Vaults.Vault.Store` | apps/server/internal/credentials/keychain.go:67-80 | a stored secret is found under the prefixed service name, or (in memory) under the name given; a failed store changes nothing |
| `Vaults.Vault.Get` | apps/server/internal/credentials/keychain.go:83-92 | reads exactly the slot of the reference, or reports that it cannot |
| `Vaults.Vault.Delete` | apps/server/internal/credentials/keychain.go:98-107 | removes that slot only; false when it was missing or the vault failed |
| `Vaults.Vault.Refresh` | apps/server/internal/connectors/oauth/service.go:153-180 | the imperative refresh leaves the vault and returns the outcome of the one-step specification |
| `Vaults.ReturnedIsFresh` | apps/server/internal/connectors/oauth/service.go:152-180 | whatever is returned without an error is the bundle just granted, or the stored one with at least five minutes left |
| `Vaults.FreshIsKept` | apps/server/internal/connectors/oauth/service.go:163-165 | a bundle with at least five minutes left comes back as it is, whatever the endpoint would answer, and the vault is unchanged |
| `Vaults.StaleIsReplaced` | apps/server/internal/connectors/oauth/service.go:163-180 | a bundle with less left, or without an expiry, is replaced if and only if it has a refresh token, the endpoint grants a new one and that can be stored; otherwise the error tells which failed, and the old bundle is returned with it |
| `Vaults.UnreadableIsReported` | apps/server/internal/connectors/oauth/service.go:153-162 | a secret that cannot be read, or does not decode, is reported as such and left alone |
| `Vaults.FailureKeepsVault` | apps/server/internal/connectors/oauth/service.go:152-180 | a refresh that fails, or finds the token fresh, changes no slot; any other changes at most the old and the new slot; success always carries a bundle |
| `Vaults.RotatedTokenReadable` | apps/server/internal/connectors/oauth/service.go:173-179 | after a rotation the returned reference leads to the new bundle if and only if the new slot differs from the old one or the old one survived its deletion |
| `Vaults.ReusedCoordinates` | apps/server/internal/api/api.go:1319-1343 | callers pass the stored coordinates back: the new token is then readable if and only if slots are prefixed; the in-memory vault loses it |
| `Vaults.SecondExchange` | apps/server/internal/connectors/oauth/service.go:163-178 | presenting the same reference again trades the old bundle a second time if and only if storing its replacement failed or (prefixed slots) deleting it failed |
| `Vaults.ChainSlotsDistinct` | apps/server/internal/credentials/keychain.go:67-72 | the slots along a chain of prefixed rotations are pairwise distinct |
| `AccountRows.LostExactly` | apps/server/internal/api/api.go:1319-1343 | from every reachable state: some continuation makes the account's row lead to its tokens again if and only if it does already, or some caller has read, or is about to write, a reference that leads to them |
| `AccountRows.WriteLosesExactly` | apps/server/internal/api/api.go:1335-1343 | a write loses the tokens if and only if nobody else can save them and either it writes an outdated reference, or it writes none (or fails) while the row does not lead to them |
| `AccountRows.LossReachable` | apps/server/internal/api/api.go:1335-1343 | from every reachable state whose row leads to the tokens, three callers lose them: two share a rotation, the second writes back only after a third has rotated again |
| `AccountRows.RunKeepsLost` | apps/server/internal/api/api.go:1327-1343 | lost tokens stay lost over every run |
| `AccountRows.PromptWritersLoseNothing` | apps/server/internal/api/api.go:1335-1343 | over every run in which writes succeed and no rotation begins while a caller has still to write, the tokens are not lost, and the row leads to them once nothing is left to write |
| `AccountRows.RunKeepsInv` | apps/server/internal/repository/repository.go:144-152 | over every run no reference in a row or a caller's hands is ahead of the rotation chain, and none has the fingerprint of another slot |
| `AccountRows.RefreshGives` | apps/server/internal/connectors/oauth/service.go:153-180 | in every reachable state a refresh works if and only if the row that was read leads to the tokens and nothing fails; the reference it gives to all who joined leads to them, with a fingerprint if and only if they were rotated |
| `SingleFlight.SingleFlightPerKey` | apps/server/internal/connectors/oauth/service.go:124-145 | over every interleaving, at most one caller per key is inside refreshOnce |
| `SingleFlight.WaiterSharesResult` | apps/server/internal/connectors/oauth/service.go:141-149 | a waiter returns exactly the reference, bundle and error of the creator it joined, read after that creator closed the record, although the map entry was removed earlier |
| `SingleFlight.RemovalCheckHolds` | apps/server/internal/connectors/oauth/service.go:135-139 | the re-check before the map entry is removed is always true |
| `SingleFlight.RefreshIsAtomic` | apps/server/internal/connectors/oauth/service.go:124-180 | however other keys' steps interleave, a finished refresh changed its key's slots, and returned, as one undisturbed refresh would |
| `SingleFlight.InputsTold` | apps/server/internal/connectors/oauth/service.go:124-180 | the inputs of that undisturbed refresh are what this caller itself was told when it loaded, exchanged, stored and deleted |
| `SingleFlight.SoleCallerRotates` | apps/server/internal/connectors/oauth/service.go:124-180 | from every initial vault a single caller with a stale bundle can trade it in: it returns the new one, which is in the vault in place of the old, and the key is free |
| `SingleFlight.GivenIsFresh` | apps/server/internal/connectors/oauth/service.go:124-180 | over every run whoever is given a bundle without an error, waiters included, is given one granted in the flight it joined, or one with at least five minutes left when that flight loaded it |
| `SingleFlight.OnlyStaleIsTraded` | apps/server/internal/connectors/oauth/service.go:163-167 | over every run only bundles with less than five minutes left, or without an expiry, are sent to the endpoint |
| `SingleFlight.NobodyIsStuck` | apps/server/internal/connectors/oauth/service.go:124-150 | over every run whoever has not returned can take a step, or waits for a creator that can |
| `SingleFlight.CallersGoForward` | apps/server/internal/connectors/oauth/service.go:124-150 | every step of a caller that has entered brings it nearer to its return, of which it is at most seven steps away |
| `SingleFlight.HistoryTold` | apps/server/internal/connectors/oauth/service.go:163-179 | the counts in the next results are those of the run's own successful exchanges, and of its failed stores and deletes |
| `SingleFlight.ExchangedAtMostOnce` | apps/server/internal/connectors/oauth/service.go:163-179 | over every run a stored bundle is traded in successfully at most once, unless storing its replacement or deleting it failed |
| `SingleFlight.CleanRunSpoilsNothing` | apps/server/internal/connectors/oauth/service.go:173-178 | a run without failed stores and deletes leaves no bundle in that condition |
| `SingleFlight.CleanRunsNeverReuse` | apps/server/internal/connectors/oauth/service.go:153-180 | with successful stores and deletes no bundle is ever traded in twice |
| `SingleFlight.StepKeepsInv` | apps/server/internal/connectors/oauth/service.go:124-180 | every step of every caller keeps the whole invariant: map, call records, progress of creators, vault and traded bundles |
| `StateStore.Store.Purge` | apps/server/internal/connectors/oauth/state.go:66-72 | the loop removes exactly the entries that have expired |
| `StateStore.Store.Put` | apps/server/internal/connectors/oauth/state.go:31-47 | expired entries go, the new one lives ten minutes |
| `StateStore.Store.Consume` | apps/server/internal/connectors/oauth/state.go:51-63 | the entry is removed whether or not it is still alive; unknown and expired states are told apart |
| `StateStore.StoredIsPending` | apps/server/internal/connectors/oauth/state.go:31-72 | over every history each stored entry is the last one put and not consumed since; a pending entry is missing only after it expired |
| `StateStore.ConsumeMeaning` | apps/server/internal/connectors/oauth/state.go:51-63 | a consumption succeeds if and only if the state is pending and within its lifetime, with or without purging |
| `StateStore.ConsumedAtMostOncePerPut` | apps/server/internal/connectors/oauth/state.go:51-63 | over every history a state is consumed successfully at most once per put |
| `SessionStore.Store.Add` | apps/server/internal/session/session.go:139-145 | the token is stored with one lifetime from now |
| `SessionStore.Store.Valid` | apps/server/internal/session/session.go:147-161 | accepts a live token and renews it from a second clock reading; drops an expired one |
| `SessionStore.Store.Remove` | apps/server/internal/session/session.go:163-169 | the token is gone, and the answer tells whether it was there |
| `SessionStore.StoredMeaning` | apps/server/internal/session/session.go:139-169 | a token is stored if and only if it was added, not removed since, and used without long gaps; its expiry is one lifetime after its last use |
| `SessionStore.ValidMeaning` | apps/server/internal/session/session.go:147-161 | a use is accepted if and only if the token was added, not removed since, and every gap between uses, this one included, is below the lifetime |
| `FlowCompletion.OneAccountPerFlow` | apps/server/internal/api/responses_oauth.go:492-541 | over every run in which no completion presents a foreign live state to a pending flow, at most one account is created for a flow, by the run that consumed its state |
| `FlowCompletion.AccountIffCompleted` | apps/server/internal/api/responses_oauth.go:536-538 | over such runs the account id is set if and only if the flow is completed, and names an account made for that flow |
| `FlowCompletion.StatusOnlyMovesForward` | apps/server/internal/api/responses_oauth.go:498-538 | over such runs a completed flow never changes, a failed one can only become completed, and only by the consumer of its state |
| `FlowCompletion.StepMovesForward` | apps/server/internal/api/responses_oauth.go:498-538 | the same for one step from any state satisfying the invariant |
| `FlowCompletion.FinishedRunsSettle` | apps/server/internal/api/responses_oauth.go:497-540 | over every run, whatever states are presented, a completion that has ended leaves no pending flow behind |
| `FlowCompletion.FailedExchangeFailsFlow` | apps/server/internal/api/responses_oauth.go:498-506 | with harmless completions: when the exchange of a finished run failed, its flow has failed and names no account, unless it was settled when the run looked |
| `FlowCompletion.RunsGoForward` | apps/server/internal/api/responses_oauth.go:492-541 | every step of a completion brings it nearer to its end, of which it is at most four steps away |
| `FlowCompletion.RunsNeverStick` | apps/server/internal/api/responses_oauth.go:492-541 | until it has ended, a next step is possible |
| `FlowCompletion.ArrivalTold` | apps/server/internal/connectors/oauth/service.go:97-107 | an unusable callback leaves all states alone; a usable one takes the state it presents away, and goes on if and only if that was live |
| `FlowCompletion.LoginCompletes` | apps/server/internal/api/responses_oauth.go:492-541 | from every reachable state a new login, completed within ten minutes with its own state, can end with its flow completed by an account and its bundle stored |
| `FlowCompletion.BundleStrandedExactly` | apps/server/internal/api/responses_oauth.go:497-540 | whatever states are presented: a finished run leaves a token bundle without an account if and only if its exchange worked and its flow was settled when it looked, or its provider was missing, or neither the insertion nor the deletion worked; no account is without its bundle |
| `FlowCompletion.LoginLostExactly` | apps/server/internal/api/responses_oauth.go:497-535 | with harmless completions: a run that consumed its flow's state and exchanged its code ends without an account if and only if another run of the flow, refused, settled it first, or the provider was missing, or the insertion failed |
| `FlowCompletion.SecondCompletionLosesLogin` | apps/server/internal/api/responses_oauth.go:497-505 | from every state in which a login is exchanging its code for a pending flow: a second completion with the same state is refused and fails the flow, and the login ends without error and account, its bundle in the vault |
| `FlowCompletion.StepKeepsInv` | apps/server/internal/api/responses_oauth.go:492-541 | every critical section, code exchange and account insertion keeps the invariant that links states, runs, flows and accounts |
| `ForeignStates.ForeignStateMakesTwoAccounts` | apps/server/internal/api/responses_oauth.go:431-438 | from every reachable state: when a flow's listener delivers another flow's state, a run that begins so ends with an account for the flow by this completion and one by another if and only if the flow is pending, that state is live, and the flow's own state is live too or a run of the flow is under way |
| `ForeignStates.ForeignStateUndoesCompletion` | apps/server/internal/api/responses_oauth.go:507-529 | by exactly the same completions a completed flow can be turned back to failed with its account id kept |
| `ForeignStates.OneAccountWithoutRisk` | apps/server/internal/api/responses_oauth.go:492-541 | over every run without such a completion, foreign states included, at most one account is created for a flow |
| `ForeignStates.ReachableBase` | apps/server/internal/api/responses_oauth.go:431-541 | every run, whatever states are presented, keeps what the two conditions above start from: bundles and accounts belong to runs, the account a flow names was made for it, and the run that made an account has settled its flow |
| `Bytes.BytesIndex` | apps/server/internal/connectors/openai.go:119-127 | the index is the first occurrence, or -1 when there is none |
| `Bytes.Client.OnChunk` | apps/server/internal/connectors/openai.go:104-109 | the end mark is noted in every chunk offered, even in one the client then refuses |
| `EventSplitter.IndexDoubleNewline` | apps/server/internal/api/anthropic.go:301-311 | the index is the first blank line in either form, or -1 when there is none |
| `EventSplitter.Drain` | apps/server/internal/api/anthropic.go:272-284 | the inner loop offers exactly the complete non-empty events of what is pending, in order, and keeps the unfinished rest |
| `EventSplitter.Consume` | apps/server/internal/api/anthropic.go:263-299 | for every way reads cut the body, the chunks offered to the client, the point of refusal and the result are a function of the concatenated bytes and of how they end |
| `EventSplitter.SplitAppend` | apps/server/internal/api/anthropic.go:267-285 | splitting bytes as they arrive gives the events of the whole stream |
| `EventSplitter.FirstStable` | apps/server/internal/api/anthropic.go:273-278 | a boundary found early is the first boundary of every longer stream |
| `EventSplitter.CutsShape` | apps/server/internal/api/anthropic.go:277-278 | one cut per event, and every cut is LF LF or LF CR |
| `EventSplitter.StreamIsEventsAndCuts` | apps/server/internal/api/anthropic.go:272-290 | the stream is its events each followed by its two cut bytes, then the rest |
| `EventSplitter.VerbatimExactly` | apps/server/internal/api/anthropic.go:262-299 | the output equals the input if and only if the input has no blank line |
| `EventSplitter.OtherBytesForwarded` | apps/server/internal/api/anthropic.go:277-290 | every byte other than CR and LF is forwarded exactly once, in order |
| `EventSplitter.NoBlankLineForwarded` | apps/server/internal/api/anthropic.go:277-290 | the forwarded bytes contain neither LF LF nor LF CR LF |
| `EventSplitter.NoEventEndForwarded` | apps/server/internal/api/anthropic.go:277-290 | when the lines of a body all end in LF, or all in CR LF, no event end reaches the client |
| `EventSplitter.LoneCrForwarded` | apps/server/internal/api/anthropic.go:301-311 | an event end made of lone CRs is forwarded as it is |
| `LineReader.Reader.ReadLine` | apps/server/internal/connectors/httpclient.go:78-81 | a line up to and including LF, or the rest of the body together with how it ends |
| `LineReader.Consume` | apps/server/internal/connectors/httpclient.go:69-103 | the chunks offered to the client are a function of the body and of how it ends, the result too; a refused status offers nothing |
| `LineReader.EveryByteOnce` | apps/server/internal/connectors/httpclient.go:77-103 | on a clean end the chunks concatenate to the body: every byte exactly once, in order |
| `LineReader.ChunksWellCut` | apps/server/internal/connectors/httpclient.go:82-89 | no chunk is empty, and every chunk but the last ends in a blank line |
| `LineReader.FailureWithholds` | apps/server/internal/connectors/httpclient.go:90-101 | when reading fails the chunks are a prefix of those of a clean end: only the unfinished event is withheld |
| `LineReader.NoStraddle` | apps/server/internal/connectors/openai.go:104-109 | a mark without LF cannot straddle two chunks |
| `LineReader.DoneSeenIffInBody` | apps/server/internal/connectors/openai.go:102-115 | the end mark is seen in some chunk if and only if it occurs in the body |
| `LineReader.ForwardStream` | apps/server/internal/connectors/openai.go:96-117 | with a client that takes everything, a clean stream succeeds if and only if its body contains [DONE], else it is truncated; other ends are reclassified |
| `StreamTranslator.ConvertFromAnthropic` | apps/server/internal/connectors/anthropic.go:143-176 | the reply has the concatenated text blocks and the mapped stop reason |
| `StreamTranslator.Translator.EmitChunk` | apps/server/internal/connectors/anthropic.go:271-288 | one more chunk with the current id, or an error and no chunk |
| `StreamTranslator.Translator.Handle` | apps/server/internal/connectors/anthropic.go:304-331 | one event changes id, usage and finish as specified and emits its chunks; a refused chunk leaves the memory as it was |
| `StreamTranslator.Translator.Deliver` | apps/server/internal/connectors/anthropic.go:291-332 | the events in turn, until a callback fails, give the fold |
| `StreamTranslator.Translator.Translate` | apps/server/internal/connectors/anthropic.go:290-340 | the usage is the first one given, zero if there is none, and the verdict is truncation whenever no stop reason came, else the read error if any |
| `StreamTranslator.FoldMeaning` | apps/server/internal/connectors/anthropic.go:304-331 | for every stream: the chunks' text is the text of its text deltas, and the translator has finished if and only if a stop reason came |
| `StreamTranslator.FinishesMeaning` | apps/server/internal/connectors/anthropic.go:315-330 | for every stream, malformed ones included, exactly which finish chunks are emitted |
| `StreamTranslator.FoldUsage` | apps/server/internal/connectors/anthropic.go:323-325 | for a client that takes everything the usage is that of the first message_delta with one, and unknown if and only if none has |
| `StreamTranslator.FoldLastId` | apps/server/internal/connectors/anthropic.go:304-307 | the id in force is that of the last message_start with one |
| `StreamTranslator.StreamEqualsBatch` | apps/server/internal/connectors/anthropic.go:143-340 | for every split of a response into deltas, the folded chunks have the text, the one finish reason and the id of the batch conversion, and the stream is complete and reports its usage |
| `StreamTranslator.CutStream` | apps/server/internal/connectors/anthropic.go:290-340 | for every cut between events the text is a prefix of the batch text, and the verdict is truncation if and only if the cut is before the stop reason |
| `AnthropicStream.ExtractData` | apps/server/internal/connectors/httpclient.go:105-114 | the loop finds the trimmed data of the first line that has any |
| `AnthropicStream.TrimMeaning` | apps/server/internal/connectors/httpclient.go:110-110 | trimming takes off ASCII spaces only, at both ends, and leaves none there |
| `AnthropicStream.AllOrNothing` | apps/server/internal/connectors/httpclient.go:105-114 | when no proper prefix of an event's data decodes, the bytes of the event broken off anywhere decode to the whole event or to nothing |
| `AnthropicStream.CutChunksAnyEnd` | apps/server/internal/connectors/httpclient.go:77-102 | a stream broken off at any byte is handed on as its whole events, and the partial one unless the read failed within a line that has more than line breaks |
| `AnthropicStream.CutAnywhere` | apps/server/internal/connectors/anthropic.go:290-340 | for a break at any byte, whether the body then ends or its reading fails, the text is a prefix of the batch text, and the verdict is truncation if and only if the break comes before the stop reason's event, or inside it with what has come of it not handed on or not decoding; after it a failed read is reported as such |
| `StreamTranslator.ErrorsBecomeTruncation` | apps/server/internal/connectors/anthropic.go:336-339 | without a stop reason every error, a refused status included, is reported as truncation |
| `StreamTranslator.ClosedWithoutReason` | apps/server/internal/connectors/anthropic.go:326-338 | a stream closed without a stop reason gets a stop chunk and is still reported as truncated |
| `Router.ResolveCandidates` | apps/server/internal/router/router.go:94-121 | the loop and the stable sort compute the specified candidate list, with the same errors |
| `Router.DefaultCandidates` | apps/server/internal/router/router.go:124-143 | without a policy: the loop over the listed accounts computes the specified list |
| `Router.RefusedExactly` | apps/server/internal/router/router.go:94-143 | no candidate list exactly when the policy is disabled or has no usable candidate, no listed account is usable and has the model, or the repository fails |
| `Router.RefusedHow` | apps/server/internal/router/router.go:94-143 | the error is the repository's own, or that there is no candidate |
| `Router.ResolvedMeaning` | apps/server/internal/router/router.go:94-143 | only usable accounts; for a policy exactly its usable candidates in priority order, equal priorities in their listed order; by default exactly the usable accounts offering the model |
| `Router.ResolvedOrder` | apps/server/internal/router/router.go:94-143 | by default the list is the usable accounts that offer the model, in the order and as often as they are listed; for a policy equal priorities are the usable candidates as they are listed |
| `Router.StableSortMeaning` | apps/server/internal/router/router.go:113-113 | the sort is a sorted permutation that keeps the order of equal priorities |
| `Router.StableOrderUnique` | apps/server/internal/router/router.go:113-113 | no other list is sorted and keeps that order |
| `Router.Recorder.Start` | apps/server/internal/router/router.go:262-271 | a started attempt gets the next number; nothing without a recorder |
| `Router.Recorder.Finish` | apps/server/internal/router/router.go:273-321 | one finish for the attempt named; nothing without a recorder |
| `Router.Forward` | apps/server/internal/router/router.go:171-207 | result, decision and recorded attempts are those of the walk over the candidates |
| `Router.Try` | apps/server/internal/router/router.go:177-206 | the failover loop follows the walk step by step |
| `Router.ForwardStream` | apps/server/internal/router/router.go:210-259 | the same for streams, and the client gets the chunks of the walk's attempts |
| `Router.TryStream` | apps/server/internal/router/router.go:216-258 | the streaming failover loop follows the walk step by step |
| `Router.WalkPrefix` | apps/server/internal/router/router.go:178-205 | the attempts are a prefix of the resolvable candidates in order; all but the last failed silently with a retryable error |
| `Router.WalkEnd` | apps/server/internal/router/router.go:194-206 | a walk ends with the first success, with an error after which no candidate may be tried, or with all resolvable candidates tried and the last error |
| `Router.SucceedsExactly` | apps/server/internal/router/router.go:178-205 | a candidate's answer is returned if and only if it answers and every resolvable one before it failed silently with a retryable error |
| `Router.DecisionMeaning` | apps/server/internal/router/router.go:186-203 | reason codes are failover for all attempts but the last, ok for a success; the selected target is the last candidate tried |
| `Router.NoReplayAfterOutput` | apps/server/internal/router/router.go:216-256 | all chunks come from the last attempt, so none starts after output; only that attempt can be partial, exactly when output was followed by an error |
| `Router.StartedAreFinished` | apps/server/internal/router/router.go:235-248 | every started attempt is finished exactly once, in order, all but the last as failed |
| `StickyResponses.Table.Save` | apps/server/internal/repository/repository.go:1128-1135 | a known response id keeps its account and gets a new expiry; an unknown one is bound |
| `StickyResponses.Table.Get` | apps/server/internal/repository/repository.go:1138-1152 | the bound account until the expiry has passed |
| `StickyResponses.BindingNeverChanges` | apps/server/internal/repository/repository.go:1128-1135 | over every run the account bound to a response id never changes |
| `StickyResponses.BindingsTold` | apps/server/internal/repository/repository.go:1128-1135 | over every run the bindings are exactly those that were saved: to the account of the first save of the id, until a day after the last |
| `StickyResponses.AnswerBinds` | apps/server/internal/api/responses_oauth.go:229-243 | an answer can be saved if and only if it has an id; the save binds it for a day to the account that was asked, unless it was bound before; a save that fails changes nothing |
| `StickyResponses.ConversationContinues` | apps/server/internal/api/responses_oauth.go:133-243 | from every state a request without an id can be answered by its first candidate, to which its response id is then bound for a day, and a request that carries the id within the day goes there |
| `StickyResponses.PassedOnExactly` | apps/server/internal/api/responses_oauth.go:181-189 | after a failure the next candidate can be asked if and only if the request carries no id, the error is retryable and one is left |
| `StickyResponses.SkippedExactly` | apps/server/internal/api/responses_oauth.go:168-175 | after a candidate that cannot be resolved, if and only if that is not for lack of authorization and one is left |
| `StickyResponses.RequestsGoForward` | apps/server/internal/api/responses_oauth.go:161-197 | every step of a request brings it nearer to its end |
| `StickyResponses.SentOnlyToBoundAccount` | apps/server/internal/api/responses_oauth.go:133-190 | over every run, whatever is sent for a request carrying an id goes to the account that id is bound to |
| `StickyResponses.SentWasAdmitted` | apps/server/internal/api/responses_oauth.go:133-190 | over every run, everything sent for a request carrying an id comes from an arrival at which the id was bound to the account it is sent to, the binding had not expired, and the account was usable |
| `StickyResponses.MaySendExactly` | apps/server/internal/api/responses_oauth.go:133-148 | a request carrying an id can lead to anything being sent, now or later, if and only if on arrival the id is bound, the binding has not expired, and the account is usable |
| `StickyResponses.ConversationStaysWithRoot` | apps/server/internal/api/responses_oauth.go:133-243 | with distinct upstream ids every response of a conversation tree was produced by the root's account; its id, if bound, is bound to that account, and every id that was continued is bound |
| `StickyResponses.BranchHasOneProducer` | apps/server/internal/api/responses_oauth.go:229-243 | along any branch all responses have one producer |
| `StickyResponses.StepKeepsInv` | apps/server/internal/api/responses_oauth.go:133-244 | every step keeps: requests with an id have at most the bound account left to try |
| `ResponsesLoop.HandleResponses` | apps/server/internal/api/responses_oauth.go:161-197 | the loop asks the walk's candidates in order, gives the client their chunks, and tells whether one answered |
| `ResponsesLoop.AskedExactly` | apps/server/internal/api/responses_oauth.go:163-190 | a candidate is asked if and only if it can be and no earlier one ended the loop |
| `ResponsesLoop.AnsweredExactly` | apps/server/internal/api/responses_oauth.go:161-197 | the request is answered if and only if some candidate that was asked answers |
| `ResponsesLoop.PassedOnExactly` | apps/server/internal/api/responses_oauth.go:286-305 | after a failure the next candidate is asked if and only if the request is not bound and the status was 429 or at least 500, or the message tells of a broken connection |
| `ResponsesLoop.ReplaysExactly` | apps/server/internal/api/responses_oauth.go:182-189 | output is repeated if and only if the request is not bound, a candidate whose output had begun fails with an error that counts as retryable, and a later one is asked |
| `ResponsesLoop.BrokenOutputIsRepeated` | apps/server/internal/api/responses_oauth.go:182-189 | for instance: the connection of the first of two candidates breaks after output, the second is asked, and its chunks follow |
| `HealthMetrics.ComputeMetrics` | apps/server/internal/health/health.go:92-124 | the loop computes the metrics of the samples |
| `HealthMetrics.MetricsTold` | apps/server/internal/health/health.go:92-124 | the rates are the shares of samples with status 429, with status 500 to 599, and of timeouts and network errors among the others; the times are the percentiles 50 and 95 of the ascending first-token times and latencies |
| `HealthMetrics.PercentileAt` | apps/server/internal/health/health.go:60-76 | at any rank between two samples a percentile is their weighted mean |
| `HealthMetrics.PercentileEnds` | apps/server/internal/health/health.go:60-76 | the 100th percentile is the greatest sample; a single sample is every percentile |
| `HealthMetrics.ComputeScore` | apps/server/internal/health/health.go:127-151 | the running score is the specified one |
| `HealthMetrics.ScoreRange` | apps/server/internal/health/health.go:127-151 | for every non-empty window the four error rates are non-negative and add up to at most 1, the score lies in [25, 100] and the clamp at zero never acts |
| `HealthMetrics.PureWindowScore` | apps/server/internal/health/health.go:127-151 | what a window is worth whose samples are all of one class, slow ones included |
| `HealthMetrics.ErrorNeverHelps` | apps/server/internal/health/health.go:92-151 | turning a success into an error of any class never raises the score |
| `HealthMetrics.ErrorCosts` | apps/server/internal/health/health.go:127-151 | it lowers the score by exactly the weight of its kind divided by the number of samples: 30 for 429, 45 for 5xx, 40 for timeouts, 35 for network errors |
| `HealthMetrics.MetricsPermute` | apps/server/internal/health/health.go:92-124 | metrics do not depend on the order of the samples |
| `HealthMetrics.ClassesPartition` | apps/server/internal/health/health.go:101-110 | every sample is counted in exactly one class |
| `HealthMetrics.SortMeaning` | apps/server/internal/health/health.go:112-113 | sorting gives the ascending permutation |
| `HealthMetrics.AscendingUnique` | apps/server/internal/health/health.go:112-113 | which is the only one |
| `HealthMetrics.PercentileBounds` | apps/server/internal/health/health.go:60-76 | a percentile lies between the least and the greatest sample |
| `HealthMetrics.PercentileMonotone` | apps/server/internal/health/health.go:60-76 | percentiles grow with p |
| `HealthEngine.ErrorImprovesExactly` | apps/server/internal/health/health.go:156-197 | turning a success into an error gives a better status if and only if it is a rate limit, the account is not limited, only the score had condemned the window, and one more rate limit takes their share above 0.3; the window then goes from degraded to busy |
| `HealthEngine.RateLimitImproves` | apps/server/internal/health/health.go:156-197 | such a window, of the twenty samples the default engine asks for |
| `HealthEngine.Evaluate` | apps/server/internal/health/health.go:226-244 | the report of one window, its score in [25, 100] |
| `HealthEngine.Engine.Observe` | apps/server/internal/health/health.go:297-347 | an empty window is refused, a thin one answered unknown without moving a counter, any other moves its own key only and is answered with the status that key is left with |
| `HealthEngine.Engine.Settle` | apps/server/internal/health/health.go:318-344 | the counters move as specified, and the report tells the status they are left with |
| `HealthEngine.CountersMeanHistory` | apps/server/internal/health/health.go:318-344 | for every history of adequate windows the two counters give exactly the status of the history specification: it moves after enough windows in a row, all since the last move, were worse, or were better |
| `HealthEngine.StatusIsVerdict` | apps/server/internal/health/health.go:297-347 | after any interleaving of windows over keys, each key's status is the verdict of its own adequate windows |
| `HealthEngine.KeyFollowsItsWindows` | apps/server/internal/health/health.go:302-316 | under every interleaving a key's counters and status are those of the adequate windows under that key |
| `HealthEngine.ModelFollowsItsWindows` | apps/server/internal/health/health.go:302-316 | a model on a connection follows its own adequate windows in every interleaving in which no other model has its key |
| `HealthEngine.IsolatedExactly` | apps/server/internal/health/health.go:302-316 | it does so in every interleaving if and only if no other model can have its key |
| `HealthEngine.SharesKeyExactly` | apps/server/internal/health/health.go:302-305 | another model can have the same key if and only if the connection has a name or a bar stands after the first character of the model's |
| `HealthEngine.WithoutBarsIsolated` | apps/server/internal/health/health.go:302-316 | where no connection id has a bar, every model follows its own windows, model ids of the form provider and upstream name joined by a bar included; only models without a connection must have none |
| `HealthEngine.ThinWindowsErasable` | apps/server/internal/health/health.go:311-317 | a window with too few samples can be erased anywhere without changing later counters or statuses |
| `HealthEngine.ChangesBounded` | apps/server/internal/health/health.go:318-344 | n adequate windows allow at most n divided by the smaller threshold changes |
| `UsageLedger.Store.CreateAttempt` | apps/server/internal/repository/repository.go:777-790 | a second start under the same key changes nothing |
| `UsageLedger.Store.FinishAttempt` | apps/server/internal/repository/repository.go:793-810 | the row of the key, if any, gets the outcome, usage and non-empty model; no row is an error |
| `UsageLedger.Store.AggregateUsage` | apps/server/internal/repository/repository.go:936-978 | the report exists if and only if every group has a priced attempt; it then has one line per group, with the group's totals |
| `UsageLedger.PriceMeaning` | apps/server/internal/repository/repository.go:891-906 | a version is chosen if and only if it is the latest of its model not after the time |
| `UsageLedger.ColumnsAddUp` | apps/server/internal/repository/repository.go:942-953 | four null-skipping sums of products come to the sum over the attempts of tokens times the price in force, or are null together |
| `UsageLedger.GroupsAddUp` | apps/server/internal/repository/repository.go:936-978 | for every measure the groups' totals add up to the ungrouped total |
| `UsageLedger.ReportConserves` | apps/server/internal/repository/repository.go:936-978 | requests, tokens and cost over the lines of a report add up to those of all selected attempts |
| `UsageLedger.FuturePriceChangesNothing` | apps/server/internal/repository/repository.go:942-953 | a price version that takes effect after all selected attempts of its model changes nothing in the report |
| `UsageLedger.RowTellsStory` | apps/server/internal/repository/repository.go:777-810 | after any calls each key has at most one row: made by the first start, rewritten by each later finish |
| `UsageLedger.StartAgain` | apps/server/internal/repository/repository.go:777-790 | repeating a start changes nothing, whatever came in between |
| `UsageLedger.FinishAgain` | apps/server/internal/repository/repository.go:793-810 | repeating an accepted finish with the same payload changes no billed column, if no other payload came in between |
| `UsageLedger.FinishIdleExactly` | apps/server/internal/repository/repository.go:793-810 | at any moment a finish leaves all billed columns alone if and only if its attempt has no row or the row already shows that payload |
| `UsageLedger.ReportsAlike` | apps/server/internal/repository/repository.go:936-978 | rows that differ only in the time of their last finish have the same reports |
| `UsageLedger.RowTold` | apps/server/internal/repository/repository.go:777-810 | after any calls a key has a row if and only if it was started; the columns are those of its first start, of the last finish since, and of whichever named a model last |
| `UsageReport.LinesTold` | apps/server/internal/repository/repository.go:936-978 | every line of a report has the number, the tokens and the cost of the successful attempts in the table that the filter takes and that have its four columns; no two lines have the same columns, and every such attempt is on a line |
| `UsageReport.ReportTold` | apps/server/internal/repository/repository.go:936-978 | over all lines: the number of successful attempts that the filter takes, their tokens and their cost |
| `UsageReport.RefusedExactly` | apps/server/internal/repository/repository.go:936-978 | there is no report if and only if some such attempt has no price in force, and neither has any other on its line |
| `UsageReport.UncountedRowChangesNothing` | apps/server/internal/repository/repository.go:936-955 | an attempt that is not a success, or that the filter refuses, makes no difference to any report, wherever it stands and whatever it says |
| `Scheduler.OneBodyPerKey` | apps/server/internal/scheduler/scheduler.go:69-119 | over every interleaving of calls, restarts and outcomes at most one call per account and capability is past its claim, so at most one body runs |
| `Scheduler.RetryCountsFailures` | apps/server/internal/scheduler/scheduler.go:122-158 | the retry count is the number of failures written since the last success; interruptions and restarts are not counted |
| `Scheduler.MarkingFreesKeys` | apps/server/internal/repository/repository.go:737-744 | once leftovers are marked, a row is busy only while a live call works on it, so nobody is turned away by a dead process's row |
| `Scheduler.RefusedOnlyWhileHeld` | apps/server/internal/scheduler/scheduler.go:77-93 | a key is in flight if and only if a live call holds it |
| `Scheduler.LooksExactly` | apps/server/internal/scheduler/scheduler.go:90-93 | a call goes on after looking if and only if no row says that its key is pending or running; otherwise it leaves |
| `Scheduler.OneCallSucceeds` | apps/server/internal/scheduler/scheduler.go:69-133 | from every reachable state a call whose key is free can run its body to the end, and one that works leaves its row successful with no failures, and the key free |
| `Scheduler.OneCallFails` | apps/server/internal/scheduler/scheduler.go:69-158 | one that fails leaves its row failed with one more failure than those since the last success, and the key free |
| `Scheduler.CallsGoForward` | apps/server/internal/scheduler/scheduler.go:69-158 | every step of a call brings it nearer to its answer, of which it is at most eight steps away |
| `Scheduler.CallsNeverStick` | apps/server/internal/scheduler/scheduler.go:69-158 | and until it has answered a next step is possible |
| `Scheduler.OutcomeReachesItsRow` | apps/server/internal/repository/repository.go:702-708 | an outcome, written by job id, reaches its own row and no other |
| `Scheduler.StepKeepsInv` | apps/server/internal/scheduler/scheduler.go:69-158 | every step keeps the invariant over rows, in-flight keys and calls |
| `Scheduler.BackoffMeaning` | apps/server/internal/scheduler/scheduler.go:161-170 | for a base of at most five minutes the delay is the smaller of five minutes and the base doubled once per retry, at most five times |
| `Scheduler.MonotoneExactly` | apps/server/internal/scheduler/scheduler.go:161-170 | delays never shrink with more failures if and only if the base is between zero and five minutes |
| `CodexQuota.SplitWindowField` | apps/server/internal/quota/codex.go:83-90 | the loop finds the one way to split a name, if there is one |
| `CodexQuota.SuffixUnambiguous` | apps/server/internal/quota/codex.go:17-24 | no name ends in two of the field suffixes |
| `CodexQuota.ApplyField` | apps/server/internal/quota/codex.go:93-125 | one valid value is written to its field, an invalid one leaves the snapshot and gives a warning |
| `CodexQuota.ParseCodexQuotaHeaders` | apps/server/internal/quota/codex.go:29-80 | the result is that of some order in which the map may be iterated, and with distinct normalized names that of every order; none if and only if no header has the prefix |
| `CodexQuota.OrderIrrelevantExactly` | apps/server/internal/quota/codex.go:37-67 | all orders of the headers give the same result if and only if no two headers write different values to one field |
| `CodexQuota.EveryOrderAgrees` | apps/server/internal/quota/codex.go:37-67 | with distinct normalized names every order gives the same result, warnings as a multiset |
| `CodexQuota.ResultIndependent` | apps/server/internal/quota/codex.go:29-80 | and hence the same plan, limit and snapshot list |
| `CodexQuota.FieldIsLastWrite` | apps/server/internal/quota/codex.go:93-125 | every value is what the last header for its field gave; a value no header gave stays unknown |
| `CodexValues.UsedTold` | apps/server/internal/quota/codex.go:93-100 | with distinct normalized names a window shows a percentage if and only if the header named x-codex-, window, -used-percent reads as it and it lies in [0, 100] or is NaN |
| `CodexValues.MinutesTold` | apps/server/internal/quota/codex.go:101-106 | likewise its minutes, if positive |
| `CodexValues.ResetAfterTold` | apps/server/internal/quota/codex.go:107-112 | likewise the seconds to its reset, if not negative |
| `CodexValues.ResetAtTold` | apps/server/internal/quota/codex.go:113-118 | likewise the time of its reset |
| `CodexValues.RawResetAtTold` | apps/server/internal/quota/codex.go:113-118 | the text of that header is kept if and only if it does not read as a time |
| `CodexValues.AllowedTold` | apps/server/internal/quota/codex.go:119-120 | whether requests are allowed is known if and only if the header says so in one of the words true, 1, yes, false, 0 and no |
| `CodexValues.ReachedTold` | apps/server/internal/quota/codex.go:121-122 | likewise whether the limit is reached |
| `CodexValues.WindowsTold` | apps/server/internal/quota/codex.go:56-66 | a window is listed if and only if some header with a value is named for one of its six fields |
| `CodexValues.WarningsTold` | apps/server/internal/quota/codex.go:93-125 | exactly the percentages, minutes and seconds that do not pass are warned about, once each |
| `CodexValues.PlanTold` | apps/server/internal/quota/codex.go:48-55 | the plan and the active limit are what their headers say |
| `CodexValues.FoundTold` | apps/server/internal/quota/codex.go:37-71 | there is no result if and only if no header has both a value and a name with the prefix |
| `CodexValues.RemainderTold` | apps/server/internal/quota/service.go:52-59 | from two headers to the stored snapshot: the percentage used, and, when requests are allowed, 100 less that |
| `CodexQuota.LessMeaning` | apps/server/internal/quota/codex.go:78-78 | the order of snapshot names is that of their first differing characters, a name before its extensions |
| `CodexQuota.Collect` | apps/server/internal/quota/codex.go:72-79 | the snapshots come in strict order of their names, one per window |
| `CodexQuota.ObservationToSnapshots` | apps/server/internal/quota/service.go:33-69 | known values are carried over, the remainder only when the window still allows requests |
| `CodexQuota.QuotasBounded` | apps/server/internal/quota/service.go:52-59 | from headers to stored snapshots: used is known if and only if some header of the window passed the range tests; used and remaining lie in [0, 100] and add up to 100 if and only if the last such value is not NaN |
| `CodexQuota.NanEscapes` | apps/server/internal/quota/codex.go:95-100 | a single header with the value NaN leads to a stored snapshot outside these bounds |
| `AccessSlots.Service.Acquire` | apps/server/internal/access/access.go:104-112 | fails when a positive maximum is reached, else takes a slot and gives a new handle |
| `AccessSlots.Service.Release` | apps/server/internal/access/access.go:113-121 | the first call gives the slot back, further calls do nothing |
| `AccessSlots.InUseIsLive` | apps/server/internal/access/access.go:104-128 | over every sequence of acquires and releases the count of a token is the number of its live handles |
| `AccessSlots.GuardNeverFalse` | apps/server/internal/access/access.go:117-119 | the first release of a handle always finds a positive count |
| `AccessSlots.NeverOverMax` | apps/server/internal/access/access.go:104-110 | with a fixed positive maximum no more handles than that are ever live |
| `AccessSlots.AcquireFailsExactly` | apps/server/internal/access/access.go:107-109 | with a fixed maximum an acquire fails if and only if it is positive and exactly that many handles are live |
| `AccessSlots.ReleaseTwice` | apps/server/internal/access/access.go:112-121 | releasing a handle again changes nothing, whatever came in between |

## Left out

- HTTP request decoding, JSON, headers, static files, configuration, logging, the command line and the front end: no
  run-level property. Events and bundles are modelled after decoding.
- The network, SQLite, the operating system's keychain, cryptography and random sources: upstreams are arbitrary
  results, tables are maps or lists with their unique constraints, states, account ids, job ids and response ids are
  fresh values where the code draws them at random. PKCE (RFC 7636 section 4) is part of the opaque code exchange.
- Fingerprints and creation times of secret references, zeroing of buffers, and collisions of in-memory slot strings
  that contain the separator.
- Integer widths: tokens, prices and durations are unbounded integers. Floating-point rounding: scores, percentages and
  latencies are exact reals, and only quota percentages also know infinities and NaN.
- Timestamps are integers; RFC 3339 text and its second granularity are not modelled.
- Buffering of the readers, and cancellation of a context while a body is read, which is one way in which a body ends
  with a failed read. Usage figures in the batch form of an Anthropic answer.
- FlowCompletion: the flows of one provider, with its store of states. Any flow may have a listener; that only one can
  hold the port at a time is not modelled. The listener's five-minute timeout and an unregistered provider appear only as
  completions that do not happen, and the error texts kept in a flow are not modelled.
- AccountRows: a refresh with all who join it is one action (`SingleFlight.RefreshIsAtomic`), slots are numbered along the
  rotation chain (`Vaults.ChainSlotsDistinct`), and storing and deleting secrets works; what their failures do is part of
  `Vaults` and `SingleFlight`. Replacing the credential by hand (apps/server/internal/api/api.go:495) is not modelled.
- SessionStore.Store.Valid: the order of clock readings is taken to be the order of the critical sections.
- ResponsesLoop.HandleResponses: a body whose model field cannot be rewritten ends the loop before anything is asked and
  is not modelled, nor is the usage record; a client whose write fails is one more failure of the candidate.
- AnthropicStream.CutAnywhere: the JSON decoder is a parameter, of which it is required that it rejects proper prefixes of
  an event's data. Spaces are the ASCII ones.
- StreamTranslator.StreamEqualsBatch: needs a non-empty stop reason, as the stream form reports truncation otherwise
  while the batch form answers stop.
- HealthEngine.Engine.Observe: the window records, shared by pointer in the code, are values in the map.
- Router.Recorder.Start: the attempt recorder either works or is absent; the figures it is given are not modelled.
- Thresholds of the health engine and candidate weights: the code never reads them.
- UsageLedger.Store.AggregateUsage: grouping is by the four columns that its only caller uses, and the order of lines is
  that of first appearance.
- UsageLedger.Store.CreateAttempt: row ids and price version ids are taken to be unique; restart marking of started
  attempts is not modelled.
- UsageLedger.FinishAgain: not claimed after a different payload for the same attempt, whose values the repeated call
  would replace; `UsageLedger.FinishIdleExactly` is the exact condition.
- Scheduler.RetryCountsFailures: reads and outcome writes of job rows succeed (an insert may fail); a read error would
  restart the count and a lost write would drop an outcome. Timestamps and error codes of rows, and the last success,
  are not modelled. Keys are pairs rather than joined strings.
- CodexQuota.ParseCodexQuotaHeaders: trimming, lower-casing and the parsing of numbers and times are parameters; the
  collection time and warning wording are left out, and snapshots, updated by pointer in the code, are values in a map.
- AccessSlots.Service.Release: a release closure is a numbered handle with the flag of its sync.Once.
- Gemini translation, billing adapters, reconciliation, the capability matrix, CRUD endpoints, the mapping of errors to
  HTTP answers, migrations, request authorization and redaction: they keep no state between calls and have no property
  beyond their own tables.
