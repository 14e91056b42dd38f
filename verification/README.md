# Verified model of the gateway's conversation and concurrency core

This project models, in Dafny, the decision logic and the lock-protected state of an OpenAI-compatible gateway in front
of a chat service, and proves what that logic is for. It has two halves.

**Conversation integrity.** A request is a list of messages. `Conversation` has the message and the notion of two
glued messages that must not be cut apart. `Anthropic` translates a request into messages, `ToolState` checks the tool
protocol, `Atoms` cuts the conversation into indivisible atoms and `ContextWindow` fits these to a token budget;
`Truncation`, `TruncationLimits`, `AnthropicLimits` and `Pipeline` hold the theorems across these files, and
`WindowMeaning` and `AnthropicMeaning` say what window and translation mean for the messages themselves. `SessionKeys`
and `SessionResolver` match a request against stored histories to decide which cloud conversation continues it and
from where; `SessionOutcomes` says what a bind records and how it is found and deleted, and `SuffixResumes` which
requests a match by suffix may harm. `Ledger` finds stuck tool loops, and `LedgerEvidence` says what it knows about a
conversation that passed the tool protocol check. `StreamText` reconciles fragments, snapshots and the final message
of an answer, `ResponsesStream` re-emits an answer as Responses events, `ResponsesMeaning` compares these with the
lines, and `ResponseChain` stores answers for one continuation each.

**Concurrency protocols.** `AccountConcurrency` (semaphore with a broadcast channel), `Persist` (dirty flag),
`TokenRefresh` (single flight), `ConnPool` (pre-dialled connections), `AccountHealth` (cooldowns and global circuit)
and `ProxyPool` (rotation). Each critical section is one atomic step of a state machine, any number of threads
interleave, and the theorems are about every reachable state. The object with the fields of the source is a class
beside it, whose methods are proved to make exactly these steps.

Where the source loops over state, a method with the same loop is proved equal to a specification function or relation,
and the lemmas are about that specification. Map iteration order and ties are left open, so the theorems hold for every
order.

## What the proofs found

- The window's fallback keeps an atom it also reports as dropped, over budget; conservation and the budget bound hold
  exactly when it is not taken (`ContextWindow.FallbackExactly`, `WindowConserves`, `WindowWithinBudget`).
- Truncation is safe for the tool protocol exactly when results are adjacent; the protocol check does not ask for that
  (`TruncationLimits.TruncationSafeExactly`). Which Anthropic requests are safe is said turn by turn
  (`AnthropicLimits.TranslationIsValidExactly`, `Pipeline.TranslatedThenTruncatedExactly`).
- A suffix match reports the number of messages that agree at the end, while the caller skips that many at the front.
  These can be messages the history has nowhere (`SuffixResumes.SuffixMatchSkipsNewMessages`). A request is safe from
  that exactly if its last messages contain as many of its first ones, for every number a match can have
  (`SessionKeys.LeftOutAreKnownExactly`, `SuffixResumes.FrontKnownExactly`). What is skipped is what the history ends
  with only for at most two messages or messages that are all alike (`SessionKeys.SuffixCoversFrontExactly`).
- A tool call answered with a blank result passes the protocol check and then stops the turn as pending
  (`LedgerEvidence.PendingMeansBlankAnswer`), and the configurable failure limit decides nothing beyond 1
  (`Ledger.FailureLimitIsMoot`).
- The completion frame's notice checks are described as a guard against frame-order anomalies; no order of frames makes
  them fire (`StreamText.CompletionNoticeChecksAreDead`). A diverging snapshot garbles the streamed text
  (`StreamText.SnapshotExactly`).
- A Responses answer with text and calls announces a message item and never finishes it
  (`ResponsesStream.MessageLeftOpenExactly`).
- A failed request uses up the response it continued (`ResponseChain.FailedRequestUsesUpItsParent`).
- A pending flush that finds the store clean can return before the data is on disk, because of an operation under way of
  one of five kinds (`Persist.BreaksExactly`); one that writes is durable (`Persist.WrittenFlushIsDurable`).
- A pooled connection can be handed out without channels (`ConnPool.HandedOutWithoutChannels`) or after its reader has
  panicked (`ConnPool.PooledButDeadExactly`), and a closed pool is refilled exactly if a Warm that began before the close
  still publishes (`ConnPool.ClosedPoolRefillsExactly`).
- Single flight does not make refresh tokens single use. Two refreshes of an account send the same token exactly if none
  was stored between the two reads of the account, which come before the callers join
  (`TokenRefresh.SameTokenExactly`); a refused token is sent again by the next caller
  (`TokenRefresh.RefusedTokenIsSentAgain`).
- A milder failure shortens a longer cooldown, a ban included (`AccountHealth.FailureShortensExactly`,
  `AccountHealth.LaterFailureLiftsBan`).

## Abstractions

- A role is one of five names spelled exactly, another spelling that trims and lower-cases to one of them, or foreign:
  as far as the code tells roles apart. Content is its extracted text and its serialized form.
- Token counts are an arbitrary natural function of the message, for window and atoms alike.
- Keys joined with a NUL are pairs; the tenant is a hex hash or a fixed word, so the join is injective. The ledger's
  signatures, which join name, arguments and failure text the same way, are tuples too: a NUL inside a name or an
  argument is excluded.
- Text heuristics (failure words, notice wording, result compaction, similarity, address parsing) are arbitrary
  functions, and error categories are inputs. Writes and dials succeed or fail arbitrarily.
- Each critical section reads the clock once. Fresh ids (UUIDs, connections, requests) are parameters.
- A refresh is answered for the account it was sent for, and a refresh token that upstream or a user gives is one the
  account cache has not seen before. The clock of `TokenRefresh` counts steps.

## Model

| member | source | states |
|---|---|---|
| `Atoms.ScanAtom` | internal/web/context_budget.go:68-126 | One round of the scan returns the atom that starts at that message: a maximal glued run with its exact cost |
| `Atoms.BuildAtoms` | internal/web/context_budget.go:62-134 | The scan and the anchor loop compute the atoms of the conversation |
| `Atoms.RunIsMaximal` | internal/web/context_budget.go:75-83 | A run only contains glued messages and ends at a boundary |
| `Atoms.AtomsTile` | internal/web/context_budget.go:62-134 | Concatenating the atoms gives back the messages; Start and End are contiguous; each token count is the exact sum |
| `Atoms.AtomsNonEmpty` | internal/web/context_budget.go:62-134 | No atom is empty, and there are none exactly for the empty conversation |
| `Atoms.AtomEndsAreBoundaries` | internal/web/context_budget.go:68-126 | An atom ends in front of message n if and only if messages n-1 and n are not both system and not a result after a call or another result |
| `Atoms.NoBoundaryInside` | internal/web/context_budget.go:68-126 | No cut strictly inside an atom is a boundary |
| `Atoms.AtomStartingAt` | internal/web/context_budget.go:68-126 | At every boundary an atom starts |
| `Atoms.AtomsCompose` | internal/web/context_budget.go:62-134 | Cutting at a boundary is local: the atoms of xs + ys are those of xs followed by those of ys, shifted, with one anchor mark between them |
| `Atoms.AnchorIsFirstUser` | internal/web/context_budget.go:127-132 | There is at most one anchor, and it is the first atom started by a user or unknown role |
| `Atoms.EstimateCountsAll` | internal/web/context_budget.go:28-48 | A message is estimated at four tokens and those of its role, name, call id, content and calls, but at least one |
| `ContextWindow.TrailingTools` | internal/web/context_budget.go:190-199 | The indices of the trailing run of tool atoms, and no others |
| `ContextWindow.PinnedSum` | internal/web/context_budget.go:179-223 | The pinned atoms are the system atoms, the anchor and the trailing tool run, and their sum is exact |
| `ContextWindow.FillRemaining` | internal/web/context_budget.go:213-236 | The newest-first fill selects and drops exactly what the specification says, the dropped messages newest atom first |
| `ContextWindow.FillAndCollect` | internal/web/context_budget.go:213-249 | Fill, collection and last-atom fallback produce the specified window |
| `ContextWindow.SlidingWindowDetailed` | internal/web/context_budget.go:163-250 | The whole call computes the specified outcome, the non-positive budget, the overflow and the fallback included |
| `ContextWindow.FallbackExactly` | internal/web/context_budget.go:244-248 | The last-atom fallback is taken exactly when nothing is pinned and no single atom fits |
| `ContextWindow.WindowConserves` | internal/web/context_budget.go:163-250 | Kept and dropped messages partition the conversation as multisets, and the kept and dropped tokens add up to those of the conversation, each if and only if the fallback is not taken |
| `ContextWindow.WindowWithinBudget` | internal/web/context_budget.go:163-250 | The kept tokens plus the protocol overhead of 7 are within the budget if and only if the fallback is not taken |
| `ContextWindow.WindowKeepsPinsAndIsMaximal` | internal/web/context_budget.go:179-243 | Whole atoms are kept in order, every pinned one among them; truncated is reported exactly when an atom is left out; and no atom left out could be added back |
| `ContextWindow.WindowFailsExactly` | internal/web/context_budget.go:200-212 | The call fails if and only if the pinned atoms alone exceed the budget |
| `ContextWindow.UserMessagePins` | internal/web/context_budget.go:127-132 | With a user message present the fallback cannot happen |
| `WindowMeaning.WindowMeans` | internal/web/context_budget.go:62-250 | The whole outcome in terms of messages and roles: everything if cost plus 7 is within the budget (1024 unless positive); an error with the need of the system and developer messages, the first message that is neither these nor tool nor assistant, and the calls and results at the end, if that alone is over it; otherwise these and, from the newest unbreakable piece to the oldest, each piece there is room for; and what is dropped, newest piece first |
| `WindowMeaning.SystemAndTaskSurvive` | internal/web/context_budget.go:179-223 | Whatever the budget, no system or developer message, first asking message, or message of the calls and results at the end is dropped without an error |
| `ToolState.OpenEach` | internal/web/tool_state.go:23-32 | The call loop opens the calls of one turn, or complains about the first offending id |
| `ToolState.ValidateToolConversation` | internal/web/tool_state.go:8-50 | The verdict names the first message the automaton refuses and why, or an id left open, or accepts |
| `ToolState.VerdictDecides` | internal/web/tool_state.go:8-50 | No conversation is both accepted and refused |
| `ToolState.OpenExactly` | internal/web/tool_state.go:23-32 | Calls open if and only if their ids are non-empty, distinct and new; then exactly these become pending |
| `ToolState.AcceptsExactlyTheProtocol` | internal/web/tool_state.go:8-50 | The pending and completed automaton accepts exactly the conversations in which each turn uses new, distinct ids and is answered by a permutation of them before the next turn |
| `ToolState.FirstRoleMeans` | internal/web/tool_state.go:8-14 | A conversation is refused for its first role if and only if that is none of system, developer, user and assistant |
| `ToolState.ReasonMeans` | internal/web/tool_state.go:17-50 | Each reason names what is wrong with the message it is given for, and of a turn the first call that cannot be opened |
| `Truncation.TruncationKeepsProtocol` | internal/web/context_budget.go:163-250 | For every cost and every budget on which the window succeeds, an accepted conversation with adjacent results stays accepted and adjacent, the fallback included |
| `Truncation.RestIsWellFormedExactly` | internal/web/server.go:2612-2613 | What is left of such a conversation behind any number of messages is accepted and adjacent if and only if it does not start with a tool result |
| `TruncationLimits.TruncationSafeExactly` | internal/web/context_budget.go:163-250 | Over the five roles and for every cost of at least 1 per message, what the window keeps is accepted at every budget if and only if the conversation is accepted and every result directly follows its call or a sibling result |
| `TruncationLimits.BreakingBudget` | internal/web/context_budget.go:224-236 | For every accepted conversation without that adjacency, and whatever its messages cost, a budget on which the kept messages are refused |
| `TruncationLimits.GatewayTruncationSafeExactly` | internal/web/context_budget.go:32-48 | The same for the cost function of the gateway, over any text counter |
| `Anthropic.TranslateBlocks` | internal/web/protocol_compat.go:193-240 | The block loop emits results at once and gathers text and calls into one message behind them |
| `Anthropic.OpenAI` | internal/web/protocol_compat.go:172-241 | The message translation, which fails exactly on a turn whose content is neither text nor a list |
| `Anthropic.TranslationIsValid` | internal/web/protocol_compat.go:172-260 | If each turn answers exactly the calls of the turn before it and all call ids are non-empty and distinct, the translation passes the tool protocol check with every result adjacent |
| `AnthropicMeaning.TurnCarries` | internal/web/protocol_compat.go:185-240 | The messages of a turn are its tool results with id and content, in order, and then at most one of its own role, with all its calls (id, name, input) and all its text and usable images, in order |
| `AnthropicMeaning.TranslationCarriesAll` | internal/web/protocol_compat.go:172-240 | Read back in order, the calls of the whole translation are the tool_use blocks and its tool messages the tool_result blocks, in their places; the system prompt comes first |
| `AnthropicLimits.TranslationIsValidExactly` | internal/web/protocol_compat.go:172-260 | The translation passes the tool protocol check with every result adjacent if and only if call ids are non-empty and distinct and each result answers, once, a call of the latest turn with a body, all of them before the next body or the end |
| `AnthropicLimits.NextTurnIsInTime` | internal/web/protocol_compat.go:172-260 | Answering each call in the turn right after it is one way to do so |
| `Pipeline.TranslatedThenTruncated` | internal/web/protocol_compat.go:172-260 | End to end: whatever window is cut from the translation of such a request still passes the check |
| `Pipeline.TranslatedThenTruncatedExactly` | internal/web/protocol_compat.go:172-260 | And only of such a request, for every cost of at least 1 per message: any other loses its protocol at some budget |
| `Pipeline.PrefixResumeKeepsProtocol` | internal/web/server.go:2604-2619 | The messages sent after a resume by prefix of an accepted request with adjacent results are accepted and adjacent themselves |
| `SessionKeys.CompareMessages` | internal/web/session_resolver.go:509-532 | The comparison is equality of role, text, presence of a call list and calls up to their ids |
| `SessionKeys.EqualMeans` | internal/web/session_resolver.go:509-532 | Two messages are equal if and only if they are the same once names, ids and serialized content are taken off |
| `SessionKeys.ContextPrefixLen` | internal/web/session_resolver.go:476-503 | The whole history length when the request replays it up to an atom boundary, and 0 otherwise |
| `SessionKeys.SuffixMatchLen` | internal/web/session_resolver.go:403-417 | The length of the longest common suffix |
| `SessionKeys.SuffixAgrees` | internal/web/session_resolver.go:403-417 | That suffix agrees message by message and cannot be longer |
| `SessionKeys.SuffixCoversFrontExactly` | internal/web/session_resolver.go:257-271 | The messages that a partial suffix match makes the caller leave out are the last ones of the history, for every history if and only if the request has at most two messages or all its messages are alike |
| `SessionKeys.LeftOutAreKnownExactly` | internal/web/session_resolver.go:257-271 | They are somewhere in the history, for every history if and only if the last n messages of the request contain its first n, for each n from two up to all but one |
| `SessionKeys.CloneMessages` | internal/web/session_resolver.go:676-706 | A history over 512 messages is cut at the earliest boundary that leaves at most 512, or in front of the last atom |
| `SessionResolver.Resolver.DropOne` | internal/web/session_resolver.go:152-168 | Deletes a binding and the index entry of its explicit id |
| `SessionResolver.Resolver.Store` | internal/web/session_resolver.go:117-122 | Stores a binding under its session id and indexes its explicit id |
| `SessionResolver.Resolver.Evict` | internal/web/session_resolver.go:132-150 | Expired bindings go; then least recently used ones, exactly as many as the limit asks |
| `SessionResolver.Resolver.FindConversation` | internal/web/session_resolver.go:554-561 | Finds any binding of this tenant for the conversation, whatever the map order, or shows there is none |
| `SessionResolver.Resolver.FindExplicit` | internal/web/session_resolver.go:217-219 | Follows the explicit index to a live binding of the same tenant only |
| `SessionResolver.Resolver.Bind` | internal/web/session_resolver.go:534-604 | Binds in place or anew after eviction, as the relation BindStep says, and keeps the index invariant |
| `SessionResolver.Resolver.Match` | internal/web/session_resolver.go:422-448 | The best eligible binding, by score and then by recency, for every map order |
| `SessionResolver.Resolver.Resolve` | internal/web/session_resolver.go:208-293 | Explicit id, then prefix, then suffix, then similarity, as the relation ResolveStep says, keeping the index invariant |
| `SessionResolver.Resolver.DeleteSession` | internal/web/session_resolver.go:640-650 | Drops exactly the binding the tenant-scoped lookup finds |
| `SessionResolver.Resolver.UnbindByConversation` | internal/web/session_resolver.go:655-674 | Drops exactly the bindings of the conversation, for every tenant, and counts them |
| `SessionResolver.BindKeeps` | internal/web/session_resolver.go:563-603 | Binding keeps every other live binding reachable by its explicit id |
| `SessionResolver.ExplicitIdsUnique` | internal/web/session_resolver.go:117-122 | No two live bindings of a tenant share an explicit id |
| `SessionResolver.RunsKeepIndexAndOwners` | internal/web/session_resolver.go:117-169 | After any run from empty every live binding is the one the explicit index gives, and was bound by its own tenant |
| `SessionResolver.TenantsGetOnlyTheirOwn` | internal/web/session_resolver.go:208-293 | Whatever conversation and account a resolve returns, that tenant bound it before |
| `SessionResolver.ReplayResumesExactly` | internal/web/session_resolver.go:422-503 | A request that replays an eligible history resumes at the maximum prefix over all eligible bindings, at least that history, at an atom boundary, whatever the map order |
| `SessionResolver.NewestSurvives` | internal/web/session_resolver.go:132-150 | Eviction spares a live binding within the limit, and the most recently used one beyond it |
| `SessionResolver.BoundTurnResumes` | internal/web/session_resolver.go:534-604 | Bind a turn with its reply, then send it all again with more: the request resumes behind what was bound |
| `SessionOutcomes.BindRecords` | internal/web/session_resolver.go:534-603 | A bind records conversation, account, tenant, fingerprint, time, history and explicit id on one binding, the one that stands for the explicit id or the conversation if there is one, and leaves the others alone |
| `SessionOutcomes.BoundIsFoundById` | internal/web/session_resolver.go:208-232 | End to end: a turn bound under an explicit id, on a new or an updated binding, is found by that id within the ttl while it is not evicted, with the conversation, the account and the length of the history that were bound |
| `SessionOutcomes.ResolveAnswersOneBinding` | internal/web/session_resolver.go:208-293 | A resume answers what one binding of the tenant holds, by content only a recent one of the same fingerprint, and marks that one as used; a new session changes nothing |
| `SessionOutcomes.LongestThenNewest` | internal/web/session_resolver.go:422-448 | A match by content is with the longest agreement among the tenant's recent bindings of the same fingerprint, at the start or else at the end, and among equals with one used last |
| `SessionOutcomes.ExpiredIsGone` | internal/web/session_resolver.go:132-150 | A binding not used for longer than the ttl is gone at the next resolve and never answered |
| `SessionOutcomes.DeleteSparesOthers` | internal/web/session_resolver.go:596-650 | A delete never touches a session of another tenant |
| `SessionOutcomes.DeleteRemovesExactly` | internal/web/session_resolver.go:596-650 | It removes the tenant's session of that id, or else the one its explicit index gives, and no other |
| `SessionOutcomes.DropRemovesExactly` | internal/web/session_resolver.go:152-168 | Dropping removes the given bindings and the index entries of their explicit ids, and nothing else |
| `SuffixResumes.SuffixMatchSkipsNewMessages` | internal/web/session_resolver.go:257-271 | After one bind of x with the reply y, a resolve whose suffix match makes the caller leave out two messages that are nowhere in the history |
| `SuffixResumes.FrontKnownExactly` | internal/web/session_resolver.go:257-271 | In every run from empty the messages a suffix resume of the request leaves out are somewhere in the resumed history, if and only if the last n messages of the request contain its first n, for each such n for which the last n can be a stored history |
| `SuffixResumes.FrontAtEndExactly` | internal/web/session_resolver.go:257-271 | In every run they are the last ones of that history, if and only if the last n messages of the request are alike to its first n, one by one, for each such n |
| `SuffixResumes.ShortFrontAtEndExactly` | internal/web/session_resolver.go:257-271 | For requests of up to 513 messages that is: at most two messages, or all alike |
| `SuffixResumes.HistoriesAreBounded` | internal/web/session_resolver.go:534-706 | After any run from empty a live history is no longer than 512 messages and perhaps a reply, unless it has no boundary to cut it at |
| `AccountConcurrency.Limiter.Available` | internal/web/account_concurrency.go:23-30 | Whether the account has room |
| `AccountConcurrency.Limiter.TryAcquire` | internal/web/account_concurrency.go:36-57 | One locked round of Acquire: a slot and a fresh release handle if and only if there is room, else the current channel |
| `AccountConcurrency.Release.Run` | internal/web/account_concurrency.go:42-53 | The first run gives the slot back and replaces the channel; any later run changes nothing |
| `AccountConcurrency.NeverOverLimit` | internal/web/account_concurrency.go:32-64 | In every interleaving the counter is the number of unreleased holders and never exceeds the limit |
| `AccountConcurrency.NoLostWakeup` | internal/web/account_concurrency.go:50-62 | While an account has room, the channel of every call waiting for it is closed |
| `AccountConcurrency.EveryoneCanFinish` | internal/web/account_concurrency.go:32-64 | From every reachable state with a positive limit there is a continuation without cancellation in which every call gets and returns a slot |
| `AccountConcurrency.NoLimitNoHolder` | internal/web/account_concurrency.go:36-57 | With a limit of zero or less nobody ever holds a slot |
| `AccountConcurrency.RoomMeans` | internal/web/account_concurrency.go:23-46 | In every interleaving there is room if and only if fewer calls hold a slot than the limit |
| `Persist.NoLostWrite` | internal/web/persist.go:20-58 | Whenever no operation is in progress and the store is not dirty, the file equals memory, whatever writes failed |
| `Persist.BehindMeansInProgress` | internal/web/persist.go:20-58 | A clean store whose file is behind has an operation under way that will write memory or mark it again |
| `Persist.FileNeverGoesBack` | internal/web/persist.go:27-58 | Overlapping flushes never replace a newer file by an older one |
| `Persist.WrittenFlushIsDurable` | internal/web/persist.go:27-58 | After a flush, pending or blocking, has written without error the file holds, for good, at least what memory held at the call |
| `Persist.ChangesBeforeAFlushAreOnFile` | internal/web/persist.go:20-58 | In terms of the run: every change made before the call of a flush that wrote is on file, for good, from its return on |
| `Persist.SkippedFlushIsDurable` | internal/web/persist.go:27-32 | A pending flush that returns at once is as durable if no operation under way has an unmarked change or holds back the dirty mark |
| `Persist.BreaksExactly` | internal/web/persist.go:20-58 | A single operation under way can make such a flush return with the file behind if and only if it has changed memory and not marked it, or has taken the mark and neither written memory as it is now nor given the mark back |
| `Persist.PendingFlushMayReturnEarly` | internal/web/persist.go:27-32 | A reachable state in which a pending flush has returned at once although the file is behind |
| `Persist.Store.MarkDirty` | internal/web/persist.go:20-25 | Sets the flag |
| `Persist.Store.FlushPending` | internal/web/persist.go:27-43 | Undisturbed: writes memory if dirty, and is dirty again after a failure |
| `Persist.Store.FlushNowBlocking` | internal/web/persist.go:45-58 | Undisturbed: writes memory, reports a failure and is dirty again |
| `Persist.AloneFlushIsTheMethod` | internal/web/persist.go:27-58 | The five critical sections of a flush, run without interference, do what the method does: they leave the store clean with its memory on file, or dirty with the file as it was |
| `Ledger.CollectEvidence` | internal/web/agent_ledger.go:70-96 | The evidence map and call order of the conversation |
| `Ledger.ScanEvidence` | internal/web/agent_ledger.go:97-162 | The one-pass counters decide runs: stuck, repeated call and repeated failure hold if and only if the runs exist; completed and pending are the calls with and without a result, in order |
| `Ledger.BuildAgentLedger` | internal/web/agent_ledger.go:69-163 | The ledger of a conversation describes its collected evidence in terms of runs |
| `Ledger.LedgerPartitions` | internal/web/agent_ledger.go:134-137 | Completed and pending partition the calls |
| `Ledger.SameCountIsRun` | internal/web/agent_ledger.go:115-126 | The call counter reaches n if and only if the last n calls agree in name, arguments and non-empty result |
| `Ledger.FailCountIsRun` | internal/web/agent_ledger.go:138-160 | The failure counter reaches n if and only if the last n completed calls failed alike |
| `Ledger.ContinuesExactly` | internal/web/agent_ledger.go:226-243 | A turn may continue if and only if rounds are left, every result is non-empty, no call run reaches its limit and no two consecutive completed calls fail alike |
| `Ledger.FailureLimitIsMoot` | internal/web/agent_ledger.go:233-238 | The failure limit decides nothing once it is two or more |
| `Ledger.OrderIsCallOrder` | internal/web/agent_ledger.go:73-90 | The evidence is in the order of the calls in the conversation |
| `Ledger.SignatureMeans` | internal/web/agent_ledger.go:115-160 | The reported signature is that of the last call that repeats the one before it, or fails as the last completed one did |
| `Ledger.RefusalMeans` | internal/web/agent_ledger.go:226-243 | What a refusal says: rounds used up (32 by default), else a stuck loop, else a repeated failure, else a missing result |
| `Ledger.ActiveMessages` | internal/web/agent_ledger.go:280-291 | The part from the last user message on |
| `LedgerEvidence.AcceptedEvidence` | internal/web/agent_ledger.go:70-96 | In any last part of a conversation that passed the tool protocol check every call has exactly the evidence of its own answer |
| `LedgerEvidence.PendingMeansBlankAnswer` | internal/web/agent_ledger.go:134-135 | In a checked conversation a call counts as pending if and only if its answer is blank |
| `StreamText.CommonPrefixLen` | internal/chathub/client.go:211-222 | The length of the longest common prefix |
| `StreamText.Reconciler.EmitDelta` | internal/chathub/client.go:642-663 | Appends and delivers a delta; an empty one or a cancelled request changes nothing |
| `StreamText.Reconciler.EmitSnapshot` | internal/chathub/client.go:706-741 | Emits the unseen part of a snapshot, its tail after an overlap, or nothing |
| `StreamText.Reconciler.Handle` | internal/chathub/client.go:958-973 | Fragments append once text exists; snapshots and the result message are reconciled and checked |
| `StreamText.Reconciler.FinalizeText` | internal/chathub/client.go:1244-1259 | Keeps the streamed text, emits the missing tail, or falls back to the final message |
| `StreamText.Reconciler.Complete` | internal/chathub/client.go:1165-1196 | The completion frame: last notice checks, finalizing, empty and policy errors |
| `StreamText.SnapshotExactly` | internal/chathub/client.go:722-740 | A snapshot becomes the text if and only if it extends it; it changes nothing if and only if it is no longer or differs from the first byte; otherwise its tail lands behind the diverged text |
| `StreamText.StreamsExactly` | internal/chathub/client.go:706-741 | From fragments that extend and snapshots that are prefixes or extensions, the deltas concatenate to exactly the upstream text after every event |
| `StreamText.CompletionAgreesExactly` | internal/chathub/client.go:1244-1259 | The streamed and the returned text agree if and only if the final message is no longer than the streamed text or extends it |
| `StreamText.AnswerIsConsistent` | internal/chathub/client.go:958-1259 | End to end: client stream and returned text are the same, the longer of upstream text and final message |
| `StreamText.NoticeNeverStreamsFirst` | internal/chathub/client.go:673-721 | A rate-limit, image-limit or policy notice is never the first text streamed, whatever upstream sends |
| `StreamText.CompletionNoticeChecksAreDead` | internal/chathub/client.go:1168-1187 | The notice checks of the completion frame can never fire |
| `StreamText.CompletionMeans` | internal/chathub/client.go:1165-1196 | A completed request returns the longer of streamed text and final message, unless its last delta is not taken, there is no text, or the text is offensive or reported so |
| `StreamText.NoticeMeans` | internal/chathub/client.go:706-721 | Which notice ends a request, and when |
| `StreamText.DeliveryMeans` | internal/chathub/client.go:642-663 | How the caller takes a delta matters only if there is one: a cancelled request keeps its text, a failing handler has been given the delta |
| `StreamText.EventKeepsTheRest` | internal/chathub/client.go:706-741 | The final message is the last one sent, and a snapshot counts as skipped if and only if it is longer and differs from the first byte |
| `ResponseChain.ResponseStore.CheckOutputs` | internal/web/protocol_handlers.go:376-400 | The first tool output that is repeated or not pending, or missing outputs |
| `ResponseChain.OutputsFitExactly` | internal/web/protocol_handlers.go:376-400 | Outputs fit if and only if they are distinct, pending, and given exactly when calls are pending |
| `ResponseChain.ResponseStore.Take` | internal/web/protocol_handlers.go:348-406 | Refuses without a change, or consumes the response and returns its history |
| `ResponseChain.ResponseStore.Keep` | internal/web/protocol_handlers.go:475-497 | Drops what is over an hour old and an oldest one if the bucket is full, then stores |
| `ResponseChain.RunsKeep` | internal/web/protocol_handlers.go:346-499 | Every interleaving keeps: nodes carry their bucket's tenant and session, version 2 exactly when consumed, consumed exactly when some request continued it, at most 256 per bucket |
| `ResponseChain.OneChild` | internal/web/protocol_handlers.go:401-403 | A response has at most one stored child |
| `ResponseChain.ChildExtendsParent` | internal/web/protocol_handlers.go:403-411 | A child belongs to its parent's tenant and session and its history is the parent's and more |
| `ResponseChain.AncestorsAreEarlier` | internal/web/protocol_handlers.go:496-496 | Parent links are acyclic: the k-th ancestor was stored at least k earlier and its history, a prefix, is at least k shorter |
| `ResponseChain.ChainsDoNotBranch` | internal/web/protocol_handlers.go:496-496 | Responses with a common ancestor lie on one chain |
| `ResponseChain.ContinuableExactly` | internal/web/protocol_handlers.go:349-400 | A kept response is refused as consumed if and only if some request has continued it, else decided by its tool calls; the tenant and session checks never fire |
| `ResponseChain.AcceptsExactly` | internal/web/protocol_handlers.go:60-80 | Over reachable states and from the stored messages alone: a kept response accepts outputs if and only if nobody has continued it and they are distinct, for calls of its last message that have an id, and given exactly if there is one |
| `ResponseChain.ComplaintNamesTheFirst` | internal/web/protocol_handlers.go:376-400 | A complaint says what is wrong, and of the first output that is |
| `ResponseChain.RequestSendsOn` | internal/web/protocol_handlers.go:401-411 | A request that continues a response sends that response's messages and then its own |
| `ResponseChain.StoreKeepsYoung` | internal/web/protocol_handlers.go:458-497 | Storing keeps what was sent with the answer behind it, and of the others in the bucket all that are at most an hour old, but one oldest if there are 256 |
| `ResponseChain.KeptAsStored` | internal/web/protocol_handlers.go:496-496 | A kept response has the messages, time, parent, tenant and session it was stored with |
| `ResponseChain.HistoriesStayApart` | internal/web/protocol_handlers.go:346-411 | All histories behind a request are of its own tenant and session |
| `ResponseChain.FailedRequestUsesUpItsParent` | internal/web/protocol_handlers.go:401-424 | A reachable state in which a response without a child is refused because a failed request had continued it |
| `ResponsesStream.Adapter.HandlePart` | internal/web/protocol_handlers.go:181-222 | One tool-call part opens its item once and appends its arguments |
| `ResponsesStream.Adapter.Stream` | internal/web/protocol_handlers.go:144-297 | The adapter emits the specified events, or stops at the first line that finds the client gone |
| `ResponsesStream.LinesAgree` | internal/web/protocol_handlers.go:155-224 | After every line the emitted events say exactly what has been gathered |
| `ResponsesStream.CallEventsAgree` | internal/web/protocol_handlers.go:181-278 | Each call index is added once, before its deltas, and these concatenate to the arguments of its one done event |
| `ResponsesStream.DoneEventsAscend` | internal/web/protocol_handlers.go:254-278 | Done events come in ascending index order, and the output lists the same calls in that order |
| `ResponsesStream.OneTerminalLast` | internal/web/protocol_handlers.go:225-298 | A stream read to its end has exactly one terminal event, the last |
| `ResponsesStream.NoTerminalWhenCut` | internal/web/protocol_handlers.go:155-158 | A stream cut because the client is gone has none |
| `ResponsesStream.TextEventsAgree` | internal/web/protocol_handlers.go:279-290 | A text answer: deltas, done event and output carry the same text, and the late announcement branch is dead |
| `ResponsesStream.MessageLeftOpenExactly` | internal/web/protocol_handlers.go:173-180 | In an answer with calls the message item is announced if and only if there was text, and is never done |
| `ResponsesMeaning.OutputSaysTheCalls` | internal/web/protocol_handlers.go:181-278 | The output lists by ascending index the calls the lines mention, each with the last id, the whole name and the whole arguments given for it, and each is reported done as that item |
| `ResponsesMeaning.EndsAs` | internal/web/protocol_handlers.go:225-297 | How a stream ends, told from its lines: failed with the inner status or 502, empty, or completed with the calls or the text |
| `ResponsesMeaning.BeginsCreated` | internal/web/protocol_handlers.go:138-142 | Every stream begins with its creation event, and has only one |
| `ResponsesMeaning.AnnouncedAsMentioned` | internal/web/protocol_handlers.go:173-205 | Every item announced is the message, as item 0, or a call of the lines, as a custom tool's if and only if its first part says so |
| `AccountHealth.CooldownBounds` | internal/web/account_health.go:241-299 | Cooldowns lie between zero and a year; the quota backoff starts at 30 s, never shrinks with the attempts and stays at 30 min from the seventh |
| `AccountHealth.GlobalCircuit.IsOpen` | internal/web/account_health.go:311-322 | Open before openUntil; an opening that is over is forgotten |
| `AccountHealth.GlobalCircuit.Record` | internal/web/account_health.go:337-389 | Counts successes and transport failures in windows of 30 s and 1000 records, and trips at half of at least ten |
| `AccountHealth.AccountPool.Cleanup` | internal/web/account_health.go:442-463 | An account whose cooldown is over loses its flags and attempts |
| `AccountHealth.AccountPool.MarkFailure` | internal/web/account_health.go:642-765 | Each category's cooldown and flags |
| `AccountHealth.AccountPool.MarkSuccess` | internal/web/account_health.go:767-787 | A success clears the account but keeps a running image limit |
| `AccountHealth.AccountPool.MarkImageLimited` | internal/web/account_health.go:495-504 | A day of image limit and cooldown |
| `AccountHealth.AccountPool.Available` | internal/web/account_health.go:800-814 | Cleans up, then answers from circuit, flag and cooldown |
| `AccountHealth.AccountPool.ClearAllCooldowns` | internal/web/account_health.go:942-958 | Forgets every account and the circuit |
| `AccountHealth.RunKeeps` | internal/web/account_health.go:301-389 | Every run keeps: flags imply a cooldown entry; 0 <= failures <= total <= 1000; openUntil at most 30 s after the last counted record |
| `AccountHealth.AvailableExactly` | internal/web/account_health.go:800-814 | In every reachable state an account is available if and only if the circuit is closed and its cooldown is over; the authentication flag never adds anything |
| `AccountHealth.CircuitCloses` | internal/web/account_health.go:357-370 | 30 s after the last counted record the circuit is closed, however much traffic is rejected meanwhile |
| `AccountHealth.CircuitOpensExactly` | internal/web/account_health.go:311-389 | In half a minute of records after half a minute without any, the circuit is open if and only if it is within 30 s of a record with which ten or more were counted, half or more of them transport failures |
| `AccountHealth.AccountsRecover` | internal/web/account_health.go:442-463 | An account left alone is available again once its cooldown is over and the circuit was quiet for 30 s, within a year |
| `AccountHealth.SuccessFreesExactly` | internal/web/account_health.go:767-787 | After a success the account is available if and only if the circuit is closed and no image limit is running |
| `AccountHealth.FailureBlocksExactly` | internal/web/account_health.go:241-299 | After a failure the account is available again if and only if the circuit is closed and the seconds of its category are over, for quotas those upstream asked for or 30 doubled up to 1800 |
| `AccountHealth.FailureMarksExactly` | internal/web/account_health.go:642-765 | Which failures mark an account as limited or as failing authentication, which take the marks back, and how quota failures in a row are counted |
| `AccountHealth.FailureIsItsOwn` | internal/web/account_health.go:642-765 | A failure touches no other account |
| `AccountHealth.ImageLimitLastsADay` | internal/web/account_health.go:495-504 | An image limit keeps its account from images and from everything for a day |
| `AccountHealth.CleanupMeans` | internal/web/account_health.go:442-463 | From the moment a cooldown is over the account starts afresh; before that a look changes nothing |
| `AccountHealth.FailureShortensExactly` | internal/web/account_health.go:661-764 | A failure shortens a cooldown if and only if it marks the account and its own cooldown is less than what is left |
| `AccountHealth.FailureFreesExactly` | internal/web/account_health.go:661-814 | In every reachable state a failure makes an account available at some moment of its old cooldown if and only if it marks the account, cools it for less than is left, and the circuit is closed again before the old cooldown would end |
| `AccountHealth.LaterFailureLiftsBan` | internal/web/account_health.go:725-738 | A run of two failures in which a ban ends after 15 s because a request still under way then fails to connect |
| `ConnPool.Pool.WarmBegins` | internal/chathub/connpool.go:208-218 | A warm-up dials if and only if the pool is open and the key has fewer than two connections |
| `ConnPool.Pool.Take` | internal/chathub/connpool.go:154-181 | A closed pool refuses and is left as it is; an open one picks the first young connection of the key and takes stale ones off the list |
| `ConnPool.Pool.Publish` | internal/chathub/connpool.go:244-252 | Publishes a warmed connection if the key has fewer than two |
| `ConnPool.Pool.Evict` | internal/chathub/connpool.go:138-147 | Takes one connection off its list |
| `ConnPool.Pool.GC` | internal/chathub/connpool.go:285-305 | Collects exactly the connections past their time, under every key |
| `ConnPool.Pool.Close` | internal/chathub/connpool.go:316-329 | Empties the lists and marks the pool closed |
| `ConnPool.SiftPartitions` | internal/chathub/connpool.go:161-175 | Take's filter loses and doubles no connection |
| `ConnPool.SiftPicksFirstYoung` | internal/chathub/connpool.go:161-175 | It picks the first young one, keeps the others in order, and leaves nothing on a miss |
| `ConnPool.RunKeeps` | internal/chathub/connpool.go:85-335 | Every interleaving of warming, taking, reading, panicking, evicting, collecting and closing keeps the ownership invariant |
| `ConnPool.OwnedExactly` | internal/chathub/connpool.go:154-253 | A connection is pooled in exactly one list, once, or handed out, or retired; no list has more than two |
| `ConnPool.OwnersAreFinal` | internal/chathub/connpool.go:154-202 | A handed-out connection stays with that request: none is handed out twice |
| `ConnPool.MaintenanceSparesHandedOut` | internal/chathub/connpool.go:285-335 | GC and Close leave a handed-out connection as it is |
| `ConnPool.TakeGivesExactly` | internal/chathub/connpool.go:154-202 | In every reachable state a Take is handed the first connection in its key's list that is less than 300 s old, if any, and no other; the older ones of the list are retired and all others stay |
| `ConnPool.CollectRetiresExactly` | internal/chathub/connpool.go:285-311 | A collection retires the pooled connections more than 300 s old, and no others |
| `ConnPool.PublishAddsExactly` | internal/chathub/connpool.go:244-253 | A Warm adds its connection behind the others of its key if there are fewer than two |
| `ConnPool.ExitedReaderHasClosedFrames` | internal/chathub/connpool.go:85-136 | An exited reader has closed its frames, and only it closes those of a handed-out connection |
| `ConnPool.PooledButDeadExactly` | internal/chathub/connpool.go:91-98 | A connection still in its list has closed frames if and only if its park goroutine panicked |
| `ConnPool.ChannelsExactly` | internal/chathub/connpool.go:85-87 | In every run a connection has channels if and only if startPark has run for it |
| `ConnPool.HandedOutWithoutChannels` | internal/chathub/connpool.go:251-253 | A reachable state in which a request is handed a connection without channels |
| `ConnPool.ClosedPoolRefillsExactly` | internal/chathub/connpool.go:204-253 | After the pool is closed its lists hold a connection again if and only if some Warm publishes, and each that does had begun before the close |
| `ConnPool.ClosedPoolMayRefillExactly` | internal/chathub/connpool.go:204-253 | So it can still happen if and only if some Warm that found the pool open is not over |
| `ConnPool.TakesAfterCloseGetNothing` | internal/chathub/connpool.go:154-158 | No Take begins once the pool is closed: whoever is handed a connection had begun before |
| `ConnPool.WarmRefillsClosedPool` | internal/chathub/connpool.go:204-252 | A run in which a Warm begins, dials, the pool is closed, and the connection is published into the closed pool |
| `TokenRefresh.Store.Check` | internal/auth/cache.go:445-484 | The decision of EnsureValid for the first account that answers to the id |
| `TokenRefresh.ValidTokensAreFresh` | internal/auth/cache.go:460-470 | A token is returned unrefreshed only while more than two minutes or a tenth of its lifetime is left |
| `TokenRefresh.DecisionMeans` | internal/auth/cache.go:445-484 | The whole decision about the first account known by the id: its token while more than two minutes or more than a tenth of its life are left, else a refresh if there is a refresh token, else signing in |
| `TokenRefresh.Store.MarkExpired` | internal/auth/cache.go:471-478 | Marks the first account stored under the id |
| `TokenRefresh.Refresher.Join` | internal/auth/cache.go:487-499 | Follows the entry in flight or leads a new one |
| `TokenRefresh.Refresher.Settle` | internal/auth/cache.go:507-533 | Stores what upstream granted, keeping the old refresh token if none came, or only marks the account, and sets the result |
| `TokenRefresh.Refresher.Remove` | internal/auth/cache.go:534-538 | Takes the entry out of the map and returns its result |
| `TokenRefresh.RunKeeps` | internal/auth/cache.go:445-539 | Every interleaving keeps callers, entries, the map and the stored accounts consistent, and what each caller read tells which tokens came since |
| `TokenRefresh.OneRefreshPerAccount` | internal/auth/cache.go:487-499 | At most one call refreshes an account at any moment |
| `TokenRefresh.FollowersReturnTheLeadersResult` | internal/auth/cache.go:492-496 | Everybody on one entry returns the same account and error |
| `TokenRefresh.GrantedIsReturned` | internal/auth/cache.go:507-538 | Over runs: whoever returns on a granted refresh returns the granted account, with the stored refresh token if none came, as the store holds it, and an error if and only if saving failed |
| `TokenRefresh.RefusedIsReturned` | internal/auth/cache.go:508-518 | On a refused one it returns the account its leader read, with an error, and only the mark is stored |
| `TokenRefresh.FollowersAreNotStranded` | internal/auth/cache.go:534-538 | A follower can wake, or its leader is still at work |
| `TokenRefresh.EveryoneReturns` | internal/auth/cache.go:487-539 | From every reachable state there is a continuation without new calls in which every call returns |
| `TokenRefresh.SameTokenExactly` | internal/auth/cache.go:445-539 | Two refreshes of an account send the same token upstream if and only if no step between their leaders' reads put a new one into the store |
| `TokenRefresh.EveryFlightWasRead` | internal/auth/cache.go:445-484 | Every refresh of a run has such a read |
| `TokenRefresh.SecondRefreshRepeatsExactly` | internal/auth/cache.go:445-539 | With no other source of tokens the second refresh repeats the first one's token if and only if its leader read the account before the first stored a new one, or the first stores none |
| `TokenRefresh.TokenSpentTwice` | internal/auth/cache.go:445-539 | A run in which a refresh token has been spent and replaced in the store, and is being sent again by a caller that had read it before |
| `TokenRefresh.RefusedTokenIsSentAgain` | internal/auth/cache.go:508-518 | A run in which a refused refresh token is sent again by the next caller |
| `ProxyPool.Pool.constructor` | internal/outbound/pool.go:31-46 | Blank and repeated addresses are skipped, and one that does not parse fails the pool |
| `ProxyPool.Pool.PickEntry` | internal/outbound/pool.go:47-65 | The next entry that is not cooling, or the next one if all are |
| `ProxyPool.Pool.Mark` | internal/outbound/pool.go:106-141 | A success clears the entry, a proxy error backs it off, any other error leaves its rotation alone |
| `ProxyPool.Pool.Remove` | internal/outbound/pool.go:207-216 | Removes the one entry of that address and leaves the position alone |
| `ProxyPool.PickRotates` | internal/outbound/pool.go:54-61 | A pick takes the first eligible entry in turn and moves it to the end |
| `ProxyPool.EachEligibleOnce` | internal/outbound/pool.go:47-65 | From any position, even out of range, as many picks as there are eligible entries take each exactly once |
| `ProxyPool.BackoffGrows` | internal/outbound/pool.go:121-133 | Backoff starts at the base, doubles per failure and stays between 5 s and 5 min |
| `ProxyPool.FailuresCool` | internal/outbound/pool.go:106-141 | After n failures in a row an entry is passed over for the base doubled n - 1 times, at most 300 s, from the last one on; a success clears it and any other error changes nothing |

## Left out

- HTTP handlers, server-sent events, websocket frames, TLS, proxy dialling, OAuth endpoints and file-system calls.
- Cryptography, hashing, UUIDs and the tokenizer.
- Regular-expression text sanitizing, prompt wording and image prompt parsing.
- SessionResolver.Resolver.MatchFuzzy: promises only an eligible binding of the same tenant and fingerprint, not the most similar one, because the similarity score is an arbitrary function here.
- The resolver's byUserField, byIPFinger and byContext maps, which no decision reads, and loading and listing sessions.
- Resume points of explicit-id, suffix and similarity matches, which the code does not align with atoms; only a prefix match is proved to.
- TokenRefresh.OneRefreshPerAccount: a panic in the upstream call, after which the source leaves its entry in the map for good, is not modelled.
- How the token cache finds the account to replace by e-mail, gives ids to accounts without one, and deletes or re-binds accounts.
- Image-generation throttles, metering and throttling snapshots of account health, and the wording of its failure reasons.
- AccountHealth.CooldownBounds: durations are unbounded seconds; a Retry-After beyond about 292 years would overflow the source's nanoseconds.
- A call of Acquire without an account or limiter, which returns at once.
- Frames of a pooled connection beyond open and closed: their contents, keepalive pings and the error channel. A failed dial or handshake is a Warm that never publishes.
- ResponsesStream.Adapter.Stream: item and content ids, usage figures and lines that do not parse are not modelled.
- The translation of Responses requests with parallel calls, which become separate assistant messages and do not have the property of the Anthropic translation.
- References, suggestions, scores and metering in answer frames; they do not touch the streamed text.
- The periodic persistence loop and its registration; it only calls the pending flush.
- Error texts, latency and check times of proxies, and the retry over other proxies, which repeats picks and marks.
- The failed-flush rollback of API keys, admin pages, settings, metrics and self-update.
