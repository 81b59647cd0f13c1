# Verified model of distil's cache encoder, restore envelope, state ledger and benchmarks

distil compresses the context an agent sends to a language model and has to show that nothing is lost by it:
prompt caches must keep hitting, every shortened block must be recoverable, the file state an agent believes
in must survive, and the benchmarks that say so must compute what they claim. This project models those
parts in Dafny and proves their laws.

- **Cache encoder** (`Conversation`, `AstDelta`, `ReportLaws`, `CacheDelta`, `SendingLaws`,
  `CacheDeltaLaws`, `TokenSavings`). A walk over the conversation replaces large repeated or nearly repeated
  tool results by references to what earlier messages delivered. The walk, its restore store and its session
  memory are imperative code refining a pure encoding; the laws say for every text of every conversation
  what is sent, and are prefix determinism, an exact description of when changing the exempt tool ids breaks
  it, and reversibility, both through the store and from the sent conversation alone.
- **What it costs** (`Billing`, `PrefixCache`, `RequestLaws`, `Attribution`, `AttributionLaws`, `Replay`).
  Two models of a provider's prompt cache, the per-kind attribution of a bill, and the theorems that connect
  them with the encoder.
- **Session registry** (`SessionRegistry`, `SessionTrace`). The 512-entry registry is a true
  least-recently-used cache, and the reported prefix is the exact one of the previous request.
- **Encrypted restore blobs** (`BigEndian`, `AtRest`, `EnvelopeLaws`). The envelope format with its
  one-big-integer exclusive or, and the key file behind it. The key stream has the counter-mode shape of
  section 6.5 of NIST SP 800-38A, with HMAC (section 2 of RFC 2104) as the keyed function.
- **Artifact-state ledger** (`CallScanner`, `CallLaws`, `OpWindows`, `JudgementLaws`, `TranscriptCalls`,
  `ToolTexts`, `ToolTextLaws`, `PayloadLaws`, `Ledger`). How tool calls are found in a transcript, how each
  file operation is judged by the text that follows it, how calls are joined with their results, and the
  fold to a final file state.
- **Solvers and selectors** (`LinearSystem`, `PivotLaws`, `Bandit`, `ScheduleLaws`, `Calibration`,
  `SelectionLaws`, `DecisionCache`, `PrefetchPool`, `MatrixBuild`, `BuildLaws`, `Corpus`, `CorpusLaws`).
  In-place elimination, the budgeted choice of an operating point, the memo table that must make the
  assembly of the loss matrix free of model calls, and the corpus validator.

Code that works by updating state is a method or a class here and is tied by its `ensures` to a function of
the old state; the laws are proved about that function. Modules such as `SendingLaws`, `CallLaws`,
`EnvelopeLaws` and `PivotLaws` say what it computes from first principles: in literal constants, sets of
positions and quantified indices, without the functions that compute it. `Counting` has what they share.
Hashes, HMAC, regular expressions, the Python parser, similarity measures, marker wording, tokenizers and
model runners are function parameters, and whatever is assumed of them is a precondition of the lemma that
needs it. Real numbers replace floating point.

## Where the code and its description differ

- **Prefix stability "by construction"** (`distil/cachedelta.py:377-383`) holds for a fixed `keep_ids`
  only. The server chooses `keep_ids` anew on every request (`distil/serve_core.py:472-485`).
  `PrefixKeptIff` says exactly when the prefix survives, and `MovingExemptionsCanCost` is a session whose
  bill grows although no message does.
- **"Expand always resolves"** (`distil/cachedelta.py:381-382`): the walk ignores the refusal of the
  restore store on a handle collision. `StoreDecodesIff` is the exact condition; by
  `CollisionBreaksDecoding` no run over three colliding texts can be undone.
- **"Only formatting changed"** (`distil/astdelta.py:104-112`) is also said when imports or other bare
  statements were deleted: `FormattingOnlyIff`, `DeletedImportReadsAsFormatting`.
- **A definition redefined and then restored in one file** is reported as changed: `RebuildsIff`.
- **"Never raises"** (`distil/atrest.py:220`) fails above 128 GiB, where the four-byte counter overflows:
  `CountersFitIff`. With encryption off, data that happens to begin like an envelope does not read back:
  `UnencryptedReadsBackIff`. A key that cannot be stored is said to be good for the process
  (`distil/atrest.py:142-145`); it is lost with the call: `RoundTripIs`, `RoundTripIff`.
- **`solve`** tests a pivot with `< 1e-12` and reads off with `> 1e-12`, and a skipped column may become
  usable later: `SolutionCorrectIff`, `ThresholdPivotIsDropped`, `SkippedColumnCanRegrow`.
- **"Ops sharing one call share that call's outcome"** (`distil/artifacts.py:262-268`) holds of a call iff
  it does not run on past the end of the first listed call around its start: `SameCallSameBoundaryIff`.
  Nested calls never do; a quote that closes one call's argument and opens another's can make them
  overlap: `OverlapSplitsVerdict`.
- **An operation exactly at another call's closing index** does not end that call's window:
  `WindowsIdenticalOrDisjointIff`, `AdjoiningCallIsBlamed`.
- **A result says only whether its call succeeded** (`distil/artifacts.py:549-555`, `distil/artifacts.py:652-657`),
  except for a flat `tool_result` item with a string content: its text is taken for narration
  (`distil/artifacts.py:561-566`) before the item is recorded as a result (`distil/artifacts.py:594-595`,
  `distil/artifacts.py:635-637`), so it is handed on and parsed. `PayloadResultsDecideSuccessOnly` names the
  messages, `OneResultReplacedIff` and `ResultsReplacedIff` say exactly when the replaced text shows,
  `EchoIsEmitted` that it always does, and `FlatResultIsNarrated` is an input.
- **A reused tool-call id** makes every slot of that id report the last call, and every call of that id be
  judged by the last result: `CallsStandAtTheirSlotsIff`, `SurvivingCallsInOrderIff`, `ReusedIdLosesCall`.
  A later success therefore hides an earlier failure (`LaterResultSparesFailedCall`); `OwnResultsDecideIff`
  is the exact condition under which every call is judged by its own result.
- **A transcript that opens with an assistant message** makes the cache simulator miss the system prompt
  once: `MatchesClosedFormIff`, `SimulatorMatchesModelIff`.
- **The corpus validator's fifth invariant** (`distil/corpus.py:66`) speaks of a tool output; any volatile
  block will do. `MeetsDocumentationIff` says exactly when that makes no difference,
  `DecisionNeedNotBeToolOutput` is a trajectory where it does.

## Model

| member | source | states |
|---|---|---|
| `LinearSystem.FindPivot` | benchmarks/why_rtk_wins.py:101 | the chosen row is the one `PivotRow` specifies: greatest absolute entry at or below the diagonal, first on a tie |
| `LinearSystem.PivotRow` | benchmarks/why_rtk_wins.py:101 | no entry of the column from the diagonal down exceeds the pivot, and every earlier one is strictly smaller |
| `LinearSystem.ClearColumn` | benchmarks/why_rtk_wins.py:105-108 | in place, every row but the pivot row has its multiple of the pivot row subtracted and nothing else changes |
| `LinearSystem.ProcessColumn` | benchmarks/why_rtk_wins.py:100-108 | one column of the loop: swap, threshold test, elimination, as one step on the whole matrix |
| `LinearSystem.Solve` | benchmarks/why_rtk_wins.py:96-109 | the in-place loop returns the solution function whose correctness the lemmas below settle |
| `LinearSystem.StepKeepsSolutions` | benchmarks/why_rtk_wins.py:101-108 | a swap followed by an elimination (or a skip) keeps the set of solutions, in both directions |
| `LinearSystem.ReduceKeepsSolutions` | benchmarks/why_rtk_wins.py:100-108 | the whole elimination keeps the set of solutions, skipped pivots included |
| `LinearSystem.ReducedColumns` | benchmarks/why_rtk_wins.py:100-108 | every column whose pivot passed ends zero off the diagonal and at least the threshold on it, and later columns do not undo that |
| `LinearSystem.SatisfiesIsReduced` | benchmarks/why_rtk_wins.py:99-108 | the caller's A x = b and the reduced augmented matrix have the same solutions |
| `LinearSystem.SolutionCorrectIff` | benchmarks/why_rtk_wins.py:96-109 | for every square system, in terms of the reduced matrix and the skipped columns only: the returned vector solves it iff what skipped but usable columns carry into each row is nothing, or, in a row answered 0, its right-hand side |
| `LinearSystem.SolutionCorrectWithoutRegrowth` | benchmarks/why_rtk_wins.py:103-109 | if no skipped column regains a usable diagonal, singular systems included: right iff every row answered 0 has right-hand side 0 left |
| `LinearSystem.PassingPivotsSolve` | benchmarks/why_rtk_wins.py:96-109 | if every pivot passes, the result is diagonal and the answer is right iff no diagonal entry equal to the threshold has a nonzero right-hand side |
| `LinearSystem.PassingPivotsUnique` | benchmarks/why_rtk_wins.py:96-109 | if every pivot passes, the system has exactly one solution |
| `LinearSystem.ThresholdPivotIsDropped` | benchmarks/why_rtk_wins.py:103-109 | a one by one system with pivot exactly 1e-12 is answered 0 although it has a solution |
| `LinearSystem.SkippedColumnCanRegrow` | benchmarks/why_rtk_wins.py:103-109 | a solvable two by two system with a skipped first pivot that gets a wrong answer |
| `PivotLaws.LargePivotsSolve` | benchmarks/why_rtk_wins.py:96-109 | for every square system: if, column by column, the entry to be divided by exceeds 0.000000000001 in absolute value, the returned vector satisfies A x = b and nothing else does |
| `PivotLaws.StepClearsIff` | benchmarks/why_rtk_wins.py:101-108 | a column with an entry of at least 0.000000000001 at or below the diagonal keeps its largest one and is zero elsewhere; any other column is left alone but for the order of its rows |
| `PivotLaws.OneEquation` | benchmarks/why_rtk_wins.py:103-109 | one equation p x = b, for all p and b: answered b / p above 0.000000000001 in absolute value, and 0 otherwise |
| `PivotLaws.Threshold` | benchmarks/why_rtk_wins.py:103-109 | exactly at the threshold, just above it, and at a quarter, with their exact answers |
| `PivotLaws.RegrownAnswer` | benchmarks/why_rtk_wins.py:96-109 | the exact answer to the two by two system whose skipped first column regrows |
| `AstDelta.CountBare` | distil/astdelta.py:74-78 | the table counts bare statements by fingerprint |
| `AstDelta.Compare` | distil/astdelta.py:80-102 | the loop with its decremented counts assigns every new segment the fate `FateOf` specifies, and lists removed names |
| `AstDelta.StructuralDelta` | distil/astdelta.py:62-134 | an answer iff both files parse and the marker is strictly shorter than the new file; it then accounts for every new segment once and names exactly the old definitions that are gone |
| `AstDelta.FatesPartition` | distil/astdelta.py:85-99 | unchanged, changed and added segments together are, as a multiset, the new file's segments |
| `AstDelta.UnchangedBareCount` | distil/astdelta.py:94-99 | of each bare fingerprint the smaller of the two files' counts is unchanged |
| `AstDelta.DeltaAccountsForEverything` | distil/astdelta.py:80-102 | every new segment is reported once, and the unchanged bare statements are the multiset intersection whatever the order |
| `AstDelta.ComparedAccounts` | distil/astdelta.py:80-102 | the three reported lists partition the new segments, and the removed names are the old ones no longer defined |
| `AstDelta.RemovedMembers` | distil/astdelta.py:101-102 | removed names are exactly the old names the new file does not define |
| `AstDelta.RebuiltAt` | distil/astdelta.py:85-102 | a name is rebuilt correctly from old definitions plus the delta iff it is not redefined and then reverted |
| `AstDelta.RebuildsIff` | distil/astdelta.py:62-134 | old definitions plus the delta give the new name-to-fingerprint map iff no name reverts |
| `AstDelta.UniqueNamesRebuild` | distil/astdelta.py:62-134 | files whose definitions have distinct names are always rebuilt |
| `AstDelta.FormattingOnlyIff` | distil/astdelta.py:104-112 | the formatting-only answer means exactly: equal definitions, equal names, and new bare statements included in the old |
| `AstDelta.DeletedImportReadsAsFormatting` | distil/astdelta.py:101-112 | a file whose only import was deleted gets the formatting-only answer |
| `ReportLaws.DefinitionsReported` | distil/astdelta.py:80-93 | for any two files: a new definition is added exactly when the old file defines nothing of its kind and name, and changed exactly when it last defines it with another fingerprint |
| `ReportLaws.NamesReported` | distil/astdelta.py:80-102 | named as unchanged are exactly the definitions the old file last has as they are, by kind and name; as removed exactly the old kinds and names the new file does not define |
| `ReportLaws.BareReported` | distil/astdelta.py:94-99 | of the bare statements with a fingerprint as many are added as the new file has more of them than the old |
| `ReportLaws.BareNeverChanged` | distil/astdelta.py:94-99 | a bare statement is never reported as changed |
| `ReportLaws.ListsInOrder` | distil/astdelta.py:80-102 | changed and added segments are listed in the order of the new file, removed names in the order of their first definitions in the old one |
| `ReportLaws.FunctionBecomesClass` | distil/astdelta.py:73-93 | a function replaced by a class of the same name: one is added and the other removed |
| `Conversation.PartSiteAt` | distil/cachedelta.py:238-321 | the rewritable texts of a list of parts are exactly its text parts, under the id of the whole |
| `Conversation.BlockSiteAt` | distil/cachedelta.py:238-321 | the rewritable texts of a block list are exactly those of its tool results |
| `Conversation.SiteIff` | distil/cachedelta.py:238-321 | for every message shape: which texts may be rewritten, and under which id |
| `CacheDelta.FindBestBase` | distil/cachedelta.py:152-171 | the loop with its prefilters finds the base `BestBase` specifies |
| `CacheDelta.BestBaseIsFirstMaximum` | distil/cachedelta.py:152-171 | nothing iff no base passes the three filters; otherwise the first of maximal similarity among those that pass |
| `SendingLaws.SiteIsSentAs` | distil/cachedelta.py:152-230 | for every conversation, exempt ids and text in it: what is sent, with base and line count, said from the texts of the earlier messages alone: an exact reference, a structural or textual delta against the most similar of the twelve handles introduced last, or the text |
| `SendingLaws.SentAsReferenceIff` | distil/cachedelta.py:152-230 | a large text whose handle is new is sent as a reference iff among the twelve handles introduced last some base has at most twice or half its length and both similarities at least 0.5, and for the first most similar one the structural marker, or failing that the textual one, is shorter than the text |
| `SendingLaws.BestBaseUnique` | distil/cachedelta.py:152-171 | that base is determined |
| `SendingLaws.DictHolds` | distil/cachedelta.py:386-394 | the delivered blocks are the handles of all large texts in the order of their first use, each with the last text under it |
| `SendingLaws.StoreHoldsIff` | distil/cachedelta.py:174-230 | a run leaves in the store, besides what was there, exactly the handles of the texts that repeat an earlier handle or are sent as references |
| `CacheDelta.RestoreStore.Record` | distil/adapters/anthropic.py:722-739 | refuses exactly when the handle already stands for another text, and then changes nothing |
| `CacheDelta.EncodeBlock` | distil/cachedelta.py:174-230 | the wire form, the store and the statistics after one block |
| `CacheDelta.RewriteParts` | distil/cachedelta.py:238-321 | a list of parts: text parts encoded in order unless exempt, everything else untouched |
| `CacheDelta.RewriteBlocks` | distil/cachedelta.py:238-321 | a block list: each tool result encoded under its own id |
| `CacheDelta.RewriteMsg` | distil/cachedelta.py:238-321 | every message shape: wire form, store and statistics |
| `CacheDelta.CommonPrefixIs` | distil/cachedelta.py:366-374 | the counted prefix is the longest common one |
| `CacheDelta.CountCommonPrefix` | distil/cachedelta.py:370-373 | the loop computes the longest common prefix |
| `CacheDelta.NotePrefix` | distil/cachedelta.py:367-375 | reports the longest common prefix with the previous call's hashes and remembers this call's |
| `CacheDelta.Register` | distil/cachedelta.py:393-394 | large texts join the delivered blocks, an existing handle keeping its place |
| `CacheDelta.EncodeNext` | distil/cachedelta.py:386-394 | a message is encoded against earlier messages only and registered afterwards |
| `CacheDelta.Walk` | distil/cachedelta.py:384-396 | the loop over the conversation refines the pure encoding, store and statistics included |
| `CacheDelta.DeltaEncode` | distil/cachedelta.py:342-396 | messages, store, statistics and session memory after a call, with or without a session |
| `CacheDeltaLaws.PrefixDeterminism` | distil/cachedelta.py:377-396 | conversations that share their first n messages are sent with the same first n messages |
| `CacheDeltaLaws.MsgAgreesIff` | distil/cachedelta.py:238-321 | two exemption sets send a message alike iff no text that only one exempts would be replaced |
| `CacheDeltaLaws.PrefixKeptIff` | distil/cachedelta.py:356-396 | with changing exemptions the shared prefix is sent alike iff no text in it whose exemption changes would be replaced |
| `CacheDeltaLaws.WiresOfMsg` | distil/cachedelta.py:238-321 | the texts of a sent message are its sites' encodings, in order |
| `CacheDeltaLaws.ExemptionsDoNotLeak` | distil/cachedelta.py:356-358 | exempt blocks go out byte for byte; every other block goes out exactly as with no exemption at all |
| `CacheDeltaLaws.StatsCountReferences` | distil/cachedelta.py:115-119 | the reported reference counts are the numbers of references in the sent messages |
| `TokenSavings.SavedTokensAre` | distil/cachedelta.py:193-228 | reported savings and sent tokens add up to the raw tokens and what some texts gained in tokens |
| `TokenSavings.SavedIsDifferenceIff` | distil/cachedelta.py:115-123 | the reported savings are exactly the tokens not sent iff no replaced text gained tokens; otherwise they are overstated |
| `CacheDeltaLaws.DeliveredByUnique` | distil/cachedelta.py:393-394 | no handle is delivered twice |
| `CacheDeltaLaws.DeliveredByFrom` | distil/cachedelta.py:386-394 | every delivered block is a large text of a strictly earlier message under its own handle |
| `CacheDeltaLaws.DeliveredByHas` | distil/cachedelta.py:393-394 | every large text of an earlier message has its handle among the delivered ones |
| `CacheDeltaLaws.ReferenceTarget` | distil/cachedelta.py:174-230 | a reference names a delivered handle; a delta's base is among the last twelve and its diff is against that base |
| `CacheDeltaLaws.ReferencesAreShorter` | distil/cachedelta.py:174-230 | a text is only replaced by something strictly shorter |
| `CacheDeltaLaws.ReferencesPointBackwards` | distil/cachedelta.py:377-394 | every reference in message i refers to a block that a strictly earlier message delivered |
| `CacheDeltaLaws.MsgReadsBackIff` | distil/cachedelta.py:238-321 | a sent message reads back as the original iff each of its texts does; nothing else changed |
| `CacheDeltaLaws.StoreDecodesIff` | distil/cachedelta.py:349-396 | the sent messages plus the restore store give the conversation back iff every replaced text owns its handle in the store |
| `CacheDeltaLaws.CollisionFreeDecodes` | distil/cachedelta.py:349-354 | with distinct handles for distinct large texts, every conversation is given back exactly |
| `CacheDeltaLaws.ReplacedOwns` | distil/cachedelta.py:174-230 | with collision-free handles the store gives every replaced text back under its handle |
| `CacheDeltaLaws.ConversationDecodesItself` | distil/cachedelta.py:377-383 | with collision-free handles, for any exempt ids: read in order, the sent messages give the original conversation, exact and diff references from what was read so far, structural ones from the store the run leaves |
| `CacheDeltaLaws.CollisionBreaksDecoding` | distil/cachedelta.py:174-230 | for every codec and any three large texts under one handle, the last two different: the run cannot be undone, whatever the store held before |
| `CacheDeltaLaws.CollidingRun` | distil/cachedelta.py:174-230 | an instance: three texts of 400 letters under one handle |
| `Billing.SumTokens` | benchmarks/codebench.py:176-193 | the inner sums are the tokens of a range of messages |
| `Billing.TurnDollars` | benchmarks/codebench.py:176-193 | a turn costs each token of its cached prefix at the read price and each other token at the input price |
| `Billing.SessionDollars` | benchmarks/codebench.py:176-193 | the loop with its remembered hashes computes the bill |
| `Billing.TurnAdds` | benchmarks/codebench.py:176-193 | one more turn adds the messages it shares with the turn before, as far as their hashes agree, at the read price and all others at the input price; the first turn shares none |
| `Billing.AtRateIsProduct` | benchmarks/codebench.py:176-193 | so many tokens at a rate cost their product |
| `Billing.TokensFromFront` | benchmarks/codebench.py:176-193 | the tokens of a range, counted from its front |
| `Billing.SentPrefixNotShorter` | benchmarks/codebench.py:176-193 | turn by turn the encoded session hits the cache with at least as many messages as the raw one |
| `Billing.TurnCheaper` | benchmarks/codebench.py:176-193 | a turn with no longer messages and no shorter cached prefix costs less by at least the saved tokens at the read price |
| `Billing.CheaperStep` | benchmarks/codebench.py:176-193 | one more turn leaves the bill so far cheaper by every token saved |
| `Billing.CheaperTurnsCheaperBill` | benchmarks/codebench.py:176-193 | the same for whole sessions, whatever the transform |
| `Billing.BillNotLarger` | distil/cachedelta.py:377-396 | for every session whose exemptions change harmlessly, if no message gains tokens the encoded bill is no larger |
| `Billing.FixedExemptionsBillNotLarger` | benchmarks/codebench.py:243-245 | in particular under one exemption set, as the benchmark runs it |
| `Billing.MovingExemptionsCanCost` | distil/serve_core.py:472-485 | a session of two turns, the second extending the first by a repeated read, whose exemptions move to the new copy: the bill grows, from 1280 to 1540, although no message gains a token |
| `SessionRegistry.Sessions.Evict` | distil/cachedelta.py:98-99 | drops the least recently used sessions beyond the limit and keeps the rest |
| `SessionRegistry.Sessions.FindOrAdd` | distil/cachedelta.py:93-96 | the known session, or a new one at the end of the order |
| `SessionRegistry.Sessions.GetSession` | distil/cachedelta.py:91-100 | the whole registry after a request, and whether the session is the old object or a fresh one |
| `SessionRegistry.TouchedWellFormed` | distil/cachedelta.py:91-100 | keys stay distinct, at most 512, and the requested one is present |
| `SessionRegistry.TouchedAt` | distil/cachedelta.py:91-100 | a request leaves every other surviving session as it was |
| `SessionTrace.RecentIsByLastRequest` | distil/cachedelta.py:91-100 | the recency list holds exactly the requested keys, each once, by last request |
| `SessionTrace.TrimThenMove` | distil/cachedelta.py:97-99 | evicting early or late leaves the same last 512 keys |
| `SessionTrace.RegistryIsLru` | distil/cachedelta.py:91-100 | after any request sequence the key order is the last 512 distinct keys by most recent request |
| `SessionTrace.PresentIff` | distil/cachedelta.py:91-100 | a session is still present iff fewer than 512 distinct keys were requested since its last request |
| `SessionTrace.SameSessionIff` | distil/cachedelta.py:91-100 | a key gets the same session back iff it was not evicted in between, and a new one otherwise |
| `SessionTrace.SessionsOwnKey` | distil/cachedelta.py:91-100 | a session only ever answers requests for one key |
| `SessionTrace.PrefixComparesWithPreviousRequest` | distil/cachedelta.py:365-375 | the reported prefix is the exact longest common prefix with that key's previous request, or 0 after an eviction |
| `BigEndian.XorSplits` | distil/atrest.py:202-204 | low bits and the bits above them do not influence each other |
| `BigEndian.XorInvolution` | distil/atrest.py:202-204 | exclusive or with the same number twice is the identity |
| `BigEndian.XorDetermines` | distil/atrest.py:202-204 | exclusive or with one number tells all others apart |
| `BigEndian.XorBitAt` | distil/atrest.py:202-204 | bit k of the exclusive or is 1 iff bit k of exactly one of the two numbers is |
| `BigEndian.XorAsIntIsBytewise` | distil/atrest.py:202-204 | one big-integer operation equals the bytewise one, leading zero bytes included |
| `BigEndian.XorAsIntFits` | distil/atrest.py:202-204 | the integer result is exactly what its bytes say, so writing it out cannot overflow |
| `AtRest.KeystreamAt` | distil/atrest.py:198-201 | byte i of the joined key stream is byte i mod 32 of block i div 32 |
| `AtRest.XorStreamIsBytewise` | distil/atrest.py:190-204 | the optimised stream is the bytewise exclusive or with the counter-mode key stream |
| `AtRest.XorStreamInvolution` | distil/atrest.py:190-204 | applying the stream twice gives the data back |
| `AtRest.StreamsCancelIff` | distil/atrest.py:190-204 | the streams of two keys undo each other iff they agree as far as the data reaches |
| `AtRest.XorStreamOfPrefix` | distil/atrest.py:190-204 | the stream of a prefix is the prefix of the stream |
| `AtRest.CountersFitIff` | distil/atrest.py:198-201 | the counters fit four bytes exactly up to 128 GiB |
| `AtRest.EnvelopeParts` | distil/atrest.py:225-231 | magic, nonce, ciphertext and tag stand where the decryptor looks; the length grows by 53 |
| `AtRest.DecryptEncrypt` | distil/atrest.py:216-256 | decryption undoes encryption for every plaintext, empty and headered ones included |
| `AtRest.DecryptedWasEncrypted` | distil/atrest.py:242-256 | a headered input that decrypts is the envelope of its plaintext under the nonce it carries |
| `AtRest.AcceptedIff` | distil/atrest.py:234-256 | a headered input decrypts to d iff it is an envelope of d for some nonce |
| `AtRest.EnvelopeInjective` | distil/atrest.py:225-231 | an envelope determines its nonce and plaintext |
| `EnvelopeLaws.CounterIs` | distil/atrest.py:198-201 | the block counter is four bytes, the most significant first |
| `EnvelopeLaws.EnvelopeIs` | distil/atrest.py:180-231 | for every key, nonce and data the envelope is magic, nonce, each data byte combined with byte i mod 32 of block i div 32 under the key made of the label "enc", and the tag of nonce and ciphertext under the key made of the label "mac" |
| `EnvelopeLaws.EnvelopeUnique` | distil/atrest.py:180-231 | that description fits one byte string only |
| `EnvelopeLaws.EncryptIs` | distil/atrest.py:216-231 | encryption gives that envelope up to 128 GiB and is refused above |
| `EnvelopeLaws.DecryptIs` | distil/atrest.py:234-256 | a headered input is accepted as the data iff it is such an envelope of the data under the key |
| `EnvelopeLaws.WrongTagIsMissing` | distil/atrest.py:242-253 | a headered input whose last 32 bytes are not the tag of what stands before them reads as missing |
| `EnvelopeLaws.ForeignEnvelopeIsMissing` | distil/atrest.py:242-253 | one key's envelope is missing under another whenever the two derived keys give it different tags |
| `EnvelopeLaws.NoForeignKey` | distil/atrest.py:180-256 | where the keyed function never gives one message the same digest under two keys, nothing that one key accepts is accepted under another |
| `EnvelopeLaws.SomeTellKeysApart` | distil/atrest.py:180-187 | there are such functions |
| `EnvelopeLaws.KeyIsFoundAgainIff` | distil/atrest.py:139-177 | a generated key is found again iff the key file can be written and then read |
| `EnvelopeLaws.RoundTripNeedsKey` | distil/atrest.py:139-256 | with keys told apart, data comes back iff the key file was valid or can be written and read, and otherwise reads as missing |
| `AtRest.UnencryptedReadsBackIff` | distil/atrest.py:223-243 | data written without encryption reads back unchanged iff it does not begin with the magic |
| `AtRest.KeyFile.LoadKey` | distil/atrest.py:139-177 | the stored key, or a new one that is stored if the disk allows it |
| `AtRest.KeyFile.EncryptBytes` | distil/atrest.py:216-231 | result and key file after an encryption, encryption switched off included |
| `AtRest.KeyFile.DecryptBytes` | distil/atrest.py:234-256 | result and key file after a decryption; header-less and truncated input does not touch the key |
| `AtRest.KeyFile.RoundTrip` | distil/atrest.py:139-256 | write then read: the data comes back iff the key persists or these two keys cannot be told apart on this message; with a lost key and different tags nothing comes back |
| `AtRest.RoundTripIff` | distil/atrest.py:139-177 | as a law of the disk: data reads back iff the key persists, or the two generated keys give this message the same tag and the same key stream |
| `AtRest.RoundTripIs` | distil/atrest.py:139-256 | the outcome of a round trip in every case: the data, nothing, or what the second key's stream makes of the ciphertext |
| `CallScanner.ScanArguments` | distil/artifacts.py:345-364 | the character loop stops at the first point of depth zero or at the end of the text, and collects the live characters |
| `CallScanner.CallSpans` | distil/artifacts.py:323-372 | exactly the recognised heads that close and name no outcome field, in bounds and ordered by start |
| `CallScanner.ListedWithin` | distil/artifacts.py:323-372 | the spans of a text are in bounds, non-empty and strictly ordered by start |
| `CallScanner.EscapedIffOddBackslashes` | distil/artifacts.py:349-352 | a character counts as escaped iff an odd number of backslashes precedes it |
| `CallScanner.QuotedIff` | distil/artifacts.py:351-357 | the scanner is in a quote iff an unescaped opening quote has not met its match |
| `CallLaws.LiveIff` | distil/artifacts.py:349-357 | the live characters: outside quotes, not escaped, neither backslash nor quote |
| `CallLaws.DepthCounts` | distil/artifacts.py:347-364 | for every text: the depth is 1 plus the number of live opening parens less the number of live closing ones, counted as sets of positions |
| `CallLaws.BareCollects` | distil/artifacts.py:345-364 | what is collected is one character for each live position, in order |
| `CallLaws.NameIff` | distil/artifacts.py:336-344 | the name before a paren: a maximal run of word characters with white space between |
| `CallLaws.SpansAreInvocations` | distil/artifacts.py:323-372 | for every text: a span is listed iff it runs from a recognised name to just past the first paren that closes all that were opened, and no outcome field stands live between |
| `CallLaws.NestedParens` | distil/artifacts.py:359-364 | plain pieces with a paren pair inside a call's parens: the call ends at its own paren and not at the inner one |
| `CallLaws.NestedCallIsWhole` | distil/artifacts.py:323-372 | an input: the one span of the text bash(f(x)) is the whole text |
| `CallScanner.CloseUnique` | distil/artifacts.py:347-364 | a call closes at one point only |
| `CallScanner.HeadsInOrder` | distil/artifacts.py:342-344 | heads are found in the order of their starts |
| `CallScanner.NoCallAt` | distil/artifacts.py:342-372 | a paren that opens no call adds no span |
| `CallScanner.CallAt` | distil/artifacts.py:370-371 | a paren that opens a closed call adds exactly its span, after all the others |
| `CallScanner.AppendKeepsCalls` | distil/artifacts.py:323-372 | appending text neither removes, moves nor adds a call that closes within the original text |
| `OpWindows.SortByPosSorts` | distil/artifacts.py:251 | sorted by position, and a permutation of what was found |
| `OpWindows.FindOutcomeStart` | distil/artifacts.py:375-380 | the loop finds the end of the first call containing the operation, or the operation itself |
| `OpWindows.OutcomeStartIs` | distil/artifacts.py:375-380 | the boundary is the end of the first listed call around the operation, or the position itself iff no call is around it |
| `OpWindows.ExtractOps` | distil/artifacts.py:249-274 | over the calls the scanner finds in the text: the operations with no failure marker in their window, in order; adjudicated blocks are taken whole |
| `JudgementLaws.BoundaryIs` | distil/artifacts.py:262-268 | an outcome starts at the end of the first call listed around the operation, or at the operation itself |
| `JudgementLaws.JudgedBy` | distil/artifacts.py:249-274 | for every transcript: an operation counts iff no failure shows from there to the next operation after it, or the end |
| `JudgementLaws.SortKeepsTies` | distil/artifacts.py:251 | operations at one position stay in the order in which they were found |
| `OpWindows.WindowEndIsNext` | distil/artifacts.py:269-270 | a window ends at the least operation position after its boundary, or at the end of the text |
| `OpWindows.SameBoundarySameWindow` | distil/artifacts.py:255-270 | equal boundaries give equal windows |
| `OpWindows.SameCallSameBoundaryIff` | distil/artifacts.py:262-269 | all positions of a call share one boundary iff the call does not run on past the end of the first listed call around its start |
| `OpWindows.NestedNeverOverruns` | distil/artifacts.py:262-269 | calls that nest or lie apart never run on past each other, so every one of them gives one verdict |
| `OpWindows.OneCommandOneVerdict` | distil/artifacts.py:255-268 | operations at one position, or inside one call that does not run on past the call around its start, share boundary, window and verdict, however calls nest |
| `OpWindows.WindowEmptyIff` | distil/artifacts.py:263-270 | a window is empty only at the end of the text |
| `OpWindows.WindowsIdenticalOrDisjointIff` | distil/artifacts.py:269-270 | however calls nest or overlap, two windows are identical or disjoint unless one operation stands at the other's boundary in a call that ends inside the other's window |
| `TranscriptCalls.AdjoiningCallIsBlamed` | distil/artifacts.py:269-272 | the text of two writes with the second one refused: with nothing between them the first is dropped as well, with any blank between them it is kept |
| `TranscriptCalls.WindowsOfText` | distil/artifacts.py:249-274 | for every text the scanner reads: windows are identical or disjoint unless one operation trespasses, and empty only at the end |
| `TranscriptCalls.CallsOfTextShareBoundariesIff` | distil/artifacts.py:262-269 | for every text the scanner reads: a call gives all its operations one boundary iff it does not overrun |
| `TranscriptCalls.OneQuotedArgument` | distil/artifacts.py:345-371 | a recognised head, plain text and one quoted piece are a call that ends just past the paren |
| `TranscriptCalls.OverlapSplitsVerdict` | distil/artifacts.py:345-371 | the text `bash("read(..")..")`: the inner call overruns the outer one, and of two operations inside it one is kept and the other dropped |
| `Ledger.StateLedger.Apply` | distil/artifacts.py:199-203 | within a turn the stronger operation stays |
| `Ledger.StateLedger.ApplyTurn` | distil/artifacts.py:205-207 | across turns the later one overwrites |
| `Ledger.ApplyAll` | distil/artifacts.py:411-412 | a turn's fold overrides the ledger path by path, in whatever order |
| `Ledger.BuildLedger` | distil/artifacts.py:397-413 | the two-level loop computes the two-level fold |
| `Ledger.PerTurnIsStrongest` | distil/artifacts.py:406-410 | a turn's entry for a path is the strongest operation asserted of it |
| `Ledger.FinalStateIs` | distil/artifacts.py:397-413 | a path's final state is the strongest operation in the last turn that mentions it |
| `JudgementLaws.FinalState` | distil/artifacts.py:397-413 | for every trajectory and path: the last turn that mentions it decides: deleted if it deletes it at all, else modified, else created, else read |
| `Ledger.PerTurnOrderFree` | distil/artifacts.py:400-402 | order and repetition within a turn do not matter |
| `Ledger.FoldOrderFree` | distil/artifacts.py:397-413 | nor do they matter for a whole trajectory |
| `Ledger.FoldConcat` | distil/artifacts.py:397-413 | folding two trajectories in a row is the second ledger overriding the first |
| `Ledger.PathsPartition` | distil/artifacts.py:416-426 | exact, stale and lost paths add up to all paths |
| `Ledger.ScoreStates` | distil/artifacts.py:474-485 | the counters are the numbers of exact, stale and lost paths, and add up to the total |
| `Ledger.Score` | distil/artifacts.py:467-485 | the same for two trajectories; a trajectory scored against itself is all exact |
| `Ledger.PerfectIff` | distil/artifacts.py:467-485 | the score is perfect iff every original path keeps its state |
| `Ledger.LossesIff` | distil/artifacts.py:467-485 | paths are reported stale iff some path ends in another state, and lost iff some path has none |
| `ToolTexts.Note` | distil/artifacts.py:573-641 | one slot added, the call and result tables kept in step with the slots |
| `ToolTexts.CollectCalls` | distil/artifacts.py:573-579 | the calls beside a message's content, in order |
| `ToolTexts.CollectBlock` | distil/artifacts.py:596-641 | one content block: call, result, narration or nothing |
| `ToolTexts.CollectMessage` | distil/artifacts.py:545-641 | first pass over one message of any shape |
| `ToolTexts.CollectAll` | distil/artifacts.py:545-641 | first pass: the slots of the whole payload, with the call and result tables in step |
| `ToolTexts.Resolve` | distil/artifacts.py:643-675 | second pass: each slot resolved against the tables |
| `ToolTexts.IterToolTexts` | distil/artifacts.py:534-675 | both passes: what is emitted is the resolution of the payload's slots |
| `PayloadLaws.MessageEventIff` | distil/artifacts.py:545-641 | what each message says, calls and reports is exactly what it carries, with the text of a call its name and its arguments in parens |
| `PayloadLaws.PayloadEventIff` | distil/artifacts.py:545-641 | the same of a whole payload |
| `PayloadLaws.HandedOnIsCalled` | distil/artifacts.py:643-675 | only calls that some message makes are handed on as such, under an id with no failed result or with another one besides |
| `PayloadLaws.HandedOnIff` | distil/artifacts.py:534-675 | where an id stands for one call and one result: a call is handed on iff some message makes it and no result under its id shows a failure |
| `PayloadLaws.NarrationIff` | distil/artifacts.py:534-675 | where an id stands for one result: a text is narration iff it is not empty and a message that is neither a user's, the system's nor a tool's narrates it, or it is reported under an id that no message calls |
| `PayloadLaws.EventsGrow` | distil/artifacts.py:545-641 | what a message adds stands after everything before it |
| `PayloadLaws.MessageInOrder` | distil/artifacts.py:561-641 | within a message: what it says, then the calls beside its content, then its blocks |
| `PayloadLaws.BlocksInOrder` | distil/artifacts.py:596-641 | blocks in their order |
| `ToolTextLaws.ResultsDecideSuccessOnly` | distil/artifacts.py:650-666 | for slot sequences: replacing results of known calls by others with the same failure verdict changes nothing |
| `ToolTextLaws.PayloadResultsDecideSuccessOnly` | distil/artifacts.py:545-666 | for every payload: replacing the results of calls it contains by any others with the same failure verdicts leaves what is handed on unchanged, unless a replaced message is a flat result item with non-empty string content and a role other than tool, user or system |
| `ToolTextLaws.OneResultReplacedIff` | distil/artifacts.py:561-637 | for every payload and message: with the result it carries replaced, under the same verdict, the same is handed on iff the message, as a flat result item, says the same text before and after |
| `ToolTextLaws.ResultsReplacedIff` | distil/artifacts.py:561-637 | the same for any number of replaced results, when no flat result item of one payload says something where the other's says nothing |
| `ToolTextLaws.FlatResultIsNarrated` | distil/artifacts.py:561-637 | a call and its result as a flat item: the call is handed on, and then the result's text as narration |
| `ToolTextLaws.EchoIsEmitted` | distil/artifacts.py:561-637 | the string content of a flat result item is always handed on as narration, known call or not |
| `ToolTextLaws.NarrationIsSaidOrOrphan` | distil/artifacts.py:562-675 | for every payload: a text is handed on as narration only if a message that is not itself a result says it, or it is a result whose call the payload does not contain, or a flat result item echoes it |
| `ToolTextLaws.TablesHoldTheLast` | distil/artifacts.py:573-637 | the call and result tables hold, for each id, its last call and its last result |
| `ToolTextLaws.CallsStandAtTheirSlotsIff` | distil/artifacts.py:643-675 | for every payload: what is handed on is each slot's own contribution in document order, calls being judged by the last result reported under their id, iff no surviving call's id is taken over by a later call of another text |
| `ToolTextLaws.OwnResultsDecideIff` | distil/artifacts.py:643-666 | for every payload: each slot holds its own call unless that call's own result (under its id, after it, before the next call of that id) says that it failed, iff every call's own verdict is that of the last result under its id and every surviving call keeps its id |
| `ToolTextLaws.SurvivingCallsInOrderIff` | distil/artifacts.py:643-675 | for every payload: the calls handed on are, in order, exactly the calls whose last result under their id does not say that they failed, iff each of those keeps its id |
| `ToolTextLaws.OwnSurvivorsInOrder` | distil/artifacts.py:643-666 | for every payload that meets the condition of `OwnResultsDecideIff`: the calls handed on are, in order, exactly the calls whose own result does not say that they failed |
| `ToolTextLaws.LaterResultSparesFailedCall` | distil/artifacts.py:650-662 | under a reused id a failed call followed by a successful one is handed on as well |
| `ToolTextLaws.WrongVerdictsCanCompensate` | distil/artifacts.py:650-662 | over two reused ids two wrong verdicts can leave the list of calls handed on right, so that the exact condition has to be stated slot by slot |
| `ToolTextLaws.DistinctIdsKeepCalls` | distil/artifacts.py:645-666 | with distinct call ids the payload's surviving calls are handed on once each, as themselves, in order and at their own slots; where results follow their calls, they are judged by their own results |
| `ToolTextLaws.ReusedIdLosesCall` | distil/artifacts.py:573-579 | with a reused id both slots emit the later call |
| `Attribution.StepPrefixes` | benchmarks/why_rtk_wins.py:83-90 | the loop yields what each request sends, as characters by kind |
| `AttributionLaws.CharsAre` | benchmarks/why_rtk_wins.py:60-80 | for every transcript and kind: the characters counted are those of that kind in its messages, by role and block |
| `AttributionLaws.RequestsAre` | benchmarks/why_rtk_wins.py:83-91 | there is one request before each assistant message, in order, and it sends what all messages before contain |
| `AttributionLaws.TokensAre` | benchmarks/why_rtk_wins.py:155-156 | the tokens of a request: the system prompt and the five kinds at their rates |
| `AttributionLaws.DollarsAre` | benchmarks/why_rtk_wins.py:51-57 | a million tokens cost 2 dollars as input, 2.50 written, 0.20 read and 10 as output |
| `Attribution.PrefixesGrow` | benchmarks/why_rtk_wins.py:83-90 | cumulative counts never shrink, so Counter subtraction drops nothing |
| `Attribution.RereadIsEarlier` | benchmarks/why_rtk_wins.py:203-212 | Abel summation: written once and re-read at every later step equals read at every step but the last |
| `Attribution.Attribute` | benchmarks/why_rtk_wins.py:206-212 | one request's contribution to both tables |
| `Attribution.AttributeAll` | benchmarks/why_rtk_wins.py:206-215 | the whole loop, system prompt included |
| `Attribution.SumTokByKind` | benchmarks/why_rtk_wins.py:155-156 | tokens summed over requests equal tokens summed over kinds |
| `Attribution.AttributedTotals` | benchmarks/why_rtk_wins.py:216-222 | after the last request the per-kind tables have the closed form |
| `Attribution.Reconstruct` | benchmarks/why_rtk_wins.py:198-222 | per kind, what was written adds up to the predicted writes and what was re-read to the predicted reads, for every transcript |
| `Attribution.ModelNeverImpossible` | benchmarks/why_rtk_wins.py:333-338 | a run whose usage is the prediction never looks like one that read a foreign cache entry |
| `AttributionLaws.ImpossibleIff` | benchmarks/why_rtk_wins.py:333-338 | impossible: over the steps after the first more was read on average than was sent anew in all |
| `Attribution.CorrectFreshConserves` | benchmarks/why_rtk_wins.py:393-404 | re-pricing keeps input, output and prompt total, stays non-negative, never lowers the cost, and is idempotent |
| `AttributionLaws.CorrectFreshCases` | benchmarks/why_rtk_wins.py:393-404 | a prediction of no more than input and written tokens changes nothing, one above the prompt leaves nothing to read, and one in between is, with the input, what is written |
| `PrefixCache.LongestHit` | benchmarks/why_rtk_wins.py:253-258 | the loop over earlier requests finds the hit |
| `PrefixCache.HitIsLongest` | benchmarks/why_rtk_wins.py:253-258 | the hit is an earlier request that is a prefix, and none longer is |
| `PrefixCache.Simulate` | benchmarks/why_rtk_wins.py:228-278 | the simulator's totals, rewrites included |
| `RequestLaws.RewritesIff` | benchmarks/why_rtk_wins.py:260-266 | a request rewrites the one before iff neither of the two begins with the other |
| `RequestLaws.ReadIs` | benchmarks/why_rtk_wins.py:253-259 | a request reads all of the longest earlier one it begins with, system prompt included, unless that is empty |
| `RequestLaws.RewritesCounted` | benchmarks/why_rtk_wins.py:260-266 | the rewrites reported are the number of requests that rewrite |
| `RequestLaws.RunSums` | benchmarks/why_rtk_wins.py:228-278 | the totals are sums over the requests of what each sends, reads, has left to write, and pays again when it rewrites |
| `RequestLaws.ChangedMessageRewrites` | benchmarks/why_rtk_wins.py:260-266 | an input: two requests that differ in their only message |
| `PrefixCache.ReadPlusWriteIsSent` | benchmarks/why_rtk_wins.py:270-275 | every sent token is either read or written |
| `PrefixCache.AppendOnlyHit` | benchmarks/why_rtk_wins.py:253-266 | in an append-only run the hit is the request before, and nothing is rewritten |
| `PrefixCache.AppendOnlyRead` | benchmarks/why_rtk_wins.py:253-275 | in an append-only run every step after the first reads all of the request before, less the system prompt when that request was empty |
| `PrefixCache.AppendOnlyTotals` | benchmarks/why_rtk_wins.py:228-278 | an append-only run reads at every step all of the request before, unless that was empty |
| `PrefixCache.MatchesClosedFormIff` | benchmarks/why_rtk_wins.py:228-278 | reads are all earlier requests and writes the last one iff the first request is not empty (or nothing is charged for the system prompt, or there is one request) |
| `Replay.RawRequestTotal` | benchmarks/why_rtk_wins.py:246-252 | the simulator and the attribution count the same tokens for a request |
| `Replay.SimulatorMatchesModelIff` | benchmarks/why_rtk_wins.py:198-278 | on an untransformed transcript simulator and model agree iff it does not open with an assistant message |
| `Replay.EncodedReplayNeverRewrites` | benchmarks/why_rtk_wins.py:260-266 | re-encoding the growing conversation at every step never rewrites a sent message, so reads and writes have the closed form |
| `Bandit.IntervalOrdered` | distil/certify/stats.py:144-176 | lower limit at most upper limit, so a decisively inferior arm is never non-inferior |
| `Bandit.SortedRanks` | distil/calibrate.py:251 | the order is stable and most aggressive first |
| `Bandit.SampleArm` | distil/calibrate.py:252-262 | up to a batch of draws within the budget, all counted, other arms untouched |
| `Bandit.EliminateIfInferior` | distil/calibrate.py:263-265 | an arm is dropped iff its interval lies below the margin |
| `Bandit.ProcessArm` | distil/calibrate.py:252-265 | one arm's part of a round changes that arm only |
| `Bandit.Round` | distil/calibrate.py:249-265 | a round is the one `RoundFollows` describes, makes progress, keeps the accounts, and leaves live arms with equal counts unless the budget ran out |
| `Bandit.Explore` | distil/calibrate.py:248-273 | terminates within the budget; round leads to round while exploration goes on, and it stops as soon as it does not |
| `Bandit.FirstCertifiedIsBest` | distil/calibrate.py:287-300 | the first certified arm in order is the most aggressive certified one |
| `Bandit.CertifiedTopIsBest` | distil/calibrate.py:266-273 | a certified live front-runner is the best of all arms, dropped ones included |
| `Bandit.TableFresh` | distil/calibrate.py:244-247 | the table starts with distinct names, all live, nothing counted |
| `Bandit.Pick` | distil/calibrate.py:287-300 | the most aggressive certified arm, or nothing iff there is none |
| `Bandit.SelectOperatingPoint` | distil/calibrate.py:209-311 | the arms are those of a whole exploration, which stops as soon as it may; draws equal the sum of counts and stay within budget; the selected arm is live, certified and most aggressive; fail safe iff none is; an early stop selects the arm that caused it |
| `SelectionLaws.CertifiedIff` | distil/certify/stats.py:144-176 | certified: enough samples, and gains less losses per sample, less z standard errors, above the tolerated drop |
| `SelectionLaws.DroppedIff` | distil/calibrate.py:263-265 | dropped: the same, plus z standard errors, below it |
| `SelectionLaws.CertifiedIsSafe` | distil/certify/stats.py:144-176 | in a certified arm gains less losses exceed the tolerated drop of its samples |
| `SelectionLaws.DroppedIsWorse` | distil/calibrate.py:263-265 | in a dropped arm losses less gains exceed it |
| `SelectionLaws.CountersAreDraws` | distil/calibrate.py:252-262 | an arm's counters are the numbers of its draws, of the negative ones and of the positive ones |
| `SelectionLaws.SelectedIsSafe` | distil/calibrate.py:209-311 | in the draws of a selected arm gains less losses exceed the tolerated drop of their number, and no certified arm keeps fewer turns |
| `SelectionLaws.DroppedIsInferior` | distil/calibrate.py:263-265 | in the draws of a dropped arm losses less gains exceed it |
| `SelectionLaws.TableStands` | distil/calibrate.py:244-247 | the arms are the names in the order of their first points, each with the gate of its last point |
| `ScheduleLaws.GoesOnIff` | distil/calibrate.py:249-273 | exploration goes on iff there is budget, a live arm, and the live arm that keeps the fewest turns is not certified |
| `ScheduleLaws.RoundIs` | distil/calibrate.py:249-265 | a round in full: each live arm in that order is drawn a batch of times or until the budget is spent, and exactly the arms that are then decisively inferior are dropped |
| `ScheduleLaws.ExplorationUnique` | distil/calibrate.py:244-273 | the outcome of an exploration is determined by points, draws and settings |
| `Calibration.DiscordantIsPassDifference` | distil/calibrate.py:84-96 | gains less losses is the difference of the two pass counts over the paired instances |
| `SelectionLaws.CalibratedIsSafe` | distil/calibrate.py:84-143 | at a point that static calibration certifies, passes less the baseline's passes over the instances both ran exceed the tolerated drop of their number |
| `Calibration.CalibrateOperatingPoint` | distil/calibrate.py:99-143 | the most aggressive non-inferior point, or nothing iff there is none, with every verdict in order |
| `Calibration.BanditPicksStaticChoiceIff` | distil/calibrate.py:99-311 | on the same counters bandit and static calibration agree iff the static choice has the minimum of samples, or there is none |
| `DecisionCache.Cache.Decide` | benchmarks/prove.py:89-98 | a hit changes nothing but the hit count; a miss makes one call and stores its answer |
| `BuildLaws.KeyIs` | benchmarks/prove.py:73-80 | the key of a question: that of the context, then that of what can be restored if anything can, then the draw |
| `BuildLaws.SameSlotIff` | benchmarks/prove.py:73-80 | two questions about one context and draw share a slot iff the hashes of their restore keys agree, or neither has any |
| `DecisionCache.Cache.Gather` | benchmarks/prove.py:105-111 | the requests to ask: first occurrences of keys that are not stored |
| `DecisionCache.PendingExactlyNew` | benchmarks/prove.py:105-111 | in order, and exactly the first occurrences of unstored keys |
| `DecisionCache.PendingCount` | benchmarks/prove.py:100-111 | as many as there are distinct unstored keys |
| `DecisionCache.DecideEachSkips` | benchmarks/prove.py:89-98 | requests whose keys are known change nothing |
| `DecisionCache.DecideEachKeeps` | benchmarks/prove.py:89-98 | a stored answer is never replaced |
| `DecisionCache.DecideEachAnswers` | benchmarks/prove.py:89-98 | every new entry is the answer to one of the calls made, which asked a request with that key |
| `DecisionCache.DecideEachAsksTwice` | benchmarks/prove.py:89-98 | two different keys that were not stored before are answered by two different calls |
| `DecisionCache.Cache.AskPending` | benchmarks/prove.py:114-134 | asking only what is pending, in order, reaches the state of deciding every request in turn |
| `DecisionCache.Cache.Prefetch` | benchmarks/prove.py:100-134 | leaves exactly the store, after exactly the calls, that deciding the requests one at a time would, whatever the runner answers |
| `DecisionCache.PrefetchGrows` | benchmarks/prove.py:100-134 | the store only grows, by the distinct uncached keys, one call each |
| `DecisionCache.PrefetchTwice` | benchmarks/prove.py:100-134 | prefetching the same requests again asks nothing and changes nothing |
| `PrefetchPool.WorkKeeps` | benchmarks/prove.py:116-127 | a worker finishing a call, in any order, keeps the pool's invariant |
| `PrefetchPool.ConsumeKeeps` | benchmarks/prove.py:128-133 | storing the next answer keeps the pool's invariant |
| `PrefetchPool.RunKeeps` | benchmarks/prove.py:114-133 | the invariant holds in every reachable state of the pool |
| `PrefetchPool.PoolGrows` | benchmarks/prove.py:100-134 | whatever the order in which workers finish: one call per distinct uncached key, and the store only grows, by those keys |
| `PrefetchPool.SteadyPoolIsSerial` | benchmarks/prove.py:100-134 | with a runner that does not vary, a pool leaves the very store one worker leaves |
| `PrefetchPool.PoolFinishes` | benchmarks/prove.py:114-133 | every run takes at most two steps per pending request, and a step is possible iff something is not yet stored |
| `MatrixBuild.PlanOneTurn` | benchmarks/prove.py:171-186 | one planned turn with its requests: base, optional second draw, every compressed context |
| `MatrixBuild.PlanAll` | benchmarks/prove.py:167-187 | the plan and all its requests |
| `MatrixBuild.CompPlanned` | benchmarks/prove.py:180-181 | every compressed context of a turn has its request |
| `MatrixBuild.TurnPlanned` | benchmarks/prove.py:177-187 | every request of a turn is among those of its trajectory |
| `MatrixBuild.EntryPlanned` | benchmarks/prove.py:177-187 | every request of a trajectory is among those of the run |
| `MatrixBuild.PrefetchWarms` | benchmarks/prove.py:190 | after the prefetch every planned request is answered |
| `MatrixBuild.ControlIsDrawnAnew` | benchmarks/prove.py:73-80 | the self-agreement control is an independent draw: where neither of a turn's two base keys was stored, base and control answers come from two different calls to the runner |
| `MatrixBuild.AssembleTurn` | benchmarks/prove.py:197-222 | one row: no call, no change of the store, one hit per planned request, and the row read off the store |
| `MatrixBuild.AssembleCells` | benchmarks/prove.py:212-222 | the cells of a row, one hit each |
| `MatrixBuild.Assemble` | benchmarks/prove.py:192-224 | phase 3 makes no call: every lookup is a hit, and the matrix is a function of the store |
| `MatrixBuild.BuildMatrix` | benchmarks/prove.py:146-225 | one call per distinct uncached planned key, one hit per planned request, and the matrix read off the final store |
| `MatrixBuild.PoolWarms` | benchmarks/prove.py:100-190 | a finished pool, in whatever order its workers finished, has answered every planned request |
| `MatrixBuild.AssembleAfterPool` | benchmarks/prove.py:189-225 | assembly after a pool: no call, one hit per planned request, and the matrix read off the store the pool left |
| `MatrixBuild.WorkersDoNotShow` | benchmarks/prove.py:100-225 | with a runner that does not vary, the matrix does not depend on the number of workers |
| `MatrixBuild.SecondBuildIsFree` | benchmarks/prove.py:146-225 | building again calls nothing and gives the same matrix |
| `MatrixBuild.CellsAreRungs` | benchmarks/prove.py:172-222 | a row has one cell per rung name, from the last rung of that name; no loss iff its answer equals the base answer |
| `BuildLaws.RowSays` | benchmarks/prove.py:197-222 | a row: the answer to the turn's own context and its size, the reference answer if any, and under the control whether the second draw differs |
| `BuildLaws.MatrixSays` | benchmarks/prove.py:192-224 | one record for each trajectory id, from the last entry with it, with one row for each of its turns in order |
| `BuildLaws.MatrixKeysAre` | benchmarks/prove.py:192-224 | the ids of the matrix are those of the entries |
| `MatrixBuild.UnalteredContextLosesNothing` | benchmarks/prove.py:197-222 | a rung that leaves the rendered context alone never shows a loss, however the runner varies |
| `Corpus.IndicesDecideOrder` | distil/corpus.py:83-106 | the two running indices decide whether a volatile block precedes a non-volatile one |
| `Corpus.TrackOne` | distil/corpus.py:91-97 | comparing with the last text of an id keeps track of pairwise agreement |
| `Corpus.TracksAgree` | distil/corpus.py:91-97 | a change was reported iff two occurrences of a stable id disagree |
| `Corpus.SeeBlock` | distil/corpus.py:86-103 | one block: table and flags after it, and whether its text differs from the last one of its id |
| `Corpus.ScanTurn` | distil/corpus.py:82-108 | one turn: table, flags and changed texts after it, and exactly whether a volatile block comes too early |
| `Corpus.BlocksAre` | distil/corpus.py:82-86 | the blocks judged are those of all turns |
| `Corpus.Validate` | distil/corpus.py:57-117 | the loop's list of problems, in its order; it is empty iff the trajectory is well formed, and each kind of problem is reported iff its invariant is broken; that is the documented notion iff an accepted trajectory has a volatile decision in a tool output |
| `CorpusLaws.DecidesIff` | distil/corpus.py:98-103 | a block carries a decision iff its text contains the marker |
| `CorpusLaws.AcceptedIff` | distil/corpus.py:57-117 | a trajectory is accepted iff it has three turns, a known model, no volatile block before another kind, stable texts that never change, and the three kinds of block, said block by block |
| `CorpusLaws.ChangesAre` | distil/corpus.py:82-97 | a changed text is reported for a turn and an id iff in that turn a stable block of that id differs from the last one of that id before it; the table always holds that last text |
| `CorpusLaws.ReportedIff` | distil/corpus.py:82-117 | the same of the whole list of problems |
| `Corpus.MeetsDocumentationIff` | distil/corpus.py:57-117 | what is accepted is what is documented iff a well-formed trajectory has a volatile decision in a tool output; the documented trajectories are always accepted |
| `Corpus.DecisionNeedNotBeToolOutput` | distil/corpus.py:100-101 | a trajectory that is accepted and not as documented |

## Left out

- CacheDelta.RestoreStore.Record: does not model the disk copy of the restore store, which can refuse a
  handle as well, because its internals are file handling; the in-memory store is modelled in full.
- CacheDelta.DeltaEncode: does not model that the input objects stay unmutated, nor messages that are not a
  list (returned as they are); messages are values here.
- CacheDelta.RewriteMsg: does not model the wording of markers; an ordinary text that looks like a marker
  is therefore never confused with one.
- CacheDeltaLaws.ConversationDecodesItself: structural references are expanded from the store the run
  leaves, because they carry no formatting; exact references and diffs need the conversation only.
- Billing.BillNotLarger: takes "no message gains tokens" as a premise, because the encoder compares
  characters and the bill counts tokens.
- Billing.FixedExemptionsBillNotLarger: prices the encoder's own output; the benchmark's methods run
  `compress_messages` after it, which is not part of this model.
- Replay.EncodedReplayNeverRewrites: takes the encoder as the transform of the replay, which in the
  source is `compress_messages`.
- AtRest.KeyFile.LoadKey: does not model concurrent creators of the key file, partial writes or modes,
  because they are operating-system behaviour.
- CallScanner.CallSpans: the head pattern is modelled as a maximal run of word characters before a paren
  with white space between; the case folding of head names is part of a parameter.
- OpWindows.ExtractOps: starts from the operations the patterns found; the patterns, the normalisation of
  paths and the search for a failure marker are parameters.
- ToolTexts.IterToolTexts: slots and the adjudicated mark are constructors instead of text prefixes, so a
  narration that begins with such a prefix is not confused with one; flattened content and rendered
  argument lists are given.
- PrefixCache.Simulate: takes the requests as given instead of calling `compress_messages`, and leaves out
  the raw and entry totals, which play no part in reads and writes.
- Bandit.SelectOperatingPoint: a batch of at least 1 is required, since with 0 the loop makes no
  progress; a negative budget, which samples nothing, is not modelled; the standard error is a parameter.
- MatrixBuild.BuildMatrix: prefetches with one worker; `AssembleAfterPool` composes assembly with a pool.
- DecisionCache.Cache.Prefetch: one worker; a pool is the state machine of `PrefetchPool`, in which a
  call is one atomic step. Checkpoint files are not modelled.
- Corpus.Validate: problems are constructors without their wording.
- Floating-point rounding, `round()` and printed percentages: reals are used throughout.
- The coding benchmark's transforms other than the encoder, its corpus generator and its token tables.
- Locks: the registry and the session are modelled between their critical sections.
- Fitting of coefficients around `solve`, bootstrap statistics, tables and command lines.
- HTTP serving, adapters and the compression pipeline: plumbing over libraries.
