# LiteSVM engine: a Dafny model

LiteSVM is an in-process Solana VM for tests. Its engine wraps an external transaction replayer in a
stateful virtual ledger: an account store, a typed sysvar cache with account mirrors, a
compiled-program cache, a slot counter, a blockhash queue, a bounded transaction history and a
per-instance compute budget. This project models that wrapper and the feature-gate generator beside
it, and proves what they keep over every run.

## How the model is built

- `LiteSVMs.LiteSVM` is the instance: a class with the engine's fields. Each of its methods works in
  place, with the loops of the source, is proved against a specification function on a snapshot
  (`Engine.State`) of those fields, and keeps `Valid()`: a consistent history within its capacity, an
  honored budget, a single queued hash, and a slot counter that is the Clock's. The methods that write
  sysvars or programs also keep the sysvar views coherent and the compiled programs fresh.
- `Steps.Apply` makes those operations steps of one state machine, and `Steps.IsRun` relates a sequence
  of steps to the states it goes through (`Steps.RunsExist`: every sequence of steps is a run from every
  state). The whole-run results are about every state of every run; `LiteSVMs.RunSteps` carries a run out
  on an instance.
- Code that is called but not contained in the repository is represented by function values in
  `Engine.Library`, constrained only by the laws a theorem names: `Engine.KindLaw` and
  `Engine.LawfulCodec` (sysvar codecs), `Programs.Recoverable` (the derived programdata address),
  `Pipeline.LawfulNonce`, `SysvarRuns.NonceSparesSysvars`. `Libraries.PlainLibrary` meets all of them
  with the byte layouts of `SysvarCodecs`.
- Replay is a different function for every send: anything that depends on the slot context, the
  rewritten transaction and the simulation flag. What is asked of its reports is stated where it is
  used: `Pipeline.WellFormed` (updates come exactly with a processed transaction), `Runs.RespectsAge`
  (an aged-out transaction is not included), `Pipeline.Balanced` (the updates of a success sum to
  minus the fee).
- Integer widths are written out: 8-bit header counts wrap, 16-bit program indexes and 32-bit payloads
  truncate, the execution slot saturates at 64 bits.

| file | contents |
|---|---|
| `Types.dfy`, `LittleEndian.dfy`, `Engine.dfy` | values, integers in bytes, the state, the external functions |
| `Messages.dfy`, `ComputeBudgets.dfy` | key roles, instruction meaning, the budget rewrite |
| `Lookups.dfy` | address-table resolution |
| `Ledger.dfy`, `Outcomes.dfy` | lamport totals, commit, simulation reports, inner instructions |
| `Histories.dfy` | bounded history, FIFO log, eviction |
| `Sysvars.dfy`, `SysvarCodecs.dfy`, `VectorSysvars.dfy`, `Programs.dfy`, `Writes.dfy` | the cached views and their agreement with the store; what host writes store |
| `Pipeline.dfy`, `Trips.dfy` | one trip of a transaction, and what it does on the report's own fields |
| `Steps.dfy`, `Runs.dfy`, `LedgerRuns.dfy`, `SysvarRuns.dfy`, `ProgramRuns.dfy`, `Invariants.dfy` | runs |
| `LiteSVMs.dfy` | the class |
| `Libraries.dfy` | a library that meets every law |
| `GatesParser.dfy`, `GatesTree.dfy`, `GatesCatalog.dfy`, `GatesGuards.dfy` | the feature-gate generator |

## Findings

- The budget rewrite appends the compute-budget program to the keys before replay has checked the
  message. An instruction that was malformed because it pointed exactly one past the last key is
  thereby made valid (`ComputeBudgets.PointingPastEndBecomesValid`); every other instruction keeps its
  meaning (`ComputeBudgets.OverrideKeepsMeaning`, an if and only if).
- The readonly count of the header is 8 bits wide. At 255 the rewrite wraps it to 0 and turns readonly
  keys writable (`ComputeBudgets.FullHeaderTurnsWritable`); it keeps every role exactly otherwise
  (`ComputeBudgets.OverrideKeepsRoles`).
- The program index of the appended instructions is 16 bits wide. With the compute-budget program
  listed behind 65536 keys the rewrite does not recognize itself and is not idempotent
  (`ComputeBudgets.FarKeyRewrittenTwice`); otherwise it is (`ComputeBudgets.OverrideIdempotent`).
- Lookup visibility compares the last extension slot with the current slot for equality. Warping
  forward onto that very slot hides addresses that were visible before it
  (`Libraries.WarpHidesAddress`). That, deactivation at the new slot, and using the Clock account as a
  table are the only ways in which a warp changes a result (`Lookups.WarpKeepsResolutionExactly`).
- In the generator a dev-only cfg drops the id on the next code line only: stacked above another cfg,
  or above a whole module, it drops nothing (`GatesGuards.DevOnlyReachesOneLineOnly`). The catalog is
  what the docstring promises exactly when no tree does either (`GatesGuards.GuardsHoldExactly`,
  `GatesGuards.CatalogIsIntendedExactly`).
- Installs and commits do not refresh the sysvar cache. Storing an account at a sysvar address that way
  breaks coherence unless the mirrored account itself is stored (`SysvarRuns.CoherentStep`, an if and
  only if; `SysvarRuns.InstallBreaksFreshInstance`), so the coherence theorem asks this of each step.
- Commits do not evict compiled programs. A committed update that rewrites a cached program leaves the
  old bytes being served (`ProgramRuns.RewrittenProgramIsServedStale`); a commit that neither rewrites
  nor drains a cached program keeps the cache exact, and no other does
  (`ProgramRuns.CommitKeepsCacheExactly`).

## Model

| member | source | states |
|---|---|---|
| `Runs.ReplayProtection` | tx.go:82-137 | over any run with signatures verified and the capacity never below c > 0, two included sends of one signature have inclusions of at least c distinct other signatures between them, whatever else is interleaved |
| `Runs.IncludedIsFresh` | tx.go:82-96 | under those settings an included send is never of a signature still in the history |
| `Runs.AgeContractFromReplay` | tx.go:91-115 | the age contract for the submitted message follows from the one for the rewritten message that replay sees |
| `Runs.UnverifiedSendsRepeat` | tx.go:54-61 | with signature verification off one transaction can be included twice in a row |
| `Trips.BadSignatureIsRefused` | tx.go:68-73 | while signatures are verified, a transaction whose signatures fail is refused as "SignatureFailure" before anything else and changes nothing |
| `Trips.OnlyVerifiedSendsAct` | tx.go:68-137 | over every run, a send that is included or changes anything while signatures are verified carries good ones |
| `Runs.StepFrame` | svm.go:287-484 | what each operation does outside the account store and the caches: only included sends and capacity changes move the history, only an accepted budget the budget, only an expiry the queue |
| `Runs.HistoryIsBoundedLog` | svm.go:440-477 | in every reachable state the history has no duplicates, lists exactly the map's keys and respects the capacity, and over the run it equals a bounded FIFO log of inclusions and capacity changes |
| `Runs.HistoryKeepsLatest` | tx.go:126-137 | a retained signature maps to the outcome of its latest included send |
| `Histories.RefinesLog` | svm.go:471-477 | map plus order refine one bounded list under every trace of recordings and resizings |
| `Histories.RepeatsAreFarApart` | svm.go:471-477 | eviction is first in, first out: a signature leaves only after c distinct later ones |
| `Histories.RecordRefines` | tx.go:130-137 | recording updates a repeated signature in place and appends a new one, pushing out the oldest |
| `LiteSVMs.LiteSVM.TrimHistory` | svm.go:471-477 | the popping loop drops exactly the oldest entries beyond the capacity from both the order and the map |
| `LiteSVMs.LiteSVM.SetTransactionHistory` | svm.go:440-451 | a negative capacity is refused, 0 empties the history, any other trims it; the instance stays valid |
| `LedgerRuns.LedgerConserved` | tx.go:412-473 | over every run of sends, simulations and setting changes, stored lamports plus fees debited are constant |
| `Ledger.CommitMovesTotalByNetChange` | tx.go:413-428 | committing updates one by one moves the total by the net change of the last update of each key, repeats and deletions included |
| `Ledger.UpdatesAreLastWrites` | tx.go:414-426 | the in-order commit equals applying only the last update of each key, a drained one deleting |
| `Pipeline.SendConserves` | tx.go:412-473 | a send removes from the ledger exactly the fee it debits |
| `Pipeline.FailureDebitsPayerOnly` | tx.go:429-473 | a failed included transaction debits its payer the whole fee or nothing, names the withdrawal error that replaces the outcome's, and deletes no account |
| `Pipeline.OnlyDrainedSuccessDeletes` | tx.go:416-423 | an account disappears exactly when a success drains it in its last update |
| `LiteSVMs.LiteSVM.Commit` | tx.go:412-473 | the in-place commit computes the specified store and error name; `Trips` says what these are on the report's own fields |
| `Trips.FailureIsCharged` | tx.go:429-473 | a failure with an instruction error or for want of rent, a context and a fee is charged what the payer can pay, advances the leading nonce on the debited store under the engine's own queue, and is recorded with its outcome |
| `Trips.PayerLosesFee` | tx.go:440-462 | then a payer that can pay loses exactly the fee, and no other balance moves |
| `Trips.OtherFailuresAreFree` | tx.go:429-436 | any other failure, or one without a context or a fee, leaves the store and the history alone |
| `Trips.SuccessIsCommitted` | tx.go:413-428 | a success stores the last update of each key, deletes the drained ones, leaves the rest alone and is recorded with its outcome |
| `Pipeline.SimulationPredictsSend` | tx.go:527-554 | for the same replayed execution, simulated post accounts list each distinct writable key once in first-occurrence order with the balance the send leaves, and the identical account wherever the send leaves one |
| `Outcomes.ReportPredictsCommit` | tx.go:521-554 | the same, for any store, updates and writable list |
| `Outcomes.CollectPostAccounts` | tx.go:528-553 | the two loops report each distinct writable key once, with its last update, its stored account or a default |
| `Outcomes.PopulateOutcome` | tx.go:476-555 | flag, error, fee, compute units, logs, return data, inner instructions and post accounts for every kind of report: from the processed transaction, or recovered from the execution context of a failed one; `Trips` says what these are on the report's own fields |
| `Trips.OutcomeCarriesReport` | tx.go:487-519 | the outcome of a replayed transaction, sent or simulated, carries its signature, the reported fee and compute units, the logs if recorded, the return data (of a failure only if not empty), and one list per instruction of the rewritten message |
| `Trips.OutcomeListsCalls` | tx.go:560-582 | each recorded call stands in the list of its instruction right behind the calls recorded for it before, with its program, accounts and stack height in 16 bits and its data; the list holds nothing else |
| `Trips.OutcomeFlags` | tx.go:476-485 | the outcome is ok exactly when the report holds no error, and post accounts come with successful simulations only |
| `Outcomes.InnerFromGroups` | tx.go:560-582 | list i is the in-order concatenation of all groups with index i |
| `Outcomes.RegroupingLosesOnlyOutOfRange` | tx.go:562-565 | as a multiset, the regrouped instructions are the recorded ones of the groups whose index names an instruction: no other is lost, none is duplicated |
| `Pipeline.ExecuteFrames` | tx.go:62-96 | a rejection changes nothing; a simulation changes nothing but the compiled-program cache |
| `Pipeline.ReplaySeesValidAge` | tx.go:255-273 | with age checking off replay sees the transaction's hash in front of the intact queue and every other cache slot unchanged |
| `Pipeline.InclusionAndEffectAgree` | tx.go:119-157 | a send that is not included leaves store and history alone, an outcome is ok exactly when its error is empty, an included signed send is recorded with the outcome returned |
| `Pipeline.ResendRejected` | tx.go:82-96 | resending an included transaction is refused as already processed and changes nothing |
| `Pipeline.ExecSlot` | tx.go:220-223 | the execution slot is positive and never behind the slot counter, at the largest slot too |
| `LiteSVMs.LiteSVM.ExecuteTransaction` | tx.go:62-140 | the whole trip, which keeps the instance valid; a bad signature is refused under verification and changes nothing; the queue is extended for the replay call only and is back before commit |
| `LiteSVMs.LiteSVM.AdmitTransaction` | tx.go:68-98 | signature check, lookup resolution, duplicate check and budget rewrite in this order |
| `Trips.FaultyTableIsRefused` | tx.go:299-316 | past the signatures, the first unusable table of a message refuses it, as not found, of a wrong owner, undecodable, or deactivated |
| `Trips.HiddenIndexIsRefused` | tx.go:317-333 | with usable tables, an index outside the visible addresses refuses it |
| `Trips.DuplicateIsRefused` | tx.go:82-96 | past the lookups, a recorded signature refuses it under verification when its age is not checked or still valid |
| `Trips.OthersAreReplayed` | tx.go:98-115 | every other transaction is replayed, resolved and rewritten, on the engine's own store, at the next slot, with the newest hash, the caller's flag, and a cache that differs from the engine's only by a queued hash when age is not checked |
| `LiteSVMs.LiteSVM.InjectBlockhash` | tx.go:255-273 | a hash already queued is left alone, any other is put in front; the returned cache restores the old queue |
| `LiteSVMs.LiteSVM.RecordOutcome` | tx.go:130-137 | included signed sends are recorded, then the history is trimmed |
| `Messages.FirstInstrForAgeCheck` | tx.go:165-195 | the leading instruction with its keys and roles, or nothing when an index denotes no key |
| `ComputeBudgets.ApplyComputeBudgetOverride` | tx.go:350-399 | the in-place rewrite of the message |
| `ComputeBudgets.RewrittenExactly` | tx.go:350-399 | a legacy or versioned message is rewritten exactly when a budget is set, no instruction names the compute-budget program, and the program is listed or no addresses are looked up; then one or two instructions are appended, the program if it was missing, and nothing else changes but the readonly count |
| `ComputeBudgets.BudgetReachesMessage` | tx.go:382-398 | such a message asks for exactly the configured unit limit and heap size afterwards |
| `ComputeBudgets.OverrideKeepsRoles` | tx.go:375-379 | every existing key keeps its signer and writable role, unless the 8-bit readonly count wraps |
| `ComputeBudgets.FullHeaderTurnsWritable` | tx.go:375-379 | with 255 readonly keys the count wraps to 0 and each of them turns writable |
| `ComputeBudgets.AddedKeyRole` | tx.go:375-379 | the new key is a readonly non-signer exactly when the header claims no more signers than keys and the count does not wrap |
| `ComputeBudgets.OverrideKeepsMeaning` | tx.go:366-398 | every original instruction keeps its program, accounts, roles and data, except one that pointed one past the keys |
| `ComputeBudgets.PointingPastEndBecomesValid` | tx.go:371-380 | a message where that exception happens, for every honored budget |
| `ComputeBudgets.OverrideIdempotent` | tx.go:363-370 | rewriting twice equals rewriting once, unless the key position exceeds the 16-bit index |
| `ComputeBudgets.FarKeyRewrittenTwice` | tx.go:363-387 | with the program listed behind 65536 keys the index wraps to 0 and the second rewrite appends again |
| `ComputeBudgets.OverrideInstallsBudget` | tx.go:382-398 | a message without its own budget requests exactly the configured unit limit and heap size afterwards |
| `ComputeBudgets.PayloadReadsBack` | tx.go:382-397 | the little-endian payload decodes to the value it was built from, under its own tag only |
| `ComputeBudgets.OverrideKeepsFirstInstruction` | tx.go:159-195 | the rewrite does not change the instruction that decides the age check |
| `ComputeBudgets.CheckBudget` | computebudget.go:143-221 | accepted exactly when within the limits and with every fixed constant at its default; the first violated limit, or the first changed constant, is named |
| `LiteSVMs.LiteSVM.SetComputeBudget` | computebudget.go:143-221 | a rejected budget leaves the previous one in place; the instance stays valid |
| `Runs.BudgetAlwaysHonored` | computebudget.go:143-221 | every budget in force in a reachable state satisfies the limits |
| `Runs.AdmittedMessageRequestsBudget` | tx.go:98 | so an admitted message that was rewritten requests exactly the budget in force |
| `Lookups.ResolveLookups` | tx.go:282-334 | the in-place resolution appends writable then readonly addresses, or reports an error and leaves the message alone |
| `Lookups.LoadedAddressExactly` | tx.go:327-334 | in a resolved message the address at index j of lookup i stands behind the static keys and the addresses before it, writable ones before readonly ones, and is the address its table lists there, with the role of its list |
| `Lookups.ResolvedShape` | tx.go:282-289 | a message without open lookups is left alone; resolution only appends to the keys, one per lookup index |
| `Lookups.LoadTables` | tx.go:299-326 | loads every table's visible addresses, stopping at the first faulty table |
| `Lookups.ResolveSucceedsExactly` | tx.go:300-333 | success exactly when every table exists, has the right owner, decodes, is not deactivated, and every index is visible |
| `Lookups.ResolveReportsFirstFault` | tx.go:300-316 | a table fault is the one of the first faulty lookup in message order |
| `Lookups.AdvancingHidesExactly` | tx.go:317-324 | advancing the slot hides an address exactly when it lands on the last extension slot from before it |
| `Lookups.WarpKeepsResolutionExactly` | tx.go:290-333 | a message that resolves keeps its result after any warp, forward or backward, exactly when every table stays usable at the new slot and no index reaches past the start of an extension made at that slot; if only the latter fails the index is reported |
| `Libraries.WarpHidesAddress` | tx.go:317-324 | a message that resolves on a fresh instance and reports an index error after a warp forward to slot 5 |
| `Lookups.WarpingForwardKeepsResolution` | tx.go:290-333 | in particular a warp forward keeps the result when no table was extended after the current slot and none is deactivated at the new one |
| `SysvarRuns.SysvarCoherence` | sysvars.go:184-347 | in every reachable state a stored sysvar account is the mirrored account and its bytes decode to the typed value, provided the origin's accounts avoid sysvar addresses and whatever a step stored there without a refresh was the mirrored account |
| `SysvarRuns.CoherentStep` | sysvars.go:269-347 | every operation keeps the three views of every sysvar together, except that an install, a commit or a fixed account that stores something at a sysvar address does exactly when it stores the mirrored account; draining a sysvar is harmless |
| `SysvarRuns.RawWritesCoherentExactly` | accounts.go:159-177 | the same for any set of writes that skip the refresh |
| `SysvarRuns.InstallOverSysvarBreaks` | accounts.go:159-177 | installing a program under loader v2 at a sysvar id whose mirror is not executable breaks coherence |
| `SysvarRuns.InstallBreaksFreshInstance` | accounts.go:159-177 | on a fresh instance that is every sysvar id and every program |
| `SysvarRuns.GenesisCoherent` | svm.go:96-140 | a fresh instance is coherent exactly when the fixed accounts, the default programs and the airdrop pool replace no sysvar by something else |
| `SysvarCodecs.SysvarRoundTrip` | sysvars.go:272-347 | encoded Clock, RecentBlockhashes, SlotHashes and StakeHistory values decode to themselves, whatever bytes follow |
| `SysvarCodecs.SlotHashesLayout` | sysvars.go:170-181 | SlotHashes is a 64-bit count and 40 bytes per entry, slot then hash, which is what its fixed size is made of |
| `SysvarCodecs.StakeHistoryLayout` | sysvars.go:170-181 | StakeHistory is a 64-bit count and 32 bytes per entry, epoch then the three stakes |
| `SysvarCodecs.SysvarIgnoresPadding` | sysvars.go:184-189 | padding to the fixed account size does not change what the bytes decode to |
| `SysvarCodecs.CodecsAreLawful` | sysvars.go:20-118 | these byte layouts, with defaults of the right size and the all-zero Fees, meet the codec law that coherence rests on |
| `Sysvars.SetAccountCoherent` | accounts.go:53-92 | overwriting or deleting any account keeps coherence; only undecodable sysvar bytes are rejected |
| `Sysvars.SetSysvarDataCoherent` | sysvars.go:272-277 | installing sysvar bytes keeps coherence; exactly an unknown sysvar or undecodable bytes are rejected, which changes nothing |
| `Sysvars.InstallSysvarDefaultsCoherent` | sysvars.go:20-118 | installing the defaults over any coherent views, the empty ones included, is coherent |
| `LiteSVMs.LiteSVM.WriteSysvarAccount` | sysvars.go:184-205 | padded bytes, rent-exempt balance, stored and mirrored alike |
| `LiteSVMs.LiteSVM.RefreshCache` | sysvars.go:280-347 | typed slot and, for the Clock, the slot counter; nothing on a failed decode |
| `LiteSVMs.LiteSVM.SetSysvarData` | sysvars.go:272-277 | decode first, store after; keeps the instance valid and coherent |
| `Writes.PutSysvarExactly` | sysvars.go:184-277 | bytes that decode are installed at their sysvar only: zero-padded, owned by the sysvar program, rent exempt under the Rent then in force, mirrored, with the decoded value; a Clock moves the slot |
| `LiteSVMs.LiteSVM.SetAccount` | accounts.go:53-92 | refresh, eviction, then store or delete, nothing on a failed decode: an accepted account is stored as given exactly when it holds lamports, and every other account is left alone; keeps the instance valid, the sysvars coherent and the compiled programs fresh |
| `Writes.PutAccountExactly` | accounts.go:53-92 | what an accepted account write changes, in the store, the compiled programs, the cache and the slot, and that a refused one changes nothing |
| `LiteSVMs.LiteSVM.InstallSysvarDefaults` | sysvars.go:20-118 | the nine defaults in order, then the stake-config account |
| `Writes.DefaultsExactly` | sysvars.go:20-118 | every sysvar but the recent blockhashes gets its default value, account and mirror; the Clock's account under the Rent in force before |
| `Writes.DefaultsElsewhere` | sysvars.go:20-139 | the recent blockhashes and all other accounts are left alone, and the stake config gets its fixed bytes |
| `LiteSVMs.LiteSVM.SetSysvars` | svm.go:287-294 | the defaults, with the slot counter back at 0; keeps the instance valid and coherent |
| `SysvarRuns.SlotAgreement` | svm.go:354-363 | in every reachable state the slot counter, the cached Clock's slot and the lookup slot are equal, and the execution slot is positive |
| `SysvarRuns.ClockStep` | sysvars.go:284-289 | no operation separates the slot counter from the cached Clock |
| `LiteSVMs.LiteSVM.WarpToSlot` | svm.go:354-363 | moves the Clock, its account and the slot counter together; keeps the instance valid and coherent |
| `Writes.WarpExactly` | svm.go:354-363 | a warp keeps every other field of the Clock and everything outside it |
| `SysvarRuns.BlockhashChain` | svm.go:310-350 | in every reachable state the queue is the one hash chained from "genesis" by the expiries so far; right after an expiry RecentBlockhashes is that hash with the governor's fee |
| `SysvarRuns.ExpiryInstallsQueue` | svm.go:342-350 | an expiry installs the new hash alone, and the RecentBlockhashes account decodes to it |
| `SysvarRuns.ExpiredDuplicateReachesReplay` | tx.go:84-95 | right after an expiry a recorded duplicate, legacy or versioned, is reported as already processed exactly when its age is not checked or its hash is the fresh one, the sentinel or a usable nonce; otherwise it goes on to replay |
| `LiteSVMs.LiteSVM.ExpireBlockhash` | svm.go:342-350 | the queue becomes the hash of its newest entry; never refused on a valid instance, which stays valid and coherent |
| `Writes.ExpireExactly` | svm.go:342-350 | an expiry lists the new hash at the governor's fee and touches nothing else |
| `LiteSVMs.LiteSVM.SyncRecentBlockhashes` | svm.go:318-328 | the sysvar lists the queue with the current fee |
| `LiteSVMs.LiteSVM.constructor` | svm.go:96-140 | the genesis state, which is valid |
| `Writes.GenesisSettings` | svm.go:96-140 | the default settings, an empty history of 32 entries, the genesis hash and the airdrop pool |
| `Writes.GenesisExactly` | svm.go:96-140 | every sysvar at its default, the genesis hash listed without a fee, and the fixed accounts in place |
| `LiteSVMs.LiteSVM.Perform` | svm.go:287-451 | whatever public call is made on a valid instance, it stays valid and its state is the next state of the run |
| `LiteSVMs.RunSteps` | svm.go:96-484 | any sequence of public calls on a fresh instance leaves it where the run of those steps leads |
| `Invariants.SoundStep` | svm.go:287-484 | every operation keeps a consistent history, an honored budget, a single queued hash and the slot of the Clock |
| `Invariants.Reached` | svm.go:96-484 | the end of every fresh run has the chained hash, and coherent sysvars and a fresh program cache as far as its steps allow |
| `VectorSysvars.CanonicalIsNewest` | sysvars.go:454-490 | for every input list the canonical list is strictly descending, capped, holds the last value of each key, and drops a key only for a full list of newer ones |
| `VectorSysvars.NewestIsUnique` | sysvars.go:477-484 | that description determines the list |
| `VectorSysvars.Canonicalize` | sysvars.go:457-461 | the loop of the setters |
| `VectorSysvars.SetSlotHashesInstalls` | sysvars.go:457-467 | for every list the typed value is the canonical list, the account has exactly 8 + 512 * 40 bytes and decodes back to the list |
| `VectorSysvars.SetStakeHistoryInstalls` | sysvars.go:477-490 | likewise for StakeHistory, in exactly 8 + 512 * 32 bytes |
| `VectorSysvars.VectorInstalls` | sysvars.go:184-205 | the installed account is the encoded list followed by zeros |
| `LiteSVMs.LiteSVM.SetSlotHashes` | sysvars.go:457-467 | installs the canonical list at the fixed size, keeping the instance valid and coherent |
| `LiteSVMs.LiteSVM.SetStakeHistory` | sysvars.go:480-490 | likewise |
| `ProgramRuns.ProgramCacheAgreement` | accounts.go:77-91 | over runs that compile programs at program addresses and change no cached bytes by a commit or a fixed account, each cached program was compiled from the bytes stored now |
| `ProgramRuns.ProgramsAgreeStep` | accounts.go:77-91 | every operation keeps the agreement exactly when it changes no cached bytes by a commit or a fixed account; host writes and installs evict |
| `ProgramRuns.CommitKeepsCacheExactly` | tx.go:412-473 | a commit, which evicts nothing, keeps the agreement exactly when it neither drains nor rewrites a program cached by then |
| `ProgramRuns.RewrittenProgramIsServedStale` | tx.go:413-428 | a committed update that rewrites a cached program leaves the old bytes being served |
| `ProgramRuns.LastInstalledElfRuns` | accounts.go:181-237 | after an upgradeable install, any run that leaves the program's two accounts alone still executes exactly the installed ELF |
| `Programs.InstalledElfIsServed` | accounts.go:188-236 | an install makes the id resolve through its programdata account to the ELF at offset 45, whatever was cached before |
| `Programs.SetAccountAgrees` | accounts.go:77-91 | `SetAccount` keeps cache and store in agreement |
| `Programs.InstallAgrees` | accounts.go:136-177 | so does every install, which evicts what it writes |
| `LiteSVMs.LiteSVM.AddProgramV1V2` | accounts.go:159-177 | one loader-owned account, its cache entry evicted |
| `LiteSVMs.LiteSVM.AddProgramV3` | accounts.go:181-237 | program and programdata accounts, both cache entries evicted |
| `LiteSVMs.LiteSVM.AddProgramWithLoader` | accounts.go:136-152 | empty bytes and unknown loaders are refused; only the upgradeable loader validates the ELF; the instance stays valid and its cache fresh |
| `LiteSVMs.LiteSVM.AddProgram` | accounts.go:117-122 | validates the ELF, then the upgradeable install |
| `LiteSVMs.LiteSVM.SetDefaultPrograms` | accounts.go:242-260 | installs in order without validation, evicting, and stops at the first failing program with the ones before it in place |
| `Writes.PutProgramExactly` | accounts.go:117-237 | `AddProgram` leaves a valid program in place, serving its ELF from a programdata account deployed at slot 0 with a zero authority, both accounts rent exempt; otherwise it changes nothing |
| `Writes.PutProgramUnderExactly` | accounts.go:136-177 | refusals change nothing; v1 and v2 leave one executable rent-exempt account of the loader with the given bytes; the upgradeable loader does what `AddProgram` does |
| `Writes.DefaultProgramsStop` | accounts.go:242-260 | the default programs stop at the first that fails, which is reported, with the accounts of those before it |
| `Writes.DefaultProgramsMerge` | accounts.go:242-260 | without a failure their accounts are laid over each other in order |
| `LiteSVMs.ProgramDataBuffer` | accounts.go:193-199 | the filled buffer is tag 3, slot 0, a present zero authority, then the ELF |
| `GatesParser.ParseModules` | internal/gates/gen/gen.py:87-139 | the line loop and the final checks compute the specified catalog or error |
| `GatesParser.StackAlwaysOk` | internal/gates/gen/gen.py:103-126 | after every line of any input, module bodies on the stack are strictly deeper upwards and at most the current depth |
| `GatesParser.UnbalancedIsReported` | internal/gates/gen/gen.py:124-130 | input whose braces do not balance is refused with its final depth, unless an id outside all modules comes first; a catalog counts every declaration |
| `GatesTree.ParsePrinted` | internal/gates/gen/gen.py:87-139 | for every printed tree: an id outside all modules is an error, else the first path with several production ids is, else the result is exactly the map from path to production address with the number of declarations |
| `GatesTree.PrintedParses` | internal/gates/gen/gen.py:99-126 | parsing a printed body from any position logs its production ids under the current path and returns to that position |
| `GatesCatalog.WellNamedRoundTrip` | internal/gates/gen/gen.py:128-139 | with distinct sibling names and at most one production id per module, parsing the printed tree succeeds and maps a path to an address exactly when the tree declares it |
| `GatesCatalog.RepeatedExactly` | internal/gates/gen/gen.py:131-137 | a repeated id is reported exactly when two production ids share a path |
| `GatesGuards.GuardsHoldExactly` | internal/gates/gen/gen.py:87-122 | for every tree, the ids kept are the ones no dev-only cfg guards if and only if every dev-only cfg above an id is the last cfg above it and none stands above a module or block that holds production ids; an unguarded id is never dropped |
| `GatesGuards.CatalogIsIntendedExactly` | internal/gates/gen/gen.py:87-139 | the same for the parsed catalog of a well-named tree |
| `GatesGuards.DevOnlyReachesOneLineOnly` | internal/gates/gen/gen.py:113-122 | two trees whose id a dev-only cfg is meant to drop and does not, stacked above another cfg and above a module, and one where it does |
| `GatesCatalog.JoinInjective` | internal/gates/gen/gen.py:110 | joining names with "::" merges no two paths |
| `GatesCatalog.GroupByAddress` | internal/gates/gen/gen.py:204-212 | for paths in sorted order: one entry per address, named after the first path with it and listing all of them, the entries already in the order of their names |

## Left out

- Replay, sBPF execution, ELF validation, signature checks, sha256 and address derivation are external; they appear as function values.
- Wire decoding of transactions, JSON rendering of errors, base58 and the log-bytes limit are not modelled.
- Account pointers are values here: that the store and the sysvar mirror share one account object, and that v1/v2 installs keep the caller's slice, is not captured.
- The account's own copy of its key is dropped, storing an account never fails, and the nil arguments that setters refuse are not representable.
- The contents of the sysvars other than Clock, RecentBlockhashes, SlotHashes and StakeHistory are opaque byte strings of their size.
- `SetAddressTables` of the message library never fails here, and its `ResolveLookups` reads indexes lookup by lookup.
- Program-cache eviction by size, and eviction by replay itself, are not modelled.
- VectorSysvars.Canonicalize: takes the library's `Add` as sorted insertion with replacement and truncation, as its callers document it.
- LiteSVMs.LiteSVM.constructor: the builtin, precompile and feature accounts are one arbitrary map, and a default program that cannot be installed leaves the ones before it in place where `New` returns an error.
- Native mints are an arbitrary map of accounts given to the step that stores fixed accounts; feature sets and the transfer builder are fixed data or simple builders.
- `Airdrop` is a send of a transfer built by the engine; building and signing it is not modelled.
- In the generator, the regular expressions and text scrubbing are represented by what they extract from each line; reading the registered and active lists, printing and file output are not modelled.
- Where comments promise that a pending cfg guards the declaration below it, the code's rule (the next non-blank, non-attribute line, last cfg wins) is what is modelled.
