# Verification of the Graph deployment tooling

This project models the deployment and upgrade tooling under `packages/deployment` and the token-lock
tooling under `packages/token-distribution`, with one comparison script of `packages/horizon`, and proves
properties of whole runs of it. `dafny verify dfyconfig.toml` checks everything.

**The upgrade lifecycle.** The state is the address book, rocketh's deployment records, the proxies and code
on the chain, and the directory of governance bundles. `AddressBook`, `Rocketh` (with `Chain`), `Sync`,
`Deploy`, `Bundles`, `Execution` and `Upgrade` hold one component each: functions that say what an operation
leaves behind, and a class that does it in place, step by step, proved equal to the function. `Lifecycle` puts
the steps together as a state machine. `SyncMeaning`, `DeployMeaning` and `Launch` say what the operations do
independently of these functions: names and conditions spelled out, addresses compared character by character. The
theorems about runs:

- `Convergence`: build one bundle per entry, gather, execute, sync: every implementation is the former pending
  one, with exactly determined metadata, and nothing else moved.
- `Truth`: over every run, with upgrades from outside at any point, recorded metadata describes the code at the
  address it is recorded for.
- `Drift`: a local artifact that differs from what is recorded is always deployed, and nothing else is.
- `SharedDrift`: the same for an implementation several proxies share, which rests on the gate in front of seeding,
  and its purpose: the proxies behind it end up running the artifact or with it pending.
- `SyncProperties` and `SyncGroups`: sync is idempotent from every state and keeps the book in step with the chain; a
  pass over many contracts leaves nothing to sync exactly when those with a common record agree on its address.
- `Conservation` and `Execution`: saved transactions are sent, pending, or went with a slot that was claimed again,
  and none twice; what was sent is known for every failure.

Libraries the tooling calls are small machines here: the address book replaces an entry; rocketh's records are a
map; rocketh's `deploy` does nothing exactly when its record has the same bytecode (metadata trailers aside) and
arguments and otherwise deploys at a fresh address and overwrites the record (always, when told to override); a Graph
proxy is activated by `upgrade` and `acceptProxy`, a transparent one by `upgradeAndCall`; the active implementation is what a read of the proxy's implementation slot
gives (ERC-1967, section "Logic contract address"). Linked creation bytecode has one fingerprint, which assumes that
the code of a library at an address does not change. A reverted call changes nothing, and no executor notices it.

**Desired-state configuration** (`Configuration`): checking conditions, emitting the transactions needed or, in
blind mode, all of them.

**Fingerprints and linking** (`Fingerprints`, `FingerprintSoundness`, `Linking`, `Masking`): stripping metadata,
replacing library placeholders recursively, splicing addresses, masking immutable values. Keccak is a parameter
that returns 64 digits. No global injectivity is assumed. `Comparable` says which two versions the soundness theorem
is about: versions of one length have their placeholders in the same places, and both or neither have the `0x`
prefix. Edits that change the length, the libraries or the link references are all included, with a resolver or
without, and neither condition can be dropped (`FingerprintSoundness.LiteralDigitsLookLinked`,
`FingerprintSoundness.PrefixDoesNotMatter`). Besides, keccak must keep apart what is in fact compared: the two texts
hashed at one place in the digits that are kept, two library names, and the digits of a library that only one version
links from forty zeros.

**Token locks** (`Vesting`, `Summary`, `Csv`, `Ledger`, `Batches`, `TypeScanner`): the vesting schedule, a summary
filled by interleaved asynchronous calls, the results file as a ledger of resumable runs, and the line scanner that
extracts type declarations. JavaScript doubles are exact rationals.

## Where the code does not have a property

Each of these was expected of the code and fails; the condition under which it holds is proved instead.

- A deployment is masked after the proxy moved while nothing was pending and not to the recorded implementation:
  the sync wipes the metadata but keeps rocketh's record (`Drift.ProxySyncMatch`), which masks exactly the artifact of
  that record (`Drift.OutsideMoveMasks`). Any deployment from any state records the artifact exactly if it was recorded
  before or neither book nor record have it (`Drift.DeploymentRecordsIff`). It is
  also masked after a deployment that could not read the proxy: the next run records it exactly if it could
  (`Drift.InterruptedDeploymentMasks`).
- Contracts whose syncs write a common record, such as that of a common proxy admin, leave something to sync after
  every pass unless they agree on its address (`SyncGroups.PassSettlesIff`, `SyncGroups.ProxiesAgreeIff`).
- The seeding gate lets an artifact through when there is no fingerprint to compare it with. A shared implementation
  without stored metadata is then taken for the local artifact and not deployed (`SharedDrift.LegacySeedMasks`);
  record and book stay in line exactly when nothing unverified is seeded (`SharedDrift.SharedSyncMatch`), and the
  script is masked exactly when it seeds so with the same arguments (`SharedDrift.SharedDeploymentNoticesDrift`).
- Claiming a slot again drops the pending transactions in it, so re-running an upgrade script or the orchestrator can
  lose what was saved: with nothing pending, what was sent is what was saved exactly if no claim dropped anything
  (`Conservation.EverySavedTransactionOnce`).
- Metadata of contracts without a proxy is backfilled without comparing fingerprints, so it is true exactly when the
  local artifact still has the deployed fingerprint (`Truth.PlainBackfillTruth`, `Truth.RebuildBeforeSync`).
- After a failed execution the next run sends the part that had gone out again; every transaction is sent exactly
  once if and only if that part was empty (`Execution.RerunAfterFailure`).
- Conditions that ask for different values of one parameter never settle (`Configuration.SecondRunSilentIffCompatible`);
  with a custom comparison the two modes agree exactly when accepted values are equal (`Configuration.ModesAgreeIff`).
- Writing out any placeholder as its library's digits gives other code with the same fingerprint
  (`FingerprintSoundness.LiteralDigitsLookLinked`).
- Stripping metadata erases the code exactly when its last four characters do not start with a digit or announce
  all of it (`Fingerprints.UnreadableTrailerErases`), and cuts into code without metadata exactly when its own last
  digits read as a small enough length (`Fingerprints.StrippedIff`).
- A ledger line survives the round trip exactly when its first field has no white space in front and its last none
  behind (`Ledger.LineRoundTrip`); entries that come from a configuration file always qualify (`Batches.ConfigIsClean`).
- A record saved to a results file whose last line was left open merges into that line: saving appends exactly if
  only blanks follow the last line break (`Ledger.SaveAppends`). The tool itself always leaves the file so.
- A needed type block that does not close is taken when another follows and dropped exactly when it is the last
  (`TypeScanner.OpenBlockDependsOnPosition`); `export interface X {}` is one (`TypeScanner.EmptyInterfaceDropped`).

The documentation differs from the code in two places, and the model follows the code: `packages/deployment/docs/SyncBytecodeDetectionFix.md:48-72`
says a stale implementation record is overwritten with empty bytecode, the code leaves it untouched; and
`packages/deployment/docs/SyncSpecification.md:144-157` wipes the metadata before it promotes, the code promotes first.

## Model

| member | source | states |
|---|---|---|
| `AddressBook.AddressBookOps.SetContract` | packages/deployment/lib/address-book-ops.ts:75-77 | a plain contract's entry is replaced, losing everything else in it |
| `AddressBook.AddressBookOps.SetProxy` | packages/deployment/lib/address-book-ops.ts:95-108 | a proxy's entry is replaced: no pending implementation and no metadata survive |
| `AddressBook.AddressBookOps.SetImplementation` | packages/deployment/lib/address-book-ops.ts:120-127 | only the active implementation changes, pending stays; without an entry nothing happens |
| `AddressBook.AddressBookOps.SetPendingDeploymentMetadata` | packages/deployment/lib/address-book-ops.ts:315-329 | replaces the metadata of an existing pending implementation and keeps its address |
| `AddressBook.AddressBookOps.SetPendingImplementationWithMetadata` | packages/deployment/lib/address-book-ops.ts:345-369 | stores address and metadata together; refused for an entry that is not a proxy |
| `AddressBook.AddressBookOps.PromotePendingImplementationWithMetadata` | packages/deployment/lib/address-book-ops.ts:382-399 | the pending address and its metadata become the active ones and pending is cleared, or nothing happens |
| `Sync.Syncer.ReconcileEntry` | packages/deployment/lib/sync-utils.ts:484-524 | the three outcomes of comparing book, pending and chain: promote, overwrite and wipe, or leave |
| `Sync.Syncer.ImportAddressRecord` | packages/deployment/lib/sync-utils.ts:604-615 | an address-only record is written exactly when it is missing or has another address |
| `Sync.Syncer.BackfillProxyMetadata` | packages/deployment/lib/sync-utils.ts:617-647 | proxy metadata is taken from rocketh exactly when rocketh is newer |
| `Sync.Syncer.SyncPlainContract` | packages/deployment/lib/sync-utils.ts:791-897 | seeding, moving and backfilling of a contract without a proxy |
| `Sync.Syncer.SyncImplementationRecord` | packages/deployment/lib/sync-utils.ts:675-757 | behind the fingerprint gate: import, patch arguments, backfill to pending or active metadata |
| `Sync.Syncer.SyncProxyContract` | packages/deployment/lib/sync-utils.ts:484-766 | the whole sync of a proxy, with its failure exits |
| `Sync.Syncer.Run` | packages/deployment/lib/sync-utils.ts:381-480 | building the specification and dispatching to the right kind of sync |
| `Addresses.SameIff` | packages/deployment/lib/sync-utils.ts:494-499 | addresses compare as equal if and only if they have the same length and every pair of characters is equal or the two cases of one letter |
| `SyncMeaning.SpecFields` | packages/deployment/lib/sync-utils.ts:381-440 | what is built of a contract, with the admin on record, and exactly when building fails |
| `SyncMeaning.EntryFollowsChain` | packages/deployment/lib/sync-utils.ts:484-524 | a pending implementation that became active is promoted, one in force stays with its metadata, any other replaces the entry's and wipes its metadata; letter case counts for nothing |
| `SyncMeaning.ProxyRecordsFollow` | packages/deployment/lib/sync-utils.ts:560-672 | three records are at the addresses of the proxy and of the admin on record, and keep what they had if they were there already |
| `SyncMeaning.OtherRecordsStay` | packages/deployment/lib/sync-utils.ts:556-757 | no record changes but those three and the implementation's |
| `SyncMeaning.ProxyMetadataFollows` | packages/deployment/lib/sync-utils.ts:617-647 | the proxy's metadata is that of a later record, else what it was |
| `SyncMeaning.ImplementationFollows` | packages/deployment/lib/sync-utils.ts:675-757 | unless the local artifact is known to be the latest implementation nothing happens; else its record is brought to its address and completed, and later metadata is taken over |
| `SyncMeaning.PlainFollows` | packages/deployment/lib/sync-utils.ts:791-897 | the record and the metadata of a contract without a proxy after its sync, and when the record is seeded |
| `SyncMeaning.NotSynced` | packages/deployment/lib/sync-utils.ts:461-480 | nothing happens without an address or for an address-only contract |
| `SyncMeaning.ProxyFailures` | packages/deployment/lib/sync-utils.ts:484-556 | an unreadable proxy changes nothing, one without code only its entry |
| `SyncProperties.SyncIdempotent` | packages/deployment/lib/sync-utils.ts:461-902 | a second sync changes neither store and reports the same, from every starting state |
| `SyncProperties.SyncSafety` | packages/deployment/lib/sync-utils.ts:485-524 | afterwards the book names the active implementation, a remaining pending differs from it, and pending disappears exactly by having become active |
| `SyncProperties.ReconcileSettles` | packages/deployment/lib/sync-utils.ts:494-524 | one reconcile leaves nothing to reconcile and touches one entry |
| `SyncProperties.ImplementationSyncIdempotent` | packages/deployment/lib/sync-utils.ts:691-757 | import, patch and backfill settle in one pass |
| `SyncProperties.ProxySyncIdempotent` | packages/deployment/lib/sync-utils.ts:556-757 | a proxy's aliases, admin record and metadata settle in one pass |
| `Sync.Syncer.SyncGroup` | packages/deployment/lib/sync-utils.ts:985-1001 | the loop over the contracts; a failed one is reported and does not stop the rest |
| `SyncGroups.SpecsBuiltFirst` | packages/deployment/lib/sync-utils.ts:1125-1166 | building all specifications before the first sync gives the same as syncing each contract as it then is |
| `SyncGroups.StaysLocal` | packages/deployment/lib/sync-utils.ts:461-902 | a contract with nothing left to sync stays so as long as its entry and its own records do not change |
| `SyncGroups.OtherSyncStays` | packages/deployment/lib/sync-utils.ts:556-657 | it also stays so when another contract is synced that agrees on the records both write |
| `SyncGroups.ProxiesAgreeIff` | packages/deployment/lib/sync-utils.ts:649-672 | two proxies agree if and only if they have different admin records or the same admin |
| `SyncGroups.PassSettlesIff` | packages/deployment/lib/sync-utils.ts:970-1026 | after a pass over any contracts none has anything left to sync if and only if all agree on the addresses of common records |
| `SyncGroups.PassIdempotent` | packages/deployment/lib/sync-utils.ts:970-1026 | further passes over any of them, in any order, then change nothing |
| `Deploy.Deployer.RockethDeploy` | packages/deployment/lib/deploy-implementation.ts:378-392 | the record is reused exactly when bytecode and arguments are unchanged and nothing forces a deployment, else code appears at a fresh address |
| `Deploy.Deployer.DeployImplementation` | packages/deployment/lib/deploy-implementation.ts:290-437 | the skip, deploy and pending decision with its failure exits |
| `Deploy.Deployer.DeployStandaloneContract` | packages/deployment/lib/deploy-standalone.ts:36-71 | deploys if needed and replaces the entry by a bare one |
| `Deploy.Deployer.DeployShared` | packages/deployment/deploy/allocate/direct/01_impl.ts:27-68 | sync, deploy, record with metadata only when new, sync again |
| `Deploy.Deployer.FollowShared` | packages/deployment/lib/issuance-deploy-utils.ts:298-356 | an existing proxy's pending implementation follows the shared one, with the shared metadata |
| `Deploy.Deployer.LaunchProxy` | packages/deployment/lib/issuance-deploy-utils.ts:434-474 | a new proxy: three records, one entry, and code and proxy on the chain |
| `Deploy.Deployer.DeployProxyContract` | packages/deployment/lib/issuance-deploy-utils.ts:278-393 | existing or new, own or shared implementation |
| `DeployMeaning.ImplementationScript` | packages/deployment/lib/deploy-implementation.ts:290-437 | every outcome of the script spelled out: when it fails, skips, deploys and records |
| `DeployMeaning.StandaloneScript` | packages/deployment/lib/deploy-standalone.ts:36-71 | new code unless rocketh has the artifact, and in either case a bare entry at its address |
| `DeployMeaning.SharedDeploymentMeaning` | packages/deployment/deploy/allocate/direct/01_impl.ts:39-63 | new code with its metadata in the book unless rocketh has the artifact |
| `DeployMeaning.SharedScriptMeaning` | packages/deployment/deploy/allocate/direct/01_impl.ts:27-68 | a failed first sync stops the script, a failed last one is reported |
| `DeployMeaning.FollowScript` | packages/deployment/lib/issuance-deploy-utils.ts:298-356 | an existing proxy gets the shared implementation as pending unless it runs it, whatever the letter case |
| `Launch.LaunchFailsIff` | packages/deployment/lib/issuance-deploy-utils.ts:387-393 | a launch fails exactly when the implementation it needs is missing |
| `Launch.LaunchedEntry` | packages/deployment/lib/issuance-deploy-utils.ts:434-474 | the new entry names the proxy, the admin that governs it on chain and the implementation it runs |
| `Launch.LaunchedMetadata` | packages/deployment/lib/issuance-deploy-utils.ts:446-474 | the metadata of the proxy, and of an implementation deployed with it |
| `Launch.LaunchedRecords` | packages/deployment/lib/issuance-deploy-utils.ts:409-474 | the records and the code a launch leaves |
| `Launch.LaunchedIsReady` | packages/deployment/lib/issuance-deploy-utils.ts:446-467 | once something with code is pending, a launched proxy can be upgraded through what was recorded |
| `Bundles.SaveGatherRoundTrip` | packages/deployment/lib/tx-builder.ts:148-203 | saving a builder and gathering the file gives back its transactions with their metadata, in order |
| `Bundles.TxBuilder.AddTx` | packages/deployment/lib/tx-builder.ts:148-152 | transaction and metadata lists stay parallel and the transaction is padded |
| `Bundles.TxBuilder.Save` | packages/deployment/lib/tx-builder.ts:195-204 | the written file, from which the builder's contents can be read back |
| `Bundles.TxDirectory.ClaimBundleSlot` | packages/deployment/lib/execute-governance.ts:136-145 | removes the pending file of that name and the sources once gathered into it, nothing else |
| `Bundles.TxDirectory.CreateGovernanceTxBuilder` | packages/deployment/lib/execute-governance.ts:101-122 | an empty builder for a claimed slot |
| `Bundles.TxDirectory.GatherBundles` | packages/deployment/lib/gather-bundles.ts:38-67 | appends the present bundles in entry order and names those that contributed |
| `Bundles.TxDirectory.MarkIncorporated` | packages/deployment/lib/gather-bundles.ts:83-91 | relocates the sources, or stops at one that is gone |
| `Bundles.TxDirectory.Consolidate` | packages/deployment/deploy/gip/0088/upgrade/04_upgrade.ts:62-127 | claim, gather, save, relocate |
| `Conservation.ConsolidationConserves` | packages/deployment/lib/gather-bundles.ts:38-91 | on distinct names consolidation cannot fail, keeps the multiset of pending transactions, orders them by entry, and its sources leave the top level |
| `Conservation.ActionKeepsBalance` | packages/deployment/lib/execute-governance.ts:101-145 | claiming, saving, consolidating and executing, with any slot free or not, each keep sent plus pending plus dropped equal to saved |
| `Conservation.EverySavedTransactionOnce` | packages/deployment/lib/execute-governance.ts:497-539 | in failure-free histories every saved transaction is sent, pending or dropped by a claim exactly once; when nothing is pending, sent is saved if and only if no claim dropped anything |
| `Conservation.ClaimDrops` | packages/deployment/lib/execute-governance.ts:136-145 | a claim removes exactly the pending transactions of its own file |
| `Conservation.SourcesWellFormed` | packages/deployment/lib/gather-bundles.ts:44-66 | the gathered sources are distinct, present, and include every entry's non-empty bundle |
| `Execution.SelectBundles` | packages/deployment/lib/execute-governance.ts:289-314 | what is selected, in both directions: everything available if it is a single file or on request, a named file exactly if it is there, and otherwise which refusal |
| `Execution.Executor.ExecuteFile` | packages/deployment/lib/execute-governance.ts:502-528 | one bundle is sent in order and moved, or a prefix of it is sent and it stays |
| `Execution.Executor.ExecuteFiles` | packages/deployment/lib/execute-governance.ts:500-539 | the bundles in order up to the first failure, with the effect on the chain |
| `Execution.Executor.ExecuteTxBatchDirect` | packages/deployment/lib/execute-governance.ts:202-246 | the batch is sent and only the audit copy is written; an empty batch does nothing |
| `Execution.Executor.ExecuteGovernanceTxs` | packages/deployment/lib/execute-governance.ts:332-476 | a command with a key that ought to send sends exactly the files it is about and moves them; selection errors and a governor without a key execute nothing |
| `Execution.ExecutionLog` | packages/deployment/lib/execute-governance.ts:497-539 | for any failure point: sent is the completed bundles, exactly those in `executed/`, plus a prefix of the failing one, which stays pending |
| `Execution.RerunSendsNothing` | packages/deployment/lib/execute-governance.ts:289-314 | after a complete run the directory is empty, so whatever listing of it is read nothing is selected |
| `Execution.RerunAfterFailure` | packages/deployment/lib/execute-governance.ts:497-539 | exactly what two runs send around a failure, and when that is everything exactly once |
| `Upgrade.Upgrader.SetSharedPending` | packages/deployment/lib/upgrade-implementation.ts:160-201 | nothing pending: a shared implementation that moved becomes pending with its metadata |
| `Upgrade.Upgrader.BuildUpgradeTxs` | packages/deployment/lib/upgrade-implementation.ts:147-286 | appends one call for a transparent proxy, two for a Graph proxy, none without a pending implementation |
| `Upgrade.Upgrader.UpgradeImplementation` | packages/deployment/lib/upgrade-implementation.ts:304-327 | claims the slot and saves the file only if there is an upgrade |
| `Upgrade.UpgradeFileIsCurrent` | packages/deployment/lib/upgrade-implementation.ts:203-327 | afterwards the file exists exactly if there is a pending implementation, and then upgrades this proxy to it through the admin on record |
| `Upgrade.FollowsShared` | packages/deployment/lib/upgrade-implementation.ts:104-184 | a shared implementation at another address becomes pending with its metadata, or the script throws |
| `Upgrade.NothingToFollow` | packages/deployment/lib/upgrade-implementation.ts:147-216 | otherwise nothing changes, and it throws exactly for a missing entry or admin |
| `Upgrade.UpgradeLabels` | packages/deployment/lib/upgrade-implementation.ts:230-282 | what the file says of each transaction: the contract, whom it is sent to, and what is called |
| `Convergence.ConsolidatedFile` | packages/deployment/lib/gather-bundles.ts:38-67 | gathering freshly built bundles cannot fail and yields their concatenation |
| `Convergence.EntryActivates` | packages/deployment/lib/upgrade-implementation.ts:224-282 | both kinds of proxy end up running the pending implementation |
| `Convergence.AllActivate` | packages/deployment/lib/execute-governance.ts:500-534 | the consolidated bundle activates every entry and touches no other proxy |
| `Convergence.AllPromote` | packages/deployment/lib/sync-utils.ts:484-524 | syncing the entries promotes each, with exactly determined metadata, and leaves all others as they were |
| `Convergence.UpgradesConverge` | packages/deployment/lib/upgrade-implementation.ts:147-286 | end to end, from pending to active, for any set of entries with distinct names and proxies; the metadata is the pending one, or that of a newer record of the same fingerprint |
| `Convergence.MetadataMovesUnchanged` | packages/deployment/lib/sync-utils.ts:721-757 | without a newer record the pending metadata becomes the active one unchanged |
| `Truth.SyncKeepsTruth` | packages/deployment/lib/sync-utils.ts:494-757 | wiping on an outside change and the address-checked backfill keep recorded metadata true |
| `Truth.DeployProxyKeepsTruth` | packages/deployment/lib/issuance-deploy-utils.ts:278-575 | launching and following keep recorded metadata true |
| `Truth.UpgradeKeepsTruth` | packages/deployment/lib/upgrade-implementation.ts:160-201 | metadata copied from a shared implementation is true of the address it is copied with |
| `Truth.StepKeepsTruth` | packages/deployment/lib/deploy-implementation.ts:290-437 | every step of the lifecycle keeps recorded metadata true |
| `Truth.DeployStandaloneKeepsTruth` | packages/deployment/lib/deploy-standalone.ts:36-71 | a contract deployed on its own leaves everything recorded for proxies and shared implementations true |
| `Truth.MetadataTruth` | packages/deployment/lib/sync-utils.ts:494-524 | over all runs, with outside upgrades at any point, recorded metadata describes the code at its address |
| `Truth.TruthFromScratch` | packages/deployment/lib/address-book-ops.ts:345-399 | the same for every run from empty stores |
| `Truth.PlainBackfillTruth` | packages/deployment/lib/sync-utils.ts:864-897 | when a backfill without the fingerprint gate is true: exactly if the artifact still has the deployed fingerprint |
| `Truth.RebuildBeforeSync` | packages/deployment/lib/deploy-standalone.ts:36-71 | the run that makes it false: deploy, rebuild, sync |
| `Drift.DeploymentNoticesDrift` | packages/deployment/lib/deploy-implementation.ts:342-437 | afterwards the latest implementation is recorded as the local artifact, and a deployment happened exactly when it was not before |
| `Drift.DeploymentRecordsIff` | packages/deployment/lib/deploy-implementation.ts:342-437 | from any two stores, in line or not: exactly when a deployment deploys, and exactly when the artifact is recorded afterwards |
| `Drift.DeploymentMatch` | packages/deployment/lib/deploy-implementation.ts:378-430 | a deployment keeps rocketh's record in line with the book if and only if it is not cut off before recording |
| `Drift.ProxySyncMatch` | packages/deployment/lib/sync-utils.ts:675-719 | sync keeps rocketh's record in line with the book, except exactly when it wipes while nothing is pending |
| `Drift.StepNoticed` | packages/deployment/lib/deploy-implementation.ts:290-437 | every step, of this or any other contract or of the chain, keeps drift noticeable if and only if it is orderly |
| `Drift.DriftNeverMasked` | packages/deployment/lib/deploy-implementation.ts:342-437 | the deployment statement after every orderly run from any state in line, with orderliness read off before each step |
| `Drift.CheckedInNoticed` | packages/deployment/lib/sync-utils.ts:484-757 | a checked-in address book with no records is such a state |
| `Drift.OutsideMoveMasks` | packages/deployment/lib/sync-utils.ts:507-516 | after an outside move, a sync with any artifact and the deployment of any artifact: it is recorded unless the move was not to the recorded address and rocketh has that very artifact on record |
| `Drift.InterruptedDeploymentMasks` | packages/deployment/lib/deploy-implementation.ts:378-430 | a deployment not recorded yet is recorded after two runs if and only if the first could read the proxy and the entry is a proxy's; otherwise the second reports unchanged |
| `SharedDrift.SharedSyncMatch` | packages/deployment/lib/sync-utils.ts:213-256 | a sync keeps the record of a shared implementation in line with the book if and only if it seeds nothing unverified |
| `SharedDrift.SharedSyncSettled` | packages/deployment/lib/sync-utils.ts:836-897 | where record and book are in line a sync changes nothing |
| `SharedDrift.SharedDeploymentNoticesDrift` | packages/deployment/deploy/allocate/direct/01_impl.ts:27-68 | the script ends with the artifact recorded if and only if its own sync did not seed it unverified; exactly when it deploys |
| `SharedDrift.SharedDeployMatch` | packages/deployment/deploy/allocate/direct/01_impl.ts:27-68 | the script keeps record and book in line if and only if it was not masked |
| `SharedDrift.LegacySeedMasks` | packages/deployment/lib/sync-utils.ts:251-255 | a live entry without metadata takes any artifact for deployed, and nothing is deployed or recorded |
| `SharedDrift.SharedStepMatch` | packages/deployment/lib/sync-utils.ts:791-897 | every step of the lifecycle keeps record and book of a shared implementation in line if and only if it seeds nothing unverified for it |
| `SharedDrift.SharedDriftNeverMasked` | packages/deployment/lib/sync-utils.ts:213-256 | the deployment statement after every run in which nothing unverified was seeded |
| `SharedDrift.FollowerGetsTheArtifact` | packages/deployment/lib/issuance-deploy-utils.ts:296-391 | a proxy behind it, launched or existing, runs the recorded artifact or has it pending, truthfully |
| `SharedDrift.ArtifactReachesProxies` | packages/deployment/lib/sync-utils.ts:213-236 | end to end over any such run: after both scripts the proxy runs the local artifact or has it pending |
| `Configuration.Configurator.CheckConditions` | packages/deployment/lib/contract-checks.ts:478-552 | the status of every condition, or an error when a read reverts |
| `Configuration.Configurator.ApplyConfiguration` | packages/deployment/lib/apply-configuration.ts:93-201 | check or blind mode, then append, execute or save; with the error exits |
| `Configuration.RunConfigures` | packages/deployment/lib/apply-configuration.ts:126-200 | whichever way the transactions go, executing them configures the contract; nothing is emitted exactly when all conditions hold |
| `Configuration.OneTransactionEach` | packages/deployment/lib/apply-configuration.ts:126-200 | one transaction per unmet condition, or per condition in blind mode, in order, and each the one its condition asks for |
| `Configuration.CellSettles` | packages/deployment/lib/apply-configuration.ts:143-180 | every parameter and membership ends as some condition wants it, or untouched because all its conditions held |
| `Configuration.ConfigurationConverges` | packages/deployment/lib/apply-configuration.ts:108-183 | for compatible conditions every condition holds after one run of either mode and the next run emits nothing |
| `Configuration.SecondRunSilentIffCompatible` | packages/deployment/lib/contract-checks.ts:513-532 | under strict equality the next run is silent if and only if no two conditions conflict |
| `Configuration.BlindRefinesGuarded` | packages/deployment/lib/apply-configuration.ts:108-180 | the blind batch and the guarded batch reach the same storage |
| `Configuration.ModesAgreeIff` | packages/deployment/lib/contract-checks.ts:521-524 | with custom comparisons: the modes agree exactly when every accepted value equals its target |
| `Fingerprints.TrailerStripped` | packages/deployment/lib/bytecode-utils.ts:33-48 | a well-formed metadata trailer is removed, and nothing else |
| `Fingerprints.UnreadableTrailerErases` | packages/deployment/lib/bytecode-utils.ts:40-47 | stripping erases the code if and only if the last four characters do not start with a digit or announce exactly what precedes them |
| `Fingerprints.StrippedIff` | packages/deployment/lib/bytecode-utils.ts:33-48 | exactly when stripping loses anything, and how much |
| `Fingerprints.StripMeaning` | packages/deployment/lib/bytecode-utils.ts:33-48 | what is left of code with or without the prefix, spelled out |
| `Fingerprints.FourDigits` | packages/deployment/lib/bytecode-utils.ts:40-44 | the four digits of the trailer length are read to the base sixteen |
| `Fingerprints.NoNumber` | packages/deployment/lib/bytecode-utils.ts:40-44 | text is not a number exactly if it does not start with a digit |
| `Fingerprints.ResolveLibraryPlaceholders` | packages/deployment/lib/bytecode-utils.ts:68-106 | the loop over the libraries and the final zero fill, terminating on circle-free links |
| `Fingerprints.ComputeBytecodeHash` | packages/deployment/lib/bytecode-utils.ts:120-149 | strip, resolve, prefix, hash, in mutual recursion |
| `Placeholders.SlotOfLibrary` | packages/deployment/lib/bytecode-utils.ts:54-103 | where the compiler marked a library by its source path and name, resolving puts forty digits of that library's own fingerprint |
| `Placeholders.FingerprintOfMarked` | packages/deployment/lib/bytecode-utils.ts:120-149 | the fingerprint of such code, written out |
| `Placeholders.LibraryChangeIsNoticed` | packages/deployment/lib/bytecode-utils.ts:58-67 | it changes exactly when the kept digits of the library's fingerprint do |
| `FingerprintSoundness.RewriteFillsSlots` | packages/deployment/lib/bytecode-utils.ts:73-105 | scanning hexadecimal code for a placeholder finds exactly the slots, however they touch |
| `FingerprintSoundness.SubstitutionIsSimultaneous` | packages/deployment/lib/bytecode-utils.ts:78-105 | the library-by-library loop is one simultaneous substitution, keeps the length and leaves no placeholder |
| `FingerprintSoundness.OrderIrrelevant` | packages/deployment/lib/bytecode-utils.ts:79-103 | the order of the libraries does not matter |
| `FingerprintSoundness.TrailersIrrelevant` | packages/deployment/lib/bytecode-utils.ts:120-129 | metadata of the contract or any library it reaches does not change the hash |
| `FingerprintSoundness.FingerprintIgnoresTrailer` | packages/deployment/lib/bytecode-utils.ts:125-129 | code with another well-formed trailer has the same hash |
| `FingerprintSoundness.RankIrrelevant` | packages/deployment/lib/bytecode-utils.ts:86-93 | the evidence that links are not circular does not influence the hash |
| `FingerprintSoundness.FingerprintDeterminesCode` | packages/deployment/lib/bytecode-utils.ts:58-67 | the hash changes exactly when the stripped code of the contract or of a library reachable through occurring placeholders does, or which of these are linked; versions of one length must have their slots in the same places |
| `FingerprintSoundness.CodeChangeIsNoticed` | packages/deployment/lib/bytecode-utils.ts:68-129 | the same for the hashes of two artifacts, each with link references or without and with a resolver or without |
| `FingerprintSoundness.NoResolver` | packages/deployment/lib/bytecode-utils.ts:73-76 | a missing resolver has the effect of one that finds nothing |
| `FingerprintSoundness.LiteralDigitsLookLinked` | packages/deployment/lib/bytecode-utils.ts:94-103 | for every code and every slot of a known library: writing its digits out gives other code of the same length with the same hash |
| `FingerprintSoundness.PrefixDoesNotMatter` | packages/deployment/lib/bytecode-utils.ts:120-149 | code with and without the `0x` prefix has the same hash |
| `Linking.LinkArtifactLibraries` | packages/deployment/lib/artifact-loaders.ts:160-185 | the nested loops splice every fixup of every known library |
| `Linking.LinkedAt` | packages/deployment/lib/artifact-loaders.ts:168-176 | for 20-byte fixups that do not overlap: the length is kept and each position holds its library's digit or the original one |
| `Linking.LibraryIsLinked` | packages/deployment/lib/artifact-loaders.ts:160-185 | a library with an address stands, with all its digits, wherever the artifact refers to it |
| `Linking.ElsewhereKept` | packages/deployment/lib/artifact-loaders.ts:168-176 | every position no such reference takes up keeps its digit |
| `Linking.LinkOrderIrrelevant` | packages/deployment/lib/artifact-loaders.ts:163-177 | neither file, library nor fixup order matters |
| `Masking.MaskInPlace` | packages/horizon/scripts/verify-debug/compare-bytecode-immutable-aware.ts:19-24 | exactly the covered bytes are overwritten |
| `Masking.MaskRanges` | packages/horizon/scripts/verify-debug/compare-bytecode-immutable-aware.ts:15-26 | the masked text of a hexadecimal string |
| `Masking.MaskedEqualIff` | packages/horizon/scripts/verify-debug/compare-bytecode-immutable-aware.ts:56-64 | masked texts are equal if and only if byte counts agree and every uncovered byte does |
| `Masking.CoverageDecides` | packages/horizon/scripts/verify-debug/compare-bytecode-immutable-aware.ts:19-24 | order and overlap of ranges do not matter |
| `Masking.RuntimeMatches` | packages/horizon/scripts/verify-debug/compare-bytecode-immutable-aware.ts:38-64 | the final verdict: equal byte counts and equal bytes outside the union of the immutable ranges |
| `Masking.CborStripped` | packages/horizon/scripts/verify-debug/compare-bytecode-immutable-aware.ts:6-13 | a trailer that announces its own length is cut off |
| `Masking.CborKept` | packages/horizon/scripts/verify-debug/compare-bytecode-immutable-aware.ts:6-13 | exactly when the text stays as it is |
| `Masking.ByteAt` | packages/horizon/scripts/verify-debug/compare-bytecode-immutable-aware.ts:17-18 | byte `i` is the pair of digits at `2 * i` |
| `Masking.ComparedBytes` | packages/horizon/scripts/verify-debug/compare-bytecode-immutable-aware.ts:38-54 | what is compared of code with a trailer is the bytes of the code |
| `Vesting.PassedPeriods` | packages/token-distribution/ops/info.ts:214-217 | the floor of the rational quotient counts whole periods |
| `Vesting.VestingAccuracy` | packages/token-distribution/ops/info.ts:214-221 | never above the linear amount, short of it by less than one period's amount plus the number of periods |
| `Vesting.AvailableMonotone` | packages/token-distribution/ops/info.ts:202-222 | never falling over time, at most managed, nothing before the start and everything after the end |
| `Vesting.AvailableAtEnd` | packages/token-distribution/ops/info.ts:214-221 | at the end only what does not divide evenly is missing |
| `Vesting.ThrowsIff` | packages/token-distribution/ops/info.ts:207-220 | it throws exactly inside a schedule without periods or without length |
| `Vesting.AvailableAtMost` | packages/token-distribution/ops/info.ts:226-240 | free is at most available, available at most managed |
| `Vesting.FreeIff` | packages/token-distribution/ops/info.ts:226-240 | what is available is free once the release and cliff times have passed, and nothing before |
| `Vesting.FreeMonotone` | packages/token-distribution/ops/info.ts:226-240 | the free amount never falls: its gates only open |
| `Summary.TokenSummary.AddWallet` | packages/token-distribution/ops/info.ts:305-319 | the part before the await; a wallet whose arithmetic throws changes nothing |
| `Summary.TokenSummary.ContractAnswered` | packages/token-distribution/ops/info.ts:320-326 | the part after the await |
| `Summary.TotalsAreSums` | packages/token-distribution/ops/info.ts:487-496 | at every point of every interleaving the totals are plain sums over the calls made and the answers received |
| `Summary.CompleteTotals` | packages/token-distribution/ops/info.ts:487-496 | every complete schedule ends with the sums over all wallets and with the same contracts in the two lists, as often |
| `Summary.ListsAreSums` | packages/token-distribution/ops/info.ts:316-326 | at every point of every interleaving the two lists hold, in some order, what was called and what was answered |
| `Summary.SummaryOfWallets` | packages/token-distribution/ops/info.ts:305-327 | every complete schedule ends with the plain totals over the wallets whose schedule does not throw |
| `Summary.ListsOfWallet` | packages/token-distribution/ops/info.ts:316-326 | what each wallet puts on the two lists |
| `Summary.NeverNegative` | packages/token-distribution/ops/info.ts:305-327 | free at most available at most managed, at every point |
| `Summary.ListsFollowSchedule` | packages/token-distribution/ops/info.ts:316-326 | the two lists of contracts follow the order of calls and of answers |
| `Ledger.LineRoundTrip` | packages/token-distribution/ops/create.ts:90-127 | what a saved line loads as, and exactly when that is the entry |
| `Ledger.ConfigColumns` | packages/token-distribution/ops/create.ts:76-87 | which column of a configuration line is which field |
| `Ledger.NothingDeployedYet` | packages/token-distribution/ops/create.ts:76-87 | further columns of a configuration line are not read |
| `Ledger.SavedColumns` | packages/token-distribution/ops/create.ts:113-127 | which field stands in which column of a saved line |
| `Ledger.ConfigTitle` | packages/token-distribution/ops/create.ts:69-72 | the first line of a configuration is a title |
| `Ledger.ConfigGrows` | packages/token-distribution/ops/create.ts:70-87 | every further line that is not blank adds its entry |
| `Csv.TrimMeaning` | packages/token-distribution/ops/create.ts:71-75 | trimming cuts off white space at both ends, and all of it |
| `Ledger.SaveAppends` | packages/token-distribution/ops/create.ts:129-134 | saving a clean entry appends exactly it to what the file loads as, if and only if the file did not end in an open line |
| `Ledger.ResultFile.SaveDeployResult` | packages/token-distribution/ops/create.ts:129-134 | one line is appended |
| `Batches.TokenLockTask.PopulateEntries` | packages/token-distribution/ops/create.ts:242-256 | every entry gets its salt |
| `Batches.TokenLockTask.RemoveDeployed` | packages/token-distribution/ops/create.ts:325-327 | the nested search keeps the entries without a recorded salt, in order |
| `Batches.TokenLockTask.CreateTokenLocks` | packages/token-distribution/ops/create.ts:311-414 | one run: what it submits and what the file holds afterwards, for any outcomes |
| `Batches.ConfigIsClean` | packages/token-distribution/ops/create.ts:69-88 | entries read from any configuration file survive the ledger's round trip |
| `Batches.RunAppends` | packages/token-distribution/ops/create.ts:380-414 | the file then loads as the earlier records followed by those saved |
| `Batches.RemainingExactly` | packages/token-distribution/ops/create.ts:325-327 | what remains is exactly the configured entries without a recorded salt |
| `Batches.EveryEntryIsCreated` | packages/token-distribution/ops/create.ts:311-414 | when every transaction comes through, each configured entry without a recorded salt is submitted and recorded with its own salt, contract and transaction |
| `Batches.ResumableCreation` | packages/token-distribution/ops/create.ts:311-414 | over any runs, each with its own configuration, with any failures: records only grow, no recorded salt is submitted again, and what remains is what is not recorded |
| `Batches.NoLockCreatedTwice` | packages/token-distribution/ops/create.ts:325-327 | with distinct salts in each run's configuration none is ever recorded twice |
| `Batches.BuildBatch` | packages/token-distribution/ops/create.ts:416-463 | the optional funding pair followed by one creation per entry |
| `Batches.BatchIsFunded` | packages/token-distribution/ops/create.ts:421-463 | the batch never runs out of funds and leaves exactly the earlier surplus |
| `TypeScanner.ExtractSpecificTypes` | packages/token-distribution/scripts/extract-graphclient.js:80-134 | the line loop and the sorted output |
| `TypeScanner.HeaderMeaning` | packages/token-distribution/scripts/extract-graphclient.js:90-91 | a line declares the name of its first `export type` or `export interface` |
| `TypeScanner.CountMeaning` | packages/token-distribution/scripts/extract-graphclient.js:101-102 | braces are counted as often as they stand in the line |
| `TypeScanner.EndsWithMeaning` | packages/token-distribution/scripts/extract-graphclient.js:103 | the last character that is not white space |
| `TypeScanner.ClosingMeaning` | packages/token-distribution/scripts/extract-graphclient.js:114-126 | a declaration ends with the first line on which its braces are closed and that ends in a semicolon or, later on, a brace |
| `TypeScanner.ScannerRefinesBlocks` | packages/token-distribution/scripts/extract-graphclient.js:88-126 | for every file the loop computes a function of its blocks, open ones included |
| `TypeScanner.ExtractedExactly` | packages/token-distribution/scripts/extract-graphclient.js:88-126 | when needed blocks close and have distinct names exactly they are extracted, each with its own text |
| `TypeScanner.OutputDependsOnNeeded` | packages/token-distribution/scripts/extract-graphclient.js:80-134 | permuting blocks, or adding and removing others, leaves the output identical |
| `TypeScanner.SortedByName` | packages/token-distribution/scripts/extract-graphclient.js:128-133 | the texts appear in the order of their names, each once |
| `TypeScanner.OpenBlockDependsOnPosition` | packages/token-distribution/scripts/extract-graphclient.js:91-96 | for any blocks with distinct needed names: a needed block is extracted if and only if it closes or is not the last |
| `TypeScanner.ExtractedIff` | packages/token-distribution/scripts/extract-graphclient.js:88-126 | for any blocks: exactly which names are extracted |
| `TypeScanner.EmptyInterfaceDropped` | packages/token-distribution/scripts/extract-graphclient.js:91-126 | a file whose last line is an empty interface on one line loses it, and keeps it when another declaration follows |

## Left out

- Reverted transactions: no executor checks a receipt's status, so a reverted call simply changes nothing here; `Convergence.UpgradesConverge` assumes what makes the calls succeed (proxy kind, admin, code), not success itself.
- Timestamps, verification links and the ABI in entries and records: nothing compares them.
- `promotePendingImplementation`, `setImplementationAndClearIfMatches`, `clearPendingImplementation`, `setProxyAdmin`: no step of the lifecycle calls them.
- Network and fork detection, paths, environment variables, keystore prompts, console output, status lines and icons: plumbing; `checkCodeChanged` appears only as the comparison inside the seeding decision, and the display filter of `syncContractGroups` not at all.
- A record whose bytecode is `0x` differs from every artifact here, while rocketh's comparison takes it for any code. No statement about runs depends on it: such a record comes from a sync without an artifact, which they exclude as unverified unless the book itself stores the fingerprint of empty code.
- An empty or absent `argsData` is one value, because the code only tests it for truth.
- Address books of the three packages: one book; entry names equal contract names.
- Addresses read from the chain are in lower case; every comparison of addresses ignores case.
- Deployment scripts run one after the other; the branch of the orchestrator that executes at once instead of saving, and its extra configuration calls, are the parameter `extra` of `Consolidate` and `ExecuteTxBatchDirect`.
- The admin contracts and proxies themselves: their Solidity is not part of this model.
- ABI and constructor encoding, keccak, `parseEther`, `formatEther`, integer printing: parameters, the last three as inverse pairs.
- Code that is not hexadecimal text with placeholders: `parseInt`'s signs, white space and `0x`, and the inputs keccak rejects, are not modelled.
- Floating-point rounding in the vesting code; locale-specific string order (any total order instead); negative token amounts.
- In-place update of configuration entries in `populateEntries`: the entries are values, so aliasing between the two lists is not captured; their owner is part of the salt function.
- Fields missing from a hand-edited ledger line are read as empty rather than undefined.
- The address check, ownership check, confirmation and dry run of the token-lock task: they end a run before anything is submitted.
- Concurrency of the creation queue: each entry is awaited before the next is added, so a run is sequential.
- The registry's naming (`Lifecycle.WellFormed`, `SyncProperties.AdminRecordApart`) is assumed: no contract or admin uses a record name derived from another contract, and shared implementations have no proxy. Sync overwrites one record twice without it.
- Drift of contracts that are neither proxies nor shared: the general script leaves a bare entry, so their book records no fingerprint to compare until a sync backfills one (`Truth.RebuildBeforeSync`).
- Role listing, precondition checks, registry tables, tag gating, allocation sums: they would add only easy members.
