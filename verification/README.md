# Voting keys, nemesis supply and configuration trees of symbol-bootstrap, in Dafny

Symbol Bootstrap sets up nodes of a Symbol network. This project models the parts of it in which many steps
have to fit together, and proves what its users rely on. `dafny verify dfyconfig.toml` checks all of it.

**The life of voting keys** (the main part). A voting node owns a folder of key-tree files, each good for a
range of network epochs, and its main account has at most three of those keys linked on chain.

* `VotingKeys`, `AccountChain`: keys, overlap, and an account that accepts or refuses link transactions.
  The announced order (unlinks first) is compared with the order of planning.
* `LinkPlanner`, `LinkPlanLaws`, `LinkRoundTrips`: the planner as methods over mutable lists, including the
  caller's own array that it keeps pushing to, and what its plans do on chain.
* `LinkLimits`, `LinkAcceptance`: exactly which files are safe to announce, and when files in the way of several
  keys leave the linked keys disjoint.
* `VotingFile`: writing a key tree into one buffer, record by record, and reading it back.
* `VotingSchedule`, `VotingService`, `VotingRunLaws`: when a node needs another file, and the run that deletes,
  loads, writes and loads again, on a folder of names and bytes.
* `Lifecycle`, `FolderLifecycle`: all rounds together. After every round the chain has accepted everything
  announced, and the linked keys are exactly the first three unexpired keys one can read from the folder.

**The nemesis supply** (`Nemesis`, `NemesisLaws`): sharing out a mosaic over accounts, nodes and fixed balances,
with a cap for nodes and one amount overwritten at the end.

**Configuration trees** over one type of values (`JsonValues`): encrypting, decrypting and stripping secrets
(`CryptoUtils`, `StripLists`, `SecretLaws`), pruning as a specification (`Pruning`) and in place on a heap of
containers (`PruneInPlace`), repeated services (`RepeatExpansion`). Deep merging (`TreeMerge`) has a type of its own, in
which arrays can get named fields, as they do when an object is merged into one; layered presets and upgrades
(`PresetMerge`, `PresetLaws`) and upgrades from the saved file (`SavedPresets`) are built on it.

**Multisig accounts**: validating a modification (`MultisigModification`), collecting cosigners and choosing
between a complete and a bonded aggregate (`Cosigners`).

**Digit groups** (`DigitGroups`): a greedy regular expression against grouping from the right.

Where the source updates something in place, a method does so too and is proved equal to a function; the
properties are then proved about that function.

## Promises that hold only under a condition

Each has a theorem that says exactly when it holds, and an example that fails.

* Covering `votingKeyDesiredFutureLifetime` epochs: all of them but the last are always covered after an
  updating run; the last one exactly when files live longer than that future or some file was alive before the
  run (`VotingSchedule.UpdatedRunCovers`, `VotingSchedule.FirstFileExample`).
* Announcing unlinks first: safe for a plan exactly when it never takes back a key it linked
  (`AccountChain.SortIsSafe`). Files are safe to announce, whatever is answered and whichever disjoint keys are
  linked, exactly when unexpired files are disjoint, but for one of a single epoch that is listed again
  (`LinkAcceptance.AllListingsSafeExactlyWhen`); when at most one linked key is in the way of each file, exactly
  when they overlap only if they are the same account (`LinkLimits.FilesAreSafeExactlyWhen`,
  `LinkLimits.OverlappingFilesBreakTheOrder`).
* Linked keys staying disjoint: only the first key in the way of a file is unlinked, so one file keeps keys
  disjoint exactly when it replaces none or has at most one in its way
  (`LinkLimits.StepStaysSoundExactlyWhen`). Disjoint files leave disjoint keys in the end exactly when no key
  survives in the way of a confirmed file of another account (`LinkLimits.PlanStaysSoundExactlyWhen`,
  `LinkLimits.SecondKeyInTheWayStays`), and any files keep them disjoint all along exactly when none lies across
  two keys when its turn comes (`LinkLimits.SoundAllAlongExactlyWhen`).
* Merging custom presets beforehand: the same as merging everything at once, onto all other presets, exactly
  when every field the two share nests; in the three fields where the last preset wins, only an empty scalar
  before an empty object does not (`PresetMerge.NestingIsFlatExactlyWhen`,
  `PresetMerge.NumberBeforeObjectExample`).
* Stripping with one list and then another: for all lists the same as stripping once with their union, cut at
  the first empty name of the first list (`StripLists.StripUnion`). The plain union does exactly when the first
  list has no empty name, or the second means all names, or what stands before the empty name covers the second
  list anyway (`StripLists.PlainUnionExactlyWhen`, `StripLists.EmptyNameExample`).
* Hexadecimal printing: keeps the number exactly when it is empty, made of word characters, or ends in
  another character (`DigitGroups.HexKeepsSimpleForm`, `DigitGroups.HyphenExample`).
* Multisig validation: it counts repeated addresses each time, and does not notice minimums below zero. An
  accepted change leaves a sound account exactly when no minimum is below zero, none is met by additions counted
  twice only, and none is zero for cosignatories that deletions counted twice have hidden
  (`MultisigModification.AcceptedIsSoundExactlyWhen`; `NegativeMinimumExample`, `RepeatedAdditionExample` and
  `RepeatedDeletionExample` fail). Without repeated addresses the account stays sound exactly as long as no
  minimum falls below zero (`MultisigModification.UnrepeatedChangesKeepSound`).
* Upgrades reproducing a configuration: in memory they always do (`PresetMerge.UpgradesReproduce`). The saved
  file holds no private keys, and an upgrade from it does, with whatever preset files come with the program,
  exactly when the custom preset had none (`SavedPresets.SavedUpgradeReproducesExactlyWhen`); from the second
  upgrade on it always does (`SavedPresets.LaterUpgradesReproduce`). `SavedPresets.LostKeyExample` fails.
* Aggregate complete: besides the minimum number of cosigners, one of them needs funds, or nothing is
  announced (`Cosigners.CompleteExactlyWhenMinimumEntered`, `Cosigners.UnfundedExample`).

## Model

| member | source | states |
|---|---|---|
| VotingKeys.FindOverlap | src/service/LinkService.ts:241-243 | Points at a key in the way of a file such that no earlier key is; the length of the list when none is. |
| VotingKeys.OverlapsIsSharedEpoch | src/service/LinkService.ts:317-319 | The comparison of four bounds says exactly that some epoch lies in both ranges. |
| VotingKeys.CaseIsIgnored | src/service/LinkService.ts:244-247 | Two keys are the same account exactly when their epochs agree and their public keys do letter by letter, small or capital. |
| AccountChain.UnlinksFirstIsTheStableSort | src/service/LinkService.ts:148-149 | The announced order is the one list with all unlinks before all links that keeps the order within each kind. |
| AccountChain.NeverAFourth | src/service/LinkService.ts:270-278 | An account with at most three voting keys never gets a fourth, whatever is announced. |
| AccountChain.SwapStep | src/service/LinkService.ts:148-149 | A link and an unlink of different keys can change places on chain, refusals included. |
| AccountChain.SortIsSafe | src/service/LinkService.ts:148-149 | For any plan the chain accepts as built, the announced order is accepted exactly when no unlink takes back a key linked before it in the plan; the account then ends the same. |
| LinkPlanner.LinkTransactionGenericFactory.AddVotingKeyLinkTransactions | src/service/LinkService.ts:215-280 | The method plans as the specification does, each key and file by its own answer (LinkPlanLaws.ExpiredExactly and LinkLimits.LinkedInParts say what that is), and the caller's own array ends up with exactly the links planned before the first unlink appended. |
| LinkPlanner.LeadingLinksAre | src/service/LinkService.ts:215-280 | The keys pushed to the caller's array are those of the transactions in front, up to the first that links no voting key. |
| LinkPlanner.LinkTransactionGenericFactory.AddExpiredUnlinks | src/service/LinkService.ts:223-238 | The first loop asks about each expired key in turn, unlinks it if that very answer is yes, and works on the caller's array itself until the first unlink. |
| LinkPlanner.LinkTransactionGenericFactory.AddFiles | src/service/LinkService.ts:239-279 | The second loop equals the step-by-step plan over the active files, with the sharing of arrays tracked. |
| LinkPlanner.LinkTransactionGenericFactory.AddFile | src/service/LinkService.ts:240-278 | One active file: same key linked, other key in the way confirmed or not, nothing in the way; a key is pushed only below three. |
| LinkPlanner.LinkTransactionGenericFactory.AddVotingKeyUnlinkTransactions | src/service/LinkService.ts:282-315 | The method plans as the unlink specification does and never writes to the caller's array. |
| LinkPlanner.LinkTransactionGenericFactory.AddTransaction | src/service/LinkService.ts:321-395 | The nested branches for remote and VRF keys come down to one table over linked, configured and confirmed. |
| LinkPlanner.LinkTransactionGenericFactory.CreateGenericTransactions | src/service/LinkService.ts:159-213 | Remote, VRF and voting plans in this order, each only for what the node configures. |
| LinkPlanner.LinkTransactionGenericFactory.CreateTransactions | src/service/LinkService.ts:105-150 | What is announced is the generic plan at the finalized epoch, or at the known one when there is none, with unlinks first. |
| LinkPlanLaws.ActiveMembers | src/service/LinkService.ts:239 | The active files are exactly those that have not expired, still disjoint. |
| LinkPlanLaws.ExpiredMembers | src/service/LinkService.ts:223-238 | The first loop only unlinks, keeps every unexpired key, and with all unlinks confirmed keeps no other. |
| LinkPlanLaws.ExpiredExactly | src/service/LinkService.ts:223-238 | For different linked keys, any number of rounds and any answers: a key stays exactly when it has not expired or its own answer is no, and its unlink is planned exactly when it has expired and its own answer is yes; nothing else stays or is planned. |
| LinkPlanLaws.ExpiredRun | src/service/LinkService.ts:223-238 | The chain accepts every unlink of the first loop and ends with the keys the planner expects. |
| LinkPlanLaws.LinkStepRun | src/service/LinkService.ts:240-278 | The transactions for one file in conflict with at most one linked key are accepted and leave disjoint keys. |
| LinkPlanLaws.LinkStepMembers | src/service/LinkService.ts:240-278 | For one file only that file comes in, only a key of another account overlapping it goes out, the count never drops nor passes three, and a confirmed step settles the file. |
| LinkPlanLaws.LinkStepExactly | src/service/LinkService.ts:240-278 | Any file against any keys, by the first key in its way: which transactions are planned and which keys remain, with room for three. |
| LinkPlanLaws.RoomForThree | src/service/LinkService.ts:240-278 | Every file is planned with its own answer, and from at most three keys no plan reaches a fourth. |
| LinkPlanLaws.LinkFilesRun | src/service/LinkService.ts:240-278 | The chain accepts the whole second loop and ends with the keys the planner expects. |
| LinkPlanLaws.LinkFilesNeverTakesBack | src/service/LinkService.ts:240-278 | With files that overlap only if they are the same account, no unlink of the plan hits a key the plan has linked. |
| LinkPlanLaws.LinkFilesSettle | src/service/LinkService.ts:240-278 | With all unlinks confirmed every file ends linked as it is, or kept out by three keys it does not touch. |
| LinkPlanLaws.LinkPlanRun | src/service/LinkService.ts:215-280 | For such files and at most three disjoint linked keys, at most one of them in the way of each unexpired file, under any answers: every unlink removes a linked key, every link adds an absent one, never more than three, and the keys at the end are disjoint and those expected. |
| LinkPlanLaws.RemoteRun | src/service/LinkService.ts:321-395 | The remote plan is accepted and leaves the configured key linked (or none, when unlinking) exactly when nothing different was linked or its removal was confirmed. |
| LinkPlanLaws.VrfRun | src/service/LinkService.ts:321-395 | The same for the VRF key. |
| LinkPlanLaws.SlotsArePlannedWhenNeeded | src/service/LinkService.ts:321-395 | A remote or VRF plan is empty exactly when the slot already is as it will be, and never longer than two. |
| LinkPlanLaws.AnnouncedPlanRun | src/service/LinkService.ts:105-213 | Everything announced for a node, unlinks first, is accepted under any answers and ends in the same account as in the order of planning, for the link and the unlink command. |
| LinkPlanLaws.UnlinkFilesRun | src/service/LinkService.ts:282-315 | Every planned voting unlink is accepted by the chain. |
| LinkPlanLaws.UnlinkOnlyConfigured | src/service/LinkService.ts:282-315 | Whatever is linked and answered, only linked keys that are exactly a configured file are ever unlinked. |
| LinkPlanLaws.UnlinkRemovesConfigured | src/service/LinkService.ts:282-315 | With all unlinks confirmed, what stays linked is exactly what no file configures. |
| LinkPlanLaws.UnlinkExactly | src/service/LinkService.ts:282-315 | Under any answers, for disjoint linked keys: a key is unlinked exactly when some file is that key and the answer for that file is yes, and stays otherwise. |
| LinkPlanLaws.PlanOrder | src/service/LinkService.ts:159-213 | In a plan the remote key comes first, then the VRF key, then the voting keys. |
| LinkPlanLaws.CommandsPlan | src/service/LinkService.ts:159-213 | The unlink command only ever plans unlinks; the link command, for an account with nothing linked, plans to link the remote key, the VRF key and the first active file. |
| LinkPlanLaws.WhoConfirms | src/service/LinkService.ts:397-413 | `removeOldLinked` decides every unlink when it is given; otherwise `ready` confirms all; only without both do the prompts count, each for itself. |
| LinkRoundTrips.ListingIsSound | src/service/LinkService.ts:135-139 | However the chain lists and spells sound keys, the listing is sound and as long. |
| LinkRoundTrips.ConfirmedPlanSettles | src/service/LinkService.ts:215-280 | After a confirmed plan no expired key is left, every active file is settled, and at most one key is in the way of each. |
| LinkRoundTrips.ReplanIsEmpty | src/service/LinkService.ts:215-280 | Planning again after a confirmed plan gives no transaction, in whatever order and spelling the chain returns the keys and whatever is answered. |
| LinkRoundTrips.UntouchedStay | src/service/LinkService.ts:215-280 | Unexpired keys that no file touches survive the link plan, and whatever else is linked is a file. |
| LinkRoundTrips.LinkThenUnlinkRestores | src/service/LinkService.ts:215-315 | From unexpired keys no file touches, a confirmed link plan followed by a confirmed unlink plan leaves exactly the keys there were before. |
| LinkLimits.FilesAreSafeExactlyWhen | src/service/LinkService.ts:148-149 | Every listing of at most three disjoint keys, at most one in the way of each unexpired file, is announced safely under all answers, exactly when unexpired files overlap only if they are the same account. |
| LinkLimits.StepStaysSoundExactlyWhen | src/service/LinkService.ts:240-278 | One file leaves disjoint keys disjoint exactly when its unlink is not confirmed or at most one key is in its way. |
| LinkLimits.SoundAllAlongExactlyWhen | src/service/LinkService.ts:240-278 | For any files: the linked keys are disjoint after each of them exactly when no confirmed file, when its turn comes, lies across two of the keys then linked. |
| LinkLimits.LinkFilesReach | src/service/LinkService.ts:240-278 | When no key is touched by two files: the linked keys stay disjoint up to the first confirmed file across several keys, and from then on that file stays linked beside a key it overlaps. |
| LinkLimits.TouchedOnceStaysSoundExactlyWhen | src/service/LinkService.ts:215-280 | A link plan for such files leaves disjoint keys exactly when no confirmed file lies across two of the keys left by the first loop. |
| LinkLimits.LinkedInParts | src/service/LinkService.ts:240-278 | For disjoint files the linked keys are always the surviving old keys in their order and behind them the files linked so far. |
| LinkLimits.FilesStaySoundExactlyWhen | src/service/LinkService.ts:240-278 | Disjoint files, however many keys they touch, leave disjoint keys exactly when no survivor is in the way of a confirmed file of another account. |
| LinkLimits.PlanStaysSoundExactlyWhen | src/service/LinkService.ts:215-280 | The same for a whole link plan, from the keys left by its first loop. |
| LinkAcceptance.LinkFilesAccepted | src/service/LinkService.ts:240-278 | For disjoint files across any number of linked keys, under any answers, the chain accepts the second loop, and no unlink takes back a file. |
| LinkAcceptance.SeparateIsAccepted | src/service/LinkService.ts:148-280 | The whole voting plan is accepted as built and as announced, and ends with the keys the planner expects, at most three. |
| LinkAcceptance.AllListingsSafeExactlyWhen | src/service/LinkService.ts:148-149 | Every listing of at most three disjoint keys is announced safely under all answers exactly when unexpired files are disjoint, but for one of a single epoch that is listed again. |
| LinkLimits.OverlappingFilesPlan | src/service/LinkService.ts:240-278 | The smallest example: two overlapping files of different accounts and nothing linked; the plan links the first, unlinks it, and links the second. |
| LinkLimits.OverlappingFilesBreakTheOrder | src/service/LinkService.ts:148-149 | That plan is accepted as built and refused when its unlink is announced first. |
| LinkLimits.SecondKeyInTheWayStays | src/service/LinkService.ts:241-243 | The smallest example of a file across two linked keys: it ends up linked beside the second. |
| VotingFile.EpochRoundTrip | src/service/VotingUtils.ts:88-92 | Eight little-endian bytes hold every epoch a JavaScript number holds exactly. |
| VotingFile.LowestByteFirst | src/service/VotingUtils.ts:144-146 | Eight bytes are read as a number whose lowest byte comes first. |
| VotingFile.HexIsInjective | src/service/VotingUtils.ts:147 | Different keys are printed differently, also for a reader that ignores letter case. |
| VotingFile.HexDigits | src/service/VotingUtils.ts:147 | Each byte is printed as two capital hexadecimal digits, the higher one first. |
| VotingFile.Insert | src/service/VotingUtils.ts:70-73 | Writes the value at the index, returns the index behind it, and leaves the rest of the buffer as it was. |
| VotingFile.WriteHeader | src/service/VotingUtils.ts:87-107 | The seven header fields fill the first 80 bytes. |
| VotingFile.WriteRecord | src/service/VotingUtils.ts:111-128 | One record adds 96 bytes behind what is written: the private key and the root signature. |
| VotingFile.CreateVotingFile | src/service/VotingUtils.ts:75-140 | Succeeds exactly for a range that is not negative and keys of 32 bytes each; the running index then ends at the length of the buffer, which holds header and records. |
| VotingFile.HeaderOfFile | src/service/VotingUtils.ts:87-107 | By offset in the whole file: the epochs, sixteen bytes 0xFF, the root public key, the epochs again; and 80 bytes and 96 for each epoch in all. |
| VotingFile.RecordOfEpoch | src/service/VotingUtils.ts:110-129 | For every epoch of the range, the record 96 bytes per epoch back from the end holds a private key and the root signature over its public key and that very epoch. |
| VotingFile.ReadBack | src/service/VotingUtils.ts:142-162 | Any file starting with the 64 bytes of a written one is read as the same key when it has the same length, and rejected when it has another. |
| VotingSchedule.LastIsGreatest | src/service/VotingService.ts:67 | The last file in start order has the greatest end. |
| VotingSchedule.RunKeepsOrder | src/service/VotingService.ts:67-84 | At any epoch, even an earlier one, a new file starts after every file there is. |
| VotingSchedule.RunKeepsHistory | src/service/VotingService.ts:67-84 | At epochs that never go back, files stay in order without a gap from the present on, and are never lost. |
| VotingSchedule.HistoryCovers | src/service/VotingService.ts:67-84 | Every epoch from the present up to the last end lies in exactly one file. |
| VotingSchedule.UpdatedRunCovers | src/service/VotingService.ts:67-84 | After an updating run each epoch from the present one to the end of the configured future lies in exactly one file; the last of them exactly when files live longer than that future, or some file was alive before the run. |
| VotingSchedule.FutureCoveredExactlyWhen | src/service/VotingService.ts:67-84 | The case of that last epoch. |
| VotingSchedule.FirstFileExample | src/service/VotingService.ts:67-84 | The first file of a node, with equal lifetimes, leaves it uncovered. |
| VotingSchedule.FirstFileIsAutomatic | src/service/VotingService.ts:76-84 | Without a file, one is created whether or not updates are asked for: from the present epoch on, for one lifetime, so that the present epoch lies in exactly one file. |
| VotingSchedule.LaterFilesAreAskedFor | src/service/VotingService.ts:67-84 | With files there, none is created without an update; with one, exactly when the last file ends no later than the configured future, right behind it or from the present epoch on. |
| VotingSchedule.StepsIsLeast | src/service/VotingService.ts:67-84 | The number of missing files is the least number of lifetimes that exceeds the deficit. |
| VotingSchedule.OneRunFillsOne | src/service/VotingService.ts:67-84 | A run with nothing missing changes nothing; any other creates one file and lowers the deficit by the lifetime. |
| VotingSchedule.RepeatedRunsStop | src/service/VotingService.ts:67-84 | Repeated runs at one epoch create exactly the missing files and stop; the folder is up to date from then on and not before. |
| VotingService.FileNames | src/service/VotingService.ts:87 | Different numbers give different names, each read by the loader and none equal to the metadata file. |
| VotingService.SortSorts | src/service/VotingUtils.ts:179 | The files come out by increasing start epoch, none lost and none added. |
| VotingRunLaws.SortIsStable | src/service/VotingUtils.ts:179 | Files with the same start keep the order in which the system lists them. |
| VotingRunLaws.LoadsExactly | src/service/VotingUtils.ts:164-180 | For any folder: the load fails exactly when a listed name starting with `private_key_tree` and ending with `.dat` cannot be read; otherwise it gives exactly the keys of those names, by start. |
| VotingService.SortedIsUnique | src/service/VotingUtils.ts:179 | For files with different starts there is only one sorted list. |
| VotingService.LoadHeld | src/service/VotingUtils.ts:164-180 | A folder written by runs loads as its keys in epoch order with their names, however the system lists it. |
| VotingService.Run | src/service/VotingService.ts:36-123 | Folder, account and result after the method are those of one step, early returns and errors included; FirstRun, LaterRun and RunsThatStop of VotingRunLaws say what a step does. |
| VotingService.CreateAndReload | src/service/VotingService.ts:83-122 | The new file is stored under the next number and the account lists the folder as it then loads. |
| VotingService.NewFileReadsBack | src/service/VotingService.ts:83-101 | The bytes a run writes are read back as the scheduled key. |
| VotingService.HoldsOneMore | src/service/VotingService.ts:87 | Storing a readable file under the next name adds one key to the folder and overwrites none. |
| VotingService.RunFollowsSchedule | src/service/VotingService.ts:36-123 | On a folder of any runs, a run adds exactly the scheduled key, reports whether it did, lists it in the account, removes the metadata file and touches no other file. |
| VotingRunLaws.RunsThatStop | src/service/VotingService.ts:44-65 | A node that does not vote is passed over and a desired future longer than a lifetime refused, with folder and account as before; an unreadable key file fails the run, with nothing but the metadata file gone. |
| VotingRunLaws.FirstRun | src/service/VotingService.ts:44-101 | On an empty folder, for any update answer and setting, a run creates private_key_tree1.dat for one lifetime from the present epoch: the network's, or else the last known one, or else 1, zero counting as missing. |
| VotingRunLaws.LaterRun | src/service/VotingService.ts:44-101 | On a folder with files a run creates the next one exactly when the update answer is yes, or missing with automatic updates, and the last file ends no later than the configured future; otherwise the keys stay. |
| VotingRunLaws.RunsKeepAFile | src/service/VotingService.ts:76-84 | After any runs, at least one, the folder holds private_key_tree1.dat; no run loses a key; and after the first the present epoch lies in exactly one file. |
| VotingService.RunsFillTheFolder | src/service/VotingService.ts:58-101 | After any runs at any epochs the files are disjoint and in order, the last has the greatest end, and the next name is free. |
| VotingService.RunsKeepHistory | src/service/VotingService.ts:58-101 | After runs at epochs that never go back, the files have no gap from the present on. |
| VotingService.RunsCoverTheFuture | src/service/VotingService.ts:58-101 | When the last of them updates, each epoch from the present one to the end of the configured future lies in exactly one file, the last of them exactly when files live longer or one was alive before that run. |
| Lifecycle.FirstActiveCovers | src/service/LinkService.ts:239 | When some file covers the epoch, the first unexpired one does. |
| Lifecycle.OldLinksComeFirst | src/service/LinkService.ts:223-239 | What was linked among the first three and has not expired is a beginning of today's unexpired files. |
| Lifecycle.PlanLinksFirstThree | src/service/LinkService.ts:215-280 | One confirmed plan takes the account from the first three unexpired files of an earlier epoch to those of the present one. |
| Lifecycle.RoundsLinkFirstThree | src/service/LinkService.ts:215-280 | After any number of rounds from nothing, everything announced was accepted and the linked keys are exactly the first three unexpired files in start order. |
| Lifecycle.PresentEpochIsLinked | src/service/LinkService.ts:215-280 | After every round some linked key covers the present epoch. |
| FolderLifecycle.RoundsCreateRunKeys | src/service/VotingService.ts:36-123 | The files the rounds plan with are the keys the runs have created. |
| FolderLifecycle.FolderKeysAreLinked | src/service/VotingUtils.ts:164-180 | The same down to the bytes: after every round the folder loads, in whatever order it is listed, and the linked keys are the first three unexpired keys read from it, one of them covering the present epoch. |
| Nemesis.PartialSums | src/service/AddressesService.ts:106-119 | Adding up amounts that are not negative, no intermediate sum passes the total. |
| Nemesis.DistributeMosaic | src/service/AddressesService.ts:141-207 | Succeeds exactly when no provided amount is negative, they fit the supply, there is an account to share with, the whole part of the division is at least 1, and the cap leaves the first dynamic account something; the list is then the stated one. |
| Nemesis.DistributeRemaining | src/service/AddressesService.ts:173-206 | The same for the part after the provided balances are collected, assigning the list and then its first amount. |
| Nemesis.ProcessNemesisBalances | src/service/AddressesService.ts:137-209 | All mosaics are distributed exactly when each of them can be; HarvestersAreCapped and DynamicExactly of NemesisLaws say who gets what. |
| NemesisLaws.HarvestersAreCapped | src/service/AddressesService.ts:180-215 | Of a distributed mosaic, entry by entry and in order: accounts get the share; nodes get it too, but in the harvesting mosaic (the only one, or else the second) no more than `maxHarvesterBalance`, and nothing when that is zero; the first entry gets the rest; then come the positive provided entries. |
| NemesisLaws.DynamicExactly | src/service/AddressesService.ts:148-172 | Exactly the nodes without a balance for the mosaic that are not excluded take part in the division; the others are provided with their balance, the excluded with zero. |
| NemesisLaws.NextNode | src/service/AddressesService.ts:148-172 | The same node by node, for any addresses: both lists keep the order of the nodes. |
| Nemesis.OverwriteOutcome | src/service/AddressesService.ts:193-206 | The amounts add up after the overwrite exactly when the entry overwritten is the first dynamic account's own share. |
| Nemesis.DistributionConserves | src/service/AddressesService.ts:193-206 | On success all amounts are positive and add up to exactly the supply. |
| Nemesis.TailTotal | src/service/AddressesService.ts:183-195 | The generated supply without the first entry, in closed form. |
| Nemesis.FirstGetsTheRest | src/service/AddressesService.ts:180-197 | The first entry gets its share, the remainder of the division and what the cap keeps from the other nodes; never less than the share. |
| Nemesis.OthersGetTheirShare | src/service/AddressesService.ts:183-193 | The other generated entries are no more than the share, for nodes no more than the cap; the positive provided entries follow unchanged. |
| Nemesis.SumsStayInRange | src/service/AddressesService.ts:106-119 | Every sum formed on the way stays between zero and the supply, so no sum is rounded for any supply that is an exact JavaScript integer. |
| CryptoUtils.DecryptUndoesEncrypt | src/service/CryptoUtils.ts:26-124 | Decrypting an encrypted tree gives it back, also when a plain text already starts with the marker. |
| CryptoUtils.NothingEncrypted | src/service/CryptoUtils.ts:99-142 | A tree with an encrypted count of zero decrypts to itself. |
| CryptoUtils.EncryptMarksSecrets | src/service/CryptoUtils.ts:26-142 | After encrypting, the encrypted count is the number of non-empty texts in fields with an encryptable name. |
| SecretLaws.EncryptableNames | src/service/CryptoUtils.ts:144-150 | A field is encryptable when its name ends, in any case, in privateKey, restSSLKeyBase64 or privateFileContent. |
| SecretLaws.EncryptsExactly | src/service/CryptoUtils.ts:26-43 | Path by path: a text that is not empty in such a field becomes the marker and its encryption with the password given; every other leaf stays. |
| SecretLaws.DecryptsExactlyWhen | src/service/CryptoUtils.ts:99-124 | Decryption succeeds exactly when every marked secret, at any depth, decrypts to a text that is not empty. |
| SecretLaws.DecryptsTo | src/service/CryptoUtils.ts:99-124 | It then puts that text in place of each marked secret and leaves every other leaf. |
| SecretLaws.CountIsZeroExactlyWhen | src/service/CryptoUtils.ts:126-142 | The encrypted count is zero exactly when no marked secret stands anywhere in the tree. |
| CryptoUtils.StripRemovesExactly | src/service/CryptoUtils.ts:71-96 | Path by path: a leaf stays with its value unless it is a secret whose own field or some field around it is listed (or the list is empty); no leaf appears. |
| CryptoUtils.StripJoins | src/service/CryptoUtils.ts:71-96 | Stripping with one list and then another is stripping once with any list that blacklists what either does. |
| StripLists.StripUnion | src/service/CryptoUtils.ts:71-96 | For all lists and trees: in particular once with their union, where the empty list means all names and absorbs, and names behind an empty name of the first list do not count. |
| StripLists.PlainUnionExactlyWhen | src/service/CryptoUtils.ts:71-96 | The plain union does, on every tree, exactly when the first list has no empty name, or the second is empty, or each name of the second contains a name standing before the empty one, unless every encryptable name does. |
| StripLists.EmptyNameExample | src/service/CryptoUtils.ts:84 | An empty name behind `main` keeps the plain union from stripping a voting key that the two lists in turn strip. |
| CryptoUtils.StripIsIdempotent | src/service/CryptoUtils.ts:71-96 | Stripping again changes nothing, for every list. |
| CryptoUtils.ModesFormAChain | src/service/CryptoUtils.ts:57-68 | Applying two security modes is applying the stricter one. |
| SecretLaws.SecretsGone | src/service/CryptoUtils.ts:57-96 | Path by path, which secrets each security mode takes out: those with `voting` in a name on the path, in any case; with PROMPT_MAIN also `main`; with PROMPT_MAIN_TRANSPORT also `main` and `transport`; with PROMPT_ALL all. |
| CryptoUtils.PromptAllLeavesNoSecret | src/service/CryptoUtils.ts:57-68 | The strictest mode leaves no non-empty secret text anywhere. |
| CryptoUtils.StripAllLeavesNone | src/service/CryptoUtils.ts:71-96 | The empty list removes all secrets below any value that is not one itself. |
| CryptoUtils.StripCommutesWithEncrypt | src/service/CryptoUtils.ts:26-96 | Stripping and encrypting can change places. |
| StripLists.EmptyNameDisarms | src/service/CryptoUtils.ts:84 | A list strips what its part before the first empty name strips, and nothing at all when nothing stands before it, since an empty name that is found is falsy. |
| Pruning.DroppedIffNoLeaf | src/service/Utils.ts:81 | An entry is removed exactly when no leaf below it carries a value. |
| Pruning.PrunedKeepsLeaves | src/service/Utils.ts:78-91 | Pruning loses no leaf that carries a value. |
| Pruning.PrunedIsClean | src/service/Utils.ts:78-91 | No null, undefined or NaN and no empty object or array is left below the root. |
| Pruning.PrunedEmbeds | src/service/Utils.ts:78-91 | Pruning only leaves entries out: leaves keep their values, elements their order, fields their names. |
| Pruning.PrunedExactly | src/service/Utils.ts:78-91 | The pruned tree is the only one with these three properties. |
| Pruning.LeavesInObjects | src/service/Utils.ts:78-88 | Path by path in objects: a leaf stays unless it is undefined, null or NaN; false, zero and the empty text stay; no leaf appears. |
| Pruning.ElementsKeepOrder | src/service/Utils.ts:78-95 | Element by element in arrays: one that is not dropped stands, pruned, behind what is left of those before it. |
| Pruning.CleanIsFixed | src/service/Utils.ts:78-91 | A tree is left alone exactly when it is clean, so pruning twice is pruning once. |
| PruneInPlace.PruneSlot | src/service/Utils.ts:81 | An entry's tree is pruned in place, and it is reported for removal exactly when no carrying leaf is below it. |
| PruneInPlace.Prune | src/service/Utils.ts:79-90 | The recursive closure prunes the containers it is given, writing to no others. |
| PruneInPlace.PruneFields | src/service/Utils.ts:80-84 | Deleting fields while looping over them leaves the pruned object. |
| PruneInPlace.PruneItems | src/service/Utils.ts:80-87 | Deleting elements leaves holes, and pulling `undefined` afterwards leaves the pruned array. |
| PruneInPlace.PullItems | src/service/Utils.ts:87 | The pull removes exactly the holes and keeps the order. |
| PruneInPlace.Clone | src/service/Utils.ts:90 | The deep clone stands for the same value and shares no container. |
| PruneInPlace.PruneEmpty | src/service/Utils.ts:78-91 | The result is a fresh tree for the pruned value, and nothing that existed before is written. |
| TreeMerge.MergedLeaves | src/service/ConfigLoader.ts:79-82 | Path by path: a merged value holds exactly the leaves of the later one, and those of the earlier one about which the later is silent; an object merged into an array adds to the array. |
| TreeMerge.ContainersMerge | src/service/ConfigLoader.ts:79-82 | Containers of a kind merge, an object merges into an array, an array replaces an object, and anything else replaces unless it is `undefined`. |
| TreeMerge.MergeAssociates | src/service/ConfigLoader.ts:79-82 | Merging is associative for later values that nest: `undefined` first, or no container second, or containers that do so field by field. |
| TreeMerge.AbsorbedIsGone | src/service/ConfigLoader.ts:79-82 | A container whose fields are all overridden, at every depth, leaves no trace of having been merged before. |
| TreeMerge.MergeNestsExactlyWhen | src/service/ConfigLoader.ts:79-82 | For values a document can hold: merging two of them first is the same, into whatever they are merged, exactly when they nest. |
| PresetMerge.NestingIsFlatExactlyWhen | src/service/ConfigLoader.ts:129-131 | Merging two presets first is the same, onto whatever presets they are merged, exactly when each field they share nests; where the last preset wins, unless an empty scalar comes before an empty object. |
| PresetMerge.NumberBeforeObjectExample | src/service/ConfigLoader.ts:129-131 | A number before an empty object: merged first, the object keeps what the number would have replaced. |
| PresetMerge.MergePresetData | src/service/ConfigLoader.ts:79-90 | The method that assigns three fields of a fresh object builds the merge, and writes to nothing else. |
| PresetMerge.MergedField | src/service/ConfigLoader.ts:79-90 | The three special fields come whole from the last preset where they are not empty; every other field from the deep merge. |
| PresetLaws.NotEmptyExactly | src/service/ConfigLoader.ts:83-85 | What is not empty: a text with a letter, an object with a field, an array with an element. |
| PresetLaws.LastPresetCounts | src/service/ConfigLoader.ts:83-88 | The three special fields hold, whole, what the last preset holds that is not empty there. |
| PresetLaws.LastScalarCounts | src/service/ConfigLoader.ts:79-82 | In any other field, a value that is no container comes from the last preset that gives the field. |
| PresetMerge.NestedIsFlat | src/service/ConfigLoader.ts:129-131 | Nested merging equals flat merging for such presets, in the three special fields too. |
| PresetMerge.ResolvedIsFiveWayMerge | src/service/ConfigLoader.ts:92-155 | With custom presets that nest, a resolved preset is the flat merge of shared, network, assembly, custom file and custom object. |
| PresetLaws.ResolvesFirstGiven | src/service/ConfigLoader.ts:101-155 | The preset named by the command line counts, then the custom object, the custom file, the last resolution; so for the assembly, with the default of the preset last. Resolving succeeds exactly when both are named, their files load and the merge has a network type; custom presets given now count, and the cached one only when they hold nothing. |
| PresetMerge.UpgradeReproduces | src/service/ConfigLoader.ts:92-155 | Resolving again without parameters reproduces what was resolved before, the cached custom preset included. |
| PresetMerge.UpgradesReproduce | src/service/ConfigLoader.ts:92-155 | So does any chain of upgrades in memory. |
| SavedPresets.SavedLoads | src/service/YamlUtils.ts:34-64 | With any password or none, what is saved without private keys loads as it was saved, and never fails for want of a password. |
| SavedPresets.LoadsExactlyWhen | src/service/YamlUtils.ts:47-64 | A file loads with a password exactly when every marked secret opens with it; without one exactly when no marked secret stands in it; and always, unchanged, when passwords are turned off. |
| SavedPresets.WrittenLoads | src/service/YamlUtils.ts:25-64 | What was written with a password loads with it, and without one only when it held no secret. |
| SavedPresets.SavedCacheIsStripped | src/service/ConfigService.ts:203 | The saved preset loads with its names, and with the custom preset stripped of its private keys. |
| SavedPresets.UpgradeFromFile | src/service/ConfigService.ts:157 | An upgrade from the saved file is the upgrade with the stripped custom preset. |
| SavedPresets.SavedUpgradeReproducesExactlyWhen | src/service/ConfigLoader.ts:129-154 | With whatever preset files come with the program, it reproduces the merged preset exactly when the custom preset holds no text under an encryptable name. |
| SavedPresets.LaterUpgradesReproduce | src/service/ConfigLoader.ts:129-154 | Every later save and upgrade gives what the first upgrade from a file gave. |
| SavedPresets.LostKeyExample | src/service/ConfigLoader.ts:129-154 | A custom preset with one private key: the upgrade from the file gives another merged preset. |
| RepeatExpansion.ListIsWritten | src/service/ConfigLoader.ts:246-271 | With the counts written in the services, one where none is written: the expansion is as long as they add up to, and copy j of a service stands j places behind all copies of the services before it. |
| RepeatExpansion.CountIsWritten | src/service/ConfigLoader.ts:246-255 | One service: a number n written as `repeat` gives n copies, zero none; nothing written, or another falsy value, gives one; what is no object is kept. |
| RepeatExpansion.ExpandLength | src/service/ConfigLoader.ts:246-271 | Any first part of the list expands to as many services as its counts add up to. |
| RepeatExpansion.ExpandAt | src/service/ConfigLoader.ts:246-271 | Copy number j of a service stands behind all copies of the services before it. |
| RepeatExpansion.CopyAt | src/service/ConfigLoader.ts:246-271 | Every position holds such a copy, rendered with its own index. |
| RepeatExpansion.TextIsRendered | src/service/ConfigLoader.ts:227-243 | A text inside nested objects is rendered with the outer values and the fields of every object around it, inner ones shadowing outer ones. |
| RepeatExpansion.CopyTextIsRendered | src/service/ConfigLoader.ts:255-269 | A text of a copy sees the index of that copy before the service's own fields, and the fields of objects inside the service before both. |
| RepeatExpansion.CopyFields | src/service/ConfigLoader.ts:255-269 | A copy has every field but `repeat`, each evaluated with the outer values, the service's own fields and its number as `$index`. |
| RepeatExpansion.AppliedInside | src/service/ConfigLoader.ts:227-243 | Whatever stands inside nested objects is evaluated with the fields of all objects around it. |
| RepeatExpansion.TheRestIsKept | src/service/ConfigLoader.ts:227-243 | Arrays inside nested objects are expanded with those fields in sight; objects keep their field names; what is neither text nor container stays. |
| RepeatExpansion.ApplyLeavesNoRepeat | src/service/ConfigLoader.ts:227-271 | No object that is an array element keeps a repeat, at any depth. |
| RepeatExpansion.NothingToApply | src/service/ConfigLoader.ts:227-271 | A value without repeats and templates is left as it is. |
| RepeatExpansion.ExpansionIsFinal | src/service/ConfigLoader.ts:246-271 | An expansion keeps no repeat, and expanding one without templates again changes nothing, in any context. |
| DigitGroups.MatchIsFirstGroup | src/service/HandlebarsUtils.ts:132 | The expression matches exactly where only digits follow, and takes the first group of what is left. |
| DigitGroups.ScanGroupsTheTail | src/service/HandlebarsUtils.ts:132 | On every text the greedy scan finds exactly the groups counted from the right, of the tail in the class. |
| DigitGroups.GroupsAreFull | src/service/HandlebarsUtils.ts:127-141 | Groups from the right make up the text, and all but the first are full. |
| DigitGroups.JoinThenRemove | src/service/HandlebarsUtils.ts:127-148 | Removing the separators gives the text back. |
| DigitGroups.AmountGroupsByThree | src/service/HandlebarsUtils.ts:127-133 | An amount is printed exactly when it is digits apart from separators, in threes from the right, and can be read back. |
| DigitGroups.AmountIsIdempotent | src/service/HandlebarsUtils.ts:127-133 | Printing a printed amount changes nothing, and two amounts print alike only with the same digits. |
| DigitGroups.AmountsPrinted | src/service/HandlebarsUtils.ts:127-131 | An amount is printed exactly when its characters are digits and separators, at least one a digit. |
| DigitGroups.JoinedAt | src/service/HandlebarsUtils.ts:132-140 | Counted from the right, every fourth character of grouped amounts (every fifth of hexadecimal groups) is a separator, the others are the text's own, in order. |
| DigitGroups.CharsLeft | src/service/HandlebarsUtils.ts:128 | Taking separators out leaves all other characters, in their order. |
| DigitGroups.HexIsIdempotent | src/service/HandlebarsUtils.ts:135-148 | Printing a printed hexadecimal text changes nothing, for every text. |
| DigitGroups.HexKeepsSimpleForm | src/service/HandlebarsUtils.ts:135-148 | The simple form of the printed text is that of the text exactly when it is empty, word characters, or ends in another character. |
| DigitGroups.HyphenExample | src/service/HandlebarsUtils.ts:135-148 | What stands before a hyphen is lost. |
| DigitGroups.HexGroupsByFour | src/service/HandlebarsUtils.ts:135-141 | Word characters are printed in fours from the right behind the prefix. |
| DigitGroups.PrefixOfHex | src/service/HandlebarsUtils.ts:135-148 | Only the empty text is printed as the empty text, every other with 0x in front; one such prefix is no part of the simple form. |
| DigitGroups.WordCharactersAre | src/service/HandlebarsUtils.ts:140 | Word characters are the digits, the letters and the underscore. |
| MultisigModification.RealSize | src/service/ModifyMultisigService.ts:220-225 | The size of the cosignatory set after a fitting change. |
| MultisigModification.CountedAgainstReal | src/service/ModifyMultisigService.ts:220-225 | The validation counts too many by the repeated additions and too few by the repeated deletions; without repetitions it counts the real set. |
| MultisigModification.AcceptsExactly | src/service/ModifyMultisigService.ts:210-263 | For all lists, accepted with minimums not below zero is the same as: additions outside, deletions inside, and minimums that would do for the real and the miscounted cosignatories together; for lists without repetitions, the same as a sound account afterwards. |
| MultisigModification.VerdictsAre | src/service/ModifyMultisigService.ts:210-263 | Which verdict a change gets, for any lists: the first addition that is a cosignatory already, then the first deletion that is none, then how many cosignatories are missing for approval, then for removal, then minimums of zero; accepted exactly when none of these holds. |
| MultisigModification.AcceptedIsSoundExactlyWhen | src/service/ModifyMultisigService.ts:210-263 | For all lists, an accepted change leaves a sound account exactly when it passes what the validation does not look at: minimums below zero, minimums above the real count when repeated additions were counted, zero minimums when repeated deletions were. |
| MultisigModification.NegativeMinimumsPass | src/service/ModifyMultisigService.ts:240-262 | Among the accepted changes that are not miscounted, exactly those that bring no minimum below zero leave a sound account. |
| MultisigModification.NegativeMinimumExample | src/service/ModifyMultisigService.ts:240-262 | Lowering a minimum of one by two is accepted, and the account is not sound. |
| MultisigModification.RepeatedAdditionExample | src/service/ModifyMultisigService.ts:220-225 | Adding one address twice with a minimum of two is accepted, and the account is not sound. |
| MultisigModification.RepeatedDeletionExample | src/service/ModifyMultisigService.ts:220-225 | Deleting one of two cosignatories twice along with both minimums is accepted, and the account is not sound. |
| MultisigModification.AcceptedChangesKeepSound | src/service/ModifyMultisigService.ts:210-263 | Any sequence of accepted changes from a plain account keeps the cosignatories distinct, and the account sound all along exactly when every change passes what the validation does not look at. |
| MultisigModification.UnrepeatedChangesKeepSound | src/service/ModifyMultisigService.ts:210-263 | When no change repeats an address, exactly when no minimum ever falls below zero. |
| Cosigners.PromptAccounts | src/service/AnnounceService.ts:423-476 | The prompting loop, splicing and pushing, collects what the specification says for any answers; CollectNext and CollectEnds say what that is. |
| Cosigners.GetBestCosigner | src/service/AnnounceService.ts:486-501 | The search stops at the first account with funds. |
| Cosigners.GetMultisigBestCosigner | src/service/AnnounceService.ts:706-728 | The accounts entered are appended to the caller's array, and the best is chosen from all of it. |
| Cosigners.AnnounceMultisig | src/service/AnnounceService.ts:307-361 | The decision of the main-account branch for any answers and funds; DeclinedIsBonded and CompleteExactlyWhenMinimumEntered say which. |
| Cosigners.CollectPartitions | src/service/AnnounceService.ts:423-476 | At every step the entered and the still allowed addresses together are the expected ones. |
| Cosigners.CollectNext | src/service/AnnounceService.ts:440-472 | Entry by entry: the key of an allowed account moves it behind the provided ones, and the collection then ends exactly when nobody is left, the minimum is reached, or the user declines to go on; any other entry changes nothing. |
| Cosigners.CollectEnds | src/service/AnnounceService.ts:450-472 | Never more than the minimum is collected, and a collection has ended exactly when the minimum is reached, nobody is left, or the user declined to go on after an accepted key. |
| Cosigners.BestIsFunded | src/service/AnnounceService.ts:486-501 | The best cosigner is the first account that has funds; there is none exactly when nobody has. |
| Cosigners.OthersAndSigner | src/service/AnnounceService.ts:604-610 | Taking the signer out of the cosigners leaves all others once. |
| Cosigners.OthersKeepOrder | src/service/AnnounceService.ts:604-610 | They keep their order. |
| Cosigners.DeclinedIsBonded | src/service/AnnounceService.ts:307-361 | Declining to go on with fewer than the minimum entered, one of them with funds, announces a bonded aggregate: signed by the first with funds, with the others as cosignatories, asking for the minimum. |
| Cosigners.DeclinedExample | src/service/AnnounceService.ts:307-361 | One of two cosigners entered and the second declined: bonded. |
| Cosigners.CompleteExactlyWhenMinimumEntered | src/service/AnnounceService.ts:307-361 | With distinct cosignatories and a minimum they can meet: waiting exactly while the collection goes on, nothing when nobody entered has funds, a complete aggregate exactly when the minimum was entered and somebody entered has funds, a bonded one with fewer; signer and cosignatories are precisely the accounts entered. |
| Cosigners.UnfundedExample | src/service/AnnounceService.ts:307-361 | One cosigner without funds reaches the minimum, and nothing is announced. |

## Left out

- The chain: its rules (an unlink needs a linked key, a link an absent one, three voting keys at most, one remote and one VRF key) are the model's; fees, deadlines, signatures and other transactions are not modelled.
- Prompts: every answer is an arbitrary input; a prompt loop that never ends shows as waiting.
- LinkPlanner.LinkTransactionGenericFactory.AddVotingKeyLinkTransactions: voting keys are values and the filter removes the key at its position, where the program compares object references; an array that holds one object twice is not modelled.
- LinkService: loading presets and addresses, the account repository, logging and the service-provider option.
- VotingFile.CreateVotingFile: ed25519 is an arbitrary pair of functions with results of the right sizes, random keys are given, and epochs are not negative.
- VotingFile.ReadBack: epochs up to 2^53 - 1, the range a JavaScript number holds exactly.
- VotingService.Run: only the native file provider; the one that runs a docker image, subfolders and file access are not modelled, and the node's configured lifetimes are not negative.
- Letter case: only ASCII letters are folded; public keys and field names are ASCII.
- Nemesis: amounts are integers; two mosaics are different objects, distribution entries are values, so an entry of the preset that is shared with another list is not seen to change with it; generating addresses is not modelled.
- CryptoUtils: AES is a pair of functions of which decryption is assumed to undo encryption; parsing the name of a security mode is a lookup.
- JsonValues: numbers are integers or NaN; functions, dates and buffers do not occur; objects are maps, so the order of fields is not modelled.
- PruneInPlace.PruneFields: takes the fields in any order, where the program takes them in theirs.
- PruneInPlace.PruneEmpty: the input is a tree; lodash also clones values that share or contain themselves.
- TreeMerge: a field named `length`, `constructor` or `__proto__` is a field like any other, where lodash and JavaScript give it a meaning of its own; and the holes that a far position leaves in an array stay missing, where a further merge turns them into `undefined` elements.
- PresetMerge.NestingIsFlatExactlyWhen: speaks of presets as YAML or JSON documents hold them, in which arrays have elements only.
- LinkLimits.PlanStaysSoundExactlyWhen: speaks of disjoint files; for files of one account listed twice the end is given when no key is touched by two files, and SoundAllAlongExactlyWhen follows the keys for any files.
- MultisigModification: the account after a change holds an address that is added twice once.
- PresetMerge.UpgradesReproduce: speaks of the merged preset and its cached custom preset; defaults per node, the expansion of repeats and the version field are added afterwards from these alone.
- PresetMerge: the name of a preset or an assembly is a text.
- SavedPresets: writing YAML text and reading it is the identity, as it is on values without `undefined`; the cached custom preset is one a document can hold, and the length of passwords is not checked.
- RepeatExpansion: Handlebars is an arbitrary function of text and context; negative repeats and arrays directly in arrays are excluded.
- DigitGroups: inputs are texts; `toAmount` also takes numbers.
- Multisig changes: resolving addresses from the command line and building the transaction.
- Cosigners.AnnounceMultisig: the branches for service providers, plain accounts and multisig modifications, the hash lock of a bonded aggregate, and signing.
- Docker, certificates, reports, compose files, wizard and commands: input, output and formatting without a state worth proving something about.
