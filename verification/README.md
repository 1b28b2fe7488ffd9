# Reconcilers and transactions of the machine backup, in Dafny

The programs in `bin/` back up and restore a machine. Their hard code decides what may be
overwritten: it switches Python runtimes under live symlinks, rewrites a crontab and a bashrc that
people edit by hand, converges a live job store, compares a checkout with a commit, and moves
credentials. This project models that code in Dafny 4.11 and proves what it keeps. Run
`dafny verify dfyconfig.toml` in this directory.

| Program | Modules |
|---|---|
| `bin/install-python-closure.py` | `FileSystems`, `ReplacedPaths`, `LinkTargets`, `CompatibilityLinks`, `PythonClosure`, `LinkFollowing`, `InstallEnvironment`, `ContentBytes`, `Order`, `ContentManifest` |
| `bin/reconcile-host-schedules.py` | `Text`, `Stripping`, `Replacing`, `HomePlaceholder`, `Schedules`, `ScheduleClaims`, `ScheduleStructure`, `ScheduleLines`, `ScheduleIdempotence`, `SchedulePublic`, `ScheduleAdoption`, `ScheduleProgram`, `ScheduleReading`, `ScheduleRuns`, `ScheduleAnchors`, `ScheduleOwned`, `ScheduleExamples` |
| `bin/openclaw-cron-v2.py` | `Json`, `CronJobs`, `CronFields`, `CronServer`, `CronListings`, `CronCalls`, `CronRuns`, `CronPlaces`, `CronStages`, `CronReconciler`, `CronClaims`, `CronSnapshots`, `CronExports`, `CronRestores` |
| `bin/verify-exact-checkout.py` | `CheckoutTrees`, `Checkout`, `CheckoutPaths`, `CheckoutRecords` |
| `bin/materialize-secret-projections.py`, `bin/verify-skill-credentials.py` | `EnvFile`, `EnvLines`, `AasMigration`, `AasReturns`, `AasRuns` |
| `bin/migrate-owner-settings.py` | `Bashrc`, `BashrcSettings`, `BashrcMigration`, `BashrcReturns` |
| `bin/lib/ci_bounded_tee.py` | `BoundedTee` |

How the world is modelled:

* **File system.** A class over a map from paths to nodes (absent, file, symlink, directory). Every
  operation takes effect or fails without effect; names drawn from `uuid4` are fresh. A ghost log keeps
  every state passed through, so "in every reachable state" is a statement about the log. A ghost
  `committed` flag is set where verification has returned. A ghost counter, `faults`, counts the
  operations that failed although the nodes allowed them, so a contract can say what one fault, or
  none, leads to. Whether a path leads to something is any function of the nodes and the path.
* **Cron server.** Every answer is arbitrary. Every call is logged, and whether a log is that of a
  server that behaves as documented (complete listings, `cron.add` as an upsert by key that
  overwrites the declarative fields) is a predicate on the log. Safety holds for every log,
  convergence for the honest ones.
* **Descriptors.** Reads and writes may be short or fail; reliable ones may only be short.
* **Loops and state.** Code that updates variables step by step is a method with a loop, proved equal
  to a specification function; the properties are lemmas about that function.
* **Second definitions.** The main predicates a program evaluates have another definition beside them, in
  terms of the inputs alone, and a lemma (`...Iff`) that says that the two are the same.

## What the proofs found

* A crontab reconciled twice is unchanged exactly if no private line is itself a marker line; with one
  the second run raises (`ReconcileIsIdempotentIff`). `public_block` returns the managed block exactly
  if no private line is the begin marker (`PublicBlockIff`). A private text that is the begin marker
  shows both (`MarkerInPrivateText`).
* Adoption is complete exactly if no hand-added line holds `{{`, `}}` or the begin marker's text
  (`AdoptionCompleteIff`); the line `# {{` is not adopted (`BracesAreNotAdopted`).
* Adoption moves hand-added lines behind the managed block, whose jobs set `CRON_TZ`. Cron applies a zone
  to every line after it, so a line that ran in the machine's own zone runs in that of the last declared
  job once it is adopted, unless another adopted line sets a zone (`OutputRuns`, `AdoptedLinesAreZoned`).
* `install_environment` may raise with the new target in place although no rollback failed: the `finally`
  at `bin/install-python-closure.py:1036-1040` forgives a missing `.next-*` name only, so any other error
  of its removal is raised after the target was verified. An exception without a rollback error leaves
  another target exactly in that case (`Install`).
* A generation that fails its check is deleted although the target leads into it, when the target is a
  symlink to a path inside the generation: the test at `bin/install-python-closure.py:1295` compares
  the resolved paths for equality only (`Choose`, `RemovalKeepsTreeIff`, `InsideTargetIsNotProtected`).
* `reconcile` against an honest server converges exactly if no desired job has a top-level field that
  is null. `load_snapshot` accepts `"displayName": null`, but `logical_job` drops nulls from what is
  live, so such a job is removed and added again and the run still raises (`Reconcile`,
  `NullNeverSettles`).
* Exporting the jobs of an export gives the same snapshot exactly if none of them holds the home
  (`ExportIsFixpointIff`). A message that names `/r/r/x` under the home `/r` breaks it
  (`NestedHomeIsNoFixpoint`): normalizing leaves a home path behind the placeholder.
* The check of committed paths in `committed_inventory` lets `a//b`, `./a`, and a file where other paths
  have a directory pass; the walk would then reject every tree (`OddPathsNeverMatch`). Such paths do not
  arrive, because `git fsck --strict` (line 381) has refused the commit before.
* `_split_legacy_provider_authority` rewrites `providers.env` before
  `_assert_legacy_aas_matches_authorities` and the later checks, whose docstring promises that
  conflicts are rejected before anything is written. A run that stops on such a check has lost a value
  exactly if `providers.env` held a Copilot value that was in no legacy document, not in `.secrets.env`
  and not in the Copilot authority (`StoppedRunLosesIff`, `StrayValueIsLost`).
* In `_migrate_bashrc` the managed lines of all blocks pile up, so any second block after the loader's
  raises unless it is empty, even one with comments only (`SecondBlockRaises`).

## Model

| member | source | states |
|---|---|---|
| `ReplacedPaths.RestoreReplaced` | bin/install-python-closure.py:964-978 | A successful restore puts the backup's node at the target; a failed one changes nothing; at most the displaced target stays at the backup path, no other path changes, and every state on the way is one of these. |
| `LinkTargets.ProspectiveIff` | bin/install-python-closure.py:1121-1134 | The search through the declared links finds a prospect exactly if the target exists, or the path got by replacing its longest declared link by that link's text does. |
| `LinkTargets.LinkBelowLink` | bin/install-python-closure.py:1090-1098 | A link whose text is a path below another declared link, as aider's is, has a prospect on a host that has neither link yet. |
| `CompatibilityLinks.CollectPending` | bin/install-python-closure.py:1121-1146 | Success means that every target exists, as it is or with its longest declared link replaced by that link's text; the pending entries are then exactly the links not already in place, one each, with fresh `.next-*` names, and without `replace_unmanaged` none of these paths exists. |
| `CompatibilityLinks.Prepare` | bin/install-python-closure.py:1148-1153 | While the new links are prepared no original moves; after a failure only prepared names have been added. |
| `CompatibilityLinks.SwapOne` | bin/install-python-closure.py:1155-1167 | One forward step that fails anywhere leaves a state the rollback can undo, and every state keeps every original at its link or its recorded backup. |
| `CompatibilityLinks.RollBackOne` | bin/install-python-closure.py:1170-1192 | Undoing one change, if it succeeds, settles that link as it was originally, whatever state the other links are in. |
| `CompatibilityLinks.RollBack` | bin/install-python-closure.py:1168-1198 | The reverse loop goes on after a failing step: every changed link is settled except those whose own step failed, at most as many as there were faults, and complete means there was none. No state on the way loses an original. |
| `CompatibilityLinks.VerifyLinks` | bin/install-python-closure.py:1105-1113 | Passing means every link holds its specified text and every target exists; if that is so, only a fault makes it raise. |
| `CompatibilityLinks.ActivateLinks` | bin/install-python-closure.py:1116-1219 | For any number of links and a failure at any step: on success every link is in place and nothing else changed; if the rollback succeeded every path is as it was apart from a displaced managed link at a backup path; no `.next-*` path of the run remains unless its removal itself failed; in every state before the commit every original is at its link or its backup, and every state after it has all links active. Success means that, once switched, every target exists. Without a fault the run is refused exactly for an unmanaged path in the way or a target that exists neither as it is nor with its longest declared link replaced by that link's text, and else ends active or, if a target is missing after the switch, rolled back; one fault, at whatever operation, leaves a complete rollback unless a target was missing too. |
| `PythonClosure.VerifyInstalled` | bin/install-python-closure.py:854-901 | Passing means the path leads to a tree whose contents are accepted at that path; such a path is rejected only by a fault. |
| `LinkFollowing.ResolveIff` | bin/install-python-closure.py:689-693 | Resolution gives the end of the chain of links, followed one hop at a time from any level of the path, and fails exactly if the chain has no end. |
| `LinkFollowing.InstalledIff` | bin/install-python-closure.py:854-901 | An environment is installed at a path exactly if its links lead into a directory tree whose contents are accepted there. |
| `PythonClosure.ActivateGeneration` | bin/install-python-closure.py:981-1040 | Returning normally means the target leads to a verified tree; in every state before that, also when rollback fails, the original is at the target or at the recorded backup path and no path other than the target and this run's own names differs. A regular file is always refused; without a fault an acceptable generation is activated, and then one fault cannot leave the rollback incomplete. |
| `InstallEnvironment.Install` | bin/install-python-closure.py:1248-1390 | "unchanged" changes nothing and "installed" or a commit implies an installed target; an exception without a rollback error leaves another target exactly if the activation was committed and removing its `.next-*` name failed, and the target is then the verified link; until the replacement is verified and active every state is safe. A regular file, or an unmanaged target without `replace_unmanaged`, stays. Without a fault a good target is "unchanged", a good generation that is there becomes the target, and else a fresh one does exactly if no file or link is in its way and what the tools build there passes its check; an incomplete rollback takes two faults. |
| `InstallEnvironment.Build` | bin/install-python-closure.py:1308-1353 | A build that succeeds leaves the finished, verified tree at the generation path; without a fault it succeeds exactly if that tree passes its check, and else leaves nothing; while it runs nothing but the generation path changes. |
| `InstallEnvironment.Choose` | bin/install-python-closure.py:1280-1306 | A generation in use is never removed: a fresh repair path is chosen beside it. A good one is reused as it is. Without a fault a directory that fails its check and is not in use is gone afterwards, and nothing else changed. |
| `InstallEnvironment.SwitchInstalls` | bin/install-python-closure.py:1355-1364 | A generation that passes its check at its own path passes it at the target too, whatever the target led to before. |
| `InstallEnvironment.SafeKeepsTree` | bin/install-python-closure.py:1292-1306 | A safe state still has the tree the target led to at entry, unless the target led inside the generation. |
| `InstallEnvironment.InstallKeepsEntryTree` | bin/install-python-closure.py:1263-1390 | Over a whole run the tree the target led to at entry is neither deleted nor built into before a verified replacement is active. |
| `InstallEnvironment.RemovalKeepsTreeIff` | bin/install-python-closure.py:1292-1306 | Removing a generation that is not "in use" keeps the entry tree exactly if the target does not lead below that generation's top. |
| `InstallEnvironment.InsideTargetIsNotProtected` | bin/install-python-closure.py:1292-1306 | A concrete state in which the entry tree is the generation and the test does not see it as in use. |
| `ContentManifest.BigEndianRoundTrip` | bin/install-python-closure.py:705 | A length frame of eight big-endian bytes gives the length back. |
| `ContentManifest.FramesInjective` | bin/install-python-closure.py:700-707 | Equal framed streams come from equal lists of records. |
| `ContentManifest.RecordsInjective` | bin/install-python-closure.py:709-763 | The sorted preorder records of two installations are equal exactly if the trees are, apart from the root marker. |
| `ContentManifest.StreamInjective` | bin/install-python-closure.py:686-767 | The byte streams fed to the digest are equal exactly if the trees are equal in names, types, modes, link targets and file digests and sizes, apart from the root marker. |
| `ContentManifest.Hasher.AddEntry` | bin/install-python-closure.py:709-755 | Walking an entry appends exactly its frames to the stream and its records to the count, and is refused exactly for a special file or an oversized record. |
| `ContentManifest.InstalledContentManifest` | bin/install-python-closure.py:686-767 | The returned count and stream are those of the installation's records, and it raises exactly when there is no such stream. |
| `Replacing.ReplaceIff` | bin/openclaw-cron-v2.py:83-89 | Replacing changes exactly the occurrences found from the left without overlap: what stands between them is kept. |
| `HomePlaceholder.RoundTripIff` | bin/openclaw-cron-v2.py:83-89 | Normalizing the home and rendering it back is the identity exactly on strings without the placeholder. |
| `HomePlaceholder.AdoptedLineRenders` | bin/reconcile-host-schedules.py:562 | A crontab line without brace pairs comes back from its home-relative form unchanged. |
| `HomePlaceholder.NormalStableIff` | bin/openclaw-cron-v2.py:88-89 | Normalizing leaves a text alone exactly if no path below the home is in it. |
| `HomePlaceholder.NormalizingTwice` | bin/openclaw-cron-v2.py:88-89 | A concrete text that normalizing twice changes twice. |
| `ScheduleClaims.ContractIff` | bin/reconcile-host-schedules.py:437-475 | The claim contract holds exactly if every placeholder renders, every claimed line is a cron line, and no line, command or path identity is claimed by two jobs; it then names the owner of exactly what was claimed. |
| `ScheduleStructure.ScanMeetsReference` | bin/reconcile-host-schedules.py:505-540 | The marker state machine agrees with a reading of the markers by parity: it accepts properly paired, un-nested blocks, at most one of each kind, with no near match outside, and keeps the free unclaimed lines in order. |
| `ScheduleStructure.PrefixIff` | bin/reconcile-host-schedules.py:495-547 | Given a valid contract the scan succeeds exactly then, and the output's prefix is those lines plus at most a final newline and one blank line. |
| `ScheduleIdempotence.PadShape` | bin/reconcile-host-schedules.py:542-546 | Padding completes the last line, adds at most one blank line, and is done once. |
| `ScheduleIdempotence.ReconcileIsIdempotentIff` | bin/reconcile-host-schedules.py:492-547 | Reconciling the output again with the same declaration and private text returns the identical string exactly if no private line is a marker, and raises otherwise. |
| `SchedulePublic.PublicBlockIff` | bin/reconcile-host-schedules.py:568-580 | `public_block` of a reconciled crontab equals the rendered managed block exactly if no private line is the begin marker. |
| `ScheduleExamples.MarkerInPrivateText` | bin/reconcile-host-schedules.py:478-489 | A concrete private text with which the first run succeeds, the second raises, and the public block is not the managed one. |
| `ScheduleAdoption.AdoptionCompleteIff` | bin/reconcile-host-schedules.py:550-565 | With the adopted private text reconciling leaves only blank lines before the managed block and every hand-added line in the private one, exactly if no hand-added line holds a brace pair or the begin marker's text. |
| `ScheduleAdoption.AdoptionKeepsOrder` | bin/reconcile-host-schedules.py:550-565 | The adopted private lines are the existing ones followed by every hand-added line once, in order. |
| `ScheduleAdoption.AdoptionSettles` | bin/reconcile-host-schedules.py:550-565 | If every hand-added line can be adopted, adopting again from the same crontab gives the same private text, and adopting from the reconciled crontab gives it exactly if no private line is a marker. |
| `ScheduleExamples.BracesAreNotAdopted` | bin/reconcile-host-schedules.py:550-565 | A concrete crontab whose hand-added line is not adopted. |
| `ScheduleReading.CronPartsIff` | bin/reconcile-host-schedules.py:409-418 | A line is read as an entry exactly if, stripped, it is five words with gaps behind them and a command, its first word neither a comment nor an assignment; the schedule is the five words with single spaces. |
| `ScheduleRuns.ManagedRuns` | bin/reconcile-host-schedules.py:251-265 | The managed block, read as cron reads a crontab, runs exactly the declared cron jobs in order, each with its schedule, time zone and rendered command. |
| `ScheduleRuns.OutputRuns` | bin/reconcile-host-schedules.py:492-547 | The whole output runs what was kept, then exactly the declared jobs, then the private lines. |
| `ScheduleRuns.OwnLineIsWritten` | bin/reconcile-host-schedules.py:505-547 | The schedule line of every declared cron job, which the scan drops as the job's own, is a line of the output. |
| `ScheduleRuns.AdoptedLinesAreZoned` | bin/reconcile-host-schedules.py:550-565 | Once every hand-added line is adopted and a cron job is declared, every entry cron runs has a time zone, so lines that ran in the machine's zone no longer do. |
| `ScheduleAnchors.AnchorsIff` | bin/reconcile-host-schedules.py:421-434 | A command has a path identity exactly if a path below one of the four owned roots stands in it, or the stress command does. |
| `ScheduleOwned.ReadIff` | bin/reconcile-host-schedules.py:524-537 | A line counts as owned exactly if it is a declared line with the home filled in or a private one, and as a near match exactly if it runs a declared command or names a path identity of one. |
| `ScheduleOwned.MarkIff` | bin/reconcile-host-schedules.py:20-27 | A line opens or closes a block exactly if it is that block's marker, apart from the gaps around it. |
| `ScheduleExamples.OneJobIsRendered` | bin/reconcile-host-schedules.py:251-265 | The six lines of the managed block of one job. |
| `ScheduleProgram.LegacyClaimContract` | bin/reconcile-host-schedules.py:437-475 | The nested loops compute the claim contract `ContractIff` is about. |
| `ScheduleProgram.ScanText` | bin/reconcile-host-schedules.py:505-540 | The loop over the lines, with its three variables, computes the scan `ScanMeetsReference` is about. |
| `ScheduleProgram.ReconcileText` | bin/reconcile-host-schedules.py:492-547 | The program computes the function whose idempotence is proved. |
| `ScheduleProgram.AdoptUnmanaged` | bin/reconcile-host-schedules.py:550-565 | The program computes the adoption whose completeness, order and settling are proved. |
| `ScheduleProgram.ReadPublicBlock` | bin/reconcile-host-schedules.py:568-580 | The loop computes the block `PublicBlockIff` is about. |
| `Json.MatchesReflexive` | bin/openclaw-cron-v2.py:624-635 | Every JSON value declares itself. |
| `Json.MatchesTransitive` | bin/openclaw-cron-v2.py:624-635 | `declared_matches` is transitive on JSON trees. |
| `Json.MatchesAntisymmetric` | bin/openclaw-cron-v2.py:624-635 | Values that declare each other are equal in Python's sense, so it is a partial order. |
| `Json.MatchesIff` | bin/openclaw-cron-v2.py:624-635 | A value matches a declared one exactly if it has, at every place of the declared one, the same scalar or the same kind of container, lists also of the same length. |
| `Json.TransformRoundTripIff` | bin/openclaw-cron-v2.py:83-98 | Exporting to the portable form and materializing again is the identity exactly on values whose strings lack the placeholder. |
| `Json.TransformStableIff` | bin/openclaw-cron-v2.py:83-98 | Normalizing leaves a value alone exactly if no string of it is the home or holds a path below it. |
| `CronJobs.LogicalIsIdentity` | bin/openclaw-cron-v2.py:353-377 | A valid job without nulls is its own logical job. |
| `CronJobs.LogicalKeeps` | bin/openclaw-cron-v2.py:353-377 | Every logical field a raw job carries, not as null, comes through unchanged. |
| `CronJobs.NullDisplayName` | bin/openclaw-cron-v2.py:321-323 | Any valid job stays valid with a null for its display name. |
| `CronFields.LogicalIff` | bin/openclaw-cron-v2.py:353-377 | `logical_job` returns a job exactly if it is valid and says, field by field, what the raw job gives among the sixteen fields, the three defaults where it gives none, and its own key or the one made of prefix, slug and the digest of the other fields. |
| `CronFields.ValidIff` | bin/openclaw-cron-v2.py:313-350 | A job is valid exactly if it has the seven required fields, every field is one of the sixteen with a value it may have, and the validators accept the nested ones. |
| `CronFields.NamesIff` | bin/openclaw-cron-v2.py:641-648 | The id and the key of a listed job are its texts in these two fields, if they are not empty. |
| `CronJobs.DuplicateIff` | bin/openclaw-cron-v2.py:656-679 | An unkeyed job is a duplicate exactly if it has every field of some desired job, the key aside, with a value that field declares. |
| `CronListings.StoredMatches` | bin/openclaw-cron-v2.py:624-635 | A stored job that holds everything declared is matched as a logical job exactly if nothing was declared as null. |
| `CronListings.IndexIff` | bin/openclaw-cron-v2.py:638-653 | Indexing succeeds exactly if every job has an id and a logical form and no key is listed twice; the index then says which job has each key and which jobs have none. |
| `CronListings.SettledIff` | bin/openclaw-cron-v2.py:660-689 | Whatever order a store is listed in, its plan is empty exactly if the store has every desired key matched, no unkeyed job that has every field of a desired one apart from the key and, with prune, no other managed job. |
| `CronListings.RemovedIsSurplus` | bin/openclaw-cron-v2.py:676-689 | The plan removes exactly the stored jobs that have no key and every field of some desired job apart from the key or, with prune, are managed and not desired. |
| `CronListings.SettledListingIff` | bin/openclaw-cron-v2.py:660-689 | The same for the jobs of any listing, by the fields of its jobs. |
| `CronCalls.ReplaceStep` | bin/openclaw-cron-v2.py:731-733 | Removing a job and adding the declared one: the key is there again with everything declared, and jobs under other keys are untouched. |
| `CronCalls.ReplacedIsFulfilled` | bin/openclaw-cron-v2.py:723-733 | A key whose job was just replaced matches its declaration exactly if nothing is declared as null. |
| `CronRuns.StepsExtend` | bin/openclaw-cron-v2.py:697-733 | A whole stage of additions and replacements touches the jobs of its own keys only. |
| `CronRuns.FulfilledAfterRefresh` | bin/openclaw-cron-v2.py:725-733 | After the refresh every desired key without declared nulls is matched: it matched before, or was replaced. |
| `CronPlaces.RecreateIff` | bin/openclaw-cron-v2.py:698-719 | The test for replacing a job fires exactly if a declared field that no upsert sets differs in the live job. |
| `CronStages.IndexLiveJobs` | bin/openclaw-cron-v2.py:638-653 | The loop computes the index `IndexIff` is about. |
| `CronStages.MakePlan` | bin/openclaw-cron-v2.py:660-689 | The loops compute the plan that `SettledIff` and `RemovedIsSurplus` describe by the fields of the jobs, each list in the program's order. |
| `CronStages.UpdateDrifted` | bin/openclaw-cron-v2.py:711-721 | One step for each key to update, in the plan's order, a replacement exactly where a declared field that no upsert sets differs; all calls are justified by the last listing. |
| `CronStages.ReplaceDrifting` | bin/openclaw-cron-v2.py:725-733 | Exactly the keys that still differ in the new listing are replaced, in the order of the snapshot; a missing key raises. |
| `CronReconciler.NeverStops` | bin/openclaw-cron-v2.py:692-744 | Against an honest server and from a store with unique keys and valid jobs no run raises before its last listing. |
| `CronReconciler.Converges` | bin/openclaw-cron-v2.py:692-744 | Such a run ends settled exactly if nothing is declared as null; jobs it does not own are as before, nothing is added but desired keys, and a store that was settled sees listings only. |
| `CronReconciler.RunKeepsPlaces` | bin/openclaw-cron-v2.py:698-733 | Against an honest server a live job whose declared fields outside the upserted ones all match keeps its id: it is updated in its place, not removed and added again. |
| `CronReconciler.SettledHasNoNulls` | bin/openclaw-cron-v2.py:660-689 | A plan with nothing to do means no desired job declares a null, whatever the server answered. |
| `CronReconciler.Reconcile` | bin/openclaw-cron-v2.py:692-744 | Whatever the server answers and wherever the run stops: only desired jobs that were missing or differed in the last listing are added, only ids listed under a drifting desired key or as surplus are removed, and a drifting job is put back by the very next call; on normal return the final listing is settled and the plan returned is that of the first. Against an honest server an unkeyed job that lacks a field of every desired one stays as it was and a job that an upsert can bring up to date keeps its id; the run returns normally exactly if nothing is declared as null, and a second run then issues no add or remove. |
| `CronReconciler.ReconcileSnapshot` | bin/openclaw-cron-v2.py:692-744 | The same with the program's own `logical_job`, for jobs `load_snapshot` accepts. |
| `CronClaims.PermutationInvariant` | bin/openclaw-cron-v2.py:395-421 | If generated keys tell the given jobs apart, every permutation of them gives the very same snapshot or the same failure. |
| `CronClaims.PermutationEqual` | bin/openclaw-cron-v2.py:395-421 | Every permutation of the raw jobs fails alike or gives a snapshot with equal jobs in the same places, whatever the keys. |
| `CronClaims.SnapshotIsFixpoint` | bin/openclaw-cron-v2.py:395-421 | If reading a job again gives its claim, the snapshot of a snapshot's jobs is that snapshot. |
| `CronClaims.SnapshotLoads` | bin/openclaw-cron-v2.py:424-452 | A snapshot that is not empty has valid jobs, every key once, sorted by key. |
| `CronClaims.ValidPrefixIff` | bin/openclaw-cron-v2.py:386-392 | A key prefix is accepted exactly if it is a letter or digit, then letters, digits, dots, underscores, colons or hyphens, then a dot, at most 160 characters in all. |
| `CronClaims.MakeSnapshot` | bin/openclaw-cron-v2.py:380-421 | The loop raises exactly if some job has no logical form or two jobs share a key that is explicit or stands for different jobs, and otherwise lists the first job of every key in order. |
| `CronSnapshots.OrderDoesNotMatter` | bin/openclaw-cron-v2.py:380-421 | For every permutation `make_snapshot` fails alike or gives snapshots that are equal to Python, with or without a home and a canary; if the digest tells the seeds of the given keyless jobs apart, they are identical. |
| `CronSnapshots.SnapshotOfSnapshot` | bin/openclaw-cron-v2.py:380-421 | `make_snapshot`, called on its own job list without a home, returns that list. |
| `CronSnapshots.SnapshotIsLoadable` | bin/openclaw-cron-v2.py:424-452 | What `make_snapshot` returns is what `load_snapshot` demands. |
| `CronExports.ExportIsFixpointIff` | bin/openclaw-cron-v2.py:395-421 | `make_snapshot` under a home, called on its own job list under that home, returns that list exactly if no string of its jobs is the home or holds a path below it. |
| `CronExports.PlainRawsAreFixpoint` | bin/openclaw-cron-v2.py:353-421 | That is so if no raw job holds the home after it was normalized once. |
| `CronExports.NestedHomeIsNoFixpoint` | bin/openclaw-cron-v2.py:83-98 | A concrete raw job whose export is not what exporting the export gives. |
| `CronRestores.ExportIsSettled` | bin/openclaw-cron-v2.py:455-459 | If every live job names its own key and no string holds the placeholder, the export of a store, materialized under the same home, plans nothing for that store. |
| `CronRestores.NullNeverSettles` | bin/openclaw-cron-v2.py:424-452 | A concrete snapshot that `load_snapshot` accepts and for which, whatever is listed, there is something left to do: no reconciliation settles. |
| `CheckoutTrees.LeafPathsIff` | bin/verify-exact-checkout.py:403-430 | The flattened paths are exactly the paths that can be looked up and are not directories. |
| `CheckoutTrees.NeededBelow` | bin/verify-exact-checkout.py:395-400 | The directories an inventory needs are exactly those with a file or link below them. |
| `Checkout.ObjectBytesInjective` | bin/verify-exact-checkout.py:181-185 | Blobs with the same hashed bytes have the same content. |
| `Checkout.DigitsAreDecimal` | bin/verify-exact-checkout.py:184 | The size in a blob's header is its decimal notation, without a leading zero. |
| `Checkout.RegularDigest` | bin/verify-exact-checkout.py:188-220 | Whatever chunks the reads return, the digest is that of the whole content under its header, and a size that differs raises. |
| `Checkout.InventoryIff` | bin/verify-exact-checkout.py:223-255 | The inventory exists exactly if every record is an admissible blob and no path comes twice, and it then holds exactly the records. |
| `CheckoutPaths.SafePathIff` | bin/verify-exact-checkout.py:247-249 | A committed path is let through exactly if it does not start with a slash, no component of it is "..", and some component is neither empty nor ".". |
| `Checkout.CommittedInventory` | bin/verify-exact-checkout.py:223-255 | The loop computes the inventory `InventoryIff` is about, and raises when there are no records. |
| `Checkout.Walk` | bin/verify-exact-checkout.py:403-456 | For any listing order the recursive walk accepts exactly if every entry passes its check, and has then observed exactly the paths below. |
| `Checkout.FineIff` | bin/verify-exact-checkout.py:395-456 | The walk's checks below a path amount to agreement with the inventory and no directory without a file. |
| `Checkout.RootIff` | bin/verify-exact-checkout.py:388-460 | The walk and the final comparison accept exactly the tree that flattens to the inventory and has no directory without a file. |
| `CheckoutRecords.VerifyCheckout` | bin/verify-exact-checkout.py:345-460 | A checkout is accepted exactly if there are records, the exempt roots hold plain files only and no record's path, and the records are exactly those of the rest of the tree: path, size and digest, mode 100755 for an executable file, 100644 for another and 120000 for a link, with no directory that holds no file. |
| `CheckoutRecords.AcceptedIff` | bin/verify-exact-checkout.py:223-460 | The inventory and the two comparisons of the program amount to that. |
| `CheckoutRecords.WrongModeIsRejected` | bin/verify-exact-checkout.py:443-452 | Records that are accepted are rejected once any one of them has another mode. |
| `Checkout.OneTree` | bin/verify-exact-checkout.py:388-460 | Two trees that match the same inventory are equal, if no two contents at one path collide. |
| `Checkout.OddPathsNeverMatch` | bin/verify-exact-checkout.py:247-249 | An inventory with a path that is not in normal form, or that is an ancestor of another, matches no tree. |
| `EnvFile.RoundTripIff` | bin/materialize-secret-projections.py:1156-1191 | Printing values and reading them back is the identity exactly if every value is trimmed, not empty and free of control characters. |
| `EnvLines.EntryIff` | bin/materialize-secret-projections.py:1168-1182 | A line gives a key a value exactly if it is the key, an equals sign and a trimmed value without control characters, with nothing around it; the key ends at the first equals sign. |
| `EnvLines.ReadIff` | bin/materialize-secret-projections.py:1156-1183 | A file can be read within the allowed keys exactly if every line is blank, a remark or the assignment of an allowed key and no key is assigned twice; it then gives each key what its line gives it. |
| `EnvFile.ParsersAgree` | bin/verify-skill-credentials.py:1915-1943 | The writer's and the verifier's parsers differ on a text exactly if it is well formed, assigns allowed keys only, and one of them is no environment name; so they agree on every text if the allowed keys are environment names. |
| `EnvFile.ReadByKeys` | bin/materialize-secret-projections.py:1156-1183 | The allowed keys decide only whether there is a result, not what it is. |
| `EnvFile.EnvOfPayload` | bin/materialize-secret-projections.py:1186-1191 | A printed authority says exactly the values it was printed from. |
| `EnvFile.GatherLines` | bin/materialize-secret-projections.py:1166-1183 | The loop over the lines computes the values the lemmas are about, for either parser. |
| `AasMigration.FoundIsLegacy` | bin/materialize-secret-projections.py:2343-2404 | A value in any legacy source, the mixed provider vault or a Zotero document is in the merged legacy values. |
| `AasMigration.StageBrings` | bin/materialize-secret-projections.py:2567-2614 | Each authority's step brings the legacy values of its own keys into it. |
| `AasMigration.RunKeeps` | bin/materialize-secret-projections.py:2276-2306 | From the split on no step overwrites or drops a value an authority holds. |
| `AasMigration.NothingFoundIsLost` | bin/materialize-secret-projections.py:2534-2638 | After a run that returns, and already once the Copilot authority is written, every value found anywhere under a declared key, if not blank, is the one its authority holds. |
| `AasMigration.ConflictStops` | bin/materialize-secret-projections.py:2407-2444 | With two different values under one key no run gets past the Copilot authority, whatever the order of the sources. |
| `AasReturns.LegacyIff` | bin/materialize-secret-projections.py:2343-2404 | Merging the old places succeeds exactly if they can be read, no two of them differ under one key, and the Zotero key is the one the skill authority has, if it has one; it then gives exactly what they say. |
| `AasReturns.MigratableIff` | bin/materialize-secret-projections.py:2407-2444 | Merging and all later checks succeed exactly if everything that is there can be read within its keys, no two places say different things under one key, and every value an environment file lacks is blank, and left out, or a trimmed text of one line without control characters. |
| `AasReturns.FirstMigration` | bin/materialize-secret-projections.py:1156-1161 | A home without any authority and with one old document that gives one key a good value can be migrated. |
| `AasRuns.MergeDocuments` | bin/materialize-secret-projections.py:2359-2404 | The loops over sources and keys compute the merged values, raising on a conflict or an invalid value. |
| `AasRuns.MigrateStrictEnv` | bin/materialize-secret-projections.py:2276-2306 | Missing keys are added and a present key is never overwritten; a value that is not a single trimmed line raises. |
| `AasRuns.MigrateAas` | bin/materialize-secret-projections.py:2534-2638 | The files pass through exactly the states of a run; nothing is written if the sources disagree or the send-email configuration cannot be read. With reliable storage, and the configuration steps returning, a run returns exactly if everything can be read within its keys, no two places differ under one key, and every value to be added is blank or fit for its file. It stops only where the next stage raises, which is after the first write and before the Copilot authority is written, or where the migration of the send-email configuration (then) or of the Zotero, Calibre and Canvas ones (before the last write) raises. |
| `AasRuns.SecondRunIsQuiet` | bin/materialize-secret-projections.py:2534-2638 | After a run that returns, a second one writes nothing. |
| `AasRuns.StoppedRunLosesIff` | bin/materialize-secret-projections.py:2447-2477 | A run that stops on a check after the split keeps every value that was found anywhere, exactly if the mixed provider vault held no Copilot value that was neither in its authority nor in a legacy document nor in `.secrets.env`. |
| `AasRuns.LateRunLosesNothing` | bin/materialize-secret-projections.py:2567-2638 | A run that got past the Copilot authority, wherever it stops, has lost no value found anywhere, blank ones aside. |
| `AasRuns.StrayValueIsLost` | bin/materialize-secret-projections.py:2407-2477 | A concrete home on which the migration raises and a Copilot value is gone. |
| `Bashrc.CollectManagedLines` | bin/migrate-owner-settings.py:267-278 | The loop collects the settings of a block that is not the loader, and raises on anything else in it. |
| `Bashrc.MigrateBashrc` | bin/migrate-owner-settings.py:281-335 | The loop with its five variables computes the migration the lemmas are about. |
| `BashrcSettings.AssignmentIff` | bin/migrate-owner-settings.py:76-78 | A line is read as a setting exactly if it is a name and a value around an equals sign, with gaps anywhere around them and perhaps "export" and a gap in front; name and value are these. |
| `BashrcSettings.MigratedIff` | bin/migrate-owner-settings.py:310-315 | A line migrates exactly if it sets one of the names that migrate, with the value the literal parser makes of its text. |
| `BashrcSettings.ExportSets` | bin/migrate-owner-settings.py:76-78 | "export NAME=value" sets that name to that value. |
| `BashrcSettings.MarkersIff` | bin/migrate-owner-settings.py:291-303 | A block starts and ends at the lines that are the two markers, apart from gaps. |
| `BashrcSettings.CredentialIff` | bin/migrate-owner-settings.py:310-320 | The run stops outside a block exactly at settings of other names that look like credentials. |
| `BashrcSettings.SourcingIff` | bin/migrate-owner-settings.py:324-328 | What counts as sourcing the data file is decided on the line without its break, remarks aside. |
| `BashrcSettings.SkippableIff` | bin/migrate-owner-settings.py:267-278 | The other lines a block may hold are gaps and remarks. |
| `BashrcSettings.LegacyIff` | bin/migrate-owner-settings.py:84-88 | The old loader lines are the three literal ones, apart from gaps. |
| `BashrcMigration.ScanKeeps` | bin/migrate-owner-settings.py:291-325 | The state machine agrees with a reading of the markers by parity on what is kept, what is inside a block, and whether a block is open. |
| `BashrcMigration.ScanCollects` | bin/migrate-owner-settings.py:267-318 | Every removed setting, outside blocks or in a closed block other than the loader's, has its value among those collected, and nothing collected before is lost. |
| `BashrcMigration.MigrationKeepsLines` | bin/migrate-owner-settings.py:281-335 | The output minus the loader block is the input minus managed blocks, migrated settings and old loader lines, in order, with a final newline; the loader block stands where the first block or migrated setting was, or at the end. |
| `BashrcMigration.MigrateIsIdempotent` | bin/migrate-owner-settings.py:281-335 | A second run returns the same text and collects nothing, whatever was collected before. |
| `BashrcMigration.SecondBlockRaises` | bin/migrate-owner-settings.py:289-306 | After a block with the loader a further block raises exactly if it is not empty. |
| `BashrcReturns.MigrateIff` | bin/migrate-owner-settings.py:267-335 | A migration returns exactly if blocks alternate and are closed, nothing outside them looks like a credential or sources the data file, every block that is not the loader holds only literal settings, old loader lines, blank lines and remarks, settings outside blocks are literal, and no two values under one key differ; it has then collected exactly the values of these settings beside those from before. |
| `BashrcReturns.CollectIff` | bin/migrate-owner-settings.py:267-278 | Collecting a block's lines succeeds exactly if each may stand there and no two values differ, and gives exactly what was there and what they give. |
| `BoundedTee.WriteAll` | bin/lib/ci_bounded_tee.py:21-27 | For every pattern of short writes success means everything was written, and failure that some beginning was. |
| `BoundedTee.ReadPrefix` | bin/lib/ci_bounded_tee.py:50-100 | What is returned is the whole prefix file, within the maximum. |
| `BoundedTee.CopyInput` | bin/lib/ci_bounded_tee.py:139-156 | Log and stdout get the same first bytes of the input, as many as there is room for; the answer says whether all fitted, and at most one byte beyond is read. |
| `BoundedTee.Capture` | bin/lib/ci_bounded_tee.py:122-160 | The log is the prefix followed by the first min(n, limit - prefix) input bytes and never exceeds the limit, stdout gets those same bytes, true means all fitted; after a failure stdout holds no more than the log. Reliable descriptors, a valid limit and a prefix that fits never raise. |

## Left out

- Nested paths: file-system paths are flat keys. A symlink into a generation is a path of its own kind; an installed tree holds no link of its own; links whose own path is below another link, and parent directories, are not modelled.
- Durability: a failing `fsync` is a step that may fail; what a power cut would leave is not modelled.
- Interrupts that arrive between two statements are not modelled; every operation's failure is.
- Descriptor, ownership, inode, device and link-count checks of all programs.
- Process launching, git, pip, Docker, systemctl and the network: their results are inputs, or steps that may fail.
- Line breaks other than `\n`: text is split at `\n` only, so an environment value or crontab line with another Unicode line break is outside the model; the lemmas on adoption also ask for no carriage return in the crontab.
- Floating-point NaN among JSON numbers, which Python finds unequal to itself.
- Per-field validation of nested job objects, the slug and the digest of generated keys, the shell-literal parser, the searches for credential names and for lines that source the data file, and the loader's text are parameters. The digest is asked to tell the seeds of the jobs at hand apart only where identity rather than equality of snapshots is stated.
- `json.dumps` and the hash functions: record printing is an injective function, digests are functions of the bytes hashed.
- Pagination of `cron list`, and the separate `cron get` answers within one listing: what counts is the list that was put together.
- SnapshotOfSnapshot: makes the second call without a home; with the home that an export passes, `ExportIsFixpointIff` says when the list comes back.
- SwitchInstalls: takes the check of an installation to depend on the tree and the path it resolves to, while pip is also given the path before it is resolved.
- Environment files in the credential migration are modelled by what they say; `EnvOfText` and `EnvOfPayload` connect that with their text. The key lists are parameters, taken to be disjoint, as they are in the source.
- SecondRunIsQuiet: speaks of the credential files; of the migration of the send-email, Zotero, Calibre and Canvas configurations only whether it returns is modelled.
- The scrubbing of `.secrets.env` line by line: its assignments to declared keys are a value.
- `_migrate_profile` and the parser of the old settings file: the same loop as `_migrate_bashrc` without the loader.
- Lock, policy and report validators, readiness reports, timers, the wheelhouse and the Codex and OpenClaw configuration migrations: mostly per-field checks, or weaker repeats of the properties above.
