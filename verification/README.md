# Verified model of the package pipeline and its algorithms

The repository turns a producer database of legal documents into a numbered chain of signed packages, serves
them from a directory tree, and lets clients follow the chain.  This project models that pipeline, and the
self-contained algorithms beside it, in Dafny and proves what they are for.  `dafny verify dfyconfig.toml`
checks everything.

## How it is organised

**Publishing, with crashes.**  `Packages` has the entities, `RemoteManifest` the client-visible manifest and the
planner that reads it, and `CatchupPlans` where its plans take a client.  `PublishState` has the durable state of one corpus, the ten kinds of atomic write and the
invariant they keep; `PublishRuns` has whole runs, cut anywhere.  `Producers` is the durable store as a class
whose every write is logged; `Cycles` and `FirstBaselines` are the three entry points as sequences of such
writes, each computing a function of the state it starts from.  `CycleResults`, `CycleEnds`, `Guarantees`,
`RebaselineResults`, `BootstrapResults`, `UnfinishedBootstraps`, `PackageContents` and `Witnesses` prove what those functions achieve,
and where they fail, from every reachable state.  `Fence` is the outbox protocol that makes the change windows safe
under concurrent ingest, and `Arrivals` why the rest may take changes in the order of their numbers.

**Incremental diffs.**  `Replica` has the replicated tables with their foreign keys and the client's applier;
`Incremental` the builder; `ReplicaLaws`, `SortedKeys`, `Convergence` and `ConvergenceTheorem` lead to the
theorem; `OutboxWindows` states it of the recorded outbox rows, `AcceptedPackages` what holds of any accepted package; `Catchup` follows chains of packages and collects the windows that cannot be followed.  `JsonlFiles`
is the byte level: the hashing writer and the batched reader.

**Fetching.**  `FetchCursors` and `Fetch`.

**Algorithms.**  `Calendar`, `Ndcg` with `Pooling`, `Ranking` with `Bm25`, `Bm25Scores`, `Fusion` and `Evaluation`, `Phrase` with
`Expansion`, `SignTest`; `Wrappers` and `Powers` are shared helpers.

## What turned out not to hold

Each of these is stated with the exact condition under which the code does what its documentation says.

- A rebaseline that finds its predecessor served but unmarked deletes that row
  (`crates/jurisearch-package-build/src/cycle.rs:291-296`) and builds again under the same id; only the very same
  artifact goes through (`RebaselineGoesThrough`, `DiscardingServedExactly`).  With another payload it fails and leaves
  an unpublished head whose id serves other content, and from then on `producer_cycle` fails for ever
  (`DiscardingServedWedges`, `WedgedStaysWedged`).  With the same payload but another manifest, as a new creation time
  makes it, the head ends published but cannot be listed: every `producer_cycle` goes on publishing and fails at the
  manifest, until a rebaseline under the next id mends it (`UnlistableStays`, `NextRootMends`).
- `producer_cycle` and `rebaseline_cycle` do not look whether the first baseline is published, so a crash of the
  bootstrap lets them publish a successor over an unpublished one; exactly when is said by `ProducerOvertakesExactly`
  and `RebaselineOvertakesExactly`.  If the first baseline was served by then `producer_cycle` even succeeds
  (`ProducerSplitsOnServed`), and a rebaseline needs not even that (`RebaselineOverUnfinishedBootstrap`).  Bootstrap
  mends the state as long as clients see no manifest and no later media root is published; after that it refuses, and
  the first baseline stays unmarked for ever (`BootstrapMendsExactly`, `UnlessStuckItMends`, `StuckForEver`).  From the
  publication of the first baseline on none of this can happen (`NoSuccessorOnUnpublishedHead`).
- The two documented exceptions to convergence, edges and citations that shrink
  (`crates/jurisearch-package-build/src/incremental.rs:9-12`), leave a superset after the files, but the
  postconditions include those tables, so the client rejects the package (`PackageConverges`,
  `VanishedEdgeIsRejected`).
- A derived row that moves to a document sorting earlier makes the client's insert fail (`SetsConverge`,
  `MoveIsFollowed`).
- A document deleted and recreated within one window keeps its old zone units on the client unless a zone scope
  names it (`RecreatedKeepsZones`, `UnnamedZonesStay`).
- A fresh client that has loaded the active baseline is blocked when retention has dropped a package since that
  media root (`FreshClientReachesHead`).
- `dedupe_to_docs` lets one document through for a limit of zero or less (`DedupeToDocs`).

## Model

| member | source | states |
|---|---|---|
| Packages.WindowsTile | crates/jurisearch-package-build/src/incremental.rs:148-195 | on a chain of catalog rows a change number lies in some window exactly when it is at most the newest high-water mark, and never in two windows |
| Packages.WindowsGrow | crates/jurisearch-package-build/src/incremental.rs:361-363 | high-water marks never fall along the chain, and every later window starts at or above every earlier end |
| RemoteManifest.BuildInner | crates/jurisearch-package-build/src/remote_manifest.rs:85-205 | the scan for the media root, the collecting and draining of incrementals and the per-row checks compute `RemoteFor`, with the same error for the first thing that fails |
| RemoteManifest.Retain | crates/jurisearch-package-build/src/remote_manifest.rs:120-129 | collecting the incrementals after the media root and draining the oldest leaves the newest `retain` of them, in order |
| RemoteManifest.ReadAll | crates/jurisearch-package-build/src/remote_manifest.rs:131-153 | reading stops at the first artifact that is missing or is not the cataloged one; otherwise one entry per row |
| RemoteManifest.VerifyRemote | crates/jurisearch-package-build/src/verify.rs:65-112 | the loop over the artifacts decides whether every listed one exists with the listed signature and digest |
| RemoteManifest.EnsureGapFree | crates/jurisearch-package-build/src/remote_manifest.rs:302-315 | true exactly when every entry starts where the one before it ends |
| RemoteManifest.RetainedSuffix | crates/jurisearch-package-build/src/remote_manifest.rs:120-129 | on a chain the retained rows are the newest suffix after the newest media root |
| RemoteManifest.BuildsExactlyWhenListedMatch | crates/jurisearch-package-build/src/remote_manifest.rs:93-153 | a manifest can be built exactly when the newest media root and every retained incremental are served as the artifacts they were cataloged from |
| RemoteManifest.BuiltIsSound | crates/jurisearch-package-build/src/remote_manifest.rs:99-179 | a built manifest names existing artifacts with the content its entries were built from, describes the newest media row as the active baseline, lists gap-free links, and its head is the catalog head whenever an incremental may be retained |
| RemoteManifest.ReachesHead | crates/jurisearch-syncd/src/planner.rs:116-201 | the planner takes a client at any position of the retained window to the head in one package per step; below the window it sends it to the active baseline exactly if that is a rebaseline ahead of it, and ahead of the head it blocks it; the published range covers exactly the positions below |
| RemoteManifest.FreshClientReachesHead | crates/jurisearch-syncd/src/planner.rs:127-152 | a fresh client that has loaded the active baseline goes on to the head exactly when retention dropped nothing since that media root; otherwise it is blocked |
| CatchupPlans.InstalledClientCatchesUp | crates/jurisearch-syncd/src/planner.rs:116-259 | following plans, an installed client behind the head gets there exactly if all it misses is retained or the newest media row is a rebaseline ahead of it with nothing dropped since; two plans and one baseline suffice |
| PublishState.StepKeepsInv | crates/jurisearch-package-build/src/cycle.rs:143-209 | every atomic write that observes the discipline keeps: the chain, the windows seen, unpublished rows staged whole in their slot, slots current, served directories complete, the client-visible manifest coherent |
| PublishState.DiscardKeeps | crates/jurisearch-storage/src/package_catalog.rs:210-221 | deleting an unpublished rebaseline row keeps the chain, the tiling and everything else |
| PublishState.RenameKeeps | crates/jurisearch-package-build/src/publish.rs:62-81 | making a staged artifact visible keeps the invariant; the directory appears complete or not at all |
| PublishState.AnnounceKeeps | crates/jurisearch-package-build/src/publish.rs:96-110 | replacing the remote manifest keeps it coherent with what is served |
| PublishRuns.EveryCrashPoint | crates/jurisearch-package-build/src/cycle.rs:7-19 | the invariant holds wherever a crash cuts a run of legal writes |
| PublishRuns.RunsCompose | crates/jurisearch-package-build/src/cycle.rs:155-160 | a run cut anywhere and followed by another run is again a run, so recovery is covered by the same lemmas |
| PublishRuns.FetchedManifestStaysGood | crates/jurisearch-package-build/src/publish.rs:40-49 | a manifest fetched in any reachable state names, for ever after, existing complete artifacts with the content its entries were built from |
| PublishRuns.StepAppends | crates/jurisearch-package-build/src/cycle.rs:170-186 | once bootstrapped, only marking the newest row changes the published log, and it appends one package |
| PublishRuns.LogIsAppendOnly | crates/jurisearch-package-build/src/cycle.rs:7-19 | over any run the published log is only appended to |
| PublishRuns.ExactlyOnce | crates/jurisearch-package-build/src/cycle.rs:7-19 | every id occurs once in the published log and is served, then and ever after, with the one cataloged payload |
| PublishRuns.NoSuccessorOnUnpublishedHead | crates/jurisearch-package-build/src/cycle.rs:386-406 | once bootstrapped, a build finds every row published; at most the last row is unpublished, and then its complete artifact is in the slot |
| PublishRuns.EachChangeInOnePackage | crates/jurisearch-package-build/src/incremental.rs:178-195 | every change up to the newest high-water mark is in exactly one package, and once that is published stays in it |
| PublishRuns.OnlyDiscardAbandons | crates/jurisearch-package-build/src/cycle.rs:291-296 | a write leaves a served directory without its catalog row exactly when it deletes the row of an unpublished rebaseline that is already served |
| Producers.Producer.Sound | crates/jurisearch-package-build/src/cycle.rs:7-19 | every state of the store is reachable by legal writes; as long as no served package was discarded, each served directory is the artifact of its row |
| Producers.Producer.MarkPublished | crates/jurisearch-package-build/src/cycle.rs:411-430 | marking hits the row with the id and fails without one |
| Producers.Producer.InsertRow | crates/jurisearch-storage/src/package_catalog.rs:44-119 | a new id is appended; an id that is already cataloged is accepted only with the same identity columns, and then nothing changes |
| Producers.IdentityIsAll | crates/jurisearch-storage/src/package_catalog.rs:83-108 | rows seeded from manifests agree on the identity columns exactly if they are the same row up to its status |
| Producers.Producer.DeleteUnpublishedRow | crates/jurisearch-storage/src/package_catalog.rs:210-221 | deletes the row of the id only while it is unpublished |
| Producers.Producer.CleanDir | crates/jurisearch-package-build/src/cycle.rs:968-974 | entries disappear in any order; every intermediate state is covered unless an unpublished row needs the slot |
| Producers.Producer.CopyAside | crates/jurisearch-package-build/src/publish.rs:119-132 | the copy into the temporary directory, entry by entry in any order, never touches what is served |
| Producers.Producer.PublishPackage | crates/jurisearch-package-build/src/publish.rs:49-81 | an existing directory is compared and left alone, a new one appears by rename; content that differs is an error |
| Producers.Producer.StageArtifact | crates/jurisearch-package-build/src/incremental.rs:253-460 | payload files, possibly torn while written, then the embedded manifest: the slot ends with the whole artifact |
| Producers.Producer.RefreshRemote | crates/jurisearch-package-build/src/publish.rs:96-110 | the manifest built from the catalog and the served artifacts replaces the old one, or nothing changes |
| Cycles.ResumePending | crates/jurisearch-package-build/src/cycle.rs:386-406 | computes `ResumeStep` by legal writes only |
| Cycles.StageAndCatalog | crates/jurisearch-package-build/src/baseline.rs:264-509 | the shared builder: freezes the high-water mark, stages the artifact, catalogs it last, by legal writes only |
| Cycles.BuildIncremental | crates/jurisearch-package-build/src/incremental.rs:133-494 | computes `IncrementalStep`: no baseline, other stamps, an empty window, or one new link |
| Cycles.ProducerCycle | crates/jurisearch-package-build/src/cycle.rs:143-209 | computes `ProducerStep` by legal writes only, and abandons nothing |
| Cycles.RebaselineCycle | crates/jurisearch-package-build/src/cycle.rs:274-355 | computes `RebaselineStep` by legal writes only; it abandons a served directory only where it found a staged rebaseline that is served and unmarked |
| Cycles.StagedIsLast | crates/jurisearch-package-build/src/cycle.rs:386-400 | a staged manifest with a cataloged id is the newest row's, whole unless already served |
| Cycles.CanDiscard | crates/jurisearch-package-build/src/cycle.rs:291-296 | throwing away a staged rebaseline deletes its own row or none, and leaves the slot unneeded |
| CycleResults.ResumeOutcome | crates/jurisearch-package-build/src/cycle.rs:386-406 | resuming fails exactly when the newest id is served with another payload; otherwise the newest row ends published and nothing is left to resume |
| CycleResults.FinishOutcome | crates/jurisearch-package-build/src/cycle.rs:172-186 | publishing a fresh package fails exactly when its id is served with another payload; otherwise it ends as the published head |
| CycleResults.ProducerCycleExactly | crates/jurisearch-package-build/src/cycle.rs:143-209 | `producer_cycle` succeeds exactly when the starting state is servable for the run; then its final catalog, served directories, slot, manifest and report are the ones stated |
| CycleEnds.ProducerCatalog | crates/jurisearch-package-build/src/cycle.rs:143-209 | what `producer_cycle` leaves in the catalog and the served directories also when it fails, and that a failure leaves the manifest alone |
| Guarantees.UninterruptedRunFinishes | crates/jurisearch-package-build/src/cycle.rs:7-19 | from any reachable bootstrapped state that has abandoned nothing, one run publishes every row, empties the slot, brings the manifest head to the catalog head, and adds one package exactly when a change was due |
| Guarantees.RecoversFromEveryCrash | crates/jurisearch-package-build/src/cycle.rs:12-19 | the same after a crash at any write of any such run |
| Guarantees.SecondRunIsQuiet | crates/jurisearch-package-build/src/cycle.rs:153-186 | a second run without new ingest changes nothing |
| RebaselineResults.ClearOutcome | crates/jurisearch-package-build/src/cycle.rs:282-300 | the start of a rebaseline drops the unpublished rebaseline row or publishes the newest row, and fails only on content that differs |
| RebaselineResults.RebaselineCycleExactly | crates/jurisearch-package-build/src/cycle.rs:274-355 | `rebaseline_cycle` succeeds exactly when its id is free or already serves the very artifact it rebuilds; then the new media root is the published head and the only thing listed |
| RebaselineResults.RebaselineGoesThrough | crates/jurisearch-package-build/src/cycle.rs:251-255 | with nothing abandoned it fails only when it has to throw away a rebaseline that is already served and rebuilds it differently |
| RebaselineResults.DiscardingServedWedges | crates/jurisearch-package-build/src/cycle.rs:282-323 | when the served artifact has another payload it fails and leaves an unpublished head whose id serves other content |
| RebaselineResults.DiscardingServedExactly | crates/jurisearch-package-build/src/cycle.rs:282-323 | throwing away a served rebaseline wedges on another payload, ends published but unlistable with the next id free on the same payload under another manifest, and succeeds on the very same artifact |
| RebaselineResults.UnlistableStays | crates/jurisearch-package-build/src/cycle.rs:161-198 | with an unlistable media root every `producer_cycle` fails and leaves the client-visible manifest alone, though it may publish one more package, and the root stays unlistable |
| RebaselineResults.NextRootMends | crates/jurisearch-package-build/src/cycle.rs:302-342 | a rebaseline under the next id, if that is free, makes the new root the visible head, and the next `producer_cycle` can succeed |
| RebaselineResults.RebaselineCatalog | crates/jurisearch-package-build/src/cycle.rs:274-355 | the catalog that `rebaseline_cycle` leaves, and that a failure leaves the manifest alone |
| PackageContents.ProducerContents | crates/jurisearch-package-build/src/incremental.rs:363-486 | the appended incremental and its directory carry the run's payload, stamps and creation time, go on with the baseline and generation before it, link to the row before and cover the changes since; the report names it |
| PackageContents.QuietReport | crates/jurisearch-package-build/src/cycle.rs:953-965 | with nothing due nothing is appended, and the report gives the sequence and the high-water mark of the head |
| PackageContents.RebaselineContents | crates/jurisearch-package-build/src/baseline.rs:239-257 | the new media root and its directory carry the run's payload, stamps, baseline id and creation time, one generation on, and the report names it |
| RebaselineResults.WedgedStaysWedged | crates/jurisearch-package-build/src/publish.rs:56-69 | from there `producer_cycle` fails for every input and changes nothing |
| FirstBaselines.BootstrapFirstBaseline | crates/jurisearch-package-build/src/cycle.rs:531-608 | computes `BootstrapStep`, with the verification before the manifest is renamed and the readback after it, by legal writes only and without deleting a row |
| FirstBaselines.ResumeFirst | crates/jurisearch-package-build/src/cycle.rs:753-808 | computes `ResumeFirstStep`: artifact from the served directory or else the slot, bound to its row, marked |
| FirstBaselines.VerificationPasses | crates/jurisearch-package-build/src/cycle.rs:576-590 | over a catalog chain the verification and the readback never fail |
| BootstrapResults.BootstrapRecovers | crates/jurisearch-package-build/src/cycle.rs:627-698 | over an existing catalog no run rebuilds: it refuses, or finishes with the cataloged artifact, keeps all other rows, and succeeds exactly when what it must list is served |
| BootstrapResults.OnlyFirstIsCanonical | crates/jurisearch-package-build/src/cycle.rs:702-748 | the newest media row passes the check exactly when no later media root exists and row 1 has this run's baseline id and fingerprint; no later row is ever a baseline |
| BootstrapResults.BootstrapBuilds | crates/jurisearch-package-build/src/cycle.rs:640-679 | over an empty catalog it builds the first baseline exactly when the preflight passes, and clients then see it as head |
| PackageContents.BootstrapContents | crates/jurisearch-package-build/src/baseline.rs:152-166 | after a bootstrap over an empty catalog the one row and its directory carry the run's payload, stamps, baseline id and creation time, and the report names it |
| BootstrapResults.SecondBootstrapRefuses | crates/jurisearch-package-build/src/cycle.rs:684-694 | after success a second run with the same settings refuses and changes nothing |
| BootstrapResults.InterruptedBootstrapRecovers | crates/jurisearch-package-build/src/cycle.rs:531-608 | cut a bootstrap at any write: the same settings then build if nothing was cataloged, refuse, or finish with the cataloged artifact, and always succeed if the catalog was empty before and no manifest was visible yet |
| UnfinishedBootstraps.ProducerOvertakesExactly | crates/jurisearch-package-build/src/cycle.rs:155-186 | `producer_cycle` leaves a published successor over an unpublished first baseline exactly if one is there, one can be resumed, or a first one is due, has the same stamps and a free or equal id |
| UnfinishedBootstraps.RebaselineOvertakesExactly | crates/jurisearch-package-build/src/cycle.rs:282-323 | `rebaseline_cycle` does exactly if one is there, one can be resumed, or the id of the new root is free or serves its payload |
| UnfinishedBootstraps.ProducerSplitsOnServed | crates/jurisearch-package-build/src/cycle.rs:188-196 | while the first baseline is the media root `producer_cycle` succeeds only if it is served, marked or not; otherwise it fails at the manifest |
| UnfinishedBootstraps.CycleOverUnfinishedBootstrap | crates/jurisearch-package-build/src/cycle.rs:155-196 | over a first baseline that is cataloged but not marked, with a change due: the successor is published; the run fails if the baseline is not served, and otherwise succeeds as far as its own id allows |
| UnfinishedBootstraps.RebaselineOverUnfinishedBootstrap | crates/jurisearch-package-build/src/cycle.rs:302-342 | a rebaseline that goes through leaves the unpublished first baseline overtaken, and bootstrap refused for ever |
| UnfinishedBootstraps.BootstrapMendsExactly | crates/jurisearch-package-build/src/cycle.rs:684-697 | bootstrap marks the first baseline exactly if its settings agree, it is still the media root, and no manifest is visible |
| UnfinishedBootstraps.StuckIsRefused | crates/jurisearch-package-build/src/cycle.rs:684-694 | once a manifest is visible or a later root is published over it, bootstrap refuses and changes nothing |
| UnfinishedBootstraps.UnlessStuckItMends | crates/jurisearch-package-build/src/cycle.rs:684-697 | in every other state it can be mended, at once or when an unfinished rebaseline has been thrown away |
| UnfinishedBootstraps.ProducerSticksExactly | crates/jurisearch-package-build/src/cycle.rs:153-196 | `producer_cycle` leads to a stuck state exactly if it succeeds or resumes a rebaseline |
| UnfinishedBootstraps.RebaselineSticksExactly | crates/jurisearch-package-build/src/cycle.rs:282-323 | `rebaseline_cycle` does exactly if it publishes its package |
| UnfinishedBootstraps.StuckForEver | crates/jurisearch-package-build/src/cycle.rs:684-694 | over any calls of the three entry points, with any settings and cut anywhere, a stuck state stays stuck and the first baseline unmarked |
| Witnesses.UnmarkedRebaselineOccurs | crates/jurisearch-package-build/src/cycle.rs:319-322 | a served and unmarked rebaseline is reachable |
| Witnesses.UnfinishedBootstrapOccurs | crates/jurisearch-package-build/src/cycle.rs:646-654 | a first baseline that is cataloged but not served, with a due change, is reachable |
| Witnesses.UnmarkedBootstrapOccurs | crates/jurisearch-package-build/src/cycle.rs:654-663 | a first baseline that is served but not marked, with a due change, is reachable, and the next `producer_cycle` succeeds over it and leaves it stuck |
| Fence.StepKeepsInv | crates/jurisearch-storage/src/outbox.rs:33-66 | with the fence every step keeps: nothing still open is numbered at or below what a build has frozen or shipped |
| Fence.EachEventShippedOnce | crates/jurisearch-package-build/src/incremental.rs:110-128 | after any run the packages together hold exactly the committed events of the corpus up to the newest high-water mark, each in one package |
| Fence.FrozenSnapshotIsComplete | crates/jurisearch-package-build/src/incremental.rs:178-191 | after the fence is released no event at or below the frozen number can become visible outside the snapshot, however late the scopes are read |
| Fence.WindowsAreSettled | crates/jurisearch-package-build/src/baseline.rs:282-301 | later runs never add to what lies at or below a shipped high-water mark |
| Fence.UnguardedBuildLosesAnEvent | crates/jurisearch-storage/src/outbox.rs:143-160 | without waiting for open writers a committed event can be lost for ever |
| Arrivals.FenceRefinesIngest | crates/jurisearch-package-build/src/incremental.rs:110-128 | however writers and fenced builds interleave, what the builds settle is a run of arrivals in the order of change numbers, as the publish protocol takes them |
| Incremental.Coalesce | crates/jurisearch-package-build/src/incremental.rs:201-251 | the coalescing loop yields the touched keys of every table, and an unknown table is an error |
| Incremental.OrderDoesNotMatter | crates/jurisearch-package-build/src/incremental.rs:201-251 | what is built depends only on which scopes occur, not on order or repetition |
| Incremental.Build | crates/jurisearch-package-build/src/incremental.rs:197-346 | the streaming loops materialise the package of the merged scopes |
| OutboxWindows.CoalescingRoutes | crates/jurisearch-package-build/src/incremental.rs:201-251 | a key is touched in each of the nine ways exactly if the outbox has a row of the table, or one of the two tables, that asks for it |
| OutboxWindows.BuildWindow | crates/jurisearch-package-build/src/incremental.rs:6-8 | if the outbox recorded every row that differs, the client accepts what is built exactly if no derived row moved to an earlier document and no edge or citation merely vanished, and then holds the producer's tables; only an unknown table makes the build fail |
| AcceptedPackages.AcceptedIsConsistent | crates/jurisearch-syncd/src/apply.rs:1069-1096 | whatever package a client with consistent tables accepts, it then holds exactly what the postconditions say, with every foreign key met |
| AcceptedPackages.UpsertFailsExactly | crates/jurisearch-storage/src/incremental.rs:111-165 | a file of upserts fails exactly on a row that does not meet its foreign keys |
| AcceptedPackages.ResponsesCascade | crates/jurisearch-storage/src/migrations.rs:673-705 | deleting archived responses takes exactly their citations along and clears exactly the references of resolutions |
| Incremental.ReadBase | crates/jurisearch-package-build/src/incremental.rs:264-289 | one key at a time: an existing row is an upsert, a vanished one a delete |
| Incremental.ReadChunkSets | crates/jurisearch-package-build/src/incremental.rs:319-346 | whole chunk sets for touched documents that still exist, embeddings alone for the rest |
| ReplicaLaws.DeleteDocumentsCascades | crates/jurisearch-storage/src/incremental.rs:171-201 | deleting documents one by one is one cascade over all of them |
| ReplicaLaws.CascadeIsSmallest | crates/jurisearch-storage/src/migrations.rs:69-93 | the cascade leaves a consistent database, and the largest one without the deleted documents |
| ReplicaLaws.UpsertCheckedOverlays | crates/jurisearch-storage/src/incremental.rs:111-165 | upserting rows that meet their foreign keys never fails and overlays exactly those rows |
| ReplicaLaws.ReplaceAllExactly | crates/jurisearch-storage/src/incremental.rs:258-297 | a series of replace-sets fails exactly when a row is taken while another document still holds its key; otherwise it takes all rows of those documents |
| Convergence.BaseConverges | crates/jurisearch-syncd/src/apply.rs:1141-1175 | after documents and responses the client has the new ones, and of the rest exactly what survives the deletions |
| Convergence.LinksConverge | crates/jurisearch-syncd/src/apply.rs:1141-1175 | roots and resolutions become the new ones; edges and citations gain the new ones and keep the old |
| ConvergenceTheorem.SetsConverge | crates/jurisearch-syncd/src/apply.rs:1176-1202 | in key order replace-sets fail exactly on a row that moved to a document sorting earlier |
| ConvergenceTheorem.FilesConverge | crates/jurisearch-package-build/src/incremental.rs:197-346 | for a window that names what changed, the files turn `lo` into `hi` on every table but edges and citations, where the survivors stay as well; they fail exactly on such a move |
| ConvergenceTheorem.PackageConverges | crates/jurisearch-syncd/src/apply.rs:1069-1096 | the client accepts exactly when there is no such move and no edge or citation merely vanished, and then holds exactly the producer's tables |
| ConvergenceTheorem.PlainCoverageSuffices | crates/jurisearch-package-build/src/incremental.rs:6-8 | naming the scope of every row that differs outright implies the coverage used |
| Catchup.ChainConverges | crates/jurisearch-syncd/src/apply.rs:864-1105 | a client follows a whole chain of packages exactly when every window can be followed, and then holds the newest snapshot |
| Catchup.UnnamedZonesStay | crates/jurisearch-package-build/src/incremental.rs:233-235 | the client takes the zone units of the documents that a zone scope names and keeps what it has of every other; it accepts exactly if those are the producer's already, beside the other conditions |
| Catchup.RecreatedKeepsZones | crates/jurisearch-package-build/src/incremental.rs:233-235 | a document that exists at both ends of the window keeps its zone units through the deletions |
| Catchup.VanishedEdgeIsRejected | crates/jurisearch-storage/src/outbox.rs:496-502 | an edge that vanishes with its documents in place is covered, kept by the files, and rejected by the postconditions |
| Catchup.MoveIsFollowed | crates/jurisearch-storage/src/incremental.rs:258-297 | a chunk that moves between two documents is followed exactly when it moves towards the later key |
| JsonlFiles.JsonlOpWriter.WriteRow | crates/jurisearch-package-build/src/incremental.rs:694-700 | the file and the hasher receive the same bytes even on a failed write; on success one more line |
| JsonlFiles.JsonlOpWriter.Finish | crates/jurisearch-package-build/src/incremental.rs:706-738 | an operation without rows records nothing; otherwise name, digest of exactly the bytes, and row count |
| JsonlFiles.StreamingEqualsJoining | crates/jurisearch-package-build/src/incremental.rs:640-645 | the streamed bytes are the lines joined and ended by a line feed |
| JsonlFiles.FileNamesDiffer | crates/jurisearch-package/src/artifact.rs:47-52 | two operations share a file name only if they are the same |
| JsonlFiles.FileNamesAre | crates/jurisearch-package/src/artifact.rs:47-52 | the suffixes of the three operations |
| JsonlFiles.DigestsMatchFiles | crates/jurisearch-package-build/src/incremental.rs:260-346 | over a build the digests are one to one with the listed files |
| JsonlFiles.FilesAreJobs | crates/jurisearch-package-build/src/incremental.rs:649-655 | exactly the operations that had rows have a file, with their rows in it |
| JsonlFiles.RoundTrip | crates/jurisearch-syncd/src/apply.rs:1223-1257 | reading a written file line by line gives the rows back |
| JsonlFiles.LineEnds | crates/jurisearch-syncd/src/apply.rs:1233-1239 | a carriage return is dropped before a line feed and kept at the end of an unterminated line |
| JsonlFiles.RecordsAre | crates/jurisearch-syncd/src/apply.rs:1240-1244 | the records are the lines that are not blank, each as often as it stands there |
| JsonlFiles.StreamBatched | crates/jurisearch-syncd/src/apply.rs:1233-1257 | the batches concatenate to the records, are full except the last, and are counted right |
| FetchCursors.FetchCursor.Record | crates/jurisearch-fetch/src/cursor.rs:132-153 | the entry is recorded and the named baseline stays a recorded one of greatest timestamp |
| FetchCursors.RecordKeeps | crates/jurisearch-fetch/src/cursor.rs:132-153 | recording keeps the newest baseline named, replaces it only by a newer one, and removes no entry |
| Fetch.Fetcher.Plan | crates/jurisearch-fetch/src/engine.rs:116-138 | plans each listed archive that the saved cursor lacks as often as it is listed, in the order of the listing, and nothing else |
| Fetch.Fetcher.FetchOne | crates/jurisearch-fetch/src/engine.rs:191-234 | the mirror and the cursor change only after integrity and rename, a corrupt download is set aside, and every intermediate disk state is sound |
| Fetch.Fetcher.Run | crates/jurisearch-fetch/src/engine.rs:145-189 | at every point a saved entry has a good mirror file with its digest and size; the cursor saved is the one after the processed prefix, even when a hard error ends the run; if the run succeeds and every download was good, everything listed is saved |
| Fetch.NothingLeft | crates/jurisearch-fetch/src/engine.rs:124-130 | a plan is empty exactly when everything listed is recorded |
| Fetch.ExactlyTheGoodOnes | crates/jurisearch-fetch/src/engine.rs:159-176 | the entries are the old ones and the good downloads of the processed prefix, each with its last good bytes; none is removed |
| Calendar.CountsBack | crates/jurisearch-cli/src/date.rs:51-64 | every day number gives a real date that is as many days from 1970-01-01, counted year by year and month by month |
| Calendar.FindsAgain | crates/jurisearch-cli/src/date.rs:51-64 | every real date is found again from its day number |
| Calendar.Advances | crates/jurisearch-cli/src/date.rs:51-64 | the date of the next day number is the calendar successor |
| Calendar.AcceptsExactlyPrintedDates | crates/jurisearch-cli/src/date.rs:6-22 | a text is accepted exactly when it is the printed form of a real date of the years 0 to 9999 |
| Calendar.PrintsSpelled | crates/jurisearch-cli/src/date.rs:45-49 | what is printed gives year, month and day, in this order, as numbers of four, two and two digits |
| Calendar.ParsesWhatIsSpelled | crates/jurisearch-cli/src/date.rs:6-22 | a text is read as a date exactly if it gives its year, month and day so |
| Calendar.TodayIsValid | crates/jurisearch-cli/src/date.rs:45-49 | what is printed for any clock reading before the year 10000 is accepted and reads back as that day |
| Calendar.FourDigitsSuffice | crates/jurisearch-cli/src/date.rs:45-64 | the day numbers whose year fits the four digits printed are exactly those from -719528 to 2932896 |
| Calendar.YearIsFound | crates/jurisearch-cli/src/date.rs:55-56 | the year formula finds the year of the era that the day lies in |
| Ndcg.Rearrangement | external-benchmarks/conceptual-embedding-eval/score.py:35-42 | labels drawn from the pool gain, in any order, no more than the best ones in descending order |
| Ndcg.PrefixesDecide | external-benchmarks/conceptual-embedding-eval/score.py:35-36 | larger sums of every prefix give a larger discounted sum |
| Ndcg.NdcgBounds | external-benchmarks/conceptual-embedding-eval/score.py:39-42 | the measure lies in [0, 1] and is 0 exactly when nothing among the first k is relevant |
| Ndcg.NdcgIs | external-benchmarks/conceptual-embedding-eval/score.py:39-42 | the measure times the ideal gain is the gain, and it is 1 exactly when the gain is the ideal one, as the best labels in descending order have it |
| Ndcg.GainIs | external-benchmarks/conceptual-embedding-eval/score.py:36 | labels 0, 1 and 2 gain 0, 1 and 3, and each further one twice as much and one |
| Ndcg.DcgJoins | external-benchmarks/conceptual-embedding-eval/score.py:35-36 | one label gains by its own discount, and a list behind another gains what it would alone under the later discounts |
| Pooling.DedupeToDocs | external-benchmarks/conceptual-embedding-eval/run_retrieval.py:86-102 | the first distinct non-empty ids, at least one even for a limit below one |
| Pooling.UniqueInOrder | external-benchmarks/conceptual-embedding-eval/run_retrieval.py:86-102 | distinct ids stand in the order in which they first occur |
| Pooling.BuildPool | external-benchmarks/conceptual-embedding-eval/run_retrieval.py:124-143 | the pool is the distinct union of the three runs |
| Pooling.EveryRetrieverBounded | external-benchmarks/conceptual-embedding-eval/score.py:98-111 | for any candidates and labels every retriever's measure lies in [0, 1] |
| Ranking.OneOrder | external-benchmarks/bsard_benchmark.py:144-145 | the same scored entries have only one sorted order |
| Ranking.RankItems | external-benchmarks/bsard_benchmark.py:144-145 | the ranking does not depend on the order in which scores were inserted |
| Ranking.EarlierComesFirst | external-benchmarks/bsard_benchmark.py:144-145 | the higher score stands first, on equal scores the smaller id, and no limit keeps only the other |
| Bm25.BM25Index.constructor | external-benchmarks/bsard_benchmark.py:111-130 | for any corpus and parameters in range the index holds every term's postings, the lengths, their average and the term weights |
| Bm25.BM25Index.Rank | external-benchmarks/bsard_benchmark.py:132-145 | ranking through postings is scoring every document that shares a term directly and sorting; nothing is divided by zero |
| Bm25Scores.TermScores | external-benchmarks/bsard_benchmark.py:138-143 | the score of a term satisfies `s * (f * avg + k1 * ((1 - b) * avg + b * len)) == idf * f * (k1 + 1) * avg`, with the term's count in the document and the number of documents that have it |
| Bm25Scores.AverageIs | external-benchmarks/bsard_benchmark.py:125 | the average length times the number of documents is the number of all terms |
| Bm25Scores.FrequencyDecides | external-benchmarks/bsard_benchmark.py:138-143 | at equal length more occurrences score more |
| Bm25Scores.LengthDecides | external-benchmarks/bsard_benchmark.py:138-143 | at equal frequency the shorter document scores more |
| Bm25Scores.Saturates | external-benchmarks/bsard_benchmark.py:138-143 | a score is positive and stays below `idf * (k1 + 1)` |
| Bm25Scores.WeightsScale | external-benchmarks/bsard_benchmark.py:127-143 | at equal length and frequency scores are as the term weights |
| Bm25Scores.ScoresAddUp | external-benchmarks/bsard_benchmark.py:134-143 | scores add up over the terms of the query, repeats included |
| Bm25Scores.BetterStandsFirst | external-benchmarks/bsard_benchmark.py:144-145 | the document with the larger score stands first, on equal scores the one with the smaller id |
| Bm25Scores.OneTermRanks | external-benchmarks/bsard_benchmark.py:132-145 | a query of one term ranks more often before less often and shorter before longer |
| Bm25Scores.RareBeforeCommon | external-benchmarks/bsard_benchmark.py:127-145 | for a query of two terms the document with the rarer one comes before one that has the commoner one as often |
| Bm25.OneTermMore | external-benchmarks/bsard_benchmark.py:134-143 | one more query term changes posting scores and direct scores alike, also when it repeats |
| Bm25.LengthPositive | external-benchmarks/bsard_benchmark.py:125-141 | a corpus with a term in it has a positive average length |
| Fusion.HybridRanking | external-benchmarks/bsard_benchmark.py:353-369 | the fused ranking sorts the summed reciprocal ranks |
| Fusion.FusedIs | external-benchmarks/bsard_benchmark.py:362-367 | a document is scored exactly when it is in a list, with the sum of its shares |
| Fusion.Dominance | external-benchmarks/bsard_benchmark.py:353-369 | a document ranked above another wherever that one is ranked stands before it, and no limit keeps only the other |
| Evaluation.EvaluateRankings | external-benchmarks/bsard_benchmark.py:372-406 | the loop over the questions computes the four averages over their scores and the first 25 misses |
| Evaluation.ScoreIsWell | external-benchmarks/bsard_benchmark.py:378-387 | for a ranking without repeats: all measures in [0, 1] and zero together; recall is 1 exactly when all that is relevant was retrieved, reciprocal rank when the first document is relevant, nDCG when as many of the first documents as possible are |
| Evaluation.HitsGain | external-benchmarks/bsard_benchmark.py:409-416 | a ranking gains at most what its hits would gain in the first places, and as much only if they are there |
| Evaluation.EvaluationBounds | external-benchmarks/bsard_benchmark.py:398-406 | all averages lie in [0, 1] and none exceeds success; nDCG is 1 exactly when every question is ranked perfectly, and no miss is reported exactly when every question succeeds |
| Evaluation.MeasuresAre | external-benchmarks/bsard_benchmark.py:378-387 | recall, reciprocal rank and nDCG of a question, each by the equation that it solves |
| Evaluation.SummaryIs | external-benchmarks/bsard_benchmark.py:398-406 | each measure is averaged under its own name, and the misses are the first 25 questions without a relevant document among the first `k`, in order |
| Evaluation.RepeatsOverrun | external-benchmarks/bsard_benchmark.py:386-387 | a relevant document listed twice would score more than the ideal |
| Evaluation.FusedOnce | external-benchmarks/bsard_benchmark.py:353-369 | a fused ranking never lists a document twice |
| Phrase.NormalizeForMatch | crates/jurisearch-core/src/expand.rs:165-194 | the loop with its flag computes the normal form |
| Phrase.OneCharacter | crates/jurisearch-core/src/expand.rs:168-187 | what each character becomes: accents go, ligatures come apart, capitals are lowered, and what is neither letter nor digit vanishes |
| Phrase.SeparatorsSeparate | crates/jurisearch-core/src/expand.rs:165-194 | texts around a separator have their normal forms put together with one space, and a separator at an end leaves no trace |
| Phrase.LettersJoin | crates/jurisearch-core/src/expand.rs:165-194 | texts that meet in letters or digits have their normal forms put together without a space |
| Phrase.Idempotent | crates/jurisearch-core/src/expand.rs:165-194 | normal forms are single-spaced words, and normalising twice changes nothing |
| Phrase.PhraseIsRun | crates/jurisearch-core/src/expand.rs:159-163 | padded substring search holds exactly when the words of the term are a contiguous run of the query's words |
| Phrase.EmptyPhrase | crates/jurisearch-core/src/expand.rs:159-163 | the empty term is found only in the empty query |
| Expansion.ExpandQuery | crates/jurisearch-core/src/expand.rs:110-152 | for any seed table: distinct normal forms, each from a matching seed and not said by the query, nothing forgotten, in seed order |
| Expansion.MatchedAre | crates/jurisearch-core/src/expand.rs:113-122 | a seed is matched on exactly those of its terms that the query mentions |
| Expansion.OfferedTermsAreNew | crates/jurisearch-core/src/expand.rs:126-134 | no offered term is a run of the query's words, and each was matched on one |
| SignTest.IsProbability | local-embed-tests/eval.py:91-99 | the p-value is the share of outcomes at least as uneven as the one observed |
| SignTest.SignTestLaws | local-embed-tests/eval.py:91-99 | it is symmetric, in (0, 1], and 1 exactly when the counts differ by at most one |
| SignTest.RowSum | local-embed-tests/eval.py:97-98 | the binomials of a row add up to the power of two |
| SignTest.ChooseIsQuotient | local-embed-tests/eval.py:97 | the binomial by Pascal's rule is the quotient of factorials |

## Left out

- Digests and signatures: a digest is identified with what it is computed over and a signature with the manifest it seals, so collisions and forgeries are not modelled.
- The staged embedded manifest is written in one step; a torn one makes every later read of the slot fail.
- Concurrent producers on one corpus, and the build lock: one producer process is assumed.
- Other corpora: tables, catalog, slots and served tree are those of one corpus; the outbox numbers are shared.
- The `failed` status and manual edits of the catalog; unique constraints other than primary keys and package ids.
- Manifest fields that take part in no property: publisher, estimates, tiers, extensions, sizes, URIs, enrichment outcome.
- The bootstrap preflight over the database is an input that says yes or no. One URI base and one key are assumed, so a manifest does not stop verifying because either was changed.
- Bm25.BM25Index.constructor: does not model parameters outside `k1 >= 0` and `0 <= b <= 1`, for which a denominator can be zero.
- The planner's version and schema gates and its size-ratio preference for a baseline: the client modelled meets the gates and prefers none.
- PublishRuns.FetchedManifestStaysGood: does not model pruning of old packages, which the repository leaves to operators.
- SQL text, sessions and `COPY` streams: tables are maps and a row's remaining columns are one value. Volatile timestamp columns count as content here.
- Media packages: only their place in the chain and the fence, not the loading of a generation on the client.
- Edges start at a document, as every writer of the repository makes them (`crates/jurisearch-ingest/src/legi/canonical.rs:94`); the column would allow none.
- Keys are ranks: text keys enter only through their order.
- JSON rendering and real hashing: a row is its rendered line, free of line feeds; trimming knows the blanks of ASCII only.
- The fetch model takes the parsed and sorted listing as input; cursor files that are malformed or of another source, retries, and the check of the archive itself (a predicate on the bytes) are inputs or absent.
- Calendar.CountsBack: does not model 64-bit overflow, which needs a day number within 719468 of the largest one.
- Lower-casing outside ASCII is a parameter of which only the absence of ASCII capitals is assumed.
- Floating-point rounding: scores are reals; the logarithmic discount and the term weight are abstract functions.
- `dense_rankings`, whose order of ties at the cut is unspecified; the per-question report, precision counts and bootstrap intervals of the evaluations.
- Negative limits, which Python reads as counting from the end.
- Command-line parsing, HTTP, embedding, sessions, serving, dashboards, configuration: no property here depends on them.
