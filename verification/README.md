# SSC Init: a verified model of its core

SSC Init is a supply-chain scanner for a developer's machine. It hashes file trees into evidence, installs
signed intelligence bundles and its own core, quarantines files, compares inventories, and exports audit
records. This project models the parts of it where a guarantee spans several functions and proves those
guarantees, for all inputs and all runs.

How the repository's parts are modelled:

- **Tree hashing.** `EvidenceTree` defines trees, limits, the manifest a completed hash stands for, and the walk as a
  function of a tree that does not change. `TreeWalker` is the walker itself, a class updated across recursion,
  over an environment whose every answer is arbitrary unless it is declared still. `TreeHash` joins it to the
  leaf cache of `ContentCache`, over whole histories, and `TreeCache` says what a scan adds to the cache. `TreeDefects`
  says what is reported of a tree with defects, and `TreeDecoder` reads a tree back from the hashed bytes.
- **Evidence engine.** `EvidenceRecord` holds the engine's record contract and, separately, the store's.
  `EvidenceEngine` is acceptance, collection and accounting, `Issuer` the one-shot seal, and `Callbacks` the slots of
  detached callbacks as a state machine over every interleaving.
- **Crash-stepped protocols.** `CrashSteps` is a directory whose operations may fail or stop the process at any atomic
  effect. `Bundle` and `BundleManager` are bundle install, rollback, status and update on it; `CoreInstall` and
  `CoreInstaller` the core's stage, activate, rollback and prune. `Quarantine` and `QuarantineManager` do the same for
  files, their managed copies and the stored records.
- **Inventory and audit.** `Inventory`, `InventoryBuild`, `Ladder`, `LadderFacts` and `LadderBuilder` are the graph, its
  difference and the severity ladder; `Redaction`, `RedactedGraph` and `ValidRecord` the validation and export of audit
  records; `Retention` their pruning.
- **Scanners.** `Json` and `JsonWalkers` are the recursive token walkers, `Masker` and `Egress` the analyzer's text scans.
- `Framing`, `Observation`, `Ordering` and `Sorting` hold length-prefixed framing, the observation tuple, byte order and
  sorting.

Wherever the repository works step by step, a method with the same steps is proved equal to a function of its
inputs or its old state, and the results below are about that function and about runs of it.

Where the code does less than one might expect of it, the model follows the code, and a lemma says exactly when
the expectation holds:

- An unreadable high-water file skips the sequence check. The install that follows lowers the mark when its bundle is
  older (`Bundle.UnreadHighWaterAdmitsOlder`), and replaces the accepted bundle when it is other content under the mark's
  own sequence (`Bundle.UnreadHighWaterReplacesAccepted`). An install is safe exactly for a bundle above the mark or the
  content already in place under it (`Bundle.InstallIsSafeIffAcceptable`), and a run exactly when each of its
  installs is (`Bundle.RunIsSoundIffRespectful`).
- Reinstalling the active sequence has a window between removal and rename in which no bundle is active
  (`Bundle.UnfinishedInstallKeepsActive`). `Update` returns early on an equal
  sequence, but only when it could read the local status: otherwise it reinstalls the active sequence through that
  window (`BundleManager.UnreadStatusReinstalls`, `BundleManager.UpdateKeepsActiveIff`).
- Staging a version that a pointer names has the same window (`CoreInstall.StageIsSafeIffUnpointed`).
- A prune that cannot read the previous pointer removes the rollback target (`CoreInstall.PruneIsSafeIffPreviousRead`).
  These two are the only ways in which a run of the installer can become unsound (`CoreInstall.RunsAreSafe`).
- Activation ignores an unreadable current pointer and a failed write of the previous one, so the outgoing version
  may not become the rollback target (`CoreInstaller.OutgoingIsTargetIff`).
- A retention prune that is cut short has removed newer archives and kept older ones, because it deletes in listing
  order (`Retention.CutShortKeepsOlder`).
- The store's comment speaks of rows unused for the retention window (`internal/store/content_cache.go:57`), but a hit
  writes nothing, so a row goes that long after it was last hashed, however often it is hit
  (`TreeCache.HeldIsKeptIff`, `TreeHash.RepeatScan`).
- An error limit of zero or less makes a scan oversize without reporting any error, unless its deadline has passed
  (`TreeHash.HashTree`). The engine
  never passes such a limit.
- Lengths are written as 32-bit values, so two observations with a field of 2^32 bytes can share a tuple
  (`Observation.TruncationCollides`).

Every call on a file system may fail, and the process may stop after any effect. A directory declared `reliable` does
neither: with one, the lifecycle operations also state when they must succeed. The tree hasher's environment
remembers whether a call failed, and a complete report means that none did; one declared `caching` can look every
file up in the cache, and says what a scan then adds to it.

Parameters stand for what the model does not look into: SHA-256 of a leaf and of a path, Ed25519 verification and the
parsing of a bundle, canonical JSON forms, the patterns of the privacy checks, the catalogue of versioned asset
types, export tokens. Digests used as identities (cache keys, observation IDs, seals) are values that are equal
exactly when their inputs are. The domain prefix of the tree stream and of the observation tuple is a parameter too.

## Model

| member | source | states |
|---|---|---|
| EvidenceTree.HashTreeIsExact | internal/evidence/tree.go:151-339 | On a still tree the walk ends complete if and only if the tree is a directory within every limit (no symlink, special file or bad name, depth, file size, total bytes, entries); the bytes hashed are then the recursive manifest, and the counts are the tree's own |
| EvidenceTree.WalkIsExact | internal/evidence/tree.go:151-196 | From any state with no error so far, walking a directory marks an error exactly when the subtree is unacceptable or does not fit what is left of the budget, and otherwise appends the subtree's manifest and adds its totals |
| EvidenceTree.ListIsExact | internal/evidence/tree.go:181-195 | The same for a list of entries still pending, entry by entry |
| EvidenceTree.EntryIsExact | internal/evidence/tree.go:228-339 | The same for one entry of any kind |
| EvidenceTree.MarkedWalkStaysMarked | internal/evidence/tree.go:151-196 | No later step of a walk removes an error |
| TreeWalker.TreeState.WalkDirectory | internal/evidence/tree.go:151-196 | Whatever reads fail and whenever the deadline passes, the budget invariant holds and pending entries are given back; on a still tree the state is exactly the specified walk, in any order and chunking of names |
| TreeWalker.TreeState.EnterDirectory | internal/evidence/tree.go:160-195 | A directory that was opened is counted unless it is the target, recorded, and listed |
| TreeWalker.TreeState.WalkOpened | internal/evidence/tree.go:163-195 | The listing, sorting, counting and descent of one opened directory refine the walk of its listing |
| TreeWalker.TreeState.WalkEntries | internal/evidence/tree.go:181-195 | The loop over sorted names refines the walk of the entries, with the stop and deadline checks between them |
| TreeWalker.TreeState.WalkNext | internal/evidence/tree.go:183-194 | One turn of that loop leaves the walk of the rest, and the cache writes owed for it |
| TreeWalker.TreeState.TakeEntry | internal/evidence/tree.go:183-187 | One pending entry is taken, or the walk stops before it; the rest of the walk is unchanged by the step |
| TreeWalker.TreeState.WalkName | internal/evidence/tree.go:187-194 | One name: an invalid name is an error, a valid one is counted once and digested |
| TreeWalker.TreeState.ReadDirectory | internal/evidence/tree.go:198-226 | The read loop ends; a listing larger than the entries left stops with the file limit, any other is returned whole, in whatever chunks it came |
| TreeWalker.TreeState.DigestEntry | internal/evidence/tree.go:228-339 | Every kind of entry refines the specified entry walk, the recursion ends by depth, and the entry limit is never exceeded here |
| TreeWalker.TreeState.DigestDirectory | internal/evidence/tree.go:256-270 | A subdirectory within depth is opened, written and walked one level down; a deeper one is a depth error |
| TreeWalker.TreeState.DigestSymlink | internal/evidence/tree.go:240-255 | A symlink is counted, rejected and never followed |
| TreeWalker.TreeState.DigestFile | internal/evidence/tree.go:276-338 | A file over either byte limit stops the walk; any other adds its size and its record, the same with and without a cache, and where the cache works a write exactly when the table does not hold it |
| TreeWalker.TreeState.AcceptLeaf | internal/evidence/tree.go:317-338 | The total never passes the byte limit; bytes of another file than the one named are an identity error; otherwise the record is the file's, and a write is noted exactly when it was newly hashed |
| TreeWalker.TreeState.ObtainLeaf | internal/evidence/tree.go:290-316 | A digest taken from the cache or by hashing is the digest of the content its fingerprint stands for, and where the cache works a leaf is hashed exactly when the table does not hold it; without a digest there is an error |
| TreeWalker.TreeState.HashLeaf | internal/evidence/tree.go:296-316 | A leaf is hashed, or the reason why not is reported: a byte limit exactly when the hasher says so, the deadline first of all |
| TreeWalker.TreeState.CachedLeaf | internal/evidence/tree.go:343-399 | A hit carries exactly the digest and size of the leaf named by the key, from a row the table holds, and where the cache works every such row is a hit; anything else that was looked up is a miss or a rejection |
| TreeWalker.TreeState.RecordWrite | internal/evidence/tree.go:325-331 | One cache write is appended, under the key of the leaf that was hashed, and it is true |
| TreeWalker.TreeState.AddErrorCode | internal/evidence/tree.go:482-498 | At the error limit the scan turns oversize and stops; after a stop no error is added |
| TreeWalker.TreeState.MarkTimeLimit | internal/evidence/tree.go:466-480 | The time limit is recorded even when the error list is full, in its last place |
| TreeWalker.TreeState.WriteRecord | internal/evidence/tree.go:521-532 | A record is hashed behind its own length |
| TreeWalker.Environment.ReadDir | internal/evidence/tree.go:198-226 | A read hands out at most the number asked for, in any order, each name once |
| TreeHash.HashTree | internal/evidence/tree.go:91-131 | For any I/O failures and any expiry: size and counts within limits; errors within their limit and empty exactly when the status is complete; oversize exactly when a limit is reported or the list of errors is full, otherwise partial with any error; the time limit reported after expiry; unusable limits never complete, nor does a scan in which any call on the file system failed; cache writes all true, none after expiry or without a complete target and a cache; on a still tree the report is a function of the tree alone, and where the cache works a complete scan adds exactly the leaves the table does not hold |
| TreeHash.DefectiveScan | internal/evidence/tree.go:91-131 | A scan of a directory in which nothing exceeds a limit reports each of its defects, bad names, symlinks and special files, in listing order and nothing else, is partial with one and complete without, and hashes and counts all the rest |
| TreeDefects.ReportsDefects | internal/evidence/tree.go:151-339 | The walk itself: errors are the defects in listing order, the bytes hashed are the records of all that was found, and the counts are its totals |
| TreeDefects.TakesAll | internal/evidence/tree.go:181-195 | From any state that goes on, with room for what is found below, a list of entries is taken in whole: its records, its totals and its defects |
| TreeHash.DescendStep | internal/platform/rooted.go:18-67 | A path is followed by the names of entries through directories only; a component that is empty, dots, or has a slash or a zero byte is unsafe, and so is an entry that is no directory |
| EvidenceTree.AddErrorKeepsBudget | internal/evidence/tree.go:482-498 | The budgets, and what errors say of the status, survive every added error: a limit is reported exactly by a code of its own, and oversize without one means a full list |
| TreeHash.CompleteScan | internal/evidence/tree.go:91-131 | A scan of a path in a still tree is complete if and only if the path leads to a directory within limits, and it then hashed that directory's manifest |
| TreeHash.ScanBoth | internal/evidence/tree.go:91-131 | One scan with the store's cache and one without report the same bytes, status, errors and counts; a complete one's writes are remembered by a commit, and otherwise the table stays as it was; the store stays truthful |
| TreeHash.RunHistory | internal/store/content_cache.go:63-117 | Over any sequence of scans and stores, with commits, prunes and failures, cached and uncached scans always agree |
| TreeHash.RepeatScan | internal/evidence/tree.go:276-331 | A scan, the commit of its writes and the same scan again: both report the same, and with room in the table the second has nothing to add if and only if none of the rows that the first could use was past the retention window at the commit, however often it was hit |
| TreeCache.NextScanAddsNothingIff | internal/store/content_cache.go:63-117 | The same of the tables alone: what a commit leaves of the leaves of a tree |
| TreeCache.HeldIsKeptIff | internal/store/content_cache.go:55-62 | A row that a scan hit survives the commit if and only if it was written within the retention window: a hit does not count as a use |
| TreeCache.AddedIsHeld | internal/store/content_cache.go:86-94 | A leaf that a scan hashed is held after the commit |
| TreeCache.SomeLast | internal/store/content_cache.go:86-94 | Of several writes with one key some is the last |
| TreeCache.LeavesAreFiles | internal/evidence/tree.go:181-195 | The leaves of a tree are its files under the names that lead to them |
| TreeCache.UnheldAre | internal/evidence/tree.go:325-331 | What a scan adds are the writes of just those leaves that the table does not hold |
| TreeDecoder.ManifestDecodes | internal/evidence/tree.go:521-539 | A decoder recovers names, kinds, permissions, sizes and leaf digests of the whole tree from the bytes of a completed walk |
| TreeDecoder.EqualStreamsEqualTrees | internal/evidence/tree.go:521-556 | Two completed walks hashed equal bytes only if they saw the same tree |
| TreeDecoder.ParseInverse | internal/evidence/tree.go:228-339 | The records of a subtree, whatever follows them outside it, parse back to that subtree and leave the rest |
| TreeDecoder.DecodeItemInverse | internal/evidence/tree.go:521-532 | One record decodes to the path, kind and fields it was written from |
| Framing.ReadFieldsInverse | internal/evidence/tree.go:521-539 | Length-prefixed fields read back to the same fields |
| Framing.U64RoundTrip | internal/evidence/cache.go:53-70 | A 64-bit value is recovered from its big-endian bytes |
| ContentCache.KeyNamesOneFingerprint | internal/evidence/cache.go:53-70 | Equal cache keys have equal fingerprints and equal path digests, even where a target string is so long that its length is truncated |
| ContentCache.ContentStore.StoreContentCache | internal/store/content_cache.go:63-117 | A commit leaves, under each key, the fields of the last valid write of it with the time of the commit, and under any other key the row that was there; what it leaves out was unused for ninety days or is over the cap, which keeps the most recent rows, by key among equally old ones; a failure changes nothing; a truthful table stays truthful |
| ContentCache.UpsertsTake | internal/store/content_cache.go:86-94 | After the upserts a key has the fields of its last valid write and the time, and a key that no valid write names is as before |
| ContentCache.PrunedRemembers | internal/store/content_cache.go:63-117 | Upserts and pruning together leave of each key what was last written of it, unless it is over the cap |
| ContentCache.Lookup | internal/store/content_cache.go:29-53 | A hit is the row under the key, of the right algorithm and format, with a digest and a size, and comes only from a live context; any other row, or none, is a miss; a failed context or query is an error with no hit |
| ContentCache.Find | internal/store/content_cache.go:29-53 | What is found is a valid entry under its own key |
| ContentCache.UpsertsStayTruthful | internal/store/content_cache.go:63-117 | Upserting true writes into a truthful table keeps it truthful |
| ContentCache.DropOldest | internal/store/content_cache.go:95-117 | Exactly the row cap is kept, unchanged, and every row dropped comes before every row kept in the order of use and then of key |
| Observation.CanonicalTuple | internal/identity/observation.go:61-102 | The loops append exactly the framed scalars, consumers and sorted metadata |
| Observation.FinalizeObservation | internal/identity/observation.go:21-37 | Rejects exactly an empty required or a sensitive field; otherwise consumers are sorted and unique and the ID is that of the canonical tuple |
| Observation.TupleDecodes | internal/identity/observation.go:61-102 | A decoder recovers every scalar, consumer and metadata pair from the tuple |
| Observation.TupleInjective | internal/identity/observation.go:61-102 | Equal tuples come only from equal observations, below the length bound |
| Observation.TruncationCollides | internal/identity/observation.go:93-96 | Beyond 2^32 bytes a truncated length lets one field swallow the next: two different observations with one tuple |
| Observation.SameIdentity | internal/identity/observation.go:21-59 | Two observations get one ID if and only if they agree on every field, on the set of consumers and on metadata |
| Ordering.UniqueSorted | internal/identity/observation.go:45-59 | The members of a list in byte order, each once, for any order in which the map gives them |
| CrashSteps.WritesAreAtomic | internal/bundle/lifecycle.go:199-212 | Wherever a series of pointer writes stops, each pointer has its old value or its complete new one, and they changed in order |
| CrashSteps.PromotionStops | internal/bundle/lifecycle.go:80-106 | At every stop of a promotion: the version is untouched, gone, or wholly in place, and every other version is untouched |
| CrashSteps.Directory.Perform | internal/bundle/lifecycle.go:64-119 | A file operation may stop or fail after any effect, and then a prefix of its effects has happened |
| CrashSteps.Directory.WritePointerFile | internal/bundle/lifecycle.go:199-212 | Remove, write and rename happen in that order; a failed rename leaves at most the removal of its temporary |
| CrashSteps.LeftoversAreHarmless | internal/bundle/lifecycle.go:85-88 | Cleaning up a temporary or a staging directory changes neither a version nor a pointer |
| Bundle.RunsAreSafe | internal/bundle/lifecycle.go:29-158 | Over every run of installs and rollbacks, each stopped after any step: exactly as long as no install that could not read the mark breaks it, current and previous stay at or below the mark, a version on disk is the bundle of its own sequence, the mark never falls, and a sequence the mark covers keeps its one accepted bundle or nothing |
| Bundle.RunIsSoundIffRespectful | internal/bundle/lifecycle.go:29-158 | Every step of a run keeps the invariant and the history if and only if every install in it, as far as it got, neither lowered the mark nor replaced what the mark covers |
| Bundle.ReadingRunsAreRespectful | internal/bundle/lifecycle.go:65-79 | In a run whose installs could all read the mark, every install does |
| Bundle.StopIsSafeIff | internal/bundle/lifecycle.go:64-119 | An install stopped after k effects keeps invariant and history if and only if, once it has promoted, its bundle is above the mark or the same content, and, once it has written the mark, it is not below it |
| Bundle.InstallIsSafeIffAcceptable | internal/bundle/lifecycle.go:64-119 | An install is safe at every stop, whatever it read of the mark, if and only if its bundle is above the mark or is the very content in place under it |
| Bundle.UnreadHighWaterReplacesAccepted | internal/bundle/lifecycle.go:65-79 | When the high-water file cannot be read, other content under the mark's own sequence is admitted too and silently replaces the accepted bundle |
| Bundle.StepIsSafe | internal/bundle/lifecycle.go:64-157 | One install or rollback that the code can take, stopped anywhere, keeps the invariant and evolves the directory forward if and only if it respects the mark; an install that read the mark always does |
| Bundle.InstallIsSafe | internal/bundle/lifecycle.go:64-119 | An install admitted with the mark it read is acceptable, and keeps invariant and history at every stop |
| Bundle.AdmittedIff | internal/bundle/lifecycle.go:44-79 | An install goes on exactly for a bundle of its family, numbered from one, signed and valid now, above the mark as read or, at it, of the bytes accepted under it by a bundle still signed |
| Bundle.InstallPointers | internal/bundle/lifecycle.go:107-119 | The value of each of the three pointers at every stop of an install |
| Bundle.InstallCompletes | internal/bundle/lifecycle.go:107-119 | A finished install is current and its predecessor, when there was one, is the rollback target |
| Bundle.UnfinishedInstallKeepsActive | internal/bundle/lifecycle.go:64-119 | A cut install leaves the active bundle in place at every stop if and only if it is not reinstalling the version current names |
| Bundle.HighWaterHoldsIffNotBelow | internal/bundle/lifecycle.go:107-109 | The mark alone: it never falls at any stop if and only if the bundle's sequence is not below it |
| Bundle.UnreadHighWaterAdmitsOlder | internal/bundle/lifecycle.go:65-79 | When the high-water file cannot be read the check is skipped, and an older bundle is admitted and lowers the mark |
| Bundle.RollbackIsSafe | internal/bundle/lifecycle.go:139-157 | A rollback stopped anywhere keeps every version and the invariant |
| Bundle.TwoRollbacksRestore | internal/bundle/lifecycle.go:122-158 | Two successful rollbacks restore both pointers and every version |
| BundleManager.Install | internal/bundle/lifecycle.go:29-120 | Nothing begins unless the bundle is signed, inside its validity, of this family and numbered from one; the method then reaches exactly a stop of the plan of an install the code can take, plus clean-up; success means the whole plan, and a rollback error a mark at or above the bundle; where nothing fails, an admitted bundle is installed |
| BundleManager.StageAndPromote | internal/bundle/lifecycle.go:80-106 | Staging and promotion stop at a prefix of the plan or reach the promotion; where nothing fails, a verified bundle is promoted and nothing stays staged |
| BundleManager.SwitchPointers | internal/bundle/lifecycle.go:107-119 | The pointer writes follow the plan of what was read as current |
| BundleManager.RollbackPointers | internal/bundle/lifecycle.go:122-158 | A rollback first verifies its target, which is signed, valid now, of this family and in its own place, then reaches a stop of the two writes; success swaps the pointers; where nothing fails, every rollback that can be made is made |
| BundleManager.ReadStatus | internal/bundle/status.go:37-90 | A status that speaks of a bundle is of the active, signed one of this family: its fields, its freshness by validity and seven days of grace, and its records counted by verdict; any other says that there is none to speak of |
| BundleManager.Failed | internal/bundle/update.go:186-202 | A failed update carries its error or the cancellation, and every field of the status that could be read: degraded when that is fresh or stale, otherwise unavailable, and a digest only with a freshness band |
| BundleManager.Update | internal/bundle/update.go:64-169 | `updated` means the active sequence and digest are the manifest's; any other result leaves an available active bundle unchanged or, after a stop, the new one in place, provided the local status could be read, there is no manifest, or its sequence is not the active one; where nothing fails, a sound manifest and bundle above the mark are installed |
| BundleManager.UpdateKeepsActiveIff | internal/bundle/update.go:64-169 | An update that does not finish leaves the active bundle alone wherever it stops or fails if and only if it could read the local status or the manifest's sequence is not the active one |
| BundleManager.UnreadStatusReinstalls | internal/bundle/update.go:96-104 | When the local status cannot be read, the equal-sequence return is not taken: the active sequence is installed over itself, and for a while nothing is active |
| BundleManager.CheckFetched | internal/bundle/update.go:108-151 | What goes on to the install was downloaded whole, hashes to the manifest's digest, is signed and valid now, and agrees with the manifest in sequence, version, key ID and its three times; a wrong digest is reported as an invalid bundle |
| CoreInstall.RunsAreSafe | internal/install/install.go:112-544 | Over every run of stage, activate, rollback and prune, each stopped after any step and with whatever pointer it could not read: every directory of the run is sound, with whole versions that hash to the digest they were staged with and pointers that name installed ones, if and only if every step spares what the pointers name |
| CoreInstall.StepIsSafe | internal/install/install.go:112-544 | One step of any kind leaves the installation sound if and only if it did not stop between removing and renaming a version a pointer names, and began no removal of what the previous pointer names |
| CoreInstall.PruneStopIsSafeIff | internal/install/install.go:512-544 | A prune stopped anywhere is safe if and only if it had not begun to remove what the previous pointer names |
| CoreInstall.StageIsSafeIffUnpointed | internal/install/install.go:112-177 | Staging is safe at every stop if and only if no pointer names the version being replaced |
| CoreInstall.ActivateStops | internal/install/install.go:361-419 | At every stop of an activation the installation is sound; current changes with the first write and previous with the second |
| CoreInstall.RollbackStops | internal/install/install.go:432-457 | At every stop of a rollback the installation is sound; current changes with the first write and previous with the second |
| CoreInstall.RollbackTwice | internal/install/install.go:432-457 | A rollback of a rollback restores both pointers |
| CoreInstall.PruneIsSafeIffPreviousRead | internal/install/install.go:512-544 | Pruning is safe at every stop if and only if the previous pointer is unset, equals current, or was read |
| CoreInstall.PruneStops | internal/install/install.go:512-544 | Pruning touches no pointer and no version outside the part of its list it has reached, tears a version before it clears it, and leaves the rest whole |
| CoreInstaller.Stage | internal/install/install.go:112-177 | The promotion starts only after the copy hashed to the expected digest and passed the architecture check; success puts exactly that copy in place; pointers are never touched; where nothing fails, every fitting source is staged, and nothing stays staged |
| CoreInstaller.VerifyInstalled | internal/install/install.go:579-629 | A digest comes back only for a whole version in its own place whose bytes still hash to it, and where nothing fails for every such version |
| CoreInstaller.Activate | internal/install/install.go:361-419 | Nothing changes before the switch, which needs a version whose bytes hash to its digest; success means the switch took place; both pointers are given by what was read of current and by how far the two writes got; activating the active version leaves the rollback target alone; where nothing fails and the new version is healthy, the switch completes |
| CoreInstaller.OutgoingIsTargetIff | internal/install/install.go:406-414 | After a switch away from another version, with another rollback target than that version, the outgoing version is the rollback target if and only if current could be read and the second pointer write completed |
| CoreInstaller.Prune | internal/install/install.go:512-544 | What current names is never removed; what previous names is kept whenever it was read; where nothing fails, everything else is removed |
| CoreInstaller.Rollback | internal/install/install.go:432-457 | Success exchanges the two pointers and was possible only with a target whose bytes hash to its digest; failure leaves current at one of the two and every version as it was; where nothing fails it succeeds whenever there is such a target |
| Quarantine.ContentIsNeverLost | internal/quarantine/manager.go:42-246 | In every state of every run, stopped after any step, the original path or a managed copy holds the content with the recorded digest |
| Quarantine.QuarantineKeeps | internal/quarantine/manager.go:42-160 | Quarantine keeps held content held: the source goes only after the verified copy and the quarantined record exist |
| Quarantine.RestoreKeeps | internal/quarantine/manager.go:162-246 | Restore keeps held content held, and writes only where nothing was |
| Quarantine.AtMostOneCycle | internal/store/quarantine.go:34-87 | No state of a record is entered twice in a run, so one record goes through one cycle |
| Quarantine.RankNeverFalls | internal/store/quarantine.go:84-87 | A record's state only moves forward |
| Quarantine.SavesAre | internal/store/quarantine.go:34-51 | A record is first requested, then quarantined or failed, and restored only from quarantined |
| QuarantineManager.Machine.Save | internal/store/quarantine.go:16-51 | A record is stored only by an allowed transition from what is stored |
| QuarantineManager.Machine.Copy | internal/quarantine/manager.go:342-368 | A successful copy is the whole source within the size limit |
| QuarantineManager.Machine.TakeCopy | internal/quarantine/manager.go:75-115 | Where nothing fails, the copy is taken exactly of an untouched source within the limit; a copy that is kept is verified against the recorded digest; after a failure it stays exactly when removing it failed too |
| QuarantineManager.Machine.Quarantine | internal/quarantine/manager.go:42-160 | Wherever it stops the effect is one of the specified ones; success means record, copy and no source; where nothing fails, it succeeds exactly for a new record and a source that can be copied |
| QuarantineManager.Machine.Restore | internal/quarantine/manager.go:162-246 | Wherever it stops the effect is one of the specified ones; success means the bytes are back and nothing was overwritten; where nothing fails, it succeeds exactly for a stored record, an intact copy and a free original path; a restore that fails keeps the managed copy, and where nothing else fails leaves everything as it was |
| QuarantineManager.Machine.FullCycle | internal/quarantine/manager.go:42-246 | Quarantine and then restore bring back the same bytes under the same mode; where nothing fails, the cycle completes exactly when the source can be copied |
| Inventory.CanonicalValuesByID | internal/inventory/graph.go:269-279 | Every ID maps to the least canonical form among its values, in any order |
| Inventory.Diff | internal/inventory/graph.go:172-188 | For each kind of entity exactly the IDs that only one side has, as added or removed, and those whose least canonical forms differ, as changed; assets before evidence before observations, and by ID among each |
| Inventory.DiffSays | internal/inventory/graph.go:172-210 | A change is in the difference exactly when it means something: an ID without a form on one side, or with different least forms on the two |
| Inventory.AppendEntityChanges | internal/inventory/graph.go:190-210 | One kind of entity contributes exactly its changes |
| Inventory.DiffSwaps | internal/inventory/graph.go:172-210 | Exchanging the inventories exchanges added and removed; equal contents have no difference |
| Inventory.DiffFacts | internal/inventory/graph.go:172-210 | An asset change says exactly on which side the ID is missing, every missing ID has one, and no entity changes twice |
| Inventory.DiffIgnoresOrder | internal/inventory/graph.go:172-188 | Reordering either inventory does not change the listed difference |
| InventoryBuild.Build | internal/inventory/graph.go:15-158 | The loops produce the specified inventory: least variants, agreed metadata, every conflict and orphan reported, all in order |
| InventoryBuild.BuildIgnoresOrder | internal/inventory/graph.go:15-158 | Permuting results and what they contain changes neither the winners nor the conflicts nor the listing |
| InventoryBuild.BuildIsClosed | internal/inventory/graph.go:100-158 | Observations and relationships end in assets that are there, no relationship is a loop; assets and observations are strictly ordered by ID and relationships by their three columns |
| InventoryBuild.BuildReports | internal/inventory/graph.go:58-126 | A metadata conflict is reported exactly where two variants of an asset disagree on a key, an observation conflict exactly for an ID that came in two forms, and one orphan for each winning observation left out, which is each whose asset is not there |
| InventoryBuild.MetadataKept | internal/inventory/graph.go:58-83 | An asset has exactly the metadata on which all its variants agree that have it |
| InventoryBuild.RelationshipsKept | internal/inventory/graph.go:128-143 | Exactly the reported relationships of a valid kind between two different assets that are there are kept |
| InventoryBuild.AddAsset | internal/inventory/graph.go:22-47 | One more variant keeps the least one and every metadata value seen |
| InventoryBuild.AddObservation | internal/inventory/graph.go:70-99 | One more observation keeps the least variant and notes a conflict when the forms differ |
| Ladder.OneRowEach | internal/inventory/ladder.go:180-341 | No asset has two rows, so the row order is total |
| Ladder.RungIsMinimum | internal/inventory/ladder.go:180-341 | A row is REMOVED exactly when its asset is gone, and then there is no fact about it; any other row has the highest rung of the facts about its asset; a row is NEW exactly when its asset is there for the first time and replaces none |
| Ladder.FactHasRow | internal/inventory/ladder.go:180-341 | Every asset with a fact has a row at least as high as that fact |
| Ladder.AddedHasRow | internal/inventory/ladder.go:274-304 | Every added asset has a row: NEW, or UPGRADED or UNVERIFIED when it replaces a removed version, with both versions named |
| Ladder.ParseIsInverse | internal/inventory/ladder.go:118-134 | An ID spelled from a versioned type, a host or none, a name and a version parses back to them |
| Ladder.ParseSpelled | internal/inventory/ladder.go:118-134 | The first two colons end type and host; the last @ of a versioned ID starts its version unless the name starts with it; other types have no version |
| Ladder.ParseShort | internal/inventory/ladder.go:118-134 | Two parts have no host, and one part is only a name |
| Ladder.VersionChangeHasRow | internal/inventory/ladder.go:274-304 | One version of a package gone, another there and no third in question: the new one is UPGRADED from the one version to the other, or UNVERIFIED when its record says so |
| LadderFacts.FactsSay | internal/inventory/ladder.go:208-304 | What is established of an asset at each rung: NEW or UPGRADED for one that is there for the first time, by whether it replaces another; CHANGED when it changed, or a record of it did and it is not new; UNVERIFIED when evidence of it has a gap |
| LadderFacts.RecordFactsSay | internal/inventory/ladder.go:234-272 | Records establish of an asset exactly what new or changed observations and evidence of it say, except that those of a new asset do not say that it changed |
| LadderFacts.RowSays | internal/inventory/ladder.go:148-160 | A row shows the type, name and source of the asset's record, or for one that is gone what its ID spells, with a digest never shown, and versions only where it was upgraded or removed |
| Ladder.RemovedIsAccountedFor | internal/inventory/ladder.go:274-319 | A removed asset has its own REMOVED row if and only if it is not the predecessor of an added asset |
| Ladder.OneSuccessor | internal/inventory/ladder.go:274-304 | A removed asset is the predecessor of at most one added asset |
| Ladder.FactsArePresent | internal/inventory/ladder.go:182-268 | With a closed inventory every fact is about an asset that is there |
| LadderBuilder.Classify | internal/inventory/ladder.go:180-341 | The maps filled and thinned in any order list exactly the ladder's rows, sorted |
| LadderBuilder.NoteRecords | internal/inventory/ladder.go:234-272 | The second pass notes exactly the records that speak of an asset |
| LadderBuilder.NoteAdditions | internal/inventory/ladder.go:274-304 | The third pass pairs an addition with a removal exactly when each is alone under its identity and both have versions |
| LadderBuilder.LadderOfDiff | internal/inventory/ladder.go:180-341 | Two orders of one difference give the same rows, with pairwise distinct keys, each justified by the facts about its asset, ordered by rung, type, name, host and ID |
| EvidenceRecord.FinalizeRecord | internal/evidence/record.go:33-66 | The overwriting steps return a record exactly for the values of the contract, with what its status keeps |
| EvidenceRecord.FinalizableIff | internal/evidence/record.go:33-141 | A value makes a record exactly when it meets the contract written out kind by kind: subject and status of the kind, a lowercase SHA-256 digest or errors as the status needs, errors that speak of such a kind, and counts only where something was counted |
| EvidenceRecord.RecordSays | internal/evidence/record.go:42-66 | What the record keeps: digest, size and counts of a status that has them, metadata that tells a whole from an observed part and the cache outcome of whole trees, and nothing beside errors otherwise |
| EvidenceRecord.RankIsTextual | internal/evidence/record.go:167-179 | The order of known errors is that of their codes and then of their messages |
| EvidenceRecord.FinalizedIsStored | internal/store/evidence.go:188-312 | Every finalized record keeps its status and target and passes the store's own shape, metadata and identity checks |
| EvidenceRecord.FinalizedIsFixed | internal/evidence/record.go:33-66 | A finalized record finalizes to itself |
| EvidenceRecord.StoredIsFinalized | internal/store/evidence.go:229-312 | Of the records the store accepts, exactly those with sorted known errors and controlled metadata are ones the engine could have made |
| EvidenceRecord.SortErrorsSorts | internal/evidence/record.go:167-179 | Sorting errors orders and keeps them, and leaves sorted ones alone |
| EvidenceEngine.UniqueByID | internal/evidence/validation.go:20-67 | An ID stands for a value if and only if exactly one value carries it and that value is good |
| EvidenceEngine.AssetRelativePath | internal/evidence/validation.go:255-280 | A path lies below the asset exactly when the asset's components come first, and the remainder completes it |
| EvidenceEngine.Accept | internal/evidence/validation.go:69-119 | An accepted target names a unique asset and a unique observation of it, and is one whose record can be made |
| EvidenceEngine.AcceptedIffAdmissible | internal/evidence/validation.go:69-119 | A target is accepted exactly when its seal was verified, its name fits its collector, its asset and the observation of it by that collector are there, a project file is bound to its project, its preset fits, it can be named, and it lies below its asset; what is read is then the rest of its path |
| EvidenceEngine.PresetShapesFit | internal/evidence/validation.go:184-209 | A preset is allowed exactly as skipped or unsupported anywhere, as a digest of a container or of the surfaces' credential settings, or as a file that could not be read, always without a place |
| EvidenceEngine.CollectOne | internal/evidence/engine.go:247-294 | An accepted candidate gets a record of its own, never an empty one: the value read when it meets the contract, otherwise, or when reading panics, the unavailable fallback with its error; a settled status, its digest and its error are kept |
| EvidenceEngine.FallbackIsRecord | internal/evidence/engine.go:279-283 | The unavailable fallback is a valid record for every kind that is read |
| EvidenceEngine.Choose | internal/evidence/engine.go:166-181 | Every candidate that shares its evidence or its binding with another is rejected, the first one too, and each is counted once |
| EvidenceEngine.RunWorkers | internal/evidence/engine.go:201-219 | For any order in which workers take jobs, each candidate's result is in its own place |
| EvidenceEngine.Collect | internal/evidence/engine.go:83-245 | Rejections and records together number the targets; exactly the admissible targets that share neither evidence nor binding with another admissible one have a record; records pair with coverage lines by ID and status, IDs are distinct, and lines come by target, observation and evidence |
| EvidenceEngine.ChosenStandAlone | internal/evidence/engine.go:166-181 | The candidates that remain are those of the issued, admissible targets that stand alone, and every such target has one |
| EvidenceEngine.CollectionIsStored | internal/store/evidence.go:188-371 | Everything a pass collects passes the store: every record by its own contract, and the coverage as a whole |
| EvidenceEngine.EvidenceCoverageStatus | internal/evidence/engine.go:422-440 | Partial exactly with a rejection or a record that fell short, skipped exactly when all of at least one were skipped |
| Issuer.CanonicalIsInjective | internal/evidence/issuer.go:113-142 | One canonical digest stands for one target with one anchor |
| Issuer.VerifyIssuedTarget | internal/evidence/issuer.go:97-111 | The anchor comes back exactly for an active expected issuer, its own proof, and the canonical form that was sealed |
| Issuer.IssueThenVerify | internal/evidence/issuer.go:75-172 | Only the very target sealed verifies, and after the issuer is cleared nothing does |
| Callbacks.RunsAreSafe | internal/evidence/callbacks.go:10-37 | Under every interleaving running callbacks fit in the capacity, occupied slots are exactly callers between acquire and spawn plus callbacks not yet released, and each acquire is released at most once |
| Callbacks.StepIsSafe | internal/evidence/session.go:186-220 | Every step keeps the invariant, and every step of a call uses up some of that call's work |
| Callbacks.SendersNeverBlock | internal/evidence/session.go:202-213 | A goroutine can always release its slot and then always send its one result, even after its caller left |
| Callbacks.OnlyRunningOccupy | internal/evidence/engine.go:352-379 | When nothing but callbacks can move, they hold every occupied slot, and a caller still waiting to enter faces a full house of them |
| Callbacks.EverySlotComesBack | internal/evidence/session.go:186-232 | Without new callers every run ends within the work left, and then every slot is free, every call is over, and each acquire was released exactly once |
| Callbacks.CallIsAnswered | internal/evidence/session.go:186-220 | With a slot free a lookup can arrive, run and come back with exactly what its callback came to, its slot taken and given back once |
| Callbacks.Advance | internal/evidence/callbacks.go:21-37 | The shared channel goes through exactly the slots that the steps take and give back |
| RedactedGraph.RedactionSucceeds | internal/audit/privacy.go:647-715 | Redacting any valid record succeeds, the result passes validation under the redacted profile, counts are unchanged, and every list is the old one with each identity replaced by its token, nothing added, dropped or merged |
| RedactedGraph.ReferencesAreKept | internal/audit/privacy.go:647-762 | In the redacted record one token refers to another, at each of the places where identities are referred to, if and only if the identity referred to the other in the original; and there are no other references in it |
| ValidRecord.RedactsExactlyValid | internal/audit/privacy.go:647-715 | Redaction rejects exactly the records that are not valid, and never returns one that is not |
| ValidRecord.RunIsRedacted | internal/audit/privacy.go:647-715 | Run, device and scan each appear under their own run token, and the label is the redacted one |
| ValidRecord.ValidIsClosed | internal/audit/privacy.go:188-339 | In a valid record whatever is referred to, in the inventory, a collector, a finding, a change or the evidence coverage, is there |
| ValidRecord.RecordIff | internal/audit/privacy.go:39-68 | A record is valid exactly when its run is spelled for its profile, its summary counts its lists, and it is empty, if it failed, or else everything in it is plain, in order, and refers to what is there |
| ValidRecord.InventoryIff | internal/audit/privacy.go:188-243 | An inventory is valid exactly when every identity is a safe identifier, or an export token after redaction, what is shown passes its pattern or is cleared, every reference leads to what is there, and its lists are in strict order |
| ValidRecord.CollectorIff | internal/audit/privacy.go:245-297 | A collector is valid exactly when its own assets, observations and targets are plain and in order and its references lead to its own assets |
| ValidRecord.TopIff | internal/audit/privacy.go:299-339 | Findings, changes and evidence coverage are valid exactly when they are plain, in order, and refer to what the inventory has |
| ValidRecord.NewNamesAreSafe | internal/audit/model.go:381-452 | A name whose token is not a safe identifier is hashed once more, so every new name is empty or safe |
| RedactedGraph.InventoryAgain | internal/audit/privacy.go:188-243 | The renamed, re-sorted inventory is valid again, and its IDs are the images of the old ones |
| RedactedGraph.CollectorAgain | internal/audit/model.go:316-351 | A collector's own graph is closed again, and nothing in it is merged by the deduplication |
| RedactedGraph.TopAgain | internal/audit/privacy.go:299-339 | Findings, changes and evidence targets are valid against the renamed inventory and in order |
| RedactedGraph.SortedAgain | internal/audit/model.go:248-314 | Renaming columns by tokens keeps keys apart, so sorting gives strict order, the same elements, each of them valid, and nothing to deduplicate |
| Redaction.DedupeSorted | internal/audit/model.go:472-484 | The loop keeps the first of each run of equal keys, and everything when keys are strictly ordered |
| Redaction.Identities.Token | internal/audit/privacy.go:656-668 | The remembered token of an identity is a function of the identity alone |
| Json.ParseWritten | internal/bundle/model.go:156-204 | A value's tokens, whatever follows them, read back to that value and leave exactly what follows |
| Json.ParsedIsWritten | internal/bundle/model.go:156-204 | A stream that reads as a value starts with that value's tokens |
| JsonWalkers.Walk | internal/bundle/model.go:156-204 | The recursive walk reports a repeat, or a stream that does not start with a value, exactly then, and otherwise consumes exactly one value |
| JsonWalkers.HasDuplicateObjectKey | internal/bundle/model.go:156-204 | False exactly on the tokens of one value, and nothing more, in which no object at any depth repeats a name |
| JsonWalkers.HasExactFields | internal/bundle/model.go:211-241 | True exactly on one object whose members, at every level with a schema, are distinct fields of it |
| JsonWalkers.Inspect | internal/tipublish/osv.go:191-250 | Accepts exactly a value without repeats whose whole use fits the budget, although it stops at the first overrun, and then used is the exact count |
| JsonWalkers.Preflight | internal/tipublish/osv.go:182-189 | Accepts exactly one value, and nothing more, that repeats no name and fits the budget with its root counted |
| JsonWalkers.Decoder.Token | internal/bundle/model.go:156-204 | The reader hands out the next token exactly where its nesting allows it |
| Retention.Choose | internal/audit/manager.go:315-326 | The backward loop over a running total marks an archive exactly when no run of newest archives that includes it is recent enough and fits, thirty days and a gibibyte by default; the newest is never marked |
| Retention.AuditDirectory.Prune | internal/audit/manager.go:292-342 | Only valid archives outside that run are removed, all of them on success, and the newest of them first when the prune is cut short; where nothing fails it completes |
| Retention.AuditDirectory.List | internal/audit/manager.go:485-490 | The listing is newest first whatever order the directory is read in |
| Retention.CutShortKeepsOlder | internal/audit/manager.go:327-341 | What is left is newer than all that was removed if and only if nothing was removed or the prune finished |
| Retention.KeptIsUnique | internal/audit/manager.go:315-326 | The number of archives kept is determined by the listing and the policy |
| Masker.MaskInPlace | internal/analyzer/scanner.go:97-161 | The in-place scan turns the array into the text with its comment and literal spans blanked |
| Masker.LineCommentEnds | internal/analyzer/scanner.go:130-134 | A line comment ends before its first newline |
| Masker.BlockCommentEnds | internal/analyzer/scanner.go:135-141 | A block comment ends behind its first star and slash, or with the text |
| Masker.LiteralEnds | internal/analyzer/scanner.go:142-159 | A literal ends behind its first closing mark with an even number of backslashes before it, or with the text |
| Masker.CleanSpelled | internal/analyzer/scanner.go:113-128 | A span opens exactly at a quote, a #, two slashes, or a slash and a star |
| Masker.StepWrites | internal/analyzer/scanner.go:109-159 | Each turn of the state machine writes what the spans say |
| Masker.MaskOnlyBlanks | internal/analyzer/scanner.go:97-161 | Every byte is the original one or a space |
| Masker.MaskIsClean | internal/analyzer/scanner.go:97-161 | No quote, #, // or slash-star survives |
| Masker.KeptUpToOpener | internal/analyzer/scanner.go:113-129 | Text before the first opener is kept as it is |
| Masker.LineBreaksStay | internal/analyzer/scanner.go:130-142 | In text without quotes every line break stays |
| Masker.MaskFixesClean | internal/analyzer/scanner.go:97-161 | A text is left alone if and only if nothing in it opens a span, so masking twice is masking once |
| Egress.CredentialEgress | internal/analyzer/scanner.go:64-77 | The count is the number of finds of sources with a find of a sink within 4096 bytes after them, each as often as it is found; for tokens that cannot overlap it is the number of places of sources with a place of a sink close after them |
| Egress.TokenPositions | internal/analyzer/scanner.go:79-93 | The positions are the finds of every token, with repetition, ascending |
| Egress.GreedyIsLeftmost | internal/analyzer/scanner.go:82-89 | The finds of one token do not overlap, and every other occurrence overlaps a find before it |
| Egress.LeftmostIsGreedy | internal/analyzer/scanner.go:82-89 | There is only one such list of occurrences |
| Egress.AllFoundOnce | internal/analyzer/scanner.go:79-93 | Tokens that neither overlap themselves nor start one another are each found exactly once at every place of theirs |
| Egress.SourcesAreSeparated | internal/analyzer/scanner.go:65 | No source token overlaps itself or can stand where another does |
| Egress.SinksAreSeparated | internal/analyzer/scanner.go:66 | No sink token overlaps itself or can stand where another does |

## Left out

- Observation.TupleInjective: stated for fields, consumers and metadata shorter than 2^32 bytes, because beyond that it is false (`Observation.TruncationCollides`); which longer observations collide is not characterised.
- TreeDecoder.EqualStreamsEqualTrees: stated for paths whose record fits a 32-bit length, for the same reason; directory sizes, times and inode numbers are not in the manifest, so it says nothing about them.
- Issuer.CanonicalIsInjective: stated for strings shorter than 2^32 bytes, for the same reason.
- RedactedGraph.RedactionSucceeds: relies on tokens that tell identities apart and pass the patterns for tokens and safe identifiers; with a real HMAC the first is true up to collisions.
- Redaction.NewRecord: rewrites values rather than a cloned record in place, so aliasing between its slices is not modelled; the string patterns behind each field are one predicate for fields that stay and one for fields that are cleared, and times, findings' rule lists and intelligence receipts are among the fields that stay.
- EvidenceEngine.CollectOne: what reading a file, a tree or a semantic hasher returns is arbitrary here; the tree part is in TreeHash, and cache writes and analyzer facts carried beside a record are not modelled.
- EvidenceEngine.Accept: fingerprint consistency of anchors is one given fact about a target, and so is the spelling of target IDs.
- Callbacks.RunsAreSafe: the two callers of the limiter take the same steps and are one kind of call; a missing limiter, which admits nobody, is not a state of the machine.
- JsonWalkers.Decoder: hands out tokens with numbers, literals and punctuation already read; the byte-level JSON lexer and string unescaping are not part of this model.
- TreeWalker.Environment: stands for the rooted file system; descriptor identity, inode comparison and the timing of symlink swaps show only as arbitrary answers.
- TreeHash.RepeatScan: speaks of a table with room to spare after the commit; with a full one the row cap may drop what the scan learned.
- ContentCache.ContentStore.StoreContentCache: the transaction commits as a whole or not at all; SQL and its schema are not part of this model.
- Egress.TokenPositions: asks for tokens that are not empty; a scan for the empty token would not end.
- Sums and counters are unbounded integers: the 64-bit totals of retention, of JSON budgets and of engine counters do not wrap here.
- Composite string keys joined by a zero byte are lists of columns: identifiers that contain a zero byte are rejected by the repository before they are sorted.
- Locks, fsync, permissions and directory creation in the lifecycle protocols.
- Reading the OSV source as a stream, decoding into records and measuring them a second time.
- Building an audit record from a scan, saving and exporting archives, and the ZIP format.
- Universal-binary header parsing in the core installer, which is one predicate on the copied bytes.
- Collectors, network fetch, webhooks, scheduling, command line and report writers.
