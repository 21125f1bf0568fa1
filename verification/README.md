# A Dafny model of the Redis storage module for Caddy

The module keeps certificates and other small values of Caddy in Redis, for any number of
servers at once. This project models the parts of it where correctness is not visible in
one function, and proves what holds over all inputs, all runs and all interleavings.

* **The directory index** (`Redis`, `DirectoryIndex`, `Sequential`, `Concurrent`,
  `ConcurrentDelete`, `Race`, `Interrupted`, `Healing`, `Repair`, `RepairWalk`, `ScanPattern`,
  `Storage`). Values are Redis strings; beside them a tree of sorted sets records the children of every directory. `Store` climbs from the key to
  the root and stops at the first link that is already there, `Delete` climbs while the set
  it touched has vanished, `Repair` rebuilds and prunes. Redis is one map from paths to
  strings and nonempty sets, and every step is one command on it. A client with `n` commands
  left before it is closed stands for a reload under a running operation.
* **Paths** (`Paths`). The index modules work on sequences of path segments. This module
  proves that the slash-separated strings of the source, with `path.Join`, `path.Dir` and
  `path.Base`, stand for exactly those sequences.
* **The certificate reporter** (`CertificateRoot`, `RootHistory`, `CertificateQueue`,
  `ReporterRegistry`): the life of one reported hostname, the bounded queue that workers share, and the
  reference-counted registry over configuration reloads. Probe, HTTP answer, jitter and clock
  are inputs of each step.
* **The value codec and key rotation** (`Codec`, `KeyRotation`). DEFLATE (RFC 1951), zlib
  (RFC 1950) and AES-GCM (sections 7.1 and 7.2 of NIST SP 800-38D) are functions with the
  laws the code relies on; `Codec.LawsAreMet` shows that the laws can be met.
* **Lock timing** (`LockTiming`): the five-second entry and its three-second refresh as a
  timed transition system over any number of callers.
* **The handshake observer** (`CertificateObserver`): a small machine against a declarative
  specification over the sequence of loads.

Domain of the index results. The Redis server may be shared: exactness
(`DirectoryIndex.Consistent`) is about the keys and sets at and below the key prefix, the
root, and every result also says that nothing outside it changes
(`DirectoryIndex.OutsideKept`). Under a prefix of several segments the climbs also write the
entries that lead to the root; of the sets above the root nothing is demanded but that they
are not strings. The prefix is not empty and normalised, keys are clean relative paths, and no
stored key is a directory of another one. Where one of these conditions is needed, it is shown
to be exactly the condition (`DirectoryIndex.StoreExactIff`, `DirectoryIndex.DeleteExactIff`,
`Sequential.EmptyPrefixListsNothing`). `Repair` starts from any missing links and any stale
entries, as long as the root is no string, no string stands above a stored key, a file entry
does not name a directory and a directory entry does not name a string (`Repair.Repairable`);
a file entry may name a string that does not load. Sets are compared by membership; scores
only order what `List` returns.

What the code does not do, although its comments or a first reading suggest it, is stated
with an input at which it fails and with the exact condition:

* A failed lock refresh logs that it will retry. If a refresh never lags more than a second,
  and only then, the retry always comes too late
  (`LockTiming.RetriesFailIffLagAtMostOneSecond`).
* Unlock takes the handle it finds under the lock's name. After a lost lock that can be the
  handle of another caller in the same process, whose lock it then releases
  (`LockTiming.UnlockTakesOthersHandle`, `LockTiming.LostLockSpreads`); without faults and
  with small lags it is always its own (`LockTiming.HeldLockIsExclusive`).
* The re-run after a closed client restores a `Delete` always, a `Store` exactly when it was
  not cut off between two new links (`Interrupted.DeleteSurvivesEveryCut`,
  `Interrupted.StoreSurvivesCutIff`, `Interrupted.LateCutExample`).
* A key unlinked that way is restored by `Repair`, but not by `Repair` alone: a later run of
  Stores does it exactly when one of its keys is new in the directory where the climb was cut
  off; until then every key stored below that directory is out of the listing too
  (`Healing.RunHealsCutIff`, `Healing.SiblingHealsExample`).
* A `Store` that runs inside a `Delete` can end unlinked. Every interleaving of the two ends
  well exactly when their keys differ and the `Delete` does not empty the deepest directory
  they share, or that directory is the root (`Race.EveryRaceEndsWellIff`,
  `Interrupted.DeleteStoreRace`).
* One `Repair` need not make `List` return exactly the stored keys
  (`Repair.OnePassListsExactlyIff`, `Repair.UnloadableStaysListed`) and need not remove every
  stale entry (`Repair.OnePassIsExactIff`, `Repair.OnePassLeavesStaleEntry`).
* The pattern of `Repair` need not match the own keys: a prefix with a bracket can miss them
  (`ScanPattern.BracketMissesOwn`); one without brackets and backslashes never does
  (`ScanPattern.HarmlessCoversOwn`).
* `normalizeKeyPrefix` is not idempotent (`Paths.NormalizeTwiceIff`,
  `Paths.NormalizeTwiceExample`).

## Model

| member | source | states |
|---|---|---|
| DirectoryIndex.LinkUpCut | storage.go:891-921 | a climb cut off after any number of commands has added exactly the lowest missing links, as many as it had commands for, and nothing else |
| DirectoryIndex.LinkUpOutcome | storage.go:891-921 | such a climb fails only because its client was closed, and certainly fails while new links are left |
| DirectoryIndex.LinkUpAdds | storage.go:911-918 | despite the stop at the first link present, an uninterrupted climb over links closed upward from some level on leaves every link from that level on in place and adds no link but those of the key |
| DirectoryIndex.LinkUpRepairs | storage.go:891-921 | with `repair` the climb adds the links of every level, whatever was missing |
| DirectoryIndex.ConsistentUpClosed | storage.go:891-921 | in an exact index a link implies all links between it and the root, which is what makes the early stop safe |
| DirectoryIndex.StoreExact | storage.go:432-444 | on a server whose part below the root is exact, Store of a key without conflict succeeds, changes this one value, keeps the index below the root exact and changes nothing outside it |
| DirectoryIndex.StoreExactIff | storage.go:432-444 | from an exact index, Store succeeds and leaves an exact index if and only if no string stands above the key and the key is no directory |
| DirectoryIndex.UnlinkUpRemoves | storage.go:926-953 | the climb of Delete removes exactly the links from the key up to the first directory that keeps another member |
| DirectoryIndex.DeadLinkNotNeeded | storage.go:939-950 | a link that Delete removes is needed by no other stored key, and a link it leaves is needed by one |
| DirectoryIndex.DeleteExact | storage.go:483-499 | likewise, Delete of a key without conflict, present or not, removes this one value, keeps the index exact and changes nothing outside the root |
| DirectoryIndex.DeleteExactIff | storage.go:483-499 | from an exact index, Delete succeeds and leaves an exact index if and only if the key has no conflict; deleting a directory name destroys its set |
| Sequential.ListedIsStored | storage.go:541-579 | in an exact index the keys that links lead to from a directory are exactly the stored keys below it |
| Sequential.ChildrenAreNextSegments | storage.go:541-579 | the file and directory entries of a directory are exactly the next segments of the stored keys below it, never both for one name |
| Sequential.RunRefinesMap | storage.go:383-499 | every clash-free run of Stores and Deletes keeps the index exact, leaves below the root the values of a plain map under the same run, and nothing else on the server changed |
| Sequential.ListAfterRun | storage.go:541-579 | from a server on which nothing uses the root yet, after any clash-free run, a key is listed under a directory exactly when the plain map holds it and it lies below |
| Sequential.EmptyPrefixListsNothing | storage.go:896-898 | with an empty prefix no run, on any database, ever makes the root list anything |
| Interrupted.UnlinkUpResumes | storage.go:926-953 | running the climb of Delete again after any prefix of its commands gives the database and answer of one run |
| Interrupted.DeleteSurvivesEveryCut | reconnect.go:110-130 | a Delete cut off before any of its commands and re-run equals one uninterrupted Delete, from every database |
| Interrupted.RerunKeepsCut | reconnect.go:110-130 | the re-run of a cut Store either starts over, when no link was new, or adds the value and no link at all |
| Interrupted.StoreSurvivesCutIff | reconnect.go:110-130 | a cut and re-run Store equals one uninterrupted Store if and only if the cut fell before its first new link or after its last; otherwise the value loads and exactly the links above the cut are missing |
| Interrupted.LateCutExample | reconnect.go:110-130 | a Store of four segments into an empty database, cut off after its first command: the re-run differs from one Store, and two links are missing |
| Interrupted.StoreWithReconnectIff | storage.go:432-444 | from an exact index and without conflict, Store with its re-run succeeds, changes this one value and nothing outside the root; the index is exact afterwards if and only if the client was not closed between two new links below the root |
| Healing.StoreHealsCutIff | storage.go:901-918 | after a Store that was cut late and re-run, the next Store of a key without conflict lists the first key again if and only if the two keys share exactly the segments down to the directory of the cut, and is itself listed if and only if it does not go through the same entry of that directory |
| Healing.RunHealsCutIff | storage.go:901-918 | after any clash-free run of further Stores the first key is listed if and only if one of them shares exactly those segments; until then exactly the keys below that directory are out of the listing, and afterwards the index is exact |
| Healing.SiblingHealsExample | storage.go:901-918 | a new sibling in that directory heals a chain broken at the root, and a new key below the first one is itself out of the listing |
| Interrupted.DeleteStoreRace | storage.go:940-947 | a run in which a Store between the EXISTS and the parent ZREM of a Delete ends stored but unlinked |
| Race.EveryRaceEndsWellIff | storage.go:926-953 | for a Delete and a Store of keys neither above the other, every interleaving of their commands succeeds and ends exact if and only if the keys differ and their deepest common directory is the root or is not emptied by the Delete |
| Race.HarmlessIsExact | storage.go:926-953 | the sufficient half: in that case no interleaving loses a link |
| Race.EmptiedIsLost | storage.go:940-947 | the necessary half: otherwise a Store right after the EXISTS that found the directory gone ends unlinked |
| Race.SameKeyIsLost | storage.go:483-499 | for one key, a Store between the climb and the DEL of the Delete leaves a link without a value |
| Concurrent.ClimbAlone | storage.go:891-921 | the single-command form of Store, when left alone, runs exactly the climb of the whole-operation form |
| Concurrent.StepKeepsInv | storage.go:891-921 | each single command of each Store keeps the invariant of the interleaving |
| Concurrent.NoDirectoryIsEverLost | storage.go:432-444 | under every interleaving of any number of Stores, at every moment, no Store has failed and each nonempty directory is linked or about to be linked by a Store in flight |
| Concurrent.AllStoresSucceed | storage.go:432-444 | when all have finished, the index is exact, every key of a Store holds the bytes of a Store of that key, every other value is unchanged, and so is the rest of the server |
| Concurrent.SetsGrow | storage.go:891-921 | from one moment of an interleaving to a later one no directory entry goes |
| ConcurrentDelete.UnlinkAlone | storage.go:926-953 | the single-command form of Delete, when left alone, runs exactly the climb of the whole-operation form |
| ConcurrentDelete.StepKeepsInv | storage.go:926-953 | each single ZREM, EXISTS and DEL of each Delete keeps the invariant of the interleaving |
| ConcurrentDelete.NoStaleDirectoryIsForgotten | storage.go:926-953 | under every interleaving of any number of Deletes, at every moment, none has failed, no link that another key needs is gone, and every directory that is gone but still linked is attended to by a Delete |
| ConcurrentDelete.AllDeletesSucceed | storage.go:483-499 | when all have finished, the index is exact, the keys of the Deletes are gone, every other value is unchanged, and so is the rest of the server |
| Repair.PassKeepsNeeded | storage.go:812-850 | a pass never removes a link that a stored key needs |
| Repair.OnePassListsStored | storage.go:764-853 | from any missing links and stale entries, after one pass recursive List of the root finds every stored key and nothing but strings, with their values unchanged |
| Repair.OnePassListsExactlyIff | storage.go:785-797 | one pass makes List return exactly the stored keys if and only if no file entry that is reached after the scan names a string that does not load |
| Repair.UnloadableStaysListed | storage.go:791-797 | a database with one such entry, which a pass leaves as it is |
| Repair.PassKeepsRepairable | storage.go:764-853 | a pass leaves a database of the kind Repair is for, so passes can be repeated |
| Repair.RepairConverges | storage.go:821-850 | within index depth plus one passes the reachable index has every link of the stored keys and no entry that leads to no string; it is exactly that of the stored keys if and only if, before the first pass, no file entry that its scan reaches names a string that does not load |
| Repair.ExactIsFixed | storage.go:764-853 | from then on a pass changes nothing below the root, and nothing at all unless its scan adds links of another prefix |
| Repair.OnePassIsExactIff | storage.go:829-848 | one pass removes every stale entry if and only if every directory entry whose directory exists leads to a string after the scan; where all strings load, if and only if some stored key needs each such entry |
| Repair.OnePassLeavesStaleEntry | storage.go:829-848 | a database of two sets for which one pass is not enough |
| Repair.EmptiedDirectoryKeepsEntry | storage.go:829-848 | the entry that stays behind: of a directory whose own entries all lead nowhere, which the pass empties |
| Repair.RepairHealsCutStore | storage.go:764-853 | after a cut and re-run Store and any clash-free run of further Stores, one pass lists every stored key, with its value |
| RepairWalk.ScanDone | storage.go:768-809 | batches that cover all stored keys, in any order, with repetitions and with keys of other prefixes among them, add up to the whole rebuild below the root |
| RepairWalk.OwnKeyIsLookedUp | storage.go:790-791 | for a key below the prefix the scan loads that very key |
| RepairWalk.OtherKeyLinksElsewhere | storage.go:799-803 | the links of a key of another prefix lie in no directory below the root |
| RepairWalk.IntactReach | storage.go:812-850 | until the walk goes down into an entry, what is reached below it is what was reached at the start |
| RepairWalk.WalkEnds | storage.go:812-850 | the loop over all entries of a directory adds up to the whole pruning below it |
| Storage.RedisStorage.StoreDirectoryRecord | storage.go:891-921 | the recursive method on the client's commands is the climb that the index results are about |
| Storage.RedisStorage.DeleteDirectoryRecord | storage.go:926-953 | likewise for the climb of Delete |
| Storage.RedisStorage.Store | storage.go:432-444 | if Redis can be reached again, the own part of the server is exact and the key has no conflict, the call succeeds and changes this one value and nothing outside the prefix, with an exact index if and only if the client was not closed between two new links; a call refused by a closed client has changed no value |
| Storage.RedisStorage.Delete | storage.go:483-499 | if Redis can be reached again, the result is that of one uninterrupted Delete however the client was cut off; on an exact own part and without conflict the key is gone, the index exact and nothing outside the prefix changed; a call refused by a closed client has changed no value, and every entry that is gone is a link of the key |
| Storage.RedisStorage.List | storage.go:541-579 | over a database that other clients change between its reads: exactly what it would return on the database in which every directory is as it was when read; recursive: the keys that links lead to, each once, refused exactly when directory links lead to a string; otherwise the direct children, each once unless a file and a directory share a name; a client closed at any moment changes none of this if Redis can be reached again; it writes nothing: the database is left as other clients had it when some directory at or below the listed one was read |
| Storage.SeenUnchanged | storage.go:541-579 | if no other client writes, what List sees is the database it was called on, and that database is left exactly as it was |
| Storage.ListDuringStores | storage.go:541-579 | while only Stores run, List returns every key listed when it began and no key not listed when it ends |
| Storage.ExactIndexLists | storage.go:541-579 | on an exact index List succeeds on every path that is not a value, and no name is both file and directory |
| Storage.RedisStorage.Rescan | storage.go:768-809 | the loop over SCAN batches changes no value and adds only the links of keys it re-links, whichever prefix they have; TYPE and GET on a closed client pass over keys without a word, so all of them are re-linked if the client still has a command left |
| Storage.RedisStorage.Walk | storage.go:812-850 | on any database the walk removes entries below its directory and does nothing else, and goes through exactly when directory links lead to no string; where no check depends on an earlier step it removes exactly the entries whose key did not exist |
| Storage.RedisStorage.Repair | storage.go:764-853 | for any batching that covers all keys, with keys of other prefixes among them, a Repair that is not cut off is one pass; outside the own tree it adds exactly the links of the keys it re-links |
| Storage.HarmlessPrefixScansAll | storage.go:776-776 | under a prefix without brackets and backslashes a SCAN that returns all matching keys returns every own one |
| ScanPattern.HarmlessCoversOwn | storage.go:776-776 | such a prefix followed by a star matches every key that starts with it |
| ScanPattern.LiteralCoversExactly | storage.go:776-776 | a prefix without any special character matches exactly those |
| ScanPattern.BracketMissesOwn | storage.go:776-776 | the accepted prefix "ca[dd]y" matches none of its own keys |
| Paths.SplitRender | storage.go:955-966 | splitting the string of a path gives its segments back |
| Paths.RenderSplit | caddyfile.go:392-404 | joining the segments of any string gives the string back, and no segment holds a slash |
| Paths.RenderInjective | storage.go:859-861 | different clean paths are different Redis keys |
| Paths.JoinRender | storage.go:859-861 | path.Join of clean paths joins their segments |
| Paths.SplitDirectoryKeyOnSegments | storage.go:955-966 | splitDirectoryKey takes off the last segment, gets strictly shorter, and returns "." exactly for a single segment |
| Paths.MemberRoundTrip | storage.go:562-566 | the trailing slash tells directory members from file members and comes off again |
| Paths.PrefixRoundTrip | storage.go:855-861 | prefixKey and trimKey undo each other on clean keys |
| Paths.ForeignKeyResolvesElsewhere | storage.go:776-793 | a key of another prefix that the SCAN pattern also matches is looked up under a different name below the own prefix |
| Paths.NormalizedPrefixIsClean | caddyfile.go:392-404 | an accepted prefix is empty or the string of a path without empty, "." or ".." segments |
| Paths.NormalizeTwiceIff | caddyfile.go:392-404 | normalising again changes nothing exactly when no space stands next to the outer slashes |
| Paths.NormalizeTwiceExample | caddyfile.go:392-404 | "/ caddy /" becomes " caddy " and only then "caddy" |
| CertificateRoot.AtMostTenEvents | certificate_reporter.go:353-428 | over its whole life a root creates at most 10 events and makes at most 30 delivery attempts, at most three per event, each resending that event |
| CertificateRoot.EventShapes | certificate_reporter.go:359-427 | the first event is a mismatch without report ID and nonce, all later ones carry the one acceptance, verifications come only after acceptance, the times of the probes strictly increase |
| CertificateRoot.ObservationTimesIncrease | certificate_reporter.go:374-388 | the observation times of the events strictly increase, the birth of the root being that of the first |
| CertificateRoot.ExpiryChangesOnce | certificate_reporter.go:407-427 | over any part of a life the expiry only falls, only with the first acceptance, and the acceptance stays |
| CertificateRoot.ExpiryBound | certificate_reporter.go:353-428 | the expiry never exceeds birth plus five minutes, and differs from it only by the acceptance's own expiry |
| CertificateRoot.CertificateWork.Handle | certificate_reporter.go:353-428 | the method that updates the fields of a root makes exactly the turn, and posts exactly the event, that the results on lives are about |
| RootHistory.RootReportsItsProbes | certificate_reporter.go:359-427 | over every life, each event reports the probe of the call that created it: a verification if and only if that probe found the certificate valid, with the probe's result, time and UUID and the candidate's hostname and issuer; a mismatch has exactly the candidate's three hashes and no served leaf, a verification the served leaf and no hash; between two attempts the event stays the same if and only if the answer was a transport or body error, 429 or 503, and moves to the next one if and only if it was the root's acceptance, in its window; no attempt follows any other answer |
| RootHistory.CallCreates | certificate_reporter.go:359-400 | a call creates an event if and only if the root is unexpired and has none pending, the probe has a result that is reportable (any but valid, or any once there is an acceptance), its second is later than that of the last event, and a UUID could be made |
| RootHistory.CallPosts | certificate_reporter.go:401-473 | a call that posts sends the pending event, else the one it created; an acceptance that expires after now and within five minutes and ten seconds and equals the earlier one makes the next probe due in thirty seconds; a transient failure before the third attempt, with the retry due before the expiry, keeps the same event pending for it; after every other answer the root ends |
| RootHistory.CallWithoutPost | certificate_reporter.go:353-376 | a call that posts nothing changes only the due time and ends the root, unless an accepted root was probed without result (thirty seconds) or within the second of the last event (one second) |
| CertificateQueue.StepKeeps | certificate_reporter.go:257-352 | every critical section of every worker and caller keeps the queue invariant |
| CertificateQueue.NoRootHasTwoWorkers | certificate_reporter.go:257-352 | in every reachable state at most 256 roots and 1024 dedupe entries, no root with two workers, every busy worker's root in the table under its hostname |
| CertificateQueue.BusyRootStays | certificate_reporter.go:335-343 | only a worker's own completion takes its root out of the table, and that completion touches no other root |
| CertificateQueue.DedupeForgetsOnlyUnderLoad | certificate_reporter.go:271-301 | a fingerprint accepted twice within five minutes has at least 1024 distinct others accepted from the instant of the first up to the second |
| CertificateQueue.NothingAfterStop | certificate_reporter.go:523-533 | after stop both tables stay empty for ever and no worker runs, also when the cancellation lands inside a TryEnqueue |
| CertificateQueue.CertificateReporterState.Prune | certificate_reporter.go:296-307 | the two deletion loops remove exactly the expired dedupe entries and the expired roots that are not busy |
| CertificateQueue.CertificateReporterState.Oldest | certificate_reporter.go:278-286 | the scan over the map, in any order, finds an entry with the earliest expiry |
| CertificateQueue.CertificateReporterState.TryEnqueue | certificate_reporter.go:257-295 | a candidate is admitted if and only if it is valid, the state is not cancelled, no busy or unexpired root has its hostname, the candidate is not held, and fewer than 256 roots are kept; then its root is in the table, due at this instant, for five minutes, not busy, without event or acceptance, and a worker's selection at this instant has an eligible root; every other root that has not expired is as it was; the candidate is held for five minutes; at most one other held candidate goes, the one that expires first of 1024; a refusal is counted as dropped |
| CertificateQueue.EnqueueEnters | certificate_reporter.go:270-294 | the same of the admission step of the transition system, for every victim that step allows |
| CertificateQueue.CertificateReporterState.Select | certificate_reporter.go:316-328 | after pruning, an eligible root with the earliest due time is marked busy, or there is none |
| CertificateQueue.CertificateReporterState.Complete | certificate_reporter.go:335-343 | the critical section after process is the Finish step of the transition system |
| ReporterRegistry.OnePoolRuns | certificate_reporter.go:97-163 | for every sequence of Starts and Stops over any number of instances at most one pool runs, there is an active one exactly when the registry is not empty, and reference counts equal the unreleased holders |
| ReporterRegistry.StoppedNeverRestarts | certificate_reporter.go:245-256 | a stopped pool never runs and is never registered again |
| ReporterRegistry.CertificateReporters.Start | certificate_reporter.go:97-121 | Start is the start step of the transition system and keeps the registry invariant |
| ReporterRegistry.CertificateReporters.Drop | certificate_reporter.go:145-162 | the part of Stop under the registry mutex is a drop step, with any remaining pool taking over |
| ReporterRegistry.CertificateReporters.Stop | certificate_reporter.go:133-163 | an instance is released once, however often Stop is called; every other instance stays as it was and every pool keeps its other holders; a pool is cancelled and unregistered if and only if this instance was its last holder; a running pool that is still held runs on, no other pool starts unless the active one lost its last holder, and while any pool is held one of the held ones runs |
| Codec.DecryptMeetsSpec | crypto.go:54-68 | decrypt returns exactly what its specification says: the encryption key decides, the earliest other key that opens the value counts after a failed authentication only, and otherwise the first error stays |
| Codec.StorageKeys.DecryptValue | crypto.go:54-68 | the loop with its early return meets that specification |
| Codec.DecryptSealed | crypto.go:54-92 | a sealed text is recovered exactly when the reader tries its key, with the stated error otherwise |
| Codec.LoadAfterStoreIff | storage.go:383-481 | for any settings on both sides, Load after Store returns the original bytes exactly when the reader tries the writer's key and the value was stored uncompressed or has at most 4 MiB, and a larger one is refused as too large |
| Codec.OnlyWholeStreamsLoad | compression.go:42-84 | Load of a compressed record returns all bytes of an intact stream of at most 4 MiB and nothing else; a stream longer than that is too large, a damaged one that breaks off before is corrupt; flag 2 is read as zlib, every other one as DEFLATE |
| Codec.FlagNamesAlgorithm | storage.go:383-424 | Store writes flag 1 exactly for a value that DEFLATE, and 2 for one that zlib, is set to compress and makes shorter, with that text as the body, and 0 with the value itself otherwise |
| Codec.KeptContents | caddyfile.go:364-374 | the kept keys are exactly the listed ones without the encryption key, none twice |
| Codec.DroppingDuplicatesIsSafe | caddyfile.go:355-378 | dropping duplicates never changes what decrypt returns, for any text |
| Codec.StorageKeys.FinalizeDecryptionKeys | caddyfile.go:355-378 | the list is accepted whole, cut to the first 32 bytes and without duplicates, or refused with the first short entry and left as it was; other keys without an encryption key are refused |
| KeyRotation.StepKeeps | README.md:259-264 | every write, removal, phase change and re-encryption keeps the invariant of the procedure |
| KeyRotation.EveryServerAlwaysLoads | README.md:259-264 | at every moment of every run over any number of servers, the stored names are exactly those whose last Write or Remove in the sequence of actions is a Write, or that were there from the start without one, and every server loads the bytes of that Write, also those from before any key was set (within the 4 MiB bound of compressed values) |
| KeyRotation.AdvanceRaisesOne | README.md:259-264 | an action raises the phase of one server by one, the one it names, and only if all servers have reached that server's phase and, before the last, everything is re-encrypted |
| KeyRotation.RotationCanBeFinished | README.md:259-264 | from every state of every run the operator can still bring all servers to the new key alone, by phase changes and re-encryption only |
| KeyRotation.FinishedRotationIsAStart | README.md:259-264 | once any server has dropped the old key no record needs it, and the state is a start for the next rotation |
| KeyRotation.SkippedPhaseBreaksReads | README.md:259-264 | for any two phases, what a server of one writes a server of the other reads, except across the two pairs that the waiting and the re-encryption keep apart |
| LockTiming.HeldLockIsExclusive | storage.go:611-756 | with obtain lag plus refresh lag below two seconds and no failed refresh, in every run every caller inside has a live entry until its Unlock, there is one inside at most, and Unlock finds its own handle |
| LockTiming.UnlockFreesTheLock | storage.go:715-756 | the Unlock of a holder in any such run ends its refresh loop, and whatever happens until its release reaches the server the lock is free at that instant, so that the next Obtain gets it |
| LockTiming.ExclusiveIffLagsBelowTwoSeconds | storage.go:63-70 | two seconds are exact: exclusion holds in all fault-free runs if and only if the lags together stay below |
| LockTiming.FailedRefreshLosesTheLock | storage.go:630-658 | with a refresh lag of at most one second, after a refresh without effect the lock is gone before the retry is due, and the retry ends the refresh loop |
| LockTiming.RetriesFailIffLagAtMostOneSecond | storage.go:630-658 | one second is exact: the retry ends the refresh loop in every run if and only if a refresh lags one second at most |
| LockTiming.OneFailureBreaksExclusion | storage.go:630-658 | however small the lags, one failed refresh allows a run with two holders |
| LockTiming.UnlockTakesOthersHandle | storage.go:715-745 | an Unlock that finds the handle of another caller of its process ends that caller's refresh loop and releases its live entry while it is still inside |
| LockTiming.LostLockSpreads | storage.go:715-745 | a run in which this lets a third caller in beside a caller none of whose refreshes failed |
| LockTiming.AbandonedLockIsFreed | storage.go:715-756 | a lock whose refresh loops have all ended is free five seconds after the last refresh on its way can have landed, whatever happens meanwhile, also while a former holder believes to hold it |
| CertificateObserver.ObserverMeetsSpec | certificate_observer.go:83-135 | for every sequence of loads in scope the emitted candidates are those of the specification: first 16 loads, first four issuers, first certificate with first key in either order, emitted if both fingerprints exist and differ |
| CertificateObserver.OncePerIssuer | certificate_observer.go:83-135 | no two emitted candidates have the same issuer |
| CertificateObserver.CandidateContents | certificate_observer.go:105-134 | every emitted candidate has the hostname, the two storage keys of its issuer as strings, the fingerprints of the first certificate and of the first key loaded for its issuer, each in its own field, both present and different |
| CertificateObserver.ScopeAsStrings | certificate_observer.go:87-94 | a load counts as the certificate or the key of an issuer if and only if its storage key is the string `certificates/<issuer>/<hostname>/<hostname>.crt` or `.key` and the issuer is well formed |
| CertificateObserver.Observing.Observe | certificate_observer.go:83-135 | after any sequence of raw loads, in scope or not, the sink has received exactly the candidates of the specification over those in scope |

## Left out

- Building Redis clients, TLS options, Sentinel and cluster setup, ping (storage.go:255-381): network plumbing; a redial is an input.
- Scores and timestamps: they only order what `List` returns and fill `Stat`.
- JSON of the stored record: a record is a value; a string that does not decode is `Foreign`.
- `Exists` and `Stat`: one command each.
- More than one Store and one Delete interleaved with each other: `Race` is about one of each, `Concurrent` and `ConcurrentDelete` about any number of one kind.
- Storage.RedisStorage.Walk: which entries go is stated where a directory that shares its name with a file entry is empty; elsewhere it depends on the order of the entries, and only the removal of entries and the success are stated.
- Storage.RedisStorage.Repair: starts at the root; a call on a subdirectory is the walk alone. Unclean keys among those SCAN returns, and a key of another prefix below a string, which makes the whole call fail, are outside the stated domain. The database does not change under it.
- Storage.RedisStorage.Store: the encoding of the value is the subject of `Codec`, so the record's bytes are a parameter here.
- HTTP transport, JSON of acceptances, hostname and hash format checks, TLS probing (certificate_reporter.go:429-517, certificate_probe.go): each is one input of a step; what process makes of the answer is modelled.
- CertificateQueue.CertificateReporterState.TryEnqueue: a caller that finds the mutex taken is refused at once and touches no table; that case is no step of the model. Hashing of fingerprints is taken to be injective.
- ReporterRegistry.OnePoolRuns: the configuration of an instance, and with it its identity, does not change during its life.
- Counters, wake-up channel and diagnostics of the reporter: they do not influence the tables.
- `ConfirmingSink` (certificate_probe.go:94-135): an older helper that the reporter does not use.
- Fingerprints, PEM, X.509 and ASN.1 parsing: functions of the observer's configuration.
- Internals of DEFLATE, zlib and AES-GCM: functions with laws; that a text opens under no other key is assumed for the keys in use.
- Codec.StorageKeys.FinalizeDecryptionKeys: placeholder expansion is a parameter.
- KeyRotation.EveryServerAlwaysLoads: re-encryption of one record is one step; a write between its read and its write is not modelled.
- LockTiming.HeldLockIsExclusive: one lock name; the one-shot client of `tryObtainLock` is a lag; the entry is gone at the instant of its expiry.
- ScanPattern.HarmlessCoversOwn: some prefixes with brackets or backslashes cover their own keys as well; which ones is not characterised.
- Caddyfile parsing, configuration checks, metrics, logging and redaction: single branches or input and output.
