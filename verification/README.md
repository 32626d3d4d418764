# WsgiDAV: locks, tree operations and stream handling, modelled and proved

This project models the parts of WsgiDAV that carry its guarantees and proves them in Dafny.
`dafny verify dfyconfig.toml` checks everything.

| file | models |
|---|---|
| `RwLock.dfy` | the read-write lock: every stretch under its mutex is one step of a state machine over any number of threads; the class is proved against the step function |
| `Wrappers.dfy`, `Sequences.dfy`, `Bytes.dfy` | what several modules share |
| `Uri.dfy`, `PathStrings.dfy`, `CopyPaths.dfy` | the URI helpers on strings, and what their string tests mean for the segments of a path |
| `LockStorage.dfy` | `LockStorageDict`: the table of locks, the inverted index by URL, purging scans |
| `LockManager.dfy`, `LockRuns.dfy` | who may lock and who may write; what every run of lock operations keeps |
| `Descendants.dfy` | `get_descendants` |
| `Providers.dfy` | an abstract provider: a finite tree of resources whose single operations may fail |
| `DeleteRequests.dfy` | DELETE, file by file |
| `CopyMove.dfy`, `CopyMoveRequests.dfy` | COPY and MOVE, file by file, for every pattern of failures |
| `CopyMoveLaws.dfy` | what COPY and MOVE keep and what they lose |
| `IfHeader.dfy`, `IfHeaderSyntax.dfy` | reading and evaluating the `If` header |
| `Ranges.dfy`, `Consolidation.dfy`, `Streaming.dfy` | byte ranges, when the consolidated ones are disjoint, and the streaming loop |
| `FileQueue.dfy` | `FileLikeQueue` with a reader and any number of writers |
| `Properties.dfy`, `Proppatch.dfy` | the property manager, PROPPATCH |

Clients, clocks, threads and failures are parameters: an operation takes the time it reads, the
resources whose single operation fails, the order in which a dictionary is met, the thread that
moves next. The theorems hold for all of them.

## Where the code does not keep what is promised

Each is stated as it is, with a run or an input that shows it, and with the exact condition
under which the promise holds.

- A writer (or upgrader) whose `acquire_write` times out leaves without telling anyone
  (`RwLock.TimeOutCanLoseAWakeUp`; exactly these departures lose wake-ups, `RwLock.WakeUpsOfARun`).
  Even so, a lock nobody holds is always passed on (`RwLock.FreeLockIsPassedOn`).
- `get_lock_list` goes over a list that purging shortens. With the in-memory dictionary a token
  is passed over exactly if an odd number of expired ones stands directly before it
  (`LockStorage.VisitedIff`). So an exclusive lock can be granted beside a live shared one
  (`LockRuns.SharedListsBreakCompatibility`; exactly when such a lock clashes,
  `LockRuns.GrantKeepsCompatibleIff`), a write permitted against an exclusive lock, and that
  lock left behind by `remove_all_locks_from_url` (`LockRuns.SharedListsPermitTooMuch`; exactly
  when such a lock forbids the write, `LockRuns.WritePermissionIff`, and when a token of the list
  other than its last has expired, `LockManager.RemovalIsCompleteIff`). The storage is modelled
  both ways, by the constant `shared` of the class: with lists that are copies, as `shelve` hands
  them out, the guarantees hold in every run. There, a purge during the scan of the keys can
  raise a KeyError instead.
- The walk from a URL to its parents never ends on a non-empty URL without a leading slash
  (`Uri.WalkEndsIff`), and the assertion about member locks fails on doubled leading slashes
  (`LockManager.ChildAssertionHolds`).
- DELETE recognises the parent of a failed resource only if the provider ends the path of that
  collection with a slash; `join_uri` does not. Otherwise, or if a member is named by white space
  so that its path looks like the root, the collection is deleted with the failed resource in it
  (`DeleteRequests.DeleteIsSafeIff`, `DeleteRequests.JoinedPathsAreUnsafe`).
- COPY and MOVE are accepted onto a collection that contains the source
  (`CopyMoveLaws.UpwardInput`). A MOVE, or a COPY of a document, then deletes that collection
  with the source in it before anything is copied; a COPY of a collection deletes the source in
  the clean-up unless it is matched itself (`CopyMove.UpwardCleanUpIff`), and some of it always.
  A COPY leaves the source as it was if and only if the destination does not contain it
  (`CopyMoveLaws.CopyKeepsSourceIff`).
- A source path with two slashes at its end sends members to shorter places
  (`CopyPaths.TargetsAreParallelIff`), where they can meet and lose one another
  (`CopyMoveLaws.CollidingInput`). Without failures a MOVE loses nothing if and only if the path
  ends in one slash at most, or there are no members, and the destination does not contain the
  source (`CopyMoveLaws.MoveWithoutFailuresIff`).
- MOVE removes collections below one that could not be copied. Besides, nothing is lost if and
  only if those removals fail too (`CopyMoveLaws.MoveConservesIff`; for all failing removals,
  `CopyMoveLaws.MoveIsSafeIff`).
- The removal of the source in a MOVE does not take note of its own failures and can delete a
  collection before its members (`CopyMoveLaws.RemovedTooEarlyIff`,
  `CopyMoveLaws.NeverTooEarlyIff`).
- COPY calls `copy_move_single` with a document and a collection, which its interface excludes
  (`CopyMoveLaws.CrossingInput`), if and only if paths do not show the kinds and they differ at
  equal places (`CopyMoveLaws.NeverCrossesIff`). What the store is after that is left open.
- A destination below the source is refused if and only if it writes the source with the same
  slashes (`CopyPaths.BelowItselfIff`): "/a//b/c" is not refused below "/a/b"
  (`CopyPaths.DoubledSlashPasses`).
- "5-3" as a byte range is read as the suffix "-3" (`Ranges.ReversedRangeIsSuffix`); a specifier
  is read as written if and only if its positions are in order, or the second is 0
  (`Ranges.ReadAsWrittenIff`). "0-3,-0" is answered with an empty body
  (`Ranges.EmptySuffixIsServed`), as is any request with an empty suffix that does not ask for the
  last byte, and no other (`Ranges.ServesNothingIff`). A range inside a larger one can survive
  consolidation (`Ranges.NestedRangeSurvives`): the parts are disjoint, and the total is the
  number of bytes asked for, if and only if no gap between neighbours of the sorted list is
  bridged by an earlier range (`Consolidation.DisjointIff`, `Consolidation.RequestTotalIff`). Of
  several ranges the last one is served, not the first (`Ranges.ServedPartIsTheLast`).
- `FileLikeQueue.read` can report the end of the stream with a chunk still queued
  (`FileQueue.EndOfStreamTooEarly`; exactly if something was put since its time-out,
  `FileQueue.EndOfStream`).
- `move_properties` rewrites every occurrence of the source in a key
  (`Properties.LaterOccurrenceIsRewritten`; a key is re-rooted if and only if there is one only,
  `Properties.ReplacePrefixIff`, and a table by `Properties.MoveIsRenamingIff`), and loses entries
  when keys collide (`Properties.NeverLosesIff`, `Properties.SlashMismatchLoses`). Without
  children it loses those of a resource moved onto itself (`Properties.MovedOntoItself`).
  `copy_properties` from a resource without properties leaves those of an overwritten one
  (`Properties.OldPropertiesStay`, `Properties.CopyCarriesIff`).
- PROPPATCH applies some updates and fails others when a time stamp passes the dry run and is
  refused in the real one (`Proppatch.RefusedTimeStampSplits`, `Proppatch.AllOrNothingIff`).
- Conditions of an `If` header that are printed without white space between them are read as
  one, weak entity tags keep their mark, and delimiters at the ends of a value are dropped
  (`IfHeaderSyntax.MisreadInputs`). A header reads back as it is meant if and only if it has none
  of these (`IfHeaderSyntax.TaggedRoundTrip`).

Where the documentation differs from the code, the model follows the code: `FileLikeQueue.read`
is documented to return nothing at once after `close`, but first hands out what is left
(`FileQueue.FileLikeQueue.ReadClosed`); `handle_copy` and `handle_move` describe the copy loop
as bottom-up, but it goes top-down; `is_url_locked_by_token` does not look at the depth of the
lock; a lock request of depth infinity is refused for every lock below, where exclusive ones are
named (`LockRuns.InTheWayByPlace`); the comment on several byte ranges speaks of the first one.

## Model

| member | source | states |
|---|---|---|
| RwLock.NextKeepsInv | wsgidav/rw_lock.py:79-226 | every step of every thread, timeouts included, keeps the bookkeeping: counts, queue and upgrade slot agree with who waits for what |
| RwLock.Exclusion | wsgidav/rw_lock.py:79-226 | in every reachable state a writer excludes every other holder; the upgrade count is non-zero exactly while one thread waits to upgrade; the pending list is duplicate-free and is the set of waiting writers, so its head exists when it is read |
| RwLock.DepthIsConserved | wsgidav/rw_lock.py:79-226 | in every run the depth a thread holds (read, parked while upgrading, or write) is its successful acquires minus its releases |
| RwLock.BalancedCallsFreeTheLock | wsgidav/rw_lock.py:197-226 | when every thread has released what it acquired, nobody holds the lock |
| RwLock.ReleaseSpec | wsgidav/rw_lock.py:197-226 | a release succeeds if and only if the thread holds the lock, as writer or reader, and takes one off its depth; else it is an error and nothing changes; no other thread's depth changes |
| RwLock.LastReleaseFrees | wsgidav/rw_lock.py:206-222 | when the last holder releases for the last time the lock is free and every waiting thread is woken |
| RwLock.OnlyReleaseWakes | wsgidav/rw_lock.py:206-222 | another thread is woken if and only if a release gives up the last depth and leaves the lock free, and nobody else's waiting changes |
| RwLock.ReadCallSpec | wsgidav/rw_lock.py:65-110 | a read is granted at once if and only if the thread holds the lock, or there is no writer and nobody waits to write or upgrade; else the thread waits as a reader, or times out |
| RwLock.WriteCallSpec | wsgidav/rw_lock.py:112-195 | a write is granted at once if and only if the thread is the writer, the only reader while nobody upgrades, or the lock is free and no writer waits; it is an error if and only if a reader asks while another upgrades; else the thread waits, as upgrader if it reads |
| RwLock.ResumeSpec | wsgidav/rw_lock.py:84-190 | a turn after the wait that grants nothing times out or waits on; an upgrader that gives up has its read depth back |
| RwLock.GrantableIsGranted | wsgidav/rw_lock.py:84-108 | the declarative grant condition decides the next turn of a woken thread |
| RwLock.WakeUpStep | wsgidav/rw_lock.py:172-226 | a step loses a wake-up if and only if it is the unannounced departure of a timed-out writer or upgrader that made another thread grantable |
| RwLock.WakeUpsOfARun | wsgidav/rw_lock.py:172-226 | a run keeps all wake-ups if and only if none of its steps is such a departure |
| RwLock.NoLostWakeUpWithoutTimeOuts | wsgidav/rw_lock.py:84-226 | in every run without timeouts a waiting thread that could be granted has been woken |
| RwLock.TimeOutCanLoseAWakeUp | wsgidav/rw_lock.py:172-190 | a run of four steps after which a reader that could go on was not told |
| RwLock.FreeLockIsPassedOn | wsgidav/rw_lock.py:84-226 | in every run, timeouts included: when nobody holds the lock and someone waits, a waiting thread is both woken and grantable |
| RwLock.UpgradeIsUninterrupted | wsgidav/rw_lock.py:134-185 | from the request to upgrade to its grant or timeout no other thread becomes writer or new reader |
| RwLock.WritersGoFirst | wsgidav/rw_lock.py:84-100 | a thread that holds nothing is never granted a read while a writer or upgrader waits |
| RwLock.WritersAreServedInOrder | wsgidav/rw_lock.py:145-190 | in every run, timeouts included, the writers are granted in the order in which they queued, without those who gave up |
| RwLock.WithoutTimeOutsAllAreKept | wsgidav/rw_lock.py:172-190 | without timeouts nobody leaves the queue but by a grant |
| RwLock.ReadWriteLock.AcquireReadLock | wsgidav/rw_lock.py:65-110 | the method body, up to return or wait, is the step that `ReadCallSpec` describes |
| RwLock.ReadWriteLock.AcquireWriteLock | wsgidav/rw_lock.py:112-195 | the method body, up to return or wait, is the step that `WriteCallSpec` describes |
| RwLock.ReadWriteLock.ResumeWaiter | wsgidav/rw_lock.py:106-108 | a turn of the loop after `wait` is the step of the state machine |
| RwLock.ReadWriteLock.ReleaseLock | wsgidav/rw_lock.py:197-226 | release, with its notification, is the step that `ReleaseSpec`, `LastReleaseFrees` and `OnlyReleaseWakes` describe |
| Uri.ParentSpec | wsgidav/util.py:1023-1031 | the parent of a URL is the URL without its last segment, whatever slashes stand around |
| Uri.ChildTestSpec | wsgidav/util.py:1034-1045 | on all strings the test for children is the prefix test, up to a slash, on the paths without slashes at their ends, between URLs with equally many leading slashes |
| Uri.NormalizeIsNormal | wsgidav/lock_man/lock_manager.py:66-71 | a lock root is one slash and a trimmed path |
| Uri.NormalIsFixed | wsgidav/lock_man/lock_manager.py:66-71 | normalizing twice is normalizing once |
| Uri.WalkVisitsAncestors | wsgidav/lock_man/lock_manager.py:288-311 | the walk `u = get_uri_parent(u)` visits a lock root if and only if it is the URL's own or an ancestor's |
| Uri.WalkEndsIff | wsgidav/util.py:1023-1031 | the walk terminates if and only if the URL is empty or starts with a slash |
| LockStorage.ScanListSpec | wsgidav/lock_man/lock_storage.py:285-332 | a scan of one list purges exactly the expired tokens it meets and reports exactly the live ones |
| LockStorage.VisitedIff | wsgidav/lock_man/lock_storage.py:307-316 | the scan of a list that its purges shorten meets a token if and only if an even number of expired ones stands directly before it |
| LockStorage.MetWholeIff | wsgidav/lock_man/lock_storage.py:307-316 | it meets all tokens if and only if none but the last has expired |
| LockStorage.KeyScanIsChildScan | wsgidav/lock_man/lock_storage.py:326-329 | the prefix scan over dictionary keys finds exactly the entries of strict descendants |
| LockStorage.TokensAreNoUrls | wsgidav/lock_man/lock_storage.py:326-329 | the entries of the locks in the same dictionary are never taken for URLs |
| LockStorage.AddKeepsValid | wsgidav/lock_man/lock_storage.py:162-222 | storing a lock under a fresh token keeps index and table in agreement |
| LockStorage.PurgeKeepsValid | wsgidav/lock_man/lock_storage.py:254-283 | removing locks with their index entries, and the lists they empty, keeps index and table in agreement |
| LockStorage.LockStorage.Create | wsgidav/lock_man/lock_storage.py:162-222 | adds exactly one lock with a clamped timeout, or fails an assertion and changes nothing |
| LockStorage.LockStorage.Refresh | wsgidav/lock_man/lock_storage.py:224-252 | sets the expiry of one stored lock, live or expired, or fails an assertion and changes nothing |
| LockStorage.LockStorage.Delete | wsgidav/lock_man/lock_storage.py:254-283 | removes the lock, its token from its list, and the list if that empties it |
| LockStorage.LockStorage.Get | wsgidav/lock_man/lock_storage.py:133-160 | returns a live lock; an expired one is deleted |
| LockStorage.LockStorage.AppendLocks | wsgidav/lock_man/lock_storage.py:307-316 | the loop over a list that its own deletions may shorten is the scan of the specification |
| LockStorage.LockStorage.AppendChildLocks | wsgidav/lock_man/lock_storage.py:326-329 | the loop over all keys, in any order, reports exactly the live locks strictly below, or raises after a purge: always in a shared dictionary, on a shelf when it comes to a lock that is gone |
| LockStorage.LockStorage.GetLockList | wsgidav/lock_man/lock_storage.py:285-334 | which locks are reported, which purged, and when the scan raises |
| LockManager.WalkDenies | wsgidav/lock_man/lock_manager.py:382-400 | the string tests on the way up deny exactly for the locks that cover the path in the sense of section 6.1 of RFC 4918 |
| LockManager.ChildAssertionHolds | wsgidav/lock_man/lock_manager.py:480-489 | the assertion on member locks holds if and only if the URL has one leading slash (or is the root) |
| LockManager.LockManager.CheckUrl | wsgidav/lock_man/lock_manager.py:332-498 | both permission checks: verdict and purges are the declarative outcome, wherever the walk meets no list twice or lists are copies |
| LockManager.LockManager.CheckLockPermission | wsgidav/lock_man/lock_manager.py:332-418 | the verdict on a new lock, which `LockRuns.InTheWayByPlace` gives by place; the assertion on members cannot fail for a normalized URL |
| LockManager.LockManager.CheckWritePermission | wsgidav/lock_man/lock_manager.py:420-498 | the verdict on a write and the purges, with one leading slash or copied lists |
| LockManager.LockManager.Acquire | wsgidav/lock_man/lock_manager.py:209-237 | grants, refuses or rejects, as `LockRuns.RefusedIff` says, with the table after it; a grant stores the new lock and nothing else |
| LockManager.LockManager.Refresh | wsgidav/lock_man/lock_manager.py:239-243 | the table with one lock's expiry moved, or unchanged |
| LockManager.LockManager.Release | wsgidav/lock_man/lock_manager.py:269-271 | the table without the lock |
| LockManager.LockManager.IsUrlLockedByToken | wsgidav/lock_man/lock_manager.py:318-321 | true exactly if a live lock with the token is rooted at the URL or above it by the string test, and with one leading slash in fact, whatever its depth |
| LockManager.LockManager.GetIndirectUrlLockList | wsgidav/lock_man/lock_manager.py:288-311 | reports exactly the live locks that cover the URL (on shared lists, those the scans meet), of the principal if one is given |
| LockManager.LockManager.RemoveAllLocksFromUrl | wsgidav/lock_man/lock_manager.py:323-330 | removes exactly the locks that the scan of the URL's list meets and, if recursive, all below; when the scan raises, expired locks only |
| LockManager.RemovalIsCompleteIff | wsgidav/lock_man/lock_manager.py:323-330 | all locks of the URL go if and only if lists are copies or no token of its list but the last has expired |
| LockRuns.RemovalRaisesOnlyBelow | wsgidav/lock_man/lock_manager.py:323-330 | a removal raises only if it is recursive and a lock below has expired, and in a shared dictionary whenever that is so |
| LockRuns.GrantKeepsCompatibleIff | wsgidav/lock_man/lock_manager.py:209-237 | a granted lock leaves overlapping locks compatible if and only if no lock at or above it with an odd number of expired ones directly before it clashes with it |
| LockRuns.CopiedGrantKeepsCompatible | wsgidav/lock_man/lock_manager.py:332-418 | with copied lists a grant always keeps the table compatible, expired locks included |
| LockRuns.RefusedIff | wsgidav/lock_man/lock_manager.py:332-418 | a lock request that does not raise is refused if and only if a live lock that the scans meet clashes with the new one, or the request has depth infinity and any live lock stands strictly below; it names exactly the roots of these; otherwise it is granted unless the timeout is 0 |
| LockRuns.InTheWayByPlace | wsgidav/lock_man/lock_manager.py:382-416 | by place: at the same root only unshared locks are in the way, above it only unshared ones of depth infinity, below it all if the request has depth infinity, elsewhere none |
| LockRuns.RaisesOnlyBelow | wsgidav/lock_man/lock_storage.py:318-332 | a check raises only if it goes over the members and one of their locks has expired, and in a shared dictionary whenever that is so |
| LockRuns.GrantedLife | wsgidav/lock_man/lock_storage.py:190-199 | a granted lock is the one asked for and lives for the seconds asked for, four weeks at most or if infinite, a week if none are given |
| LockRuns.RefreshedLife | wsgidav/lock_man/lock_storage.py:224-252 | and so does a refreshed one, from then on |
| LockRuns.SharedListsGrantTooMuch | wsgidav/lock_man/lock_storage.py:307-311 | behind an expired lock in a shared list, an exclusive lock is granted beside a live shared one |
| LockRuns.WritePermissionIff | wsgidav/lock_man/lock_manager.py:420-498 | on both kinds of list: every live lock covering the URL is the principal's and submitted and, for depth infinity, none lies strictly below, if and only if the write is permitted and no lock with an odd number of expired ones directly before it forbids it |
| LockRuns.WritePermissionIsExact | wsgidav/lock_man/lock_manager.py:420-498 | on copied lists the write is permitted if and only if that rule holds |
| LockRuns.RefusedWriteNames | wsgidav/lock_man/lock_manager.py:420-498 | a write that does not raise is permitted if and only if no live lock met covers the URL without being the client's own and submitted and, for depth infinity, none stands below; a refused one names exactly the roots of these |
| LockRuns.ForbiddingByPlace | wsgidav/lock_man/lock_manager.py:455-497 | by place: at the URL a lock forbids unless it is the client's own and submitted, above it the same for those of depth infinity, below it all for a write of depth infinity, elsewhere none |
| LockRuns.OwnLocksPermit | wsgidav/lock_man/lock_manager.py:288-311 | a client may change a resource if and only if all locks reported for it are its own and it submits their tokens |
| LockRuns.ProtectingMeans | wsgidav/lock_man/lock_manager.py:288-311 | a lock is reported for a URL if and only if it is live, met, covers the URL, and is the principal's if one is given |
| LockRuns.ExclusiveKeepsOthersOut | wsgidav/lock_man/lock_manager.py:420-498 | under an exclusive lock that is not passed over two principals are never both permitted |
| LockRuns.SharedListsPermitTooMuch | wsgidav/lock_man/lock_storage.py:307-311 | a run on shared lists after which another client may write against a live exclusive lock, and a removal of all locks leaves that one |
| LockRuns.EveryRunIsValid | wsgidav/lock_man/lock_storage.py:162-334 | in every run on either kind of storage a token is in the list of a path exactly once if and only if a stored lock has that root, no list is empty, no expiry is further off than the maximum |
| LockRuns.EveryRunIsCompatible | wsgidav/lock_man/lock_manager.py:209-330 | in every run of acquire, release, refresh, purging reads, removal and waiting, with copied lists, stored locks whose scopes overlap are both shared (section 9.10.5 of RFC 4918) |
| LockRuns.SharedListsBreakCompatibility | wsgidav/lock_man/lock_storage.py:307-311 | a run on shared lists that ends with two clashing live locks |
| PathStrings.MemberPath | wsgidav/dav_provider.py:1419-1430 | member paths built with `join_uri` are the base and the segments, without a slash at the end |
| PathStrings.EqualOrChildIsPrefix | wsgidav/util.py:1048-1058 | on path strings, with or without slashes at their ends, the string test is the prefix test on segments |
| PathStrings.ParentStringMatches | wsgidav/util.py:1023-1031 | a path string equals the parent string of a resource if and only if it is the parent's and ends in its slash |
| Descendants.GetDescendants | wsgidav/dav_provider.py:467-519 | the recursion computes the listing |
| Descendants.ListingIsExact | wsgidav/dav_provider.py:467-519 | for every tree, depth and kind filter, a resource is listed if and only if it is a wanted descendant (or the resource itself, if asked) |
| Descendants.ListingIsOrdered | wsgidav/dav_provider.py:467-519 | nothing is listed twice; containers come before their contents, or after them when depth first |
| Providers.DescendantsAreListed | wsgidav/dav_provider.py:467-519 | the descendants of a resource are the provider's resources at and below it, ordered |
| Providers.Provider.Delete | wsgidav/dav_provider.py:1003-1031 | a recursive delete; records calls on collections that still have members |
| Providers.Provider.CopyMoveSingle | wsgidav/dav_provider.py:1074-1111 | copies one resource; records copies onto the other kind, which the interface excludes |
| DeleteRequests.HeldStep | wsgidav/request_server.py:643-664 | a resource is kept exactly if its own attempt fails or a kept member is recognised |
| DeleteRequests.IgnoredIff | wsgidav/request_server.py:646-649 | the table look-up by string succeeds if and only if a kept member lies under a path that ends in its slash and is not written like the root |
| DeleteRequests.StillThere | wsgidav/request_server.py:645-660 | no earlier deletion has taken a resource when its turn comes |
| DeleteRequests.DeleteFileByFile | wsgidav/request_server.py:641-664 | for every pattern of failures: which resources remain, which deletions come before their members', which errors are reported in which order |
| DeleteRequests.ReportsIff | wsgidav/request_server.py:645-664 | a path is reported if and only if it is listed, its own attempt fails and no held member was recognised |
| DeleteRequests.ReportedOnce | wsgidav/request_server.py:645-664 | and then once |
| DeleteRequests.MarkedDeleteKeepsFailures | wsgidav/request_server.py:641-664 | with slashes after collections, a resource remains if and only if a failed one lies at or below it; no collection goes before its members; a failure above another is not reported again (section 9.6.1 of RFC 4918) |
| DeleteRequests.DeleteIsSafeIff | wsgidav/request_server.py:641-664 | for all failures no failed resource is deleted, and no collection before its members, if and only if every collection with members is written with its slash and no member like the root |
| DeleteRequests.JoinedPathsAreUnsafe | wsgidav/dav_provider.py:1419-1430 | a member collection written as `join_uri` does, and not empty, can lose a failed member |
| CopyPaths.SegmentsConcat | wsgidav/fs_dav_provider.py:441-452 | the segments a provider looks a path up by are those of its parts |
| CopyPaths.PathStringKey | wsgidav/fs_dav_provider.py:441-452 | a path string is looked up as the requested URL with the segments behind it |
| CopyPaths.TargetsAreParallelIff | wsgidav/request_server.py:1067-1069 | `dest_path + path[src_root_len:]` is the parallel place for every member if and only if the source path ends in at most one slash |
| CopyPaths.BelowItselfIff | wsgidav/request_server.py:937-940 | for all paths with a leading slash, the test against a destination at or below the source is the prefix test on names and on the numbers of slashes before them |
| CopyPaths.SingleSlashesCompare | wsgidav/request_server.py:937-940 | without doubled slashes it is the prefix test on names |
| CopyPaths.DoubledSlashPasses | wsgidav/request_server.py:937-940 | "/a//b/c" passes it against "/a/b" |
| CopyPaths.MatchIff | wsgidav/request_server.py:1003-1010 | the look-up of a destination resource among the source paths succeeds if and only if the source path ends in its slash and both are written alike |
| CopyMove.FoundIffMatched | wsgidav/request_server.py:1003-1010 | the same for whole lists: found if and only if there is a source resource at that place (of that kind, if paths show kinds) |
| CopyMove.RemoveUnmatched | wsgidav/request_server.py:998-1010 | exactly the unmatched resources go, each collection after all its members, unless one of them fails to: then it stays, with all that was to stay |
| CopyMove.CleanUpKeepsIff | wsgidav/request_server.py:998-1010 | below the destination a resource survives the clean-up, unchanged, if and only if the source path ends in one slash and the source has a resource at the same place, of the same kind if paths show kinds |
| CopyMove.UpwardCleanUpIff | wsgidav/request_server.py:990-1010 | copied onto a collection it lies in, the source outlives the clean-up if and only if it is matched itself |
| CopyMove.ParentErrorIff | wsgidav/request_server.py:1054-1064 | a resource is skipped if and only if the copy of a container of it failed |
| CopyMove.CopyAll | wsgidav/request_server.py:1049-1089 | for every pattern of failures: what the copy loop leaves, which paths it notes, which errors it reports in which order, wherever copies land, up to a copy across kinds; with the source gone it changes nothing; onto a container of the source it adds nothing but targets |
| CopyMoveRequests.ChildErrorIff | wsgidav/request_server.py:1100-1106 | the search keeps a collection if and only if a noted error stands at or below it |
| CopyMoveRequests.RemoveSource | wsgidav/request_server.py:1091-1117 | for every pattern of failures: what the removal loop takes away and reports, and which collections it deletes with members left inside |
| CopyMoveRequests.CopyOrMove | wsgidav/request_server.py:975-1121 | for every accepted request and every pattern of failures: when the clean-up aborts it and what that leaves; else whether a copy goes across kinds, and if none does the state after it, the deletes that come too early and the errors; onto a container of the source, what is left |
| CopyMoveRequests.ParallelResult | wsgidav/request_server.py:1067-1077 | with one slash at most at the end of the source path, or without members, each copy is at the place of its source |
| CopyMoveLaws.SuccessIsExact | wsgidav/request_server.py:975-1121 | between separate places, without failures and copies across kinds, the destination equals the source, never merged; a COPY leaves the source, a MOVE nothing of it; the rest is untouched (sections 9.8.4 and 9.9 of RFC 4918) |
| CopyMoveLaws.ResultIsTree | wsgidav/request_server.py:975-1121 | whatever fails, short of a copy across kinds, every resource still stands in a collection |
| CopyMoveLaws.CopiedTopDown | wsgidav/request_server.py:1054-1077 | a resource is copied only if all its containers were |
| CopyMoveLaws.ReportedIff | wsgidav/request_server.py:1049-1117 | a path is reported if and only if its own copy, or the deletion of the document after its copy, fails below no failing copy; in a MOVE the source also if a collection refuses to be removed |
| CopyMoveLaws.CounterpartsStay | wsgidav/request_server.py:990-1010 | a COPY of a collection over a collection keeps what has a counterpart in the source, even where the copy of that fails |
| CopyMoveLaws.OldDestinationIsGone | wsgidav/request_server.py:983-991 | after a MOVE, or where a document is involved, all that stands at the destination has come from the source |
| CopyMoveLaws.NeverCrossesIff | wsgidav/dav_provider.py:1074-1086 | where targets are parallel, `copy_move_single` is never called across kinds if and only if, where paths do not show the kinds, they agree at equal places |
| CopyMoveLaws.CrossingInput | wsgidav/dav_provider.py:1074-1086 | a COPY of "/s/" over "/d/" that calls it with the document "/s/x" and the collection "/d/x" |
| CopyMoveLaws.UpwardInput | wsgidav/request_server.py:937-940 | a document moved, or copied, onto the collection it lies in passes the checks |
| CopyMoveLaws.CopyKeepsSourceIff | wsgidav/request_server.py:937-1089 | whatever fails, a COPY leaves every source resource as it was if and only if the destination does not contain the source |
| CopyMoveLaws.StoppedKeepsSource | wsgidav/request_server.py:983-1010 | a request that an error at the destination aborts has copied nothing and changed nothing but what had to go; between separate places the source is untouched |
| CopyMoveLaws.LandsShorter | wsgidav/request_server.py:1067-1069 | behind two slashes at the end of the source path every member lands at a place with a shorter path than its own |
| CopyMoveLaws.CollidingInput | wsgidav/request_server.py:1067-1069 | "/a//" moved to "/b/": "xyz" and "wyz" land on "/b/yz", and one is lost |
| CopyMoveLaws.MoveWithoutFailuresIff | wsgidav/request_server.py:937-1117 | without failures every source resource is still there or has its copy if and only if the targets are parallel and the destination does not contain the source |
| CopyMoveLaws.MoveConservesIff | wsgidav/request_server.py:937-1117 | where targets are parallel, every source resource is still there or has its copy if and only if the destination does not contain the source and each collection below one that could not be copied refuses to be removed; where members move away, if and only if the targets are parallel, too |
| CopyMoveLaws.MoveIsSafeIff | wsgidav/request_server.py:937-1117 | with given failing copies, nothing is lost for any failing removals if and only if the destination does not contain the source and no failing collection contains a collection and, where a document is copied, the targets are parallel |
| CopyMoveLaws.MoveWithFailingDocuments | wsgidav/request_server.py:937-1117 | if only documents fail to be copied, nothing is lost if and only if the destination does not contain the source and, where members move away, the targets are parallel |
| CopyMoveLaws.KeptForTrouble | wsgidav/request_server.py:937-1110 | everything from the source down to a noted error stays where it was if and only if the destination does not contain the source |
| CopyMoveLaws.RemovedTooEarlyIff | wsgidav/request_server.py:1091-1117 | a MOVE removes a collection with members inside if and only if one of them is a collection that refuses or a document below a failed container |
| CopyMoveLaws.NeverTooEarlyIff | wsgidav/request_server.py:1091-1117 | that happens for no pattern of failures if and only if there is no collection below the source |
| IfHeader.ParseIfHeader | wsgidav/util.py:1657-1707 | the loops build the lists of every resource in order, and all lock tokens |
| IfHeaderSyntax.TaggedRoundTrip | wsgidav/util.py:1651-1707 | a tagged header, printed with any white space, spelling of "Not" and text between its lists, each place its own, reads back as its lists in order if and only if there is white space between the words of every list, no entity tag is weak and no value has a delimiter at its ends |
| IfHeaderSyntax.MisreadInputs | wsgidav/util.py:1684-1696 | a weak tag is read with its mark, one with brackets at its ends without them |
| IfHeaderSyntax.UntaggedRoundTrip | wsgidav/util.py:1668-1707 | an untagged header reads back as lists about "*" under the same condition |
| IfHeaderSyntax.TokenSubmittedIff | wsgidav/util.py:1692-1696 | the submitted tokens are those named in conditions, negated ones included |
| IfHeaderSyntax.NotIsRead | wsgidav/util.py:1684-1697 | "Not <t>", "not <t>" and "NOT <t>" are read as one negated condition, "<t>" as one that is not |
| IfHeaderSyntax.NotSpellings | wsgidav/util.py:1685 | "Not" is recognised in all eight spellings, and nothing else is |
| IfHeaderSyntax.TestIfHeader | wsgidav/util.py:1710-1741 | the loops decide what `TokenDecides`, `TagDecides`, `EachDecides` and `OneListDecides` describe: some list has all its conditions true |
| IfHeaderSyntax.TokenDecides | wsgidav/util.py:1731-1736 | a single lock token passes if and only if it is among the tokens of the resource's locks, after "Not" if and only if it is not |
| IfHeaderSyntax.TagDecides | wsgidav/util.py:1727-1736 | a single entity tag passes if and only if it is the resource's, after "Not" if and only if it is not; it never decides for a resource without entity tags |
| IfHeaderSyntax.EachDecides | wsgidav/util.py:1723-1738 | a list passes if and only if each of its conditions alone does |
| IfHeaderSyntax.OneListDecides | wsgidav/util.py:1713-1741 | lists pass if and only if one of them alone does; a header that is not about the URL always does |
| IfHeaderSyntax.HeaderMeans | wsgidav/util.py:1710-1741 | in terms of the header's syntax: one list for the URL holds, else one for "*", else true (section 10.4 of RFC 4918) |
| Ranges.ConsolidateSpec | wsgidav/util.py:1510-1529 | consolidation keeps the union of positions, every range in the file and every length true |
| Ranges.ServedPartIsTheLast | wsgidav/request_server.py:1543-1547 | the part that is served starts no later than the range that starts last and ends with the last position of all |
| Ranges.NestedRangeSurvives | wsgidav/util.py:1516-1527 | a range inside a larger one survives and its bytes count twice |
| Ranges.ReadAsWrittenIff | wsgidav/util.py:1472-1507 | a specifier asks for the positions it names if and only if they are in order, or the second is 0 |
| Ranges.AskedPositions | wsgidav/util.py:1472-1507 | the positions that each kind of specifier asks for; a reversed range asks for those of the suffix |
| Ranges.UnsatisfiableIff | wsgidav/util.py:1479-1485 | 416 if and only if some first position lies behind the file |
| Ranges.ServesNothingIff | wsgidav/util.py:1502-1529 | an empty part is served if and only if some specifier is an empty suffix and none asks for the last byte |
| Ranges.EmptySuffixIsServed | wsgidav/util.py:1502-1529 | "0-3,-0" of ten bytes |
| Ranges.ReversedRangeIsSuffix | wsgidav/util.py:1472-1507 | "5-3" of ten bytes asks for the last three |
| Consolidation.DisjointIff | wsgidav/util.py:1510-1529 | the consolidated parts are pairwise disjoint if and only if no gap between neighbours of the sorted list is bridged by an earlier range |
| Consolidation.TotalIsCountIff | wsgidav/util.py:1510-1529 | the total is the number of positions covered under the same condition, and only then |
| Consolidation.RequestTotalIff | wsgidav/util.py:1458-1531 | for a whole request: the total is the number of bytes asked for if and only if the sorted ranges have no bridge |
| Ranges.ConsolidateRanges | wsgidav/util.py:1510-1529 | the loops compute the consolidation and its total |
| Ranges.ObtainContentRanges | wsgidav/util.py:1458-1531 | 416 if and only if a range starts behind the file; else ranges of the file that cover exactly the positions asked for, which are those named if all specifiers are read as written; when the part to be served is empty |
| Streaming.StreamContent | wsgidav/request_server.py:1591-1612 | terminates and yields exactly the slice, for any block size and any short reads, in blocks no larger than the block size |
| Streaming.RestIsSlice | wsgidav/request_server.py:1591-1612 | without a length, or with one up to the end, the file is sent from the start position to its end; with a shorter one just that many bytes |
| Streaming.ServeRanges | wsgidav/request_server.py:1533-1612 | the body is the content from the first to the last position of the part served, all of them asked for; when it is empty |
| FileQueue.EveryRunConserves | wsgidav/stream_tools.py:50-103 | in every interleaving the bytes returned, in hand, unread and queued are the bytes given to `write` by the calls that have put theirs, whole and in order |
| FileQueue.EveryRunIsBounded | wsgidav/stream_tools.py:50-103 | in every run a bounded queue keeps its bound |
| FileQueue.PutWaitsForRoom | wsgidav/stream_tools.py:95-99 | in every run a chunk under way can be put unless a bounded queue is full, and then as soon as the reader has taken one |
| FileQueue.ReadGoesOn | wsgidav/stream_tools.py:66-78 | a read ends exactly when it has what its kind waits for: anything, the size, or the end of the stream; until then it takes a chunk or times out |
| FileQueue.ReturnedSize | wsgidav/stream_tools.py:55-83 | a sized read returns exactly its size unless the stream was closed; an unsized one something; a negative one only after close |
| FileQueue.EndOfStream | wsgidav/stream_tools.py:68-78 | a read ended by close has returned everything if and only if nothing was put since its time-out |
| FileQueue.EndOfStreamAfterClose | wsgidav/stream_tools.py:68-78 | with the queue closed and no write under way at the time-out, that is everything |
| FileQueue.EndOfStreamTooEarly | wsgidav/stream_tools.py:68-78 | a run in which `read` returns nothing with a chunk in the queue |
| FileQueue.FileLikeQueue.ReadClosed | wsgidav/stream_tools.py:55-83 | read after close: what was asked for, or all that is left, and the rest stays |
| FileQueue.FileLikeQueue.GetOrTimeOut | wsgidav/stream_tools.py:69-78 | one turn of the loop is the step of the state machine |
| FileQueue.FileLikeQueue.CheckClosed | wsgidav/stream_tools.py:74-83 | the look at `is_closed` and what follows it is the step of the state machine |
| FileQueue.FileLikeQueue.BeginWrite | wsgidav/stream_tools.py:85-94 | the check of `write` is the step of the state machine |
| FileQueue.FileLikeQueue.BeginRead | wsgidav/stream_tools.py:66-67 | the start of `read` is the step of the state machine |
| FileQueue.FileLikeQueue.DeliverRead | wsgidav/stream_tools.py:79-83 | the end of a read that has what it wants is the step of the state machine |
| FileQueue.FileLikeQueue.PutChunk | wsgidav/stream_tools.py:95-99 | `put` is the step of the state machine |
| FileQueue.FileLikeQueue.CloseQueue | wsgidav/stream_tools.py:101-103 | close is the step of the state machine |
| Properties.ReplacePrefixIff | wsgidav/prop_man/property_manager.py:247-250 | `replace` re-roots a key below the source if and only if the source does not occur again behind its start (or is the destination) |
| Properties.MovesIff | wsgidav/util.py:1048-1058 | a key moves if and only if its segments, and the slashes before them, begin with those of the source, the source itself included |
| Properties.LaterOccurrenceIsRewritten | wsgidav/prop_man/property_manager.py:247-250 | "/a/x/a" moved from "/a" to "/b" becomes "/b/x/b", and nothing is lost |
| Properties.MoveAllRenames | wsgidav/prop_man/property_manager.py:245-252 | without collisions the loop, in any order, is a simultaneous renaming of the keys met so far |
| Properties.NeverLosesIff | wsgidav/prop_man/property_manager.py:245-252 | in every order the loop keeps as many entries as there were if and only if no moved key lands on a key or on another's target |
| Properties.MoveIsRenaming | wsgidav/prop_man/property_manager.py:236-259 | with the source only at the start of moved keys and no key at their targets, the result is the old table with moved keys re-rooted, the rest unchanged, nothing lost |
| Properties.MoveIsRenamingIff | wsgidav/prop_man/property_manager.py:236-259 | that is the result for every order of the keys if and only if every moved key has the source at its start and not again behind it, and its new place is free |
| Properties.SlashMismatchLoses | wsgidav/prop_man/property_manager.py:248-252 | a source with a slash and a key without lose the entry |
| Properties.PropertyManager.WriteProperty | wsgidav/prop_man/property_manager.py:153-181 | one property set, or nothing in a dry run |
| Properties.PropertyManager.RemoveProperty | wsgidav/prop_man/property_manager.py:183-206 | one property removed if it is there, or nothing in a dry run |
| Properties.CopyCarriesIff | wsgidav/prop_man/property_manager.py:220-234 | the destination has the properties of the source if and only if the source has an entry or the destination had no properties; other URLs keep theirs |
| Properties.OldPropertiesStay | wsgidav/prop_man/property_manager.py:220-234 | a table in which the overwritten resource keeps a property that the source does not have |
| Properties.MovedOneByOne | wsgidav/prop_man/property_manager.py:208-259 | copying the properties of each resource to its place and removing them at the source comes to what `move_properties` does at once, where it re-roots |
| Properties.MoveCarriesIff | wsgidav/prop_man/property_manager.py:251-254 | moved elsewhere alone, the properties are at the destination if and only if the source has an entry or the destination had none; the source has none; all others keep theirs |
| Properties.MovedOntoItself | wsgidav/prop_man/property_manager.py:251-254 | moved onto itself alone, a resource loses its properties |
| Properties.PropertyManager.MoveProperties | wsgidav/prop_man/property_manager.py:236-259 | with children the loop that rewrites the table in place is `MoveAll`, for some order of the keys; without, the table is that of `MoveCarriesIff` |
| Proppatch.Resource.SetPropertyValue | wsgidav/dav_provider.py:766-858 | when it raises, and the store after it, which the next four members give by name and settings; a dry run changes nothing |
| Proppatch.DeadPropertyIsStored | wsgidav/dav_provider.py:849-858 | with a manager, a property outside the DAV: namespace that is none of the four emulated ones has the given value afterwards, or is absent after a removal, and nothing else changes; without one it fails |
| Proppatch.DavPropertyIsRefused | wsgidav/dav_provider.py:795-858 | lock properties, and all of the DAV: namespace but a mutable `getlastmodified`, fail |
| Proppatch.TimeStampIsSet | wsgidav/dav_provider.py:808-840 | a time stamp works if and only if it has a value the provider takes, and is that of the resource afterwards |
| Proppatch.Win32IsDropped | wsgidav/dav_provider.py:842-847 | the three other emulated properties work and change nothing |
| Proppatch.DryRunPredicts | wsgidav/dav_provider.py:766-858 | the dry run raises exactly when the real one does, except for time stamps the provider judges differently |
| Proppatch.DoProppatch | wsgidav/request_server.py:433-474 | either all updates in document order, or the store unchanged and 424 for every update that did not fail itself |
| Proppatch.StatusIff | wsgidav/request_server.py:433-474 | 200 if and only if all updates pass the dry run and this one the real one; 424 if and only if it passes a dry run in which another fails; its own error otherwise |
| Proppatch.AllOrNothingIff | wsgidav/request_server.py:433-474 | all or nothing if and only if, once the dry run has passed, the provider takes every time stamp (section 9.2 of RFC 4918) |
| Proppatch.RefusedTimeStampSplits | wsgidav/request_server.py:433-474 | an update of two properties of which one is applied and the other fails |
| Proppatch.LastUpdateWins | wsgidav/request_server.py:462-467 | the last update of a dead property, whose premise is on its name and the settings alone, decides its value |
| Proppatch.LastTimeStampWins | wsgidav/request_server.py:462-467 | the last time stamp that works is that of the resource |
| Proppatch.FailuresChangeNothing | wsgidav/request_server.py:462-474 | updates that fail in the real run change nothing |
| Proppatch.OthersUntouched | wsgidav/request_server.py:462-467 | properties no update names, and those of other resources, keep their values |

## Left out

- Threads and mutexes themselves: a stretch of code under the mutex is one step; fairness and reader liveness are not claimed, since the class documents that readers may starve.
- RwLock: timeouts are a flag of the step that ends them, not a duration; the thread identity is a number.
- The lock table is two maps, not one dictionary with two kinds of keys; `LockStorage.TokensAreNoUrls` says why nothing is confused.
- LockManager.LockManager.CheckUrl: on shared lists, for a URL with doubled leading slashes, whose walk scans a list twice, only the purges are bounded; what the second scan meets after the first one's purges is not described.
- LockManager.LockManager.CheckWritePermission: the same, for shared lists and doubled leading slashes.
- Providers.Provider.Delete: a recursive delete that fails after it has removed some members is not an outcome; it fails before anything is done or not at all.
- Providers.Provider.CopyMoveSingle: across kinds nothing is promised about the store, since the interface excludes the call; a resource that is gone cannot be copied, where a provider may make an empty collection instead.
- Lock dictionaries are values: changes a caller makes to a lock it was handed are not modelled.
- Each public method of the lock manager is one step of a run; interleavings inside one are not modelled (some of its reads take no lock).
- Tokens are fresh and lock URLs are quoted, so without white space; the clock never goes back and is in whole seconds.
- `validate_lock`, `lock_string`, the timeout header and the other lock storages (Redis, CouchDB and the like).
- Native handling by the provider (`handle_delete`, `handle_copy`, `handle_move`, `support_recursive_delete`, `move_recursive`) and the checks before the loops (headers, destination parsing, permissions).
- DELETE: only DAVError ends an attempt; other exceptions abort the request, as an error in the clean-up of a COPY or at the destination of a MOVE does (`CopyMoveLaws.StoppedKeepsSource`).
- COPY with Depth 0: the loops ignore the Depth header and copy everything, and so does the model.
- MOVE over an existing non-empty collection calls `delete` on it with its members in place, as the code does; the call is recorded as too early, and its order is not judged.
- Provider trees are finite and have no links; file-system errors are the failures given.
- CopyMoveRequests.CopyOrMove: the errors reported for a request onto a container of the source, and what a destination at or below the source leads to when doubled slashes hide it from the check.
- If header: values with white space or a closing parenthesis, and entity tags with a quote inside.
- CopyMoveLaws.MoveConservesIff: behind two slashes at the end of the source path, and with neither all copied documents nor all copied collections gone from the source, whether a resource survives can depend on what lands in its place.
- If header: the `evaluate_http_conditionals` part, and how a list of lock tokens is collected for the URL (`LockManager.GetIndirectUrlLockList` models that).
- Ranges: the regular expressions themselves; specifiers come parsed. Multipart answers, which the server does not give.
- Streaming: closing the file and abandoned generators.
- FileQueue: one reading thread; the time a `get` waits before it times out.
- Properties: the persistent variants, and `get_properties`; the table is loaded.
- Proppatch: XML reading and writing; user agents and hot fixes are folded into one setting.
