# GPUBK: verified model of its protocols and file transactions

GPUBK books GPUs through a shared ledger and is administered by commands that rewrite files in place. This project
models the parts where a small slip loses data or lets one user change another's reservation, and proves what they
keep over every input, every run and every interruption.

| file | what it models |
|---|---|
| `Basics.dfy`, `Json.dfy`, `Options.dfy`, `Faults.dfy`, `Ranges.dfy` | shared notions; JSON values with a look-up that reads a missing key as null; optional values; the fates a disk step can meet; half-open ranges |
| `BrokerRules.dfy`, `BrokerRuns.dfy`, `BrokerLaw.dfy` | what the broker lets a client change, diff and patch, runs of commits, and the same rules said without the broker's own checks |
| `BrokerProtocol.dfy`, `BrokerClient.dfy` | the optimistic protocol as a state machine over any interleaving, and the client's retry loops |
| `Transfer.dfy`, `PolicyUpdate.dfy` | the journalled service-account transfer and GPU-policy update, with crashes inside recovery |
| `AdminHistory.dfy`, `AdminHost.dfy` | transfers and policy updates on one server with both journals, and where the update history stays linked |
| `Services.dfy` | install, upgrade and uninstall of tracked unit files |
| `HistoryQuery.dfy`, `HistorySlices.dfy`, `HistoryWriter.dfy`, `HistoryReader.dfy`, `HistoryNamespace.dfy`, `HistoryEndToEnd.dfy` | the immutable usage archive: querying, cutting into days, writing, reading, the namespace of generations, and the whole way |
| `DataTree.dfy`, `Backup.dfy`, `TreeReplace.dfy` | data backups, their verification, and the replacement of the data directory |
| `FreeSweep.dfy` | the next free instant of a GPU |
| `Catalogue.dfy` | the cluster catalogue and its identity mapping |

Main results:

- **Atomic store.** With a collision-free digest, every interleaving of clients and other writers leaves the ledger that
  the committed mutators give when run one at a time, every client returns the answer of that serial run, and none that
  returns has lost a change or a log item of its mutator
  (`BrokerProtocol.ProtocolRefinesAtomicStore`); a transaction commits at most once, and giving up needs eight writes by
  others (`BrokerProtocol.CommitsAtMostOnce`, `BrokerProtocol.ExhaustionNeedsEightOtherWrites`).
- **Lawful changes only.** The broker commits exactly the proposals that `BrokerLaw.Lawful` describes, and over any run
  everything but reservations and the transaction stamp stays (`BrokerLaw.ValidIff`, `BrokerLaw.RunKeepsRest`). A patch in any order has the outcome of the whole-ledger commit
  (`BrokerRules.PatchMeansWholeLedger`), and over any run of requests the identity of reservations is fixed and their
  status only expires, through the owner and after the end (`BrokerRuns.RunKeepsIdentity`, `BrokerRuns.RunExpiresByOwner`).
- **Crash atomicity.** Transfers, policy updates and unit-file lifecycles end all-old or all-new, or under a journal or
  record from which the next command goes on. Over a run, the state is that of the commands that took effect, and each
  command's ending says whether it may or must have (`Transfer.Server.Run`, `PolicyUpdate.Server.Run`); an install
  interrupted any number of times converges when repeated (`Services.Units.InstallUntilDone`).
- **The archive.** Queries tile the window within their budget, slicing loses and repeats no sample, the writer passes
  the reader's checks, and the reader returns each archived day exactly once (`HistoryQuery.QueryBatches`,
  `HistorySlices.SliceDays`, `HistoryWriter.WriterSatisfiesReader`, `HistoryReader.LoadUserUsage`,
  `HistoryNamespace.Namespace.Export`). Together: whatever runs between an export and a load, each exported day comes
  back once, as the summary of exactly the samples answered for it (`HistoryEndToEnd.ExportThenLoad`).
- **Backup.** Backing up and restoring is the identity up to directory modes, exchanged data is accepted only if it is the
  same, and a replaced data directory is wholly old or wholly new after any single failure
  (`TreeReplace.BackupThenRestore`, `Backup.TamperingIsSeen`, `TreeReplace.Site.ReplaceTree`).

Where the code does not meet what one would expect of it, the model follows the code and the exact condition is proved:

- Exporting a published window again reports "exists" only while its namespace has at most 4096 generations. The limit is
  checked before a generation is added, so a 4097th can be published, and then no window of that namespace can be found
  again (`HistoryNamespace.Overshoot`, `HistoryNamespace.Namespace.Export`).
- An upgrade of tracked units is refused as drift exactly when some unit stands in its way, in one of two ways: an earlier
  interrupted upgrade left it in the state it was replacing and the new plan wants a third content; or its content stays and
  the unit directory's group has changed, since plans compare digests and the inspection compares groups too
  (`Services.UpgradeRefusedIff`; runs that reach either are `Services.ThirdUpgradeRefused` and
  `Services.RegroupedRefused`). Uninstall, and repeating an install that was accepted, are never refused as drift.
- A service transfer changes the configuration without an entry in the update history. Neighbouring entries are linked
  exactly when the later update found the account the earlier one left (`AdminHistory.NeighboursLinkIff`, with a broken
  history in `AdminHistory.TransferBreaksTheChain`); the entries are those of every interrupted run (`AdminHost.Host.Run`).
- Two failures can leave the data directory missing during a tree replacement, with the old tree set aside next to it;
  `TreeReplace.Stranded` is the exact condition (`TreeReplace.Site.ReplaceTree`, with a run in `TreeReplace.LoseSight`). The
  cleanup in between ignores errors of the file system only, so an interrupt there counts as a failure.
- A verified backup can fail to restore: verification ignores the order of the manifest, restoring needs parents first
  (`Backup.RebuildsIff`, `Backup.AcceptedButNotRebuilt`). Backups the program creates always have that order.

A step that touches the disk meets a `Fate`: it is fine, raises before or after its effect, or the process dies. Administrator
commands run against an arbitrary list (or, for the tree replacement, an arbitrary assignment) of fates, so a statement about
their end is one about every prefix of their steps.

## Model

| member | source | states |
|---|---|---|
| BrokerRules.ApplyPatch | src/bk/broker.py:713-734 | the patch loop succeeds exactly for distinct in-range indexes with object replacements; then the named positions hold the replacements and all others are unchanged |
| BrokerRules.DiffFromExact | src/bk/broker.py:1050-1066 | the diff names exactly the differing positions, in increasing order, with their new values |
| BrokerRules.ApplyChangesAt | src/bk/broker.py:714-734 | storing distinct changes one after the other replaces those positions and no others |
| BrokerRules.RearrangedDistinct | src/bk/broker.py:729-733 | any rearrangement of a diff still has distinct indexes, so the duplicate check never hits it |
| BrokerRules.DiffThenApply | src/bk/broker.py:1050-1066 | applying a diff's changes in any order gives back the proposed reservations |
| BrokerRules.PatchMeansWholeLedger | src/bk/broker.py:690-749 | for every proposal the diff accepts, the patch commit in any order of changes has the same outcome, ledger and audit list as the whole-ledger commit |
| BrokerRuns.AcceptedChangeEvolves | src/bk/broker.py:1004-1029 | an accepted change of a reservation is the owner's, touches only status, update time and mutable job fields, and expires only what has ended |
| BrokerRuns.ExecuteEvolves | src/bk/broker.py:927-961 | any request keeps the number and order of reservations; each changes only by its owner and only as allowed |
| BrokerRuns.EvolvesTransitive | src/bk/broker.py:1004-1029 | allowed changes compose, missing keys and nulls counting as the same |
| BrokerRuns.BindingIsImmutable | src/bk/broker.py:1026-1029 | no binding field of a job is a mutable one |
| BrokerRuns.RunEvolves | src/bk/broker.py:927-961 | over every run the reservations keep number and order and evolve only as allowed, and one that differs was changed by some request of its own owner |
| BrokerRuns.RunKeepsIdentity | src/bk/broker.py:1004-1029 | over every run id, owner, immutable fields and job binding fields of every reservation read as before |
| BrokerRuns.RunExpiresByOwner | src/bk/broker.py:1009-1019 | over every run, whatever the clock does, a status moves only from active to expired, and the request that moved it is the owner's and found the reservation ended at its own moment |
| BrokerRuns.RunExpiresOnlyAfterEnd | src/bk/broker.py:1009-1020 | over every run with a monotone clock a status moves only from active to expired, and only once `end_at` has passed |
| BrokerRuns.AuditIsTruthful | src/bk/broker.py:963-1001 | a commit writes one audit event per log item, each the actor's own, about a reservation it owns, with the schedule stored before the commit |
| BrokerLaw.ValidIff | src/bk/broker.py:927-1001 | a proposal is accepted exactly if only owned reservations change, only in status, update time and mutable job fields, an expiry is due, nothing else in the ledger differs, and each log item names an owned reservation and a job action |
| BrokerLaw.WholeCommittedIff | src/bk/broker.py:656-688 | a whole-ledger request is committed exactly if its base is current, it is lawful and its changed flag is true, and stores its proposal |
| BrokerLaw.PatchCommittedIff | src/bk/broker.py:690-749 | the same for a patch request and the ledger it describes |
| BrokerLaw.ExecuteKeepsRest | src/bk/broker.py:933-937 | no request adds, drops or changes a ledger field other than the reservations and the transaction stamp |
| BrokerLaw.RunKeepsRest | src/bk/broker.py:933-937 | nor does any run of requests |
| BrokerLaw.CommitLogs | src/bk/broker.py:963-1001 | a commit records one event per log item, by the actor, with its action, reservation and the first 1000 characters of its message |
| BrokerLaw.AuditTellsResult | src/bk/broker.py:983-1000 | the result of an event is the job status that the commit stores for that reservation |
| BrokerLaw.DiffIff | src/bk/broker.py:1032-1066 | the diff accepts exactly proposals that differ in reservations only, none moved and at most 256 changed |
| BrokerProtocol.CommittedIsAtomic | src/bk/broker.py:672-688 | a refused request means the ledger moved; a committed one stores what running the mutator on the current ledger stores |
| BrokerProtocol.NextKeepsInvariant | src/bk/broker.py:199-227 | every step of any client or other writer keeps the protocol invariant |
| BrokerProtocol.RunKeepsInvariant | src/bk/broker.py:188-262 | every reachable state of every interleaving satisfies the invariant |
| BrokerProtocol.ProtocolRefinesAtomicStore | src/bk/broker.py:199-227 | the stored ledger is that of the serial run in commit order; each returned result is that of the client's own mutator in that run, whose log items its commit recorded, or which neither changed nor logged anything if it wrote nothing |
| BrokerProtocol.CommitsAtMostOnce | src/bk/broker.py:188-262 | no transaction commits twice over patch attempts, retries, fallback and lost answers |
| BrokerProtocol.ExhaustionNeedsEightOtherWrites | src/bk/broker.py:200-227 | a transaction that gave up wrote nothing and at least eight writes of others changed the ledger since it began; a failed one wrote only if the answer was lost |
| BrokerProtocol.RefusalNeedsAnotherWrite | src/bk/broker.py:708-710 | each refused attempt has a write that changed the ledger between its load and its commit |
| BrokerProtocol.WelcomeAskReturns | src/bk/broker.py:211-226 | asking for something lawful on an unmoved ledger commits it and returns the mutator's result |
| BrokerClient.SentIsAtomic | src/bk/broker.py:672-688 | a client's request in either form is refused only on a moved ledger, and its commit is the mutator run on the store |
| BrokerClient.LedgerService.Commit | src/bk/broker.py:708-749 | one request is one transaction of the store: outcome, new ledger, audit log and commit count |
| BrokerClient.LedgerService.Send | src/bk/broker.py:211-226 | one attempt ends committed with its own result, failed without a commit, or refused after the ledger moved |
| BrokerClient.LedgerService.Attempt | src/bk/broker.py:201-226 | one round ends done, broken, falling back or refused after the ledger moved; done without a commit means the mutator neither changed nor logged anything; something lawful with nothing in its way is done |
| BrokerClient.LedgerService.Attempts | src/bk/broker.py:199-227 | at most eight attempts; giving up means no commit and at least eight moves of the ledger |
| BrokerClient.LedgerService.Transaction | src/bk/broker.py:188-262 | the whole transaction commits at most once and then recorded the mutator's log items; done without a commit means there was nothing to keep; giving up takes eight moves by others; with nothing in its way it succeeds at once, on an old broker too |
| Transfer.MovedConsistent | src/bk/admin.py:4129-4161 | the all-new state of a transfer from a consistent state is consistent |
| Transfer.MovedAllArrives | src/bk/admin.py:4129-4161 | what transfers leave: owners, socket, configuration, digest and tracked units of the last account, everything else kept, and the last 32 moves, each from the account before it to the one after |
| Transfer.Server.RetargetTree | src/bk/admin.py:4840-4855 | over a tree of any size every path keeps its owner or gets the target, all get it on success, and allowed owners never block it |
| Transfer.Server.ApplyUnits | src/bk/admin_services.py:273-299 | unit files move only from an accepted state to the target, none is touched if one is foreign, all hold the target on success |
| Transfer.Server.Forward | src/bk/admin.py:4179-4204 | wherever the forward steps stop, the state is a mix of old and new that the journal covers; on success it is all new |
| Transfer.Server.Rollback | src/bk/admin.py:4891-4945 | rollback from any mix keeps the mix recoverable, ends all-old when clean, and without faults is clean |
| Transfer.Server.Apply | src/bk/admin.py:4090-4226 | wherever a transfer stops: without a journal all-old or all-new, with one recoverable to the state before; without faults it succeeds |
| Transfer.Server.Recover | src/bk/admin.py:3700-3738 | recovery restores the state before the transfer, is never blocked by partial writes, and can be interrupted and repeated |
| Transfer.Server.Step | src/bk/admin.py:4170-4226 | one command moves the state by at most its own transfer, as its ending and the journal show |
| Transfer.Server.Run | src/bk/admin.py:4170-4226 | over any run of interrupted transfers and recoveries, the state stood at or gone back to is that of the transfers that took effect, command by command, written out as `Arrived`; one takes effect only to another account and with no journal left, and always if it ended normally |
| PolicyUpdate.WindowSlides | src/bk/admin.py:3129-3160 | keeping 31 entries and adding one keeps the last 32 of the whole history |
| PolicyUpdate.UpdateSettles | src/bk/admin.py:3122-3161 | an update of a settled manifest is settled with one more linked entry |
| PolicyUpdate.SettledHistoryIsAChain | src/bk/admin.py:3122-3161 | a settled history has at most 32 entries, is linked, and ends at the configuration's digest |
| PolicyUpdate.Server.Restore | src/bk/admin.py:4878-4888 | both files are put back, a failure of one not stopping the other; a clean restore is exact |
| PolicyUpdate.Server.Apply | src/bk/admin.py:3088-3198 | wherever an update stops it never happened, is the newest survivor, or is covered by a journal holding the old files; the rest of the manifest is kept |
| PolicyUpdate.Server.Recover | src/bk/admin.py:3259-3297 | recovery takes back exactly the interrupted update and can be repeated |
| PolicyUpdate.Server.Step | src/bk/admin.py:3163-3198 | one command adds at most its own entry, as its ending and the journal show, and keeps the rest of the manifest |
| PolicyUpdate.Server.Run | src/bk/admin.py:3163-3198 | over any run, the surviving entries are those of the configurations that took effect, command by command, and each command's ending says when it must have; without a journal the manifest matches the configuration, shows the last at most 32 as a linked chain and keeps its rest |
| AdminHistory.ShowsTheLast | src/bk/admin.py:3122-3161 | over any run of updates and transfers the manifest shows the last 32 entries |
| AdminHistory.NeighboursLinkIff | src/bk/admin.py:4145-4161 | entries of two updates with only transfers between them are linked exactly if none came between or the last one led back to the same account |
| AdminHistory.NewestLeadsHereIff | src/bk/admin.py:4152-4159 | the newest entry leads to the configuration in place exactly if the transfers since led back to its account |
| AdminHistory.TransferBreaksTheChain | src/bk/admin.py:4145-4161 | an update, a transfer and an update leave two entries that are not linked |
| AdminHost.Host.Rewrite | src/bk/admin.py:3162-3198 | an update or transfer takes effect with no journal left, never happened, or is covered by its own journal |
| AdminHost.Host.Undo | src/bk/admin.py:4251-4257 | recovery of one kind goes back to the files from before the interrupted operation of that kind |
| AdminHost.Host.Step | src/bk/admin.py:2587-2596 | a command refuses while any journal is pending, and what took effect in it is told by its ending and the journals |
| AdminHost.Host.Run | src/bk/admin.py:3751-3757 | over any interrupted run of updates, transfers and recoveries of either kind, configuration and shown history are those of what took effect, command by command |
| Services.ReplanIsSame | src/bk/admin_services.py:121-147 | planning again with the same inputs gives the recorded plan, whatever the disk holds by then |
| Services.ReplanFinished | src/bk/admin_services.py:121-147 | planning a finished install again asks for the same units with nothing left to replace |
| Services.UpgradeRefusedIff | src/bk/admin_services.py:121-149 | a tracked plan that is not refused outright is refused as drift exactly if some unit stands in its way: left behind by an interrupted upgrade under a third content, or regrouped under the same content |
| Services.AcceptedIff | src/bk/admin_services.py:70-109 | a plan is accepted exactly if the written-out conditions for an install hold |
| Services.CarriedAsAsked | src/bk/admin_services.py:87-120 | what a plan renders: account, paths, group, and the interpreter asked for, else tracked, else the default |
| Services.ThirdUpgradeRefused | src/bk/admin_services.py:302-322 | install, an upgrade that dies after its record, and a third content end in a refusal |
| Services.RegroupedRefused | src/bk/admin_services.py:127-135 | an install repeated after the unit directory changed its group ends in a refusal |
| Services.Units.WriteUnits | src/bk/admin_services.py:170-175 | each unit keeps its state or gets its goal, and all have it on success |
| Services.Units.Install | src/bk/admin_services.py:158-190 | refused without change exactly over a removal, other paths, untracked units unless forced, or a unit in its way; done, each unit is rendered as asked with the account, paths and interpreter written out; the same inputs stay accepted wherever it is interrupted |
| Services.Units.InstallUntilDone | src/bk/admin_services.py:158-190 | an install that may be made, interrupted any number of times and then repeated, ends with every unit and the record as first asked for, written out |
| Services.Units.Uninstall | src/bk/admin_services.py:205-232 | never blocked by drift from any interrupted state; ends with the units from before the first install |
| Services.Units.Run | src/bk/admin.py:2520-2575 | over any run of interrupted commands every unit is a state its record names, `before` is the original, and untracked units are the original ones |
| HistoryQuery.MonthsTile | src/bk/cluster_history.py:655-660 | the first windows tile the range in pieces of at most 30 days, ceil(days/30) of them |
| HistoryQuery.LeavesTile | src/bk/cluster_history.py:661-687 | the untruncated pieces of a window tile it in order; there are none only if a one-day query is truncated |
| HistoryQuery.SplitStep | src/bk/cluster_history.py:670-679 | splitting keeps the tiling and the final pieces, costs exactly one query and leaves halves that differ by at most a day |
| HistoryQuery.FirstWindows | src/bk/cluster_history.py:655-660 | the cursor loop builds the month list |
| HistoryQuery.WorkOff | src/bk/cluster_history.py:661-687 | the worklist over any consecutive windows delivers exactly the reference pieces within its budget of queries |
| HistoryQuery.QueryBatches | src/bk/cluster_history.py:648-687 | at most 2*days - ceil(days/30) queries; delivers in order untruncated batches of at most 30 days that tile the window, failing only on a truncated one-day query |
| HistorySlices.TakeDay | src/bk/cluster_history.py:200-216 | the inner loop takes the longest run of records of the day, or stops at one that crosses its bounds |
| HistorySlices.SliceDays | src/bk/cluster_history.py:194-250 | succeeds exactly when the records are in day order, each within one day of the batch; then one slice per day, each sample in its own, and joined they are the batch |
| HistoryWriter.FileNameMatches | src/bk/cluster_history.py:231-232 | every generated file name has the pattern the reader asks for |
| HistoryWriter.FileNameInjective | src/bk/cluster_history.py:231-232 | no two days or kinds share a file name |
| HistoryWriter.WriterSatisfiesReader | src/bk/cluster_history.py:441-510 | every generation within the size limits passes every manifest check and every payload check of the reader |
| HistoryWriter.ExchangedIsSeen | src/bk/cluster_history.py:576-613 | unless digests collide, a written generation whose files were exchanged is accepted exactly if every listed file is as written |
| HistoryWriter.EntriesTile | src/bk/cluster_history.py:186-250 | the entries of either kind are the days of the window, in order |
| HistoryWriter.CutBatches | src/bk/cluster_history.py:186-250 | cutting all batches succeeds exactly if each is sliceable, and joins to all their records day by day |
| HistoryWriter.CollectDays | src/bk/cluster_history.py:181-250 | query and cut together archive every sample once, in its own day, with a slice for every day |
| HistoryReader.WalkDays | src/bk/cluster_history.py:546-573 | the cursor gets through exactly a run of consecutive whole days from start to end |
| HistoryReader.CoversDaily | src/bk/cluster_history.py:546-573 | chunk coverage is accepted exactly when either kind lists each day of the range once and nothing else |
| HistoryReader.TiledSorts | src/bk/cluster_history.py:546-573 | sorting decides the daily tiling |
| HistoryReader.ManifestMeans | src/bk/cluster_history.py:441-510 | an accepted manifest is the directory's and node's own, with the resolution's seconds and sound entries |
| HistoryReader.PayloadNameIsPlain | src/bk/cluster_history.py:441-510 | an accepted file name never leaves the directory |
| HistoryReader.NonOverlapping | src/bk/cluster_history.py:747-758 | comparing sorted neighbours accepts exactly when no instant belongs to two generations of a node |
| Ranges.NeighboursDecide | src/bk/cluster_history.py:752-758 | neighbours of the sorted list are apart exactly when no instant is covered twice |
| HistoryReader.UsageOfCount | src/bk/cluster_history.py:344-367 | a generation contributes a day as often as its user entries list it, if the day is in the window |
| HistoryReader.OnePayloadPerDay | src/bk/cluster_history.py:328-376 | per node and day exactly one payload if the day is in the window and some generation covers it, none otherwise |
| HistoryReader.LoadGeneration | src/bk/cluster_history.py:344-367 | collects the window's user payloads of one generation, failing exactly on one that does not match its entry |
| HistoryReader.OrderedKeeps | src/bk/cluster_history.py:369 | sorting by day and node keeps what was collected |
| HistoryReader.LoadUserUsage | src/bk/cluster_history.py:328-376 | fails exactly on overlap or a spoiled payload of the window; otherwise each archived day of the window once per node, by day and node |
| HistoryNamespace.Scan | src/bk/cluster_history.py:154-176 | the scan finds the window, a clash or a free place, whatever the order of generations |
| HistoryNamespace.LimitIsOvershot | src/bk/cluster_history.py:423-438 | exports find a free place up to and including the 4097th generation, after which none is found again |
| HistoryNamespace.Overshoot | src/bk/cluster_history.py:423-438 | with an encoder that lets empty days through, a run of exports reaches 4097 generations, and then the first window is no longer found |
| HistoryNamespace.PublishKeepsGood | src/bk/cluster_history.py:152-179 | adding a good generation at a free place keeps the archive good and disjoint |
| HistoryNamespace.Build | src/bk/cluster_history.py:181-269 | fails exactly if the window is not answered or too large; what an export builds passes the reader and has, for each day, a samples file of exactly the samples answered for it and a users file of their summary |
| HistoryNamespace.Namespace.Place | src/bk/cluster_history.py:270-278 | publication is all or nothing |
| HistoryNamespace.Namespace.Publish | src/bk/cluster_history.py:181-278 | a window with a free place is published whole or not at all |
| HistoryNamespace.Namespace.Export | src/bk/cluster_history.py:114-278 | published generations never change or vanish and stay disjoint; a published window is reported as existing exactly within the limit; a new one has, for each day, files of exactly the samples answered for it; and without faults a window nothing overlaps, completely answered, is published exactly within the size limits |
| HistoryNamespace.Namespace.Run | src/bk/cluster_history.py:152-278 | over every run of failing and crashing exports, the usage API answering anew each time, nothing published changes or vanishes, new names are windows of the jobs, and those reported as exported are there |
| HistoryNamespace.Namespace.LatestEnd | src/bk/cluster_history.py:379-385 | the latest end of the namespace, readable exactly within the limit |
| HistoryNamespace.Namespace.ResolveWindow | src/bk/cluster_history.py:84-111 | the window begins as asked, else where the archive ends, else the given time before its end; refused exactly off a day boundary, on an unreadable archive, or when empty without continuing one; written out for requests that do not continue an archive |
| HistoryNamespace.Namespace.ExportIncrement | src/bk/cluster_history.py:84-111 | resolving and exporting extends the archived interval at its end, up to the end asked for when exported, or leaves it |
| HistoryNamespace.Namespace.RunIncrements | src/bk/cluster_history.py:84-111 | over any run of increments, with any ends, durations and answers, the archive is a single interval without gaps that ends where the last one that took effect asked |
| HistoryNamespace.NamespaceIsReadable | src/bk/cluster_history.py:328-338 | every listing of a reachable namespace passes the reader's checks, overlap included |
| HistorySlices.SliceIsOfDay | src/bk/cluster_history.py:197-250 | the slices of a window are, day by day, the samples of it that start in the day |
| HistoryEndToEnd.Load | src/bk/cluster_history.py:328-376 | a reachable namespace is loaded exactly within its limit |
| HistoryEndToEnd.ExportThenLoad | src/bk/cluster_history.py:114-376 | after an export and any run of other exports, a load returns each exported day of the window once, with the users payload of the summary of exactly the samples answered for it |
| DataTree.WalkTree | src/bk/admin_data.py:329-337 | the walk lists each path of the tree exactly once, parents before children, for any order of names in a directory |
| Backup.ScanSource | src/bk/admin_data.py:190-209 | the scan is refused exactly for links, special files or special permission bits |
| Backup.CopySource | src/bk/admin_data.py:212-243 | the copy has the source's paths, kinds and contents, the manifest describes the source in walk order, and no target is ever blocked |
| Backup.CreateBackup | src/bk/admin_data.py:26-76 | a backup is made exactly of a clean tree, describes it, has its contents under modes 0700 and 0600, and passes verification |
| Backup.CheckRecords | src/bk/admin_data.py:101-116 | the entry loop accepts exactly well-formed, distinct entries that match the data |
| Backup.VerifyBackup | src/bk/admin_data.py:79-138 | verification accepts exactly what `Accepts` says: configuration digest, root entries, entries, and the set of paths |
| Backup.CreatedIsAccepted | src/bk/admin_data.py:26-76 | every created backup is accepted |
| Backup.ManifestDecides | src/bk/admin_data.py:101-130 | with a collision-free digest one manifest admits only one tree of paths, kinds and contents |
| Backup.TamperingIsSeen | src/bk/admin_data.py:101-130 | a backup whose data was exchanged is accepted exactly if paths, kinds and contents are still the source's |
| Backup.RebuildsIff | src/bk/admin_data.py:262-280 | rebuilding accepted data succeeds exactly if the manifest lists parents first, and then holds what the entries say |
| Backup.AcceptedButNotRebuilt | src/bk/admin_data.py:101-130 | a backup that verification accepts and that cannot be rebuilt |
| Backup.BackupRoundTrip | src/bk/admin_data.py:262-280 | rebuilding a created backup gives the source's paths, kinds, contents and file modes |
| TreeReplace.Site.Build | src/bk/admin_data.py:262-280 | the build loop gives the rebuilt tree, failing exactly if an entry cannot be placed or a step fails |
| TreeReplace.Site.Swap | src/bk/admin_data.py:287-297 | what the two renames and the inner handler leave, for every combination of failures |
| TreeReplace.Site.Undo | src/bk/admin_data.py:298-303 | the outer handler puts the old tree back if the data directory is missing and changes nothing otherwise |
| TreeReplace.Site.ReplaceTree | src/bk/admin_data.py:246-303 | exactly when the data directory is old, new or missing on every exception; if one step fails and none dies it is old or new; death needs a dying step and never loses the old tree |
| TreeReplace.StrandedNeedsTwo | src/bk/admin_data.py:288-303 | the data directory goes missing only if two steps fail |
| TreeReplace.TwoCanStrand | src/bk/admin_data.py:286-303 | two failures meet the condition for a missing data directory |
| TreeReplace.LoseSight | src/bk/admin_data.py:286-303 | a run with two failures that leaves the data directory missing and the old tree set aside |
| TreeReplace.RestoreBackup | src/bk/admin_data.py:161-187 | refused without change unless verified onto an empty data directory; otherwise what the manifest says, inside the directory and without special bits, succeeding without faults exactly if it lists parents first |
| TreeReplace.BackupThenRestore | src/bk/admin_data.py:26-187 | backup then restore is the identity on paths, kinds, contents and file modes, and possible exactly for clean trees onto an empty directory |
| FreeSweep.Sweep | src/bk/cli.py:5223-5230 | the cursor loop over sorted intervals ends at the first instant none of them holds |
| FreeSweep.NextExclusiveFree | src/bk/cli.py:5214-5230 | the least instant from the start on that lies in no reservation interval of the GPU |
| FreeSweep.FirstFreeIgnoresOrder | src/bk/cli.py:5215-5222 | that instant does not depend on the order of reservations |
| Catalogue.MapPrincipal | src/bk/admin_cluster.py:500-531 | the loops map a free pair to the first principal of that id or a new one, keep a mapping that is there, and refuse another's |
| Catalogue.DropMember | src/bk/admin_cluster.py:544-549 | a principal's members without the pair, and whether it was there |
| Catalogue.UnmapPrincipal | src/bk/admin_cluster.py:534-561 | the loops drop exactly the pair and principals left empty, and refuse a pair nobody holds |
| Catalogue.KeptCounts | src/bk/admin_cluster.py:471-481 | dropping members loses exactly the chosen pairs |
| Catalogue.OneListing | src/bk/cluster.py:2059-2067 | a pair counted once has one place among all principals |
| Catalogue.SetKeepsIdentity | src/bk/admin_cluster.py:441-461 | `set` keeps every node's place, name, id and transport and touches no other node |
| Catalogue.RefusedIff | src/bk/admin_cluster.py:392-561 | a command is refused exactly for an unknown or known node, nothing or an address for a local node asked for, or a pair mapped elsewhere or not at all |
| Catalogue.AddStores | src/bk/admin_cluster.py:399-412 | `add` stores each field in its place, behind the other nodes, enabled |
| Catalogue.SetStores | src/bk/admin_cluster.py:441-460 | `set` stores each field asked for and keeps each that is not |
| Catalogue.EnableStores | src/bk/admin_cluster.py:485-497 | `enable` and `disable` leave the node in that state and nothing else changed |
| Catalogue.RemoveStores | src/bk/admin_cluster.py:463-482 | `remove` takes out that node and every pair on it, and nothing else |
| Catalogue.MapStores | src/bk/admin_cluster.py:500-531 | `map` leaves the pair with the principal asked for and every other pair as it was |
| Catalogue.OutcomeKeepsInvariant | src/bk/admin_cluster.py:392-431 | every command keeps names unique, principals unique and non-empty, pairs listed once, members in the catalogue |
| Catalogue.RunKeepsCatalogue | src/bk/admin_cluster.py:392-431 | so does every run of commands, written or refused |
| Catalogue.UnmapUndoesMap | src/bk/admin_cluster.py:500-561 | unmapping a freshly mapped pair gives back the identical catalogue |
| Catalogue.WriteRefusedIff | src/bk/cluster.py:2030-2067 | the check before writing refuses a command's result exactly for what the caller entered: a known node id, too many or no nodes, a bad field, a bad principal name or a negative UID |

## Left out

- Sockets, frames, peer credentials, request-key and wire-type checks of the broker, its listener and threads.
- Deferred journals of the ledger store: a store transaction is one atomic step, and a client's load sees its last write.
- BrokerRules.ApplyPatch: does not model change documents with missing or extra keys, which the broker refuses.
- Python's `int()` and `str()` on reservation UIDs, ids and log messages that are not integers or strings (a null id reads as the empty text), and its equality of `True` and 1; the ledger schema admits only integers and strings there.
- AdminHost.Host.Rewrite: models of a transfer only what it does to the configuration and the manifest; ownership and unit files are in `Transfer.dfy`.
- Transfer.Server.Apply: does not model the refusal of a transfer while tracked services are not in phase installed, nor running services that block it.
- Services.Units.Uninstall: does not model the refusal while units are enabled or the broker runs.
- Recovery of a transfer runs with the unit templates the transfer ran with; edits by others to tracked files are not modelled.
- Retargeting the tracked services during a transfer is part of `Transfer.dfy` and not of the runs in `Services.dfy`.
- Maintenance guards, locks, ownership, permission, link and symbolic-link checks: a single writer holds the guard.
- Generation names, timestamps, JSON, gzip and base64 are abstract; a generation's name is its range and resolution.
- HistoryReader.LoadUserUsage: does not model the limit on expanded payload size, the scan for private fields or the limits over all nodes.
- HistoryWriter.WriterSatisfiesReader: takes the summary of samples by user as a function.
- Backup.VerifyBackup: does not model manifest paths in a spelling other than their list of components, nor the counts it reports.
- Backup.CreateBackup: does not model ownership checks, changes to the source during the copy, or failures while writing the staging directory.
- TreeReplace.BackupThenRestore: leaves directory modes open, since they depend on the process umask, and ownership.
- Catalogue.RunKeepsCatalogue: does not model `history-root`, `init` and `delete`, nor the check on user names pinned in SSH targets.
- Scheduling, share capacity and booking placement: arbitrary ledger writes by others.
- Announcements, administrator info and command wrappers, command lines, prompts and printing: only easy members.
