# QUptime, modelled and verified

QUptime is a small cluster of monitoring daemons. Every node keeps a copy of one
configuration (peers, checks, alerts, enrollments, resolvers), hears heartbeats
from its peers, elects a master by node id, and, while it is master, counts the
votes of all nodes on every check and alerts on agreed changes. These Dafny
modules model that behaviour and prove what it guarantees over whole runs.

`dafny verify dfyconfig.toml` checks everything.

| module | what it holds |
|---|---|
| `Config`, `Replicator` | the configuration object, its twelve mutation kinds edited in place, and the routing of mutations, broadcasts and pulls on one node |
| `MutationLaws` | what a mutation changes and keeps, unique ids, quorums across membership changes, enrollment bookkeeping |
| `Joining`, `Replication`, `Convergence`, `Forks` | founding and seeding; the cluster as a state machine over a network that loses, duplicates and reorders; agreement, convergence, and lasting disagreement |
| `Quorum`, `Election`, `Partition` | liveness and election on one node; runs of it; runs of a whole partitioned cluster |
| `Aggregator`, `HysteresisLaws`, `Votes` | the vote counter; its state as a function of history; who can take a check down |
| `EffectiveAlerts`, `AlertStream` | which alerts a transition goes to, and the language of what is sent |
| `Preview` | the template preview's stack machine against the meaning of templates as trees |
| `Probes`, `Scheduler` | what a probe reads of its check and accepts; the ledger of probe workers |
| `Frames`, `Enrolling` | the framing of the byte stream, the enrollment handler |
| `NodeIds`, `Lists`, `Sets`, `Options` | the order on ids, keyed lists, counting, results |

Objects that the program updates in place are classes here (`ClusterConfig`,
`Replicator`, `Manager`, `Aggregator`, `Scheduler`, `Writer`, `Reader`). Each method
is proved equal to a function of the old state, and the laws are proved of runs
of those same functions. Time is an integer clock that does not run backwards. A
critical section is one step: reporting and evaluating a result, reading the live set
and electing from it, passing the quorum check and committing are separate steps, and
runs interleave them freely.

## Where the code and its documentation differ

The model follows the code. Each difference below is a lemma.

- **"No split-brain", "same live set, same master"** (`docs/architecture.md:117-121`,
  `internal/quorum/manager.go:16-18`). `Election.TwoMasters`: with one link cut two
  nodes each elect themselves. `Election.SameLiveSetTwoMasters`: with the cooldown,
  the same live set can give two masters. `Election.AgreeExactly` and
  `Election.TwoMastersExactly` say when nodes agree and when two reign,
  `Partition.OneSideOnly` what a clean two-sided cut still guarantees.
- **"Same version, same content"** (`docs/architecture.md:179-184`).
  `Forks.ForkIsReachable`: two masters in turn can leave two nodes with different contents
  under one version, and no pull mends it. `Replication.OneSnapshotPerVersionExactly` says
  when a run has one snapshot per version, `LapseForksExactly` and `UnheardCommitForksExactly`
  when a commit by a node that is behind leaves a version with one content.
- **Heartbeats of unlisted nodes** count as live (`internal/quorum/manager.go:125-126`), so they can
  lift a minority to quorum: `Partition.QuorumReachableExactly`.
- **Unique ids and names.** The upsert keeps them exactly when the newcomer clashes with
  at most one entry (`MutationLaws.AddCheckUniqueness`); `MutationLaws.ClashingAddRepeatsName` breaks them.
- **Manual edits** drop the cluster's resolvers: `MutationLaws.ManualEditDropsResolvers`.
- **`sameCheck` as "identical probing"** (`internal/checks/scheduler.go:142-144`) misses the options that
  only TLS and DNS probes read: `Scheduler.StaleProbeExactly`, `StaleTlsProbe`, `StaleDnsProbe`.
- **The one-shot `UP` alert** (`README.md:445-449`) is filtered out: `AlertStream.FirstUpIsSilent`.
- **`DOWN` and `RECOVERED` pairs** (`README.md:451-452`) break across changes of master:
  `AlertStream.NewMasterBreaksPairing`, `SecondTermBreaksPairing`; exactly when: `DispatchedExactly`.
- **"A clean EOF on a frame boundary"** (`internal/transport/frame.go:29-30`): a stream that ends
  right behind the header of a non-empty frame reads as a clean end too (`Frames.CutStream`).
- **The cooldown timer** restarts "after a dead-after gap" (`docs/architecture.md:140-142`): a peer
  silent for exactly that long leaves the live set and still keeps its streak (`Election.BoundaryBeat`).
- **An enrollment approved by its id** can approve another entry whose *name* is that id:
  `Enrolling.ApprovesTheOtherJoiner`, exactly when: `Enrolling.TokenIsConsumedExactly`. It takes a raw proposal or
  an in-place re-issue to set such a name, since ids are drawn at random (`internal/daemon/control.go:355`).
- **The quorum size** is floor(N/2)+1, not the ceiling that `internal/quorum/manager.go:9` gives:
  `MutationLaws.QuorumSizeIsTight`.

## Model

| member | source | states |
|---|---|---|
| Config.ClusterConfig.Replace | internal/config/cluster.go:375-402 | the whole configuration is overwritten exactly when the incoming version is strictly greater, and untouched otherwise |
| Replicator.Replicator.Edit | internal/replicate/replicator.go:200-422 | the in-place edit of every mutation kind has the verdict and effect of the pure edit `Config.Apply`, whose cases the next rows pin down; a rejected one changes nothing |
| Replicator.Replicator.CleanResolvers | internal/replicate/replicator.go:355-373 | entries trimmed, blanks dropped, order kept |
| Replicator.Replicator.ApplyLocally | internal/replicate/replicator.go:199-428 | succeeds exactly if the edit does, and then raises the version by one under this node's name; a failed one leaves everything as it was |
| Replicator.Replicator.LocalMutate | internal/replicate/replicator.go:68-110 | commits exactly on a master with quorum when the edit succeeds, and a broadcast follows exactly then; otherwise nothing changes here, and a follower proposes to the master exactly when it knows the address and hands on the reply |
| Replicator.Replicator.HandleProposeMutation | internal/replicate/replicator.go:115-128 | a proposal commits exactly on a master with quorum when the edit succeeds; a broadcast is started exactly then |
| Replicator.Replicator.HandleApplyClusterCfg | internal/replicate/replicator.go:132-144 | a pushed snapshot is adopted exactly when strictly newer; the answered version never goes down |
| Replicator.Replicator.PullFrom | internal/replicate/replicator.go:154-167 | a pull adopts what is strictly newer; a failed one changes nothing |
| Replicator.Replicator.SendBroadcast | internal/replicate/replicator.go:171-186 | the snapshot of that moment goes to exactly the listed, addressable peers other than the sender |
| MutationLaws.AdditionMeans | internal/replicate/replicator.go:202-320 | checks, alerts, peers and tokens are accepted exactly with their mandatory fields; the newcomer is then the first entry with its id or name, every other position and the rest of the configuration are as before, and one is added only if nothing matched |
| MutationLaws.RemovalMeans | internal/replicate/replicator.go:219-333 | removing a check, alert, peer or token succeeds exactly if one answers to the id or name, takes away the first that does, and leaves the rest in order |
| MutationLaws.ApproveMeans | internal/replicate/replicator.go:375-417 | succeeds exactly if the first token that answers has a joiner on record; that joiner, field by field, becomes the peer with its id, that token goes, nothing else changes; each refusal has its case |
| MutationLaws.RecordMeans | internal/replicate/replicator.go:335-353 | recording succeeds exactly with an id, a join and an enrollment of that id; the first of that id then carries the join and nothing else changes |
| MutationLaws.ReplacementMeans | internal/replicate/replicator.go:279-288 | a replacement brings in the incoming peers, checks, alerts and resolvers and keeps the enrollments |
| MutationLaws.ResolversMeans | internal/replicate/replicator.go:355-373 | setting the resolvers touches only them and stores the cleaned list |
| MutationLaws.PutPeerMeans | internal/replicate/replicator.go:262-277 | the peer's entry becomes the one for its id, all other ids' entries stay |
| MutationLaws.DropPeerMeans | internal/replicate/replicator.go:290-301 | removal succeeds exactly for a listed peer and removes that one |
| MutationLaws.CleanedKeepsAll | internal/replicate/replicator.go:360-373 | the resolvers kept are those at exactly the non-blank positions, in order, each without the white space around it; cleaning is idempotent |
| MutationLaws.ManualEditKeepsResolversExactly | internal/daemon/watcher.go:77-82 | a manual edit keeps the resolvers exactly when there were none; enrollments survive it |
| MutationLaws.ManualEditDropsResolvers | internal/daemon/watcher.go:77-82 | an edit of a check name alone clears the configured resolvers |
| MutationLaws.AddCheckUniqueness | internal/replicate/replicator.go:202-217 | with ids and names unique, an accepted check keeps both unique if and only if at most one entry shares its id or name |
| MutationLaws.AddAlertUniqueness | internal/replicate/replicator.go:232-247 | the same for alerts |
| MutationLaws.ClashingAddRepeatsName | internal/replicate/replicator.go:210-217 | with checks (a, m) and (b, n), adding (a, n) leaves two checks named n |
| MutationLaws.OtherEditsKeepUniqueness | internal/replicate/replicator.go:200-422 | every kind but the two upserts and the wholesale replacement keeps ids and names unique |
| MutationLaws.AddThenRemoveUndoes | internal/replicate/replicator.go:202-230 | adding a check and removing it by id restores the configuration if and only if nothing shared its id or name or bore its id as a name |
| MutationLaws.MembershipStep | internal/replicate/replicator.go:262-301 | every kind but the wholesale replacement keeps node ids distinct and moves the membership by at most one node |
| MutationLaws.QuorumsMeetExactly | internal/config/cluster.go:510-518 | all quorums of two peer lists meet if and only if the lists together name fewer nodes than the quorum sizes add up to |
| MutationLaws.QuorumSizeIsTight | internal/config/cluster.go:508-518 | floor(N/2)+1 is the smallest size that makes any two groups of that size meet |
| MutationLaws.ConsecutiveQuorumsMeet | internal/replicate/replicator.go:375-417 | any quorum before and any quorum after one such mutation share a node |
| MutationLaws.ReplacementCanSplitQuorums | internal/replicate/replicator.go:279-288 | a wholesale replacement can leave two disjoint quorums |
| MutationLaws.EnrollmentStep | internal/replicate/replicator.go:303-353 | one mutation keeps enrollment ids distinct, lets peers plus enrollments grow only by a token issued, and brings in only a peer recorded under an enrollment it removes |
| MutationLaws.EnrollmentConservation | internal/replicate/replicator.go:303-353 | over any run, peers plus outstanding enrollments never exceed what there was plus the tokens issued |
| MutationLaws.EveryPeerWasRecorded | internal/replicate/replicator.go:335-417 | over any run, every new peer and every pending join traces back to a recorded join |
| Joining.SeedJoiner | internal/cli/enroll.go:412-438 | the joiner's list becomes itself plus every distinct peer it was told of, one version up |
| Joining.JoinLocally | internal/cli/enroll.go:402-438 | bootstrap and seeding together always land on version 2 |
| Joining.SeedListsEveryoneOnce | internal/cli/enroll.go:422-435 | the seeded list names the joiner and everyone it was told of, each exactly once |
| Joining.SeedInOrder | internal/cli/enroll.go:422-435 | self first, then the first entry of every other id, in the order in which they were learned |
| Replication.InvStep | internal/replicate/replicator.go:68-186 | the replication invariant survives every mutate, push, answer, deliver, lose and join step in which no stale node commits |
| Replication.DisciplinedRunsAgree | internal/config/cluster.go:346-402 | in every run over a lossy, duplicating, reordering network whose commits are by holders of the highest version: synced nodes, and snapshots in flight other than the seeds of those who joined, are the ones committed at their version, equal versions mean equal configurations, nobody is ahead of the history |
| Replication.VersionsNeverDecrease | internal/config/cluster.go:375-383 | in every run, disciplined or not, node versions never go down and the history only grows |
| Replication.OneSnapshotPerVersionExactly | internal/config/cluster.go:354-356 | one snapshot per version, author and time included, if and only if every commit was by a holder of the highest committed version |
| Replication.LapseForksExactly | internal/config/cluster.go:354-356 | a commit by a node that is behind keeps one content per version if and only if it comes to what the next version already holds |
| Replication.UnheardCommitForksExactly | internal/replicate/replicator.go:78-86 | two up-to-date nodes commit in turn, the second not having heard of the first: both hold one version, and one content under it if and only if both changes come to the same thing |
| Forks.DivergenceLasts | docs/architecture.md:179-181 | two nodes that diverge at the highest version about keep diverging in every run without mutations |
| Forks.ForkIsReachable | docs/architecture.md:179-184 | from every founding a run leads to two nodes with different contents under one version, which stay so whatever is pushed, pulled, delivered or lost, until somebody commits again |
| Replication.SeedsNeverWin | internal/cli/enroll.go:407-411 | in a disciplined run a delivered seed changes no node, and an unsynced joiner adopts a cluster snapshot exactly when its version is 3 or more |
| Convergence.FinitelyManyTakeEffect | internal/config/cluster.go:375-402 | once mutations stop, each effective delivery uses up total lag, so at most as many take effect as the lag there was |
| Convergence.LevelMeansSettled | internal/replicate/replicator.go:154-167 | no version is below another if and only if every node holds the last committed configuration, if and only if the lag is zero |
| Convergence.CanSettle | docs/architecture.md:156-177 | from every state of a disciplined run pulls alone can settle the whole cluster |
| Quorum.Manager.MarkLive | internal/quorum/manager.go:253-265 | contact time recorded; the streak restarts only on first contact or after a gap longer than dead-after |
| Quorum.Manager.LiveSet | internal/quorum/manager.go:176-188 | exactly the ids heard from less than dead-after ago, and self once marked, each once and in ascending order |
| Quorum.Manager.HasQuorum | internal/quorum/manager.go:170-173 | true exactly when the live ids are at least the quorum size |
| Quorum.Manager.RecomputeMaster | internal/quorum/manager.go:288-337 | reads the live set, then elects from it |
| Quorum.Manager.ElectFrom | internal/quorum/manager.go:292-336 | for whatever live set was read: nobody without quorum, else a live id, and a live incumbent gives way only to a lower id past its cooldown; the term rises by one exactly on change, losing quorum included |
| Quorum.Manager.MaybeNotifyVersion | internal/quorum/manager.go:267-286 | the observer is told exactly when there is one, the peer is strictly ahead and its address is known |
| Quorum.Manager.HandleHeartbeat | internal/quorum/manager.go:124-146 | a foreign, named sender is marked live and its address learnt before the election; the answer shows the state after it; a pull is due exactly for a sender that is ahead and can be dialled |
| Election.LiveSinceIsStreakStart | internal/quorum/manager.go:253-265 | in every run the recorded streak start is the start of the longest suffix of that peer's contacts without a gap above dead-after |
| Election.DisplacementByHistory | internal/quorum/manager.go:314-330 | in every run, a live master under quorum is displaced by j if and only if j is the least lower live id heard without a longer gap for the whole cooldown |
| Election.ElectsLeastEligible | internal/quorum/manager.go:295-332 | there is a master if and only if there is quorum, and it is the least eligible id: of the live ids, or, with a live incumbent, of it and those ripe to replace it |
| Election.TermCountsChanges | internal/quorum/manager.go:333-336 | in every run the term has grown by exactly the number of ballots that changed the master, loss and return of quorum included |
| Election.AgreeExactly | docs/architecture.md:117-121 | two nodes under quorum, whatever they see and whoever was master, elect the same id if and only if the least id eligible on either is eligible on both |
| Election.SelfElectedExactly | internal/quorum/manager.go:295-332 | when a node makes itself master, in terms of its live set, incumbent and streaks |
| Election.TwoMastersExactly | internal/quorum/manager.go:16-18 | two nodes under quorum both make themselves master if and only if both meet that condition; the higher then does not hear the lower or still withholds the role from it |
| Election.SameLiveSetSameMaster | docs/architecture.md:117-121 | nodes with the same live set under quorum, its least id past the cooldown, elect it whatever their incumbents |
| Election.LeastMasterStays | internal/quorum/manager.go:288-337 | over any run with an unchanged live set the least id stays master and the term stays |
| Election.TermBoundedByRank | internal/quorum/manager.go:317-336 | while quorum holds and masters stay live, every change lowers the id and the term grows by at most the master's rank among the live ids |
| Election.TwoMasters | docs/architecture.md:117-121 | two runs from a fresh start: with one link cut two nodes each elect themselves |
| Election.SameLiveSetTwoMasters | docs/architecture.md:117-121 | two runs from a fresh start: with the same live set, one node elects itself and the other keeps the role from its one-node time |
| Partition.OneSideIsMinority | internal/config/cluster.go:510-518 | of the two sides at least one is too small for a quorum, unlisted senders included, if all senders are too few for two quorums |
| Partition.StraysThatFit | internal/quorum/manager.go:125-126 | that many unlisted senders do not matter: none for an odd number of peers, at most one for an even number |
| Partition.InvStep | internal/quorum/manager.go:124-337 | the partition invariant survives waiting, heartbeats, elections, quorum checks, commits, restarts, snapshot traffic and new nodes |
| Partition.OneSideOnly | docs/architecture.md:175-177 | from a clean cut on, in every run, live sets stay on their sides and one fixed side never has quorum and never commits, whatever the other does to the peer list, if all senders are too few for two quorums |
| Partition.QuorumReachableExactly | internal/quorum/manager.go:125-126 | from a clean cut a node can come to quorum in some run if and only if the listed peers and unlisted senders on its side are enough |
| Aggregator.FreshWindow | internal/checks/aggregator.go:233-242 | 60 s without an interval, else the larger of 30 s and three intervals |
| Aggregator.Aggregator.Tally | internal/checks/aggregator.go:134-148 | the numbers of fresh successes and failures, and a non-empty failure detail if there is any |
| Aggregator.Aggregator.Submit | internal/checks/aggregator.go:83-100 | a submission that nothing interrupts is its two critical sections in turn |
| Aggregator.Aggregator.Record | internal/checks/aggregator.go:84-98 | first section: the result replaces the previous one of its node, under a fresh state if the check has none; nothing else changes; a result without a check id is ignored |
| Aggregator.Aggregator.Evaluate | internal/checks/aggregator.go:113-183 | second section: vote, hysteresis and announcement of exactly the change of state, with a summary of the state it leads to; a check that was removed is forgotten, one whose state is gone is left alone, other checks are untouched |
| Aggregator.Aggregator.SnapshotFor | internal/checks/aggregator.go:103-217 | counts, committed state and detail reported for a check; none for an unknown one |
| Votes.VerdictExactly | internal/checks/aggregator.go:134-158 | Unknown exactly if every result is too old, Down exactly if more recent results failed than succeeded, Up exactly if some are recent and at least as many succeeded |
| HysteresisLaws.HistoryDecides | internal/checks/aggregator.go:83-183 | in every interleaving of reports and evaluations the state and announcements of a check are those of its own evaluation history alone |
| HysteresisLaws.StateSummarisesHistory | internal/checks/aggregator.go:160-174 | the counter is the trailing run length, the candidate the last verdict, the committed state the verdict that last came twice in a row |
| HysteresisLaws.AnnouncementsChain | internal/checks/aggregator.go:167-182 | the transitions since the check was last dropped are the last of all announced and form a chain from Unknown to the committed state; without a repeated verdict there are none |
| Votes.NeverOutvotedNeverDown | internal/checks/aggregator.go:134-174 | in every run whose evaluations of the check never see more fresh failures than fresh successes, it is never down and nothing announced leads to Down |
| Votes.OneFlakyNodeNeverDown | internal/checks/aggregator.go:134-174 | one flaky node, with some other fresh success at every evaluation, never takes a check down |
| Votes.DownExactlyByMajority | internal/checks/aggregator.go:134-174 | from n fresh healthy nodes with no recovery and nothing stale, in every interleaving, the check is down if and only if floor(n/2)+1 nodes had been recorded as failed by each of its last two evaluations |
| Votes.HealthyCommitsUp | internal/checks/aggregator.go:134-174 | with fresh healthy nodes and no failures two evaluations commit Up, whatever was committed before |
| Votes.StaleCommitsUnknown | internal/checks/aggregator.go:134-174 | with everything stale two evaluations commit Unknown |
| AlertStream.OnTransition | internal/alerts/dispatcher.go:31-49 | one message per effective alert, in order, with one verb; none when filtered |
| AlertStream.LanguageIsPaired | internal/alerts/message.go:118-129 | the language (DOWN, DOWN RECOVERED)* is exactly: only these verbs, each RECOVERED right after a DOWN |
| AlertStream.StreamInLanguage | internal/alerts/dispatcher.go:208-225 | for every evaluation history, through Unknown spells and deletions, the stream of a node that stays master is in the language |
| AlertStream.AnnouncementsInLanguage | internal/daemon/daemon.go:123-128 | the same for every run of reports and evaluations, check by check |
| AlertStream.DispatchedExactly | internal/daemon/daemon.go:123-128 | for any dispatches in any order, mastership coming and going: what is sent is in the language if and only if every recovery passed on follows an outage passed on with no such recovery in between |
| AlertStream.RunInLanguageExactly | internal/daemon/daemon.go:123-128 | for every run and pattern of mastership: the stream of a check is in the language if and only if each step from Down to Up taken while master comes after a step into Down taken while master, with no such recovery in between |
| AlertStream.CleanTermsInLanguage | internal/daemon/daemon.go:123-128 | a node that finds the check not down whenever a term of its mastership begins keeps to the language |
| AlertStream.NewMasterBreaksPairing | internal/daemon/daemon.go:123-128 | over a history of verdicts: a node that becomes master between outage and recovery sends a lone RECOVERED |
| AlertStream.SecondTermBreaksPairing | internal/daemon/daemon.go:123-128 | one that misses the second of two outages sends DOWN RECOVERED RECOVERED |
| AlertStream.FirstUpIsSilent | README.md:445-449 | the documented first UP is announced by the aggregator and filtered out |
| EffectiveAlerts.EffectiveAlertsFor | internal/config/cluster.go:408-452 | the nested scans compute the eligible listed alerts and defaults, each id once |
| EffectiveAlerts.EffectiveIsSetFormula | internal/config/cluster.go:404-452 | with unique ids: no duplicates, and an alert is in the result if and only if it is the first whose id or name is listed or a default, is not disabled, and neither its id nor its name is suppressed |
| EffectiveAlerts.EffectiveOrder | internal/config/cluster.go:438-450 | first matches of listed names in listed order, then defaults in configuration order |
| Preview.Render | internal/cli/builder.html:561-616 | the token loop yields, for the tokens of any template tree, the text that the tree means |
| Preview.TemplateMeaning | internal/cli/builder.html:567-615 | in any surrounding state, a template's tokens add exactly its text if the surroundings emit, nothing if not, and restore the stack |
| Preview.AnyTokensStayStacked | internal/cli/builder.html:566-605 | for any tokens, ill-nested too: the stack is never empty, each frame's parent flag is the emit flag below it, and no frame emits two branches |
| Preview.StrayElseSilences | internal/cli/builder.html:587-592 | an else outside every block ends all output |
| Preview.StrayEndIsIgnored | internal/cli/builder.html:575-578 | an end outside every block changes nothing |
| Scheduler.Scheduler.Reconcile | internal/checks/scheduler.go:66-100 | exactly the ids of enabled entries run, each with the kind, target, interval, timeout, expectations and effective resolvers of its last such entry; workers that stay are untouched, all others are new, and every worker ever started runs or was cancelled exactly once |
| Scheduler.ReconciledMeans | internal/checks/scheduler.go:85-99 | field by field: exactly the wanted ids run, each with the wanted kind, target, interval, timeout, expectations and resolvers; a worker that had them all is the same one, any other is newly started |
| Scheduler.Scheduler.StopAll | internal/checks/scheduler.go:133-140 | nothing runs, and every worker ever started was cancelled exactly once |
| Scheduler.CancelledExactly | internal/checks/scheduler.go:85-91 | a reconciliation cancels each worker that does not stay once, and no other |
| Scheduler.ReconcileTwiceIsOnce | internal/checks/scheduler.go:66-100 | a repeat on the same wish starts and stops nothing |
| Scheduler.StaleProbeExactly | internal/checks/scheduler.go:142-154 | a worker left running gets the verdicts of the new configuration on every network if and only if the TLS or DNS options its kind reads come to the same thing; HTTP, TCP and ICMP workers always do |
| Scheduler.StaleTlsProbe | internal/checks/tls.go:56-68 | asking for 30 days of warning instead of 14 does not reach a running TLS probe |
| Scheduler.StaleDnsProbe | internal/checks/dns.go:24-36 | another record type does not reach a running DNS probe |
| Probes.AlikeExactly | internal/checks/probe.go:35-69 | checks equal but for TLS and DNS options are told apart by some network if and only if those that their kind reads differ after defaults, trimming and case |
| Scheduler.WantIsLastEnabled | internal/checks/scheduler.go:68-80 | an id is wanted exactly if an enabled entry has it, and then as its last such entry says, with the effective resolvers |
| Frames.Writer.WriteFrame | internal/transport/frame.go:16-27 | an oversized body is refused with nothing written; any other goes out as header and body, or, when the stream fails, as the front of that |
| Frames.Reader.ReadFrame | internal/transport/frame.go:31-45 | what `ReadOneExactly` says of the stream, and what is left of it |
| Frames.ReadOneExactly | internal/transport/frame.go:31-45 | clean end on an empty stream, cut short when the header or body is incomplete, refused with four bytes taken off when they spell more than 16 MiB, otherwise the body and the rest |
| Frames.HeaderRoundTrip | internal/transport/frame.go:20-36 | the 4-byte big-endian length survives both ways |
| Frames.StreamRoundTrip | internal/transport/frame.go:16-45 | any list of bodies within the limit is read back, then end of file |
| Frames.CutStream | internal/transport/frame.go:29-45 | a stream cut anywhere gives exactly the whole frames before the cut, then an error, which is a clean end exactly at 0 or 4 bytes into a frame |
| Enrolling.EnrollPeersForJoiner | internal/daemon/handlers.go:207-225 | exactly the peers other than the joiner that carry certificate material, in order |
| Enrolling.ScreenExactly | internal/daemon/handlers.go:120-149 | a request is let through if and only if it is complete, its fingerprint is that of its certificate, and the first token of its id exists, has not expired and has its secret; each rejection reason in the same terms |
| Enrolling.HandleEnroll | internal/daemon/handlers.go:119-200 | whatever others do in between, on master and follower: it gets past the screening if and only if fields, certificate, token, expiry and secret are in order, and the answer says exactly how far it got after that; only an accepted joiner is trusted, under the data it sent |
| Enrolling.TokenIsConsumedExactly | internal/daemon/handlers.go:159-181 | with any mutations between recording and approving: the approval consumes the presented token if and only if it is then still there with a joiner and no enrollment ahead is named by its id |
| Enrolling.ApprovesTheOtherJoiner | internal/daemon/handlers.go:174-181 | a token whose id is the name of another pending one approves that other joiner and stays |

## Left out

- Disk and encoding: YAML, JSON, atomic writes and hashing. A write that fails leaves the
  in-memory version bumped (`internal/config/cluster.go:354-365`); the model assumes writes succeed
  and payloads are decoded, with `Undecodable` for those that are not.
- Sharing of `PendingJoin` pointers between copies (`copyEnrollments`): lists and joins are values here.
- Absent lists and empty lists are the same value.
- TLS, certificates, trust store, secret hashing: `derived` and `secretOk` are inputs of `Enrolling`.
- RPC transport, connection pool, timeouts: a call that failed is an absent response.
- The heartbeat ticker's outbound calls: their effect on the caller is `MarkLive` and `MaybeNotifyVersion`.
- Wall-clock skew and 64-bit overflow of versions, terms and durations: integers are unbounded.
- Interference inside one call: a class method is stated for a call that nothing interrupts (`Enrolling.HandleEnroll`
  names what happens in between); the runs interleave the critical sections themselves.
- Two clock readings inside one critical section are one instant.
- The order of two dispatches: in a run transitions are dispatched in the order of their commits, though the source
  dispatches after releasing the lock; `AlertStream.DispatchedExactly` holds for any order.
- Leadership in `Replication`: any node may commit there at any time, with or without quorum, so the
  hypothesis of agreement is about who commits, not about elections; `Partition` has the quorum check.
- A new node on a side of `Partition` that has not committed anything: enrolling needs a commit.
- Tokens issued with a joiner already attached: `internal/daemon/control.go:364-372` never does that, and
  `Replication` takes it as a hypothesis (`BlankTokens`).
- Aggregator.Aggregator.Tally: which failure's detail is reported depends on map order and is left open.
- AlertStream.OnTransition: message texts, logging and delivery failures are not modelled.
- Computing effective resolvers is a parameter of `Scheduler`; the probing loop of a worker and its jitter are left out.
- Network calls of the probers: `Probes` has any function from questions to answers; latencies and detail texts are not
  modelled, parsing of TLS targets and case folding are parameters.
- Preview.Render: splitting the template into tokens and evaluating conditions and paths are parameters,
  so the theorems hold for every evaluator; white-space trimming is part of the splitting.
- Go `text/template` rendering, default templates, e-mail and webhook sending.
- The manual-edit watcher's polling and hash comparison; only the mutation that it forwards is modelled.
- Command line, terminal interface, self-update, installation scripts.
