# xhad: a verified model of the host-membership daemon

xhad keeps a pool of hosts agreed on who is alive. Hosts exchange their maps by heartbeat and through
a state file on a shared disk, run a fault handler in lockstep when their views change, let one partition survive,
and elect one master with a lock whose flags travel through the state file. This project models that
logic in Dafny 4.11 and proves what it keeps. `dafny verify dfyconfig.toml` checks everything.

Host maps are `set<nat>`; `HostBitmap.dfy` ties them to the two-word bitmaps of the source. The number of
hosts is a parameter, bounded by 64 only where a score packs an index into a byte. Fixed-width arithmetic is
written out where it can wrap (`MachineInts.dfy`).

| file | contents |
|---|---|
| Scores, Merge, Survival, AnyViews, Arbitration, SplitBrain, StateManager | partition arbitration: packed scores, the greedy merge of the heartbeat rows, the vote, Survival Rules 1 and 2, and the loops of the fault handler that compute them in place |
| Rendezvous | the fault-handler barrier on stale, mod-10 phase names, over heartbeat and state file |
| Fencing, Domains, Desertion | dropping hosts from the two domains, the wait before the liveset shrinks, and the case of a host that deserts this one |
| LockManager, LockExclusion | the lock over one shared view, and over the five-hop path of stale copies |
| Join, JoinProtocol | admission of joining hosts, one host's step and the whole pool |
| ObjectTable | the common-object table: in-place hash chains, handles, locks, callbacks |
| WeightText, WeightFile, WeightTable, WeightCommand | the weight file: scanner, printer, table, the daemon's reload and the command |
| ExcludedFlag, StateFileIO | the write-behind excluded flag; sections, checksums and slots of the state file |
| HostBitmap, Hosts, MachineInts, Runs, Wrappers | bitmaps, shared data types, integers, runs of a state machine |

Each loop or in-place update of the source is a method proved against a specification function (`Reduce`, `Step`,
`Updated`, `Sealed`, ...); the theorems are lemmas about those functions. Protocols are state machines whose
reachable states are all states after any number of enabled steps.

## What the code does not do

Some expectations turned out false of the code; each has a lemma with a concrete failing case beside the exact
condition or the theorem that does hold.

- A starting host adopts the hosts that it sees on the state file, not the liveset. If a live host is missing there, the
  newcomer can finish joining without that host's acknowledgement. The case that the code foresees is an excluded host
  that starts while the pool survives by Survival Rule 2: it adopts nobody and waits for nobody
  (`JoinProtocol.StartUnderSR2IsUnacknowledged`). A start keeps newcomers acknowledged in every continuation iff the
  adopted liveset contains the whole common one (`JoinProtocol.StartIsSafeIffComplete`); as long as every start does,
  newcomers are acknowledged (`JoinProtocol.NewcomersAreAcknowledged`).
- The merge can strike out everybody although one candidate's row contains itself
  (`Merge.OneReflexiveRowIsNotEnough`); with every candidate's row reflexive, which `update_hbdomain` ensures, it cannot
  (`Merge.SomebodySurvives`).
- The vote compares a signed 32-bit size, which nine hosts at the greatest legal weight make negative
  (`Scores.NineHostsWrap`). In a pool of ten where the merge keeps those nine, every host fails the survival test
  (`Arbitration.TenHostsElectNobody`). The merged clique wins iff it is the whole state-file domain or its wrapped size is
  positive (`Arbitration.Decisive`, `Arbitration.MergeThenVoteElectsWinners`).
- The vote of a fault handling also counts hosts outside the liveset. One that publishes a state-file domain with a host
  that has left it can let that host survive by Rule 1 beside another one's Rule 2 (`SplitBrain.WrongStarterSplitsRules`).
  While some host survives by Rule 2, a non-excluded host survives by Rule 1 iff a host outside the liveset leads its
  vote and the two see each other on both channels (`SplitBrain.BothRulesIffStarterWins`). Hosts that publish nothing
  wrong cannot lead it so, and then no two rules hold at once (`SplitBrain.NoSurvivalUnderBothRules`).
- A host that has lost the state file itself, but agrees with a host that is on it, passes the survival test outside the
  elected set (`Arbitration.HostOffStatefileSurvives`). With somebody on the state file, a host survives its round iff
  its comparison succeeds, or the merge keeps it and the vote is decisive; either way it commits the same set, the
  winners of the merge (`StateManager.FaultHandler.RunRoundOnSharedViews`).
- A raised SR2 flag survives a round that is won by Rule 1. If views agree, the host then keeps whoever it sees by heartbeat,
  also those off the state file (`Arbitration.RaisedFlagKeepsTheRow`); with the flag down, or after a merge, it commits
  the elected set (`Arbitration.AgreementElectsDomain`, `Arbitration.RaisedFlagAfterMerge`).
- On the state file the ten phase names do alias: a host can pass into FH2 on a slot copy of the previous round
  (`Rendezvous.StaleSlotPassesIntoFh2`). A matching name is the right phase iff the copy is less than nine phases
  old (`Rendezvous.StatefileNamesExact`). On the heartbeat names never alias. Nor is a copy of less than nine phases in
  the body of FH2 always one of FH2: one that was read earlier may be published late (`Rendezvous.LateCopyInFh2`). It
  is one on entry iff it is less than nine phases old then (`Rendezvous.EntersOnRoundCopy`), and from then on to the end
  of the body (`Rendezvous.Fh2BodyHoldsRoundCopies`).
- Two hosts that cancel and re-request quickly can both see themselves locked
  (`LockExclusion.FastRerequestsCanBothLock`), because readiness is judged by cached copies. They cannot if the host of
  lower priority raised its request when no copy of an earlier request of its own, or of a grant to it, was left; every
  first request is such a one (`LockExclusion.LockExclusion`, `LockExclusion.FirstRequestIsClean`).
- The fencing wait is a wrapping unsigned product. It is long enough, whatever the timing, iff the product does
  not overflow (`Fencing.DelayIsLongEnough`); with the extension, iff both products together lose no multiple of 2^32
  (`Fencing.ExtendedDelayIsLongEnough`).
- A host that left the heartbeat domain because it dropped this host first is not dropped by a timeout. If it is gone from
  the state-file domain too, the wait is not extended and it may still run at the end (`Desertion.DesertedHostMayStillRun`).
  An unextended wait suffices for a host iff its last sign of life is old enough (`Fencing.UnextendedDelayBound`).
- After a torn write of its own slot a host never writes it again, so the value set last never reaches the disk
  (`ExcludedFlag.TornWriteIsFinal`); a short write even passes for a success. It writes again iff its slot can be read
  (`ExcludedFlag.WritesAgainIffReadable`).

## Model

| member | source | states |
|---|---|---|
| Scores.ScoreStrictlyMonotone | daemon/sm.c:2066-2083 | a proper subset of a partition has a strictly smaller score |
| Scores.ScoreIsLexicographic | daemon/sm.c:2066-2083 | the packed score orders partitions by weight, then number of hosts, then lowest index first |
| Scores.ScoreFitsS64 | daemon/sm.c:2066-2083 | the 64-bit score never overflows, for any 32-bit weights and 64 hosts |
| Scores.PartitionSizeExact | daemon/sm.c:2033-2062 | below a total weight of 2^23 the wrapping 32-bit size is the exact packed size |
| Scores.EightHostsFit | include/hostweight.h:58-63 | up to eight hosts at any legal weights stay below that total |
| Scores.PackedSizeIsLexicographic | daemon/sm.c:2033-2062 | the unwrapped size orders by weight, then number of hosts |
| Scores.WeightOfOne | daemon/sm.c:2033-2083 | a single host counts once, with its own weight and its own index |
| Scores.WeightAdds | daemon/sm.c:2033-2083 | weights and numbers of hosts of disjoint partitions add up |
| Scores.NineHostsWrap | daemon/sm.c:2033-2062 | nine hosts at the greatest legal weight get a negative size |
| Scores.GetPartitionSize | daemon/sm.c:2033-2062 | the loop that wraps at every addition returns the once-wrapped packed size |
| Scores.GetPartitionScore | daemon/sm.c:2066-2083 | the single scan returns the score that the ordering lemmas are about |
| Merge.Selected | daemon/sm.c:2523-2539 | the selected host has the least score of all candidates, the highest index on a tie; none iff all are removed |
| Merge.StableIsClique | daemon/sm.c:2540-2551 | when the loop stops every remaining row equals the remaining set |
| Merge.ReduceLeavesClique | daemon/sm.c:2521-2559 | so for the whole loop: what is left is fully connected, and rows only lost removed hosts |
| Merge.SurvivorsSeeEachOther | daemon/sm.c:2521-2559 | any two survivors were in each other's original rows |
| Merge.SomebodySurvives | daemon/sm.c:2521-2559 | with reflexive rows, somebody survives iff there is a candidate |
| Merge.OneReflexiveRowIsNotEnough | daemon/sm.c:2521-2559 | two rows, one of them reflexive, from which nobody survives |
| Merge.EqualScoresShareLowest | daemon/sm.c:2066-2083 | on a clean partition, classes with equal scores are the same class |
| Merge.GuardedClassSurvives | daemon/sm.c:2521-2559 | a class that outscores everything apart from it is what the loop leaves |
| Merge.MergeKeepsBestPartition | daemon/sm.c:2520-2559 | on a clean partition the merge keeps exactly the class of greatest score |
| Merge.HeavierHostSurvives | daemon/sm.c:2521-2559 | of two hosts that do not see each other the merge keeps the heavier one, for any weights, the first one on a tie |
| AnyViews.LostHostsLeaveTheMerge | daemon/sm.c:2488-2595 | on any views, exactly the hosts that see no live host on the state file, by heartbeat or slot, leave the merged domain; whoever is outside it has no row, is in no row, and is not elected |
| AnyViews.MergedRowsAreOneClique | daemon/sm.c:2456-2595 | on any views, whoever is left in a row was in the published heartbeat map of its host, and both have the same row, inside the merged domain |
| AnyViews.MergeLeavesSomebody | daemon/sm.c:2521-2595 | with published maps that contain their hosts, the merge leaves somebody unless the merged domain is empty |
| AnyViews.MergedCopies | daemon/sm.c:2456-2504 | the other copies are cut to the liveset, the local ones follow the merged domain |
| Arbitration.WinnersAreAClique | daemon/sm.c:2488-2595 | the merged set lies in the state-file domain, is fully connected, and is empty iff that domain is |
| Arbitration.SharedViewsResolve | daemon/sm.c:2488-2595 | the stable views of any host that shares the pool's facts are those of the merged set |
| Arbitration.ResolvedVote | daemon/sm.c:2087-2138 | after the merge the vote is won exactly by the merged set, if its size is positive |
| Arbitration.ResolvedRule1 | daemon/sm.c:1040-1060 | after the merge Rule 1 holds exactly for its members, if decisive |
| Arbitration.ResolvedRule2 | daemon/sm.c:1068-1090 | after the merge no non-excluded host survives by Rule 2 |
| Arbitration.MergeThenVoteElectsWinners | daemon/sm.c:1026-1124 | a host passes the survival test iff it is in the merged set and the vote is decisive |
| Arbitration.LightPoolsAreDecisive | daemon/sm.c:2033-2062 | below a total weight of 2^23 the vote is always decisive |
| Arbitration.TenHostsElectNobody | daemon/sm.c:2033-2138 | ten hosts at the greatest legal weight, nine of them connected: the merge keeps the nine, and every host that shares the views fails the survival test |
| Arbitration.SurvivorsCommitWinners | daemon/sm.c:1005-1013 | every armed survivor with SR2 clear commits exactly the merged set as its liveset |
| Arbitration.AgreementElectsDomain | daemon/sm.c:1040-1050 | if the comparison finds no disagreement and somebody is on the state file, every host survives by Rule 1, on the state file or not, and commits the state-file domain, which is what the merge would keep |
| Arbitration.EmptyDomainCommits | daemon/sm.c:1092-1124 | with nobody on the state file a survivor by Rule 1 commits nobody, one by Rule 2 exactly the hosts it sees |
| Arbitration.HostOffStatefileSurvives | daemon/sm.c:1043-1050 | shared facts on which a host survives that is not in the elected set |
| Arbitration.AgreementMakesVoteUnnecessary | daemon/sm.c:2384-2419 | if the comparison finds no disagreement, the state-file domain is inside the heartbeat domain and Rule 1's first test succeeds |
| AnyViews.UnseenPeersDoNotMatter | daemon/sm.c:2384-2419 | what the copies of a peer say that is in neither local domain never changes the comparison |
| AnyViews.SeenPeersMustAgree | daemon/sm.c:2384-2419 | if the comparison succeeds, each channel over which a live peer is seen carries both maps as they are held here |
| AnyViews.CurrentCopiesAgree | daemon/sm.c:2384-2419 | and it does succeed when they do |
| AnyViews.HeaviestPartitionLeads | daemon/sm.c:2087-2124 | on any views of a light pool the vote goes to the heaviest partition that a host on the state file shows, by weight, number of hosts, and lowest host |
| AnyViews.Rule2IgnoresSlots | daemon/sm.c:1068-1080 | Survival Rule 2 does not depend on what the slots or the local state-file domain say |
| AnyViews.WhatSpeaksAgainstRule2 | daemon/sm.c:1068-1080 | a visible peer whose heartbeat shows itself on the state file, the local access, or one unseen host that is not excluded refutes Rule 2 |
| AnyViews.SilenceMeetsRule2 | daemon/sm.c:1068-1080 | without them it holds |
| AnyViews.OnlyArmedHostsCommit | daemon/sm.c:985-1013 | an armed host intersects its liveset with its proposal, any other one leaves it alone |
| Arbitration.RaisedFlagKeepsTheRow | daemon/sm.c:1043-1124 | when views agree and somebody is on the state file, a raised SR2 flag stays up over a Rule-1 win, and the host commits its whole heartbeat row |
| Arbitration.RaisedFlagAfterMerge | daemon/sm.c:1043-1124 | after a merge it stays up too, but the host commits the elected set |
| SplitBrain.Rule1HasAnchor | daemon/sm.c:1043-1060 | a Rule-1 winner sees, on both channels, a host with state-file access |
| SplitBrain.Rule2EmptiesDomains | daemon/sm.c:1068-1090 | while some host meets Rule 2, no non-excluded host sees anybody of the liveset on the state file |
| SplitBrain.BothRulesIffStarterWins | daemon/sm.c:1046-1090 | and then such a host survives by Rule 1 iff a host outside the liveset leads its vote, the two seeing each other on both channels |
| SplitBrain.NoSurvivalUnderBothRules | daemon/sm.c:1046-1090 | so no two non-excluded hosts survive by different rules, also while other hosts are starting, as long as these publish nothing wrong about who is on the state file |
| SplitBrain.Rule2SurvivorsSeeEachOther | daemon/sm.c:1068-1090 | two non-excluded Rule-2 survivors are in each other's heartbeat domain |
| SplitBrain.NoSplitBrain | daemon/sm.c:1026-1124 | all non-excluded survivors hold one and the same heartbeat domain |
| SplitBrain.WrongStarterSplitsRules | daemon/sm.c:1046-1090 | views in which a host outside the liveset publishes a wrong state-file domain, and two live hosts survive by different rules |
| SplitBrain.LeaderIsTop | daemon/sm.c:2087-2138 | the scan of the vote finds the lowest host of a class of greatest positive size |
| SplitBrain.ExactlyOneClassWins | daemon/sm.c:1377-1399 | with rows forming an equivalence relation, the vote is won on all hosts of exactly one class |
| SplitBrain.HeavierHostWins | daemon/sm.c:2087-2138 | of two hosts that do not see each other the heavier one wins the vote, the first one on a tie, below 2^23; in general the one of greater wrapped size, if that is positive |
| SplitBrain.LightPoolHasTop | daemon/sm.c:2033-2138 | below 2^23 there is such a class, the greatest by weight and then number of hosts |
| StateManager.AmIInLargestPartition | daemon/sm.c:2087-2138 | the scan computes the vote of the theorems |
| StateManager.SelectLeast | daemon/sm.c:2525-2539 | the descending scan finds the host that the merge function selects |
| StateManager.FaultHandler.CompareViews | daemon/sm.c:2377-2420 | the comparison loop reports agreement iff every live, visible peer holds equal maps on both channels |
| StateManager.FaultHandler.CutRows | daemon/sm.c:2456-2482 | every raw row is cut to the liveset, the local row replaced by the local domains |
| StateManager.FaultHandler.DropLostHosts | daemon/sm.c:2488-2504 | exactly the hosts whose state-file domain is empty on a channel leave the local one |
| StateManager.FaultHandler.StrikeRow | daemon/sm.c:2553-2557 | one host's row is cleared, and its bit in every other row |
| StateManager.FaultHandler.StrikeInaccessible | daemon/sm.c:2506-2519 | all hosts outside the state-file domain are struck out |
| StateManager.FaultHandler.ReduceRows | daemon/sm.c:2521-2559 | the in-place greedy loop terminates with the rows of `Merge.Reduce` |
| StateManager.FaultHandler.MergeViews | daemon/sm.c:2456-2595 | the whole in-place merge leaves the stable views of `Survival.MergedViews` |
| StateManager.FaultHandler.TestRule2 | daemon/sm.c:1068-1080 | the loop decides Survival Rule 2 |
| StateManager.FaultHandler.TestSurvivalRule | daemon/sm.c:1026-1124 | answer, SR2 flags, proposal, live domains and extension flag after the test |
| StateManager.FaultHandler.DropFromProposal | daemon/sm.c:1092-1124 | exactly the unseen hosts leave the proposal and both live domains; the wait is extended iff one was still in a domain |
| StateManager.FaultHandler.CommitLiveset | daemon/sm.c:985-1013 | only an armed host whose proposal lost a live host changes its liveset |
| StateManager.FaultHandler.DecideAfterMerge | daemon/sm.c:955-1013 | on merged views of shared facts: survival iff in the merged set, and then that set is the liveset |
| StateManager.FaultHandler.DecideOnAgreement | daemon/sm.c:955-1013 | on views that agree: survival whenever somebody is on the state file, else by the vote or Rule 2, and the new liveset of each |
| StateManager.FaultHandler.RunRoundOnSharedViews | daemon/sm.c:948-1013 | one whole round on any shared facts, from the comparison to the new liveset, in every branch: agreement, disagreement and merge, and nobody on the state file |
| Rendezvous.CheckRendezvous | daemon/sm.c:841-866 | one pass of the wait answers whether every member's copies match by name |
| Rendezvous.WaitIsExact | daemon/sm.c:849-856 | under the invariant, a heartbeat copy matches by name iff it has reached the phase |
| Rendezvous.SlotsThatOpen | daemon/sm.c:857-864 | the wait of FH1DONE ends on slots of FH1DONE or FH2 only, the wait of FH2 on slots of FH2 or FH2DONE |
| Rendezvous.SlotsThatDoNotMatter | daemon/sm.c:937-976 | in the other eight phases the answer does not depend on the slots |
| Rendezvous.SlotsMoveOneStage | daemon/statefile.c:661-802 | each step copies one stage of one slot: memory to disk, disk to buffer, buffer to view |
| Rendezvous.HeartbeatsMovePhases | daemon/heartbeat.c:1250-1335 | a packet carries its sender's phase under a fresh number, and counts once, by that number |
| Rendezvous.StepKeepsInv | daemon/sm.c:904-920 | every step of every host and every delivery keeps the invariant |
| Rendezvous.ReachableInv | daemon/sm.c:815-920 | it holds in every state of every run |
| Rendezvous.SkewAtMostOne | daemon/sm.c:815-920 | no two members are ever more than one phase apart |
| Rendezvous.HeartbeatNamesNeverAlias | daemon/heartbeat.c:1250-1265 | on the heartbeat a matching name is the phase of this round |
| Rendezvous.BodiesNeverOverlap | daemon/sm.c:937-1019 | two hosts inside fault-handler bodies are inside the same one, and nobody is outside it and the next phase |
| Rendezvous.WeightsFrozen | daemon/sm.c:943-957 | while any host is in FH2, FH2DONE or FH3 no step changes any committed weight |
| Rendezvous.StatefileNamesExact | daemon/statefile.c:792-802 | on the state file a matching name is the phase of this round iff the copy is less than nine phases old |
| Rendezvous.RoundCopiesAreCommitted | daemon/statefile.c:944-948 | a slot copy of this round carries the weight its host committed |
| Rendezvous.WaitFetchesRoundCopies | daemon/sm.c:857-864 | a wait into FH2 has fetched copies of this round exactly from hosts whose copy is not nine phases old |
| Rendezvous.RoundCopiesStay | daemon/sm.c:815-920 | once fetched, copies of this round stay so until the host starts the next |
| Rendezvous.EntersOnRoundCopy | daemon/sm.c:946-947 | the wait of FH2 ends on a copy taken at or after FH2 of this round iff the copy is less than nine phases old |
| Rendezvous.Fh2BodyHoldsRoundCopies | daemon/sm.c:946-953 | in every run, a host in the body of FH2 holds for every member on disk such a copy, with the committed weight, if the copy it entered on was less than nine phases old, and else it entered on one of an earlier round |
| Rendezvous.LateCopyInFh2 | daemon/statefile.c:661-802 | a run in which a host that entered on an old copy publishes one of FH1 in the body of FH2 |
| Rendezvous.UpToDateViewsLetTheLastPass | daemon/sm.c:841-866 | with up-to-date views no host waits that is ahead of nobody |
| Rendezvous.LastCanPass | daemon/sm.c:815-898 | from every reachable state such a waiting host can be let pass by heartbeats, slot writes and reads alone, however stale the copies were |
| Rendezvous.NoDeadlock | daemon/sm.c:815-920 | in every reachable state some host can, after such traffic, end its wait or enter the next phase |
| Rendezvous.StaleSlotPassesIntoFh2 | daemon/sm.c:857-864 | a run in which a host enters the body of FH2 on a slot of the previous round, with the wrong weight |
| Domains.DomainKeeper.UpdateHbdomain | daemon/heartbeat.c:904-985 | who is in the heartbeat domain afterwards, the own bit always, and whether anybody but the own bit changed |
| Domains.DomainKeeper.UpdateSfdomainSub | daemon/sm.c:1876-1969 | the dry pass tells whether the writing pass would change the domain, and changes nothing |
| Domains.DomainKeeper.UpdateSfdomain | daemon/sm.c:1972-1993 | both passes together: the new state-file domain, and the access flag lost only when something changed |
| Fencing.BaseDelayIsOneWrap | daemon/sm.c:997-1000 | the wraps of the unsigned operations add up to one wrap of the whole product |
| Fencing.DelayIsLongEnough | daemon/sm.c:996-1001 | the wait outlasts every watchdog of a host lost by timeout, whenever phase 4 begins, iff the product stays below 2^32 |
| Fencing.ExtendedDelayIsLongEnough | daemon/sm.c:996-1001 | the extended wait does so for hosts still visible when phase 3 began, iff both products together lose no multiple of 2^32, for every configuration |
| Fencing.ExtendedDelaySuffices | daemon/sm.c:996-1001 | so it does whenever watchdog plus interval do not overflow, whatever the timeouts |
| Fencing.UnextendedDelayBound | daemon/sm.c:996-1001 | an unextended wait outlasts a host, whenever phase 4 begins, iff its last sign of life is old enough when phase 3 begins |
| Fencing.FencingPhase.Run | daemon/sm.c:985-1013 | the liveset changes only after the whole wait, and only on an armed host |
| Fencing.DroppedHostHasFenced | daemon/heartbeat.c:905-968 | a host dropped by its timeout has an expired watchdog when the liveset shrinks |
| Fencing.RemovedHostHasFenced | daemon/sm.c:1105-1122 | so has a still visible host that phase 3 removed |
| Fencing.WaitIsTight | daemon/sm.c:996-1001 | the wait ends exactly when the last such watchdog expires, or ten seconds after phase 4 begins |
| Desertion.DropDeserter | daemon/heartbeat.c:927-936 | a host heard just now leaves the heartbeat domain because it dropped this one first, and the state-file domain only by its timeout |
| Desertion.RemoveDeserter | daemon/sm.c:948-1124 | over a whole round, merged or not, the lower of two hosts survives and removes the other one; the wait is extended iff that one was on the state file |
| Desertion.DesertedHostMayStillRun | daemon/sm.c:985-1013 | both together: the deserter is down when the liveset shrinks if it was on the state file; else iff the unextended wait reaches watchdog and interval |
| Fencing.DefaultsAreSafe | include/config.h:56-61 | the default timeouts meet the conditions |
| LockManager.LockMgr.AmIReadyToRequest | daemon/lock_mgr.c:837-859 | ready iff nobody online grants or has been granted anything prior or equal to this host |
| LockManager.LockMgr.IsLockedBy | daemon/lock_mgr.c:914-932 | locked iff all online hosts grant it |
| LockManager.LockMgr.GetLockNode | daemon/lock_mgr.c:880-900 | the lowest locked online host, or none |
| LockManager.LockMgr.WithdrawGrants | daemon/lock_mgr.c:618-636 | only grants to hosts that no longer request go |
| LockManager.LockMgr.ProcessOrders | daemon/lock_mgr.c:638-662 | a request is raised iff pending, ready and not cancelled |
| LockManager.LockMgr.GrantOthers | daemon/lock_mgr.c:664-685 | who is granted: requesters, by priority against the own request |
| LockManager.LockMgr.Pass | daemon/lock_mgr.c:618-685 | one pass computes the step function of the protocol lemmas |
| LockManager.PassRaises | daemon/lock_mgr.c:637-665 | a pass has the request up iff it was up, or an order waited while no online host granted this one and this one granted no online host behind it, and no cancellation was open; and which orders are left |
| LockManager.PassGrants | daemon/lock_mgr.c:618-683 | exactly whom a pass leaves with a grant |
| LockManager.OrdersOnlyMark | daemon/lock_mgr.c:480-560 | a request or cancel order changes nothing but its own mark |
| LockManager.PassIsLocal | daemon/lock_mgr.c:589-690 | a pass changes nothing of another host, and nothing at all on an offline one |
| LockManager.LockedAfterAllHavePassed | daemon/lock_mgr.c:837-849 | after a pass that raises a request, the host is locked only once every online host has passed since: no grant of an earlier request is left |
| LockManager.StepKeepsPriority | daemon/lock_mgr.c:618-685 | every step keeps: request up implies no grant to any higher index |
| LockManager.AtMostOneHolder | daemon/lock_mgr.c:914-932 | at most one requesting host is locked |
| LockManager.HolderSurvivesOrder | daemon/lock_mgr.c:618-685 | any step of anybody leaves the holder locked unless it cancels, and no higher-priority host can raise its request |
| LockManager.HolderIsStable | daemon/lock_mgr.c:618-685 | so over any interleaving of steps |
| LockManager.EveryRunSettles | daemon/lock_mgr.c:589-690 | from any shared state, whatever orders are open, once each online host has passed 2n + 3 times in rounds, no pass changes anything more |
| LockManager.WantedLockIsTaken | daemon/lock_mgr.c:589-690 | if an online host wants the lock and does not cancel, the lock is then held, by the lowest online requester |
| LockManager.SettledLockIsLowestRequester | daemon/lock_mgr.c:788-791 | when nothing moves any more, the lock is with the lowest online requester, and with nobody only if no online host asks or waits to ask |
| LockExclusion.HopsCopyOneStage | daemon/statefile.c:738-742 | each hop copies one stage of one host's flags; a read never touches the reader's own row |
| LockExclusion.CleanFromRaiseToCancel | daemon/lock_mgr.c:637-665 | a request that was raised without traces counts as clean until it is taken down |
| LockExclusion.StepKeepsInv | daemon/statefile.c:738-742 | every pass, write, read and publication keeps the chains of copies |
| LockExclusion.ReachableInv | daemon/statefile.c:966-967 | in every state of every run |
| LockExclusion.CleanLockExcludesHigher | daemon/lock_mgr.c:837-859 | a host locked on a clean request sees no higher-priority online host requesting anywhere |
| LockExclusion.LockExclusion | daemon/lock_mgr.c:618-685 | two hosts never both see themselves locked, however stale the copies, if the request of the one of lower priority is clean |
| LockExclusion.FirstRequestIsClean | daemon/lock_mgr.c:412-428 | a host's first request is clean |
| LockExclusion.FastRerequestsCanBothLock | daemon/lock_mgr.c:837-859 | a run with unclean requests in which both hosts see themselves locked |
| Join.JoinAgent.AllAcked | daemon/sm.c:1604-1615 | the loop decides whether every live host has proposed the joiner |
| Join.JoinAgent.ProcessJoinRequest | daemon/sm.c:1556-1660 | which hosts enter the proposal and which the liveset |
| Join.ScanOutcome | daemon/sm.c:1578-1642 | in terms of the received maps: a host is live after the scan iff it was, or is visible and counts itself live, or asks and is in the proposal of every live host, this one included; and who is proposed |
| JoinProtocol.StartsInSightOfAll | daemon/sm.c:1202-1217 | a host starts into a liveset iff it sees everybody on the state file, and somebody there is not starting or the pool survives by Rule 2 with everybody visible or excluded |
| JoinProtocol.WaitEnds | daemon/sm.c:1494-1550 | join() succeeds iff everybody else whom the host counts live is known to propose it, and fails only while somebody is not |
| JoinProtocol.PacketsReplaceMaps | daemon/heartbeat.c:1275-1335 | a packet counts once; that of a restarted host leaves its maps alone while it counts as live here, any other one replaces them |
| JoinProtocol.AcknowledgedJoinerIsAdmitted | daemon/sm.c:1600-1626 | in a reachable state, once every live host's copy shows the acknowledgement, the next scan admits the joiner |
| JoinProtocol.WaitingHostCanBeAdmitted | daemon/sm.c:1556-1660 | from every reachable state a waiting host can be let in on acknowledgements alone, by a host whose whole liveset works and has not let it in |
| JoinProtocol.StepKeepsInv | daemon/sm.c:1463-1660 | every step of every host, and every delivery, keeps the invariant |
| JoinProtocol.ReachableInv | daemon/sm.c:1463-1660 | in every state of every run with any number of simultaneous joiners, from whatever livesets they start |
| JoinProtocol.NewcomersAreAcknowledged | daemon/sm.c:1600-1660 | while every start was from a liveset that contains the common one, whoever any host counts as live beyond it is in the proposal of every host of it |
| JoinProtocol.StartIsSafeIffComplete | daemon/sm.c:1260-1287 | after a start every continuation keeps newcomers acknowledged iff the adopted liveset contains the common one |
| JoinProtocol.JoinsUnheard | daemon/sm.c:1494-1533 | otherwise the new host can finish joining with the acknowledgement of those it adopted only |
| JoinProtocol.StartUnderSR2IsUnacknowledged | daemon/sm.c:1209-1216 | the run in which an excluded host starts while the pool survives by Survival Rule 2, adopts nobody, and is live unacknowledged |
| JoinProtocol.AcknowledgementIsStable | daemon/sm.c:1556-1660 | and stays there |
| JoinProtocol.GivenUpHostsWithdraw | daemon/sm.c:1541-1550 | a host whose join has failed neither counts itself live nor proposes itself, in every run |
| JoinProtocol.NoUninvitedHost | daemon/heartbeat.c:1334-1335 | nobody who has not asked is ever proposed or counted as live |
| ObjectTable.CalcHash | daemon/com.c:173-183 | the loop computes the wrapping hash of the chain lemmas |
| ObjectTable.HashWrapsOnce | daemon/com.c:173-183 | wrapping at every step is wrapping once: the hash is the polynomial in 137 over the signed characters, modulo 2^32 and then 1021 |
| ObjectTable.Table.Find | daemon/com.c:370-391 | the object with the id, or proof that there is none |
| ObjectTable.Table.Insert | daemon/com.c:397-409 | the chains afterwards: the object at the head of its bucket, all else unchanged |
| ObjectTable.Table.Delete | daemon/com.c:415-440 | exactly the object with the id leaves the table |
| ObjectTable.Table.Open | daemon/com.c:730-888 | a handle on the object with the id, made on demand; exactly its count rises |
| ObjectTable.Table.Close | daemon/com.c:907-947 | the count falls; the object goes iff its last handle, lock and callback are gone |
| ObjectTable.Table.RegisterCallback | daemon/com.c:966-1010 | the callback goes to the head of the object's list, the table stays valid |
| ObjectTable.Table.DeregisterCallback | daemon/com.c:1027-1071 | the first matching entry goes, or the call fails |
| ObjectTable.Table.Lock | daemon/com.c:1092-1150 | the in-use count rises, the table stays valid |
| ObjectTable.Table.Unlock | daemon/com.c:1152-1216 | and falls again |
| ObjectTable.Table.IdsAreUnique | daemon/com.c:397-409 | an id names at most one object |
| ObjectTable.Table.OpenHandleKeepsObject | daemon/com.c:907-947 | an open handle's object is in its bucket, counted, and the only one with its id |
| ObjectTable.Table.HandleAdded | daemon/com.c:842-848 | opening adds one to the number of handles on that object only |
| ObjectTable.Table.HandleRemoved | daemon/com.c:919-924 | closing takes one from it |
| WeightText.LineRoundTrip | lib/weightio.c:205-213 | a printed entry is scanned back unchanged, for every 32-bit weight |
| WeightText.ScanOfAnyLine | lib/weightio.c:205-213 | any line with a word and a number, whatever blanks, sign and text behind it, gives that entry iff the line is short enough and the word fits |
| WeightText.ScannedEntries | lib/weightio.c:205-213 | whatever is scanned is a word of 1 to 64 characters of the line with a digit behind it |
| WeightText.SpaceCharacters | lib/weightio.c:207-207 | which characters separate words |
| WeightText.ValueOfDecimal | lib/weightio.c:282-282 | the digits printed for a number denote it |
| WeightFile.ReadHostweightFile | lib/weightio.c:167-240 | the table holds the records of the lines, in order, at most its size, then blank entries |
| WeightFile.ScanText | lib/weightio.c:196-235 | the scanning loop meets the line-by-line specification, whatever the line scanner |
| WeightFile.LoadedIsPrefix | lib/weightio.c:179-196 | the text scanned is the file up to its first NUL or the size of the buffer |
| WeightFile.LinesMakeTheText | lib/weightio.c:199-235 | the lines, with a newline between each two, are the whole text, and hold no newline |
| WeightFile.RecordsOfStretches | lib/weightio.c:199-235 | the records of two stretches of lines are those of the first, then those of the second in what room is left |
| WeightFile.RecordsOfOneLine | lib/weightio.c:205-222 | a line that is no record takes no room |
| WeightFile.WriteHostweightFile | lib/weightio.c:268-298 | the file holds one line for each entry in use |
| WeightFile.FileRoundTrip | lib/weightio.c:268-298 | the records of a written file are the entries in use, in order |
| WeightFile.WriteThenRead | lib/weightio.c:167-298 | writing and reading back moves the blank entries to the end and changes nothing else |
| WeightTable.SetHostweightTable | lib/weightio.c:329-372 | the table and status afterwards, in every branch |
| WeightTable.SetIsMapUpdate | lib/weightio.c:329-372 | on distinct names it is insertion into the map of classes, or removal |
| WeightTable.SetKeepsDistinct | lib/weightio.c:329-372 | names stay distinct |
| WeightTable.SetOfNoName | lib/weightio.c:339-353 | the empty name changes no class |
| WeightTable.OverflowsWhenFull | lib/weightio.c:356-371 | a class is refused iff it is new and the table holds as many classes as entries |
| WeightCommand.CalcHostweight | daemon/hostweight.c:129-145 | the 32-bit sum of the table plus the built-in weight |
| WeightCommand.GetWeight | daemon/hostweight.c:152-170 | the weight of the first entry of that name, or 0 |
| WeightCommand.SetMovesTotal | lib/weightio.c:329-372 | setting a class moves the total by the difference of its weights |
| WeightCommand.CompactingKeepsWeights | daemon/hostweight.c:129-145 | neither classes nor total depend on where the blank entries stand |
| WeightCommand.Reload | daemon/hostweight.c:292-350 | after a reload the table in use is that of the file, and its sum the host's weight |
| WeightCommand.WeightSet | commands/weightctl.c:124-200 | the file and status the command leaves, in every branch |
| WeightCommand.ReadBack | daemon/hostweight.c:131-143 | reading back a stored table keeps its classes and its total |
| WeightCommand.ReloadedWeight | daemon/hostweight.c:131-143 | the weight never wraps for a stored table |
| WeightCommand.CommandStep | commands/weightctl.c:124-200 | a command inserts or removes a class, and fails exactly on a bad name or weight or a seventeenth class |
| WeightCommand.NamesAreStoredWhole | commands/weightctl.c:157-167 | names of at most 64 characters are stored whole, of longer ones the first 64 characters |
| WeightCommand.LegalCommandTakesEffect | commands/weightctl.c:124-200 | a printable name of 1 to 64 characters other than "native" and a weight up to 65535 take effect iff the class exists, is removed, or fewer than sixteen exist |
| WeightCommand.BadCommandFails | commands/weightctl.c:135-155 | any other command with a bad weight or name fails and leaves the file alone |
| WeightCommand.BuiltinClassIsNeverStored | commands/weightctl.c:142-147 | no sequence of commands ever stores the built-in class |
| WeightCommand.CommandsBuildTheMap | commands/weightctl.c:124-200 | after any sequence of commands the daemon reads exactly the map they describe, and the exact sum plus one, which is a legal weight |
| ExcludedFlag.StateFileThread.SetExcluded | daemon/statefile.c:1089-1103 | mask up, flag set, nothing else |
| ExcludedFlag.StateFileThread.BeginWrite | daemon/statefile.c:932-938 | the flag is copied, the mask cleared and remembered |
| ExcludedFlag.StateFileThread.SkipWrite | daemon/statefile.c:550-552 | without a successful read there is no write |
| ExcludedFlag.StateFileThread.EndWrite | daemon/statefile.c:977-1000 | a failed write raises a remembered mask again |
| ExcludedFlag.StateFileThread.FetchOwn | daemon/statefile.c:661-683 | a successful attempt fetches the slot |
| ExcludedFlag.StateFileThread.EndRead | daemon/statefile.c:744-752 | the flag is taken from the buffer only with the mask down |
| ExcludedFlag.RunKeepsInv | daemon/statefile.c:634-1003 | the invariant holds over every interleaving of sets, writes and reads, failing or not |
| ExcludedFlag.NoUpdateIsLost | daemon/statefile.c:1089-1103 | the flag in memory is always the last value set; outside a write the slot holds it, is still to be written, or cannot be read |
| ExcludedFlag.WritesOnlyAfterCleanRead | daemon/statefile.c:550-614 | the thread comes to write only through a read that succeeded with no new global section waiting |
| ExcludedFlag.ReadsDecideOnWrites | daemon/statefile.c:571-614 | a failed read forbids the next write, a clean one allows it, one with a global section waiting changes neither |
| ExcludedFlag.SuccessfulWriteStoresLastSet | daemon/statefile.c:907-1003 | a successful write cycle stores the last value set before it |
| ExcludedFlag.FailedWriteRestoresMask | daemon/statefile.c:977-1000 | a failing write cycle leaves the mask as it was, or up if the flag was set meanwhile |
| ExcludedFlag.TornWriteIsFinal | daemon/statefile.c:550-612 | after a torn write the own slot stays unreadable and is never written again |
| ExcludedFlag.WritesAgainIffReadable | daemon/statefile.c:550-612 | behind the write part of a cycle the thread can ever write again iff the own slot can be read |
| StateFileIO.Checksum | lib/statefileio.c:351-368 | the running sum is the word sum modulo 2^32 |
| StateFileIO.StoredInSlot | lib/statefileio.c:164-196 | a write no longer than a slot changes that slot only |
| StateFileIO.Device.WriteGlobal | lib/statefileio.c:301-325 | buffer and slot afterwards, all other slots unchanged |
| StateFileIO.Device.WriteHost | lib/statefileio.c:331-349 | the same for a host section |
| StateFileIO.Device.ReadGlobal | lib/statefileio.c:203-252 | buffer and status, in the order of the checks |
| StateFileIO.Device.ReadHost | lib/statefileio.c:259-294 | the same for a host section |
| StateFileIO.SealedIsOk | lib/statefileio.c:301-349 | a written section is valid and holds what was in the buffer |
| StateFileIO.KindsAreDistinct | lib/statefileio.c:203-294 | the inverted signatures, and no global section passes as a host section |
| StateFileIO.SealedGlobalStatus | lib/statefileio.c:203-252 | a written global section reads without an error exactly for its own generation |
| StateFileIO.OtherVersionStatus | lib/statefileio.c:238-252 | a section of another version is a version mismatch, whatever its generation |
| StateFileIO.OneWordChange | lib/statefileio.c:277-291 | a change of one word of a valid section goes unnoticed iff the word is the end marker or behind it |
| StateFileIO.OneWordChangeOfGlobal | lib/statefileio.c:225-252 | it is reported as corruption before version or UUID are looked at |
| StateFileIO.TornWrite | lib/statefileio.c:277-291 | a write cut off under the checksum is accepted iff old and new remainder have the same sum modulo 2^32 |
| StateFileIO.HostRoundTrip | lib/statefileio.c:259-349 | a written host section is read back valid and equal, and no other slot changes |
| StateFileIO.IoWords | lib/statefileio.c:180-180 | a section rounded up to I/O units fits its slot and covers the end marker |
| HostBitmap.MembersDetermineWords | include/sm.h:91-104 | a bitmap represents exactly one set |
| HostBitmap.IsOnIsMember | include/sm.h:60-60 | ISON is membership |
| HostBitmap.Set | include/sm.h:58-58 | SET inserts |
| HostBitmap.Reset | include/sm.h:59-59 | RESET removes |
| HostBitmap.SetBoolean | include/sm.h:61-65 | SET_BOOLEAN does either |
| HostBitmap.InitReset | include/sm.h:66-74 | INIT_RESET is the empty set |
| HostBitmap.InitSet | include/sm.h:76-84 | INIT_SET is all 64 hosts |
| HostBitmap.Compare | include/sm.h:91-104 | COMPARE reports inequality of sets |
| HostBitmap.SubsetEqual | include/sm.h:106-119 | SUBSETEQUAL is inclusion |
| HostBitmap.Difference | include/sm.h:121-132 | DIFFERENCE, also in place |
| HostBitmap.Union | include/sm.h:134-146 | UNION, also in place |
| HostBitmap.Intersection | include/sm.h:148-159 | INTERSECTION, also in place |
| HostBitmap.Complement | include/sm.h:161-172 | COMPLEMENT, also in place |
| HostBitmap.MaskUnconfig | include/sm.h:173-184 | MASK_UNCONFIG keeps the configured hosts |

## Left out

- Sockets, threads, select loops, signals, hypercalls, configuration files, logging, fault injection, the bond monitor, the xapi health check and the query commands are not part of this model; a lock section of the source is one step, a watchdog is a deadline.
- Start Criteria: only the vote is modelled; the rest is a timeout-driven case analysis.
- Rendezvous.ReachableInv: membership is fixed, heartbeat sequence numbers neither wrap nor are reset by a timeout, and taking a sequence number and the snapshot of a packet is one step.
- Rendezvous.StatefileNamesExact: the phase names on the state file are exact only for copies less than nine phases old; the code does not bound their age.
- Merge.SomebodySurvives: asks every candidate's row to be reflexive; one reflexive row is not enough, as the counterexample shows. The lemma gives no condition for sets of rows that are reflexive only in part.
- StateManager.FaultHandler.CompareViews: one comparison and the stable copies are taken from one snapshot; the retry loop around it is not modelled.
- SplitBrain.NoSplitBrain: livesets are common and every view of a live host is current; the case of an outdated view that reaches its timeout is the merge's. Hosts outside the liveset must publish nothing wrong about who is on the state file.
- Arbitration.MergeThenVoteElectsWinners: says nothing about hosts whose views differ, and neither the source nor this model claims that the merged clique is the largest one.
- LockExclusion.LockExclusion: holds if the lower-priority request is clean; the counterexample shows why. Runs start after every host's first clean-up, because the initial grants of lm_initialize_lm_fields are all on. The waiting loop of lm_request_lock is not modelled.
- JoinProtocol.NewcomersAreAcknowledged: holds while every start was from a complete liveset, see above. No fault handling runs meanwhile, a host whose join() has timed out does not ask again, and a slot that is not marked as starting was written by a host that counts itself live. Forming a new liveset, when there is none, is not modelled.
- ObjectTable.Table.Open: the object's data buffer, its checksum, the read-write lock and the running of callbacks are not modelled; com_create and com_open differ only in what they do there.
- ObjectTable.Table.Close: handles passed in are open ones; the source answers a null or corrupted handle with an assertion failure or an error, which is not modelled.
- Fencing.DroppedHostHasFenced: the last sign of life is the one whose age led to the drop; a host that resumes sending afterwards is stopped by the protocol itself, not by this wait. The unit conversions of nanosleep are exact.
- WeightText.ScanInt: numbers beyond 64 bits, where sscanf is undefined, are read as their value modulo 2^32.
- WeightFile.ReadHostweightFile: I/O errors and partial reads and writes of the weight file are not modelled, nor is the file lock.
- ExcludedFlag.StateFileThread.EndWrite: a write that transfers nothing at all and still reports no error is not modelled; a short one is.
- LockManager.EveryRunSettles: the online hosts stay the same and no new orders arrive meanwhile; every pass sees the one shared table, without the stale copies of LockExclusion.
- StateFileIO.Device.Write: I/O errors are not modelled; a cut-off write is (TornWrite). The case-insensitive comparison of generation UUIDs is a parameter.
- ExcludedFlag.NoUpdateIsLost: a torn slot is its third case, which is final (TornWriteIsFinal). Only the excluded flag has this property. The mask bits of master and pool state are cleared before their write is tried, so a failing write loses them; start_fh's degradation flags likewise remember only the last lost host.
- HostBitmap.Bitwise: the operators of C on unsigned words are modelled bit by bit on numbers.
