/**
 A peer that has dropped this host from its heartbeat domain is dropped in turn, without a timeout (update_hbdomain,
 daemon/heartbeat.c), and then loses its place in the liveset (test_Survival_Rule and phase 4 of fault_handler,
 daemon/sm.c). Whether it is down by then depends on its place on the state file.
 */
module Desertion {
  import opened MachineInts
  import opened Hosts
  import opened Scores
  import opened Merge
  import opened Survival
  import opened Arbitration
  import opened Domains
  import opened Fencing
  import opened StateManager

  /** The maps of a pool of two hosts; host 1 no longer has host 0 in its heartbeat domain. */
  function PeerViews(): (raw: seq<Raw>)
    ensures |raw| == 2
  {
    [Raw({0, 1}, {0, 1}, {0, 1}, {0, 1}), Raw({0, 1}, {0, 1}, {1}, {0, 1})]
  }

  /** What the two hosts work from: they see only themselves, and host 1 may have lost the state file. */
  function DeserterPool(sfdomain: HostMap): Pool {
    Pool(2, {0, 1}, sfdomain, [{0}, {1}], [1, 1])
  }

  lemma UnitWeights(w: seq<U32>)
    requires w == [1, 1]
    ensures Weight(Configured(2), w, 2) == 2
    ensures Weight({0}, w, 2) == Weight({1}, w, 2) == 1
    ensures Count({0}, 2) == Count({1}, 2) == 1 && Lowest({0}, 2) == 0 && Lowest({1}, 2) == 1
  {
    var both, first, second: HostMap := {0, 1}, {0}, {1};
    assert Configured(2) == both;
    assert w[0] == 1 && w[1] == 1;
    assert Weight(both, w, 0) == Weight(first, w, 0) == Weight(second, w, 0) == 0;
    assert Weight(both, w, 1) == 1 && Weight(first, w, 1) == 1 && Weight(second, w, 1) == 0;
    assert Count(first, 0) == Count(second, 0) == 0;
    assert Count(first, 1) == 1 && Count(second, 1) == 0;
    assert Lowest(first, 1) == 0 && Lowest(second, 1) == 1;
  }

  /** Of two equal partitions the merge keeps the one with the lower host. */
  lemma LowerHostWins(w: seq<U32>)
    requires w == [1, 1]
    ensures Survivors(Rows([{0}, {1}], {}), w, 2) == {0}
  {
    var s := Rows([{0}, {1}], {});
    UnitWeights(w);
    assert Configured(2) == {0, 1};
    ScoreIsLexicographic({1}, {0}, w, 2);
    assert Best(s, w, 2, 0);
    MergeKeepsBestPartition(s, w, 2, 0);
  }

  lemma DesertedWinners(p: Pool)
    requires p == DeserterPool({0}) || p == DeserterPool({0, 1})
    ensures ValidPool(p) && Winners(p) == {0} && Decisive(p)
  {
    assert Configured(2) == {0, 1};
    UnitWeights(p.weight);
    LightPoolsAreDecisive(p);
    if p == DeserterPool({0, 1}) {
      FullDomainStart(p);
      LowerHostWins(p.weight);
    } else {
      EqualRowsStay(p, {0});
    }
  }

  /** Host 0 hears host 1 now, but is deserted by it; on the state file host 1 is current, or has timed out. */
  method DropDeserter(T1: U32, T2: U32, now: nat, onStatefile: bool) returns (keeper: DomainKeeper)
    requires 0 < ToU32(T1 * ONE_SEC) && 0 < ToU32(T2 * ONE_SEC) <= now
    ensures keeper.Valid() && keeper.me == 0 && keeper.T1 == T1 && keeper.timeLastHB.Length == 2
    ensures keeper.timeLastHB[1] == now && keeper.Deserted(1, true, [true, true], PeerViews())
    ensures keeper.hbdomain == {0} && keeper.sfdomain == (if onStatefile then {0, 1} else {0})
  {
    keeper := new DomainKeeper(2, 0, T1, T2);
    keeper.hbdomain, keeper.sfdomain := {0, 1}, {0, 1};
    keeper.timeLastHB[1] := now;
    keeper.timeLastSF[0] := now;
    keeper.timeLastSF[1] := if onStatefile then now else now - ToU32(T2 * ONE_SEC);
    var changed := keeper.UpdateHbdomain(now, true, [true, true], PeerViews(), true);
    assert 0 in keeper.hbdomain && 1 !in keeper.hbdomain && forall i: nat :: i >= 2 ==> i !in keeper.hbdomain;
    changed := keeper.UpdateSfdomain(now, true, true);
    assert 0 in keeper.sfdomain && (1 in keeper.sfdomain <==> onStatefile);
    assert forall i: nat :: i >= 2 ==> i !in keeper.sfdomain;
  }

  lemma DeserterIsShared(p: Pool, hb: HbView, sf: SfView)
    requires p == DeserterPool({0}) || p == DeserterPool({0, 1})
    requires hb == HbView({0}, PeerViews()) && sf == SfView(p.sfdomain, PeerViews(), [1, 1], {}, true)
    ensures Configured(2) == {0, 1} && Shares(p, 0, hb, sf)
  {
    var both: HostMap := {0, 1};
    assert Configured(2) == both;
    assert {0} * both == {0} && {1} * both == {1} && both * both == both;
  }

  lemma AllButFirst(first: HostMap, sfdomain: HostMap)
    requires first == {0} && sfdomain <= {0, 1}
    ensures {0, 1} - (Configured(2) - first) == {0}
    ensures (Configured(2) - first) * (first + sfdomain) != {} <==> 1 in sfdomain
  {
    var both, left: HostMap := {0, 1}, {1};
    assert Configured(2) == both;
    assert both - first == left;
    assert 1 in left * (first + sfdomain) <==> 1 in sfdomain;
    assert left * (first + sfdomain) <= left;
  }

  /** Of the two hosts only host 1 is left out, and it is still seen iff it is on the state file. */
  lemma OnlyDeserterLeaves(p: Pool, hb: HbView, sf: SfView)
    requires p == DeserterPool({0}) || p == DeserterPool({0, 1})
    requires hb == HbView({0}, PeerViews()) && sf == SfView(p.sfdomain, PeerViews(), [1, 1], {}, true)
    ensures ValidPool(p) && Winners(p) == {0} && Decisive(p) && p.live - (Configured(2) - Winners(p)) == {0}
    ensures FaultHandler.StillSeen(p, hb, sf) == (1 in p.sfdomain)
  {
    DesertedWinners(p);
    AllButFirst(Winners(p), p.sfdomain);
  }

  /**
   Host 0 runs its round. If host 1 is still on the state file, the comparison fails there, and the merge keeps
   host 0 as the lower one; if not, the views agree. Either way host 0 survives and removes host 1 from its proposal,
   and the wait is extended iff host 1 is on the state file.
   */
  method RemoveDeserter(sfdomain: HostMap) returns (handler: FaultHandler)
    requires sfdomain == {0} || sfdomain == {0, 1}
    ensures fresh(handler) && handler.proposedLiveset == {0} && handler.sleepExtend == (1 in sfdomain)
  {
    var both: HostMap := {0, 1};
    var hb := HbView({0}, PeerViews());
    var sf := SfView(sfdomain, PeerViews(), [1, 1], {}, true);
    ghost var p := DeserterPool(sfdomain);
    DeserterIsShared(p, hb, sf);
    OnlyDeserterLeaves(p, hb, sf);
    handler := new FaultHandler(2, 0, both, true, hb, sf);
    var survived := handler.RunRoundOnSharedViews(p);
  }

  /**
   Host 1 was heard at this very moment, but it deserted host 0, which drops it and survives without it. The wait is
   extended iff host 1 is still on the state file. If so, host 1 is down when the liveset shrinks; if it is gone from
   there too, it may still run, iff the unextended wait is shorter than watchdog and interval.
   */
  method DesertedHostMayStillRun(c: Config, now: nat, onStatefile: bool)
    returns (keeper: DomainKeeper, handler: FaultHandler, fencing: FencingPhase)
    requires 0 < ToU32(c.T1 * ONE_SEC) && 0 < ToU32(c.T2 * ONE_SEC) <= now
    requires (W(c) + Interval(c)) * ONE_SEC < TWO_32
    ensures keeper.Valid() && keeper.me == 0 && keeper.T1 == c.T1 && keeper.timeLastHB.Length == 2
    ensures Heard(keeper.timeLastHB[1], now, c.T1) && keeper.Deserted(1, true, [true, true], PeerViews())
    ensures 1 !in keeper.hbdomain && (1 in keeper.sfdomain <==> onStatefile)
    ensures handler.proposedLiveset == {0} && handler.sleepExtend == onStatefile
    ensures fencing.current == {0}
    ensures fencing.clock < DownBy(c, keeper.timeLastHB[1]) <==>
            !onStatefile && Max(BaseDelay(c), FH_MINIMUM_SLEEP * ONE_SEC) < (W(c) + Interval(c)) * ONE_SEC
  {
    keeper := DropDeserter(c.T1, c.T2, now, onStatefile);
    handler := RemoveDeserter(keeper.sfdomain);
    fencing := new FencingPhase(now, {0, 1}, handler.proposedLiveset, true);
    if onStatefile {
      ExtendedDelaySuffices(c, now, now);
    }
    fencing.Run(c, now, handler.sleepExtend, 0);
    assert fencing.current == {0, 1} * {0} == {0};
  }
}
