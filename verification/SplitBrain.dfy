/** Which hosts can survive together when no merge takes place, and who wins the vote at start-up. */
module SplitBrain {
  import opened MachineInts
  import opened Hosts
  import opened Scores
  import opened Survival
  import opened Arbitration

  // ---------------------------------------------------------------- agreed views

  datatype View = View(hb: HbView, sf: SfView)

  function Hbd(v: View, live: HostMap, n: nat): HostMap {
    v.hb.hbdomain * Configured(n) * live
  }

  function Sfd(v: View, live: HostMap, n: nat): HostMap {
    v.sf.sfdomain * Configured(n) * live
  }

  /** Host `h` holds up-to-date copies of the maps of every host it sees. */
  ghost predicate Current(v: seq<View>, n: nat, live: HostMap, h: nat)
    requires |v| == n && h < n
  {
    && WellSized(v[h].hb, v[h].sf, n)
    && (forall i: nat :: i < n && i != h && i in Hbd(v[h], live, n) ==>
          v[h].hb.raw[i].hbdomain == v[i].hb.hbdomain && v[h].hb.raw[i].sfdomain == v[i].sf.sfdomain)
    && (forall i: nat :: i < n && i != h && i in Sfd(v[h], live, n) ==>
          v[h].sf.raw[i].hbdomain == v[i].hb.hbdomain && v[h].sf.raw[i].sfdomain == v[i].sf.sfdomain)
  }

  /**
   Every live host has passed its comparison loop on current copies, sees itself, and shares one disk: two live hosts
   that both have state-file access see each other there. Hosts outside the liveset may be on the state file, too.
   */
  ghost predicate LiveHostsAgree(v: seq<View>, n: nat, live: HostMap, excluded: HostMap) {
    && |v| == n && live <= Configured(n)
    && (forall h :: 0 <= h < n ==> WellSized(v[h].hb, v[h].sf, n))
    && (forall h :: h in live ==>
          && Current(v, n, live, h) && ViewsAgree(v[h].hb, v[h].sf, live, n, h)
          && h in v[h].hb.hbdomain && v[h].sf.excluded == excluded
          && (h in v[h].sf.sfdomain ==> v[h].sf.sfAccess))
    && (forall h, i :: h in live && i in live && h in v[h].sf.sfdomain && i in v[i].sf.sfdomain ==>
          i in v[h].sf.sfdomain)
  }

  /** A host outside the liveset that `h` sees on the state file, and that publishes `h` as being there, is right. */
  ghost predicate StartersAreRight(v: View, n: nat, live: HostMap, h: nat)
    requires WellSized(v.hb, v.sf, n)
  {
    forall l: nat :: l < n && l !in live && l in v.sf.sfdomain && h in v.sf.raw[l].sfdomain ==> h in v.sf.sfdomain
  }

  ghost predicate Agreed(v: seq<View>, n: nat, live: HostMap, excluded: HostMap) {
    && LiveHostsAgree(v, n, live, excluded)
    && forall h :: h in live ==> StartersAreRight(v[h], n, live, h)
  }

  lemma VisibleHostsAgree(v: seq<View>, n: nat, live: HostMap, excluded: HostMap, h: nat, i: nat)
    requires LiveHostsAgree(v, n, live, excluded) && h in live
    requires i in Hbd(v[h], live, n) || i in Sfd(v[h], live, n)
    ensures i in live && Hbd(v[i], live, n) == Hbd(v[h], live, n) && Sfd(v[i], live, n) == Sfd(v[h], live, n)
  {
    if i != h {
      assert AgreesWith(v[h].hb, v[h].sf, live, n, i);
    }
  }

  /** A host with anybody on its state-file domain sees, on both channels, a host that has access. */
  lemma DomainHasAnchor(v: seq<View>, n: nat, live: HostMap, excluded: HostMap, a: nat) returns (w: nat)
    requires LiveHostsAgree(v, n, live, excluded) && a in live && Sfd(v[a], live, n) != {}
    ensures w in Hbd(v[a], live, n) && w in Sfd(v[a], live, n) && w in Sfd(v[w], live, n)
  {
    w :| w in Sfd(v[a], live, n);
    DomainIsVisible(v, n, live, excluded, a, w);
    VisibleHostsAgree(v, n, live, excluded, a, w);
  }

  /** Whoever an agreeing host sees on the state file, it sees by heartbeat. */
  lemma DomainIsVisible(v: seq<View>, n: nat, live: HostMap, excluded: HostMap, a: nat, w: nat)
    requires LiveHostsAgree(v, n, live, excluded) && a in live && w in Sfd(v[a], live, n)
    ensures w in Hbd(v[a], live, n)
  {
    VisibleHostsAgree(v, n, live, excluded, a, w);
    assert w in Hbd(v[w], live, n);
  }

  /** The host that leads the vote of `me`, or -1. */
  function VoteLeader(v: View, n: nat, me: nat): int
    requires WellSized(v.hb, v.sf, n)
  {
    Leader(v.hb.(hbdomain := v.hb.hbdomain * Configured(n)), v.sf.(sfdomain := v.sf.sfdomain * Configured(n)), n, me, n)
  }

  /** A host outside the liveset leads the vote of `me`, and the two see each other on both channels. */
  ghost predicate WinsThroughStarter(v: View, n: nat, live: HostMap, me: nat)
    requires WellSized(v.hb, v.sf, n)
  {
    var l := VoteLeader(v, n, me);
    && l >= 0 && l !in live
    && me in v.sf.raw[l].sfdomain && me in v.sf.raw[l].hbdomain && l in v.hb.hbdomain
  }

  /** With nobody of the liveset on its state-file domain, that is the only way to survive by Rule 1. */
  lemma EmptyDomainRule1(v: View, n: nat, live: HostMap, me: nat)
    requires WellSized(v.hb, v.sf, n) && me in live && me < n && Sfd(v, live, n) == {}
    ensures Rule1(v.hb, v.sf, live, n, me) <==> WinsThroughStarter(v, n, live, me)
  {
    var l := VoteLeader(v, n, me);
    assert l >= 0 ==> l in v.sf.sfdomain * Configured(n);
    assert l >= 0 && l in live ==> l in Sfd(v, live, n);
  }

  /** If the starting host is right, it shows that `me` has not left the state file. */
  lemma RightStarterShowsDomain(v: View, n: nat, live: HostMap, me: nat)
    requires WellSized(v.hb, v.sf, n) && me in live && me < n && StartersAreRight(v, n, live, me)
    requires WinsThroughStarter(v, n, live, me)
    ensures Sfd(v, live, n) != {}
  {
    var l := VoteLeader(v, n, me);
    assert l in v.sf.sfdomain * Configured(n);
    assert me in Sfd(v, live, n);
  }

  /** A host that may survive by Rule 2 sees every non-excluded host, and the two have the same heartbeat domain. */
  lemma SeenByRule2(v: seq<View>, n: nat, live: HostMap, excluded: HostMap, a: nat, b: nat)
    requires LiveHostsAgree(v, n, live, excluded) && a in live && b in live && a !in excluded
    requires Rule2(v[b].hb, v[b].sf, live, n, b)
    ensures Hbd(v[a], live, n) == Hbd(v[b], live, n)
  {
    assert a in Hbd(v[b], live, n);
    VisibleHostsAgree(v, n, live, excluded, b, a);
  }

  /** A visible host with access speaks against Rule 2. */
  lemma AnchorHasAccess(v: seq<View>, n: nat, live: HostMap, excluded: HostMap, b: nat, w: nat)
    requires LiveHostsAgree(v, n, live, excluded) && b in live && w in Hbd(v[b], live, n) && w in Sfd(v[w], live, n)
    ensures !Rule2(v[b].hb, v[b].sf, live, n, b)
  {
    assert w in v[b].hb.hbdomain * live;
    assert HasAccess(v[b].hb, v[b].sf, b, w);
  }

  /** Rule 2 on any host leaves a non-excluded host with nobody of the liveset on its state-file domain. */
  lemma Rule2EmptiesDomains(v: seq<View>, n: nat, live: HostMap, excluded: HostMap, a: nat, b: nat)
    requires LiveHostsAgree(v, n, live, excluded) && a in live && b in live && a !in excluded
    requires Rule2(v[b].hb, v[b].sf, live, n, b)
    ensures Sfd(v[a], live, n) == {}
  {
    if Sfd(v[a], live, n) != {} {
      var w := DomainHasAnchor(v, n, live, excluded, a);
      SeenByRule2(v, n, live, excluded, a, b);
      AnchorHasAccess(v, n, live, excluded, b, w);
    }
  }

  /**
   While some host survives by Rule 2, a non-excluded host survives by Rule 1 if and only if a host outside the
   liveset leads its vote, with the two seeing each other on both channels.
   */
  lemma BothRulesIffStarterWins(v: seq<View>, n: nat, live: HostMap, excluded: HostMap, a: nat, b: nat)
    requires LiveHostsAgree(v, n, live, excluded) && a in live && b in live && a !in excluded
    requires Rule2(v[b].hb, v[b].sf, live, n, b)
    ensures Rule1(v[a].hb, v[a].sf, live, n, a) <==> WinsThroughStarter(v[a], n, live, a)
  {
    Rule2EmptiesDomains(v, n, live, excluded, a, b);
    EmptyDomainRule1(v[a], n, live, a);
  }

  /** Two different non-excluded hosts never survive by different rules, as long as starting hosts are right. */
  lemma NoSurvivalUnderBothRules(v: seq<View>, n: nat, live: HostMap, excluded: HostMap, a: nat, b: nat)
    requires Agreed(v, n, live, excluded) && a in live && b in live && a !in excluded
    ensures !(Rule1(v[a].hb, v[a].sf, live, n, a) && Rule2(v[b].hb, v[b].sf, live, n, b))
  {
    if Rule1(v[a].hb, v[a].sf, live, n, a) && Rule2(v[b].hb, v[b].sf, live, n, b) {
      BothRulesIffStarterWins(v, n, live, excluded, a, b);
      RightStarterShowsDomain(v[a], n, live, a);
      Rule2EmptiesDomains(v, n, live, excluded, a, b);
    }
  }

  /** A Rule-1 winner sees a host, on both channels, that has state-file access. */
  lemma Rule1HasAnchor(v: seq<View>, n: nat, live: HostMap, excluded: HostMap, a: nat) returns (w: nat)
    requires Agreed(v, n, live, excluded) && a in live && Rule1(v[a].hb, v[a].sf, live, n, a)
    ensures w in Hbd(v[a], live, n) && w in Sfd(v[a], live, n) && w in Sfd(v[w], live, n)
  {
    if Sfd(v[a], live, n) == {} {
      EmptyDomainRule1(v[a], n, live, a);
      RightStarterShowsDomain(v[a], n, live, a);
    }
    w := DomainHasAnchor(v, n, live, excluded, a);
  }

  /** Two non-excluded Rule-2 survivors are in each other's heartbeat domain. */
  lemma Rule2SurvivorsSeeEachOther(v: seq<View>, n: nat, live: HostMap, excluded: HostMap, a: nat, b: nat)
    requires Agreed(v, n, live, excluded) && a in live && b in live && a !in excluded && b !in excluded
    requires Rule2(v[a].hb, v[a].sf, live, n, a) && Rule2(v[b].hb, v[b].sf, live, n, b)
    ensures b in Hbd(v[a], live, n) && a in Hbd(v[b], live, n)
    ensures Hbd(v[a], live, n) == Hbd(v[b], live, n)
  {
    VisibleHostsAgree(v, n, live, excluded, a, b);
  }

  /** No split brain: all non-excluded survivors hold one and the same heartbeat domain. */
  lemma NoSplitBrain(v: seq<View>, n: nat, live: HostMap, excluded: HostMap, a: nat, b: nat)
    requires Agreed(v, n, live, excluded) && a in live && b in live && a !in excluded && b !in excluded
    requires Survives(v[a].hb, v[a].sf, live, n, a) && Survives(v[b].hb, v[b].sf, live, n, b)
    ensures Hbd(v[a], live, n) == Hbd(v[b], live, n)
    ensures Rule1(v[a].hb, v[a].sf, live, n, a) <==> Rule1(v[b].hb, v[b].sf, live, n, b)
  {
    NoSurvivalUnderBothRules(v, n, live, excluded, a, b);
    NoSurvivalUnderBothRules(v, n, live, excluded, b, a);
    if Rule1(v[a].hb, v[a].sf, live, n, a) {
      var w := Rule1HasAnchor(v, n, live, excluded, a);
      var w' := Rule1HasAnchor(v, n, live, excluded, b);
      VisibleHostsAgree(v, n, live, excluded, a, w);
      VisibleHostsAgree(v, n, live, excluded, b, w');
      VisibleHostsAgree(v, n, live, excluded, w, w');
    } else {
      Rule2SurvivorsSeeEachOther(v, n, live, excluded, a, b);
    }
  }

  lemma LightDomain(w: seq<U32>)
    requires w == [1, 1, 1]
    ensures PartitionSize({0, 1, 2}, {0, 1, 2}, w, 3) > 0
  {
    var all: HostMap := {0, 1, 2};
    assert all * all == all;
    assert w[0] == 1 && w[1] == 1 && w[2] == 1;
    assert Weight(all, w, 0) == 0;
    assert Weight(all, w, 1) == 1;
    assert Weight(all, w, 2) == 2;
    assert Weight(all, w, 3) == 3;
    assert Configured(3) == all;
    PartitionSizeExact(all, all, w, 3);
  }

  lemma VoteThroughStarter(v: View)
    requires v.hb.hbdomain == {0, 1, 2} && v.sf.sfdomain == {2} && WellSized(v.hb, v.sf, 3)
    requires v.sf.weight == [1, 1, 1] && v.sf.raw[2].sfdomain == v.sf.raw[2].hbdomain == {0, 1, 2}
    ensures Rule1(v.hb, v.sf, {0, 1}, 3, 0)
  {
    var hb', sf' := v.hb.(hbdomain := v.hb.hbdomain * Configured(3)), v.sf.(sfdomain := v.sf.sfdomain * Configured(3));
    assert hb' == v.hb && sf' == v.sf;
    LightDomain(v.sf.weight);
    assert Leader(v.hb, v.sf, 3, 0, 2) == -1;
    assert Leader(v.hb, v.sf, 3, 0, 3) == 2;
  }

  lemma VoteWithoutDomain(v: View)
    requires v.sf.sfdomain == {} && WellSized(v.hb, v.sf, 3)
    ensures !Rule1(v.hb, v.sf, {0, 1}, 3, 1)
  {
    var hb', sf' := v.hb.(hbdomain := v.hb.hbdomain * Configured(3)), v.sf.(sfdomain := v.sf.sfdomain * Configured(3));
    assert Leader(hb', sf', 3, 1, 1) == -1;
    assert Leader(hb', sf', 3, 1, 3) == -1;
  }

  /**
   It happens: host 2 is outside the liveset and publishes a state-file domain with host 0, which host 0 has left.
   Host 0 wins the vote through it, while host 1 survives by Rule 2.
   */
  lemma WrongStarterSplitsRules() returns (v: seq<View>)
    ensures LiveHostsAgree(v, 3, {0, 1}, {2}) && !StartersAreRight(v[0], 3, {0, 1}, 0)
    ensures WinsThroughStarter(v[0], 3, {0, 1}, 0)
    ensures Rule1(v[0].hb, v[0].sf, {0, 1}, 3, 0)
    ensures !Rule1(v[1].hb, v[1].sf, {0, 1}, 3, 1) && Rule2(v[1].hb, v[1].sf, {0, 1}, 3, 1)
  {
    var all: HostMap := {0, 1, 2};
    var r0, r1, r2 := Raw({}, {}, all, {2}), Raw({}, {}, all, {}), Raw({}, {}, all, all);
    var w: seq<U32> := [1, 1, 1];
    var v0 := View(HbView(all, [r0, r1, r2]), SfView({2}, [r0, r1, r2], w, {2}, false));
    var v1 := View(HbView(all, [r0, r1, r2]), SfView({}, [r0, r1, r2], w, {2}, false));
    v := [v0, v1, v1];
    assert Configured(3) == all;
    assert Hbd(v0, {0, 1}, 3) == {0, 1} == Hbd(v1, {0, 1}, 3);
    assert Sfd(v0, {0, 1}, 3) == {} == Sfd(v1, {0, 1}, 3);
    VoteThroughStarter(v0);
    VoteWithoutDomain(v1);
    EmptyDomainRule1(v0, 3, {0, 1}, 0);
  }

  // ---------------------------------------------------------------- start vote

  /** The pool at start-up: one state-file domain, heartbeat rows, weights. */
  datatype StartPool = StartPool(n: nat, sfdomain: HostMap, row: seq<HostMap>, weight: seq<U32>)

  /** The rows of the hosts on the state file are the classes of an equivalence relation. */
  ghost predicate Classes(p: StartPool) {
    && p.n <= MAX_HOST_NUM && |p.row| == p.n && |p.weight| >= p.n && p.sfdomain <= Configured(p.n)
    && (forall i :: i in p.sfdomain ==> i in p.row[i])
    && (forall i, j :: i in p.sfdomain && j in p.sfdomain && j in p.row[i] ==>
          p.row[j] * p.sfdomain == p.row[i] * p.sfdomain)
  }

  ghost predicate SharesStart(p: StartPool, me: nat, hb: HbView, sf: SfView) {
    && Classes(p) && me < p.n && WellSized(hb, sf, p.n)
    && sf.sfdomain == p.sfdomain && sf.weight == p.weight && hb.hbdomain == p.row[me]
    && forall i :: i in p.sfdomain && i != me ==> sf.raw[i].sfdomain == p.sfdomain && sf.raw[i].hbdomain == p.row[i]
  }

  function ClassSize(p: StartPool, i: nat): int
    requires |p.row| == p.n <= |p.weight| && i < p.n
  {
    PartitionSize(p.sfdomain, p.row[i], p.weight, p.n)
  }

  /** `b` is the lowest host of a class of greatest positive size. */
  ghost predicate Top(p: StartPool, b: nat)
    requires Classes(p)
  {
    && b in p.sfdomain && ClassSize(p, b) > 0
    && (forall i :: i in p.sfdomain ==> ClassSize(p, i) <= ClassSize(p, b))
    && (forall i :: i in p.sfdomain && i < b ==> ClassSize(p, i) < ClassSize(p, b))
  }

  lemma LeaderIsTop(p: StartPool, me: nat, hb: HbView, sf: SfView)
    requires SharesStart(p, me, hb, sf)
    ensures var l := Leader(hb, sf, p.n, me, p.n);
            if l >= 0 then Top(p, l) else forall b: nat :: b in p.sfdomain ==> !Top(p, b)
  {
    assert forall i :: 0 <= i < p.n ==> SizeOf(hb, sf, p.n, me, i) == if i in p.sfdomain then ClassSize(p, i) else 0;
  }

  /** Exactly the members of the top class win, on whichever host the vote is computed. */
  lemma ExactlyOneClassWins(p: StartPool, me: nat, hb: HbView, sf: SfView)
    requires SharesStart(p, me, hb, sf)
    ensures InLargest(hb, sf, p.n, me) <==> exists b: nat :: Top(p, b) && me in p.row[b] && me in p.sfdomain
    ensures forall b: nat :: Top(p, b) ==> (InLargest(hb, sf, p.n, me) <==> me in p.row[b] * p.sfdomain)
  {
    LeaderIsTop(p, me, hb, sf);
    var l := Leader(hb, sf, p.n, me, p.n);
    if l >= 0 {
      assert forall b: nat :: Top(p, b) ==> b == l;
      assert me in p.sfdomain && me in p.row[l] ==> p.row[me] * p.sfdomain == p.row[l] * p.sfdomain;
      assert l in p.row[l] * p.sfdomain;
      assert me in p.sfdomain && l in p.row[me] ==> p.row[l] * p.sfdomain == p.row[me] * p.sfdomain;
      assert me in p.sfdomain ==> me in p.row[me] * p.sfdomain;
      assert InLargest(hb, sf, p.n, me) <==> me in p.row[l] * p.sfdomain;
    }
  }

  /** Two hosts that do not see each other, both on the state file. */
  function TwoHosts(w: seq<U32>): StartPool {
    StartPool(2, {0, 1}, [{0}, {1}], w)
  }

  lemma SizesOfTwo(w: seq<U32>)
    requires |w| >= 2
    ensures ClassSize(TwoHosts(w), 0) == ToS32(1 + 0x100 * w[0] as int)
    ensures ClassSize(TwoHosts(w), 1) == ToS32(1 + 0x100 * w[1] as int)
  {
    SizeOfOne({0, 1}, 0, w, 2);
    SizeOfOne({0, 1}, 1, w, 2);
  }

  lemma TopOfTwo(p: StartPool, b: nat)
    requires |p.weight| >= 2 && p == TwoHosts(p.weight) && Classes(p)
    ensures Top(p, b) <==>
            b < 2 && ClassSize(p, b) > 0 &&
            (if b == 0 then ClassSize(p, 0) >= ClassSize(p, 1) else ClassSize(p, 1) > ClassSize(p, 0))
  {
  }

  lemma OwnClassWins(p: StartPool, me: nat, hb: HbView, sf: SfView)
    requires |p.weight| >= 2 && p == TwoHosts(p.weight) && SharesStart(p, me, hb, sf)
    ensures InLargest(hb, sf, 2, me) <==> Top(p, me)
  {
    ExactlyOneClassWins(p, me, hb, sf);
    assert me in p.row[me] && me in p.sfdomain;
    forall b: nat | Top(p, b) && me in p.row[b]
      ensures b == me
    {
    }
  }

  /**
   The heavier of two hosts that do not see each other wins the vote, the first one on a tie, as long as the sizes do
   not wrap; in general it is the one with the greater wrapped size, provided that is positive.
   */
  lemma HeavierHostWins(w: seq<U32>, me: nat, hb: HbView, sf: SfView)
    requires |w| >= 2 && SharesStart(TwoHosts(w), me, hb, sf)
    ensures var own, other := ToS32(1 + 0x100 * w[me] as int), ToS32(1 + 0x100 * w[1 - me] as int);
            InLargest(hb, sf, 2, me) <==> own > 0 && (if me == 0 then own >= other else own > other)
    ensures w[0] < 0x80_0000 && w[1] < 0x80_0000 ==>
              (InLargest(hb, sf, 2, me) <==> me == if w[1] > w[0] then 1 else 0)
  {
    var p := TwoHosts(w);
    SizesOfTwo(w);
    OwnClassWins(p, me, hb, sf);
    TopOfTwo(p, me);
  }

  /** In a light pool there is a winning class, and it is first by weight, then by number of hosts. */
  lemma LightPoolHasTop(p: StartPool, i: nat)
    requires Classes(p) && Weight(Configured(p.n), p.weight, p.n) < 0x80_0000 && i in p.sfdomain
    ensures exists b: nat :: Top(p, b)
    ensures forall b: nat :: Top(p, b) ==>
              var mine, best := p.sfdomain * p.row[i], p.sfdomain * p.row[b];
              Weight(mine, p.weight, p.n) < Weight(best, p.weight, p.n) ||
              (Weight(mine, p.weight, p.n) == Weight(best, p.weight, p.n) && Count(mine, p.n) <= Count(best, p.n))
  {
    PartitionSizeExact(p.sfdomain, p.row[i], p.weight, p.n);
    CountStrict({}, p.sfdomain * p.row[i], p.n, i);
    var top := TopBelow(p, p.n, i);
    assert forall j :: j in p.sfdomain ==> j < p.n;
    assert Top(p, top);
    forall b: nat | Top(p, b)
      ensures var mine, best := p.sfdomain * p.row[i], p.sfdomain * p.row[b];
              Weight(mine, p.weight, p.n) < Weight(best, p.weight, p.n) ||
              (Weight(mine, p.weight, p.n) == Weight(best, p.weight, p.n) && Count(mine, p.n) <= Count(best, p.n))
    {
      PartitionSizeExact(p.sfdomain, p.row[b], p.weight, p.n);
      PackedSizeIsLexicographic(p.sfdomain * p.row[b], p.sfdomain * p.row[i], p.weight, p.n);
      assert ClassSize(p, i) <= ClassSize(p, b);
    }
  }

  lemma {:induction false} TopBelow(p: StartPool, k: nat, i: nat) returns (b: nat)
    requires Classes(p) && i < k <= p.n && i in p.sfdomain && ClassSize(p, i) > 0
    ensures b < k && b in p.sfdomain && ClassSize(p, b) > 0
    ensures forall j :: j in p.sfdomain && j < k ==> ClassSize(p, j) <= ClassSize(p, b)
    ensures forall j :: j in p.sfdomain && j < b ==> ClassSize(p, j) < ClassSize(p, b)
  {
    if exists j :: j in p.sfdomain && j < k - 1 && ClassSize(p, j) > 0 {
      var j :| j in p.sfdomain && j < k - 1 && ClassSize(p, j) > 0;
      b := TopBelow(p, k - 1, j);
      if k - 1 in p.sfdomain && ClassSize(p, k - 1) > ClassSize(p, b) {
        b := k - 1;
      }
    } else {
      b := i;
    }
  }
}
